/**
  The cluster link map: a table of the fragments of a file, so that seeking need not follow
  the FAT. The table holds its size, a pair (length, first cluster) for each maximal run of
  consecutive clusters, and a zero.
*/
module FastSeek {
  import opened Bytes
  import opened Volume
  import opened FatCodec
  import opened Chains
  import opened Allocator

  // ---------- Specification ----------

  /** The first `n` clusters of `s` are consecutive. */
  ghost predicate Contiguous(s: seq<nat>, n: nat)
    requires n <= |s|
  {
    forall i :: 0 <= i < n ==> s[i] == s[0] + i
  }

  /** Length of the maximal run of consecutive clusters at the head of `s`. */
  function RunLength(s: seq<nat>): (n: nat)
    requires s != []
    ensures 1 <= n <= |s|
  {
    if |s| == 1 || s[1] != s[0] + 1 then 1 else 1 + RunLength(s[1..])
  }

  lemma {:induction false} RunIsMaximal(s: seq<nat>)
    requires s != []
    ensures Contiguous(s, RunLength(s))
    ensures RunLength(s) < |s| ==> s[RunLength(s)] != s[RunLength(s) - 1] + 1
  {
    if |s| > 1 && s[1] == s[0] + 1 {
      RunIsMaximal(s[1..]);
      forall i | 0 <= i < RunLength(s)
        ensures s[i] == s[0] + i
      {
        if i > 0 {
          assert s[i] == s[1..][i - 1];
        }
      }
    }
  }

  lemma {:induction false} MaximalIsRun(s: seq<nat>, n: nat)
    requires 1 <= n <= |s| && Contiguous(s, n)
    requires n < |s| ==> s[n] != s[n - 1] + 1
    ensures RunLength(s) == n
  {
    if n > 1 {
      assert s[1] == s[0] + 1;
      assert forall i :: 0 <= i < n - 1 ==> s[1..][i] == s[i + 1];
      MaximalIsRun(s[1..], n - 1);
    }
  }

  /** Number of fragments of a chain. */
  function Fragments(s: seq<nat>): nat
    decreases |s|
  {
    if s == [] then 0 else 1 + Fragments(s[RunLength(s)..])
  }

  /** The table of a chain, without the size item. */
  function Encode(s: seq<nat>): (t: seq<nat>)
    decreases |s|
  {
    if s == [] then [0] else [RunLength(s), s[0]] + Encode(s[RunLength(s)..])
  }

  lemma {:induction false} EncodeLength(s: seq<nat>)
    ensures |Encode(s)| == 2 * Fragments(s) + 1
    decreases |s|
  {
    if s != [] {
      EncodeLength(s[RunLength(s)..]);
    }
  }

  /** `tbl` holds the link map of chain `s`. */
  ghost predicate Maps(tbl: seq<u32>, s: seq<nat>) {
    HoldsAt(tbl, 1, Encode(s))
  }

  ghost predicate HoldsAt(tbl: seq<u32>, p: nat, t: seq<nat>) {
    p + |t| <= |tbl| && forall i :: 0 <= i < |t| ==> tbl[p + i] == t[i]
  }

  /** A table position where the map of `t` begins. */
  lemma HoldsNext(tbl: seq<u32>, p: nat, t: seq<nat>)
    requires HoldsAt(tbl, p, Encode(t))
    ensures p < |tbl| && (tbl[p] == 0 <==> t == [])
    ensures t != [] ==>
      var n := RunLength(t);
      && p + 1 < |tbl| && tbl[p] == n && tbl[p + 1] == t[0]
      && HoldsAt(tbl, p + 2, Encode(t[n..]))
      && (forall i :: 0 <= i < n ==> t[i] == t[0] + i)
  {
    assert tbl[p] == Encode(t)[0];
    if t != [] {
      RunIsMaximal(t);
      var u := Encode(t[RunLength(t)..]);
      assert tbl[p + 1] == Encode(t)[1];
      assert forall i :: 0 <= i < |u| ==> u[i] == Encode(t)[i + 2];
    }
  }

  // ---------- clmt_clust ----------

  /** The cluster number `order` of the file, from the table; 0: beyond the end of the file. */
  method ClmtClust(tbl: array<u32>, order: nat, ghost s: seq<nat>) returns (r: nat)
    requires Maps(tbl[..], s)
    ensures r == if order < |s| then s[order] else 0
  {
    assert s[0..] == s;
    var cl: nat, p: nat := order, 1;
    ghost var k: nat := 0;
    hide Encode, HoldsAt, RunLength;
    while true
      invariant k <= |s| && k + cl == order
      invariant HoldsAt(tbl[..], p, Encode(s[k..]))
      decreases |s| - k
    {
      HoldsNext(tbl[..], p, s[k..]);
      var ncl := tbl[p];
      p := p + 1;
      if ncl == 0 { return 0; }
      if cl < ncl { break; }
      cl := cl - ncl;
      p := p + 1;
      assert s[k..][ncl..] == s[k + ncl..];
      k := k + ncl;
    }
    assert s[order] == s[k..][cl];
    return cl + tbl[p];
  }

  // ---------- The builder ----------

  /** The end value of the last cluster is not to be taken for a following cluster. */
  ghost predicate EndsClearly(fat: seq<nat>, s: seq<nat>)
    requires IsChain(fat, s)
  {
    s != [] ==> fat[s[|s| - 1]] != s[|s| - 1] + 1
  }

  /** What follows position `k - 1` of chain `s` in the FAT. */
  ghost function After(fat: seq<nat>, s: seq<nat>, k: nat): nat
    requires IsChain(fat, s) && 0 < k <= |s|
  {
    fat[s[k - 1]]
  }

  /** The run that begins at `top`: its length, and what the FAT holds for its last cluster. */
  method Fragment(fs: Fatfs, top: u32, ghost s: seq<nat>, ghost k: nat) returns (res: FResult, ncl: u32, cl: u32)
    requires fs.Valid() && IsChain(Fat(fs), s) && k < |s| && s[k] == top
    modifies fs`disk, fs`wflag, fs`faults, fs`winsect, fs.win
    ensures fs.Valid() && fs.Steady()
    ensures Agree(fs.g, fs.View(), old(fs.View())) && Fat(fs) == old(Fat(fs))
    ensures res == Ok ==>
      ncl == RunLength(s[k..]) && cl == After(Fat(fs), s, k + ncl) && (k + ncl == |s| ==> EndsClearly(Fat(fs), s))
    ensures res != Ok ==>
      (res == DiskErr && fs.faults > old(fs.faults)) || (res == IntErr && !EndsClearly(Fat(fs), s))
    ensures fs.winsect == old(fs.winsect) || InFat(fs.g, fs.winsect) || fs.winsect == 0xFFFF_FFFF
  {
    hide FatOf, IsChain, Contiguous, RunLength, EndsClearly, InRun;
    ghost var fat := Fat(fs);
    var pcl := top;
    res, ncl, cl := Ok, 0, top;
    RunStarts(fat, s, k);
    while true
      invariant fs.Valid() && fs.Steady()
      invariant Agree(fs.g, fs.View(), old(fs.View())) && Fat(fs) == fat
      invariant fs.winsect == old(fs.winsect) || InFat(fs.g, fs.winsect) || fs.winsect == 0xFFFF_FFFF
      invariant k + ncl <= |s| && InRun(fat, s, k, ncl, cl) && res == Ok
      decreases |s| - ncl
    {
      pcl := cl;
      RunGoesOn(fat, s, k, ncl, cl);
      cl := GetFat(fs, cl);
      if cl <= 1 { res := IntErr; return; }
      if cl == DISK_ERROR { res := DiskErr; return; }
      ncl := ncl + 1;
      if cl != pcl + 1 { break; }
    }
  }

  /** The first `ncl` clusters from position `k` on are consecutive, and `cl` is the number that follows them. */
  ghost predicate InRun(fat: seq<nat>, s: seq<nat>, k: nat, ncl: nat, cl: nat)
    requires IsChain(fat, s) && k < |s|
  {
    && k + ncl <= |s| && Contiguous(s[k..], ncl)
    && if k + ncl < |s| then cl == s[k + ncl] == s[k] + ncl else cl == |fat| && !EndsClearly(fat, s)
  }

  lemma RunStarts(fat: seq<nat>, s: seq<nat>, k: nat)
    requires IsChain(fat, s) && k < |s|
    ensures InRun(fat, s, k, 0, s[k])
  {
  }

  /** What the FAT holds for the number that follows: the run ends there, or goes on. */
  lemma RunGoesOn(fat: seq<nat>, s: seq<nat>, k: nat, ncl: nat, cl: nat)
    requires IsChain(fat, s) && k < |s| && InRun(fat, s, k, ncl, cl)
    ensures k + ncl == |s| ==> cl == |fat| && !EndsClearly(fat, s)
    ensures k + ncl < |s| ==>
      && 2 <= cl < |fat| && ncl < cl && fat[cl] == After(fat, s, k + ncl + 1) && fat[cl] > 1
      && (fat[cl] == cl + 1 ==> InRun(fat, s, k, ncl + 1, fat[cl]))
      && (fat[cl] != cl + 1 ==>
           RunLength(s[k..]) == ncl + 1 && (k + ncl + 1 == |s| ==> EndsClearly(fat, s)))
  {
    if k + ncl < |s| {
      ChainLinks(fat, s, k + ncl);
      var t := s[k..];
      assert t[ncl] == s[k + ncl];
      if fat[cl] != cl + 1 {
        assert k + ncl + 1 < |s| ==> t[ncl + 1] == s[k + ncl + 1];
        assert ncl > 0 ==> t[ncl] == t[0] + ncl;
        MaximalIsRun(t, ncl + 1);
      }
    }
  }

  // ---------- CREATE_LINKMAP ----------

  /** The first `n` of the pairs of a chain's table, for the first `k` clusters. */
  ghost predicate Covers(s: seq<nat>, k: nat, pairs: seq<nat>, n: nat)
    requires k <= |s|
  {
    |pairs| == 2 * n && Encode(s) == pairs + Encode(s[k..]) && Fragments(s) == n + Fragments(s[k..])
  }

  lemma CoversNext(s: seq<nat>, k: nat, pairs: seq<nat>, n: nat)
    requires k < |s| && Covers(s, k, pairs, n)
    ensures k + RunLength(s[k..]) <= |s|
    ensures Covers(s, k + RunLength(s[k..]), pairs + [RunLength(s[k..]), s[k]], n + 1)
  {
    var t := s[k..];
    hide RunLength;
    var pair, rest := [RunLength(t), s[k]], Encode(t[RunLength(t)..]);
    assert t[RunLength(t)..] == s[k + RunLength(t)..];
    assert Encode(t) == pair + rest;
    assert pairs + (pair + rest) == (pairs + pair) + rest;
  }

  lemma {:induction false} FragmentsFew(s: seq<nat>)
    ensures Fragments(s) <= |s|
    decreases |s|
  {
    if s != [] {
      FragmentsFew(s[RunLength(s)..]);
    }
  }

  /** Store one pair of the table. */
  method StorePair(tbl: array<u32>, p: nat, ncl: u32, tcl: u32, ghost pairs: seq<nat>)
    requires HoldsAt(tbl[..], 1, pairs) && p == 1 + |pairs| && p + 1 < tbl.Length
    modifies tbl
    ensures HoldsAt(tbl[..], 1, pairs + [ncl, tcl])
    ensures forall i :: 0 <= i < tbl.Length && i != p && i != p + 1 ==> tbl[i] == old(tbl[i])
  {
    tbl[p] := ncl;
    tbl[p + 1] := tcl;
  }

  /** Store the size, and the terminator if the table has room for it. */
  method CloseTable(tbl: array<u32>, p: nat, ulen: u32, tlen: u32, ghost s: seq<nat>, ghost pairs: seq<nat>)
      returns (res: FResult)
    requires Encode(s) == pairs + [0] && ulen == |pairs| + 2
    requires 1 <= tbl.Length && tlen <= tbl.Length
    requires ulen <= tlen ==> HoldsAt(tbl[..], 1, pairs) && p == 1 + |pairs|
    modifies tbl
    ensures tbl[0] == ulen
    ensures res == if ulen <= tlen then Ok else NotEnoughCore
    ensures res == Ok ==> Maps(tbl[..], s)
    ensures forall i :: 0 < i < tbl.Length && i >= tlen ==> tbl[i] == old(tbl[i])
  {
    tbl[0] := ulen;
    res := Ok;
    if ulen <= tlen {
      tbl[p] := 0;
    } else {
      res := NotEnoughCore;
    }
  }

  /** The table after the fragments of the first `k` clusters, as far as it has room for them. */
  ghost predicate Building(tbl: seq<u32>, tlen: nat, s: seq<nat>, k: nat, pairs: seq<nat>, ulen: nat, p: nat)
    requires k <= |s|
  {
    && Covers(s, k, pairs, |pairs| / 2)
    && ulen == |pairs| + 2
    && (ulen <= tlen ==> p == |pairs| + 1 && HoldsAt(tbl, 1, pairs))
  }

  /** Account for one more fragment, and store it if there is room. */
  method KeepFragment(tbl: array<u32>, tlen: u32, ulen: u32, p: nat, ncl: u32, top: u32,
                      ghost s: seq<nat>, ghost k: nat, ghost pairs: seq<nat>)
      returns (ulen': u32, p': nat)
    requires tlen <= tbl.Length && k < |s| <= 0x1000_0000
    requires s[k] == top && ncl == RunLength(s[k..]) && Building(tbl[..], tlen, s, k, pairs, ulen, p)
    modifies tbl
    ensures k + ncl <= |s| && Building(tbl[..], tlen, s, k + ncl, pairs + [ncl, top], ulen', p')
    ensures forall i :: 0 <= i < tbl.Length && (i == 0 || i >= tlen) ==> tbl[i] == old(tbl[i])
  {
    hide Encode, RunLength, HoldsAt;
    CoversNext(s, k, pairs, |pairs| / 2);
    FragmentsFew(s);
    ulen', p' := ulen + 2, p;
    if ulen' <= tlen {
      StorePair(tbl, p, ncl, top, pairs);
      p' := p + 2;
    }
  }

  /** Find one fragment and store it if there is room. */
  method AddFragment(fs: Fatfs, top: u32, tbl: array<u32>, tlen: u32, ulen: u32, p: nat,
                     ghost s: seq<nat>, ghost k: nat, ghost pairs: seq<nat>)
      returns (res: FResult, cl: u32, ulen': u32, p': nat, ghost k': nat, ghost pairs': seq<nat>)
    requires fs.Valid() && IsChain(Fat(fs), s) && k < |s| && s[k] == top
    requires tlen <= tbl.Length && tbl as object != fs.win
    requires Building(tbl[..], tlen, s, k, pairs, ulen, p)
    modifies fs`disk, fs`wflag, fs`faults, fs`winsect, fs.win, tbl
    ensures fs.Valid() && fs.Steady()
    ensures Agree(fs.g, fs.View(), old(fs.View())) && Fat(fs) == old(Fat(fs))
    ensures res == Ok ==>
      && k < k' <= |s| && cl == After(Fat(fs), s, k') && (k' == |s| ==> EndsClearly(Fat(fs), s))
      && Building(tbl[..], tlen, s, k', pairs', ulen', p')
    ensures res != Ok ==>
      (res == DiskErr && fs.faults > old(fs.faults)) || (res == IntErr && !EndsClearly(Fat(fs), s))
    ensures forall i :: 0 <= i < tbl.Length && (i == 0 || i >= tlen) ==> tbl[i] == old(tbl[i])
    ensures fs.winsect == old(fs.winsect) || InFat(fs.g, fs.winsect) || fs.winsect == 0xFFFF_FFFF
  {
    hide FatOf, Encode, RunLength, HoldsAt, Building, Covers, After, EndsClearly;
    ChainShort(Fat(fs), s);
    ulen', p', k', pairs' := ulen, p, k, pairs;
    var ncl;
    res, ncl, cl := Fragment(fs, top, s, k);
    if res == Ok {
      assert tbl[..] == old(tbl[..]);
      ulen', p' := KeepFragment(tbl, tlen, ulen, p, ncl, top, s, k, pairs);
      pairs', k' := pairs + [ncl, top], k + ncl;
    }
  }

  /**
    Of the chains that end in the mark that create_chain writes, only one that ends in the last
    cluster of the largest FAT32 volume does not end clearly.
  */
  lemma MarkEndsClearly(g: Geometry, fat: seq<nat>, s: seq<nat>)
    requires IsChain(fat, s) && s != [] && |fat| == g.nFatent && fat[s[|s| - 1]] == EndMark(g)
    ensures !EndsClearly(fat, s) <==> g.fsType == Fat32 && g.nFatent == 0x0FFF_FFFF && s[|s| - 1] == 0x0FFF_FFFE
  {
    EndMarkEnds(g);
    ChainLinks(fat, s, |s| - 1);
  }

  /**
    Build the link map of the chain that starts at `sclust` (0: none) in the table whose first
    item is its size. The item then holds the size needed, in any case.
  */
  method CreateLinkMap(fs: Fatfs, sclust: u32, tbl: array<u32>, ghost s: seq<nat>) returns (res: FResult)
    requires fs.Valid() && IsChain(Fat(fs), s) && sclust == if s == [] then 0 else s[0]
    requires 1 <= tbl.Length && tbl[0] <= tbl.Length && tbl as object != fs.win
    modifies fs`disk, fs`wflag, fs`faults, fs`winsect, fs.win, tbl
    ensures fs.Valid() && fs.Steady()
    ensures Agree(fs.g, fs.View(), old(fs.View())) && Fat(fs) == old(Fat(fs))
    ensures res == Ok || res == NotEnoughCore ==>
      && tbl[0] == 2 * Fragments(s) + 2
      && (res == Ok <==> tbl[0] <= old(tbl[0]))
      && (res == Ok ==> Maps(tbl[..], s))
    ensures res == DiskErr ==> fs.faults > old(fs.faults)
    ensures res != DiskErr ==> (res == IntErr <==> !EndsClearly(Fat(fs), s))
    ensures res in {Ok, NotEnoughCore, DiskErr, IntErr}
    ensures forall i :: 0 < i < tbl.Length && i >= old(tbl[0]) ==> tbl[i] == old(tbl[i])
    ensures fs.winsect == old(fs.winsect) || InFat(fs.g, fs.winsect) || fs.winsect == 0xFFFF_FFFF
  {
    hide FatOf, Encode, RunLength, HoldsAt, Building, Covers;
    ghost var fat := Fat(fs);
    var tlen := tbl[0];
    var p, ulen: u32 := 1, 2;
    var cl := sclust;
    ghost var k, pairs: seq<nat> := 0, [];
    BuildingStarts(tbl[..], tlen, s);
    if cl != 0 {
      while true
        invariant fs.Valid() && fs.Steady()
        invariant Agree(fs.g, fs.View(), old(fs.View())) && Fat(fs) == fat
        invariant fs.winsect == old(fs.winsect) || InFat(fs.g, fs.winsect) || fs.winsect == 0xFFFF_FFFF
        invariant 0 <= k < |s| && cl == s[k] && Building(tbl[..], tlen, s, k, pairs, ulen, p)
        invariant forall i :: 0 <= i < tbl.Length && (i == 0 || i >= tlen) ==> tbl[i] == old(tbl[i])
        decreases |s| - k
      {
        res, cl, ulen, p, k, pairs := AddFragment(fs, cl, tbl, tlen, ulen, p, s, k, pairs);
        if res != Ok { return; }
        if k < |s| {
          assert InRange(fat, s[k]) && cl == s[k];
        }
        if cl >= fs.g.nFatent { break; }
      }
    }
    BuildingEnds(tbl[..], tlen, s, pairs, ulen, p);
    res := CloseTable(tbl, p, ulen, tlen, s, pairs);
  }

  lemma BuildingStarts(tbl: seq<u32>, tlen: nat, s: seq<nat>)
    requires 1 <= |tbl|
    ensures Building(tbl, tlen, s, 0, [], 2, 1)
  {
    assert s[0..] == s;
  }

  lemma BuildingEnds(tbl: seq<u32>, tlen: nat, s: seq<nat>, pairs: seq<nat>, ulen: nat, p: nat)
    requires Building(tbl, tlen, s, |s|, pairs, ulen, p)
    ensures Encode(s) == pairs + [0] && ulen == |pairs| + 2 == 2 * Fragments(s) + 2
    ensures ulen <= tlen ==> HoldsAt(tbl, 1, pairs) && p == |pairs| + 1
  {
    assert s[|s|..] == [];
  }
}
