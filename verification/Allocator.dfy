/**
  Allocation and release of clusters on the FAT of a mounted volume.
*/
module Allocator {
  import opened Bytes
  import opened Volume
  import opened FatCodec
  import opened Chains

  const UNKNOWN: u32 := 0xFFFF_FFFF
  const DISK_ERROR: u32 := 0xFFFF_FFFF
  const END_MARK: u32 := 0x0FFF_FFFF

  /** The end mark as the entries of this volume hold it. */
  function EndMark(g: Geometry): nat {
    END_MARK % EntryBits(g.fsType)
  }

  /** However narrow the entries, the end mark reads back as the end of a chain. */
  lemma EndMarkEnds(g: Geometry)
    ensures EndMark(g) >= g.nFatent
    ensures forall v :: 0 <= v < g.nFatent ==> v % EntryBits(g.fsType) == v
  {
  }

  /** A count that was right before, or unknown, is right, or unknown, after. */
  ghost predicate CountKept(n0: u32, fat0: seq<nat>, n1: u32, fat1: seq<nat>) {
    if n0 == UNKNOWN then n1 == UNKNOWN
    else n0 == FreeCount(fat0) ==> n1 == FreeCount(fat1) && n1 != UNKNOWN
  }

  /** `fsi_flag |= 1`. */
  function WithBit0(b: byte): byte {
    if b % 2 == 0 then b as int + 1 else b
  }

  method CountOneMore(fs: Fatfs)
    requires fs.Valid()
    modifies fs`freeClust, fs`fsiFlag
    ensures fs.Valid() && fs.View() == old(fs.View()) && Fat(fs) == old(Fat(fs))
    ensures fs.freeClust == if old(fs.freeClust) == UNKNOWN then UNKNOWN else old(fs.freeClust) + 1
    ensures old(fs.freeClust) != UNKNOWN ==> fs.fsiFlag == WithBit0(old(fs.fsiFlag))
  {
    if fs.freeClust != UNKNOWN {
      fs.freeClust := fs.freeClust + 1;
      fs.fsiFlag := WithBit0(fs.fsiFlag);
    }
  }

  method CountOneLess(fs: Fatfs)
    requires fs.Valid()
    modifies fs`freeClust, fs`fsiFlag
    ensures fs.Valid() && fs.View() == old(fs.View()) && Fat(fs) == old(Fat(fs))
    ensures fs.freeClust == if old(fs.freeClust) == UNKNOWN then UNKNOWN else Sub32(old(fs.freeClust), 1)
    ensures old(fs.freeClust) != UNKNOWN ==> fs.fsiFlag == WithBit0(old(fs.fsiFlag))
  {
    if fs.freeClust != UNKNOWN {
      fs.freeClust := Sub32(fs.freeClust, 1);
      fs.fsiFlag := WithBit0(fs.fsiFlag);
    }
  }

  // ---------- remove_chain ----------

  lemma CountKeptSelf(n: u32, fat: seq<nat>)
    ensures CountKept(n, fat, n, fat)
  {
  }

  lemma CountKeptAgain(n0: u32, fat0: seq<nat>, n1: u32, fat1: seq<nat>, n2: u32, fat2: seq<nat>)
    requires CountKept(n0, fat0, n1, fat1) && CountKept(n1, fat1, n2, fat2)
    ensures CountKept(n0, fat0, n2, fat2)
  {
  }

  lemma SameOutsideFat(g: Geometry, a: seq<Sector>)
    ensures AgreeOutsideFat(g, a, a)
  {
  }

  lemma OutsideFatAgain(g: Geometry, a: seq<Sector>, b: seq<Sector>, c: seq<Sector>)
    requires AgreeOutsideFat(g, a, b) && AgreeOutsideFat(g, b, c)
    ensures AgreeOutsideFat(g, a, c)
  {
  }

  /** One step of removing a chain. */
  lemma RemovedNext(fat: seq<nat>, c: nat)
    requires 2 <= c < |fat|
    ensures fat[c] == 0 ==> Removed(fat, c) == (fat, true)
    ensures fat[c] == 1 ==> Removed(fat, c) == (fat, false)
    ensures fat[c] > 1 ==> Removed(fat, c) == Removed(fat[c := 0], fat[c])
  {
  }

  lemma RemovedEnd(fat: seq<nat>, c: nat)
    ensures c >= |fat| ==> Removed(fat, c) == (fat, true)
  {
  }

  /**
    Free one cluster and say what its entry led to: 0 or 1 where there is nothing to free,
    and DISK_ERROR where the drive failed.
  */
  method ReleaseCluster(fs: Fatfs, clst: u32) returns (nxt: u32)
    requires fs.Valid() && 2 <= clst < fs.g.nFatent
    modifies fs, fs.win
    ensures fs.Valid() && fs.Steady()
    ensures AgreeOutsideFat(fs.g, fs.View(), old(fs.View()))
    ensures fs.lastClust == old(fs.lastClust)
    ensures fs.winsect == old(fs.winsect) || InFat(fs.g, fs.winsect) || fs.winsect == 0xFFFF_FFFF
    ensures nxt == DISK_ERROR ==> fs.faults > old(fs.faults)
    ensures nxt != DISK_ERROR ==>
      && nxt == old(Fat(fs))[clst]
      && Fat(fs) == if nxt < 2 then old(Fat(fs)) else old(Fat(fs))[clst := 0]
    ensures CountKept(old(fs.freeClust), old(Fat(fs)), fs.freeClust, Fat(fs)) || nxt == DISK_ERROR
  {
    hide FatOf;
    nxt := GetFat(fs, clst);
    if nxt == 0 || nxt == 1 || nxt == DISK_ERROR { return; }
    ghost var fat := Fat(fs);
    var res := PutFat(fs, clst, 0);
    if res != Ok { return DISK_ERROR; }
    FreeBelowUpdate(fat, |fat|, clst, 0);
    FreeBelowBound(fat[clst := 0], |fat|);
    CountOneMore(fs);
  }

  method RemoveChain(fs: Fatfs, start: u32) returns (res: FResult)
    requires fs.Valid()
    modifies fs, fs.win
    ensures fs.Valid() && fs.Steady()
    ensures AgreeOutsideFat(fs.g, fs.View(), old(fs.View()))
    ensures fs.lastClust == old(fs.lastClust)
    ensures fs.winsect == old(fs.winsect) || InFat(fs.g, fs.winsect) || fs.winsect == 0xFFFF_FFFF
    ensures start < 2 || start >= fs.g.nFatent ==>
      res == IntErr && fs.View() == old(fs.View()) && fs.winsect == old(fs.winsect) && fs.faults == old(fs.faults)
    ensures 2 <= start < fs.g.nFatent ==>
      if res == DiskErr then fs.faults > old(fs.faults)
      else (res == Ok || res == IntErr) && (Fat(fs), res == Ok) == Removed(old(Fat(fs)), start)
    ensures CountKept(old(fs.freeClust), old(Fat(fs)), fs.freeClust, Fat(fs)) || res == DiskErr
  {
    hide FatOf, CountKept, FreeBelow, Removed, AgreeOutsideFat;
    CountKeptSelf(fs.freeClust, Fat(fs));
    SameOutsideFat(fs.g, fs.View());
    if start < 2 || start >= fs.g.nFatent {
      return IntErr;
    }
    res := Ok;
    var clst := start;
    while clst < fs.g.nFatent
      invariant fs.Valid() && fs.Steady()
      invariant AgreeOutsideFat(fs.g, fs.View(), old(fs.View()))
      invariant fs.lastClust == old(fs.lastClust)
      invariant fs.winsect == old(fs.winsect) || InFat(fs.g, fs.winsect) || fs.winsect == 0xFFFF_FFFF
      invariant clst >= 2 && res == Ok
      invariant Removed(Fat(fs), clst) == Removed(old(Fat(fs)), start)
      invariant CountKept(old(fs.freeClust), old(Fat(fs)), fs.freeClust, Fat(fs))
      decreases fs.g.nFatent - FreeCount(Fat(fs))
    {
      ghost var fat, v, n := Fat(fs), fs.View(), fs.freeClust;
      RemovedNext(fat, clst);
      var nxt := ReleaseCluster(fs, clst);
      OutsideFatAgain(fs.g, fs.View(), v, old(fs.View()));
      if nxt == DISK_ERROR { res := DiskErr; break; }
      CountKeptAgain(old(fs.freeClust), old(Fat(fs)), n, fat, fs.freeClust, Fat(fs));
      if nxt == 0 { break; }
      if nxt == 1 { res := IntErr; break; }
      FreeBelowUpdate(fat, |fat|, clst, 0);
      FreeBelowBound(fat[clst := 0], |fat|);
      clst := nxt;
    }
    RemovedEnd(Fat(fs), clst);
  }

  // ---------- create_chain ----------

  /** Going up from `start` and round from the top of the FAT to 2, `c` comes before `r`. */
  predicate Before(start: nat, c: nat, r: nat) {
    if start < r then start < c < r else start < c || c < r
  }

  lemma IsReserved(fat: seq<nat>, c: nat)
    requires InRange(fat, c)
    ensures fat[c] == 1 ==> HasReserved(fat)
  {
  }

  /** The first free cluster after `start`, going round; 0: none, 1: a reserved entry is in the way. */
  method FindFree(fs: Fatfs, start: u32) returns (r: u32)
    requires fs.Valid() && 1 <= start < fs.g.nFatent
    modifies fs`disk, fs`wflag, fs`faults, fs`winsect, fs.win
    ensures fs.Valid() && fs.Steady()
    ensures Agree(fs.g, fs.View(), old(fs.View())) && Fat(fs) == old(Fat(fs))
    ensures r == DISK_ERROR ==> fs.faults > old(fs.faults)
    ensures r == 0 ==> forall c :: InRange(Fat(fs), c) ==> Fat(fs)[c] >= 2
    ensures r == 1 ==> HasReserved(Fat(fs))
    ensures 2 <= r < DISK_ERROR ==>
      && InRange(Fat(fs), r) && Fat(fs)[r] == 0
      && forall c :: InRange(Fat(fs), c) && Before(start, c, r) ==> Fat(fs)[c] >= 2
    ensures fs.winsect == old(fs.winsect) || InFat(fs.g, fs.winsect) || fs.winsect == 0xFFFF_FFFF
  {
    hide FatOf, HasReserved;
    ghost var fat := Fat(fs);
    var ncl := start;
    ghost var wrapped := false;
    while true
      invariant fs.Valid() && fs.Steady()
      invariant Agree(fs.g, fs.View(), old(fs.View())) && Fat(fs) == fat
      invariant fs.winsect == old(fs.winsect) || InFat(fs.g, fs.winsect) || fs.winsect == 0xFFFF_FFFF
      invariant if wrapped then 2 <= ncl < start else start <= ncl < fs.g.nFatent
      invariant NoneFree(fat, start, wrapped, ncl)
      decreases if wrapped then 0 else 1, fs.g.nFatent - ncl
    {
      ncl := ncl + 1;
      if ncl >= fs.g.nFatent {
        ncl := 2;
        wrapped := true;
        if ncl > start { return 0; }
      }
      var cs := GetFat(fs, ncl);
      if cs == 0 { return ncl; }
      IsReserved(fat, ncl);
      if cs == DISK_ERROR || cs == 1 { return cs; }
      PassOne(fat, start, wrapped, ncl);
      if ncl == start { return 0; }
    }
  }

  /** No free and no reserved entry among those looked at. */
  ghost predicate NoneFree(fat: seq<nat>, start: nat, wrapped: bool, n: nat) {
    forall c :: InRange(fat, c) && Passed(start, wrapped, n, c) ==> fat[c] >= 2
  }

  lemma PassOne(fat: seq<nat>, start: nat, wrapped: bool, n: nat)
    requires InRange(fat, n) && fat[n] >= 2 && 1 <= start < |fat|
    requires if n == 2 && wrapped then NoneFree(fat, start, false, |fat| - 1) else NoneFree(fat, start, wrapped, n - 1)
    ensures NoneFree(fat, start, wrapped, n)
    ensures wrapped && n == start ==> forall c :: InRange(fat, c) ==> fat[c] >= 2
  {
  }

  /** Clusters a search from `start` has looked at when it has come to `n`. */
  predicate Passed(start: nat, wrapped: bool, n: nat, c: nat) {
    if wrapped then start < c || c <= n else start < c <= n
  }

  /** What a successful allocation after cluster `clst` (0: none) does to the FAT. */
  ghost predicate Allocated(g: Geometry, a: seq<nat>, b: seq<nat>, clst: nat, r: nat)
    requires |a| == |b| == g.nFatent && clst < g.nFatent
  {
    && InRange(a, r) && a[r] == 0
    && b == if clst == 0 then a[r := EndMark(g)] else a[r := EndMark(g)][clst := r]
  }

  /** Some entry holds the reserved value 1. */
  ghost predicate HasReserved(fat: seq<nat>) {
    exists c :: InRange(fat, c) && fat[c] == 1
  }

  /** `clst` names no allocated cluster that could be stretched. */
  ghost predicate BadLink(fat: seq<nat>, clst: nat) {
    clst != 0 && (!InRange(fat, clst) || fat[clst] < 2)
  }

  /** On this FAT, `clst` is no cluster or the last of a chain, and no entry is the reserved 1. */
  ghost predicate Stretches(fat: seq<nat>, clst: nat) {
    && !HasReserved(fat)
    && (clst != 0 ==> InRange(fat, clst) && fat[clst] >= |fat|)
  }

  /** Where the search starts: behind the cluster to stretch, or at the hint if it makes sense. */
  function SearchStart(g: Geometry, clst: nat, hint: nat): nat {
    if clst != 0 then clst
    else if hint == 0 || hint >= g.nFatent then 1 else hint
  }

  /** The FAT after `ncl` was found or taken for cluster `clst`, with the hint at `hint`. */
  ghost predicate Obtained(g: Geometry, a: seq<nat>, b: seq<nat>, clst: nat, hint: nat, ncl: nat)
    requires |a| == |b| == g.nFatent && clst < g.nFatent
  {
    if clst != 0 && a[clst] < g.nFatent then
      ncl == a[clst] && b == a
    else
      && Allocated(g, a, b, clst, ncl)
      && forall c :: InRange(a, c) && Before(SearchStart(g, clst, hint), c, ncl) ==> a[c] >= 2
  }

  /**
    The cluster after `clst`, allocated if there is none yet, or the first of a new chain when
    `clst` is 0. 0: no free cluster, 1: internal error, DISK_ERROR.
  */
  method CreateChain(fs: Fatfs, clst: u32) returns (ncl: u32)
    requires fs.Valid()
    modifies fs, fs.win
    ensures fs.Valid() && fs.Steady()
    ensures AgreeOutsideFat(fs.g, fs.View(), old(fs.View()))
    ensures ncl == DISK_ERROR ==> fs.faults > old(fs.faults)
    ensures ncl == 0 ==> Fat(fs) == old(Fat(fs)) && forall c :: InRange(Fat(fs), c) ==> Fat(fs)[c] >= 2
    ensures ncl == 0 && clst != 0 ==> InRange(Fat(fs), clst) && Fat(fs)[clst] >= fs.g.nFatent
    ensures ncl == 1 ==> Fat(fs) == old(Fat(fs)) && (BadLink(Fat(fs), clst) || HasReserved(Fat(fs)))
    ensures 2 <= ncl < DISK_ERROR ==>
      && !BadLink(old(Fat(fs)), clst) && InRange(Fat(fs), ncl) && InFat(fs.g, fs.winsect)
      && Obtained(fs.g, old(Fat(fs)), Fat(fs), clst, old(fs.lastClust), ncl)
    ensures Stretches(old(Fat(fs)), clst) && ncl != DISK_ERROR ==> (ncl == 0 <==> FreeCount(old(Fat(fs))) == 0)
    ensures CountKept(old(fs.freeClust), old(Fat(fs)), fs.freeClust, Fat(fs)) || ncl == DISK_ERROR
    ensures fs.winsect == old(fs.winsect) || InFat(fs.g, fs.winsect) || fs.winsect == 0xFFFF_FFFF
  {
    FreeExists(Fat(fs), fs.g.nFatent);
    var scl;
    if clst == 0 {
      scl := fs.lastClust;
      if scl == 0 || scl >= fs.g.nFatent { scl := 1; }
    } else {
      var cs := GetFat(fs, clst);
      if cs < 2 { return 1; }
      if cs == DISK_ERROR { return cs; }
      if cs < fs.g.nFatent { return cs; }
      scl := clst;
    }
    ncl := TakeFree(fs, clst, scl);
  }

  /** Find a free cluster from `scl` on and link it behind `clst`. */
  method FindAndLink(fs: Fatfs, clst: u32, scl: u32) returns (ncl: u32)
    requires fs.Valid() && 1 <= scl < fs.g.nFatent && (clst != 0 ==> InRange(Fat(fs), clst))
    modifies fs`disk, fs`wflag, fs`faults, fs`winsect, fs.win
    ensures fs.Valid() && fs.Steady()
    ensures AgreeOutsideFat(fs.g, fs.View(), old(fs.View()))
    ensures ncl == DISK_ERROR ==> fs.faults > old(fs.faults)
    ensures ncl == 0 ==> Fat(fs) == old(Fat(fs)) && forall c :: InRange(Fat(fs), c) ==> Fat(fs)[c] >= 2
    ensures ncl == 1 ==> Fat(fs) == old(Fat(fs)) && HasReserved(Fat(fs))
    ensures 2 <= ncl < DISK_ERROR ==>
      && InRange(Fat(fs), ncl) && InFat(fs.g, fs.winsect)
      && Allocated(fs.g, old(Fat(fs)), Fat(fs), clst, ncl)
      && forall c :: InRange(Fat(fs), c) && Before(scl, c, ncl) ==> old(Fat(fs))[c] >= 2
    ensures fs.winsect == old(fs.winsect) || InFat(fs.g, fs.winsect) || fs.winsect == 0xFFFF_FFFF
  {
    hide FatOf, Before, HasReserved;
    ncl := FindFree(fs, scl);
    if 2 <= ncl < DISK_ERROR {
      var res := LinkNew(fs, clst, ncl);
      if res != Ok {
        ncl := DISK_ERROR;
      }
    }
  }

  /** Take a free cluster for `clst` and account for it. */
  method TakeFree(fs: Fatfs, clst: u32, scl: u32) returns (ncl: u32)
    requires fs.Valid() && 1 <= scl < fs.g.nFatent
    requires clst != 0 ==> InRange(Fat(fs), clst) && Fat(fs)[clst] >= 2
    modifies fs, fs.win
    ensures fs.Valid() && fs.Steady()
    ensures AgreeOutsideFat(fs.g, fs.View(), old(fs.View()))
    ensures ncl == DISK_ERROR ==> fs.faults > old(fs.faults)
    ensures ncl == 0 ==> Fat(fs) == old(Fat(fs)) && forall c :: InRange(Fat(fs), c) ==> Fat(fs)[c] >= 2
    ensures ncl == 1 ==> Fat(fs) == old(Fat(fs)) && HasReserved(Fat(fs))
    ensures 2 <= ncl < DISK_ERROR ==>
      && InRange(Fat(fs), ncl) && InFat(fs.g, fs.winsect)
      && Allocated(fs.g, old(Fat(fs)), Fat(fs), clst, ncl)
      && forall c :: InRange(Fat(fs), c) && Before(scl, c, ncl) ==> old(Fat(fs))[c] >= 2
    ensures fs.winsect == old(fs.winsect) || InFat(fs.g, fs.winsect) || fs.winsect == 0xFFFF_FFFF
    ensures CountKept(old(fs.freeClust), old(Fat(fs)), fs.freeClust, Fat(fs)) || ncl == DISK_ERROR
  {
    hide FatOf, Before, HasReserved;
    ghost var fat := Fat(fs);
    ncl := FindAndLink(fs, clst, scl);
    if 2 <= ncl < DISK_ERROR {
      AllocatedCount(fs.g, fat, Fat(fs), clst, ncl);
      hide Allocated;
      fs.lastClust := ncl;
      CountOneLess(fs);
    }
  }

  /** Mark the free cluster `ncl` as an end of chain and link it behind `clst`, if there is one. */
  method LinkNew(fs: Fatfs, clst: u32, ncl: u32) returns (res: FResult)
    requires fs.Valid() && InRange(Fat(fs), ncl) && Fat(fs)[ncl] == 0
    requires clst != 0 ==> InRange(Fat(fs), clst)
    modifies fs`disk, fs`wflag, fs`faults, fs`winsect, fs.win
    ensures fs.Valid() && fs.Steady()
    ensures AgreeOutsideFat(fs.g, fs.View(), old(fs.View()))
    ensures res == Ok ==> Allocated(fs.g, old(Fat(fs)), Fat(fs), clst, ncl) && InFat(fs.g, fs.winsect)
    ensures res != Ok ==> res == DiskErr && fs.faults > old(fs.faults)
    ensures fs.winsect == old(fs.winsect) || InFat(fs.g, fs.winsect) || fs.winsect == 0xFFFF_FFFF
  {
    EndMarkEnds(fs.g);
    res := PutFat(fs, ncl, END_MARK);
    if res == Ok && clst != 0 {
      res := PutFat(fs, clst, ncl);
    }
  }

  /** An allocation takes one cluster off the free ones; the one it is linked to was not free. */
  lemma AllocatedCount(g: Geometry, a: seq<nat>, b: seq<nat>, clst: nat, r: nat)
    requires |a| == |b| == g.nFatent && clst < g.nFatent && Allocated(g, a, b, clst, r)
    requires clst != 0 ==> InRange(a, clst) && a[clst] != 0
    ensures FreeCount(b) == FreeCount(a) - 1
  {
    EndMarkEnds(g);
    FreeBelowUpdate(a, |a|, r, EndMark(g));
    if clst != 0 {
      FreeBelowUpdate(a[r := EndMark(g)], |a|, clst, r);
    }
  }

  // ---------- The FAT edits of f_truncate ----------

  /** Free what follows `clust` in its chain. */
  method CutAfter(fs: Fatfs, clust: u32, ghost s: seq<nat>, ghost k: nat) returns (res: FResult)
    requires fs.Valid() && IsChain(Fat(fs), s) && 0 < k <= |s| && clust == s[k - 1]
    modifies fs, fs.win
    ensures fs.Valid() && fs.Steady()
    ensures AgreeOutsideFat(fs.g, fs.View(), old(fs.View()))
    ensures if res == Ok then CutTo(old(Fat(fs)), Fat(fs), s, k) else res == DiskErr && fs.faults > old(fs.faults)
    ensures CountKept(old(fs.freeClust), old(Fat(fs)), fs.freeClust, Fat(fs)) || res != Ok
    ensures fs.winsect == old(fs.winsect) || InFat(fs.g, fs.winsect) || fs.winsect == 0xFFFF_FFFF
  {
    hide FatOf, CutTo, FreeBelow;
    ghost var fat := Fat(fs);
    ChainLinks(fat, s, k - 1);
    CutNothing(fat, s);
    EndMarkEnds(fs.g);
    var ncl := GetFat(fs, clust);
    res := Ok;
    if ncl == DISK_ERROR { res := DiskErr; }
    if ncl == 1 { res := IntErr; }
    if res == Ok && ncl < fs.g.nFatent {
      res := PutFat(fs, clust, END_MARK);
      if res == Ok {
        FreeBelowUpdate(fat, |fat|, clust, EndMark(fs.g));
        CutBehind(fat, s, k, EndMark(fs.g));
        res := RemoveChain(fs, ncl);
      }
    }
  }

  lemma CutNothing(fat: seq<nat>, s: seq<nat>)
    requires IsChain(fat, s)
    ensures CutTo(fat, fat, s, |s|)
  {
  }

  /** Ending a chain early and removing what followed cuts it. */
  lemma CutBehind(fat: seq<nat>, s: seq<nat>, k: nat, end: nat)
    requires IsChain(fat, s) && 0 < k < |s| && end >= |fat|
    ensures InRange(fat, s[k - 1]) && Removed(fat[s[k - 1] := end], s[k]).1
    ensures CutTo(fat, Removed(fat[s[k - 1] := end], s[k]).0, s, k)
  {
    RemovedChain(fat, s, fat[s[k - 1] := end], k);
    assert s[k - 1..] == [s[k - 1]] + s[k..];
  }

  /** Free a whole chain, given by its first cluster. */
  method CutAll(fs: Fatfs, sclust: u32, ghost s: seq<nat>) returns (res: FResult)
    requires fs.Valid() && IsChain(Fat(fs), s) && s != [] && sclust == s[0]
    modifies fs, fs.win
    ensures fs.Valid() && fs.Steady()
    ensures AgreeOutsideFat(fs.g, fs.View(), old(fs.View()))
    ensures if res == Ok then CutTo(old(Fat(fs)), Fat(fs), s, 0) else res == DiskErr && fs.faults > old(fs.faults)
    ensures CountKept(old(fs.freeClust), old(Fat(fs)), fs.freeClust, Fat(fs)) || res != Ok
    ensures fs.winsect == old(fs.winsect) || InFat(fs.g, fs.winsect) || fs.winsect == 0xFFFF_FFFF
  {
    hide FatOf;
    RemovedChain(Fat(fs), s, Fat(fs), 0);
    res := RemoveChain(fs, sclust);
  }
}
