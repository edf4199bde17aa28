/**
  Cluster chains in a FAT, seen as a sequence of entries. Entry values: 0 is a free cluster,
  2..|fat|-1 the next cluster of the chain, |fat| and above the end of a chain.
*/
module Chains {

  ghost predicate InRange(fat: seq<nat>, c: int) {
    2 <= c < |fat|
  }

  ghost predicate Distinct(s: seq<nat>) {
    forall i, j :: 0 <= i < j < |s| ==> s[i] != s[j]
  }

  /** `s` is a complete cluster chain: every entry leads to the next one, the last one ends it. */
  ghost predicate IsChain(fat: seq<nat>, s: seq<nat>) {
    && (forall i :: 0 <= i < |s| ==> InRange(fat, s[i]))
    && (forall i :: 0 <= i < |s| - 1 ==> fat[s[i]] == s[i + 1])
    && (s != [] ==> fat[s[|s| - 1]] >= |fat|)
    && Distinct(s)
  }

  ghost predicate Disjoint(s: seq<nat>, t: seq<nat>) {
    forall i, j :: 0 <= i < |s| && 0 <= j < |t| ==> s[i] != t[j]
  }

  /**
    Every file has a chain, perhaps empty, of its own, and every allocated cluster belongs to
    one of them: nothing is cross-linked and nothing is lost.
  */
  ghost predicate Owned(fat: seq<nat>, files: seq<seq<nat>>) {
    && (forall f :: 0 <= f < |files| ==> IsChain(fat, files[f]))
    && (forall f, g :: 0 <= f < |files| && 0 <= g < |files| && f != g ==> Disjoint(files[f], files[g]))
    && (forall c :: InRange(fat, c) && fat[c] != 0 ==> Claimed(files, c))
  }

  ghost predicate Claimed(files: seq<seq<nat>>, c: nat) {
    exists f :: 0 <= f < |files| && c in files[f]
  }

  /** No entry of `a` outside `s` differs in `b`. */
  ghost predicate SameOutside(a: seq<nat>, b: seq<nat>, s: seq<nat>) {
    |a| == |b| && forall c :: 0 <= c < |a| && c !in s ==> b[c] == a[c]
  }

  // ---------- What an ownership says about the links ----------

  /** A chain's clusters are allocated and never hold the reserved value 1. */
  lemma ChainLinks(fat: seq<nat>, s: seq<nat>, i: nat)
    requires IsChain(fat, s) && i < |s|
    ensures fat[s[i]] >= 2
  {
    if i + 1 < |s| {
      assert InRange(fat, s[i + 1]);
    }
  }

  /** Where all clusters are owned, a link is never 1. */
  lemma OwnedEntry(fat: seq<nat>, files: seq<seq<nat>>, c: nat) returns (f: nat, i: nat)
    requires Owned(fat, files) && InRange(fat, c) && fat[c] != 0
    ensures f < |files| && i < |files[f]| && files[f][i] == c && fat[c] >= 2
  {
    assert Claimed(files, c);
    f :| 0 <= f < |files| && c in files[f];
    i :| 0 <= i < |files[f]| && files[f][i] == c;
    ChainLinks(fat, files[f], i);
  }

  lemma OwnedLink(fat: seq<nat>, files: seq<seq<nat>>, c: nat) returns (f: nat, i: nat)
    requires Owned(fat, files) && InRange(fat, c) && InRange(fat, fat[c])
    ensures f < |files| && i + 1 < |files[f]| && files[f][i] == c && files[f][i + 1] == fat[c]
  {
    f, i := OwnedEntry(fat, files, c);
    assert IsChain(fat, files[f]);
  }

  lemma FilesApart(fat: seq<nat>, files: seq<seq<nat>>, f: nat, g: nat, i: nat, j: nat)
    requires Owned(fat, files) && f < |files| && g < |files| && i < |files[f]| && j < |files[g]|
    ensures if f == g then i == j <==> files[f][i] == files[g][j] else files[f][i] != files[g][j]
  {
    if f == g {
      assert IsChain(fat, files[f]);
    } else {
      assert Disjoint(files[f], files[g]);
    }
  }

  /** Where all clusters are owned, no cluster has two predecessors. */
  lemma OnePredecessor(fat: seq<nat>, files: seq<seq<nat>>, c: nat, d: nat)
    requires Owned(fat, files) && InRange(fat, c) && InRange(fat, d) && InRange(fat, fat[c])
    requires fat[c] == fat[d]
    ensures c == d
  {
    hide Owned, IsChain;
    var f, i := OwnedLink(fat, files, c);
    var g, j := OwnedLink(fat, files, d);
    FilesApart(fat, files, f, g, i + 1, j + 1);
  }

  /** Following links from the head of a chain, one passes its clusters in order. */
  lemma {:induction false} ChainUnique(fat: seq<nat>, s: seq<nat>, t: seq<nat>)
    requires IsChain(fat, s) && IsChain(fat, t) && s != [] && t != [] && s[0] == t[0]
    ensures s == t
    decreases |s|
  {
    if |s| == 1 || |t| == 1 {
      assert |t| > 1 ==> InRange(fat, t[1]);
      assert |s| > 1 ==> InRange(fat, s[1]);
    } else {
      TailIsChain(fat, s);
      TailIsChain(fat, t);
      ChainUnique(fat, s[1..], t[1..]);
      assert s == [s[0]] + s[1..] && t == [t[0]] + t[1..];
    }
  }

  lemma TailIsChain(fat: seq<nat>, s: seq<nat>)
    requires IsChain(fat, s) && s != []
    ensures IsChain(fat, s[1..])
  {
  }

  lemma {:induction false} DistinctShort(s: seq<nat>, n: nat)
    requires Distinct(s) && forall i :: 0 <= i < |s| ==> s[i] < n
    ensures |s| <= n
    decreases n
  {
    if s != [] {
      if i :| 0 <= i < |s| && s[i] == n - 1 {
        DistinctShort(s[..i] + s[i + 1..], n - 1);
      } else {
        assert s[0] < n;
        DistinctShort(s, n - 1);
      }
    }
  }

  /** A chain is no longer than the FAT. */
  lemma ChainShort(fat: seq<nat>, s: seq<nat>)
    requires IsChain(fat, s)
    ensures |s| <= |fat|
  {
    DistinctShort(s, |fat|);
  }

  // ---------- Chains and changes of the FAT ----------

  /** A chain stays a chain when no entry of its own changes. */
  lemma ChainFrame(a: seq<nat>, b: seq<nat>, s: seq<nat>)
    requires IsChain(a, s) && |a| == |b|
    requires forall i :: 0 <= i < |s| ==> b[s[i]] == a[s[i]]
    ensures IsChain(b, s)
  {
  }

  /** The FAT after a free cluster `r` has become the last one of chain `s`. */
  ghost function Appended(fat: seq<nat>, s: seq<nat>, r: nat, end: nat): (f: seq<nat>)
    requires InRange(fat, r) && (s != [] ==> InRange(fat, s[|s| - 1]))
  {
    if s == [] then fat[r := end] else fat[r := end][s[|s| - 1] := r]
  }

  lemma AppendedChain(fat: seq<nat>, s: seq<nat>, r: nat, end: nat)
    requires IsChain(fat, s) && InRange(fat, r) && fat[r] == 0 && end >= |fat|
    ensures IsChain(Appended(fat, s, r, end), s + [r])
    ensures SameOutside(fat, Appended(fat, s, r, end), s + [r])
  {
    forall i | 0 <= i < |s| ensures s[i] != r {
      ChainLinks(fat, s, i);
    }
  }

  /** Allocation keeps all chains apart: the new cluster joins one chain, the others stand. */
  lemma AppendKeepsOwned(fat: seq<nat>, files: seq<seq<nat>>, f: nat, r: nat, end: nat)
    requires Owned(fat, files) && f < |files|
    requires InRange(fat, r) && fat[r] == 0 && end >= |fat|
    ensures Owned(Appended(fat, files[f], r, end), files[f := files[f] + [r]])
  {
    var s := files[f];
    var b := Appended(fat, s, r, end);
    var grown := files[f := s + [r]];
    AppendedChain(fat, s, r, end);
    forall g | 0 <= g < |files| && g != f
      ensures IsChain(b, files[g]) && Disjoint(files[g], s + [r]) && Disjoint(s + [r], files[g])
    {
      FreeIsUnclaimed(fat, files, g, r);
      assert Disjoint(files[f], files[g]);
      ChainFrame(fat, b, files[g]);
    }
    forall c | InRange(b, c) && b[c] != 0
      ensures Claimed(grown, c)
    {
      if c == r || c in s {
        assert c in grown[f];
      } else {
        var g, i := OwnedEntry(fat, files, c);
        assert c in grown[g];
      }
    }
  }

  lemma FreeIsUnclaimed(fat: seq<nat>, files: seq<seq<nat>>, g: nat, r: nat)
    requires Owned(fat, files) && g < |files| && InRange(fat, r) && fat[r] == 0
    ensures r !in files[g]
  {
    if r in files[g] {
      var i :| 0 <= i < |files[g]| && files[g][i] == r;
      ChainLinks(fat, files[g], i);
    }
  }

  /** The FAT after chain `s` has been cut to its first `k` clusters. */
  ghost predicate CutTo(a: seq<nat>, b: seq<nat>, s: seq<nat>, k: nat)
    requires k <= |s| && IsChain(a, s)
  {
    && |a| == |b|
    && (forall i :: k <= i < |s| ==> b[s[i]] == 0)
    && (0 < k < |s| ==> b[s[k - 1]] >= |a|)
    && (forall c :: 0 <= c < |a| && c !in s[if k == 0 then 0 else k - 1..] ==> b[c] == a[c])
    && (k == |s| ==> a == b)
  }

  lemma CutChain(a: seq<nat>, b: seq<nat>, s: seq<nat>, k: nat)
    requires k <= |s| && IsChain(a, s) && CutTo(a, b, s, k)
    ensures IsChain(b, s[..k])
    ensures SameOutside(a, b, s)
  {
    var from := if k == 0 then 0 else k - 1;
    forall i | 0 <= i < k - 1
      ensures b[s[i]] == a[s[i]]
    {
      assert s[i] !in s[from..];
    }
  }

  lemma CutOthers(a: seq<nat>, b: seq<nat>, files: seq<seq<nat>>, f: nat, k: nat, g: nat)
    requires Owned(a, files) && f < |files| && k <= |files[f]| && CutTo(a, b, files[f], k)
    requires g < |files| && g != f
    ensures IsChain(b, files[g]) && Disjoint(files[g], files[f][..k]) && Disjoint(files[f][..k], files[g])
  {
    assert Disjoint(files[f], files[g]) && Disjoint(files[g], files[f]);
    CutChain(a, b, files[f], k);
    ChainFrame(a, b, files[g]);
  }

  lemma CutClaims(a: seq<nat>, b: seq<nat>, files: seq<seq<nat>>, f: nat, k: nat, c: nat)
    requires Owned(a, files) && f < |files| && k <= |files[f]| && CutTo(a, b, files[f], k)
    requires InRange(b, c) && b[c] != 0
    ensures Claimed(files[f := files[f][..k]], c)
  {
    hide IsChain, Disjoint;
    var s := files[f];
    var shrunk := files[f := s[..k]];
    CutChain(a, b, s, k);
    if c in s {
      var i :| 0 <= i < |s| && s[i] == c;
      assert i < k;
      assert s[..k][i] == c;
      assert c in shrunk[f];
    } else {
      assert b[c] == a[c];
      var g, i := OwnedEntry(a, files, c);
      assert g != f;
      assert shrunk[g] == files[g];
      assert c in shrunk[g];
    }
  }

  lemma CutChains(a: seq<nat>, b: seq<nat>, files: seq<seq<nat>>, f: nat, k: nat)
    requires Owned(a, files) && f < |files| && k <= |files[f]| && CutTo(a, b, files[f], k)
    ensures var shrunk := files[f := files[f][..k]]; forall g :: 0 <= g < |files| ==> IsChain(b, shrunk[g])
  {
    hide CutTo, IsChain, Disjoint, Claimed;
    CutChain(a, b, files[f], k);
    forall g | 0 <= g < |files| && g != f
      ensures IsChain(b, files[g])
    {
      CutOthers(a, b, files, f, k, g);
    }
  }

  lemma CutApart(a: seq<nat>, b: seq<nat>, files: seq<seq<nat>>, f: nat, k: nat)
    requires Owned(a, files) && f < |files| && k <= |files[f]| && CutTo(a, b, files[f], k)
    ensures var shrunk := files[f := files[f][..k]];
      forall g, h :: 0 <= g < |files| && 0 <= h < |files| && g != h ==> Disjoint(shrunk[g], shrunk[h])
  {
    hide CutTo, IsChain, Disjoint, Claimed;
    var shrunk := files[f := files[f][..k]];
    forall g, h | 0 <= g < |files| && 0 <= h < |files| && g != h
      ensures Disjoint(shrunk[g], shrunk[h])
    {
      if g == f {
        CutOthers(a, b, files, f, k, h);
      } else if h == f {
        CutOthers(a, b, files, f, k, g);
      } else {
        assert Disjoint(files[g], files[h]);
      }
    }
  }

  /** Freeing the end of a chain, or all of it, keeps the other chains as they are. */
  lemma CutKeepsOwned(a: seq<nat>, b: seq<nat>, files: seq<seq<nat>>, f: nat, k: nat)
    requires Owned(a, files) && f < |files| && k <= |files[f]| && CutTo(a, b, files[f], k)
    ensures Owned(b, files[f := files[f][..k]])
  {
    hide CutTo, IsChain, Disjoint, Claimed;
    CutChains(a, b, files, f, k);
    CutApart(a, b, files, f, k);
    forall c | InRange(b, c) && b[c] != 0
      ensures Claimed(files[f := files[f][..k]], c)
    {
      CutClaims(a, b, files, f, k, c);
    }
  }

  // ---------- Free clusters ----------

  /** Free clusters among 2..k-1. */
  ghost function FreeBelow(fat: seq<nat>, k: nat): nat
    requires k <= |fat|
  {
    if k <= 2 then 0 else FreeBelow(fat, k - 1) + if fat[k - 1] == 0 then 1 else 0
  }

  ghost function FreeCount(fat: seq<nat>): nat {
    FreeBelow(fat, |fat|)
  }

  lemma {:induction false} FreeBelowBound(fat: seq<nat>, k: nat)
    requires k <= |fat|
    ensures FreeBelow(fat, k) <= if k <= 2 then 0 else k - 2
  {
    if k > 2 {
      FreeBelowBound(fat, k - 1);
    }
  }

  /** Changing one entry changes the count by that entry alone. */
  lemma {:induction false} FreeBelowUpdate(fat: seq<nat>, k: nat, c: nat, v: nat)
    requires k <= |fat| && InRange(fat, c)
    ensures FreeBelow(fat[c := v], k) ==
      if c < k then FreeBelow(fat, k) + (if v == 0 then 1 else 0) - (if fat[c] == 0 then 1 else 0)
      else FreeBelow(fat, k)
  {
    if k > 2 {
      FreeBelowUpdate(fat, k - 1, c, v);
    }
  }

  /** There are free clusters exactly when the count is positive. */
  lemma {:induction false} FreeExists(fat: seq<nat>, k: nat)
    requires k <= |fat|
    ensures FreeBelow(fat, k) == 0 <==> forall c :: 2 <= c < k ==> fat[c] != 0
  {
    if k > 2 {
      FreeExists(fat, k - 1);
    }
  }

  // ---------- Removing what hangs on a cluster ----------

  /**
    What following and zeroing links from `c` does to any FAT content whatever, until a free,
    reserved or out-of-range entry is met; `ok` unless that entry is 1.
  */
  ghost function Removed(fat: seq<nat>, c: nat): (r: (seq<nat>, bool))
    ensures |r.0| == |fat|
    decreases |fat| - FreeCount(fat)
  {
    if c < 2 || c >= |fat| || fat[c] == 0 then (fat, true)
    else if fat[c] == 1 then (fat, false)
    else
      FreeBelowUpdate(fat, |fat|, c, 0);
      FreeBelowBound(fat[c := 0], |fat|);
      Removed(fat[c := 0], fat[c])
  }

  /** On a chain from position `k` on, removal zeroes exactly the clusters from there. */
  lemma {:induction false} RemovedChain(fat: seq<nat>, s: seq<nat>, f: seq<nat>, k: nat)
    requires IsChain(fat, s) && k < |s| && |f| == |fat|
    requires forall i :: k <= i < |s| ==> f[s[i]] == fat[s[i]]
    ensures var (r, ok) := Removed(f, s[k]);
      && ok && |r| == |f|
      && (forall i :: k <= i < |s| ==> r[s[i]] == 0)
      && (forall c :: 0 <= c < |f| && c !in s[k..] ==> r[c] == f[c])
    decreases |s| - k
  {
    ChainLinks(fat, s, k);
    assert s[k..] == [s[k]] + s[k + 1..];
    var g := f[s[k] := 0];
    if k + 1 < |s| {
      assert forall i :: k + 1 <= i < |s| ==> g[s[i]] == fat[s[i]];
      RemovedChain(fat, s, g, k + 1);
      assert s[k] !in s[k + 1..];
    } else {
      assert Removed(g, f[s[k]]) == (g, true);
    }
  }
}
