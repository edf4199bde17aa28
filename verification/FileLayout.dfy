/**
  Where the bytes of a file lie: from a byte's position over the sector and the cluster of the
  file it is in to a sector of the drive.
*/
module FileLayout {
  import opened Bytes
  import opened Numbers
  import opened Volume
  import opened Chains

  // ---------- Sectors of clusters ----------

  /** Sector number of a cluster; 0: no such cluster. */
  function Clust2Sect(g: Geometry, clst: u32): (s: u32)
  {
    var k := Sub32(clst, 2);
    if k >= g.nFatent - 2 then 0
    else
      SpanMono(k, g.nFatent - 2, g.csize);
      g.database + Span(k, g.csize)
  }

  lemma {:induction false} SpanMono(a: nat, b: nat, csize: nat)
    requires a <= b
    ensures Span(a, csize) <= Span(b, csize)
    ensures a < b ==> Span(a, csize) + csize <= Span(b, csize)
    decreases b - a
  {
    if a < b {
      SpanMono(a, b - 1, csize);
    }
  }

  ghost predicate IsCluster(g: Geometry, c: int) {
    2 <= c < g.nFatent
  }

  /** A valid cluster has its sectors in the data area; an invalid number has none. */
  lemma ClusterSectors(g: Geometry, c: u32)
    ensures Clust2Sect(g, c) == 0 <==> !IsCluster(g, c)
    ensures IsCluster(g, c) ==> g.database <= Clust2Sect(g, c) && Clust2Sect(g, c) + g.csize <= g.nsect
  {
    if IsCluster(g, c) {
      SpanMono(c - 2, g.nFatent - 2, g.csize);
    }
  }

  /** Distinct clusters share no sector. */
  lemma ClustersApart(g: Geometry, c: u32, d: u32, i: nat, j: nat)
    requires IsCluster(g, c) && IsCluster(g, d) && c != d && i < g.csize && j < g.csize
    ensures Clust2Sect(g, c) + i != Clust2Sect(g, d) + j
  {
    if c < d {
      SpanMono(c - 2, d - 2, g.csize);
    } else {
      SpanMono(d - 2, c - 2, g.csize);
    }
  }

  // ---------- Sectors of a file ----------

  /** Which cluster of a file its sector `k` is in, k / csize. */
  function ClusterOf(k: nat, csize: nat): nat
    requires csize > 0
  {
    if k < csize then 0 else 1 + ClusterOf(k - csize, csize)
  }

  /** The place of sector `k` in its cluster, k % csize. */
  function OffsetIn(k: nat, csize: nat): nat
    requires csize > 0
  {
    if k < csize then k else OffsetIn(k - csize, csize)
  }

  lemma {:induction false} Located(k: nat, csize: nat)
    requires csize > 0
    ensures k == Span(ClusterOf(k, csize), csize) + OffsetIn(k, csize) && OffsetIn(k, csize) < csize
  {
    if k >= csize {
      Located(k - csize, csize);
      var j := ClusterOf(k - csize, csize);
      assert Span(j + 1, csize) == Span(j, csize) + csize;
    }
  }

  lemma {:induction false} LocatedAt(j: nat, o: nat, csize: nat)
    requires o < csize
    ensures ClusterOf(Span(j, csize) + o, csize) == j && OffsetIn(Span(j, csize) + o, csize) == o
  {
    if j > 0 {
      LocatedAt(j - 1, o, csize);
    }
  }

  /** The recursive definitions are division and remainder. */
  lemma LocatedIsDivision(k: nat, csize: nat)
    requires csize > 0
    ensures ClusterOf(k, csize) == k / csize && OffsetIn(k, csize) == k % csize
  {
    Located(k, csize);
    SpanIsProduct(ClusterOf(k, csize), csize);
    DivisionUnique(k, csize, ClusterOf(k, csize), OffsetIn(k, csize));
  }

  /** The masks of the C code, for cluster sizes in sectors and in bytes. */
  lemma ClusterMasks(k: nat, csize: nat)
    requires ClusterSize(csize)
    ensures BitAnd(k, csize - 1) == k % csize == OffsetIn(k, csize)
    ensures AndNot(k, csize * SS - 1) == k - k % (csize * SS)
  {
    PowersUpTo(csize);
    MaskIsRemainder(k, csize);
    AndNotAligns(k, csize * SS);
    LocatedIsDivision(k, csize);
  }

  lemma PowersUpTo(csize: nat)
    requires ClusterSize(csize)
    ensures PowerOfTwo(csize) && PowerOfTwo(csize * SS)
  {
    hide PowerOfTwo;
    PowersOfTwo();
  }

  /** Within a cluster, the next sectors follow on. */
  lemma LocatedNext(k: nat, t: nat, csize: nat)
    requires csize > 0 && OffsetIn(k, csize) + t < csize
    ensures ClusterOf(k + t, csize) == ClusterOf(k, csize) && OffsetIn(k + t, csize) == OffsetIn(k, csize) + t
  {
    Located(k, csize);
    LocatedAt(ClusterOf(k, csize), OffsetIn(k, csize) + t, csize);
  }

  /** At the end of a cluster, the next sector begins the next cluster. */
  lemma LocatedCross(k: nat, csize: nat)
    requires csize > 0 && k > 0
    ensures OffsetIn(k, csize) == 0 ==> ClusterOf(k, csize) == ClusterOf(k - 1, csize) + 1
    ensures OffsetIn(k, csize) != 0 ==> ClusterOf(k, csize) == ClusterOf(k - 1, csize)
  {
    Located(k - 1, csize);
    var j, o := ClusterOf(k - 1, csize), OffsetIn(k - 1, csize);
    if o + 1 < csize {
      LocatedAt(j, o + 1, csize);
    } else {
      assert Span(j + 1, csize) == Span(j, csize) + csize;
      LocatedAt(j + 1, 0, csize);
    }
  }

  /** Sector `k` of a file is in one of its first `n` clusters exactly when it is below their span. */
  lemma ClusterBelow(k: nat, n: nat, csize: nat)
    requires csize > 0
    ensures k < Span(n, csize) <==> ClusterOf(k, csize) < n
  {
    Located(k, csize);
    var j := ClusterOf(k, csize);
    if j < n {
      SpanMono(j, n, csize);
    } else {
      SpanMono(n, j, csize);
    }
  }

  /** The chain of a file, with clusters of this volume. */
  ghost predicate OnVolume(g: Geometry, s: seq<nat>) {
    (forall i :: 0 <= i < |s| ==> IsCluster(g, s[i])) && Distinct(s)
  }

  /** Sectors a chain has room for. */
  function Room(g: Geometry, s: seq<nat>): nat {
    Span(|s|, g.csize)
  }

  /** Sector `k` of the file with chain `s`. */
  ghost function FileSector(g: Geometry, s: seq<nat>, k: nat): (r: nat)
    requires OnVolume(g, s) && k < Room(g, s)
    ensures g.database <= r < g.nsect
  {
    Located(k, g.csize);
    ClusterBelow(k, |s|, g.csize);
    ClusterSectors(g, s[ClusterOf(k, g.csize)]);
    Clust2Sect(g, s[ClusterOf(k, g.csize)]) + OffsetIn(k, g.csize)
  }

  /** No two sectors of a file are the same. */
  lemma FileSectorsApart(g: Geometry, s: seq<nat>, k: nat, l: nat)
    requires OnVolume(g, s) && k < Room(g, s) && l < Room(g, s) && k != l
    ensures FileSector(g, s, k) != FileSector(g, s, l)
  {
    Located(k, g.csize);
    Located(l, g.csize);
    ClusterBelow(k, |s|, g.csize);
    ClusterBelow(l, |s|, g.csize);
    var i, j := ClusterOf(k, g.csize), ClusterOf(l, g.csize);
    if i != j {
      ClustersApart(g, s[i], s[j], OffsetIn(k, g.csize), OffsetIn(l, g.csize));
    }
  }

  ghost predicate InFile(g: Geometry, s: seq<nat>, sect: nat)
    requires OnVolume(g, s)
  {
    exists k: nat :: k < Room(g, s) && FileSector(g, s, k) == sect
  }

  /** A longer chain has the same first sectors. */
  lemma FileSectorPrefix(g: Geometry, s: seq<nat>, t: seq<nat>, k: nat)
    requires OnVolume(g, t) && s <= t && k < Room(g, s)
    ensures OnVolume(g, s) && Room(g, s) <= Room(g, t) && FileSector(g, s, k) == FileSector(g, t, k)
  {
    assert forall i :: 0 <= i < |s| ==> s[i] == t[i];
    SpanMono(|s|, |t|, g.csize);
    ClusterBelow(k, |s|, g.csize);
  }

  // ---------- Bytes of a file ----------

  /** Byte `i` of the file with chain `s` on disk `d`. */
  ghost function FileByte(g: Geometry, d: seq<Sector>, s: seq<nat>, i: nat): byte
    requires |d| == g.nsect && OnVolume(g, s) && i / SS < Room(g, s)
  {
    d[FileSector(g, s, i / SS)][i % SS]
  }

  /** The first `n` bytes of the file. */
  ghost function Contents(g: Geometry, d: seq<Sector>, s: seq<nat>, n: nat): (c: seq<byte>)
    requires |d| == g.nsect && OnVolume(g, s) && n <= Room(g, s) * SS
    ensures |c| == n
  {
    seq(n, i requires 0 <= i < n => FileByte(g, d, s, i))
  }
}
