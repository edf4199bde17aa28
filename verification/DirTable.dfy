/**
  Directory tables: where on the volume their entries are. A table is the fixed root directory
  of FAT12/16, which has no chain here, or the clusters of a chain.
*/
module DirTable {
  import opened Bytes
  import opened Volume
  import opened FileLayout
  import opened Lfn

  const PER_SECTOR: nat := 16          // entries per sector
  const MAX_ENTRIES: nat := 0x1_0000   // an index has 16 bits

  /** A table of this volume. */
  ghost predicate IsTable(g: Geometry, chain: seq<nat>) {
    OnVolume(g, chain) && (chain == [] ==> g.fsType != Fat32)
  }

  /** Sectors of the table. */
  function TableSectors(g: Geometry, chain: seq<nat>): nat {
    if chain == [] then g.nRootdir / PER_SECTOR else Room(g, chain)
  }

  function Capacity(g: Geometry, chain: seq<nat>): nat {
    TableSectors(g, chain) * PER_SECTOR
  }

  /** Sector `k` of the table. */
  ghost function TableSector(g: Geometry, chain: seq<nat>, k: nat): (s: nat)
    requires IsTable(g, chain) && k < TableSectors(g, chain)
    ensures 0 < s < g.nsect && !InFat(g, s) && !InMirror(g, s)
  {
    if chain == [] then g.dirbase + k else FileSector(g, chain, k)
  }

  /** Where an entry is: its cluster, 0 in a fixed table, its sector, and its offset in there. */
  datatype Place = Place(clust: nat, sect: nat, dir: nat)

  ghost function PlaceOf(g: Geometry, chain: seq<nat>, i: nat): (p: Place)
    requires IsTable(g, chain) && i < Capacity(g, chain)
    ensures p.dir + 32 <= SS
  {
    ClusterBelow(i / PER_SECTOR, |chain|, g.csize);
    Place(if chain == [] then 0 else chain[ClusterOf(i / PER_SECTOR, g.csize)],
          TableSector(g, chain, i / PER_SECTOR), i % PER_SECTOR * 32)
  }

  /** No two sectors of a table are the same. */
  lemma TableSectorsApart(g: Geometry, chain: seq<nat>, k: nat, l: nat)
    requires IsTable(g, chain) && k < TableSectors(g, chain) && l < TableSectors(g, chain) && k != l
    ensures TableSector(g, chain, k) != TableSector(g, chain, l)
  {
    if chain != [] {
      FileSectorsApart(g, chain, k, l);
    }
  }

  // ---------- The entries ----------

  /** Entries that an index can reach. */
  function Reach(g: Geometry, chain: seq<nat>): nat {
    if Capacity(g, chain) < MAX_ENTRIES then Capacity(g, chain) else MAX_ENTRIES
  }

  ghost function EntryAt(g: Geometry, d: seq<Sector>, chain: seq<nat>, i: nat): DirEntry
    requires |d| == g.nsect && IsTable(g, chain) && i < Capacity(g, chain)
  {
    var p := PlaceOf(g, chain, i);
    d[p.sect][p.dir..p.dir + 32]
  }

  ghost function Entries(g: Geometry, d: seq<Sector>, chain: seq<nat>): (t: seq<DirEntry>)
    requires |d| == g.nsect && IsTable(g, chain)
    ensures |t| == Reach(g, chain)
  {
    seq(Reach(g, chain), i requires 0 <= i < Reach(g, chain) => EntryAt(g, d, chain, i))
  }

  ghost predicate InTable(g: Geometry, chain: seq<nat>, s: nat)
    requires IsTable(g, chain)
  {
    exists k: nat :: k < TableSectors(g, chain) && TableSector(g, chain, k) == s
  }

  /** The entries depend on the sectors of the table only. */
  lemma SameEntries(g: Geometry, a: seq<Sector>, b: seq<Sector>, chain: seq<nat>)
    requires |a| == |b| == g.nsect && IsTable(g, chain)
    requires forall s :: 0 <= s < |a| && InTable(g, chain, s) ==> a[s] == b[s]
    ensures Entries(g, a, chain) == Entries(g, b, chain)
  {
  }

  lemma SameSlice(a: seq<byte>, b: seq<byte>, lo: nat, hi: nat)
    requires lo <= hi <= |a| == |b| && forall j :: lo <= j < hi ==> b[j] == a[j]
    ensures b[lo..hi] == a[lo..hi]
  {
  }

  /** Changing one entry. */
  lemma EntryChanged(g: Geometry, a: seq<Sector>, b: seq<Sector>, chain: seq<nat>, i: nat, e: DirEntry)
    requires |a| == |b| == g.nsect && IsTable(g, chain) && i < Reach(g, chain)
    requires var p := PlaceOf(g, chain, i);
      && (forall s :: 0 <= s < |a| && s != p.sect ==> b[s] == a[s])
      && (forall j :: 0 <= j < SS && !(p.dir <= j < p.dir + 32) ==> b[p.sect][j] == a[p.sect][j])
      && b[p.sect][p.dir..p.dir + 32] == e
    ensures Entries(g, b, chain) == Entries(g, a, chain)[i := e]
  {
    forall j: nat | j < Reach(g, chain)
      ensures EntryAt(g, b, chain, j) == if j == i then e else EntryAt(g, a, chain, j)
    {
      var p, q := PlaceOf(g, chain, i), PlaceOf(g, chain, j);
      if j / PER_SECTOR != i / PER_SECTOR {
        TableSectorsApart(g, chain, i / PER_SECTOR, j / PER_SECTOR);
      } else if j != i {
        assert q.dir + 32 <= p.dir || p.dir + 32 <= q.dir;
        SameSlice(a[q.sect], b[q.sect], q.dir, q.dir + 32);
      }
    }
  }

  // ---------- The next entry ----------

  /** Within a sector only the offset changes. */
  lemma EntryFollows(g: Geometry, chain: seq<nat>, i: nat)
    requires IsTable(g, chain) && i < Capacity(g, chain) && (i + 1) % PER_SECTOR != 0
    ensures i + 1 < Capacity(g, chain)
    ensures var p := PlaceOf(g, chain, i);
      PlaceOf(g, chain, i + 1) == p.(dir := (i + 1) % PER_SECTOR * 32)
  {
  }

  /** In a fixed table, and within a cluster, the next sector follows. */
  lemma SectorFollows(g: Geometry, chain: seq<nat>, i: nat)
    requires IsTable(g, chain) && i < Capacity(g, chain) && (i + 1) % PER_SECTOR == 0
    requires chain != [] ==> OffsetIn((i + 1) / PER_SECTOR, g.csize) != 0
    ensures i + 1 < Capacity(g, chain) <==> chain != [] || i + 1 < g.nRootdir
    ensures i + 1 < Capacity(g, chain) ==>
      var p := PlaceOf(g, chain, i);
      PlaceOf(g, chain, i + 1) == Place(p.clust, p.sect + 1, 0)
  {
    var k := (i + 1) / PER_SECTOR;
    assert i / PER_SECTOR == k - 1 && (i + 1) % PER_SECTOR * 32 == 0;
    if chain != [] {
      LocatedCross(k, g.csize);
      Located(k, g.csize);
      Located(k - 1, g.csize);
      ClusterBelow(k - 1, |chain|, g.csize);
      ClusterBelow(k, |chain|, g.csize);
    }
  }

  /** At the end of a cluster, the next entry is the first of the next cluster. */
  lemma ClusterFollows(g: Geometry, chain: seq<nat>, i: nat)
    requires IsTable(g, chain) && i < Capacity(g, chain) && (i + 1) % PER_SECTOR == 0 && chain != []
    requires OffsetIn((i + 1) / PER_SECTOR, g.csize) == 0
    ensures var j := ClusterOf(i / PER_SECTOR, g.csize);
      && j < |chain| && (j + 1 < |chain| <==> i + 1 < Capacity(g, chain))
      && (j + 1 < |chain| ==> PlaceOf(g, chain, i + 1) == Place(chain[j + 1], Clust2Sect(g, chain[j + 1]), 0))
  {
    var k := (i + 1) / PER_SECTOR;
    assert i / PER_SECTOR == k - 1 && (i + 1) % PER_SECTOR * 32 == 0;
    LocatedCross(k, g.csize);
    ClusterBelow(k - 1, |chain|, g.csize);
    ClusterBelow(k, |chain|, g.csize);
  }

  /** The last cluster is full when the next index is past the table. */
  lemma LastCluster(g: Geometry, chain: seq<nat>, i: nat)
    requires IsTable(g, chain) && i < Capacity(g, chain) && i + 1 >= Capacity(g, chain)
    ensures (i + 1) % PER_SECTOR == 0
    ensures chain != [] ==> OffsetIn((i + 1) / PER_SECTOR, g.csize) == 0
    ensures chain != [] ==> ClusterOf(i / PER_SECTOR, g.csize) == |chain| - 1
  {
    if (i + 1) % PER_SECTOR != 0 {
      EntryFollows(g, chain, i);
    } else if chain != [] {
      if OffsetIn((i + 1) / PER_SECTOR, g.csize) != 0 {
        SectorFollows(g, chain, i);
      } else {
        ClusterFollows(g, chain, i);
      }
    }
  }
}
