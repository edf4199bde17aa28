/**
  Directory tables on the volume: what storing to one of them, to the FAT, or to a cluster
  leaves of the other ones.
*/
module TreeDisk {
  import opened Bytes
  import opened Volume
  import opened Chains
  import opened Allocator
  import opened FileLayout
  import opened Lfn
  import opened DirTable
  import opened Directories
  import opened DirSearch
  import opened Tree

  /** The directories' chains are on the volume, and their tables are what is in the clusters. */
  ghost predicate OnDisk(g: Geometry, fat: seq<nat>, view: seq<Sector>, dirs: map<nat, seq<nat>>,
                         tabs: map<nat, seq<DirEntry>>) {
    && |fat| == g.nFatent && |view| == g.nsect && dirs.Keys == tabs.Keys
    && forall s :: s in dirs ==>
      IsTable(g, dirs[s]) && IsChain(fat, dirs[s]) && StartsAt(g, dirs[s], s) && tabs[s] == Entries(g, view, dirs[s])
  }

  /** No two directories share a cluster, and only one is the fixed root directory. */
  ghost predicate DirsApart(dirs: map<nat, seq<nat>>) {
    forall s, d :: s in dirs && d in dirs && s != d ==> Disjoint(dirs[s], dirs[d]) && (dirs[s] != [] || dirs[d] != [])
  }

  /** Where chains are exclusive, so are those of directories. */
  lemma TreeDirsApart(t: FatType, fat: seq<nat>, tr: Tree, loose: seq<nat>)
    requires Claims(t, tr, loose) && Exclusive(fat, tr, loose)
    ensures DirsApart(tr.dirs)
  {
    hide Starting, GoodTables, IsChain, Held, HasOwner, Disjoint;
    forall s, d | s in tr.dirs && d in tr.dirs && s != d
      ensures Disjoint(tr.dirs[s], tr.dirs[d]) && (tr.dirs[s] != [] || tr.dirs[d] != [])
    {
      if s == 0 {
        DirFromRoot(t, fat, tr, loose, d);
      } else if d == 0 {
        DirFromRoot(t, fat, tr, loose, s);
      } else {
        TwoDirs(t, fat, tr, loose, s, d);
      }
    }
  }

  lemma DirFromRoot(t: FatType, fat: seq<nat>, tr: Tree, loose: seq<nat>, d: nat)
    requires Rooted(tr, loose) && Exclusive(fat, tr, loose) && d in tr.dirs && d != 0
    ensures Disjoint(tr.dirs[0], tr.dirs[d]) && Disjoint(tr.dirs[d], tr.dirs[0])
  {
    hide IsChain, Held, HasOwner;
    if tr.dirs[d] != loose {
      var k := DirOwner(tr, loose, d);
      assert Disjoint(tr.own[k], tr.dirs[0]);
    } else {
      assert Disjoint(loose, tr.dirs[0]);
    }
  }

  lemma TwoDirs(t: FatType, fat: seq<nat>, tr: Tree, loose: seq<nat>, s: nat, d: nat)
    requires Rooted(tr, loose) && Exclusive(fat, tr, loose) && s in tr.dirs && d in tr.dirs && s != d && s != 0
    requires d != 0
    ensures Disjoint(tr.dirs[s], tr.dirs[d])
  {
    hide IsChain, Held, HasOwner;
    assert tr.dirs[s] != tr.dirs[d];
    if tr.dirs[s] == loose {
      var l := DirOwner(tr, loose, d);
      assert Disjoint(tr.own[l], loose);
    } else if tr.dirs[d] == loose {
      var k := DirOwner(tr, loose, s);
      assert Disjoint(tr.own[k], loose);
    } else {
      var k := DirOwner(tr, loose, s);
      var l := DirOwner(tr, loose, d);
      assert k != l ==> Disjoint(tr.own[k], tr.own[l]);
    }
  }

  /** Tables without a common cluster have no sector in common. */
  lemma TablesApart(g: Geometry, c: seq<nat>, d: seq<nat>, x: nat)
    requires IsTable(g, c) && IsTable(g, d) && Disjoint(c, d) && (c != [] || d != [])
    ensures !(InTable(g, c, x) && InTable(g, d, x))
  {
    forall k: nat, l: nat | k < TableSectors(g, c) && l < TableSectors(g, d)
      ensures TableSector(g, c, k) != TableSector(g, d, l)
    {
      if c != [] && d != [] {
        ClusterBelow(k, |c|, g.csize);
        ClusterBelow(l, |d|, g.csize);
        Located(k, g.csize);
        Located(l, g.csize);
        ClustersApart(g, c[ClusterOf(k, g.csize)], d[ClusterOf(l, g.csize)],
                      OffsetIn(k, g.csize), OffsetIn(l, g.csize));
      }
    }
  }

  /** Tables are above the reserved area. */
  lemma TableAbove(g: Geometry, c: seq<nat>, x: nat)
    requires IsTable(g, c) && InTable(g, c, x)
    ensures g.fatbase <= x < g.nsect && !InFat(g, x) && !InMirror(g, x)
  {
    hide Span;
  }

  // ---------- Steps ----------

  /** One table is stored to, and may have got longer. */
  lemma DiskStep(g: Geometry, a: Snap, b: Snap, dirs: map<nat, seq<nat>>, tabs: map<nat, seq<DirEntry>>, s: nat)
    requires OnDisk(g, a.fat, a.view, dirs, tabs) && DirsApart(dirs) && s in dirs && a.chain == dirs[s]
    requires Extended(g, a, b) && IsChain(b.fat, b.chain) && StartsAt(g, b.chain, s) && |b.view| == g.nsect
    ensures OnDisk(g, b.fat, b.view, dirs[s := b.chain], tabs[s := Entries(g, b.view, b.chain)])
    ensures DirsApart(dirs[s := b.chain])
    ensures ChainGrows(a.fat, b.fat, a.chain, b.chain)
  {
    hide IsChain, Disjoint, FreeBelow, CountKept, TableSector, Entries;
    ExtendedGrows(g, a, b);
    forall d | d in dirs && d != s
      ensures IsChain(b.fat, dirs[d]) && Disjoint(dirs[d], b.chain) && Disjoint(b.chain, dirs[d])
      ensures Entries(g, b.view, dirs[d]) == Entries(g, a.view, dirs[d])
    {
      GrowApart(a.fat, b.fat, dirs[d], a.chain, b.chain);
      OtherTable(g, a, b, dirs[d]);
    }
  }

  lemma ExtendedFacts(g: Geometry, a: Snap, b: Snap)
    requires Extended(g, a, b)
    ensures IsTable(g, b.chain) && a.chain <= b.chain && |a.fat| == |b.fat| == g.nFatent
  {
  }

  lemma ExtendedGrows(g: Geometry, a: Snap, b: Snap)
    requires Extended(g, a, b) && IsChain(b.fat, b.chain)
    ensures ChainGrows(a.fat, b.fat, a.chain, b.chain)
  {
    hide TableSector, FreeBelow;
    forall c | c in b.chain && c !in a.chain
      ensures InRange(a.fat, c) && a.fat[c] == 0
    {
      var i :| 0 <= i < |b.chain| && b.chain[i] == c;
      assert InRange(b.fat, b.chain[i]);
    }
  }

  lemma OtherTable(g: Geometry, a: Snap, b: Snap, c: seq<nat>)
    requires Extended(g, a, b) && IsTable(g, c) && Disjoint(c, b.chain) && (c != [] || b.chain != [])
    requires |a.view| == |b.view| == g.nsect
    ensures Entries(g, b.view, c) == Entries(g, a.view, c)
  {
    hide TableSector, FreeBelow, IsTable;
    forall x: nat | x < g.nsect && InTable(g, c, x)
      ensures a.view[x] == b.view[x]
    {
      TablesApart(g, c, b.chain, x);
      TableAbove(g, c, x);
    }
    SameEntries(g, a.view, b.view, c);
  }

  /** The FAT is stored to; the directories' chains are as they were. */
  lemma DiskFat(g: Geometry, fat: seq<nat>, fat': seq<nat>, v: seq<Sector>, v': seq<Sector>,
                dirs: map<nat, seq<nat>>, tabs: map<nat, seq<DirEntry>>)
    requires OnDisk(g, fat, v, dirs, tabs) && |fat'| == |fat| && AgreeOutsideFat(g, v', v)
    requires forall s :: s in dirs ==> IsChain(fat', dirs[s])
    ensures OnDisk(g, fat', v', dirs, tabs)
  {
    hide IsChain, IsTable, Entries;
    forall s | s in dirs
      ensures Entries(g, v', dirs[s]) == Entries(g, v, dirs[s])
    {
      SameTable(g, v', v, dirs[s]);
    }
  }

  /** Sectors are stored to that belong to no table. */
  lemma DiskOther(g: Geometry, fat: seq<nat>, v: seq<Sector>, v': seq<Sector>, dirs: map<nat, seq<nat>>,
                  tabs: map<nat, seq<DirEntry>>)
    requires OnDisk(g, fat, v, dirs, tabs) && |v'| == |v|
    requires forall s, x :: s in dirs && 0 <= x < |v| && IsTable(g, dirs[s]) && InTable(g, dirs[s], x) ==> v'[x] == v[x]
    ensures OnDisk(g, fat, v', dirs, tabs)
  {
    hide IsChain, IsTable, InTable, Entries;
    forall s | s in dirs
      ensures Entries(g, v', dirs[s]) == Entries(g, v, dirs[s])
    {
      SameEntries(g, v, v', dirs[s]);
    }
  }
}
