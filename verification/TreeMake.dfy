/**
  Making directories.
*/
module TreeMake {
  import opened Bytes
  import opened Volume
  import opened FatCodec
  import opened Chains
  import opened Allocator
  import opened FileLayout
  import opened Lfn
  import opened NumName
  import opened Sync
  import opened DirTable
  import opened Directories
  import opened DirNames
  import opened DirSearch
  import opened DirChange
  import opened DirTheory
  import opened Tree
  import opened TreePaths
  import opened TreeDisk
  import opened TreeOps

  const AM_DIR: byte := 0x10

  // ---------- Entries ----------

  /** The entry with a start cluster stored in it. */
  function StoreCluster(e: DirEntry, cl: u32): (f: DirEntry) {
    St16(St16(e, 26, cl), 20, cl / 0x1_0000)
  }

  lemma StoredCluster(t: FatType, e: DirEntry, cl: u32)
    requires t == Fat32 || cl < 0x1_0000
    ensures var f := StoreCluster(e, cl);
      && StartCluster(t, f) == cl
      && forall k :: 0 <= k < 32 && k != 20 && k != 21 && k != 26 && k != 27 ==> f[k] == e[k]
  {
    St16Ld16(e, 26, cl);
    St16Ld16(St16(e, 26, cl), 20, cl / 0x1_0000);
  }

  /** A directory's entry: attribute, time and start cluster. */
  function DirEntryOf(e: DirEntry, cl: u32, time: u32): (f: DirEntry) {
    StoreCluster(St32(e[11 := AM_DIR], 22, time), cl)
  }

  lemma DirEntryFields(t: FatType, e: DirEntry, cl: u32, time: u32)
    requires t == Fat32 || cl < 0x1_0000
    ensures var f := DirEntryOf(e, cl, time);
      && StartCluster(t, f) == cl && f[11] == AM_DIR && forall k :: 0 <= k < 11 ==> f[k] == e[k]
  {
    hide StoreCluster;
    StoredCluster(t, St32(e[11 := AM_DIR], 22, time), cl);
    St32Ld32(e[11 := AM_DIR], 22, time);
  }

  /** The name of a dot entry, padded with spaces. */
  function DotName(two: bool): (e: DirEntry) {
    Spaces(11)[0 := DOT][1 := if two then DOT else SPACE] + ZeroEntry()[11..]
  }

  /** The first sector of a new directory: the entries for itself and for its parent. */
  function DotSector(cl: u32, pcl: u32, time: u32): (s: Sector) {
    DirEntryOf(DotName(false), cl, time) + DirEntryOf(DotName(true), pcl, time) + ZeroSector()[64..]
  }

  lemma DotSectorEntries(cl: u32, pcl: u32, time: u32)
    ensures var s := DotSector(cl, pcl, time);
      && IsDot(s[0..32]) && IsDot(s[32..64]) && forall i :: 2 <= i < 16 ==> s[i * 32..i * 32 + 32] == ZeroEntry()
  {
    hide DirEntryOf;
    DirEntryFields(Fat32, DotName(false), cl, time);
    DirEntryFields(Fat32, DotName(true), pcl, time);
    var s := DotSector(cl, pcl, time);
    assert s[0..32] == DirEntryOf(DotName(false), cl, time);
    assert s[32..64] == DirEntryOf(DotName(true), pcl, time);
    forall i | 2 <= i < 16
      ensures s[i * 32..i * 32 + 32] == ZeroEntry()
    {
      assert forall k :: i * 32 <= k < i * 32 + 32 ==> s[k] == 0;
    }
  }

  // ---------- The cluster of the new directory ----------

  /** The sectors of a cluster have become `first` and zeros, and no other ones have changed. */
  ghost predicate Made(g: Geometry, a: seq<Sector>, b: seq<Sector>, clst: u32, first: Sector) {
    && |a| == |b|
    && forall x :: 0 <= x < |a| && !InMirror(g, x) ==>
      b[x] ==
        if x == Clust2Sect(g, clst) then first
        else if Clust2Sect(g, clst) < x < Clust2Sect(g, clst) + g.csize then ZeroSector()
        else a[x]
  }

  /** Write the dot entries and clear the other sectors of a cluster, through the window. */
  method WriteTable(fs: Fatfs, clst: u32, first: Sector) returns (res: FResult)
    requires fs.Valid() && !fs.wflag && IsCluster(fs.g, clst)
    modifies fs`disk, fs`wflag, fs`faults, fs`winsect, fs.win
    ensures fs.Valid() && fs.Steady()
    ensures res != Ok ==> res == DiskErr && fs.faults > old(fs.faults)
    ensures res == Ok ==> Made(fs.g, old(fs.View()), fs.View(), clst, first)
  {
    ClusterSectors(fs.g, clst);
    ghost var d := fs.disk;
    var base := Clust2Sect(fs.g, clst);
    res := Ok;
    var c := 0;
    while c < fs.g.csize
      invariant 0 <= c <= fs.g.csize && !fs.wflag && |fs.disk| == |d| && fs.Valid() && fs.Steady() && res == Ok
      invariant forall x :: 0 <= x < |d| && !InMirror(fs.g, x) ==>
        fs.disk[x] == if base <= x < base + c then (if x == base then first else ZeroSector()) else d[x]
    {
      fs.FillWindow(if c == 0 then first else ZeroSector());
      fs.winsect := base + c;
      fs.wflag := true;
      ghost var w := fs.View();
      res := fs.SyncWindow();
      if res != Ok { return DiskErr; }
      c := c + 1;
    }
  }

  /** The entries of a new directory. */
  lemma MadeTable(g: Geometry, a: seq<Sector>, b: seq<Sector>, clst: u32, first: Sector, cl: u32, pcl: u32, time: u32)
    requires |a| == |b| == g.nsect && Made(g, a, b, clst, first) && first == DotSector(cl, pcl, time)
    requires IsTable(g, [clst]) && IsCluster(g, clst)
    ensures var tab := Entries(g, b, [clst]);
      && NoObjects(tab) && Tidy(tab) && DotsFirst(tab, true)
  {
    hide DotSector, IsTable, Made;
    var chain, tab := [clst as nat], Entries(g, b, [clst]);
    assert Span(1, g.csize) == Span(0, g.csize) + g.csize == g.csize;
    DotSectorEntries(cl, pcl, time);
    forall i: nat | i < |tab|
      ensures if i < 2 then IsDot(tab[i]) else tab[i] == ZeroEntry()
    {
      MadeEntry(g, a, b, clst, first, i);
    }
  }

  lemma MadeEntry(g: Geometry, a: seq<Sector>, b: seq<Sector>, clst: u32, first: Sector, i: nat)
    requires |a| == |b| == g.nsect && Made(g, a, b, clst, first)
    requires IsTable(g, [clst]) && IsCluster(g, clst) && i < Reach(g, [clst])
    requires IsDot(first[0..32]) && IsDot(first[32..64]) && forall k :: 2 <= k < 16 ==>
      first[k * 32..k * 32 + 32] == ZeroEntry()
    ensures var e := Entries(g, b, [clst])[i]; if i < 2 then IsDot(e) else e == ZeroEntry()
  {
    hide IsDot;
    var k := i / PER_SECTOR;
    assert Span(1, g.csize) == g.csize;
    LocatedAt(0, k, g.csize);
    ClusterSectors(g, clst);
    var x := TableSector(g, [clst], k);
    assert x == Clust2Sect(g, clst) + k;
    assert k > 0 ==> b[x] == ZeroSector();
    assert ZeroSector()[i % 16 * 32..i % 16 * 32 + 32] == ZeroEntry();
  }

  /** A cluster that is in no directory's chain has no sector in a table. */
  lemma ClusterElsewhere(g: Geometry, d: seq<nat>, clst: u32, x: nat)
    requires IsTable(g, d) && IsCluster(g, clst) && clst !in d
    requires Clust2Sect(g, clst) <= x < Clust2Sect(g, clst) + g.csize
    ensures !InTable(g, d, x)
  {
    ClusterSectors(g, clst);
    if d != [] {
      forall k: nat | k < TableSectors(g, d)
        ensures TableSector(g, d, k) != x
      {
        ClusterBelow(k, |d|, g.csize);
        Located(k, g.csize);
        ClustersApart(g, d[ClusterOf(k, g.csize)], clst, OffsetIn(k, g.csize), x - Clust2Sect(g, clst));
      }
    }
  }

  /** The new directory is on the volume with the others. */
  lemma DiskMade(g: Geometry, fat: seq<nat>, a: seq<Sector>, b: seq<Sector>, dirs: map<nat, seq<nat>>,
                 tabs: map<nat, seq<DirEntry>>,
                 clst: u32, first: Sector)
    requires OnDisk(g, fat, a, dirs, tabs) && Made(g, a, b, clst, first) && IsCluster(g, clst) && IsChain(fat, [clst])
    requires IsTable(g, [clst]) && StartsAt(g, [clst], clst) && forall d :: d in dirs ==> clst !in dirs[d]
    ensures |b| == g.nsect && OnDisk(g, fat, b, dirs[clst := [clst]], tabs[clst := Entries(g, b, [clst])])
  {
    hide IsChain, IsTable, InTable, Entries, StartsAt;
    forall s, x | s in dirs && 0 <= x < |a| && IsTable(g, dirs[s]) && InTable(g, dirs[s], x)
      ensures b[x] == a[x]
    {
      TableAbove(g, dirs[s], x);
      if Clust2Sect(g, clst) <= x < Clust2Sect(g, clst) + g.csize {
        ClusterElsewhere(g, dirs[s], clst, x);
      }
    }
    DiskOther(g, fat, a, b, dirs, tabs);
    assert dirs[clst := [clst]].Keys == tabs[clst := Entries(g, b, [clst])].Keys;
  }

  /** A new cluster as the chain of a directory. */
  lemma OneCluster(g: Geometry, fat: seq<nat>, r: nat)
    requires |fat| == g.nFatent && InRange(fat, r) && fat[r] >= |fat|
    ensures IsChain(fat, [r]) && IsCluster(g, r) && IsTable(g, [r]) && StartsAt(g, [r], r)
  {
  }

  lemma LooseInNoDir(t: FatType, fat: seq<nat>, tr: Tree, r: nat)
    requires Claims(t, tr, [r]) && Exclusive(fat, tr, [r]) && r !in tr.dirs
    ensures forall d :: d in tr.dirs ==> r !in tr.dirs[d] && IsChain(fat, tr.dirs[d])
  {
    hide Starting, GoodTables, IsChain, Held, HasOwner;
    forall d | d in tr.dirs
      ensures r !in tr.dirs[d] && IsChain(fat, tr.dirs[d])
    {
      assert [r][0] == r;
      if d == 0 {
        assert Disjoint([r], tr.dirs[0]);
      } else {
        var k := DirOwner(tr, [r], d);
        assert Disjoint(tr.own[k], [r]);
      }
    }
  }

  // ---------- f_mkdir ----------

  /** Take a free cluster for the new table. */
  method TakeCluster(fs: Fatfs, ghost tr: Tree) returns (res: FResult, r: u32)
    requires Good(fs, tr)
    modifies fs, fs.win
    ensures fs.Valid() && fs.Steady()
    ensures res == Denied ==> r == 0 && Good(fs, tr) && FreeCount(old(Fat(fs))) == 0
    ensures res == Ok ==>
      && !fs.wflag && InRange(Fat(fs), r) && Fat(fs)[r] >= |Fat(fs)| && !HasReserved(Fat(fs)) && r !in tr.dirs
      && OnDisk(fs.g, Fat(fs), fs.View(), tr.dirs, tr.tabs)
      && Claims(fs.g.fsType, tr, [r]) && Exclusive(Fat(fs), tr, [r])
    ensures res == Ok || res == Denied || (res == DiskErr && fs.faults > old(fs.faults))
  {
    hide FatOf, OnDisk, Claims, Exclusive, FreeBelow, CountKept, IsChain;
    ghost var t, fat, v := fs.g.fsType, Fat(fs), fs.View();
    DirsAreChains(t, fat, tr);
    r := CreateChain(fs, 0);
    if r == 0xFFFF_FFFF { return DiskErr, r; }
    if r == 1 { assert false; }
    if r == 0 {
      DiskFat(fs.g, fat, Fat(fs), v, fs.View(), tr.dirs, tr.tabs);
      return Denied, r;
    }
    EndMarkEnds(fs.g);
    Take(t, fat, tr, r, EndMark(fs.g));
    LooseInNoDir(t, Fat(fs), tr, r);
    TakenReserved(fat, Fat(fs), r, EndMark(fs.g));
    ghost var v1, fat1 := fs.View(), Fat(fs);
    DiskFat(fs.g, fat, fat1, v, v1, tr.dirs, tr.tabs);
    res := fs.SyncWindow();
    if res != Ok { return; }
    SameFirstCopy(fs.g, v1, fs.View());
    DiskFat(fs.g, fat1, Fat(fs), v1, fs.View(), tr.dirs, tr.tabs);
  }

  lemma TakenReserved(fat: seq<nat>, fat': seq<nat>, r: nat, end: nat)
    requires InRange(fat, r) && end >= |fat| && fat' == fat[r := end]
    ensures HasReserved(fat') ==> HasReserved(fat)
  {
    if HasReserved(fat') {
      var c :| InRange(fat', c) && fat'[c] == 1;
      assert c != r;
      assert fat[c] == 1;
    }
  }

  /** The state in which a directory has its table but no entry yet. */
  ghost predicate Nameless(fs: Fatfs, tr: Tree, r: nat)
    reads fs, fs.win
  {
    && fs.Valid() && !HasReserved(Fat(fs)) && InfoApart(fs.g)
    && OnDisk(fs.g, Fat(fs), fs.View(), tr.dirs, tr.tabs)
    && Claims(fs.g.fsType, tr, [r]) && Exclusive(Fat(fs), tr, [r])
    && r != 0 && r in tr.dirs && r in tr.tabs && tr.dirs[r] == [r] && NoObjects(tr.tabs[r])
  }

  /** Make the table of the new directory in its cluster. */
  method MakeTable(fs: Fatfs, r: u32, pcl: u32, time: u32, ghost tr: Tree) returns (res: FResult, ghost tr1: Tree)
    requires fs.Valid() && !fs.wflag && InfoApart(fs.g) && !HasReserved(Fat(fs))
    requires InRange(Fat(fs), r) && Fat(fs)[r] >= |Fat(fs)| && r !in tr.dirs
    requires OnDisk(fs.g, Fat(fs), fs.View(), tr.dirs, tr.tabs)
    requires Claims(fs.g.fsType, tr, [r]) && Exclusive(Fat(fs), tr, [r])
    modifies fs`disk, fs`wflag, fs`faults, fs`winsect, fs.win
    ensures fs.Valid() && fs.Steady()
    ensures res == Ok ==>
      && Nameless(fs, tr1, r) && Fat(fs) == old(Fat(fs)) && tr1 == WithDir(tr, r, [r], tr1.tabs[r])
      && AgreeElsewhere(fs.g, old(fs.View()), fs.View(), r)
    ensures res == Ok || (res == DiskErr && fs.faults > old(fs.faults))
  {
    hide FatOf, OnDisk, Starting, Rooted, GoodTables, Exclusive, IsChain, IsTable, DotSector, HasReserved, Made,
      NoObjects, Tidy;
    tr1 := tr;
    ghost var t, v, fat := fs.g.fsType, fs.View(), Fat(fs);
    OneCluster(fs.g, fat, r);
    var first := DotSector(r, pcl, time);
    res := WriteTable(fs, r, first);
    if res != Ok { return; }
    MadeKeepsFat(fs.g, v, fs.View(), r, first);
    MadeTable(fs.g, v, fs.View(), r, first, r, pcl, time);
    LooseInNoDir(t, fat, tr, r);
    DiskMade(fs.g, fat, v, fs.View(), tr.dirs, tr.tabs, r, first);
    ghost var tab := Entries(fs.g, fs.View(), [r]);
    tr1 := WithDir(tr, r, [r], tab);
    NewDir(t, fat, tr, r, tab);
  }

  /** Outside a cluster, only the second FAT copy may differ. */
  ghost predicate AgreeElsewhere(g: Geometry, a: seq<Sector>, b: seq<Sector>, r: u32) {
    && |a| == |b|
    && forall x :: 0 <= x < |a| && !InMirror(g, x) && !(Clust2Sect(g, r) <= x < Clust2Sect(g, r) + g.csize) ==>
         b[x] == a[x]
  }

  lemma MadeKeepsFat(g: Geometry, a: seq<Sector>, b: seq<Sector>, r: u32, first: Sector)
    requires |a| == g.nsect && Made(g, a, b, r, first) && IsCluster(g, r)
    ensures |b| == g.nsect && FatOf(g, b) == FatOf(g, a) && AgreeElsewhere(g, a, b, r)
  {
    ClusterSectors(g, r);
    SameFirstCopy(g, a, b);
  }

  // ---------- Registering ----------

  /** A directory object stands for directory `s` of a tree on the volume. */
  ghost predicate Stands(dp: Dir, tr: Tree)
    reads dp, dp.fs, dp.fs.win
  {
    && dp.Valid() && OnDisk(dp.fs.g, Fat(dp.fs), dp.fs.View(), tr.dirs, tr.tabs)
    && dp.sclust in tr.dirs && dp.sclust in tr.tabs
    && dp.chain == tr.dirs[dp.sclust] && dp.Table() == tr.tabs[dp.sclust]
  }

  lemma StandsAgain(dp: Dir, tr: Tree)
    requires dp.fs.Valid() && !HasReserved(Fat(dp.fs)) && |dp.fn| == 12
    requires OnDisk(dp.fs.g, Fat(dp.fs), dp.fs.View(), tr.dirs, tr.tabs)
    requires dp.sclust in tr.dirs && dp.chain == tr.dirs[dp.sclust]
    ensures Stands(dp, tr)
  {
  }

  /** The tree after the table of directory `s` has been stored to. */
  ghost predicate TableChanged(dp: Dir, tr: Tree, tr': Tree)
    requires dp.Valid()
    reads dp, dp.fs, dp.fs.win
  {
    dp.sclust in tr.dirs && tr' == WithTable(tr, dp.sclust, dp.chain, dp.Table())
  }

  /** What registering an object means for the tree. */
  lemma RegisteredTree(g: Geometry, a: Snap, b: Snap, tr: Tree, loose: seq<nat>, s: nat)
    requires OnDisk(g, a.fat, a.view, tr.dirs, tr.tabs) && Claims(g.fsType, tr, loose) && Exclusive(a.fat, tr, loose)
    requires s in tr.dirs && a.chain == tr.dirs[s] && (s != 0 ==> tr.dirs[s] != loose)
    requires Extended(g, a, b) && IsChain(b.fat, b.chain) && StartsAt(g, b.chain, s) && |b.view| == g.nsect
    requires TableGrows(g.fsType, tr.tabs[s], Entries(g, b.view, b.chain))
    ensures var tr' := WithTable(tr, s, b.chain, Entries(g, b.view, b.chain));
      && OnDisk(g, b.fat, b.view, tr'.dirs, tr'.tabs) && Claims(g.fsType, tr', loose) && Exclusive(b.fat, tr', loose)
      && (forall k, d :: IsOwner(tr, k, d) ==> IsOwner(tr', k, d))
  {
    hide IsChain, OnDisk, Exclusive, Starting, GoodTables, Extended, TableGrows, ChainGrows, HasOwner, Entries,
      StartsAt, DirsApart, IsOwner;
    ExtendedFacts(g, a, b);
    TreeDirsApart(g.fsType, a.fat, tr, loose);
    DiskStep(g, a, b, tr.dirs, tr.tabs, s);
    ChainGrown(a.fat, b.fat, a.chain, b.chain);
    Grow(g.fsType, a.fat, b.fat, tr, loose, s, b.chain, Entries(g, b.view, b.chain));
    OwnersSingle(g.fsType, a.fat, tr, loose);
    GrownOwners(g.fsType, tr, loose, s, b.chain, Entries(g, b.view, b.chain));
  }

  /** Register an object without clusters in a directory of the tree. */
  method RegisterIn(dp: Dir, upper: Upper, ghost name: seq<u16>, ghost tr: Tree, ghost loose: seq<nat>)
    returns (res: FResult, ghost tr': Tree)
    requires Stands(dp, tr) && Claims(dp.fs.g.fsType, tr, loose) && Exclusive(Fat(dp.fs), tr, loose)
    requires dp.sclust != 0 ==> tr.dirs[dp.sclust] != loose
    requires ProperName(dp.fn, dp.lfn, name) && dp.withLfn && Absent(dp.Table(), KeyOf(dp), upper)
    modifies dp.fs, dp.fs.win, dp`index, dp`clust, dp`sect, dp`dir, dp`chain, dp`lfnIdx, dp`fn, dp`withLfn
    ensures dp.fs.Valid() && dp.fs.Steady()
    ensures res == Ok || res == Denied ==>
      && Stands(dp, tr') && TableChanged(dp, tr, tr')
      && Claims(dp.fs.g.fsType, tr', loose) && Exclusive(Fat(dp.fs), tr', loose)
      && TableGrows(dp.fs.g.fsType, old(dp.Table()), dp.Table())
      && (forall k, d :: IsOwner(tr, k, d) ==> IsOwner(tr', k, d))
    ensures res == Ok ==>
      && dp.At(dp.index) && dp.fs.winsect == dp.sect
      && IsObject(dp.Table()[dp.index]) && StartCluster(dp.fs.g.fsType, dp.Table()[dp.index]) == 0
      && (dp.index < |old(dp.Table())| ==> !IsShort(old(dp.Table())[dp.index]))
      && Entered(dp.Table(), old(KeyOf(dp)), |name|, upper, dp.index)
      && OnlyNew(old(dp.Table()), dp.Table(), upper, dp.index)
    ensures res == Denied ==>
      NotEntered(old(dp.Table()), dp.Table(), dp.chain, FreeCount(Fat(dp.fs)), old(KeyOf(dp)), name, upper)
    ensures res == Ok || res == Denied || (res == DiskErr && dp.fs.faults > old(dp.fs.faults))
  {
    hide FatOf, IsTable, OnVolume, HasReserved, IsChain, StartsAt, CountKept, Entries, PlaceOf, FreeBelow, Extended,
      OnDisk, Claims, Exclusive,
      Registered, Named, NoNumber, Crowded, CannotStretch, Lengthened, Absent, FirstRoom, TableGrows, IsObject,
      IsOwner, HoldsName, DotsFirst, Tidy, Entered, OnlyNew, RoomAt;
    tr' := tr;
    ghost var a, t, sn, key, lfn := SnapOf(dp), dp.Table(), dp.fn, KeyOf(dp), dp.lfn;
    TableIsTidy(dp.fs.g.fsType, tr, loose, dp.sclust);
    ghost var t1;
    res, t1 := DirRegister(dp, upper, name);
    if res != Ok && res != Denied { return; }
    ghost var u := dp.Table();
    if res == Ok {
      NamedPrepared(t, sn, dp.fn, lfn, name, upper);
      RegisteredGrows(dp.fs.g.fsType, t, t1, u, dp.index, dp.fn, name);
      RegisterThenFind(t, t1, u, dp.index, sn, dp.fn, lfn, key, name, upper);
      RegisterOthers(t, t1, u, dp.index, dp.fn, name, upper);
    } else {
      LengthenedGrows(dp.fs.g.fsType, t, u);
    }
    RegisteredTree(dp.fs.g, a, SnapOf(dp), tr, loose, dp.sclust);
    tr' := WithTable(tr, dp.sclust, dp.chain, u);
  }

  // ---------- Naming the new directory ----------

  /** An entry at the position gets a chain that no entry owns. */
  method GiveChain(dp: Dir, e: DirEntry, ghost tr: Tree, ghost loose: seq<nat>) returns (ghost tr': Tree)
    requires Stands(dp, tr) && Claims(dp.fs.g.fsType, tr, loose) && Exclusive(Fat(dp.fs), tr, loose)
    requires InfoApart(dp.fs.g)
    requires dp.At(dp.index) && dp.fs.winsect == dp.sect
    requires IsObject(dp.Table()[dp.index]) && StartCluster(dp.fs.g.fsType, dp.Table()[dp.index]) == 0
    requires FitsChain(dp.fs.g.fsType, tr, e, loose)
    modifies dp.fs.win, dp.fs`wflag
    ensures Good(dp.fs, tr') && dp.At(dp.index)
    ensures tr' == Attached(tr, Slot(dp.sclust, dp.index), e, loose)
  {
    hide FatOf, IsTable, OnVolume, HasReserved, IsChain, CountKept, Entries, PlaceOf, FreeBelow, Extended, OnDisk,
      DirsApart, Exclusive, Starting, Rooted, GoodTables, FitsChain, IsObject;
    ghost var a, t, k := SnapOf(dp), dp.fs.g.fsType, Slot(dp.sclust, dp.index);
    TreeDirsApart(t, Fat(dp.fs), tr, loose);
    PutEntry(dp, e);
    DiskStep(dp.fs.g, a, SnapOf(dp), tr.dirs, tr.tabs, dp.sclust);
    assert tr.dirs[dp.sclust := dp.chain] == tr.dirs;
    Attach(t, Fat(dp.fs), tr, k, e, loose);
    tr' := Attached(tr, k, e, loose);
  }

  /** The tree with a new directory `r`, whose entry `e` is at `k`. */
  ghost predicate DirMade(t: FatType, tr: Tree, tr': Tree, k: Slot, r: nat)
    requires k.dir in tr.tabs && k.dir in tr'.tabs
  {
    && r !in tr.dirs && r in tr'.dirs && r in tr'.tabs && tr'.dirs.Keys == tr.dirs.Keys + {r} && NoObjects(tr'.tabs[r])
    && IsOwner(tr', k, r) && k !in tr.own && tr'.own.Keys == tr.own.Keys + {k} && IsSlot(tr', k)
    && (forall d :: d in tr.tabs && d != k.dir ==> d in tr'.tabs && tr'.tabs[d] == tr.tabs[d])
    && (forall i :: 0 <= i < |tr.tabs[k.dir]| && IsShort(tr.tabs[k.dir][i]) ==>
         i != k.idx && i < |tr'.tabs[k.dir]| && tr'.tabs[k.dir][i] == tr.tabs[k.dir][i])
  }

  /** Objects keep their names when other fields of an entry are stored to. */
  lemma SameNames(t: seq<DirEntry>, e: DirEntry, j: nat, key: Key, upper: Upper, i: nat)
    requires j < |t| && IsShort(t[j]) && IsShort(e) && e[..11] == t[j][..11]
    ensures IsHit(t[j := e], key, upper, i) <==> IsHit(t, key, upper, i)
  {
    hide LongRun;
    var u := t[j := e];
    if i < |t| {
      if i == j {
        SameRun(t, u, key, upper, j, 0, SumSfn(e[..11]));
      } else {
        OtherHits(t, u, key, upper, j, j, i);
      }
    }
  }

  lemma StaysEntered(t0: seq<DirEntry>, t: seq<DirEntry>, e: DirEntry, j: nat, key: Key, n: nat, upper: Upper)
    requires j < |t| && IsShort(t[j]) && IsShort(e) && e[..11] == t[j][..11] && |key.fn| == 12
    requires Entered(t, key, n, upper, j) && OnlyNew(t0, t, upper, j)
    ensures Entered(t[j := e], key, n, upper, j) && OnlyNew(t0, t[j := e], upper, j)
  {
    hide IsHit, IsShort;
    var u: seq<DirEntry> := t[j := e];
    assert forall i :: 0 <= i < j ==> u[i] == t[i];
    forall k: Key, i: nat
      ensures IsHit(u, k, upper, i) <==> IsHit(t, k, upper, i)
    {
      SameNames(t, e, j, k, upper, i);
    }
  }

  /** The entry of a new directory is made for its chain. */
  lemma NewEntryFits(g: Geometry, fat: seq<nat>, tr: Tree, e: DirEntry, r: u32, time: u32)
    requires Exclusive(fat, tr, [r]) && |fat| == g.nFatent && IsObject(e) && r in tr.dirs && tr.dirs[r] == [r]
    ensures var f := DirEntryOf(e, r, time);
      FitsChain(g.fsType, tr, f, [r]) && f[..11] == e[..11] && IsDir(f) && IsShort(f)
  {
    hide DirEntryOf, Held, Disjoint;
    assert InRange(fat, [r][0]);
    DirEntryFields(g.fsType, e, r, time);
  }

  /** Nothing but the new directory differs between the trees. */
  lemma DirIsMade(t: FatType, tr: Tree, tr1: Tree, tr2: Tree, tr3: Tree, s: nat, j: nat, r: nat, chain: seq<nat>,
                  u: seq<DirEntry>, e: DirEntry)
    requires Starting(t, tr) && Starting(t, tr2) && s in tr.dirs && s in tr.tabs && tr.dirs.Keys == tr.tabs.Keys
    requires r !in tr.dirs && r in tr1.tabs && tr1 == WithDir(tr, r, [r], tr1.tabs[r]) && NoObjects(tr1.tabs[r])
    requires TableGrows(t, tr.tabs[s], u) && tr2 == WithTable(tr1, s, chain, u)
    requires j < |u| && IsObject(u[j]) && StartCluster(t, u[j]) == 0 && (j < |tr.tabs[s]| ==> !IsShort(tr.tabs[s][j]))
    requires FitsChain(t, tr2, e, [r]) && tr3 == Attached(tr2, Slot(s, j), e, [r]) && IsDir(e)
    ensures DirMade(t, tr, tr3, Slot(s, j), r)
  {
    hide IsObject, IsDir, IsShort, NoObjects, Tidy, Starting;
    AttachOwners(t, tr2, Slot(s, j), e, [r]);
    AttachStarting(t, tr2, Slot(s, j), e, [r]);
    assert tr2.own.Keys == tr.own.Keys;
  }

  /** What the answer of f_mkdir says; `free` clusters were free before, and `left` are after. */
  ghost predicate MkdirAnswer(t: FatType, tr: Tree, tr': Tree, free: nat, left: nat, s: nat, key: Key, name: seq<u16>,
                              upper: Upper, res: FResult)
    requires s in tr.tabs && s in tr'.tabs && s in tr'.dirs && |key.fn| == 12
  {
    match res
    case Ok =>
      && Absent(tr.tabs[s], key, upper)
      && exists j: nat, r: nat ::
           && DirMade(t, tr, tr', Slot(s, j), r)
           && Entered(tr'.tabs[s], key, |name|, upper, j) && OnlyNew(tr.tabs[s], tr'.tabs[s], upper, j)
    case Exist => tr' == tr && !Absent(tr.tabs[s], key, upper)
    case Denied =>
      && Absent(tr.tabs[s], key, upper) && OnlyLonger(tr, tr', s)
      && (free == 0 || (left > 0 && NotEntered(tr.tabs[s], tr'.tabs[s], tr'.dirs[s], left - 1, key, name, upper)))
    case _ => false
  }

  /** Nothing but the length of a table differs. */
  ghost predicate OnlyLonger(tr: Tree, tr': Tree, s: nat)
    requires s in tr.tabs && s in tr'.tabs
  {
    && tr'.dirs.Keys == tr.dirs.Keys && tr'.own.Keys == tr.own.Keys && Lengthened(tr.tabs[s], tr'.tabs[s])
    && forall d :: d in tr.tabs && d != s ==> d in tr'.tabs && tr'.tabs[d] == tr.tabs[d]
  }

  /** The object is registered: make its entry that of the directory. */
  method NameDir(dp: Dir, r: u32, time: u32, ghost tr2: Tree) returns (res: FResult, ghost tr3: Tree)
    requires Stands(dp, tr2) && Claims(dp.fs.g.fsType, tr2, [r]) && Exclusive(Fat(dp.fs), tr2, [r])
    requires InfoApart(dp.fs.g)
    requires dp.At(dp.index) && dp.fs.winsect == dp.sect && r in tr2.dirs && tr2.dirs[r] == [r]
    requires IsObject(dp.Table()[dp.index]) && StartCluster(dp.fs.g.fsType, dp.Table()[dp.index]) == 0
    modifies dp.fs, dp.fs.win
    ensures dp.fs.faults >= old(dp.fs.faults)
    ensures dp.fs.faults == old(dp.fs.faults) ==>
      && res == Ok && Good(dp.fs, tr3)
      && FitsChain(dp.fs.g.fsType, tr2, DirEntryOf(old(dp.Table())[dp.index], r, time), [r])
      && tr3 == Attached(tr2, Slot(dp.sclust, dp.index), DirEntryOf(old(dp.Table())[dp.index], r, time), [r])
    ensures res == Ok || (res == DiskErr && dp.fs.faults > old(dp.fs.faults))
  {
    hide FatOf, IsTable, OnVolume, HasReserved, IsChain, CountKept, Entries, PlaceOf, FreeBelow, OnDisk, Exclusive,
      Claims, FitsChain, IsObject, DirEntryOf, Attached;
    var e := EntryHere(dp);
    NewEntryFits(dp.fs.g, Fat(dp.fs), tr2, e, r, time);
    tr3 := GiveChain(dp, DirEntryOf(e, r, time), tr2, [r]);
    res := Finish(dp.fs, tr3);
  }

  /** A directory that could not be registered is given up. */
  method GiveUp(fs: Fatfs, r: u32, ghost tr2: Tree) returns (ghost tr3: Tree)
    requires Nameless(fs, tr2, r)
    modifies fs, fs.win
    ensures fs.faults >= old(fs.faults)
    ensures fs.faults == old(fs.faults) ==>
      Good(fs, tr3) && tr3 == WithoutDir(tr2, r) && FreeCount(Fat(fs)) == FreeCount(old(Fat(fs))) + 1
  {
    hide FatOf, HasReserved, OnDisk, Claims, Exclusive, NoObjects;
    DropDir(fs.g.fsType, Fat(fs), tr2, [r], r);
    DiskLess(fs.g, Fat(fs), fs.View(), tr2.dirs, tr2.tabs, r);
    tr3 := WithoutDir(tr2, r);
    var res := FreeLoose(fs, r, tr3, [r]);
  }

  /** The trees while a directory is being made: with its table, with its object registered, and at the end. */
  ghost predicate DirEntered(t: FatType, tr1: Tree, tr2: Tree, tr3: Tree, s: nat, j: nat, r: u32, time: u32) {
    && s in tr1.dirs && s in tr1.tabs && s in tr2.tabs && s in tr2.dirs
    && tr2 == WithTable(tr1, s, tr2.dirs[s], tr2.tabs[s]) && TableGrows(t, tr1.tabs[s], tr2.tabs[s])
    && j < |tr2.tabs[s]| && IsObject(tr2.tabs[s][j]) && StartCluster(t, tr2.tabs[s][j]) == 0
    && (j < |tr1.tabs[s]| ==> !IsShort(tr1.tabs[s][j]))
    && FitsChain(t, tr2, DirEntryOf(tr2.tabs[s][j], r, time), [r])
    && tr3 == Attached(tr2, Slot(s, j), DirEntryOf(tr2.tabs[s][j], r, time), [r])
  }

  ghost predicate DirGivenUp(tr1: Tree, tr2: Tree, tr3: Tree, s: nat, r: nat) {
    && s in tr1.dirs && s in tr1.tabs && s in tr2.tabs && s in tr2.dirs
    && tr2 == WithTable(tr1, s, tr2.dirs[s], tr2.tabs[s])
    && r in tr2.tabs && NoObjects(tr2.tabs[r]) && tr3 == WithoutDir(tr2, r)
  }

  /** Register the new directory, and name it or give it up. */
  method EnterDir(dp: Dir, upper: Upper, r: u32, time: u32, ghost name: seq<u16>, ghost tr1: Tree)
    returns (res: FResult, ghost tr2: Tree, ghost tr3: Tree)
    requires Stands(dp, tr1) && Nameless(dp.fs, tr1, r) && dp.sclust != r
    requires ProperName(dp.fn, dp.lfn, name) && dp.withLfn && Absent(dp.Table(), KeyOf(dp), upper)
    modifies dp.fs, dp.fs.win, dp`index, dp`clust, dp`sect, dp`dir, dp`chain, dp`lfnIdx, dp`fn, dp`withLfn
    ensures dp.fs.faults >= old(dp.fs.faults)
    ensures dp.fs.faults == old(dp.fs.faults) ==>
      && Good(dp.fs, tr3) && (res == Ok || res == Denied)
      && (forall k, d :: IsOwner(tr1, k, d) ==> IsOwner(tr2, k, d)) && Claims(dp.fs.g.fsType, tr2, [r])
    ensures dp.fs.faults == old(dp.fs.faults) && res == Ok ==>
      && DirEntered(dp.fs.g.fsType, tr1, tr2, tr3, dp.sclust, dp.index, r, time)
      && Entered(tr2.tabs[dp.sclust], old(KeyOf(dp)), |name|, upper, dp.index)
      && OnlyNew(tr1.tabs[dp.sclust], tr2.tabs[dp.sclust], upper, dp.index)
    ensures dp.fs.faults == old(dp.fs.faults) && res == Denied ==>
      && DirGivenUp(tr1, tr2, tr3, dp.sclust, r) && FreeCount(Fat(dp.fs)) > 0
      && NotEntered(tr1.tabs[dp.sclust], tr2.tabs[dp.sclust], tr2.dirs[dp.sclust], FreeCount(Fat(dp.fs)) - 1,
                    old(KeyOf(dp)), name, upper)
  {
    hide FatOf, IsTable, OnVolume, HasReserved, IsChain, CountKept, Entries, PlaceOf, FreeBelow, OnDisk, Exclusive,
      Starting, GoodTables, FitsChain, IsObject, IsShort,
      DirEntryOf, Attached, NoObjects, IsOwner, Absent, Entered, NotEntered, OnlyNew, TableGrows, HoldsName, Prepared,
      HasOwner;
    tr3 := tr1;
    res, tr2 := RegisterIn(dp, upper, name, tr1, [r]);
    if res != Ok && res != Denied { return; }
    if res == Ok {
      res, tr3 := NameDir(dp, r, time, tr2);
    } else {
      tr3 := GiveUp(dp.fs, r, tr2);
    }
  }

  /** The new directory is below the root. */
  lemma MadeConnected(t: FatType, tr: Tree, tr1: Tree, tr2: Tree, tr3: Tree, k: Slot, r: nat, e: DirEntry)
    requires Claims(t, tr, [r]) && Connected(tr) && r !in tr.dirs && r !in tr.tabs && k.dir in tr.dirs
    requires r in tr1.tabs && tr1 == WithDir(tr, r, [r], tr1.tabs[r])
    requires forall l, d :: IsOwner(tr1, l, d) ==> IsOwner(tr2, l, d)
    requires Claims(t, tr2, [r]) && tr2.dirs.Keys == tr1.dirs.Keys
    requires IsSlot(tr2, k) && IsObject(Ent(tr2, k)) && StartCluster(t, Ent(tr2, k)) == 0
    requires FitsChain(t, tr2, e, [r]) && tr3 == Attached(tr2, k, e, [r]) && IsDir(e)
    ensures Connected(tr3)
  {
    hide IsOwner, Within, IsObject, IsDir, Starting, Rooted, GoodTables;
    WithDirOwners(t, tr, r, [r], tr1.tabs[r]);
    AttachOwners(t, tr2, k, e, [r]);
    ConnectedMore(tr, tr3, r, k);
  }

  lemma GivenUpConnected(t: FatType, tr: Tree, tr1: Tree, tr2: Tree, r: nat)
    requires Claims(t, tr, [r]) && Connected(tr) && r !in tr.dirs && r !in tr.tabs
    requires r in tr1.tabs && tr1 == WithDir(tr, r, [r], tr1.tabs[r])
    requires forall l, d :: IsOwner(tr1, l, d) ==> IsOwner(tr2, l, d)
    requires Claims(t, tr2, [r]) && tr2.dirs.Keys == tr1.dirs.Keys && r in tr2.tabs && NoObjects(tr2.tabs[r])
    ensures Connected(WithoutDir(tr2, r))
  {
    hide IsOwner, Within, NoObjects, Starting, Rooted, GoodTables;
    WithDirOwners(t, tr, r, [r], tr1.tabs[r]);
    WithoutDirOwners(t, tr2, r);
    OwnersInTree(tr, r);
    ConnectedKept(tr, WithoutDir(tr2, r), -1);
  }

  lemma OwnersInTree(tr: Tree, r: nat)
    requires r !in tr.dirs
    ensures forall l, d :: IsOwner(tr, l, d) ==> d != r
  {
  }

  /** The trees when a directory has been made. */
  lemma MkdirOk(t: FatType, tr: Tree, tr1: Tree, tr2: Tree, tr3: Tree, s: nat, j: nat, r: u32, key: Key, n: nat,
                upper: Upper, time: u32)
    requires Claims(t, tr, []) && Claims(t, tr, [r]) && r !in tr.dirs && s in tr.dirs && |key.fn| == 12
    requires r in tr1.tabs && tr1 == WithDir(tr, r, [r], tr1.tabs[r]) && NoObjects(tr1.tabs[r])
    requires (forall k, d :: IsOwner(tr1, k, d) ==> IsOwner(tr2, k, d)) && Claims(t, tr2, [r])
    requires DirEntered(t, tr1, tr2, tr3, s, j, r, time)
    requires Entered(tr2.tabs[s], key, n, upper, j) && OnlyNew(tr1.tabs[s], tr2.tabs[s], upper, j)
    ensures Connected(tr) ==> Connected(tr3)
    ensures s in tr.tabs && s in tr3.tabs && s in tr3.dirs && DirMade(t, tr, tr3, Slot(s, j), r)
    ensures Entered(tr3.tabs[s], key, n, upper, j) && OnlyNew(tr.tabs[s], tr3.tabs[s], upper, j)
  {
    hide Starting, Rooted, GoodTables, IsObject, IsShort, IsDir, NoObjects, IsOwner, Entered, OnlyNew, FitsChain,
      TableGrows, DirMade, Connected, DirEntryOf;
    DirsHaveTables(t, tr, []);
    var u, k := tr2.tabs[s], Slot(s, j);
    var e := DirEntryOf(u[j], r, time);
    DirEntryKeeps(t, tr2, u[j], r, time);
    DirIsMade(t, tr, tr1, tr2, tr3, s, j, r, tr2.dirs[s], u, e);
    StaysEntered(tr.tabs[s], u, e, j, key, n, upper);
    if Connected(tr) {
      MadeConnected(t, tr, tr1, tr2, tr3, k, r, e);
    }
  }

  lemma DirEntryKeeps(t: FatType, tr2: Tree, e: DirEntry, r: u32, time: u32)
    requires IsObject(e) && FitsChain(t, tr2, DirEntryOf(e, r, time), [r])
    ensures var f := DirEntryOf(e, r, time); f[..11] == e[..11] && IsDir(f) && IsShort(f) && IsShort(e)
  {
    hide DirEntryOf;
    DirEntryFields(Fat32, e, r, time);
  }

  /** The trees when a directory could not be registered. */
  lemma MkdirDenied(t: FatType, tr: Tree, tr1: Tree, tr2: Tree, tr3: Tree, s: nat, r: nat, left: nat, key: Key,
                    name: seq<u16>, upper: Upper)
    requires Claims(t, tr, []) && Claims(t, tr, [r]) && r !in tr.dirs && s in tr.dirs && |key.fn| == 12 && left > 0
    requires r in tr1.tabs && tr1 == WithDir(tr, r, [r], tr1.tabs[r])
    requires (forall k, d :: IsOwner(tr1, k, d) ==> IsOwner(tr2, k, d)) && Claims(t, tr2, [r])
    requires DirGivenUp(tr1, tr2, tr3, s, r)
    requires NotEntered(tr1.tabs[s], tr2.tabs[s], tr2.dirs[s], left - 1, key, name, upper)
    ensures Connected(tr) ==> Connected(tr3)
    ensures s in tr.tabs && s in tr3.tabs && s in tr3.dirs && OnlyLonger(tr, tr3, s)
    ensures NotEntered(tr.tabs[s], tr3.tabs[s], tr3.dirs[s], left - 1, key, name, upper)
  {
    hide Starting, Rooted, GoodTables, NoObjects, IsOwner, Connected, Lengthened;
    DirsHaveTables(t, tr, []);
    if Connected(tr) {
      GivenUpConnected(t, tr, tr1, tr2, r);
    }
  }

  /** Make a directory with a name in directory `s`. */
  method Mkdir(fs: Fatfs, s: u32, sn: seq<byte>, lfn: LfnBuf, upper: Upper, time: u32, ghost name: seq<u16>,
               ghost tr: Tree)
    returns (res: FResult, ghost tr': Tree)
    requires Good(fs, tr) && s in tr.dirs && ProperName(sn, lfn, name)
    modifies fs, fs.win
    ensures fs.faults >= old(fs.faults)
    ensures fs.faults == old(fs.faults) ==>
      && Good(fs, tr') && (Connected(tr) ==> Connected(tr')) && s in tr.tabs && s in tr'.tabs && s in tr'.dirs
      && MkdirAnswer(fs.g.fsType, tr, tr', FreeCount(old(Fat(fs))), FreeCount(Fat(fs)),
                     s, Key(sn, lfn, true), name, upper, res)
  {
    hide FatOf, IsTable, OnVolume, HasReserved, IsChain, CountKept, Entries, PlaceOf, FreeBelow, OnDisk, Claims,
      Exclusive,
      IsObject, Connected, FirstHit, Absent, SameSnap, HoldsName, NoObjects, IsOwner;
    tr' := tr;
    DirsHaveTables(fs.g.fsType, tr, []);
    var dp;
    res, dp := FindObject(fs, s, sn, lfn, upper, tr);
    if res == Ok { return Exist, tr'; }
    if res != NoFile { return; }
    res, tr' := MkdirNew(dp, upper, time, name, tr);
  }

  /** Make the directory, whose name no object has. */
  method MkdirNew(dp: Dir, upper: Upper, time: u32, ghost name: seq<u16>, ghost tr: Tree)
    returns (res: FResult, ghost tr': Tree)
    requires Good(dp.fs, tr) && Stands(dp, tr) && Absent(dp.Table(), KeyOf(dp), upper)
    requires ProperName(dp.fn, dp.lfn, name) && dp.withLfn
    modifies dp.fs, dp.fs.win, dp`index, dp`clust, dp`sect, dp`dir, dp`chain, dp`lfnIdx, dp`fn, dp`withLfn
    ensures dp.fs.faults >= old(dp.fs.faults)
    ensures dp.fs.faults == old(dp.fs.faults) ==>
      && Good(dp.fs, tr') && (Connected(tr) ==> Connected(tr')) && dp.sclust in tr.tabs && dp.sclust in tr'.tabs
      && dp.sclust in tr'.dirs
      && MkdirAnswer(dp.fs.g.fsType, tr, tr', FreeCount(old(Fat(dp.fs))), FreeCount(Fat(dp.fs)),
                     dp.sclust, old(KeyOf(dp)), name, upper, res)
  {
    hide FatOf, IsTable, OnVolume, HasReserved, IsChain, CountKept, Entries, PlaceOf, FreeBelow, OnDisk, Claims,
      Exclusive,
      IsObject, IsShort, Connected, Absent, HoldsName, NoObjects, IsOwner, Entered, OnlyNew, NotEntered, DirEntered,
      DirGivenUp, DirMade, Lengthened;
    tr' := tr;
    ghost var t, s, tab := dp.fs.g.fsType, dp.sclust, dp.Table();
    LengthenedSelf(tab);
    DirsHaveTables(t, tr, []);
    var r;
    res, r := TakeCluster(dp.fs, tr);
    if res != Ok {
      var freed := RemoveChain(dp.fs, r);
      return;
    }
    var pcl := dp.sclust;
    if dp.fs.g.fsType == Fat32 && pcl == dp.fs.g.dirbase {
      pcl := 0;
    }
    ghost var tr1;
    res, tr1 := MakeTable(dp.fs, r, pcl, time, tr);
    if res != Ok {
      var freed := RemoveChain(dp.fs, r);
      return;
    }
    StandsAgain(dp, tr1);
    ghost var tr2;
    res, tr2, tr' := EnterDir(dp, upper, r, time, name, tr1);
    if dp.fs.faults == old(dp.fs.faults) {
      if res == Ok {
        MkdirOk(t, tr, tr1, tr2, tr', s, dp.index, r, old(KeyOf(dp)), |name|, upper, time);
      } else {
        MkdirDenied(t, tr, tr1, tr2, tr', s, r, FreeCount(Fat(dp.fs)), old(KeyOf(dp)), name, upper);
      }
    }
  }
}
