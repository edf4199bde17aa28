/**
  Removing, making and renaming objects in the tree of directories.
*/
module TreeOps {
  import opened Bytes
  import opened Volume
  import opened FatCodec
  import opened Chains
  import opened Allocator
  import opened FileLayout
  import opened Lfn
  import opened Mount
  import opened FileState
  import opened Sync
  import opened DirTable
  import opened Directories
  import opened DirNames
  import opened DirSearch
  import opened DirChange
  import opened DirTheory
  import opened DirReading
  import opened Tree
  import opened TreePaths
  import opened TreeDisk

  /** The volume is a tree of directories below the root, and each cluster has its one owner. */
  ghost predicate Good(fs: Fatfs, tr: Tree)
    reads fs, fs.win
  {
    && fs.Valid() && !HasReserved(Fat(fs)) && InfoApart(fs.g)
    && OnDisk(fs.g, Fat(fs), fs.View(), tr.dirs, tr.tabs)
    && Claims(fs.g.fsType, tr, []) && Exclusive(Fat(fs), tr, [])
  }

  /** The name of an object: a proper short name, which does not begin with a dot, and the long one. */
  ghost predicate ProperName(sn: seq<byte>, lfn: LfnBuf, name: seq<u16>) {
    Prepared(sn) && sn[0] != DOT && HoldsName(lfn, name)
  }

  // ---------- Tables and trees ----------

  /** What is left of a table when an object and its long entries have been removed. */
  lemma DeletedWithout(t: seq<DirEntry>, u: seq<DirEntry>, from: nat, j: nat)
    requires Tidy(t) && from <= j < |t| && IsShort(t[j]) && Deleted(t, u, from, j)
    requires forall k :: from <= k < j ==> !IsShort(t[k])
    ensures Without(t, u, j)
  {
    UsedBelow(t, j);
  }

  /** A registered object is a new one without clusters. */
  lemma RegisteredGrows(ft: FatType, t: seq<DirEntry>, t1: seq<DirEntry>, u: seq<DirEntry>, j: nat, fn: seq<byte>,
                        name: seq<u16>)
    requires Tidy(t) && Lengthened(t, t1) && |fn| == 12 && FirstRoom(t1, PartsFor(fn, |name|) + 1, j)
    requires Registered(t1, u, j, PartsFor(fn, |name|), fn, name) && fn[0] != 0 && fn[0] != DDEM && fn[0] != DOT
    ensures TableGrows(ft, t, u) && j < |u| && IsObject(u[j]) && StartCluster(ft, u[j]) == 0
    ensures j < |t| ==> !IsShort(t[j])
  {
    hide IsPart, SumSfn, LongRun;
    var parts := PartsFor(fn, |name|);
    RegisterTidy(t, t1, u, j, fn, name);
    assert u[j][0] == u[j][..11][0] == fn[..11][0];
    forall i | j - parts <= i < j
      ensures !IsShort(u[i])
    {
      assert IsPart(u[i], name, j - i, SumSfn(fn[..11]));
      PartIsLong(u[i], name, j - i, SumSfn(fn[..11]));
    }
    assert RoomAt(t1, parts + 1, j);
  }

  lemma LengthenedGrows(ft: FatType, t: seq<DirEntry>, u: seq<DirEntry>)
    requires Tidy(t) && Lengthened(t, u)
    ensures TableGrows(ft, t, u)
  {
    TidyLonger(t, u);
  }

  /** The objects of a table that shows none from its third entry on. */
  lemma ShowsNone(t: seq<DirEntry>, n: nat)
    requires Tidy(t) && DotsFirst(t, true) && NoneShown(t, 2, n, false)
    requires t[n][0] == 0 || (!Shown(t[n], false) && n + 1 == |t|)
    ensures NoObjects(t)
  {
    forall i | 0 <= i < |t|
      ensures !IsObject(t[i])
    {
      if i < 2 {
        assert IsDot(t[i]);
      } else if i <= n {
        ObjectIsShown(t[i]);
      }
    }
  }

  lemma ObjectIsShown(e: DirEntry)
    ensures IsObject(e) ==> Shown(e, false)
  {
  }

  // ---------- Looking around ----------

  /** Moving the window through the volume leaves the tree as it is. */
  lemma StillGood(g: Geometry, a: Snap, b: Snap, dirs: map<nat, seq<nat>>, tabs: map<nat, seq<DirEntry>>)
    requires SameSnap(g, a, b) && OnDisk(g, a.fat, a.view, dirs, tabs)
    ensures OnDisk(g, b.fat, b.view, dirs, tabs)
  {
    hide IsChain, IsTable, Entries;
    DiskFat(g, a.fat, b.fat, a.view, b.view, dirs, tabs);
  }

  /** A directory object for directory `s`. */
  method OpenDir(fs: Fatfs, s: u32, sn: seq<byte>, lfn: LfnBuf, ghost tr: Tree) returns (dp: Dir)
    requires fs.Valid() && !HasReserved(Fat(fs)) && OnDisk(fs.g, Fat(fs), fs.View(), tr.dirs, tr.tabs)
    requires s in tr.dirs && |sn| == 12
    ensures fresh(dp) && dp.Valid() && dp.fs == fs && dp.sclust == s && dp.fn == sn && dp.lfn == lfn && dp.withLfn
    ensures dp.chain == tr.dirs[s] && dp.Table() == tr.tabs[s]
    ensures SnapOf(dp) == Snap(tr.dirs[s], Fat(fs), fs.View(), fs.freeClust)
  {
    dp := new Dir(fs, s, sn, lfn, tr.dirs[s]);
  }

  /** The entry at the position, whose sector is in the window. */
  method EntryHere(dp: Dir) returns (e: DirEntry)
    requires dp.Valid() && dp.At(dp.index) && dp.fs.winsect == dp.sect
    ensures e == dp.Table()[dp.index]
  {
    hide FatOf, IsTable, OnVolume, HasReserved, IsChain, StartsAt, TableSector;
    WriteFacts(dp.fs.g, dp.chain, dp.index);
    assert dp.dir + 32 <= SS;
    var w := dp.fs.win[dp.dir..dp.dir + 32];
    assert |w| == 32;
    e := w;
  }

  /** Whether a subdirectory has no objects: `Ok` if it has none, `Denied` if it shows one. */
  method CheckEmpty(fs: Fatfs, c: u32, ghost tr: Tree) returns (res: FResult)
    requires fs.Valid() && !HasReserved(Fat(fs)) && OnDisk(fs.g, Fat(fs), fs.View(), tr.dirs, tr.tabs)
    requires c in tr.dirs && c != 0 && Tidy(tr.tabs[c]) && DotsFirst(tr.tabs[c], true)
    modifies fs, fs.win
    ensures fs.Valid() && fs.Steady()
    ensures res == Ok || res == Denied ==>
      && Fat(fs) == old(Fat(fs)) && AgreeOutsideFat(fs.g, fs.View(), old(fs.View()))
    ensures res == Ok ==> NoObjects(tr.tabs[c])
    ensures res == Denied ==> ShowsObject(tr.tabs[c])
    ensures res == Ok || res == Denied || (res == DiskErr && fs.faults > old(fs.faults))
  {
    hide FatOf, IsTable, OnVolume, HasReserved, IsChain, StartsAt, FreeBelow, Entries, PlaceOf, Shown, OnDisk,
      LongNamed, CountKept;
    var sdj := OpenDir(fs, c, ZeroEntry()[..12], seq(256, _ => 0), tr);
    ghost var t, s0 := sdj.Table(), SnapOf(sdj);
    ReachBelow(fs.g, sdj.chain, 2);
    res := sdj.Sdi(2);
    if res == IntErr { assert false; }
    if res != Ok { return; }
    SameTable(fs.g, fs.View(), s0.view, sdj.chain);
    PositionFacts(fs.g, sdj.chain, 2);
    var buf := new u16[256];
    res := DirRead(sdj, buf, false, 0, []);
    if res == Ok { return Denied; }
    if res == NoFile {
      ShowsNone(t, sdj.index);
      return Ok;
    }
  }

  // ---------- f_unlink ----------

  /** What the answer of f_unlink says. */
  ghost predicate UnlinkAnswer(t: FatType, tr: Tree, tr': Tree, s: nat, key: Key, upper: Upper, res: FResult)
    requires s in tr.tabs
  {
    match res
    case Ok =>
      exists j: nat, u ::
        && FirstHit(tr.tabs[s], key, upper, j) && Without(tr.tabs[s], u, j)
        && tr' == Unlinked(t, tr, Slot(s, j), u)
    case NoFile => tr' == tr && Absent(tr.tabs[s], key, upper)
    case Denied => tr' == tr && exists j: nat :: FirstHit(tr.tabs[s], key, upper, j) && Protected(t, tr, tr.tabs[s][j])
    case _ => false
  }

  /** The table of a subdirectory shows something behind its dot entries. */
  ghost predicate ShowsObject(t: seq<DirEntry>) {
    exists i :: 2 <= i < |t| && Shown(t[i], false)
  }

  /** A read-only object, or a directory that is not empty. */
  ghost predicate Protected(t: FatType, tr: Tree, e: DirEntry) {
    || e[11] % 2 == 1
    || (IsDir(e) && StartCluster(t, e) in tr.tabs && ShowsObject(tr.tabs[StartCluster(t, e)]))
  }

  /** What is found under a proper name is an object. */
  lemma HitIsObject(t: seq<DirEntry>, key: Key, upper: Upper, j: nat, sub: bool)
    requires FirstHit(t, key, upper, j) && DotsFirst(t, sub) && |key.fn| == 12 && key.fn[0] != DOT
    ensures j < |t| && IsObject(t[j])
  {
    var e := t[j];
    assert ShortMatch(e, key) ==> e[..11][0] == key.fn[..11][0];
    assert j == 1 && sub ==> IsDot(t[0]);
  }

  /** Fewer directories. */
  lemma DiskLess(g: Geometry, fat: seq<nat>, v: seq<Sector>, dirs: map<nat, seq<nat>>, tabs: map<nat, seq<DirEntry>>,
                 c: nat)
    requires OnDisk(g, fat, v, dirs, tabs)
    ensures OnDisk(g, fat, v, dirs - {c}, tabs - {c})
  {
    hide IsChain, IsTable, Entries;
    assert (dirs - {c}).Keys == (tabs - {c}).Keys;
  }

  /** FSINFO is in no table. */
  lemma InfoElsewhere(g: Geometry, fat: seq<nat>, v: seq<Sector>, v': seq<Sector>, dirs: map<nat, seq<nat>>,
                      tabs: map<nat, seq<DirEntry>>)
    requires OnDisk(g, fat, v, dirs, tabs) && OnlyInfo(g, v, v') && InfoApart(g)
    ensures OnDisk(g, fat, v', dirs, tabs)
  {
    hide IsChain, IsTable, InTable, Entries;
    forall s, x | s in dirs && 0 <= x < |v| && IsTable(g, dirs[s]) && InTable(g, dirs[s], x)
      ensures v'[x] == v[x]
    {
      TableAbove(g, dirs[s], x);
    }
    DiskOther(g, fat, v, v', dirs, tabs);
  }

  /** Write everything back. */
  method Finish(fs: Fatfs, ghost tr: Tree) returns (res: FResult)
    requires Good(fs, tr)
    modifies fs, fs.win
    ensures fs.faults >= old(fs.faults)
    ensures fs.faults == old(fs.faults) ==>
      res == Ok && Good(fs, tr) && fs.View() == fs.disk && Fat(fs) == old(Fat(fs))
    ensures res == Ok || (res == DiskErr && fs.faults > old(fs.faults))
  {
    hide FatOf, HasReserved, OnDisk, Claims, Exclusive, OnlyInfo;
    ghost var v := fs.View();
    res := SyncFs(fs);
    if fs.faults == old(fs.faults) {
      InfoElsewhere(fs.g, Fat(fs), v, fs.View(), tr.dirs, tr.tabs);
    }
  }

  /** Free the chain that no entry owns, if there is one, and write everything back. */
  method FreeAndFinish(fs: Fatfs, c: u32, ghost tr: Tree, ghost loose: seq<nat>) returns (res: FResult)
    requires fs.Valid() && !HasReserved(Fat(fs)) && InfoApart(fs.g)
    requires OnDisk(fs.g, Fat(fs), fs.View(), tr.dirs, tr.tabs)
    requires Claims(fs.g.fsType, tr, loose) && Exclusive(Fat(fs), tr, loose)
    requires c == (if loose == [] then 0 else loose[0])
    requires (loose != [] ==> c != 0 && forall d :: d in tr.dirs ==> tr.dirs[d] != loose)
    modifies fs, fs.win
    ensures fs.faults >= old(fs.faults)
    ensures fs.faults == old(fs.faults) ==>
      && res == Ok && Good(fs, tr) && FreeCount(Fat(fs)) == FreeCount(old(Fat(fs))) + |loose|
    ensures res == Ok || (res == DiskErr && fs.faults > old(fs.faults))
  {
    hide FatOf, HasReserved, OnDisk, Claims, FreeBelow, Disjoint, IsChain, Held, CutTo, CountKept;
    res := Ok;
    if c != 0 {
      ghost var fat, v := Fat(fs), fs.View();
      res := FreeLoose(fs, c, tr, loose);
      if res != Ok { return; }
    }
    res := Finish(fs, tr);
  }

  /** Free the chain that no entry owns. */
  method FreeLoose(fs: Fatfs, c: u32, ghost tr: Tree, ghost loose: seq<nat>) returns (res: FResult)
    requires fs.Valid() && !HasReserved(Fat(fs)) && InfoApart(fs.g)
    requires OnDisk(fs.g, Fat(fs), fs.View(), tr.dirs, tr.tabs)
    requires Claims(fs.g.fsType, tr, loose) && Exclusive(Fat(fs), tr, loose)
    requires loose != [] && c == loose[0] && forall d :: d in tr.dirs ==> tr.dirs[d] != loose
    modifies fs, fs.win
    ensures fs.Valid() && fs.Steady()
    ensures res == Ok ==> Good(fs, tr) && FreeCount(Fat(fs)) == FreeCount(old(Fat(fs))) + |loose|
    ensures res == Ok || (res == DiskErr && fs.faults > old(fs.faults))
  {
    hide FatOf, HasReserved, OnDisk, Claims, Exclusive, FreeBelow, IsChain, CutTo, CountKept, Balanced;
    ghost var t, fat, v := fs.g.fsType, Fat(fs), fs.View();
    LooseChain(fat, tr, loose);
    res := CutAll(fs, c, loose);
    if res != Ok { return; }
    Give(t, fat, Fat(fs), tr, loose);
    CutReserved(fat, Fat(fs), loose, 0);
    CutBalance(fat, Fat(fs), loose, 0);
    BalanceOf(fat, loose, Fat(fs));
    DirsAreChains(t, Fat(fs), tr);
    DiskFat(fs.g, fat, Fat(fs), v, fs.View(), tr.dirs, tr.tabs);
  }

  lemma LooseChain(fat: seq<nat>, tr: Tree, loose: seq<nat>)
    requires Exclusive(fat, tr, loose)
    ensures IsChain(fat, loose)
  {
  }

  lemma BalanceOf(a: seq<nat>, s: seq<nat>, b: seq<nat>)
    requires Balanced(a, s, b, s[..0])
    ensures FreeCount(b) == FreeCount(a) + |s|
  {
  }

  /** The chains of all directories are complete. */
  lemma DirsAreChains(t: FatType, fat: seq<nat>, tr: Tree)
    requires Claims(t, tr, []) && Exclusive(fat, tr, [])
    ensures forall d :: d in tr.dirs ==> IsChain(fat, tr.dirs[d])
  {
    hide Starting, GoodTables, IsChain, Held, Disjoint, HasOwner;
    forall d | d in tr.dirs && d != 0
      ensures IsChain(fat, tr.dirs[d])
    {
      DirsAllocated(t, fat, tr, d);
    }
  }

  /** The object that is found, and nothing that belongs to another one. */
  lemma TopBelow(t: seq<DirEntry>, j: nat)
    requires j < |t| && LongTop(t, j) != 0xFFFF
    ensures forall k :: LongTop(t, j) <= k < j ==> !IsShort(t[k])
  {
    forall k | LongTop(t, j) <= k < j
      ensures !IsShort(t[k])
    {
      TopIsLong(t, j, k);
    }
  }

  /** The first entry of the object. */
  function FirstOf(dp: Dir): nat
    reads dp
  {
    if dp.lfnIdx == 0xFFFF then dp.index else dp.lfnIdx
  }

  /** Remove the entries of the object at the position. */
  method RemoveEntries(dp: Dir, ghost tr: Tree) returns (res: FResult)
    requires dp.Valid() && dp.index < |dp.Table()| && OnDisk(dp.fs.g, Fat(dp.fs), dp.fs.View(), tr.dirs, tr.tabs)
    requires dp.sclust in tr.dirs && dp.chain == tr.dirs[dp.sclust] && dp.Table() == tr.tabs[dp.sclust]
    requires DirsApart(tr.dirs)
    requires dp.lfnIdx == 0xFFFF || dp.lfnIdx <= dp.index
    modifies dp.fs, dp.fs.win, dp`index, dp`clust, dp`sect, dp`dir, dp`chain
    ensures dp.fs.Valid() && dp.fs.Steady()
    ensures res == Ok ==>
      && dp.Valid() && dp.index == old(dp.index) && Fat(dp.fs) == old(Fat(dp.fs))
      && Deleted(tr.tabs[dp.sclust], dp.Table(), FirstOf(dp), dp.index)
      && OnDisk(dp.fs.g, Fat(dp.fs), dp.fs.View(), tr.dirs, tr.tabs[dp.sclust := dp.Table()])
    ensures res == Ok || (res == DiskErr && dp.fs.faults > old(dp.fs.faults))
  {
    hide FatOf, IsTable, OnVolume, HasReserved, IsChain, CountKept, Entries, PlaceOf, FreeBelow, Extended, OnDisk,
      DirsApart, Deleted, Without;
    ghost var a, t := SnapOf(dp), dp.Table();
    res := DirRemove(dp);
    if res != Ok { return; }
    DiskStep(dp.fs.g, a, SnapOf(dp), tr.dirs, tr.tabs, dp.sclust);
    assert tr.dirs[dp.sclust := dp.chain] == tr.dirs;
  }

  /** Remove an object that has been found: a file, or a directory without objects. */
  method RemoveFound(dp: Dir, c: u32, ghost tr: Tree) returns (res: FResult, ghost tr': Tree)
    requires Good(dp.fs, tr) && dp.Valid() && dp.At(dp.index)
    requires dp.sclust in tr.dirs && dp.chain == tr.dirs[dp.sclust] && dp.Table() == tr.tabs[dp.sclust]
    requires IsObject(dp.Table()[dp.index]) && c == StartCluster(dp.fs.g.fsType, dp.Table()[dp.index])
    requires IsDir(dp.Table()[dp.index]) && c != 0 && c in tr.tabs ==> NoObjects(tr.tabs[c])
    requires dp.lfnIdx == LongTop(dp.Table(), dp.index)
    modifies dp.fs, dp.fs.win, dp`index, dp`clust, dp`sect, dp`dir, dp`chain
    ensures dp.fs.faults >= old(dp.fs.faults)
    ensures dp.fs.faults == old(dp.fs.faults) ==>
      && res == Ok && Good(dp.fs, tr') && (Connected(tr) ==> Connected(tr'))
      && exists u ::
           && Without(tr.tabs[dp.sclust], u, old(dp.index))
           && tr' == Unlinked(dp.fs.g.fsType, tr, Slot(dp.sclust, old(dp.index)), u)
    ensures res == Ok || (res == DiskErr && dp.fs.faults > old(dp.fs.faults))
  {
    hide FatOf, IsTable, OnVolume, HasReserved, IsChain, CountKept, Entries, PlaceOf, FreeBelow, OnDisk, DirsApart,
      Starting, Rooted, Exclusive, Without, NoObjects, IsObject, Connected, DotsFirst, LongTop, Tidy;
    ghost var t, k := dp.fs.g.fsType, Slot(dp.sclust, dp.index);
    tr' := tr;
    TreeDirsApart(t, Fat(dp.fs), tr, []);
    DirsHaveTables(t, tr, []);
    OwnsChain(t, tr, k);
    ObjectIsShort(Ent(tr, k));
    if LongTop(dp.Table(), dp.index) != 0xFFFF {
      TopBelow(dp.Table(), dp.index);
    }
    res := RemoveEntries(dp, tr);
    if res != Ok { return; }
    ghost var u, loose := dp.Table(), ChainOf(tr, k);
    DeletedWithout(tr.tabs[dp.sclust], u, FirstOf(dp), dp.index);
    tr' := Unlinked(t, tr, k, u);
    UnlinkClaims(t, Fat(dp.fs), tr, k, u);
    if Connected(tr) {
      UnlinkConnected(t, Fat(dp.fs), tr, k, u);
    }
    DiskLess(dp.fs.g, Fat(dp.fs), dp.fs.View(), tr.dirs, tr.tabs[k.dir := u], c);
    res := FreeAndFinish(dp.fs, c, tr', loose);
  }

  lemma DirsHaveTables(t: FatType, tr: Tree, loose: seq<nat>)
    requires Claims(t, tr, loose)
    ensures tr.dirs.Keys == tr.tabs.Keys && forall d :: d in tr.dirs <==> d in tr.tabs
  {
    hide Starting, GoodTables, HasOwner;
  }

  lemma ObjectIsShort(e: DirEntry)
    ensures IsObject(e) ==> IsShort(e)
  {
  }

  lemma TableIsTidy(t: FatType, tr: Tree, loose: seq<nat>, s: nat)
    requires Claims(t, tr, loose) && s in tr.tabs
    ensures Tidy(tr.tabs[s]) && DotsFirst(tr.tabs[s], s != 0)
  {
    hide Starting, Rooted, Tidy, DotsFirst;
  }

  /** Look for the object with a name in directory `s`. */
  method FindObject(fs: Fatfs, s: u32, sn: seq<byte>, lfn: LfnBuf, upper: Upper, ghost tr: Tree)
    returns (res: FResult, dp: Dir)
    requires Good(fs, tr) && s in tr.dirs && |sn| == 12 && sn[0] != DOT
    modifies fs, fs.win
    ensures fs.Valid() && fs.Steady() && fresh(dp) && dp.fs == fs && dp.sclust == s
    ensures res == Ok || res == NoFile ==>
      && Good(fs, tr) && Fat(fs) == old(Fat(fs)) && s in tr.tabs && dp.Valid()
      && dp.chain == tr.dirs[s] && dp.Table() == tr.tabs[s] && dp.fn == sn && dp.lfn == lfn && dp.withLfn
    ensures res == Ok ==>
      && dp.At(dp.index) && fs.winsect == dp.sect && FirstHit(tr.tabs[s], Key(sn, lfn, true), upper, dp.index)
      && IsObject(tr.tabs[s][dp.index]) && dp.lfnIdx == LongTop(tr.tabs[s], dp.index)
      && !Absent(tr.tabs[s], Key(sn, lfn, true), upper)
    ensures res == NoFile ==> Absent(tr.tabs[s], Key(sn, lfn, true), upper)
    ensures res == Ok || res == NoFile || (res == DiskErr && fs.faults > old(fs.faults))
  {
    hide FatOf, IsTable, OnVolume, HasReserved, IsChain, CountKept, Entries, PlaceOf, FreeBelow, OnDisk, Claims,
      Exclusive, IsObject, FirstHit, Absent, SameSnap, LongTop, Tidy, DotsFirst;
    DirsHaveTables(fs.g.fsType, tr, []);
    dp := OpenDir(fs, s, sn, lfn, tr);
    ghost var s0, tab := SnapOf(dp), dp.Table();
    TableIsTidy(fs.g.fsType, tr, [], s);
    res := DirFind(dp, upper);
    if res != Ok && res != NoFile { return; }
    StillGood(fs.g, s0, SnapOf(dp), tr.dirs, tr.tabs);
    SameSnapFacts(fs.g, s0, SnapOf(dp));
    if res == Ok {
      HitIsObject(tab, KeyOf(dp), upper, dp.index, s != 0);
      HitIsPresent(tab, KeyOf(dp), upper, dp.index);
    }
  }

  /** Remove the file or the empty directory with a name from directory `s`. */
  method Unlink(fs: Fatfs, s: u32, sn: seq<byte>, lfn: LfnBuf, upper: Upper, ghost name: seq<u16>, ghost tr: Tree)
    returns (res: FResult, ghost tr': Tree)
    requires Good(fs, tr) && s in tr.dirs && ProperName(sn, lfn, name)
    modifies fs, fs.win
    ensures fs.faults >= old(fs.faults)
    ensures fs.faults == old(fs.faults) ==>
      && Good(fs, tr') && (Connected(tr) ==> Connected(tr'))
      && s in tr.tabs && UnlinkAnswer(fs.g.fsType, tr, tr', s, Key(sn, lfn, true), upper, res)
  {
    hide FatOf, IsTable, OnVolume, HasReserved, IsChain, CountKept, Entries, PlaceOf, FreeBelow, OnDisk,
      Starting, Exclusive, Without, NoObjects, IsObject, Connected, DotsFirst, FirstHit, Absent, SameSnap, LongTop,
      Shown, HasOwner, Tidy, HoldsName;
    tr' := tr;
    ghost var t := fs.g.fsType;
    var dp;
    res, dp := FindObject(fs, s, sn, lfn, upper, tr);
    if res != Ok { return; }
    ghost var k := Slot(s, dp.index);
    OwnsChain(t, tr, k);
    var e := EntryHere(dp);
    if e[11] % 2 == 1 { return Denied, tr'; }
    var c := LoadCluster(fs.g.fsType, e);
    if c != 0 && IsDir(e) {
      DirChain(t, Fat(fs), tr, k);
      ghost var v := fs.View();
      res := CheckEmpty(fs, c, tr);
      if res != Ok && res != Denied { return; }
      DirsAreChains(t, Fat(fs), tr);
      DiskFat(fs.g, Fat(fs), Fat(fs), v, fs.View(), tr.dirs, tr.tabs);
      SameTable(fs.g, fs.View(), v, dp.chain);
      if res != Ok { return; }
    }
    res, tr' := RemoveFound(dp, c, tr);
  }

  method LoadCluster(t: FatType, e: DirEntry) returns (cl: u32)
    ensures cl == StartCluster(t, e)
  {
    cl := Ld16(e, 26);
    if t == Fat32 {
      cl := cl + 0x1_0000 * Ld16(e, 20);
    }
  }
}
