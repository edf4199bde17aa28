/**
  Renaming objects, and moving them from one directory to another.
*/
module TreeMove {
  import opened Bytes
  import opened Volume
  import opened FatCodec
  import opened Chains
  import opened Allocator
  import opened FileLayout
  import opened Lfn
  import opened Sync
  import opened DirTable
  import opened Directories
  import opened DirNames
  import opened DirSearch
  import opened DirChange
  import opened DirTheory
  import opened Tree
  import opened TreePaths
  import opened TreeDisk
  import opened TreeOps
  import opened TreeMake

  // ---------- The entry of a renamed object ----------

  /** Attributes with the archive bit set. */
  function WithArchive(a: byte): byte {
    if a / 0x20 % 2 == 1 then a else a + 0x20
  }

  lemma ArchiveKeeps(a: byte)
    ensures WithArchive(a) / 0x10 % 2 == a / 0x10 % 2 && WithArchive(a) / 8 % 2 == a / 8 % 2
  {
    if a / 0x20 % 2 == 0 {
      assert (a + 0x20) / 0x10 == a / 0x10 + 2;
      assert (a + 0x20) / 8 == a / 8 + 4;
    }
  }

  /** Entry `f`, whose name stays, with everything else as in `e`, and the archive bit set. */
  function InfoFrom(f: DirEntry, e: DirEntry): (r: DirEntry) {
    f[..11] + [WithArchive(e[11]), f[12]] + e[13..]
  }

  lemma InfoKept(t: FatType, f: DirEntry, e: DirEntry)
    ensures var r := InfoFrom(f, e);
      && r[..11] == f[..11] && StartCluster(t, r) == StartCluster(t, e) && (IsDir(r) <==> IsDir(e))
      && (IsShort(e) && f[0] != 0 && f[0] != DDEM ==> IsShort(r))
  {
    hide WithArchive;
    var r := InfoFrom(f, e);
    ArchiveKeeps(e[11]);
    assert r[11] == WithArchive(e[11]) && r[0] == f[0];
    assert r[26] == e[26] && r[27] == e[27] && r[20] == e[20] && r[21] == e[21];
  }

  // ---------- What the move does to the tables ----------

  function BlankedAt(t: seq<DirEntry>, from: nat, j: nat, k: nat): DirEntry
    requires k < |t|
  {
    if from <= k <= j then DeletedEntry() else t[k]
  }

  function Blanked(t: seq<DirEntry>, from: nat, j: nat): (u: seq<DirEntry>)
    ensures |u| == |t|
  {
    seq(|t|, k requires 0 <= k < |t| => BlankedAt(t, from, j, k))
  }

  /**
    Entry `ko`, whose object begins at `from`, goes, and `kn`, which is registered already, becomes
    `e`; the entry for the parent in directory `sub`, if that is no negative number, becomes `dot`.
  */
  datatype Move = Move(ko: Slot, kn: Slot, from: nat, e: DirEntry, sub: int, dot: DirEntry)

  /** The table of directory `x` after the move, in the order in which the entries are stored. */
  function TableAfter(m: Move, x: nat, t: seq<DirEntry>): (u: seq<DirEntry>)
    ensures |u| == |t|
  {
    var t2: seq<DirEntry> := if x == m.kn.dir && m.kn.idx < |t| then t[m.kn.idx := m.e] else t;
    var t3: seq<DirEntry> := if x == m.sub && 1 < |t2| then t2[1 := m.dot] else t2;
    if x == m.ko.dir then Blanked(t3, m.from, m.ko.idx) else t3
  }

  /** The move is of an object to one without clusters. */
  ghost predicate MoveFits(t: FatType, tr: Tree, m: Move) {
    && IsSlot(tr, m.ko) && IsSlot(tr, m.kn) && m.ko != m.kn
    && IsObject(Ent(tr, m.ko)) && IsObject(Ent(tr, m.kn)) && StartCluster(t, Ent(tr, m.kn)) == 0
    && m.from <= m.ko.idx && (forall i :: m.from <= i < m.ko.idx ==> !IsShort(tr.tabs[m.ko.dir][i]))
    && IsObject(m.e) && StartCluster(t, m.e) == StartCluster(t, Ent(tr, m.ko)) && (IsDir(m.e) <==> IsDir(Ent(tr, m.ko)))
    && m.e[..11] == Ent(tr, m.kn)[..11]
    && (m.sub >= 0 ==>
         m.sub != 0 && m.sub in tr.tabs && |tr.tabs[m.sub]| > 1
         && IsDot(m.dot) && m.dot[..11] == tr.tabs[m.sub][1][..11])
  }

  /** The same move, by taking the chain from one entry and giving it to the other. */
  function MovedTree(tr: Tree, m: Move): Tree
    requires IsSlot(tr, m.ko) && IsSlot(tr, m.kn)
  {
    var u := Blanked(tr.tabs[m.ko.dir], m.from, m.ko.idx);
    var tr2 := Attached(Detached(tr, m.ko, u), m.kn, m.e, ChainOf(tr, m.ko));
    if m.sub in tr2.tabs && |tr2.tabs[m.sub]| > 1 then DotSet(tr2, m.sub, m.dot) else tr2
  }

  /** Entries that are stored to and not deleted. */
  lemma Apart(t: FatType, tr: Tree, m: Move)
    requires MoveFits(t, tr, m) && GoodTables(tr)
    ensures m.kn.dir == m.ko.dir ==> !(m.from <= m.kn.idx <= m.ko.idx)
    ensures m.sub == m.ko.dir ==> !(m.from <= 1 <= m.ko.idx)
    ensures m.sub == m.kn.dir ==> m.kn.idx != 1
    ensures m.sub >= 0 ==> |tr.tabs[m.sub]| > 1
  {
    hide Tidy;
    assert m.sub >= 0 ==> IsDot(tr.tabs[m.sub][1]);
  }

  lemma BlankedThen(t: seq<DirEntry>, e: DirEntry, i: nat, from: nat, j: nat)
    requires i < |t| && !(from <= i <= j)
    ensures Blanked(t[i := e], from, j) == Blanked(t, from, j)[i := e]
  {
    hide DeletedEntry;
  }

  /** The tables are the same either way. */
  lemma MovedTables(t: FatType, tr: Tree, m: Move)
    requires MoveFits(t, tr, m) && GoodTables(tr)
    ensures var tr' := MovedTree(tr, m);
      && tr'.dirs == tr.dirs && tr'.tabs.Keys == tr.tabs.Keys
      && forall x :: x in tr.tabs ==> tr'.tabs[x] == TableAfter(m, x, tr.tabs[x])
  {
    hide GoodTables, IsObject, IsShort, IsDot, DeletedEntry, Blanked;
    Apart(t, tr, m);
    var tr' := MovedTree(tr, m);
    assert tr'.tabs.Keys == tr.tabs.Keys;
    forall x | x in tr.tabs
      ensures tr'.tabs[x] == TableAfter(m, x, tr.tabs[x])
    {
      var tab := tr.tabs[x];
      if x == m.ko.dir {
        var tab2 := tab;
        if x == m.kn.dir {
          BlankedThen(tab, m.e, m.kn.idx, m.from, m.ko.idx);
          tab2 := tab[m.kn.idx := m.e];
        }
        if x == m.sub {
          BlankedThen(tab2, m.dot, 1, m.from, m.ko.idx);
        }
      }
    }
  }

  lemma BlankedWithout(tr: Tree, m: Move, t: FatType)
    requires MoveFits(t, tr, m) && GoodTables(tr)
    ensures Without(tr.tabs[m.ko.dir], Blanked(tr.tabs[m.ko.dir], m.from, m.ko.idx), m.ko.idx)
  {
    var tab := tr.tabs[m.ko.dir];
    assert Deleted(tab, Blanked(tab, m.from, m.ko.idx), m.from, m.ko.idx);
    DeletedWithout(tab, Blanked(tab, m.from, m.ko.idx), m.from, m.ko.idx);
  }

  /** The chain that is moved fits its new entry. */
  lemma MovedFits(t: FatType, fat: seq<nat>, tr: Tree, m: Move)
    requires Claims(t, tr, []) && Exclusive(fat, tr, []) && MoveFits(t, tr, m)
    ensures FitsChain(t, tr, m.e, ChainOf(tr, m.ko))
  {
    hide IsObject, IsDir, Exclusive, Starting, Rooted, GoodTables;
    OwnsChain(t, tr, m.ko);
    var loose := ChainOf(tr, m.ko);
    if loose != [] {
      if IsDir(Ent(tr, m.ko)) {
        DirChain(t, fat, tr, m.ko);
      } else if loose[0] in tr.dirs {
        FileChain(t, fat, tr, m.ko, loose[0]);
      }
    }
  }

  /** Ownership is as it should be after the move. */
  lemma MoveClaims(t: FatType, fat: seq<nat>, tr: Tree, m: Move)
    requires Claims(t, tr, []) && Exclusive(fat, tr, []) && MoveFits(t, tr, m)
    ensures Claims(t, MovedTree(tr, m), []) && Exclusive(fat, MovedTree(tr, m), [])
  {
    hide IsObject, IsDir, IsDot, IsShort, Exclusive, Starting, Rooted, GoodTables, Without, FitsChain, DotSet;
    var u, loose := Blanked(tr.tabs[m.ko.dir], m.from, m.ko.idx), ChainOf(tr, m.ko);
    Apart(t, tr, m);
    BlankedWithout(tr, m, t);
    MovedFits(t, fat, tr, m);
    Detach(t, fat, tr, m.ko, u);
    var tr1 := Detached(tr, m.ko, u);
    assert Ent(tr1, m.kn) == Ent(tr, m.kn);
    StillFits(t, tr, tr1, m.e, loose);
    Attach(t, fat, tr1, m.kn, m.e, loose);
    if m.sub >= 0 {
      ParentSet(t, fat, Attached(tr1, m.kn, m.e, loose), [], m.sub, m.dot);
    }
  }

  lemma StillFits(t: FatType, tr: Tree, tr1: Tree, e: DirEntry, loose: seq<nat>)
    requires FitsChain(t, tr, e, loose) && tr1.dirs == tr.dirs
    ensures FitsChain(t, tr1, e, loose)
  {
  }

  // ---------- What the move does to the directories' paths ----------

  /** The entry of directory `x`. */
  predicate DirAt(t: FatType, tr: Tree, l: Slot, x: nat) {
    IsSlot(tr, l) && IsObject(Ent(tr, l)) && IsDir(Ent(tr, l)) && x != 0 && StartCluster(t, Ent(tr, l)) == x
  }

  /** Where ownership is as it should be, a directory's entry owns the directory. */
  lemma OwnerIsEntry(t: FatType, fat: seq<nat>, tr: Tree, l: Slot, x: nat)
    requires Claims(t, tr, []) && Exclusive(fat, tr, [])
    ensures IsOwner(tr, l, x) <==> DirAt(t, tr, l, x)
  {
    hide GoodTables, HasOwner, Exclusive, IsObject, IsDir;
    if IsOwner(tr, l, x) {
      OwnerHead(t, fat, tr, l, x);
    }
    if DirAt(t, tr, l, x) {
      OwnsChain(t, tr, l);
      DirChain(t, fat, tr, l);
    }
  }

  lemma GrownDirAt(t: FatType, tr: Tree, s: nat, chain: seq<nat>, u: seq<DirEntry>, l: Slot, x: nat)
    requires s in tr.dirs && s in tr.tabs && TableGrows(t, tr.tabs[s], u)
    ensures DirAt(t, WithTable(tr, s, chain, u), l, x) <==> DirAt(t, tr, l, x)
  {
    hide Tidy, IsDir;
    var tr' := WithTable(tr, s, chain, u);
    if l.dir == s {
      assert DirAt(t, tr', l, x) ==> l.idx < |tr.tabs[s]| && IsShort(tr.tabs[s][l.idx]);
    }
  }

  /** A table after the move has the objects that it had, but for the one that is moved. */
  lemma MovedEntry(t: FatType, tr: Tree, m: Move, x: nat, i: nat)
    requires MoveFits(t, tr, m) && GoodTables(tr) && x in tr.tabs && i < |tr.tabs[x]|
    ensures var e, f := tr.tabs[x][i], TableAfter(m, x, tr.tabs[x])[i];
      && (Slot(x, i) == m.kn ==> f == m.e) && (Slot(x, i) == m.ko ==> !IsShort(f))
      && (Slot(x, i) != m.kn && Slot(x, i) != m.ko ==> f == e || (!IsObject(e) && !IsObject(f)))
  {
    hide Tidy, IsDir;
    Apart(t, tr, m);
    DeletedIsFree();
    assert x == m.sub ==> IsDot(tr.tabs[x][1]);
  }

  lemma MovedDirAt(t: FatType, tr: Tree, m: Move, l: Slot, x: nat)
    requires MoveFits(t, tr, m) && GoodTables(tr)
    ensures DirAt(t, MovedTree(tr, m), l, x) <==>
      if l == m.kn then DirAt(t, tr, m.ko, x) else l != m.ko && DirAt(t, tr, l, x)
  {
    hide IsDir, IsDot, IsShort, GoodTables, TableAfter, MovedTree;
    MovedTables(t, tr, m);
    if IsSlot(tr, l) {
      MovedEntry(t, tr, m, l.dir, l.idx);
    }
  }

  /** What the tree's owners are after an object has been registered, and another one moved to it. */
  lemma RenameOwners(t: FatType, fat: seq<nat>, fat': seq<nat>, tr: Tree, tr1: Tree, m: Move)
    requires Claims(t, tr, []) && Exclusive(fat, tr, []) && Claims(t, tr1, []) && Exclusive(fat', tr1, [])
    requires MoveFits(t, tr1, m)
    requires m.kn.dir in tr.dirs && m.kn.dir in tr.tabs && TableGrows(t, tr.tabs[m.kn.dir], tr1.tabs[m.kn.dir])
    requires m.kn.dir in tr1.dirs && tr1 == WithTable(tr, m.kn.dir, tr1.dirs[m.kn.dir], tr1.tabs[m.kn.dir])
    ensures forall l, x :: IsOwner(MovedTree(tr1, m), l, x) <==>
      if l == m.kn then DirAt(t, tr, m.ko, x) else l != m.ko && IsOwner(tr, l, x)
    ensures forall x :: !IsOwner(tr, m.kn, x)
  {
    hide Claims, Exclusive, TableGrows, MoveFits, IsOwner, DirAt, MovedTree, WithTable;
    var s := m.kn.dir;
    FitsGood(t, tr1, m);
    MoveClaims(t, fat', tr1, m);
    forall l, x
      ensures IsOwner(MovedTree(tr1, m), l, x) <==>
        if l == m.kn then DirAt(t, tr, m.ko, x) else l != m.ko && IsOwner(tr, l, x)
      ensures !IsOwner(tr, m.kn, x)
    {
      OwnerIsEntry(t, fat', MovedTree(tr1, m), l, x);
      MovedDirAt(t, tr1, m, l, x);
      GrownDirAt(t, tr, s, tr1.dirs[s], tr1.tabs[s], l, x);
      GrownDirAt(t, tr, s, tr1.dirs[s], tr1.tabs[s], m.ko, x);
      GrownDirAt(t, tr, s, tr1.dirs[s], tr1.tabs[s], m.kn, x);
      OwnerIsEntry(t, fat, tr, l, x);
      OwnerIsEntry(t, fat, tr, m.kn, x);
      NoCluster(t, tr1, m, x);
    }
  }

  lemma NoCluster(t: FatType, tr: Tree, m: Move, x: nat)
    requires MoveFits(t, tr, m)
    ensures !DirAt(t, tr, m.kn, x)
  {
  }

  lemma FitsGood(t: FatType, tr: Tree, m: Move)
    requires Claims(t, tr, []) && MoveFits(t, tr, m)
    ensures GoodTables(tr) && IsSlot(tr, m.ko) && IsSlot(tr, m.kn)
  {
  }

  /**
    After an object has been moved, every directory is below the root exactly if it has not been a
    directory that was moved into itself or below itself.
  */
  lemma RenameConnected(t: FatType, fat: seq<nat>, fat': seq<nat>, tr: Tree, tr1: Tree, m: Move, c: nat)
    requires Claims(t, tr, []) && Exclusive(fat, tr, []) && Claims(t, tr1, []) && Exclusive(fat', tr1, [])
    requires MoveFits(t, tr1, m)
    requires m.kn.dir in tr.dirs && m.kn.dir in tr.tabs && TableGrows(t, tr.tabs[m.kn.dir], tr1.tabs[m.kn.dir])
    requires m.kn.dir in tr1.dirs && tr1 == WithTable(tr, m.kn.dir, tr1.dirs[m.kn.dir], tr1.tabs[m.kn.dir])
    requires Connected(tr) && IsSlot(tr, m.ko) && c == StartCluster(t, Ent(tr, m.ko))
    ensures Connected(MovedTree(tr1, m)) <==> !(DirAt(t, tr, m.ko, c) && InSubtree(tr, m.kn.dir, c))
  {
    hide Exclusive, TableGrows, MoveFits, IsOwner, MovedTree, Within, Starting, Rooted, GoodTables, IsObject, IsDir;
    FitsGood(t, tr1, m);
    MovedTables(t, tr1, m);
    RenameOwners(t, fat, fat', tr, tr1, m);
    OwnersSingle(t, fat, tr, []);
    var tr' := MovedTree(tr1, m);
    assert tr'.dirs.Keys == tr.dirs.Keys;
    if DirAt(t, tr, m.ko, c) {
      forall x
        ensures IsOwner(tr, m.ko, x) <==> x == c
      {
        OwnerIsEntry(t, fat, tr, m.ko, x);
      }
      IsMoved(t, tr, tr', m.ko, m.kn, c);
      MoveConnected(tr, tr', c, m.kn);
    } else {
      forall l, x | IsOwner(tr, l, x)
        ensures IsOwner(tr', l, x)
      {
        OwnerIsEntry(t, fat, tr, l, x);
      }
      ConnectedKept(tr, tr', -1);
    }
  }

  lemma IsMoved(t: FatType, tr: Tree, tr': Tree, ko: Slot, kn: Slot, c: nat)
    requires SingleOwners(tr) && tr'.dirs.Keys == tr.dirs.Keys && kn.dir in tr.dirs
    requires IsOwner(tr, ko, c) && DirAt(t, tr, ko, c)
    requires (forall x :: IsOwner(tr, ko, x) ==> x == c) && forall x :: !IsOwner(tr, kn, x)
    requires forall l, x :: IsOwner(tr', l, x) <==>
      if l == kn then DirAt(t, tr, ko, x) else l != ko && IsOwner(tr, l, x)
    ensures Moved(tr, tr', c, kn)
  {
    hide IsObject, IsDir, StartCluster;
    forall l, x
      ensures IsOwner(tr', l, x) <==> if x == c then l == kn else IsOwner(tr, l, x)
    {
    }
  }

  // ---------- What the move does to the names ----------

  /** No other object gets or loses a name in the table. */
  lemma NamesAfter(t: FatType, tr: Tree, m: Move, x: nat, key: Key, upper: Upper, i: nat)
    requires MoveFits(t, tr, m) && GoodTables(tr) && x in tr.tabs
    ensures IsHit(TableAfter(m, x, tr.tabs[x]), key, upper, i) <==>
      Slot(x, i) != m.ko && IsHit(tr.tabs[x], key, upper, i)
  {
    hide Tidy, IsDir, IsHit, IsLong, IsFree, Blanked, DotsFirst;
    Apart(t, tr, m);
    DotsAreShort(tr, m.sub);
    var tab := tr.tabs[x];
    var t2 := tab;
    if x == m.kn.dir {
      SameNames(tab, m.e, m.kn.idx, key, upper, i);
      t2 := tab[m.kn.idx := m.e];
    }
    var t3 := t2;
    if x == m.sub {
      SameNames(t2, m.dot, 1, key, upper, i);
      t3 := t2[1 := m.dot];
    }
    if x == m.ko.dir {
      NamesBlanked(t3, m.from, m.ko.idx, key, upper, i);
    }
  }

  lemma DotsAreShort(tr: Tree, s: int)
    requires GoodTables(tr)
    ensures s > 0 && s in tr.tabs ==> |tr.tabs[s]| > 1 && IsShort(tr.tabs[s][1])
  {
    hide Tidy;
    assert s > 0 && s in tr.tabs ==> IsDot(tr.tabs[s][1]);
  }

  lemma NamesBlanked(t: seq<DirEntry>, from: nat, j: nat, key: Key, upper: Upper, i: nat)
    requires from <= j < |t| && IsShort(t[j]) && forall k :: from <= k < j ==> !IsShort(t[k])
    ensures IsHit(Blanked(t, from, j), key, upper, i) <==> i != j && IsHit(t, key, upper, i)
  {
    hide LongRun;
    DeletedIsFree();
    if i < |t| && !(from <= i <= j) {
      OtherHits(t, Blanked(t, from, j), key, upper, from, j, i);
    }
  }

  /**
    Object `ko` has become `kn`: its name and archive bit apart its entry is as it was, and no other
    object has changed.
  */
  ghost predicate Renamed(tr: Tree, tr': Tree, ko: Slot, kn: Slot, upper: Upper) {
    && tr'.dirs.Keys == tr.dirs.Keys && tr'.tabs.Keys == tr.tabs.Keys && IsSlot(tr, ko) && IsSlot(tr', kn) && ko != kn
    && IsObject(Ent(tr', kn)) && Ent(tr', kn) == InfoFrom(Ent(tr', kn), Ent(tr, ko))
    && (forall l :: l != ko && l != kn && (ObjectAt(tr, l) || ObjectAt(tr', l)) ==>
         IsSlot(tr, l) && IsSlot(tr', l) && Ent(tr', l) == Ent(tr, l))
    && forall x, key: Key, i :: x in tr.tabs && x in tr'.tabs && Slot(x, i) != kn ==>
         (IsHit(tr'.tabs[x], key, upper, i) <==> Slot(x, i) != ko && IsHit(tr.tabs[x], key, upper, i))
  }

  ghost predicate ObjectAt(tr: Tree, l: Slot) {
    IsSlot(tr, l) && IsObject(Ent(tr, l))
  }

  lemma OthersStay(t: FatType, tr: Tree, tr1: Tree, m: Move, upper: Upper, l: Slot)
    requires MoveFits(t, tr1, m) && GoodTables(tr1) && m.kn.dir in tr.tabs && tr1.tabs.Keys == tr.tabs.Keys
    requires TableGrows(t, tr.tabs[m.kn.dir], tr1.tabs[m.kn.dir])
    requires OnlyNew(tr.tabs[m.kn.dir], tr1.tabs[m.kn.dir], upper, m.kn.idx)
    requires forall x :: x in tr.tabs && x != m.kn.dir ==> tr1.tabs[x] == tr.tabs[x]
    requires l != m.ko && l != m.kn && (ObjectAt(tr, l) || ObjectAt(MovedTree(tr1, m), l))
    ensures IsSlot(tr, l) && IsSlot(MovedTree(tr1, m), l) && Ent(MovedTree(tr1, m), l) == Ent(tr, l)
  {
    hide TableAfter, MovedTree, IsHit, Tidy, IsDot, DotsFirst;
    MovedTables(t, tr1, m);
    var x := l.dir;
    if l.idx < |tr1.tabs[x]| {
      MovedEntry(t, tr1, m, x, l.idx);
    }
  }

  lemma IsRenamed(t: FatType, tr: Tree, tr1: Tree, m: Move, upper: Upper)
    requires MoveFits(t, tr1, m) && GoodTables(tr1) && m.kn.dir in tr.tabs && tr1.tabs.Keys == tr.tabs.Keys
    requires tr1.dirs.Keys == tr.dirs.Keys
    requires TableGrows(t, tr.tabs[m.kn.dir], tr1.tabs[m.kn.dir])
    requires OnlyNew(tr.tabs[m.kn.dir], tr1.tabs[m.kn.dir], upper, m.kn.idx)
    requires forall x :: x in tr.tabs && x != m.kn.dir ==> tr1.tabs[x] == tr.tabs[x]
    requires IsSlot(tr, m.ko) && Ent(tr, m.ko) == Ent(tr1, m.ko) && m.e == InfoFrom(Ent(tr1, m.kn), Ent(tr, m.ko))
    ensures Renamed(tr, MovedTree(tr1, m), m.ko, m.kn, upper)
  {
    hide TableAfter, MovedTree, IsHit, IsObject, IsDot, IsDir, IsShort, GoodTables, TableGrows, InfoFrom;
    MovedTables(t, tr1, m);
    MovedEntry(t, tr1, m, m.kn.dir, m.kn.idx);
    var tr' := MovedTree(tr1, m);
    InfoTwice(Ent(tr1, m.kn), Ent(tr, m.ko));
    forall l | l != m.ko && l != m.kn && (ObjectAt(tr, l) || ObjectAt(tr', l))
      ensures IsSlot(tr, l) && IsSlot(tr', l) && Ent(tr', l) == Ent(tr, l)
    {
      OthersStay(t, tr, tr1, m, upper, l);
    }
    forall x, key: Key, i: nat | x in tr.tabs && x in tr'.tabs && Slot(x, i) != m.kn
      ensures IsHit(tr'.tabs[x], key, upper, i) <==> Slot(x, i) != m.ko && IsHit(tr.tabs[x], key, upper, i)
    {
      NamesAfter(t, tr1, m, x, key, upper, i);
    }
  }

  lemma InfoTwice(f: DirEntry, e: DirEntry)
    ensures InfoFrom(InfoFrom(f, e), e) == InfoFrom(f, e)
  {
  }

  /** The renamed object is found by its new name. */
  lemma StaysFound(t: FatType, tr1: Tree, m: Move, t0: seq<DirEntry>, key: Key, n: nat, upper: Upper)
    requires MoveFits(t, tr1, m) && GoodTables(tr1) && Tidy(t0) && Absent(t0, key, upper) && |key.fn| == 12
    requires OnlyNew(t0, tr1.tabs[m.kn.dir], upper, m.kn.idx) && Entered(tr1.tabs[m.kn.dir], key, n, upper, m.kn.idx)
    ensures m.kn.dir in MovedTree(tr1, m).tabs && Entered(MovedTree(tr1, m).tabs[m.kn.dir], key, n, upper, m.kn.idx)
  {
    hide TableAfter, MovedTree, IsHit, IsObject, IsDot, IsDir, GoodTables;
    MovedTables(t, tr1, m);
    MovedEntry(t, tr1, m, m.kn.dir, m.kn.idx);
    var d, j := m.kn.dir, m.kn.idx;
    var u, w := tr1.tabs[d], TableAfter(m, d, tr1.tabs[d]);
    forall i: nat
      ensures IsHit(w, key, upper, i) ==> i == j
      ensures IsHit(u, key, upper, i) ==> i == j
      ensures IsHit(w, key, upper, j) <==> IsHit(u, key, upper, j)
    {
      NamesAfter(t, tr1, m, d, key, upper, i);
      NamesAfter(t, tr1, m, d, key, upper, j);
      AbsentNoHit(t0, key, upper, i);
    }
    ObjectUsed(t, tr1, m);
  }

  lemma ObjectUsed(t: FatType, tr1: Tree, m: Move)
    requires MoveFits(t, tr1, m) && GoodTables(tr1)
    ensures NoEnd(tr1.tabs[m.kn.dir], m.kn.idx) && NoEnd(TableAfter(m, m.kn.dir, tr1.tabs[m.kn.dir]), m.kn.idx)
  {
    Apart(t, tr1, m);
    UsedBelow(tr1.tabs[m.kn.dir], m.kn.idx);
  }

  // ---------- f_rename ----------

  /** Tables as they are on the volume, in the midst of the move. */
  ghost predicate Shows(fs: Fatfs, dirs: map<nat, seq<nat>>, tabs: map<nat, seq<DirEntry>>)
    reads fs, fs.win
  {
    && fs.Valid() && !HasReserved(Fat(fs)) && InfoApart(fs.g)
    && OnDisk(fs.g, Fat(fs), fs.View(), dirs, tabs) && DirsApart(dirs)
  }

  /** Give the registered object everything but its name from entry `e`. */
  method CopyInfo(dp: Dir, e: DirEntry, ghost tr: Tree) returns (ghost tabs: map<nat, seq<DirEntry>>)
    requires Stands(dp, tr) && Shows(dp.fs, tr.dirs, tr.tabs) && dp.At(dp.index) && dp.fs.winsect == dp.sect
    modifies dp.fs.win, dp.fs`wflag
    ensures Shows(dp.fs, tr.dirs, tabs) && Fat(dp.fs) == old(Fat(dp.fs))
    ensures dp.index < |tr.tabs[dp.sclust]|
    ensures tabs == Stored(tr.tabs, dp.sclust, dp.index, InfoFrom(tr.tabs[dp.sclust][dp.index], e))
  {
    hide FatOf, IsTable, OnVolume, HasReserved, IsChain, CountKept, Entries, PlaceOf, FreeBelow, Extended, OnDisk,
      DirsApart, InfoFrom;
    ghost var a := SnapOf(dp);
    var f := EntryHere(dp);
    PutEntry(dp, InfoFrom(f, e));
    DiskStep(dp.fs.g, a, SnapOf(dp), tr.dirs, tr.tabs, dp.sclust);
    assert tr.dirs[dp.sclust := dp.chain] == tr.dirs;
    tabs := Stored(tr.tabs, dp.sclust, dp.index, InfoFrom(f, e));
  }

  function Stored(tabs: map<nat, seq<DirEntry>>, s: nat, i: nat, e: DirEntry): map<nat, seq<DirEntry>>
    requires s in tabs && i < |tabs[s]|
  {
    var u: seq<DirEntry> := tabs[s][i := e];
    tabs[s := u]
  }

  /** Entry 1 of a subdirectory is in the first sector of its cluster. */
  lemma SecondEntry(g: Geometry, chain: seq<nat>, c: nat)
    requires IsTable(g, chain) && StartsAt(g, chain, c) && c != 0
    ensures chain != [] && IsCluster(g, c) && 1 < Reach(g, chain)
    ensures PlaceOf(g, chain, 1) == Place(c, Clust2Sect(g, c), 32)
  {
    Located(0, g.csize);
    assert ClusterOf(0, g.csize) == 0 && OffsetIn(0, g.csize) == 0;
    ClusterBelow(0, |chain|, g.csize);
  }

  /** The tables with the parent of directory `c` set to `d`, if its second entry is the one for the parent. */
  function WithParent(tabs: map<nat, seq<DirEntry>>, c: nat, d: u32): map<nat, seq<DirEntry>>
    requires c in tabs && |tabs[c]| > 1
  {
    if tabs[c][1][1] == DOT then Stored(tabs, c, 1, StoreCluster(tabs[c][1], d)) else tabs
  }

  /** Another sector in the window leaves the tables as they are. */
  lemma ShowsStill(g: Geometry, v: seq<Sector>, v': seq<Sector>, dirs: map<nat, seq<nat>>,
                   tabs: map<nat, seq<DirEntry>>)
    requires |v| == g.nsect && OnDisk(g, FatOf(g, v), v, dirs, tabs) && Agree(g, v', v)
    ensures FatOf(g, v') == FatOf(g, v) && OnDisk(g, FatOf(g, v'), v', dirs, tabs)
  {
    hide FatOf, IsChain, IsTable, Entries;
    SameFirstCopy(g, v, v');
    DiskFat(g, FatOf(g, v), FatOf(g, v'), v, v', dirs, tabs);
  }

  lemma ShownDir(g: Geometry, fat: seq<nat>, v: seq<Sector>, dirs: map<nat, seq<nat>>, tabs: map<nat, seq<DirEntry>>,
                 c: nat)
    requires OnDisk(g, fat, v, dirs, tabs) && c in dirs
    ensures c in tabs && IsTable(g, dirs[c]) && StartsAt(g, dirs[c], c) && |v| == g.nsect
    ensures |tabs[c]| == Reach(g, dirs[c])
  {
  }

  /** Go to the second entry of a subdirectory. */
  method OpenSecond(fs: Fatfs, c: u32, ghost dirs: map<nat, seq<nat>>, ghost tabs: map<nat, seq<DirEntry>>)
    returns (res: FResult, sub: Dir)
    requires Shows(fs, dirs, tabs) && c in dirs && c != 0
    modifies fs`disk, fs`wflag, fs`faults, fs`winsect, fs.win
    ensures fs.Valid() && fs.Steady() && fresh(sub) && sub.fs == fs
    ensures res == Ok ==>
      && Shows(fs, dirs, tabs) && Fat(fs) == old(Fat(fs)) && sub.Valid() && sub.sclust == c && sub.chain == dirs[c]
      && c in tabs && sub.Table() == tabs[c] && sub.index == 1 && sub.At(1) && fs.winsect == sub.sect
    ensures res == Ok || (res == DiskErr && fs.faults > old(fs.faults))
  {
    hide FatOf, OnVolume, HasReserved, IsTable, IsChain, StartsAt, CountKept, Entries, PlaceOf, FreeBelow, OnDisk,
      DirsApart;
    ghost var tr := Tree(dirs, tabs, map[]);
    sub := OpenDir(fs, c, ZeroEntry()[..12], seq(256, _ => 0), tr);
    ShownDir(fs.g, Fat(fs), fs.View(), dirs, tabs, c);
    SecondEntry(fs.g, dirs[c], c);
    ghost var v := fs.View();
    var dw := Clust2Sect(fs.g, c);
    res := fs.MoveWindow(dw);
    if res != Ok { return; }
    ShowsStill(fs.g, v, fs.View(), dirs, tabs);
    sub.index, sub.clust, sub.sect, sub.dir := 1, c, dw, 32;
    ShownTable(fs.g, Fat(fs), fs.View(), dirs, tabs, c);
  }

  lemma ShownTable(g: Geometry, fat: seq<nat>, v: seq<Sector>, dirs: map<nat, seq<nat>>,
                   tabs: map<nat, seq<DirEntry>>, c: nat)
    requires OnDisk(g, fat, v, dirs, tabs) && c in dirs
    ensures IsTable(g, dirs[c]) && IsChain(fat, dirs[c]) && |v| == g.nsect && c in tabs
    ensures Entries(g, v, dirs[c]) == tabs[c]
  {
  }

  /** Set the parent of directory `c` to `d`. */
  method SetParent(fs: Fatfs, c: u32, d: u32, ghost dirs: map<nat, seq<nat>>, ghost tabs0: map<nat, seq<DirEntry>>)
    returns (res: FResult, ghost tabs: map<nat, seq<DirEntry>>)
    requires Shows(fs, dirs, tabs0) && c in dirs && c != 0
    modifies fs`disk, fs`wflag, fs`faults, fs`winsect, fs.win
    ensures fs.Valid() && fs.Steady()
    ensures res == Ok ==>
      && Shows(fs, dirs, tabs) && Fat(fs) == old(Fat(fs)) && c in tabs0 && |tabs0[c]| > 1
      && tabs == WithParent(tabs0, c, d)
    ensures res == Ok || (res == DiskErr && fs.faults > old(fs.faults))
  {
    hide FatOf, OnVolume, HasReserved, IsTable, IsChain, StartsAt, CountKept, Entries, PlaceOf, FreeBelow, Extended,
      OnDisk, DirsApart, StoreCluster;
    tabs := tabs0;
    var sub;
    res, sub := OpenSecond(fs, c, dirs, tabs0);
    if res != Ok { return; }
    var e := EntryHere(sub);
    if e[1] == DOT {
      ghost var a := SnapOf(sub);
      PutEntry(sub, StoreCluster(e, d));
      DiskStep(fs.g, a, SnapOf(sub), dirs, tabs0, c);
      assert dirs[c := sub.chain] == dirs;
      tabs := Stored(tabs0, c, 1, StoreCluster(e, d));
    }
  }

  /** The move of object `ko`, which is entry `e` and begins at `from`, to the registered object `kn`. */
  function TheMove(t: FatType, tr: Tree, ko: Slot, kn: Slot, from: nat, e: DirEntry): Move
    requires IsSlot(tr, kn) && kn.dir < 0x1_0000_0000
  {
    var f, c := InfoFrom(Ent(tr, kn), e), StartCluster(t, e);
    if IsDir(e) && ko.dir != kn.dir && c != 0 && c in tr.tabs && |tr.tabs[c]| > 1 && tr.tabs[c][1][1] == DOT then
      Move(ko, kn, from, f, c, StoreCluster(tr.tabs[c][1], kn.dir))
    else Move(ko, kn, from, f, -1, ZeroEntry())
  }

  /** What is known of the two entries when the new one is registered. */
  ghost predicate ReadyToMove(t: FatType, tr: Tree, ko: Slot, kn: Slot, from: nat, e: DirEntry) {
    && IsSlot(tr, ko) && IsSlot(tr, kn) && ko != kn && e == Ent(tr, ko) && IsObject(e)
    && IsObject(Ent(tr, kn)) && StartCluster(t, Ent(tr, kn)) == 0 && kn.dir < 0x1_0000_0000
    && from <= ko.idx && (forall i :: from <= i < ko.idx ==> !IsShort(tr.tabs[ko.dir][i]))
  }

  lemma ReadyFits(t: FatType, fat: seq<nat>, tr: Tree, ko: Slot, kn: Slot, from: nat, e: DirEntry)
    requires Claims(t, tr, []) && Exclusive(fat, tr, []) && ReadyToMove(t, tr, ko, kn, from, e)
    ensures MoveFits(t, tr, TheMove(t, tr, ko, kn, from, e))
  {
    hide InfoFrom, IsDir, Exclusive, Rooted, Starting, StoreCluster, Tidy, IsShort;
    InfoKept(t, Ent(tr, kn), e);
    InfoIsObject(Ent(tr, kn), e);
    var c := StartCluster(t, e);
    if c in tr.tabs && |tr.tabs[c]| > 1 {
      DotKept(tr.tabs[c][1], kn.dir);
      SecondIsDot(t, tr, ko, c);
    }
  }

  lemma SecondIsDot(t: FatType, tr: Tree, ko: Slot, c: nat)
    requires Claims(t, tr, []) && IsSlot(tr, ko) && c == StartCluster(t, Ent(tr, ko)) && c in tr.tabs
    requires |tr.tabs[c]| > 1
    ensures c != 0 ==> IsDot(tr.tabs[c][1])
  {
    hide Tidy, IsDot;
  }

  lemma InfoIsObject(f: DirEntry, e: DirEntry)
    requires IsObject(f) && IsObject(e)
    ensures IsObject(InfoFrom(f, e))
  {
    InfoKept(Fat32, f, e);
    assert InfoFrom(f, e)[0] == f[0];
  }

  lemma DotKept(e: DirEntry, d: u32)
    ensures var f := StoreCluster(e, d); f[..11] == e[..11] && (IsDot(e) ==> IsDot(f))
  {
    StoredCluster(Fat32, e, d);
  }

  lemma BlankedIsDeleted(t: seq<DirEntry>, u: seq<DirEntry>, from: nat, j: nat)
    requires Deleted(t, u, from, j)
    ensures u == Blanked(t, from, j)
  {
  }

  /** The tables that the move leaves on the volume are those of the tree. */
  lemma MoveShown(t: FatType, tr: Tree, m: Move, tabs2: map<nat, seq<DirEntry>>, tabs3: map<nat, seq<DirEntry>>,
                  u: seq<DirEntry>)
    requires MoveFits(t, tr, m) && GoodTables(tr) && tabs2 == Stored(tr.tabs, m.kn.dir, m.kn.idx, m.e)
    requires if m.sub >= 0 then tabs3 == Stored(tabs2, m.sub, 1, m.dot) else tabs3 == tabs2
    requires Deleted(tabs3[m.ko.dir], u, m.from, m.ko.idx)
    ensures MovedTree(tr, m).tabs == tabs3[m.ko.dir := u] && MovedTree(tr, m).dirs == tr.dirs
  {
    hide GoodTables, IsObject, IsDot, IsShort, StartCluster, MovedTree, Blanked, DeletedEntry;
    MovedTables(t, tr, m);
    BlankedIsDeleted(tabs3[m.ko.dir], u, m.from, m.ko.idx);
    assert MovedTree(tr, m).tabs.Keys == tabs3[m.ko.dir := u].Keys;
    forall x | x in tr.tabs
      ensures MovedTree(tr, m).tabs[x] == tabs3[m.ko.dir := u][x]
    {
    }
  }

  /** The entry for the parent is where it was, whatever the new entry is. */
  lemma ParentShown(t: FatType, fat: seq<nat>, tr: Tree, ko: Slot, kn: Slot, from: nat, e: DirEntry,
                    tabs2: map<nat, seq<DirEntry>>, c: nat)
    requires Claims(t, tr, []) && Exclusive(fat, tr, []) && ReadyToMove(t, tr, ko, kn, from, e)
    requires tabs2 == Stored(tr.tabs, kn.dir, kn.idx, TheMove(t, tr, ko, kn, from, e).e)
    requires IsDir(e) && ko.dir != kn.dir && c == StartCluster(t, e) && c != 0 && c in tabs2 && |tabs2[c]| > 1
    ensures var m := TheMove(t, tr, ko, kn, from, e);
      if m.sub >= 0 then m.sub == c && WithParent(tabs2, c, kn.dir) == Stored(tabs2, c, 1, m.dot)
      else WithParent(tabs2, c, kn.dir) == tabs2
  {
    hide InfoFrom, IsDir, Exclusive, Rooted, Starting, StoreCluster, Tidy, IsShort;
    SecondIsDot(t, tr, ko, c);
    assert kn != Slot(c, 1);
    assert tabs2[c][1] == tr.tabs[c][1];
  }

  lemma ReadyDir(t: FatType, fat: seq<nat>, tr: Tree, ko: Slot, kn: Slot, from: nat, e: DirEntry)
    requires Claims(t, tr, []) && Exclusive(fat, tr, []) && ReadyToMove(t, tr, ko, kn, from, e) && IsDir(e)
    requires StartCluster(t, e) != 0
    ensures StartCluster(t, e) in tr.dirs && StartCluster(t, e) in tr.tabs
  {
    hide IsDir, IsObject, Exclusive, Rooted, GoodTables, Starting;
    OwnsChain(t, tr, ko);
    DirChain(t, fat, tr, ko);
  }

  /** If a directory goes to another one, set its parent. */
  method LinkParent(fs: Fatfs, s: u32, d: u32, e: DirEntry, ghost tr: Tree, ghost m: Move,
                    ghost tabs2: map<nat, seq<DirEntry>>)
    returns (res: FResult, ghost tabs3: map<nat, seq<DirEntry>>)
    requires Shows(fs, tr.dirs, tabs2) && m.ko.dir == s && m.kn.dir == d
    requires Claims(fs.g.fsType, tr, []) && Exclusive(Fat(fs), tr, [])
    requires ReadyToMove(fs.g.fsType, tr, m.ko, m.kn, m.from, e)
    requires m == TheMove(fs.g.fsType, tr, m.ko, m.kn, m.from, e) && tabs2 == Stored(tr.tabs, d, m.kn.idx, m.e)
    modifies fs`disk, fs`wflag, fs`faults, fs`winsect, fs.win
    ensures fs.Valid() && fs.Steady()
    ensures res == Ok || res == IntErr ==> Shows(fs, tr.dirs, tabs3) && Fat(fs) == old(Fat(fs))
    ensures res == Ok ==>
      if m.sub >= 0 then m.sub in tabs2 && |tabs2[m.sub]| > 1 && tabs3 == Stored(tabs2, m.sub, 1, m.dot)
      else tabs3 == tabs2
    ensures res == IntErr ==> tabs3 == tabs2 && IsDir(e) && StartCluster(fs.g.fsType, e) == 0 && s != d
    ensures res == Ok || res == IntErr || (res == DiskErr && fs.faults > old(fs.faults))
  {
    hide FatOf, OnVolume, HasReserved, IsTable, IsChain, StartsAt, CountKept, OnDisk, DirsApart, StoreCluster, Claims,
      Exclusive, IsObject, IsDir, InfoFrom, TheMove, WithParent;
    ghost var t := fs.g.fsType;
    res, tabs3 := Ok, tabs2;
    if !IsDir(e) || s == d {
      NoParent(t, tr, m.ko, m.kn, m.from, e);
      return;
    }
    var c := LoadCluster(fs.g.fsType, e);
    if c != 0 {
      ReadyDir(t, Fat(fs), tr, m.ko, m.kn, m.from, e);
      ShownTable(fs.g, Fat(fs), fs.View(), tr.dirs, tabs2, c);
      ShownDir(fs.g, Fat(fs), fs.View(), tr.dirs, tabs2, c);
      SecondEntry(fs.g, tr.dirs[c], c);
    }
    if c < 2 || c >= fs.g.nFatent { return IntErr, tabs3; }
    res, tabs3 := SetParent(fs, c, d, tr.dirs, tabs2);
    if res != Ok { return; }
    ParentShown(t, Fat(fs), tr, m.ko, m.kn, m.from, e, tabs2, c);
  }

  lemma NoParent(t: FatType, tr: Tree, ko: Slot, kn: Slot, from: nat, e: DirEntry)
    requires IsSlot(tr, kn) && kn.dir < 0x1_0000_0000 && (!IsDir(e) || ko.dir == kn.dir)
    ensures TheMove(t, tr, ko, kn, from, e).sub < 0
  {
    hide IsDir, InfoFrom, StoreCluster;
  }

  /** The tree when a directory entry without a cluster could not be moved: both entries are there. */
  function Copied(t: FatType, tr: Tree, ko: Slot, kn: Slot, from: nat, e: DirEntry): Tree
    requires IsSlot(tr, kn) && kn.dir < 0x1_0000_0000
  {
    Attached(tr, kn, TheMove(t, tr, ko, kn, from, e).e, [])
  }

  lemma CopiedClaims(t: FatType, fat: seq<nat>, tr: Tree, ko: Slot, kn: Slot, from: nat, e: DirEntry)
    requires Claims(t, tr, []) && Exclusive(fat, tr, []) && ReadyToMove(t, tr, ko, kn, from, e)
    requires StartCluster(t, e) == 0
    ensures var tr' := Copied(t, tr, ko, kn, from, e);
      && Claims(t, tr', []) && Exclusive(fat, tr', [])
      && tr'.dirs == tr.dirs && tr'.tabs == Stored(tr.tabs, kn.dir, kn.idx, TheMove(t, tr, ko, kn, from, e).e)
  {
    hide Claims, Exclusive, InfoFrom, StoreCluster, IsObject, StartCluster;
    InfoKept(t, Ent(tr, kn), e);
    InfoIsObject(Ent(tr, kn), e);
    Attach(t, fat, tr, kn, TheMove(t, tr, ko, kn, from, e).e, []);
  }

  /** Remove the entries of the object that has been moved. */
  method RemoveOld(dp: Dir, ghost dirs: map<nat, seq<nat>>, ghost tabs: map<nat, seq<DirEntry>>) returns (res: FResult)
    requires Shows(dp.fs, dirs, tabs) && dp.sclust in dirs && dp.sclust in tabs && |dp.fn| == 12
    requires dp.index < |tabs[dp.sclust]| && (dp.lfnIdx == 0xFFFF || dp.lfnIdx <= dp.index)
    modifies dp.fs, dp.fs.win, dp`index, dp`clust, dp`sect, dp`dir, dp`chain
    ensures dp.fs.Valid() && dp.fs.Steady()
    ensures res == Ok ==>
      && dp.Valid() && !HasReserved(Fat(dp.fs)) && InfoApart(dp.fs.g) && Fat(dp.fs) == old(Fat(dp.fs))
      && Deleted(tabs[dp.sclust], dp.Table(), FirstOf(dp), old(dp.index)) && FirstOf(dp) == old(FirstOf(dp))
      && OnDisk(dp.fs.g, Fat(dp.fs), dp.fs.View(), dirs, tabs[dp.sclust := dp.Table()])
    ensures res == Ok || (res == DiskErr && dp.fs.faults > old(dp.fs.faults))
  {
    hide FatOf, OnVolume, HasReserved, IsTable, IsChain, StartsAt, CountKept, OnDisk, DirsApart, Entries, Deleted;
    ghost var tr := Tree(dirs, tabs, map[]);
    dp.chain := dirs[dp.sclust];
    ShownDir(dp.fs.g, Fat(dp.fs), dp.fs.View(), dirs, tabs, dp.sclust);
    ShownTable(dp.fs.g, Fat(dp.fs), dp.fs.View(), dirs, tabs, dp.sclust);
    res := RemoveEntries(dp, tr);
  }

  /** The new entry has been stored: set the parent, remove the old entry, and write everything back. */
  method MoveRest(djo: Dir, d: u32, e: DirEntry, ghost m: Move, ghost tr: Tree, ghost tabs2: map<nat, seq<DirEntry>>)
    returns (res: FResult, ghost tr': Tree)
    requires Shows(djo.fs, tr.dirs, tabs2) && m.ko == Slot(djo.sclust, djo.index) && m.kn.dir == d
    requires m.from == FirstOf(djo) && |djo.fn| == 12
    requires Claims(djo.fs.g.fsType, tr, []) && Exclusive(Fat(djo.fs), tr, [])
    requires ReadyToMove(djo.fs.g.fsType, tr, m.ko, m.kn, m.from, e)
    requires m == TheMove(djo.fs.g.fsType, tr, m.ko, m.kn, m.from, e) && tabs2 == Stored(tr.tabs, d, m.kn.idx, m.e)
    requires djo.lfnIdx == 0xFFFF || djo.lfnIdx <= djo.index
    modifies djo.fs, djo.fs.win, djo`index, djo`clust, djo`sect, djo`dir, djo`chain
    ensures djo.fs.faults >= old(djo.fs.faults)
    ensures djo.fs.faults == old(djo.fs.faults) ==>
      && Good(djo.fs, tr') && (res == Ok || res == IntErr) && Fat(djo.fs) == old(Fat(djo.fs))
      && (res == Ok ==> MoveFits(djo.fs.g.fsType, tr, m) && tr' == MovedTree(tr, m))
      && (res == IntErr ==>
           && tr' == Copied(djo.fs.g.fsType, tr, m.ko, m.kn, m.from, e)
           && IsDir(e) && StartCluster(djo.fs.g.fsType, e) == 0 && djo.sclust != d)
  {
    hide FatOf, OnVolume, HasReserved, IsTable, IsChain, StartsAt, CountKept, OnDisk, DirsApart, Entries, Deleted,
      Claims, Exclusive, IsObject, IsDir,
      TheMove, InfoFrom, MovedTree, MoveFits, Copied;
    ghost var t := djo.fs.g.fsType;
    tr' := tr;
    DirsHaveTables(t, tr, []);
    ReadyFits(t, Fat(djo.fs), tr, m.ko, m.kn, m.from, e);
    ghost var tabs3;
    res, tabs3 := LinkParent(djo.fs, djo.sclust, d, e, tr, m, tabs2);
    if res == IntErr {
      CopiedClaims(t, Fat(djo.fs), tr, m.ko, m.kn, m.from, e);
      tr' := Copied(t, tr, m.ko, m.kn, m.from, e);
      return;
    }
    if res != Ok { return; }
    res := RemoveOld(djo, tr.dirs, tabs3);
    if res != Ok { return; }
    FitsGood(t, tr, m);
    MoveShown(t, tr, m, tabs2, tabs3, djo.Table());
    MoveClaims(t, Fat(djo.fs), tr, m);
    tr' := MovedTree(tr, m);
    res := Finish(djo.fs, tr');
  }

  /** Object `ko` is a directory that goes into itself or below itself. */
  ghost predicate IntoItself(t: FatType, tr: Tree, ko: Slot, d: nat)
    requires IsSlot(tr, ko)
  {
    var c := StartCluster(t, Ent(tr, ko));
    DirAt(t, tr, ko, c) && InSubtree(tr, d, c)
  }

  /** What the answer says of moving object `ko` to directory `d`; `left` clusters are free after it. */
  ghost predicate MoveAnswer(t: FatType, tr: Tree, tr': Tree, left: nat, ko: Slot, d: nat, key: Key, name: seq<u16>,
                             upper: Upper, res: FResult)
    requires IsSlot(tr, ko) && d in tr.tabs && d in tr.dirs && d in tr'.tabs && d in tr'.dirs && |key.fn| == 12
  {
    match res
    case Ok =>
      && (exists j: nat :: Renamed(tr, tr', ko, Slot(d, j), upper) && Entered(tr'.tabs[d], key, |name|, upper, j))
      && (Connected(tr) ==> (Connected(tr') <==> !IntoItself(t, tr, ko, d)))
    case Denied =>
      && OnlyLonger(tr, tr', d) && NotEntered(tr.tabs[d], tr'.tabs[d], tr'.dirs[d], left, key, name, upper)
      && (Connected(tr) ==> Connected(tr'))
    case IntErr =>
      && IsDir(Ent(tr, ko)) && StartCluster(t, Ent(tr, ko)) == 0 && ko.dir != d && (Connected(tr) ==> Connected(tr'))
      && exists j: nat :: OnlyNew(tr.tabs[d], tr'.tabs[d], upper, j)
    case _ => false
  }

  /** What registering the new object means for the old one. */
  lemma OldStays(t: FatType, tr: Tree, tr1: Tree, upper: Upper, ko: Slot, kn: Slot, lfnIdx: u16)
    requires Claims(t, tr, []) && IsSlot(tr, ko) && IsObject(Ent(tr, ko)) && lfnIdx == LongTop(tr.tabs[ko.dir], ko.idx)
    requires kn.dir in tr.dirs && kn.dir in tr.tabs && kn.dir < 0x1_0000_0000
    requires kn.dir in tr1.dirs && kn.dir in tr1.tabs
    requires tr1 == WithTable(tr, kn.dir, tr1.dirs[kn.dir], tr1.tabs[kn.dir])
    requires TableGrows(t, tr.tabs[kn.dir], tr1.tabs[kn.dir])
    requires OnlyNew(tr.tabs[kn.dir], tr1.tabs[kn.dir], upper, kn.idx)
    requires IsObject(tr1.tabs[kn.dir][kn.idx]) && StartCluster(t, tr1.tabs[kn.dir][kn.idx]) == 0
    ensures ReadyToMove(t, tr1, ko, kn, if lfnIdx == 0xFFFF then ko.idx else lfnIdx, Ent(tr, ko))
  {
    hide Claims, IsHit, StartCluster, Tidy;
    var t0, t1 := tr.tabs[ko.dir], tr1.tabs[ko.dir];
    var from := if lfnIdx == 0xFFFF then ko.idx else lfnIdx as nat;
    forall i | from <= i < ko.idx
      ensures !IsShort(t1[i])
    {
      TopIsLong(t0, ko.idx, i);
    }
  }

  /** What is known when the new object has been registered. */
  ghost predicate NewRegistered(t: FatType, tr: Tree, tr1: Tree, ko: Slot, kn: Slot, from: nat, key: Key, n: nat,
      upper: Upper)
    requires |key.fn| == 12
  {
    && IsSlot(tr, ko) && kn.dir in tr.dirs && kn.dir in tr.tabs && kn.dir in tr1.dirs && kn.dir in tr1.tabs
    && ReadyToMove(t, tr1, ko, kn, from, Ent(tr, ko)) && Absent(tr.tabs[kn.dir], key, upper)
    && tr1 == WithTable(tr, kn.dir, tr1.dirs[kn.dir], tr1.tabs[kn.dir])
    && TableGrows(t, tr.tabs[kn.dir], tr1.tabs[kn.dir])
    && OnlyNew(tr.tabs[kn.dir], tr1.tabs[kn.dir], upper, kn.idx) && Entered(tr1.tabs[kn.dir], key, n, upper, kn.idx)
  }

  lemma MovedOk(t: FatType, fat: seq<nat>, fat1: seq<nat>, tr: Tree, tr1: Tree, ko: Slot, kn: Slot, from: nat,
                left: nat,
                key: Key, name: seq<u16>, upper: Upper)
    requires Claims(t, tr, []) && Exclusive(fat, tr, []) && Claims(t, tr1, []) && Exclusive(fat1, tr1, [])
    requires |key.fn| == 12
    requires NewRegistered(t, tr, tr1, ko, kn, from, key, |name|, upper)
    requires MoveFits(t, tr1, TheMove(t, tr1, ko, kn, from, Ent(tr, ko)))
    ensures var tr' := MovedTree(tr1, TheMove(t, tr1, ko, kn, from, Ent(tr, ko)));
      kn.dir in tr'.dirs && kn.dir in tr'.tabs && MoveAnswer(t, tr, tr', left, ko, kn.dir, key, name, upper, Ok)
  {
    hide Exclusive, Starting, Rooted, MoveFits, MovedTree, TableGrows, OnlyNew, Entered, Renamed, Absent, IsHit,
      Connected, IntoItself,
      InfoFrom, StoreCluster, IsObject, IsDir, Tidy, DotsFirst;
    var m := TheMove(t, tr1, ko, kn, from, Ent(tr, ko));
    DirsHaveTables(t, tr, []);
    FitsGood(t, tr1, m);
    MovedTables(t, tr1, m);
    IsRenamed(t, tr, tr1, m, upper);
    StaysFound(t, tr1, m, tr.tabs[kn.dir], key, |name|, upper);
    if Connected(tr) {
      MovedPaths(t, fat, fat1, tr, tr1, m);
    }
  }

  lemma MovedPaths(t: FatType, fat: seq<nat>, fat': seq<nat>, tr: Tree, tr1: Tree, m: Move)
    requires Claims(t, tr, []) && Exclusive(fat, tr, []) && Claims(t, tr1, []) && Exclusive(fat', tr1, [])
    requires MoveFits(t, tr1, m)
    requires m.kn.dir in tr.dirs && m.kn.dir in tr.tabs && TableGrows(t, tr.tabs[m.kn.dir], tr1.tabs[m.kn.dir])
    requires m.kn.dir in tr1.dirs && tr1 == WithTable(tr, m.kn.dir, tr1.dirs[m.kn.dir], tr1.tabs[m.kn.dir])
    requires Connected(tr) && IsSlot(tr, m.ko)
    ensures Connected(MovedTree(tr1, m)) <==> !IntoItself(t, tr, m.ko, m.kn.dir)
  {
    hide Claims, Exclusive, TableGrows, MoveFits, IsOwner, MovedTree, Within, DirAt;
    RenameConnected(t, fat, fat', tr, tr1, m, StartCluster(t, Ent(tr, m.ko)));
  }

  /** Without a cluster to move, the tree has a copy of the entry. */
  lemma MovedCopy(t: FatType, fat: seq<nat>, fat1: seq<nat>, tr: Tree, tr1: Tree, ko: Slot, kn: Slot, from: nat,
                  left: nat,
                  key: Key, name: seq<u16>, upper: Upper)
    requires Claims(t, tr, []) && Exclusive(fat, tr, []) && Claims(t, tr1, []) && Exclusive(fat1, tr1, [])
    requires |key.fn| == 12
    requires NewRegistered(t, tr, tr1, ko, kn, from, key, |name|, upper)
    requires forall l, x :: IsOwner(tr, l, x) ==> IsOwner(tr1, l, x)
    requires IsDir(Ent(tr, ko)) && StartCluster(t, Ent(tr, ko)) == 0 && ko.dir != kn.dir
    ensures var tr' := Copied(t, tr1, ko, kn, from, Ent(tr, ko));
      kn.dir in tr'.dirs && kn.dir in tr'.tabs && MoveAnswer(t, tr, tr', left, ko, kn.dir, key, name, upper, IntErr)
  {
    hide Exclusive, Claims, TableGrows, OnlyNew, Absent, IsHit, Connected, InfoFrom, StoreCluster, IsObject, IsDir,
      IsOwner, Attached, StartCluster;
    var e := Ent(tr, ko);
    var tr' := Copied(t, tr1, ko, kn, from, e);
    CopiedClaims(t, fat1, tr1, ko, kn, from, e);
    InfoKept(t, Ent(tr1, kn), e);
    InfoIsObject(Ent(tr1, kn), e);
    ObjectIsShort(Ent(tr1, kn));
    ObjectIsShort(InfoFrom(Ent(tr1, kn), e));
    StaysEntered(tr.tabs[kn.dir], tr1.tabs[kn.dir], InfoFrom(Ent(tr1, kn), e), kn.idx, key, |name|, upper);
    if Connected(tr) {
      CopyConnected(t, tr, tr1, kn, InfoFrom(Ent(tr1, kn), e));
    }
  }

  lemma CopyConnected(t: FatType, tr: Tree, tr1: Tree, kn: Slot, f: DirEntry)
    requires Connected(tr) && Claims(t, tr1, []) && tr1.dirs.Keys == tr.dirs.Keys && IsSlot(tr1, kn)
    requires IsObject(Ent(tr1, kn)) && StartCluster(t, Ent(tr1, kn)) == 0 && IsObject(f) && StartCluster(t, f) == 0
    requires forall l, x :: IsOwner(tr, l, x) ==> IsOwner(tr1, l, x)
    ensures Connected(Attached(tr1, kn, f, []))
  {
    hide IsOwner, IsObject, StartCluster, Starting, Rooted, GoodTables;
    AttachOwners(t, tr1, kn, f, []);
    ConnectedKept(tr, Attached(tr1, kn, f, []), -1);
  }

  lemma DeniedLonger(t: FatType, tr: Tree, tr1: Tree, d: nat, left: nat, ko: Slot, key: Key, name: seq<u16>,
                     upper: Upper)
    requires Claims(t, tr, []) && d in tr.dirs && d in tr.tabs && d in tr1.dirs && d in tr1.tabs && IsSlot(tr, ko)
    requires |key.fn| == 12
    requires tr1 == WithTable(tr, d, tr1.dirs[d], tr1.tabs[d]) && forall l, x :: IsOwner(tr, l, x) ==>
      IsOwner(tr1, l, x)
    requires NotEntered(tr.tabs[d], tr1.tabs[d], tr1.dirs[d], left, key, name, upper)
    ensures MoveAnswer(t, tr, tr1, left, ko, d, key, name, upper, Denied)
  {
    hide Claims, IsOwner, Connected;
    if Connected(tr) {
      ConnectedKept(tr, tr1, -1);
    }
  }

  /** Move the object of `djo`, whose entry is `e`, to the name in `djn`, which no object has. */
  method MoveTo(djo: Dir, djn: Dir, e: DirEntry, upper: Upper, ghost name: seq<u16>, ghost tr: Tree)
    returns (res: FResult, ghost tr': Tree)
    requires djo != djn && djn.fs == djo.fs && Good(djo.fs, tr) && Stands(djn, tr) && |djo.fn| == 12
    requires IsSlot(tr, Slot(djo.sclust, djo.index)) && e == Ent(tr, Slot(djo.sclust, djo.index)) && IsObject(e)
    requires djo.lfnIdx == LongTop(tr.tabs[djo.sclust], djo.index)
    requires ProperName(djn.fn, djn.lfn, name) && djn.withLfn && Absent(djn.Table(), KeyOf(djn), upper)
    modifies djo.fs, djo.fs.win, djo`index, djo`clust, djo`sect, djo`dir, djo`chain
    modifies djn`index, djn`clust, djn`sect, djn`dir, djn`chain, djn`lfnIdx, djn`fn, djn`withLfn
    ensures djo.fs.faults >= old(djo.fs.faults)
    ensures djo.fs.faults == old(djo.fs.faults) ==>
      && Good(djo.fs, tr') && djn.sclust in tr.tabs && djn.sclust in tr'.tabs && djn.sclust in tr'.dirs
      && MoveAnswer(djo.fs.g.fsType, tr, tr', FreeCount(Fat(djo.fs)), Slot(djo.sclust, old(djo.index)),
                    djn.sclust, old(KeyOf(djn)), name, upper, res)
  {
    hide FatOf, OnVolume, HasReserved, IsTable, IsChain, StartsAt, CountKept, OnDisk, DirsApart, Entries, PlaceOf,
      Claims, Exclusive, IsObject,
      Starting, Rooted, GoodTables, InfoFrom, MovedTree, MoveFits, Copied, MoveAnswer, TableGrows, OnlyNew, Entered,
      NotEntered, Absent, IsOwner,
      LongTop, ReadyToMove, HoldsName, Prepared;
    ghost var t, fat, ko := djo.fs.g.fsType, Fat(djo.fs), Slot(djo.sclust, djo.index);
    ghost var from, key := FirstOf(djo), KeyOf(djn);
    tr' := tr;
    DirsHaveTables(t, tr, []);
    NotLoose(t, tr, djn.sclust);
    ghost var tr1;
    res, tr1 := RegisterIn(djn, upper, name, tr, []);
    if res != Ok && res != Denied { return; }
    ghost var fat1, d, kn := Fat(djo.fs), djn.sclust, Slot(djn.sclust, djn.index);
    tr' := tr1;
    if res == Denied {
      DeniedLonger(t, tr, tr1, d, FreeCount(fat1), ko, key, name, upper);
      return;
    }
    TreeDirsApart(t, fat1, tr1, []);
    OldStays(t, tr, tr1, upper, ko, kn, djo.lfnIdx);
    ReadySlots(t, tr1, ko, kn, from, e);
    ghost var m := TheMove(t, tr1, ko, kn, from, e);
    MoveEntry(t, tr1, ko, kn, from, e);
    ghost var tabs2 := CopyInfo(djn, e, tr1);
    res, tr' := MoveRest(djo, djn.sclust, e, m, tr1, tabs2);
    if djo.fs.faults == old(djo.fs.faults) {
      if res == Ok {
        MovedOk(t, fat, fat1, tr, tr1, ko, kn, from, FreeCount(fat1), key, name, upper);
      } else {
        MovedCopy(t, fat, fat1, tr, tr1, ko, kn, from, FreeCount(fat1), key, name, upper);
      }
    }
  }

  lemma NotLoose(t: FatType, tr: Tree, d: nat)
    requires Claims(t, tr, []) && d in tr.dirs
    ensures d != 0 ==> tr.dirs[d] != []
  {
    hide Starting, GoodTables, HasOwner;
  }

  lemma ReadySlots(t: FatType, tr: Tree, ko: Slot, kn: Slot, from: nat, e: DirEntry)
    requires ReadyToMove(t, tr, ko, kn, from, e)
    ensures IsSlot(tr, ko) && IsSlot(tr, kn) && ko != kn
  {
  }

  lemma MoveEntry(t: FatType, tr: Tree, ko: Slot, kn: Slot, from: nat, e: DirEntry)
    requires IsSlot(tr, kn) && kn.dir < 0x1_0000_0000
    ensures var m := TheMove(t, tr, ko, kn, from, e);
      m.ko == ko && m.kn == kn && m.from == from && m.e == InfoFrom(Ent(tr, kn), e)
  {
    hide InfoFrom, StoreCluster, IsDir;
  }

  /** What the answer of f_rename says, of object `okey` in directory `s` and the new name `key` in directory `d`. */
  ghost predicate RenameAnswer(t: FatType, tr: Tree, tr': Tree, left: nat, s: nat, okey: Key, d: nat, key: Key,
      name: seq<u16>,
                               upper: Upper, res: FResult)
    requires s in tr.tabs && d in tr.tabs && d in tr.dirs && d in tr'.tabs && d in tr'.dirs && |key.fn| == 12
  {
    match res
    case NoFile => tr' == tr && Absent(tr.tabs[s], okey, upper)
    case Exist => tr' == tr && !Absent(tr.tabs[s], okey, upper) && !Absent(tr.tabs[d], key, upper)
    case _ =>
      && Absent(tr.tabs[d], key, upper)
      && exists j: nat ::
           && FirstHit(tr.tabs[s], okey, upper, j) && IsSlot(tr, Slot(s, j))
           && MoveAnswer(t, tr, tr', left, Slot(s, j), d, key, name, upper, res)
  }

  /** Rename the object with a name in directory `s` to another name in directory `d`. */
  method Rename(fs: Fatfs, s: u32, osn: seq<byte>, olfn: LfnBuf, ghost oname: seq<u16>,
                d: u32, sn: seq<byte>, lfn: LfnBuf, ghost name: seq<u16>, upper: Upper, ghost tr: Tree)
    returns (res: FResult, ghost tr': Tree)
    requires Good(fs, tr) && s in tr.dirs && d in tr.dirs && ProperName(osn, olfn, oname) && ProperName(sn, lfn, name)
    modifies fs, fs.win
    ensures fs.faults >= old(fs.faults)
    ensures fs.faults == old(fs.faults) ==>
      && Good(fs, tr') && s in tr.tabs && d in tr.tabs && d in tr'.tabs && d in tr'.dirs
      && RenameAnswer(fs.g.fsType, tr, tr', FreeCount(Fat(fs)), s, Key(osn, olfn, true),
                      d, Key(sn, lfn, true), name, upper, res)
  {
    hide FatOf, IsTable, OnVolume, HasReserved, IsChain, CountKept, Entries, PlaceOf, FreeBelow, OnDisk, Exclusive,
      Starting, Rooted,
      IsObject, MoveAnswer, FirstHit, Absent, SameSnap, LongTop, HoldsName, Tidy, DotsFirst;
    tr' := tr;
    DirsHaveTables(fs.g.fsType, tr, []);
    var djo;
    res, djo := FindObject(fs, s, osn, olfn, upper, tr);
    if res != Ok { return; }
    var e := EntryHere(djo);
    res, tr' := RenameFound(djo, e, d, sn, lfn, upper, name, tr);
  }

  /** Rename the object that has been found. */
  method RenameFound(djo: Dir, e: DirEntry, d: u32, sn: seq<byte>, lfn: LfnBuf, upper: Upper, ghost name: seq<u16>,
                     ghost tr: Tree)
    returns (res: FResult, ghost tr': Tree)
    requires Good(djo.fs, tr) && d in tr.dirs && d in tr.tabs && ProperName(sn, lfn, name) && |djo.fn| == 12
    requires IsSlot(tr, Slot(djo.sclust, djo.index)) && e == Ent(tr, Slot(djo.sclust, djo.index)) && IsObject(e)
    requires djo.lfnIdx == LongTop(tr.tabs[djo.sclust], djo.index)
    modifies djo.fs, djo.fs.win, djo`index, djo`clust, djo`sect, djo`dir, djo`chain
    ensures djo.fs.faults >= old(djo.fs.faults)
    ensures djo.fs.faults == old(djo.fs.faults) ==>
      && Good(djo.fs, tr') && d in tr'.tabs && d in tr'.dirs
      && (if res == Exist then tr' == tr && !Absent(tr.tabs[d], Key(sn, lfn, true), upper)
          else
            && Absent(tr.tabs[d], Key(sn, lfn, true), upper) && res != NoFile
            && MoveAnswer(djo.fs.g.fsType, tr, tr', FreeCount(Fat(djo.fs)), Slot(djo.sclust, old(djo.index)),
                          d, Key(sn, lfn, true), name, upper, res))
  {
    hide FatOf, IsTable, OnVolume, HasReserved, IsChain, CountKept, Entries, PlaceOf, FreeBelow, OnDisk, Claims,
      Exclusive,
      IsObject, MoveAnswer, FirstHit, Absent, SameSnap, LongTop, HoldsName;
    tr' := tr;
    var djn;
    res, djn := FindObject(djo.fs, d, sn, lfn, upper, tr);
    if res == Ok { return Exist, tr'; }
    if res != NoFile { return; }
    res, tr' := MoveTo(djo, djn, e, upper, name, tr);
    if djo.fs.faults == old(djo.fs.faults) {
      MoveNotThere(djo.fs.g.fsType, tr, tr', FreeCount(Fat(djo.fs)), Slot(djo.sclust, old(djo.index)),
                   d, Key(sn, lfn, true), name, upper, res);
    }
  }

  lemma MoveNotThere(t: FatType, tr: Tree, tr': Tree, left: nat, ko: Slot, d: nat, key: Key, name: seq<u16>,
                     upper: Upper, res: FResult)
    requires IsSlot(tr, ko) && d in tr.tabs && d in tr.dirs && d in tr'.tabs && d in tr'.dirs && |key.fn| == 12
    requires MoveAnswer(t, tr, tr', left, ko, d, key, name, upper, res)
    ensures res == Ok || res == Denied || res == IntErr
  {
  }

  // ---------- A directory moved into itself ----------

  /** A volume with one directory, "A", in cluster 2. */
  function LoopFat(): seq<nat> {
    [0xFFF8, 0xFFFF, 0xFFFF, 0]
  }

  function EntryA(): DirEntry {
    DirEntryOf(ZeroEntry()[0 := 0x41], 2, 0)
  }

  function LoopTables(b: DirEntry): map<nat, seq<DirEntry>> {
    map[0 := [EntryA(), ZeroEntry()],
        2 := [DirEntryOf(DotName(false), 2, 0), DirEntryOf(DotName(true), 0, 0), b, ZeroEntry()]]
  }

  /** The tree, with entry `b` as the third one of the directory. */
  function LoopTree(b: DirEntry): Tree {
    Tree(map[0 := [], 2 := [2]], LoopTables(b), map[Slot(0, 0) := [2]])
  }

  /** Entry "B" as it is registered, still without a cluster. */
  function EntryB(): DirEntry {
    ZeroEntry()[0 := 0x42]
  }

  lemma LoopEntries()
    ensures IsObject(EntryA()) && IsDir(EntryA()) && StartCluster(Fat16, EntryA()) == 2
    ensures IsObject(EntryB()) && StartCluster(Fat16, EntryB()) == 0
    ensures IsDot(DirEntryOf(DotName(false), 2, 0)) && IsDot(DirEntryOf(DotName(true), 0, 0))
    ensures !IsShort(ZeroEntry())
  {
    hide StoreCluster, St32;
    DirEntryFields(Fat16, ZeroEntry()[0 := 0x41], 2, 0);
    DirEntryFields(Fat16, DotName(false), 2, 0);
    DirEntryFields(Fat16, DotName(true), 0, 0);
  }

  lemma LoopClaims(b: DirEntry)
    requires b == ZeroEntry() || b == EntryB()
    ensures Claims(Fat16, LoopTree(b), []) && Exclusive(LoopFat(), LoopTree(b), [])
    ensures IsOwner(LoopTree(b), Slot(0, 0), 2)
  {
    hide IsObject, IsDir, IsDot, IsShort, StartCluster, DirEntryOf, GoodTables, HasOwner, Exclusive;
    LoopEntries();
    LoopGood(b);
    LoopExclusive(b);
    var tr := LoopTree(b);
    ZeroIsNone();
    assert HasOwner(tr, [], 2) by {
      LoopOwner(b);
    }
  }

  lemma ZeroIsNone()
    ensures !IsObject(ZeroEntry()) && forall e :: IsDot(e) ==> !IsObject(e)
  {
  }

  lemma LoopOwner(b: DirEntry)
    ensures HasOwner(LoopTree(b), [], 2)
  {
    hide IsObject, IsDot, IsShort, StartCluster, DirEntryOf;
    LoopEntries();
    var tr := LoopTree(b);
    assert Slot(0, 0) in tr.own && IsSlot(tr, Slot(0, 0));
  }

  lemma LoopGood(b: DirEntry)
    requires b == ZeroEntry() || b == EntryB()
    ensures GoodTables(LoopTree(b))
  {
    hide DirEntryOf, StartCluster;
    LoopEntries();
  }

  lemma LoopExclusive(b: DirEntry)
    ensures Exclusive(LoopFat(), LoopTree(b), [])
  {
    hide DirEntryOf, LoopTables;
    var tr, fat := LoopTree(b), LoopFat();
    assert IsChain(fat, [2]) && IsChain(fat, []);
    forall c | InRange(fat, c) && fat[c] != 0
      ensures Held(tr, [], c)
    {
      assert Slot(0, 0) in tr.own && c in tr.own[Slot(0, 0)];
    }
  }

  lemma LoopConnected()
    ensures Connected(LoopTree(ZeroEntry()))
  {
    hide DirEntryOf, LoopTables, IsOwner;
    LoopClaims(ZeroEntry());
    var tr := LoopTree(ZeroEntry());
    assert Within(tr, 0, 0, 0);
    assert Within(tr, Slot(0, 0).dir, 0, 0);
    assert Within(tr, 2, 0, 1);
  }

  lemma LoopReady()
    ensures ReadyToMove(Fat16, LoopTree(EntryB()), Slot(0, 0), Slot(2, 2), 0, EntryA())
    ensures TableGrows(Fat16, LoopTree(ZeroEntry()).tabs[2], LoopTree(EntryB()).tabs[2])
    ensures LoopTree(EntryB()) == WithTable(LoopTree(ZeroEntry()), 2, [2], LoopTree(EntryB()).tabs[2])
  {
    hide IsObject, IsDir, IsDot, IsShort, StartCluster, DirEntryOf, Tidy;
    LoopEntries();
    LoopGood(EntryB());
  }

  /**
    f_rename("A", "A/B"): each cluster still has its one owner, but directory A, which owns itself
    now, cannot be reached from the root any more.
  */
  lemma MovedIntoItself()
    ensures var tr, tr1 := LoopTree(ZeroEntry()), LoopTree(EntryB());
      && Claims(Fat16, tr, []) && Exclusive(LoopFat(), tr, []) && Connected(tr)
      && ReadyToMove(Fat16, tr1, Slot(0, 0), Slot(2, 2), 0, EntryA())
      && var tr' := MovedTree(tr1, TheMove(Fat16, tr1, Slot(0, 0), Slot(2, 2), 0, EntryA()));
      && Claims(Fat16, tr', []) && Exclusive(LoopFat(), tr', []) && !Connected(tr')
  {
    var tr, tr1, ko, kn := LoopTree(ZeroEntry()), LoopTree(EntryB()), Slot(0, 0), Slot(2, 2);
    LoopEntries();
    hide IsObject, IsDir, IsDot, IsShort, StartCluster, DirEntryOf, Exclusive, Claims, MovedTree, TheMove, MoveFits,
      IsOwner, EntryA, EntryB, Connected, TableGrows, ReadyToMove, IntoItself;
    LoopClaims(ZeroEntry());
    LoopClaims(EntryB());
    LoopConnected();
    LoopReady();
    ReadyFits(Fat16, LoopFat(), tr1, ko, kn, 0, EntryA());
    var m := TheMove(Fat16, tr1, ko, kn, 0, EntryA());
    MoveEntry(Fat16, tr1, ko, kn, 0, EntryA());
    FitsGood(Fat16, tr1, m);
    MoveClaims(Fat16, LoopFat(), tr1, m);
    MovedPaths(Fat16, LoopFat(), LoopFat(), tr, tr1, m);
    LoopIntoItself();
  }

  lemma LoopIntoItself()
    ensures IntoItself(Fat16, LoopTree(ZeroEntry()), Slot(0, 0), 2)
  {
    LoopEntries();
    hide IsObject, IsDir, StartCluster, EntryA;
    assert Within(LoopTree(ZeroEntry()), 2, 2, 0);
  }
}
