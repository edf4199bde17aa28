/**
  Who owns the clusters of a volume: every directory entry with a start cluster owns the chain
  from there on, and the root directory its own. Steps of the operations that move ownership.
*/
module Tree {
  import opened Bytes
  import opened Volume
  import opened Chains
  import opened Lfn
  import opened DirNames
  import opened DirTheory

  /** An entry of a table; tables go by the start cluster of their directory, 0 for the root. */
  datatype Slot = Slot(dir: nat, idx: nat)

  /** The directories' chains and tables, and the chains that entries own. */
  datatype Tree = Tree(dirs: map<nat, seq<nat>>, tabs: map<nat, seq<DirEntry>>, own: map<Slot, seq<nat>>)

  /** First cluster of an object; only FAT32 has the upper half of the number. */
  function StartCluster(t: FatType, e: DirEntry): nat {
    if t == Fat32 then Ld16(e, 26) + 0x1_0000 * Ld16(e, 20) else Ld16(e, 26)
  }

  predicate IsDir(e: DirEntry) {
    e[11] / 0x10 % 2 == 1
  }

  /** A file or directory, other than the dot entries. */
  predicate IsObject(e: DirEntry) {
    IsShort(e) && e[0] != DOT
  }

  predicate IsDot(e: DirEntry) {
    IsShort(e) && e[0] == DOT
  }

  ghost predicate NoObjects(t: seq<DirEntry>) {
    forall i :: 0 <= i < |t| ==> !IsObject(t[i])
  }

  predicate IsSlot(tr: Tree, k: Slot) {
    k.dir in tr.tabs && k.idx < |tr.tabs[k.dir]|
  }

  function Ent(tr: Tree, k: Slot): DirEntry
    requires IsSlot(tr, k)
  {
    tr.tabs[k.dir][k.idx]
  }

  /** Entries own the chains that begin with their start clusters, if they have one. */
  ghost predicate Starting(t: FatType, tr: Tree) {
    && (forall k :: k in tr.own ==> IsSlot(tr, k) && tr.own[k] != [] && tr.own[k][0] == StartCluster(t, Ent(tr, k)))
    && (forall k :: IsSlot(tr, k) ==> (k in tr.own <==> IsObject(Ent(tr, k)) && StartCluster(t, Ent(tr, k)) != 0))
  }

  /** The chain of directory `s` is that of a directory entry, or the one that is owned by no entry. */
  ghost predicate HasOwner(tr: Tree, loose: seq<nat>, s: nat)
    requires s in tr.dirs
  {
    tr.dirs[s] == loose || exists k :: k in tr.own && IsSlot(tr, k) && tr.own[k] == tr.dirs[s] && IsDir(Ent(tr, k))
  }

  /** Directories but the root have entries, and directory entries have directories. */
  ghost predicate Rooted(tr: Tree, loose: seq<nat>) {
    && tr.dirs.Keys == tr.tabs.Keys && 0 in tr.dirs
    && (forall s :: s in tr.dirs && s != 0 ==> tr.dirs[s] != [] && tr.dirs[s][0] == s && HasOwner(tr, loose, s))
    && (forall k :: k in tr.own && IsSlot(tr, k) && IsDir(Ent(tr, k)) ==>
         tr.own[k] != [] && tr.own[k][0] in tr.dirs && tr.own[k][0] != 0 && tr.dirs[tr.own[k][0]] == tr.own[k])
  }

  /** The table of a subdirectory begins with the two dot entries, and there are no other ones. */
  ghost predicate DotsFirst(t: seq<DirEntry>, sub: bool) {
    && (sub ==> |t| > 2)
    && forall i :: 0 <= i < |t| ==> (IsDot(t[i]) <==> sub && i < 2)
  }

  /** Tables are zero from their end on, and have dot entries where they belong. */
  ghost predicate GoodTables(tr: Tree) {
    forall s :: s in tr.tabs ==> Tidy(tr.tabs[s]) && DotsFirst(tr.tabs[s], s != 0)
  }

  ghost predicate Claims(t: FatType, tr: Tree, loose: seq<nat>) {
    Starting(t, tr) && Rooted(tr, loose) && GoodTables(tr)
  }

  /**
    Each allocated cluster belongs to the root directory, to one entry, or to the chain `loose`
    that no entry owns for the time being, and only to one of them.
  */
  ghost predicate Exclusive(fat: seq<nat>, tr: Tree, loose: seq<nat>) {
    && 0 in tr.dirs && IsChain(fat, tr.dirs[0]) && IsChain(fat, loose) && Disjoint(loose, tr.dirs[0])
    && (forall k :: k in tr.own ==>
         IsChain(fat, tr.own[k]) && Disjoint(tr.own[k], tr.dirs[0]) && Disjoint(tr.own[k], loose))
    && (forall k, l :: k in tr.own && l in tr.own && k != l ==> Disjoint(tr.own[k], tr.own[l]))
    && (forall c :: InRange(fat, c) && fat[c] != 0 ==> Held(tr, loose, c))
  }

  ghost predicate Held(tr: Tree, loose: seq<nat>, c: nat) {
    (0 in tr.dirs && c in tr.dirs[0]) || c in loose || exists k :: k in tr.own && c in tr.own[k]
  }

  // ---------- Taking a chain from its entry ----------

  /** Table `u` is table `t` without the object at `i`. */
  ghost predicate Without(t: seq<DirEntry>, u: seq<DirEntry>, i: nat) {
    && |u| == |t| && i < |t| && !IsShort(u[i]) && Tidy(u)
    && forall j :: 0 <= j < |t| && j != i && (IsShort(t[j]) || IsShort(u[j])) ==> u[j] == t[j]
  }

  function Detached(tr: Tree, k: Slot, u: seq<DirEntry>): Tree {
    tr.(tabs := tr.tabs[k.dir := u], own := tr.own - {k})
  }

  function ChainOf(tr: Tree, k: Slot): seq<nat> {
    if k in tr.own then tr.own[k] else []
  }

  lemma DetachStarting(t: FatType, tr: Tree, k: Slot, u: seq<DirEntry>)
    requires Starting(t, tr) && IsSlot(tr, k) && Without(tr.tabs[k.dir], u, k.idx)
    ensures Starting(t, Detached(tr, k, u))
  {
    var tr' := Detached(tr, k, u);
    forall l | IsSlot(tr', l)
      ensures IsSlot(tr, l)
      ensures l != k && (l in tr.own || IsObject(Ent(tr, l)) || IsObject(Ent(tr', l))) ==> Ent(tr', l) == Ent(tr, l)
    {
    }
  }

  /** Only one entry owns a given chain. */
  lemma OneOwner(fat: seq<nat>, tr: Tree, loose: seq<nat>, k: Slot, l: Slot)
    requires Exclusive(fat, tr, loose) && k in tr.own && l in tr.own && tr.own[k] == tr.own[l] != []
    ensures k == l
  {
    hide IsChain, Held;
    var c := tr.own[k][0];
    assert k != l ==> Disjoint(tr.own[k], tr.own[l]);
    assert c == tr.own[l][0];
  }

  lemma DetachRooted(t: FatType, tr: Tree, k: Slot, u: seq<DirEntry>)
    requires Rooted(tr, []) && Starting(t, tr) && IsSlot(tr, k) && Without(tr.tabs[k.dir], u, k.idx)
    ensures Rooted(Detached(tr, k, u), ChainOf(tr, k))
  {
    hide IsDir, IsDot, IsObject, StartCluster, Tidy, IsShort, HasOwner, Without, Starting;
    var tr', loose := Detached(tr, k, u), ChainOf(tr, k);
    assert tr'.dirs.Keys == tr'.tabs.Keys;
    forall l | l in tr'.own
      ensures IsSlot(tr, l) && IsSlot(tr', l) && Ent(tr', l) == Ent(tr, l)
    {
      OtherEntry(t, tr, k, u, l);
    }
    forall s | s in tr.dirs && s != 0
      ensures HasOwner(tr', loose, s)
    {
      DetachOwner(t, tr, k, u, s);
    }
  }

  /** The entries of other owners are as they were. */
  lemma OtherEntry(t: FatType, tr: Tree, k: Slot, u: seq<DirEntry>, l: Slot)
    requires Starting(t, tr) && IsSlot(tr, k) && Without(tr.tabs[k.dir], u, k.idx) && l in tr.own && l != k
    ensures IsSlot(tr, l) && IsSlot(Detached(tr, k, u), l) && Ent(Detached(tr, k, u), l) == Ent(tr, l)
  {
    assert IsSlot(tr, l);
  }

  lemma DetachOwner(t: FatType, tr: Tree, k: Slot, u: seq<DirEntry>, s: nat)
    requires Starting(t, tr) && IsSlot(tr, k) && Without(tr.tabs[k.dir], u, k.idx)
    requires s in tr.dirs && tr.dirs[s] != [] && HasOwner(tr, [], s)
    ensures HasOwner(Detached(tr, k, u), ChainOf(tr, k), s)
  {
    hide Starting, IsDir, Without;
    var tr' := Detached(tr, k, u);
    var l :| l in tr.own && IsSlot(tr, l) && tr.own[l] == tr.dirs[s] && IsDir(Ent(tr, l));
    if l != k {
      OtherEntry(t, tr, k, u, l);
      assert l in tr'.own;
    }
  }

  lemma DetachTables(tr: Tree, k: Slot, u: seq<DirEntry>)
    requires GoodTables(tr) && IsSlot(tr, k) && Without(tr.tabs[k.dir], u, k.idx) && IsObject(Ent(tr, k))
    ensures GoodTables(Detached(tr, k, u))
  {
    hide Tidy, IsShort;
  }

  lemma DetachExclusive(fat: seq<nat>, tr: Tree, k: Slot, u: seq<DirEntry>)
    requires Exclusive(fat, tr, []) && k.dir in tr.tabs
    ensures Exclusive(fat, Detached(tr, k, u), ChainOf(tr, k))
  {
    hide Held;
    var tr', loose := Detached(tr, k, u), ChainOf(tr, k);
    assert IsChain(fat, []);
    forall c | InRange(fat, c) && fat[c] != 0
      ensures Held(tr', loose, c)
    {
      assert Held(tr, [], c);
      DetachHeld(tr, k, u, c);
    }
    hide Disjoint, IsChain;
    assert k in tr.own ==> IsChain(fat, loose) && Disjoint(loose, tr.dirs[0]);
  }

  lemma DetachHeld(tr: Tree, k: Slot, u: seq<DirEntry>, c: nat)
    requires Held(tr, [], c) && k.dir in tr.tabs
    ensures Held(Detached(tr, k, u), ChainOf(tr, k), c)
  {
    var tr' := Detached(tr, k, u);
    if !(0 in tr.dirs && c in tr.dirs[0]) {
      var l :| l in tr.own && c in tr.own[l];
      assert l != k ==> l in tr'.own && tr'.own[l] == tr.own[l];
    }
  }

  /** Removing an object's entry leaves its chain owned by no entry. */
  lemma Detach(t: FatType, fat: seq<nat>, tr: Tree, k: Slot, u: seq<DirEntry>)
    requires Claims(t, tr, []) && Exclusive(fat, tr, [])
    requires IsSlot(tr, k) && IsObject(Ent(tr, k)) && Without(tr.tabs[k.dir], u, k.idx)
    ensures Claims(t, Detached(tr, k, u), ChainOf(tr, k)) && Exclusive(fat, Detached(tr, k, u), ChainOf(tr, k))
  {
    hide Starting, Rooted, GoodTables, Exclusive, Without, IsObject, Detached, ChainOf;
    DetachStarting(t, tr, k, u);
    DetachRooted(t, tr, k, u);
    DetachTables(tr, k, u);
    DetachExclusive(fat, tr, k, u);
  }

  // ---------- Chains that no entry owns ----------

  /** A free cluster taken from the FAT. */
  lemma Take(t: FatType, fat: seq<nat>, tr: Tree, r: nat, end: nat)
    requires Claims(t, tr, []) && Exclusive(fat, tr, []) && InRange(fat, r) && fat[r] == 0 && end >= |fat|
    ensures Claims(t, tr, [r]) && Exclusive(fat[r := end], tr, [r]) && r !in tr.dirs
  {
    hide Starting, GoodTables, Disjoint, IsChain, Held, IsDir;
    DirsAllocated(t, fat, tr, r);
    var fat' := fat[r := end];
    assert Rooted(tr, [r]) by {
      forall s | s in tr.dirs && s != 0
        ensures HasOwner(tr, [r], s)
      {
        assert HasOwner(tr, [], s);
      }
    }
    NewChain(fat', r);
    NotInChain(fat, tr.dirs[0], r);
    StaysChain(fat, fat', tr.dirs[0], r);
    forall k | k in tr.own
      ensures IsChain(fat', tr.own[k]) && Disjoint(tr.own[k], [r])
    {
      NotInChain(fat, tr.own[k], r);
      StaysChain(fat, fat', tr.own[k], r);
    }
    forall c | InRange(fat', c) && fat'[c] != 0
      ensures Held(tr, [r], c)
    {
      if c == r {
        HeldLoose(tr, [r], r);
      } else {
        assert Held(tr, [], c);
        HeldMore(tr, [], [r], c);
      }
    }
  }

  /** The first cluster of a directory is allocated. */
  lemma DirsAllocated(t: FatType, fat: seq<nat>, tr: Tree, s: nat)
    requires Claims(t, tr, []) && Exclusive(fat, tr, []) && s != 0
    ensures s in tr.dirs ==> IsChain(fat, tr.dirs[s]) && tr.dirs[s] != [] && InRange(fat, s) && fat[s] != 0
  {
    hide Starting, GoodTables, Disjoint, Held, IsDir;
    if s in tr.dirs {
      assert HasOwner(tr, [], s);
      ChainLinks(fat, tr.dirs[s], 0);
    }
  }

  lemma NewChain(fat: seq<nat>, r: nat)
    requires InRange(fat, r) && fat[r] >= |fat|
    ensures IsChain(fat, [r])
  {
  }

  /** A free cluster is in no chain. */
  lemma NotInChain(fat: seq<nat>, s: seq<nat>, r: nat)
    requires IsChain(fat, s) && InRange(fat, r) && fat[r] == 0
    ensures r !in s && Disjoint(s, [r]) && Disjoint([r], s)
  {
    forall i | 0 <= i < |s|
      ensures s[i] != r
    {
      ChainLinks(fat, s, i);
    }
  }

  lemma StaysChain(fat: seq<nat>, fat': seq<nat>, s: seq<nat>, r: nat)
    requires IsChain(fat, s) && r !in s && |fat'| == |fat| && forall c :: 0 <= c < |fat| && c != r ==> fat'[c] == fat[c]
    ensures IsChain(fat', s)
  {
    assert forall i :: 0 <= i < |s| ==> s[i] != r;
  }

  lemma HeldLoose(tr: Tree, loose: seq<nat>, c: nat)
    requires c in loose
    ensures Held(tr, loose, c)
  {
  }

  lemma HeldMore(tr: Tree, a: seq<nat>, b: seq<nat>, c: nat)
    requires Held(tr, a, c) && (c in a ==> c in b)
    ensures Held(tr, b, c)
  {
  }

  /** The clusters of a chain that no entry owns are freed. */
  lemma Give(t: FatType, fat: seq<nat>, fat': seq<nat>, tr: Tree, loose: seq<nat>)
    requires Claims(t, tr, loose) && Exclusive(fat, tr, loose) && IsChain(fat, loose) && CutTo(fat, fat', loose, 0)
    requires loose != [] ==> forall s :: s in tr.dirs ==> tr.dirs[s] != loose
    ensures Claims(t, tr, []) && Exclusive(fat', tr, [])
  {
    hide Starting, GoodTables, Held, IsDir, IsChain;
    CutChain(fat, fat', loose, 0);
    assert Rooted(tr, []) by {
      forall s | s in tr.dirs && s != 0
        ensures HasOwner(tr, [], s)
      {
        assert HasOwner(tr, loose, s);
      }
    }
    NothingIsChain(fat');
    OutsideChain(fat, fat', tr.dirs[0], loose);
    forall k | k in tr.own
      ensures IsChain(fat', tr.own[k])
    {
      OutsideChain(fat, fat', tr.own[k], loose);
    }
    forall c | InRange(fat', c) && fat'[c] != 0
      ensures Held(tr, [], c)
    {
      CutOff(fat, fat', loose, c);
      assert Held(tr, loose, c);
      HeldMore(tr, loose, [], c);
    }
  }

  lemma NothingIsChain(fat: seq<nat>)
    ensures IsChain(fat, [])
  {
  }

  lemma OutsideChain(fat: seq<nat>, fat': seq<nat>, s: seq<nat>, loose: seq<nat>)
    requires IsChain(fat, s) && (Disjoint(s, loose) || Disjoint(loose, s)) && SameOutside(fat, fat', loose)
    ensures IsChain(fat', s)
  {
    forall i | 0 <= i < |s|
      ensures fat'[s[i]] == fat[s[i]]
    {
      assert s[i] !in loose;
    }
  }

  lemma CutOff(fat: seq<nat>, fat': seq<nat>, loose: seq<nat>, c: nat)
    requires IsChain(fat, loose) && CutTo(fat, fat', loose, 0) && InRange(fat', c) && fat'[c] != 0
    ensures c !in loose && fat[c] == fat'[c]
  {
    assert loose[0..] == loose;
    CutZero(fat, fat', loose, c);
  }

  lemma CutZero(fat: seq<nat>, fat': seq<nat>, loose: seq<nat>, c: nat)
    requires IsChain(fat, loose) && CutTo(fat, fat', loose, 0) && InRange(fat', c)
    ensures c in loose ==> fat'[c] == 0
  {
    if c in loose {
      var i :| 0 <= i < |loose| && loose[i] == c;
      assert fat'[loose[i]] == 0;
    }
  }

  // ---------- New and empty directories ----------

  function WithDir(tr: Tree, r: nat, s: seq<nat>, tab: seq<DirEntry>): Tree {
    tr.(dirs := tr.dirs[r := s], tabs := tr.tabs[r := tab])
  }

  /** The table of a directory that is being made: it has no objects yet. */
  lemma NewDir(t: FatType, fat: seq<nat>, tr: Tree, r: nat, tab: seq<DirEntry>)
    requires Claims(t, tr, [r]) && Exclusive(fat, tr, [r]) && r != 0 && r !in tr.dirs && NoObjects(tab) && Tidy(tab)
    requires DotsFirst(tab, true)
    ensures Claims(t, WithDir(tr, r, [r], tab), [r]) && Exclusive(fat, WithDir(tr, r, [r], tab), [r])
  {
    var tr' := WithDir(tr, r, [r], tab);
    NewDirStarting(t, tr, r, [r], tab);
    NewDirRooted(t, tr, r, tab);
    hide Starting, Rooted, Disjoint, IsChain, Held;
    forall c | InRange(fat, c) && fat[c] != 0
      ensures Held(tr', [r], c)
    {
      assert Held(tr, [r], c);
      HeldSame(tr, tr', [r], c);
    }
  }

  lemma HeldSame(tr: Tree, tr': Tree, loose: seq<nat>, c: nat)
    requires Held(tr, loose, c) && tr'.own == tr.own && 0 in tr.dirs && 0 in tr'.dirs && tr'.dirs[0] == tr.dirs[0]
    ensures Held(tr', loose, c)
  {
  }

  lemma NewDirStarting(t: FatType, tr: Tree, r: nat, s: seq<nat>, tab: seq<DirEntry>)
    requires Starting(t, tr) && r !in tr.tabs && NoObjects(tab)
    ensures Starting(t, WithDir(tr, r, s, tab))
  {
    hide IsObject;
    var tr' := WithDir(tr, r, s, tab);
    forall k | IsSlot(tr', k)
      ensures k.dir != r ==> IsSlot(tr, k) && Ent(tr', k) == Ent(tr, k)
      ensures k.dir == r ==> k !in tr.own && !IsObject(Ent(tr', k))
    {
      assert k in tr.own ==> IsSlot(tr, k);
    }
    forall k | k in tr.own
      ensures IsSlot(tr', k) && Ent(tr', k) == Ent(tr, k)
    {
      assert IsSlot(tr, k);
    }
  }

  lemma NewDirRooted(t: FatType, tr: Tree, r: nat, tab: seq<DirEntry>)
    requires Rooted(tr, [r]) && Starting(t, tr) && r !in tr.dirs && r != 0
    ensures Rooted(WithDir(tr, r, [r], tab), [r])
  {
    hide IsDir, HasOwner, Starting;
    var tr' := WithDir(tr, r, [r], tab);
    assert tr'.dirs.Keys == tr'.tabs.Keys;
    forall k | k in tr.own
      ensures IsSlot(tr, k) && IsSlot(tr', k) && Ent(tr', k) == Ent(tr, k)
    {
      EntryStays(t, tr, r, [r], tab, k);
    }
    forall s | s in tr'.dirs && s != 0
      ensures HasOwner(tr', [r], s)
    {
      NewDirOwner(t, tr, r, tab, s);
    }
  }

  lemma EntryStays(t: FatType, tr: Tree, r: nat, c: seq<nat>, tab: seq<DirEntry>, k: Slot)
    requires Starting(t, tr) && r !in tr.tabs && k in tr.own
    ensures IsSlot(tr, k) && IsSlot(WithDir(tr, r, c, tab), k) && Ent(WithDir(tr, r, c, tab), k) == Ent(tr, k)
  {
    assert IsSlot(tr, k);
  }

  lemma NewDirOwner(t: FatType, tr: Tree, r: nat, tab: seq<DirEntry>, s: nat)
    requires Starting(t, tr) && r !in tr.tabs && r !in tr.dirs && (s == r || (s in tr.dirs && HasOwner(tr, [r], s)))
    ensures HasOwner(WithDir(tr, r, [r], tab), [r], s)
  {
    hide IsDir, Starting;
    var tr' := WithDir(tr, r, [r], tab);
    if s != r && tr.dirs[s] != [r] {
      var k :| k in tr.own && IsSlot(tr, k) && tr.own[k] == tr.dirs[s] && IsDir(Ent(tr, k));
      EntryStays(t, tr, r, [r], tab, k);
      assert k in tr'.own && tr'.own[k] == tr'.dirs[s];
    }
  }

  function WithoutDir(tr: Tree, s: nat): Tree {
    tr.(dirs := tr.dirs - {s}, tabs := tr.tabs - {s})
  }

  /** A directory without objects, whose chain no entry owns any more, is no directory. */
  lemma DropDir(t: FatType, fat: seq<nat>, tr: Tree, loose: seq<nat>, s: nat)
    requires Claims(t, tr, loose) && Exclusive(fat, tr, loose) && s != 0 && s in tr.dirs && tr.dirs[s] == loose
    requires s in tr.tabs && NoObjects(tr.tabs[s])
    ensures Claims(t, WithoutDir(tr, s), loose) && Exclusive(fat, WithoutDir(tr, s), loose)
    ensures forall d :: d in WithoutDir(tr, s).dirs ==> WithoutDir(tr, s).dirs[d] != loose
  {
    hide Disjoint, IsChain, Held, IsDir, IsObject, Starting, Rooted, GoodTables;
    var tr' := WithoutDir(tr, s);
    DropStarting(t, tr, s);
    DropRooted(t, fat, tr, loose, s);
    GoodWithout(tr, s);
    DropApart(fat, tr, loose, s);
    forall c | InRange(fat, c) && fat[c] != 0
      ensures Held(tr', loose, c)
    {
      assert Held(tr, loose, c);
      HeldSame(tr, tr', loose, c);
    }
  }

  lemma GoodWithout(tr: Tree, s: nat)
    requires GoodTables(tr)
    ensures GoodTables(WithoutDir(tr, s))
  {
  }

  lemma DropStarting(t: FatType, tr: Tree, s: nat)
    requires Starting(t, tr) && s in tr.tabs && NoObjects(tr.tabs[s])
    ensures Starting(t, WithoutDir(tr, s))
    ensures forall k :: k in tr.own ==> k.dir != s && IsSlot(WithoutDir(tr, s), k)
  {
    hide IsObject;
    var tr' := WithoutDir(tr, s);
    forall k | k in tr.own
      ensures k.dir != s && IsSlot(tr', k) && Ent(tr', k) == Ent(tr, k)
    {
      assert IsSlot(tr, k);
      assert IsObject(Ent(tr, k));
    }
    forall k | IsSlot(tr', k)
      ensures IsSlot(tr, k) && Ent(tr', k) == Ent(tr, k)
    {
    }
  }

  lemma DropRooted(t: FatType, fat: seq<nat>, tr: Tree, loose: seq<nat>, s: nat)
    requires Rooted(tr, loose) && Starting(t, tr) && Exclusive(fat, tr, loose) && s != 0 && s in tr.dirs
    requires tr.dirs[s] == loose
    requires s in tr.tabs && NoObjects(tr.tabs[s])
    ensures Rooted(WithoutDir(tr, s), loose)
  {
    hide Exclusive, IsDir, Starting, NoObjects, HasOwner;
    var tr' := WithoutDir(tr, s);
    DropStarting(t, tr, s);
    assert tr'.dirs.Keys == tr'.tabs.Keys;
    forall k | k in tr.own
      ensures IsSlot(tr', k) && IsSlot(tr, k) && Ent(tr', k) == Ent(tr, k) && tr.own[k] != loose
    {
      LooseApart(fat, tr, loose, k);
    }
    forall d | d in tr'.dirs && d != 0
      ensures HasOwner(tr', loose, d)
    {
      DropOwner(tr, loose, s, d);
    }
  }

  lemma DropOwner(tr: Tree, loose: seq<nat>, s: nat, d: nat)
    requires s in tr.dirs && s in tr.tabs && d in tr.dirs && d != s && HasOwner(tr, loose, d)
    requires forall k :: k in tr.own ==> k.dir != s && IsSlot(tr, k)
    ensures HasOwner(WithoutDir(tr, s), loose, d)
  {
    hide IsDir;
    var tr' := WithoutDir(tr, s);
    if tr.dirs[d] != loose {
      var k :| k in tr.own && IsSlot(tr, k) && tr.own[k] == tr.dirs[d] && IsDir(Ent(tr, k));
      assert k in tr'.own && IsSlot(tr', k) && Ent(tr', k) == Ent(tr, k);
    }
  }

  lemma LooseApart(fat: seq<nat>, tr: Tree, loose: seq<nat>, k: Slot)
    requires Exclusive(fat, tr, loose) && k in tr.own && loose != []
    ensures tr.own[k] != loose
  {
    hide IsChain, Held;
    assert Disjoint(tr.own[k], loose);
    assert loose[0] in loose;
  }

  lemma DropApart(fat: seq<nat>, tr: Tree, loose: seq<nat>, s: nat)
    requires Rooted(tr, loose) && Exclusive(fat, tr, loose) && s != 0 && s in tr.dirs && tr.dirs[s] == loose
    ensures forall d :: d in tr.dirs && d != s ==> tr.dirs[d] != loose
  {
    hide IsChain, Held, IsDir;
    assert loose[0] == s;
    assert Disjoint(loose, tr.dirs[0]);
  }

  // ---------- A table gets longer, or a new object ----------

  /** What was an object stays; what is one only now owns no cluster. */
  ghost predicate TableGrows(t: FatType, tab: seq<DirEntry>, u: seq<DirEntry>) {
    && |tab| <= |u| && Tidy(u)
    && (forall i :: 0 <= i < |tab| && IsShort(tab[i]) ==> u[i] == tab[i])
    && forall i :: 0 <= i < |u| && IsShort(u[i]) && !(i < |tab| && IsShort(tab[i])) ==>
      IsObject(u[i]) && StartCluster(t, u[i]) == 0
  }

  /** The chain has got longer by clusters that were free. */
  ghost predicate ChainGrows(fat: seq<nat>, fat': seq<nat>, s: seq<nat>, s': seq<nat>) {
    && s <= s' && IsChain(fat', s') && SameOutside(fat, fat', s')
    && forall c :: c in s' && c !in s ==> InRange(fat, c) && fat[c] == 0
  }

  function WithTable(tr: Tree, s: nat, chain: seq<nat>, u: seq<DirEntry>): Tree
    requires s in tr.dirs
  {
    Tree(tr.dirs[s := chain], tr.tabs[s := u],
         map k | k in tr.own :: if s != 0 && tr.own[k] == tr.dirs[s] then chain else tr.own[k])
  }

  lemma GrowStarting(t: FatType, tr: Tree, s: nat, chain: seq<nat>, u: seq<DirEntry>)
    requires Starting(t, tr) && s in tr.dirs && s in tr.tabs && tr.dirs[s] <= chain && TableGrows(t, tr.tabs[s], u)
    ensures Starting(t, WithTable(tr, s, chain, u))
    ensures forall k :: k in tr.own ==>
      IsSlot(tr, k) && IsSlot(WithTable(tr, s, chain, u), k) && Ent(WithTable(tr, s, chain, u), k) == Ent(tr, k)
  {
    hide Tidy, IsShort, IsDot;
    var tr' := WithTable(tr, s, chain, u);
    forall k | k in tr.own
      ensures IsSlot(tr, k) && IsSlot(tr', k) && Ent(tr', k) == Ent(tr, k) && tr'.own[k] != []
      ensures tr'.own[k][0] == tr.own[k][0]
    {
      assert IsSlot(tr, k);
      assert IsObject(Ent(tr, k));
    }
    forall k | IsSlot(tr', k) && k !in tr.own
      ensures !(IsObject(Ent(tr', k)) && StartCluster(t, Ent(tr', k)) != 0)
    {
      if IsSlot(tr, k) && IsObject(Ent(tr, k)) {
        assert Ent(tr', k) == Ent(tr, k);
      }
    }
  }

  lemma GrowRooted(t: FatType, tr: Tree, loose: seq<nat>, s: nat, chain: seq<nat>, u: seq<DirEntry>)
    requires Rooted(tr, loose) && Starting(t, tr) && s in tr.dirs && tr.dirs[s] <= chain && TableGrows(t, tr.tabs[s], u)
    requires s != 0 ==> tr.dirs[s] != loose
    ensures Rooted(WithTable(tr, s, chain, u), loose)
  {
    hide IsDir, Starting, TableGrows, HasOwner;
    var tr' := WithTable(tr, s, chain, u);
    GrowStarting(t, tr, s, chain, u);
    assert tr'.dirs.Keys == tr'.tabs.Keys;
    forall d | d in tr'.dirs && d != 0
      ensures HasOwner(tr', loose, d)
    {
      assert d != s ==> tr.dirs[d] != tr.dirs[s] || s == 0;
      GrowOwner(tr, loose, s, chain, u, d);
    }
  }

  lemma GrowOwner(tr: Tree, loose: seq<nat>, s: nat, chain: seq<nat>, u: seq<DirEntry>, d: nat)
    requires s in tr.dirs && d in tr.dirs && d != 0 && HasOwner(tr, loose, d) && (s != 0 ==> tr.dirs[s] != loose)
    requires d != s ==> tr.dirs[d] != tr.dirs[s] || s == 0
    requires forall k :: k in tr.own ==>
      IsSlot(tr, k) && IsSlot(WithTable(tr, s, chain, u), k) && Ent(WithTable(tr, s, chain, u), k) == Ent(tr, k)
    ensures HasOwner(WithTable(tr, s, chain, u), loose, d)
  {
    hide IsDir;
    var tr' := WithTable(tr, s, chain, u);
    if tr.dirs[d] != loose {
      var k :| k in tr.own && IsSlot(tr, k) && tr.own[k] == tr.dirs[d] && IsDir(Ent(tr, k));
      assert k in tr'.own && IsSlot(tr', k) && IsDir(Ent(tr', k));
      assert tr'.own[k] == tr'.dirs[d];
    }
  }

  lemma GrowTables(t: FatType, tr: Tree, s: nat, chain: seq<nat>, u: seq<DirEntry>)
    requires GoodTables(tr) && s in tr.dirs && s in tr.tabs && TableGrows(t, tr.tabs[s], u)
    ensures GoodTables(WithTable(tr, s, chain, u))
  {
    hide Tidy, IsShort, StartCluster;
  }

  /** A chain apart from the shorter one is apart from the longer one, whose new clusters were free. */
  lemma GrowApart(fat: seq<nat>, fat': seq<nat>, x: seq<nat>, s: seq<nat>, s': seq<nat>)
    requires IsChain(fat, x) && (Disjoint(x, s) || Disjoint(s, x)) && ChainGrows(fat, fat', s, s')
    ensures IsChain(fat', x) && Disjoint(x, s') && Disjoint(s', x)
  {
    forall i, j | 0 <= i < |x| && 0 <= j < |s'|
      ensures x[i] != s'[j]
    {
      ChainLinks(fat, x, i);
      assert s'[j] in s';
      if s'[j] in s {
        var l :| 0 <= l < |s| && s[l] == s'[j];
      }
    }
    forall i | 0 <= i < |x|
      ensures fat'[x[i]] == fat[x[i]]
    {
      assert x[i] !in s';
    }
  }

  /** The chain of a directory is the root's or that of one entry. */
  lemma DirOwner(tr: Tree, loose: seq<nat>, s: nat) returns (k: Slot)
    requires s in tr.dirs && s != 0 && HasOwner(tr, loose, s) && tr.dirs[s] != loose
    ensures k in tr.own && tr.own[k] == tr.dirs[s]
  {
    k :| k in tr.own && IsSlot(tr, k) && tr.own[k] == tr.dirs[s] && IsDir(Ent(tr, k));
  }

  lemma GrowHeld(tr: Tree, loose: seq<nat>, s: nat, chain: seq<nat>, u: seq<DirEntry>, c: nat)
    requires s in tr.dirs && 0 in tr.dirs && tr.dirs[s] <= chain && Held(tr, loose, c)
    ensures Held(WithTable(tr, s, chain, u), loose, c)
  {
    var tr' := WithTable(tr, s, chain, u);
    if c !in tr.dirs[0] && c !in loose {
      var k :| k in tr.own && c in tr.own[k];
      assert k in tr'.own && tr.own[k] <= tr'.own[k];
      Prefix(tr.own[k], tr'.own[k], c);
    } else if c in tr.dirs[0] {
      Prefix(tr.dirs[0], tr'.dirs[0], c);
    }
  }

  lemma Prefix(s: seq<nat>, t: seq<nat>, c: nat)
    requires s <= t && c in s
    ensures c in t
  {
    var i :| 0 <= i < |s| && s[i] == c;
    assert t[i] == c;
  }

  /** The root's table gets longer. */
  lemma GrowRoot(fat: seq<nat>, fat': seq<nat>, tr: Tree, loose: seq<nat>, chain: seq<nat>, u: seq<DirEntry>)
    requires Exclusive(fat, tr, loose) && ChainGrows(fat, fat', tr.dirs[0], chain)
    ensures Exclusive(fat', WithTable(tr, 0, chain, u), loose)
  {
    hide Disjoint, IsChain, ChainGrows, Held;
    var tr' := WithTable(tr, 0, chain, u);
    ChainGrown(fat, fat', tr.dirs[0], chain);
    GrowApart(fat, fat', loose, tr.dirs[0], chain);
    forall k | k in tr.own
      ensures IsChain(fat', tr.own[k]) && Disjoint(tr.own[k], chain)
    {
      GrowApart(fat, fat', tr.own[k], tr.dirs[0], chain);
    }
    forall c | InRange(fat', c) && fat'[c] != 0
      ensures Held(tr', loose, c)
    {
      GrowHolds(fat, fat', tr, loose, 0, chain, u, c);
    }
  }

  lemma ChainGrown(fat: seq<nat>, fat': seq<nat>, s: seq<nat>, s': seq<nat>)
    requires ChainGrows(fat, fat', s, s')
    ensures s <= s' && IsChain(fat', s') && |fat'| == |fat|
  {
  }

  lemma GrowHolds(fat: seq<nat>, fat': seq<nat>, tr: Tree, loose: seq<nat>, s: nat, chain: seq<nat>, u: seq<DirEntry>,
                  c: nat)
    requires Exclusive(fat, tr, loose) && s in tr.dirs && ChainGrows(fat, fat', tr.dirs[s], chain)
    requires InRange(fat', c) && fat'[c] != 0
    requires s == 0 || exists k :: k in tr.own && tr.own[k] == tr.dirs[s]
    ensures Held(WithTable(tr, s, chain, u), loose, c)
  {
    hide Disjoint, IsChain;
    var tr' := WithTable(tr, s, chain, u);
    if c in chain {
      if s != 0 {
        var k :| k in tr.own && tr.own[k] == tr.dirs[s];
        assert k in tr'.own && tr'.own[k] == chain;
      }
    } else {
      assert fat[c] == fat'[c];
      assert Held(tr, loose, c);
      GrowHeld(tr, loose, s, chain, u, c);
    }
  }

  /** The table of a subdirectory gets longer. */
  lemma GrowSub(fat: seq<nat>, fat': seq<nat>, tr: Tree, loose: seq<nat>, s: nat, k0: Slot, chain: seq<nat>,
                u: seq<DirEntry>)
    requires Exclusive(fat, tr, loose) && s != 0 && s in tr.dirs && tr.dirs[s] != []
    requires k0 in tr.own && tr.own[k0] == tr.dirs[s] && ChainGrows(fat, fat', tr.dirs[s], chain)
    ensures Exclusive(fat', WithTable(tr, s, chain, u), loose)
  {
    hide Disjoint, IsChain, ChainGrows, Held;
    var tr' := WithTable(tr, s, chain, u);
    ChainGrown(fat, fat', tr.dirs[s], chain);
    GrowApart(fat, fat', loose, tr.dirs[s], chain);
    GrowApart(fat, fat', tr.dirs[0], tr.dirs[s], chain);
    forall k | k in tr.own && k != k0
      ensures tr.own[k] != tr.dirs[s] && IsChain(fat', tr.own[k]) && Disjoint(tr.own[k], chain)
      ensures Disjoint(chain, tr.own[k])
    {
      if tr.own[k] == tr.dirs[s] {
        OneOwner(fat, tr, loose, k, k0);
      }
      GrowApart(fat, fat', tr.own[k], tr.dirs[s], chain);
    }
    forall c | InRange(fat', c) && fat'[c] != 0
      ensures Held(tr', loose, c)
    {
      GrowHolds(fat, fat', tr, loose, s, chain, u, c);
    }
  }

  /** A table gets longer, or gets a new object without clusters. */
  lemma Grow(t: FatType, fat: seq<nat>, fat': seq<nat>, tr: Tree, loose: seq<nat>, s: nat, chain: seq<nat>,
             u: seq<DirEntry>)
    requires Claims(t, tr, loose) && Exclusive(fat, tr, loose) && s in tr.dirs && (s != 0 ==> tr.dirs[s] != loose)
    requires s in tr.tabs && TableGrows(t, tr.tabs[s], u) && ChainGrows(fat, fat', tr.dirs[s], chain)
    ensures Claims(t, WithTable(tr, s, chain, u), loose) && Exclusive(fat', WithTable(tr, s, chain, u), loose)
  {
    hide Exclusive, Starting, GoodTables, TableGrows, ChainGrows, HasOwner, WithTable;
    ChainGrown(fat, fat', tr.dirs[s], chain);
    GrowStarting(t, tr, s, chain, u);
    GrowRooted(t, tr, loose, s, chain, u);
    GrowTables(t, tr, s, chain, u);
    if s == 0 {
      GrowRoot(fat, fat', tr, loose, chain, u);
    } else {
      var k := DirOwner(tr, loose, s);
      GrowSub(fat, fat', tr, loose, s, k, chain, u);
    }
  }

  // ---------- Giving a chain to an entry ----------

  function Attached(tr: Tree, k: Slot, e: DirEntry, loose: seq<nat>): Tree
    requires IsSlot(tr, k)
  {
    var u: seq<DirEntry> := tr.tabs[k.dir][k.idx := e];
    tr.(tabs := tr.tabs[k.dir := u], own := if loose == [] then tr.own else tr.own[k := loose])
  }

  /**
    Entry `e` is made for the chain: it has its start cluster, and is a directory entry if it is one
    of a directory.
  */
  ghost predicate FitsChain(t: FatType, tr: Tree, e: DirEntry, loose: seq<nat>) {
    && IsObject(e) && StartCluster(t, e) == (if loose == [] then 0 else loose[0])
    && (loose != [] ==> loose[0] != 0 && (IsDir(e) <==> loose[0] in tr.dirs && tr.dirs[loose[0]] == loose))
  }

  lemma AttachStarting(t: FatType, tr: Tree, k: Slot, e: DirEntry, loose: seq<nat>)
    requires Starting(t, tr) && IsSlot(tr, k) && IsObject(Ent(tr, k)) && StartCluster(t, Ent(tr, k)) == 0
    requires FitsChain(t, tr, e, loose)
    ensures Starting(t, Attached(tr, k, e, loose)) && k !in tr.own
    ensures forall l :: l in tr.own ==>
      IsSlot(tr, l) && IsSlot(Attached(tr, k, e, loose), l) && Ent(Attached(tr, k, e, loose), l) == Ent(tr, l)
  {
    hide IsObject, IsDir, StartCluster;
    var tr' := Attached(tr, k, e, loose);
    forall l | l in tr.own
      ensures l != k && IsSlot(tr, l) && IsSlot(tr', l) && Ent(tr', l) == Ent(tr, l)
    {
      assert IsSlot(tr, l);
    }
    forall l | IsSlot(tr', l) && l != k
      ensures IsSlot(tr, l) && Ent(tr', l) == Ent(tr, l)
    {
    }
    assert Ent(tr', k) == e;
  }

  lemma AttachOwner(t: FatType, tr: Tree, k: Slot, e: DirEntry, loose: seq<nat>, s: nat)
    requires Starting(t, tr) && IsSlot(tr, k) && IsObject(Ent(tr, k)) && StartCluster(t, Ent(tr, k)) == 0
    requires FitsChain(t, tr, e, loose)
    requires s in tr.dirs && tr.dirs[s] != [] && tr.dirs[s][0] == s && HasOwner(tr, loose, s)
    ensures HasOwner(Attached(tr, k, e, loose), [], s)
  {
    hide IsDir, Starting, StartCluster, IsObject;
    var tr' := Attached(tr, k, e, loose);
    AttachStarting(t, tr, k, e, loose);
    if tr.dirs[s] == loose {
      assert k in tr'.own && IsSlot(tr', k) && Ent(tr', k) == e && IsDir(e);
    } else {
      var l :| l in tr.own && IsSlot(tr, l) && tr.own[l] == tr.dirs[s] && IsDir(Ent(tr, l));
      assert l in tr'.own && IsSlot(tr', l) && tr'.own[l] == tr.own[l];
    }
  }

  lemma AttachRooted(t: FatType, tr: Tree, k: Slot, e: DirEntry, loose: seq<nat>)
    requires Rooted(tr, loose) && Starting(t, tr)
    requires IsSlot(tr, k) && IsObject(Ent(tr, k)) && StartCluster(t, Ent(tr, k)) == 0 && FitsChain(t, tr, e, loose)
    ensures Rooted(Attached(tr, k, e, loose), [])
  {
    hide IsDir, Starting, StartCluster, IsObject, HasOwner;
    var tr' := Attached(tr, k, e, loose);
    AttachStarting(t, tr, k, e, loose);
    assert tr'.dirs.Keys == tr'.tabs.Keys;
    assert Ent(tr', k) == e;
    forall s | s in tr.dirs && s != 0
      ensures HasOwner(tr', [], s)
    {
      AttachOwner(t, tr, k, e, loose, s);
    }
  }

  lemma AttachTables(t: FatType, tr: Tree, k: Slot, e: DirEntry, loose: seq<nat>)
    requires GoodTables(tr) && IsSlot(tr, k) && IsObject(Ent(tr, k)) && IsObject(e)
    ensures GoodTables(Attached(tr, k, e, loose))
  {
    var tab := tr.tabs[k.dir];
    assert Tidy(tab[k.idx := e]) by {
      UsedBelow(tab, k.idx);
    }
  }

  lemma AttachExclusive(fat: seq<nat>, tr: Tree, k: Slot, e: DirEntry, loose: seq<nat>)
    requires Exclusive(fat, tr, loose) && IsSlot(tr, k) && k !in tr.own
    ensures Exclusive(fat, Attached(tr, k, e, loose), [])
  {
    hide IsChain, Held;
    var tr' := Attached(tr, k, e, loose);
    NothingIsChain(fat);
    forall c | InRange(fat, c) && fat[c] != 0
      ensures Held(tr', [], c)
    {
      assert Held(tr, loose, c);
      AttachHeld(tr, k, e, loose, c);
    }
  }

  lemma AttachHeld(tr: Tree, k: Slot, e: DirEntry, loose: seq<nat>, c: nat)
    requires Held(tr, loose, c) && IsSlot(tr, k) && k !in tr.own
    ensures Held(Attached(tr, k, e, loose), [], c)
  {
    var tr' := Attached(tr, k, e, loose);
    if c in loose {
      assert k in tr'.own && tr'.own[k] == loose;
    } else if !(0 in tr.dirs && c in tr.dirs[0]) {
      var l :| l in tr.own && c in tr.own[l];
      assert l in tr'.own && tr'.own[l] == tr.own[l];
    }
  }

  /** An object without clusters gets the chain that no entry owns. */
  lemma Attach(t: FatType, fat: seq<nat>, tr: Tree, k: Slot, e: DirEntry, loose: seq<nat>)
    requires Claims(t, tr, loose) && Exclusive(fat, tr, loose)
    requires IsSlot(tr, k) && IsObject(Ent(tr, k)) && StartCluster(t, Ent(tr, k)) == 0 && FitsChain(t, tr, e, loose)
    ensures Claims(t, Attached(tr, k, e, loose), []) && Exclusive(fat, Attached(tr, k, e, loose), [])
  {
    hide Starting, Rooted, GoodTables, Exclusive, Attached;
    AttachStarting(t, tr, k, e, loose);
    AttachRooted(t, tr, k, e, loose);
    AttachTables(t, tr, k, e, loose);
    AttachExclusive(fat, tr, k, e, loose);
  }

  // ---------- The dot entries ----------

  function DotSet(tr: Tree, s: nat, e: DirEntry): Tree
    requires s in tr.tabs && |tr.tabs[s]| > 1
  {
    var u: seq<DirEntry> := tr.tabs[s][1 := e];
    tr.(tabs := tr.tabs[s := u])
  }

  /** The entry for the parent directory owns nothing. */
  lemma ParentSet(t: FatType, fat: seq<nat>, tr: Tree, loose: seq<nat>, s: nat, e: DirEntry)
    requires Claims(t, tr, loose) && Exclusive(fat, tr, loose) && s != 0 && s in tr.tabs && |tr.tabs[s]| > 1 && IsDot(e)
    ensures Claims(t, DotSet(tr, s, e), loose) && Exclusive(fat, DotSet(tr, s, e), loose)
  {
    hide Starting, Rooted, GoodTables, IsChain, Disjoint, Held, IsDot, DotSet;
    ParentStarting(t, tr, s, e);
    ParentRooted(tr, loose, s, e);
    ParentTables(tr, s, e);
    ParentExclusive(fat, tr, loose, s, e);
  }

  lemma ParentStarting(t: FatType, tr: Tree, s: nat, e: DirEntry)
    requires Starting(t, tr) && GoodTables(tr) && s != 0 && s in tr.tabs && |tr.tabs[s]| > 1 && IsDot(e)
    ensures Starting(t, DotSet(tr, s, e))
    ensures forall k :: k in tr.own ==>
      IsSlot(tr, k) && IsSlot(DotSet(tr, s, e), k) && Ent(DotSet(tr, s, e), k) == Ent(tr, k)
  {
    hide StartCluster, Tidy, IsShort;
    var tr' := DotSet(tr, s, e);
    forall k | IsSlot(tr', k)
      ensures IsSlot(tr, k) && (Ent(tr', k) == Ent(tr, k) || (!IsObject(Ent(tr', k)) && !IsObject(Ent(tr, k))))
    {
    }
    forall k | k in tr.own
      ensures IsSlot(tr, k) && IsSlot(tr', k) && Ent(tr', k) == Ent(tr, k)
    {
      assert IsSlot(tr, k) && IsObject(Ent(tr, k));
    }
  }

  lemma ParentTables(tr: Tree, s: nat, e: DirEntry)
    requires GoodTables(tr) && s != 0 && s in tr.tabs && |tr.tabs[s]| > 1 && IsDot(e)
    ensures GoodTables(DotSet(tr, s, e))
  {
    var tab := tr.tabs[s];
    assert Tidy(tab[1 := e]) by {
      UsedBelow(tab, 1);
    }
  }

  lemma ParentExclusive(fat: seq<nat>, tr: Tree, loose: seq<nat>, s: nat, e: DirEntry)
    requires Exclusive(fat, tr, loose) && s in tr.tabs && |tr.tabs[s]| > 1
    ensures Exclusive(fat, DotSet(tr, s, e), loose)
  {
    hide IsChain, Disjoint, Held;
    var tr' := DotSet(tr, s, e);
    forall c | InRange(fat, c) && fat[c] != 0
      ensures Held(tr', loose, c)
    {
      assert Held(tr, loose, c);
      HeldSame(tr, tr', loose, c);
    }
  }

  lemma ParentRooted(tr: Tree, loose: seq<nat>, s: nat, e: DirEntry)
    requires Rooted(tr, loose) && s in tr.tabs && |tr.tabs[s]| > 1
    requires forall k :: k in tr.own ==>
      IsSlot(tr, k) && IsSlot(DotSet(tr, s, e), k) && Ent(DotSet(tr, s, e), k) == Ent(tr, k)
    ensures Rooted(DotSet(tr, s, e), loose)
  {
    hide IsDir, HasOwner;
    var tr' := DotSet(tr, s, e);
    assert tr'.dirs.Keys == tr'.tabs.Keys;
    forall d | d in tr.dirs && d != 0
      ensures HasOwner(tr', loose, d)
    {
      ParentOwner(tr, loose, s, e, d);
    }
  }

  lemma ParentOwner(tr: Tree, loose: seq<nat>, s: nat, e: DirEntry, d: nat)
    requires s in tr.tabs && |tr.tabs[s]| > 1 && d in tr.dirs && HasOwner(tr, loose, d)
    requires forall k :: k in tr.own ==>
      IsSlot(tr, k) && IsSlot(DotSet(tr, s, e), k) && Ent(DotSet(tr, s, e), k) == Ent(tr, k)
    ensures HasOwner(DotSet(tr, s, e), loose, d)
  {
    hide IsDir;
  }
}
