/**
  The ways from directories up to the root, and what moving a directory does to them.
*/
module TreePaths {
  import opened Volume
  import opened Chains
  import opened Lfn
  import opened Tree

  /** Entry `k` is the one that directory `s` is known by in its parent directory. */
  ghost predicate IsOwner(tr: Tree, k: Slot, s: nat) {
    s in tr.dirs && k in tr.own && IsSlot(tr, k) && tr.own[k] == tr.dirs[s] && IsDir(Ent(tr, k))
  }

  /** Directory `s` is directory `r`, or at most `n` levels below it. */
  ghost predicate Within(tr: Tree, s: nat, r: nat, n: nat)
    decreases n
  {
    s == r || (n > 0 && exists k :: IsOwner(tr, k, s) && Within(tr, k.dir, r, n - 1))
  }

  ghost predicate InSubtree(tr: Tree, s: nat, r: nat) {
    exists n: nat :: Within(tr, s, r, n)
  }

  /** Every directory is somewhere below the root. */
  ghost predicate Connected(tr: Tree) {
    forall s :: s in tr.dirs ==> InSubtree(tr, s, 0)
  }

  // ---------- Paths in trees with the same owners ----------

  lemma {:induction false} WithinMore(tr: Tree, s: nat, r: nat, n: nat, m: nat)
    requires Within(tr, s, r, n) && n <= m
    ensures Within(tr, s, r, m)
    decreases n
  {
    if s != r {
      var k :| IsOwner(tr, k, s) && Within(tr, k.dir, r, n - 1);
      WithinMore(tr, k.dir, r, n - 1, m - 1);
    }
  }

  /** A path stays where the owners along it stay. */
  lemma {:induction false} WithinKept(tr: Tree, tr': Tree, s: nat, n: nat, gone: int)
    requires Within(tr, s, 0, n) && s != gone
    requires forall k, d :: IsOwner(tr, k, d) && d != gone ==> IsOwner(tr', k, d) && k.dir != gone
    ensures Within(tr', s, 0, n)
    decreases n
  {
    if s != 0 {
      var k :| IsOwner(tr, k, s) && Within(tr, k.dir, 0, n - 1);
      WithinKept(tr, tr', k.dir, n - 1, gone);
      assert IsOwner(tr', k, s);
    }
  }

  /**
    All directories but `gone`, a negative number for none, stay below the root when their owners
    stay and none of these is in `gone`.
  */
  lemma ConnectedKept(tr: Tree, tr': Tree, gone: int)
    requires Connected(tr) && forall s :: s in tr'.dirs ==> s in tr.dirs && s != gone
    requires forall k, d :: IsOwner(tr, k, d) && d != gone ==> IsOwner(tr', k, d) && k.dir != gone
    ensures Connected(tr')
  {
    hide IsOwner, Within;
    forall s | s in tr'.dirs
      ensures InSubtree(tr', s, 0)
    {
      assert InSubtree(tr, s, 0);
      var n: nat :| Within(tr, s, 0, n);
      WithinKept(tr, tr', s, n, gone);
    }
  }

  /** A new directory below one that is there. */
  lemma ConnectedMore(tr: Tree, tr': Tree, r: nat, k: Slot)
    requires Connected(tr) && r !in tr.dirs && k.dir in tr.dirs && IsOwner(tr', k, r)
    requires forall s :: s in tr'.dirs ==> s in tr.dirs || s == r
    requires forall l, d :: IsOwner(tr, l, d) ==> IsOwner(tr', l, d) && l.dir != r
    ensures Connected(tr')
  {
    hide IsOwner;
    forall s | s in tr.dirs
      ensures InSubtree(tr', s, 0)
    {
      assert InSubtree(tr, s, 0);
      var n: nat :| Within(tr, s, 0, n);
      WithinKept(tr, tr', s, n, r);
    }
    var n: nat :| Within(tr', k.dir, 0, n);
    assert Within(tr', r, 0, n + 1);
  }

  // ---------- Moving a directory ----------

  /** The owners after directory `r` has been moved to entry `k`. */
  ghost predicate Moved(tr: Tree, tr': Tree, r: nat, k: Slot) {
    && tr'.dirs.Keys == tr.dirs.Keys && r in tr.dirs && r != 0 && k.dir in tr.dirs
    && (forall l, d :: IsOwner(tr', l, d) <==> if d == r then l == k else IsOwner(tr, l, d))
  }

  /** The root has no entry, and each directory one at most. */
  ghost predicate SingleOwners(tr: Tree) {
    && (forall k :: !IsOwner(tr, k, 0))
    && (forall k, l, d :: IsOwner(tr, k, d) && IsOwner(tr, l, d) ==> k == l)
    && (forall k, d :: IsOwner(tr, k, d) ==> k.dir in tr.dirs)
  }

  /** A path to the root that does not pass through the moved directory is as it was. */
  lemma {:induction false} PathAround(tr: Tree, tr': Tree, s: nat, n: nat, r: nat, k: Slot)
    requires Moved(tr, tr', r, k) && Within(tr, s, 0, n) && !InSubtree(tr, s, r)
    ensures Within(tr', s, 0, n)
    decreases n
  {
    hide IsOwner;
    NotBelow(tr, s, r);
    if s != 0 {
      var l :| IsOwner(tr, l, s) && Within(tr, l.dir, 0, n - 1);
      NotBelowParent(tr, s, r, l);
      PathAround(tr, tr', l.dir, n - 1, r, k);
      assert IsOwner(tr', l, s);
    }
  }

  lemma NotBelow(tr: Tree, s: nat, r: nat)
    requires !InSubtree(tr, s, r)
    ensures s != r
  {
    assert s == r ==> Within(tr, s, r, 0);
  }

  lemma NotBelowParent(tr: Tree, s: nat, r: nat, l: Slot)
    requires !InSubtree(tr, s, r) && IsOwner(tr, l, s)
    ensures !InSubtree(tr, l.dir, r)
  {
    hide IsOwner;
    forall n: nat
      ensures !Within(tr, l.dir, r, n)
    {
      assert !Within(tr, s, r, n + 1);
    }
  }

  /** Where the new parent can reach the root, so can everything that could before. */
  lemma {:induction false} PathThrough(tr: Tree, tr': Tree, s: nat, n: nat, r: nat, k: Slot, m: nat)
    requires Moved(tr, tr', r, k) && Within(tr, s, 0, n) && Within(tr', k.dir, 0, m)
    ensures InSubtree(tr', s, 0)
    decreases n
  {
    hide IsOwner;
    if s == 0 {
      assert Within(tr', s, 0, 0);
    } else if s == r {
      assert IsOwner(tr', k, s);
      assert Within(tr', s, 0, m + 1);
    } else {
      var l :| IsOwner(tr, l, s) && Within(tr, l.dir, 0, n - 1);
      PathThrough(tr, tr', l.dir, n - 1, r, k, m);
      var i: nat :| Within(tr', l.dir, 0, i);
      assert IsOwner(tr', l, s);
      assert Within(tr', s, 0, i + 1);
    }
  }

  /** A directory moved into its own subtree goes round in circles: nothing in the subtree reaches the root. */
  lemma {:induction false} PathRound(tr: Tree, tr': Tree, s: nat, i: nat, r: nat, k: Slot, j: nat, n: nat)
    requires Moved(tr, tr', r, k) && SingleOwners(tr) && Within(tr, s, r, i) && Within(tr, k.dir, r, j)
    ensures !Within(tr', s, 0, n)
    decreases n
  {
    RootIsTop(tr, r, s, i);
    if n > 0 {
      forall l | IsOwner(tr', l, s)
        ensures !Within(tr', l.dir, 0, n - 1)
      {
        if s == r {
          assert l == k;
          PathRound(tr, tr', k.dir, j, r, k, j, n - 1);
        } else {
          var o :| IsOwner(tr, o, s) && Within(tr, o.dir, r, i - 1);
          assert IsOwner(tr, l, s);
          assert o == l;
          PathRound(tr, tr', l.dir, i - 1, r, k, j, n - 1);
        }
      }
    }
  }

  lemma RootIsTop(tr: Tree, r: nat, s: nat, i: nat)
    requires SingleOwners(tr) && Within(tr, s, r, i) && r != 0
    ensures s != 0
  {
  }

  /**
    After a directory has been moved, every directory is still below the root exactly if the new
    parent is not the moved directory or below it.
  */
  lemma MoveConnected(tr: Tree, tr': Tree, r: nat, k: Slot)
    requires Moved(tr, tr', r, k) && SingleOwners(tr) && Connected(tr)
    ensures Connected(tr') <==> !InSubtree(tr, k.dir, r)
  {
    hide IsOwner, Within;
    if InSubtree(tr, k.dir, r) {
      var j: nat :| Within(tr, k.dir, r, j);
      forall n: nat
        ensures !Within(tr', k.dir, 0, n)
      {
        PathRound(tr, tr', k.dir, j, r, k, j, n);
      }
      assert !InSubtree(tr', k.dir, 0);
    } else {
      assert InSubtree(tr, k.dir, 0);
      var m: nat :| Within(tr, k.dir, 0, m);
      PathAround(tr, tr', k.dir, m, r, k);
      forall s | s in tr'.dirs
        ensures InSubtree(tr', s, 0)
      {
        assert InSubtree(tr, s, 0);
        var n: nat :| Within(tr, s, 0, n);
        PathThrough(tr, tr', s, n, r, k, m);
      }
    }
  }

  // ---------- Owners through the steps ----------

  /** In a tree whose chains are exclusive, a directory has one owner, and the root none. */
  lemma OwnersSingle(t: FatType, fat: seq<nat>, tr: Tree, loose: seq<nat>)
    requires Claims(t, tr, loose) && Exclusive(fat, tr, loose)
    ensures SingleOwners(tr)
  {
    hide Starting, GoodTables, HasOwner, IsDir;
    forall k | k in tr.own
      ensures tr.own[k] != tr.dirs[0]
    {
      OwnNotRoot(t, fat, tr, loose, k);
    }
    forall k, l, d | IsOwner(tr, k, d) && IsOwner(tr, l, d)
      ensures k == l
    {
      OwnNotRoot(t, fat, tr, loose, k);
      OneOwner(fat, tr, loose, k, l);
    }
  }

  lemma OwnNotRoot(t: FatType, fat: seq<nat>, tr: Tree, loose: seq<nat>, k: Slot)
    requires Starting(t, tr) && Exclusive(fat, tr, loose) && k in tr.own
    ensures tr.own[k] != [] && tr.own[k] != tr.dirs[0]
  {
    hide IsChain, Held;
    var c := tr.own[k][0];
    assert Disjoint(tr.own[k], tr.dirs[0]);
    assert c in tr.own[k];
  }

  lemma GrownOwners(t: FatType, tr: Tree, loose: seq<nat>, s: nat, chain: seq<nat>, u: seq<DirEntry>)
    requires Claims(t, tr, loose) && s in tr.dirs && tr.dirs[s] <= chain && TableGrows(t, tr.tabs[s], u)
    requires SingleOwners(tr)
    ensures forall k, d :: IsOwner(tr, k, d) ==> IsOwner(WithTable(tr, s, chain, u), k, d)
  {
    hide TableGrows, Starting, GoodTables, HasOwner, IsDir;
    GrowStarting(t, tr, s, chain, u);
    var tr' := WithTable(tr, s, chain, u);
    forall k, d | IsOwner(tr, k, d)
      ensures IsOwner(tr', k, d)
    {
      assert d != 0;
      assert d != s && s != 0 ==> tr.dirs[d] != tr.dirs[s];
    }
  }

  // ---------- Removing an object ----------

  /** The tree without the object at `k`, whose table has become `u`. */
  function Unlinked(t: FatType, tr: Tree, k: Slot, u: seq<DirEntry>): Tree
    requires IsSlot(tr, k)
  {
    var c := StartCluster(t, Ent(tr, k));
    if IsDir(Ent(tr, k)) && c != 0 then WithoutDir(Detached(tr, k, u), c) else Detached(tr, k, u)
  }

  /** The directory that goes with an object, or a number that is none. */
  function GoneDir(t: FatType, e: DirEntry): int {
    if IsDir(e) && StartCluster(t, e) != 0 then StartCluster(t, e) else -1
  }

  /** An object that is no directory owns the chain of none. */
  lemma FileChain(t: FatType, fat: seq<nat>, tr: Tree, k: Slot, d: nat)
    requires Claims(t, tr, []) && Exclusive(fat, tr, []) && k in tr.own && IsSlot(tr, k) && !IsDir(Ent(tr, k))
    requires d in tr.dirs
    ensures tr.dirs[d] != tr.own[k]
  {
    hide GoodTables, IsChain, Held, IsDir, Starting;
    OwnNotRoot(t, fat, tr, [], k);
    if d != 0 {
      assert HasOwner(tr, [], d);
      var l :| l in tr.own && IsSlot(tr, l) && tr.own[l] == tr.dirs[d] && IsDir(Ent(tr, l));
      assert l != k;
      assert tr.own[l] == tr.own[k] ==> Disjoint(tr.own[l], tr.own[k]);
      assert tr.own[k][0] in tr.own[k];
    }
  }

  /** A directory entry owns the chain of its directory. */
  lemma DirChain(t: FatType, fat: seq<nat>, tr: Tree, k: Slot)
    requires Claims(t, tr, []) && k in tr.own && IsSlot(tr, k) && IsDir(Ent(tr, k))
    ensures var c := StartCluster(t, Ent(tr, k)); c != 0 && c in tr.dirs && c in tr.tabs && tr.dirs[c] == tr.own[k]
  {
    hide GoodTables, HasOwner, IsDir, IsObject;
  }

  lemma UnlinkClaims(t: FatType, fat: seq<nat>, tr: Tree, k: Slot, u: seq<DirEntry>)
    requires Claims(t, tr, []) && Exclusive(fat, tr, [])
    requires IsSlot(tr, k) && IsObject(Ent(tr, k)) && Without(tr.tabs[k.dir], u, k.idx)
    requires var c := StartCluster(t, Ent(tr, k)); IsDir(Ent(tr, k)) && c != 0 && c in tr.tabs ==> NoObjects(tr.tabs[c])
    ensures Claims(t, Unlinked(t, tr, k, u), ChainOf(tr, k)) && Exclusive(fat, Unlinked(t, tr, k, u), ChainOf(tr, k))
    ensures ChainOf(tr, k) != [] ==>
      forall d :: d in Unlinked(t, tr, k, u).dirs ==> Unlinked(t, tr, k, u).dirs[d] != ChainOf(tr, k)
  {
    hide Starting, Rooted, GoodTables, Exclusive, IsObject, IsDir, StartCluster, Without, NoObjects;
    Detach(t, fat, tr, k, u);
    OwnsChain(t, tr, k);
    if k in tr.own {
      if IsDir(Ent(tr, k)) {
        var c := StartCluster(t, Ent(tr, k));
        DirChain(t, fat, tr, k);
        NotItself(tr, k, c);
        DropDir(t, fat, Detached(tr, k, u), ChainOf(tr, k), c);
      } else {
        forall d | d in tr.dirs
          ensures tr.dirs[d] != tr.own[k]
        {
          FileChain(t, fat, tr, k, d);
        }
      }
    }
  }

  lemma OwnsChain(t: FatType, tr: Tree, k: Slot)
    requires Starting(t, tr) && IsSlot(tr, k) && IsObject(Ent(tr, k))
    ensures k in tr.own <==> StartCluster(t, Ent(tr, k)) != 0
    ensures k in tr.own ==> tr.own[k] != [] && tr.own[k][0] == StartCluster(t, Ent(tr, k))
  {
  }

  lemma NotItself(tr: Tree, k: Slot, c: nat)
    requires IsSlot(tr, k) && IsObject(Ent(tr, k)) && c in tr.tabs && NoObjects(tr.tabs[c])
    ensures c != k.dir
  {
    hide IsObject;
  }

  /** No entry of an empty directory owns anything. */
  lemma EmptyOwnsNone(t: FatType, tr: Tree, l: Slot, c: nat)
    requires Starting(t, tr) && l in tr.own && c in tr.tabs && NoObjects(tr.tabs[c])
    ensures l.dir != c
  {
    hide IsObject;
    assert IsSlot(tr, l) && IsObject(Ent(tr, l));
  }

  lemma UnlinkConnected(t: FatType, fat: seq<nat>, tr: Tree, k: Slot, u: seq<DirEntry>)
    requires Claims(t, tr, []) && Exclusive(fat, tr, []) && Connected(tr)
    requires IsSlot(tr, k) && IsObject(Ent(tr, k)) && Without(tr.tabs[k.dir], u, k.idx)
    requires var c := StartCluster(t, Ent(tr, k)); IsDir(Ent(tr, k)) && c != 0 && c in tr.tabs ==> NoObjects(tr.tabs[c])
    ensures Connected(Unlinked(t, tr, k, u))
  {
    hide IsObject, IsDir, StartCluster, Without, NoObjects, Within, Exclusive, HasOwner, GoodTables;
    var tr', gone := Unlinked(t, tr, k, u), GoneDir(t, Ent(tr, k));
    OwnsChain(t, tr, k);
    forall l, d | IsOwner(tr, l, d) && d != gone
      ensures IsOwner(tr', l, d) && l.dir != gone
    {
      UnlinkOwner(t, fat, tr, k, u, l, d);
    }
    ConnectedKept(tr, tr', gone);
  }

  lemma UnlinkOwner(t: FatType, fat: seq<nat>, tr: Tree, k: Slot, u: seq<DirEntry>, l: Slot, d: nat)
    requires Claims(t, tr, []) && Exclusive(fat, tr, [])
    requires IsSlot(tr, k) && IsObject(Ent(tr, k)) && Without(tr.tabs[k.dir], u, k.idx)
    requires var c := StartCluster(t, Ent(tr, k)); IsDir(Ent(tr, k)) && c != 0 && c in tr.tabs ==> NoObjects(tr.tabs[c])
    requires IsOwner(tr, l, d) && d != GoneDir(t, Ent(tr, k))
    ensures IsOwner(Unlinked(t, tr, k, u), l, d) && l.dir != GoneDir(t, Ent(tr, k))
  {
    hide IsObject, IsDir, StartCluster, Without, NoObjects, Exclusive, HasOwner, GoodTables;
    var c := StartCluster(t, Ent(tr, k));
    OwnsChain(t, tr, k);
    DirChain(t, fat, tr, l);
    OwnerHead(t, fat, tr, l, d);
    assert l != k;
    OtherEntry(t, tr, k, u, l);
    if GoneDir(t, Ent(tr, k)) == c {
      DirChain(t, fat, tr, k);
      EmptyOwnsNone(t, tr, l, c);
    }
  }

  /** The start cluster of a directory's entry is the directory's number. */
  lemma OwnerHead(t: FatType, fat: seq<nat>, tr: Tree, l: Slot, d: nat)
    requires Claims(t, tr, []) && Exclusive(fat, tr, []) && IsOwner(tr, l, d)
    ensures d != 0 && d == StartCluster(t, Ent(tr, l))
  {
    hide GoodTables, HasOwner, IsObject;
    OwnNotRoot(t, fat, tr, [], l);
  }

  // ---------- New directories ----------

  lemma WithDirOwners(t: FatType, tr: Tree, r: nat, c: seq<nat>, tab: seq<DirEntry>)
    requires Starting(t, tr) && r !in tr.tabs && r !in tr.dirs
    ensures forall k, d :: IsOwner(tr, k, d) ==> IsOwner(WithDir(tr, r, c, tab), k, d) && k.dir != r
  {
    hide Starting, IsDir;
    forall k, d | IsOwner(tr, k, d)
      ensures IsOwner(WithDir(tr, r, c, tab), k, d) && k.dir != r
    {
      EntryStays(t, tr, r, c, tab, k);
    }
  }

  lemma AttachOwners(t: FatType, tr: Tree, k: Slot, e: DirEntry, loose: seq<nat>)
    requires Starting(t, tr) && IsSlot(tr, k) && IsObject(Ent(tr, k)) && StartCluster(t, Ent(tr, k)) == 0
    requires FitsChain(t, tr, e, loose)
    ensures forall l, d :: IsOwner(tr, l, d) ==> IsOwner(Attached(tr, k, e, loose), l, d)
    ensures loose != [] && IsDir(e) ==> IsOwner(Attached(tr, k, e, loose), k, loose[0])
  {
    hide Starting, IsDir, IsObject;
    var tr' := Attached(tr, k, e, loose);
    AttachStarting(t, tr, k, e, loose);
    forall l, d | IsOwner(tr, l, d)
      ensures IsOwner(tr', l, d)
    {
      assert l in tr'.own && tr'.own[l] == tr.own[l];
    }
    assert Ent(tr', k) == e;
  }

  lemma WithoutDirOwners(t: FatType, tr: Tree, s: nat)
    requires Starting(t, tr) && s in tr.tabs && NoObjects(tr.tabs[s])
    ensures forall k, d :: IsOwner(tr, k, d) && d != s ==> IsOwner(WithoutDir(tr, s), k, d)
  {
    hide Starting, IsDir, NoObjects;
    DropStarting(t, tr, s);
    forall k, d | IsOwner(tr, k, d) && d != s
      ensures IsOwner(WithoutDir(tr, s), k, d)
    {
      assert Ent(WithoutDir(tr, s), k) == Ent(tr, k);
    }
  }
}
