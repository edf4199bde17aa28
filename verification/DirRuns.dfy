/**
  Runs on a directory: objects are created and removed by name, as often as one likes.
*/
module DirRuns {
  import opened Bytes
  import opened Volume
  import opened FatCodec
  import opened Chains
  import opened Allocator
  import opened FileLayout
  import opened Lfn
  import opened DirTable
  import opened Directories
  import opened DirNames
  import opened DirSearch
  import opened DirChange
  import opened DirTheory

  /** Create or remove the object with a name, given in its short and its long form. */
  datatype Op = Op(create: bool, sn: seq<byte>, lfn: LfnBuf, name: seq<u16>)

  ghost predicate GoodOp(op: Op) {
    Prepared(op.sn) && HoldsName(op.lfn, op.name)
  }

  /** What always holds of a directory table. */
  ghost predicate GoodTable(t: seq<DirEntry>) {
    Tidy(t) && NamesDiffer(t)
  }

  /** A directory between two operations: its table and chain, and the FAT. */
  datatype State = State(table: seq<DirEntry>, chain: seq<nat>, fat: seq<nat>)

  ghost function StateOf(dp: Dir): State
    requires dp.Valid()
    reads dp, dp.fs, dp.fs.win
  {
    State(dp.Table(), dp.chain, Fat(dp.fs))
  }

  /** One object more, or one less; all other objects are found as before. */
  ghost predicate Done(a: State, b: State, op: Op, res: FResult, upper: Upper) {
    var key, t, u := Key(op.sn, op.lfn, true), a.table, b.table;
    && |op.sn| == 12
    && match res
       case Ok =>
         if op.create then
           Absent(t, key, upper) && exists j: nat :: OnlyNew(t, u, upper, j) && Entered(u, key, |op.name|, upper, j)
         else
           exists j: nat :: FirstHit(t, key, upper, j) && OnlyGone(t, u, upper, j)
       case NoFile => !op.create && u == t && Absent(t, key, upper)
       case Denied =>
         && op.create
         && ((u == t && !Absent(t, key, upper)) || NotEntered(t, u, b.chain, FreeCount(b.fat), key, op.name, upper))
       case _ => false
  }

  /** The object at entry `j` is gone, and all others are where they were. */
  ghost predicate OnlyGone(t: seq<DirEntry>, u: seq<DirEntry>, upper: Upper, j: nat) {
    && |u| == |t|
    && forall key: Key, i: nat :: i < |t| ==> (IsHit(u, key, upper, i) <==> i != j && IsHit(t, key, upper, i))
  }

  lemma Gone(t: seq<DirEntry>, u: seq<DirEntry>, upper: Upper, j: nat)
    requires j < |t| && IsShort(t[j])
    requires Deleted(t, u, if LongTop(t, j) == 0xFFFF then j else LongTop(t, j), j)
    ensures OnlyGone(t, u, upper, j)
  {
    hide LongTop, IsHit;
    forall key: Key, i: nat | i < |t|
      ensures IsHit(u, key, upper, i) <==> i != j && IsHit(t, key, upper, i)
    {
      RemoveOthers(t, u, key, upper, j, i);
    }
  }

  lemma Found(t: seq<DirEntry>, key: Key, upper: Upper, j: nat)
    requires FirstHit(t, key, upper, j)
    ensures !Absent(t, key, upper) && j < |t| && IsShort(t[j])
  {
  }

  /** What registering an object comes to. */
  lemma Created(t: seq<DirEntry>, t1: seq<DirEntry>, u: seq<DirEntry>, j: nat, op: Op, fn: seq<byte>, upper: Upper)
    requires GoodTable(t) && GoodOp(op) && Named(t, op.sn, fn, op.lfn, op.name, upper)
    requires Absent(t, Key(op.sn, op.lfn, true), upper)
    requires Lengthened(t, t1) && |fn| == 12 && FirstRoom(t1, PartsFor(fn, |op.name|) + 1, j)
    requires Registered(t1, u, j, PartsFor(fn, |op.name|), fn, op.name)
    ensures GoodTable(u) && OnlyNew(t, u, upper, j) && Entered(u, Key(op.sn, op.lfn, true), |op.name|, upper, j)
  {
    hide IsHit, FirstHit, Absent, Named, Registered, RoomAt, OnlyNew, HoldsName;
    var key := Key(op.sn, op.lfn, true);
    NamedPrepared(t, op.sn, fn, op.lfn, op.name, upper);
    RegisterKeeps(t, t1, u, j, op.sn, fn, op.lfn, key, op.name, upper);
    RegisterThenFind(t, t1, u, j, op.sn, fn, op.lfn, key, op.name, upper);
    RegisterOthers(t, t1, u, j, fn, op.name, upper);
  }

  /** Create an object whose name no object has. */
  method CreateNew(dp: Dir, upper: Upper, op: Op) returns (res: FResult)
    requires dp.Valid() && GoodOp(op) && op.create && GoodTable(dp.Table())
    requires dp.fn == op.sn && dp.lfn == op.lfn && dp.withLfn && Absent(dp.Table(), Key(op.sn, op.lfn, true), upper)
    modifies dp.fs, dp.fs.win, dp`index, dp`clust, dp`sect, dp`dir, dp`chain, dp`lfnIdx, dp`fn, dp`withLfn
    ensures dp.fs.Valid() && dp.fs.Steady()
    ensures res != DiskErr ==>
      && dp.Valid() && Extended(dp.fs.g, old(SnapOf(dp)), SnapOf(dp))
      && GoodTable(dp.Table()) && Done(old(StateOf(dp)), StateOf(dp), op, res, upper)
    ensures res == DiskErr ==> dp.fs.faults > old(dp.fs.faults)
  {
    hide FatOf, IsTable, OnVolume, HasReserved, IsChain, StartsAt, CountKept, Entries, PlaceOf, FreeBelow, Extended,
      IsHit, FirstHit, Absent, Registered, Named, NoNumber, Crowded, CannotStretch, Tidy, NamesDiffer, HoldsName,
      FirstRoom, LongTop, OnlyNew, IsShort, Prepared, Entered;
    ghost var t := dp.Table();
    PreparedLength(op.sn);
    ghost var t1;
    res, t1 := DirRegister(dp, upper, op.name);
    if res == DiskErr { return; }
    if res == Ok {
      Created(t, t1, dp.Table(), dp.index, op, dp.fn, upper);
    } else {
      LongerGood(t, dp.Table());
    }
  }

  /** Create an object, if there is none with that name yet. */
  method Create(dp: Dir, upper: Upper, op: Op) returns (res: FResult)
    requires dp.Valid() && GoodOp(op) && op.create && GoodTable(dp.Table())
    modifies dp.fs, dp.fs.win, dp`index, dp`clust, dp`sect, dp`dir, dp`chain, dp`lfnIdx, dp`fn, dp`lfn, dp`withLfn
    ensures dp.fs.Valid() && dp.fs.Steady()
    ensures res != DiskErr ==>
      && dp.Valid() && Extended(dp.fs.g, old(SnapOf(dp)), SnapOf(dp))
      && GoodTable(dp.Table()) && Done(old(StateOf(dp)), StateOf(dp), op, res, upper)
    ensures res == DiskErr ==> dp.fs.faults > old(dp.fs.faults)
  {
    hide FatOf, IsTable, OnVolume, HasReserved, IsChain, StartsAt, CountKept, Entries, PlaceOf, FreeBelow, Extended,
      SameSnap,
      IsHit, FirstHit, Absent, Registered, Named, NoNumber, Crowded, CannotStretch, Tidy, NamesDiffer, HoldsName,
      FirstRoom, LongTop, OnlyNew, IsShort, Prepared, Entered;
    ghost var s0, t := SnapOf(dp), dp.Table();
    ghost var key := Key(op.sn, op.lfn, true);
    PreparedLength(op.sn);
    dp.fn, dp.lfn, dp.withLfn := op.sn, op.lfn, true;
    res := DirFind(dp, upper);
    if res == DiskErr { return; }
    ghost var s1 := SnapOf(dp);
    SameIsExtended(dp.fs.g, s0, s1);
    LengthenedSelf(t);
    if res == Ok {
      Found(t, key, upper, dp.index);
      return Denied;
    }
    res := CreateNew(dp, upper, op);
    if res == DiskErr { return; }
    ExtendedAgain(dp.fs.g, s0, s1, SnapOf(dp));
  }

  lemma PreparedLength(sn: seq<byte>)
    requires Prepared(sn)
    ensures |sn| == 12
  {
  }

  lemma LongerGood(t: seq<DirEntry>, u: seq<DirEntry>)
    requires GoodTable(t) && Lengthened(t, u)
    ensures GoodTable(u)
  {
  }

  /** Remove the object with the name, if there is one. */
  method Remove(dp: Dir, upper: Upper, op: Op) returns (res: FResult)
    requires dp.Valid() && GoodOp(op) && !op.create && GoodTable(dp.Table())
    modifies dp.fs, dp.fs.win, dp`index, dp`clust, dp`sect, dp`dir, dp`chain, dp`lfnIdx, dp`fn, dp`lfn, dp`withLfn
    ensures dp.fs.Valid() && dp.fs.Steady()
    ensures res != DiskErr ==>
      && dp.Valid() && Extended(dp.fs.g, old(SnapOf(dp)), SnapOf(dp))
      && GoodTable(dp.Table()) && Done(old(StateOf(dp)), StateOf(dp), op, res, upper)
    ensures res == DiskErr ==> dp.fs.faults > old(dp.fs.faults)
  {
    hide FatOf, IsTable, OnVolume, HasReserved, IsChain, StartsAt, CountKept, Entries, PlaceOf, FreeBelow, Extended,
      SameSnap,
      IsHit, FirstHit, Absent, Tidy, NamesDiffer, HoldsName, Prepared, LongTop, Deleted, OnlyGone;
    ghost var s0, t := SnapOf(dp), dp.Table();
    PreparedLength(op.sn);
    dp.fn, dp.lfn, dp.withLfn := op.sn, op.lfn, true;
    res := DirFind(dp, upper);
    if res == DiskErr { return; }
    ghost var s1 := SnapOf(dp);
    SameIsExtended(dp.fs.g, s0, s1);
    if res == NoFile { return; }
    ghost var key := KeyOf(dp);
    Found(t, key, upper, dp.index);
    res := DirRemove(dp);
    if res == DiskErr { return; }
    ExtendedAgain(dp.fs.g, s0, s1, SnapOf(dp));
    Gone(t, dp.Table(), upper, dp.index);
    RemoveKeeps(t, dp.Table(), if dp.lfnIdx == 0xFFFF then dp.index else dp.lfnIdx, dp.index);
  }

  /** In every run each operation does what it says, and the table stays good. */
  method RunAll(dp: Dir, upper: Upper, ops: seq<Op>) returns (results: seq<FResult>, ghost states: seq<State>)
    requires dp.Valid() && GoodTable(dp.Table()) && forall op :: op in ops ==> GoodOp(op)
    modifies dp.fs, dp.fs.win, dp`index, dp`clust, dp`sect, dp`dir, dp`chain, dp`lfnIdx, dp`fn, dp`lfn, dp`withLfn
    ensures dp.fs.Valid() && dp.fs.Steady()
    ensures dp.fs.faults == old(dp.fs.faults) ==>
      && dp.Valid() && Extended(dp.fs.g, old(SnapOf(dp)), SnapOf(dp)) && GoodTable(dp.Table())
      && |results| == |ops| && |states| == |ops| + 1
      && states[0] == old(StateOf(dp)) && states[|ops|] == StateOf(dp)
      && forall i :: 0 <= i < |ops| ==> Done(states[i], states[i + 1], ops[i], results[i], upper)
  {
    hide FatOf, IsTable, OnVolume, HasReserved, IsChain, StartsAt, CountKept, Entries, PlaceOf, FreeBelow, Extended,
      SameSnap, GoodTable, Done, GoodOp;
    ghost var s0 := SnapOf(dp);
    SameSnapSelf(dp.fs.g, s0);
    SameIsExtended(dp.fs.g, s0, s0);
    results, states := [], [StateOf(dp)];
    var k := 0;
    while k < |ops|
      invariant dp.fs.Steady() && dp.Valid() && Extended(dp.fs.g, s0, SnapOf(dp)) && GoodTable(dp.Table())
      invariant 0 <= k <= |ops| && |results| == k && |states| == k + 1
      invariant states[0] == old(StateOf(dp)) && states[k] == StateOf(dp)
      invariant forall i :: 0 <= i < k ==> Done(states[i], states[i + 1], ops[i], results[i], upper)
    {
      ghost var s1 := SnapOf(dp);
      assert ops[k] in ops;
      var res;
      if ops[k].create {
        res := Create(dp, upper, ops[k]);
      } else {
        res := Remove(dp, upper, ops[k]);
      }
      if res == DiskErr { return; }
      ExtendedAgain(dp.fs.g, s0, s1, SnapOf(dp));
      results, states := results + [res], states + [StateOf(dp)];
      k := k + 1;
    }
  }
}
