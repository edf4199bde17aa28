/**
  Runs of allocations and releases on behalf of several files. Whatever the order of the
  operations, the chains stay acyclic and apart and no cluster is lost.
*/
module AllocatorRuns {
  import opened Volume
  import opened FatCodec
  import opened Chains
  import opened Allocator

  /** Give file `f` one more cluster, or cut its chain to `keep` clusters. */
  datatype Op = Grow(f: nat) | Cut(f: nat, keep: nat)

  ghost predicate Meant(files: seq<seq<nat>>, op: Op) {
    op.f < |files| && (op.Cut? ==> op.keep <= |files[op.f]|)
  }

  /** What an operation may do to the chains of the files. */
  ghost predicate Step(fat: seq<nat>, a: seq<seq<nat>>, op: Op, b: seq<seq<nat>>)
    requires Meant(a, op)
  {
    match op
    case Grow(f) =>
      if FreeCount(fat) == 0 then b == a
      else exists r :: InRange(fat, r) && fat[r] == 0 && b == a[f := a[f] + [r]]
    case Cut(f, keep) => b == a[f := a[f][..keep]]
  }

  /** Where all clusters are owned, no entry is the reserved 1. */
  lemma OwnedSane(fat: seq<nat>, files: seq<seq<nat>>)
    requires Owned(fat, files)
    ensures !HasReserved(fat)
  {
    forall c | InRange(fat, c)
      ensures fat[c] != 1
    {
      if fat[c] != 0 {
        var f, i := OwnedEntry(fat, files, c);
      }
    }
  }

  /** A cluster obtained for the end of a chain makes that chain longer and keeps the others. */
  lemma Grown(g: Geometry, fat: seq<nat>, fat': seq<nat>, files: seq<seq<nat>>, f: nat, hint: nat, r: nat)
    requires |fat| == |fat'| == g.nFatent && Owned(fat, files) && f < |files|
    requires Last(files[f]) < g.nFatent && Obtained(g, fat, fat', Last(files[f]), hint, r)
    ensures Owned(fat', files[f := files[f] + [r]])
    ensures Step(fat, files, Grow(f), files[f := files[f] + [r]])
  {
    EndMarkEnds(g);
    assert fat' == Appended(fat, files[f], r, EndMark(g));
    AppendKeepsOwned(fat, files, f, r, EndMark(g));
    FreeExists(fat, |fat|);
  }

  /** The last cluster of a chain, or 0. */
  function Last(s: seq<nat>): nat {
    if s == [] then 0 else s[|s| - 1]
  }

  lemma CanStretch(fat: seq<nat>, files: seq<seq<nat>>, f: nat)
    requires Owned(fat, files) && f < |files|
    ensures Stretches(fat, Last(files[f])) && !BadLink(fat, Last(files[f]))
    ensures Last(files[f]) < |fat| || files[f] == []
  {
    OwnedSane(fat, files);
    var s := files[f];
    if s != [] {
      assert InRange(fat, s[|s| - 1]);
    }
  }

  method GrowFile(fs: Fatfs, files: seq<seq<nat>>, f: nat) returns (files': seq<seq<nat>>)
    requires fs.Valid() && Owned(Fat(fs), files) && f < |files|
    modifies fs, fs.win
    ensures fs.Valid() && fs.Steady()
    ensures AgreeOutsideFat(fs.g, fs.View(), old(fs.View()))
    ensures fs.faults == old(fs.faults) ==>
      && Owned(Fat(fs), files') && Step(old(Fat(fs)), files, Grow(f), files')
      && CountKept(old(fs.freeClust), old(Fat(fs)), fs.freeClust, Fat(fs))
  {
    hide FatOf, Owned, Obtained, Stretches, BadLink, HasReserved;
    ghost var fat, hint := Fat(fs), fs.lastClust;
    CanStretch(fat, files, f);
    OwnedSane(fat, files);
    var r := CreateChain(fs, Last(files[f]));
    files' := files;
    if 2 <= r < DISK_ERROR {
      Grown(fs.g, fat, Fat(fs), files, f, hint, r);
      files' := files[f := files[f] + [r]];
    }
  }

  method CutOne(fs: Fatfs, files: seq<seq<nat>>, f: nat, keep: nat) returns (files': seq<seq<nat>>)
    requires fs.Valid() && Owned(Fat(fs), files) && Meant(files, Cut(f, keep))
    modifies fs, fs.win
    ensures fs.Valid() && fs.Steady()
    ensures AgreeOutsideFat(fs.g, fs.View(), old(fs.View()))
    ensures fs.faults == old(fs.faults) ==>
      && Owned(Fat(fs), files') && Step(old(Fat(fs)), files, Cut(f, keep), files')
      && CountKept(old(fs.freeClust), old(Fat(fs)), fs.freeClust, Fat(fs))
  {
    hide FatOf;
    ghost var fat := Fat(fs);
    var s := files[f];
    var res := Ok;
    if keep > 0 {
      res := CutAfter(fs, s[keep - 1], s, keep);
    } else if s != [] {
      res := CutAll(fs, s[0], s);
    }
    files' := files[f := s[..keep]];
    if res == Ok {
      CutKeepsOwned(fat, Fat(fs), files, f, keep);
    }
  }

  method OneStep(fs: Fatfs, files: seq<seq<nat>>, op: Op) returns (files': seq<seq<nat>>)
    requires fs.Valid() && Owned(Fat(fs), files) && Meant(files, op)
    modifies fs, fs.win
    ensures fs.Valid() && fs.Steady()
    ensures AgreeOutsideFat(fs.g, fs.View(), old(fs.View()))
    ensures fs.faults == old(fs.faults) ==>
      && Owned(Fat(fs), files') && Step(old(Fat(fs)), files, op, files')
      && CountKept(old(fs.freeClust), old(Fat(fs)), fs.freeClust, Fat(fs))
  {
    match op
    case Grow(f) => files' := GrowFile(fs, files, f);
    case Cut(f, keep) => files' := CutOne(fs, files, f, keep);
  }

  /** A FAT and the chains of the files on it. */
  datatype State = State(fat: seq<nat>, files: seq<seq<nat>>)

  /** An operation that does not fit the files as they are by then changes nothing. */
  ghost predicate Leads(a: State, op: Op, b: State) {
    if Meant(a.files, op) then Step(a.fat, a.files, op, b.files) else b == a
  }

  /** In a run, every state has all clusters owned and each operation leads to the next state. */
  ghost predicate Run(states: seq<State>, ops: seq<Op>) {
    && |states| == |ops| + 1
    && (forall i :: 0 <= i <= |ops| ==> Owned(states[i].fat, states[i].files))
    && (forall i :: 0 <= i < |ops| ==> Leads(states[i], ops[i], states[i + 1]))
  }

  lemma RunOn(states: seq<State>, ops: seq<Op>, op: Op, st: State)
    requires Run(states, ops) && Leads(states[|ops|], op, st) && Owned(st.fat, st.files)
    ensures Run(states + [st], ops + [op])
  {
  }

  /** Any sequence of operations keeps all clusters owned and the count of free clusters right. */
  method RunAll(fs: Fatfs, files: seq<seq<nat>>, ops: seq<Op>)
      returns (files': seq<seq<nat>>, ghost states: seq<State>)
    requires fs.Valid() && Owned(Fat(fs), files)
    modifies fs, fs.win
    ensures fs.Valid() && fs.Steady()
    ensures AgreeOutsideFat(fs.g, fs.View(), old(fs.View()))
    ensures fs.faults == old(fs.faults) ==>
      && Run(states, ops)
      && states[0] == State(old(Fat(fs)), files) && states[|ops|] == State(Fat(fs), files')
      && CountKept(old(fs.freeClust), old(Fat(fs)), fs.freeClust, Fat(fs))
  {
    hide FatOf, Step, Owned;
    var faults := fs.faults;
    files', states := files, [State(Fat(fs), files)];
    for i := 0 to |ops|
      invariant fs.Valid() && fs.Steady()
      invariant AgreeOutsideFat(fs.g, fs.View(), old(fs.View()))
      invariant fs.faults == old(fs.faults) ==>
        && Run(states, ops[..i])
        && states[0] == State(old(Fat(fs)), files) && states[i] == State(Fat(fs), files')
        && CountKept(old(fs.freeClust), old(Fat(fs)), fs.freeClust, Fat(fs))
    {
      if fs.faults != faults { return; }
      var op := ops[i];
      ghost var before := State(Fat(fs), files');
      if op.f < |files'| && (op.Cut? ==> op.keep <= |files'[op.f]|) {
        files' := OneStep(fs, files', op);
      }
      ghost var after := State(Fat(fs), files');
      if fs.faults == faults {
        assert Leads(before, op, after);
        RunOn(states, ops[..i], op, after);
      }
      assert ops[..i + 1] == ops[..i] + [op];
      states := states + [after];
    }
    assert ops[..|ops|] == ops;
  }
}
