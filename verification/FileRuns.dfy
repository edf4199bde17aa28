/**
  Runs of operations on an open file, against the ideal: a sequence of bytes with a cursor.
*/
module FileRuns {
  import opened Bytes
  import opened Volume
  import opened FatCodec
  import opened Chains
  import opened Allocator
  import opened FileLayout
  import opened FileState
  import opened Files

  datatype Op = Read(n: u32) | Write(w: seq<byte>) | Seek(ofs: u32) | Truncate

  /** What a call returns: a result code, the bytes read, the number of bytes written. */
  datatype Answer = Answer(res: FResult, data: seq<byte>, count: nat)

  /**
    The ideal file: bytes, a cursor, how many clusters it has and how many are free.
    A truncation that is denied makes the file object unusable: it is `stuck`, and answers that
    all further calls are denied.
  */
  datatype Ideal = Ideal(text: seq<byte>, cursor: nat, stuck: bool, clusters: nat, free: nat)

  /** What a file can be used for, and the cluster size of the drive in sectors. */
  datatype Mode = Mode(canRead: bool, canWrite: bool, csize: nat)

  ghost predicate Sensible(s: Ideal, m: Mode) {
    !s.stuck ==> s.cursor <= |s.text| <= Span(s.clusters, m.csize) * SS
  }

  /** How the ideal file answers and changes. */
  ghost predicate Step(s: Ideal, op: Op, a: Answer, t: Ideal, m: Mode) {
    && Sensible(s, m) && Sensible(t, m)
    && if s.stuck then a.res == Denied && t.stuck
       else match op
         case Read(n) => ReadStep(s, n, a, t, m)
         case Write(w) => WriteStep(s, w, a, t, m) && Conserved(s, t)
         case Seek(ofs) => SeekStep(s, ofs, a, t, m) && Conserved(s, t)
         case Truncate => TruncateStep(s, a, t, m)
  }

  /** Clusters are taken from the free ones, and none is lost. */
  ghost predicate Conserved(s: Ideal, t: Ideal) {
    s.clusters <= t.clusters && s.clusters + s.free == t.clusters + t.free
  }

  /** Exactly the bytes from the cursor on, as many as are asked for or left. */
  ghost predicate ReadStep(s: Ideal, n: nat, a: Answer, t: Ideal, m: Mode)
    requires s.cursor <= |s.text|
  {
    if !m.canRead then a.res == Denied && t == s
    else
      var k := if n > |s.text| - s.cursor then |s.text| - s.cursor else n;
      && a.res == Ok && a.data == s.text[s.cursor..s.cursor + k]
      && t == s.(cursor := s.cursor + k)
  }

  /**
    All the bytes; none if the file would reach 4 GB, and otherwise as many as the clusters that
    the file has or can get have room for.
  */
  ghost predicate WriteStep(s: Ideal, w: seq<byte>, a: Answer, t: Ideal, m: Mode)
    requires s.cursor <= |s.text|
  {
    if !m.canWrite then a.res == Denied && t == s
    else
      && a.res == Ok && a.count <= |w| && !t.stuck
      && (a.count < |w| ==>
           || (a.count == 0 && s.cursor + |w| >= U32)
           || (t.free == 0 && t.cursor == Span(t.clusters, m.csize) * SS))
      && t.text == Overwrite(s.text, s.cursor, w[..a.count]) && t.cursor == s.cursor + a.count
  }

  /** The bytes there were stay. Those of a gap that a file open for writing gets are anything. */
  ghost predicate SeekStep(s: Ideal, ofs: nat, a: Answer, t: Ideal, m: Mode)
    requires s.cursor <= |s.text|
  {
    var target := if ofs > |s.text| && !m.canWrite then |s.text| else ofs;
    && a.res == Ok && !t.stuck
    && t.cursor <= target && (t.cursor < target ==> t.free == 0 && t.cursor == Span(t.clusters, m.csize) * SS)
    && |t.text| == (if t.cursor > |s.text| then t.cursor else |s.text|)
    && t.text[..|s.text|] == s.text
  }

  /** The file ends at the cursor; of its clusters it keeps those that the bytes left take. */
  ghost predicate TruncateStep(s: Ideal, a: Answer, t: Ideal, m: Mode)
    requires s.cursor <= |s.text|
  {
    if !m.canWrite then a.res == Denied && t.stuck
    else
      && a.res == Ok && !t.stuck && t.text == s.text[..s.cursor] && t.cursor == s.cursor
      && t.clusters + t.free == s.clusters + s.free
      && t.clusters == if s.cursor == |s.text| then s.clusters else Needed(s.cursor, m.csize)
  }

  /** Clusters that `n` bytes take. */
  ghost function Needed(n: nat, csize: nat): nat {
    if n == 0 || csize == 0 then 0 else ClusterOf((n - 1) / SS, csize) + 1
  }

  /** The file as an ideal one. */
  ghost function View(fp: File): Ideal
    requires fp.fs.Valid()
    reads fp, fp.buf, fp.fs, fp.fs.win
  {
    Ideal(fp.Text(), fp.fptr, fp.err != Ok, |fp.chain|, FreeCount(Fat(fp.fs)))
  }

  function ModeOf(fp: File): Mode {
    Mode(fp.canRead, fp.canWrite, fp.fs.g.csize)
  }

  /** A file in normal mode that has met no error of the drive. */
  ghost predicate Usable(fp: File)
    reads fp, fp.buf, fp.fs, fp.fs.win
  {
    fp.Valid() && fp.cltbl == null && (fp.err == Ok || fp.err == Denied)
  }

  lemma UsableFacts(fp: File)
    requires Usable(fp)
    ensures Sensible(View(fp), ModeOf(fp)) && fp.TableReady()
    ensures fp.err == Ok ==> |fp.Text()| == fp.fsize && fp.fptr <= fp.fsize && fp.Sane()
  {
    if fp.err == Ok {
      SizeFits(fp.Vol(), fp.Value());
    }
  }

  method DoRead(fp: File, n: u32) returns (a: Answer)
    requires Usable(fp)
    modifies fp, fp.buf, fp.fs, fp.fs.win
    ensures fp.Valid() && fp.fs.Steady()
    ensures fp.fs.faults == old(fp.fs.faults) ==>
      Usable(fp) && Step(old(View(fp)), Read(n), a, View(fp), ModeOf(fp))
  {
    hide Consistent, FatOf, Data, Behind, Contents, Elsewhere, HasReserved, OnVolume, FreeBelow, Span;
    UsableFacts(fp);
    var rbuff := new byte[n];
    var res, br := fp.Read(rbuff, n);
    a := Answer(res, rbuff[..br], 0);
    if Usable(fp) {
      UsableFacts(fp);
    }
  }

  method DoWrite(fp: File, w: seq<byte>) returns (a: Answer)
    requires Usable(fp) && |w| < U32
    modifies fp, fp.buf, fp.fs, fp.fs.win
    ensures fp.Valid() && fp.fs.Steady()
    ensures fp.fs.faults == old(fp.fs.faults) ==>
      Usable(fp) && Step(old(View(fp)), Write(w), a, View(fp), ModeOf(fp))
  {
    hide Consistent, FatOf, Data, Behind, Contents, Elsewhere, HasReserved, OnVolume, Overwrite, FreeBelow, Span,
      CountKept, SameOutside;
    UsableFacts(fp);
    var res, bw := fp.Write(w);
    a := Answer(res, [], bw);
    if Usable(fp) {
      UsableFacts(fp);
    }
  }

  method DoSeek(fp: File, ofs: u32) returns (a: Answer)
    requires Usable(fp)
    modifies fp, fp.buf, fp.fs, fp.fs.win
    ensures fp.Valid() && fp.fs.Steady()
    ensures fp.fs.faults == old(fp.fs.faults) ==>
      Usable(fp) && Step(old(View(fp)), Seek(ofs), a, View(fp), ModeOf(fp))
  {
    hide Consistent, FatOf, Data, Behind, Contents, Elsewhere, HasReserved, OnVolume, FreeBelow, Span, CountKept,
      SameOutside;
    UsableFacts(fp);
    var res := fp.Seek(ofs);
    a := Answer(res, [], 0);
    if Usable(fp) {
      UsableFacts(fp);
    }
  }

  method DoTruncate(fp: File) returns (a: Answer)
    requires Usable(fp)
    modifies fp, fp.buf, fp.fs, fp.fs.win
    ensures fp.Valid() && fp.fs.Steady()
    ensures fp.fs.faults == old(fp.fs.faults) ==>
      Usable(fp) && Step(old(View(fp)), Truncate, a, View(fp), ModeOf(fp))
  {
    hide Consistent, FatOf, Data, Behind, Contents, Elsewhere, HasReserved, OnVolume, FreeBelow, Span, CountKept,
      CutTo, IsChain, ClusterOf;
    UsableFacts(fp);
    var res := fp.Truncate();
    a := Answer(res, [], 0);
    if Usable(fp) {
      UsableFacts(fp);
    }
  }

  /** A run of the ideal file: its states, one more than there are operations. */
  ghost predicate Run(states: seq<Ideal>, ops: seq<Op>, answers: seq<Answer>, m: Mode) {
    && |states| == |ops| + 1 && |answers| == |ops|
    && forall i :: 0 <= i < |ops| ==> Step(states[i], ops[i], answers[i], states[i + 1], m)
  }

  /**
    Without failures of the drive, every run of reads, writes, seeks and truncations of a file
    is a run of the ideal file.
  */
  method RunAll(fp: File, ops: seq<Op>) returns (answers: seq<Answer>, ghost states: seq<Ideal>)
    requires Usable(fp) && forall op :: op in ops && op.Write? ==> |op.w| < U32
    modifies fp, fp.buf, fp.fs, fp.fs.win
    ensures fp.Valid() && fp.fs.Steady()
    ensures fp.fs.faults == old(fp.fs.faults) ==>
      && Usable(fp) && Run(states, ops, answers, ModeOf(fp))
      && states[0] == old(View(fp)) && states[|ops|] == View(fp)
  {
    hide Consistent, FatOf, Step, FreeBelow, Data, Behind, Contents, HasReserved, OnVolume, Sensible;
    var faults := fp.fs.faults;
    answers, states := [], [View(fp)];
    for i := 0 to |ops|
      invariant fp.Valid() && fp.fs.Steady()
      invariant fp.fs.faults == old(fp.fs.faults) ==>
        && Usable(fp) && Run(states, ops[..i], answers, ModeOf(fp))
        && states[0] == old(View(fp)) && states[i] == View(fp)
    {
      if fp.fs.faults != faults { return; }
      var a;
      match ops[i] {
        case Read(n) => a := DoRead(fp, n);
        case Write(w) =>
          assert ops[i] in ops;
          a := DoWrite(fp, w);
        case Seek(ofs) => a := DoSeek(fp, ofs);
        case Truncate => a := DoTruncate(fp);
      }
      assert ops[..i + 1] == ops[..i] + [ops[i]];
      answers, states := answers + [a], states + [View(fp)];
    }
    assert ops[..|ops|] == ops;
  }

  /** Byte `k` is written over by operation `l`. */
  ghost predicate WritesOver(s: Ideal, op: Op, a: Answer, k: nat) {
    op.Write? && s.cursor <= k < s.cursor + a.count
  }

  lemma ByteStays(s: Ideal, op: Op, a: Answer, t: Ideal, m: Mode, k: nat)
    requires Step(s, op, a, t, m) && !s.stuck && op != Truncate && k < |s.text| && !WritesOver(s, op, a, k)
    ensures !t.stuck && k < |t.text| && t.text[k] == s.text[k]
  {
  }

  /** In a run without truncation no byte is lost but by being written over, and no cluster at all. */
  lemma {:induction false} NothingLost(states: seq<Ideal>, ops: seq<Op>, answers: seq<Answer>, m: Mode, i: nat,
      j: nat, k: nat)
    requires Run(states, ops, answers, m) && i <= j <= |ops| && Truncate !in ops[i..j] && !states[i].stuck
    requires k < |states[i].text| && forall l :: i <= l < j ==> !WritesOver(states[l], ops[l], answers[l], k)
    ensures !states[j].stuck && k < |states[j].text| && states[j].text[k] == states[i].text[k]
    decreases j - i
  {
    hide Step, WritesOver;
    if i < j {
      assert Step(states[i], ops[i], answers[i], states[i + 1], m);
      assert ops[i] == ops[i..j][0] && ops[i..j][1..] == ops[i + 1..j];
      ByteStays(states[i], ops[i], answers[i], states[i + 1], m, k);
      NothingLost(states, ops, answers, m, i + 1, j, k);
    }
  }

  /** Without truncation, a file keeps its clusters, and gets more from the free ones only. */
  lemma {:induction false} NoClusterLost(states: seq<Ideal>, ops: seq<Op>, answers: seq<Answer>, m: Mode, i: nat,
      j: nat)
    requires Run(states, ops, answers, m) && i <= j <= |ops| && Truncate !in ops[i..j] && !states[i].stuck
    ensures !states[j].stuck && |states[i].text| <= |states[j].text| && Conserved(states[i], states[j])
    decreases j - i
  {
    if i < j {
      assert Step(states[i], ops[i], answers[i], states[i + 1], m);
      assert ops[i] == ops[i..j][0] && ops[i..j][1..] == ops[i + 1..j];
      NoClusterLost(states, ops, answers, m, i + 1, j);
    }
  }

  /** What is written and not touched before it is read, is what is read. */
  lemma WriteSeekRead(s0: Ideal, s1: Ideal, s2: Ideal, s3: Ideal, w: seq<byte>, a0: Answer, a1: Answer, a2: Answer,
                      m: Mode)
    requires !s0.stuck && m.canRead && m.canWrite && s0.cursor < U32
    requires Step(s0, Write(w), a0, s1, m) && Step(s1, Seek(s0.cursor), a1, s2, m)
    requires a0.count < U32 && Step(s2, Read(a0.count), a2, s3, m)
    ensures a2.data == w[..a0.count] && s3.cursor == s1.cursor
  {
  }
}
