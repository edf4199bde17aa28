/**
  Reading a directory: the next object, and its long name put together from its parts.
*/
module DirReading {
  import opened Bytes
  import opened Volume
  import opened FatCodec
  import opened Chains
  import opened Allocator
  import opened FileLayout
  import opened Lfn
  import opened DirTable
  import opened Directories
  import opened DirNames
  import opened DirSearch
  import opened DirChange
  import opened DirTheory

  /** An entry that is passed over: deleted, a dot entry, or a volume label where none is asked for. */
  predicate Skipped(e: DirEntry, vol: bool) {
    e[0] == DDEM || e[0] == DOT || (e[11] % 0x20 == 8) != vol
  }

  /** The entry of an object that is shown. */
  predicate Shown(e: DirEntry, vol: bool) {
    e[0] != 0 && !Skipped(e, vol) && e[11] % 0x40 != AM_LFN
  }

  /** The object at `j` with a long name in the entries before it, whose check sum is that of the short name. */
  ghost predicate LongNamed(t: seq<DirEntry>, j: nat, name: seq<u16>) {
    && 0 < |name| <= MAX_LFN && NameChars(name) && Parts(|name|) <= j < |t|
    && forall i :: j - Parts(|name|) <= i < j ==> IsPart(t[i], name, j - i, SumSfn(t[j][..11]))
  }

  /** A registered object with a long name. */
  lemma RegisteredIsLongNamed(t: seq<DirEntry>, u: seq<DirEntry>, j: nat, fn: seq<byte>, name: seq<u16>)
    requires 0 < |name| <= MAX_LFN && NameChars(name) && |fn| == 12 && fn[11] / 2 % 2 == 1
    requires Registered(t, u, j, PartsFor(fn, |name|), fn, name) && fn[0] != 0 && fn[0] != DDEM && fn[0] != DOT
    ensures LongNamed(u, j, name) && Shown(u[j], false)
  {
    hide IsPart, SumSfn;
    assert u[j][0] == u[j][..11][0] == fn[..11][0];
  }

  // ---------- The name in the buffer ----------

  /** The buffer has the characters of the name from part `ord + 1` on. */
  ghost predicate HasTail(buf: LfnBuf, name: seq<u16>, ord: nat) {
    && 0 < |name| <= MAX_LFN && buf[|name|] == 0
    && forall i :: ord * 13 <= i < |name| ==> buf[i] == name[i]
  }

  lemma WholeName(buf: LfnBuf, name: seq<u16>)
    requires HasTail(buf, name, 0) && NameChars(name)
    ensures HoldsName(buf, name)
  {
  }

  /** A part can be taken into the buffer, but for the last part of names of 254 and 255 characters. */
  lemma PartPickable(e: DirEntry, name: seq<u16>, ord: nat, sum: byte)
    requires IsPart(e, name, ord, sum) && 0 < |name| && NameChars(name)
    ensures Pickable(e) <==> |name| <= 253 || ord < Parts(|name|)
  {
    hide EntryChar, TextLen;
    PartText(e, name, ord, sum);
  }

  /** Taking a part adds its characters to those of the later parts. */
  lemma PickedTail(was: LfnBuf, now: LfnBuf, e: DirEntry, name: seq<u16>, ord: nat, sum: byte)
    requires IsPart(e, name, ord, sum) && 0 < |name| && NameChars(name) && Picked(was, now, e)
    requires ord < Parts(|name|) ==> HasTail(was, name, ord)
    ensures HasTail(now, name, ord - 1)
  {
    hide TextLen;
    PartText(e, name, ord, sum);
    var i := (ord - 1) * 13;
    assert PartOffset(e[0] % 0x40) == i;
    forall x | i <= x < |name|
      ensures now[x] == name[x]
    {
      if x < i + Used(e) {
        assert now[i + (x - i)] == EntryChar(e, x - i);
      } else {
        assert now[x] == was[x];
      }
    }
    if ord == Parts(|name|) {
      LastMark(was, now, e, name, ord, sum);
    }
  }

  lemma LastMark(was: LfnBuf, now: LfnBuf, e: DirEntry, name: seq<u16>, ord: nat, sum: byte)
    requires IsPart(e, name, ord, sum) && 0 < |name| && NameChars(name) && Picked(was, now, e) && ord == Parts(|name|)
    ensures now[|name|] == 0
  {
    hide TextLen;
    PartText(e, name, ord, sum);
    var i := (ord - 1) * 13;
    assert PartOffset(e[0] % 0x40) == i;
    if TextLen(e) < 13 {
      assert i + TextLen(e) == |name|;
      assert now[i + TextLen(e)] == EntryChar(e, TextLen(e));
    } else {
      assert now[i + Used(e)] == 0;
    }
  }

  // ---------- dir_read ----------

  /** What is known before entry `i`, in the middle of the long name of the object at `j`. */
  ghost predicate Reading(t: seq<DirEntry>, j: nat, name: seq<u16>, i: nat, ord: byte, sum: byte, lfnIdx: nat,
                          buf: LfnBuf)
    requires LongNamed(t, j, name)
  {
    j - Parts(|name|) < i <= j ==>
      if |name| <= 253 then
        ord == j - i && sum == SumSfn(t[j][..11]) && lfnIdx == j - Parts(|name|) && HasTail(buf, name, ord)
      else ord == 0xFF
  }

  /** Take a part of a long name, if it is the one expected. */
  method TakePart(dp: Dir, lfn: array<u16>, e: DirEntry, ord0: byte, sum0: byte,
                  ghost t: seq<DirEntry>, ghost j: nat, ghost name: seq<u16>) returns (ord: byte, sum: byte)
    requires lfn.Length == 256 && dp.index < |t| && e == t[dp.index] && IsLong(e)
    requires LongNamed(t, j, name) ==> Reading(t, j, name, dp.index, ord0, sum0, dp.lfnIdx, lfn[..])
    modifies lfn, dp`lfnIdx
    ensures LongNamed(t, j, name) && dp.index < j && j - Parts(|name|) <= dp.index ==>
      Reading(t, j, name, dp.index + 1, ord, sum, dp.lfnIdx, lfn[..])
  {
    hide IsPart, Pickable, Picked, HasTail, SumSfn, Parts;
    var c := e[0];
    ord, sum := ord0, sum0;
    ghost var was, i := lfn[..], dp.index;
    if LongNamed(t, j, name) && j - Parts(|name|) <= i < j {
      var s := SumSfn(t[j][..11]);
      PartIsLong(e, name, j - i, s);
      PartOrder(e, name, j - i, s);
      PartPickable(e, name, j - i, s);
    }
    if Starts(e) {
      sum := e[13];
      c := c - LLEF;
      ord := c;
      dp.lfnIdx := dp.index;
    }
    var ok := c == ord && sum == e[13];
    if ok {
      ok := PickLfn(lfn, e);
    }
    ghost var before := ord;
    ord := if ok then (if ord == 0 then 0xFF else ord - 1) else 0xFF;
    if LongNamed(t, j, name) && j - Parts(|name|) <= i < j && ok {
      PickedTail(was, lfn[..], e, name, j - i, SumSfn(t[j][..11]));
    }
  }

  lemma PartOrder(e: DirEntry, name: seq<u16>, ord: nat, sum: byte)
    requires IsPart(e, name, ord, sum)
    ensures e[13] == sum && 1 <= ord <= Parts(|name|) <= 20
    ensures e[0] == if Starts(e) then LLEF + ord else ord
  {
  }

  lemma ReadingBefore(t: seq<DirEntry>, j: nat, name: seq<u16>, i: nat, ord: byte, sum: byte, lfnIdx: nat, buf: LfnBuf)
    requires LongNamed(t, j, name) && (i <= j - Parts(|name|) || i > j)
    ensures Reading(t, j, name, i, ord, sum, lfnIdx, buf)
  {
  }

  /** Between the entries of a long name no entry is passed over. */
  lemma PartsAreRead(t: seq<DirEntry>, j: nat, name: seq<u16>, i: nat)
    requires LongNamed(t, j, name) && j - Parts(|name|) <= i < j
    ensures IsLong(t[i]) && t[i][0] != 0 && !Skipped(t[i], false)
  {
    hide SumSfn;
    PartIsLong(t[i], name, j - i, SumSfn(t[j][..11]));
    PartOrder(t[i], name, j - i, SumSfn(t[j][..11]));
  }

  lemma AtObject(t: seq<DirEntry>, j: nat, name: seq<u16>, ord: byte, sum: byte, lfnIdx: nat, buf: LfnBuf)
    requires LongNamed(t, j, name) && Reading(t, j, name, j, ord, sum, lfnIdx, buf)
    ensures if |name| <= 253
            then ord == 0 && sum == SumSfn(t[j][..11]) && lfnIdx == j - Parts(|name|) && HoldsName(buf, name)
            else ord == 0xFF
  {
    if |name| <= 253 {
      WholeName(buf, name);
    }
  }

  /** What a reader gets to know about entry `e`: whether it is shown; the state of reading goes on. */
  method ReadEntry(dp: Dir, lfn: array<u16>, vol: bool, e: DirEntry, ord0: byte, sum0: byte,
                   ghost t: seq<DirEntry>, ghost j: nat, ghost name: seq<u16>)
    returns (shown: bool, ord: byte, sum: byte)
    requires lfn.Length == 256 && dp.index < |t| && e == t[dp.index] && e[0] != 0
    requires LongNamed(t, j, name) && !vol ==> Reading(t, j, name, dp.index, ord0, sum0, dp.lfnIdx, lfn[..])
    modifies lfn, dp`lfnIdx
    ensures shown <==> Shown(e, vol)
    ensures !shown && LongNamed(t, j, name) && !vol ==>
      Reading(t, j, name, dp.index + 1, ord, sum, dp.lfnIdx, lfn[..])
    ensures shown && LongNamed(t, j, name) && !vol && dp.index == j ==>
      if |name| <= 253 then dp.lfnIdx == j - Parts(|name|) && HoldsName(lfn[..], name) else dp.lfnIdx == 0xFFFF
  {
    hide IsPart, HasTail, SumSfn, HoldsName, LongNamed, Reading;
    ord, sum, shown := ord0, sum0, false;
    ghost var i: nat := dp.index;
    ghost var inName := LongNamed(t, j, name) && !vol && j - Parts(|name|) <= i < j;
    if inName {
      PartsAreRead(t, j, name, i);
    }
    if LongNamed(t, j, name) && !vol && i == j {
      AtObject(t, j, name, ord, sum, dp.lfnIdx, lfn[..]);
    }
    var c, a := e[0], e[11] % 0x40;
    if c == DDEM || c == DOT || (a % 0x20 == 8) != vol {
      ord := 0xFF;
    } else if a == AM_LFN {
      ord, sum := TakePart(dp, lfn, e, ord, sum, t, j, name);
    } else {
      var s := SumOf(e);
      if ord != 0 || sum != s {
        dp.lfnIdx := 0xFFFF;
      }
      shown := true;
    }
    if LongNamed(t, j, name) && !vol && !inName {
      ReadingBefore(t, j, name, i + 1, ord, sum, dp.lfnIdx, lfn[..]);
    }
  }

  /** No entry from `from` up to `n` is shown or ends the table. */
  ghost predicate NoneShown(t: seq<DirEntry>, from: nat, n: nat, vol: bool) {
    from <= n < |t| && forall k :: from <= k < n ==> t[k][0] != 0 && !Shown(t[k], vol)
  }

  /** Look at the entry at the position, and unless it is shown or the last, go on to the next. */
  method ReadHere(dp: Dir, lfn: array<u16>, vol: bool, ord0: byte, sum0: byte,
                  ghost t: seq<DirEntry>, ghost j: nat, ghost name: seq<u16>)
    returns (res: FResult, more: bool, ord: byte, sum: byte)
    requires lfn.Length == 256 && dp.Valid() && dp.At(dp.index) && dp.Table() == t
    requires LongNamed(t, j, name) && !vol ==> Reading(t, j, name, dp.index, ord0, sum0, dp.lfnIdx, lfn[..])
    modifies dp.fs, dp.fs.win, dp`index, dp`clust, dp`sect, dp`dir, dp`chain, dp`lfnIdx, lfn
    ensures dp.fs.Valid() && dp.fs.Steady()
    ensures more || res == Ok || res == NoFile ==> dp.Valid() && Kept(dp)
    ensures more ==>
      && dp.At(dp.index) && dp.index == old(dp.index) + 1 && t[old(dp.index)][0] != 0 && !Shown(t[old(dp.index)], vol)
      && (LongNamed(t, j, name) && !vol ==> Reading(t, j, name, dp.index, ord, sum, dp.lfnIdx, lfn[..]))
    ensures !more && res == Ok ==>
      && dp.At(dp.index) && dp.index == old(dp.index) && Shown(t[dp.index], vol)
      && (LongNamed(t, j, name) && !vol && dp.index == j ==>
            if |name| <= 253 then dp.lfnIdx == j - Parts(|name|) && HoldsName(lfn[..], name) else dp.lfnIdx == 0xFFFF)
    ensures !more && res == NoFile ==>
      && dp.index == old(dp.index)
      && (t[dp.index][0] == 0 || (!Shown(t[dp.index], vol) && dp.index + 1 == |t|))
    ensures more || res == Ok || res == NoFile || (res == DiskErr && dp.fs.faults > old(dp.fs.faults))
  {
    hide FatOf, IsTable, OnVolume, HasReserved, IsChain, StartsAt, FreeBelow, Entries, PlaceOf, SameSnap, LongNamed,
      Reading, HoldsName, Shown;
    more, ord, sum := false, ord0, sum0;
    ghost var s0 := SnapOf(dp);
    var e;
    res, e := Peek(dp);
    if res != Ok { return; }
    ghost var s1 := SnapOf(dp);
    if e[0] == 0 { return NoFile, false, ord, sum; }
    var shown;
    shown, ord, sum := ReadEntry(dp, lfn, vol, e, ord, sum, t, j, name);
    if shown { return; }
    res := Advance(dp);
    more := res == Ok;
    if res == Ok || res == NoFile {
      SameSnapAgain(dp.fs.g, s0, s1, SnapOf(dp));
    }
  }

  /** The object at `j` has a long name in the entries from `from` on. */
  ghost predicate ReadInTime(t: seq<DirEntry>, j: nat, name: seq<u16>, from: nat) {
    LongNamed(t, j, name) && from + Parts(|name|) <= j
  }

  /** What is known when reading has gone from entry `from` to the position: `Ok` at an object, `NoFile` at the end. */
  ghost predicate ReadUpTo(t: seq<DirEntry>, from: nat, i: nat, vol: bool, res: FResult) {
    && NoneShown(t, from, i, vol)
    && (res == Ok ==> Shown(t[i], vol))
    && (res == NoFile ==> t[i][0] == 0 || (!Shown(t[i], vol) && i + 1 == |t|))
  }

  /** The long name of the object at `j` is in the buffer, unless it is too long. */
  ghost predicate NameRead(t: seq<DirEntry>, j: nat, name: seq<u16>, lfnIdx: nat, buf: LfnBuf) {
    LongNamed(t, j, name) ==>
      if |name| <= 253 then lfnIdx == j - Parts(|name|) && HoldsName(buf, name) else lfnIdx == 0xFFFF
  }

  /** The loop of dir_read; `j` is an object whose long name begins no sooner than at the position, or none. */
  method ReadNext(dp: Dir, lfn: array<u16>, vol: bool, ghost j: nat, ghost name: seq<u16>) returns (res: FResult)
    requires lfn.Length == 256 && dp.Valid() && dp.At(dp.index)
    requires LongNamed(dp.Table(), j, name) ==> !vol && dp.index + Parts(|name|) <= j
    modifies dp.fs, dp.fs.win, dp`index, dp`clust, dp`sect, dp`dir, dp`chain, dp`lfnIdx, lfn
    ensures dp.fs.Valid() && dp.fs.Steady()
    ensures res == Ok || res == NoFile ==>
      && dp.Valid() && Kept(dp) && ReadUpTo(dp.Table(), old(dp.index), dp.index, vol, res)
    ensures res == Ok ==> dp.At(dp.index) && (dp.index == j ==> NameRead(dp.Table(), j, name, dp.lfnIdx, lfn[..]))
    ensures res == Ok || res == NoFile || (res == DiskErr && dp.fs.faults > old(dp.fs.faults))
  {
    hide FatOf, IsTable, OnVolume, HasReserved, IsChain, StartsAt, FreeBelow, Entries, PlaceOf, SameSnap, LongNamed,
      Reading, HoldsName, Shown;
    ghost var t, s0, from := dp.Table(), SnapOf(dp), dp.index as nat;
    SameSnapSelf(dp.fs.g, s0);
    if LongNamed(t, j, name) {
      ReadingBefore(t, j, name, from, 0xFF, 0xFF, dp.lfnIdx, lfn[..]);
    }
    var ord: byte, sum: byte, more := 0xFF, 0xFF, true;
    res := Ok;
    while more
      invariant dp.fs.Valid() && dp.fs.Steady()
      invariant more || res == Ok || res == NoFile ==>
        dp.Valid() && SameSnap(dp.fs.g, s0, SnapOf(dp)) && dp.Table() == t
      invariant more ==>
        && dp.At(dp.index) && NoneShown(t, from, dp.index, vol)
        && (LongNamed(t, j, name) ==> Reading(t, j, name, dp.index, ord, sum, dp.lfnIdx, lfn[..]))
      invariant !more && (res == Ok || res == NoFile) ==> ReadUpTo(t, from, dp.index, vol, res)
      invariant !more && res == Ok ==>
        dp.At(dp.index) && (dp.index == j ==> NameRead(t, j, name, dp.lfnIdx, lfn[..]))
      invariant more || res == Ok || res == NoFile || (res == DiskErr && dp.fs.faults > old(dp.fs.faults))
      decreases more, |t| - dp.index
    {
      ghost var a := SnapOf(dp);
      res, more, ord, sum := ReadHere(dp, lfn, vol, ord, sum, t, j, name);
      if more || res == Ok || res == NoFile {
        SameSnapAgain(dp.fs.g, s0, a, SnapOf(dp));
      }
    }
  }

  /**
    Read the next object from the position on. When it has a long name in the entries from
    there on, the name is in the buffer afterwards, unless it has more than 253 characters.
  */
  method DirRead(dp: Dir, lfn: array<u16>, vol: bool, ghost j: nat, ghost name: seq<u16>) returns (res: FResult)
    requires lfn.Length == 256 && dp.Valid() && (dp.sect != 0 ==> dp.At(dp.index))
    modifies dp.fs, dp.fs.win, dp`index, dp`clust, dp`sect, dp`dir, dp`chain, dp`lfnIdx, lfn
    ensures dp.fs.Valid() && dp.fs.Steady()
    ensures res == Ok || res == NoFile ==> dp.Valid() && Kept(dp)
    ensures res == Ok ==>
      && dp.At(dp.index) && NoneShown(dp.Table(), old(dp.index), dp.index, vol) && Shown(dp.Table()[dp.index], vol)
    ensures res == NoFile ==> dp.sect == 0
    ensures res == NoFile && old(dp.sect) != 0 ==>
      && NoneShown(dp.Table(), old(dp.index), dp.index, vol)
      && (dp.Table()[dp.index][0] == 0 || (!Shown(dp.Table()[dp.index], vol) && dp.index + 1 == |dp.Table()|))
    ensures res == Ok && !vol && dp.index == j && ReadInTime(dp.Table(), j, name, old(dp.index)) ==>
      if |name| <= 253 then dp.lfnIdx == j - Parts(|name|) && HoldsName(lfn[..], name) else dp.lfnIdx == 0xFFFF
    ensures res == Ok || res == NoFile || (res == DiskErr && dp.fs.faults > old(dp.fs.faults))
  {
    hide FatOf, IsTable, OnVolume, HasReserved, IsChain, StartsAt, FreeBelow, Entries, PlaceOf, SameSnap, LongNamed,
      HoldsName, Shown, CountKept;
    ghost var t, s0 := dp.Table(), SnapOf(dp);
    SameSnapSelf(dp.fs.g, s0);
    if dp.sect == 0 { return NoFile; }
    NotThere(t, name);
    res := ReadNext(dp, lfn, vol, if !vol && ReadInTime(t, j, name, dp.index) then j else |t|, name);
    if res != Ok { dp.sect := 0; }
  }

  lemma NotThere(t: seq<DirEntry>, name: seq<u16>)
    ensures !LongNamed(t, |t|, name)
  {
  }

  // ---------- What has been registered is read ----------

  /** Reading on from the first entry of a long-named object ends at that object. */
  lemma ReadsObject(u: seq<DirEntry>, j: nat, name: seq<u16>, i: nat, found: bool)
    requires LongNamed(u, j, name) && Shown(u[j], false) && NoneShown(u, j - Parts(|name|), i, false)
    requires if found then Shown(u[i], false) else u[i][0] == 0 || (!Shown(u[i], false) && i + 1 == |u|)
    ensures found && i == j
  {
    hide IsPart;
    if i < j {
      PartsAreRead(u, j, name, i);
    }
  }

  /** Read the object at the position, from the first entry of its long name on. */
  method ReadBack(dp: Dir, buf: array<u16>, ghost j: nat, ghost name: seq<u16>) returns (res: FResult)
    requires dp.Valid() && dp.index == j && HoldsName(dp.lfn, name) && buf.Length == 256 && buf != dp.fs.win as object
    requires LongNamed(dp.Table(), j, name) && Shown(dp.Table()[j], false)
    modifies dp.fs, dp.fs.win, dp`index, dp`clust, dp`sect, dp`dir, dp`chain, dp`lfnIdx, buf
    ensures dp.fs.Valid() && dp.fs.Steady()
    ensures res == Ok ==>
      && dp.Valid() && dp.index == j && dp.At(j) && dp.Table() == old(dp.Table())
      && if |name| <= 253 then dp.lfnIdx == j - Parts(|name|) && HoldsName(buf[..], name) else dp.lfnIdx == 0xFFFF
    ensures res == Ok || (res == DiskErr && dp.fs.faults > old(dp.fs.faults))
  {
    hide FatOf, IsTable, OnVolume, HasReserved, IsChain, StartsAt, CountKept, Entries, PlaceOf, FreeBelow, Extended,
      SameSnap, HoldsName, Shown, IsPart;
    ghost var u := dp.Table();
    var n := NameLength(dp.lfn, name);
    res := Revisit(dp, dp.index - (n + 12) / 13);
    if res != Ok { return; }
    SectorThere(dp);
    res := DirRead(dp, buf, false, j, name);
    if res == Ok || res == NoFile {
      ReadsObject(u, j, name, dp.index, res == Ok);
    }
  }

  /**
    Register an object with a long name and read it: the name that is read is the name that has
    been registered, unless it has more than 253 characters, which are read as no long name.
  */
  method RegisterThenRead(dp: Dir, upper: Upper, buf: array<u16>, ghost name: seq<u16>)
    returns (res: FResult, ghost j: nat)
    requires dp.Valid() && Prepared(dp.fn) && dp.fn[0] != DOT && dp.fn[11] / 2 % 2 == 1
    requires HoldsName(dp.lfn, name) && dp.withLfn && buf.Length == 256 && buf != dp.fs.win as object
    modifies dp.fs, dp.fs.win, dp`index, dp`clust, dp`sect, dp`dir, dp`chain, dp`lfnIdx, dp`fn, dp`withLfn, buf
    ensures dp.fs.Valid() && dp.fs.Steady()
    ensures res == Ok ==>
      && dp.Valid() && dp.index == j && dp.At(j) && Shown(dp.Table()[j], false) && LongNamed(dp.Table(), j, name)
      && if |name| <= 253 then dp.lfnIdx == j - Parts(|name|) && HoldsName(buf[..], name) else dp.lfnIdx == 0xFFFF
    ensures res == Ok || res == Denied || (res == DiskErr && dp.fs.faults > old(dp.fs.faults))
  {
    hide FatOf, IsTable, OnVolume, HasReserved, IsChain, StartsAt, CountKept, Entries, PlaceOf, FreeBelow, Extended,
      SameSnap, HoldsName,
      Named, NoNumber, CannotStretch, Crowded, LongNamed, Shown, FirstRoom, Lengthened, IsPart;
    ghost var t, sn, t1 := dp.Table(), dp.fn, [];
    res, t1 := DirRegister(dp, upper, name);
    j := dp.index;
    if res != Ok { return; }
    NamedPrepared(t, sn, dp.fn, dp.lfn, name, upper);
    NameLimits(dp.lfn, name);
    RegisteredIsLongNamed(t1, dp.Table(), j, dp.fn, name);
    res := ReadBack(dp, buf, j, name);
  }

  lemma NameLimits(lfn: LfnBuf, name: seq<u16>)
    requires HoldsName(lfn, name)
    ensures 0 < |name| <= MAX_LFN && NameChars(name)
  {
  }

  lemma SectorThere(dp: Dir)
    requires dp.Valid() && dp.At(dp.index)
    ensures dp.sect != 0
  {
    WriteFacts(dp.fs.g, dp.chain, dp.index);
  }
}
