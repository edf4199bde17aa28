/**
  Changing a directory: registering an object under a name, and removing it.
*/
module DirChange {
  import opened Bytes
  import opened Volume
  import opened FatCodec
  import opened Chains
  import opened Allocator
  import opened FileLayout
  import opened Lfn
  import opened NumName
  import opened DirTable
  import opened Directories
  import opened DirNames
  import opened DirSearch

  /** Store an entry at the position, whose sector is in the window. */
  method PutEntry(dp: Dir, e: DirEntry)
    requires dp.Valid() && dp.At(dp.index) && dp.fs.winsect == dp.sect
    modifies dp.fs.win, dp.fs`wflag
    ensures dp.Valid() && dp.At(dp.index)
    ensures Extended(dp.fs.g, old(SnapOf(dp)), SnapOf(dp)) && Fat(dp.fs) == old(Fat(dp.fs))
    ensures dp.Table() == old(dp.Table())[dp.index := e]
  {
    hide FatOf, IsTable, OnVolume, HasReserved, IsChain, StartsAt, CountKept, Entries, FreeBelow, TableSector,
      SameOutside, OnlyTable;
    var fs := dp.fs;
    ghost var a := SnapOf(dp);
    WriteFacts(fs.g, dp.chain, dp.index);
    assert dp.dir + 32 <= SS;
    forall k | 0 <= k < 32 {
      fs.win[dp.dir + k] := e[k];
    }
    fs.wflag := true;
    assert fs.View()[dp.sect] == fs.win[..];
    assert fs.win[..][dp.dir..dp.dir + 32] == e;
    EntryChanged(fs.g, a.view, fs.View(), dp.chain, dp.index, e);
    WrittenExtends(fs.g, a, fs.View(), dp.chain, dp.index);
  }

  lemma WriteFacts(g: Geometry, chain: seq<nat>, i: nat)
    requires IsTable(g, chain) && i < Capacity(g, chain)
    ensures var p := PlaceOf(g, chain, i);
      0 < p.sect < g.nsect && !InFat(g, p.sect) && !InMirror(g, p.sect) && InTable(g, chain, p.sect) && p.dir + 32 <= SS
  {
    hide FileSector;
  }

  lemma WrittenExtends(g: Geometry, a: Snap, view: seq<Sector>, chain: seq<nat>, i: nat)
    requires IsTable(g, chain) && a.chain == chain && |a.view| == |view| == g.nsect && a.fat == FatOf(g, a.view)
    requires i < Capacity(g, chain)
    requires forall s :: 0 <= s < g.nsect && s != PlaceOf(g, chain, i).sect ==> view[s] == a.view[s]
    ensures FatOf(g, view) == a.fat
    ensures Extended(g, a, a.(view := view))
  {
    WriteFacts(g, chain, i);
    SameFirstCopy(g, a.view, view);
  }

  // ---------- dir_register ----------

  /** The entries from `from` up to `i` have become parts of the name, counted down to the short entry at `j`. */
  ghost predicate PartsDone(t: seq<DirEntry>, u: seq<DirEntry>, from: nat, i: nat, j: nat, name: seq<u16>, sum: byte) {
    && |u| == |t| && from <= i <= j < |t|
    && (forall k :: from <= k < i ==> IsPart(u[k], name, j - k, sum))
    && forall k :: 0 <= k < |t| && !(from <= k < i) ==> u[k] == t[k]
  }

  /** Write the part of the name that belongs to the position. */
  method WriteNamePart(dp: Dir, ord: byte, sum: byte, ghost name: seq<u16>) returns (res: FResult)
    requires dp.Valid() && dp.At(dp.index) && HoldsName(dp.lfn, name) && 1 <= ord <= Parts(|name|)
    modifies dp.fs`disk, dp.fs`wflag, dp.fs`faults, dp.fs`winsect, dp.fs.win
    ensures dp.fs.Valid() && dp.fs.Steady()
    ensures res == Ok ==>
      && dp.Valid() && dp.At(dp.index) && Extended(dp.fs.g, old(SnapOf(dp)), SnapOf(dp))
      && |dp.Table()| == |old(dp.Table())| && IsPart(dp.Table()[dp.index], name, ord, sum)
      && dp.Table() == old(dp.Table())[dp.index := dp.Table()[dp.index]]
    ensures res != Ok ==> res == DiskErr && dp.fs.faults > old(dp.fs.faults)
  {
    hide FatOf, IsTable, OnVolume, HasReserved, IsChain, StartsAt, CountKept, Entries, PlaceOf, FreeBelow, Extended,
      SameSnap, IsPart, HoldsName;
    ghost var s0 := SnapOf(dp);
    var e;
    res, e := Peek(dp);
    if res != Ok { return; }
    ghost var s1 := SnapOf(dp);
    SameIsExtended(dp.fs.g, s0, s1);
    e := FitLfn(dp.lfn, e, ord, sum, name);
    PutEntry(dp, e);
    ExtendedAgain(dp.fs.g, s0, s1, SnapOf(dp));
  }

  /** Write the part of the name that belongs to the position, and go on to the next entry, which is there. */
  method WriteAndGo(dp: Dir, ord: byte, sum: byte, ghost name: seq<u16>) returns (res: FResult)
    requires dp.Valid() && dp.At(dp.index) && HoldsName(dp.lfn, name) && 1 <= ord <= Parts(|name|)
    requires dp.index + 1 < |dp.Table()|
    modifies dp.fs, dp.fs.win, dp`index, dp`clust, dp`sect, dp`dir, dp`chain
    ensures dp.fs.Valid() && dp.fs.Steady()
    ensures res == Ok ==>
      && dp.Valid() && dp.index == old(dp.index) + 1 && dp.At(dp.index)
      && Extended(dp.fs.g, old(SnapOf(dp)), SnapOf(dp))
      && |dp.Table()| == |old(dp.Table())| && IsPart(dp.Table()[old(dp.index)], name, ord, sum)
      && dp.Table() == old(dp.Table())[old(dp.index) := dp.Table()[old(dp.index)]]
    ensures res != Ok ==> res == DiskErr && dp.fs.faults > old(dp.fs.faults)
  {
    hide FatOf, IsTable, OnVolume, HasReserved, IsChain, StartsAt, CountKept, Entries, PlaceOf, FreeBelow, Extended,
      SameSnap, IsPart, SumSfn, HoldsName;
    ghost var s0 := SnapOf(dp);
    res := WriteNamePart(dp, ord, sum, name);
    if res != Ok { return; }
    ghost var s1 := SnapOf(dp);
    res := Advance(dp);
    if res == NoFile { assert false; }
    if res != Ok { return; }
    SameIsExtended(dp.fs.g, s1, SnapOf(dp));
    ExtendedAgain(dp.fs.g, s0, s1, SnapOf(dp));
  }

  /** Write the parts of the long name, from the position on. */
  method WriteParts(dp: Dir, parts: nat, ghost j: nat, ghost name: seq<u16>) returns (res: FResult)
    requires dp.Valid() && dp.At(dp.index) && HoldsName(dp.lfn, name) && parts == Parts(|name|)
    requires dp.index + parts == j < |dp.Table()|
    modifies dp.fs, dp.fs.win, dp`index, dp`clust, dp`sect, dp`dir, dp`chain
    ensures dp.fs.Valid() && dp.fs.Steady()
    ensures res == Ok ==>
      && dp.Valid() && dp.At(j) && Extended(dp.fs.g, old(SnapOf(dp)), SnapOf(dp))
      && PartsDone(old(dp.Table()), dp.Table(), old(dp.index), j, j, name, SumSfn(dp.fn[..11]))
    ensures res != Ok ==> res == DiskErr && dp.fs.faults > old(dp.fs.faults)
  {
    hide FatOf, IsTable, OnVolume, HasReserved, IsChain, StartsAt, CountKept, Entries, PlaceOf, FreeBelow, Extended,
      SameSnap, IsPart, SumSfn, HoldsName;
    ghost var s0, t := SnapOf(dp), dp.Table();
    ghost var from: nat := dp.index;
    NameParts(dp.lfn, name);
    SameSnapSelf(dp.fs.g, s0);
    SameIsExtended(dp.fs.g, s0, s0);
    var sum := SumOf(dp.fn[..11] + ZeroEntry()[11..]);
    assert (dp.fn[..11] + ZeroEntry()[11..])[..11] == dp.fn[..11];
    res := Ok;
    var nent := parts;
    while nent > 0
      invariant res == Ok && nent <= parts <= 20 && dp.Valid() && dp.fs.Steady() && dp.At(dp.index)
      invariant dp.index + nent == j && Extended(dp.fs.g, s0, SnapOf(dp))
      invariant PartsDone(t, dp.Table(), from, dp.index, j, name, sum)
      decreases nent
    {
      ghost var s1 := SnapOf(dp);
      res := WriteAndGo(dp, nent, sum, name);
      if res != Ok { return; }
      ExtendedAgain(dp.fs.g, s0, s1, SnapOf(dp));
      nent := nent - 1;
    }
  }

  lemma NameParts(lfn: LfnBuf, name: seq<u16>)
    requires HoldsName(lfn, name)
    ensures 1 <= Parts(|name|) <= 20
  {
  }

  /** Write the short entry at the position. */
  method WriteShort(dp: Dir) returns (res: FResult)
    requires dp.Valid() && dp.At(dp.index)
    modifies dp.fs`disk, dp.fs`wflag, dp.fs`faults, dp.fs`winsect, dp.fs.win
    ensures dp.fs.Valid() && dp.fs.Steady()
    ensures res == Ok ==>
      && dp.Valid() && dp.At(dp.index) && Extended(dp.fs.g, old(SnapOf(dp)), SnapOf(dp))
      && |dp.Table()| == |old(dp.Table())| && IsFresh(dp.Table()[dp.index], dp.fn)
      && dp.Table() == old(dp.Table())[dp.index := dp.Table()[dp.index]] && dp.fs.winsect == dp.sect
    ensures res != Ok ==> res == DiskErr && dp.fs.faults > old(dp.fs.faults)
  {
    hide FatOf, IsTable, OnVolume, HasReserved, IsChain, StartsAt, CountKept, Entries, PlaceOf, FreeBelow, Extended,
      SameSnap, DeletedEntry;
    ghost var s0 := SnapOf(dp);
    var e;
    res, e := Peek(dp);
    if res != Ok { return; }
    ghost var s1 := SnapOf(dp);
    SameIsExtended(dp.fs.g, s0, s1);
    e := dp.fn[..11] + ZeroEntry()[11..];
    e := e[12 := dp.fn[11] / 8 % 4 * 8];
    assert e[..11] == dp.fn[..11];
    PutEntry(dp, e);
    ExtendedAgain(dp.fs.g, s0, s1, SnapOf(dp));
  }

  /** The short name `sn` with number `n`, as one to look for among short names only. */
  function NumberedKey(sn: seq<byte>, lfn: LfnBuf, name: seq<u16>, n: u16): Key
    requires |sn| == 12
  {
    Key(Numbered(sn, NumberFor(name, n))[..11] + [0], lfn, false)
  }

  /** Find a number that makes the short name distinct. */
  method FindNumber(dp: Dir, upper: Upper, sn: seq<byte>, ghost name: seq<u16>) returns (res: FResult, n: u16)
    requires dp.Valid() && |sn| == 12 && HoldsName(dp.lfn, name)
    modifies dp.fs, dp.fs.win, dp`index, dp`clust, dp`sect, dp`dir, dp`chain, dp`lfnIdx, dp`fn, dp`withLfn
    ensures dp.fs.Valid() && dp.fs.Steady()
    ensures res == Ok || res == Denied ==> dp.Valid() && Kept(dp)
    ensures res == Ok ==>
      && 1 <= n < 100 && KeyOf(dp) == NumberedKey(sn, dp.lfn, name, n)
      && Absent(dp.Table(), NumberedKey(sn, dp.lfn, name, n), upper)
    ensures res == Denied ==>
      forall m: u16 :: 1 <= m < 100 ==> !Absent(dp.Table(), NumberedKey(sn, dp.lfn, name, m), upper)
    ensures res == Ok || res == Denied || (res == DiskErr && dp.fs.faults > old(dp.fs.faults))
  {
    hide FatOf, IsTable, OnVolume, HasReserved, IsChain, StartsAt, CountKept, Entries, PlaceOf, FreeBelow, SameSnap,
      Numbered, NumberFor, HoldsName, FirstHit, Absent;
    ghost var s0, t := SnapOf(dp), dp.Table();
    SameSnapSelf(dp.fs.g, s0);
    dp.fn := sn[..11] + [0];
    dp.withLfn := false;
    n := 1;
    while n < 100
      invariant 1 <= n <= 100 && dp.Valid() && dp.fs.Steady() && !dp.withLfn
      invariant SameSnap(dp.fs.g, s0, SnapOf(dp)) && dp.Table() == t
      invariant forall m: u16 :: 1 <= m < n ==> !Absent(t, NumberedKey(sn, dp.lfn, name, m), upper)
    {
      ghost var s1 := SnapOf(dp);
      var fn := GenNumname(sn, dp.lfn, n, name);
      dp.fn := fn[..11] + [0];
      res := DirFind(dp, upper);
      if res != Ok && res != NoFile { return; }
      SameSnapAgain(dp.fs.g, s0, s1, SnapOf(dp));
      if res == NoFile { return Ok, n; }
      HitIsPresent(t, KeyOf(dp), upper, dp.index);
      n := n + 1;
    }
    return Denied, n;
  }

  lemma HitIsPresent(t: seq<DirEntry>, key: Key, upper: Upper, i: nat)
    requires FirstHit(t, key, upper, i)
    ensures !Absent(t, key, upper)
  {
  }

  /** Length of the name in the buffer. */
  method NameLength(lfn: LfnBuf, ghost name: seq<u16>) returns (n: nat)
    requires HoldsName(lfn, name)
    ensures n == |name|
  {
    n := 0;
    while lfn[n] != 0
      invariant 0 <= n <= |name|
      invariant n < |name| ==> lfn[n] == lfn[..|name|][n] == name[n]
      decreases |name| - n
    {
      n := n + 1;
    }
  }

  /** Write the entries of the object, the last of which is at the position. */
  method WriteObject(dp: Dir, parts: nat, ghost name: seq<u16>) returns (res: FResult)
    requires dp.Valid() && dp.At(dp.index) && HoldsName(dp.lfn, name) && (parts == 0 || parts == Parts(|name|))
    requires parts <= dp.index
    modifies dp.fs, dp.fs.win, dp`index, dp`clust, dp`sect, dp`dir, dp`chain
    ensures dp.fs.Valid() && dp.fs.Steady()
    ensures res == Ok ==>
      && dp.Valid() && dp.At(old(dp.index)) && Extended(dp.fs.g, old(SnapOf(dp)), SnapOf(dp))
      && dp.fs.winsect == dp.sect
      && Registered(old(dp.Table()), dp.Table(), old(dp.index), parts, dp.fn, name)
    ensures res != Ok ==> res == DiskErr && dp.fs.faults > old(dp.fs.faults)
  {
    hide FatOf, IsTable, OnVolume, HasReserved, IsChain, StartsAt, CountKept, Entries, PlaceOf, FreeBelow, Extended,
      SameSnap, IsPart, SumSfn, HoldsName, IsFresh;
    ghost var s0, t := SnapOf(dp), dp.Table();
    ghost var j: nat := dp.index;
    SameSnapSelf(dp.fs.g, s0);
    SameIsExtended(dp.fs.g, s0, s0);
    if parts > 0 {
      res := Revisit(dp, dp.index - parts);
      if res != Ok { return; }
      ghost var s1 := SnapOf(dp);
      res := WriteParts(dp, parts, j, name);
      if res != Ok { return; }
      ExtendedAgain(dp.fs.g, s0, s1, SnapOf(dp));
    }
    ghost var s2, u := SnapOf(dp), dp.Table();
    res := WriteShort(dp);
    if res != Ok { return; }
    ExtendedAgain(dp.fs.g, s0, s2, SnapOf(dp));
  }

  lemma ReachBelow(g: Geometry, chain: seq<nat>, j: nat)
    requires j < Reach(g, chain)
    ensures j < Capacity(g, chain) && j < MAX_ENTRIES
  {
  }

  lemma MovedWindow(g: Geometry, a: Snap, b: Snap)
    requires a.chain == b.chain && a.fat == b.fat && a.free == b.free && Agree(g, b.view, a.view)
    requires IsTable(g, a.chain) && |a.fat| == g.nFatent
    ensures Extended(g, a, b)
  {
  }

  /** The short name `fn` that an object gets: as prepared, or with a number that no object has. */
  ghost predicate Named(t: seq<DirEntry>, sn: seq<byte>, fn: seq<byte>, lfn: LfnBuf, name: seq<u16>, upper: Upper)
    requires |sn| == 12
  {
    if Lossy(sn) then
      exists n: u16 ::
        1 <= n < 100 && fn == Numbered(sn, NumberFor(name, n)) && Absent(t, NumberedKey(sn, lfn, name, n), upper)
    else fn == sn
  }

  /** Every numbered name is in use. */
  ghost predicate NoNumber(t: seq<DirEntry>, sn: seq<byte>, lfn: LfnBuf, name: seq<u16>, upper: Upper)
    requires |sn| == 12
  {
    Lossy(sn) && forall m: u16 :: 1 <= m < 100 ==> !Absent(t, NumberedKey(sn, lfn, name, m), upper)
  }

  /** Give the object its short name. */
  method ChooseName(dp: Dir, upper: Upper, ghost name: seq<u16>) returns (res: FResult)
    requires dp.Valid() && HoldsName(dp.lfn, name) && dp.withLfn
    modifies dp.fs, dp.fs.win, dp`index, dp`clust, dp`sect, dp`dir, dp`chain, dp`lfnIdx, dp`fn, dp`withLfn
    ensures dp.fs.Valid() && dp.fs.Steady()
    ensures res == Ok || res == Denied ==> dp.Valid() && Kept(dp)
    ensures res == Ok ==> dp.withLfn && Named(dp.Table(), old(dp.fn), dp.fn, dp.lfn, name, upper)
    ensures res == Denied ==> NoNumber(dp.Table(), old(dp.fn), dp.lfn, name, upper)
    ensures res == Ok || res == Denied || (res == DiskErr && dp.fs.faults > old(dp.fs.faults))
  {
    hide FatOf, IsTable, OnVolume, HasReserved, IsChain, StartsAt, CountKept, Entries, PlaceOf, FreeBelow, SameSnap,
      Numbered, NumberFor, HoldsName, Absent;
    SameSnapSelf(dp.fs.g, SnapOf(dp));
    res := Ok;
    var sn := dp.fn;
    if sn[11] % 2 == 1 {
      var n;
      res, n := FindNumber(dp, upper, sn, name);
      if res != Ok { return; }
      dp.fn := dp.fn[11 := sn[11]];
      dp.withLfn := true;
      KeepsStatus(sn, NumberFor(name, n));
      assert dp.fn == Numbered(sn, NumberFor(name, n));
    }
  }

  lemma KeepsStatus(sn: seq<byte>, v: u16)
    requires |sn| == 12
    ensures |Numbered(sn, v)| == 12 && Numbered(sn, v)[11] == sn[11]
  {
    assert Numbered(sn, v)[8..][3] == sn[8..][3];
  }

  lemma NamedStatus(t: seq<DirEntry>, sn: seq<byte>, fn: seq<byte>, lfn: LfnBuf, name: seq<u16>, upper: Upper)
    requires |sn| == 12 && Named(t, sn, fn, lfn, name, upper)
    ensures |fn| == 12 && fn[11] == sn[11]
  {
    hide Absent;
    if Lossy(sn) {
      var n: u16 :|
        1 <= n < 100 && fn == Numbered(sn, NumberFor(name, n)) && Absent(t, NumberedKey(sn, lfn, name, n), upper);
      KeepsStatus(sn, NumberFor(name, n));
    }
  }

  /** Find room for the entries of the object, and write them. */
  method EnterObject(dp: Dir, ghost name: seq<u16>) returns (res: FResult, ghost t1: seq<DirEntry>)
    requires dp.Valid() && HoldsName(dp.lfn, name)
    modifies dp.fs, dp.fs.win, dp`index, dp`clust, dp`sect, dp`dir, dp`chain
    ensures dp.fs.Valid() && dp.fs.Steady()
    ensures res == Ok || res == Denied ==> dp.Valid() && Extended(dp.fs.g, old(SnapOf(dp)), SnapOf(dp))
    ensures res == Ok ==>
      && dp.At(dp.index) && dp.fs.winsect == dp.sect
      && Lengthened(old(dp.Table()), t1) && FirstRoom(t1, PartsFor(dp.fn, |name|) + 1, dp.index)
      && Registered(t1, dp.Table(), dp.index, PartsFor(dp.fn, |name|), dp.fn, name)
    ensures res == Denied ==>
      && Lengthened(old(dp.Table()), dp.Table())
      && CannotStretch(dp.chain, |dp.Table()|, FreeCount(Fat(dp.fs)))
      && Crowded(dp.Table(), PartsFor(dp.fn, |name|) + 1)
    ensures res == Ok || res == Denied || (res == DiskErr && dp.fs.faults > old(dp.fs.faults))
  {
    hide FatOf, IsTable, OnVolume, HasReserved, IsChain, StartsAt, CountKept, Entries, PlaceOf, FreeBelow, Extended,
      HoldsName, Registered, CannotStretch, Crowded, Lengthened, FirstRoom;
    ghost var s0 := SnapOf(dp);
    var nent := 1;
    if dp.fn[11] / 2 % 2 == 1 {
      var n := NameLength(dp.lfn, name);
      nent := (n + 25) / 13;
    }
    assert nent - 1 == PartsFor(dp.fn, |name|);
    res := DirAlloc(dp, nent);
    t1 := [];
    if res != Ok { return; }
    ghost var s2 := SnapOf(dp);
    t1 := dp.Table();
    NameParts(dp.lfn, name);
    RoomFits(t1, nent, dp.index);
    res := WriteObject(dp, nent - 1, name);
    if res != Ok { return; }
    ExtendedAgain(dp.fs.g, s0, s2, SnapOf(dp));
  }

  lemma RoomFits(t: seq<DirEntry>, n: nat, j: nat)
    requires FirstRoom(t, n, j)
    ensures n <= j + 1 <= |t|
  {
  }

  /** Register the object with the name in `dp`. */
  method DirRegister(dp: Dir, upper: Upper, ghost name: seq<u16>) returns (res: FResult, ghost t1: seq<DirEntry>)
    requires dp.Valid() && HoldsName(dp.lfn, name) && dp.withLfn
    modifies dp.fs, dp.fs.win, dp`index, dp`clust, dp`sect, dp`dir, dp`chain, dp`lfnIdx, dp`fn, dp`withLfn
    ensures dp.fs.Valid() && dp.fs.Steady()
    ensures res == Ok ==>
      && dp.Valid() && dp.At(dp.index) && dp.withLfn && dp.fs.winsect == dp.sect
      && Extended(dp.fs.g, old(SnapOf(dp)), SnapOf(dp))
      && Named(old(dp.Table()), old(dp.fn), dp.fn, dp.lfn, name, upper)
      && Lengthened(old(dp.Table()), t1) && FirstRoom(t1, PartsFor(dp.fn, |name|) + 1, dp.index)
      && Registered(t1, dp.Table(), dp.index, PartsFor(dp.fn, |name|), dp.fn, name)
    ensures res == Denied ==>
      && dp.Valid() && Extended(dp.fs.g, old(SnapOf(dp)), SnapOf(dp)) && Lengthened(old(dp.Table()), dp.Table())
      && (NoNumber(old(dp.Table()), old(dp.fn), dp.lfn, name, upper)
          || (CannotStretch(dp.chain, |dp.Table()|, FreeCount(Fat(dp.fs)))
              && Crowded(dp.Table(), PartsFor(old(dp.fn), |name|) + 1)))
    ensures res == Ok || res == Denied || (res == DiskErr && dp.fs.faults > old(dp.fs.faults))
  {
    hide FatOf, IsTable, OnVolume, HasReserved, IsChain, StartsAt, CountKept, Entries, PlaceOf, FreeBelow, Extended,
      SameSnap, HoldsName, Registered, Named, NoNumber, CannotStretch;
    ghost var s0, t := SnapOf(dp), dp.Table();
    t1 := t;
    LengthenedSelf(t);
    res := ChooseName(dp, upper, name);
    if res != Ok && res != Denied { return; }
    ghost var s1 := SnapOf(dp);
    SameIsExtended(dp.fs.g, s0, s1);
    if res != Ok { return; }
    NamedStatus(t, old(dp.fn), dp.fn, dp.lfn, name, upper);
    res, t1 := EnterObject(dp, name);
    if res != Ok && res != Denied { return; }
    ExtendedAgain(dp.fs.g, s0, s1, SnapOf(dp));
  }

  // ---------- dir_remove ----------

  /** The entries from `from` up to and with `i` are deleted. */
  ghost predicate Deleted(t: seq<DirEntry>, u: seq<DirEntry>, from: nat, i: nat) {
    && |u| == |t| && i < |t|
    && forall k :: 0 <= k < |t| ==> u[k] == if from <= k <= i then DeletedEntry() else t[k]
  }

  /** Delete the entry at the position. */
  method DeleteHere(dp: Dir) returns (res: FResult)
    requires dp.Valid() && dp.At(dp.index)
    modifies dp.fs`disk, dp.fs`wflag, dp.fs`faults, dp.fs`winsect, dp.fs.win
    ensures dp.fs.Valid() && dp.fs.Steady()
    ensures res == Ok ==>
      && dp.Valid() && dp.At(dp.index) && Extended(dp.fs.g, old(SnapOf(dp)), SnapOf(dp))
      && Fat(dp.fs) == old(Fat(dp.fs)) && dp.Table() == old(dp.Table())[dp.index := DeletedEntry()]
    ensures res != Ok ==> res == DiskErr && dp.fs.faults > old(dp.fs.faults)
  {
    hide FatOf, IsTable, OnVolume, HasReserved, IsChain, StartsAt, CountKept, Entries, PlaceOf, FreeBelow, Extended,
      SameSnap, DeletedEntry;
    ghost var s0 := SnapOf(dp);
    var e;
    res, e := Peek(dp);
    if res != Ok { return; }
    ghost var s1 := SnapOf(dp);
    SameIsExtended(dp.fs.g, s0, s1);
    SameSnapFacts(dp.fs.g, s0, s1);
    PutEntry(dp, DeletedEntry());
    ExtendedAgain(dp.fs.g, s0, s1, SnapOf(dp));
  }

  /** The entries from `from` up to `i` are deleted. */
  ghost predicate DeletedBelow(t: seq<DirEntry>, u: seq<DirEntry>, from: nat, i: nat) {
    |u| == |t| && forall k :: 0 <= k < |t| ==> u[k] == if from <= k < i then DeletedEntry() else t[k]
  }

  lemma DeleteOne(t: seq<DirEntry>, u: seq<DirEntry>, w: seq<DirEntry>, from: nat, k: nat)
    requires DeletedBelow(t, u, from, k) && from <= k < |t| && w == u[k := DeletedEntry()]
    ensures DeletedBelow(t, w, from, k + 1) && Deleted(t, w, from, k)
  {
    hide DeletedEntry;
  }

  /** Delete the entry at the position, and unless it is the last one, `i`, go on to the next. */
  method DeleteAndGo(dp: Dir, i: nat) returns (res: FResult, more: bool)
    requires dp.Valid() && dp.At(dp.index) && dp.index <= i < |dp.Table()|
    modifies dp.fs, dp.fs.win, dp`index, dp`clust, dp`sect, dp`dir, dp`chain
    ensures dp.fs.Valid() && dp.fs.Steady()
    ensures res == Ok ==>
      && dp.Valid() && dp.At(dp.index) && Extended(dp.fs.g, old(SnapOf(dp)), SnapOf(dp))
      && dp.chain == old(dp.chain) && Fat(dp.fs) == old(Fat(dp.fs))
      && dp.Table() == old(dp.Table())[old(dp.index) := DeletedEntry()]
      && more == (old(dp.index) < i) && dp.index == old(dp.index) + (if more then 1 else 0)
    ensures res != Ok ==> res == DiskErr && dp.fs.faults > old(dp.fs.faults)
  {
    hide FatOf, IsTable, OnVolume, HasReserved, IsChain, StartsAt, CountKept, Entries, PlaceOf, FreeBelow, Extended,
      SameSnap, DeletedEntry;
    ghost var s0 := SnapOf(dp);
    more := dp.index < i;
    res := DeleteHere(dp);
    if res != Ok || !more { return; }
    ghost var s1 := SnapOf(dp);
    res := Advance(dp);
    if res == NoFile { assert false; }
    if res != Ok { return; }
    SameIsExtended(dp.fs.g, s1, SnapOf(dp));
    SameSnapFacts(dp.fs.g, s1, SnapOf(dp));
    ExtendedAgain(dp.fs.g, s0, s1, SnapOf(dp));
  }

  /** Go to an entry that is there. */
  method Revisit(dp: Dir, i: u16) returns (res: FResult)
    requires dp.Valid() && i < |dp.Table()|
    modifies dp.fs, dp.fs.win, dp`index, dp`clust, dp`sect, dp`dir
    ensures dp.fs.Valid() && dp.fs.Steady()
    ensures res == Ok ==>
      && dp.Valid() && dp.index == i && dp.At(i) && Extended(dp.fs.g, old(SnapOf(dp)), SnapOf(dp))
      && Fat(dp.fs) == old(Fat(dp.fs)) && dp.Table() == old(dp.Table())
    ensures res != Ok ==> res == DiskErr && dp.fs.faults > old(dp.fs.faults)
  {
    hide FatOf, IsTable, OnVolume, HasReserved, IsChain, StartsAt, CountKept, PlaceOf, FreeBelow, Extended, SameSnap;
    ghost var s0 := SnapOf(dp);
    ReachBelow(dp.fs.g, dp.chain, i);
    res := dp.Sdi(i);
    if res == IntErr { assert false; }
    if res != Ok { return; }
    SameTable(dp.fs.g, dp.fs.View(), s0.view, dp.chain);
    MovedWindow(dp.fs.g, s0, SnapOf(dp));
  }

  /** Remove the object at the position, with its long name if it has one. */
  method DirRemove(dp: Dir) returns (res: FResult)
    requires dp.Valid() && dp.index < |dp.Table()| && (dp.lfnIdx == 0xFFFF || dp.lfnIdx <= dp.index)
    modifies dp.fs, dp.fs.win, dp`index, dp`clust, dp`sect, dp`dir, dp`chain
    ensures dp.fs.Valid() && dp.fs.Steady()
    ensures res == Ok ==>
      && dp.Valid() && dp.index == old(dp.index) && Extended(dp.fs.g, old(SnapOf(dp)), SnapOf(dp))
      && dp.chain == old(dp.chain) && Fat(dp.fs) == old(Fat(dp.fs))
      && Deleted(old(dp.Table()), dp.Table(), if dp.lfnIdx == 0xFFFF then dp.index else dp.lfnIdx, dp.index)
    ensures res != Ok ==> res == DiskErr && dp.fs.faults > old(dp.fs.faults)
  {
    hide FatOf, IsTable, OnVolume, HasReserved, IsChain, StartsAt, CountKept, Entries, PlaceOf, FreeBelow, Extended,
      SameSnap, DeletedEntry, DeletedBelow, Deleted;
    ghost var s0, t := SnapOf(dp), dp.Table();
    var i := dp.index;
    var from := if dp.lfnIdx == 0xFFFF then i else dp.lfnIdx;
    res := Revisit(dp, from);
    if res != Ok { return; }
    NoneDeleted(t, from);
    var more := true;
    while more
      invariant res == Ok && dp.Valid() && dp.fs.Steady() && dp.At(dp.index)
      invariant Extended(dp.fs.g, s0, SnapOf(dp)) && dp.chain == old(dp.chain) && Fat(dp.fs) == old(Fat(dp.fs))
      invariant from <= dp.index <= i < |dp.Table()| == |t|
      invariant if more then DeletedBelow(t, dp.Table(), from, dp.index)
                else dp.index == i && Deleted(t, dp.Table(), from, i)
      decreases more, i - dp.index
    {
      ghost var s1, u, k := SnapOf(dp), dp.Table(), dp.index as nat;
      res, more := DeleteAndGo(dp, i);
      if res != Ok { return; }
      DeleteOne(t, u, dp.Table(), from, k);
      ExtendedAgain(dp.fs.g, s0, s1, SnapOf(dp));
    }
  }

  lemma NoneDeleted(t: seq<DirEntry>, from: nat)
    ensures DeletedBelow(t, t, from, from)
  {
  }
}
