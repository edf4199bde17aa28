/**
  Searching a directory: for a name, for the next object, and for room.
*/
module DirSearch {
  import opened Bytes
  import opened Volume
  import opened FatCodec
  import opened Chains
  import opened Allocator
  import opened FileLayout
  import opened Lfn
  import opened DirTable
  import opened Directories
  import opened DirNames

  function KeyOf(dp: Dir): Key
    reads dp
  {
    Key(dp.fn, dp.lfn, dp.withLfn)
  }

  /** What a directory object sees of the volume. */
  datatype Snap = Snap(chain: seq<nat>, fat: seq<nat>, view: seq<Sector>, free: u32)

  ghost function SnapOf(dp: Dir): Snap
    requires dp.Valid()
    reads dp, dp.fs, dp.fs.win
  {
    Snap(dp.chain, Fat(dp.fs), dp.fs.View(), dp.fs.freeClust)
  }

  /** The same table and the same FAT; no sector outside the FAT has changed. */
  ghost predicate SameSnap(g: Geometry, a: Snap, b: Snap) {
    && b.chain == a.chain && b.fat == a.fat && AgreeOutsideFat(g, b.view, a.view)
    && CountKept(a.free, a.fat, b.free, b.fat)
  }

  lemma SameSnapAgain(g: Geometry, a: Snap, b: Snap, c: Snap)
    requires SameSnap(g, a, b) && SameSnap(g, b, c)
    ensures SameSnap(g, a, c)
  {
  }

  lemma SameSnapFacts(g: Geometry, a: Snap, b: Snap)
    requires SameSnap(g, a, b)
    ensures b.chain == a.chain && b.fat == a.fat
  {
  }

  lemma SameSnapSelf(g: Geometry, a: Snap)
    ensures SameSnap(g, a, a)
  {
  }

  /** The table and the volume are as they were, but for where the window is. */
  twostate predicate Kept(dp: Dir)
    requires old(dp.Valid()) && dp.Valid()
    reads dp, dp.fs, dp.fs.win
  {
    SameSnap(dp.fs.g, old(SnapOf(dp)), SnapOf(dp)) && dp.Table() == old(dp.Table())
  }

  lemma SameTable(g: Geometry, a: seq<Sector>, b: seq<Sector>, chain: seq<nat>)
    requires |b| == g.nsect && IsTable(g, chain) && AgreeOutsideFat(g, a, b)
    ensures Entries(g, a, chain) == Entries(g, b, chain)
  {
    SameEntries(g, a, b, chain);
  }

  lemma NotEmpty(g: Geometry, chain: seq<nat>)
    requires IsTable(g, chain)
    ensures Reach(g, chain) > 0
  {
    if chain != [] {
      assert Span(|chain|, g.csize) >= g.csize;
    }
  }

  /** The first position. */
  method Rewind(dp: Dir) returns (res: FResult)
    requires dp.Valid()
    modifies dp.fs, dp.fs.win, dp`index, dp`clust, dp`sect, dp`dir
    ensures dp.Valid() && dp.fs.Steady() && Kept(dp)
    ensures res == Ok ==> dp.index == 0 && dp.At(0)
    ensures res != Ok ==> res == DiskErr && dp.fs.faults > old(dp.fs.faults)
  {
    hide FatOf, IsTable, OnVolume, HasReserved, IsChain, StartsAt, CountKept, Entries, PlaceOf;
    NotEmpty(dp.fs.g, dp.chain);
    CountKeptSelf(dp.fs.freeClust, Fat(dp.fs));
    res := dp.Sdi(0);
    SameTable(dp.fs.g, dp.fs.View(), old(dp.fs.View()), dp.chain);
  }

  /** The entry at the position. */
  method Peek(dp: Dir) returns (res: FResult, e: DirEntry)
    requires dp.Valid() && dp.At(dp.index)
    modifies dp.fs`disk, dp.fs`wflag, dp.fs`faults, dp.fs`winsect, dp.fs.win
    ensures dp.Valid() && dp.fs.Steady() && Kept(dp)
    ensures res == Ok ==> e == dp.Table()[dp.index] && dp.fs.winsect == dp.sect
    ensures res != Ok ==> res == DiskErr && dp.fs.faults > old(dp.fs.faults)
  {
    hide FatOf, IsTable, OnVolume, HasReserved, IsChain, StartsAt, CountKept, TableSector;
    CountKeptSelf(dp.fs.freeClust, Fat(dp.fs));
    res := dp.fs.MoveWindow(dp.sect);
    SameFirstCopy(dp.fs.g, dp.fs.View(), old(dp.fs.View()));
    SameTable(dp.fs.g, dp.fs.View(), old(dp.fs.View()), dp.chain);
    assert dp.dir + 32 <= SS;
    var w := dp.fs.win[dp.dir..dp.dir + 32];
    assert |w| == 32;
    e := w;
  }

  /** The next position; at the end of the table there is none. */
  method Advance(dp: Dir) returns (res: FResult)
    requires dp.Valid() && dp.At(dp.index)
    modifies dp.fs, dp.fs.win, dp`index, dp`clust, dp`sect, dp`dir, dp`chain
    ensures dp.fs.Valid() && dp.fs.Steady()
    ensures res == Ok || res == NoFile ==> dp.Valid() && Kept(dp)
    ensures res == Ok ==> dp.index == old(dp.index) + 1 && dp.At(dp.index)
    ensures res == NoFile ==> old(dp.index) + 1 == |dp.Table()| && dp.index == old(dp.index)
    ensures res == Ok || res == NoFile || (res == DiskErr && dp.fs.faults > old(dp.fs.faults))
  {
    hide FatOf, IsTable, OnVolume, HasReserved, IsChain, StartsAt, CountKept, Entries, PlaceOf;
    res := dp.Next(false);
    if res == Ok || res == NoFile {
      SameTable(dp.fs.g, dp.fs.View(), old(dp.fs.View()), dp.chain);
    }
  }

  // ---------- dir_find ----------

  /** One entry on: what the search knows after an entry that does not have the name. */
  lemma PassedOver(t: seq<DirEntry>, key: Key, upper: Upper, i: nat, ord: byte, sum: byte)
    requires i < |t| && (key.withLfn ==> Expects(t, key, upper, i, ord, sum))
    ensures IsShort(t[i]) ==>
      (IsHit(t, key, upper, i) <==>
        (key.withLfn && ord == 0 && sum == SumSfn(t[i][..11])) || ShortMatch(t[i], key))
    ensures !IsShort(t[i]) ==> !IsHit(t, key, upper, i)
  {
    RunUnique(t, key, upper, i, 0, SumSfn(t[i][..11]), ord, sum);
  }

  /** Find the object with the name in `dp`. */
  method DirFind(dp: Dir, upper: Upper) returns (res: FResult)
    requires dp.Valid()
    modifies dp.fs, dp.fs.win, dp`index, dp`clust, dp`sect, dp`dir, dp`chain, dp`lfnIdx
    ensures dp.fs.Valid() && dp.fs.Steady()
    ensures res == Ok || res == NoFile ==> dp.Valid() && Kept(dp)
    ensures res == Ok ==>
      && dp.At(dp.index) && FirstHit(dp.Table(), KeyOf(dp), upper, dp.index) && dp.fs.winsect == dp.sect
      && dp.lfnIdx == if dp.withLfn then LongTop(dp.Table(), dp.index) else 0xFFFF
    ensures res == NoFile ==> Absent(dp.Table(), KeyOf(dp), upper)
    ensures res == Ok || res == NoFile || (res == DiskErr && dp.fs.faults > old(dp.fs.faults))
  {
    hide FatOf, IsTable, OnVolume, HasReserved, IsChain, StartsAt, FreeBelow, Entries, PlaceOf, Matches, LongRun,
      IsHit, Expects, SameSnap, Absent, LongTop, Reach, Capacity, CountKept;
    ghost var t, key, s0 := dp.Table(), KeyOf(dp), SnapOf(dp);
    res := Rewind(dp);
    if res != Ok { return; }
    var ord: byte, sum: byte := 0xFF, 0xFF;
    dp.lfnIdx := 0xFFFF;
    NothingExpected(t, key, upper, sum);
    var more := true;
    while more
      invariant dp.fs.Valid() && dp.fs.Steady() && KeyOf(dp) == key
      invariant more || res == Ok || res == NoFile ==> dp.Valid() && Kept(dp)
      invariant more ==> dp.At(dp.index) && Searching(dp, upper, ord, sum, t)
      invariant more ==> NoEnd(t, dp.index) && forall j: nat :: j < dp.index ==> !IsHit(t, key, upper, j)
      invariant !more && res == Ok ==>
        && dp.At(dp.index) && FirstHit(t, key, upper, dp.index) && dp.fs.winsect == dp.sect
        && dp.lfnIdx == if key.withLfn then LongTop(t, dp.index) else 0xFFFF
      invariant !more && res == NoFile ==> Absent(t, key, upper)
      invariant more || res == Ok || res == NoFile || (res == DiskErr && dp.fs.faults > old(dp.fs.faults))
      decreases more, |t| - dp.index
    {
      ghost var a := SnapOf(dp);
      res, more, ord, sum := FindHere(dp, upper, ord, sum, t);
      if more || res == Ok || res == NoFile {
        SameSnapAgain(dp.fs.g, s0, a, SnapOf(dp));
      }
      if res == NoFile && !more {
        EndsTable(t, key, upper, if t[dp.index][0] == 0 then dp.index else |t|);
      }
    }
  }

  /** What holds while the search is at an entry. */
  ghost predicate Searching(dp: Dir, upper: Upper, ord: byte, sum: byte, t: seq<DirEntry>)
    reads dp
  {
    && dp.index <= |t|
    && (if dp.withLfn then Expects(t, KeyOf(dp), upper, dp.index, ord, sum) else ord == 0xFF)
    && dp.lfnIdx == if dp.withLfn then LongTop(t, dp.index) else 0xFFFF
  }

  /** Look at one entry, and unless it is the one or the last, go on to the next. */
  method FindHere(dp: Dir, upper: Upper, ord0: byte, sum0: byte, ghost t: seq<DirEntry>)
    returns (res: FResult, more: bool, ord: byte, sum: byte)
    requires dp.Valid() && dp.At(dp.index) && dp.Table() == t && Searching(dp, upper, ord0, sum0, t)
    modifies dp.fs, dp.fs.win, dp`index, dp`clust, dp`sect, dp`dir, dp`chain, dp`lfnIdx
    ensures dp.fs.Valid() && dp.fs.Steady()
    ensures more || res == Ok || res == NoFile ==> dp.Valid() && Kept(dp)
    ensures more || res == Ok ==> dp.At(dp.index)
    ensures more ==>
      && Searching(dp, upper, ord, sum, t) && dp.index == old(dp.index) + 1
      && t[old(dp.index)][0] != 0 && !IsHit(t, KeyOf(dp), upper, old(dp.index))
    ensures !more && res == Ok ==>
      && dp.index == old(dp.index) && dp.lfnIdx == old(dp.lfnIdx) && IsHit(t, KeyOf(dp), upper, dp.index)
      && dp.fs.winsect == dp.sect
    ensures !more && res == NoFile ==>
      && dp.index == old(dp.index)
      && (t[dp.index][0] == 0 || (!IsHit(t, KeyOf(dp), upper, dp.index) && dp.index + 1 == |t|))
    ensures more || res == Ok || res == NoFile || (res == DiskErr && dp.fs.faults > old(dp.fs.faults))
  {
    hide FatOf, IsTable, OnVolume, HasReserved, IsChain, StartsAt, FreeBelow, Entries, PlaceOf, Matches, LongRun,
      IsHit, Expects, LongTop, SameSnap;
    more, ord, sum := false, ord0, sum0;
    var e;
    ghost var s0 := SnapOf(dp);
    res, e := Peek(dp);
    if res != Ok { return; }
    ghost var s1 := SnapOf(dp);
    if e[0] == 0 { return NoFile, false, ord, sum; }
    res, ord, sum := LookAt(dp, upper, e, ord, sum, t);
    if res == Ok { return; }
    res := Advance(dp);
    more := res == Ok;
    if res == Ok || res == NoFile {
      SameSnapAgain(dp.fs.g, s0, s1, SnapOf(dp));
    }
  }

  /** Is this the entry? `Ok` says so; otherwise the state of the search goes on. */
  method LookAt(dp: Dir, upper: Upper, e: DirEntry, ord0: byte, sum0: byte, ghost t: seq<DirEntry>)
    returns (res: FResult, ord: byte, sum: byte)
    requires dp.index < |t| && e == t[dp.index] && e[0] != 0 && |dp.fn| == 12
    requires Searching(dp, upper, ord0, sum0, t)
    modifies dp`lfnIdx
    ensures res == Ok <==> IsHit(t, KeyOf(dp), upper, dp.index)
    ensures res == Ok ==> dp.lfnIdx == old(dp.lfnIdx)
    ensures res != Ok ==>
      && (if dp.withLfn then Expects(t, KeyOf(dp), upper, dp.index + 1, ord, sum) else ord == 0xFF)
      && dp.lfnIdx == if dp.withLfn then LongTop(t, dp.index + 1) else 0xFFFF
  {
    hide LongRun, Matches, IsHit, Expects, LongTop, SumSfn;
    var c, a := e[0], e[11] % 0x40;
    ord, sum, res := ord0, sum0, NoFile;
    ghost var key := KeyOf(dp);
    AttributeBits(e);
    TopStep(t, dp.index);
    PassedOver(t, key, upper, dp.index, ord, sum);
    if c == DDEM || (a / 8 % 2 == 1 && a != AM_LFN) {
      ord := 0xFF;
      dp.lfnIdx := 0xFFFF;
      ExpectsNothing(t, key, upper, dp.index, sum);
    } else if a == AM_LFN {
      if dp.withLfn {
        ExpectsNext(t, key, upper, dp.index, ord, sum);
        MatchOrder(dp.lfn, e, upper);
        if Starts(e) {
          sum := e[13];
          c := c - LLEF;
          ord := c;
          dp.lfnIdx := dp.index;
        }
        var ok := c == ord && sum == e[13];
        if ok {
          ok := CmpLfn(dp.lfn, e, upper);
        }
        ord := if ok then ord - 1 else 0xFF;
      }
    } else {
      var s := SumOf(e);
      if ord == 0 && sum == s { return Ok, ord, sum; }
      if dp.fn[11] % 2 == 0 && e[..11] == dp.fn[..11] { return Ok, ord, sum; }
      ord := 0xFF;
      dp.lfnIdx := 0xFFFF;
      ExpectsNothing(t, key, upper, dp.index, sum);
    }
  }

  /** The attributes tell what an entry is that is neither free nor the end of the table. */
  lemma AttributeBits(e: DirEntry)
    requires e[0] != 0
    ensures var a := e[11] % 0x40;
      && (e[0] == DDEM || (a / 8 % 2 == 1 && a != AM_LFN) <==> !IsLong(e) && !IsShort(e))
      && (IsLong(e) ==> a == AM_LFN && !IsShort(e))
  {
  }

  lemma TopStep(t: seq<DirEntry>, i: nat)
    requires i < |t|
    ensures LongTop(t, i + 1) == if !IsLong(t[i]) then 0xFFFF else if Starts(t[i]) then i else LongTop(t, i)
  {
  }

  lemma MatchOrder(lfn: LfnBuf, e: DirEntry, upper: Upper)
    ensures Matches(lfn, e, upper) ==> Order(e) >= 1
  {
  }

  lemma NothingExpected(t: seq<DirEntry>, key: Key, upper: Upper, sum: byte)
    ensures Expects(t, key, upper, 0, 0xFF, sum)
  {
  }

  lemma EndsTable(t: seq<DirEntry>, key: Key, upper: Upper, n: nat)
    requires n <= |t| && (n < |t| ==> t[n][0] == 0)
    requires forall j: nat :: j < n ==> !IsHit(t, key, upper, j)
    ensures Absent(t, key, upper)
  {
    hide LongRun;
    assert n < |t| ==> !IsHit(t, key, upper, n);
    forall i: nat | NoEnd(t, i)
      ensures !IsHit(t, key, upper, i)
    {
      EndBounds(t, n, i);
    }
  }

  lemma EndBounds(t: seq<DirEntry>, n: nat, i: nat)
    requires n <= |t| && (n < |t| ==> t[n][0] == 0)
    ensures NoEnd(t, i) ==> i <= n
  {
  }

  // ---------- dir_alloc ----------

  /** The table may have got longer, by clusters that were free; other chains and other sectors are as they were. */
  ghost predicate Extended(g: Geometry, a: Snap, b: Snap) {
    && |a.fat| == |b.fat| == g.nFatent && a.chain <= b.chain && (a.chain == [] <==> b.chain == [])
    && IsTable(g, b.chain)
    && SameOutside(a.fat, b.fat, b.chain)
    && (forall c :: c in b.chain && c !in a.chain && c < |a.fat| ==> a.fat[c] == 0)
    && FreeCount(a.fat) + |a.chain| == FreeCount(b.fat) + |b.chain|
    && CountKept(a.free, a.fat, b.free, b.fat)
    && OnlyTable(g, a.view, b.view, b.chain)
  }

  lemma SameIsExtended(g: Geometry, a: Snap, b: Snap)
    requires SameSnap(g, a, b) && IsTable(g, a.chain) && |a.fat| == g.nFatent
    ensures Extended(g, a, b)
  {
  }

  lemma ExtendedAgain(g: Geometry, a: Snap, b: Snap, c: Snap)
    requires Extended(g, a, b) && Extended(g, b, c)
    ensures Extended(g, a, c)
  {
    hide TableSector, IsTable;
    SameOutsideLonger(a.fat, b.fat, c.fat, b.chain, c.chain);
    forall s: nat | s < |a.view| && !InFat(g, s) && !InMirror(g, s) && !InTable(g, c.chain, s)
      ensures c.view[s] == a.view[s]
    {
      InLonger(g, b.chain, c.chain, s);
    }
  }

  lemma SameOutsideLonger(a: seq<nat>, b: seq<nat>, c: seq<nat>, s: seq<nat>, t: seq<nat>)
    requires SameOutside(a, b, s) && SameOutside(b, c, t) && s <= t
    ensures SameOutside(a, c, t)
  {
    forall x | 0 <= x < |a| && x !in t
      ensures c[x] == a[x]
    {
      assert x !in s;
    }
  }

  /** A longer table has the sectors of the shorter one. */
  lemma InLonger(g: Geometry, s: seq<nat>, t: seq<nat>, x: nat)
    requires IsTable(g, s) && IsTable(g, t) && s <= t && (s == [] ==> t == [])
    ensures InTable(g, s, x) ==> InTable(g, t, x)
  {
    if InTable(g, s, x) && s != [] {
      var k: nat :| k < TableSectors(g, s) && TableSector(g, s, k) == x;
      FileSectorPrefix(g, s, t, k);
      assert TableSector(g, t, k) == x;
    }
  }

  /** Where an entry of the old table is in a longer one. */
  lemma SamePlace(g: Geometry, s: seq<nat>, t: seq<nat>, i: nat)
    requires IsTable(g, s) && IsTable(g, t) && s <= t && s != [] && i < Capacity(g, s)
    ensures i < Capacity(g, t) && PlaceOf(g, t, i) == PlaceOf(g, s, i)
  {
    FileSectorPrefix(g, s, t, i / PER_SECTOR);
    ClusterBelow(i / PER_SECTOR, |s|, g.csize);
  }

  /** The entries of a table that has got a cleared cluster. */
  lemma GrownEntries(g: Geometry, v0: seq<Sector>, v1: seq<Sector>, chain: seq<nat>, r: u32)
    requires |v0| == |v1| == g.nsect && ClearedOnly(g, v0, v1, r) && chain != []
    requires IsTable(g, chain) && IsTable(g, chain + [r]) && Reach(g, chain) == Capacity(g, chain)
    ensures Lengthened(Entries(g, v0, chain), Entries(g, v1, chain + [r]))
    ensures OnlyTable(g, v0, v1, chain + [r])
  {
    hide FileSector, ClearedOnly;
    var t := chain + [r];
    forall i: nat | i < Reach(g, t)
      ensures EntryAt(g, v1, t, i) == if i < Reach(g, chain) then EntryAt(g, v0, chain, i) else ZeroEntry()
    {
      if i < Reach(g, chain) {
        SamePlace(g, chain, t, i);
        OldSector(g, v0, v1, chain, r, i / PER_SECTOR);
      } else {
        OtherSector(g, v0, v1, chain, r, i / PER_SECTOR);
        assert ZeroSector()[i % PER_SECTOR * 32..i % PER_SECTOR * 32 + 32] == ZeroEntry();
      }
    }
    SpanMono(|chain|, |t|, g.csize);
    ClearedElsewhere(g, v0, v1, chain, r);
  }

  lemma OldSector(g: Geometry, v0: seq<Sector>, v1: seq<Sector>, chain: seq<nat>, r: u32, k: nat)
    requires |v0| == g.nsect && ClearedOnly(g, v0, v1, r) && chain != [] && IsTable(g, chain) && IsTable(g, chain + [r])
    requires k < TableSectors(g, chain)
    ensures var x := TableSector(g, chain, k); v1[x] == v0[x]
  {
    var x, j := TableSector(g, chain, k), ClusterOf(k, g.csize);
    var t := chain + [r];
    ClusterBelow(k, |chain|, g.csize);
    Located(k, g.csize);
    assert t[j] != t[|chain|];
    if Clust2Sect(g, r) <= x < Clust2Sect(g, r) + g.csize {
      ClustersApart(g, chain[j], r, OffsetIn(k, g.csize), x - Clust2Sect(g, r));
    }
  }

  lemma OtherSector(g: Geometry, v0: seq<Sector>, v1: seq<Sector>, chain: seq<nat>, r: u32, k: nat)
    requires |v0| == g.nsect && ClearedOnly(g, v0, v1, r) && chain != [] && IsTable(g, chain) && IsTable(g, chain + [r])
    requires TableSectors(g, chain) <= k < TableSectors(g, chain + [r])
    ensures v1[TableSector(g, chain + [r], k)] == ZeroSector()
  {
    var t := chain + [r];
    ClusterBelow(k, |chain|, g.csize);
    ClusterBelow(k, |t|, g.csize);
    Located(k, g.csize);
    ClusterSectors(g, r);
  }

  lemma ClearedElsewhere(g: Geometry, v0: seq<Sector>, v1: seq<Sector>, chain: seq<nat>, r: u32)
    requires |v0| == g.nsect && ClearedOnly(g, v0, v1, r) && IsTable(g, chain) && IsTable(g, chain + [r])
    ensures OnlyTable(g, v0, v1, chain + [r])
  {
    var t := chain + [r];
    var base := Clust2Sect(g, r);
    forall s: nat | base <= s < base + g.csize
      ensures InTable(g, t, s)
    {
      var k := Span(|chain|, g.csize) + (s - base);
      assert Span(|t|, g.csize) == Span(|chain|, g.csize) + g.csize;
      LocatedAt(|chain|, s - base, g.csize);
      assert TableSector(g, t, k) == s;
    }
  }

  /** What moving on has done, the table stretched or not. */
  lemma NextExtends(g: Geometry, a: Snap, b: Snap, i: nat)
    requires |a.fat| == |b.fat| == g.nFatent && |a.view| == |b.view| == g.nsect
    requires IsTable(g, a.chain) && IsTable(g, b.chain) && IsChain(a.fat, a.chain)
    requires i < Reach(g, a.chain) && i + 1 < Reach(g, b.chain)
    requires AfterNext(g, a.fat, a.view, a.chain, b.fat, b.view, b.chain, i)
    requires i + 1 >= Capacity(g, a.chain) ==> a.chain != []
    requires CountKept(a.free, a.fat, b.free, b.fat)
    ensures Extended(g, a, b)
    ensures Lengthened(Entries(g, a.view, a.chain), Entries(g, b.view, b.chain))
  {
    hide FreeBelow, TableSector;
    if i + 1 < Capacity(g, a.chain) {
      SameTable(g, b.view, a.view, a.chain);
    } else {
      var r := b.chain[|b.chain| - 1];
      GrownEntries(g, a.view, b.view, a.chain, r);
      EndMarkEnds(g);
      AppendedChain(a.fat, a.chain, r, EndMark(g));
      AllocatedCount(g, a.fat, b.fat, a.chain[|a.chain| - 1], r);
    }
  }

  /** The next position, in a table that is stretched if need be. */
  method AdvanceOrStretch(dp: Dir) returns (res: FResult)
    requires dp.Valid() && dp.At(dp.index)
    modifies dp.fs, dp.fs.win, dp`index, dp`clust, dp`sect, dp`dir, dp`chain
    ensures dp.fs.Valid() && dp.fs.Steady()
    ensures res == Ok || res == NoFile || res == Denied ==>
      && dp.Valid() && Extended(dp.fs.g, old(SnapOf(dp)), SnapOf(dp)) && Lengthened(old(dp.Table()), dp.Table())
    ensures res == Ok ==> dp.index == old(dp.index) + 1 && dp.At(dp.index)
    ensures res == NoFile || res == Denied ==>
      |dp.Table()| == old(dp.index) + 1 && CannotStretch(dp.chain, |dp.Table()|, FreeCount(Fat(dp.fs)))
    ensures res == Ok || res == NoFile || res == Denied || (res == DiskErr && dp.fs.faults > old(dp.fs.faults))
  {
    hide FatOf, IsTable, OnVolume, HasReserved, IsChain, StartsAt, CountKept, Entries, PlaceOf, FreeBelow, AfterNext;
    ghost var a := SnapOf(dp);
    res := dp.Next(true);
    if res == Ok {
      NextExtends(dp.fs.g, a, SnapOf(dp), dp.index - 1);
    } else if res == NoFile || res == Denied {
      SameTable(dp.fs.g, dp.fs.View(), a.view, dp.chain);
      SameIsExtended(dp.fs.g, a, SnapOf(dp));
    }
  }

  /** A table of `n` entries is fixed, or as long as an index can tell, or no cluster is free. */
  predicate CannotStretch(chain: seq<nat>, n: nat, free: nat) {
    chain == [] || n == MAX_ENTRIES || free == 0
  }

  /** Find the first room for `nent` entries, in a table that is stretched if need be. */
  method DirAlloc(dp: Dir, nent: nat) returns (res: FResult)
    requires dp.Valid() && nent > 0
    modifies dp.fs, dp.fs.win, dp`index, dp`clust, dp`sect, dp`dir, dp`chain
    ensures dp.fs.Valid() && dp.fs.Steady()
    ensures res == Ok || res == Denied ==>
      && dp.Valid() && Extended(dp.fs.g, old(SnapOf(dp)), SnapOf(dp)) && Lengthened(old(dp.Table()), dp.Table())
    ensures res == Ok ==> dp.At(dp.index) && FirstRoom(dp.Table(), nent, dp.index)
    ensures res == Denied ==> CannotStretch(dp.chain, |dp.Table()|, FreeCount(Fat(dp.fs))) && Crowded(dp.Table(), nent)
    ensures res == Ok || res == Denied || (res == DiskErr && dp.fs.faults > old(dp.fs.faults))
  {
    hide FatOf, IsTable, OnVolume, HasReserved, IsChain, StartsAt, CountKept, Entries, PlaceOf, FreeBelow, Extended,
      Lengthened, Counted, FirstRoom, SameSnap, CannotStretch, Reach;
    ghost var s0, t0 := SnapOf(dp), dp.Table();
    res := Rewind(dp);
    if res != Ok { return; }
    SameIsExtended(dp.fs.g, s0, SnapOf(dp));
    LengthenedSelf(t0);
    CountStart(dp.Table(), nent);
    var n := 0;
    var more := true;
    while more
      invariant dp.fs.Valid() && dp.fs.Steady()
      invariant more || res == Ok || res == Denied ==>
        dp.Valid() && Extended(dp.fs.g, s0, SnapOf(dp)) && Lengthened(t0, dp.Table())
      invariant more || res == Ok ==> dp.At(dp.index)
      invariant more ==> Counted(dp.Table(), nent, dp.index, n)
      invariant !more && res == Ok ==> FirstRoom(dp.Table(), nent, dp.index)
      invariant !more && res == Denied ==>
        CannotStretch(dp.chain, |dp.Table()|, FreeCount(Fat(dp.fs))) && Crowded(dp.Table(), nent)
      invariant more || res == Ok || res == Denied || (res == DiskErr && dp.fs.faults > old(dp.fs.faults))
      decreases more, MAX_ENTRIES - dp.index
    {
      ghost var a, t := SnapOf(dp), dp.Table();
      res, more, n := TryHere(dp, nent, n);
      if more || res == Ok || res == Denied {
        ExtendedAgain(dp.fs.g, s0, a, SnapOf(dp));
        LengthenedAgain(t0, t, dp.Table());
      }
    }
  }

  lemma LengthenedSelf(t: seq<DirEntry>)
    ensures Lengthened(t, t)
  {
  }

  /** Look whether the entry completes a room, and if not go on to the next. */
  method TryHere(dp: Dir, nent: nat, n0: nat) returns (res: FResult, more: bool, n: nat)
    requires dp.Valid() && dp.At(dp.index) && Counted(dp.Table(), nent, dp.index, n0)
    modifies dp.fs, dp.fs.win, dp`index, dp`clust, dp`sect, dp`dir, dp`chain
    ensures dp.fs.Valid() && dp.fs.Steady()
    ensures more || res == Ok || res == Denied ==>
      && dp.Valid() && Extended(dp.fs.g, old(SnapOf(dp)), SnapOf(dp)) && Lengthened(old(dp.Table()), dp.Table())
    ensures more || res == Ok ==> dp.At(dp.index)
    ensures more ==> dp.index == old(dp.index) + 1 && Counted(dp.Table(), nent, dp.index, n)
    ensures !more && res == Ok ==> FirstRoom(dp.Table(), nent, dp.index)
    ensures !more && res == Denied ==>
      CannotStretch(dp.chain, |dp.Table()|, FreeCount(Fat(dp.fs))) && Crowded(dp.Table(), nent)
    ensures more || res == Ok || res == Denied || (res == DiskErr && dp.fs.faults > old(dp.fs.faults))
  {
    hide FatOf, IsTable, OnVolume, HasReserved, IsChain, StartsAt, CountKept, Entries, PlaceOf, FreeBelow, Extended,
      Lengthened, Counted, FirstRoom, SameSnap, CannotStretch;
    ghost var s0, t := SnapOf(dp), dp.Table();
    n, more := n0, false;
    var e;
    res, e := Peek(dp);
    if res != Ok { return; }
    ghost var s1 := SnapOf(dp);
    SameIsExtended(dp.fs.g, s0, s1);
    LengthenedSelf(t);
    CountNext(t, nent, dp.index, n);
    ghost var i: nat := dp.index;
    if e[0] == DDEM || e[0] == 0 {
      n := n + 1;
      if n == nent { return; }
    } else {
      n := 0;
    }
    res := AdvanceOrStretch(dp);
    if res == Ok || res == NoFile || res == Denied {
      ExtendedAgain(dp.fs.g, s0, s1, SnapOf(dp));
      CountLonger(t, dp.Table(), nent, i + 1, n);
      if res != Ok {
        NoRoom(dp.Table(), nent, n);
        res := Denied;
      } else {
        more := true;
      }
    }
  }

  lemma NoRoom(t: seq<DirEntry>, m: nat, n: nat)
    requires Counted(t, m, |t|, n)
    ensures Crowded(t, m)
  {
  }
}
