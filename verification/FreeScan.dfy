/**
  Counting the free clusters of a volume when the count is not known.
*/
module FreeScan {
  import opened Bytes
  import opened Volume
  import opened FatCodec
  import opened Chains
  import opened Allocator

  /** Zero entries among the first `k`, the two reserved ones included. */
  ghost function ZeroBelow(fat: seq<nat>, k: nat): nat
    requires k <= |fat|
  {
    if k == 0 then 0 else ZeroBelow(fat, k - 1) + if fat[k - 1] == 0 then 1 else 0
  }

  /** Counting all entries finds the free clusters, and entries 0 and 1 where they are zero. */
  lemma {:induction false} ZeroAndFree(fat: seq<nat>, k: nat)
    requires 2 <= k <= |fat|
    ensures ZeroBelow(fat, k) ==
      FreeBelow(fat, k) + (if fat[0] == 0 then 1 else 0) + (if fat[1] == 0 then 1 else 0)
  {
    if k > 2 {
      ZeroAndFree(fat, k - 1);
    } else {
      assert ZeroBelow(fat, 1) == if fat[0] == 0 then 1 else 0;
    }
  }

  lemma {:induction false} ZeroBelowBound(fat: seq<nat>, k: nat)
    requires k <= |fat|
    ensures ZeroBelow(fat, k) <= k
  {
    if k > 0 {
      ZeroBelowBound(fat, k - 1);
    }
  }

  /** Entry by entry, through get_fat. */
  method ScanEntries(fs: Fatfs) returns (res: FResult, n: u32)
    requires fs.Valid()
    modifies fs`disk, fs`wflag, fs`faults, fs`winsect, fs.win
    ensures fs.Valid() && fs.Steady()
    ensures Agree(fs.g, fs.View(), old(fs.View())) && Fat(fs) == old(Fat(fs))
    ensures res == Ok ==> n == FreeCount(Fat(fs)) && !HasReserved(Fat(fs))
    ensures res != Ok ==> (res == IntErr && HasReserved(Fat(fs))) || (res == DiskErr && fs.faults > old(fs.faults))
  {
    hide FatOf;
    ghost var fat := Fat(fs);
    res, n := Ok, 0;
    var clst: u32 := 2;
    while clst < fs.g.nFatent
      invariant fs.Valid() && fs.Steady()
      invariant Agree(fs.g, fs.View(), old(fs.View())) && Fat(fs) == fat
      invariant 2 <= clst <= fs.g.nFatent && res == Ok
      invariant n == FreeBelow(fat, clst) <= clst
      invariant forall c :: 2 <= c < clst ==> fat[c] != 1
      decreases fs.g.nFatent - clst
    {
      var stat := GetFat(fs, clst);
      if stat == DISK_ERROR { res := DiskErr; break; }
      if stat == 1 { res := IntErr; break; }
      if stat == 0 { n := n + 1; }
      clst := clst + 1;
    }
  }

  /** Width of an entry in bytes, where entries take whole bytes. */
  function Width(t: FatType): nat {
    if t == Fat16 then 2 else 4
  }

  /** Is the entry at offset `p` of the window zero? */
  predicate ZeroAt(t: FatType, s: Sector, p: nat)
    requires p + Width(t) <= SS
  {
    if t == Fat16 then Ld16(s, p) == 0 else Ld32(s, p) % 0x1000_0000 == 0
  }

  /** Where entry `c` lies, for 16- and 32-bit entries. */
  lemma EntryPlace(g: Geometry, d: seq<Sector>, c: nat)
    requires |d| == g.nsect && c < g.nFatent && g.fsType != Fat12
    ensures var o := EntryOffset(g.fsType, c);
      && InFat(g, g.fatbase + o / SS) && g.fatbase + o / SS < |d| && o % SS + Width(g.fsType) <= SS
      && (FatOf(g, d)[c] == 0 <==> ZeroAt(g.fsType, d[g.fatbase + o / SS], o % SS))
  {
    hide FatOf;
    if g.fsType == Fat16 {
      Entry16(g, d, c);
      assert 2 * c / SS == c / 256 && 2 * c % SS == c * 2 % SS;
    } else {
      Entry32(g, d, c);
      assert 4 * c / SS == c / 128 && 4 * c % SS == c * 4 % SS;
    }
  }

  /** `i` bytes of the sector before number `k` are still to be scanned, from offset `o` on. */
  predicate Ahead(o: nat, k: nat, i: nat) {
    k * SS == o + i && i <= SS
  }

  lemma AheadPlace(o: nat, k: nat, i: nat)
    requires Ahead(o, k, i)
    ensures i == 0 ==> o / SS == k && o % SS == 0
    ensures 0 < i < SS ==> o / SS == k - 1 && o % SS == SS - i
    ensures i == SS ==> o / SS == k - 1 && o % SS == 0
  {
  }

  /** Before entry `c`: `i` bytes of the sector in the window are left, the next ones at `p`. */
  ghost predicate ScanAt(fs: Fatfs, c: nat, k: nat, i: nat, p: nat)
    requires fs.g.fsType != Fat12
    reads fs
  {
    && i % Width(fs.g.fsType) == 0 && Ahead(EntryOffset(fs.g.fsType, c), k, i)
    && (i != 0 ==> i + p == SS && fs.winsect == fs.g.fatbase + k - 1)
  }

  lemma ScanStart(fs: Fatfs)
    requires fs.g.fsType != Fat12
    ensures ScanAt(fs, 0, 0, 0, 0)
  {
  }

  /** Fetch the sector of entry `c` if the one before it is used up. */
  method Fetch(fs: Fatfs, ghost c: nat, k: nat, i: nat, p: nat) returns (res: FResult, k': nat, i': nat, p': nat)
    requires fs.Valid() && fs.g.fsType != Fat12 && c < fs.g.nFatent && ScanAt(fs, c, k, i, p)
    modifies fs`disk, fs`wflag, fs`faults, fs`winsect, fs.win
    ensures fs.Valid() && fs.Steady()
    ensures Agree(fs.g, fs.View(), old(fs.View())) && Fat(fs) == old(Fat(fs))
    ensures if res == Ok then ScanAt(fs, c, k', i', p') && i' != 0 else res == DiskErr && fs.faults > old(fs.faults)
  {
    hide FatOf, ZeroAt;
    EntryPlace(fs.g, fs.View(), c);
    AheadPlace(EntryOffset(fs.g.fsType, c), k, i);
    res, k', i', p' := Ok, k, i, p;
    if i == 0 {
      res := MoveToFat(fs, fs.g.fatbase + k);
      if res == Ok {
        k', i', p' := k + 1, SS, 0;
      }
    }
  }

  lemma AheadStep(t: FatType, c: nat, k: nat, i: nat)
    requires t != Fat12 && Ahead(EntryOffset(t, c), k, i) && i % Width(t) == 0 && i > 0
    ensures i >= Width(t) && (i - Width(t)) % Width(t) == 0
    ensures Ahead(EntryOffset(t, c + 1), k, i - Width(t))
  {
  }

  /** Look at entry `c`, in the window at `p`. */
  method LookAt(fs: Fatfs, ghost c: nat, ghost k: nat, ghost i: nat, p: nat) returns (zero: bool)
    requires fs.Valid() && fs.g.fsType != Fat12 && c < fs.g.nFatent && ScanAt(fs, c, k, i, p) && i != 0
    ensures zero <==> Fat(fs)[c] == 0
    ensures i >= Width(fs.g.fsType) && ScanAt(fs, c + 1, k, i - Width(fs.g.fsType), p + Width(fs.g.fsType))
  {
    hide FatOf, ZeroAt;
    AheadPlace(EntryOffset(fs.g.fsType, c), k, i);
    EntryPlace(fs.g, fs.View(), c);
    AheadStep(fs.g.fsType, c, k, i);
    hide Ahead;
    assert fs.win[..] == fs.View()[fs.winsect];
    zero := ZeroAt(fs.g.fsType, fs.win[..], p);
  }

  /** Sector by sector, over the whole FAT: faster, but entries 0 and 1 are looked at as well. */
  method ScanSectors(fs: Fatfs) returns (res: FResult, n: u32)
    requires fs.Valid() && fs.g.fsType != Fat12
    modifies fs`disk, fs`wflag, fs`faults, fs`winsect, fs.win
    ensures fs.Valid() && fs.Steady()
    ensures Agree(fs.g, fs.View(), old(fs.View())) && Fat(fs) == old(Fat(fs))
    ensures if res == Ok then n == ZeroBelow(Fat(fs), fs.g.nFatent) else res == DiskErr && fs.faults > old(fs.faults)
  {
    hide FatOf, ScanAt;
    ghost var fat := Fat(fs);
    assert ScanAt(fs, 0, 0, 0, 0) by { ScanStart(fs); }
    res, n := Ok, 0;
    var clst: u32 := fs.g.nFatent;
    var k: nat, i: nat, p: nat := 0, 0, 0;
    while clst > 0
      invariant fs.Valid() && fs.Steady()
      invariant Agree(fs.g, fs.View(), old(fs.View())) && Fat(fs) == fat
      invariant 0 <= clst <= fs.g.nFatent && res == Ok
      invariant n == ZeroBelow(fat, fs.g.nFatent - clst) <= fs.g.nFatent - clst
      invariant ScanAt(fs, fs.g.nFatent - clst, k, i, p)
      decreases clst
    {
      ghost var c := fs.g.nFatent - clst;
      res, k, i, p := Fetch(fs, c, k, i, p);
      if res != Ok { break; }
      var zero := LookAt(fs, c, k, i, p);
      if zero { n := n + 1; }
      p, i := p + Width(fs.g.fsType), i - Width(fs.g.fsType);
      clst := clst - 1;
    }
  }

  /**
    The number of free clusters: the count kept, if there is a plausible one, or else a new
    count. On FAT16 and FAT32 the new count is off by the zero entries among entries 0 and 1.
  */
  method GetFree(fs: Fatfs) returns (res: FResult, nclst: u32)
    requires fs.Valid()
    modifies fs, fs.win
    ensures fs.Valid() && fs.Steady()
    ensures Agree(fs.g, fs.View(), old(fs.View())) && Fat(fs) == old(Fat(fs))
    ensures old(fs.freeClust) <= fs.g.nFatent - 2 ==> res == Ok && nclst == old(fs.freeClust) == fs.freeClust
    ensures old(fs.freeClust) > fs.g.nFatent - 2 && res == Ok ==>
      && fs.freeClust == nclst
      && nclst == FreeCount(Fat(fs)) +
           if fs.g.fsType == Fat12 then 0
           else (if Fat(fs)[0] == 0 then 1 else 0) + (if Fat(fs)[1] == 0 then 1 else 0)
    ensures res != Ok ==>
      (res == IntErr && fs.g.fsType == Fat12 && HasReserved(Fat(fs))) || (res == DiskErr && fs.faults > old(fs.faults))
    ensures fs.lastClust == old(fs.lastClust)
  {
    hide FatOf;
    if fs.freeClust <= fs.g.nFatent - 2 {
      return Ok, fs.freeClust;
    }
    if fs.g.fsType == Fat12 {
      res, nclst := ScanEntries(fs);
    } else {
      res, nclst := ScanSectors(fs);
      ZeroAndFree(Fat(fs), fs.g.nFatent);
    }
    StoreCount(fs, nclst);
  }

  method StoreCount(fs: Fatfs, n: u32)
    requires fs.Valid()
    modifies fs`freeClust, fs`fsiFlag
    ensures fs.Valid() && fs.View() == old(fs.View()) && Fat(fs) == old(Fat(fs))
    ensures fs.freeClust == n && fs.fsiFlag == WithBit0(old(fs.fsiFlag))
  {
    fs.freeClust := n;
    fs.fsiFlag := WithBit0(fs.fsiFlag);
  }
}
