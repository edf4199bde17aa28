/**
  The packed FAT: 12-, 16- and 28-bit entries, read and written through the window.
  Specified by the sequence of entries that the first FAT copy of the logical disk encodes.
*/
module FatCodec {
  import opened Bytes
  import opened Numbers
  import opened Volume

  // ---------- Specification: the entries a disk encodes ----------

  ghost function FatByte(g: Geometry, d: seq<Sector>, i: nat): byte
    requires g.fatbase + i / SS < |d|
  {
    d[g.fatbase + i / SS][i % SS]
  }

  ghost predicate InFatBytes(g: Geometry, d: seq<Sector>, i: int) {
    0 <= i < g.fsize * SS && g.fatbase + i / SS < |d|
  }

  ghost function FatWord(g: Geometry, d: seq<Sector>, i: nat): (w: u16)
    requires InFatBytes(g, d, i) && InFatBytes(g, d, i + 1)
  {
    FatByte(g, d, i) as int + 0x100 * FatByte(g, d, i + 1) as int
  }

  /** First byte of entry `c`. */
  function EntryOffset(t: FatType, c: nat): nat {
    match t
    case Fat12 => c + c / 2
    case Fat16 => 2 * c
    case Fat32 => 4 * c
  }

  function EntryBits(t: FatType): nat {
    match t
    case Fat12 => 0x1000
    case Fat16 => 0x1_0000
    case Fat32 => 0x1000_0000
  }

  /** Every byte of every entry lies in the first FAT copy, on the drive. */
  lemma EntryInFat(g: Geometry, d: seq<Sector>, c: nat)
    requires |d| == g.nsect && c < g.nFatent
    ensures var bc := EntryOffset(g.fsType, c);
      && InFatBytes(g, d, bc) && InFatBytes(g, d, bc + 1)
      && (g.fsType == Fat32 ==> InFatBytes(g, d, bc + 2) && InFatBytes(g, d, bc + 3))
  {
  }

  ghost function Entry(g: Geometry, d: seq<Sector>, c: nat): (v: nat)
    requires |d| == g.nsect && c < g.nFatent
  {
    EntryInFat(g, d, c);
    var bc := EntryOffset(g.fsType, c);
    match g.fsType
    case Fat12 =>
      if c % 2 == 1 then FatWord(g, d, bc) / 0x10 else FatWord(g, d, bc) % 0x1000
    case Fat16 => FatWord(g, d, bc)
    case Fat32 => (FatWord(g, d, bc) as int + 0x1_0000 * FatWord(g, d, bc + 2) as int) % 0x1000_0000
  }

  ghost function FatOf(g: Geometry, d: seq<Sector>): (fat: seq<nat>)
    requires |d| == g.nsect
    ensures |fat| == g.nFatent
  {
    seq(g.nFatent, c requires 0 <= c < g.nFatent => Entry(g, d, c))
  }

  /** A 12-bit entry is one and a half of two consecutive bytes. */
  lemma Entry12(g: Geometry, d: seq<Sector>, c: nat)
    requires |d| == g.nsect && c < g.nFatent && g.fsType == Fat12
    ensures InFatBytes(g, d, c + c / 2) && InFatBytes(g, d, c + c / 2 + 1)
    ensures FatOf(g, d)[c] == From12(c, FatByte(g, d, c + c / 2), FatByte(g, d, c + c / 2 + 1))
  {
    EntryInFat(g, d, c);
  }

  function From12(c: nat, lo: byte, hi: byte): (v: nat)
    ensures v < 0x1000
  {
    var wc := lo as int + hi as int * 0x100;
    if c % 2 == 1 then wc / 0x10 else wc % 0x1000
  }

  /** A 16-bit entry is one word of one sector. */
  lemma Entry16(g: Geometry, d: seq<Sector>, c: nat)
    requires |d| == g.nsect && c < g.nFatent && g.fsType == Fat16
    ensures InFat(g, g.fatbase + c / 256) && c * 2 % SS + 2 <= SS && g.fatbase + c / 256 < |d|
    ensures FatOf(g, d)[c] == Ld16(d[g.fatbase + c / 256], c * 2 % SS)
  {
    EntryInFat(g, d, c);
    var s, p := d[g.fatbase + c / 256], c * 2 % SS;
    assert FatByte(g, d, 2 * c) == s[p] && FatByte(g, d, 2 * c + 1) == s[p + 1];
  }

  /** A 32-bit entry is one double word of one sector. */
  lemma Entry32(g: Geometry, d: seq<Sector>, c: nat)
    requires |d| == g.nsect && c < g.nFatent && g.fsType == Fat32
    ensures InFat(g, g.fatbase + c / 128) && c * 4 % SS + 4 <= SS && g.fatbase + c / 128 < |d|
    ensures FatOf(g, d)[c] == Ld32(d[g.fatbase + c / 128], c * 4 % SS) % 0x1000_0000
  {
    EntryInFat(g, d, c);
    var s, p := d[g.fatbase + c / 128], c * 4 % SS;
    assert FatByte(g, d, 4 * c) == s[p] && FatByte(g, d, 4 * c + 1) == s[p + 1];
    assert FatByte(g, d, 4 * c + 2) == s[p + 2] && FatByte(g, d, 4 * c + 3) == s[p + 3];
  }

  ghost function Fat(fs: Fatfs): (fat: seq<nat>)
    requires fs.Valid()
    reads fs, fs.win
    ensures |fat| == fs.g.nFatent
  {
    FatOf(fs.g, fs.View())
  }

  /** The entries depend on the first FAT copy only. */
  lemma SameFirstCopy(g: Geometry, a: seq<Sector>, b: seq<Sector>)
    requires |a| == g.nsect && |a| == |b|
    requires forall s :: 0 <= s < |a| && InFat(g, s) ==> a[s] == b[s]
    ensures FatOf(g, a) == FatOf(g, b)
  {
    forall c | 0 <= c < g.nFatent
      ensures Entry(g, a, c) == Entry(g, b, c)
    {
      EntryInFat(g, a, c);
    }
  }

  ghost function PutByte(g: Geometry, d: seq<Sector>, i: nat, b: byte): (e: seq<Sector>)
    requires g.fatbase + i / SS < |d|
    ensures |e| == |d|
    ensures forall j: nat :: g.fatbase + j / SS < |d| ==> FatByte(g, e, j) == if j == i then b else FatByte(g, d, j)
  {
    var s := g.fatbase + i / SS;
    d[s := d[s][i % SS := b]]
  }

  /** What 28-bit entries keep in their top four bits: the bits of `a` or `b`. */
  function OrNibble(a: nat, b: nat): (r: nat)
    requires a < 16 && b < 16
    ensures r < 16
  {
    ((a as bv4) | (b as bv4)) as int
  }

  /** Bring a sector of the first FAT copy into the window; no entry changes. */
  method MoveToFat(fs: Fatfs, sect: u32) returns (res: FResult)
    requires fs.Valid() && InFat(fs.g, sect)
    modifies fs`disk, fs`wflag, fs`faults, fs`winsect, fs.win
    ensures fs.Valid() && fs.Steady()
    ensures Agree(fs.g, fs.View(), old(fs.View())) && Fat(fs) == old(Fat(fs))
    ensures res == Ok ==> fs.winsect == sect && fs.win[..] == fs.View()[sect] == old(fs.View())[sect]
    ensures res != Ok ==> res == DiskErr && fs.faults > old(fs.faults)
    ensures res != Ok ==> fs.winsect == old(fs.winsect) || fs.winsect == 0xFFFF_FFFF
  {
    res := fs.MoveWindow(sect);
    SameFirstCopy(fs.g, fs.View(), old(fs.View()));
  }

  // ---------- get_fat ----------

  /** One byte of the FAT, through the window. */
  method LoadFatByte(fs: Fatfs, bc: nat) returns (res: FResult, b: byte)
    requires fs.Valid() && bc < fs.g.fsize * SS
    modifies fs`disk, fs`wflag, fs`faults, fs`winsect, fs.win
    ensures fs.Valid() && fs.Steady()
    ensures Agree(fs.g, fs.View(), old(fs.View())) && Fat(fs) == old(Fat(fs))
    ensures res == Ok ==>
      fs.winsect == fs.g.fatbase + bc / SS && b == FatByte(fs.g, old(fs.View()), bc) == FatByte(fs.g, fs.View(), bc)
    ensures res != Ok ==> res == DiskErr && fs.faults > old(fs.faults)
    ensures res != Ok ==> fs.winsect == old(fs.winsect) || fs.winsect == 0xFFFF_FFFF
  {
    b := 0;
    res := MoveToFat(fs, fs.g.fatbase + bc / SS);
    if res == Ok {
      b := fs.win[bc % SS];
    }
  }

  /** Two consecutive bytes of the FAT, which may lie in different sectors. */
  method LoadFatPair(fs: Fatfs, bc: nat) returns (res: FResult, lo: byte, hi: byte)
    requires fs.Valid() && bc + 1 < fs.g.fsize * SS
    modifies fs`disk, fs`wflag, fs`faults, fs`winsect, fs.win
    ensures fs.Valid() && fs.Steady()
    ensures Agree(fs.g, fs.View(), old(fs.View())) && Fat(fs) == old(Fat(fs))
    ensures res == Ok ==>
      && InFat(fs.g, fs.winsect)
      && lo == FatByte(fs.g, fs.View(), bc) && hi == FatByte(fs.g, fs.View(), bc + 1)
    ensures res != Ok ==> res == DiskErr && fs.faults > old(fs.faults)
    ensures res != Ok ==> fs.winsect == old(fs.winsect) || InFat(fs.g, fs.winsect) || fs.winsect == 0xFFFF_FFFF
  {
    hi := 0;
    res, lo := LoadFatByte(fs, bc);
    if res == Ok {
      res, hi := LoadFatByte(fs, bc + 1);
    }
  }

  method GetFat12(fs: Fatfs, clst: u32) returns (val: u32)
    requires fs.Valid() && fs.g.fsType == Fat12 && clst < fs.g.nFatent
    modifies fs`disk, fs`wflag, fs`faults, fs`winsect, fs.win
    ensures fs.Valid() && fs.Steady()
    ensures Agree(fs.g, fs.View(), old(fs.View())) && Fat(fs) == old(Fat(fs))
    ensures if val == 0xFFFF_FFFF then fs.faults > old(fs.faults)
            else val == Fat(fs)[clst] && InFat(fs.g, fs.winsect)
    ensures fs.winsect == old(fs.winsect) || InFat(fs.g, fs.winsect) || fs.winsect == 0xFFFF_FFFF
  {
    Entry12(fs.g, fs.View(), clst);
    var res, lo, hi := LoadFatPair(fs, clst as int + clst as int / 2);
    if res != Ok {
      return 0xFFFF_FFFF;
    }
    Entry12(fs.g, fs.View(), clst);
    val := From12(clst, lo, hi);
  }

  method GetFat16(fs: Fatfs, clst: u32) returns (val: u32)
    requires fs.Valid() && fs.g.fsType == Fat16 && clst < fs.g.nFatent
    modifies fs`disk, fs`wflag, fs`faults, fs`winsect, fs.win
    ensures fs.Valid() && fs.Steady()
    ensures Agree(fs.g, fs.View(), old(fs.View())) && Fat(fs) == old(Fat(fs))
    ensures if val == 0xFFFF_FFFF then fs.faults > old(fs.faults)
            else val == Fat(fs)[clst] && InFat(fs.g, fs.winsect)
    ensures fs.winsect == old(fs.winsect) || InFat(fs.g, fs.winsect) || fs.winsect == 0xFFFF_FFFF
  {
    Entry16(fs.g, fs.View(), clst);
    var res := MoveToFat(fs, fs.g.fatbase + clst / (SS / 2));
    if res != Ok { return 0xFFFF_FFFF; }
    Entry16(fs.g, fs.View(), clst);
    val := Ld16(fs.win[..], clst * 2 % SS);
  }

  method GetFat32(fs: Fatfs, clst: u32) returns (val: u32)
    requires fs.Valid() && fs.g.fsType == Fat32 && clst < fs.g.nFatent
    modifies fs`disk, fs`wflag, fs`faults, fs`winsect, fs.win
    ensures fs.Valid() && fs.Steady()
    ensures Agree(fs.g, fs.View(), old(fs.View())) && Fat(fs) == old(Fat(fs))
    ensures if val == 0xFFFF_FFFF then fs.faults > old(fs.faults)
            else val == Fat(fs)[clst] && InFat(fs.g, fs.winsect)
    ensures fs.winsect == old(fs.winsect) || InFat(fs.g, fs.winsect) || fs.winsect == 0xFFFF_FFFF
  {
    Entry32(fs.g, fs.View(), clst);
    var res := MoveToFat(fs, fs.g.fatbase + clst / (SS / 4));
    if res != Ok { return 0xFFFF_FFFF; }
    Entry32(fs.g, fs.View(), clst);
    val := Ld32(fs.win[..], clst * 4 % SS) % 0x1000_0000;
  }

  /** Read an entry; 1: out of range, 0xFFFFFFFF: the drive failed. */
  method GetFat(fs: Fatfs, clst: u32) returns (val: u32)
    requires fs.Valid()
    modifies fs`disk, fs`wflag, fs`faults, fs`winsect, fs.win
    ensures fs.Valid() && fs.Steady()
    ensures Agree(fs.g, fs.View(), old(fs.View())) && Fat(fs) == old(Fat(fs))
    ensures clst < 2 || clst >= fs.g.nFatent ==>
      val == 1 && fs.winsect == old(fs.winsect) && fs.faults == old(fs.faults)
    ensures 2 <= clst < fs.g.nFatent ==>
      if val == 0xFFFF_FFFF then fs.faults > old(fs.faults)
      else val == Fat(fs)[clst] && InFat(fs.g, fs.winsect)
    ensures fs.winsect == old(fs.winsect) || InFat(fs.g, fs.winsect) || fs.winsect == 0xFFFF_FFFF
  {
    if clst < 2 || clst >= fs.g.nFatent {
      return 1;
    }
    match fs.g.fsType {
      case Fat12 => val := GetFat12(fs, clst);
      case Fat16 => val := GetFat16(fs, clst);
      case Fat32 => val := GetFat32(fs, clst);
    }
  }

  // ---------- put_fat ----------

  /** First and second byte of a 12-bit entry after storing `v`; a nibble of a neighbour stays. */
  function Lo12(c: nat, v: nat, was: byte): byte {
    if c % 2 == 1 then was as int % 0x10 + v % 0x10 * 0x10 else v % 0x100
  }

  function Hi12(c: nat, v: nat, was: byte): byte {
    if c % 2 == 1 then v / 0x10 % 0x100 else was as int / 0x10 * 0x10 + v / 0x100 % 0x10
  }

  /** No byte of the first FAT copy outside from..to differs. */
  ghost predicate BytesChanged(g: Geometry, a: seq<Sector>, b: seq<Sector>, from: nat, to: nat)
    requires |a| == |b| == g.nsect
  {
    forall j :: 0 <= j < g.fsize * SS && !(from <= j < to) ==> FatByte(g, b, j) == FatByte(g, a, j)
  }

  /** A 12-bit entry takes a nibble of one byte and the whole of the other. */
  lemma From12Nibbles(c: nat, lo: byte, hi: byte)
    ensures c % 2 == 1 ==> From12(c, lo, hi) == lo as int / 0x10 + hi as int * 0x10
    ensures c % 2 == 0 ==> From12(c, lo, hi) == lo as int + hi as int % 0x10 * 0x100
  {
  }

  /** The three nibbles of a stored value. */
  lemma Nibbles(v: nat, n0: nat, n1: nat, n2: nat)
    requires n0 == v % 0x10 && n1 == v / 0x10 % 0x10 && n2 == v / 0x100 % 0x10
    ensures v % 0x100 == n0 + 0x10 * n1
    ensures v / 0x10 % 0x100 == n1 + 0x10 * n2
    ensures v % 0x1000 == n0 + 0x10 * n1 + 0x100 * n2
  {
    var q := v / 0x1000;
    assert v / 0x100 == n2 + 0x10 * q;
    assert v / 0x10 == n1 + 0x10 * (v / 0x100);
    NibbleSum(v, n0, n1, n2, q);
  }

  lemma NibbleSum(v: nat, n0: nat, n1: nat, n2: nat, q: nat)
    requires n0 < 0x10 && n1 < 0x10 && n2 < 0x10 && v == n0 + 0x10 * n1 + 0x100 * n2 + 0x1000 * q
    ensures v % 0x100 == n0 + 0x10 * n1
    ensures v / 0x10 % 0x100 == n1 + 0x10 * n2
    ensures v % 0x1000 == n0 + 0x10 * n1 + 0x100 * n2
  {
    DivisionUnique(v, 0x10, n1 + 0x10 * n2 + 0x100 * q, n0);
    DivisionUnique(v, 0x100, n2 + 0x10 * q, n0 + 0x10 * n1);
    DivisionUnique(v, 0x1000, q, n0 + 0x10 * n1 + 0x100 * n2);
    DivisionUnique(v / 0x10, 0x100, q, n1 + 0x10 * n2);
  }

  lemma Stored12(c: nat, v: nat, lo: byte, hi: byte)
    ensures Lo12(c, v, lo) < 0x100 && Hi12(c, v, hi) < 0x100
    ensures From12(c, Lo12(c, v, lo), Hi12(c, v, hi)) == v % 0x1000
    ensures c % 2 == 1 ==> Lo12(c, v, lo) % 0x10 == lo as int % 0x10
    ensures c % 2 == 0 ==> Hi12(c, v, hi) / 0x10 == hi as int / 0x10
  {
    var n0, n1, n2 := v % 0x10, v / 0x10 % 0x10, v / 0x100 % 0x10;
    Nibbles(v, n0, n1, n2);
    From12Nibbles(c, Lo12(c, v, lo), Hi12(c, v, hi));
    if c % 2 == 1 {
      assert Lo12(c, v, lo) / 0x10 == n0;
    } else {
      assert Hi12(c, v, hi) % 0x10 == n2;
    }
  }

  /**
    An entry other than `c` reads as before when the bytes of `c` change but for the nibble
    that a neighbour owns.
  */
  lemma Other12(g: Geometry, a: seq<Sector>, b: seq<Sector>, c: nat, k: nat)
    requires |a| == |b| == g.nsect && c < g.nFatent && k < g.nFatent && k != c && g.fsType == Fat12
    requires BytesChanged(g, a, b, c + c / 2, c + c / 2 + 2)
    requires InFatBytes(g, a, c + c / 2) && InFatBytes(g, a, c + c / 2 + 1)
    requires c % 2 == 1 ==> FatByte(g, b, c + c / 2) as int % 0x10 == FatByte(g, a, c + c / 2) as int % 0x10
    requires c % 2 == 0 ==> FatByte(g, b, c + c / 2 + 1) as int / 0x10 == FatByte(g, a, c + c / 2 + 1) as int / 0x10
    ensures FatOf(g, b)[k] == FatOf(g, a)[k]
  {
    var o, p := c + c / 2, k + k / 2;
    Entry12(g, a, k);
    Entry12(g, b, k);
    From12Nibbles(k, FatByte(g, a, p), FatByte(g, a, p + 1));
    From12Nibbles(k, FatByte(g, b, p), FatByte(g, b, p + 1));
    if c % 2 == 1 && k == c - 1 {
      assert p + 1 == o;
    } else if c % 2 == 0 && k == c + 1 {
      assert p == o + 1;
    } else {
      assert p + 1 < o || o + 1 < p;
    }
  }

  /** Storing an entry's bytes changes that entry to the truncated value, and no other. */
  lemma Put12(g: Geometry, a: seq<Sector>, b: seq<Sector>, c: nat, v: nat)
    requires |a| == |b| == g.nsect && c < g.nFatent && g.fsType == Fat12
    requires BytesChanged(g, a, b, c + c / 2, c + c / 2 + 2)
    requires InFatBytes(g, a, c + c / 2) && InFatBytes(g, a, c + c / 2 + 1)
    requires FatByte(g, b, c + c / 2) == Lo12(c, v, FatByte(g, a, c + c / 2))
    requires FatByte(g, b, c + c / 2 + 1) == Hi12(c, v, FatByte(g, a, c + c / 2 + 1))
    ensures FatOf(g, b) == FatOf(g, a)[c := v % 0x1000]
  {
    Stored12(c, v, FatByte(g, a, c + c / 2), FatByte(g, a, c + c / 2 + 1));
    Entry12(g, b, c);
    forall k | 0 <= k < g.nFatent && k != c
      ensures FatOf(g, b)[k] == FatOf(g, a)[k]
    {
      Other12(g, a, b, c, k);
    }
  }

  /** A store cut short after the first byte has not touched any other entry. */
  lemma Put12Half(g: Geometry, a: seq<Sector>, b: seq<Sector>, c: nat, v: nat)
    requires |a| == |b| == g.nsect && c < g.nFatent && g.fsType == Fat12
    requires BytesChanged(g, a, b, c + c / 2, c + c / 2 + 1)
    requires InFatBytes(g, a, c + c / 2) && InFatBytes(g, a, c + c / 2 + 1)
    requires || FatByte(g, b, c + c / 2) == Lo12(c, v, FatByte(g, a, c + c / 2))
             || FatByte(g, b, c + c / 2) == FatByte(g, a, c + c / 2)
    ensures forall k :: 0 <= k < g.nFatent && k != c ==> FatOf(g, b)[k] == FatOf(g, a)[k]
  {
    Stored12(c, v, FatByte(g, a, c + c / 2), 0);
    forall k | 0 <= k < g.nFatent && k != c
      ensures FatOf(g, b)[k] == FatOf(g, a)[k]
    {
      Other12(g, a, b, c, k);
    }
  }

  /** Changing the bytes of one 16-bit entry changes that entry and no other. */
  lemma Put16(g: Geometry, a: seq<Sector>, b: seq<Sector>, c: nat, s: nat, p: nat)
    requires |a| == |b| == g.nsect && c < g.nFatent && g.fsType == Fat16
    requires s == g.fatbase + c / 256 < g.nsect && p == c * 2 % SS
    requires forall t :: 0 <= t < g.nsect && t != s ==> b[t] == a[t]
    requires forall j :: 0 <= j < SS && !(p <= j < p + 2) ==> b[s][j] == a[s][j]
    ensures p + 2 <= SS
    ensures FatOf(g, b) == FatOf(g, a)[c := Ld16(b[s], p)]
  {
    hide FatOf;
    Entry16(g, b, c);
    forall k | 0 <= k < g.nFatent && k != c
      ensures FatOf(g, b)[k] == FatOf(g, a)[k]
    {
      Entry16(g, a, k);
      Entry16(g, b, k);
      if k / 256 == c / 256 {
        Slots16(c, k);
      }
    }
  }

  /** Two entries in one sector have different places there. */
  lemma Slots16(c: nat, k: nat)
    requires c != k && c / 256 == k / 256
    ensures k * 2 % SS + 2 <= c * 2 % SS || c * 2 % SS + 2 <= k * 2 % SS
  {
    assert c * 2 % SS == c % 256 * 2 && k * 2 % SS == k % 256 * 2;
  }

  /** Changing the bytes of one 32-bit entry changes that entry and no other. */
  lemma Put32(g: Geometry, a: seq<Sector>, b: seq<Sector>, c: nat, s: nat, p: nat)
    requires |a| == |b| == g.nsect && c < g.nFatent && g.fsType == Fat32
    requires s == g.fatbase + c / 128 < g.nsect && p == c * 4 % SS
    requires forall t :: 0 <= t < g.nsect && t != s ==> b[t] == a[t]
    requires forall j :: 0 <= j < SS && !(p <= j < p + 4) ==> b[s][j] == a[s][j]
    ensures p + 4 <= SS
    ensures FatOf(g, b) == FatOf(g, a)[c := Ld32(b[s], p) % 0x1000_0000]
  {
    hide FatOf;
    Entry32(g, b, c);
    forall k | 0 <= k < g.nFatent && k != c
      ensures FatOf(g, b)[k] == FatOf(g, a)[k]
    {
      Entry32(g, a, k);
      Entry32(g, b, k);
      if k / 128 == c / 128 {
        Slots32(c, k);
      }
    }
  }

  /** Two entries in one sector have different places there. */
  lemma Slots32(c: nat, k: nat)
    requires c != k && c / 128 == k / 128
    ensures k * 4 % SS + 4 <= c * 4 % SS || c * 4 % SS + 4 <= k * 4 % SS
  {
    assert c * 4 % SS == c % 128 * 4 && k * 4 % SS == k % 128 * 4;
  }

  /** The top four bits of a 32-bit entry, which are not part of its value. */
  ghost function Top32(g: Geometry, d: seq<Sector>, c: nat): (n: nat)
    requires |d| == g.nsect && c < g.nFatent && g.fsType == Fat32
    ensures n < 16
  {
    Entry32(g, d, c);
    Ld32(d[g.fatbase + c / 128], c * 4 % SS) / 0x1000_0000
  }

  /** Storing `val` in entry `c` keeps the bits that are set in any top, and all other tops as they are. */
  ghost predicate TopsKept(g: Geometry, a: seq<Sector>, b: seq<Sector>, c: nat, val: u32)
    requires |a| == |b| == g.nsect && c < g.nFatent && g.fsType == Fat32
  {
    forall k :: 0 <= k < g.nFatent ==>
      Top32(g, b, k) == if k == c then OrNibble(val / 0x1000_0000, Top32(g, a, c)) else Top32(g, a, k)
  }

  lemma PutTop(g: Geometry, a: seq<Sector>, b: seq<Sector>, c: nat, s: nat, p: nat, val: u32)
    requires |a| == |b| == g.nsect && c < g.nFatent && g.fsType == Fat32
    requires s == g.fatbase + c / 128 < g.nsect && p == c * 4 % SS && p + 4 <= SS
    requires forall t :: 0 <= t < g.nsect && t != s ==> b[t] == a[t]
    requires forall j :: 0 <= j < SS && !(p <= j < p + 4) ==> b[s][j] == a[s][j]
    requires Ld32(b[s], p) / 0x1000_0000 == OrNibble(val / 0x1000_0000, Ld32(a[s], p) / 0x1000_0000)
    ensures TopsKept(g, a, b, c, val)
  {
    hide OrNibble;
    forall k: nat | k < g.nFatent && k != c
      ensures Top32(g, b, k) == Top32(g, a, k)
    {
      Entry32(g, a, k);
      if k / 128 == c / 128 {
        Slots32(c, k);
      }
    }
  }

  lemma SameTops(g: Geometry, a: seq<Sector>, b: seq<Sector>, w: seq<Sector>, c: nat, val: u32)
    requires |a| == |b| == |w| == g.nsect && c < g.nFatent && g.fsType == Fat32
    requires TopsKept(g, b, w, c, val) && forall s :: 0 <= s < |a| && InFat(g, s) ==> a[s] == b[s]
    ensures TopsKept(g, a, w, c, val)
  {
    hide OrNibble;
    forall k: nat | k < g.nFatent
      ensures Top32(g, b, k) == Top32(g, a, k)
    {
      Entry32(g, a, k);
    }
  }

  /** Change one byte of the FAT sector in the window. */
  method PokeFat(fs: Fatfs, bc: nat, b: byte)
    requires fs.Valid() && bc < fs.g.fsize * SS && fs.winsect == fs.g.fatbase + bc / SS
    modifies fs.win, fs`wflag
    ensures fs.Valid()
    ensures fs.View() == PutByte(fs.g, old(fs.View()), bc, b)
  {
    fs.Poke(bc % SS, b);
  }

  /** `v` truncated to 28 bits, with other top bits. */
  function WithTop(v: u32, top: nat): (w: u32)
    requires top < 16
    ensures w % 0x1000_0000 == v % 0x1000_0000
    ensures w / 0x1000_0000 == top
  {
    v % 0x1000_0000 + 0x1000_0000 * top
  }

  /** The new byte `bc` of 12-bit entry `c`, its first or its second. */
  function Byte12(bc: nat, c: nat, v: nat, was: byte): (b: byte) {
    if bc == c + c / 2 then Lo12(c, v, was) else Hi12(c, v, was)
  }

  /** Store one of the two bytes of a 12-bit entry. */
  method StoreByte12(fs: Fatfs, bc: nat, clst: nat, val: u32) returns (res: FResult)
    requires fs.Valid() && bc < fs.g.fsize * SS
    modifies fs`disk, fs`wflag, fs`faults, fs`winsect, fs.win
    ensures fs.Valid() && fs.Steady()
    ensures AgreeOutsideFat(fs.g, fs.View(), old(fs.View()))
    ensures BytesChanged(fs.g, old(fs.View()), fs.View(), bc, bc + 1)
    ensures FatByte(fs.g, fs.View(), bc) ==
      var was := FatByte(fs.g, old(fs.View()), bc);
      if res == Ok then Byte12(bc, clst, val, was) else was
    ensures res == Ok ==> InFat(fs.g, fs.winsect)
    ensures res != Ok ==> res == DiskErr && fs.faults > old(fs.faults)
    ensures res != Ok ==> fs.winsect == old(fs.winsect) || fs.winsect == 0xFFFF_FFFF
  {
    ghost var s := fs.g.fatbase + bc / SS;
    var p;
    res, p := LoadFatByte(fs, bc);
    assert fs.View()[s] == old(fs.View())[s];
    if res == Ok {
      PokeFat(fs, bc, Byte12(bc, clst, val, p));
    }
  }

  method PutFat12(fs: Fatfs, clst: u32, val: u32) returns (res: FResult)
    requires fs.Valid() && fs.g.fsType == Fat12 && clst < fs.g.nFatent
    modifies fs`disk, fs`wflag, fs`faults, fs`winsect, fs.win
    ensures fs.Valid() && fs.Steady()
    ensures AgreeOutsideFat(fs.g, fs.View(), old(fs.View()))
    ensures res == Ok ==> Fat(fs) == old(Fat(fs))[clst := val % 0x1000] && InFat(fs.g, fs.winsect)
    ensures res != Ok ==> res == DiskErr && fs.faults > old(fs.faults)
    ensures forall k :: 0 <= k < fs.g.nFatent && k != clst ==> Fat(fs)[k] == old(Fat(fs))[k]
    ensures fs.winsect == old(fs.winsect) || InFat(fs.g, fs.winsect) || fs.winsect == 0xFFFF_FFFF
  {
    hide FatOf, FatByte, BytesChanged, Lo12, Hi12;
    ghost var v0 := fs.View();
    Entry12(fs.g, v0, clst);
    var bc := clst as int + clst as int / 2;
    res := StoreByte12(fs, bc, clst, val);
    Put12Half(fs.g, v0, fs.View(), clst, val);
    if res == Ok {
      res := StoreByte12(fs, bc + 1, clst, val);
      if res == Ok {
        Put12(fs.g, v0, fs.View(), clst, val);
      } else {
        Put12Half(fs.g, v0, fs.View(), clst, val);
      }
    }
  }

  method PutFat16(fs: Fatfs, clst: u32, val: u32) returns (res: FResult)
    requires fs.Valid() && fs.g.fsType == Fat16 && clst < fs.g.nFatent
    modifies fs`disk, fs`wflag, fs`faults, fs`winsect, fs.win
    ensures fs.Valid() && fs.Steady()
    ensures AgreeOutsideFat(fs.g, fs.View(), old(fs.View()))
    ensures res == Ok ==> Fat(fs) == old(Fat(fs))[clst := val % 0x1_0000] && InFat(fs.g, fs.winsect)
    ensures res != Ok ==> res == DiskErr && fs.faults > old(fs.faults)
    ensures forall k :: 0 <= k < fs.g.nFatent && k != clst ==> Fat(fs)[k] == old(Fat(fs))[k]
    ensures fs.winsect == old(fs.winsect) || InFat(fs.g, fs.winsect) || fs.winsect == 0xFFFF_FFFF
  {
    Entry16(fs.g, fs.View(), clst);
    res := MoveToFat(fs, fs.g.fatbase + clst / (SS / 2));
    if res != Ok { return; }
    ghost var v := fs.View();
    fs.PokeWord(clst * 2 % SS, val % 0x1_0000);
    Put16(fs.g, v, fs.View(), clst, fs.winsect, clst * 2 % SS);
  }

  method PutFat32(fs: Fatfs, clst: u32, val: u32) returns (res: FResult)
    requires fs.Valid() && fs.g.fsType == Fat32 && clst < fs.g.nFatent
    modifies fs`disk, fs`wflag, fs`faults, fs`winsect, fs.win
    ensures fs.Valid() && fs.Steady()
    ensures AgreeOutsideFat(fs.g, fs.View(), old(fs.View()))
    ensures res == Ok ==> Fat(fs) == old(Fat(fs))[clst := val % 0x1000_0000] && InFat(fs.g, fs.winsect)
    ensures res == Ok ==> TopsKept(fs.g, old(fs.View()), fs.View(), clst, val)
    ensures res != Ok ==> res == DiskErr && fs.faults > old(fs.faults)
    ensures forall k :: 0 <= k < fs.g.nFatent && k != clst ==> Fat(fs)[k] == old(Fat(fs))[k]
    ensures fs.winsect == old(fs.winsect) || InFat(fs.g, fs.winsect) || fs.winsect == 0xFFFF_FFFF
  {
    hide TopsKept, OrNibble, FatOf, WithTop;
    Entry32(fs.g, fs.View(), clst);
    res := MoveToFat(fs, fs.g.fatbase + clst / (SS / 4));
    if res != Ok { return; }
    ghost var v := fs.View();
    var p := clst * 4 % SS;
    var top := OrNibble(val / 0x1000_0000, Ld32(fs.win[..], p) / 0x1000_0000);
    var w := WithTop(val, top);
    fs.PokeDword(p, w);
    Put32(fs.g, v, fs.View(), clst, fs.winsect, p);
    PutTop(fs.g, v, fs.View(), clst, fs.winsect, p, val);
    SameTops(fs.g, old(fs.View()), v, fs.View(), clst, val);
  }

  /** Store an entry; the value is truncated to the width of the entries. */
  method PutFat(fs: Fatfs, clst: u32, val: u32) returns (res: FResult)
    requires fs.Valid()
    modifies fs`disk, fs`wflag, fs`faults, fs`winsect, fs.win
    ensures fs.Valid() && fs.Steady()
    ensures AgreeOutsideFat(fs.g, fs.View(), old(fs.View()))
    ensures clst < 2 || clst >= fs.g.nFatent ==>
      res == IntErr && fs.View() == old(fs.View()) && fs.winsect == old(fs.winsect) && fs.faults == old(fs.faults)
    ensures 2 <= clst < fs.g.nFatent ==>
      if res == Ok
      then Fat(fs) == old(Fat(fs))[clst := val % EntryBits(fs.g.fsType)] && InFat(fs.g, fs.winsect)
      else res == DiskErr && fs.faults > old(fs.faults)
    ensures res == Ok && fs.g.fsType == Fat32 ==> TopsKept(fs.g, old(fs.View()), fs.View(), clst, val)
    ensures forall k :: 0 <= k < fs.g.nFatent && k != clst ==> Fat(fs)[k] == old(Fat(fs))[k]
    ensures fs.winsect == old(fs.winsect) || InFat(fs.g, fs.winsect) || fs.winsect == 0xFFFF_FFFF
  {
    if clst < 2 || clst >= fs.g.nFatent {
      return IntErr;
    }
    match fs.g.fsType {
      case Fat12 => res := PutFat12(fs, clst, val);
      case Fat16 => res := PutFat16(fs, clst, val);
      case Fat32 => res := PutFat32(fs, clst, val);
    }
  }
}
