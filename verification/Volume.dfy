/**
  The mounted volume: its geometry, the drive below it, and the one-sector window through
  which the file system reads and writes FAT and directory sectors.
*/
module Volume {
  import opened Bytes

  datatype FResult = Ok | DiskErr | IntErr | NoFile | Denied | Exist | NotEnoughCore | NoFilesystem | MkfsAborted

  datatype FatType = Fat12 | Fat16 | Fat32

  const MIN_FAT16 := 4086
  const MIN_FAT32 := 65526

  /** What mounting finds out about a volume; no operation below changes it. */
  datatype RawGeometry = RawGeometry(
    nsect: nat,      // sectors of the drive
    fsType: FatType,
    csize: nat,      // sectors per cluster
    nFats: nat,      // FAT copies
    fsize: nat,      // sectors per FAT copy
    nFatent: nat,    // FAT entries: clusters + 2
    nRootdir: nat,   // root directory entries (FAT12/16)
    volbase: nat,
    fatbase: nat,
    dirbase: nat,    // root directory: start sector (FAT12/16) or start cluster (FAT32)
    database: nat)

  predicate ClusterSize(k: nat) {
    k == 1 || k == 2 || k == 4 || k == 8 || k == 16 || k == 32 || k == 64 || k == 128
  }

  /** Bytes that `n` entries of a FAT take. */
  function FatBytes(t: FatType, n: nat): nat {
    match t
    case Fat12 => n * 3 / 2 + n % 2
    case Fat16 => n * 2
    case Fat32 => n * 4
  }

  /**
    Sectors that `n` clusters take, n * csize. It is written as a sum so that the verifier
    multiplies only where SpanIsProduct is called.
  */
  function Span(n: nat, csize: nat): nat {
    if n == 0 then 0 else Span(n - 1, csize) + csize
  }

  lemma {:induction false} SpanIsProduct(n: nat, csize: nat)
    ensures Span(n, csize) == n * csize
  {
    if n > 0 {
      SpanIsProduct(n - 1, csize);
      assert n * csize == (n - 1) * csize + csize;
    }
  }

  /** Sectors of all FAT copies together. */
  function FatArea(g: RawGeometry): nat {
    if g.nFats == 2 then g.fsize + g.fsize else g.fsize
  }

  /** The areas of the volume are in order, disjoint and on the drive, and the FAT is large enough. */
  predicate Sound(g: RawGeometry) {
    && g.nsect <= 0xFFFF_FFFF
    && ClusterSize(g.csize)
    && 1 <= g.nFats <= 2
    && 3 <= g.nFatent
    && (g.fsType == Fat12 ==> g.nFatent < MIN_FAT16 + 2)
    && (g.fsType == Fat16 ==> g.nFatent < MIN_FAT32 + 2)
    && (g.fsType == Fat32 ==> g.nFatent <= 0x0FFF_FFFF)
    && FatBytes(g.fsType, g.nFatent) <= g.fsize * SS
    && g.volbase < g.fatbase
    && (g.fsType == Fat32 ==> g.nRootdir == 0)
    && g.nRootdir % 16 == 0
    && (g.fsType != Fat32 ==> 0 < g.nRootdir && g.dirbase == g.fatbase + FatArea(g))
    && g.database == g.fatbase + FatArea(g) + g.nRootdir / 16
    && g.database + Span(g.nFatent - 2, g.csize) <= g.nsect
  }

  type Geometry = g: RawGeometry | Sound(g)
    witness RawGeometry(36, Fat12, 1, 1, 1, 3, 16, 0, 1, 2, 3)

  /** Sectors of the second FAT copy. */
  predicate InMirror(g: Geometry, s: int) {
    g.fatbase + g.fsize <= s < g.fatbase + FatArea(g)
  }

  predicate InFat(g: Geometry, s: int) {
    g.fatbase <= s < g.fatbase + g.fsize
  }

  /** Same content in every sector but those of the second FAT copy. */
  ghost predicate Agree(g: Geometry, a: seq<Sector>, b: seq<Sector>) {
    |a| == |b| && forall s :: 0 <= s < |a| && !InMirror(g, s) ==> a[s] == b[s]
  }

  /** Same content in every sector outside the FAT area. */
  ghost predicate AgreeOutsideFat(g: Geometry, a: seq<Sector>, b: seq<Sector>) {
    |a| == |b| && forall s :: 0 <= s < |a| && !InFat(g, s) && !InMirror(g, s) ==> a[s] == b[s]
  }

  /** The second FAT copy, where there is one, equals the first. */
  ghost predicate MirrorsEqual(g: Geometry, d: seq<Sector>) {
    g.nFats == 2 ==>
      forall s :: InFat(g, s) && s + g.fsize < |d| ==> d[s + g.fsize] == d[s]
  }

  /** Writing a sector back in all FAT copies keeps the copies equal. */
  lemma WriteBackKeepsMirrors(g: Geometry, a: seq<Sector>, b: seq<Sector>, w: nat)
    requires MirrorsEqual(g, a) && |a| == |b| && w < |a| && !InMirror(g, w)
    requires forall s :: 0 <= s < |a| && s != w && (s == w + g.fsize ==> !InFat(g, w)) ==> b[s] == a[s]
    requires InFat(g, w) && g.nFats == 2 && w + g.fsize < |b| ==> b[w + g.fsize] == b[w]
    ensures MirrorsEqual(g, b)
  {
    if g.nFats == 2 {
      forall s | InFat(g, s) && s + g.fsize < |b|
        ensures b[s + g.fsize] == b[s]
      {
        if s != w {
          assert b[s] == a[s] && a[s + g.fsize] == a[s];
          assert InMirror(g, s + g.fsize);
        }
      }
    }
  }

  /** `data` lies on the drive from sector `s` on. */
  ghost predicate LiesAt(d: seq<Sector>, s: nat, data: seq<byte>) {
    && |data| % SS == 0
    && s + |data| / SS <= |d|
    && forall j :: 0 <= j < |data| ==> d[s + j / SS][j % SS] == data[j]
  }

  class Fatfs {
    const g: Geometry
    const win: array<byte>
    var disk: seq<Sector>   // the drive
    var faults: nat         // drive operations that have failed so far
    var winsect: u32        // sector held in win
    var wflag: bool         // win differs from that sector
    var lastClust: u32      // allocation hint
    var freeClust: u32      // free clusters, 0xFFFFFFFF: unknown
    var fsiFlag: byte       // bit 0: FSINFO must be rewritten, bit 7: there is no FSINFO

    ghost predicate Valid()
      reads this, win
    {
      && win.Length == SS
      && |disk| == g.nsect
      && (wflag ==> winsect < g.nsect && !InMirror(g, winsect))
      && (!wflag && winsect < g.nsect ==> win[..] == disk[winsect])
    }

    /** The logical disk: the drive, overridden by the window while it is dirty. */
    ghost function View(): (d: seq<Sector>)
      requires win.Length == SS
      reads this, win
    {
      if wflag && winsect < |disk| then disk[winsect := win[..]] else disk
    }

    /** Faults are never forgotten, and as long as there is none the FAT copies stay equal. */
    twostate predicate Steady()
      reads this
    {
      && faults >= old(faults)
      && (faults == old(faults) && old(MirrorsEqual(g, disk)) ==> MirrorsEqual(g, disk))
    }

    constructor (g: Geometry, disk: seq<Sector>)
      requires |disk| == g.nsect
      ensures Valid() && fresh(win)
      ensures this.g == g && this.disk == disk && View() == disk && faults == 0
      ensures !wflag && winsect == 0xFFFF_FFFF
      ensures lastClust == freeClust == 0xFFFF_FFFF && fsiFlag == 0x80
    {
      this.g := g;
      this.win := new byte[SS];
      this.disk := disk;
      faults := 0;
      winsect := 0xFFFF_FFFF;
      wflag := false;
      lastClust := 0xFFFF_FFFF;
      freeClust := 0xFFFF_FFFF;
      fsiFlag := 0x80;
    }

    /** Read `count` sectors. A failed read, of existing sectors or not, delivers anything. */
    method DiskRead(sector: u32, count: nat) returns (ok: bool, data: seq<byte>)
      modifies this`faults
      ensures |data| == count * SS
      ensures ok ==> LiesAt(disk, sector, data)
      ensures faults == old(faults) + if ok then 0 else 1
    {
      ok := *;
      ok := ok && sector + count <= |disk|;
      var d := disk;
      if ok {
        data := seq(count * SS, j requires 0 <= j < count * SS => d[sector + j / SS][j % SS]);
      } else {
        faults := faults + 1;
        data := *;
        if |data| != count * SS {
          data := seq(count * SS, _ => 0);
        }
      }
    }

    /** Write whole sectors. A failed write may have damaged the sectors it was meant for. */
    method DiskWrite(data: seq<byte>, sector: u32) returns (ok: bool)
      requires |data| % SS == 0
      modifies this`disk, this`faults
      ensures |disk| == old(|disk|)
      ensures ok ==> LiesAt(disk, sector, data)
      ensures forall s :: 0 <= s < |disk| && !(sector <= s < sector + |data| / SS) ==> disk[s] == old(disk[s])
      ensures faults == old(faults) + if ok then 0 else 1
    {
      var count := |data| / SS;
      var d := disk;
      ok := *;
      ok := ok && sector + count <= |disk|;
      if ok {
        disk := seq(|d|, s requires 0 <= s < |d| =>
          if sector <= s < sector + count then data[(s - sector) * SS..(s - sector) * SS + SS] else d[s]);
      } else {
        faults := faults + 1;
        var junk: seq<Sector> := *;
        if |junk| == |d| {
          disk := seq(|d|, s requires 0 <= s < |d| =>
            if sector <= s < sector + count then junk[s] else d[s]);
        }
      }
    }

    method FillWindow(data: seq<byte>)
      requires win.Length == SS && |data| == SS
      modifies win
      ensures win[..] == data
    {
      forall i | 0 <= i < SS {
        win[i] := data[i];
      }
    }

    /** Write the window back if it is dirty, to the second FAT copy as well. */
    method SyncWindow() returns (res: FResult)
      requires Valid()
      modifies this`disk, this`wflag, this`faults
      ensures Valid()
      ensures res == Ok || res == DiskErr
      ensures Agree(g, View(), old(View()))
      ensures res == Ok ==> !wflag
      ensures res == DiskErr ==> wflag && old(wflag)
      ensures Steady()
      ensures faults == old(faults) ==> res == Ok
      ensures !old(wflag) ==> res == Ok && disk == old(disk) && faults == old(faults)
    {
      res := Ok;
      if wflag {
        var ok := DiskWrite(win[..], winsect);
        if !ok {
          res := DiskErr;
        } else {
          assert disk[winsect] == win[..];
          wflag := false;
          if Sub32(winsect, g.fatbase) < g.fsize {
            WriteMirrors();
          }
        }
      }
      ghost var synced := res == Ok && old(wflag);
      if synced && faults == old(faults) && old(MirrorsEqual(g, disk)) {
        WriteBackKeepsMirrors(g, old(disk), disk, winsect);
      }
    }

    /** Reflect a FAT sector just written back in the other FAT copies; failures go unnoticed. */
    method WriteMirrors()
      requires win.Length == SS && |disk| == g.nsect && InFat(g, winsect)
      modifies this`disk, this`faults
      ensures Agree(g, disk, old(disk))
      ensures faults >= old(faults)
      ensures faults == old(faults) && g.nFats == 2 ==> disk[winsect + g.fsize] == win[..]
      ensures forall s :: 0 <= s < |disk| && s != winsect + g.fsize ==> disk[s] == old(disk[s])
    {
      var wsect := winsect;
      var nf := g.nFats;
      while nf >= 2
        invariant 1 <= nf <= g.nFats
        invariant wsect == if nf == g.nFats then winsect else winsect + g.fsize
        invariant |disk| == |old(disk)|
        invariant nf == g.nFats ==> disk == old(disk)
        invariant forall s :: 0 <= s < |disk| && s != winsect + g.fsize ==> disk[s] == old(disk[s])
        invariant old(faults) <= faults
        invariant faults == old(faults) && nf == 1 < g.nFats ==> disk[winsect + g.fsize] == win[..]
      {
        wsect := wsect + g.fsize;
        var done := DiskWrite(win[..], wsect);
        assert done ==> disk[wsect] == win[..];
        nf := nf - 1;
      }
    }

    /** Bring sector `sector` into the window. */
    method MoveWindow(sector: u32) returns (res: FResult)
      requires Valid()
      modifies this`disk, this`wflag, this`faults, this`winsect, win
      ensures Valid()
      ensures res == Ok || res == DiskErr
      ensures Agree(g, View(), old(View()))
      ensures res == Ok ==> winsect == sector && (sector < g.nsect ==> win[..] == View()[sector])
      ensures res == DiskErr ==> (winsect == 0xFFFF_FFFF && !wflag) || (winsect == old(winsect) && wflag)
      ensures Steady()
      ensures faults == old(faults) ==> res == Ok
    {
      res := Ok;
      if sector != winsect {
        res := SyncWindow();
        if res == Ok {
          var ok, data := DiskRead(sector, 1);
          FillWindow(data);
          if ok {
            winsect := sector;
          } else {
            winsect := 0xFFFF_FFFF;
            res := DiskErr;
          }
          assert ok ==> win[..] == disk[sector];
        }
      }
    }

    /** Change one byte of the window. */
    method Poke(off: nat, b: byte)
      requires Valid() && winsect < g.nsect && !InMirror(g, winsect) && off < SS
      modifies win, this`wflag
      ensures Valid() && wflag
      ensures View() == old(View())[winsect := old(View())[winsect][off := b]]
    {
      win[off] := b;
      wflag := true;
      assert win[..] == old(win[..])[off := b];
    }

    /** Store a little-endian word in the window. */
    method PokeWord(off: nat, v: u16)
      requires Valid() && winsect < g.nsect && !InMirror(g, winsect) && off + 2 <= SS
      modifies win, this`wflag
      ensures Valid() && wflag
      ensures |View()| == |old(View())|
      ensures forall s :: 0 <= s < g.nsect && s != winsect ==> View()[s] == old(View())[s]
      ensures Ld16(View()[winsect], off) == v
      ensures forall j :: 0 <= j < SS && !(off <= j < off + 2) ==> View()[winsect][j] == old(View())[winsect][j]
    {
      win[off] := v % 0x100;
      win[off + 1] := v / 0x100;
      wflag := true;
    }

    /** Store a little-endian double word in the window. */
    method PokeDword(off: nat, v: u32)
      requires Valid() && winsect < g.nsect && !InMirror(g, winsect) && off + 4 <= SS
      modifies win, this`wflag
      ensures Valid() && wflag
      ensures |View()| == |old(View())|
      ensures forall s :: 0 <= s < g.nsect && s != winsect ==> View()[s] == old(View())[s]
      ensures Ld32(View()[winsect], off) == v
      ensures forall j :: 0 <= j < SS && !(off <= j < off + 4) ==> View()[winsect][j] == old(View())[winsect][j]
    {
      PokeWord(off, v % 0x1_0000);
      label low:
      PokeWord(off + 2, v / 0x1_0000);
      assert Ld16(View()[winsect], off) == Ld16(old@low(View())[winsect], off);
    }
  }
}
