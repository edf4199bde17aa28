/**
  Mounting: finding the FAT volume on a drive and reading its geometry off the boot sector.
*/
module Mount {
  import opened Bytes
  import opened Numbers
  import opened Volume
  import opened Layout
  import opened FileLayout

  // Offsets in a boot sector, in the FSINFO sector and in the partition table.
  const BPB_BytsPerSec: nat := 11
  const BPB_SecPerClus: nat := 13
  const BPB_RsvdSecCnt: nat := 14
  const BPB_NumFATs: nat := 16
  const BPB_RootEntCnt: nat := 17
  const BPB_TotSec16: nat := 19
  const BPB_Media: nat := 21
  const BPB_FATSz16: nat := 22
  const BPB_SecPerTrk: nat := 24
  const BPB_NumHeads: nat := 26
  const BPB_HiddSec: nat := 28
  const BPB_TotSec32: nat := 32
  const BPB_FATSz32: nat := 36
  const BPB_RootClus: nat := 44
  const BPB_FSInfo: nat := 48
  const BPB_BkBootSec: nat := 50
  const BS_FilSysType: nat := 54
  const BS_FilSysType32: nat := 82
  const FSI_LeadSig: nat := 0
  const FSI_StrucSig: nat := 484
  const FSI_Free_Count: nat := 488
  const FSI_Nxt_Free: nat := 492
  const MBR_Table: nat := 446
  const SZ_PTE: nat := 16
  const BS_55AA: nat := 510

  /** What mounting stores in the file system object. */
  datatype Mounted = Mounted(g: RawGeometry, freeClust: u32, lastClust: u32, fsiFlag: byte)

  // ---------- Is it a FAT volume? ----------

  /** What a sector is, as check_fs answers it. */
  datatype Kind = FatBoot | OtherBoot | NoBoot | Unreadable

  /** The text "FAT" at offset `i`. */
  predicate SaysFat(s: Sector, i: nat)
    requires i + 4 <= SS
  {
    Ld32(s, i) % 0x100_0000 == 0x544146
  }

  function KindOf(d: seq<Sector>, sect: u32): Kind {
    if sect >= |d| then Unreadable
    else if Ld16(d[sect], BS_55AA) != 0xAA55 then NoBoot
    else if SaysFat(d[sect], BS_FilSysType) || SaysFat(d[sect], BS_FilSysType32) then FatBoot
    else OtherBoot
  }

  /** First sector of partition `i`, 0 if there is none. */
  function PartitionStart(s: Sector, i: nat): u32
    requires i < 4
  {
    if s[MBR_Table + i * SZ_PTE + 4] != 0 then Ld32(s, MBR_Table + i * SZ_PTE + 8) else 0
  }

  /** A partition that does not exist is as good as no boot sector. */
  function KindOfPartition(d: seq<Sector>, b: u32): Kind {
    if b != 0 then KindOf(d, b) else NoBoot
  }

  /** The volume of a drive begins in sector `b`: the first sector, or else the first FAT partition. */
  ghost predicate VolumeAt(d: seq<Sector>, b: u32) {
    match KindOf(d, 0)
    case FatBoot => b == 0
    case OtherBoot =>
      exists i: nat :: i < 4 && b == PartitionStart(d[0], i) && KindOfPartition(d, b) == FatBoot
        && forall j: nat :: j < i ==> KindOfPartition(d, PartitionStart(d[0], j)) != FatBoot
    case _ => false
  }

  // ---------- The boot sector ----------

  function FatSize(s: Sector): u32 {
    if Ld16(s, BPB_FATSz16) == 0 then Ld32(s, BPB_FATSz32) else Ld16(s, BPB_FATSz16)
  }

  function TotalSectors(s: Sector): u32 {
    if Ld16(s, BPB_TotSec16) == 0 then Ld32(s, BPB_TotSec32) else Ld16(s, BPB_TotSec16)
  }

  /** Sectors of all FAT copies, without wrap. */
  function AllFats(s: Sector): nat {
    if s[BPB_NumFATs] == 2 then FatSize(s) + FatSize(s) else FatSize(s)
  }

  /** Sectors before the data area, without wrap. */
  function SystemSectors(s: Sector): nat {
    Ld16(s, BPB_RsvdSecCnt) + AllFats(s) + Ld16(s, BPB_RootEntCnt) / ENTRIES_PER_SECTOR
  }

  /** The test for a power of two. */
  predicate TestsPower(k: byte) {
    k != 0 && BitAnd(k, k - 1) == 0
  }

  lemma PowerIsClusterSize(k: byte)
    ensures TestsPower(k) <==> ClusterSize(k)
  {
    hide BitAnd;
    if k > 0 {
      PowerTest(k);
      if PowerOfTwo(k) {
        SmallPower(k);
      }
      if ClusterSize(k) {
        PowersUpTo(k);
      }
    }
  }

  /** The geometry of the volume whose boot sector `s` is sector `bsect`, or nothing if it is refused. */
  function ParseBoot(s: Sector, bsect: u32, nsect: nat): (r: Option<RawGeometry>) {
    var csize, nRootdir := s[BPB_SecPerClus], Ld16(s, BPB_RootEntCnt);
    var nrsv, tsect := Ld16(s, BPB_RsvdSecCnt), TotalSectors(s);
    if Ld16(s, BPB_BytsPerSec) != SS then None
    else if s[BPB_NumFATs] != 1 && s[BPB_NumFATs] != 2 then None
    else if !TestsPower(csize) then None
    else if nRootdir % ENTRIES_PER_SECTOR != 0 then None
    else if nrsv == 0 then None
    else
      var fasize := Wrap(AllFats(s));
      var sysect := Wrap(nrsv + fasize + nRootdir / ENTRIES_PER_SECTOR);
      if tsect < sysect then None
      else
        var nclst := Clusters(tsect - sysect, csize);
        if nclst == 0 then None
        else
          var fmt := TypeFor(nclst);
          var nFatent := Wrap(nclst + 2);
          if fmt == Fat32 && nRootdir != 0 then None
          else if fmt != Fat32 && nRootdir == 0 then None
          else
            var fatbase := Wrap(bsect + nrsv);
            var dirbase := if fmt == Fat32 then Ld32(s, BPB_RootClus) else Wrap(fatbase + fasize);
            var szbfat := Wrap(FatBytes(fmt, nFatent));
            if FatSize(s) < Wrap(szbfat + (SS - 1)) / SS then None
            else Some(RawGeometry(nsect, fmt, csize, s[BPB_NumFATs], FatSize(s), nFatent, nRootdir,
                                  bsect, fatbase, dirbase, Wrap(bsect + sysect)))
  }

  /** No sum of the boot sector's numbers exceeds 32 bits or the drive, and FAT32 entries have 28 bits. */
  predicate SumsFit(s: Sector, bsect: u32, nsect: nat)
  {
    var sys := SystemSectors(s);
    var csize := s[BPB_SecPerClus];
    && sys < U32 && sys <= TotalSectors(s)
    && bsect + sys + Clusters(TotalSectors(s) - sys, csize) * csize <= nsect
    && Clusters(TotalSectors(s) - sys, csize) + 2 <= 0x0FFF_FFFF
  }

  lemma WrapTwice(a: nat, b: nat, c: nat)
    requires b < 2 * U32
    ensures Wrap(a + Wrap(b) + c) == Wrap(a + b + c)
  {
    if b >= U32 {
      assert b % U32 == b - U32;
      assert (a + c + b - U32) % U32 == (a + b + c) % U32;
    }
  }

  /** The numbers of an accepted geometry, with the wraps they may have. */
  lemma Accepted(s: Sector, bsect: u32, nsect: nat) returns (sysect: u32, nclst: nat)
    requires ParseBoot(s, bsect, nsect).Some?
    ensures ClusterSize(s[BPB_SecPerClus]) && 0 < Ld16(s, BPB_RsvdSecCnt)
    ensures var g := ParseBoot(s, bsect, nsect).value;
      && g.nsect == nsect && g.csize == s[BPB_SecPerClus] && 1 <= g.nFats <= 2 && g.fsize == FatSize(s)
      && FatArea(g) == AllFats(s) && g.nRootdir == Ld16(s, BPB_RootEntCnt) && g.nRootdir % ENTRIES_PER_SECTOR == 0
      && g.volbase == bsect && g.fatbase == Wrap(bsect + Ld16(s, BPB_RsvdSecCnt))
    ensures sysect == Wrap(SystemSectors(s)) <= TotalSectors(s)
    ensures nclst == Clusters(TotalSectors(s) - sysect, s[BPB_SecPerClus]) && 0 < nclst < U32
    ensures var g := ParseBoot(s, bsect, nsect).value;
      && g.fsType == TypeFor(nclst) && g.nFatent == Wrap(nclst + 2) && g.database == Wrap(bsect + sysect)
      && (g.fsType == Fat32 <==> g.nRootdir == 0)
      && (g.fsType != Fat32 ==> g.dirbase == Wrap(g.fatbase + Wrap(AllFats(s))))
      && Wrap(Wrap(FatBytes(g.fsType, g.nFatent)) + (SS - 1)) / SS <= g.fsize
  {
    hide Ld16, Ld32, FatSize, TotalSectors, FatBytes, TestsPower;
    PowerIsClusterSize(s[BPB_SecPerClus]);
    WrapTwice(Ld16(s, BPB_RsvdSecCnt), AllFats(s), Ld16(s, BPB_RootEntCnt) / ENTRIES_PER_SECTOR);
    sysect := Wrap(Ld16(s, BPB_RsvdSecCnt) + Wrap(AllFats(s)) + Ld16(s, BPB_RootEntCnt) / ENTRIES_PER_SECTOR);
    nclst := Clusters(TotalSectors(s) - sysect, s[BPB_SecPerClus]);
    QuotientMono(TotalSectors(s) - sysect, TotalSectors(s), s[BPB_SecPerClus]);
  }

  /** The FAT has room for the entries. */
  lemma RoomForEntries(t: FatType, n: u32, fsize: u32)
    requires 3 <= n <= 0x0FFF_FFFF && t == TypeFor(n - 2)
    ensures FatBytes(t, n) <= fsize * SS <==> Wrap(Wrap(FatBytes(t, n)) + (SS - 1)) / SS <= fsize
  {
  }

  /** Seen as numbers: sums that fit are those that the mounted geometry has without wrap. */
  lemma NoWrap(g: RawGeometry, nrsv: u16, all: nat, sysect: u32, nclst: nat)
    requires g.nsect <= 0xFFFF_FFFF && g.volbase < U32 && g.fsize < U32
    requires 0 < nrsv && FatArea(g) == all && 1 <= g.nFats <= 2 && g.fatbase == Wrap(g.volbase + nrsv)
    requires sysect == Wrap(nrsv + all + g.nRootdir / 16) && 0 < nclst < U32 && ClusterSize(g.csize)
    requires g.nFatent == Wrap(nclst + 2) && g.database == Wrap(g.volbase + sysect)
    requires g.fsType == TypeFor(nclst) && (g.fsType == Fat32 <==> g.nRootdir == 0) && g.nRootdir % 16 == 0
    requires g.fsType != Fat32 ==> g.dirbase == Wrap(g.fatbase + Wrap(all))
    requires Wrap(Wrap(FatBytes(g.fsType, g.nFatent)) + (SS - 1)) / SS <= g.fsize
    ensures Sound(g) <==>
      && nrsv + all + g.nRootdir / 16 < U32
      && g.volbase + nrsv + all + g.nRootdir / 16 + Span(nclst, g.csize) <= g.nsect
      && nclst + 2 <= 0x0FFF_FFFF
  {
    hide Span, FatBytes, TypeFor;
    var sys: nat := nrsv + all + g.nRootdir / 16;
    if nclst + 2 <= 0x0FFF_FFFF {
      RoomForEntries(g.fsType, nclst + 2, g.fsize);
      TypeLimits(nclst);
    }
    if Sound(g) {
      assert g.nFatent == nclst + 2;
      assert g.fatbase == g.volbase + nrsv;
      assert g.database == g.volbase + sys;
    }
  }

  lemma TypeLimits(nclst: nat)
    ensures TypeFor(nclst) == Fat12 ==> nclst < MIN_FAT16
    ensures TypeFor(nclst) == Fat16 ==> nclst < MIN_FAT32
  {
  }

  /**
    A geometry that mounting accepts is sound exactly if the sums fit: the FAT copies, the root
    directory and the clusters are in order, do not overlap and are on the drive, the FAT is
    large enough for all entries, and the end mark is above all cluster numbers.
  */
  lemma AcceptedIsSound(s: Sector, bsect: u32, nsect: nat)
    requires nsect <= 0xFFFF_FFFF && ParseBoot(s, bsect, nsect).Some?
    ensures ClusterSize(s[BPB_SecPerClus])
    ensures Sound(ParseBoot(s, bsect, nsect).value) <==> SumsFit(s, bsect, nsect)
  {
    hide ParseBoot, Span, Sound, TypeFor;
    var sysect, nclst := Accepted(s, bsect, nsect);
    var g := ParseBoot(s, bsect, nsect).value;
    SpanIsProduct(nclst, g.csize);
    NoWrap(g, Ld16(s, BPB_RsvdSecCnt), AllFats(s), sysect, nclst);
  }

  // ---------- find_volume ----------

  /** Free count and allocation hint, if the FSINFO sector of a FAT32 volume gives them. */
  function WithInfo(d: seq<Sector>, g: RawGeometry, boot: Sector): (m: Mounted)
    requires g.volbase < U32
  {
    var info := Wrap(g.volbase + 1);
    if g.fsType == Fat32 && Ld16(boot, BPB_FSInfo) == 1 && info < |d| then
      if HasInfo(d[info])
      then Mounted(g, Ld32(d[info], FSI_Free_Count), Ld32(d[info], FSI_Nxt_Free), 0)
      else Mounted(g, 0xFFFF_FFFF, 0xFFFF_FFFF, 0)
    else Mounted(g, 0xFFFF_FFFF, 0xFFFF_FFFF, 0x80)
  }

  predicate HasInfo(s: Sector) {
    Ld16(s, BS_55AA) == 0xAA55 && Ld32(s, FSI_LeadSig) == 0x41615252 && Ld32(s, FSI_StrucSig) == 0x61417272
  }

  /** FSINFO: how many clusters are free, and where to look for one. */
  function InfoSector(free: int, next: int): (s: Sector) {
    var s := St32(St32(ZeroSector(), FSI_LeadSig, 0x41615252), FSI_StrucSig, 0x61417272);
    St16(St32(St32(s, FSI_Free_Count, free), FSI_Nxt_Free, next), BS_55AA, 0xAA55)
  }

  lemma InfoFields(free: u32, next: u32)
    ensures var s := InfoSector(free, next);
      HasInfo(s) && Ld32(s, FSI_Free_Count) == free && Ld32(s, FSI_Nxt_Free) == next
  {
    hide St32, St16, Ld32, Ld16;
    InfoFieldsStored(ZeroSector(), free, next);
  }

  lemma InfoFieldsStored(z: seq<byte>, free: u32, next: u32)
    requires |z| == SS
    ensures var s1 := St32(z, FSI_LeadSig, 0x41615252);
      && |s1| == SS && |St32(s1, FSI_StrucSig, 0x61417272)| == SS
      && var s3 := St32(St32(s1, FSI_StrucSig, 0x61417272), FSI_Free_Count, free);
      && |s3| == SS && |St32(s3, FSI_Nxt_Free, next)| == SS
      && var s := St16(St32(s3, FSI_Nxt_Free, next), BS_55AA, 0xAA55);
      && |s| == SS && Ld16(s, BS_55AA) == 0xAA55 && Ld32(s, FSI_LeadSig) == 0x41615252
      && Ld32(s, FSI_StrucSig) == 0x61417272 && Ld32(s, FSI_Free_Count) == free && Ld32(s, FSI_Nxt_Free) == next
  {
    hide St32, St16, Ld32, Ld16;
    St32Ld32(z, FSI_LeadSig, 0x41615252);
    var s1 := St32(z, FSI_LeadSig, 0x41615252);
    St32Ld32(s1, FSI_StrucSig, 0x61417272);
    var s2 := St32(s1, FSI_StrucSig, 0x61417272);
    St32Ld32(s2, FSI_Free_Count, free);
    var s3 := St32(s2, FSI_Free_Count, free);
    St32Ld32(s3, FSI_Nxt_Free, next);
    var s4 := St32(s3, FSI_Nxt_Free, next);
    St16Ld16(s4, BS_55AA, 0xAA55);
    var s := St16(s4, BS_55AA, 0xAA55);
    SameLd32(s1, s, FSI_LeadSig);
    SameLd32(s2, s, FSI_StrucSig);
    SameLd32(s3, s, FSI_Free_Count);
    SameLd32(s4, s, FSI_Nxt_Free);
  }

  lemma SameLd32(s: seq<byte>, t: seq<byte>, i: nat)
    requires i + 4 <= |s| == |t| && forall j :: i <= j < i + 4 ==> t[j] == s[j]
    ensures Ld32(t, i) == Ld32(s, i)
  {
  }

  /** A FAT volume that mounting accepts begins in sector `b`. */
  ghost predicate Mountable(d: seq<Sector>, b: u32) {
    VolumeAt(d, b) && b < |d| && ParseBoot(d[b], b, |d|).Some?
  }

  /** `m` is what mounting finds out about the drive. */
  ghost predicate Mounts(d: seq<Sector>, m: Mounted) {
    var b := m.g.volbase;
    b < U32 && Mountable(d, b) && ParseBoot(d[b], b, |d|) == Some(m.g) && m == WithInfo(d, m.g, d[b])
  }

  lemma ParsedBase(s: Sector, b: u32, nsect: nat)
    requires ParseBoot(s, b, nsect).Some?
    ensures ParseBoot(s, b, nsect).value.volbase == b
  {
  }

  lemma VolumeKinds(d: seq<Sector>)
    ensures KindOf(d, 0) == FatBoot ==> VolumeAt(d, 0)
    ensures KindOf(d, 0) == NoBoot || KindOf(d, 0) == Unreadable ==> forall b: u32 :: !VolumeAt(d, b)
  {
  }

  /** The file system object while it is not mounted: a window on a drive that does not fail. */
  class WorkArea {
    const win: array<byte>
    var disk: seq<Sector>
    var mounted: Option<Mounted>

    constructor (disk: seq<Sector>)
      ensures win.Length == SS && fresh(win) && this.disk == disk && mounted == None
    {
      win := new byte[SS];
      this.disk := disk;
      mounted := None;
    }

    method ReadSector(sect: u32) returns (ok: bool)
      requires win.Length == SS
      modifies win
      ensures ok <==> sect < |disk|
      ensures if ok then win[..] == disk[sect] else win[..] == old(win[..])
    {
      ok := sect < |disk|;
      if ok {
        var d := disk[sect];
        forall j | 0 <= j < SS {
          win[j] := d[j];
        }
      }
    }

    method WriteSector(sect: nat) returns (ok: bool)
      requires win.Length == SS
      modifies this`disk
      ensures ok <==> sect < |old(disk)|
      ensures disk == if ok then old(disk)[sect := win[..]] else old(disk)
    {
      ok := sect < |disk|;
      if ok {
        disk := disk[sect := win[..]];
      }
    }

    method Fill(s: Sector)
      requires win.Length == SS
      modifies win
      ensures win[..] == s
    {
      forall j | 0 <= j < SS {
        win[j] := s[j];
      }
    }

    /** Load a sector and look what it is. */
    method CheckFs(sect: u32) returns (k: Kind)
      requires win.Length == SS
      modifies win
      ensures k == KindOf(disk, sect)
      ensures k != Unreadable ==> win[..] == disk[sect]
    {
      var ok := ReadSector(sect);
      if !ok { return Unreadable; }
      if Ld16(win[..], BS_55AA) != 0xAA55 { return NoBoot; }
      if SaysFat(win[..], BS_FilSysType) { return FatBoot; }
      if SaysFat(win[..], BS_FilSysType32) { return FatBoot; }
      return OtherBoot;
    }

    /** Look for a FAT volume in the partitions in turn; `k` says what the last one looked at is. */
    method SearchPartitions() returns (k: Kind, b: u32)
      requires win.Length == SS && KindOf(disk, 0) == OtherBoot && win[..] == disk[0]
      modifies win
      ensures k == FatBoot ==> VolumeAt(disk, b) && win[..] == disk[b]
      ensures k != FatBoot ==>
        (forall c: u32 :: !VolumeAt(disk, c)) && k == KindOfPartition(disk, PartitionStart(disk[0], 3))
    {
      ghost var s := disk[0];
      var br: seq<u32> := [];
      var i := 0;
      while i < 4
        invariant 0 <= i <= 4 && |br| == i && forall j: nat :: j < i ==> br[j] == PartitionStart(s, j)
      {
        br := br + [PartitionStart(win[..], i)];
        i := i + 1;
      }
      i, b, k := 0, 0, NoBoot;
      while i < 4
        invariant 0 <= i <= 4
        invariant forall j: nat :: j < i ==> KindOfPartition(disk, br[j]) != FatBoot
        invariant i > 0 ==> k == KindOfPartition(disk, br[i - 1]) && k != FatBoot
      {
        b := br[i];
        if b != 0 { k := CheckFs(b); } else { k := NoBoot; }
        if k == FatBoot {
          assert b == PartitionStart(s, i);
          return;
        }
        i := i + 1;
      }
      assert br[3] == PartitionStart(s, 3);
    }

    /** Find the FAT volume of the drive, and its geometry. */
    method FindVolume() returns (res: FResult)
      requires win.Length == SS
      modifies this`mounted, win
      ensures res == Ok <==> exists b: u32 :: Mountable(disk, b)
      ensures res == Ok ==> mounted.Some? && Mounts(disk, mounted.value)
      ensures res != Ok ==> mounted == None && (res == NoFilesystem || res == DiskErr)
      ensures res == DiskErr ==> forall b: u32 :: !VolumeAt(disk, b)
    {
      hide ParseBoot, Ld16, Ld32, VolumeAt, KindOf;
      mounted := None;
      var b: u32 := 0;
      var k := CheckFs(b);
      VolumeKinds(disk);
      if k == OtherBoot {
        k, b := SearchPartitions();
      }
      if k == Unreadable { return DiskErr; }
      if k != FatBoot { return NoFilesystem; }
      OneVolume(disk, b);
      var boot := win[..];
      var g := ParseBoot(boot, b, |disk|);
      if g == None { return NoFilesystem; }
      ParsedBase(boot, b, |disk|);
      var m := Mounted(g.value, 0xFFFF_FFFF, 0xFFFF_FFFF, 0x80);
      if g.value.fsType == Fat32 && Ld16(boot, BPB_FSInfo) == 1 {
        var ok := ReadSector(Wrap(b + 1));
        if ok {
          m := m.(fsiFlag := 0);
          if HasInfo(win[..]) {
            m := m.(freeClust := Ld32(win[..], FSI_Free_Count), lastClust := Ld32(win[..], FSI_Nxt_Free));
          }
        }
      }
      mounted := Some(m);
      assert Mountable(disk, b);
      return Ok;
    }
  }

  /** A drive has one volume at most. */
  lemma OneVolume(d: seq<Sector>, b: u32)
    requires VolumeAt(d, b)
    ensures b < |d| && forall c: u32 :: VolumeAt(d, c) ==> c == b
  {
  }
}
