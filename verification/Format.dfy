/**
  Formatting a drive, and what mounting makes of the result.
*/
module Format {
  import opened Bytes
  import opened Numbers
  import opened Volume
  import opened Layout
  import opened Mount

  // ---------- The sectors written ----------

  function Media(sfd: bool): byte {
    if sfd then 0xF0 else 0xF8
  }

  /** System identification in the partition table. */
  function SystemId(p: Plan): byte {
    if p.fmt == Fat32 then 0x0C
    else if p.fmt == Fat12 && p.nVol < 0x1_0000 then 0x01
    else if p.nVol < 0x1_0000 then 0x04
    else 0x06
  }

  /** The partition table, with one partition. */
  function MbrSector(p: Plan): (s: Sector) {
    var n := (p.bVol + p.nVol) / 63 / 255;
    var s := ZeroSector()[MBR_Table + 1 := 1][MBR_Table + 2 := 1][MBR_Table + 3 := 0][MBR_Table + 4 := SystemId(p)];
    var s := s[MBR_Table + 5 := 254][MBR_Table + 6 := n / 256 % 4 * 64 + 63][MBR_Table + 7 := n % 0x100];
    var s := St32(s, MBR_Table + 8, 63);
    var s := St32(s, MBR_Table + 12, p.nVol);
    St16(s, BS_55AA, 0xAA55)
  }

  function PutBytes(s: seq<byte>, i: nat, w: seq<byte>): (t: seq<byte>)
    requires i + |w| <= |s|
    ensures |t| == |s|
    ensures forall j :: 0 <= j < |s| ==> t[j] == if i <= j < i + |w| then w[j - i] else s[j]
  {
    s[..i] + w + s[i + |w|..]
  }

  const JUMP_OEM: seq<byte> := [0xEB, 0xFE, 0x90, 0x4D, 0x53, 0x44, 0x4F, 0x53, 0x35, 0x2E, 0x30]  // MSDOS5.0
  const NO_NAME: seq<byte> := [0x4E, 0x4F, 0x20, 0x4E, 0x41, 0x4D, 0x45, 0x20, 0x20, 0x20, 0x20]   // NO NAME
  const FAT_NAME: seq<byte> := [0x46, 0x41, 0x54, 0x20, 0x20, 0x20, 0x20, 0x20]
  const FAT32_NAME: seq<byte> := [0x46, 0x41, 0x54, 0x33, 0x32, 0x20, 0x20, 0x20]

  /** The part of the boot sector that all FAT types share, up to the size of the volume. */
  function HeadStart(p: Plan): (s: Sector) {
    var s := PutBytes(ZeroSector(), 0, JUMP_OEM);
    var s := St16(s, BPB_BytsPerSec, SS)[BPB_SecPerClus := p.au % 0x100];
    var s := St16(s, BPB_RsvdSecCnt, p.nRsv)[BPB_NumFATs := 1];
    St16(s, BPB_RootEntCnt, if p.fmt == Fat32 then 0 else N_ROOTDIR)
  }

  function WithSize(s: Sector, n: nat): (t: Sector) {
    if n < 0x1_0000 then St16(s, BPB_TotSec16, n) else St32(s, BPB_TotSec32, n)
  }

  function HeadEnd(s: Sector, p: Plan, sfd: bool): (t: Sector) {
    var t := St16(s[BPB_Media := Media(sfd)], BPB_SecPerTrk, 63);
    St32(St16(t, BPB_NumHeads, 255), BPB_HiddSec, p.bVol)
  }

  function BootHead(p: Plan, sfd: bool): (s: Sector) {
    HeadEnd(WithSize(HeadStart(p), p.nVol), p, sfd)
  }

  /** Serial number, size of the FAT, and first cluster of the root directory. */
  function Numbers32(s: Sector, nFat: nat, id: u32): (t: Sector) {
    St32(St32(St32(s, 67, id), BPB_FATSz32, nFat), BPB_RootClus, 2)
  }

  /** The boot sector, with the serial number `id`. */
  function BootSector(p: Plan, sfd: bool, id: u32): (s: Sector) {
    var s := BootHead(p, sfd);
    var s :=
      if p.fmt == Fat32 then
        var s := St16(St16(Numbers32(s, p.nFat, id), BPB_FSInfo, 1), BPB_BkBootSec, 6)[64 := 0x80][66 := 0x29];
        PutBytes(s, 71, NO_NAME + FAT32_NAME)
      else
        var s := St16(St32(s, 39, id), BPB_FATSz16, p.nFat)[36 := 0x80][38 := 0x29];
        PutBytes(s, 43, NO_NAME + FAT_NAME);
    St16(s, BS_55AA, 0xAA55)
  }

  /** The first sector of the FAT: the reserved entries, and on FAT32 the root directory's cluster. */
  function FirstFatSector(t: FatType, md: byte): (s: Sector) {
    match t
    case Fat12 => St32(ZeroSector(), 0, 0x00FF_FF00 + md)
    case Fat16 => St32(ZeroSector(), 0, 0xFFFF_FF00 + md)
    case Fat32 => St32(St32(St32(ZeroSector(), 0, 0xFFFF_FF00 + md), 4, 0xFFFF_FFFF), 8, 0x0FFF_FFFF)
  }

  lemma HeadStartFields(p: Plan)
    ensures var s := HeadStart(p);
      && Ld16(s, BPB_BytsPerSec) == SS && s[BPB_SecPerClus] == p.au % 0x100
      && Ld16(s, BPB_RsvdSecCnt) == p.nRsv % 0x1_0000
      && s[BPB_NumFATs] == 1 && Ld16(s, BPB_RootEntCnt) == (if p.fmt == Fat32 then 0 else N_ROOTDIR)
      && forall j :: 19 <= j < 36 ==> s[j] == 0
  {
  }

  lemma SizeStored(s: Sector, n: u32)
    requires forall j :: 19 <= j < 36 ==> s[j] == 0
    ensures var t := WithSize(s, n);
      && TotalSectors(t) == n
      && forall j :: 11 <= j < 36 && j != 19 && j != 20 && j < 32 ==> t[j] == s[j]
  {
    hide St16, St32;
    if n < 0x1_0000 {
      St16Ld16(s, BPB_TotSec16, n);
    } else {
      St32Ld32(s, BPB_TotSec32, n);
    }
  }

  lemma HeadEndKeeps(s: Sector, p: Plan, sfd: bool)
    ensures forall j :: 11 <= j < 36 && (j < 21 || j == 22 || j == 23 || j >= 32) ==> HeadEnd(s, p, sfd)[j] == s[j]
  {
  }

  lemma SameSize(s: Sector, t: Sector)
    requires forall j :: 11 <= j < 36 && (j < 21 || j == 22 || j == 23 || j >= 32) ==> t[j] == s[j]
    ensures TotalSectors(t) == TotalSectors(s)
  {
  }

  lemma BootHeadFields(p: Plan, sfd: bool)
    requires ClusterSize(p.au) && p.nRsv < 0x1_0000 && p.nVol < U32
    ensures var s := BootHead(p, sfd);
      && Ld16(s, BPB_BytsPerSec) == SS && s[BPB_SecPerClus] == p.au && Ld16(s, BPB_RsvdSecCnt) == p.nRsv
      && s[BPB_NumFATs] == 1 && Ld16(s, BPB_RootEntCnt) == (if p.fmt == Fat32 then 0 else N_ROOTDIR)
      && Ld16(s, BPB_FATSz16) == 0
  {
    hide HeadStart, WithSize, HeadEnd;
    HeadStartFields(p);
    SizeStored(HeadStart(p), p.nVol);
    HeadEndKeeps(WithSize(HeadStart(p), p.nVol), p, sfd);
  }

  lemma BootHeadSize(p: Plan, sfd: bool)
    requires p.nVol < U32
    ensures TotalSectors(BootHead(p, sfd)) == p.nVol
  {
    hide HeadStart, WithSize, HeadEnd, TotalSectors;
    HeadStartFields(p);
    SizeStored(HeadStart(p), p.nVol);
    HeadEndKeeps(WithSize(HeadStart(p), p.nVol), p, sfd);
    SameSize(WithSize(HeadStart(p), p.nVol), BootHead(p, sfd));
  }

  lemma NumbersStored(s: Sector, nFat: u32, id: u32)
    ensures var t := Numbers32(s, nFat, id);
      Ld32(t, BPB_FATSz32) == nFat && Ld32(t, BPB_RootClus) == 2 && forall j :: 0 <= j < 36 ==> t[j] == s[j]
  {
    hide St32;
    St32Ld32(s, 67, id);
    St32Ld32(St32(s, 67, id), BPB_FATSz32, nFat);
    St32Ld32(St32(St32(s, 67, id), BPB_FATSz32, nFat), BPB_RootClus, 2);
  }

  lemma BootTail32(p: Plan, sfd: bool, id: u32)
    requires p.nFat < U32 && p.fmt == Fat32
    ensures var s, h := BootSector(p, sfd, id), BootHead(p, sfd);
      && (forall j :: 11 <= j < 36 ==> s[j] == h[j])
      && Ld32(s, BPB_FATSz32) == p.nFat && Ld32(s, BPB_RootClus) == 2 && Ld16(s, BPB_FSInfo) == 1
      && SaysFat(s, BS_FilSysType32) && Ld16(s, BS_55AA) == 0xAA55
  {
    hide BootHead, Numbers32;
    NumbersStored(BootHead(p, sfd), p.nFat, id);
  }

  lemma BootTail16(p: Plan, sfd: bool, id: u32)
    requires p.nFat < 0x1_0000 && p.fmt != Fat32
    ensures var s, h := BootSector(p, sfd, id), BootHead(p, sfd);
      && (forall j :: 11 <= j < 36 && j != 22 && j != 23 ==> s[j] == h[j])
      && Ld16(s, BPB_FATSz16) == p.nFat && SaysFat(s, BS_FilSysType) && Ld16(s, BS_55AA) == 0xAA55
  {
    hide BootHead;
  }

  /** What differs between the FAT types comes after, but for the size of a FAT12/16. */
  lemma BootTail(p: Plan, sfd: bool, id: u32)
    requires p.nFat < if p.fmt == Fat32 then U32 else 0x1_0000
    ensures var s, h := BootSector(p, sfd, id), BootHead(p, sfd);
      && (forall j :: 11 <= j < 36 && (p.fmt == Fat32 || (j != 22 && j != 23)) ==> s[j] == h[j])
      && (p.fmt == Fat32 ==>
           Ld32(s, BPB_FATSz32) == p.nFat && Ld32(s, BPB_RootClus) == 2 && Ld16(s, BPB_FSInfo) == 1
           && SaysFat(s, BS_FilSysType32))
      && (p.fmt != Fat32 ==> Ld16(s, BPB_FATSz16) == p.nFat && SaysFat(s, BS_FilSysType))
      && Ld16(s, BS_55AA) == 0xAA55
  {
    hide BootHead, BootSector, SaysFat, Ld16, Ld32;
    if p.fmt == Fat32 {
      BootTail32(p, sfd, id);
    } else {
      BootTail16(p, sfd, id);
    }
  }

  lemma BootSectorFields(p: Plan, sfd: bool, id: u32)
    requires ClusterSize(p.au) && p.nVol < U32 && p.nRsv < 0x1_0000
    requires 0 < p.nFat < if p.fmt == Fat32 then U32 else 0x1_0000
    ensures var s := BootSector(p, sfd, id);
      && Ld16(s, BPB_BytsPerSec) == SS && s[BPB_SecPerClus] == p.au && Ld16(s, BPB_RsvdSecCnt) == p.nRsv
      && s[BPB_NumFATs] == 1 && Ld16(s, BPB_RootEntCnt) == (if p.fmt == Fat32 then 0 else N_ROOTDIR)
      && TotalSectors(s) == p.nVol && FatSize(s) == p.nFat
      && (p.fmt == Fat32 ==> Ld32(s, BPB_RootClus) == 2 && Ld16(s, BPB_FSInfo) == 1 && SaysFat(s, BS_FilSysType32))
      && (p.fmt != Fat32 ==> SaysFat(s, BS_FilSysType))
      && Ld16(s, BS_55AA) == 0xAA55
  {
    hide BootHead, BootSector;
    BootHeadFields(p, sfd);
    BootHeadSize(p, sfd);
    BootTail(p, sfd, id);
  }

  lemma MbrFields(p: Plan)
    requires p.nVol < U32 && p.bVol < U32
    ensures var s := MbrSector(p);
      && Ld16(s, BS_55AA) == 0xAA55 && !SaysFat(s, BS_FilSysType) && !SaysFat(s, BS_FilSysType32)
      && PartitionStart(s, 0) == 63
  {
  }

  // ---------- f_mkfs ----------

  function FatStart(p: Plan): nat {
    p.bVol + p.nRsv
  }

  /** The first sector of the FAT is written even if the FAT has none. */
  function RootStart(p: Plan): nat {
    FatStart(p) + if p.nFat == 0 then 1 else p.nFat
  }

  /** The root directory's sectors: its own area, or on FAT32 the first cluster. */
  function RootEnd(p: Plan): nat {
    RootStart(p) + if p.fmt == Fat32 then p.au else p.nDir
  }

  /** What formatting puts into sector `i`, which was `was`. */
  function NewSector(p: Plan, sfd: bool, id: u32, i: nat, was: Sector): Sector {
    if !sfd && i == 0 then MbrSector(p)
    else if i == p.bVol || (p.fmt == Fat32 && i == p.bVol + 6) then BootSector(p, sfd, id)
    else if p.fmt == Fat32 && (i == p.bVol + 1 || i == p.bVol + 7) then InfoSector(p.nClst - 1, 2)
    else if i == FatStart(p) then FirstFatSector(p.fmt, Media(sfd))
    else if FatStart(p) < i < RootEnd(p) then ZeroSector()
    else was
  }

  /** The drive has been formatted as planned; sectors that belong to no area are as they were. */
  ghost predicate Formatted(d0: seq<Sector>, d: seq<Sector>, p: Plan, sfd: bool, id: u32) {
    && |d| == |d0| && RootEnd(p) <= |d|
    && forall i :: 0 <= i < |d| ==> d[i] == NewSector(p, sfd, id, i, d0[i])
  }

  /** Write the window to sectors `from` up to `to`. */
  method WriteSectors(w: WorkArea, from: nat, to: nat) returns (ok: bool)
    requires w.win.Length == SS && from <= to
    modifies w`disk
    ensures ok <==> to <= |w.disk| || from == to
    ensures |w.disk| == old(|w.disk|)
    ensures ok ==> forall i :: 0 <= i < |w.disk| ==>
      w.disk[i] == if from <= i < to then w.win[..] else old(w.disk)[i]
  {
    var wsect := from;
    while wsect < to
      invariant from <= wsect <= to && |w.disk| == old(|w.disk|) && (wsect <= |w.disk| || wsect == from)
      invariant forall i :: 0 <= i < |w.disk| ==> w.disk[i] == if from <= i < wsect then w.win[..] else old(w.disk)[i]
    {
      ok := w.WriteSector(wsect);
      if !ok { return; }
      wsect := wsect + 1;
    }
    ok := true;
  }

  /** The FAT, all entries but the first ones free, and the empty root directory. */
  method WriteAreas(w: WorkArea, p: Plan, md: byte) returns (ok: bool)
    requires w.win.Length == SS && 0 < RootEnd(p) - RootStart(p)
    modifies w`disk, w.win
    ensures ok <==> RootEnd(p) <= |w.disk|
    ensures |w.disk| == old(|w.disk|)
    ensures ok ==> forall i :: 0 <= i < |w.disk| ==>
      w.disk[i] ==
        if i == FatStart(p) then FirstFatSector(p.fmt, md)
        else if FatStart(p) < i < RootEnd(p) then ZeroSector()
        else old(w.disk)[i]
  {
    w.Fill(FirstFatSector(p.fmt, md));
    ok := w.WriteSector(FatStart(p));
    if !ok { return; }
    w.Fill(ZeroSector());
    ok := WriteSectors(w, FatStart(p) + 1, RootStart(p));
    if !ok { return; }
    ok := WriteSectors(w, RootStart(p), RootEnd(p));
  }

  method ChooseUnit(nVol: u32, au: u32) returns (a: nat)
    ensures a == ClusterUnit(nVol, au) && ClusterSize(a)
  {
    ClusterUnitPower(nVol, au);
    if au != 0 {
      PowerTest(au);
    }
    a := if au == 0 || BitAnd(au, au - 1) != 0 then 0 else au;
    if a == 0 {
      a := PickUnit(nVol / 2000);
    }
    AutoUnitPower(nVol / 2000, 0);
    SmallPower(AutoUnit(nVol / 2000, 0));
    if a >= SS { a := a / SS; }
    if a > 128 { a := 128; }
  }

  /** The plan for a drive of `n` sectors. */
  function PlanFor(n: u32, sfd: bool, au: u32, block: u32): Option<Plan>
    requires n >= 128
  {
    var bVol := if sfd then 0 else 63;
    ClusterUnitPower(n - bVol, au);
    PlanVolume(n - bVol, bVol, ClusterUnit(n - bVol, au), block)
  }

  lemma PlanForFacts(n: u32, sfd: bool, au: u32, block: u32)
    requires n >= 128 && PlanFor(n, sfd, au, block).Some?
    ensures var p := PlanFor(n, sfd, au, block).value;
      && ClusterSize(p.au) && p.bVol + p.nVol == n && p.bVol == (if sfd then 0 else 63)
      && p.au == ClusterUnit(p.nVol, au) && PlanVolume(p.nVol, p.bVol, p.au, block) == Some(p)
      && 0 < p.nRsv < 0x1_0000 && (p.fmt == Fat32 ==> 32 <= p.nRsv) && p.nDir == DirSectors(p.fmt)
      && (p.fmt != Fat32 ==> p.nFat < 0x1_0000) && p.nFat < 0x80_0000
  {
    hide PlanVolume, ClusterUnit;
    var bVol := if sfd then 0 else 63;
    ClusterUnitPower(n - bVol, au);
    PlanFacts(n - bVol, bVol, ClusterUnit(n - bVol, au), block);
  }

  /** Write the boot sector, where there is one the partition table, and the areas before the clusters. */
  method WriteVolume(w: WorkArea, p: Plan, sfd: bool, time: u32) returns (res: FResult)
    requires w.win.Length == SS && p.bVol == (if sfd then 0 else 63) && 0 < RootEnd(p) - RootStart(p)
    requires 0 < p.nRsv && (p.fmt == Fat32 ==> 32 <= p.nRsv)
    modifies w`disk, w.win
    ensures |w.disk| == old(|w.disk|)
    ensures if RootEnd(p) <= |w.disk| then res == Ok && Formatted(old(w.disk), w.disk, p, sfd, time)
            else res == DiskErr
  {
    hide PlanVolume, BootSector, MbrSector, InfoSector, FirstFatSector, ClusterUnit;
    var ok;
    if !sfd {
      w.Fill(MbrSector(p));
      ok := w.WriteSector(0);
      if !ok { return DiskErr; }
    }
    w.Fill(BootSector(p, sfd, time));
    ok := w.WriteSector(p.bVol);
    if !ok { return DiskErr; }
    if p.fmt == Fat32 {
      ok := w.WriteSector(p.bVol + 6);
    }
    ok := WriteAreas(w, p, Media(sfd));
    if !ok { return DiskErr; }
    if p.fmt == Fat32 {
      w.Fill(InfoSector(p.nClst - 1, 2));
      ok := w.WriteSector(p.bVol + 1);
      ok := w.WriteSector(p.bVol + 7);
    }
    return Ok;
  }

  /** Format the drive: as a whole (`sfd`) or with a partition table. */
  method Mkfs(w: WorkArea, sfd: bool, au: u32, block: u32, time: u32) returns (res: FResult)
    requires w.win.Length == SS && |w.disk| < U32
    modifies w`disk, w`mounted, w.win
    ensures w.mounted == None && |w.disk| == old(|w.disk|)
    ensures |w.disk| < 128 ==> res == DiskErr
    ensures |w.disk| >= 128 ==>
      match PlanFor(|w.disk|, sfd, au, block)
      case None => res == MkfsAborted && w.disk == old(w.disk)
      case Some(p) =>
        if RootEnd(p) <= |w.disk| then res == Ok && Formatted(old(w.disk), w.disk, p, sfd, time)
        else res == DiskErr
  {
    hide PlanVolume, BootSector, MbrSector, InfoSector, FirstFatSector, ClusterUnit;
    w.mounted := None;
    if |w.disk| < 128 { return DiskErr; }
    var bVol := if sfd then 0 else 63;
    var a := ChooseUnit(|w.disk| - bVol, au);
    var plan := PlanVolume(|w.disk| - bVol, bVol, a, block);
    assert plan == PlanFor(|w.disk|, sfd, au, block);
    if plan == None { return MkfsAborted; }
    PlanForFacts(|w.disk|, sfd, au, block);
    res := WriteVolume(w, plan.value, sfd, time);
  }
}
