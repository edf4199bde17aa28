/**
  Mounting undoes formatting: what mounting makes of a drive that has been formatted.
*/
module FormatMount {
  import opened Bytes
  import opened Numbers
  import opened Volume
  import opened FatCodec
  import opened Chains
  import opened Allocator
  import opened FileLayout
  import opened Layout
  import opened Mount
  import opened Format

  /** The planned volume as a mounted one. */
  function PlannedGeometry(p: Plan, nsect: nat): RawGeometry {
    RawGeometry(nsect, p.fmt, p.au, 1, p.nFat, p.nClst + 2, if p.fmt == Fat32 then 0 else N_ROOTDIR,
                p.bVol, p.bVol + p.nRsv, if p.fmt == Fat32 then 2 else p.bVol + p.nRsv + p.nFat, DataStart(p))
  }

  /** `p` is what f_mkfs plans for a drive of `n` sectors. */
  ghost predicate PlanOf(p: Plan, n: u32, sfd: bool, au: u32, block: u32) {
    n >= 128 && PlanFor(n, sfd, au, block) == Some(p) && p.au > 0 && p.nVol < U32
  }

  /** The same, where the 32-bit sum for the size of the FAT does not wrap. */
  ghost predicate Planned(p: Plan, n: u32, sfd: bool, au: u32, block: u32) {
    PlanOf(p, n, sfd, au, block) && SumFits(p.nVol, p.au)
  }

  lemma PlannedFacts(p: Plan, n: u32, sfd: bool, au: u32, block: u32)
    requires Planned(p, n, sfd, au, block)
    ensures ClusterSize(p.au) && p.bVol + p.nVol == n && p.bVol == (if sfd then 0 else 63)
    ensures 0 < p.nRsv < 0x1_0000 && (p.fmt == Fat32 ==> 32 <= p.nRsv) && p.nDir == DirSectors(p.fmt)
    ensures 0 < p.nFat < 0x80_0000 && (p.fmt != Fat32 ==> p.nFat < 0x1_0000)
    ensures DataStart(p) <= n ==>
      && p.nClst == Clusters(n - DataStart(p), p.au) <= n - DataStart(p) && (Fits(p) <==> p.nClst >= 1)
      && (p.nClst >= 1 ==> TypeFor(p.nClst) == p.fmt)
      && FatBytes(p.fmt, p.nClst + 2) <= p.nFat * SS
  {
    hide PlanVolume, ClusterUnit, FatBytes, TypeFor;
    PlanForFacts(n, sfd, au, block);
    if DataStart(p) <= n {
      ClustersFit(p, p.nVol, p.bVol, p.au, block);
      FatLargeEnough(p, p.nVol, p.bVol, p.au, block);
    }
    FatNotEmpty(p, block);
  }

  lemma FatNotEmpty(p: Plan, block: u32)
    requires ClusterSize(p.au) && p.bVol <= 63 && p.nVol < U32
    requires PlanVolume(p.nVol, p.bVol, p.au, block) == Some(p) && SumFits(p.nVol, p.au)
    ensures p.nFat > 0
  {
  }

  /** The formatted drive has its volume where it was planned. */
  lemma VolumeFound(d0: seq<Sector>, d: seq<Sector>, p: Plan, sfd: bool, id: u32)
    requires Formatted(d0, d, p, sfd, id) && ClusterSize(p.au) && p.bVol == (if sfd then 0 else 63)
    requires p.nVol < U32 && p.nRsv < 0x1_0000 && 0 < p.nFat < if p.fmt == Fat32 then U32 else 0x1_0000
    ensures |d| > p.bVol && d[p.bVol] == BootSector(p, sfd, id) && VolumeAt(d, p.bVol)
  {
    hide BootSector, MbrSector, InfoSector, FirstFatSector, TotalSectors, FatSize;
    BootSectorFields(p, sfd, id);
    assert KindOf(d, p.bVol) == FatBoot;
    if !sfd {
      MbrFields(p);
      assert KindOf(d, 0) == OtherBoot;
      assert PartitionStart(d[0], 0) == p.bVol;
    }
  }

  /** Its boot sector is accepted exactly if there is room for a cluster, and gives the planned geometry. */
  lemma BootParsed(p: Plan, n: u32, sfd: bool, au: u32, block: u32, id: u32)
    requires Planned(p, n, sfd, au, block) && DataStart(p) <= n
    ensures ParseBoot(BootSector(p, sfd, id), p.bVol, n) ==
      if Fits(p) then Some(PlannedGeometry(p, n)) else None
  {
    hide PlanFor, BootSector, TotalSectors, FatSize, TypeFor, FatBytes, SumFits, Ld16, Ld32, ClusterSize, SaysFat,
      Clusters, AllFats, Wrap, TestsPower;
    PlannedFacts(p, n, sfd, au, block);
    BootSectorFields(p, sfd, id);
    var s := BootSector(p, sfd, id);
    var sys := SystemSectors(s);
    PowerIsClusterSize(s[BPB_SecPerClus]);
    OneFat(s);
    assert sys == p.nRsv + p.nFat + p.nDir <= p.nVol < U32;
    if Fits(p) {
      BytesFit(p.fmt, p.nClst + 2, p.nFat);
      assert Clusters(p.nVol - sys, s[BPB_SecPerClus]) == p.nClst <= p.nVol - sys;
      assert p.nClst + 2 < U32 && p.bVol + sys < U32;
    } else {
      assert Clusters(p.nVol - sys, s[BPB_SecPerClus]) == 0;
    }
  }

  lemma OneFat(s: Sector)
    ensures s[BPB_NumFATs] == 1 ==> AllFats(s) == FatSize(s)
  {
  }

  lemma BytesFit(t: FatType, n: nat, k: nat)
    requires FatBytes(t, n) <= k * SS && k < 0x80_0000
    ensures Wrap(Wrap(FatBytes(t, n)) + (SS - 1)) / SS <= k
  {
  }

  /**
    Formatting and then mounting: the volume is mounted exactly if the areas before the clusters
    leave room for one, and then with the type, cluster size, FAT, data area and number of
    clusters that were planned.
  */
  lemma MountUndoesFormat(d0: seq<Sector>, d: seq<Sector>, p: Plan, n: u32, sfd: bool, au: u32, block: u32, id: u32)
    requires |d| == n && Planned(p, n, sfd, au, block) && Formatted(d0, d, p, sfd, id)
    ensures (exists b: u32 :: Mountable(d, b)) <==> Fits(p)
    ensures forall m: Mounted :: Mounts(d, m) ==>
      && m.g == PlannedGeometry(p, n)
      && (p.fmt == Fat32 ==> m.freeClust == p.nClst - 1 && m.lastClust == 2 && m.fsiFlag == 0)
      && (p.fmt != Fat32 ==> m.freeClust == m.lastClust == 0xFFFF_FFFF && m.fsiFlag == 0x80)
  {
    hide PlanFor, BootSector, MbrSector, InfoSector, FirstFatSector, VolumeAt, ParseBoot, TypeFor, FatBytes, SumFits,
      Ld16, Ld32, SaysFat;
    PlannedFacts(p, n, sfd, au, block);
    assert DataStart(p) <= n;
    VolumeFound(d0, d, p, sfd, id);
    OneVolume(d, p.bVol);
    BootParsed(p, n, sfd, au, block, id);
    BootSectorFields(p, sfd, id);
    if Fits(p) {
      assert Mountable(d, p.bVol);
    }
    if p.fmt == Fat32 {
      assert d[p.bVol + 1] == InfoSector(p.nClst - 1, 2);
      InfoFields(p.nClst - 1, 2);
    }
  }

  // ---------- The fresh volume ----------

  /** The mounted geometry is sound exactly where the end mark can be told from cluster numbers. */
  lemma PlannedIsSound(p: Plan, n: u32, sfd: bool, au: u32, block: u32)
    requires PlanOf(p, n, sfd, au, block) && Fits(p)
    ensures Sound(PlannedGeometry(p, n)) <==> p.nClst + 2 <= 0x0FFF_FFFF
    ensures p.nClst + 2 <= 0x0FFF_FFFF ==> Planned(p, n, sfd, au, block)
  {
    hide PlanFor, FatBytes, SumFits, Span, Fits;
    if p.nClst + 2 <= 0x0FFF_FFFF {
      FewPlanned(p, n, sfd, au, block);
      PlannedFacts(p, n, sfd, au, block);
      SpanIsProduct(p.nClst, p.au);
      WholeBelow(n - DataStart(p), p.au);
    }
  }

  lemma FewPlanned(p: Plan, n: u32, sfd: bool, au: u32, block: u32)
    requires PlanOf(p, n, sfd, au, block) && Fits(p) && p.nClst + 2 <= 0x0FFF_FFFF
    ensures Planned(p, n, sfd, au, block) && DataStart(p) <= n
  {
    hide PlanVolume, ClusterUnit, SumFits;
    PlanForFacts(n, sfd, au, block);
    FewClustersFit(p, p.nVol, p.bVol, p.au, block);
  }

  lemma WholeBelow(k: nat, n: nat)
    requires n > 0
    ensures Clusters(k, n) * n <= k
  {
  }

  /** On a power of two, the data area begins at an erase block boundary. */
  lemma DataIsAligned(p: Plan, n: u32, sfd: bool, au: u32, block: u32)
    requires Planned(p, n, sfd, au, block) && 0 < block <= 32768 && PowerOfTwo(block)
    ensures PlannedGeometry(p, n).database % block == 0
  {
    hide ClusterUnit, Shift, FatSectors;
    var bVol := if sfd then 0 else 63;
    ClusterUnitPower(n - bVol, au);
    var fmt := TypeFor(Clusters(p.nVol, p.au));
    ShiftAligns(bVol + Reserved(fmt) + FatSectors(fmt, Clusters(p.nVol, p.au)) + DirSectors(fmt), block);
  }

  /** Entries of the fresh FAT: the reserved ones, the root directory's cluster on FAT32, and free ones. */
  lemma FreshEntry(g: Geometry, d: seq<Sector>, md: byte, c: nat)
    requires |d| == g.nsect && c < g.nFatent
    requires d[g.fatbase] == FirstFatSector(g.fsType, md)
    requires forall i :: g.fatbase < i < g.fatbase + g.fsize ==> d[i] == ZeroSector()
    ensures var v := FatOf(g, d)[c];
      if c >= 3 then v == 0
      else if c == 2 then v == (if g.fsType == Fat32 then 0x0FFF_FFFF else 0)
      else v > 1
  {
    hide FatOf, FirstFatSector;
    match g.fsType
    case Fat12 => FreshEntry12(g, d, md, c);
    case Fat16 => FreshEntry16(g, d, md, c);
    case Fat32 => FreshEntry32(g, d, md, c);
  }

  /** Only the entries that are not free have bytes that are not zero. */
  lemma FirstBytes(t: FatType, md: byte)
    ensures var s := FirstFatSector(t, md);
      && s[0] == md && s[1] == s[2] == 0xFF && (t != Fat12 ==> s[3] == 0xFF)
      && (t == Fat32 ==> s[4] == s[5] == s[6] == s[7] == s[8] == s[9] == s[10] == 0xFF && s[11] == 0x0F)
      && forall j :: (match t case Fat12 => 3 case Fat16 => 4 case Fat32 => 12) <= j < SS ==> s[j] == 0
  {
  }

  lemma FreshByte(g: Geometry, d: seq<Sector>, md: byte, i: nat)
    requires |d| == g.nsect && InFatBytes(g, d, i) && d[g.fatbase] == FirstFatSector(g.fsType, md)
    requires forall j :: g.fatbase < j < g.fatbase + g.fsize ==> d[j] == ZeroSector()
    ensures FatByte(g, d, i) == if i < SS then FirstFatSector(g.fsType, md)[i] else 0
  {
    hide FirstFatSector;
  }

  lemma FreshEntry12(g: Geometry, d: seq<Sector>, md: byte, c: nat)
    requires |d| == g.nsect && c < g.nFatent && g.fsType == Fat12
    requires d[g.fatbase] == FirstFatSector(g.fsType, md)
    requires forall i :: g.fatbase < i < g.fatbase + g.fsize ==> d[i] == ZeroSector()
    ensures if c >= 2 then FatOf(g, d)[c] == 0 else FatOf(g, d)[c] > 1
  {
    hide FatOf, FirstFatSector, FatByte;
    Entry12(g, d, c);
    FirstBytes(g.fsType, md);
    FreshByte(g, d, md, c + c / 2);
    FreshByte(g, d, md, c + c / 2 + 1);
  }

  lemma FreshEntry16(g: Geometry, d: seq<Sector>, md: byte, c: nat)
    requires |d| == g.nsect && c < g.nFatent && g.fsType == Fat16
    requires d[g.fatbase] == FirstFatSector(g.fsType, md)
    requires forall i :: g.fatbase < i < g.fatbase + g.fsize ==> d[i] == ZeroSector()
    ensures if c >= 2 then FatOf(g, d)[c] == 0 else FatOf(g, d)[c] > 1
  {
    hide FatOf, FirstFatSector;
    Entry16(g, d, c);
    FirstBytes(g.fsType, md);
  }

  lemma FreshEntry32(g: Geometry, d: seq<Sector>, md: byte, c: nat)
    requires |d| == g.nsect && c < g.nFatent && g.fsType == Fat32
    requires d[g.fatbase] == FirstFatSector(g.fsType, md)
    requires forall i :: g.fatbase < i < g.fatbase + g.fsize ==> d[i] == ZeroSector()
    ensures var v := FatOf(g, d)[c];
      if c >= 3 then v == 0 else if c == 2 then v == 0x0FFF_FFFF else v > 1
  {
    hide FatOf, FirstFatSector;
    Entry32(g, d, c);
    FirstBytes(g.fsType, md);
  }

  lemma {:induction false} FreeFrom(fat: seq<nat>, k: nat, from: nat)
    requires 2 <= from <= k <= |fat|
    requires (forall c :: 2 <= c < from ==> fat[c] != 0) && (forall c :: from <= c < k ==> fat[c] == 0)
    ensures FreeBelow(fat, k) == k - from
  {
    if k > from {
      FreeFrom(fat, k - 1, from);
    } else {
      FreeExists(fat, k);
    }
  }

  /**
    The fresh volume: no cluster is allocated but the root directory's on FAT32, where the
    count in FSINFO is the number of free clusters; there is no file, and the root directory
    is empty.
  */
  lemma FreshVolume(d0: seq<Sector>, d: seq<Sector>, p: Plan, n: u32, sfd: bool, au: u32, block: u32, id: u32)
    requires |d| == n && PlanOf(p, n, sfd, au, block) && Formatted(d0, d, p, sfd, id) && Fits(p)
    requires p.nClst + 2 <= 0x0FFF_FFFF
    ensures Sound(PlannedGeometry(p, n))
    ensures var fat := FatOf(PlannedGeometry(p, n), d);
      && FreeCount(fat) == (if p.fmt == Fat32 then p.nClst - 1 else p.nClst)
      && Owned(fat, if p.fmt == Fat32 then [[2]] else [])
      && !HasReserved(fat) && fat[0] != 0 && fat[1] != 0
    ensures forall i :: RootStart(p) <= i < RootEnd(p) ==> d[i] == ZeroSector()
    ensures if p.fmt == Fat32 then Clust2Sect(PlannedGeometry(p, n), 2) == RootStart(p)
            else PlannedGeometry(p, n).dirbase == RootStart(p)
  {
    hide PlanFor, SumFits, FatOf, BootSector, MbrSector, InfoSector, FirstFatSector;
    PlannedIsSound(p, n, sfd, au, block);
    PlannedFacts(p, n, sfd, au, block);
    FreshFat(PlannedGeometry(p, n), d, Media(sfd));
  }

  lemma FreshFat(g: Geometry, d: seq<Sector>, md: byte)
    requires |d| == g.nsect && d[g.fatbase] == FirstFatSector(g.fsType, md)
    requires forall i :: g.fatbase < i < g.fatbase + g.fsize ==> d[i] == ZeroSector()
    ensures var fat := FatOf(g, d);
      && FreeCount(fat) == (if g.fsType == Fat32 then g.nFatent - 3 else g.nFatent - 2)
      && Owned(fat, if g.fsType == Fat32 then [[2]] else [])
      && !HasReserved(fat) && fat[0] != 0 && fat[1] != 0
  {
    hide FatOf, FirstFatSector;
    var fat := FatOf(g, d);
    forall c: nat | c < |fat|
      ensures if c >= 3 then fat[c] == 0
              else if c == 2 then fat[c] == (if g.fsType == Fat32 then 0x0FFF_FFFF else 0)
              else fat[c] > 1
    {
      FreshEntry(g, d, md, c);
    }
    FreeFrom(fat, |fat|, if g.fsType == Fat32 then 3 else 2);
    if g.fsType == Fat32 {
      var files := [[2]];
      assert IsChain(fat, [2]);
      assert 2 in files[0];
      assert forall c :: InRange(fat, c) && fat[c] != 0 ==> c == 2;
      assert Claimed(files, 2);
    }
  }

  // ---------- Where it goes wrong ----------

  /**
    A small volume on a drive with large erase blocks: the data area is moved to the end of the
    drive. Formatting succeeds, although there is no cluster, and mounting refuses the volume.
  */
  lemma NoClusterLeft(d0: seq<Sector>, d: seq<Sector>, id: u32)
    requires |d| == 128
    ensures var p := Plan(Fat12, 0, 128, 1, 1, 95, 32, 0);
      && PlanFor(128, true, 512, 128) == Some(p) && RootEnd(p) <= 128
      && (Formatted(d0, d, p, true, id) ==> forall b: u32 :: !Mountable(d, b))
  {
    var p := Plan(Fat12, 0, 128, 1, 1, 95, 32, 0);
    assert PowerOfTwo(512) && PowerOfTwo(128);
    assert FatSectors(Fat12, 128) == 1;
    ShiftAligns(34, 128);
    assert Shift(34, 128) == 94;
    if Formatted(d0, d, p, true, id) {
      MountUndoesFormat(d0, d, p, 128, true, 512, 128, id);
    }
  }

  /**
    A terabyte drive with clusters of one sector: the sum for the size of the FAT wraps, and so
    does the one that mounting checks it with. The volume is mounted with one sector of FAT for
    more than 2^30 clusters.
  */
  lemma FatTooSmall(id: u32)
    ensures var n: u32, p := 0x4000_0000, Plan(Fat32, 0, 0x4000_0000, 1, 32, 1, 0, 0x3FFF_FFDF);
      && PlanFor(n, true, 512, 1) == Some(p)
      && ParseBoot(BootSector(p, true, id), 0, n) == Some(PlannedGeometry(p, n))
      && FatBytes(p.fmt, p.nClst + 2) > p.nFat * SS && !Sound(PlannedGeometry(p, n))
  {
    hide PlanFor, ParseBoot, BootSector, Sound;
    WrappedPlan();
    PlannedIsSound(Plan(Fat32, 0, 0x4000_0000, 1, 32, 1, 0, 0x3FFF_FFDF), 0x4000_0000, true, 512, 1);
    WrappedBoot(id);
  }

  lemma WrappedPlan()
    ensures PlanFor(0x4000_0000, true, 512, 1) == Some(Plan(Fat32, 0, 0x4000_0000, 1, 32, 1, 0, 0x3FFF_FFDF))
  {
    assert PowerOfTwo(512);
    AndNotZero(33);
    assert FatSectors(Fat32, 0x4000_0000) == 1;
    assert Shift(33, 1) == 0;
  }

  lemma WrappedBoot(id: u32)
    ensures var p := Plan(Fat32, 0, 0x4000_0000, 1, 32, 1, 0, 0x3FFF_FFDF);
      ParseBoot(BootSector(p, true, id), 0, 0x4000_0000) == Some(PlannedGeometry(p, 0x4000_0000))
  {
    hide BootSector, TotalSectors, FatSize, Ld16, Ld32, SaysFat, AllFats;
    var p := Plan(Fat32, 0, 0x4000_0000, 1, 32, 1, 0, 0x3FFF_FFDF);
    var s := BootSector(p, true, id);
    BootSectorFields(p, true, id);
    OneFat(s);
    assert Clusters(0x4000_0000 - 33, 1) == 0x3FFF_FFDF;
  }
}
