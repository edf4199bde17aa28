/**
  How f_mkfs divides a volume up: the FAT type, and where the FAT, the root directory and the
  clusters are. The arithmetic is that of unsigned 32-bit numbers, which wraps.
*/
module Layout {
  import opened Bytes
  import opened Numbers
  import opened Volume

  const N_ROOTDIR: nat := 512  // root directory entries of FAT12/16
  const ENTRIES_PER_SECTOR: nat := 16

  datatype Plan = Plan(
    fmt: FatType,
    bVol: nat,   // first sector of the volume
    nVol: nat,   // sectors of the volume
    au: nat,     // sectors per cluster
    nRsv: nat,   // reserved sectors before the FAT
    nFat: nat,   // sectors of the FAT
    nDir: nat,   // sectors of the root directory of FAT12/16
    nClst: nat)  // clusters

  datatype Option<T> = Some(value: T) | None

  /** The FAT type that goes with a number of clusters. */
  function TypeFor(nClst: nat): FatType {
    if nClst >= MIN_FAT32 then Fat32 else if nClst >= MIN_FAT16 then Fat16 else Fat12
  }

  /** Clusters that `k` sectors make up. */
  function Clusters(k: nat, csize: nat): nat {
    if csize == 0 then 0 else k / csize
  }

  /** Sectors given to the FAT for `n` clusters. */
  function FatSectors(t: FatType, n: u32): nat {
    match t
    case Fat12 => ((n * 3 + 1) / 2 + 3 + SS - 1) / SS
    case Fat16 => (n * 2 + 4 + SS - 1) / SS
    case Fat32 => Wrap(n * 4 + 8 + SS - 1) / SS
  }

  /** The 32-bit sum above does not wrap. */
  predicate SumFits(nVol: u32, au: nat)
  {
    TypeFor(Clusters(nVol, au)) == Fat32 ==> Clusters(nVol, au) * 4 + 8 + SS - 1 < U32
  }

  /** Sectors by which the data area is moved on to an erase block boundary. */
  function Shift(bData: nat, block: u32): (n: nat)
  {
    var b := if block == 0 || block > 32768 then 1 else block;
    AndNotBound(bData + b - 1, b - 1);
    AndNot(bData + b - 1, b - 1) - bData
  }

  /** The shift is less than a block, and for a power of two brings the data area to a multiple of it. */
  lemma ShiftAligns(bData: nat, block: u32)
    ensures Shift(bData, block) < if block == 0 || block > 32768 then 1 else block
    ensures 0 < block <= 32768 && PowerOfTwo(block) ==> (bData + Shift(bData, block)) % block == 0
  {
    hide AndNot, PowerOfTwo;
    var b := if block == 0 || block > 32768 then 1 else block;
    AndNotBound(bData + b - 1, b - 1);
    if PowerOfTwo(b) {
      AndNotAligns(bData + b - 1, b);
    }
  }

  function Reserved(t: FatType): nat {
    if t == Fat32 then 32 else 1
  }

  function DirSectors(t: FatType): nat {
    if t == Fat32 then 0 else N_ROOTDIR * 32 / SS
  }

  /** The layout of a volume of `nVol` sectors from `bVol` on, or nothing if it cannot be had. */
  function PlanVolume(nVol: u32, bVol: nat, au: nat, block: u32): (r: Option<Plan>)
    requires ClusterSize(au) && bVol <= 63
  {
    var n := Clusters(nVol, au);
    var fmt := TypeFor(n);
    var nFat := FatSectors(fmt, n);
    var nRsv, nDir := Reserved(fmt), DirSectors(fmt);
    var bData := bVol + nRsv + nFat + nDir;
    if nVol < bData + au - bVol then None
    else
      var k := Shift(bData, block);
      var nRsv' := if fmt == Fat32 then nRsv + k else nRsv;
      var nFat' := if fmt == Fat32 then nFat else nFat + k;
      var nClst := Clusters(Wrap(nVol - nRsv' - nFat' - nDir), au);
      if (fmt == Fat16 && nClst < MIN_FAT16) || (fmt == Fat32 && nClst < MIN_FAT32) then None
      else Some(Plan(fmt, bVol, nVol, au, nRsv', nFat', nDir, nClst))
  }

  /** First sector behind the FAT and the root directory. */
  function DataStart(p: Plan): nat {
    p.bVol + p.nRsv + p.nFat + p.nDir
  }

  /** The FAT and the root directory leave room for a cluster. */
  predicate Fits(p: Plan) {
    p.nRsv + p.nFat + p.nDir + p.au <= p.nVol
  }

  /** What the planned numbers mean. */
  lemma PlanFacts(nVol: u32, bVol: nat, au: nat, block: u32)
    requires ClusterSize(au) && bVol <= 63 && PlanVolume(nVol, bVol, au, block).Some?
    ensures var p := PlanVolume(nVol, bVol, au, block).value;
      && p.bVol == bVol && p.nVol == nVol && p.au == au
      && p.fmt == TypeFor(Clusters(nVol, au))
      && 0 < p.nRsv < 0x1_0000 && (p.fmt != Fat32 ==> p.nRsv == 1 && p.nFat < 0x1_0000)
      && (p.fmt == Fat32 ==> 32 <= p.nRsv)
      && p.nDir == DirSectors(p.fmt)
      && p.nFat < 0x80_0000
  {
    var n := Clusters(nVol, au);
    var fmt := TypeFor(n);
    FatSectorsBound(fmt, n);
    ShiftAligns(bVol + Reserved(fmt) + FatSectors(fmt, n) + DirSectors(fmt), block);
  }

  lemma FatSectorsBound(t: FatType, n: u32)
    requires t == TypeFor(n)
    ensures FatSectors(t, n) < 0x80_0000 && (t != Fat32 ==> FatSectors(t, n) <= 256)
  {
  }

  /** Where the areas fit, the number of clusters is that of whole ones in what is left. */
  lemma ClustersFit(p: Plan, nVol: u32, bVol: nat, au: nat, block: u32)
    requires ClusterSize(au) && bVol <= 63 && PlanVolume(nVol, bVol, au, block) == Some(p)
    ensures p.nRsv + p.nFat + p.nDir <= nVol ==>
      && p.nClst == Clusters(nVol - (p.nRsv + p.nFat + p.nDir), au) <= Clusters(nVol, au)
      && p.nClst <= nVol - (p.nRsv + p.nFat + p.nDir)
      && (Fits(p) <==> p.nClst >= 1)
      && (p.nClst >= 1 ==> TypeFor(p.nClst) == p.fmt)
  {
    PlanFacts(nVol, bVol, au, block);
    if p.nRsv + p.nFat + p.nDir <= nVol {
      var a := nVol - (p.nRsv + p.nFat + p.nDir);
      QuotientMono(a, nVol, au);
      QuotientMono(a, a, au);
    }
  }

  lemma QuotientMono(a: nat, b: nat, n: nat)
    requires a <= b && ClusterSize(n)
    ensures Clusters(a, n) <= Clusters(b, n) <= b && (Clusters(a, n) >= 1 <==> a >= n)
  {
  }

  /** With fewer clusters than 28-bit entries can number, the sum does not wrap. */
  lemma FewClustersFit(p: Plan, nVol: u32, bVol: nat, au: nat, block: u32)
    requires ClusterSize(au) && bVol <= 63 && PlanVolume(nVol, bVol, au, block) == Some(p)
    requires p.nRsv + p.nFat + p.nDir <= nVol && p.nClst + 2 <= 0x0FFF_FFFF
    ensures SumFits(nVol, au)
  {
    hide PlanVolume, Clusters;
    PlanFacts(nVol, bVol, au, block);
    ClustersFit(p, nVol, bVol, au, block);
    QuotientLess(nVol, p.nRsv + p.nFat + p.nDir, au);
  }

  lemma QuotientLess(a: nat, b: nat, n: nat)
    requires b <= a && ClusterSize(n)
    ensures Clusters(a - b, n) + b >= Clusters(a, n)
  {
  }

  /** The FAT has room for the entries, unless the 32-bit sum has wrapped. */
  lemma FatLargeEnough(p: Plan, nVol: u32, bVol: nat, au: nat, block: u32)
    requires ClusterSize(au) && bVol <= 63 && PlanVolume(nVol, bVol, au, block) == Some(p)
    requires p.nRsv + p.nFat + p.nDir <= nVol && SumFits(nVol, au)
    ensures FatBytes(p.fmt, p.nClst + 2) <= p.nFat * SS
  {
    ClustersFit(p, nVol, bVol, au, block);
    FatBytesMono(p.fmt, p.nClst, Clusters(nVol, au));
    assert FatSectors(p.fmt, Clusters(nVol, au)) <= p.nFat;
  }

  lemma FatBytesMono(t: FatType, m: nat, n: u32)
    requires m <= n && t == TypeFor(n) && (t == Fat32 ==> n * 4 + 8 + SS - 1 < U32)
    ensures FatBytes(t, m + 2) <= FatSectors(t, n) * SS
  {
  }

  // ---------- The cluster size ----------

  const VST: seq<nat> := [1024, 512, 256, 128, 64, 32, 16, 8, 4, 2, 0]
  const CST: seq<nat> := [32768, 16384, 8192, 4096, 2048, 16384, 8192, 4096, 2048, 1024, 512]

  /** Cluster size in bytes for a volume of `vs` times 2000 sectors, from row `i` of the tables on. */
  function AutoUnit(vs: nat, i: nat): nat
    requires i < 11
    decreases 11 - i
  {
    if i < 10 && vs < VST[i] then AutoUnit(vs, i + 1) else CST[i]
  }

  method PickUnit(vs: nat) returns (au: nat)
    ensures au == AutoUnit(vs, 0)
  {
    var i := 0;
    while vs < VST[i]
      invariant 0 <= i < 11 && AutoUnit(vs, i) == AutoUnit(vs, 0)
      decreases 11 - i
    {
      i := i + 1;
    }
    au := CST[i];
  }

  lemma {:induction false} AutoUnitPower(vs: nat, i: nat)
    requires i < 11
    ensures PowerOfTwo(AutoUnit(vs, i))
    decreases 11 - i
  {
    if i < 10 && vs < VST[i] {
      AutoUnitPower(vs, i + 1);
    } else {
      assert PowerOfTwo(512);
      assert PowerOfTwo(4096);
      assert PowerOfTwo(32768);
    }
  }

  /**
    Sectors per cluster, from the size in bytes or sectors asked for; anything but a power of two
    leaves the choice open.
  */
  function ClusterUnit(nVol: u32, au: u32): nat {
    var a := if PowerOfTwo(au) then au else AutoUnit(nVol / 2000, 0);
    var a := if a >= SS then a / SS else a;
    if a > 128 then 128 else a
  }

  lemma ClusterUnitPower(nVol: u32, au: u32)
    ensures ClusterSize(ClusterUnit(nVol, au))
  {
    AutoUnitPower(nVol / 2000, 0);
    var a := if PowerOfTwo(au) then au else AutoUnit(nVol / 2000, 0);
    if a >= SS {
      HalvedPower(a, SS);
      SmallPower(a / SS);
    } else {
      SmallPower(a);
    }
  }

  lemma {:induction false} SmallPower(n: nat)
    requires PowerOfTwo(n)
    ensures n < 256 ==> ClusterSize(n)
    ensures n >= 1
  {
    if n != 1 {
      SmallPower(n / 2);
    }
  }

  lemma {:induction false} HalvedPower(a: nat, b: nat)
    requires PowerOfTwo(a) && PowerOfTwo(b) && a >= b
    ensures PowerOfTwo(a / b)
    decreases b
  {
    if b != 1 {
      HalvedPower(a / 2, b / 2);
      assert a / 2 / (b / 2) == a / b by {
        var q, r := a / 2 / (b / 2), a / 2 % (b / 2);
        assert a / 2 == q * (b / 2) + r;
        assert a == q * b + 2 * r by {
          assert q * b == 2 * (q * (b / 2));
        }
        DivisionUnique(a, b, q, 2 * r);
      }
    }
  }
}
