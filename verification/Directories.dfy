/**
  The directory object: a position in a directory table, set to an index or moved to the next
  entry, which may stretch the table.
*/
module Directories {
  import opened Bytes
  import opened Numbers
  import opened Volume
  import opened FatCodec
  import opened Chains
  import opened Allocator
  import opened FileLayout
  import opened Lfn
  import opened DirTable


  /** The start cluster that belongs to the table; 0 stands for the root directory. */
  ghost predicate StartsAt(g: Geometry, chain: seq<nat>, sclust: nat) {
    if chain == [] then sclust == 0
    else if sclust == 0 then g.fsType == Fat32 && chain[0] == g.dirbase
    else chain[0] == sclust
  }

  /** Nothing outside the FAT and the table has changed. */
  ghost predicate OnlyTable(g: Geometry, a: seq<Sector>, b: seq<Sector>, chain: seq<nat>)
    requires IsTable(g, chain)
  {
    && |a| == |b|
    && forall s :: 0 <= s < |a| && !InFat(g, s) && !InMirror(g, s) && !InTable(g, chain, s) ==> b[s] == a[s]
  }

  class Dir {
    const fs: Fatfs
    const sclust: u32          // first cluster of the table, 0: root directory
    var index: u16
    var clust: u32             // current cluster, 0 in a fixed table
    var sect: u32
    var dir: nat               // offset of the entry in the window
    var fn: seq<byte>          // short name and name status
    var lfn: LfnBuf            // long name
    var withLfn: bool          // whether the long name takes part in searching
    var lfnIdx: u16            // index of the first entry of a long name, 0xFFFF: none
    ghost var chain: seq<nat>  // clusters of the table, none for a fixed one

    ghost predicate Valid()
      reads this, fs, fs.win
    {
      && fs.Valid() && IsTable(fs.g, chain) && IsChain(Fat(fs), chain) && StartsAt(fs.g, chain, sclust)
      && !HasReserved(Fat(fs)) && |fn| == 12
    }

    /** The position is that of entry `i`. */
    ghost predicate At(i: nat)
      requires IsTable(fs.g, chain)
      reads this
    {
      i < Reach(fs.g, chain) && index == i && Place(clust, sect, dir) == PlaceOf(fs.g, chain, i)
    }

    ghost function Table(): (t: seq<DirEntry>)
      requires Valid()
      reads this, fs, fs.win
    {
      Entries(fs.g, fs.View(), chain)
    }

    constructor (fs: Fatfs, sclust: u32, fn: seq<byte>, lfn: LfnBuf, ghost chain: seq<nat>)
      requires fs.Valid() && IsTable(fs.g, chain) && IsChain(Fat(fs), chain) && StartsAt(fs.g, chain, sclust)
      requires !HasReserved(Fat(fs)) && |fn| == 12
      ensures Valid() && this.fs == fs && this.sclust == sclust && this.chain == chain && this.fn == fn
      ensures this.lfn == lfn && withLfn
    {
      this.fs, this.sclust, this.chain := fs, sclust, chain;
      this.fn, this.lfn, this.withLfn, this.lfnIdx := fn, lfn, true, 0xFFFF;
      this.index, this.clust, this.sect, this.dir := 0, 0, 0, 0;
    }

    // ---------- dir_sdi ----------

    /** Set the position to entry `idx`. */
    method Sdi(idx: u32) returns (res: FResult)
      requires Valid()
      modifies fs`disk, fs`wflag, fs`faults, fs`winsect, fs.win, this`index, this`clust, this`sect, this`dir
      ensures Valid() && fs.Steady() && Fat(fs) == old(Fat(fs)) && Agree(fs.g, fs.View(), old(fs.View()))
      ensures index == idx % 0x1_0000
      ensures res == Ok ==> idx < Capacity(fs.g, chain) && Place(clust, sect, dir) == PlaceOf(fs.g, chain, idx)
      ensures res != Ok ==>
        (res == IntErr && idx >= Capacity(fs.g, chain)) || (res == DiskErr && fs.faults > old(fs.faults))
    {
      hide FatOf, IsTable, OnVolume, HasReserved, FileSector, IsChain, StartsAt, PlaceOf, Capacity, Clust2Sect;
      index := idx % 0x1_0000;
      StartFacts(fs.g, Fat(fs), chain, sclust);
      var clst := sclust;
      if clst == 1 || clst >= fs.g.nFatent { return IntErr; }
      if clst == 0 && fs.g.fsType == Fat32 {
        clst := fs.g.dirbase;
      }
      var sct;
      var i := idx;
      if clst == 0 {
        FixedCapacity(fs.g, chain);
        if idx >= fs.g.nRootdir { return IntErr; }
        sct := fs.g.dirbase;
        FixedPlace(fs.g, chain, idx);
      } else {
        res, clst, i := Walk(clst, idx);
        if res != Ok { return; }
        ClusterSectors(fs.g, clst);
        sct := Clust2Sect(fs.g, clst);
      }
      clust := clst;
      if sct == 0 { assert false; }
      sect := sct + i / PER_SECTOR;
      dir := i % PER_SECTOR * 32;
      res := Ok;
    }

    /** Follow the chain to the cluster of entry `idx`, which is entry `i` there. */
    method Walk(start: u32, idx: u32) returns (res: FResult, clst: u32, i: u32)
      requires Valid() && chain != [] && start == chain[0]
      modifies fs`disk, fs`wflag, fs`faults, fs`winsect, fs.win
      ensures Valid() && fs.Steady() && Fat(fs) == old(Fat(fs)) && Agree(fs.g, fs.View(), old(fs.View()))
      ensures res == Ok ==>
        && idx < Capacity(fs.g, chain) && IsCluster(fs.g, clst) && i / PER_SECTOR < fs.g.csize
        && PlaceOf(fs.g, chain, idx) == Place(clst, Clust2Sect(fs.g, clst) + i / PER_SECTOR, i % PER_SECTOR * 32)
        && Clust2Sect(fs.g, clst) > 0
      ensures res != Ok ==>
        (res == IntErr && idx >= Capacity(fs.g, chain)) || (res == DiskErr && fs.faults > old(fs.faults))
    {
      hide FatOf, IsTable, OnVolume, HasReserved, FileSector, PlaceOf;
      ghost var fat, j: nat := Fat(fs), 0;
      var ic := SS / 32 * fs.g.csize;
      res, clst, i := Ok, start, idx;
      while i >= ic
        invariant Valid() && fs.Steady() && Fat(fs) == fat && Agree(fs.g, fs.View(), old(fs.View())) && res == Ok
        invariant j < |chain| && clst == chain[j] && idx == Span(j, fs.g.csize) * PER_SECTOR + i
        decreases i
      {
        ChainStep(fs.g, fat, chain, j);
        clst := GetFat(fs, clst);
        if clst == 0xFFFF_FFFF { res := DiskErr; return; }
        if clst < 2 || clst >= fs.g.nFatent {
          assert j + 1 == |chain|;
          res := IntErr;
          return;
        }
        i := i - ic;
        j := j + 1;
      }
      WalkedTo(fs.g, chain, idx, j, i);
    }

    // ---------- dir_next ----------

    /** Another cluster for the table, filled with zeros. */
    method Stretch() returns (res: FResult, clst: u32)
      requires Valid() && chain != [] && clust == chain[|chain| - 1]
      modifies fs, fs.win
      ensures fs.Valid() && fs.Steady()
      ensures res != Ok ==> (res == DiskErr && fs.faults > old(fs.faults)) || (res == Denied && FreeCount(Fat(fs)) == 0)
      ensures res == Denied ==> Fat(fs) == old(Fat(fs)) && AgreeOutsideFat(fs.g, fs.View(), old(fs.View()))
      ensures res == Ok ==>
        && Stretched(fs.g, old(Fat(fs)), Fat(fs), chain, clst)
        && ClearedOnly(fs.g, old(fs.View()), fs.View(), clst)
      ensures CountKept(old(fs.freeClust), old(Fat(fs)), fs.freeClust, Fat(fs)) || res == DiskErr
    {
      hide FatOf, IsTable, OnVolume, FreeBelow, HasReserved, CountKept, IsCluster;
      ghost var fat, v0, hint := Fat(fs), fs.View(), fs.lastClust;
      LastLink(fs.g, fat, chain);
      clst := CreateChain(fs, clust);
      if clst == 0 { return Denied, clst; }
      if clst == 1 { assert false; }
      if clst == 0xFFFF_FFFF { return DiskErr, clst; }
      StretchedBy(fs.g, fat, Fat(fs), chain, hint, clst);
      ghost var v1, fat1 := fs.View(), Fat(fs);
      res := ClearCluster(fs, clst);
      if res == Ok {
        ClearedData(fs.g, v0, v1, fs.View(), clst);
        ClearedKeepsFat(fs.g, v1, fs.View(), clst);
      }
    }

    /** At the end of a cluster: go to the next one of the chain, or stretch it. */
    method NextCluster(stretch: bool) returns (res: FResult)
      requires Valid() && At(index) && chain != []
      requires (index + 1) % PER_SECTOR == 0 && OffsetIn((index + 1) / PER_SECTOR, fs.g.csize) == 0
      modifies fs, fs.win, this`clust, this`sect, this`chain
      ensures fs.Valid() && fs.Steady()
      ensures if index + 1 < Capacity(fs.g, old(chain))
              then res == Ok || (res == DiskErr && fs.faults > old(fs.faults))
              else (res == NoFile && !stretch) || (res == DiskErr && fs.faults > old(fs.faults))
                   || (stretch && (res == Ok || (res == Denied && FreeCount(Fat(fs)) == 0)))
      ensures res == Ok ==>
        && Valid() && index + 1 < Capacity(fs.g, chain)
        && Place(clust, sect, 0) == PlaceOf(fs.g, chain, index + 1)
        && AfterNext(fs.g, old(Fat(fs)), old(fs.View()), old(chain), Fat(fs), fs.View(), chain, old(index))
      ensures res == NoFile || res == Denied ==>
        chain == old(chain) && Fat(fs) == old(Fat(fs)) && AgreeOutsideFat(fs.g, fs.View(), old(fs.View()))
      ensures CountKept(old(fs.freeClust), old(Fat(fs)), fs.freeClust, Fat(fs)) || res == DiskErr
    {
      hide FatOf, IsTable, OnVolume, FreeBelow, HasReserved, CountKept, IsCluster, PlaceOf, Appended, Stretched,
        ClearedOnly;
      ghost var fat, v0, j := Fat(fs), fs.View(), ClusterOf(index / PER_SECTOR, fs.g.csize);
      NextInChain(fs.g, fat, chain, index);
      CountKeptSelf(fs.freeClust, fat);
      var clst := GetFat(fs, clust);
      if clst <= 1 { assert false; }
      if clst == 0xFFFF_FFFF { return DiskErr; }
      if clst >= fs.g.nFatent {
        if !stretch { return NoFile; }
        ghost var v1 := fs.View();
        res, clst := Stretch();
        if res != Ok { return; }
        StretchedTable(fs.g, fat, Fat(fs), v0, v1, fs.View(), chain, clst, index);
        chain := chain + [clst];
      }
      res := Ok;
      clust := clst;
      sect := Clust2Sect(fs.g, clst);
    }

    /** At the end of a sector: go to the next one. */
    method NextSector(stretch: bool) returns (res: FResult)
      requires Valid() && At(index) && (index + 1) % PER_SECTOR == 0 && index + 1 < MAX_ENTRIES
      modifies fs, fs.win, this`clust, this`sect, this`chain
      ensures fs.Valid() && fs.Steady()
      ensures if index + 1 < Reach(fs.g, old(chain))
              then res == Ok || (res == DiskErr && fs.faults > old(fs.faults))
              else (res == NoFile && (!stretch || old(chain) == []))
                   || (res == DiskErr && fs.faults > old(fs.faults))
                   || (stretch && old(chain) != [] && (res == Ok || (res == Denied && FreeCount(Fat(fs)) == 0)))
      ensures res == Ok ==>
        && Valid() && index + 1 < Capacity(fs.g, chain)
        && Place(clust, sect, 0) == PlaceOf(fs.g, chain, index + 1)
        && AfterNext(fs.g, old(Fat(fs)), old(fs.View()), old(chain), Fat(fs), fs.View(), chain, old(index))
      ensures res == NoFile || res == Denied ==>
        Valid() && chain == old(chain) && Fat(fs) == old(Fat(fs)) && AgreeOutsideFat(fs.g, fs.View(), old(fs.View()))
      ensures CountKept(old(fs.freeClust), old(Fat(fs)), fs.freeClust, Fat(fs)) || res == DiskErr
    {
      hide FatOf, IsTable, OnVolume, FreeBelow, HasReserved, CountKept, IsCluster, PlaceOf, Appended, Stretched,
        ClearedOnly, Clust2Sect, IsChain, StartsAt, Room;
      CountKeptSelf(fs.freeClust, Fat(fs));
      PositionFacts(fs.g, chain, index);
      res := Ok;
      var i: nat := index + 1;
      if clust == 0 {
        SectorFollows(fs.g, chain, index);
        sect := sect + 1;
        if i >= fs.g.nRootdir { return NoFile; }
      } else {
        ClusterMasks(i / PER_SECTOR, fs.g.csize);
        if BitAnd(i / PER_SECTOR, fs.g.csize - 1) == 0 {
          res := NextCluster(stretch);
        } else {
          SectorFollows(fs.g, chain, index);
          NextExists(fs.g, chain, index);
          sect := sect + 1;
        }
      }
    }

    /** Move to the next entry; at the end of the table stretch it, if asked to. */
    method Next(stretch: bool) returns (res: FResult)
      requires Valid() && At(index)
      modifies fs, fs.win, this`index, this`clust, this`sect, this`dir, this`chain
      ensures fs.Valid() && fs.Steady()
      ensures index == old(index) + (if res == Ok then 1 else 0)
      ensures if old(index) + 1 < Reach(fs.g, old(chain))
              then res == Ok || (res == DiskErr && fs.faults > old(fs.faults))
              else (res == NoFile && (!stretch || old(chain) == [] || old(index) + 1 == MAX_ENTRIES))
                   || (res == DiskErr && fs.faults > old(fs.faults))
                   || (stretch && old(chain) != [] && (res == Ok || (res == Denied && FreeCount(Fat(fs)) == 0)))
      ensures res == Ok ==>
        && Valid() && At(index)
        && AfterNext(fs.g, old(Fat(fs)), old(fs.View()), old(chain), Fat(fs), fs.View(), chain, old(index))
      ensures res == NoFile || res == Denied ==>
        Valid() && chain == old(chain) && Fat(fs) == old(Fat(fs)) && AgreeOutsideFat(fs.g, fs.View(), old(fs.View()))
      ensures CountKept(old(fs.freeClust), old(Fat(fs)), fs.freeClust, Fat(fs)) || res == DiskErr
    {
      hide FatOf, IsTable, OnVolume, FreeBelow, HasReserved, CountKept, IsCluster, PlaceOf, Appended, Stretched,
        ClearedOnly, Clust2Sect, IsChain, StartsAt, Room, ClusterOf, OffsetIn;
      CountKeptSelf(fs.freeClust, Fat(fs));
      PositionFacts(fs.g, chain, index);
      var i: nat := index + 1;
      if i % 0x1_0000 == 0 || sect == 0 { return NoFile; }
      res := Ok;
      if i % PER_SECTOR == 0 {
        res := NextSector(stretch);
        if res != Ok { return; }
      } else {
        EntryFollows(fs.g, chain, index);
      }
      index := i;
      dir := i % PER_SECTOR * 32;
    }
  }

  lemma StartFacts(g: Geometry, fat: seq<nat>, chain: seq<nat>, sclust: nat)
    requires |fat| == g.nFatent && IsTable(g, chain) && IsChain(fat, chain) && StartsAt(g, chain, sclust)
    ensures sclust != 1 && sclust < g.nFatent
    ensures chain == [] <==> sclust == 0 && g.fsType != Fat32
    ensures chain != [] ==> chain[0] == (if sclust == 0 then g.dirbase else sclust) && 2 <= chain[0] < g.nFatent
  {
    if chain != [] {
      assert InRange(fat, chain[0]);
    }
  }

  lemma FixedCapacity(g: Geometry, chain: seq<nat>)
    ensures chain == [] ==> Capacity(g, chain) <= g.nRootdir
  {
  }

  lemma FixedPlace(g: Geometry, chain: seq<nat>, i: nat)
    requires IsTable(g, chain) && chain == [] && i < g.nRootdir
    ensures i < Capacity(g, chain) && PlaceOf(g, chain, i) == Place(0, g.dirbase + i / PER_SECTOR, i % PER_SECTOR * 32)
    ensures 0 < g.dirbase && g.dirbase + i / PER_SECTOR < g.nsect
  {
    hide Span;
  }

  lemma ChainStep(g: Geometry, fat: seq<nat>, chain: seq<nat>, j: nat)
    requires |fat| == g.nFatent && IsChain(fat, chain) && j < |chain|
    ensures InRange(fat, chain[j])
    ensures if j + 1 < |chain| then fat[chain[j]] == chain[j + 1] && InRange(fat, chain[j + 1])
            else fat[chain[j]] >= g.nFatent
    ensures Span(j + 1, g.csize) == Span(j, g.csize) + g.csize
  {
  }

  lemma WalkedTo(g: Geometry, chain: seq<nat>, idx: nat, j: nat, i: nat)
    requires IsTable(g, chain) && j < |chain| && chain[j] < U32
    requires idx == Span(j, g.csize) * PER_SECTOR + i && i < PER_SECTOR * g.csize
    ensures idx < Capacity(g, chain) && IsCluster(g, chain[j]) && i / PER_SECTOR < g.csize
    ensures Clust2Sect(g, chain[j]) > 0 && Clust2Sect(g, chain[j]) + g.csize <= g.nsect
    ensures PlaceOf(g, chain, idx) == Place(chain[j], Clust2Sect(g, chain[j]) + i / PER_SECTOR, i % PER_SECTOR * 32)
  {
    var k := idx / PER_SECTOR;
    assert k == Span(j, g.csize) + i / PER_SECTOR && idx % PER_SECTOR == i % PER_SECTOR;
    LocatedAt(j, i / PER_SECTOR, g.csize);
    ClusterBelow(k, |chain|, g.csize);
    ClusterSectors(g, chain[j]);
  }

  // ---------- Stretching ----------

  /** Overwrite the sectors of a cluster with zeros, through the window. */
  method ClearCluster(fs: Fatfs, clst: u32) returns (res: FResult)
    requires fs.Valid() && IsCluster(fs.g, clst)
    modifies fs`disk, fs`wflag, fs`faults, fs`winsect, fs.win
    ensures fs.Valid() && fs.Steady()
    ensures res != Ok ==> res == DiskErr && fs.faults > old(fs.faults)
    ensures res == Ok ==> Cleared(fs.g, old(fs.View()), fs.View(), clst) && fs.winsect == Clust2Sect(fs.g, clst)
  {
    hide Clust2Sect, FatBytes, Span;
    ClusterSectors(fs.g, clst);
    ghost var v := fs.View();
    res := fs.SyncWindow();
    if res != Ok { return DiskErr; }
    ghost var d := fs.disk;
    forall j | 0 <= j < SS {
      fs.win[j] := 0;
    }
    var base := Clust2Sect(fs.g, clst);
    fs.winsect := base;
    var c := 0;
    while c < fs.g.csize
      invariant 0 <= c <= fs.g.csize && fs.winsect == base + c && !fs.wflag && |fs.disk| == |d|
      invariant fs.win[..] == ZeroSector()
      invariant fs.Steady() && res == Ok
      invariant forall s :: 0 <= s < |d| && !InMirror(fs.g, s) ==>
        fs.disk[s] == if base <= s < base + c then ZeroSector() else d[s]
    {
      fs.wflag := true;
      ghost var w := fs.View();
      res := fs.SyncWindow();
      if res != Ok { return DiskErr; }
      fs.winsect := fs.winsect + 1;
      c := c + 1;
    }
    fs.winsect := fs.winsect - c;
  }

  /** The sectors of a cluster have become zeros, and no other ones have changed. */
  ghost predicate Cleared(g: Geometry, a: seq<Sector>, b: seq<Sector>, clst: u32) {
    && |a| == |b|
    && forall s :: 0 <= s < |a| && !InMirror(g, s) ==>
      b[s] == if Clust2Sect(g, clst) <= s < Clust2Sect(g, clst) + g.csize then ZeroSector() else a[s]
  }

  /** The chain has one more cluster, which was free. */
  ghost predicate Stretched(g: Geometry, a: seq<nat>, b: seq<nat>, chain: seq<nat>, r: nat) {
    && |a| == |b| == g.nFatent && IsChain(a, chain) && InRange(a, r) && a[r] == 0
    && b == Appended(a, chain, r, EndMark(g))
  }

  /** Outside the FAT, only a cluster has changed: it is zero now. */
  ghost predicate ClearedOnly(g: Geometry, a: seq<Sector>, b: seq<Sector>, clst: nat) {
    && |a| == |b| && IsCluster(g, clst)
    && forall s :: 0 <= s < |a| && !InFat(g, s) && !InMirror(g, s) ==>
      b[s] == if Clust2Sect(g, clst) <= s < Clust2Sect(g, clst) + g.csize then ZeroSector() else a[s]
  }

  lemma LastLink(g: Geometry, fat: seq<nat>, chain: seq<nat>)
    requires |fat| == g.nFatent && IsChain(fat, chain) && chain != [] && !HasReserved(fat)
    ensures var c := chain[|chain| - 1]; c != 0 && !BadLink(fat, c) && Stretches(fat, c)
  {
    assert InRange(fat, chain[|chain| - 1]);
  }

  lemma StretchedBy(g: Geometry, a: seq<nat>, b: seq<nat>, chain: seq<nat>, hint: nat, r: nat)
    requires |a| == |b| == g.nFatent && IsChain(a, chain) && chain != [] && chain[|chain| - 1] < g.nFatent
    requires Obtained(g, a, b, chain[|chain| - 1], hint, r)
    ensures Stretched(g, a, b, chain, r) && IsCluster(g, r)
  {
    EndMarkEnds(g);
    assert InRange(a, chain[|chain| - 1]);
  }

  lemma ClearedData(g: Geometry, v0: seq<Sector>, v1: seq<Sector>, v2: seq<Sector>, clst: u32)
    requires AgreeOutsideFat(g, v1, v0) && Cleared(g, v1, v2, clst) && IsCluster(g, clst)
    ensures ClearedOnly(g, v0, v2, clst)
  {
  }

  lemma ClearedKeepsFat(g: Geometry, a: seq<Sector>, b: seq<Sector>, clst: u32)
    requires |a| == g.nsect && Cleared(g, a, b, clst) && IsCluster(g, clst)
    ensures FatOf(g, b) == FatOf(g, a)
  {
    ClusterSectors(g, clst);
    SameFirstCopy(g, a, b);
  }

  /** What moving on from entry `i` has done to the volume: nothing, or the table has one more cluster. */
  ghost predicate AfterNext(g: Geometry, fat0: seq<nat>, v0: seq<Sector>, chain0: seq<nat>,
                            fat1: seq<nat>, v1: seq<Sector>, chain1: seq<nat>, i: nat) {
    if i + 1 < Capacity(g, chain0) then
      chain1 == chain0 && fat1 == fat0 && AgreeOutsideFat(g, v1, v0)
    else
      && |chain1| > 0 && chain1 == chain0 + [chain1[|chain1| - 1]]
      && Stretched(g, fat0, fat1, chain0, chain1[|chain1| - 1])
      && ClearedOnly(g, v0, v1, chain1[|chain1| - 1])
  }

  /** The entry of the FAT that leads from the cluster of entry `i` to that of the next entry. */
  lemma NextInChain(g: Geometry, fat: seq<nat>, chain: seq<nat>, i: nat)
    requires |fat| == g.nFatent && IsTable(g, chain) && IsChain(fat, chain) && chain != [] && i < Capacity(g, chain)
    requires (i + 1) % PER_SECTOR == 0 && OffsetIn((i + 1) / PER_SECTOR, g.csize) == 0
    ensures var j := ClusterOf(i / PER_SECTOR, g.csize);
      && j < |chain| && PlaceOf(g, chain, i).clust == chain[j] && InRange(fat, chain[j])
      && if i + 1 < Capacity(g, chain)
         then j + 1 < |chain| && fat[chain[j]] == chain[j + 1] && InRange(fat, chain[j + 1])
              && PlaceOf(g, chain, i + 1) == Place(chain[j + 1], Clust2Sect(g, chain[j + 1]), 0)
         else j == |chain| - 1 && fat[chain[j]] >= g.nFatent
  {
    ClusterFollows(g, chain, i);
    ClusterBelow(i / PER_SECTOR, |chain|, g.csize);
  }

  /** The stretched table begins with the old one, and its next entry is the first of the new cluster. */
  lemma StretchedTable(g: Geometry, fat: seq<nat>, fat1: seq<nat>, v0: seq<Sector>, v1: seq<Sector>, v2: seq<Sector>,
                   chain: seq<nat>, r: u32, i: nat)
    requires IsTable(g, chain) && chain != [] && !HasReserved(fat)
    requires Stretched(g, fat, fat1, chain, r) && AgreeOutsideFat(g, v1, v0) && ClearedOnly(g, v1, v2, r)
    requires i < Capacity(g, chain) <= i + 1
    ensures var t := chain + [r];
      && IsTable(g, t) && IsChain(fat1, t) && !HasReserved(fat1) && ClearedOnly(g, v0, v2, r)
      && i + 1 < Capacity(g, t) && PlaceOf(g, t, i + 1) == Place(r, Clust2Sect(g, r), 0)
  {
    var t := chain + [r];
    EndMarkEnds(g);
    AppendedChain(fat, chain, r, EndMark(g));
    assert forall k :: 0 <= k < |t| ==> InRange(fat1, t[k]);
    LastCluster(g, chain, i);
    SpanMono(|chain|, |t|, g.csize);
    assert PlaceOf(g, t, i).clust == chain[|chain| - 1];
    ClusterFollows(g, t, i);
    StretchedReserved(g, fat, fat1, chain, r);
  }

  lemma StretchedReserved(g: Geometry, a: seq<nat>, b: seq<nat>, chain: seq<nat>, r: nat)
    requires Stretched(g, a, b, chain, r)
    ensures HasReserved(b) ==> HasReserved(a)
  {
    EndMarkEnds(g);
    if HasReserved(b) {
      var c :| InRange(b, c) && b[c] == 1;
      assert a[c] == 1;
    }
  }

  lemma PositionFacts(g: Geometry, chain: seq<nat>, i: nat)
    requires IsTable(g, chain) && i < Capacity(g, chain)
    ensures var p := PlaceOf(g, chain, i);
      && 0 < p.sect < g.nsect && (p.clust == 0 <==> chain == []) && (chain == [] ==> i < g.nRootdir)
      && p.dir == i % PER_SECTOR * 32
    ensures chain == [] ==> Capacity(g, chain) == g.nRootdir
  {
    ClusterBelow(i / PER_SECTOR, |chain|, g.csize);
  }

  lemma NextExists(g: Geometry, chain: seq<nat>, i: nat)
    requires IsTable(g, chain) && i < Capacity(g, chain) && chain != []
    requires OffsetIn((i + 1) / PER_SECTOR, g.csize) != 0
    ensures i + 1 < Capacity(g, chain)
  {
    if i + 1 >= Capacity(g, chain) {
      LastCluster(g, chain, i);
    }
  }
}
