/**
  Writing everything back: the window, and on FAT32 the free count and the allocation hint.
*/
module Sync {
  import opened Bytes
  import opened Volume
  import opened FatCodec
  import opened Mount

  /** The sector behind the boot sector is not in the FAT, so that FSINFO may be stored there. */
  predicate InfoApart(g: Geometry) {
    g.fsType == Fat32 ==> g.volbase + 1 < g.fatbase
  }

  /** Nothing has changed outside the second FAT copy, but for FSINFO. */
  ghost predicate OnlyInfo(g: Geometry, a: seq<Sector>, b: seq<Sector>) {
    && |a| == |b|
    && forall x :: 0 <= x < |a| && !InMirror(g, x) && !(g.fsType == Fat32 && x == g.volbase + 1) ==> b[x] == a[x]
  }

  /** FSINFO says what a mounted volume knows about free clusters. */
  ghost predicate InfoStored(fs: Fatfs)
    reads fs
  {
    && |fs.disk| == fs.g.nsect && fs.g.volbase + 1 < |fs.disk|
    && var s := fs.disk[fs.g.volbase + 1];
    HasInfo(s) && Ld32(s, FSI_Free_Count) == fs.freeClust && Ld32(s, FSI_Nxt_Free) == fs.lastClust
  }

  /** Write the window and, when it is out of date, FSINFO; a failure of the latter goes unnoticed. */
  method SyncFs(fs: Fatfs) returns (res: FResult)
    requires fs.Valid() && InfoApart(fs.g)
    modifies fs`disk, fs`wflag, fs`faults, fs`winsect, fs`fsiFlag, fs.win
    ensures fs.faults >= old(fs.faults) && fs.win.Length == SS
    ensures fs.faults == old(fs.faults) ==>
      && res == Ok && fs.Valid() && fs.Steady() && !fs.wflag && fs.View() == fs.disk
      && Fat(fs) == old(Fat(fs)) && OnlyInfo(fs.g, old(fs.View()), fs.View())
      && (fs.g.fsType == Fat32 && old(fs.fsiFlag) == 1 ==> InfoStored(fs) && fs.fsiFlag == 0)
    ensures res == Ok || (res == DiskErr && fs.faults > old(fs.faults))
  {
    hide FatOf, InfoSector, HasInfo, Ld32;
    ghost var v := fs.View();
    res := fs.SyncWindow();
    if res != Ok { return; }
    SameFirstCopy(fs.g, v, fs.View());
    if fs.g.fsType == Fat32 && fs.fsiFlag == 1 {
      InfoBelow(fs.g);
      WriteInfo(fs);
    }
  }

  lemma InfoBelow(g: Geometry)
    requires InfoApart(g) && g.fsType == Fat32
    ensures g.volbase + 1 < g.nsect && !InFat(g, g.volbase + 1) && !InMirror(g, g.volbase + 1)
    ensures g.nsect <= 0xFFFF_FFFF
  {
    hide Span;
  }

  /** Make FSINFO in the window and write it. */
  method WriteInfo(fs: Fatfs)
    requires fs.Valid() && !fs.wflag && InfoApart(fs.g) && fs.g.fsType == Fat32
    modifies fs`disk, fs`faults, fs`winsect, fs`fsiFlag, fs.win
    ensures fs.faults >= old(fs.faults)
    ensures fs.faults == old(fs.faults) ==>
      && fs.Valid() && fs.Steady() && Fat(fs) == old(Fat(fs)) && OnlyInfo(fs.g, old(fs.View()), fs.View())
      && InfoStored(fs) && fs.fsiFlag == 0
  {
    hide FatOf, InfoSector, HasInfo, Ld32;
    InfoBelow(fs.g);
    InfoFields(fs.freeClust, fs.lastClust);
    ghost var d := fs.disk;
    var s := InfoSector(fs.freeClust, fs.lastClust);
    fs.FillWindow(s);
    fs.winsect := fs.g.volbase + 1;
    var ok := fs.DiskWrite(fs.win[..], fs.winsect);
    fs.fsiFlag := 0;
    if ok {
      var w := fs.disk[fs.winsect];
      assert forall j :: 0 <= j < SS ==> w[j] == s[j];
      SameFirstCopy(fs.g, d, fs.disk);
      InfoKeepsMirrors(fs.g, d, fs.disk);
    }
  }

  lemma InfoKeepsMirrors(g: Geometry, a: seq<Sector>, b: seq<Sector>)
    requires |a| == |b| == g.nsect && InfoApart(g) && g.fsType == Fat32
    requires forall s :: 0 <= s < |a| && s != g.volbase + 1 ==> b[s] == a[s]
    ensures MirrorsEqual(g, a) ==> MirrorsEqual(g, b)
  {
  }
}
