/**
  Transfers of whole sectors of the data area, past the window.
*/
module DataAccess {
  import opened Bytes
  import opened Volume
  import opened FatCodec

  /** No sector of the transfer is in the window. */
  ghost predicate ClearOf(w: nat, sector: nat, count: nat) {
    !(sector <= w < sector + count)
  }

  method ReadData(fs: Fatfs, sector: u32, count: nat) returns (ok: bool, data: seq<byte>)
    requires fs.Valid() && ClearOf(fs.winsect, sector, count)
    modifies fs`faults
    ensures fs.Valid() && fs.Steady() && fs.View() == old(fs.View()) && Fat(fs) == old(Fat(fs))
    ensures |data| == count * SS
    ensures if ok then LiesAt(fs.View(), sector, data) && fs.faults == old(fs.faults) else fs.faults > old(fs.faults)
  {
    ok, data := fs.DiskRead(sector, count);
  }

  method WriteData(fs: Fatfs, data: seq<byte>, sector: u32) returns (ok: bool)
    requires fs.Valid() && |data| % SS == 0
    requires fs.g.database <= sector && ClearOf(fs.winsect, sector, |data| / SS)
    modifies fs`disk, fs`faults
    ensures fs.Valid() && fs.Steady() && Fat(fs) == old(Fat(fs))
    ensures |fs.View()| == |old(fs.View())|
    ensures forall s :: 0 <= s < |fs.View()| && !(sector <= s < sector + |data| / SS) ==>
      fs.View()[s] == old(fs.View())[s]
    ensures if ok then LiesAt(fs.View(), sector, data) && fs.faults == old(fs.faults) else fs.faults > old(fs.faults)
  {
    ok := fs.DiskWrite(data, sector);
    assert forall s :: 0 <= s < |fs.disk| && !(sector <= s < sector + |data| / SS) ==> fs.disk[s] == old(fs.disk[s]);
    SameFirstCopy(fs.g, fs.View(), old(fs.View()));
    MirrorsUntouched(fs.g, old(fs.disk), fs.disk);
  }

  lemma MirrorsUntouched(g: Geometry, a: seq<Sector>, b: seq<Sector>)
    requires |a| == |b| == g.nsect && forall s :: 0 <= s < |a| && s < g.database ==> b[s] == a[s]
    ensures MirrorsEqual(g, a) ==> MirrorsEqual(g, b)
  {
    if MirrorsEqual(g, a) && g.nFats == 2 {
      forall s | InFat(g, s) && s + g.fsize < |b|
        ensures b[s + g.fsize] == b[s]
      {
        assert a[s + g.fsize] == a[s];
      }
    }
  }
}
