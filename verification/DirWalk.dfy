/**
  Two ways to an entry: setting the index at once, and moving on from the first entry.
*/
module DirWalk {
  import opened Bytes
  import opened Volume
  import opened FatCodec
  import opened Chains
  import opened Allocator
  import opened FileLayout
  import opened Layout
  import opened DirTable
  import opened Directories
  import opened DirSearch

  function PlaceNow(dp: Dir): Place
    reads dp
  {
    Place(dp.clust, dp.sect, dp.dir)
  }

  /** The place after `i` steps from the first entry, if the table goes that far. */
  method Steps(dp: Dir, i: nat) returns (res: FResult)
    requires dp.Valid()
    modifies dp.fs, dp.fs.win, dp`index, dp`clust, dp`sect, dp`dir, dp`chain
    ensures dp.fs.Valid() && dp.fs.Steady()
    ensures res == Ok || res == NoFile ==> dp.Valid() && Kept(dp)
    ensures res == Ok ==> dp.index == i && dp.At(i)
    ensures res == NoFile ==> i >= Reach(dp.fs.g, dp.chain)
    ensures res == Ok || res == NoFile || (res == DiskErr && dp.fs.faults > old(dp.fs.faults))
  {
    hide FatOf, IsTable, OnVolume, HasReserved, IsChain, StartsAt, FreeBelow, Entries, PlaceOf, SameSnap, Reach;
    ghost var s0 := SnapOf(dp);
    res := Rewind(dp);
    if res != Ok { return; }
    while dp.index < i
      invariant res == Ok && dp.Valid() && dp.fs.Steady() && Kept(dp) && dp.index <= i && dp.At(dp.index)
      decreases i - dp.index
    {
      ghost var a := SnapOf(dp);
      res := Advance(dp);
      if res == Ok || res == NoFile {
        SameSnapAgain(dp.fs.g, s0, a, SnapOf(dp));
      }
      if res != Ok { return; }
    }
  }

  /**
    Both ways lead to the same cluster, sector and offset, for every index that 16 bits can
    tell; larger ones, in a table that has them, are reached by setting the index only.
  */
  method BothWays(dp: Dir, i: u32) returns (res: FResult, walked: Option<Place>, direct: Option<Place>)
    requires dp.Valid()
    modifies dp.fs, dp.fs.win, dp`index, dp`clust, dp`sect, dp`dir, dp`chain
    ensures dp.fs.Valid() && dp.fs.Steady()
    ensures res == Ok || (res == DiskErr && dp.fs.faults > old(dp.fs.faults))
    ensures res == Ok ==>
      && dp.Valid() && dp.chain == old(dp.chain)
      && (i < MAX_ENTRIES ==> walked == direct)
      && (direct.Some? <==> i < Capacity(dp.fs.g, dp.chain))
      && (walked.Some? <==> i < Capacity(dp.fs.g, dp.chain) && i < MAX_ENTRIES)
  {
    hide FatOf, IsTable, OnVolume, HasReserved, IsChain, StartsAt, FreeBelow, Entries, PlaceOf, SameSnap, Capacity;
    walked, direct := None, None;
    res := Steps(dp, i);
    if res == DiskErr { return; }
    SameChain(dp);
    if res == Ok { walked := Some(PlaceNow(dp)); }
    res := dp.Sdi(i);
    if res == DiskErr { return; }
    if res == Ok { direct := Some(PlaceNow(dp)); }
    res := Ok;
  }

  twostate lemma SameChain(dp: Dir)
    requires old(dp.Valid()) && dp.Valid() && Kept(dp)
    ensures dp.chain == old(dp.chain)
  {
  }
}
