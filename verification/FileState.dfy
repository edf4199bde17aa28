/**
  An open file as a value: its chain, its cursor and its private sector buffer, what has to
  hold between them and the volume, and what the steps of reading and writing do to its bytes.
*/
module FileState {
  import opened Bytes
  import opened Numbers
  import opened Volume
  import opened FatCodec
  import opened Chains
  import opened Allocator
  import opened FileLayout

  datatype FileValue = FileValue(
    chain: seq<nat>,    // clusters of the file
    sclust: nat,        // first of them, or 0
    fptr: nat,          // cursor
    fsize: nat,         // file size
    dirty: bool,        // buf differs from sector dsect
    dsect: nat,         // sector in buf, 0: none
    buf: seq<byte>)

  /** The volume as an open file sees it. */
  datatype VolumeValue = VolumeValue(g: Geometry, view: seq<Sector>, fat: seq<nat>, winsect: nat)

  ghost predicate ValidVolume(v: VolumeValue) {
    |v.view| == v.g.nsect && v.fat == FatOf(v.g, v.view)
  }

  /** The logical disk, overridden by the file's buffer while that is dirty. */
  ghost function Data(v: VolumeValue, f: FileValue): (d: seq<Sector>)
    requires |f.buf| == SS
    ensures |d| == |v.view|
  {
    if f.dirty && f.dsect < |v.view| then v.view[f.dsect := f.buf] else v.view
  }

  /** What holds of an open file in the middle of an operation. */
  ghost predicate Consistent(v: VolumeValue, f: FileValue) {
    && ValidVolume(v)
    && |f.buf| == SS
    && IsChain(v.fat, f.chain) && OnVolume(v.g, f.chain)
    && f.sclust == (if f.chain == [] then 0 else f.chain[0])
    && f.fsize <= Room(v.g, f.chain) * SS
    && f.fptr <= Room(v.g, f.chain) * SS
    && (f.fptr % SS != 0 ==> InSector(v.g, f.chain, f.fptr, f.dsect))
    && (f.dirty ==> InFile(v.g, f.chain, f.dsect))
    && (!f.dirty && f.dsect != 0 ==> v.g.database <= f.dsect < |v.view| && f.buf == v.view[f.dsect])
    && !InFile(v.g, f.chain, v.winsect)
  }

  /** The buffer is for the sector the cursor is in. */
  ghost predicate InSector(g: Geometry, s: seq<nat>, fptr: nat, dsect: nat)
    requires OnVolume(g, s)
  {
    fptr / SS < Room(g, s) && dsect == FileSector(g, s, fptr / SS)
  }

  /** The file's current cluster is the one of the byte before the cursor. */
  ghost predicate Behind(g: Geometry, s: seq<nat>, fptr: nat, clust: nat) {
    fptr > 0 ==>
      var j := ClusterOf((fptr - 1) / SS, g.csize);
      j < |s| && clust == s[j]
  }

  /** The file's current cluster is the one of the byte at the cursor. */
  ghost predicate At(g: Geometry, s: seq<nat>, fptr: nat, clust: nat) {
    var j := ClusterOf(fptr / SS, g.csize);
    j < |s| && clust == s[j]
  }

  /** Outside the FAT area, what is on one disk is on the other. */
  ghost predicate SameData(g: Geometry, a: seq<Sector>, b: seq<Sector>) {
    |a| == |b| && forall s :: g.database <= s < |a| ==> a[s] == b[s]
  }

  ghost predicate WindowOk(g: Geometry, w0: nat, w1: nat) {
    w1 == w0 || InFat(g, w1) || w1 == 0xFFFF_FFFF
  }

  lemma AgreeIsSameData(g: Geometry, a: seq<Sector>, b: seq<Sector>)
    requires AgreeOutsideFat(g, a, b)
    ensures SameData(g, a, b)
  {
  }

  lemma AgreeIsOutside(g: Geometry, a: seq<Sector>, b: seq<Sector>)
    requires Agree(g, a, b)
    ensures AgreeOutsideFat(g, a, b)
  {
  }

  /** A window in the FAT, or none, is not in the file. */
  lemma WindowOutside(g: Geometry, s: seq<nat>, w0: nat, w1: nat)
    requires OnVolume(g, s) && !InFile(g, s, w0) && WindowOk(g, w0, w1)
    ensures !InFile(g, s, w1)
  {
  }

  /** Moving the window through the FAT leaves the file as it is. */
  lemma AfterFatAccess(v: VolumeValue, v': VolumeValue, f: FileValue)
    requires Consistent(v, f) && ValidVolume(v') && v'.g == v.g && v'.fat == v.fat
    requires SameData(v.g, v.view, v'.view) && WindowOk(v.g, v.winsect, v'.winsect)
    ensures Consistent(v', f)
    ensures SameData(v.g, Data(v, f), Data(v', f))
  {
    WindowOutside(v.g, f.chain, v.winsect, v'.winsect);
  }

  /** The same bytes of a file on two disks that agree on the data area. */
  lemma SameBytes(g: Geometry, a: seq<Sector>, b: seq<Sector>, s: seq<nat>, i: nat)
    requires |a| == g.nsect && SameData(g, a, b) && OnVolume(g, s) && i / SS < Room(g, s)
    ensures FileByte(g, a, s, i) == FileByte(g, b, s, i)
  {
  }

  // ---------- Growing ----------

  lemma GrowthReserved(fat: seq<nat>, s: seq<nat>, r: nat, end: nat)
    requires IsChain(fat, s) && InRange(fat, r) && end >= |fat|
    ensures HasReserved(Appended(fat, s, r, end)) ==> HasReserved(fat)
  {
    var fat' := Appended(fat, s, r, end);
    if HasReserved(fat') {
      var c :| InRange(fat', c) && fat'[c] == 1;
      assert fat[c] == 1;
    }
  }

  /** The file has one more cluster, taken from the free ones. */
  lemma AfterGrowth(v: VolumeValue, v': VolumeValue, f: FileValue, r: nat)
    requires Consistent(v, f) && ValidVolume(v') && v'.g == v.g && InRange(v.fat, r) && v.fat[r] == 0
    requires v'.fat == Appended(v.fat, f.chain, r, EndMark(v.g))
    requires SameData(v.g, v.view, v'.view) && InFat(v.g, v'.winsect)
    ensures Consistent(v', f.(chain := f.chain + [r], sclust := if f.chain == [] then r else f.sclust))
    ensures SameData(v.g, Data(v, f), Data(v', f))
    ensures HasReserved(v'.fat) ==> HasReserved(v.fat)
  {
    EndMarkEnds(v.g);
    AppendedChain(v.fat, f.chain, r, EndMark(v.g));
    var t := f.chain + [r];
    assert forall i :: 0 <= i < |t| ==> InRange(v'.fat, t[i]);
    SpanMono(|f.chain|, |t|, v.g.csize);
    forall k: nat | k < Room(v.g, f.chain)
      ensures FileSector(v.g, f.chain, k) == FileSector(v.g, t, k)
    {
      FileSectorPrefix(v.g, f.chain, t, k);
    }
    if f.dirty {
      var k: nat :| k < Room(v.g, f.chain) && FileSector(v.g, f.chain, k) == f.dsect;
      assert FileSector(v.g, t, k) == f.dsect;
    }
    GrowthReserved(v.fat, f.chain, r, EndMark(v.g));
  }

  // ---------- The buffer ----------

  /** Sectors of the data area hold no FAT entry. */
  lemma DataKeepsFat(g: Geometry, a: seq<Sector>, b: seq<Sector>)
    requires |a| == |b| == g.nsect
    requires forall s :: 0 <= s < g.database ==> b[s] == a[s]
    ensures FatOf(g, b) == FatOf(g, a)
  {
    SameFirstCopy(g, a, b);
  }

  /** Writing the buffer back leaves the bytes of the file as they are. */
  lemma AfterFlush(v: VolumeValue, v': VolumeValue, f: FileValue)
    requires Consistent(v, f) && f.dirty && f.dsect < |v.view|
    requires v' == v.(view := v.view[f.dsect := f.buf], fat := v.fat)
    ensures v.g.database <= f.dsect
    ensures Consistent(v', f.(dirty := false))
    ensures Data(v', f.(dirty := false)) == Data(v, f)
  {
    DataKeepsFat(v.g, v.view, v'.view);
  }

  /** A dirty buffer is for a sector of the file, on the drive and not in the window. */
  lemma DirtySector(v: VolumeValue, f: FileValue)
    requires Consistent(v, f) && f.dirty
    ensures v.g.database <= f.dsect < |v.view| && f.dsect != v.winsect
  {
  }

  /** Filling the clean buffer with the sector at the cursor. */
  lemma AfterLoad(v: VolumeValue, f: FileValue, k: nat)
    requires Consistent(v, f) && !f.dirty && k < Room(v.g, f.chain) && (f.fptr / SS == k || f.fptr % SS == 0)
    ensures var f' := f.(dsect := FileSector(v.g, f.chain, k), buf := v.view[FileSector(v.g, f.chain, k)]);
      Consistent(v, f') && Data(v, f') == Data(v, f)
  {
  }

  /** Moving the cursor within a sector, or to the beginning of one. */
  lemma AfterMove(v: VolumeValue, f: FileValue, p: nat)
    requires Consistent(v, f) && p <= Room(v.g, f.chain) * SS
    requires p % SS == 0 || (p / SS < Room(v.g, f.chain) && f.dsect == FileSector(v.g, f.chain, p / SS))
    ensures Consistent(v, f.(fptr := p)) && Data(v, f.(fptr := p)) == Data(v, f)
  {
  }

  // ---------- Bytes read ----------

  /** `w` is what the file holds from position `at` on. */
  ghost predicate Holds(g: Geometry, d: seq<Sector>, s: seq<nat>, at: nat, w: seq<byte>)
    requires |d| == g.nsect && OnVolume(g, s)
  {
    forall i :: at <= i < at + |w| ==> i / SS < Room(g, s) && w[i - at] == FileByte(g, d, s, i)
  }

  lemma HoldsMore(g: Geometry, d: seq<Sector>, s: seq<nat>, at: nat, w: seq<byte>, u: seq<byte>)
    requires |d| == g.nsect && OnVolume(g, s)
    requires Holds(g, d, s, at, w) && Holds(g, d, s, at + |w|, u)
    ensures Holds(g, d, s, at, w + u)
  {
  }

  lemma HoldsSame(g: Geometry, a: seq<Sector>, b: seq<Sector>, s: seq<nat>, at: nat, w: seq<byte>)
    requires |a| == g.nsect && OnVolume(g, s) && SameData(g, a, b) && Holds(g, a, s, at, w)
    ensures Holds(g, b, s, at, w)
  {
    forall i | at <= i < at + |w|
      ensures i / SS < Room(g, s) && w[i - at] == FileByte(g, b, s, i)
    {
      SameBytes(g, a, b, s, i);
    }
  }

  lemma NoneHeld(g: Geometry, d: seq<Sector>, s: seq<nat>, at: nat)
    requires |d| == g.nsect && OnVolume(g, s)
    ensures Holds(g, d, s, at, [])
  {
  }

  lemma SameContents(g: Geometry, a: seq<Sector>, b: seq<Sector>, s: seq<nat>, n: nat)
    requires |a| == g.nsect && OnVolume(g, s) && SameData(g, a, b) && n <= Room(g, s) * SS
    ensures Contents(g, a, s, n) == Contents(g, b, s, n)
  {
    forall i | 0 <= i < n
      ensures FileByte(g, a, s, i) == FileByte(g, b, s, i)
    {
      SameBytes(g, a, b, s, i);
    }
  }

  lemma HoldsText(g: Geometry, d: seq<Sector>, s: seq<nat>, n: nat, at: nat, w: seq<byte>)
    requires |d| == g.nsect && OnVolume(g, s) && n <= Room(g, s) * SS
    requires Holds(g, d, s, at, w) && at + |w| <= n
    ensures w == Contents(g, d, s, n)[at..at + |w|]
  {
  }

  lemma SizeFits(v: VolumeValue, f: FileValue)
    requires Consistent(v, f)
    ensures OnVolume(v.g, f.chain) && f.fsize <= Room(v.g, f.chain) * SS
  {
  }

  /** Reading at position `at` of a file with contents `c`: as much as asked for, or is left. */
  ghost predicate DidRead(c: seq<byte>, at: nat, btr: nat, br: nat, before: seq<byte>, after: seq<byte>) {
    && at <= |c| && br == (if btr > |c| - at then |c| - at else btr)
    && br <= |before|
    && after == c[at..at + br] + before[br..]
  }

  /** Sectors of one cluster follow one another on the drive. */
  lemma SectorRun(g: Geometry, s: seq<nat>, k: nat, t: nat, cc: nat)
    requires OnVolume(g, s) && t < cc && OffsetIn(k, g.csize) + cc <= g.csize && k < Room(g, s)
    ensures k + cc <= Room(g, s)
    ensures FileSector(g, s, k + t) == FileSector(g, s, k) + t
  {
    ClusterBelow(k, |s|, g.csize);
    LocatedNext(k, t, g.csize);
    LocatedNext(k, cc - 1, g.csize);
    ClusterBelow(k + t, |s|, g.csize);
    ClusterBelow(k + cc - 1, |s|, g.csize);
  }

  /** Whole sectors read from the drive are bytes of the file. */
  lemma SectorsHold(g: Geometry, d: seq<Sector>, s: seq<nat>, k: nat, cc: nat, w: seq<byte>)
    requires |d| == g.nsect && OnVolume(g, s) && k < Room(g, s)
    requires 0 < cc && OffsetIn(k, g.csize) + cc <= g.csize
    requires |w| == cc * SS && LiesAt(d, FileSector(g, s, k), w)
    ensures Holds(g, d, s, k * SS, w)
  {
    hide FileSector, Room, OnVolume, OffsetIn;
    forall i | k * SS <= i < k * SS + |w|
      ensures i / SS < Room(g, s) && w[i - k * SS] == FileByte(g, d, s, i)
    {
      var t := i / SS - k;
      assert (i - k * SS) / SS == t && (i - k * SS) % SS == i % SS;
      SectorRun(g, s, k, t, cc);
    }
  }

  /** A part of a sector is bytes of the file. */
  lemma PartHolds(g: Geometry, d: seq<Sector>, s: seq<nat>, k: nat, off: nat, n: nat)
    requires |d| == g.nsect && OnVolume(g, s) && k < Room(g, s) && off + n <= SS
    ensures Holds(g, d, s, k * SS + off, d[FileSector(g, s, k)][off..off + n])
  {
    forall i | k * SS + off <= i < k * SS + off + n
      ensures i / SS < Room(g, s) && d[FileSector(g, s, k)][off..off + n][i - (k * SS + off)] == FileByte(g, d, s, i)
    {
      assert i / SS == k;
    }
  }

  // ---------- Bytes written ----------

  /**
    Between disks `d` and `e`, the bytes from `at` on have become `w`, and the other ones of the
    first `limit` bytes of the file are the same.
  */
  ghost predicate Wrote(g: Geometry, d: seq<Sector>, e: seq<Sector>, s: seq<nat>, limit: nat, at: nat, w: seq<byte>)
    requires |d| == |e| == g.nsect && OnVolume(g, s)
  {
    forall i :: 0 <= i < limit || at <= i < at + |w| ==>
      && i / SS < Room(g, s)
      && FileByte(g, e, s, i) == if at <= i < at + |w| then w[i - at] else FileByte(g, d, s, i)
  }

  lemma WroteNothing(g: Geometry, d: seq<Sector>, e: seq<Sector>, s: seq<nat>, limit: nat, at: nat)
    requires |d| == g.nsect && OnVolume(g, s) && limit <= Room(g, s) * SS && SameData(g, d, e)
    ensures Wrote(g, d, e, s, limit, at, [])
  {
    forall i | 0 <= i < limit
      ensures i / SS < Room(g, s) && FileByte(g, e, s, i) == FileByte(g, d, s, i)
    {
      SameBytes(g, d, e, s, i);
    }
  }

  /** Writing on behind what has been written. */
  lemma WroteMore(g: Geometry, d: seq<Sector>, e: seq<Sector>, h: seq<Sector>, s: seq<nat>, limit: nat,
                  at: nat, w: seq<byte>, u: seq<byte>)
    requires |d| == |e| == |h| == g.nsect && OnVolume(g, s)
    requires Wrote(g, d, e, s, limit, at, w)
    requires Wrote(g, e, h, s, if at + |w| > limit then at + |w| else limit, at + |w|, u)
    ensures Wrote(g, d, h, s, limit, at, w + u)
  {
  }

  /** What was written to a file is there when its chain has grown. */
  lemma WroteLonger(g: Geometry, d: seq<Sector>, e: seq<Sector>, s: seq<nat>, t: seq<nat>, limit: nat, at: nat,
                    w: seq<byte>)
    requires |d| == |e| == g.nsect && OnVolume(g, t) && s <= t
    requires OnVolume(g, s) && Wrote(g, d, e, s, limit, at, w)
    ensures Wrote(g, d, e, t, limit, at, w)
  {
    forall i | 0 <= i < limit || at <= i < at + |w|
      ensures i / SS < Room(g, t) && FileByte(g, d, t, i) == FileByte(g, d, s, i)
              && FileByte(g, e, t, i) == FileByte(g, e, s, i)
    {
      FileSectorPrefix(g, s, t, i / SS);
    }
  }

  /** Whole sectors written within a cluster. */
  lemma SectorsWrote(g: Geometry, d: seq<Sector>, e: seq<Sector>, s: seq<nat>, limit: nat, k: nat, cc: nat,
                     w: seq<byte>)
    requires |d| == |e| == g.nsect && OnVolume(g, s) && k < Room(g, s) && limit <= Room(g, s) * SS
    requires 0 < cc && OffsetIn(k, g.csize) + cc <= g.csize
    requires |w| == cc * SS && LiesAt(e, FileSector(g, s, k), w)
    requires forall x :: 0 <= x < |d| && !(FileSector(g, s, k) <= x < FileSector(g, s, k) + cc) ==> e[x] == d[x]
    ensures Wrote(g, d, e, s, limit, k * SS, w)
  {
    SectorsHold(g, e, s, k, cc, w);
    forall i | 0 <= i < limit && !(k * SS <= i < k * SS + |w|)
      ensures i / SS < Room(g, s) && FileByte(g, e, s, i) == FileByte(g, d, s, i)
    {
      OutsideRun(g, s, k, cc, i / SS);
    }
  }

  lemma OutsideRun(g: Geometry, s: seq<nat>, k: nat, cc: nat, l: nat)
    requires OnVolume(g, s) && k < Room(g, s) && 0 < cc && OffsetIn(k, g.csize) + cc <= g.csize
    requires l < Room(g, s) && !(k <= l < k + cc)
    ensures !(FileSector(g, s, k) <= FileSector(g, s, l) < FileSector(g, s, k) + cc)
  {
    var t := FileSector(g, s, l) - FileSector(g, s, k);
    if 0 <= t < cc {
      SectorRun(g, s, k, t, cc);
      FileSectorsApart(g, s, k + t, l);
    }
  }

  /** Part of a sector written; its other bytes have to stay as far as they are in the file. */
  lemma PartWrote(g: Geometry, d: seq<Sector>, e: seq<Sector>, s: seq<nat>, limit: nat, k: nat, off: nat, w: seq<byte>)
    requires |d| == |e| == g.nsect && OnVolume(g, s) && k < Room(g, s) && limit <= Room(g, s) * SS
    requires off + |w| <= SS
    requires var x := FileSector(g, s, k);
      && (forall y :: 0 <= y < |d| && y != x ==> e[y] == d[y])
      && (forall j :: 0 <= j < |w| ==> e[x][off + j] == w[j])
      && (forall j :: 0 <= j < SS && !(off <= j < off + |w|) && k * SS + j < limit ==> e[x][j] == d[x][j])
    ensures Wrote(g, d, e, s, limit, k * SS + off, w)
  {
    var at := k * SS + off;
    forall i | 0 <= i < limit || at <= i < at + |w|
      ensures i / SS < Room(g, s)
      ensures FileByte(g, e, s, i) == if at <= i < at + |w| then w[i - at] else FileByte(g, d, s, i)
    {
      if i / SS != k {
        FileSectorsApart(g, s, i / SS, k);
      } else {
        assert i % SS == i - k * SS;
      }
    }
  }

  /** A sequence with `w` put over it from position `at` on. */
  function Overwrite(c: seq<byte>, at: nat, w: seq<byte>): (r: seq<byte>)
    requires at <= |c|
  {
    c[..at] + w + if at + |w| < |c| then c[at + |w|..] else []
  }

  /** In terms of the contents: writing at the cursor overwrites, and lengthens, the file. */
  lemma WroteContents(g: Geometry, d: seq<Sector>, e: seq<Sector>, s: seq<nat>, n: nat, at: nat, w: seq<byte>,
                      t: seq<nat>)
    requires |d| == |e| == g.nsect && OnVolume(g, t) && s <= t && OnVolume(g, s)
    requires n <= Room(g, s) * SS && at <= n && Wrote(g, d, e, t, n, at, w)
    ensures var m := if at + |w| > n then at + |w| else n;
      m <= Room(g, t) * SS && Contents(g, e, t, m) == Overwrite(Contents(g, d, s, n), at, w)
  {
    var m := if at + |w| > n then at + |w| else n;
    if at + |w| > n && w != [] {
      assert (at + |w| - 1) / SS < Room(g, t);
    }
    SpanMono(|s|, |t|, g.csize);
    var c := Contents(g, d, s, n);
    assert m <= Room(g, t) * SS;
    forall i | 0 <= i < m
      ensures Contents(g, e, t, m)[i] == Overwrite(c, at, w)[i]
    {
      if i < n {
        FileSectorPrefix(g, s, t, i / SS);
      }
    }
  }

  // ---------- The rest of the drive ----------

  /** Data sectors that are not the file's are the same. */
  ghost predicate Elsewhere(g: Geometry, a: seq<Sector>, b: seq<Sector>, s: seq<nat>)
    requires OnVolume(g, s)
  {
    |a| == |b| && forall x :: g.database <= x < |a| && !InFile(g, s, x) ==> b[x] == a[x]
  }

  lemma SameIsElsewhere(g: Geometry, a: seq<Sector>, b: seq<Sector>, s: seq<nat>)
    requires OnVolume(g, s) && SameData(g, a, b)
    ensures Elsewhere(g, a, b, s)
  {
  }

  /** Two changes in a row, the file growing in between. */
  lemma ElsewhereAgain(g: Geometry, a: seq<Sector>, b: seq<Sector>, c: seq<Sector>, s: seq<nat>, t: seq<nat>)
    requires OnVolume(g, t) && OnVolume(g, s) && s <= t
    requires Elsewhere(g, a, b, s) && Elsewhere(g, b, c, t)
    ensures Elsewhere(g, a, c, t)
  {
    forall x | g.database <= x < |a| && !InFile(g, t, x)
      ensures c[x] == a[x]
    {
      if InFile(g, s, x) {
        var k: nat :| k < Room(g, s) && FileSector(g, s, k) == x;
        FileSectorPrefix(g, s, t, k);
      }
    }
  }

  /** A run of sectors of the file is the file's. */
  lemma RunInFile(g: Geometry, s: seq<nat>, k: nat, cc: nat, x: nat)
    requires OnVolume(g, s) && k < Room(g, s) && OffsetIn(k, g.csize) + cc <= g.csize
    requires FileSector(g, s, k) <= x < FileSector(g, s, k) + cc
    ensures InFile(g, s, x)
  {
    SectorRun(g, s, k, x - FileSector(g, s, k), cc);
  }

  // ---------- Where the cursor is ----------

  /** At a cluster boundary inside the file, the next cluster of the chain is the cursor's. */
  lemma NextCluster(v: VolumeValue, f: FileValue, clust: nat)
    requires Consistent(v, f) && Behind(v.g, f.chain, f.fptr, clust) && f.fptr > 0
    requires f.fptr % SS == 0 && OffsetIn(f.fptr / SS, v.g.csize) == 0
    ensures InRange(v.fat, clust) && v.fat[clust] >= 2
    ensures var j := ClusterOf(f.fptr / SS, v.g.csize);
      && 0 < j <= |f.chain| && clust == f.chain[j - 1]
      && (if j < |f.chain| then v.fat[clust] == f.chain[j] else v.fat[clust] >= |v.fat|)
  {
    var k := f.fptr / SS;
    assert (f.fptr - 1) / SS == k - 1;
    LocatedCross(k, v.g.csize);
    ChainLinks(v.fat, f.chain, ClusterOf(k - 1, v.g.csize));
  }

  lemma BelowSize(v: VolumeValue, f: FileValue)
    requires Consistent(v, f) && f.fptr < f.fsize
    ensures f.fptr / SS < Room(v.g, f.chain) && ClusterOf(f.fptr / SS, v.g.csize) < |f.chain|
  {
    ClusterBelow(f.fptr / SS, |f.chain|, v.g.csize);
  }

  /** At the top of a file that has clusters, the first one is the cursor's. */
  lemma FirstCluster(v: VolumeValue, f: FileValue)
    requires Consistent(v, f) && f.fptr == 0 && f.chain != []
    ensures At(v.g, f.chain, f.fptr, f.sclust) && IsCluster(v.g, f.sclust)
  {
  }

  /** In the middle of a sector, the buffer is for it and the current cluster is its cluster. */
  lemma MidSector(v: VolumeValue, f: FileValue, clust: nat)
    requires Consistent(v, f) && Behind(v.g, f.chain, f.fptr, clust) && f.fptr % SS != 0
    ensures At(v.g, f.chain, f.fptr, clust) && InSector(v.g, f.chain, f.fptr, f.dsect)
  {
    SameCluster(v, f, clust);
  }

  /** The buffer holds what the file's disk holds in the sector at the cursor. */
  lemma BufferHolds(v: VolumeValue, f: FileValue)
    requires Consistent(v, f) && InSector(v.g, f.chain, f.fptr, f.dsect)
    ensures Data(v, f)[FileSector(v.g, f.chain, f.fptr / SS)] == f.buf
  {
  }

  lemma StaysInSector(v: VolumeValue, f: FileValue, n: nat)
    requires Consistent(v, f)
    requires (f.fptr + n) % SS == 0 || (InSector(v.g, f.chain, f.fptr, f.dsect) && f.fptr % SS + n < SS)
    ensures var p := f.fptr + n;
      p % SS == 0 || (p / SS < Room(v.g, f.chain) && f.dsect == FileSector(v.g, f.chain, p / SS))
  {
    if (f.fptr + n) % SS != 0 {
      assert (f.fptr + n) / SS == f.fptr / SS;
    }
  }

  lemma NotBelow2(g: Geometry, f: FileValue, clust: nat)
    requires OnVolume(g, f.chain)
    ensures At(g, f.chain, f.fptr, clust) ==> clust >= 2
  {
  }

  lemma OffsetAtZero(csize: nat)
    requires csize > 0
    ensures OffsetIn(0, csize) == 0
  {
  }

  /** Away from a cluster boundary, the cursor is still in the cluster of the byte before it. */
  lemma SameCluster(v: VolumeValue, f: FileValue, clust: nat)
    requires Consistent(v, f) && Behind(v.g, f.chain, f.fptr, clust) && f.fptr > 0
    requires f.fptr % SS != 0 || OffsetIn(f.fptr / SS, v.g.csize) != 0
    ensures At(v.g, f.chain, f.fptr, clust)
  {
    var k := f.fptr / SS;
    if f.fptr % SS == 0 {
      assert (f.fptr - 1) / SS == k - 1;
      LocatedCross(k, v.g.csize);
    } else {
      assert (f.fptr - 1) / SS == k;
    }
  }

  /** The cursor is at a sector that the file has room for exactly when its cluster is there. */
  lemma AtRoom(g: Geometry, f: FileValue, clust: nat)
    requires OnVolume(g, f.chain) && At(g, f.chain, f.fptr, clust)
    ensures f.fptr / SS < Room(g, f.chain) && IsCluster(g, clust)
    ensures FileSector(g, f.chain, f.fptr / SS) == Clust2Sect(g, clust) + OffsetIn(f.fptr / SS, g.csize)
  {
    ClusterBelow(f.fptr / SS, |f.chain|, g.csize);
  }

  /** Reading or writing on within the cluster keeps the current cluster behind the cursor. */
  lemma Advanced(g: Geometry, f: FileValue, clust: nat, n: nat)
    requires OnVolume(g, f.chain) && At(g, f.chain, f.fptr, clust) && n > 0
    requires f.fptr % SS + n <= (g.csize - OffsetIn(f.fptr / SS, g.csize)) * SS
    ensures Behind(g, f.chain, f.fptr + n, clust)
    ensures f.fptr + n <= Room(g, f.chain) * SS
  {
    var k := f.fptr / SS;
    var t := (f.fptr + n - 1) / SS - k;
    AtRoom(g, f, clust);
    LocatedNext(k, t, g.csize);
    ClusterBelow(k + t, |f.chain|, g.csize);
  }

  // ---------- Changes of a caller's buffer ----------

  /** At most `n` bytes from `off` on differ. */
  ghost predicate OnlyIn(a: seq<byte>, b: seq<byte>, off: nat, n: nat) {
    |a| == |b| && forall i :: 0 <= i < |a| && !(off <= i < off + n) ==> b[i] == a[i]
  }

  lemma OnlyInNothing(a: seq<byte>, off: nat, n: nat)
    ensures OnlyIn(a, a, off, n)
  {
  }

  lemma OnlyInTwice(a: seq<byte>, b: seq<byte>, c: seq<byte>, off: nat, n: nat, off': nat, n': nat)
    requires OnlyIn(a, b, off, n) && OnlyIn(b, c, off', n') && off <= off' && off' + n' <= off + n
    ensures OnlyIn(a, c, off, n)
  {
  }

  /** One part after the other. */
  lemma OnlyInNext(a: seq<byte>, b: seq<byte>, c: seq<byte>, n: nat, m: nat)
    requires OnlyIn(a, b, 0, n) && OnlyIn(b, c, n, m) && n + m <= |a|
    ensures OnlyIn(a, c, 0, n + m)
    ensures c[..n + m] == b[..n] + c[n..n + m]
  {
  }

  // ---------- Direct transfers and the buffer ----------

  lemma Whole(cc: nat)
    ensures cc * SS % SS == 0 && cc * SS / SS == cc
  {
  }

  /** `data` with the dirty buffer put in its place, if sector `sect` and following include it. */
  function Overlay(data: seq<byte>, sect: u32, f: FileValue): (r: seq<byte>)
    requires |data| % SS == 0 && |f.buf| == SS && 0 <= f.dsect < 0x1_0000_0000
    ensures |r| == |data|
  {
    var t := Sub32(f.dsect, sect);
    if f.dirty && t < |data| / SS then data[..t * SS] + f.buf + data[t * SS + SS..] else data
  }

  /** Putting the buffer over its part of what was read makes the overlay. */
  lemma OverlayPut(a: seq<byte>, b: seq<byte>, off: nat, data: seq<byte>, sect: u32, f: FileValue, at: nat)
    requires |f.buf| == SS && f.dirty && 0 <= f.dsect < 0x1_0000_0000
    requires |data| % SS == 0 && Sub32(f.dsect, sect) < |data| / SS && at == Sub32(f.dsect, sect) * SS
    requires off + |data| <= |a| && a[off..off + |data|] == data
    requires OnlyIn(a, b, off + at, SS) && b[off + at..off + at + SS] == f.buf
    ensures b[off..off + |data|] == Overlay(data, sect, f) && OnlyIn(a, b, off, |data|)
  {
    var r := Overlay(data, sect, f);
    assert r == data[..at] + f.buf + data[at + SS..];
    forall j | 0 <= j < |data|
      ensures b[off + j] == r[j]
    {
      if at <= j < at + SS {
        assert b[off + j] == b[off + at..off + at + SS][j - at];
      } else {
        assert b[off + j] == a[off + j] == a[off..off + |data|][j];
      }
    }
  }

  /** What was read from the drive and overlaid is what the file's disk holds. */
  lemma OverlayLies(v: VolumeValue, f: FileValue, sect: u32, data: seq<byte>)
    requires Consistent(v, f) && f.dsect < 0x1_0000_0000 && LiesAt(v.view, sect, data)
    ensures LiesAt(Data(v, f), sect, Overlay(data, sect, f))
  {
    var r := Overlay(data, sect, f);
    if f.dirty {
      DirtySector(v, f);
    }
    forall j | 0 <= j < |r|
      ensures Data(v, f)[sect + j / SS][j % SS] == r[j]
    {
      var t := Sub32(f.dsect, sect);
      if f.dirty && t < |data| / SS && sect + j / SS == f.dsect {
        assert j == t * SS + j % SS;
      }
    }
  }

  /** The chain of a consistent file is on the volume, and every sector has a place in a cluster. */
  lemma OnVolumeNow(v: VolumeValue, f: FileValue)
    requires Consistent(v, f)
    ensures OnVolume(v.g, f.chain)
    ensures forall k: nat {:trigger OffsetIn(k, v.g.csize)} :: OffsetIn(k, v.g.csize) < v.g.csize
  {
    forall k: nat
      ensures OffsetIn(k, v.g.csize) < v.g.csize
    {
      Located(k, v.g.csize);
    }
  }

  /** The transfer keeps clear of the window. */
  lemma RunClear(v: VolumeValue, f: FileValue, k: nat, cc: nat)
    requires Consistent(v, f) && k < Room(v.g, f.chain) && OffsetIn(k, v.g.csize) + cc <= v.g.csize
    ensures var x := FileSector(v.g, f.chain, k); !(x <= v.winsect < x + cc)
  {
    var x := FileSector(v.g, f.chain, k);
    if x <= v.winsect < x + cc {
      RunInFile(v.g, f.chain, k, cc, v.winsect);
    }
  }

  // ---------- Steps of writing ----------

  /**
    After create_chain for the current cluster: the file has the next cluster, its chain longer
    by that one if it was not there before.
  */
  ghost function WithNext(v: VolumeValue, f: FileValue, r: nat): (f': FileValue)
  {
    var j := ClusterOf(f.fptr / SS, v.g.csize);
    if j < |f.chain| then f
    else f.(chain := f.chain + [r], sclust := if f.chain == [] then r else f.sclust)
  }

  ghost predicate AtBoundary(g: Geometry, f: FileValue) {
    f.fptr % SS == 0 && OffsetIn(f.fptr / SS, g.csize) == 0
  }

  /** The next cluster is there already. */
  lemma CreateFollows(v: VolumeValue, v': VolumeValue, f: FileValue, clust: nat, hint: nat, r: nat)
    requires Consistent(v, f) && ValidVolume(v') && v'.g == v.g && AtBoundary(v.g, f)
    requires |v.fat| == |v'.fat| == v.g.nFatent && clust < v.g.nFatent
    requires if f.fptr == 0 then clust == 0 && f.chain == [] else Behind(v.g, f.chain, f.fptr, clust)
    requires Obtained(v.g, v.fat, v'.fat, clust, hint, r)
    requires SameData(v.g, v.view, v'.view) && InFat(v.g, v'.winsect)
    requires ClusterOf(f.fptr / SS, v.g.csize) < |f.chain|
    ensures v'.fat == v.fat && WithNext(v, f, r) == f && At(v.g, f.chain, f.fptr, r)
  {
    hide Consistent, InFile, FileSector, Room, SameData, Allocated;
    var j := ClusterOf(f.fptr / SS, v.g.csize);
    HasChain(v, f);
    if f.fptr > 0 {
      NextCluster(v, f, clust);
      assert v.fat[clust] == f.chain[j] && InRange(v.fat, f.chain[j]);
    }
  }

  /** A new cluster is put behind the last one. */
  lemma CreateAppends(v: VolumeValue, v': VolumeValue, f: FileValue, clust: nat, hint: nat, r: nat)
    requires Consistent(v, f) && ValidVolume(v') && v'.g == v.g && AtBoundary(v.g, f)
    requires |v.fat| == |v'.fat| == v.g.nFatent && clust < v.g.nFatent
    requires if f.fptr == 0 then clust == 0 && f.chain == [] else Behind(v.g, f.chain, f.fptr, clust)
    requires Obtained(v.g, v.fat, v'.fat, clust, hint, r)
    requires SameData(v.g, v.view, v'.view) && InFat(v.g, v'.winsect)
    requires ClusterOf(f.fptr / SS, v.g.csize) >= |f.chain|
    ensures InRange(v.fat, r) && v.fat[r] == 0 && v'.fat == Appended(v.fat, f.chain, r, EndMark(v.g))
    ensures ClusterOf(f.fptr / SS, v.g.csize) == |f.chain| && FreeCount(v'.fat) == FreeCount(v.fat) - 1
    ensures EndMark(v.g) >= |v.fat| && IsChain(v.fat, f.chain)
  {
    hide InFile, FileSector, SameData;
    if f.fptr > 0 {
      NextCluster(v, f, clust);
    }
    AtEnd(v, f);
    AllocatedCount(v.g, v.fat, v'.fat, clust, r);
  }

  lemma DataOfBuffer(v: VolumeValue, f: FileValue, s: seq<nat>, sclust: nat)
    requires |f.buf| == SS
    ensures Data(v, f.(chain := s, sclust := sclust)) == Data(v, f)
  {
  }

  lemma HasBuffer(v: VolumeValue, f: FileValue)
    requires Consistent(v, f)
    ensures |f.buf| == SS
  {
  }

  lemma AfterCreate(v: VolumeValue, v': VolumeValue, f: FileValue, clust: nat, hint: nat, r: nat)
    requires Consistent(v, f) && ValidVolume(v') && v'.g == v.g && AtBoundary(v.g, f)
    requires |v.fat| == |v'.fat| == v.g.nFatent && clust < v.g.nFatent
    requires if f.fptr == 0 then clust == 0 && f.chain == [] else Behind(v.g, f.chain, f.fptr, clust)
    requires Obtained(v.g, v.fat, v'.fat, clust, hint, r)
    requires SameData(v.g, v.view, v'.view) && InFat(v.g, v'.winsect)
    ensures var f' := WithNext(v, f, r);
      && Consistent(v', f') && f.chain <= f'.chain && At(v.g, f'.chain, f.fptr, r)
      && SameData(v.g, Data(v, f), Data(v', f'))
      && SameOutside(v.fat, v'.fat, f'.chain)
      && Balanced(v.fat, f.chain, v'.fat, f'.chain)
    ensures HasReserved(v'.fat) ==> HasReserved(v.fat)
  {
    hide Consistent, InFile, FileSector, Room, Data, SameData, Obtained, HasReserved, Behind, AtBoundary, Allocated;
    HasBuffer(v, f);
    if ClusterOf(f.fptr / SS, v.g.csize) < |f.chain| {
      CreateFollows(v, v', f, clust, hint, r);
      AfterFatAccess(v, v', f);
    } else {
      CreateAppends(v, v', f, clust, hint, r);
      AppendedChain(v.fat, f.chain, r, EndMark(v.g));
      AfterGrowth(v, v', f, r);
      DataOfBuffer(v', f, f.chain + [r], if f.chain == [] then r else f.sclust);
    }
  }

  /** The file with a cluster for position `p`, which create_chain has returned; the cursor is where it was. */
  ghost function Longer(v: VolumeValue, f: FileValue, p: nat, r: nat): FileValue {
    WithNext(v, f.(fptr := p), r).(fptr := f.fptr)
  }

  lemma AfterExtend(v: VolumeValue, v': VolumeValue, f: FileValue, p: nat, clust: nat, hint: nat, r: nat)
    requires Consistent(v, f) && f.fptr % SS == 0 && f.fptr <= Room(v.g, f.chain) * SS
    requires AtBoundary(v.g, f.(fptr := p)) && p <= Room(v.g, f.chain) * SS
    requires ValidVolume(v') && v'.g == v.g && |v.fat| == |v'.fat| == v.g.nFatent && clust < v.g.nFatent
    requires if p == 0 then clust == 0 && f.chain == [] else Behind(v.g, f.chain, p, clust)
    requires Obtained(v.g, v.fat, v'.fat, clust, hint, r)
    requires SameData(v.g, v.view, v'.view) && InFat(v.g, v'.winsect)
    ensures var f' := Longer(v, f, p, r);
      && Consistent(v', f') && f.chain <= f'.chain && At(v.g, f'.chain, p, r)
      && SameData(v.g, Data(v, f), Data(v', f'))
      && SameOutside(v.fat, v'.fat, f'.chain)
      && Balanced(v.fat, f.chain, v'.fat, f'.chain)
      && f' == f.(chain := f'.chain, sclust := if f.sclust == 0 then r else f.sclust)
    ensures HasReserved(v'.fat) ==> HasReserved(v.fat)
  {
    hide Consistent, Data, InFile, Behind, At, HasReserved, Obtained, SameOutside, Balanced, SameData, AtBoundary;
    var fp := f.(fptr := p);
    OnBoundary(v.g, fp);
    AfterMove(v, f, p);
    AfterCreate(v, v', fp, clust, hint, r);
    RoomGrows(v.g, f.chain, WithNext(v, fp, r).chain);
    AfterMove(v', WithNext(v, fp, r), f.fptr);
    StartOfNext(v, v', fp, r);
  }

  lemma StartOfNext(v: VolumeValue, v': VolumeValue, f: FileValue, r: nat)
    requires Consistent(v, f) && Consistent(v', WithNext(v, f, r))
    ensures WithNext(v, f, r).sclust == if f.sclust == 0 then r else f.sclust
  {
  }

  /** Clusters are neither made nor lost: what the file has more, is free no longer. */
  ghost predicate Balanced(a: seq<nat>, s: seq<nat>, b: seq<nat>, t: seq<nat>) {
    FreeCount(a) + |s| == FreeCount(b) + |t|
  }

  /** A boundary where the chain has no next cluster is at the end of its room. */
  lemma AtEnd(v: VolumeValue, f: FileValue)
    requires Consistent(v, f) && AtBoundary(v.g, f) && ClusterOf(f.fptr / SS, v.g.csize) >= |f.chain|
    ensures ClusterOf(f.fptr / SS, v.g.csize) == |f.chain|
    ensures EndMark(v.g) >= |v.fat|
  {
    EndMarkEnds(v.g);
    Located(f.fptr / SS, v.g.csize);
    var j := ClusterOf(f.fptr / SS, v.g.csize);
    if j > |f.chain| {
      SpanMono(|f.chain|, j, v.g.csize);
    }
  }

  lemma RoomGrows(g: Geometry, s: seq<nat>, t: seq<nat>)
    requires s <= t
    ensures Room(g, s) <= Room(g, t)
  {
    SpanMono(|s|, |t|, g.csize);
  }

  lemma OnBoundary(g: Geometry, f: FileValue)
    requires AtBoundary(g, f)
    ensures f.fptr % SS == 0
  {
  }

  /** On a boundary past the last cluster, the cursor is at the end of the room. */
  lemma MapEnds(g: Geometry, f: FileValue, clust: nat)
    requires g.csize > 0 && f.fptr > 0 && AtBoundary(g, f) && Behind(g, f.chain, f.fptr, clust)
    ensures f.fptr / SS / g.csize >= |f.chain| ==> f.fptr == Room(g, f.chain) * SS
  {
    var fptr := f.fptr;
    LocatedIsDivision(fptr / SS, g.csize);
    LocatedCross(fptr / SS, g.csize);
    Located(fptr / SS, g.csize);
    assert (fptr - 1) / SS == fptr / SS - 1;
  }

  /** Where no cluster is free and there is none to follow, the cursor is at the end of the room. */
  lemma FullAtEnd(v: VolumeValue, f: FileValue, c: nat)
    requires Consistent(v, f) && AtBoundary(v.g, f)
    requires f.fptr > 0 ==> Behind(v.g, f.chain, f.fptr, c) && InRange(v.fat, c) && v.fat[c] >= |v.fat|
    requires f.fptr == 0 ==> f.chain == []
    ensures f.fptr == Room(v.g, f.chain) * SS
  {
    var j := ClusterOf(f.fptr / SS, v.g.csize);
    if f.fptr > 0 {
      NextCluster(v, f, c);
      assert j < |f.chain| ==> InRange(v.fat, f.chain[j]);
    }
    Located(f.fptr / SS, v.g.csize);
  }

  /** What create_chain is called with is a cluster that it can follow or stretch. */
  lemma CanExtend(v: VolumeValue, f: FileValue, c: nat)
    requires Consistent(v, f) && AtBoundary(v.g, f)
    requires if f.fptr == 0 then c == 0 && f.chain == [] else Behind(v.g, f.chain, f.fptr, c)
    ensures !BadLink(v.fat, c) && c < v.g.nFatent && |v.fat| == v.g.nFatent
    ensures f.fptr > 0 ==> InRange(v.fat, c)
    ensures f.sclust == 0 <==> f.chain == []
  {
    if f.fptr > 0 {
      NextCluster(v, f, c);
    }
  }

  lemma SameOutsideSelf(a: seq<nat>, s: seq<nat>)
    ensures SameOutside(a, a, s)
  {
  }

  lemma AgreeIsElsewhere(g: Geometry, a: seq<Sector>, b: seq<Sector>, s: seq<nat>)
    requires OnVolume(g, s) && AgreeOutsideFat(g, a, b)
    ensures Elsewhere(g, b, a, s)
  {
  }

  /** Writing the file's own sector back changes nothing elsewhere. */
  lemma FlushElsewhere(g: Geometry, t: seq<nat>, a: seq<Sector>, b: seq<Sector>, c: seq<Sector>, x: nat)
    requires OnVolume(g, t) && InFile(g, t, x) && Elsewhere(g, a, b, t) && |c| == |b|
    requires forall y :: 0 <= y < |b| && y != x ==> c[y] == b[y]
    ensures Elsewhere(g, a, c, t)
  {
  }

  lemma ExtentFits(v: VolumeValue, f: FileValue)
    requires Consistent(v, f)
    ensures OnVolume(v.g, f.chain) && f.fsize <= Room(v.g, f.chain) * SS && f.fptr <= Room(v.g, f.chain) * SS
  {
  }

  lemma CleanData(v: VolumeValue, f: FileValue)
    requires Consistent(v, f) && !f.dirty
    ensures Data(v, f) == v.view
  {
  }

  lemma CleanBuf(v: VolumeValue, f: FileValue)
    requires Consistent(v, f) && !f.dirty
    ensures f.dsect != 0 ==> f.dsect < |v.view| && f.buf == v.view[f.dsect]
    ensures v.g.database > 0
  {
  }

  /** Writing to a run of the file's sectors changes nothing elsewhere. */
  lemma RunElsewhere(g: Geometry, a: seq<Sector>, b: seq<Sector>, s: seq<nat>, k: nat, cc: nat)
    requires OnVolume(g, s) && k < Room(g, s) && OffsetIn(k, g.csize) + cc <= g.csize && |a| == |b|
    requires var x := FileSector(g, s, k); forall y :: 0 <= y < |a| && !(x <= y < x + cc) ==> b[y] == a[y]
    ensures Elsewhere(g, a, b, s)
  {
    forall y | g.database <= y < |a| && !InFile(g, s, y)
      ensures b[y] == a[y]
    {
      if FileSector(g, s, k) <= y < FileSector(g, s, k) + cc {
        RunInFile(g, s, k, cc, y);
      }
    }
  }

  /** The cases of a cluster boundary: at the top of the file, with or without clusters, or later. */
  lemma CanFollow(v: VolumeValue, f: FileValue, clust: nat)
    requires Consistent(v, f) && AtBoundary(v.g, f) && Behind(v.g, f.chain, f.fptr, clust)
    ensures f.sclust == 0 <==> f.chain == []
    ensures f.fptr == 0 && f.chain != [] ==> At(v.g, f.chain, f.fptr, f.sclust) && IsCluster(v.g, f.sclust)
    ensures f.fptr > 0 ==> InRange(v.fat, clust) && f.chain != []
    ensures forall j :: 0 <= j < |f.chain| ==> 2 <= f.chain[j] < v.g.nFatent
    ensures var j := ClusterOf(f.fptr / SS, v.g.csize);
      j < |f.chain| ==> At(v.g, f.chain, f.fptr, f.chain[j])
  {
    if f.fptr > 0 {
      NextCluster(v, f, clust);
    }
    assert forall j :: 0 <= j < |f.chain| ==> InRange(v.fat, f.chain[j]);
  }

  /** The other chains of the FAT do not see that one has changed, and changed again. */
  lemma SameOutsideAgain(a: seq<nat>, b: seq<nat>, c: seq<nat>, s: seq<nat>, t: seq<nat>)
    requires SameOutside(a, b, s) && SameOutside(b, c, t) && s <= t
    ensures SameOutside(a, c, t)
  {
    forall x | 0 <= x < |a| && x !in t
      ensures c[x] == a[x]
    {
      assert x !in s;
    }
  }

  /** A direct write of whole sectors, the clean buffer refilled if it is for one of them. */
  ghost function Refilled(f: FileValue, sect: u32, w: seq<byte>): (f': FileValue)
    requires |w| % SS == 0 && 0 <= f.dsect < 0x1_0000_0000
  {
    var t := Sub32(f.dsect, sect);
    if t < |w| / SS then f.(buf := w[t * SS..t * SS + SS], dirty := false) else f
  }

  lemma AfterDirectWrite(v: VolumeValue, v': VolumeValue, f: FileValue, k: nat, cc: nat, w: seq<byte>)
    requires Consistent(v, f) && !f.dirty && f.fptr % SS == 0 && f.dsect < 0x1_0000_0000
    requires k < Room(v.g, f.chain) && 0 < cc && OffsetIn(k, v.g.csize) + cc <= v.g.csize && |w| == cc * SS
    requires v' == v.(view := v'.view) && |v'.view| == |v.view|
    requires var x := FileSector(v.g, f.chain, k);
      && LiesAt(v'.view, x, w)
      && forall s :: 0 <= s < |v.view| && !(x <= s < x + cc) ==> v'.view[s] == v.view[s]
    ensures var x := FileSector(v.g, f.chain, k);
      && x < 0x1_0000_0000
      && Consistent(v', Refilled(f, x, w)) && Data(v', Refilled(f, x, w)) == v'.view
  {
    hide FatOf, LiesAt;
    var x := FileSector(v.g, f.chain, k);
    DataKeepsFat(v.g, v.view, v'.view);
    var t := Sub32(f.dsect, x);
    if t < cc {
      SectorLies(v'.view, x, w, t);
    }
  }

  /** One sector of what lies on the drive. */
  lemma SectorLies(d: seq<Sector>, x: nat, w: seq<byte>, t: nat)
    requires LiesAt(d, x, w) && t * SS + SS <= |w|
    ensures x + t < |d| && d[x + t] == w[t * SS..t * SS + SS]
  {
    var s := d[x + t];
    forall j | 0 <= j < SS
      ensures s[j] == w[t * SS + j]
    {
      assert d[x + (t * SS + j) / SS][(t * SS + j) % SS] == w[t * SS + j];
    }
  }

  /** The buffer is given to the sector at the cursor, to be written to. */
  lemma AfterTake(v: VolumeValue, f: FileValue, b: Sector)
    requires Consistent(v, f) && !f.dirty && f.fptr / SS < Room(v.g, f.chain)
    ensures var x := FileSector(v.g, f.chain, f.fptr / SS);
      var f' := f.(dsect := x, buf := b, dirty := true);
      && Consistent(v, f') && InSector(v.g, f.chain, f.fptr, x)
      && Data(v, f') == Data(v, f)[x := b]
  {
  }

  /** A buffer already for the sector at the cursor may be marked dirty. */
  lemma AfterMark(v: VolumeValue, f: FileValue)
    requires Consistent(v, f) && InSector(v.g, f.chain, f.fptr, f.dsect)
    ensures Consistent(v, f.(dirty := true)) && Data(v, f.(dirty := true)) == Data(v, f)
  {
    BufferHolds(v, f);
    assert Data(v, f.(dirty := true)) == Data(v, f);
  }

  /** Storing bytes in the dirty buffer. */
  lemma AfterPut(v: VolumeValue, f: FileValue, b: Sector)
    requires Consistent(v, f) && f.dirty && InSector(v.g, f.chain, f.fptr, f.dsect)
    ensures f.dsect < |v.view|
    ensures Consistent(v, f.(buf := b)) && Data(v, f.(buf := b)) == Data(v, f)[f.dsect := b]
  {
  }

  /** The size follows a cursor that has passed it. */
  lemma AfterLengthen(v: VolumeValue, f: FileValue, n: nat)
    requires Consistent(v, f) && n <= Room(v.g, f.chain) * SS
    ensures Consistent(v, f.(fsize := n)) && Data(v, f.(fsize := n)) == Data(v, f)
  {
  }

  /**
    Disks that differ in sector `x` at most, and there only in bytes from offset `m` on, which
    the file does not have yet.
  */
  ghost predicate SameButTail(d: seq<Sector>, e: seq<Sector>, x: nat, m: int) {
    && |e| == |d| && x < |d|
    && (forall y :: 0 <= y < |d| && y != x ==> e[y] == d[y])
    && (forall j :: 0 <= j < SS && j < m ==> e[x][j] == d[x][j])
  }

  lemma TailSame(d: seq<Sector>, e: seq<Sector>, x: nat, m: int)
    requires d == e && x < |d|
    ensures SameButTail(d, e, x, m)
  {
  }

  lemma TailLoaded(d: seq<Sector>, e: seq<Sector>, x: nat, b: Sector, m: int)
    requires x < |d| && e == d[x := b] && (m > 0 ==> b == d[x])
    ensures SameButTail(d, e, x, m)
  {
  }

  /** Bytes put into the buffer of a sector are written to the file. */
  lemma PartPut(g: Geometry, d: seq<Sector>, e: seq<Sector>, s: seq<nat>, limit: nat, k: nat, off: nat, w: seq<byte>,
                b: Sector)
    requires |d| == |e| == g.nsect && OnVolume(g, s) && k < Room(g, s) && limit <= Room(g, s) * SS && off + |w| <= SS
    requires SameButTail(d, e, FileSector(g, s, k), limit - k * SS)
    requires b[off..off + |w|] == w && OnlyIn(e[FileSector(g, s, k)], b, off, |w|)
    ensures Wrote(g, d, e[FileSector(g, s, k) := b], s, limit, k * SS + off, w)
  {
    var x := FileSector(g, s, k);
    forall j | 0 <= j < |w|
      ensures b[off + j] == w[j]
    {
      assert b[off..off + |w|][j] == b[off + j];
    }
    PartWrote(g, d, e[x := b], s, limit, k, off, w);
  }

  /** Starting from a disk with the same data makes no difference. */
  lemma WroteFrom(g: Geometry, d0: seq<Sector>, d: seq<Sector>, e: seq<Sector>, s: seq<nat>, limit: nat, at: nat,
                  w: seq<byte>)
    requires |d0| == |d| == |e| == g.nsect && OnVolume(g, s) && SameData(g, d0, d)
    requires Wrote(g, d, e, s, limit, at, w)
    ensures Wrote(g, d0, e, s, limit, at, w)
  {
    forall i | 0 <= i < limit || at <= i < at + |w|
      ensures i / SS < Room(g, s) && FileByte(g, d0, s, i) == FileByte(g, d, s, i)
    {
      SameBytes(g, d0, d, s, i);
    }
  }

  // ---------- Steps of seeking ----------

  /** In bytes: which cluster position `x` is in, and where that cluster begins. */
  lemma ByteCluster(x: nat, csize: nat)
    requires csize > 0
    ensures x / (csize * SS) == ClusterOf(x / SS, csize)
    ensures x - x % (csize * SS) == Span(ClusterOf(x / SS, csize), csize) * SS
  {
    var k, m := x / SS, csize * SS;
    var q, r := ClusterOf(k, csize), OffsetIn(k, csize) * SS + x % SS;
    Located(k, csize);
    SpanIsProduct(q, csize);
    assert q * m == q * csize * SS;
    assert x == q * m + r && r < m;
    DivisionUnique(x, m, q, r);
  }

  /** The cluster of a position before the cursor, at which the cursor is put. */
  lemma BackToCluster(g: Geometry, s: seq<nat>, fptr: nat, clust: nat, p: nat)
    requires OnVolume(g, s) && Behind(g, s, fptr, clust) && fptr > 0
    requires p == Span(ClusterOf((fptr - 1) / SS, g.csize), g.csize) * SS
    ensures p % SS == 0 && p < fptr && p <= Room(g, s) * SS
    ensures At(g, s, p, clust) && OffsetIn(p / SS, g.csize) == 0
  {
    var k := (fptr - 1) / SS;
    var j := ClusterOf(k, g.csize);
    Located(k, g.csize);
    LocatedAt(j, 0, g.csize);
    SpanMono(j, |s|, g.csize);
  }

  /** The same position seen from a cluster before or after it. */
  lemma ClusterOrder(a: nat, b: nat, csize: nat)
    requires csize > 0
    ensures ClusterOf(a, csize) <= ClusterOf(b, csize) ==> Span(ClusterOf(a, csize), csize) <= b
  {
    Located(b, csize);
    if ClusterOf(a, csize) <= ClusterOf(b, csize) {
      SpanMono(ClusterOf(a, csize), ClusterOf(b, csize), csize);
    }
  }

  /** From the beginning of a cluster of the file to the beginning of the next. */
  lemma ToNextCluster(g: Geometry, s: seq<nat>, p: nat, clust: nat)
    requires OnVolume(g, s) && At(g, s, p, clust) && p % SS == 0 && OffsetIn(p / SS, g.csize) == 0
    ensures var q := p + g.csize * SS;
      && q % SS == 0 && q <= Room(g, s) * SS && Behind(g, s, q, clust) && OffsetIn(q / SS, g.csize) == 0
      && ClusterOf(q / SS, g.csize) == ClusterOf(p / SS, g.csize) + 1
  {
    var k := p / SS;
    var j := ClusterOf(k, g.csize);
    Located(k, g.csize);
    assert Span(j + 1, g.csize) == Span(j, g.csize) + g.csize;
    SpanMono(j + 1, |s|, g.csize);
    LocatedAt(j, g.csize - 1, g.csize);
    LocatedAt(j + 1, 0, g.csize);
    assert (p + g.csize * SS) / SS == k + g.csize;
    assert (p + g.csize * SS - 1) / SS == k + g.csize - 1;
  }

  /** Positions from 1 up to the end of the cluster are in it or right behind it. */
  lemma WithinCluster(g: Geometry, s: seq<nat>, p: nat, clust: nat, n: nat)
    requires OnVolume(g, s) && At(g, s, p, clust) && p % SS == 0 && OffsetIn(p / SS, g.csize) == 0
    requires 0 < n <= g.csize * SS
    ensures Behind(g, s, p + n, clust) && p + n <= Room(g, s) * SS
    ensures n % SS != 0 ==>
      var k := (p + n) / SS;
      k < Room(g, s) && FileSector(g, s, k) == Clust2Sect(g, clust) + n / SS
  {
    var k := p / SS;
    var t := (n - 1) / SS;
    assert (p + n - 1) / SS == k + t;
    ClusterBelow(k, |s|, g.csize);
    LocatedNext(k, t, g.csize);
    ClusterBelow(k + t, |s|, g.csize);
    if n % SS != 0 {
      assert (p + n) / SS == k + t && n / SS == t;
    }
  }

  /** A file's contents when its chain, and perhaps its size, have grown. */
  lemma LongerContents(g: Geometry, d: seq<Sector>, e: seq<Sector>, s: seq<nat>, t: seq<nat>, n: nat, m: nat)
    requires |d| == |e| == g.nsect && SameData(g, d, e) && OnVolume(g, t) && OnVolume(g, s) && s <= t
    requires n <= m && n <= Room(g, s) * SS && m <= Room(g, t) * SS
    ensures Contents(g, e, t, m)[..n] == Contents(g, d, s, n)
  {
    forall i | 0 <= i < n
      ensures FileByte(g, e, t, i) == FileByte(g, d, s, i)
    {
      FileSectorPrefix(g, s, t, i / SS);
      SameBytes(g, d, e, t, i);
    }
  }

  lemma FollowsAt(v: VolumeValue, f: FileValue)
    requires Consistent(v, f) && ClusterOf(f.fptr / SS, v.g.csize) < |f.chain|
    ensures At(v.g, f.chain, f.fptr, f.chain[ClusterOf(f.fptr / SS, v.g.csize)])
  {
  }

  lemma TopOfFile(v: VolumeValue, f: FileValue)
    requires Consistent(v, f) && f.fptr == 0
    ensures AtBoundary(v.g, f) && Behind(v.g, f.chain, 0, 0) && OffsetIn(0, v.g.csize) == 0
    ensures f.sclust == 0 <==> f.chain == []
    ensures f.chain != [] ==> At(v.g, f.chain, 0, f.sclust)
  {
    assert f.chain != [] ==> InRange(v.fat, f.chain[0]);
  }

  lemma ClusterAt(g: Geometry, s: seq<nat>, p: nat, clust: nat)
    requires OnVolume(g, s)
    ensures At(g, s, p, clust) ==> IsCluster(g, clust)
  {
  }

  lemma BehindTop(g: Geometry, s: seq<nat>, clust: nat)
    ensures Behind(g, s, 0, clust)
  {
  }

  lemma HasChain(v: VolumeValue, f: FileValue)
    requires Consistent(v, f)
    ensures IsChain(v.fat, f.chain) && f.sclust == if f.chain == [] then 0 else f.chain[0]
  {
  }

  /** The cluster of the byte before position `p` of the file. */
  lemma BehindByte(v: VolumeValue, f: FileValue, p: nat)
    requires Consistent(v, f) && 0 < p <= f.fsize
    ensures var k := (p - 1) / SS; var j := ClusterOf(k, v.g.csize);
      && k < Room(v.g, f.chain) && j < |f.chain| && IsCluster(v.g, f.chain[j])
      && Behind(v.g, f.chain, p, f.chain[j])
      && FileSector(v.g, f.chain, k) == Clust2Sect(v.g, f.chain[j]) + OffsetIn(k, v.g.csize)
      && p <= Room(v.g, f.chain) * SS
  {
    ClusterBelow((p - 1) / SS, |f.chain|, v.g.csize);
  }

  // ---------- Cutting off ----------

  /** The clusters that bytes before a cursor take are some of the file's. */
  lemma KeptFits(v: VolumeValue, f: FileValue, clust: nat)
    requires Consistent(v, f) && Behind(v.g, f.chain, f.fptr, clust) && f.fptr < f.fsize
    ensures IsChain(v.fat, f.chain) && f.chain != [] && f.sclust == f.chain[0]
    ensures f.fptr > 0 ==>
      var k := ClusterOf((f.fptr - 1) / SS, v.g.csize) + 1;
      k <= |f.chain| && clust == f.chain[k - 1]
  {
    ClusterBelow(f.fptr / SS, |f.chain|, v.g.csize);
  }

  /** The file with its first `k` clusters, ending at the cursor, its buffer written back. */
  ghost function CutFile(f: FileValue, k: nat): FileValue
    requires k <= |f.chain|
  {
    f.(chain := f.chain[..k], sclust := if f.fptr == 0 then 0 else f.sclust, fsize := f.fptr, dirty := false)
  }

  ghost predicate KeepsCursor(g: Geometry, f: FileValue, k: nat) {
    k == if f.fptr == 0 then 0 else ClusterOf((f.fptr - 1) / SS, g.csize) + 1
  }

  /** The volume once a dirty buffer has been written to the drive. */
  ghost function Flushed(v: VolumeValue, f: FileValue): VolumeValue
    requires |f.buf| == SS
  {
    if f.dirty && f.dsect < |v.view| then v.(view := v.view[f.dsect := f.buf]) else v
  }

  /** Cutting the chain behind the cursor and flushing leaves a consistent, shorter file. */
  lemma AfterCut(v: VolumeValue, v1: VolumeValue, f: FileValue, k: nat)
    requires Consistent(v, f) && ValidVolume(v1) && v1.g == v.g && k <= |f.chain| && KeepsCursor(v.g, f, k)
    requires SameData(v.g, v.view, v1.view) && WindowOk(v.g, v.winsect, v1.winsect)
    requires CutTo(v.fat, v1.fat, f.chain, k)
    ensures Consistent(Flushed(v1, f), CutFile(f, k))
    ensures SameOutside(v.fat, v1.fat, f.chain)
    ensures HasReserved(v1.fat) ==> HasReserved(v.fat)
    ensures f.dirty ==> v.g.database <= f.dsect < |v1.view| && f.dsect != v1.winsect
  {
    hide FatOf, FileSector, InFile, HasReserved, CutTo, WindowOk, ClusterOf, Span;
    CutChain(v.fat, v1.fat, f.chain, k);
    CutReserved(v.fat, v1.fat, f.chain, k);
    CutRoom(v, f, k);
    CutSectors(v.g, f, k, v1.winsect);
    WindowOutside(v.g, f.chain, v.winsect, v1.winsect);
    if f.dirty {
      DirtySector(v, f);
      DirtyElsewhere(v.g, f, v1.winsect);
      DataKeepsFat(v.g, v1.view, Flushed(v1, f).view);
    }
  }

  /** The sectors of the kept clusters are sectors of the file. */
  lemma CutSectors(g: Geometry, f: FileValue, k: nat, x: nat)
    requires OnVolume(g, f.chain) && k <= |f.chain|
    ensures OnVolume(g, f.chain[..k]) && Room(g, f.chain[..k]) <= Room(g, f.chain)
    ensures !InFile(g, f.chain, x) ==> !InFile(g, f.chain[..k], x)
    ensures f.fptr / SS < Span(k, g.csize) && InSector(g, f.chain, f.fptr, f.dsect) ==>
      InSector(g, f.chain[..k], f.fptr, f.dsect)
  {
    var t := f.chain[..k];
    RoomGrows(g, t, f.chain);
    forall j: nat | j < Room(g, t)
      ensures FileSector(g, t, j) == FileSector(g, f.chain, j)
    {
      FileSectorPrefix(g, t, f.chain, j);
    }
  }

  lemma DirtyElsewhere(g: Geometry, f: FileValue, x: nat)
    requires OnVolume(g, f.chain) && InFile(g, f.chain, f.dsect) && !InFile(g, f.chain, x)
    ensures f.dsect != x
  {
  }

  lemma CutReserved(a: seq<nat>, b: seq<nat>, s: seq<nat>, k: nat)
    requires IsChain(a, s) && k <= |s| && CutTo(a, b, s, k)
    ensures HasReserved(b) ==> HasReserved(a)
  {
    if HasReserved(b) {
      var c :| InRange(b, c) && b[c] == 1;
      CutEntry(a, b, s, k, c);
    }
  }

  /** The kept clusters have room for the bytes before the cursor, and for the cursor's sector in the middle of one. */
  lemma CutRoom(v: VolumeValue, f: FileValue, k: nat)
    requires Consistent(v, f) && k <= |f.chain| && KeepsCursor(v.g, f, k)
    ensures f.fptr <= Span(k, v.g.csize) * SS
    ensures f.fptr % SS != 0 ==> f.fptr / SS < Span(k, v.g.csize)
  {
    if f.fptr > 0 {
      ClusterBelow((f.fptr - 1) / SS, k, v.g.csize);
    }
  }

  lemma CutEntry(a: seq<nat>, b: seq<nat>, s: seq<nat>, k: nat, c: nat)
    requires IsChain(a, s) && k <= |s| && CutTo(a, b, s, k) && InRange(a, c)
    ensures b[c] == 0 || b[c] >= |a| || b[c] == a[c]
  {
    if c in s {
      var i :| 0 <= i < |s| && s[i] == c;
      if i + 1 < k {
        assert c !in s[if k == 0 then 0 else k - 1..];
      }
    }
  }

  /** The bytes before the cursor are the same. */
  lemma CutContents(v: VolumeValue, v1: VolumeValue, f: FileValue, k: nat)
    requires Consistent(v, f) && ValidVolume(v1) && v1.g == v.g && k <= |f.chain| && KeepsCursor(v.g, f, k)
    requires SameData(v.g, v.view, v1.view) && f.fptr <= f.fsize
    requires Consistent(Flushed(v1, f), CutFile(f, k))
    ensures var d := Data(Flushed(v1, f), CutFile(f, k));
      && SameData(v.g, Data(v, f), d)
      && Contents(v.g, d, f.chain[..k], f.fptr) == Contents(v.g, Data(v, f), f.chain, f.fsize)[..f.fptr]
    ensures Elsewhere(v.g, v.view, Flushed(v1, f).view, f.chain)
  {
    hide Consistent, FileSector, InFile, Room, KeepsCursor;
    CutData(v, v1, f, k);
    var d, e, t := Data(Flushed(v1, f), CutFile(f, k)), Data(v, f), f.chain[..k];
    forall i | 0 <= i < f.fptr
      ensures FileByte(v.g, d, t, i) == FileByte(v.g, e, f.chain, i)
    {
      FileSectorPrefix(v.g, t, f.chain, i / SS);
      DataAbove(v.g, f.chain, i / SS);
    }
    assert Contents(v.g, d, t, f.fptr) == Contents(v.g, e, f.chain, f.fsize)[..f.fptr];
  }

  lemma CutData(v: VolumeValue, v1: VolumeValue, f: FileValue, k: nat)
    requires Consistent(v, f) && ValidVolume(v1) && v1.g == v.g && k <= |f.chain| && KeepsCursor(v.g, f, k)
    requires SameData(v.g, v.view, v1.view) && f.fptr <= f.fsize
    requires Consistent(Flushed(v1, f), CutFile(f, k))
    ensures |f.buf| == SS && |CutFile(f, k).buf| == SS
    ensures var d := Data(Flushed(v1, f), CutFile(f, k));
      && SameData(v.g, Data(v, f), d) && OnVolume(v.g, f.chain) && OnVolume(v.g, f.chain[..k])
      && f.fptr <= Room(v.g, f.chain[..k]) * SS && f.fsize <= Room(v.g, f.chain) * SS
      && |d| == |Data(v, f)| == v.g.nsect
    ensures Elsewhere(v.g, v.view, Flushed(v1, f).view, f.chain)
  {
  }

  lemma DataAbove(g: Geometry, s: seq<nat>, k: nat)
    requires OnVolume(g, s) && k < Room(g, s)
    ensures g.database <= FileSector(g, s, k) < g.nsect
  {
  }

  /** The file has only its first `k` clusters left, the others are free, and no other chain is touched. */
  ghost predicate WasCut(a: seq<nat>, s: seq<nat>, b: seq<nat>, t: seq<nat>, k: nat) {
    k <= |s| && t == s[..k] && IsChain(a, s) && CutTo(a, b, s, k) && Balanced(a, s, b, t)
  }

  ghost predicate KeptElsewhere(g: Geometry, a: seq<Sector>, b: seq<Sector>, s: seq<nat>) {
    OnVolume(g, s) && Elsewhere(g, a, b, s)
  }

  /** What is cut off a file is free. */
  lemma CutBalance(a: seq<nat>, b: seq<nat>, s: seq<nat>, k: nat)
    requires IsChain(a, s) && k <= |s| && CutTo(a, b, s, k)
    ensures Balanced(a, s, b, s[..k])
  {
    hide CutTo, FreeBelow;
    var r := s[k..];
    CutTailUsed(a, b, s, k);
    if 0 < k < |s| {
      var c := s[k - 1];
      ChainLinks(a, s, k - 1);
      FreeBelowUpdate(a, |a|, c, b[c]);
      CutTailFree(a, b, s, k);
      FreedCount(a[c := b[c]], b, r);
    } else if k == 0 {
      assert r == s;
      FreedCount(a, b, s);
    } else {
      assert r == [];
    }
  }

  lemma CutTailUsed(a: seq<nat>, b: seq<nat>, s: seq<nat>, k: nat)
    requires IsChain(a, s) && k <= |s| && CutTo(a, b, s, k)
    ensures var r := s[k..];
      && Distinct(r) && |a| == |b|
      && (forall i :: 0 <= i < |r| ==> InRange(a, r[i]) && a[r[i]] != 0 && b[r[i]] == 0)
    ensures k == |s| ==> a == b
    ensures k == 0 ==> forall c :: 0 <= c < |a| && c !in s ==> b[c] == a[c]
  {
    var r := s[k..];
    forall i | 0 <= i < |r|
      ensures r[i] == s[k + i] && InRange(a, r[i]) && a[r[i]] != 0
    {
      ChainLinks(a, s, k + i);
    }
  }

  lemma CutTailFree(a: seq<nat>, b: seq<nat>, s: seq<nat>, k: nat)
    requires IsChain(a, s) && 0 < k < |s| && CutTo(a, b, s, k)
    ensures var c := s[k - 1];
      && InRange(a, c) && c !in s[k..] && b[c] != 0
      && forall x :: 0 <= x < |a| && x !in s[k..] ==> b[x] == a[c := b[c]][x]
  {
    assert s[k - 1..] == [s[k - 1]] + s[k..];
  }

  lemma {:induction false} FreedCount(a: seq<nat>, b: seq<nat>, s: seq<nat>)
    requires |a| == |b| && Distinct(s)
    requires forall i :: 0 <= i < |s| ==> InRange(a, s[i]) && a[s[i]] != 0 && b[s[i]] == 0
    requires forall c :: 0 <= c < |a| && c !in s ==> b[c] == a[c]
    ensures FreeCount(b) == FreeCount(a) + |s|
    decreases |s|
  {
    if s == [] {
      assert a == b;
    } else {
      FreeBelowUpdate(a, |a|, s[0], 0);
      var a1, r := a[s[0] := 0], s[1..];
      assert forall c :: 0 <= c < |a| && c !in r && c != s[0] ==> c !in s;
      FreedCount(a1, b, r);
    }
  }

  lemma BehindCut(g: Geometry, s: seq<nat>, fptr: nat, clust: nat, k: nat)
    requires Behind(g, s, fptr, clust) && k <= |s|
    requires k == if fptr == 0 then 0 else ClusterOf((fptr - 1) / SS, g.csize) + 1
    ensures Behind(g, s[..k], fptr, clust)
  {
  }
}
