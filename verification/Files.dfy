/**
  Open files: reading, writing, seeking and truncating.
*/
module Files {
  import opened Bytes
  import opened Numbers
  import opened Volume
  import opened FatCodec
  import opened Chains
  import opened Allocator
  import opened FileLayout
  import opened FileState
  import opened FastSeek
  import opened DataAccess

  const CREATE_LINKMAP: u32 := 0xFFFF_FFFF

  class File {
    const fs: Fatfs
    const buf: array<byte>     // private sector buffer
    const canRead: bool        // FA_READ
    const canWrite: bool       // FA_WRITE
    var dirty: bool            // FA__DIRTY: buf must be written back
    var written: bool          // FA__WRITTEN: the directory entry must be updated
    var err: FResult           // error that has made the file unusable
    var fptr: u32
    var fsize: u32
    var sclust: u32            // first cluster, 0: none
    var clust: u32             // current cluster
    var dsect: u32             // sector in buf
    var cltbl: array?<u32>     // link map, null: normal mode
    ghost var chain: seq<nat>  // clusters of the file
    ghost var mapped: seq<nat> // clusters in the link map

    ghost function Value(): FileValue
      reads this, buf
    {
      FileValue(chain, sclust, fptr, fsize, dirty, dsect, buf[..])
    }

    ghost function Vol(): VolumeValue
      requires fs.Valid()
      reads fs, fs.win
    {
      VolumeValue(fs.g, fs.View(), Fat(fs), fs.winsect)
    }

    /** What holds throughout an operation, until it meets an error. */
    ghost predicate Sane()
      reads this, buf, fs, fs.win
    {
      && fs.Valid() && buf.Length == SS && buf != fs.win
      && Consistent(Vol(), Value())
      && !HasReserved(Fat(fs))
    }

    /** What holds between operations. After an error, nothing is claimed of the file. */
    ghost predicate Valid()
      reads this, buf, fs, fs.win
    {
      && fs.Valid() && buf.Length == SS && buf != fs.win
      && (err == Ok ==> Sane() && fptr <= fsize && Behind(fs.g, chain, fptr, clust))
    }

    /** The disk with this file's dirty buffer on it. */
    ghost function FileData(): (d: seq<Sector>)
      requires fs.Valid() && buf.Length == SS
      reads this, buf, fs, fs.win
      ensures |d| == fs.g.nsect
    {
      Data(Vol(), Value())
    }

    /** The contents of the file, as long as it is usable. */
    ghost function Text(): (c: seq<byte>)
      reads this, buf, fs, fs.win
    {
      if Sane() then
        SizeFits(Vol(), Value());
        Contents(fs.g, FileData(), chain, fsize)
      else []
    }

    /** The link map, if there is one, is that of the file, or of a file without clusters. */
    ghost predicate TableReady()
      reads this, cltbl
    {
      cltbl != null ==>
        && Maps(cltbl[..], mapped) && (mapped == chain || mapped == [])
        && cltbl as object != buf && cltbl as object != fs.win
    }

    /** The file object of an existing file, whose directory entry is in the window. */
    constructor (fs: Fatfs, sclust: u32, fsize: u32, canRead: bool, canWrite: bool, ghost chain: seq<nat>)
      requires fs.Valid() && !HasReserved(Fat(fs)) && IsChain(Fat(fs), chain)
      requires sclust == if chain == [] then 0 else chain[0]
      requires OnVolume(fs.g, chain) && fsize <= Room(fs.g, chain) * SS && !InFile(fs.g, chain, fs.winsect)
      ensures Valid() && err == Ok && TableReady() && fresh(buf)
      ensures this.fs == fs && this.canRead == canRead && this.canWrite == canWrite
      ensures this.chain == chain && this.fsize == fsize && fptr == 0 && cltbl == null && !dirty
      ensures Sane() && Text() == Contents(fs.g, fs.View(), chain, fsize)
    {
      this.fs := fs;
      this.buf := new byte[SS];
      this.canRead, this.canWrite := canRead, canWrite;
      this.dirty, this.written, this.err := false, false, Ok;
      this.fptr, this.fsize, this.sclust, this.clust, this.dsect := 0, fsize, sclust, 0, 0;
      this.cltbl := null;
      this.chain, this.mapped := chain, [];
    }

    // ---------- The buffer ----------

    /** Write the dirty buffer back. */
    method FlushBuf() returns (ok: bool)
      requires Sane() && dirty
      modifies fs`disk, fs`faults, this`dirty
      ensures fs.Valid() && fs.Steady() && (ok <==> fs.faults == old(fs.faults))
      ensures ok ==>
        && Sane() && !dirty && FileData() == old(FileData())
        && Vol() == old(Vol()).(view := fs.View())
      ensures forall s :: 0 <= s < |fs.View()| && s != dsect ==> fs.View()[s] == old(fs.View())[s]
      ensures |fs.View()| == |old(fs.View())| && InFile(fs.g, chain, dsect)
    {
      hide FatOf;
      ghost var v, f := Vol(), Value();
      DirtySector(v, f);
      ok := WriteData(fs, buf[..], dsect);
      if ok {
        assert fs.View()[dsect] == buf[..];
        assert fs.View() == v.view[dsect := buf[..]];
        AfterFlush(v, Vol(), f);
        dirty := false;
        assert Value() == f.(dirty := false);
      }
    }

    /** Fill the clean buffer with sector `k` of the file. */
    method FillBuf(sect: u32, ghost k: nat) returns (ok: bool)
      requires Sane() && !dirty && k < Room(fs.g, chain) && sect == FileSector(fs.g, chain, k)
      requires k == fptr / SS || fptr % SS == 0
      modifies fs`faults, this`dsect, buf
      ensures fs.Valid() && fs.Steady() && (ok <==> fs.faults == old(fs.faults))
      ensures fs.View() == old(fs.View()) && Fat(fs) == old(Fat(fs))
      ensures ok ==> Sane() && dsect == sect && FileData() == old(FileData())
    {
      hide FatOf, Consistent, FileSector, Data, InFile;
      ghost var v, f := Vol(), Value();
      Located(k, fs.g.csize);
      RunClear(v, f, k, 1);
      AfterLoad(v, f, k);
      var data;
      ok, data := ReadData(fs, sect, 1);
      CopyInto(buf, 0, data);
      if ok {
        assert v.view[sect] == data;
        dsect := sect;
        assert Value() == f.(dsect := sect, buf := data);
        assert Vol() == v;
      }
    }

    /** Bring sector `k` of the file into the buffer. */
    method LoadBuf(sect: u32, ghost k: nat) returns (ok: bool)
      requires Sane() && k < Room(fs.g, chain) && sect == FileSector(fs.g, chain, k)
      requires k == fptr / SS || fptr % SS == 0
      modifies fs`disk, fs`faults, this`dirty, this`dsect, buf
      ensures fs.Valid() && fs.Steady() && (ok <==> fs.faults == old(fs.faults))
      ensures ok ==> Sane() && dsect == sect && FileData() == old(FileData()) && Fat(fs) == old(Fat(fs))
      ensures Elsewhere(fs.g, old(fs.View()), fs.View(), chain)
    {
      hide FatOf, Consistent, FileSector, Data, InFile;
      ok := true;
      if dsect != sect {
        if dirty {
          ok := FlushBuf();
          if !ok { return; }
        }
        ok := FillBuf(sect, k);
      }
    }

    // ---------- f_read ----------

    /** The link map belongs to the file as it was when it had no clusters. */
    ghost predicate Stale()
      reads this
    {
      cltbl != null && mapped != chain
    }

    /** The cluster at the cursor, on a cluster boundary. */
    method FollowForRead() returns (clst: u32)
      requires Sane() && TableReady() && Behind(fs.g, chain, fptr, clust)
      requires fptr % SS == 0 && OffsetIn(fptr / SS, fs.g.csize) == 0 && fptr < fsize
      modifies fs`disk, fs`wflag, fs`faults, fs`winsect, fs.win
      ensures Sane() && fs.Steady() && Fat(fs) == old(Fat(fs))
      ensures AgreeOutsideFat(fs.g, fs.View(), old(fs.View()))
      ensures SameData(fs.g, FileData(), old(FileData()))
      ensures if clst == DISK_ERROR then fs.faults > old(fs.faults)
              else At(fs.g, chain, fptr, clst) || (clst == 0 && Stale())
    {
      hide FatOf, Consistent, FileSector, Data, InFile;
      ghost var v, f := Vol(), Value();
      OnVolumeNow(v, f);
      BelowSize(v, f);
      if fptr == 0 {
        clst := sclust;
        FirstCluster(v, f);
      } else {
        NextCluster(v, f, clust);
        if cltbl != null {
          LocatedIsDivision(fptr / SS, fs.g.csize);
          clst := ClmtClust(cltbl, fptr / SS / fs.g.csize, mapped);
        } else {
          clst := GetFat(fs, clust);
        }
      }
      AgreeIsOutside(fs.g, v.view, fs.View());
      AfterFatAccess(v, Vol(), f);
    }

    /** The cluster for reading at a sector boundary. */
    method ClusterForRead(csect: nat) returns (res: FResult)
      requires Sane() && TableReady() && Behind(fs.g, chain, fptr, clust) && fptr % SS == 0 && fptr < fsize
      requires csect == OffsetIn(fptr / SS, fs.g.csize)
      modifies fs`disk, fs`wflag, fs`faults, fs`winsect, fs.win, this`clust
      ensures Sane() && fs.Steady() && Fat(fs) == old(Fat(fs)) && OnVolume(fs.g, chain)
      ensures AgreeOutsideFat(fs.g, fs.View(), old(fs.View()))
      ensures SameData(fs.g, FileData(), old(FileData()))
      ensures res == Ok ==> At(fs.g, chain, fptr, clust)
      ensures res != Ok ==> (res == DiskErr && fs.faults > old(fs.faults)) || (res == IntErr && Stale())
    {
      hide FatOf, Consistent, FileSector, Data, InFile, Behind, At, HasReserved, OnVolume;
      res := Ok;
      OnVolumeNow(Vol(), Value());
      if csect == 0 {
        var clst := FollowForRead();
        OnVolumeNow(Vol(), Value());
        if clst == DISK_ERROR { return DiskErr; }
        if clst < 2 {
          NotBelow2(fs.g, Value(), clst);
          return IntErr;
        }
        clust := clst;
      } else {
        OffsetAtZero(fs.g.csize);
        SameCluster(Vol(), Value(), clust);
      }
    }

    /** At a sector boundary: find the sector at the cursor and how far into its cluster it is. */
    method EnterForRead() returns (res: FResult, sect: u32, csect: nat)
      requires Sane() && TableReady() && Behind(fs.g, chain, fptr, clust) && fptr % SS == 0 && fptr < fsize
      modifies fs`disk, fs`wflag, fs`faults, fs`winsect, fs.win, this`clust
      ensures Sane() && fs.Steady() && Fat(fs) == old(Fat(fs))
      ensures AgreeOutsideFat(fs.g, fs.View(), old(fs.View()))
      ensures SameData(fs.g, FileData(), old(FileData()))
      ensures res == Ok ==>
        && At(fs.g, chain, fptr, clust)
        && fptr / SS < Room(fs.g, chain) && sect == FileSector(fs.g, chain, fptr / SS)
        && csect == OffsetIn(fptr / SS, fs.g.csize)
      ensures res != Ok ==> (res == DiskErr && fs.faults > old(fs.faults)) || (res == IntErr && Stale())
    {
      hide FatOf, Consistent, FileSector, Data, InFile, Behind, At, BitAnd, HasReserved;
      sect := 0;
      csect := BitAnd(fptr / SS, fs.g.csize - 1);
      ClusterMasks(fptr / SS, fs.g.csize);
      res := ClusterForRead(csect);
      if res != Ok { return; }
      AtRoom(fs.g, Value(), clust);
      ClusterSectors(fs.g, clust);
      sect := Clust2Sect(fs.g, clust);
      if sect == 0 { assert false; }
      sect := sect + csect;
    }

    /** Read whole sectors of a cluster straight into the caller's buffer. */
    method ReadDirect(rbuff: array<byte>, off: nat, sect: u32, cc: nat) returns (ok: bool)
      requires Sane() && rbuff != buf && rbuff != fs.win && off + cc * SS <= rbuff.Length
      requires fptr % SS == 0 && fptr / SS < Room(fs.g, chain) && sect == FileSector(fs.g, chain, fptr / SS)
      requires 0 < cc && OffsetIn(fptr / SS, fs.g.csize) + cc <= fs.g.csize
      modifies fs`faults, rbuff
      ensures fs.Valid() && fs.Steady() && (ok <==> fs.faults == old(fs.faults))
      ensures Sane() && fs.View() == old(fs.View()) && Fat(fs) == old(Fat(fs)) && FileData() == old(FileData())
      ensures OnlyIn(old(rbuff[..]), rbuff[..], off, cc * SS)
      ensures ok ==> Holds(fs.g, FileData(), chain, fptr, rbuff[off..off + cc * SS])
    {
      hide FatOf, Consistent, FileSector, Data, InFile, Holds, LiesAt, Overlay, OnlyIn, HasReserved;
      ghost var was := rbuff[..];
      ghost var v, f := Vol(), Value();
      OnVolumeNow(v, f);
      RunClear(v, f, fptr / SS, cc);
      Whole(cc);
      ghost var data;
      ok, data := ReadInto(rbuff, off, sect, cc);
      if ok {
        ghost var mid := rbuff[..];
        PutBufOver(rbuff, off, sect, cc, data);
        OnlyInTwice(was, mid, rbuff[..], off, cc * SS, off, cc * SS);
        assert Vol() == v && Value() == f;
        OverlayLies(v, f, sect, data);
        SectorsHold(fs.g, FileData(), chain, fptr / SS, cc, Overlay(data, sect, f));
      }
    }

    /** Read sectors from the drive into the caller's buffer. */
    method ReadInto(rbuff: array<byte>, off: nat, sect: u32, cc: nat) returns (ok: bool, ghost data: seq<byte>)
      requires fs.Valid() && rbuff != fs.win && off + cc * SS <= rbuff.Length && ClearOf(fs.winsect, sect, cc)
      modifies fs`faults, rbuff
      ensures fs.Valid() && fs.Steady() && (ok <==> fs.faults == old(fs.faults))
      ensures fs.View() == old(fs.View()) && Fat(fs) == old(Fat(fs))
      ensures |data| == cc * SS && (ok ==> LiesAt(fs.View(), sect, data))
      ensures rbuff[off..off + cc * SS] == data && OnlyIn(old(rbuff[..]), rbuff[..], off, cc * SS)
    {
      hide FatOf, LiesAt, OnlyIn;
      var d;
      ok, d := ReadData(fs, sect, cc);
      CopyInto(rbuff, off, d);
      data := d;
    }

    /** Put the dirty buffer over what was read of its sector. */
    method PutBufOver(rbuff: array<byte>, off: nat, sect: u32, cc: nat, ghost data: seq<byte>)
      requires buf.Length == SS && rbuff != buf && rbuff != fs.win
      requires |data| == cc * SS && off + |data| <= rbuff.Length && rbuff[off..off + |data|] == data
      modifies rbuff
      ensures rbuff[off..off + |data|] == Overlay(data, sect, Value())
      ensures OnlyIn(old(rbuff[..]), rbuff[..], off, |data|)
    {
      hide OnlyIn;
      ghost var a := rbuff[..];
      var t := Sub32(dsect, sect);
      if dirty && t < cc {
        CopyInto(rbuff, off + t * SS, buf[..]);
        OverlayPut(a, rbuff[..], off, data, sect, Value(), t * SS);
      } else {
        OnlyInNothing(a, off, |data|);
      }
    }

    /** Copy from the buffer, which holds the sector at the cursor. */
    method ReadPart(rbuff: array<byte>, off: nat, n: nat)
      requires Sane() && rbuff != buf && rbuff != fs.win && off + n <= rbuff.Length
      requires InSector(fs.g, chain, fptr, dsect) && fptr % SS + n <= SS
      modifies rbuff
      ensures Sane() && fs.View() == old(fs.View()) && Fat(fs) == old(Fat(fs)) && FileData() == old(FileData())
      ensures OnlyIn(old(rbuff[..]), rbuff[..], off, n)
      ensures Holds(fs.g, FileData(), chain, fptr, rbuff[off..off + n])
    {
      hide FatOf, Consistent, FileSector, Data, InFile, Holds;
      ghost var v, f := Vol(), Value();
      OnVolumeNow(v, f);
      BufferHolds(v, f);
      CopyInto(rbuff, off, buf[fptr % SS..fptr % SS + n]);
      assert Vol() == v && Value() == f;
      PartHolds(fs.g, FileData(), chain, fptr / SS, fptr % SS, n);
    }

    /** Move the cursor on within the current cluster. */
    method Advance(n: u32)
      requires Sane() && At(fs.g, chain, fptr, clust) && n > 0 && fptr + n < 0x1_0000_0000
      requires fptr % SS + n <= (fs.g.csize - OffsetIn(fptr / SS, fs.g.csize)) * SS
      requires (fptr + n) % SS == 0 || (InSector(fs.g, chain, fptr, dsect) && fptr % SS + n < SS)
      modifies this`fptr
      ensures Sane() && Behind(fs.g, chain, fptr, clust) && fptr == old(fptr) + n
      ensures FileData() == old(FileData())
    {
      hide FatOf, Consistent, FileSector, Data, InFile, Behind, At, InSector;
      ghost var v, f := Vol(), Value();
      OnVolumeNow(v, f);
      Advanced(fs.g, f, clust, n);
      StaysInSector(v, f, n);
      AfterMove(v, f, fptr + n);
      fptr := fptr + n;
      assert Value() == f.(fptr := fptr);
    }

    /** Read as many whole sectors as are asked for, up to the end of the cluster. */
    method ReadWhole(rbuff: array<byte>, off: nat, btr: u32, sect: u32, csect: nat) returns (res: FResult, rcnt: u32)
      requires Sane() && At(fs.g, chain, fptr, clust) && rbuff != buf && rbuff != fs.win
      requires fptr % SS == 0 && fptr / SS < Room(fs.g, chain) && sect == FileSector(fs.g, chain, fptr / SS)
      requires csect == OffsetIn(fptr / SS, fs.g.csize)
      requires SS <= btr && fptr + btr < 0x1_0000_0000 && off + btr <= rbuff.Length
      modifies fs`faults, this`fptr, rbuff
      ensures fs.Valid() && fs.Steady()
      ensures res == Ok ==>
        && Sane() && Behind(fs.g, chain, fptr, clust) && Fat(fs) == old(Fat(fs)) && fs.View() == old(fs.View())
        && 0 < rcnt <= btr && fptr == old(fptr) + rcnt && FileData() == old(FileData())
        && Holds(fs.g, FileData(), chain, old(fptr), rbuff[off..off + rcnt])
      ensures res == Ok ==> OnlyIn(old(rbuff[..]), rbuff[..], off, rcnt)
      ensures res != Ok ==> res == DiskErr && fs.faults > old(fs.faults)
    {
      hide FatOf, Consistent, FileSector, Data, InFile, Behind, At, Holds, LiesAt;
      res, rcnt := Ok, 0;
      OnVolumeNow(Vol(), Value());
      var cc := btr / SS;
      if csect + cc > fs.g.csize {
        cc := fs.g.csize - csect;
      }
      var ok := ReadDirect(rbuff, off, sect, cc);
      if !ok { res := DiskErr; return; }
      rcnt := SS * cc;
      Advance(rcnt);
    }

    /** Read up to the end of the sector at the cursor, which is in the buffer. */
    method ReadOn(rbuff: array<byte>, off: nat, btr: u32) returns (rcnt: u32)
      requires Sane() && At(fs.g, chain, fptr, clust) && InSector(fs.g, chain, fptr, dsect)
      requires rbuff != buf && rbuff != fs.win && 0 < btr && fptr + btr < 0x1_0000_0000 && off + btr <= rbuff.Length
      modifies this`fptr, rbuff
      ensures Sane() && Behind(fs.g, chain, fptr, clust) && Fat(fs) == old(Fat(fs)) && fs.View() == old(fs.View())
      ensures 0 < rcnt <= btr && fptr == old(fptr) + rcnt && FileData() == old(FileData())
      ensures Holds(fs.g, FileData(), chain, old(fptr), rbuff[off..off + rcnt])
      ensures OnlyIn(old(rbuff[..]), rbuff[..], off, rcnt)
    {
      hide FatOf, Consistent, FileSector, Data, InFile, Behind, At, Holds, HasReserved, OnlyIn, InSector;
      OnVolumeNow(Vol(), Value());
      Located(fptr / SS, fs.g.csize);
      rcnt := SS - fptr % SS;
      if rcnt > btr { rcnt := btr; }
      ReadPart(rbuff, off, rcnt);
      Advance(rcnt);
    }

    /** Read at a sector boundary, at a sector that is known: whole sectors, or part of one. */
    method ReadAt(rbuff: array<byte>, off: nat, btr: u32, sect: u32, csect: nat) returns (res: FResult, rcnt: u32)
      requires Sane() && At(fs.g, chain, fptr, clust) && rbuff != buf && rbuff != fs.win
      requires fptr % SS == 0 && fptr / SS < Room(fs.g, chain) && sect == FileSector(fs.g, chain, fptr / SS)
      requires csect == OffsetIn(fptr / SS, fs.g.csize)
      requires 0 < btr && fptr + btr < 0x1_0000_0000 && off + btr <= rbuff.Length
      modifies fs`disk, fs`faults, this`dirty, this`dsect, this`fptr, buf, rbuff
      ensures fs.Valid() && fs.Steady()
      ensures res == Ok ==>
        && Sane() && Behind(fs.g, chain, fptr, clust) && Fat(fs) == old(Fat(fs))
        && 0 < rcnt <= btr && fptr == old(fptr) + rcnt && FileData() == old(FileData())
        && Elsewhere(fs.g, old(fs.View()), fs.View(), chain)
        && Holds(fs.g, FileData(), chain, old(fptr), rbuff[off..off + rcnt])
      ensures res == Ok ==> OnlyIn(old(rbuff[..]), rbuff[..], off, rcnt)
      ensures res != Ok ==> res == DiskErr && fs.faults > old(fs.faults)
    {
      hide FatOf, Consistent, FileSector, Data, InFile, Behind, At, Holds, HasReserved, OnlyIn, Elsewhere;
      res, rcnt := Ok, 0;
      OnVolumeNow(Vol(), Value());
      SameIsElsewhere(fs.g, fs.View(), fs.View(), chain);
      if btr / SS > 0 {
        res, rcnt := ReadWhole(rbuff, off, btr, sect, csect);
        return;
      }
      var ok := LoadBuf(sect, fptr / SS);
      if !ok { return DiskErr, 0; }
      rcnt := ReadOn(rbuff, off, btr);
    }

    /** One round of reading: up to the end of the sector, or whole sectors up to the end of the cluster. */
    method ReadChunk(rbuff: array<byte>, off: nat, btr: u32) returns (res: FResult, rcnt: u32)
      requires Sane() && TableReady() && Behind(fs.g, chain, fptr, clust)
      requires rbuff != buf && rbuff != fs.win && rbuff as object != cltbl
      requires 0 < btr && fptr + btr <= fsize && off + btr <= rbuff.Length
      modifies fs`disk, fs`wflag, fs`faults, fs`winsect, fs.win, this`clust
      modifies this`dirty, this`dsect, this`fptr, buf, rbuff
      ensures fs.Valid() && fs.Steady()
      ensures res == Ok ==>
        && Sane() && Behind(fs.g, chain, fptr, clust) && Fat(fs) == old(Fat(fs))
        && 0 < rcnt <= btr && fptr == old(fptr) + rcnt
        && SameData(fs.g, old(FileData()), FileData())
        && Elsewhere(fs.g, old(fs.View()), fs.View(), chain)
        && Holds(fs.g, FileData(), chain, old(fptr), rbuff[off..off + rcnt])
      ensures res == Ok ==> OnlyIn(old(rbuff[..]), rbuff[..], off, rcnt)
      ensures res != Ok ==> (res == DiskErr && fs.faults > old(fs.faults)) || (res == IntErr && Stale())
    {
      hide FatOf, Consistent, FileSector, Data, InFile, Behind, At, Holds, Maps, HasReserved, OnlyIn, Elsewhere;
      res, rcnt := Ok, 0;
      ghost var v0 := fs.View();
      OnVolumeNow(Vol(), Value());
      SameIsElsewhere(fs.g, v0, v0, chain);
      if fptr % SS == 0 {
        var sect, csect;
        res, sect, csect := EnterForRead();
        if res != Ok { return; }
        ghost var v1 := fs.View();
        AgreeIsElsewhere(fs.g, v1, v0, chain);
        res, rcnt := ReadAt(rbuff, off, btr, sect, csect);
        if res != Ok { return; }
        ElsewhereAgain(fs.g, v0, v1, fs.View(), chain, chain);
      } else {
        MidSector(Vol(), Value(), clust);
        rcnt := ReadOn(rbuff, off, btr);
      }
    }

    /** The loop of f_read, for bytes that are there. */
    method ReadAll(rbuff: array<byte>, btr0: u32) returns (res: FResult, br: u32)
      requires Sane() && TableReady() && Behind(fs.g, chain, fptr, clust)
      requires rbuff != buf && rbuff != fs.win && rbuff as object != cltbl
      requires fptr + btr0 <= fsize && btr0 <= rbuff.Length
      modifies fs`disk, fs`wflag, fs`faults, fs`winsect, fs.win, this`clust
      modifies this`dirty, this`dsect, this`fptr, buf, rbuff
      ensures fs.Valid() && fs.Steady() && TableReady() && br <= btr0
      ensures res == Ok ==>
        && Sane() && Behind(fs.g, chain, fptr, clust) && Fat(fs) == old(Fat(fs))
        && br == btr0 && fptr == old(fptr) + br
        && SameData(fs.g, old(FileData()), FileData())
        && Elsewhere(fs.g, old(fs.View()), fs.View(), chain)
        && Holds(fs.g, FileData(), chain, old(fptr), rbuff[..br])
      ensures res == Ok ==> OnlyIn(old(rbuff[..]), rbuff[..], 0, br)
      ensures res != Ok ==> (res == DiskErr && fs.faults > old(fs.faults)) || (res == IntErr && Stale())
    {
      hide FatOf, Consistent, FileSector, Data, InFile, Behind, Holds, Maps, FileByte;
      res, br := Ok, 0;
      var btr := btr0;
      ghost var d0, v0, p0, was := FileData(), fs.View(), fptr, rbuff[..];
      OnVolumeNow(Vol(), Value());
      NoneHeld(fs.g, d0, chain, p0);
      SameIsElsewhere(fs.g, v0, v0, chain);
      while btr > 0
        invariant Sane() && Behind(fs.g, chain, fptr, clust) && fs.Steady() && TableReady()
        invariant res == Ok && Fat(fs) == old(Fat(fs))
        invariant fptr == p0 + br && br + btr == btr0
        invariant SameData(fs.g, d0, FileData())
        invariant Elsewhere(fs.g, v0, fs.View(), chain)
        invariant Holds(fs.g, FileData(), chain, p0, rbuff[..br])
        invariant OnlyIn(was, rbuff[..], 0, br)
        decreases btr
      {
        ghost var d1, v1, w, mid := FileData(), fs.View(), rbuff[..br], rbuff[..];
        var rcnt;
        res, rcnt := ReadChunk(rbuff, br, btr);
        if res != Ok { return; }
        ElsewhereAgain(fs.g, v0, v1, fs.View(), chain, chain);
        HoldsSame(fs.g, d1, FileData(), chain, p0, w);
        HoldsMore(fs.g, FileData(), chain, p0, w, rbuff[br..br + rcnt]);
        OnlyInNext(was, mid, rbuff[..], br, rcnt);
        assert rbuff[..br + rcnt] == rbuff[..][..br + rcnt] && rbuff[br..br + rcnt] == rbuff[..][br..br + rcnt];
        br, btr := br + rcnt, btr - rcnt;
      }
    }

    /** f_read on a usable file that is open for reading, up to the error it may meet. */
    method ReadUsable(rbuff: array<byte>, btr: u32) returns (res: FResult, br: u32)
      requires Sane() && fptr <= fsize && Behind(fs.g, chain, fptr, clust) && TableReady()
      requires rbuff != buf && rbuff != fs.win && rbuff as object != cltbl && btr <= rbuff.Length
      modifies fs`disk, fs`wflag, fs`faults, fs`winsect, fs.win, this`clust
      modifies this`dirty, this`dsect, this`fptr, buf, rbuff
      ensures fs.Valid() && TableReady() && fs.Steady() && br <= btr
      ensures res == Ok ==>
        && Sane() && fptr <= fsize && Behind(fs.g, chain, fptr, clust)
        && Text() == old(Text()) && Fat(fs) == old(Fat(fs))
        && DidRead(old(Text()), old(fptr), btr, br, old(rbuff[..]), rbuff[..]) && fptr == old(fptr) + br
        && ElsewhereSame(old(fs.View()), fs.View())
      ensures res != Ok ==> (res == DiskErr && fs.faults > old(fs.faults)) || (res == IntErr && Stale())
    {
      hide FatOf, Consistent, FileSector, Data, InFile, Behind, Holds, Maps, FileByte, Contents, Elsewhere, SameData;
      ghost var d0, p0, was := FileData(), fptr, rbuff[..];
      SizeFits(Vol(), Value());
      var remain := fsize - fptr;
      var n := if btr > remain then remain else btr;
      res, br := ReadAll(rbuff, n);
      if res == Ok {
        SizeFits(Vol(), Value());
        SameContents(fs.g, d0, FileData(), chain, fsize);
        HoldsText(fs.g, FileData(), chain, fsize, p0, rbuff[..br]);
        assert rbuff[..] == rbuff[..br] + was[br..];
      }
    }

    /** Read up to `btr` bytes from the cursor on into the caller's buffer. */
    method Read(rbuff: array<byte>, btr: u32) returns (res: FResult, br: u32)
      requires Valid() && TableReady()
      requires rbuff != buf && rbuff != fs.win && rbuff as object != cltbl && btr <= rbuff.Length
      modifies fs`disk, fs`wflag, fs`faults, fs`winsect, fs.win, this`clust, this`dirty
      modifies this`dsect, this`fptr, this`err, buf, rbuff
      ensures Valid() && TableReady() && fs.Steady() && br <= btr
      ensures old(err) != Ok ==> res == err == old(err) && br == 0
      ensures old(err) == Ok && !canRead ==> res == Denied && br == 0 && unchanged(this, fs, fs.win, buf, rbuff)
      ensures old(err) == Ok && canRead && res == Ok ==>
        && err == Ok && Text() == old(Text()) && Fat(fs) == old(Fat(fs))
        && DidRead(old(Text()), old(fptr), btr, br, old(rbuff[..]), rbuff[..]) && fptr == old(fptr) + br
        && ElsewhereSame(old(fs.View()), fs.View())
      ensures old(err) == Ok && canRead && res != Ok ==>
        && err == res
        && ((res == DiskErr && fs.faults > old(fs.faults)) || (res == IntErr && Stale()))
    {
      hide FatOf, Consistent, Data, Behind, Maps, Contents, Elsewhere, OnVolume, DidRead, HasReserved;
      br := 0;
      if err != Ok { return err, 0; }
      if !canRead { return Denied, 0; }
      res, br := ReadUsable(rbuff, btr);
      if res != Ok {
        err := res;
      }
    }

    /** What is not the file's is as it was. */
    ghost predicate ElsewhereSame(a: seq<Sector>, b: seq<Sector>)
      reads this
    {
      OnVolume(fs.g, chain) && Elsewhere(fs.g, a, b, chain)
    }

    // ---------- f_write ----------

    /** No cluster is free. */
    ghost predicate NoneFree()
      requires fs.Valid()
      reads fs, fs.win
    {
      FreeCount(Fat(fs)) == 0
    }

    /**
      All the room of the file's clusters is behind the cursor, and it gets no more: none is free,
      or the link map ends.
    */
    ghost predicate Full()
      requires fs.Valid()
      reads this, fs, fs.win
    {
      (NoneFree() || cltbl != null) && (fptr == Room(fs.g, chain) * SS || Stale())
    }

    /**
      Go to the cluster that create_chain gives for `c`: the one at position `p`, where `c` is the
      cluster before it, or 0 at the top of a file without clusters.
    */
    method Extend(c: u32, ghost p: nat) returns (clst: u32)
      requires Sane() && fptr % SS == 0 && p <= Room(fs.g, chain) * SS && AtBoundary(fs.g, Value().(fptr := p))
      requires if p == 0 then c == 0 && chain == [] else Behind(fs.g, chain, p, c)
      modifies fs, fs.win, this`clust, this`sclust, this`chain
      ensures fs.Valid() && fs.Steady() && clst != 1
      ensures clst == DISK_ERROR ==> fs.faults > old(fs.faults)
      ensures clst != DISK_ERROR ==>
        && Sane() && AgreeOutsideFat(fs.g, fs.View(), old(fs.View()))
        && SameData(fs.g, old(FileData()), FileData())
        && old(chain) <= chain && SameOutside(old(Fat(fs)), Fat(fs), chain)
        && Balanced(old(Fat(fs)), old(chain), Fat(fs), chain)
        && CountKept(old(fs.freeClust), old(Fat(fs)), fs.freeClust, Fat(fs))
      ensures clst == 0 ==> chain == old(chain) && sclust == old(sclust) && clust == old(clust) && NoneFree()
      ensures clst == 0 && Behind(fs.g, chain, p, c) ==> p == Room(fs.g, chain) * SS
      ensures 2 <= clst < DISK_ERROR ==> clust == clst && At(fs.g, chain, p, clust)
    {
      hide FatOf, Consistent, FileSector, Data, InFile, Behind, At, HasReserved, Obtained, AtBoundary, FreeBelow,
        SameOutside, SameData, IsChain, Longer;
      ghost var v, f, hint := Vol(), Value(), fs.lastClust;
      ghost var fp := f.(fptr := p);
      ExtentFits(v, f);
      OnBoundary(fs.g, fp);
      AfterMove(v, f, p);
      CanExtend(v, fp, c);
      SameOutsideSelf(v.fat, chain);
      clst := CreateChain(fs, c);
      if clst == DISK_ERROR { return; }
      AgreeIsSameData(fs.g, v.view, fs.View());
      if clst == 0 {
        FreeExists(Fat(fs), fs.g.nFatent);
        AfterFatAccess(v, Vol(), f);
        FullAtEnd(v, fp, c);
      } else {
        AfterExtend(v, Vol(), f, p, c, hint, clst);
        chain := Longer(v, f, p, clst).chain;
        clust := clst;
        if sclust == 0 {
          sclust := clst;
        }
        assert Value() == Longer(v, f, p, clst);
      }
    }

    /** What may change elsewhere while this file is written to. */
    twostate predicate OthersKept()
      requires old(fs.Valid()) && fs.Valid()
      reads this, fs, fs.win
    {
      && OnVolume(fs.g, chain)
      && Elsewhere(fs.g, old(fs.View()), fs.View(), chain)
      && SameOutside(old(Fat(fs)), Fat(fs), chain)
      && Balanced(old(Fat(fs)), old(chain), Fat(fs), chain)
      && CountKept(old(fs.freeClust), old(Fat(fs)), fs.freeClust, Fat(fs))
    }

    /**
      On a cluster boundary: go to the next cluster of the file, which is allocated if there is
      none. 0: there is no cluster to be had.
    */
    method FollowForWrite() returns (clst: u32)
      requires Sane() && TableReady() && Behind(fs.g, chain, fptr, clust) && AtBoundary(fs.g, Value())
      modifies fs, fs.win, this`clust, this`sclust, this`chain
      ensures fs.Valid() && fs.Steady() && TableReady() && clst != 1
      ensures clst == DISK_ERROR ==> fs.faults > old(fs.faults)
      ensures clst != DISK_ERROR ==>
        && Sane() && SameData(fs.g, old(FileData()), FileData()) && old(chain) <= chain && OthersKept()
      ensures clst == 0 ==> chain == old(chain) && clust == old(clust) && Full()
      ensures 2 <= clst < DISK_ERROR ==> At(fs.g, chain, fptr, clust)
    {
      hide FatOf, Consistent, FileSector, Data, InFile, Behind, At, Maps, HasReserved, AtBoundary, SameOutside,
        Elsewhere, CountKept, FreeBelow;
      ghost var v, f := Vol(), Value();
      OnVolumeNow(v, f);
      SameOutsideSelf(v.fat, chain);
      SameIsElsewhere(fs.g, v.view, v.view, chain);
      CountKeptSelf(fs.freeClust, v.fat);
      CanFollow(v, f, clust);
      OnBoundary(fs.g, f);
      ExtentFits(v, f);
      assert f.(fptr := fptr) == f;
      if fptr == 0 && sclust != 0 {
        clst := sclust;
        clust := clst;
      } else if fptr != 0 && cltbl != null {
        LocatedIsDivision(fptr / SS, fs.g.csize);
        clst := ClmtClust(cltbl, fptr / SS / fs.g.csize, mapped);
        MapEnds(fs.g, f, clust);
        if clst != 0 {
          clust := clst;
        }
      } else {
        clst := Extend(if fptr == 0 then 0 else clust, fptr);
        if clst != DISK_ERROR {
          OnVolumeNow(Vol(), Value());
          AgreeIsElsewhere(fs.g, fs.View(), v.view, chain);
        }
      }
    }

    /** The cluster for writing at a sector boundary. `full`: there was none to be had. */
    method ClusterForWrite(csect: nat) returns (res: FResult, full: bool)
      requires Sane() && TableReady() && Behind(fs.g, chain, fptr, clust) && fptr % SS == 0
      requires csect == OffsetIn(fptr / SS, fs.g.csize)
      modifies fs, fs.win, this`clust, this`sclust, this`chain
      ensures fs.Valid() && fs.Steady() && TableReady()
      ensures res != Ok ==> res == DiskErr && fs.faults > old(fs.faults)
      ensures res == Ok ==>
        && Sane() && SameData(fs.g, old(FileData()), FileData()) && old(chain) <= chain && OthersKept()
      ensures res == Ok && full ==>
        chain == old(chain) && Behind(fs.g, chain, fptr, clust) && Full()
      ensures res == Ok && !full ==> At(fs.g, chain, fptr, clust)
    {
      hide FatOf, Consistent, FileSector, Data, InFile, Behind, At, Maps, HasReserved, SameOutside, Elsewhere,
        CountKept, FreeBelow;
      res, full := Ok, false;
      OnVolumeNow(Vol(), Value());
      if csect == 0 {
        var clst := FollowForWrite();
        if clst == DISK_ERROR { res := DiskErr; return; }
        full := clst == 0;
      } else {
        OffsetAtZero(fs.g.csize);
        SameCluster(Vol(), Value(), clust);
        NothingChanged();
      }
    }

    /** Write the dirty buffer back, and find the sector at the cursor. */
    method SectorForWrite(csect: nat) returns (ok: bool, sect: u32)
      requires Sane() && At(fs.g, chain, fptr, clust) && fptr % SS == 0 && csect == OffsetIn(fptr / SS, fs.g.csize)
      modifies fs`disk, fs`faults, this`dirty
      ensures fs.Valid() && fs.Steady() && (ok <==> fs.faults == old(fs.faults))
      ensures ok ==>
        && Sane() && FileData() == old(FileData()) && Fat(fs) == old(Fat(fs)) && !dirty
        && Elsewhere(fs.g, old(fs.View()), fs.View(), chain)
        && fptr / SS < Room(fs.g, chain) && sect == FileSector(fs.g, chain, fptr / SS)
    {
      hide FatOf, Consistent, FileSector, Data, InFile, Behind, At, HasReserved;
      ok, sect := true, 0;
      OnVolumeNow(Vol(), Value());
      SameIsElsewhere(fs.g, fs.View(), fs.View(), chain);
      if dirty {
        ghost var v1 := fs.View();
        ok := FlushBuf();
        if !ok { return; }
        FlushElsewhere(fs.g, chain, v1, v1, fs.View(), dsect);
      }
      OnVolumeNow(Vol(), Value());
      AtRoom(fs.g, Value(), clust);
      ClusterSectors(fs.g, clust);
      sect := Clust2Sect(fs.g, clust);
      if sect == 0 { assert false; }
      sect := sect + csect;
    }

    /**
      At a sector boundary, for writing: go to the next cluster if need be, write the dirty
      buffer back, and find the sector at the cursor. `full`: there was no cluster to be had.
    */
    method EnterForWrite() returns (res: FResult, full: bool, sect: u32, csect: nat)
      requires Sane() && TableReady() && Behind(fs.g, chain, fptr, clust) && fptr % SS == 0
      modifies fs, fs.win, this`clust, this`sclust, this`chain, this`dirty
      ensures fs.Valid() && fs.Steady() && TableReady()
      ensures res != Ok ==> res == DiskErr && fs.faults > old(fs.faults)
      ensures res == Ok ==>
        && Sane() && SameData(fs.g, old(FileData()), FileData()) && old(chain) <= chain && OthersKept()
      ensures res == Ok && full ==>
        chain == old(chain) && Behind(fs.g, chain, fptr, clust) && Full()
      ensures res == Ok && !full ==>
        && !dirty && At(fs.g, chain, fptr, clust)
        && fptr / SS < Room(fs.g, chain) && sect == FileSector(fs.g, chain, fptr / SS)
        && csect == OffsetIn(fptr / SS, fs.g.csize)
    {
      hide FatOf, Consistent, FileSector, Data, InFile, Behind, At, Maps, HasReserved, SameOutside, Elsewhere,
        CountKept, FreeBelow, OnVolume, BitAnd, SameData;
      sect := 0;
      csect := BitAnd(fptr / SS, fs.g.csize - 1);
      ClusterMasks(fptr / SS, fs.g.csize);
      res, full := ClusterForWrite(csect);
      if res != Ok || full { return; }
      ghost var v1 := fs.View();
      var ok;
      ok, sect := SectorForWrite(csect);
      if !ok { res := DiskErr; return; }
      ElsewhereAgain(fs.g, old(fs.View()), v1, fs.View(), chain, chain);
    }

    twostate lemma NothingChanged()
      requires Sane() && fs.Valid() && old(fs.Valid()) && fs.View() == old(fs.View())
      requires fs.freeClust == old(fs.freeClust)
      requires Vol() == old(Vol()) && chain == old(chain)
      ensures OthersKept() && SameData(fs.g, fs.View(), fs.View())
    {
      OnVolumeNow(Vol(), Value());
    }

    /** Bytes of the file so far: up to its size, or to the cursor. */
    ghost function Extent(): nat
      reads this
    {
      if fptr > fsize then fptr else fsize
    }

    /** Write whole sectors of a cluster straight from the caller's data. */
    method WriteDirect(w: seq<byte>, sect: u32, cc: nat) returns (ok: bool)
      requires Sane() && !dirty && fptr % SS == 0 && fptr / SS < Room(fs.g, chain)
      requires sect == FileSector(fs.g, chain, fptr / SS)
      requires 0 < cc && OffsetIn(fptr / SS, fs.g.csize) + cc <= fs.g.csize && |w| == cc * SS
      modifies fs`disk, fs`faults, buf, this`dirty
      ensures fs.Valid() && fs.Steady() && (ok <==> fs.faults == old(fs.faults))
      ensures ok ==>
        && Sane() && Fat(fs) == old(Fat(fs)) && Elsewhere(fs.g, old(fs.View()), fs.View(), chain)
        && Wrote(fs.g, old(FileData()), FileData(), chain, old(Extent()), fptr, w)
    {
      hide FatOf, Consistent, FileSector, Data, InFile, HasReserved, LiesAt, Wrote, Refilled;
      ghost var v, f, d := Vol(), Value(), FileData();
      ghost var k := fptr / SS;
      OnVolumeNow(v, f);
      ExtentFits(v, f);
      CleanData(v, f);
      RunClear(v, f, k, cc);
      Whole(cc);
      ok := WriteData(fs, w, sect);
      if ok {
        AfterDirectWrite(v, Vol(), f, k, cc, w);
        RunElsewhere(fs.g, v.view, fs.View(), chain, k, cc);
        SectorsWrote(fs.g, d, fs.View(), chain, Extent(), k, cc, w);
        RefillBuf(w, sect, cc);
      }
    }

    /** Refill the buffer if the direct write has made it out of date. */
    method RefillBuf(w: seq<byte>, sect: u32, cc: nat)
      requires buf.Length == SS && |w| == cc * SS
      modifies buf, this`dirty
      ensures Value() == Refilled(old(Value()), sect, w)
    {
      var t := Sub32(dsect, sect);
      if t < cc {
        CopyInto(buf, 0, w[t * SS..t * SS + SS]);
        assert buf[..] == w[t * SS..t * SS + SS];
        dirty := false;
      }
    }

    /** Write as many whole sectors as there are, up to the end of the cluster. */
    method WriteWhole(w: seq<byte>, sect: u32, csect: nat) returns (ok: bool, wcnt: u32)
      requires Sane() && !dirty && At(fs.g, chain, fptr, clust)
      requires fptr % SS == 0 && fptr / SS < Room(fs.g, chain) && sect == FileSector(fs.g, chain, fptr / SS)
      requires csect == OffsetIn(fptr / SS, fs.g.csize) && SS <= |w| && fptr + |w| < 0x1_0000_0000
      modifies fs`disk, fs`faults, buf, this`dirty, this`fptr
      ensures fs.Valid() && fs.Steady() && (ok <==> fs.faults == old(fs.faults))
      ensures ok ==>
        && Sane() && Behind(fs.g, chain, fptr, clust) && Fat(fs) == old(Fat(fs))
        && 0 < wcnt <= |w| && fptr == old(fptr) + wcnt
        && Elsewhere(fs.g, old(fs.View()), fs.View(), chain)
        && Wrote(fs.g, old(FileData()), FileData(), chain, old(Extent()), old(fptr), w[..wcnt])
    {
      hide FatOf, Consistent, FileSector, Data, InFile, Behind, At, Wrote, HasReserved;
      wcnt := 0;
      OnVolumeNow(Vol(), Value());
      var cc := |w| / SS;
      if csect + cc > fs.g.csize {
        cc := fs.g.csize - csect;
      }
      wcnt := SS * cc;
      ok := WriteDirect(w[..wcnt], sect, cc);
      if ok {
        Advance(wcnt);
      }
    }

    /** The buffer is for the sector at the cursor and may be written to. */
    ghost predicate Writable()
      reads this, buf, fs, fs.win
    {
      && fs.Valid() && buf.Length == SS && buf != fs.win
      && Consistent(Vol(), Value().(dirty := true))
      && !HasReserved(Fat(fs))
      && InSector(fs.g, chain, fptr, dsect)
    }

    /** The disk with the buffer on it, whether or not that is marked dirty. */
    ghost function BufData(): (d: seq<Sector>)
      requires fs.Valid() && buf.Length == SS
      reads this, buf, fs, fs.win
    {
      Data(Vol(), Value().(dirty := true))
    }

    /** Give the clean buffer to the sector at the cursor, filled from the drive if the file goes on there. */
    method LoadForWrite(sect: u32) returns (ok: bool)
      requires Sane() && !dirty && fptr / SS < Room(fs.g, chain) && sect == FileSector(fs.g, chain, fptr / SS)
      modifies fs`faults, this`dsect, buf
      ensures fs.Valid() && fs.Steady() && (ok <==> fs.faults == old(fs.faults))
      ensures fs.View() == old(fs.View()) && Fat(fs) == old(Fat(fs))
      ensures ok ==>
        && Writable() && dsect == sect
        && BufData() == old(FileData())[sect := buf[..]]
        && (fptr < fsize ==> buf[..] == old(FileData())[sect])
    {
      hide FatOf, Consistent, FileSector, Data, InFile, HasReserved;
      ghost var v, f := Vol(), Value();
      ghost var k := fptr / SS;
      ok := true;
      Located(k, fs.g.csize);
      RunClear(v, f, k, 1);
      CleanData(v, f);
      CleanBuf(v, f);
      if dsect != sect {
        if fptr < fsize {
          var data;
          ok, data := ReadData(fs, sect, 1);
          CopyInto(buf, 0, data);
          assert ok ==> v.view[sect] == data;
        }
      }
      dsect := sect;
      AfterTake(v, f, buf[..]);
      assert Vol() == v;
      assert Value().(dirty := true) == f.(dsect := sect, buf := buf[..], dirty := true);
    }

    /** Put bytes into the buffer at the cursor. */
    method PutPart(w: seq<byte>)
      requires Writable() && fptr % SS + |w| <= SS
      modifies buf, this`dirty
      ensures Sane() && dirty && Vol() == old(Vol()) && InSector(fs.g, chain, fptr, dsect)
      ensures dsect < fs.g.nsect && FileData() == old(BufData())[dsect := buf[..]]
      ensures buf[fptr % SS..fptr % SS + |w|] == w && OnlyIn(old(buf[..]), buf[..], fptr % SS, |w|)
    {
      hide FatOf, Consistent, FileSector, Data, InFile, HasReserved, OnlyIn, InSector;
      ghost var v, f := Vol(), Value().(dirty := true);
      CopyInto(buf, fptr % SS, w);
      dirty := true;
      AfterPut(v, f, buf[..]);
      assert Vol() == v;
      assert Value() == f.(buf := buf[..]);
    }

    /** Write up to the end of the sector, through the buffer that is for it. */
    method WritePart(w: seq<byte>, ghost d: seq<Sector>) returns (wcnt: u32)
      requires Writable() && At(fs.g, chain, fptr, clust) && w != [] && fptr + |w| < 0x1_0000_0000
      requires |d| == fs.g.nsect && SameButTail(d, BufData(), dsect, Extent() - fptr / SS * SS)
      modifies buf, this`dirty, this`fptr
      ensures Sane() && Vol() == old(Vol()) && Behind(fs.g, chain, fptr, clust)
      ensures 0 < wcnt <= |w| && fptr == old(fptr) + wcnt
      ensures Wrote(fs.g, d, FileData(), chain, old(Extent()), old(fptr), w[..wcnt])
    {
      hide FatOf, Consistent, FileSector, Data, InFile, HasReserved, OnlyIn, Behind, At, Wrote, SameButTail;
      ghost var p, n, b0 := fptr, Extent(), buf[..];
      wcnt := SS - fptr % SS;
      if wcnt > |w| { wcnt := |w|; }
      ExtentFits(Vol(), Value().(dirty := true));
      Located(fptr / SS, fs.g.csize);
      ghost var e := BufData();
      BufferHolds(Vol(), Value().(dirty := true));
      PutPart(w[..wcnt]);
      PartPut(fs.g, d, e, chain, n, p / SS, p % SS, w[..wcnt], buf[..]);
      Advance(wcnt);
    }

    /** Write at a sector boundary, at a sector that is known: whole sectors, or part of one. */
    method WriteAt(w: seq<byte>, sect: u32, csect: nat) returns (ok: bool, wcnt: u32)
      requires Sane() && !dirty && At(fs.g, chain, fptr, clust) && w != [] && fptr + |w| < 0x1_0000_0000
      requires fptr % SS == 0 && fptr / SS < Room(fs.g, chain) && sect == FileSector(fs.g, chain, fptr / SS)
      requires csect == OffsetIn(fptr / SS, fs.g.csize)
      modifies fs`disk, fs`faults, buf, this`dirty, this`dsect, this`fptr
      ensures fs.Valid() && fs.Steady() && (ok <==> fs.faults == old(fs.faults))
      ensures ok ==>
        && Sane() && Behind(fs.g, chain, fptr, clust) && Fat(fs) == old(Fat(fs))
        && 0 < wcnt <= |w| && fptr == old(fptr) + wcnt
        && Elsewhere(fs.g, old(fs.View()), fs.View(), chain)
        && Wrote(fs.g, old(FileData()), FileData(), chain, old(Extent()), old(fptr), w[..wcnt])
    {
      hide FatOf, Consistent, FileSector, Data, InFile, HasReserved, Behind, At, Wrote, Elsewhere, SameButTail;
      wcnt := 0;
      OnVolumeNow(Vol(), Value());
      if |w| / SS > 0 {
        ok, wcnt := WriteWhole(w, sect, csect);
        return;
      }
      ghost var d1 := FileData();
      SameIsElsewhere(fs.g, fs.View(), fs.View(), chain);
      ok := LoadForWrite(sect);
      if !ok { return; }
      TailLoaded(d1, BufData(), sect, buf[..], Extent() - fptr);
      wcnt := WritePart(w, d1);
    }

    /** Write from the middle of a sector, up to its end. */
    method WriteOn(w: seq<byte>) returns (wcnt: u32)
      requires Sane() && Behind(fs.g, chain, fptr, clust) && fptr % SS != 0 && w != [] && fptr + |w| < 0x1_0000_0000
      modifies buf, this`dirty, this`fptr
      ensures Sane() && Vol() == old(Vol()) && Behind(fs.g, chain, fptr, clust)
      ensures 0 < wcnt <= |w| && fptr == old(fptr) + wcnt
      ensures Wrote(fs.g, old(FileData()), FileData(), chain, old(Extent()), old(fptr), w[..wcnt])
    {
      hide FatOf, Consistent, FileSector, Data, InFile, HasReserved, Behind, At, Wrote, SameButTail;
      ghost var d0 := FileData();
      ExtentFits(Vol(), Value());
      MidSector(Vol(), Value(), clust);
      AfterMark(Vol(), Value());
      TailSame(d0, BufData(), dsect, Extent() - fptr / SS * SS);
      wcnt := WritePart(w, d0);
    }

    /** One round of writing. `full`: there was no cluster to be had. */
    method WriteChunk(w: seq<byte>) returns (res: FResult, full: bool, wcnt: u32)
      requires Sane() && TableReady() && Behind(fs.g, chain, fptr, clust) && w != [] && fptr + |w| < 0x1_0000_0000
      modifies fs, fs.win, buf, this`clust, this`sclust, this`chain, this`dirty, this`dsect, this`fptr
      ensures fs.Valid() && fs.Steady() && TableReady()
      ensures res != Ok ==> res == DiskErr && fs.faults > old(fs.faults)
      ensures res == Ok ==>
        && Sane() && Behind(fs.g, chain, fptr, clust) && old(chain) <= chain && OthersKept()
        && wcnt <= |w| && fptr == old(fptr) + wcnt && (wcnt == 0 <==> full)
        && OnVolume(fs.g, chain)
        && Wrote(fs.g, old(FileData()), FileData(), chain, old(Extent()), old(fptr), w[..wcnt])
      ensures res == Ok && full ==> Full()
    {
      hide FatOf, Consistent, FileSector, Data, InFile, HasReserved, Behind, At, Wrote, Maps, SameOutside, Elsewhere,
        CountKept, FreeBelow, SameData;
      ghost var d0, n := FileData(), Extent();
      res, full, wcnt := Ok, false, 0;
      ExtentFits(Vol(), Value());
      if fptr % SS != 0 {
        OnVolumeNow(Vol(), Value());
        wcnt := WriteOn(w);
        NothingChanged();
        return;
      }
      var sect, csect;
      res, full, sect, csect := EnterForWrite();
      if res != Ok { return; }
      ExtentFits(Vol(), Value());
      ghost var d1, v1 := FileData(), fs.View();
      if full {
        WroteNothing(fs.g, d0, d1, chain, n, fptr);
        return;
      }
      var ok;
      ok, wcnt := WriteAt(w, sect, csect);
      if !ok { res := DiskErr; return; }
      ElsewhereAgain(fs.g, old(fs.View()), v1, fs.View(), chain, chain);
      WroteFrom(fs.g, d0, d1, FileData(), chain, n, old(fptr), w[..wcnt]);
    }

    /** The loop of f_write: all of `w`, or as much as there are clusters for. */
    method WriteAll(w: seq<byte>) returns (res: FResult, bw: u32)
      requires Sane() && TableReady() && Behind(fs.g, chain, fptr, clust) && fptr <= fsize && fptr + |w| < 0x1_0000_0000
      modifies fs, fs.win, buf, this`clust, this`sclust, this`chain, this`dirty, this`dsect, this`fptr
      ensures fs.Valid() && fs.Steady() && TableReady()
      ensures res != Ok ==> res == DiskErr && fs.faults > old(fs.faults)
      ensures res == Ok ==>
        && Sane() && Behind(fs.g, chain, fptr, clust) && old(chain) <= chain && OthersKept()
        && bw <= |w| && fptr == old(fptr) + bw && (bw < |w| ==> Full())
        && OnVolume(fs.g, chain)
        && Wrote(fs.g, old(FileData()), FileData(), chain, fsize, old(fptr), w[..bw])
    {
      hide FatOf, Consistent, FileSector, Data, InFile, HasReserved, Behind, Wrote, Maps, SameOutside, Elsewhere,
        CountKept, FreeBelow;
      res, bw := Ok, 0;
      ghost var d0, p0, s0 := FileData(), fptr, chain;
      ExtentFits(Vol(), Value());
      NothingChanged();
      WroteNothing(fs.g, d0, d0, chain, fsize, p0);
      assert w[..0] == [];
      while bw < |w|
        invariant Sane() && TableReady() && Behind(fs.g, chain, fptr, clust) && fs.Steady()
        invariant res == Ok && fptr == p0 + bw && bw <= |w|
        invariant s0 <= chain && OthersKept()
        invariant Wrote(fs.g, d0, FileData(), chain, fsize, p0, w[..bw])
        decreases |w| - bw
      {
        ghost var d1, v1, s1, fat1, free1 := FileData(), fs.View(), chain, Fat(fs), fs.freeClust;
        var wcnt, full;
        res, full, wcnt := WriteChunk(w[bw..]);
        if res != Ok { return; }
        ElsewhereAgain(fs.g, old(fs.View()), v1, fs.View(), s1, chain);
        SameOutsideAgain(old(Fat(fs)), fat1, Fat(fs), s1, chain);
        CountKeptAgain(old(fs.freeClust), old(Fat(fs)), free1, fat1, fs.freeClust, Fat(fs));
        WroteLonger(fs.g, d0, d1, s1, chain, fsize, p0, w[..bw]);
        WroteMore(fs.g, d0, d1, FileData(), chain, fsize, p0, w[..bw], w[bw..][..wcnt]);
        assert w[..bw] + w[bw..][..wcnt] == w[..bw + wcnt];
        bw := bw + wcnt;
        if full { break; }
      }
    }

    /** The file ends no sooner than at the cursor. */
    method Lengthen()
      requires Sane() && fptr <= Room(fs.g, chain) * SS
      modifies this`fsize, this`written
      ensures Sane() && Vol() == old(Vol()) && FileData() == old(FileData()) && written
      ensures fsize == if fptr > old(fsize) then fptr else old(fsize)
    {
      hide FatOf, Consistent, FileSector, Data, InFile, HasReserved;
      ghost var v, f := Vol(), Value();
      if fptr > fsize {
        AfterLengthen(v, f, fptr);
        fsize := fptr;
        assert Value() == f.(fsize := fptr) && Vol() == v;
      }
      written := true;
      assert Vol() == v;
    }

    /** f_write on a usable file that is open for writing, up to the error it may meet. */
    method WriteUsable(w: seq<byte>) returns (res: FResult, bw: u32)
      requires Sane() && fptr <= fsize && Behind(fs.g, chain, fptr, clust) && TableReady() && |w| < 0x1_0000_0000
      modifies fs, fs.win, buf, this`clust, this`sclust, this`chain
      modifies this`dirty, this`dsect, this`fptr, this`fsize, this`written
      ensures fs.Valid() && fs.Steady() && TableReady()
      ensures res != Ok ==> res == DiskErr && fs.faults > old(fs.faults)
      ensures res == Ok ==>
        && Sane() && fptr <= fsize && Behind(fs.g, chain, fptr, clust) && written
        && bw <= |w| && fptr == old(fptr) + bw && old(fptr) <= |old(Text())|
        && Text() == Overwrite(old(Text()), old(fptr), w[..bw])
        && (bw < |w| ==> (TooLong(old(fptr), |w|) && bw == 0) || Full())
        && old(chain) <= chain && OthersKept()
    {
      hide FatOf, Consistent, FileSector, Data, InFile, HasReserved, Behind, Wrote, Maps, SameOutside, Elsewhere,
        CountKept, FreeBelow, Contents;
      ghost var d0, n, s0, p0 := FileData(), fsize, chain, fptr;
      ExtentFits(Vol(), Value());
      var data := w;
      if (fptr as int + |w|) % U32 < fptr { data := []; }
      res, bw := WriteAll(data);
      if res != Ok { return; }
      ExtentFits(Vol(), Value());
      WroteContents(fs.g, d0, FileData(), s0, n, p0, data[..bw], chain);
      assert data[..bw] == w[..bw];
      Lengthen();
    }

    /** The file would reach 4 GB. */
    static predicate TooLong(p: u32, n: nat) {
      p + n >= U32
    }

    /** Write bytes at the cursor: all of them, or as many as there is room for. */
    method Write(w: seq<byte>) returns (res: FResult, bw: u32)
      requires Valid() && TableReady() && |w| < 0x1_0000_0000
      modifies fs, fs.win, buf, this`clust, this`sclust, this`chain, this`dirty
      modifies this`dsect, this`fptr, this`fsize, this`written, this`err
      ensures Valid() && fs.Steady() && TableReady()
      ensures old(err) != Ok ==> res == err == old(err) && bw == 0
      ensures old(err) == Ok && !canWrite ==> res == Denied && bw == 0 && unchanged(this, fs, fs.win, buf)
      ensures old(err) == Ok && canWrite && res == Ok ==>
        && err == Ok && written
        && bw <= |w| && fptr == old(fptr) + bw && old(fptr) <= |old(Text())|
        && Text() == Overwrite(old(Text()), old(fptr), w[..bw])
        && (bw < |w| ==> (TooLong(old(fptr), |w|) && bw == 0) || Full())
        && old(chain) <= chain && OthersKept()
      ensures old(err) == Ok && canWrite && res != Ok ==> err == res == DiskErr && fs.faults > old(fs.faults)
    {
      hide FatOf, Consistent, Data, Behind, Maps, Contents, Elsewhere, SameOutside, CountKept, FreeBelow, OnVolume,
        Overwrite, HasReserved;
      bw := 0;
      if err != Ok { return err, 0; }
      if !canWrite { return Denied, 0; }
      res, bw := WriteUsable(w);
      if res != Ok {
        err := res;
      }
    }

    // ---------- f_lseek ----------

    /** Go back to the start of the current cluster. */
    method SeekBack(ofs: u32)
      requires Sane() && Behind(fs.g, chain, fptr, clust) && 0 < fptr <= fsize && 0 < ofs
      requires (ofs - 1) / (fs.g.csize * SS) >= (fptr - 1) / (fs.g.csize * SS)
      modifies this`fptr
      ensures Sane() && FileData() == old(FileData()) && OthersKept() && SameData(fs.g, old(FileData()), FileData())
      ensures fptr % SS == 0 && fptr < ofs && OffsetIn(fptr / SS, fs.g.csize) == 0 && At(fs.g, chain, fptr, clust)
    {
      hide FatOf, Consistent, FileSector, Data, InFile, Behind, At, HasReserved, SameOutside, Elsewhere, CountKept,
        FreeBelow, ClusterOf, OffsetIn, Span, AndNot;
      ghost var v, f := Vol(), Value();
      OnVolumeNow(v, f);
      NothingChanged();
      var bcs := fs.g.csize * SS;
      ghost var ifptr := fptr;
      ByteCluster(ifptr - 1, fs.g.csize);
      ByteCluster(ofs - 1, fs.g.csize);
      ClusterOrder((ifptr - 1) / SS, (ofs - 1) / SS, fs.g.csize);
      ClusterMasks(ifptr - 1, fs.g.csize);
      fptr := AndNot(fptr - 1, bcs - 1);
      BackToCluster(fs.g, chain, ifptr, clust, fptr);
      AfterMove(v, f, fptr);
      assert Value() == f.(fptr := fptr);
    }

    /** Go to the first cluster of the file, which is allocated if there is none. */
    method SeekTop() returns (res: FResult, full: bool)
      requires Sane()
      modifies fs, fs.win, this`fptr, this`clust, this`sclust, this`chain
      ensures fs.Valid() && fs.Steady()
      ensures res != Ok ==> res == DiskErr && fs.faults > old(fs.faults)
      ensures res == Ok ==>
        && Sane() && SameData(fs.g, old(FileData()), FileData()) && old(chain) <= chain && OthersKept()
        && fptr == 0 && OffsetIn(fptr / SS, fs.g.csize) == 0
      ensures res == Ok && full ==> chain == old(chain) == [] && NoneFree()
      ensures res == Ok && !full ==> At(fs.g, chain, fptr, clust)
    {
      hide FatOf, Consistent, FileSector, Data, InFile, Behind, At, HasReserved, SameOutside, Elsewhere, CountKept,
        FreeBelow, Span, Clust2Sect;
      res, full := Ok, false;
      ghost var v, f := Vol(), Value();
      OnVolumeNow(v, f);
      NothingChanged();
      OffsetAtZero(fs.g.csize);
      fptr := 0;
      AfterMove(v, f, 0);
      assert Value() == f.(fptr := 0);
      TopOfFile(v, f.(fptr := 0));
      var clst := sclust;
      if clst == 0 {
        clst := Extend(0, 0);
        if clst == DISK_ERROR { res := DiskErr; return; }
        OnVolumeNow(Vol(), Value());
        AgreeIsElsewhere(fs.g, fs.View(), v.view, chain);
        full := clst == 0;
      }
      clust := clst;
    }

    /** Start from the current cluster, or from the first one of the file, towards position `ofs`. */
    method SeekStart(ofs: u32) returns (res: FResult, full: bool)
      requires Sane() && Behind(fs.g, chain, fptr, clust) && fptr <= fsize && 0 < ofs
      modifies fs, fs.win, this`fptr, this`clust, this`sclust, this`chain
      ensures fs.Valid() && fs.Steady()
      ensures res != Ok ==> res == DiskErr && fs.faults > old(fs.faults)
      ensures res == Ok ==>
        && Sane() && SameData(fs.g, old(FileData()), FileData()) && old(chain) <= chain && OthersKept()
        && fptr % SS == 0 && fptr < ofs && (!full ==> OffsetIn(fptr / SS, fs.g.csize) == 0)
      ensures res == Ok && full ==> chain == old(chain) == [] && fptr == 0 && NoneFree()
      ensures res == Ok && !full ==> At(fs.g, chain, fptr, clust)
    {
      hide FatOf, Consistent, FileSector, Data, InFile, Behind, At, HasReserved, SameOutside, Elsewhere, CountKept,
        FreeBelow, ClusterOf, OffsetIn, Span, OnVolume, SameData;
      var bcs := fs.g.csize * SS;
      if fptr > 0 && (ofs - 1) / bcs >= (fptr - 1) / bcs {
        SeekBack(ofs);
        return Ok, false;
      }
      res, full := SeekTop();
    }

    /** Put the cursor at a sector boundary. */
    method MoveAligned(p: u32)
      requires Sane() && p % SS == 0 && p <= Room(fs.g, chain) * SS
      modifies this`fptr
      ensures Sane() && fptr == p && FileData() == old(FileData())
    {
      hide FatOf, Consistent, FileSector, Data, InFile, HasReserved;
      ghost var v, f := Vol(), Value();
      AfterMove(v, f, p);
      fptr := p;
      assert Value() == f.(fptr := p);
    }

    /** Take the cluster after the current one, in a file open for writing even if there is none yet. */
    method SeekOn() returns (res: FResult, full: bool)
      requires Sane() && At(fs.g, chain, fptr, clust) && fptr % SS == 0 && OffsetIn(fptr / SS, fs.g.csize) == 0
      requires canWrite || fptr + fs.g.csize * SS < fsize
      modifies fs, fs.win, this`clust, this`sclust, this`chain
      ensures fs.Valid() && fs.Steady()
      ensures res != Ok ==> res == DiskErr && fs.faults > old(fs.faults)
      ensures res == Ok ==>
        && Sane() && SameData(fs.g, old(FileData()), FileData()) && old(chain) <= chain && OthersKept()
      ensures res == Ok && full ==>
        && chain == old(chain) && clust == old(clust) && NoneFree()
        && fptr + fs.g.csize * SS == Room(fs.g, chain) * SS
      ensures res == Ok && !full ==>
        var q := fptr + fs.g.csize * SS;
        && At(fs.g, chain, q, clust) && q % SS == 0 && OffsetIn(q / SS, fs.g.csize) == 0
        && q <= Room(fs.g, chain) * SS
    {
      hide FatOf, Consistent, FileSector, Data, InFile, Behind, At, HasReserved, SameOutside, Elsewhere, CountKept,
        FreeBelow, ClusterOf, OffsetIn, Span, Clust2Sect, Appended, SameData;
      res, full := Ok, false;
      ghost var v, f := Vol(), Value();
      ghost var q := fptr + fs.g.csize * SS;
      OnVolumeNow(v, f);
      ToNextCluster(fs.g, chain, fptr, clust);
      AfterMove(v, f, q);
      var clst;
      if canWrite {
        clst := Extend(clust, q);
        if clst != DISK_ERROR {
          OnVolumeNow(Vol(), Value());
          AgreeIsElsewhere(fs.g, fs.View(), v.view, chain);
          RoomGrows(fs.g, f.chain, chain);
        }
        if clst == 0 { full := true; return; }
      } else {
        NextCluster(v, f.(fptr := q), clust);
        BelowSize(v, f.(fptr := q));
        clst := GetFat(fs, clust);
        AgreeIsOutside(fs.g, fs.View(), v.view);
        AfterFatAccess(v, Vol(), f);
        AgreeIsElsewhere(fs.g, fs.View(), v.view, chain);
        SameOutsideSelf(v.fat, chain);
        CountKeptSelf(fs.freeClust, v.fat);
        FollowsAt(v, f.(fptr := q));
      }
      if clst == DISK_ERROR { res := DiskErr; return; }
      ClusterAt(fs.g, chain, q, clst);
      if clst <= 1 || clst >= fs.g.nFatent { assert false; }
      clust := clst;
    }

    /**
      Follow, or in a file open for writing lengthen, the chain until position `ofs` behind the
      cursor is in its cluster.
    */
    method SeekFollow(ofs0: u32) returns (res: FResult, ofs: u32)
      requires Sane() && At(fs.g, chain, fptr, clust) && fptr % SS == 0 && OffsetIn(fptr / SS, fs.g.csize) == 0
      requires 0 < ofs0 && fptr + ofs0 < 0x1_0000_0000 && (canWrite || fptr + ofs0 <= fsize)
      modifies fs, fs.win, this`fptr, this`clust, this`sclust, this`chain
      ensures fs.Valid() && fs.Steady()
      ensures res != Ok ==> res == DiskErr && fs.faults > old(fs.faults)
      ensures res == Ok ==>
        && Sane() && SameData(fs.g, old(FileData()), FileData()) && old(chain) <= chain && OthersKept()
        && At(fs.g, chain, fptr, clust) && fptr % SS == 0 && OffsetIn(fptr / SS, fs.g.csize) == 0
        && 0 < ofs <= fs.g.csize * SS && fptr + ofs <= old(fptr) + ofs0
        && (fptr + ofs < old(fptr) + ofs0 ==> NoneFree() && fptr + ofs == Room(fs.g, chain) * SS)
    {
      hide FatOf, Consistent, FileSector, Data, InFile, Behind, At, HasReserved, SameOutside, Elsewhere, CountKept,
        FreeBelow;
      res, ofs := Ok, ofs0;
      var bcs := fs.g.csize * SS;
      ghost var d0, s0, p0 := FileData(), chain, fptr;
      OnVolumeNow(Vol(), Value());
      NothingChanged();
      while ofs > bcs
        invariant Sane() && fs.Steady() && At(fs.g, chain, fptr, clust)
        invariant fptr % SS == 0 && OffsetIn(fptr / SS, fs.g.csize) == 0
        invariant res == Ok && 0 < ofs && fptr + ofs == p0 + ofs0
        invariant SameData(fs.g, d0, FileData()) && s0 <= chain && OthersKept()
        decreases ofs
      {
        ghost var v1, s1, fat1, free1 := fs.View(), chain, Fat(fs), fs.freeClust;
        var full;
        res, full := SeekOn();
        if res != Ok { return; }
        ElsewhereAgain(fs.g, old(fs.View()), v1, fs.View(), s1, chain);
        SameOutsideAgain(old(Fat(fs)), fat1, Fat(fs), s1, chain);
        CountKeptAgain(old(fs.freeClust), old(Fat(fs)), free1, fat1, fs.freeClust, Fat(fs));
        if full {
          ofs := bcs;
          break;
        }
        MoveAligned(fptr + bcs);
        ofs := ofs - bcs;
      }
    }

    /** Bring the sector of offset `ofs` of the current cluster into the buffer. */
    method LoadWithin(ofs: u32) returns (ok: bool)
      requires Sane() && At(fs.g, chain, fptr, clust) && fptr % SS == 0 && OffsetIn(fptr / SS, fs.g.csize) == 0
      requires 0 < ofs <= fs.g.csize * SS && ofs % SS != 0
      modifies fs`disk, fs`faults, this`dirty, this`dsect, buf
      ensures fs.Valid() && fs.Steady() && (ok <==> fs.faults == old(fs.faults))
      ensures ok ==>
        && Sane() && FileData() == old(FileData()) && Fat(fs) == old(Fat(fs))
        && (fptr + ofs) / SS < Room(fs.g, chain) && dsect == FileSector(fs.g, chain, (fptr + ofs) / SS)
      ensures Elsewhere(fs.g, old(fs.View()), fs.View(), chain)
    {
      hide FatOf, Consistent, FileSector, Data, InFile, Behind, At, HasReserved, Elsewhere, ClusterOf, OffsetIn, Span,
        Clust2Sect;
      ghost var k := (fptr + ofs) / SS;
      OnVolumeNow(Vol(), Value());
      ClusterAt(fs.g, chain, fptr, clust);
      ClusterSectors(fs.g, clust);
      WithinCluster(fs.g, chain, fptr, clust, ofs);
      var nsect := Clust2Sect(fs.g, clust);
      if nsect == 0 { assert false; }
      nsect := nsect + ofs / SS;
      ok := LoadBuf(nsect, k);
    }

    /**
      Put the cursor at offset `ofs` of the current cluster, and its sector into the buffer if it is
      in the middle of one.
    */
    method SeekFinish(ofs: u32) returns (res: FResult)
      requires Sane() && At(fs.g, chain, fptr, clust) && fptr % SS == 0 && OffsetIn(fptr / SS, fs.g.csize) == 0
      requires 0 < ofs <= fs.g.csize * SS && fptr + ofs < 0x1_0000_0000
      modifies fs`disk, fs`faults, this`dirty, this`dsect, this`fptr, buf
      ensures fs.Valid() && fs.Steady()
      ensures res != Ok ==> res == DiskErr && fs.faults > old(fs.faults)
      ensures res == Ok ==>
        && Sane() && Behind(fs.g, chain, fptr, clust) && fptr == old(fptr) + ofs
        && FileData() == old(FileData()) && Fat(fs) == old(Fat(fs)) && OthersKept()
    {
      hide FatOf, Consistent, FileSector, Data, InFile, Behind, At, HasReserved, SameOutside, Elsewhere, CountKept,
        FreeBelow, ClusterOf, OffsetIn, Span, Clust2Sect, Appended, SameData;
      res := Ok;
      OnVolumeNow(Vol(), Value());
      NothingChanged();
      WithinCluster(fs.g, chain, fptr, clust, ofs);
      if ofs % SS != 0 {
        var ok := LoadWithin(ofs);
        if !ok { res := DiskErr; return; }
      }
      ghost var v, f := Vol(), Value();
      AfterMove(v, f, fptr + ofs);
      fptr := fptr + ofs;
      assert Value() == f.(fptr := fptr) && Vol() == v;
    }

    /** Seeking without a link map. In a file open for writing, seeking beyond the end lengthens it. */
    method NormalSeek(ofs0: u32) returns (res: FResult)
      requires Sane() && fptr <= fsize && Behind(fs.g, chain, fptr, clust)
      modifies fs, fs.win, buf, this`clust, this`sclust, this`chain
      modifies this`dirty, this`dsect, this`fptr, this`fsize, this`written
      ensures fs.Valid() && fs.Steady()
      ensures res != Ok ==> res == DiskErr && fs.faults > old(fs.faults)
      ensures res == Ok ==>
        && Sane() && fptr <= fsize && Behind(fs.g, chain, fptr, clust)
        && old(chain) <= chain && OthersKept()
        && SoughtTo(ofs0, old(fsize), canWrite, fptr, NoneFree() && fptr == Room(fs.g, chain) * SS)
        && fsize == (if fptr > old(fsize) then fptr else old(fsize))
        && |old(Text())| == old(fsize) && |Text()| == fsize && Text()[..old(fsize)] == old(Text())
        && (fsize > old(fsize) ==> written)
    {
      hide FatOf, Consistent, FileSector, Data, InFile, Behind, At, HasReserved, SameOutside, Elsewhere, CountKept,
        FreeBelow, Contents, AtBoundary;
      var ofs := ofs0;
      if ofs > fsize && !canWrite { ofs := fsize; }
      ghost var d0, s0, v0, fat0, free0, n0 := FileData(), chain, fs.View(), Fat(fs), fs.freeClust, fsize;
      ExtentFits(Vol(), Value());
      NothingChanged();
      if ofs == 0 {
        res := Ok;
        MoveAligned(0);
        BehindTop(fs.g, chain, clust);
      } else {
        res := SeekTo(ofs);
        if res != Ok { return; }
      }
      ExtentFits(Vol(), Value());
      LongerContents(fs.g, d0, FileData(), s0, chain, n0, if fptr > fsize then fptr else fsize);
      if fptr > fsize {
        ghost var v, f := Vol(), Value();
        AfterLengthen(v, f, fptr);
        fsize := fptr;
        assert Value() == f.(fsize := fptr) && Vol() == v;
        written := true;
      }
    }

    /** Where a seek to `ofs` may end up; `full` says that the drive is full and the file at its last byte. */
    static predicate SoughtTo(ofs: nat, size: nat, canWrite: bool, p: nat, full: bool) {
      var target := if ofs > size && !canWrite then size else ofs;
      p == target || (p < target && full)
    }

    /** Put the cursor at position `ofs`, or as far as there are clusters for. */
    method SeekTo(ofs0: u32) returns (res: FResult)
      requires Sane() && fptr <= fsize && Behind(fs.g, chain, fptr, clust) && 0 < ofs0 && (canWrite || ofs0 <= fsize)
      modifies fs, fs.win, buf, this`clust, this`sclust, this`chain, this`dirty, this`dsect, this`fptr
      ensures fs.Valid() && fs.Steady()
      ensures res != Ok ==> res == DiskErr && fs.faults > old(fs.faults)
      ensures res == Ok ==>
        && Sane() && Behind(fs.g, chain, fptr, clust)
        && old(chain) <= chain && OthersKept() && SameData(fs.g, old(FileData()), FileData())
        && (fptr == ofs0 || (fptr < ofs0 && NoneFree() && fptr == Room(fs.g, chain) * SS))
    {
      hide FatOf, Consistent, FileSector, Data, InFile, Behind, At, HasReserved, SameOutside, Elsewhere, CountKept,
        FreeBelow;
      var full, ofs;
      ghost var v0, fat0, free0 := fs.View(), Fat(fs), fs.freeClust;
      res, full := SeekStart(ofs0);
      if res != Ok { return; }
      if full {
        BehindTop(fs.g, chain, clust);
        return;
      }
      ghost var v1, s1, fat1, free1 := fs.View(), chain, Fat(fs), fs.freeClust;
      res, ofs := SeekFollow(ofs0 - fptr);
      if res != Ok { return; }
      ElsewhereAgain(fs.g, v0, v1, fs.View(), s1, chain);
      SameOutsideAgain(fat0, fat1, Fat(fs), s1, chain);
      CountKeptAgain(free0, fat0, free1, fat1, fs.freeClust, Fat(fs));
      ghost var v2, fat2, free2 := fs.View(), Fat(fs), fs.freeClust;
      res := SeekFinish(ofs);
      if res != Ok { return; }
      ElsewhereAgain(fs.g, v0, v2, fs.View(), chain, chain);
      SameOutsideAgain(fat0, fat2, Fat(fs), chain, chain);
      CountKeptAgain(free0, fat0, free2, fat2, fs.freeClust, Fat(fs));
    }

    /** Make the cluster of the byte before offset `ofs`, by the link map, the current one; its sector, 0: none. */
    method MapSector(ofs: u32) returns (dsc: u32)
      requires Sane() && 0 < ofs <= fsize && cltbl != null && TableReady()
      modifies this`clust
      ensures Sane() && TableReady() && FileData() == old(FileData())
      ensures dsc == 0 ==> Stale()
      ensures dsc != 0 ==>
        && Behind(fs.g, chain, ofs, clust) && (ofs - 1) / SS < Room(fs.g, chain)
        && dsc == FileSector(fs.g, chain, (ofs - 1) / SS)
    {
      hide FatOf, Consistent, FileSector, Data, InFile, Behind, HasReserved, Maps, ClusterOf, OffsetIn, Span,
        Clust2Sect, BitAnd;
      ghost var k := (ofs - 1) / SS;
      OnVolumeNow(Vol(), Value());
      LocatedIsDivision(k, fs.g.csize);
      BehindByte(Vol(), Value(), ofs);
      var cl := ClmtClust(cltbl, (ofs - 1) / SS / fs.g.csize, mapped);
      clust := cl;
      ClusterSectors(fs.g, clust);
      dsc := Clust2Sect(fs.g, clust);
      if dsc != 0 {
        ClusterMasks((ofs - 1) / SS, fs.g.csize);
        dsc := dsc + BitAnd((ofs - 1) / SS, fs.g.csize - 1);
      }
    }

    /** Put the cursor, which is at the start of the file, behind a byte whose sector and cluster are known. */
    method SeekLoaded(ofs: u32, dsc: u32) returns (ok: bool)
      requires Sane() && fptr == 0 && 0 < ofs <= fsize && Behind(fs.g, chain, ofs, clust)
      requires (ofs - 1) / SS < Room(fs.g, chain) && dsc == FileSector(fs.g, chain, (ofs - 1) / SS)
      modifies fs`disk, fs`faults, buf, this`dirty, this`dsect, this`fptr
      ensures fs.Valid() && fs.Steady() && (ok <==> fs.faults == old(fs.faults))
      ensures ok ==>
        && Sane() && fptr == ofs && Behind(fs.g, chain, fptr, clust)
        && FileData() == old(FileData()) && Fat(fs) == old(Fat(fs)) && OthersKept()
    {
      hide FatOf, Consistent, FileSector, Data, InFile, Behind, At, HasReserved, SameOutside, Elsewhere, CountKept,
        FreeBelow;
      ok := true;
      OnVolumeNow(Vol(), Value());
      NothingChanged();
      SizeFits(Vol(), Value());
      if ofs % SS != 0 {
        assert (ofs - 1) / SS == ofs / SS;
        ok := LoadBuf(dsc, ofs / SS);
        if !ok { return; }
      }
      ghost var v, f := Vol(), Value();
      AfterMove(v, f, ofs);
      fptr := ofs;
      assert Value() == f.(fptr := ofs) && Vol() == v;
    }

    /** Seeking with the link map, within the file. */
    method FastSeek(ofs0: u32) returns (res: FResult)
      requires Sane() && fptr <= fsize && cltbl != null && TableReady()
      modifies fs`disk, fs`faults, buf, this`clust, this`dirty, this`dsect, this`fptr
      ensures fs.Valid() && fs.Steady() && TableReady()
      ensures res != Ok ==> (res == DiskErr && fs.faults > old(fs.faults)) || (res == IntErr && Stale())
      ensures res == Ok ==>
        && Sane() && fptr == (if ofs0 > fsize then fsize else ofs0) && Behind(fs.g, chain, fptr, clust)
        && Text() == old(Text()) && Fat(fs) == old(Fat(fs)) && OthersKept()
    {
      hide FatOf, Consistent, FileSector, Data, InFile, Behind, At, HasReserved, SameOutside, Elsewhere, CountKept,
        FreeBelow, Contents, Maps, ClusterOf, OffsetIn, Span, Clust2Sect, Appended, SameData;
      res := Ok;
      var ofs := if ofs0 > fsize then fsize else ofs0;
      OnVolumeNow(Vol(), Value());
      NothingChanged();
      BehindTop(fs.g, chain, clust);
      MoveAligned(0);
      if ofs > 0 {
        var dsc := MapSector(ofs);
        if dsc == 0 { return IntErr; }
        var ok := SeekLoaded(ofs, dsc);
        if !ok { return DiskErr; }
      }
    }

    /** Build the link map in the table, whose first item says how large it is. */
    method MakeLinkMap() returns (res: FResult)
      requires Sane() && cltbl != null && 1 <= cltbl.Length && cltbl[0] <= cltbl.Length
      requires cltbl as object != buf && cltbl as object != fs.win
      modifies fs`disk, fs`wflag, fs`faults, fs`winsect, fs.win, cltbl, this`mapped
      ensures fs.Valid() && fs.Steady() && Sane() && Text() == old(Text()) && Fat(fs) == old(Fat(fs)) && OthersKept()
      ensures res == Ok || res == NotEnoughCore ==>
        && cltbl[0] == 2 * Fragments(chain) + 2 && (res == Ok <==> cltbl[0] <= old(cltbl[0]))
      ensures res == Ok ==> TableReady() && !Stale()
      ensures res == DiskErr ==> fs.faults > old(fs.faults)
      ensures res != DiskErr ==> IsChain(Fat(fs), chain) && (res == IntErr <==> !EndsClearly(Fat(fs), chain))
      ensures res in {Ok, NotEnoughCore, DiskErr, IntErr}
      ensures forall i :: 0 < i < cltbl.Length && i >= old(cltbl[0]) ==> cltbl[i] == old(cltbl[i])
    {
      hide FatOf, Consistent, FileSector, Data, InFile, HasReserved, SameOutside, Elsewhere, CountKept, FreeBelow,
        Contents, Maps, Encode;
      ghost var v, f := Vol(), Value();
      HasChain(v, f);
      OnVolumeNow(v, f);
      SizeFits(v, f);
      res := CreateLinkMap(fs, sclust, cltbl, chain);
      AgreeIsOutside(fs.g, fs.View(), v.view);
      AfterFatAccess(v, Vol(), f);
      AgreeIsElsewhere(fs.g, fs.View(), v.view, chain);
      SameOutsideSelf(v.fat, chain);
      CountKeptSelf(fs.freeClust, v.fat);
      SameContents(fs.g, Data(v, f), FileData(), chain, fsize);
      mapped := chain;
    }

    /**
      Move the cursor. Without a link map the file is lengthened if it is open for writing; with
      one, the cursor stays within the file, and the offset CREATE_LINKMAP asks for a new map.
    */
    method Seek(ofs: u32) returns (res: FResult)
      requires Valid()
      requires cltbl != null ==>
        if ofs == CREATE_LINKMAP
        then 1 <= cltbl.Length && cltbl[0] <= cltbl.Length && cltbl as object != buf && cltbl as object != fs.win
        else TableReady()
      modifies fs, fs.win, buf, cltbl, this`clust, this`sclust, this`chain, this`dirty, this`dsect, this`fptr,
        this`fsize, this`written, this`err, this`mapped
      ensures Valid() && fs.Steady()
      ensures old(err) != Ok ==> res == err == old(err)
      ensures old(err) == Ok && cltbl == null && res == Ok ==>
        && err == Ok && old(chain) <= chain && OthersKept()
        && SoughtTo(ofs, old(fsize), canWrite, fptr, NoneFree() && fptr == Room(fs.g, chain) * SS)
        && fsize == (if fptr > old(fsize) then fptr else old(fsize))
        && |old(Text())| == old(fsize) && |Text()| == fsize && Text()[..old(fsize)] == old(Text())
        && (fsize > old(fsize) ==> written)
      ensures old(err) == Ok && cltbl != null && ofs != CREATE_LINKMAP && res == Ok ==>
        && err == Ok && TableReady() && fptr == (if ofs > fsize then fsize else ofs)
        && fsize == old(fsize) && Text() == old(Text()) && Fat(fs) == old(Fat(fs)) && OthersKept()
      ensures old(err) == Ok && cltbl != null && ofs == CREATE_LINKMAP && (res == Ok || res == NotEnoughCore) ==>
        && err == Ok && fptr == old(fptr) && Text() == old(Text()) && Fat(fs) == old(Fat(fs)) && OthersKept()
        && cltbl[0] == 2 * Fragments(chain) + 2 && (res == Ok <==> cltbl[0] <= old(cltbl[0]))
        && (res == Ok ==> TableReady() && !Stale())
      ensures old(err) == Ok && res != Ok ==>
        || (res == NotEnoughCore && cltbl != null && ofs == CREATE_LINKMAP)
        || (err == res == DiskErr && fs.faults > old(fs.faults))
        || (err == res == IntErr && cltbl != null
            && if ofs == CREATE_LINKMAP then IsChain(Fat(fs), chain) && !EndsClearly(Fat(fs), chain) else Stale())
    {
      hide FatOf, Consistent, Data, Behind, Maps, Contents, Elsewhere, SameOutside, CountKept, FreeBelow, OnVolume,
        HasReserved;
      if err != Ok { return err; }
      if cltbl != null {
        if ofs == CREATE_LINKMAP {
          res := MakeLinkMap();
          if res == IntErr || res == DiskErr { err := res; }
        } else {
          res := FastSeek(ofs);
          if res != Ok { err := res; }
        }
      } else {
        res := NormalSeek(ofs);
        if res != Ok { err := res; }
      }
    }

    // ---------- f_truncate ----------

    /** Clusters that the bytes before the cursor take. */
    ghost function Kept(): nat
      reads this
    {
      if fptr == 0 then 0 else ClusterOf((fptr - 1) / SS, fs.g.csize) + 1
    }

    /** Free the clusters behind the cursor. */
    method FreeBehind() returns (res: FResult)
      requires Sane() && Behind(fs.g, chain, fptr, clust) && fptr < fsize
      modifies fs, fs.win
      ensures fs.Valid() && fs.Steady()
      ensures Kept() <= |chain| && IsChain(old(Fat(fs)), chain)
      ensures if res == Ok then CutTo(old(Fat(fs)), Fat(fs), chain, Kept())
              else res == DiskErr && fs.faults > old(fs.faults)
      ensures AgreeOutsideFat(fs.g, fs.View(), old(fs.View())) && WindowOk(fs.g, old(fs.winsect), fs.winsect)
      ensures CountKept(old(fs.freeClust), old(Fat(fs)), fs.freeClust, Fat(fs)) || res != Ok
    {
      hide FatOf, Consistent, FileSector, Data, InFile, HasReserved, CountKept, FreeBelow, CutTo;
      KeptFits(Vol(), Value(), clust);
      if fptr == 0 {
        res := CutAll(fs, sclust, chain);
      } else {
        res := CutAfter(fs, clust, chain, Kept());
      }
    }

    /** f_truncate on a usable file that is open for writing: the file ends at the cursor. */
    method TruncateUsable() returns (res: FResult)
      requires Sane() && Behind(fs.g, chain, fptr, clust) && fptr < fsize
      modifies fs, fs.win, this`sclust, this`fsize, this`written, this`dirty, this`chain
      ensures fs.Valid() && fs.Steady()
      ensures res != Ok ==> res == DiskErr && fs.faults > old(fs.faults)
      ensures res == Ok ==>
        && Sane() && Behind(fs.g, chain, fptr, clust) && fsize == fptr && written
        && |old(Text())| == old(fsize) && Text() == old(Text())[..fptr]
        && KeptElsewhere(fs.g, old(fs.View()), fs.View(), old(chain))
        && WasCut(old(Fat(fs)), old(chain), Fat(fs), chain, old(Kept()))
        && CountKept(old(fs.freeClust), old(Fat(fs)), fs.freeClust, Fat(fs))
    {
      hide FatOf, Consistent, FileSector, Data, InFile, Behind, HasReserved, Elsewhere, CountKept, FreeBelow, CutTo,
        Contents, Flushed, SameOutside, ClusterOf, AgreeOutsideFat, WindowOk;
      ghost var v, f, k := Vol(), Value(), Kept();
      OnVolumeNow(v, f);
      SizeFits(v, f);
      KeptFits(v, f, clust);
      res := FreeBehind();
      if res != Ok { return; }
      AgreeIsSameData(fs.g, fs.View(), v.view);
      AfterCut(v, Vol(), f, k);
      CutBalance(v.fat, Fat(fs), chain, k);
      fsize := fptr;
      written := true;
      if fptr == 0 { sclust := 0; }
      var ok := FlushCut(v, Vol(), f, k);
      if !ok { res := DiskErr; return; }
      SizeFits(Vol(), Value());
    }

    /** Write the dirty buffer back, even if its sector is now in a free cluster. */
    method FlushCut(ghost v: VolumeValue, ghost v1: VolumeValue, ghost f: FileValue, ghost k: nat) returns (ok: bool)
      requires fs.Valid() && buf.Length == SS && buf != fs.win && v1 == Vol() && v1.g == v.g
      requires Consistent(v, f) && k <= |f.chain| && KeepsCursor(v.g, f, k) && f.fptr <= f.fsize
      requires SameData(v.g, v.view, v1.view) && Behind(v.g, f.chain, f.fptr, clust)
      requires Consistent(Flushed(v1, f), CutFile(f, k)) && !HasReserved(v1.fat)
      requires f.dirty ==> v.g.database <= f.dsect < |v1.view| && f.dsect != v1.winsect
      requires Value() == CutFile(f, k).(chain := f.chain, dirty := f.dirty) && chain == f.chain
      modifies fs`disk, fs`faults, this`dirty, this`chain
      ensures fs.Valid() && fs.Steady() && (ok <==> fs.faults == old(fs.faults))
      ensures Fat(fs) == old(Fat(fs))
      ensures ok ==>
        && Sane() && Value() == CutFile(f, k) && Behind(fs.g, chain, fptr, clust)
        && Text() == Contents(v.g, Data(v, f), f.chain, f.fsize)[..f.fptr]
        && OnVolume(v.g, f.chain) && Elsewhere(v.g, v.view, fs.View(), f.chain)
    {
      hide FatOf, Consistent, FileSector, Data, InFile, Behind, HasReserved, Elsewhere, Contents;
      ok := true;
      OnVolumeNow(v, f);
      SizeFits(v, f);
      if dirty {
        ok := WriteData(fs, buf[..], dsect);
        if !ok { return; }
        assert fs.View()[dsect] == buf[..];
        assert fs.View() == v1.view[dsect := buf[..]];
        dirty := false;
      }
      chain := chain[..k];
      assert Vol() == Flushed(v1, f);
      assert Value() == CutFile(f, k);
      CutContents(v, v1, f, k);
      BehindCut(fs.g, f.chain, fptr, clust, k);
      SizeFits(Vol(), Value());
    }

    /** Cut the file off at the cursor. */
    method Truncate() returns (res: FResult)
      requires Valid()
      modifies fs, fs.win, this`sclust, this`fsize, this`written, this`dirty, this`chain, this`err
      ensures Valid() && fs.Steady()
      ensures old(err) != Ok ==> res == err == old(err)
      ensures old(err) == Ok && !canWrite ==> err == res == Denied
      ensures old(err) == Ok && canWrite && res == Ok ==>
        && err == Ok && fsize == fptr <= old(fsize)
        && |old(Text())| == old(fsize) && Text() == old(Text())[..fptr]
        && (if fptr < old(fsize)
            then && written && KeptElsewhere(fs.g, old(fs.View()), fs.View(), old(chain))
                 && WasCut(old(Fat(fs)), old(chain), Fat(fs), chain, old(Kept()))
                 && CountKept(old(fs.freeClust), old(Fat(fs)), fs.freeClust, Fat(fs))
            else chain == old(chain) && fs.View() == old(fs.View()))
      ensures old(err) == Ok && canWrite && res != Ok ==> err == res == DiskErr && fs.faults > old(fs.faults)
    {
      hide FatOf, Consistent, Data, Behind, Contents, Elsewhere, CountKept, FreeBelow, HasReserved, CutTo;
      if err != Ok { return err; }
      if !canWrite {
        res := Denied;
      } else {
        res := Ok;
        SizeFits(Vol(), Value());
        if fsize > fptr {
          res := TruncateUsable();
        }
      }
      if res != Ok { err := res; }
    }

    static method CopyInto(a: array<byte>, off: nat, s: seq<byte>)
      requires off + |s| <= a.Length
      modifies a
      ensures a[off..off + |s|] == s && forall j :: 0 <= j < |s| ==> a[off + j] == s[j]
      ensures OnlyIn(old(a[..]), a[..], off, |s|)
    {
      forall i | 0 <= i < |s| {
        a[off + i] := s[i];
      }
    }
  }
}
