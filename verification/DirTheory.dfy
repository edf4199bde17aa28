/**
  What registering and removing objects means for a directory: names are found after they
  have been registered, and what holds of every directory goes on holding.
*/
module DirTheory {
  import opened Bytes
  import opened Lfn
  import opened NumName
  import opened DirNames
  import opened DirSearch
  import opened DirChange

  /** Everything from the first zero entry on is zero. */
  ghost predicate Tidy(t: seq<DirEntry>) {
    forall i, k :: 0 <= i <= k < |t| && t[i][0] == 0 ==> t[k] == ZeroEntry()
  }

  /** No two objects share their short name. */
  ghost predicate NamesDiffer(t: seq<DirEntry>) {
    forall i, k :: 0 <= i < k < |t| && IsShort(t[i]) && IsShort(t[k]) ==> t[i][..11] != t[k][..11]
  }

  lemma UsedBelow(t: seq<DirEntry>, j: nat)
    requires Tidy(t) && j < |t| && t[j][0] != 0
    ensures NoEnd(t, j)
  {
  }

  /** What create_name prepares: a short name that can be told from a free entry, lossy only with a long name. */
  predicate Prepared(sn: seq<byte>) {
    |sn| == 12 && sn[0] != 0 && sn[0] != DDEM && (Lossy(sn) ==> sn[11] / 2 % 2 == 1)
  }

  /** A numbered name can be told from a free entry, too. */
  lemma NamedPrepared(t: seq<DirEntry>, sn: seq<byte>, fn: seq<byte>, lfn: LfnBuf, name: seq<u16>, upper: Upper)
    requires Prepared(sn) && Named(t, sn, fn, lfn, name, upper)
    ensures |fn| == 12 && fn[0] != 0 && fn[0] != DDEM && fn[11] == sn[11] && (fn[0] == sn[0] || fn[0] == TILDE)
  {
    hide Absent;
    if Lossy(sn) {
      var n: u16 :|
        1 <= n < 100 && fn == Numbered(sn, NumberFor(name, n)) && Absent(t, NumberedKey(sn, lfn, name, n), upper);
      KeepsStatus(sn, NumberFor(name, n));
      FirstByte(sn, NumberFor(name, n));
    }
  }

  lemma FirstByte(src: seq<byte>, v: u16)
    requires |src| >= 8
    ensures Numbered(src, v)[0] == src[0] || Numbered(src, v)[0] == TILDE
  {
    hide Hex;
    HexLength(v);
  }

  // ---------- Searches in tables that agree ----------

  /** Runs and hits depend on the entries up to their end only. */
  lemma {:induction false} SameRun(t: seq<DirEntry>, u: seq<DirEntry>, key: Key, upper: Upper, i: nat, ord: nat,
      sum: byte)
    requires i <= |t| && i <= |u| && forall k :: 0 <= k < i ==> u[k] == t[k]
    ensures LongRun(u, key, upper, i, ord, sum) == LongRun(t, key, upper, i, ord, sum)
    decreases i
  {
    if i > 0 {
      SameRun(t, u, key, upper, i - 1, ord + 1, sum);
    }
  }

  lemma SameHit(t: seq<DirEntry>, u: seq<DirEntry>, key: Key, upper: Upper, i: nat)
    requires i < |t| && i < |u| && forall k :: 0 <= k <= i ==> u[k] == t[k]
    ensures IsHit(u, key, upper, i) == IsHit(t, key, upper, i)
  {
    SameRun(t, u, key, upper, i, 0, SumSfn(t[i][..11]));
  }

  // ---------- Where there is room ----------

  lemma TidyLonger(t: seq<DirEntry>, u: seq<DirEntry>)
    requires Tidy(t) && Lengthened(t, u)
    ensures Tidy(u)
  {
  }

  /** The first room begins no later than the end of the table's used part. */
  lemma RoomBelowEnd(t: seq<DirEntry>, n: nat, j: nat)
    requires Tidy(t) && FirstRoom(t, n, j) && n > 0
    ensures NoEnd(t, j + 1 - n)
  {
    forall i | 0 <= i < j + 1 - n
      ensures t[i][0] != 0
    {
      assert !RoomAt(t, n, i + n - 1);
      if t[i][0] == 0 {
        assert forall k :: i <= k < i + n ==> t[k] == ZeroEntry();
        assert RoomAt(t, n, i + n - 1);
      }
    }
  }

  // ---------- Registered names are found ----------

  lemma PartIsLong(e: DirEntry, name: seq<u16>, ord: nat, sum: byte)
    requires IsPart(e, name, ord, sum)
    ensures IsLong(e) && e[13] == sum && !IsShort(e)
    ensures Starts(e) <==> ord == Parts(|name|)
  {
  }

  /** The parts of a name are a run for it. */
  lemma {:induction false} PartsRun(u: seq<DirEntry>, key: Key, upper: Upper, name: seq<u16>, j: nat, k: nat, sum: byte)
    requires HoldsName(key.lfn, name) && |name| < MAX_LFN && k < Parts(|name|) <= j <= |u|
    requires forall i :: j - Parts(|name|) <= i < j ==> IsPart(u[i], name, j - i, sum)
    ensures LongRun(u, key, upper, j - k, k, sum)
    decreases Parts(|name|) - k
  {
    hide IsPart, Matches, HoldsName, Order, Starts;
    var e := u[j - k - 1];
    assert IsPart(e, name, k + 1, sum);
    PartIsLong(e, name, k + 1, sum);
    PartMatches(key.lfn, e, name, k + 1, sum, upper);
    if k + 1 < Parts(|name|) {
      PartsRun(u, key, upper, name, j, k + 1, sum);
    }
  }

  /** The new short entry has the name, unless only the long form could tell and its end mark does not fit. */
  lemma NewHit(t: seq<DirEntry>, u: seq<DirEntry>, j: nat, sn: seq<byte>, fn: seq<byte>, key: Key, name: seq<u16>,
               upper: Upper)
    requires |fn| == 12 && Registered(t, u, j, PartsFor(fn, |name|), fn, name) && HoldsName(key.lfn, name)
    requires fn[0] != 0 && fn[0] != DDEM && |sn| == 12 && fn[11] == sn[11] && key.fn == sn && key.withLfn
    requires if Lossy(sn) then sn[11] / 2 % 2 == 1 else fn == sn
    ensures IsHit(u, key, upper, j) <==> |name| <= 254 || !Lossy(sn)
  {
    hide IsPart, HoldsName, SumSfn, LongRun;
    var e, sum := u[j], SumSfn(fn[..11]);
    assert e[0] == e[..11][0] == fn[..11][0];
    NamePartsPositive(key.lfn, name);
    if Lossy(sn) {
      if |name| <= 254 {
        PartsRun(u, key, upper, name, j, 0, sum);
      } else {
        NoRun(u, key, upper, name, j, 0, sum, SumSfn(e[..11]));
      }
    }
  }

  lemma NamePartsPositive(lfn: LfnBuf, name: seq<u16>)
    requires HoldsName(lfn, name)
    ensures Parts(|name|) > 0 && |name| <= MAX_LFN
  {
  }

  /** The entries that a new object takes were free, and no other entry is one of it. */
  lemma NewEntries(t1: seq<DirEntry>, u: seq<DirEntry>, j: nat, fn: seq<byte>, name: seq<u16>, i: nat)
    requires |fn| == 12 && RoomAt(t1, PartsFor(fn, |name|) + 1, j)
    requires Registered(t1, u, j, PartsFor(fn, |name|), fn, name)
    requires j - PartsFor(fn, |name|) <= i < j
    ensures u[i][0] != 0 && !IsShort(u[i]) && !IsShort(t1[i])
  {
    hide IsPart;
    assert IsPart(u[i], name, j - i, SumSfn(fn[..11]));
    PartIsLong(u[i], name, j - i, SumSfn(fn[..11]));
  }

  /** Entry `j`, which was free, is a new object, and no other object is new or has another name than before. */
  ghost predicate OnlyNew(t: seq<DirEntry>, u: seq<DirEntry>, upper: Upper, j: nat) {
    && j < |u| && IsShort(u[j]) && (j < |t| ==> IsFree(t[j]))
    && (forall i :: 0 <= i < |u| && i != j && IsShort(u[i]) ==> i < |t| && u[i] == t[i])
    && forall key: Key, i: nat :: i != j ==> (IsHit(u, key, upper, i) <==> IsHit(t, key, upper, i))
  }

  /** Registering an object changes nothing for the other ones. */
  lemma RegisterOthers(t: seq<DirEntry>, t1: seq<DirEntry>, u: seq<DirEntry>, j: nat, fn: seq<byte>, name: seq<u16>,
                       upper: Upper)
    requires Lengthened(t, t1) && |fn| == 12 && FirstRoom(t1, PartsFor(fn, |name|) + 1, j)
    requires Registered(t1, u, j, PartsFor(fn, |name|), fn, name) && fn[0] != 0 && fn[0] != DDEM
    ensures OnlyNew(t, u, upper, j)
  {
    hide LongRun, IsPart;
    assert u[j][0] == u[j][..11][0] == fn[..11][0];
    assert RoomAt(t1, PartsFor(fn, |name|) + 1, j);
    forall i: nat | j - PartsFor(fn, |name|) <= i < j
      ensures !IsShort(u[i])
    {
      NewEntries(t1, u, j, fn, name, i);
    }
    forall key: Key, i: nat | i != j
      ensures IsHit(u, key, upper, i) <==> IsHit(t, key, upper, i)
    {
      RegisterOther(t, t1, u, j, fn, name, key, upper, i);
    }
  }

  lemma RegisterOther(t: seq<DirEntry>, t1: seq<DirEntry>, u: seq<DirEntry>, j: nat, fn: seq<byte>, name: seq<u16>,
                      key: Key, upper: Upper, i: nat)
    requires Lengthened(t, t1) && |fn| == 12 && RoomAt(t1, PartsFor(fn, |name|) + 1, j) && i != j
    requires Registered(t1, u, j, PartsFor(fn, |name|), fn, name) && fn[0] != 0 && fn[0] != DDEM
    ensures IsHit(u, key, upper, i) <==> IsHit(t, key, upper, i)
  {
    hide LongRun, IsPart, SumSfn;
    var from := j - PartsFor(fn, |name|);
    if i < |t| {
      SameHit(t, t1, key, upper, i);
    }
    if from <= i <= j {
      NewEntries(t1, u, j, fn, name, i);
    } else if i < |t1| {
      OtherHits(t1, u, key, upper, from, j, i);
    }
  }

  /** The new object is found by its name, but for one of 255 characters that the short form cannot tell. */
  ghost predicate Entered(u: seq<DirEntry>, key: Key, n: nat, upper: Upper, j: nat)
    requires |key.fn| == 12
  {
    FirstHit(u, key, upper, j) <==> n <= 254 || !Lossy(key.fn)
  }

  /** Why an object is not registered: no number for its short name is left, or there is no room for its entries. */
  ghost predicate NotEntered(t: seq<DirEntry>, u: seq<DirEntry>, chain: seq<nat>, free: nat, key: Key, name: seq<u16>,
                             upper: Upper)
    requires |key.fn| == 12
  {
    && Lengthened(t, u)
    && (|| NoNumber(t, key.fn, key.lfn, name, upper)
        || (CannotStretch(chain, |u|, free) && Crowded(u, PartsFor(key.fn, |name|) + 1)))
  }

  /**
    After an object has been registered under a name that no object had, a search for that name
    finds its short entry, and finds nothing exactly if the name has 255 characters and the short
    form cannot tell: the end mark of such a long name does not fit.
  */
  lemma RegisterThenFind(t: seq<DirEntry>, t1: seq<DirEntry>, u: seq<DirEntry>, j: nat,
                         sn: seq<byte>, fn: seq<byte>, lfn: LfnBuf, key: Key, name: seq<u16>, upper: Upper)
    requires Tidy(t) && Prepared(sn) && Named(t, sn, fn, lfn, name, upper)
    requires HoldsName(key.lfn, name) && key.fn == sn && key.withLfn && Absent(t, key, upper)
    requires Lengthened(t, t1) && |fn| == 12 && FirstRoom(t1, PartsFor(fn, |name|) + 1, j)
    requires Registered(t1, u, j, PartsFor(fn, |name|), fn, name)
    ensures Entered(u, key, |name|, upper, j)
    ensures Absent(u, key, upper) <==> |name| == 255 && Lossy(sn)
  {
    hide IsHit, IsPart, Named, HoldsName, RoomAt, Registered;
    NamedPrepared(t, sn, fn, lfn, name, upper);
    NotLossySame(t, sn, fn, lfn, name, upper);
    NewHit(t1, u, j, sn, fn, key, name, upper);
    NamePartsPositive(key.lfn, name);
    NothingBefore(t, t1, u, j, fn, name);
    RegisterOthers(t, t1, u, j, fn, name, upper);
    forall i: nat | i != j
      ensures !IsHit(u, key, upper, i)
    {
      AbsentNoHit(t, key, upper, i);
    }
  }

  /** In a table that is zero from its end on, a name that is not found is nowhere. */
  lemma AbsentNoHit(t: seq<DirEntry>, key: Key, upper: Upper, i: nat)
    requires Tidy(t) && Absent(t, key, upper)
    ensures !IsHit(t, key, upper, i)
  {
    if i < |t| && t[i][0] != 0 {
      UsedBelow(t, i);
    }
  }

  lemma NothingBefore(t: seq<DirEntry>, t1: seq<DirEntry>, u: seq<DirEntry>, j: nat, fn: seq<byte>, name: seq<u16>)
    requires Tidy(t) && Lengthened(t, t1) && |fn| == 12 && FirstRoom(t1, PartsFor(fn, |name|) + 1, j)
    requires Registered(t1, u, j, PartsFor(fn, |name|), fn, name)
    ensures NoEnd(u, j)
  {
    hide IsPart;
    var parts := PartsFor(fn, |name|);
    TidyLonger(t, t1);
    RoomBelowEnd(t1, parts + 1, j);
    forall i | j - parts <= i < j
      ensures u[i][0] != 0
    {
      NewEntries(t1, u, j, fn, name, i);
    }
  }

  lemma NotLossySame(t: seq<DirEntry>, sn: seq<byte>, fn: seq<byte>, lfn: LfnBuf, name: seq<u16>, upper: Upper)
    requires |sn| == 12 && Named(t, sn, fn, lfn, name, upper)
    ensures !Lossy(sn) ==> fn == sn
  {
  }

  /** The parts of a name of 255 characters are no run for it. */
  lemma {:induction false} NoRun(u: seq<DirEntry>, key: Key, upper: Upper, name: seq<u16>, j: nat, k: nat, sum: byte,
      s: byte)
    requires HoldsName(key.lfn, name) && |name| == MAX_LFN && k < Parts(|name|) <= j <= |u|
    requires forall i :: j - Parts(|name|) <= i < j ==> IsPart(u[i], name, j - i, sum)
    ensures !LongRun(u, key, upper, j - k, k, s)
    decreases Parts(|name|) - k
  {
    hide IsPart, Matches, HoldsName, Order, Starts;
    var e := u[j - k - 1];
    assert IsPart(e, name, k + 1, sum);
    PartIsLong(e, name, k + 1, sum);
    PartMatches(key.lfn, e, name, k + 1, sum, upper);
    if k + 1 < Parts(|name|) {
      NoRun(u, key, upper, name, j, k + 1, sum, s);
    }
  }

  // ---------- What registering keeps ----------

  /** No object has the short name that the new one gets. */
  lemma NameIsNew(t: seq<DirEntry>, sn: seq<byte>, fn: seq<byte>, lfn: LfnBuf, name: seq<u16>, key: Key, upper: Upper,
                  i: nat)
    requires Tidy(t) && Prepared(sn) && Named(t, sn, fn, lfn, name, upper) && i < |t| && IsShort(t[i])
    requires key.fn == sn && Absent(t, key, upper)
    ensures t[i][..11] != fn[..11]
  {
    hide LongRun, Numbered, NumberFor;
    UsedBelow(t, i);
    if Lossy(sn) {
      var n: u16 :|
        1 <= n < 100 && fn == Numbered(sn, NumberFor(name, n)) && Absent(t, NumberedKey(sn, lfn, name, n), upper);
      var numbered := NumberedKey(sn, lfn, name, n);
      KeepsStatus(sn, NumberFor(name, n));
      assert !IsHit(t, numbered, upper, i);
      assert numbered.fn[..11] == fn[..11];
    } else {
      assert !IsHit(t, key, upper, i);
    }
  }

  /** Registering keeps the end of the table zero. */
  lemma RegisterTidy(t: seq<DirEntry>, t1: seq<DirEntry>, u: seq<DirEntry>, j: nat, fn: seq<byte>, name: seq<u16>)
    requires Tidy(t) && Lengthened(t, t1) && |fn| == 12 && FirstRoom(t1, PartsFor(fn, |name|) + 1, j)
    requires Registered(t1, u, j, PartsFor(fn, |name|), fn, name) && fn[0] != 0 && fn[0] != DDEM
    ensures Tidy(u)
  {
    hide IsPart, RoomAt;
    var parts := PartsFor(fn, |name|);
    TidyLonger(t, t1);
    RoomBelowEnd(t1, parts + 1, j);
    assert u[j][0] == u[j][..11][0] == fn[..11][0];
    forall i | j - parts <= i < j
      ensures u[i][0] != 0
    {
      assert IsPart(u[i], name, j - i, SumSfn(fn[..11]));
      PartIsLong(u[i], name, j - i, SumSfn(fn[..11]));
    }
  }

  /** Registering keeps the end of the table zero, and the short names distinct. */
  lemma RegisterKeeps(t: seq<DirEntry>, t1: seq<DirEntry>, u: seq<DirEntry>, j: nat,
                      sn: seq<byte>, fn: seq<byte>, lfn: LfnBuf, key: Key, name: seq<u16>, upper: Upper)
    requires Tidy(t) && NamesDiffer(t) && Prepared(sn) && Named(t, sn, fn, lfn, name, upper)
    requires key.fn == sn && Absent(t, key, upper)
    requires Lengthened(t, t1) && |fn| == 12 && FirstRoom(t1, PartsFor(fn, |name|) + 1, j)
    requires Registered(t1, u, j, PartsFor(fn, |name|), fn, name)
    ensures Tidy(u) && NamesDiffer(u)
  {
    hide IsHit, IsPart, Named, Absent, RoomAt;
    var parts := PartsFor(fn, |name|);
    NamedPrepared(t, sn, fn, lfn, name, upper);
    TidyLonger(t, t1);
    RoomBelowEnd(t1, parts + 1, j);
    assert u[j][0] == u[j][..11][0] == fn[..11][0];
    forall i | j - parts <= i < j
      ensures u[i][0] != 0 && !IsShort(u[i])
    {
      assert IsPart(u[i], name, j - i, SumSfn(fn[..11]));
      PartIsLong(u[i], name, j - i, SumSfn(fn[..11]));
    }
    forall i | 0 <= i < |u| && i != j && IsShort(u[i])
      ensures i < |t| && u[i] == t[i] && u[i][..11] != u[j][..11]
    {
      NameIsNew(t, sn, fn, lfn, name, key, upper, i);
    }
  }

  // ---------- Removing ----------

  /** Removing keeps the end of the table zero, and the short names distinct. */
  lemma RemoveKeeps(t: seq<DirEntry>, u: seq<DirEntry>, from: nat, j: nat)
    requires Tidy(t) && NamesDiffer(t) && j < |t| && IsShort(t[j]) && from <= j && Deleted(t, u, from, j)
    ensures Tidy(u) && NamesDiffer(u)
  {
    UsedBelow(t, j);
  }

  /** Runs end at short and free entries, so that what is deleted is part of no other object. */
  lemma {:induction false} RunBehind(t: seq<DirEntry>, u: seq<DirEntry>, key: Key, upper: Upper, from: nat, j: nat,
      i: nat, ord: nat, sum: byte)
    requires j < i <= |t| && |u| == |t| && !IsLong(t[j]) && !IsLong(u[j])
    requires forall k :: 0 <= k < |t| && !(from <= k <= j) ==> u[k] == t[k]
    ensures LongRun(u, key, upper, i, ord, sum) == LongRun(t, key, upper, i, ord, sum)
    decreases i
  {
    if i > j + 1 {
      RunBehind(t, u, key, upper, from, j, i - 1, ord + 1, sum);
    }
  }

  /** Changing the entries of an object changes nothing for the other ones. */
  lemma OtherHits(t: seq<DirEntry>, u: seq<DirEntry>, key: Key, upper: Upper, from: nat, j: nat, i: nat)
    requires |u| == |t| && from <= j < |t| && !IsLong(t[j]) && !IsLong(u[j]) && i < |t| && !(from <= i <= j)
    requires forall k :: 0 <= k < |t| && !(from <= k <= j) ==> u[k] == t[k]
    ensures IsHit(u, key, upper, i) == IsHit(t, key, upper, i)
  {
    if i < from {
      SameHit(t, u, key, upper, i);
    } else {
      RunBehind(t, u, key, upper, from, j, i, 0, SumSfn(t[i][..11]));
    }
  }

  lemma DeletedIsFree()
    ensures IsFree(DeletedEntry()) && !IsLong(DeletedEntry()) && !IsShort(DeletedEntry())
  {
  }

  /** No entry between the top of an object's long name and its short entry is one of another object. */
  lemma {:induction false} TopIsLong(t: seq<DirEntry>, i: nat, k: nat)
    requires i <= |t| && LongTop(t, i) != 0xFFFF && LongTop(t, i) <= k < i
    ensures IsLong(t[k])
    decreases i
  {
    if k < i - 1 {
      TopIsLong(t, i - 1, k);
    }
  }

  /** After an object has been removed, every other object is found as before, and it is not. */
  lemma RemoveOthers(t: seq<DirEntry>, u: seq<DirEntry>, key: Key, upper: Upper, j: nat, i: nat)
    requires j < |t| && IsShort(t[j]) && i < |t|
    requires Deleted(t, u, if LongTop(t, j) == 0xFFFF then j else LongTop(t, j), j)
    ensures IsHit(u, key, upper, i) <==> i != j && IsHit(t, key, upper, i)
  {
    hide LongRun, LongTop, DeletedEntry;
    var from := if LongTop(t, j) == 0xFFFF then j else LongTop(t, j);
    DeletedIsFree();
    if from <= i <= j {
      if i < j {
        TopIsLong(t, j, i);
      }
    } else {
      OtherHits(t, u, key, upper, from, j, i);
    }
  }

  /** Removing an object that has just been registered leaves all other objects as they were before. */
  lemma RemoveUndoesRegister(t1: seq<DirEntry>, u: seq<DirEntry>, w: seq<DirEntry>, j: nat,
                             fn: seq<byte>, name: seq<u16>, key: Key, upper: Upper, i: nat)
    requires |fn| == 12 && fn[0] != 0 && fn[0] != DDEM && RoomAt(t1, PartsFor(fn, |name|) + 1, j)
    requires Registered(t1, u, j, PartsFor(fn, |name|), fn, name) && i < |t1|
    requires Deleted(u, w, if LongTop(u, j) == 0xFFFF then j else LongTop(u, j), j)
    ensures IsHit(w, key, upper, i) <==> IsHit(t1, key, upper, i)
  {
    hide LongRun, LongTop, IsPart;
    assert u[j][0] == u[j][..11][0] == fn[..11][0];
    RemoveOthers(u, w, key, upper, j, i);
    var from := j - PartsFor(fn, |name|);
    if from <= i <= j {
      assert !IsHit(t1, key, upper, i);
      if i < j {
        assert IsPart(u[i], name, j - i, SumSfn(fn[..11]));
        PartIsLong(u[i], name, j - i, SumSfn(fn[..11]));
      }
    } else {
      OtherHits(t1, u, key, upper, from, j, i);
    }
  }
}
