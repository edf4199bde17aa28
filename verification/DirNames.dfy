/**
  What a directory table says: which entries stand for a name, where there is room, and what
  registering and removing an object does to the table.
*/
module DirNames {
  import opened Bytes
  import opened Lfn

  const DDEM: byte := 0xE5     // first byte of a deleted entry
  const DOT: byte := 0x2E      // first byte of the dot entries

  function ZeroEntry(): (e: DirEntry)
    ensures forall k :: 0 <= k < 32 ==> e[k] == 0
  {
    seq(32, _ => 0)
  }

  /** What is left of a removed entry. */
  function DeletedEntry(): (e: DirEntry)
    ensures e[0] == DDEM
  {
    ZeroEntry()[0 := DDEM]
  }

  // ---------- Kinds of entries ----------

  predicate IsFree(e: DirEntry) {
    e[0] == DDEM || e[0] == 0
  }

  /** Part of a long name. */
  predicate IsLong(e: DirEntry) {
    !IsFree(e) && e[11] % 0x40 == AM_LFN
  }

  /** A file or directory; neither deleted, nor a volume label. */
  predicate IsShort(e: DirEntry) {
    !IsFree(e) && e[11] / 8 % 2 == 0
  }

  /** The name looked for: the short form with its status byte, and the long form. */
  datatype Key = Key(fn: seq<byte>, lfn: LfnBuf, withLfn: bool)

  predicate Lossy(fn: seq<byte>)
    requires |fn| == 12
  {
    fn[11] % 2 == 1
  }

  // ---------- Which entry has the name ----------

  predicate ShortMatch(e: DirEntry, key: Key) {
    |key.fn| == 12 && !Lossy(key.fn) && e[..11] == key.fn[..11]
  }

  /**
    The entries before `i` are parts `ord + 1` and up of the name looked for, down from its last
    part, with check sum `sum`.
  */
  ghost predicate LongRun(t: seq<DirEntry>, key: Key, upper: Upper, i: nat, ord: nat, sum: byte)
    requires i <= |t|
  {
    && i > 0 && IsLong(t[i - 1]) && t[i - 1][13] == sum && Matches(key.lfn, t[i - 1], upper)
    && Order(t[i - 1]) == ord + 1
    && (Starts(t[i - 1]) || LongRun(t, key, upper, i - 1, ord + 1, sum))
  }

  /** Entry `i` is that of an object with the name. */
  ghost predicate IsHit(t: seq<DirEntry>, key: Key, upper: Upper, i: nat) {
    && i < |t| && IsShort(t[i])
    && (ShortMatch(t[i], key) || (key.withLfn && LongRun(t, key, upper, i, 0, SumSfn(t[i][..11]))))
  }

  /** No entry before `n` ends the table. */
  predicate NoEnd(t: seq<DirEntry>, n: nat) {
    n <= |t| && forall i :: 0 <= i < n ==> t[i][0] != 0
  }

  /** Entry `i` is the first of the table that has the name. */
  ghost predicate FirstHit(t: seq<DirEntry>, key: Key, upper: Upper, i: nat) {
    && IsHit(t, key, upper, i) && NoEnd(t, i)
    && forall j: nat :: j < i ==> !IsHit(t, key, upper, j)
  }

  /** No entry of the table, up to its end, has the name. */
  ghost predicate Absent(t: seq<DirEntry>, key: Key, upper: Upper) {
    forall i: nat :: NoEnd(t, i) ==> !IsHit(t, key, upper, i)
  }

  /** The entry where the long name of the object at `i` begins; 0xFFFF: it has none. */
  function LongTop(t: seq<DirEntry>, i: nat): (k: nat)
    requires i <= |t|
    ensures k < i || k == 0xFFFF
  {
    if i == 0 || !IsLong(t[i - 1]) then 0xFFFF
    else if Starts(t[i - 1]) then i - 1
    else LongTop(t, i - 1)
  }

  // ---------- The state of a search ----------

  /** What dir_find knows before entry `i`: the next part it expects, 0xFF for none, and the check sum. */
  ghost predicate Expects(t: seq<DirEntry>, key: Key, upper: Upper, i: nat, ord: byte, sum: byte)
    requires i <= |t|
  {
    if ord == 0xFF then forall o: nat, s: byte :: !LongRun(t, key, upper, i, o, s)
    else LongRun(t, key, upper, i, ord, sum)
  }

  /** There is one run at most. */
  lemma RunUnique(t: seq<DirEntry>, key: Key, upper: Upper, i: nat, o0: nat, s0: byte, o1: nat, s1: byte)
    requires i <= |t|
    ensures LongRun(t, key, upper, i, o0, s0) && LongRun(t, key, upper, i, o1, s1) ==> o0 == o1 && s0 == s1
  {
  }

  /** How the state of the search follows a part of a long name. */
  function AfterPart(e: DirEntry, ord: byte, sum: byte, matches: bool): (r: (byte, byte))
  {
    var sum' := if Starts(e) then e[13] else sum;
    var ord' := if Starts(e) then Order(e) else ord;
    (if Order(e) == ord' && sum' == e[13] && matches && ord' > 0 then ord' - 1 else 0xFF, sum')
  }

  lemma ExpectsNext(t: seq<DirEntry>, key: Key, upper: Upper, i: nat, ord: byte, sum: byte)
    requires i < |t| && Expects(t, key, upper, i, ord, sum) && IsLong(t[i])
    ensures var (ord', sum') := AfterPart(t[i], ord, sum, Matches(key.lfn, t[i], upper));
      Expects(t, key, upper, i + 1, ord', sum')
  {
    var e := t[i];
    var (ord', sum') := AfterPart(e, ord, sum, Matches(key.lfn, e, upper));
    OrderBound(e);
    if ord' == 0xFF {
      var n := i + 1;
      forall o: nat, s: byte
        ensures !LongRun(t, key, upper, n, o, s)
      {
        RunBefore(t, key, upper, i, o, s);
        RunUnique(t, key, upper, i, o + 1, s, ord, sum);
      }
    }
  }

  lemma RunBefore(t: seq<DirEntry>, key: Key, upper: Upper, i: nat, o: nat, s: byte)
    requires i < |t|
    ensures LongRun(t, key, upper, i + 1, o, s) ==>
      && t[i][13] == s && Matches(key.lfn, t[i], upper) && Order(t[i]) == o + 1
      && (Starts(t[i]) || LongRun(t, key, upper, i, o + 1, s))
  {
  }

  lemma OrderBound(e: DirEntry)
    ensures Order(e) <= 0xBF
  {
  }

  lemma ExpectsNothing(t: seq<DirEntry>, key: Key, upper: Upper, i: nat, sum: byte)
    requires i < |t| && !IsLong(t[i])
    ensures Expects(t, key, upper, i + 1, 0xFF, sum)
  {
  }

  // ---------- Room for entries ----------

  /** The `n` entries up to and with entry `j` are free. */
  predicate RoomAt(t: seq<DirEntry>, n: nat, j: nat) {
    n <= j + 1 <= |t| && forall k :: j + 1 - n <= k <= j ==> IsFree(t[k])
  }

  /** There is no room for `n` entries. */
  ghost predicate Crowded(t: seq<DirEntry>, n: nat) {
    forall j: nat :: !RoomAt(t, n, j)
  }

  /** The first room for `n` entries ends at entry `j`. */
  predicate FirstRoom(t: seq<DirEntry>, n: nat, j: nat) {
    RoomAt(t, n, j) && forall i: nat :: i < j ==> !RoomAt(t, n, i)
  }

  /** The table has only got longer, by entries that are zero. */
  predicate Lengthened(t: seq<DirEntry>, u: seq<DirEntry>) {
    && |t| <= |u| && (forall i :: 0 <= i < |t| ==> u[i] == t[i])
    && forall i :: |t| <= i < |u| ==> u[i] == ZeroEntry()
  }

  /** `n` is the number of free entries right before entry `i`, and there was no room for `m` before. */
  predicate Counted(t: seq<DirEntry>, m: nat, i: nat, n: nat) {
    && n <= i <= |t| && n < m
    && (forall k :: i - n <= k < i ==> IsFree(t[k]))
    && (n < i ==> !IsFree(t[i - n - 1]))
    && forall j: nat :: j < i ==> !RoomAt(t, m, j)
  }

  lemma CountStart(t: seq<DirEntry>, m: nat)
    requires 0 < m
    ensures Counted(t, m, 0, 0)
  {
  }

  lemma CountNext(t: seq<DirEntry>, m: nat, i: nat, n: nat)
    requires Counted(t, m, i, n) && i < |t|
    ensures n < m
    ensures IsFree(t[i]) && n + 1 == m ==> FirstRoom(t, m, i)
    ensures IsFree(t[i]) && n + 1 < m ==> Counted(t, m, i + 1, n + 1)
    ensures !IsFree(t[i]) ==> Counted(t, m, i + 1, 0)
  {
    if IsFree(t[i]) && n + 1 < m && n < i {
      assert !IsFree(t[i - n - 1]);
      assert RoomAt(t, m, i) ==> i + 1 - m <= i - n - 1;
    }
    assert !IsFree(t[i]) ==> !RoomAt(t, m, i);
  }

  lemma CountLonger(t: seq<DirEntry>, u: seq<DirEntry>, m: nat, i: nat, n: nat)
    requires Counted(t, m, i, n) && Lengthened(t, u)
    ensures Counted(u, m, i, n)
  {
    forall j: nat | j < i
      ensures !RoomAt(u, m, j)
    {
      assert !RoomAt(t, m, j);
    }
  }

  lemma LengthenedAgain(t: seq<DirEntry>, u: seq<DirEntry>, w: seq<DirEntry>)
    requires Lengthened(t, u) && Lengthened(u, w)
    ensures Lengthened(t, w)
  {
  }

  // ---------- Registered objects ----------

  /** The short entry of a new object: its name and the case flags, and otherwise zeros. */
  predicate IsFresh(e: DirEntry, fn: seq<byte>)
    requires |fn| == 12
  {
    e[..11] == fn[..11] && e[12] == fn[11] / 8 % 4 * 8 && e[11] == 0 && forall k :: 13 <= k < 32 ==> e[k] == 0
  }

  /** Entries `j - parts` up to `j` have become the parts of a long name, last part first, and the short entry. */
  predicate Registered(t: seq<DirEntry>, u: seq<DirEntry>, j: nat, parts: nat, fn: seq<byte>, name: seq<u16>) {
    && |u| == |t| && parts <= j < |t| && |fn| == 12
    && (forall i :: j - parts <= i < j ==> IsPart(u[i], name, j - i, SumSfn(fn[..11])))
    && IsFresh(u[j], fn)
    && forall i :: 0 <= i < |t| && !(j - parts <= i <= j) ==> u[i] == t[i]
  }

  /** Long entries that go with a name. */
  function PartsFor(fn: seq<byte>, n: nat): nat
    requires |fn| == 12
  {
    if fn[11] / 2 % 2 == 1 then Parts(n) else 0
  }
}
