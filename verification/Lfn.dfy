/**
  Long names: their characters are spread over directory entries, 13 to an entry, the last
  part first. Packing, unpacking and comparing.
*/
module Lfn {
  import opened Bytes

  const MAX_LFN: nat := 255
  const LLEF: byte := 0x40   // marks the entry that comes first and holds the end of the name
  const AM_LFN: byte := 0x0F
  const LFN_OFS: seq<nat> := [1, 3, 5, 7, 9, 14, 16, 18, 20, 22, 24, 28, 30]

  type DirEntry = e: seq<byte> | |e| == 32 witness seq(32, _ => 0)

  /** A buffer for long names: MAX_LFN characters and the end mark. */
  type LfnBuf = b: seq<u16> | |b| == 256 witness seq(256, _ => 0)

  /** Upper case conversion: any table that leaves 0, and only 0, as 0. */
  type Upper = t: seq<u16> | |t| == 0x1_0000 && forall c :: 0 <= c < 0x1_0000 ==> (t[c] == 0 <==> c == 0)
    witness seq(0x1_0000, c => c)

  /** Characters of a name: neither the end mark nor the padding. */
  predicate NameChars(name: seq<u16>) {
    forall i :: 0 <= i < |name| ==> name[i] != 0 && name[i] != 0xFFFF
  }

  /** The buffer holds the name; what comes after its end mark is of no account. */
  predicate HoldsName(buf: LfnBuf, name: seq<u16>) {
    0 < |name| <= MAX_LFN && NameChars(name) && buf[..|name|] == name && buf[|name|] == 0
  }

  // ---------- Entries ----------

  function EntryChar(e: DirEntry, k: nat): u16
    requires k < 13
  {
    Ld16(e, LFN_OFS[k])
  }

  predicate Starts(e: DirEntry) {
    e[0] / 0x40 % 2 == 1
  }

  /** Characters before the end mark in the entry: all 13 if there is none. */
  function TextLen(e: DirEntry, k: nat := 0): (n: nat)
    requires k <= 13
    ensures k <= n <= 13
    ensures forall j :: k <= j < n ==> EntryChar(e, j) != 0
    ensures n < 13 ==> EntryChar(e, n) == 0
    decreases 13 - k
  {
    if k == 13 || EntryChar(e, k) == 0 then k else TextLen(e, k + 1)
  }

  predicate WellPadded(e: DirEntry) {
    forall k :: TextLen(e) < k < 13 ==> EntryChar(e, k) == 0xFFFF
  }

  /** Characters of the entry up to and with the end mark. */
  function Used(e: DirEntry): nat {
    if TextLen(e) < 13 then TextLen(e) + 1 else 13
  }

  /** The `i`th character that a name takes up in its entries. */
  function CharAt(name: seq<u16>, i: nat): u16 {
    if i < |name| then name[i] else if i == |name| then 0 else 0xFFFF
  }

  /** Entries that a name takes up, the short one not counted. */
  function Parts(n: nat): nat {
    (n + 12) / 13
  }

  /** Entry `e` is part `ord`, counted from 1, of the name. */
  predicate IsPart(e: DirEntry, name: seq<u16>, ord: nat, sum: byte) {
    && 1 <= ord <= Parts(|name|) && |name| <= MAX_LFN
    && e[0] == (if ord == Parts(|name|) then LLEF + ord else ord)
    && e[11] == AM_LFN && e[12] == 0 && e[13] == sum && e[26] == e[27] == 0
    && forall k :: 0 <= k < 13 ==> EntryChar(e, k) == CharAt(name, (ord - 1) * 13 + k)
  }

  /** How much text the parts of a name hold. */
  lemma PartText(e: DirEntry, name: seq<u16>, ord: nat, sum: byte)
    requires IsPart(e, name, ord, sum) && NameChars(name)
    ensures var i := (ord - 1) * 13;
      && i < |name| && WellPadded(e)
      && TextLen(e) == (if |name| - i < 13 then |name| - i else 13)
      && (Starts(e) <==> |name| <= ord * 13) && e[0] % 0x40 == ord <= 20
  {
    hide EntryChar, TextLen;
    var i := (ord - 1) * 13;
    var n := if |name| - i < 13 then |name| - i else 13;
    forall k | 0 <= k < 13
      ensures EntryChar(e, k) == CharAt(name, i + k) && (k < n ==> EntryChar(e, k) != 0)
    {
    }
    TextLenIs(e, n);
  }

  lemma TextLenIs(e: DirEntry, n: nat)
    requires n <= 13 && (forall k :: 0 <= k < n ==> EntryChar(e, k) != 0) && (n < 13 ==> EntryChar(e, n) == 0)
    ensures TextLen(e) == n
  {
    hide EntryChar;
    var m := TextLen(e);
    assert m < 13 ==> EntryChar(e, m) == 0;
  }

  // ---------- fit_lfn ----------

  /** Storing one character leaves the other ones and the rest of the entry. */
  lemma CharStored(e: DirEntry, s: nat, wc: u16)
    requires s < 13
    ensures var f := St16(e, LFN_OFS[s], wc);
      && |f| == 32 && EntryChar(f, s) == wc
      && (forall k :: 0 <= k < 13 && k != s ==> EntryChar(f, k) == EntryChar(e, k))
      && f[0] == e[0] && f[11] == e[11] && f[12] == e[12] && f[13] == e[13] && f[26] == e[26] && f[27] == e[27]
  {
    St16Ld16(e, LFN_OFS[s], wc);
    forall k | 0 <= k < 13 && k != s
      ensures LFN_OFS[k] + 1 < LFN_OFS[s] || LFN_OFS[s] + 1 < LFN_OFS[k]
    {
    }
  }

  /** Make the entry for part `ord` of a name. */
  method FitLfn(lfn: LfnBuf, was: DirEntry, ord: byte, sum: byte, ghost name: seq<u16>) returns (dir: DirEntry)
    requires HoldsName(lfn, name) && 1 <= ord <= Parts(|name|)
    ensures IsPart(dir, name, ord, sum)
  {
    dir := was[13 := sum][11 := AM_LFN][12 := 0][26 := 0][27 := 0];
    var i: nat := (ord - 1) * 13;
    var s, wc: u16 := 0, 0;
    ghost var i0, n := i, |name|;
    while s < 13
      invariant 0 <= s <= 13 && i == (if i0 + s <= n then i0 + s else n + 1)
      invariant s > 0 ==> wc == (if i0 + s - 1 < n then name[i0 + s - 1] else 0xFFFF)
      invariant s == 0 ==> wc == 0
      invariant dir[11] == AM_LFN && dir[12] == 0 && dir[13] == sum && dir[26] == dir[27] == 0
      invariant forall k :: 0 <= k < s ==> EntryChar(dir, k) == CharAt(name, i0 + k)
    {
      if wc != 0xFFFF {
        assert i < n ==> lfn[i] == lfn[..n][i];
        wc := lfn[i];
        i := i + 1;
      }
      CharStored(dir, s, wc);
      dir := St16(dir, LFN_OFS[s], wc);
      if wc == 0 { wc := 0xFFFF; }
      s := s + 1;
    }
    assert i < n ==> lfn[i] == lfn[..n][i];
    var o: byte := ord;
    if wc == 0xFFFF || lfn[i] == 0 { o := o + LLEF; }
    ghost var packed := dir;
    dir := dir[0 := o];
    assert forall k :: 0 <= k < 13 ==> EntryChar(dir, k) == EntryChar(packed, k);
  }

  // ---------- pick_lfn ----------

  /** Place of an entry's characters in the buffer; an entry of order 0 has none. */
  function PartOffset(ord: nat): nat {
    if ord == 0 then 0xFFFF_FFF3 else (ord - 1) * 13
  }

  /** The characters of the entry fit the buffer, and after the end mark there is padding only. */
  predicate Pickable(e: DirEntry) {
    var i := PartOffset(e[0] % 0x40) + Used(e);
    WellPadded(e) && i <= MAX_LFN && (Starts(e) ==> i < MAX_LFN)
  }

  /** The buffer with the characters of the entry, and behind the last part an end mark. */
  ghost predicate Picked(was: LfnBuf, now: LfnBuf, e: DirEntry) {
    var i := PartOffset(e[0] % 0x40);
    && i + Used(e) <= MAX_LFN
    && (forall k :: 0 <= k < Used(e) ==> now[i + k] == EntryChar(e, k))
    && (Starts(e) ==> now[i + Used(e)] == 0)
    && forall j :: 0 <= j < 256 && !(i <= j < i + Used(e)) && !(Starts(e) && j == i + Used(e)) ==> now[j] == was[j]
  }

  /** Take the characters of an entry into the buffer. */
  method PickLfn(lfn: array<u16>, dir: DirEntry) returns (ok: bool)
    requires lfn.Length == 256
    modifies lfn
    ensures ok <==> Pickable(dir)
    ensures ok ==> Picked(old(lfn[..]), lfn[..], dir)
  {
    hide EntryChar, TextLen, PartOffset, Starts;
    var i: nat := PartOffset(dir[0] % 0x40);
    var s, wc: u16 := 0, 1;
    ghost var i0, n := i, TextLen(dir);
    while s < 13
      invariant 0 <= s <= 13
      invariant wc == 0 <==> s > n
      invariant i == i0 + if s <= n then s else n + 1
      invariant i <= MAX_LFN || s == 0
      invariant forall k :: n < k < s ==> EntryChar(dir, k) == 0xFFFF
      invariant forall k :: 0 <= k < s && k <= n ==> lfn[i0 + k] == EntryChar(dir, k)
      invariant forall j :: 0 <= j < 256 && !(i0 <= j < i) ==> lfn[j] == old(lfn[j])
    {
      var uc := EntryChar(dir, s);
      if wc != 0 {
        if i >= MAX_LFN { return false; }
        lfn[i] := uc;
        i := i + 1;
        wc := uc;
      } else if uc != 0xFFFF {
        return false;
      }
      s := s + 1;
    }
    if Starts(dir) {
      if i >= MAX_LFN { return false; }
      lfn[i] := 0;
    }
    return true;
  }

  // ---------- cmp_lfn ----------

  /** The entry's order number as cmp_lfn takes it: the mark cleared, bit 7 not. */
  function Order(e: DirEntry): byte {
    if Starts(e) then e[0] - LLEF else e[0]
  }

  /** The entry is, but for the case of letters, the part of the name in the buffer that it stands for. */
  ghost predicate Matches(lfn: LfnBuf, e: DirEntry, upper: Upper) {
    var i := PartOffset(Order(e));
    && WellPadded(e) && i + Used(e) <= MAX_LFN
    && (forall k :: 0 <= k < Used(e) ==> upper[EntryChar(e, k)] == upper[lfn[i + k]])
    && (Starts(e) && TextLen(e) == 13 ==> lfn[i + 13] == 0)
  }

  method CmpLfn(lfn: LfnBuf, dir: DirEntry, upper: Upper) returns (ok: bool)
    ensures ok <==> Matches(lfn, dir, upper)
  {
    hide EntryChar, TextLen, PartOffset, Order, Starts, Matches;
    var i: nat := PartOffset(Order(dir));
    var s, wc: u16 := 0, 1;
    ghost var i0, n := i, TextLen(dir);
    while s < 13
      invariant 0 <= s <= 13
      invariant wc == 0 <==> s > n
      invariant i == i0 + if s <= n then s else n + 1
      invariant i <= MAX_LFN || s == 0
      invariant forall k :: n < k < s ==> EntryChar(dir, k) == 0xFFFF
      invariant forall k :: 0 <= k < s && k <= n ==> upper[EntryChar(dir, k)] == upper[lfn[i0 + k]]
    {
      var uc := EntryChar(dir, s);
      if wc != 0 {
        wc := upper[uc];
        if i >= MAX_LFN || wc != upper[lfn[i]] {
          CharDiffers(lfn, dir, upper, s);
          return false;
        }
        i := i + 1;
      } else if uc != 0xFFFF {
        BadPadding(lfn, dir, upper, s);
        return false;
      }
      s := s + 1;
    }
    AllCharsMatch(lfn, dir, upper);
    if Starts(dir) && wc != 0 && lfn[i] != 0 { return false; }
    return true;
  }

  lemma CharDiffers(lfn: LfnBuf, e: DirEntry, upper: Upper, s: nat)
    requires s < 13 && s <= TextLen(e)
    requires var i := PartOffset(Order(e)) + s; i >= MAX_LFN || upper[EntryChar(e, s)] != upper[lfn[i]]
    ensures !Matches(lfn, e, upper)
  {
    hide EntryChar, TextLen, PartOffset, Order, Starts;
  }

  lemma BadPadding(lfn: LfnBuf, e: DirEntry, upper: Upper, s: nat)
    requires TextLen(e) < s < 13 && EntryChar(e, s) != 0xFFFF
    ensures !Matches(lfn, e, upper)
  {
    hide EntryChar, TextLen, PartOffset, Order, Starts;
  }

  lemma AllCharsMatch(lfn: LfnBuf, e: DirEntry, upper: Upper)
    requires PartOffset(Order(e)) + Used(e) <= MAX_LFN
    requires forall k :: TextLen(e) < k < 13 ==> EntryChar(e, k) == 0xFFFF
    requires var i := PartOffset(Order(e));
      forall k :: 0 <= k < 13 && k <= TextLen(e) ==> upper[EntryChar(e, k)] == upper[lfn[i + k]]
    ensures Matches(lfn, e, upper) <==> !(Starts(e) && TextLen(e) == 13 && lfn[PartOffset(Order(e)) + 13] != 0)
  {
    hide EntryChar, TextLen, PartOffset, Order, Starts;
  }

  /** A part of a name matches that name, as long as the name has no more than 254 characters. */
  lemma PartMatches(lfn: LfnBuf, e: DirEntry, name: seq<u16>, ord: nat, sum: byte, upper: Upper)
    requires HoldsName(lfn, name) && IsPart(e, name, ord, sum)
    ensures Order(e) == ord
    ensures Matches(lfn, e, upper) <==> (|name| < MAX_LFN || ord < Parts(|name|))
  {
    hide EntryChar, TextLen;
    PartText(e, name, ord, sum);
    var i := (ord - 1) * 13;
    forall k | 0 <= k < Used(e)
      ensures i + k <= |name| && EntryChar(e, k) == lfn[i + k]
    {
      assert i + k < |name| ==> lfn[i + k] == lfn[..|name|][i + k];
    }
  }

  // ---------- sum_sfn ----------

  /** Sum over the bytes of a short name: rotated right before each byte is added. */
  function SumSfn(s: seq<byte>): byte {
    if s == [] then 0
    else
      var b := SumSfn(s[..|s| - 1]);
      (b / 2 + b % 2 * 0x80 + s[|s| - 1]) % 0x100
  }

  lemma TopBit(b: byte)
    ensures b * 0x80 % 0x100 == b % 2 * 0x80
  {
    assert b * 0x80 == b / 2 * 0x100 + b % 2 * 0x80;
  }

  lemma SumNext(s: DirEntry, n: nat)
    requires n < 32
    ensures var b := SumSfn(s[..n]); SumSfn(s[..n + 1]) == (b / 2 + b * 0x80 % 0x100 + s[n]) % 0x100
  {
    assert s[..n + 1][..n] == s[..n];
    TopBit(SumSfn(s[..n]));
  }

  method SumOf(dir: DirEntry) returns (sum: byte)
    ensures sum == SumSfn(dir[..11])
  {
    assert SumSfn(dir[..0]) == 0;
    hide SumSfn;
    sum := 0;
    var n := 0;
    while n < 11
      invariant 0 <= n <= 11 && sum == SumSfn(dir[..n])
    {
      SumNext(dir, n);
      sum := (sum / 2 + sum * 0x80 % 0x100 + dir[n]) % 0x100;
      n := n + 1;
    }
  }
}
