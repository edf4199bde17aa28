/**
  Numbered short names: a short name is made distinct by a tilde and a number, which for
  higher numbers is a hash of the long name.
*/
module NumName {
  import opened Bytes
  import opened Numbers
  import opened Lfn

  const TILDE: byte := 0x7E
  const SPACE: byte := 0x20

  // ---------- The hash ----------

  /** One bit into the hash: shift, and where a bit is shifted out, combine with 0x11021. */
  function HashBit(sr: u16, b: nat): (r: u16)
    requires b < 2
  {
    var v := 2 * sr + b;
    XorIsFlips(v);
    if v >= 0x1_0000 then BitXor(v, 0x1_1021) else v
  }

  lemma TopFlip(v: nat)
    ensures 0x1_0000 <= v < 0x2_0000 ==> Flip(v, 0x1_0000) == v - 0x1_0000
  {
  }

  lemma ThreeFlips(v: nat)
    ensures 0x1_0000 <= v < 0x2_0000 ==> Flip(Flip(Flip(v - 0x1_0000, 0x1000), 0x20), 1) < 0x1_0000
  {
    if 0x1_0000 <= v < 0x2_0000 {
      FlipBelow(v - 0x1_0000, 0x1000);
      FlipBelow(Flip(v - 0x1_0000, 0x1000), 0x20);
      FlipBelow(Flip(Flip(v - 0x1_0000, 0x1000), 0x20), 1);
    }
  }

  lemma FlipBelow(x: nat, m: nat)
    requires x < 0x1_0000 && (m == 0x1000 || m == 0x20 || m == 1)
    ensures Flip(x, m) < 0x1_0000
  {
  }

  /** The exclusive or of the code inverts three bits, and the one that is shifted out. */
  lemma XorIsFlips(v: nat)
    ensures 0x1_0000 <= v < 0x2_0000 ==>
      BitXor(v, 0x1_1021) == Flip(Flip(Flip(v - 0x1_0000, 0x1000), 0x20), 1) < 0x1_0000
  {
    hide BitXor, PowerOfTwo, Flip;
    PowersOfTwo();
    ThreeFlips(v);
    TopFlip(v);
    XorZero(v);
    XorIsFlip(v, 0, 0x1_0000);
    XorIsFlip(v, 0x1_0000, 0x1000);
    XorIsFlip(v, 0x1_1000, 0x20);
    XorIsFlip(v, 0x1_1020, 1);
  }

  /** The lowest bit tells whether one was shifted out, so that the step can be undone. */
  lemma HashBitInjective(s: u16, t: u16, b: nat)
    requires b < 2 && HashBit(s, b) == HashBit(t, b)
    ensures s == t
  {
    hide BitXor;
    XorIsFlips(2 * s + b);
    XorIsFlips(2 * t + b);
    LowBit(s, b);
    LowBit(t, b);
    if 2 * s + b >= 0x1_0000 {
      var x, y := 2 * s + b - 0x1_0000, 2 * t + b - 0x1_0000;
      FlipTwice(Flip(Flip(x, 0x1000), 0x20), 1);
      FlipTwice(Flip(Flip(y, 0x1000), 0x20), 1);
      FlipTwice(Flip(x, 0x1000), 0x20);
      FlipTwice(Flip(y, 0x1000), 0x20);
      FlipTwice(x, 0x1000);
      FlipTwice(y, 0x1000);
    }
  }

  lemma FlipTwice(x: nat, m: nat)
    requires m == 1 || m == 0x20 || m == 0x1000
    ensures Flip(Flip(x, m), m) == x
  {
  }

  lemma LowBit(s: u16, b: nat)
    requires b < 2
    ensures HashBit(s, b) % 2 == if s >= 0x8000 then 1 - b else b
  {
    hide BitXor;
    XorIsFlips(2 * s + b);
  }

  /** The lowest `n` bits of a character, the lowest first. */
  function HashBits(sr: u16, wc: nat, n: nat): (r: u16)
    decreases n
  {
    if n == 0 then sr else HashBits(HashBit(sr, wc % 2), wc / 2, n - 1)
  }

  function Hash(sr: u16, name: seq<u16>): (r: u16)
    decreases |name|
  {
    if name == [] then sr else Hash(HashBits(sr, name[0], 16), name[1..])
  }

  lemma {:induction false} HashBitsInjective(s: u16, t: u16, wc: nat, n: nat)
    requires HashBits(s, wc, n) == HashBits(t, wc, n)
    ensures s == t
    decreases n
  {
    if n > 0 {
      HashBitsInjective(HashBit(s, wc % 2), HashBit(t, wc % 2), wc / 2, n - 1);
      HashBitInjective(s, t, wc % 2);
    }
  }

  /** For a fixed name the hash does not map two numbers to the same one. */
  lemma {:induction false} HashInjective(s: u16, t: u16, name: seq<u16>)
    requires Hash(s, name) == Hash(t, name)
    ensures s == t
    decreases |name|
  {
    if name != [] {
      HashInjective(HashBits(s, name[0], 16), HashBits(t, name[0], 16), name[1..]);
      HashBitsInjective(s, t, name[0], 16);
    }
  }

  // ---------- The number as text ----------

  function Digit(d: nat): byte
    requires d < 16
  {
    if d < 10 then 0x30 + d else 0x37 + d
  }

  /** Hexadecimal, with at least one digit. */
  function Hex(v: nat): (s: seq<byte>)
    ensures |s| > 0
    ensures forall i :: 0 <= i < |s| ==> s[i] != TILDE && s[i] != SPACE
  {
    (if v < 16 then [] else Hex(v / 16)) + [Digit(v % 16)]
  }

  lemma {:induction false} HexInjective(v: nat, w: nat)
    requires Hex(v) == Hex(w)
    ensures v == w
    decreases v
  {
    var s := Hex(v);
    assert s[|s| - 1] == Digit(v % 16) == Digit(w % 16);
    assert (if v < 16 then [] else Hex(v / 16)) == s[..|s| - 1] == (if w < 16 then [] else Hex(w / 16));
    if v >= 16 {
      HexInjective(v / 16, w / 16);
    }
  }

  lemma HexLength(v: u16)
    ensures |Hex(v)| <= 4
  {
    assert v / 16 / 16 / 16 < 16;
    if v >= 16 {
      if v / 16 >= 16 {
        if v / 16 / 16 >= 16 {
          assert |Hex(v / 16 / 16 / 16)| == 1;
        }
        assert |Hex(v / 16 / 16)| <= 2;
      }
      assert |Hex(v / 16)| <= 3;
    }
  }

  // ---------- The numbered name ----------

  /** Length of the body that is kept: up to a space, and to where the number has to begin. */
  function BodyLen(src: seq<byte>, i: nat, j: nat := 0): (n: nat)
    requires i <= |src| && j <= i
    ensures j <= n <= i
    ensures forall k :: j <= k < n ==> src[k] != SPACE
    ensures n < i ==> src[n] == SPACE
    decreases i - j
  {
    if j == i || src[j] == SPACE then j else BodyLen(src, i, j + 1)
  }

  function Spaces(n: nat): (s: seq<byte>)
    ensures |s| == n && forall i :: 0 <= i < n ==> s[i] == SPACE
  {
    seq(n, _ => SPACE)
  }

  /** The number, behind `j` bytes of a body of 8. */
  function NumberTail(h: seq<byte>, j: nat): (s: seq<byte>)
    requires j + |h| <= 7
    ensures |s| == 8 - j
    ensures s[0] == TILDE && forall i :: 0 < i < |s| ==> s[i] == if i <= |h| then h[i - 1] else SPACE
  {
    [TILDE] + h + Spaces(7 - |h| - j)
  }

  /** The short name `src` with number `v` in its body of 8 bytes. */
  function Numbered(src: seq<byte>, v: u16): (fn: seq<byte>)
    requires |src| >= 8
    ensures |fn| == |src| && fn[8..] == src[8..]
  {
    HexLength(v);
    var j := BodyLen(src, 7 - |Hex(v)|);
    src[..j] + NumberTail(Hex(v), j) + src[8..]
  }

  /** What is behind the last tilde tells the number. */
  lemma NumberedInjective(src: seq<byte>, v: u16, w: u16)
    requires |src| >= 8 && Numbered(src, v) == Numbered(src, w)
    ensures v == w
  {
    HexLength(v);
    HexLength(w);
    var g, h := Hex(v), Hex(w);
    var j, k := BodyLen(src, 7 - |g|), BodyLen(src, 7 - |h|);
    var s := Numbered(src, v);
    NumberText(src, v, g, j);
    NumberText(src, w, h, k);
    assert s[j] == s[k] == TILDE;
    assert j == k;
    TextEnd(s, j, |g|, |h|);
    assert g == h by {
      forall i | 0 <= i < |g|
        ensures g[i] == s[j + 1 + i] == h[i]
      {
      }
    }
    HexInjective(v, w);
  }

  lemma TextEnd(s: seq<byte>, j: nat, a: nat, b: nat)
    requires |s| >= 8 && j + a <= 7 && j + b <= 7
    requires forall m :: j < m < 8 ==> (s[m] == SPACE <==> m >= j + 1 + a)
    requires forall m :: j < m < 8 ==> (s[m] == SPACE <==> m >= j + 1 + b)
    ensures a == b
  {
    assert j + 1 + a < 8 ==> s[j + 1 + a] == SPACE;
    assert j + 1 + b < 8 ==> s[j + 1 + b] == SPACE;
  }

  lemma NumberText(src: seq<byte>, v: u16, h: seq<byte>, j: nat)
    requires |src| >= 8 && h == Hex(v) && |h| <= 4 && j == BodyLen(src, 7 - |h|)
    ensures var s := Numbered(src, v);
      && s[j] == TILDE && (forall i :: 0 <= i < |h| ==> s[j + 1 + i] == h[i])
      && (forall i :: j < i < 8 ==> s[i] != TILDE && (s[i] == SPACE <==> i >= j + 1 + |h|))
  {
    hide Hex, NumberTail, BodyLen;
    var s, u := Numbered(src, v), NumberTail(h, j);
    forall i | j <= i < 8
      ensures s[i] == u[i - j]
    {
    }
  }

  /** The number put into a name: small ones as they are, higher ones hashed. */
  function NumberFor(name: seq<u16>, n: u16): u16 {
    if n > 5 then Hash(n, name) else n
  }

  /** For one long name the hashed names are all different, and so are the small numbers. */
  lemma NumbersApart(src: seq<byte>, name: seq<u16>, m: u16, n: u16)
    requires |src| >= 8 && m != n && (m > 5 <==> n > 5)
    ensures Numbered(src, NumberFor(name, m)) != Numbered(src, NumberFor(name, n))
  {
    if Numbered(src, NumberFor(name, m)) == Numbered(src, NumberFor(name, n)) {
      NumberedInjective(src, NumberFor(name, m), NumberFor(name, n));
      if m > 5 {
        HashInjective(m, n, name);
      }
    }
  }

  // ---------- gen_numname ----------

  /** The number that goes into the name. */
  method HashName(lfn: LfnBuf, n: u16, ghost name: seq<u16>) returns (sr: u16)
    requires HoldsName(lfn, name)
    ensures sr == Hash(n, name)
  {
    sr := n;
    var k := 0;
    assert name[0..] == name;
    while lfn[k] != 0
      invariant 0 <= k <= |name| && Hash(sr, name[k..]) == Hash(n, name)
      invariant k < |name| ==> lfn[k] == lfn[..|name|][k] == name[k]
      decreases |name| - k
    {
      var wc: nat := lfn[k];
      k := k + 1;
      ghost var sr0 := sr;
      for i := 0 to 16
        invariant HashBits(sr, wc, 16 - i) == HashBits(sr0, name[k - 1], 16)
      {
        sr := HashBit(sr, wc % 2);
        wc := wc / 2;
      }
      assert name[k - 1..][1..] == name[k..];
    }
  }

  /** The number in hexadecimal at the end of the buffer, a tilde before it. */
  method Itoa(n: u16) returns (ns: array<byte>, i: nat)
    ensures fresh(ns) && ns.Length == 8 && i <= 6 && |Hex(n)| == 7 - i && ns[i..] == [TILDE] + Hex(n)
  {
    HexLength(n);
    var v: nat := n;
    ns := new byte[8];
    i := 7;
    var more := true;
    while more
      invariant if more then 0 <= i <= 7 && Hex(n) == Hex(v) + ns[i + 1..] else 0 <= i < 7 && Hex(n) == ns[i + 1..]
      invariant more ==> |Hex(v)| + 7 - i <= 4
      decreases more, v
    {
      ns[i] := Digit(v % 16);
      assert ns[i..] == [Digit(v % 16)] + ns[i + 1..];
      i := i - 1;
      more := v / 16 != 0;
      v := v / 16;
    }
    ns[i] := TILDE;
    assert ns[i..] == [TILDE] + Hex(n);
  }

  method GenNumname(src: seq<byte>, lfn: LfnBuf, n: u16, ghost name: seq<u16>) returns (dst: seq<byte>)
    requires |src| >= 11 && HoldsName(lfn, name)
    ensures dst == Numbered(src, NumberFor(name, n))
  {
    hide Hex, Hash;
    dst := src;
    var v := n;
    if n > 5 {
      v := HashName(lfn, n, name);
    }
    var ns, i := Itoa(v);
    var j := 0;
    while j < i && dst[j] != SPACE
      invariant 0 <= j <= i && BodyLen(src, i) == BodyLen(src, i, j)
    {
      j := j + 1;
    }
    ghost var j0, i0 := j, i;
    ghost var text := NumberTail(Hex(v), j0);
    assert ns[i0..] == [TILDE] + Hex(v);
    while j < 8
      invariant j0 <= j <= 8 && i == (if i0 + (j - j0) < 8 then i0 + (j - j0) else 8) && |dst| == |src|
      invariant i < 8 ==> ns[i] == text[j - j0]
      invariant forall k :: 0 <= k < |src| ==> dst[k] == if j0 <= k < j then text[k - j0] else src[k]
    {
      if i < 8 {
        dst := dst[j := ns[i]];
        i := i + 1;
      } else {
        dst := dst[j := SPACE];
      }
      j := j + 1;
    }
    assert dst == src[..j0] + text + src[8..];
  }
}
