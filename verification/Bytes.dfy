/**
  Bytes, sectors and the little-endian loads and stores the on-disk format is built from.
  A sector is 512 bytes (the shipped configuration fixes the sector size).
*/
module Bytes {

  const SS: nat := 512

  type byte = x: int | 0 <= x < 0x100
  type u16 = x: int | 0 <= x < 0x1_0000
  type u32 = x: int | 0 <= x < 0x1_0000_0000

  type Sector = s: seq<byte> | |s| == 512 witness seq(512, _ => 0)

  const U32: int := 0x1_0000_0000

  function ZeroSector(): (s: Sector)
    ensures forall j :: 0 <= j < SS ==> s[j] == 0
  {
    seq(SS, _ => 0)
  }

  /** A result of unsigned 32-bit arithmetic. */
  function Wrap(x: int): (r: u32)
    ensures 0 <= x < U32 ==> r == x
  {
    x % U32
  }

  /** Unsigned 32-bit subtraction, with the wrap the C code relies on for its range tests. */
  function Sub32(a: u32, b: u32): (r: u32)
    ensures r == if b <= a then a - b else a - b + U32
  {
    (a - b) % U32
  }

  function Ld16(s: seq<byte>, i: nat): u16
    requires i + 2 <= |s|
  {
    s[i] as int + 0x100 * s[i + 1] as int
  }

  function Ld32(s: seq<byte>, i: nat): u32
    requires i + 4 <= |s|
  {
    Ld16(s, i) as int + 0x1_0000 * Ld16(s, i + 2) as int
  }

  function St16(s: seq<byte>, i: nat, v: int): (t: seq<byte>)
    requires i + 2 <= |s|
  {
    s[i := v % 0x100][i + 1 := v / 0x100 % 0x100]
  }

  function St32(s: seq<byte>, i: nat, v: int): (t: seq<byte>)
    requires i + 4 <= |s|
  {
    St16(St16(s, i, v), i + 2, v / 0x1_0000)
  }

  /** A stored word reads back modulo 2^16 and no other byte moves. */
  lemma St16Ld16(s: seq<byte>, i: nat, v: int)
    requires i + 2 <= |s|
    ensures |St16(s, i, v)| == |s|
    ensures Ld16(St16(s, i, v), i) == v % 0x1_0000
    ensures forall j :: 0 <= j < |s| && j != i && j != i + 1 ==> St16(s, i, v)[j] == s[j]
  {
  }

  /** A stored double word reads back modulo 2^32 and no other byte moves. */
  lemma St32Ld32(s: seq<byte>, i: nat, v: int)
    requires i + 4 <= |s|
    ensures |St32(s, i, v)| == |s|
    ensures Ld32(St32(s, i, v), i) == v % U32
    ensures forall j :: 0 <= j < |s| && !(i <= j < i + 4) ==> St32(s, i, v)[j] == s[j]
  {
    St16Ld16(s, i, v);
    St16Ld16(St16(s, i, v), i + 2, v / 0x1_0000);
  }
}
