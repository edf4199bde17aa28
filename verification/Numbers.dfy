/**
  Division, powers of two, and the bit operations of the C code on unsigned numbers.
*/
module Numbers {

  // ---------- Division ----------

  lemma DivisionUnique(k: nat, m: nat, q: nat, r: nat)
    requires m > 0 && k == q * m + r && r < m
    ensures k / m == q && k % m == r
  {
    var q' := k / m;
    assert k == q' * m + k % m;
    if q < q' {
      ProductGap(q, q', m);
    } else if q' < q {
      ProductGap(q', q, m);
    }
  }

  lemma ProductGap(a: nat, b: nat, m: nat)
    requires a < b
    ensures a * m + m <= b * m
  {
    assert b * m == a * m + (b - a) * m;
    assert (b - a) * m == m + (b - a - 1) * m;
  }

  lemma RemainderOfHalf(x: nat, h: nat)
    requires h > 0
    ensures x % (2 * h) == 2 * (x / 2 % h) + x % 2
  {
    var q, r := x / 2 / h, x / 2 % h;
    assert x / 2 == q * h + r;
    assert q * (2 * h) == 2 * (q * h);
    DivisionUnique(x, 2 * h, q, 2 * r + x % 2);
  }

  // ---------- Bit operations ----------

  /** `x & y`, bit by bit. */
  function BitAnd(x: nat, y: nat): (r: nat)
    ensures r <= x && r <= y
  {
    if x == 0 then 0
    else 2 * BitAnd(x / 2, y / 2) + if x % 2 == 1 && y % 2 == 1 then 1 else 0
  }

  /** `x & ~m`, bit by bit. */
  function AndNot(x: nat, m: nat): (r: nat)
    ensures r <= x
  {
    if x == 0 then 0
    else 2 * AndNot(x / 2, m / 2) + if x % 2 == 1 && m % 2 == 0 then 1 else 0
  }

  /** `x ^ y`, bit by bit. */
  function BitXor(x: nat, y: nat): nat {
    if x == 0 then y
    else 2 * BitXor(x / 2, y / 2) + if x % 2 == y % 2 then 0 else 1
  }

  predicate PowerOfTwo(n: nat) {
    n == 1 || (n > 0 && n % 2 == 0 && PowerOfTwo(n / 2))
  }

  lemma PowersOfTwo()
    ensures PowerOfTwo(1) && PowerOfTwo(2) && PowerOfTwo(4) && PowerOfTwo(8) && PowerOfTwo(0x10)
    ensures PowerOfTwo(0x20) && PowerOfTwo(0x40) && PowerOfTwo(0x80) && PowerOfTwo(0x100) && PowerOfTwo(0x200)
    ensures PowerOfTwo(0x400) && PowerOfTwo(0x800) && PowerOfTwo(0x1000) && PowerOfTwo(0x2000)
    ensures PowerOfTwo(0x4000) && PowerOfTwo(0x8000) && PowerOfTwo(0x1_0000)
  {
  }

  /** A mask keeps the bits that its complement takes away. */
  lemma {:induction false} MaskSplits(x: nat, m: nat)
    ensures BitAnd(x, m) + AndNot(x, m) == x
  {
    if x != 0 {
      MaskSplits(x / 2, m / 2);
    }
  }

  /** Clearing the bits of a mask takes away no more than the mask. */
  lemma {:induction false} AndNotBound(x: nat, m: nat)
    ensures x - m <= AndNot(x, m) <= x
  {
    if x != 0 {
      AndNotBound(x / 2, m / 2);
    }
  }

  lemma {:induction false} AndNotZero(x: nat)
    ensures AndNot(x, 0) == x
  {
    if x > 0 {
      AndNotZero(x / 2);
    }
  }

  /** For a power of two, what is left is a multiple of it. */
  lemma {:induction false} AndNotAligns(x: nat, n: nat)
    requires PowerOfTwo(n)
    ensures AndNot(x, n - 1) == x - x % n && AndNot(x, n - 1) % n == 0
    decreases n
  {
    if n == 1 {
      AndNotZero(x);
    } else {
      var h := n / 2;
      assert n == 2 * h && (n - 1) % 2 == 1 && (n - 1) / 2 == h - 1;
      AndNotAligns(x / 2, h);
      RemainderOfHalf(x, h);
      assert AndNot(x, n - 1) == 2 * AndNot(x / 2, h - 1);
      RemainderOfHalf(AndNot(x, n - 1), h);
    }
  }

  /** For a power of two, the mask keeps the remainder. */
  lemma MaskIsRemainder(x: nat, n: nat)
    requires PowerOfTwo(n)
    ensures BitAnd(x, n - 1) == x % n
  {
    AndNotAligns(x, n);
    MaskSplits(x, n - 1);
  }

  /** The test for powers of two in the C code. */
  lemma {:induction false} PowerTest(n: nat)
    requires n > 0
    ensures BitAnd(n, n - 1) == 0 <==> PowerOfTwo(n)
  {
    if n % 2 == 0 {
      PowerTest(n / 2);
      assert (n - 1) / 2 == n / 2 - 1;
    } else if n > 1 {
      BitAndSelf(n / 2);
      assert (n - 1) / 2 == n / 2;
    }
  }

  lemma {:induction false} BitAndSelf(n: nat)
    ensures BitAnd(n, n) == n
  {
    if n > 0 {
      BitAndSelf(n / 2);
    }
  }

  /** `x` with the bit of value `m` inverted. */
  function Flip(x: nat, m: nat): (r: nat)
    requires m > 0
  {
    if x / m % 2 == 0 then x + m else x - m
  }

  lemma {:induction false} XorZero(x: nat)
    ensures BitXor(x, 0) == x
  {
    if x > 0 {
      XorZero(x / 2);
    }
  }

  lemma XorStep(x: nat, y: nat)
    ensures BitXor(x, y) == 2 * BitXor(x / 2, y / 2) + if x % 2 == y % 2 then 0 else 1
  {
  }

  lemma FlipUp(x: nat, m: nat, b: nat)
    requires m > 0 && b < 2
    ensures Flip(2 * x + b, 2 * m) == 2 * Flip(x, m) + b
  {
    var q, r := x / m, x % m;
    assert 2 * x + b == q * (2 * m) + (2 * r + b) by {
      assert q * (2 * m) == 2 * (q * m);
    }
    DivisionUnique(2 * x + b, 2 * m, q, 2 * r + b);
  }

  /** One more bit in the second operand of an exclusive or inverts the bit. */
  lemma {:induction false} XorIsFlip(x: nat, y: nat, m: nat)
    requires PowerOfTwo(m) && y / m % 2 == 0
    ensures BitXor(x, y + m) == Flip(BitXor(x, y), m)
    decreases m
  {
    XorStep(x, y);
    XorStep(x, y + m);
    if m == 1 {
      LowestFlip(BitXor(x / 2, y / 2), x, y);
    } else {
      hide BitXor, Flip;
      var h := m / 2;
      Halved(y, m, h);
      XorIsFlip(x / 2, y / 2, h);
      FlipUp(BitXor(x / 2, y / 2), h, if x % 2 == y % 2 then 0 else 1);
    }
  }

  lemma LowestFlip(z: nat, x: nat, y: nat)
    requires y % 2 == 0
    ensures (y + 1) / 2 == y / 2
    ensures Flip(2 * z + (if x % 2 == y % 2 then 0 else 1), 1) == 2 * z + if x % 2 == (y + 1) % 2 then 0 else 1
  {
  }

  lemma Halved(y: nat, m: nat, h: nat)
    requires m == 2 * h && h > 0
    ensures (y + m) / 2 == y / 2 + h && (y + m) % 2 == y % 2 && y / 2 / h == y / m
  {
    var q, r := y / 2 / h, y / 2 % h;
    assert y / 2 == q * h + r;
    assert q * (2 * h) == 2 * (q * h);
    DivisionUnique(y, m, q, 2 * r + y % 2);
  }
}
