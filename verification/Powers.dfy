/** Powers of two, congruences, and odd factors. */
module Powers {
  import opened Bytes

  function Power(bits: nat): (p: nat)
    ensures 0 < p
  {
    if bits == 0 then 1 else 2 * Power(bits - 1)
  }

  lemma {:induction false} Power32()
    ensures Power(32) == TWO32
  {
    assert Power(8) == 256;
    assert Power(16) == 65536 by { assert Power(12) == 4096; }
    assert Power(24) == 0x100_0000 by { assert Power(20) == 0x10_0000; }
    assert Power(28) == 0x1000_0000;
  }

  lemma {:induction false} PowerSum(a: nat, b: nat)
    ensures Power(a + b) == Power(a) * Power(b)
  {
    if a > 0 {
      PowerSum(a - 1, b);
      MulTwice(Power(a - 1), Power(b));
    }
  }

  lemma {:induction false} MulTwice(x: nat, y: nat)
    ensures 2 * x * y == 2 * (x * y)
  {}

  lemma {:induction false} Power64()
    ensures Power(64) == TWO64
  {
    Power32();
    PowerSum(32, 32);
  }

  /** `x` and `y` differ by a multiple of `m`. */
  ghost predicate Congruent(x: int, y: int, m: nat) { exists k: int :: x - y == k * m }

  lemma {:induction false} MakeCongruent(x: int, y: int, m: nat, k: int)
    requires x - y == k * m
    ensures Congruent(x, y, m)
  {}

  lemma {:induction false} CongruentSum(x: int, y: int, z: int, m: nat)
    requires Congruent(x, y, m) && Congruent(y, z, m)
    ensures Congruent(x, z, m)
  {
    var k, l :| x - y == k * m && y - z == l * m;
    MulSum(k, l, m);
    MakeCongruent(x, z, m, k + l);
  }

  lemma {:induction false} CongruentShift(x: int, y: int, z: int, m: nat)
    requires Congruent(x, y, m)
    ensures Congruent(x + z, y + z, m)
  {
    var k :| x - y == k * m;
    MakeCongruent(x + z, y + z, m, k);
  }

  lemma {:induction false} MulSum(k: int, l: int, m: int)
    ensures (k + l) * m == k * m + l * m
  {}

  lemma {:induction false} ModCongruent(x: nat, m: nat)
    requires 0 < m
    ensures Congruent(x % m, x, m)
  {
    MakeCongruent(x % m, x, m, -(x / m));
  }

  /** A coarser modulus: a difference by a multiple of 2^32 is one by a multiple of 2^bits. */
  lemma {:induction false} CongruentCoarser(x: int, y: int, bits: nat)
    requires bits <= 32 && Congruent(x, y, TWO32)
    ensures Congruent(x, y, Power(bits))
  {
    var k: int :| x - y == k * TWO32;
    Power32();
    PowerSum(32 - bits, bits);
    MulAssociative(k, Power(32 - bits), Power(bits));
    MakeCongruent(x, y, Power(bits), k * Power(32 - bits));
  }

  lemma {:induction false} MulAssociative(a: int, b: int, c: int)
    ensures a * (b * c) == (a * b) * c
  {}

  lemma {:induction false} OddHalves(m: nat, s: nat, x: int)
    requires s % 2 == 1 && m * s == 2 * x
    ensures m % 2 == 0 && (m / 2) * s == x
  {
    var t := s / 2;
    assert m * s == 2 * (m * t) + m by {
      assert s == 2 * t + 1;
      MulOdd(m, t);
    }
    MulTwice(m / 2, s);
  }

  lemma {:induction false} MulOdd(m: nat, t: nat)
    ensures m * (2 * t + 1) == 2 * (m * t) + m
  {}

  /** An odd factor cannot make a number divisible by a power of two. */
  lemma {:induction false} OddFactor(m: nat, s: nat, bits: nat, k: int)
    requires s % 2 == 1 && m * s == k * Power(bits)
    ensures Congruent(m, 0, Power(bits))
    decreases bits
  {
    if bits == 0 {
      MakeCongruent(m, 0, 1, m);
    } else {
      var half := Power(bits - 1);
      MulAssociative(2, k, half);
      MulAssociative(k, 2, half);
      OddHalves(m, s, k * half);
      OddFactor(m / 2, s, bits - 1, k);
      var l: int :| m / 2 == l * half;
      MulAssociative(l, 2, half);
      MulAssociative(2, l, half);
      MakeCongruent(m, 0, Power(bits), l);
    }
  }

  lemma {:induction false} NoSmallMultiple(n: nat, m: nat)
    requires Congruent(n, 0, m)
    ensures n == 0 || n >= m
  {
    var l: int :| n == l * m;
    if l >= 1 {
      MulSum(l - 1, 1, m);
      MulNonNegative(l - 1, m);
    } else {
      MulNonNegative(-l, m);
    }
  }

  lemma {:induction false} MulNonNegative(a: int, b: int)
    requires 0 <= a && 0 <= b
    ensures 0 <= a * b
  {}
}
