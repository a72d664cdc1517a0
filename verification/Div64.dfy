/** The shift-and-subtract 64-by-32-bit divider of lib/div64.c, its three phases in turn. */
module Div64 {
  import opened CInt
  import opened Arith

  method Div6432(n: uint64, base: uint32) returns (quot: uint64, rem: uint32)
    requires base > 0
    ensures quot as int == n as int / base as int
    ensures rem as int == n as int % base as int
  {
    var r, res := Reduce(n, base);
    var b, d, k := Double(base, r);
    quot, r := ShiftSubtract(n, base, r, res, b, d, k);
    DivUnique(n as int, base as int, quot as int, r as int);
    rem := r as uint32;
  }

  /** The first reduction: take the high word's share of the quotient. */
  method Reduce(n: uint64, base: uint32) returns (rem: uint64, res: uint64)
    requires base > 0
    ensures n as int == res as int * base as int + rem as int
    ensures rem as int < base as int * TWO32
  {
    rem, res := n, 0;
    var high: uint32 := (n / 0x1_0000_0000) as uint32;
    LowRemainder(n as int, base as int, high as int);
    if high >= base {
      HighWord(n as int, base as int, high as int);
      high := high / base;
      res := high as uint64 * 0x1_0000_0000;
      rem := rem - (high * base) as uint64 * 0x1_0000_0000;
    }
  }

  /** Scale the divisor up to the remainder; d is the power of two reached. */
  method Double(base: uint32, rem: uint64) returns (b: uint64, d: uint64, ghost k: nat)
    requires base > 0
    ensures d as int == Pow2(k) && b as int == base as int * d as int
    ensures rem as int < 2 * b as int
  {
    b, d, k := base as uint64, 1, 0;
    while b < 0x8000_0000_0000_0000 && b < rem
      invariant d as int == Pow2(k) && b as int == base as int * d as int && 0 < b
      decreases 0x1_0000_0000_0000_0000 - b as int
    {
      MulMono(1, base as int, d as int);
      b := b + b;
      d := d + d;
      k := k + 1;
    }
  }

  /** do { ... } while (d): the test comes after the body. */
  method ShiftSubtract(n: uint64, base: uint32, r0: uint64, res0: uint64, b0: uint64, d0: uint64, ghost k0: nat)
    returns (res: uint64, r: uint64)
    requires base > 0 && d0 as int == Pow2(k0) && b0 as int == base as int * d0 as int
    requires r0 as int < 2 * b0 as int && n as int == res0 as int * base as int + r0 as int
    ensures n as int == res as int * base as int + r as int && r < base as uint64
  {
    res, r := res0, r0;
    var b, d := b0, d0;
    ghost var k := k0;
    var again := true;
    while again
      invariant again ==> d as int == Pow2(k) && b as int == base as int * d as int && r as int < 2 * b as int
      invariant !again ==> r < base as uint64
      invariant n as int == res as int * base as int + r as int
      decreases if again then d as int + 1 else 0
    {
      if r >= b {
        SubtractStep(n as int, base as int, res as int, r as int, d as int);
        r := r - b;
        res := res + d;
      }
      HalveStep(base as int, k);
      b := b / 2;
      d := d / 2;
      again := d != 0;
      if again { k := k - 1; }
    }
  }

  lemma HighWord(n: int, base: int, high: int)
    requires 0 <= n < TWO64 && 0 < base < TWO32 && high == n / TWO32
    ensures var q := high / base;
            0 <= q * base <= high && q * base * TWO32 <= n && n == q * TWO32 * base + (n - q * base * TWO32)
  {
    var q := high / base;
    assert high == q * base + high % base;
    assert q * TWO32 * base == q * base * TWO32;
  }

  lemma LowRemainder(n: int, base: int, high: int)
    requires 0 <= n < TWO64 && 0 < base < TWO32 && high == n / TWO32
    ensures high < base ==> n < base * TWO32
    ensures n - high / base * base * TWO32 < base * TWO32
  {
    var q, r := high / base, high % base;
    assert high == q * base + r;
    MulMono(r + 1, base, TWO32);
    assert n - q * base * TWO32 == r * TWO32 + n % TWO32;
    if high < base {
      MulMono(high + 1, base, TWO32);
    }
  }

  /** Moving d*base from the remainder to the quotient keeps the sum and the quotient's range. */
  lemma SubtractStep(n: int, base: int, res: int, r: int, d: int)
    requires 0 < base && 0 <= n < TWO64 && 0 <= res && 0 <= d
    requires n == res * base + r && r >= base * d
    ensures n == (res + d) * base + (r - base * d)
    ensures res + d < TWO64
  {
    MulMono(1, base, res + d);
  }

  /** d is a power of two, so halving it halves base*d exactly unless d is 1. */
  lemma HalveStep(base: int, k: nat)
    requires base > 0
    ensures k == 0 ==> Pow2(k) / 2 == 0 && base * Pow2(k) == base
    ensures k > 0 ==> Pow2(k) / 2 == Pow2(k - 1) && base * Pow2(k) / 2 == base * Pow2(k - 1)
                      && base * Pow2(k) == 2 * (base * Pow2(k - 1))
  {
    if k > 0 {
      assert base * Pow2(k) == 2 * (base * Pow2(k - 1));
    }
  }
}
