/** 2^62-scaled fractions: the split 32x32 multiply of servo.c, with C's 64-bit operands. */
module RelDiff {
  import opened CInt
  import opened Arith

  function Shl(x: uint64, k: nat): (r: uint64)
    requires x as int * Pow2(k) < TWO64
  {
    (x as int * Pow2(k)) as uint64
  }

  function Shr(x: uint64, k: nat): (r: uint64)
    ensures r as int == x as int / Pow2(k)
  {
    QuotientBound(x as int, Pow2(k));
    (x as int / Pow2(k)) as uint64
  }

  lemma QuotientBound(x: int, d: int)
    requires 0 <= x && d > 0
    ensures 0 <= x / d <= x
  {
    MulMono(1, d, x / d);
  }

  /** The four 32-bit halves give the product. */
  lemma SplitProduct(a: int, b: int, h1: int, l1: int, h2: int, l2: int)
    requires a == h1 * TWO32 + l1 && b == h2 * TWO32 + l2
    ensures a * b == h1 * h2 * TWO64 + (h1 * l2 + h2 * l1) * TWO32 + l1 * l2
  {
    assert (h1 * TWO32 + l1) * (h2 * TWO32 + l2)
        == h1 * h2 * (TWO32 * TWO32) + h1 * l2 * TWO32 + h2 * l1 * TWO32 + l1 * l2;
  }

  /** Splitting the middle word at t = 2^(32-shift), the shifted upper and halved lower
      words hold the whole product down to bit 64-shift. */
  lemma SplitMiddle(hh: int, mid: int, ll: int, h: int, t: int)
    requires 0 <= hh && 0 <= mid && 0 <= ll && 0 < h && 0 < t && h * t == TWO32
    ensures var lower := ll / 2 + mid % t * TWO31;
            var upper := hh * h + mid / t;
            upper + lower / (TWO31 * t) == (hh * TWO64 + mid * TWO32 + ll) / (TWO32 * t)
  {
    var q, r := mid / t, mid % t;
    var rest := r * TWO32 + ll;
    var d := TWO32 * t;
    assert ll / 2 + r * TWO31 == rest / 2;
    DivDiv(rest, 2, TWO31 * t);
    assert hh * TWO64 == hh * h * d by { assert hh * h * (TWO32 * t) == hh * (h * t) * TWO32; }
    assert mid * TWO32 == q * d + r * TWO32 by { assert (q * t + r) * TWO32 == q * (TWO32 * t) + r * TWO32; }
    var p := hh * TWO64 + mid * TWO32 + ll;
    assert p == (hh * h + q) * d + rest;
    assert rest == rest / d * d + rest % d;
    assert p == (hh * h + q + rest / d) * d + rest % d;
    DivUnique(p, d, hh * h + q + rest / d, rest % d);
  }

  lemma TableOfPowers()
    ensures Pow2(31) == TWO31 && Pow2(32) == TWO32 && Pow2(62) == TWO62
  {
    assert Pow2(8) == 256;
    Pow2Sum(8, 8); Pow2Sum(16, 15); Pow2Sum(16, 16); Pow2Sum(31, 31);
  }

  /** The weights of the bit positions in use, for a shift of 2 to 32. */
  lemma Weights(shift: nat)
    requires 2 <= shift <= 32
    ensures var h, t := Pow2(shift), Pow2(32 - shift);
            && h * t == TWO32 && 1 <= t <= TWO31 / 2
            && Pow2(63 - shift) == TWO31 * t && Pow2(64 - shift) == TWO32 * t
            && TWO32 * t * Pow2(shift - 2) == TWO62
  {
    TableOfPowers();
    Pow2Sum(shift, 32 - shift);
    Pow2Sum(31, 32 - shift);
    Pow2Sum(32, 32 - shift);
    Pow2Sum(64 - shift, shift - 2);
    Pow2Sum(2, shift - 2);
    MulMono(4, Pow2(shift), Pow2(32 - shift));
  }

  /** The shift chosen from the smaller operand leaves room for it below bit 64-shift. */
  lemma ShiftFits(m: nat, shift: int)
    requires m < TWO62 && shift == if 64 - BitLen(m) > 32 then 32 else 64 - BitLen(m)
    ensures 2 <= shift <= 32 && m < Pow2(64 - shift)
  {
    TableOfPowers();
    BitLenMono(m, 62);
    BitLenBound(m);
    if BitLen(m) < 32 { Pow2Mono(BitLen(m), 32); }
  }

  lemma {:induction false} Pow2Mono(a: nat, b: nat)
    requires a <= b
    ensures Pow2(a) <= Pow2(b)
  {
    if a < b { Pow2Mono(a, b - 1); }
  }

  /** Sizes of the intermediate words. */
  lemma WordBounds(a: int, b: int, h1: int, l1: int, h2: int, l2: int, h: int, t: int)
    requires a == h1 * TWO32 + l1 && b == h2 * TWO32 + l2
    requires 0 <= l1 < TWO32 && 0 <= l2 < TWO32 && 0 <= h1 < TWO31 && 0 <= h2 < TWO31
    requires 0 < h && 0 < t && h * t == TWO32 && (a < TWO32 * t || b < TWO32 * t)
    ensures 0 <= h1 * h2 * h < TWO63
    ensures 0 <= h1 * l2 && 0 <= h2 * l1 && h1 * l2 + h2 * l1 < TWO64
    ensures 0 <= l1 * l2 < TWO64
    ensures 0 <= a * b / (TWO32 * t) < TWO63
  {
    HalfBounds(h1, l1, h2, l2);
    if a < TWO32 * t {
      SmallerBounds(a, b, h1, h2, h, t);
    } else {
      SmallerBounds(b, a, h2, h1, h, t);
    }
  }

  lemma HalfBounds(h1: int, l1: int, h2: int, l2: int)
    requires 0 <= l1 < TWO32 && 0 <= l2 < TWO32 && 0 <= h1 < TWO31 && 0 <= h2 < TWO31
    ensures 0 <= h1 * l2 && 0 <= h2 * l1 && h1 * l2 + h2 * l1 < TWO64
    ensures 0 <= l1 * l2 < TWO64
  {
    MulMono(h1, TWO31, l2);
    MulMono(h2, TWO31, l1);
    MulMono(l1, TWO32 - 1, l2);
  }

  lemma SmallerBounds(a: int, b: int, h1: int, h2: int, h: int, t: int)
    requires 0 <= h1 && h1 * TWO32 <= a < TWO32 * t && 0 <= h2 < TWO31 && 0 <= b < TWO63
    requires 0 < h && 0 < t && h * t == TWO32
    ensures 0 <= h1 * h2 * h < TWO63
    ensures 0 <= a * b / (TWO32 * t) < TWO63
  {
    assert h1 < t;
    HighBound(h1, h2, h, t);
    ProductQuotient(a, b, TWO32 * t);
  }

  lemma HighBound(h1: int, h2: int, h: int, t: int)
    requires 0 <= h1 < t && 0 <= h2 < TWO31 && 0 < h && h * t == TWO32
    ensures 0 <= h1 * h2 * h < TWO63
  {
    var x := h1 * h;
    MulMono(h1, t, h);
    MulMono(0, h1, h);
    assert h1 * h2 * h == h2 * x;
    MulMono(h2, TWO31 - 1, x);
    MulMono(0, h2, x);
  }

  lemma ProductQuotient(a: int, b: int, d: int)
    requires 0 <= a < d && 0 <= b < TWO63
    ensures 0 <= a * b / d < TWO63
  {
    MulMono(a, d, b);
    MulMono(0, a, b);
    var q, r := a * b / d, a * b % d;
    assert a * b == q * d + r;
    if q >= TWO63 {
      MulMono(TWO63, q, d);
      MulMono(b, TWO63 - 1, d);
    }
    QuotientBound(a * b, d);
  }

  /** __mulRelativeDifference: the product of a 2^62-scaled and any other scaled number,
      rounded down. Neither carry test ever fires. */
  method MulRelativeDifference(op1: int64, op2: uint64) returns (r: uint64)
    requires 0 <= op1 && op2 < 0x8000_0000_0000_0000
    requires op1 < 0x4000_0000_0000_0000 || op2 < 0x4000_0000_0000_0000
    ensures r as int == op1 as int * op2 as int / TWO62
  {
    var a := op1 as uint64;
    var m := if a < op2 then a else op2;
    var shift := 64 - BitLen(m as int);
    if shift > 32 { shift := 32; }
    ShiftFits(m as int, shift);
    r := Multiply(a, op2, shift);
  }

  /** The four products, then their sum at the chosen shift. */
  method Multiply(a: uint64, b: uint64, shift: nat) returns (r: uint64)
    requires a < 0x8000_0000_0000_0000 && b < 0x8000_0000_0000_0000
    requires 2 <= shift <= 32 && ((a as int) < Pow2(64 - shift) || (b as int) < Pow2(64 - shift))
    ensures r as int == a as int * b as int / TWO62
  {
    Weights(shift);
    var a_high, a_low := a / 0x1_0000_0000, a % 0x1_0000_0000;
    var b_high, b_low := b / 0x1_0000_0000, b % 0x1_0000_0000;
    WordBounds(a as int, b as int, a_high as int, a_low as int, b_high as int, b_low as int,
               Pow2(shift), Pow2(32 - shift));
    SplitProduct(a as int, b as int, a_high as int, a_low as int, b_high as int, b_low as int);
    HighProduct(a_high as int * b_high as int, Pow2(shift));

    var mid1 := a_high * b_low;
    var mid2 := b_high * a_low;
    var middle := mid1 + mid2;
    if middle < mid1 || middle < mid2 {
      assert false;
    }
    r := Combine(a_high * b_high, middle, a_low * b_low, shift);
  }

  lemma HighProduct(hh: int, h: int)
    requires 0 <= hh && 1 <= h && hh * h < TWO63
    ensures hh < TWO63
  {
    MulMono(1, h, hh);
  }

  method Combine(high: uint64, middle: uint64, low: uint64, shift: nat) returns (r: uint64)
    requires 2 <= shift <= 32 && high as int * Pow2(shift) < TWO63
    requires (high as int * TWO64 + middle as int * TWO32 + low as int) / (TWO32 * Pow2(32 - shift)) < TWO63
    ensures r as int == (high as int * TWO64 + middle as int * TWO32 + low as int) / TWO62
  {
    Weights(shift);
    TableOfPowers();
    MaskedQuotient(middle as int, Pow2(32 - shift));
    ghost var mq, mr := middle as int / Pow2(32 - shift), middle as int % Pow2(32 - shift);
    CombineWords(high as int, middle as int, low as int,
                 Pow2(shift), Pow2(32 - shift), Pow2(63 - shift), Pow2(shift - 2), mq, mr);

    var mask: uint64 := Shl(1, 32 - shift) - 1;
    var upper := Shl(high, shift);
    var lower := low / 2;
    upper := upper + Shr(middle - middle % (mask + 1), 32 - shift);
    var tmp := lower;
    lower := lower + Shl(middle % (mask + 1), 31);
    if lower < tmp {
      assert false;
    }
    r := Shr(upper + Shr(lower, 63 - shift), shift - 2);
  }

  /** What the additions do, for h = 2^shift, t = 2^(32-shift), g = 2^(63-shift) and
      f = 2^(shift-2): the shifted sum is the product's quotient by 2^62, and no word
      exceeds 64 bits. */
  lemma CombineWords(high: int, middle: int, low: int, h: int, t: int, g: int, f: int, mq: int, mr: int)
    requires 0 <= high && 0 <= middle && 0 <= low < TWO64
    requires 0 < h && 0 < t <= TWO31 / 2 && h * t == TWO32 && g == TWO31 * t && 0 < f && TWO32 * t * f == TWO62
    requires mq == middle / t && mr == middle % t
    requires (high * TWO64 + middle * TWO32 + low) / (TWO32 * t) < TWO63
    ensures 0 <= high * h && 0 <= mq && 0 <= (low / 2 + mr * TWO31) / g
    ensures high * h + mq + (low / 2 + mr * TWO31) / g < TWO63
    ensures (high * h + mq + (low / 2 + mr * TWO31) / g) / f == (high * TWO64 + middle * TWO32 + low) / TWO62
  {
    var p := high * TWO64 + middle * TWO32 + low;
    SplitMiddle(high, middle, low, h, t);
    QuotientBound(middle, t);
    QuotientBound(low / 2 + mr * TWO31, g);
    MulMono(0, high, h);
    QuotientTwice(high * h + mq + (low / 2 + mr * TWO31) / g, p, TWO32 * t, f);
  }

  lemma QuotientTwice(x: int, p: int, d: int, f: int)
    requires 0 <= p && 0 < d && 0 < f && x == p / d && d * f == TWO62
    ensures x / f == p / TWO62
  {
    DivDiv(p, d, f);
  }

  /** Clearing the masked bits before the shift changes nothing. */
  lemma MaskedQuotient(mid: int, t: int)
    requires 0 <= mid && 0 < t <= TWO31 / 2
    ensures 0 <= mid % t < t && 0 <= mid - mid % t && (mid - mid % t) / t == mid / t
  {
    QuotientBound(mid, t);
    DivUnique(mid - mid % t, t, mid / t, 0);
  }
}
