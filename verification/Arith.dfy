/** Integer facts the solver needs stated: products, quotients and powers of two. */
module Arith {
  lemma MulMono(a: int, b: int, c: int)
    requires a <= b && 0 <= c
    ensures a * c <= b * c
  {}

  lemma DivUnique(n: int, base: int, q: int, r: int)
    requires base > 0 && 0 <= r < base && n == q * base + r
    ensures q == n / base && r == n % base
  {
    var q', r' := n / base, n % base;
    assert n == q' * base + r' && 0 <= r' < base;
    if q < q' { MulMono(q + 1, q', base); }
    if q' < q { MulMono(q' + 1, q, base); }
  }

  lemma DivMono(a: int, b: int, t: int)
    requires a <= b && t > 0
    ensures a / t <= b / t
  {
    if b / t < a / t {
      MulMono(b / t + 1, a / t, t);
    }
  }

  lemma DivAdd(a: int, t: int)
    requires t > 0
    ensures (a + t) / t == a / t + 1
  {
    DivUnique(a + t, t, a / t + 1, a % t);
  }

  function Pow2(k: nat): (r: nat)
    ensures r > 0
  {
    if k == 0 then 1 else 2 * Pow2(k - 1)
  }

  lemma {:induction false} Pow2Sum(a: nat, b: nat)
    ensures Pow2(a + b) == Pow2(a) * Pow2(b)
  {
    if a > 0 {
      Pow2Sum(a - 1, b);
      assert Pow2(a) * Pow2(b) == 2 * (Pow2(a - 1) * Pow2(b));
    }
  }

  lemma DivDiv(x: int, a: int, b: int)
    requires 0 <= x && 0 < a && 0 < b
    ensures 0 < a * b && x / a / b == x / (a * b)
  {
    var q, r := x / a, x % a;
    var q', r' := q / b, q % b;
    RemainderFits(a, b, r, r');
    Nested(a, b, q', r, r');
    DivUnique(x, a * b, q', r' * a + r);
  }

  lemma RemainderFits(a: int, b: int, r: int, r': int)
    requires 0 <= r < a && 0 <= r' < b
    ensures 0 <= r' * a + r < a * b
  {
    MulMono(0, r', a);
    MulMono(r', b - 1, a);
    assert (b - 1) * a == a * b - a;
  }

  lemma Nested(a: int, b: int, q: int, r: int, r': int)
    ensures (q * b + r') * a + r == q * (a * b) + (r' * a + r)
  {
    assert (q * b + r') * a == q * b * a + r' * a;
    assert q * b * a == q * (a * b);
  }

  /** The number of bits of x: one more than the index of its most significant set bit. */
  function BitLen(x: nat): (n: nat)
  {
    if x == 0 then 0 else 1 + BitLen(x / 2)
  }

  lemma {:induction false} BitLenBound(x: nat)
    ensures x < Pow2(BitLen(x))
    ensures x > 0 ==> Pow2(BitLen(x) - 1) <= x
  {
    if x > 0 { BitLenBound(x / 2); }
  }

  lemma {:induction false} BitLenMono(x: nat, k: nat)
    requires x < Pow2(k)
    ensures BitLen(x) <= k
  {
    if x > 0 { BitLenMono(x / 2, k - 1); }
  }
}
