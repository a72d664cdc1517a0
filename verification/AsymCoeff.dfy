/** The polynomial expansion of alpha/(alpha+2) in servo.c, in units of 2^-62. */
module AsymCoeff {
  import opened CInt
  import opened Arith
  import opened RelDiff

  /** How far S, with t still to be accounted for, is from the exact coefficient of x = |alpha|,
      times 2^63 + x (alpha positive; sub tells whether t is to be subtracted) ... */
  ghost function PosResidual(s: int, t: int, x: int, sub: bool): int
  {
    s * (TWO63 + x) + (if sub then -t else t) * TWO63 - TWO62 * x
  }

  /** ... or times 2^63 - x (alpha negative: every term is added). */
  ghost function NegResidual(s: int, t: int, x: int): int
  {
    s * (TWO63 - x) + t * TWO63 - TWO62 * x
  }

  /** The next term: floor of t*x/2^63, at most half of t. */
  lemma NextTerm(t: int, x: int)
    requires 0 <= t && 0 <= x <= TWO62
    ensures var u := x * t / TWO62 / 2;
            0 <= u <= t / 2 && 0 <= x * t - u * TWO63 < TWO63
  {
    MulMono(x, TWO62, t);
    MulMono(0, x, t);
    DivDiv(x * t, TWO62, 2);
  }

  lemma HalfBits(t: nat, u: nat)
    requires u <= t / 2 && t > 0
    ensures BitLen(u) < BitLen(t)
  {
    BitLenBound(t / 2);
    BitLenMono(u, BitLen(t / 2));
  }

  /** One alternating step moves the residual by less than 2^63. */
  lemma PosStep(s: int, t: int, x: int, sub: bool)
    requires 0 <= t && 0 <= x <= TWO62
    ensures var u := x * t / TWO62 / 2;
            var s' := if sub then s - t else s + t;
            Abs(PosResidual(s', u, x, !sub) - PosResidual(s, t, x, sub)) < TWO63
  {
    NextTerm(t, x);
    assert (s - t) * (TWO63 + x) == s * (TWO63 + x) - t * TWO63 - x * t;
    assert (s + t) * (TWO63 + x) == s * (TWO63 + x) + t * TWO63 + x * t;
  }

  /** One step of the negative branch, which adds a unit to make up for the rounding. */
  lemma NegStep(s: int, t: int, x: int)
    requires 0 <= t && 0 <= x <= TWO62
    ensures var u := x * t / TWO62 / 2;
            -x <= NegResidual(s + t + 1, u, x) - NegResidual(s, t, x) <= TWO63 - x
  {
    NextTerm(t, x);
    assert (s + t + 1) * (TWO63 - x) == s * (TWO63 - x) + t * TWO63 - x * t + TWO63 - x;
  }

  /** The residuals after the first two terms. */
  lemma FirstTerms(x: int)
    requires 0 <= x <= TWO62
    ensures var s := x / 2; var t := x * s / TWO62 / 2;
            && -TWO62 <= PosResidual(s, t, x, true) < TWO63
            && -TWO62 - TWO63 < NegResidual(s, t, x) <= 0
            && 0 <= t <= TWO62 / 4
  {
    var s := x / 2;
    NextTerm(s, x);
    assert s * (TWO63 + x) == s * TWO63 + x * s && s * (TWO63 - x) == s * TWO63 - x * s;
  }

  /** What the expansion keeps, n = 61 - BitLen(t) bounding the steps taken: S stays in
      range, and the residual within n steps of where it began. */
  ghost predicate Bounded(s: int, t: nat, x: int)
  {
    BitLen(t) <= 61 && 0 <= x <= TWO62 && Abs(s) + 2 * t <= TWO62 + 61 - BitLen(t)
  }

  ghost predicate PosConverging(s: int, t: nat, x: int, sub: bool)
  {
    Abs(PosResidual(s, t, x, sub)) <= (62 - BitLen(t)) * TWO63
  }

  ghost predicate NegConverging(s: int, t: nat, x: int)
  {
    Within(NegResidual(s, t, x), 61 - BitLen(t), TWO63 - x)
  }

  ghost predicate Within(r: int, n: int, d: int)
  {
    -((n + 3) * d) <= r <= n * d
  }

  lemma WithinStep(r: int, r': int, n: int, n': int, d: int)
    requires Within(r, n, d) && 0 <= n < n' && d >= 0 && -d <= r' - r <= d
    ensures Within(r', n', d)
  {
    MulMono(n + 1, n', d);
  }

  lemma FirstConverges(x: int, s: int, t: nat)
    requires 0 <= x <= TWO62 && s == x / 2 && t == x * s / TWO62 / 2
    ensures Bounded(s, t, x) && PosConverging(s, t, x, true) && NegConverging(s, t, x)
  {
    hide BitLen, PosResidual, NegResidual;
    FirstTerms(x);
    SixtyBits(t);
    FirstBounds(61 - BitLen(t), PosResidual(s, t, x, true), NegResidual(s, t, x), x);
  }

  lemma FirstBounds(n: int, r: int, w: int, x: int)
    requires 0 <= n && 0 <= x <= TWO62 && -TWO62 <= r < TWO63 && -TWO62 - TWO63 < w <= 0
    ensures Abs(r) <= (n + 1) * TWO63 && Within(w, n, TWO63 - x)
  {
    MulMono(0, n, TWO63 - x);
    MulMono(3, n + 3, TWO63 - x);
  }

  lemma SixtyBits(t: nat)
    requires t <= TWO62 / 4
    ensures BitLen(t) <= 61
  {
    TableOfPowers();
    assert Pow2(62) == 2 * Pow2(61);
    BitLenMono(t, 61);
  }

  lemma PosConverges(s: int, t: nat, x: int, sub: bool, u: nat)
    requires t > 0 && 0 <= x <= TWO62 && u == x * t / TWO62 / 2 && PosConverging(s, t, x, sub)
    ensures PosConverging(if sub then s - t else s + t, u, x, !sub)
  {
    PosStep(s, t, x, sub);
    NextTerm(t, x);
    HalfBits(t, u);
  }

  lemma NegConverges(s: int, t: nat, x: int, u: nat)
    requires t > 0 && 0 <= x <= TWO62 && u == x * t / TWO62 / 2 && NegConverging(s, t, x) && BitLen(t) <= 61
    ensures NegConverging(s + t + 1, u, x)
  {
    NegStep(s, t, x);
    NextTerm(t, x);
    HalfBits(t, u);
    WithinStep(NegResidual(s, t, x), NegResidual(s + t + 1, u, x), 61 - BitLen(t), 61 - BitLen(u), TWO63 - x);
  }

  /** At most two units of the last term are dropped. */
  lemma PosConverged(s: int, t: nat, x: int, sub: bool)
    requires t <= 2 && 0 <= x && PosConverging(s, t, x, sub)
    ensures Abs(s * (TWO63 + x) - TWO62 * x) <= 66 * (TWO63 + x)
  {
    assert BitLen(0) == 0 && BitLen(1) == 1 && BitLen(2) == 2;
  }

  lemma NegConverged(s: int, t: nat, x: int)
    requires t <= 2 && 0 <= x <= TWO62 && NegConverging(s, t, x)
    ensures Abs(s * (TWO63 - x) - TWO62 * x) <= 66 * (TWO63 - x)
  {
    assert BitLen(0) == 0 && BitLen(1) == 1 && BitLen(2) == 2;
    var n := 61 - BitLen(t);
    MulMono(n + 3 + 2 * t, 66, TWO63 - x);
    MulMono(n, 66, TWO63 - x);
  }

  /** pp_servo_calculateDelayAsymCoefficient: within 66 units of 2^-62 of alpha/(alpha+2),
      that is of 2^62*a/(2^63+a), for every alpha from -1 to 1. */
  method DelayAsymCoefficient(delayCoeff: int64) returns (r: int64)
    requires -TWO62 <= delayCoeff as int <= TWO62
    ensures var a := delayCoeff as int;
            Abs(r as int * (TWO63 + a) - TWO62 * a) <= 66 * (TWO63 + a)
  {
    hide PosConverging, NegConverging, BitLen;
    var negative := delayCoeff < 0;
    var x := if negative then -delayCoeff else delayCoeff;
    var sub := true;
    var coeff := x / 2;
    var term := Term(x, coeff as uint64);
    FirstConverges(x as int, coeff as int, term as int);
    while term > 2
      invariant Bounded(coeff as int, term as int, x as int)
      invariant negative ==> NegConverging(coeff as int, term as int, x as int)
      invariant !negative ==> PosConverging(coeff as int, term as int, x as int, sub)
    {
      var next := Term(x, term);
      if !negative {
        PosConverges(coeff as int, term as int, x as int, sub, next as int);
        coeff := if sub then coeff - term as int64 else coeff + term as int64;
        sub := !sub;
      } else {
        NegConverges(coeff as int, term as int, x as int, next as int);
        coeff := coeff + (term + 1) as int64;
      }
      term := next;
    }
    if negative {
      NegConverged(coeff as int, term as int, x as int);
      r := -coeff;
    } else {
      PosConverged(coeff as int, term as int, x as int, sub);
      r := coeff;
    }
    SignOfProduct(coeff as int, x as int);
  }

  lemma SignOfProduct(s: int, x: int)
    ensures -s * (TWO63 - x) - TWO62 * -x == -(s * (TWO63 - x) - TWO62 * x)
  {}

  /** The multiply followed by a right shift. */
  method Term(x: int64, t: uint64) returns (u: uint64)
    requires 0 <= x as int <= TWO62 && (t as int) < TWO62
    ensures u as int == x as int * t as int / TWO62 / 2
    ensures u <= t / 2 && (t > 0 ==> BitLen(u as int) < BitLen(t as int))
  {
    var product := MulRelativeDifference(x, t);
    u := product / 2;
    NextTerm(t as int, x as int);
    if t > 0 { HalfBits(t as int, u as int); }
  }
}
