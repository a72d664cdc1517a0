/** pp_time: signed (seconds, 2^-16 ns) pairs, and the conversions of lib/time-arith.c.

    `Time` is the value of a pp_time, `Value` the instant it denotes in units of 2^-16 ns.
    The class PpTime is the struct that the C functions update in place. */
module TimeArith {
  import opened CInt
  import opened Arith
  import Div64

  /** One second in units of 2^-16 ns. */
  const SNS: int := 1_000_000_000 * 0x1_0000
  const PS_PER_SEC: int := 1_000_000_000_000
  const ROUNDING: int := 0x8000

  datatype Time = Time(secs: int, scaled: int)

  function Value(t: Time): (v: int)
  {
    t.secs * SNS + t.scaled
  }

  /** The bit pattern "10" in the two top bits of secs marks a stamp as incorrect. */
  predicate Incorrect(t: Time) {
    t.secs < -TWO62
  }

  /** The form the arithmetic keeps: at most one second of nanoseconds, no opposite signs. */
  predicate Canonical(t: Time) {
    && -SNS <= t.scaled <= SNS
    && !(t.secs > 0 && t.scaled < 0)
    && !(t.secs < 0 && t.scaled > 0)
  }

  predicate Negative(t: Time) {
    (t.secs < 0 && !Incorrect(t)) || (t.secs == 0 && t.scaled < 0)
  }

  function Negated(t: Time): (r: Time)
  {
    Time(-t.secs, -t.scaled)
  }

  /** The two carry loops of normalize_pp_time. */
  function Carried(t: Time): (r: Time)
    ensures Value(r) == Value(t)
    ensures 0 <= r.scaled <= SNS
    ensures t.scaled < 0 ==> r.scaled < SNS
    ensures t.scaled > SNS ==> r.scaled > 0
    decreases if t.scaled < 0 then -t.scaled else t.scaled
  {
    if t.scaled < 0 then
      if t.scaled + SNS < 0 then Carried(Time(t.secs - 1, t.scaled + SNS)) else Time(t.secs - 1, t.scaled + SNS)
    else if t.scaled > SNS then
      Carried(Time(t.secs + 1, t.scaled - SNS))
    else
      t
  }

  function Normalized(t: Time): (r: Time)
  {
    if Negative(t) then Negated(Carried(Negated(t))) else Carried(t)
  }

  /** Normalisation denotes the same instant on every input, marked incorrect or not. */
  lemma {:induction false} NormalizedKeepsValue(t: Time)
    ensures Value(Normalized(t)) == Value(t)
    ensures -SNS <= Normalized(t).scaled <= SNS
  {}

  /** A canonical time is left as it is, one second of nanoseconds included. */
  lemma NormalizedKeepsCanonical(t: Time)
    requires Canonical(t) && !Incorrect(t)
    ensures Normalized(t) == t
  {
  }

  /** The mark of an incorrect stamp is in the two top bits of the 64-bit seconds. */
  lemma IncorrectExactly(t: Time)
    requires -TWO63 <= t.secs < TWO63
    ensures Incorrect(t) <==> t.secs % TWO64 / TWO62 == 2
  {
    if t.secs < 0 {
      assert t.secs % TWO64 == t.secs + TWO64;
    }
  }

  predicate WholeSeconds(n: int) {
    n % SNS == 0
  }

  /** Exactly when normalising gives the canonical form: unless the nanoseconds outweigh
      seconds of the other sign by a broken number of seconds. */
  lemma {:induction false} NormalizedCanonical(t: Time)
    requires !Incorrect(t)
    ensures Canonical(Normalized(t)) <==> SignsAgree(t) || WholeSeconds(t.scaled)
  {
    hide Carried, WholeSeconds;
    var u := if Negative(t) then Negated(t) else t;
    NegatedMultiple(t.scaled);
    CarriedCanonical(u);
    NegatedCanonical(Carried(u));
    SignsOfMagnitude(t);
  }

  predicate SignsAgree(t: Time) {
    (t.secs > 0 ==> Value(t) >= 0) && (t.secs < 0 ==> Value(t) <= 0)
  }

  lemma NegatedCanonical(r: Time)
    ensures Canonical(Negated(r)) <==> Canonical(r)
  {
  }

  lemma SignsOfMagnitude(t: Time)
    requires !Incorrect(t)
    ensures var u := if Negative(t) then Negated(t) else t;
            (SignsAgree(t) <==> Value(u) >= 0) && u.secs >= 0 && (u.secs == 0 ==> u.scaled >= 0)
  {
  }

  lemma {:induction false} CarriedCanonical(u: Time)
    requires u.secs >= 0 && (u.secs == 0 ==> u.scaled >= 0)
    ensures Canonical(Carried(u)) <==> Value(u) >= 0 || WholeSeconds(u.scaled)
  {
    var r := Carried(u);
    CarriedForm(u, r.secs, r.scaled);
  }

  /** From what the carries ensure alone. */
  lemma CarriedForm(u: Time, secs: int, scaled: int)
    requires u.secs >= 0 && (u.secs == 0 ==> u.scaled >= 0) && secs * SNS + scaled == Value(u) && 0 <= scaled <= SNS
    requires u.scaled < 0 ==> scaled < SNS
    requires 0 <= u.scaled <= SNS ==> Time(secs, scaled) == u
    ensures Canonical(Time(secs, scaled)) <==> Value(u) >= 0 || WholeSeconds(u.scaled)
  {
    if u.scaled < 0 {
      DivUnique(u.scaled, SNS, secs - u.secs, scaled);
    }
  }

  lemma NegatedMultiple(n: int)
    ensures WholeSeconds(n) <==> WholeSeconds(-n)
  {
    var q := n / SNS;
    if n % SNS == 0 {
      DivUnique(-n, SNS, -q, 0);
    } else {
      DivUnique(-n, SNS, -q - 1, SNS - n % SNS);
    }
  }

  function Plus(a: Time, b: Time): (r: Time)
  {
    Normalized(Time(a.secs + b.secs, a.scaled + b.scaled))
  }

  function Minus(a: Time, b: Time): (r: Time)
  {
    Normalized(Time(a.secs - b.secs, a.scaled - b.scaled))
  }

  /** Addition and subtraction are exact, and canonical times are closed under them. */
  lemma {:induction false} PlusExact(a: Time, b: Time)
    ensures Value(Plus(a, b)) == Value(a) + Value(b) && Abs(Plus(a, b).scaled) <= SNS
    ensures Canonical(a) && Canonical(b) && a.secs + b.secs >= -TWO62 ==> Canonical(Plus(a, b))
  {
    var t := Time(a.secs + b.secs, a.scaled + b.scaled);
    assert Value(t) == Value(a) + Value(b);
    NormalizedKeepsValue(t);
    if Canonical(a) && Canonical(b) && a.secs + b.secs >= -TWO62 {
      SumSignsAgree(a, b);
      AgreeingSignsNormalize(t);
    }
  }

  lemma {:induction false} AgreeingSignsNormalize(t: Time)
    requires !Incorrect(t) && SignsAgree(t)
    ensures Canonical(Normalized(t))
  {
    NormalizedCanonical(t);
  }

  lemma {:induction false} SumSignsAgree(a: Time, b: Time)
    requires Canonical(a) && Canonical(b)
    ensures SignsAgree(Time(a.secs + b.secs, a.scaled + b.scaled))
  {
    var t := Time(a.secs + b.secs, a.scaled + b.scaled);
    if t.secs > 0 { assert t.scaled >= -SNS; }
    if t.secs < 0 { assert t.scaled <= SNS; }
  }

  lemma {:induction false} MinusExact(a: Time, b: Time)
    ensures Value(Minus(a, b)) == Value(a) - Value(b) && Abs(Minus(a, b).scaled) <= SNS
    ensures Canonical(a) && Canonical(b) && a.secs - b.secs >= -TWO62 ==> Canonical(Minus(a, b))
  {
    assert Minus(a, b) == Plus(a, Negated(b));
    PlusExact(a, Negated(b));
  }

  // ----- picoseconds

  /** An int64 result of unsigned 64-bit arithmetic. */
  function Signed64(x: int): (r: int)
    ensures -TWO63 <= x < TWO63 ==> r == x
  {
    var y := x % TWO64;
    if y >= TWO63 then y - TWO64 else y
  }

  /** pp_time_to_picos: the rounding constant is unsigned, so the shift is a logical one. */
  function ToPicos(t: Time): (ps: int)
  {
    var neg := t.secs < 0 || (t.secs == 0 && t.scaled < 0);
    var u := if neg then Negated(t) else t;
    var mag := u.secs * PS_PER_SEC + (u.scaled * 1000 + ROUNDING) % TWO64 / TWO16;
    Signed64(if neg then -mag else mag)
  }

  /** The nearest picosecond to v units of 2^-16 ns, halves away from zero. */
  function NearestPs(v: int): (ps: int)
    ensures Abs(ps * TWO16 - v * 1000) <= ROUNDING
  {
    if v < 0 then -((-v * 1000 + ROUNDING) / TWO16) else (v * 1000 + ROUNDING) / TWO16
  }

  /** On canonical times pp_time_to_picos depends on the instant alone, and is its nearest
      picosecond wherever this fits 64 bits. */
  lemma {:induction false} ToPicosNearest(t: Time)
    requires Canonical(t)
    ensures ToPicos(t) == Signed64(NearestPs(Value(t)))
    ensures -TWO63 <= NearestPs(Value(t)) < TWO63 ==> ToPicos(t) == NearestPs(Value(t))
  {
    hide Signed64;
    if t.secs < 0 || (t.secs == 0 && t.scaled < 0) {
      MagnitudeNearest(-t.secs, -t.scaled);
      assert Value(t) == -(-t.secs * SNS + -t.scaled);
    } else {
      MagnitudeNearest(t.secs, t.scaled);
    }
  }

  lemma MagnitudeNearest(secs: int, scaled: int)
    requires 0 <= secs && 0 <= scaled <= SNS
    ensures var mag := secs * PS_PER_SEC + (scaled * 1000 + ROUNDING) % TWO64 / TWO16;
            0 <= mag == ((secs * SNS + scaled) * 1000 + ROUNDING) / TWO16
  {
    var x := scaled * 1000 + ROUNDING;
    assert x % TWO64 == x;
    WholeMultiple(secs * PS_PER_SEC, x);
    assert (secs * SNS + scaled) * 1000 + ROUNDING == secs * PS_PER_SEC * TWO16 + x;
  }

  lemma WholeMultiple(a: int, x: int)
    ensures (a * TWO16 + x) / TWO16 == a + x / TWO16
  {}

  /** The instant picos_to_pp_time stores for p picoseconds: its rounding constant is half a
      nanosecond unit of the dividend, not half the divisor 1000. */
  function PsInstant(p: int): (v: int)
  {
    if p < 0 then -((-p * TWO16 + ROUNDING) / 1000) else (p * TWO16 + ROUNDING) / 1000
  }

  /** There and back is the identity, except that magnitudes of 62 mod 125 grow by one. */
  lemma PicosRoundTrip(p: int)
    ensures NearestPs(PsInstant(p)) ==
            if Abs(p) % 125 != 62 then p else if p < 0 then p - 1 else p + 1
  {
    var m := Abs(p);
    var x := m * TWO16 + ROUNDING;
    var v := x / 1000;
    var d := x % 1000;
    assert v * 1000 + ROUNDING == (m + 1) * TWO16 - d;
    assert x == 0x8000 * (2 * m + 1);
    ThousandDivides(m);
    assert d == 0 <==> m % 125 == 62;
  }

  lemma ThousandDivides(m: nat)
    ensures 0x8000 * (2 * m + 1) % 1000 == 0 <==> m % 125 == 62
  {
    var y, q := 2 * m + 1, m / 125;
    var z := 0x8000 * y / 1000;
    // 56 is the inverse of 4096 mod 125
    assert 0x8000 * y == 1000 * z ==> y == 125 * (56 * z - 1835 * y);
    assert m == 125 * q + 62 ==> 0x8000 * y == 1000 * (4096 * (2 * q + 1));
  }
}
