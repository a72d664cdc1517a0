/** lib/time-arith.c as it runs: pp_time structs updated in place, 64-bit operands, the
    divider of lib/div64.c. Each operation is tied to its meaning in TimeArith. */
module TimeOps {
  import opened CInt
  import opened Arith
  import opened TimeArith
  import Div64

  /** Far enough from the ends of int64 for the carries of one normalisation. */
  predicate InRange(t: Time) {
    && Abs(t.secs) < TWO63 - 0x4_0000
    && Abs(t.scaled) < TWO63
  }

  class PpTime {
    var secs: int64
    var scaled: int64

    ghost function View(): Time
      reads this
    {
      Time(secs as int, scaled as int)
    }

    constructor (secs: int64, scaled: int64)
      ensures View() == Time(secs as int, scaled as int)
    {
      this.secs, this.scaled := secs, scaled;
    }

    /** normalize_pp_time */
    method Normalize()
      requires InRange(View())
      modifies this
      ensures View() == Normalized(old(View()))
    {
      var negative := (secs < 0 && !(secs < -0x4000_0000_0000_0000)) || (secs == 0 && scaled < 0);
      if negative {
        secs, scaled := -secs, -scaled;
      }
      Carry();
      if negative {
        secs, scaled := -secs, -scaled;
      }
    }

    /** The carry loops of normalize_pp_time, which do without a 64-bit division. */
    method Carry()
      requires InRange(View())
      modifies this
      ensures View() == Carried(old(View()))
      ensures secs as int > -TWO63
    {
      ghost var t0 := View();
      while scaled < 0
        invariant t0.scaled >= 0 ==> View() == t0
        invariant t0.scaled < 0 ==> scaled as int < SNS && Value(View()) == Value(t0)
        invariant Carried(View()) == Carried(t0)
        decreases -(scaled as int)
      {
        secs := secs - 1;
        scaled := scaled + 0x3B9A_CA00_0000;
      }
      while scaled > 0x3B9A_CA00_0000
        invariant scaled >= 0 && Value(View()) == Value(t0)
        invariant Carried(View()) == Carried(t0)
      {
        secs := secs + 1;
        scaled := scaled - 0x3B9A_CA00_0000;
      }
    }

    method Add(t: PpTime)
      requires InRange(Time(secs as int + t.secs as int, scaled as int + t.scaled as int))
      modifies this
      ensures View() == Plus(old(View()), old(t.View()))
    {
      secs := secs + t.secs;
      scaled := scaled + t.scaled;
      Normalize();
    }

    method Sub(t: PpTime)
      requires InRange(Time(secs as int - t.secs as int, scaled as int - t.scaled as int))
      modifies this
      ensures View() == Minus(old(View()), old(t.View()))
    {
      secs := secs - t.secs;
      scaled := scaled - t.scaled;
      Normalize();
    }

    /** picos_to_pp_time */
    method SetPicos(picos: int64)
      requires picos as int > -TWO63
      modifies this
      ensures Value(View()) == PsInstant(picos as int)
      ensures Canonical(View()) && Abs(secs as int) < 9_300_000
    {
      var sign: int64 := if picos < 0 then -1 else 1;
      var m := (if picos < 0 then -picos else picos) as uint64;
      var nsec, ps := Div64.Div6432(m, 1000);
      var sec, ns := Div64.Div6432(nsec, 1_000_000_000);
      var t, _ := Div64.Div6432(ps as uint64 * 0x1_0000 + 0x8000, 1000);
      SplitPicos(m as int);
      scaled := ns as int64 * 0x1_0000 + t as int64;
      if sign < 0 { scaled := -scaled; }
      secs := if sign < 0 then -(sec as int64) else sec as int64;
    }

    /** fixedDelta_to_pp_time: v is in units of 2^-16 ps */
    method SetFixedDelta(msb: uint32, lsb: uint32)
      modifies this
      ensures Value(View()) == (msb as int * TWO32 + lsb as int) / 1000
      ensures Canonical(View())
    {
      var v: uint64 := msb as uint64 * 0x1_0000_0000 + lsb as uint64;
      var q, _ := Div64.Div6432(v, 1000);
      secs, scaled := 0, q as int64;
      NormalizedKeepsValue(View());
      AgreeingSignsNormalize(View());
      Normalize();
    }
  }

  /** picos_to_pp_time and pp_time_to_picos one after the other, on every int64 that can be negated:
      p comes back, or is one more in magnitude exactly if its magnitude is 62 modulo 125. */
  method PicosThereAndBack(picos: int64) returns (back: int64)
    requires picos as int > -TWO63
    ensures var p := picos as int;
            back as int == if Abs(p) % 125 != 62 then p else if p < 0 then p - 1 else p + 1
  {
    hide ToPicos, NearestPs, PsInstant, Value;
    var t := new PpTime(0, 0);
    t.SetPicos(picos);
    ToPicosNearest(t.View());
    PicosRoundTrip(picos as int);
    if Abs(picos as int) % 125 == 62 {
      NeverAtTheEnd(picos as int);
    }
    back := ToPicos(Time(t.secs as int, t.scaled as int)) as int64;
  }

  /** The largest magnitude is none of those that grow. */
  lemma NeverAtTheEnd(p: int)
    requires Abs(p) < TWO63 && Abs(p) % 125 == 62
    ensures Abs(p) + 1 < TWO63
  {
    assert (TWO63 - 1) % 125 == 57;
  }

  /** picos_to_interval: truncating, saturated at the ends of TimeInterval. */
  const MIN_PICOS: int := -0x1F4_0000_0000_0000
  const MAX_PICOS: int := 0x1F3_FFFF_FFFF_FC18

  function PsInterval(p: int): (i: int)
  {
    if p < 0 then -(-p * TWO16 / 1000) else p * TWO16 / 1000
  }

  method PicosToInterval(picos: int64) returns (interval: int64)
    ensures interval as int == if picos as int <= MIN_PICOS then -TWO63
                               else PsInterval(if picos as int >= MAX_PICOS then MAX_PICOS else picos as int)
  {
    if picos as int <= MIN_PICOS {
      return -0x8000_0000_0000_0000;
    }
    if picos as int >= MAX_PICOS {
      return 0x1F3_FFFF_FFFF_FC18 / 1000 * 0x1_0000 + 0x1F3_FFFF_FFFF_FC18 % 1000 * 0x1_0000 / 1000;
    }
    var m := (if picos < 0 then -picos else picos) as uint64;
    var ns, ps := Div64.Div6432(m, 1000);
    SplitInterval(m as int);
    interval := ns as int64 * 0x1_0000;
    interval := interval + (ps * 0x1_0000 / 1000) as int64;
    if picos < 0 { interval := -interval; }
  }

  lemma SplitInterval(m: int)
    ensures m * TWO16 / 1000 == m / 1000 * TWO16 + m % 1000 * TWO16 / 1000
  {
    var x := m % 1000 * TWO16;
    DivUnique(m * TWO16, 1000, m / 1000 * TWO16 + x / 1000, x % 1000);
  }

  /** Toward zero, by less than a unit of the interval. */
  lemma IntervalTruncates(p: int)
    ensures 0 <= Abs(p) * TWO16 - Abs(PsInterval(p)) * 1000 < 1000
    ensures (p >= 0 ==> PsInterval(p) >= 0) && (p <= 0 ==> PsInterval(p) <= 0)
  {
  }

  /** interval_to_picos: the product with 1000 must fit an int64. */
  method IntervalToPicos(interval: int64) returns (picos: int64)
    requires Abs(interval as int) * 1000 < TWO63
    ensures picos as int == NearestPs(interval as int)
  {
    var neg := interval < 0;
    var i := if neg then -interval else interval;
    picos := (((i * 1000) as uint64 + 0x8000) / 0x1_0000) as int64;
    picos := if neg then -picos else picos;
  }

  /** Converting picoseconds to an interval and back loses nothing, and the way back does not
      overflow exactly up to 2^47 ps (some 140 s). */
  lemma IntervalRoundTrip(p: int)
    ensures NearestPs(PsInterval(p)) == p
    ensures Abs(p) <= 0x8000_0000_0000 <==> Abs(PsInterval(p)) * 1000 < TWO63
  {
    var x := Abs(p) * TWO16;
    assert x / 1000 * 1000 + ROUNDING == x + ROUNDING - x % 1000;
  }

  /** pp_time_hardwarize: whole clock periods (reported in ns) and the picoseconds left over.
      The period check comes first; without it the outputs are not written. */
  method Hardwarize(scaled: int64, period: int32) returns (ok: bool, ticks: int32, picos: int32)
    requires Abs(scaled as int) <= SNS
    ensures ok <==> period > 0
    ensures ok ==> var ps := Abs(NearestPs(scaled as int));
                   && ticks as int == WithSign(scaled as int, (ps - ps % period as int) / 1000)
                   && picos as int == WithSign(scaled as int, ps % period as int)
  {
    hide NearestPs;
    ticks, picos := 0, 0;
    ok := period > 0;
    if ok {
      var ps := Magnitude(scaled);
      var q, r := Div64.Div6432(ps, period as uint32);
      WholeTicks(ps as int, period as int, q as int, r as int);
      var adj := q * period as uint64;
      picos := (ps - adj) as int32;
      var t, _ := Div64.Div6432(adj, 1000);
      ticks := t as int32;
      if scaled < 0 { picos, ticks := -picos, -ticks; }
    }
  }

  method Magnitude(scaled: int64) returns (ps: uint64)
    requires Abs(scaled as int) <= SNS
    ensures ps as int == Abs(NearestPs(scaled as int)) <= PS_PER_SEC
  {
    var m := (if scaled < 0 then -scaled else scaled) as uint64;
    ps := (m * 1000 + 0x8000) / 0x1_0000;
  }

  lemma WholeTicks(ps: int, period: int, q: int, r: int)
    requires 0 <= ps <= PS_PER_SEC && 0 < period < TWO31 && q == ps / period && r == ps % period
    ensures 0 <= q * period == ps - r && 0 <= r < TWO31 && 0 <= (ps - r) / 1000 <= 1_000_000_000
  {
    assert ps == q * period + r;
    MulMono(0, q, period);
  }

  function WithSign(s: int, m: int): (r: int)
  {
    if s < 0 then -m else m
  }

  lemma SplitPicos(m: int)
    requires 0 <= m < TWO63
    ensures var nsec, ps := m / 1000, m % 1000;
            var sec, ns := nsec / 1_000_000_000, nsec % 1_000_000_000;
            var t := (ps * TWO16 + ROUNDING) / 1000;
            && 0 <= sec < 9_300_000 && 0 <= t < TWO16
            && sec * SNS + ns * TWO16 + t == (m * TWO16 + ROUNDING) / 1000
  {
    var nsec, ps := m / 1000, m % 1000;
    var x := ps * TWO16 + ROUNDING;
    assert m * TWO16 + ROUNDING == 1000 * (nsec * TWO16) + x;
    DivUnique(m * TWO16 + ROUNDING, 1000, nsec * TWO16 + x / 1000, x % 1000);
  }
}
