/** The end-to-end delay and offset equations of proto-standard/servo.c. */
module ServoDelays {
  import opened CInt
  import opened Arith
  import opened TimeArith
  import opened TimeOps
  import AsymCoeff
  import RelDiff

  /** calculateDelayAsymmetry: the coefficient's share of the mean delay, rounded toward zero. */
  function AsymmetryOf(coeff: int, mean: int, constantAsym: int): (i: int)
  {
    var m := Abs(coeff) * Abs(mean) / TWO62;
    constantAsym + (if (coeff < 0) != (mean < 0) then -m else m)
  }

  /** The share is the exact product to less than a unit, and not beyond it. */
  lemma ShareExact(coeff: int, mean: int, constantAsym: int)
    ensures var share := AsymmetryOf(coeff, mean, constantAsym) - constantAsym;
            Abs(share * TWO62 - coeff * mean) < TWO62 && Abs(share) * TWO62 <= Abs(coeff * mean)
  {
    MulMono(0, Abs(coeff), Abs(mean));
    var p := Abs(coeff) * Abs(mean);
    assert coeff * mean == if (coeff < 0) != (mean < 0) then -p else p;
  }

  method CalculateDelayAsymmetry(coeff: int64, mean: int64, constantAsym: int64) returns (i: int64)
    requires Abs(coeff as int) < TWO63 && Abs(mean as int) < TWO62
    requires Abs(AsymmetryOf(coeff as int, mean as int, constantAsym as int)) < TWO63
    ensures i as int == AsymmetryOf(coeff as int, mean as int, constantAsym as int)
    ensures Abs((i as int - constantAsym as int) * TWO62 - coeff as int * mean as int) < TWO62
  {
    ShareExact(coeff as int, mean as int, constantAsym as int);
    var m := if mean < 0 then -mean else mean;
    var c := if coeff < 0 then -coeff else coeff;
    var product := RelDiff.MulRelativeDifference(c, m as uint64);
    ProductInRange(c as int, m as int);
    var delayAsym := product as int64;
    i := constantAsym + (if (coeff < 0) != (mean < 0) then -delayAsym else delayAsym);
  }

  lemma ProductInRange(c: int, m: int)
    requires 0 <= c < TWO63 && 0 <= m < TWO62
    ensures 0 <= c * m / TWO62 < TWO63
  {
    MulMono(c, TWO63, m);
    MulMono(0, c, m);
  }

  /** meanDelay = delayMM >> 1, in picoseconds. */
  function MeanPs(delayMM: int): (ps: int)
  {
    NearestPs(delayMM) / 2
  }

  /** Stamps close enough, some hundred days, for the round trip in picoseconds to fit an int64. */
  predicate InServoRange(t1: Time, t2: Time, t3: Time, t4: Time) {
    && Canonical(t1) && Canonical(t2) && Canonical(t3) && Canonical(t4)
    && Abs(t1.secs) < TWO62 / 8 && Abs(t2.secs) < TWO62 / 8
    && Abs(t3.secs) < TWO62 / 8 && Abs(t4.secs) < TWO62 / 8
    && Abs(NearestPs(Value(t4) - Value(t1) - (Value(t3) - Value(t2)))) < TWO63
  }

  /** The asymmetry that a round trip leads to. */
  function AsymmetryFor(enabled: bool, coeff: int, mm: int, constantAsym: int): (i: int)
  {
    if enabled then AsymmetryOf(coeff, PsInterval(MeanPs(mm)), constantAsym) else constantAsym
  }

  /** The products of the source fit: the mean delay as an interval below 2^62 if the asymmetry is
      computed from it, and 1000 times the asymmetry below 2^63. */
  predicate AsymmetryFits(enabled: bool, coeff: int, mm: int, constantAsym: int) {
    && (enabled ==> Abs(coeff) < TWO63 && Abs(PsInterval(MeanPs(mm))) < TWO62)
    && Abs(AsymmetryFor(enabled, coeff, mm, constantAsym)) * 1000 < TWO63
  }

  class Servo {
    var t1: Time
    var t2: Time
    var t3: Time
    var t4: Time
    var delayMM: Time
    var delayMS: Time
    var meanDelay: Time
    var offsetFromMaster: Time
    var delayAsymmetry: int64

    /** calculate_e2e_delayMM: (t4 - t1) - (t3 - t2) */
    method CalculateDelayMM()
      requires InServoRange(t1, t2, t3, t4)
      modifies this`delayMM
      ensures Value(delayMM) == Value(t4) - Value(t1) - (Value(t3) - Value(t2))
      ensures Canonical(delayMM)
    {
      hide Minus;
      MinusExact(t4, t1);
      MinusExact(t3, t2);
      var mtime := Minus(t4, t1);
      var stime := Minus(t3, t2);
      SecondsNear(t4, t1, mtime);
      SecondsNear(t3, t2, stime);
      MinusExact(mtime, stime);
      delayMM := Minus(mtime, stime);
    }

    /** pp_servo_calculate_delays, end to end. stampsCorrect is the outcome of the checks on
        the port's stamps; asymmetry correction is either computed or configured. */
    method CalculateDelays(stampsCorrect: bool, correctionEnabled: bool, coeff: int64, constantAsym: int64)
      returns (done: bool)
      requires InServoRange(t1, t2, t3, t4)
      requires var mm := Value(t4) - Value(t1) - (Value(t3) - Value(t2));
               AsymmetryFits(correctionEnabled, coeff as int, mm, constantAsym as int)
      modifies this`delayMM, this`delayMS, this`meanDelay, this`offsetFromMaster, this`delayAsymmetry
      ensures done == stampsCorrect
      ensures !done ==> unchanged(this)
      ensures done ==>
        var mm := Value(t4) - Value(t1) - (Value(t3) - Value(t2));
        && Value(delayMM) == mm
        && delayAsymmetry as int == AsymmetryFor(correctionEnabled, coeff as int, mm, constantAsym as int)
        && Value(meanDelay) == PsInstant(MeanPs(mm))
        && Value(delayMS) == PsInstant(MeanPs(mm) + NearestPs(delayAsymmetry as int))
        && Value(offsetFromMaster) == Value(t1) - Value(t2) + Value(delayMS)
        && Canonical(offsetFromMaster)
    {
      done := stampsCorrect;
      if !stampsCorrect {
        return;
      }
      hide NearestPs, PsInterval, PsInstant, AsymmetryFor, AsymmetryFits, MeanPs, Canonical, Value;
      CalculateDelayMM();
      var mean := HalfInPicos(delayMM);
      UpdateAsymmetry(mean, correctionEnabled, coeff, constantAsym, Value(delayMM));
      var asymPs := AsymmetryInPicos();
      UpdateOffset(mean + asymPs);
      meanDelay := TimeOfPicos(mean);
    }

    method AsymmetryInPicos() returns (ps: int64)
      requires Abs(delayAsymmetry as int) * 1000 < TWO63
      ensures ps as int == NearestPs(delayAsymmetry as int) && Abs(ps as int) <= 150 * PS_PER_SEC
    {
      ps := IntervalToPicos(delayAsymmetry);
    }

    method UpdateAsymmetry(mean: int64, correctionEnabled: bool, coeff: int64, constantAsym: int64, ghost mm: int)
      requires mean as int == MeanPs(mm) && AsymmetryFits(correctionEnabled, coeff as int, mm, constantAsym as int)
      modifies this`delayAsymmetry
      ensures delayAsymmetry as int == AsymmetryFor(correctionEnabled, coeff as int, mm, constantAsym as int)
      ensures Abs(delayAsymmetry as int) * 1000 < TWO63
    {
      hide AsymmetryOf, MeanPs;
      if correctionEnabled {
        NotSaturated(mean as int);
        var interval := PicosToInterval(mean);
        delayAsymmetry := CalculateDelayAsymmetry(coeff, interval, constantAsym);
      } else {
        delayAsymmetry := constantAsym;
      }
    }

    /** An exchange over a path with delay d in both directions and a clock that is theta ahead:
        the computed offset from the master is -theta to less than a picosecond, exactly if the
        round trip is not misrounded, which it never is for a delay that is not negative. */
    method OffsetOfExchange(ghost d: int, ghost theta: int) returns (done: bool)
      requires InServoRange(t1, t2, t3, t4)
      requires Value(t2) == Value(t1) + d + theta && Value(t4) == Value(t3) + d - theta
      modifies this`delayMM, this`delayMS, this`meanDelay, this`offsetFromMaster, this`delayAsymmetry
      ensures done && Value(delayMM) == 2 * d
      ensures Abs(Value(offsetFromMaster) + theta) * 1000 < TWO16 <==> !Misrounded(Value(delayMM))
      ensures d >= 0 ==> !Misrounded(Value(delayMM))
      ensures Abs(Value(offsetFromMaster) + theta) * 1000 < 2 * TWO16
    {
      hide PsInstant, MeanPs, InServoRange;
      done := CalculateDelays(true, false, 0, 0);
      OffsetAccuracy(Value(t1), Value(t2), Value(t3), Value(t4), d, theta, 0);
      assert NearestPs(0) == 0;
    }

    /** An exchange over a path with delays d + c and d - c, c configured as the constant asymmetry and
        no other correction: the offset is that of the clocks to less than two picoseconds. */
    method OffsetOfConstantAsymmetry(c: int64, ghost d: int, ghost theta: int) returns (done: bool)
      requires InServoRange(t1, t2, t3, t4) && Abs(c as int) * 1000 < TWO63
      requires Value(t2) == Value(t1) + d + c as int + theta && Value(t4) == Value(t3) + d - c as int - theta
      modifies this`delayMM, this`delayMS, this`meanDelay, this`offsetFromMaster, this`delayAsymmetry
      ensures done && delayAsymmetry == c && Abs(Value(offsetFromMaster) + theta) * 1000 < 2 * TWO16
    {
      hide PsInstant, MeanPs, InServoRange, NearestPs;
      done := CalculateDelays(true, false, 0, c);
      OffsetAccuracy(Value(t1), Value(t2), Value(t3), Value(t4), d, theta + c as int, c as int);
    }

    /** An exchange over a path whose delays differ by the delay coefficient alpha, dMS = (1 + alpha)
        * dSM with alpha = a / 2^62, and whose round trip is below 2^54 units (some 274 s): with the
        coefficient computed from alpha and correction enabled, delayMS is the master's delay, and the
        offset that of the clocks, to less than three picoseconds. */
    method OffsetOfAsymmetricPath(a: int64, ghost dMS: int, ghost dSM: int, ghost theta: int) returns (done: bool)
      requires InServoRange(t1, t2, t3, t4)
      requires Value(t2) == Value(t1) + dMS + theta && Value(t4) == Value(t3) + dSM - theta
      requires -TWO62 <= a as int <= TWO62 && dMS * TWO62 == (TWO62 + a as int) * dSM
      requires Abs(dMS + dSM) < TWO54
      modifies this`delayMM, this`delayMS, this`meanDelay, this`offsetFromMaster, this`delayAsymmetry
      ensures done && Abs(Value(delayMS) - dMS) * 1000 < 3 * TWO16
      ensures Abs(Value(offsetFromMaster) + theta) * 1000 < 3 * TWO16
    {
      hide PsInstant, MeanPs, InServoRange, AsymmetryOf, NearestPs, PsInterval, Canonical;
      var coeff := AsymCoeff.DelayAsymCoefficient(a);
      AsymmetricPath(a as int, coeff as int, dMS, dSM);
      assert Value(t4) - Value(t1) - (Value(t3) - Value(t2)) == dMS + dSM;
      done := CalculateDelays(true, true, coeff, 0);
    }

    /** offsetFromMaster = t1 - t2 + delayMS */
    method UpdateOffset(delayMSPs: int64)
      requires Canonical(t1) && Canonical(t2) && Abs(t1.secs) < TWO62 / 8 && Abs(t2.secs) < TWO62 / 8
      requires delayMSPs as int > -TWO63
      modifies this`delayMS, this`offsetFromMaster
      ensures Value(delayMS) == PsInstant(delayMSPs as int)
      ensures Value(offsetFromMaster) == Value(t1) - Value(t2) + Value(delayMS)
      ensures Canonical(offsetFromMaster)
    {
      delayMS := TimeOfPicos(delayMSPs);
      MinusExact(t1, t2);
      SecondsNear(t1, t2, Minus(t1, t2));
      PlusExact(Minus(t1, t2), delayMS);
      offsetFromMaster := Minus(t1, t2);
      offsetFromMaster := Plus(offsetFromMaster, delayMS);
    }
  }

  const TWO54: int := 0x40_0000_0000_0000

  /** The three roundings between a round trip mm and its mean as an interval. */
  lemma MeanNear(mm: int)
    ensures var n := MeanPs(mm);
            Abs(2 * n * TWO16 - mm * 1000) <= ROUNDING + TWO16 && Abs(2 * PsInterval(n) - mm) <= 100
  {
    var n := MeanPs(mm);
    hide NearestPs;
    assert Abs(PsInterval(n) * 1000 - n * TWO16) < 1000;
  }

  /** Of the delays' difference d, T * d = a * mm with T = 2^63 + a; x is the share of the mean i that
      a coefficient r near 2^62 * a / T makes. The errors of the coefficient, of the product and of
      the mean add up. */
  lemma ShareOfMean(a: int, r: int, i: int, x: int, mm: int, d: int)
    requires -TWO62 <= a <= TWO62 && (TWO63 + a) * d == a * mm
    requires Abs(r * (TWO63 + a) - TWO62 * a) <= 66 * (TWO63 + a)
    requires Abs(x * TWO62 - r * i) < TWO62 && Abs(i) <= TWO54
    ensures Abs(2 * x - d) <= Abs(2 * i - mm) + 3
  {
    var t := TWO63 + a;
    var y, f := 2 * x - d, 2 * i - mm;
    var e1, e2 := x * TWO62 - r * i, r * t - TWO62 * a;
    ErrorsAdd(a, r, i, x, mm, d, t, e1, e2);
    WeighedErrors(t, e1, i, e2, a, f, t * y);
    CancelBelow(t, y, Abs(f) + 3);
  }

  lemma WeighedErrors(t: int, e1: int, i: int, e2: int, a: int, f: int, z: int)
    requires z * TWO62 == 2 * (t * e1) + 2 * (i * e2) + TWO62 * (a * f)
    requires 0 < t && Abs(e1) <= TWO62 && Abs(i) <= TWO54 && Abs(e2) <= 66 * t && Abs(a) <= t
    ensures Abs(z) <= t * (Abs(f) + 3)
  {
    ProductBound(t, e1, t, TWO62);
    ProductBound(i, e2, TWO54, 66 * t);
    ProductBound(a, f, t, Abs(f));
    SumBound(z, t * e1, i * e2, a * f, t, t * Abs(f));
  }

  lemma SumBound(z: int, p1: int, p2: int, p3: int, t: int, w: int)
    requires z * TWO62 == 2 * p1 + 2 * p2 + TWO62 * p3
    requires 0 < t && Abs(p1) <= t * TWO62 && Abs(p2) <= TWO54 * (66 * t) && Abs(p3) <= w
    ensures Abs(z) <= w + 3 * t
  {
  }

  lemma DifferenceBound(a: int, mm: int, d: int)
    requires -TWO62 <= a <= TWO62 && (TWO63 + a) * d == a * mm
    ensures Abs(d) <= Abs(mm)
  {
    ProductBound(a, mm, TWO63 + a, Abs(mm));
    CancelBelow(TWO63 + a, d, Abs(mm));
  }

  lemma CoefficientBound(a: int, r: int)
    requires -TWO62 <= a <= TWO62 && Abs(r * (TWO63 + a) - TWO62 * a) <= 66 * (TWO63 + a)
    ensures Abs(r) <= TWO62 + 66
  {
    assert Abs((TWO63 + a) * r) <= (TWO63 + a) * (TWO62 + 66);
    CancelBelow(TWO63 + a, r, TWO62 + 66);
  }

  lemma ErrorsAdd(a: int, r: int, i: int, x: int, mm: int, d: int, t: int, e1: int, e2: int)
    requires t * d == a * mm && e1 == x * TWO62 - r * i && e2 == r * t - TWO62 * a
    ensures t * (2 * x - d) * TWO62 == 2 * (t * e1) + 2 * (i * e2) + TWO62 * (a * (2 * i - mm))
  {
    assert t * e1 == t * x * TWO62 - t * (r * i);
    assert i * e2 == i * (r * t) - TWO62 * (a * i);
    assert t * (r * i) == i * (r * t);
    assert t * (2 * x - d) == 2 * (t * x) - a * mm;
    assert a * (2 * i - mm) == 2 * (a * i) - a * mm;
  }

  lemma ProductBound(x: int, y: int, m: int, n: int)
    requires Abs(x) <= m && Abs(y) <= n
    ensures Abs(x * y) <= m * n
  {
    MulMono(Abs(x), m, Abs(y));
    MulMono(Abs(y), n, m);
    assert Abs(x * y) == Abs(x) * Abs(y);
  }

  lemma CancelBelow(t: int, y: int, n: int)
    requires t > 0 && Abs(t * y) <= t * n
    ensures Abs(y) <= n
  {
    assert Abs(t * y) == Abs(y) * t;
    if Abs(y) > n {
      MulMono(n + 1, Abs(y), t);
    }
  }

  /** The delays of an asymmetric path, recovered from their sum. */
  lemma AsymmetricPath(a: int, r: int, dMS: int, dSM: int)
    requires -TWO62 <= a <= TWO62 && dMS * TWO62 == (TWO62 + a) * dSM && Abs(dMS + dSM) < TWO54
    requires Abs(r * (TWO63 + a) - TWO62 * a) <= 66 * (TWO63 + a)
    ensures AsymmetryFits(true, r, dMS + dSM, 0)
    ensures var n, x := MeanPs(dMS + dSM), AsymmetryFor(true, r, dMS + dSM, 0);
            Abs(PsInstant(n + NearestPs(x)) - dMS) * 1000 < 3 * TWO16
  {
    hide MeanPs, PsInterval, AsymmetryOf, NearestPs, PsInstant;
    var n, x := MeanPs(dMS + dSM), AsymmetryFor(true, r, dMS + dSM, 0);
    MeanNear(dMS + dSM);
    ShareExact(r, PsInterval(n), 0);
    DifferenceScaled(a, dMS, dSM);
    PathShare(a, r, PsInterval(n), x, dMS + dSM, dMS - dSM);
    InstantNear(n + NearestPs(x));
    RoundingsAdd(n, NearestPs(x), x, dMS, dSM, PsInstant(n + NearestPs(x)));
  }

  lemma PathShare(a: int, r: int, i: int, x: int, mm: int, d: int)
    requires -TWO62 <= a <= TWO62 && (TWO63 + a) * d == a * mm
    requires Abs(r * (TWO63 + a) - TWO62 * a) <= 66 * (TWO63 + a)
    requires Abs(x * TWO62 - r * i) < TWO62 && Abs(2 * i - mm) <= 100 && Abs(mm) < TWO54
    ensures Abs(2 * x - d) <= 103 && Abs(i) < TWO62 && Abs(x) * 1000 < TWO63 && Abs(r) < TWO63
  {
    ShareOfMean(a, r, i, x, mm, d);
    DifferenceBound(a, mm, d);
    CoefficientBound(a, r);
  }

  lemma DifferenceScaled(a: int, dMS: int, dSM: int)
    requires dMS * TWO62 == (TWO62 + a) * dSM
    ensures (TWO63 + a) * (dMS - dSM) == a * (dMS + dSM)
  {
    assert a * (dMS + dSM) == a * dMS + a * dSM && a * (dMS - dSM) == a * dMS - a * dSM;
  }

  lemma RoundingsAdd(n: int, p: int, x: int, dMS: int, dSM: int, v: int)
    requires Abs(2 * n * TWO16 - (dMS + dSM) * 1000) <= ROUNDING + TWO16
    requires Abs(p * TWO16 - x * 1000) <= ROUNDING && Abs(2 * x - (dMS - dSM)) <= 103
    requires Abs(v * 1000 - (n + p) * TWO16) <= ROUNDING
    ensures Abs(v - dMS) * 1000 < 3 * TWO16
  {
  }

  lemma NotSaturated(p: int)
    requires Abs(PsInterval(p)) < TWO62
    ensures MIN_PICOS < p < MAX_PICOS
  {
  }

  method HalfInPicos(mm: Time) returns (mean: int64)
    requires Canonical(mm) && Abs(NearestPs(Value(mm))) < TWO63
    ensures mean as int == MeanPs(Value(mm)) && Abs(mean as int) <= TWO62
  {
    hide NearestPs, ToPicos;
    ToPicosNearest(mm);
    mean := (ToPicos(mm) / 2) as int64;
  }

  method TimeOfPicos(picos: int64) returns (t: Time)
    requires picos as int > -TWO63
    ensures Value(t) == PsInstant(picos as int) && Canonical(t) && Abs(t.secs) < 9_300_000
  {
    var c := new PpTime(0, 0);
    c.SetPicos(picos);
    t := Time(c.secs as int, c.scaled as int);
  }

  lemma SecondsNear(a: Time, b: Time, r: Time)
    requires Canonical(a) && Canonical(b) && Value(r) == Value(a) - Value(b) && Abs(r.scaled) <= SNS
    ensures Abs(r.secs - (a.secs - b.secs)) <= 3
  {}

  /** A negative round trip whose nearest picosecond is odd, and beyond it by 928/65536 ps or
      more: halving it takes another half picosecond in the same direction. */
  predicate Misrounded(mm: int) {
    mm < 0 && NearestPs(mm) % 2 == 1 && mm * 1000 - NearestPs(mm) * TWO16 >= 928
  }

  /** The two-way exchange: with t2 = t1 + d + theta and t4 = t3 + d - theta the computed
      offset is -theta up to rounding. Without asymmetry the error is below one picosecond
      unless the measured round trip is misrounded; in general it is below two. */
  lemma OffsetAccuracy(t1: int, t2: int, t3: int, t4: int, d: int, theta: int, asym: int)
    requires t2 == t1 + d + theta && t4 == t3 + d - theta
    ensures var mm := t4 - t1 - (t3 - t2);
            var error := t1 - t2 + PsInstant(MeanPs(mm) + NearestPs(asym)) - asym + theta;
            && mm == 2 * d
            && Abs(error) * 1000 < 2 * TWO16
            && (asym == 0 ==> (Abs(error) * 1000 < TWO16 <==> !Misrounded(mm)))
  {
    hide NearestPs, PsInstant, Misrounded;
    var ps := MeanPs(2 * d) + NearestPs(asym);
    InstantNear(ps);
    assert Abs(NearestPs(2 * d) * TWO16 - 2 * d * 1000) <= ROUNDING;
    HalfExactly(d);
    assert NearestPs(0) == 0 by { NearestZero(); }
  }

  lemma NearestZero()
    ensures NearestPs(0) == 0
  {
  }

  /** Exactly when half the measured round trip, as an instant, is within a picosecond of d. */
  lemma HalfExactly(d: int)
    ensures Abs(PsInstant(MeanPs(2 * d)) - d) * 1000 < TWO16 <==> !Misrounded(2 * d)
  {
    hide PsInstant, NearestPs;
    if d >= 0 {
      HalfPositive(d);
    } else {
      HalfNegative(-d);
    }
  }

  lemma HalfPositive(d: int)
    requires d >= 0
    ensures Abs(PsInstant(MeanPs(2 * d)) - d) * 1000 < TWO16
  {
  }

  lemma HalfNegative(d: int)
    requires d > 0
    ensures Abs(PsInstant(MeanPs(2 * -d)) - -d) * 1000 < TWO16 <==> !Misrounded(2 * -d)
  {
    var r := (2000 * d + ROUNDING) / TWO16;
    assert NearestPs(2 * -d) == -r;
    var k := (r + 1) / 2;
    assert MeanPs(2 * -d) == -k;
    if k > 0 {
      assert PsInstant(-k) == -((k * TWO16 + ROUNDING) / 1000);
      HalvedMagnitude(d, r, k);
    }
  }

  lemma HalvedMagnitude(d: int, r: int, k: int)
    requires d > 0 && r == (2000 * d + ROUNDING) / TWO16 && k == (r + 1) / 2 && k > 0
    ensures var v := (k * TWO16 + ROUNDING) / 1000;
            Abs(v - d) * 1000 >= TWO16 <==> r % 2 == 1 && r * TWO16 - 2000 * d >= 928
  {
    if r % 2 == 1 {
      assert 2 * k == r + 1;
    } else {
      assert 2 * k == r;
    }
  }

  /** picos_to_pp_time errs away from zero by half a picosecond at most. */
  lemma InstantNear(p: int)
    ensures p >= 0 ==> p * TWO16 + ROUNDING - 1000 < PsInstant(p) * 1000 <= p * TWO16 + ROUNDING
    ensures p < 0 ==> p * TWO16 - ROUNDING <= PsInstant(p) * 1000 < p * TWO16 - ROUNDING + 1000
  {}

  /** A measured round trip for which one picosecond is exceeded. */
  lemma NegativeDelayExceeds()
    ensures Misrounded(2 * -97)
  {
    assert NearestPs(-194) == -3;
  }
}
