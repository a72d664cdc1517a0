/** The phase servo of the White Rabbit extensions, and a clock that follows its orders. */
module WrhServo {
  import opened CInt
  import opened Arith
  import opened TimeArith
  import opened TimeOps

  datatype ServoState = Uninitialized | SyncTai | SyncNsec | SyncPhase | WaitOffsetStable | TrackPhase

  /** What the servo orders: counters moved by whole seconds or by nanoseconds, or a phase. */
  datatype Adjustment = NoAdjust | Counters(secs: int, ns: int) | Phase(setpoint: int)

  /** WRH_SERVO_OFFSET_STABILITY_THRESHOLD, in ps, and the tries allowed before a new phase. */
  const STABILITY_THRESHOLD := 60
  const MAX_MISSED := 10

  datatype Core = Core(state: ServoState, setpoint: int, missed: nat)

  predicate Period(period: int) {
    0 < period < TWO31 && period % 1000 == 0
  }

  /** An offset in whole clock periods, counted in ns, and what is left in ps. */
  function Ticks(period: int, v: int): (ns: int)
    requires Period(period)
  {
    var ps := Abs(NearestPs(v));
    WithSign(v, (ps - ps % period) / 1000)
  }

  function Rest(period: int, v: int): (ps: int)
    requires Period(period)
  {
    WithSign(v, Abs(NearestPs(v)) % period)
  }

  /** Large offsets choose the state; small ones let it be. */
  function Chosen(s: ServoState, period: int, o: Time): (r: ServoState)
    requires Period(period)
  {
    if o.secs != 0 then SyncTai else if Ticks(period, o.scaled) != 0 then SyncNsec else s
  }

  /** One update on an offset that the hardware is ready for. */
  function Next(c: Core, period: int, tracking: bool, o: Time): (r: (Core, Adjustment))
    requires Period(period)
  {
    match Chosen(c.state, period, o)
    case Uninitialized => (c, NoAdjust)
    case SyncTai => (c.(state := SyncPhase), Counters(o.secs, 0))
    case SyncNsec => (c.(state := SyncPhase), Counters(0, Ticks(period, o.scaled)))
    case SyncPhase =>
      var p := c.setpoint + Rest(period, o.scaled);
      (c.(state := WaitOffsetStable, setpoint := p), Phase(p))
    case WaitOffsetStable =>
      if Abs(NearestPs(o.scaled)) < STABILITY_THRESHOLD then
        (if c.missed >= MAX_MISSED then c.(state := SyncPhase, missed := 0) else c.(state := TrackPhase), NoAdjust)
      else
        (if c.missed + 1 >= MAX_MISSED then c.(state := SyncPhase, missed := 0) else c.(missed := c.missed + 1),
         NoAdjust)
    case TrackPhase =>
      if !tracking then (c, NoAdjust)
      else if Abs(Rest(period, o.scaled)) > 2 * STABILITY_THRESHOLD then (c.(state := SyncPhase), NoAdjust)
      else
        var p := c.setpoint + TruncDiv(Rest(period, o.scaled), 4);
        (c.(setpoint := p), Phase(p))
  }

  class Servo {
    var state: ServoState
    var setpointPs: int
    var missedIters: nat
    var clockPeriodPs: int32
    var readyForSync: bool
    var doRestart: bool
    var servoLocked: bool

    predicate Valid()
      reads this
    {
      Period(clockPeriodPs as int) && missedIters < MAX_MISSED
    }

    function View(): Core
      reads this
    {
      Core(state, setpointPs, missedIters)
    }

    /** __wrh_servo_update: delaysOk tells whether the offset o could be calculated. */
    method Update(delaysOk: bool, o: Time, pllLocked: bool, busy: bool, tracking: bool) returns (adj: Adjustment)
      requires Valid() && Canonical(o) && Abs(o.secs) < TWO62
      modifies this`state, this`setpointPs, this`missedIters, this`doRestart, this`servoLocked
      ensures Valid() && (adj.Counters? ==> adj.secs == 0 || adj.ns == 0)
      ensures var asked := delaysOk && old(state) != Uninitialized && readyForSync;
              && doRestart == (old(doRestart) || (asked && !pllLocked))
              && (asked && pllLocked && !busy ==>
                    && (View(), adj) == Next(old(View()), clockPeriodPs as int, tracking, o)
                    && servoLocked == (state == TrackPhase))
              && (!(asked && pllLocked && !busy) ==>
                    adj == NoAdjust && View() == old(View()) && servoLocked == old(servoLocked))
    {
      adj := NoAdjust;
      if state == Uninitialized || !delaysOk || !readyForSync {
        return;
      }
      if !pllLocked {
        doRestart := true;
        return;
      }
      if busy {
        return;
      }
      adj := Act(o, tracking);
      servoLocked := state == TrackPhase;
    }

    method InTicks(scaled: int64) returns (ticks: int, ps: int)
      requires Valid() && Abs(scaled as int) <= SNS
      ensures ticks == Ticks(clockPeriodPs as int, scaled as int) && ps == Rest(clockPeriodPs as int, scaled as int)
    {
      hide NearestPs;
      var _, t, p := Hardwarize(scaled, clockPeriodPs);
      ticks, ps := t as int, p as int;
    }

    /** The choice of the state and its action. */
    method Act(o: Time, tracking: bool) returns (adj: Adjustment)
      requires Valid() && Canonical(o) && Abs(o.secs) < TWO62
      modifies this`state, this`setpointPs, this`missedIters
      ensures Valid() && (View(), adj) == Next(old(View()), clockPeriodPs as int, tracking, o)
    {
      hide NearestPs, ToPicos, Ticks, Rest;
      adj := NoAdjust;
      var offsetTicks, offsetPs := 0, 0;
      if o.secs != 0 {
        state := SyncTai;
      } else {
        offsetTicks, offsetPs := InTicks(o.scaled as int64);
        if offsetTicks != 0 {
          state := SyncNsec;
        }
      }
      match state {
        case Uninitialized =>
        case SyncTai =>
          adj := Counters(o.secs, 0);
          state := SyncPhase;
        case SyncNsec =>
          adj := Counters(0, offsetTicks);
          state := SyncPhase;
        case SyncPhase =>
          setpointPs := setpointPs + offsetPs;
          adj := Phase(setpointPs);
          state := WaitOffsetStable;
        case WaitOffsetStable =>
          ToPicosNearest(o);
          if Abs(ToPicos(o)) < STABILITY_THRESHOLD {
            state := TrackPhase;
          } else {
            missedIters := missedIters + 1;
          }
          if missedIters >= MAX_MISSED {
            missedIters := 0;
            state := SyncPhase;
          }
        case TrackPhase =>
          if tracking {
            if Abs(offsetPs) > 2 * STABILITY_THRESHOLD {
              state := SyncPhase;
            } else {
              setpointPs := setpointPs + TruncDiv(offsetPs, 4);
              adj := Phase(setpointPs);
            }
          }
      }
    }
  }

  /** The clock obeys: counters exactly, the phase up to the grain of the next measurement. */
  predicate Obeys(c: Core, r: (Core, Adjustment), o: Time, p: Time) {
    && Canonical(p)
    && match r.1
       case NoAdjust => Value(p) == Value(o)
       case Counters(secs, ns) => Value(p) == Value(o) - secs * SNS - ns * TWO16
       case Phase(setpoint) => Abs(Value(p) * 1000 - (Value(o) * 1000 - (setpoint - c.setpoint) * TWO16)) < 1000
  }

  /** A run of the servo and its clock: states, measured offsets, and tracking on or off. */
  predicate Trace(period: int, cs: seq<Core>, os: seq<Time>, on: seq<bool>)
    requires Period(period)
  {
    && 0 < |cs| == |os| == |on|
    && forall i :: 0 <= i < |cs| - 1 ==> Linked(period, on[i], cs[i], os[i], cs[i + 1], os[i + 1])
  }

  predicate Linked(period: int, on: bool, c: Core, o: Time, d: Core, p: Time)
    requires Period(period)
  {
    var r := Next(c, period, on, o);
    d == r.0 && Obeys(c, r, o, p)
  }

  /** Tracking, with an offset within the threshold. */
  predicate Settled(c: Core, o: Time) {
    c.state == TrackPhase && o.secs == 0 && Abs(o.scaled) < SNS && Abs(NearestPs(o.scaled)) < STABILITY_THRESHOLD
  }

  /** How many updates it takes to get there, at most. */
  function Ahead(period: int, c: Core, o: Time): (n: int)
    requires Period(period)
  {
    if o.secs != 0 then 4
    else if Ticks(period, o.scaled) != 0 then 3
    else match c.state
      case SyncPhase => 2
      case WaitOffsetStable => if Abs(NearestPs(o.scaled)) < STABILITY_THRESHOLD then 1 else 2 + MAX_MISSED - c.missed
      case _ => 3
  }

  lemma BelowOneSecond(p: Time)
    requires Canonical(p) && Abs(Value(p)) < SNS
    ensures p == Time(0, Value(p))
  {
  }

  lemma WholePeriods(ps: nat, period: int)
    requires period >= 1000
    ensures (ps - ps % period) / 1000 == 0 <==> ps < period
    ensures ps < period ==> ps % period == ps
  {
    var q, r := ps / period, ps % period;
    assert ps == q * period + r;
    if ps < period {
      DivUnique(ps, period, 0, ps);
    } else {
      assert q > 0;
      MulMono(1, q, period);
      AtLeastOne(q * period);
      assert ps - ps % period == q * period;
    }
  }

  lemma AtLeastOne(n: int)
    requires n >= 1000
    ensures n / 1000 > 0
  {
  }

  lemma Signed(v: int)
    ensures WithSign(v, Abs(NearestPs(v))) == NearestPs(v)
  {
  }

  /** No ticks: less than a period is left. */
  lemma NoTicks(period: int, v: int)
    requires Period(period)
    ensures Ticks(period, v) == 0 <==> Abs(NearestPs(v)) < period
    ensures Ticks(period, v) == 0 ==> Rest(period, v) == NearestPs(v)
  {
    hide NearestPs;
    WholePeriods(Abs(NearestPs(v)), period);
    Signed(v);
  }

  /** The period is a whole number of ns, so ticks are exact. */
  lemma TicksExact(period: int, v: int)
    requires Period(period)
    ensures Ticks(period, v) * 1000 == WithSign(v, Abs(NearestPs(v)) - Abs(NearestPs(v)) % period)
  {
    hide NearestPs;
    Thousands(Abs(NearestPs(v)), period);
  }

  lemma Thousands(ps: nat, period: int)
    requires Period(period)
    ensures (ps - ps % period) / 1000 * 1000 == ps - ps % period
  {
    var q, k := ps / period, period / 1000;
    assert ps - ps % period == q * (1000 * k);
    assert q * (1000 * k) == 1000 * (q * k);
  }

  /** After the counters were moved by the ticks, none are left. */
  lemma TicksTaken(period: int, v: int)
    requires Period(period) && Abs(v) < SNS
    ensures var w := v - Ticks(period, v) * TWO16;
            Ticks(period, w) == 0 && Abs(w) < SNS
  {
    TicksExact(period, v);
    var w := v - Ticks(period, v) * TWO16;
    var ps := Abs(NearestPs(v));
    assert 0 <= ps % period < period;
    NoTicks(period, w);
  }

  /** SYNC_PHASE brings the offset to the grain of the measurement. */
  lemma PhaseSet(v: int, w: int)
    requires Abs(w * 1000 - (v * 1000 - NearestPs(v) * TWO16)) < 1000
    ensures Abs(w) < 34 && Abs(NearestPs(w)) <= 1
  {
  }

  /** Tracking takes a quarter off, toward zero, and never overshoots. */
  lemma QuarterOff(v: int, w: int)
    requires Abs(w * 1000 - (v * 1000 - TruncDiv(NearestPs(v), 4) * TWO16)) < 1000
    ensures Abs(w) <= Abs(v) && Abs(NearestPs(w)) <= Abs(NearestPs(v))
    ensures Abs(NearestPs(v)) < 4 ==> w == v
    ensures Abs(NearestPs(v)) >= 4 ==> Abs(w) < Abs(v) - 64
  {
    hide NearestPs, TruncDiv;
    Mirrored(v);
    Mirrored(w);
    if v >= 0 {
      Quarter(NearestPs(v));
      QuarterOffPositive(v, w);
    } else {
      Quarter(NearestPs(-v));
      QuarterOffPositive(-v, -w);
    }
  }

  lemma Quarter(n: int)
    requires n >= 0
    ensures TruncDiv(n, 4) == n / 4 && TruncDiv(-n, 4) == -(n / 4)
  {
  }

  lemma Mirrored(v: int)
    ensures NearestPs(-v) == -NearestPs(v) && (v >= 0 ==> NearestPs(v) >= 0)
  {
  }

  lemma QuarterOffPositive(v: int, w: int)
    requires v >= 0 && Abs(w * 1000 - (v * 1000 - NearestPs(v) / 4 * TWO16)) < 1000
    ensures 0 <= w <= v && 0 <= NearestPs(w) <= NearestPs(v)
    ensures NearestPs(v) < 4 ==> w == v
    ensures NearestPs(v) >= 4 ==> w < v - 64
  {
  }

  /** One update from a small offset, while the phase is being set. */
  lemma SmallOffset(period: int, on: bool, c: Core, o: Time, d: Core, p: Time)
    requires Period(period) && Linked(period, on, c, o, d, p) && c.missed < MAX_MISSED
    requires o.secs == 0 && Abs(o.scaled) < SNS && Ticks(period, o.scaled) == 0
    requires c.state == SyncPhase || c.state == WaitOffsetStable
    ensures d.missed < MAX_MISSED && p.secs == 0 && Abs(p.scaled) < SNS
    ensures Settled(d, p) || (d.state in {SyncPhase, WaitOffsetStable} && Ahead(period, d, p) < Ahead(period, c, o))
  {
    hide NearestPs;
    var v := o.scaled;
    NoTicks(period, v);
    if c.state == SyncPhase {
      PhaseSet(v, Value(p));
      BelowOneSecond(p);
      NoTicks(period, p.scaled);
    } else {
      BelowOneSecond(p);
    }
  }

  /** One update from an offset of seconds or ticks, or right after initialisation. */
  lemma LargeOffset(period: int, on: bool, c: Core, o: Time, d: Core, p: Time)
    requires Period(period) && Linked(period, on, c, o, d, p) && c.missed < MAX_MISSED
    requires Canonical(o) && Abs(o.scaled) < SNS
    requires o.secs != 0 || Ticks(period, o.scaled) != 0 || c.state == SyncTai || c.state == SyncNsec
    ensures d.missed < MAX_MISSED && p.secs == 0 && Abs(p.scaled) < SNS && d.state == SyncPhase
    ensures Ahead(period, d, p) < Ahead(period, c, o)
  {
    hide NearestPs, Ticks, Rest;
    TicksTaken(period, o.scaled);
    BelowOneSecond(p);
  }

  /** Settled is kept by every update. */
  lemma StaysSettled(period: int, on: bool, c: Core, o: Time, d: Core, p: Time)
    requires Period(period) && Linked(period, on, c, o, d, p) && Settled(c, o)
    ensures Settled(d, p) && Abs(p.scaled) <= Abs(o.scaled)
    ensures on && Abs(NearestPs(o.scaled)) >= 4 ==> Abs(p.scaled) < Abs(o.scaled) - 64
  {
    hide NearestPs;
    NoTicks(period, o.scaled);
    if on {
      QuarterOff(o.scaled, Value(p));
    }
    BelowOneSecond(p);
  }

  /** A servo that is on its way: initialised, and if it is tracking, not by mistake. */
  predicate OnItsWay(period: int, c: Core, o: Time)
    requires Period(period)
  {
    && c.state != Uninitialized && c.missed < MAX_MISSED && Canonical(o) && Abs(o.scaled) < SNS
    && (c.state == TrackPhase ==> o.secs != 0 || Ticks(period, o.scaled) != 0)
  }

  /** The bound on what is ahead shrinks by one with every update until the servo has settled. */
  lemma {:induction false} Approaches(period: int, cs: seq<Core>, os: seq<Time>, on: seq<bool>, i: nat)
    requires Period(period) && Trace(period, cs, os, on) && i < |cs|
    requires OnItsWay(period, cs[0], os[0]) || Settled(cs[0], os[0])
    ensures Settled(cs[i], os[i])
            || (OnItsWay(period, cs[i], os[i]) && Ahead(period, cs[i], os[i]) + i <= Ahead(period, cs[0], os[0]))
    decreases i
  {
    hide Ticks, Next, Obeys, NearestPs;
    if i > 0 {
      Approaches(period, cs, os, on, i - 1);
      var k := i - 1;
      assert Linked(period, on[k], cs[k], os[k], cs[k + 1], os[k + 1]);
      OneUpdate(period, on[k], cs[k], os[k], cs[i], os[i]);
    }
  }

  lemma OneUpdate(period: int, on: bool, c: Core, o: Time, d: Core, p: Time)
    requires Period(period) && Linked(period, on, c, o, d, p)
    requires OnItsWay(period, c, o) || Settled(c, o)
    ensures Settled(d, p) || (OnItsWay(period, d, p) && !Settled(c, o) && Ahead(period, d, p) < Ahead(period, c, o))
  {
    hide Ticks, Next, Obeys, NearestPs, Linked;
    if Settled(c, o) {
      StaysSettled(period, on, c, o, d, p);
    } else if o.secs == 0 && Ticks(period, o.scaled) == 0 && c.state in {SyncPhase, WaitOffsetStable} {
      SmallOffset(period, on, c, o, d, p);
    } else {
      LargeOffset(period, on, c, o, d, p);
    }
  }

  /** From SYNC_TAI, after four updates at most the servo tracks, and it goes on doing so; from
      any other initialised state it takes twelve at most. */
  lemma Converges(period: int, cs: seq<Core>, os: seq<Time>, on: seq<bool>)
    requires Period(period) && Trace(period, cs, os, on) && OnItsWay(period, cs[0], os[0])
    ensures cs[0].state == SyncTai ==> forall i :: 4 <= i < |cs| ==> Settled(cs[i], os[i])
    ensures forall i :: 12 <= i < |cs| ==> Settled(cs[i], os[i])
  {
    hide Ticks, Next, Obeys, NearestPs, Linked;
    forall i | 4 <= i < |cs|
      ensures cs[0].state == SyncTai || 12 <= i ==> Settled(cs[i], os[i])
    {
      Approaches(period, cs, os, on, i);
    }
  }

  /** Updates of the servo on whatever is measured. */
  predicate Updates(period: int, cs: seq<Core>, os: seq<Time>, on: seq<bool>)
    requires Period(period)
  {
    && 0 < |cs| == |os| == |on|
    && forall i, j :: 0 <= i < |cs| && j == i + 1 < |cs| ==> cs[j] == Next(cs[i], period, on[i], os[i]).0
  }

  /** A measurement below a tick that is not stable. */
  predicate Unstable(period: int, o: Time)
    requires Period(period)
  {
    o.secs == 0 && Ticks(period, o.scaled) == 0 && Abs(NearestPs(o.scaled)) >= STABILITY_THRESHOLD
  }

  /** Ten unstable measurements in all are waited for, and no fewer, before the phase is set anew. */
  lemma {:induction false} WaitsForTen(period: int, cs: seq<Core>, os: seq<Time>, on: seq<bool>, i: nat)
    requires Period(period) && Updates(period, cs, os, on) && i < |cs|
    requires cs[0].state == WaitOffsetStable && cs[0].missed + i <= MAX_MISSED && cs[0].missed < MAX_MISSED
    requires forall k :: 0 <= k < i ==> Unstable(period, os[k])
    ensures cs[i] == if cs[0].missed + i < MAX_MISSED then cs[0].(missed := cs[0].missed + i)
                     else cs[0].(state := SyncPhase, missed := 0)
    decreases i
  {
    hide Ticks, Rest, NearestPs;
    if i > 0 {
      WaitsForTen(period, cs, os, on, i - 1);
    }
  }

  /** The first stable one before the tenth unstable ends the wait. */
  lemma StableTracks(period: int, c: Core, on: bool, o: Time)
    requires Period(period) && c.state == WaitOffsetStable && c.missed < MAX_MISSED
    requires o.secs == 0 && Ticks(period, o.scaled) == 0 && !Unstable(period, o)
    ensures Next(c, period, on, o) == (c.(state := TrackPhase), NoAdjust)
  {
  }

  /** Tracking, below a tick, is left exactly beyond twice the threshold, and then the phase is
      set anew: two more updates and the servo has settled. Otherwise the offset does not grow. */
  lemma TrackingExactly(period: int, on: bool, c: Core, o: Time, d: Core, p: Time)
    requires Period(period) && Linked(period, on, c, o, d, p) && c.state == TrackPhase && c.missed < MAX_MISSED
    requires o.secs == 0 && Abs(o.scaled) < SNS && Ticks(period, o.scaled) == 0
    ensures d.state == TrackPhase <==> !on || Abs(NearestPs(o.scaled)) <= 2 * STABILITY_THRESHOLD
    ensures d.state == TrackPhase ==> p.secs == 0 && Abs(p.scaled) <= Abs(o.scaled)
    ensures d.state != TrackPhase ==> d.state == SyncPhase && OnItsWay(period, d, p) && Ahead(period, d, p) == 2
  {
    hide NearestPs;
    NoTicks(period, o.scaled);
    if on && Abs(NearestPs(o.scaled)) <= 2 * STABILITY_THRESHOLD {
      QuarterOff(o.scaled, Value(p));
    }
    BelowOneSecond(p);
  }
}
