/** The foreign master table of a port, and the scans of bmc.c over it. */
module ForeignMasters {
  import opened BmcCompare

  const EMPTY := Record(0, 0, PortId(0, 0), PortId(0, 0), Gm(0, 0, 0, 0, 0), 0, false, 0)

  /** time_after on a 32-bit unsigned long. */
  predicate TimeAfter(a: int, b: int) {
    (b - a) % 0x1_0000_0000 >= 0x8000_0000
  }

  /** Times that a 32-bit counter can compare: less than half its range apart. */
  predicate Near(now: int, due: int) {
    -0x8000_0000 < now - due <= 0x8000_0000
  }

  lemma AfterExactly(now: int, due: int)
    ensures Near(now, due) ==> (TimeAfter(now, due) <==> now > due)
  {
    if now > due && Near(now, due) {
      assert (due - now) % 0x1_0000_0000 == due - now + 0x1_0000_0000;
    }
  }

  predicate Distinct(s: seq<Record>) {
    forall i, j :: 0 <= i < j < |s| ==> s[i].source != s[j].source
  }

  /** The hypotheses under which the comparison orders the records of s. */
  ghost predicate Ordered(s: seq<Record>) {
    && (forall i :: 0 <= i < |s| ==> NotLooped(s[i]))
    && (forall i, j :: 0 <= i < |s| && 0 <= j < |s| ==> Coherent(s[i], s[j]))
  }

  function WithoutIndex<T>(s: seq<T>, k: nat): (r: seq<T>)
    requires k < |s|
    ensures |r| == |s| - 1
  {
    s[..k] + s[k + 1..]
  }

  lemma ShiftedDown(was: seq<Record>, s: seq<Record>, k: nat, n: nat)
    requires k <= n < |was| && n <= |s|
    requires forall j :: 0 <= j < k ==> s[j] == was[j]
    requires forall j :: k <= j < n ==> s[j] == was[j + 1]
    ensures s[..n] == WithoutIndex(was[..n + 1], k)
  {}

  predicate Stays(e: Ebest, now: int, window: int, r: Record) {
    IsEbest(e, r) || !TimeAfter(now, r.lastAnnounceMs + window)
  }

  /** The records that survive ageing, in their order. */
  function Kept(s: seq<Record>, e: Ebest, now: int, window: int): (r: seq<Record>)
  {
    if s == [] then []
    else if Stays(e, now, window, s[0]) then [s[0]] + Kept(s[1..], e, now, window)
    else Kept(s[1..], e, now, window)
  }

  /** Ageing drops exactly the records other than Ebest whose last timed announce is longer ago than
      the window. */
  lemma {:induction false} KeptExactly(s: seq<Record>, r: Record, e: Ebest, now: int, window: int)
    requires r in s && Near(now, r.lastAnnounceMs + window)
    ensures r in Kept(s, e, now, window) <==> IsEbest(e, r) || now - r.lastAnnounceMs <= window
  {
    AfterExactly(now, r.lastAnnounceMs + window);
    if r in s[1..] {
      KeptExactly(s[1..], r, e, now, window);
    } else {
      var _ := KeptWithin(s[1..], 0, e, now, window);
    }
  }

  /** What is kept was there before, in the same order: at increasing places, counted from k. */
  lemma {:induction false} KeptWithin(s: seq<Record>, k: nat, e: Ebest, now: int, window: int) returns (at: seq<nat>)
    ensures var r := Kept(s, e, now, window);
            |at| == |r| && forall i :: 0 <= i < |at| ==> k <= at[i] < k + |s| && s[at[i] - k] == r[i]
    ensures forall i, j :: 0 <= i < j < |at| ==> at[i] < at[j]
  {
    hide Stays;
    at := [];
    if s != [] {
      at := KeptWithin(s[1..], k + 1, e, now, window);
      assert forall i :: 0 <= i < |at| ==> s[1..][at[i] - (k + 1)] == s[at[i] - k];
      if Stays(e, now, window, s[0]) {
        at := [k] + at;
      }
    }
  }

  /** Looking at the record at i: it moves to the kept ones, or out of the table. */
  lemma KeptStep(s: seq<Record>, i: nat, e: Ebest, now: int, window: int)
    requires i < |s|
    ensures var t := WithoutIndex(s, i);
            if Stays(e, now, window, s[i])
            then s[..i] + Kept(s[i..], e, now, window) == s[..i + 1] + Kept(s[i + 1..], e, now, window)
            else s[..i] + Kept(s[i..], e, now, window) == t[..i] + Kept(t[i..], e, now, window)
  {
    hide Stays;
    var t := WithoutIndex(s, i);
    assert s[i..][1..] == s[i + 1..] && t[i..] == s[i + 1..] && t[..i] == s[..i];
    assert s[..i + 1] == s[..i] + [s[i]];
  }

  lemma KeptAll(s: seq<Record>, i: nat, e: Ebest, now: int, window: int)
    requires i == |s|
    ensures s[..i] + Kept(s[i..], e, now, window) == s
  {}

  function EbestOf(s: seq<Record>, best: int, holdsEbest: bool, other: Ebest): (e: Ebest)
    requires -1 <= best < |s|
  {
    if !holdsEbest then other else if best == -1 then None else Some(s[best].source)
  }

  function BestOf(s: seq<Record>, best: int): (r: Option<Record>)
    requires -1 <= best < |s|
  {
    if best == -1 then None else Some(s[best])
  }

  /** The record held best, until it ages out. */
  function KeptBest(r: Option<Record>, e: Ebest, now: int, window: int): (b: Option<Record>)
  {
    if r.Some? && Stays(e, now, window, r.value) then r else None
  }

  function BestWithout(best: int, idx: nat): (b: int)
  {
    if best > idx then best - 1 else if best == idx then -1 else best
  }

  lemma BestRemoved(s: seq<Record>, best: int, idx: nat)
    requires -1 <= best < |s| && idx < |s|
    ensures var t, b := WithoutIndex(s, idx), BestWithout(best, idx);
            -1 <= b < |t| && BestOf(t, b) == if best == idx then None else BestOf(s, best)
  {
  }

  /** Removing a record that does not stay leaves the Ebest test alone and the best record
      in place, unless it is that record. */
  lemma BestStep(s: seq<Record>, best: int, i: nat, e: Ebest, holdsEbest: bool, other: Ebest, now: int, window: int)
    requires -1 <= best < |s| && i < |s| && EbestOf(s, best, holdsEbest, other) == e
    requires 0 <= best < i ==> Stays(e, now, window, s[best])
    ensures !Stays(e, now, window, s[i]) ==>
              var t, b := WithoutIndex(s, i), BestWithout(best, i);
              && -1 <= b < |t| && EbestOf(t, b, holdsEbest, other) == e
              && KeptBest(BestOf(t, b), e, now, window) == KeptBest(BestOf(s, best), e, now, window)
              && (0 <= b < i ==> Stays(e, now, window, t[b]))
  {
    hide TimeAfter;
  }

  /** best denotes a record than which none is better; -1 exactly if none is qualified. */
  ghost predicate IsErbest(s: seq<Record>, best: int, e: Ebest) {
    && -1 <= best < |s|
    && (best == -1 <==> forall i :: 0 <= i < |s| ==> !Qualified(e, s[i]))
    && (best >= 0 ==> forall i :: 0 <= i < |s| ==> DatasetCmp(e, s[i], s[best]) >= 0)
  }

  lemma BestIsErbest(s: seq<Record>, best: nat, e: Ebest)
    requires Ordered(s) && best < |s| && forall i :: 0 <= i < |s| ==> Rank(e, s[best]) <= Rank(e, s[i])
    ensures IsErbest(s, if Qualified(e, s[best]) then best else -1, e)
  {
    hide DatasetCmp, FullRank, Coherent, NotLooped;
    forall i | 0 <= i < |s|
      ensures DatasetCmp(e, s[i], s[best]) >= 0
      ensures !Qualified(e, s[best]) ==> !Qualified(e, s[i])
    {
      DatasetCmpIsRankOrder(e, s[i], s[best]);
    }
  }

  class ForeignTable {
    const capacity: nat
    /** One slot longer than the table: the removal loop reads the memory just past it. */
    const frgn: array<Record>
    var recNum: nat
    var recBest: int

    ghost predicate Valid()
      reads this, frgn
    {
      && frgn.Length == capacity + 1 && 0 < capacity
      && recNum <= capacity && -1 <= recBest < recNum
    }

    function Erbest(): (r: Record)
      reads this, frgn
      requires Valid() && recBest >= 0
    {
      frgn[recBest]
    }

    ghost function Live(): seq<Record>
      reads this, frgn
      requires Valid()
    {
      frgn[..recNum]
    }

    /** bmc_remove_foreign_master */
    method Remove(idx: nat)
      requires Valid() && idx < recNum
      modifies this, frgn
      ensures Valid() && recNum == old(recNum) - 1
      ensures Live() == WithoutIndex(old(Live()), idx)
      ensures recBest == BestWithout(old(recBest), idx)
      ensures BestOf(Live(), recBest) == if old(recBest) == idx then None else BestOf(old(Live()), old(recBest))
      ensures frgn[capacity] == old(frgn[capacity])
    {
      hide WithoutIndex;
      ghost var was := frgn[..];
      MoveDown(idx);
      assert old(Live()) == was[..recNum + 1];
      ShiftedDown(was, frgn[..], idx, recNum);
      BestRemoved(old(Live()), old(recBest), idx);
      assert Live() == frgn[..][..recNum];
    }

    method MoveDown(idx: nat)
      requires Valid() && idx < recNum
      modifies this, frgn
      ensures Valid() && recNum == old(recNum) - 1 && frgn[capacity] == old(frgn[capacity])
      ensures forall j :: 0 <= j < idx ==> frgn[j] == old(frgn[j])
      ensures forall j :: idx <= j < recNum ==> frgn[j] == old(frgn[j + 1])
      ensures recBest == BestWithout(old(recBest), idx)
    {
      if recBest == idx {
        recBest := -1;
      }
      ghost var best := recBest;
      for i := idx to capacity
        invariant recNum == old(recNum) && frgn[capacity] == old(frgn[capacity])
        invariant forall j :: 0 <= j < idx ==> frgn[j] == old(frgn[j])
        invariant idx + 1 < recNum ==> forall j :: idx <= j < i ==> frgn[j] == old(frgn[j + 1])
        invariant idx + 1 < recNum ==> forall j :: i <= j <= capacity ==> frgn[j] == old(frgn[j])
        invariant recBest == if best > idx && best <= i then best - 1 else best
      {
        if idx < recNum - 1 {
          frgn[i] := frgn[i + 1];
          if recBest == i + 1 {
            recBest := i;
          }
        } else {
          frgn[i] := EMPTY;
        }
      }
      recNum := recNum - 1;
    }

    /** The source is_ebest compares with: this port's best record if this port holds Ebest. */
    function EbestSource(holdsEbest: bool, other: Ebest): (e: Ebest)
      reads this, frgn
      requires Valid()
      ensures e == EbestOf(Live(), recBest, holdsEbest, other)
    {
      if !holdsEbest then other else if recBest != -1 then Some(frgn[recBest].source) else None
    }

    /** One look at record i; the Ebest test is made afresh each time. */
    method AgeOne(i: nat, holdsEbest: bool, other: Ebest, now: int, window: int) returns (removed: bool)
      requires Valid() && i < recNum
      modifies this, frgn
      ensures Valid()
      ensures removed <==> !Stays(old(EbestSource(holdsEbest, other)), now, window, old(Live()[i]))
      ensures recNum == old(recNum) - (if removed then 1 else 0)
      ensures Live() == if removed then WithoutIndex(old(Live()), i) else old(Live())
      ensures recBest == if removed then BestWithout(old(recBest), i) else old(recBest)
    {
      hide TimeAfter;
      removed := false;
      if EbestSource(holdsEbest, other) != Some(frgn[i].source) {
        if TimeAfter(now, frgn[i].lastAnnounceMs + window) {
          Remove(i);
          removed := true;
        }
      }
    }

    /** bmc_age_frgn_master: what stays is Ebest or was announced within the window, and the
        removals do not disturb the Ebest test or the record the port holds best. */
    method Age(holdsEbest: bool, other: Ebest, now: int, window: int)
      requires Valid()
      modifies this, frgn
      ensures Valid()
      ensures var e := old(EbestSource(holdsEbest, other));
              && EbestSource(holdsEbest, other) == e
              && Live() == Kept(old(Live()), e, now, window)
              && BestOf(Live(), recBest) == KeptBest(BestOf(old(Live()), old(recBest)), e, now, window)
    {
      hide Stays, Kept, WithoutIndex, BestWithout;
      ghost var e := EbestSource(holdsEbest, other);
      ghost var b := KeptBest(BestOf(Live(), recBest), e, now, window);
      var i := 0;
      while i < recNum
        invariant Valid() && i <= recNum && EbestOf(Live(), recBest, holdsEbest, other) == e
        invariant Kept(old(Live()), e, now, window) == Live()[..i] + Kept(Live()[i..], e, now, window)
        invariant KeptBest(BestOf(Live(), recBest), e, now, window) == b
        invariant 0 <= recBest < i ==> Stays(e, now, window, Live()[recBest])
        decreases recNum - i
      {
        KeptStep(Live(), i, e, now, window);
        BestStep(Live(), recBest, i, e, holdsEbest, other, now, window);
        var removed := AgeOne(i, holdsEbest, other, now, window);
        if !removed {
          i := i + 1;
        }
      }
      KeptAll(Live(), i, e, now, window);
    }

    /** bmc_flush_erbest */
    method FlushErbest()
      requires Valid()
      modifies this, frgn
      ensures Valid() && recBest == -1
      ensures Live() == if old(recBest) == -1 then old(Live()) else WithoutIndex(old(Live()), old(recBest))
    {
      if recBest != -1 && recBest < recNum {
        Remove(recBest);
      }
      recBest := -1;
    }

    // ----- selection

    /** memset of the table */
    method Clear()
      requires Valid()
      modifies frgn, this`recNum
      ensures frgn.Length == capacity + 1 && recNum == 0
    {
      for i := 0 to capacity {
        frgn[i] := EMPTY;
      }
      recNum := 0;
    }

    /** The scan for the best record, qualification included. */
    method FindBest(e: Ebest) returns (best: int)
      requires Valid() && recNum > 0
      ensures 0 <= best < recNum
      ensures Ordered(Live()) ==> forall i :: 0 <= i < recNum ==> Rank(e, frgn[best]) <= Rank(e, frgn[i])
    {
      hide DatasetCmp, Rank;
      best := 0;
      for j := 1 to recNum
        invariant 0 <= best < j
        invariant Ordered(Live()) ==> forall i :: 0 <= i < j ==> Rank(e, frgn[best]) <= Rank(e, frgn[i])
      {
        if Ordered(Live()) {
          assert Live()[j] == frgn[j] && Live()[best] == frgn[best];
          DatasetCmpIsRankOrder(e, frgn[j], frgn[best]);
        }
        if DatasetCmp(e, frgn[j], frgn[best]) < 0 {
          best := j;
        }
      }
    }

    /** bmc_update_erbest_inst: no record in the table is better than the one chosen, and one
        is chosen exactly if some record is qualified. usable tells that the port is neither
        FAULTY nor DISABLED. */
    method UpdateErbest(linkUp: bool, usable: bool, e: Ebest)
      requires Valid()
      modifies this, frgn
      ensures Valid()
      ensures Live() == if linkUp && usable then old(Live()) else []
      ensures recBest >= 0 ==> Qualified(e, Live()[recBest])
      ensures Ordered(Live()) ==> IsErbest(Live(), recBest, e)
    {
      hide DatasetCmp, FullRank;
      if !linkUp && recNum > 0 {
        Clear();
      }
      var best := -1;
      if recNum > 0 {
        if usable {
          best := FindBest(e);
          if Ordered(Live()) {
            BestIsErbest(Live(), best, e);
          }
          if !Qualified(e, frgn[best]) {
            best := -1;
          }
        } else {
          recBest := -1;
          Clear();
        }
      }
      recBest := best;
    }

    // ----- insertion

    method FindSource(source: PortId) returns (k: int)
      requires Valid()
      ensures k == -1 ==> forall i :: 0 <= i < recNum ==> frgn[i].source != source
      ensures k != -1 ==> 0 <= k < recNum && frgn[k].source == source
    {
      for i := 0 to recNum
        invariant forall j :: 0 <= j < i ==> frgn[j].source != source
      {
        if PidCmp(source, frgn[i].source) == 0 {
          return i;
        }
      }
      k := -1;
    }

    /** The scan for the record to replace, every record taken as qualified. */
    method FindWorst(e: Ebest) returns (worst: nat)
      requires Valid() && recNum > 0
      ensures worst < recNum
      ensures Ordered(Live()) ==> forall i :: 0 <= i < recNum ==> FullRank(frgn[i]) <= FullRank(frgn[worst])
    {
      hide DatasetCmp, FullRank;
      worst := 0;
      for i := 1 to recNum
        invariant 0 <= worst < i
        invariant Ordered(Live()) ==> forall j :: 0 <= j < i ==> FullRank(frgn[j]) <= FullRank(frgn[worst])
      {
        if Ordered(Live()) {
          assert Live()[i] == frgn[i] && Live()[worst] == frgn[worst];
          QualifiedOrder(e, frgn[i], frgn[worst]);
        }
        if DatasetCmp(e, frgn[i].(qualified := true), frgn[worst].(qualified := true)) > 0 {
          worst := i;
        }
      }
    }

    /** A record for a source not yet in the table. */
    method InsertNew(fm: Record, e: Ebest, now: int) returns (sel: int)
      requires Valid() && Distinct(Live() + [fm])
      modifies this, frgn
      ensures Valid() && -1 <= sel < recNum
      // a free slot is taken ...
      ensures old(recNum) < capacity ==> sel == old(recNum) && Live() == old(Live()) + [Fresh(fm, now)]
      // ... a full table drops its worst, or the newcomer
      ensures old(recNum) == capacity ==> recNum == capacity
      ensures old(recNum) == capacity && sel == -1 ==> Live() == old(Live())
      ensures old(recNum) == capacity && sel != -1 ==> Live() == old(Live())[sel := Fresh(fm, now)]
      ensures old(recNum) == capacity && Ordered(old(Live()) + [fm]) ==> KeepsBest(old(Live()), fm, sel)
    {
      hide DatasetCmp, FullRank, Distinct;
      if recNum < capacity {
        sel := recNum;
        recNum := recNum + 1;
        frgn[sel] := Fresh(fm, now);
        assert Live() == old(Live()) + [Fresh(fm, now)];
      } else {
        var worst := FindWorst(e);
        var cmpres := DatasetCmp(e, frgn[worst].(qualified := true), fm.(qualified := true));
        if Ordered(Live() + [fm]) {
          WorstDecides(Live(), fm, e, worst);
        }
        if cmpres < 0 {
          return -1;
        }
        sel := worst;
        frgn[sel] := Fresh(fm, now);
        assert Live() == old(Live())[sel := Fresh(fm, now)];
      }
    }

    /** bmc_add_frgn_master without external port configuration. own is this port's identity,
        betterPort tells that the announce came from a better port of this clock. */
    method Add(fm: Record, own: PortId, numberPorts: nat, e: Ebest, now: int, window: int)
      returns (sel: int, betterPort: bool)
      requires Valid() && Distinct(Live())
      modifies this, frgn
      ensures Valid() && Distinct(Live()) && recNum <= capacity
      ensures betterPort <==> numberPorts > 1 && fm.source.clock == own.clock && fm.source.port < own.port
      ensures Refused(fm, own, numberPorts) ==> sel == -1 && Live() == old(Live())
      ensures !NewSource(old(Live()), fm) && !Refused(fm, own, numberPorts) ==>
                sel == -1 && Renews(old(Live()), Live(), fm, now, window)
      ensures NewSource(old(Live()), fm) && !Refused(fm, own, numberPorts) ==>
                Inserts(old(Live()), Live(), capacity, fm, sel, now)
    {
      sel, betterPort := -1, false;
      if numberPorts > 1 {
        if IdCmp(fm.source.clock, own.clock) == 0 {
          var cmpres := PidCmp(fm.source, own);
          if cmpres < 0 {
            betterPort := true;
          } else {
            return;
          }
        }
      } else if IdCmp(fm.source.clock, own.clock) == 0 {
        return;
      }
      if fm.stepsRemoved >= 255 {
        return;
      }
      var known := FindSource(fm.source);
      if known != -1 {
        assert Live()[known] == frgn[known];
        RenewedOnTime(fm, frgn[known], now, window);
        hide Renewed, RenewedInTime;
        frgn[known] := Renewed(fm, frgn[known], now, window);
        assert Live() == old(Live())[known := Renewed(fm, old(Live())[known], now, window)];
        return;
      }
      assert forall i :: 0 <= i < recNum ==> Live()[i] == frgn[i];
      sel := InsertNew(fm, e, now);
    }
  }

  predicate Refused(fm: Record, own: PortId, numberPorts: nat) {
    || (fm.source.clock == own.clock && (numberPorts <= 1 || own.port <= fm.source.port))
    || fm.stepsRemoved >= 255
  }

  predicate NewSource(s: seq<Record>, fm: Record) {
    forall i :: 0 <= i < |s| ==> s[i].source != fm.source
  }

  /** The record of fm's source is renewed and no other changes. */
  ghost predicate Renews(s: seq<Record>, s': seq<Record>, fm: Record, now: int, window: int) {
    exists k :: && 0 <= k < |s| && s[k].source == fm.source && s' == s[k := Renewed(fm, s[k], now, window)]
                && RenewedInTime(fm, s[k], s'[k], now, window)
  }

  /** The announce is stored as it came. With the number after the last one's it is timed: the
      record is qualified if no more than the window has passed since the last timed one. With
      any other number it leaves qualification and time as they were. */
  ghost predicate RenewedInTime(fm: Record, known: Record, r: Record, now: int, window: int) {
    && fm == r.(qualified := fm.qualified, lastAnnounceMs := fm.lastAnnounceMs)
    && (if fm.sequenceId == known.sequenceId + 1
        then r.lastAnnounceMs == now
             && (Near(now, known.lastAnnounceMs + window) ==> (r.qualified <==> now - known.lastAnnounceMs <= window))
        else r.qualified == known.qualified && r.lastAnnounceMs == known.lastAnnounceMs)
  }

  lemma RenewedOnTime(fm: Record, known: Record, now: int, window: int)
    ensures RenewedInTime(fm, known, Renewed(fm, known, now, window), now, window)
  {
    AfterExactly(now, known.lastAnnounceMs + window);
  }

  /** fm joins a table with a free slot; a full one keeps the best of its records and fm. */
  ghost predicate Inserts(s: seq<Record>, s': seq<Record>, capacity: nat, fm: Record, sel: int, now: int) {
    && (|s| < capacity ==> sel == |s| && s' == s + [Fresh(fm, now)])
    && (|s| == capacity ==> -1 <= sel < |s| && s' == (if sel == -1 then s else s[sel := Fresh(fm, now)]))
    && (|s| == capacity && Ordered(s + [fm]) ==> KeepsBest(s, fm, sel))
  }

  function Fresh(fm: Record, now: int): (r: Record)
  {
    fm.(qualified := false, lastAnnounceMs := now)
  }

  /** An announce from a known source: consecutive sequence numbers, the sum taken in int and
      so never wrapping, set the qualification by the time since the last one. */
  function Renewed(fm: Record, known: Record, now: int, window: int): (r: Record)
  {
    if fm.sequenceId == known.sequenceId + 1 then
      fm.(qualified := !TimeAfter(now, known.lastAnnounceMs + window), lastAnnounceMs := now)
    else
      fm.(qualified := known.qualified, lastAnnounceMs := known.lastAnnounceMs)
  }

  // ----- the announces of one source

  /** An announce that is timed: the first, or one with the number after its predecessor's. */
  predicate Timed(fms: seq<Record>, k: nat)
    requires k < |fms|
  {
    k == 0 || fms[k].sequenceId == fms[k - 1].sequenceId + 1
  }

  function LastTimed(fms: seq<Record>, n: nat): (k: nat)
    requires n < |fms|
    ensures k <= n && Timed(fms, k) && forall j :: k < j <= n ==> !Timed(fms, j)
  {
    if Timed(fms, n) then n else LastTimed(fms, n - 1)
  }

  /** The record of a source after its announces 0 to n, received at the given times. */
  function History(fms: seq<Record>, times: seq<int>, window: int, n: nat): (r: Record)
    requires n < |fms| == |times|
  {
    if n == 0 then Fresh(fms[0], times[0])
    else Renewed(fms[n], History(fms, times, window, n - 1), times[n], window)
  }

  /** A source is qualified exactly if its last two timed announces came within the window; a new
      source is not, and announces with other numbers change nothing. */
  lemma {:induction false} QualifiedExactly(fms: seq<Record>, times: seq<int>, window: int, n: nat)
    requires n < |fms| == |times| && 0 < window < 0x4000_0000
    requires forall i, j :: 0 <= i < j < |times| ==> times[i] <= times[j] < times[i] + 0x4000_0000
    ensures var r, k := History(fms, times, window, n), LastTimed(fms, n);
            && r.sequenceId == fms[n].sequenceId && r.lastAnnounceMs == times[k]
            && (r.qualified <==> k > 0 && times[k] - times[LastTimed(fms, k - 1)] <= window)
  {
    if n > 0 {
      QualifiedExactly(fms, times, window, n - 1);
      RenewedOnTime(fms[n], History(fms, times, window, n - 1), times[n], window);
      hide Renewed;
    }
  }

  /** Of the full table s and a newcomer, exactly the one that ranks worst is left out. */
  ghost predicate KeepsBest(s: seq<Record>, fm: Record, sel: int) {
    && (sel == -1 ==> forall i :: 0 <= i < |s| ==> FullRank(s[i]) < FullRank(fm))
    && (sel != -1 ==> 0 <= sel < |s| && FullRank(fm) < FullRank(s[sel])
                      && forall i :: 0 <= i < |s| && i != sel ==> FullRank(s[i]) < FullRank(s[sel]))
  }

  lemma QualifiedOrder(e: Ebest, a: Record, b: Record)
    requires Coherent(a, b) && NotLooped(a) && NotLooped(b)
    ensures Sign(DatasetCmp(e, a.(qualified := true), b.(qualified := true))) == Sign(FullRank(a) - FullRank(b))
  {
    DatasetCmpIsRankOrder(e, a.(qualified := true), b.(qualified := true));
  }

  /** Comparing the newcomer with the worst record decides which of them all goes. */
  lemma WorstDecides(s: seq<Record>, fm: Record, e: Ebest, worst: nat)
    requires Distinct(s + [fm]) && Ordered(s + [fm]) && worst < |s|
    requires Ordered(s) ==> forall i :: 0 <= i < |s| ==> FullRank(s[i]) <= FullRank(s[worst])
    ensures var cmpres := DatasetCmp(e, s[worst].(qualified := true), fm.(qualified := true));
            KeepsBest(s, fm, if cmpres < 0 then -1 else worst)
  {
    hide DatasetCmp, FullRank, NotLooped, Coherent;
    var all := s + [fm];
    assert all[|s|] == fm && forall i :: 0 <= i < |s| ==> all[i] == s[i];
    QualifiedOrder(e, s[worst], fm);
    FullRankIdentifies(s[worst], fm);
    forall i | 0 <= i < |s| && i != worst
      ensures FullRank(s[i]) != FullRank(s[worst])
    {
      FullRankIdentifies(s[i], s[worst]);
    }
  }

  // ----- the best record of the whole clock

  ghost predicate AllValid(ports: seq<ForeignTable>)
    reads ports, set i | 0 <= i < |ports| :: ports[i].frgn
  {
    forall i :: 0 <= i < |ports| ==> ports[i].Valid()
  }

  /** The best records of all ports are comparable with one another. */
  ghost predicate ErbestsOrdered(ports: seq<ForeignTable>)
    reads ports, set i | 0 <= i < |ports| :: ports[i].frgn
    requires AllValid(ports)
  {
    && (forall i :: 0 <= i < |ports| && ports[i].recBest >= 0 ==> NotLooped(ports[i].Erbest()))
    && (forall i, j :: 0 <= i < |ports| && 0 <= j < |ports| && ports[i].recBest >= 0 && ports[j].recBest >= 0 ==>
          Coherent(ports[i].Erbest(), ports[j].Erbest()))
  }

  /** Of the first n ports none has a best record of smaller rank. */
  ghost predicate LeastUpTo(ports: seq<ForeignTable>, e: Ebest, best: int, n: nat)
    reads ports, set i | 0 <= i < |ports| :: ports[i].frgn
    requires AllValid(ports) && n <= |ports|
  {
    && 0 <= best < |ports| && ports[best].recBest >= 0
    && forall k :: 0 <= k < n && ports[k].recBest >= 0 ==>
         Rank(e, ports[best].Erbest()) <= Rank(e, ports[k].Erbest())
  }

  /** The next port takes over exactly if its best record compares better. */
  lemma LeastNext(ports: seq<ForeignTable>, e: Ebest, best: int, n: nat)
    requires AllValid(ports) && ErbestsOrdered(ports) && n < |ports| && LeastUpTo(ports, e, best, n)
    ensures ports[n].recBest < 0 ==> LeastUpTo(ports, e, best, n + 1)
    ensures ports[n].recBest >= 0 ==>
              LeastUpTo(ports, e, if DatasetCmp(e, ports[n].Erbest(), ports[best].Erbest()) < 0 then n else best, n + 1)
  {
    hide DatasetCmp, FullRank, Rank;
    if ports[n].recBest >= 0 {
      DatasetCmpIsRankOrder(e, ports[n].Erbest(), ports[best].Erbest());
    }
  }

  lemma LeastIsBest(ports: seq<ForeignTable>, e: Ebest, best: int)
    requires AllValid(ports) && ErbestsOrdered(ports) && LeastUpTo(ports, e, best, |ports|)
    ensures forall i :: 0 <= i < |ports| && ports[i].recBest >= 0 ==>
              DatasetCmp(e, ports[i].Erbest(), ports[best].Erbest()) >= 0
  {
    hide DatasetCmp, FullRank, Rank;
    forall i | 0 <= i < |ports| && ports[i].recBest >= 0
      ensures DatasetCmp(e, ports[i].Erbest(), ports[best].Erbest()) >= 0
    {
      DatasetCmpIsRankOrder(e, ports[i].Erbest(), ports[best].Erbest());
    }
  }

  /** bmc_update_ebest: -1 exactly if no port has a best record; no port's is better. */
  method FindEbest(ports: seq<ForeignTable>, e: Ebest) returns (best: int)
    requires AllValid(ports)
    ensures -1 <= best < |ports|
    ensures best == -1 <==> forall i :: 0 <= i < |ports| ==> ports[i].recBest == -1
    ensures best >= 0 ==> ports[best].recBest >= 0
    ensures best >= 0 && ErbestsOrdered(ports) ==>
              forall i :: 0 <= i < |ports| && ports[i].recBest >= 0 ==>
                DatasetCmp(e, ports[i].Erbest(), ports[best].Erbest()) >= 0
  {
    hide DatasetCmp, FullRank, Rank, ErbestsOrdered, LeastUpTo;
    best := -1;
    for i := 0 to |ports|
      invariant -1 <= best < i
      invariant best == -1 <==> forall k :: 0 <= k < i ==> ports[k].recBest == -1
      invariant best >= 0 ==> ports[best].recBest >= 0
      invariant best >= 0 && ErbestsOrdered(ports) ==> LeastUpTo(ports, e, best, i)
    {
      if best >= 0 && ErbestsOrdered(ports) {
        LeastNext(ports, e, best, i);
      }
      if best == -1 && ports[i].recBest != -1 {
        best := i;
        FirstIsLeast(ports, e, i);
      } else if ports[i].recBest != -1 {
        assert ports[best].Valid() && ports[i].Valid();
        if DatasetCmp(e, ports[i].Erbest(), ports[best].Erbest()) < 0 || ports[best].recNum == 0 {
          best := i;
        }
      }
    }
    if best >= 0 && ErbestsOrdered(ports) {
      LeastIsBest(ports, e, best);
    }
  }

  lemma FirstIsLeast(ports: seq<ForeignTable>, e: Ebest, i: nat)
    requires AllValid(ports) && i < |ports| && ports[i].recBest >= 0
    requires forall k :: 0 <= k < i ==> ports[k].recBest == -1
    ensures LeastUpTo(ports, e, i, i + 1)
  {
    hide Rank;
  }
}
