/** The best record of the whole clock: Erbest of every port in turn, then the best of them. While
    the ports are gone through, what counts as Ebest changes once its own port has been. */
module BmcEbest {
  import opened BmcCompare
  import opened ForeignMasters

  /** A port's table as it stands: its records, and the index of Erbest. */
  datatype Table = Table(live: seq<Record>, best: int)

  ghost predicate Shaped(t: Table) {
    -1 <= t.best < |t.live|
  }

  /** All records of the clock can be compared with one another. */
  ghost predicate AllOrdered(ts: seq<Table>) {
    && (forall i, j :: 0 <= i < |ts| && 0 <= j < |ts[i].live| ==> NotLooped(ts[i].live[j]))
    && (forall i, j, k, l :: 0 <= i < |ts| && 0 <= j < |ts[i].live| && 0 <= k < |ts| && 0 <= l < |ts[k].live| ==>
          Coherent(ts[i].live[j], ts[k].live[l]))
  }

  /** The source that counts as Ebest by the table of the port that holds it. */
  function SourceOf(ts: seq<Table>, holder: int): (e: Ebest)
  {
    if 0 <= holder < |ts| && 0 <= ts[holder].best < |ts[holder].live| then
      Some(ts[holder].live[ts[holder].best].source)
    else None
  }

  /** bmc_update_erbest: the ports up to the holder of Ebest go by its old source, the others by
      the new one. */
  ghost predicate Chosen(ts: seq<Table>, holder: int, e: Ebest) {
    forall i :: 0 <= i < |ts| ==>
      Distinct(ts[i].live) && IsErbest(ts[i].live, ts[i].best, if i <= holder then e else SourceOf(ts, holder))
  }

  /** bmc_update_ebest: no port's Erbest is better. */
  ghost predicate BestOfAll(ts: seq<Table>, e: Ebest, best: int)
    requires forall i :: 0 <= i < |ts| ==> Shaped(ts[i])
  {
    && -1 <= best < |ts|
    && (best == -1 <==> forall i :: 0 <= i < |ts| ==> ts[i].best == -1)
    && (best >= 0 ==>
          && Shaped(ts[best]) && ts[best].best >= 0
          && forall i :: 0 <= i < |ts| && Shaped(ts[i]) && ts[i].best >= 0 ==>
               DatasetCmp(e, ts[i].live[ts[i].best], ts[best].live[ts[best].best]) >= 0)
  }

  /** A record that is better than Ebest. */
  ghost predicate Beats(ts: seq<Table>, e: Ebest, best: int, r: Record)
    requires (forall i :: 0 <= i < |ts| ==> Shaped(ts[i])) && BestOfAll(ts, e, best)
  {
    if best == -1 then Qualified(e, r) else DatasetCmp(e, r, ts[best].live[ts[best].best]) < 0
  }

  /** Why a record may beat Ebest: Ebest has moved on, the record is on a port before the one that
      held it, and either the record counts only by the new source, or the Erbest chosen there
      counted only by the old one. */
  predicate Overlooked(t: Table, i: int, holder: int, was: Ebest, e: Ebest, r: Record) {
    && was != e && i < holder
    && ((!r.qualified && IsEbest(e, r))
        || (0 <= t.best < |t.live| && !t.live[t.best].qualified && IsEbest(was, t.live[t.best])))
  }

  /** Ebest is the best of all records stored in the clock, but for those overlooked. */
  lemma EbestOverall(ts: seq<Table>, holder: int, e: Ebest, best: int, i: nat, j: nat)
    requires (forall k :: 0 <= k < |ts| ==> Shaped(ts[k])) && AllOrdered(ts) && Chosen(ts, holder, e)
    requires BestOfAll(ts, SourceOf(ts, holder), best) && i < |ts| && j < |ts[i].live|
    ensures OnlyOverlooked(ts, holder, e, best, i, j)
  {
    hide DatasetCmp, FullRank;
    var now := SourceOf(ts, holder);
    var t, r := ts[i], ts[i].live[j];
    var f := if i <= holder then e else now;
    assert IsErbest(t.live, t.best, f);
    if t.best >= 0 {
      var erbest := t.live[t.best];
      DatasetCmpIsRankOrder(f, r, erbest);
      if best >= 0 {
        var ebest := ts[best].live[ts[best].best];
        DatasetCmpIsRankOrder(now, erbest, ebest);
        DatasetCmpIsRankOrder(now, r, ebest);
      }
    } else if best >= 0 {
      DatasetCmpIsRankOrder(now, r, ts[best].live[ts[best].best]);
    }
  }

  /** And some are: the source of the new Ebest is heard on an earlier port too, not yet qualified
      there, and better for the port it comes in on. */
  lemma SomeOverlooked(early: Record, late: Record)
    requires !early.qualified && late.qualified && early.source == late.source && early.gmId == late.gmId
    requires early.gm == late.gm && early.stepsRemoved == late.stepsRemoved && NotLooped(early) && NotLooped(late)
    requires PidCmp(early.receive, late.receive) < 0
    ensures var ts := [Table([early], -1), Table([late], 0)];
            && AllOrdered(ts) && Chosen(ts, 1, None) && SourceOf(ts, 1) == Some(late.source)
            && (forall i :: 0 <= i < |ts| ==> Shaped(ts[i]))
            && BestOfAll(ts, Some(late.source), 1) && Beats(ts, Some(late.source), 1, early)
  {
    hide DatasetCmp, FullRank, GmCmp, TopologyCmp;
    var ts := [Table([early], -1), Table([late], 0)];
    DatasetCmpIsRankOrder(None, late, late);
    DatasetCmpIsRankOrder(Some(late.source), late, late);
    SameButForPort(early, late);
    assert ts[0].live[0] == early && ts[1].live[0] == late;
  }

  lemma SameButForPort(a: Record, b: Record)
    requires a.source == b.source && a.gmId == b.gmId && a.stepsRemoved == b.stepsRemoved
    requires PidCmp(a.receive, b.receive) < 0
    ensures DatasetCmp(Some(b.source), a, b) < 0
  {
  }

  // ----- on the tables themselves

  /** No two ports share a table. */
  ghost predicate Separate(ports: seq<ForeignTable>) {
    forall i, j :: 0 <= i < j < |ports| ==> ports[i] != ports[j] && ports[i].frgn != ports[j].frgn
  }

  function EbestNow(ports: seq<ForeignTable>, holder: int): (e: Ebest)
    reads ports, set i | 0 <= i < |ports| :: ports[i].frgn
    requires AllValid(ports)
  {
    if 0 <= holder < |ports| && ports[holder].recBest >= 0 then Some(ports[holder].Erbest().source) else None
  }

  /** The tables of all ports as values. */
  ghost predicate Views(ports: seq<ForeignTable>, ts: seq<Table>)
    reads ports, set i | 0 <= i < |ports| :: ports[i].frgn
    requires AllValid(ports)
  {
    && |ts| == |ports|
    && forall i :: 0 <= i < |ports| ==> Shaped(ts[i]) && ts[i] == Table(ports[i].Live(), ports[i].recBest)
  }

  lemma View(ports: seq<ForeignTable>) returns (ts: seq<Table>)
    requires AllValid(ports)
    ensures Views(ports, ts)
  {
    ts := [];
    for i := 0 to |ports|
      invariant |ts| == i
      invariant forall k :: 0 <= k < i ==> Shaped(ts[k]) && ts[k] == Table(ports[k].Live(), ports[k].recBest)
    {
      ts := ts + [Table(ports[i].Live(), ports[i].recBest)];
    }
  }

  lemma SameSource(ports: seq<ForeignTable>, ts: seq<Table>, holder: int)
    requires AllValid(ports) && Views(ports, ts)
    ensures EbestNow(ports, holder) == SourceOf(ts, holder)
  {
  }

  /** One port's turn; the other tables are left alone. */
  method UpdateOne(ports: seq<ForeignTable>, i: nat, linkUp: bool, usable: bool, e: Ebest, ghost ts: seq<Table>)
    returns (ghost t: Table)
    requires AllValid(ports) && Separate(ports) && Views(ports, ts) && i < |ports|
    modifies ports[i], ports[i].frgn
    ensures AllValid(ports) && Views(ports, ts[i := t])
    ensures t.live == if linkUp && usable then ts[i].live else []
    ensures Ordered(t.live) ==> IsErbest(t.live, t.best, e)
  {
    hide IsErbest, Ordered, Qualified;
    ports[i].UpdateErbest(linkUp, usable, e);
    t := Table(ports[i].Live(), ports[i].recBest);
  }

  /** Erbest of every port, each by the source that counted as Ebest when it was its turn. */
  ghost predicate Updated(was: seq<Table>, ts: seq<Table>, holder: int, linkUp: seq<bool>, usable: seq<bool>, n: nat)
    requires n <= |was| == |ts| == |linkUp| == |usable|
  {
    && (forall i :: 0 <= i < n ==> ts[i].live == if linkUp[i] && usable[i] then was[i].live else [])
    && (forall i :: n <= i < |ts| ==> ts[i] == was[i])
    && (forall i :: 0 <= i < n && Ordered(ts[i].live) ==>
          IsErbest(ts[i].live, ts[i].best, if i <= holder then SourceOf(was, holder) else SourceOf(ts, holder)))
  }

  lemma UpdatedNext(
    was: seq<Table>, ts: seq<Table>, holder: int, linkUp: seq<bool>, usable: seq<bool>, n: nat, t: Table)
    requires n < |was| == |ts| == |linkUp| == |usable| && Updated(was, ts, holder, linkUp, usable, n)
    requires t.live == if linkUp[n] && usable[n] then ts[n].live else []
    requires Ordered(t.live) ==> IsErbest(t.live, t.best, SourceOf(ts, holder))
    ensures Updated(was, ts[n := t], holder, linkUp, usable, n + 1)
  {
    hide IsErbest, Ordered;
    assert n <= holder ==> SourceOf(ts, holder) == SourceOf(was, holder);
    assert n > holder ==> SourceOf(ts[n := t], holder) == SourceOf(ts, holder);
  }

  /** bmc_update_erbest */
  method UpdateErbests(
    ports: seq<ForeignTable>, holder: int, linkUp: seq<bool>, usable: seq<bool>, ghost was: seq<Table>)
    returns (ghost ts: seq<Table>)
    requires AllValid(ports) && Separate(ports) && Views(ports, was) && |ports| == |linkUp| == |usable|
    modifies ports, set i | 0 <= i < |ports| :: ports[i].frgn
    ensures AllValid(ports) && Views(ports, ts) && Updated(was, ts, holder, linkUp, usable, |ports|)
  {
    hide Updated;
    ts := was;
    assert Updated(was, ts, holder, linkUp, usable, 0) by { NoneUpdated(was, holder, linkUp, usable); }
    for i := 0 to |ports|
      invariant AllValid(ports) && Views(ports, ts) && Updated(was, ts, holder, linkUp, usable, i)
    {
      SameSource(ports, ts, holder);
      ghost var t := UpdateOne(ports, i, linkUp[i], usable[i], EbestNow(ports, holder), ts);
      UpdatedNext(was, ts, holder, linkUp, usable, i, t);
      ts := ts[i := t];
    }
  }

  lemma NoneUpdated(was: seq<Table>, holder: int, linkUp: seq<bool>, usable: seq<bool>)
    requires |was| == |linkUp| == |usable|
    ensures Updated(was, was, holder, linkUp, usable, 0)
  {
  }

  /** Records that can be compared all over the clock can be on every port, and so can Erbests. */
  lemma OrderedEverywhere(ports: seq<ForeignTable>, ts: seq<Table>)
    requires AllValid(ports) && Views(ports, ts) && AllOrdered(ts)
    ensures ErbestsOrdered(ports)
    ensures forall i :: 0 <= i < |ports| ==> Ordered(ports[i].Live())
  {
    hide NotLooped, Coherent;
    forall i | 0 <= i < |ports| && ports[i].recBest >= 0
      ensures ports[i].Erbest() == ts[i].live[ts[i].best]
    {
    }
  }

  /** From the ports' Erbests and the best of them to all records of the clock. */
  lemma Overall(
    ports: seq<ForeignTable>, was: seq<Table>, ts: seq<Table>, holder: int,
    linkUp: seq<bool>, usable: seq<bool>, best: int)
    requires AllValid(ports) && Views(ports, ts) && AllOrdered(ts) && |was| == |ts| == |linkUp| == |usable|
    requires Updated(was, ts, holder, linkUp, usable, |ts|) && forall i :: 0 <= i < |was| ==> Distinct(was[i].live)
    requires BestOfAll(ts, SourceOf(ts, holder), best)
    ensures forall i, j :: 0 <= i < |ts| && 0 <= j < |ts[i].live| ==>
              OnlyOverlooked(ts, holder, SourceOf(was, holder), best, i, j)
  {
    hide IsErbest, Ordered, DatasetCmp, AllOrdered, BestOfAll, OnlyOverlooked;
    OrderedEverywhere(ports, ts);
    assert Chosen(ts, holder, SourceOf(was, holder));
    forall i, j | 0 <= i < |ts| && 0 <= j < |ts[i].live|
      ensures OnlyOverlooked(ts, holder, SourceOf(was, holder), best, i, j)
    {
      EbestOverall(ts, holder, SourceOf(was, holder), best, i, j);
    }
  }

  /** What FindEbest ensures, on values. */
  lemma BestOfViews(ports: seq<ForeignTable>, ts: seq<Table>, e: Ebest, best: int)
    requires AllValid(ports) && Views(ports, ts) && ErbestsOrdered(ports) && -1 <= best < |ports|
    requires best == -1 <==> forall i :: 0 <= i < |ports| ==> ports[i].recBest == -1
    requires best >= 0 ==> ports[best].recBest >= 0
    requires best >= 0 ==>
               forall i :: 0 <= i < |ports| && ports[i].recBest >= 0 ==>
                 DatasetCmp(e, ports[i].Erbest(), ports[best].Erbest()) >= 0
    ensures BestOfAll(ts, e, best)
  {
    hide DatasetCmp, ErbestsOrdered;
  }

  /** bmc_calculate_ebest from the choice of Erbest on: on every port of the clock, no stored record
      beats Ebest but one that was overlooked. was and ts are the tables before and after. */
  method CalculateEbest(
    ports: seq<ForeignTable>, holder: int, linkUp: seq<bool>, usable: seq<bool>, ghost was: seq<Table>)
    returns (best: int, ghost ts: seq<Table>)
    requires AllValid(ports) && Separate(ports) && |ports| == |linkUp| == |usable|
    requires Views(ports, was) && forall i :: 0 <= i < |was| ==> Distinct(was[i].live)
    modifies ports, set i | 0 <= i < |ports| :: ports[i].frgn
    ensures AllValid(ports) && Views(ports, ts) && -1 <= best < |ports|
    ensures Updated(was, ts, holder, linkUp, usable, |ports|)
    ensures AllOrdered(ts) ==>
              && BestOfAll(ts, SourceOf(ts, holder), best)
              && forall i, j :: 0 <= i < |ts| && 0 <= j < |ts[i].live| ==>
                   OnlyOverlooked(ts, holder, SourceOf(was, holder), best, i, j)
  {
    hide IsErbest, Ordered, DatasetCmp, AllOrdered, ErbestsOrdered, Distinct, Updated, BestOfAll, OnlyOverlooked;
    ts := UpdateErbests(ports, holder, linkUp, usable, was);
    SameSource(ports, ts, holder);
    best := FindEbest(ports, EbestNow(ports, holder));
    if AllOrdered(ts) {
      OrderedEverywhere(ports, ts);
      BestOfViews(ports, ts, SourceOf(ts, holder), best);
      Overall(ports, was, ts, holder, linkUp, usable, best);
    }
  }

  /** The record j of port i beats Ebest only if it was overlooked. */
  ghost predicate OnlyOverlooked(ts: seq<Table>, holder: int, was: Ebest, best: int, i: nat, j: nat)
    requires (forall k :: 0 <= k < |ts| ==> Shaped(ts[k])) && BestOfAll(ts, SourceOf(ts, holder), best)
    requires i < |ts| && j < |ts[i].live|
  {
    Beats(ts, SourceOf(ts, holder), best, ts[i].live[j]) ==>
      Overlooked(ts[i], i, holder, was, SourceOf(ts, holder), ts[i].live[j])
  }
}
