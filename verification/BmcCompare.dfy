/** Data set comparison of the best master clock algorithm (sections 9.3.2 to 9.3.4 of
    IEEE 1588): bmc_dataset_cmp and its two parts.

    A clock identity is its eight octets read as one big-endian number, so that memcmp's
    order is the order of numbers. Negative means the first argument is the better master. */
module BmcCompare {
  datatype Option<T> = None | Some(value: T)

  type ClockId = x: int | 0 <= x < 0x1_0000_0000_0000_0000
  type U8 = x: int | 0 <= x < 0x100
  type U16 = x: int | 0 <= x < 0x1_0000

  datatype PortId = PortId(clock: ClockId, port: U16)

  datatype Gm = Gm(priority1: U8, clockClass: U8, accuracy: U8, variance: U16, priority2: U8)

  datatype Record = Record(
    sequenceId: U16,
    stepsRemoved: U16,
    receive: PortId,
    source: PortId,
    gm: Gm,
    gmId: ClockId,
    qualified: bool,
    lastAnnounceMs: int
  )

  function Sign(x: int): (s: int)
  {
    if x < 0 then -1 else if x > 0 then 1 else 0
  }

  function IdCmp(a: ClockId, b: ClockId): (r: int)
  {
    a - b
  }

  function PidCmp(a: PortId, b: PortId): (r: int)
    ensures r == 0 <==> a == b
  {
    if IdCmp(a.clock, b.clock) != 0 then IdCmp(a.clock, b.clock) else a.port - b.port
  }

  /** The source of the clock-wide best record, if there is one: that record and those of the
      same source count as qualified whatever their flag says. */
  type Ebest = Option<PortId>

  predicate IsEbest(e: Ebest, r: Record) {
    e == Some(r.source)
  }

  predicate Qualified(e: Ebest, r: Record) {
    r.qualified || IsEbest(e, r)
  }

  /** are_qualified: decided by qualification alone, or not at all. */
  function QualificationCmp(e: Ebest, a: Record, b: Record): (r: Option<int>)
  {
    if Qualified(e, a) && !Qualified(e, b) then Some(-1)
    else if Qualified(e, b) && !Qualified(e, a) then Some(1)
    else if !Qualified(e, a) && !Qualified(e, b) then Some(0)
    else None
  }

  /** bmc_gm_cmp */
  function GmCmp(e: Ebest, a: Record, b: Record): (r: int)
  {
    match QualificationCmp(e, a, b)
    case Some(v) => v
    case None =>
      if a.gm.priority1 != b.gm.priority1 then a.gm.priority1 - b.gm.priority1
      else if a.gm.clockClass != b.gm.clockClass then a.gm.clockClass - b.gm.clockClass
      else if a.gm.accuracy != b.gm.accuracy then a.gm.accuracy - b.gm.accuracy
      else if a.gm.variance != b.gm.variance then a.gm.variance - b.gm.variance
      else if a.gm.priority2 != b.gm.priority2 then a.gm.priority2 - b.gm.priority2
      else IdCmp(a.gmId, b.gmId)
  }

  /** bmc_topology_cmp; a record heard from the port that received it is an error. */
  function TopologyCmp(e: Ebest, a: Record, b: Record): (r: int)
  {
    match QualificationCmp(e, a, b)
    case Some(v) => v
    case None =>
      var diff := a.stepsRemoved - b.stepsRemoved;
      if diff > 1 || diff < -1 then diff
      else if diff > 0 then (if PidCmp(a.source, a.receive) == 0 then 0 else 1)
      else if diff < 0 then (if PidCmp(b.source, b.receive) == 0 then 0 else -1)
      else if PidCmp(a.source, b.source) != 0 then PidCmp(a.source, b.source)
      else PidCmp(a.receive, b.receive)
  }

  /** bmc_dataset_cmp */
  function DatasetCmp(e: Ebest, a: Record, b: Record): (r: int)
  {
    if IdCmp(a.gmId, b.gmId) == 0 then TopologyCmp(e, a, b) else GmCmp(e, a, b)
  }

  // ----- the order it defines

  /** Two announcements of one grandmaster agree on its attributes. */
  predicate Coherent(a: Record, b: Record) {
    a.gmId == b.gmId ==> a.gm == b.gm
  }

  /** What the packet prefilter guarantees: no port hears itself. */
  predicate NotLooped(a: Record) {
    a.source != a.receive
  }

  function PidRank(p: PortId): (n: nat)
    ensures n < TWO80
  {
    p.clock * 0x1_0000 + p.port
  }

  const TWO80: int := 0x1_0000_0000_0000_0000_0000
  const TWO96: int := 0x1_0000_0000_0000_0000_0000_0000

  function AttributeRank(g: Gm): (n: nat)
    ensures n < 0x1_0000_0000_0000
  {
    (((g.priority1 * 0x100 + g.clockClass) * 0x100 + g.accuracy) * 0x1_0000 + g.variance) * 0x100 + g.priority2
  }

  function GmRank(a: Record): (n: nat)
    ensures n < 0x1_0000_0000_0000 * 0x1_0000_0000_0000_0000
  {
    AttributeRank(a.gm) * 0x1_0000_0000_0000_0000 + a.gmId
  }

  function TopologyRank(a: Record): (n: nat)
    ensures n < TWO96 * TWO80
  {
    (a.stepsRemoved * TWO80 + PidRank(a.source)) * TWO80 + PidRank(a.receive)
  }

  /** A record's place in one numerical order: grandmaster first, then topology. */
  function FullRank(a: Record): (n: int)
    ensures n < UNQUALIFIED
  {
    GmRank(a) * (TWO96 * TWO80) + TopologyRank(a)
  }

  /** Everything that is not qualified comes last, tied. */
  function Rank(e: Ebest, a: Record): (n: int)
  {
    if Qualified(e, a) then FullRank(a) else UNQUALIFIED
  }

  const UNQUALIFIED: int := 0x1_0000_0000_0000 * 0x1_0000_0000_0000_0000 * TWO96 * TWO80

  /** Comparing (x, y) pairs by x first is comparing x*m + y. */
  lemma PairOrder(x: int, y: int, x': int, y': int, m: int)
    requires 0 <= y < m && 0 <= y' < m
    ensures Sign(x * m + y - (x' * m + y')) == if x != x' then Sign(x - x') else Sign(y - y')
  {
    if x < x' { assert (x + 1) * m <= x' * m; }
    if x > x' { assert (x' + 1) * m <= x * m; }
  }

  lemma PidOrder(a: PortId, b: PortId)
    ensures Sign(PidCmp(a, b)) == Sign(PidRank(a) - PidRank(b))
  {}

  lemma AttributeOrder(g: Gm, h: Gm)
    ensures Sign(AttributeRank(g) - AttributeRank(h)) ==
            if g.priority1 != h.priority1 then Sign(g.priority1 - h.priority1)
            else if g.clockClass != h.clockClass then Sign(g.clockClass - h.clockClass)
            else if g.accuracy != h.accuracy then Sign(g.accuracy - h.accuracy)
            else if g.variance != h.variance then Sign(g.variance - h.variance)
            else Sign(g.priority2 - h.priority2)
  {}

  lemma GmOrder(e: Ebest, a: Record, b: Record)
    requires Qualified(e, a) && Qualified(e, b)
    ensures Sign(GmCmp(e, a, b)) == Sign(GmRank(a) - GmRank(b))
  {
    hide AttributeRank;
    AttributeOrder(a.gm, b.gm);
    PairOrder(AttributeRank(a.gm), a.gmId, AttributeRank(b.gm), b.gmId, 0x1_0000_0000_0000_0000);
  }

  lemma TopologyOrder(e: Ebest, a: Record, b: Record)
    requires Qualified(e, a) && Qualified(e, b) && NotLooped(a) && NotLooped(b)
    ensures Sign(TopologyCmp(e, a, b)) == Sign(TopologyRank(a) - TopologyRank(b))
  {
    PidOrder(a.source, b.source);
    PidOrder(a.receive, b.receive);
    PairOrder(a.stepsRemoved, PidRank(a.source), b.stepsRemoved, PidRank(b.source), TWO80);
    PairOrder(a.stepsRemoved * TWO80 + PidRank(a.source), PidRank(a.receive),
              b.stepsRemoved * TWO80 + PidRank(b.source), PidRank(b.receive), TWO80);
  }

  lemma GmRankIdentifies(a: Record, b: Record)
    ensures a.gm == b.gm && a.gmId == b.gmId ==> GmRank(a) == GmRank(b)
    ensures a.gmId != b.gmId ==> GmRank(a) != GmRank(b)
  {
    hide AttributeRank;
    PairOrder(AttributeRank(a.gm), a.gmId, AttributeRank(b.gm), b.gmId, 0x1_0000_0000_0000_0000);
  }

  lemma QualifiedFirst(e: Ebest, a: Record, b: Record)
    requires !(Qualified(e, a) && Qualified(e, b))
    ensures Sign(DatasetCmp(e, a, b)) == Sign(Rank(e, a) - Rank(e, b))
  {
    hide GmRank, TopologyRank, PidCmp;
  }

  /** The comparison is the comparison of ranks: a total preorder, whatever the records. */
  lemma DatasetCmpIsRankOrder(e: Ebest, a: Record, b: Record)
    requires Coherent(a, b) && NotLooped(a) && NotLooped(b)
    ensures Sign(DatasetCmp(e, a, b)) == Sign(Rank(e, a) - Rank(e, b))
  {
    hide GmRank, TopologyRank, GmCmp, TopologyCmp, PidCmp;
    if Qualified(e, a) && Qualified(e, b) {
      PairOrder(GmRank(a), TopologyRank(a), GmRank(b), TopologyRank(b), TWO96 * TWO80);
      GmRankIdentifies(a, b);
      if a.gmId == b.gmId {
        TopologyOrder(e, a, b);
      } else {
        GmOrder(e, a, b);
      }
    } else {
      QualifiedFirst(e, a, b);
    }
  }

  /** Records of different sources have different ranks. */
  lemma FullRankIdentifies(a: Record, b: Record)
    requires a.source != b.source
    ensures FullRank(a) != FullRank(b)
  {
    PairOrder(a.stepsRemoved * TWO80 + PidRank(a.source), PidRank(a.receive),
              b.stepsRemoved * TWO80 + PidRank(b.source), PidRank(b.receive), TWO80);
    PidOrder(a.source, b.source);
    hide GmRank, PidRank;
    PairOrder(a.stepsRemoved, PidRank(a.source), b.stepsRemoved, PidRank(b.source), TWO80);
    hide TopologyRank;
    PairOrder(GmRank(a), TopologyRank(a), GmRank(b), TopologyRank(b), TWO96 * TWO80);
  }

  /** Distinct qualified records are never tied: the order is strict on them. */
  lemma StrictOnQualified(e: Ebest, a: Record, b: Record)
    requires Coherent(a, b) && NotLooped(a) && NotLooped(b) && Qualified(e, a) && Qualified(e, b)
    ensures DatasetCmp(e, a, b) == 0 <==>
              a.gmId == b.gmId && a.stepsRemoved == b.stepsRemoved && a.source == b.source && a.receive == b.receive
  {}

  // ----- what coherence is for

  predicate Cycle(e: Ebest, a: Record, b: Record, c: Record) {
    DatasetCmp(e, a, b) < 0 && DatasetCmp(e, b, c) < 0 && DatasetCmp(e, c, a) < 0
  }

  predicate Comparable(r: Record) {
    r.qualified && NotLooped(r)
  }

  /** For two announcements of one grandmaster, the first the better by topology: some third
      master makes the comparison go round in a circle exactly when the attributes they claim
      put them the other way round. */
  lemma IncoherenceCycles(e: Ebest, a: Record, b: Record)
    requires Comparable(a) && Comparable(b) && a.gmId == b.gmId && DatasetCmp(e, a, b) < 0
    ensures (exists c :: Comparable(c) && Cycle(e, a, b, c)) <==> GmRank(b) < GmRank(a)
  {
    forall c | Comparable(c) && Cycle(e, a, b, c)
      ensures GmRank(b) < GmRank(a)
    {
      NoCycleWithin(e, a, b, c);
      GmOrder(e, b, c);
      GmOrder(e, c, a);
    }
    if GmRank(b) < GmRank(a) {
      var c := Between(e, a, b);
    }
  }

  lemma NoCycleWithin(e: Ebest, a: Record, b: Record, c: Record)
    requires Comparable(a) && Comparable(b) && Comparable(c) && a.gmId == b.gmId && Cycle(e, a, b, c)
    ensures c.gmId != a.gmId
  {
    if c.gmId == a.gmId {
      TopologyOrder(e, a, b);
      TopologyOrder(e, b, c);
      TopologyOrder(e, c, a);
    }
  }

  /** A grandmaster whose identity is next to the disputed one fits in between. */
  lemma Between(e: Ebest, a: Record, b: Record) returns (c: Record)
    requires Comparable(a) && Comparable(b) && a.gmId == b.gmId && GmRank(b) < GmRank(a)
    requires DatasetCmp(e, a, b) < 0
    ensures Comparable(c) && Cycle(e, a, b, c)
  {
    c := if a.gmId > 0 then a.(gmId := a.gmId - 1) else b.(gmId := b.gmId + 1);
    Adjacent(a, b, c);
    GmOrder(e, b, c);
    GmOrder(e, c, a);
    hide GmRank, GmCmp, TopologyCmp;
  }

  lemma Adjacent(a: Record, b: Record, c: Record)
    requires a.gmId == b.gmId && GmRank(b) < GmRank(a)
    requires (c.gm == a.gm && c.gmId == a.gmId - 1) || (c.gm == b.gm && c.gmId == b.gmId + 1)
    ensures GmRank(b) < GmRank(c) < GmRank(a)
  {
    hide AttributeRank;
  }
}
