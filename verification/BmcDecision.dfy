/** What the state decision of bmc.c decides, said in the numerical order of data sets, and what
    the handlers' timers lead to. */
module BmcDecision {
  import opened BmcCompare
  import opened ForeignMasters
  import opened BmcClock

  predicate Masters(s: PtpState) {
    s == PreMaster || s == Master
  }

  /** A port told to be master qualifies first, unless it already is or does. */
  function NextMaster(s: PtpState): (r: PtpState)
  {
    if Masters(s) then s else PreMaster
  }

  /** The port's best record, or the empty one. */
  function ErbestOf(p: Port): (r: Record)
    requires Shaped(p)
  {
    if p.best != -1 then p.live[p.best] else EMPTY
  }

  /** The place of the clock's own data set D0 in the order of grandmasters. */
  function OwnRank(cfg: Config, gm: Gm): (n: nat)
  {
    AttributeRank(gm) * 0x1_0000_0000_0000_0000 + cfg.clock
  }

  /** r is a qualified record that ranks before the clock's own data set: of a better grandmaster
      or, where r announces the clock itself as grandmaster, sent at no distance by a port of smaller
      identity. */
  predicate Beats(cfg: Config, gm: Gm, i: nat, e: Ebest, r: Record)
    requires i < 0xffff
  {
    && Qualified(e, r)
    && (if r.gmId != cfg.clock then GmRank(r) < OwnRank(cfg, gm)
        else r.stepsRemoved == 0 && PidRank(r.source) < PidRank(OwnId(cfg, i)))
  }

  /** A frame that came back to the port that sent it is dropped before it gets to the table. */
  predicate NotOwn(cfg: Config, i: nat, r: Record)
    requires i < 0xffff
  {
    r.gmId == cfg.clock ==> NotLooped(r) && r.source != OwnId(cfg, i)
  }

  /** The port is running, hears no better port of its own clock, and has an Erbest unless it has
      left LISTENING. */
  predicate Decides(cfg: Config, p: Port, i: nat)
    requires i < 0xffff
  {
    && p.linkUp && !(cfg.numberPorts > 1 && BetterPortHeard(cfg, p, i))
    && p.state != Faulty && p.state != Initializing
    && !cfg.slaveOnly && (p.best != -1 || p.state != Listening)
  }

  /** A better port is one of this clock with a smaller number; port i of the array has number
      i + 1. */
  lemma BetterPortExactly(cfg: Config, p: Port, i: nat)
    requires i < 0xffff
    ensures BetterPortHeard(cfg, p, i) <==>
              exists r :: r in p.live && r.source.clock == cfg.clock && r.source.port < i + 1
  {
    if BetterPortHeard(cfg, p, i) {
      var k :| 0 <= k < |p.live| && p.live[k].source.clock == cfg.clock && PidCmp(p.live[k].source, OwnId(cfg, i)) < 0;
      assert p.live[k] in p.live;
    }
  }

  /** The order of D0 and a record. */
  lemma OwnOrder(cfg: Config, gm: Gm, i: nat, e: Ebest, r: Record)
    requires i < 0xffff && NotOwn(cfg, i, r)
    ensures Sign(DatasetCmp(e, LocalRecord(cfg, gm, i), r)) == (if Beats(cfg, gm, i, e, r) then 1 else -1)
  {
    var own := LocalRecord(cfg, gm, i);
    assert GmRank(own) == OwnRank(cfg, gm);
    if Qualified(e, r) && r.gmId != cfg.clock {
      GmRankIdentifies(own, r);
      GmOrder(e, own, r);
    } else {
      PidOrder(OwnId(cfg, i), r.source);
    }
  }

  /** A clock whose class makes it a grandmaster, with some Ebest known: a port is PASSIVE exactly
      when its own best record beats the clock, and otherwise is or becomes master. */
  lemma GrandmasterPort(
    cfg: Config, gm: Gm, p: Port, i: nat, ebestIdx: int, ebest: Record, e: Ebest, newParent: bool)
    requires Shaped(p) && i < cfg.numberPorts < 0xffff && 0 <= ebestIdx < cfg.numberPorts
    requires Decides(cfg, p, i) && !p.masterOnly && gm.clockClass < 128 && NotOwn(cfg, i, ErbestOf(p))
    ensures ApplyDecision(cfg, gm, p, i, ebestIdx, ebest, e, newParent) ==
            if Beats(cfg, gm, i, e, ErbestOf(p)) then Passive else NextMaster(p.state)
  {
    hide DatasetCmp, BetterPortHeard, Beats, LocalRecord;
    OwnOrder(cfg, gm, i, e, ErbestOf(p));
  }

  /** An ordinary clock: a port is or becomes master when Ebest does not beat the clock, and
      follows Ebest when that does and was heard on the port; a port in SLAVE stays there unless
      its parent is a new one. */
  lemma OrdinaryPort(
    cfg: Config, gm: Gm, p: Port, i: nat, ebestIdx: int, ebest: Record, e: Ebest, newParent: bool)
    requires Shaped(p) && i < cfg.numberPorts < 0xffff && 0 <= ebestIdx < cfg.numberPorts
    requires Decides(cfg, p, i) && !p.masterOnly && 128 <= gm.clockClass < SLAVE_ONLY_CLASS
    requires NotOwn(cfg, i, ebest)
    requires Beats(cfg, gm, i, e, ebest) ==> i == ebestIdx
    ensures ApplyDecision(cfg, gm, p, i, ebestIdx, ebest, e, newParent) ==
            if !Beats(cfg, gm, i, e, ebest) then NextMaster(p.state)
            else if p.state == Slave && !newParent then Slave else Uncalibrated
  {
    hide DatasetCmp, GmCmp, TopologyCmp, BetterPortHeard, Beats, LocalRecord;
    OwnOrder(cfg, gm, i, e, ebest);
  }

  /** Ebest beats the clock but was heard on another port: this one is PASSIVE exactly when it
      hears a qualified master no worse as a grandmaster than Ebest and worse placed. Equally placed,
      the two would be one record: FAULTY. */
  lemma OtherPort(
    cfg: Config, gm: Gm, p: Port, i: nat, ebestIdx: int, ebest: Record, e: Ebest, newParent: bool)
    requires Shaped(p) && i < cfg.numberPorts < 0xffff && 0 <= ebestIdx < cfg.numberPorts && i != ebestIdx
    requires Decides(cfg, p, i) && !p.masterOnly && 128 <= gm.clockClass < SLAVE_ONLY_CLASS
    requires NotOwn(cfg, i, ebest) && Beats(cfg, gm, i, e, ebest)
    requires NotLooped(ebest) && (Qualified(e, ErbestOf(p)) ==> NotLooped(ErbestOf(p)))
    ensures var r := ErbestOf(p);
            ApplyDecision(cfg, gm, p, i, ebestIdx, ebest, e, newParent) ==
            if !Qualified(e, r) || GmRank(ebest) < GmRank(r) || TopologyRank(r) < TopologyRank(ebest)
            then NextMaster(p.state)
            else if TopologyRank(ebest) < TopologyRank(r) then Passive else Faulty
  {
    OtherPortOrder(e, ebest, ErbestOf(p));
    hide DatasetCmp, GmCmp, TopologyCmp, BetterPortHeard, LocalRecord, GmRank, TopologyRank;
    OwnOrder(cfg, gm, i, e, ebest);
  }

  lemma OtherPortOrder(e: Ebest, ebest: Record, r: Record)
    requires Qualified(e, ebest) && NotLooped(ebest) && (Qualified(e, r) ==> NotLooped(r))
    ensures !Qualified(e, r) ==> GmCmp(e, ebest, r) < 0
    ensures Qualified(e, r) ==>
              && Sign(GmCmp(e, ebest, r)) == Sign(GmRank(ebest) - GmRank(r))
              && Sign(TopologyCmp(e, ebest, r)) == Sign(TopologyRank(ebest) - TopologyRank(r))
  {
    if Qualified(e, r) {
      GmOrder(e, ebest, r);
      TopologyOrder(e, ebest, r);
    }
  }

  /** With no Ebest at all, and on a master-only port whatever Ebest is, the port is or becomes
      master; a clock of the slave-only class listens instead. */
  lemma NobodyBetter(
    cfg: Config, gm: Gm, p: Port, i: nat, ebestIdx: int, ebest: Record, e: Ebest, newParent: bool)
    requires Shaped(p) && i < cfg.numberPorts < 0xffff && -1 <= ebestIdx < cfg.numberPorts
    requires Decides(cfg, p, i) && (p.masterOnly || ebestIdx == -1)
    ensures ApplyDecision(cfg, gm, p, i, ebestIdx, ebest, e, newParent) ==
            if gm.clockClass == SLAVE_ONLY_CLASS then Listening else NextMaster(p.state)
  {
    hide BetterPortHeard;
  }

  /** Ports with nothing to decide, in the order in which they are told apart. */
  lemma Undecided(
    cfg: Config, gm: Gm, p: Port, i: nat, ebestIdx: int, ebest: Record, e: Ebest, newParent: bool)
    requires Shaped(p) && i < cfg.numberPorts < 0xffff && -1 <= ebestIdx < cfg.numberPorts
    requires !Decides(cfg, p, i)
    ensures ApplyDecision(cfg, gm, p, i, ebestIdx, ebest, e, newParent) ==
            if !p.linkUp then Initializing
            else if cfg.numberPorts > 1 && BetterPortHeard(cfg, p, i) then Passive
            else if p.state == Faulty || p.state == Initializing then p.state
            else if p.best == -1 || i != ebestIdx then Listening
            else if p.state == Slave && !newParent then Slave else Uncalibrated
  {
    hide BetterPortHeard;
  }

  /** A clock of the slave-only class is never master nor passive by decision, unless a better port
      of its own is heard. */
  lemma SlaveOnlyClass(
    cfg: Config, gm: Gm, p: Port, i: nat, ebestIdx: int, ebest: Record, e: Ebest, newParent: bool)
    requires Shaped(p) && i < cfg.numberPorts < 0xffff && -1 <= ebestIdx < cfg.numberPorts
    requires Decides(cfg, p, i) && gm.clockClass == SLAVE_ONLY_CLASS
    ensures var d := ApplyDecision(cfg, gm, p, i, ebestIdx, ebest, e, newParent);
            d == Listening || d == Faulty || Following(d)
  {
    hide DatasetCmp, GmCmp, TopologyCmp, BetterPortHeard;
  }

  // ----- what a call of the machine leads to

  /** With nothing else going on a pending decision is carried out by the next call and the trigger
      consumed; only the extension may send a slave whose decision is to stay back to
      UNCALIBRATED. */
  lemma DecisionTaken(
    cfg: Config, gm: Gm, p: Port, i: nat, ebestIdx: int, ebest: Record, e: Ebest, x: Input)
    requires Shaped(p) && i < cfg.numberPorts < 0xffff && -1 <= ebestIdx < cfg.numberPorts
    requires p.bmcaExecute && !cfg.slaveOnly && x == Quiet(false).(newParent := x.newParent,
                                                                   extensionRestarts := x.extensionRestarts)
    ensures var d := ApplyDecision(cfg, gm, p, i, ebestIdx, ebest, e, x.newParent);
            AfterCall(cfg, gm, p, i, ebestIdx, ebest, e, x) ==
            p.(state := if d == p.state == Slave && x.extensionRestarts then Uncalibrated else d,
               bmcaExecute := false, decidedClass := gm.clockClass)
  {
    hide ApplyDecision;
  }

  /** With nothing pending either, the port stays as it is, and only the extension may send a slave
      back. */
  lemma NothingPending(
    cfg: Config, gm: Gm, p: Port, i: nat, ebestIdx: int, ebest: Record, e: Ebest, x: Input)
    requires Shaped(p) && i < cfg.numberPorts < 0xffff && -1 <= ebestIdx < cfg.numberPorts
    requires !p.bmcaExecute && (Masters(p.state) ==> !cfg.slaveOnly)
    requires x == Quiet(false).(newParent := x.newParent, extensionRestarts := x.extensionRestarts)
    ensures AfterCall(cfg, gm, p, i, ebestIdx, ebest, e, x) ==
            if p.state == Slave && x.extensionRestarts then p.(state := Uncalibrated) else p
  {
    hide ApplyDecision;
  }

  /** The timers and messages that move a port without a decision: each leads where the standard's
      state machine says, and leaves a pending decision pending. */
  lemma TimersLead(
    cfg: Config, gm: Gm, p: Port, i: nat, ebestIdx: int, ebest: Record, e: Ebest, x: Input, next: PtpState)
    requires Shaped(p) && i < cfg.numberPorts < 0xffff && -1 <= ebestIdx < cfg.numberPorts
    requires
      || (p.state == Initializing && x.initialized && next == Listening)
      || (p.state == Faulty && x.faultExpired && next == Initializing)
      || ((p.state == Listening || p.state == Passive) && x.sendFailed && next == Faulty)
      || ((p.state == Listening || p.state == Passive) && !x.sendFailed && x.announceExpired
          && next == (if cfg.slaveOnly then Listening else Master))
      || (Following(p.state) && x.announceExpired && next == (if cfg.slaveOnly then Listening else Master))
      || (p.state == PreMaster && x.qualificationExpired && next == Master)
      || (p.state == Uncalibrated && x.readyForSlave && !x.announceExpired && !x.betterPortAnnounce && next == Slave)
      || (p.state == Slave && x.newGrandmaster && !x.announceExpired && !x.betterPortAnnounce && next == Uncalibrated)
      || ((p.state == Listening || Following(p.state)) && !x.sendFailed && !x.announceExpired && x.betterPortAnnounce
          && next == Passive)
      || (Masters(p.state) && !cfg.slaveOnly && !x.qualificationExpired && x.betterPortAnnounce && next == Passive)
      || (Masters(p.state) && cfg.slaveOnly && !x.qualificationExpired && !x.sendFailed && next == Listening)
    requires next != p.state
    ensures AfterCall(cfg, gm, p, i, ebestIdx, ebest, e, x) == p.(state := next)
  {
    hide ApplyDecision;
  }

  /** A clock alone: after link up, initialisation and the announce receipt timeout every port is
      MASTER, and calculations of Ebest that find nobody leave it so. */
  method Alone(cfg: Config, gm: Gm, masterOnly: seq<bool>, rounds: nat) returns (ports: seq<Port>)
    requires |masterOnly| == cfg.numberPorts < 0xffff && cfg.numberPorts > 0
    requires !cfg.slaveOnly && gm.clockClass != SLAVE_ONLY_CLASS
    ensures |ports| == cfg.numberPorts
    ensures forall i :: 0 <= i < |ports| ==> ports[i].state == Master
  {
    hide AfterCall, ApplyDecision;
    var c := new Clock(cfg, gm, masterOnly);
    for i := 0 to cfg.numberPorts
      invariant c.Valid() && c.cfg == cfg && c.gm == gm
      invariant forall k :: 0 <= k < |c.ports| ==> c.ports[k].live == [] && c.ports[k].best == -1
      invariant forall k :: 0 <= k < i ==> c.ports[k].state == Master && c.ports[k].linkUp
    {
      StartUp(c, i);
    }
    for r := 0 to rounds
      invariant c.Valid() && c.cfg == cfg && c.gm == gm
      invariant forall k :: 0 <= k < |c.ports| ==> c.ports[k].state == Master && c.ports[k].linkUp
    {
      Round(c);
    }
    ports := c.ports;
  }

  method StartUp(c: Clock, i: nat)
    requires c.Valid() && i < |c.ports| && !c.cfg.slaveOnly
    modifies c`ports
    ensures c.Valid()
    ensures c.ports == old(c.ports)[i := old(c.ports)[i].(linkUp := true, state := Master)]
  {
    hide AfterCall, ApplyDecision;
    c.LinkUp(i);
    var x := Quiet(true);
    TimersLead(c.cfg, c.gm, c.ports[i], i, c.ebestIdx, c.EbestRecord(x.strayEbest), c.EbestSource(), x, Listening);
    c.RunMachine(i, x);
    x := Quiet(false).(announceExpired := true);
    TimersLead(c.cfg, c.gm, c.ports[i], i, c.ebestIdx, c.EbestRecord(x.strayEbest), c.EbestSource(), x, Master);
    c.RunMachine(i, x);
  }

  method Round(c: Clock)
    requires c.Valid() && !c.cfg.slaveOnly && c.gm.clockClass != SLAVE_ONLY_CLASS
    requires forall k :: 0 <= k < |c.ports| ==> c.ports[k].state == Master && c.ports[k].linkUp
    modifies c
    ensures c.Valid() && c.gm == old(c.gm)
    ensures forall k :: 0 <= k < |c.ports| ==> c.ports[k].state == Master && c.ports[k].linkUp
  {
    hide AfterCall, ApplyDecision;
    c.CalculateEbest(c.gm, seq(|c.ports|, _ => ([], -1)), -1);
    for i := 0 to |c.ports|
      invariant c.Valid() && c.gm == old(c.gm) && c.ebestIdx == -1
      invariant forall k :: 0 <= k < |c.ports| ==>
                  c.ports[k].state == Master && c.ports[k].linkUp && c.ports[k].live == [] && c.ports[k].best == -1
      invariant forall k :: i <= k < |c.ports| ==> c.ports[k].bmcaExecute
    {
      var x := Quiet(false);
      NobodyBetter(c.cfg, c.gm, c.ports[i], i, -1, c.EbestRecord(x.strayEbest), c.EbestSource(), false);
      DecisionTaken(c.cfg, c.gm, c.ports[i], i, -1, c.EbestRecord(x.strayEbest), c.EbestSource(), x);
      c.RunMachine(i, x);
    }
  }
}
