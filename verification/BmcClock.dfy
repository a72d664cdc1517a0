/** The state decision of bmc.c and the state machine of fsm.c over all ports of a clock,
    external port configuration off. */
module BmcClock {
  import opened BmcCompare
  import opened ForeignMasters

  datatype PtpState =
    Initializing | Faulty | Disabled | Listening | PreMaster | Master | Passive | Uncalibrated | Slave

  const SLAVE_ONLY_CLASS := 255

  /** What does not change while the clock runs. */
  datatype Config = Config(clock: ClockId, slaveOnly: bool, numberPorts: nat)

  /** decidedClass is not in the source: it is the class the clock had when the port last took
      a state decision. */
  datatype Port = Port(
    state: PtpState,
    linkUp: bool,
    bmcaExecute: bool,
    masterOnly: bool,
    live: seq<Record>,
    best: int,
    decidedClass: U8
  )

  predicate Following(s: PtpState) {
    s == Uncalibrated || s == Slave
  }

  predicate Shaped(p: Port) {
    -1 <= p.best < |p.live|
  }

  function OwnId(cfg: Config, i: nat): (p: PortId)
    requires i < 0xffff
  {
    PortId(cfg.clock, i + 1)
  }

  /** bmc_setup_local_frgn_master: the clock's own data set D0. */
  function LocalRecord(cfg: Config, gm: Gm, i: nat): (r: Record)
    requires i < 0xffff
  {
    Record(0, 0, OwnId(cfg, i), OwnId(cfg, i), gm, cfg.clock, true, 0)
  }

  /** The three ways to become master, and the passive ones, fall back to LISTENING for a
      slave-only clock class. */
  function MasterState(gm: Gm, s: PtpState): (r: PtpState)
  {
    if gm.clockClass == SLAVE_ONLY_CLASS then Listening
    else if s != Master && s != PreMaster then PreMaster
    else s
  }

  function PassiveState(gm: Gm): (r: PtpState)
  {
    if gm.clockClass == SLAVE_ONLY_CLASS then Listening else Passive
  }

  /** Label slave_s1: newParent is the comparison of the parent with Ebest's source. */
  function SlaveState(s: PtpState, newParent: bool): (r: PtpState)
  {
    if !Following(s) then Uncalibrated
    else if newParent then Uncalibrated
    else s
  }

  /** bmc_state_decision. ebest is the record that frgn_rec_best of the Ebest port points at,
      whatever it is if that port has none any more; e is the source is_ebest goes by. */
  function StateDecision(
    cfg: Config, gm: Gm, p: Port, i: nat, ebestIdx: int, ebest: Record, e: Ebest, newParent: bool): (r: PtpState)
    requires Shaped(p) && i < 0xffff
  {
    var erbestValid := p.best != -1;
    var erbest := if erbestValid then p.live[p.best] else EMPTY;
    if p.state == Faulty || p.state == Initializing then p.state
    else if cfg.slaveOnly then
      if !erbestValid then Listening
      else if i == ebestIdx then SlaveState(p.state, newParent)
      else Listening
    else if !erbestValid && p.state == Listening then Listening
    else if p.masterOnly then MasterState(gm, p.state)
    else if ebestIdx < 0 then MasterState(gm, p.state)
    else if gm.clockClass < 128 then
      var cmpres := DatasetCmp(e, LocalRecord(cfg, gm, i), erbest);
      if cmpres < 0 then MasterState(gm, p.state) else if cmpres > 0 then PassiveState(gm) else Faulty
    else
      var cmpres := DatasetCmp(e, LocalRecord(cfg, gm, i), ebest);
      if cmpres < 0 then MasterState(gm, p.state)
      else if cmpres > 0 then
        if cfg.numberPorts == 1 then SlaveState(p.state, newParent && i == ebestIdx)
        else if i == ebestIdx then SlaveState(p.state, newParent)
        else if GmCmp(e, ebest, erbest) < 0 then MasterState(gm, p.state)
        else
          var topology := TopologyCmp(e, ebest, erbest);
          if topology < 0 then PassiveState(gm) else if topology > 0 then MasterState(gm, p.state) else Faulty
      else Faulty
  }

  /** bmc_check_frgn_master: a better port of this clock is heard on this one. */
  predicate BetterPortHeard(cfg: Config, p: Port, i: nat)
    requires i < 0xffff
  {
    exists k :: 0 <= k < |p.live| && p.live[k].source.clock == cfg.clock && PidCmp(p.live[k].source, OwnId(cfg, i)) < 0
  }

  /** bmc_apply_state_descision */
  function ApplyDecision(
    cfg: Config, gm: Gm, p: Port, i: nat, ebestIdx: int, ebest: Record, e: Ebest, newParent: bool): (r: PtpState)
    requires Shaped(p) && i < 0xffff
  {
    if !p.linkUp then Initializing
    else if cfg.numberPorts > 1 && BetterPortHeard(cfg, p, i) then Passive
    else StateDecision(cfg, gm, p, i, ebestIdx, ebest, e, newParent)
  }

  /** Exactly when the decision is to follow a master: on the Ebest port only; by a clock that
      is slave-only, or is no grandmaster by class and finds Ebest better than itself. */
  lemma FollowsExactly(
    cfg: Config, gm: Gm, p: Port, i: nat, ebestIdx: int, ebest: Record, e: Ebest, newParent: bool)
    requires Shaped(p) && i < cfg.numberPorts < 0xffff && -1 <= ebestIdx < cfg.numberPorts
    ensures Following(ApplyDecision(cfg, gm, p, i, ebestIdx, ebest, e, newParent)) <==>
              && p.linkUp && !(cfg.numberPorts > 1 && BetterPortHeard(cfg, p, i))
              && p.state != Faulty && p.state != Initializing
              && i == ebestIdx
              && (if cfg.slaveOnly then p.best != -1
                  else (p.best != -1 || p.state != Listening) && !p.masterOnly && gm.clockClass >= 128
                       && DatasetCmp(e, LocalRecord(cfg, gm, i), ebest) > 0)
  {
    hide DatasetCmp, GmCmp, TopologyCmp;
  }

  // ----- the machine

  /** What one call of pp_state_machine may meet: the outcome of timers, of the extension's
      hooks, of sending, and what the received frame does. */
  datatype Input = Input(
    initialized: bool,
    faultExpired: bool,
    qualificationExpired: bool,
    readyForSlave: bool,
    newGrandmaster: bool,
    betterPortAnnounce: bool,
    announceExpired: bool,
    sendFailed: bool,
    extensionRestarts: bool,
    newParent: bool,
    strayEbest: Record
  )

  /** The state handlers (the f1 entries of fsm-table.c): the state each asks for. */
  function HandlerNext(cfg: Config, s: PtpState, x: Input): (r: PtpState)
  {
    match s
    case Initializing => if x.initialized then Listening else s
    case Faulty => if x.faultExpired then Initializing else s
    case Disabled => s
    case Listening => if x.sendFailed then Faulty else AnnounceNext(cfg, s, x)
    case Passive => if x.sendFailed then Faulty else AnnounceNext(cfg, s, x)
    case PreMaster =>
      if x.qualificationExpired then Master
      else if cfg.slaveOnly && !x.sendFailed then Listening
      else if x.betterPortAnnounce then Passive else s
    case Master =>
      if cfg.slaveOnly && !x.sendFailed then Listening
      else if x.betterPortAnnounce then Passive else s
    case Uncalibrated => AnnounceNext(cfg, if x.readyForSlave then Slave else s, x)
    case Slave => AnnounceNext(cfg, if x.newGrandmaster then Uncalibrated else s, x)
  }

  /** An announce from a better port of this clock, then the announce receipt timeout. */
  function AnnounceNext(cfg: Config, next: PtpState, x: Input): (r: PtpState)
  {
    if x.announceExpired then (if cfg.slaveOnly then Listening else Master)
    else if x.betterPortAnnounce then Passive
    else next
  }

  /** One port after one call of the machine. */
  function AfterCall(
    cfg: Config, gm: Gm, p: Port, i: nat, ebestIdx: int, ebest: Record, e: Ebest, x: Input): (r: Port)
    requires Shaped(p) && i < 0xffff
  {
    var handled := HandlerNext(cfg, p.state, x);
    var decided := ApplyDecision(cfg, gm, p, i, ebestIdx, ebest, e, x.newParent);
    if handled != p.state then p.(state := handled)
    else if p.bmcaExecute && decided != p.state then
      p.(state := decided, bmcaExecute := false, decidedClass := gm.clockClass)
    else
      p.(state := if x.extensionRestarts && p.state == Slave then Uncalibrated else p.state,
         bmcaExecute := false,
         decidedClass := if p.bmcaExecute then gm.clockClass else p.decidedClass)
  }

  /** No handler makes a port follow that did not. */
  lemma HandlerFollows(cfg: Config, s: PtpState, x: Input)
    ensures Following(HandlerNext(cfg, s, x)) ==> Following(s)
  {
  }

  /** What lets a port follow at the moment of decision, in a clock that is not slave-only. */
  predicate MayFollow(cfg: Config, masterOnly: bool, clockClass: U8) {
    cfg.slaveOnly || (!masterOnly && clockClass >= 128)
  }

  /** A port that follows a master after the call was told to on its last decision: either it
      followed before and nothing was decided, or the decision was just made, with the class
      the clock has now. */
  lemma AfterCallKeeps(
    cfg: Config, gm: Gm, p: Port, i: nat, ebestIdx: int, ebest: Record, e: Ebest, x: Input)
    requires Shaped(p) && i < cfg.numberPorts < 0xffff && -1 <= ebestIdx < cfg.numberPorts
    ensures var r := AfterCall(cfg, gm, p, i, ebestIdx, ebest, e, x);
            && r.masterOnly == p.masterOnly && r.live == p.live && r.best == p.best
            && (Following(r.state) ==>
                  || (Following(p.state) && r.bmcaExecute == p.bmcaExecute && r.decidedClass == p.decidedClass)
                  || (i == ebestIdx && r.decidedClass == gm.clockClass && MayFollow(cfg, p.masterOnly, gm.clockClass)))
  {
    hide DatasetCmp, ApplyDecision, HandlerNext;
    HandlerFollows(cfg, p.state, x);
    FollowsExactly(cfg, gm, p, i, ebestIdx, ebest, e, x.newParent);
  }

  /** A clock that has become a grandmaster lets go of its master as soon as the port concerned
      takes a decision. */
  lemma GrandmasterLetsGo(
    cfg: Config, gm: Gm, p: Port, i: nat, ebestIdx: int, ebest: Record, e: Ebest, x: Input)
    requires Shaped(p) && i < cfg.numberPorts < 0xffff && -1 <= ebestIdx < cfg.numberPorts
    requires !cfg.slaveOnly && gm.clockClass < 128 && p.bmcaExecute
    ensures var r := AfterCall(cfg, gm, p, i, ebestIdx, ebest, e, x);
            Following(r.state) ==> r.bmcaExecute
  {
    hide DatasetCmp, ApplyDecision, HandlerNext;
    FollowsExactly(cfg, gm, p, i, ebestIdx, ebest, e, x.newParent);
  }

  datatype Event =
    | RunMachine(port: nat, input: Input)
    | ChangeTable(port: nat, live: seq<Record>, best: int)
    | CalculateEbest(gm: Gm, tables: seq<(seq<Record>, int)>, best: int)
    | LinkUp(port: nat)
    | LinkDown(port: nat)

  class Clock {
    const cfg: Config
    var gm: Gm
    var ports: seq<Port>
    var ebestIdx: int

    /** Wherever the ports have not been told of a change of Ebest, only its port follows; and a
        port that follows was allowed to when it last took a decision. */
    ghost predicate Valid()
      reads this
    {
      && |ports| == cfg.numberPorts < 0xffff
      && -1 <= ebestIdx < |ports|
      && (forall i :: 0 <= i < |ports| ==> Shaped(ports[i]))
      && (forall i :: 0 <= i < |ports| && !ports[i].bmcaExecute && Following(ports[i].state) ==> i == ebestIdx)
      && (forall i :: 0 <= i < |ports| && Following(ports[i].state) ==>
                        MayFollow(cfg, ports[i].masterOnly, ports[i].decidedClass))
    }

    constructor (cfg: Config, gm: Gm, masterOnly: seq<bool>)
      requires |masterOnly| == cfg.numberPorts < 0xffff && cfg.numberPorts > 0
      ensures Valid() && this.cfg == cfg && this.gm == gm && ebestIdx == 0
      ensures forall i :: 0 <= i < |ports| ==>
                ports[i] == Port(Disabled, false, false, masterOnly[i], [], -1, gm.clockClass)
    {
      this.cfg, this.gm := cfg, gm;
      ports := seq(|masterOnly|, i requires 0 <= i < |masterOnly| =>
        Port(Disabled, false, false, masterOnly[i], [], -1, gm.clockClass));
      ebestIdx := 0;
    }

    function EbestRecord(stray: Record): (r: Record)
      reads this
      requires Valid()
    {
      if ebestIdx >= 0 && ports[ebestIdx].best != -1 then ports[ebestIdx].live[ports[ebestIdx].best] else stray
    }

    function EbestSource(): (e: Ebest)
      reads this
      requires Valid()
    {
      if ebestIdx >= 0 && ports[ebestIdx].best != -1 then Some(ports[ebestIdx].live[ports[ebestIdx].best].source)
      else None
    }

    /** pp_state_machine: handler, then the pending decision, then the extension; whichever
        first asks for another state ends the call. */
    method RunMachine(i: nat, x: Input)
      requires Valid() && i < |ports|
      modifies this`ports
      ensures Valid()
      ensures ports == old(ports)[i := AfterCall(cfg, gm, old(ports)[i], i, ebestIdx,
                                                 old(EbestRecord(x.strayEbest)), old(EbestSource()), x)]
    {
      hide AfterCall, ApplyDecision, HandlerNext;
      AfterCallKeeps(cfg, gm, ports[i], i, ebestIdx, EbestRecord(x.strayEbest), EbestSource(), x);
      var p := CallOne(ports[i], i, x);
      ports := ports[i := p];
    }

    method CallOne(p: Port, i: nat, x: Input) returns (r: Port)
      requires Valid() && Shaped(p) && i < |ports|
      ensures r == AfterCall(cfg, gm, p, i, ebestIdx, EbestRecord(x.strayEbest), EbestSource(), x)
    {
      hide ApplyDecision, HandlerNext, EbestRecord, EbestSource;
      r := p;
      var next := HandlerNext(cfg, p.state, x);
      if next != p.state {
        return p.(state := next);
      }
      if p.bmcaExecute {
        next := ApplyDecision(cfg, gm, p, i, ebestIdx, EbestRecord(x.strayEbest), EbestSource(), x.newParent);
        r := p.(bmcaExecute := false, decidedClass := gm.clockClass);
        if next != p.state {
          return r.(state := next);
        }
      }
      if x.extensionRestarts && p.state == Slave {
        r := r.(state := Uncalibrated);
      }
    }

    /** The foreign master table of a port changes: an announce is added, a record ages out or
        the best one is flushed. */
    method ChangeTable(i: nat, live: seq<Record>, best: int)
      requires Valid() && i < |ports| && -1 <= best < |live|
      modifies this`ports
      ensures Valid()
      ensures ports == old(ports)[i := old(ports)[i].(live := live, best := best)]
    {
      ports := ports[i := ports[i].(live := live, best := best)];
    }

    /** bmc_calculate_ebest. quality is what the update of the clock quality makes of the clock;
        tables are the ports' tables after ageing and the choice of each Erbest; best is the port
        holding the best of these, as FindEbest gives it. While a port with its link up is
        initialising only the quality and the ageing take effect. */
    method CalculateEbest(quality: Gm, tables: seq<(seq<Record>, int)>, best: int)
      requires Valid() && |tables| == |ports| && -1 <= best < |ports|
      requires forall i :: 0 <= i < |tables| ==> -1 <= tables[i].1 < |tables[i].0|
      modifies this
      ensures Valid() && gm == quality
      ensures var waiting := exists i ::
                0 <= i < |ports| && old(ports)[i].linkUp && old(ports)[i].state == Initializing;
              && ebestIdx == (if waiting then old(ebestIdx) else best)
              && |ports| == |tables|
              && forall i :: 0 <= i < |ports| ==>
                   ports[i] == old(ports)[i].(live := tables[i].0, best := tables[i].1,
                                              bmcaExecute := !waiting || old(ports)[i].bmcaExecute)
    {
      gm := quality;
      var was := ports;
      ports := seq(|was|, i requires 0 <= i < |was| => was[i].(live := tables[i].0, best := tables[i].1));
      if k :| 0 <= k < |ports| && ports[k].linkUp && ports[k].state == Initializing {
        assert was[k].linkUp && was[k].state == Initializing;
        return;
      }
      assert forall k :: 0 <= k < |was| ==> was[k].linkUp == ports[k].linkUp && was[k].state == ports[k].state;
      ebestIdx := best;
      was := ports;
      ports := seq(|was|, i requires 0 <= i < |was| => was[i].(bmcaExecute := true));
    }

    method LinkUp(i: nat)
      requires Valid() && i < |ports|
      modifies this`ports
      ensures Valid() && ports == old(ports)[i := old(ports)[i].(linkUp := true, state := Initializing)]
    {
      ports := ports[i := ports[i].(linkUp := true, state := Initializing)];
    }

    method LinkDown(i: nat)
      requires Valid() && i < |ports|
      modifies this`ports
      ensures Valid()
      ensures ports == old(ports)[i := old(ports)[i].(linkUp := false, state := Disabled, live := [], best := -1)]
    {
      ports := ports[i := ports[i].(linkUp := false, state := Disabled, live := [], best := -1)];
    }

    predicate Possible(v: Event)
      reads this
    {
      match v
      case RunMachine(i, _) => i < |ports|
      case ChangeTable(i, live, best) => i < |ports| && -1 <= best < |live|
      case CalculateEbest(_, tables, best) =>
        && |tables| == |ports| && -1 <= best < |ports|
        && forall i :: 0 <= i < |tables| ==> -1 <= tables[i].1 < |tables[i].0|
      case LinkUp(i) => i < |ports|
      case LinkDown(i) => i < |ports|
    }
  }

  /** Every run: whatever messages, timeouts, link changes, changes of Ebest and of the clock's own
      quality occur, once the ports have consumed their triggers at most one of them follows a
      master; it is no master-only port, and the clock was no grandmaster by class when the port
      took its last decision. */
  method Run(cfg: Config, initial: Gm, masterOnly: seq<bool>, events: seq<Event>)
    returns (ports: seq<Port>, ebestIdx: int, gm: Gm)
    requires |masterOnly| == cfg.numberPorts < 0xffff && cfg.numberPorts > 0
    ensures |ports| == cfg.numberPorts
    ensures forall i :: 0 <= i < |ports| && Following(ports[i].state) ==> ports[i].bmcaExecute || i == ebestIdx
    ensures (forall i :: 0 <= i < |ports| ==> !ports[i].bmcaExecute) ==>
              forall i, j :: 0 <= i < j < |ports| ==> !(Following(ports[i].state) && Following(ports[j].state))
    ensures !cfg.slaveOnly ==>
              forall i :: 0 <= i < |ports| && Following(ports[i].state) ==>
                !ports[i].masterOnly && ports[i].decidedClass >= 128
                && (gm.clockClass < 128 ==> ports[i].decidedClass != gm.clockClass)
  {
    var c := new Clock(cfg, initial, masterOnly);
    for k := 0 to |events|
      invariant c.Valid() && c.cfg == cfg
    {
      if c.Possible(events[k]) {
        match events[k]
        case RunMachine(i, x) => c.RunMachine(i, x);
        case ChangeTable(i, live, best) => c.ChangeTable(i, live, best);
        case CalculateEbest(quality, tables, best) => c.CalculateEbest(quality, tables, best);
        case LinkUp(i) => c.LinkUp(i);
        case LinkDown(i) => c.LinkDown(i);
      }
    }
    ports, ebestIdx, gm := c.ports, c.ebestIdx, c.gm;
  }

  /** Nothing happens in a call but, perhaps, that initialisation succeeds. */
  function Quiet(initialized: bool): (x: Input)
  {
    Input(initialized, false, false, false, false, false, false, false, false, false, EMPTY)
  }

  /** A clock of more than one port comes to follow a better master. */
  method FollowBetter(cfg: Config, unlocked: Gm, better: Record) returns (c: Clock)
    requires 2 <= cfg.numberPorts < 0xffff && !cfg.slaveOnly && unlocked.clockClass >= 128
    requires better.source.clock != cfg.clock
    requires DatasetCmp(Some(better.source), LocalRecord(cfg, unlocked, 0), better) > 0
    ensures fresh(c) && c.Valid() && c.cfg == cfg
    ensures Following(c.ports[0].state) && !c.ports[0].bmcaExecute && c.ports[0].decidedClass == unlocked.clockClass
  {
    hide DatasetCmp, GmCmp, TopologyCmp, StateDecision;
    var n := cfg.numberPorts;
    c := new Clock(cfg, unlocked, seq(n, _ => false));
    c.LinkUp(0);
    c.RunMachine(0, Quiet(true));
    assert c.ports[0].state == Listening;
    c.CalculateEbest(unlocked, [([better], 0)] + seq(n - 1, _ => ([], -1)), 0);
    FollowsExactly(cfg, unlocked, c.ports[0], 0, 0, better, Some(better.source), false);
    c.RunMachine(0, Quiet(false));
  }

  /** The class may change under a port that follows: the clock becomes a grandmaster while
      another port initialises. No trigger is set then, so the port goes on following. */
  method GrandmasterFollows(cfg: Config, unlocked: Gm, locked: Gm, better: Record)
    returns (ports: seq<Port>, gm: Gm)
    requires 2 <= cfg.numberPorts < 0xffff && !cfg.slaveOnly && unlocked.clockClass >= 128 > locked.clockClass
    requires better.source.clock != cfg.clock
    requires DatasetCmp(Some(better.source), LocalRecord(cfg, unlocked, 0), better) > 0
    ensures |ports| == cfg.numberPorts && Following(ports[0].state) && !ports[0].bmcaExecute
    ensures gm == locked && ports[0].decidedClass == unlocked.clockClass
  {
    hide DatasetCmp, Following;
    var c := FollowBetter(cfg, unlocked, better);
    c.LinkUp(1);
    assert c.ports[1].linkUp && c.ports[1].state == Initializing;
    c.CalculateEbest(locked, seq(|c.ports|, _ => ([better], 0)), 0);
    ports, gm := c.ports, c.gm;
  }
}
