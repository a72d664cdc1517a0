/** Two White Rabbit ports on a link that loses, duplicates and reorders messages, and what
    holds in every run whatever the rest of PTP does at each end. */
module WrLink {
  import opened Arith
  import opened TimeArith
  import opened BmcCompare
  import opened BmcClock
  import opened WrNode

  /** What may happen at one end. A message that is received was sent some time before; it may
      come again, late or never. */
  datatype Happening =
    | RunExtension(x: WrNode.Event)
    | ChangePtp(next: PtpState, detecting: bool)
    | HearAnnounce(isWr: bool, isMaster: bool, isOn: bool, newParent: bool)
    | DetectionTimeout
    | TryBecomeSlave(detecting: bool)
    | EnterUncalibrated
    | LoseLink(holdsEbest: bool)
    | GainLink
    | InitializePort

  datatype Step = Step(atA: bool, what: Happening)

  /** Every message on the way to one end is genuine of the other. */
  ghost predicate Wire(box: set<Msg>, egress: int, ingress: int, linked: bool)
    requires Latency(egress) && Latency(ingress)
  {
    forall m :: m in box ==> Genuine(m, egress, ingress, linked)
  }

  lemma WireGrows(box: set<Msg>, egress: int, ingress: int, before: bool, after: bool)
    requires Latency(egress) && Latency(ingress) && Wire(box, egress, ingress, before) && (before ==> after)
    ensures Wire(box, egress, ingress, after)
  {
  }

  /** One end, seen with its peer. */
  ghost predicate End(n: Node, p: Node, inbox: set<Msg>)
    reads n, p
  {
    && n.Inv() && AllLatencies(p.lat) && p.lat == Swapped(n.lat)
    && Wire(inbox, p.lat.egress, p.lat.ingress, p.h.masterLinked)
    && (n.h.peerLinked ==> p.h.masterLinked)
  }

  /** A port in WR mode as a slave has a locked PLL and a master that ran LINK_ON, and on both
      sides the servo has the latencies of both ports, exactly. */
  ghost predicate Linked(n: Node, p: Node)
    reads n, p
  {
    n.wrp.wrModeOn && n.wrp.wrMode == WrSlave ==>
      && n.h.pllReported && p.h.masterLinked
      && Stored(n, n.egress, n.ingress, p.egress, p.ingress)
      && Stored(p, p.egress, p.ingress, n.egress, n.ingress)
  }

  ghost predicate Stored(n: Node, egress: int, ingress: int, peerEgress: int, peerIngress: int)
    reads n
  {
    && Value(n.se.txs) == egress && Value(n.se.rxs) == ingress
    && Value(n.se.txm) == peerEgress && Value(n.se.rxm) == peerIngress
  }

  /** The safety of the handshake follows from the two ends' invariants. */
  lemma EndsLinked(n: Node, p: Node, toN: set<Msg>, toP: set<Msg>)
    requires End(n, p, toN) && End(p, n, toP)
    ensures Linked(n, p)
  {
    hide Encoded, Value, Latency;
  }

  class Link {
    const a: Node
    const b: Node
    var toA: set<Msg>
    var toB: set<Msg>

    ghost predicate Valid()
      reads this, a, b
    {
      a != b && End(a, b, toA) && End(b, a, toB)
    }

    constructor (
      ghost l: Latencies, e: int, i: int, pe: int, pi: int,
      fallbackA: bool, fallbackB: bool, extA: ExtState, extB: ExtState)
      requires l == Latencies(e, i, pe, pi) && AllLatencies(l)
      ensures Valid() && toA == {} == toB && fresh(a) && fresh(b)
    {
      a := new Node(l, e, i, fallbackA, extA);
      b := new Node(Swapped(l), pe, pi, fallbackB, extB);
      toA, toB := {}, {};
    }
  }

  /** Something happens at n; what it sends joins the box of p. */
  method Happen(n: Node, p: Node, inbox: set<Msg>, outbox: set<Msg>, what: Happening)
    returns (box: set<Msg>, up: bool)
    requires n != p && End(n, p, inbox) && End(p, n, outbox)
    modifies n
    ensures End(n, p, inbox) && End(p, n, box) && outbox <= box
    ensures up ==> n.ptp == Slave && what.TryBecomeSlave?
    ensures up && old(n.extState) == ExtActive ==> old(n.h.linkedSinceReset)
  {
    box, up := outbox, false;
    match what
    case RunExtension(x) =>
      if x.msg.Some? && x.msg.value !in inbox {
        return;
      }
      box := RunEnd(n, p, inbox, outbox, x);
    case ChangePtp(next, detecting) =>
      if next != n.ptp && !(n.ptp == Uncalibrated && next == Slave) {
        n.StateChange(next, detecting);
        WireGrows(box, n.lat.egress, n.lat.ingress, old(n.h.masterLinked), n.h.masterLinked);
      }
    case HearAnnounce(isWr, isMaster, isOn, newParent) =>
      n.Announced(isWr, isMaster, isOn, newParent);
    case DetectionTimeout =>
      n.DisableExtension();
    case TryBecomeSlave(detecting) =>
      if n.ptp == Uncalibrated {
        up := n.ReadyForSlave();
        if up {
          n.StateChange(Slave, detecting);
        }
      }
    case EnterUncalibrated =>
      n.NewSlave();
    case LoseLink(holdsEbest) =>
      n.LinkDown(holdsEbest);
      WireGrows(box, n.lat.egress, n.lat.ingress, old(n.h.masterLinked), n.h.masterLinked);
    case GainLink =>
      n.LinkUp();
    case InitializePort =>
      if n.ptp == Initializing {
        n.Initialize();
        WireGrows(box, n.lat.egress, n.lat.ingress, old(n.h.masterLinked), n.h.masterLinked);
      }
  }

  method RunEnd(n: Node, p: Node, inbox: set<Msg>, outbox: set<Msg>, x: WrNode.Event) returns (box: set<Msg>)
    requires n != p && End(n, p, inbox) && End(p, n, outbox) && (x.msg.Some? ==> x.msg.value in inbox)
    modifies n
    ensures End(n, p, inbox) && End(p, n, box) && outbox <= box
  {
    hide PhaseInv, DeltaInv, Encoded, Value, Latency, NextPhase, Genuine;
    var sent := n.Run(x, p.h.masterLinked);
    WireGrows(outbox, n.lat.egress, n.lat.ingress, old(n.h.masterLinked), n.h.masterLinked);
    box := outbox;
    if sent.Some? {
      box := box + {sent.value};
    }
  }

  /** A port became a slave: was its extension active, and had it run LINK_ON since the last reset? */
  datatype Up = Up(active: bool, linked: bool)

  /** Every run from an empty link: a slave in WR mode is linked in the full sense, on either
      side, and with the extension active a port only ever went from UNCALIBRATED to SLAVE after
      its own LINK_ON since the last reset. */
  method Run(link: Link, steps: seq<Step>) returns (ghost ups: seq<Up>)
    requires link.Valid()
    modifies link, link.a, link.b
    ensures link.Valid()
    ensures Linked(link.a, link.b) && Linked(link.b, link.a)
    ensures forall u :: u in ups ==> (u.active ==> u.linked)
  {
    ups := [];
    var i := 0;
    while i < |steps|
      invariant link.Valid()
      invariant forall u :: u in ups ==> (u.active ==> u.linked)
    {
      ghost var up;
      if steps[i].atA {
        up := Up(link.a.extState == ExtActive, link.a.h.linkedSinceReset);
      } else {
        up := Up(link.b.extState == ExtActive, link.b.h.linkedSinceReset);
      }
      var became := OneStep(link, steps[i]);
      if became {
        ups := ups + [up];
      }
      i := i + 1;
    }
    EndsLinked(link.a, link.b, link.toA, link.toB);
    EndsLinked(link.b, link.a, link.toB, link.toA);
  }

  method OneStep(link: Link, step: Step) returns (up: bool)
    requires link.Valid()
    modifies link, link.a, link.b
    ensures link.Valid()
    ensures up && old(if step.atA then link.a.extState == ExtActive else link.b.extState == ExtActive)
            ==> old(if step.atA then link.a.h.linkedSinceReset else link.b.h.linkedSinceReset)
    ensures up ==> step.what.TryBecomeSlave?
  {
    hide End;
    var box;
    if step.atA {
      box, up := Happen(link.a, link.b, link.toA, link.toB, step.what);
      link.toB := box;
    } else {
      box, up := Happen(link.b, link.a, link.toB, link.toA, step.what);
      link.toA := box;
    }
  }

  /** A port on its way: the state it goes to next, its role, and an active extension. */
  ghost predicate Bound(n: Node, s: WrState, role: Role)
    reads n
  {
    n.Inv() && n.wrp.nextState == s && n.wrp.wrMode == role && n.extState == ExtActive && n.ptp != Initializing
  }

  /** Nothing, or one message, comes in good time. */
  function Comes(msg: Option<Msg>): (x: WrNode.Event)
  {
    WrNode.Event(msg, 60000, true, true, true)
  }

  /** Two ports, each genuine to the other. */
  ghost predicate Facing(m: Node, s: Node)
    reads m, s
  {
    m != s && AllLatencies(m.lat) && s.lat == Swapped(m.lat)
  }

  /** Enter the next state; its opening message is sent. */
  method Enter(n: Node, ghost s: WrState, ghost role: Role, msg: Option<Msg>, ghost peerHasLinked: bool)
    returns (m: Option<Msg>)
    requires Bound(n, s, role) && n.wrp.state != s && s != Idle
    requires msg.Some? ==> Genuine(msg.value, n.lat.peerEgress, n.lat.peerIngress, peerHasLinked)
    modifies n
    ensures n.wrp.state == s && n.ptp == old(n.ptp)
    ensures var t := NextPhase(s, role, true, old(n.wrp.retry), Comes(msg));
            t != Idle || s == LinkOn ==> Bound(n, t, if s == MLock then WrMaster else role)
    ensures s == LinkOn ==> n.wrp.wrModeOn && n.wrp.parentWrModeOn
    ensures old(n.h.masterLinked) ==> n.h.masterLinked
    ensures n.wrp.parentDetection == old(n.wrp.parentDetection)
    ensures m.Some? ==> Genuine(m.value, n.lat.egress, n.lat.ingress, n.h.masterLinked)
    ensures Opening(s, role).Some? ==> m.Some? && m.value.id == Opening(s, role).value
  {
    hide PhaseInv, DeltaInv, Encoded, Value, Latency, TimerTick;
    m := n.Run(Comes(msg), peerHasLinked);
  }

  /** In its state already, a port takes a message. */
  method Take(n: Node, ghost s: WrState, ghost role: Role, msg: Option<Msg>, ghost peerHasLinked: bool)
    requires Bound(n, s, role) && n.wrp.state == s && s != Idle
    requires msg.Some? ==> Genuine(msg.value, n.lat.peerEgress, n.lat.peerIngress, peerHasLinked)
    modifies n
    ensures n.wrp.state == s && n.ptp == old(n.ptp)
    ensures var t := NextPhase(s, role, false, old(n.wrp.retry), Comes(msg));
            t != Idle ==> Bound(n, t, role)
    ensures old(n.h.masterLinked) ==> n.h.masterLinked
    ensures n.wrp.parentDetection == old(n.wrp.parentDetection)
  {
    hide PhaseInv, DeltaInv, Encoded, Value, Latency, TimerTick, NextPhase;
    var _ := n.Run(Comes(msg), peerHasLinked);
  }

  /** From SLAVE_PRESENT to the master's CALIBRATE. */
  method Lock(m: Node, s: Node)
    requires Facing(m, s) && Bound(m, Idle, m.wrp.wrMode) && m.ptp == Master
    requires Bound(s, Present, WrSlave) && s.wrp.state != Present && s.ptp == Uncalibrated
    modifies m, s
    ensures Bound(m, Calibration, WrMaster) && m.wrp.state == MLock && m.ptp == Master
    ensures Bound(s, Locked, WrSlave) && s.wrp.state == Locked && s.ptp == Uncalibrated
    ensures s.wrp.parentDetection == old(s.wrp.parentDetection)
  {
    hide PhaseInv, DeltaInv, Encoded, Value, Latency, TimerTick;
    var present := Enter(s, Present, WrSlave, None, false);
    var _ := m.Run(Comes(present), s.h.masterLinked);
    var lock := Enter(m, MLock, m.wrp.wrMode, None, false);
    Take(s, Present, WrSlave, lock, m.h.masterLinked);
    ReportLock(m, s);
  }

  /** The slave's PLL locks, and LOCKED tells the master. */
  method ReportLock(m: Node, s: Node)
    requires Facing(m, s) && Bound(m, MLock, WrMaster) && m.wrp.state == MLock && m.ptp == Master
    requires Bound(s, SLock, WrSlave) && s.wrp.state == Present && s.ptp == Uncalibrated
    modifies m, s
    ensures Bound(m, Calibration, WrMaster) && m.wrp.state == MLock && m.ptp == Master
    ensures Bound(s, Locked, WrSlave) && s.wrp.state == Locked && s.ptp == Uncalibrated
    ensures s.wrp.parentDetection == old(s.wrp.parentDetection)
  {
    hide PhaseInv, DeltaInv, Encoded, Value, Latency, TimerTick;
    var _ := Enter(s, SLock, WrSlave, None, false);
    Take(s, SLock, WrSlave, None, false);
    var locked := Enter(s, Locked, WrSlave, None, false);
    Take(m, MLock, WrMaster, locked, s.h.masterLinked);
  }

  /** The master's latencies, then the slave's, cross the link. */
  method Calibrate(m: Node, s: Node)
    requires Facing(m, s) && Bound(m, Calibration, WrMaster) && m.wrp.state == MLock
    requires Bound(s, Locked, WrSlave) && s.wrp.state == Locked
    modifies m, s
    ensures Bound(m, LinkOn, WrMaster) && m.wrp.state == RespCalibReq && m.ptp == old(m.ptp)
    ensures Bound(s, Calibrated, WrSlave) && s.wrp.state == Calibrated && s.ptp == old(s.ptp)
    ensures s.wrp.parentDetection == old(s.wrp.parentDetection)
  {
    hide PhaseInv, DeltaInv, Encoded, Value, Latency, TimerTick;
    var calibrate := Enter(m, Calibration, WrMaster, None, false);
    Take(s, Locked, WrSlave, calibrate, m.h.masterLinked);
    var calibrated := Enter(m, Calibrated, WrMaster, None, false);
    var _ := Enter(s, RespCalibReq, WrSlave, calibrated, m.h.masterLinked);
    calibrate := Enter(s, Calibration, WrSlave, None, false);
    Take(m, Calibrated, WrMaster, calibrate, s.h.masterLinked);
    calibrated := Enter(s, Calibrated, WrSlave, None, false);
    var _ := Enter(m, RespCalibReq, WrMaster, calibrated, s.h.masterLinked);
  }

  /** The handshake can be completed: from a slave that has found its parent and a PTP master,
      whatever their past, a link that delivers in good time takes both to WR mode. */
  method Handshake(m: Node, s: Node)
    requires Facing(m, s) && Bound(m, Idle, m.wrp.wrMode) && m.ptp == Master
    requires Bound(s, Present, WrSlave) && s.wrp.state != Present && s.ptp == Uncalibrated
    modifies m, s
    ensures Bound(m, Idle, WrMaster) && m.wrp.wrModeOn && m.ptp == old(m.ptp)
    ensures Bound(s, Idle, WrSlave) && s.wrp.wrModeOn && s.wrp.parentWrModeOn && s.ptp == old(s.ptp)
    ensures s.wrp.parentDetection == old(s.wrp.parentDetection)
  {
    hide PhaseInv, DeltaInv, Encoded, Value, Latency, TimerTick;
    Lock(m, s);
    Calibrate(m, s);
    SwitchOn(m, s);
  }

  /** WR_MODE_ON takes both to WR mode. */
  method SwitchOn(m: Node, s: Node)
    requires Facing(m, s) && Bound(m, LinkOn, WrMaster) && m.wrp.state == RespCalibReq
    requires Bound(s, Calibrated, WrSlave) && s.wrp.state == Calibrated
    modifies m, s
    ensures Bound(m, Idle, WrMaster) && m.wrp.wrModeOn && m.ptp == old(m.ptp)
    ensures Bound(s, Idle, WrSlave) && s.wrp.wrModeOn && s.wrp.parentWrModeOn && s.ptp == old(s.ptp)
    ensures s.wrp.parentDetection == old(s.wrp.parentDetection)
  {
    hide PhaseInv, DeltaInv, Encoded, Value, Latency, TimerTick;
    var modeOn := Enter(m, LinkOn, WrMaster, None, false);
    Take(s, Calibrated, WrSlave, modeOn, m.h.masterLinked);
    var _ := Enter(s, LinkOn, WrSlave, None, false);
  }

  /** A port that lost its link after a handshake can go through it again: initialised, and told of
      a WR parent, it is bound for PRESENT as a WR slave. */
  method Relink(n: Node, holdsEbest: bool)
    requires n.Inv() && n.configured == ExtActive && n.wrp.nextState == Idle
    modifies n
    ensures Bound(n, Present, WrSlave) && n.wrp.state == Idle && n.ptp == Uncalibrated
    ensures n.wrp.parentDetection == NoDetection
  {
    hide PhaseInv, DeltaInv, Encoded, Value, Latency, TimerTick, NextPhase, Genuine, Progress;
    n.LinkDown(holdsEbest);
    n.LinkUp();
    n.Initialize();
    MeetParent(n);
  }

  method MeetParent(n: Node)
    requires n.Inv() && n.ptp == Initializing && n.extState == ExtActive && n.wrp.nextState == Idle
    modifies n
    ensures Bound(n, Present, WrSlave) && n.wrp.state == Idle && n.ptp == Uncalibrated
    ensures n.wrp.parentDetection == NoDetection
  {
    hide PhaseInv, DeltaInv, Encoded, Value, Latency, TimerTick, NextPhase, Genuine, Progress;
    n.StateChange(Listening, true);
    n.Announced(true, true, false, true);
    n.StateChange(Uncalibrated, true);
    var _ := n.Run(Comes(None), false);
  }

  /** The end of the handshake at the slave: its next run takes it to IDLE, and the port becomes SLAVE
      at the next opportunity unless another WR parent was detected meanwhile; it stays in WR mode
      unless some parent was. */
  method BecomeSlave(n: Node) returns (up: bool)
    requires Bound(n, Idle, WrSlave) && n.wrp.wrModeOn && n.wrp.parentWrModeOn && n.ptp == Uncalibrated
    modifies n
    ensures n.Inv() && up == (old(n.wrp.parentDetection) != WrParent)
    ensures n.ptp == if up then Slave else Uncalibrated
    ensures old(n.wrp.parentDetection) == NoDetection ==>
              n.wrp.wrModeOn && n.wrp.wrMode == WrSlave && n.extState == ExtActive && n.wrp.state == Idle
    ensures old(n.wrp.parentDetection) == WrParent ==> Bound(n, Present, WrSlave)
  {
    hide PhaseInv, DeltaInv, Encoded, Value, Latency, TimerTick, NextPhase, Genuine, Progress;
    var _ := n.Run(Comes(None), false);
    up := n.ReadyForSlave();
    if up {
      n.StateChange(Slave, true);
    }
  }

  /** From initialisation to SLAVE: a port that meets a WR master as its parent ends as a slave in WR
      mode, and its master in WR mode too. */
  method Establish(m: Node, s: Node)
    requires Facing(m, s) && Bound(m, Idle, m.wrp.wrMode) && m.ptp == Master
    requires s.Inv() && s.ptp == Initializing && s.extState == ExtActive && s.wrp.nextState == Idle
    modifies m, s
    ensures m.Inv() && m.ptp == Master && m.wrp.wrModeOn && m.wrp.wrMode == WrMaster && m.extState == ExtActive
    ensures s.Inv() && s.ptp == Slave && s.wrp.wrModeOn && s.wrp.wrMode == WrSlave && s.extState == ExtActive
  {
    hide PhaseInv, DeltaInv, Encoded, Value, Latency;
    MeetParent(s);
    Handshake(m, s);
    var _ := BecomeSlave(s);
  }

  /** Nobody answers: the timer is looked at with the given time left. */
  function Silence(remainingMs: nat): (x: WrNode.Event)
  {
    WrNode.Event(None, remainingMs, false, true, true)
  }

  /** The looks at a timer that runs down from more than three timeouts, each at most one timeout
      after the last. */
  ghost predicate RunsDown(s: WrState, times: seq<nat>) {
    && TimeoutMs(s) > 0 && |times| > 0 && 3 * TimeoutMs(s) < times[0] <= 4 * TimeoutMs(s)
    && forall i, j :: 0 <= i < |times| && j == i + 1 < |times| ==>
         0 < times[j] < times[i] <= times[j] + TimeoutMs(s)
  }

  /** One look in silence: a retry if one is due, the end if no time is left. */
  method Look(n: Node, s: WrState, ghost role: Role, remainingMs: nat) returns (sent: seq<MsgId>)
    requires s in {Present, MLock, Locked, Calibrated} && Bound(n, s, role) && n.wrp.state == s
    modifies n
    ensures remainingMs > 0 ==> Bound(n, s, role)
    ensures n.Inv() && n.wrp.state == s && (remainingMs == 0 ==> n.wrp.nextState == Idle && sent == [])
    ensures remainingMs > 0 ==>
              var due := TimeoutsLeft(s, remainingMs) <= old(n.wrp.retry);
              && n.wrp.retry == old(n.wrp.retry) - (if due then 1 else 0)
              && sent == if due then [Opening(s, role).value] else []
  {
    TimerExactly(s, n.wrp.retry, remainingMs);
    hide PhaseInv, DeltaInv, Encoded, Value, Latency, TimerTick, TimeoutsLeft;
    var m := n.Run(Silence(remainingMs), false);
    sent := if m.Some? then [m.value.id] else [];
  }

  /** From one look to the next at most one timeout is used up. */
  lemma NextTimeout(s: WrState, before: nat, now: nat)
    requires TimeoutMs(s) > 0 && 0 < now < before <= now + TimeoutMs(s)
    ensures TimeoutsLeft(s, before) - 1 <= TimeoutsLeft(s, now) <= TimeoutsLeft(s, before)
  {
    var t := TimeoutMs(s);
    hide TimeoutMs;
    DivAdd(now + t - 1, t);
    DivMono(before + t - 1, now + t - 1 + t, t);
    DivMono(now + t - 1, before + t - 1, t);
  }

  lemma FourLeft(s: WrState, remainingMs: nat)
    requires 3 * TimeoutMs(s) < remainingMs <= 4 * TimeoutMs(s)
    ensures TimeoutsLeft(s, remainingMs) == 4
  {
    var t := TimeoutMs(s);
    hide TimeoutMs;
    DivUnique(remainingMs + t - 1, t, 4, remainingMs - 3 * t - 1);
  }

  lemma OneLeft(s: WrState, remainingMs: nat)
    requires 0 < remainingMs <= TimeoutMs(s)
    ensures TimeoutsLeft(s, remainingMs) == 1
  {
    var t := TimeoutMs(s);
    hide TimeoutMs;
    DivUnique(remainingMs + t - 1, t, 1, remainingMs - 1);
  }

  method Repeat(n: Node, s: WrState, ghost role: Role, times: seq<nat>) returns (sent: seq<MsgId>)
    requires s in {Present, MLock, Locked, Calibrated} && RunsDown(s, times)
    requires 0 < times[|times| - 1] <= TimeoutMs(s)
    requires Bound(n, s, role) && n.wrp.state == s && n.wrp.retry == STATE_RETRY
    modifies n
    ensures n.Inv() && n.wrp.state == s && n.wrp.nextState == Idle
    ensures sent == [Opening(s, role).value, Opening(s, role).value, Opening(s, role).value]
  {
    hide PhaseInv, DeltaInv, Encoded, Value, Latency, TimeoutMs, TimeoutsLeft;
    sent := [];
    FourLeft(s, times[0]);
    OneLeft(s, times[|times| - 1]);
    ghost var id := Opening(s, role).value;
    for i := 0 to |times|
      invariant Bound(n, s, role) && n.wrp.state == s
      invariant n.wrp.retry == if i == 0 then 3 else TimeoutsLeft(s, times[i - 1]) - 1
      invariant n.wrp.retry <= 3 && sent == seq(3 - n.wrp.retry, _ => id)
    {
      if i > 0 {
        NextTimeout(s, times[i - 1], times[i]);
      }
      var more := Look(n, s, role, times[i]);
      sent := sent + more;
    }
    var _ := Look(n, s, role, 0);
  }

  /** A state that is entered and waits for its message in vain: it sends its own and repeats it three
      times, and then gives up. */
  method WaitInVain(n: Node, s: WrState, ghost role: Role, times: seq<nat>) returns (sent: seq<MsgId>)
    requires s in {Present, MLock, Locked, Calibrated} && RunsDown(s, times)
    requires 0 < times[|times| - 1] <= TimeoutMs(s)
    requires Bound(n, s, role) && n.wrp.state != s
    modifies n
    ensures n.Inv() && n.wrp.state == s && n.wrp.nextState == Idle
    ensures var id := Opening(s, role).value; sent == [id, id, id, id]
  {
    hide PhaseInv, DeltaInv, Encoded, Value, Latency, TimeoutMs, TimerTick;
    var opening := n.Run(Silence(times[|times| - 1]), false);
    var rest := Repeat(n, s, if s == MLock then WrMaster else role, times);
    sent := [opening.value.id] + rest;
  }
}
