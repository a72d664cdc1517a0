/** One port of the White Rabbit link handshake: the state actions of proto-ext-whiterabbit,
    the hooks that reset it, and what it keeps whatever it is sent.

    The handshake is proved by rely and guarantee. A node relies on the messages it receives
    being genuine of its peer, and guarantees that those it sends are genuine of itself. */
module WrNode {
  import opened Arith
  import opened CInt
  import opened TimeArith
  import opened TimeOps
  import opened BmcCompare
  import opened BmcClock

  datatype WrState = Idle | Present | SLock | MLock | Locked | Calibration | Calibrated | RespCalibReq | LinkOn

  datatype Role = NoRole | WrMaster | WrSlave

  datatype MsgId = SLAVE_PRESENT | LOCK | LOCKED | CALIBRATE | CALIBRATED | WR_MODE_ON | OTHER

  /** The unsigned 64-bit scaled picoseconds of a latency, as two words. */
  datatype FixedDelta = FixedDelta(msb: uint32, lsb: uint32)

  /** A signaling message; the deltas are carried by CALIBRATED only. */
  datatype Msg = Msg(id: MsgId, deltaTx: FixedDelta, deltaRx: FixedDelta)

  datatype ExtState = ExtDisabled | ExtActive | ExtPtp

  datatype ParentDetection = NoDetection | WrParent | NotWrParent

  const NODELTA := FixedDelta(0, 0)

  /** WR_STATE_RETRY, and the timeouts of the states in ms. */
  const STATE_RETRY := 3

  function TimeoutMs(s: WrState): (ms: nat)
  {
    match s
    case Present => 1000
    case MLock => 15000
    case SLock => 15000
    case Locked => 300
    case Calibrated => 300
    case RespCalibReq => 300
    case _ => 0
  }

  /** A latency that is not negative and small enough to be scaled to picoseconds. */
  predicate Latency(l: int) {
    0 <= l && l * 1000 < TWO63
  }

  function Encoded(l: int): (d: FixedDelta)
    requires Latency(l)
    ensures (d.msb as int * TWO32 + d.lsb as int) / 1000 == l
  {
    FixedDelta((l * 1000 / TWO32) as uint32, (l * 1000 % TWO32) as uint32)
  }

  /** What a port may meet when its extension runs: the message received, the time left on the
      state's timer, what the PLL reports, whether sending works, and whether the extension may
      be enabled (the protocol detection state is not NONE). */
  datatype Event = Event(msg: Option<Msg>, remainingMs: nat, pllLocked: bool, sendOk: bool, detecting: bool)

  predicate Got(x: Event, id: MsgId) {
    x.msg.Some? && x.msg.value.id == id
  }

  /** What the timer calls for in a state: nothing, another try, or giving up. */
  datatype Tick = Quiet | Retry | GiveUp

  function TimerTick(s: WrState, retry: nat, remainingMs: nat): (t: Tick)
  {
    if remainingMs > retry * TimeoutMs(s) then Quiet
    else if remainingMs == 0 then GiveUp
    else if retry > 0 then Retry
    else Quiet
  }

  /** Does the state look at its timer? Not on entry, and not when a message came. */
  predicate Looks(s: WrState, entering: bool, x: Event) {
    match s
    case Idle | Calibration | LinkOn => false
    case SLock => !entering && !x.pllLocked
    case RespCalibReq => x.msg.None?
    case _ => !entering && x.msg.None?
  }

  /** The tries left after a look; entering a state allows the full number. */
  function TriesLeft(s: WrState, entering: bool, retry: nat, x: Event): (n: nat)
  {
    var tries := if entering then STATE_RETRY else retry;
    if Looks(s, entering, x) && TimerTick(s, tries, x.remainingMs) == Retry then tries - 1 else tries
  }

  /** A state that waits for a message sends its own on entry and with every retry. */
  predicate Sends(s: WrState, entering: bool, retry: nat, x: Event) {
    x.sendOk && (entering || (Looks(s, entering, x) && TimerTick(s, retry, x.remainingMs) == Retry))
  }

  /** The handshake's graph. entering tells that the state is new. */
  function NextPhase(s: WrState, role: Role, entering: bool, retry: nat, x: Event): (r: WrState)
    requires s != Idle
  {
    var tick := TimerTick(s, retry, x.remainingMs);
    match s
    case Present =>
      if entering then s else if x.msg.Some? then (if Got(x, LOCK) then SLock else s)
      else if tick == GiveUp then Idle else s
    case MLock =>
      if entering then s else if x.msg.Some? then (if Got(x, LOCKED) then Calibration else s)
      else if tick == GiveUp then Idle else s
    case SLock =>
      if entering then s else if x.pllLocked then Locked
      else if tick == GiveUp then Idle else s
    case Locked =>
      if entering then s else if x.msg.Some? then (if Got(x, CALIBRATE) then RespCalibReq else s)
      else if tick == GiveUp then Idle else s
    case Calibration => Calibrated
    case Calibrated =>
      if entering then s
      else if x.msg.Some? then
        if Got(x, CALIBRATE) && role == WrMaster then RespCalibReq
        else if Got(x, WR_MODE_ON) && role == WrSlave then LinkOn
        else s
      else if tick == GiveUp then Idle else s
    case RespCalibReq =>
      if x.msg.Some? then (if Got(x, CALIBRATED) then (if role == WrMaster then LinkOn else Calibration) else s)
      else if TimerTick(s, if entering then STATE_RETRY else retry, x.remainingMs) == GiveUp then Idle else s
    case LinkOn => if role == WrMaster && !x.sendOk then s else Idle
  }

  /** The message that takes a waiting state on, and where to. */
  function Awaits(s: WrState, role: Role): (r: Option<(MsgId, WrState)>)
  {
    match s
    case Present => Some((LOCK, SLock))
    case MLock => Some((LOCKED, Calibration))
    case Locked => Some((CALIBRATE, RespCalibReq))
    case RespCalibReq => Some((CALIBRATED, if role == WrMaster then LinkOn else Calibration))
    case Calibrated =>
      if role == WrMaster then Some((CALIBRATE, RespCalibReq))
      else if role == WrSlave then Some((WR_MODE_ON, LinkOn))
      else None
    case _ => None
  }

  /** A waiting state is left for the awaited message, however late, and given up exactly in silence
      with no time left; for S_LOCK the locked PLL counts instead of a message. */
  lemma WaitExactly(s: WrState, role: Role, retry: nat, x: Event)
    requires s in {Present, MLock, Locked, Calibrated, RespCalibReq, SLock}
    ensures var awaited := Awaits(s, role);
            var met := if s == SLock then x.pllLocked else awaited.Some? && Got(x, awaited.value.0);
            var silent := s == SLock || x.msg.None?;
            NextPhase(s, role, false, retry, x) ==
            if met then (if s == SLock then Locked else awaited.value.1)
            else if silent && x.remainingMs == 0 then Idle else s
  {
    TimerExactly(s, retry, x.remainingMs);
    hide TimerTick, TimeoutMs;
  }

  /** The schedule of the tries, by the timeouts still to come, the present one included: a try falls
      due when fewer of them are left than tries; with none left the port gives up. */
  lemma TimerExactly(s: WrState, retry: nat, remainingMs: nat)
    requires TimeoutMs(s) > 0
    ensures TimerTick(s, retry, remainingMs) ==
            if remainingMs == 0 then GiveUp else if TimeoutsLeft(s, remainingMs) <= retry then Retry else Quiet
  {
    var t, k := TimeoutMs(s), TimeoutsLeft(s, remainingMs);
    hide TimeoutMs;
    if remainingMs > 0 {
      assert (k - 1) * t < remainingMs <= k * t;
      if k <= retry {
        MulMono(k, retry, t);
      } else {
        MulMono(retry, k - 1, t);
      }
    }
  }

  function TimeoutsLeft(s: WrState, remainingMs: nat): (k: nat)
    requires TimeoutMs(s) > 0
    ensures remainingMs > 0 ==> k > 0
  {
    (remainingMs + TimeoutMs(s) - 1) / TimeoutMs(s)
  }

  predicate AfterLock(s: WrState) {
    s == Locked || s == RespCalibReq || s == Calibration || s == Calibrated || s == LinkOn
  }

  /** Egress latency, and ingress latency with the semistatic one, of a port and of its peer,
      in 2^-16 ns. */
  datatype Latencies = Latencies(egress: int, ingress: int, peerEgress: int, peerIngress: int)

  predicate AllLatencies(l: Latencies) {
    Latency(l.egress) && Latency(l.ingress) && Latency(l.peerEgress) && Latency(l.peerIngress)
  }

  function Swapped(l: Latencies): (r: Latencies)
  {
    Latencies(l.peerEgress, l.peerIngress, l.egress, l.ingress)
  }

  /** The port's wr_dsport ... */
  datatype WrPort = WrPort(
    state: WrState,
    nextState: WrState,
    wrMode: Role,
    wrModeOn: bool,
    parentWrModeOn: bool,
    parentIsWr: bool,
    parentIsMaster: bool,
    parentDetection: ParentDetection,
    retry: nat,
    deltaTx: FixedDelta,
    deltaRx: FixedDelta,
    otherDeltaTx: FixedDelta,
    otherDeltaRx: FixedDelta
  )

  /** ... and the part of its servo the handshake fills. */
  datatype ServoExt = ServoExt(txs: Time, rxs: Time, txm: Time, rxm: Time, readyForSync: bool, doRestart: bool)

  /** What has happened at a port: the PLL reported lock, and WR_MODE_ON came, since it became a
      slave; it ran LINK_ON since the last reset, or as a master at any time; it has stored its
      own latencies, and its peer's. */
  datatype History = History(
    pllReported: bool,
    peerLinked: bool,
    linkedSinceReset: bool,
    masterLinked: bool,
    ownStored: bool,
    peerStored: bool
  )

  /** How far the history has got in each role and state, and once the link is on. */
  predicate PhaseInv(role: Role, s: WrState, on: bool, h: History) {
    && (role == WrMaster ==> s !in {Present, SLock, Locked})
    && (role == WrSlave && AfterLock(s) ==> h.pllReported)
    && (role == WrSlave && s in {Calibration, Calibrated, LinkOn} ==> h.peerStored)
    && (role == WrSlave && s == LinkOn ==> h.peerLinked)
    && (role == WrMaster && s == LinkOn ==> h.peerStored)
    && (role == WrMaster && s == RespCalibReq ==> h.ownStored)
    && (s in {Calibrated, LinkOn} ==> h.ownStored)
    && (h.masterLinked ==> h.peerStored && h.ownStored)
    && (on ==> h.linkedSinceReset)
    && (on && role == WrSlave ==> h.pllReported && h.peerLinked && h.peerStored && h.ownStored)
  }

  /** What is stored is exact. */
  predicate DeltaInv(deltaTx: FixedDelta, deltaRx: FixedDelta, se: ServoExt, h: History, l: Latencies)
    requires AllLatencies(l)
  {
    && (h.ownStored ==> deltaTx == Encoded(l.egress) && deltaRx == Encoded(l.ingress)
                        && Value(se.txs) == l.egress && Value(se.rxs) == l.ingress)
    && (h.peerStored ==> Value(se.txm) == l.peerEgress && Value(se.rxm) == l.peerIngress)
  }

  /** A message that could only come from a port with these latencies; linked tells whether
      that port has completed the handshake as master. */
  predicate Genuine(m: Msg, egress: int, ingress: int, linked: bool)
    requires Latency(egress) && Latency(ingress)
  {
    && (m.id == CALIBRATED ==> m.deltaTx == Encoded(egress) && m.deltaRx == Encoded(ingress))
    && (m.id == WR_MODE_ON ==> linked)
  }

  /** wr_reset_process; a slave's parent data come with the announces. */
  function Reset(w: WrPort, role: Role): (r: WrPort)
  {
    var v := w.(wrMode := role, wrModeOn := false);
    if role == WrSlave then v else v.(parentIsMaster := false, parentIsWr := false, parentWrModeOn := false)
  }

  function ResetHistory(h: History, role: Role): (r: History)
  {
    var g := h.(linkedSinceReset := false);
    if role == WrSlave then g.(pllReported := false, peerLinked := false) else g
  }

  /** What a step may add to the history, given whether the peer has linked as master. */
  predicate Progress(before: History, after: History, peerHasLinked: bool) {
    && (before.masterLinked ==> after.masterLinked)
    && (after.peerLinked ==> before.peerLinked || peerHasLinked)
  }

  /** The message with which a state opens. */
  function Opening(s: WrState, role: Role): (r: Option<MsgId>)
  {
    match s
    case Present => Some(SLAVE_PRESENT)
    case MLock => Some(LOCK)
    case Locked => Some(LOCKED)
    case Calibration => Some(CALIBRATE)
    case Calibrated => Some(CALIBRATED)
    case LinkOn => if role == WrMaster then Some(WR_MODE_ON) else None
    case _ => None
  }

  /** IDLE on a port that is no PTP master does nothing until a parent has been detected; one
      without WR ends the extension. */
  predicate IdleKeeps(w: WrPort, v: WrPort, ext: ExtState, ext': ExtState) {
    && v.parentDetection == NoDetection
    && (w.parentDetection == NoDetection ==> v == w && ext' == ext)
    && (w.parentDetection == NotWrParent ==> ext' != ExtActive)
  }

  /** What leaving a PTP state makes of the handshake: in MASTER and SLAVE, WR mode ends. */
  function Left(w: WrPort, ptp: PtpState): (v: WrPort)
  {
    if w.wrModeOn && (ptp == Slave || ptp == Master) then Reset(w, NoRole) else w
  }

  /** What entering the next PTP state makes of it. */
  predicate AfterEntry(w: WrPort, ptp: PtpState, next: PtpState, v: WrPort) {
    match next
    case Master => v == Reset(w.(nextState := Idle), WrMaster)
    case Listening => v == Reset(w, NoRole)
    case Uncalibrated =>
      if ptp == Slave then v == if w.parentIsMaster then Reset(w.(nextState := Present), WrSlave) else w
      else if w.parentIsMaster then v == w
      else v.nextState == Idle && (!w.wrModeOn ==> !v.wrModeOn)
    case _ => v == w
  }

  /** Leaving MASTER or SLAVE in WR mode ends it, whatever comes next; what was known of the parent
      goes with it, so a slave sent back to UNCALIBRATED does not begin the handshake again. */
  lemma LeavingEnds(w: WrPort, ptp: PtpState, next: PtpState, v: WrPort)
    requires AfterEntry(Left(w, ptp), ptp, next, v) && w.wrModeOn && (ptp == Slave || ptp == Master)
    ensures !v.wrModeOn && v.nextState == if next == Master || (next == Uncalibrated && ptp == Master) then Idle
                                          else w.nextState
    ensures next != Uncalibrated || ptp == Slave ==> !v.parentIsMaster && !v.parentIsWr && !v.parentWrModeOn
  {
  }

  /** The other changes: a master is a WR master at rest and a listening port has no role; a slave
      sent back to UNCALIBRATED begins the handshake if its parent is known for a WR master, and a
      port that gets there from elsewhere goes on if it is and rests if not. */
  lemma EnteringMeans(w: WrPort, ptp: PtpState, next: PtpState, v: WrPort)
    requires AfterEntry(Left(w, ptp), ptp, next, v) && !(w.wrModeOn && (ptp == Slave || ptp == Master))
    ensures next == Master ==> v.wrMode == WrMaster && v.nextState == Idle && !v.wrModeOn && !v.parentIsMaster
    ensures next == Listening ==> v.wrMode == NoRole && v.nextState == w.nextState && !v.wrModeOn && !v.parentIsMaster
    ensures next == Uncalibrated && ptp == Slave && w.parentIsMaster ==>
              v.wrMode == WrSlave && v.nextState == Present && !v.wrModeOn && v.parentIsMaster
    ensures next == Uncalibrated && ptp != Slave && !w.parentIsMaster ==> v.nextState == Idle
    ensures next !in {Master, Listening} && !(next == Uncalibrated && w.parentIsMaster == (ptp == Slave)) ==> v == w
  {
  }

  class Node {
    const egress: int
    const ingress: int
    const ptpFallback: bool
    const configured: ExtState
    ghost const lat: Latencies
    var ptp: PtpState
    var nextPtp: PtpState
    var extState: ExtState
    var wrp: WrPort
    var se: ServoExt
    ghost var h: History

    ghost predicate Sound()
      reads this
    {
      && AllLatencies(lat) && lat.egress == egress && lat.ingress == ingress
      && PhaseInv(wrp.wrMode, wrp.nextState, wrp.wrModeOn, h)
      && DeltaInv(wrp.deltaTx, wrp.deltaRx, se, h, lat)
    }

    /** A slave only passes through M_LOCK on its way to becoming a master. */
    ghost predicate Inv()
      reads this
    {
      Sound() && (wrp.state == wrp.nextState == MLock ==> wrp.wrMode != WrSlave)
    }

    /** The rely: what is received is genuine of the peer. */
    ghost predicate Relies(x: Event, peerHasLinked: bool)
      reads this
      requires AllLatencies(lat)
    {
      x.msg.Some? ==> Genuine(x.msg.value, lat.peerEgress, lat.peerIngress, peerHasLinked)
    }

    /** The guarantee: what is sent is genuine of this port. */
    ghost predicate Guarantees(sent: Option<Msg>)
      reads this
      requires AllLatencies(lat)
    {
      sent.Some? ==> Genuine(sent.value, lat.egress, lat.ingress, h.masterLinked)
    }

    /** pdstate_disable_extension and the hook it calls */
    method DisableExtension()
      requires Inv()
      modifies this`extState, this`wrp, this`h
      ensures Inv()
      ensures extState == (if old(extState) == ExtActive then ExtPtp else old(extState))
      ensures wrp == (if old(extState) == ExtActive then Reset(old(wrp), NoRole) else old(wrp))
      ensures h == (if old(extState) == ExtActive then ResetHistory(old(h), NoRole) else old(h))
    {
      hide Encoded, Value, Latency;
      if extState == ExtActive {
        extState := ExtPtp;
        wrp := Reset(wrp, NoRole);
        h := ResetHistory(h, NoRole);
      }
    }

    /** wr_handshake_fail: try WR again, or go on in normal PTP mode. */
    method HandshakeFail()
      requires Inv()
      modifies this`extState, this`wrp, this`se, this`h
      ensures Inv() && Progress(old(h), h, false)
      ensures wrp.nextState == Idle && wrp.state == old(wrp).state
      ensures wrp.parentDetection == old(wrp).parentDetection
      ensures ptpFallback || !old(wrp).wrModeOn ==> !wrp.wrModeOn
      ensures ptpFallback ==> extState != ExtActive && wrp.wrMode == NoRole
      ensures ptpFallback ==>
                se == if old(extState) != ExtActive then old(se)
                      else old(se).(readyForSync := false, doRestart := false)
      ensures !ptpFallback ==> extState == old(extState) && se == old(se).(doRestart := true)
                               && wrp == old(wrp).(nextState := Idle)
    {
      hide Encoded, Value, Latency;
      wrp := wrp.(nextState := Idle);
      if !ptpFallback {
        se := se.(doRestart := true);
        return;
      }
      wrp := Reset(wrp, NoRole);
      h := ResetHistory(h, NoRole);
      if extState == ExtActive {
        se := se.(readyForSync := false, doRestart := false);
      }
      DisableExtension();
    }

    /** The part all waiting states share: check the remaining time, retry or fail. */
    method CheckTimer(remainingMs: nat) returns (resend: bool)
      requires Inv() && wrp.nextState == wrp.state
      modifies this`extState, this`wrp, this`se, this`h
      ensures Inv() && Progress(old(h), h, false)
      ensures wrp.state == old(wrp).state && wrp.parentDetection == old(wrp).parentDetection
      ensures var tick := TimerTick(old(wrp).state, old(wrp).retry, remainingMs);
              && wrp.nextState == (if tick == GiveUp then Idle else old(wrp).state)
              && resend == (tick == Retry)
              && (tick == Quiet ==> wrp == old(wrp))
              && (tick == Retry ==> wrp == old(wrp).(retry := old(wrp).retry - 1))
              && (tick != GiveUp ==> se == old(se) && h == old(h) && extState == old(extState))
    {
      hide Encoded, Value, Latency, TimeoutMs;
      resend := false;
      if remainingMs <= wrp.retry * TimeoutMs(wrp.state) {
        if remainingMs == 0 {
          HandshakeFail();
          return;
        }
        if wrp.retry > 0 {
          wrp := wrp.(retry := wrp.retry - 1);
          resend := true;
        }
      }
    }

    /** msg_unpack_wrsig as far as the port is concerned */
    method Unpack(m: Msg)
      requires Inv()
      modifies this`wrp
      ensures Inv()
      ensures wrp == if m.id == CALIBRATED then old(wrp).(otherDeltaTx := m.deltaTx, otherDeltaRx := m.deltaRx)
                     else old(wrp)
    {
      hide Encoded, Value, Latency;
      if m.id == CALIBRATED {
        wrp := wrp.(otherDeltaTx := m.deltaTx, otherDeltaRx := m.deltaRx);
      }
    }

    /** msg_issue_wrsig; a message that cannot be sent is not on the wire. */
    method Issue(id: MsgId, sendOk: bool) returns (sent: Option<Msg>)
      requires Inv() && (id == CALIBRATED ==> h.ownStored) && (id == WR_MODE_ON ==> h.masterLinked)
      ensures sent == if sendOk then Some(Msg(id, wrp.deltaTx, wrp.deltaRx)) else None
      ensures Guarantees(sent)
    {
      hide PhaseInv, Encoded, Value, Latency;
      sent := if sendOk then Some(Msg(id, wrp.deltaTx, wrp.deltaRx)) else None;
    }

    /** Take a message; the awaited one leads to the successor. */
    method Receive(m: Msg, awaits: MsgId, successor: WrState)
      requires Inv() && wrp.nextState == wrp.state
      requires PhaseInv(wrp.wrMode, successor, wrp.wrModeOn, h) && successor != MLock
      modifies this`wrp
      ensures Inv()
      ensures wrp.state == old(wrp).state && wrp.parentDetection == old(wrp).parentDetection
      ensures wrp.wrMode == old(wrp).wrMode && wrp.retry == old(wrp).retry
      ensures wrp.nextState == if m.id == awaits then successor else old(wrp).state
    {
      hide PhaseInv, DeltaInv, Encoded, Value, Latency;
      Unpack(m);
      if m.id == awaits {
        wrp := wrp.(nextState := successor);
      }
    }

    /** Wait for one message and go on to the state it calls for, or look at the timer. */
    method Await(x: Event, awaits: MsgId, successor: WrState) returns (resend: bool)
      requires Inv() && wrp.nextState == wrp.state
      requires PhaseInv(wrp.wrMode, successor, wrp.wrModeOn, h) && successor != MLock
      modifies this`extState, this`wrp, this`se, this`h
      ensures Inv() && Progress(old(h), h, false)
      ensures wrp.state == old(wrp).state && wrp.parentDetection == old(wrp).parentDetection
      ensures wrp.nextState != Idle ==> extState == old(extState) && wrp.wrMode == old(wrp).wrMode
      ensures wrp.nextState == (
                if x.msg.Some? then (if Got(x, awaits) then successor else old(wrp).state)
                else if TimerTick(old(wrp).state, old(wrp).retry, x.remainingMs) == GiveUp then Idle
                else old(wrp).state)
      ensures resend == (x.msg.None? && TimerTick(old(wrp).state, old(wrp).retry, x.remainingMs) == Retry)
      ensures wrp.nextState != Idle ==> wrp.retry == old(wrp).retry - (if resend then 1 else 0)
    {
      hide PhaseInv, DeltaInv, Encoded, Value, Latency, TimerTick;
      if x.msg.Some? {
        Receive(x.msg.value, awaits, successor);
        resend := false;
      } else {
        resend := CheckTimer(x.remainingMs);
      }
    }

    /** The part that wr_present, wr_m_lock and wr_locked share: send on entry and on every
        retry, and wait for a message. */
    method WaitAction(x: Event, entering: bool, sends: MsgId, awaits: MsgId, successor: WrState)
      returns (sent: Option<Msg>)
      requires Inv() && wrp.nextState == wrp.state
      requires PhaseInv(wrp.wrMode, successor, wrp.wrModeOn, h) && successor != MLock
      requires sends != CALIBRATED && sends != WR_MODE_ON && wrp.state in {Present, MLock, Locked}
      requires successor != wrp.state
      modifies this`extState, this`wrp, this`se, this`h
      ensures Inv() && Progress(old(h), h, false) && Guarantees(sent)
      ensures wrp.state == old(wrp).state && wrp.parentDetection == old(wrp).parentDetection
      ensures wrp.nextState != Idle ==> extState == old(extState) && wrp.wrMode == old(wrp).wrMode
      ensures wrp.nextState == (
                if entering then old(wrp).state
                else if x.msg.Some? then (if Got(x, awaits) then successor else old(wrp).state)
                else if TimerTick(old(wrp).state, old(wrp).retry, x.remainingMs) == GiveUp then Idle
                else old(wrp).state)
      ensures sent.Some? <==> Sends(wrp.state, entering, old(wrp).retry, x)
      ensures sent.Some? ==> sent.value.id == sends
      ensures entering ==> wrp == old(wrp).(retry := STATE_RETRY) && se == old(se)
      ensures wrp.nextState == wrp.state ==> wrp.retry == TriesLeft(wrp.state, entering, old(wrp).retry, x)
    {
      hide PhaseInv, DeltaInv, Encoded, Value, Latency, TimerTick, Genuine;
      sent := None;
      var sendmsg := true;
      if entering {
        wrp := wrp.(retry := STATE_RETRY);
      } else {
        sendmsg := Await(x, awaits, successor);
      }
      if sendmsg {
        sent := Issue(sends, x.sendOk);
      }
    }

    /** wr_present; the servo is initialised on entry. */
    method PresentAction(x: Event, entering: bool) returns (sent: Option<Msg>)
      requires Inv() && wrp.state == wrp.nextState == Present
      modifies this`extState, this`wrp, this`se, this`h
      ensures Inv() && Progress(old(h), h, false) && Guarantees(sent)
      ensures wrp.state == old(wrp).state && wrp.parentDetection == old(wrp).parentDetection
      ensures wrp.nextState != Idle ==> extState == old(extState) && wrp.wrMode == old(wrp).wrMode
      ensures wrp.nextState == NextPhase(Present, old(wrp).wrMode, entering, old(wrp).retry, x)
      ensures sent.Some? <==> Sends(Present, entering, old(wrp).retry, x)
      ensures sent.Some? ==> sent.value.id == SLAVE_PRESENT
      ensures wrp.nextState == Present ==> wrp.retry == TriesLeft(Present, entering, old(wrp).retry, x)
      ensures entering ==> !se.readyForSync && !se.doRestart
    {
      hide Encoded, Value, Latency, TimeoutMs, TimerTick;
      if entering {
        se := se.(readyForSync := false, doRestart := false);
      }
      sent := WaitAction(x, entering, SLAVE_PRESENT, LOCK, SLock);
    }

    /** wr_m_lock; entering it makes the port a WR master. */
    method MLockAction(x: Event, entering: bool) returns (sent: Option<Msg>)
      requires Sound() && wrp.state == wrp.nextState == MLock && (entering || Inv())
      modifies this`extState, this`wrp, this`se, this`h
      ensures Inv() && Progress(old(h), h, false) && Guarantees(sent)
      ensures wrp.state == old(wrp).state && wrp.parentDetection == old(wrp).parentDetection
      ensures wrp.nextState != Idle ==> extState == old(extState) && (entering || wrp.wrMode == old(wrp).wrMode)
      ensures wrp.nextState == NextPhase(MLock, old(wrp).wrMode, entering, old(wrp).retry, x)
      ensures sent.Some? <==> Sends(MLock, entering, old(wrp).retry, x)
      ensures sent.Some? ==> sent.value.id == LOCK
      ensures wrp.nextState == MLock ==> wrp.retry == TriesLeft(MLock, entering, old(wrp).retry, x)
      ensures entering ==> wrp.wrMode == WrMaster
    {
      hide Encoded, Value, Latency, TimeoutMs, TimerTick;
      if entering {
        wrp := Reset(wrp, WrMaster);
        h := ResetHistory(h, WrMaster);
      }
      sent := WaitAction(x, entering, LOCK, LOCKED, Calibration);
    }

    /** wr_s_lock: poll the PLL until it is locked. */
    method SLockAction(x: Event, entering: bool)
      requires Inv() && wrp.state == wrp.nextState == SLock
      modifies this`extState, this`wrp, this`se, this`h
      ensures Inv() && Progress(old(h), h, false)
      ensures wrp.state == old(wrp).state && wrp.parentDetection == old(wrp).parentDetection
      ensures wrp.nextState != Idle ==> extState == old(extState) && wrp.wrMode == old(wrp).wrMode
      ensures wrp.nextState == NextPhase(SLock, old(wrp).wrMode, entering, old(wrp).retry, x)
      ensures wrp.nextState == SLock ==> wrp.retry == TriesLeft(SLock, entering, old(wrp).retry, x)
    {
      hide Encoded, Value, Latency, TimeoutMs, TimerTick, DeltaInv;
      if entering {
        wrp := wrp.(retry := STATE_RETRY);
      } else if x.pllLocked {
        wrp := wrp.(nextState := Locked);
        h := h.(pllReported := true);
        PllAside(wrp.deltaTx, wrp.deltaRx, se, old(h), h, lat);
      } else {
        var _ := CheckTimer(x.remainingMs);
      }
    }

    /** wr_locked; from here on the servo may synchronise. */
    method LockedAction(x: Event, entering: bool) returns (sent: Option<Msg>)
      requires Inv() && wrp.state == wrp.nextState == Locked
      modifies this`extState, this`wrp, this`se, this`h
      ensures Inv() && Progress(old(h), h, false) && Guarantees(sent)
      ensures wrp.state == old(wrp).state && wrp.parentDetection == old(wrp).parentDetection
      ensures wrp.nextState != Idle ==> extState == old(extState) && wrp.wrMode == old(wrp).wrMode
      ensures wrp.nextState == NextPhase(Locked, old(wrp).wrMode, entering, old(wrp).retry, x)
      ensures sent.Some? <==> Sends(Locked, entering, old(wrp).retry, x)
      ensures sent.Some? ==> sent.value.id == LOCKED
      ensures wrp.nextState == Locked ==> wrp.retry == TriesLeft(Locked, entering, old(wrp).retry, x)
      ensures entering ==> se.readyForSync
    {
      hide Encoded, Value, Latency, TimeoutMs, TimerTick;
      if entering {
        se := se.(readyForSync := true);
      }
      sent := WaitAction(x, entering, LOCKED, CALIBRATE, RespCalibReq);
    }

    /** wr_calibration: publish the port's own latencies and hand them to the servo. */
    method CalibrationAction(x: Event) returns (sent: Option<Msg>)
      requires Inv() && wrp.state == wrp.nextState == Calibration
      modifies this`wrp, this`se, this`h
      ensures Inv() && Progress(old(h), h, false) && Guarantees(sent)
      ensures wrp.state == old(wrp).state && wrp.parentDetection == old(wrp).parentDetection
      ensures wrp.wrMode == old(wrp).wrMode
      ensures wrp.nextState == Calibrated && h.ownStored
      ensures x.sendOk ==> sent.Some? && sent.value.id == CALIBRATE
    {
      hide Encoded, Value, Latency;
      var tx := Encoded(egress);
      var rx := Encoded(ingress);
      var txs := FixedDeltaToTime(tx);
      var rxs := FixedDeltaToTime(rx);
      wrp := wrp.(deltaTx := tx, deltaRx := rx, nextState := Calibrated);
      se := se.(txs := txs, rxs := rxs);
      h := h.(ownStored := true);
      sent := Issue(CALIBRATE, x.sendOk);
    }

    /** The role decides which message takes CALIBRATED on. */
    method ReceiveCalibrated(m: Msg, ghost peerHasLinked: bool)
      requires Inv() && wrp.state == wrp.nextState == Calibrated
      requires Genuine(m, lat.peerEgress, lat.peerIngress, peerHasLinked)
      modifies this`wrp, this`h
      ensures Inv() && Progress(old(h), h, peerHasLinked)
      ensures wrp.state == old(wrp).state && wrp.parentDetection == old(wrp).parentDetection
      ensures wrp.wrMode == old(wrp).wrMode && wrp.retry == old(wrp).retry
      ensures wrp.nextState == (
                if m.id == CALIBRATE && old(wrp).wrMode == WrMaster then RespCalibReq
                else if m.id == WR_MODE_ON && old(wrp).wrMode == WrSlave then LinkOn
                else Calibrated)
    {
      hide Encoded, Value, Latency;
      Unpack(m);
      if m.id == CALIBRATE && wrp.wrMode == WrMaster {
        wrp := wrp.(nextState := RespCalibReq);
      } else if m.id == WR_MODE_ON && wrp.wrMode == WrSlave {
        wrp := wrp.(nextState := LinkOn);
        h := h.(peerLinked := true);
      }
    }

    /** wr_calibrated: send the latencies, wait for the peer to calibrate or to switch WR on. */
    method CalibratedAction(x: Event, entering: bool, ghost peerHasLinked: bool) returns (sent: Option<Msg>)
      requires Inv() && wrp.state == wrp.nextState == Calibrated && Relies(x, peerHasLinked)
      modifies this`extState, this`wrp, this`se, this`h
      ensures Inv() && Progress(old(h), h, peerHasLinked) && Guarantees(sent)
      ensures wrp.state == old(wrp).state && wrp.parentDetection == old(wrp).parentDetection
      ensures wrp.nextState != Idle ==> extState == old(extState) && wrp.wrMode == old(wrp).wrMode
      ensures wrp.nextState == NextPhase(Calibrated, old(wrp).wrMode, entering, old(wrp).retry, x)
      ensures sent.Some? <==> Sends(Calibrated, entering, old(wrp).retry, x)
      ensures sent.Some? ==> sent == Some(Msg(CALIBRATED, Encoded(egress), Encoded(ingress)))
      ensures wrp.nextState == Calibrated ==> wrp.retry == TriesLeft(Calibrated, entering, old(wrp).retry, x)
    {
      hide Encoded, Value, Latency, TimeoutMs, TimerTick;
      sent := None;
      var sendmsg := true;
      if entering {
        wrp := wrp.(retry := STATE_RETRY);
      } else if x.msg.Some? {
        ReceiveCalibrated(x.msg.value, peerHasLinked);
        sendmsg := false;
      } else {
        sendmsg := CheckTimer(x.remainingMs);
      }
      if sendmsg {
        sent := Issue(CALIBRATED, x.sendOk);
      }
    }

    /** The peer's latencies go to the servo. */
    method StorePeer(m: Msg, ghost peerHasLinked: bool)
      requires Inv() && wrp.nextState == wrp.state == RespCalibReq && m.id == CALIBRATED
      requires Genuine(m, lat.peerEgress, lat.peerIngress, peerHasLinked)
      modifies this`wrp, this`se, this`h
      ensures Inv() && Progress(old(h), h, peerHasLinked) && h.peerStored
      ensures wrp.state == old(wrp).state && wrp.parentDetection == old(wrp).parentDetection
      ensures wrp.nextState == (if old(wrp).wrMode == WrMaster then LinkOn else Calibration)
      ensures wrp.wrMode == old(wrp).wrMode
    {
      hide Encoded, Value, Latency, PhaseInv, DeltaInv;
      Unpack(m);
      var txm := FixedDeltaToTime(wrp.otherDeltaTx);
      var rxm := FixedDeltaToTime(wrp.otherDeltaRx);
      PeerStored(wrp.deltaTx, wrp.deltaRx, se, h, lat, txm, rxm);
      PeerStoredPhase(wrp.wrMode, wrp.wrModeOn, h);
      se := se.(txm := txm, rxm := rxm);
      wrp := wrp.(nextState := if wrp.wrMode == WrMaster then LinkOn else Calibration);
      h := h.(peerStored := true);
    }

    /** wr_resp_calib_req: wait for the peer's latencies. */
    method RespCalibReqAction(x: Event, entering: bool, ghost peerHasLinked: bool)
      requires Inv() && wrp.state == wrp.nextState == RespCalibReq && Relies(x, peerHasLinked)
      modifies this`extState, this`wrp, this`se, this`h
      ensures Inv() && Progress(old(h), h, peerHasLinked)
      ensures wrp.state == old(wrp).state && wrp.parentDetection == old(wrp).parentDetection
      ensures wrp.nextState != Idle ==> extState == old(extState) && wrp.wrMode == old(wrp).wrMode
      ensures wrp.nextState == NextPhase(RespCalibReq, old(wrp).wrMode, entering, old(wrp).retry, x)
      ensures wrp.nextState == RespCalibReq ==> wrp.retry == TriesLeft(RespCalibReq, entering, old(wrp).retry, x)
    {
      hide Encoded, Value, Latency, TimeoutMs, TimerTick, PhaseInv, DeltaInv;
      if entering {
        wrp := wrp.(retry := STATE_RETRY);
      }
      if x.msg.Some? {
        if x.msg.value.id == CALIBRATED {
          StorePeer(x.msg.value, peerHasLinked);
        } else {
          Unpack(x.msg.value);
        }
      } else {
        var _ := CheckTimer(x.remainingMs);
      }
    }

    /** wr_link_on: a master tells its slave; then both are in WR mode. */
    method LinkOnAction(x: Event) returns (sent: Option<Msg>)
      requires Inv() && wrp.state == wrp.nextState == LinkOn
      modifies this`wrp, this`h
      ensures Inv() && Progress(old(h), h, false) && Guarantees(sent)
      ensures wrp.state == old(wrp).state && wrp.parentDetection == old(wrp).parentDetection
      ensures wrp.nextState == NextPhase(LinkOn, old(wrp).wrMode, false, old(wrp).retry, x)
      ensures wrp.wrMode == old(wrp).wrMode && (wrp.nextState == Idle ==> wrp.wrModeOn && wrp.parentWrModeOn)
      ensures sent.Some? <==> old(wrp).wrMode == WrMaster && x.sendOk
      ensures sent.Some? ==> sent.value.id == WR_MODE_ON
    {
      hide Encoded, Value, Latency, TimeoutMs, TimerTick;
      sent := None;
      if wrp.wrMode == WrMaster {
        if !x.sendOk {
          return;
        }
        h := h.(masterLinked := true);
        sent := Issue(WR_MODE_ON, true);
      }
      h := h.(linkedSinceReset := true);
      wrp := wrp.(wrModeOn := true, parentWrModeOn := true, nextState := Idle);
    }

    /** pdstate_enable_extension */
    method EnableExtension(detecting: bool)
      modifies this`extState
      ensures extState == if detecting then ExtActive else old(extState)
    {
      if detecting {
        extState := ExtActive;
      }
    }

    /** wr_reset_process */
    method ResetProcess(role: Role)
      requires Sound() && (role == WrMaster ==> wrp.nextState in {Idle, MLock})
      requires role == WrSlave ==> wrp.nextState in {Idle, Present}
      modifies this`wrp, this`h
      ensures Inv() && Progress(old(h), h, false)
      ensures wrp == Reset(old(wrp), role) && h == ResetHistory(old(h), role)
    {
      hide Encoded, Value, Latency;
      wrp := Reset(wrp, role);
      h := ResetHistory(h, role);
    }

    /** wr_idle on a PTP master: SLAVE_PRESENT starts the handshake. */
    method IdleMaster(x: Event)
      requires Inv() && wrp.state == wrp.nextState == Idle && ptp == Master
      modifies this`extState, this`wrp
      ensures Inv()
      ensures wrp.state == old(wrp).state && wrp.parentDetection == old(wrp).parentDetection
      ensures wrp.nextState == if Got(x, SLAVE_PRESENT) then MLock else Idle
      ensures extState == if x.msg.Some? && x.detecting then ExtActive else old(extState)
      ensures wrp.wrMode == old(wrp).wrMode && wrp.wrModeOn == old(wrp).wrModeOn
    {
      hide Encoded, Value, Latency, DeltaInv;
      if x.msg.Some? {
        Unpack(x.msg.value);
        if x.msg.value.id == SLAVE_PRESENT {
          wrp := wrp.(nextState := MLock);
        }
        EnableExtension(x.detecting);
      }
    }

    /** Begin the handshake as a slave. */
    method StartSlave()
      requires Inv()
      modifies this`wrp, this`h
      ensures Inv() && Progress(old(h), h, false)
      ensures wrp == Reset(old(wrp).(nextState := Present), WrSlave) && h == ResetHistory(old(h), WrSlave)
    {
      hide Encoded, Value, Latency;
      wrp := Reset(wrp.(nextState := Present), WrSlave);
      h := ResetHistory(h, WrSlave);
    }

    /** parentDetection is settled. */
    method Detected()
      requires Inv()
      modifies this`wrp
      ensures Inv() && wrp == old(wrp).(parentDetection := NoDetection)
    {
      hide PhaseInv, DeltaInv, Encoded, Value, Latency;
      wrp := wrp.(parentDetection := NoDetection);
    }

    /** wr_idle meeting a WR parent: the handshake starts. */
    method MeetWrParent(x: Event)
      requires Inv() && wrp.state == wrp.nextState == Idle
      modifies this`extState, this`wrp, this`h, this`nextPtp
      ensures Inv() && Progress(old(h), h, false)
      ensures wrp.state == old(wrp).state && wrp.parentDetection == NoDetection
      ensures wrp.nextState == if extState == ExtActive then Present else Idle
      ensures extState == if x.detecting && old(extState) == ExtPtp then ExtActive else old(extState)
      ensures wrp.nextState == Present ==> wrp.wrMode == WrSlave && !wrp.wrModeOn
      ensures nextPtp == if wrp.nextState == Present && ptp == Slave then Uncalibrated else old(nextPtp)
    {
      hide PhaseInv, DeltaInv, Encoded, Value, Latency;
      if extState == ExtPtp {
        EnableExtension(x.detecting);
      }
      if extState == ExtActive {
        if ptp == Slave {
          nextPtp := Uncalibrated;
        }
        StartSlave();
      }
      Detected();
    }

    /** wr_idle meeting a parent without WR: the extension ends. */
    method MeetOtherParent()
      requires Inv() && wrp.state == wrp.nextState == Idle
      modifies this`extState, this`wrp, this`h, this`nextPtp
      ensures Inv() && Progress(old(h), h, false)
      ensures wrp.state == old(wrp).state && wrp.parentDetection == NoDetection
      ensures wrp.nextState == Idle && extState != ExtActive
      ensures nextPtp == if ptp == Slave then Uncalibrated else old(nextPtp)
    {
      hide PhaseInv, DeltaInv, Encoded, Value, Latency;
      DisableExtension();
      if ptp == Slave {
        nextPtp := Uncalibrated;
      }
      Detected();
    }

    /** wr_idle */
    method IdleAction(x: Event)
      requires Inv() && wrp.state == wrp.nextState == Idle
      modifies this`extState, this`wrp, this`h, this`nextPtp
      ensures Inv() && Progress(old(h), h, false)
      ensures wrp.state == old(wrp).state
      ensures ptp == Master && old(extState) == ExtActive ==> extState == ExtActive
      ensures wrp.nextState == (
                if ptp == Master then (if Got(x, SLAVE_PRESENT) then MLock else Idle)
                else if old(wrp).parentDetection == WrParent && extState == ExtActive then Present
                else Idle)
      ensures wrp.nextState == Present ==> wrp.wrMode == WrSlave && !wrp.wrModeOn
      ensures ptp != Master && old(wrp).parentDetection == WrParent && old(extState) == ExtActive ==>
                extState == ExtActive
      ensures ptp != Master ==> IdleKeeps(old(wrp), wrp, old(extState), extState)
    {
      hide PhaseInv, DeltaInv, Encoded, Value, Latency;
      if ptp == Master {
        IdleMaster(x);
      } else if wrp.parentDetection == WrParent {
        MeetWrParent(x);
      } else if wrp.parentDetection == NotWrParent {
        MeetOtherParent();
      }
    }

    /** The action of the state, by the table of wr-state-machine.c. */
    method Act(x: Event, entering: bool, ghost peerHasLinked: bool) returns (sent: Option<Msg>)
      requires Sound() && wrp.state == wrp.nextState && (entering || Inv()) && Relies(x, peerHasLinked)
      requires Inv() || wrp.state == MLock
      modifies this`extState, this`wrp, this`se, this`h, this`nextPtp
      ensures Inv() && Progress(old(h), h, peerHasLinked) && Guarantees(sent)
      ensures wrp.state == old(wrp).state
      ensures wrp.state != Idle ==> wrp.nextState == NextPhase(wrp.state, old(wrp).wrMode, entering, old(wrp).retry, x)
      ensures wrp.state == Idle ==> wrp.nextState in {Idle, MLock, Present}
      ensures wrp.nextState != Idle && wrp.state != Idle ==>
                && extState == old(extState)
                && wrp.wrMode == (if entering && wrp.state == MLock then WrMaster else old(wrp).wrMode)
      ensures wrp.state == LinkOn && wrp.nextState == Idle ==>
                extState == old(extState) && wrp.wrMode == old(wrp).wrMode && wrp.wrModeOn && wrp.parentWrModeOn
      ensures entering && x.sendOk && Opening(wrp.state, old(wrp).wrMode).Some? ==>
                sent.Some? && sent.value.id == Opening(wrp.state, old(wrp).wrMode).value
      ensures wrp.state == Idle && ptp == Master && old(extState) == ExtActive ==> extState == ExtActive
      ensures wrp.state == Idle && ptp == Master && Got(x, SLAVE_PRESENT) ==> wrp.nextState == MLock
      ensures wrp.state == Idle && ptp != Master ==>
                && (wrp.nextState == Present <==> old(wrp).parentDetection == WrParent && extState == ExtActive)
                && (wrp.nextState == Present ==> wrp.wrMode == WrSlave && !wrp.wrModeOn)
                && (old(wrp).parentDetection == WrParent && old(extState) == ExtActive ==> extState == ExtActive)
      ensures wrp.state == Idle && ptp != Master ==> IdleKeeps(old(wrp), wrp, old(extState), extState)
      ensures wrp.state != Idle ==> wrp.parentDetection == old(wrp).parentDetection
      ensures wrp.state in {Present, MLock, Locked, Calibrated} ==>
                && (sent.Some? <==> Sends(wrp.state, entering, old(wrp).retry, x))
                && (sent.Some? ==> Some(sent.value.id) == Opening(wrp.state, old(wrp).wrMode))
      ensures wrp.nextState == wrp.state && wrp.state !in {Idle, LinkOn} ==>
                wrp.retry == TriesLeft(wrp.state, entering, old(wrp).retry, x)
    {
      hide PhaseInv, DeltaInv, Encoded, Value, Latency, TimerTick, TimeoutMs, Looks, TriesLeft;
      sent := None;
      match wrp.state {
        case Idle => IdleAction(x);
        case Present => sent := PresentAction(x, entering);
        case MLock => sent := MLockAction(x, entering);
        case SLock => SLockAction(x, entering);
        case Locked => sent := LockedAction(x, entering);
        case Calibration => sent := CalibrationAction(x);
        case Calibrated => sent := CalibratedAction(x, entering, peerHasLinked);
        case RespCalibReq => RespCalibReqAction(x, entering, peerHasLinked);
        case LinkOn => sent := LinkOnAction(x);
      }
    }

    /** wr_run_state_machine: without an active extension the port is led back to IDLE; then the
        action of its state is taken. */
    method Run(x: Event, ghost peerHasLinked: bool) returns (sent: Option<Msg>)
      requires Inv() && Relies(x, peerHasLinked)
      modifies this`extState, this`wrp, this`se, this`h, this`nextPtp
      ensures Inv() && Progress(old(h), h, peerHasLinked) && Guarantees(sent)
      ensures wrp.state == if ptp == Initializing || old(extState) != ExtActive then Idle else old(wrp).nextState
      ensures wrp.state != Idle ==>
                wrp.nextState == NextPhase(wrp.state, old(wrp).wrMode, old(wrp).state != wrp.state, old(wrp).retry, x)
      ensures wrp.state == Idle ==> wrp.nextState in {Idle, MLock, Present}
      ensures wrp.nextState != Idle && wrp.state != Idle ==>
                && extState == old(extState)
                && wrp.wrMode == (if wrp.state == MLock && old(wrp).state != MLock then WrMaster else old(wrp).wrMode)
      ensures wrp.state == LinkOn && wrp.nextState == Idle ==>
                extState == old(extState) && wrp.wrMode == old(wrp).wrMode && wrp.wrModeOn && wrp.parentWrModeOn
      ensures old(wrp).state != wrp.state && x.sendOk && Opening(wrp.state, old(wrp).wrMode).Some? ==>
                sent.Some? && sent.value.id == Opening(wrp.state, old(wrp).wrMode).value
      ensures wrp.state == Idle && ptp == Master && old(extState) == ExtActive ==> extState == ExtActive
      ensures wrp.state == Idle && ptp == Master && Got(x, SLAVE_PRESENT) ==> wrp.nextState == MLock
      ensures wrp.state == Idle && ptp != Master ==>
                && (wrp.nextState == Present <==> old(wrp).parentDetection == WrParent && extState == ExtActive)
                && (wrp.nextState == Present ==> wrp.wrMode == WrSlave && !wrp.wrModeOn)
                && (old(wrp).parentDetection == WrParent && old(extState) == ExtActive ==> extState == ExtActive)
      ensures wrp.state == Idle && ptp != Master ==>
                IdleKeeps(old(wrp).(state := Idle, nextState := Idle), wrp, old(extState), extState)
      ensures wrp.state != Idle ==> wrp.parentDetection == old(wrp).parentDetection
      ensures wrp.state in {Present, MLock, Locked, Calibrated} ==>
                && (sent.Some? <==> Sends(wrp.state, old(wrp).state != wrp.state, old(wrp).retry, x))
                && (sent.Some? ==> Some(sent.value.id) == Opening(wrp.state, old(wrp).wrMode))
      ensures wrp.nextState == wrp.state && wrp.state !in {Idle, LinkOn} ==>
                wrp.retry == TriesLeft(wrp.state, old(wrp).state != wrp.state, old(wrp).retry, x)
    {
      hide PhaseInv, DeltaInv, Encoded, Value, Latency, NextPhase, Progress, Sends, TriesLeft, IdleKeeps, Opening;
      var entering := EnterState();
      sent := Act(x, entering, peerHasLinked);
    }

    /** The beginning of wr_run_state_machine: which state, and is it new? */
    method EnterState() returns (entering: bool)
      requires Inv()
      modifies this`wrp
      ensures var s := if ptp == Initializing || extState != ExtActive then Idle else old(wrp).nextState;
              wrp == old(wrp).(state := s, nextState := s) && entering == (old(wrp).state != s)
      ensures Sound() && (entering || Inv()) && (Inv() || wrp.state == MLock)
    {
      hide DeltaInv, Encoded, Value, Latency;
      if ptp == Initializing || extState != ExtActive {
        wrp := wrp.(nextState := Idle);
      }
      entering := wrp.state != wrp.nextState;
      wrp := wrp.(state := wrp.nextState);
    }

    /** wr_state_change with the extension active: what the next PTP state asks for. */
    method EnterPtp(next: PtpState)
      requires Inv()
      modifies this`extState, this`wrp, this`se, this`h
      ensures Inv() && Progress(old(h), h, false)
      ensures AfterEntry(old(wrp), ptp, next, wrp)
      ensures extState == old(extState) || (next == Uncalibrated && ptp != Slave && !old(wrp).parentIsMaster)
    {
      hide DeltaInv, Encoded, Value, Latency;
      if next == Master {
        wrp := wrp.(nextState := Idle);
        ResetProcess(WrMaster);
      } else if next == Uncalibrated {
        if ptp == Slave {
          if wrp.parentIsMaster {
            StartSlave();
          }
        } else if !wrp.parentIsMaster {
          HandshakeFail();
        }
      } else if next == Listening {
        ResetProcess(NoRole);
      }
    }

    /** wr_state_change with the extension active: leaving a state, then entering the next. */
    method ActiveChange(next: PtpState)
      requires Inv() && extState == ExtActive
      modifies this`extState, this`wrp, this`se, this`h
      ensures Inv() && Progress(old(h), h, false)
      ensures AfterEntry(Left(old(wrp), ptp), ptp, next, wrp)
      ensures extState == ExtActive || (next == Uncalibrated && ptp != Slave && !Left(old(wrp), ptp).parentIsMaster)
    {
      hide PhaseInv, DeltaInv, Encoded, Value, Latency, Progress, AfterEntry;
      if wrp.wrModeOn && (ptp == Slave || ptp == Master) {
        ResetProcess(NoRole);
        ProgressAgain(old(h), h);
      }
      EnterPtp(next);
    }

    /** pp_leave_current_state with the hook wr_state_change. A slave that goes back to
        UNCALIBRATED starts the handshake again only if WR mode was not on: the reset on leaving
        clears what is known of the parent before it is looked at. */
    method StateChange(next: PtpState, detecting: bool)
      requires Inv() && next != ptp
      modifies this
      ensures Inv() && Progress(old(h), h, false)
      ensures ptp == nextPtp == next
      ensures var active := old(extState) == ExtActive
                            || (old(ptp) == Slave && next == Uncalibrated && old(wrp).parentIsWr && detecting);
              var w := Left(old(wrp), old(ptp));
              && (active ==> AfterEntry(w, old(ptp), next, wrp))
              && (!active ==> wrp == Reset(old(wrp), NoRole))
              && (next != Disabled && !(next == Uncalibrated && old(ptp) != Slave && !w.parentIsMaster) ==>
                    extState == if active then ExtActive else old(extState))
              && (next == Disabled ==> extState == ExtDisabled)
    {
      hide PhaseInv, DeltaInv, Encoded, Value, Latency, AfterEntry, Left, Reset;
      if ptp == Slave && next == Uncalibrated && wrp.parentIsWr {
        EnableExtension(detecting);
      }
      if extState == ExtActive {
        ActiveChange(next);
      } else {
        ResetProcess(NoRole);
      }
      ptp, nextPtp := next, next;
      if ptp == Disabled {
        extState := ExtDisabled;
      }
    }

    /** wr_bmca_s1 on an announce not treated before: is the parent a WR node, may it be a WR
        master, is it in WR mode, and is it new by its port identity and sequence numbers? */
    method Announced(isWr: bool, isMaster: bool, isOn: bool, newParent: bool)
      requires Inv()
      modifies this`wrp, this`se
      ensures Inv() && se == old(se).(doRestart := false)
      ensures var isNew := newParent || old(se).doRestart;
              var known := old(wrp).parentDetection == WrParent;
              wrp == old(wrp).(
                parentDetection := if !isNew then old(wrp).parentDetection
                                   else if !isWr then NotWrParent
                                   else if isMaster then WrParent
                                   else old(wrp).parentDetection,
                parentIsWr := isWr,
                parentIsMaster := isWr && isMaster,
                parentWrModeOn := isWr && isOn && (known || !isNew))
    {
      hide PhaseInv, Encoded, Value, Latency;
      var isNew := newParent || se.doRestart;
      var on := isOn;
      se := se.(doRestart := false);
      if isWr {
        if isNew && wrp.parentDetection != WrParent {
          on := false;
          if isMaster {
            wrp := wrp.(parentDetection := WrParent);
          }
        }
      } else {
        if isNew {
          wrp := wrp.(parentDetection := NotWrParent);
        }
        on := false;
      }
      wrp := wrp.(parentIsWr := isWr, parentIsMaster := isWr && isMaster, parentWrModeOn := on);
    }

    /** wr_ready_for_slave: with the extension active, WR mode must be on. */
    method ReadyForSlave() returns (ready: bool)
      requires Inv()
      ensures ready <==> extState != ExtActive || (wrp.wrModeOn && wrp.parentWrModeOn && wrp.state == Idle)
      ensures ready && extState == ExtActive ==> h.linkedSinceReset
    {
      ready := extState == ExtActive ==> wrp.wrModeOn && wrp.parentWrModeOn && wrp.state == Idle;
    }

    /** pp_initializing as far as the extension goes, with the hook wr_init. */
    method Initialize()
      requires Inv() && ptp == Initializing
      modifies this`extState, this`wrp, this`h
      ensures Inv() && Progress(old(h), h, false)
      ensures extState == configured && wrp == Reset(old(wrp), NoRole) && !h.linkedSinceReset
    {
      extState := configured;
      ResetProcess(NoRole);
    }

    /** The link comes up: the port is to be initialised, and no hook is called. */
    method LinkUp()
      requires Inv()
      modifies this`ptp, this`nextPtp
      ensures Inv() && ptp == nextPtp == Initializing
    {
      ptp, nextPtp := Initializing, Initializing;
    }

    /** The link goes down; the servo of the Ebest port is to start anew. */
    method LinkDown(holdsEbest: bool)
      requires Inv()
      modifies this
      ensures Inv() && Progress(old(h), h, false)
      ensures ptp == Disabled && extState == ExtDisabled && (holdsEbest ==> se.doRestart)
      ensures wrp.nextState == old(wrp).nextState && wrp.state == old(wrp).state
    {
      hide PhaseInv, Encoded, Value, Latency, Progress;
      if ptp != Disabled {
        StateChange(Disabled, false);
      } else {
        extState := ExtDisabled;
        SameHistory(h);
      }
      if holdsEbest {
        se := se.(doRestart := true);
      }
    }

    /** wr_new_slave, called when UNCALIBRATED is entered. */
    method NewSlave()
      requires Inv()
      modifies this`se
      ensures Inv()
      ensures se == if extState == ExtActive then old(se).(readyForSync := false, doRestart := true) else old(se)
    {
      hide PhaseInv, Encoded, Value, Latency;
      if extState == ExtActive {
        se := se.(readyForSync := false, doRestart := true);
      }
    }

    constructor (ghost l: Latencies, e: int, i: int, fallback: bool, ext: ExtState)
      requires AllLatencies(l) && l.egress == e && l.ingress == i
      ensures Inv() && lat == l && configured == ext
      ensures h == History(false, false, false, false, false, false)
      ensures egress == e && ingress == i
    {
      lat, egress, ingress, ptpFallback, configured := l, e, i, fallback, ext;
      ptp, nextPtp, extState := Initializing, Initializing, ext;
      wrp := WrPort(Idle, Idle, NoRole, false, false, false, false, NoDetection, 0,
                    NODELTA, NODELTA, NODELTA, NODELTA);
      se := ServoExt(Time(0, 0), Time(0, 0), Time(0, 0), Time(0, 0), false, false);
      h := History(false, false, false, false, false, false);
    }
  }

  lemma PeerStored(
    deltaTx: FixedDelta, deltaRx: FixedDelta, se: ServoExt, h: History, l: Latencies, txm: Time, rxm: Time)
    requires AllLatencies(l) && DeltaInv(deltaTx, deltaRx, se, h, l)
    requires Value(txm) == l.peerEgress && Value(rxm) == l.peerIngress
    ensures DeltaInv(deltaTx, deltaRx, se.(txm := txm, rxm := rxm), h.(peerStored := true), l)
  {
  }

  lemma PeerStoredPhase(role: Role, on: bool, h: History)
    requires PhaseInv(role, RespCalibReq, on, h)
    ensures PhaseInv(role, if role == WrMaster then LinkOn else Calibration, on, h.(peerStored := true))
  {
  }

  lemma SameHistory(h: History)
    ensures Progress(h, h, false)
  {
  }

  /** Steps that add nothing of the peer's add nothing together. */
  lemma ProgressAgain(g: History, h: History)
    requires Progress(g, h, false)
    ensures forall k: History :: Progress(h, k, false) ==> Progress(g, k, false)
  {
  }

  /** The stored latencies do not depend on what the PLL reports. */
  lemma PllAside(deltaTx: FixedDelta, deltaRx: FixedDelta, se: ServoExt, g: History, h: History, l: Latencies)
    requires AllLatencies(l) && DeltaInv(deltaTx, deltaRx, se, g, l)
    requires h.ownStored == g.ownStored && h.peerStored == g.peerStored
    ensures DeltaInv(deltaTx, deltaRx, se, h, l)
  {
  }

  /** fixedDelta_to_pp_time */
  method FixedDeltaToTime(d: FixedDelta) returns (t: Time)
    ensures Value(t) == (d.msb as int * TWO32 + d.lsb as int) / 1000
    ensures Canonical(t)
  {
    var p := new PpTime(0, 0);
    p.SetFixedDelta(d.msb, d.lsb);
    t := Time(p.secs as int, p.scaled as int);
  }
}
