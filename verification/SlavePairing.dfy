/** How a slave pairs its messages: Sync with Follow_Up, Delay_Req with Delay_Resp, and both
    with an update of the servo (end-to-end mode, standard hooks, one parent). */
module SlavePairing {
  import opened CInt
  import opened TimeArith
  import opened BmcCompare

  /** What the port meets. fromMaster tells whether the sender is the current parent, mine
      whether a response names this port as the one that asked. Stamps are as received. */
  datatype Event =
    | Sync(fromMaster: bool, twoStep: bool, seqId: uint16, rcv: Time, origin: Time, cField: Time)
    | FollowUp(fromMaster: bool, seqId: uint16, origin: Time, cField: Time)
    | Request(snt: Time)
    | Response(fromMaster: bool, mine: bool, seqId: uint16, receive: Time, cField: Time)

  datatype Update = Update(t1: Time, t2: Time, t3: Time, t4: Time)

  /** What the port starts with and never changes: the number its last request is taken to have
      had, the stamp it is taken to have had, and the delay asymmetry. */
  datatype Start = Start(sent: uint16, sentAt: Time, asym: Time)

  // ----- which messages belong together, said of the run alone

  ghost predicate SyncAt(ev: seq<Event>, s: nat) {
    s < |ev| && ev[s].Sync? && ev[s].fromMaster
  }

  /** No other Sync of the master from s up to n. */
  ghost predicate LastSync(ev: seq<Event>, s: nat, n: nat) {
    s < n <= |ev| && SyncAt(ev, s) && forall i :: s < i < n ==> !SyncAt(ev, i)
  }

  /** A Follow_Up of the master with the number of the Sync at s. */
  ghost predicate Matches(ev: seq<Event>, s: nat, j: nat) {
    SyncAt(ev, s) && j < |ev| && ev[j].FollowUp? && ev[j].fromMaster && ev[j].seqId == ev[s].seqId
  }

  /** The last Sync before n is the two-step one at s, and has had no Follow_Up yet. */
  ghost predicate Open(ev: seq<Event>, s: nat, n: nat) {
    LastSync(ev, s, n) && ev[s].twoStep && forall j :: s < j < n ==> !Matches(ev, s, j)
  }

  ghost function T1(ev: seq<Event>, s: nat, d: nat): (t: Time)
    requires SyncAt(ev, s) && (ev[s].twoStep ==> Matches(ev, s, d))
  {
    if ev[s].twoStep then Plus(Plus(ev[s].cField, ev[d].origin), ev[d].cField) else Plus(ev[s].origin, ev[s].cField)
  }

  /** The event at d completes a pair of correct stamps t1 and t2: it is the one-step Sync at s
      itself, or the first Follow_Up of the two-step Sync at s, with no Sync in between. */
  ghost predicate Completes(ev: seq<Event>, s: nat, d: nat) {
    && SyncAt(ev, s)
    && (if ev[s].twoStep then Open(ev, s, d) && Matches(ev, s, d) else d == s)
    && !Incorrect(T1(ev, s, d)) && !Incorrect(ev[s].rcv)
  }

  ghost function Requests(ev: seq<Event>, n: nat): (k: nat)
    requires n <= |ev|
  {
    if n == 0 then 0 else Requests(ev, n - 1) + if ev[n - 1].Request? then 1 else 0
  }

  /** The number the last request before n carried. */
  ghost function LastSeq(ev: seq<Event>, n: nat, o: Start): (q: int)
    requires n <= |ev|
  {
    (o.sent as int + Requests(ev, n)) % TWO16
  }

  /** The stamp of the last request before n, or what t3 was at first. */
  ghost function T3(ev: seq<Event>, n: nat, o: Start): (t: Time)
    requires n <= |ev|
  {
    if n == 0 then o.sentAt else if ev[n - 1].Request? then ev[n - 1].snt else T3(ev, n - 1, o)
  }

  /** The master's response to this port's last request. */
  ghost predicate Answers(ev: seq<Event>, r: nat, o: Start) {
    && r < |ev| && ev[r].Response? && ev[r].fromMaster && ev[r].mine
    && ev[r].seqId as int == LastSeq(ev, r, o)
  }

  ghost function T4(ev: seq<Event>, r: nat, o: Start): (t: Time)
    requires r < |ev| && ev[r].Response?
  {
    Minus(Minus(ev[r].receive, ev[r].cField), o.asym)
  }

  /** The pair of s and d is the last one completed before n, and no response has used it up. */
  ghost predicate Ready(ev: seq<Event>, s: nat, d: nat, n: nat, o: Start) {
    && Completes(ev, s, d) && d < n <= |ev|
    && (forall j :: d < j < n ==> !Answers(ev, j, o))
    && (forall s': nat, d': nat :: Completes(ev, s', d') && d' < n ==> d' <= d)
  }

  /** The response at r is due to update the servo, with the pair of s and d. */
  ghost predicate Due(ev: seq<Event>, s: nat, d: nat, r: nat, o: Start) {
    Ready(ev, s, d, r, o) && Answers(ev, r, o) && !Incorrect(T3(ev, r, o)) && !Incorrect(T4(ev, r, o))
  }

  /** The messages that an update rests on, by their places in the run. */
  datatype Source = Source(sync: nat, done: nat, response: nat)

  /** u is the update due from the messages of g. */
  ghost predicate Sound(ev: seq<Event>, u: Update, g: Source, o: Start) {
    && Due(ev, g.sync, g.done, g.response, o)
    && u == Update(T1(ev, g.sync, g.done), ev[g.sync].rcv, T3(ev, g.response, o), T4(ev, g.response, o))
  }

  // ----- one more event

  lemma OpenStep(ev: seq<Event>, n: nat, m: nat)
    requires n < |ev| && m == n + 1
    ensures forall s: nat :: Open(ev, s, m) <==>
              if SyncAt(ev, n) then s == n && ev[n].twoStep else Open(ev, s, n) && !Matches(ev, s, n)
  {
  }

  /** At most one Sync is the last one. */
  lemma OpenOnce(ev: seq<Event>, s: nat, s': nat, n: nat)
    requires LastSync(ev, s, n) && LastSync(ev, s', n)
    ensures s == s'
  {
  }

  ghost predicate NoneOpen(ev: seq<Event>, n: nat) {
    forall s: nat :: !Open(ev, s, n)
  }

  ghost predicate NoneReady(ev: seq<Event>, n: nat, o: Start) {
    forall s: nat, d: nat :: !Ready(ev, s, d, n, o)
  }

  ghost predicate NoCompletion(ev: seq<Event>, n: nat) {
    forall s: nat :: !Completes(ev, s, n)
  }

  /** An event that completes no pair and answers nothing leaves what is ready as it is. */
  lemma ReadyKept(ev: seq<Event>, s: nat, d: nat, n: nat, o: Start)
    requires n < |ev| && NoCompletion(ev, n) && !Answers(ev, n, o)
    ensures Ready(ev, s, d, n + 1, o) <==> Ready(ev, s, d, n, o)
  {
    hide Completes, Answers;
  }

  lemma NoneReadyKept(ev: seq<Event>, n: nat, o: Start)
    requires n < |ev| && NoCompletion(ev, n) && !Answers(ev, n, o) && NoneReady(ev, n, o)
    ensures NoneReady(ev, n + 1, o)
  {
    hide Ready, Answers, NoCompletion;
    var m := n + 1;
    forall s: nat, d: nat
      ensures Ready(ev, s, d, m, o) <==> Ready(ev, s, d, n, o)
    {
      ReadyKept(ev, s, d, n, o);
    }
  }

  lemma ReadyNew(ev: seq<Event>, s: nat, n: nat, o: Start)
    requires n < |ev| && Completes(ev, s, n)
    ensures Ready(ev, s, n, n + 1, o)
  {
    hide Completes, Answers;
  }

  lemma ReadyTaken(ev: seq<Event>, n: nat, o: Start)
    requires Answers(ev, n, o)
    ensures NoneReady(ev, n + 1, o)
  {
    hide LastSeq;
    assert forall s: nat, d: nat :: Completes(ev, s, d) ==> d != n;
  }

  lemma CompletesSync(ev: seq<Event>, n: nat)
    requires n < |ev| && ev[n].Sync?
    ensures forall s: nat :: Completes(ev, s, n) <==>
              && s == n && SyncAt(ev, n) && !ev[n].twoStep
              && !Incorrect(Plus(ev[n].origin, ev[n].cField)) && !Incorrect(ev[n].rcv)
  {
  }

  lemma CompletesOther(ev: seq<Event>, n: nat)
    requires n < |ev| && !ev[n].Sync?
    requires !ev[n].FollowUp? || forall s: nat :: Open(ev, s, n) ==> !Matches(ev, s, n)
    ensures NoCompletion(ev, n)
  {
  }

  lemma CompletesFollowUp(ev: seq<Event>, s: nat, n: nat)
    requires n < |ev| && ev[n].FollowUp? && Open(ev, s, n) && Matches(ev, s, n)
    ensures NoCompletion(ev, n) <==> Incorrect(T1(ev, s, n)) || Incorrect(ev[s].rcv)
    ensures !NoCompletion(ev, n) ==> Completes(ev, s, n)
  {
    forall s': nat | Completes(ev, s', n)
      ensures s' == s
    {
      OpenOnce(ev, s, s', n);
    }
    assert Completes(ev, s, n) <==> !Incorrect(T1(ev, s, n)) && !Incorrect(ev[s].rcv);
  }

  class Port {
    const start: Start
    var t1: Time
    var t2: Time
    var t3: Time
    var t4: Time
    var waiting: bool
    var syncSeq: uint16
    var sentSeq: uint16
    var gotSync: bool
    var servo: Update
    ghost var syncAt: nat
    ghost var pairSync: nat
    ghost var pairDone: nat

    /** The port waits exactly if there is a Sync still to be followed up, and has its stamps. */
    ghost predicate SyncInv(ev: seq<Event>, n: nat)
      reads this
    {
      && n <= |ev| && (!waiting ==> NoneOpen(ev, n))
      && (waiting ==> && Open(ev, syncAt, n) && syncSeq == ev[syncAt].seqId
                      && t1 == ev[syncAt].cField && t2 == ev[syncAt].rcv)
    }

    /** The servo has a pair exactly if one is ready, and has its stamps. */
    ghost predicate PairInv(ev: seq<Event>, n: nat)
      reads this
    {
      && n <= |ev| && (!gotSync ==> NoneReady(ev, n, start))
      && (gotSync ==> && Ready(ev, pairSync, pairDone, n, start)
                      && servo.t1 == T1(ev, pairSync, pairDone) && servo.t2 == ev[pairSync].rcv)
    }

    ghost predicate RequestInv(ev: seq<Event>, n: nat)
      reads this
    {
      n <= |ev| && sentSeq as int == LastSeq(ev, n, start) && t3 == T3(ev, n, start)
    }

    /** pp_servo_got_sync */
    method GotSync(ghost ev: seq<Event>, ghost s: nat, ghost d: nat)
      requires d < |ev| && Completes(ev, s, d) && t1 == T1(ev, s, d) && t2 == ev[s].rcv
      modifies this`servo, this`gotSync, this`pairSync, this`pairDone
      ensures PairInv(ev, d + 1) && gotSync && servo == old(servo).(t1 := t1, t2 := t2)
    {
      ReadyNew(ev, s, d, start);
      hide Ready, NoneReady, T1;
      servo := servo.(t1 := t1, t2 := t2);
      gotSync := true;
      pairSync, pairDone := s, d;
    }

    /** slave_handle_sync: a two-step Sync is waited for, a one-step one is a pair by itself. */
    method HandleSync(ghost ev: seq<Event>, ghost n: nat, e: Event)
      requires n < |ev| && e == ev[n] && e.Sync? && SyncInv(ev, n) && PairInv(ev, n)
      modifies this`t1, this`t2, this`waiting, this`syncSeq, this`servo, this`gotSync,
               this`syncAt, this`pairSync, this`pairDone
      ensures SyncInv(ev, n + 1) && PairInv(ev, n + 1)
      ensures waiting == if e.fromMaster then e.twoStep else old(waiting)
      ensures gotSync <==> old(gotSync) || (e.fromMaster && !e.twoStep
                                            && !Incorrect(Plus(e.origin, e.cField)) && !Incorrect(e.rcv))
    {
      OpenStep(ev, n, n + 1);
      CompletesSync(ev, n);
      hide Plus, Open, Ready, Completes;
      if !e.fromMaster {
        PairKept(ev, n);
        return;
      }
      t2 := e.rcv;
      if e.twoStep {
        PairKept(ev, n);
        waiting := true;
        syncSeq := e.seqId;
        t1 := e.cField;
        syncAt := n;
      } else {
        waiting := false;
        t1 := Plus(e.origin, e.cField);
        if Incorrect(t1) || Incorrect(t2) {
          PairKept(ev, n);
          return;
        }
        GotSync(ev, n, n);
      }
    }

    /** slave_handle_followup */
    method HandleFollowUp(ghost ev: seq<Event>, ghost n: nat, e: Event)
      requires n < |ev| && e == ev[n] && e.FollowUp? && SyncInv(ev, n) && PairInv(ev, n)
      modifies this`t1, this`waiting, this`servo, this`gotSync, this`pairSync, this`pairDone
      ensures SyncInv(ev, n + 1) && PairInv(ev, n + 1)
      ensures waiting == (old(waiting) && !(e.fromMaster && e.seqId == syncSeq))
      ensures gotSync <==> old(gotSync) || (e.fromMaster && old(waiting) && e.seqId == syncSeq
                                            && !Incorrect(Plus(Plus(old(t1), e.origin), e.cField)) && !Incorrect(t2))
    {
      WaitedFor(ev, n);
      hide Plus, Open, Ready, Completes, LastSync, NoCompletion;
      if !e.fromMaster || !waiting || syncSeq != e.seqId {
        PairKept(ev, n);
        return;
      }
      waiting := false;
      t1 := Plus(t1, e.origin);
      t1 := Plus(t1, e.cField);
      if Incorrect(t1) || Incorrect(t2) {
        PairKept(ev, n);
        return;
      }
      GotSync(ev, syncAt, n);
    }

    /** Which Follow_Up completes a pair, by what the port has kept. */
    lemma WaitedFor(ev: seq<Event>, n: nat)
      requires n < |ev| && ev[n].FollowUp? && SyncInv(ev, n)
      ensures var taken := ev[n].fromMaster && waiting && syncSeq == ev[n].seqId;
              && (taken ==> NoneOpen(ev, n + 1)) && (!taken && !waiting ==> NoneOpen(ev, n + 1))
              && (!taken && waiting ==> Open(ev, syncAt, n + 1))
              && (!taken ==> NoCompletion(ev, n))
              && (taken ==> && Matches(ev, syncAt, n)
                            && T1(ev, syncAt, n) == Plus(Plus(t1, ev[n].origin), ev[n].cField)
                            && (NoCompletion(ev, n) <==> Incorrect(T1(ev, syncAt, n)) || Incorrect(t2))
                            && (!NoCompletion(ev, n) ==> Completes(ev, syncAt, n)))
    {
      hide Plus, Completes, NoCompletion;
      OpenStep(ev, n, n + 1);
      forall s: nat | Open(ev, s, n)
        ensures waiting && s == syncAt
      {
        OpenOnce(ev, s, syncAt, n);
      }
      hide Open;
      if waiting && Matches(ev, syncAt, n) {
        CompletesFollowUp(ev, syncAt, n);
      } else {
        CompletesOther(ev, n);
      }
    }

    lemma PairKept(ev: seq<Event>, n: nat)
      requires n < |ev| && NoCompletion(ev, n) && !Answers(ev, n, start) && PairInv(ev, n)
      ensures PairInv(ev, n + 1)
    {
      hide NoCompletion, Answers, Ready, T1;
      if gotSync {
        ReadyKept(ev, pairSync, pairDone, n, start);
      } else {
        NoneReadyKept(ev, n, start);
      }
    }

    /** pp_lib_may_issue_request with the timer expired */
    method IssueRequest(ghost ev: seq<Event>, ghost n: nat, e: Event)
      requires n < |ev| && e == ev[n] && e.Request? && RequestInv(ev, n)
      modifies this`t3, this`sentSeq
      ensures RequestInv(ev, n + 1)
    {
      sentSeq := if sentSeq == 0xffff then 0 else sentSeq + 1;
      t3 := e.snt;
    }

    /** slave_handle_response and pp_servo_got_resp: an update is made exactly if it is due, and is
        then the one due; a response to the last request uses the pair up either way. */
    method HandleResponse(ghost ev: seq<Event>, ghost n: nat, e: Event)
      returns (update: Option<Update>, ghost g: Source)
      requires n < |ev| && e == ev[n] && e.Response? && PairInv(ev, n) && RequestInv(ev, n)
      modifies this`t4, this`gotSync, this`servo
      ensures PairInv(ev, n + 1)
      ensures update.Some? ==> Sound(ev, update.value, g, start) && g.response == n
      ensures update.None? ==> forall s: nat, d: nat :: !Due(ev, s, d, n, start)
      ensures update.Some? <==>
                && old(gotSync) && e.mine && e.fromMaster && e.seqId == sentSeq
                && !Incorrect(t3) && !Incorrect(Minus(Minus(e.receive, e.cField), start.asym))
      ensures gotSync == (old(gotSync) && !(e.mine && e.fromMaster && e.seqId == sentSeq))
    {
      CompletesOther(ev, n);
      hide Minus, LastSeq, Ready, NoCompletion, T1, T3;
      update, g := None, Source(0, 0, 0);
      if !e.mine || e.seqId != sentSeq || !e.fromMaster {
        PairKept(ev, n);
        return;
      }
      ReadyTaken(ev, n, start);
      t4 := Minus(e.receive, e.cField);
      t4 := Minus(t4, start.asym);
      if !gotSync {
        return;
      }
      gotSync := false;
      if Incorrect(t3) || Incorrect(t4) {
        return;
      }
      servo := servo.(t3 := t3, t4 := t4);
      update := Some(servo);
      g := Source(pairSync, pairDone, n);
    }

    constructor (start: Start)
      ensures this.start == start && sentSeq == start.sent && t3 == start.sentAt && !gotSync && !waiting
      ensures forall ev :: SyncInv(ev, 0) && PairInv(ev, 0) && RequestInv(ev, 0)
    {
      this.start := start;
      t1, t2, t3, t4 := Time(0, 0), Time(0, 0), start.sentAt, Time(0, 0);
      waiting, syncSeq, sentSeq, gotSync := false, 0, start.sent, false;
      servo := Update(Time(0, 0), Time(0, 0), Time(0, 0), Time(0, 0));
      syncAt, pairSync, pairDone := 0, 0, 0;
    }
  }

  lemma NoRequest(p: Port, ev: seq<Event>, n: nat)
    requires n < |ev| && p.RequestInv(ev, n) && !ev[n].Request?
    ensures p.RequestInv(ev, n + 1)
  {
  }

  /** An event on the other side leaves the Sync side alone. */
  lemma NoSync(p: Port, ev: seq<Event>, n: nat)
    requires n < |ev| && p.SyncInv(ev, n) && !ev[n].Sync? && !ev[n].FollowUp?
    ensures p.SyncInv(ev, n + 1)
  {
    OpenStep(ev, n, n + 1);
    hide Open;
  }

  /** Every run of messages and timeouts: the updates of the servo are exactly those due, each with
      the stamps of its messages and in the order of the responses. */
  method Run(p: Port, ev: seq<Event>) returns (updates: seq<Update>, ghost from: seq<Source>)
    requires p.SyncInv(ev, 0) && p.PairInv(ev, 0) && p.RequestInv(ev, 0)
    modifies p
    ensures |from| == |updates|
    ensures forall i :: 0 <= i < |updates| ==> Sound(ev, updates[i], from[i], p.start)
    ensures forall s: nat, d: nat, r: nat :: Due(ev, s, d, r, p.start) ==> Source(s, d, r) in from
    ensures forall i, j :: 0 <= i < j < |from| ==> from[i].response < from[j].response
  {
    hide Sound, Due;
    updates, from := [], [];
    var n := 0;
    while n < |ev|
      invariant n <= |ev| && p.SyncInv(ev, n) && p.PairInv(ev, n) && p.RequestInv(ev, n) && |from| == |updates|
      invariant forall i :: 0 <= i < |updates| ==> Sound(ev, updates[i], from[i], p.start)
      invariant forall s: nat, d: nat, r: nat :: Due(ev, s, d, r, p.start) && r < n ==> Source(s, d, r) in from
      invariant forall i :: 0 <= i < |from| ==> from[i].response < n
      invariant forall i, j :: 0 <= i < j < |from| ==> from[i].response < from[j].response
    {
      var u, g := One(p, ev, n);
      if u.Some? {
        forall s: nat, d: nat | Due(ev, s, d, n, p.start)
          ensures g == Source(s, d, n)
        {
          DueOnce(ev, u.value, g, s, d, p.start);
        }
        updates, from := updates + [u.value], from + [g];
      }
      n := n + 1;
    }
    forall s: nat, d: nat, r: nat | Due(ev, s, d, r, p.start)
      ensures r < |ev|
    {
      DueWithin(ev, s, d, r, p.start);
    }
  }

  method One(p: Port, ev: seq<Event>, n: nat) returns (update: Option<Update>, ghost g: Source)
    requires n < |ev| && p.SyncInv(ev, n) && p.PairInv(ev, n) && p.RequestInv(ev, n)
    modifies p
    ensures p.SyncInv(ev, n + 1) && p.PairInv(ev, n + 1) && p.RequestInv(ev, n + 1)
    ensures update.Some? ==> Sound(ev, update.value, g, p.start) && g.response == n
    ensures update.None? ==> forall s: nat, d: nat :: !Due(ev, s, d, n, p.start)
  {
    hide Sound, Ready, Open, T3, LastSeq;
    update, g := None, Source(0, 0, 0);
    if !ev[n].Request? { NoRequest(p, ev, n); }
    match ev[n]
    case Sync(_, _, _, _, _, _) => p.HandleSync(ev, n, ev[n]);
    case FollowUp(_, _, _, _) => p.HandleFollowUp(ev, n, ev[n]);
    case Request(_) =>
      NoSync(p, ev, n);
      CompletesOther(ev, n);
      p.PairKept(ev, n);
      p.IssueRequest(ev, n, ev[n]);
    case Response(_, _, _, _, _) =>
      NoSync(p, ev, n);
      update, g := p.HandleResponse(ev, n, ev[n]);
  }

  lemma DueWithin(ev: seq<Event>, s: nat, d: nat, r: nat, o: Start)
    requires Due(ev, s, d, r, o)
    ensures r < |ev|
  {
    hide Ready, T3, T4, LastSeq;
  }

  /** One response updates the servo at most once. */
  lemma DueOnce(ev: seq<Event>, u: Update, g: Source, s: nat, d: nat, o: Start)
    requires Sound(ev, u, g, o) && Due(ev, s, d, g.response, o)
    ensures g == Source(s, d, g.response)
  {
    assert g.done <= d && d <= g.done by { hide Completes, Answers, T3, T4; }
    CompletedOnce(ev, g.sync, s, d);
  }

  lemma CompletedOnce(ev: seq<Event>, s: nat, s': nat, d: nat)
    requires Completes(ev, s, d) && Completes(ev, s', d)
    ensures s == s'
  {
    hide Plus;
  }

  /** A Sync never feeds two updates: the Sync, and what completes it, of a later response are later
      ones, after the earlier response. */
  lemma SyncsAdvance(ev: seq<Event>, s: nat, d: nat, r: nat, s': nat, d': nat, r': nat, o: Start)
    requires Due(ev, s, d, r, o) && Due(ev, s', d', r', o) && r < r'
    ensures s < s' && d < r < d'
  {
    hide Plus, T3, T4, LastSeq;
    assert !(d' < r) by { assert Answers(ev, r, o); }
    assert d' != r;
    hide Ready;
    assert SyncAt(ev, s) && SyncAt(ev, s');
  }

  /** What an update tells the servo, by the stamps on the messages: the way there is the receipt of
      the Sync less its origin and all that was added on the way, the way back the receipt of the
      request less its sending, what was added and the asymmetry. */
  lemma UpdateMeasures(ev: seq<Event>, u: Update, g: Source, o: Start)
    requires Sound(ev, u, g, o)
    ensures var sync, done, r := ev[g.sync], ev[g.done], ev[g.response];
            && Value(u.t2) - Value(u.t1) == Value(sync.rcv) - Value(done.origin) - Value(sync.cField)
                                            - (if sync.twoStep then Value(done.cField) else 0)
            && Value(u.t4) - Value(u.t3) == Value(r.receive) - Value(r.cField) - Value(o.asym)
                                            - Value(T3(ev, g.response, o))
  {
    var sync, done, r := ev[g.sync], ev[g.done], ev[g.response];
    if sync.twoStep {
      PlusExact(sync.cField, done.origin);
      PlusExact(Plus(sync.cField, done.origin), done.cField);
    } else {
      PlusExact(sync.origin, sync.cField);
    }
    MinusExact(r.receive, r.cField);
    MinusExact(Minus(r.receive, r.cField), o.asym);
    hide Plus, Minus, Ready, T3;
  }

  // ----- in the order in which the messages come

  /** A two-step Sync of the master, its first Follow_Up and the next response to the last request,
      with no other Sync of the master up to it: if the stamps are correct, this is an update. */
  lemma TwoStepExchange(ev: seq<Event>, s: nat, d: nat, r: nat, o: Start)
    requires LastSync(ev, s, r) && ev[s].twoStep && s < d < r && Matches(ev, s, d)
    requires forall j :: s < j < d ==> !Matches(ev, s, j)
    requires Answers(ev, r, o) && forall j :: d < j < r ==> !Answers(ev, j, o)
    requires !Incorrect(T1(ev, s, d)) && !Incorrect(ev[s].rcv) && !Incorrect(T3(ev, r, o)) && !Incorrect(T4(ev, r, o))
    ensures Due(ev, s, d, r, o)
  {
    hide T1, T3, T4, LastSeq;
    assert LastSync(ev, s, d);
    forall s': nat, d': nat | Completes(ev, s', d') && d' < r
      ensures d' <= d
    {
      NoLaterPair(ev, s, d, r, s', d');
    }
  }

  lemma NoLaterPair(ev: seq<Event>, s: nat, d: nat, r: nat, s': nat, d': nat)
    requires LastSync(ev, s, r) && ev[s].twoStep && s < d < r && Matches(ev, s, d)
    requires Completes(ev, s', d') && d' < r
    ensures d' <= d
  {
    hide T1;
    assert !(s < s' < r);
  }

  /** A one-step Sync of the master and the next response to the last request. */
  lemma OneStepExchange(ev: seq<Event>, s: nat, r: nat, o: Start)
    requires LastSync(ev, s, r) && !ev[s].twoStep
    requires Answers(ev, r, o) && forall j :: s < j < r ==> !Answers(ev, j, o)
    requires !Incorrect(T1(ev, s, s)) && !Incorrect(ev[s].rcv) && !Incorrect(T3(ev, r, o)) && !Incorrect(T4(ev, r, o))
    ensures Due(ev, s, s, r, o)
  {
    hide T1, T3, T4, LastSeq;
    forall s': nat, d': nat | Completes(ev, s', d') && d' < r
      ensures d' <= s
    {
      assert !(s < s' < r);
      assert s' < s < d' ==> SyncAt(ev, s);
    }
  }

  /** The last request before n. */
  ghost predicate LastRequest(ev: seq<Event>, q: nat, n: nat) {
    q < n <= |ev| && ev[q].Request? && forall j :: q < j < n ==> !ev[j].Request?
  }

  /** t3 is the stamp of the last request before the response exactly if there was one; else it is
      what t3 was at first. */
  lemma {:induction false} AskedExactly(ev: seq<Event>, n: nat, o: Start) returns (q: Option<nat>)
    requires n <= |ev|
    ensures q.None? <==> forall i :: 0 <= i < n ==> !ev[i].Request?
    ensures q.Some? ==> LastRequest(ev, q.value, n)
    ensures T3(ev, n, o) == if q.Some? then ev[q.value].snt else o.sentAt
  {
    if n == 0 {
      q := None;
    } else if ev[n - 1].Request? {
      q := Some(n - 1);
    } else {
      q := AskedExactly(ev, n - 1, o);
    }
  }

  /** Without a request the rule fails: a response with the number that the port starts from is
      taken, and t3 is no stamp of a request. */
  method UnaskedResponse(sync: Event, response: Event, start: Start) returns (u: Update)
    requires sync.Sync? && sync.fromMaster && !sync.twoStep
    requires response.Response? && response.fromMaster && response.mine && response.seqId == start.sent
    requires !Incorrect(Plus(sync.origin, sync.cField)) && !Incorrect(sync.rcv) && !Incorrect(start.sentAt)
    requires !Incorrect(Minus(Minus(response.receive, response.cField), start.asym))
    ensures u.t3 == start.sentAt
    ensures Sound([sync, response], u, Source(0, 0, 1), start)
  {
    hide Plus, Minus, Ready, Open;
    ghost var ev := [sync, response];
    var p := new Port(start);
    assert p.SyncInv(ev, 0) && p.PairInv(ev, 0) && p.RequestInv(ev, 0);
    p.HandleSync(ev, 0, sync);
    NoRequest(p, ev, 0);
    var update, g := p.HandleResponse(ev, 1, response);
    u := update.value;
    OneStepDue(sync, response, start);
    DueOnce(ev, u, g, 0, 0, start);
  }

  lemma OneStepDue(sync: Event, response: Event, start: Start)
    requires sync.Sync? && sync.fromMaster && !sync.twoStep
    requires response.Response? && response.fromMaster && response.mine && response.seqId == start.sent
    requires !Incorrect(Plus(sync.origin, sync.cField)) && !Incorrect(sync.rcv) && !Incorrect(start.sentAt)
    requires !Incorrect(Minus(Minus(response.receive, response.cField), start.asym))
    ensures Due([sync, response], 0, 0, 1, start)
  {
    hide Plus, Minus;
    var ev := [sync, response];
    assert ev[0] == sync && ev[1] == response;
    assert Requests(ev, 0) == 0 && T3(ev, 0, start) == start.sentAt;
    assert Requests(ev, 1) == 0 && T3(ev, 1, start) == start.sentAt;
    assert LastSync(ev, 0, 1);
    OneStepExchange(ev, 0, 1, start);
  }
}
