/** The simulator's clockwork: sending, moving on to the next arrival or timeout, receiving, and
    the main loop around them. */
module SimSchedule {
  import opened SimQueue
  import opened SimSockets

  // ----- the order of arrival

  function Put(s: seq<nat>, k: nat, x: nat): (r: seq<nat>)
    requires k <= |s|
  {
    s[..k] + [x] + s[k..]
  }

  lemma PutKeepsOrder(s: seq<nat>, k: nat, x: nat, a: nat, b: nat)
    requires k <= |s| && Before(s, a, b)
    ensures Before(Put(s, k, x), a, b)
  {
    var i, j :| 0 <= i < j < |s| && s[i] == a && s[j] == b;
    var r := Put(s, k, x);
    assert r[if i < k then i else i + 1] == a && r[if j < k then j else j + 1] == b;
  }

  lemma PutDistinct(s: seq<nat>, k: nat, x: nat)
    requires k <= |s| && Distinct(s) && forall i :: 0 <= i < |s| ==> s[i] < x
    ensures Distinct(Put(s, k, x)) && forall i :: 0 <= i < |Put(s, k, x)| ==> Put(s, k, x)[i] < x + 1
  {
  }

  /** Arrived packets followed by those in flight: an insertion happens in the second part. */
  lemma {:induction false} PutInFlight(arrived: seq<nat>, s: seq<Pkt>, k: nat, p: Pkt)
    requires k <= |s|
    ensures arrived + Ids(Inserted(s, k, p)) == Put(arrived + Ids(s), |arrived| + k, p.id)
  {
    IdsInserted(s, k, p);
    PutBehind(arrived, Ids(s), k, p.id);
  }

  lemma {:induction false} IdsInserted(s: seq<Pkt>, k: nat, p: Pkt)
    requires k <= |s|
    ensures Ids(Inserted(s, k, p)) == Put(Ids(s), k, p.id)
  {
    hide Ids;
    var r, t := Inserted(s, k, p), Ids(s);
    forall i | 0 <= i < |r|
      ensures r[i].id == Put(t, k, p.id)[i]
    {
      if i < k { assert r[i] == s[i]; } else if i > k { assert r[i] == s[i - 1]; }
    }
  }

  lemma PutBehind(a: seq<nat>, s: seq<nat>, k: nat, x: nat)
    requires k <= |s|
    ensures a + Put(s, k, x) == Put(a + s, |a| + k, x)
  {
    assert (a + s)[..|a| + k] == a + s[..k] && (a + s)[|a| + k..] == s[k..];
  }

  lemma HeadArrives(arrived: seq<nat>, s: seq<Pkt>)
    requires s != []
    ensures arrived + Ids(s) == (arrived + [s[0].id]) + Ids(s[1..])
  {
  }

  /** What a state machine does in one call: a Sync with its Follow_Up, or any other message,
      with the jitters drawn, and the time after which it wants to be called again. */
  datatype Send =
    | SyncFollowUp(fromMaster: bool, syncJit: nat, followJit: nat)
    | Other(fromMaster: bool, chtype: int, jit: nat)

  datatype Reply = Reply(sends: seq<Send>, delayMs: nat)

  /** No packet has longer to go than a packet sent now without jitter. */
  predicate WithinProp(s: seq<Pkt>, masterProp: int, slaveProp: int) {
    forall i :: 0 <= i < |s| ==> s[i].delayNs <= (if s[i].which == SLAVE then masterProp else slaveProp)
  }

  class Sim {
    const q: Queue
    var updates: bool
    var masterProp: nat
    var slaveProp: nat
    var nextId: nat
    var sockets: Sockets
    ghost var arrived: seq<nat>
    ghost var read: seq<nat>
    ghost var syncOf: map<nat, nat>
    ghost var elapsedNs: int

    ghost function Order(): (r: seq<nat>)
      reads this, q, q.pending
      requires q.nPending <= q.pending.Length
    {
      arrived + Ids(q.Flight())
    }

    /** In order and not late; every Sync comes before its Follow_Up, arrived or in flight. */
    ghost predicate Valid()
      reads this, q, q.pending
    {
      && q.Valid() && NoneBefore(q.Flight(), 0)
      && Served(q.Flight(), sockets)
      && Distinct(Order()) && (forall i :: 0 <= i < |Order()| ==> Order()[i] < nextId)
      && forall f :: f in syncOf ==> Before(Order(), syncOf[f], f)
    }

    /** What was read is what arrived, and so it will be for the packets in flight. */
    ghost predicate Calm()
      reads this, q, q.pending
      requires q.nPending <= q.pending.Length
    {
      read == arrived && Aligned(q.Flight(), sockets) && WithinProp(q.Flight(), masterProp, slaveProp)
    }

    constructor (runtimeUpdates: bool, toSlave: nat, toMaster: nat)
      ensures Valid() && Calm() && arrived == [] && syncOf == map[] && fresh(q) && fresh(q.pending)
      ensures updates == runtimeUpdates
    {
      q := new Queue();
      updates, masterProp, slaveProp, nextId, sockets := runtimeUpdates, toSlave, toMaster, 0, map[];
      arrived, read, syncOf, elapsedNs := [], [], map[], 0;
    }

    /** The end of sim_net_send */
    method SendPkt(fromMaster: bool, chtype: int, jit: nat, below: Pkt) returns (p: Pkt, ghost k: nat)
      requires Valid() && q.nPending < CAPACITY - 1
      modifies this`nextId, this`sockets, q`nPending, q.pending
      ensures Valid() && q.nPending == old(q.nPending) + 1 && nextId == old(nextId) + 1
      ensures p == Pkt((if fromMaster then masterProp else slaveProp) + jit,
                       if fromMaster then SLAVE else MASTER, chtype, old(nextId))
      ensures Place(old(q.Flight()), k, p) && q.Flight() == Inserted(old(q.Flight()), k, p)
      ensures sockets == Sent(old(sockets), ChannelOf(p), p.id)
      ensures old(Calm()) && jit == 0 ==> Calm()
    {
      hide Less, Sorted, Place, Before, Distinct, Put, Ids, Served, Aligned, Inserted, WithinProp;
      ghost var s, o := q.Flight(), Order();
      p := Pkt((if fromMaster then masterProp else slaveProp) + jit,
               if fromMaster then SLAVE else MASTER, chtype, nextId);
      nextId := nextId + 1;
      sockets := Sent(sockets, ChannelOf(p), p.id);
      k := q.Insert(p, below);
      SentServes(s, old(sockets), k, p);
      InsertedNoneBefore(s, k, p);
      if WithinProp(s, masterProp, slaveProp) && jit == 0 {
        LastOfChannel(s, k, p, masterProp, slaveProp);
      }
      PutInFlight(arrived, s, k, p);
      PutDistinct(o, |arrived| + k, p.id);
      forall f | f in syncOf
        ensures Before(Order(), syncOf[f], f)
      {
        PutKeepsOrder(o, |arrived| + k, p.id, syncOf[f], f);
      }
    }

    /** Sync and Follow_Up in one cycle: the second has the jitter of the first on top. */
    method SendPair(fromMaster: bool, syncJit: nat, followJit: nat, below: Pkt)
      requires Valid() && q.nPending < CAPACITY - 2
      modifies this`nextId, this`sockets, this`syncOf, q`nPending, q.pending
      ensures Valid() && q.nPending == old(q.nPending) + 2
      ensures syncOf == old(syncOf)[old(nextId) + 1 := old(nextId)]
      ensures old(Calm()) && syncJit == 0 == followJit ==> Calm()
    {
      hide Sorted, Before, Distinct, Put, Ids, Served, Aligned, WithinProp;
      var sync, k := SendPkt(fromMaster, EVT, syncJit, below);
      ghost var s := q.Flight();
      assert s[k] == sync;
      var follow, l := SendPkt(fromMaster, GEN, syncJit + followJit, below);
      assert k < l by { assert !Less(follow, s[k]); }
      assert q.Flight()[k] == sync && q.Flight()[l] == follow;
      InOrder(arrived, q.Flight(), k, l);
      syncOf := syncOf[follow.id := sync.id];
    }

    /** sim_fast_forward_ns: moving to no later than the first arrival never ends the simulation. */
    method Forward(ffNs: int) returns (exited: bool)
      requires Valid() && NoneBefore(q.Flight(), ffNs)
      modifies this`masterProp, this`slaveProp, this`elapsedNs, q.pending
      ensures elapsedNs == old(elapsedNs) + ffNs
      ensures !exited && Valid() && Order() == old(Order())
      ensures q.Flight() == Moved(old(q.Flight()), Bump(updates) - ffNs)
      ensures masterProp == old(masterProp) + Bump(updates) && slaveProp == old(slaveProp) + Bump(updates)
      ensures old(Calm()) && ffNs >= 0 ==> Calm()
    {
      hide Sorted, Before, Distinct, Ids, Moved, Less, Served, Aligned;
      if updates {
        masterProp, slaveProp := masterProp + RUNTIME_UPDATE_NS, slaveProp + RUNTIME_UPDATE_NS;
      }
      exited := q.FastForward(ffNs, updates);
      elapsedNs := elapsedNs + ffNs;
      MovedSorted(old(q.Flight()), Bump(updates) - ffNs);
      MovedServes(old(q.Flight()), sockets, Bump(updates) - ffNs);
    }

    /** The first packet is received; it was the next in order. What is read is the oldest message
        in the socket it came on. */
    method Receive()
      requires Valid() && q.nPending > 0
      modifies this`arrived, this`read, this`sockets, q`nPending, q.pending
      ensures Valid() && Order() == old(Order()) && q.nPending == old(q.nPending) - 1
      ensures arrived == old(arrived) + [old(q.pending[0]).id]
      ensures var waiting := Queued(old(sockets), ChannelOf(old(q.pending[0])));
              waiting != [] && read == old(read) + [waiting[0]]
      ensures old(Calm()) ==> Calm()
    {
      hide Sorted, Before, Distinct, Less, Served, Aligned, NoneBefore, WithinProp, Ids;
      ghost var s := q.Flight();
      var c := ChannelOf(q.pending[0]);
      assert q.pending[0] == s[0];
      TakenServes(s, sockets);
      TailKeeps(s, masterProp, slaveProp);
      HeadArrives(arrived, s);
      arrived, read := arrived + [q.pending[0].id], read + [Queued(sockets, c)[0]];
      sockets := Taken(sockets, c);
      q.Pop();
    }

    /** A call of the state machine sends what it sends, as long as there is room. */
    method Call(sends: seq<Send>, below: Pkt) returns (full: bool)
      requires Valid()
      modifies this`nextId, this`sockets, this`syncOf, q`nPending, q.pending
      ensures Valid()
      ensures old(Calm()) && NoJitter(sends) ==> Calm()
    {
      hide Sorted, Before, Distinct, Less, Ids, Served, Aligned, WithinProp;
      full := false;
      for i := 0 to |sends|
        invariant Valid()
        invariant old(Calm()) && NoJitter(sends) ==> Calm()
      {
        match sends[i]
        case SyncFollowUp(fromMaster, syncJit, followJit) =>
          if q.nPending >= CAPACITY - 2 {
            return true;
          }
          SendPair(fromMaster, syncJit, followJit, below);
        case Other(fromMaster, chtype, jit) =>
          if q.nPending >= CAPACITY - 1 {
            return true;
          }
          var _, _ := SendPkt(fromMaster, chtype, jit, below);
      }
    }
  }

  predicate NoJitter(sends: seq<Send>) {
    forall i :: 0 <= i < |sends| ==>
      match sends[i]
      case SyncFollowUp(_, syncJit, followJit) => syncJit == 0 == followJit
      case Other(_, _, jit) => jit == 0
  }

  lemma TailKeeps(s: seq<Pkt>, masterProp: int, slaveProp: int)
    requires s != []
    ensures NoneBefore(s, 0) ==> NoneBefore(s[1..], 0)
    ensures WithinProp(s, masterProp, slaveProp) ==> WithinProp(s[1..], masterProp, slaveProp)
  {
  }

  lemma InsertedNoneBefore(s: seq<Pkt>, k: nat, p: Pkt)
    requires k <= |s| && NoneBefore(s, 0) && p.delayNs >= 0
    ensures NoneBefore(Inserted(s, k, p), 0)
  {
  }

  /** Without jitter a packet goes behind all others of its channel. */
  lemma LastOfChannel(s: seq<Pkt>, k: nat, p: Pkt, masterProp: int, slaveProp: int)
    requires Place(s, k, p) && WithinProp(s, masterProp, slaveProp)
    requires p.delayNs == if p.which == SLAVE then masterProp else slaveProp
    ensures Due(s[k..], ChannelOf(p)) == [] && WithinProp(Inserted(s, k, p), masterProp, slaveProp)
  {
    forall i | 0 <= i < |s[k..]|
      ensures ChannelOf(s[k..][i]) != ChannelOf(p)
    {
      assert Less(p, s[k + i]);
    }
    NoneOfChannel(s[k..], ChannelOf(p));
  }

  lemma {:induction false} NoneOfChannel(s: seq<Pkt>, c: Channel)
    requires forall i :: 0 <= i < |s| ==> ChannelOf(s[i]) != c
    ensures Due(s, c) == []
  {
    if s != [] { NoneOfChannel(s[..|s| - 1], c); }
  }

  lemma InOrder(arrived: seq<nat>, s: seq<Pkt>, k: nat, l: nat)
    requires k < l < |s|
    ensures Before(arrived + Ids(s), s[k].id, s[l].id)
  {
    hide Ids;
    var o := arrived + Ids(s);
    assert o[|arrived| + k] == s[k].id && o[|arrived| + l] == s[l].id;
  }

  /** The first in a sorted flight is the earliest. */
  lemma FirstIsEarliest(s: seq<Pkt>, ns: int)
    requires Sorted(s) && (s != [] ==> s[0].delayNs >= ns)
    ensures NoneBefore(s, ns)
  {
    forall i | 0 < i < |s|
      ensures s[i].delayNs >= ns
    {
      assert !Less(s[i], s[0]);
    }
  }

  /** sim_main_loop, over what the state machines reply, as long as fewer than 64 packets are in
      flight: it is never ended by a late packet, and no Follow_Up arrives before its Sync. Without
      jitter and without growing delays the messages are read in this order as well. */
  method MainLoop(sim: Sim, replies: seq<Reply>, below: Pkt) returns (exited: bool)
    requires sim.Valid()
    modifies sim, sim.q, sim.q.pending
    ensures !exited && sim.Valid()
    ensures InSequence(sim.arrived, sim.syncOf)
    ensures old(sim.Calm()) && !old(sim.updates) && (forall i :: 0 <= i < |replies| ==> NoJitter(replies[i].sends)) ==>
              sim.read == sim.arrived && InSequence(sim.read, sim.syncOf)
  {
    hide Less, Sorted, Before, Distinct, Ids, Moved, Served, NoJitter, NoneBefore, Aligned, WithinProp;
    exited := false;
    if replies == [] {
      ArrivedInSequence(sim.arrived, Ids(sim.q.Flight()), sim.syncOf);
      return;
    }
    ghost var calm := sim.Calm() && !sim.updates && forall i :: 0 <= i < |replies| ==> NoJitter(replies[i].sends);
    var full := sim.Call(replies[0].sends, below);
    var delayNs: int := 1000 * 1000 * replies[0].delayMs;
    var r := 1;
    while r < |replies| && !full
      invariant r <= |replies| && sim.Valid() && (calm ==> sim.Calm() && !sim.updates && delayNs >= 0)
      decreases |replies| - r
    {
      // Packets that come before the state machines' timeout, or else the timeout.
      if sim.q.nPending > 0 && sim.q.pending[0].delayNs <= delayNs {
        full, delayNs := Arrival(sim, replies[r], delayNs, below);
      } else {
        exited, full, delayNs := Timeout(sim, replies[r], delayNs, below);
      }
      r := r + 1;
    }
    ArrivedInSequence(sim.arrived, Ids(sim.q.Flight()), sim.syncOf);
  }

  /** The body of the inner loop. */
  method Arrival(sim: Sim, reply: Reply, delayNs: int, below: Pkt) returns (full: bool, leftNs: int)
    requires sim.Valid() && sim.q.nPending > 0
    modifies sim, sim.q, sim.q.pending
    ensures sim.Valid() && sim.updates == old(sim.updates)
    ensures old(sim.Calm()) && NoJitter(reply.sends) ==> sim.Calm()
    ensures var wishNs, restNs := 1000 * 1000 * reply.delayMs, delayNs - Bump(sim.updates);
            leftNs == if wishNs < restNs then wishNs else restNs
    ensures sim.elapsedNs == old(sim.elapsedNs) + old(sim.q.pending[0]).delayNs
  {
    hide Less, Sorted, Before, Distinct, Ids, Served, NoJitter, NoneBefore, Aligned, WithinProp;
    var head := Next(sim);
    leftNs := delayNs - head;
    full := sim.Call(reply.sends, below);
    var tmpNs := 1000 * 1000 * reply.delayMs;
    if tmpNs < leftNs {
      leftNs := tmpNs;
    }
  }

  /** What the outer loop does when no packet comes in time. */
  method Timeout(sim: Sim, reply: Reply, delayNs: int, below: Pkt) returns (exited: bool, full: bool, leftNs: int)
    requires sim.Valid() && (sim.q.nPending > 0 ==> sim.q.pending[0].delayNs > delayNs)
    modifies sim, sim.q, sim.q.pending
    ensures !exited && sim.Valid() && sim.updates == old(sim.updates) && leftNs == 1000 * 1000 * reply.delayMs
    ensures sim.elapsedNs == old(sim.elapsedNs) + delayNs
    ensures old(sim.Calm()) && delayNs >= 0 && NoJitter(reply.sends) ==> sim.Calm()
  {
    hide Less, Sorted, Before, Distinct, Ids, Served, NoJitter, NoneBefore, Aligned, WithinProp, Moved;
    FirstIsEarliest(sim.q.Flight(), delayNs);
    exited := sim.Forward(delayNs);
    full := sim.Call(reply.sends, below);
    leftNs := 1000 * 1000 * reply.delayMs;
  }

  /** Time moves on to the first arrival, and the packet is received. The delay that is left of it
      afterwards, which the main loop subtracts, is what the delays grew by. */
  method Next(sim: Sim) returns (left: int)
    requires sim.Valid() && sim.q.nPending > 0
    modifies sim, sim.q, sim.q.pending
    ensures sim.Valid() && sim.updates == old(sim.updates) && sim.Order() == old(sim.Order())
    ensures left == Bump(sim.updates) && sim.arrived == old(sim.arrived) + [old(sim.q.pending[0]).id]
    ensures sim.elapsedNs == old(sim.elapsedNs) + old(sim.q.pending[0]).delayNs
    ensures old(sim.Calm()) ==> sim.Calm()
  {
    hide Less, Sorted, Before, Distinct, Ids, Served, Aligned, WithinProp, Moved;
    FirstIsEarliest(sim.q.Flight(), sim.q.pending[0].delayNs);
    assert sim.q.pending[0] == sim.q.Flight()[0] && sim.q.pending[0].delayNs >= 0;
    var exited := sim.Forward(sim.q.pending[0].delayNs);
    assert !exited && sim.q.pending[0] == sim.q.Flight()[0];
    left := sim.q.pending[0].delayNs;
    sim.Receive();
  }

  /** Every Follow_Up that has arrived did so after its Sync. */
  ghost predicate InSequence(arrived: seq<nat>, syncOf: map<nat, nat>) {
    forall j :: 0 <= j < |arrived| && arrived[j] in syncOf ==> syncOf[arrived[j]] in arrived[..j]
  }

  lemma ArrivedInSequence(arrived: seq<nat>, flight: seq<nat>, syncOf: map<nat, nat>)
    requires Distinct(arrived + flight) && forall f :: f in syncOf ==> Before(arrived + flight, syncOf[f], f)
    ensures InSequence(arrived, syncOf)
  {
    var o := arrived + flight;
    forall j | 0 <= j < |arrived| && arrived[j] in syncOf
      ensures syncOf[arrived[j]] in arrived[..j]
    {
      var f := arrived[j];
      assert Before(o, syncOf[f], f);
      var i, l :| 0 <= i < l < |o| && o[i] == syncOf[f] && o[l] == f;
      assert o[j] == f;
      assert l == j;
      assert arrived[..j][i] == syncOf[f];
    }
  }

  // ----- what the packets hold

  /** Sync, Follow_Up and Announce put in among packets: what is due on a channel before the Sync. */
  lemma DueBeforeSync(s: seq<Pkt>, a: nat, sync: Pkt, b: nat, follow: Pkt, c: nat, announce: Pkt, ch: Channel)
    requires a <= |s| && a < b <= |s| + 1 && c <= |s| + 2
    ensures var t := Inserted(Inserted(Inserted(s, a, sync), b, follow), c, announce);
            var p := if c <= a then a + 1 else a;
            && |t| == |s| + 3 && t[p] == sync
            && |Due(t[..p], ch)| == |Due(s[..a], ch)| + (if c <= a && ChannelOf(announce) == ch then 1 else 0)
  {
    hide Due;
    var t := Inserted(Inserted(Inserted(s, a, sync), b, follow), c, announce);
    if c <= a {
      assert t[..a + 1] == Inserted(s[..a], c, announce);
      DueInserted(s[..a], c, announce, ch);
      DueSplit(s[..a], c, ch);
    } else {
      assert t[..a] == s[..a];
    }
  }

  /** Where the three come to lie. */
  lemma Places(s: seq<Pkt>, a: nat, sync: Pkt, b: nat, follow: Pkt, c: nat, announce: Pkt)
    requires Place(s, a, sync) && Place(Inserted(s, a, sync), b, follow)
    requires Place(Inserted(Inserted(s, a, sync), b, follow), c, announce)
    requires ChannelOf(sync) == SYNCS && ChannelOf(follow) == GENERAL == ChannelOf(announce)
    requires sync.delayNs <= follow.delayNs
    ensures a < b <= |s| + 1 && c <= |s| + 2
    ensures c <= a <==> announce.delayNs < sync.delayNs
  {
    var s1 := Inserted(s, a, sync);
    assert s1[a] == sync && !Less(follow, sync);
    var s2 := Inserted(s1, b, follow);
    assert s2[a] == sync;
  }

  lemma BehindSync(s: seq<Pkt>, a: nat, sync: Pkt)
    requires Place(s, a, sync)
    ensures Due(s[a..], GENERAL) == [] <==> NoneAfter(s, GENERAL, sync)
  {
    hide Due, Less;
    NothingBehind(s[a..], GENERAL);
    assert forall i :: a <= i < |s| ==> s[a..][i - a] == s[i];
    if forall i :: 0 <= i < |s[a..]| ==> ChannelOf(s[a..][i]) != GENERAL {
      assert forall i :: a <= i < |s| ==> ChannelOf(s[i]) != GENERAL;
    }
  }

  /** Nothing on a channel from a place on. */
  lemma {:induction false} NothingBehind(s: seq<Pkt>, c: Channel)
    ensures Due(s, c) == [] <==> forall i :: 0 <= i < |s| ==> ChannelOf(s[i]) != c
  {
    if forall i :: 0 <= i < |s| ==> ChannelOf(s[i]) != c {
      NoneOfChannel(s, c);
    } else {
      var i :| 0 <= i < |s| && ChannelOf(s[i]) == c;
      DueSplit(s, i, c);
      DueHead(s[i..], c);
    }
  }

  const SYNCS := Channel(SLAVE, EVT)
  const GENERAL := Channel(SLAVE, GEN)

  /** One cycle of a master sends Sync, Follow_Up and Announce into whatever is in flight, and no
      older Sync is. The packets are in order, and yet the slave reads the Follow_Up first, if
      nothing more is sent, exactly if the Announce drew a smaller jitter than the Sync and no
      older general message is due after the Sync. p and q are the arrivals that bring them. */
  method MasterCycle(sim: Sim, syncJit: nat, followJit: nat, announceJit: nat, below: Pkt)
    returns (ghost p: nat, ghost q: nat)
    requires sim.Valid() && sim.q.nPending < CAPACITY - 3 && Due(sim.q.Flight(), SYNCS) == []
    modifies sim, sim.q, sim.q.pending
    ensures sim.Valid()
    ensures var r := ReadOrder(sim.q.Flight(), sim.sockets);
            p < |r| && q < |r| && r[p] == old(sim.nextId) && r[q] == old(sim.nextId) + 1
    ensures var sync := Pkt(old(sim.masterProp) + syncJit, SLAVE, EVT, old(sim.nextId));
            q < p <==> announceJit < syncJit && NoneAfter(old(sim.q.Flight()), GENERAL, sync)
  {
    hide Sorted, Before, Distinct, Ids, Served, Due, Inserted, ReadOrder, Place, Less;
    ghost var s, m := sim.q.Flight(), sim.sockets;
    var sync, a := sim.SendPkt(true, EVT, syncJit, below);
    ghost var s1 := sim.q.Flight();
    var follow, b := sim.SendPkt(true, GEN, syncJit + followJit, below);
    ghost var s2 := sim.q.Flight();
    var announce, c := sim.SendPkt(true, GEN, announceJit, below);
    p, q := CycleReads(s, m, a, sync, b, follow, c, announce);
  }

  /** No packet of a channel is due after another one. */
  ghost predicate NoneAfter(s: seq<Pkt>, c: Channel, p: Pkt) {
    forall i :: 0 <= i < |s| && ChannelOf(s[i]) == c ==> !Less(p, s[i])
  }

  lemma CycleReads(s: seq<Pkt>, m: Sockets, a: nat, sync: Pkt, b: nat, follow: Pkt, c: nat, announce: Pkt)
    returns (p: nat, q: nat)
    requires Served(s, m) && Due(s, SYNCS) == [] && Place(s, a, sync)
    requires Place(Inserted(s, a, sync), b, follow)
    requires Place(Inserted(Inserted(s, a, sync), b, follow), c, announce)
    requires ChannelOf(sync) == SYNCS && ChannelOf(follow) == GENERAL == ChannelOf(announce)
    requires sync.delayNs <= follow.delayNs
    ensures var t := Inserted(Inserted(Inserted(s, a, sync), b, follow), c, announce);
            var n := Sent(Sent(Sent(m, SYNCS, sync.id), GENERAL, follow.id), GENERAL, announce.id);
            && Served(t, n) && p < |t| && q < |t| && |ReadOrder(t, n)| == |t|
            && ReadOrder(t, n)[p] == sync.id && ReadOrder(t, n)[q] == follow.id
            && (q < p <==> announce.delayNs < sync.delayNs && NoneAfter(s, GENERAL, sync))
  {
    hide Due, Served, ReadOrder, Inserted, Place, NoneAfter, Less;
    Places(s, a, sync, b, follow, c, announce);
    var s1 := Inserted(s, a, sync);
    var s2 := Inserted(s1, b, follow);
    var t := Inserted(s2, c, announce);
    var m1 := Sent(m, SYNCS, sync.id);
    var m2 := Sent(m1, GENERAL, follow.id);
    var n := Sent(m2, GENERAL, announce.id);
    SentServes(s, m, a, sync);
    SentServes(s1, m1, b, follow);
    SentServes(s2, m2, c, announce);
    var g := |Due(s, GENERAL)|;
    p := if c <= a then a + 1 else a;
    DueBeforeSync(s, a, sync, b, follow, c, announce, GENERAL);
    DueBeforeSync(s, a, sync, b, follow, c, announce, SYNCS);
    DueSplit(s, a, SYNCS);
    // The Sync is the only message in its socket, the Follow_Up has the older ones before it.
    ServedCount(s, m, SYNCS);
    ServedCount(s, m, GENERAL);
    ServedCount(t, n, GENERAL);
    assert Queued(n, SYNCS) == [sync.id] && Queued(n, GENERAL) == Queued(m, GENERAL) + [follow.id] + [announce.id];
    ReadAt(t, n, p);
    q := SomeBrings(t, GENERAL, g);
    ReadAt(t, n, q);
    ReadBeforeExactly(t, GENERAL, g, q, p);
    DueSplit(s, a, GENERAL);
    BehindSync(s, a, sync);
  }
}
