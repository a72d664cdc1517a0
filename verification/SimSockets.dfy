/** The sockets under the simulator: one per receiver and channel, which hand out messages in the
    order of sending, whatever packet is due. */
module SimSockets {
  import opened SimQueue

  datatype Channel = Channel(which: int, chtype: int)

  type Sockets = map<Channel, seq<nat>>

  function ChannelOf(p: Pkt): (c: Channel)
  {
    Channel(p.which, p.chtype)
  }

  /** The messages that wait in a socket, oldest first. */
  function Queued(m: Sockets, c: Channel): (q: seq<nat>)
  {
    if c in m then m[c] else []
  }

  /** The packets due on a channel, in their order. */
  function Due(s: seq<Pkt>, c: Channel): (r: seq<nat>)
  {
    if s == [] then []
    else Due(s[..|s| - 1], c) + if ChannelOf(s[|s| - 1]) == c then [s[|s| - 1].id] else []
  }

  lemma {:induction false} DueOfBoth(s: seq<Pkt>, t: seq<Pkt>, c: Channel)
    ensures Due(s + t, c) == Due(s, c) + Due(t, c)
    decreases |t|
  {
    if t == [] {
      assert s + t == s;
    } else {
      var k := |t| - 1;
      assert (s + t)[..|s + t| - 1] == s + t[..k];
      DueOfBoth(s, t[..k], c);
    }
  }

  lemma DueOfOne(p: Pkt, c: Channel)
    ensures Due([p], c) == if ChannelOf(p) == c then [p.id] else []
  {
    assert [p][..0] == [];
  }

  lemma DueSplit(s: seq<Pkt>, k: nat, c: Channel)
    requires k <= |s|
    ensures Due(s, c) == Due(s[..k], c) + Due(s[k..], c)
  {
    assert s == s[..k] + s[k..];
    DueOfBoth(s[..k], s[k..], c);
  }

  lemma DueHead(s: seq<Pkt>, c: Channel)
    requires s != []
    ensures Due(s, c) == (if ChannelOf(s[0]) == c then [s[0].id] else []) + Due(s[1..], c)
  {
    DueSplit(s, 1, c);
    assert s[..1] == [s[0]];
    DueOfOne(s[0], c);
  }

  lemma DueInserted(s: seq<Pkt>, k: nat, p: Pkt, c: Channel)
    requires k <= |s|
    ensures Due(Inserted(s, k, p), c) ==
            Due(s[..k], c) + (if ChannelOf(p) == c then [p.id] else []) + Due(s[k..], c)
  {
    DueOfBoth(s[..k] + [p], s[k..], c);
    DueOfBoth(s[..k], [p], c);
    DueOfOne(p, c);
  }

  lemma {:induction false} DueMoved(s: seq<Pkt>, d: int, c: Channel)
    ensures Due(Moved(s, d), c) == Due(s, c)
  {
    if s != [] {
      var k := |s| - 1;
      DueMoved(s[..k], d, c);
      assert Moved(s, d)[..k] == Moved(s[..k], d);
    }
  }

  /** Every socket holds as many messages as packets are due on it. */
  ghost predicate Served(s: seq<Pkt>, m: Sockets) {
    forall c :: |Queued(m, c)| == |Due(s, c)|
  }

  lemma ServedCount(s: seq<Pkt>, m: Sockets, c: Channel)
    requires Served(s, m)
    ensures |Queued(m, c)| == |Due(s, c)|
  {
  }

  /** Every socket holds the messages of the packets that are due, in the same order. */
  ghost predicate Aligned(s: seq<Pkt>, m: Sockets) {
    forall c :: Queued(m, c) == Due(s, c)
  }

  function Sent(m: Sockets, c: Channel, id: nat): (r: Sockets)
  {
    m[c := Queued(m, c) + [id]]
  }

  function Taken(m: Sockets, c: Channel): (r: Sockets)
    requires Queued(m, c) != []
  {
    m[c := Queued(m, c)[1..]]
  }

  lemma SentServes(s: seq<Pkt>, m: Sockets, k: nat, p: Pkt)
    requires k <= |s| && Served(s, m)
    ensures Served(Inserted(s, k, p), Sent(m, ChannelOf(p), p.id))
    ensures Aligned(s, m) && Due(s[k..], ChannelOf(p)) == [] ==>
              Aligned(Inserted(s, k, p), Sent(m, ChannelOf(p), p.id))
  {
    hide Due, Inserted;
    var t, n := Inserted(s, k, p), Sent(m, ChannelOf(p), p.id);
    forall c
      ensures |Queued(n, c)| == |Due(t, c)|
      ensures Queued(m, c) == Due(s, c) && Due(s[k..], ChannelOf(p)) == [] ==> Queued(n, c) == Due(t, c)
    {
      DueInserted(s, k, p, c);
      DueSplit(s, k, c);
      assert |Queued(m, c)| == |Due(s, c)|;
    }
  }

  /** The packet that is due brings what its socket holds first. */
  lemma TakenServes(s: seq<Pkt>, m: Sockets)
    requires s != [] && Served(s, m)
    ensures var c := ChannelOf(s[0]);
            && Queued(m, c) != [] && Served(s[1..], Taken(m, c))
            && (Aligned(s, m) ==> Queued(m, c)[0] == s[0].id && Aligned(s[1..], Taken(m, c)))
  {
    hide Due;
    var c0 := ChannelOf(s[0]);
    DueHead(s, c0);
    assert |Queued(m, c0)| == |Due(s, c0)|;
    forall c
      ensures |Queued(Taken(m, c0), c)| == |Due(s[1..], c)|
      ensures Queued(m, c) == Due(s, c) ==> Queued(Taken(m, c0), c) == Due(s[1..], c)
    {
      DueHead(s, c);
      assert |Queued(m, c)| == |Due(s, c)|;
    }
  }

  lemma MovedServes(s: seq<Pkt>, m: Sockets, d: int)
    requires Served(s, m)
    ensures Served(Moved(s, d), m) && (Aligned(s, m) ==> Aligned(Moved(s, d), m))
  {
    hide Due, Moved;
    forall c
      ensures Due(Moved(s, d), c) == Due(s, c)
    {
      DueMoved(s, d, c);
    }
  }

  /** What is read while the packets in flight arrive one after the other, if nothing is sent. */
  function ReadOrder(s: seq<Pkt>, m: Sockets): (r: seq<nat>)
    decreases |s|
  {
    if s == [] then []
    else
      var c := ChannelOf(s[0]);
      if Queued(m, c) == [] then ReadOrder(s[1..], m)
      else [Queued(m, c)[0]] + ReadOrder(s[1..], Taken(m, c))
  }

  /** The n-th packet to arrive brings the message with as many before it in the socket as
      packets of the channel arrive before. */
  lemma {:induction false} ReadAt(s: seq<Pkt>, m: Sockets, n: nat)
    requires Served(s, m) && n < |s|
    ensures |ReadOrder(s, m)| == |s|
    ensures var c := ChannelOf(s[n]); var k := |Due(s[..n], c)|;
            k < |Queued(m, c)| && ReadOrder(s, m)[n] == Queued(m, c)[k]
    decreases |s|
  {
    hide Served, Due, Queued, Taken;
    TakenServes(s, m);
    var c0, c := ChannelOf(s[0]), ChannelOf(s[n]);
    var t := s[1..];
    QueuedTaken(m, c0, c);
    if n == 0 {
      assert Due(s[..0], c) == [] by { NoneDue(s[..0], c); }
      if t != [] { ReadAt(t, Taken(m, c0), 0); }
    } else {
      ReadAt(t, Taken(m, c0), n - 1);
      assert t[n - 1] == s[n];
      DueHead(s[..n], c);
      assert s[..n][1..] == t[..n - 1];
    }
  }

  lemma QueuedTaken(m: Sockets, c0: Channel, c: Channel)
    requires Queued(m, c0) != []
    ensures Queued(Taken(m, c0), c) == if c == c0 then Queued(m, c)[1..] else Queued(m, c)
  {
  }

  lemma NoneDue(s: seq<Pkt>, c: Channel)
    requires s == []
    ensures Due(s, c) == []
  {
  }

  /** The arrival that brings the message with k others before it. */
  ghost predicate Brings(s: seq<Pkt>, c: Channel, k: nat, n: nat) {
    n < |s| && ChannelOf(s[n]) == c && |Due(s[..n], c)| == k
  }

  /** There is one for every message. */
  lemma {:induction false} SomeBrings(s: seq<Pkt>, c: Channel, k: nat) returns (n: nat)
    requires k < |Due(s, c)|
    ensures Brings(s, c, k, n)
    decreases |s|
  {
    var l := |s| - 1;
    if k < |Due(s[..l], c)| {
      n := SomeBrings(s[..l], c, k);
      assert s[..l][..n] == s[..n];
    } else {
      n := l;
    }
  }

  lemma DueGrows(s: seq<Pkt>, c: Channel, n: nat, l: nat)
    requires n <= l <= |s|
    ensures |Due(s[..n], c)| <= |Due(s[..l], c)|
  {
    assert s[..l][..n] == s[..n];
    DueSplit(s[..l], n, c);
  }

  /** Of two messages in different sockets, the one with k before it is read before the arrival n
      if and only if more than k packets are due on its channel before n. */
  lemma ReadBeforeExactly(s: seq<Pkt>, c: Channel, k: nat, q: nat, n: nat)
    requires Brings(s, c, k, q) && n < |s| && ChannelOf(s[n]) != c
    ensures q < n <==> |Due(s[..n], c)| > k
  {
    hide Due;
    if q < n {
      DueGrows(s, c, q + 1, n);
      assert s[..q + 1] == s[..q] + [s[q]];
      DueOfBoth(s[..q], [s[q]], c);
      DueOfOne(s[q], c);
    } else {
      DueGrows(s, c, n, q);
    }
  }
}
