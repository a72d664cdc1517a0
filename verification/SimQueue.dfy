/** The simulator's packets in flight, kept in order of arrival, and time moved forward. */
module SimQueue {
  const CAPACITY := 64
  const MASTER := 0
  const SLAVE := 1
  const GEN := 0
  const EVT := 1
  const RUNTIME_UPDATE_NS := 10000

  /** A packet in flight. The id is not in the source: it numbers the packets for the proofs. */
  datatype Pkt = Pkt(delayNs: int, which: int, chtype: int, id: nat)

  /** compare_pending: p goes before q. */
  predicate Less(p: Pkt, q: Pkt) {
    || p.delayNs < q.delayNs
    || (p.delayNs == q.delayNs && (p.which > q.which || (p.which == q.which && p.chtype > q.chtype)))
  }

  predicate Sorted(s: seq<Pkt>) {
    forall i, j :: 0 <= i < j < |s| ==> !Less(s[j], s[i])
  }

  function Inserted(s: seq<Pkt>, k: nat, p: Pkt): (r: seq<Pkt>)
    requires k <= |s|
    ensures |r| == |s| + 1
  {
    s[..k] + [p] + s[k..]
  }

  /** The place of a new packet: behind all that are not worse, before all that are. */
  predicate Place(s: seq<Pkt>, k: nat, p: Pkt) {
    && k <= |s|
    && (forall i :: 0 <= i < k ==> !Less(p, s[i]))
    && (forall i :: k <= i < |s| ==> Less(p, s[i]))
  }

  lemma InsertedSorted(s: seq<Pkt>, k: nat, p: Pkt)
    requires Sorted(s) && Place(s, k, p)
    ensures Sorted(Inserted(s, k, p))
  {
    var r := Inserted(s, k, p);
    forall i, j | 0 <= i < j < |r|
      ensures !Less(r[j], r[i])
    {
      if i < k && k < j { assert !Less(s[j - 1], s[i]); }
      if i < j < k { assert !Less(s[j], s[i]); }
      if k < i { assert !Less(s[j - 1], s[i - 1]); }
    }
  }

  /** In a sorted flight the earlier arrival is first; of two packets that arrive at once the slave's,
      and of two to one receiver the one for the event socket. */
  lemma TiesBroken(s: seq<Pkt>, i: nat, j: nat)
    requires Sorted(s) && i < |s| && j < |s|
    requires
      || s[i].delayNs < s[j].delayNs
      || (s[i].delayNs == s[j].delayNs && s[i].which == SLAVE && s[j].which == MASTER)
      || (s[i].delayNs == s[j].delayNs && s[i].which == s[j].which && s[i].chtype == EVT && s[j].chtype == GEN)
    ensures i < j
  {
    assert Less(s[i], s[j]);
  }

  function Ids(s: seq<Pkt>): (r: seq<nat>)
    ensures |r| == |s| && forall i :: 0 <= i < |s| ==> r[i] == s[i].id
  {
    if s == [] then [] else Ids(s[..|s| - 1]) + [s[|s| - 1].id]
  }

  /** a comes before b. */
  ghost predicate Before(s: seq<nat>, a: nat, b: nat) {
    exists i, j :: 0 <= i < j < |s| && s[i] == a && s[j] == b
  }

  ghost predicate Distinct(s: seq<nat>) {
    forall i, j :: 0 <= i < j < |s| ==> s[i] != s[j]
  }

  class Queue {
    const pending: array<Pkt>
    var nPending: nat

    ghost predicate Valid()
      reads this, pending
    {
      pending.Length == CAPACITY && nPending < CAPACITY && Sorted(pending[..nPending])
    }

    ghost function Flight(): (s: seq<Pkt>)
      reads this, pending
      requires nPending <= pending.Length
    {
      pending[..nPending]
    }

    constructor ()
      ensures Valid() && nPending == 0 && fresh(pending)
    {
      pending := new Pkt[CAPACITY](i => Pkt(0, 0, 0, 0));
      nPending := 0;
    }

    /** insert_pending. The word before the array is read when the packet gets to the front; below
        stands for whatever it holds. */
    method Insert(p: Pkt, below: Pkt) returns (ghost k: nat)
      requires Valid() && nPending < CAPACITY - 1
      modifies this`nPending, pending
      ensures k <= old(nPending) && Place(old(Flight()), k, p)
      ensures Valid() && nPending == old(nPending) + 1 && Flight() == Inserted(old(Flight()), k, p)
    {
      hide Less, Sorted, Inserted, Place;
      ghost var s := Flight();
      pending[nPending] := p;
      k := Sift(s, p, below);
      nPending := nPending + 1;
      FirstNotBefore(s, k, p);
      InsertedSorted(s, k, p);
      InsertedAt(s, k, p, Flight());
    }

    /** The swaps that bring the new packet, behind the others, to its place. */
    method Sift(ghost s: seq<Pkt>, p: Pkt, below: Pkt) returns (ghost k: nat)
      requires |s| == nPending < pending.Length && pending[nPending] == p
      requires forall j :: 0 <= j < nPending ==> pending[j] == s[j]
      modifies pending
      ensures k <= nPending && pending[k] == p && (k > 0 ==> !Less(p, s[k - 1]))
      ensures forall j :: 0 <= j < k ==> pending[j] == s[j]
      ensures forall j :: k < j <= nPending ==> pending[j] == s[j - 1]
      ensures forall j :: k <= j < nPending ==> Less(p, s[j])
    {
      hide Less;
      var i := nPending;
      var goesBefore := Less(p, if i > 0 then pending[i - 1] else below);
      while goesBefore && i > 0
        invariant 0 <= i <= nPending && pending[i] == p
        invariant forall j :: 0 <= j < i ==> pending[j] == s[j]
        invariant forall j :: i < j <= nPending ==> pending[j] == s[j - 1]
        invariant forall j :: i <= j < nPending ==> Less(p, s[j])
        invariant i > 0 ==> goesBefore == Less(p, s[i - 1])
      {
        pending[i] := pending[i - 1];
        pending[i - 1] := p;
        i := i - 1;
        goesBefore := Less(p, if i > 0 then pending[i - 1] else below);
      }
      k := i;
    }

    /** pending_received: the first packet has arrived. */
    method Pop()
      requires Valid()
      modifies this`nPending, pending
      ensures Valid() && Flight() == if old(nPending) == 0 then [] else old(Flight())[1..]
    {
      hide Less;
      if nPending == 0 {
        return;
      }
      ghost var s := Flight();
      var i := 0;
      while i < nPending
        invariant i <= nPending == old(nPending)
        invariant forall j :: 0 <= j < i && j + 1 < nPending ==> pending[j] == s[j + 1]
        invariant forall j :: i <= j < nPending ==> pending[j] == s[j]
      {
        pending[i] := pending[i + 1];
        i := i + 1;
      }
      nPending := nPending - 1;
      assert pending[..nPending] == s[1..];
    }

    /** The packets' part of sim_fast_forward_ns, with the optional growth of the propagation
        delays first. A packet that would be late ends the simulation. */
    method FastForward(ffNs: int, updates: bool) returns (exited: bool)
      requires Valid() && NoneBefore(Flight(), 0)
      modifies pending
      ensures exited <==> !NoneBefore(old(Flight()), ffNs - Bump(updates))
      ensures !exited ==> Valid() && Flight() == Moved(old(Flight()), Bump(updates) - ffNs)
    {
      hide Less, Sorted, Moved, NoneBefore;
      ghost var s := Flight();
      ghost var b := Bump(updates);
      if updates {
        Grow(s);
      }
      exited := Subtract(s, b, ffNs);
      if !exited {
        MovedSorted(s, b - ffNs);
        MovedAt(s, b - ffNs, Flight());
      }
    }

    /** The packets' part of update_and_print_propagation_delays; the clamp to zero is never needed. */
    method Grow(ghost s: seq<Pkt>)
      requires nPending < pending.Length == CAPACITY && s == pending[..nPending]
      requires NoneBefore(s, 0)
      modifies pending
      ensures forall j :: 0 <= j < nPending ==> pending[j] == s[j].(delayNs := s[j].delayNs + RUNTIME_UPDATE_NS)
    {
      var i := 0;
      while i < nPending
        invariant i <= nPending
        invariant forall j :: 0 <= j < i ==> pending[j] == s[j].(delayNs := s[j].delayNs + RUNTIME_UPDATE_NS)
        invariant forall j :: i <= j < nPending ==> pending[j] == s[j]
      {
        pending[i] := pending[i].(delayNs := pending[i].delayNs + RUNTIME_UPDATE_NS);
        if pending[i].delayNs < 0 {
          assert false;
        }
        i := i + 1;
      }
    }

    method Subtract(ghost s: seq<Pkt>, ghost b: int, ffNs: int) returns (exited: bool)
      requires nPending < pending.Length == CAPACITY && |s| == nPending
      requires forall j :: 0 <= j < nPending ==> pending[j] == s[j].(delayNs := s[j].delayNs + b)
      modifies pending
      ensures exited <==> !NoneBefore(s, ffNs - b)
      ensures !exited ==> forall j :: 0 <= j < nPending ==> pending[j] == s[j].(delayNs := s[j].delayNs + (b - ffNs))
    {
      exited := false;
      var i := 0;
      while i < nPending
        invariant i <= nPending
        invariant forall j :: 0 <= j < i ==>
                    pending[j] == s[j].(delayNs := s[j].delayNs + (b - ffNs)) && s[j].delayNs + b >= ffNs
        invariant forall j :: i <= j < nPending ==> pending[j] == s[j].(delayNs := s[j].delayNs + b)
      {
        pending[i] := pending[i].(delayNs := pending[i].delayNs - ffNs);
        if pending[i].delayNs < 0 {
          return true;
        }
        i := i + 1;
      }
    }
  }

  lemma InsertedAt(s: seq<Pkt>, k: nat, p: Pkt, r: seq<Pkt>)
    requires k < |r| == |s| + 1 && r[k] == p
    requires forall j :: 0 <= j < k ==> r[j] == s[j]
    requires forall j :: k < j <= |s| ==> r[j] == s[j - 1]
    ensures r == Inserted(s, k, p)
  {
  }

  lemma FirstNotBefore(s: seq<Pkt>, k: nat, p: Pkt)
    requires Sorted(s) && k <= |s| && (k > 0 ==> !Less(p, s[k - 1])) && (forall j :: k <= j < |s| ==> Less(p, s[j]))
    ensures Place(s, k, p)
  {
    forall i | 0 <= i < k
      ensures !Less(p, s[i])
    {
      if i < k - 1 { assert !Less(s[k - 1], s[i]); }
    }
  }

  /** No packet arrives before a time. */
  predicate NoneBefore(s: seq<Pkt>, ns: int) {
    forall i :: 0 <= i < |s| ==> s[i].delayNs >= ns
  }

  function Bump(updates: bool): (b: nat)
  {
    if updates then RUNTIME_UPDATE_NS else 0
  }

  /** Every delay moved alike. */
  function Moved(s: seq<Pkt>, d: int): (r: seq<Pkt>)
    ensures |r| == |s| && forall i :: 0 <= i < |s| ==> r[i] == s[i].(delayNs := s[i].delayNs + d)
  {
    if s == [] then [] else Moved(s[..|s| - 1], d) + [s[|s| - 1].(delayNs := s[|s| - 1].delayNs + d)]
  }

  lemma MovedAt(s: seq<Pkt>, d: int, r: seq<Pkt>)
    requires |r| == |s| && forall i :: 0 <= i < |s| ==> r[i] == s[i].(delayNs := s[i].delayNs + d)
    ensures r == Moved(s, d)
  {
  }

  lemma MovedSorted(s: seq<Pkt>, d: int)
    requires Sorted(s)
    ensures Sorted(Moved(s, d)) && Ids(Moved(s, d)) == Ids(s)
  {
    forall i, j | 0 <= i < j < |s|
      ensures !Less(Moved(s, d)[j], Moved(s, d)[i])
    {
      assert !Less(s[j], s[i]);
    }
    assert forall i :: 0 <= i < |s| ==> Ids(Moved(s, d))[i] == Ids(s)[i];
  }
}
