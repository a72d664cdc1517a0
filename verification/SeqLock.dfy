/** The sequence lock of the shared memory: a writer that brackets its stores, and a reader that
    runs at the same time and keeps what it loaded only if the sequence number did not move.
    Every store and every load is a step of its own. */
module SeqLock {
  import opened Arith
  import opened CInt

  /** Where the writer is: outside a section, after the first or the second store of
      WRS_SHM_WRITE_BEGIN, or after the first store of WRS_SHM_WRITE_END. */
  datatype Pc = Outside | Counted | Locked | Closing

  datatype Action =
    | AddBegin
    | SetLock
    | Store(to: nat, value: int)
    | AddEnd
    | ClearLock
    | SeqBegin
    | Load(from: nat)

  /** The shared words, the reader's own variables and, for the proofs, what has happened: the
      sections ended, and the data, sections ended and writer's place when the reader began. */
  datatype Memory = Memory(sequence: int, data: seq<int>, pc: Pc, start: int, loaded: seq<(nat, int)>, h: History)

  datatype History = History(
    base: nat, ended: nat, startEnded: nat, startPc: Pc, snapshot: seq<int>, published: seq<int>, stored: bool)

  /** The writer brackets its stores; addresses are in range. */
  predicate Enabled(m: Memory, a: Action) {
    match a
    case AddBegin => m.pc == Outside
    case SetLock => m.pc == Counted
    case Store(to, _) => (m.pc == Locked || m.pc == Closing) && to < |m.data|
    case AddEnd => m.pc == Locked
    case ClearLock => m.pc == Closing
    case SeqBegin => true
    case Load(from) => from < |m.data|
  }

  /** One step, with the 32-bit arithmetic of the sequence number. */
  function Step(m: Memory, a: Action): (r: Memory)
    requires Enabled(m, a)
  {
    match a
    case AddBegin => m.(sequence := (m.sequence + 2) % TWO32, pc := Counted)
    case SetLock => m.(sequence := m.sequence + 1 - m.sequence % 2, pc := Locked)
    case Store(to, value) => m.(data := m.data[to := value], h := m.h.(stored := true))
    case AddEnd => m.(sequence := (m.sequence + 2) % TWO32, pc := Closing)
    case ClearLock =>
      m.(sequence := m.sequence - m.sequence % 2, pc := Outside, h := m.h.(ended := m.h.ended + 1, published := m.data))
    case SeqBegin =>
      m.(start := m.sequence, loaded := [],
         h := m.h.(startEnded := m.h.ended, startPc := m.pc, snapshot := m.data, stored := false))
    case Load(from) => m.(loaded := m.loaded + [(from, m.data[from])])
  }

  /** wrs_shm_seqretry returns 0 */
  predicate Accepts(m: Memory) {
    m.start % 2 == 0 && m.sequence == m.start
  }

  predicate Runs(m: Memory, actions: seq<Action>)
    decreases |actions|
  {
    actions == [] || (Enabled(m, actions[0]) && Runs(Step(m, actions[0]), actions[1..]))
  }

  function After(m: Memory, actions: seq<Action>): (r: Memory)
    requires Runs(m, actions)
    decreases |actions|
  {
    if actions == [] then m else After(Step(m, actions[0]), actions[1..])
  }

  /** A fresh memory: any even number, a writer outside a section, a reader that just began. */
  function Fresh(base: nat, data: seq<int>): (m: Memory)
  {
    Memory(base, data, Outside, base, [], History(base, 0, 0, Outside, data, data, false))
  }

  function Offset(pc: Pc): (o: nat)
  {
    match pc
    case Outside => 0
    case Counted => 2
    case Locked => 3
    case Closing => 5
  }

  /** The count that the sequence number is the low 32 bits of. */
  function Count(base: nat, ended: nat, pc: Pc): (c: nat)
  {
    base + 4 * ended + Offset(pc)
  }

  predicate Even(pc: Pc) {
    pc == Outside || pc == Counted
  }

  predicate Inv(m: Memory) {
    && m.h.base % 2 == 0
    && m.sequence == Count(m.h.base, m.h.ended, m.pc) % TWO32
    && m.start == Count(m.h.base, m.h.startEnded, m.h.startPc) % TWO32
    && m.h.startEnded <= m.h.ended
    && |m.h.snapshot| == |m.data|
    && (Even(m.pc) ==> m.data == m.h.published)
    && (Even(m.h.startPc) && Even(m.pc) && m.h.startEnded == m.h.ended ==> !m.h.stored)
    && (!m.h.stored ==> m.data == m.h.snapshot && Faithful(m.loaded, m.h.snapshot))
  }

  /** Every value loaded is the one the data held. */
  predicate Faithful(loaded: seq<(nat, int)>, data: seq<int>) {
    forall i :: 0 <= i < |loaded| ==> loaded[i].0 < |data| && loaded[i].1 == data[loaded[i].0]
  }

  /** A step of the counter, low 32 bits only. */
  lemma LowBits(c: nat, d: nat)
    ensures (c % TWO32 + d) % TWO32 == (c + d) % TWO32
  {
    var q := c / TWO32;
    assert c + d == q * TWO32 + (c % TWO32 + d);
  }

  lemma Parity(c: nat)
    ensures c % TWO32 % 2 == c % 2
    ensures c % 2 == 0 ==> (c + 1) % TWO32 == c % TWO32 + 1
    ensures c % 2 == 1 ==> (c - 1) % TWO32 == c % TWO32 - 1
  {
    var q, r := c / TWO32, c % TWO32;
    var half := q * TWO31;
    assert c == 2 * half + r;
    Halves(half, r);
    if r % 2 == 0 {
      NotLast(r);
      DivUnique(c + 1, TWO32, q, r + 1);
    } else {
      DivUnique(c - 1, TWO32, q, r - 1);
    }
  }

  lemma NotLast(r: nat)
    requires r < TWO32 && r % 2 == 0
    ensures r + 1 < TWO32
  {
  }

  lemma CountParity(base: nat, ended: nat, pc: Pc)
    requires base % 2 == 0
    ensures Count(base, ended, pc) % 2 == Count(base, ended, pc) % TWO32 % 2 == if Even(pc) then 0 else 1
  {
    var half := base / 2 + 2 * ended;
    assert Count(base, ended, pc) == 2 * half + Offset(pc);
    Halves(half, Offset(pc));
    Parity(2 * half + Offset(pc));
  }

  lemma Halves(half: nat, o: nat)
    ensures (2 * half + o) % 2 == o % 2
  {
  }

  /** What each store does to the sequence number. */
  lemma Moves(base: nat, ended: nat, pc: Pc)
    requires base % 2 == 0
    ensures var q := Count(base, ended, pc) % TWO32;
            match pc
            case Outside => (q + 2) % TWO32 == Count(base, ended, Counted) % TWO32
            case Counted => q + 1 - q % 2 == Count(base, ended, Locked) % TWO32
            case Locked => (q + 2) % TWO32 == Count(base, ended, Closing) % TWO32
            case Closing => q - q % 2 == Count(base, ended + 1, Outside) % TWO32
  {
    var c := Count(base, ended, pc);
    CountParity(base, ended, pc);
    match pc
    case Outside => LowBits(c, 2); assert Count(base, ended, Counted) == c + 2;
    case Counted => Parity(c); assert Count(base, ended, Locked) == c + 1;
    case Locked => LowBits(c, 2); assert Count(base, ended, Closing) == c + 2;
    case Closing => Parity(c); assert Count(base, ended + 1, Outside) == c - 1;
  }

  lemma WriterKeeps(m: Memory, a: Action)
    requires Inv(m) && Enabled(m, a) && !a.SeqBegin? && !a.Load? && !a.Store?
    ensures Inv(Step(m, a))
  {
    hide Faithful, Count;
    Moves(m.h.base, m.h.ended, m.pc);
  }

  lemma StepKeeps(m: Memory, a: Action)
    requires Inv(m) && Enabled(m, a)
    ensures Inv(Step(m, a))
  {
    if a.SeqBegin? || a.Load? || a.Store? {
      hide Count;
    } else {
      WriterKeeps(m, a);
    }
  }

  lemma {:induction false} EveryRun(m: Memory, actions: seq<Action>)
    requires Inv(m) && Runs(m, actions)
    ensures Inv(After(m, actions))
    decreases |actions|
  {
    hide Inv;
    if actions != [] {
      StepKeeps(m, actions[0]);
      EveryRun(Step(m, actions[0]), actions[1..]);
    }
  }

  /** Sections after which the sequence number comes round. */
  const ROUND := 0x4000_0000

  lemma SameLowBits(c: int, d: int)
    ensures c % TWO32 == d % TWO32 <==> (d - c) % TWO32 == 0
  {
    var p, q := c / TWO32, d / TWO32;
    assert c == p * TWO32 + c % TWO32 && d == q * TWO32 + d % TWO32;
  }

  /** Four to a section: the counts agree in 32 bits only after a multiple of 2^30 sections. */
  lemma Rounds(n: int, o: int, p: int)
    requires o in {0, 2} && p in {0, 2}
    ensures (4 * n + (p - o)) % TWO32 == 0 <==> p == o && n % ROUND == 0
  {
    var q, r := n / ROUND, n % ROUND;
    assert n == q * ROUND + r && 0 <= r < ROUND;
    SameLowBits(0, 4 * n + (p - o));
    SameLowBits(q * TWO32, 4 * r + (p - o) + q * TWO32);
    assert 4 * n + (p - o) == 4 * r + (p - o) + q * TWO32;
  }

  /** A reader's check passes exactly if it began where the writer now is, not inside a section,
      and the sections ended since then are a multiple of 2^30. */
  lemma AcceptedExactly(m: Memory)
    requires Inv(m)
    ensures Accepts(m) <==> Even(m.h.startPc) && m.pc == m.h.startPc && (m.h.ended - m.h.startEnded) % ROUND == 0
  {
    hide Faithful;
    var h := m.h;
    var c: int := Count(h.base, h.startEnded, h.startPc);
    var d: int := Count(h.base, h.ended, m.pc);
    CountParity(h.base, h.startEnded, h.startPc);
    CountParity(h.base, h.ended, m.pc);
    if Even(h.startPc) && Even(m.pc) {
      SameLowBits(c, d);
      assert d - c == 4 * (h.ended - h.startEnded) + (Offset(m.pc) - Offset(h.startPc));
      Rounds(h.ended - h.startEnded, Offset(h.startPc), Offset(m.pc));
    }
  }

  /** Every interleaving: a read that is accepted while fewer than 2^30 sections ended overlaps
      no store, and all it loaded is in one published state of the data. */
  lemma OneSnapshot(base: nat, data: seq<int>, actions: seq<Action>)
    requires base < TWO32 && base % 2 == 0 && Runs(Fresh(base, data), actions)
    ensures var m := After(Fresh(base, data), actions);
            Accepts(m) && m.h.ended - m.h.startEnded < ROUND ==>
              !m.h.stored && m.data == m.h.snapshot == m.h.published && Faithful(m.loaded, m.h.published)
  {
    hide After, Runs, Inv, Fresh, Faithful, Accepts;
    var m := After(Fresh(base, data), actions);
    FreshInv(base, data);
    EveryRun(Fresh(base, data), actions);
    if Accepts(m) && m.h.ended - m.h.startEnded < ROUND {
      SnapshotOf(m);
    }
  }

  lemma FreshInv(base: nat, data: seq<int>)
    requires base < TWO32 && base % 2 == 0
    ensures Inv(Fresh(base, data))
  {
    hide Count;
    CountAtFirst(base);
  }

  lemma CountAtFirst(base: nat)
    requires base < TWO32
    ensures Count(base, 0, Outside) % TWO32 == base
  {
  }

  /** An accepted read within the bound is of one published state. */
  lemma SnapshotOf(m: Memory)
    requires Inv(m) && Accepts(m) && m.h.ended - m.h.startEnded < ROUND
    ensures !m.h.stored && m.data == m.h.snapshot == m.h.published && Faithful(m.loaded, m.h.published)
  {
    hide Count, Accepts, Faithful;
    AcceptedExactly(m);
    WithinRound(m.h.ended - m.h.startEnded);
  }

  lemma WithinRound(n: int)
    requires 0 <= n < ROUND && n % ROUND == 0
    ensures n == 0
  {
  }

  /** A writer's section that stores one word, and n of them. */
  function Section(v: int): (r: seq<Action>)
  {
    [AddBegin, SetLock, Store(0, v), AddEnd, ClearLock]
  }

  function Sections(n: nat, v: int): (r: seq<Action>)
  {
    if n == 0 then [] else Section(v) + Sections(n - 1, v)
  }

  lemma OneAction(m: Memory, a: Action, rest: seq<Action>)
    requires Enabled(m, a)
    ensures Runs(m, [a] + rest) == Runs(Step(m, a), rest)
    ensures Runs(m, [a] + rest) ==> After(m, [a] + rest) == After(Step(m, a), rest)
  {
    assert ([a] + rest)[1..] == rest;
  }

  /** The five steps of a section, whatever follows. */
  lemma OneSection(m: Memory, v: int, rest: seq<Action>) returns (r: Memory)
    requires Inv(m) && m.pc == Outside && |m.data| > 0
    ensures Inv(r) && r.pc == Outside && r.data == m.data[0 := v] && r.loaded == m.loaded
    ensures r.h == m.h.(ended := m.h.ended + 1, stored := true, published := r.data) && r.start == m.start
    ensures Runs(m, Section(v) + rest) == Runs(r, rest)
    ensures Runs(r, rest) ==> After(m, Section(v) + rest) == After(r, rest)
  {
    hide Inv, Runs, After;
    var s := Section(v) + rest;
    assert s == [AddBegin] + ([SetLock] + ([Store(0, v)] + ([AddEnd] + ([ClearLock] + rest))));
    r := Taken(m, AddBegin, [SetLock] + ([Store(0, v)] + ([AddEnd] + ([ClearLock] + rest))));
    r := Taken(r, SetLock, [Store(0, v)] + ([AddEnd] + ([ClearLock] + rest)));
    r := Taken(r, Store(0, v), [AddEnd] + ([ClearLock] + rest));
    r := Taken(r, AddEnd, [ClearLock] + rest);
    r := Taken(r, ClearLock, rest);
  }

  lemma Taken(m: Memory, a: Action, rest: seq<Action>) returns (r: Memory)
    requires Inv(m) && Enabled(m, a)
    ensures r == Step(m, a) && Inv(r)
    ensures Runs(m, [a] + rest) == Runs(r, rest)
    ensures Runs(r, rest) ==> After(m, [a] + rest) == After(r, rest)
  {
    hide Inv, Runs, After;
    OneAction(m, a, rest);
    StepKeeps(m, a);
    r := Step(m, a);
  }

  lemma {:induction false} ManySections(m: Memory, n: nat, v: int, rest: seq<Action>) returns (r: Memory)
    requires Inv(m) && m.pc == Outside && |m.data| > 0 && n > 0
    ensures Inv(r) && r.pc == Outside && r.data == m.data[0 := v] && r.loaded == m.loaded
    ensures r.h == m.h.(ended := m.h.ended + n, stored := true, published := r.data) && r.start == m.start
    ensures Runs(m, Sections(n, v) + rest) == Runs(r, rest)
    ensures Runs(r, rest) ==> After(m, Sections(n, v) + rest) == After(r, rest)
    decreases n
  {
    hide Inv, Runs, After, Section;
    var more := Sections(n - 1, v) + rest;
    assert Sections(n, v) + rest == Section(v) + more;
    r := OneSection(m, v, more);
    if n > 1 {
      r := ManySections(r, n - 1, v, rest);
    } else {
      assert more == rest;
    }
  }

  /** The bound is exact: 2^30 sections while a reader loads, and it accepts two values of one
      word that no state of the data has together. */
  lemma TornAfterRound(base: nat, data: seq<int>, v: int) returns (actions: seq<Action>)
    requires base < TWO32 && base % 2 == 0 && |data| > 0 && v != data[0]
    ensures Runs(Fresh(base, data), actions)
    ensures var m := After(Fresh(base, data), actions);
            && Accepts(m) && m.h.ended - m.h.startEnded == ROUND
            && !Faithful(m.loaded, m.h.snapshot) && !Faithful(m.loaded, m.data)
  {
    hide Runs, After, Sections, Inv, Count, Faithful, Accepts;
    var m0 := Fresh(base, data);
    FreshInv(base, data);
    actions := [Load(0)] + (Sections(ROUND, v) + ([Load(0)] + []));
    OneAction(m0, Load(0), Sections(ROUND, v) + ([Load(0)] + []));
    var m1 := Step(m0, Load(0));
    StepKeeps(m0, Load(0));
    var m2 := ManySections(m1, ROUND, v, [Load(0)] + []);
    var m3 := Taken(m2, Load(0), []);
    NoAction(m3);
    AcceptedExactly(m3);
    assert ROUND % ROUND == 0;
    assert m3.loaded == [(0, data[0]), (0, v)];
    NotFaithful(m3.loaded, data[0], v, m3.h.snapshot);
    NotFaithful(m3.loaded, data[0], v, m3.data);
  }

  /** No state of the data has both values. */
  lemma NotFaithful(loaded: seq<(nat, int)>, a: int, b: int, data: seq<int>)
    requires loaded == [(0, a), (0, b)] && a != b
    ensures !Faithful(loaded, data)
  {
    assert loaded[0] == (0, a) && loaded[1] == (0, b);
  }

  lemma NoAction(m: Memory)
    ensures Runs(m, []) && After(m, []) == m
  {
  }
}
