/** The White Rabbit signaling messages on the wire: an organisation's TLV behind the header and
    the target of a PTP signaling message. */
module WrMsg {
  import opened CInt
  import opened Arith
  import opened BmcCompare
  import opened NetOrder
  import opened WrNode

  const TLV_TYPE_ORG_EXTENSION := 0x0003
  const ORGANIZATION_ID := 0x080030
  const MAGIC_NUMBER := 0xDEAD
  const VERSION_NUMBER := 0x01
  const BASE_LENGTH := 48

  // the words of the frame cut across organisation, magic number and version
  const WORD_48 := 0x0800
  const WORD_50 := 0x30DE
  const WORD_52 := 0xAD01

  function Code(id: MsgId): (c: nat)
  {
    match id
    case SLAVE_PRESENT => 0x1000
    case LOCK => 0x1001
    case LOCKED => 0x1002
    case CALIBRATE => 0x1003
    case CALIBRATED => 0x1004
    case WR_MODE_ON => 0x1005
    case OTHER => 0x2000
  }

  function IdOf(c: nat): (id: MsgId)
  {
    match c
    case 0x1000 => SLAVE_PRESENT
    case 0x1001 => LOCK
    case 0x1002 => LOCKED
    case 0x1003 => CALIBRATE
    case 0x1004 => CALIBRATED
    case 0x1005 => WR_MODE_ON
    case _ => OTHER
  }

  /** A WR message: the type, the three octets of the organisation, the magic number and the
      version, each whole though the words of the frame cut across them. */
  ghost predicate IsWr(buf: seq<uint8>)
    requires |buf| >= 72
  {
    && Field(buf, 44, 2) == TLV_TYPE_ORG_EXTENSION
    && Field(buf, 48, 3) == ORGANIZATION_ID
    && Field(buf, 51, 2) == MAGIC_NUMBER
    && Field(buf, 53, 1) == VERSION_NUMBER
  }

  /** What a port knows of its peer: latencies, and what a CALIBRATE message carries. */
  datatype Peer = Peer(deltaTx: FixedDelta, deltaRx: FixedDelta, pattern: uint8, retry: uint8, period: uint32)

  /** Where a message is going. */
  datatype Target = Target(clock: uint64, port: uint16)

  ghost predicate DeltaAt(buf: seq<uint8>, at: nat, d: FixedDelta)
    requires at + 8 <= |buf|
  {
    Field(buf, at, 4) == d.msb as int && Field(buf, at + 4, 4) == d.lsb as int
  }

  /** A frame is a WR message with this id and what goes with it. */
  ghost predicate Says(buf: seq<uint8>, id: MsgId, p: Peer)
    requires |buf| >= 72
  {
    && IsWr(buf) && id == IdOf(Field(buf, 54, 2))
    && (id == CALIBRATED ==> DeltaAt(buf, 56, p.deltaTx) && DeltaAt(buf, 64, p.deltaRx))
    && (id == CALIBRATE ==>
          Field(buf, 56, 2) == p.pattern as int * 256 + p.retry as int && Field(buf, 58, 4) == p.period as int)
  }

  /** Two adjacent fields as one. */
  lemma {:induction false} Joined(b: seq<uint8>, c: seq<uint8>)
    ensures BigEndian(b + c) == BigEndian(b) * Pow2(8 * |c|) + BigEndian(c)
    decreases |c|
  {
    if c == [] {
      assert b + c == b;
    } else {
      var k := |c| - 1;
      Joined(b, c[..k]);
      assert (b + c)[..|b + c| - 1] == b + c[..k];
      Pow2Sum(8, 8 * k);
      assert Pow2(8) == 256;
      Regroup(BigEndian(b), Pow2(8 * k), BigEndian(c[..k]), c[k] as int);
    }
  }

  lemma Regroup(x: int, y: int, p: int, q: int)
    ensures (x * y + p) * 256 + q == x * (256 * y) + (p * 256 + q)
  {
  }

  lemma JoinedField(buf: seq<uint8>, at: nat, k: nat)
    requires at + k + 1 <= |buf|
    ensures Field(buf, at, k + 1) == Field(buf, at, k) * 256 + Field(buf, at + k, 1) && Field(buf, at + k, 1) < 256
  {
    hide BigEndian;
    Joined(buf[at..at + k], buf[at + k..at + k + 1]);
    assert buf[at..at + k] + buf[at + k..at + k + 1] == buf[at..at + k + 1];
    FieldBound(buf, at + k, 1);
    assert Pow2(8) == 256;
  }

  /** The words at 48, 50 and 52 against the fields they cut. */
  lemma Words(buf: seq<uint8>)
    requires |buf| >= 72
    ensures var v, w := Field(buf, 50, 2), Field(buf, 52, 2);
            && Field(buf, 48, 3) == Field(buf, 48, 2) * 256 + v / 256
            && Field(buf, 51, 2) == v % 256 * 256 + w / 256
            && Field(buf, 53, 1) == w % 256
  {
    hide Field;
    JoinedField(buf, 48, 2);
    JoinedField(buf, 50, 1);
    JoinedField(buf, 51, 1);
    JoinedField(buf, 52, 1);
  }

  /** The stores of the TLV's head and the message id; words cut across the fields. */
  function Head(code: nat): (ws: seq<Item>)
  {
    [ Item(44, 2, TLV_TYPE_ORG_EXTENSION), Item(48, 2, WORD_48), Item(50, 2, WORD_50), Item(52, 2, WORD_52),
      Item(54, 2, code) ]
  }

  /** What follows the id. */
  function Payload(id: MsgId, p: Peer): (ws: seq<Item>)
  {
    match id
    case CALIBRATE => [Item(56, 2, p.pattern as int * 256 + p.retry as int), Item(58, 4, p.period as int)]
    case CALIBRATED =>
      [ Item(56, 4, p.deltaTx.msb as int), Item(60, 4, p.deltaTx.lsb as int),
        Item(64, 4, p.deltaRx.msb as int), Item(68, 4, p.deltaRx.lsb as int) ]
    case _ => []
  }

  function TlvLength(id: MsgId): (n: nat)
  {
    match id
    case CALIBRATE => 14
    case CALIBRATED => 24
    case _ => 8
  }

  /** The header fields, and the lengths, which come last. */
  function Header(first: uint8, t: Target): (ws: seq<Item>)
  {
    [ Item(0, 1, first as int / 16 * 16 + 0x0C), Item(32, 1, 0x05), Item(33, 1, 0x7F),
      Item(34, 8, t.clock as int), Item(42, 2, t.port as int) ]
  }

  function Lengths(id: MsgId): (ws: seq<Item>)
  {
    [Item(2, 2, BASE_LENGTH + TlvLength(id)), Item(46, 2, TlvLength(id))]
  }

  method PackHeader(buf: array<uint8>, t: Target, ghost b: seq<uint8>)
    requires buf.Length >= 72 && Holds(buf, b, [])
    modifies buf
    ensures Holds(buf, b, Header(b[0], t))
  {
    hide WrittenAll, Pow2, Octets;
    Widths();
    assert buf[0] == b[0] by { assert buf[..] == b by { NoStores(b); } }
    ghost var ws: seq<Item> := [];
    ws := Store(buf, Item(0, 1, buf[0] as int / 16 * 16 + 0x0C), b, ws);
    ws := Store(buf, Item(32, 1, 0x05), b, ws);
    ws := Store(buf, Item(33, 1, 0x7F), b, ws);
    ws := Store(buf, Item(34, 8, t.clock as int), b, ws);
    ws := Store(buf, Item(42, 2, t.port as int), b, ws);
    assert ws == Header(b[0], t);
  }

  lemma NoStores(b: seq<uint8>)
    ensures WrittenAll(b, []) == b
  {
  }

  method PackHead(buf: array<uint8>, code: nat, ghost b: seq<uint8>, ghost was: seq<Item>)
    requires buf.Length >= 72 && Holds(buf, b, was) && code < TWO16
    modifies buf
    ensures Holds(buf, b, was + Head(code))
  {
    hide WrittenAll, Pow2, Octets, Holds;
    Widths();
    ghost var ws := Store(buf, Item(44, 2, TLV_TYPE_ORG_EXTENSION), b, was);
    ws := Store(buf, Item(48, 2, WORD_48), b, ws);
    ws := Store(buf, Item(50, 2, WORD_50), b, ws);
    ws := Store(buf, Item(52, 2, WORD_52), b, ws);
    ws := Store(buf, Item(54, 2, code), b, ws);
    assert ws == was + Head(code);
  }

  method PackPayload(buf: array<uint8>, id: MsgId, p: Peer, ghost b: seq<uint8>, ghost was: seq<Item>)
    requires buf.Length >= 72 && Holds(buf, b, was)
    modifies buf
    ensures Holds(buf, b, was + Payload(id, p))
  {
    hide WrittenAll, Pow2, Octets, Holds;
    Widths();
    ghost var ws := was;
    if id == CALIBRATE {
      ws := Store(buf, Item(56, 2, p.pattern as int * 256 + p.retry as int), b, ws);
      ws := Store(buf, Item(58, 4, p.period as int), b, ws);
    } else if id == CALIBRATED {
      ws := Store(buf, Item(56, 4, p.deltaTx.msb as int), b, ws);
      ws := Store(buf, Item(60, 4, p.deltaTx.lsb as int), b, ws);
      ws := Store(buf, Item(64, 4, p.deltaRx.msb as int), b, ws);
      ws := Store(buf, Item(68, 4, p.deltaRx.lsb as int), b, ws);
    }
    assert ws == was + Payload(id, p);
  }

  function AllStores(id: MsgId, p: Peer, t: Target, first: uint8): (ws: seq<Item>)
  {
    Header(first, t) + Head(Code(id)) + Payload(id, p) + Lengths(id)
  }

  /** msg_pack_wrsig. A port that is not calibrated asks for a pattern; calPeriod is stored as a
      little-endian host does it. */
  method Pack(buf: array<uint8>, id: MsgId, p: Peer, t: Target) returns (len: nat)
    requires buf.Length >= 72
    modifies buf
    ensures Says(buf[..], id, p)
    ensures len == (if id == CALIBRATE then 62 else if id == CALIBRATED then 72 else 56)
    ensures Field(buf[..], 2, 2) == len && Field(buf[..], 46, 2) == len - 48
    ensures forall i :: len <= i < buf.Length ==> buf[i] == old(buf[i])
    ensures Field(buf[..], 0, 1) == old(buf[0]) as int / 16 * 16 + 0x0C
    ensures Field(buf[..], 34, 8) == t.clock as int && Field(buf[..], 42, 2) == t.port as int
  {
    hide WrittenAll, Pow2, Octets, Holds, Field;
    ghost var b := buf[..];
    assert Holds(buf, b, []) by { AtFirst(buf); }
    PackHeader(buf, t, b);
    PackHead(buf, Code(id), b, Header(b[0], t));
    PackPayload(buf, id, p, b, Header(b[0], t) + Head(Code(id)));
    Widths();
    len := BASE_LENGTH + TlvLength(id);
    ghost var ws := Store(buf, Item(2, 2, len), b, Header(b[0], t) + Head(Code(id)) + Payload(id, p));
    ws := Store(buf, Item(46, 2, TlvLength(id)), b, ws);
    assert ws == AllStores(id, p, t, b[0]);
    Stored(buf, id, p, t, b);
    LengthCovers(id, p, t, b[0]);
    assert forall i :: len <= i < buf.Length ==> buf[..][i] == b[i] by {
      assert buf[..] == WrittenAll(b, ws) by { HoldsAll(buf, b, ws); }
      forall i | len <= i < buf.Length
        ensures WrittenAll(b, ws)[i] == b[i]
      {
        Beyond(b, ws, len, i);
      }
    }
  }

  /** The length counts exactly the octets up to the last one stored. */
  lemma LengthCovers(id: MsgId, p: Peer, t: Target, first: uint8)
    ensures var ws, len := AllStores(id, p, t, first), BASE_LENGTH + TlvLength(id);
            && (forall i :: 0 <= i < |ws| ==> ws[i].at + ws[i].k <= len)
            && (exists i :: 0 <= i < |ws| && ws[i].at + ws[i].k == len)
  {
    var ws := AllStores(id, p, t, first);
    assert ws[|ws| - 3].at + ws[|ws| - 3].k == BASE_LENGTH + TlvLength(id);
  }

  /** The stores do not get in each other's way. */
  lemma ReadStore(buf: array<uint8>, id: MsgId, p: Peer, t: Target, b: seq<uint8>, i: nat)
    requires buf.Length >= 72 && |b| == buf.Length && Holds(buf, b, AllStores(id, p, t, b[0]))
    requires i < |AllStores(id, p, t, b[0])|
    ensures var w := AllStores(id, p, t, b[0])[i];
            w.at + w.k <= |b| && Field(buf[..], w.at, w.k) == w.n
  {
    hide WrittenAll, Field, Pow2, Octets, AllStores;
    NoClash(id, p, t, b[0], i);
    ReadBack(b, AllStores(id, p, t, b[0]), i);
  }

  lemma Stored(buf: array<uint8>, id: MsgId, p: Peer, t: Target, b: seq<uint8>)
    requires buf.Length >= 72 && |b| == buf.Length && Holds(buf, b, AllStores(id, p, t, b[0]))
    ensures Says(buf[..], id, p)
    ensures Field(buf[..], 2, 2) == BASE_LENGTH + TlvLength(id) && Field(buf[..], 46, 2) == TlvLength(id)
    ensures Field(buf[..], 0, 1) == b[0] as int / 16 * 16 + 0x0C
    ensures Field(buf[..], 34, 8) == t.clock as int && Field(buf[..], 42, 2) == t.port as int
  {
    hide WrittenAll, Field, Pow2, Octets, Holds, IsWr;
    HeaderStored(buf, id, p, t, b);
    TlvStored(buf, id, p, t, b);
    PayloadStored(buf, id, p, t, b);
  }

  lemma HeaderStored(buf: array<uint8>, id: MsgId, p: Peer, t: Target, b: seq<uint8>)
    requires buf.Length >= 72 && |b| == buf.Length && Holds(buf, b, AllStores(id, p, t, b[0]))
    ensures Field(buf[..], 2, 2) == BASE_LENGTH + TlvLength(id) && Field(buf[..], 46, 2) == TlvLength(id)
    ensures Field(buf[..], 0, 1) == b[0] as int / 16 * 16 + 0x0C
    ensures Field(buf[..], 34, 8) == t.clock as int && Field(buf[..], 42, 2) == t.port as int
  {
    hide WrittenAll, Field, Pow2, Octets, Holds;
    var l := |AllStores(id, p, t, b[0])| - 2;
    ReadStore(buf, id, p, t, b, 0);
    ReadStore(buf, id, p, t, b, 3);
    ReadStore(buf, id, p, t, b, 4);
    ReadStore(buf, id, p, t, b, l);
    ReadStore(buf, id, p, t, b, l + 1);
  }

  lemma CutWords()
    ensures WORD_48 * 256 + WORD_50 / 256 == ORGANIZATION_ID
    ensures WORD_50 % 256 * 256 + WORD_52 / 256 == MAGIC_NUMBER && WORD_52 % 256 == VERSION_NUMBER
  {
  }

  /** Frames with the right words are WR messages. */
  lemma WordsMakeWr(buf: seq<uint8>, w48: int, w50: int, w52: int)
    requires |buf| >= 72 && Field(buf, 44, 2) == TLV_TYPE_ORG_EXTENSION
    requires Field(buf, 48, 2) == w48 && Field(buf, 50, 2) == w50 && Field(buf, 52, 2) == w52
    requires w48 * 256 + w50 / 256 == ORGANIZATION_ID
    requires w50 % 256 * 256 + w52 / 256 == MAGIC_NUMBER && w52 % 256 == VERSION_NUMBER
    ensures IsWr(buf)
  {
    hide Field;
    Words(buf);
  }

  lemma TlvStored(buf: array<uint8>, id: MsgId, p: Peer, t: Target, b: seq<uint8>)
    requires buf.Length >= 72 && |b| == buf.Length && Holds(buf, b, AllStores(id, p, t, b[0]))
    ensures IsWr(buf[..]) && Field(buf[..], 54, 2) == Code(id)
  {
    hide WrittenAll, Field, Pow2, Octets, Holds, IsWr;
    ReadStore(buf, id, p, t, b, 5);
    ReadStore(buf, id, p, t, b, 6);
    ReadStore(buf, id, p, t, b, 7);
    ReadStore(buf, id, p, t, b, 8);
    ReadStore(buf, id, p, t, b, 9);
    CutWords();
    WordsMakeWr(buf[..], WORD_48, WORD_50, WORD_52);
  }

  lemma PayloadStored(buf: array<uint8>, id: MsgId, p: Peer, t: Target, b: seq<uint8>)
    requires buf.Length >= 72 && |b| == buf.Length && Holds(buf, b, AllStores(id, p, t, b[0]))
    ensures id == CALIBRATED ==> DeltaAt(buf[..], 56, p.deltaTx) && DeltaAt(buf[..], 64, p.deltaRx)
    ensures id == CALIBRATE ==>
              Field(buf[..], 56, 2) == p.pattern as int * 256 + p.retry as int
              && Field(buf[..], 58, 4) == p.period as int
  {
    hide WrittenAll, Field, Pow2, Octets, Holds;
    if id == CALIBRATE || id == CALIBRATED {
      ReadStore(buf, id, p, t, b, 10);
      ReadStore(buf, id, p, t, b, 11);
    }
    if id == CALIBRATED {
      ReadStore(buf, id, p, t, b, 12);
      ReadStore(buf, id, p, t, b, 13);
    }
  }

  lemma NoClash(id: MsgId, p: Peer, t: Target, first: uint8, i: nat)
    requires i < |AllStores(id, p, t, first)|
    ensures var ws := AllStores(id, p, t, first);
            forall j :: i < j < |ws| ==> Apart(ws[i].at, ws[i].k, ws[j])
  {
  }

  /** msg_unpack_wrsig: a frame is taken exactly if it is a WR message; then what the port knows of
      its peer is renewed by CALIBRATE and CALIBRATED, and left alone otherwise. */
  method Unpack(buf: array<uint8>, was: Peer) returns (taken: bool, id: MsgId, p: Peer)
    requires buf.Length >= 72
    ensures taken <==> IsWr(buf[..])
    ensures taken ==> Says(buf[..], id, p)
    ensures !taken || id != CALIBRATED ==> p.deltaTx == was.deltaTx && p.deltaRx == was.deltaRx
    ensures !taken || id != CALIBRATE ==> p.pattern == was.pattern && p.retry == was.retry && p.period == was.period
  {
    hide Field, Pow2;
    taken, id, p := false, OTHER, was;
    var tlvType := Get(buf, 44, 2);
    var v := Get(buf, 50, 2);
    var w := Get(buf, 52, 2);
    var high := Get(buf, 48, 2);
    Words(buf[..]);
    if tlvType != TLV_TYPE_ORG_EXTENSION || high * 256 + v / 256 != ORGANIZATION_ID
       || v % 256 * 256 + w / 256 != MAGIC_NUMBER || w % 256 != VERSION_NUMBER {
      return;
    }
    var code := Get(buf, 54, 2);
    taken, id := true, IdOf(code);
    if id == CALIBRATE {
      p := GetCalibrate(buf, p);
    } else if id == CALIBRATED {
      var tx := GetDelta(buf, 56);
      var rx := GetDelta(buf, 64);
      p := p.(deltaTx := tx, deltaRx := rx);
    }
  }

  method GetCalibrate(buf: array<uint8>, was: Peer) returns (p: Peer)
    requires buf.Length >= 72
    ensures p.deltaTx == was.deltaTx && p.deltaRx == was.deltaRx
    ensures Field(buf[..], 56, 2) == p.pattern as int * 256 + p.retry as int && Field(buf[..], 58, 4) == p.period as int
  {
    hide Field, Pow2;
    Widths();
    FieldBound(buf[..], 56, 2);
    FieldBound(buf[..], 58, 2);
    FieldBound(buf[..], 60, 2);
    var word := Get(buf, 56, 2);
    var high := Get(buf, 58, 2);
    var low := Get(buf, 60, 2);
    JoinedWords(buf[..], 58);
    p := was.(pattern := (word / 256) as uint8, retry := (word % 256) as uint8,
              period := (high * TWO16 + low) as uint32);
  }

  lemma JoinedWords(buf: seq<uint8>, at: nat)
    requires at + 4 <= |buf|
    ensures Field(buf, at, 4) == Field(buf, at, 2) * TWO16 + Field(buf, at + 2, 2)
  {
    hide BigEndian, Pow2;
    Widths();
    Joined(buf[at..at + 2], buf[at + 2..at + 4]);
    assert buf[at..at + 2] + buf[at + 2..at + 4] == buf[at..at + 4];
  }

  method GetDelta(buf: array<uint8>, at: nat) returns (d: FixedDelta)
    requires at + 8 <= buf.Length
    ensures DeltaAt(buf[..], at, d)
  {
    hide Field, Pow2;
    Widths();
    FieldBound(buf[..], at, 4);
    FieldBound(buf[..], at + 4, 4);
    var msb := Get(buf, at, 4);
    var lsb := Get(buf, at + 4, 4);
    d := FixedDelta(msb as uint32, lsb as uint32);
  }

  /** A message is received as it was sent: its id, and what goes with it. */
  method OnTheWire(buf: array<uint8>, id: MsgId, p: Peer, t: Target, was: Peer) returns (r: Option<(MsgId, Peer)>)
    requires buf.Length >= 72
    modifies buf
    ensures r == Some((id,
                       if id == CALIBRATED then was.(deltaTx := p.deltaTx, deltaRx := p.deltaRx)
                       else if id == CALIBRATE then p.(deltaTx := was.deltaTx, deltaRx := was.deltaRx)
                       else was))
  {
    hide Field;
    var _ := Pack(buf, id, p, t);
    var taken, i, q := Unpack(buf, was);
    r := Some((i, q));
  }
}
