/** Time stamps and correction fields on the wire: packed by the sender, added to by transparent
    clocks on the way, and folded into t1 and t4 by the slave. */
module CorrectionField {
  import opened CInt
  import opened Arith
  import opened TimeArith
  import opened TimeOps
  import opened NetOrder

  const TWO48: int := 0x1_0000_0000_0000

  // ----- the two fields

  /** The 48-bit seconds and 32-bit nanoseconds at offset 34. */
  ghost function Stamp(buf: seq<uint8>): (t: Time)
    requires |buf| >= 44
  {
    Time(Field(buf, 34, 2) * TWO32 + Field(buf, 36, 4), Field(buf, 40, 4) * TWO16)
  }

  /** The signed correction at offset 8, in 2^-16 ns. */
  ghost function Correction(buf: seq<uint8>): (c: int)
    requires |buf| >= 44
  {
    Signed64(Field(buf, 8, 8))
  }

  /** What is left of a time in the stamp: the fields are cut to their widths. */
  function Cut(t: Time): (r: Time)
  {
    Time(t.secs % TWO48, t.scaled / TWO16 % TWO32 * TWO16)
  }

  /** Stamp and the nanosecond's fraction together carry a time exactly if it is not negative
      and fits the fields. */
  lemma CutIsExact(t: Time)
    ensures Time(Cut(t).secs, Cut(t).scaled + t.scaled % TWO16) == t <==> 0 <= t.secs < TWO48 && 0 <= t.scaled < TWO48
  {
    var ns := t.scaled / TWO16;
    assert t.scaled == ns * TWO16 + t.scaled % TWO16;
  }

  lemma HighAndLow(secs: int)
    ensures secs / TWO32 % TWO16 * TWO32 + secs % TWO32 == secs % TWO48
  {
    var hi, lo := secs / TWO32, secs % TWO32;
    var q, r := hi / TWO16, hi % TWO16;
    DivUnique(secs, TWO48, q, r * TWO32 + lo);
  }

  /** The stores that make up a stamp, and a correction. */
  function StampStores(secs: int, scaled: int): (ws: seq<Item>)
  {
    [Item(34, 2, secs / TWO32 % TWO16), Item(36, 4, secs % TWO32), Item(40, 4, scaled / TWO16 % TWO32)]
  }

  function CorrectionStores(c: int): (ws: seq<Item>)
    requires -TWO63 <= c < TWO63
  {
    [Item(8, 8, if c < 0 then c + TWO64 else c)]
  }

  lemma StampStored(b: seq<uint8>, secs: int, scaled: int)
    requires |b| >= 44
    ensures var ws := StampStores(secs, scaled);
            && AllFit(ws, |b|) && Stamp(WrittenAll(b, ws)) == Cut(Time(secs, scaled))
            && Correction(WrittenAll(b, ws)) == Correction(b)
  {
    hide BigEndian, Octets, WrittenAll, Field, Pow2, Signed64;
    Widths();
    var ws := StampStores(secs, scaled);
    ReadBack(b, ws, 0);
    ReadBack(b, ws, 1);
    ReadBack(b, ws, 2);
    HighAndLow(secs);
    Untouched(b, ws, 8, 8);
  }

  lemma CorrectionStored(b: seq<uint8>, c: int)
    requires |b| >= 44 && -TWO63 <= c < TWO63
    ensures var ws := CorrectionStores(c);
            && AllFit(ws, |b|) && Correction(WrittenAll(b, ws)) == c && Stamp(WrittenAll(b, ws)) == Stamp(b)
  {
    hide BigEndian, Octets, WrittenAll, Field, Pow2, Signed64;
    Widths();
    var ws := CorrectionStores(c);
    ReadBack(b, ws, 0);
    SignedBack(c);
    Untouched(b, ws, 34, 2);
    Untouched(b, ws, 36, 4);
    Untouched(b, ws, 40, 4);
  }

  /** __pack_origin_timestamp: whole nanoseconds, and nothing else is touched. */
  method PackStamp(buf: array<uint8>, secs: int64, scaled: int64)
    requires buf.Length >= 44
    modifies buf
    ensures Stamp(buf[..]) == Cut(Time(secs as int, scaled as int)) && Correction(buf[..]) == Correction(old(buf[..]))
    ensures Holds(buf, old(buf[..]), StampStores(secs as int, scaled as int))
  {
    hide BigEndian, Octets, WrittenAll, Field, Pow2, Signed64, Stamp, Correction;
    Widths();
    ghost var b := buf[..];
    AtFirst(buf);
    ghost var ws: seq<Item> := Store(buf, Item(34, 2, secs as int / TWO32 % TWO16), b, []);
    ws := Store(buf, Item(36, 4, secs as int % TWO32), b, ws);
    ws := Store(buf, Item(40, 4, scaled as int / TWO16 % TWO32), b, ws);
    assert ws == StampStores(secs as int, scaled as int);
    StampStored(b, secs as int, scaled as int);
  }

  /** __unpack_origin_timestamp */
  method UnpackStamp(buf: array<uint8>) returns (secs: int64, scaled: int64)
    requires buf.Length >= 44
    ensures Time(secs as int, scaled as int) == Stamp(buf[..])
    ensures 0 <= secs as int < TWO48 && 0 <= scaled as int < TWO48
  {
    hide Field, Pow2;
    Widths();
    FieldBound(buf[..], 34, 2);
    FieldBound(buf[..], 36, 4);
    FieldBound(buf[..], 40, 4);
    var hi := Get(buf, 34, 2);
    var lo := Get(buf, 36, 4);
    var ns := Get(buf, 40, 4);
    secs, scaled := (hi * TWO32 + lo) as int64, (ns * TWO16) as int64;
  }

  lemma SignedBack(c: int)
    requires -TWO63 <= c < TWO63
    ensures Signed64(if c < 0 then c + TWO64 else c) == c
  {
  }

  method PackCorrection(buf: array<uint8>, c: int64)
    requires buf.Length >= 44
    modifies buf
    ensures Correction(buf[..]) == c as int && Stamp(buf[..]) == Stamp(old(buf[..]))
    ensures Holds(buf, old(buf[..]), CorrectionStores(c as int))
  {
    hide BigEndian, Octets, WrittenAll, Field, Pow2, Signed64, Stamp, Correction;
    Widths();
    ghost var b := buf[..];
    AtFirst(buf);
    ghost var ws: seq<Item> := Store(buf, Item(8, 8, if c < 0 then c as int + TWO64 else c as int), b, []);
    assert ws == CorrectionStores(c as int);
    CorrectionStored(b, c as int);
  }

  method UnpackCorrection(buf: array<uint8>) returns (c: int64)
    requires buf.Length >= 44
    ensures c as int == Correction(buf[..])
  {
    hide Field, Pow2, Signed64;
    Widths();
    FieldBound(buf[..], 8, 8);
    var n := Get(buf, 8, 8);
    SignedOf(n);
    c := (if n >= TWO63 then n - TWO64 else n) as int64;
  }

  lemma SignedOf(n: nat)
    requires n < TWO64
    ensures Signed64(n) == if n >= TWO63 then n - TWO64 else n
  {
  }

  /** A transparent clock adds the time a message stayed in it. */
  method TransparentClock(buf: array<uint8>, residence: int64)
    requires buf.Length >= 44 && -TWO63 <= Correction(buf[..]) + residence as int < TWO63
    modifies buf
    ensures Correction(buf[..]) == Correction(old(buf[..])) + residence as int
    ensures Stamp(buf[..]) == Stamp(old(buf[..]))
  {
    hide BigEndian, Octets, Stamp, Correction;
    var c := UnpackCorrection(buf);
    PackCorrection(buf, c + residence);
  }

  /** A time that a stamp can carry. */
  predicate Stampable(t: Time) {
    0 <= t.secs < TWO48 && 0 <= t.scaled <= SNS
  }

  // ----- Sync and Follow_Up

  /** msg_pack_follow_up: the fraction of a nanosecond goes to the correction field. */
  method PackFollowUp(buf: array<uint8>, secs: int64, scaled: int64)
    requires buf.Length >= 44
    modifies buf
    ensures Stamp(buf[..]) == Cut(Time(secs as int, scaled as int)) && Correction(buf[..]) == scaled as int % TWO16
  {
    hide BigEndian, Octets;
    PackStamp(buf, secs, scaled);
    PackCorrection(buf, (scaled as int % TWO16) as int64);
  }

  /** slave_handle_followup: t1 holds the correction of the Sync. */
  method HandleFollowUp(t1: PpTime, buf: array<uint8>)
    requires buf.Length >= 44 && t1.secs == 0 && Abs(t1.scaled as int) < TWO62 && Abs(Correction(buf[..])) < TWO62
    modifies t1
    ensures Value(t1.View()) == old(t1.scaled) as int + Value(Stamp(buf[..])) + Correction(buf[..])
  {
    hide BigEndian, Stamp, Correction, Value;
    var secs, scaled := UnpackStamp(buf);
    var c := UnpackCorrection(buf);
    AddTwice(t1, secs, scaled, c);
  }

  method AddTwice(t1: PpTime, secs: int64, scaled: int64, c: int64)
    requires t1.secs == 0 && Abs(t1.scaled as int) < TWO62 && Abs(c as int) < TWO62
    requires 0 <= secs as int < TWO48 && 0 <= scaled as int < TWO48
    modifies t1
    ensures Value(t1.View()) == old(t1.scaled) as int + Value(Time(secs as int, scaled as int)) + c as int
  {
    hide Plus;
    var stamp := new PpTime(secs, scaled);
    PlusExact(t1.View(), stamp.View());
    t1.Add(stamp);
    SmallSum(t1.View());
    var cField := new PpTime(0, c);
    PlusExact(t1.View(), cField.View());
    t1.Add(cField);
  }

  lemma SmallSum(t: Time)
    requires Abs(t.scaled) <= SNS && Abs(Value(t)) < TWO63 * SNS / 2
    ensures Abs(t.secs) < TWO63 / 2 + 2
  {
  }

  /** The Sync and Follow_Up of a two-step master, each through transparent clocks: the slave's
      t1 is the master's T1 and what the clocks added, to the last bit. */
  method SyncPath(
    sync: array<uint8>, follow: array<uint8>, secs: int64, scaled: int64, onSync: int64, onFollow: int64)
    returns (t1: PpTime)
    requires sync != follow && sync.Length >= 44 && follow.Length >= 44
    requires Stampable(Time(secs as int, scaled as int))
    requires Abs(onSync as int) < TWO62 && Abs(onFollow as int) < TWO62 - TWO16
    modifies sync, follow
    ensures fresh(t1)
    ensures Value(t1.View()) == Value(Time(secs as int, scaled as int)) + onSync as int + onFollow as int
  {
    hide BigEndian, Octets, Stamp, Correction;
    PackCorrection(sync, 0);
    TransparentClock(sync, onSync);
    PackFollowUp(follow, secs, scaled);
    CutIsExact(Time(secs as int, scaled as int));
    TransparentClock(follow, onFollow);
    var c := UnpackCorrection(sync);
    t1 := new PpTime(0, c);
    HandleFollowUp(t1, follow);
  }

  // ----- Delay_Req and Delay_Resp

  /** msg_pack_delay_req: a compliant slave puts its asymmetry in. */
  function RequestCorrection(compliant: bool, asymmetry: int): (c: int)
  {
    if compliant then -asymmetry else 0
  }

  /** msg_pack_delay_resp: a compliant master hands the request's correction back, less the
      fraction of a nanosecond that its stamp lacks; else the fraction alone. */
  method PackDelayResp(buf: array<uint8>, request: array<uint8>, secs: int64, scaled: int64, compliant: bool)
    requires buf != request && buf.Length >= 44 && request.Length >= 44 && Abs(Correction(request[..])) < TWO62
    modifies buf
    ensures Stamp(buf[..]) == Cut(Time(secs as int, scaled as int))
    ensures var fraction := scaled as int % TWO16;
            Correction(buf[..]) == if compliant then Correction(request[..]) - fraction else fraction
  {
    hide BigEndian, Octets, Stamp, Correction;
    var subNs := (scaled as int % TWO16) as int64;
    var c := UnpackCorrection(request);
    PackStamp(buf, secs, scaled);
    PackCorrection(buf, if compliant then c - subNs else subNs);
  }

  /** slave_handle_response */
  method HandleResponse(buf: array<uint8>, asymmetry: int64, compliant: bool) returns (t4: PpTime)
    requires buf.Length >= 44 && Abs(Correction(buf[..])) < TWO62 + TWO16 && Abs(asymmetry as int) < TWO62
    ensures fresh(t4)
    ensures Value(t4.View()) == Value(Stamp(buf[..]))
                                + (if compliant then -Correction(buf[..]) - asymmetry as int else Correction(buf[..]))
  {
    hide BigEndian, Stamp, Correction, Plus, Minus;
    var secs, scaled := UnpackStamp(buf);
    var c := UnpackCorrection(buf);
    t4 := new PpTime(secs, scaled);
    if !compliant {
      var cField := new PpTime(0, c);
      PlusExact(t4.View(), cField.View());
      t4.Add(cField);
    } else {
      SubTwice(t4, c, asymmetry);
    }
  }

  method SubTwice(t4: PpTime, c: int64, asymmetry: int64)
    requires 0 <= t4.secs as int < TWO48 && 0 <= t4.scaled as int < TWO48
    requires Abs(c as int) < TWO62 + TWO16 && Abs(asymmetry as int) < TWO62
    modifies t4
    ensures Value(t4.View()) == Value(old(t4.View())) - c as int - asymmetry as int
  {
    hide Minus;
    var cField := new PpTime(0, c);
    MinusExact(t4.View(), cField.View());
    t4.Sub(cField);
    SmallSum(t4.View());
    var delayAsym := new PpTime(0, asymmetry);
    MinusExact(t4.View(), delayAsym.View());
    t4.Sub(delayAsym);
  }

  /** The Delay_Req through transparent clocks and the answer to it: a compliant slave's t4 is the
      master's T4 less what the clocks added, whatever the asymmetry; with the White Rabbit
      convention the clocks' part is lost and t4 is T4. */
  method DelayPath(request: array<uint8>, response: array<uint8>, secs: int64, scaled: int64,
                   asymmetry: int64, onRequest: int64, compliant: bool) returns (t4: PpTime)
    requires request != response && request.Length >= 44 && response.Length >= 44
    requires Stampable(Time(secs as int, scaled as int))
    requires Abs(onRequest as int) < TWO62 / 2 && Abs(asymmetry as int) < TWO62 / 2
    modifies request, response
    ensures fresh(t4)
    ensures Value(t4.View()) == Value(Time(secs as int, scaled as int)) - (if compliant then onRequest as int else 0)
  {
    hide BigEndian, Octets, Stamp, Correction;
    PackCorrection(request, RequestCorrection(compliant, asymmetry as int) as int64);
    TransparentClock(request, onRequest);
    PackDelayResp(response, request, secs, scaled, compliant);
    CutIsExact(Time(secs as int, scaled as int));
    t4 := HandleResponse(response, asymmetry, compliant);
  }

  /** Both paths: the slave's round trip is that of the stamps, less what the transparent clocks
      added on the way there and, in compliant mode, on the way back. */
  method RoundTrip(sync: array<uint8>, follow: array<uint8>, request: array<uint8>, response: array<uint8>,
                   m1: Time, m4: Time, t2: Time, t3: Time, asymmetry: int64, r1: int64, r2: int64, compliant: bool)
    returns (t1: Time, t4: Time)
    requires sync.Length >= 44 && follow.Length >= 44 && request.Length >= 44 && response.Length >= 44
    requires sync != follow && request != response && Stampable(m1) && Stampable(m4)
    requires Abs(r1 as int) < TWO62 / 2 && Abs(r2 as int) < TWO62 / 2 && Abs(asymmetry as int) < TWO62 / 2
    modifies sync, follow, request, response
    ensures Value(t4) - Value(t1) - (Value(t3) - Value(t2)) ==
            Value(m4) - Value(m1) - (Value(t3) - Value(t2)) - r1 as int - (if compliant then r2 as int else 0)
  {
    var p1 := SyncPath(sync, follow, m1.secs as int64, m1.scaled as int64, r1, 0);
    t1 := Time(p1.secs as int, p1.scaled as int);
    var p4 := DelayPath(request, response, m4.secs as int64, m4.scaled as int64, asymmetry, r2, compliant);
    t4 := Time(p4.secs as int, p4.scaled as int);
  }
}
