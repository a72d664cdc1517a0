/** Numbers in a frame: octets in network order, stored and loaded at an offset. */
module NetOrder {
  import opened CInt
  import opened Arith

  function BigEndian(b: seq<uint8>): (n: nat)
  {
    if b == [] then 0 else BigEndian(b[..|b| - 1]) * 256 + b[|b| - 1] as nat
  }

  function Octets(n: nat, k: nat): (b: seq<uint8>)
    ensures |b| == k
  {
    if k == 0 then [] else Octets(n / 256, k - 1) + [(n % 256) as uint8]
  }

  lemma {:induction false} OctetsBack(n: nat, k: nat)
    requires n < Pow2(8 * k)
    ensures BigEndian(Octets(n, k)) == n
    decreases k
  {
    if k > 0 {
      assert Pow2(8 * k) == 256 * Pow2(8 * (k - 1)) by { Pow2Sum(8, 8 * (k - 1)); }
      OctetsBack(n / 256, k - 1);
      assert Octets(n, k)[..k - 1] == Octets(n / 256, k - 1);
    }
  }

  lemma Widths()
    ensures Pow2(8) == 256 && Pow2(16) == TWO16 && Pow2(32) == TWO32 && Pow2(64) == TWO64
  {
    assert Pow2(8) == 256;
    Pow2Sum(8, 8);
    Pow2Sum(16, 16);
    Pow2Sum(32, 32);
  }

  /** The k octets at an offset as an unsigned number. */
  ghost function Field(buf: seq<uint8>, at: nat, k: nat): (n: nat)
    requires at + k <= |buf|
  {
    BigEndian(buf[at..at + k])
  }

  lemma FieldBound(buf: seq<uint8>, at: nat, k: nat)
    requires at + k <= |buf|
    ensures Field(buf, at, k) < Pow2(8 * k)
  {
    BigEndianBound(buf[at..at + k]);
  }

  lemma {:induction false} BigEndianBound(b: seq<uint8>)
    ensures BigEndian(b) < Pow2(8 * |b|)
  {
    if b != [] {
      var k := |b|;
      BigEndianBound(b[..k - 1]);
      assert Pow2(8 * k) == 256 * Pow2(8 * (k - 1)) by { Pow2Sum(8, 8 * (k - 1)); }
    }
  }

  /** A number stored at an offset in k octets. */
  datatype Item = Item(at: nat, k: nat, n: nat)

  predicate Fits(w: Item, size: nat) {
    w.at + w.k <= size && w.n < Pow2(8 * w.k)
  }

  predicate Apart(at: nat, k: nat, w: Item) {
    at + k <= w.at || w.at + w.k <= at
  }

  function Written(b: seq<uint8>, w: Item): (r: seq<uint8>)
    requires w.at + w.k <= |b|
    ensures |r| == |b|
  {
    b[..w.at] + Octets(w.n, w.k) + b[w.at + w.k..]
  }

  predicate AllFit(ws: seq<Item>, size: nat) {
    forall i :: 0 <= i < |ws| ==> Fits(ws[i], size)
  }

  /** A frame after several stores, the last one last. */
  function WrittenAll(b: seq<uint8>, ws: seq<Item>): (r: seq<uint8>)
    requires AllFit(ws, |b|)
    ensures |r| == |b|
  {
    if ws == [] then b else Written(WrittenAll(b, ws[..|ws| - 1]), ws[|ws| - 1])
  }

  lemma FieldWritten(b: seq<uint8>, w: Item)
    requires Fits(w, |b|)
    ensures Field(Written(b, w), w.at, w.k) == w.n
  {
    assert Written(b, w)[w.at..w.at + w.k] == Octets(w.n, w.k);
    OctetsBack(w.n, w.k);
  }

  lemma FieldApart(b: seq<uint8>, w: Item, at: nat, k: nat)
    requires w.at + w.k <= |b| && at + k <= |b| && Apart(at, k, w)
    ensures Field(Written(b, w), at, k) == Field(b, at, k)
  {
    assert Written(b, w)[at..at + k] == b[at..at + k];
  }

  /** A store is read back if no later one touches it. */
  lemma {:induction false} ReadBack(b: seq<uint8>, ws: seq<Item>, i: nat)
    requires AllFit(ws, |b|) && i < |ws|
    requires forall j :: i < j < |ws| ==> Apart(ws[i].at, ws[i].k, ws[j])
    ensures ws[i].at + ws[i].k <= |b| && Field(WrittenAll(b, ws), ws[i].at, ws[i].k) == ws[i].n
    decreases |ws|
  {
    hide Octets, Field, Written;
    assert Fits(ws[i], |b|);
    var l := |ws| - 1;
    var c := WrittenAll(b, ws[..l]);
    assert Fits(ws[l], |b|);
    if i == l {
      FieldWritten(c, ws[l]);
    } else {
      ReadBack(b, ws[..l], i);
      FieldApart(c, ws[l], ws[i].at, ws[i].k);
    }
  }

  /** A field that no store touches is what it was. */
  lemma {:induction false} Untouched(b: seq<uint8>, ws: seq<Item>, at: nat, k: nat)
    requires AllFit(ws, |b|) && at + k <= |b| && forall j :: 0 <= j < |ws| ==> Apart(at, k, ws[j])
    ensures Field(WrittenAll(b, ws), at, k) == Field(b, at, k)
    decreases |ws|
  {
    hide Octets, Field, Written;
    if ws != [] {
      var l := |ws| - 1;
      assert Fits(ws[l], |b|);
      Untouched(b, ws[..l], at, k);
      FieldApart(WrittenAll(b, ws[..l]), ws[l], at, k);
    }
  }

  /** An octet beyond all stores is what it was. */
  lemma {:induction false} Beyond(b: seq<uint8>, ws: seq<Item>, len: nat, i: nat)
    requires AllFit(ws, |b|) && len <= i < |b| && forall j :: 0 <= j < |ws| ==> ws[j].at + ws[j].k <= len
    ensures WrittenAll(b, ws)[i] == b[i]
    decreases |ws|
  {
    hide Octets;
    if ws != [] {
      var l := |ws| - 1;
      assert Fits(ws[l], |b|);
      Beyond(b, ws[..l], len, i);
    }
  }

  lemma HoldsAll(buf: array<uint8>, b: seq<uint8>, ws: seq<Item>)
    requires Holds(buf, b, ws)
    ensures |b| == buf.Length && AllFit(ws, |b|) && buf[..] == WrittenAll(b, ws)
  {
  }

  /** A frame to which stores have been made. */
  ghost predicate Holds(buf: array<uint8>, b: seq<uint8>, ws: seq<Item>)
    reads buf
  {
    |b| == buf.Length && AllFit(ws, |b|) && buf[..] == WrittenAll(b, ws)
  }

  lemma AtFirst(buf: array<uint8>)
    ensures Holds(buf, buf[..], [])
  {
  }

  /** One more store, in network order. */
  method Store(buf: array<uint8>, w: Item, ghost b: seq<uint8>, ghost ws: seq<Item>) returns (ghost more: seq<Item>)
    requires Holds(buf, b, ws) && Fits(w, buf.Length)
    modifies buf
    ensures more == ws + [w] && Holds(buf, b, more)
  {
    ghost var s := buf[..];
    var octets := Octets(w.n, w.k);
    forall i | w.at <= i < w.at + w.k {
      buf[i] := octets[i - w.at];
    }
    more := ws + [w];
    assert buf[..] == Written(s, w);
    assert more[..|ws|] == ws;
  }

  method Get(buf: array<uint8>, at: nat, k: nat) returns (n: nat)
    requires at + k <= buf.Length
    ensures n == Field(buf[..], at, k)
  {
    assert buf[at..at + k] == buf[..][at..at + k];
    n := BigEndian(buf[at..at + k]);
  }
}
