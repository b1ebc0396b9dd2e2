/**
 * Positions in the circular array of the receiver buffer, the window seen from the start position, and the
 * arguments that carry the loops over the array to the functions over the window.
 */
module RcvRing {
  import opened Packets
  import opened RcvModel
  import opened RcvInvariant
  import opened RcvCounters

  // ------------------------------------------------------------------ ring positions

  predicate IsPos(pos: int, size: int) {
    0 <= pos < size
  }

  function IncPos(pos: int, inc: int, size: int): int
    requires size > 0
  {
    (pos + inc) % size
  }

  function DecPos(pos: int, size: int): int {
    if pos - 1 >= 0 then pos - 1 else size - 1
  }

  function OffPos(pos1: int, pos2: int, size: int): int {
    if pos2 >= pos1 then pos2 - pos1 else size + pos2 - pos1
  }

  /** The position k slots after the start, without division. */
  lemma IncPosIs(start: int, k: int, size: int)
    requires IsPos(start, size) && 0 <= k <= size
    ensures IncPos(start, k, size) == if start + k < size then start + k else start + k - size
  {
  }

  lemma OffIncPos(start: int, k: int, size: int)
    requires IsPos(start, size) && 0 <= k < size
    ensures IsPos(IncPos(start, k, size), size) && OffPos(start, IncPos(start, k, size), size) == k
  {
    IncPosIs(start, k, size);
  }

  lemma NextPos(start: int, pos: int, size: int)
    requires IsPos(start, size) && IsPos(pos, size)
    ensures IsPos(IncPos(pos, 1, size), size)
    ensures OffPos(start, IncPos(pos, 1, size), size) ==
            if OffPos(start, pos, size) == size - 1 then 0 else OffPos(start, pos, size) + 1
  {
    IncPosIs(pos, 1, size);
  }

  lemma SameOff(start: int, p: int, q: int, size: int)
    requires IsPos(start, size) && IsPos(p, size) && IsPos(q, size)
    ensures p == q <==> OffPos(start, p, size) == OffPos(start, q, size)
    ensures 0 <= OffPos(start, p, size) < size
  {
  }

  /** Whether the first non-readable position lies in the occupied part, right edge included. */
  predicate IsInRange(startPos: int, maxPosOff: int, size: int, firstNonreadPos: int)
    requires size > 0
  {
    if firstNonreadPos == startPos then true
    else
      var lastPos := (startPos + maxPosOff) % size;
      if lastPos < startPos then firstNonreadPos > startPos || firstNonreadPos <= lastPos
      else firstNonreadPos > startPos && firstNonreadPos <= lastPos
  }

  /** The test on wrapped positions decides exactly whether the offset is within the occupied part. */
  lemma IsInRangeIff(startPos: int, maxPosOff: int, size: int, p: int)
    requires IsPos(startPos, size) && IsPos(p, size) && 0 <= maxPosOff < size
    ensures IsInRange(startPos, maxPosOff, size, p) <==> OffPos(startPos, p, size) <= maxPosOff
  {
    IncPosIs(startPos, maxPosOff, size);
  }

  // ------------------------------------------------------------------ windows of the ring

  function Rotated(a: seq<Entry>, start: int): seq<Entry>
    requires 0 <= start <= |a|
  {
    a[start..] + a[..start]
  }

  lemma RotatedAt(a: seq<Entry>, start: int)
    requires 0 <= start < |a|
    ensures forall pos :: 0 <= pos < |a| ==> Rotated(a, start)[OffPos(start, pos, |a|)] == a[pos]
  {
  }

  lemma RotatedUpdate(a: seq<Entry>, start: int, pos: int, e: Entry)
    requires 0 <= start < |a| && 0 <= pos < |a|
    ensures Rotated(a[pos := e], start) == Rotated(a, start)[OffPos(start, pos, |a|) := e]
  {
  }

  lemma RotatedMove(a: seq<Entry>, start: int)
    requires 0 <= start < |a|
    ensures Rotated(a, IncPos(start, 1, |a|)) == Rotated(a, start)[1..] + [Rotated(a, start)[0]]
  {
    IncPosIs(start, 1, |a|);
  }

  lemma TakeMore(got: seq<Byte>, p: seq<Byte>, len: nat)
    ensures |Take(got, len)| <= len
    ensures Take(got + p, len) == Take(got, len) + p[..Min(len - |Take(got, len)|, |p|)]
  {
  }

  lemma ReadFrontWindow(v: Rcv)
    requires Has(v.w, 0)
    ensures ReadFront(v).w == v.w[1..] + [EMPTY]
  {
  }

  /** The run that a read at offset r takes ends with the last packet of a message. */
  predicate LastAt(w: seq<Entry>, r: int)
    requires 0 <= r <= |w|
  {
    ReadEnd(w, r) > r && Pkt(w, ReadEnd(w, r) - 1).last
  }

  lemma {:induction false} ReadEndStep(w: seq<Entry>, w1: seq<Entry>, i: int)
    requires w != [] && w1 == w[1..] + [EMPTY] && 1 <= i <= |w|
    ensures ReadEnd(w1, i - 1) == ReadEnd(w, i) - 1
    decreases |w| - i
  {
    if i < |w| {
      assert w1[i - 1] == w[i];
      if Has(w, i) && !Pkt(w, i).last {
        ReadEndStep(w, w1, i + 1);
      }
    }
  }

  lemma ReadEndMoves(w: seq<Entry>)
    requires Has(w, 0)
    ensures var w1 := w[1..] + [EMPTY]; var e := ReadEnd(w, 0);
      && e >= 1
      && Payloads(w, 0, e) == Pkt(w, 0).payload + Payloads(w, 1, e)
      && (!Pkt(w, 0).last ==> ReadEnd(w1, 0) == e - 1 && Payloads(w1, 0, e - 1) == Payloads(w, 1, e))
      && (!Pkt(w, 0).last ==> LastAt(w1, 0) == LastAt(w, 0))
      && (Pkt(w, 0).last ==> e == 1 && Payloads(w, 1, e) == [] && LastAt(w, 0))
  {
    var w1, e := w[1..] + [EMPTY], ReadEnd(w, 0);
    if !Pkt(w, 0).last {
      ReadEndStep(w, w1, 1);
      PayloadsShift(w, w1, 1, e);
      if e > 1 {
        assert w1[e - 2] == w[e - 1];
      }
    }
  }

  /** The outcome of reading from the start, against the window as it was. */
  ghost predicate FrontRead(v: Rcv, u: Rcv, len: nat, data: seq<Byte>, pktsRead: int, bytes: int, last: bool)
    requires |v.w| > 0
  {
    var e := ReadEnd(v.w, 0);
    && u == ReadFrontN(v, e) && pktsRead == e && data == Take(Payloads(v.w, 0, e), len)
    && bytes == |Payloads(v.w, 0, e)| && last == LastAt(v.w, 0)
  }

  /** What is left to read from the start of u completes what was to be read from v. */
  ghost predicate FrontProgress(v: Rcv, u: Rcv, len: nat, got: seq<Byte>, data: seq<Byte>, pktsRead: int, bytes: int)
    requires |v.w| > 0 && |u.w| > 0
  {
    var e, f := ReadEnd(v.w, 0), ReadEnd(u.w, 0);
    && ReadFrontN(u, f) == ReadFrontN(v, e) && pktsRead + f == e
    && Payloads(v.w, 0, e) == got + Payloads(u.w, 0, f) && data == Take(got, len) && bytes == |got|
    && LastAt(u.w, 0) == LastAt(v.w, 0)
  }

  lemma FrontStart(v: Rcv, len: nat)
    requires |v.w| > 0
    ensures FrontProgress(v, v, len, [], [], 0, 0)
  {
    assert [] + Payloads(v.w, 0, ReadEnd(v.w, 0)) == Payloads(v.w, 0, ReadEnd(v.w, 0));
  }

  lemma FrontStops(v: Rcv, u: Rcv, len: nat, got: seq<Byte>, data: seq<Byte>, pktsRead: int, bytes: int)
    requires |v.w| > 0 && |u.w| > 0 && FrontProgress(v, u, len, got, data, pktsRead, bytes) && u.w[0].unit.None?
    ensures FrontRead(v, u, len, data, pktsRead, bytes, false)
  {
    assert got + [] == got;
  }

  lemma FrontStep(v: Rcv, u: Rcv, len: nat, got: seq<Byte>, data: seq<Byte>, pktsRead: int, bytes: int)
    requires |v.w| > 0 && |u.w| > 0 && FrontProgress(v, u, len, got, data, pktsRead, bytes) && Has(u.w, 0)
    ensures |data| <= len
    ensures var p, u1 := Pkt(u.w, 0), ReadFront(u);
      var data' := data + p.payload[..Min(len - |data|, |p.payload|)];
      && (p.last ==> FrontRead(v, u1, len, data', pktsRead + 1, bytes + |p.payload|, true))
      && (!p.last ==> FrontProgress(v, u1, len, got + p.payload, data', pktsRead + 1, bytes + |p.payload|))
      && (!p.last ==> ReadEnd(u1.w, 0) < ReadEnd(u.w, 0))
  {
    var p := Pkt(u.w, 0).payload;
    TakeMore(got, p, len);
    ReadFrontWindow(u);
    ReadEndMoves(u.w);
    hide ReadEnd, Payloads, LastAt, Take, ReadFront;
    var f := ReadEnd(u.w, 0);
    assert got + (p + Payloads(u.w, 1, f)) == got + p + Payloads(u.w, 1, f);
    assert (got + p) + [] == got + p;
    assert ReadFrontN(u, f) == ReadFrontN(ReadFront(u), f - 1);
    assert ReadFrontN(ReadFront(u), 0) == ReadFront(u);
  }

  /** The outcome of reading at offset r, against the window as it was. */
  ghost predicate OutRead(v: Rcv, u: Rcv, r: int, len: nat, data: seq<Byte>, pktsRead: int, bytes: int, last: bool)
    requires 0 <= r < |v.w|
  {
    var e := ReadEnd(v.w, r);
    && u == ReadRange(v, r, e) && pktsRead == e - r && data == Take(Payloads(v.w, r, e), len)
    && bytes == |Payloads(v.w, r, e)| && last == LastAt(v.w, r)
  }

  ghost predicate OutProgress(v: Rcv, u: Rcv, r: int, k: int, len: nat, got: seq<Byte>, data: seq<Byte>,
                              pktsRead: int, bytes: int)
    requires 0 <= r < |v.w| && 0 <= k
  {
    var e := ReadEnd(v.w, r);
    && r <= k <= e && |u.w| == |v.w| && ReadEnd(u.w, k) == e
    && ReadRange(u, k, e) == ReadRange(v, r, e) && pktsRead == k - r
    && Payloads(v.w, r, e) == got + Payloads(u.w, k, e) && data == Take(got, len) && bytes == |got|
    && (forall j :: k <= j < |v.w| ==> u.w[j] == v.w[j])
    && (r < k ==> !Pkt(v.w, k - 1).last)
  }

  lemma OutStart(v: Rcv, r: int, len: nat)
    requires 0 <= r < |v.w|
    ensures OutProgress(v, v, r, r, len, [], [], 0, 0)
  {
    assert [] + Payloads(v.w, r, ReadEnd(v.w, r)) == Payloads(v.w, r, ReadEnd(v.w, r));
  }

  lemma OutStops(v: Rcv, u: Rcv, r: int, k: int, len: nat, got: seq<Byte>, data: seq<Byte>, pktsRead: int, bytes: int)
    requires 0 <= r < |v.w| && 0 <= k < |v.w| && OutProgress(v, u, r, k, len, got, data, pktsRead, bytes)
    requires !Has(u.w, k)
    ensures OutRead(v, u, r, len, data, pktsRead, bytes, false)
  {
    assert got + [] == got;
  }

  lemma {:induction false} ReadEndSame(w: seq<Entry>, w1: seq<Entry>, i: int)
    requires 0 <= i <= |w| == |w1| && forall j :: i <= j < |w| ==> w1[j] == w[j]
    ensures ReadEnd(w1, i) == ReadEnd(w, i)
    decreases |w| - i
  {
    if Has(w, i) && !Pkt(w, i).last {
      ReadEndSame(w, w1, i + 1);
    }
  }

  lemma OutStep(v: Rcv, u: Rcv, r: int, k: int, len: nat, got: seq<Byte>, data: seq<Byte>, pktsRead: int, bytes: int)
    requires 0 <= r < |v.w| && 0 <= k && OutProgress(v, u, r, k, len, got, data, pktsRead, bytes) && Has(u.w, k)
    requires k < |v.w| - 1
    ensures |data| <= len
    ensures var p, u1 := Pkt(u.w, k), ReadAt(u, k);
      var data' := data + p.payload[..Min(len - |data|, |p.payload|)];
      && (p.last ==> OutRead(v, u1, r, len, data', pktsRead + 1, bytes + |p.payload|, true))
      && (!p.last ==> OutProgress(v, u1, r, k + 1, len, got + p.payload, data', pktsRead + 1, bytes + |p.payload|))
  {
    var p, u1, e := Pkt(u.w, k).payload, ReadAt(u, k), ReadEnd(u.w, k);
    TakeMore(got, p, len);
    assert u1.w == u.w[k := Entry(None, Read)];
    ReadEndSame(u.w, u1.w, k + 1);
    assert Payloads(u.w, k, e) == p + Payloads(u.w, k + 1, e);
    PayloadsSame(u.w, u1.w, k + 1, e);
    assert got + (p + Payloads(u.w, k + 1, e)) == got + p + Payloads(u.w, k + 1, e);
    assert (got + p) + [] == got + p;
    assert ReadRange(u, k, e) == ReadRange(u1, k + 1, e);
    assert ReadRange(u1, k + 1, k + 1) == u1;
    assert u.w[k] == v.w[k];
    hide ReadAt, Take;
  }

  /** The loop's outcome, with the record reset and the counters adjusted, is the consumed state. */
  lemma ConsumedBy(v: Rcv, u: Rcv, r: int, len: nat, data: seq<Byte>, pktsRead: int, bytes: int, last: bool)
    requires 0 <= r < |v.w|
    requires if r == 0 then FrontRead(v, u, len, data, pktsRead, bytes, last)
             else OutRead(v, u, r, len, data, pktsRead, bytes, last)
    ensures var e := ReadEnd(v.w, r); data == Take(Payloads(v.w, r, e), len)
    ensures var u' := if last && r == v.ooo then u.(ooo := -1) else u;
      u'.(bytes := u'.bytes - bytes, pkts := u'.pkts - pktsRead) == Consumed(v, r, ReadEnd(v.w, r))
  {
    ReadKeepsCounters(v, r);
  }

  lemma ReadKeepsCounters(v: Rcv, r: int)
    requires 0 <= r < |v.w|
    ensures var e := ReadEnd(v.w, r);
      && (r == 0 ==> ReadFrontN(v, e).bytes == v.bytes && ReadFrontN(v, e).pkts == v.pkts)
      && (ReadRange(v, r, e).bytes == v.bytes && ReadRange(v, r, e).pkts == v.pkts)
  {
    FrontCounters(v, ReadEnd(v.w, r));
    RangeCounters(v, r, ReadEnd(v.w, r));
  }

  lemma {:induction false} FrontCounters(v: Rcv, n: nat)
    requires |v.w| > 0
    ensures ReadFrontN(v, n).bytes == v.bytes && ReadFrontN(v, n).pkts == v.pkts
    decreases n
  {
    if n > 0 {
      FrontCounters(ReadFront(v), n - 1);
    }
  }

  lemma {:induction false} RangeCounters(v: Rcv, r: int, e: int)
    requires 0 <= r <= e <= |v.w|
    ensures ReadRange(v, r, e).bytes == v.bytes && ReadRange(v, r, e).pkts == v.pkts
    decreases e - r
  {
    if r < e {
      RangeCounters(ReadAt(v, r), r + 1, e);
    }
  }

  lemma PlacedVia(v: Rcv, u: Unit, k: int)
    requires 0 <= k < |v.w|
    ensures Has(Stored(v, u, k).w, k)
    ensures Placed(v, u, k) ==
            if v.TracksOrder() && !u.packet.inorder then OnInsert(Stored(v, u, k), k) else Stored(v, u, k)
  {
  }

  lemma FillerWindow(v: Rcv)
    requires |v.w| > 0
    ensures FillerFront(v).w == v.w[1..] + [EMPTY]
  {
  }

  /** The bytes copied before do not matter to an iteration of readBufferTo. */
  lemma BufStepData(b: BufResult)
    requires Has(b.v.w, 0) && 0 <= b.v.notch && b.rs > 0
    ensures var one := BufStep(b.(data := [])); BufStep(b) == BufResult(one.v, b.data + one.data, one.rs)
  {
    hide FreeFront;
    var one := BufStep(b.(data := []));
    assert forall s: seq<Byte> :: [] + s == s;
  }
}
