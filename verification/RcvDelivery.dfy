/**
 * Delivery without drops: packets of a well-formed stream arrive in any order, with any duplicates,
 * interleaved with reads. Messages may be read in order or out of order.
 */
module RcvDelivery {
  import opened Packets
  import opened RcvModel
  import opened RcvInvariant
  import opened RcvMessages

  /** One message handed to the reader: the stream packets it consumed, and the bytes the reader got. */
  datatype Delivery = Delivery(from: int, to: int, len: nat, data: seq<Byte>)

  datatype Event = Arrive(u: Unit, j: int) | ReadOne(len: nat)

  datatype Session = Session(v: Rcv, out: seq<Delivery>)

  ghost predicate Possible(s: Session, st: seq<Packet>, ev: Event) {
    ev.Arrive? ==> Arrival(s.v, st, ev.u, ev.j)
  }

  function Next(s: Session, ev: Event): Session
    requires |s.v.w| > 0 && 0 <= s.v.nonread <= |s.v.w| && -1 <= s.v.ooo < |s.v.w|
  {
    match ev
    case Arrive(u, _) => Session(Insert(s.v, u).0, s.out)
    case ReadOne(len) =>
      var r := ReadMessage(s.v, len);
      if r.at < 0 then s
      else Session(r.v, s.out + [Delivery(s.v.base + r.at, s.v.base + r.at + r.count, len, r.data)])
  }

  // ------------------------------------------------------------------ what has left the buffer

  /** The j-th packet has been consumed: the start has passed it, or it was read out of order. */
  predicate Done(v: Rcv, j: int) {
    0 <= j && (j < v.base || (j - v.base < |v.w| && v.w[j - v.base].status == Read))
  }

  /** The start stands between messages, and what was read out of order are whole messages. */
  ghost predicate WholeReads(w: seq<Entry>, base: nat, st: seq<Packet>) {
    && base <= |st| && (base < |st| ==> st[base].first)
    && (forall k :: 0 <= k < |w| ==> w[k].status != Drop)
    && (forall k {:trigger w[k]} :: 0 <= k < |w| && w[k].status == Read ==> WholeAt(w, k, base, st))
  }

  /** The rest of the message that a slot belongs to was read with it. */
  ghost predicate WholeAt(w: seq<Entry>, k: int, base: nat, st: seq<Packet>)
    requires 0 <= k < |w|
  {
    && base + k < |st|
    && (st[base + k].last || (k + 1 < |w| && w[k + 1].status == Read))
    && (st[base + k].first || (0 < k && w[k - 1].status == Read))
  }

  ghost predicate ShiftOf(w: seq<Entry>, w1: seq<Entry>, n: nat) {
    |w1| == |w| && forall k :: 0 <= k < |w| ==> w1[k] == (if k + n < |w| then w[k + n] else EMPTY)
  }

  ghost predicate ReadOutOf(w: seq<Entry>, w1: seq<Entry>, r: int, e: int) {
    |w1| == |w| && forall k :: 0 <= k < |w| ==> w1[k] == (if r <= k < e then Entry(None, Read) else w[k])
  }

  ghost predicate GoodDelivery(d: Delivery, st: seq<Packet>) {
    IsMessage(st, d.from, d.to) && d.data == Take(Join(st[d.from..d.to]), d.len)
  }

  ghost predicate Listed(out: seq<Delivery>, j: int) {
    exists i :: 0 <= i < |out| && out[i].from == j
  }

  /** Deliveries are whole messages, no two are the same one, and they are exactly the consumed ones. */
  ghost predicate Accounted(v: Rcv, st: seq<Packet>, out: seq<Delivery>) {
    && (forall i :: 0 <= i < |out| ==> GoodDelivery(out[i], st) && Done(v, out[i].from))
    && (forall i, k :: 0 <= i < k < |out| ==> out[i].from != out[k].from)
    && (forall j :: 0 <= j < |st| && Done(v, j) && st[j].first ==> Listed(out, j))
  }

  ghost predicate DeliveryInv(s: Session, st: seq<Packet>) {
    && MsgInv(s.v, st) && s.v.messageApi && Numbered(st, s.v.isn)
    && WholeReads(s.v.w, s.v.base, st) && Accounted(s.v, st, s.out)
  }

  // ------------------------------------------------------------------ arrivals

  /** An insert changes one empty slot at most. */
  lemma InsertWindow(v: Rcv, u: Unit)
    requires Struct(v)
    ensures var v' := Insert(v, u).0;
      && v'.base == v.base && |v'.w| == |v.w|
      && (forall k :: 0 <= k < |v.w| ==> v'.w[k] == v.w[k] || (v.w[k].status == Empty && v'.w[k].status == Avail))
  {
    var k := InsertOffset(v, u);
    if 0 <= k < |v.w| - 1 && v.w[k].status == Empty {
      PlacedIs(v.(maxOff := Max(v.maxOff, k + 1)), u, k);
    }
  }

  // ------------------------------------------------------------------ reads

  lemma {:induction false} PayloadsJoin(w: seq<Entry>, base: nat, st: seq<Packet>, i: int, e: int)
    requires FromStream(w, base, st) && 0 <= i <= e <= |w| && base + e <= |st|
    requires forall k :: i <= k < e ==> w[k].unit.Some?
    ensures Payloads(w, i, e) == Join(st[base + i..base + e])
    decreases e - i
  {
    if i < e {
      PayloadsJoin(w, base, st, i + 1, e);
      assert st[base + i..base + e][1..] == st[base + i + 1..base + e];
      assert w[i].unit.Some?;
    }
  }

  /** A packet after the first of a run without PB_LAST inside is not the first of any message. */
  lemma OneFirst(st: seq<Packet>, a: int, b: int, j: int)
    requires WellFormed(st) && IsMessage(st, a, b) && a < j < b
    ensures !st[j].first
  {
    assert Follows(st[j - 1], st[j]);
  }

  lemma ReadsFirst(v: Rcv, st: seq<Packet>)
    requires HeadStored(v) && FromStream(v.w, v.base, st) && WholeReads(v.w, v.base, st)
    requires ReadPos(v) >= 0 && Has(v.w, ReadPos(v))
    ensures v.base + ReadPos(v) < |st| && st[v.base + ReadPos(v)].first
  {
  }

  /** What readMessage takes is one whole message of the stream, untouched. */
  lemma ReadIsMessage(v: Rcv, st: seq<Packet>)
    requires WellFormed(st) && MsgInv(v, st) && v.messageApi && WholeReads(v.w, v.base, st) && ReadPos(v) >= 0
    ensures var r, e := ReadPos(v), ReadEnd(v.w, ReadPos(v));
      && 0 <= r < e < |v.w| && (forall k :: r <= k < e ==> v.w[k].unit.Some?)
      && IsMessage(st, v.base + r, v.base + e) && Payloads(v.w, r, e) == Join(st[v.base + r..v.base + e])
  {
    hide MsgInv, Core, Bounded, Prefix, Payloads, OooOk, ReadEnd, WholeReads, WellFormed;
    MsgFacts(v, st);
    CoreRanged(v);
    ReadMeetsLast(v, st);
    ReadsFirst(v, st);
    var r, e := ReadPos(v), ReadEnd(v.w, ReadPos(v));
    assert v.w[e - 1].unit.Some? && v.w[r].unit.Some?;
    PayloadsJoin(v.w, v.base, st, r, e);
    forall j | v.base + r <= j < v.base + e - 1
      ensures !st[j].last
    {
      assert v.w[j - v.base].unit.Some?;
    }
  }

  /** What reading [r, e) leaves in the window. */
  ghost predicate TakenOut(v: Rcv, c: Rcv, r: int, e: int) {
    if r == 0 then 0 <= e && ShiftOf(v.w, c.w, e) && c.base == v.base + e
    else ReadOutOf(v.w, c.w, r, e) && c.base == v.base
  }

  lemma FrontTakes(v: Rcv, e: int)
    requires Struct(v) && 0 <= e < |v.w| && StoredBefore(v.w, e)
    ensures ShiftOf(v.w, ReadFrontN(v, e).w, e) && ReadFrontN(v, e).base == v.base + e
  {
    ReadFrontNPops(v, e);
    hide Struct, Core, ReadFrontN, Shifted;
    ShiftedAt(v.w, e);
  }

  lemma ConsumedTakes(v: Rcv, r: int, e: int)
    requires Struct(v) && 0 <= r < |v.w| && e == ReadEnd(v.w, r) && (r > 0 ==> v.nonread == 0)
    ensures TakenOut(v, Consumed(v, r, e), r, e)
  {
    hide Core, Bounded, Prefix, ReadRange, ReadFrontN, ShiftOf, ReadEnd;
    ReadEndShort(v, r);
    if r == 0 {
      FrontTakes(v, e);
    } else {
      ConsumedOut(v, r, e);
    }
  }

  lemma TakenDone(v: Rcv, c: Rcv, r: int, e: int)
    requires TakenOut(v, c, r, e) && 0 <= r < e < |v.w| && forall k :: r <= k < e ==> v.w[k].status == Avail
    ensures forall j :: Done(c, j) <==> Done(v, j) || v.base + r <= j < v.base + e
  {
    forall j
      ensures Done(c, j) <==> Done(v, j) || v.base + r <= j < v.base + e
    {
      var k := j - c.base;
      if 0 <= k < |c.w| {
        assert r == 0 ==> c.w[k] == (if k + e < |v.w| then v.w[k + e] else EMPTY);
        assert r > 0 ==> c.w[k] == (if r <= k < e then Entry(None, Read) else v.w[k]);
      }
    }
  }

  /** Shifting by whole messages. */
  lemma ShiftWhole(w: seq<Entry>, w1: seq<Entry>, n: nat, base: nat, st: seq<Packet>)
    requires WholeReads(w, base, st) && n < |w| && ShiftOf(w, w1, n)
    requires base + n <= |st| && (base + n < |st| ==> st[base + n].first)
    ensures WholeReads(w1, base + n, st)
  {
    forall k | 0 <= k < |w1|
      ensures w1[k].status != Drop
      ensures w1[k].status == Read ==> WholeAt(w1, k, base + n, st)
    {
      assert w1[k] == (if k + n < |w| then w[k + n] else EMPTY);
      if w1[k].status == Read {
        assert WholeAt(w, k + n, base, st);
        if k + 1 < |w1| && k + 1 + n < |w| {
          assert w1[k + 1] == w[k + 1 + n];
        }
        if k > 0 {
          assert w1[k - 1] == w[k - 1 + n];
        }
      }
    }
  }

  lemma ReadOutWhole(w: seq<Entry>, w1: seq<Entry>, r: int, e: int, base: nat, st: seq<Packet>)
    requires WholeReads(w, base, st) && 0 <= r < e < |w| && ReadOutOf(w, w1, r, e)
    requires IsMessage(st, base + r, base + e)
    ensures WholeReads(w1, base, st)
  {
    forall k | 0 <= k < |w1|
      ensures w1[k].status != Drop
      ensures w1[k].status == Read ==> WholeAt(w1, k, base, st)
    {
      assert w1[k] == (if r <= k < e then Entry(None, Read) else w[k]);
      if w1[k].status == Read {
        assert r <= k < e || WholeAt(w, k, base, st);
        if k + 1 < |w1| {
          assert w1[k + 1] == (if r <= k + 1 < e then Entry(None, Read) else w[k + 1]);
        }
        if k > 0 {
          assert w1[k - 1] == (if r <= k - 1 < e then Entry(None, Read) else w[k - 1]);
        }
      }
    }
  }

  lemma TakenWhole(v: Rcv, c: Rcv, r: int, e: int, st: seq<Packet>)
    requires WellFormed(st) && WholeReads(v.w, v.base, st) && TakenOut(v, c, r, e)
    requires 0 <= r < e < |v.w| && IsMessage(st, v.base + r, v.base + e)
    ensures WholeReads(c.w, c.base, st)
  {
    if r == 0 {
      if v.base + e < |st| {
        assert Follows(st[v.base + e - 1], st[v.base + e]);
      }
      ShiftWhole(v.w, c.w, e, v.base, st);
    } else {
      ReadOutWhole(v.w, c.w, r, e, v.base, st);
    }
  }

  lemma LeadWhole(w: seq<Entry>, n: nat, base: nat, st: seq<Packet>)
    requires WellFormed(st) && WholeReads(w, base, st) && 0 < n < |w|
    requires w[n - 1].status == Read && w[n].status != Read
    ensures base + n <= |st| && (base + n < |st| ==> st[base + n].first)
  {
    assert WholeAt(w, n - 1, base, st);
    if base + n < |st| {
      assert Follows(st[base + n - 1], st[base + n]);
    }
  }

  lemma ReleasedWhole(v: Rcv, st: seq<Packet>)
    requires WellFormed(st) && Core(v) && 0 <= v.maxOff && WholeReads(v.w, v.base, st)
    ensures var v1 := ReleaseFillers(v); WholeReads(v1.w, v1.base, st) && forall j :: Done(v1, j) <==> Done(v, j)
  {
    hide Core, ReleaseFillers, ShiftOf;
    CoreRanged(v);
    var n := Lead(v.w);
    var v1 := ReleaseFillers(v);
    ReleasedShift(v);
    assert forall k :: 0 <= k < n ==> v.w[k].status == Read;
    hide Lead;
    if n > 0 {
      LeadWhole(v.w, n, v.base, st);
    }
    ShiftWhole(v.w, v1.w, n, v.base, st);
    ShiftDone(v, v1, n);
  }

  lemma ReleasedShift(v: Rcv)
    requires Core(v) && 0 <= v.maxOff
    ensures var v1 := ReleaseFillers(v);
      ShiftOf(v.w, v1.w, Lead(v.w)) && v1.base == v.base + Lead(v.w) && Lead(v.w) < |v.w|
  {
    hide Core, ReleaseFillers, Lead, Shifted;
    CoreRanged(v);
    ReleaseFillersPops(v);
    LeadShort(v.w);
    ShiftedAt(v.w, Lead(v.w));
  }

  lemma ShiftDone(v: Rcv, v1: Rcv, n: nat)
    requires n < |v.w| && ShiftOf(v.w, v1.w, n) && v1.base == v.base + n
    requires forall k :: 0 <= k < n ==> v.w[k].status == Read
    ensures forall j :: Done(v1, j) <==> Done(v, j)
  {
    forall j
      ensures Done(v1, j) <==> Done(v, j)
    {
      var k := j - v1.base;
      if 0 <= k < |v1.w| {
        assert v1.w[k] == (if k + n < |v.w| then v.w[k + n] else EMPTY);
      }
    }
  }

  // ------------------------------------------------------------------ the bookkeeping of deliveries

  lemma AccountedSame(v: Rcv, v': Rcv, st: seq<Packet>, out: seq<Delivery>)
    requires Accounted(v, st, out) && forall j :: Done(v', j) <==> Done(v, j)
    ensures Accounted(v', st, out)
  {
  }

  /** Adding the message just consumed to those delivered before. */
  lemma AccountedMore(v: Rcv, v': Rcv, st: seq<Packet>, out: seq<Delivery>, d: Delivery)
    requires WellFormed(st) && Accounted(v, st, out) && GoodDelivery(d, st) && !Done(v, d.from)
    requires forall j :: Done(v', j) <==> Done(v, j) || d.from <= j < d.to
    ensures Accounted(v', st, out + [d])
  {
    hide Counts;
    var out' := out + [d];
    forall j | 0 <= j < |st| && Done(v', j) && st[j].first
      ensures Listed(out', j)
    {
      if Done(v, j) {
        var i :| 0 <= i < |out| && out[i].from == j;
        assert out'[i].from == j;
      } else {
        if j != d.from {
          OneFirst(st, d.from, d.to, j);
        }
        assert out'[|out|].from == j;
      }
    }
  }

  lemma ArriveKeeps(s: Session, st: seq<Packet>, u: Unit, j: int)
    requires WellFormed(st) && DeliveryInv(s, st) && Arrival(s.v, st, u, j)
    ensures DeliveryInv(Next(s, Arrive(u, j)), st)
  {
    InsertMsg(s.v, st, u, j);
    InsertWindow(s.v, u);
    var v' := Insert(s.v, u).0;
    hide Struct, MsgInv, Insert, Accounted;
    InsertDone(s.v, v', st);
    AccountedSame(s.v, v', st, s.out);
  }

  lemma InsertDone(v: Rcv, v': Rcv, st: seq<Packet>)
    requires v'.base == v.base && |v'.w| == |v.w| && WholeReads(v.w, v.base, st)
    requires forall k :: 0 <= k < |v.w| ==> v'.w[k] == v.w[k] || (v.w[k].status == Empty && v'.w[k].status == Avail)
    ensures WholeReads(v'.w, v'.base, st) && forall j :: Done(v', j) <==> Done(v, j)
  {
    forall k | 0 <= k < |v.w| && v'.w[k].status == Read
      ensures WholeAt(v'.w, k, v.base, st)
    {
      assert v'.w[k] == v.w[k] && WholeAt(v.w, k, v.base, st);
    }
  }

  /** The state that readMessage leaves: one more whole message is consumed, nothing else. */
  lemma ReadConsumes(v: Rcv, st: seq<Packet>, len: nat)
    requires WellFormed(st) && MsgInv(v, st) && v.messageApi && WholeReads(v.w, v.base, st) && ReadPos(v) >= 0
    ensures var r, e, v' := ReadPos(v), ReadEnd(v.w, ReadPos(v)), ReadMessage(v, len).v;
      && WholeReads(v'.w, v'.base, st)
      && !Done(v, v.base + r)
      && (forall j :: Done(v', j) <==> Done(v, j) || v.base + r <= j < v.base + e)
  {
    hide MsgInv, Struct, Core, Bounded, Prefix, Consumed, TakenOut, WholeReads, AfterRead, ReleaseFillers, ReadEnd,
         Payloads;
    MsgRanged(v, st);
    MsgStruct(v, st);
    var r := ReadPos(v);
    var e := ReadEnd(v.w, r);
    ReadIsMessage(v, st);
    var c := Consumed(v, r, e);
    ConsumedStruct(v, r, e);
    ConsumedTakes(v, r, e);
    TakenDone(v, c, r, e);
    TakenWhole(v, c, r, e, st);
    MaxNatural(c);
    ReleasedWhole(c, st);
    AfterReadWindow(c);
  }

  lemma MsgStruct(v: Rcv, st: seq<Packet>)
    requires MsgInv(v, st)
    ensures Struct(v)
  {
  }

  lemma MaxNatural(v: Rcv)
    requires Core(v) && Bounded(v)
    ensures 0 <= v.maxOff && |v.w| > 0
  {
  }

  lemma ReadDelivers(s: Session, st: seq<Packet>, len: nat)
    requires WellFormed(st) && MsgInv(s.v, st) && s.v.messageApi && WholeReads(s.v.w, s.v.base, st) && ReadPos(s.v) >= 0
    ensures var r := ReadMessage(s.v, len);
      && r.at == ReadPos(s.v) && r.at + r.count == ReadEnd(s.v.w, r.at)
      && GoodDelivery(Delivery(s.v.base + r.at, s.v.base + r.at + r.count, len, r.data), st)
  {
    hide MsgInv, WholeReads, ReadEnd, Payloads;
    MsgRanged(s.v, st);
    ReadIsMessage(s.v, st);
  }

  lemma MsgRanged(v: Rcv, st: seq<Packet>)
    requires MsgInv(v, st)
    ensures Ranged(v) && (ReadPos(v) > 0 ==> v.nonread == 0)
    ensures forall k :: 0 <= k < |v.w| && v.w[k].unit.Some? ==> v.w[k].status == Avail
  {
  }

  lemma ReadKeeps(s: Session, st: seq<Packet>, len: nat)
    requires WellFormed(st) && DeliveryInv(s, st) && ReadPos(s.v) >= 0
    ensures DeliveryInv(Next(s, ReadOne(len)), st)
  {
    hide MsgInv, Accounted, WholeReads, GoodDelivery, Done, ReadMessage, ReadEnd;
    MsgRanged(s.v, st);
    var r := ReadMessage(s.v, len);
    ReadMessageMsg(s.v, st, len);
    ReadDelivers(s, st, len);
    ReadConsumes(s.v, st, len);
    AccountedMore(s.v, r.v, st, s.out, Delivery(s.v.base + r.at, s.v.base + r.at + r.count, len, r.data));
  }

  lemma AfterReadWindow(v: Rcv)
    requires |v.w| > 0
    ensures AfterRead(v).w == ReleaseFillers(v).w && AfterRead(v).base == ReleaseFillers(v).base
    ensures forall j :: Done(AfterRead(v), j) <==> Done(ReleaseFillers(v), j)
  {
  }
}
