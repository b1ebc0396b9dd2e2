/**
 * Runs without drops, seen as whole histories: each sent message is delivered at most once and untouched;
 * when every message asks for order, what is delivered is a prefix of what was sent, and once every packet
 * is in, all of it can be read.
 */
module RcvInOrder {
  import opened SeqNo
  import opened Packets
  import opened RcvModel
  import opened RcvInvariant
  import opened RcvMessages
  import opened RcvDelivery

  ghost predicate IsHistory(ss: seq<Session>, evs: seq<Event>, st: seq<Packet>) {
    && |ss| == |evs| + 1
    && (forall i :: 0 <= i < |evs| ==> Follows1(ss[i], evs[i], ss[i + 1], st))
  }

  ghost predicate Follows1(s: Session, ev: Event, s': Session, st: seq<Packet>) {
    Ranged(s.v) && Possible(s, st, ev) && s' == Next(s, ev)
  }

  function Start(isn: nat, size: nat, tsbpd: bool): Session {
    Session(Init(isn, size, true, tsbpd), [])
  }

  lemma StartInv(isn: nat, size: nat, tsbpd: bool, st: seq<Packet>)
    requires 0 < size < MAX_SEQNO && WellFormed(st) && Numbered(st, isn)
    ensures DeliveryInv(Start(isn, size, tsbpd), st)
  {
    InitStruct(isn, size, true, tsbpd);
    hide Struct;
  }

  lemma NextKeeps(s: Session, ev: Event, st: seq<Packet>)
    requires WellFormed(st) && DeliveryInv(s, st) && Possible(s, st, ev)
    ensures Ranged(s.v) && DeliveryInv(Next(s, ev), st) && Next(s, ev).v.isn == s.v.isn
  {
    hide MsgInv, WholeReads, Accounted;
    MsgRanged(s.v, st);
    match ev
    case Arrive(u, j) => ArriveKeeps(s, st, u, j);
    case ReadOne(len) =>
      if ReadPos(s.v) >= 0 {
        ReadKeeps(s, st, len);
      }
  }

  /**
   * Any arrivals, any reads: every delivery is one whole sent message, unmodified up to the length the reader
   * asked for, no message is delivered twice, and no packet leaves the buffer undelivered.
   */
  lemma {:induction false} EachMessageOnce(ss: seq<Session>, evs: seq<Event>, st: seq<Packet>, isn: nat, size: nat,
      tsbpd: bool, n: nat)
    requires 0 < size < MAX_SEQNO && WellFormed(st) && Numbered(st, isn)
    requires IsHistory(ss, evs, st) && ss[0] == Start(isn, size, tsbpd) && n < |ss|
    ensures DeliveryInv(ss[n], st)
  {
    if n == 0 {
      StartInv(isn, size, tsbpd, st);
    } else {
      EachMessageOnce(ss, evs, st, isn, size, tsbpd, n - 1);
      hide DeliveryInv;
      assert Follows1(ss[n - 1], evs[n - 1], ss[n - 1 + 1], st);
      NextKeeps(ss[n - 1], evs[n - 1], st);
    }
  }

  // ------------------------------------------------------------------ what was accepted stays accounted for

  /** The j-th packet is stored or already consumed. */
  predicate Present(v: Rcv, j: int) {
    Done(v, j) || Has(v.w, j - v.base)
  }

  predicate Accepted(s: Session, ev: Event) {
    ev.Arrive? && |s.v.w| > 0 && 0 <= s.v.nonread <= |s.v.w| && Insert(s.v, ev.u).1 == INSERT_OK
  }

  lemma ArrivePresent(s: Session, st: seq<Packet>, u: Unit, j: int, i: int)
    requires WellFormed(st) && DeliveryInv(s, st) && Arrival(s.v, st, u, j)
    ensures Present(s.v, i) ==> Present(Insert(s.v, u).0, i)
    ensures Insert(s.v, u).1 == INSERT_OK ==> Present(Insert(s.v, u).0, j)
    ensures Insert(s.v, u).1 == INSERT_DUPLICATE || Insert(s.v, u).1 == INSERT_BEHIND ==> Present(s.v, j)
  {
    hide DeliveryInv, Core, Bounded, Prefix, Insert, WellFormed;
    DeliveryStruct(s, st);
    CoreRanged(s.v);
    ArrivalOffset(s.v, st, u, j);
    NotDrop(s, st, j - s.v.base);
    if Present(s.v, i) {
      InsertKeeps(s.v, u, i);
    }
    InsertAnswers(s.v, u);
  }

  lemma DeliveryStruct(s: Session, st: seq<Packet>)
    requires DeliveryInv(s, st)
    ensures Struct(s.v) && Numbered(st, s.v.isn)
  {
    hide WholeReads, Accounted, Core;
  }

  lemma InsertKeeps(v: Rcv, u: Unit, i: int)
    requires Struct(v) && Present(v, i)
    ensures Present(Insert(v, u).0, i)
  {
    InsertWindow(v, u);
    CoreRanged(v);
    hide Core, Insert;
  }

  /** What the answer of an insert says about the packet of that number. */
  lemma InsertAnswers(v: Rcv, u: Unit)
    requires Struct(v)
    ensures var k, r := InsertOffset(v, u), Insert(v, u);
      && (r.1 == INSERT_OK ==> Has(r.0.w, k) && r.0.base == v.base)
      && (r.1 == INSERT_DUPLICATE ==> 0 <= k < |v.w| && v.w[k].status != Empty)
      && (r.1 == INSERT_BEHIND ==> k < 0)
  {
    var k := InsertOffset(v, u);
    InsertWindow(v, u);
    if 0 <= k < |v.w| - 1 {
      PlacedIs(v.(maxOff := Max(v.maxOff, k + 1)), u, k);
    }
  }

  lemma NotDrop(s: Session, st: seq<Packet>, k: int)
    requires DeliveryInv(s, st)
    ensures 0 <= k < |s.v.w| ==> s.v.w[k].status != Drop && (s.v.w[k].status == Avail <==> s.v.w[k].unit.Some?)
  {
    hide Counts, Accounted;
  }

  lemma TakenPresent(v: Rcv, c: Rcv, r: int, e: int, k: int)
    requires TakenOut(v, c, r, e) && Has(v.w, k) && 0 <= r < e && !(r <= k < e)
    ensures Has(c.w, v.base + k - c.base)
  {
    if r == 0 {
      assert c.w[k - e] == v.w[k];
    } else {
      assert c.w[k] == v.w[k];
    }
  }

  lemma ReadPresent(v: Rcv, st: seq<Packet>, len: nat, i: int)
    requires WellFormed(st) && MsgInv(v, st) && v.messageApi && WholeReads(v.w, v.base, st) && ReadPos(v) >= 0
    requires Present(v, i)
    ensures Present(ReadMessage(v, len).v, i)
  {
    hide MsgInv, Struct, Core, Bounded, WholeReads, TakenOut, ReadEnd, Payloads, AfterRead, Consumed, ReleaseFillers,
         Done;
    MsgRanged(v, st);
    MsgStruct(v, st);
    var r := ReadPos(v);
    var e := ReadEnd(v.w, r);
    ReadIsMessage(v, st);
    ReadConsumes(v, st, len);
    var c := Consumed(v, r, e);
    ConsumedStruct(v, r, e);
    ConsumedTakes(v, r, e);
    MaxNatural(c);
    AfterReadWindow(c);
    if !Done(ReadMessage(v, len).v, i) {
      TakenPresent(v, c, r, e, i - v.base);
      ReleasedPresent(c, i);
    }
  }

  lemma ReleasedPresent(v: Rcv, i: int)
    requires Core(v) && Bounded(v) && Has(v.w, i - v.base)
    ensures var v1 := ReleaseFillers(v); Present(v1, i)
  {
    hide Counts, ReleaseFillers;
    MaxNatural(v);
    ReleasedShift(v);
    var n := Lead(v.w);
    var k := i - v.base;
    if k >= n {
      assert ReleaseFillers(v).w[k - n] == v.w[k];
    }
  }

  /** A packet that an insert of the history accepted is stored or delivered ever after. */
  lemma {:induction false} AcceptedStays(ss: seq<Session>, evs: seq<Event>, st: seq<Packet>, isn: nat, size: nat,
      tsbpd: bool, a: nat, n: nat)
    requires 0 < size < MAX_SEQNO && WellFormed(st) && Numbered(st, isn)
    requires IsHistory(ss, evs, st) && ss[0] == Start(isn, size, tsbpd) && a < n < |ss|
    requires Accepted(ss[a], evs[a])
    ensures Present(ss[n].v, evs[a].j)
  {
    hide DeliveryInv, Insert, Present;
    EachMessageOnce(ss, evs, st, isn, size, tsbpd, n - 1);
    assert Follows1(ss[n - 1], evs[n - 1], ss[n - 1 + 1], st);
    if a == n - 1 {
      ArrivePresent(ss[a], st, evs[a].u, evs[a].j, evs[a].j);
    } else {
      hide Next;
      AcceptedStays(ss, evs, st, isn, size, tsbpd, a, n - 1);
      NextPresent(ss[n - 1], evs[n - 1], st, evs[a].j);
    }
  }

  lemma NextPresent(s: Session, ev: Event, st: seq<Packet>, i: int)
    requires WellFormed(st) && DeliveryInv(s, st) && Possible(s, st, ev) && Present(s.v, i)
    requires Ranged(s.v)
    ensures Present(Next(s, ev).v, i)
  {
    hide MsgInv, WholeReads, Accounted, Present, ReadMessage;
    match ev
    case Arrive(u, j) => ArrivePresent(s, st, u, j, i);
    case ReadOne(len) =>
      NoRead(s.v, len);
      if ReadPos(s.v) >= 0 {
        ReadPresent(s.v, st, len, i);
      }
  }

  lemma NoRead(v: Rcv, len: nat)
    requires Ranged(v)
    ensures ReadMessage(v, len).at == ReadPos(v) || (ReadPos(v) < 0 && ReadMessage(v, len).at < 0)
  {
  }

  // ------------------------------------------------------------------ every message in order

  ghost predicate AllInOrder(st: seq<Packet>) {
    forall j :: 0 <= j < |st| ==> st[j].inorder
  }

  /** The deliveries lie end to end from the beginning of the stream up to base. */
  ghost predicate Tiles(out: seq<Delivery>, base: int) {
    && (out == [] ==> base == 0)
    && (out != [] ==> out[0].from == 0 && out[|out| - 1].to == base)
    && (forall i :: 0 < i < |out| ==> out[i].from == out[i - 1].to)
  }

  /** A whole message is stored from offset k on. */
  predicate Complete(w: seq<Entry>, k: int) {
    Has(w, k) && Pkt(w, k).first && RunEnd(w, k).Some?
  }

  /** The first non-readable position cannot be moved further. */
  predicate Maximal(v: Rcv) {
    !Complete(v.w, v.nonread)
  }

  ghost predicate InOrderInv(s: Session, st: seq<Packet>) {
    && DeliveryInv(s, st) && AllInOrder(st)
    && (forall k :: 0 <= k < |s.v.w| ==> s.v.w[k].status != Read)
    && Tiles(s.out, s.v.base) && Maximal(s.v)
  }

  lemma {:induction false} ExtendStops(w: seq<Entry>, i: int)
    requires 0 <= i <= |w|
    ensures !Complete(w, Extend(w, i, true))
    decreases |w| - i
  {
    if Complete(w, i) {
      ExtendStops(w, RunEnd(w, i).value);
    }
  }

  lemma {:induction false} RunEndShift(w: seq<Entry>, w1: seq<Entry>, n: nat, i: int)
    requires ShiftOf(w, w1, n) && n <= i
    ensures RunEnd(w1, i - n).Some? <==> RunEnd(w, i).Some?
    decreases |w| - i
  {
    if i < |w| {
      assert w1[i - n] == w[i];
      if Has(w, i) && !Pkt(w, i).last {
        RunEndShift(w, w1, n, i + 1);
      }
    } else if i - n < |w| {
      assert w1[i - n] == EMPTY;
    }
  }

  lemma CompleteShift(w: seq<Entry>, w1: seq<Entry>, n: nat, i: int)
    requires ShiftOf(w, w1, n) && n <= i < |w|
    ensures Complete(w1, i - n) <==> Complete(w, i)
  {
    assert w1[i - n] == w[i];
    RunEndShift(w, w1, n, i);
  }

  /** An order-clear message is never recorded when there is none. */
  lemma NoRecord(v: Rcv, st: seq<Packet>)
    requires MsgInv(v, st) && AllInOrder(st)
    ensures v.ooo < 0
  {
    hide Struct;
  }

  /** In order, a read moves the start past one message and the readable part shrinks by just that. */
  lemma InOrderRead(v: Rcv, st: seq<Packet>, len: nat)
    requires WellFormed(st) && MsgInv(v, st) && v.messageApi && WholeReads(v.w, v.base, st) && v.nonread > 0
    requires forall k :: 0 <= k < |v.w| ==> v.w[k].status != Read
    ensures var e, v' := ReadEnd(v.w, 0), ReadMessage(v, len).v;
      0 < e <= v.nonread && ShiftOf(v.w, v'.w, e) && v'.base == v.base + e && v'.nonread == v.nonread - e
  {
    var e := ReadEnd(v.w, 0);
    hide WholeReads, AfterRead, Consumed, ReleaseFillers, ReadFrontN, ReadEnd, Payloads, OooMessage, FromStream, Counts;
    ReadEndLast(v.w, 0, v.nonread);
    ReadEndShort(v, 0);
    ConsumedFront(v, e);
    FrontTakes(v, e);
    ConsumedStruct(v, 0, e);
    ConsumedPart(v, e);
    hide Struct, Core;
    var c := Consumed(v, 0, e);
    NothingReleased(v, c, e);
    AfterReadSame(c);
  }

  lemma ConsumedPart(v: Rcv, e: int)
    requires |v.w| > 0 && 0 <= e <= |v.w| && forall k :: 0 <= k < e ==> v.w[k].unit.Some?
    ensures var c, v1 := Consumed(v, 0, e), ReadFrontN(v, e);
      c.w == v1.w && c.base == v1.base && c.nonread == v1.nonread && c.maxOff == v1.maxOff
  {
  }

  lemma NothingReleased(v: Rcv, c: Rcv, e: nat)
    requires ShiftOf(v.w, c.w, e) && |v.w| > 0
    requires forall k :: 0 <= k < |v.w| ==> v.w[k].status != Read && v.w[k].status != Drop
    ensures ReleaseFillers(c) == c
  {
    assert c.w[0] == (if e < |v.w| then v.w[e] else EMPTY);
  }

  lemma AfterReadSame(c: Rcv)
    requires |c.w| > 0 && ReleaseFillers(c) == c && 0 <= c.nonread <= c.maxOff
    ensures AfterRead(c).w == c.w && AfterRead(c).base == c.base && AfterRead(c).nonread == c.nonread
  {
    hide ReleaseFillers, FindOoo;
  }

  lemma TilesMore(out: seq<Delivery>, d: Delivery)
    requires Tiles(out, d.from)
    ensures Tiles(out + [d], d.to)
  {
  }

  lemma ArriveInOrder(s: Session, st: seq<Packet>, u: Unit, j: int)
    requires WellFormed(st) && InOrderInv(s, st) && Arrival(s.v, st, u, j)
    ensures InOrderInv(Next(s, Arrive(u, j)), st)
  {
    hide MsgInv, WholeReads, Accounted, Struct, Tiles, Complete;
    MsgRanged(s.v, st);
    MsgStruct(s.v, st);
    ArriveKeeps(s, st, u, j);
    InsertWindow(s.v, u);
    InsertMaximal(s.v, st, u);
  }

  lemma InsertMaximal(v: Rcv, st: seq<Packet>, u: Unit)
    requires Struct(v) && v.messageApi && Maximal(v)
    ensures Maximal(Insert(v, u).0)
  {
    var k := InsertOffset(v, u);
    if 0 <= k < |v.w| - 1 && v.w[k].status == Empty {
      var v0 := v.(maxOff := Max(v.maxOff, k + 1));
      PlacedIs(v0, u, k);
      hide Struct, Extend, Placed;
      ExtendStops(Placed(v0, u, k).w, v.nonread);
    }
  }

  lemma ReadInOrder(s: Session, st: seq<Packet>, len: nat)
    requires WellFormed(st) && InOrderInv(s, st)
    ensures Ranged(s.v) && InOrderInv(Next(s, ReadOne(len)), st)
    ensures s.v.nonread > 0 ==> |Next(s, ReadOne(len)).out| == |s.out| + 1
    ensures s.v.nonread > 0 ==> Next(s, ReadOne(len)).v.nonread < s.v.nonread
  {
    hide MsgInv, WholeReads, Accounted, Struct, Tiles, Complete, ReadMessage, ReadEnd, ShiftOf;
    MsgRanged(s.v, st);
    NoRecord(s.v, st);
    NoRead(s.v, len);
    if s.v.nonread > 0 {
      var r := ReadMessage(s.v, len);
      ReadKeeps(s, st, len);
      ReadDelivers(s, st, len);
      InOrderRead(s.v, st, len);
      CompleteShift(s.v.w, r.v.w, ReadEnd(s.v.w, 0), s.v.nonread);
      TilesMore(s.out, Delivery(s.v.base, s.v.base + r.count, len, r.data));
      ShiftStatus(s.v.w, r.v.w, ReadEnd(s.v.w, 0));
    }
  }

  lemma ShiftStatus(w: seq<Entry>, w1: seq<Entry>, n: nat)
    requires ShiftOf(w, w1, n) && forall k :: 0 <= k < |w| ==> w[k].status != Read
    ensures forall k :: 0 <= k < |w1| ==> w1[k].status != Read
  {
  }

  /**
   * Delivery in order, over any history: what has been delivered is an initial part of the stream, message by
   * message.
   */
  lemma {:induction false} PrefixDelivered(ss: seq<Session>, evs: seq<Event>, st: seq<Packet>, isn: nat, size: nat,
      tsbpd: bool, n: nat)
    requires 0 < size < MAX_SEQNO && WellFormed(st) && Numbered(st, isn) && AllInOrder(st)
    requires IsHistory(ss, evs, st) && ss[0] == Start(isn, size, tsbpd) && n < |ss|
    ensures InOrderInv(ss[n], st)
  {
    if n == 0 {
      StartInv(isn, size, tsbpd, st);
    } else {
      PrefixDelivered(ss, evs, st, isn, size, tsbpd, n - 1);
      hide InOrderInv;
      assert Follows1(ss[n - 1], evs[n - 1], ss[n - 1 + 1], st);
      match evs[n - 1]
      case Arrive(u, j) => ArriveInOrder(ss[n - 1], st, u, j);
      case ReadOne(len) => ReadInOrder(ss[n - 1], st, len);
    }
  }

  // ------------------------------------------------------------------ completeness

  lemma {:induction false} RunEndExists(w: seq<Entry>, base: nat, st: seq<Packet>, i: int, m: int)
    requires WellFormed(st) && FromStream(w, base, st) && 0 <= i < m <= |w| && base + m == |st|
    requires forall k :: i <= k < m ==> w[k].unit.Some?
    ensures RunEnd(w, i).Some?
    decreases m - i
  {
    assert w[i].unit.Some?;
    if !Pkt(w, i).last {
      RunEndExists(w, base, st, i + 1, m);
    }
  }

  /** Once no packet of the stream is missing, all that is left is readable. */
  lemma AllReadable(s: Session, st: seq<Packet>)
    requires WellFormed(st) && InOrderInv(s, st)
    requires forall j :: 0 <= j < |st| ==> Present(s.v, j)
    ensures s.v.base + s.v.nonread == |st|
  {
    var v, m := s.v, |st| - s.v.base;
    hide Accounted, Counts, Complete;
    forall k | 0 <= k < m
      ensures Has(v.w, k)
    {
      PresentHas(v, k);
    }
    assert m > 0 ==> Has(v.w, m - 1);
    assert v.nonread > 0 ==> v.w[v.nonread - 1].unit.Some?;
    if v.nonread < m {
      assert forall k :: 0 <= k < m ==> Has(v.w, k);
      NonreadStartsMessage(v, st, m);
    }
  }

  lemma PresentHas(v: Rcv, k: int)
    requires 0 <= k && Present(v, v.base + k) && forall i :: 0 <= i < |v.w| ==> v.w[i].status != Read
    ensures Has(v.w, k)
  {
  }

  lemma NonreadStartsMessage(v: Rcv, st: seq<Packet>, m: int)
    requires WellFormed(st) && MsgInv(v, st) && v.messageApi && WholeReads(v.w, v.base, st)
    requires 0 <= v.nonread < m <= |v.w| && v.base + m == |st| && forall k :: 0 <= k < m ==> Has(v.w, k)
    ensures Complete(v.w, v.nonread)
  {
    forall k | 0 <= k < m
      ensures v.w[k].unit.Some?
    {
      assert Has(v.w, k);
    }
    RunEndExists(v.w, v.base, st, v.nonread, m);
    assert v.w[v.nonread].unit.Some?;
    if v.nonread > 0 {
      Neighbours(v.w, v.base, st, v.nonread);
    }
  }

  /** Reads until nothing is readable any more. */
  function Drain(s: Session, len: nat, times: nat): Session
    decreases times
  {
    if times == 0 || !(|s.v.w| > 0 && 0 <= s.v.nonread <= |s.v.w| && -1 <= s.v.ooo < |s.v.w|) then s
    else Drain(Next(s, ReadOne(len)), len, times - 1)
  }

  /** Reading as long as something is readable then delivers the stream to its end. */
  lemma {:induction false} DrainDeliversAll(s: Session, st: seq<Packet>, len: nat, times: nat)
    requires WellFormed(st) && InOrderInv(s, st) && s.v.base + s.v.nonread == |st| && s.v.nonread <= times
    ensures var s' := Drain(s, len, times); InOrderInv(s', st) && s'.v.base == |st| && Tiles(s'.out, |st|)
    decreases times
  {
    hide InOrderInv, Next;
    InOrderFacts(s, st);
    if times > 0 {
      DrainStep(s, st, len);
      DrainDeliversAll(Next(s, ReadOne(len)), st, len, times - 1);
    }
  }

  lemma InOrderFacts(s: Session, st: seq<Packet>)
    requires InOrderInv(s, st)
    ensures 0 <= s.v.nonread && Tiles(s.out, s.v.base)
  {
    hide Tiles, Accounted, WholeReads, Complete, Counts;
  }

  lemma DrainStep(s: Session, st: seq<Packet>, len: nat)
    requires WellFormed(st) && InOrderInv(s, st) && s.v.base + s.v.nonread == |st|
    ensures Ranged(s.v)
    ensures var s1 := Next(s, ReadOne(len)); InOrderInv(s1, st) && s1.v.base + s1.v.nonread == |st|
    ensures var s1 := Next(s, ReadOne(len)); s1.v.nonread < s.v.nonread || (s1.v.nonread == 0 && s.v.nonread == 0)
  {
    ReadInOrder(s, st, len);
    NoRecord(s.v, st);
    hide MsgInv, WholeReads, Accounted, Struct, Tiles, Complete, ReadMessage, ReadEnd, ShiftOf;
    NoRead(s.v, len);
    if s.v.nonread > 0 {
      InOrderRead(s.v, st, len);
    }
  }
}
