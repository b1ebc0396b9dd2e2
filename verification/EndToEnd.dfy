/**
 * Sender buffer and receiver buffer joined by a network that loses, reorders and repeats packets: what the
 * reader gets, compared with what was submitted.
 */
module EndToEnd {
  import opened SeqNo
  import opened Packets
  import opened SndModel
  import opened SndRun
  import opened RcvModel
  import opened RcvInvariant
  import opened RcvMessages
  import opened RcvDelivery
  import opened RcvInOrder

  /** Both ends and every packet that was ever put on the wire. */
  datatype Link = Link(x: Sender, wire: seq<Packet>, s: Session)

  /** Sender steps; the k-th packet on the wire, the j-th of the stream, arrives in the unit id; a read. */
  datatype LinkEvent = Send(op: SndOp) | Deliver(k: nat, id: nat, j: int) | ReadMsg(len: nat)

  ghost predicate Enabled(l: Link, ev: LinkEvent, isn: nat) {
    && l.x.s.cur <= |l.x.s.q| && Ranged(l.s.v)
    && (match ev
        case Send(op) => SndEnabled(l.x, op, isn)
        case Deliver(k, id, j) =>
          k < |l.wire| && 0 <= j < |l.x.st| && l.x.st[j] == l.wire[k] && Abs(j - l.s.v.base) < SEQNO_TH
            && id !in l.s.v.taken
        case ReadMsg(_) => true)
  }

  ghost function LinkNext(l: Link, ev: LinkEvent, isn: nat, pktLen: nat): Link
    requires pktLen > 0 && Enabled(l, ev, isn)
  {
    match ev
    case Send(op) =>
      l.(x := SndNext(l.x, op, pktLen),
        wire := if Emitted(l.x, op).Some? then l.wire + [OnWire(Emitted(l.x, op).value)] else l.wire)
    case Deliver(k, id, j) => l.(s := Next(l.s, Arrive(Unit(id, l.wire[k]), j)))
    case ReadMsg(len) => l.(s := Next(l.s, ReadOne(len)))
  }

  ghost predicate IsLinkRun(ls: seq<Link>, evs: seq<LinkEvent>, isn: nat, pktLen: nat) {
    && pktLen > 0 && |ls| == |evs| + 1
    && (forall i :: 0 <= i < |evs| ==> LinkStep(ls[i], evs[i], ls[i + 1], isn, pktLen))
  }

  ghost predicate LinkStep(l: Link, ev: LinkEvent, l': Link, isn: nat, pktLen: nat)
    requires pktLen > 0
  {
    Enabled(l, ev, isn) && l' == LinkNext(l, ev, isn, pktLen)
  }

  function LinkStart(isn: nat, size: nat, tsbpd: bool): Link {
    Link(SndStart(), [], Start(isn, size, tsbpd))
  }

  ghost predicate OnStream(wire: seq<Packet>, st: seq<Packet>) {
    forall k :: 0 <= k < |wire| ==> wire[k] in st
  }

  // ------------------------------------------------------------------ the sender's half

  lemma SendKeeps(l: Link, op: SndOp, isn: nat, pktLen: nat)
    requires SndInv(l.x, isn) && OnStream(l.wire, l.x.st) && Enabled(l, Send(op), isn) && pktLen > 0
    ensures var l' := LinkNext(l, Send(op), isn, pktLen);
      SndInv(l'.x, isn) && OnStream(l'.wire, l'.x.st) && l.x.st <= l'.x.st
  {
    hide SndInv, SndNext, Emitted;
    SndStep(l.x, op, isn, pktLen);
    NextKeepsStream(l.x, op, pktLen);
    var x' := SndNext(l.x, op, pktLen);
    assert forall p :: p in l.x.st ==> p in x'.st;
    if Emitted(l.x, op).Some? {
      EmitsStream(l.x, op, isn);
    }
  }

  /** Whatever is on the wire is a packet of the stream, which only grows. */
  lemma {:induction false} WireInv(ls: seq<Link>, evs: seq<LinkEvent>, isn: nat, pktLen: nat, size: nat, tsbpd: bool,
                                   m: nat, n: nat)
    requires IsLinkRun(ls, evs, isn, pktLen) && ls[0] == LinkStart(isn, size, tsbpd) && m <= n < |ls|
    ensures SndInv(ls[n].x, isn) && OnStream(ls[n].wire, ls[n].x.st) && ls[m].x.st <= ls[n].x.st
    decreases n
  {
    hide SndInv, OnStream, LinkStep;
    if n == 0 {
      StartInv0(isn);
      OnStreamNone();
    } else {
      WireInv(ls, evs, isn, pktLen, size, tsbpd, if m < n then m else n - 1, n - 1);
      assert LinkStep(ls[n - 1], evs[n - 1], ls[n], isn, pktLen);
      WireStep(ls[n - 1], evs[n - 1], ls[n], isn, pktLen);
    }
  }

  lemma OnStreamNone()
    ensures OnStream([], [])
  {
  }

  lemma WireStep(l: Link, ev: LinkEvent, l': Link, isn: nat, pktLen: nat)
    requires pktLen > 0 && LinkStep(l, ev, l', isn, pktLen) && SndInv(l.x, isn) && OnStream(l.wire, l.x.st)
    ensures SndInv(l'.x, isn) && OnStream(l'.wire, l'.x.st) && l.x.st <= l'.x.st
  {
    hide SndInv, OnStream, Enabled, Next, SndNext, Emitted;
    if ev.Send? {
      SendKeeps(l, ev.op, isn, pktLen);
    }
  }

  lemma StartInv0(isn: nat)
    ensures SndInv(SndStart(), isn)
  {
  }

  // ------------------------------------------------------------------ the receiver's half

  /** Against the stream as it stands at step n, the receiver has behaved well all along. */
  lemma {:induction false} ReceiverInv(ls: seq<Link>, evs: seq<LinkEvent>, isn: nat, pktLen: nat, size: nat,
                                       tsbpd: bool, m: nat, n: nat)
    requires IsLinkRun(ls, evs, isn, pktLen) && ls[0] == LinkStart(isn, size, tsbpd) && m <= n < |ls|
    requires 0 < size < MAX_SEQNO
    ensures DeliveryInv(ls[m].s, ls[n].x.st) && ls[m].s.v.isn == isn
    ensures AllInOrder(ls[n].x.st) ==> InOrderInv(ls[m].s, ls[n].x.st)
    decreases m
  {
    var st := ls[n].x.st;
    WireInv(ls, evs, isn, pktLen, size, tsbpd, n, n);
    hide DeliveryInv, Next;
    if m == 0 {
      StartInv(isn, size, tsbpd, st);
      if AllInOrder(st) {
        StartInOrder(isn, size, tsbpd, st);
      }
    } else {
      ReceiverInv(ls, evs, isn, pktLen, size, tsbpd, m - 1, n);
      WireInv(ls, evs, isn, pktLen, size, tsbpd, m - 1, n);
      assert LinkStep(ls[m - 1], evs[m - 1], ls[m], isn, pktLen);
      ReceiverStep(ls[m - 1], evs[m - 1], isn, pktLen, st);
    }
  }

  lemma StartInOrder(isn: nat, size: nat, tsbpd: bool, st: seq<Packet>)
    requires 0 < size < MAX_SEQNO && DeliveryInv(Start(isn, size, tsbpd), st) && AllInOrder(st)
    ensures InOrderInv(Start(isn, size, tsbpd), st)
  {
    hide DeliveryInv;
  }

  lemma ReceiverStep(l: Link, ev: LinkEvent, isn: nat, pktLen: nat, st: seq<Packet>)
    requires pktLen > 0 && Enabled(l, ev, isn) && l.x.st <= st && WellFormed(st) && DeliveryInv(l.s, st)
    requires l.s.v.isn == isn
    ensures var l' := LinkNext(l, ev, isn, pktLen); DeliveryInv(l'.s, st) && l'.s.v.isn == isn
    ensures InOrderInv(l.s, st) ==> InOrderInv(LinkNext(l, ev, isn, pktLen).s, st)
  {
    hide DeliveryInv, InOrderInv, Next, SndNext, Emitted, WellFormed;
    match ev
    case Send(op) =>
    case Deliver(k, id, j) =>
      NextKeeps(l.s, Arrive(Unit(id, l.wire[k]), j), st);
      if InOrderInv(l.s, st) {
        ArriveInOrder(l.s, st, Unit(id, l.wire[k]), j);
      }
    case ReadMsg(len) =>
      NextKeeps(l.s, ReadOne(len), st);
      if InOrderInv(l.s, st) {
        ReadInOrder(l.s, st, len);
      }
  }

  // ------------------------------------------------------------------ deliveries against submissions

  lemma SameEnd(st: seq<Packet>, a: int, b: int, c: int)
    requires IsMessage(st, a, b) && IsMessage(st, a, c)
    ensures b == c
  {
    assert st[b - 1].last && st[c - 1].last;
  }

  lemma CutIs(st: seq<Packet>, msgs: seq<seq<Byte>>, bounds: seq<nat>, i: nat)
    requires Submitted(st, msgs, bounds) && i < |msgs|
    ensures Cut(st, msgs[i], bounds[i], bounds[i + 1])
  {
  }

  /** A whole message of the stream is one of the submitted ones. */
  lemma {:induction false} FindMessage(st: seq<Packet>, msgs: seq<seq<Byte>>, bounds: seq<nat>, a: int, b: int,
                                       i: nat) returns (k: nat)
    requires WellFormed(st) && Submitted(st, msgs, bounds) && IsMessage(st, a, b) && i <= |msgs| && bounds[i] <= a
    ensures i <= k < |msgs| && bounds[k] == a && bounds[k + 1] == b
    decreases |msgs| - i
  {
    CutIs(st, msgs, bounds, i);
    if bounds[i] == a {
      SameEnd(st, a, b, bounds[i + 1]);
      k := i;
    } else {
      assert Follows(st[a - 1], st[a]);
      k := FindMessage(st, msgs, bounds, a, b, i + 1);
    }
  }

  /** The i-th delivery is the i-th message. */
  lemma {:induction false} TiledMessage(st: seq<Packet>, msgs: seq<seq<Byte>>, bounds: seq<nat>, out: seq<Delivery>,
                                        base: int, i: nat)
    requires Submitted(st, msgs, bounds) && Tiles(out, base) && i < |out|
    requires forall k :: 0 <= k < |out| ==> GoodDelivery(out[k], st)
    ensures i < |msgs| && out[i].from == bounds[i] && out[i].to == bounds[i + 1]
    ensures out[i].data == Take(msgs[i], out[i].len)
  {
    assert GoodDelivery(out[i], st);
    if i > 0 {
      TiledMessage(st, msgs, bounds, out, base, i - 1);
      assert out[i].from == out[i - 1].to;
    }
    CutIs(st, msgs, bounds, i);
    SameEnd(st, out[i].from, out[i].to, bounds[i + 1]);
  }

  /** The deliveries are the first messages submitted, in their order, each untouched up to the reader's length. */
  ghost predicate FirstOf(out: seq<Delivery>, msgs: seq<seq<Byte>>) {
    |out| <= |msgs| && forall i :: 0 <= i < |out| ==> out[i].data == Take(msgs[i], out[i].len)
  }

  lemma TiledFirst(st: seq<Packet>, msgs: seq<seq<Byte>>, bounds: seq<nat>, out: seq<Delivery>, base: int)
    requires Submitted(st, msgs, bounds) && Tiles(out, base)
    requires forall k :: 0 <= k < |out| ==> GoodDelivery(out[k], st)
    ensures FirstOf(out, msgs) && (base == |st| ==> |out| == |msgs|)
  {
    forall i | 0 <= i < |out|
      ensures i < |msgs| && out[i].to == bounds[i + 1] && out[i].data == Take(msgs[i], out[i].len)
    {
      TiledMessage(st, msgs, bounds, out, base, i);
    }
    if out != [] {
      assert |out| - 1 < |msgs|;
      assert out[|out| - 1].to == bounds[|out|];
    }
    if |out| < |msgs| {
      CutIs(st, msgs, bounds, |out|);
    }
  }

  lemma InvParts(s: Session, st: seq<Packet>)
    requires InOrderInv(s, st)
    ensures Tiles(s.out, s.v.base) && forall k :: 0 <= k < |s.out| ==> GoodDelivery(s.out[k], st)
  {
    hide MsgInv, WholeReads, Complete, GoodDelivery;
  }

  ghost predicate AllOrdered(evs: seq<LinkEvent>, n: nat) {
    forall i :: 0 <= i < n && i < |evs| && evs[i].Send? && evs[i].op.Submit? ==> evs[i].op.c.inorder
  }

  lemma {:induction false} OrderedStream(ls: seq<Link>, evs: seq<LinkEvent>, isn: nat, pktLen: nat, size: nat,
      tsbpd: bool, n: nat)
    requires IsLinkRun(ls, evs, isn, pktLen) && ls[0] == LinkStart(isn, size, tsbpd) && n < |ls| && AllOrdered(evs, n)
    ensures AllInOrder(ls[n].x.st)
  {
    if n > 0 {
      OrderedStream(ls, evs, isn, pktLen, size, tsbpd, n - 1);
      assert LinkStep(ls[n - 1], evs[n - 1], ls[n], isn, pktLen);
      hide Emitted, Next, Pieces, Wires;
      var ev, x := evs[n - 1], ls[n - 1].x;
      if ev.Send? && ev.op.Submit? {
        PiecesWhole(ev.op.data, pktLen, ev.op.c.seqno, MsgNoOf(x.s, ev.op.c), ev.op.c);
      }
    }
  }

  /**
   * Messages that all ask for order: at every moment of every run, with any loss, reordering and repetition on the wire
   * and any reads in between, the reader has got a prefix of the messages submitted so far, byte for byte.
   */
  lemma InOrderEndToEnd(ls: seq<Link>, evs: seq<LinkEvent>, isn: nat, pktLen: nat, size: nat, tsbpd: bool, n: nat)
    requires IsLinkRun(ls, evs, isn, pktLen) && ls[0] == LinkStart(isn, size, tsbpd) && n < |ls| && 0 < size < MAX_SEQNO
    requires AllOrdered(evs, n)
    ensures FirstOf(ls[n].s.out, ls[n].x.msgs)
  {
    OrderedStream(ls, evs, isn, pktLen, size, tsbpd, n);
    ReceiverInv(ls, evs, isn, pktLen, size, tsbpd, n, n);
    WireInv(ls, evs, isn, pktLen, size, tsbpd, n, n);
    hide InOrderInv, WellFormed, Queued, Numbered;
    InvParts(ls[n].s, ls[n].x.st);
    TiledFirst(ls[n].x.st, ls[n].x.msgs, ls[n].x.bounds, ls[n].s.out, ls[n].s.v.base);
  }

  // ------------------------------------------------------------------ once everything is in

  /** The receiver stores the j-th packet of the stream in this step. */
  ghost predicate TakesIn(l: Link, ev: LinkEvent, j: int) {
    ev.Deliver? && ev.j == j && ev.k < |l.wire| && Accepted(l.s, Arrive(Unit(ev.id, l.wire[ev.k]), j))
  }

  /** A packet that was taken in is stored or read from then on. */
  lemma {:induction false} TakenInStays(ls: seq<Link>, evs: seq<LinkEvent>, isn: nat, pktLen: nat, size: nat,
                                        tsbpd: bool, a: nat, m: nat, n: nat, j: int)
    requires IsLinkRun(ls, evs, isn, pktLen) && ls[0] == LinkStart(isn, size, tsbpd) && 0 < size < MAX_SEQNO
    requires a < m <= n < |ls| && TakesIn(ls[a], evs[a], j)
    ensures Present(ls[m].s.v, j)
    decreases m
  {
    hide SndInv, DeliveryInv, InOrderInv, OnStream, Present, LinkNext, Enabled, TakesIn;
    var st := ls[n].x.st;
    ReceiverInv(ls, evs, isn, pktLen, size, tsbpd, m - 1, n);
    WireInv(ls, evs, isn, pktLen, size, tsbpd, m - 1, n);
    SndWellFormed(ls[n].x, isn);
    var l, ev := ls[m - 1], evs[m - 1];
    assert LinkStep(l, ev, ls[m], isn, pktLen);
    if m - 1 > a {
      TakenInStays(ls, evs, isn, pktLen, size, tsbpd, a, m - 1, n, j);
    }
    TakenInStep(l, ev, isn, pktLen, st, j);
  }

  lemma SndWellFormed(x: Sender, isn: nat)
    requires SndInv(x, isn)
    ensures WellFormed(x.st) && Submitted(x.st, x.msgs, x.bounds)
  {
  }

  lemma TakenInStep(l: Link, ev: LinkEvent, isn: nat, pktLen: nat, st: seq<Packet>, j: int)
    requires pktLen > 0 && Enabled(l, ev, isn) && l.x.st <= st && WellFormed(st) && DeliveryInv(l.s, st)
    requires Present(l.s.v, j) || TakesIn(l, ev, j)
    ensures Present(LinkNext(l, ev, isn, pktLen).s.v, j)
  {
    hide DeliveryInv, Present, SndNext, Emitted, WellFormed, Insert, ReadMessage;
    match ev
    case Send(op) =>
    case Deliver(k, id, i) =>
      ArrivePresent(l.s, st, Unit(id, l.wire[k]), i, j);
    case ReadMsg(len) =>
      NextPresent(l.s, ReadOne(len), st, j);
  }

  ghost predicate AllTakenIn(ls: seq<Link>, evs: seq<LinkEvent>, n: nat)
    requires n < |ls| == |evs| + 1
  {
    forall j :: 0 <= j < |ls[n].x.st| ==> TakenIn(ls, evs, n, j)
  }

  ghost predicate TakenIn(ls: seq<Link>, evs: seq<LinkEvent>, n: nat, j: int)
    requires n < |ls| == |evs| + 1
  {
    exists a: nat :: a < n && TakesIn(ls[a], evs[a], j)
  }

  /**
   * Messages that all ask for order: once every packet has been taken in, reading on delivers every message
   * submitted.
   */
  lemma AllDelivered(ls: seq<Link>, evs: seq<LinkEvent>, isn: nat, pktLen: nat, size: nat, tsbpd: bool, n: nat,
                     len: nat, times: nat)
    requires IsLinkRun(ls, evs, isn, pktLen) && ls[0] == LinkStart(isn, size, tsbpd) && n < |ls| && 0 < size < MAX_SEQNO
    requires AllOrdered(evs, n) && AllTakenIn(ls, evs, n) && ls[n].s.v.nonread <= times
    ensures var out := Drain(ls[n].s, len, times).out; FirstOf(out, ls[n].x.msgs) && |out| == |ls[n].x.msgs|
  {
    hide SndInv, DeliveryInv, InOrderInv, OnStream, Present, LinkStep, Drain, TakesIn, Submitted;
    OrderedStream(ls, evs, isn, pktLen, size, tsbpd, n);
    ReceiverInv(ls, evs, isn, pktLen, size, tsbpd, n, n);
    WireInv(ls, evs, isn, pktLen, size, tsbpd, n, n);
    SndWellFormed(ls[n].x, isn);
    var s, st := ls[n].s, ls[n].x.st;
    forall j | 0 <= j < |st|
      ensures Present(s.v, j)
    {
      assert TakenIn(ls, evs, n, j);
      var a: nat :| a < n && TakesIn(ls[a], evs[a], j);
      TakenInStays(ls, evs, isn, pktLen, size, tsbpd, a, n, n, j);
    }
    AllReadable(s, st);
    DrainDeliversAll(s, st, len, times);
    var s' := Drain(s, len, times);
    InvParts(s', st);
    TiledFirst(st, ls[n].x.msgs, ls[n].x.bounds, s'.out, s'.v.base);
  }

  // ------------------------------------------------------------------ any order flags

  /** The message of the stream that starts with packet a. */
  ghost predicate IsNth(x: Sender, k: nat, d: Delivery) {
    |x.bounds| == |x.msgs| + 1 && k < |x.msgs| && d.from == x.bounds[k] && d.data == Take(x.msgs[k], d.len)
  }

  ghost predicate IsSubmitted(x: Sender, d: Delivery) {
    exists k: nat :: IsNth(x, k, d)
  }

  /** With any mix of order flags every delivery is one submitted message, untouched, and no message comes twice. */
  lemma MixedEndToEnd(ls: seq<Link>, evs: seq<LinkEvent>, isn: nat, pktLen: nat, size: nat, tsbpd: bool, n: nat)
    requires IsLinkRun(ls, evs, isn, pktLen) && ls[0] == LinkStart(isn, size, tsbpd) && n < |ls| && 0 < size < MAX_SEQNO
    ensures var out, x := ls[n].s.out, ls[n].x;
      && (forall i :: 0 <= i < |out| ==> IsSubmitted(x, out[i]))
      && (forall i, j, k: nat, m: nat :: 0 <= i < j < |out| && IsNth(x, k, out[i]) && IsNth(x, m, out[j]) ==> k != m)
  {
    hide SndInv, OnStream, InOrderInv, MsgInv, WholeReads, LinkStep, GoodDelivery;
    ReceiverInv(ls, evs, isn, pktLen, size, tsbpd, n, n);
    WireInv(ls, evs, isn, pktLen, size, tsbpd, n, n);
    var out, x := ls[n].s.out, ls[n].x;
    forall i | 0 <= i < |out|
      ensures IsSubmitted(x, out[i])
    {
      assert GoodDelivery(out[i], x.st);
      NthOf(x, isn, out[i]);
    }
  }

  lemma NthOf(x: Sender, isn: nat, d: Delivery)
    requires SndInv(x, isn) && GoodDelivery(d, x.st)
    ensures IsSubmitted(x, d)
  {
    var k := FindMessage(x.st, x.msgs, x.bounds, d.from, d.to, 0);
    CutIs(x.st, x.msgs, x.bounds, k);
    assert IsNth(x, k, d);
  }
}
