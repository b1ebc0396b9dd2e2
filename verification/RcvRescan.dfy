/**
 * readMessage does not look for readable packets again when it has moved the first non-readable position,
 * so with mixed order flags a stored message can stay unreadable. This module says exactly when.
 */
module RcvRescan {
  import opened Packets
  import opened RcvModel
  import opened RcvInvariant
  import opened RcvMessages
  import opened RcvDelivery
  import opened RcvInOrder
  import opened RcvSound
  import opened RcvExamples

  /**
   * The message about to be read is the last readable one, and after it come packets already read out of order and
   * then a whole message.
   */
  predicate LeavesBehind(v: Rcv)
    requires |v.w| > 0
  {
    var e := ReadEnd(v.w, 0);
    e == v.nonread && Lead(v.w[e..]) > 0 && Complete(v.w, e + Lead(v.w[e..]))
  }

  lemma LeadShifted(w: seq<Entry>, w1: seq<Entry>, n: nat)
    requires n < |w| && ShiftOf(w, w1, n) && w[|w| - 1] == EMPTY
    ensures Lead(w1) == Lead(w[n..]) && n + Lead(w1) < |w|
  {
    LeadShort(w[n..]);
    var m := Lead(w[n..]);
    assert forall k :: 0 <= k < m ==> w1[k] == w[n..][k];
    assert w1[m] == w[n..][m];
    LeadIs(w1, m);
  }

  lemma ConsumedState(v: Rcv, st: seq<Packet>)
    requires MsgInv(v, st) && v.messageApi && v.nonread > 0
    ensures var e := ReadEnd(v.w, 0); var c := Consumed(v, 0, e);
      && 0 < e <= v.nonread && e < |v.w| && Core(c) && Bounded(c) && ShiftOf(v.w, c.w, e)
      && c.nonread == v.nonread - e && Prefix(c)
  {
    hide Counts, FromStream, OooMessage;
    var e := ReadEnd(v.w, 0);
    ReadEndLast(v.w, 0, v.nonread);
    ReadEndShort(v, 0);
    ConsumedFront(v, e);
    FrontTakes(v, e);
    ConsumedStruct(v, 0, e);
    ConsumedPart(v, e);
    hide Struct, Core, Consumed, ReadFrontN;
  }

  /**
   * After a read in order, the first non-readable position is still as far as it can be if and only if
   * the message read did not leave a whole message behind others that had been read out of order.
   */
  lemma MaximalIff(v: Rcv, st: seq<Packet>, len: nat)
    requires WellFormed(st) && MsgInv(v, st) && v.messageApi && v.nonread > 0 && Maximal(v)
    ensures Ranged(v) && (Maximal(ReadMessage(v, len).v) <==> !LeavesBehind(v))
  {
    hide MsgInv, Core, Bounded, ReadEnd, Consumed, Lead, Complete, ReleaseFillers, FindOoo, ShiftOf, Payloads;
    MsgRanged(v, st);
    MsgLastEmpty(v, st);
    var e := ReadEnd(v.w, 0);
    ConsumedState(v, st);
    var c := Consumed(v, 0, e);
    LeadShifted(v.w, c.w, e);
    CompleteShift(v.w, c.w, e, v.nonread);
    var n := Lead(c.w);
    CompleteShift(v.w, c.w, e, e + n);
    MaxNatural(c);
    if n == 0 {
      CoreRanged(c);
      ReleasedNone(c);
      AfterReadSame(c);
    } else {
      LeadBlocks(c);
      ReleasedShift(c);
      AfterOvertaken(c);
      CompleteShift(c.w, ReleaseFillers(c).w, n, n);
    }
  }

  // ------------------------------------------------------------------ when the message left behind cannot be read

  /** Where the message left behind stands. */
  function LeftAt(v: Rcv): int
    requires |v.w| > 0
  {
    ReadEnd(v.w, 0) + Lead(v.w[ReadEnd(v.w, 0)..])
  }

  /** No whole message that may be read out of order begins at offset m or later. */
  predicate NoneOutOfOrder(w: seq<Entry>, m: int) {
    forall k :: m <= k < |w| ==> !OooMessage(w, k)
  }

  lemma {:induction false} OooTailShift(w: seq<Entry>, w1: seq<Entry>, n: nat, i: int, m: int)
    requires ShiftOf(w, w1, n) && n <= i
    ensures OooTail(w1, i - n, m) <==> OooTail(w, i, m)
    decreases |w| - i
  {
    if i < |w| {
      assert w1[i - n] == w[i];
      OooTailShift(w, w1, n, i + 1, m);
      if i + 1 < |w| {
        assert w1[i + 1 - n] == w[i + 1];
      }
    }
  }

  lemma NoneShift(w: seq<Entry>, w1: seq<Entry>, n: nat)
    requires ShiftOf(w, w1, n)
    ensures NoneOutOfOrder(w1, 0) <==> NoneOutOfOrder(w, n)
  {
    hide OooTail;
    forall k | n <= k < |w|
      ensures OooMessage(w1, k - n) <==> OooMessage(w, k)
    {
      assert w1[k - n] == w[k];
      if Has(w, k) {
        OooTailShift(w, w1, n, k, Pkt(w, k).msgno);
      }
    }
    if NoneOutOfOrder(w, n) {
      forall k | 0 <= k < |w1|
        ensures !OooMessage(w1, k)
      {
        if k + n < |w| {
          assert OooMessage(w1, (k + n) - n) <==> OooMessage(w, k + n);
        } else {
          assert w1[k] == EMPTY;
        }
      }
    }
  }

  lemma {:induction false} FindsNone(w: seq<Entry>, i: int)
    requires 0 <= i
    ensures FindOoo(w, i) < 0 <==> NoneOutOfOrder(w, i)
    decreases |w| - i
  {
    hide OooMessage;
    if i < |w| && !OooMessage(w, i) {
      FindsNone(w, i + 1);
    }
  }

  /** Without an order-clear packet there is no message to read out of order. */
  lemma NoClearNone(v: Rcv)
    requires Core(v) && Bounded(v) && v.TracksOrder() && (v.numOoo <= 0 || v.maxOff == 0)
    ensures NoneOutOfOrder(v.w, 0)
  {
    forall k | 0 <= k < |v.w|
      ensures !OooMessage(v.w, k)
    {
      CountUpdate(v.w, k, EMPTY, IsClear);
    }
  }

  /** With nothing readable in order, the search finds no message if and only if there is none. */
  lemma SearchIff(v: Rcv)
    requires Core(v) && Bounded(v) && v.TracksOrder() && v.nonread == 0 && OooOk(v)
    ensures UpdateOoo(v).ooo < 0 <==> NoneOutOfOrder(v.w, 0)
  {
    if v.numOoo <= 0 || v.maxOff == 0 {
      NoClearNone(v);
    }
    CoreRanged(v);
    hide Core, FindOoo, OooMessage;
    FindsNone(v.w, 0);
  }

  lemma OvertakenOoo(c: Rcv)
    requires Core(c) && Bounded(c) && c.messageApi && c.nonread == 0 && Lead(c.w) > 0 && OooOk(c)
    ensures AfterRead(c).ooo < 0 <==> c.tsbpd || NoneOutOfOrder(ReleaseFillers(c).w, 0)
  {
    hide Core, Bounded, ReleaseFillers, UpdateOoo, NoneOutOfOrder;
    CoreRanged(c);
    MarkedReleased(c);
    var v1 := ReleaseFillers(c);
    CoreRanged(v1);
    NotTracked(v1);
    ReleasedOoo(c);
    OvertakenClamps(c);
    CoreNonread(v1, 0);
    if !c.tsbpd {
      SearchIff(v1.(nonread := 0));
    }
  }

  lemma NotTracked(v: Rcv)
    requires Core(v)
    ensures !v.TracksOrder() ==> v.ooo == -1
  {
  }

  lemma OvertakenClamps(c: Rcv)
    requires Core(c) && Bounded(c) && c.nonread == 0 && Lead(c.w) > 0
    ensures ClampNonread(ReleaseFillers(c)) == ReleaseFillers(c).(nonread := 0)
  {
    hide Core, ReleaseFillers, Lead, Shifted;
    CoreRanged(c);
    ReleaseFillersPops(c);
    LeadShort(c.w);
  }

  /** The recorded message moves with the window: what is released before it holds no unit. */
  lemma ReleasedOoo(c: Rcv)
    requires Core(c) && Bounded(c) && OooOk(c)
    ensures OooOk(ReleaseFillers(c)) && SameConfig(c, ReleaseFillers(c))
  {
    hide Counts;
    ReleaseFillersPops(c);
    var n := Lead(c.w);
    assert forall k :: 0 <= k < n ==> c.w[k].unit.None?;
    hide ReleaseFillers, Lead, Shifted, OooTail;
    if c.ooo >= 0 {
      OooMessageMoves(c.w, n, c.ooo);
    }
  }

  lemma ConsumedOoo(v: Rcv, st: seq<Packet>)
    requires WellFormed(st) && MsgInv(v, st) && v.messageApi && v.nonread > 0
    ensures OooOk(Consumed(v, 0, ReadEnd(v.w, 0)))
  {
    ConsumedMsg(v, st);
  }

  /**
   * A read in order leaves a whole message at the start that can then not be read if and only if it leaves one
   * behind packets read out of order or dropped, and no message from there on may be read out of order.
   */
  lemma StuckIff(v: Rcv, st: seq<Packet>, len: nat)
    requires WellFormed(st) && MsgInv(v, st) && v.messageApi && v.nonread > 0 && Maximal(v)
    ensures Ranged(v)
    ensures var v' := ReadMessage(v, len).v;
      Complete(v'.w, 0) && ReadPos(v') < 0 <==> LeavesBehind(v) && (v.tsbpd || NoneOutOfOrder(v.w, LeftAt(v)))
  {
    hide MsgInv, Core, Bounded, ReadEnd, Consumed, Lead, Complete, ReleaseFillers, FindOoo, ShiftOf, Payloads, OooOk;
    MsgRanged(v, st);
    MsgLastEmpty(v, st);
    var e := ReadEnd(v.w, 0);
    ConsumedState(v, st);
    ConsumedOoo(v, st);
    var c := Consumed(v, 0, e);
    LeadShifted(v.w, c.w, e);
    CompleteShift(v.w, c.w, e, v.nonread);
    var n := Lead(c.w);
    CompleteShift(v.w, c.w, e, e + n);
    MaxNatural(c);
    ConsumedMode(v, e);
    if n == 0 {
      CoreRanged(c);
      ReleasedNone(c);
      AfterReadSame(c);
    } else {
      LeadBlocks(c);
      ReleasedShift(c);
      AfterOvertaken(c);
      OvertakenOoo(c);
      CompleteShift(c.w, ReleaseFillers(c).w, n, n);
      ShiftTwice(v.w, c.w, ReleaseFillers(c).w, e, n);
      NoneShift(v.w, ReleaseFillers(c).w, e + n);
    }
  }

  lemma ShiftTwice(w: seq<Entry>, w1: seq<Entry>, w2: seq<Entry>, e: nat, n: nat)
    requires ShiftOf(w, w1, e) && ShiftOf(w1, w2, n)
    ensures ShiftOf(w, w2, e + n)
  {
  }

  lemma ConsumedMode(v: Rcv, e: int)
    requires |v.w| > 0 && 0 <= e <= |v.w| && StoredBefore(v.w, e)
    ensures SameConfig(v, Consumed(v, 0, e))
  {
  }

  lemma MsgLastEmpty(v: Rcv, st: seq<Packet>)
    requires MsgInv(v, st)
    ensures |v.w| > 0 && v.w[|v.w| - 1] == EMPTY && v.nonread < |v.w|
  {
  }

  lemma ReleasedNone(c: Rcv)
    requires Ranged(c) && Lead(c.w) == 0
    ensures ReleaseFillers(c) == c
  {
  }

  /** Fillers at the start mean that nothing is readable. */
  lemma LeadBlocks(c: Rcv)
    requires Core(c) && Prefix(c) && Lead(c.w) > 0
    ensures c.nonread == 0
  {
    assert IsFiller(c.w[0]);
  }

  lemma AfterOvertaken(c: Rcv)
    requires Core(c) && Bounded(c) && Prefix(c) && c.nonread == 0 && Lead(c.w) > 0
    ensures AfterRead(c).nonread == 0 && AfterRead(c).w == ReleaseFillers(c).w
  {
    hide Counts;
    ReleaseFillersPops(c);
    Overtaken(c, ReleaseFillers(c), Lead(c.w));
    hide ReleaseFillers, FindOoo, Core, Shifted, Lead;
  }

  // ------------------------------------------------------------------ a history in which it happens

  /** Three one-packet messages; only the middle one may be read out of order. */
  function MixedStream(): seq<Packet> {
    [Solo(0, true), Solo(1, false), Solo(2, true)]
  }

  lemma Insert2()
    ensures Insert(Init(0, 5, true, false), Unit(2, Solo(2, true))).0 ==
            At([EMPTY, EMPTY, Slot(2, true), EMPTY, EMPTY], 0, 0, 3, -1, 0, 1, {2})
  {
    var w := [EMPTY, EMPTY, Slot(2, true), EMPTY, EMPTY];
    assert Init(0, 5, true, false).w[2 := Slot(2, true)] == w;
    assert Extend(w, 0, true) == 0;
  }

  lemma Insert1()
    ensures Insert(At([EMPTY, EMPTY, Slot(2, true), EMPTY, EMPTY], 0, 0, 3, -1, 0, 1, {2}),
            Unit(1, Solo(1, false))).0 ==
            At([EMPTY, Slot(1, false), Slot(2, true), EMPTY, EMPTY], 0, 0, 3, 1, 1, 2, {1, 2})
  {
    var w := [EMPTY, Slot(1, false), Slot(2, true), EMPTY, EMPTY];
    assert [EMPTY, EMPTY, Slot(2, true), EMPTY, EMPTY][1 := Slot(1, false)] == w;
    assert Extend(w, 0, true) == 0;
  }

  lemma Read1(len: nat)
    ensures var r := ReadMessage(At([EMPTY, Slot(1, false), Slot(2, true), EMPTY, EMPTY], 0, 0, 3, 1, 1, 2, {1, 2}),
            len);
      r.v == At([EMPTY, READ, Slot(2, true), EMPTY, EMPTY], 0, 0, 3, -1, 0, 1, {2}) && r.at == 1 && r.count == 1
  {
    var v := At([EMPTY, Slot(1, false), Slot(2, true), EMPTY, EMPTY], 0, 0, 3, 1, 1, 2, {1, 2});
    assert ReadEnd(v.w, 1) == 2;
    assert ReadRange(v, 1, 2) == ReadAt(v, 1);
    assert v.w[1 := EMPTY][1 := READ] == [EMPTY, READ, Slot(2, true), EMPTY, EMPTY];
    assert v.taken - {1} == {2};
    assert Payloads(v.w, 1, 2) == [];
  }

  lemma Insert0()
    ensures Insert(At([EMPTY, READ, Slot(2, true), EMPTY, EMPTY], 0, 0, 3, -1, 0, 1, {2}), Unit(0, Solo(0, true))).0 ==
            At([Slot(0, true), READ, Slot(2, true), EMPTY, EMPTY], 0, 1, 3, -1, 0, 2, {0, 2})
  {
    var w := [Slot(0, true), READ, Slot(2, true), EMPTY, EMPTY];
    assert [EMPTY, READ, Slot(2, true), EMPTY, EMPTY][0 := Slot(0, true)] == w;
    assert RunEnd(w, 0) == Some(1);
    assert Extend(w, 1, true) == 1;
  }

  lemma Read0(len: nat)
    ensures var r := ReadMessage(At([Slot(0, true), READ, Slot(2, true), EMPTY, EMPTY], 0, 1, 3, -1, 0, 2, {0, 2}),
            len);
      r.v == At([Slot(2, true), EMPTY, EMPTY, EMPTY, EMPTY], 2, 0, 1, -1, 0, 1, {2}) && r.at == 0 && r.count == 1
  {
    var v := At([Slot(0, true), READ, Slot(2, true), EMPTY, EMPTY], 0, 1, 3, -1, 0, 2, {0, 2});
    assert ReadEnd(v.w, 0) == 1;
    var c := At([READ, Slot(2, true), EMPTY, EMPTY, EMPTY], 1, 0, 2, -1, 0, 1, {2});
    assert Payloads(v.w, 0, 1) == [];
    assert v.w[0 := EMPTY][1..] + [EMPTY] == c.w;
    assert v.taken - {0} == {2};
    assert ReadFrontN(v, 1) == ReadFront(v);
    assert Consumed(v, 0, 1) == c;
    var d := At([Slot(2, true), EMPTY, EMPTY, EMPTY, EMPTY], 2, 4, 1, -1, 0, 1, {2});
    assert c.w[0 := EMPTY][1..] + [EMPTY] == d.w;
    assert FillerFront(c) == d;
    assert ReleaseFillers(d) == d;
  }

  const V1: Rcv := At([EMPTY, EMPTY, Slot(2, true), EMPTY, EMPTY], 0, 0, 3, -1, 0, 1, {2})
  const V2: Rcv := At([EMPTY, Slot(1, false), Slot(2, true), EMPTY, EMPTY], 0, 0, 3, 1, 1, 2, {1, 2})
  const V3: Rcv := At([EMPTY, READ, Slot(2, true), EMPTY, EMPTY], 0, 0, 3, -1, 0, 1, {2})
  const V4: Rcv := At([Slot(0, true), READ, Slot(2, true), EMPTY, EMPTY], 0, 1, 3, -1, 0, 2, {0, 2})
  const V5: Rcv := At([Slot(2, true), EMPTY, EMPTY, EMPTY, EMPTY], 2, 0, 1, -1, 0, 1, {2})

  lemma Arrivals(out: seq<Delivery>)
    ensures Follows1(Start(0, 5, false), Arrive(Unit(2, Solo(2, true)), 2), Session(V1, []), MixedStream())
    ensures Follows1(Session(V1, []), Arrive(Unit(1, Solo(1, false)), 1), Session(V2, []), MixedStream())
    ensures Follows1(Session(V3, out), Arrive(Unit(0, Solo(0, true)), 0), Session(V4, out), MixedStream())
  {
    Insert2();
    Insert1();
    Insert0();
    hide Insert;
  }

  lemma Reads(len: nat, out: seq<Delivery>)
    ensures Follows1(Session(V2, []), ReadOne(len), Session(V3, [Delivery(1, 2, len, ReadMessage(V2, len).data)]),
            MixedStream())
    ensures Follows1(Session(V4, out), ReadOne(len),
            Session(V5, out + [Delivery(0, 1, len, ReadMessage(V4, len).data)]), MixedStream())
  {
    Read1(len);
    Read0(len);
    hide ReadMessage;
    assert [] + [Delivery(1, 2, len, ReadMessage(V2, len).data)] == [Delivery(1, 2, len, ReadMessage(V2, len).data)];
  }

  lemma MixedOk()
    ensures WellFormed(MixedStream()) && Numbered(MixedStream(), 0)
  {
  }

  lemma AllPresent()
    ensures forall j :: 0 <= j < 3 ==> Present(V5, j)
    ensures ReadPos(V5) < 0
  {
  }

  /** Every packet has arrived and been accepted, yet the last message cannot be read. */
  lemma StuckHistory(len: nat) returns (ss: seq<Session>, evs: seq<Event>)
    ensures WellFormed(MixedStream()) && Numbered(MixedStream(), 0)
    ensures IsHistory(ss, evs, MixedStream()) && ss[0] == Start(0, 5, false) && |ss| == 6
    ensures forall j :: 0 <= j < 3 ==> Present(ss[5].v, j)
    ensures |ss[5].out| == 2 && ReadPos(ss[5].v) < 0
  {
    hide Follows1, ReadMessage, Present, ReadPos, WellFormed, Numbered, Start;
    MixedOk();
    AllPresent();
    var o1 := [Delivery(1, 2, len, ReadMessage(V2, len).data)];
    var o2 := o1 + [Delivery(0, 1, len, ReadMessage(V4, len).data)];
    Arrivals(o1);
    Reads(len, o1);
    ss := [Start(0, 5, false), Session(V1, []), Session(V2, []), Session(V3, o1), Session(V4, o1), Session(V5, o2)];
    evs := [Arrive(Unit(2, Solo(2, true)), 2), Arrive(Unit(1, Solo(1, false)), 1), ReadOne(len),
            Arrive(Unit(0, Solo(0, true)), 0), ReadOne(len)];
  }
}
