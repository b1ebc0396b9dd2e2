/** Whole runs of the receiver buffer: any sequence of its operations. */
module RcvRun {
  import opened SeqNo
  import opened Packets
  import opened RcvModel
  import opened RcvInvariant
  import opened RcvMessages
  import opened RcvSound
  import opened RcvIntact
  import opened RcvSearch

  datatype Op =
    | OpInsert(u: Unit)
    | OpReadMessage(len: nat)
    | OpDropUpTo(seqno: int)
    | OpDropAll
    | OpDropMessage(seqnolo: int, seqnohi: int, msgno: int, keep: bool)
    | OpReadBuffer(size: int, stop: nat)

  /** What the callers owe: valid sequence numbers, a free unit, and a drop range whose ends are in order. */
  ghost predicate Enabled(v: Rcv, op: Op) {
    match op
    case OpInsert(u) => ValidSeqNo(u.packet.seqno) && u.id !in v.taken
    case OpDropUpTo(seqno) => ValidSeqNo(seqno)
    case OpDropMessage(lo, hi, _, _) => SeqOff(v.StartSeqNo(), lo) <= SeqOff(v.StartSeqNo(), hi)
    case _ => true
  }

  function Step(v: Rcv, op: Op): (r: Rcv)
    requires Usable(v) && Enabled(v, op)
    ensures SameConfig(v, r)
  {
    match op
    case OpInsert(u) => Insert(v, u).0
    case OpReadMessage(len) => ReadMessage(v, len).v
    case OpDropUpTo(seqno) => DropUpTo(v, seqno).v
    case OpDropAll => DropAll(v).v
    case OpDropMessage(lo, hi, msgno, keep) => DropMessage(v, lo, hi, msgno, keep).0
    case OpReadBuffer(len, stop) => ReadBuffer(v, len, stop).v
  }

  // ------------------------------------------------------------------ calls that return

  /** The state in which an operation begins its search for a message to read out of order, if it does. */
  function SearchFrom(v: Rcv, op: Op): Option<Rcv>
    requires Usable(v) && Enabled(v, op)
  {
    match op
    case OpInsert(_) => None
    case OpReadMessage(_) =>
      if ReadPos(v) < 0 || v.tsbpd then None
      else Some(ReadSettled(Consumed(v, ReadPos(v), ReadEnd(v.w, ReadPos(v)))))
    case OpDropUpTo(seqno) => DropSearch(v, seqno)
    case OpDropAll => if v.maxOff == 0 then None else DropSearch(v, IncSeqBy(v.StartSeqNo(), v.maxOff))
    case OpDropMessage(lo, hi, msgno, keep) =>
      var a, b := SeqOff(v.StartSeqNo(), lo), SeqOff(v.StartSeqNo(), hi);
      if b < 0 || a >= |v.w| || !v.TracksOrder() then None
      else
        var d := DropMarks(v, a, b, msgno, keep);
        Some(MarksSettled(d.v, d.minOff != -1 && d.minOff <= v.nonread))
    case OpReadBuffer(_, _) => None
  }

  function DropSearch(v: Rcv, seqno: int): Option<Rcv>
    requires Usable(v)
  {
    var len := SeqOff(v.StartSeqNo(), seqno);
    if len <= 0 || !v.TracksOrder() then None
    else Some(DropSettled(DropN(DropUp(v.(maxOff := Max(0, v.maxOff - len)), 0, 0), len).v))
  }

  /** The call comes back: the search in it, if any, ends. */
  ghost predicate Returns(v: Rcv, op: Op)
    requires Usable(v) && Enabled(v, op)
  {
    SearchFrom(v, op).Some? ==> Halts(SearchFrom(v, op).value)
  }

  /** A run: each state follows from the one before it by an operation that returns. */
  ghost predicate IsRun(vs: seq<Rcv>, ops: seq<Op>) {
    && |vs| == |ops| + 1
    && (forall i :: 0 <= i < |ops| ==>
          && Usable(vs[i]) && Enabled(vs[i], ops[i]) && Returns(vs[i], ops[i])
          && vs[i + 1] == Step(vs[i], ops[i]))
  }

  // ------------------------------------------------------------------ what every run keeps

  /** The order-clear packets that a readBuffer releases without counting them down. */
  function Extra(v: Rcv, op: Op): nat
    requires Usable(v)
  {
    if op.OpReadBuffer? then Uncounted(v, Freed(v.w, 0, v.nonread, v.notch, op.size, op.stop)) else 0
  }

  lemma ExtraIs(v: Rcv, len: int, stop: nat)
    requires Usable(v)
    ensures Extra(v, OpReadBuffer(len, stop)) == Uncounted(v, Freed(v.w, 0, v.nonread, v.notch, len, stop))
  {
  }

  lemma StepIntact(v: Rcv, op: Op, x: nat)
    requires Intact(v, x) && Enabled(v, op)
    ensures Usable(v) && Intact(Step(v, op), x + Extra(v, op))
  {
    hide Intact, Insert, ReadMessage, DropUpTo, DropMessage, ReadBuffer, Uncounted, Freed;
    match op
    case OpInsert(u) => InsertIntact(v, u, x);
    case OpReadMessage(len) => ReadMessageIntact(v, len, x);
    case OpDropUpTo(seqno) => DropUpToIntact(v, seqno, x);
    case OpDropAll => DropUpToIntact(v, IncSeqBy(v.StartSeqNo(), v.maxOff), x);
    case OpDropMessage(lo, hi, msgno, keep) => DropMessageIntact(v, lo, hi, msgno, keep, x);
    case OpReadBuffer(len, stop) => ReadBufferIntact(v, len, stop, x);
  }

  ghost function TotalExtra(vs: seq<Rcv>, ops: seq<Op>, n: nat): nat
    requires IsRun(vs, ops) && n < |vs|
  {
    if n == 0 then 0 else TotalExtra(vs, ops, n - 1) + Extra(vs[n - 1], ops[n - 1])
  }

  /**
   * In every state of every run of the six operations, on any packets and in every mode: the furthest offset is in
   * range, a slot holds a unit exactly when it is Avail, units lie only below the furthest offset and carry the
   * sequence number of their slot, the units held are the taken ones, each once, and the order-clear count is too high
   * by the order-clear packets that readBuffer has released in message mode.
   */
  lemma {:induction false} RunIntact(vs: seq<Rcv>, ops: seq<Op>, n: nat, x: nat)
    requires IsRun(vs, ops) && Intact(vs[0], x) && n < |vs|
    ensures Intact(vs[n], x + TotalExtra(vs, ops, n))
    ensures 0 <= vs[n].maxOff < |vs[n].w|
    ensures forall k :: 0 <= k < |vs[n].w| ==> (vs[n].w[k].unit.Some? <==> vs[n].w[k].status == Avail)
    ensures forall k :: 0 <= k < |vs[n].w| && vs[n].w[k].unit.Some? ==>
              k < vs[n].maxOff && vs[n].w[k].unit.value.packet.seqno == Wrap(vs[n].isn + vs[n].base + k)
    ensures HoldsTaken(vs[n].w, vs[n].taken)
    ensures vs[n].TracksOrder() ==> vs[n].numOoo == CountIf(vs[n].w, IsClear) + x + TotalExtra(vs, ops, n)
  {
    hide Intact, Step, HoldsTaken, Wrap, Extra, Returns, CountIf;
    if n > 0 {
      RunIntact(vs, ops, n - 1, x);
      StepIntact(vs[n - 1], ops[n - 1], x + TotalExtra(vs, ops, n - 1));
    }
    IntactSays(vs[n], x + TotalExtra(vs, ops, n));
  }

  /** No readBuffer of the run releases an order-clear packet in message mode. */
  ghost predicate AllCounted(vs: seq<Rcv>, ops: seq<Op>, n: nat)
    requires IsRun(vs, ops) && n < |vs|
  {
    forall i :: 0 <= i < n ==> Extra(vs[i], ops[i]) == 0
  }

  lemma {:induction false} NoExtra(vs: seq<Rcv>, ops: seq<Op>, n: nat)
    requires IsRun(vs, ops) && n < |vs|
    ensures TotalExtra(vs, ops, n) == 0 <==> AllCounted(vs, ops, n)
  {
    hide IsRun, Extra;
    if n > 0 {
      NoExtra(vs, ops, n - 1);
    }
  }

  /** The order-clear count is exact as well, if and only if no such packet was released before. */
  lemma RunSound(vs: seq<Rcv>, ops: seq<Op>, n: nat)
    requires IsRun(vs, ops) && Sound(vs[0]) && n < |vs|
    ensures Sound(vs[n]) <==> AllCounted(vs, ops, n)
  {
    hide IsRun, Sound, Intact, AllCounted;
    SoundIntact(vs[0]);
    RunIntact(vs, ops, n, 0);
    NoExtra(vs, ops, n);
    SoundIntact(vs[n]);
    if Intact(vs[n], 0) {
      OneExcess(vs[n], 0, TotalExtra(vs, ops, n));
    }
  }

  // ------------------------------------------------------------------ which calls return

  lemma DropSearchIntact(v: Rcv, seqno: int, x: nat)
    requires Intact(v, x)
    ensures Usable(v) && (DropSearch(v, seqno).Some? ==> Intact(DropSearch(v, seqno).value, x))
  {
    hide Intact, DropN, DropSettled;
    LikeClean(v, x);
    var len := SeqOff(v.StartSeqNo(), seqno);
    if len > 0 {
      PassedIntact(v, len, x);
      DropSettledIntact(DropN(DropUp(v.(maxOff := Max(0, v.maxOff - len)), 0, 0), len).v, x);
    }
  }

  /** The state in which a search begins has the same excess. */
  lemma SearchIntact(v: Rcv, op: Op, x: nat)
    requires Intact(v, x) && Enabled(v, op)
    ensures Usable(v) && (SearchFrom(v, op).Some? ==> Intact(SearchFrom(v, op).value, x))
  {
    hide Intact, DropSearch, DropMarks, MarksSettled, Consumed, ReadSettled, ReadEnd;
    LikeClean(v, x);
    match op
    case OpReadMessage(_) =>
      if ReadPos(v) >= 0 {
        ConsumedIntact(v, ReadPos(v), ReadEnd(v.w, ReadPos(v)), x);
        ReadSettledIntact(Consumed(v, ReadPos(v), ReadEnd(v.w, ReadPos(v))), x);
      }
    case OpDropUpTo(seqno) => DropSearchIntact(v, seqno, x);
    case OpDropAll => DropSearchIntact(v, IncSeqBy(v.StartSeqNo(), v.maxOff), x);
    case OpDropMessage(lo, hi, msgno, keep) =>
      var a, b := SeqOff(v.StartSeqNo(), lo), SeqOff(v.StartSeqNo(), hi);
      if b >= 0 && a < |v.w| {
        MarksIntact(v, a, b, msgno, keep, x);
        var d := DropMarks(v, a, b, msgno, keep);
        MarksSettledIntact(d.v, d.minOff != -1 && d.minOff <= v.nonread, x);
      }
    case _ =>
  }

  /** What an operation with a search does is what it did before and then the search. */
  lemma StepSearches(v: Rcv, op: Op)
    requires Usable(v) && Enabled(v, op) && SearchFrom(v, op).Some?
    ensures Step(v, op) == UpdateOoo(SearchFrom(v, op).value)
  {
    hide UpdateOoo, DropSettled, MarksSettled, ReadSettled, Consumed, DropMarks, DropN, Payloads, ReadEnd;
  }

  /**
   * An operation returns if and only if it begins no search, a guard lets it be skipped, or an order-clear packet is
   * stored where it begins. So it can fail to return only if the order-clear count was too high before.
   */
  lemma ReturnsIff(v: Rcv, op: Op, x: nat)
    requires Intact(v, x) && Enabled(v, op)
    ensures Usable(v)
    ensures Returns(v, op) <==>
            var s := SearchFrom(v, op); s.None? || Skips(s.value) || CountIf(s.value.w, IsClear) > 0
    ensures !Returns(v, op) ==> v.TracksOrder() && v.numOoo > CountIf(v.w, IsClear)
  {
    hide Intact, SearchFrom, Halts, CountIf, Skips;
    SearchIntact(v, op, x);
    SearchMode(v, op);
    IntactSays(v, x);
    if SearchFrom(v, op).Some? {
      var s := SearchFrom(v, op).value;
      HaltsIff(s, x);
      if !Halts(s) {
        HangsOnExcess(s, x);
      }
    }
  }

  lemma SearchMode(v: Rcv, op: Op)
    requires Usable(v) && Enabled(v, op)
    ensures SearchFrom(v, op).Some? ==> SameConfig(v, SearchFrom(v, op).value)
  {
    hide DropSettled, MarksSettled, ReadSettled, Consumed, DropMarks, DropN, Payloads, ReadEnd;
    if op.OpReadMessage? && ReadPos(v) >= 0 {
      ConsumedConfig(v, ReadPos(v), ReadEnd(v.w, ReadPos(v)));
    }
  }

  lemma ConsumedConfig(v: Rcv, r: int, e: int)
    requires |v.w| > 0 && 0 <= r <= e <= |v.w| && forall k :: r <= k < e ==> v.w[k].unit.Some?
    ensures SameConfig(v, Consumed(v, r, e))
  {
  }

  /** With the order-clear count exact every call returns. */
  lemma SoundReturns(v: Rcv, op: Op)
    requires Sound(v) && Enabled(v, op)
    ensures Usable(v) && Returns(v, op)
  {
    hide Intact, Sound, Returns, CountIf;
    SoundIntact(v);
    ReturnsIff(v, op, 0);
    IntactSays(v, 0);
  }

  /** In a run whose readBuffers released no order-clear packet in message mode, every call returns. */
  lemma RunReturns(vs: seq<Rcv>, ops: seq<Op>, n: nat, op: Op)
    requires IsRun(vs, ops) && Sound(vs[0]) && n < |vs| && AllCounted(vs, ops, n) && Enabled(vs[n], op)
    ensures Usable(vs[n]) && Returns(vs[n], op)
  {
    hide IsRun, Sound, AllCounted, Returns;
    RunSound(vs, ops, n);
    SoundReturns(vs[n], op);
  }

  lemma StepStruct(v: Rcv, op: Op)
    requires Struct(v) && Enabled(v, op) && !op.OpReadBuffer?
    ensures Struct(Step(v, op))
  {
    match op
    case OpInsert(u) => InsertStruct(v, u);
    case OpReadMessage(len) => ReadMessageStruct(v, len);
    case OpDropUpTo(seqno) => DropUpToStruct(v, seqno);
    case OpDropAll => DropAllStruct(v);
    case OpDropMessage(lo, hi, msgno, keep) => DropMessageStruct(v, lo, hi, msgno, keep);
  }

  /**
   * While readBuffer is not called, also everything before the first non-readable position is stored, and no
   * entry that was read or dropped stands at the start.
   */
  lemma {:induction false} RunStruct(vs: seq<Rcv>, ops: seq<Op>, n: nat)
    requires IsRun(vs, ops) && Struct(vs[0]) && n < |vs|
    requires forall i :: 0 <= i < n ==> !ops[i].OpReadBuffer?
    ensures Struct(vs[n])
  {
    if n > 0 {
      RunStruct(vs, ops, n - 1);
      StepStruct(vs[n - 1], ops[n - 1]);
    }
  }

  /** The inserts of the run carry packets of the stream, each near enough to the start to compare. */
  ghost predicate OnStream(v: Rcv, op: Op, st: seq<Packet>) {
    op.OpInsert? ==> exists j :: Arrival(v, st, op.u, j)
  }

  lemma StepMsg(v: Rcv, op: Op, st: seq<Packet>)
    requires WellFormed(st) && Numbered(st, v.isn) && v.messageApi && MsgInv(v, st)
    requires Enabled(v, op) && OnStream(v, op, st) && !op.OpReadBuffer?
    ensures MsgInv(Step(v, op), st)
  {
    match op
    case OpInsert(u) =>
      var j :| Arrival(v, st, u, j);
      InsertMsg(v, st, u, j);
    case OpReadMessage(len) => ReadMessageMsg(v, st, len);
    case OpDropUpTo(seqno) => DropUpToMsg(v, st, seqno);
    case OpDropAll =>
      if v.maxOff != 0 {
        WrapIncBy(v.isn + v.base, v.maxOff);
        DropUpToMsg(v, st, IncSeqBy(v.StartSeqNo(), v.maxOff));
      }
    case OpDropMessage(lo, hi, msgno, keep) => DropMessageMsg(v, st, lo, hi, msgno, keep);
  }

  /**
   * Over a well-formed stream every state of every run keeps the message invariant, whatever is inserted,
   * read or dropped; so every readMessage of the run ends at the last packet of one message.
   */
  lemma {:induction false} RunMsg(vs: seq<Rcv>, ops: seq<Op>, st: seq<Packet>, n: nat)
    requires IsRun(vs, ops) && n < |vs|
    requires WellFormed(st) && Numbered(st, vs[0].isn) && vs[0].messageApi && MsgInv(vs[0], st)
    requires forall i :: 0 <= i < |ops| ==> OnStream(vs[i], ops[i], st) && !ops[i].OpReadBuffer?
    ensures MsgInv(vs[n], st) && vs[n].isn == vs[0].isn && vs[n].messageApi
    ensures ReadPos(vs[n]) >= 0 ==>
      var e := ReadEnd(vs[n].w, ReadPos(vs[n])); ReadPos(vs[n]) < e && Pkt(vs[n].w, e - 1).last
  {
    hide MsgInv, Step, Enabled, ReadEnd, ReadPos, OnStream;
    if n > 0 {
      RunMsg(vs, ops, st, n - 1);
      StepMsg(vs[n - 1], ops[n - 1], st);
    }
    if ReadPos(vs[n]) >= 0 {
      ReadMeetsLast(vs[n], st);
    }
  }
}
