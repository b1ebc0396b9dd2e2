/**
 * Whole runs of the sender buffer: whatever is submitted, sent, asked for again, acknowledged or dropped,
 * every packet that leaves it is the stream's own packet for its sequence number.
 */
module SndRun {
  import opened SeqNo
  import opened Packets
  import opened SndModel

  /** The sender with its past: all packets ever submitted, and how many of the oldest have been removed. */
  datatype Sender = Sender(s: Snd, st: seq<Packet>, gone: nat, msgs: seq<seq<Byte>>, bounds: seq<nat>)

  datatype SndOp =
    | Submit(data: seq<Byte>, c: MsgCtrl)
    | SendNew(now: int, keyFlags: int)
    | SendAgain(offset: int, seqno: int, now: int)
    | Ack(count: nat)
    | DropLate(tooLate: int)

  /** What callers owe: a non-empty message, and sequence numbers that go on where the last message ended. */
  ghost predicate SndEnabled(x: Sender, op: SndOp, isn: nat) {
    match op
    case Submit(data, c) => data != [] && c.seqno == isn + |x.st|
    case SendNew(_, keyFlags) => -1 <= keyFlags <= 3
    case _ => true
  }

  function SndNext(x: Sender, op: SndOp, pktLen: nat): Sender
    requires pktLen > 0 && x.s.cur <= |x.s.q| && (op.SendNew? ==> -1 <= op.keyFlags <= 3)
  {
    match op
    case Submit(data, c) =>
      var st := x.st + Wires(Pieces(data, pktLen, c.seqno, MsgNoOf(x.s, c), c));
      Sender(AddBuffer(x.s, data, pktLen, c), st, x.gone, x.msgs + [data], x.bounds + [|st|])
    case SendNew(now, keyFlags) => x.(s := ReadNew(x.s, now, keyFlags).s)
    case SendAgain(offset, seqno, now) => x.(s := ReadAgain(x.s, offset, seqno, now).s)
    case Ack(count) => x.(s := AckData(x.s, count), gone := x.gone + |x.s.q| - |AckData(x.s, count).q|)
    case DropLate(t) => x.(s := DropLateData(x.s, t).s, gone := x.gone + DropLateData(x.s, t).count)
  }

  /** The packet an operation hands to the network, if any. */
  function Emitted(x: Sender, op: SndOp): Option<SndPacket>
    requires x.s.cur <= |x.s.q| && (op.SendNew? ==> -1 <= op.keyFlags <= 3)
  {
    match op
    case SendNew(now, keyFlags) => ReadNew(x.s, now, keyFlags).pkt
    case SendAgain(offset, seqno, now) =>
      (match ReadAgain(x.s, offset, seqno, now) case Resend(_, p) => Some(p) case _ => None)
    case _ => None
  }

  /** What is queued is the stream from the first packet not yet removed on. */
  ghost predicate Queued(q: seq<SndPacket>, st: seq<Packet>, gone: nat) {
    gone + |q| == |st| && forall i :: 0 <= i < |q| ==> OnWire(q[i]) == st[gone + i]
  }

  /** The packets from a up to b are one message, and carry the given bytes. */
  ghost predicate Cut(st: seq<Packet>, data: seq<Byte>, a: nat, b: nat) {
    b <= |st| && IsMessage(st, a, b) && Join(st[a..b]) == data
  }

  /** The stream is the submitted messages end to end, cut at the bounds. */
  ghost predicate Submitted(st: seq<Packet>, msgs: seq<seq<Byte>>, bounds: seq<nat>) {
    && |bounds| == |msgs| + 1 && bounds[0] == 0 && bounds[|msgs|] == |st|
    && (forall i {:trigger msgs[i]} :: 0 <= i < |msgs| ==> Cut(st, msgs[i], bounds[i], bounds[i + 1]))
  }

  ghost predicate SndInv(x: Sender, isn: nat) {
    && x.s.cur <= |x.s.q| && Queued(x.s.q, x.st, x.gone) && WellFormed(x.st)
    && Numbered(x.st, isn) && Submitted(x.st, x.msgs, x.bounds)
  }

  lemma WellFormedConcat(a: seq<Packet>, b: seq<Packet>)
    requires WellFormed(a) && WellFormed(b)
    ensures WellFormed(a + b)
  {
    var c := a + b;
    forall j | 0 < j < |c|
      ensures Follows(c[j - 1], c[j])
    {
      if j == |a| {
        assert c[j - 1] == a[|a| - 1] && c[j] == b[0];
      }
    }
  }

  lemma SubmittedMore(st: seq<Packet>, msgs: seq<seq<Byte>>, bounds: seq<nat>, more: seq<Packet>, data: seq<Byte>)
    requires Submitted(st, msgs, bounds) && IsMessage(more, 0, |more|) && Join(more) == data
    ensures Submitted(st + more, msgs + [data], bounds + [|st + more|])
  {
    var st', msgs', bounds' := st + more, msgs + [data], bounds + [|st + more|];
    forall i {:trigger msgs'[i]} | 0 <= i < |msgs'|
      ensures Cut(st', msgs'[i], bounds'[i], bounds'[i + 1])
    {
      if i < |msgs| {
        assert Cut(st, msgs[i], bounds[i], bounds[i + 1]);
        assert st'[bounds[i]..bounds[i + 1]] == st[bounds[i]..bounds[i + 1]];
      } else {
        assert st'[|st|..|st'|] == more;
      }
    }
  }

  lemma QueuedMore(q: seq<SndPacket>, st: seq<Packet>, gone: nat, ps: seq<SndPacket>)
    requires Queued(q, st, gone)
    ensures Queued(q + ps, st + Wires(ps), gone)
  {
  }

  lemma NumberedMore(st: seq<Packet>, more: seq<Packet>, isn: nat)
    requires Numbered(st, isn) && Numbered(more, isn + |st|)
    ensures Numbered(st + more, isn)
  {
    hide Wrap;
    forall j | 0 <= j < |st + more|
      ensures (st + more)[j].seqno == Wrap(isn + j)
    {
      if j >= |st| {
        assert more[j - |st|].seqno == Wrap(isn + |st| + (j - |st|));
      }
    }
  }

  lemma SubmitKeeps(x: Sender, data: seq<Byte>, c: MsgCtrl, isn: nat, pktLen: nat)
    requires SndInv(x, isn) && pktLen > 0 && data != [] && c.seqno == isn + |x.st|
    ensures SndInv(SndNext(x, Submit(data, c), pktLen), isn)
  {
    hide NumPackets, Pieces, WellFormed, Submitted, Join, Queued, Numbered, IsMessage;
    var ps := Pieces(data, pktLen, c.seqno, MsgNoOf(x.s, c), c);
    PiecesNumbered(data, pktLen, c.seqno, MsgNoOf(x.s, c), c);
    WellFormedConcat(x.st, Wires(ps));
    SubmittedMore(x.st, x.msgs, x.bounds, Wires(ps), data);
    QueuedMore(x.s.q, x.st, x.gone, ps);
    NumberedMore(x.st, Wires(ps), isn);
  }

  lemma PiecesNumbered(data: seq<Byte>, pktLen: nat, at: nat, msgno: nat, c: MsgCtrl)
    requires pktLen > 0 && data != []
    ensures var st := Wires(Pieces(data, pktLen, at, msgno, c));
      WellFormed(st) && IsMessage(st, 0, |st|) && Join(st) == data && Numbered(st, at)
  {
    hide NumPackets, Pieces, WellFormed, Join, IsMessage;
    PiecesWhole(data, pktLen, at, msgno, c);
  }

  lemma StampKeeps(p: SndPacket, keyFlags: int)
    requires -1 <= keyFlags <= 3
    ensures OnWire(Stamp(p, keyFlags)) == OnWire(p)
  {
  }

  lemma SendNewKeeps(x: Sender, now: int, keyFlags: int, isn: nat)
    requires SndInv(x, isn) && -1 <= keyFlags <= 3
    ensures SndInv(x.(s := ReadNew(x.s, now, keyFlags).s), isn)
  {
    hide WellFormed, Submitted, Numbered;
    var q' := ReadNew(x.s, now, keyFlags).s.q;
    forall i | 0 <= i < |q'|
      ensures OnWire(q'[i]) == x.st[x.gone + i]
    {
      StampKeeps(x.s.q[i], keyFlags);
    }
  }

  lemma SendAgainKeeps(x: Sender, offset: int, seqno: int, now: int, isn: nat)
    requires SndInv(x, isn)
    ensures SndInv(x.(s := ReadAgain(x.s, offset, seqno, now).s), isn)
  {
    hide WellFormed, Submitted, Numbered, IncSeqBy;
  }

  lemma RemoveKeeps(x: Sender, count: nat, isn: nat)
    requires SndInv(x, isn) && count <= |x.s.q|
    ensures SndInv(x.(s := AckData(x.s, count), gone := x.gone + count), isn)
  {
    hide WellFormed, Submitted, Numbered;
  }

  lemma SndStep(x: Sender, op: SndOp, isn: nat, pktLen: nat)
    requires SndInv(x, isn) && SndEnabled(x, op, isn) && pktLen > 0
    ensures SndInv(SndNext(x, op, pktLen), isn)
  {
    hide SndInv, ReadNew, ReadAgain, AddBuffer, Wires, Pieces, LateCount;
    match op
    case Submit(data, c) => SubmitKeeps(x, data, c, isn, pktLen);
    case SendNew(now, keyFlags) => SendNewKeeps(x, now, keyFlags, isn);
    case SendAgain(offset, seqno, now) => SendAgainKeeps(x, offset, seqno, now, isn);
    case Ack(count) => RemoveKeeps(x, if count > |x.s.q| then |x.s.q| else count, isn);
    case DropLate(t) => RemoveKeeps(x, LateCount(x.s.q, t), isn);
  }

  /** Every packet handed to the network is a packet of the stream, still inside the queue and unaltered. */
  lemma EmitsStream(x: Sender, op: SndOp, isn: nat)
    requires SndInv(x, isn) && SndEnabled(x, op, isn) && Emitted(x, op).Some?
    ensures exists j :: x.gone <= j < |x.st| && OnWire(Emitted(x, op).value) == x.st[j]
  {
    hide WellFormed, Submitted;
    match op
    case SendNew(now, keyFlags) =>
      var k := SkipExpired(x.s.q, x.s.cur, now);
      StampKeeps(x.s.q[k], keyFlags);
      assert OnWire(Emitted(x, op).value) == x.st[x.gone + k];
    case SendAgain(offset, _, _) =>
      var i := if offset < 0 then 0 else offset;
      assert OnWire(Emitted(x, op).value) == x.st[x.gone + i];
  }

  ghost predicate IsSndRun(xs: seq<Sender>, ops: seq<SndOp>, isn: nat, pktLen: nat) {
    && pktLen > 0 && |xs| == |ops| + 1
    && (forall i :: 0 <= i < |ops| ==>
         xs[i].s.cur <= |xs[i].s.q| && SndEnabled(xs[i], ops[i], isn) && xs[i + 1] == SndNext(xs[i], ops[i], pktLen))
  }

  function SndStart(): Sender {
    Sender(Snd([], 0, 1), [], 0, [], [0])
  }

  /** In every run the queue is the not yet removed part of the stream of all messages submitted so far. */
  lemma {:induction false} SndRunInv(xs: seq<Sender>, ops: seq<SndOp>, isn: nat, pktLen: nat, n: nat)
    requires IsSndRun(xs, ops, isn, pktLen) && xs[0] == SndStart() && n < |xs|
    ensures SndInv(xs[n], isn)
  {
    if n > 0 {
      SndRunInv(xs, ops, isn, pktLen, n - 1);
      hide SndInv;
      SndStep(xs[n - 1], ops[n - 1], isn, pktLen);
    }
  }

  lemma NextKeepsStream(x: Sender, op: SndOp, pktLen: nat)
    requires pktLen > 0 && x.s.cur <= |x.s.q| && (op.SendNew? ==> -1 <= op.keyFlags <= 3)
    ensures x.st <= SndNext(x, op, pktLen).st
  {
  }

  // ------------------------------------------------------------------ packets not sent before

  /** Where in the stream the send cursor stands. */
  function Cursor(x: Sender): nat {
    x.gone + x.s.cur
  }

  /** Where in the stream the next packet to send stands. */
  function NewIndex(x: Sender, now: int): nat
    requires x.s.cur <= |x.s.q|
  {
    x.gone + SkipExpired(x.s.q, x.s.cur, now)
  }

  /** The cursor never goes back, and a packet sent for the first time moves it just past that packet. */
  lemma CursorForward(x: Sender, op: SndOp, isn: nat, pktLen: nat)
    requires SndInv(x, isn) && SndEnabled(x, op, isn) && pktLen > 0
    ensures Cursor(x) <= Cursor(SndNext(x, op, pktLen))
    ensures op.SendNew? && Emitted(x, op).Some? ==>
      var j := NewIndex(x, op.now);
      && Cursor(x) <= j < |x.st| && OnWire(Emitted(x, op).value) == x.st[j] && Cursor(SndNext(x, op, pktLen)) == j + 1
      && (forall k :: x.s.cur <= k < j - x.gone ==> Expired(x.s.q[k], op.now))
  {
    hide WellFormed, Submitted, Numbered, NumPackets, Pieces, Wires, Expired, IncSeqBy;
    match op
    case SendNew(now, keyFlags) =>
      var k := SkipExpired(x.s.q, x.s.cur, now);
      if k < |x.s.q| {
        StampKeeps(x.s.q[k], keyFlags);
      }
    case _ =>
  }

  lemma {:induction false} CursorGrows(xs: seq<Sender>, ops: seq<SndOp>, isn: nat, pktLen: nat, m: nat, n: nat)
    requires IsSndRun(xs, ops, isn, pktLen) && xs[0] == SndStart() && m <= n < |xs|
    ensures Cursor(xs[m]) <= Cursor(xs[n])
    decreases n - m
  {
    hide SndInv, SndNext, Cursor, SndEnabled;
    if m < n {
      CursorGrows(xs, ops, isn, pktLen, m, n - 1);
      SndRunInv(xs, ops, isn, pktLen, n - 1);
      CursorForward(xs[n - 1], ops[n - 1], isn, pktLen);
    }
  }

  /** In every run packets are sent for the first time in the order of the stream, and none of them twice. */
  lemma NewOnce(xs: seq<Sender>, ops: seq<SndOp>, isn: nat, pktLen: nat, m: nat, n: nat)
    requires IsSndRun(xs, ops, isn, pktLen) && xs[0] == SndStart() && m < n < |ops| && ops[m].SendNew?
    requires ops[n].SendNew?
    requires Emitted(xs[m], ops[m]).Some? && Emitted(xs[n], ops[n]).Some?
    ensures NewIndex(xs[m], ops[m].now) < NewIndex(xs[n], ops[n].now)
  {
    SndRunInv(xs, ops, isn, pktLen, m);
    SndRunInv(xs, ops, isn, pktLen, n);
    hide SndInv, SndNext, Cursor, NewIndex, Emitted;
    CursorForward(xs[m], ops[m], isn, pktLen);
    CursorForward(xs[n], ops[n], isn, pktLen);
    CursorGrows(xs, ops, isn, pktLen, m + 1, n);
  }

  // ------------------------------------------------------------------ a message dropped by its time to live

  /** Neighbouring messages differ in number, as they do when the buffer numbers them. */
  ghost predicate NumberedApart(q: seq<SndPacket>) {
    forall j :: 0 < j < |q| && q[j - 1].h.last ==> q[j].h.msgno != q[j - 1].h.msgno
  }

  lemma {:induction false} RunIsMessage(q: seq<SndPacket>, i: nat, m: nat)
    requires 0 < i <= |q| && q[i - 1].h.msgno == m && NumberedApart(q)
    requires forall j :: 0 < j < |q| ==> Follows(OnWire(q[j - 1]), OnWire(q[j]))
    requires q[|q| - 1].h.last
    ensures var e := RunOf(q, i, m); q[e - 1].h.last && forall j :: i - 1 <= j < e - 1 ==> !q[j].h.last
    decreases |q| - i
  {
    if i < |q| {
      assert Follows(OnWire(q[i - 1]), OnWire(q[i]));
      if q[i].h.msgno == m {
        RunIsMessage(q, i + 1, m);
      }
    }
  }

  /**
   * The run of packets with one message number stops at the message's end if and only if the next message has another
   * number.
   */
  lemma {:induction false} RunStopsIff(q: seq<SndPacket>, i: nat, b: nat, m: nat)
    requires 0 < i <= b <= |q| && q[i - 1].h.msgno == m && q[b - 1].h.last
    requires forall j :: i - 1 <= j < b - 1 ==> !q[j].h.last
    requires forall j :: 0 < j < |q| ==> Follows(OnWire(q[j - 1]), OnWire(q[j]))
    ensures RunOf(q, i, m) == b <==> b == |q| || q[b].h.msgno != m
    decreases b - i
  {
    if i < b {
      assert Follows(OnWire(q[i - 1]), OnWire(q[i]));
      RunStopsIff(q, i + 1, b, m);
    }
  }

  /** The buffer's own numbering: each message takes the number after the one before. */
  ghost predicate OwnNumbers(s: Snd, st: seq<Packet>) {
    && (forall j :: 0 <= j < |st| ==> st[j].msgno <= MSGNO_MAX)
    && (forall j :: 0 < j < |st| && st[j - 1].last ==> st[j].msgno != st[j - 1].msgno)
    && (st != [] ==> s.nextMsgNo == NextMsgNo(st[|st| - 1].msgno)) && s.nextMsgNo <= MSGNO_MAX
  }

  /** All packets carry one number, and only the last one ends a message. */
  ghost predicate OneNumber(st: seq<Packet>, m: nat) {
    forall k :: 0 <= k < |st| ==> st[k].msgno == m && (st[k].last <==> k == |st| - 1)
  }

  lemma PiecesMsgNo(data: seq<Byte>, pktLen: nat, at: nat, msgno: nat, c: MsgCtrl)
    requires pktLen > 0
    ensures OneNumber(Wires(Pieces(data, pktLen, at, msgno, c)), msgno)
  {
    hide NumPackets, Pieces;
    var ps := Pieces(data, pktLen, at, msgno, c);
    forall k: nat | k < |ps|
      ensures ps[k].h.msgno == msgno && (ps[k].h.last <==> k == |ps| - 1)
    {
      PieceHead(data, pktLen, at, msgno, c, k);
    }
  }

  lemma OwnNumbersMore(s: Snd, st: seq<Packet>, more: seq<Packet>)
    requires OwnNumbers(s, st) && more != [] && OneNumber(more, s.nextMsgNo)
    ensures OwnNumbers(s.(nextMsgNo := NextMsgNo(s.nextMsgNo)), st + more)
  {
    var all := st + more;
    assert all[|all| - 1] == more[|more| - 1];
    forall j | 0 < j < |all| && all[j - 1].last
      ensures all[j].msgno != all[j - 1].msgno
    {
      if j < |st| {
        assert all[j] == st[j] && all[j - 1] == st[j - 1];
      } else if j == |st| {
        assert all[j] == more[0] && all[j - 1] == st[|st| - 1];
      }
    }
  }

  /** Numbers are kept apart over whole runs in which no caller brings a message number of their own. */
  lemma OwnNumbersStep(x: Sender, op: SndOp, pktLen: nat)
    requires pktLen > 0 && x.s.cur <= |x.s.q| && (op.SendNew? ==> -1 <= op.keyFlags <= 3)
    requires OwnNumbers(x.s, x.st) && (op.Submit? ==> op.data != [] && op.c.msgno < 0)
    ensures OwnNumbers(SndNext(x, op, pktLen).s, SndNext(x, op, pktLen).st)
  {
    hide Pieces, Wires, NumPackets, OwnNumbers, OneNumber;
    match op
    case Submit(data, c) =>
      NumPacketsBounds(|data|, pktLen);
      PiecesMsgNo(data, pktLen, c.seqno, x.s.nextMsgNo, c);
      OwnNumbersMore(x.s, x.st, Wires(Pieces(data, pktLen, c.seqno, x.s.nextMsgNo, c)));
      OwnNumbersOnly(x.s.(nextMsgNo := NextMsgNo(x.s.nextMsgNo)), SndNext(x, op, pktLen).s, SndNext(x, op, pktLen).st);
    case _ => OwnNumbersOnly(x.s, SndNext(x, op, pktLen).s, x.st);
  }

  lemma OwnNumbersOnly(s: Snd, s': Snd, st: seq<Packet>)
    requires OwnNumbers(s, st) && s'.nextMsgNo == s.nextMsgNo
    ensures OwnNumbers(s', st)
  {
  }

  lemma OwnNumbersApart(x: Sender, isn: nat)
    requires SndInv(x, isn) && OwnNumbers(x.s, x.st)
    ensures NumberedApart(x.s.q)
  {
    hide Submitted, WellFormed, Numbered;
    forall j | 0 < j < |x.s.q| && x.s.q[j - 1].h.last
      ensures x.s.q[j].h.msgno != x.s.q[j - 1].h.msgno
    {
      assert OnWire(x.s.q[j]) == x.st[x.gone + j] && OnWire(x.s.q[j - 1]) == x.st[x.gone + j - 1];
    }
  }

  lemma QueueFollows(x: Sender, isn: nat)
    requires SndInv(x, isn)
    ensures forall j :: 0 < j < |x.s.q| ==> Follows(OnWire(x.s.q[j - 1]), OnWire(x.s.q[j]))
    ensures x.s.q != [] ==> x.s.q[|x.s.q| - 1].h.last
  {
    var q := x.s.q;
    hide Submitted;
    forall j | 0 < j < |q|
      ensures Follows(OnWire(q[j - 1]), OnWire(q[j]))
    {
      assert OnWire(q[j]) == x.st[x.gone + j] && OnWire(q[j - 1]) == x.st[x.gone + j - 1];
      assert Follows(x.st[(x.gone + j) - 1], x.st[x.gone + j]);
    }
    if q != [] {
      assert OnWire(q[|q| - 1]) == x.st[|x.st| - 1];
    }
  }

  /**
   * A retransmission request for a packet whose time to live has passed is answered with the range from that packet to
   * the last one of its message, and removes nothing. The cursor is left past the range if and only if the packet had
   * been sent before. A message queued after it carries on where the range ends.
   */
  ghost predicate DropsRest(s: Snd, offset: nat, now: int)
    requires s.cur <= |s.q| && offset < |s.q|
  {
    var q, d := s.q, ReadAgain(s, offset, s.q[offset].h.seqno, now);
    && d.DropRange? && d.count > 0 && offset + d.count <= |q|
    && q[offset + d.count - 1].h.last && (forall j :: offset <= j < offset + d.count - 1 ==> !q[j].h.last)
    && d.from == q[offset].h.seqno && d.to == q[offset + d.count - 1].h.seqno
    && d.s.q == q && (d.s.cur >= offset + d.count <==> offset < s.cur)
    && (s.cur <= offset ==> d.s.cur == s.cur)
    && (offset + d.count < |q| ==> d.to == DecSeq(q[offset + d.count].h.seqno))
  }

  lemma CursorInside(x: Sender, isn: nat)
    requires SndInv(x, isn)
    ensures x.s.cur <= |x.s.q|
  {
  }

  lemma TtlDropRange(x: Sender, offset: nat, now: int, isn: nat)
    requires SndInv(x, isn) && NumberedApart(x.s.q)
    requires offset < |x.s.q| && Expired(x.s.q[offset], now) && |x.s.q| < MODULUS
    ensures x.s.cur <= |x.s.q| && DropsRest(x.s, offset, now)
  {
    hide SndInv, NumberedApart, Wrap, IncSeqBy, DecSeq;
    CursorInside(x, isn);
    var q := x.s.q;
    var m := q[offset].h.msgno;
    QueueFollows(x, isn);
    RunIsMessage(q, offset + 1, m);
    var e := RunOf(q, offset + 1, m);
    SeqAt(x, isn, offset);
    SeqAt(x, isn, e - 1);
    WrapIncBy(isn + x.gone + offset, e - 1 - offset);
    if e < |q| {
      SeqAt(x, isn, e);
      DecInc(isn + x.gone + e - 1);
    }
  }

  /** No message of the run brings a number of its own. */
  ghost predicate UnnumberedRun(ops: seq<SndOp>) {
    forall i :: 0 <= i < |ops| && ops[i].Submit? ==> ops[i].c.msgno < 0
  }

  lemma {:induction false} OwnNumbersRun(xs: seq<Sender>, ops: seq<SndOp>, isn: nat, pktLen: nat, n: nat)
    requires IsSndRun(xs, ops, isn, pktLen) && xs[0] == SndStart() && n < |xs| && UnnumberedRun(ops)
    ensures OwnNumbers(xs[n].s, xs[n].st)
  {
    if n > 0 {
      OwnNumbersRun(xs, ops, isn, pktLen, n - 1);
      hide OwnNumbers, SndNext;
      OwnNumbersStep(xs[n - 1], ops[n - 1], pktLen);
    }
  }

  /** In every run in which the buffer numbers the messages, every such request names the rest of one message. */
  lemma TtlDropRangeRun(xs: seq<Sender>, ops: seq<SndOp>, isn: nat, pktLen: nat, n: nat, offset: nat, now: int)
    requires IsSndRun(xs, ops, isn, pktLen) && xs[0] == SndStart() && n < |xs| && UnnumberedRun(ops)
    requires offset < |xs[n].s.q| && Expired(xs[n].s.q[offset], now) && |xs[n].s.q| < MODULUS
    ensures xs[n].s.cur <= |xs[n].s.q| && DropsRest(xs[n].s, offset, now)
  {
    hide IsSndRun, OwnNumbers, NumberedApart, DropsRest, UnnumberedRun;
    SndRunInv(xs, ops, isn, pktLen, n);
    OwnNumbersRun(xs, ops, isn, pktLen, n);
    OwnNumbersApart(xs[n], isn);
    TtlDropRange(xs[n], offset, now, isn);
  }

  lemma SeqAt(x: Sender, isn: nat, i: nat)
    requires SndInv(x, isn) && i < |x.s.q|
    ensures x.s.q[i].h.seqno == Wrap(isn + x.gone + i)
  {
    hide Submitted, WellFormed;
    assert OnWire(x.s.q[i]) == x.st[x.gone + i];
  }
}
