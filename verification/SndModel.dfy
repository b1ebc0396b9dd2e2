/**
 * The sender buffer (class CSndBuffer) as a queue of packets with a send cursor: packets before the cursor
 * have been sent once and may be asked for again.
 */
module SndModel {
  import opened SeqNo
  import opened Packets

  const MSGNO_MAX: int := 0x03FF_FFFF
  const READ_NONE: int := 0
  const READ_DROP: int := -1

  /** What a block of the buffer holds beside its payload. The key flags are 0 until the packet is first sent. */
  datatype Header = Header(seqno: int, msgno: nat, first: bool, last: bool, inorder: bool, keyFlags: bv2,
                           origin: int, rexmit: int, ttl: int)

  datatype SndPacket = SndPacket(h: Header, payload: seq<Byte>)

  datatype Snd = Snd(q: seq<SndPacket>, cur: nat, nextMsgNo: nat)

  function OnWire(p: SndPacket): Packet {
    Packet(p.h.seqno, p.h.first, p.h.last, p.h.inorder, p.h.msgno, p.payload)
  }

  function TotalBytes(q: seq<SndPacket>): nat {
    if q == [] then 0 else |q[0].payload| + TotalBytes(q[1..])
  }

  lemma {:induction false} TotalConcat(a: seq<SndPacket>, b: seq<SndPacket>)
    ensures TotalBytes(a + b) == TotalBytes(a) + TotalBytes(b)
  {
    if a == [] {
      assert a + b == b;
    } else {
      assert (a + b)[1..] == a[1..] + b;
      TotalConcat(a[1..], b);
    }
  }

  /** Message numbers run from 1 to the mask and then start again at 1. */
  function NextMsgNo(n: nat): nat {
    if n + 1 > MSGNO_MAX then 1 else n + 1
  }

  function NumPackets(len: nat, pktLen: nat): nat
    requires pktLen > 0
  {
    (len + pktLen - 1) / pktLen
  }

  // ------------------------------------------------------------------ addBuffer

  datatype MsgCtrl = MsgCtrl(msgno: int, seqno: nat, inorder: bool, ttl: int, origin: int)

  /** The i-th packet of a message cut into pieces of pktLen bytes; at numbers packets without wrapping. */
  function Piece(data: seq<Byte>, pktLen: nat, i: nat, at: nat, msgno: nat, c: MsgCtrl): SndPacket
    requires pktLen > 0 && i * pktLen < |data|
  {
    var end := if (i + 1) * pktLen < |data| then (i + 1) * pktLen else |data|;
    assert i * pktLen <= end;
    SndPacket(Header(Wrap(at + i), msgno, i == 0, i + 1 == NumPackets(|data|, pktLen),
                     c.inorder, 0, c.origin, 0, c.ttl),
              data[i * pktLen..end])
  }

  lemma NumPacketsBounds(len: nat, pktLen: nat)
    requires pktLen > 0
    ensures len <= NumPackets(len, pktLen) * pktLen < len + pktLen
  {
    var x := len + pktLen - 1;
    assert x == pktLen * (x / pktLen) + x % pktLen;
  }

  lemma MulMono(a: nat, b: nat, d: nat)
    requires a <= b
    ensures a * d <= b * d
  {
  }

  lemma PieceFits(len: nat, pktLen: nat, i: nat)
    requires pktLen > 0
    ensures i < NumPackets(len, pktLen) <==> i * pktLen < len
    ensures (i + 1) * pktLen == i * pktLen + pktLen
  {
    NumPacketsBounds(len, pktLen);
    hide NumPackets;
    var n := NumPackets(len, pktLen);
    if i < n {
      MulMono(i + 1, n, pktLen);
    } else {
      MulMono(n, i, pktLen);
    }
  }

  /** The packets of the message from the i-th on. */
  function PiecesFrom(data: seq<Byte>, pktLen: nat, i: nat, at: nat, msgno: nat, c: MsgCtrl): (ps: seq<SndPacket>)
    requires pktLen > 0 && i <= NumPackets(|data|, pktLen)
    ensures |ps| == NumPackets(|data|, pktLen) - i
    decreases NumPackets(|data|, pktLen) - i
  {
    if i == NumPackets(|data|, pktLen) then []
    else
      PieceFits(|data|, pktLen, i);
      [Piece(data, pktLen, i, at, msgno, c)] + PiecesFrom(data, pktLen, i + 1, at, msgno, c)
  }

  function Pieces(data: seq<Byte>, pktLen: nat, at: nat, msgno: nat, c: MsgCtrl): (ps: seq<SndPacket>)
    requires pktLen > 0
    ensures |ps| == NumPackets(|data|, pktLen)
  {
    PiecesFrom(data, pktLen, 0, at, msgno, c)
  }

  function MsgNoOf(s: Snd, c: MsgCtrl): nat {
    if c.msgno < 0 then s.nextMsgNo else c.msgno
  }

  /** addBuffer; the control record's sequence number counts without wrapping. */
  function AddBuffer(s: Snd, data: seq<Byte>, pktLen: nat, c: MsgCtrl): Snd
    requires pktLen > 0
  {
    var msgno := MsgNoOf(s, c);
    Snd(s.q + Pieces(data, pktLen, c.seqno, msgno, c), s.cur, NextMsgNo(msgno))
  }

  lemma {:induction false} PiecesAt(data: seq<Byte>, pktLen: nat, i: nat, at: nat, msgno: nat, c: MsgCtrl, k: nat)
    requires pktLen > 0 && i <= k < NumPackets(|data|, pktLen)
    ensures k * pktLen < |data|
    ensures PiecesFrom(data, pktLen, i, at, msgno, c)[k - i] == Piece(data, pktLen, k, at, msgno, c)
    decreases k - i
  {
    PieceFits(|data|, pktLen, k);
    if i < k {
      PiecesAt(data, pktLen, i + 1, at, msgno, c, k);
    }
  }

  function Wires(ps: seq<SndPacket>): (r: seq<Packet>)
    ensures |r| == |ps| && forall i :: 0 <= i < |ps| ==> r[i] == OnWire(ps[i])
  {
    if ps == [] then [] else [OnWire(ps[0])] + Wires(ps[1..])
  }

  function StartOf(i: nat, pktLen: nat, len: nat): (x: nat)
    ensures x <= len
  {
    if i * pktLen <= len then i * pktLen else len
  }

  lemma PieceSlice(data: seq<Byte>, pktLen: nat, i: nat, at: nat, msgno: nat, c: MsgCtrl)
    requires pktLen > 0 && i * pktLen < |data|
    ensures StartOf(i, pktLen, |data|) <= StartOf(i + 1, pktLen, |data|)
    ensures Piece(data, pktLen, i, at, msgno, c).payload ==
            data[StartOf(i, pktLen, |data|)..StartOf(i + 1, pktLen, |data|)]
  {
  }

  lemma WiresCons(p: SndPacket, rest: seq<SndPacket>)
    ensures Join(Wires([p] + rest)) == p.payload + Join(Wires(rest))
  {
    assert Wires([p] + rest)[1..] == Wires(rest);
  }

  /** Cutting a message and joining the pieces gives the message back. */
  lemma {:induction false} PiecesJoin(data: seq<Byte>, pktLen: nat, i: nat, at: nat, msgno: nat, c: MsgCtrl)
    requires pktLen > 0 && i <= NumPackets(|data|, pktLen)
    ensures Join(Wires(PiecesFrom(data, pktLen, i, at, msgno, c))) == data[StartOf(i, pktLen, |data|)..]
    decreases NumPackets(|data|, pktLen) - i
  {
    hide NumPackets, Wires, Join;
    PieceFits(|data|, pktLen, i);
    if i < NumPackets(|data|, pktLen) {
      PiecesJoin(data, pktLen, i + 1, at, msgno, c);
      PieceSlice(data, pktLen, i, at, msgno, c);
      WiresCons(Piece(data, pktLen, i, at, msgno, c), PiecesFrom(data, pktLen, i + 1, at, msgno, c));
      hide StartOf, Piece;
      var x, y := StartOf(i, pktLen, |data|), StartOf(i + 1, pktLen, |data|);
      assert data[x..y] + data[y..] == data[x..];
    } else {
      NoneLeft();
    }
  }

  lemma NoneLeft()
    ensures Join(Wires([])) == []
  {
  }

  /** What the k-th packet of a message says of itself. */
  lemma PieceHead(data: seq<Byte>, pktLen: nat, at: nat, msgno: nat, c: MsgCtrl, k: nat)
    requires pktLen > 0 && k < NumPackets(|data|, pktLen)
    ensures var h := Pieces(data, pktLen, at, msgno, c)[k].h;
      && h.seqno == Wrap(at + k) && h.msgno == msgno && h.inorder == c.inorder
      && (h.first <==> k == 0) && (h.last <==> k + 1 == NumPackets(|data|, pktLen))
  {
    hide NumPackets, PiecesFrom;
    PiecesAt(data, pktLen, 0, at, msgno, c, k);
  }

  /** The packets of one message form one message of a well-formed stream, numbered from at. */
  lemma PiecesWhole(data: seq<Byte>, pktLen: nat, at: nat, msgno: nat, c: MsgCtrl)
    requires pktLen > 0 && data != []
    ensures var st := Wires(Pieces(data, pktLen, at, msgno, c));
      && WellFormed(st) && IsMessage(st, 0, |st|) && Join(st) == data
      && (forall k :: 0 <= k < |st| ==> st[k].seqno == Wrap(at + k) && st[k].inorder == c.inorder)
  {
    hide NumPackets, PiecesFrom, Wrap, Join, Wires;
    NumPacketsBounds(|data|, pktLen);
    var ps := Pieces(data, pktLen, at, msgno, c);
    forall k: nat | k < |ps|
      ensures ps[k].h.seqno == Wrap(at + k) && ps[k].h.msgno == msgno && ps[k].h.inorder == c.inorder
      ensures (ps[k].h.first <==> k == 0) && (ps[k].h.last <==> k + 1 == |ps|)
    {
      PieceHead(data, pktLen, at, msgno, c, k);
    }
    PiecesJoin(data, pktLen, 0, at, msgno, c);
    hide Pieces;
    var st := Wires(ps);
    forall j | 0 < j < |st|
      ensures Follows(st[j - 1], st[j])
    {
      assert st[j] == OnWire(ps[j]) && st[j - 1] == OnWire(ps[j - 1]);
    }
  }

  lemma {:induction false} PiecesBytes(data: seq<Byte>, pktLen: nat, i: nat, at: nat, msgno: nat, c: MsgCtrl)
    requires pktLen > 0 && i <= NumPackets(|data|, pktLen)
    ensures TotalBytes(PiecesFrom(data, pktLen, i, at, msgno, c)) ==
            if i * pktLen <= |data| then |data| - i * pktLen else 0
    decreases NumPackets(|data|, pktLen) - i
  {
    hide NumPackets;
    PieceFits(|data|, pktLen, i);
    if i < NumPackets(|data|, pktLen) {
      PieceFits(|data|, pktLen, i + 1);
      PiecesBytes(data, pktLen, i + 1, at, msgno, c);
      var p := Piece(data, pktLen, i, at, msgno, c);
      var rest := PiecesFrom(data, pktLen, i + 1, at, msgno, c);
      assert ([p] + rest)[1..] == rest;
    }
  }

  /** The byte total grows by exactly the length of the message. */
  lemma AddBufferBytes(s: Snd, data: seq<Byte>, pktLen: nat, c: MsgCtrl)
    requires pktLen > 0
    ensures TotalBytes(AddBuffer(s, data, pktLen, c).q) == TotalBytes(s.q) + |data|
  {
    PiecesBytes(data, pktLen, 0, c.seqno, MsgNoOf(s, c), c);
    TotalConcat(s.q, Pieces(data, pktLen, c.seqno, MsgNoOf(s, c), c));
  }

  // ------------------------------------------------------------------ reading

  predicate Expired(p: SndPacket, now: int) {
    p.h.ttl >= 0 && now - p.h.origin > p.h.ttl
  }

  /** The first packet from cur on whose time to live has not passed. */
  function SkipExpired(q: seq<SndPacket>, cur: nat, now: int): (k: nat)
    requires cur <= |q|
    ensures cur <= k <= |q|
    ensures forall i :: cur <= i < k ==> Expired(q[i], now)
    ensures k < |q| ==> !Expired(q[k], now)
    decreases |q| - cur
  {
    if cur == |q| || !Expired(q[cur], now) then cur else SkipExpired(q, cur + 1, now)
  }

  function Stamp(p: SndPacket, keyFlags: int): SndPacket
    requires -1 <= keyFlags <= 3
  {
    if keyFlags == -1 then p else p.(h := p.h.(keyFlags := p.h.keyFlags | (keyFlags as bv2)))
  }

  function StampRange(q: seq<SndPacket>, i: nat, k: nat, keyFlags: int): (r: seq<SndPacket>)
    requires i <= k <= |q| && -1 <= keyFlags <= 3
    ensures |r| == |q|
    ensures forall j :: 0 <= j < |q| ==> r[j] == if i <= j < k then Stamp(q[j], keyFlags) else q[j]
    decreases k - i
  {
    if i == k then q else StampRange(q[i := Stamp(q[i], keyFlags)], i + 1, k, keyFlags)
  }

  datatype Sent = Sent(s: Snd, len: int, pkt: Option<SndPacket>, skipped: nat)

  /** readData for a packet not sent before: skips expired packets, counting them. */
  function ReadNew(s: Snd, now: int, keyFlags: int): Sent
    requires s.cur <= |s.q| && -1 <= keyFlags <= 3
  {
    var k := SkipExpired(s.q, s.cur, now);
    var end := if k < |s.q| then k + 1 else k;
    var q := StampRange(s.q, s.cur, end, keyFlags);
    Sent(s.(q := q, cur := end),
         if k < |s.q| && keyFlags != -1 then |q[k].payload| else 0,
         if k < |s.q| then Some(q[k]) else None,
         k - s.cur)
  }

  /** The packets from i on that carry message number m: where they end. */
  function RunOf(q: seq<SndPacket>, i: nat, m: nat): (e: nat)
    requires i <= |q|
    ensures i <= e <= |q|
    ensures forall j :: i <= j < e ==> q[j].h.msgno == m
    ensures e < |q| ==> q[e].h.msgno != m
    decreases |q| - i
  {
    if i == |q| || q[i].h.msgno != m then i else RunOf(q, i + 1, m)
  }

  datatype Again =
    | NoPacket(s: Snd)
    | Resend(s: Snd, pkt: SndPacket)
    | DropRange(s: Snd, msgno: nat, from: int, to: int, count: nat)

  /** readData for a retransmission of the packet that is offset places from the oldest one. */
  function ReadAgain(s: Snd, offset: int, seqno: int, now: int): Again
    requires s.cur <= |s.q|
  {
    var i := if offset < 0 then 0 else offset;
    if i >= |s.q| then NoPacket(s)
    else if Expired(s.q[i], now) then
      var e := RunOf(s.q, i + 1, s.q[i].h.msgno);
      DropRange(if i < s.cur < e then s.(cur := e) else s, s.q[i].h.msgno, seqno, IncSeqBy(seqno, e - i - 1), e - i)
    else
      var p := s.q[i].(h := s.q[i].h.(rexmit := now));
      Resend(s.(q := s.q[i := p]), p)
  }

  // ------------------------------------------------------------------ removing

  function AckData(s: Snd, offset: nat): Snd {
    var k := if offset > |s.q| then |s.q| else offset;
    s.(q := s.q[k..], cur := if s.cur < k then 0 else s.cur - k)
  }

  /** How many of the oldest packets were submitted before the given time. */
  function LateCount(q: seq<SndPacket>, tooLate: int): (k: nat)
    ensures k <= |q|
    ensures forall i :: 0 <= i < k ==> q[i].h.origin < tooLate
    ensures k < |q| ==> q[k].h.origin >= tooLate
  {
    if q == [] || q[0].h.origin >= tooLate then 0 else
      var k := LateCount(q[1..], tooLate);
      assert forall i :: 0 < i < k + 1 ==> q[i] == q[1..][i - 1];
      k + 1
  }

  datatype Late = Late(s: Snd, count: nat, bytes: nat, firstMsgNo: nat)

  function DropLateData(s: Snd, tooLate: int): Late {
    var k := LateCount(s.q, tooLate);
    Late(AckData(s, k), k, TotalBytes(s.q[..k]), NextMsgNo(if k == 0 then 0 else s.q[k - 1].h.msgno))
  }
}
