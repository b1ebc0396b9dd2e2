/**
 * The sender buffer in place: a circular list of blocks that borrow their payload space from a few shared
 * arrays, with pointers to the oldest block, the next one to send and the first free one.
 */
module SndBuffer {
  import opened SeqNo
  import opened Packets
  import opened SndModel
  import opened SndRing

  class SenderBuffer {
    const blockLen: nat
    const pktLen: nat
    const unitSize: nat
    var buffers: seq<array<Byte>>
    var first: Block
    var curr: Block
    var last: Block
    var size: nat
    var count: nat
    var bytesCount: int
    var nextMsgNo: nat

    /** The circle of blocks from the oldest one on. */
    ghost var ring: seq<Block>
    /** What is queued, and how much of it has been sent. */
    ghost var q: seq<SndPacket>
    ghost var cur: nat

    ghost predicate Valid()
      reads this, ring, buffers
    {
      Circle(ring, blockLen) && |ring| == size && Filled(ring, buffers)
    }

    ghost predicate Filled(r: seq<Block>, bufs: seq<array<Byte>>)
      reads this`q, this`count, this`cur, this`first, this`curr, this`last, this`bytesCount, r`head, r`length, bufs
    {
      && (forall i :: 0 <= i < |r| ==> Within(r[i], bufs, blockLen))
      && Held(r, bufs, q, blockLen) && |q| == count < |r| && cur <= count
      && first == r[0] && curr == r[cur] && last == r[count]
      && bytesCount == TotalBytes(q) && 0 < pktLen <= blockLen && unitSize > 0
    }

    ghost function View(): Snd
      reads this
    {
      Snd(q, cur, nextMsgNo)
    }

    constructor (size: nat, blockLen: nat, authTag: nat)
      requires size > 0 && authTag < blockLen
      ensures Valid() && fresh(buffers) && fresh(ring)
      ensures View() == Snd([], 0, 1) && this.size == size && pktLen == blockLen - authTag
    {
      var store := new Byte[size * blockLen];
      var head, tail, bs := Chain(store, size, blockLen);
      OneIndexAll(bs, blockLen, size - 1);
      tail.next := head;
      this.blockLen, pktLen, unitSize := blockLen, blockLen - authTag, size;
      buffers, ring := [store], bs;
      first, curr, last := head, head, head;
      this.size, count, bytesCount, nextMsgNo := size, 0, 0, 1;
      q, cur := [], 0;
    }

    /** Moves nothing: unitSize fresh blocks go in after the first free one. */
    method Increase()
      requires Valid()
      modifies this, last`next
      ensures Valid() && View() == old(View()) && size == old(size) + unitSize
      ensures count == old(count) && bytesCount == old(bytesCount)
      ensures first == old(first) && curr == old(curr) && last == old(last)
      ensures forall i :: 0 <= i < |ring| ==> ring[i] in old(ring) || fresh(ring[i])
      ensures forall i :: 0 <= i < |buffers| ==> buffers[i] in old(buffers) || fresh(buffers[i])
    {
      hide Valid, Circle, Spliced, Filled;
      ghost var r := ring;
      Facts();
      var store, bs := Room();
      ghost var bufs := buffers;
      buffers := buffers + [store];
      assert buffers[..|buffers| - 1] == bufs;
      ring := Spliced(r, count, bs);
      size := size + unitSize;
      Grown(r, bs, store);
    }

    lemma Facts()
      requires Valid()
      ensures Filled(ring, buffers) && Circle(ring, blockLen) && |ring| == size
      ensures count < size && last == ring[count] && unitSize > 0 && blockLen > 0 && Apart(ring, blockLen)
    {
    }

    lemma Grown(r: seq<Block>, bs: seq<Block>, store: array<Byte>)
      requires buffers != [] && Filled(r, buffers[..|buffers| - 1]) && store == buffers[|buffers| - 1]
      requires |bs| == unitSize
      requires forall i :: 0 <= i < |bs| ==> bs[i].store == store && bs[i].at + blockLen <= store.Length
      requires ring == Spliced(r, count, bs) && size == |ring| && Circle(ring, blockLen)
      ensures Valid()
    {
      hide Circle, TotalBytes;
    }

    method Room() returns (store: array<Byte>, ghost bs: seq<Block>)
      requires Valid()
      modifies last`next
      ensures |bs| == unitSize && fresh(store)
      ensures forall i :: 0 <= i < |bs| ==> fresh(bs[i]) && bs[i].store == store && bs[i].at + blockLen <= store.Length
      ensures |ring| == size && count < size
      ensures Circle(Spliced(ring, count, bs), blockLen)
    {
      hide Valid, Circle, Linked, Apart, Spliced, Disjoint;
      Facts();
      store := new Byte[unitSize * blockLen];
      var head, tail;
      head, tail, bs := Chain(store, unitSize, blockLen);
      Splice(last, head, tail, ring, count, bs, blockLen);
    }

    method MakeRoom(need: nat)
      requires Valid()
      modifies this, ring`next
      ensures Valid() && View() == old(View()) && need + count < size
      ensures count == old(count) && bytesCount == old(bytesCount)
      ensures need + old(count) < old(size) ==> ring == old(ring)
      ensures forall i :: 0 <= i < |ring| ==> ring[i] in old(ring) || fresh(ring[i])
      ensures forall i :: 0 <= i < |buffers| ==> buffers[i] in old(buffers) || fresh(buffers[i])
    {
      hide Circle, Filled;
      while need + count >= size
        invariant Valid() && View() == old(View()) && count == old(count) && bytesCount == old(bytesCount)
        invariant need + old(count) < old(size) ==> ring == old(ring) && size == old(size)
        invariant forall i :: 0 <= i < |ring| ==> ring[i] in old(ring) || fresh(ring[i])
        invariant forall i :: 0 <= i < |buffers| ==> buffers[i] in old(buffers) || fresh(buffers[i])
        decreases need + count - size
      {
        Facts();
        assert last in old(ring) || fresh(last);
        Increase();
      }
    }

    /** The free blocks keep what their headers were left with. */
    twostate predicate FreeKept(r: seq<Block>)
      reads this, r
    {
      forall j :: count <= j < |r| ==> r[j].head == old(r[j].head)
    }

    /** Cuts the message into packets; returns the next sequence number and the message number used. */
    method AddBuffer(data: seq<Byte>, c: MsgCtrl) returns (seqno: int, msgno: nat)
      requires Valid()
      modifies this, ring, buffers
      ensures Valid() && View() == SndModel.AddBuffer(old(View()), data, pktLen, c)
      ensures seqno == Wrap(c.seqno + NumPackets(|data|, pktLen)) && msgno == MsgNoOf(old(View()), c)
      ensures NumPackets(|data|, pktLen) + old(count) < old(size) ==> ring == old(ring) && FreeKept(old(ring))
      ensures forall i :: 0 <= i < |ring| ==> ring[i] in old(ring) || fresh(ring[i])
      ensures forall i :: 0 <= i < |buffers| ==> buffers[i] in old(buffers) || fresh(buffers[i])
    {
      hide Circle, Filled;
      Facts();
      MakeRoom(NumPackets(|data|, pktLen));
      Facts();
      seqno, msgno := Fill(data, c);
    }

    method Fill(data: seq<Byte>, c: MsgCtrl) returns (seqno: int, msgno: nat)
      requires Valid() && NumPackets(|data|, pktLen) + count < size
      modifies this, ring`head, ring`length, buffers
      ensures Valid() && View() == SndModel.AddBuffer(old(View()), data, pktLen, c)
      ensures seqno == Wrap(c.seqno + NumPackets(|data|, pktLen)) && msgno == MsgNoOf(old(View()), c)
      ensures ring == old(ring) && buffers == old(buffers) && FreeKept(ring)
    {
      hide Valid, NumPackets, Pieces, TotalBytes, Wrap, Held, Circle, Filled, Within;
      Facts();
      Pointers();
      msgno := if c.msgno < 0 then nextMsgNo else c.msgno;
      nextMsgNo := msgno;
      AddBufferBytes(View(), data, pktLen, c);
      var s;
      s, seqno := PutAll(data, c, msgno);
      Commit(s, NumPackets(|data|, pktLen), |data|, Pieces(data, pktLen, c.seqno, msgno, c));
    }

    /** The fields addBuffer updates once the blocks are filled. */
    method Commit(s: Block, n: nat, len: nat, ghost ps: seq<SndPacket>)
      requires Circle(ring, blockLen) && |ring| == size
      requires forall i :: 0 <= i < |ring| ==> Within(ring[i], buffers, blockLen)
      requires Held(ring, buffers, q + ps, blockLen) && |q| == count && |ps| == n && count + n < size && cur <= count
      requires first == ring[0] && curr == ring[cur] && s == ring[count + n]
      requires bytesCount + len == TotalBytes(q + ps) && 0 < pktLen <= blockLen && unitSize > 0
      modifies `last, `count, `bytesCount, `nextMsgNo, `q
      ensures Valid() && View() == Snd(old(q) + ps, old(cur), NextMsgNo(old(nextMsgNo))) && count == old(count) + n
    {
      hide Held, Circle, Apart, Linked, Holds, Within, TotalBytes;
      last, count, bytesCount := s, count + n, bytesCount + len;
      nextMsgNo := NextMsgNo(nextMsgNo);
      q := q + ps;
      assert Held(ring, buffers, q, blockLen);
      assert Circle(ring, blockLen);
    }

    lemma Pointers()
      requires Valid()
      ensures |q| == count && cur <= count && first == ring[0] && curr == ring[cur] && bytesCount == TotalBytes(q)
      ensures 0 < pktLen <= blockLen
      ensures forall i :: 0 <= i < |ring| ==> Within(ring[i], buffers, blockLen)
    {
    }

    /** The loop of addBuffer: fills the free blocks from the first one on. */
    method PutAll(data: seq<Byte>, c: MsgCtrl, msgno: nat) returns (s: Block, seqno: int)
      requires Circle(ring, blockLen) && Filled(ring, buffers) && NumPackets(|data|, pktLen) + count < |ring|
      modifies ring`head, ring`length, buffers
      ensures var n := NumPackets(|data|, pktLen); s == ring[count + n] && seqno == Wrap(c.seqno + n)
      ensures Held(ring, buffers, q + Pieces(data, pktLen, c.seqno, msgno, c), blockLen)
      ensures forall j :: count + NumPackets(|data|, pktLen) <= j < |ring| ==> ring[j].head == old(ring[j].head)
    {
      hide NumPackets, Pieces, TotalBytes, Wrap, Holds, Linked, Circle;
      var n := NumPackets(|data|, pktLen);
      seqno := Wrap(c.seqno);
      ghost var ps := Pieces(data, pktLen, c.seqno, msgno, c);
      assert q + ps[..0] == q;
      s := last;
      var i := 0;
      while i < n
        invariant 0 <= i <= n && s == ring[count + i] && seqno == Wrap(c.seqno + i)
        invariant Held(ring, buffers, q + ps[..i], blockLen)
        invariant forall j :: count + i <= j < |ring| ==> ring[j].head == old(ring[j].head)
      {
        CircleApart();
        OneIndexAll(ring, blockLen, count + i);
        PutPiece(s, data, i, seqno, msgno, c);
        assert q + ps[..i] + [ps[i]] == q + ps[..i + 1];
        WrapInc(c.seqno + i);
        seqno := IncSeq(seqno);
        NextIs(count + i);
        s := s.next;
        i := i + 1;
      }
      assert ps[..n] == ps;
    }

    lemma CircleApart()
      requires Circle(ring, blockLen)
      ensures Apart(ring, blockLen)
    {
    }

    lemma NextIs(i: nat)
      requires Circle(ring, blockLen) && i + 1 < |ring|
      ensures ring[i].next == ring[i + 1]
    {
    }

    method PutPiece(s: Block, data: seq<Byte>, i: nat, seqno: int, msgno: nat, c: MsgCtrl)
      requires 0 < pktLen <= blockLen && i < NumPackets(|data|, pktLen) && seqno == Wrap(c.seqno + i)
      requires Apart(ring, blockLen) && (forall j :: 0 <= j < |ring| ==> Within(ring[j], buffers, blockLen))
      requires |q| + i < |ring| && s == ring[|q| + i]
      requires Held(ring, buffers, q + Pieces(data, pktLen, c.seqno, msgno, c)[..i], blockLen)
      modifies s`head, s`length, s.store
      ensures var ps := Pieces(data, pktLen, c.seqno, msgno, c); Held(ring, buffers, q + ps[..i] + [ps[i]], blockLen)
    {
      hide Apart, Holds, Within, Held;
      PieceFits(|data|, pktLen, i);
      var pktlen := |data| - i * pktLen;
      if pktlen > pktLen {
        pktlen := pktLen;
      }
      var p := SndPacket(Header(seqno, msgno, i == 0, i == NumPackets(|data|, pktLen) - 1,
                                c.inorder, 0, c.origin, 0, c.ttl),
                         data[i * pktLen..i * pktLen + pktlen]);
      PiecesAt(data, pktLen, 0, c.seqno, msgno, c, i);
      StoreAt(s, p, blockLen, ring, buffers, q + Pieces(data, pktLen, c.seqno, msgno, c)[..i]);
    }

    /** The pointer comparisons of the source tell positions apart. */
    lemma SamePlace(i: nat, j: nat)
      requires Circle(ring, blockLen) && i < |ring| && j < |ring|
      ensures ring[i] == ring[j] <==> i == j
    {
      OneIndex(ring, blockLen, i, j);
    }

    // ---------------------------------------------------------------- acknowledging

    method Ack(offset: nat)
      requires Valid()
      modifies `first, `curr, `count, `bytesCount, `ring, `q, `cur
      ensures Valid() && View() == AckData(old(View()), offset)
      ensures var k := if offset > old(count) then old(count) else offset;
        0 <= k < |old(ring)| && ring == Turned(old(ring), k)
      ensures (forall b :: b in ring ==> b in old(ring)) && (forall b :: b in old(ring) ==> b in ring)
    {
      hide Valid, Circle, Held, TotalBytes, Within;
      Facts();
      Pointers();
      var k := if offset > count then count else offset;
      var i, move := 0, false;
      assert q[0..] == q;
      while i < k
        invariant 0 <= i <= k && first == ring[i] && bytesCount == TotalBytes(q[i..]) && (move <==> cur < i)
        modifies `first, `bytesCount
      {
        HeldAt(i);
        TotalFrom(q, i);
        bytesCount := bytesCount - first.length;
        SamePlace(i, cur);
        if first == curr {
          move := true;
        }
        NextIs(i);
        first := first.next;
        i := i + 1;
      }
      Turn(k, move);
    }

    lemma HeldAt(i: nat)
      requires forall j :: 0 <= j < |ring| ==> Within(ring[j], buffers, blockLen)
      requires Held(ring, buffers, q, blockLen) && i < |q|
      ensures Holds(ring[i], q[i], blockLen)
    {
    }

    lemma HeadAt(i: nat)
      requires forall j :: 0 <= j < |ring| ==> Within(ring[j], buffers, blockLen)
      requires Held(ring, buffers, q, blockLen) && i < |q|
      ensures ring[i].head == q[i].h
    {
      HeldAt(i);
    }

    /** The oldest k packets are gone: the circle is now counted from first on. */
    method Turn(k: nat, move: bool)
      requires Circle(ring, blockLen) && |ring| == size
      requires forall i :: 0 <= i < |ring| ==> Within(ring[i], buffers, blockLen)
      requires Held(ring, buffers, q, blockLen) && |q| == count < size && cur <= count && k <= count
      requires first == ring[k] && curr == ring[cur] && last == ring[count] && (move <==> cur < k)
      requires bytesCount == TotalBytes(q[k..]) && 0 < pktLen <= blockLen && unitSize > 0
      modifies `curr, `count, `ring, `q, `cur
      ensures Valid() && View() == AckData(old(View()), k)
      ensures ring == Turned(old(ring), k)
    {
      hide Valid, Held, Circle, Within, TotalBytes, Turned;
      TurnedCircle(ring, k, blockLen);
      TurnedHeld(ring, buffers, q, k, blockLen);
      ghost var r := ring;
      if move {
        curr := first;
      }
      count := count - k;
      ring, q, cur := Turned(ring, k), q[k..], if cur < k then 0 else cur - k;
      assert ring[0] == r[k] && ring[count] == r[count + k] && curr == ring[cur];
      Again();
    }

    method DropLate(tooLate: int) returns (dpkts: nat, dbytes: nat, firstMsgNo: nat)
      requires Valid()
      modifies `first, `curr, `count, `bytesCount, `ring, `q, `cur
      ensures Valid() && Late(View(), dpkts, dbytes, firstMsgNo) == DropLateData(old(View()), tooLate)
      ensures (forall b :: b in ring ==> b in old(ring)) && (forall b :: b in old(ring) ==> b in ring)
    {
      hide Valid, Circle, Held, TotalBytes, Within, LateCount;
      Facts();
      Pointers();
      var move, msgno;
      dpkts, dbytes, msgno, move := PassLate(tooLate);
      TotalConcat(q[..dpkts], q[dpkts..]);
      assert q[..dpkts] + q[dpkts..] == q;
      bytesCount := bytesCount - dbytes;
      Turn(dpkts, move);
      firstMsgNo := NextMsgNo(msgno);
    }

    /** The loop of dropLateData: moves first over the packets that are too old. */
    method PassLate(tooLate: int) returns (dpkts: nat, dbytes: nat, msgno: nat, move: bool)
      requires Circle(ring, blockLen) && |ring| == size
      requires forall i :: 0 <= i < |ring| ==> Within(ring[i], buffers, blockLen)
      requires Held(ring, buffers, q, blockLen) && |q| == count < size && cur <= count && first == ring[0]
      requires curr == ring[cur]
      modifies `first
      ensures dpkts == LateCount(q, tooLate) && dbytes == TotalBytes(q[..dpkts]) && first == ring[dpkts]
      ensures move <==> cur < dpkts
      ensures msgno == if dpkts == 0 then 0 else q[dpkts - 1].h.msgno
    {
      hide Circle, Held, TotalBytes, Within, LateCount;
      dpkts, dbytes, move, msgno := 0, 0, false, 0;
      NoBytes(q);
      while dpkts < count && first.head.origin < tooLate
        invariant 0 <= dpkts <= count && first == ring[dpkts] && dbytes == TotalBytes(q[..dpkts])
        invariant move <==> cur < dpkts
        invariant msgno == if dpkts == 0 then 0 else q[dpkts - 1].h.msgno
        invariant forall i :: 0 <= i < dpkts ==> q[i].h.origin < tooLate
      {
        HeldAt(dpkts);
        TotalUpTo(q, dpkts);
        dbytes := dbytes + first.length;
        msgno := first.head.msgno;
        SamePlace(dpkts, cur);
        if first == curr {
          move := true;
        }
        NextIs(dpkts);
        first := first.next;
        dpkts := dpkts + 1;
      }
      if dpkts < count {
        HeldAt(dpkts);
      }
      LateCountIs(q, tooLate, dpkts);
    }

    // ---------------------------------------------------------------- sending

    /** Marks the next block with the key flags, steps over it and says whether its time to live has passed. */
    method TakeNext(now: int, keyFlags: int) returns (expired: bool, len: int, pkt: SndPacket)
      requires Valid() && cur < count && -1 <= keyFlags <= 3
      modifies `curr, `cur, `q, ring`head
      ensures Valid() && View() == old(View()).(q := old(q)[old(cur) := pkt], cur := old(cur) + 1)
      ensures pkt == Stamp(old(q)[old(cur)], keyFlags) && expired == Expired(old(q)[old(cur)], now)
      ensures len == if keyFlags == -1 then 0 else |pkt.payload|
    {
      hide Valid, Held;
      Facts();
      Pointers();
      HeldAt(cur);
      var b := curr;
      var h := if keyFlags == -1 then b.head else b.head.(keyFlags := b.head.keyFlags | (keyFlags as bv2));
      expired := h.ttl >= 0 && now - h.origin > h.ttl;
      len := if keyFlags == -1 then 0 else b.length;
      pkt := SndPacket(h, b.store[b.at..b.at + b.length]);
      SetHead(b, cur, h);
      Advance();
    }

    method SetHead(b: Block, ghost k: nat, h: Header)
      requires Valid() && k < count && b == ring[k]
      modifies `q, b`head
      ensures Valid() && |old(q)| == count && q == old(q)[k := old(q)[k].(h := h)]
    {
      hide Valid, Circle, Held, TotalBytes, Apart, Within;
      Facts();
      Pointers();
      Rehead(b, h, blockLen, ring, buffers, q, k);
      TotalRehead(q, k, h);
      q := q[k := q[k].(h := h)];
      Again();
    }

    method Advance()
      requires Valid() && cur < count
      modifies `curr, `cur
      ensures Valid() && cur == old(cur) + 1
    {
      hide Valid, Circle, Held, TotalBytes, Within;
      Facts();
      Pointers();
      NextIs(cur);
      curr := curr.next;
      cur := cur + 1;
      Again();
    }

    /** Gives the next packet not sent before, skipping expired ones. */
    method ReadData(now: int, keyFlags: int) returns (len: int, pkt: Option<SndPacket>, skipped: nat)
      requires Valid() && -1 <= keyFlags <= 3
      modifies `curr, `cur, `q, ring`head
      ensures Valid() && Sent(View(), len, pkt, skipped) == ReadNew(old(View()), now, keyFlags)
      ensures ring == old(ring)
    {
      hide Valid, Circle, StampRange, Stamp, SkipExpired, Expired;
      len, pkt, skipped := 0, None, 0;
      ghost var q0, c0 := q, cur;
      Ends();
      while curr != last
        invariant Valid() && c0 <= cur <= count == |q0| == |q| && (curr == last <==> cur == count)
        invariant len == 0 && pkt == None && skipped == cur - c0
        invariant q == StampRange(q0, c0, cur, keyFlags) && (forall i :: c0 <= i < cur ==> Expired(q0[i], now))
        modifies `curr, `cur, `q, ring`head
        decreases count - cur
      {
        StampMore(q0, c0, cur, keyFlags);
        var expired, n, p := TakeNext(now, keyFlags);
        Ends();
        if expired {
          skipped := skipped + 1;
        } else {
          len, pkt := n, Some(p);
          SkipIs(q0, c0, now, cur - 1);
          return;
        }
      }
      SkipIs(q0, c0, now, cur);
    }

    lemma Ends()
      requires Valid()
      ensures |q| == count && cur <= count && (curr == last <==> cur == count)
    {
      SamePlace(cur, count);
    }

    /** Walks to the packet that is offset places from the oldest one, or to the end. */
    method Locate(offset: int) returns (p: Block, i: nat)
      requires Valid()
      ensures i == (if offset < 0 then 0 else if offset > count then count else offset) && i < |ring| && p == ring[i]
    {
      hide Valid, Circle;
      Facts();
      Pointers();
      p, i := first, 0;
      while i < offset && p != last
        invariant 0 <= i <= count && p == ring[i] && (i <= offset || i == 0)
      {
        SamePlace(i, count);
        NextIs(i);
        p := p.next;
        i := i + 1;
      }
      SamePlace(i, count);
    }

    /**
     * Gives a packet again, or the range of a message to drop when its time to live has passed. The assertion at the
     * end of the drop, met, holds if and only if the block after the message carries the number after the range; when
     * the message is the last one queued, that block is free and its number is a leftover.
     */
    method ReadAgainData(offset: int, seqno: int, now: int)
      returns (r: int, pkt: Option<SndPacket>, msgno: nat, to: int, n: nat, met: bool)
      requires Valid()
      modifies `curr, `cur, `q, ring`head
      ensures Valid() && ring == old(ring)
      ensures match ReadAgain(old(View()), offset, seqno, now)
        case NoPacket(s) => View() == s && r == READ_NONE && pkt == None
        case Resend(s, p) => View() == s && r == |p.payload| && pkt == Some(p)
        case DropRange(s, m, from, end, k) =>
          View() == s && r == READ_DROP && pkt == None && from == seqno && msgno == m && to == end && n == k
      ensures r == READ_DROP ==> var i := if offset < 0 then 0 else offset;
        && i + n <= count < |ring|
        && (n <= MAX_SEQNO && ValidSeqNo(seqno) && ValidSeqNo(old(ring[i + n].head.seqno)) ==>
              (met <==> old(ring[i + n].head.seqno) == IncSeqBy(seqno, n)))
    {
      hide Valid, Circle, Filled, Held, TotalBytes, Apart, Within, RunOf, IncSeqBy;
      r, pkt, msgno, to, n, met := READ_NONE, None, 0, 0, 0, true;
      Facts();
      Pointers();
      var p, i := Locate(offset);
      SamePlace(i, count);
      if p == last {
        return;
      }
      HeldAt(i);
      if p.head.ttl >= 0 && now - p.head.origin > p.head.ttl {
        r, msgno := READ_DROP, p.head.msgno;
        n, to, met := DropRangeAt(p, i, seqno);
        return;
      }
      pkt := Retransmit(p, i, now);
      r := p.length;
    }

    /** The message from block b on, as a range of numbers that begins with seqno. */
    method DropRangeAt(b: Block, i: nat, seqno: int) returns (n: nat, to: int, met: bool)
      requires Valid() && i < count && b == ring[i]
      modifies `curr, `cur
      ensures Valid() && n == RunOf(q, i + 1, q[i].h.msgno) - i && to == IncSeqBy(seqno, n - 1)
      ensures cur == (if i < old(cur) < i + n then i + n else old(cur)) && i + n <= count < |ring|
      ensures n <= MAX_SEQNO && ValidSeqNo(seqno) && ValidSeqNo(ring[i + n].head.seqno) ==>
                (met <==> ring[i + n].head.seqno == IncSeqBy(seqno, n))
    {
      hide Valid, RunOf, IncSeqBy;
      Facts();
      Pointers();
      var p;
      n, p := PassMessage(b, i);
      to := IncSeqBy(seqno, n - 1);
      met := to == DecSeq(p.head.seqno);
      if n <= MAX_SEQNO && ValidSeqNo(seqno) && ValidSeqNo(p.head.seqno) {
        RangeEndIff(seqno, p.head.seqno, n);
      }
    }

    method Retransmit(p: Block, i: nat, now: int) returns (pkt: Option<SndPacket>)
      requires Valid() && i < count && p == ring[i]
      modifies `q, p`head
      ensures Valid() && |old(q)| == count && pkt == Some(old(q)[i].(h := old(q)[i].h.(rexmit := now)))
      ensures q == old(q)[i := pkt.value]
      ensures p.length == |pkt.value.payload|
    {
      hide Valid, Held;
      Facts();
      Pointers();
      HeldAt(i);
      var h := p.head.(rexmit := now);
      pkt := Some(SndPacket(h, p.store[p.at..p.at + p.length]));
      SetHead(p, i, h);
    }

    method PassMessage(b: Block, i: nat) returns (n: nat, p: Block)
      requires Valid() && i < count && b == ring[i]
      modifies `curr, `cur
      ensures Valid() && n == RunOf(q, i + 1, q[i].h.msgno) - i && i + n <= count < |ring| && p == ring[i + n]
      ensures cur == (if i < old(cur) < i + n then i + n else old(cur))
    {
      hide Valid, Circle, Held, TotalBytes, Apart, Within, RunOf;
      Facts();
      Pointers();
      n, p := PassRun(b, i);
      Again();
    }

    /** The drop loop: passes the rest of the message, taking the send pointer along once it is met. */
    method PassRun(b: Block, i: nat) returns (n: nat, p: Block)
      requires Circle(ring, blockLen) && |ring| == size
      requires forall j :: 0 <= j < |ring| ==> Within(ring[j], buffers, blockLen)
      requires Held(ring, buffers, q, blockLen) && |q| == count < size && cur <= count && curr == ring[cur]
      requires last == ring[count]
      requires i < count && b == ring[i]
      modifies `curr, `cur
      ensures n == RunOf(q, i + 1, q[i].h.msgno) - i && cur <= count && curr == ring[cur]
      ensures i + n <= count && p == ring[i + n]
      ensures cur == (if i < old(cur) < i + n then i + n else old(cur))
    {
      hide Circle, Held, Holds, TotalBytes, Within, RunOf;
      HeadAt(i);
      ghost var c0 := cur;
      var m := b.head.msgno;
      NextIs(i);
      p := b.next;
      var move := false;
      n := 1;
      while p != last && m == p.head.msgno
        invariant 1 <= n && i + n <= count && p == ring[i + n] && cur <= count && curr == ring[cur]
        invariant forall j :: i < j < i + n ==> q[j].h.msgno == m
        invariant (move <==> i < c0 < i + n) && cur == (if move then i + n else c0)
        decreases count - n
      {
        SamePlace(i + n, count);
        HeadAt(i + n);
        SamePlace(i + n, cur);
        if p == curr {
          move := true;
        }
        NextIs(i + n);
        p := p.next;
        if move {
          curr, cur := p, i + n + 1;
        }
        n := n + 1;
      }
      SamePlace(i + n, count);
      if i + n < count {
        HeadAt(i + n);
      }
      RunIs(q, i + 1, m, i + n);
    }

    lemma Again()
      requires Circle(ring, blockLen) && |ring| == size
      requires forall i :: 0 <= i < |ring| ==> Within(ring[i], buffers, blockLen)
      requires Held(ring, buffers, q, blockLen) && |q| == count < size && cur <= count
      requires first == ring[0] && curr == ring[cur] && last == ring[count]
      requires bytesCount == TotalBytes(q) && 0 < pktLen <= blockLen && unitSize > 0
      ensures Valid()
    {
      hide Circle, Held, Within, TotalBytes;
    }
  }

  function OnlyPacket(data: Byte, seqno: nat, msgno: nat, ttl: int): SndPacket {
    SndPacket(Header(Wrap(seqno), msgno, true, true, true, 0, 0, 0, ttl), [data])
  }

  lemma OnePiece(data: Byte, msgno: nat, seqno: nat, ttl: int)
    ensures NumPackets(1, 1) == 1
    ensures Pieces([data], 1, seqno, msgno, MsgCtrl(-1, seqno, true, ttl, 0)) == [OnlyPacket(data, seqno, msgno, ttl)]
  {
    var c := MsgCtrl(-1, seqno, true, ttl, 0);
    assert PiecesFrom([data], 1, 1, seqno, msgno, c) == [];
    assert [data][0..1] == [data];
  }

  /** The number after the next one. */
  lemma TwoAhead(seqno: nat)
    requires ValidSeqNo(seqno)
    ensures Wrap(seqno) != IncSeqBy(Wrap(seqno + 1), 1)
  {
  }

  /** Adds a message of one packet to an empty buffer of two blocks. */
  method AddOne(b: SenderBuffer, data: Byte, seqno: nat, ttl: int) returns (next: int)
    requires b.Valid() && b.pktLen == 1 && b.q == [] && b.size == 2 && b.count == 0 && b.cur == 0
    modifies b, b.ring, b.buffers
    ensures b.Valid() && b.q == [OnlyPacket(data, seqno, old(b.nextMsgNo), ttl)] && b.count == 1 && b.cur == 0
    ensures |b.ring| == b.size && next == Wrap(seqno + 1) && b.ring == old(b.ring) && |b.ring| == 2
    ensures b.ring[0].head == b.q[0].h && b.ring[1].head == old(b.ring[1].head)
    ensures forall i :: 0 <= i < |b.buffers| ==> b.buffers[i] in old(b.buffers) || fresh(b.buffers[i])
  {
    hide b.Valid, Pieces, NumPackets, Wrap;
    OnePiece(data, b.nextMsgNo, seqno, ttl);
    b.Facts();
    var msgno;
    next, msgno := b.AddBuffer([data], MsgCtrl(-1, seqno, true, ttl, 0));
    b.Facts();
    b.Pointers();
    b.HeadAt(0);
  }

  /** The queued packet, whose time to live has passed, is followed by a free block with an older number. */
  method DropOne(b: SenderBuffer, data: Byte, seqno: nat) returns (r: int, met: bool)
    requires b.Valid() && ValidSeqNo(seqno) && |b.ring| == 2 && b.count == 1 && b.cur == 0 && |b.q| == 1
    requires b.q[0] == OnlyPacket(data, seqno + 1, b.q[0].h.msgno, 0) && b.ring[1].head.seqno == Wrap(seqno)
    modifies b`curr, b`cur, b`q, b.ring`head
    ensures r == READ_DROP && !met
  {
    hide b.Valid, Wrap, IncSeqBy;
    TwoAhead(seqno);
    ghost var d := ReadAgain(b.View(), 0, Wrap(seqno + 1), 1);
    assert d.DropRange? && d.count == 1;
    var pkt, msgno, to, n;
    r, pkt, msgno, to, n, met := b.ReadAgainData(0, Wrap(seqno + 1), 1);
  }

  /**
   * A buffer of two blocks: a message is sent and acknowledged, and the next one, which fills the other block, is
   * dropped. The free block still carries the number of the first message, so the assertion at the end fails.
   */
  method StaleBlock(data: Byte, seqno: nat) returns (r: int, met: bool)
    requires ValidSeqNo(seqno)
    ensures r == READ_DROP && !met
  {
    hide SenderBuffer.Valid, Wrap, IncSeqBy, Turned;
    var b := new SenderBuffer(2, 1, 0);
    b.Facts();
    b.Pointers();
    var next := AddOne(b, data, seqno, -1);
    b.Ack(1);
    b.Facts();
    b.Pointers();
    next := AddOne(b, data, seqno + 1, 0);
    r, met := DropOne(b, data, seqno);
  }
}
