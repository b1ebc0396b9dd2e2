/**
 * Message mode over a well-formed stream: whatever the order of inserts, reads and drops,
 * a recorded out-of-order message is whole, and a read never meets a slot without a unit.
 */
module RcvMessages {
  import opened SeqNo
  import opened Packets
  import opened RcvModel
  import opened RcvInvariant

  /** Every stored packet is the stream's own packet for that slot. */
  ghost predicate FromStream(w: seq<Entry>, base: nat, st: seq<Packet>) {
    forall k :: 0 <= k < |w| && w[k].unit.Some? ==> base + k < |st| && w[k].unit.value.packet == st[base + k]
  }

  ghost predicate OooOk(v: Rcv) {
    v.ooo >= 0 ==> OooMessage(v.w, v.ooo)
  }

  ghost predicate MsgInv(v: Rcv, st: seq<Packet>) {
    Struct(v) && FromStream(v.w, v.base, st) && OooOk(v)
  }

  // ------------------------------------------------------------------ runs of stored packets

  /** w' holds every unit that w holds. */
  ghost predicate Grows(w: seq<Entry>, w': seq<Entry>) {
    |w'| == |w| && forall k :: 0 <= k < |w| && w[k].unit.Some? ==> w'[k] == w[k]
  }

  lemma {:induction false} OooTailGrows(w: seq<Entry>, w': seq<Entry>, i: int, m: int)
    requires Grows(w, w') && OooTail(w, i, m)
    ensures OooTail(w', i, m)
    decreases |w| - i
  {
    if !Pkt(w, i).last {
      OooTailGrows(w, w', i + 1, m);
    }
  }

  lemma {:induction false} OooTailMoves(w: seq<Entry>, n: nat, i: int, m: int)
    requires n <= i && OooTail(w, i, m)
    ensures OooTail(Shifted(w, n), i - n, m)
    decreases |w| - i
  {
    ShiftedAt(w, n);
    assert Shifted(w, n)[i - n] == w[i];
    if !Pkt(w, i).last {
      assert Shifted(w, n)[i + 1 - n] == w[i + 1];
      OooTailMoves(w, n, i + 1, m);
    }
  }

  lemma OooMessageMoves(w: seq<Entry>, n: nat, i: int)
    requires n <= i && OooMessage(w, i)
    ensures OooMessage(Shifted(w, n), i - n)
  {
    OooTailMoves(w, n, i, Pkt(w, i).msgno);
    ShiftedAt(w, n);
  }

  lemma FromStreamMoves(w: seq<Entry>, n: nat, base: nat, st: seq<Packet>)
    requires FromStream(w, base, st)
    ensures FromStream(Shifted(w, n), base + n, st)
  {
    ShiftedAt(w, n);
  }

  /** Between stored neighbours the stream's own boundaries hold. */
  lemma Neighbours(w: seq<Entry>, base: nat, st: seq<Packet>, k: int)
    requires WellFormed(st) && FromStream(w, base, st) && 0 < k < |w| && Has(w, k - 1) && Has(w, k)
    ensures Follows(Pkt(w, k - 1), Pkt(w, k))
  {
    assert Pkt(w, k) == st[base + k] && Pkt(w, k - 1) == st[base + k - 1];
    assert Follows(st[(base + k) - 1], st[base + k]);
  }

  /** From an order-clear packet on, reaching the last packet of its message is all it takes. */
  lemma {:induction false} ClearRun(w: seq<Entry>, base: nat, st: seq<Packet>, i: int, e: int)
    requires WellFormed(st) && FromStream(w, base, st)
    requires 0 <= i < e <= |w| && (forall k :: i <= k < e ==> w[k].unit.Some?)
    requires !Pkt(w, i).inorder && Pkt(w, e - 1).last
    ensures OooTail(w, i, Pkt(w, i).msgno)
    decreases e - i
  {
    if !Pkt(w, i).last {
      assert w[i + 1].unit.Some?;
      Neighbours(w, base, st, i + 1);
      ClearRun(w, base, st, i + 1, e);
    }
  }

  lemma {:induction false} OooTailEnd(w: seq<Entry>, i: int, m: int) returns (e: int)
    requires OooTail(w, i, m)
    ensures i < e <= |w| && (forall k :: i <= k < e ==> w[k].unit.Some?) && Pkt(w, e - 1).last
    ensures forall k :: i < k < e ==> !w[k].unit.value.packet.first
    decreases |w| - i
  {
    if Pkt(w, i).last {
      e := i + 1;
    } else {
      e := OooTailEnd(w, i + 1, m);
    }
  }

  lemma {:induction false} ScanRightEnd(w: seq<Entry>, i: int, m: int) returns (e: int)
    requires ScanRight(w, i, m)
    ensures i < e <= |w| && (forall k :: i <= k < e ==> w[k].unit.Some?) && Pkt(w, e - 1).last
    decreases |w| - i
  {
    if Pkt(w, i).last {
      e := i + 1;
    } else {
      e := ScanRightEnd(w, i + 1, m);
    }
  }

  lemma {:induction false} CheckRunEnd(w: seq<Entry>, i: int, m: int) returns (e: int)
    requires CheckRun(w, i, m)
    ensures i < e <= |w| && (forall k :: i <= k < e ==> w[k].unit.Some?) && Pkt(w, e - 1).last
    decreases |w| - i
  {
    if Pkt(w, i).last {
      e := i + 1;
    } else {
      e := CheckRunEnd(w, i + 1, m);
    }
  }

  /** Walking left from inside a message to its first packet, every packet shares the order flag. */
  lemma {:induction false} ScanLeftRun(w: seq<Entry>, base: nat, st: seq<Packet>, i: int, m: int)
    requires WellFormed(st) && FromStream(w, base, st) && ScanLeft(w, i, m) >= 0
    requires Has(w, i + 1) && !Pkt(w, i + 1).first && !Pkt(w, i + 1).inorder
    ensures var f := ScanLeft(w, i, m);
      && f <= i && (forall k :: f <= k <= i ==> w[k].unit.Some?)
      && Pkt(w, f).first && !Pkt(w, f).inorder
    decreases i
  {
    Neighbours(w, base, st, i + 1);
    if !Pkt(w, i).first {
      ScanLeftRun(w, base, st, i - 1, m);
    }
  }

  /** onInsertNotInOrderPacket records only a whole message. */
  lemma OnInsertOk(v: Rcv, st: seq<Packet>, k: int)
    requires WellFormed(st) && FromStream(v.w, v.base, st) && OooOk(v) && Has(v.w, k) && !Pkt(v.w, k).inorder
    ensures OooOk(OnInsert(v, k))
  {
    hide Counts;
    var p := Pkt(v.w, k);
    if v.numOoo != 0 && v.ooo < 0 && (p.last || ScanRight(v.w, k + 1, p.msgno)) {
      var e := k + 1;
      if !p.last {
        e := ScanRightEnd(v.w, k + 1, p.msgno);
      }
      var f := if p.first then k else ScanLeft(v.w, k - 1, p.msgno);
      if f >= 0 {
        if !p.first {
          ScanLeftRun(v.w, v.base, st, k - 1, p.msgno);
        }
        ClearRun(v.w, v.base, st, f, e);
      }
    }
  }

  // ------------------------------------------------------------------ the operations

  /** An arrival of the j-th packet of the stream, within the range in which sequence numbers compare. */
  ghost predicate Arrival(v: Rcv, st: seq<Packet>, u: Unit, j: int) {
    0 <= j < |st| && u.packet == st[j] && Abs(j - v.base) < SEQNO_TH && u.id !in v.taken
  }

  lemma ArrivalOffset(v: Rcv, st: seq<Packet>, u: Unit, j: int)
    requires Numbered(st, v.isn) && Arrival(v, st, u, j)
    ensures ValidSeqNo(u.packet.seqno) && InsertOffset(v, u) == j - v.base
  {
    SeqOffExact(v.isn + v.base, v.isn + j);
  }

  lemma InsertMsg(v: Rcv, st: seq<Packet>, u: Unit, j: int)
    requires WellFormed(st) && Numbered(st, v.isn) && MsgInv(v, st) && Arrival(v, st, u, j)
    ensures MsgInv(Insert(v, u).0, st)
  {
    hide Counts;
    ArrivalOffset(v, st, u, j);
    InsertStruct(v, u);
    var k := InsertOffset(v, u);
    if 0 <= k < |v.w| - 1 && v.w[k].status == Empty {
      assert v.w[k].unit.None?;
      var v0 := v.(maxOff := Max(v.maxOff, k + 1));
      hide Struct;
      PlacedMsg(v0, st, u, k);
      UpdateNonreadFrame(Placed(v0, u, k));
    }
  }

  lemma PlacedMsg(v: Rcv, st: seq<Packet>, u: Unit, k: int)
    requires WellFormed(st) && FromStream(v.w, v.base, st) && OooOk(v)
    requires 0 <= k < |v.w| && v.w[k].unit.None? && v.base + k < |st| && u.packet == st[v.base + k]
    ensures var v1 := Placed(v, u, k);
      FromStream(v1.w, v1.base, st) && OooOk(v1) && v1.base == v.base && v1.nonread == v.nonread && |v1.w| == |v.w|
  {
    PlacedIs(v, u, k);
    var v1 := Stored(v, u, k);
    assert Grows(v.w, v1.w);
    if v.ooo >= 0 {
      OooTailGrows(v.w, v1.w, v.ooo, Pkt(v.w, v.ooo).msgno);
    }
    assert FromStream(v1.w, v1.base, st);
    if v.TracksOrder() && !u.packet.inorder {
      OnInsertOk(v1, st, k);
    }
  }

  /** Moving the start past slots that do not hold the recorded message. */
  lemma PoppedMsg(v: Rcv, v': Rcv, n: nat, st: seq<Packet>)
    requires PoppedN(v, v', n) && FromStream(v.w, v.base, st) && OooOk(v)
    requires -1 <= v.ooo && (v.ooo < 0 || n <= v.ooo || v'.ooo == -1)
    ensures FromStream(v'.w, v'.base, st) && OooOk(v')
  {
    FromStreamMoves(v.w, n, v.base, st);
    if n <= v.ooo {
      OooMessageMoves(v.w, n, v.ooo);
    }
  }

  lemma ReleasedMsg(v: Rcv, st: seq<Packet>)
    requires Core(v) && 0 <= v.maxOff && FromStream(v.w, v.base, st) && OooOk(v)
    ensures var v1 := ReleaseFillers(v); FromStream(v1.w, v1.base, st) && OooOk(v1)
  {
    ReleaseFillersPops(v);
    assert v.ooo >= 0 ==> !IsFiller(v.w[v.ooo]);
    PoppedMsg(v, ReleaseFillers(v), Lead(v.w), st);
  }

  lemma UpdateOooMsg(v: Rcv, st: seq<Packet>)
    requires FromStream(v.w, v.base, st) && OooOk(v)
    ensures FromStream(UpdateOoo(v).w, UpdateOoo(v).base, st) && OooOk(UpdateOoo(v))
  {
    FindOooRange(v.w, 0);
  }

  lemma DropUpToMsg(v: Rcv, st: seq<Packet>, seqno: int)
    requires MsgInv(v, st) && ValidSeqNo(seqno)
    ensures MsgInv(DropUpTo(v, seqno).v, st)
  {
    hide Counts;
    DropUpToStruct(v, seqno);
    var len := SeqOff(v.StartSeqNo(), seqno);
    if len > 0 {
      DropNStruct(v, len);
      DropNPops(DropUp(v.(maxOff := Max(0, v.maxOff - len)), 0, 0), len);
      var v1 := DropN(DropUp(v.(maxOff := Max(0, v.maxOff - len)), 0, 0), len).v;
      if v.ooo >= 0 {
        assert IsClear(v.w[v.ooo]);
      }
      hide Core, DropN;
      PoppedMsg(v, v1, len, st);
      AfterDropMsg(v1, st);
    }
  }

  lemma AfterDropMsg(v: Rcv, st: seq<Packet>)
    requires Core(v) && 0 <= v.maxOff && FromStream(v.w, v.base, st) && OooOk(v)
    ensures FromStream(AfterDrop(v).w, AfterDrop(v).base, st) && OooOk(AfterDrop(v))
  {
    assert |v.w| > 0;
    hide Core, FromStream, OooMessage;
    ReleasedMsg(v, st);
    var v1 := ReleaseFillers(v);
    UpdateNonreadFrame(v1.(nonread := 0));
    var v2 := if 0 <= v1.nonread <= v1.maxOff then v1 else UpdateNonread(v1.(nonread := 0));
    UpdateOooMsg(v2, st);
  }

  // ------------------------------------------------------------------ dropMessage

  /** The record points at the stored first packet of an order-clear message. */
  ghost predicate HeadStored(v: Rcv) {
    v.ooo >= 0 ==> v.TracksOrder() && Has(v.w, v.ooo) && Pkt(v.w, v.ooo).first && !Pkt(v.w, v.ooo).inorder
  }

  lemma MarkDropHead(v: Rcv, k: int)
    requires HeadStored(v) && 0 <= k < |v.w|
    ensures HeadStored(MarkDrop(v, k))
  {
  }

  lemma {:induction false} DropRangeHead(d: DropMsg, i: int, end: int, keep: bool)
    requires HeadStored(d.v) && 0 <= i <= end <= |d.v.w|
    ensures HeadStored(DropRange(d, i, end, keep).v)
    decreases end - i
  {
    if i < end {
      if d.v.w[i].status == Drop {
        DropRangeHead(d, i + 1, end, keep);
      } else if KeptSolo(d.v, i, keep) {
        DropRangeHead(d.(byMsgNo := false), i + 1, end, keep);
      } else {
        MarkDropHead(d.v, i);
        DropRangeHead(RangeStep(d, i), i + 1, end, keep);
      }
    }
  }

  lemma {:induction false} DropBackHead(d: DropMsg, i: int, msgno: int, keep: bool)
    requires HeadStored(d.v) && i < |d.v.w|
    ensures HeadStored(DropBack(d, i, msgno, keep).v)
    decreases i + 1
  {
    if i >= 0 {
      if !Has(d.v.w, i) {
        DropBackHead(d, i - 1, msgno, keep);
      } else if Pkt(d.v.w, i).msgno == msgno && !KeptSolo(d.v, i, keep) {
        MarkDropHead(d.v, i);
        if !(Pkt(d.v.w, i).first && !Pkt(d.v.w, i).last) {
          DropBackHead(BackStep(d, i), i - 1, msgno, keep);
        }
      }
    }
  }

  lemma DropMarksHead(v: Rcv, a: int, b: int, msgno: int, keep: bool)
    requires |v.w| > 0 && HeadStored(v) && a <= b && 0 <= b && a < |v.w|
    ensures HeadStored(DropMarks(v, a, b, msgno, keep).v)
  {
    var lo := Max(0, a);
    var d0 := DropMsg(v, msgno > 0, 0, -1);
    var end := Min(|v.w| - 1, b + 1);
    DropRangeHead(d0, lo, end, keep);
    hide HeadStored;
    var d := DropRange(d0, lo, end, keep);
    if d.byMsgNo && lo < |d.v.w| - 1 {
      DropBackHead(d, lo, msgno, keep);
    }
  }

  lemma CheckOooOk(v: Rcv, st: seq<Packet>)
    requires WellFormed(st) && FromStream(v.w, v.base, st) && HeadStored(v) && CheckOoo(v)
    ensures OooOk(v)
  {
    var e := CheckRunEnd(v.w, v.ooo, Pkt(v.w, v.ooo).msgno);
    ClearRun(v.w, v.base, st, v.ooo, e);
  }

  lemma HeadMoves(v: Rcv, v': Rcv, n: nat)
    requires PoppedN(v, v', n) && HeadStored(v) && -1 <= v.ooo && (v.ooo < 0 || n <= v.ooo)
    ensures HeadStored(v')
  {
    ShiftedAt(v.w, n);
    assert v.ooo >= 0 ==> v'.w[v.ooo - n] == v.w[v.ooo];
  }

  lemma HeadBehindFillers(v: Rcv)
    requires Core(v) && HeadStored(v)
    ensures v.ooo < 0 || Lead(v.w) <= v.ooo
  {
    hide Lead, Counts;
    assert v.ooo >= 0 ==> !IsFiller(v.w[v.ooo]);
  }

  lemma ReleasedHead(v: Rcv, st: seq<Packet>)
    requires Core(v) && 0 <= v.maxOff && HeadStored(v) && FromStream(v.w, v.base, st)
    ensures var v1 := ReleaseFillers(v); HeadStored(v1) && FromStream(v1.w, v1.base, st)
  {
    hide Core, HeadStored, FromStream, Shifted, ReleaseFillers, Lead;
    CoreRanged(v);
    ReleaseFillersPops(v);
    HeadBehindFillers(v);
    FromStreamMoves(v.w, Lead(v.w), v.base, st);
    HeadMoves(v, ReleaseFillers(v), Lead(v.w));
  }

  lemma AfterMarksMsg(v: Rcv, need: bool, st: seq<Packet>)
    requires WellFormed(st) && Core(v) && 0 <= v.maxOff && HeadStored(v) && FromStream(v.w, v.base, st)
    ensures FromStream(AfterMarks(v, need).w, AfterMarks(v, need).base, st) && OooOk(AfterMarks(v, need))
  {
    assert |v.w| > 0 && (!v.TracksOrder() ==> v.ooo == -1);
    ReleasedHead(v, st);
    hide Core, FromStream, OooMessage, CheckOoo, ReleaseFillers;
    var v1 := ReleaseFillers(v);
    UpdateNonreadFrame(v1.(nonread := 0));
    var v2 := if need then UpdateNonread(v1.(nonread := 0)) else v1;
    assert HeadStored(v2);
    if CheckOoo(v2) {
      CheckOooOk(v2, st);
      UpdateOooMsg(v2, st);
    }
    UpdateOooMsg(v2.(ooo := -1), st);
    ReleaseFillersTracks(v);
  }

  lemma ReleaseFillersTracks(v: Rcv)
    requires Core(v) && 0 <= v.maxOff
    ensures ReleaseFillers(v).TracksOrder() == v.TracksOrder()
    ensures !v.TracksOrder() ==> ReleaseFillers(v).ooo == -1
  {
    ReleaseFillersPops(v);
  }

  lemma MarkedStream(v: Rcv, d: DropMsg, st: seq<Packet>)
    requires Marked(v, d) && FromStream(v.w, v.base, st)
    ensures FromStream(d.v.w, d.v.base, st) && d.v.maxOff == v.maxOff
  {
  }

  lemma MsgFacts(v: Rcv, st: seq<Packet>)
    requires MsgInv(v, st)
    ensures Struct(v) && HeadStored(v) && FromStream(v.w, v.base, st) && OooOk(v) && 0 <= v.maxOff
  {
    hide Counts, FromStream;
  }

  lemma DropMessageMsg(v: Rcv, st: seq<Packet>, seqnolo: int, seqnohi: int, msgno: int, keep: bool)
    requires WellFormed(st) && MsgInv(v, st)
    requires SeqOff(v.StartSeqNo(), seqnolo) <= SeqOff(v.StartSeqNo(), seqnohi)
    ensures MsgInv(DropMessage(v, seqnolo, seqnohi, msgno, keep).0, st)
  {
    hide Core, Bounded, Prefix, FromStream, HeadStored, OooOk, DropMarks, AfterMarks, Marked;
    MsgFacts(v, st);
    CoreRanged(v);
    DropMessageStruct(v, seqnolo, seqnohi, msgno, keep);
    var a := SeqOff(v.StartSeqNo(), seqnolo);
    var b := SeqOff(v.StartSeqNo(), seqnohi);
    if b >= 0 && a < |v.w| {
      DropMarksMarked(v, a, b, msgno, keep);
      DropMarksHead(v, a, b, msgno, keep);
      var d := DropMarks(v, a, b, msgno, keep);
      MarkedStream(v, d, st);
      AfterMarksMsg(d.v, d.minOff != -1 && d.minOff <= v.nonread, st);
    }
  }

  // ------------------------------------------------------------------ readMessage

  lemma {:induction false} ReadEndLast(w: seq<Entry>, i: int, e: int)
    requires 0 <= i < e <= |w| && (forall k :: i <= k < e ==> w[k].unit.Some?) && Pkt(w, e - 1).last
    ensures var r := ReadEnd(w, i);
      i < r <= e && Pkt(w, r - 1).last && (forall k :: i <= k < r - 1 ==> !w[k].unit.value.packet.last)
    decreases e - i
  {
    if !Pkt(w, i).last {
      ReadEndLast(w, i + 1, e);
    }
  }

  /** readMessage never reaches a slot without a unit: what it reads ends with the last packet of one message. */
  lemma ReadMeetsLast(v: Rcv, st: seq<Packet>)
    requires MsgInv(v, st) && v.messageApi && ReadPos(v) >= 0
    ensures var r, e := ReadPos(v), ReadEnd(v.w, ReadPos(v));
      r < e < |v.w| && Pkt(v.w, e - 1).last && (forall k :: r <= k < e - 1 ==> !v.w[k].unit.value.packet.last)
  {
    hide Counts;
    var r := ReadPos(v);
    ReadEndShort(v, r);
    if v.nonread != 0 {
      ReadEndLast(v.w, 0, v.nonread);
    } else {
      var e := OooTailEnd(v.w, r, Pkt(v.w, r).msgno);
      ReadEndLast(v.w, r, e);
    }
  }

  /** The recorded message does not begin inside the one that is read in order. */
  lemma RecordBeyond(v: Rcv, st: seq<Packet>, e: int)
    requires WellFormed(st) && FromStream(v.w, v.base, st) && OooOk(v) && v.ooo > 0
    requires 0 < e <= |v.w| && (forall k :: 0 <= k < e ==> v.w[k].unit.Some?)
    requires forall k :: 0 <= k < e - 1 ==> !v.w[k].unit.value.packet.last
    ensures e <= v.ooo
  {
    if v.ooo < e {
      Neighbours(v.w, v.base, st, v.ooo);
    }
  }

  lemma ReadFrontMsg(v: Rcv, st: seq<Packet>, e: int)
    requires WellFormed(st) && MsgInv(v, st) && 0 < e < |v.w| && (forall k :: 0 <= k < e ==> v.w[k].unit.Some?)
    requires forall k :: 0 <= k < e - 1 ==> !v.w[k].unit.value.packet.last
    ensures var c := ReadFrontN(v, e); FromStream(c.w, c.base, st) && (v.ooo != 0 ==> OooOk(c))
  {
    ConsumedFront(v, e);
    if v.ooo > 0 {
      RecordBeyond(v, st, e);
    }
    hide Core, Bounded, Prefix, FromStream, OooMessage, ReadFrontN;
    FromStreamMoves(v.w, e, v.base, st);
    if v.ooo > 0 {
      OooMessageMoves(v.w, e, v.ooo);
    }
  }

  lemma ConsumedMsg(v: Rcv, st: seq<Packet>)
    requires WellFormed(st) && MsgInv(v, st) && v.messageApi && ReadPos(v) >= 0
    ensures var c := Consumed(v, ReadPos(v), ReadEnd(v.w, ReadPos(v))); FromStream(c.w, c.base, st) && OooOk(c)
  {
    hide Counts;
    ReadMeetsLast(v, st);
    var r, e := ReadPos(v), ReadEnd(v.w, ReadPos(v));
    if r == 0 {
      ReadFrontMsg(v, st, e);
    } else {
      ConsumedOut(v, r, e);
      assert v.ooo == r;
      hide Core, Bounded, Prefix, OooMessage, ReadRange;
    }
  }

  lemma ReadMessageMsg(v: Rcv, st: seq<Packet>, len: nat)
    requires WellFormed(st) && MsgInv(v, st) && v.messageApi
    ensures MsgInv(ReadMessage(v, len).v, st)
  {
    ReadMessageStruct(v, len);
    if ReadPos(v) >= 0 {
      ConsumedMsg(v, st);
      ConsumedStruct(v, ReadPos(v), ReadEnd(v.w, ReadPos(v)));
      hide Struct, Consumed, Payloads, FromStream, OooMessage;
      AfterReadMsg(Consumed(v, ReadPos(v), ReadEnd(v.w, ReadPos(v))), st);
    }
  }

  lemma AfterReadMsg(v: Rcv, st: seq<Packet>)
    requires Core(v) && 0 <= v.maxOff && FromStream(v.w, v.base, st) && OooOk(v)
    ensures FromStream(AfterRead(v).w, AfterRead(v).base, st) && OooOk(AfterRead(v))
  {
    assert |v.w| > 0;
    hide Core, FromStream, OooMessage;
    ReleasedMsg(v, st);
    UpdateOooMsg(ClampNonread(ReleaseFillers(v)), st);
  }
}
