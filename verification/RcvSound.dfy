/**
 * What every operation of the receiver buffer keeps, on any packets and in every mode: the furthest offset is in
 * range, units lie only below it, a slot holds a unit exactly when it is Avail and then the unit carries the slot's
 * own sequence number, and the units held are the taken ones. Unlike Struct this survives readBuffer after drops.
 */
module RcvSound {
  import opened SeqNo
  import opened RcvModel
  import opened RcvInvariant

  ghost predicate Sound(v: Rcv) {
    Core(v) && Bounded(v)
  }

  lemma StructSound(v: Rcv)
    requires Struct(v)
    ensures Sound(v)
  {
  }

  lemma CoreNonread(v: Rcv, k: int)
    requires Core(v) && 0 <= k < |v.w|
    ensures Core(v.(nonread := k)) && (Bounded(v) ==> Bounded(v.(nonread := k)))
  {
  }

  lemma CoreOoo(v: Rcv, k: int)
    requires Core(v) && -1 <= k < |v.w| && (k == -1 || v.TracksOrder())
    ensures Core(v.(ooo := k)) && (Bounded(v) ==> Bounded(v.(ooo := k)))
  {
  }

  lemma CoreCounters(v: Rcv, bytes: int, pkts: int)
    requires Core(v)
    ensures Core(v.(bytes := bytes, pkts := pkts)) && (Bounded(v) ==> Bounded(v.(bytes := bytes, pkts := pkts)))
  {
  }

  lemma CoreMax(v: Rcv, m: int)
    requires Core(v)
    ensures Core(v.(maxOff := m)) && (Bounded(v) && v.maxOff <= m < |v.w| ==> Bounded(v.(maxOff := m)))
  {
  }

  // ------------------------------------------------------------------ the scans

  lemma {:induction false} ExtendShort(w: seq<Entry>, i: int, messageApi: bool)
    requires 0 <= i < |w| && w[|w| - 1] == EMPTY
    ensures Extend(w, i, messageApi) < |w|
    decreases |w| - i
  {
    if Has(w, i) {
      if !messageApi {
        ExtendShort(w, i + 1, messageApi);
      } else if Pkt(w, i).first && RunEnd(w, i).Some? {
        assert w[RunEnd(w, i).value - 1].unit.Some?;
        ExtendShort(w, RunEnd(w, i).value, messageApi);
      }
    }
  }

  lemma UpdateNonreadSound(v: Rcv)
    requires Sound(v)
    ensures 0 <= v.nonread <= |v.w| && Sound(UpdateNonread(v))
  {
    CoreRanged(v);
    ExtendShort(v.w, v.nonread, v.messageApi);
    CoreNonread(v, Extend(v.w, v.nonread, v.messageApi));
  }

  lemma UpdateOooSound(v: Rcv)
    requires Sound(v)
    ensures Sound(UpdateOoo(v))
  {
    hide FindOoo;
    FindOooRange(v.w, 0);
  }

  // ------------------------------------------------------------------ insert

  lemma PlacedSound(v: Rcv, u: Unit, k: int)
    requires Sound(v) && 0 <= k < v.maxOff && v.w[k].status == Empty
    requires u.id !in v.taken && u.packet.seqno == Wrap(v.isn + v.base + k)
    ensures Sound(Stored(v, u, k)) && Sound(Placed(v, u, k))
  {
    hide Counts, OnInsert;
    StoredCore(v, u, k);
    PlacedIs(v, u, k);
    hide Core;
    CoreOoo(Stored(v, u, k), Placed(v, u, k).ooo);
  }

  lemma InsertSound(v: Rcv, u: Unit)
    requires Sound(v) && ValidSeqNo(u.packet.seqno) && u.id !in v.taken
    ensures |v.w| > 0 && 0 <= v.nonread <= |v.w| && Sound(Insert(v, u).0)
  {
    hide Core, Placed, Wrap;
    CoreRanged(v);
    var k := InsertOffset(v, u);
    if 0 <= k < |v.w| - 1 {
      SeqOffLands(v.isn + v.base, u.packet.seqno);
      CoreMax(v, Max(v.maxOff, k + 1));
      if v.w[k].status == Empty {
        PlacedSound(v.(maxOff := Max(v.maxOff, k + 1)), u, k);
        hide Bounded;
        UpdateNonreadSound(Placed(v.(maxOff := Max(v.maxOff, k + 1)), u, k));
      }
    }
  }

  // ------------------------------------------------------------------ drops

  lemma RescanSound(v: Rcv)
    requires Sound(v)
    ensures Sound(v.(nonread := 0)) && Sound(UpdateNonread(v.(nonread := 0)))
  {
    CoreRanged(v);
    CoreNonread(v, 0);
    UpdateNonreadSound(v.(nonread := 0));
  }

  lemma AfterDropSound(v: Rcv)
    requires Sound(v)
    ensures Sound(AfterDrop(v))
  {
    hide Core, Bounded, ReleaseFillers, UpdateOoo, UpdateNonread;
    CoreRanged(v);
    MarkedReleased(v);
    var v1 := ReleaseFillers(v);
    CoreRanged(v1);
    RescanSound(v1);
    UpdateNonreadFrame(v1.(nonread := 0));
    UpdateOooSound(if 0 <= v1.nonread <= v1.maxOff then v1 else UpdateNonread(v1.(nonread := 0)));
  }

  lemma DropUpToSound(v: Rcv, seqno: int)
    requires Sound(v)
    ensures |v.w| > 0 && Sound(DropUpTo(v, seqno).v)
  {
    hide Core, Bounded, DropN, AfterDrop;
    CoreRanged(v);
    var len := SeqOff(v.StartSeqNo(), seqno);
    if len > 0 {
      DropNStruct(v, len);
      AfterDropSound(DropN(DropUp(v.(maxOff := Max(0, v.maxOff - len)), 0, 0), len).v);
    }
  }

  lemma AfterMarksSound(v: Rcv, need: bool)
    requires Sound(v)
    ensures Sound(AfterMarks(v, need))
  {
    hide Core, Bounded, ReleaseFillers, UpdateOoo, UpdateNonread, CheckOoo;
    CoreRanged(v);
    MarkedReleased(v);
    var v1 := ReleaseFillers(v);
    CoreRanged(v1);
    RescanSound(v1);
    UpdateNonreadFrame(v1.(nonread := 0));
    var v2 := if need then UpdateNonread(v1.(nonread := 0)) else v1;
    CoreOoo(v2, -1);
    UpdateOooSound(v2);
    UpdateOooSound(v2.(ooo := -1));
  }

  lemma MarkedBounded(v: Rcv, d: DropMsg)
    requires Bounded(v) && Marked(v, d)
    ensures Bounded(d.v) && d.v.nonread == v.nonread
  {
  }

  lemma DropMessageSound(v: Rcv, seqnolo: int, seqnohi: int, msgno: int, keep: bool)
    requires Sound(v) && SeqOff(v.StartSeqNo(), seqnolo) <= SeqOff(v.StartSeqNo(), seqnohi)
    ensures |v.w| > 0 && Sound(DropMessage(v, seqnolo, seqnohi, msgno, keep).0)
  {
    hide Core, Bounded, DropMarks, AfterMarks, Marked;
    CoreRanged(v);
    var a := SeqOff(v.StartSeqNo(), seqnolo);
    var b := SeqOff(v.StartSeqNo(), seqnohi);
    if b >= 0 && a < |v.w| {
      var d := DropMarks(v, a, b, msgno, keep);
      DropMarksMarked(v, a, b, msgno, keep);
      MarkedBounded(v, d);
      AfterMarksSound(d.v, d.minOff != -1 && d.minOff <= v.nonread);
    }
  }

  // ------------------------------------------------------------------ readMessage

  lemma ReadFrontNSound(v: Rcv, e: int)
    requires Sound(v) && 0 <= e < |v.w| && StoredBefore(v.w, e)
    ensures Sound(ReadFrontN(v, e))
  {
    hide Core, ReadFrontN;
    ReadFrontNPops(v, e);
    assert e == 0 || v.w[e - 1].unit.Some?;
    ShiftBounded(v, ReadFrontN(v, e), e);
  }

  lemma ReadRangeSound(v: Rcv, r: int, e: int)
    requires Sound(v) && 0 <= r <= e < |v.w| && forall k :: r <= k < e ==> v.w[k].unit.Some?
    ensures Sound(ReadRange(v, r, e))
  {
    hide Core, ReadRange;
    ReadRangeReads(v, r, e);
  }

  lemma ConsumedSound(v: Rcv, r: int, e: int)
    requires Sound(v) && 0 <= r < |v.w| && e == ReadEnd(v.w, r)
    ensures Sound(Consumed(v, r, e))
  {
    hide Core, Bounded, ReadFrontN, ReadRange, Payloads;
    ReadEndShort(v, r);
    CoreRanged(v);
    var v1 := if r == 0 then ReadFrontN(v, e) else ReadRange(v, r, e);
    if r == 0 {
      ReadFrontNSound(v, e);
    } else {
      ReadRangeSound(v, r, e);
    }
    CoreOoo(v1, -1);
    var c := Consumed(v, r, e);
    CoreCounters(v1, c.bytes, c.pkts);
    CoreCounters(v1.(ooo := -1), c.bytes, c.pkts);
  }

  lemma AfterReadSound(v: Rcv)
    requires Sound(v)
    ensures Sound(AfterRead(v))
  {
    hide Core, Bounded, ReleaseFillers, UpdateOoo;
    CoreRanged(v);
    MarkedReleased(v);
    var v1 := ReleaseFillers(v);
    CoreRanged(v1);
    CoreNonread(v1, 0);
    UpdateOooSound(ClampNonread(v1));
  }

  lemma ReadMessageSound(v: Rcv, len: nat)
    requires Sound(v)
    ensures |v.w| > 0 && -1 <= v.ooo < |v.w| && Sound(ReadMessage(v, len).v)
  {
    hide Core, Bounded, Consumed, AfterRead, Payloads;
    CoreRanged(v);
    var r := ReadPos(v);
    if r >= 0 {
      ConsumedSound(v, r, ReadEnd(v.w, r));
      AfterReadSound(Consumed(v, r, ReadEnd(v.w, r)));
    }
  }

  // ------------------------------------------------------------------ readBuffer

  /**
   * How many packets a readBuffer of rs bytes releases, by the sizes of the readable packets alone:
   * i is the first of them still there, n the first non-readable one.
   */
  function Freed(w: seq<Entry>, i: int, n: int, notch: int, rs: int, stop: nat): (f: nat)
    requires 0 <= i <= n <= |w|
    ensures f <= n - i && f <= stop && forall k :: i <= k < i + f ==> w[k].unit.Some?
    decreases n - i
  {
    if i == n || rs <= 0 || w[i].unit.None? || stop == 0 then 0
    else
      var remain := |Pkt(w, i).payload| - notch;
      if rs < remain then 0 else 1 + Freed(w, i + 1, n, 0, rs - remain, stop - 1)
  }

  /**
   * In sums of payloads: when all that is readable is stored, at least j packets are released if and only if that many
   * are readable and visited, some byte is still wanted after the first j - 1, and the first j hold no more than is
   * wanted. The bytes before the notch do not count.
   */
  lemma {:induction false} FreedIff(w: seq<Entry>, i: int, n: int, notch: nat, rs: int, stop: nat, j: nat)
    requires 0 <= i <= n <= |w| && forall k :: i <= k < n ==> w[k].unit.Some?
    ensures Freed(w, i, n, notch, rs, stop) >= j <==>
            && j <= n - i && j <= stop
            && (j > 0 ==>
                  && 0 < rs && |Payloads(w, i, i + j - 1)| - notch < rs
                  && |Payloads(w, i, i + j)| - notch <= rs)
    decreases n - i
  {
    if i < n && rs > 0 && stop > 0 && 0 < j <= n - i {
      FreedIff(w, i + 1, n, 0, rs - (|Pkt(w, i).payload| - notch), stop - 1, j - 1);
    }
  }

  lemma {:induction false} FreedShift(w: seq<Entry>, w1: seq<Entry>, i: int, n: int, notch: int, rs: int, stop: nat)
    requires w != [] && w1 == w[1..] + [EMPTY] && 1 <= i <= n <= |w|
    ensures Freed(w1, i - 1, n - 1, notch, rs, stop) == Freed(w, i, n, notch, rs, stop)
    decreases n - i
  {
    if i < n && rs > 0 && w[i].unit.Some? && stop > 0 {
      var remain := |Pkt(w, i).payload| - notch;
      assert w1[i - 1] == w[i];
      if rs >= remain {
        FreedShift(w, w1, i + 1, n, 0, rs - remain, stop - 1);
      }
    }
  }

  lemma FreeFrontWindow(v: Rcv)
    requires Has(v.w, 0)
    ensures var v1 := FreeFront(v); v1.w == v.w[1..] + [EMPTY] && v1.base == v.base + 1 && v1.notch == 0
    ensures v.nonread > 0 ==> FreeFront(v).nonread == v.nonread - 1
    ensures FreeFront(v).numOoo == v.numOoo && FreeFront(v).bytes == v.bytes && FreeFront(v).pkts == v.pkts
    ensures FreeFront(v).maxOff == v.maxOff - 1 && SameConfig(v, FreeFront(v))
  {
  }

  /** Where no order-clear packet is counted away, releasing is reading. */
  lemma FreeFrontIs(v: Rcv)
    requires Has(v.w, 0) && (!v.TracksOrder() || !IsClear(v.w[0]))
    ensures FreeFront(v) == ReadFront(v).(notch := 0)
  {
  }

  lemma BufStepIs(b: BufResult)
    requires Has(b.v.w, 0) && 0 <= b.v.notch && b.rs > 0
    ensures var p := Pkt(b.v.w, 0).payload; var remain := |p| - b.v.notch;
      && (b.rs >= remain ==>
            BufStep(b) == BufResult(FreeFront(b.v), b.data + (if remain > 0 then p[b.v.notch..] else []),
              b.rs - remain))
      && (b.rs < remain ==>
            BufStep(b) == BufResult(b.v.(notch := b.v.notch + b.rs), b.data + p[b.v.notch..b.v.notch + b.rs], 0))
  {
  }

  /** f packets have been released between two states of the loop. */
  ghost predicate Released(v: Rcv, v': Rcv, f: nat) {
    && v'.w == Shifted(v.w, f) && v'.base == v.base + f && v'.nonread == v.nonread - f && v'.maxOff == v.maxOff - f
    && v'.numOoo == v.numOoo && v'.bytes == v.bytes && v'.pkts == v.pkts
  }

  lemma ReleaseOneMore(v: Rcv, v1: Rcv, v': Rcv, f: nat)
    requires v.w != [] && v1.w == v.w[1..] + [EMPTY] && v1.base == v.base + 1 && v1.nonread == v.nonread - 1
    requires v1.maxOff == v.maxOff - 1 && v1.numOoo == v.numOoo && v1.bytes == v.bytes && v1.pkts == v.pkts
    requires Released(v1, v', f)
    ensures Released(v, v', f + 1)
  {
  }

  /** The loop releases as many packets as their sizes say, in order from the start. */
  lemma {:induction false} BufLoopFrees(b: BufResult, stop: nat)
    requires 0 <= b.v.nonread < |b.v.w| && 0 <= b.v.notch
    ensures Released(b.v, BufLoop(b, stop).v, Freed(b.v.w, 0, b.v.nonread, b.v.notch, b.rs, stop))
    decreases b.v.nonread, b.rs
  {
    hide BufStep, FreeFront;
    if b.v.nonread > 0 && b.rs > 0 && b.v.w[0].unit.Some? && stop > 0 {
      var p := Pkt(b.v.w, 0).payload;
      var b1 := BufStep(b);
      BufStepIs(b);
      FreeFrontWindow(b.v);
      hide Released;
      BufLoopFrees(b1, stop - 1);
      if b.rs >= |p| - b.v.notch {
        FreedShift(b.v.w, b1.v.w, 1, b.v.nonread, 0, b1.rs, stop - 1);
        ReleaseOneMore(b.v, b1.v, BufLoop(b1, stop - 1).v, Freed(b1.v.w, 0, b1.v.nonread, 0, b1.rs, stop - 1));
      } else {
        PartRead(b, stop);
      }
    }
  }

  /** What a readBuffer does to the window. */
  lemma ReadBufferFrees(v: Rcv, len: int, stop: nat)
    requires 0 <= v.nonread < |v.w| && 0 <= v.notch
    ensures var v', f := ReadBuffer(v, len, stop).v, Freed(v.w, 0, v.nonread, v.notch, len, stop);
      v'.w == Shifted(v.w, f) && v'.base == v.base + f && v'.numOoo == v.numOoo
  {
    hide BufLoop, Freed, Shifted;
    BufLoopFrees(BufResult(v, [], len), stop);
  }

  /** A read that ends inside the packet at the start releases nothing. */
  lemma PartRead(b: BufResult, stop: nat)
    requires 0 < b.v.nonread < |b.v.w| && 0 <= b.v.notch && b.rs > 0 && Has(b.v.w, 0) && stop > 0
    requires b.rs < |Pkt(b.v.w, 0).payload| - b.v.notch
    ensures BufLoop(b, stop) == BufStep(b) && Released(b.v, BufLoop(b, stop).v, 0)
    ensures Freed(b.v.w, 0, b.v.nonread, b.v.notch, b.rs, stop) == 0
  {
  }

  /** Releasing readable packets leaves the rest readable. */
  lemma ShiftedPrefix(v: Rcv, v': Rcv, f: nat)
    requires Ranged(v) && Prefix(v) && f <= v.nonread && SameConfig(v, v')
    requires v'.w == Shifted(v.w, f) && v'.nonread == v.nonread - f && v'.maxOff == v.maxOff - f
    ensures Prefix(v') && v'.w[0] == v.w[f] && (v'.nonread > 0 ==> Has(v'.w, 0))
  {
    ShiftedAt(v.w, f);
    hide Shifted;
    assert forall k :: 0 <= k < v'.nonread ==> v'.w[k] == v.w[k + f];
  }

  lemma NotchCore(v: Rcv, n: nat)
    requires Core(v)
    ensures Core(v.(notch := n)) && (Bounded(v) ==> Bounded(v.(notch := n)))
  {
  }

  /** A release keeps the count of order-clear packets right where it is not kept or the packet is not one of them. */
  lemma BufStepSound(b: BufResult)
    requires Sound(b.v) && Has(b.v.w, 0) && 0 <= b.v.notch && b.rs > 0
    requires b.rs < |Pkt(b.v.w, 0).payload| - b.v.notch || !b.v.TracksOrder() || !IsClear(b.v.w[0])
    ensures Sound(BufStep(b).v)
  {
    hide Counts;
    if b.rs >= |Pkt(b.v.w, 0).payload| - b.v.notch {
      FreeFrontIs(b.v);
      ReadFrontPops(b.v);
      ShiftBounded(b.v, ReadFront(b.v), 1);
      hide ReadFront, FreeFront;
      NotchCore(ReadFront(b.v), 0);
    } else {
      NotchCore(b.v, b.v.notch + b.rs);
    }
  }

  ghost predicate NoneClear(w: seq<Entry>, i: int, n: int) {
    forall k :: i <= k < n && 0 <= k < |w| ==> !IsClear(w[k])
  }

  lemma {:induction false} BufLoopSound(b: BufResult, stop: nat)
    requires Sound(b.v) && 0 <= b.v.nonread < |b.v.w| && 0 <= b.v.notch
    requires !b.v.TracksOrder() || NoneClear(b.v.w, 0, Freed(b.v.w, 0, b.v.nonread, b.v.notch, b.rs, stop))
    ensures Sound(BufLoop(b, stop).v)
    decreases b.v.nonread, b.rs
  {
    hide Sound, BufStep, FreeFront;
    if b.v.nonread > 0 && b.rs > 0 && b.v.w[0].unit.Some? && stop > 0 {
      var p := Pkt(b.v.w, 0).payload;
      BufStepIs(b);
      BufStepSound(b);
      FreeFrontWindow(b.v);
      if b.rs >= |p| - b.v.notch {
        FreedShift(b.v.w, BufStep(b).v.w, 1, b.v.nonread, 0, b.rs - (|p| - b.v.notch), stop - 1);
        assert forall k :: 0 <= k < |b.v.w| - 1 ==> BufStep(b).v.w[k] == b.v.w[k + 1];
      }
      BufLoopSound(BufStep(b), stop - 1);
    }
  }

  /** In every mode in which the order flag is not tracked, readBuffer keeps the invariant, whatever was dropped. */
  lemma ReadBufferSound(v: Rcv, len: int, stop: nat)
    requires Sound(v) && !v.TracksOrder()
    ensures 0 <= v.nonread < |v.w| && 0 <= v.notch && Sound(ReadBuffer(v, len, stop).v)
  {
    BufLoopSound(BufResult(v, [], len), stop);
    hide Core, Bounded, BufLoop;
    SettledSound(BufLoop(BufResult(v, [], len), stop).v, ReadBuffer(v, len, stop).v);
  }

  /** Only the first non-readable position and the counters differ. */
  lemma SettledSound(v: Rcv, v': Rcv)
    requires v' == v.(nonread := v'.nonread, bytes := v'.bytes, pkts := v'.pkts)
    requires 0 <= v.nonread < |v.w| && 0 <= v'.nonread < |v.w|
    ensures Sound(v') <==> Sound(v)
  {
  }

  lemma {:induction false} ShiftedClear(w: seq<Entry>, n: nat)
    requires n <= |w|
    ensures CountIf(Shifted(w, n), IsClear) == CountIf(w, IsClear) - CountIf(w[..n], IsClear)
    decreases n
  {
    hide CountIf;
    if n == 0 {
      assert w[..0] == [];
      NoEntries();
    } else {
      var w1 := w[1..] + [EMPTY];
      ShiftedClear(w1, n - 1);
      OneEntry(w[0]);
      OneEntry(EMPTY);
      CountConcat(w[1..], [EMPTY], IsClear);
      assert w == [w[0]] + w[1..];
      CountConcat([w[0]], w[1..], IsClear);
      assert w[..n] == [w[0]] + w1[..n - 1];
      CountConcat([w[0]], w1[..n - 1], IsClear);
    }
  }

  lemma NoEntries()
    ensures CountIf([], IsClear) == 0
  {
  }

  lemma OneEntry(e: Entry)
    ensures CountIf([e], IsClear) == if IsClear(e) then 1 else 0
  {
  }

  lemma {:induction false} CountNone(w: seq<Entry>, n: nat)
    requires n <= |w|
    ensures CountIf(w[..n], IsClear) == 0 <==> NoneClear(w, 0, n)
    decreases n
  {
    if n > 0 {
      assert w[..n] == w[..n - 1] + [w[n - 1]];
      CountConcat(w[..n - 1], [w[n - 1]], IsClear);
      CountNone(w, n - 1);
    }
  }

  /**
   * readBufferTo does not count down m_numOutOfOrderPackets. So in message mode without TSBPD, where recvfile can
   * reach it, the invariant is kept if and only if no packet that it releases has its order flag clear.
   */
  lemma FileReadSoundIff(v: Rcv, len: int, stop: nat)
    requires Sound(v) && v.TracksOrder()
    ensures 0 <= v.nonread < |v.w| && 0 <= v.notch
    ensures Sound(ReadBuffer(v, len, stop).v) <==> NoneClear(v.w, 0, Freed(v.w, 0, v.nonread, v.notch, len, stop))
  {
    var b := BufLoop(BufResult(v, [], len), stop);
    var f := Freed(v.w, 0, v.nonread, v.notch, len, stop);
    BufLoopFrees(BufResult(v, [], len), stop);
    ShiftedClear(v.w, f);
    CountNone(v.w, f);
    if NoneClear(v.w, 0, f) {
      BufLoopSound(BufResult(v, [], len), stop);
    } else {
      assert !Sound(b.v);
    }
    hide Core, Bounded, BufLoop;
    SettledSound(b.v, ReadBuffer(v, len, stop).v);
  }
}
