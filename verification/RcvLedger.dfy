/**
 * The sequence ledger: every slot the start has passed was read, dropped or discarded, and the counts that the
 * operations return account for all of them.
 */
module RcvLedger {
  import opened SeqNo
  import opened Packets
  import opened RcvModel
  import opened RcvInvariant
  import opened RcvRun
  import opened RcvSound
  import opened RcvMarks
  import opened RcvExamples

  /** Slots that have left the buffer's care: passed by the start, or marked read or dropped inside the window. */
  function Gone(v: Rcv): int {
    v.base + CountIf(v.w, IsDrop) + CountIf(v.w, IsRead)
  }

  // ------------------------------------------------------------------ moving the start

  lemma PopGone(w: seq<Entry>, w': seq<Entry>)
    requires w != [] && w' == w[1..] + [EMPTY]
    ensures CountIf(w', IsDrop) == CountIf(w, IsDrop) - (if IsDrop(w[0]) then 1 else 0)
    ensures CountIf(w', IsRead) == CountIf(w, IsRead) - (if IsRead(w[0]) then 1 else 0)
  {
    assert w[0 := EMPTY][1..] + [w[0 := EMPTY][0]] == w';
    CountUpdate(w, 0, EMPTY, IsDrop);
    CountRotate(w[0 := EMPTY], IsDrop);
    CountUpdate(w, 0, EMPTY, IsRead);
    CountRotate(w[0 := EMPTY], IsRead);
  }

  lemma PoppedGone(v: Rcv, v': Rcv)
    requires Ranged(v) && PoppedN(v, v', 1)
    ensures Gone(v') == Gone(v) + (if IsFiller(v.w[0]) then 0 else 1)
  {
    hide CountIf;
    assert Shifted(v.w, 1) == v.w[1..] + [EMPTY];
    PopGone(v.w, v'.w);
  }

  lemma {:induction false} ReleasedGone(v: Rcv)
    requires Ranged(v) && v.w[|v.w| - 1] == EMPTY
    ensures Gone(ReleaseFillers(v)) == Gone(v)
    decreases Lead(v.w)
  {
    hide Gone;
    if IsFiller(v.w[0]) {
      FillerFrontPops(v);
      PoppedGone(v, FillerFront(v));
      LeadAfterPop(v.w);
      assert FillerFront(v).w == v.w[1..] + [EMPTY];
      ReleasedGone(FillerFront(v));
    }
  }

  /** dropUpTo counts each slot it passes once: missing, present, or counted earlier. */
  lemma {:induction false} DropNGone(d: DropUp, len: nat)
    requires Core(d.v)
    ensures var d' := DropN(d, len); Gone(d'.v) - d'.dropped - d'.discarded == Gone(d.v) - d.dropped - d.discarded
    decreases len
  {
    hide Gone, Core, DropFront;
    if len > 0 {
      CoreRanged(d.v);
      DropFrontCore(d.v);
      DropFrontPops(d.v);
      PoppedGone(d.v, DropFront(d.v));
      DropNGone(DropStep(d), len - 1);
    }
  }

  lemma DropUpToGone(v: Rcv, seqno: int)
    requires Sound(v)
    ensures var d := DropUpTo(v, seqno); Gone(d.v) == Gone(v) + d.dropped + d.discarded
  {
    hide Core, DropN, Bounded, Prefix, PoppedN, SeqOff, AfterDrop, CountIf;
    var len := SeqOff(v.StartSeqNo(), seqno);
    if len > 0 {
      var v0 := v.(maxOff := Max(0, v.maxOff - len));
      CoreRanged(v);
      DropNStruct(v, len);
      SmallerCore(v, v0.maxOff);
      DropNGone(DropUp(v0, 0, 0), len);
      AfterDropGone(DropN(DropUp(v0, 0, 0), len).v);
    }
  }

  lemma SmallerCore(v: Rcv, maxOff: int)
    requires Sound(v)
    ensures Core(v.(maxOff := maxOff)) && Gone(v.(maxOff := maxOff)) == Gone(v)
  {
    hide Counts, CountIf, Prefix;
  }

  lemma AfterDropGone(v: Rcv)
    requires Core(v) && Bounded(v)
    ensures Gone(AfterDrop(v)) == Gone(v)
  {
    hide Core, ReleaseFillers, CountIf, FindOoo, Extend;
    CoreRanged(v);
    ReleasedGone(v);
    UpdateNonreadFrame(ReleaseFillers(v).(nonread := 0));
  }

  // ------------------------------------------------------------------ marking

  lemma MarkDropGone(v: Rcv, k: int)
    requires 0 <= k < |v.w| && v.w[k].status != Drop
    ensures var v' := MarkDrop(v, k);
      && CountIf(v'.w, IsDrop) == CountIf(v.w, IsDrop) + 1 && v'.base == v.base
  {
    MarkDropIs(v, k);
    hide CountIf, MarkDrop;
    CountUpdate(v.w, k, Entry(None, Drop), IsDrop);
  }

  /** The number that dropMessage returns is the number of entries it newly marks. */
  lemma {:induction false} DropRangeGone(d: DropMsg, i: int, end: int, keep: bool)
    requires 0 <= i <= end <= |d.v.w|
    ensures var d' := DropRange(d, i, end, keep);
      d'.count - CountIf(d'.v.w, IsDrop) == d.count - CountIf(d.v.w, IsDrop) && d'.v.base == d.v.base
    decreases end - i
  {
    hide CountIf;
    if i < end {
      if d.v.w[i].status == Drop {
        DropRangeGone(d, i + 1, end, keep);
      } else if KeptSolo(d.v, i, keep) {
        DropRangeGone(d.(byMsgNo := false), i + 1, end, keep);
      } else {
        MarkDropGone(d.v, i);
        DropRangeGone(RangeStep(d, i), i + 1, end, keep);
      }
    }
  }

  lemma {:induction false} DropBackGone(d: DropMsg, i: int, msgno: int, keep: bool)
    requires Core(d.v) && i < |d.v.w| - 1
    ensures var d' := DropBack(d, i, msgno, keep);
      d'.count - CountIf(d'.v.w, IsDrop) == d.count - CountIf(d.v.w, IsDrop) && d'.v.base == d.v.base
    decreases i + 1
  {
    hide CountIf, Counts;
    if i >= 0 {
      if !Has(d.v.w, i) {
        DropBackGone(d, i - 1, msgno, keep);
      } else if Pkt(d.v.w, i).msgno == msgno && !KeptSolo(d.v, i, keep) {
        MarkDropGone(d.v, i);
        MarkDropCore(d.v, i);
        hide Core;
        if !(Pkt(d.v.w, i).first && !Pkt(d.v.w, i).last) {
          DropBackGone(BackStep(d, i), i - 1, msgno, keep);
        }
      }
    }
  }

  lemma DropMarksGone(v: Rcv, a: int, b: int, msgno: int, keep: bool)
    requires Core(v) && a <= b && 0 <= b && a < |v.w|
    ensures var d := DropMarks(v, a, b, msgno, keep);
      d.count == CountIf(d.v.w, IsDrop) - CountIf(v.w, IsDrop) && d.v.base == v.base
  {
    hide CountIf, Core;
    CoreRanged(v);
    var lo := Max(0, a);
    var d0 := DropMsg(v, msgno > 0, 0, -1);
    var end := Min(|v.w| - 1, b + 1);
    DropRangeCore(d0, lo, end, keep);
    DropRangeGone(d0, lo, end, keep);
    var d := DropRange(d0, lo, end, keep);
    if d.byMsgNo && lo < |d.v.w| - 1 {
      DropBackGone(d, lo, msgno, keep);
    }
  }

  /**
   * Entries already read out of order that lie in the range of a dropMessage. It reports each as dropped, although
   * its packet was delivered.
   */
  function Recounted(v: Rcv, seqnolo: int, seqnohi: int): nat
    requires |v.w| > 0 && SeqOff(v.StartSeqNo(), seqnolo) <= SeqOff(v.StartSeqNo(), seqnohi)
  {
    var a := SeqOff(v.StartSeqNo(), seqnolo);
    var b := SeqOff(v.StartSeqNo(), seqnohi);
    if b < 0 || a >= |v.w| then 0
    else CountIf(v.w[Max(0, a)..Min(|v.w| - 1, b + 1)], IsRead)
  }

  lemma {:induction false} CountSame(w: seq<Entry>, w1: seq<Entry>)
    requires |w| == |w1| && forall k :: 0 <= k < |w| ==> IsRead(w1[k]) == IsRead(w[k])
    ensures CountIf(w1, IsRead) == CountIf(w, IsRead)
  {
    if w != [] {
      CountSame(w[1..], w1[1..]);
    }
  }

  /** Only in the range, and there always, does an entry stop being one that was read. */
  lemma ReadEntriesMarked(v: Rcv, a: int, b: int, msgno: int, keep: bool)
    requires Core(v) && a <= b && 0 <= b && a < |v.w|
    ensures var lo, end := Max(0, a), Min(|v.w| - 1, b + 1); var w' := DropMarks(v, a, b, msgno, keep).v.w;
      && 0 <= lo <= end <= |v.w| == |w'|
      && forall k :: 0 <= k < |v.w| ==> IsRead(w'[k]) == (IsRead(v.w[k]) && !(lo <= k < end))
  {
    CoreUnits(v);
    MarksExact(v, a, b, msgno, keep);
  }

  lemma RecountedIs(v: Rcv, a: int, b: int, msgno: int, keep: bool)
    requires Core(v) && a <= b && 0 <= b && a < |v.w|
    ensures CountIf(v.w, IsRead) - CountIf(DropMarks(v, a, b, msgno, keep).v.w, IsRead)
            == CountIf(v.w[Max(0, a)..Min(|v.w| - 1, b + 1)], IsRead)
  {
    ReadEntriesMarked(v, a, b, msgno, keep);
    var lo, end := Max(0, a), Min(|v.w| - 1, b + 1);
    var w, w' := v.w, DropMarks(v, a, b, msgno, keep).v.w;
    hide Core, CountIf, DropMarks;
    ThreeParts(w, lo, end);
    ThreeParts(w', lo, end);
    CountSame(w[..lo], w'[..lo]);
    CountSame(w[end..], w'[end..]);
    NoReadCount(w'[lo..end]);
  }

  lemma ThreeParts(w: seq<Entry>, lo: int, end: int)
    requires 0 <= lo <= end <= |w|
    ensures CountIf(w, IsRead) == CountIf(w[..lo], IsRead) + CountIf(w[lo..end], IsRead) + CountIf(w[end..], IsRead)
  {
    hide CountIf;
    assert w == w[..lo] + (w[lo..end] + w[end..]);
    CountConcat(w[..lo], w[lo..end] + w[end..], IsRead);
    CountConcat(w[lo..end], w[end..], IsRead);
  }

  lemma DropMessageGone(v: Rcv, seqnolo: int, seqnohi: int, msgno: int, keep: bool)
    requires Sound(v) && SeqOff(v.StartSeqNo(), seqnolo) <= SeqOff(v.StartSeqNo(), seqnohi)
    ensures var r := DropMessage(v, seqnolo, seqnohi, msgno, keep);
      Gone(r.0) + Recounted(v, seqnolo, seqnohi) == Gone(v) + r.1
  {
    hide CountIf, Core, Bounded, Prefix, DropMarks;
    CoreRanged(v);
    var a := SeqOff(v.StartSeqNo(), seqnolo);
    var b := SeqOff(v.StartSeqNo(), seqnohi);
    if b >= 0 && a < |v.w| {
      DropMarksMarked(v, a, b, msgno, keep);
      DropMarksGone(v, a, b, msgno, keep);
      RecountedIs(v, a, b, msgno, keep);
      var d := DropMarks(v, a, b, msgno, keep);
      AfterMarksGone(d.v, d.minOff != -1 && d.minOff <= v.nonread);
    }
  }

  lemma AfterMarksGone(v: Rcv, need: bool)
    requires Core(v)
    ensures Gone(AfterMarks(v, need)) == Gone(v)
  {
    hide Core, ReleaseFillers, CountIf, FindOoo, Extend, CheckOoo;
    CoreRanged(v);
    ReleasedGone(v);
    UpdateNonreadFrame(ReleaseFillers(v).(nonread := 0));
  }

  // ------------------------------------------------------------------ reading

  lemma {:induction false} ReadFrontNGone(v: Rcv, n: nat)
    requires Core(v) && StoredBefore(v.w, n)
    ensures Gone(ReadFrontN(v, n)) == Gone(v) + n
    decreases n
  {
    hide Gone, Counts;
    if n > 0 {
      ReadFrontPops(v);
      PoppedGone(v, ReadFront(v));
      assert ReadFront(v).w == v.w[1..] + [EMPTY];
      assert v.w[0].status == Avail;
      hide ReadFront;
      ReadFrontNGone(ReadFront(v), n - 1);
    }
  }

  lemma {:induction false} ReadRangeGone(v: Rcv, r: int, e: int)
    requires 0 <= r <= e <= |v.w| && forall k :: r <= k < e ==> v.w[k].status == Avail && v.w[k].unit.Some?
    ensures Gone(ReadRange(v, r, e)) == Gone(v) + (e - r)
    decreases e - r
  {
    hide CountIf;
    if r < e {
      var v1 := ReadAt(v, r);
      assert v1.w == v.w[r := Entry(None, Read)];
      CountUpdate(v.w, r, Entry(None, Read), IsDrop);
      CountUpdate(v.w, r, Entry(None, Read), IsRead);
      hide ReadAt;
      ReadRangeGone(v1, r + 1, e);
    }
  }

  lemma AfterReadGone(v: Rcv)
    requires Core(v)
    ensures Gone(AfterRead(v)) == Gone(v)
  {
    hide Core, ReleaseFillers, CountIf, FindOoo;
    CoreRanged(v);
    ReleasedGone(v);
  }

  lemma ReadMessageGone(v: Rcv, len: nat)
    requires Sound(v)
    ensures Gone(ReadMessage(v, len).v) == Gone(v) + ReadMessage(v, len).count
  {
    hide Counts, AfterRead, ReadFrontN, ReadRange, ReadEnd, CountIf;
    var r := ReadPos(v);
    if r >= 0 {
      var e := ReadEnd(v.w, r);
      ReadEndShort(v, r);
      if r == 0 {
        ReadFrontNGone(v, e);
      } else {
        ReadRangeGone(v, r, e);
      }
      ConsumedSound(v, r, e);
      hide Sound, Core;
      AfterReadGone(Consumed(v, r, e));
    }
  }

  lemma {:induction false} ShiftedGone(w: seq<Entry>, n: nat)
    requires n <= |w| && forall k :: 0 <= k < n ==> !IsFiller(w[k])
    ensures CountIf(Shifted(w, n), IsDrop) == CountIf(w, IsDrop) && CountIf(Shifted(w, n), IsRead) == CountIf(w, IsRead)
    decreases n
  {
    hide CountIf;
    if n > 0 {
      PopGone(w, w[1..] + [EMPTY]);
      ShiftedGone(w[1..] + [EMPTY], n - 1);
    }
  }

  lemma ReadBufferGone(v: Rcv, len: int, stop: nat)
    requires Sound(v) && Usable(v)
    ensures Gone(ReadBuffer(v, len, stop).v) == Gone(v) + Freed(v.w, 0, v.nonread, v.notch, len, stop)
  {
    hide CountIf, ReadBuffer, Counts, Shifted;
    ReadBufferFrees(v, len, stop);
    ShiftedGone(v.w, Freed(v.w, 0, v.nonread, v.notch, len, stop));
  }

  // ------------------------------------------------------------------ whole runs

  /** What an operation reports: packets read, dropped and discarded. */
  function Reported(v: Rcv, op: Op): int
    requires Usable(v) && Enabled(v, op)
  {
    match op
    case OpInsert(_) => 0
    case OpReadMessage(len) => ReadMessage(v, len).count
    case OpDropUpTo(seqno) => var d := DropUpTo(v, seqno); d.dropped + d.discarded
    case OpDropAll => var d := DropAll(v); d.dropped + d.discarded
    case OpDropMessage(lo, hi, msgno, keep) => DropMessage(v, lo, hi, msgno, keep).1
    case OpReadBuffer(len, stop) => Freed(v.w, 0, v.nonread, v.notch, len, stop)
  }

  function Repeated(v: Rcv, op: Op): int
    requires |v.w| > 0 && Enabled(v, op)
  {
    match op
    case OpDropMessage(lo, hi, _, _) => Recounted(v, lo, hi)
    case _ => 0
  }

  lemma InsertGone(v: Rcv, u: Unit)
    requires Sound(v)
    ensures Gone(Insert(v, u).0) == Gone(v)
  {
    hide Counts, CountIf, Extend;
    var k := InsertOffset(v, u);
    if 0 <= k < |v.w| - 1 && v.w[k].status == Empty {
      PlacedIs(v.(maxOff := Max(v.maxOff, k + 1)), u, k);
      hide Sound, Placed;
      CountUpdate(v.w, k, Entry(Some(u), Avail), IsDrop);
      CountUpdate(v.w, k, Entry(Some(u), Avail), IsRead);
    }
  }

  lemma StepLedger(v: Rcv, op: Op)
    requires Sound(v) && Enabled(v, op)
    ensures Gone(Step(v, op)) + Repeated(v, op) == Gone(v) + Reported(v, op)
  {
    hide Gone, Insert, ReadMessage, DropUpTo, DropMessage, Counts;
    match op
    case OpInsert(u) => InsertGone(v, u);
    case OpReadMessage(len) => ReadMessageGone(v, len);
    case OpDropUpTo(seqno) => DropUpToGone(v, seqno);
    case OpDropAll =>
      if v.maxOff != 0 {
        DropUpToGone(v, IncSeqBy(v.StartSeqNo(), v.maxOff));
      }
    case OpDropMessage(lo, hi, msgno, keep) => DropMessageGone(v, lo, hi, msgno, keep);
    case OpReadBuffer(len, stop) => ReadBufferGone(v, len, stop);
  }

  ghost function TotalReported(vs: seq<Rcv>, ops: seq<Op>, n: nat): int
    requires IsRun(vs, ops) && n < |vs|
  {
    if n == 0 then 0 else TotalReported(vs, ops, n - 1) + Reported(vs[n - 1], ops[n - 1])
  }

  ghost function TotalRepeated(vs: seq<Rcv>, ops: seq<Op>, n: nat): int
    requires IsRun(vs, ops) && n < |vs|
  {
    if n == 0 then 0 else TotalRepeated(vs, ops, n - 1) + Repeated(vs[n - 1], ops[n - 1])
  }

  /**
   * Over any run from an empty buffer: the advance of the start, plus what is marked inside the window, is what the
   * operations reported, less the out-of-order reads that were later reported as dropped.
   */
  lemma {:induction false} RunLedger(vs: seq<Rcv>, ops: seq<Op>, n: nat)
    requires IsRun(vs, ops) && Sound(vs[0]) && n < |vs| && AllCounted(vs, ops, n)
    ensures Gone(vs[n]) - Gone(vs[0]) == TotalReported(vs, ops, n) - TotalRepeated(vs, ops, n)
  {
    if n > 0 {
      RunLedger(vs, ops, n - 1);
      RunSound(vs, ops, n - 1);
      hide Sound, Gone, Reported, Repeated;
      StepLedger(vs[n - 1], ops[n - 1]);
    }
  }

  lemma {:induction false} NoReadCount(w: seq<Entry>)
    requires forall k :: 0 <= k < |w| ==> w[k].status != Read
    ensures CountIf(w, IsRead) == 0
  {
    if w != [] {
      NoReadCount(w[1..]);
    }
  }

  lemma NothingRepeated(v: Rcv, op: Op)
    requires Sound(v) && Enabled(v, op) && forall k :: 0 <= k < |v.w| ==> v.w[k].status != Read
    ensures Repeated(v, op) == 0
  {
    hide CountIf, Counts;
    if op.OpDropMessage? {
      var a := SeqOff(v.StartSeqNo(), op.seqnolo);
      var b := SeqOff(v.StartSeqNo(), op.seqnohi);
      if b >= 0 && a < |v.w| {
        NoReadCount(v.w[Max(0, a)..Min(|v.w| - 1, b + 1)]);
      }
    }
  }

  /** Without out-of-order reads the ledger closes on the reports alone. */
  lemma {:induction false} InOrderLedger(vs: seq<Rcv>, ops: seq<Op>, n: nat)
    requires IsRun(vs, ops) && Sound(vs[0]) && n < |vs| && AllCounted(vs, ops, n)
    requires vs[0].base == 0 && CountIf(vs[0].w, IsDrop) == 0
    requires forall i, k :: 0 <= i <= n && 0 <= k < |vs[i].w| ==> vs[i].w[k].status != Read
    ensures vs[n].base == TotalReported(vs, ops, n) - CountIf(vs[n].w, IsDrop)
  {
    RunLedger(vs, ops, n);
    NoReadCount(vs[0].w);
    NoReadCount(vs[n].w);
    NoneRepeated(vs, ops, n);
  }

  lemma {:induction false} NoneRepeated(vs: seq<Rcv>, ops: seq<Op>, n: nat)
    requires IsRun(vs, ops) && Sound(vs[0]) && n < |vs| && AllCounted(vs, ops, n)
    requires forall i, k :: 0 <= i <= n && 0 <= k < |vs[i].w| ==> vs[i].w[k].status != Read
    ensures TotalRepeated(vs, ops, n) == 0
  {
    if n > 0 {
      NoneRepeated(vs, ops, n - 1);
      RunSound(vs, ops, n - 1);
      hide Sound, Repeated;
      NothingRepeated(vs[n - 1], ops[n - 1]);
    }
  }

  // ------------------------------------------------------------------ a run that counts a packet twice

  const W1: Rcv := At([EMPTY, Slot(1, false), EMPTY, EMPTY, EMPTY], 0, 0, 2, 1, 1, 1, {1})
  const W2: Rcv := At([EMPTY, READ, EMPTY, EMPTY, EMPTY], 0, 0, 2, -1, 0, 0, {})
  const W3: Rcv := At([EMPTY, EMPTY, EMPTY, EMPTY, EMPTY], 2, 0, 0, -1, 0, 0, {})

  lemma InsertOne()
    ensures Insert(Init(0, 5, true, false), Unit(1, Solo(1, false))).0 == W1
  {
    assert Init(0, 5, true, false).w[1 := Slot(1, false)] == W1.w;
    assert Extend(W1.w, 0, true) == 0;
  }

  lemma ReadAhead(len: nat)
    ensures ReadMessage(W1, len).v == W2 && ReadMessage(W1, len).count == 1
  {
    assert ReadEnd(W1.w, 1) == 2;
    assert ReadRange(W1, 1, 2) == ReadAt(W1, 1);
    assert W1.w[1 := EMPTY][1 := READ] == W2.w;
    assert W1.taken - {1} == {};
    assert Payloads(W1.w, 1, 2) == [];
  }

  /** W2 with the two entries at the start marked dropped. */
  const W2_MARKED: Rcv := At([DROP, DROP, EMPTY, EMPTY, EMPTY], 0, 0, 2, -1, 0, 0, {})

  lemma MarkBoth()
    ensures DropMarks(W2, 0, 1, 0, true) == DropMsg(W2_MARKED, false, 2, 0)
  {
    var m := W2_MARKED;
    var d0 := DropMsg(W2, false, 0, -1);
    var d1 := RangeStep(d0, 0);
    var d2 := RangeStep(d1, 1);
    assert W2.w[0 := DROP][1 := DROP] == m.w;
    assert d2 == DropMsg(m, false, 2, 0);
    assert DropRange(d1, 1, 2, true) == d2;
    assert DropRange(d0, 0, 2, true) == d2;
  }

  lemma ReleaseBoth()
    ensures AfterMarks(W2_MARKED, true) == W3
  {
    var m := W2_MARKED;
    var f1 := At([DROP, EMPTY, EMPTY, EMPTY, EMPTY], 1, 4, 1, -1, 0, 0, {});
    var f2 := At([EMPTY, EMPTY, EMPTY, EMPTY, EMPTY], 2, 3, 0, -1, 0, 0, {});
    assert m.w[0 := EMPTY][1..] + [EMPTY] == f1.w;
    assert FillerFront(m) == f1;
    assert f1.w[0 := EMPTY][1..] + [EMPTY] == f2.w;
    assert FillerFront(f1) == f2;
    assert ReleaseFillers(f2) == f2;
    assert ReleaseFillers(f1) == f2;
    assert ReleaseFillers(m) == f2;
    assert Extend(f2.w, 0, true) == 0;
  }

  lemma DropOver()
    ensures DropMessage(W2, 0, 1, 0, true) == (W3, 2)
  {
    hide DropMarks, AfterMarks;
    MarkBoth();
    ReleaseBoth();
  }

  lemma OneRead()
    ensures Recounted(W2, 0, 1) == 1
  {
    assert W2.w[0..2] == [EMPTY, READ];
    assert [EMPTY, READ][1..] == [READ];
    assert CountIf([READ], IsRead) == 1;
  }

  /** One step of a run, with what it reports and what of it was reported before. */
  ghost predicate LedgerStep(v: Rcv, op: Op, v': Rcv, reported: int, repeated: int) {
    && Usable(v) && Enabled(v, op) && Returns(v, op) && v' == Step(v, op)
    && Reported(v, op) == reported && Repeated(v, op) == repeated
  }

  lemma TwiceInsert()
    ensures LedgerStep(Init(0, 5, true, false), OpInsert(Unit(1, Solo(1, false))), W1, 0, 0) && Sound(W1)
  {
    hide Insert, Sound;
    InitStruct(0, 5, true, false);
    StructSound(Init(0, 5, true, false));
    InsertSound(Init(0, 5, true, false), Unit(1, Solo(1, false)));
    InsertOne();
  }

  lemma TwiceRead(len: nat)
    requires Sound(W1)
    ensures LedgerStep(W1, OpReadMessage(len), W2, 1, 0) && Sound(W2)
  {
    hide ReadMessage, Sound, Returns;
    ReadMessageSound(W1, len);
    SoundReturns(W1, OpReadMessage(len));
    ReadAhead(len);
  }

  lemma TwiceDrop()
    requires Sound(W2)
    ensures LedgerStep(W2, OpDropMessage(0, 1, 0, true), W3, 2, 1)
  {
    hide DropMessage, Recounted, Sound, Returns;
    SoundReturns(W2, OpDropMessage(0, 1, 0, true));
    DropOver();
    OneRead();
  }

  /** The totals of a run of three steps. */
  lemma ThreeSteps(vs: seq<Rcv>, ops: seq<Op>, r1: int, r2: int, r3: int, p1: int, p2: int, p3: int)
    requires |vs| == 4 && |ops| == 3 && LedgerStep(vs[0], ops[0], vs[1], r1, p1)
    requires LedgerStep(vs[1], ops[1], vs[2], r2, p2) && LedgerStep(vs[2], ops[2], vs[3], r3, p3)
    ensures IsRun(vs, ops)
    ensures TotalReported(vs, ops, 3) == r1 + r2 + r3 && TotalRepeated(vs, ops, 3) == p1 + p2 + p3
  {
    hide Step, Returns, Enabled, Reported, Repeated, Usable;
    assert IsRun(vs, ops);
    assert TotalReported(vs, ops, 0) == 0 && TotalRepeated(vs, ops, 0) == 0;
    assert TotalReported(vs, ops, 1) == r1 && TotalRepeated(vs, ops, 1) == p1;
    assert TotalReported(vs, ops, 2) == r1 + r2 && TotalRepeated(vs, ops, 2) == p1 + p2;
  }

  /**
   * A packet is read ahead of a missing one and then both are dropped: three are reported, and the start moves by two.
   */
  lemma CountedTwice(len: nat) returns (vs: seq<Rcv>, ops: seq<Op>)
    ensures IsRun(vs, ops) && vs[0] == Init(0, 5, true, false) && |ops| == 3
    ensures vs[3].base == 2 && CountIf(vs[3].w, IsDrop) == 0
    ensures TotalReported(vs, ops, 3) == 3 && TotalRepeated(vs, ops, 3) == 1
  {
    hide IsRun, LedgerStep, TotalReported, TotalRepeated, CountIf, Sound;
    vs := [Init(0, 5, true, false), W1, W2, W3];
    ops := [OpInsert(Unit(1, Solo(1, false))), OpReadMessage(len), OpDropMessage(0, 1, 0, true)];
    TwiceInsert();
    TwiceRead(len);
    TwiceDrop();
    ThreeSteps(vs, ops, 0, 1, 2, 0, 0, 1);
    assert W3.w == seq(5, _ => EMPTY);
    AllEmpty(5);
  }
}
