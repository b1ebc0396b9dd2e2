/**
 * Stream mode with drops. readBufferTo does not release dropped entries that come to the start, dropMessage does not
 * look for readable packets again unless it marked one before the first non-readable position, and no drop resets the
 * notch. This module says exactly when each of these does harm, and gives a run in which it does.
 */
module RcvStreamDrops {
  import opened SeqNo
  import opened Packets
  import opened RcvModel
  import opened RcvInvariant
  import opened RcvSound
  import opened RcvMarks
  import opened RcvRun
  import opened RcvExamples

  // ------------------------------------------------------------------ the readable part

  lemma StoredStart(v: Rcv)
    requires Core(v) && Prefix(v) && IsFiller(v.w[0])
    ensures v.nonread == 0 && |v.w| > 1
  {
  }

  /** A position at the start that fillers overtake wraps to the far end of the ring, beyond everything stored. */
  lemma StartOvertaken(v: Rcv)
    requires Core(v) && Bounded(v) && v.nonread == 0 && IsFiller(v.w[0])
    ensures ReleaseFillers(v).nonread > ReleaseFillers(v).maxOff
  {
    hide Counts;
    ReleaseFillersPops(v);
    LeadShort(v.w);
  }

  lemma MarksKeepPosition(v: Rcv)
    requires Ranged(v)
    ensures AfterMarks(v, false).nonread == ReleaseFillers(v).nonread
    ensures AfterMarks(v, false).maxOff == ReleaseFillers(v).maxOff
  {
    hide ReleaseFillers, FindOoo, CheckOoo;
  }

  /** The entry at the start, read or dropped earlier, is marked anew only if it was read and lies in the range. */
  lemma StartMarkedIff(v: Rcv, a: int, b: int, msgno: int, keep: bool)
    requires Core(v) && a <= b && 0 <= b && a < |v.w| && IsFiller(v.w[0])
    ensures DropMarks(v, a, b, msgno, keep).minOff == 0 <==> IsRead(v.w[0]) && a <= 0
    ensures |DropMarks(v, a, b, msgno, keep).v.w| > 0 && IsFiller(DropMarks(v, a, b, msgno, keep).v.w[0])
  {
    MarksExact(v, a, b, msgno, keep);
    DropMarksMarked(v, a, b, msgno, keep);
    hide DropMarks, Counts;
    assert v.w[0].unit.None?;
    assert |v.w| > 1;
  }

  /**
   * When everything before the first non-readable position is stored, dropMessage keeps it so if and only if it does
   * nothing, or no filler stands at the start, or the one there was read and is now marked dropped.
   */
  lemma DropKeepsPrefixIff(v: Rcv, seqnolo: int, seqnohi: int, msgno: int, keep: bool)
    requires Sound(v) && Prefix(v) && SeqOff(v.StartSeqNo(), seqnolo) <= SeqOff(v.StartSeqNo(), seqnohi)
    ensures |v.w| > 0
    ensures var a, b := SeqOff(v.StartSeqNo(), seqnolo), SeqOff(v.StartSeqNo(), seqnohi);
      Prefix(DropMessage(v, seqnolo, seqnohi, msgno, keep).0) <==>
      b < 0 || a >= |v.w| || !IsFiller(v.w[0]) || (IsRead(v.w[0]) && a <= 0)
  {
    CoreRanged(v);
    var a, b := SeqOff(v.StartSeqNo(), seqnolo), SeqOff(v.StartSeqNo(), seqnohi);
    if b >= 0 && a < |v.w| {
      if !IsFiller(v.w[0]) {
        DropMessageStruct(v, seqnolo, seqnohi, msgno, keep);
        hide Core, Bounded, Prefix, DropMessage;
      } else {
        StoredStart(v);
        hide Core, Bounded, AfterMarks, DropMarks, Marked;
        StartMarkedIff(v, a, b, msgno, keep);
        DropMarksMarked(v, a, b, msgno, keep);
        var d := DropMarks(v, a, b, msgno, keep);
        MarkedBounded(v, d);
        CoreRanged(d.v);
        if d.minOff == 0 {
          RescannedPrefix(d.v);
        } else {
          StartOvertaken(d.v);
          MarksKeepPosition(d.v);
        }
      }
    }
  }

  lemma RescannedPrefix(v: Rcv)
    requires Sound(v)
    ensures Prefix(AfterMarks(v, true))
  {
    hide Core, Bounded, Prefix, ReleaseFillers, UpdateNonread, UpdateOoo, CheckOoo;
    CoreRanged(v);
    MarkedReleased(v);
    var v2 := UpdateNonread(ReleaseFillers(v).(nonread := 0));
    RescanStruct(ReleaseFillers(v));
    NoOooStruct(v2);
    UpdateOooStruct(v2);
    UpdateOooStruct(v2.(ooo := -1));
  }

  // ------------------------------------------------------------------ readBuffer

  /** A readBuffer never leaves the readable part broken, and meets no null unit, if it was not broken before. */
  lemma ReadKeepsPrefix(v: Rcv, len: int, stop: nat)
    requires Sound(v) && Prefix(v)
    ensures Usable(v) && Prefix(ReadBuffer(v, len, stop).v) && !NullMet(BufLoop(BufResult(v, [], len), stop))
    ensures var f := Freed(v.w, 0, v.nonread, v.notch, len, stop);
      |ReadBuffer(v, len, stop).v.w| == |v.w| && ReadBuffer(v, len, stop).v.w[0] == v.w[f]
  {
    hide Counts;
    var f := Freed(v.w, 0, v.nonread, v.notch, len, stop);
    var b := BufLoop(BufResult(v, [], len), stop);
    CoreRanged(v);
    BufLoopFrees(BufResult(v, [], len), stop);
    ShiftedPrefix(v, b.v, f);
    hide Core, Bounded, BufLoop, Freed, Shifted;
    SettledPrefix(b.v, ReadBuffer(v, len, stop).v);
  }

  /**
   * A filler comes to stand at the start, and with it the structural invariant is lost, if and only if the read takes
   * all that is readable and what follows was dropped.
   */
  lemma ReadKeepsIff(v: Rcv, len: int, stop: nat)
    requires Struct(v) && !v.TracksOrder()
    ensures Usable(v) && Prefix(ReadBuffer(v, len, stop).v) && !NullMet(BufLoop(BufResult(v, [], len), stop))
    ensures Struct(ReadBuffer(v, len, stop).v) <==>
            !(Freed(v.w, 0, v.nonread, v.notch, len, stop) == v.nonread && IsFiller(v.w[v.nonread]))
  {
    ReadBufferSound(v, len, stop);
    ReadKeepsPrefix(v, len, stop);
    StoredStatus(v);
    hide Core, Bounded, ReadBuffer, BufLoop;
  }

  lemma StoredStatus(v: Rcv)
    requires Core(v) && Prefix(v)
    ensures forall k :: 0 <= k < v.nonread ==> !IsFiller(v.w[k])
  {
  }

  lemma SettledPrefix(v: Rcv, v': Rcv)
    requires Prefix(v) && v' == ClampNonread(v).(bytes := v'.bytes, pkts := v'.pkts)
    ensures Prefix(v')
  {
  }

  // ------------------------------------------------------------------ the notch

  /** Behind nothing but fillers from offset i on, a packet longer than the notch is stored. */
  ghost predicate NotchFits(w: seq<Entry>, i: int, notch: int) {
    exists n :: 0 <= i <= n && Has(w, n) && notch < |Pkt(w, n).payload| && forall k :: i <= k < n ==> IsFiller(w[k])
  }

  lemma FirstFits(w: seq<Entry>, n: nat, notch: int)
    requires UnitsAvail(w) && n < |w| && !IsFiller(w[n]) && forall k :: 0 <= k < n ==> IsFiller(w[k])
    ensures NotchFits(w, 0, notch) <==> Has(w, n) && notch < |Pkt(w, n).payload|
  {
    if NotchFits(w, 0, notch) {
      var m :| 0 <= m && Has(w, m) && notch < |Pkt(w, m).payload| && forall k :: 0 <= k < m ==> IsFiller(w[k]);
      assert w[m].status == Avail;
      assert m == n;
    }
  }

  lemma ReleasedStart(v: Rcv)
    requires Core(v) && Bounded(v)
    ensures var n, v1 := Lead(v.w), ReleaseFillers(v);
      n < |v.w| == |v1.w| && v1.w[0] == v.w[n] && v1.notch == v.notch
  {
    hide Core, ReleaseFillers, Lead, Shifted;
    CoreRanged(v);
    ReleaseFillersPops(v);
    LeadShort(v.w);
    ShiftedAt(v.w, Lead(v.w));
  }

  lemma ReleasedNotch(v: Rcv)
    requires Core(v) && Bounded(v) && v.notch >= 0
    ensures NotchOk(ReleaseFillers(v)) <==> v.notch == 0 || NotchFits(v.w, 0, v.notch)
  {
    hide Core, ReleaseFillers, Shifted, NotchFits;
    ReleasedStart(v);
    CoreUnits(v);
    FirstFits(v.w, Lead(v.w), v.notch);
  }

  /** Only the window and the notch matter. */
  lemma SameNotch(v: Rcv, v': Rcv)
    requires v'.w == v.w && v'.notch == v.notch
    ensures NotchOk(v') == NotchOk(v)
  {
  }

  lemma AfterDropNotch(v: Rcv)
    requires Core(v) && Bounded(v)
    ensures NotchOk(AfterDrop(v)) == NotchOk(ReleaseFillers(v))
  {
    hide Core, NotchOk, ReleaseFillers, FindOoo, Extend;
    CoreRanged(v);
    UpdateNonreadFrame(ReleaseFillers(v).(nonread := 0));
    SameNotch(ReleaseFillers(v), AfterDrop(v));
  }

  lemma AfterMarksNotch(v: Rcv, need: bool)
    requires Core(v) && Bounded(v)
    ensures NotchOk(AfterMarks(v, need)) == NotchOk(ReleaseFillers(v))
  {
    hide Core, NotchOk, ReleaseFillers, FindOoo, Extend, CheckOoo;
    CoreRanged(v);
    UpdateNonreadFrame(ReleaseFillers(v).(nonread := 0));
    SameNotch(ReleaseFillers(v), AfterMarks(v, need));
  }

  lemma FitsShifted(w: seq<Entry>, len: nat, notch: int)
    requires notch >= 0
    ensures NotchFits(Shifted(w, len), 0, notch) <==> NotchFits(w, len, notch)
  {
    ShiftedAt(w, len);
    var w1 := Shifted(w, len);
    hide Shifted;
    if NotchFits(w1, 0, notch) {
      var m :| 0 <= m && Has(w1, m) && notch < |Pkt(w1, m).payload| && forall k :: 0 <= k < m ==> IsFiller(w1[k]);
      assert Has(w, m + len) && w[m + len] == w1[m];
      forall k | len <= k < m + len
        ensures IsFiller(w[k])
      {
        assert w1[k - len] == w[k];
      }
    }
    if NotchFits(w, len, notch) {
      var m :| len <= m && Has(w, m) && notch < |Pkt(w, m).payload| && forall k :: len <= k < m ==> IsFiller(w[k]);
      assert Has(w1, m - len) && w1[m - len] == w[m];
    }
  }

  /**
   * dropUpTo leaves the notch inside the packet at the start if and only if it does nothing, or no packet is partly
   * read, or the first packet it leaves happens to be longer than the notch.
   */
  lemma DropUpToNotchIff(v: Rcv, seqno: int)
    requires Sound(v) && NotchOk(v)
    ensures |v.w| > 0
    ensures var len := SeqOff(v.StartSeqNo(), seqno);
      NotchOk(DropUpTo(v, seqno).v) <==> len <= 0 || v.notch == 0 || NotchFits(v.w, len, v.notch)
  {
    hide Core, Bounded, NotchOk, DropN, AfterDrop, NotchFits;
    CoreRanged(v);
    NotchNat(v);
    var len := SeqOff(v.StartSeqNo(), seqno);
    if len > 0 {
      DropNStruct(v, len);
      var v1 := DropN(DropUp(v.(maxOff := Max(0, v.maxOff - len)), 0, 0), len).v;
      AfterDropNotch(v1);
      ReleasedNotch(v1);
      FitsShifted(v.w, len, v.notch);
    }
  }

  lemma NotchNat(v: Rcv)
    requires NotchOk(v)
    ensures v.notch >= 0
  {
  }

  /** A packet longer than the notch survives the drop, and all before it is gone. */
  ghost predicate NotchSurvives(w: seq<Entry>, a: int, b: int, msgno: int, keep: bool, notch: int)
    requires a <= b && 0 <= b && a < |w|
  {
    exists n :: Has(w, n) && notch < |Pkt(w, n).payload| && !Drops(w, a, b, msgno, keep, n)
                && forall k :: 0 <= k < n ==> IsFiller(w[k]) || Drops(w, a, b, msgno, keep, k)
  }

  lemma FitsMarked(w: seq<Entry>, w': seq<Entry>, a: int, b: int, msgno: int, keep: bool, notch: int)
    requires a <= b && 0 <= b && a < |w| == |w'|
    requires forall k :: 0 <= k < |w| ==> w'[k] == if Drops(w, a, b, msgno, keep, k) then DROP else w[k]
    ensures NotchFits(w', 0, notch) <==> NotchSurvives(w, a, b, msgno, keep, notch)
  {
    hide Drops;
    if NotchFits(w', 0, notch) {
      var m :| 0 <= m && Has(w', m) && notch < |Pkt(w', m).payload| && forall k :: 0 <= k < m ==> IsFiller(w'[k]);
      assert w'[m] == w[m];
    }
    if NotchSurvives(w, a, b, msgno, keep, notch) {
      var m :| Has(w, m) && notch < |Pkt(w, m).payload| && !Drops(w, a, b, msgno, keep, m)
               && forall k :: 0 <= k < m ==> IsFiller(w[k]) || Drops(w, a, b, msgno, keep, k);
      assert Has(w', m) && w'[m] == w[m];
      forall k | 0 <= k < m
        ensures IsFiller(w'[k])
      {
        assert IsFiller(w[k]) || Drops(w, a, b, msgno, keep, k);
      }
    }
  }

  /**
   * The same for dropMessage; in particular the notch stays inside as long as the packet at the start is not dropped.
   */
  lemma DropMessageNotchIff(v: Rcv, seqnolo: int, seqnohi: int, msgno: int, keep: bool)
    requires Sound(v) && NotchOk(v) && SeqOff(v.StartSeqNo(), seqnolo) <= SeqOff(v.StartSeqNo(), seqnohi)
    ensures |v.w| > 0
    ensures var a, b := SeqOff(v.StartSeqNo(), seqnolo), SeqOff(v.StartSeqNo(), seqnohi);
      NotchOk(DropMessage(v, seqnolo, seqnohi, msgno, keep).0) <==>
      b < 0 || a >= |v.w| || v.notch == 0 || NotchSurvives(v.w, a, b, msgno, keep, v.notch)
  {
    hide Core, Bounded, NotchOk, DropMarks, AfterMarks, Marked, NotchFits, NotchSurvives, Drops;
    CoreRanged(v);
    var a, b := SeqOff(v.StartSeqNo(), seqnolo), SeqOff(v.StartSeqNo(), seqnohi);
    if b >= 0 && a < |v.w| {
      var d := DropMarks(v, a, b, msgno, keep);
      DropMarksMarked(v, a, b, msgno, keep);
      MarksExact(v, a, b, msgno, keep);
      MarkedBounded(v, d);
      MarkedNotch(v, d);
      NotchNat(v);
      AfterMarksNotch(d.v, d.minOff != -1 && d.minOff <= v.nonread);
      ReleasedNotch(d.v);
      FitsMarked(v.w, d.v.w, a, b, msgno, keep, v.notch);
    }
  }

  lemma MarkedNotch(v: Rcv, d: DropMsg)
    requires Marked(v, d)
    ensures d.v.notch == v.notch
  {
  }

  // ------------------------------------------------------------------ a run that breaks the readable part

  const A1: Rcv := InStream([Holding(0, [7]), EMPTY, EMPTY, EMPTY, EMPTY], 0, 1, 1, 0, 1, 1, {0})
  const A2: Rcv := InStream([Holding(0, [7]), DROP, EMPTY, EMPTY, EMPTY], 0, 1, 1, 0, 1, 1, {0})
  const A3: Rcv := InStream([DROP, EMPTY, EMPTY, EMPTY, EMPTY], 1, 0, 0, 0, 0, 0, {})
  const A4: Rcv := InStream([EMPTY, DROP, EMPTY, EMPTY, EMPTY], 2, 4, 0, 0, 0, 0, {})

  lemma ArriveFirst()
    ensures Insert(Init(0, 5, false, false), Unit(0, Data(0, [7]))).0 == A1
  {
    assert Init(0, 5, false, false).w[0 := Holding(0, [7])] == A1.w;
    assert Extend(A1.w, 1, false) == 1;
    assert Extend(A1.w, 0, false) == 1;
  }

  lemma DropSecond()
    ensures DropMessage(A1, 1, 1, 0, true) == (A2, 1)
  {
    var d := DropMsg(A1, false, 0, -1);
    assert A1.w[1 := DROP] == A2.w;
    assert RangeStep(d, 1) == DropMsg(A2, false, 1, 1);
    assert DropRange(d, 1, 2, true) == DropMsg(A2, false, 1, 1);
    assert ReleaseFillers(A2) == A2;
    assert Extend(A2.w, 1, false) == 1;
    assert Extend(A2.w, 0, false) == 1;
  }

  lemma ReadFirst()
    ensures ReadBuffer(A2, 10, 5) == BufRead(A3, [7], 1)
  {
    var b := BufResult(A3.(bytes := 1, pkts := 1), [7], 9);
    assert A2.w[0 := EMPTY][1..] + [EMPTY] == A3.w;
    assert A2.taken - {0} == {};
    assert FreeFront(A2) == b.v;
    assert [] + [7][0..] == [7];
    assert BufStep(BufResult(A2, [], 10)) == b;
    assert BufLoop(b, 4) == b;
    assert BufLoop(BufResult(A2, [], 10), 5) == b;
  }

  lemma DropFourth()
    ensures DropMessage(A3, 3, 3, 0, true) == (A4, 1)
  {
    var d := DropMsg(A3, false, 0, -1);
    var m := InStream([DROP, EMPTY, DROP, EMPTY, EMPTY], 1, 0, 0, 0, 0, 0, {});
    assert A3.w[2 := DROP] == m.w;
    assert RangeStep(d, 2) == DropMsg(m, false, 1, 2);
    assert DropRange(d, 2, 3, true) == DropMsg(m, false, 1, 2);
    assert m.w[0 := EMPTY][1..] + [EMPTY] == A4.w;
    assert FillerFront(m) == A4;
    assert ReleaseFillers(A4) == A4;
    assert ReleaseFillers(m) == A4;
  }

  lemma NothingThere()
    ensures ReadBuffer(A4, 10, 5).ret == -1
    ensures !Prefix(A4) && A4.nonread != 0 && forall k :: 0 <= k < |A4.w| ==> A4.w[k].unit.None?
  {
  }

  /**
   * A packet arrives, the next is dropped at the sender's request, the first is read, and a later one is dropped. The
   * buffer then holds nothing, but says that packets are readable in order, and the next read meets a null unit.
   */
  lemma BrokenRun() returns (vs: seq<Rcv>, ops: seq<Op>)
    ensures IsRun(vs, ops) && vs[0] == Init(0, 5, false, false) && |ops| == 4
    ensures IsFiller(vs[3].w[0]) && !Prefix(vs[4]) && vs[4].nonread != 0
    ensures forall k :: 0 <= k < |vs[4].w| ==> vs[4].w[k].unit.None?
    ensures Usable(vs[4]) && ReadBuffer(vs[4], 10, 5).ret == -1
  {
    ArriveFirst();
    DropSecond();
    ReadFirst();
    DropFourth();
    NothingThere();
    hide Insert, DropMessage, ReadBuffer, Prefix;
    vs := [Init(0, 5, false, false), A1, A2, A3, A4];
    ops := [OpInsert(Unit(0, Data(0, [7]))), OpDropMessage(1, 1, 0, true), OpReadBuffer(10, 5),
      OpDropMessage(3, 3, 0, true)];
  }

  // ------------------------------------------------------------------ a run that leaves the notch outside

  /** A message of two packets, of four bytes and of one. */
  const LONG: Packet := Packet(0, true, false, true, 1, [1, 2, 3, 4])
  const SHORT: Packet := Packet(1, false, true, true, 1, [5])

  const E0: Entry := Entry(Some(Unit(0, LONG)), Avail)
  const E1: Entry := Entry(Some(Unit(1, SHORT)), Avail)

  const B1: Rcv := InStream([E0, EMPTY, EMPTY, EMPTY], 0, 1, 1, 0, 4, 1, {0})
  const B2: Rcv := InStream([E0, E1, EMPTY, EMPTY], 0, 2, 2, 0, 5, 2, {0, 1})
  const B3: Rcv := InStream([E0, E1, EMPTY, EMPTY], 0, 2, 2, 3, 2, 1, {0, 1})
  const B4: Rcv := InStream([E1, EMPTY, EMPTY, EMPTY], 1, 1, 1, 3, 2, 1, {1})

  lemma ArriveLong()
    ensures Insert(Init(0, 4, false, false), Unit(0, LONG)).0 == B1
  {
    assert Init(0, 4, false, false).w[0 := E0] == B1.w;
    assert Extend(B1.w, 1, false) == 1;
    assert Extend(B1.w, 0, false) == 1;
  }

  lemma ArriveShort()
    ensures Insert(B1, Unit(1, SHORT)).0 == B2
  {
    assert B1.w[1 := E1] == B2.w;
    assert {0} + {1} == {0, 1};
    assert Extend(B2.w, 2, false) == 2;
    assert Extend(B2.w, 1, false) == 2;
  }

  lemma ReadThree()
    ensures ReadBuffer(B2, 3, 4) == BufRead(B3, [1, 2, 3], 3)
  {
    var b := BufResult(B3.(bytes := 5, pkts := 2), [1, 2, 3], 0);
    assert [] + [1, 2, 3, 4][0..3] == [1, 2, 3];
    assert BufStep(BufResult(B2, [], 3)) == b;
    assert BufLoop(b, 3) == b;
    assert BufLoop(BufResult(B2, [], 3), 4) == b;
  }

  lemma DropLong()
    ensures DropMessage(B3, 0, 0, 1, true) == (B4, 1)
  {
    var d := DropMsg(B3, true, 0, -1);
    var m := InStream([DROP, E1, EMPTY, EMPTY], 0, 2, 2, 3, 2, 1, {1});
    assert B3.w[0 := DROP] == m.w && B3.taken - {0} == {1};
    assert MarkDrop(B3, 0) == m;
    assert RangeStep(d, 0) == DropMsg(m, false, 1, 0);
    assert DropRange(d, 0, 1, true) == DropMsg(m, false, 1, 0);
    var f := InStream([E1, EMPTY, EMPTY, EMPTY], 1, 1, 1, 3, 2, 1, {1});
    assert m.w[0 := EMPTY][1..] + [EMPTY] == f.w;
    assert FillerFront(m) == f;
    assert ReleaseFillers(f) == f;
    assert ReleaseFillers(m) == f;
    assert Extend(f.w, 1, false) == 1;
    assert Extend(f.w, 0, false) == 1;
  }

  /**
   * The first of two packets of a message is read up to its third byte and then dropped at the sender's request; the
   * notch of three stays on a packet of one byte.
   */
  lemma StrayNotch() returns (vs: seq<Rcv>, ops: seq<Op>)
    ensures IsRun(vs, ops) && vs[0] == Init(0, 4, false, false) && |ops| == 4 && ops[3].OpDropMessage?
    ensures NotchOk(vs[3]) && !NotchOk(vs[4])
    ensures Has(vs[4].w, 0) && |Pkt(vs[4].w, 0).payload| - vs[4].notch == -2
  {
    ArriveLong();
    ArriveShort();
    ReadThree();
    DropLong();
    hide Insert, DropMessage, ReadBuffer;
    vs := [Init(0, 4, false, false), B1, B2, B3, B4];
    ops := [OpInsert(Unit(0, LONG)), OpInsert(Unit(1, SHORT)), OpReadBuffer(3, 4), OpDropMessage(0, 0, 1, true)];
  }
}
