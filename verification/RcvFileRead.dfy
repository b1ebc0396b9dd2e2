/**
 * recvfile in message mode: readBuffer does not count down the order-clear packets that it releases, and the search for
 * a message to read out of order, which counts such packets, may then go round for ever.
 */
module RcvFileRead {
  import opened Packets
  import opened RcvModel
  import opened RcvInvariant
  import opened RcvSound
  import opened RcvIntact
  import opened RcvSearch
  import opened RcvRun
  import opened RcvExamples

  const C1: Rcv := At([Slot(0, false), EMPTY, EMPTY, EMPTY, EMPTY], 0, 1, 1, 0, 1, 1, {0})
  const C2: Rcv := At([EMPTY, EMPTY, EMPTY, EMPTY, EMPTY], 1, 0, 0, 4, 1, 0, {})
  const C3: Rcv := At([EMPTY, EMPTY, Slot(3, true), EMPTY, EMPTY], 1, 0, 3, 4, 1, 1, {3})
  const C4: Rcv := At([EMPTY, Slot(3, true), EMPTY, EMPTY, EMPTY], 2, 0, 2, -1, 1, 1, {3})

  lemma ArriveClear()
    ensures Insert(Init(0, 5, true, false), Unit(0, Solo(0, false))).0 == C1
  {
    assert Init(0, 5, true, false).w[0 := Slot(0, false)] == C1.w;
    assert RunEnd(C1.w, 0) == Some(1);
    assert Extend(C1.w, 1, true) == 1;
    assert Extend(C1.w, 0, true) == 1;
  }

  /** The message stays counted although it is gone. */
  lemma FileReadMiscounts()
    ensures ReadBuffer(C1, 10, 5).v == C2 && C2.numOoo == 1 && forall k :: 0 <= k < |C2.w| ==> C2.w[k].unit.None?
  {
    var b := BufResult(C2.(pkts := 1), [], 10);
    assert C1.w[0 := EMPTY][1..] + [EMPTY] == C2.w;
    assert C1.taken - {0} == {};
    assert FreeFront(C1) == b.v;
    assert BufStep(BufResult(C1, [], 10)) == b;
    assert BufLoop(b, 4) == b;
    assert BufLoop(BufResult(C1, [], 10), 5) == b;
  }

  lemma ArriveOrdered()
    ensures Insert(C2, Unit(3, Solo(3, true))).0 == C3
  {
    assert C2.w[2 := Slot(3, true)] == C3.w;
    assert {} + {3} == {3};
    assert Extend(C3.w, 0, true) == 0;
  }

  lemma DropMissing()
    ensures SearchFrom(C3, OpDropMessage(1, 1, 0, true)) == Some(C4)
  {
    var d := DropMsg(C3, false, 0, -1);
    var m := At([DROP, EMPTY, Slot(3, true), EMPTY, EMPTY], 1, 0, 3, 4, 1, 1, {3});
    assert C3.w[0 := DROP] == m.w;
    assert RangeStep(d, 0) == DropMsg(m, false, 1, 0);
    assert DropRange(d, 0, 1, true) == DropMsg(m, false, 1, 0);
    assert DropMarks(C3, 0, 0, 0, true) == DropMsg(m, false, 1, 0);
    var f := At([EMPTY, Slot(3, true), EMPTY, EMPTY, EMPTY], 2, 4, 2, 3, 1, 1, {3});
    assert m.w[0 := EMPTY][1..] + [EMPTY] == f.w;
    assert FillerFront(m) == f;
    assert ReleaseFillers(f) == f;
    assert ReleaseFillers(m) == f;
    assert Extend(f.w, 0, true) == 0;
  }

  lemma NoneToSee()
    ensures !Skips(C4) && CountIf(C4.w, IsClear) == 0
  {
    assert C4.w[1..] == [Slot(3, true), EMPTY, EMPTY, EMPTY];
    assert C4.w[1..][1..] == [EMPTY, EMPTY, EMPTY];
    assert [EMPTY, EMPTY, EMPTY] == seq(3, _ => EMPTY);
    AllEmpty(3);
    assert CountIf(C4.w[1..], IsClear) == 0;
  }

  lemma FileRun() returns (vs: seq<Rcv>, ops: seq<Op>)
    ensures IsRun(vs, ops) && vs == [Init(0, 5, true, false), C1, C2, C3] && |ops| == 3
  {
    ArriveClear();
    FileReadMiscounts();
    ArriveOrdered();
    hide Insert, ReadBuffer;
    vs := [Init(0, 5, true, false), C1, C2, C3];
    ops := [OpInsert(Unit(0, Solo(0, false))), OpReadBuffer(10, 5), OpInsert(Unit(3, Solo(3, true)))];
  }

  /**
   * A message that may be read out of order arrives and is read into a file, an in-order message arrives behind a gap,
   * and the sender asks to drop a packet of the gap: the search that this call begins never ends.
   */
  lemma HangRun() returns (vs: seq<Rcv>, ops: seq<Op>, op: Op)
    ensures IsRun(vs, ops) && vs[0] == Init(0, 5, true, false) && |ops| == 3
    ensures Usable(vs[3]) && Enabled(vs[3], op) && op.OpDropMessage? && !Returns(vs[3], op)
  {
    hide IsRun, Intact, Returns, SearchFrom, CountIf, Skips;
    vs, ops := FileRun();
    op := OpDropMessage(1, 1, 0, true);
    DropMissing();
    NoneToSee();
    InitStruct(0, 5, true, false);
    StructSound(vs[0]);
    SoundIntact(vs[0]);
    RunIntact(vs, ops, 3, 0);
    ReturnsIff(vs[3], op, TotalExtra(vs, ops, 3));
  }
}
