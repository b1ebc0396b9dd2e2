/**
 * Whole runs in stream mode with drops: as long as every step meets the conditions of RcvStreamDrops, what is readable
 * is stored, the notch lies inside the packet at the start, and no readBuffer meets a null unit.
 */
module RcvStreamRun {
  import opened SeqNo
  import opened RcvModel
  import opened RcvInvariant
  import opened RcvSound
  import opened RcvRun
  import opened RcvStreamDrops

  ghost predicate ReadableInv(v: Rcv) {
    !v.messageApi && Sound(v) && Prefix(v) && NotchOk(v)
  }

  ghost predicate DropFits(v: Rcv, seqno: int) {
    var len := SeqOff(v.StartSeqNo(), seqno); len <= 0 || v.notch == 0 || NotchFits(v.w, len, v.notch)
  }

  /** The condition on a step, to be looked at before it. */
  ghost predicate Harmless(v: Rcv, op: Op)
    requires Usable(v) && Enabled(v, op)
  {
    match op
    case OpInsert(_) => true
    case OpReadMessage(_) => v.nonread == 0 || v.notch == 0 || NotchFits(v.w, ReadEnd(v.w, 0), v.notch)
    case OpDropUpTo(seqno) => DropFits(v, seqno)
    case OpDropAll => v.maxOff == 0 || DropFits(v, IncSeqBy(v.StartSeqNo(), v.maxOff))
    case OpDropMessage(lo, hi, msgno, keep) =>
      var a, b := SeqOff(v.StartSeqNo(), lo), SeqOff(v.StartSeqNo(), hi);
      b < 0 || a >= |v.w| ||
      ((!IsFiller(v.w[0]) || (IsRead(v.w[0]) && a <= 0)) &&
       (v.notch == 0 || NotchSurvives(v.w, a, b, msgno, keep, v.notch)))
    case OpReadBuffer(_, _) => true
  }

  // ------------------------------------------------------------------ insert

  lemma PlacedPrefix(v: Rcv, u: Unit, k: int)
    requires Prefix(v) && 0 <= k < |v.w| && v.w[k].unit.None?
    ensures Prefix(Placed(v, u, k))
  {
    PlacedIs(v, u, k);
    hide Placed;
  }

  lemma InsertReadable(v: Rcv, u: Unit)
    requires ReadableInv(v) && Enabled(v, OpInsert(u))
    ensures Usable(v) && ReadableInv(Insert(v, u).0)
  {
    InsertSound(v, u);
    CoreRanged(v);
    var k := InsertOffset(v, u);
    if 0 <= k < |v.w| - 1 {
      var v0 := v.(maxOff := Max(v.maxOff, k + 1));
      if v.w[k].status == Empty {
        assert v.w[k].unit.None?;
        SeqOffLands(v.isn + v.base, u.packet.seqno);
        CoreMax(v, v0.maxOff);
        PlacedPrefix(v0, u, k);
        PlacedSound(v0, u, k);
        PlacedIs(v0, u, k);
        hide Core, Bounded, Placed, Prefix;
        UpdateNonreadStruct(Placed(v0, u, k));
        KeptFront(v, UpdateNonread(Placed(v0, u, k)), k);
      }
    }
  }

  /** A new packet elsewhere leaves the notch where it is. */
  lemma KeptFront(v: Rcv, v': Rcv, k: int)
    requires NotchOk(v) && v'.notch == v.notch && |v'.w| == |v.w| && 0 <= k < |v.w| && v.w[k].unit.None?
    requires forall j :: 0 <= j < |v.w| && j != k ==> v'.w[j] == v.w[j]
    ensures NotchOk(v')
  {
  }

  // ------------------------------------------------------------------ drops

  lemma DropUpToReadable(v: Rcv, seqno: int)
    requires ReadableInv(v)
    ensures Usable(v) && (ReadableInv(DropUpTo(v, seqno).v) <==> DropFits(v, seqno))
  {
    DropUpToNotchIff(v, seqno);
    DropUpToSound(v, seqno);
    DropUpToPrefix(v, seqno);
    CoreRanged(v);
    hide Core, Bounded, Prefix, NotchOk, DropUpTo;
  }

  lemma DropUpToPrefix(v: Rcv, seqno: int)
    requires Sound(v) && Prefix(v)
    ensures |v.w| > 0 && Prefix(DropUpTo(v, seqno).v)
  {
    hide Counts;
    var len := SeqOff(v.StartSeqNo(), seqno);
    if len > 0 {
      var v1 := DropN(DropUp(v.(maxOff := Max(0, v.maxOff - len)), 0, 0), len).v;
      DropNStruct(v, len);
      Overtaken(v, v1, len);
      if len <= v.nonread {
        ShiftPrefix(v, v1, len);
      }
      hide Core, DropN, AfterDrop;
      AfterDropStruct(v1);
    }
  }

  // ------------------------------------------------------------------ reads

  lemma ConsumedWindow(v: Rcv, e: int)
    requires Core(v) && e == ReadEnd(v.w, 0)
    ensures Consumed(v, 0, e).w == Shifted(v.w, e) && Consumed(v, 0, e).notch == v.notch
  {
    ReadFrontNPops(v, e);
    hide Core, ReadFrontN, Payloads, Shifted;
  }

  lemma AfterReadNotch(v: Rcv)
    requires Core(v) && Bounded(v)
    ensures NotchOk(AfterRead(v)) == NotchOk(ReleaseFillers(v))
  {
    hide Core, NotchOk, ReleaseFillers, FindOoo;
    CoreRanged(v);
    SameNotch(ReleaseFillers(v), AfterRead(v));
  }

  /** In stream mode readMessage reads at the start or nothing, and never looks at the notch. */
  lemma ReadMessageReadable(v: Rcv, len: nat)
    requires ReadableInv(v)
    ensures Usable(v)
    ensures ReadableInv(ReadMessage(v, len).v) <==>
            v.nonread == 0 || v.notch == 0 || NotchFits(v.w, ReadEnd(v.w, 0), v.notch)
  {
    CoreRanged(v);
    if v.nonread > 0 {
      assert Struct(v);
      ReadMessageStruct(v, len);
      hide Core, Bounded, Prefix, NotchOk, NotchFits, Consumed, AfterRead;
      var e := ReadEnd(v.w, 0);
      ConsumedStruct(v, 0, e);
      ConsumedWindow(v, e);
      NotchNat(v);
      AfterReadNotch(Consumed(v, 0, e));
      ReleasedNotch(Consumed(v, 0, e));
      FitsShifted(v.w, e, v.notch);
    }
  }

  lemma BufStepNotch(b: BufResult)
    requires Has(b.v.w, 0) && NotchOk(b.v) && b.rs > 0
    ensures NotchOk(BufStep(b).v) && 0 <= BufStep(b).rs <= b.rs
  {
    hide FreeFront;
    FreeFrontWindow(b.v);
  }

  /** The notch stays inside, and the bytes wanted never become more. */
  lemma {:induction false} BufLoopNotch(b: BufResult, stop: nat)
    requires 0 <= b.v.nonread < |b.v.w| && NotchOk(b.v)
    ensures NotchOk(BufLoop(b, stop).v) && BufLoop(b, stop).rs <= b.rs
    decreases b.v.nonread, b.rs
  {
    hide BufStep, NotchOk, FreeFront;
    if b.v.nonread > 0 && b.rs > 0 && b.v.w[0].unit.Some? && stop > 0 {
      NotchNat(b.v);
      BufStepIs(b);
      FreeFrontWindow(b.v);
      BufStepNotch(b);
      BufLoopNotch(BufStep(b), stop - 1);
    } else {
      NotchNat(b.v);
    }
  }

  lemma ReadBufferReadable(v: Rcv, len: int, stop: nat)
    requires ReadableInv(v)
    ensures Usable(v) && ReadableInv(ReadBuffer(v, len, stop).v) && ReadBuffer(v, len, stop).ret >= 0
  {
    ReadBufferSound(v, len, stop);
    ReadKeepsPrefix(v, len, stop);
    BufLoopNotch(BufResult(v, [], len), stop);
    hide Core, Bounded, Prefix, NotchOk, BufLoop, NullMet;
    SameNotch(BufLoop(BufResult(v, [], len), stop).v, ReadBuffer(v, len, stop).v);
  }

  // ------------------------------------------------------------------ whole runs

  /** A step keeps what is readable readable, and the notch inside, if and only if it is harmless. */
  lemma StepReadableIff(v: Rcv, op: Op)
    requires ReadableInv(v) && Usable(v) && Enabled(v, op)
    ensures ReadableInv(Step(v, op)) <==> Harmless(v, op)
  {
    match op
    case OpInsert(u) => InsertReadable(v, u);
    case OpReadMessage(len) => ReadMessageReadable(v, len);
    case OpDropUpTo(seqno) => DropUpToReadable(v, seqno);
    case OpDropAll =>
      if v.maxOff != 0 {
        WrapIncBy(v.isn + v.base, v.maxOff);
        DropUpToReadable(v, IncSeqBy(v.StartSeqNo(), v.maxOff));
      }
    case OpDropMessage(lo, hi, msgno, keep) =>
      DropMessageSound(v, lo, hi, msgno, keep);
      DropKeepsPrefixIff(v, lo, hi, msgno, keep);
      DropMessageNotchIff(v, lo, hi, msgno, keep);
    case OpReadBuffer(len, stop) => ReadBufferReadable(v, len, stop);
  }

  /**
   * In every state of every run in stream mode whose steps are harmless: everything before the first non-readable
   * position is stored, the notch lies inside the packet at the start, and a readBuffer does not return -1.
   */
  lemma {:induction false} StreamRunReadable(vs: seq<Rcv>, ops: seq<Op>, n: nat)
    requires IsRun(vs, ops) && ReadableInv(vs[0]) && n < |vs|
    requires forall i :: 0 <= i < n ==> Harmless(vs[i], ops[i])
    ensures ReadableInv(vs[n]) && Usable(vs[n])
    ensures forall len: int, stop: nat :: ReadBuffer(vs[n], len, stop).ret >= 0
  {
    hide ReadableInv, Step, Harmless, ReadBuffer, Returns;
    if n > 0 {
      StreamRunReadable(vs, ops, n - 1);
      StepReadableIff(vs[n - 1], ops[n - 1]);
    }
    ReadBufferReadable(vs[n], 0, 0);
    forall len: int, stop: nat
      ensures ReadBuffer(vs[n], len, stop).ret >= 0
    {
      ReadBufferReadable(vs[n], len, stop);
    }
  }

  lemma InitReadable(isn: nat, size: nat, tsbpd: bool)
    requires 0 < size < MAX_SEQNO
    ensures ReadableInv(Init(isn, size, false, tsbpd))
  {
    InitStruct(isn, size, false, tsbpd);
  }

  /** Every state up to the n-th is readable if and only if every step before it is harmless. */
  lemma StreamRunIff(vs: seq<Rcv>, ops: seq<Op>, n: nat)
    requires IsRun(vs, ops) && ReadableInv(vs[0]) && n < |vs|
    ensures (forall i :: 0 <= i <= n ==> ReadableInv(vs[i])) <==> (forall i :: 0 <= i < n ==> Harmless(vs[i], ops[i]))
  {
    hide ReadableInv, Step, Harmless, Returns;
    if forall i :: 0 <= i <= n ==> ReadableInv(vs[i]) {
      forall i | 0 <= i < n
        ensures Harmless(vs[i], ops[i])
      {
        assert ReadableInv(vs[i]) && ReadableInv(vs[i + 1]);
        StepReadableIff(vs[i], ops[i]);
      }
    }
    if forall i :: 0 <= i < n ==> Harmless(vs[i], ops[i]) {
      forall i | 0 <= i <= n
        ensures ReadableInv(vs[i])
      {
        StreamRunReadable(vs, ops, i);
      }
    }
  }
}
