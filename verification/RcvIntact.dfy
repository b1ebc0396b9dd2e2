/**
 * The invariant with a count of order-clear packets that is too high by x. Every operation in every mode keeps it, and
 * only readBuffer in message mode changes x: it does not count down the order-clear packets that it releases.
 */
module RcvIntact {
  import opened SeqNo
  import opened RcvModel
  import opened RcvInvariant
  import opened RcvSound

  /** The state with the count set right and without a recorded message. */
  function Clean(v: Rcv): Rcv {
    v.(numOoo := if v.TracksOrder() then CountIf(v.w, IsClear) else 0, ooo := -1)
  }

  /** Where order is not tracked nothing is counted or recorded; elsewhere the record is an offset or -1. */
  ghost predicate RecordInRange(v: Rcv) {
    if v.TracksOrder() then -1 <= v.ooo < |v.w| else v.ooo == -1 && v.numOoo == 0
  }

  /** What also holds inside the loops. */
  ghost predicate Loose(v: Rcv, x: nat) {
    Core(Clean(v)) && RecordInRange(v) && v.numOoo == Clean(v).numOoo + x
  }

  ghost predicate Intact(v: Rcv, x: nat) {
    Loose(v, x) && Bounded(v)
  }

  /** What that says: the five clauses, and that all positions are offsets into the window. */
  lemma IntactSays(v: Rcv, x: nat)
    requires Intact(v, x)
    ensures 0 <= v.maxOff < |v.w|
    ensures forall k :: 0 <= k < |v.w| ==> (v.w[k].unit.Some? <==> v.w[k].status == Avail)
    ensures forall k :: 0 <= k < |v.w| && v.w[k].unit.Some? ==> k < v.maxOff
    ensures forall k :: 0 <= k < |v.w| && v.w[k].unit.Some? ==>
              v.w[k].unit.value.packet.seqno == Wrap(v.isn + v.base + k)
    ensures HoldsTaken(v.w, v.taken)
    ensures Usable(v) && v.w[|v.w| - 1] == EMPTY
    ensures v.TracksOrder() ==> v.numOoo == CountIf(v.w, IsClear) + x
  {
    hide HoldsTaken, CountIf;
    var u := Clean(v);
    assert EntriesOk(u.w, u.isn + u.base);
    assert forall k :: 0 <= k < |v.w| ==> EntryOk(v.w[k], v.isn + v.base + k);
  }

  lemma OneExcess(v: Rcv, x: nat, y: nat)
    requires Intact(v, x) && Intact(v, y)
    ensures x == y
  {
  }

  /** With nothing counted too many it is the invariant of RcvSound. */
  lemma SoundIntact(v: Rcv)
    ensures Sound(v) <==> Intact(v, 0)
  {
    hide HoldsTaken, CountIf, EntriesOk;
  }

  /** The two states differ in the count, which is higher by x, and in the record only. */
  ghost predicate Like(v: Rcv, u: Rcv, x: nat) {
    v == u.(numOoo := u.numOoo + x, ooo := v.ooo) && RecordInRange(v)
  }

  lemma LikeClean(v: Rcv, x: nat)
    requires Intact(v, x)
    ensures Like(v, Clean(v), x) && Sound(Clean(v)) && Usable(v)
  {
    hide CountIf;
  }

  lemma LikeIntact(v: Rcv, u: Rcv, x: nat)
    requires Like(v, u, x) && Sound(u)
    ensures Intact(v, x)
  {
  }

  lemma LooseClean(v: Rcv, x: nat)
    requires Loose(v, x)
    ensures Like(v, Clean(v), x) && Core(Clean(v)) && Usable(v)
  {
    hide CountIf;
  }

  lemma LikeLoose(v: Rcv, u: Rcv, x: nat)
    requires Like(v, u, x) && Core(u)
    ensures Loose(v, x)
  {
  }

  // ------------------------------------------------------------------ single steps

  lemma LikeDropFront(v: Rcv, u: Rcv, x: nat)
    requires Like(v, u, x) && |u.w| > 0
    ensures Like(DropFront(v), DropFront(u), x) && |DropFront(u).w| > 0
  {
  }

  lemma LikeFillerFront(v: Rcv, u: Rcv, x: nat)
    requires Like(v, u, x) && |u.w| > 0
    ensures Like(FillerFront(v), FillerFront(u), x)
  {
  }

  lemma LikeReadFront(v: Rcv, u: Rcv, x: nat)
    requires Like(v, u, x) && |u.w| > 0
    ensures Like(ReadFront(v), ReadFront(u), x)
  {
  }

  lemma LikeReadAt(v: Rcv, u: Rcv, k: int, x: nat)
    requires Like(v, u, x) && 0 <= k < |u.w|
    ensures Like(ReadAt(v, k), ReadAt(u, k), x)
  {
  }

  lemma LikeMarkDrop(v: Rcv, u: Rcv, k: int, x: nat)
    requires Like(v, u, x) && 0 <= k < |u.w|
    ensures Like(MarkDrop(v, k), MarkDrop(u, k), x)
  {
  }

  lemma DropFrontLoose(v: Rcv, x: nat)
    requires Loose(v, x)
    ensures |v.w| > 0 && Loose(DropFront(v), x)
  {
    hide Core, Loose, DropFront, CountIf;
    LooseClean(v, x);
    DropFrontCore(Clean(v));
    LikeDropFront(v, Clean(v), x);
    LikeLoose(DropFront(v), DropFront(Clean(v)), x);
  }

  lemma FillerFrontLoose(v: Rcv, x: nat)
    requires Loose(v, x) && |v.w| > 0 && IsFiller(v.w[0])
    ensures Loose(FillerFront(v), x)
  {
    hide Core, Loose, FillerFront, CountIf;
    LooseClean(v, x);
    FillerFrontCore(Clean(v));
    LikeFillerFront(v, Clean(v), x);
    LikeLoose(FillerFront(v), FillerFront(Clean(v)), x);
  }

  lemma ReadFrontLoose(v: Rcv, x: nat)
    requires Loose(v, x) && Has(v.w, 0)
    ensures Loose(ReadFront(v), x)
  {
    hide Core, Loose, ReadFront, CountIf;
    LooseClean(v, x);
    ReadFrontPops(Clean(v));
    LikeReadFront(v, Clean(v), x);
    LikeLoose(ReadFront(v), ReadFront(Clean(v)), x);
  }

  lemma ReadAtLoose(v: Rcv, k: int, x: nat)
    requires Loose(v, x) && Has(v.w, k)
    ensures Loose(ReadAt(v, k), x) && |ReadAt(v, k).w| == |v.w|
  {
    hide Core, Loose, CountIf;
    LooseClean(v, x);
    LooseStored(v, k, x);
    TakeOutCore(Clean(v), k);
    MarkCore(TakeOut(Clean(v), k), k, Read);
    LikeReadAt(v, Clean(v), k, x);
    LikeLoose(ReadAt(v, k), ReadAt(Clean(v), k), x);
  }

  lemma MarkDropLoose(v: Rcv, k: int, x: nat)
    requires Loose(v, x) && 0 <= k < |v.w| - 1
    ensures Loose(MarkDrop(v, k), x)
  {
    hide Core, Loose, MarkDrop, CountIf;
    LooseClean(v, x);
    MarkDropCore(Clean(v), k);
    LikeMarkDrop(v, Clean(v), k, x);
    LikeLoose(MarkDrop(v, k), MarkDrop(Clean(v), k), x);
  }

  /** A stored unit is taken and carries its slot's number, and if it is order-clear it is counted. */
  lemma LooseStored(v: Rcv, k: int, x: nat)
    requires Loose(v, x) && Has(v.w, k)
    ensures v.w[k].unit.value.id in v.taken && k < |v.w| - 1
    ensures Pkt(v.w, k).seqno == Wrap(v.isn + v.base + k)
    ensures if v.TracksOrder() then !Pkt(v.w, k).inorder ==> v.numOoo > 0 else v.numOoo == 0
  {
    StoredIsTaken(v.w, v.taken, k);
    CountUpdate(v.w, k, EMPTY, IsClear);
    hide HoldsTaken, CountIf;
  }

  /** A slot holds a unit exactly when it is Avail. */
  lemma LooseAvail(v: Rcv, k: int, x: nat)
    requires Loose(v, x) && 0 <= k < |v.w|
    ensures v.w[k].unit.Some? <==> v.w[k].status == Avail
  {
    hide HoldsTaken, CountIf;
  }

  lemma LooseRanged(v: Rcv, x: nat)
    requires Loose(v, x)
    ensures Usable(v) && v.w[|v.w| - 1] == EMPTY && |v.w| < MAX_SEQNO
  {
    hide HoldsTaken, CountIf, EntriesOk;
  }

  lemma IntactFacts(v: Rcv, x: nat)
    requires Intact(v, x)
    ensures 0 <= v.maxOff < |v.w| && forall k :: 0 <= k < |v.w| && v.w[k].unit.Some? ==> k < v.maxOff
    ensures Loose(v, x)
  {
    hide Loose;
  }

  // ------------------------------------------------------------------ the loops do not look at count and record

  lemma {:induction false} LikeDropN(d: DropUp, e: DropUp, len: nat, x: nat)
    requires Like(d.v, e.v, x) && |e.v.w| > 0
    ensures Like(DropN(d, len).v, DropN(e, len).v, x)
    decreases len
  {
    if len > 0 {
      LikeDropFront(d.v, e.v, x);
      hide DropFront, Like;
      LikeDropN(DropStep(d), DropStep(e), len - 1, x);
    }
  }

  lemma {:induction false} LikeReleaseFillers(v: Rcv, u: Rcv, x: nat)
    requires Like(v, u, x) && |u.w| > 0
    ensures Like(ReleaseFillers(v), ReleaseFillers(u), x)
    decreases CountIf(u.w, IsFiller)
  {
    if IsFiller(u.w[0]) {
      CountUpdate(u.w, 0, EMPTY, IsFiller);
      CountRotate(u.w[0 := EMPTY], IsFiller);
      LikeReleaseFillers(FillerFront(v), FillerFront(u), x);
    }
  }

  lemma {:induction false} LikeReadFrontN(v: Rcv, u: Rcv, n: nat, x: nat)
    requires Like(v, u, x) && |u.w| > 0
    ensures Like(ReadFrontN(v, n), ReadFrontN(u, n), x)
    decreases n
  {
    if n > 0 {
      LikeReadFrontN(ReadFront(v), ReadFront(u), n - 1, x);
    }
  }

  lemma {:induction false} LikeReadRange(v: Rcv, u: Rcv, r: int, e: int, x: nat)
    requires Like(v, u, x) && 0 <= r <= e <= |u.w|
    ensures Like(ReadRange(v, r, e), ReadRange(u, r, e), x)
    decreases e - r
  {
    if r < e {
      LikeReadRange(ReadAt(v, r), ReadAt(u, r), r + 1, e, x);
    }
  }

  ghost predicate LikeMsg(d: DropMsg, e: DropMsg, x: nat) {
    Like(d.v, e.v, x) && d == e.(v := d.v)
  }

  lemma {:induction false} LikeDropRange(d: DropMsg, e: DropMsg, i: int, end: int, keep: bool, x: nat)
    requires LikeMsg(d, e, x) && 0 <= i <= end <= |e.v.w|
    ensures LikeMsg(DropRange(d, i, end, keep), DropRange(e, i, end, keep), x)
    decreases end - i
  {
    if i < end {
      if e.v.w[i].status == Drop {
        LikeDropRange(d, e, i + 1, end, keep, x);
      } else if KeptSolo(e.v, i, keep) {
        LikeDropRange(d.(byMsgNo := false), e.(byMsgNo := false), i + 1, end, keep, x);
      } else {
        LikeMarkDrop(d.v, e.v, i, x);
        hide MarkDrop;
        LikeDropRange(RangeStep(d, i), RangeStep(e, i), i + 1, end, keep, x);
      }
    }
  }

  lemma {:induction false} LikeDropBack(d: DropMsg, e: DropMsg, i: int, msgno: int, keep: bool, x: nat)
    requires LikeMsg(d, e, x) && i < |e.v.w|
    ensures LikeMsg(DropBack(d, i, msgno, keep), DropBack(e, i, msgno, keep), x)
    decreases i + 1
  {
    if i >= 0 {
      if !Has(e.v.w, i) {
        LikeDropBack(d, e, i - 1, msgno, keep, x);
      } else if Pkt(e.v.w, i).msgno == msgno && !KeptSolo(e.v, i, keep) {
        LikeMarkDrop(d.v, e.v, i, x);
        hide MarkDrop;
        LikeDropBack(BackStep(d, i), BackStep(e, i), i - 1, msgno, keep, x);
      }
    }
  }

  // ------------------------------------------------------------------ what follows the loops

  lemma UpdateNonreadIntact(v: Rcv, x: nat)
    requires Intact(v, x)
    ensures 0 <= v.nonread <= |v.w| && Intact(UpdateNonread(v), x)
  {
    hide Sound, Extend;
    LikeClean(v, x);
    UpdateNonreadSound(Clean(v));
    LikeIntact(UpdateNonread(v), UpdateNonread(Clean(v)), x);
  }

  lemma UpdateOooIntact(v: Rcv, x: nat)
    requires Intact(v, x)
    ensures Intact(UpdateOoo(v), x)
  {
    hide Sound, FindOoo, CountIf;
    LikeClean(v, x);
    FindOooRange(v.w, 0);
    LikeIntact(UpdateOoo(v), Clean(v), x);
  }

  lemma ReleasedIntact(v: Rcv, x: nat)
    requires Intact(v, x)
    ensures |v.w| > 0 && Intact(ReleaseFillers(v), x) && Usable(ReleaseFillers(v))
  {
    hide Core, Bounded, ReleaseFillers;
    LikeClean(v, x);
    MarkedReleased(Clean(v));
    LikeReleaseFillers(v, Clean(v), x);
    LikeIntact(ReleaseFillers(v), ReleaseFillers(Clean(v)), x);
    LikeClean(ReleaseFillers(v), x);
  }

  lemma NonreadIntact(v: Rcv, k: int, x: nat)
    requires Intact(v, x) && 0 <= k < |v.w|
    ensures Intact(v.(nonread := k), x)
  {
    hide Core;
    CoreNonread(Clean(v), k);
  }

  lemma RecordIntact(v: Rcv, k: int, x: nat)
    requires Intact(v, x) && (if v.TracksOrder() then -1 <= k < |v.w| else k == -1)
    ensures Intact(v.(ooo := k), x)
  {
    hide Core, CountIf;
  }

  lemma CountersIntact(v: Rcv, bytes: int, pkts: int, x: nat)
    requires Intact(v, x)
    ensures Intact(v.(bytes := bytes, pkts := pkts), x)
  {
    hide Core, CountIf;
    CoreCounters(Clean(v), bytes, pkts);
  }

  // ------------------------------------------------------------------ the operations

  lemma HigherIntact(v: Rcv, m: int, x: nat)
    requires Intact(v, x) && v.maxOff <= m < |v.w|
    ensures Intact(v.(maxOff := m), x)
  {
    hide Core, CountIf;
    CoreMax(Clean(v), m);
  }

  lemma LowerLoose(v: Rcv, m: int, x: nat)
    requires Loose(v, x)
    ensures Loose(v.(maxOff := m), x)
  {
    hide Core, CountIf;
    CoreMax(Clean(v), m);
  }

  lemma PlacedIntact(v: Rcv, u: Unit, k: int, x: nat)
    requires Intact(v, x) && 0 <= k < v.maxOff && k < |v.w| && v.w[k].status == Empty
    requires u.id !in v.taken && u.packet.seqno == Wrap(v.isn + v.base + k)
    ensures Intact(Stored(v, u, k), x) && Intact(Placed(v, u, k), x) && Usable(Placed(v, u, k))
  {
    hide Core, Placed, Wrap, CountIf;
    LikeClean(v, x);
    var c := Clean(v);
    PlacedSound(c, u, k);
    PlacedIs(v, u, k);
    LikeIntact(Stored(v, u, k), Stored(c, u, k), x);
    LikeIntact(Placed(v, u, k), Stored(c, u, k), x);
    LikeClean(Placed(v, u, k), x);
  }

  lemma InsertIntact(v: Rcv, u: Unit, x: nat)
    requires Intact(v, x) && ValidSeqNo(u.packet.seqno) && u.id !in v.taken
    ensures Usable(v) && Intact(Insert(v, u).0, x)
  {
    hide Intact, Placed, Wrap, UpdateNonread;
    LikeClean(v, x);
    var k := InsertOffset(v, u);
    if 0 <= k < |v.w| - 1 {
      SeqOffLands(v.isn + v.base, u.packet.seqno);
      var v0 := v.(maxOff := Max(v.maxOff, k + 1));
      IntactFacts(v, x);
      HigherIntact(v, v0.maxOff, x);
      if v.w[k].status == Empty {
        PlacedIntact(v0, u, k, x);
        UpdateNonreadIntact(Placed(v0, u, k), x);
      }
    }
  }

  lemma DropSettledIntact(v: Rcv, x: nat)
    requires Intact(v, x)
    ensures |v.w| > 0 && Intact(DropSettled(v), x)
  {
    hide Intact, ReleaseFillers, UpdateNonread;
    ReleasedIntact(v, x);
    var v1 := ReleaseFillers(v);
    NonreadIntact(v1, 0, x);
    UpdateNonreadIntact(v1.(nonread := 0), x);
  }

  /** dropUpTo once the start has moved. */
  lemma PassedIntact(v: Rcv, len: nat, x: nat)
    requires Intact(v, x) && len > 0
    ensures |v.w| > 0 && Intact(DropN(DropUp(v.(maxOff := Max(0, v.maxOff - len)), 0, 0), len).v, x)
  {
    hide Core, Bounded, DropN;
    LikeClean(v, x);
    var m := Max(0, v.maxOff - len);
    var d, e := DropUp(v.(maxOff := m), 0, 0), DropUp(Clean(v).(maxOff := m), 0, 0);
    DropNStruct(Clean(v), len);
    LikeDropN(d, e, len, x);
    LikeIntact(DropN(d, len).v, DropN(e, len).v, x);
  }

  lemma DropUpToIntact(v: Rcv, seqno: int, x: nat)
    requires Intact(v, x)
    ensures Usable(v) && Intact(DropUpTo(v, seqno).v, x)
  {
    hide Intact, DropN, DropSettled, UpdateOoo;
    LikeClean(v, x);
    var len := SeqOff(v.StartSeqNo(), seqno);
    if len > 0 {
      PassedIntact(v, len, x);
      var v1 := DropN(DropUp(v.(maxOff := Max(0, v.maxOff - len)), 0, 0), len).v;
      DropSettledIntact(v1, x);
      UpdateOooIntact(DropSettled(v1), x);
    }
  }

  lemma MarksSettledIntact(v: Rcv, need: bool, x: nat)
    requires Intact(v, x)
    ensures |v.w| > 0 && Intact(MarksSettled(v, need), x)
  {
    hide Intact, ReleaseFillers, UpdateNonread, CheckOoo;
    ReleasedIntact(v, x);
    var v1 := ReleaseFillers(v);
    NonreadIntact(v1, 0, x);
    UpdateNonreadIntact(v1.(nonread := 0), x);
    RecordIntact(if need then UpdateNonread(v1.(nonread := 0)) else v1, -1, x);
  }

  lemma MarksIntact(v: Rcv, a: int, b: int, msgno: int, keep: bool, x: nat)
    requires Intact(v, x) && a <= b && 0 <= b && a < |v.w|
    ensures |v.w| > 0 && Intact(DropMarks(v, a, b, msgno, keep).v, x)
  {
    hide Core, Bounded, DropRange, DropBack, Marked, CountIf;
    LikeClean(v, x);
    var c, lo, end := Clean(v), Max(0, a), Min(|v.w| - 1, b + 1);
    var d, e := DropMsg(v, msgno > 0, 0, -1), DropMsg(c, msgno > 0, 0, -1);
    DropMarksMarked(c, a, b, msgno, keep);
    MarkedBounded(c, DropMarks(c, a, b, msgno, keep));
    LikeDropRange(d, e, lo, end, keep, x);
    LikeDropBack(DropRange(d, lo, end, keep), DropRange(e, lo, end, keep), lo, msgno, keep, x);
    LikeIntact(DropMarks(v, a, b, msgno, keep).v, DropMarks(c, a, b, msgno, keep).v, x);
  }

  lemma DropMessageIntact(v: Rcv, seqnolo: int, seqnohi: int, msgno: int, keep: bool, x: nat)
    requires Intact(v, x) && SeqOff(v.StartSeqNo(), seqnolo) <= SeqOff(v.StartSeqNo(), seqnohi)
    ensures Usable(v) && Intact(DropMessage(v, seqnolo, seqnohi, msgno, keep).0, x)
  {
    hide Intact, DropMarks, MarksSettled, UpdateOoo;
    LikeClean(v, x);
    var a, b := SeqOff(v.StartSeqNo(), seqnolo), SeqOff(v.StartSeqNo(), seqnohi);
    if b >= 0 && a < |v.w| {
      MarksIntact(v, a, b, msgno, keep, x);
      var d := DropMarks(v, a, b, msgno, keep);
      var need := d.minOff != -1 && d.minOff <= v.nonread;
      MarksSettledIntact(d.v, need, x);
      UpdateOooIntact(MarksSettled(d.v, need), x);
    }
  }

  lemma TakenIntact(v: Rcv, r: int, e: int, x: nat)
    requires Intact(v, x) && 0 <= r < |v.w| && e == ReadEnd(v.w, r)
    ensures |v.w| > 0 && Intact(if r == 0 then ReadFrontN(v, e) else ReadRange(v, r, e), x)
  {
    hide Core, Bounded, ReadFrontN, ReadRange, CountIf;
    LikeClean(v, x);
    var c := Clean(v);
    ReadEndShort(c, r);
    if r == 0 {
      ReadFrontNSound(c, e);
      LikeReadFrontN(v, c, e, x);
      LikeIntact(ReadFrontN(v, e), ReadFrontN(c, e), x);
    } else {
      ReadRangeSound(c, r, e);
      LikeReadRange(v, c, r, e, x);
      LikeIntact(ReadRange(v, r, e), ReadRange(c, r, e), x);
    }
  }

  lemma ConsumedIntact(v: Rcv, r: int, e: int, x: nat)
    requires Intact(v, x) && 0 <= r < |v.w| && e == ReadEnd(v.w, r)
    ensures |v.w| > 0 && Intact(Consumed(v, r, e), x)
  {
    hide Intact, ReadFrontN, ReadRange, Payloads;
    TakenIntact(v, r, e, x);
    var v1 := if r == 0 then ReadFrontN(v, e) else ReadRange(v, r, e);
    LikeClean(v1, x);
    RecordIntact(v1, -1, x);
    var c := Consumed(v, r, e);
    CountersIntact(v1, c.bytes, c.pkts, x);
    CountersIntact(v1.(ooo := -1), c.bytes, c.pkts, x);
  }

  lemma ReadSettledIntact(v: Rcv, x: nat)
    requires Intact(v, x)
    ensures |v.w| > 0 && Intact(ReadSettled(v), x)
  {
    hide Intact, ReleaseFillers;
    ReleasedIntact(v, x);
    NonreadIntact(ReleaseFillers(v), 0, x);
  }

  lemma ReadMessageIntact(v: Rcv, len: nat, x: nat)
    requires Intact(v, x)
    ensures Usable(v) && Intact(ReadMessage(v, len).v, x)
  {
    hide Intact, Consumed, ReadSettled, UpdateOoo, Payloads, ReadEnd;
    LikeClean(v, x);
    var r := ReadPos(v);
    if r >= 0 {
      ConsumedIntact(v, r, ReadEnd(v.w, r), x);
      ReadSettledIntact(Consumed(v, r, ReadEnd(v.w, r)), x);
      UpdateOooIntact(ReadSettled(Consumed(v, r, ReadEnd(v.w, r))), x);
    }
  }

  // ------------------------------------------------------------------ readBuffer

  /** How many of the first f packets are order-clear ones that ought to be counted down. */
  function Uncounted(v: Rcv, f: nat): nat
    requires f <= |v.w|
  {
    if v.TracksOrder() then CountIf(v.w[..f], IsClear) else 0
  }

  lemma UncountedStep(v: Rcv, v1: Rcv, f: nat)
    requires f < |v.w| && v1.w == v.w[1..] + [EMPTY] && v1.TracksOrder() == v.TracksOrder()
    ensures Uncounted(v, 0) == 0 && Uncounted(v, f + 1) == Uncounted(v, 1) + Uncounted(v1, f)
  {
    assert v.w[..f + 1] == v.w[..1] + v1.w[..f];
    CountConcat(v.w[..1], v1.w[..f], IsClear);
  }

  lemma UncountedOne(v: Rcv)
    requires |v.w| > 0
    ensures Uncounted(v, 1) == if v.TracksOrder() && IsClear(v.w[0]) then 1 else 0
    ensures Uncounted(v, 0) == 0
  {
    assert v.w[..1] == [v.w[0]];
    OneEntry(v.w[0]);
  }

  /** A release in readBuffer leaves an order-clear packet counted. */
  lemma FreeFrontIntact(v: Rcv, x: nat)
    requires Intact(v, x) && Has(v.w, 0)
    ensures Intact(FreeFront(v), x + Uncounted(v, 1))
  {
    hide Counts, CountIf;
    LikeClean(v, x);
    UncountedOne(v);
    hide Uncounted;
    var c := Clean(v);
    ReadFrontPops(c);
    ShiftBounded(c, ReadFront(c), 1);
    NotchCore(ReadFront(c), 0);
    LikeIntact(FreeFront(v), ReadFront(c).(notch := 0), x + Uncounted(v, 1));
  }

  lemma NotchIntact(v: Rcv, n: nat, x: nat)
    requires Intact(v, x)
    ensures Intact(v.(notch := n), x)
  {
    hide Core, CountIf;
    NotchCore(Clean(v), n);
  }

  /** The excess after one iteration of readBufferTo. */
  function BufExcess(b: BufResult, x: nat): nat
    requires Has(b.v.w, 0)
  {
    if b.rs < |Pkt(b.v.w, 0).payload| - b.v.notch then x else x + Uncounted(b.v, 1)
  }

  lemma BufStepIntact(b: BufResult, x: nat)
    requires Intact(b.v, x) && Has(b.v.w, 0) && b.rs > 0
    ensures 0 <= b.v.notch && Intact(BufStep(b).v, BufExcess(b, x))
  {
    hide Intact, BufStep, FreeFront, Uncounted;
    LikeClean(b.v, x);
    BufStepIs(b);
    if b.rs < |Pkt(b.v.w, 0).payload| - b.v.notch {
      NotchIntact(b.v, b.v.notch + b.rs, x);
    } else {
      FreeFrontIntact(b.v, x);
    }
  }

  /** A packet read to its end leaves the loop to go on behind it. */
  lemma FullRead(b: BufResult, stop: nat)
    requires 0 < b.v.nonread < |b.v.w| && 0 <= b.v.notch && b.rs > 0 && Has(b.v.w, 0) && stop > 0
    requires b.rs >= |Pkt(b.v.w, 0).payload| - b.v.notch
    ensures var b1 := BufStep(b);
      && b1.v == FreeFront(b.v) && b1.v.w == b.v.w[1..] + [EMPTY] && b1.v.notch == 0
      && b1.v.nonread == b.v.nonread - 1 && SameConfig(b.v, b1.v) && BufLoop(b, stop) == BufLoop(b1, stop - 1)
      && Freed(b.v.w, 0, b.v.nonread, b.v.notch, b.rs, stop)
         == 1 + Freed(b1.v.w, 0, b1.v.nonread, 0, b1.rs, stop - 1)
  {
    hide BufStep, FreeFront;
    BufStepIs(b);
    FreeFrontWindow(b.v);
    FreedShift(b.v.w, BufStep(b).v.w, 1, b.v.nonread, 0, BufStep(b).rs, stop - 1);
  }

  lemma NoRead(b: BufResult, stop: nat)
    requires 0 <= b.v.nonread < |b.v.w| && 0 <= b.v.notch
    requires b.v.nonread == 0 || b.rs <= 0 || b.v.w[0].unit.None? || stop == 0
    ensures BufLoop(b, stop) == b && Freed(b.v.w, 0, b.v.nonread, b.v.notch, b.rs, stop) == 0
  {
  }

  lemma {:induction false} BufLoopIntact(b: BufResult, stop: nat, x: nat)
    requires Intact(b.v, x)
    ensures Usable(b.v)
    ensures Intact(BufLoop(b, stop).v, x + Uncounted(b.v, Freed(b.v.w, 0, b.v.nonread, b.v.notch, b.rs, stop)))
    decreases b.v.nonread, b.rs
  {
    hide Intact, BufStep, FreeFront, Uncounted, BufLoop, Freed;
    LikeClean(b.v, x);
    UncountedOne(b.v);
    if b.v.nonread > 0 && b.rs > 0 && b.v.w[0].unit.Some? && stop > 0 {
      BufStepIntact(b, x);
      var b1 := BufStep(b);
      if b.rs < |Pkt(b.v.w, 0).payload| - b.v.notch {
        PartRead(b, stop);
      } else {
        FullRead(b, stop);
        BufLoopIntact(b1, stop - 1, x + Uncounted(b.v, 1));
        UncountedStep(b.v, b1.v, Freed(b1.v.w, 0, b1.v.nonread, 0, b1.rs, stop - 1));
      }
    } else {
      NoRead(b, stop);
    }
  }

  /** The order-clear packets that a readBuffer releases in message mode are counted too many afterwards. */
  lemma ReadBufferIntact(v: Rcv, len: int, stop: nat, x: nat)
    requires Intact(v, x)
    ensures Usable(v)
    ensures Intact(ReadBuffer(v, len, stop).v, x + Uncounted(v, Freed(v.w, 0, v.nonread, v.notch, len, stop)))
  {
    hide Intact, BufLoop, Uncounted, Freed;
    BufLoopIntact(BufResult(v, [], len), stop, x);
    var b := BufLoop(BufResult(v, [], len), stop);
    var y := x + Uncounted(v, Freed(v.w, 0, v.nonread, v.notch, len, stop));
    NonreadIntact(b.v, 0, y);
    var r := ReadBuffer(v, len, stop).v;
    CountersIntact(ClampNonread(b.v), r.bytes, r.pkts, y);
  }
}
