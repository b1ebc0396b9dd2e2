/**
 * The structural invariant of the receiver buffer, kept by every operation on any packets:
 * nothing here assumes that the peer's packets form messages.
 */
module RcvInvariant {
  import opened SeqNo
  import opened Packets
  import opened RcvModel

  /** A unit is present exactly when the entry is Avail, and then carries the slot's own sequence number. */
  ghost predicate EntryOk(e: Entry, slot: nat) {
    && (e.unit.Some? <==> e.status == Avail)
    && (e.unit.Some? ==> e.unit.value.packet.seqno == Wrap(slot))
  }

  ghost predicate EntriesOk(w: seq<Entry>, slot: nat) {
    forall k :: 0 <= k < |w| ==> EntryOk(w[k], slot + k)
  }

  ghost predicate StoredBefore(w: seq<Entry>, n: int) {
    n <= |w| && forall k :: 0 <= k < n ==> w[k].unit.Some?
  }

  /**
   * What also holds inside the loops. The stored units are exactly the taken ones, each once,
   * so none is leaked and none can be freed twice.
   */
  ghost predicate Core(v: Rcv) {
    && 0 < |v.w| < MAX_SEQNO && 0 <= v.nonread < |v.w| && -1 <= v.ooo < |v.w| && 0 <= v.notch
    && EntriesOk(v.w, v.isn + v.base)
    && v.w[|v.w| - 1] == EMPTY
    && Counts(v.w, v.taken, v.numOoo, v.TracksOrder())
    && (!v.TracksOrder() ==> v.ooo == -1)
  }

  /** The unit queue and the count of order-clear packets agree with what is stored. */
  ghost predicate Counts(w: seq<Entry>, taken: set<nat>, numOoo: int, tracks: bool) {
    HoldsTaken(w, taken) && numOoo == (if tracks then CountIf(w, IsClear) else 0)
  }

  /** Units lie only below the furthest offset, and one slot of the ring stays free. */
  ghost predicate Bounded(v: Rcv) {
    0 <= v.maxOff < |v.w| && forall k :: 0 <= k < |v.w| && v.w[k].unit.Some? ==> k < v.maxOff
  }

  /** Everything before the first non-readable position is stored, and ends a message in message mode. */
  ghost predicate Prefix(v: Rcv) {
    && 0 <= v.nonread <= v.maxOff
    && StoredBefore(v.w, v.nonread)
    && (v.messageApi && v.nonread > 0 ==> Pkt(v.w, v.nonread - 1).last)
  }

  ghost predicate Struct(v: Rcv) {
    Core(v) && Bounded(v) && Prefix(v) && !IsFiller(v.w[0])
  }

  // ------------------------------------------------------------------ stored units are the taken ones

  ghost predicate HoldsTaken(w: seq<Entry>, taken: set<nat>) {
    forall id: nat :: Copies(w, id) == (if id in taken then 1 else 0)
  }

  function Copy1(e: Entry, id: nat): nat {
    if e.unit.Some? && e.unit.value.id == id then 1 else 0
  }

  lemma {:induction false} CopiesUpdate(w: seq<Entry>, k: int, e: Entry, id: nat)
    requires 0 <= k < |w|
    ensures Copies(w[k := e], id) + Copy1(w[k], id) == Copies(w, id) + Copy1(e, id)
  {
    if k == 0 {
      assert w[k := e][1..] == w[1..];
    } else {
      assert w[k := e][1..] == w[1..][k - 1 := e];
      CopiesUpdate(w[1..], k - 1, e, id);
    }
  }

  lemma {:induction false} CopiesConcat(a: seq<Entry>, b: seq<Entry>, id: nat)
    ensures Copies(a + b, id) == Copies(a, id) + Copies(b, id)
  {
    if a == [] {
      assert a + b == b;
    } else {
      assert (a + b)[1..] == a[1..] + b;
      CopiesConcat(a[1..], b, id);
    }
  }

  lemma HoldsRotate(w: seq<Entry>, taken: set<nat>)
    requires w != [] && HoldsTaken(w, taken)
    ensures HoldsTaken(w[1..] + [w[0]], taken)
  {
    forall id: nat
      ensures Copies(w[1..] + [w[0]], id) == Copies(w, id)
    {
      CopiesConcat(w[1..], [w[0]], id);
    }
  }

  /** A stored unit is a taken one, so freeing it meets the assertion of makeUnitFree; no other slot holds it. */
  lemma {:induction false} StoredIsTaken(w: seq<Entry>, taken: set<nat>, k: int)
    requires HoldsTaken(w, taken) && Has(w, k)
    ensures w[k].unit.value.id in taken
    ensures forall j :: 0 <= j < |w| && j != k && w[j].unit.Some? ==> w[j].unit.value.id != w[k].unit.value.id
  {
    var id := w[k].unit.value.id;
    CopiesUpdate(w, k, EMPTY, id);
    forall j | 0 <= j < |w| && j != k && w[j].unit.Some?
      ensures w[j].unit.value.id != id
    {
      CopiesUpdate(w[k := EMPTY], j, EMPTY, id);
    }
  }

  lemma HoldsReplace(w: seq<Entry>, taken: set<nat>, k: int, e: Entry)
    requires 0 <= k < |w| && HoldsTaken(w, taken)
    requires e.unit.Some? ==> e.unit.value.id !in taken
    ensures HoldsTaken(w[k := e], (if Has(w, k) then taken - {w[k].unit.value.id} else taken)
                                  + (if e.unit.Some? then {e.unit.value.id} else {}))
  {
    forall id: nat
      ensures Copies(w[k := e], id) + Copy1(w[k], id) == Copies(w, id) + Copy1(e, id)
    {
      CopiesUpdate(w, k, e, id);
    }
    if Has(w, k) {
      StoredIsTaken(w, taken, k);
    }
  }

  // ------------------------------------------------------------------ single-slot steps keep Core

  lemma CountsTakeOut(w: seq<Entry>, taken: set<nat>, numOoo: int, tracks: bool, k: int)
    requires Counts(w, taken, numOoo, tracks) && Has(w, k)
    ensures Counts(w[k := EMPTY], taken - {w[k].unit.value.id},
                   if tracks && IsClear(w[k]) then numOoo - 1 else numOoo, tracks)
  {
    HoldsReplace(w, taken, k, EMPTY);
    assert taken - {w[k].unit.value.id} + {} == taken - {w[k].unit.value.id};
    CountUpdate(w, k, EMPTY, IsClear);
  }

  lemma CountsMark(w: seq<Entry>, taken: set<nat>, numOoo: int, tracks: bool, k: int, e: Entry)
    requires Counts(w, taken, numOoo, tracks) && 0 <= k < |w| && w[k].unit.None? && e.unit.None?
    ensures Counts(w[k := e], taken, numOoo, tracks)
  {
    HoldsReplace(w, taken, k, e);
    assert taken + {} == taken;
    CountUpdate(w, k, e, IsClear);
  }

  lemma CountsRotate(w: seq<Entry>, taken: set<nat>, numOoo: int, tracks: bool)
    requires Counts(w, taken, numOoo, tracks) && w != []
    ensures Counts(w[1..] + [w[0]], taken, numOoo, tracks)
  {
    HoldsRotate(w, taken);
    CountRotate(w, IsClear);
  }

  lemma TakeOutCore(v: Rcv, k: int)
    requires Core(v) && 0 <= k < |v.w|
    ensures Core(TakeOut(v, k))
  {
    hide Counts;
    if v.w[k].unit.Some? {
      CountsTakeOut(v.w, v.taken, v.numOoo, v.TracksOrder(), k);
    }
  }

  lemma DropAtCore(v: Rcv, k: int)
    requires Core(v) && 0 <= k < |v.w|
    ensures Core(DropAt(v, k))
  {
    TakeOutCore(v, k);
  }

  /** Restating the status of a slot without a unit. */
  lemma MarkCore(v: Rcv, k: int, status: Status)
    requires Core(v) && 0 <= k < |v.w| && v.w[k].unit.None? && status != Avail
    requires k < |v.w| - 1 || status == Empty
    ensures Core(Mark(v, k, status))
  {
    CountsMark(v.w, v.taken, v.numOoo, v.TracksOrder(), k, v.w[k].(status := status));
  }

  lemma AdvanceCore(v: Rcv)
    requires Core(v) && v.w[0] == EMPTY
    ensures Core(Advance(v))
  {
    CountsRotate(v.w, v.taken, v.numOoo, v.TracksOrder());
    var v' := Advance(v);
    forall k | 0 <= k < |v'.w|
      ensures EntryOk(v'.w[k], v'.isn + v'.base + k)
    {
      if k < |v.w| - 1 {
        assert v'.w[k] == v.w[k + 1];
      }
    }
  }

  lemma CoreRanged(v: Rcv)
    requires Core(v)
    ensures Usable(v) && v.w[|v.w| - 1] == EMPTY
  {
  }

  // ------------------------------------------------------------------ moving the start

  /** The window after n slots have left at the start. */
  function Shifted(w: seq<Entry>, n: nat): (r: seq<Entry>)
    ensures |r| == |w|
    decreases n
  {
    if n == 0 || w == [] then w else Shifted(w[1..] + [EMPTY], n - 1)
  }

  lemma {:induction false} ShiftedAt(w: seq<Entry>, n: nat)
    ensures forall k :: 0 <= k < |w| ==> Shifted(w, n)[k] == if k + n < |w| then w[k + n] else EMPTY
    decreases n
  {
    if n > 0 && w != [] {
      ShiftedAt(w[1..] + [EMPTY], n - 1);
    }
  }

  ghost predicate SameFrame(v: Rcv, v': Rcv) {
    SameConfig(v, v') && v'.notch == v.notch && v'.bytes == v.bytes && v'.pkts == v.pkts
  }

  /** v' is v with its start moved n slots ahead and those slots emptied. */
  ghost predicate PoppedN(v: Rcv, v': Rcv, n: nat) {
    && SameFrame(v, v')
    && v'.w == Shifted(v.w, n)
    && v'.base == v.base + n
    && 0 <= v'.nonread < |v.w|
    && (n <= v.nonread ==> v'.nonread == v.nonread - n)
    && (v.nonread < n <= |v.w| ==> v'.nonread == v.nonread - n + |v.w|)
    && (v.ooo < 0 ==> v'.ooo == v.ooo)
    && (n <= v.ooo ==> v'.ooo == v.ooo - n)
  }

  ghost predicate Ranged(v: Rcv) {
    |v.w| > 0 && 0 <= v.nonread < |v.w| && -1 <= v.ooo < |v.w|
  }

  /** Positions are offsets into the window: what every operation needs to be carried out. */
  ghost predicate Usable(v: Rcv) {
    Ranged(v) && 0 <= v.notch
  }

  lemma PopThenPops(v: Rcv, v1: Rcv, v': Rcv, n: nat)
    requires Ranged(v) && PoppedN(v, v1, 1) && PoppedN(v1, v', n)
    ensures PoppedN(v, v', n + 1)
  {
    assert Shifted(v.w, 1) == v.w[1..] + [EMPTY];
  }

  lemma DropFrontPops(v: Rcv)
    requires Ranged(v)
    ensures Ranged(DropFront(v)) && PoppedN(v, DropFront(v), 1)
    ensures DropFront(v).maxOff == v.maxOff
    ensures v.TracksOrder() && v.ooo == 0 && IsClear(v.w[0]) ==> DropFront(v).ooo == -1
  {
    var v2 := Mark(DropAt(v, 0), 0, Empty);
    assert v2.w[0] == EMPTY;
    assert v2.w[1..] == v.w[1..];
    assert Shifted(v.w, 1) == v.w[1..] + [EMPTY];
  }

  lemma DropFrontCore(v: Rcv)
    requires Core(v)
    ensures Core(DropFront(v))
  {
    DropAtCore(v, 0);
    MarkCore(DropAt(v, 0), 0, Empty);
    AdvanceCore(Mark(DropAt(v, 0), 0, Empty));
  }

  lemma ReadFrontPops(v: Rcv)
    requires Core(v) && Has(v.w, 0)
    ensures Core(ReadFront(v)) && PoppedN(v, ReadFront(v), 1)
    ensures ReadFront(v).maxOff == v.maxOff - 1
  {
    TakeOutCore(v, 0);
    var v1 := TakeOut(v, 0);
    AdvanceCore(v1);
    assert v1.w[1..] == v.w[1..];
    assert Shifted(v.w, 1) == v.w[1..] + [EMPTY];
  }

  lemma FillerFrontPops(v: Rcv)
    requires Ranged(v)
    ensures Ranged(FillerFront(v)) && PoppedN(v, FillerFront(v), 1)
    ensures FillerFront(v).maxOff == Max(0, v.maxOff - 1)
  {
    assert v.w[0 := EMPTY][1..] == v.w[1..];
    assert Shifted(v.w, 1) == v.w[1..] + [EMPTY];
  }

  lemma FillerFrontCore(v: Rcv)
    requires Core(v) && IsFiller(v.w[0])
    ensures Core(FillerFront(v))
  {
    MarkCore(v, 0, Empty);
    var v1 := v.(w := v.w[0 := EMPTY]);
    assert v1 == Mark(v, 0, Empty);
    AdvanceCore(v1);
  }

  lemma {:induction false} DropNPops(d: DropUp, len: nat)
    requires Ranged(d.v)
    ensures Ranged(DropN(d, len).v) && PoppedN(d.v, DropN(d, len).v, len)
    ensures DropN(d, len).v.maxOff == d.v.maxOff
    ensures d.v.TracksOrder() && 0 <= d.v.ooo < len && IsClear(d.v.w[d.v.ooo]) ==> DropN(d, len).v.ooo == -1
    decreases len
  {
    hide Counts;
    if len > 0 {
      DropFrontPops(d.v);
      var d1 := DropStep(d);
      assert d1.v.w == d.v.w[1..] + [EMPTY] && SameFrame(d.v, d1.v);
      assert d1.v.ooo == d.v.ooo - 1 || d.v.ooo <= 0;
      hide DropStep, DropFront, PoppedN, Shifted;
      DropNPops(d1, len - 1);
      PopThenPops(d.v, d1.v, DropN(d, len).v, len - 1);
    }
  }

  lemma {:induction false} DropNCore(d: DropUp, len: nat)
    requires Core(d.v)
    ensures Core(DropN(d, len).v)
    decreases len
  {
    if len > 0 {
      DropFrontCore(d.v);
      DropNCore(DropStep(d), len - 1);
    }
  }

  lemma {:induction false} ReadFrontNPops(v: Rcv, n: nat)
    requires Core(v) && StoredBefore(v.w, n)
    ensures Core(ReadFrontN(v, n)) && PoppedN(v, ReadFrontN(v, n), n)
    ensures ReadFrontN(v, n).maxOff == v.maxOff - n
    decreases n
  {
    hide Counts;
    if n > 0 {
      ReadFrontPops(v);
      var v1 := ReadFront(v);
      assert v1.w == v.w[1..] + [EMPTY];
      ReadFrontNPops(v1, n - 1);
      PopThenPops(v, v1, ReadFrontN(v, n), n - 1);
    }
  }

  /** The number of entries at the start that were already read or dropped. */
  function Lead(w: seq<Entry>): (n: nat)
    ensures n <= |w|
    ensures forall k :: 0 <= k < n ==> IsFiller(w[k])
    ensures n < |w| ==> !IsFiller(w[n])
  {
    if w == [] || !IsFiller(w[0]) then 0 else
      var n := Lead(w[1..]);
      assert forall k :: 0 < k < n + 1 ==> w[k] == w[1..][k - 1];
      n + 1
  }

  lemma LeadAfterPop(w: seq<Entry>)
    requires w != [] && IsFiller(w[0]) && w[|w| - 1] == EMPTY
    ensures Lead(w[1..] + [EMPTY]) == Lead(w) - 1
  {
    var n, w1 := Lead(w), w[1..] + [EMPTY];
    LeadShort(w);
    hide Lead;
    assert forall k :: 0 <= k < n - 1 ==> w1[k] == w[k + 1];
    LeadIs(w1, n - 1);
  }

  lemma {:induction false} LeadIs(w: seq<Entry>, n: nat)
    requires n < |w| && !IsFiller(w[n]) && forall k :: 0 <= k < n ==> IsFiller(w[k])
    ensures Lead(w) == n
  {
    if n > 0 {
      assert IsFiller(w[0]);
      LeadIs(w[1..], n - 1);
    }
  }

  lemma LeadShort(w: seq<Entry>)
    requires w != [] && w[|w| - 1] == EMPTY
    ensures Lead(w) < |w|
  {
    assert !IsFiller(w[|w| - 1]);
  }

  lemma ReleaseStep(v: Rcv)
    requires |v.w| > 0
    ensures IsFiller(v.w[0]) ==>
      ReleaseFillers(v) == ReleaseFillers(FillerFront(v)) && FillerFront(v).w == v.w[1..] + [EMPTY]
    ensures !IsFiller(v.w[0]) ==> ReleaseFillers(v) == v && Lead(v.w) == 0
  {
  }

  lemma NotMoved(v: Rcv)
    requires Ranged(v)
    ensures PoppedN(v, v, 0)
  {
  }

  lemma {:induction false} ReleaseFillersPops(v: Rcv)
    requires Ranged(v) && v.w[|v.w| - 1] == EMPTY && 0 <= v.maxOff
    ensures Ranged(ReleaseFillers(v)) && PoppedN(v, ReleaseFillers(v), Lead(v.w))
    ensures ReleaseFillers(v).maxOff == Max(0, v.maxOff - Lead(v.w))
    decreases Lead(v.w)
  {
    hide FillerFront, ReleaseFillers, PoppedN, Lead;
    ReleaseStep(v);
    if IsFiller(v.w[0]) {
      var v1 := FillerFront(v);
      FillerFrontPops(v);
      LeadAfterPop(v.w);
      ReleaseFillersPops(v1);
      PopThenPops(v, v1, ReleaseFillers(v1), Lead(v1.w));
    } else {
      NotMoved(v);
    }
  }

  lemma ReleaseFillersStops(v: Rcv)
    requires Ranged(v) && v.w[|v.w| - 1] == EMPTY && 0 <= v.maxOff
    ensures !IsFiller(ReleaseFillers(v).w[0])
  {
    hide ReleaseFillers, Shifted, Lead;
    ReleaseFillersPops(v);
    LeadShort(v.w);
    ShiftedAt(v.w, Lead(v.w));
  }

  lemma {:induction false} ReleaseFillersCore(v: Rcv)
    requires Core(v)
    ensures Core(ReleaseFillers(v))
    decreases Lead(v.w)
  {
    if IsFiller(v.w[0]) {
      FillerFrontCore(v);
      LeadAfterPop(v.w);
      assert FillerFront(v).w == v.w[1..] + [EMPTY];
      ReleaseFillersCore(FillerFront(v));
    }
  }

  lemma ShiftBounded(v: Rcv, v': Rcv, n: nat)
    requires Bounded(v) && PoppedN(v, v', n) && v'.maxOff == Max(0, v.maxOff - n)
    ensures Bounded(v')
  {
    ShiftedAt(v.w, n);
    forall k | 0 <= k < |v'.w| && v'.w[k].unit.Some?
      ensures k < v'.maxOff
    {
      assert v'.w[k] == v.w[k + n];
    }
  }

  ghost predicate InRange(v: Rcv) {
    0 <= v.nonread <= v.maxOff
  }

  /** A position that the start has overtaken is recognised: it is out of range, or is the start itself. */
  lemma Overtaken(v: Rcv, v': Rcv, n: nat)
    requires PoppedN(v, v', n) && v'.maxOff == Max(0, v.maxOff - n)
    requires 0 <= v.nonread <= v.maxOff < |v.w|
    ensures n <= v.nonread ==> InRange(v')
    ensures v.nonread < n ==> !InRange(v') || v'.nonread == 0
  {
  }

  lemma ShiftPrefix(v: Rcv, v': Rcv, n: nat)
    requires Prefix(v) && PoppedN(v, v', n) && v'.maxOff == Max(0, v.maxOff - n)
    requires n <= v.nonread < |v.w|
    ensures Prefix(v')
  {
    ShiftedAt(v.w, n);
    hide Shifted;
    forall k | 0 <= k < v'.nonread
      ensures v'.w[k].unit.Some?
    {
      assert v'.w[k] == v.w[k + n];
    }
    if v'.nonread > 0 && v.messageApi {
      assert v'.w[v'.nonread - 1] == v.w[v.nonread - 1];
    }
  }

  // ------------------------------------------------------------------ the scan for readable packets

  lemma {:induction false} ExtendPrefix(w: seq<Entry>, i: int, messageApi: bool)
    requires 0 <= i <= |w| && StoredBefore(w, i)
    requires messageApi && i > 0 ==> Pkt(w, i - 1).last
    ensures var e := Extend(w, i, messageApi);
      && StoredBefore(w, e)
      && (messageApi && e > 0 ==> Pkt(w, e - 1).last)
    decreases |w| - i
  {
    if Has(w, i) {
      if !messageApi {
        ExtendPrefix(w, i + 1, messageApi);
      } else if Pkt(w, i).first && RunEnd(w, i).Some? {
        ExtendPrefix(w, RunEnd(w, i).value, messageApi);
      }
    }
  }

  lemma UpdateNonreadStruct(v: Rcv)
    requires Core(v) && Bounded(v) && Prefix(v)
    ensures UpdateNonread(v).w == v.w
    ensures Core(UpdateNonread(v)) && Bounded(UpdateNonread(v)) && Prefix(UpdateNonread(v))
  {
    hide Counts;
    ExtendPrefix(v.w, v.nonread, v.messageApi);
    var e := Extend(v.w, v.nonread, v.messageApi);
    if e > 0 {
      assert Has(v.w, e - 1);
    }
  }

  lemma {:induction false} FindOooRange(w: seq<Entry>, i: int)
    requires 0 <= i
    ensures -1 <= FindOoo(w, i) < |w|
    ensures FindOoo(w, i) >= 0 ==> i <= FindOoo(w, i) && OooMessage(w, FindOoo(w, i))
    decreases |w| - i
  {
    if i < |w| && !OooMessage(w, i) {
      FindOooRange(w, i + 1);
    }
  }

  lemma UpdateOooStruct(v: Rcv)
    requires Struct(v)
    ensures Struct(UpdateOoo(v))
    ensures UpdateOoo(v) == v.(ooo := UpdateOoo(v).ooo)
  {
    FindOooRange(v.w, 0);
  }

  // ------------------------------------------------------------------ the operations

  lemma InitStruct(isn: nat, size: nat, messageApi: bool, tsbpd: bool)
    requires 0 < size < MAX_SEQNO
    ensures Struct(Init(isn, size, messageApi, tsbpd))
  {
    AllEmpty(size);
  }

  lemma {:induction false} AllEmpty(n: nat)
    ensures HoldsTaken(seq(n, _ => EMPTY), {})
    ensures CountIf(seq(n, _ => EMPTY), IsClear) == 0
    ensures CountIf(seq(n, _ => EMPTY), IsDrop) == 0
    ensures CountIf(seq(n, _ => EMPTY), IsRead) == 0
  {
    if n > 0 {
      assert seq(n, _ => EMPTY)[1..] == seq(n - 1, _ => EMPTY);
      AllEmpty(n - 1);
    }
  }

  lemma {:induction false} ScanLeftRange(w: seq<Entry>, i: int, m: int)
    ensures -1 <= ScanLeft(w, i, m) <= Max(i, -1) && ScanLeft(w, i, m) < |w| + 1
    ensures ScanLeft(w, i, m) >= 0 ==> Has(w, ScanLeft(w, i, m))
    decreases i
  {
    if Has(w, i) && Pkt(w, i).msgno == m && !Pkt(w, i).first {
      ScanLeftRange(w, i - 1, m);
    }
  }

  /** The slot of a new unit, before the out-of-order record is looked at. */
  function Stored(v: Rcv, u: Unit, k: int): Rcv
    requires 0 <= k < |v.w|
  {
    v.(w := v.w[k := Entry(Some(u), Avail)],
       taken := v.taken + {u.id},
       bytes := v.bytes + |u.packet.payload|,
       pkts := v.pkts + 1,
       numOoo := if v.TracksOrder() && !u.packet.inorder then v.numOoo + 1 else v.numOoo)
  }

  lemma PlacedIs(v: Rcv, u: Unit, k: int)
    requires 0 <= k < |v.w|
    ensures Placed(v, u, k) == Stored(v, u, k).(ooo := Placed(v, u, k).ooo)
    ensures Placed(v, u, k).ooo != v.ooo ==> v.TracksOrder() && 0 <= Placed(v, u, k).ooo < |v.w|
  {
    ScanLeftRange(v.w[k := Entry(Some(u), Avail)], k - 1, u.packet.msgno);
  }

  lemma CountsStore(w: seq<Entry>, taken: set<nat>, numOoo: int, tracks: bool, k: int, u: Unit)
    requires Counts(w, taken, numOoo, tracks) && 0 <= k < |w| && w[k].unit.None? && u.id !in taken
    ensures Counts(w[k := Entry(Some(u), Avail)], taken + {u.id},
                   if tracks && !u.packet.inorder then numOoo + 1 else numOoo, tracks)
  {
    var e := Entry(Some(u), Avail);
    HoldsReplace(w, taken, k, e);
    CountUpdate(w, k, e, IsClear);
  }

  lemma StoredCore(v: Rcv, u: Unit, k: int)
    requires Core(v) && 0 <= k < |v.w| - 1 && v.w[k].status == Empty
    requires u.id !in v.taken && u.packet.seqno == Wrap(v.isn + v.base + k)
    ensures Core(Stored(v, u, k))
  {
    hide Counts;
    assert v.w[k].unit.None?;
    CountsStore(v.w, v.taken, v.numOoo, v.TracksOrder(), k, u);
  }

  lemma PlacedStruct(v: Rcv, u: Unit, k: int)
    requires Struct(v) && 0 <= k < v.maxOff && v.w[k].status == Empty
    requires u.id !in v.taken && u.packet.seqno == Wrap(v.isn + v.base + k)
    ensures Struct(Placed(v, u, k))
  {
    hide Counts;
    StoredCore(v, u, k);
    PlacedIs(v, u, k);
    assert v.w[k].unit.None?;
    var v1 := Stored(v, u, k);
    assert Struct(v1) by {
      hide Core;
    }
  }

  lemma MaxStruct(v: Rcv, m: int)
    requires Struct(v) && v.maxOff <= m < |v.w|
    ensures Struct(v.(maxOff := m))
  {
    hide Counts;
  }

  lemma InsertStruct(v: Rcv, u: Unit)
    requires Struct(v) && ValidSeqNo(u.packet.seqno) && u.id !in v.taken
    ensures Struct(Insert(v, u).0)
  {
    hide Core, Bounded, Prefix, Placed;
    CoreRanged(v);
    BoundedMax(v);
    var k := InsertOffset(v, u);
    if 0 <= k < |v.w| - 1 {
      SeqOffLands(v.isn + v.base, u.packet.seqno);
      var v0 := v.(maxOff := Max(v.maxOff, k + 1));
      MaxStruct(v, v0.maxOff);
      if v.w[k].status == Empty {
        PlacedStruct(v0, u, k);
        UpdateNonreadStruct(Placed(v0, u, k));
      }
    }
  }

  lemma BoundedMax(v: Rcv)
    requires Core(v) && Bounded(v)
    ensures 0 <= v.maxOff < |v.w|
  {
    hide Counts;
  }

  lemma ResetNonread(v: Rcv)
    requires Core(v) && Bounded(v)
    ensures Core(v.(nonread := 0)) && Bounded(v.(nonread := 0)) && Prefix(v.(nonread := 0))
  {
  }

  /** What dropUpTo leaves once the start has moved, before it looks for readable packets again. */
  lemma DropNStruct(v: Rcv, len: nat)
    requires Core(v) && Bounded(v) && len > 0
    ensures var v1 := DropN(DropUp(v.(maxOff := Max(0, v.maxOff - len)), 0, 0), len).v;
      && Core(v1) && Bounded(v1) && PoppedN(v, v1, len) && v1.maxOff == Max(0, v.maxOff - len)
  {
    hide Counts;
    var v0 := v.(maxOff := Max(0, v.maxOff - len));
    DropNCore(DropUp(v0, 0, 0), len);
    DropNPops(DropUp(v0, 0, 0), len);
    ShiftBounded(v, DropN(DropUp(v0, 0, 0), len).v, len);
  }

  lemma DropUpToStruct(v: Rcv, seqno: int)
    requires Struct(v) && ValidSeqNo(seqno)
    ensures Struct(DropUpTo(v, seqno).v)
    ensures SeqOff(v.StartSeqNo(), seqno) > 0 ==>
              DropUpTo(v, seqno).v.base >= v.base + SeqOff(v.StartSeqNo(), seqno)
  {
    hide Counts;
    var len := SeqOff(v.StartSeqNo(), seqno);
    if len > 0 {
      var v1 := DropN(DropUp(v.(maxOff := Max(0, v.maxOff - len)), 0, 0), len).v;
      DropNStruct(v, len);
      Overtaken(v, v1, len);
      if len <= v.nonread {
        ShiftPrefix(v, v1, len);
      }
      AfterDropStruct(v1);
    }
  }

  /** releaseNextFillerEntries, from a state whose first non-readable position may have been overtaken */
  lemma ReleasedStruct(v: Rcv)
    requires Core(v) && Bounded(v) && (InRange(v) ==> Prefix(v))
    ensures var v1 := ReleaseFillers(v);
      && Core(v1) && Bounded(v1) && (InRange(v1) ==> Prefix(v1)) && !IsFiller(v1.w[0])
      && v1.base == v.base + Lead(v.w) && SameFrame(v, v1)
  {
    var n := Lead(v.w);
    var v1 := ReleaseFillers(v);
    ReleaseFillersPops(v);
    ReleaseFillersStops(v);
    ReleaseFillersCore(v);
    hide Core, ReleaseFillers, Lead, Shifted;
    ShiftBounded(v, v1, n);
    if InRange(v) {
      if v.nonread > 0 {
        assert v.w[0].unit.Some?;
        StartKept(v);
        ShiftPrefix(v, v1, 0);
      } else {
        Overtaken(v, v1, n);
      }
    }
  }

  lemma StartKept(v: Rcv)
    requires Core(v) && v.w[0].unit.Some?
    ensures Lead(v.w) == 0
  {
  }

  /** updateNonreadPos from the start */
  lemma RescanStruct(v: Rcv)
    requires Core(v) && Bounded(v) && !IsFiller(v.w[0])
    ensures Struct(UpdateNonread(v.(nonread := 0)))
  {
    ResetNonread(v);
    hide Core, Bounded, Prefix;
    UpdateNonreadStruct(v.(nonread := 0));
  }

  lemma AfterDropStruct(v: Rcv)
    requires Core(v) && Bounded(v) && (InRange(v) ==> Prefix(v))
    ensures Struct(AfterDrop(v)) && AfterDrop(v).base >= v.base
  {
    assert |v.w| > 0;
    ReleasedStruct(v);
    hide Core, Bounded, Prefix, ReleaseFillers, UpdateOoo, UpdateNonread;
    var v1 := ReleaseFillers(v);
    RescanStruct(v1);
    var v2 := if InRange(v1) then v1 else UpdateNonread(v1.(nonread := 0));
    UpdateOooStruct(v2);
    UpdateNonreadFrame(v1.(nonread := 0));
  }

  lemma UpdateNonreadFrame(v: Rcv)
    requires 0 <= v.nonread <= |v.w|
    ensures UpdateNonread(v) == v.(nonread := UpdateNonread(v).nonread)
  {
  }

  lemma DropAllStruct(v: Rcv)
    requires Struct(v)
    ensures Struct(DropAll(v).v)
  {
    if v.maxOff != 0 {
      WrapIncBy(v.isn + v.base, v.maxOff);
      DropUpToStruct(v, IncSeqBy(v.StartSeqNo(), v.maxOff));
    }
  }

  // ------------------------------------------------------------------ dropMessage

  /** Only the window, the units and the out-of-order record of v' may differ from v. */
  ghost predicate SameElse(v: Rcv, v': Rcv) {
    v' == v.(w := v'.w, ooo := v'.ooo, numOoo := v'.numOoo, taken := v'.taken)
  }

  /** Entries from minOff on may have been marked dropped; all others are as before. */
  ghost predicate MarkedFrom(w: seq<Entry>, w': seq<Entry>, minOff: int) {
    && |w'| == |w|
    && (forall k :: 0 <= k < |w| ==> w'[k] == w[k] || w'[k] == Entry(None, Drop))
    && (forall k :: 0 <= k < |w| && (minOff == -1 || k < minOff) ==> w'[k] == w[k])
  }

  ghost predicate Marked(v: Rcv, d: DropMsg) {
    SameElse(v, d.v) && (d.v.ooo == v.ooo || d.v.ooo == -1) && MarkedFrom(v.w, d.v.w, d.minOff)
  }

  lemma MarkDropIs(v: Rcv, k: int)
    requires 0 <= k < |v.w|
    ensures MarkDrop(v, k).w == v.w[k := Entry(None, Drop)]
    ensures SameElse(v, MarkDrop(v, k)) && (MarkDrop(v, k).ooo == v.ooo || MarkDrop(v, k).ooo == -1)
  {
  }

  lemma MarkDropCore(v: Rcv, k: int)
    requires Core(v) && 0 <= k < |v.w| - 1
    ensures Core(MarkDrop(v, k))
  {
    DropAtCore(v, k);
    MarkCore(DropAt(v, k), k, Drop);
  }

  lemma MarkDropMarked(v: Rcv, d: DropMsg, k: int, d': DropMsg)
    requires Marked(v, d) && 0 <= k < |v.w|
    requires d'.v == MarkDrop(d.v, k) && 0 <= d'.minOff <= k && (d.minOff == -1 || d'.minOff <= d.minOff)
    ensures Marked(v, d')
  {
    MarkDropIs(d.v, k);
  }

  /** What one iteration of the first loop makes of an entry that it drops. */
  function RangeStep(d: DropMsg, i: int): DropMsg
    requires 0 <= i < |d.v.w|
  {
    var found := Has(d.v.w, i) && Pkt(d.v.w, i).first && !Pkt(d.v.w, i).last;
    DropMsg(MarkDrop(d.v, i), d.byMsgNo && !found, d.count + 1, if d.minOff == -1 then i else d.minOff)
  }

  lemma {:induction false} DropRangeCore(d: DropMsg, i: int, end: int, keep: bool)
    requires Core(d.v) && 0 <= i <= end < |d.v.w|
    ensures Core(DropRange(d, i, end, keep).v)
    decreases end - i
  {
    if i < end {
      if d.v.w[i].status == Drop {
        DropRangeCore(d, i + 1, end, keep);
      } else if KeptSolo(d.v, i, keep) {
        DropRangeCore(d.(byMsgNo := false), i + 1, end, keep);
      } else {
        MarkDropCore(d.v, i);
        DropRangeCore(RangeStep(d, i), i + 1, end, keep);
      }
    }
  }

  lemma {:induction false} DropRangeMarked(v: Rcv, d: DropMsg, i: int, end: int, keep: bool)
    requires Marked(v, d) && 0 <= i <= end < |v.w| && -1 <= d.minOff < i
    ensures var d' := DropRange(d, i, end, keep); Marked(v, d') && (d'.minOff == d.minOff || i <= d'.minOff < end)
    decreases end - i
  {
    if i < end {
      if d.v.w[i].status == Drop {
        DropRangeMarked(v, d, i + 1, end, keep);
      } else if KeptSolo(d.v, i, keep) {
        DropRangeMarked(v, d.(byMsgNo := false), i + 1, end, keep);
      } else {
        var d1 := RangeStep(d, i);
        MarkDropMarked(v, d, i, d1);
        DropRangeMarked(v, d1, i + 1, end, keep);
      }
    }
  }

  function BackStep(d: DropMsg, i: int): DropMsg
    requires 0 <= i < |d.v.w|
  {
    DropMsg(MarkDrop(d.v, i), d.byMsgNo, d.count + 1, i)
  }

  lemma {:induction false} DropBackCore(d: DropMsg, i: int, msgno: int, keep: bool)
    requires Core(d.v) && i < |d.v.w| - 1
    ensures Core(DropBack(d, i, msgno, keep).v)
    decreases i + 1
  {
    hide Counts;
    if i >= 0 {
      if !Has(d.v.w, i) {
        DropBackCore(d, i - 1, msgno, keep);
      } else if Pkt(d.v.w, i).msgno == msgno && !KeptSolo(d.v, i, keep) {
        MarkDropCore(d.v, i);
        if !(Pkt(d.v.w, i).first && !Pkt(d.v.w, i).last) {
          DropBackCore(BackStep(d, i), i - 1, msgno, keep);
        }
      }
    }
  }

  lemma {:induction false} DropBackMarked(v: Rcv, d: DropMsg, i: int, msgno: int, keep: bool)
    requires Marked(v, d) && i < |v.w| - 1 && -1 <= d.minOff < |v.w| && (d.minOff == -1 || i <= d.minOff)
    ensures var d' := DropBack(d, i, msgno, keep); Marked(v, d') && -1 <= d'.minOff < |v.w|
    decreases i + 1
  {
    if i >= 0 {
      if !Has(d.v.w, i) {
        DropBackMarked(v, d, i - 1, msgno, keep);
      } else if Pkt(d.v.w, i).msgno == msgno && !KeptSolo(d.v, i, keep) {
        MarkDropMarked(v, d, i, BackStep(d, i));
        if !(Pkt(d.v.w, i).first && !Pkt(d.v.w, i).last) {
          DropBackMarked(v, BackStep(d, i), i - 1, msgno, keep);
        }
      }
    }
  }

  lemma DropMarksMarked(v: Rcv, a: int, b: int, msgno: int, keep: bool)
    requires Core(v) && a <= b && 0 <= b && a < |v.w|
    ensures var d := DropMarks(v, a, b, msgno, keep); Core(d.v) && Marked(v, d) && -1 <= d.minOff < |v.w|
  {
    hide Counts;
    var lo := Max(0, a);
    var d0 := DropMsg(v, msgno > 0, 0, -1);
    var end := Min(|v.w| - 1, b + 1);
    assert Marked(v, d0);
    hide Core, MarkedFrom;
    DropRangeCore(d0, lo, end, keep);
    DropRangeMarked(v, d0, lo, end, keep);
    var d := DropRange(d0, lo, end, keep);
    if d.byMsgNo && lo < |v.w| - 1 {
      DropBackCore(d, lo, msgno, keep);
      DropBackMarked(v, d, lo, msgno, keep);
    }
  }

  lemma UnmarkedStart(v: Rcv, d: DropMsg)
    requires Struct(v) && Marked(v, d)
    ensures d.minOff == -1 || d.minOff > v.nonread ==> ReleaseFillers(d.v) == d.v && Prefix(d.v) && !IsFiller(d.v.w[0])
  {
    if d.minOff == -1 || d.minOff > v.nonread {
      assert d.v.w[0] == v.w[0];
    }
  }

  lemma AfterMarksStruct(v: Rcv, d: DropMsg)
    requires Struct(v) && Core(d.v) && Marked(v, d)
    ensures Struct(AfterMarks(d.v, d.minOff != -1 && d.minOff <= v.nonread))
  {
    hide Counts;
    var v2: Rcv;
    assert Bounded(d.v) && Bounded(d.v.(nonread := 0));
    UnmarkedStart(v, d);
    if d.minOff != -1 && d.minOff <= v.nonread {
      MarkedReleased(d.v);
      hide Core, Bounded, Prefix, Marked, ReleaseFillers, UpdateNonread;
      RescanStruct(ReleaseFillers(d.v));
      v2 := UpdateNonread(ReleaseFillers(d.v).(nonread := 0));
    } else {
      v2 := d.v;
    }
    hide Core, Bounded, Prefix, Marked, ReleaseFillers, UpdateNonread, UpdateOoo, CheckOoo;
    NoOooStruct(v2);
    UpdateOooStruct(v2.(ooo := -1));
    UpdateOooStruct(v2);
  }

  lemma MarkedReleased(v: Rcv)
    requires Core(v) && Bounded(v)
    ensures var v1 := ReleaseFillers(v); Core(v1) && Bounded(v1) && !IsFiller(v1.w[0])
  {
    var v1 := ReleaseFillers(v);
    ReleaseFillersPops(v);
    ReleaseFillersStops(v);
    ReleaseFillersCore(v);
    ShiftBounded(v, v1, Lead(v.w));
  }

  lemma NoOooStruct(v: Rcv)
    requires Struct(v)
    ensures Struct(v.(ooo := -1))
  {
  }

  lemma DropMessageStruct(v: Rcv, seqnolo: int, seqnohi: int, msgno: int, keep: bool)
    requires Struct(v)
    requires SeqOff(v.StartSeqNo(), seqnolo) <= SeqOff(v.StartSeqNo(), seqnohi)
    ensures Struct(DropMessage(v, seqnolo, seqnohi, msgno, keep).0)
  {
    var a := SeqOff(v.StartSeqNo(), seqnolo);
    var b := SeqOff(v.StartSeqNo(), seqnohi);
    if b >= 0 && a < |v.w| {
      DropMarksMarked(v, a, b, msgno, keep);
      AfterMarksStruct(v, DropMarks(v, a, b, msgno, keep));
    }
  }

  // ------------------------------------------------------------------ readMessage

  /** What reading a run out of order does to a state. */
  ghost predicate ReadOut(v: Rcv, v': Rcv, r: int, e: int) {
    && SameFrame(v, v')
    && v'.base == v.base && v'.maxOff == v.maxOff && v'.nonread == v.nonread && v'.ooo == v.ooo
    && (forall k :: 0 <= k < |v.w| ==> v'.w[k] == if r <= k < e then Entry(None, Read) else v.w[k])
  }

  lemma {:induction false} ReadRangeReads(v: Rcv, r: int, e: int)
    requires Core(v) && 0 <= r <= e < |v.w| && forall k :: r <= k < e ==> v.w[k].unit.Some?
    ensures Core(ReadRange(v, r, e)) && ReadOut(v, ReadRange(v, r, e), r, e)
    decreases e - r
  {
    hide Counts;
    if r < e {
      TakeOutCore(v, r);
      MarkCore(TakeOut(v, r), r, Read);
      ReadRangeReads(ReadAt(v, r), r + 1, e);
    }
  }

  lemma AfterReadStruct(v: Rcv)
    requires Core(v) && Bounded(v) && (InRange(v) ==> Prefix(v))
    ensures Struct(AfterRead(v)) && AfterRead(v).base >= v.base
  {
    assert |v.w| > 0;
    ReleasedStruct(v);
    var v1 := ReleaseFillers(v);
    ResetNonread(v1);
    hide Core, Bounded, Prefix, ReleaseFillers, UpdateOoo;
    UpdateOooStruct(ClampNonread(v1));
  }

  lemma ConsumedFront(v: Rcv, e: int)
    requires Struct(v) && 0 <= e < |v.w| && StoredBefore(v.w, e)
    ensures var v1 := ReadFrontN(v, e);
      Core(v1) && PoppedN(v, v1, e) && Bounded(v1) && v1.maxOff == v.maxOff - e && (InRange(v1) ==> Prefix(v1))
  {
    ReadFrontNPops(v, e);
    var v1 := ReadFrontN(v, e);
    if e > 0 {
      assert v.w[e - 1].unit.Some?;
    }
    ShiftBounded(v, v1, e);
    Overtaken(v, v1, e);
    if e <= v.nonread {
      ShiftPrefix(v, v1, e);
    }
  }

  lemma ReadEndShort(v: Rcv, r: int)
    requires Core(v) && 0 <= r < |v.w|
    ensures ReadEnd(v.w, r) < |v.w|
  {
    assert v.w[|v.w| - 1].unit.None?;
  }

  lemma OnlyCounters(v: Rcv, c: Rcv)
    requires Core(v) && Bounded(v) && (InRange(v) ==> Prefix(v))
    requires c == v.(ooo := c.ooo, bytes := c.bytes, pkts := c.pkts) && (c.ooo == v.ooo || c.ooo == -1)
    ensures Core(c) && Bounded(c) && (InRange(c) ==> Prefix(c))
  {
  }

  lemma ConsumedOut(v: Rcv, r: int, e: int)
    requires Struct(v) && v.nonread == 0 && 0 <= r <= e < |v.w| && forall k :: r <= k < e ==> v.w[k].unit.Some?
    ensures var v1 := ReadRange(v, r, e); Core(v1) && Bounded(v1) && Prefix(v1) && ReadOut(v, v1, r, e)
  {
    ReadRangeReads(v, r, e);
  }

  /** The whole state between the loop of readMessage and its clean-up. */
  lemma ConsumedStruct(v: Rcv, r: int, e: int)
    requires Struct(v) && 0 <= r < |v.w| && e == ReadEnd(v.w, r) && (r > 0 ==> v.nonread == 0)
    ensures var c := Consumed(v, r, e); Core(c) && Bounded(c) && (InRange(c) ==> Prefix(c))
  {
    hide Counts;
    ReadEndShort(v, r);
    hide Core, Bounded, Prefix, ReadFrontN, ReadRange, InRange;
    var v1: Rcv;
    if r == 0 {
      ConsumedFront(v, e);
      v1 := ReadFrontN(v, e);
    } else {
      ConsumedOut(v, r, e);
      v1 := ReadRange(v, r, e);
    }
    OnlyCounters(v1, Consumed(v, r, e));
  }

  lemma ReadMessageStruct(v: Rcv, len: nat)
    requires Struct(v)
    ensures Struct(ReadMessage(v, len).v)
  {
    var r := ReadPos(v);
    if r >= 0 {
      var e := ReadEnd(v.w, r);
      ConsumedStruct(v, r, e);
      AfterReadStruct(Consumed(v, r, e));
    }
  }
}
