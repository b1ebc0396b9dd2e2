/**
 * The receiver buffer (class CRcvBuffer) as a value: the ring of entries is seen as a window
 * that begins at m_iStartPos, and every position as an offset into that window.
 */
module RcvModel {
  import opened SeqNo
  import opened Packets

  datatype Unit = Unit(id: nat, packet: Packet)

  datatype Status = Empty | Avail | Read | Drop

  datatype Entry = Entry(unit: Option<Unit>, status: Status)

  const EMPTY: Entry := Entry(None, Empty)

  datatype Rcv = Rcv(
    messageApi: bool,
    tsbpd: bool,
    isn: nat,
    w: seq<Entry>,     // w[k] is the entry k slots after the start; |w| is m_szSize
    base: nat,         // how far the start has moved; m_iStartSeqNo is Wrap(isn + base)
    nonread: int,      // offset of m_iFirstNonreadPos
    maxOff: int,       // m_iMaxPosOff
    ooo: int,          // offset of m_iFirstReadableOutOfOrder, or -1
    numOoo: int,       // m_numOutOfOrderPackets
    notch: int,
    bytes: int,
    pkts: int,
    taken: set<nat>)   // units this buffer holds from the unit queue
  {
    function StartSeqNo(): int {
      Wrap(isn + base)
    }

    /** The order flag counts only in message mode without TSBPD. */
    predicate TracksOrder() {
      !tsbpd && messageApi
    }
  }

  /** The parts of the buffer that are fixed when it is created. */
  predicate SameConfig(v: Rcv, v': Rcv) {
    v'.messageApi == v.messageApi && v'.tsbpd == v.tsbpd && v'.isn == v.isn && |v'.w| == |v.w|
  }

  function Init(isn: nat, size: nat, messageApi: bool, tsbpd: bool): Rcv {
    Rcv(messageApi, tsbpd, isn, seq(size, _ => EMPTY), 0, 0, 0, -1, 0, 0, 0, 0, {})
  }

  predicate Has(w: seq<Entry>, k: int) {
    0 <= k < |w| && w[k].unit.Some?
  }

  function Pkt(w: seq<Entry>, k: int): Packet
    requires Has(w, k)
  {
    w[k].unit.value.packet
  }

  predicate IsClear(e: Entry) {
    e.unit.Some? && !e.unit.value.packet.inorder
  }

  predicate IsFiller(e: Entry) {
    e.status == Read || e.status == Drop
  }

  predicate IsRead(e: Entry) {
    e.status == Read
  }

  predicate IsDrop(e: Entry) {
    e.status == Drop
  }

  function CountIf(w: seq<Entry>, p: Entry -> bool): nat {
    if w == [] then 0 else (if p(w[0]) then 1 else 0) + CountIf(w[1..], p)
  }

  /** In how many slots the unit with this identity is stored. */
  function Copies(w: seq<Entry>, id: nat): nat {
    if w == [] then 0 else (if w[0].unit.Some? && w[0].unit.value.id == id then 1 else 0) + Copies(w[1..], id)
  }

  function Max(a: int, b: int): int {
    if a < b then b else a
  }

  function Min(a: int, b: int): int {
    if a < b then a else b
  }

  // ------------------------------------------------------------------ single-slot steps

  /** Gives the unit of a slot back to the unit queue. */
  function TakeOut(v: Rcv, k: int): Rcv
    requires 0 <= k < |v.w|
  {
    if v.w[k].unit.None? then v
    else
      v.(w := v.w[k := EMPTY],
         taken := v.taken - {v.w[k].unit.value.id},
         numOoo := if v.TracksOrder() && IsClear(v.w[k]) then v.numOoo - 1 else v.numOoo)
  }

  /** dropUnitInPos */
  function DropAt(v: Rcv, k: int): Rcv
    requires 0 <= k < |v.w|
  {
    if v.w[k].unit.None? then v
    else if v.TracksOrder() && IsClear(v.w[k]) && v.ooo == k then TakeOut(v, k).(ooo := -1)
    else TakeOut(v, k)
  }

  function Mark(v: Rcv, k: int, status: Status): Rcv
    requires 0 <= k < |v.w|
  {
    v.(w := v.w[k := v.w[k].(status := status)])
  }

  function Back(x: int, size: int): int {
    if x == 0 then size - 1 else x - 1
  }

  /** Moves the start one slot ahead; the slot left behind becomes the far end of the ring. */
  function Advance(v: Rcv): Rcv
    requires |v.w| > 0
  {
    v.(w := v.w[1..] + [v.w[0]],
       base := v.base + 1,
       nonread := Back(v.nonread, |v.w|),
       ooo := if v.ooo < 0 then v.ooo else Back(v.ooo, |v.w|))
  }

  /** One iteration of the loop of dropUpTo. */
  function DropFront(v: Rcv): Rcv
    requires |v.w| > 0
  {
    Advance(Mark(DropAt(v, 0), 0, Empty))
  }

  /** One iteration of the loop of readMessage when the start follows the reader. */
  function ReadFront(v: Rcv): Rcv
    requires |v.w| > 0
  {
    Advance(TakeOut(v, 0)).(maxOff := v.maxOff - 1)
  }

  /** One iteration of the loop of readMessage when reading out of order. */
  function ReadAt(v: Rcv, k: int): Rcv
    requires 0 <= k < |v.w|
  {
    Mark(TakeOut(v, k), k, Read)
  }

  /** One iteration of releaseNextFillerEntries. */
  function FillerFront(v: Rcv): Rcv
    requires |v.w| > 0
  {
    Advance(v.(w := v.w[0 := EMPTY])).(maxOff := Max(0, v.maxOff - 1))
  }

  // ------------------------------------------------------------------ loops

  datatype DropUp = DropUp(v: Rcv, dropped: nat, discarded: nat)

  function DropStep(d: DropUp): DropUp
    requires |d.v.w| > 0
  {
    DropUp(DropFront(d.v),
           d.dropped + (if d.v.w[0].status == Empty then 1 else 0),
           d.discarded + (if d.v.w[0].status == Avail then 1 else 0))
  }

  function DropN(d: DropUp, len: nat): (r: DropUp)
    requires |d.v.w| > 0
    ensures SameConfig(d.v, r.v)
    decreases len
  {
    if len == 0 then d else DropN(DropStep(d), len - 1)
  }

  function ReadFrontN(v: Rcv, n: nat): (r: Rcv)
    requires |v.w| > 0
    ensures SameConfig(v, r)
    decreases n
  {
    if n == 0 then v else ReadFrontN(ReadFront(v), n - 1)
  }

  function ReadRange(v: Rcv, r: int, e: int): (v': Rcv)
    requires 0 <= r <= e <= |v.w|
    ensures SameConfig(v, v')
    decreases e - r
  {
    if r == e then v else ReadRange(ReadAt(v, r), r + 1, e)
  }

  lemma {:induction false} CountConcat(a: seq<Entry>, b: seq<Entry>, p: Entry -> bool)
    ensures CountIf(a + b, p) == CountIf(a, p) + CountIf(b, p)
  {
    if a == [] {
      assert a + b == b;
    } else {
      assert (a + b)[1..] == a[1..] + b;
      CountConcat(a[1..], b, p);
    }
  }

  lemma CountUpdate(w: seq<Entry>, k: int, e: Entry, p: Entry -> bool)
    requires 0 <= k < |w|
    ensures CountIf(w[k := e], p) == CountIf(w, p) - (if p(w[k]) then 1 else 0) + (if p(e) then 1 else 0)
  {
    assert w == w[..k] + ([w[k]] + w[k + 1..]);
    assert w[k := e] == w[..k] + ([e] + w[k + 1..]);
    CountConcat(w[..k], [w[k]] + w[k + 1..], p);
    CountConcat(w[..k], [e] + w[k + 1..], p);
    CountConcat([w[k]], w[k + 1..], p);
    CountConcat([e], w[k + 1..], p);
  }

  lemma CountRotate(w: seq<Entry>, p: Entry -> bool)
    requires w != []
    ensures CountIf(w[1..] + [w[0]], p) == CountIf(w, p)
  {
    CountConcat(w[1..], [w[0]], p);
  }

  /** releaseNextFillerEntries */
  function ReleaseFillers(v: Rcv): (r: Rcv)
    requires |v.w| > 0
    ensures SameConfig(v, r)
    decreases CountIf(v.w, IsFiller)
  {
    if IsFiller(v.w[0]) then
      assert CountIf(FillerFront(v).w, IsFiller) < CountIf(v.w, IsFiller) by {
        CountUpdate(v.w, 0, EMPTY, IsFiller);
        CountRotate(v.w[0 := EMPTY], IsFiller);
      }
      ReleaseFillers(FillerFront(v))
    else v
  }

  // ------------------------------------------------------------------ scans

  /** Where a run of stored packets that begins at i first carries PB_LAST, one past it. */
  function RunEnd(w: seq<Entry>, i: int): (e: Option<int>)
    requires 0 <= i
    ensures e.Some? ==>
      && i < e.value <= |w|
      && (forall k :: i <= k < e.value ==> w[k].unit.Some?)
      && Pkt(w, e.value - 1).last
      && (forall k :: i <= k < e.value - 1 ==> !w[k].unit.value.packet.last)
    decreases |w| - i
  {
    if !Has(w, i) then None else if Pkt(w, i).last then Some(i + 1) else RunEnd(w, i + 1)
  }

  /** updateNonreadPos, from the current position */
  function Extend(w: seq<Entry>, i: int, messageApi: bool): (e: int)
    requires 0 <= i <= |w|
    ensures i <= e <= |w|
    decreases |w| - i
  {
    if !Has(w, i) then i
    else if !messageApi then Extend(w, i + 1, messageApi)
    else if !Pkt(w, i).first then i
    else match RunEnd(w, i) case None => i case Some(e) => Extend(w, e, messageApi)
  }

  function UpdateNonread(v: Rcv): Rcv
    requires 0 <= v.nonread <= |v.w|
  {
    v.(nonread := Extend(v.w, v.nonread, v.messageApi))
  }

  /** A position left behind the start, seen modulo the ring, lies outside the occupied part. */
  function ClampNonread(v: Rcv): Rcv {
    if 0 <= v.nonread <= v.maxOff then v else v.(nonread := 0)
  }

  /** scanNotInOrderMessageRight: is the last packet of message m reached without a gap? */
  predicate ScanRight(w: seq<Entry>, i: int, m: int)
    decreases |w| - i
  {
    Has(w, i) && Pkt(w, i).msgno == m && (Pkt(w, i).last || ScanRight(w, i + 1, m))
  }

  /** scanNotInOrderMessageLeft: where the first packet of message m is, or -1 */
  function ScanLeft(w: seq<Entry>, i: int, m: int): int
    decreases i
  {
    if !Has(w, i) || Pkt(w, i).msgno != m then -1
    else if Pkt(w, i).first then i
    else ScanLeft(w, i - 1, m)
  }

  /** From i on, the order-clear rest of message m is stored up to its last packet. */
  predicate OooTail(w: seq<Entry>, i: int, m: int)
    decreases |w| - i
  {
    && Has(w, i) && !Pkt(w, i).inorder && Pkt(w, i).msgno == m
    && (Pkt(w, i).last || (Has(w, i + 1) && !Pkt(w, i + 1).first && OooTail(w, i + 1, m)))
  }

  /** A whole message that may be read out of order begins at i. */
  predicate OooMessage(w: seq<Entry>, i: int) {
    Has(w, i) && Pkt(w, i).first && OooTail(w, i, Pkt(w, i).msgno)
  }

  function FindOoo(w: seq<Entry>, i: int): (r: int)
    requires 0 <= i
    decreases |w| - i
  {
    if i >= |w| then -1 else if OooMessage(w, i) then i else FindOoo(w, i + 1)
  }

  /** updateFirstReadableOutOfOrder */
  function UpdateOoo(v: Rcv): Rcv {
    if v.nonread != 0 || v.numOoo <= 0 || v.ooo >= 0 || v.maxOff == 0 then v
    else v.(ooo := FindOoo(v.w, 0))
  }

  /** onInsertNotInOrderPacket */
  function OnInsert(v: Rcv, k: int): (r: Rcv)
    requires Has(v.w, k)
    ensures r == v.(ooo := r.ooo)
  {
    var p := Pkt(v.w, k);
    if v.numOoo == 0 || v.ooo >= 0 then v
    else if !(p.last || ScanRight(v.w, k + 1, p.msgno)) then v
    else
      var f := if p.first then k else ScanLeft(v.w, k - 1, p.msgno);
      if f < 0 then v else v.(ooo := f)
  }

  /** checkFirstReadableOutOfOrder */
  predicate CheckRun(w: seq<Entry>, i: int, m: int)
    decreases |w| - i
  {
    Has(w, i) && !Pkt(w, i).inorder && Pkt(w, i).msgno == m && (Pkt(w, i).last || CheckRun(w, i + 1, m))
  }

  predicate CheckOoo(v: Rcv) {
    v.numOoo > 0 && v.ooo >= 0 && v.maxOff != 0 && Has(v.w, v.ooo) && CheckRun(v.w, v.ooo, Pkt(v.w, v.ooo).msgno)
  }

  // ------------------------------------------------------------------ operations

  const INSERT_OK: int := 0
  const INSERT_DUPLICATE: int := -1
  const INSERT_BEHIND: int := -2
  const INSERT_AHEAD: int := -3

  function InsertOffset(v: Rcv, u: Unit): int {
    SeqOff(v.StartSeqNo(), u.packet.seqno)
  }

  function Insert(v: Rcv, u: Unit): (r: (Rcv, int))
    requires |v.w| > 0 && 0 <= v.nonread <= |v.w|
    ensures SameConfig(v, r.0)
  {
    var k := InsertOffset(v, u);
    if k < 0 then (v, INSERT_BEHIND)
    else if k >= |v.w| - 1 then (v, INSERT_AHEAD)
    else
      var v0 := v.(maxOff := Max(v.maxOff, k + 1));
      if v.w[k].status != Empty then (v0, INSERT_DUPLICATE)
      else (UpdateNonread(Placed(v0, u, k)), INSERT_OK)
  }

  function Placed(v: Rcv, u: Unit, k: int): Rcv
    requires 0 <= k < |v.w|
  {
    var v1 := v.(w := v.w[k := Entry(Some(u), Avail)],
                 taken := v.taken + {u.id},
                 bytes := v.bytes + |u.packet.payload|,
                 pkts := v.pkts + 1);
    if v.TracksOrder() && !u.packet.inorder then OnInsert(v1.(numOoo := v.numOoo + 1), k) else v1
  }

  function DropUpTo(v: Rcv, seqno: int): (r: DropUp)
    requires |v.w| > 0
    ensures SameConfig(v, r.v)
  {
    var len := SeqOff(v.StartSeqNo(), seqno);
    if len <= 0 then DropUp(v, 0, 0)
    else
      var d := DropN(DropUp(v.(maxOff := Max(0, v.maxOff - len)), 0, 0), len);
      DropUp(AfterDrop(d.v), d.dropped, d.discarded)
  }

  /** What dropUpTo does once the start has moved, up to the search for a message to read out of order. */
  function DropSettled(v: Rcv): (r: Rcv)
    requires |v.w| > 0
    ensures SameConfig(v, r)
  {
    var v1 := ReleaseFillers(v);
    if 0 <= v1.nonread <= v1.maxOff then v1 else UpdateNonread(v1.(nonread := 0))
  }

  function AfterDrop(v: Rcv): (r: Rcv)
    ensures SameConfig(v, r)
  {
    if |v.w| == 0 then v
    else if v.TracksOrder() then UpdateOoo(DropSettled(v))
    else DropSettled(v)
  }

  function DropAll(v: Rcv): (r: DropUp)
    requires |v.w| > 0
    ensures SameConfig(v, r.v)
  {
    if v.maxOff == 0 then DropUp(v, 0, 0) else DropUpTo(v, IncSeqBy(v.StartSeqNo(), v.maxOff))
  }

  datatype DropMsg = DropMsg(v: Rcv, byMsgNo: bool, count: nat, minOff: int)

  predicate IsSolo(p: Packet) {
    p.first && p.last
  }

  predicate KeptSolo(v: Rcv, k: int, keep: bool) {
    keep && Has(v.w, k) && IsSolo(Pkt(v.w, k))
  }

  function MarkDrop(v: Rcv, k: int): Rcv
    requires 0 <= k < |v.w|
  {
    Mark(DropAt(v, k), k, Drop)
  }

  /** The first loop of dropMessage: the requested range. */
  function DropRange(d: DropMsg, i: int, end: int, keep: bool): (r: DropMsg)
    requires 0 <= i <= end <= |d.v.w|
    ensures SameConfig(d.v, r.v)
    decreases end - i
  {
    if i == end then d
    else if d.v.w[i].status == Drop then DropRange(d, i + 1, end, keep)
    else if KeptSolo(d.v, i, keep) then DropRange(d.(byMsgNo := false), i + 1, end, keep)
    else
      var found := Has(d.v.w, i) && Pkt(d.v.w, i).first && !Pkt(d.v.w, i).last;
      DropRange(DropMsg(MarkDrop(d.v, i), d.byMsgNo && !found, d.count + 1, if d.minOff == -1 then i else d.minOff),
                i + 1, end, keep)
  }

  /** The second loop of dropMessage: the rest of the message towards the start. */
  function DropBack(d: DropMsg, i: int, msgno: int, keep: bool): (r: DropMsg)
    requires i < |d.v.w|
    ensures SameConfig(d.v, r.v)
    decreases i + 1
  {
    if i < 0 then d
    else if !Has(d.v.w, i) then DropBack(d, i - 1, msgno, keep)
    else if Pkt(d.v.w, i).msgno != msgno || KeptSolo(d.v, i, keep) then d
    else
      var d' := DropMsg(MarkDrop(d.v, i), d.byMsgNo, d.count + 1, i);
      if Pkt(d.v.w, i).first && !Pkt(d.v.w, i).last then d' else DropBack(d', i - 1, msgno, keep)
  }

  function DropMarks(v: Rcv, a: int, b: int, msgno: int, keep: bool): (r: DropMsg)
    requires |v.w| > 0 && a <= b && 0 <= b && a < |v.w|
    ensures SameConfig(v, r.v)
  {
    var lo := Max(0, a);
    var d := DropRange(DropMsg(v, msgno > 0, 0, -1), lo, Min(|v.w| - 1, b + 1), keep);
    if d.byMsgNo && lo < |d.v.w| - 1 then DropBack(d, lo, msgno, keep) else d
  }

  function DropMessage(v: Rcv, seqnolo: int, seqnohi: int, msgno: int, keep: bool): (r: (Rcv, nat))
    requires |v.w| > 0
    requires SeqOff(v.StartSeqNo(), seqnolo) <= SeqOff(v.StartSeqNo(), seqnohi)
    ensures SameConfig(v, r.0)
  {
    var a := SeqOff(v.StartSeqNo(), seqnolo);
    var b := SeqOff(v.StartSeqNo(), seqnohi);
    if b < 0 || a >= |v.w| then (v, 0)
    else
      var d := DropMarks(v, a, b, msgno, keep);
      (AfterMarks(d.v, d.minOff != -1 && d.minOff <= v.nonread), d.count)
  }

  /** What dropMessage does once the entries are marked, up to the search. */
  function MarksSettled(v: Rcv, needUpdate: bool): (r: Rcv)
    requires |v.w| > 0
    ensures SameConfig(v, r)
  {
    var v1 := ReleaseFillers(v);
    var v2 := if needUpdate then UpdateNonread(v1.(nonread := 0)) else v1;
    if v.TracksOrder() && !CheckOoo(v2) then v2.(ooo := -1) else v2
  }

  function AfterMarks(v: Rcv, needUpdate: bool): (r: Rcv)
    ensures SameConfig(v, r)
  {
    if |v.w| == 0 then v
    else if v.TracksOrder() then UpdateOoo(MarksSettled(v, needUpdate))
    else MarksSettled(v, needUpdate)
  }

  /** How far a read that begins at i goes: past PB_LAST, or up to a slot without a unit. */
  function ReadEnd(w: seq<Entry>, i: int): (e: int)
    requires 0 <= i <= |w|
    ensures i <= e <= |w| && forall k :: i <= k < e ==> w[k].unit.Some?
    decreases |w| - i
  {
    if !Has(w, i) then i else if Pkt(w, i).last then i + 1 else ReadEnd(w, i + 1)
  }

  function Payloads(w: seq<Entry>, i: int, e: int): seq<Byte>
    requires 0 <= i <= e <= |w| && forall k :: i <= k < e ==> w[k].unit.Some?
    decreases e - i
  {
    if i == e then [] else Pkt(w, i).payload + Payloads(w, i + 1, e)
  }

  function Take(s: seq<Byte>, n: nat): seq<Byte> {
    if |s| <= n then s else s[..n]
  }

  datatype ReadResult = ReadResult(v: Rcv, data: seq<Byte>, at: int, count: nat)

  /** Where readMessage reads: at the start when in-order packets are readable, else at the recorded message. */
  function ReadPos(v: Rcv): int {
    if v.nonread != 0 then 0 else v.ooo
  }

  function ReadMessage(v: Rcv, len: nat): (r: ReadResult)
    requires |v.w| > 0 && -1 <= v.ooo < |v.w|
    ensures SameConfig(v, r.v)
  {
    var r := ReadPos(v);
    if r < 0 then ReadResult(v, [], -1, 0)
    else
      var e := ReadEnd(v.w, r);
      ReadResult(AfterRead(Consumed(v, r, e)), Take(Payloads(v.w, r, e), len), r, e - r)
  }

  /** The state when the loop of readMessage ends and the counters are adjusted. */
  function Consumed(v: Rcv, r: int, e: int): Rcv
    requires |v.w| > 0 && 0 <= r <= e <= |v.w| && forall k :: r <= k < e ==> v.w[k].unit.Some?
  {
    var v1 := if r == 0 then ReadFrontN(v, e) else ReadRange(v, r, e);
    var v2 := if e > r && Pkt(v.w, e - 1).last && r == v.ooo then v1.(ooo := -1) else v1;
    v2.(bytes := v.bytes - |Payloads(v.w, r, e)|, pkts := v.pkts - (e - r))
  }

  /** What readMessage does after its loop, up to the search. */
  function ReadSettled(v: Rcv): (r: Rcv)
    requires |v.w| > 0
    ensures SameConfig(v, r)
  {
    ClampNonread(ReleaseFillers(v))
  }

  function AfterRead(v: Rcv): (r: Rcv)
    ensures SameConfig(v, r)
  {
    if |v.w| == 0 then v
    else if v.tsbpd then ReadSettled(v)
    else UpdateOoo(ReadSettled(v))
  }

  // ------------------------------------------------------------------ readBuffer

  /** A state in the middle of readBufferTo: the bytes copied so far and the number still wanted. */
  datatype BufResult = BufResult(v: Rcv, data: seq<Byte>, rs: int)

  /** The partly read packet at the start still has its notch inside. */
  ghost predicate NotchOk(v: Rcv) {
    0 <= v.notch && (v.notch > 0 ==> Has(v.w, 0) && v.notch < |Pkt(v.w, 0).payload|)
  }

  /** Releases the unit at the start and moves on; unlike readMessage, this leaves m_numOutOfOrderPackets alone. */
  function FreeFront(v: Rcv): Rcv
    requires Has(v.w, 0)
  {
    Advance(v.(w := v.w[0 := EMPTY], taken := v.taken - {v.w[0].unit.value.id})).(maxOff := v.maxOff - 1, notch := 0)
  }

  /**
   * One iteration of readBufferTo with rs bytes still wanted. A notch beyond the packet makes the length to copy
   * negative: what such a copy does is not known, so it hands out nothing here, but the integers go on as written.
   */
  function BufStep(b: BufResult): BufResult
    requires Has(b.v.w, 0) && 0 <= b.v.notch && b.rs > 0
  {
    var p := Pkt(b.v.w, 0).payload;
    var remain := |p| - b.v.notch;
    if b.rs >= remain then
      BufResult(FreeFront(b.v), b.data + (if remain > 0 then p[b.v.notch..] else []), b.rs - remain)
    else
      BufResult(b.v.(notch := b.v.notch + b.rs), b.data + p[b.v.notch..b.v.notch + b.rs], 0)
  }

  /**
   * The loop of readBufferTo; the first non-readable position stays where it is. It breaks off before packet
   * number stop, when that one is not yet due (TSBPD) or cannot be written to the file.
   */
  function BufLoop(b: BufResult, stop: nat): (r: BufResult)
    requires 0 <= b.v.nonread < |b.v.w| && 0 <= b.v.notch
    ensures SameConfig(b.v, r.v) && 0 <= r.v.nonread < |r.v.w|
    decreases b.v.nonread, b.rs
  {
    if b.v.nonread == 0 || b.rs <= 0 || b.v.w[0].unit.None? || stop == 0 then b
    else BufLoop(BufStep(b), stop - 1)
  }

  /** The loop ended at a slot without a unit. */
  predicate NullMet(b: BufResult)
    requires |b.v.w| > 0
  {
    b.v.nonread != 0 && b.rs > 0 && b.v.w[0].unit.None?
  }

  datatype BufRead = BufRead(v: Rcv, data: seq<Byte>, ret: int)

  /** readBufferTo: the number of bytes read, or -1 at a null unit, where it leaves at once. */
  function ReadBuffer(v: Rcv, len: int, stop: nat): (r: BufRead)
    requires 0 <= v.nonread < |v.w| && 0 <= v.notch
    ensures SameConfig(v, r.v)
  {
    var b := BufLoop(BufResult(v, [], len), stop);
    if NullMet(b) then BufRead(b.v, b.data, -1)
    else BufRead(ClampNonread(b.v).(bytes := b.v.bytes - (len - b.rs), pkts := b.v.pkts - 1), b.data, len - b.rs)
  }
}
