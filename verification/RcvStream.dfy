/**
 * Stream mode (no message boundaries, TSBPD off): reads of any sizes, interleaved with arrivals in any order,
 * hand out the payloads of the stream from its beginning without a gap.
 */
module RcvStream {
  import opened SeqNo
  import opened Packets
  import opened RcvModel
  import opened RcvInvariant
  import opened RcvMessages
  import opened RcvSound
  import opened RcvCounters
  import opened RcvExamples

  // ------------------------------------------------------------------ stream mode

  datatype StreamEvent = StreamArrive(u: Unit, j: int) | StreamRead(len: int, stop: nat)

  datatype StreamSession = StreamSession(v: Rcv, out: seq<Byte>)

  function StreamNext(s: StreamSession, ev: StreamEvent): StreamSession
    requires Usable(s.v)
  {
    match ev
    case StreamArrive(u, _) => StreamSession(Insert(s.v, u).0, s.out)
    case StreamRead(len, stop) => var r := ReadBuffer(s.v, len, stop); StreamSession(r.v, s.out + r.data)
  }

  /** What has been handed out: all packets before the start, and the first one up to the notch. */
  ghost predicate HandedOut(v: Rcv, st: seq<Packet>, out: seq<Byte>) {
    && v.base <= |st| && (v.notch > 0 ==> v.base < |st| && v.notch <= |st[v.base].payload|)
    && out == Join(st[..v.base]) + (if v.notch > 0 then st[v.base].payload[..v.notch] else [])
  }

  ghost predicate StreamWindow(v: Rcv, st: seq<Packet>) {
    && !v.messageApi && !v.tsbpd && Numbered(st, v.isn) && NotchOk(v)
    && FromStream(v.w, v.base, st)
    && (forall k :: 0 <= k < |v.w| ==> !IsFiller(v.w[k]))
  }

  ghost predicate StreamInv(s: StreamSession, st: seq<Packet>) {
    && Struct(s.v) && StreamWindow(s.v, st)
    && HandedOut(s.v, st, s.out)
    && s.v.bytes == StoredBytes(s.v.w) - s.v.notch
    && !Has(s.v.w, s.v.nonread)
  }

  /** What holds while readBufferTo loops; the counters are settled after the loop. */
  ghost predicate LoopInv(b: BufResult, st: seq<Packet>, out: seq<Byte>, len: int) {
    && Struct(b.v) && StreamWindow(b.v, st)
    && HandedOut(b.v, st, out + b.data)
    && b.v.bytes - |b.data| == StoredBytes(b.v.w) - b.v.notch
    && !Has(b.v.w, b.v.nonread)
    && b.rs == len - |b.data|
  }

  lemma JoinNext(st: seq<Packet>, n: nat)
    requires n < |st|
    ensures Join(st[..n + 1]) == Join(st[..n]) + st[n].payload
  {
    assert st[..n + 1] == st[..n] + [st[n]];
    JoinConcat(st[..n], [st[n]]);
    assert Join([st[n]]) == st[n].payload + Join([]);
  }

  lemma HandedWhole(v: Rcv, v': Rcv, st: seq<Packet>, out: seq<Byte>)
    requires HandedOut(v, st, out) && 0 <= v.notch && v.base < |st| && v.notch <= |st[v.base].payload|
    requires v'.base == v.base + 1 && v'.notch == 0
    ensures HandedOut(v', st, out + st[v.base].payload[v.notch..])
  {
    var p := st[v.base].payload;
    JoinNext(st, v.base);
    if v.notch > 0 {
      assert out + p[v.notch..] == Join(st[..v.base]) + (p[..v.notch] + p[v.notch..]);
      assert p[..v.notch] + p[v.notch..] == p;
    } else {
      assert p[v.notch..] == p;
    }
  }

  lemma HandedPart(v: Rcv, v': Rcv, st: seq<Packet>, out: seq<Byte>, n: int)
    requires HandedOut(v, st, out) && 0 <= v.notch && v.base < |st| && 0 < n && v.notch + n <= |st[v.base].payload|
    requires v'.base == v.base && v'.notch == v.notch + n
    ensures HandedOut(v', st, out + st[v.base].payload[v.notch..v.notch + n])
  {
    var p := st[v.base].payload;
    assert p[..v.notch] + p[v.notch..v.notch + n] == p[..v.notch + n];
    if v.notch > 0 {
      assert out + p[v.notch..v.notch + n] == Join(st[..v.base]) + (p[..v.notch] + p[v.notch..v.notch + n]);
    } else {
      assert p[v.notch..v.notch + n] == p[..v.notch + n];
    }
  }

  lemma WindowPops(v: Rcv, v': Rcv, st: seq<Packet>)
    requires StreamWindow(v, st) && SameConfig(v, v') && v.w != [] && v'.w == v.w[1..] + [EMPTY]
    requires v'.base == v.base + 1
    requires v'.notch == 0 && 0 < v.nonread < |v.w| && v'.nonread == v.nonread - 1 && !Has(v.w, v.nonread)
    ensures StreamWindow(v', st) && !Has(v'.w, v'.nonread)
  {
    forall k | 0 <= k < |v'.w|
      ensures !IsFiller(v'.w[k])
      ensures v'.w[k].unit.Some? ==> v'.base + k < |st| && v'.w[k].unit.value.packet == st[v'.base + k]
    {
      assert v'.w[k] == (if k < |v.w| - 1 then v.w[k + 1] else EMPTY);
    }
  }

  /** With the notch inside the packet, the bytes copied are those from the notch on. */
  lemma WholeIs(b: BufResult)
    requires Has(b.v.w, 0) && NotchOk(b.v) && b.rs > 0 && b.rs >= |Pkt(b.v.w, 0).payload| - b.v.notch
    ensures var p := Pkt(b.v.w, 0).payload;
      && b.v.notch <= |p|
      && BufStep(b) == BufResult(FreeFront(b.v), b.data + p[b.v.notch..], b.rs - (|p| - b.v.notch))
  {
    hide FreeFront;
  }

  lemma FreedStruct(b: BufResult)
    requires Struct(b.v) && !b.v.messageApi && b.v.nonread > 0 && b.rs > 0 && Has(b.v.w, 0)
    requires b.rs >= |Pkt(b.v.w, 0).payload| - b.v.notch
    ensures var v1 := FreeFront(b.v); Core(v1) && Bounded(v1) && Prefix(v1) && 0 < b.v.nonread < |b.v.w|
  {
    hide Counts;
    BufStepIs(b);
    BufStepSound(b);
    FreeFrontWindow(b.v);
    assert Shifted(b.v.w, 1) == b.v.w[1..] + [EMPTY];
    hide FreeFront, Shifted;
    ShiftedPrefix(b.v, FreeFront(b.v), 1);
  }

  /** A packet read to its end: the start moves on. */
  lemma WholeStep(b: BufResult, st: seq<Packet>, out: seq<Byte>, len: int)
    requires LoopInv(b, st, out, len) && b.v.nonread > 0 && b.rs > 0
    requires Has(b.v.w, 0) && b.rs >= |Pkt(b.v.w, 0).payload| - b.v.notch
    ensures 0 <= b.v.notch && LoopInv(BufStep(b), st, out, len) && BufStep(b).v.nonread == b.v.nonread - 1
  {
    var v := b.v;
    var p := Pkt(v.w, 0).payload;
    assert v.base < |st| && p == st[v.base].payload;
    var v1 := FreeFront(v);
    WholeIs(b);
    assert (out + b.data) + p[v.notch..] == out + (b.data + p[v.notch..]);
    FreedStruct(b);
    FreeFrontWindow(v);
    hide Struct, HandedOut, StreamWindow, StoredBytes, FreeFront, BufStep;
    HandedWhole(v, v1, st, out + b.data);
    WindowPops(v, v1, st);
    PopExact(v.w, v1.w);
    WindowStruct(v1, st);
  }

  lemma WindowStruct(v: Rcv, st: seq<Packet>)
    requires Core(v) && Bounded(v) && Prefix(v) && StreamWindow(v, st)
    ensures Struct(v)
  {
  }

  /** A packet read in part: the notch moves on. */
  lemma PartStep(b: BufResult, st: seq<Packet>, out: seq<Byte>, len: int)
    requires LoopInv(b, st, out, len) && b.v.nonread > 0 && b.rs > 0
    requires Has(b.v.w, 0) && b.rs < |Pkt(b.v.w, 0).payload| - b.v.notch
    ensures 0 <= b.v.notch
    ensures LoopInv(BufStep(b), st, out, len) && BufStep(b).v.nonread == b.v.nonread && BufStep(b).rs == 0
  {
    var v := b.v;
    var p := Pkt(v.w, 0).payload;
    assert v.base < |st| && p == st[v.base].payload;
    assert (out + b.data) + p[v.notch..v.notch + b.rs] == out + (b.data + p[v.notch..v.notch + b.rs]);
    var v1 := v.(notch := v.notch + b.rs);
    assert BufStep(b) == BufResult(v1, b.data + p[v.notch..v.notch + b.rs], 0);
    assert StreamWindow(v1, st);
    NotchStruct(v, v1.notch);
    hide Struct, HandedOut, StreamWindow, StoredBytes, BufStep;
    HandedPart(v, v1, st, out + b.data, b.rs);
  }

  lemma NotchStruct(v: Rcv, notch: nat)
    requires Struct(v)
    ensures Struct(v.(notch := notch))
  {
  }

  lemma LoopFacts(b: BufResult, st: seq<Packet>, out: seq<Byte>, len: int)
    requires LoopInv(b, st, out, len)
    ensures Usable(b.v) && b.v.nonread <= b.v.maxOff && (b.v.nonread > 0 ==> Has(b.v.w, 0))
  {
    hide Counts, StoredBytes;
  }

  lemma {:induction false} BufLoopInv(b: BufResult, st: seq<Packet>, out: seq<Byte>, len: int, stop: nat)
    requires LoopInv(b, st, out, len)
    ensures Usable(b.v) && LoopInv(BufLoop(b, stop), st, out, len)
    ensures b.v.nonread <= stop ==> BufLoop(b, stop).v.nonread == 0 || BufLoop(b, stop).rs <= 0
    ensures b.rs >= 0 ==> BufLoop(b, stop).rs >= 0
    ensures b.rs <= 0 ==> BufLoop(b, stop) == b
    decreases b.v.nonread, b.rs
  {
    hide LoopInv, BufStep;
    LoopFacts(b, st, out, len);
    if b.v.nonread > 0 && b.rs > 0 && stop > 0 {
      if b.rs >= |Pkt(b.v.w, 0).payload| - b.v.notch {
        BufStepIs(b);
        WholeStep(b, st, out, len);
      } else {
        PartStep(b, st, out, len);
      }
      BufLoopInv(BufStep(b), st, out, len, stop - 1);
    }
  }

  /** A read keeps the invariant, meets no null unit, and hands out what was asked for as far as there is enough. */
  lemma StreamReadKeeps(s: StreamSession, st: seq<Packet>, len: int, stop: nat)
    requires StreamInv(s, st)
    ensures Usable(s.v)
    ensures var r := ReadBuffer(s.v, len, stop);
      && StreamInv(StreamSession(r.v, s.out + r.data), st)
      && r.ret == |r.data| <= Max(0, len)
      && (s.v.nonread <= stop ==> |r.data| == Max(0, len) || r.v.nonread == 0)
      && r.v.nonread == BufLoop(BufResult(s.v, [], len), stop).v.nonread
  {
    hide Struct, StoredBytes, BufLoop, HandedOut, StreamWindow;
    var b0 := BufResult(s.v, [], len);
    assert s.out + [] == s.out;
    assert LoopInv(b0, st, s.out, len);
    BufLoopInv(b0, st, s.out, len, stop);
    var b := BufLoop(b0, stop);
    LoopFacts(b, st, s.out, len);
    BufLoopFrees(b0, stop);
    SettleCounters(b.v, st, s.out + b.data, s.v.bytes - |b.data|, s.v.pkts - 1);
  }

  lemma SettleCounters(v: Rcv, st: seq<Packet>, out: seq<Byte>, bytes: int, pkts: int)
    requires Struct(v) && StreamWindow(v, st) && HandedOut(v, st, out)
    ensures var v' := v.(bytes := bytes, pkts := pkts); Struct(v') && StreamWindow(v', st) && HandedOut(v', st, out)
  {
  }

  lemma {:induction false} ExtendToGap(w: seq<Entry>, i: int)
    requires 0 <= i <= |w|
    ensures !Has(w, Extend(w, i, false))
    decreases |w| - i
  {
    if Has(w, i) {
      ExtendToGap(w, i + 1);
    }
  }

  lemma InsertStream(v: Rcv, st: seq<Packet>, u: Unit, k: int)
    requires StreamWindow(v, st) && 0 <= k < |v.w| && v.w[k] == EMPTY && v.base + k < |st| && u.packet == st[v.base + k]
    requires 0 <= v.nonread <= |v.w|
    ensures var v1 := UpdateNonread(Placed(v, u, k)); StreamWindow(v1, st) && !Has(v1.w, v1.nonread)
  {
    PlacedIs(v, u, k);
    hide Placed, Extend;
    ExtendToGap(Placed(v, u, k).w, v.nonread);
  }

  lemma StreamArriveKeeps(s: StreamSession, st: seq<Packet>, u: Unit, j: int)
    requires StreamInv(s, st) && Arrival(s.v, st, u, j)
    ensures |s.v.w| > 0 && 0 <= s.v.nonread <= |s.v.w|
    ensures StreamInv(StreamSession(Insert(s.v, u).0, s.out), st)
  {
    hide StoredBytes, Struct, HandedOut;
    StructFacts(s.v);
    var v := s.v;
    ArrivalOffset(v, st, u, j);
    InsertStruct(v, u);
    StructSound(v);
    InsertExact(v, u);
    InsertFrame(v, u);
    var k := j - v.base;
    if 0 <= k < |v.w| - 1 {
      var v0 := v.(maxOff := Max(v.maxOff, k + 1));
      assert StreamWindow(v0, st);
      hide StreamWindow;
      if v.w[k].status == Empty {
        InsertStream(v0, st, u, k);
      }
    }
    HandedSame(v, Insert(v, u).0, st, s.out);
  }

  lemma StructFacts(v: Rcv)
    requires Struct(v)
    ensures |v.w| > 0 && 0 <= v.nonread <= |v.w|
    ensures forall k :: 0 <= k < |v.w| && v.w[k].status == Empty ==> v.w[k] == EMPTY
  {
  }

  lemma InsertFrame(v: Rcv, u: Unit)
    requires |v.w| > 0 && 0 <= v.nonread <= |v.w|
    ensures Insert(v, u).0.base == v.base && Insert(v, u).0.notch == v.notch
  {
    var k := InsertOffset(v, u);
    if 0 <= k < |v.w| - 1 {
      PlacedIs(v.(maxOff := Max(v.maxOff, k + 1)), u, k);
    }
  }

  lemma HandedSame(v: Rcv, v': Rcv, st: seq<Packet>, out: seq<Byte>)
    requires HandedOut(v, st, out) && v'.base == v.base && v'.notch == v.notch
    ensures HandedOut(v', st, out)
  {
  }

  ghost predicate StreamFollows(s: StreamSession, ev: StreamEvent, s': StreamSession, st: seq<Packet>) {
    && Usable(s.v) && (ev.StreamArrive? ==> Arrival(s.v, st, ev.u, ev.j)) && s' == StreamNext(s, ev)
  }

  ghost predicate IsStreamHistory(ss: seq<StreamSession>, evs: seq<StreamEvent>, st: seq<Packet>) {
    && |ss| == |evs| + 1
    && (forall i :: 0 <= i < |evs| ==> StreamFollows(ss[i], evs[i], ss[i + 1], st))
  }

  lemma StreamStart(isn: nat, size: nat, st: seq<Packet>)
    requires 0 < size < MAX_SEQNO && Numbered(st, isn)
    ensures StreamInv(StreamSession(Init(isn, size, false, false), []), st)
  {
    InitStruct(isn, size, false, false);
    NothingStored(size);
    hide Struct, StoredBytes;
  }

  lemma {:induction false} StreamRun(ss: seq<StreamSession>, evs: seq<StreamEvent>, st: seq<Packet>, isn: nat,
                                     size: nat, n: nat)
    requires 0 < size < MAX_SEQNO && Numbered(st, isn) && IsStreamHistory(ss, evs, st) && n < |ss|
    requires ss[0] == StreamSession(Init(isn, size, false, false), [])
    ensures StreamInv(ss[n], st)
  {
    if n == 0 {
      StreamStart(isn, size, st);
    } else {
      StreamRun(ss, evs, st, isn, size, n - 1);
      hide StreamInv, Insert, ReadBuffer;
      assert StreamFollows(ss[n - 1], evs[n - 1], ss[n - 1 + 1], st);
      match evs[n - 1]
      case StreamArrive(u, j) => StreamArriveKeeps(ss[n - 1], st, u, j);
      case StreamRead(len, stop) => StreamReadKeeps(ss[n - 1], st, len, stop);
    }
  }

  lemma {:induction false} JoinPrefix(st: seq<Packet>, n: nat)
    requires n <= |st|
    ensures Join(st) == Join(st[..n]) + Join(st[n..])
  {
    assert st == st[..n] + st[n..];
    JoinConcat(st[..n], st[n..]);
  }

  /** Over any history the bytes handed out are a prefix of the stream's payloads, and the byte counter is exact. */
  lemma StreamPrefix(ss: seq<StreamSession>, evs: seq<StreamEvent>, st: seq<Packet>, isn: nat, size: nat, n: nat)
    requires 0 < size < MAX_SEQNO && Numbered(st, isn) && IsStreamHistory(ss, evs, st) && n < |ss|
    requires ss[0] == StreamSession(Init(isn, size, false, false), [])
    ensures ss[n].out <= Join(st)
    ensures ss[n].v.bytes == StoredBytes(ss[n].v.w) - ss[n].v.notch
  {
    StreamRun(ss, evs, st, isn, size, n);
    var v := ss[n].v;
    hide Struct, StoredBytes, StreamWindow;
    JoinPrefix(st, v.base);
    if v.notch > 0 {
      assert st[v.base..][0] == st[v.base];
      assert st[v.base].payload[..v.notch] <= st[v.base].payload;
    }
  }

  /** When no packet from the start on is missing, a large enough read hands out the rest of the stream. */
  lemma StreamComplete(s: StreamSession, st: seq<Packet>, len: int, stop: nat)
    requires StreamInv(s, st) && forall k :: 0 <= k < |st| - s.v.base ==> Has(s.v.w, k)
    requires len > |Join(st)| && s.v.nonread <= stop
    ensures Usable(s.v) && s.out + ReadBuffer(s.v, len, stop).data == Join(st)
  {
    var r := StreamReadOut(s, st, len, stop);
    hide ReadBuffer;
    JoinPrefix(st, r.v.base);
    assert st[..|st|] == st;
    assert Join([]) == [];
  }

  lemma StreamReadOut(s: StreamSession, st: seq<Packet>, len: int, stop: nat) returns (r: StreamSession)
    requires StreamInv(s, st) && forall k :: 0 <= k < |st| - s.v.base ==> Has(s.v.w, k)
    requires len > |Join(st)| && s.v.nonread <= stop
    ensures Usable(s.v)
    ensures r == StreamSession(ReadBuffer(s.v, len, stop).v, s.out + ReadBuffer(s.v, len, stop).data)
    ensures r.v.base == |st| && r.v.notch == 0 && StreamInv(r, st)
  {
    StreamReadKeeps(s, st, len, stop);
    r := StreamSession(ReadBuffer(s.v, len, stop).v, s.out + ReadBuffer(s.v, len, stop).data);
    OutWithin(r, st);
    GapAtEnd(s, st);
    BufLoopFrees(BufResult(s.v, [], len), stop);
    hide Struct, StoredBytes, BufLoop, StreamWindow;
    StreamEmpty(r, st);
  }

  lemma OutWithin(s: StreamSession, st: seq<Packet>)
    requires StreamInv(s, st)
    ensures |s.out| <= |Join(st)|
  {
    hide Struct, StoredBytes, StreamWindow;
    JoinPrefix(st, s.v.base);
    if s.v.notch > 0 {
      assert st[s.v.base..][0] == st[s.v.base];
    }
  }

  lemma GapAtEnd(s: StreamSession, st: seq<Packet>)
    requires StreamInv(s, st) && forall k :: 0 <= k < |st| - s.v.base ==> Has(s.v.w, k)
    ensures s.v.nonread == |st| - s.v.base
  {
    hide Counts, StoredBytes;
    if s.v.nonread > 0 {
      assert s.v.w[s.v.nonread - 1].unit.Some?;
    }
  }

  lemma StreamEmpty(s: StreamSession, st: seq<Packet>)
    requires StreamInv(s, st) && s.v.nonread == 0
    ensures s.v.notch == 0
  {
    hide Struct, StoredBytes;
  }

  // ------------------------------------------------------------------ the packet counter of stream mode

  lemma {:induction false} ShiftedStored(w: seq<Entry>, n: nat)
    requires StoredBefore(w, n)
    ensures CountIf(Shifted(w, n), IsStored) == CountIf(w, IsStored) - n
    decreases n
  {
    hide CountIf;
    if n > 0 {
      PopExact(w, w[1..] + [EMPTY]);
      ShiftedStored(w[1..] + [EMPTY], n - 1);
    }
  }

  /** The request covers the rest of the first packet, and not the whole of the second one as well. */
  predicate TakesOne(v: Rcv, len: int, stop: nat)
    requires 0 <= v.nonread < |v.w| && forall k :: 0 <= k < v.nonread ==> v.w[k].unit.Some?
  {
    && v.nonread > 0 && stop > 0 && len > 0
    && var rest := |Pkt(v.w, 0).payload| - v.notch;
    && len >= rest
    && !(v.nonread > 1 && stop > 1 && len > rest && len - rest >= |Pkt(v.w, 1).payload|)
  }

  lemma FreesOneIff(v: Rcv, len: int, stop: nat)
    requires 0 <= v.nonread < |v.w| && forall k :: 0 <= k < v.nonread ==> v.w[k].unit.Some?
    ensures Freed(v.w, 0, v.nonread, v.notch, len, stop) == 1 <==> TakesOne(v, len, stop)
  {
  }

  /**
   * m_iPktsCount drops by one on every readBuffer. So a call leaves it exact if and only if the bytes asked for
   * reach the end of the first readable packet but not that of the second.
   */
  lemma PktsExactIff(s: StreamSession, st: seq<Packet>, len: int, stop: nat)
    requires StreamInv(s, st) && s.v.pkts == CountIf(s.v.w, IsStored)
    ensures Usable(s.v) && StoredBefore(s.v.w, s.v.nonread)
    ensures var r := ReadBuffer(s.v, len, stop).v; r.pkts == CountIf(r.w, IsStored) <==> TakesOne(s.v, len, stop)
  {
    hide StoredBytes, CountIf, Counts;
    StreamReadKeeps(s, st, len, stop);
    BufLoopFrees(BufResult(s.v, [], len), stop);
    ShiftedStored(s.v.w, Freed(s.v.w, 0, s.v.nonread, s.v.notch, len, stop));
    FreesOneIff(s.v, len, stop);
    hide Struct, BufLoop, Freed;
  }

  /** A read of one byte from a packet of two: nothing is released, and the counter says that nothing is stored. */
  lemma PktsDrift()
    ensures var v := InStream([Holding(0, [1, 2]), EMPTY], 0, 1, 1, 0, 2, 1, {0});
      && StreamInv(StreamSession(v, []), [Data(0, [1, 2])]) && v.pkts == CountIf(v.w, IsStored)
      && Usable(v) && var r := ReadBuffer(v, 1, 1);
      && r.data == [1] && r.v.pkts == 0 && CountIf(r.v.w, IsStored) == 1
  {
    var v := InStream([Holding(0, [1, 2]), EMPTY], 0, 1, 1, 0, 2, 1, {0});
    HoldsOne();
    assert v.w[1..] == [EMPTY];
    assert CountIf([EMPTY], IsStored) == 0;
    assert CountIf(v.w, IsStored) == 1;
    assert StoredBytes([EMPTY]) == 0;
    assert StoredBytes(v.w) == 2;
    var b := BufResult(v.(notch := 1), [1], 0);
    assert BufStep(BufResult(v, [], 1)) == b;
    assert BufLoop(b, 0) == b;
    assert BufLoop(BufResult(v, [], 1), 1) == b;
  }

  lemma HoldsOne()
    ensures Struct(InStream([Holding(0, [1, 2]), EMPTY], 0, 1, 1, 0, 2, 1, {0}))
  {
    var w := [Holding(0, [1, 2]), EMPTY];
    assert w[1..] == [EMPTY];
    forall id: nat
      ensures Copies(w, id) == if id in {0} then 1 else 0
    {
      assert Copies([EMPTY], id) == 0;
    }
  }
}
