/** What m_iBytesCount and m_iPktsCount say, against what is stored. */
module RcvCounters {
  import opened Packets
  import opened RcvModel
  import opened RcvInvariant
  import opened RcvSound
  import opened RcvRun

  function Size1(e: Entry): nat {
    if e.unit.Some? then |e.unit.value.packet.payload| else 0
  }

  function StoredBytes(w: seq<Entry>): nat {
    if w == [] then 0 else Size1(w[0]) + StoredBytes(w[1..])
  }

  predicate IsStored(e: Entry) {
    e.unit.Some?
  }

  lemma {:induction false} BytesConcat(a: seq<Entry>, b: seq<Entry>)
    ensures StoredBytes(a + b) == StoredBytes(a) + StoredBytes(b)
  {
    if a == [] {
      assert a + b == b;
    } else {
      assert (a + b)[1..] == a[1..] + b;
      BytesConcat(a[1..], b);
    }
  }

  lemma {:induction false} BytesUpdate(w: seq<Entry>, k: int, e: Entry)
    requires 0 <= k < |w|
    ensures StoredBytes(w[k := e]) == StoredBytes(w) - Size1(w[k]) + Size1(e)
  {
    if k == 0 {
      assert w[k := e][1..] == w[1..];
    } else {
      assert w[k := e][1..] == w[1..][k - 1 := e];
      BytesUpdate(w[1..], k - 1, e);
    }
  }

  // ------------------------------------------------------------------ insert and readMessage

  lemma InsertExact(v: Rcv, u: Unit)
    requires Sound(v)
    ensures Insert(v, u).0.bytes - StoredBytes(Insert(v, u).0.w) == v.bytes - StoredBytes(v.w)
    ensures Insert(v, u).0.pkts - CountIf(Insert(v, u).0.w, IsStored) == v.pkts - CountIf(v.w, IsStored)
  {
    hide Counts, CountIf, StoredBytes, Extend;
    var k := InsertOffset(v, u);
    if 0 <= k < |v.w| - 1 && v.w[k].status == Empty {
      PlacedIs(v.(maxOff := Max(v.maxOff, k + 1)), u, k);
      assert v.w[k].unit.None?;
      hide Sound, Placed;
      CountUpdate(v.w, k, Entry(Some(u), Avail), IsStored);
      BytesUpdate(v.w, k, Entry(Some(u), Avail));
    }
  }

  lemma PopExact(w: seq<Entry>, w': seq<Entry>)
    requires w != [] && w' == w[1..] + [EMPTY]
    ensures StoredBytes(w') == StoredBytes(w) - Size1(w[0])
    ensures CountIf(w', IsStored) == CountIf(w, IsStored) - (if IsStored(w[0]) then 1 else 0)
  {
    BytesConcat(w[1..], [EMPTY]);
    CountConcat(w[1..], [EMPTY], IsStored);
  }

  lemma {:induction false} ReadFrontNExact(v: Rcv, n: nat)
    requires |v.w| > 0 && StoredBefore(v.w, n)
    ensures StoredBytes(ReadFrontN(v, n).w) == StoredBytes(v.w) - |Payloads(v.w, 0, n)|
    ensures CountIf(ReadFrontN(v, n).w, IsStored) == CountIf(v.w, IsStored) - n
    decreases n
  {
    hide StoredBytes, CountIf;
    if n > 0 {
      var v1 := ReadFront(v);
      assert v1.w == v.w[1..] + [EMPTY];
      PopExact(v.w, v1.w);
      PayloadsShift(v.w, v1.w, 1, n);
      hide ReadFront;
      ReadFrontNExact(v1, n - 1);
    }
  }

  lemma {:induction false} PayloadsShift(w: seq<Entry>, w1: seq<Entry>, i: int, n: int)
    requires w != [] && w1 == w[1..] + [EMPTY] && 1 <= i <= n <= |w| && forall k :: i <= k < n ==> w[k].unit.Some?
    ensures (forall k :: i - 1 <= k < n - 1 ==> w1[k].unit.Some?) && Payloads(w1, i - 1, n - 1) == Payloads(w, i, n)
    decreases n - i
  {
    if i < n {
      PayloadsShift(w, w1, i + 1, n);
    }
  }

  lemma {:induction false} ReadRangeExact(v: Rcv, r: int, e: int)
    requires 0 <= r <= e <= |v.w| && forall k :: r <= k < e ==> v.w[k].unit.Some?
    ensures StoredBytes(ReadRange(v, r, e).w) == StoredBytes(v.w) - |Payloads(v.w, r, e)|
    ensures CountIf(ReadRange(v, r, e).w, IsStored) == CountIf(v.w, IsStored) - (e - r)
    decreases e - r
  {
    hide StoredBytes, CountIf;
    if r < e {
      var v1 := ReadAt(v, r);
      assert v1.w == v.w[r := Entry(None, Read)];
      BytesUpdate(v.w, r, Entry(None, Read));
      CountUpdate(v.w, r, Entry(None, Read), IsStored);
      PayloadsSame(v.w, v1.w, r + 1, e);
      hide ReadAt;
      ReadRangeExact(v1, r + 1, e);
    }
  }

  lemma {:induction false} PayloadsSame(w: seq<Entry>, w1: seq<Entry>, i: int, e: int)
    requires 0 <= i <= e <= |w| == |w1| && forall k :: i <= k < e ==> w[k].unit.Some? && w1[k] == w[k]
    ensures Payloads(w1, i, e) == Payloads(w, i, e)
    decreases e - i
  {
    if i < e {
      PayloadsSame(w, w1, i + 1, e);
    }
  }

  lemma {:induction false} ReleasedExact(v: Rcv)
    requires Core(v)
    ensures StoredBytes(ReleaseFillers(v).w) == StoredBytes(v.w)
    ensures CountIf(ReleaseFillers(v).w, IsStored) == CountIf(v.w, IsStored)
    ensures ReleaseFillers(v).bytes == v.bytes && ReleaseFillers(v).pkts == v.pkts
    decreases Lead(v.w)
  {
    hide StoredBytes, CountIf, Counts;
    if IsFiller(v.w[0]) {
      var v1 := FillerFront(v);
      FillerFrontCore(v);
      assert v1.w == v.w[1..] + [EMPTY];
      PopExact(v.w, v1.w);
      LeadAfterPop(v.w);
      hide FillerFront;
      ReleasedExact(v1);
    }
  }

  lemma ConsumedExact(v: Rcv, r: int, e: int)
    requires |v.w| > 0 && 0 <= r <= e <= |v.w| && (forall k :: r <= k < e ==> v.w[k].unit.Some?)
    ensures var c := Consumed(v, r, e);
      && c.bytes - StoredBytes(c.w) == v.bytes - StoredBytes(v.w)
      && c.pkts - CountIf(c.w, IsStored) == v.pkts - CountIf(v.w, IsStored)
  {
    hide StoredBytes, CountIf, ReadFrontN, ReadRange, Payloads;
    if r == 0 {
      ReadFrontNExact(v, e);
    } else {
      ReadRangeExact(v, r, e);
    }
  }

  /** Reading a message takes off the counters what it takes out of the buffer. */
  lemma ReadMessageExact(v: Rcv, len: nat)
    requires Sound(v)
    ensures var v' := ReadMessage(v, len).v;
      && v'.bytes - StoredBytes(v'.w) == v.bytes - StoredBytes(v.w)
      && v'.pkts - CountIf(v'.w, IsStored) == v.pkts - CountIf(v.w, IsStored)
  {
    hide Counts, StoredBytes, CountIf, AfterRead, Consumed, ReadEnd, Payloads;
    var r := ReadPos(v);
    if r >= 0 {
      var e := ReadEnd(v.w, r);
      ConsumedExact(v, r, e);
      ConsumedSound(v, r, e);
      hide Sound;
      AfterReadExact(Consumed(v, r, e));
    }
  }

  lemma AfterReadExact(v: Rcv)
    requires Core(v)
    ensures StoredBytes(AfterRead(v).w) == StoredBytes(v.w)
    ensures CountIf(AfterRead(v).w, IsStored) == CountIf(v.w, IsStored)
    ensures AfterRead(v).bytes == v.bytes && AfterRead(v).pkts == v.pkts
  {
    hide Core, ReleaseFillers, StoredBytes, CountIf, FindOoo;
    CoreRanged(v);
    ReleasedExact(v);
  }

  // ------------------------------------------------------------------ whole runs

  /** The counters are the bytes and the packets stored. */
  ghost predicate Exact(v: Rcv) {
    v.bytes == StoredBytes(v.w) && v.pkts == CountIf(v.w, IsStored)
  }

  lemma {:induction false} NothingStored(n: nat)
    ensures StoredBytes(seq(n, _ => EMPTY)) == 0 && CountIf(seq(n, _ => EMPTY), IsStored) == 0
  {
    if n > 0 {
      assert seq(n, _ => EMPTY)[1..] == seq(n - 1, _ => EMPTY);
      NothingStored(n - 1);
    }
  }

  /** In every run that only inserts and reads messages both counters stay exact, on any packets. */
  lemma {:induction false} CountersExact(vs: seq<Rcv>, ops: seq<Op>, n: nat)
    requires IsRun(vs, ops) && Sound(vs[0]) && Exact(vs[0]) && n < |vs|
    requires forall i :: 0 <= i < n ==> ops[i].OpInsert? || ops[i].OpReadMessage?
    ensures Exact(vs[n])
  {
    hide Sound, Insert, ReadMessage, StoredBytes, CountIf, Returns;
    if n > 0 {
      CountersExact(vs, ops, n - 1);
      RunSound(vs, ops, n - 1);
      match ops[n - 1]
      case OpInsert(u) => InsertExact(vs[n - 1], u);
      case OpReadMessage(len) => ReadMessageExact(vs[n - 1], len);
      case _ =>
    }
  }
}
