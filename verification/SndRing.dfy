/**
 * The circle of blocks of the sender buffer: blocks linked to each other over shared payload space, how the circle is
 * built, spliced and turned, and what it means that its first blocks hold a queue of packets.
 */
module SndRing {
  import opened Packets
  import opened SndModel

  class Block {
    const store: array<Byte>
    const at: nat
    var length: nat
    var head: Header
    var next: Block?

    /** The sequence number and the times of a fresh block are left as they are. */
    constructor (store: array<Byte>, at: nat)
      ensures this.store == store && this.at == at
    {
      this.store, this.at, length, next := store, at, 0, null;
    }
  }

  /** The blocks are distinct and linked into a circle, and no two of them share a byte of payload space. */
  ghost predicate Circle(ring: seq<Block>, blockLen: nat)
    reads ring`next
  {
    ring != [] && Linked(ring) && ring[|ring| - 1].next == ring[0] && Apart(ring, blockLen)
  }

  ghost predicate Linked(bs: seq<Block>)
    reads bs`next
  {
    forall i {:trigger bs[i].next} :: 0 <= i < |bs| - 1 ==> bs[i].next == bs[i + 1]
  }

  ghost predicate Apart(bs: seq<Block>, blockLen: nat) {
    forall i, j {:trigger Disjoint(bs[i], bs[j], blockLen)} :: 0 <= i < j < |bs| ==> Disjoint(bs[i], bs[j], blockLen)
  }

  lemma OneIndex(bs: seq<Block>, blockLen: nat, i: nat, j: nat)
    requires Apart(bs, blockLen) && i < |bs| && j < |bs|
    ensures bs[i] == bs[j] <==> i == j
  {
    if i < j {
      assert Disjoint(bs[i], bs[j], blockLen);
    } else if j < i {
      assert Disjoint(bs[j], bs[i], blockLen);
    }
  }

  lemma OneIndexAll(bs: seq<Block>, blockLen: nat, j: nat)
    requires Apart(bs, blockLen) && j < |bs|
    ensures forall i :: 0 <= i < |bs| && i != j ==> bs[i] != bs[j]
  {
    forall i | 0 <= i < |bs| && i != j
      ensures bs[i] != bs[j]
    {
      OneIndex(bs, blockLen, i, j);
    }
  }

  predicate Disjoint(a: Block, b: Block, blockLen: nat) {
    a != b && (a.store != b.store || a.at + blockLen <= b.at || b.at + blockLen <= a.at)
  }

  predicate Within(b: Block, buffers: seq<array<Byte>>, blockLen: nat) {
    b.store in buffers && b.at + blockLen <= b.store.Length
  }

  ghost predicate Holds(b: Block, p: SndPacket, blockLen: nat)
    reads b`head, b`length, b.store
  {
    b.head == p.h && b.length == |p.payload| <= blockLen && b.at + b.length <= b.store.Length
    && b.store[b.at..b.at + b.length] == p.payload
  }

  /** The first blocks hold the packets of q. */
  ghost predicate Held(ring: seq<Block>, buffers: seq<array<Byte>>, q: seq<SndPacket>, blockLen: nat)
    reads ring`head, ring`length, buffers
    requires forall i :: 0 <= i < |ring| ==> Within(ring[i], buffers, blockLen)
  {
    |q| <= |ring| && forall i :: 0 <= i < |q| ==>
      assert Within(ring[i], buffers, blockLen); Holds(ring[i], q[i], blockLen)
  }

  /** Writes one packet into a block, as memcpy and the field assignments do. */
  method Store(b: Block, p: SndPacket, blockLen: nat)
    requires |p.payload| <= blockLen && b.at + blockLen <= b.store.Length
    modifies b`head, b`length, b.store
    ensures Holds(b, p, blockLen)
    ensures forall j :: 0 <= j < b.store.Length && !(b.at <= j < b.at + blockLen) ==> b.store[j] == old(b.store[j])
  {
    var j := 0;
    while j < |p.payload|
      invariant 0 <= j <= |p.payload|
      invariant b.store[b.at..b.at + j] == p.payload[..j]
      invariant forall i :: 0 <= i < b.store.Length && !(b.at <= i < b.at + blockLen) ==> b.store[i] == old(b.store[i])
    {
      b.store[b.at + j] := p.payload[j];
      j := j + 1;
    }
    b.length, b.head := |p.payload|, p.h;
  }

  /** Writing the next free block adds its packet and leaves what the others hold alone. */
  method StoreAt(b: Block, p: SndPacket, blockLen: nat, ghost ring: seq<Block>, ghost buffers: seq<array<Byte>>,
                 ghost q: seq<SndPacket>)
    requires Apart(ring, blockLen) && (forall i :: 0 <= i < |ring| ==> Within(ring[i], buffers, blockLen))
    requires Held(ring, buffers, q, blockLen) && |q| < |ring| && b == ring[|q|] && |p.payload| <= blockLen
    modifies b`head, b`length, b.store
    ensures Held(ring, buffers, q + [p], blockLen)
  {
    assert Within(ring[|q|], buffers, blockLen);
    Store(b, p, blockLen);
    forall i | 0 <= i < |q|
      ensures Holds(ring[i], q[i], blockLen)
    {
      var c := ring[i];
      assert old(Holds(c, q[i], blockLen));
      assert Disjoint(ring[i], ring[|q|], blockLen);
      assert c.store[c.at..c.at + c.length] == old(c.store[c.at..c.at + c.length]);
    }
  }

  /** Changing a header changes that packet only. */
  method Rehead(b: Block, h: Header, blockLen: nat, ghost ring: seq<Block>, ghost buffers: seq<array<Byte>>,
                ghost q: seq<SndPacket>, ghost k: nat)
    requires Apart(ring, blockLen) && (forall i :: 0 <= i < |ring| ==> Within(ring[i], buffers, blockLen))
    requires Held(ring, buffers, q, blockLen) && k < |q| && b == ring[k]
    modifies b`head
    ensures Held(ring, buffers, q[k := q[k].(h := h)], blockLen)
  {
    OneIndexAll(ring, blockLen, k);
    assert Holds(ring[k], q[k], blockLen);
    hide Apart, Within;
    b.head := h;
  }

  lemma MulStep(i: nat, n: nat, d: nat)
    requires i < n
    ensures i * d + d <= n * d && (i + 1) * d == i * d + d
  {
    MulMono(i + 1, n, d);
  }

  /** n linked blocks, each over its own stretch of the array. */
  method Chain(store: array<Byte>, n: nat, blockLen: nat) returns (head: Block, tail: Block, ghost bs: seq<Block>)
    requires n > 0 && blockLen > 0 && store.Length == n * blockLen
    ensures |bs| == n && head == bs[0] && tail == bs[n - 1] && Linked(bs) && Apart(bs, blockLen)
    ensures forall i :: 0 <= i < n ==> fresh(bs[i]) && bs[i].store == store && bs[i].at + blockLen <= store.Length
  {
    MulStep(0, n, blockLen);
    head := new Block(store, 0);
    tail, bs := head, [head];
    var i, pc := 1, blockLen;
    while i < n
      invariant 1 <= i <= n && |bs| == i && head == bs[0] && tail == bs[i - 1] && pc == i * blockLen
      invariant Linked(bs)
      invariant forall j :: 0 <= j < i ==>
                fresh(bs[j]) && bs[j].store == store && bs[j].at + blockLen <= pc <= store.Length
      invariant Apart(bs, blockLen)
      invariant fresh(tail)
    {
      MulStep(i, n, blockLen);
      var b := new Block(store, pc);
      OneIndexAll(bs, blockLen, i - 1);
      tail.next := b;
      tail, bs := b, bs + [b];
      i, pc := i + 1, pc + blockLen;
    }
  }

  ghost function Spliced(ring: seq<Block>, k: nat, bs: seq<Block>): (r: seq<Block>)
    requires k < |ring|
    ensures |r| == |ring| + |bs| && (forall b :: b in r ==> b in ring || b in bs)
    ensures forall i :: 0 <= i < |r| ==>
      r[i] == if i <= k then ring[i] else if i <= k + |bs| then bs[i - k - 1] else ring[i - |bs|]
  {
    ring[..k + 1] + bs + ring[k + 1..]
  }

  lemma SplicedApart(ring: seq<Block>, k: nat, bs: seq<Block>, blockLen: nat)
    requires k < |ring| && Apart(ring, blockLen) && Apart(bs, blockLen)
    requires forall i, j :: 0 <= i < |ring| && 0 <= j < |bs| ==> ring[i] != bs[j] && ring[i].store != bs[j].store
    ensures Apart(Spliced(ring, k, bs), blockLen)
  {
    var r := Spliced(ring, k, bs);
    hide Spliced;
    forall i, j | 0 <= i < j < |r|
      ensures Disjoint(r[i], r[j], blockLen)
    {
      var a := if i <= k then i else i - |bs|;
      var b := if j <= k then j else j - |bs|;
      if k < i <= k + |bs| {
        if k < j <= k + |bs| {
          assert Disjoint(bs[i - k - 1], bs[j - k - 1], blockLen);
        } else {
          assert ring[b] != bs[i - k - 1] && ring[b].store != bs[i - k - 1].store;
        }
      } else if k < j <= k + |bs| {
        assert ring[a] != bs[j - k - 1] && ring[a].store != bs[j - k - 1].store;
      } else {
        assert Disjoint(ring[a], ring[b], blockLen);
      }
    }
  }

  /** Once the first free block points into the new blocks and they point back, the circle is whole again. */
  lemma SplicedNext(ring: seq<Block>, k: nat, bs: seq<Block>, i: nat)
    requires k < |ring| && bs != [] && i < |ring| + |bs| - 1
    requires i < k ==> ring[i].next == ring[i + 1]
    requires i == k ==> ring[k].next == bs[0]
    requires k < i < k + |bs| ==> bs[i - k - 1].next == bs[i - k]
    requires i == k + |bs| ==> bs[|bs| - 1].next == ring[k + 1]
    requires k + |bs| < i ==> ring[i - |bs|].next == ring[i - |bs| + 1]
    ensures var r := Spliced(ring, k, bs); r[i].next == r[i + 1]
  {
    var r := Spliced(ring, k, bs);
    hide Spliced;
  }

  lemma SplicedEnds(ring: seq<Block>, k: nat, bs: seq<Block>)
    requires k < |ring| && bs != []
    ensures var r := Spliced(ring, k, bs);
      r[0] == ring[0] && r[|r| - 1] == if k + 1 == |ring| then bs[|bs| - 1] else ring[|ring| - 1]
  {
    var r := Spliced(ring, k, bs);
    hide Spliced;
  }

  lemma SplicedLinked(ring: seq<Block>, k: nat, bs: seq<Block>)
    requires k < |ring| && bs != [] && Linked(bs)
    requires forall i {:trigger ring[i].next} :: 0 <= i < |ring| - 1 && i != k ==> ring[i].next == ring[i + 1]
    requires ring[k].next == bs[0] && bs[|bs| - 1].next == if k + 1 < |ring| then ring[k + 1] else ring[0]
    requires k + 1 < |ring| ==> ring[|ring| - 1].next == ring[0]
    ensures var r := Spliced(ring, k, bs); Linked(r) && r[|r| - 1].next == r[0]
  {
    SplicedEnds(ring, k, bs);
    var r, n := Spliced(ring, k, bs), |ring| + |bs| - 1;
    assert |r| == n + 1;
    hide Spliced;
    forall i {:trigger r[i].next} | 0 <= i < n
      ensures r[i].next == r[i + 1]
    {
      SplicedNext(ring, k, bs, i);
    }
  }

  /** Links a chain of unused blocks in after the k-th one. */
  method Splice(at: Block, head: Block, tail: Block, ghost ring: seq<Block>, ghost k: nat, ghost bs: seq<Block>,
                ghost blockLen: nat)
    requires k < |ring| && at == ring[k]
    requires Circle(ring, blockLen)
    requires bs != [] && Apart(bs, blockLen) && head == bs[0] && tail == bs[|bs| - 1] && Linked(bs)
    requires forall i, j :: 0 <= i < |ring| && 0 <= j < |bs| ==> ring[i] != bs[j] && ring[i].store != bs[j].store
    modifies at`next, tail`next
    ensures Circle(Spliced(ring, k, bs), blockLen)
  {
    hide Spliced, Apart;
    OneIndexAll(ring, blockLen, k);
    OneIndexAll(bs, blockLen, |bs| - 1);
    SplicedApart(ring, k, bs, blockLen);
    tail.next := at.next;
    at.next := head;
    SplicedLinked(ring, k, bs);
  }

  ghost function Turned(ring: seq<Block>, k: nat): (r: seq<Block>)
    requires k < |ring|
    ensures |r| == |ring| && (forall b :: b in r ==> b in ring) && (forall b :: b in ring ==> b in r)
    ensures forall i :: 0 <= i < |r| ==> r[i] == if i < |ring| - k then ring[i + k] else ring[i - (|ring| - k)]
  {
    var r := ring[k..] + ring[..k];
    assert forall i :: 0 <= i < |ring| ==> ring[i] == if i < k then r[i + (|ring| - k)] else r[i - k];
    r
  }

  lemma TurnedCircle(ring: seq<Block>, k: nat, blockLen: nat)
    requires k < |ring| && Circle(ring, blockLen)
    ensures Circle(Turned(ring, k), blockLen)
  {
    var r := Turned(ring, k);
    var n := |ring| - k;
    hide Turned;
    forall i, j {:trigger Disjoint(r[i], r[j], blockLen)} | 0 <= i < j < |r|
      ensures Disjoint(r[i], r[j], blockLen)
    {
      var a := if i < n then i + k else i - n;
      var b := if j < n then j + k else j - n;
      if a < b {
        assert Disjoint(ring[a], ring[b], blockLen);
      } else {
        assert Disjoint(ring[b], ring[a], blockLen);
      }
    }
    forall i {:trigger r[i].next} | 0 <= i < |r| - 1
      ensures r[i].next == r[i + 1]
    {
      if i < n - 1 {
        assert ring[i + k].next == ring[i + k + 1];
      } else if i >= n {
        assert ring[i - n].next == ring[i - n + 1];
      }
    }
    if k > 0 {
      assert ring[k - 1].next == ring[k];
    }
  }

  lemma TurnedHeld(ring: seq<Block>, buffers: seq<array<Byte>>, q: seq<SndPacket>, k: nat, blockLen: nat)
    requires forall i :: 0 <= i < |ring| ==> Within(ring[i], buffers, blockLen)
    requires Held(ring, buffers, q, blockLen) && k <= |q| < |ring|
    ensures forall i :: 0 <= i < |ring| ==> Within(Turned(ring, k)[i], buffers, blockLen)
    ensures Held(Turned(ring, k), buffers, q[k..], blockLen)
  {
    var r := Turned(ring, k);
    hide Turned, Holds, Within;
    forall i | 0 <= i < |q[k..]|
      ensures Holds(r[i], q[k..][i], blockLen)
    {
      assert Holds(ring[i + k], q[i + k], blockLen);
    }
  }

  lemma TotalFrom(q: seq<SndPacket>, k: nat)
    requires k < |q|
    ensures TotalBytes(q[k..]) == |q[k].payload| + TotalBytes(q[k + 1..])
  {
    assert q[k..][1..] == q[k + 1..];
  }

  lemma StampMore(q: seq<SndPacket>, i: nat, k: nat, keyFlags: int)
    requires i <= k < |q| && -1 <= keyFlags <= 3
    ensures StampRange(q, i, k + 1, keyFlags) == StampRange(q, i, k, keyFlags)[k := Stamp(q[k], keyFlags)]
    ensures StampRange(q, i, k, keyFlags)[k] == q[k]
  {
    hide StampRange, Stamp;
  }

  lemma SkipIs(q: seq<SndPacket>, cur: nat, now: int, k: nat)
    requires cur <= k <= |q| && (forall i :: cur <= i < k ==> Expired(q[i], now)) && (k < |q| ==> !Expired(q[k], now))
    ensures SkipExpired(q, cur, now) == k
  {
    hide SkipExpired;
  }

  lemma RunIs(q: seq<SndPacket>, i: nat, m: nat, e: nat)
    requires i <= e <= |q| && (forall j :: i <= j < e ==> q[j].h.msgno == m) && (e < |q| ==> q[e].h.msgno != m)
    ensures RunOf(q, i, m) == e
  {
    hide RunOf;
  }

  lemma TotalUpTo(q: seq<SndPacket>, k: nat)
    requires k < |q|
    ensures TotalBytes(q[..k + 1]) == TotalBytes(q[..k]) + |q[k].payload|
  {
    assert q[..k + 1] == q[..k] + [q[k]];
    TotalConcat(q[..k], [q[k]]);
  }

  lemma NoBytes(q: seq<SndPacket>)
    ensures TotalBytes(q[..0]) == 0
  {
  }

  lemma TotalRehead(q: seq<SndPacket>, k: nat, h: Header)
    requires k < |q|
    ensures TotalBytes(q[k := q[k].(h := h)]) == TotalBytes(q)
  {
    SameTotal(q, q[k := q[k].(h := h)]);
  }

  lemma {:induction false} SameTotal(a: seq<SndPacket>, b: seq<SndPacket>)
    requires |a| == |b| && forall i :: 0 <= i < |a| ==> |a[i].payload| == |b[i].payload|
    ensures TotalBytes(a) == TotalBytes(b)
  {
    if a != [] {
      assert forall i :: 0 <= i < |a| - 1 ==> a[1..][i] == a[i + 1] && b[1..][i] == b[i + 1];
      SameTotal(a[1..], b[1..]);
    }
  }

  lemma LateCountIs(q: seq<SndPacket>, tooLate: int, k: nat)
    requires k <= |q| && (forall i :: 0 <= i < k ==> q[i].h.origin < tooLate) && (k < |q| ==> q[k].h.origin >= tooLate)
    ensures LateCount(q, tooLate) == k
  {
    hide LateCount;
  }
}
