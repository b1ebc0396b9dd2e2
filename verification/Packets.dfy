/** Data packets as the sender stamps them and the receiver stores them. */
module Packets {
  import opened SeqNo

  type Byte = bv8

  datatype Option<+T> = None | Some(value: T)

  /** The header fields the two buffers use. The PB_FIRST and PB_LAST boundary bits are two flags; PB_SOLO is both. */
  datatype Packet = Packet(seqno: int, first: bool, last: bool, inorder: bool, msgno: nat, payload: seq<Byte>)

  function Join(ps: seq<Packet>): seq<Byte> {
    if ps == [] then [] else ps[0].payload + Join(ps[1..])
  }

  lemma {:induction false} JoinConcat(a: seq<Packet>, b: seq<Packet>)
    ensures Join(a + b) == Join(a) + Join(b)
  {
    if a == [] {
      assert a + b == b;
    } else {
      assert (a + b)[1..] == a[1..] + b;
      JoinConcat(a[1..], b);
    }
  }

  /**
   * A stream as whole messages leave the sender: message boundaries meet, and the packets
   * of one message share their order flag and message number.
   */
  ghost predicate WellFormed(st: seq<Packet>) {
    && (st != [] ==> st[0].first && st[|st| - 1].last)
    && (forall j :: 0 < j < |st| ==> Follows(st[j - 1], st[j]))
  }

  ghost predicate Follows(p: Packet, q: Packet) {
    && (p.last <==> q.first)
    && (!p.last ==> q.inorder == p.inorder && q.msgno == p.msgno)
  }

  /** The packets [a, b) are one whole message of the stream. */
  ghost predicate IsMessage(st: seq<Packet>, a: int, b: int) {
    && 0 <= a < b <= |st|
    && st[a].first && st[b - 1].last
    && (forall j :: a <= j < b - 1 ==> !st[j].last)
  }

  /** The stream carries the sequence numbers that the sender stamps, counting from isn. */
  ghost predicate Numbered(st: seq<Packet>, isn: nat) {
    forall j :: 0 <= j < |st| ==> st[j].seqno == Wrap(isn + j)
  }
}
