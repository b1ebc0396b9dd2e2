/** Circular 31-bit packet sequence numbers (class CSeqNo). */
module SeqNo {
  const MAX_SEQNO: int := 0x7FFF_FFFF
  const SEQNO_TH: int := 0x3FFF_FFFF
  const MODULUS: int := 0x8000_0000

  predicate ValidSeqNo(s: int) {
    0 <= s <= MAX_SEQNO
  }

  function Abs(x: int): int {
    if x < 0 then -x else x
  }

  /** The distance from s1 to s2; meaningful only within the threshold. */
  function SeqOff(s1: int, s2: int): int {
    if Abs(s1 - s2) < SEQNO_TH then s2 - s1
    else if s1 < s2 then s2 - s1 - MAX_SEQNO - 1
    else s2 - s1 + MAX_SEQNO + 1
  }

  function IncSeq(s: int): int {
    if s == MAX_SEQNO then 0 else s + 1
  }

  function DecSeq(s: int): int {
    if s == 0 then MAX_SEQNO else s - 1
  }

  function IncSeqBy(s: int, inc: int): int {
    if MAX_SEQNO - s >= inc then s + inc else s - MAX_SEQNO + inc - 1
  }

  /** The sequence number stamped on the n-th packet when counting from zero without wrapping. */
  function Wrap(n: nat): (s: int)
    ensures ValidSeqNo(s)
  {
    n % MODULUS
  }

  lemma WrapInc(n: nat)
    ensures IncSeq(Wrap(n)) == Wrap(n + 1)
  {
  }

  lemma WrapIncBy(n: nat, k: nat)
    requires k < MODULUS
    ensures IncSeqBy(Wrap(n), k) == Wrap(n + k)
  {
  }

  lemma DecInc(n: nat)
    ensures DecSeq(Wrap(n + 1)) == Wrap(n)
  {
  }

  /** The number before x ends a range of n numbers from s if and only if x is the n-th after s. */
  lemma RangeEndIff(s: int, x: int, n: nat)
    requires ValidSeqNo(s) && ValidSeqNo(x) && 0 < n <= MAX_SEQNO
    ensures IncSeqBy(s, n - 1) == DecSeq(x) <==> x == IncSeqBy(s, n)
  {
  }

  /** Whatever its arguments, SeqOff names the slot that carries s2: stepping that far from s1 arrives at s2. */
  lemma SeqOffLands(n: nat, s2: int)
    requires ValidSeqNo(s2) && SeqOff(Wrap(n), s2) >= 0
    ensures Wrap(n + SeqOff(Wrap(n), s2)) == s2
  {
  }

  /** A true distance below the threshold is recovered across any wrap-around. */
  lemma SeqOffExact(a: nat, b: nat)
    requires Abs(b - a) < SEQNO_TH
    ensures SeqOff(Wrap(a), Wrap(b)) == b - a
  {
    var qa, qb := a / MODULUS, b / MODULUS;
    assert a == qa * MODULUS + Wrap(a) && b == qb * MODULUS + Wrap(b);
    assert qb - qa == 0 || qb - qa == 1 || qb - qa == -1;
  }

  /**
   * The threshold is the exact limit: a distance is recovered from every starting point if and only if it is below
   * it.
   */
  lemma SeqOffExactIff(d: int)
    ensures Abs(d) < SEQNO_TH <==> forall a: nat :: 0 <= a + d ==> SeqOff(Wrap(a), Wrap(a + d)) == d
  {
    if Abs(d) < SEQNO_TH {
      forall a: nat | 0 <= a + d
        ensures SeqOff(Wrap(a), Wrap(a + d)) == d
      {
        SeqOffExact(a, a + d);
      }
    } else {
      var a: nat := if d >= 0 then 0 else -d;
      assert 0 <= a + d;
      if Abs(d) < MODULUS {
        assert SeqOff(Wrap(a), Wrap(a + d)) != d;
      } else {
        assert Abs(SeqOff(Wrap(a), Wrap(a + d))) < MODULUS;
      }
    }
  }
}
