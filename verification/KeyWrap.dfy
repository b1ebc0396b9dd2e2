/**
 * The fallback AES key wrap: sections 2.2.1 and 2.2.2 of RFC 3394 as functions over an arbitrary block
 * permutation, and the two in-place loops that compute them.
 */
module KeyWrap {
  import opened Packets

  const IV: seq<Byte> := [0xA6, 0xA6, 0xA6, 0xA6, 0xA6, 0xA6, 0xA6, 0xA6]
  const ROUNDS: nat := 6
  const UINT_MAX: nat := 0x1_0000_0000

  type AesBlock = b: seq<Byte> | |b| == 16 witness [0, 0, 0, 0, 0, 0, 0, 0, 0, 0, 0, 0, 0, 0, 0, 0]

  /** A block cipher under one key, encrypting and decrypting. */
  datatype Cipher = Cipher(enc: AesBlock -> AesBlock, dec: AesBlock -> AesBlock)

  /** The two directions undo each other. */
  ghost predicate Permutes(c: Cipher) {
    && (forall b: AesBlock {:trigger c.enc(b)} :: c.dec(c.enc(b)) == b)
    && (forall b: AesBlock {:trigger c.dec(b)} :: c.enc(c.dec(b)) == b)
  }

  // ------------------------------------------------------------------ the standard

  function LowByte(n: nat): Byte {
    (n % 256) as Byte
  }

  /** t as a 64-bit number, most significant byte first. */
  function Counter64(t: nat): (c: seq<Byte>)
    ensures |c| == 8
  {
    [LowByte(t / 0x100_0000_0000_0000), LowByte(t / 0x1_0000_0000_0000),
     LowByte(t / 0x100_0000_0000), LowByte(t / 0x1_0000_0000),
     LowByte(t / 0x100_0000), LowByte(t / 0x1_0000), LowByte(t / 0x100), LowByte(t)]
  }

  function Mix(x: Byte, y: Byte): Byte {
    x ^ y
  }

  lemma MixTwice(x: Byte, y: Byte)
    ensures Mix(Mix(x, y), y) == x && Mix(x, 0) == x
  {
  }

  function Xor(a: seq<Byte>, b: seq<Byte>): (c: seq<Byte>)
    requires |a| == |b|
    ensures |c| == |a| && forall i :: 0 <= i < |a| ==> c[i] == Mix(a[i], b[i])
  {
    if a == [] then [] else [Mix(a[0], b[0])] + Xor(a[1..], b[1..])
  }

  function Patched(s: seq<Byte>, d: nat, x: seq<Byte>): (r: seq<Byte>)
    requires d + |x| <= |s|
    ensures |r| == |s|
  {
    s[..d] + x + s[d + |x|..]
  }

  /** The integrity register and the key data. */
  datatype Wrapping = Wrapping(a: seq<Byte>, r: seq<Byte>)

  /** One block of key data and the register go through the cipher together. */
  function WrapStep(enc: AesBlock -> AesBlock, w: Wrapping, o: nat, t: nat): (w': Wrapping)
    requires |w.a| == 8 && o + 8 <= |w.r|
    ensures |w'.a| == 8 && |w'.r| == |w.r|
  {
    var b := enc(w.a + w.r[o..o + 8]);
    Wrapping(Xor(b[..8], Counter64(t)), Patched(w.r, o, b[8..]))
  }

  function UnwrapStep(dec: AesBlock -> AesBlock, w: Wrapping, o: nat, t: nat): (w': Wrapping)
    requires |w.a| == 8 && o + 8 <= |w.r|
    ensures |w'.a| == 8 && |w'.r| == |w.r|
  {
    var b := dec(Xor(w.a, Counter64(t)) + w.r[o..o + 8]);
    Wrapping(b[..8], Patched(w.r, o, b[8..]))
  }

  /** The steps over the first n blocks; the step counter starts at t. */
  function WrapRow(enc: AesBlock -> AesBlock, w: Wrapping, n: nat, t: nat): (w': Wrapping)
    requires |w.a| == 8 && 8 * n <= |w.r|
    ensures |w'.a| == 8 && |w'.r| == |w.r|
  {
    if n == 0 then w else WrapStep(enc, WrapRow(enc, w, n - 1, t), 8 * (n - 1), t + n - 1)
  }

  /** Undoes the steps over the first n blocks, the last one first. */
  function UnwrapRow(dec: AesBlock -> AesBlock, w: Wrapping, n: nat, t: nat): (w': Wrapping)
    requires |w.a| == 8 && 8 * n <= |w.r|
    ensures |w'.a| == 8 && |w'.r| == |w.r|
    decreases n
  {
    if n == 0 then w else UnwrapRow(dec, UnwrapStep(dec, w, 8 * (n - 1), t + n - 1), n - 1, t)
  }

  function Blocks(w: Wrapping): (n: nat)
    ensures 8 * n <= |w.r|
  {
    |w.r| / 8
  }

  /** Where the step counter stands after j rounds. */
  function CounterAt(j: nat, n: nat): (t: nat)
    ensures t >= 1
  {
    j * n + 1
  }

  function WrapRounds(enc: AesBlock -> AesBlock, w: Wrapping, j: nat): (w': Wrapping)
    requires |w.a| == 8
    ensures |w'.a| == 8 && |w'.r| == |w.r|
  {
    if j == 0 then w else WrapRow(enc, WrapRounds(enc, w, j - 1), Blocks(w), CounterAt(j - 1, Blocks(w)))
  }

  function UnwrapRounds(dec: AesBlock -> AesBlock, w: Wrapping, j: nat): (w': Wrapping)
    requires |w.a| == 8
    ensures |w'.a| == 8 && |w'.r| == |w.r|
    decreases j
  {
    if j == 0 then w else UnwrapRounds(dec, UnwrapRow(dec, w, Blocks(w), CounterAt(j - 1, Blocks(w))), j - 1)
  }

  /** Key data of a legal length, wrapped. */
  function Wrap(enc: AesBlock -> AesBlock, key: seq<Byte>): Option<seq<Byte>> {
    if |key| % 8 != 0 || |key| < 8 then None
    else var w := WrapRounds(enc, Wrapping(IV, key), ROUNDS); Some(w.a + w.r)
  }

  function Unwrap(dec: AesBlock -> AesBlock, msg: seq<Byte>): Option<seq<Byte>> {
    if |msg| % 8 != 0 || |msg| < 16 then None
    else
      var w := UnwrapRounds(dec, Wrapping(msg[..8], msg[8..]), ROUNDS);
      if w.a != IV then None else Some(w.r)
  }

  // ------------------------------------------------------------------ wrapping is a bijection onto what unwraps

  lemma XorTwice(a: seq<Byte>, b: seq<Byte>)
    requires |a| == |b|
    ensures Xor(Xor(a, b), b) == a
  {
    hide Mix, Xor;
    forall i | 0 <= i < |a|
      ensures Xor(Xor(a, b), b)[i] == a[i]
    {
      MixTwice(a[i], b[i]);
    }
  }

  lemma StepUndone(c: Cipher, w: Wrapping, o: nat, t: nat)
    requires Permutes(c) && |w.a| == 8 && o + 8 <= |w.r|
    ensures UnwrapStep(c.dec, WrapStep(c.enc, w, o, t), o, t) == w
  {
    hide Counter64, Xor;
    var b := c.enc(w.a + w.r[o..o + 8]);
    var w1 := WrapStep(c.enc, w, o, t);
    XorTwice(b[..8], Counter64(t));
    assert w1.r[o..o + 8] == b[8..];
    assert b[..8] + b[8..] == b;
    assert c.dec(b) == w.a + w.r[o..o + 8];
    assert w1.r[..o] + w.r[o..o + 8] + w1.r[o + 8..] == w.r;
  }

  lemma UndoneStep(c: Cipher, w: Wrapping, o: nat, t: nat)
    requires Permutes(c) && |w.a| == 8 && o + 8 <= |w.r|
    ensures WrapStep(c.enc, UnwrapStep(c.dec, w, o, t), o, t) == w
  {
    hide Counter64, Xor;
    var x := Xor(w.a, Counter64(t));
    var b := c.dec(x + w.r[o..o + 8]);
    var w1 := UnwrapStep(c.dec, w, o, t);
    XorTwice(w.a, Counter64(t));
    assert w1.r[o..o + 8] == b[8..];
    assert b[..8] + b[8..] == b;
    assert c.enc(b) == x + w.r[o..o + 8];
    assert w1.r[..o] + w.r[o..o + 8] + w1.r[o + 8..] == w.r;
  }

  lemma {:induction false} RowUndone(c: Cipher, w: Wrapping, n: nat, t: nat)
    requires Permutes(c) && |w.a| == 8 && 8 * n <= |w.r|
    ensures UnwrapRow(c.dec, WrapRow(c.enc, w, n, t), n, t) == w
  {
    hide Permutes, WrapStep, UnwrapStep;
    if n > 0 {
      StepUndone(c, WrapRow(c.enc, w, n - 1, t), 8 * (n - 1), t + n - 1);
      RowUndone(c, w, n - 1, t);
    }
  }

  lemma {:induction false} UndoneRow(c: Cipher, w: Wrapping, n: nat, t: nat)
    requires Permutes(c) && |w.a| == 8 && 8 * n <= |w.r|
    ensures WrapRow(c.enc, UnwrapRow(c.dec, w, n, t), n, t) == w
    decreases n
  {
    hide Permutes, WrapStep, UnwrapStep;
    if n > 0 {
      UndoneRow(c, UnwrapStep(c.dec, w, 8 * (n - 1), t + n - 1), n - 1, t);
      UndoneStep(c, w, 8 * (n - 1), t + n - 1);
    }
  }

  lemma {:induction false} RoundsUndone(c: Cipher, w: Wrapping, j: nat)
    requires Permutes(c) && |w.a| == 8
    ensures UnwrapRounds(c.dec, WrapRounds(c.enc, w, j), j) == w
  {
    hide Permutes, WrapRow, UnwrapRow;
    if j > 0 {
      RowUndone(c, WrapRounds(c.enc, w, j - 1), Blocks(w), CounterAt(j - 1, Blocks(w)));
      RoundsUndone(c, w, j - 1);
    }
  }

  lemma {:induction false} UndoneRounds(c: Cipher, w: Wrapping, j: nat)
    requires Permutes(c) && |w.a| == 8
    ensures WrapRounds(c.enc, UnwrapRounds(c.dec, w, j), j) == w
    decreases j
  {
    hide Permutes, WrapRow, UnwrapRow;
    if j > 0 {
      var w1 := UnwrapRow(c.dec, w, Blocks(w), CounterAt(j - 1, Blocks(w)));
      UndoneRounds(c, w1, j - 1);
      UndoneRow(c, w, Blocks(w), CounterAt(j - 1, Blocks(w)));
    }
  }

  /** Unwrapping gives back every key that was wrapped. */
  lemma UnwrapsWrapped(c: Cipher, key: seq<Byte>)
    requires Permutes(c) && |key| % 8 == 0 && |key| >= 8
    ensures Wrap(c.enc, key).Some? && |Wrap(c.enc, key).value| == |key| + 8
    ensures Unwrap(c.dec, Wrap(c.enc, key).value) == Some(key)
  {
    hide Permutes, WrapRounds, UnwrapRounds;
    RoundsUndone(c, Wrapping(IV, key), ROUNDS);
    var w := WrapRounds(c.enc, Wrapping(IV, key), ROUNDS);
    assert (w.a + w.r)[..8] == w.a && (w.a + w.r)[8..] == w.r;
  }

  /** Nothing unwraps but what wrapping the result gives. */
  lemma OnlyWrappedUnwraps(c: Cipher, msg: seq<Byte>)
    requires Permutes(c) && Unwrap(c.dec, msg).Some?
    ensures Wrap(c.enc, Unwrap(c.dec, msg).value) == Some(msg)
  {
    hide Permutes, WrapRounds, UnwrapRounds;
    UndoneRounds(c, Wrapping(msg[..8], msg[8..]), ROUNDS);
    assert msg[..8] + msg[8..] == msg;
  }

  // ------------------------------------------------------------------ the loops

  /** A patch inside a stretch of the buffer changes nothing around it. */
  lemma PatchInside(s: seq<Byte>, base: nat, len: nat, o: nat, x: seq<Byte>)
    requires base + len <= |s| && o + |x| <= len
    ensures Patched(s, base + o, x)[base..base + len] == Patched(s[base..base + len], o, x)
    ensures Around(Patched(s, base + o, x), base, len) == Around(s, base, len)
  {
    var p := Patched(s, base + o, x);
    assert p[..base] == s[..base] && p[base + len..] == s[base + len..];
  }

  lemma SliceOfSlice(s: seq<Byte>, base: nat, len: nat, o: nat)
    requires base + len <= |s| && o + 8 <= len
    ensures s[base..base + len][o..o + 8] == s[base + o..base + o + 8]
  {
    var a, b := s[base..base + len][o..o + 8], s[base + o..base + o + 8];
    assert forall i :: 0 <= i < 8 ==> a[i] == b[i];
  }

  lemma PatchTail(b: seq<Byte>, x: seq<Byte>)
    requires |b| == 16 && |x| == 8
    ensures Patched(b, 8, x) == b[..8] + x
  {
  }

  method Copy(dst: array<Byte>, d: nat, src: array<Byte>, s: nat, n: nat)
    requires d + n <= dst.Length && s + n <= src.Length && dst != src
    modifies dst
    ensures dst[..] == Patched(old(dst[..]), d, src[s..s + n])
  {
    forall i | 0 <= i < n {
      dst[d + i] := src[s + i];
    }
  }

  method Encipher(f: AesBlock -> AesBlock, b: array<Byte>)
    requires b.Length == 16
    modifies b
    ensures b[..] == f(old(b[..]))
  {
    var out := f(b[..]);
    forall i | 0 <= i < 16 {
      b[i] := out[i];
    }
  }

  lemma CounterLow(t: nat)
    requires t < UINT_MAX
    ensures Counter64(t) == [0, 0, 0, 0, LowByte(t / 0x100_0000), LowByte(t / 0x1_0000), LowByte(t / 0x100), LowByte(t)]
    ensures t <= 0xff ==> LowByte(t / 0x100_0000) == 0 && LowByte(t / 0x1_0000) == 0 && LowByte(t / 0x100) == 0
  {
    assert t / 0x100_0000_0000_0000 == 0 && t / 0x1_0000_0000_0000 == 0 && t / 0x100_0000_0000 == 0
           && t / 0x1_0000_0000 == 0;
    if t <= 0xff {
      assert t / 0x100_0000 == 0 && t / 0x1_0000 == 0 && t / 0x100 == 0;
    }
  }

  /** The four low counter bytes go in; for a 32-bit counter the others are zero. */
  method XorCounter(b: array<Byte>, t: nat)
    requires b.Length == 16 && t < UINT_MAX
    modifies b
    ensures b[..8] == Xor(old(b[..8]), Counter64(t)) && b[8..] == old(b[8..])
  {
    hide LowByte;
    CounterLow(t);
    XorLow(b, LowByte(t / 0x100_0000), LowByte(t / 0x1_0000), LowByte(t / 0x100), LowByte(t), t > 0xff);
  }

  method XorLow(b: array<Byte>, c4: Byte, c5: Byte, c6: Byte, c7: Byte, wide: bool)
    requires b.Length == 16 && (!wide ==> c4 == 0 && c5 == 0 && c6 == 0)
    modifies b
    ensures b[..8] == Xor(old(b[..8]), [0, 0, 0, 0, c4, c5, c6, c7]) && b[8..] == old(b[8..])
  {
    hide Xor, Mix;
    ghost var x := b[..];
    b[7] := Mix(b[7], c7);
    if wide {
      b[6] := Mix(b[6], c6);
      b[5] := Mix(b[5], c5);
      b[4] := Mix(b[4], c4);
    }
    forall i | 0 <= i < 8
      ensures b[..8][i] == Xor(x[..8], [0, 0, 0, 0, c4, c5, c6, c7])[i]
    {
      MixTwice(x[i], 0);
    }
    assert x[..8] == old(b[..8]);
  }

  ghost function State(b: array<Byte>, buf: array<Byte>, base: nat, len: nat): Wrapping
    requires b.Length == 16 && base + len <= buf.Length
    reads b, buf
  {
    Wrapping(b[..8], buf[base..base + len])
  }

  /** Everything of the buffer but the key data. */
  ghost function Around(buf: seq<Byte>, base: nat, len: nat): (seq<Byte>, seq<Byte>)
    requires base + len <= |buf|
  {
    (buf[..base], buf[base + len..])
  }

  method WrapBlock(enc: AesBlock -> AesBlock, b: array<Byte>, out: array<Byte>, o: nat, t: nat, ghost len: nat)
    requires b.Length == 16 && 8 + len <= out.Length && o + 8 <= len && t < UINT_MAX && b != out
    modifies b, out
    ensures State(b, out, 8, len) == WrapStep(enc, old(State(b, out, 8, len)), o, t)
    ensures Around(out[..], 8, len) == old(Around(out[..], 8, len))
  {
    hide Xor, Counter64, Patched, Around;
    ghost var w := State(b, out, 8, len);
    ghost var all := out[..];
    assert w.r == all[8..8 + len] && out[8 + o..16 + o] == all[8 + o..16 + o];
    SliceOfSlice(all, 8, len, o);
    PatchTail(b[..], w.r[o..o + 8]);
    Copy(b, 8, out, 8 + o, 8);
    Encipher(enc, b);
    ghost var e := b[..];
    assert e == enc(w.a + w.r[o..o + 8]);
    XorCounter(b, t);
    PatchInside(all, 8, len, o, e[8..]);
    assert b[8..16] == e[8..];
    Copy(out, 8 + o, b, 8, 8);
  }

  method UnwrapBlock(dec: AesBlock -> AesBlock, b: array<Byte>, out: array<Byte>, o: nat, t: nat, ghost len: nat)
    requires b.Length == 16 && len <= out.Length && o + 8 <= len && t < UINT_MAX && b != out
    modifies b, out
    ensures State(b, out, 0, len) == UnwrapStep(dec, old(State(b, out, 0, len)), o, t)
    ensures Around(out[..], 0, len) == old(Around(out[..], 0, len))
  {
    hide Xor, Counter64, Patched, Around;
    ghost var w := State(b, out, 0, len);
    XorCounter(b, t);
    ghost var x := Xor(w.a, Counter64(t));
    ghost var all := out[..];
    assert w.r == all[0..len] && out[o..8 + o] == all[o..8 + o];
    SliceOfSlice(all, 0, len, o);
    PatchTail(b[..], w.r[o..o + 8]);
    Copy(b, 8, out, o, 8);
    Encipher(dec, b);
    ghost var e := b[..];
    assert e == dec(x + w.r[o..o + 8]);
    PatchInside(all, 0, len, o, e[8..]);
    assert b[8..16] == e[8..];
    Copy(out, o, b, 8, 8);
  }

  /** The step counter stays within 32 bits. */
  lemma CounterBound(j: nat, n: nat, k: nat)
    requires j < ROUNDS && k < n
    ensures CounterAt(j, n) + k <= ROUNDS * n && CounterAt(j + 1, n) == CounterAt(j, n) + n
  {
    assert (j + 1) * n == j * n + n;
    assert (j + 1) * n <= ROUNDS * n;
  }

  /** One pass over the key data, from the front. */
  method WrapPass(enc: AesBlock -> AesBlock, b: array<Byte>, out: array<Byte>, inlen: nat, t0: nat) returns (t: nat)
    requires b.Length == 16 && 8 + inlen <= out.Length && inlen % 8 == 0 && t0 + inlen / 8 <= UINT_MAX && b != out
    modifies b, out
    ensures State(b, out, 8, inlen) == WrapRow(enc, old(State(b, out, 8, inlen)), inlen / 8, t0)
    ensures t == t0 + inlen / 8 && Around(out[..], 8, inlen) == old(Around(out[..], 8, inlen))
  {
    hide Around, WrapStep;
    ghost var w := State(b, out, 8, inlen);
    ghost var k := 0;
    var i := 0;
    t := t0;
    while i < inlen
      invariant i == 8 * k && i <= inlen && t == t0 + k
      invariant State(b, out, 8, inlen) == WrapRow(enc, w, k, t0)
      invariant Around(out[..], 8, inlen) == old(Around(out[..], 8, inlen))
    {
      WrapBlock(enc, b, out, i, t, inlen);
      i, t, k := i + 8, t + 1, k + 1;
    }
  }

  method WrapKey(enc: AesBlock -> AesBlock, out: array<Byte>, input: array<Byte>, inlen: nat) returns (r: int)
    requires inlen <= input.Length && inlen + 8 <= out.Length && out != input && inlen < UINT_MAX
    modifies out
    ensures match Wrap(enc, input[..inlen])
      case None => r == -1 && out[..] == old(out[..])
      case Some(m) => r == 0 && out[..] == m + old(out[inlen + 8..])
  {
    hide Around, WrapRow, Xor;
    if inlen % 8 != 0 || inlen < 8 {
      return -1;
    }
    var b := new Byte[16];
    var t := 1;
    ghost var tail := out[inlen + 8..];
    Copy(out, 8, input, 0, inlen);
    forall i | 0 <= i < 8 {
      b[i] := IV[i];
    }
    ghost var w := Wrapping(IV, input[..inlen]);
    assert State(b, out, 8, inlen) == w;
    ghost var n := inlen / 8;
    ghost var around := Around(out[..], 8, inlen);
    TailIs(out[..], 8, inlen);
    assert around.1 == tail;
    var j := 0;
    while j < ROUNDS
      invariant 0 <= j <= ROUNDS && t == CounterAt(j, n) && State(b, out, 8, inlen) == WrapRounds(enc, w, j)
      invariant Around(out[..], 8, inlen) == around && fresh(b)
    {
      CounterBound(j, n, n - 1);
      t := WrapPass(enc, b, out, inlen, t);
      j := j + 1;
    }
    ghost var before := out[..];
    Copy(out, 0, b, 0, 8);
    Sealed(before, b[..8], inlen, tail);
    r := 0;
  }

  lemma TailIs(s: seq<Byte>, base: nat, len: nat)
    requires base + len <= |s|
    ensures Around(s, base, len).1 == s[base + len..]
  {
  }

  lemma Sealed(s: seq<Byte>, a: seq<Byte>, len: nat, tail: seq<Byte>)
    requires |a| == 8 && 8 + len <= |s| && Around(s, 8, len).1 == tail
    ensures Patched(s, 0, a) == a + s[8..8 + len] + tail
  {
  }

  /** One pass over the key data, from the back. */
  method UnwrapPass(dec: AesBlock -> AesBlock, b: array<Byte>, out: array<Byte>, inlen: nat, t0: nat) returns (t: nat)
    requires b.Length == 16 && inlen <= out.Length && inlen % 8 == 0 && inlen / 8 <= t0 < UINT_MAX && b != out
    modifies b, out
    ensures State(b, out, 0, inlen) == UnwrapRow(dec, old(State(b, out, 0, inlen)), inlen / 8, t0 + 1 - inlen / 8)
    ensures t == t0 - inlen / 8 && Around(out[..], 0, inlen) == old(Around(out[..], 0, inlen))
  {
    hide Around, UnwrapStep;
    ghost var w := State(b, out, 0, inlen);
    ghost var n := inlen / 8;
    ghost var k := n;
    var i, pos: int := 0, inlen - 8;
    t := t0;
    while i < inlen
      invariant 0 <= k <= n && i == 8 * (n - k) && pos == 8 * (k - 1) && t == t0 - (n - k)
      invariant UnwrapRow(dec, State(b, out, 0, inlen), k, t0 + 1 - n) == UnwrapRow(dec, w, n, t0 + 1 - n)
      invariant Around(out[..], 0, inlen) == old(Around(out[..], 0, inlen))
    {
      UnwrapBlock(dec, b, out, pos, t, inlen);
      i, t, pos, k := i + 8, t - 1, pos - 8, k - 1;
    }
  }

  /** All passes, the last one undone first. */
  method UnwrapAll(dec: AesBlock -> AesBlock, b: array<Byte>, out: array<Byte>, inlen: nat)
    requires b.Length == 16 && inlen <= out.Length && inlen % 8 == 0 && 8 <= inlen < UINT_MAX && b != out
    modifies b, out
    ensures State(b, out, 0, inlen) == UnwrapRounds(dec, old(State(b, out, 0, inlen)), ROUNDS)
    ensures Around(out[..], 0, inlen) == old(Around(out[..], 0, inlen))
  {
    hide Around, UnwrapRow, CounterAt;
    ghost var w, n := State(b, out, 0, inlen), inlen / 8;
    var t, j := ROUNDS * (inlen / 8), 0;
    CounterBound(ROUNDS - 1, n, n - 1);
    CounterLast(n);
    while j < ROUNDS
      invariant 0 <= j <= ROUNDS && t + 1 == CounterAt(ROUNDS - j, n) && t <= ROUNDS * n
      invariant UnwrapRounds(dec, State(b, out, 0, inlen), ROUNDS - j) == UnwrapRounds(dec, w, ROUNDS)
      invariant Around(out[..], 0, inlen) == old(Around(out[..], 0, inlen))
    {
      CounterBound(ROUNDS - j - 1, n, n - 1);
      t := UnwrapPass(dec, b, out, inlen, t);
      j := j + 1;
    }
  }

  lemma CounterLast(n: nat)
    ensures CounterAt(ROUNDS, n) == ROUNDS * n + 1
  {
  }

  /** An unsigned 32-bit length less 8. */
  function Less8(n: nat): nat {
    (n - 8) % UINT_MAX
  }

  /** What the two tests at the beginning of the unwrapping let through. */
  predicate GuardsPass(n: nat) {
    Less8(n) % 8 == 0 && Less8(n) >= 8
  }

  /** Taking 8 off a length below 8 gives a huge one, which is no multiple of 8 unless the length was 0. */
  lemma LessEight(n: nat)
    requires n < UINT_MAX
    ensures Less8(n) == if n >= 8 then n - 8 else n + UINT_MAX - 8
    ensures Less8(n) % 8 == n % 8
  {
  }

  /** The tests accept a length if and only if it is a multiple of 8 of at least 16, or 0. */
  lemma GuardsIff(n: nat)
    requires n < UINT_MAX
    ensures GuardsPass(n) <==> n % 8 == 0 && (n >= 16 || n == 0)
  {
    LessEight(n);
  }

  /** The length comes in as an unsigned 32-bit number and has 8 taken off before it is looked at. */
  method UnwrapKey(dec: AesBlock -> AesBlock, out: array<Byte>, input: array<Byte>) returns (r: int)
    requires 0 < input.Length < UINT_MAX && input.Length <= out.Length + 8 && out != input
    modifies out
    ensures match Unwrap(dec, input[..])
      case Some(key) => r == 0 && out[..] == key + old(out[input.Length - 8..])
      case None =>
        && r == -1
        && (input.Length % 8 != 0 || input.Length < 16 ==> out[..] == old(out[..]))
        && (input.Length % 8 == 0 && input.Length >= 16 ==>
             out[..] == seq(input.Length - 8, _ => 0) + old(out[input.Length - 8..]))
  {
    hide UnwrapRounds;
    LessEight(input.Length);
    var inlen := Less8(input.Length);
    if inlen % 8 != 0 {
      return -1;
    }
    if inlen < 8 {
      return -1;
    }
    assert input[..][..8] == input[..8] && input[..][8..] == input[8..];
    var ok := UnwrapInto(dec, out, input, inlen);
    ghost var w := UnwrapRounds(dec, Wrapping(input[..8], input[8..]), ROUNDS);
    assert Unwrap(dec, input[..]) == if ok then Some(w.r) else None;
    ghost var msg := input[..];
    if !ok {
      forall i | 0 <= i < inlen {
        out[i] := 0;
      }
      assert input[..] == msg;
      return -1;
    }
    r := 0;
  }

  method UnwrapInto(dec: AesBlock -> AesBlock, out: array<Byte>, input: array<Byte>, inlen: nat) returns (ok: bool)
    requires inlen % 8 == 0 && 8 <= inlen < UINT_MAX && input.Length == inlen + 8 && inlen <= out.Length && out != input
    modifies out
    ensures var w := UnwrapRounds(dec, Wrapping(input[..8], input[8..]), ROUNDS);
      ok == (w.a == IV) && out[..] == w.r + old(out[inlen..])
  {
    hide Around, UnwrapRounds;
    var b := new Byte[16];
    ghost var tail := out[inlen..];
    Copy(b, 0, input, 0, 8);
    Copy(out, 0, input, 8, inlen);
    assert State(b, out, 0, inlen) == Wrapping(input[..8], input[8..]);
    TailIs(out[..], 0, inlen);
    UnwrapAll(dec, b, out, inlen);
    TailIs(out[..], 0, inlen);
    assert out[..] == out[..inlen] + out[inlen..];
    assert out[..inlen] == out[0..inlen] && out[inlen..] == tail;
    ok := b[..8] == IV;
  }
}
