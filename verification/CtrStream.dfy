/**
 * Counter mode: the initial block made of packet index and salt, the two-byte block counter, and what the counter
 * blocks of one key have in common with each other: nothing.
 */
module CtrStream {
  import opened Packets
  import opened KeyWrap

  const BLK_SZ: nat := 16
  const STREAM_SZ: nat := 2048

  /** The value of bytes read as one number, most significant byte first. */
  function Num(s: seq<Byte>): nat {
    if s == [] then 0 else Num(s[..|s| - 1]) * 256 + (s[|s| - 1] as nat)
  }

  // ------------------------------------------------------------------ the initial block

  /** Ten zero bytes, the packet index and a zero block counter, with the salt over the first fourteen bytes. */
  function CtrIV(pki: seq<Byte>, salt: seq<Byte>): (iv: seq<Byte>)
    requires |pki| == 4 && |salt| >= 14
    ensures |iv| == BLK_SZ && iv[14] == 0 && iv[15] == 0
  {
    Xor([0, 0, 0, 0, 0, 0, 0, 0, 0, 0] + pki, salt[..14]) + [0, 0]
  }

  method SetCtrIV(pki: seq<Byte>, salt: seq<Byte>, iv: array<Byte>)
    requires |pki| == 4 && |salt| >= 14 && iv.Length == BLK_SZ
    modifies iv
    ensures iv[..] == CtrIV(pki, salt)
  {
    hide Xor, Mix;
    forall i | 0 <= i < 16 {
      iv[i] := 0;
    }
    forall i | 0 <= i < 4 {
      iv[10 + i] := pki[i];
    }
    ghost var plain := [0, 0, 0, 0, 0, 0, 0, 0, 0, 0] + pki;
    assert iv[..] == plain + [0, 0];
    var i := 0;
    while i < 14
      invariant 0 <= i <= 14 && iv[14] == 0 && iv[15] == 0
      invariant forall k :: 0 <= k < i ==> iv[k] == Mix(plain[k], salt[k])
      invariant forall k :: i <= k < 14 ==> iv[k] == plain[k]
    {
      iv[i] := Mix(iv[i], salt[i]);
      i := i + 1;
    }
    assert forall k :: 0 <= k < 14 ==> iv[..][k] == Xor(plain, salt[..14])[k];
  }

  // ------------------------------------------------------------------ counting

  /** Adds one to the last byte, and to the one before it when the last one runs over. */
  function Bump(ctr: seq<Byte>): (c: seq<Byte>)
    requires |ctr| == BLK_SZ
    ensures |c| == BLK_SZ && c[..14] == ctr[..14]
  {
    var last := ctr[15] + 1;
    ctr[14 := if last == 0 then ctr[14] + 1 else ctr[14]][15 := last]
  }

  /** The block counter. */
  function Low(ctr: seq<Byte>): nat
    requires |ctr| == BLK_SZ
  {
    (ctr[14] as nat) * 256 + (ctr[15] as nat)
  }

  lemma Step(b: Byte)
    ensures b != 255 ==> b + 1 != 0 && (b + 1) as nat == b as nat + 1
    ensures b == 255 ==> b + 1 == 0
  {
  }

  lemma BumpLow(ctr: seq<Byte>)
    requires |ctr| == BLK_SZ
    ensures Low(Bump(ctr)) == if Low(ctr) == 0xffff then 0 else Low(ctr) + 1
  {
    Step(ctr[14]);
    Step(ctr[15]);
  }

  lemma NumSplit(ctr: seq<Byte>)
    requires |ctr| == BLK_SZ
    ensures Num(ctr) == Num(ctr[..14]) * 0x10000 + Low(ctr)
  {
    assert ctr[..15][..14] == ctr[..14];
    assert Num(ctr) == Num(ctr[..15]) * 256 + (ctr[15] as nat);
    assert Num(ctr[..15]) == Num(ctr[..14]) * 256 + (ctr[14] as nat);
  }

  /** The two-byte increment is the 128-bit one if and only if the two bytes do not run over. */
  lemma BumpIsAddition(ctr: seq<Byte>)
    requires |ctr| == BLK_SZ
    ensures Num(Bump(ctr)) == Num(ctr) + 1 <==> Low(ctr) != 0xffff
  {
    NumSplit(ctr);
    NumSplit(Bump(ctr));
    BumpLow(ctr);
    hide Num, Low, Bump;
  }

  function CtrBlock(iv: seq<Byte>, k: nat): (c: seq<Byte>)
    requires |iv| == BLK_SZ
    ensures |c| == BLK_SZ && c[..14] == iv[..14]
  {
    if k == 0 then iv else Bump(CtrBlock(iv, k - 1))
  }

  lemma {:induction false} BlockLow(iv: seq<Byte>, k: nat)
    requires |iv| == BLK_SZ && Low(iv) == 0 && k <= 0xffff
    ensures Low(CtrBlock(iv, k)) == k
  {
    hide Low, Bump;
    if k > 0 {
      BlockLow(iv, k - 1);
      BumpLow(CtrBlock(iv, k - 1));
    }
  }

  /** From a block with a zero counter on, the blocks are what 128-bit addition gives. */
  lemma BlockIsAddition(iv: seq<Byte>, k: nat)
    requires |iv| == BLK_SZ && Low(iv) == 0 && k <= 0xffff
    ensures Num(CtrBlock(iv, k)) == Num(iv) + k
  {
    NumSplit(iv);
    NumSplit(CtrBlock(iv, k));
    BlockLow(iv, k);
  }

  // ------------------------------------------------------------------ no two blocks alike

  lemma XorInjective(a: seq<Byte>, b: seq<Byte>, s: seq<Byte>)
    requires |a| == |b| == |s| && Xor(a, s) == Xor(b, s)
    ensures a == b
  {
    hide Xor;
    XorTwice(a, s);
    XorTwice(b, s);
  }

  /** Under one salt a counter block determines the packet and the place in it. */
  lemma BlocksDiffer(salt: seq<Byte>, pki: seq<Byte>, k: nat, pki': seq<Byte>, k': nat)
    requires |salt| >= 14 && |pki| == |pki'| == 4 && k <= 0xffff && k' <= 0xffff
    requires CtrBlock(CtrIV(pki, salt), k) == CtrBlock(CtrIV(pki', salt), k')
    ensures pki == pki' && k == k'
  {
    var iv, iv' := CtrIV(pki, salt), CtrIV(pki', salt);
    BlockLow(iv, k);
    BlockLow(iv', k');
    hide Xor;
    var z: seq<Byte> := [0, 0, 0, 0, 0, 0, 0, 0, 0, 0];
    assert iv[..14] == Xor(z + pki, salt[..14]) && iv'[..14] == Xor(z + pki', salt[..14]);
    XorInjective(z + pki, z + pki', salt[..14]);
    assert (z + pki)[10..] == pki && (z + pki')[10..] == pki';
  }

  // ------------------------------------------------------------------ filling the stream

  function BlockCount(len: nat): nat {
    (len + (BLK_SZ - 1)) / BLK_SZ
  }

  function Stream(iv: seq<Byte>, n: nat): (s: seq<Byte>)
    requires |iv| == BLK_SZ
    ensures |s| == BLK_SZ * n
  {
    if n == 0 then [] else Stream(iv, n - 1) + CtrBlock(iv, n - 1)
  }

  /** Fills the stream buffer with the counter blocks for len bytes, if they fit. */
  method SetCtrStream(stream: array<Byte>, len: nat, iv: seq<Byte>) returns (r: int, n: nat)
    requires |iv| == BLK_SZ && stream.Length == STREAM_SZ
    modifies stream
    ensures r == 0 <==> BlockCount(len) * BLK_SZ <= STREAM_SZ
    ensures r == 0 ==> n == BlockCount(len) * BLK_SZ && stream[..n] == Stream(iv, BlockCount(len))
    ensures r == 0 ==> stream[n..] == old(stream[n..])
    ensures r != 0 ==> r == -1 && n == 0 && stream[..] == old(stream[..])
  {
    hide Bump;
    var nblk := BlockCount(len);
    if nblk * BLK_SZ > STREAM_SZ {
      return -1, 0;
    }
    var ctr, blk, pos := iv, 0, 0;
    while blk < nblk
      invariant 0 <= blk <= nblk && pos == BLK_SZ * blk && ctr == CtrBlock(iv, blk)
      invariant stream[..pos] == Stream(iv, blk) && stream[pos..] == old(stream[pos..])
    {
      ghost var done := stream[..pos];
      forall i | 0 <= i < BLK_SZ {
        stream[pos + i] := ctr[i];
      }
      assert stream[..pos + BLK_SZ] == done + ctr;
      pos := pos + BLK_SZ;
      ctr := Bump(ctr);
      blk := blk + 1;
    }
    r, n := 0, nblk * BLK_SZ;
  }

  lemma {:induction false} StreamAt(iv: seq<Byte>, n: nat, k: nat)
    requires |iv| == BLK_SZ && k < n
    ensures Stream(iv, n)[BLK_SZ * k..BLK_SZ * k + BLK_SZ] == CtrBlock(iv, k)
  {
    hide CtrBlock;
    var s, b := Stream(iv, n - 1), CtrBlock(iv, n - 1);
    if k == n - 1 {
      assert (s + b)[BLK_SZ * k..BLK_SZ * k + BLK_SZ] == b;
    } else {
      StreamAt(iv, n - 1, k);
      assert (s + b)[BLK_SZ * k..BLK_SZ * k + BLK_SZ] == s[BLK_SZ * k..BLK_SZ * k + BLK_SZ];
    }
  }

  /** Every block of an accepted length is the initial block plus its place, as a 128-bit number. */
  lemma AcceptedIsAddition(pki: seq<Byte>, salt: seq<Byte>, len: nat, k: nat)
    requires |pki| == 4 && |salt| >= 14 && BlockCount(len) * BLK_SZ <= STREAM_SZ && k < BlockCount(len)
    ensures var iv := CtrIV(pki, salt); Num(Stream(iv, BlockCount(len))[BLK_SZ * k..BLK_SZ * k + BLK_SZ]) == Num(iv) + k
  {
    hide Num, CtrBlock, Xor, Stream;
    var iv := CtrIV(pki, salt);
    StreamAt(iv, BlockCount(len), k);
    BlockIsAddition(iv, k);
  }
}
