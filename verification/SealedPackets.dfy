/**
 * Packets encrypted in counter mode under rotating keys: the receiver opens what the transmitter sealed, and no
 * counter block is used twice under one key.
 */
module SealedPackets {
  import opened SeqNo
  import opened Packets
  import opened KeyWrap
  import opened KmMessage
  import opened TxRotation
  import opened TxSafety
  import opened KeyAgreement
  import opened CtrStream

  // ------------------------------------------------------------------ opening a packet

  /** The counter blocks, encrypted. */
  function KeyStream(aes: Cipher, iv: seq<Byte>, n: nat): (s: seq<Byte>)
    requires |iv| == BLK_SZ
    ensures |s| == BLK_SZ * n
  {
    if n == 0 then [] else KeyStream(aes, iv, n - 1) + aes.enc(CtrBlock(iv, n - 1))
  }

  lemma EnoughBlocks(len: nat)
    ensures len <= BLK_SZ * BlockCount(len)
  {
  }

  /** Encrypting and decrypting are the same operation; lengths over the stream size are refused. */
  function Seal(p: Prims, sek: seq<Byte>, salt: seq<Byte>, pki: seq<Byte>, data: seq<Byte>): Option<seq<Byte>>
    requires |salt| >= 14 && |pki| == 4
  {
    if BlockCount(|data|) * BLK_SZ > STREAM_SZ then None
    else
      EnoughBlocks(|data|);
      Some(Xor(data, KeyStream(p.aes(sek), CtrIV(pki, salt), BlockCount(|data|))[..|data|]))
  }

  lemma OpensSealed(p: Prims, sek: seq<Byte>, salt: seq<Byte>, pki: seq<Byte>, data: seq<Byte>)
    requires |salt| >= 14 && |pki| == 4 && Seal(p, sek, salt, pki, data).Some?
    ensures Seal(p, sek, salt, pki, Seal(p, sek, salt, pki, data).value) == Some(data)
  {
    hide Xor, KeyStream, CtrIV;
    EnoughBlocks(|data|);
    XorTwice(data, KeyStream(p.aes(sek), CtrIV(pki, salt), BlockCount(|data|))[..|data|]);
  }

  /**
   * In every run, any of the last refresh - pre + 1 packets is opened by the receiver to the bytes that were sealed,
   * with the key its flags name.
   */
  lemma ReceiverOpens(p: Prims, cfg: TxCfg, rcfg: RxCfg, bs: seq<Peers>, evs: seq<TxEvent>, salt: seq<Byte>,
                      sek: seq<Byte>, n: nat, k: nat,
                      pki: seq<Byte>, data: seq<Byte>)
    requires Sound(p) && CfgOk(cfg) && Paired(cfg, rcfg) && |salt| == SALT_SZ && |sek| == cfg.keyLen
    requires IsPeersRun(p, cfg, rcfg, bs, evs) && bs[0] == PeersStart(p, cfg, salt, sek) && n < |bs|
    requires k < |bs[n].g.log| && |bs[n].g.log| - k <= cfg.refresh - cfg.pre + 1
    requires |pki| == 4 && Seal(p, bs[n].g.log[k].sek, salt, pki, data).Some?
    ensures var sent, rx := bs[n].g.log[k], bs[n].rx;
      && ValidRx(rx) && sent.slot < 2 && ReceiveData(rx, sent.slot).1.Some? && |rx.c[sent.slot].salt| == SALT_SZ
      && Seal(p, ReceiveData(rx, sent.slot).1.value, rx.c[sent.slot].salt, pki,
           Seal(p, sent.sek, salt, pki, data).value) == Some(data)
  {
    hide Seal, Sound, IsPeersRun, PeersStart, ReceiveData, CfgOk;
    FlagsSelectKey(p, cfg, rcfg, bs, evs, salt, sek, n, k);
    OpensSealed(p, bs[n].g.log[k].sek, salt, pki, data);
  }

  // ------------------------------------------------------------------ no block twice

  lemma WrapDiffers(a: nat, b: nat)
    requires a < b < a + MODULUS
    ensures SeqNo.Wrap(a) != SeqNo.Wrap(b)
  {
  }

  /** The packet index of the k-th packet: consecutive numbers from the first one on, modulo 2^31. */
  predicate HasIndex(pki: seq<Byte>, isn: nat, k: nat) {
    |pki| == 4 && Num(pki) == SeqNo.Wrap(isn + k)
  }

  /**
   * Over a whole run no counter block repeats under one key: two blocks of one packet differ, and so do any two
   * blocks of two packets sealed with the same key.
   */
  lemma NoBlockTwice(p: Prims, cfg: TxCfg, gs: seq<Run>, evs: seq<TxEvent>, salt: seq<Byte>, sek: seq<Byte>, n: nat,
                     isn: nat,
                     j: nat, a: nat, pj: seq<Byte>, k: nat, b: nat, pk: seq<Byte>)
    requires CfgOk(cfg) && |salt| == SALT_SZ && |sek| == cfg.keyLen
    requires IsTxRun(p, cfg, gs, evs) && gs[0] == RunStart(p, cfg, salt, sek) && n < |gs|
    requires j <= k < |gs[n].log| && gs[n].log[j].sek == gs[n].log[k].sek && HasIndex(pj, isn, j)
    requires HasIndex(pk, isn, k)
    requires a * BLK_SZ < STREAM_SZ && b * BLK_SZ < STREAM_SZ && (j, a) != (k, b)
    ensures CtrBlock(CtrIV(pj, salt), a) != CtrBlock(CtrIV(pk, salt), b)
  {
    hide IsTxRun, RunStart, CtrBlock, CtrIV, Num, RunInv;
    RotationSafe(p, cfg, gs, evs, salt, sek, n);
    KeySpan(p, cfg, gs[n], j, k);
    if j < k {
      WrapDiffers(isn + j, isn + k);
    }
    if CtrBlock(CtrIV(pj, salt), a) == CtrBlock(CtrIV(pk, salt), b) {
      BlocksDiffer(salt, pj, a, pk, b);
    }
  }

  /** All packets under one key lie within a stretch of refresh + pre. */
  lemma KeySpan(p: Prims, cfg: TxCfg, g: Run, j: nat, k: nat)
    requires CfgOk(cfg) && RunInv(p, cfg, g) && j <= k < |g.log| && g.log[j].sek == g.log[k].sek
    ensures k - j < cfg.refresh + cfg.pre < MODULUS
  {
    hide InUse, Quiet, Prepared, Pending, Counting, Tenured, Recent;
  }
}
