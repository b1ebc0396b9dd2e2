/**
 * The transmitter's rotation between its even and odd key (section 6.1.6 of draft-sharabayko-srt-01): refresh,
 * pre-announce, switch and decommission, driven by the count of packets under the current key.
 */
module TxRotation {
  import opened Packets
  import opened KeyWrap
  import opened KmMessage

  datatype TxCtx = TxCtx(status: nat, announce: bool, ttsend: bool, salt: seq<Byte>, sek: seq<Byte>, pktCnt: nat,
    km: seq<Byte>)

  /** c[0] is the even context, c[1] the odd one, cur the one in use. */
  datatype Tx = Tx(c: seq<TxCtx>, cur: nat, kek: seq<Byte>)

  datatype TxCfg = TxCfg(pwd: seq<Byte>, mode: Byte, keyLen: nat, refresh: nat, pre: nat)

  predicate ValidTx(t: Tx) {
    |t.c| == 2 && t.cur < 2 && forall i :: 0 <= i < 2 ==> |t.c[i].salt| <= SALT_SZ && |t.c[i].sek| <= KEY_MAX_SZ
  }

  // ------------------------------------------------------------------ the steps

  /** The message a context caches; assembling fails only on an illegal key length, and then nothing is cached. */
  function Cached(p: Prims, cfg: TxCfg, kek: seq<Byte>, i: nat, salt: seq<Byte>, sek: seq<Byte>,
                  alt: Option<seq<Byte>>): seq<Byte>
    requires |salt| <= SALT_SZ && |sek| <= KEY_MAX_SZ
  {
    match AsmKM(p.aes(kek), cfg.mode, i == ODD, salt, sek, alt) case None => [] case Some(m) => m
  }

  predicate BothIn(km: seq<Byte>) {
    |km| > OFS_KFLGS && HasBoth(km)
  }

  /** A new transmitter: the even context is keyed and in use, its message waits to be sent. */
  function Create(p: Prims, cfg: TxCfg, salt: seq<Byte>, sek: seq<Byte>): Tx
    requires |salt| == SALT_SZ && |sek| == cfg.keyLen <= KEY_MAX_SZ
  {
    var kek := Kek(p, cfg.pwd, salt, cfg.keyLen);
    Tx([TxCtx(S_ACTIVE, true, true, salt, sek, 1, Cached(p, cfg, kek, EVEN, salt, sek, None)),
        TxCtx(S_SARDY, false, false, [], [], 0, [])], EVEN, kek)
  }

  /** The context not in use gets a new key under the salt of the one in use, and a message with both keys. */
  function Refresh(p: Prims, cfg: TxCfg, t: Tx, sek: seq<Byte>): (t': Tx)
    requires ValidTx(t) && |sek| <= KEY_MAX_SZ
    ensures ValidTx(t')
  {
    var a := 1 - t.cur;
    var salt := t.c[t.cur].salt;
    var km := AsmKM(p.aes(t.kek), cfg.mode, a == ODD, salt, sek, Some(t.c[t.cur].sek));
    var c := t.c[a].(salt := salt, sek := sek);
    t.(c := t.c[a := if km.None? then c.(km := []) else c.(km := km.value, pktCnt := 0, status := S_KEYED)])
  }

  /** Starts announcing the new key, and stops announcing the old one if the new message has both. */
  function PreSwitch(t: Tx): (t': Tx)
    requires ValidTx(t)
    ensures ValidTx(t')
  {
    var a := 1 - t.cur;
    var c := t.c[a := t.c[a].(announce := true, ttsend := true)];
    t.(c := if BothIn(t.c[a].km) then c[t.cur := c[t.cur].(announce := false)] else c)
  }

  function Switch(t: Tx): (t': Tx)
    requires ValidTx(t)
    ensures ValidTx(t')
  {
    var a := 1 - t.cur;
    t.(c := t.c[t.cur := t.c[t.cur].(status := S_DEPRECATED)][a := t.c[a].(status := S_ACTIVE, announce := true)],
      cur := a)
  }

  /** Decommissions the old key and announces the one in use alone. */
  function PostSwitch(p: Prims, cfg: TxCfg, t: Tx): (t': Tx)
    requires ValidTx(t)
    ensures ValidTx(t')
  {
    var a, x := 1 - t.cur, t.c[t.cur];
    var c := t.c[a := t.c[a].(announce := false, status := S_SARDY)];
    t.(c := if BothIn(x.km) then c[t.cur := x.(km := Cached(p, cfg, t.kek, t.cur, x.salt, x.sek, None))] else c)
  }

  datatype Action = Stay | Rollover | Prepare | Retire

  function Choose(cfg: TxCfg, t: Tx): Action
    requires ValidTx(t)
  {
    var n, alt := t.c[t.cur].pktCnt, t.c[1 - t.cur];
    if n > cfg.refresh || n == 0 then Rollover
    else if n > cfg.refresh - cfg.pre && !alt.announce then Prepare
    else if alt.status == S_DEPRECATED && n > cfg.pre then Retire
    else Stay
  }

  function Act(p: Prims, cfg: TxCfg, t: Tx, sek: seq<Byte>): (t': Tx)
    requires ValidTx(t) && |sek| <= KEY_MAX_SZ
    ensures ValidTx(t')
  {
    match Choose(cfg, t)
    case Rollover => Switch(t)
    case Prepare => PreSwitch(Refresh(p, cfg, t, sek))
    case Retire => PostSwitch(p, cfg, t)
    case Stay => t
  }

  /** Every announced message is due. */
  function Marked(t: Tx): (t': Tx)
    requires ValidTx(t)
    ensures ValidTx(t')
  {
    t.(c := [t.c[0].(ttsend := t.c[0].ttsend || t.c[0].announce), t.c[1].(ttsend := t.c[1].ttsend || t.c[1].announce)])
  }

  /** ManageKM: one action at most, and once the period has passed every announced message is due again. */
  function ManageKM(p: Prims, cfg: TxCfg, t: Tx, sek: seq<Byte>, due: bool): (t': Tx)
    requires ValidTx(t) && |sek| <= KEY_MAX_SZ
    ensures ValidTx(t')
  {
    var t1 := Act(p, cfg, t, sek);
    if due then Marked(t1) else t1
  }

  function Due(t: Tx): seq<seq<Byte>>
    requires ValidTx(t)
  {
    (if t.c[0].ttsend then [t.c[0].km] else []) + (if t.c[1].ttsend then [t.c[1].km] else [])
  }

  function Injected(t: Tx): (t': Tx)
    requires ValidTx(t)
    ensures ValidTx(t')
  {
    t.(c := [t.c[0].(ttsend := false), t.c[1].(ttsend := false)])
  }

  /** The ASSERTs that the action passes through, and the one that follows it. */
  predicate AssertsHold(p: Prims, cfg: TxCfg, t: Tx, sek: seq<Byte>)
    requires ValidTx(t) && |sek| <= KEY_MAX_SZ
  {
    var alt := t.c[1 - t.cur];
    && (Choose(cfg, t).Prepare? ==>
        && t.c[t.cur].status == S_ACTIVE && alt.status >= S_SARDY
        && Refresh(p, cfg, t, sek).c[1 - t.cur].status == S_KEYED)
    && (Choose(cfg, t).Rollover? ==> alt.status >= S_KEYED)
    && (var t' := Act(p, cfg, t, sek); t'.c[t'.cur].status == S_ACTIVE)
  }

  /** Encrypting one packet under the current key. */
  function CountPacket(t: Tx): (t': Tx)
    requires ValidTx(t)
    ensures ValidTx(t')
  {
    t.(c := t.c[t.cur := t.c[t.cur].(pktCnt := (t.c[t.cur].pktCnt + 1) % UINT_MAX)])
  }

  // ------------------------------------------------------------------ runs

  /** The key a packet was encrypted with and the slot its flags name. */
  datatype Sealing = Sealing(slot: nat, sek: seq<Byte>)

  /**
   * A transmitter with its past: packets since the last call of ManageKeys, packets under the current key, all
   * packets so far, all keys ever generated and all messages handed out.
   */
  datatype Run = Run(t: Tx, since: nat, tenure: nat, log: seq<Sealing>, used: set<seq<Byte>>, kms: seq<seq<Byte>>)

  datatype TxEvent = Manage(sek: seq<Byte>, due: bool) | Data

  /**
   * The schedule: keys are fresh, at most pre packets between calls, at least one after a switch, none before the
   * first message.
   */
  predicate Scheduled(cfg: TxCfg, g: Run, ev: TxEvent)
    requires ValidTx(g.t)
  {
    match ev
    case Manage(sek, _) => |sek| == cfg.keyLen && sek !in g.used && g.t.c[g.t.cur].pktCnt != 0
    case Data => g.since < cfg.pre && g.kms != []
  }

  function RunNext(p: Prims, cfg: TxCfg, g: Run, ev: TxEvent): (g': Run)
    requires ValidTx(g.t) && cfg.keyLen <= KEY_MAX_SZ && (ev.Manage? ==> |ev.sek| <= KEY_MAX_SZ)
    ensures ValidTx(g'.t)
  {
    match ev
    case Manage(sek, due) =>
      var t := ManageKM(p, cfg, g.t, sek, due);
      g.(t := Injected(t), since := 0, tenure := if Choose(cfg, g.t).Rollover? then 0 else g.tenure,
         used := g.used + {sek}, kms := g.kms + Due(t))
    case Data =>
      g.(t := CountPacket(g.t), since := g.since + 1, tenure := g.tenure + 1,
        log := g.log + [Sealing(g.t.cur, g.t.c[g.t.cur].sek)])
  }

  function RunStart(p: Prims, cfg: TxCfg, salt: seq<Byte>, sek: seq<Byte>): Run
    requires |salt| == SALT_SZ && |sek| == cfg.keyLen <= KEY_MAX_SZ
  {
    Run(Create(p, cfg, salt, sek), 0, 0, [], {sek}, [])
  }
}
