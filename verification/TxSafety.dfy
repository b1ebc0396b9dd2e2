/**
 * The key rotation over whole runs: what every step keeps under the schedule, and what follows for the keys.
 */
module TxSafety {
  import opened Packets
  import opened KeyWrap
  import opened KmMessage
  import opened TxRotation

  /** The period and the announcement window fit each other and the 31-bit packet index. */
  predicate CfgOk(cfg: TxCfg) {
    LegalKeyLen(cfg.keyLen) && Mode(cfg.mode) && 0 < cfg.pre && 2 * cfg.pre < cfg.refresh
      && cfg.refresh + cfg.pre < 0x8000_0000
  }

  /** One context is in use, and it is the only active one. */
  predicate InUse(p: Prims, cfg: TxCfg, t: Tx) {
    && ValidTx(t) && |t.c[t.cur].salt| == SALT_SZ && |t.c[t.cur].sek| == cfg.keyLen
    && t.c[t.cur].status == S_ACTIVE && t.c[1 - t.cur].status != S_ACTIVE && t.c[1 - t.cur].status >= S_SARDY
    && t.kek == Kek(p, cfg.pwd, t.c[t.cur].salt, cfg.keyLen)
  }

  /** The cached message of a context holds its key, alone or beside the key the other context has now. */
  predicate KmHas(p: Prims, cfg: TxCfg, t: Tx, i: nat)
    requires ValidTx(t) && i < 2
  {
    var x, y := t.c[i], t.c[1 - i];
    || x.km == Cached(p, cfg, t.kek, i, x.salt, x.sek, None)
    || (|y.sek| == cfg.keyLen && x.km == Cached(p, cfg, t.kek, i, x.salt, x.sek, Some(y.sek)))
  }

  /** Between the switch and the next refresh: only the key in use is announced. */
  predicate Quiet(p: Prims, cfg: TxCfg, g: Run)
    requires ValidTx(g.t)
  {
    var x, y := g.t.c[g.t.cur], g.t.c[1 - g.t.cur];
    && x.announce && !y.announce && (y.status == S_SARDY || y.status == S_DEPRECATED)
    && x.pktCnt <= cfg.refresh - cfg.pre + g.since && KmHas(p, cfg, g.t, g.t.cur)
  }

  /**
   * From the refresh to the switch: the next key is announced together with the one in use, and nothing was sealed
   * with it.
   */
  predicate Prepared(p: Prims, cfg: TxCfg, g: Run)
    requires ValidTx(g.t)
  {
    var x, y := g.t.c[g.t.cur], g.t.c[1 - g.t.cur];
    && !x.announce && y.announce && y.status == S_KEYED && y.pktCnt == 0
    && y.salt == x.salt && |y.sek| == cfg.keyLen
    && y.km == Cached(p, cfg, g.t.kek, 1 - g.t.cur, x.salt, y.sek, Some(x.sek))
    && cfg.refresh - cfg.pre < x.pktCnt <= cfg.refresh + g.since
    && y.km in g.kms && y.sek in g.used && y.sek != x.sek && (forall k :: 0 <= k < |g.log| ==> g.log[k].sek != y.sek)
  }

  predicate Pending(g: Run)
    requires ValidTx(g.t)
  {
    var x, y := g.t.c[g.t.cur], g.t.c[1 - g.t.cur];
    !y.ttsend && (x.ttsend <==> g.kms == []) && (g.kms == [] ==> g.log == [])
  }

  predicate Counting(cfg: TxCfg, g: Run)
    requires ValidTx(g.t)
  {
    var n := g.t.c[g.t.cur].pktCnt;
    && g.since <= cfg.pre && g.tenure <= n <= g.tenure + 1 && (n == 0 ==> g.since == 0) && n <= cfg.refresh + cfg.pre
    && (n != g.tenure ==> g.tenure == |g.log|)
  }

  /** Packets since the switch are sealed with the key in use, and no earlier one is. */
  predicate Tenured(g: Run)
    requires ValidTx(g.t)
  {
    && g.tenure <= |g.log|
    && (forall k :: |g.log| - g.tenure <= k < |g.log| ==> g.log[k] == Sealing(g.t.cur, g.t.c[g.t.cur].sek))
    && (forall k :: 0 <= k < |g.log| - g.tenure ==> g.log[k].sek != g.t.c[g.t.cur].sek)
    && g.t.c[g.t.cur].sek in g.used && (forall k :: 0 <= k < |g.log| ==> g.log[k].sek in g.used && g.log[k].slot < 2)
  }

  /** The last refresh - pre + 1 packets are sealed with keys that their slots still have. */
  predicate Recent(cfg: TxCfg, g: Run)
    requires ValidTx(g.t)
  {
    forall k :: 0 <= k < |g.log| && |g.log| - (cfg.refresh - cfg.pre) - 1 <= k ==>
      g.log[k].slot < 2 && g.t.c[g.log[k].slot].sek == g.log[k].sek
  }

  /** Packets sealed with one key are less than refresh + pre apart. */
  predicate Close(cfg: TxCfg, g: Run) {
    forall j, k :: 0 <= j < k < |g.log| && g.log[j].sek == g.log[k].sek ==> k - j < cfg.refresh + cfg.pre
  }

  predicate RunInv(p: Prims, cfg: TxCfg, g: Run) {
    && InUse(p, cfg, g.t) && (Quiet(p, cfg, g) || Prepared(p, cfg, g)) && Pending(g)
    && Counting(cfg, g) && Tenured(g) && Recent(cfg, g) && Close(cfg, g)
  }

  lemma StartRunInv(p: Prims, cfg: TxCfg, salt: seq<Byte>, sek: seq<Byte>)
    requires CfgOk(cfg) && |salt| == SALT_SZ && |sek| == cfg.keyLen
    ensures RunInv(p, cfg, RunStart(p, cfg, salt, sek))
  {
    hide AsmKM, Kek;
  }

  // ------------------------------------------------------------------ a packet

  lemma DataKeeps(p: Prims, cfg: TxCfg, g: Run)
    requires CfgOk(cfg) && RunInv(p, cfg, g) && Scheduled(cfg, g, Data)
    ensures RunInv(p, cfg, RunNext(p, cfg, g, Data))
  {
    hide AsmKM, Kek, Cached, Tenured, Recent, Close;
    CountBelow(p, cfg, g);
    DataLog(p, cfg, g);
  }

  lemma DataLog(p: Prims, cfg: TxCfg, g: Run)
    requires ValidTx(g.t) && cfg.keyLen <= KEY_MAX_SZ && Tenured(g) && Recent(cfg, g) && Close(cfg, g)
    requires g.tenure < cfg.refresh + cfg.pre
    ensures var g' := RunNext(p, cfg, g, Data); Tenured(g') && Recent(cfg, g') && Close(cfg, g')
  {
    var g' := RunNext(p, cfg, g, Data);
    assert forall i :: 0 <= i < 2 ==> g'.t.c[i].sek == g.t.c[i].sek;
    hide RunNext;
    forall j, k | 0 <= j < k < |g'.log| && g'.log[j].sek == g'.log[k].sek
      ensures k - j < cfg.refresh + cfg.pre
    {
      if k == |g.log| {
        assert j >= |g.log| - g.tenure;
      } else {
        assert g'.log[j] == g.log[j] && g'.log[k] == g.log[k];
      }
    }
  }

  /** A packet is still allowed only while the count has not reached the end of the window. */
  lemma CountBelow(p: Prims, cfg: TxCfg, g: Run)
    requires CfgOk(cfg) && RunInv(p, cfg, g) && g.since < cfg.pre
    ensures g.t.c[g.t.cur].pktCnt + 1 <= cfg.refresh + cfg.pre
  {
    hide KmHas, Cached, Tenured, Recent, Close;
  }

  // ------------------------------------------------------------------ a call of ManageKeys

  /** Handing messages out changes nothing but the mark that they are due. */
  lemma HandedOut(p: Prims, cfg: TxCfg, g: Run, sek: seq<Byte>, due: bool)
    requires ValidTx(g.t) && |sek| == cfg.keyLen <= KEY_MAX_SZ
    ensures var t, g' := Act(p, cfg, g.t, sek), RunNext(p, cfg, g, Manage(sek, due));
      && g'.t.cur == t.cur && g'.t.kek == t.kek && g'.log == g.log && g'.since == 0 && g'.used == g.used + {sek}
      && g'.tenure == (if Choose(cfg, g.t).Rollover? then 0 else g.tenure) && g.kms <= g'.kms
      && (forall i :: 0 <= i < 2 ==> g'.t.c[i] == t.c[i].(ttsend := false))
      && (forall i :: 0 <= i < 2 && t.c[i].ttsend ==> t.c[i].km in g'.kms)
      && (forall m :: m in g.kms ==> m in g'.kms)
  {
    hide Act;
    var t, g' := Act(p, cfg, g.t, sek), RunNext(p, cfg, g, Manage(sek, due));
    forall i | 0 <= i < 2 && t.c[i].ttsend
      ensures t.c[i].km in g'.kms
    {
      assert t.c[i].km in Due(ManageKM(p, cfg, g.t, sek, due));
    }
  }

  /** Without a switch or a refresh the keys stay where they are. */
  lemma ActKeys(p: Prims, cfg: TxCfg, t: Tx, sek: seq<Byte>)
    requires ValidTx(t) && |sek| <= KEY_MAX_SZ && !Choose(cfg, t).Rollover? && !Choose(cfg, t).Prepare?
    ensures var t' := Act(p, cfg, t, sek); t'.cur == t.cur && forall i :: 0 <= i < 2 ==> t'.c[i].sek == t.c[i].sek
  {
    hide Cached;
  }

  lemma SameKeys(p: Prims, cfg: TxCfg, g: Run, sek: seq<Byte>, due: bool)
    requires ValidTx(g.t) && |sek| == cfg.keyLen <= KEY_MAX_SZ && !Choose(cfg, g.t).Rollover?
    requires !Choose(cfg, g.t).Prepare?
    requires Tenured(g) && Recent(cfg, g) && Close(cfg, g)
    ensures var g' := RunNext(p, cfg, g, Manage(sek, due)); Tenured(g') && Recent(cfg, g') && Close(cfg, g')
  {
    hide RunNext, Act;
    HandedOut(p, cfg, g, sek, due);
    ActKeys(p, cfg, g.t, sek);
    var g' := RunNext(p, cfg, g, Manage(sek, due));
    assert forall i :: 0 <= i < 2 ==> g'.t.c[i].sek == g.t.c[i].sek;
  }

  lemma StayKeeps(p: Prims, cfg: TxCfg, g: Run, sek: seq<Byte>, due: bool)
    requires CfgOk(cfg) && RunInv(p, cfg, g) && Scheduled(cfg, g, Manage(sek, due)) && Choose(cfg, g.t).Stay?
    ensures RunInv(p, cfg, RunNext(p, cfg, g, Manage(sek, due)))
  {
    hide RunNext, Cached, Kek, Tenured, Recent, Close;
    HandedOut(p, cfg, g, sek, due);
    SameKeys(p, cfg, g, sek, due);
  }

  /** Decommissioning the old key: the key in use goes on being announced, alone. */
  lemma RetireKeeps(p: Prims, cfg: TxCfg, g: Run, sek: seq<Byte>, due: bool)
    requires CfgOk(cfg) && RunInv(p, cfg, g) && Scheduled(cfg, g, Manage(sek, due)) && Choose(cfg, g.t).Retire?
    ensures RunInv(p, cfg, RunNext(p, cfg, g, Manage(sek, due)))
  {
    hide RunNext, Cached, Kek, Tenured, Recent, Close;
    HandedOut(p, cfg, g, sek, due);
    SameKeys(p, cfg, g, sek, due);
  }

  /** Rolling over: the announced key comes into use. */
  lemma RolloverKeeps(p: Prims, cfg: TxCfg, g: Run, sek: seq<Byte>, due: bool)
    requires CfgOk(cfg) && RunInv(p, cfg, g) && Scheduled(cfg, g, Manage(sek, due)) && Choose(cfg, g.t).Rollover?
    ensures Prepared(p, cfg, g) && RunInv(p, cfg, RunNext(p, cfg, g, Manage(sek, due)))
  {
    hide RunNext, Cached, Kek, Recent, Close;
    HandedOut(p, cfg, g, sek, due);
    SwitchRecent(p, cfg, g, sek, due);
  }

  lemma SwitchRecent(p: Prims, cfg: TxCfg, g: Run, sek: seq<Byte>, due: bool)
    requires ValidTx(g.t) && |sek| == cfg.keyLen <= KEY_MAX_SZ && Choose(cfg, g.t).Rollover? && Recent(cfg, g)
    requires Close(cfg, g)
    ensures var g' := RunNext(p, cfg, g, Manage(sek, due)); Recent(cfg, g') && Close(cfg, g')
  {
    hide RunNext;
    HandedOut(p, cfg, g, sek, due);
    var g' := RunNext(p, cfg, g, Manage(sek, due));
    assert forall i :: 0 <= i < 2 ==> g'.t.c[i].sek == g.t.c[i].sek;
  }

  /** Keys of legal length can always be put into a message, and two of them mark it so. */
  lemma Assembles(aes: Cipher, mode: Byte, odd: bool, salt: seq<Byte>, sek: seq<Byte>, other: seq<Byte>)
    requires |salt| == SALT_SZ && LegalKeyLen(|sek|) && |other| == |sek|
    ensures AsmKM(aes, mode, odd, salt, sek, Some(other)).Some?
    ensures BothIn(AsmKM(aes, mode, odd, salt, sek, Some(other)).value)
  {
    hide WrapRounds;
    FlagBits(odd);
    hide BothBits;
    var keys := KeysOf(odd, sek, Some(other));
    assert |keys| == 2 * |sek|;
    assert Wrap(aes.enc, keys).Some?;
    var h := Header(F_BOTH, mode, |salt|, |sek|);
    assert (h + salt + Wrap(aes.enc, keys).value)[OFS_KFLGS] == F_BOTH;
  }

  /** Preparing the next key: it is fresh, its message has both keys and is handed out at once. */
  lemma PrepareKeeps(p: Prims, cfg: TxCfg, g: Run, sek: seq<Byte>, due: bool)
    requires CfgOk(cfg) && RunInv(p, cfg, g) && Scheduled(cfg, g, Manage(sek, due)) && Choose(cfg, g.t).Prepare?
    ensures Quiet(p, cfg, g) && RunInv(p, cfg, RunNext(p, cfg, g, Manage(sek, due)))
    ensures Prepared(p, cfg, RunNext(p, cfg, g, Manage(sek, due)))
  {
    hide RunNext, AsmKM, Kek, Recent, Close, BothIn;
    HandedOut(p, cfg, g, sek, due);
    var x := g.t.c[g.t.cur];
    Assembles(p.aes(g.t.kek), cfg.mode, 1 - g.t.cur == ODD, x.salt, sek, x.sek);
    PreparedLog(p, cfg, g, sek, due);
  }

  /** The key that is overwritten was not used for any of the last refresh - pre + 1 packets. */
  lemma PreparedLog(p: Prims, cfg: TxCfg, g: Run, sek: seq<Byte>, due: bool)
    requires ValidTx(g.t) && |sek| == cfg.keyLen <= KEY_MAX_SZ && Choose(cfg, g.t).Prepare? && cfg.pre <= cfg.refresh
    requires Counting(cfg, g) && Tenured(g) && Recent(cfg, g) && Close(cfg, g)
    ensures var g' := RunNext(p, cfg, g, Manage(sek, due)); Recent(cfg, g') && Close(cfg, g')
  {
    hide RunNext, AsmKM;
    HandedOut(p, cfg, g, sek, due);
    var g' := RunNext(p, cfg, g, Manage(sek, due));
    assert g'.t.c[g.t.cur].sek == g.t.c[g.t.cur].sek;
  }

  /** Every call keeps the invariant, and every ASSERT on its way holds. */
  lemma ManageKeeps(p: Prims, cfg: TxCfg, g: Run, sek: seq<Byte>, due: bool)
    requires CfgOk(cfg) && RunInv(p, cfg, g) && Scheduled(cfg, g, Manage(sek, due))
    ensures RunInv(p, cfg, RunNext(p, cfg, g, Manage(sek, due))) && AssertsHold(p, cfg, g.t, sek)
  {
    hide RunNext, Choose, Tenured, Recent, Close, Cached, Kek, AsmKM, BothIn;
    match Choose(cfg, g.t)
    case Stay => StayKeeps(p, cfg, g, sek, due);
    case Retire => RetireKeeps(p, cfg, g, sek, due);
    case Rollover => RolloverKeeps(p, cfg, g, sek, due);
    case Prepare =>
      PrepareKeeps(p, cfg, g, sek, due);
      var x := g.t.c[g.t.cur];
      Assembles(p.aes(g.t.kek), cfg.mode, 1 - g.t.cur == ODD, x.salt, sek, x.sek);
  }

  // ------------------------------------------------------------------ whole runs

  ghost predicate IsTxRun(p: Prims, cfg: TxCfg, gs: seq<Run>, evs: seq<TxEvent>) {
    && cfg.keyLen <= KEY_MAX_SZ && |gs| == |evs| + 1
    && (forall i :: 0 <= i < |evs| ==> TxStep(p, cfg, gs[i], evs[i], gs[i + 1]))
  }

  ghost predicate TxStep(p: Prims, cfg: TxCfg, g: Run, ev: TxEvent, g': Run)
    requires cfg.keyLen <= KEY_MAX_SZ
  {
    ValidTx(g.t) && Scheduled(cfg, g, ev) && g' == RunNext(p, cfg, g, ev)
  }

  /** Through any number of rotations the invariant holds. */
  lemma {:induction false} RotationSafe(p: Prims, cfg: TxCfg, gs: seq<Run>, evs: seq<TxEvent>, salt: seq<Byte>,
                                        sek: seq<Byte>, n: nat)
    requires CfgOk(cfg) && |salt| == SALT_SZ && |sek| == cfg.keyLen
    requires IsTxRun(p, cfg, gs, evs) && gs[0] == RunStart(p, cfg, salt, sek) && n < |gs|
    ensures RunInv(p, cfg, gs[n])
  {
    hide RunInv, RunNext;
    if n == 0 {
      StartRunInv(p, cfg, salt, sek);
    } else {
      RotationSafe(p, cfg, gs, evs, salt, sek, n - 1);
      assert TxStep(p, cfg, gs[n - 1], evs[n - 1], gs[n]);
      match evs[n - 1]
      case Data => DataKeeps(p, cfg, gs[n - 1]);
      case Manage(k, due) => ManageKeeps(p, cfg, gs[n - 1], k, due);
    }
  }

  /** The message of context i is announced and has the key in use. */
  predicate Announces(p: Prims, cfg: TxCfg, t: Tx, i: nat)
    requires ValidTx(t)
  {
    i < 2 && t.c[i].announce && KmHas(p, cfg, t, i) && (i == t.cur || BothIn(t.c[i].km))
  }

  /** At every moment one context is active, and a message with its key is announced. */
  lemma ActiveIsAnnounced(p: Prims, cfg: TxCfg, g: Run)
    requires CfgOk(cfg) && RunInv(p, cfg, g)
    ensures ValidTx(g.t) && forall i :: 0 <= i < 2 ==> (g.t.c[i].status == S_ACTIVE <==> i == g.t.cur)
    ensures Announces(p, cfg, g.t, g.t.cur) || Announces(p, cfg, g.t, 1 - g.t.cur)
  {
    hide Kek, Tenured, Recent, Close, AsmKM, BothIn;
    var a := 1 - g.t.cur;
    if Prepared(p, cfg, g) {
      Assembles(p.aes(g.t.kek), cfg.mode, a == ODD, g.t.c[a].salt, g.t.c[a].sek, g.t.c[g.t.cur].sek);
    }
  }

  /** A switch goes to a key that a message handed out before has, and that sealed nothing yet. */
  lemma SwitchesToAnnounced(p: Prims, cfg: TxCfg, g: Run, sek: seq<Byte>, due: bool)
    requires CfgOk(cfg) && RunInv(p, cfg, g) && Scheduled(cfg, g, Manage(sek, due))
    requires RunNext(p, cfg, g, Manage(sek, due)).t.cur != g.t.cur
    ensures var a := 1 - g.t.cur; var y := g.t.c[a];
      && RunNext(p, cfg, g, Manage(sek, due)).t.c[a].sek == y.sek
      && y.km in g.kms && y.km == Cached(p, cfg, g.t.kek, a, y.salt, y.sek, Some(g.t.c[g.t.cur].sek))
      && forall k :: 0 <= k < |g.log| ==> g.log[k].sek != y.sek
  {
    hide RunNext, Cached, Kek, Tenured, Recent, Close, AsmKM, Act, Choose, KmHas;
    HandedOut(p, cfg, g, sek, due);
    ActChanges(p, cfg, g.t, sek);
    RolloverKeeps(p, cfg, g, sek, due);
  }

  /** Which action changes what. */
  lemma ActChanges(p: Prims, cfg: TxCfg, t: Tx, sek: seq<Byte>)
    requires ValidTx(t) && |sek| <= KEY_MAX_SZ
    ensures var t' := Act(p, cfg, t, sek);
      && (t'.cur != t.cur <==> Choose(cfg, t).Rollover?)
      && (forall i :: 0 <= i < 2 && t'.c[i].sek != t.c[i].sek ==> Choose(cfg, t).Prepare? && i == 1 - t.cur)
  {
    hide AsmKM, Cached, Choose, BothIn;
  }

  /** A slot gets a new key only after more than refresh - pre packets under the other one, or before it sealed any. */
  lemma OverwritesLate(p: Prims, cfg: TxCfg, g: Run, sek: seq<Byte>, due: bool, i: nat)
    requires CfgOk(cfg) && RunInv(p, cfg, g) && Scheduled(cfg, g, Manage(sek, due)) && i < 2
    requires RunNext(p, cfg, g, Manage(sek, due)).t.c[i].sek != g.t.c[i].sek
    ensures i == 1 - g.t.cur && (forall k :: 0 <= k < |g.log| && g.log[k].slot == i && g.log[k].sek == g.t.c[i].sek ==>
                                   |g.log| - k > cfg.refresh - cfg.pre + 1)
  {
    hide RunNext, Cached, Kek, Recent, Close, AsmKM, KmHas, Act;
    HandedOut(p, cfg, g, sek, due);
    ActChanges(p, cfg, g.t, sek);
  }

  // ------------------------------------------------------------------ without a packet after the switch

  /** The only call that switches to a key that was not prepared is one with no packet since the last switch. */
  lemma WrongSwitchIff(p: Prims, cfg: TxCfg, g: Run)
    requires CfgOk(cfg) && RunInv(p, cfg, g)
    ensures Choose(cfg, g.t).Rollover? && !Prepared(p, cfg, g) <==> g.t.c[g.t.cur].pktCnt == 0
  {
    hide Cached, Kek, Tenured, Recent, Close, KmHas;
  }

  /** Calling again right after a switch goes back to the key that was just worn out. */
  lemma SwitchesBack(p: Prims, cfg: TxCfg, g: Run, k1: seq<Byte>, due1: bool, k2: seq<Byte>, due2: bool)
    requires CfgOk(cfg) && RunInv(p, cfg, g) && Scheduled(cfg, g, Manage(k1, due1)) && Choose(cfg, g.t).Rollover?
    requires |k2| == cfg.keyLen
    ensures var g1 := RunNext(p, cfg, g, Manage(k1, due1));
      var g2 := RunNext(p, cfg, g1, Manage(k2, due2));
      && g1.t.cur == 1 - g.t.cur && g2.t.cur == g.t.cur && g2.t.c[g2.t.cur].sek == g.t.c[g.t.cur].sek
      && g2.t.c[g2.t.cur].pktCnt > cfg.refresh
  {
    hide RunNext, Cached, Kek, Tenured, Recent, Close, KmHas, AsmKM;
    HandedOut(p, cfg, g, k1, due1);
    var g1 := RunNext(p, cfg, g, Manage(k1, due1));
    HandedOut(p, cfg, g1, k2, due2);
    RolloverKeeps(p, cfg, g, k1, due1);
    assert g1.t.c[g1.t.cur].pktCnt == 0;
  }
}
