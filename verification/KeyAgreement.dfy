/**
 * Transmitter and receiver over whole runs: when every Keying Material message handed out is processed before the
 * packets that follow it, each packet's flags select the key it was sealed with, through any number of rotations.
 */
module KeyAgreement {
  import opened Packets
  import opened KeyWrap
  import opened KmMessage
  import opened TxRotation
  import opened TxSafety

  datatype Peers = Peers(g: Run, rx: Rx)

  /** Same password and cipher mode on both sides. */
  predicate Paired(cfg: TxCfg, rcfg: RxCfg) {
    rcfg.pwd == cfg.pwd && cfg.pwd != [] && rcfg.mode == cfg.mode && (cfg.mode == CIPHER_GCM ==> rcfg.hasGcm)
  }

  function Hear(p: Prims, rcfg: RxCfg, rx: Rx, msg: seq<Byte>): Rx
    requires ValidRx(rx)
  {
    Process(p, rcfg, rx, msg).0
  }

  function HearAll(p: Prims, rcfg: RxCfg, rx: Rx, msgs: seq<seq<Byte>>): Rx
    requires ValidRx(rx)
    decreases |msgs|
  {
    if msgs == [] then rx
    else
      var rx1 := Hear(p, rcfg, rx, msgs[0]);
      if !ValidRx(rx1) then rx1 else HearAll(p, rcfg, rx1, msgs[1..])
  }

  /** Messages handed out are heard at once, and so are packets. */
  function PeersNext(p: Prims, cfg: TxCfg, rcfg: RxCfg, b: Peers, ev: TxEvent): Peers
    requires ValidTx(b.g.t) && ValidRx(b.rx) && cfg.keyLen <= KEY_MAX_SZ && (ev.Manage? ==> |ev.sek| <= KEY_MAX_SZ)
  {
    var g := RunNext(p, cfg, b.g, ev);
    match ev
    case Manage(_, _) => Peers(g, HearAll(p, rcfg, b.rx, if |b.g.kms| <= |g.kms| then g.kms[|b.g.kms|..] else []))
    case Data => Peers(g, ReceiveData(b.rx, b.g.t.cur).0)
  }

  /** A message made of keys that have been generated so far. */
  ghost predicate IsOld(p: Prims, cfg: TxCfg, kek: seq<Byte>, salt: seq<Byte>, used: set<seq<Byte>>, m: seq<Byte>)
    requires |salt| == SALT_SZ && LegalKeyLen(cfg.keyLen)
  {
    exists i: nat, k: seq<Byte>, alt: Option<seq<Byte>> ::
      && OldKeys(cfg, used, k, alt) && m == Cached(p, cfg, kek, i, salt, k, alt)
  }

  predicate OldKeys(cfg: TxCfg, used: set<seq<Byte>>, k: seq<Byte>, alt: Option<seq<Byte>>)
    requires LegalKeyLen(cfg.keyLen)
    ensures OldKeys(cfg, used, k, alt) ==> |k| <= KEY_MAX_SZ
  {
    |k| == cfg.keyLen && k in used && (alt.Some? ==> |alt.value| == cfg.keyLen && alt.value in used)
  }

  /** The receiver has the transmitter's key in slot i, if the transmitter has one there, and its salt. */
  predicate Agrees(t: Tx, rx: Rx, i: nat, salt: seq<Byte>)
    requires ValidTx(t) && ValidRx(rx) && i < 2
  {
    t.c[i].sek != [] ==> rx.c[i].status == S_KEYED && rx.c[i].sek == t.c[i].sek && rx.c[i].salt == salt
  }

  /**
   * Once a message was handed out the receiver has the transmitter's KEK and keys, and its even context one of the
   * messages.
   */
  predicate Knows(t: Tx, rx: Rx, kms: seq<seq<Byte>>, salt: seq<Byte>)
    requires ValidTx(t) && ValidRx(rx)
  {
    && (kms == [] ==> rx == InitRx() && t.c[1 - t.cur].sek == [])
    && (kms != [] ==> rx.kek == t.kek && Agrees(t, rx, 0, salt) && Agrees(t, rx, 1, salt))
    && (rx.c[EVEN].status >= S_KEYED ==> rx.c[EVEN].km in kms)
  }

  predicate KeysKnown(cfg: TxCfg, g: Run)
    requires ValidTx(g.t)
  {
    forall i :: 0 <= i < 2 ==> g.t.c[i].sek == [] || (|g.t.c[i].sek| == cfg.keyLen && g.t.c[i].sek in g.used)
  }

  ghost predicate PeersInv(p: Prims, cfg: TxCfg, rcfg: RxCfg, salt: seq<Byte>, b: Peers) {
    && |salt| == SALT_SZ && LegalKeyLen(cfg.keyLen) && RunInv(p, cfg, b.g) && ValidRx(b.rx)
    && b.g.t.c[b.g.t.cur].salt == salt
    && KeysKnown(cfg, b.g) && Knows(b.g.t, b.rx, b.g.kms, salt)
    && (forall m :: m in b.g.kms ==> IsOld(p, cfg, b.g.t.kek, salt, b.g.used, m))
  }

  // ------------------------------------------------------------------ one message

  /** A message of the transmitter is either the one already in force or installs its keys. */
  lemma Heard(p: Prims, cfg: TxCfg, rcfg: RxCfg, rx: Rx, kek: seq<Byte>, i: nat, salt: seq<Byte>, k: seq<Byte>,
              alt: Option<seq<Byte>>)
    requires Sound(p) && Paired(cfg, rcfg) && Mode(cfg.mode) && ValidRx(rx) && i < 2 && |salt| == SALT_SZ
    requires LegalKeyLen(|k|) && |k| == cfg.keyLen && (alt.Some? ==> |alt.value| == |k|)
    requires kek == Kek(p, cfg.pwd, salt, cfg.keyLen) && (rx.kek == kek || rx == InitRx())
    ensures var m := Cached(p, cfg, kek, i, salt, k, alt); var rx' := Hear(p, rcfg, rx, m);
      && AsmKM(p.aes(kek), cfg.mode, i == ODD, salt, k, alt) == Some(m)
      && ValidRx(rx')
      && if rx.c[EVEN].status >= S_KEYED && rx.c[EVEN].km == m then rx' == rx
         else rx'.kek == kek && Installed(rx, rx', i == ODD, salt, k, alt, m)
  {
    hide Wrap, Unwrap, Permutes, LenOf, BothBits, OddBit, NoBits, Header, AsmKM, WellFormedKM, Kek, Sound;
    AesSound(p, kek);
    AsmFields(p.aes(kek), rcfg, i == ODD, salt, k, alt);
    AsmKeying(p.aes(kek), cfg.mode, i == ODD, salt, k, alt);
    RoundTrip(p, rcfg, rx, i == ODD, salt, k, alt);
    var m := Cached(p, cfg, kek, i, salt, k, alt);
    assert KekFor(p, rcfg, rx, m) == kek;
    SessionKek(p, rcfg, rx, m);
  }

  lemma AesSound(p: Prims, kek: seq<Byte>)
    requires Sound(p)
    ensures Permutes(p.aes(kek))
  {
  }

  lemma SessionKek(p: Prims, rcfg: RxCfg, rx: Rx, m: seq<Byte>)
    requires ValidRx(rx) && WellFormedKM(m, rcfg.hasGcm) && ParseKM(p, rcfg, rx, m).1 == 0
    ensures ParseKM(p, rcfg, rx, m).0.kek == KekFor(p, rcfg, rx, m)
  {
    hide Unwrap, Kek, BothBits, OddBit;
  }

  /** Equal messages have equal keys. */
  lemma SameMessage(p: Prims, cfg: TxCfg, kek: seq<Byte>, salt: seq<Byte>, i: nat, k: seq<Byte>,
                    alt: Option<seq<Byte>>, i': nat, k': seq<Byte>, alt': Option<seq<Byte>>)
    requires Sound(p) && Mode(cfg.mode) && |salt| == SALT_SZ && LegalKeyLen(cfg.keyLen) && |k| == |k'| == cfg.keyLen
    requires (alt.Some? ==> |alt.value| == cfg.keyLen) && (alt'.Some? ==> |alt'.value| == cfg.keyLen)
    requires Cached(p, cfg, kek, i, salt, k, alt) == Cached(p, cfg, kek, i', salt, k', alt')
    ensures alt.Some? == alt'.Some? && KeysOf(i == ODD, k, alt) == KeysOf(i' == ODD, k', alt')
  {
    hide Wrap, Unwrap, Permutes, LenOf, BothBits, OddBit, Header, AsmKM, WellFormedKM, Sound, Sendable;
    AesSound(p, kek);
    var rcfg := RxCfg(cfg.pwd, cfg.mode, true);
    CanSend(rcfg, salt, k, alt);
    CanSend(rcfg, salt, k', alt');
    AsmFields(p.aes(kek), rcfg, i == ODD, salt, k, alt);
    AsmFields(p.aes(kek), rcfg, i' == ODD, salt, k', alt');
    KeysLength(i == ODD, k, alt);
    KeysLength(i' == ODD, k', alt');
    hide KeysOf;
    UnwrapsWrapped(p.aes(kek), KeysOf(i == ODD, k, alt));
    UnwrapsWrapped(p.aes(kek), KeysOf(i' == ODD, k', alt'));
  }

  lemma CanSend(rcfg: RxCfg, salt: seq<Byte>, k: seq<Byte>, alt: Option<seq<Byte>>)
    requires |salt| == SALT_SZ && LegalKeyLen(|k|) && (alt.Some? ==> |alt.value| == |k|) && Mode(rcfg.mode)
    requires rcfg.hasGcm
    ensures Sendable(rcfg, salt, k, alt)
  {
  }

  lemma KeysLength(odd: bool, k: seq<Byte>, alt: Option<seq<Byte>>)
    requires LegalKeyLen(|k|) && (alt.Some? ==> |alt.value| == |k|)
    ensures |KeysOf(odd, k, alt)| % 8 == 0 && |KeysOf(odd, k, alt)| >= 8
  {
  }

  /** A message with a fresh key was never handed out before. */
  lemma FreshIsNew(p: Prims, cfg: TxCfg, kek: seq<Byte>, salt: seq<Byte>, used: set<seq<Byte>>, i: nat,
                   sek: seq<Byte>, x: seq<Byte>)
    requires Sound(p) && Mode(cfg.mode) && |salt| == SALT_SZ && LegalKeyLen(cfg.keyLen) && |sek| == |x| == cfg.keyLen
    requires sek !in used
    ensures !IsOld(p, cfg, kek, salt, used, Cached(p, cfg, kek, i, salt, sek, Some(x)))
  {
    hide Cached, Sound;
    var m := Cached(p, cfg, kek, i, salt, sek, Some(x));
    if IsOld(p, cfg, kek, salt, used, m) {
      var i': nat, k, alt :| OldKeys(cfg, used, k, alt) && m == Cached(p, cfg, kek, i', salt, k, alt);
      SameMessage(p, cfg, kek, salt, i, sek, Some(x), i', k, alt);
      SplitIff(KeysOf(i == ODD, sek, Some(x)), i' == ODD, k, alt);
      KeysSplit(i == ODD, sek, Some(x));
    }
  }

  // ------------------------------------------------------------------ a call of ManageKeys

  /** Nothing happens on the first call but that the first message goes out. */
  lemma FirstStays(p: Prims, cfg: TxCfg, g: Run, sek: seq<Byte>, due: bool)
    requires CfgOk(cfg) && RunInv(p, cfg, g) && Scheduled(cfg, g, Manage(sek, due)) && g.kms == []
    ensures Choose(cfg, g.t).Stay?
  {
    hide AsmKM, Kek, Recent, Close, KmHas, Cached;
  }

  /** What is marked as due is announced, and what was just prepared is due. */
  lemma DueAnnounced(p: Prims, cfg: TxCfg, g: Run, sek: seq<Byte>, due: bool)
    requires CfgOk(cfg) && RunInv(p, cfg, g) && Scheduled(cfg, g, Manage(sek, due))
    ensures var t := Act(p, cfg, g.t, sek);
      && (forall i :: 0 <= i < 2 && t.c[i].ttsend ==> t.c[i].announce)
      && (g.kms == [] || Choose(cfg, g.t).Prepare? ==> t.c[0].ttsend || t.c[1].ttsend)
  {
    hide AsmKM, Kek, Tenured, Recent, Close, KmHas, Cached, Choose;
    if g.kms == [] {
      FirstStays(p, cfg, g, sek, due);
    }
  }

  /** At most one message is handed out: the announced one; always after a refresh and the first time. */
  lemma OneMessage(p: Prims, cfg: TxCfg, g: Run, sek: seq<Byte>, due: bool, i: nat)
    requires CfgOk(cfg) && RunInv(p, cfg, g) && Scheduled(cfg, g, Manage(sek, due)) && i < 2
    requires RunNext(p, cfg, g, Manage(sek, due)).t.c[i].announce
    ensures var g' := RunNext(p, cfg, g, Manage(sek, due));
      && (g'.kms == g.kms + [g'.t.c[i].km] || (g'.kms == g.kms != [] && !Choose(cfg, g.t).Prepare?))
  {
    hide AsmKM, Kek, Tenured, Recent, Close, KmHas, Cached, Choose, Act;
    HandedOut(p, cfg, g, sek, due);
    ManageKeeps(p, cfg, g, sek, due);
    DueAnnounced(p, cfg, g, sek, due);
    var t := Act(p, cfg, g.t, sek);
    assert !t.c[1 - i].announce;
  }

  /** Salt and KEK stay as they were, and every key in a slot has been generated. */
  lemma ManageConstants(p: Prims, cfg: TxCfg, g: Run, sek: seq<Byte>, due: bool)
    requires CfgOk(cfg) && RunInv(p, cfg, g) && Scheduled(cfg, g, Manage(sek, due)) && KeysKnown(cfg, g)
    ensures var g' := RunNext(p, cfg, g, Manage(sek, due));
      && g'.t.kek == g.t.kek && g'.t.c[g'.t.cur].salt == g.t.c[g.t.cur].salt && KeysKnown(cfg, g')
      && (!Choose(cfg, g.t).Prepare? ==> forall i :: 0 <= i < 2 ==> g'.t.c[i].sek == g.t.c[i].sek)
  {
    hide RunNext, AsmKM, Kek, Tenured, Recent, Close, KmHas, Cached, Choose;
    HandedOut(p, cfg, g, sek, due);
    ActChanges(p, cfg, g.t, sek);
    if Choose(cfg, g.t).Rollover? {
      RolloverKeeps(p, cfg, g, sek, due);
    }
  }

  /** The announced message as a message of current keys. */
  lemma AnnouncedMessage(p: Prims, cfg: TxCfg, g: Run) returns (i: nat, alt: Option<seq<Byte>>)
    requires CfgOk(cfg) && RunInv(p, cfg, g) && KeysKnown(cfg, g)
    ensures i < 2 && g.t.c[i].announce && |g.t.c[i].sek| == cfg.keyLen
    ensures alt.None? || (alt == Some(g.t.c[1 - i].sek) && |alt.value| == cfg.keyLen)
    ensures Prepared(p, cfg, g) ==> alt.Some? && i == 1 - g.t.cur
    ensures g.t.c[i].km == Cached(p, cfg, g.t.kek, i, g.t.c[g.t.cur].salt, g.t.c[i].sek, alt)
  {
    hide AsmKM, Kek, Tenured, Recent, Close, Cached;
    if Prepared(p, cfg, g) {
      i := 1 - g.t.cur;
      alt := Some(g.t.c[g.t.cur].sek);
    } else {
      i := g.t.cur;
      var x, y := g.t.c[i], g.t.c[1 - i];
      alt := if x.km == Cached(p, cfg, g.t.kek, i, x.salt, x.sek, None) then None else Some(y.sek);
    }
  }

  lemma OldStays(p: Prims, cfg: TxCfg, kek: seq<Byte>, salt: seq<Byte>, used: set<seq<Byte>>, sek: seq<Byte>,
                 kms: seq<seq<Byte>>)
    requires |salt| == SALT_SZ && LegalKeyLen(cfg.keyLen) && forall m :: m in kms ==> IsOld(p, cfg, kek, salt, used, m)
    ensures forall m :: m in kms ==> IsOld(p, cfg, kek, salt, used + {sek}, m)
  {
    hide Cached;
    forall m | m in kms
      ensures IsOld(p, cfg, kek, salt, used + {sek}, m)
    {
      var i: nat, k, alt :| OldKeys(cfg, used, k, alt) && m == Cached(p, cfg, kek, i, salt, k, alt);
      assert OldKeys(cfg, used + {sek}, k, alt);
    }
  }

  lemma HearOne(p: Prims, rcfg: RxCfg, rx: Rx, msgs: seq<seq<Byte>>)
    requires ValidRx(rx) && |msgs| <= 1
    ensures HearAll(p, rcfg, rx, msgs) == if msgs == [] then rx else Hear(p, rcfg, rx, msgs[0])
  {
    hide Hear;
    if msgs != [] {
      var rx1 := Hear(p, rcfg, rx, msgs[0]);
      assert msgs[1..] == [];
    }
  }

  /** What the receiver has after one call: nothing new, or the one message. */
  lemma ManageHears(p: Prims, cfg: TxCfg, rcfg: RxCfg, b: Peers, sek: seq<Byte>, due: bool, m: seq<Byte>)
    requires ValidTx(b.g.t) && |sek| == cfg.keyLen <= KEY_MAX_SZ && ValidRx(b.rx)
    ensures var g', b' := RunNext(p, cfg, b.g, Manage(sek, due)), PeersNext(p, cfg, rcfg, b, Manage(sek, due));
      && b'.g == g'
      && (g'.kms == b.g.kms + [m] ==> b'.rx == Hear(p, rcfg, b.rx, m))
      && (g'.kms == b.g.kms ==> b'.rx == b.rx)
  {
    hide RunNext, Hear, HearAll;
    var g' := RunNext(p, cfg, b.g, Manage(sek, due));
    if g'.kms == b.g.kms + [m] {
      assert g'.kms[|b.g.kms|..] == [m];
      HearOne(p, rcfg, b.rx, [m]);
    } else if g'.kms == b.g.kms {
      assert g'.kms[|b.g.kms|..] == [];
      HearOne(p, rcfg, b.rx, []);
    }
  }

  predicate SameSeks(t: Tx, t': Tx)
    requires ValidTx(t) && ValidTx(t')
  {
    t'.kek == t.kek && t'.c[0].sek == t.c[0].sek && t'.c[1].sek == t.c[1].sek
  }

  lemma KnowsSame(t: Tx, t': Tx, rx: Rx, kms: seq<seq<Byte>>, salt: seq<Byte>)
    requires ValidTx(t) && ValidTx(t') && ValidRx(rx) && Knows(t, rx, kms, salt) && kms != [] && SameSeks(t, t')
    ensures Knows(t', rx, kms, salt)
  {
  }

  /** After one message: a known one changed nothing and its keys are in place; another one put its keys in place. */
  lemma KnowsMore(t: Tx, t': Tx, rx: Rx, rx': Rx, kms: seq<seq<Byte>>, i: nat, salt: seq<Byte>, alt: Option<seq<Byte>>)
    requires ValidTx(t) && ValidTx(t') && ValidRx(rx) && ValidRx(rx') && Knows(t, rx, kms, salt) && i < 2
    requires t'.kek == t.kek
    requires alt.None? || alt == Some(t'.c[1 - i].sek)
    requires SameSeks(t, t') || (t'.c[i].km !in kms && alt.Some?)
    requires kms == [] && alt.None? ==> i == t.cur
    requires if rx.c[EVEN].status >= S_KEYED && rx.c[EVEN].km == t'.c[i].km then rx' == rx
             else rx'.kek == t'.kek && Installed(rx, rx', i == ODD, salt, t'.c[i].sek, alt, t'.c[i].km)
    ensures Knows(t', rx', kms + [t'.c[i].km], salt)
  {
  }

  lemma ManageKnows(p: Prims, cfg: TxCfg, rcfg: RxCfg, salt: seq<Byte>, b: Peers, sek: seq<Byte>, due: bool)
    requires Sound(p) && CfgOk(cfg) && Paired(cfg, rcfg) && PeersInv(p, cfg, rcfg, salt, b)
    requires Scheduled(cfg, b.g, Manage(sek, due))
    ensures var b' := PeersNext(p, cfg, rcfg, b, Manage(sek, due));
      ValidRx(b'.rx) && Knows(b'.g.t, b'.rx, b'.g.kms, salt)
  {
    hide Sound, RunInv, RunNext, PeersNext, Cached, Hear, Kek, IsOld, Choose, Prepared, KeysKnown, Agrees, Installed;
    RunFacts(p, cfg, b.g);
    ManageKeeps(p, cfg, b.g, sek, due);
    ManageConstants(p, cfg, b.g, sek, due);
    var g' := RunNext(p, cfg, b.g, Manage(sek, due));
    RunFacts(p, cfg, g');
    var i, alt := AnnouncedMessage(p, cfg, g');
    OneMessage(p, cfg, b.g, sek, due, i);
    ManageHears(p, cfg, rcfg, b, sek, due, g'.t.c[i].km);
    if g'.kms == b.g.kms {
      KnowsSame(b.g.t, g'.t, b.rx, b.g.kms, salt);
    } else {
      Heard(p, cfg, rcfg, b.rx, g'.t.kek, i, salt, g'.t.c[i].sek, alt);
      if Choose(cfg, b.g.t).Prepare? {
        PrepareKeeps(p, cfg, b.g, sek, due);
        PreparedFresh(p, cfg, b.g, sek, due, salt);
      }
      FirstSlot(p, cfg, b.g, sek, due, i);
      KnowsMore(b.g.t, g'.t, b.rx, Hear(p, rcfg, b.rx, g'.t.c[i].km), b.g.kms, i, salt, alt);
    }
  }

  lemma ManageOld(p: Prims, cfg: TxCfg, g: Run, salt: seq<Byte>, sek: seq<Byte>, due: bool)
    requires CfgOk(cfg) && RunInv(p, cfg, g) && KeysKnown(cfg, g) && Scheduled(cfg, g, Manage(sek, due))
    requires |salt| == SALT_SZ && g.t.c[g.t.cur].salt == salt && forall m :: m in g.kms ==>
             IsOld(p, cfg, g.t.kek, salt, g.used, m)
    ensures var g' := RunNext(p, cfg, g, Manage(sek, due));
      forall m :: m in g'.kms ==> IsOld(p, cfg, g'.t.kek, salt, g'.used, m)
  {
    hide RunInv, RunNext, Cached, Kek, IsOld, Choose, Prepared, KeysKnown;
    RunFacts(p, cfg, g);
    ManageKeeps(p, cfg, g, sek, due);
    ManageConstants(p, cfg, g, sek, due);
    var g' := RunNext(p, cfg, g, Manage(sek, due));
    RunFacts(p, cfg, g');
    var i, alt := AnnouncedMessage(p, cfg, g');
    OneMessage(p, cfg, g, sek, due, i);
    UsedGrows(p, cfg, g, sek, due);
    OldStays(p, cfg, g.t.kek, salt, g.used, sek, g.kms);
    NewIsOld(p, cfg, g', salt, i, alt);
  }

  /** A call keeps both sides in agreement, whether its message is new to the receiver or not. */
  lemma ManageAgrees(p: Prims, cfg: TxCfg, rcfg: RxCfg, salt: seq<Byte>, b: Peers, sek: seq<Byte>, due: bool)
    requires Sound(p) && CfgOk(cfg) && Paired(cfg, rcfg) && PeersInv(p, cfg, rcfg, salt, b)
    requires Scheduled(cfg, b.g, Manage(sek, due))
    ensures PeersInv(p, cfg, rcfg, salt, PeersNext(p, cfg, rcfg, b, Manage(sek, due)))
  {
    hide Sound, RunInv, RunNext, HearAll, Kek, IsOld, Choose, KeysKnown, Knows;
    RunFacts(p, cfg, b.g);
    ManageKeeps(p, cfg, b.g, sek, due);
    ManageConstants(p, cfg, b.g, sek, due);
    ManageKnows(p, cfg, rcfg, salt, b, sek, due);
    ManageOld(p, cfg, b.g, salt, sek, due);
  }

  lemma DataAgrees(p: Prims, cfg: TxCfg, rcfg: RxCfg, salt: seq<Byte>, b: Peers)
    requires CfgOk(cfg) && PeersInv(p, cfg, rcfg, salt, b) && Scheduled(cfg, b.g, Data)
    ensures PeersInv(p, cfg, rcfg, salt, PeersNext(p, cfg, rcfg, b, Data))
  {
    hide RunInv, Kek, IsOld;
    RunFacts(p, cfg, b.g);
    DataKeeps(p, cfg, b.g);
  }

  // ------------------------------------------------------------------ whole runs

  ghost predicate IsPeersRun(p: Prims, cfg: TxCfg, rcfg: RxCfg, bs: seq<Peers>, evs: seq<TxEvent>) {
    && cfg.keyLen <= KEY_MAX_SZ && |bs| == |evs| + 1
    && (forall i :: 0 <= i < |evs| ==> PeersStep(p, cfg, rcfg, bs[i], evs[i], bs[i + 1]))
  }

  ghost predicate PeersStep(p: Prims, cfg: TxCfg, rcfg: RxCfg, b: Peers, ev: TxEvent, b': Peers)
    requires cfg.keyLen <= KEY_MAX_SZ
  {
    ValidTx(b.g.t) && ValidRx(b.rx) && Scheduled(cfg, b.g, ev) && b' == PeersNext(p, cfg, rcfg, b, ev)
  }

  function PeersStart(p: Prims, cfg: TxCfg, salt: seq<Byte>, sek: seq<Byte>): Peers
    requires |salt| == SALT_SZ && |sek| == cfg.keyLen <= KEY_MAX_SZ
  {
    Peers(RunStart(p, cfg, salt, sek), InitRx())
  }

  lemma {:induction false} PeersRunInv(p: Prims, cfg: TxCfg, rcfg: RxCfg, bs: seq<Peers>, evs: seq<TxEvent>,
                                       salt: seq<Byte>, sek: seq<Byte>, n: nat)
    requires Sound(p) && CfgOk(cfg) && Paired(cfg, rcfg) && |salt| == SALT_SZ && |sek| == cfg.keyLen
    requires IsPeersRun(p, cfg, rcfg, bs, evs) && bs[0] == PeersStart(p, cfg, salt, sek) && n < |bs|
    ensures PeersInv(p, cfg, rcfg, salt, bs[n])
  {
    hide Sound, PeersInv, PeersNext, RunInv;
    if n == 0 {
      StartRunInv(p, cfg, salt, sek);
      StartPeers(p, cfg, rcfg, salt, sek);
    } else {
      PeersRunInv(p, cfg, rcfg, bs, evs, salt, sek, n - 1);
      assert PeersStep(p, cfg, rcfg, bs[n - 1], evs[n - 1], bs[n]);
      match evs[n - 1]
      case Data => DataAgrees(p, cfg, rcfg, salt, bs[n - 1]);
      case Manage(k, due) => ManageAgrees(p, cfg, rcfg, salt, bs[n - 1], k, due);
    }
  }

  lemma StartPeers(p: Prims, cfg: TxCfg, rcfg: RxCfg, salt: seq<Byte>, sek: seq<Byte>)
    requires CfgOk(cfg) && |salt| == SALT_SZ && |sek| == cfg.keyLen && RunInv(p, cfg, RunStart(p, cfg, salt, sek))
    ensures PeersInv(p, cfg, rcfg, salt, PeersStart(p, cfg, salt, sek))
  {
    hide RunInv, Kek, Cached;
  }

  /**
   * In every run the receiver finds, for any of the last refresh - pre + 1 packets, the key that packet was sealed
   * with in the slot its flags name, also when the packet comes after later ones or after a switch.
   */
  lemma FlagsSelectKey(p: Prims, cfg: TxCfg, rcfg: RxCfg, bs: seq<Peers>, evs: seq<TxEvent>, salt: seq<Byte>,
                       sek: seq<Byte>, n: nat, k: nat)
    requires Sound(p) && CfgOk(cfg) && Paired(cfg, rcfg) && |salt| == SALT_SZ && |sek| == cfg.keyLen
    requires IsPeersRun(p, cfg, rcfg, bs, evs) && bs[0] == PeersStart(p, cfg, salt, sek) && n < |bs|
    requires k < |bs[n].g.log| && |bs[n].g.log| - k <= cfg.refresh - cfg.pre + 1
    ensures ValidRx(bs[n].rx) && bs[n].g.log[k].slot < 2
    ensures ReceiveData(bs[n].rx, bs[n].g.log[k].slot).1 == Some(bs[n].g.log[k].sek)
    ensures bs[n].rx.c[bs[n].g.log[k].slot].salt == salt
  {
    hide Sound, PeersInv, PeersStep, ReceiveData;
    PeersRunInv(p, cfg, rcfg, bs, evs, salt, sek, n);
    FullRun(p, cfg, rcfg, bs, evs, salt, sek, n);
    SlotKey(p, cfg, rcfg, salt, bs[n], k);
  }

  lemma SlotKey(p: Prims, cfg: TxCfg, rcfg: RxCfg, salt: seq<Byte>, b: Peers, k: nat)
    requires PeersInv(p, cfg, rcfg, salt, b) && b.g.kms != []
    requires k < |b.g.log| && |b.g.log| - k <= cfg.refresh - cfg.pre + 1 && |b.g.log[k].sek| == cfg.keyLen
    ensures ValidRx(b.rx) && b.g.log[k].slot < 2 && ReceiveData(b.rx, b.g.log[k].slot).1 == Some(b.g.log[k].sek)
    ensures b.rx.c[b.g.log[k].slot].salt == salt
  {
    hide Kek, Quiet, Prepared, Pending, Counting, Tenured, Close, IsOld, KeysKnown;
    var g := b.g;
    assert g.t.c[g.log[k].slot].sek == g.log[k].sek;
    assert Agrees(g.t, b.rx, 0, salt) && Agrees(g.t, b.rx, 1, salt);
  }

  /** Packets are sealed with keys of full length, and only once a message was handed out. */
  ghost predicate FullKeys(cfg: TxCfg, g: Run) {
    (forall k :: 0 <= k < |g.log| ==> |g.log[k].sek| == cfg.keyLen) && (g.log != [] ==> g.kms != [])
  }

  lemma FullStart(p: Prims, cfg: TxCfg, salt: seq<Byte>, sek: seq<Byte>)
    requires |salt| == SALT_SZ && |sek| == cfg.keyLen <= KEY_MAX_SZ
    ensures FullKeys(cfg, PeersStart(p, cfg, salt, sek).g)
  {
    hide Kek;
  }

  lemma FullManage(p: Prims, cfg: TxCfg, g: Run, sek: seq<Byte>, due: bool)
    requires FullKeys(cfg, g) && ValidTx(g.t) && |sek| == cfg.keyLen <= KEY_MAX_SZ
    ensures FullKeys(cfg, RunNext(p, cfg, g, Manage(sek, due)))
  {
    hide ManageKM, Due, Injected, Choose;
  }

  lemma FullData(p: Prims, cfg: TxCfg, g: Run)
    requires FullKeys(cfg, g) && ValidTx(g.t) && Scheduled(cfg, g, Data)
    requires |g.t.c[g.t.cur].sek| == cfg.keyLen <= KEY_MAX_SZ
    ensures FullKeys(cfg, RunNext(p, cfg, g, Data))
  {
  }

  lemma CurrentLength(p: Prims, cfg: TxCfg, rcfg: RxCfg, salt: seq<Byte>, b: Peers)
    requires PeersInv(p, cfg, rcfg, salt, b)
    ensures ValidTx(b.g.t) && |b.g.t.c[b.g.t.cur].sek| == cfg.keyLen <= KEY_MAX_SZ
  {
    hide Quiet, Prepared, Pending, Counting, Tenured, Recent, Close, IsOld, Kek, Knows;
  }

  lemma FullStep(p: Prims, cfg: TxCfg, rcfg: RxCfg, salt: seq<Byte>, b: Peers, ev: TxEvent)
    requires PeersInv(p, cfg, rcfg, salt, b) && ValidTx(b.g.t) && ValidRx(b.rx) && Scheduled(cfg, b.g, ev)
    requires FullKeys(cfg, b.g) && cfg.keyLen <= KEY_MAX_SZ
    ensures FullKeys(cfg, PeersNext(p, cfg, rcfg, b, ev).g)
  {
    hide PeersInv, FullKeys, RunNext, HearAll, ReceiveData;
    CurrentLength(p, cfg, rcfg, salt, b);
    match ev
    case Manage(sek, due) => FullManage(p, cfg, b.g, sek, due);
    case Data => FullData(p, cfg, b.g);
  }

  lemma {:induction false} FullRun(p: Prims, cfg: TxCfg, rcfg: RxCfg, bs: seq<Peers>, evs: seq<TxEvent>,
                                   salt: seq<Byte>, sek: seq<Byte>, n: nat)
    requires Sound(p) && CfgOk(cfg) && Paired(cfg, rcfg) && |salt| == SALT_SZ && |sek| == cfg.keyLen
    requires IsPeersRun(p, cfg, rcfg, bs, evs) && bs[0] == PeersStart(p, cfg, salt, sek) && n < |bs|
    ensures FullKeys(cfg, bs[n].g)
  {
    hide Sound, CfgOk, Paired, PeersInv, PeersNext, PeersStart, FullKeys, Scheduled;
    if n == 0 {
      FullStart(p, cfg, salt, sek);
    } else {
      FullRun(p, cfg, rcfg, bs, evs, salt, sek, n - 1);
      PeersRunInv(p, cfg, rcfg, bs, evs, salt, sek, n - 1);
      assert PeersStep(p, cfg, rcfg, bs[n - 1], evs[n - 1], bs[n]);
      FullStep(p, cfg, rcfg, salt, bs[n - 1], evs[n - 1]);
    }
  }

  lemma FirstSlot(p: Prims, cfg: TxCfg, g: Run, sek: seq<Byte>, due: bool, i: nat)
    requires CfgOk(cfg) && RunInv(p, cfg, g) && Scheduled(cfg, g, Manage(sek, due)) && i < 2
    requires RunNext(p, cfg, g, Manage(sek, due)).t.c[i].announce
    ensures g.kms == [] ==> i == g.t.cur
  {
    hide RunNext, AsmKM, Kek, Tenured, Recent, Close, KmHas, Cached, Choose;
    if g.kms == [] {
      FirstStays(p, cfg, g, sek, due);
      HandedOut(p, cfg, g, sek, due);
    }
  }

  lemma RunFacts(p: Prims, cfg: TxCfg, g: Run)
    requires RunInv(p, cfg, g)
    ensures ValidTx(g.t) && g.t.kek == Kek(p, cfg.pwd, g.t.c[g.t.cur].salt, cfg.keyLen)
  {
    hide Tenured, Recent, Close, KmHas, Cached, Kek;
  }

  lemma UsedGrows(p: Prims, cfg: TxCfg, g: Run, sek: seq<Byte>, due: bool)
    requires ValidTx(g.t) && |sek| == cfg.keyLen <= KEY_MAX_SZ
    ensures RunNext(p, cfg, g, Manage(sek, due)).used == g.used + {sek}
  {
    hide ManageKM, Due, Injected, Choose;
  }

  lemma NewIsOld(p: Prims, cfg: TxCfg, g: Run, salt: seq<Byte>, i: nat, alt: Option<seq<Byte>>)
    requires ValidTx(g.t) && LegalKeyLen(cfg.keyLen) && KeysKnown(cfg, g) && |salt| == SALT_SZ && i < 2
    requires |g.t.c[i].sek| == cfg.keyLen && (alt.None? || (alt == Some(g.t.c[1 - i].sek) && |alt.value| == cfg.keyLen))
    requires g.t.c[i].km == Cached(p, cfg, g.t.kek, i, salt, g.t.c[i].sek, alt)
    ensures IsOld(p, cfg, g.t.kek, salt, g.used, g.t.c[i].km)
  {
    hide Cached;
    assert OldKeys(cfg, g.used, g.t.c[i].sek, alt);
  }

  /** The message of a fresh key differs from all that were handed out. */
  lemma PreparedFresh(p: Prims, cfg: TxCfg, g: Run, sek: seq<Byte>, due: bool, salt: seq<Byte>)
    requires Sound(p) && CfgOk(cfg) && RunInv(p, cfg, g) && Scheduled(cfg, g, Manage(sek, due))
    requires Choose(cfg, g.t).Prepare?
    requires |salt| == SALT_SZ && g.t.c[g.t.cur].salt == salt
    requires forall m :: m in g.kms ==> IsOld(p, cfg, g.t.kek, salt, g.used, m)
    ensures var g' := RunNext(p, cfg, g, Manage(sek, due)); g'.t.cur == g.t.cur && g'.t.c[1 - g.t.cur].km !in g.kms
  {
    hide Sound, RunNext, AsmKM, Kek, Tenured, Recent, Close, KmHas, IsOld, BothIn;
    HandedOut(p, cfg, g, sek, due);
    var x := g.t.c[g.t.cur];
    Assembles(p.aes(g.t.kek), cfg.mode, 1 - g.t.cur == ODD, x.salt, sek, x.sek);
    FreshIsNew(p, cfg, g.t.kek, salt, g.used, 1 - g.t.cur, sek, x.sek);
  }
}
