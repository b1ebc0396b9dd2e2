/**
 * Keying Material messages (section 3.2.2 of draft-sharabayko-srt-01): how a transmitter assembles them from its
 * contexts and what a receiver does with one.
 */
module KmMessage {
  import opened Packets
  import opened KeyWrap

  const EVEN: nat := 0
  const ODD: nat := 1

  const F_EVEN: Byte := 1
  const F_ODD: Byte := 2
  const F_BOTH: Byte := 3

  const CIPHER_CTR: Byte := 2
  const CIPHER_GCM: Byte := 4
  const AUTH_NONE: Byte := 0
  const AUTH_GCM: Byte := 1
  const SE_TSSRT: Byte := 2

  const OFS_KFLGS: nat := 3
  const OFS_CIPHER: nat := 8
  const OFS_AUTH: nat := 9
  const OFS_SE: nat := 10
  const OFS_SLEN: nat := 14
  const OFS_KLEN: nat := 15
  const OFS_SALT: nat := 16
  const SALT_SZ: nat := 16
  const KEY_MAX_SZ: nat := 32
  const SIGN_SZ: nat := 8
  const PBKDF2_SALT_LEN: nat := 8

  const S_SARDY: nat := 2
  const S_KEYED: nat := 3
  const S_ACTIVE: nat := 4
  const S_DEPRECATED: nat := 5

  /** The foreign primitives: the block cipher for each key, and the key derivation from password and salt. */
  datatype Prims = Prims(aes: seq<Byte> -> Cipher, pbkdf2: (seq<Byte>, seq<Byte>, nat) -> seq<Byte>)

  ghost predicate Sound(p: Prims) {
    forall k :: Permutes(p.aes(k))
  }

  /** The key encrypting key: from the password, the last bytes of the salt and the key length. */
  function Kek(p: Prims, pwd: seq<Byte>, salt: seq<Byte>, len: nat): seq<Byte> {
    p.pbkdf2(pwd, if |salt| >= PBKDF2_SALT_LEN then salt[|salt| - PBKDF2_SALT_LEN..] else salt, len)
  }

  predicate LegalKeyLen(n: nat) {
    n == 16 || n == 24 || n == 32
  }

  predicate Mode(m: Byte) {
    m == CIPHER_CTR || m == CIPHER_GCM
  }

  // ------------------------------------------------------------------ assembling

  function LenByte(n: nat): Byte
    requires n <= 32
  {
    (n / 4) as Byte
  }

  function Header(kflgs: Byte, mode: Byte, slen: nat, klen: nat): (h: seq<Byte>)
    requires slen <= 32 && klen <= 32
    ensures |h| == OFS_SALT
  {
    [0x12, 0x20, 0x29, kflgs, 0, 0, 0, 0,
     mode, if mode == CIPHER_GCM then AUTH_GCM else AUTH_NONE, SE_TSSRT, 0, 0, 0, LenByte(slen), LenByte(klen)]
  }

  function KeyFlag(odd: bool): Byte {
    if odd then F_ODD else F_EVEN
  }

  /** The keys in the order they go into the message: the even one first if there are two. */
  function KeysOf(odd: bool, sek: seq<Byte>, alt: Option<seq<Byte>>): seq<Byte> {
    match alt
    case None => sek
    case Some(other) => if odd then other + sek else sek + other
  }

  /** Assembles the message of a context, with the other context's key if one is given. */
  function AsmKM(aes: Cipher, mode: Byte, odd: bool, salt: seq<Byte>, sek: seq<Byte>,
                 alt: Option<seq<Byte>>): Option<seq<Byte>>
    requires |salt| <= SALT_SZ && |sek| <= KEY_MAX_SZ
  {
    match Wrap(aes.enc, KeysOf(odd, sek, alt))
    case None => None
    case Some(wrapped) => Some(Header(if alt.None? then KeyFlag(odd) else F_BOTH, mode, |salt|, |sek|) + salt + wrapped)
  }

  // ------------------------------------------------------------------ the receiver's contexts

  datatype RxCtx = RxCtx(status: nat, salt: seq<Byte>, sek: seq<Byte>, km: seq<Byte>)

  /** c[0] is the even context, c[1] the odd one; cur is the context of the last data packet. */
  datatype Rx = Rx(c: seq<RxCtx>, cur: Option<nat>, kek: seq<Byte>)

  datatype RxCfg = RxCfg(pwd: seq<Byte>, mode: Byte, hasGcm: bool)

  predicate ValidRx(rx: Rx) {
    |rx.c| == 2 && (rx.cur.Some? ==> rx.cur.value < 2)
  }

  function InitRx(): Rx {
    Rx([RxCtx(S_SARDY, [], [], []), RxCtx(S_SARDY, [], [], [])], None, [])
  }

  predicate BothBits(flags: Byte) {
    flags & F_BOTH == F_BOTH
  }

  predicate OddBit(flags: Byte) {
    flags & F_ODD == F_ODD
  }

  /** A length byte counts units of four bytes. */
  function LenOf(b: Byte): nat {
    (b as nat) * 4
  }

  function SaltLen(msg: seq<Byte>): nat
    requires |msg| > OFS_SALT
  {
    LenOf(msg[OFS_SLEN])
  }

  function SekLen(msg: seq<Byte>): nat
    requires |msg| > OFS_SALT
  {
    LenOf(msg[OFS_KLEN])
  }

  predicate HasBoth(msg: seq<Byte>)
    requires |msg| > OFS_KFLGS
  {
    BothBits(msg[OFS_KFLGS])
  }

  /** The checks on length, cipher, authentication and encapsulation that come before any context is looked at. */
  predicate WellFormedKM(msg: seq<Byte>, hasGcm: bool) {
    && |msg| > OFS_SALT && SaltLen(msg) <= SALT_SZ && LegalKeyLen(SekLen(msg))
    && |msg| == OFS_SALT + SaltLen(msg) + (if HasBoth(msg) then 2 else 1) * SekLen(msg) + SIGN_SZ
    && (msg[OFS_CIPHER] == CIPHER_CTR || (msg[OFS_CIPHER] == CIPHER_GCM && hasGcm))
    && msg[OFS_AUTH] == (if msg[OFS_CIPHER] == CIPHER_GCM then AUTH_GCM else AUTH_NONE)
    && msg[OFS_SE] == SE_TSSRT
  }

  /** The context the message is checked against: the one not in use if both keys come, else the one its flags name. */
  function Primary(rx: Rx, msg: seq<Byte>): (i: nat)
    requires ValidRx(rx) && |msg| > OFS_KFLGS
    ensures i < 2
  {
    if HasBoth(msg) && rx.cur.Some? then 1 - rx.cur.value
    else if OddBit(msg[OFS_KFLGS]) then ODD
    else EVEN
  }

  function SaltOf(msg: seq<Byte>): seq<Byte>
    requires |msg| > OFS_SALT && |msg| >= OFS_SALT + SaltLen(msg)
  {
    msg[OFS_SALT..OFS_SALT + SaltLen(msg)]
  }

  function WrappedOf(msg: seq<Byte>): seq<Byte>
    requires |msg| > OFS_SALT && |msg| >= OFS_SALT + SaltLen(msg)
  {
    msg[OFS_SALT + SaltLen(msg)..]
  }

  /** The KEK is derived again if salt or key length differ from what the context has. */
  predicate Rederives(cfg: RxCfg, c: RxCtx, msg: seq<Byte>)
    requires WellFormedKM(msg, cfg.hasGcm)
  {
    cfg.pwd != [] && (c.salt != SaltOf(msg) || |c.sek| != SekLen(msg))
  }

  function KekFor(p: Prims, cfg: RxCfg, rx: Rx, msg: seq<Byte>): seq<Byte>
    requires ValidRx(rx) && WellFormedKM(msg, cfg.hasGcm)
  {
    if Rederives(cfg, rx.c[Primary(rx, msg)], msg) then Kek(p, cfg.pwd, SaltOf(msg), SekLen(msg)) else rx.kek
  }

  /** One context after a message was accepted. */
  function Keyed(seks: seq<Byte>, odd: bool, msg: seq<Byte>): RxCtx
    requires |msg| > OFS_SALT && |msg| >= OFS_SALT + SaltLen(msg)
    requires |seks| == (if HasBoth(msg) then 2 else 1) * SekLen(msg)
  {
    RxCtx(S_KEYED, SaltOf(msg), if HasBoth(msg) && odd then seks[SekLen(msg)..] else seks[..SekLen(msg)], msg)
  }

  /** The contexts after a message was accepted. */
  function Accept(rx: Rx, i: nat, seks: seq<Byte>, msg: seq<Byte>): Rx
    requires ValidRx(rx) && i < 2
    requires |msg| > OFS_SALT && |msg| >= OFS_SALT + SaltLen(msg)
    requires |seks| == (if HasBoth(msg) then 2 else 1) * SekLen(msg)
  {
    var c := rx.c[i := Keyed(seks, i == ODD, msg)];
    rx.(c := if HasBoth(msg) then c[1 - i := Keyed(seks, i != ODD, msg)] else c)
  }

  lemma {:induction false} UnwrapLength(dec: AesBlock -> AesBlock, msg: seq<Byte>)
    requires Unwrap(dec, msg).Some?
    ensures |Unwrap(dec, msg).value| == |msg| - SIGN_SZ
  {
  }

  /** The wrapped keys of a message that passed the checks have a length that is unwrapped as it should be. */
  lemma WrappedLength(msg: seq<Byte>, hasGcm: bool)
    requires WellFormedKM(msg, hasGcm)
    ensures GuardsPass(|WrappedOf(msg)|) && |WrappedOf(msg)| >= 24
  {
    hide BothBits, LenOf;
    GuardsIff(|WrappedOf(msg)|);
  }

  function ParseKM(p: Prims, cfg: RxCfg, rx: Rx, msg: seq<Byte>): (Rx, int)
    requires ValidRx(rx)
  {
    if !WellFormedKM(msg, cfg.hasGcm) then (rx, -1)
    else if msg[OFS_CIPHER] != cfg.mode then (rx, -3)
    else
      var i := Primary(rx, msg);
      var kek := KekFor(p, cfg, rx, msg);
      match Unwrap(p.aes(kek).dec, WrappedOf(msg))
      case None =>
        (if Rederives(cfg, rx.c[i], msg) then rx.(kek := Kek(p, cfg.pwd, rx.c[i].salt, |rx.c[i].sek|)) else rx, -2)
      case Some(seks) =>
        UnwrapLength(p.aes(kek).dec, WrappedOf(msg));
        (Accept(rx, i, seks, msg).(kek := kek), 0)
  }

  /** Version, packet type and signature of a Keying Material message. */
  predicate IsKeying(msg: seq<Byte>) {
    |msg| >= OFS_SALT && msg[0] == 0x12 && msg[1] == 0x20 && msg[2] == 0x29
  }

  predicate NoBits(flags: Byte) {
    flags & F_BOTH == 0
  }

  /** Which context a message is compared with: read like the key flags of a data header, out of the KEKI field. */
  function CheckIndex(msg: seq<Byte>): (i: nat)
    requires |msg| >= OFS_SALT
    ensures i < 2
  {
    if OddBit(msg[7] >> 3) then ODD else EVEN
  }

  /**
   * A message equal to the one already in force is not parsed again. What does not look like Keying Material is taken
   * for data, which is refused here, for want of a place to put it.
   */
  function Process(p: Prims, cfg: RxCfg, rx: Rx, msg: seq<Byte>): (Rx, int)
    requires ValidRx(rx)
  {
    if !IsKeying(msg) || msg[OFS_SE] != SE_TSSRT || NoBits(msg[OFS_KFLGS]) then (rx, -1)
    else
      var x := rx.c[CheckIndex(msg)];
      if x.status < S_KEYED || x.km != msg then ParseKM(p, cfg, rx, msg) else (rx, 0)
  }

  /** A data packet selects the context its flags name; without a key it is not decrypted. */
  function ReceiveData(rx: Rx, slot: nat): (Rx, Option<seq<Byte>>)
    requires ValidRx(rx) && slot < 2
  {
    (rx.(cur := Some(slot)), if rx.c[slot].status >= S_KEYED then Some(rx.c[slot].sek) else None)
  }

  // ------------------------------------------------------------------ the round trip

  /** What a transmitter may put into a message: legal lengths, and a mode this receiver shares. */
  predicate Sendable(cfg: RxCfg, salt: seq<Byte>, sek: seq<Byte>, alt: Option<seq<Byte>>) {
    && |salt| <= SALT_SZ && |salt| % 4 == 0 && LegalKeyLen(|sek|) && (alt.Some? ==> |alt.value| == |sek|)
    && Mode(cfg.mode) && (cfg.mode == CIPHER_GCM ==> cfg.hasGcm)
  }

  lemma LenByteBack(n: nat)
    requires n <= 32 && n % 4 == 0
    ensures LenOf(LenByte(n)) == n
  {
  }

  lemma FlagBits(odd: bool)
    ensures !BothBits(KeyFlag(odd)) && BothBits(F_BOTH) && OddBit(F_BOTH)
    ensures OddBit(KeyFlag(odd)) <==> odd
  {
  }

  /** A header in front of salt and wrapped keys is read back field by field. */
  lemma Layout(flags: Byte, cfg: RxCfg, salt: seq<Byte>, klen: nat, wrapped: seq<Byte>)
    requires |salt| <= SALT_SZ && |salt| % 4 == 0 && LegalKeyLen(klen) && wrapped != []
    ensures var m := Header(flags, cfg.mode, |salt|, klen) + salt + wrapped;
      && |m| > OFS_SALT && m[OFS_KFLGS] == flags && SaltLen(m) == |salt| && SekLen(m) == klen
      && SaltOf(m) == salt && WrappedOf(m) == wrapped
      && m[OFS_CIPHER] == cfg.mode && m[OFS_SE] == SE_TSSRT
      && m[OFS_AUTH] == if cfg.mode == CIPHER_GCM then AUTH_GCM else AUTH_NONE
  {
    LenByteBack(|salt|);
    LenByteBack(klen);
    hide LenByte, LenOf;
    var h := Header(flags, cfg.mode, |salt|, klen);
    var m := h + salt + wrapped;
    assert m[OFS_SLEN] == LenByte(|salt|) && m[OFS_KLEN] == LenByte(klen);
    assert m[OFS_SALT..OFS_SALT + |salt|] == salt && m[OFS_SALT + |salt|..] == wrapped;
  }

  lemma ZeroBits(odd: bool)
    ensures !OddBit(0 >> 3) && !NoBits(F_BOTH) && !NoBits(KeyFlag(odd))
  {
  }

  /** An assembled message passes the first checks and is compared with the even context. */
  lemma AsmKeying(aes: Cipher, mode: Byte, odd: bool, salt: seq<Byte>, sek: seq<Byte>, alt: Option<seq<Byte>>)
    requires |salt| <= SALT_SZ && |sek| <= KEY_MAX_SZ && AsmKM(aes, mode, odd, salt, sek, alt).Some?
    ensures var m := AsmKM(aes, mode, odd, salt, sek, alt).value;
      IsKeying(m) && m[OFS_SE] == SE_TSSRT && !NoBits(m[OFS_KFLGS]) && CheckIndex(m) == EVEN
  {
    ZeroBits(odd);
    hide OddBit, NoBits, Wrap, LenByte;
  }

  /** A message that was assembled is accepted in form and read back field by field. */
  lemma AsmFields(aes: Cipher, cfg: RxCfg, odd: bool, salt: seq<Byte>, sek: seq<Byte>, alt: Option<seq<Byte>>)
    requires Permutes(aes) && Sendable(cfg, salt, sek, alt)
    ensures AsmKM(aes, cfg.mode, odd, salt, sek, alt).Some?
    ensures var m := AsmKM(aes, cfg.mode, odd, salt, sek, alt).value;
      && WellFormedKM(m, cfg.hasGcm) && m[OFS_CIPHER] == cfg.mode && SaltOf(m) == salt && SekLen(m) == |sek|
      && (HasBoth(m) <==> alt.Some?) && (alt.None? ==> (OddBit(m[OFS_KFLGS]) <==> odd))
      && Some(WrappedOf(m)) == Wrap(aes.enc, KeysOf(odd, sek, alt))
  {
    hide Wrap, Unwrap, Permutes, LenByte, LenOf, BothBits, OddBit, Header;
    var keys := KeysOf(odd, sek, alt);
    assert |keys| == (if alt.Some? then 2 else 1) * |sek|;
    UnwrapsWrapped(aes, keys);
    FlagBits(odd);
    Layout(if alt.None? then KeyFlag(odd) else F_BOTH, cfg, salt, |sek|, Wrap(aes.enc, keys).value);
  }

  /** The message carries these keys: each context it names has the key of its own parity, the other is as before. */
  predicate Installed(before: Rx, after: Rx, odd: bool, salt: seq<Byte>, sek: seq<Byte>, alt: Option<seq<Byte>>,
                      msg: seq<Byte>)
    requires ValidRx(before) && ValidRx(after)
  {
    var i := if odd then ODD else EVEN;
    && after.c[i] == RxCtx(S_KEYED, salt, sek, msg)
    && after.c[1 - i] == (if alt.Some? then RxCtx(S_KEYED, salt, alt.value, msg) else before.c[1 - i])
    && after.cur == before.cur
  }

  /** What the receiver gets if it unwraps with a given KEK. */
  lemma UnwrapsTo(p: Prims, kek: seq<Byte>, used: seq<Byte>, keys: seq<Byte>)
    requires Sound(p) && |keys| % 8 == 0 && |keys| >= 8
    ensures Wrap(p.aes(kek).enc, keys).Some?
    ensures Unwrap(p.aes(used).dec, Wrap(p.aes(kek).enc, keys).value) == Some(keys) <==>
            Wrap(p.aes(used).enc, keys) == Wrap(p.aes(kek).enc, keys)
  {
    hide Wrap, Unwrap, Permutes;
    UnwrapsWrapped(p.aes(kek), keys);
    UnwrapsWrapped(p.aes(used), keys);
    if Unwrap(p.aes(used).dec, Wrap(p.aes(kek).enc, keys).value) == Some(keys) {
      OnlyWrappedUnwraps(p.aes(used), Wrap(p.aes(kek).enc, keys).value);
    }
  }

  lemma KeysSplit(odd: bool, sek: seq<Byte>, alt: Option<seq<Byte>>)
    requires alt.Some? ==> |alt.value| == |sek|
    ensures var keys := KeysOf(odd, sek, alt); var n := |sek|;
      && (alt.None? ==> keys[..n] == sek)
      && (alt.Some? ==> keys[..n] == (if odd then alt.value else sek) && keys[n..] == if odd then sek else alt.value)
  {
  }

  /**
   * Parsing what was assembled under the KEK of the shared password installs the even key in the even context and the
   * odd key in the odd one, for one key or two, from either parity and every key length, if and only if the KEK in
   * use wraps the keys to the same bytes. It is in use unless salt and key length are those the checked context has.
   */
  lemma RoundTrip(p: Prims, cfg: RxCfg, rx: Rx, odd: bool, salt: seq<Byte>, sek: seq<Byte>, alt: Option<seq<Byte>>)
    requires Sound(p) && ValidRx(rx) && Sendable(cfg, salt, sek, alt)
    ensures var kek, keys := Kek(p, cfg.pwd, salt, |sek|), KeysOf(odd, sek, alt);
      var sent := AsmKM(p.aes(kek), cfg.mode, odd, salt, sek, alt);
      && sent.Some? && WellFormedKM(sent.value, cfg.hasGcm)
      && (Rederives(cfg, rx.c[Primary(rx, sent.value)], sent.value) ==> KekFor(p, cfg, rx, sent.value) == kek)
      && var r := ParseKM(p, cfg, rx, sent.value);
      && ValidRx(r.0)
      && (r.1 == 0 && Installed(rx, r.0, odd, salt, sek, alt, sent.value) <==>
          Wrap(p.aes(KekFor(p, cfg, rx, sent.value)).enc, keys) == Wrap(p.aes(kek).enc, keys))
  {
    hide Wrap, Unwrap, Permutes, LenOf, BothBits, OddBit, Header, AsmKM, WellFormedKM;
    var kek, keys := Kek(p, cfg.pwd, salt, |sek|), KeysOf(odd, sek, alt);
    AsmFields(p.aes(kek), cfg, odd, salt, sek, alt);
    var msg := AsmKM(p.aes(kek), cfg.mode, odd, salt, sek, alt).value;
    UnwrapsTo(p, kek, KekFor(p, cfg, rx, msg), keys);
    ParsedIff(p, cfg, rx, odd, salt, sek, alt, msg);
  }

  /** Two keys side by side are told apart by their halves. */
  lemma SplitIff(seks: seq<Byte>, odd: bool, sek: seq<Byte>, alt: Option<seq<Byte>>)
    requires |seks| == |KeysOf(odd, sek, alt)| && (alt.Some? ==> |alt.value| == |sek|)
    ensures var n := |sek|;
      && (alt.None? ==> (seks == KeysOf(odd, sek, alt) <==> seks[..n] == sek))
      && (alt.Some? ==> (seks == KeysOf(odd, sek, alt) <==>
                         seks[..n] == (if odd then alt.value else sek) && seks[n..] == if odd then sek else alt.value))
  {
    KeysSplit(odd, sek, alt);
    var n := |sek|;
    assert seks == seks[..n] + seks[n..];
  }

  lemma ParsedIff(p: Prims, cfg: RxCfg, rx: Rx, odd: bool, salt: seq<Byte>, sek: seq<Byte>, alt: Option<seq<Byte>>,
                  msg: seq<Byte>)
    requires ValidRx(rx) && Sendable(cfg, salt, sek, alt) && WellFormedKM(msg, cfg.hasGcm)
    requires msg[OFS_CIPHER] == cfg.mode && SaltOf(msg) == salt && SekLen(msg) == |sek|
    requires (HasBoth(msg) <==> alt.Some?) && (alt.None? ==> (OddBit(msg[OFS_KFLGS]) <==> odd))
    ensures var r := ParseKM(p, cfg, rx, msg);
      && ValidRx(r.0)
      && (r.1 == 0 && Installed(rx, r.0, odd, salt, sek, alt, msg) <==>
          Unwrap(p.aes(KekFor(p, cfg, rx, msg)).dec, WrappedOf(msg)) == Some(KeysOf(odd, sek, alt)))
  {
    hide Unwrap, LenOf, BothBits, OddBit;
    KeysSplit(odd, sek, alt);
    var u := Unwrap(p.aes(KekFor(p, cfg, rx, msg)).dec, WrappedOf(msg));
    if u.Some? {
      UnwrapLength(p.aes(KekFor(p, cfg, rx, msg)).dec, WrappedOf(msg));
      SplitIff(u.value, odd, sek, alt);
    }
  }
}
