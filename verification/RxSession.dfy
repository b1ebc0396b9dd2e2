/** The receiving crypto session in place: its two contexts are checked against a message and overwritten by it. */
module RxSession {
  import opened Packets
  import opened KeyWrap
  import opened KmMessage

  class RxContext {
    const odd: bool
    var alt: RxContext?
    var status: nat
    var salt: seq<Byte>
    var sek: seq<Byte>
    var km: seq<Byte>

    constructor (odd: bool)
      ensures this.odd == odd && Value() == RxCtx(S_SARDY, [], [], [])
    {
      this.odd, alt := odd, null;
      status, salt, sek, km := S_SARDY, [], [], [];
    }

    /** A copy on which the message is tried. */
    constructor Copy(c: RxContext)
      ensures odd == c.odd && alt == c.alt && Value() == c.Value()
    {
      odd, alt := c.odd, c.alt;
      status, salt, sek, km := c.status, c.salt, c.sek, c.km;
    }

    /** The copy takes the place of the original. */
    method Assign(c: RxContext)
      requires c != this
      modifies this
      ensures alt == c.alt && Value() == c.Value()
    {
      alt, status, salt, sek, km := c.alt, c.status, c.salt, c.sek, c.km;
    }

    ghost function Value(): RxCtx
      reads this
    {
      RxCtx(status, salt, sek, km)
    }

    /** Puts the context's own key of an accepted message in force. */
    method Rekey(seks: seq<Byte>, sekLen: nat, both: bool, msg: seq<Byte>)
      requires |msg| > OFS_SALT && |msg| >= OFS_SALT + SaltLen(msg) && both == HasBoth(msg) && sekLen == SekLen(msg)
      requires |seks| == (if both then 2 else 1) * sekLen
      modifies `status, `salt, `sek, `km
      ensures Value() == Keyed(seks, odd, msg)
    {
      salt := SaltOf(msg);
      sek := if both && odd then seks[sekLen..] else seks[..sekLen];
      status := S_KEYED;
      km := msg;
    }
  }

  /** What the context had before does not matter to an accepted message. */
  lemma AcceptAnyway(rx: Rx, i: nat, c: RxCtx, seks: seq<Byte>, msg: seq<Byte>)
    requires ValidRx(rx) && i < 2
    requires |msg| > OFS_SALT && |msg| >= OFS_SALT + SaltLen(msg)
    requires |seks| == (if HasBoth(msg) then 2 else 1) * SekLen(msg)
    ensures Accept(rx.(c := rx.c[i := c]), i, seks, msg) == Accept(rx, i, seks, msg)
  {
    hide Keyed;
  }

  lemma AcceptKek(rx: Rx, i: nat, seks: seq<Byte>, msg: seq<Byte>, kek: seq<Byte>)
    requires ValidRx(rx) && i < 2
    requires |msg| > OFS_SALT && |msg| >= OFS_SALT + SaltLen(msg)
    requires |seks| == (if HasBoth(msg) then 2 else 1) * SekLen(msg)
    ensures Accept(rx.(kek := kek), i, seks, msg) == Accept(rx, i, seks, msg).(kek := kek)
  {
  }

  class Receiver {
    const even: RxContext
    const odd: RxContext
    var ctx: RxContext?
    var kek: seq<Byte>

    ghost predicate Valid()
      reads this, even, odd
    {
      && even != odd && !even.odd && odd.odd && even.alt == odd && odd.alt == even
      && (ctx == null || ctx == even || ctx == odd)
    }

    ghost function View(): (rx: Rx)
      reads this, even, odd
      ensures ValidRx(rx)
    {
      Rx([even.Value(), odd.Value()], if ctx == null then None else if ctx == even then Some(EVEN) else Some(ODD), kek)
    }

    constructor ()
      ensures Valid() && fresh(even) && fresh(odd) && View() == InitRx()
    {
      var e := new RxContext(false);
      var o := new RxContext(true);
      e.alt, o.alt := o, e;
      even, odd, ctx, kek := e, o, null, [];
    }

    method Parse(p: Prims, cfg: RxCfg, msg: seq<Byte>) returns (rc: int)
      requires Valid()
      modifies this`kek, even, odd
      ensures Valid() && (View(), rc) == ParseKM(p, cfg, old(View()), msg)
      ensures rc != 0 ==> unchanged(even) && unchanged(odd)
    {
      hide Unwrap, Kek, BothBits, OddBit, LenOf;
      if |msg| <= OFS_SALT {
        return -1;
      }
      var saltLen, sekLen := SaltLen(msg), SekLen(msg);
      if saltLen > SALT_SZ || sekLen > KEY_MAX_SZ {
        return -1;
      }
      if sekLen != 16 && sekLen != 24 && sekLen != 32 {
        return -1;
      }
      var both := HasBoth(msg);
      if |msg| != OFS_SALT + saltLen + (if both then 2 else 1) * sekLen + SIGN_SZ {
        return -1;
      }
      if msg[OFS_CIPHER] != CIPHER_CTR && msg[OFS_CIPHER] != CIPHER_GCM {
        return -1;
      }
      if msg[OFS_CIPHER] == CIPHER_GCM && !cfg.hasGcm {
        return -1;
      }
      if msg[OFS_CIPHER] == CIPHER_GCM && msg[OFS_AUTH] != AUTH_GCM {
        return -1;
      }
      if msg[OFS_CIPHER] == CIPHER_CTR && msg[OFS_AUTH] != AUTH_NONE {
        return -1;
      }
      if msg[OFS_SE] != SE_TSSRT {
        return -1;
      }
      rc := Install(p, cfg, msg, saltLen, sekLen, both);
    }

    /** Copies the context and gives the copy the salt of the message; tells whether salt or key length are new. */
    method TryOn(c: RxContext, msg: seq<Byte>, saltLen: nat, sekLen: nat) returns (n: RxContext, derive: bool)
      requires |msg| > OFS_SALT && |msg| >= OFS_SALT + SaltLen(msg) && saltLen == SaltLen(msg) && sekLen == SekLen(msg)
      ensures fresh(n) && n.odd == c.odd && n.alt == c.alt && n.salt == SaltOf(msg)
      ensures derive <==> c.salt != SaltOf(msg) || |c.sek| != sekLen
    {
      hide LenOf;
      n := new RxContext.Copy(c);
      derive := false;
      var salt := msg[OFS_SALT..OFS_SALT + saltLen];
      if n.salt != salt {
        n.salt := salt;
        derive := true;
      }
      if sekLen != |n.sek| {
        derive := true;
      }
    }

    /** The context that the message is checked against. */
    method Pick(msg: seq<Byte>, both: bool) returns (c: RxContext)
      requires Valid() && |msg| > OFS_SALT && both == HasBoth(msg)
      ensures c == if Primary(View(), msg) == ODD then odd else even
    {
      hide BothBits, OddBit;
      if both && ctx != null {
        c := ctx.alt;
      } else {
        c := if OddBit(msg[OFS_KFLGS]) then odd else even;
      }
    }

    /**
     * The part of ParseKM after the checks: picks the context, tries the message on a copy of it, finds the KEK and
     * unwraps. Only if that succeeds are the contexts touched.
     */
    method Install(p: Prims, cfg: RxCfg, msg: seq<Byte>, saltLen: nat, sekLen: nat, both: bool) returns (rc: int)
      requires Valid() && WellFormedKM(msg, cfg.hasGcm)
      requires saltLen == SaltLen(msg) && sekLen == SekLen(msg) && both == HasBoth(msg)
      modifies this`kek, even, odd
      ensures Valid() && (View(), rc) == ParseKM(p, cfg, old(View()), msg)
      ensures rc != 0 ==> unchanged(even) && unchanged(odd)
    {
      hide Unwrap, Kek, BothBits, OddBit, LenOf, Keyed, Accept;
      var c := Pick(msg, both);
      ghost var rx, i := View(), Primary(View(), msg);
      var n, derive := TryOn(c, msg, saltLen, sekLen);
      if msg[OFS_CIPHER] != cfg.mode {
        return -3;
      }
      var rollback := cfg.pwd != [] && derive;
      if rollback {
        kek := Kek(p, cfg.pwd, n.salt, sekLen);
        n.status := S_SARDY;
      }
      var keys := Unwrap(p.aes(kek).dec, msg[OFS_SALT + saltLen..]);
      if keys.None? {
        if rollback {
          kek := Kek(p, cfg.pwd, c.salt, |c.sek|);
        }
        return -2;
      }
      UnwrapLength(p.aes(kek).dec, msg[OFS_SALT + saltLen..]);
      AcceptKek(rx, i, keys.value, msg, kek);
      Commit(c, n, keys.value, sekLen, both, msg);
      rc := 0;
    }

    /** The copy replaces the context, and the keys of the message come into force. */
    method Commit(c: RxContext, n: RxContext, seks: seq<Byte>, sekLen: nat, both: bool, msg: seq<Byte>)
      requires Valid() && (c == even || c == odd) && n != even && n != odd && n.alt == c.alt
      requires |msg| > OFS_SALT && |msg| >= OFS_SALT + SaltLen(msg) && both == HasBoth(msg) && sekLen == SekLen(msg)
      requires |seks| == (if both then 2 else 1) * sekLen
      modifies even, odd
      ensures Valid() && View() == Accept(old(View()), if c == odd then ODD else EVEN, seks, msg)
    {
      hide BothBits, LenOf, Accept;
      ghost var rx, i := View(), if c == odd then ODD else EVEN;
      c.Assign(n);
      assert View() == rx.(c := rx.c[i := n.Value()]);
      AcceptAnyway(rx, i, n.Value(), seks, msg);
      Overwrite(c, seks, sekLen, both, msg);
    }

    method Overwrite(c: RxContext, seks: seq<Byte>, sekLen: nat, both: bool, msg: seq<Byte>)
      requires Valid() && (c == even || c == odd)
      requires |msg| > OFS_SALT && |msg| >= OFS_SALT + SaltLen(msg) && both == HasBoth(msg) && sekLen == SekLen(msg)
      requires |seks| == (if both then 2 else 1) * sekLen
      modifies even, odd
      ensures Valid() && View() == Accept(old(View()), if c == odd then ODD else EVEN, seks, msg)
    {
      hide BothBits, LenOf, Keyed;
      c.Rekey(seks, sekLen, both, msg);
      if both {
        c.alt.Rekey(seks, sekLen, both, msg);
      }
    }

    /** The caller has made sure that the message is longer than its header. */
    method ProcessKM(p: Prims, cfg: RxCfg, msg: seq<Byte>) returns (rc: int)
      requires Valid() && |msg| > OFS_SALT
      modifies this`kek, even, odd
      ensures Valid() && (View(), rc) == Process(p, cfg, old(View()), msg)
    {
      hide ParseKM, NoBits, OddBit;
      var keying := msg[0] == 0x12 && msg[1] == 0x20 && msg[2] == 0x29;
      if !keying {
        return -1;
      }
      if msg[OFS_SE] != SE_TSSRT || NoBits(msg[OFS_KFLGS]) {
        return -1;
      }
      var c := if CheckIndex(msg) == EVEN then even else odd;
      if c.status < S_KEYED || |msg| != |c.km| || c.km != msg {
        rc := Parse(p, cfg, msg);
      } else {
        rc := 0;
      }
    }

    /** Selects the context the packet's flags name; gives its key, if it has one. */
    method Data(slot: nat) returns (key: Option<seq<Byte>>)
      requires Valid() && slot < 2
      modifies this`ctx
      ensures Valid() && (View(), key) == ReceiveData(old(View()), slot)
    {
      ctx := if slot == EVEN then even else odd;
      key := if ctx.status >= S_KEYED then Some(ctx.sek) else None;
    }
  }
}
