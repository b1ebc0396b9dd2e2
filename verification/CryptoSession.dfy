/**
 * The crypto session in place: two contexts that point at each other, their fields changed step by step, and the
 * pointer to the one in use.
 */
module CryptoSession {
  import opened Packets
  import opened KeyWrap
  import opened KmMessage
  import opened TxRotation

  class Context {
    const odd: bool
    var alt: Context?
    var status: nat
    var announce: bool
    var ttsend: bool
    var salt: seq<Byte>
    var sek: seq<Byte>
    var pktCnt: nat
    var km: seq<Byte>

    constructor (odd: bool)
      ensures this.odd == odd && Value() == TxCtx(S_SARDY, false, false, [], [], 0, [])
    {
      this.odd, alt := odd, null;
      status, announce, ttsend, salt, sek, pktCnt, km := S_SARDY, false, false, [], [], 0, [];
    }

    ghost function Value(): TxCtx
      reads this
    {
      TxCtx(status, announce, ttsend, salt, sek, pktCnt, km)
    }
  }

  /** The two contexts are distinct, of either parity, and point at each other. */
  ghost predicate Twins(a: Context, b: Context)
    reads a, b
  {
    a != b && !a.odd && b.odd && a.alt == b && b.alt == a
  }

  class Transmitter {
    const even: Context
    const odd: Context
    var ctx: Context
    var kek: seq<Byte>

    ghost predicate Valid()
      reads this, even, odd
    {
      && Twins(even, odd) && (ctx == even || ctx == odd)
      && |even.salt| <= SALT_SZ && |even.sek| <= KEY_MAX_SZ && |odd.salt| <= SALT_SZ && |odd.sek| <= KEY_MAX_SZ
    }

    ghost function View(): (t: Tx)
      reads this, even, odd
      ensures Valid() ==> ValidTx(t)
    {
      Tx([even.Value(), odd.Value()], if ctx == even then EVEN else ODD, kek)
    }

    constructor (p: Prims, cfg: TxCfg, salt: seq<Byte>, sek: seq<Byte>)
      requires |salt| == SALT_SZ && |sek| == cfg.keyLen <= KEY_MAX_SZ
      ensures Valid() && fresh(even) && fresh(odd) && View() == Create(p, cfg, salt, sek)
    {
      hide Kek, AsmKM;
      var e := new Context(false);
      var o := new Context(true);
      e.alt, o.alt := o, e;
      even, odd, ctx := e, o, e;
      kek := Kek(p, cfg.pwd, salt, cfg.keyLen);
      new;
      even.salt, even.sek := salt, sek;
      var _ := AssembleKM(p, cfg, even, None);
      even.pktCnt := 1;
      even.announce, even.ttsend, even.status := true, true, S_ACTIVE;
    }

    /** Assembles the message of a context into its cache. */
    method AssembleKM(p: Prims, cfg: TxCfg, c: Context, other: Option<seq<Byte>>) returns (ok: bool)
      requires |c.salt| <= SALT_SZ && |c.sek| <= KEY_MAX_SZ
      modifies c`km
      ensures ok == AsmKM(p.aes(kek), cfg.mode, c.odd, c.salt, c.sek, other).Some?
      ensures c.km == Cached(p, cfg, kek, if c.odd then ODD else EVEN, c.salt, c.sek, other)
    {
      c.km := [];
      var m := AsmKM(p.aes(kek), cfg.mode, c.odd, c.salt, c.sek, other);
      ok := m.Some?;
      if ok {
        c.km := m.value;
      }
    }

    method RefreshKey(p: Prims, cfg: TxCfg, sek: seq<Byte>) returns (ok: bool)
      requires Valid() && |sek| <= KEY_MAX_SZ
      modifies even, odd
      ensures Valid() && View() == Refresh(p, cfg, old(View()), sek)
    {
      hide AsmKM;
      var c := ctx.alt;
      c.salt := ctx.salt;
      c.sek := sek;
      ok := AssembleKM(p, cfg, c, Some(ctx.sek));
      if ok {
        c.pktCnt := 0;
        c.status := S_KEYED;
      }
    }

    method PreSwitchKey()
      requires Valid()
      modifies even, odd
      ensures Valid() && View() == PreSwitch(old(View()))
    {
      ctx.alt.announce := true;
      ctx.alt.ttsend := true;
      if BothIn(ctx.alt.km) {
        ctx.announce := false;
      }
    }

    method SwitchKey()
      requires Valid()
      modifies this`ctx, even, odd
      ensures Valid() && View() == Switch(old(View()))
    {
      ctx.status := S_DEPRECATED;
      ctx.alt.status := S_ACTIVE;
      ctx.alt.announce := true;
      ctx := ctx.alt;
    }

    method PostSwitchKey(p: Prims, cfg: TxCfg)
      requires Valid()
      modifies even, odd
      ensures Valid() && View() == PostSwitch(p, cfg, old(View()))
    {
      hide AsmKM, Cached;
      var former := ctx.alt;
      former.announce := false;
      former.status := S_SARDY;
      if BothIn(ctx.km) {
        var _ := AssembleKM(p, cfg, ctx, None);
      }
    }

    /** Takes the one action the packet count calls for. */
    method Step(p: Prims, cfg: TxCfg, sek: seq<Byte>)
      requires Valid() && |sek| <= KEY_MAX_SZ
      modifies this`ctx, even, odd
      ensures Valid() && View() == Act(p, cfg, old(View()), sek)
    {
      hide Refresh, PreSwitch, Switch, PostSwitch;
      if ctx.pktCnt > cfg.refresh || ctx.pktCnt == 0 {
        SwitchKey();
      } else if ctx.pktCnt > cfg.refresh - cfg.pre && !ctx.alt.announce {
        var _ := RefreshKey(p, cfg, sek);
        PreSwitchKey();
      } else if ctx.alt.status == S_DEPRECATED && ctx.pktCnt > cfg.pre {
        PostSwitchKey(p, cfg);
      }
    }

    method MarkDue()
      requires Valid()
      modifies even`ttsend, odd`ttsend
      ensures Valid() && View() == Marked(old(View()))
    {
      if even.announce {
        even.ttsend := true;
      }
      if odd.announce {
        odd.ttsend := true;
      }
    }

    method Manage(p: Prims, cfg: TxCfg, sek: seq<Byte>, due: bool)
      requires Valid() && |sek| <= KEY_MAX_SZ
      modifies this`ctx, even, odd
      ensures Valid() && View() == ManageKM(p, cfg, old(View()), sek, due)
    {
      hide Act, Marked;
      Step(p, cfg, sek);
      if due {
        MarkDue();
      }
    }

    method Inject() returns (out: seq<seq<Byte>>)
      requires Valid()
      modifies even`ttsend, odd`ttsend
      ensures Valid() && out == Due(old(View())) && View() == Injected(old(View()))
    {
      out := [];
      if even.ttsend {
        out := out + [even.km];
        even.ttsend := false;
      }
      if odd.ttsend {
        out := out + [odd.km];
        odd.ttsend := false;
      }
    }

    method ManageKeys(p: Prims, cfg: TxCfg, sek: seq<Byte>, due: bool) returns (out: seq<seq<Byte>>)
      requires Valid() && |sek| <= KEY_MAX_SZ
      modifies this`ctx, even, odd
      ensures Valid() && View() == Injected(ManageKM(p, cfg, old(View()), sek, due))
      ensures out == Due(ManageKM(p, cfg, old(View()), sek, due))
    {
      hide ManageKM, Injected, Due;
      Manage(p, cfg, sek, due);
      out := Inject();
    }

    /** Counts a packet that was encrypted under the current key; gives the key and the slot. */
    method Count() returns (slot: nat, sek: seq<Byte>)
      requires Valid()
      modifies even`pktCnt, odd`pktCnt
      ensures Valid() && View() == CountPacket(old(View()))
      ensures slot == old(View()).cur && sek == old(View()).c[slot].sek
    {
      slot, sek := if ctx.odd then ODD else EVEN, ctx.sek;
      ctx.pktCnt := (ctx.pktCnt + 1) % UINT_MAX;
    }
  }
}
