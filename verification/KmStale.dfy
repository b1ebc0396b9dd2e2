/**
 * Where the Keying Material round trip fails: the session has one KEK but each context keeps its own salt, so a
 * context can remember a salt whose KEK has been replaced since.
 */
module KmStale {
  import opened Packets
  import opened KeyWrap
  import opened KmMessage

  // ------------------------------------------------------------------ failed messages

  /**
   * A message that is not accepted leaves both contexts alone. The KEK stays unless it was derived anew for the
   * message.
   */
  lemma RejectedKeeps(p: Prims, cfg: RxCfg, rx: Rx, msg: seq<Byte>)
    requires ValidRx(rx) && ParseKM(p, cfg, rx, msg).1 != 0
    ensures var r := ParseKM(p, cfg, rx, msg);
      && r.0.c == rx.c && r.0.cur == rx.cur
      && (r.0.kek == rx.kek <==>
          (r.1 == -2 && Rederives(cfg, rx.c[Primary(rx, msg)], msg) ==>
           Kek(p, cfg.pwd, rx.c[Primary(rx, msg)].salt, |rx.c[Primary(rx, msg)].sek|) == rx.kek))
  {
    hide Unwrap;
  }

  // ------------------------------------------------------------------ two toy ciphers

  function Plain(): Cipher {
    Cipher((b: AesBlock) => b, (b: AesBlock) => b)
  }

  /** Decrypting adds one to the first byte. */
  function Stepping(): Cipher {
    Cipher((b: AesBlock) => b[0 := b[0] - 1], (b: AesBlock) => b[0 := b[0] + 1])
  }

  function Toy(stale: seq<Byte>): Prims {
    Prims((k: seq<Byte>) => if k == stale then Stepping() else Plain(), (pwd: seq<Byte>, salt: seq<Byte>, n: nat) =>
      salt)
  }

  lemma ToySound(stale: seq<Byte>)
    ensures Sound(Toy(stale))
  {
    assert Permutes(Plain());
    SteppingPermutes();
  }

  lemma SteppingPermutes()
    ensures Permutes(Stepping())
  {
    forall b: AesBlock
      ensures Stepping().dec(Stepping().enc(b)) == b && Stepping().enc(Stepping().dec(b)) == b
    {
      var x := b[0 := b[0] - 1];
      assert x[0 := x[0] + 1] == b;
      var y := b[0 := b[0] + 1];
      assert y[0 := y[0] - 1] == b;
    }
  }

  lemma HeadStays(a: seq<Byte>, t: nat)
    requires |a| == 8 && t < UINT_MAX
    ensures Xor(a, Counter64(t))[0] == a[0]
  {
    CounterLow(t);
    MixTwice(a[0], 0);
    hide Mix, Xor, Counter64;
  }

  /** Under the plain cipher the first byte of the register never changes. */
  lemma {:induction false} PlainRow(w: Wrapping, n: nat, t: nat)
    requires |w.a| == 8 && 8 * n <= |w.r| && t + n <= UINT_MAX
    ensures WrapRow(Plain().enc, w, n, t).a[0] == w.a[0]
  {
    hide Xor, Counter64, Mix;
    if n > 0 {
      PlainRow(w, n - 1, t);
      var w1 := WrapRow(Plain().enc, w, n - 1, t);
      HeadStays(w1.a, t + n - 1);
      var b := w1.a + w1.r[8 * (n - 1)..8 * (n - 1) + 8];
      assert Plain().enc(b) == b && b[..8] == w1.a;
    }
  }

  /** Under the stepping cipher every undone step adds one to it. */
  lemma SteppingStep(w: Wrapping, o: nat, t: nat)
    requires |w.a| == 8 && o + 8 <= |w.r| && t < UINT_MAX
    ensures UnwrapStep(Stepping().dec, w, o, t).a[0] == w.a[0] + 1
  {
    HeadStays(w.a, t);
    hide Xor, Counter64, Mix;
  }

  lemma SteppingRow(w: Wrapping, t: nat)
    requires |w.a| == 8 && |w.r| == 16 && t + 1 < UINT_MAX
    ensures UnwrapRow(Stepping().dec, w, 2, t).a[0] == w.a[0] + 2
  {
    hide UnwrapStep;
    var w1 := UnwrapStep(Stepping().dec, w, 8, t + 1);
    SteppingStep(w, 8, t + 1);
    SteppingStep(w1, 0, t);
    assert UnwrapRow(Stepping().dec, w, 2, t) == UnwrapRow(Stepping().dec, w1, 1, t);
  }

  function Up(b: Byte, j: nat): Byte
    decreases j
  {
    if j == 0 then b else Up(b + 2, j - 1)
  }

  lemma {:induction false} SteppingRounds(w: Wrapping, j: nat)
    requires |w.a| == 8 && |w.r| == 16 && j <= ROUNDS
    ensures UnwrapRounds(Stepping().dec, w, j).a[0] == Up(w.a[0], j)
    decreases j
  {
    hide UnwrapRow;
    if j > 0 {
      var w1 := UnwrapRow(Stepping().dec, w, 2, CounterAt(j - 1, 2));
      SteppingRow(w, CounterAt(j - 1, 2));
      SteppingRounds(w1, j - 1);
    }
  }

  lemma {:induction false} PlainRounds(w: Wrapping, j: nat)
    requires |w.a| == 8 && |w.r| == 16 && j <= ROUNDS
    ensures WrapRounds(Plain().enc, w, j).a[0] == w.a[0]
  {
    hide WrapRow;
    if j > 0 {
      PlainRounds(w, j - 1);
      PlainRow(WrapRounds(Plain().enc, w, j - 1), 2, CounterAt(j - 1, 2));
    }
  }

  lemma SixTwos(b: Byte)
    ensures Up(b, ROUNDS) == b + 12
  {
    assert Up(b, 6) == Up(b + 2, 5) == Up(b + 4, 4) == Up(b + 6, 3) == Up(b + 8, 2) == Up(b + 10, 1) == Up(b + 12, 0);
  }

  lemma SteppingRejects(key: seq<Byte>)
    requires |key| == 16
    ensures Wrap(Plain().enc, key).Some? && Unwrap(Stepping().dec, Wrap(Plain().enc, key).value).None?
  {
    hide WrapRounds, UnwrapRounds;
    var w := WrapRounds(Plain().enc, Wrapping(IV, key), ROUNDS);
    var msg := w.a + w.r;
    assert msg[..8] == w.a && msg[8..] == w.r;
    PlainRounds(Wrapping(IV, key), ROUNDS);
    SteppingRounds(w, ROUNDS);
    SixTwos(w.a[0]);
  }

  // ------------------------------------------------------------------ the failing history

  function Single(p: Prims, cfg: RxCfg, odd: bool, salt: seq<Byte>, sek: seq<Byte>): Option<seq<Byte>>
    requires |salt| == 16 && |sek| == 16
  {
    AsmKM(p.aes(Kek(p, cfg.pwd, salt, 16)), cfg.mode, odd, salt, sek, None)
  }

  /** A message with a new salt is accepted, and its KEK becomes the session's. */
  lemma NewSalt(p: Prims, cfg: RxCfg, rx: Rx, odd: bool, salt: seq<Byte>, sek: seq<Byte>)
    requires Sound(p) && ValidRx(rx) && |salt| == 16 && |sek| == 16 && cfg.pwd != [] && cfg.mode == CIPHER_CTR
    requires rx.c[if odd then ODD else EVEN].salt != salt
    ensures var m := Single(p, cfg, odd, salt, sek);
      && m.Some?
      && var r := ParseKM(p, cfg, rx, m.value);
      && r.1 == 0 && ValidRx(r.0) && Installed(rx, r.0, odd, salt, sek, None, m.value)
      && r.0.kek == Kek(p, cfg.pwd, salt, 16)
  {
    RoundTrip(p, cfg, rx, odd, salt, sek, None);
    AsmFields(p.aes(Kek(p, cfg.pwd, salt, 16)), cfg, odd, salt, sek, None);
    hide Wrap, Unwrap, Permutes, LenOf, BothBits, OddBit, Header, AsmKM, WellFormedKM, Kek;
  }

  /**
   * The even context is keyed, then the odd one under another salt, and then a new even key comes under the first
   * salt: the receiver does not derive that KEK again and turns the message away, though all three were made with its
   * password.
   */
  lemma StaleKek(cfg: RxCfg, salt1: seq<Byte>, salt2: seq<Byte>, k1: seq<Byte>, k2: seq<Byte>, k3: seq<Byte>)
    requires cfg.pwd != [] && cfg.mode == CIPHER_CTR && |salt1| == |salt2| == |k1| == |k2| == |k3| == 16
    requires salt1[8..] != salt2[8..]
    ensures var p := Toy(salt2[8..]);
      var e1, o, e2 := Single(p, cfg, false, salt1, k1), Single(p, cfg, true, salt2, k2),
        Single(p, cfg, false, salt1, k3);
      && Sound(p) && e1.Some? && o.Some? && e2.Some?
      && var r1 := ParseKM(p, cfg, InitRx(), e1.value);
      && r1.1 == 0 && ValidRx(r1.0)
      && var r2 := ParseKM(p, cfg, r1.0, o.value);
      && r2.1 == 0 && ValidRx(r2.0) && ParseKM(p, cfg, r2.0, e2.value).1 == -2
  {
    hide Sound, Toy, ParseKM, Single, Kek;
    var p := Toy(salt2[8..]);
    ToySound(salt2[8..]);
    ToyKek(salt2[8..], cfg.pwd, salt2);
    var e1, o, e2 := Single(p, cfg, false, salt1, k1), Single(p, cfg, true, salt2, k2),
      Single(p, cfg, false, salt1, k3);
    NewSalt(p, cfg, InitRx(), false, salt1, k1);
    var r1 := ParseKM(p, cfg, InitRx(), e1.value).0;
    NewSalt(p, cfg, r1, true, salt2, k2);
    var rx := ParseKM(p, cfg, r1, o.value).0;
    StaleParse(p, cfg, rx, salt1, salt2, k3);
  }

  lemma ToyKek(stale: seq<Byte>, pwd: seq<Byte>, salt: seq<Byte>)
    requires |salt| == 16
    ensures Kek(Toy(stale), pwd, salt, 16) == salt[8..]
  {
  }

  lemma StaleParse(p: Prims, cfg: RxCfg, rx: Rx, salt1: seq<Byte>, salt2: seq<Byte>, k: seq<Byte>)
    requires |salt1| == |salt2| == |k| == 16 && salt1[8..] != salt2[8..] && p == Toy(salt2[8..]) && Sound(p)
    requires cfg.mode == CIPHER_CTR
    requires ValidRx(rx) && rx.kek == salt2[8..] && rx.c[EVEN].salt == salt1 && |rx.c[EVEN].sek| == 16
    ensures Single(p, cfg, false, salt1, k).Some? && ParseKM(p, cfg, rx, Single(p, cfg, false, salt1, k).value).1 == -2
  {
    AsmFields(p.aes(Kek(p, cfg.pwd, salt1, 16)), cfg, false, salt1, k, None);
    hide Wrap, Unwrap, Permutes, LenOf, BothBits, OddBit, Header, AsmKM, WellFormedKM;
    assert Kek(p, cfg.pwd, salt1, 16) == salt1[8..];
    assert p.aes(salt1[8..]) == Plain() && p.aes(rx.kek) == Stepping();
    SteppingRejects(k);
  }
}
