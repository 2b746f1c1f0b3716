/** The key-exchange computations of dosshd/ssh.c: the exchange hash split across two messages, the mpint form
    of the shared secret, and key derivation. */
module SshKex {
  import opened Bytes
  import opened SshWire
  import Sha256

  const VERSION_STRING := Ascii("SSH-2.0-DOSSH_0.9")

  // ----- the exchange hash -----

  /** What is hashed at the client's KEXINIT. */
  function FirstHalf(vc: seq<byte>, ic: seq<byte>, iS: seq<byte>): seq<byte> {
    Str(vc) + Str(VERSION_STRING) + Str(ic) + Str(iS)
  }

  function ExchangeHash(transcript: seq<byte>, ks: seq<byte>, qc: seq<byte>, qs: seq<byte>,
      mpint: seq<byte>): (r: seq<byte>)
    ensures |r| == 32
  {
    Sha256.Digest(transcript + (Str(ks) + Str(qc) + Str(qs) + mpint))
  }

  /** hash_str: one length-prefixed string into the running hash. */
  method HashStr(ctx: Sha256.Context, s: seq<byte>)
    requires ctx.Valid()
    modifies ctx, ctx.data
    ensures ctx.Valid() && ctx.Message() == old(ctx.Message()) + Str(s)
  {
    hide *;
    assert ctx.datalen <= ctx.data.Length by { InBuffer(ctx); }
    ctx.Update(BeBytes(|s|));
    InBuffer(ctx);
    if |s| > 0 {
      ctx.Update(s);
    }
    InBuffer(ctx);
    assert Str(s) == BeBytes(|s|) + s by { StrIs(s); }
    assert ctx.Message() == old(ctx.Message()) + BeBytes(|s|) + s;
  }

  lemma InBuffer(ctx: Sha256.Context)
    requires ctx.Valid()
    ensures ctx.datalen <= ctx.data.Length
  {
  }

  lemma StrIs(s: seq<byte>)
    ensures Str(s) == BeBytes(|s|) + s
  {
  }

  /** handle_kexinit's half: V_C, V_S, I_C, I_S. */
  method HashFirstHalf(vc: seq<byte>, ic: seq<byte>, iS: seq<byte>) returns (ctx: Sha256.Context)
    ensures fresh(ctx) && fresh(ctx.data) && ctx.Valid() && ctx.Message() == FirstHalf(vc, ic, iS)
  {
    ctx := new Sha256.Context.Init();
    hide *;
    InBuffer(ctx);
    HashStr(ctx, vc);
    InBuffer(ctx);
    HashStr(ctx, VERSION_STRING);
    InBuffer(ctx);
    HashStr(ctx, ic);
    InBuffer(ctx);
    HashStr(ctx, iS);
    InBuffer(ctx);
    assert ctx.Message() == [] + Str(vc) + Str(VERSION_STRING) + Str(ic) + Str(iS);
    FirstHalfIs(vc, ic, iS);
  }

  lemma FirstHalfIs(vc: seq<byte>, ic: seq<byte>, iS: seq<byte>)
    ensures FirstHalf(vc, ic, iS) == Str(vc) + Str(VERSION_STRING) + Str(ic) + Str(iS)
  {
  }

  /** handle_ecdh_init's half: K_S, Q_C, Q_S, mpint(K), and the digest. Together the two halves are the one-shot
      hash of section 8 of RFC 4253. */
  method HashSecondHalf(ctx: Sha256.Context, ks: seq<byte>, qc: seq<byte>, qs: seq<byte>,
      mpint: seq<byte>) returns (hash: seq<byte>)
    requires ctx.Valid()
    modifies ctx, ctx.data
    ensures hash == ExchangeHash(old(ctx.Message()), ks, qc, qs, mpint)
  {
    hide *;
    InBuffer(ctx);
    ghost var m := ctx.Message();
    HashStr(ctx, ks);
    InBuffer(ctx);
    HashStr(ctx, qc);
    InBuffer(ctx);
    HashStr(ctx, qs);
    InBuffer(ctx);
    ctx.Update(mpint);
    InBuffer(ctx);
    assert ctx.Message() == m + (Str(ks) + Str(qc) + Str(qs) + mpint);
    hash := ctx.Final();
    ExchangeHashIs(m, ks, qc, qs, mpint);
  }

  lemma ExchangeHashIs(m: seq<byte>, ks: seq<byte>, qc: seq<byte>, qs: seq<byte>, mpint: seq<byte>)
    ensures ExchangeHash(m, ks, qc, qs, mpint) == Sha256.Digest(m + (Str(ks) + Str(qc) + Str(qs) + mpint))
  {
    hide Sha256.Digest;
  }

  /** The exchange hash computed across the two handlers is the hash of the whole transcript, in one shot. */
  method SplitExchangeHash(vc: seq<byte>, ic: seq<byte>, iS: seq<byte>, ks: seq<byte>, qc: seq<byte>, qs: seq<byte>,
      mpint: seq<byte>)
    returns (hash: seq<byte>)
    ensures hash == Sha256.Digest(Str(vc) + Str(VERSION_STRING) + Str(ic) + Str(iS) + Str(ks) + Str(qc) + Str(qs)
        + mpint)
  {
    hide *;
    var ctx := HashFirstHalf(vc, ic, iS);
    InBuffer(ctx);
    hash := HashSecondHalf(ctx, ks, qc, qs, mpint);
    FirstHalfIs(vc, ic, iS);
    ExchangeHashIs(FirstHalf(vc, ic, iS), ks, qc, qs, mpint);
    assert Str(vc) + Str(VERSION_STRING) + Str(ic) + Str(iS) + (Str(ks) + Str(qc) + Str(qs) + mpint)
        == Str(vc) + Str(VERSION_STRING) + Str(ic) + Str(iS) + Str(ks) + Str(qc) + Str(qs) + mpint;
  }

  // ----- mpint -----

  /** The value of a big-endian magnitude. */
  function Magnitude(s: seq<byte>): nat {
    if |s| == 0 then 0 else 256 * Magnitude(s[..|s| - 1]) + s[|s| - 1] as nat
  }

  lemma {:induction false} LeadingZero(s: seq<byte>)
    ensures Magnitude([0] + s) == Magnitude(s)
  {
    var z := [0] + s;
    if |s| == 0 {
      assert z[..0] == [];
    } else {
      LeadingZero(s[..|s| - 1]);
      assert z[..|z| - 1] == [0] + s[..|s| - 1];
    }
  }

  /** The mpint form of a big-endian magnitude (section 5 of RFC 4251). */
  function Mpint(v: seq<byte>): seq<byte> {
    if |v| == 0 then Str([])
    else if v[0] == 0 then Mpint(v[1..])
    else if v[0] >= 0x80 then Str([0] + v)
    else Str(v)
  }

  /** The encoding is canonical: the same value, never negative, and with no superfluous leading byte. */
  lemma {:induction false} MpintCanonical(v: seq<byte>) returns (m: seq<byte>)
    ensures Mpint(v) == Str(m) && Magnitude(m) == Magnitude(v) && |m| <= |v| + 1
    ensures |m| > 0 ==> m[0] < 0x80 && (m[0] == 0 ==> |m| > 1 && m[1] >= 0x80)
  {
    hide Str, Magnitude;
    if |v| == 0 {
      m := v;
    } else if v[0] == 0 {
      m := MpintCanonical(v[1..]);
      LeadingZero(v[1..]);
      assert v == [0] + v[1..];
    } else if v[0] >= 0x80 {
      m := [0] + v;
      LeadingZero(v);
    } else {
      m := v;
    }
  }

  /** build_kmpint. */
  method BuildKmpint(v: seq<byte>) returns (out: seq<byte>)
    ensures out == Mpint(v)
  {
    hide Str;
    var i := 0;
    assert v[0..] == v;
    while i < |v| && v[i] == 0
      invariant 0 <= i <= |v| && Mpint(v[i..]) == Mpint(v)
    {
      assert v[i..][1..] == v[i + 1..];
      i := i + 1;
    }
    if i == |v| {
      return Str([]);
    }
    assert v[i..][0] == v[i];
    var pad := if v[i] >= 0x80 then [0] else [];
    out := Str(pad + v[i..]);
    assert [] + v[i..] == v[i..];
  }

  // ----- keys -----

  /** K1 || K2 || ... of section 7.2 of RFC 4253, n blocks of it. */
  function KeyBlocks(k: seq<byte>, h: seq<byte>, letter: byte, session: seq<byte>, n: nat): (r: seq<byte>)
    ensures |r| == 32 * n
  {
    if n == 0 then []
    else if n == 1 then Sha256.Digest(k + h + [letter] + session)
    else
      var front := KeyBlocks(k, h, letter, session, n - 1);
      front + Sha256.Digest(k + h + front)
  }

  function DerivedKey(k: seq<byte>, h: seq<byte>, letter: byte, session: seq<byte>, outlen: nat): (r: seq<byte>)
    ensures |r| == outlen
  {
    KeyBlocks(k, h, letter, session, (outlen + 31) / 32)[..outlen]
  }

  lemma DerivedIs(k: seq<byte>, h: seq<byte>, letter: byte, session: seq<byte>, outlen: nat, n: nat)
    requires n == (outlen + 31) / 32
    ensures DerivedKey(k, h, letter, session, outlen) == KeyBlocks(k, h, letter, session, n)[..outlen]
  {
    hide KeyBlocks;
  }

  lemma KeyBlocksNext(k: seq<byte>, h: seq<byte>, letter: byte, session: seq<byte>, n: nat)
    requires n > 0
    ensures KeyBlocks(k, h, letter, session, n + 1) ==
            KeyBlocks(k, h, letter, session, n) + Sha256.Digest(k + h + KeyBlocks(k, h, letter, session, n))
    ensures KeyBlocks(k, h, letter, session, 1) == Sha256.Digest(k + h + [letter] + session)
  {
    hide Sha256.Digest;
  }

  /** derive_key. */
  method DeriveKey(k: seq<byte>, h: seq<byte>, letter: byte, session: seq<byte>, outlen: nat) returns (out: seq<byte>)
    requires outlen > 0
    ensures out == DerivedKey(k, h, letter, session, outlen)
  {
    hide KeyBlocks, Sha256.Digest, DerivedKey;
    KeyBlocksNext(k, h, letter, session, 1);
    var block := Sha256.Digest(k + h + [letter] + session);
    var take := if outlen < 32 then outlen else 32;
    out := block[..take];
    ghost var n := 1;
    while |out| < outlen
      invariant 0 < n && |out| <= outlen && 32 * (n - 1) < outlen
      invariant |out| == if outlen < 32 * n then outlen else 32 * n
      invariant out == KeyBlocks(k, h, letter, session, n)[..|out|]
      decreases outlen - |out|
    {
      ghost var front := KeyBlocks(k, h, letter, session, n);
      assert out == front;
      block := Sha256.Digest(k + h + out);
      take := if outlen - |out| < 32 then outlen - |out| else 32;
      KeyBlocksNext(k, h, letter, session, n);
      assert (front + block)[..|out| + take] == out + block[..take];
      out := out + block[..take];
      n := n + 1;
    }
    DerivedIs(k, h, letter, session, outlen, n);
  }
}
