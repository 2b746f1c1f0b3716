/** The key exchange seen from the other side (dosshd/ssh.c, RFC 4253): a client that knows only its own messages reads
    the server's bytes in the clear, checks the signature and derives the keys. */
module SshExchange {
  import opened Bytes
  import opened SshWire
  import opened SshRecord
  import opened SshKex
  import opened SshServer
  import opened SshAuth
  import opened SshRuns
  import opened SshSafety
  import opened SshClient
  import opened SshInput
  import opened SshCredit
  import Sha256

  // ----- a client reading in the clear -----

  /** The packets up to and including NEWKEYS, and what follows them. */
  datatype Clear = Clear(payloads: seq<seq<byte>>, rest: seq<byte>)

  function ClearReads(stream: seq<byte>): Clear
    decreases |stream|
  {
    match OpenPlain(stream)
    case Packet(pl, size) =>
      if pl == [MSG_NEWKEYS] then Clear([pl], stream[size..])
      else
        var r := ClearReads(stream[size..]);
        Clear([pl] + r.payloads, r.rest)
    case _ => Clear([], stream)
  }

  /** The first message of a kind. */
  function Find(payloads: seq<seq<byte>>, msg: byte): seq<byte> {
    if |payloads| == 0 then []
    else if payloads[0] != [] && payloads[0][0] == msg then payloads[0]
    else Find(payloads[1..], msg)
  }

  /** What the client has heard: the server's identification, its KEXINIT, the three fields of its KEX_ECDH_REPLY, how
      many packets came in the clear, and the bytes after NEWKEYS. */
  datatype Heard = Nothing |
    Heard(version: seq<byte>, kexinit: seq<byte>, hostKey: seq<byte>, qs: seq<byte>, sig: seq<byte>, count: nat,
          rest: seq<byte>)

  function Listen(stream: seq<byte>): Heard {
    var i := LineEnd(stream);
    if i == |stream| then Nothing else Taken(TrimCr(stream[..i]), ClearReads(stream[i + 1..]))
  }

  function Taken(version: seq<byte>, c: Clear): Heard {
    var reply := Find(c.payloads, MSG_KEX_ECDH_REPLY);
    var ks := RdString(reply, 1);
    if c.payloads == [] || c.payloads[|c.payloads| - 1] != [MSG_NEWKEYS] || ks.Overrun? then Nothing
    else
      var qs := RdString(reply, ks.next);
      if qs.Overrun? then Nothing
      else
        var sig := RdString(reply, qs.next);
        if sig.Overrun? then Nothing
        else Heard(version, Find(c.payloads, MSG_KEXINIT), ks.value, qs.value, sig.value, |c.payloads|, c.rest)
  }

  /** The exchange hash (section 8 of RFC 4253), in one shot over what the client has said, heard and computed. */
  function ClientHash(vc: seq<byte>, ic: seq<byte>, qc: seq<byte>, m: Heard, secret: seq<byte>): (r: seq<byte>)
    requires m.Heard?
    ensures |r| == 32
  {
    Sha256.Digest(Str(vc) + Str(m.version) + Str(ic) + Str(m.kexinit) + Str(m.hostKey) + Str(qc) + Str(m.qs)
        + Mpint(secret))
  }

  /** A 64-byte key (section 7.2 of RFC 4253); of a first exchange the hash is the session identifier. */
  function ClientKey(secret: seq<byte>, hash: seq<byte>, letter: byte): seq<byte> {
    var k1 := Sha256.Digest(Mpint(secret) + hash + [letter] + hash);
    k1 + Sha256.Digest(Mpint(secret) + hash + k1)
  }

  // ----- reading on -----

  lemma ClearUnfold(stream: seq<byte>)
    requires OpenPlain(stream).Packet?
    ensures var o := OpenPlain(stream);
            var r := ClearReads(stream[o.size..]);
            ClearReads(stream) == if o.payload == [MSG_NEWKEYS] then Clear([o.payload], stream[o.size..])
                                  else Clear([o.payload] + r.payloads, r.rest)
  {
    hide OpenPlain;
  }

  lemma ClearNothing()
    ensures ClearReads([]) == Clear([], [])
  {
  }

  /** Reading on from the end of a packet. */
  lemma {:induction false} ClearConcat(a: seq<byte>, b: seq<byte>)
    requires ClearReads(a).rest == [] && [MSG_NEWKEYS] !in ClearReads(a).payloads
    ensures ClearReads(a + b) == Clear(ClearReads(a).payloads + ClearReads(b).payloads, ClearReads(b).rest)
    decreases |a|
  {
    hide OpenPlain;
    var o := OpenPlain(a);
    if o.Packet? {
      ClearUnfold(a);
      OpenPlainStable(a, b);
      ClearUnfold(a + b);
      assert (a + b)[o.size..] == a[o.size..] + b;
      assert ClearReads(a).payloads[0] == o.payload;
      var r := ClearReads(a[o.size..]);
      assert forall p :: p in r.payloads ==> p in ClearReads(a).payloads;
      ClearConcat(a[o.size..], b);
    } else {
      assert a == [];
      assert a + b == b;
    }
  }

  /** What follows NEWKEYS is not read in the clear. */
  lemma {:induction false} ClearStops(a: seq<byte>, b: seq<byte>)
    requires [MSG_NEWKEYS] in ClearReads(a).payloads
    ensures ClearReads(a + b) == Clear(ClearReads(a).payloads, ClearReads(a).rest + b)
    decreases |a|
  {
    hide OpenPlain;
    var o := OpenPlain(a);
    if o.Packet? {
      ClearUnfold(a);
      OpenPlainStable(a, b);
      ClearUnfold(a + b);
      assert (a + b)[o.size..] == a[o.size..] + b;
      if o.payload != [MSG_NEWKEYS] {
        ClearStops(a[o.size..], b);
      }
    }
  }

  lemma PlainReads(payload: seq<byte>, pad: seq<byte>)
    requires |pad| == PlainPadLen(|payload|) && |payload| <= 256
    ensures ClearReads(Framed(payload, pad)) == Clear([payload], [])
  {
    hide OpenPlain;
    var wire := Framed(payload, pad);
    PlainRoundTrip(payload, pad, []);
    assert wire + [] == wire;
    ClearUnfold(wire);
    assert wire[|wire|..] == [];
    ClearNothing();
  }

  lemma {:induction false} FindLater(payloads: seq<seq<byte>>, more: seq<seq<byte>>, msg: byte)
    ensures Find(payloads, msg) != [] ==> Find(payloads + more, msg) == Find(payloads, msg)
    ensures Find(payloads, msg) == [] ==> Find(payloads + more, msg) == Find(more, msg)
  {
    if |payloads| == 0 {
      assert payloads + more == more;
    } else {
      FindLater(payloads[1..], more, msg);
      assert (payloads + more)[1..] == payloads[1..] + more;
    }
  }

  // ----- the server before the keys -----

  const GREETING := VERSION_STRING + [0x0d, 0x0a]

  /** So far a client reads the identification, the KEXINIT, and perhaps refusals of global requests. */
  ghost predicate Begun(bytes: seq<byte>, iS: seq<byte>, packets: nat) {
    && GREETING <= bytes
    && var c := ClearReads(bytes[|GREETING|..]);
       && c.rest == [] && |c.payloads| == packets && packets > 0
       && c.payloads[0] == iS && iS != [] && iS[0] == MSG_KEXINIT
       && forall i :: 1 <= i < packets ==> c.payloads[i] == [MSG_REQUEST_FAILURE]
  }

  /** A packet in the clear is the next thing a client reads. */
  lemma SentInClear(h: Host, w: World, payload: seq<byte>)
    requires w.Shaped() && !w.k.sendEnc && (w.phase == Error ==> w.err) && |payload| <= 256
    ensures var r, pad := Send(h, w, payload), h.Random(w.io.drawn, PlainPadLen(|payload|));
            r.err || Said(r) == Said(w) + Framed(payload, pad)
    ensures Send(h, w, payload).io.packets == w.io.packets + 1 && Send(h, w, payload).io.log == w.io.log
    ensures |w.io.ob| + |payload| + 16 <= SSH_OB_SZ ==> Send(h, w, payload).err == w.err
  {
    hide BeBytes, Append, OnlySends;
    var n := PlainPadLen(|payload|);
    var pad := h.Random(w.io.drawn, n);
    var head := BeBytes(1 + |payload| + n) + [n as byte];
    AppendThree(w, head, payload, pad);
    assert Said(w) + head + payload + pad == Said(w) + Framed(payload, pad);
  }

  lemma AppendThree(w: World, a: seq<byte>, b: seq<byte>, c: seq<byte>)
    requires w.phase == Error ==> w.err
    ensures var r := Append(Append(Append(w, a), b), c);
            && (r.err || Said(r) == Said(w) + a + b + c) && r.io.log == w.io.log && r.io.packets == w.io.packets
            && (|w.io.ob| + |a| + |b| + |c| <= SSH_OB_SZ ==> r.err == w.err)
  {
    hide Append, OnlySends;
    AppendSays(w, a);
    AppendSays(Append(w, a), b);
    AppendSays(Append(Append(w, a), b), c);
  }

  lemma AppendSays(w: World, d: seq<byte>)
    requires w.phase == Error ==> w.err
    ensures var r := Append(w, d);
            && (r.err || Said(r) == Said(w) + d) && (w.err ==> r.err) && (r.phase == Error ==> r.err) && r.k == w.k
            && r.io.log == w.io.log && r.io.packets == w.io.packets
            && (|w.io.ob| + |d| <= SSH_OB_SZ ==> r.err == w.err && |r.io.ob| == |w.io.ob| + |d|)
  {
    assert w.io.sent + (w.io.ob + d) == Said(w) + d;
  }

  lemma BegunMore(bytes: seq<byte>, iS: seq<byte>, packets: nat, pad: seq<byte>)
    requires Begun(bytes, iS, packets) && |pad| == PlainPadLen(1)
    ensures Begun(bytes + Framed([MSG_REQUEST_FAILURE], pad), iS, packets + 1)
  {
    hide ClearReads, PlainPadLen, Framed, Ascii;
    var p := Framed([MSG_REQUEST_FAILURE], pad);
    PlainReads([MSG_REQUEST_FAILURE], pad);
    NotNewkeys(bytes, iS, packets);
    ClearConcat(bytes[|GREETING|..], p);
    assert (bytes + p)[|GREETING|..] == bytes[|GREETING|..] + p;
  }

  lemma NotNewkeys(bytes: seq<byte>, iS: seq<byte>, packets: nat)
    requires Begun(bytes, iS, packets)
    ensures [MSG_NEWKEYS] !in ClearReads(bytes[|GREETING|..]).payloads
  {
    hide ClearReads;
    var c := ClearReads(bytes[|GREETING|..]);
    forall i | 0 <= i < |c.payloads|
      ensures c.payloads[i] != [MSG_NEWKEYS]
    {
      assert i > 0 ==> c.payloads[i] == [MSG_REQUEST_FAILURE];
      assert c.payloads[i][0] != MSG_NEWKEYS;
    }
  }

  lemma ResetBegun(h: Host, drawn: nat)
    ensures var w := Reset(h, drawn);
            !w.err && Begun(Said(w), w.x.iS, w.io.packets) && w.x.transcript == [] && !w.k.sendEnc
  {
    hide ClearReads, OurKexinit, SendUnenc, Ascii;
    KexinitLength(h.Random(drawn, 16));
    KexinitKind(h.Random(drawn, 16));
    var iS := OurKexinit(h.Random(drawn, 16));
    var zero := seq(64, _ => 0 as byte);
    var w0 := World(Version, false, Exchange([], iS, [], false, [], false),
        Keys(seq(32, _ => 0), false, zero, zero, false, false, false), 0, 0,
                   Gate(false, 0, []),
                   Channel(false, 0, 0, 0, 0, false, false, 0, 0, false, false, false, false, 0, [], 0, 0),
                   Io([], [], [], drawn + 16, [], 0, [], 0));
    var w1 := Append(w0, GREETING);
    assert Said(w1) == GREETING;
    var pad := h.Random(w1.io.drawn, PlainPadLen(|iS|));
    SentInClear(h, w1, iS);
    PlainReads(iS, pad);
    assert Send(h, w1, iS) == SendUnenc(h, w1, iS) == Reset(h, drawn);
    assert Said(SendUnenc(h, w1, iS))[|GREETING|..] == Framed(iS, pad);
  }

  lemma KexinitKind(cookie: seq<byte>)
    ensures OurKexinit(cookie) != [] && OurKexinit(cookie)[0] == MSG_KEXINIT
  {
    hide Ascii, Str;
  }

  /** Before the keys, with nothing failed, at every moment: what the handlers do to the exchange. */
  ghost predicate Early(w: World) {
    && Inv(w) && !w.k.ready && !w.k.sendEnc && !w.ch.isOpen && !w.err
    && Begun(Said(w), w.x.iS, w.io.packets)
  }

  /** A step that leaves the exchange as it was. */
  ghost predicate SameExchange(w: World, r: World) {
    r.x.cliVer == w.x.cliVer && r.x.iS == w.x.iS && r.x.transcript == w.x.transcript
  }

  /** The step takes the client's KEXINIT. */
  ghost predicate TakesOffer(w: World, e: Event, r: World) {
    && e.Arrive? && w.phase == ExpectKexinit && Negotiate(e.payload).Agreed? && r.phase == ExpectEcdhInit
    && r.x.cliVer == w.x.cliVer && r.x.iS == w.x.iS
    && r.x.transcript == FirstHalf(w.x.cliVer, e.payload, w.x.iS)
  }

  lemma EarlyPacket(h: Host, w: World, pl: seq<byte>)
    requires Early(w) && Dispatching(w.phase)
    ensures var r := HandlePacket(h, w, pl);
            !r.err && !r.k.ready ==>
              && Begun(Said(r), r.x.iS, r.io.packets) && r.phase != Version && !r.k.sendEnc && !r.ch.isOpen
              && (TakesOffer(w, Arrive(pl), r)
                  || (SameExchange(w, r) && (r.phase == ExpectEcdhInit ==> w.phase == ExpectEcdhInit)))
  {
    hide Begun, SealInv, GateInv, Negotiate, FirstHalf, Send, SwitchKeys, Mpint, ExchangeHash, KexReply, KsBlob,
         BeValue, SharedSecret, AllZero, HandleEcdhInit, HandleGlobalRequest, HandleKexinit;
    BeforeKeys(w);
    EarlyGlobal(h, w, pl);
    if w.phase == ExpectEcdhInit {
      EarlyEcdh(h, w, pl);
    } else {
      EarlyKexinit(w, pl);
    }
  }

  lemma EarlyKexinit(w: World, pl: seq<byte>)
    requires w.phase == ExpectKexinit && !w.err
    ensures var r := HandleKexinit(w, pl);
            !r.err ==> TakesOffer(w, Arrive(pl), r) && r.io == w.io && r.k == w.k && r.ch == w.ch
  {
    hide Negotiate, FirstHalf;
  }

  lemma EarlyGlobal(h: Host, w: World, pl: seq<byte>)
    requires Early(w) && Dispatching(w.phase)
    ensures var r := HandleGlobalRequest(h, w, pl);
            !r.err ==>
              && Begun(Said(r), r.x.iS, r.io.packets) && SameExchange(w, r) && r.phase == w.phase
              && r.k == w.k && r.ch == w.ch
  {
    hide Begun, SealInv, GateInv, Send, BeValue, Framed;
    BeforeKeys(w);
    SentInClear(h, w, [MSG_REQUEST_FAILURE]);
    BegunMore(Said(w), w.x.iS, w.io.packets, h.Random(w.io.drawn, PlainPadLen(1)));
    var s := Send(h, w, [MSG_REQUEST_FAILURE]);
    assert s.x == w.x && (s.phase == w.phase || s.phase == Error);
    SendFails(h, w, [MSG_REQUEST_FAILURE]);
  }

  lemma SendFails(h: Host, w: World, payload: seq<byte>)
    requires w.Shaped() && w.phase != Error
    ensures Send(h, w, payload).phase == Error ==> Send(h, w, payload).err
  {
    hide Send;
  }

  lemma BeforeKeys(w: World)
    requires Inv(w) && !w.k.ready && !w.err && Dispatching(w.phase)
    ensures w.Shaped() && !w.k.sendEnc && (w.phase == ExpectKexinit || w.phase == ExpectEcdhInit)
  {
    hide SealInv, GateInv;
  }

  lemma EarlyEcdh(h: Host, w: World, pl: seq<byte>)
    requires Early(w) && w.phase == ExpectEcdhInit
    ensures var r := HandleEcdhInit(h, w, pl);
            !r.err && !r.k.ready ==>
              && Said(r) == Said(w) && r.io.packets == w.io.packets && SameExchange(w, r) && r.phase == w.phase
              && r.k == w.k && r.ch == w.ch
  {
    hide Begun, SealInv, GateInv, SwitchKeys, Mpint, ExchangeHash, KexReply, KsBlob, BeValue, SharedSecret, AllZero;
    BeforeKeys(w);
    SwitchReady(h);
  }

  lemma SwitchReady(h: Host)
    ensures forall w: World, reply, mpint, hash :: w.Shaped() && |hash| == 32 ==>
              SwitchKeys(h, w, reply, mpint, hash).k.ready
  {
    hide Send;
  }

  // ----- the exchange itself -----

  /** A client's KEX_ECDH_INIT with its key (section 4 of RFC 5656). */
  predicate Offers(pl: seq<byte>, qc: seq<byte>) {
    |qc| == 32 && RdString(pl, 1) == Got(qc, 37)
  }

  /** The tape is read byte after byte: drawing twice gives what drawing once would have given. */
  lemma DrawnInTurn(h: Host, at: nat, m: nat, n: nat)
    ensures h.Random(at, m + n) == h.Random(at, m) + h.Random(at + m, n) && h.Random(at, 1) == [h.rng(at)]
  {
  }

  function PublicKey(h: Host, sk: seq<byte>): (r: seq<byte>)
    ensures |r| == 32
  {
    seq(32, i requires 0 <= i => h.x25519Public(sk, i))
  }

  function Signature(h: Host, hash: seq<byte>): (r: seq<byte>)
    ensures |r| == 64
  {
    seq(64, i requires 0 <= i => h.sign(h.hostSk, hash, i))
  }

  /** The packet that makes the keys holds the client's key, and the answer is made of that key, a secret key drawn now
      and what has been absorbed so far. */
  lemma Exchanges(h: Host, w: World, pl: seq<byte>) returns (qc: seq<byte>, sk: seq<byte>)
    requires w.Shaped() && !w.k.ready && HandleEcdhInit(h, w, pl).k.ready
    ensures Offers(pl, qc) && sk == h.Random(w.io.drawn, 32) && !AllZero(SharedSecret(h, sk, qc))
    ensures var hash := ExchangeHash(w.x.transcript, KsBlob(h), qc, PublicKey(h, sk), Mpint(SharedSecret(h, sk, qc)));
            HandleEcdhInit(h, w, pl) == SwitchKeys(h, w.(io := w.io.(drawn := w.io.drawn + 32)),
                KexReply(h, PublicKey(h, sk), hash), Mpint(SharedSecret(h, sk, qc)), hash)
  {
    hide SwitchKeys, Mpint, ExchangeHash, KexReply, KsBlob, BeValue, SharedSecret, AllZero;
    qc := pl[5..37];
    sk := h.Random(w.io.drawn, 32);
  }

  /** A secret is degenerate exactly when it is the number zero. */
  lemma {:induction false} ZeroIff(s: seq<byte>)
    ensures AllZero(s) <==> Magnitude(s) == 0
  {
    if |s| > 0 {
      var front := s[..|s| - 1];
      ZeroIff(front);
      assert s == front + [s[|s| - 1]];
      if AllZero(front) && s[|s| - 1] == 0 {
        forall i | 0 <= i < |s|
          ensures s[i] == 0
        {
          assert i < |front| ==> s[i] == front[i];
        }
      }
      if AllZero(s) {
        assert forall i :: 0 <= i < |front| ==> front[i] == s[i];
      }
    }
  }

  /** A KEX_ECDH_INIT makes keys if and only if it holds a key of 32 bytes that does not lead to the secret zero. */
  lemma ExchangesIff(h: Host, w: World, pl: seq<byte>)
    requires w.Shaped() && !w.k.ready && !w.x.discardNext
    ensures var qc, sk := RdString(pl, 1), h.Random(w.io.drawn, 32);
            HandleEcdhInit(h, w, pl).k.ready <==>
              qc.Got? && |qc.value| == 32 && Magnitude(SharedSecret(h, sk, qc.value)) > 0
  {
    hide SwitchKeys, Mpint, ExchangeHash, KexReply, KsBlob, BeValue, SharedSecret, AllZero, Magnitude;
    SwitchReady(h);
    if |pl| >= 37 {
      ZeroIff(SharedSecret(h, h.Random(w.io.drawn, 32), pl[5..37]));
    }
  }

  /** The answer and NEWKEYS are said in the clear; then come the keys. */
  lemma SwitchSays(h: Host, w: World, reply: seq<byte>, mpint: seq<byte>, hash: seq<byte>)
    returns (p: seq<byte>, q: seq<byte>)
    requires w.Shaped() && !w.k.sendEnc && |hash| == 32 && |reply| <= 256 && (w.phase == Error ==> w.err)
    ensures |p| == PlainPadLen(|reply|) && |q| == PlainPadLen(1)
    ensures var r := SwitchKeys(h, w, reply, mpint, hash);
            && (!r.err ==> Said(r) == Said(w) + Framed(reply, p) + Framed([MSG_NEWKEYS], q))
            && r.io.packets == w.io.packets + 2 && r.io.mark == |Said(r)| && r.k.sendEnc && r.io.log == w.io.log
            && w.io.drawn <= r.io.drawn
            && r.k == NewKeys(w.k, mpint, hash).(sendEnc := true)
  {
    hide Send, NewKeys, Framed;
    p := h.Random(w.io.drawn, PlainPadLen(|reply|));
    SentInClear(h, w, reply);
    var w1 := Send(h, w, reply);
    var w2 := w1.(k := NewKeys(w1.k, mpint, hash));
    q := h.Random(w2.io.drawn, PlainPadLen(1));
    SentInClear(h, w2, [MSG_NEWKEYS]);
    SendErr(h, w2, [MSG_NEWKEYS]);
    SendDraws(h, w, reply);
    SendDraws(h, w2, [MSG_NEWKEYS]);
    SendSticks(h, w, reply);
  }

  lemma SendErr(h: Host, w: World, payload: seq<byte>)
    requires w.Shaped()
    ensures w.err ==> Send(h, w, payload).err
  {
    hide Send;
  }

  lemma SendSticks(h: Host, w: World, payload: seq<byte>)
    requires w.Shaped() && (w.phase == Error ==> w.err)
    ensures var r := Send(h, w, payload); (r.phase == Error ==> r.err) && r.k == w.k
  {
    hide Send;
  }

  // ----- what the client makes of it -----

  /** The fields of the answer, as a client reads them. */
  lemma ReplyReads(h: Host, qs: seq<byte>, hash: seq<byte>)
    requires |h.hostPk| == 32 && |qs| == 32
    ensures var pl, ks, sig := KexReply(h, qs, hash), Blob(h.hostPk, []).Bytes(), Blob(Signature(h, hash), []).Bytes();
            && 1 < |pl| <= 256 && pl[0] == MSG_KEX_ECDH_REPLY
            && RdString(pl, 1) == Got(ks, 5 + |ks|) && RdString(pl, 5 + |ks|) == Got(qs, 9 + |ks| + |qs|)
            && RdString(pl, 9 + |ks| + |qs|) == Got(sig, 13 + |ks| + |qs| + |sig|)
  {
    hide RdString, Str, Ascii;
    var pl := KexReply(h, qs, hash);
    var ks, sig := Blob(h.hostPk, []).Bytes(), Blob(Signature(h, hash), []).Bytes();
    assert Str(h.hostPk) + [] == Str(h.hostPk) && Str(Signature(h, hash)) + [] == Str(Signature(h, hash));
    assert ks == KsBlob(h);
    assert pl[1..] == Str(ks) + (Str(qs) + Str(sig));
    ReadBack(pl, 1, ks, Str(qs) + Str(sig));
    ReadBack(pl, 5 + |ks|, qs, Str(sig));
    assert Str(sig) + [] == Str(sig);
    ReadBack(pl, 9 + |ks| + |qs|, sig, []);
  }

  /** No line feed in the identification. */
  lemma GreetingLine(more: seq<byte>)
    ensures var s := GREETING + more;
            LineEnd(s) == |GREETING| - 1 < |s| && TrimCr(s[..LineEnd(s)]) == VERSION_STRING
              && s[LineEnd(s) + 1..] == more
  {
    var s := GREETING + more;
    assert forall i :: 0 <= i < 17 ==> "SSH-2.0-DOSSH_0.9"[i] != '\n';
    LineEndUnique(s, 18);
    assert s[..18] == VERSION_STRING + [CR];
  }

  /** The packets of the clear part. */
  lemma ClearPart(bytes: seq<byte>, iS: seq<byte>, packets: nat, reply: seq<byte>, p: seq<byte>, q: seq<byte>,
      more: seq<byte>)
    requires Begun(bytes, iS, packets) && |p| == PlainPadLen(|reply|) && |q| == PlainPadLen(1)
    requires 1 < |reply| <= 256 && reply[0] == MSG_KEX_ECDH_REPLY
    ensures var b := bytes[|GREETING|..];
            ClearReads(b + Framed(reply, p) + Framed([MSG_NEWKEYS], q) + more) ==
                Clear(ClearReads(b).payloads + [reply] + [[MSG_NEWKEYS]], more)
  {
    hide ClearReads, PlainPadLen, Framed, Ascii;
    var b := bytes[|GREETING|..];
    PlainReads(reply, p);
    PlainReads([MSG_NEWKEYS], q);
    NotNewkeys(bytes, iS, packets);
    ClearConcat(b, Framed(reply, p));
    ClearConcat(b + Framed(reply, p), Framed([MSG_NEWKEYS], q));
    var all := ClearReads(b + Framed(reply, p) + Framed([MSG_NEWKEYS], q)).payloads;
    assert all[|all| - 1] == [MSG_NEWKEYS];
    ClearStops(b + Framed(reply, p) + Framed([MSG_NEWKEYS], q), more);
    assert [] + more == more;
  }

  lemma {:induction false} FindRefusals(payloads: seq<seq<byte>>)
    requires forall i :: 0 <= i < |payloads| ==> payloads[i] == [MSG_REQUEST_FAILURE]
    ensures Find(payloads, MSG_KEX_ECDH_REPLY) == []
  {
    if |payloads| > 0 {
      assert payloads[0] == [MSG_REQUEST_FAILURE];
      FindRefusals(payloads[1..]);
    }
  }

  /** The client's reading of the stream, whatever follows NEWKEYS. */
  lemma HearsExchange(h: Host, bytes: seq<byte>, iS: seq<byte>, packets: nat, qs: seq<byte>, hash: seq<byte>,
      p: seq<byte>, q: seq<byte>, more: seq<byte>)
    requires Begun(bytes, iS, packets) && |h.hostPk| == 32 && |qs| == 32
    requires |p| == PlainPadLen(|KexReply(h, qs, hash)|) && |q| == PlainPadLen(1)
    ensures Listen(bytes + Framed(KexReply(h, qs, hash), p) + Framed([MSG_NEWKEYS], q) + more) ==
            Heard(VERSION_STRING, iS, Blob(h.hostPk, []).Bytes(), qs, Blob(Signature(h, hash), []).Bytes(), packets + 2,
                  more)
  {
    hide ClearReads, Framed, Ascii, LineEnd, TrimCr, KexReply, RdString, Blob.Bytes, PlainPadLen, Signature;
    var reply := KexReply(h, qs, hash);
    var b, n := bytes[|GREETING|..], Framed([MSG_NEWKEYS], q);
    ReplyReads(h, qs, hash);
    ClearPart(bytes, iS, packets, reply, p, q, more);
    var c := ClearReads(b).payloads;
    var rest := b + Framed(reply, p) + n + more;
    GreetingLine(rest);
    assert bytes == GREETING + b;
    assert bytes + Framed(reply, p) + n + more == GREETING + rest;
    assert c == [iS] + c[1..] && Find([iS], MSG_KEX_ECDH_REPLY) == [];
    FindRefusals(c[1..]);
    FindLater([iS], c[1..], MSG_KEX_ECDH_REPLY);
    FindLater(c, [reply], MSG_KEX_ECDH_REPLY);
    FindLater(c + [reply], [[MSG_NEWKEYS]], MSG_KEX_ECDH_REPLY);
  }

  /** The two halves absorbed by the handlers are what the client hashes in one shot. */
  lemma SameHash(h: Host, vc: seq<byte>, ic: seq<byte>, qc: seq<byte>, m: Heard, secret: seq<byte>)
    requires m.Heard? && m.version == VERSION_STRING && m.hostKey == Blob(h.hostPk, []).Bytes()
    ensures ExchangeHash(FirstHalf(vc, ic, m.kexinit), KsBlob(h), qc, m.qs, Mpint(secret)) ==
            ClientHash(vc, ic, qc, m, secret)
  {
    hide Str, Mpint, Sha256.Digest, Ascii;
    var k := Mpint(secret);
    assert Str(h.hostPk) + [] == Str(h.hostPk);
    assert m.hostKey == KsBlob(h);
    ExchangeHashIs(FirstHalf(vc, ic, m.kexinit), KsBlob(h), qc, m.qs, k);
    assert Str(vc) + Str(m.version) + Str(ic) + Str(m.kexinit) + (Str(m.hostKey) + Str(qc) + Str(m.qs) + k)
        == Str(vc) + Str(m.version) + Str(ic) + Str(m.kexinit) + Str(m.hostKey) + Str(qc) + Str(m.qs) + k;
  }

  lemma SameKey(secret: seq<byte>, hash: seq<byte>, letter: byte)
    ensures DerivedKey(Mpint(secret), hash, letter, hash, 64) == ClientKey(secret, hash, letter)
  {
    hide KeyBlocks, Mpint, Sha256.Digest;
    DerivedIs(Mpint(secret), hash, letter, hash, 64, 2);
    KeyBlocksNext(Mpint(secret), hash, letter, hash, 1);
    assert ClientKey(secret, hash, letter)[..64] == ClientKey(secret, hash, letter);
  }

  /** What the two sides agree on: the client has heard the server's identification, host key and signature of the hash
      that it computes itself, and its keys are the server's. */
  ghost predicate SharesKeys(h: Host, k: Keys, vc: seq<byte>, ic: seq<byte>, qc: seq<byte>, sk: seq<byte>, m: Heard) {
    && m.Heard? && |sk| == 32 && m.version == VERSION_STRING && m.qs == PublicKey(h, sk)
    && m.hostKey == Blob(h.hostPk, []).Bytes()
    && var secret := SharedSecret(h, sk, qc);
       var hash := ClientHash(vc, ic, qc, m, secret);
       && m.sig == Blob(Signature(h, hash), []).Bytes() && !AllZero(secret)
       && k.session == hash && k.c2s == ClientKey(secret, hash, 0x43) && k.s2c == ClientKey(secret, hash, 0x44)
  }

  /** The packet that makes the keys. */
  lemma ExchangeStep(h: Host, w: World, pl: seq<byte>, vc: seq<byte>, ic: seq<byte>, more: seq<byte>)
    returns (qc: seq<byte>, sk: seq<byte>, m: Heard)
    requires Early(w) && w.phase == ExpectEcdhInit && w.x.transcript == FirstHalf(vc, ic, w.x.iS) && |h.hostPk| == 32
    requires HandleEcdhInit(h, w, pl).k.ready && !HandleEcdhInit(h, w, pl).err
    ensures var r := HandleEcdhInit(h, w, pl);
            && Offers(pl, qc) && SharesKeys(h, r.k, vc, ic, qc, sk, m) && Listen(Said(r) + more) == m
            && m.rest == more && m.kexinit == w.x.iS && m.count == r.io.packets && r.io.mark == |Said(r)|
            && r.k.sendEnc && r.io.log == []
            && sk == h.Random(w.io.drawn, 32) && w.io.drawn + 32 <= r.io.drawn
  {
    hide Begun, SealInv, GateInv, SwitchKeys, Mpint, ExchangeHash, KexReply, KsBlob, SharedSecret, AllZero, Listen,
         HandleEcdhInit, FirstHalf, Blob.Bytes, Sha256.Digest, ClientKey, DerivedKey, Framed, ClientHash, Signature;
    BeforeKeys(w);
    qc, sk := Exchanges(h, w, pl);
    var secret := SharedSecret(h, sk, qc);
    var qs := PublicKey(h, sk);
    var hash := ExchangeHash(w.x.transcript, KsBlob(h), qc, qs, Mpint(secret));
    var w0 := w.(io := w.io.(drawn := w.io.drawn + 32));
    ReplyReads(h, qs, hash);
    var p, q := SwitchSays(h, w0, KexReply(h, qs, hash), Mpint(secret), hash);
    HearsExchange(h, Said(w), w.x.iS, w.io.packets, qs, hash, p, q, more);
    m := Listen(Said(HandleEcdhInit(h, w, pl)) + more);
    SameHash(h, vc, ic, qc, m, secret);
    SameKey(secret, hash, 0x43);
    SameKey(secret, hash, 0x44);
    FirstKeys(w);
  }

  lemma FirstKeys(w: World)
    requires Inv(w) && w.phase == ExpectEcdhInit
    ensures !w.k.haveSession && w.io.log == []
  {
  }

  // ----- runs -----

  /** One event before the keys: the client's identification, its KEXINIT, or nothing to do with the exchange. */
  lemma EarlyStep(h: Host, w: World, e: Event)
    requires Early(w) && Allowed(e) && !Apply(h, w, e).err && !Apply(h, w, e).k.ready
    ensures var r := Apply(h, w, e);
            && Early(r)
            && (|| (e.Hello? && w.phase == Version && r.x == w.x.(cliVer := e.line) && r.phase == ExpectKexinit)
                || TakesOffer(w, e, r)
                || (&& SameExchange(w, r) && (r.phase == Version <==> w.phase == Version)
                    && (r.phase == ExpectEcdhInit ==> w.phase == ExpectEcdhInit)))
  {
    hide Begun, Inv, HandlePacket, FlushFrom, Negotiate, FirstHalf;
    EarlyShaped(w);
    StepKeeps(h, w, e);
    match e {
      case Arrive(pl) => if Dispatching(w.phase) { EarlyPacket(h, w, pl); }
      case Breakdown => FailKeeps(h, w);
      case Drain(n) => DrainKeeping(h, w, n);
      case _ =>
    }
  }

  lemma EarlyShaped(w: World)
    requires Early(w)
    ensures w.Shaped() && w.phase != Error
  {
    hide Begun;
  }

  lemma {:induction false} EarlyRun(h: Host, ws: seq<World>, es: seq<Event>, n: nat) returns (i: nat, j: nat)
    requires IsRun(h, ws, es) && n <= |es| && !ws[n].k.ready && !ws[n].err
    ensures Early(ws[n]) && (ws[n].phase == ExpectEcdhInit ==> ws[n].x.transcript != [])
    ensures ws[n].phase == Version ==> ws[n].x.transcript == []
    ensures ws[n].phase != Version ==> i < n && es[i].Hello? && ws[n].x.cliVer == es[i].line
    ensures ws[n].x.transcript != [] ==>
              && i < j < n && es[j].Arrive? && Negotiate(es[j].payload).Agreed?
              && ws[n].x.transcript == FirstHalf(ws[n].x.cliVer, es[j].payload, ws[n].x.iS)
  {
    hide Early, Apply, Allowed, Negotiate, FirstHalf, Inv, Told, Reset;
    i, j := 0, 0;
    if n == 0 {
      var drawn: nat :| ws[0] == Reset(h, drawn);
      ResetEarly(h, drawn);
    } else {
      var w := ws[n - 1];
      RunKeepsInv(h, ws, es, n - 1);
      ShapedNow(w);
      StepKeeps(h, w, es[n - 1]);
      StepKeeping(h, w, es[n - 1]);
      i, j := EarlyRun(h, ws, es, n - 1);
      EarlyStep(h, w, es[n - 1]);
      if es[n - 1].Hello? && w.phase == Version {
        i := n - 1;
      } else if TakesOffer(w, es[n - 1], ws[n]) {
        j := n - 1;
        FirstHalfLong(w.x.cliVer, es[j].payload, w.x.iS);
      }
    }
  }

  lemma FirstHalfLong(vc: seq<byte>, ic: seq<byte>, iS: seq<byte>)
    ensures FirstHalf(vc, ic, iS) != []
  {
    hide Str;
  }

  lemma ResetEarly(h: Host, drawn: nat)
    ensures Early(Reset(h, drawn)) && Reset(h, drawn).phase == Version && Reset(h, drawn).x.transcript == []
  {
    hide Inv, Begun, OurKexinit, SendUnenc;
    ResetInv(h, drawn);
    ResetBegun(h, drawn);
  }

  /** When the keys were made. */
  lemma {:induction false} KeysMade(h: Host, ws: seq<World>, es: seq<Event>, n: nat) returns (k: nat)
    requires IsRun(h, ws, es) && n <= |es| && ws[n].k.ready
    ensures k < n && !ws[k].k.ready && ws[k + 1].k.ready
  {
    hide Apply, Reset, Allowed;
    if n == 0 {
      var drawn: nat :| ws[0] == Reset(h, drawn);
      ResetInv(h, drawn);
    } else if ws[n - 1].k.ready {
      k := KeysMade(h, ws, es, n - 1);
    } else {
      k := n - 1;
    }
  }

  /** From the keys on: what was said in the clear stays, and so does the count of it. */
  lemma {:induction false} SinceKeys(h: Host, ws: seq<World>, es: seq<Event>, k: nat, n: nat)
    requires IsRun(h, ws, es) && k <= n <= |es| && ws[k].k.sendEnc
    requires forall t :: k <= t < n ==> !Overtakes(ws[t], es[t])
    ensures ws[n].io.packets - |ws[n].io.log| == ws[k].io.packets - |ws[k].io.log| && ws[n].io.mark == ws[k].io.mark
    ensures ws[k].io.drawn <= ws[n].io.drawn
    ensures Said(ws[k]) <= Said(ws[n]) && ws[n].k.sendEnc
    decreases n - k
  {
    hide Inv, Apply, Reset, Allowed, Told, Overtakes;
    if k < n {
      SinceKeys(h, ws, es, k, n - 1);
      RunKeepsInv(h, ws, es, n - 1);
      ShapedNow(ws[n - 1]);
      StepKeeping(h, ws[n - 1], es[n - 1]);
    }
  }

  /** The first sealed packet is numbered by the packets sent in the clear. */
  lemma FirstIsCount(w: World)
    requires Inv(w) && Told(w)
    ensures First(w.io.log, w.sendSeq) == (w.io.packets - |w.io.log|) % U32_LIMIT
  {
    hide GateInv, Agrees;
  }

  /** The packet that makes the keys, in a run. */
  lemma KeysStep(h: Host, ws: seq<World>, es: seq<Event>, k: nat, more: seq<byte>)
    returns (i: nat, j: nat, qc: seq<byte>, sk: seq<byte>, m: Heard)
    requires IsRun(h, ws, es) && k < |es| && |h.hostPk| == 32
    requires !ws[k].k.ready && ws[k + 1].k.ready && !ws[k + 1].err
    ensures i < j < k && es[i].Hello? && es[j].Arrive? && Negotiate(es[j].payload).Agreed?
    ensures es[k].Arrive? && Offers(es[k].payload, qc)
    ensures var r := ws[k + 1];
            && SharesKeys(h, r.k, es[i].line, es[j].payload, qc, sk, m) && Listen(Said(r) + more) == m
            && m.rest == more && m.count == r.io.packets && r.io.mark == |Said(r)| && r.k.sendEnc && r.io.log == []
            && sk == h.Random(ws[k].io.drawn, 32) && ws[k].io.drawn + 32 <= r.io.drawn
  {
    hide Early, Apply, Allowed, Negotiate, FirstHalf, Inv, Told, Reset, SharesKeys, Listen, HandleEcdhInit, Offers;
    var w := ws[k];
    RunKeepsInv(h, ws, es, k);
    ShapedNow(w);
    if w.err {
      FailureLasts(h, ws, es, k, k + 1);
    }
    i, j := EarlyRun(h, ws, es, k);
    MakesKeys(h, w, es[k]);
    qc, sk, m := ExchangeStep(h, w, es[k].payload, es[i].line, es[j].payload, more);
  }

  lemma MakesKeys(h: Host, w: World, e: Event)
    requires Early(w) && Apply(h, w, e).k.ready && !Apply(h, w, e).err
    ensures e.Arrive? && w.phase == ExpectEcdhInit
    ensures var r, s := Apply(h, w, e), HandleEcdhInit(h, w, e.payload);
            s.k.ready && !s.err && r == s.(recvSeq := r.recvSeq)
  {
    hide Begun, SealInv, GateInv, HandleEcdhInit, Negotiate, FirstHalf, Send, FlushFrom, BeValue;
  }

  /** With this key the client opens what follows NEWKEYS, from the number of packets it has counted on, to the payloads
      sealed: the first of them, and all of them if and only if nothing is queued. */
  ghost predicate ReadsOn(h: Host, w: World, key: seq<byte>, m: Heard) {
    && m.Heard? && |key| == 64
    && var r := ClientReads(h.keystream, key, m.count % U32_LIMIT, m.rest);
       r.payloads <= Payloads(w.io.log) && (r.payloads == Payloads(w.io.log) <==> w.io.ob == [])
  }

  /** A whole session from the client's side. In every run that has not failed and in which no record has overtaken the
      queue, the client that said `line`, its KEXINIT and its key, and that holds the shared secret, finds the host's
      key and a signature of its own exchange hash in the bytes sent, derives the server's keys, and reads on
      with them. The server's secret key is 32 bytes of the random tape that are never drawn again. */
  lemma ClientSession(h: Host, ws: seq<World>, es: seq<Event>, n: nat)
    returns (i: nat, j: nat, k: nat, qc: seq<byte>, sk: seq<byte>)
    requires IsRun(h, ws, es) && n <= |es| && |h.hostPk| == 32 && forall t :: 0 <= t < n ==> !Overtakes(ws[t], es[t])
    requires ws[n].k.ready && !ws[n].err && ws[n].io.mark <= |ws[n].io.sent|
    ensures i < j < k < n && es[i].Hello? && es[j].Arrive? && Negotiate(es[j].payload).Agreed?
    ensures es[k].Arrive? && Offers(es[k].payload, qc)
    ensures sk == h.Random(ws[k].io.drawn, 32) && ws[k].io.drawn + 32 <= ws[n].io.drawn
    ensures var w, m := ws[n], Listen(ws[n].io.sent);
            && SharesKeys(h, w.k, es[i].line, es[j].payload, qc, sk, m)
            && ReadsOn(h, w, ClientKey(SharedSecret(h, sk, qc), w.k.session, 0x44), m)
  {
    hide Apply, Allowed, Negotiate, Inv, Told, Reset, Listen, Offers, Overtakes, ClientReads, ClientHash, SharedSecret,
         ClientKey, AllZero, Signature, Blob.Bytes;
    var w := ws[n];
    k := KeysMade(h, ws, es, n);
    if ws[k + 1].err {
      FailureLasts(h, ws, es, k + 1, n);
    }
    var m;
    i, j, qc, sk, m := KeysStep(h, ws, es, k, w.io.sent[w.io.mark..]);
    SinceKeys(h, ws, es, k + 1, n);
    assert Said(ws[k + 1]) == w.io.sent[..w.io.mark];
    assert w.io.sent == w.io.sent[..w.io.mark] + w.io.sent[w.io.mark..];
    RunForward(h, ws, es, k + 1, n);
    RunKeepsInv(h, ws, es, n);
    RunTold(h, ws, es, n);
    FirstIsCount(w);
    ClientInStep(h, ws, es, n);
  }
}
