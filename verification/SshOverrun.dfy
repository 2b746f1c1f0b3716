/** A complete session with the SSH server (dosshd/ssh.c), from reset to shell, and what flushing it after a failure
    does: the run that shows why flow control needs its condition. */
module SshOverrun {
  import opened Bytes
  import opened SshWire
  import opened SshRecord
  import opened SshKex
  import opened SshServer
  import opened SshAuth
  import opened SshRuns
  import opened SshSafety

  // ----- a client's KEXINIT -----

  function EncodeLists(lists: seq<seq<byte>>): seq<byte> {
    if |lists| == 0 then [] else Str(lists[0]) + EncodeLists(lists[1..])
  }

  /** The loop of negotiate reads back whatever name-lists were written. */
  lemma {:induction false} ReadListsBack(pl: seq<byte>, off: nat, lists: seq<seq<byte>>, rest: seq<byte>)
    requires off <= |pl| && pl[off..] == EncodeLists(lists) + rest
    requires forall i :: 0 <= i < |lists| ==> |lists[i]| < U32_LIMIT
    ensures ReadLists(pl, off, |lists|) == Lists(lists, off + |EncodeLists(lists)|)
    ensures off + |EncodeLists(lists)| <= |pl| && pl[off + |EncodeLists(lists)|..] == rest
    decreases |lists|
  {
    hide RdString, Str;
    if |lists| == 0 {
      assert pl[off..] == rest;
    } else {
      var next := off + 4 + |lists[0]|;
      var tail := EncodeLists(lists[1..]) + rest;
      assert pl[off..] == Str(lists[0]) + tail;
      ReadBack(pl, off, lists[0], tail);
      ReadListsBack(pl, next, lists[1..], rest);
      assert [lists[0]] + lists[1..] == lists;
    }
  }

  /** A list without a comma holds one name. */
  lemma {:induction false} SingleName(list: seq<byte>)
    requires COMMA !in list
    ensures Names(list) == [list]
  {
    if |list| == 0 {
    } else {
      var n := |list| - 1;
      SingleName(list[..n]);
      assert list[..n] + [list[n]] == list;
    }
  }

  const CURVE := Ascii("curve25519-sha256")
  const CIPHER := Ascii("chacha20-poly1305@openssh.com")
  const OFFER: seq<seq<byte>> := [CURVE, ED25519, CIPHER, CIPHER, [], [], [], [], [], []]

  function ClientKexinit(): seq<byte> {
    [MSG_KEXINIT] + seq(16, _ => 0) + EncodeLists(OFFER) + [0, 0, 0, 0, 0]
  }

  lemma NoCommas()
    ensures COMMA !in CURVE && COMMA !in ED25519 && COMMA !in CIPHER
  {
    hide Ascii;
    CurvePlain();
    KeyPlain();
    CipherPlain();
  }

  lemma CurvePlain()
    ensures COMMA !in CURVE
  {
    assert forall i :: 0 <= i < 17 ==> "curve25519-sha256"[i] != ',';
  }

  lemma KeyPlain()
    ensures COMMA !in ED25519
  {
    assert forall i :: 0 <= i < 11 ==> "ssh-ed25519"[i] != ',';
  }

  lemma CipherPlain()
    ensures COMMA !in CIPHER
  {
    assert forall i :: 0 <= i < 29 ==> "chacha20-poly1305@openssh.com"[i] != ',';
  }

  /** What a client offers is accepted, and nothing has been guessed wrong. */
  lemma OfferAgreed()
    ensures Negotiate(ClientKexinit()) == Agreed(false)
  {
    hide Ascii, Str, Names, EncodeLists, ReadLists;
    var pl := ClientKexinit();
    NoCommas();
    OfferSized();
    assert pl[17..] == EncodeLists(OFFER) + [0, 0, 0, 0, 0];
    ReadListsBack(pl, 17, OFFER, [0, 0, 0, 0, 0]);
    var off := 17 + |EncodeLists(OFFER)|;
    assert pl[off] == pl[off..][0];
    SingleName(CURVE);
    SingleName(ED25519);
    SingleName(CIPHER);
    assert IsCurve([CURVE][0]);
  }

  lemma OfferSized()
    ensures |OFFER| == 10 && forall i :: 0 <= i < |OFFER| ==> |OFFER[i]| < U32_LIMIT
    ensures |ClientKexinit()| <= SSH_IB_SZ
  {
    hide EncodeLists, Ascii;
    ListsLength(OFFER);
  }

  lemma {:induction false} ListsLength(lists: seq<seq<byte>>)
    requires forall i :: 0 <= i < |lists| ==> |lists[i]| <= 29
    ensures |EncodeLists(lists)| <= 33 * |lists|
  {
    hide Str;
    if |lists| == 0 {
    } else {
      ListsLength(lists[1..]);
    }
  }

  // ----- the steps of a session -----

  lemma KexinitStep(h: Host, w: World)
    requires w.Shaped() && w.phase == ExpectKexinit
    ensures var r := Apply(h, w, Arrive(ClientKexinit())); r.phase == ExpectEcdhInit && !r.x.discardNext && r.ch == w.ch
  {
    hide Negotiate, FirstHalf, EncodeLists;
    OfferAgreed();
  }

  function ClientEcdh(qc: seq<byte>): seq<byte> {
    [MSG_KEX_ECDH_INIT] + Str(qc)
  }

  /** A client public key that this server, drawing the secret key sk, does not refuse as degenerate. */
  predicate Agreeable(h: Host, sk: seq<byte>, qc: seq<byte>) {
    |qc| == 32 && !AllZero(SharedSecret(h, sk, qc))
  }

  /** A client can agree on a secret with the server, whatever secret key the server draws. */
  ghost predicate CanAgree(h: Host) {
    forall sk: seq<byte> :: |sk| == 32 ==> exists qc :: Agreeable(h, sk, qc)
  }

  lemma EcdhStep(h: Host, w: World, qc: seq<byte>)
    requires w.Shaped() && w.phase == ExpectEcdhInit && !w.x.discardNext
    requires Agreeable(h, h.Random(w.io.drawn, 32), qc)
    ensures var r := Apply(h, w, Arrive(ClientEcdh(qc))); r.phase == ExpectNewkeys && r.ch == w.ch
  {
    hide Send, Mpint, ExchangeHash, KexReply, KsBlob, SwitchKeys, BeValue, BeBytes, SharedSecret;
    var pl := ClientEcdh(qc);
    assert pl[1..5] == BeBytes(32) && pl[5..37] == qc;
    BeRoundTrip(32);
    SwitchEnds(h);
  }

  lemma SwitchEnds(h: Host)
    ensures forall w: World, reply, mpint, hash :: w.Shaped() && |hash| == 32 ==>
              SwitchKeys(h, w, reply, mpint, hash).phase == ExpectNewkeys
                  && SwitchKeys(h, w, reply, mpint, hash).ch == w.ch
  {
    hide Send, NewKeys;
  }

  lemma NewkeysStep(h: Host, w: World)
    requires w.Shaped() && w.phase == ExpectNewkeys
    ensures var r := Apply(h, w, Arrive([MSG_NEWKEYS])); r.phase == ExpectService && r.ch == w.ch
  {
  }

  function ClientService(): seq<byte> {
    [MSG_SERVICE_REQUEST] + Str([])
  }

  lemma ServiceStep(h: Host, w: World)
    requires w.Shaped() && w.phase == ExpectService
    ensures var r := Apply(h, w, Arrive(ClientService())); r.phase == Auth && r.ch == w.ch
  {
    hide Send, BeValue, BeBytes, ServiceAccept;
    assert ClientService()[1..5] == BeBytes(0);
    BeRoundTrip(0);
  }

  function ClientAuth(): seq<byte> {
    Attempt([], [], [], []).Bytes()
  }

  lemma AuthStep(h: Host, w: World)
    requires w.Shaped() && w.phase == Auth && h.Open()
    ensures var r := Apply(h, w, Arrive(ClientAuth())); r.phase == Session && r.ch == w.ch
  {
    hide Send, RdString, Str, Credential.Bytes;
    var c := Attempt([], [], [], []);
    FrontBack(ClientAuth(), c);
    AuthKind(c);
    AuthDispatch(h, w, ClientAuth());
  }

  lemma AuthKind(c: Credential)
    ensures |c.Bytes()| > 0 && c.Bytes()[0] == MSG_USERAUTH_REQUEST
  {
    hide Str, Credential.Rest, Credential.Method;
  }

  /** Opens the channel with a window of one byte. */
  function ClientOpen(): seq<byte> {
    [MSG_CHANNEL_OPEN] + Str(Ascii("session")) + BeBytes(0) + BeBytes(1) + BeBytes(1)
  }

  lemma OpenStep(h: Host, w: World)
    requires w.Shaped() && w.phase == Session && !w.ch.isOpen && w.k.sendEnc && w.io.ob == []
    ensures var r := Apply(h, w, Arrive(ClientOpen()));
            && r.phase == Session && r.ch == OpenedBy(w.ch, 0, 1, 1) && r.io.cout == w.io.cout && r.k.sendEnc
  {
    hide Send, SendEnc, HandleChannelOpen, ClientOpen, OpenConfirmation, OpenFailure, Ascii, OpenedBy;
    OpenParsed(h, w);
    ShortReply(h, w.(ch := OpenedBy(w.ch, 0, 1, 1)));
  }

  lemma OpenParsed(h: Host, w: World)
    requires w.Shaped()
    ensures |ClientOpen()| > 0 && ClientOpen()[0] == MSG_CHANNEL_OPEN
    ensures HandleChannelOpen(h, w, ClientOpen()) == AnswerOpen(h, w, Ascii("session"), 0, 1, 1)
  {
    hide BeValue, BeBytes, AnswerOpen, Ascii;
    var pl := ClientOpen();
    assert pl[1..5] == BeBytes(7) && pl[5..12] == Ascii("session");
    assert pl[12..16] == BeBytes(0) && pl[16..20] == BeBytes(1) && pl[20..24] == BeBytes(1);
    BeRoundTrip(7);
    BeRoundTrip(0);
    BeRoundTrip(1);
  }

  lemma ShortReply(h: Host, w: World)
    requires w.Shaped() && w.k.sendEnc && w.io.ob == []
    ensures |OpenConfirmation(0)| <= 17 && Send(h, w, OpenConfirmation(0)).phase == w.phase
  {
    hide SendEnc, BeBytes;
  }

  function ClientShell(): seq<byte> {
    [MSG_CHANNEL_REQUEST] + BeBytes(0) + Str(Ascii("shell")) + [0]
  }

  lemma ShellStep(h: Host, w: World)
    requires w.Shaped() && w.phase == Session
    ensures Apply(h, w, Arrive(ClientShell())) ==
            w.(ch := w.ch.(shell := true), recvSeq := (w.recvSeq + 1) % U32_LIMIT)
  {
    hide Send, BeValue, BeBytes, Ascii;
    var pl := ClientShell();
    assert pl[5..9] == BeBytes(5) && pl[9..14] == Ascii("shell") && pl[14] == 0;
    BeRoundTrip(5);
    assert |Ascii("shell")| != |Ascii("pty-req")|;
  }

  // ----- the run -----

  /** One more event. */
  lemma Extend(h: Host, ws: seq<World>, es: seq<Event>, e: Event) returns (ws': seq<World>, r: World)
    requires IsRun(h, ws, es) && Allowed(e) && |ws| == |es| + 1
    ensures Inv(ws[|es|]) && ws[|es|].Shaped() && r == Apply(h, ws[|es|], e)
    ensures ws' == ws + [r] && IsRun(h, ws', es + [e]) && Inv(r) && r.Shaped()
  {
    hide Inv, Apply, Allowed, Reset, Steps;
    RunKeepsInv(h, ws, es, |es|);
    ShapedNow(ws[|es|]);
    r := Apply(h, ws[|es|], e);
    ws' := ws + [r];
    StepsAppend(h, ws, es, e, r);
    RunKeepsInv(h, ws', es + [e], |es| + 1);
    ShapedNow(r);
  }

  lemma Begin(h: Host) returns (ws: seq<World>, w: World)
    ensures IsRun(h, ws, []) && ws == [w] && w.phase == Version && w.ch == Reset(h, 0).ch
    ensures !w.ch.isOpen && !w.ch.closed && w.ch.out == []
  {
    hide OurKexinit, Ascii;
    ResetInv(h, 0);
    w := Reset(h, 0);
    ws := [w];
  }

  /** The handshake and the open gate. */
  lemma HandshakeRun(h: Host) returns (ws: seq<World>, es: seq<Event>, w: World)
    requires h.Open() && CanAgree(h)
    ensures IsRun(h, ws, es) && |ws| == |es| + 1 && ws[|es|] == w && Inv(w) && w.Shaped()
    ensures w.phase == Session && !w.ch.isOpen && !w.ch.closed && w.ch.out == []
  {
    hide Inv, Apply, IsRun, Allowed, Negotiate, EncodeLists, Str, Credential.Bytes, Agreeable, CanAgree;
    ws, w := Begin(h);
    es := [];
    EventsAllowed(0);
    ws, w := Extend(h, ws, es, Hello([]));
    es := es + [Hello([])];
    HelloStep(h, ws[|es| - 1]);
    ghost var k := Arrive(ClientKexinit());
    KexinitStep(h, w);
    ws, w := Extend(h, ws, es, k);
    es := es + [k];
    ghost var qc := ChooseKey(h, h.Random(w.io.drawn, 32));
    k := Arrive(ClientEcdh(qc));
    EcdhStep(h, w, qc);
    ws, w := Extend(h, ws, es, k);
    es := es + [k];
    k := Arrive([MSG_NEWKEYS]);
    NewkeysStep(h, w);
    ws, w := Extend(h, ws, es, k);
    es := es + [k];
    k := Arrive(ClientService());
    ServiceStep(h, w);
    ws, w := Extend(h, ws, es, k);
    es := es + [k];
    k := Arrive(ClientAuth());
    AuthStep(h, w);
    ws, w := Extend(h, ws, es, k);
    es := es + [k];
  }

  lemma HelloStep(h: Host, w: World)
    requires w.Shaped() && w.phase == Version
    ensures var r := Apply(h, w, Hello([])); r.phase == ExpectKexinit && r.ch == w.ch
  {
  }

  lemma EventsAllowed(n: nat)
    ensures Allowed(Hello([])) && Allowed(Arrive(ClientKexinit()))
    ensures Allowed(Arrive([MSG_NEWKEYS]))
    ensures Allowed(Arrive(ClientService())) && Allowed(Arrive(ClientAuth())) && Allowed(Arrive(ClientOpen()))
    ensures Allowed(Arrive(ClientShell())) && Allowed(Stage(0x41)) && Allowed(Breakdown) && Allowed(Drain(n))
    ensures Allowed(DoFlush)
  {
    hide Ascii, ClientKexinit;
    OfferSized();
  }

  lemma ChooseKey(h: Host, sk: seq<byte>) returns (qc: seq<byte>)
    requires CanAgree(h) && |sk| == 32
    ensures Agreeable(h, sk, qc) && Allowed(Arrive(ClientEcdh(qc)))
  {
    hide Agreeable, Allowed, ClientEcdh;
    qc :| Agreeable(h, sk, qc);
    EcdhAllowed(h, sk, qc);
  }

  lemma EcdhAllowed(h: Host, sk: seq<byte>, qc: seq<byte>)
    requires Agreeable(h, sk, qc)
    ensures Allowed(Arrive(ClientEcdh(qc)))
  {
    hide SharedSecret, AllZero, BeBytes;
  }

  /** With no channel a flush clears the staging buffer; a drain clears the output. */
  lemma ClearStep(h: Host, w: World)
    requires w.Shaped()
    ensures var r := Apply(h, w, Drain(|w.io.ob|)); r == w.(io := w.io.(ob := [], sent := r.io.sent))
    ensures !w.ch.isOpen ==> Apply(h, w, DoFlush) == w.(io := w.io.(cout := []))
  {
  }

  /** A channel with a shell and one byte of credit, nothing staged. */
  lemma ShellRun(h: Host) returns (ws: seq<World>, es: seq<Event>, w: World)
    requires h.Open() && CanAgree(h)
    ensures IsRun(h, ws, es) && |ws| == |es| + 1 && ws[|es|] == w && Inv(w) && w.Shaped()
    ensures w.phase == Session && w.k.sendEnc && w.io.cout == [] && w.ch.isOpen && w.ch.shell && !w.ch.closed
    ensures w.ch.peerWindow == w.ch.peerMaxpkt == w.ch.granted == 1 && w.ch.out == []
  {
    hide Apply, IsRun, Allowed, SealInv, GateInv, Ascii, Str, BeBytes, CanAgree;
    ws, es, w := HandshakeRun(h);
    EventsAllowed(0);
    ClearStep(h, w);
    ws, w := Extend(h, ws, es, DoFlush);
    es := es + [DoFlush];
    ghost var k := Drain(|w.io.ob|);
    EventsAllowed(|w.io.ob|);
    ClearStep(h, w);
    ws, w := Extend(h, ws, es, k);
    es := es + [k];
    k := Arrive(ClientOpen());
    OpenStep(h, w);
    ws, w := Extend(h, ws, es, k);
    es := es + [k];
    k := Arrive(ClientShell());
    ShellStep(h, w);
    ws, w := Extend(h, ws, es, k);
    es := es + [k];
  }

  /** A byte is staged, decoding fails, the output drains. */
  lemma FailedRun(h: Host) returns (ws: seq<World>, es: seq<Event>, w: World)
    requires h.Open() && CanAgree(h)
    ensures IsRun(h, ws, es) && |ws| == |es| + 1 && ws[|es|] == w && w.Shaped() && w.k.sendEnc
    ensures Repeats(w) && Allowance(w.ch, 1) == 1 && |w.io.cout| == 1 && w.io.ob == [] && w.ch.granted == 1
    ensures w.ch.out == []
  {
    hide Apply, IsRun, Allowed, Inv, CanAgree;
    ws, es, w := ShellRun(h);
    EventsAllowed(0);
    StageStep(h, w);
    ws, w := Extend(h, ws, es, Stage(0x41));
    es := es + [Stage(0x41)];
    FailStep(h, w);
    ws, w := Extend(h, ws, es, Breakdown);
    es := es + [Breakdown];
    ghost var k := Drain(|w.io.ob|);
    EventsAllowed(|w.io.ob|);
    ClearStep(h, w);
    ws, w := Extend(h, ws, es, k);
    es := es + [k];
  }

  lemma StageStep(h: Host, w: World)
    requires w.Shaped() && w.ch.shell && !w.ch.closed && w.io.cout == []
    ensures Apply(h, w, Stage(0x41)) == w.(io := w.io.(cout := [0x41]))
  {
  }

  lemma FailStep(h: Host, w: World)
    requires w.Shaped() && w.phase == Session
    ensures var r := Apply(h, w, Breakdown); r.phase == Error && r.k == w.k && r.ch == w.ch && r.io == w.io
  {
  }

  /** Flow control does fail without the condition on flushes. On every open box that a client can agree on a secret
      with there is a run, from reset through a whole session, that sends more than the client granted. */
  lemma FlushInErrorOverruns(h: Host) returns (ws: seq<World>, es: seq<Event>)
    requires h.Open() && CanAgree(h)
    ensures IsRun(h, ws, es) && |ws[|es|].ch.out| > ws[|es|].ch.granted
    ensures |es| >= 2 && Overspends(ws[|es| - 2], es[|es| - 2]) && Overspends(ws[|es| - 1], es[|es| - 1])
  {
    hide Apply, IsRun, Allowed, Inv, Flush, Repeats, CanAgree;
    var w;
    ws, es, w := FailedRun(h);
    EventsAllowed(0);
    FlushRepeats(h, w);
    FlushStep(h, w);
    ws, w := Extend(h, ws, es, DoFlush);
    es := es + [DoFlush];
    FlushRepeats(h, w);
    FlushStep(h, w);
    ws, w := Extend(h, ws, es, DoFlush);
    es := es + [DoFlush];
  }

  /** After a flush that repeats itself the next one does, too. */
  lemma FlushStep(h: Host, w: World)
    requires w.Shaped() && w.k.sendEnc && Repeats(w) && |w.io.cout| == 1 && |w.io.ob| <= 100
    ensures Apply(h, w, DoFlush) == Flush(h, w) && Repeats(Flush(h, w))
  {
    hide Flush;
    FlushRepeats(h, w);
  }

  /** Such a box, with simple primitives: like X25519 its agreement maps the point zero to the all-zero secret. */
  function PlainHost(): (h: Host)
    ensures h.Open() && forall sk, qc, i: nat :: i < |qc| && qc[i] == 0 ==> h.x25519(sk, qc, i) == 0
  {
    Host((_, _, _, _) => 0, (sk: seq<byte>, qc: seq<byte>, i: nat) => if i < |qc| then qc[i] else 0,
        (_, _) => 0, (_, _, _) => 0, (_, _, _) => false, _ => 0, [], seq(32, _ => 0), [], [])
  }

  /** And its clients can avoid that point. */
  lemma PlainHostAgrees()
    ensures CanAgree(PlainHost())
  {
    var qc := seq(32, _ => 9);
    forall sk: seq<byte> | |sk| == 32
      ensures Agreeable(PlainHost(), sk, qc)
    {
      assert SharedSecret(PlainHost(), sk, qc)[0] == 9;
    }
  }

  lemma PlainHostOverruns() returns (ws: seq<World>, es: seq<Event>)
    ensures IsRun(PlainHost(), ws, es) && |ws[|es|].ch.out| > ws[|es|].ch.granted
  {
    PlainHostAgrees();
    ws, es := FlushInErrorOverruns(PlainHost());
  }
}
