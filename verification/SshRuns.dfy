/** What every run of the SSH server keeps (dosshd/ssh.c): phases only move forward, nobody gets in without a
    credential, no nonce is used twice, and flow control is honoured. */
module SshRuns {
  import opened Bytes
  import opened SshWire
  import opened SshRecord
  import opened SshKex
  import opened SshServer
  import opened SshAuth
  import opened SshClient

  // ----- invariants -----

  /** The packets sealed so far: numbered in order, all under one key. */
  ghost predicate LogOk(log: seq<Sealed>, packets: nat, key: seq<byte>) {
    && (forall i :: 0 <= i < |log| ==>
          log[i].key == key && log[i].number == log[i].index % U32_LIMIT && log[i].index < packets)
    && (forall i, j :: 0 <= i < j < |log| ==> log[i].index < log[j].index)
  }

  /** The send side: sequence numbers count packets, and nothing is sealed before encryption starts. */
  ghost predicate SealInv(key: seq<byte>, sendEnc: bool, sendSeq: nat, packets: nat, log: seq<Sealed>) {
    sendSeq == packets % U32_LIMIT && LogOk(log, packets, key) && (!sendEnc ==> log == [])
  }

  ghost predicate KeyInv(w: World) {
    && w.Shaped() && |w.k.session| == 32 && SealInv(w.k.s2c, w.k.sendEnc, w.sendSeq, w.io.packets, w.io.log)
    && (Rank(w.phase) <= 2 ==> !w.k.ready && !w.k.sendEnc && !w.k.haveSession)
    && (3 <= Rank(w.phase) <= 6 ==> w.k.ready && w.k.sendEnc)
    && (4 <= Rank(w.phase) <= 6 ==> w.k.recvEnc)
    && (w.phase == Error ==> w.err) && |w.io.ob| <= SSH_OB_SZ
  }

  ghost predicate GateInv(w: World) {
    && (Rank(w.phase) <= 5 ==> !w.a.authenticated)
    && (w.phase == Session ==> w.a.authenticated)
    && (w.phase == Auth ==> w.a.fails < SSH_MAX_AUTH_TRIES)
    && (Rank(w.phase) < 5 ==> w.a.fails == 0)
    && (!w.a.authenticated ==> w.io.cin == [] && !w.ch.isOpen && !w.ch.shell)
    && |w.io.cin| < SSH_CIN_SZ
    && (w.ch.isOpen ==> w.k.sendEnc)
  }

  /** The client has granted at least what was sent and what may still be sent; our own window stays half open. */
  ghost predicate FlowInv(ch: Channel) {
    && ch.peerWindow < U32_LIMIT
    && (ch.isOpen ==> |ch.out| + ch.peerWindow <= ch.granted)
    && (!ch.isOpen ==> ch.out == [])
    && (ch.isOpen ==> SSH_LOCAL_WINDOW / 2 <= ch.localWindow <= SSH_LOCAL_WINDOW)
    && (ch.isOpen ==> ch.offered == ch.taken + ch.localWindow)
  }

  /** What no step ever undoes: the phase never moves back, keys once derived stay, nobody is thrown out of the
      authenticated state, and history is only appended to. */
  ghost predicate Forward(w: World, r: World) {
    && Rank(w.phase) <= Rank(r.phase)
    && (w.k.ready ==> r.k.ready && r.k.session == w.k.session && r.k.c2s == w.k.c2s && r.k.s2c == w.k.s2c)
    && (w.k.sendEnc ==> r.k.sendEnc) && (w.k.recvEnc ==> r.k.recvEnc)
    && (w.a.authenticated ==> r.a.authenticated)
    && w.io.log <= r.io.log && w.io.packets <= r.io.packets && w.ch.out <= r.ch.out
  }

  lemma ForwardTransitive(a: World, b: World, c: World)
    requires Forward(a, b) && Forward(b, c)
    ensures Forward(a, c)
  {
  }

  // ----- sending -----

  lemma LogNext(log: seq<Sealed>, packets: nat, key: seq<byte>, number: nat, payload: seq<byte>)
    requires LogOk(log, packets, key) && number == packets % U32_LIMIT
    ensures LogOk(log + [Sealed(key, number, packets, payload)], packets + 1, key)
    ensures LogOk(log, packets + 1, key)
  {
  }

  lemma NextNumber(p: nat)
    ensures (p % U32_LIMIT + 1) % U32_LIMIT == (p + 1) % U32_LIMIT
  {
  }

  /** Every packet sent, in the clear or sealed, takes the next number. */
  lemma SendSeals(h: Host, w: World, payload: seq<byte>)
    requires w.Shaped() && SealInv(w.k.s2c, w.k.sendEnc, w.sendSeq, w.io.packets, w.io.log)
    requires w.phase == Error ==> w.err
    ensures var r := Send(h, w, payload);
            && r.Shaped() && OnlySends(w, r) && SealInv(r.k.s2c, r.k.sendEnc, r.sendSeq, r.io.packets, r.io.log)
            && w.io.log <= r.io.log && w.io.packets <= r.io.packets && (r.phase == Error ==> r.err)
            && (Readable(h, w) ==> Readable(h, r))
  {
    hide LogOk, SendEnc, SendUnenc, Send, Wire, Readable;
    if Readable(h, w) {
      SendReads(h, w, payload);
    }
    LogNext(w.io.log, w.io.packets, w.k.s2c, w.sendSeq, payload);
    NextNumber(w.io.packets);
  }

  /** And what is sealed is queued as one more record for the client to open, or the connection fails. */
  lemma SendReads(h: Host, w: World, payload: seq<byte>)
    requires w.Shaped() && (w.phase == Error ==> w.err) && Readable(h, w)
    ensures Readable(h, Send(h, w, payload))
  {
    hide Send, SendEnc, SendUnenc, Wire, Readable, OnlySends, Open;
    var r := Send(h, w, payload);
    Unread(h, r);
    KeepsEnc(h, w, payload);
    if r.k.sendEnc && !r.err {
      Queued(h, w, payload);
      var e := Sealed(w.k.s2c, w.sendSeq, w.io.packets, payload);
      WireOpens(h, w, payload);
      ReadableNext(h, w, r, e, Wire(h, w, payload));
    }
  }

  lemma KeepsEnc(h: Host, w: World, payload: seq<byte>)
    requires w.Shaped()
    ensures Send(h, w, payload).k == w.k
  {
    hide Send;
  }

  /** A sealed packet that did not fail. */
  lemma Queued(h: Host, w: World, payload: seq<byte>)
    requires w.Shaped() && (w.phase == Error ==> w.err) && w.k.sendEnc && !Send(h, w, payload).err
    ensures var r := Send(h, w, payload);
            && |payload| <= SSH_ENC_MAX_PLEN && r.k == w.k && !w.err && r.sendSeq == (w.sendSeq + 1) % U32_LIMIT
            && r.io.log == w.io.log + [Sealed(w.k.s2c, w.sendSeq, w.io.packets, payload)] && r.io.mark == w.io.mark
            && r.io.sent + r.io.ob == w.io.sent + w.io.ob + Wire(h, w, payload)
  {
    hide Wire, OnlySends;
    var r := Append(Sealing(w, payload), Wire(h, w, payload));
    assert r.io.sent + r.io.ob == w.io.sent + w.io.ob + Wire(h, w, payload);
  }

  /** With no encryption yet, or after a failure, nothing is promised. */
  lemma Unread(h: Host, w: World)
    ensures !w.k.sendEnc || w.err ==> Readable(h, w)
  {
  }

  lemma WireOpens(h: Host, w: World, payload: seq<byte>)
    requires w.Shaped() && |payload| <= SSH_ENC_MAX_PLEN
    ensures var wire := Wire(h, w, payload); Open(h.keystream, w.k.s2c, w.sendSeq, wire) == Packet(payload, |wire|)
  {
    hide Seal, Open;
    var wire := Wire(h, w, payload);
    RecordRoundTrip(h.keystream, w.k.s2c, w.sendSeq, payload, h.Random(w.io.drawn, PadLen(|payload|)), []);
    assert wire + [] == wire;
  }

  /** A reply disturbs nothing but the output side; at worst the phase becomes Error. */
  lemma SendKeeps(h: Host, w: World, payload: seq<byte>)
    requires Inv(w)
    ensures Keeps(h, w, Send(h, w, payload)) && OnlySends(w, Send(h, w, payload))
  {
    hide SealInv, Follows, FlowInv, GateInv, Send, SendEnc, SendUnenc, Keeps;
    SendSeals(h, w, payload);
    SentKeeps(h, w, Send(h, w, payload));
  }

  lemma SentKeeps(h: Host, w: World, r: World)
    requires Inv(w) && r.Shaped() && OnlySends(w, r) && SealInv(r.k.s2c, r.k.sendEnc, r.sendSeq, r.io.packets, r.io.log)
    requires w.io.log <= r.io.log && w.io.packets <= r.io.packets && (Readable(h, w) ==> Readable(h, r))
    ensures Keeps(h, w, r)
  {
    hide SealInv, Follows, FlowInv;
  }

  /** What every event keeps, a flush in the error state included. */
  ghost predicate Inv(w: World) {
    KeyInv(w) && GateInv(w)
  }

  ghost predicate Safe(w: World, r: World) {
    Inv(r) && Forward(w, r)
  }

  /** Safe, and the client can still read everything. */
  ghost predicate Sound(h: Host, w: World, r: World) {
    Safe(w, r) && (Readable(h, w) ==> Readable(h, r))
  }

  /** Sound, honest about credit, and whatever is said is queued behind what was queued before. */
  ghost predicate Keeps(h: Host, w: World, r: World) {
    Sound(h, w, r) && (FlowInv(w.ch) ==> FlowInv(r.ch)) && r.io.sent == w.io.sent && w.io.ob <= r.io.ob
  }

  // ----- handlers -----

  lemma FailKeeps(h: Host, w: World)
    requires Inv(w)
    ensures Keeps(h, w, Fail(w)) && Fail(w).phase == Error && Fail(w).a == w.a && Fail(w).io == w.io
  {
    hide SealInv, Follows, FlowInv;
    Unread(h, Fail(w));
  }

  lemma KexinitKeeps(h: Host, w: World, pl: seq<byte>)
    requires Inv(w) && w.phase == ExpectKexinit
    ensures Keeps(h, w, HandleKexinit(w, pl)) && HandleKexinit(w, pl).a == w.a
  {
    hide SealInv, Follows, FlowInv, Negotiate, FirstHalf;
    Unread(h, HandleKexinit(w, pl));
  }

  lemma EcdhKeeps(h: Host, w: World, pl: seq<byte>)
    requires Inv(w) && w.phase == ExpectEcdhInit
    ensures Keeps(h, w, HandleEcdhInit(h, w, pl)) && HandleEcdhInit(h, w, pl).a == w.a
  {
    hide SealInv, Follows, FlowInv, Send, Mpint, ExchangeHash, KexReply, KsBlob, SwitchKeys, BeValue, Keeps, GateInv;
    if !w.x.discardNext && |pl| >= 37 && BeValue(pl[1..5]) == 32 {
      var qc := pl[5..37];
      var sk := h.Random(w.io.drawn, 32);
      var w0 := w.(io := w.io.(drawn := w.io.drawn + 32));
      var qs := seq(32, i requires 0 <= i => h.x25519Public(sk, i));
      var raw := SharedSecret(h, sk, qc);
      var mpint := Mpint(raw);
      var hash := ExchangeHash(w.x.transcript, KsBlob(h), qc, qs, mpint);
      DrawKeeps(h, w, 32);
      FailKeeps(h, w0);
      KeepsTransitive(h, w, w0, Fail(w0));
      EcdhSends(h, w0, KexReply(h, qs, hash), mpint, hash);
      KeepsTransitive(h, w, w0, SwitchKeys(h, w0, KexReply(h, qs, hash), mpint, hash));
    } else {
      FailKeeps(h, w);
      Ignored(h, w);
    }
  }

  lemma DrawKeeps(h: Host, w: World, n: nat)
    requires Inv(w)
    ensures Keeps(h, w, w.(io := w.io.(drawn := w.io.drawn + n))) && Inv(w.(io := w.io.(drawn := w.io.drawn + n)))
  {
    hide SealInv, Follows, FlowInv;
  }

  lemma Ignored(h: Host, w: World)
    requires Inv(w)
    ensures Keeps(h, w, w.(x := w.x.(discardNext := false))) && Keeps(h, w, w)
  {
    hide SealInv, Follows, FlowInv;
  }

  /** The reply and NEWKEYS both go out in the clear, so the new key meets an empty log. */
  lemma EcdhSends(h: Host, w: World, reply: seq<byte>, mpint: seq<byte>, hash: seq<byte>)
    requires Inv(w) && w.phase == ExpectEcdhInit && |hash| == 32
    ensures Keeps(h, w, SwitchKeys(h, w, reply, mpint, hash)) && SwitchKeys(h, w, reply, mpint, hash).a == w.a
  {
    hide SealInv, Follows, FlowInv, GateInv, Send, SendEnc, SendUnenc, NewKeys, Readable, Keeps;
    var w1 := Send(h, w, reply);
    SendSeals(h, w, reply);
    var w2 := w1.(k := NewKeys(w1.k, mpint, hash));
    Rekeyed(w1.k.s2c, w2.k.s2c, w1.sendSeq, w1.io.packets, w1.io.log);
    SendSeals(h, w2, [MSG_NEWKEYS]);
    Switched(h, w, Send(h, w2, [MSG_NEWKEYS]));
  }

  lemma Switched(h: Host, w: World, s: World)
    requires Inv(w) && w.phase == ExpectEcdhInit
    requires s.Shaped() && SealInv(s.k.s2c, false, s.sendSeq, s.io.packets, s.io.log) && |s.io.ob| <= SSH_OB_SZ
    requires s.ch == w.ch && s.a == w.a && s.io.cin == w.io.cin && s.io.sent == w.io.sent
    requires w.io.ob <= s.io.ob
    requires s.k.ready && |s.k.session| == 32 && s.k.recvEnc == w.k.recvEnc
    requires w.io.log <= s.io.log && w.io.packets <= s.io.packets
    ensures Keeps(h, w, s.(k := s.k.(sendEnc := true), phase := ExpectNewkeys,
        io := s.io.(mark := |s.io.sent| + |s.io.ob|)))
  {
    hide SealInv, Follows, FlowInv;
    Rekeyed(s.k.s2c, s.k.s2c, s.sendSeq, s.io.packets, s.io.log);
    NothingSealed(s.k.s2c, s.sendSeq, s.io.packets, s.io.log);
    FollowsNothing(h.keystream, s.k.s2c, s.err, s.sendSeq, s.io.sent + s.io.ob);
  }

  lemma NothingSealed(key: seq<byte>, sendSeq: nat, packets: nat, log: seq<Sealed>)
    requires SealInv(key, false, sendSeq, packets, log)
    ensures log == []
  {
  }

  lemma Rekeyed(key: seq<byte>, renewed: seq<byte>, sendSeq: nat, packets: nat, log: seq<Sealed>)
    requires SealInv(key, false, sendSeq, packets, log)
    ensures SealInv(renewed, false, sendSeq, packets, log) && SealInv(renewed, true, sendSeq, packets, log)
  {
  }

  lemma ServiceKeeps(h: Host, w: World, pl: seq<byte>)
    requires Inv(w) && w.phase == ExpectService
    ensures Keeps(h, w, HandleServiceRequest(h, w, pl)) && HandleServiceRequest(h, w, pl).a == w.a
  {
    hide SealInv, Follows, FlowInv, GateInv, Send, BeValue, ServiceAccept, Fail, Keeps;
    FailKeeps(h, w);
    if |pl| >= 5 && 5 + BeValue(pl[1..5]) <= |pl| {
      var name := pl[5..5 + BeValue(pl[1..5])];
      var v := w.(x := w.x.(svcName := name, done := true));
      SendSeals(h, v, ServiceAccept(name));
      Served(h, w, Send(h, v, ServiceAccept(name)));
    }
  }

  lemma Served(h: Host, w: World, s: World)
    requires Inv(w) && w.phase == ExpectService
    requires s.Shaped() && SealInv(s.k.s2c, s.k.sendEnc, s.sendSeq, s.io.packets, s.io.log)
    requires s.k == w.k && s.ch == w.ch && s.a == w.a && s.io.cin == w.io.cin && w.io.log <= s.io.log
    requires w.io.packets <= s.io.packets && |s.io.ob| <= SSH_OB_SZ && (Readable(h, w) ==> Readable(h, s))
    requires s.io.sent == w.io.sent && w.io.ob <= s.io.ob
    ensures Keeps(h, w, s.(phase := Auth))
  {
    hide SealInv, Follows, FlowInv;
  }

  /** A packet has been sent and then the phase and the gate set. */
  lemma Assemble(h: Host, w: World, s: World, r: World)
    requires Inv(w) && w.phase == Auth
    requires s.Shaped() && SealInv(s.k.s2c, s.k.sendEnc, s.sendSeq, s.io.packets, s.io.log)
    requires s.k == w.k && s.ch == w.ch && s.io.cin == w.io.cin && w.io.log <= s.io.log && w.io.packets <= s.io.packets
    requires r.k == s.k && r.io == s.io && r.sendSeq == s.sendSeq && r.recvSeq == s.recvSeq && r.ch == s.ch
    requires r.phase in {Auth, Session, Closed, Error} && (r.phase == Session <==> r.a.authenticated)
    requires r.phase == Auth ==> r.a.fails < SSH_MAX_AUTH_TRIES
    requires r.err == s.err && (r.phase == Error ==> r.err) && (Readable(h, w) ==> Readable(h, s))
    requires |s.io.ob| <= SSH_OB_SZ && s.io.sent == w.io.sent && w.io.ob <= s.io.ob
    ensures Keeps(h, w, r)
  {
    hide SealInv, Follows, FlowInv;
  }

  lemma AcceptKeeps(h: Host, w: World)
    requires Inv(w) && w.phase == Auth
    ensures Keeps(h, w, Accept(h, w)) && Accept(h, w).io.cin == w.io.cin
  {
    hide SealInv, Follows, FlowInv, Send, Keeps;
    SendSeals(h, w, [MSG_USERAUTH_SUCCESS]);
    Assemble(h, w, Send(h, w, [MSG_USERAUTH_SUCCESS]), Accept(h, w));
  }

  lemma RejectKeeps(h: Host, w: World, counted: bool)
    requires Inv(w) && w.phase == Auth
    ensures Keeps(h, w, Reject(h, w, counted)) && Reject(h, w, counted).io.cin == w.io.cin
  {
    hide SealInv, Follows, FlowInv, Keeps, Refuse;
    RefuseKeeps(h, w, w.a.(fails := w.a.fails + if counted then 1 else 0));
  }

  lemma RefuseKeeps(h: Host, w: World, a: Gate)
    requires Inv(w) && w.phase == Auth && !a.authenticated
    ensures Keeps(h, w, Refuse(h, w.(a := a))) && Refuse(h, w.(a := a)).io.cin == w.io.cin
  {
    hide SealInv, Follows, FlowInv, GateInv, Send, Keeps, AuthFailure, NoMoreAuth, SendEnc, SendUnenc;
    var f := w.(a := a);
    if a.fails >= SSH_MAX_AUTH_TRIES {
      SendSeals(h, f, NoMoreAuth());
      Assemble(h, w, Send(h, f, NoMoreAuth()), Refuse(h, f));
    } else {
      SendSeals(h, f, AuthFailure(h));
      Assemble(h, w, Send(h, f, AuthFailure(h)), Refuse(h, f));
    }
  }

  lemma PkOkKeeps(h: Host, w: World, algo: seq<byte>, blob: seq<byte>)
    requires Inv(w) && w.phase == Auth
    ensures Keeps(h, w, SendPkOk(h, w, algo, blob)) && SendPkOk(h, w, algo, blob).io.cin == w.io.cin
  {
    hide SealInv, Follows, FlowInv, GateInv, Send, Reject, Keeps, PkOk;
    RejectKeeps(h, w, true);
    SendKeeps(h, w, PkOk(algo, blob));
  }

  lemma PubkeyKeeps(h: Host, w: World, pl: seq<byte>, o: nat, user: seq<byte>, service: seq<byte>)
    requires Inv(w) && w.phase == Auth
    ensures Keeps(h, w, HandlePubkey(h, w, pl, o, user, service))
    ensures HandlePubkey(h, w, pl, o, user, service).io.cin == w.io.cin
  {
    hide SealInv, Follows, FlowInv, GateInv, Send, Reject, RdString, SendPkOk, Accept, Ed25519Part, SignedData, Str,
         Ascii, Keeps;
    RejectKeeps(h, w, true);
    AcceptKeeps(h, w);
    var a := RdString(pl, o + 1);
    if a.Got? {
      var b := RdString(pl, a.next);
      if b.Got? {
        PkOkKeeps(h, w, a.value, b.value);
      }
    }
  }

  lemma PasswordKeeps(h: Host, w: World, pl: seq<byte>, o: nat)
    requires Inv(w) && w.phase == Auth
    ensures Keeps(h, w, HandlePassword(h, w, pl, o)) && HandlePassword(h, w, pl, o).io.cin == w.io.cin
  {
    hide SealInv, Follows, FlowInv, GateInv, Send, Reject, RdString, Accept, Keeps;
    RejectKeeps(h, w, true);
    AcceptKeeps(h, w);
  }

  /** The recorded user name is informational. */
  lemma UserKeeps(h: Host, w: World, user: seq<byte>)
    requires Inv(w)
    ensures Inv(w.(a := w.a.(user := user)))
    ensures forall r :: Keeps(h, w.(a := w.a.(user := user)), r) ==> Keeps(h, w, r)
  {
    hide SealInv, Follows, FlowInv;
  }

  lemma UserauthKeeps(h: Host, w: World, pl: seq<byte>)
    requires Inv(w) && w.phase == Auth
    ensures Keeps(h, w, HandleUserauth(h, w, pl)) && HandleUserauth(h, w, pl).io.cin == w.io.cin
  {
    hide SealInv, Follows, FlowInv, GateInv, Send, Reject, RdString, Accept, HandlePubkey, HandlePassword, Ascii, Fail,
         Keeps;
    FailKeeps(h, w);
    var r1 := RdString(pl, 1);
    if r1.Got? {
      var r2 := RdString(pl, r1.next);
      if r2.Got? {
        var r3 := RdString(pl, r2.next);
        if r3.Got? {
          var name := if |r1.value| < 63 then r1.value else r1.value[..63];
          var u := w.(a := w.a.(user := name));
          UserKeeps(h, w, name);
          AcceptKeeps(h, u);
          RejectKeeps(h, u, true);
          RejectKeeps(h, u, r3.value != Ascii("none"));
          PubkeyKeeps(h, u, pl, r3.next, r1.value, r2.value);
          PasswordKeeps(h, u, pl, r3.next);
        }
      }
    }
  }

  // ----- the channel -----

  /** A session step that leaves keys, gate and history alone. */
  lemma ChannelKeeps(h: Host, w: World, ch: Channel)
    requires Inv(w) && w.phase == Session && (FlowInv(w.ch) ==> FlowInv(ch)) && (w.ch.isOpen ==> ch.isOpen)
    requires w.ch.out <= ch.out
    ensures Keeps(h, w, w.(ch := ch))
  {
    hide SealInv, Follows, FlowInv;
  }

  lemma KeepsTransitive(h: Host, a: World, b: World, c: World)
    requires Keeps(h, a, b) && Keeps(h, b, c)
    ensures Keeps(h, a, c)
  {
    hide Inv;
  }

  lemma AnswerKeeps(h: Host, w: World, name: seq<byte>, sender: nat, window: nat, maxpkt: nat)
    requires Inv(w) && w.phase == Session && window < U32_LIMIT
    ensures Keeps(h, w, AnswerOpen(h, w, name, sender, window, maxpkt))
  {
    hide SealInv, Follows, FlowInv, GateInv, Send, Ascii, Keeps, OpenFailure, OpenConfirmation, OpenedBy;
    if w.ch.isOpen || name != Ascii("session") {
      SendKeeps(h, w, OpenFailure(sender, if w.ch.isOpen then 1 else 3));
    } else {
      Opens(w.ch, sender, window, maxpkt);
      ChannelReply(h, w, OpenedBy(w.ch, sender, window, maxpkt), OpenConfirmation(sender));
    }
  }

  lemma ChannelOpenKeeps(h: Host, w: World, pl: seq<byte>)
    requires Inv(w) && w.phase == Session
    ensures Keeps(h, w, HandleChannelOpen(h, w, pl))
  {
    hide SealInv, Follows, FlowInv, GateInv, BeValue, Fail, Keeps, AnswerOpen;
    FailKeeps(h, w);
    if |pl| >= 5 && 5 + BeValue(pl[1..5]) + 12 <= |pl| {
      var o := 5 + BeValue(pl[1..5]);
      AnswerKeeps(h, w, pl[5..o], BeValue(pl[o..o + 4]), BeValue(pl[o + 4..o + 8]), BeValue(pl[o + 8..o + 12]));
    }
  }

  /** The channel is updated and the client told. */
  lemma ChannelReply(h: Host, w: World, ch: Channel, reply: seq<byte>)
    requires Inv(w) && w.phase == Session && (FlowInv(w.ch) ==> FlowInv(ch)) && (w.ch.isOpen ==> ch.isOpen)
    requires w.ch.out <= ch.out
    ensures Keeps(h, w, w.(ch := ch)) && Keeps(h, w, Send(h, w.(ch := ch), reply))
  {
    hide SealInv, Follows, FlowInv, GateInv, Send, Keeps;
    ChannelKeeps(h, w, ch);
    OpenedInv(h, w, w.(ch := ch));
    SendKeeps(h, w.(ch := ch), reply);
    KeepsTransitive(h, w, w.(ch := ch), Send(h, w.(ch := ch), reply));
  }

  lemma OpenedInv(h: Host, w: World, r: World)
    requires Keeps(h, w, r)
    ensures Inv(r)
  {
    hide Inv;
  }

  lemma Opens(ch: Channel, sender: nat, window: nat, maxpkt: nat)
    requires !ch.isOpen && window < U32_LIMIT
    ensures var r := OpenedBy(ch, sender, window, maxpkt); (FlowInv(ch) ==> FlowInv(r)) && r.isOpen && ch.out <= r.out
  {
  }

  /** Requests touch neither windows nor history. */
  lemma RequestFrame(ch: Channel, name: seq<byte>, pl: seq<byte>, o: nat)
    ensures var r := Request(ch, name, pl, o).0;
            && r.isOpen == ch.isOpen && r.peerWindow == ch.peerWindow && r.localWindow == ch.localWindow
            && r.granted == ch.granted
            && r.out == ch.out && r.offered == ch.offered && r.taken == ch.taken
  {
    hide Ascii, BeValue, WithSize;
    if o + 4 <= |pl| {
      SizeFrame(ch, pl, o + 4 + BeValue(pl[o..o + 4]));
    }
    SizeFrame(ch, pl, o);
  }

  lemma SizeFrame(ch: Channel, pl: seq<byte>, o: nat)
    ensures var r := WithSize(ch, pl, o);
            && r.isOpen == ch.isOpen && r.peerWindow == ch.peerWindow && r.localWindow == ch.localWindow
            && r.granted == ch.granted
            && r.out == ch.out && r.offered == ch.offered && r.taken == ch.taken
  {
    hide BeValue;
  }

  lemma FlowSame(ch: Channel, r: Channel)
    requires r.isOpen == ch.isOpen && r.peerWindow == ch.peerWindow && r.localWindow == ch.localWindow
    requires r.granted == ch.granted && r.out == ch.out && r.offered == ch.offered && r.taken == ch.taken
    ensures FlowInv(ch) ==> FlowInv(r)
  {
  }

  lemma RequestFlow(ch: Channel, name: seq<byte>, pl: seq<byte>, o: nat)
    ensures var r := Request(ch, name, pl, o).0;
            r.isOpen == ch.isOpen && ch.out <= r.out && (FlowInv(ch) ==> FlowInv(r))
  {
    hide Request, FlowInv;
    RequestFrame(ch, name, pl, o);
    FlowSame(ch, Request(ch, name, pl, o).0);
  }

  lemma AnswerRequestKeeps(h: Host, w: World, ch: Channel, granted: bool, wantReply: bool)
    requires Inv(w) && w.phase == Session && (FlowInv(w.ch) ==> FlowInv(ch)) && (w.ch.isOpen ==> ch.isOpen)
    requires w.ch.out <= ch.out
    ensures Keeps(h, w, AnswerRequest(h, w.(ch := ch), granted, wantReply))
  {
    hide SealInv, Follows, FlowInv, GateInv, Send, ToChannel, Keeps;
    ChannelReply(h, w, ch, ToChannel(if granted then MSG_CHANNEL_SUCCESS else MSG_CHANNEL_FAILURE, ch.peer));
  }

  lemma ChannelRequestKeeps(h: Host, w: World, pl: seq<byte>)
    requires Inv(w) && w.phase == Session
    ensures Keeps(h, w, HandleChannelRequest(h, w, pl))
  {
    hide SealInv, Follows, FlowInv, GateInv, AnswerRequest, BeValue, Request, Keeps;
    Ignored(h, w);
    if |pl| >= 9 && 9 + BeValue(pl[5..9]) + 1 <= |pl| {
      var o := 9 + BeValue(pl[5..9]);
      var q := Request(w.ch, pl[9..o], pl, o + 1);
      RequestFlow(w.ch, pl[9..o], pl, o + 1);
      AnswerRequestKeeps(h, w, q.0, q.1, pl[o] != 0);
    }
  }

  lemma DataKeeps(h: Host, w: World, pl: seq<byte>)
    requires Inv(w) && w.phase == Session && |pl| <= SSH_IB_SZ
    ensures Keeps(h, w, HandleChannelData(h, w, pl))
  {
    hide SealInv, Follows, FlowInv, Send, BeValue, BeBytes, Typed, Consume;
    if |pl| >= 9 {
      var said := BeValue(pl[5..9]);
      var n := if 9 + said > |pl| then |pl| - 9 else said;
      var t := w.(io := w.io.(cin := Typed(w.io.cin, pl[9..9 + n])));
      assert Keeps(h, w, t);
      ConsumeKeeps(h, t, n);
      KeepsTransitive(h, w, t, Consume(h, t, n));
    }
  }

  lemma ConsumeKeeps(h: Host, w: World, n: nat)
    requires Inv(w) && w.phase == Session && n <= SSH_IB_SZ
    ensures Keeps(h, w, Consume(h, w, n))
  {
    hide SealInv, Follows, FlowInv, Keeps, GateInv, TopUp, Taken;
    TakenFlow(w.ch, n);
    var ch := Taken(w.ch, n);
    if ch.localWindow >= SSH_LOCAL_WINDOW / 2 {
      ChannelKeeps(h, w, ch);
    } else {
      TopUpKeeps(h, w, ch);
    }
  }

  /** Data taken comes off the window, and an adjustment offers exactly what was used. */
  lemma TakenFlow(ch: Channel, n: nat)
    requires n <= SSH_IB_SZ
    ensures var t := Taken(ch, n);
            && t.isOpen == ch.isOpen && t.shell == ch.shell && t.out == ch.out
            && (FlowInv(ch) && t.localWindow >= SSH_LOCAL_WINDOW / 2 ==> FlowInv(t))
            && (FlowInv(ch) && t.localWindow <= SSH_LOCAL_WINDOW ==> FlowInv(Topped(t)))
  {
  }

  lemma TopUpKeeps(h: Host, w: World, ch: Channel)
    requires Inv(w) && w.phase == Session && ch.isOpen == w.ch.isOpen && ch.shell == w.ch.shell && ch.out == w.ch.out
    requires ch.localWindow <= SSH_LOCAL_WINDOW && (FlowInv(w.ch) ==> FlowInv(Topped(ch)))
    ensures Keeps(h, w, TopUp(h, w.(ch := ch)))
  {
    hide SealInv, Follows, FlowInv, Send, WindowAdjust, Keeps, GateInv, TopUp;
    var v := w.(ch := ch);
    var p := WindowAdjust(v.ch.peer, SSH_LOCAL_WINDOW - v.ch.localWindow);
    SendSeals(h, v, p);
    var s := Send(h, v, p);
    TopUpIs(h, v);
    ToppedUp(h, w, s, TopUp(h, v));
  }

  lemma TopUpIs(h: Host, v: World)
    requires v.Shaped() && v.ch.localWindow <= SSH_LOCAL_WINDOW
    ensures var s := Send(h, v, WindowAdjust(v.ch.peer, SSH_LOCAL_WINDOW - v.ch.localWindow));
            s.ch == v.ch && TopUp(h, v) == s.(ch := Topped(v.ch))
  {
    hide Send, WindowAdjust, SendEnc, SendUnenc, Wire;
  }

  lemma ToppedUp(h: Host, w: World, s: World, r: World)
    requires Inv(w) && w.phase == Session
    requires s.Shaped() && SealInv(s.k.s2c, s.k.sendEnc, s.sendSeq, s.io.packets, s.io.log)
    requires s.k == w.k && s.io.cin == w.io.cin && w.io.log <= s.io.log && w.io.packets <= s.io.packets
    requires r.k == s.k && r.io == s.io && r.sendSeq == s.sendSeq && r.recvSeq == s.recvSeq && r.a == w.a
    requires FlowInv(w.ch) ==> FlowInv(r.ch)
    requires r.ch.isOpen == w.ch.isOpen && r.ch.shell == w.ch.shell && r.ch.out == w.ch.out
    requires r.phase == Session || (r.phase == Error && r.err)
    requires r.err == s.err && (Readable(h, w) ==> Readable(h, s)) && |s.io.ob| <= SSH_OB_SZ
    requires s.io.sent == w.io.sent && w.io.ob <= s.io.ob
    ensures Keeps(h, w, r)
  {
    hide SealInv, Follows, FlowInv;
  }

  lemma AdjustKeeps(h: Host, w: World, pl: seq<byte>)
    requires Inv(w) && w.phase == Session
    ensures Keeps(h, w, HandleWindowAdjust(w, pl))
  {
    hide SealInv, Follows, BeValue;
  }

  lemma GlobalKeeps(h: Host, w: World, pl: seq<byte>)
    requires Inv(w)
    ensures Keeps(h, w, HandleGlobalRequest(h, w, pl)) && HandleGlobalRequest(h, w, pl).a == w.a
  {
    hide SealInv, Follows, FlowInv, Send, BeValue;
    SendKeeps(h, w, [MSG_REQUEST_FAILURE]);
  }

  // ----- channel data -----

  /** A channel update that opens and closes nothing. */
  lemma ChannelSame(h: Host, w: World, ch: Channel)
    requires Inv(w) && (FlowInv(w.ch) ==> FlowInv(ch))
    requires ch.isOpen == w.ch.isOpen && ch.shell == w.ch.shell && w.ch.out <= ch.out
    ensures Keeps(h, w, w.(ch := ch))
  {
    hide SealInv, Follows, FlowInv;
  }

  /** Data sent is paid for out of the window. */
  lemma PaysFor(ch: Channel, data: seq<byte>)
    requires ch.isOpen && |data| <= ch.peerWindow
    ensures var r := Paid(ch.(out := ch.out + data), |data|);
            && (FlowInv(ch) ==> FlowInv(r)) && r.isOpen && r.shell == ch.shell && ch.out <= r.out == ch.out + data
            && |r.out| + r.peerWindow == |ch.out| + ch.peerWindow && r.closed == ch.closed && r.granted == ch.granted
  {
  }

  /** One chunk of ssh_channel_flush: with the room the loop reserves, the packet always fits. */
  lemma ChunkKeeps(h: Host, w: World, data: seq<byte>)
    requires Inv(w) && w.ch.isOpen && w.phase != Error && 0 < |data| <= SSH_CHAN_CHUNK && |data| <= w.ch.peerWindow
    requires |w.io.ob| + |data| + 64 <= SSH_OB_SZ
    ensures var s := SendData(h, w, data); s.phase == w.phase && Keeps(h, w, s.(ch := Paid(s.ch, |data|)))
  {
    hide SealInv, Follows, FlowInv, SendEnc, SendUnenc, Send, Keeps, DataPacket, Paid;
    PaysFor(w.ch, data);
    var p := DataPacket(w.ch, data);
    SendKeeps(h, w, p);
    assert w.k.sendEnc;
    var s := Send(h, w, p);
    assert s.phase == w.phase;
    OpenedInv(h, w, s);
    var ch := Paid(w.ch.(out := w.ch.out + data), |data|);
    ChannelSame(h, s, ch);
    KeepsTransitive(h, w, s, s.(ch := ch));
  }

  /** The flush loop sends a prefix of what is staged, in order, each byte once, and pays for all of it. */
  lemma {:induction false} FlushFromKeeps(h: Host, w: World, sent: nat)
    requires Inv(w) && w.ch.isOpen && w.phase != Error && sent <= |w.io.cout|
    ensures var r := FlushFrom(h, w, sent);
            && Keeps(h, w, r.0) && r.0.phase == w.phase && r.0.ch.isOpen && r.0.ch.closed == w.ch.closed
            && r.0.ch.out == w.ch.out + w.io.cout[sent..r.1]
            && |r.0.ch.out| + r.0.ch.peerWindow == |w.ch.out| + w.ch.peerWindow
    decreases |w.io.cout| - sent
  {
    hide SealInv, Follows, FlowInv, GateInv, Keeps, SendData, Allowance, Paid, FlushFrom, Rank;
    Ignored(h, w);
    FlushUnfolds(h, w, sent);
    var take := Allowance(w.ch, |w.io.cout| - sent);
    if sent >= |w.io.cout| || take == 0 || |w.io.ob| + take + 64 > SSH_OB_SZ {
    } else {
      var data := w.io.cout[sent..sent + take];
      ChunkKeeps(h, w, data);
      PaysFor(w.ch, data);
      var s := SendData(h, w, data);
      var t := s.(ch := Paid(s.ch, take));
      OpenedInv(h, w, t);
      FlushFromKeeps(h, t, sent + take);
      var r := FlushFrom(h, t, sent + take);
      KeepsTransitive(h, w, t, r.0);
      assert data + w.io.cout[sent + take..r.1] == w.io.cout[sent..r.1];
    }
  }

  lemma FlushUnfolds(h: Host, w: World, sent: nat)
    requires w.Shaped() && sent <= |w.io.cout|
    ensures var take := Allowance(w.ch, |w.io.cout| - sent);
            FlushFrom(h, w, sent) ==
            if sent >= |w.io.cout| || take == 0 || |w.io.ob| + take + 64 > SSH_OB_SZ then (w, sent)
            else
              var s := SendData(h, w, w.io.cout[sent..sent + take]);
              if s.phase == Error then (s, sent) else FlushFrom(h, s.(ch := Paid(s.ch, take)), sent + take)
  {
    hide SendData, Allowance, Paid;
  }

  lemma CoutKeeps(h: Host, w: World, cout: seq<byte>)
    requires Inv(w)
    ensures Keeps(h, w, w.(io := w.io.(cout := cout)))
  {
    hide SealInv, Follows, FlowInv;
  }

  /** ssh_channel_flush, unless it repeats itself: what is staged is split into what went out and what stays, and all
      that went out is paid for. */
  lemma FlushKeeps(h: Host, w: World)
    requires Inv(w) && !Repeats(w)
    ensures Keeps(h, w, Flush(h, w)) && Flush(h, w).phase == w.phase && Flush(h, w).ch.isOpen == w.ch.isOpen
    ensures w.ch.isOpen && !w.ch.closed ==> Flush(h, w).ch.out + Flush(h, w).io.cout == w.ch.out + w.io.cout
    ensures |Flush(h, w).ch.out| + Flush(h, w).ch.peerWindow == |w.ch.out| + w.ch.peerWindow
  {
    hide SealInv, Follows, FlowInv, GateInv, Keeps, FlushFrom;
    CoutKeeps(h, w, []);
    if w.ch.isOpen && !w.ch.closed {
      if w.phase == Error {
        Ignored(h, w);
        FlushUnfolds(h, w, 0);
      } else {
        FlushFromKeeps(h, w, 0);
      }
      var r := FlushFrom(h, w, 0);
      OpenedInv(h, w, r.0);
      CoutKeeps(h, r.0, w.io.cout[r.1..]);
      KeepsTransitive(h, w, r.0, r.0.(io := r.0.io.(cout := w.io.cout[r.1..])));
      assert w.io.cout[0..r.1] + w.io.cout[r.1..] == w.io.cout;
    }
  }

  /** In the error state a flush that sends at all sends its chunk without paying for it or taking it off the
      staging buffer, so the same bytes go out again next time. */
  predicate Repeats(w: World) {
    && w.phase == Error && w.ch.isOpen && !w.ch.closed && |w.io.cout| > 0
    && Allowance(w.ch, |w.io.cout|) > 0 && |w.io.ob| + Allowance(w.ch, |w.io.cout|) + 64 <= SSH_OB_SZ
  }

  lemma FlushRepeats(h: Host, w: World)
    requires w.Shaped() && Repeats(w) && w.k.sendEnc
    ensures var r, take := Flush(h, w), Allowance(w.ch, |w.io.cout|);
            && r.phase == Error && r.io.cout == w.io.cout && r.ch == w.ch.(out := w.ch.out + w.io.cout[..take])
            && r.k == w.k && |r.io.ob| <= |w.io.ob| + take + 41
  {
    hide SendData, Allowance, Paid, FlushFrom;
    var take := Allowance(w.ch, |w.io.cout|);
    var data := w.io.cout[0..take];
    ErrorStays(h, w, data);
    FlushUnfolds(h, w, 0);
    assert data == w.io.cout[..take] && w.io.cout[0..] == w.io.cout;
  }

  /** Even then the flush seals under the next number and opens no gate. */
  lemma FlushSafe(h: Host, w: World)
    requires Inv(w)
    ensures Sound(h, w, Flush(h, w)) && Flush(h, w).ch.sentClose == w.ch.sentClose && Flush(h, w).a == w.a
  {
    hide SealInv, Follows, FlowInv, GateInv, Forward, FlushFrom, SendData, Allowance, Paid, Repeats;
    if Repeats(w) {
      RepeatSafe(h, w);
    } else {
      FlushKeeps(h, w);
      FlushFrames(h, w);
    }
  }

  lemma RepeatSafe(h: Host, w: World)
    requires Inv(w) && Repeats(w)
    ensures Sound(h, w, Flush(h, w)) && Flush(h, w).ch.sentClose == w.ch.sentClose && Flush(h, w).a == w.a
  {
    hide Inv, Forward, FlushFrom, SendData, Allowance, Paid;
    var take := Allowance(w.ch, |w.io.cout|);
    var data := w.io.cout[0..take];
    InvShaped(w);
    ErrorStays(h, w, data);
    FlushUnfolds(h, w, 0);
    SendDataSafe(h, w, data);
    assert w.io.cout[0..] == w.io.cout;
    assert Flush(h, w) == SendData(h, w, data);
  }

  lemma InvShaped(w: World)
    requires Inv(w)
    ensures w.Shaped()
  {
  }

  /** A data packet disturbs neither keys nor gate. */
  lemma SendDataSafe(h: Host, w: World, data: seq<byte>)
    requires Inv(w)
    ensures Sound(h, w, SendData(h, w, data)) && SendData(h, w, data).a == w.a
  {
    hide SealInv, Follows, FlowInv, GateInv, Send, DataPacket, Forward, Sound;
    var p := DataPacket(w.ch, data);
    SendKeeps(h, w, p);
    var s := Send(h, w, p);
    ChannelSafe(h, w, s, s.ch.(out := s.ch.out + data));
  }

  /** History may be added to without touching keys or gate. */
  lemma ChannelSafe(h: Host, w: World, s: World, ch: Channel)
    requires Sound(h, w, s) && ch.isOpen == s.ch.isOpen && ch.shell == s.ch.shell && s.ch.out <= ch.out
    ensures Sound(h, w, s.(ch := ch))
  {
    hide SealInv, Follows;
  }

  /** A flush changes neither the gate nor how far the channel is closed. */
  lemma FlushFrames(h: Host, w: World)
    requires w.Shaped()
    ensures Flush(h, w).a == w.a && Flush(h, w).ch.sentClose == w.ch.sentClose && Flush(h, w).recvSeq == w.recvSeq
  {
    hide FlushFrom;
    FlushFromFrames(h, w, 0);
  }

  lemma {:induction false} FlushFromFrames(h: Host, w: World, sent: nat)
    requires w.Shaped() && sent <= |w.io.cout|
    ensures FlushFrom(h, w, sent).0.a == w.a && FlushFrom(h, w, sent).0.ch.sentClose == w.ch.sentClose
    ensures FlushFrom(h, w, sent).0.recvSeq == w.recvSeq
    ensures var ch := FlushFrom(h, w, sent).0.ch;
            && ch.granted == w.ch.granted && ch.taken == w.ch.taken && ch.peer == w.ch.peer
            && ch.peerMaxpkt == w.ch.peerMaxpkt
    decreases |w.io.cout| - sent
  {
    hide FlushFrom, Allowance, Send, DataPacket;
    FlushUnfolds(h, w, sent);
    var take := Allowance(w.ch, |w.io.cout| - sent);
    if sent >= |w.io.cout| || take == 0 || |w.io.ob| + take + 64 > SSH_OB_SZ {
    } else {
      var s := SendData(h, w, w.io.cout[sent..sent + take]);
      if s.phase != Error {
        FlushFromFrames(h, s.(ch := Paid(s.ch, take)), sent + take);
      }
    }
  }

  /** Credit is conserved by a flush if and only if it is not one of those. */
  lemma FlushConservesIff(h: Host, w: World)
    requires Inv(w)
    ensures |Flush(h, w).ch.out| + Flush(h, w).ch.peerWindow == |w.ch.out| + w.ch.peerWindow <==> !Repeats(w)
  {
    hide SealInv, Follows, FlowInv, SendData, Allowance, Paid;
    if w.phase != Error {
      FlushKeeps(h, w);
    } else if Repeats(w) {
      FlushRepeats(h, w);
    } else {
      assert w.ch.isOpen && !w.ch.closed ==> FlushFrom(h, w, 0) == (w, 0);
    }
  }

  lemma ErrorStays(h: Host, w: World, data: seq<byte>)
    requires w.Shaped() && w.phase == Error
    ensures SendData(h, w, data).phase == Error && SendData(h, w, data).k == w.k
    ensures w.k.sendEnc ==> |SendData(h, w, data).io.ob| <= |w.io.ob| + |data| + 41
  {
    hide Send, Wire, DataPacket;
  }

  /** ssh_channel_emit pays for every byte, in any phase; a refusal changes nothing. */
  lemma EmitKeeps(h: Host, w: World, plain: seq<byte>, outmax: nat)
    requires Inv(w)
    ensures var r := Emit(h, w, plain, outmax);
            && Safe(w, r.0) && (FlowInv(w.ch) ==> FlowInv(r.0.ch))
            && |r.0.ch.out| + r.0.ch.peerWindow == |w.ch.out| + w.ch.peerWindow
            && (w.io.ob == [] ==> Sound(h, w, r.0))
            && (r.1 == [] ==> r.0 == w)
            && (r.1 != [] ==> r.0.ch.out == w.ch.out + plain && |plain| < |r.1| <= |plain| + 41)
  {
    hide SealInv, Follows, FlowInv, GateInv, Inv, Forward, Readable, Emitted, Wire, DataPacket, Paid;
    InvShaped(w);
    Ignored(h, w);
    var r := Emit(h, w, plain, outmax);
    if r.1 != [] {
      PaysFor(w.ch, plain);
      var v := w.(ch := Paid(w.ch.(out := w.ch.out + plain), |plain|));
      ChannelSame(h, w, v.ch);
      OpenedInv(h, w, v);
      EmitSeals(h, v, DataPacket(w.ch, plain));
      SafeTransitive(w, v, r.0);
      if w.io.ob == [] {
        SoundTransitive(h, w, v, r.0);
      }
    }
  }

  /** The record goes straight to the network: behind everything sent before when nothing is queued. */
  lemma EmitSeals(h: Host, w: World, payload: seq<byte>)
    requires Inv(w) && w.k.sendEnc && |payload| <= SSH_ENC_MAX_PLEN
    ensures Safe(w, Emitted(h, w, payload)) && (w.io.ob == [] ==> Sound(h, w, Emitted(h, w, payload)))
    ensures Emitted(h, w, payload).ch == w.ch
  {
    hide LogOk, FlowInv, Wire, Follows;
    LogNext(w.io.log, w.io.packets, w.k.s2c, w.sendSeq, payload);
    NextNumber(w.io.packets);
    if w.io.ob == [] && Readable(h, w) {
      EmitReads(h, w, payload);
    }
  }

  lemma EmitReads(h: Host, w: World, payload: seq<byte>)
    requires w.Shaped() && w.k.sendEnc && |payload| <= SSH_ENC_MAX_PLEN && w.io.ob == [] && Readable(h, w)
    ensures Readable(h, Emitted(h, w, payload))
  {
    hide Wire, Readable, Emitted, Open;
    var e := Sealed(w.k.s2c, w.sendSeq, w.io.packets, payload);
    EmittedIs(h, w, payload);
    WireOpens(h, w, payload);
    ReadableNext(h, w, Emitted(h, w, payload), e, Wire(h, w, payload));
  }

  lemma EmittedIs(h: Host, w: World, payload: seq<byte>)
    requires w.Shaped() && w.io.ob == []
    ensures var r := Emitted(h, w, payload);
            && r.k == w.k && r.err == w.err && r.sendSeq == (w.sendSeq + 1) % U32_LIMIT && r.io.mark == w.io.mark
            && r.io.log == w.io.log + [Sealed(w.k.s2c, w.sendSeq, w.io.packets, payload)]
            && r.io.sent + r.io.ob == w.io.sent + w.io.ob + Wire(h, w, payload)
  {
    hide Wire;
    assert w.io.sent + [] == w.io.sent;
    assert w.io.sent + Wire(h, w, payload) + [] == w.io.sent + Wire(h, w, payload);
  }

  /** A reply followed by a note on the channel. */
  lemma SendAndMark(h: Host, w: World, payload: seq<byte>, ch: Channel)
    requires Inv(w) && ch.isOpen == w.ch.isOpen && ch.peerWindow == w.ch.peerWindow
    requires ch.localWindow == w.ch.localWindow
    requires ch.granted == w.ch.granted && ch.out == w.ch.out && ch.shell == w.ch.shell
    requires ch.offered == w.ch.offered && ch.taken == w.ch.taken
    ensures Keeps(h, w, Send(h, w, payload)) && Keeps(h, w, Send(h, w, payload).(ch := ch))
  {
    hide SealInv, Follows, FlowInv, GateInv, Keeps, Send;
    SendKeeps(h, w, payload);
    var s := Send(h, w, payload);
    OpenedInv(h, w, s);
    FlowSame(w.ch, ch);
    ChannelSame(h, s, ch);
    KeepsTransitive(h, w, s, s.(ch := ch));
  }

  lemma ClosingKeeps(h: Host, w: World)
    requires Inv(w)
    ensures Keeps(h, w, Closing(h, w))
  {
    hide SealInv, Follows, FlowInv, GateInv, Keeps, Send, ExitStatus, ToChannel;
    Ignored(h, w);
    var e := if w.ch.shell then Send(h, w, ExitStatus(w.ch.peer)) else w;
    SendAndMark(h, w, ExitStatus(w.ch.peer), w.ch);
    OpenedInv(h, w, e);
    Ignored(h, e);
    SendAndMark(h, e, ToChannel(MSG_CHANNEL_EOF, e.ch.peer), e.ch.(sentEof := true));
    var g := if e.ch.sentEof then e
             else var s := Send(h, e, ToChannel(MSG_CHANNEL_EOF, e.ch.peer)); s.(ch := s.ch.(sentEof := true));
    KeepsTransitive(h, w, e, g);
    OpenedInv(h, w, g);
    SendAndMark(h, g, ToChannel(MSG_CHANNEL_CLOSE, g.ch.peer), g.ch.(sentClose := true, closed := true));
    KeepsTransitive(h, w, g, Closing(h, w));
  }

  /** ssh_channel_close, in any phase. */
  lemma CloseSafe(h: Host, w: World)
    requires Inv(w)
    ensures Sound(h, w, Close(h, w))
    ensures w.ch.sentClose || !Repeats(w) ==> Keeps(h, w, Close(h, w))
  {
    hide SealInv, Follows, FlowInv, GateInv, Forward, Flush, Closing, Repeats;
    Ignored(h, w);
    if w.ch.isOpen && !w.ch.sentClose {
      FlushSafe(h, w);
      var f := Flush(h, w);
      ClosingKeeps(h, f);
      SoundTransitive(h, w, f, Close(h, w));
      if !Repeats(w) {
        FlushKeeps(h, w);
      }
    }
  }

  lemma SafeTransitive(a: World, b: World, c: World)
    requires Safe(a, b) && Safe(b, c)
    ensures Safe(a, c)
  {
    hide Inv;
  }

  lemma SoundTransitive(h: Host, a: World, b: World, c: World)
    requires Sound(h, a, b) && Sound(h, b, c)
    ensures Sound(h, a, c)
  {
    hide Inv, Readable;
  }

  /** The farewell sends no channel data. */
  lemma ClosingSpendsNothing(h: Host, w: World)
    requires w.Shaped()
    ensures Closing(h, w).ch.out == w.ch.out && Closing(h, w).ch.peerWindow == w.ch.peerWindow
  {
    hide Send, ExitStatus, ToChannel;
  }

  // ----- one packet -----

  lemma SessionKeeps(h: Host, w: World, pl: seq<byte>)
    requires Inv(w) && w.phase == Session && 0 < |pl| <= SSH_IB_SZ
    ensures Keeps(h, w, HandleSession(h, w, pl))
  {
    hide SealInv, Follows, FlowInv, GateInv, Keeps, HandleChannelOpen, HandleChannelRequest, HandleChannelData,
         HandleWindowAdjust, Close;
    Ignored(h, w);
    ChannelOpenKeeps(h, w, pl);
    ChannelRequestKeeps(h, w, pl);
    DataKeeps(h, w, pl);
    AdjustKeeps(h, w, pl);
    FlowSame(w.ch, w.ch.(eof := true));
    ChannelSame(h, w, w.ch.(eof := true));
    CloseSafe(h, w);
    var c := if w.ch.sentClose then w else Close(h, w);
    ClosedKeeps(h, w, c);
  }

  lemma ClosedKeeps(h: Host, w: World, c: World)
    requires Keeps(h, w, c) && Rank(w.phase) <= Rank(Closed)
    ensures Keeps(h, w, c.(ch := c.ch.(closed := true), phase := Closed))
  {
    hide SealInv, Follows;
  }

  lemma NewkeysKeeps(h: Host, w: World)
    requires Inv(w) && w.phase == ExpectNewkeys
    ensures Keeps(h, w, w.(k := w.k.(recvEnc := true), phase := ExpectService))
  {
    hide SealInv, Follows, FlowInv;
  }

  lemma DisconnectKeeps(h: Host, w: World)
    requires Inv(w) && w.phase != Error
    ensures Keeps(h, w, w.(phase := Closed))
  {
    hide SealInv, Follows, FlowInv;
  }

  /** The phases in which ssh_input dispatches packets. */
  predicate Dispatching(p: Phase) {
    p != Version && p != Closed && p != Error
  }

  /** Every packet, whatever it holds and whenever it comes, keeps every invariant and moves no phase back. */
  lemma PacketKeeps(h: Host, w: World, pl: seq<byte>)
    requires Inv(w) && Dispatching(w.phase) && |pl| <= SSH_IB_SZ
    ensures Keeps(h, w, HandlePacket(h, w, pl))
  {
    hide SealInv, Follows, FlowInv, GateInv, Keeps, HandleSession, HandleUserauth, HandleServiceRequest, HandleEcdhInit,
         HandleKexinit, HandleGlobalRequest, Fail;
    FailKeeps(h, w);
    Ignored(h, w);
    DisconnectKeeps(h, w);
    GlobalKeeps(h, w, pl);
    match w.phase {
      case ExpectKexinit => KexinitKeeps(h, w, pl);
      case ExpectEcdhInit => EcdhKeeps(h, w, pl);
      case ExpectNewkeys => NewkeysKeeps(h, w);
      case ExpectService => ServiceKeeps(h, w, pl);
      case Auth => UserauthKeeps(h, w, pl);
      case Session => if |pl| > 0 { SessionKeeps(h, w, pl); }
    }
  }

  /** A packet authenticates the connection exactly when it is a justified request, received while authenticating. */
  lemma PacketGate(h: Host, w: World, pl: seq<byte>)
    requires Inv(w) && Dispatching(w.phase) && |pl| <= SSH_IB_SZ && !w.a.authenticated
    ensures HandlePacket(h, w, pl).a.authenticated <==> w.phase == Auth && Justified(h, w.k.session, pl)
  {
    hide SealInv, Follows, FlowInv, HandleUserauth, HandleServiceRequest, HandleEcdhInit, HandleKexinit,
         HandleGlobalRequest, Keeps, Justified;
    FailKeeps(h, w);
    GlobalKeeps(h, w, pl);
    if Justified(h, w.k.session, pl) {
      JustifiedKind(h, w.k.session, pl);
    }
    match w.phase {
      case ExpectKexinit => KexinitKeeps(h, w, pl);
      case ExpectEcdhInit => EcdhKeeps(h, w, pl);
      case ExpectNewkeys =>
      case ExpectService => ServiceKeeps(h, w, pl);
      case Auth => if |pl| > 0 && pl[0] == MSG_USERAUTH_REQUEST { GateIff(h, w, pl); }
      case Session =>
    }
  }

  lemma JustifiedKind(h: Host, session: seq<byte>, pl: seq<byte>)
    requires Justified(h, session, pl)
    ensures |pl| > 0 && pl[0] == MSG_USERAUTH_REQUEST
  {
    hide Credential.Sized, Credential.Grants, Credential.Rest, Credential.Method, Str;
    var c: Credential :| c.Bytes() == pl && c.Sized() && c.Grants(h, session);
  }

  // ----- runs -----

  /** Everything that can happen to a connection: a version line or a packet decoded from the input, a decoding
      failure, and the calls the tick makes. */
  datatype Event =
    | Hello(line: seq<byte>)
    | Arrive(payload: seq<byte>)
    | Breakdown
    | Drain(n: nat)
    | Key
    | Stage(b: byte)
    | DoFlush
    | DoEmit(plain: seq<byte>, outmax: nat)
    | DoClose

  /** A payload came out of the input buffer. */
  predicate Allowed(e: Event) {
    e.Arrive? ==> |e.payload| <= SSH_IB_SZ
  }

  /** The event makes a flush that sends without paying. */
  predicate Overspends(w: World, e: Event) {
    Repeats(w) && (e.DoFlush? || (e.DoClose? && !w.ch.sentClose))
  }

  /** ssh_output: the first n bytes leave the queue. */
  function Drained(w: World, n: nat): World
    requires n <= |w.io.ob|
  {
    w.(io := w.io.(ob := w.io.ob[n..], sent := w.io.sent + w.io.ob[..n]))
  }

  /** The event sends a record past what is still queued. */
  predicate Overtakes(w: World, e: Event) {
    e.DoEmit? && w.io.ob != []
  }

  function Apply(h: Host, w: World, e: Event): (r: World)
    requires w.Shaped()
  {
    match e
    case Hello(line) => if w.phase == Version then w.(x := w.x.(cliVer := line), phase := ExpectKexinit) else w
    case Arrive(pl) =>
      if Dispatching(w.phase) then var r := HandlePacket(h, w, pl); r.(recvSeq := (w.recvSeq + 1) % U32_LIMIT) else w
    case Breakdown => Fail(w)
    case Drain(n) => Drained(w, Min(n, |w.io.ob|))
    case Key => w.(io := w.io.(cin := if |w.io.cin| > 0 then w.io.cin[1..] else []))
    case Stage(b) => if w.ch.shell && !w.ch.closed && |w.io.cout| < 512 then
        w.(io := w.io.(cout := w.io.cout + [b])) else w
    case DoFlush => Flush(h, w)
    case DoEmit(plain, outmax) => Emit(h, w, plain, outmax).0
    case DoClose => Close(h, w)
  }

  lemma DrainKeeps(h: Host, w: World, n: nat)
    requires Inv(w) && n <= |w.io.ob|
    ensures Sound(h, w, Drained(w, n)) && Inv(Drained(w, n)) && Drained(w, n).ch == w.ch
  {
    hide SealInv, Follows, FlowInv;
    assert w.io.sent + w.io.ob[..n] + w.io.ob[n..] == w.io.sent + w.io.ob;
  }

  lemma PlainStepKeeps(h: Host, w: World, e: Event)
    requires Inv(w) && (e.Hello? || e.Drain? || e.Key? || e.Stage?)
    ensures Sound(h, w, Apply(h, w, e)) && Apply(h, w, e).a == w.a && Apply(h, w, e).ch == w.ch
    ensures !e.Drain? ==> Keeps(h, w, Apply(h, w, e))
  {
    hide SealInv, Follows, FlowInv, Drained;
    if e.Drain? {
      DrainKeeps(h, w, Min(e.n, |w.io.ob|));
      DrainGate(w, Min(e.n, |w.io.ob|));
    }
  }

  lemma DrainGate(w: World, n: nat)
    requires n <= |w.io.ob|
    ensures Drained(w, n).a == w.a
  {
  }

  lemma RecvKeeps(h: Host, w: World, r: World, num: nat)
    requires Keeps(h, w, r) && num < U32_LIMIT
    ensures Keeps(h, w, r.(recvSeq := num))
  {
    hide SealInv, Follows, FlowInv;
  }

  lemma ArriveKeeps(h: Host, w: World, pl: seq<byte>)
    requires Inv(w) && |pl| <= SSH_IB_SZ
    ensures Keeps(h, w, Apply(h, w, Arrive(pl)))
  {
    hide SealInv, FlowInv, GateInv, HandlePacket, Keeps;
    Ignored(h, w);
    if Dispatching(w.phase) {
      PacketKeeps(h, w, pl);
      RecvKeeps(h, w, HandlePacket(h, w, pl), (w.recvSeq + 1) % U32_LIMIT);
    }
  }

  /** Every event, in every phase, keeps keys and gate. One that does not overtake keeps the stream readable, and one
      that does not overspend keeps flow control. */
  lemma StepKeeps(h: Host, w: World, e: Event)
    requires Inv(w) && Allowed(e)
    ensures var r := Apply(h, w, e);
            && Safe(w, r) && (!Overtakes(w, e) ==> Sound(h, w, r))
            && (!Overspends(w, e) && FlowInv(w.ch) ==> FlowInv(r.ch))
  {
    hide SealInv, Follows, FlowInv, GateInv, Forward, HandlePacket, Flush, Emit, Close, Fail, Repeats, Readable,
         Drained;
    Ignored(h, w);
    match e {
      case Arrive(pl) => ArriveKeeps(h, w, pl);
      case Breakdown => FailKeeps(h, w);
      case DoFlush =>
        FlushSafe(h, w);
        if !Repeats(w) { FlushKeeps(h, w); }
      case DoEmit(plain, outmax) => EmitKeeps(h, w, plain, outmax);
      case DoClose => CloseSafe(h, w);
      case _ => PlainStepKeeps(h, w, e);
    }
  }

  /** Flush, close and emit conserve credit if and only if they do not overspend. */
  lemma SpendIff(h: Host, w: World, e: Event)
    requires Inv(w) && (e.DoFlush? || e.DoClose? || e.DoEmit?)
    ensures var r := Apply(h, w, e);
            |r.ch.out| + r.ch.peerWindow == |w.ch.out| + w.ch.peerWindow <==> !Overspends(w, e)
  {
    hide SealInv, Follows, FlowInv, GateInv, Forward, Flush, Emit, Closing, Allowance;
    match e {
      case DoFlush => FlushConservesIff(h, w);
      case DoClose =>
        FlushConservesIff(h, w);
        FlushSafe(h, w);
        ClosingSpendsNothing(h, Flush(h, w));
      case DoEmit(plain, outmax) => EmitKeeps(h, w, plain, outmax);
    }
  }

  /** Only a justified packet authenticates. */
  lemma StepGate(h: Host, w: World, e: Event)
    requires Inv(w) && Allowed(e) && !w.a.authenticated && Apply(h, w, e).a.authenticated
    ensures e.Arrive? && w.phase == Auth && Justified(h, w.k.session, e.payload)
  {
    hide SealInv, Follows, FlowInv, Keeps, HandlePacket, Flush, Closing, Justified;
    match e {
      case Arrive(pl) => if Dispatching(w.phase) { PacketGate(h, w, pl); }
      case Breakdown => FailKeeps(h, w);
      case DoFlush => NotOpenFlush(h, w);
      case DoEmit(plain, outmax) =>
      case DoClose =>
      case _ => PlainStepKeeps(h, w, e);
    }
  }

  lemma NotOpenFlush(h: Host, w: World)
    requires w.Shaped() && !w.ch.isOpen
    ensures Flush(h, w).a == w.a
  {
  }

  /** The packet that authenticates types nothing. */
  lemma AuthTypesNothing(h: Host, w: World, e: Event)
    requires Inv(w) && Allowed(e) && !w.a.authenticated
    ensures Apply(h, w, e).io.cin == []
  {
    hide SealInv, Follows, FlowInv, HandlePacket, Flush, Closing, Justified, Emit, Close;
    StepKeeps(h, w, e);
    if Apply(h, w, e).a.authenticated {
      StepGate(h, w, e);
      JustifiedKind(h, w.k.session, e.payload);
      UserauthKeeps(h, w, e.payload);
      AuthDispatch(h, w, e.payload);
    }
  }

  lemma AuthDispatch(h: Host, w: World, pl: seq<byte>)
    requires w.Shaped() && w.phase == Auth && |pl| > 0 && pl[0] == MSG_USERAUTH_REQUEST
    ensures HandlePacket(h, w, pl) == HandleUserauth(h, w, pl)
  {
    hide HandleUserauth;
  }

  /** A sequence of states, each the effect of an allowed event on the one before. */
  ghost predicate Steps(h: Host, ws: seq<World>, es: seq<Event>) {
    && |ws| == |es| + 1
    && forall i :: 0 <= i < |es| ==> Allowed(es[i]) && (ws[i].Shaped() ==> ws[i + 1] == Apply(h, ws[i], es[i]))
  }

  lemma StepsAppend(h: Host, ws: seq<World>, es: seq<Event>, e: Event, w: World)
    requires Steps(h, ws, es) && Allowed(e) && (ws[|es|].Shaped() ==> w == Apply(h, ws[|es|], e))
    ensures Steps(h, ws + [w], es + [e])
  {
    hide Apply, Allowed;
  }
}
