/** What the SSH server has told its client (dosshd/ssh.c), read from the payloads it sealed, and what the client has
    told it, read from the packets that arrived: flow control as a statement about bytes. */
module SshCredit {
  import opened Bytes
  import opened SshWire
  import opened SshRecord
  import opened SshKex
  import opened SshServer
  import opened SshRuns
  import opened SshSafety
  import opened SshClient

  // ----- what the client reads -----

  /** The terms of a channel: how much data the server has agreed to take in all, and the size of a packet. */
  datatype Terms = Terms(credit: nat, limit: nat)

  /** A message for this channel with at least one more field. */
  predicate For(channel: nat, msg: byte, pl: seq<byte>) {
    |pl| >= 9 && pl[0] == msg && BeValue(pl[1..5]) == channel
  }

  /** What a message does to the terms of a channel (section 5 of RFC 4254). */
  function After(channel: nat, pl: seq<byte>, t: Terms): Terms {
    if For(channel, MSG_CHANNEL_OPEN_CONFIRMATION, pl) && |pl| == 17 then
      Terms(BeValue(pl[9..13]), BeValue(pl[13..17]))
    else if For(channel, MSG_CHANNEL_WINDOW_ADJUST, pl) then t.(credit := t.credit + BeValue(pl[5..9]))
    else t
  }

  /** The terms a client has been given by a sequence of messages. */
  function TermsOf(channel: nat, payloads: seq<seq<byte>>): Terms {
    if |payloads| == 0 then Terms(0, 0)
    else After(channel, payloads[|payloads| - 1], TermsOf(channel, payloads[..|payloads| - 1]))
  }

  lemma TermsNext(channel: nat, payloads: seq<seq<byte>>, pl: seq<byte>)
    ensures TermsOf(channel, payloads + [pl]) == After(channel, pl, TermsOf(channel, payloads))
  {
    hide After;
    assert (payloads + [pl])[..|payloads|] == payloads;
  }

  lemma ContentsNext(channel: nat, payloads: seq<seq<byte>>, pl: seq<byte>)
    ensures Contents(channel, payloads + [pl]) == Contents(channel, payloads) + DataOf(channel, pl)
  {
    hide DataOf;
    ContentsConcat(channel, payloads, [pl]);
    assert [pl][1..] == [] && Contents(channel, []) == [];
    assert DataOf(channel, pl) + [] == DataOf(channel, pl);
  }

  /** No message carries more data than the client allows. */
  ghost predicate Within(channel: nat, payloads: seq<seq<byte>>, max: nat) {
    forall i :: 0 <= i < |payloads| ==> |DataOf(channel, payloads[i])| <= max
  }

  /** No message carries channel data at all. */
  ghost predicate NoData(payloads: seq<seq<byte>>) {
    forall i :: 0 <= i < |payloads| ==> payloads[i] != [] && payloads[i][0] != MSG_CHANNEL_DATA
  }

  lemma {:induction false} NoDataNoContents(channel: nat, payloads: seq<seq<byte>>, max: nat)
    requires NoData(payloads)
    ensures Contents(channel, payloads) == [] && Within(channel, payloads, max)
  {
    if |payloads| > 0 {
      assert payloads[0] != [] && payloads[0][0] != MSG_CHANNEL_DATA;
      NoDataNoContents(channel, payloads[1..], max);
    }
  }

  // ----- what the server believes it has said -----

  /** The server's books agree with the messages. */
  ghost predicate Agrees(payloads: seq<seq<byte>>, isOpen: bool, peer: nat, maxpkt: nat, offered: nat,
      out: seq<byte>)
  {
    if isOpen then
      && peer < U32_LIMIT && TermsOf(peer, payloads) == Terms(offered, SSH_CHAN_MAXPKT)
      && Contents(peer, payloads) == out && Within(peer, payloads, maxpkt)
    else
      NoData(payloads) && out == []
  }

  /** The sealed packets are the last of those sent, one after the other. */
  ghost predicate Consecutive(packets: nat, log: seq<Sealed>) {
    |log| <= packets && forall i :: 0 <= i < |log| ==> log[i].index == packets - |log| + i
  }

  ghost predicate Told(w: World) {
    && Consecutive(w.io.packets, w.io.log)
    && (!w.err ==> Agrees(Payloads(w.io.log), w.ch.isOpen, w.ch.peer, w.ch.peerMaxpkt, w.ch.offered, w.ch.out))
  }

  /** A step keeps the books, the record of a failure, and how many packets and bytes went out in the
      clear, and goes on along the random tape. */
  ghost predicate Keeping(w: World, r: World) {
    && (Told(w) ==> Told(r)) && (w.err ==> r.err) && w.io.drawn <= r.io.drawn
    && (w.k.sendEnc ==>
          r.k.sendEnc && r.io.packets - |r.io.log| == w.io.packets - |w.io.log| && r.io.mark == w.io.mark)
  }

  /** And what it says is queued behind what was queued before. */
  ghost predicate Speaks(w: World, r: World) {
    Keeping(w, r) && r.io.sent == w.io.sent && w.io.ob <= r.io.ob
  }

  /** All that the server has said. */
  function Said(w: World): seq<byte> {
    w.io.sent + w.io.ob
  }

  lemma SpeaksTransitive(a: World, b: World, c: World)
    requires Speaks(a, b) && Speaks(b, c)
    ensures Speaks(a, c)
  {
    hide Told;
  }

  lemma SpeaksNothing(w: World, r: World)
    requires r.io.log == w.io.log && r.io.packets == w.io.packets && r.io.sent == w.io.sent && w.io.ob <= r.io.ob
    requires (w.err ==> r.err) && (w.k.sendEnc ==> r.k.sendEnc) && r.io.mark == w.io.mark
    requires w.io.drawn <= r.io.drawn
    requires r.ch.isOpen == w.ch.isOpen && r.ch.peer == w.ch.peer && r.ch.peerMaxpkt == w.ch.peerMaxpkt
    requires r.ch.offered == w.ch.offered && r.ch.out == w.ch.out
    ensures Speaks(w, r)
  {
    hide Agrees, Consecutive;
  }

  /** What a packet can be sent in. */
  ghost predicate Fit(w: World) {
    w.Shaped() && (w.phase == Error ==> w.err) && (!w.k.sendEnc ==> w.io.log == []) && (w.ch.isOpen ==> w.k.sendEnc)
  }

  lemma InvFit(w: World)
    requires Inv(w)
    ensures Fit(w)
  {
  }

  /** What is sent is the next payload of the log, or the connection has failed. */
  lemma Sends(h: Host, w: World, payload: seq<byte>)
    requires Fit(w)
    ensures var r := Send(h, w, payload);
            && r.Shaped() && r.ch == w.ch && r.k == w.k && Fit(r) && (w.err ==> r.err)
            && (Consecutive(w.io.packets, w.io.log) ==> Consecutive(r.io.packets, r.io.log))
            && r.io.packets - |r.io.log| >= w.io.packets - |w.io.log|
            && (w.k.sendEnc ==> r.io.packets - |r.io.log| == w.io.packets - |w.io.log|)
            && r.io.sent == w.io.sent && w.io.ob <= r.io.ob && r.io.mark == w.io.mark && w.io.drawn <= r.io.drawn
            && (!w.k.sendEnc ==> r.io.log == w.io.log)
            && (w.k.sendEnc ==> r.err || Payloads(r.io.log) == Payloads(w.io.log) + [payload])
  {
    hide SendEnc, SendUnenc, Wire, Send;
    SendDraws(h, w, payload);
    var r := Send(h, w, payload);
    if w.k.sendEnc && |payload| <= SSH_ENC_MAX_PLEN {
      assert Payloads(r.io.log) == Payloads(w.io.log) + [payload];
    }
  }

  /** The padding is drawn from the tape, and nothing before it again. */
  lemma SendDraws(h: Host, w: World, payload: seq<byte>)
    requires w.Shaped()
    ensures w.io.drawn <= Send(h, w, payload).io.drawn
  {
    hide Wire, BeBytes;
  }

  /** A message about anything but windows and data. */
  predicate Quiet(payload: seq<byte>) {
    payload != [] && payload[0] != MSG_CHANNEL_OPEN_CONFIRMATION && payload[0] != MSG_CHANNEL_WINDOW_ADJUST
        && payload[0] != MSG_CHANNEL_DATA
  }

  lemma QuietAgrees(payloads: seq<seq<byte>>, payload: seq<byte>, isOpen: bool, peer: nat, maxpkt: nat, offered: nat,
      out: seq<byte>)
    requires Agrees(payloads, isOpen, peer, maxpkt, offered, out)
    requires if isOpen then Quiet(payload) else payload != [] && payload[0] != MSG_CHANNEL_DATA
    ensures Agrees(payloads + [payload], isOpen, peer, maxpkt, offered, out)
  {
    if isOpen {
      TermsNext(peer, payloads, payload);
      ContentsNext(peer, payloads, payload);
    }
  }

  lemma SendSpeaks(h: Host, w: World, payload: seq<byte>)
    requires w.Shaped() && Fit(w) && Quiet(payload)
    ensures Speaks(w, Send(h, w, payload)) && Fit(Send(h, w, payload)) && Send(h, w, payload).Shaped()
  {
    hide Send, Agrees, Consecutive, Fit, Quiet;
    Sends(h, w, payload);
    if Told(w) && w.k.sendEnc && !w.err {
      Told1(w, payload);
    }
  }

  lemma Told1(w: World, payload: seq<byte>)
    requires Told(w) && !w.err && Quiet(payload)
    ensures Agrees(Payloads(w.io.log) + [payload], w.ch.isOpen, w.ch.peer, w.ch.peerMaxpkt, w.ch.offered, w.ch.out)
  {
    hide Agrees;
    QuietAgrees(Payloads(w.io.log), payload, w.ch.isOpen, w.ch.peer, w.ch.peerMaxpkt, w.ch.offered, w.ch.out);
  }

  /** A message and the entry that goes with it. */
  lemma Speak(h: Host, w: World, v: World, payload: seq<byte>, ch: Channel)
    requires Fit(w) && Fit(v) && v == w.(ch := v.ch) && w.k.sendEnc
    requires Told(w) && !w.err ==>
               Agrees(Payloads(w.io.log) + [payload], ch.isOpen, ch.peer, ch.peerMaxpkt, ch.offered, ch.out)
    ensures Speaks(w, Send(h, v, payload).(ch := ch))
  {
    hide Send, Agrees, Consecutive, Fit;
    Sends(h, v, payload);
  }

  // ----- handlers -----

  lemma FailSpeaks(w: World)
    requires w.phase == Error ==> w.err
    ensures Speaks(w, Fail(w))
  {
    hide Agrees, Consecutive;
  }

  /** A message sent after changes that do not concern the books, and more such changes. */
  lemma QuietReply(h: Host, w: World, v: World, payload: seq<byte>, r: World)
    requires v.Shaped() && Fit(v) && Quiet(payload) && SameBooks(v, w) && SameBooks(Send(h, v, payload), r)
    ensures Speaks(w, r)
  {
    hide Send, Speaks, Fit, Quiet, SameBooks;
    SendSpeaks(h, v, payload);
    SpeaksSame(v, w, Send(h, v, payload), r);
  }

  predicate SameBooks(v: World, w: World) {
    v.io == w.io && v.err == w.err && v.k == w.k && v.ch == w.ch
  }

  lemma SpeaksSame(v: World, w: World, s: World, r: World)
    requires Speaks(v, s) && SameBooks(v, w) && SameBooks(s, r)
    ensures Speaks(w, r)
  {
    hide Agrees, Consecutive;
  }

  lemma KexinitSpeaks(w: World, pl: seq<byte>)
    requires w.phase == Error ==> w.err
    ensures Speaks(w, HandleKexinit(w, pl))
  {
    hide Speaks, Negotiate, FirstHalf, Fail;
    FailSpeaks(w);
    if Negotiate(pl).Agreed? {
      SpeaksNothing(w, HandleKexinit(w, pl));
    }
  }

  lemma KexSpeaks(h: Host, w: World, pl: seq<byte>)
    requires Inv(w) && w.phase == ExpectEcdhInit
    ensures Speaks(w, HandleEcdhInit(h, w, pl))
  {
    hide SwitchKeys, Told, BeValue, Mpint, ExchangeHash, KexReply, KsBlob, SharedSecret, SealInv, GateInv;
    InvFit(w);
    SpeaksNothing(w, w.(x := w.x.(discardNext := false)));
    FailSpeaks(w);
    if !w.x.discardNext && |pl| >= 37 && BeValue(pl[1..5]) == 32 {
      var qc := pl[5..37];
      var sk := h.Random(w.io.drawn, 32);
      var w0 := w.(io := w.io.(drawn := w.io.drawn + 32));
      SpeaksNothing(w, w0);
      FailSpeaks(w0);
      SpeaksTransitive(w, w0, Fail(w0));
      var qs := seq(32, i requires 0 <= i => h.x25519Public(sk, i));
      var mpint := Mpint(SharedSecret(h, sk, qc));
      var hash := ExchangeHash(w.x.transcript, KsBlob(h), qc, qs, mpint);
      SwitchSpeaks(h, w0, KexReply(h, qs, hash), mpint, hash);
      SpeaksTransitive(w, w0, SwitchKeys(h, w0, KexReply(h, qs, hash), mpint, hash));
    }
  }

  /** Before encryption nothing is sealed, so nothing is entered. */
  lemma SwitchSpeaks(h: Host, w: World, reply: seq<byte>, mpint: seq<byte>, hash: seq<byte>)
    requires Fit(w) && !w.k.sendEnc && |hash| == 32
    ensures Speaks(w, SwitchKeys(h, w, reply, mpint, hash))
  {
    hide Send, NewKeys, Agrees, Consecutive;
    Sends(h, w, reply);
    var w1 := Send(h, w, reply);
    var w2 := w1.(k := NewKeys(w1.k, mpint, hash));
    Sends(h, w2, [MSG_NEWKEYS]);
  }

  lemma ServiceSpeaks(h: Host, w: World, pl: seq<byte>)
    requires Inv(w) && w.phase == ExpectService
    ensures Speaks(w, HandleServiceRequest(h, w, pl))
  {
    hide Send, Speaks, Fit, SealInv, GateInv, BeValue, Str;
    InvFit(w);
    FailSpeaks(w);
    if |pl| >= 5 && 5 + BeValue(pl[1..5]) <= |pl| {
      var name := pl[5..5 + BeValue(pl[1..5])];
      var v := w.(x := w.x.(svcName := name, done := true));
      FitSame(w, v);
      QuietReply(h, w, v, ServiceAccept(name), Send(h, v, ServiceAccept(name)).(phase := Auth));
    }
  }

  lemma FitSame(w: World, v: World)
    requires Fit(w) && v.phase == w.phase && v.err == w.err && v.k == w.k && v.io.log == w.io.log && v.ch == w.ch
    requires v.sendSeq == w.sendSeq && v.recvSeq == w.recvSeq
    ensures Fit(v)
  {
  }

  lemma AcceptSpeaks(h: Host, w: World)
    requires w.Shaped() && Fit(w)
    ensures Speaks(w, Accept(h, w))
  {
    hide Send, Speaks, Fit;
    QuietReply(h, w, w, [MSG_USERAUTH_SUCCESS], Accept(h, w));
  }

  lemma RejectSpeaks(h: Host, w: World, counted: bool)
    requires w.Shaped() && Fit(w)
    ensures Speaks(w, Reject(h, w, counted))
  {
    hide Refuse, Speaks, Fit;
    var v := w.(a := w.a.(fails := w.a.fails + if counted then 1 else 0));
    FitSame(w, v);
    RefuseSpeaks(h, v);
    SpeaksSame(v, w, Refuse(h, v), Refuse(h, v));
  }

  lemma RefuseSpeaks(h: Host, w: World)
    requires w.Shaped() && Fit(w)
    ensures Speaks(w, Refuse(h, w))
  {
    hide Send, Speaks, Fit, Str, Ascii, BeBytes, Methods;
    if w.a.fails >= SSH_MAX_AUTH_TRIES {
      SendSpeaks(h, w, NoMoreAuth());
      SpeaksSame(w, w, Send(h, w, NoMoreAuth()), Refuse(h, w));
    } else {
      SendSpeaks(h, w, AuthFailure(h));
    }
  }

  lemma PkOkSpeaks(h: Host, w: World, algo: seq<byte>, blob: seq<byte>)
    requires w.Shaped() && Fit(w)
    ensures Speaks(w, SendPkOk(h, w, algo, blob))
  {
    hide Send, Speaks, Fit, Str, Reject;
    RejectSpeaks(h, w, true);
    QuietReply(h, w, w, PkOk(algo, blob), Send(h, w, PkOk(algo, blob)));
  }

  lemma PubkeySpeaks(h: Host, w: World, pl: seq<byte>, o: nat, user: seq<byte>, service: seq<byte>)
    requires w.Shaped() && Fit(w)
    ensures Speaks(w, HandlePubkey(h, w, pl, o, user, service))
  {
    hide Send, Reject, RdString, SendPkOk, Accept, Ed25519Part, SignedData, Str, Ascii, Speaks, Fit;
    RejectSpeaks(h, w, true);
    AcceptSpeaks(h, w);
    var a := RdString(pl, o + 1);
    if a.Got? {
      var b := RdString(pl, a.next);
      if b.Got? {
        PkOkSpeaks(h, w, a.value, b.value);
      }
    }
  }

  lemma PasswordSpeaks(h: Host, w: World, pl: seq<byte>, o: nat)
    requires w.Shaped() && Fit(w)
    ensures Speaks(w, HandlePassword(h, w, pl, o))
  {
    hide Reject, RdString, Accept, Speaks, Fit;
    RejectSpeaks(h, w, true);
    AcceptSpeaks(h, w);
  }

  lemma UserauthSpeaks(h: Host, w: World, pl: seq<byte>)
    requires w.Shaped() && Fit(w)
    ensures Speaks(w, HandleUserauth(h, w, pl))
  {
    hide Send, Reject, RdString, Accept, HandlePubkey, HandlePassword, Ascii, Fail, Speaks, Fit;
    FitError(w);
    FailSpeaks(w);
    var r1 := RdString(pl, 1);
    if r1.Got? {
      var u := w.(a := w.a.(user := if |r1.value| < 63 then r1.value else r1.value[..63]));
      FitSame(w, u);
      SpeaksNothing(w, u);
      AcceptSpeaks(h, u);
      RejectSpeaks(h, u, true);
      RejectSpeaks(h, u, false);
      var r2 := RdString(pl, r1.next);
      if r2.Got? && RdString(pl, r2.next).Got? {
        var o := RdString(pl, r2.next).next;
        PubkeySpeaks(h, u, pl, o, r1.value, r2.value);
        PasswordSpeaks(h, u, pl, o);
        SpeaksTransitive(w, u, HandleUserauth(h, w, pl));
      }
    }
  }

  lemma FitError(w: World)
    requires Fit(w)
    ensures w.phase == Error ==> w.err
  {
  }

  // ----- the channel -----

  /** The confirmation a client reads: addressed to it, with the window and packet size the server keeps to. */
  lemma ConfirmationReads(sender: nat, t: Terms)
    requires sender < U32_LIMIT
    ensures var pl := OpenConfirmation(sender);
            After(sender, pl, t) == Terms(SSH_LOCAL_WINDOW, SSH_CHAN_MAXPKT) && pl != [] && DataOf(sender, pl) == []
  {
    hide BeBytes, BeValue;
    var pl := OpenConfirmation(sender);
    assert pl[1..5] == BeBytes(sender);
    assert pl[9..13] == BeBytes(SSH_LOCAL_WINDOW) && pl[13..17] == BeBytes(SSH_CHAN_MAXPKT);
    BeRoundTrip(sender);
    BeRoundTrip(SSH_LOCAL_WINDOW);
    BeRoundTrip(SSH_CHAN_MAXPKT);
  }

  lemma AdjustReads(peer: nat, add: nat, t: Terms)
    requires peer < U32_LIMIT && add < U32_LIMIT
    ensures var pl := WindowAdjust(peer, add);
            After(peer, pl, t) == t.(credit := t.credit + add) && pl != [] && DataOf(peer, pl) == []
  {
    hide BeBytes, BeValue;
    var pl := WindowAdjust(peer, add);
    assert pl[1..5] == BeBytes(peer) && pl[5..9] == BeBytes(add);
    BeRoundTrip(peer);
    BeRoundTrip(add);
  }

  lemma DataReads(ch: Channel, data: seq<byte>, t: Terms)
    requires |data| < U32_LIMIT
    ensures var pl := DataPacket(ch, data); After(ch.peer, pl, t) == t && DataOf(ch.peer, pl) == data
  {
    hide BeBytes, BeValue, DataOf;
    DataOfPacket(ch, data);
  }

  /** The channel opens: its books begin with the confirmation. */
  lemma OpenAgrees(payloads: seq<seq<byte>>, ch: Channel, sender: nat, window: nat, maxpkt: nat)
    requires sender < U32_LIMIT && NoData(payloads) && ch.out == []
    ensures var r := OpenedBy(ch, sender, window, maxpkt);
            Agrees(payloads + [OpenConfirmation(sender)], true, r.peer, r.peerMaxpkt, r.offered, r.out)
  {
    hide OpenConfirmation, DataOf, After, TermsOf, Contents;
    var pl := OpenConfirmation(sender);
    TermsNext(sender, payloads, pl);
    ContentsNext(sender, payloads, pl);
    NoDataNoContents(sender, payloads, maxpkt);
    ConfirmationReads(sender, TermsOf(sender, payloads));
  }

  lemma OpenSpeaks(h: Host, w: World, name: seq<byte>, sender: nat, window: nat, maxpkt: nat)
    requires w.Shaped() && Fit(w) && w.k.sendEnc && sender < U32_LIMIT
    ensures Speaks(w, AnswerOpen(h, w, name, sender, window, maxpkt))
  {
    hide Send, Speaks, Agrees, Consecutive, OpenConfirmation, Str, BeBytes, Ascii;
    if w.ch.isOpen || name != Ascii("session") {
      QuietReply(h, w, w, OpenFailure(sender, if w.ch.isOpen then 1 else 3), AnswerOpen(h, w, name, sender, window,
          maxpkt));
    } else {
      var v := w.(ch := OpenedBy(w.ch, sender, window, maxpkt));
      if Told(w) && !w.err {
        NotYetOpen(w);
        OpenAgrees(Payloads(w.io.log), w.ch, sender, window, maxpkt);
      }
      Speak(h, w, v, OpenConfirmation(sender), v.ch);
      Sends(h, v, OpenConfirmation(sender));
      assert Send(h, v, OpenConfirmation(sender)).(ch := v.ch) == Send(h, v, OpenConfirmation(sender));
    }
  }

  lemma NotYetOpen(w: World)
    requires Told(w) && !w.err && !w.ch.isOpen
    ensures NoData(Payloads(w.io.log)) && w.ch.out == []
  {
  }

  lemma ChannelOpenSpeaks(h: Host, w: World, pl: seq<byte>)
    requires w.Shaped() && Fit(w) && w.k.sendEnc
    ensures Speaks(w, HandleChannelOpen(h, w, pl))
  {
    hide Speaks, Fit, AnswerOpen, BeValue;
    FitError(w);
    FailSpeaks(w);
    if |pl| >= 5 && 5 + BeValue(pl[1..5]) + 12 <= |pl| {
      var o := 5 + BeValue(pl[1..5]);
      OpenSpeaks(h, w, pl[5..o], BeValue(pl[o..o + 4]), BeValue(pl[o + 4..o + 8]), BeValue(pl[o + 8..o + 12]));
    }
  }

  lemma RequestSpeaks(h: Host, w: World, pl: seq<byte>)
    requires w.Shaped() && Fit(w)
    ensures Speaks(w, HandleChannelRequest(h, w, pl))
  {
    hide Speaks, BeValue, Request, AnswerRequest;
    SpeaksNothing(w, w);
    if |pl| >= 9 && 9 + BeValue(pl[5..9]) + 1 <= |pl| {
      var o := 9 + BeValue(pl[5..9]);
      var q := Request(w.ch, pl[9..o], pl, o + 1);
      RequestFrame(w.ch, pl[9..o], pl, o + 1);
      RequestPeer(w.ch, pl[9..o], pl, o + 1);
      var v := w.(ch := q.0);
      SpeaksNothing(w, v);
      AnswerSpeaks(h, v, q.1, pl[o] != 0);
      SpeaksTransitive(w, v, HandleChannelRequest(h, w, pl));
    }
  }

  lemma AnswerSpeaks(h: Host, w: World, granted: bool, wantReply: bool)
    requires w.Shaped() && Fit(w)
    ensures Speaks(w, AnswerRequest(h, w, granted, wantReply))
  {
    hide Speaks, Fit, Send, BeBytes;
    SpeaksNothing(w, w);
    SendSpeaks(h, w, ToChannel(if granted then MSG_CHANNEL_SUCCESS else MSG_CHANNEL_FAILURE, w.ch.peer));
  }

  lemma RequestPeer(ch: Channel, name: seq<byte>, pl: seq<byte>, o: nat)
    ensures Request(ch, name, pl, o).0.peer == ch.peer && Request(ch, name, pl, o).0.peerMaxpkt == ch.peerMaxpkt
  {
    hide Ascii, BeValue, WithSize;
    SizePeer(ch, pl, o);
    if o + 4 <= |pl| {
      SizePeer(ch, pl, o + 4 + BeValue(pl[o..o + 4]));
    }
  }

  lemma SizePeer(ch: Channel, pl: seq<byte>, o: nat)
    ensures WithSize(ch, pl, o).peer == ch.peer && WithSize(ch, pl, o).peerMaxpkt == ch.peerMaxpkt
  {
    hide BeValue;
  }

  lemma DataSpeaks(h: Host, w: World, pl: seq<byte>)
    requires w.Shaped() && Fit(w) && w.k.sendEnc
    ensures Speaks(w, HandleChannelData(h, w, pl))
  {
    hide Speaks, BeValue, Consume, Typed, Agrees, Consecutive;
    SpeaksNothing(w, w);
    if |pl| >= 9 {
      var said := BeValue(pl[5..9]);
      var n := if 9 + said > |pl| then |pl| - 9 else said;
      var v := w.(io := w.io.(cin := Typed(w.io.cin, pl[9..9 + n])));
      SpeaksNothing(w, v);
      ConsumeSpeaks(h, v, n);
      SpeaksTransitive(w, v, Consume(h, v, n));
    }
  }

  lemma ConsumeSpeaks(h: Host, w: World, n: nat)
    requires w.Shaped() && Fit(w) && w.k.sendEnc
    ensures Speaks(w, Consume(h, w, n))
  {
    hide Speaks, TopUp;
    var v := w.(ch := Taken(w.ch, n));
    SpeaksNothing(w, v);
    if v.ch.localWindow < SSH_LOCAL_WINDOW / 2 {
      TopUpSpeaks(h, v);
      SpeaksTransitive(w, v, Consume(h, w, n));
    }
  }

  lemma TopUpSpeaks(h: Host, w: World)
    requires w.Shaped() && Fit(w) && w.k.sendEnc && w.ch.localWindow <= SSH_LOCAL_WINDOW
    ensures Speaks(w, TopUp(h, w))
  {
    hide Speaks, WindowAdjust, Send, Agrees, Consecutive, Topped, Fit, TopUp;
    TopUpIs(h, w);
    if Told(w) && !w.err {
      AdjustAgrees(Payloads(w.io.log), w.ch);
    }
    Speak(h, w, w, WindowAdjust(w.ch.peer, SSH_LOCAL_WINDOW - w.ch.localWindow), Topped(w.ch));
  }

  lemma AdjustAgrees(payloads: seq<seq<byte>>, ch: Channel)
    requires ch.localWindow <= SSH_LOCAL_WINDOW
    requires Agrees(payloads, ch.isOpen, ch.peer, ch.peerMaxpkt, ch.offered, ch.out)
    ensures var t := Topped(ch);
            Agrees(payloads + [WindowAdjust(ch.peer, SSH_LOCAL_WINDOW - ch.localWindow)], t.isOpen, t.peer,
                   t.peerMaxpkt, t.offered, t.out)
  {
    hide DataOf, After, TermsOf, Contents, BeBytes;
    var pl := WindowAdjust(ch.peer, SSH_LOCAL_WINDOW - ch.localWindow);
    if ch.isOpen {
      TermsNext(ch.peer, payloads, pl);
      ContentsNext(ch.peer, payloads, pl);
      AdjustReads(ch.peer, SSH_LOCAL_WINDOW - ch.localWindow, TermsOf(ch.peer, payloads));
    }
  }

  lemma GlobalSpeaks(h: Host, w: World, pl: seq<byte>)
    requires w.Shaped() && Fit(w)
    ensures Speaks(w, HandleGlobalRequest(h, w, pl))
  {
    hide Speaks, Fit, Send, BeValue;
    SpeaksNothing(w, w);
    SendSpeaks(h, w, [MSG_REQUEST_FAILURE]);
  }

  // ----- channel data -----

  lemma DataAgrees(payloads: seq<seq<byte>>, ch: Channel, data: seq<byte>)
    requires ch.isOpen && |data| <= ch.peerMaxpkt && |data| < U32_LIMIT
    requires Agrees(payloads, true, ch.peer, ch.peerMaxpkt, ch.offered, ch.out)
    ensures Agrees(payloads + [DataPacket(ch, data)], true, ch.peer, ch.peerMaxpkt, ch.offered, ch.out + data)
  {
    hide DataOf, After, TermsOf, Contents, DataPacket;
    var pl := DataPacket(ch, data);
    TermsNext(ch.peer, payloads, pl);
    ContentsNext(ch.peer, payloads, pl);
    DataReads(ch, data, TermsOf(ch.peer, payloads));
  }

  lemma SendDataSpeaks(h: Host, w: World, data: seq<byte>)
    requires Fit(w) && w.ch.isOpen && |data| <= w.ch.peerMaxpkt && |data| < U32_LIMIT
    ensures Speaks(w, SendData(h, w, data)) && Fit(SendData(h, w, data))
    ensures SendData(h, w, data).ch == w.ch.(out := w.ch.out + data)
  {
    hide Speaks, Send, Agrees, Consecutive, DataPacket;
    var p := DataPacket(w.ch, data);
    Sends(h, w, p);
    if Told(w) && !w.err {
      DataAgrees(Payloads(w.io.log), w.ch, data);
    }
    Speak(h, w, w, p, w.ch.(out := w.ch.out + data));
  }

  lemma {:induction false} FlushFromSpeaks(h: Host, w: World, sent: nat)
    requires Fit(w) && w.ch.isOpen && sent <= |w.io.cout|
    ensures Speaks(w, FlushFrom(h, w, sent).0) && Fit(FlushFrom(h, w, sent).0)
    decreases |w.io.cout| - sent
  {
    hide Told, SendData, Allowance, FlushFrom;
    FlushUnfolds(h, w, sent);
    SpeaksNothing(w, w);
    var take := Allowance(w.ch, |w.io.cout| - sent);
    if sent < |w.io.cout| && take > 0 && |w.io.ob| + take + 64 <= SSH_OB_SZ {
      var s := SendData(h, w, w.io.cout[sent..sent + take]);
      SendDataSpeaks(h, w, w.io.cout[sent..sent + take]);
      if s.phase != Error {
        var t := s.(ch := Paid(s.ch, take));
        SpeaksNothing(s, t);
        SpeaksTransitive(w, s, t);
        FlushFromSpeaks(h, t, sent + take);
        SpeaksTransitive(w, t, FlushFrom(h, w, sent).0);
      }
    }
  }

  lemma FlushSpeaks(h: Host, w: World)
    requires w.Shaped() && Fit(w)
    ensures Speaks(w, Flush(h, w)) && Fit(Flush(h, w))
  {
    hide Speaks, FlushFrom;
    SpeaksNothing(w, w.(io := w.io.(cout := [])));
    if w.ch.isOpen && !w.ch.closed {
      FlushFromSpeaks(h, w, 0);
      SpeaksNothing(FlushFrom(h, w, 0).0, Flush(h, w));
      SpeaksTransitive(w, FlushFrom(h, w, 0).0, Flush(h, w));
    }
  }

  lemma CloseSpeaks(h: Host, w: World)
    requires w.Shaped() && Fit(w)
    ensures Speaks(w, Close(h, w)) && Fit(Close(h, w))
  {
    hide Speaks, Fit, Flush, Closing;
    SpeaksNothing(w, w);
    FlushSpeaks(h, w);
    ClosingSpeaks(h, Flush(h, w));
    SpeaksTransitive(w, Flush(h, w), Closing(h, Flush(h, w)));
  }

  /** A message and a note on the channel that does not concern the books. */
  lemma SayAndNote(h: Host, w: World, payload: seq<byte>, ch: Channel)
    requires w.Shaped() && Fit(w) && Quiet(payload)
        && ch == w.ch.(sentEof := ch.sentEof, sentClose := ch.sentClose, closed := ch.closed)
    ensures var r := Send(h, w, payload).(ch := ch); Speaks(w, r) && Fit(r)
  {
    hide Speaks, Send, Quiet;
    SendSpeaks(h, w, payload);
    Sends(h, w, payload);
    SpeaksNothing(Send(h, w, payload), Send(h, w, payload).(ch := ch));
    SpeaksTransitive(w, Send(h, w, payload), Send(h, w, payload).(ch := ch));
  }

  lemma StatusSpeaks(h: Host, w: World)
    requires w.Shaped() && Fit(w)
    ensures var e := if w.ch.shell then Send(h, w, ExitStatus(w.ch.peer)) else w;
            Speaks(w, e) && Fit(e) && e.ch == w.ch
  {
    hide Speaks, Fit, Send, BeBytes, Str, Ascii;
    SpeaksNothing(w, w);
    SendSpeaks(h, w, ExitStatus(w.ch.peer));
    Sends(h, w, ExitStatus(w.ch.peer));
  }

  lemma EofSpeaks(h: Host, w: World)
    requires w.Shaped() && Fit(w)
    ensures var g := if w.ch.sentEof then w
                     else var s := Send(h, w, ToChannel(MSG_CHANNEL_EOF, w.ch.peer)); s.(ch := s.ch.(sentEof := true));
            Speaks(w, g) && Fit(g)
  {
    hide Speaks, Fit, Send, BeBytes;
    SpeaksNothing(w, w);
    Sends(h, w, ToChannel(MSG_CHANNEL_EOF, w.ch.peer));
    SayAndNote(h, w, ToChannel(MSG_CHANNEL_EOF, w.ch.peer), w.ch.(sentEof := true));
  }

  lemma ClosingSpeaks(h: Host, w: World)
    requires w.Shaped() && Fit(w)
    ensures Speaks(w, Closing(h, w)) && Fit(Closing(h, w))
  {
    hide Speaks, Fit, Send, ToChannel, ExitStatus;
    StatusSpeaks(h, w);
    var e := if w.ch.shell then Send(h, w, ExitStatus(w.ch.peer)) else w;
    EofSpeaks(h, e);
    var g := if e.ch.sentEof then e
             else var s := Send(h, e, ToChannel(MSG_CHANNEL_EOF, e.ch.peer)); s.(ch := s.ch.(sentEof := true));
    SpeaksTransitive(w, e, g);
    CloseNoteSpeaks(h, g);
    SpeaksTransitive(w, g, Closing(h, w));
  }

  lemma CloseNoteSpeaks(h: Host, w: World)
    requires w.Shaped() && Fit(w)
    ensures var c := Send(h, w, ToChannel(MSG_CHANNEL_CLOSE, w.ch.peer));
            var r := c.(ch := c.ch.(sentClose := true, closed := true)); Speaks(w, r) && Fit(r)
  {
    hide Speaks, Fit, Send, BeBytes;
    Sends(h, w, ToChannel(MSG_CHANNEL_CLOSE, w.ch.peer));
    SayAndNote(h, w, ToChannel(MSG_CHANNEL_CLOSE, w.ch.peer), w.ch.(sentClose := true, closed := true));
  }

  // ----- every event -----

  lemma SessionSpeaks(h: Host, w: World, pl: seq<byte>)
    requires w.Shaped() && Fit(w) && w.k.sendEnc && |pl| > 0
    ensures Speaks(w, HandleSession(h, w, pl))
  {
    hide Speaks, Fit, HandleChannelOpen, HandleChannelRequest, HandleChannelData, Close, BeValue;
    SpeaksNothing(w, w);
    ChannelOpenSpeaks(h, w, pl);
    RequestSpeaks(h, w, pl);
    DataSpeaks(h, w, pl);
    CloseSpeaks(h, w);
    SpeaksNothing(w, HandleWindowAdjust(w, pl));
    SpeaksNothing(w, w.(ch := w.ch.(eof := true)));
    var c := if w.ch.sentClose then w else Close(h, w);
    var r := c.(ch := c.ch.(closed := true), phase := Closed);
    SpeaksNothing(c, r);
    SpeaksTransitive(w, c, r);
  }

  lemma PacketSpeaks(h: Host, w: World, pl: seq<byte>)
    requires Inv(w) && Dispatching(w.phase)
    ensures Speaks(w, HandlePacket(h, w, pl))
  {
    hide Speaks, Fit, HandleSession, HandleUserauth, HandleServiceRequest, HandleEcdhInit, HandleKexinit,
         HandleGlobalRequest, Fail, SealInv, GateInv;
    InvFit(w);
    FitError(w);
    FailSpeaks(w);
    SpeaksNothing(w, w);
    SpeaksNothing(w, w.(phase := Closed));
    GlobalSpeaks(h, w, pl);
    match w.phase {
      case ExpectKexinit => KexinitSpeaks(w, pl);
      case ExpectEcdhInit => KexSpeaks(h, w, pl);
      case ExpectNewkeys => SpeaksNothing(w, w.(k := w.k.(recvEnc := true), phase := ExpectService));
      case ExpectService => ServiceSpeaks(h, w, pl);
      case Auth => UserauthSpeaks(h, w, pl);
      case Session => if |pl| > 0 { SessionSpeaks(h, w, pl); }
    }
  }

  /** A record handed to the network directly is entered like any other. */
  lemma EmitKeeping(h: Host, w: World, plain: seq<byte>, outmax: nat)
    requires w.Shaped()
    ensures Keeping(w, Emit(h, w, plain, outmax).0)
    ensures w.io.ob == [] ==> Said(w) <= Said(Emit(h, w, plain, outmax).0)
  {
    hide Agrees, DataPacket, Wire;
    var r := Emit(h, w, plain, outmax);
    if r.1 != [] && Told(w) {
      EmittedTold(h, w, plain);
    }
  }

  lemma EmittedTold(h: Host, w: World, plain: seq<byte>)
    requires w.Shaped() && Told(w) && w.ch.isOpen && |plain| <= w.ch.peerWindow && |plain| <= SSH_CHAN_CHUNK
    requires |plain| <= w.ch.peerMaxpkt
    ensures var v := w.(ch := Paid(w.ch.(out := w.ch.out + plain), |plain|));
            Told(Emitted(h, v, DataPacket(w.ch, plain)))
  {
    hide Agrees, DataPacket, Wire;
    var p := DataPacket(w.ch, plain);
    var r := Emitted(h, w.(ch := Paid(w.ch.(out := w.ch.out + plain), |plain|)), p);
    assert Payloads(r.io.log) == Payloads(w.io.log) + [p];
    if !w.err {
      DataAgrees(Payloads(w.io.log), w.ch, plain);
    }
  }

  lemma StepSpeaks(h: Host, w: World, e: Event)
    requires Inv(w) && !e.Drain? && !e.DoEmit?
    ensures Speaks(w, Apply(h, w, e))
  {
    hide Speaks, Fit, HandlePacket, Flush, Close, Fail, SealInv, GateInv;
    InvFit(w);
    FitError(w);
    FailSpeaks(w);
    SpeaksNothing(w, w);
    match e {
      case Arrive(pl) =>
        if Dispatching(w.phase) {
          PacketSpeaks(h, w, pl);
          SpeaksNothing(HandlePacket(h, w, pl), Apply(h, w, e));
          SpeaksTransitive(w, HandlePacket(h, w, pl), Apply(h, w, e));
        }
      case Breakdown =>
      case DoFlush => FlushSpeaks(h, w);
      case DoClose => CloseSpeaks(h, w);
      case Hello(_) => SpeaksNothing(w, Apply(h, w, e));
      case Key => SpeaksNothing(w, Apply(h, w, e));
      case Stage(_) => SpeaksNothing(w, Apply(h, w, e));
    }
  }

  /** Every event keeps the books; and unless a record overtakes the queue, what is said comes after what was said. */
  lemma StepKeeping(h: Host, w: World, e: Event)
    requires Inv(w)
    ensures Keeping(w, Apply(h, w, e)) && (!Overtakes(w, e) ==> Said(w) <= Said(Apply(h, w, e)))
  {
    hide Told, Apply, Emit;
    if e.DoEmit? {
      EmitKeeping(h, w, e.plain, e.outmax);
      EmitIs(h, w, e.plain, e.outmax);
    } else if e.Drain? {
      DrainKeeping(h, w, e.n);
    } else {
      StepSpeaks(h, w, e);
    }
  }

  lemma EmitIs(h: Host, w: World, plain: seq<byte>, outmax: nat)
    requires w.Shaped()
    ensures Apply(h, w, DoEmit(plain, outmax)) == Emit(h, w, plain, outmax).0
  {
    hide Emit;
  }

  lemma DrainKeeping(h: Host, w: World, n: nat)
    requires w.Shaped()
    ensures Keeping(w, Apply(h, w, Drain(n))) && Said(Apply(h, w, Drain(n))) == Said(w)
  {
    hide Agrees, Consecutive;
    var k := Min(n, |w.io.ob|);
    assert w.io.sent + w.io.ob[..k] + w.io.ob[k..] == w.io.sent + w.io.ob;
  }

  lemma ResetTold(h: Host, drawn: nat)
    ensures Told(Reset(h, drawn))
  {
    ResetInv(h, drawn);
    hide SendUnenc, OurKexinit;
  }

  lemma {:induction false} RunTold(h: Host, ws: seq<World>, es: seq<Event>, n: nat)
    requires IsRun(h, ws, es) && n <= |es|
    ensures Told(ws[n])
  {
    hide Inv, Apply, Reset, Allowed, Told;
    if n == 0 {
      var drawn: nat :| ws[0] == Reset(h, drawn);
      ResetTold(h, drawn);
    } else {
      RunTold(h, ws, es, n - 1);
      RunKeepsInv(h, ws, es, n - 1);
      ShapedNow(ws[n - 1]);
      StepKeeping(h, ws[n - 1], es[n - 1]);
    }
  }

  // ----- what the client has told the server -----

  /** The fields of a CHANNEL_OPEN for a session (section 5.1 of RFC 4254): where they begin, if it is one. */
  predicate AsksToOpen(pl: seq<byte>) {
    && |pl| > 0 && pl[0] == MSG_CHANNEL_OPEN && RdString(pl, 1).Got? && RdString(pl, 1).value == Ascii("session")
    && RdString(pl, 1).next + 12 <= |pl|
  }

  /** The packet arrives in the session and opens the channel. */
  predicate Opens(w: World, e: Event) {
    e.Arrive? && w.phase == Session && !w.ch.isOpen && AsksToOpen(e.payload)
  }

  /** A packet of the session of this kind. */
  predicate Hears(w: World, e: Event, msg: byte) {
    e.Arrive? && w.phase == Session && |e.payload| >= 9 && e.payload[0] == msg
  }

  /** What the client has said about its channel: its number, the credit given in all, the size of a packet, and how
      much data it has sent. */
  datatype Account = Account(channel: nat, granted: nat, limit: nat, used: nat)

  /** The account at a channel's opening, read from the CHANNEL_OPEN. */
  function Opening(pl: seq<byte>): Account
    requires AsksToOpen(pl)
  {
    var o := RdString(pl, 1).next;
    Account(BeValue(pl[o..o + 4]), BeValue(pl[o + 4..o + 8]), BeValue(pl[o + 8..o + 12]), 0)
  }

  /** Where the packets that have arrived leave the account: adjustments add to the credit, data is used; a string that
      claims more than its packet holds counts for what is there. */
  function AccountOf(ws: seq<World>, es: seq<Event>, n: nat): Account
    requires n <= |es| && |ws| > |es|
  {
    if n == 0 then Account(0, 0, 0, 0)
    else
      var w, e, a := ws[n - 1], es[n - 1], AccountOf(ws, es, n - 1);
      if Opens(w, e) then Opening(e.payload)
      else if Hears(w, e, MSG_CHANNEL_WINDOW_ADJUST) then a.(granted := a.granted + BeValue(e.payload[5..9]))
      else if Hears(w, e, MSG_CHANNEL_DATA) then
        a.(used := a.used + Min(BeValue(e.payload[5..9]), |e.payload| - 9))
      else a
  }

  /** The server's books of it. */
  function Books(ch: Channel): Account {
    Account(ch.peer, ch.granted, ch.peerMaxpkt, ch.taken)
  }

  lemma OpenBooks(h: Host, w: World, pl: seq<byte>)
    requires w.Shaped() && |pl| > 0 && pl[0] == MSG_CHANNEL_OPEN
    ensures AsksToOpen(pl) && !w.ch.isOpen ==> Books(HandleChannelOpen(h, w, pl).ch) == Opening(pl)
    ensures !AsksToOpen(pl) || w.ch.isOpen ==> HandleChannelOpen(h, w, pl).ch == w.ch
  {
    hide BeValue, Send, OpenConfirmation, OpenFailure, Ascii;
  }

  lemma RequestBooks(h: Host, w: World, pl: seq<byte>)
    requires w.Shaped()
    ensures Books(HandleChannelRequest(h, w, pl).ch) == Books(w.ch)
  {
    hide BeValue, Send, Request;
    if |pl| >= 9 && 9 + BeValue(pl[5..9]) + 1 <= |pl| {
      var o := 9 + BeValue(pl[5..9]);
      RequestFrame(w.ch, pl[9..o], pl, o + 1);
      RequestPeer(w.ch, pl[9..o], pl, o + 1);
    }
  }

  lemma DataBooks(h: Host, w: World, pl: seq<byte>)
    requires w.Shaped() && |pl| >= 9
    ensures Books(HandleChannelData(h, w, pl).ch) ==
            Books(w.ch).(used := w.ch.taken + Min(BeValue(pl[5..9]), |pl| - 9))
  {
    hide BeValue, Send, Typed;
  }

  lemma CloseBooks(h: Host, w: World)
    requires w.Shaped()
    ensures Books(Close(h, w).ch) == Books(w.ch) && Books(Flush(h, w).ch) == Books(w.ch)
  {
    hide Send, FlushFrom, ExitStatus, ToChannel;
    FlushFromFrames(h, w, 0);
  }

  /** One packet of the session. */
  lemma SessionBooks(h: Host, w: World, pl: seq<byte>)
    requires w.Shaped() && w.phase == Session && |pl| > 0
    ensures var r, e := Books(HandleSession(h, w, pl).ch), Arrive(pl);
            if Opens(w, e) then r == Opening(pl)
            else if Hears(w, e, MSG_CHANNEL_WINDOW_ADJUST) then
              r == Books(w.ch).(granted := w.ch.granted + BeValue(pl[5..9]))
            else if Hears(w, e, MSG_CHANNEL_DATA) then
              r == Books(w.ch).(used := w.ch.taken + Min(BeValue(pl[5..9]), |pl| - 9))
            else r == Books(w.ch)
  {
    hide HandleChannelOpen, HandleChannelRequest, HandleChannelData, Close, BeValue, RdString, Ascii;
    if pl[0] == MSG_CHANNEL_OPEN {
      OpenBooks(h, w, pl);
    }
    if |pl| >= 9 {
      DataBooks(h, w, pl);
    } else {
      assert HandleChannelData(h, w, pl) == w by { ShortData(h, w, pl); }
    }
    RequestBooks(h, w, pl);
    CloseBooks(h, w);
  }

  lemma ShortData(h: Host, w: World, pl: seq<byte>)
    requires w.Shaped() && |pl| < 9
    ensures HandleChannelData(h, w, pl) == w
  {
  }

  /** Outside the session packets leave the channel alone. */
  lemma EarlierChannel(h: Host, w: World, pl: seq<byte>)
    requires w.Shaped() && w.phase != Session
    ensures HandlePacket(h, w, pl).ch == w.ch
  {
    hide Send, Negotiate, FirstHalf, BeValue, RdString, HandlePubkey, HandlePassword, Accept, Reject, HandleEcdhInit,
         HandleUserauth, HandleServiceRequest;
    KexChannel(h, w, pl);
    ServiceChannel(h, w, pl);
    AuthChannel(h, w, pl);
  }

  lemma KexChannel(h: Host, w: World, pl: seq<byte>)
    requires w.Shaped()
    ensures HandleEcdhInit(h, w, pl).ch == w.ch
  {
    hide Send, Mpint, ExchangeHash, KexReply, KsBlob, BeValue, SharedSecret, NewKeys, AllZero;
  }

  lemma ServiceChannel(h: Host, w: World, pl: seq<byte>)
    requires w.Shaped()
    ensures HandleServiceRequest(h, w, pl).ch == w.ch
  {
    hide Send, BeValue, ServiceAccept;
  }

  lemma AuthChannel(h: Host, w: World, pl: seq<byte>)
    requires w.Shaped()
    ensures HandleUserauth(h, w, pl).ch == w.ch
  {
    hide Send, RdString, SignedData, Ed25519Part, PkOk, AuthFailure, NoMoreAuth, Ascii, HandlePubkey;
    forall u: World, o: nat, user, service | u.Shaped()
      ensures HandlePubkey(h, u, pl, o, user, service).ch == u.ch
    {
      PubkeyChannel(h, u, pl, o, user, service);
    }
  }

  lemma PubkeyChannel(h: Host, w: World, pl: seq<byte>, o: nat, user: seq<byte>, service: seq<byte>)
    requires w.Shaped()
    ensures HandlePubkey(h, w, pl, o, user, service).ch == w.ch
  {
    hide Send, RdString, SignedData, Ed25519Part, PkOk, AuthFailure, NoMoreAuth, Ascii;
  }

  lemma StepBooks(h: Host, w: World, e: Event)
    requires Inv(w)
    ensures var r := Books(Apply(h, w, e).ch);
            if Opens(w, e) then r == Opening(e.payload)
            else if Hears(w, e, MSG_CHANNEL_WINDOW_ADJUST) then
              r == Books(w.ch).(granted := w.ch.granted + BeValue(e.payload[5..9]))
            else if Hears(w, e, MSG_CHANNEL_DATA) then
              r == Books(w.ch).(used := w.ch.taken + Min(BeValue(e.payload[5..9]), |e.payload| - 9))
            else r == Books(w.ch)
  {
    hide SealInv, GateInv, HandlePacket, Flush, Close, Wire, DataPacket, BeValue, RdString, Ascii, Opening;
    if e.Arrive? {
      if Dispatching(w.phase) {
        ArriveBooks(h, w, e.payload);
      }
    } else {
      CloseBooks(h, w);
    }
  }

  lemma ArriveBooks(h: Host, w: World, pl: seq<byte>)
    requires w.Shaped() && Dispatching(w.phase)
    ensures var r, e := Books(HandlePacket(h, w, pl).ch), Arrive(pl);
            if Opens(w, e) then r == Opening(pl)
            else if Hears(w, e, MSG_CHANNEL_WINDOW_ADJUST) then
              r == Books(w.ch).(granted := w.ch.granted + BeValue(pl[5..9]))
            else if Hears(w, e, MSG_CHANNEL_DATA) then
              r == Books(w.ch).(used := w.ch.taken + Min(BeValue(pl[5..9]), |pl| - 9))
            else r == Books(w.ch)
  {
    hide HandleSession, HandleUserauth, HandleServiceRequest, HandleEcdhInit, HandleKexinit, BeValue, RdString,
         Ascii, Opening, Send;
    if w.phase != Session {
      EarlierChannel(h, w, pl);
    } else if |pl| > 0 {
      SessionBooks(h, w, pl);
    }
  }

  lemma {:induction false} RunBooks(h: Host, ws: seq<World>, es: seq<Event>, n: nat)
    requires IsRun(h, ws, es) && n <= |es|
    ensures Books(ws[n].ch) == AccountOf(ws, es, n)
  {
    hide Inv, Apply, Allowed, Opening, BeValue, Opens, OurKexinit, SendUnenc;
    if n == 0 {
      var drawn: nat :| ws[0] == Reset(h, drawn);
    } else {
      RunBooks(h, ws, es, n - 1);
      RunKeepsInv(h, ws, es, n - 1);
      ShapedNow(ws[n - 1]);
      StepBooks(h, ws[n - 1], es[n - 1]);
    }
  }

  /** A failure is never forgotten. */
  lemma {:induction false} FailureLasts(h: Host, ws: seq<World>, es: seq<Event>, i: nat, n: nat)
    requires IsRun(h, ws, es) && i <= n <= |es| && ws[i].err
    ensures ws[n].err
    decreases n - i
  {
    hide Inv, Apply, Reset, Allowed, Told, Overtakes;
    if i < n {
      FailureLasts(h, ws, es, i, n - 1);
      RunKeepsInv(h, ws, es, n - 1);
      ShapedNow(ws[n - 1]);
      StepKeeping(h, ws[n - 1], es[n - 1]);
    }
  }

  lemma NoOverspending(h: Host, ws: seq<World>, es: seq<Event>, i: nat, n: nat)
    requires IsRun(h, ws, es) && i < n <= |es| && !ws[n].err
    ensures !Overspends(ws[i], es[i])
  {
    hide Apply, Reset, Allowed, SealInv, GateInv;
    RunKeepsInv(h, ws, es, i);
    if ws[i].err {
      FailureLasts(h, ws, es, i, n);
    }
  }

  /** Flow control on the wire. While a run has not failed, its CHANNEL_DATA messages to the client's channel hold no
      more than the client has granted in its own packets, and none holds more than the client's packet size. The window
      and the adjustments the client has been sent add up to exactly the data it has sent and the room it still has,
      which is never less than half the window. */
  lemma FlowOnTheWire(h: Host, ws: seq<World>, es: seq<Event>, n: nat)
    requires IsRun(h, ws, es) && n <= |es| && ws[n].ch.isOpen && !ws[n].err
    ensures var a, p := AccountOf(ws, es, n), Payloads(ws[n].io.log);
            && |Contents(a.channel, p)| + ws[n].ch.peerWindow <= a.granted && Within(a.channel, p, a.limit)
            && TermsOf(a.channel, p) == Terms(a.used + ws[n].ch.localWindow, SSH_CHAN_MAXPKT)
    ensures SSH_LOCAL_WINDOW / 2 <= ws[n].ch.localWindow <= SSH_LOCAL_WINDOW
  {
    hide Apply, Reset, Allowed, Inv, Overspends, Consecutive, TermsOf, Contents, Within, AccountOf;
    forall i | 0 <= i < n
      ensures !Overspends(ws[i], es[i])
    {
      NoOverspending(h, ws, es, i, n);
    }
    FlowControl(h, ws, es, n);
    RunTold(h, ws, es, n);
    RunBooks(h, ws, es, n);
  }
}
