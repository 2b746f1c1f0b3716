/** The session channel seen from the client (dosshd/ssh.c, RFC 4254): what its requests, data and close do, stated on
    the bytes, and what they are answered with. */
module SshSession {
  import opened Bytes
  import opened SshWire
  import opened SshServer
  import opened SshAuth
  import opened SshRuns
  import opened SshClient
  import opened SshCredit
  import opened SshReplies

  /** A message to the client's channel and nothing more. */
  predicate JustTo(p: seq<byte>, msg: byte, channel: nat) {
    |p| == 5 && p[0] == msg && BeValue(p[1..5]) == channel
  }

  lemma ToChannelReads(msg: byte, channel: nat)
    requires channel < U32_LIMIT
    ensures JustTo(ToChannel(msg, channel), msg, channel)
  {
    hide BeBytes, BeValue;
    assert ToChannel(msg, channel)[1..5] == BeBytes(channel);
    BeRoundTrip(channel);
  }

  // ----- opening -----

  /** A CHANNEL_OPEN that does not open a session is refused to its sender, for want of resources to a second session
      (reason 1), as an unknown type otherwise (reason 3). */
  lemma OpenRefused(h: Host, w: World, pl: seq<byte>) returns (p: seq<byte>)
    requires Fit(w) && w.Shaped() && w.k.sendEnc && w.phase == Session && |pl| > 0 && pl[0] == MSG_CHANNEL_OPEN
    requires RdString(pl, 1).Got? && RdString(pl, 1).next + 12 <= |pl|
    requires w.ch.isOpen || RdString(pl, 1).value != Ascii("session")
    ensures var r, o := HandleChannelOpen(h, w, pl), RdString(pl, 1).next;
            && Says(w, r, p) && r.ch == w.ch && |p| >= 9 && p[0] == MSG_CHANNEL_OPEN_FAILURE && p[1..5] == pl[o..o + 4]
            && BeValue(p[5..9]) == (if w.ch.isOpen then 1 else 3)
  {
    hide Send, Fit, BeBytes, BeValue, Ascii, Str, AnswerOpen;
    var o := RdString(pl, 1).next;
    var sender := BeValue(pl[o..o + 4]);
    var reason := if w.ch.isOpen then 1 else 3;
    p := OpenFailure(sender, reason);
    assert p[1..5] == BeBytes(sender) && p[5..9] == BeBytes(reason);
    BeInverse(pl[o..o + 4]);
    BeRoundTrip(reason);
    SendSays(h, w, p);
    SendExchange(h, w, p);
    OpenHandled(h, w, pl);
    RefusedIs(h, w, pl[5..o], sender, BeValue(pl[o + 4..o + 8]), BeValue(pl[o + 8..o + 12]));
  }

  lemma OpenHandled(h: Host, w: World, pl: seq<byte>)
    requires w.Shaped() && RdString(pl, 1).Got? && RdString(pl, 1).next + 12 <= |pl|
    ensures var o := RdString(pl, 1).next;
            && o >= 5 && pl[5..o] == RdString(pl, 1).value
            && HandleChannelOpen(h, w, pl) ==
               AnswerOpen(h, w, pl[5..o], BeValue(pl[o..o + 4]), BeValue(pl[o + 4..o + 8]), BeValue(pl[o + 8..o + 12]))
  {
    hide AnswerOpen, BeValue;
  }

  lemma RefusedIs(h: Host, w: World, name: seq<byte>, sender: nat, window: nat, maxpkt: nat)
    requires w.Shaped() && (w.ch.isOpen || name != Ascii("session"))
    ensures AnswerOpen(h, w, name, sender, window, maxpkt) ==
            Send(h, w, OpenFailure(sender, if w.ch.isOpen then 1 else 3))
  {
    hide Send, OpenFailure, OpenConfirmation, Ascii;
  }

  /** One that does is confirmed to its sender, as the server's channel 0; see SshCredit for the terms. */
  lemma OpenConfirmed(h: Host, w: World, pl: seq<byte>) returns (p: seq<byte>)
    requires Fit(w) && w.Shaped() && w.k.sendEnc && w.phase == Session && !w.ch.isOpen && AsksToOpen(pl)
    ensures var r, o := HandleChannelOpen(h, w, pl), RdString(pl, 1).next;
            && Says(w, r, p) && r.ch.isOpen && |p| == 17 && p[0] == MSG_CHANNEL_OPEN_CONFIRMATION
            && p[1..5] == pl[o..o + 4] && BeValue(p[5..9]) == 0
  {
    hide Send, Fit, BeBytes, BeValue, Ascii, AnswerOpen;
    var o := RdString(pl, 1).next;
    var sender := BeValue(pl[o..o + 4]);
    p := OpenConfirmation(sender);
    assert p[1..5] == BeBytes(sender) && p[5..9] == BeBytes(0);
    BeInverse(pl[o..o + 4]);
    BeRoundTrip(0);
    OpenHandled(h, w, pl);
    ConfirmedSays(h, w, sender, BeValue(pl[o + 4..o + 8]), BeValue(pl[o + 8..o + 12]));
  }

  lemma ConfirmedSays(h: Host, w: World, sender: nat, window: nat, maxpkt: nat)
    requires Fit(w) && w.Shaped() && w.k.sendEnc && !w.ch.isOpen
    ensures var r := AnswerOpen(h, w, Ascii("session"), sender, window, maxpkt);
            Says(w, r, OpenConfirmation(sender)) && r.ch.isOpen
  {
    hide Send, OpenFailure, OpenConfirmation, Ascii;
    var v := w.(ch := OpenedBy(w.ch, sender, window, maxpkt));
    SendSays(h, v, OpenConfirmation(sender));
    SendExchange(h, v, OpenConfirmation(sender));
  }

  // ----- requests -----

  /** The requests that are granted. */
  predicate Known(name: seq<byte>) {
    name == Ascii("pty-req") || name == Ascii("shell") || name == Ascii("exec") || name == Ascii("window-change")
  }

  /** A width and a height in characters, where the request has room for them. */
  function Sized(ch: Channel, rest: seq<byte>, o: nat): Channel {
    if o + 8 <= |rest| then ch.(cols := BeValue(rest[o..o + 4]), rows := BeValue(rest[o + 4..o + 8])) else ch
  }

  /** What a request asks for (section 6 of RFC 4254); `rest` is what follows its want-reply boolean. */
  function Wanted(ch: Channel, name: seq<byte>, rest: seq<byte>): Channel {
    if name == Ascii("pty-req") then
      var term := RdString(rest, 0);
      if term.Got? then Sized(ch, rest, term.next).(pty := true) else ch.(pty := true)
    else if name == Ascii("shell") || name == Ascii("exec") then ch.(shell := true)
    else if name == Ascii("window-change") then Sized(ch, rest, 0)
    else ch
  }

  /** A channel request does what it asks for, and is answered, if it wants an answer, with success exactly when the
      request is known. */
  lemma RequestDone(h: Host, w: World, channel: nat, name: seq<byte>, want: byte, rest: seq<byte>)
    returns (p: seq<byte>)
    requires Fit(w) && w.Shaped() && w.k.sendEnc && |name| < U32_LIMIT && w.ch.peer < U32_LIMIT
    ensures var pl := [MSG_CHANNEL_REQUEST] + BeBytes(channel) + (Str(name) + ([want] + rest));
            var r := HandleChannelRequest(h, w, pl);
            && r.ch == Wanted(w.ch, name, rest)
            && if want == 0 then r == w.(ch := r.ch)
               else
                 && Says(w, r, p)
                 && JustTo(p, if Known(name) then MSG_CHANNEL_SUCCESS else MSG_CHANNEL_FAILURE, w.ch.peer)
  {
    hide Send, Fit, BeBytes, BeValue, Ascii, JustTo, RdString, Request, Wanted;
    var pl := [MSG_CHANNEL_REQUEST] + BeBytes(channel) + (Str(name) + ([want] + rest));
    var o := 9 + |name|;
    NameParsed(pl, channel, name, want, rest);
    RequestIsWanted(w.ch, name, pl, o + 1, rest);
    var q := Request(w.ch, name, pl, o + 1);
    var v := w.(ch := q.0);
    RequestPeer(w.ch, name, pl, o + 1);
    RequestFrame(w.ch, name, pl, o + 1);
    p := ToChannel(if q.1 then MSG_CHANNEL_SUCCESS else MSG_CHANNEL_FAILURE, w.ch.peer);
    ToChannelReads(MSG_CHANNEL_SUCCESS, w.ch.peer);
    ToChannelReads(MSG_CHANNEL_FAILURE, w.ch.peer);
    FitChannel(w, v);
    SendSays(h, v, p);
    SendExchange(h, v, p);
  }

  lemma FitChannel(w: World, v: World)
    requires Fit(w) && v == w.(ch := v.ch) && v.ch.isOpen == w.ch.isOpen
    ensures Fit(v) && v.Shaped()
  {
  }

  lemma NameParsed(pl: seq<byte>, channel: nat, name: seq<byte>, want: byte, rest: seq<byte>)
    requires pl == [MSG_CHANNEL_REQUEST] + BeBytes(channel) + (Str(name) + ([want] + rest)) && |name| < U32_LIMIT
    ensures var o := 9 + |name|;
            && o < |pl| && BeValue(pl[5..9]) == |name| && pl[9..o] == name && pl[o] == want && pl[o + 1..] == rest
  {
    hide BeBytes, BeValue;
    assert pl[5..9] == BeBytes(|name|);
    BeRoundTrip(|name|);
  }

  lemma RequestIsWanted(ch: Channel, name: seq<byte>, pl: seq<byte>, o: nat, rest: seq<byte>)
    requires o <= |pl| && pl[o..] == rest
    ensures Request(ch, name, pl, o) == (Wanted(ch, name, rest), Known(name))
  {
    hide BeValue, Ascii, WithSize, Sized;
    var q := Request(ch, name, pl, o);
    if o + 4 <= |pl| {
      var n := BeValue(pl[o..o + 4]);
      assert pl[o..o + 4] == rest[0..4];
      SizeAt(ch, pl, o, rest, 4 + n);
      assert 4 + n > |rest| ==> Sized(ch, rest, 4 + n) == ch by { NoRoom(ch, rest, 4 + n); }
    }
    SizeAt(ch, pl, o, rest, 0);
    assert name == Ascii("pty-req") ==> q.0 == Wanted(ch, name, rest);
  }

  lemma NoRoom(ch: Channel, rest: seq<byte>, o: nat)
    ensures o > |rest| ==> Sized(ch, rest, o) == ch
  {
  }

  lemma SizeAt(ch: Channel, pl: seq<byte>, o: nat, rest: seq<byte>, k: nat)
    requires o <= |pl| && pl[o..] == rest
    ensures WithSize(ch, pl, o + k) == Sized(ch, rest, k)
  {
    hide BeValue;
    if k + 8 <= |rest| {
      assert pl[o + k..o + k + 4] == rest[k..k + 4] && pl[o + k + 4..o + k + 8] == rest[k + 4..k + 8];
    }
  }

  // ----- data -----

  /** The string of a CHANNEL_DATA is typed, as far as the ring has room; one that claims more than its packet holds
      counts for what is there. */
  lemma DataTyped(h: Host, w: World, pl: seq<byte>)
    requires w.Shaped() && |pl| >= 9
    ensures var r, d := HandleChannelData(h, w, pl), RdString(pl, 5);
            r.io.cin == Typed(w.io.cin, if d.Got? then d.value else pl[9..])
  {
    hide BeValue, Typed, Consume;
    var said := BeValue(pl[5..9]);
    var n := if 9 + said > |pl| then |pl| - 9 else said;
    var data := pl[9..9 + n];
    assert data == if RdString(pl, 5).Got? then RdString(pl, 5).value else pl[9..];
    ConsumeTypes(h, w.(io := w.io.(cin := Typed(w.io.cin, data))), n);
  }

  lemma ConsumeTypes(h: Host, w: World, n: nat)
    requires w.Shaped()
    ensures Consume(h, w, n).io.cin == w.io.cin
  {
    hide Send, WindowAdjust;
  }

  // ----- the end -----

  /** The exit status: zero, and no answer wanted. */
  predicate IsExit(p: seq<byte>, channel: nat) {
    && |p| > 5 && p[0] == MSG_CHANNEL_REQUEST && BeValue(p[1..5]) == channel
    && RdString(p, 5).Got? && RdString(p, 5).value == Ascii("exit-status")
      && p[RdString(p, 5).next..] == [0, 0, 0, 0, 0]
  }

  lemma ExitReads(channel: nat)
    requires channel < U32_LIMIT
    ensures IsExit(ExitStatus(channel), channel)
  {
    hide BeBytes, BeValue, Ascii, RdString, Str;
    var p := ExitStatus(channel);
    var name := Ascii("exit-status");
    assert p[1..5] == BeBytes(channel) && p[5..] == Str(name) + ([0] + BeBytes(0));
    BeRoundTrip(channel);
    ReadBack(p, 5, name, [0] + BeBytes(0));
    ZeroBytes();
  }

  lemma ZeroBytes()
    ensures [0] + BeBytes(0) == [0, 0, 0, 0, 0]
  {
  }

  /** The farewell: the exit status of a shell, then EOF unless it has been said, then CLOSE. */
  ghost predicate Farewell(ps: seq<seq<byte>>, channel: nat, shell: bool, sentEof: bool) {
    var k := if shell then 1 else 0;
    var m := if sentEof then k else k + 1;
    && |ps| == m + 1 && (shell ==> IsExit(ps[0], channel)) && (!sentEof ==> JustTo(ps[k], MSG_CHANNEL_EOF, channel))
    && JustTo(ps[m], MSG_CHANNEL_CLOSE, channel)
  }

  lemma ClosingSays(h: Host, w: World) returns (ps: seq<seq<byte>>)
    requires Fit(w) && w.Shaped() && w.k.sendEnc && w.ch.peer < U32_LIMIT
    ensures var r := Closing(h, w);
            && r.ch == w.ch.(sentEof := true, sentClose := true, closed := true)
            && (r.err || Payloads(r.io.log) == Payloads(w.io.log) + ps)
            && Farewell(ps, w.ch.peer, w.ch.shell, w.ch.sentEof)
  {
    hide Send, ExitStatus, ToChannel, JustTo, IsExit, Fit;
    var peer := w.ch.peer;
    var e := if w.ch.shell then Send(h, w, ExitStatus(peer)) else w;
    var p1 := if w.ch.shell then [ExitStatus(peer)] else [];
    Onward(h, w, ExitStatus(peer));
    EofOnward(h, e);
    var g := if e.ch.sentEof then e
             else var s := Send(h, e, ToChannel(MSG_CHANNEL_EOF, e.ch.peer)); s.(ch := s.ch.(sentEof := true));
    var p2 := if w.ch.sentEof then [] else [ToChannel(MSG_CHANNEL_EOF, peer)];
    Onward(h, g, ToChannel(MSG_CHANNEL_CLOSE, peer));
    var p3 := [ToChannel(MSG_CHANNEL_CLOSE, peer)];
    ps := p1 + p2 + p3;
    assert Payloads(w.io.log) + p1 + p2 + p3 == Payloads(w.io.log) + ps;
    assert Payloads(w.io.log) + [] == Payloads(w.io.log);
    FarewellReads(peer, w.ch.shell, w.ch.sentEof, p1, p2, p3);
  }

  lemma EofOnward(h: Host, e: World)
    requires Fit(e) && e.Shaped() && e.k.sendEnc
    ensures var g := if e.ch.sentEof then e
                     else var s := Send(h, e, ToChannel(MSG_CHANNEL_EOF, e.ch.peer)); s.(ch := s.ch.(sentEof := true));
            && Fit(g) && g.Shaped() && g.k.sendEnc && g.ch == e.ch.(sentEof := true) && (e.err ==> g.err)
            && (g.err || Payloads(g.io.log) ==
                Payloads(e.io.log) + if e.ch.sentEof then [] else [ToChannel(MSG_CHANNEL_EOF, e.ch.peer)])
  {
    hide Send, ToChannel, Fit;
    Onward(h, e, ToChannel(MSG_CHANNEL_EOF, e.ch.peer));
    var s := Send(h, e, ToChannel(MSG_CHANNEL_EOF, e.ch.peer));
    FitChannel(s, s.(ch := s.ch.(sentEof := true)));
    assert Payloads(e.io.log) + [] == Payloads(e.io.log);
  }

  lemma FarewellReads(peer: nat, shell: bool, sentEof: bool, p1: seq<seq<byte>>, p2: seq<seq<byte>>,
      p3: seq<seq<byte>>)
    requires peer < U32_LIMIT && p1 == (if shell then [ExitStatus(peer)] else [])
    requires p2 == (if sentEof then [] else [ToChannel(MSG_CHANNEL_EOF, peer)])
    requires p3 == [ToChannel(MSG_CHANNEL_CLOSE, peer)]
    ensures Farewell(p1 + p2 + p3, peer, shell, sentEof)
  {
    hide ExitStatus, ToChannel, JustTo, IsExit;
    ExitReads(peer);
    ToChannelReads(MSG_CHANNEL_EOF, peer);
    ToChannelReads(MSG_CHANNEL_CLOSE, peer);
  }

  /** One message on. */
  lemma Onward(h: Host, w: World, payload: seq<byte>)
    requires Fit(w) && w.Shaped() && w.k.sendEnc
    ensures var r := Send(h, w, payload);
            && Fit(r) && r.Shaped() && r.k.sendEnc && r.ch == w.ch && (w.err ==> r.err)
            && (r.err || Payloads(r.io.log) == Payloads(w.io.log) + [payload])
  {
    hide Send;
    Sends(h, w, payload);
  }

  /** A CLOSE from the client ends the session, after the server's own farewell if it has not been said. */
  lemma ClientCloses(h: Host, w: World, pl: seq<byte>)
    requires w.Shaped() && w.phase == Session && |pl| > 0 && pl[0] == MSG_CHANNEL_CLOSE
    ensures var r := HandlePacket(h, w, pl);
            && r.phase == Closed && r.ch.closed && (w.ch.isOpen ==> r.ch.sentClose)
            && (w.ch.sentClose || !w.ch.isOpen ==> SaysNothing(w, r))
  {
    hide Send, Flush, ExitStatus, ToChannel, HandleGlobalRequest;
    FlushFrames(h, w);
  }

  /** EOF from the client is remembered and says nothing. */
  lemma ClientEnds(h: Host, w: World, pl: seq<byte>)
    requires w.Shaped() && w.phase == Session && |pl| > 0 && pl[0] == MSG_CHANNEL_EOF
    ensures HandlePacket(h, w, pl) == w.(ch := w.ch.(eof := true))
  {
    hide HandleGlobalRequest;
  }

  // ----- how much a record may carry -----

  /** ssh_channel_avail is exactly what ssh_channel_emit takes, given room for it. */
  lemma AvailableIff(h: Host, w: World, plain: seq<byte>, outmax: nat)
    requires w.Shaped() && w.k.sendEnc && |plain| + 40 <= outmax
    ensures Emit(h, w, plain, outmax).1 != [] <==> 0 < |plain| <= Available(w)
    ensures Available(w) > 0 ==> w.ch.isOpen && w.ch.shell && !w.ch.closed
  {
    hide Emitted, DataPacket;
  }

  /** ssh_channel_putc: refused without a shell, after the close, and when 512 bytes are staged. */
  lemma StagedIff(h: Host, w: World, b: byte)
    requires w.Shaped()
    ensures Apply(h, w, Stage(b)).io.cout ==
            w.io.cout + if w.ch.shell && !w.ch.closed && |w.io.cout| < 512 then [b] else []
  {
    assert w.io.cout + [] == w.io.cout;
  }

  // ----- when a flush stops -----

  /** The flush loop stops only when nothing is left, the client's window is used up or its packets hold nothing, or the
      queue has no room for another packet. */
  lemma {:induction false} FlushFromStops(h: Host, w: World, sent: nat)
    requires Inv(w) && w.ch.isOpen && w.phase != Error && sent <= |w.io.cout|
    ensures var r := FlushFrom(h, w, sent);
            || r.1 == |w.io.cout| || r.0.ch.peerWindow == 0 || r.0.ch.peerMaxpkt == 0
            || |r.0.io.ob| + SSH_CHAN_CHUNK + 64 > SSH_OB_SZ
    decreases |w.io.cout| - sent
  {
    hide SealInv, Follows, FlowInv, GateInv, Keeps, SendData, Paid, FlushFrom, Rank;
    FlushUnfolds(h, w, sent);
    var take := Allowance(w.ch, |w.io.cout| - sent);
    if sent < |w.io.cout| && take > 0 && |w.io.ob| + take + 64 <= SSH_OB_SZ {
      var data := w.io.cout[sent..sent + take];
      ChunkKeeps(h, w, data);
      PaysFor(w.ch, data);
      var s := SendData(h, w, data);
      var t := s.(ch := Paid(s.ch, take));
      OpenedInv(h, w, t);
      FlushFromStops(h, t, sent + take);
    }
  }

  /** So a flush in the session leaves something staged only for want of credit or of room. */
  lemma FlushStops(h: Host, w: World)
    requires Inv(w) && w.ch.isOpen && !w.ch.closed && w.phase != Error
    ensures var r := Flush(h, w);
            || r.io.cout == [] || r.ch.peerWindow == 0 || r.ch.peerMaxpkt == 0
            || |r.io.ob| + SSH_CHAN_CHUNK + 64 > SSH_OB_SZ
  {
    hide Inv, FlushFrom;
    InvShaped(w);
    FlushFromStops(h, w, 0);
  }
}
