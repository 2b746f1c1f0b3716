/** What each request to the SSH server is answered with (dosshd/ssh.c), read from the bytes of the answer, and what it
    does, stated on the bytes of the request. */
module SshReplies {
  import opened Bytes
  import opened SshWire
  import opened SshRecord
  import opened SshServer
  import opened SshAuth
  import opened SshClient
  import opened SshCredit
  import opened SshOverrun
  import opened SshOffer

  /** Exactly this is sealed next, unless the connection fails. */
  ghost predicate Says(w: World, r: World, payload: seq<byte>) {
    r.err || Payloads(r.io.log) == Payloads(w.io.log) + [payload]
  }

  ghost predicate SaysNothing(w: World, r: World) {
    r.io.log == w.io.log && r.io.packets == w.io.packets
  }

  lemma SendSays(h: Host, w: World, payload: seq<byte>)
    requires Fit(w) && w.k.sendEnc
    ensures Says(w, Send(h, w, payload), payload) && w.Shaped()
  {
    hide Send;
    Sends(h, w, payload);
  }

  // ----- service and global requests -----

  /** A service request is accepted exactly when its name is a string of the packet shorter than 64 bytes; the answer
      names the same service. */
  lemma ServiceIff(h: Host, w: World, pl: seq<byte>) returns (p: seq<byte>)
    requires Fit(w) && w.k.sendEnc && w.phase == ExpectService
    ensures var r, name := HandleServiceRequest(h, w, pl), RdString(pl, 1);
            if name.Got? && |name.value| < 64 then
              && Says(w, r, p) && r.phase == Auth && r.x.svcName == name.value
              && |p| > 0 && p[0] == MSG_SERVICE_ACCEPT && RdString(p, 1) == Got(name.value, |p|)
            else r == Fail(w)
  {
    hide Send, BeValue, Fit, BeBytes;
    FitShaped(w);
    p := [];
    if RdString(pl, 1).Got? && |RdString(pl, 1).value| < 64 {
      var name := RdString(pl, 1).value;
      p := ServiceAccept(name);
      var v := w.(x := w.x.(svcName := name, done := true));
      FitSame(w, v);
      SendSays(h, v, p);
      SendExchange(h, v, p);
      assert p[1..] == Str(name) + [];
      ReadBack(p, 1, name, []);
    }
  }

  lemma FitShaped(w: World)
    requires Fit(w)
    ensures w.Shaped()
  {
  }

  lemma SendExchange(h: Host, w: World, payload: seq<byte>)
    requires w.Shaped()
    ensures Send(h, w, payload).x == w.x && Send(h, w, payload).ch == w.ch && Send(h, w, payload).a == w.a
  {
    hide Send;
  }

  /** A global request is refused exactly when it is a whole string followed by a boolean that is set; otherwise nothing
      happens. */
  lemma GlobalIff(h: Host, w: World, pl: seq<byte>)
    requires Fit(w) && w.k.sendEnc
    ensures var r, name := HandleGlobalRequest(h, w, pl), RdString(pl, 1);
            if name.Got? && name.next < |pl| && pl[name.next] != 0 then Says(w, r, [MSG_REQUEST_FAILURE]) else r == w
  {
    hide Send, BeValue, Fit;
    FitShaped(w);
    SendSays(h, w, [MSG_REQUEST_FAILURE]);
  }

  // ----- authentication -----

  /** The front of a request can be read. */
  predicate Readable3(pl: seq<byte>) {
    && RdString(pl, 1).Got? && RdString(pl, RdString(pl, 1).next).Got?
    && RdString(pl, RdString(pl, RdString(pl, 1).next).next).Got?
  }

  function MethodOf(pl: seq<byte>): seq<byte>
    requires Readable3(pl)
  {
    RdString(pl, RdString(pl, RdString(pl, 1).next).next).value
  }

  /** A question whether an authorised key would do (section 7 of RFC 4252), short enough for its answer's buffer. */
  ghost predicate Asks(h: Host, pl: seq<byte>, b: Blob) {
    && b.Sized() && |b.part| == 32 && b.part in h.authkeys && 20 + |b.Bytes()| <= 128
    && exists c, tail :: AskedBy(pl, b, c, tail)
  }

  /** The request is a publickey one with the boolean FALSE, the algorithm and the key. */
  ghost predicate AskedBy(pl: seq<byte>, b: Blob, c: Credential, tail: seq<byte>) {
    && c.Attempt? && c.how == Ascii("publickey") && c.Sized() && c.Bytes() == pl
    && c.tail == [0] + (Str(ED25519) + (Str(b.Bytes()) + tail))
  }

  /** What becomes of a publickey request. */
  lemma PubkeyCases(h: Host, w: World, pl: seq<byte>, o: nat, user: seq<byte>, service: seq<byte>)
    returns (b: Blob, tail: seq<byte>)
    requires w.Shaped()
    ensures var r := HandlePubkey(h, w, pl, o, user, service);
            || r == Accept(h, w) || r == Reject(h, w, true)
            || (&& r == Send(h, w, PkOk(ED25519, b.Bytes())) && b.Sized() && |b.part| == 32 && b.part in h.authkeys
                && 20 + |b.Bytes()| <= 128
                && o <= |pl| && pl[o..] == [0] + (Str(ED25519) + (Str(b.Bytes()) + tail)))
  {
    hide RdString, Accept, Reject, Str, Ed25519Part, SignedData, Blob.Bytes, Send;
    b, tail := Blob([], []), [];
    if o + 1 <= |pl| && pl[o] == 0 && RdString(pl, o + 1).Got? {
      var algo := RdString(pl, o + 1);
      if RdString(pl, algo.next).Got? && algo.value == ED25519 {
        var blob := RdString(pl, algo.next);
        RdStringSound(pl, o + 1);
        RdStringSound(pl, algo.next);
        if Ed25519Part(blob.value, 32).Got? {
          b := PartSound(blob.value, 32);
          tail := pl[blob.next..];
          assert pl[o..] == [pl[o]] + pl[o + 1..];
          assert |ED25519| == 11;
        }
      }
    }
  }

  lemma PubkeyProbe(h: Host, w: World, pl: seq<byte>, o: nat, user: seq<byte>, service: seq<byte>, b: Blob,
      tail: seq<byte>)
    requires w.Shaped() && b.Sized() && |b.part| == 32 && b.part in h.authkeys && 20 + |b.Bytes()| <= 128
    requires o <= |pl| && pl[o..] == [0] + (Str(ED25519) + (Str(b.Bytes()) + tail))
    ensures HandlePubkey(h, w, pl, o, user, service) == Send(h, w, PkOk(ED25519, b.Bytes()))
  {
    hide RdString, Accept, Reject, Str, Ed25519Part, SignedData, Blob.Bytes, Send, PkOk;
    ByteBack(pl, o, 0, Str(ED25519) + (Str(b.Bytes()) + tail));
    ReadBack(pl, o + 1, ED25519, Str(b.Bytes()) + tail);
    ReadBack(pl, o + 1 + 4 + |ED25519|, b.Bytes(), tail);
    PartIff(b, 32);
    assert |ED25519| == 11;
  }

  /** A publickey request goes to its handler. */
  lemma PubkeyHandled(h: Host, w: World, pl: seq<byte>, c: Credential)
    requires w.Shaped() && !h.Open() && |h.authkeys| > 0 && c.Sized() && pl == c.Bytes()
    requires c.Method() == Ascii("publickey")
    ensures var o := 1 + 4 + |c.user| + 4 + |c.service| + 4 + |c.Method()|;
            var u := w.(a := w.a.(user := if |c.user| < 63 then c.user else c.user[..63]));
            && o <= |pl| && pl[o..] == c.Rest()
            && HandleUserauth(h, w, pl) == HandlePubkey(h, u, pl, o, c.user, c.service)
  {
    hide RdString, Accept, Reject, HandlePassword, HandlePubkey, Credential.Bytes, Credential.Rest, Ascii;
    FrontBack(pl, c);
  }

  /** Such a question is answered with the same algorithm and key, and nothing else changes. */
  lemma ProbeAnswered(h: Host, w: World, pl: seq<byte>, b: Blob) returns (user: seq<byte>)
    requires w.Shaped() && !h.Open() && Asks(h, pl, b)
    ensures HandleUserauth(h, w, pl) == Send(h, w.(a := w.a.(user := user)), PkOk(ED25519, b.Bytes()))
  {
    hide Str, Blob.Bytes, Credential.Bytes, Send, HandleUserauth, HandlePubkey, PkOk, Ascii, Credential.Sized,
         Blob.Sized;
    var c, tail :| AskedBy(pl, b, c, tail);
    var o := 1 + 4 + |c.user| + 4 + |c.service| + 4 + |c.Method()|;
    user := if |c.user| < 63 then c.user else c.user[..63];
    SomeKeys(h, b.part);
    PubkeyHandled(h, w, pl, c);
    PubkeyProbe(h, w.(a := w.a.(user := user)), pl, o, c.user, c.service, b, tail);
  }

  lemma SomeKeys(h: Host, key: seq<byte>)
    requires key in h.authkeys
    ensures |h.authkeys| > 0
  {
  }

  /** Without a credential or such a question, a request that can be read is refused; it counts unless its method is
      "none". */
  lemma Refused(h: Host, w: World, pl: seq<byte>) returns (user: seq<byte>)
    requires w.Shaped() && |w.k.session| == 32 && !w.a.authenticated && 0 < |pl| <= SSH_IB_SZ
    requires pl[0] == MSG_USERAUTH_REQUEST && Readable3(pl)
    requires !Justified(h, w.k.session, pl) && forall b :: !Asks(h, pl, b)
    ensures !h.Open()
    ensures HandleUserauth(h, w, pl) == Reject(h, w.(a := w.a.(user := user)), MethodOf(pl) != Ascii("none"))
  {
    hide RdString, Accept, Reject, HandlePassword, HandlePubkey, Justified, Asks, Credential.Bytes;
    var r1 := RdString(pl, 1);
    var r2 := RdString(pl, r1.next);
    var r3 := RdString(pl, r2.next);
    user := if |r1.value| < 63 then r1.value else r1.value[..63];
    var u := w.(a := w.a.(user := user));
    GateIff(h, w, pl);
    AcceptGrants(h, u);
    NotNone();
    if !h.Open() && r3.value == Ascii("publickey") && |h.authkeys| > 0 {
      PubkeyRefused(h, u, pl, r1.value, r2.value, r3.next);
    } else if !h.Open() {
      PasswordCases(h, u, pl, r3.next);
    }
  }

  lemma NotNone()
    ensures Ascii("publickey") != Ascii("none") && Ascii("password") != Ascii("none")
    ensures Ascii("publickey") != Ascii("password")
  {
    assert |Ascii("publickey")| != |Ascii("none")| && |Ascii("password")| != |Ascii("none")|;
    assert |Ascii("publickey")| != |Ascii("password")|;
  }

  lemma PasswordCases(h: Host, w: World, pl: seq<byte>, o: nat)
    requires w.Shaped()
    ensures HandlePassword(h, w, pl, o) == Accept(h, w) || HandlePassword(h, w, pl, o) == Reject(h, w, true)
  {
    hide RdString, Accept, Reject;
  }

  lemma PubkeyRefused(h: Host, w: World, pl: seq<byte>, user: seq<byte>, service: seq<byte>, o: nat)
    requires w.Shaped() && |pl| > 0 && pl[0] == MSG_USERAUTH_REQUEST
    requires RdString(pl, 1).Got? && RdString(pl, 1).value == user && RdString(pl, RdString(pl, 1).next).Got?
    requires var r2 := RdString(pl, RdString(pl, 1).next);
             r2.value == service && RdString(pl, r2.next) == Got(Ascii("publickey"), o)
    requires forall b :: !Asks(h, pl, b)
    requires !HandlePubkey(h, w, pl, o, user, service).a.authenticated
    ensures HandlePubkey(h, w, pl, o, user, service) == Reject(h, w, true)
  {
    hide RdString, Accept, Reject, HandlePubkey, Str, Blob.Bytes, Send, Ascii, Asks, Blob.Sized;
    var b, tail := PubkeyCases(h, w, pl, o, user, service);
    AcceptGrants(h, w);
    if HandlePubkey(h, w, pl, o, user, service) != Reject(h, w, true) {
      WasAsked(h, pl, user, service, o, b, tail);
      assert false;
    }
  }

  lemma WasAsked(h: Host, pl: seq<byte>, user: seq<byte>, service: seq<byte>, o: nat, b: Blob, tail: seq<byte>)
    requires |pl| > 0 && pl[0] == MSG_USERAUTH_REQUEST
    requires RdString(pl, 1).Got? && RdString(pl, 1).value == user && RdString(pl, RdString(pl, 1).next).Got?
    requires var r2 := RdString(pl, RdString(pl, 1).next);
             r2.value == service && RdString(pl, r2.next) == Got(Ascii("publickey"), o)
    requires b.Sized() && |b.part| == 32 && b.part in h.authkeys && 20 + |b.Bytes()| <= 128
    requires o <= |pl| && pl[o..] == [0] + (Str(ED25519) + (Str(b.Bytes()) + tail))
    ensures Asks(h, pl, b)
  {
    hide RdString, Str, Blob.Bytes, Credential.Bytes, Ascii;
    var rest := Str(ED25519) + (Str(b.Bytes()) + tail);
    var c := Attempt(user, service, Ascii("publickey"), [0] + rest);
    FrontSound(pl, c);
    assert AskedBy(pl, b, c, tail);
  }

  /** The answer to a refusal. The third counted one ends the connection, with a DISCONNECT for want of authentication
      methods (reason 14); the others are told the methods that can still succeed, one for each kind of secret the box
      has, and that there is no partial success. */
  lemma RefusalSays(h: Host, w: World, counted: bool) returns (p: seq<byte>)
    requires Fit(w) && w.Shaped() && w.k.sendEnc && w.phase == Auth && !h.Open()
    ensures var r := Reject(h, w, counted);
            && r.a == w.a.(fails := w.a.fails + if counted then 1 else 0) && Says(w, r, p)
            && if r.a.fails >= SSH_MAX_AUTH_TRIES then r.phase == Closed && IsFarewell(p)
               else (r.phase == Auth || r.err) && IsFailure(h, p)
  {
    hide Send, Fit, IsFarewell, IsFailure, NoMoreAuth, AuthFailure;
    var v := w.(a := w.a.(fails := w.a.fails + if counted then 1 else 0));
    FitSame(w, v);
    FarewellReads();
    FailureReads(h);
    p := if v.a.fails >= SSH_MAX_AUTH_TRIES then NoMoreAuth() else AuthFailure(h);
    SendSays(h, v, p);
    SendKept(h, v, p);
  }

  predicate IsFarewell(p: seq<byte>) {
    |p| >= 5 && p[0] == MSG_DISCONNECT && BeValue(p[1..5]) == 14
  }

  predicate IsFailure(h: Host, p: seq<byte>) {
    && |p| > 0 && p[0] == MSG_USERAUTH_FAILURE && RdString(p, 1).Got? && p[RdString(p, 1).next..] == [0]
    && var names := Names(RdString(p, 1).value);
       && (Ascii("publickey") in names <==> |h.authkeys| > 0) && (Ascii("password") in names <==> |h.password| > 0)
       && |names| <= 2
  }

  lemma FarewellReads()
    ensures IsFarewell(NoMoreAuth())
  {
    hide BeBytes, BeValue, Ascii, Str;
    assert NoMoreAuth()[1..5] == BeBytes(14);
    BeRoundTrip(14);
  }

  lemma FailureReads(h: Host)
    requires !h.Open()
    ensures IsFailure(h, AuthFailure(h))
  {
    hide RdString, Ascii, Methods, Names, Str;
    var p := AuthFailure(h);
    MethodsName(h);
    assert p[1..] == Str(Methods(h)) + [0];
    ReadBack(p, 1, Methods(h), [0]);
  }

  lemma SendKept(h: Host, w: World, payload: seq<byte>)
    requires w.Shaped() && (w.phase == Error ==> w.err)
    ensures var r := Send(h, w, payload); r.a == w.a && r.ch == w.ch && r.x == w.x && (r.phase == w.phase || r.err)
  {
    hide Send;
  }

  lemma MethodsName(h: Host)
    requires !h.Open()
    ensures var names := Names(Methods(h));
            && |Methods(h)| < U32_LIMIT && |names| <= 2
            && (Ascii("publickey") in names <==> |h.authkeys| > 0) && (Ascii("password") in names <==> |h.password| > 0)
  {
    hide Names, Ascii;
    NotNone();
    PlainMethods();
    SingleName(Ascii("publickey"));
    SingleName(Ascii("password"));
    BothMethods();
  }

  lemma PlainMethods()
    ensures COMMA !in Ascii("publickey") && COMMA !in Ascii("password")
  {
    assert forall i :: 0 <= i < 9 ==> "publickey"[i] != ',';
    assert forall i :: 0 <= i < 8 ==> "password"[i] != ',';
  }

  lemma BothMethods()
    ensures Names(Ascii("publickey,password")) == [Ascii("publickey"), Ascii("password")]
  {
    hide Names;
    var names := [Ascii("publickey"), Ascii("password")];
    PlainMethods();
    assert names[..1] == [names[0]];
    assert "publickey,password" == "publickey" + "," + "password";
    assert Join(names) == Ascii("publickey,password");
    NamesJoined(names);
  }

  /** A justified request is accepted. */
  lemma Granted(h: Host, w: World, pl: seq<byte>) returns (user: seq<byte>)
    requires w.Shaped() && |w.k.session| == 32 && !w.a.authenticated && 0 < |pl| <= SSH_IB_SZ
    requires pl[0] == MSG_USERAUTH_REQUEST && Justified(h, w.k.session, pl)
    ensures Readable3(pl) && HandleUserauth(h, w, pl) == Accept(h, w.(a := w.a.(user := user)))
  {
    hide RdString, Accept, Reject, HandlePassword, HandlePubkey, Justified, Credential.Bytes, Blob.Bytes, Send, Str;
    GateIff(h, w, pl);
    var r1 := RdString(pl, 1);
    var r2 := RdString(pl, r1.next);
    var r3 := RdString(pl, r2.next);
    user := if |r1.value| < 63 then r1.value else r1.value[..63];
    var u := w.(a := w.a.(user := user));
    RejectDenies(h, u, true);
    RejectDenies(h, u, false);
    if r3.Got? {
      PasswordCases(h, u, pl, r3.next);
      PubkeyGranted(h, u, pl, r3.next, r1.value, r2.value);
    }
  }

  lemma PubkeyGranted(h: Host, w: World, pl: seq<byte>, o: nat, user: seq<byte>, service: seq<byte>)
    requires w.Shaped() && !w.a.authenticated
    ensures HandlePubkey(h, w, pl, o, user, service).a.authenticated ==>
              HandlePubkey(h, w, pl, o, user, service) == Accept(h, w)
  {
    hide Accept, Reject, HandlePubkey, Blob.Bytes, Send, Str;
    var b, tail := PubkeyCases(h, w, pl, o, user, service);
    RejectDenies(h, w, true);
    SendExchange(h, w, PkOk(ED25519, b.Bytes()));
  }

  lemma PkOkReads(b: Blob)
    requires b.Sized()
    ensures var p := PkOk(ED25519, b.Bytes());
            && p[0] == MSG_USERAUTH_PK_OK && RdString(p, 1) == Got(ED25519, 16)
            && RdString(p, 16) == Got(b.Bytes(), |p|)
  {
    hide RdString, Str, Ascii, Blob.Bytes;
    var p := PkOk(ED25519, b.Bytes());
    assert p[1..] == Str(ED25519) + Str(b.Bytes());
    ReadBack(p, 1, ED25519, Str(b.Bytes()));
    assert Str(b.Bytes()) + [] == Str(b.Bytes());
    ReadBack(p, 16, b.Bytes(), []);
  }

  /** The request counts against the client: it can be read, and neither lets it in nor asks about an authorised key nor
      uses the method "none". */
  ghost predicate Fails(h: Host, session: seq<byte>, pl: seq<byte>) {
    && Readable3(pl) && MethodOf(pl) != Ascii("none")
    && !Justified(h, session, pl) && forall b :: !Asks(h, pl, b)
  }

  /** The verdict on a userauth request. */
  lemma Verdict(h: Host, w: World, pl: seq<byte>) returns (p: seq<byte>)
    requires Fit(w) && w.Shaped() && w.k.sendEnc && w.phase == Auth && |w.k.session| == 32 && !w.a.authenticated
    requires 0 < |pl| <= SSH_IB_SZ && pl[0] == MSG_USERAUTH_REQUEST
    ensures var r := HandleUserauth(h, w, pl);
            && r.a.fails == w.a.fails + (if Fails(h, w.k.session, pl) then 1 else 0)
            && if !Readable3(pl) then r == Fail(w)
               else
                 && Says(w, r, p)
                 && if Justified(h, w.k.session, pl) then r.phase == Session && p == [MSG_USERAUTH_SUCCESS]
                    else if exists b :: Asks(h, pl, b) then
                      && |p| > 0 && p[0] == MSG_USERAUTH_PK_OK && (r.phase == Auth || r.err)
                      && RdString(p, 1) == Got(ED25519, 16) && RdString(p, 16).Got?
                      && exists b :: Asks(h, pl, b) && RdString(p, 16).value == b.Bytes()
                    else if r.a.fails >= SSH_MAX_AUTH_TRIES then r.phase == Closed && IsFarewell(p)
                    else (r.phase == Auth || r.err) && IsFailure(h, p)
  {
    hide RdString, Accept, Reject, HandleUserauth, Justified, Asks, Send, IsFarewell, IsFailure, Fit, PkOk, Ascii,
         Blob.Bytes;
    p := [];
    if !Readable3(pl) {
      Unreadable(h, w, pl);
      if Justified(h, w.k.session, pl) {
        var _ := Granted(h, w, pl);
      }
    } else if Justified(h, w.k.session, pl) {
      var user := Granted(h, w, pl);
      p := [MSG_USERAUTH_SUCCESS];
      AcceptSays(h, w, w.(a := w.a.(user := user)));
    } else if b :| Asks(h, pl, b) {
      ProbeSays(h, w, pl, b);
      p := PkOk(ED25519, b.Bytes());
    } else {
      var user := Refused(h, w, pl);
      var u := w.(a := w.a.(user := user));
      FitSame(w, u);
      p := RefusalSays(h, u, MethodOf(pl) != Ascii("none"));
    }
  }

  lemma Unreadable(h: Host, w: World, pl: seq<byte>)
    requires w.Shaped() && !Readable3(pl)
    ensures HandleUserauth(h, w, pl) == Fail(w)
  {
    hide RdString, Accept, Reject, HandlePassword, HandlePubkey, Ascii;
  }

  lemma AcceptSays(h: Host, w: World, u: World)
    requires Fit(w) && w.k.sendEnc && u == w.(a := u.a) && u.Shaped()
    ensures Says(w, Accept(h, u), [MSG_USERAUTH_SUCCESS]) && Accept(h, u).phase == Session
    ensures Accept(h, u).a.fails == u.a.fails
  {
    hide Send, Fit;
    FitSame(w, u);
    SendSays(h, u, [MSG_USERAUTH_SUCCESS]);
    SendExchange(h, u, [MSG_USERAUTH_SUCCESS]);
  }

  lemma ProbeSays(h: Host, w: World, pl: seq<byte>, b: Blob)
    requires Fit(w) && w.Shaped() && w.k.sendEnc && w.phase == Auth && Asks(h, pl, b) && !w.a.authenticated
    requires |w.k.session| == 32 && 0 < |pl| <= SSH_IB_SZ && pl[0] == MSG_USERAUTH_REQUEST
    requires !Justified(h, w.k.session, pl) && Readable3(pl)
    ensures var r, p := HandleUserauth(h, w, pl), PkOk(ED25519, b.Bytes());
            && Says(w, r, p) && r.a.fails == w.a.fails && (r.phase == Auth || r.err)
            && |p| > 0 && p[0] == MSG_USERAUTH_PK_OK && RdString(p, 1) == Got(ED25519, 16)
            && RdString(p, 16).Got? && RdString(p, 16).value == b.Bytes()
  {
    hide Send, Fit, RdString, Justified, PkOk, Ascii, Blob.Bytes, HandleUserauth;
    GateIff(h, w, pl);
    NotOpen(h, w, pl);
    var user := ProbeAnswered(h, w, pl, b);
    var u := w.(a := w.a.(user := user));
    FitSame(w, u);
    SendSays(h, u, PkOk(ED25519, b.Bytes()));
    SendKept(h, u, PkOk(ED25519, b.Bytes()));
    PkOkReads(b);
  }

  /** An open box accepts whatever it can read. */
  lemma NotOpen(h: Host, w: World, pl: seq<byte>)
    requires w.Shaped() && Readable3(pl) && !HandleUserauth(h, w, pl).a.authenticated
    ensures !h.Open()
  {
    hide RdString, Accept, Reject, HandlePassword, HandlePubkey, Ascii;
    if h.Open() {
      var r1 := RdString(pl, 1);
      AcceptGrants(h, w.(a := w.a.(user := if |r1.value| < 63 then r1.value else r1.value[..63])));
    }
  }
}
