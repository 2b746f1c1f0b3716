/** Who gets in (dosshd/ssh.c, RFC 4252): a userauth request authenticates exactly when it carries a credential,
    stated on the bytes of the request and independently of the parser. */
module SshAuth {
  import opened Bytes
  import opened SshWire
  import opened SshRecord
  import opened SshServer

  const ED25519 := Ascii("ssh-ed25519")

  /** A userauth request that may let a client in: any attempt on an open box, the password, or a signature. */
  datatype Credential =
    | Attempt(user: seq<byte>, service: seq<byte>, how: seq<byte>, tail: seq<byte>)
    | Password(user: seq<byte>, service: seq<byte>, secret: seq<byte>, tail: seq<byte>)
    | Signature(user: seq<byte>, service: seq<byte>, flag: byte, blob: Blob, sig: Blob, tail: seq<byte>)
  {
    /** What follows the method name. */
    function Rest(): seq<byte> {
      match this
      case Attempt(_, _, _, tail) => tail
      case Password(_, _, secret, tail) => [0] + (Str(secret) + tail)
      case Signature(_, _, flag, blob, sig, tail) =>
        [flag] + (Str(ED25519) + (Str(blob.Bytes()) + (Str(sig.Bytes()) + tail)))
    }

    function Method(): seq<byte> {
      match this
      case Attempt(_, _, how, _) => how
      case Password(_, _, _, _) => Ascii("password")
      case Signature(_, _, _, _, _, _) => Ascii("publickey")
    }

    function Bytes(): seq<byte> {
      [MSG_USERAUTH_REQUEST] + (Str(user) + (Str(service) + (Str(Method()) + Rest())))
    }

    /** Every length field is a 32-bit number. */
    predicate Sized() {
      && |user| < U32_LIMIT && |service| < U32_LIMIT && |Method()| < U32_LIMIT
      && (Password? ==> |secret| < U32_LIMIT)
      && (Signature? ==> blob.Sized() && sig.Sized())
    }

    predicate Grants(h: Host, session: seq<byte>) {
      match this
      case Attempt(_, _, _, _) => h.Open()
      case Password(_, _, secret, _) => |h.password| > 0 && secret == h.password
      case Signature(_, _, flag, blob, sig, _) =>
        && flag != 0 && |blob.part| == 32 && |sig.part| == 64 && blob.part in h.authkeys
        && h.verify(sig.part, blob.part, SignedData(session, user, service, ED25519, blob.Bytes()))
    }
  }

  /** A key or signature blob: the algorithm name, then the part itself. */
  datatype Blob = Blob(part: seq<byte>, tail: seq<byte>) {
    function Bytes(): seq<byte> {
      Str(ED25519) + (Str(part) + tail)
    }

    predicate Sized() {
      |part| < U32_LIMIT && |Bytes()| < U32_LIMIT
    }
  }

  /** The request carries a credential for this server and this session. */
  ghost predicate Justified(h: Host, session: seq<byte>, pl: seq<byte>) {
    exists c: Credential :: c.Bytes() == pl && c.Sized() && c.Grants(h, session)
  }

  // ----- reading what was written -----

  /** A string read at o, given that the packet continues with it there. */
  lemma ReadBack(pl: seq<byte>, o: nat, s: seq<byte>, rest: seq<byte>)
    requires |s| < U32_LIMIT && o <= |pl| && pl[o..] == Str(s) + rest
    ensures RdString(pl, o) == Got(s, o + 4 + |s|) && pl[o + 4 + |s|..] == rest
  {
    hide BeBytes, BeValue, RdString;
    assert Str(s) <= pl[o..];
    RdStringIff(pl, o, s);
    assert pl[o + 4 + |s|..] == pl[o..][4 + |s|..];
  }

  /** A byte read at o. */
  lemma ByteBack(pl: seq<byte>, o: nat, b: byte, rest: seq<byte>)
    requires o <= |pl| && pl[o..] == [b] + rest
    ensures o < |pl| && pl[o] == b && pl[o + 1..] == rest
  {
    assert pl[o] == pl[o..][0];
    assert pl[o + 1..] == pl[o..][1..];
  }

  lemma PartIff(blob: Blob, n: nat)
    requires blob.Sized() && |blob.part| == n
    ensures Ed25519Part(blob.Bytes(), n).Got? && Ed25519Part(blob.Bytes(), n).value == blob.part
  {
    hide RdString, Str;
    var b := blob.Bytes();
    assert b[0..] == b;
    ReadBack(b, 0, ED25519, Str(blob.part) + blob.tail);
    ReadBack(b, 4 + |ED25519|, blob.part, blob.tail);
  }

  lemma PartSound(bytes: seq<byte>, n: nat) returns (blob: Blob)
    requires Ed25519Part(bytes, n).Got? && |bytes| < U32_LIMIT
    ensures blob.Bytes() == bytes && blob.Sized() && |blob.part| == n && blob.part == Ed25519Part(bytes, n).value
  {
    hide RdString, Str;
    RdStringSound(bytes, 0);
    assert bytes[0..] == bytes;
    var next := RdString(bytes, 0).next;
    RdStringSound(bytes, next);
    var r := RdString(bytes, next);
    blob := Blob(r.value, bytes[r.next..]);
  }

  // ----- the handlers -----

  lemma AcceptGrants(h: Host, w: World)
    requires w.Shaped()
    ensures Accept(h, w).a.authenticated
  {
  }

  lemma RejectDenies(h: Host, w: World, counted: bool)
    requires w.Shaped()
    ensures Reject(h, w, counted).a.authenticated == w.a.authenticated
  {
    hide Send;
  }

  lemma PkOkDenies(h: Host, w: World, algo: seq<byte>, blob: seq<byte>)
    requires w.Shaped()
    ensures SendPkOk(h, w, algo, blob).a.authenticated == w.a.authenticated
  {
    hide Send, Reject;
    RejectDenies(h, w, true);
  }

  /** A password request authenticates exactly when it carries the password. */
  lemma PasswordGrants(h: Host, w: World, pl: seq<byte>, o: nat, c: Credential)
    requires w.Shaped() && c.Password? && c.Sized() && c.secret == h.password && o <= |pl| && pl[o..] == c.Rest()
    ensures HandlePassword(h, w, pl, o).a.authenticated
  {
    hide RdString, Accept, Str;
    ByteBack(pl, o, 0, Str(c.secret) + c.tail);
    ReadBack(pl, o + 1, c.secret, c.tail);
    AcceptGrants(h, w);
  }

  lemma PasswordSound(h: Host, w: World, pl: seq<byte>, o: nat) returns (tail: seq<byte>)
    requires w.Shaped() && !w.a.authenticated && HandlePassword(h, w, pl, o).a.authenticated
    ensures o <= |pl| && |h.password| < U32_LIMIT && pl[o..] == [0] + (Str(h.password) + tail)
  {
    hide RdString, Accept, Reject, Str;
    RejectDenies(h, w, true);
    RdStringSound(pl, o + 1);
    assert pl[o..] == [pl[o]] + pl[o + 1..];
    tail := pl[RdString(pl, o + 1).next..];
  }

  /** A signed publickey request authenticates when its key is authorised and its signature verifies. */
  lemma SignatureGrants(h: Host, w: World, pl: seq<byte>, o: nat, c: Credential)
    requires w.Shaped() && c.Signature? && c.Sized() && c.Grants(h, w.k.session) && o <= |pl| && pl[o..] == c.Rest()
    requires |SignedData(w.k.session, c.user, c.service, ED25519, c.blob.Bytes())| <= SCRATCH_SZ
    ensures HandlePubkey(h, w, pl, o, c.user, c.service).a.authenticated
  {
    hide RdString, Accept, Reject, Str, Ed25519Part, SignedData, Blob.Bytes;
    var b, s := c.blob.Bytes(), c.sig.Bytes();
    var o1 := o + 1 + 4 + |ED25519|;
    ByteBack(pl, o, c.flag, Str(ED25519) + (Str(b) + (Str(s) + c.tail)));
    ReadBack(pl, o + 1, ED25519, Str(b) + (Str(s) + c.tail));
    ReadBack(pl, o1, b, Str(s) + c.tail);
    ReadBack(pl, o1 + 4 + |b|, s, c.tail);
    PartIff(c.blob, 32);
    PartIff(c.sig, 64);
    AcceptGrants(h, w);
  }

  lemma SignatureSound(h: Host, w: World, pl: seq<byte>, o: nat, user: seq<byte>,
      service: seq<byte>) returns (c: Credential)
    requires w.Shaped() && !w.a.authenticated && HandlePubkey(h, w, pl, o, user, service).a.authenticated
    requires |user| < U32_LIMIT && |service| < U32_LIMIT
    ensures c.Signature? && c.user == user && c.service == service && c.Sized() && c.Grants(h, w.k.session)
    ensures o <= |pl| && pl[o..] == c.Rest()
  {
    hide RdString, Accept, Reject, Str, Ed25519Part, SignedData, SendPkOk, Blob.Bytes;
    RejectDenies(h, w, true);
    var a := RdString(pl, o + 1);
    var b := RdString(pl, a.next);
    PkOkDenies(h, w, a.value, b.value);
    var s := RdString(pl, b.next);
    RdStringSound(pl, o + 1);
    RdStringSound(pl, a.next);
    RdStringSound(pl, b.next);
    assert pl[o..] == [pl[o]] + pl[o + 1..];
    var key := PartSound(b.value, 32);
    var sig := PartSound(s.value, 64);
    c := Signature(user, service, pl[o], key, sig, pl[s.next..]);
  }

  /** The front of every request: user, service and method. */
  lemma FrontBack(pl: seq<byte>, c: Credential)
    requires c.Sized() && pl == c.Bytes()
    ensures var o1 := 1 + 4 + |c.user|; var o2 := o1 + 4 + |c.service|; var o3 := o2 + 4 + |c.Method()|;
            && RdString(pl, 1) == Got(c.user, o1) && RdString(pl, o1) == Got(c.service, o2)
            && RdString(pl, o2) == Got(c.Method(), o3)
            && o3 <= |pl| && pl[o3..] == c.Rest()
  {
    hide RdString, Str, Credential.Method, Credential.Rest;
    var o1 := 1 + 4 + |c.user|;
    var o2 := o1 + 4 + |c.service|;
    var r3 := c.Rest();
    var r2 := Str(c.Method()) + r3;
    var r1 := Str(c.service) + r2;
    assert pl[1..] == Str(c.user) + r1;
    ReadBack(pl, 1, c.user, r1);
    ReadBack(pl, o1, c.service, r2);
    ReadBack(pl, o2, c.Method(), r3);
  }

  /** A credential opens the gate. */
  lemma CredentialAccepted(h: Host, w: World, pl: seq<byte>, c: Credential)
    requires w.Shaped() && |w.k.session| == 32 && |pl| <= SSH_IB_SZ
    requires c.Bytes() == pl && c.Sized() && c.Grants(h, w.k.session)
    ensures HandleUserauth(h, w, pl).a.authenticated
  {
    hide RdString, Accept, Reject, Str, HandlePassword, HandlePubkey, SignedData, Blob.Bytes, Credential.Rest,
         Credential.Bytes;
    FrontBack(pl, c);
    var o3 := 1 + 4 + |c.user| + 4 + |c.service| + 4 + |c.Method()|;
    var u := w.(a := w.a.(user := if |c.user| < 63 then c.user else c.user[..63]));
    AcceptGrants(h, u);
    if !h.Open() {
      assert |Ascii("publickey")| != |Ascii("password")|;
      if c.Password? {
        PasswordGrants(h, u, pl, o3, c);
      } else {
        SignatureFits(c);
        SignatureGrants(h, u, pl, o3, c);
      }
    }
  }

  /** The guard on the scratch buffer never fires for a packet that fitted the input buffer. */
  lemma SignatureFits(c: Credential)
    requires c.Signature?
    ensures 4 + 32 + 1 + 4 + |c.user| + 4 + |c.service| + 13 + 1 + 4 + |ED25519| + 4
        + |c.blob.Bytes()| <= |c.Bytes()| + 128
  {
    hide Blob.Bytes;
  }

  /** The front of a request, taken apart, is the front of the credential put together. */
  lemma FrontSound(pl: seq<byte>, c: Credential)
    requires |pl| > 0 && pl[0] == MSG_USERAUTH_REQUEST && RdString(pl, 1).Got?
    requires var r1 := RdString(pl, 1); RdString(pl, r1.next).Got? && RdString(pl, RdString(pl, r1.next).next).Got?
    requires var r1 := RdString(pl, 1); var r2 := RdString(pl, r1.next); var r3 := RdString(pl, r2.next);
             c.user == r1.value && c.service == r2.value && c.Method() == r3.value && c.Rest() == pl[r3.next..]
    ensures c.Bytes() == pl && |c.user| < U32_LIMIT && |c.service| < U32_LIMIT && |c.Method()| < U32_LIMIT
  {
    hide RdString, Str, Credential.Method, Credential.Rest;
    var r1 := RdString(pl, 1);
    var r2 := RdString(pl, r1.next);
    RdStringSound(pl, 1);
    RdStringSound(pl, r1.next);
    RdStringSound(pl, r2.next);
    assert pl == [pl[0]] + pl[1..];
  }

  /** Whoever gets in showed a credential. */
  lemma AcceptedCredential(h: Host, w: World, pl: seq<byte>) returns (c: Credential)
    requires w.Shaped() && !w.a.authenticated && HandleUserauth(h, w, pl).a.authenticated
    requires |pl| > 0 && pl[0] == MSG_USERAUTH_REQUEST
    ensures c.Bytes() == pl && c.Sized() && c.Grants(h, w.k.session)
  {
    hide RdString, Accept, Reject, Str, HandlePassword, HandlePubkey, SignedData, Blob.Bytes, Credential.Bytes;
    var r1 := RdString(pl, 1);
    var r2 := RdString(pl, r1.next);
    var r3 := RdString(pl, r2.next);
    RdStringSound(pl, 1);
    RdStringSound(pl, r1.next);
    var u := w.(a := w.a.(user := if |r1.value| < 63 then r1.value else r1.value[..63]));
    RejectDenies(h, u, true);
    RejectDenies(h, u, r3.value != Ascii("none"));
    if h.Open() {
      c := Attempt(r1.value, r2.value, r3.value, pl[r3.next..]);
    } else if r3.value == Ascii("publickey") {
      c := SignatureSound(h, u, pl, r3.next, r1.value, r2.value);
    } else {
      var tail := PasswordSound(h, u, pl, r3.next);
      c := Password(r1.value, r2.value, h.password, tail);
    }
    FrontSound(pl, c);
  }

  /** The gate: a userauth request authenticates if and only if it is justified. */
  lemma GateIff(h: Host, w: World, pl: seq<byte>)
    requires w.Shaped() && |w.k.session| == 32 && !w.a.authenticated && 0 < |pl| <= SSH_IB_SZ
    requires pl[0] == MSG_USERAUTH_REQUEST
    ensures HandleUserauth(h, w, pl).a.authenticated <==> Justified(h, w.k.session, pl)
  {
    hide HandleUserauth, Credential.Bytes, Credential.Sized, Credential.Grants;
    if HandleUserauth(h, w, pl).a.authenticated {
      var c := AcceptedCredential(h, w, pl);
    }
    if Justified(h, w.k.session, pl) {
      var c: Credential :| c.Bytes() == pl && c.Sized() && c.Grants(h, w.k.session);
      CredentialAccepted(h, w, pl, c);
    }
  }

  /** A key probe (section 7 of RFC 4252): method "publickey", boolean FALSE, and whatever follows. */
  function ProbeBytes(user: seq<byte>, service: seq<byte>, rest: seq<byte>): seq<byte> {
    Attempt(user, service, Ascii("publickey"), [0] + rest).Bytes()
  }

  /** On a gated box a probe never authenticates, authorised key or not, well-formed or not. */
  lemma ProbeNeverAuthenticates(h: Host, w: World, user: seq<byte>, service: seq<byte>, rest: seq<byte>)
    requires w.Shaped() && !w.a.authenticated && !h.Open() && |user| < U32_LIMIT && |service| < U32_LIMIT
    ensures !HandleUserauth(h, w, ProbeBytes(user, service, rest)).a.authenticated
  {
    hide RdString, Accept, Reject, Str, HandlePassword, HandlePubkey, SignedData, Blob.Bytes, Credential.Bytes;
    var c := Attempt(user, service, Ascii("publickey"), [0] + rest);
    var pl := c.Bytes();
    FrontBack(pl, c);
    var o3 := 1 + 4 + |user| + 4 + |service| + 4 + |c.Method()|;
    ByteBack(pl, o3, 0, rest);
    var u := w.(a := w.a.(user := if |user| < 63 then user else user[..63]));
    RejectDenies(h, u, true);
    ProbeDenied(h, u, pl, o3, user, service);
  }

  lemma ProbeDenied(h: Host, w: World, pl: seq<byte>, o: nat, user: seq<byte>, service: seq<byte>)
    requires w.Shaped() && o < |pl| && pl[o] == 0
    ensures HandlePubkey(h, w, pl, o, user, service).a.authenticated == w.a.authenticated
  {
    hide RdString, Accept, Reject, Ed25519Part, SendPkOk, SignedData;
    RejectDenies(h, w, true);
    var a := RdString(pl, o + 1);
    if a.Got? {
      var b := RdString(pl, a.next);
      if b.Got? {
        PkOkDenies(h, w, a.value, b.value);
      }
    }
  }
}
