/** Algorithm negotiation (dosshd/ssh.c, section 7.1 of RFC 4253) stated on the names a client offers. */
module SshOffer {
  import opened Bytes
  import opened SshWire
  import opened SshServer
  import opened SshOverrun

  // ----- name-lists -----

  /** A name-list: the names with commas between them. */
  function Join(names: seq<seq<byte>>): seq<byte> {
    if |names| == 0 then []
    else if |names| == 1 then names[0]
    else Join(names[..|names| - 1]) + [COMMA] + names[|names| - 1]
  }

  predicate Proper(names: seq<seq<byte>>) {
    |names| > 0 && forall i :: 0 <= i < |names| ==> COMMA !in names[i]
  }

  lemma {:induction false} NamesAfterComma(list: seq<byte>, name: seq<byte>)
    requires COMMA !in name
    ensures Names(list + [COMMA] + name) == Names(list) + [name]
  {
    hide Names;
    var all := list + [COMMA] + name;
    if |name| == 0 {
      NamesNext(all, |list|);
      assert all[..|list|] == list && all[..|list| + 1] == all;
    } else {
      var n := |name| - 1;
      NamesAfterComma(list, name[..n]);
      NamesNext(all, |all| - 1);
      assert all[..|all| - 1] == list + [COMMA] + name[..n] && all[..|all| - 1 + 1] == all;
      assert name[..n] + [name[n]] == name;
    }
  }

  /** Splitting undoes joining. */
  lemma {:induction false} NamesJoined(names: seq<seq<byte>>)
    requires Proper(names)
    ensures Names(Join(names)) == names
  {
    hide Names;
    var n := |names| - 1;
    if n == 0 {
      SingleName(names[0]);
      assert names == [names[0]];
    } else {
      NamesJoined(names[..n]);
      NamesAfterComma(Join(names[..n]), names[n]);
      assert names[..n] + [names[n]] == names;
    }
  }

  // ----- a KEXINIT -----

  /** What a KEXINIT offers: key exchanges, host keys, ciphers each way, and the six lists the server does not read. */
  datatype Offer = Offer(cookie: seq<byte>, kex: seq<seq<byte>>, hostKeys: seq<seq<byte>>, toServer: seq<seq<byte>>,
                         toClient: seq<seq<byte>>, others: seq<seq<seq<byte>>>, follows: byte, reserved: seq<byte>)
  {
    function Lists(): (r: seq<seq<byte>>)
      ensures |r| == 4 + |others|
    {
      [Join(kex), Join(hostKeys), Join(toServer), Join(toClient)]
          + seq(|others|, i requires 0 <= i < |others| => Join(others[i]))
    }

    function Bytes(): seq<byte> {
      [MSG_KEXINIT] + cookie + (EncodeLists(Lists()) + ([follows] + reserved))
    }

    ghost predicate Valid() {
      && |cookie| == 16 && |others| == 6 && Proper(kex) && Proper(hostKeys) && Proper(toServer) && Proper(toClient)
      && forall i :: 0 <= i < 10 ==> |Lists()[i]| < U32_LIMIT
    }

    /** The server can do with it. */
    ghost predicate Acceptable() {
      && (exists i :: 0 <= i < |kex| && IsCurve(kex[i])) && Ascii("ssh-ed25519") in hostKeys
      && Ascii("chacha20-poly1305@openssh.com") in toServer && Ascii("chacha20-poly1305@openssh.com") in toClient
    }

    /** The client's guess at the outcome is the server's first choice. */
    predicate GuessedRight()
      requires |kex| > 0 && |hostKeys| > 0
    {
      IsCurve(kex[0]) && hostKeys[0] == Ascii("ssh-ed25519")
    }
  }

  /** The offer is accepted if and only if it names the curve, the host key type and the cipher for each direction; a
      guess is thrown away exactly when there is one and its first names are not those. */
  lemma NegotiateIff(o: Offer)
    requires o.Valid()
    ensures Negotiate(o.Bytes()) ==
            if o.Acceptable() then Negotiation.Agreed(o.follows != 0 && !o.GuessedRight()) else NoCommon
  {
    hide EncodeLists, ReadLists, Names, Join, Ascii, IsCurve;
    var pl := o.Bytes();
    assert pl[17..] == EncodeLists(o.Lists()) + ([o.follows] + o.reserved);
    ReadListsBack(pl, 17, o.Lists(), [o.follows] + o.reserved);
    var off := 17 + |EncodeLists(o.Lists())|;
    assert pl[off] == pl[off..][0] == o.follows;
    NamesJoined(o.kex);
    NamesJoined(o.hostKeys);
    NamesJoined(o.toServer);
    NamesJoined(o.toClient);
  }

  /** Whatever the loop reads was written. */
  lemma {:induction false} ReadListsSound(pl: seq<byte>, off: nat, n: nat)
    requires off <= |pl| && ReadLists(pl, off, n).Lists?
    ensures var r := ReadLists(pl, off, n);
            off <= r.next <= |pl| && pl[off..] == EncodeLists(r.names) + pl[r.next..]
            && forall i :: 0 <= i < |r.names| ==> |r.names[i]| < U32_LIMIT
    decreases n
  {
    hide RdString, Str;
    if n == 0 {
    } else {
      RdStringSound(pl, off);
      var s := RdString(pl, off);
      ReadListsSound(pl, s.next, n - 1);
      var r := ReadLists(pl, s.next, n - 1);
      assert ([s.value] + r.names)[1..] == r.names;
      assert pl[off..] == Str(s.value) + (EncodeLists(r.names) + pl[r.next..]);
    }
  }

  /** Ten name-lists and a boolean. */
  ghost predicate WellFormed(pl: seq<byte>) {
    |pl| >= 17 && exists lists, rest ::
      |lists| == 10 && |rest| > 0 && pl[17..] == EncodeLists(lists) + rest
      && forall i :: 0 <= i < |lists| ==> |lists[i]| < U32_LIMIT
  }

  /** And a KEXINIT is malformed if and only if it does not hold ten name-lists and a boolean. */
  lemma MalformedIff(pl: seq<byte>)
    ensures Negotiate(pl).BadKexinit? <==> !WellFormed(pl)
  {
    hide EncodeLists, ReadLists, Names, Ascii, IsCurve;
    var r := ReadLists(pl, 17, 10);
    if |pl| < 17 {
      TooShort(pl);
    } else if r.Lists? {
      ReadListsSound(pl, 17, 10);
      assert r.next + 1 <= |pl| ==> |pl[r.next..]| > 0;
    }
    if WellFormed(pl) {
      var lists, rest :| |lists| == 10 && |rest| > 0 && pl[17..] == EncodeLists(lists) + rest
        && forall i :: 0 <= i < |lists| ==> |lists[i]| < U32_LIMIT;
      ReadListsBack(pl, 17, lists, rest);
    }
  }

  lemma TooShort(pl: seq<byte>)
    requires |pl| < 17
    ensures ReadLists(pl, 17, 10) == Malformed
  {
  }

  // ----- the server's own -----

  /** What the server offers: one algorithm of each kind, the curve under both its names; no compression. */
  function Ours(cookie: seq<byte>): Offer {
    Offer(cookie, [Ascii("curve25519-sha256"), Ascii("curve25519-sha256@libssh.org")], [Ascii("ssh-ed25519")],
          [Ascii("chacha20-poly1305@openssh.com")], [Ascii("chacha20-poly1305@openssh.com")],
          [[Ascii("none")], [Ascii("none")], [Ascii("none")], [Ascii("none")], [[]], [[]]], 0, [0, 0, 0, 0])
  }

  lemma OurNames()
    ensures Join([Ascii("curve25519-sha256"), Ascii("curve25519-sha256@libssh.org")]) ==
            Ascii("curve25519-sha256,curve25519-sha256@libssh.org")
  {
    var names := [Ascii("curve25519-sha256"), Ascii("curve25519-sha256@libssh.org")];
    assert names[..1] == [names[0]];
    assert "curve25519-sha256,curve25519-sha256@libssh.org" ==
        "curve25519-sha256" + "," + "curve25519-sha256@libssh.org";
  }

  lemma {:induction false} EncodeMore(list: seq<byte>, lists: seq<seq<byte>>)
    ensures EncodeLists([list] + lists) == Str(list) + EncodeLists(lists)
  {
    hide Str;
    assert ([list] + lists)[1..] == lists;
  }

  /** The server's KEXINIT is that offer. */
  lemma OurKexinitOffers(cookie: seq<byte>)
    ensures OurKexinit(cookie) == Ours(cookie).Bytes()
  {
    hide Ascii, Str, EncodeLists;
    OurNames();
    var none, empty := Ascii("none"), [];
    var c, e := Ascii("chacha20-poly1305@openssh.com"), Ascii("ssh-ed25519");
    var k := Ascii("curve25519-sha256,curve25519-sha256@libssh.org");
    var t: seq<seq<byte>> := [empty] + [];
    EncodeMore(empty, []);
    EncodeMore(empty, t);
    EncodeMore(none, [empty] + t);
    EncodeMore(none, [none] + ([empty] + t));
    EncodeMore(none, [none] + ([none] + ([empty] + t)));
    EncodeMore(none, [none] + ([none] + ([none] + ([empty] + t))));
    t := [none] + ([none] + ([none] + ([none] + ([empty] + t))));
    EncodeMore(c, t);
    EncodeMore(c, [c] + t);
    EncodeMore(e, [c] + ([c] + t));
    EncodeMore(k, [e] + ([c] + ([c] + t)));
    OurLists(cookie);
    assert Ours(cookie).Lists() == [k] + ([e] + ([c] + ([c] + t)));
    assert EncodeLists([]) == [] by { Nothing(); }
  }

  lemma Nothing()
    ensures EncodeLists([]) == []
  {
  }

  lemma OurLists(cookie: seq<byte>)
    ensures var none, empty := Ascii("none"), [];
            var c, e := Ascii("chacha20-poly1305@openssh.com"), Ascii("ssh-ed25519");
            var k := Ascii("curve25519-sha256,curve25519-sha256@libssh.org");
            Ours(cookie).Lists() == [k, e, c, c, none, none, none, none, empty, empty]
  {
    hide Ascii;
    OurNames();
  }

  /** So two such servers would agree with each other. */
  lemma OursIsAcceptable(cookie: seq<byte>)
    requires |cookie| == 16
    ensures Ours(cookie).Acceptable()
  {
    hide Ascii;
    assert IsCurve(Ours(cookie).kex[0]);
  }
}
