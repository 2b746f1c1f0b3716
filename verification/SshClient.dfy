/** The other end of an SSH connection: a client that opens the records on its stream one after the other, with the
    server's keys and packet numbers, and keeps the channel data addressed to it. */
module SshClient {
  import opened Bytes
  import opened SshWire
  import opened SshRecord
  import opened SshServer

  /** What has been read: the payloads in order, what is left of the stream, and the next packet number. */
  datatype Received = Received(payloads: seq<seq<byte>>, rest: seq<byte>, num: nat)

  function ClientReads(ks: Keystream, ek: seq<byte>, num: nat, wire: seq<byte>): Received
    requires |ek| == 64
    decreases |wire|
  {
    match Open(ks, ek, num, wire)
    case Packet(pl, size) =>
      var r := ClientReads(ks, ek, (num + 1) % U32_LIMIT, wire[size..]);
      r.(payloads := [pl] + r.payloads)
    case _ => Received([], wire, num)
  }

  lemma ReadsNothing(ks: Keystream, ek: seq<byte>, num: nat)
    requires |ek| == 64
    ensures ClientReads(ks, ek, num, []) == Received([], [], num)
  {
    hide Crypt, Tag;
  }

  lemma ReadsUnfold(ks: Keystream, ek: seq<byte>, num: nat, wire: seq<byte>)
    requires |ek| == 64 && Open(ks, ek, num, wire).Packet?
    ensures var o := Open(ks, ek, num, wire);
            var r := ClientReads(ks, ek, (num + 1) % U32_LIMIT, wire[o.size..]);
            ClientReads(ks, ek, num, wire) == r.(payloads := [o.payload] + r.payloads)
  {
    hide Open;
  }

  /** Reading on from a record boundary. */
  lemma {:induction false} ReadsConcat(ks: Keystream, ek: seq<byte>, num: nat, a: seq<byte>, b: seq<byte>)
    requires |ek| == 64 && ClientReads(ks, ek, num, a).rest == []
    ensures var r := ClientReads(ks, ek, num, a);
            var s := ClientReads(ks, ek, r.num, b);
            ClientReads(ks, ek, num, a + b) == Received(r.payloads + s.payloads, s.rest, s.num)
    decreases |a|
  {
    hide Open;
    var o := Open(ks, ek, num, a);
    if o.Packet? {
      OpenStable(ks, ek, num, a, b);
      assert (a + b)[o.size..] == a[o.size..] + b;
      ReadsConcat(ks, ek, (num + 1) % U32_LIMIT, a[o.size..], b);
      ReadsUnfold(ks, ek, num, a);
      ReadsUnfold(ks, ek, num, a + b);
    } else {
      assert a == [];
      assert a + b == b;
    }
  }

  /** A client that has only part of the stream so far has read the first of the payloads. */
  lemma {:induction false} ReadsPrefix(ks: Keystream, ek: seq<byte>, num: nat, a: seq<byte>, b: seq<byte>)
    requires |ek| == 64
    ensures ClientReads(ks, ek, num, a).payloads <= ClientReads(ks, ek, num, a + b).payloads
    decreases |a|
  {
    hide Open;
    var o := Open(ks, ek, num, a);
    if o.Packet? {
      OpenStable(ks, ek, num, a, b);
      assert (a + b)[o.size..] == a[o.size..] + b;
      ReadsPrefix(ks, ek, (num + 1) % U32_LIMIT, a[o.size..], b);
      ReadsUnfold(ks, ek, num, a);
      ReadsUnfold(ks, ek, num, a + b);
    }
  }

  /** The data of a CHANNEL_DATA message for this channel; nothing for any other message. */
  function DataOf(channel: nat, pl: seq<byte>): seq<byte> {
    if |pl| < 5 || pl[0] != MSG_CHANNEL_DATA || pl[1..5] != BeBytes(channel) then []
    else
      match RdString(pl, 5)
      case Overrun => []
      case Got(data, _) => data
  }

  /** And not all of them, if the whole stream consists of records. */
  lemma {:induction false} ReadsLess(ks: Keystream, ek: seq<byte>, num: nat, a: seq<byte>, b: seq<byte>)
    requires |ek| == 64 && b != [] && ClientReads(ks, ek, num, a + b).rest == []
    ensures |ClientReads(ks, ek, num, a).payloads| < |ClientReads(ks, ek, num, a + b).payloads|
    decreases |a|
  {
    hide Open;
    var o := Open(ks, ek, num, a);
    if o.Packet? {
      OpenStable(ks, ek, num, a, b);
      assert (a + b)[o.size..] == a[o.size..] + b;
      ReadsUnfold(ks, ek, num, a);
      ReadsUnfold(ks, ek, num, a + b);
      ReadsLess(ks, ek, (num + 1) % U32_LIMIT, a[o.size..], b);
    } else {
      assert Open(ks, ek, num, a + b).Packet?;
      ReadsUnfold(ks, ek, num, a + b);
    }
  }

  /** The channel data in a sequence of messages. */
  function Contents(channel: nat, payloads: seq<seq<byte>>): seq<byte> {
    if |payloads| == 0 then [] else DataOf(channel, payloads[0]) + Contents(channel, payloads[1..])
  }

  lemma {:induction false} ContentsConcat(channel: nat, a: seq<seq<byte>>, b: seq<seq<byte>>)
    ensures Contents(channel, a + b) == Contents(channel, a) + Contents(channel, b)
  {
    hide DataOf;
    if |a| == 0 {
      assert a + b == b;
    } else {
      ContentsConcat(channel, a[1..], b);
      assert (a + b)[1..] == a[1..] + b;
    }
  }

  lemma DataOfPacket(ch: Channel, data: seq<byte>)
    requires |data| < U32_LIMIT
    ensures DataOf(ch.peer, DataPacket(ch, data)) == data
  {
    hide BeBytes, BeValue, RdString;
    var pl := DataPacket(ch, data);
    assert pl[1..5] == BeBytes(ch.peer) && pl[5..] == Str(data);
    RdStringIff(pl, 5, data);
  }

  // ----- a client that follows the server -----

  /** The payloads of the packets sealed so far. */
  function Payloads(log: seq<Sealed>): (r: seq<seq<byte>>)
    ensures |r| == |log| && forall i :: 0 <= i < |r| ==> r[i] == log[i].payload
  {
    seq(|log|, i requires 0 <= i < |log| => log[i].payload)
  }

  /** The number of the first sealed packet, sent or to come. */
  function First(log: seq<Sealed>, sendSeq: nat): nat {
    if |log| == 0 then sendSeq else log[0].number
  }

  /** Once encryption has begun, and as long as nothing has failed, the bytes queued since then are whole records: a
      client with the key opens them in turn to every payload sealed, and has arrived at the server's next number. */
  ghost predicate Follows(ks: Keystream, key: seq<byte>, sendEnc: bool, err: bool, sendSeq: nat, log: seq<Sealed>,
      bytes: seq<byte>, mark: nat)
  {
    sendEnc && !err ==>
      && |key| == 64 && mark <= |bytes|
      && ClientReads(ks, key, First(log, sendSeq), bytes[mark..]) == Received(Payloads(log), [], sendSeq)
  }

  /** The client of this connection will read everything, once it has the bytes already sent and those in the queue. */
  ghost predicate Readable(h: Host, w: World) {
    Follows(h.keystream, w.k.s2c, w.k.sendEnc, w.err, w.sendSeq, w.io.log, w.io.sent + w.io.ob, w.io.mark)
  }

  lemma FollowsVacuous(ks: Keystream, key: seq<byte>, sendEnc: bool, err: bool, sendSeq: nat, log: seq<Sealed>,
      bytes: seq<byte>, mark: nat)
    requires !sendEnc || err
    ensures Follows(ks, key, sendEnc, err, sendSeq, log, bytes, mark)
  {
  }

  /** Another record at the end. */
  lemma FollowsNext(ks: Keystream, key: seq<byte>, err: bool, sendSeq: nat, log: seq<Sealed>, bytes: seq<byte>,
      mark: nat, e: Sealed, wire: seq<byte>)
    requires |key| == 64 && Follows(ks, key, true, err, sendSeq, log, bytes, mark) && e.number == sendSeq
    requires Open(ks, key, sendSeq, wire) == Packet(e.payload, |wire|)
    ensures Follows(ks, key, true, err, (sendSeq + 1) % U32_LIMIT, log + [e], bytes + wire, mark)
  {
    hide Open, ClientReads;
    if !err {
      var next := (sendSeq + 1) % U32_LIMIT;
      assert wire[|wire|..] == [];
      ReadsUnfold(ks, key, sendSeq, wire);
      ReadsNothing(ks, key, next);
      assert ClientReads(ks, key, sendSeq, wire) == Received([e.payload], [], next);
      ReadsConcat(ks, key, First(log, sendSeq), bytes[mark..], wire);
      assert (bytes + wire)[mark..] == bytes[mark..] + wire;
      assert Payloads(log + [e]) == Payloads(log) + [e.payload];
    }
  }

  /** Encryption begins. */
  lemma FollowsNothing(ks: Keystream, key: seq<byte>, err: bool, sendSeq: nat, bytes: seq<byte>)
    requires |key| == 64
    ensures Follows(ks, key, true, err, sendSeq, [], bytes, |bytes|)
  {
    hide ClientReads;
    ReadsNothing(ks, key, sendSeq);
    assert bytes[|bytes|..] == [];
  }

  /** One more packet has been sealed and its record sent or queued, last of all. */
  lemma ReadableNext(h: Host, w: World, r: World, e: Sealed, wire: seq<byte>)
    requires Readable(h, w) && w.k.sendEnc && |w.k.s2c| == 64 && r.k == w.k && r.err == w.err
    requires e.number == w.sendSeq && r.sendSeq == (w.sendSeq + 1) % U32_LIMIT && r.io.log == w.io.log + [e]
    requires r.io.mark == w.io.mark && r.io.sent + r.io.ob == w.io.sent + w.io.ob + wire
    requires Open(h.keystream, w.k.s2c, w.sendSeq, wire) == Packet(e.payload, |wire|)
    ensures Readable(h, r)
  {
    hide Follows, Open;
    FollowsNext(h.keystream, w.k.s2c, w.err, w.sendSeq, w.io.log, w.io.sent + w.io.ob, w.io.mark, e, wire);
  }

  /** What the client has read of the bytes sent so far: the first of the payloads, and all of them if and only if the
      queue is empty; then it also expects the server's next number. */
  lemma ClientHasRead(h: Host, w: World)
    requires Readable(h, w) && w.k.sendEnc && !w.err && |w.k.s2c| == 64 && w.io.mark <= |w.io.sent|
    ensures var r := ClientReads(h.keystream, w.k.s2c, First(w.io.log, w.sendSeq), w.io.sent[w.io.mark..]);
            && r.payloads <= Payloads(w.io.log)
            && (r.payloads == Payloads(w.io.log) <==> w.io.ob == [])
            && (w.io.ob == [] ==> r.rest == [] && r.num == w.sendSeq)
  {
    hide ClientReads;
    var first := First(w.io.log, w.sendSeq);
    var bytes := w.io.sent[w.io.mark..];
    ReadsPrefix(h.keystream, w.k.s2c, first, bytes, w.io.ob);
    assert (w.io.sent + w.io.ob)[w.io.mark..] == bytes + w.io.ob;
    if w.io.ob == [] {
      assert bytes + [] == bytes;
    } else {
      ReadsLess(h.keystream, w.k.s2c, first, bytes, w.io.ob);
    }
  }

  /** Between two states of a connection its stream has grown by whole records, which a client holding its keys and
      packet number opens in turn to messages with exactly this channel data. */
  ghost predicate Carried(h: Host, w: World, s: seq<byte>, w': World, s': seq<byte>, data: seq<byte>) {
    && |w.k.s2c| == 64 && w'.k == w.k && w'.ch.peer == w.ch.peer && w'.ch.out == w.ch.out + data && s <= s'
    && var r := ClientReads(h.keystream, w.k.s2c, w.sendSeq, s'[|s|..]);
       r.rest == [] && r.num == w'.sendSeq && Contents(w.ch.peer, r.payloads) == data
  }

  lemma CarriedNothing(h: Host, w: World, s: seq<byte>)
    requires |w.k.s2c| == 64
    ensures Carried(h, w, s, w, s, [])
  {
    hide ClientReads;
    ReadsNothing(h.keystream, w.k.s2c, w.sendSeq);
    assert s[|s|..] == [];
  }

  lemma CarriedOn(h: Host, u: World, r: seq<byte>, w: World, s: seq<byte>, w': World, s': seq<byte>, a: seq<byte>,
      b: seq<byte>)
    requires Carried(h, u, r, w, s, a) && Carried(h, w, s, w', s', b)
    ensures Carried(h, u, r, w', s', a + b)
  {
    hide ClientReads, Contents;
    ReadsConcat(h.keystream, u.k.s2c, u.sendSeq, s[|r|..], s'[|s|..]);
    assert s'[|r|..] == s[|r|..] + s'[|s|..];
    ContentsConcat(u.ch.peer, ClientReads(h.keystream, u.k.s2c, u.sendSeq, s[|r|..]).payloads,
        ClientReads(h.keystream, w.k.s2c, w.sendSeq, s'[|s|..]).payloads);
    assert u.ch.out + a + b == u.ch.out + (a + b);
  }
}
