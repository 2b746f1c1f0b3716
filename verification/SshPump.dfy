/** The SSH side of the tick in dosshd/dosshd.c: sessions on slots, their input and replies over one shared output
    queue, and one rendered chunk at a time, framed and encrypted for every ready slot. */
module SshPump {
  import opened Bytes
  import opened Terminal
  import opened Ansi
  import opened Frame
  import opened Render
  import opened TcpView
  import opened Tcp
  import opened Slots
  import opened Pump
  import opened SshRecord
  import opened SshServer
  import opened SshRuns
  import opened SshSafety
  import opened SshClient
  import opened SshInput

  const SSH_RING_RESERVE := 512
  const WIRE_MAX := SSH_CHAN_CHUNK + 40

  /** A packet of at most 200 data bytes takes at most 236 bytes on the wire, and never more than n + 41. */
  lemma WireBound(h: Host, w: World, plain: seq<byte>)
    requires Inv(w) && 0 < |plain| <= SSH_CHAN_CHUNK
    ensures |Wire(h, w, DataPacket(w.ch, plain))| <= |plain| + 41
    ensures |Wire(h, w, DataPacket(w.ch, plain))| <= 236
  {
    hide SealInv, FlowInv, GateInv, SealBody, Body, DataPacket;
    var n := 9 + |plain|;
    PadTop(n);
  }

  /** The room test of ssh_channel_emit leaves one case too tight: n + 40 bytes offered and n of the form 8k + 3. */
  lemma EmitFitsIff(h: Host, w: World, plain: seq<byte>, outmax: nat)
    requires Inv(w) && 0 < |plain| <= SSH_CHAN_CHUNK && |plain| + 40 <= outmax
    ensures |Wire(h, w, DataPacket(w.ch, plain))| <= outmax <==> !(outmax == |plain| + 40 && |plain| % 8 == 3)
  {
    hide SealInv, FlowInv, GateInv, SealBody, Body, DataPacket;
    PadExact(|plain|);
  }

  lemma PadExact(n: nat)
    ensures PadLen(9 + n) <= 11 && (PadLen(9 + n) == 11 <==> n % 8 == 3)
  {
    var r := (10 + n) % 8;
    assert r == 5 <==> n % 8 == 3;
  }

  lemma PadTop(n: nat)
    requires n <= 209
    ensures n + 21 + PadLen(n) <= 236
  {
    var t := 1 + n + PadLen(n);
    assert t % 8 == 0 && t <= 221;
    assert t == 8 * (t / 8);
  }

  /** With the channel ready and enough credit, ssh_channel_emit takes the chunk. */
  lemma EmitTakes(h: Host, w: World, plain: seq<byte>)
    requires Inv(w) && w.ch.Ready() && 0 < |plain| <= Available(w)
    ensures var r := Emit(h, w, plain, WIRE_MAX);
            && Inv(r.0) && r.1 == Wire(h, w, DataPacket(w.ch, plain)) && 0 < |r.1| <= 236 && |r.1| <= |plain| + 41
            && r.0.ch.out == w.ch.out + plain && r.0.ch.Ready()
            && r.0.io.ob == w.io.ob && r.0.io.sent == w.io.sent + r.1 && r.0.io.cin == w.io.cin
  {
    hide SealInv, FlowInv, Seal, DataPacket, Forward, Readable;
    WireBound(h, w, plain);
    EmitKeeps(h, w, plain, WIRE_MAX);
  }

  /** What was emitted opens, at a client with the same keys and count, as the channel data it carries. */
  lemma EmittedOpens(h: Host, w: World, plain: seq<byte>, rest: seq<byte>)
    requires Inv(w) && w.ch.Ready() && 0 < |plain| <= Available(w)
    ensures var wire := Emit(h, w, plain, WIRE_MAX).1;
            Open(h.keystream, w.k.s2c, w.sendSeq, wire + rest) == Packet(DataPacket(w.ch, plain), |wire|)
  {
    hide SealInv, FlowInv, GateInv, DataPacket, Seal, Open, Emit;
    EmitTakes(h, w, plain);
    var p := DataPacket(w.ch, plain);
    RecordRoundTrip(h.keystream, w.k.s2c, w.sendSeq, p, h.Random(w.io.drawn, PadLen(|p|)), rest);
  }

  /** And it is the whole of what a client needs to read the chunk. */
  lemma EmitCarried(h: Host, w: World, plain: seq<byte>, s: seq<byte>)
    requires Inv(w) && w.ch.Ready() && 0 < |plain| <= Available(w)
    ensures var r := Emit(h, w, plain, WIRE_MAX); Carried(h, w, s, r.0, s + r.1, plain)
  {
    hide SealInv, FlowInv, GateInv, DataPacket, Open, DataOf, Wire, Sealing, ClientReads;
    EmitTakes(h, w, plain);
    var r := Emit(h, w, plain, WIRE_MAX);
    EmittedOpens(h, w, plain, []);
    assert r.1 + [] == r.1 && r.1[|r.1|..] == [];
    ReadsUnfold(h.keystream, w.k.s2c, w.sendSeq, r.1);
    ReadsNothing(h.keystream, w.k.s2c, r.0.sendSeq);
    DataOfPacket(w.ch, plain);
    OneMessage(w.ch.peer, DataPacket(w.ch, plain));
    assert (s + r.1)[|s|..] == r.1;
  }

  lemma OneMessage(channel: nat, pl: seq<byte>)
    ensures Contents(channel, [pl]) == DataOf(channel, pl)
  {
    hide DataOf;
  }

  // ----- a connection and its stream -----

  /** The stream of the slot is what its connection has sent, and its client will be able to read all of it. */
  ghost predicate InStep(h: Host, w: World, s: seq<byte>) {
    s == w.io.sent && Readable(h, w)
  }

  lemma InStepKeeps(h: Host, w: World, r: World, s: seq<byte>)
    requires InStep(h, w, s) && Keeps(h, w, r)
    ensures InStep(h, r, s)
  {
    hide Inv, Forward, Readable;
  }

  lemma InStepDrain(h: Host, w: World, s: seq<byte>, n: nat)
    requires Inv(w) && InStep(h, w, s) && n <= |w.io.ob|
    ensures InStep(h, Drained(w, n), s + w.io.ob[..n])
  {
    hide Inv, Forward, Readable;
    DrainKeeps(h, w, n);
  }

  lemma InStepEmit(h: Host, w: World, s: seq<byte>, plain: seq<byte>)
    requires Inv(w) && w.ch.Ready() && 0 < |plain| <= Available(w) && InStep(h, w, s) && w.io.ob == []
    ensures var r := Emit(h, w, plain, WIRE_MAX); InStep(h, r.0, s + r.1)
  {
    hide Inv, Forward, Readable, Emit;
    EmitTakes(h, w, plain);
    EmitKeeps(h, w, plain, WIRE_MAX);
  }

  /** Everything the client of a slot has read from its stream since encryption began: the payloads sealed for it, in
      order and from the first; all of them exactly when none of its replies is still queued, and then it expects the
      number of the next packet. */
  lemma ClientOfSlot(h: Host, w: World, s: seq<byte>)
    requires Inv(w) && InStep(h, w, s) && w.k.sendEnc && !w.err && w.io.mark <= |s|
    ensures |w.k.s2c| == 64
    ensures var r := ClientReads(h.keystream, w.k.s2c, First(w.io.log, w.sendSeq), s[w.io.mark..]);
            && r.payloads <= Payloads(w.io.log)
            && (r.payloads == Payloads(w.io.log) <==> w.io.ob == [])
            && (w.io.ob == [] ==> r.rest == [] && r.num == w.sendSeq)
  {
    hide Inv, Readable, ClientReads;
    ShapedNow(w);
    ClientHasRead(h, w);
  }

  // ----- bytes for one slot -----

  /** Push bytes that are known to fit onto one slot's ring: every put succeeds. */
  method PutBytes(net: Net, k: nat, bytes: seq<byte>)
    requires net.Valid() && k < |net.conns|
    requires net.conns[k].v.Ok() && |net.conns[k].v.stream| - net.conns[k].v.una + |bytes| <= SND_SZ - 1
    modifies net`marks, net.conns, set c | c in net.conns :: c.sbuf
    ensures net.Valid() && net.AllSteady() && Grown(old(net.marks), net.marks)
    ensures forall i :: 0 <= i < |net.conns| ==>
              && Net.SameButRing(net.conns[i])
              && net.conns[i].v == if i == k then
                  old(net.conns[i].v).(stream := old(net.conns[i].v).stream + bytes) else old(net.conns[i].v)
  {
    hide Net.Valid;
    net.SizesHold();
    var i := 0;
    while i < |bytes|
      invariant 0 <= i <= |bytes| && net.Valid() && Grown(old(net.marks), net.marks)
      invariant forall j :: 0 <= j < |net.conns| ==>
                  && Net.SameButRing(net.conns[j])
                  && net.conns[j].v == if j == k then
                      old(net.conns[j].v).(stream := old(net.conns[j].v).stream + bytes[..i]) else old(net.conns[j].v)
    {
      var ok := net.PutSlot(k, bytes[i]);
      assert ok;
      assert bytes[..i] + [bytes[i]] == bytes[..i + 1];
      i := i + 1;
    }
    assert bytes[..i] == bytes;
    net.SizesHold();
    net.GrownSteady();
  }

  // ----- a slot and its connection -----

  /** A slot of the table, whether it carries a session, and the connection there. */
  datatype Stand = Stand(active: bool, c: Moment, w: World) {
    /** It carries a session that is connected. */
    predicate Live() { active && c.tstate == Estab }

    /** The broadcast serves it. */
    predicate Serving() { Live() && w.ch.Ready() }

    /** How many bytes its ring can take. */
    function Room(): int { SND_SZ - 1 - (|c.v.stream| - c.v.una) }

    predicate Full() { Room() <= 0 }

    /** Its ring is full and its peer has stopped acknowledging. */
    predicate Silent() { Full() && c.stalls > 0 }

    /** It has flow-control credit and ring room for n bytes, framed. */
    predicate Takes(n: nat) { n <= Available(w) && (n > 0 ==> n + SSH_RING_RESERVE + 40 <= Room()) }

    /** Its ring has room for as much as the queue can ever hold. */
    predicate Roomy() { Live() ==> SSH_OB_SZ <= Room() }

    /** All its replies are in the ring, or the ring is full. */
    predicate Passed() { w.io.ob == [] || Full() }
  }

  /** An established session is in step with the stream of its slot. */
  ghost predicate Connected(h: Host, a: Stand) {
    a.Live() ==> InStep(h, a.w, a.c.v.stream)
  }

  predicate SameSlot(m: Moment, r: Moment) {
    r == m.(v := r.v)
  }

  lemma TakesLess(a: Stand, n: nat, m: nat)
    requires a.Takes(n) && m <= n
    ensures a.Takes(m)
  {
  }

  /** Nothing has happened to a slot. */
  predicate Still(a: Stand, b: Stand) {
    b.active == a.active && b.w == a.w && SameSlot(a.c, b.c) && b.c.v == a.c.v
  }

  /** The pacing pass leaves a slot alone or, if it is full and silent, evicts it. */
  predicate Paced(a: Stand, b: Stand) {
    Still(a, b) || (a.Serving() && a.Silent() && !b.active && b.c.tstate == Listen && b.c.isNew == a.c.isNew)
  }

  lemma PacedSame(a: Stand)
    ensures Paced(a, a)
  {
  }

  /** The slot has taken the chunk: its stream has grown by records that carry it, its queue is as it was, and the
      connection is still in step. */
  ghost predicate Accepted(h: Host, a: Stand, b: Stand, plain: seq<byte>) {
    && Carried(h, a.w, a.c.v.stream, b.w, b.c.v.stream, plain)
    && b.w.io.ob == a.w.io.ob && b.w.io.cin == a.w.io.cin && a.c.v.stream <= b.c.v.stream
    && (InStep(h, a.w, a.c.v.stream) ==> InStep(h, b.w, b.c.v.stream))
  }

  /** The delivery pass: a slot that is served takes the chunk, any other takes nothing. */
  ghost predicate Delivered(h: Host, a: Stand, b: Stand, plain: seq<byte>) {
    && b.active == a.active && SameSlot(a.c, b.c) && b.Serving() == a.Serving()
    && if a.Serving() then Accepted(h, a, b, plain) else b.w == a.w && b.c.v == a.c.v
  }

  /** The whole broadcast: an evicted slot is gone, one still served has taken everything, any other nothing. */
  ghost predicate Advanced(h: Host, a: Stand, b: Stand, plain: seq<byte>) {
    || (a.Serving() && !b.active && b.c.tstate == Listen && b.c.isNew == a.c.isNew)
    || (Delivered(h, a, b, plain) && (a.Passed() ==> b.Passed()))
  }

  /** What serving a slot can do to it: its stream grows, or the slot is dropped. */
  predicate Onward(m: Moment, r: Moment) {
    || r.tstate == Listen
    || (r.tstate == m.tstate && r.ready == m.ready && m.v.stream <= r.v.stream)
  }

  lemma StillAdvanced(h: Host, a: Stand, b: Stand)
    requires Paced(a, b) && Inv(a.w)
    ensures Advanced(h, a, b, [])
  {
    hide Carried, InStep, Inv;
    ShapedNow(a.w);
    CarriedNothing(h, a.w, a.c.v.stream);
  }

  lemma StillDelivered(h: Host, a: Stand, b: Stand, plain: seq<byte>)
    requires Still(a, b) && !a.Serving()
    ensures Delivered(h, a, b, plain)
  {
    hide Accepted;
  }

  lemma StillThenDelivered(h: Host, a: Stand, b: Stand, c: Stand, plain: seq<byte>)
    requires Still(a, b) && Delivered(h, b, c, plain)
    ensures Delivered(h, a, c, plain)
  {
    hide Carried, InStep;
  }

  lemma DeliveredThenStill(h: Host, a: Stand, b: Stand, c: Stand, plain: seq<byte>)
    requires Delivered(h, a, b, plain) && Still(b, c)
    ensures Delivered(h, a, c, plain)
  {
    hide Carried, InStep;
  }

  /** A chunk is delivered after the pacing pass, to slots whose queues are empty. */
  lemma PacedDelivered(h: Host, a: Stand, b: Stand, c: Stand, plain: seq<byte>)
    requires Paced(a, b) && Delivered(h, b, c, plain) && (b.Serving() ==> b.w.io.ob == [])
    ensures Advanced(h, a, c, plain)
  {
    hide Carried, InStep;
  }

  lemma AdvancedOn(h: Host, a: Stand, b: Stand, c: Stand, p: seq<byte>, q: seq<byte>)
    requires Advanced(h, a, b, p) && Advanced(h, b, c, q)
    ensures Advanced(h, a, c, p + q)
  {
    hide Carried, InStep;
    if a.Serving() && b.Serving() && c.Serving() {
      CarriedOn(h, a.w, a.c.v.stream, b.w, b.c.v.stream, c.w, c.c.v.stream, p, q);
    }
  }

  lemma AdvancedConnected(h: Host, a: Stand, b: Stand, plain: seq<byte>)
    requires Advanced(h, a, b, plain) && Connected(h, a)
    ensures Connected(h, b)
  {
    hide Carried, InStep;
  }

  lemma AdvancedStream(h: Host, a: Stand, b: Stand, plain: seq<byte>)
    requires Advanced(h, a, b, plain)
    ensures b.c.tstate == Listen || (SameSlot(a.c, b.c) && a.c.v.stream <= b.c.v.stream)
    ensures b.active ==> a.active && b.w.io.ob == a.w.io.ob && (a.Passed() ==> b.Passed())
  {
    hide Carried, InStep;
  }

  /** A connection at the moment the queue holds these bytes. */
  function Holding(w: World, ob: seq<byte>): World {
    w.(io := w.io.(ob := ob))
  }

  lemma HoldingInv(w: World, ob: seq<byte>)
    requires Inv(w) && |ob| <= SSH_OB_SZ
    ensures Inv(Holding(w, ob)) && Holding(w, w.io.ob) == w
  {
    hide SealInv;
  }

  /** A connection with these keystrokes still to be read. */
  function Typing(w: World, cin: seq<byte>): World {
    w.(io := w.io.(cin := cin))
  }

  lemma TypingKeeps(h: Host, w: World)
    requires Inv(w) && w.io.cin != []
    ensures Keeps(h, w, Typing(w, w.io.cin[1..])) && Inv(Typing(w, w.io.cin[1..]))
    ensures Typing(w, w.io.cin[1..]) == Apply(h, w, Key)
  {
    hide SealInv, Follows, FlowInv;
  }

  /** ssh_input, unless nothing has arrived. */
  ghost predicate Fed(h: Host, w: World, ib: seq<byte>, data: seq<byte>, r: World, left: seq<byte>)
    requires Inv(w)
  {
    if data == [] then r == w && left == ib
    else var i := Input(h, Slot(w, ib, []), data); r == i.w && left == i.ib
  }

  lemma FedKeeps(h: Host, w: World, ib: seq<byte>, data: seq<byte>, r: World, left: seq<byte>)
    requires Inv(w) && Fed(h, w, ib, data, r, left)
    ensures Keeps(h, w, r)
  {
    hide Inv, Keeps, Input;
    Ignored(h, w);
    InputKeeps(h, Slot(w, ib, []), data);
  }

  lemma QueueSize(w: World)
    requires Inv(w)
    ensures |w.io.ob| <= SSH_OB_SZ
  {
  }

  /** net_rx_getc, until 512 bytes or all there are have been read. */
  predicate Read(a: Stand, b: Stand, data: seq<byte>) {
    && b.active == a.active && SameSlot(a.c, b.c) && b.c.v == a.c.v.(popped := a.c.v.popped + |data|)
    && b.c.v.popped <= |b.c.v.received| && data == b.c.v.received[a.c.v.popped..b.c.v.popped]
    && (|data| < 512 ==> b.c.v.popped == |b.c.v.received|)
  }

  /** ssh_winsize, with 16-bit integers. */
  function WinSize(ch: Channel): (nat, nat) {
    (if ch.cols % 0x1_0000 != 0 then ch.cols % 0x1_0000 else 80,
     if ch.rows % 0x1_0000 != 0 then ch.rows % 0x1_0000 else 25)
  }

  predicate Over(w: World) {
    w.ch.closed || w.phase == Error || w.phase == Closed
  }

  /** A session is over exactly when its channel is, or when it no longer takes anything in. */
  lemma OverIff(w: World)
    ensures Over(w) <==> w.ch.closed || (w.phase != Version && !Dispatching(w.phase))
  {
  }

  /** A size is never zero and fits 16 bits; one the client has set is kept, 80 by 25 stands for one it has not. */
  lemma WinSizeIs(ch: Channel)
    ensures 0 < WinSize(ch).0 < 0x1_0000 && 0 < WinSize(ch).1 < 0x1_0000
    ensures 0 < ch.cols < 0x1_0000 && 0 < ch.rows < 0x1_0000 ==> WinSize(ch) == (ch.cols, ch.rows)
    ensures ch.cols == 0 && ch.rows == 0 ==> WinSize(ch) == (80, 25)
  {
  }

  /** What was in the queue has gone to the slot, as far as its ring had room, before anything else. */
  predicate Handed(a: Stand, ob: seq<byte>, b: Stand) {
    a.c.v.Ok() && a.c.v.stream + ob[..Min(|ob|, a.Room())] <= b.c.v.stream
  }

  lemma HandedFirst(a: Stand, ob: seq<byte>, fed: seq<byte>, b: Stand)
    requires a.c.v.Ok() && ob <= fed && b.c.v.stream == a.c.v.stream + fed[..Min(|fed|, a.Room())]
    ensures Handed(a, ob, b)
  {
    var n, m := Min(|ob|, a.Room()), Min(|fed|, a.Room());
    assert fed[..m][..n] == ob[..n];
    assert b.c.v.stream[..|a.c.v.stream| + n] == a.c.v.stream + ob[..n];
  }

  /** Why the queue must not be mixed up. If a slot with room is served while the queue holds the replies of another
      session, the next byte of its stream is one of those, and the client they were for has not read them. */
  lemma Misdelivered(h: Host, other: Stand, a: Stand, b: Stand)
    requires Handed(a, other.w.io.ob, b) && other.w.io.ob != [] && a.Room() > 0
    requires Inv(other.w) && InStep(h, other.w, other.c.v.stream) && other.w.k.sendEnc && !other.w.err
    requires other.w.io.mark <= |other.c.v.stream|
    ensures |b.c.v.stream| > |a.c.v.stream| && b.c.v.stream[|a.c.v.stream|] == other.w.io.ob[0]
    ensures |other.w.k.s2c| == 64
    ensures ClientReads(h.keystream, other.w.k.s2c, First(other.w.io.log, other.w.sendSeq),
                        other.c.v.stream[other.w.io.mark..]).payloads < Payloads(other.w.io.log)
  {
    hide Inv, InStep, ClientReads;
    ClientOfSlot(h, other.w, other.c.v.stream);
    var n := Min(|other.w.io.ob|, a.Room());
    assert (a.c.v.stream + other.w.io.ob[..n])[|a.c.v.stream|] == other.w.io.ob[0];
  }

  lemma StillOn(a: Stand, b: Stand, c: Stand)
    requires Still(a, b) && Still(b, c)
    ensures Still(a, c)
  {
  }

  lemma StillSame(a: Stand)
    ensures Still(a, a)
  {
  }

  lemma SentOnward(m: Moment, r: Moment, now: nat, burst: seq<Segment>)
    requires SentOn(m, r, now, burst)
    ensures Onward(m, r)
  {
  }

  lemma OnwardOn(m: Moment, n: Moment, r: Moment)
    requires Onward(m, n) && Onward(n, r)
    ensures Onward(m, r)
  {
  }

  lemma StillRoomy(a: Stand, b: Stand)
    requires Still(a, b) && a.Roomy()
    ensures b.Roomy()
  {
  }

  lemma StillOnward(a: Stand, b: Stand)
    requires Still(a, b)
    ensures Onward(a.c, b.c)
  {
  }

  lemma DeliveredOnward(h: Host, a: Stand, b: Stand, plain: seq<byte>)
    requires Delivered(h, a, b, plain)
    ensures Onward(a.c, b.c)
  {
    hide Carried, InStep;
  }

  lemma AdvancedOnward(h: Host, a: Stand, b: Stand, plain: seq<byte>)
    requires Advanced(h, a, b, plain)
    ensures Onward(a.c, b.c)
  {
    hide Carried, InStep;
  }

  /** Between ticks no slot is waiting to be taken, and a half-open slot has nothing to send. */
  predicate Idle(m: Moment) {
    !m.isNew && (m.tstate == SynRcvd ==> m.v.stream == [])
  }

  /** What a poll can do to an idle slot: a new one has an empty stream, an old one keeps its stream. */
  predicate Polled(m: Moment, r: Moment) {
    && (r.tstate == SynRcvd ==> !r.isNew && r.v.stream == [])
    && (r.isNew ==> m.tstate != Estab && r.v.stream == [])
    && (r.tstate == Estab && !r.isNew ==> m.tstate == Estab && r.v.stream == m.v.stream && m.v.una <= r.v.una)
  }

  lemma PollPolls(ms: seq<Moment>, t: Trace, now: nat, frame: Option<Slots.Frame>, i: nat, r: Moment,
      burst: seq<Segment>)
    requires Took(ms, t, now, frame) && i < |ms| == |t.handled| && Idle(ms[i]) && SentOn(t.handled[i], r, now, burst)
    ensures Polled(ms[i], r)
  {
    hide View.OnSegment, View.Replies, View.Cut, FinAck, SeqNo;
    assert TimedOut(ms[i], t.timed[i], now, t.resent[i]);
  }

  /** A session begins on a slot: whatever its ring has room for of the first bytes is in its stream. */
  predicate Begun(a: Stand, b: Stand, w: World) {
    a.c.v.Ok() && Pumped(a.(active := true, w := w), b, Min(|w.io.ob|, a.Room()))
  }

  lemma BegunNow(h: Host, a: Stand, b: Stand, drawn: nat)
    requires Begun(a, b, Reset(h, drawn))
    ensures b.active && SameSlot(a.c, b.c) && b.w.io.cin == [] && a.c.v.stream <= b.c.v.stream
    ensures a.c.v.stream == [] ==> b.w.io.ob == [] && Connected(h, b) && b.Roomy()
  {
    hide Inv, Reset, Follows;
    var w := Reset(h, drawn);
    ResetInv(h, drawn);
    ResetSize(h, drawn);
    if a.c.v.stream == [] {
      InStepDrain(h, w, [], |w.io.ob|);
    }
  }

  /** A new slot has a session that is in step with its stream; nothing has happened to any other slot. */
  ghost predicate Welcomed(h: Host, a: Stand, b: Stand) {
    && !b.c.isNew
    && if a.c.isNew then
         && b.active && b.c.tstate == a.c.tstate && b.c.ready == a.c.ready && a.c.v.stream <= b.c.v.stream
         && Connected(h, b) && b.Roomy() && b.w.io.cin == []
       else Still(a, b)
  }

  lemma New(h: Host, a: Stand, b: Stand, c: Stand)
    requires a.c.isNew && !b.c.isNew && b.c.tstate == a.c.tstate && b.c.ready == a.c.ready
    requires c.active && SameSlot(b.c, c.c) && a.c.v.stream <= c.c.v.stream && Connected(h, c) && c.Roomy()
    requires c.w.io.cin == []
    ensures Welcomed(h, a, c)
  {
    hide InStep;
  }

  /** The next slot is welcomed or left as it is. */
  lemma WelcomedNext(h: Host, a: Stand, b: Stand, c: Stand)
    requires (Welcomed(h, a, b) && Still(b, c)) || (Still(a, b) && (Welcomed(h, b, c) || (Still(b, c) && !b.c.isNew)))
    ensures Welcomed(h, a, c) && !c.c.isNew
  {
    hide InStep;
  }

  /** An active session has been served, or let go if its connection was: what is left of its replies fills the ring,
      no keystroke is left over and, unless the queue got mixed up, it is still in step. */
  ghost predicate Attended(h: Host, mixed: bool, a: Stand, b: Stand) {
    if !a.active then Still(a, b)
    else
      && Onward(a.c, b.c) && b.c.isNew == a.c.isNew
      && (a.c.tstate != Estab ==> SameSlot(a.c, b.c) && b.c.v == a.c.v)
      && (b.active ==> b.c.tstate == Estab && b.Passed() && b.w.io.cin == [])
      && (!mixed && Connected(h, a) ==> Connected(h, b))
  }

  lemma AttendedOnward(h: Host, mixed: bool, a: Stand, b: Stand)
    requires Attended(h, mixed, a, b)
    ensures Onward(a.c, b.c)
  {
    hide InStep;
  }

  lemma WelcomedOnward(h: Host, a: Stand, b: Stand)
    requires Welcomed(h, a, b)
    ensures Onward(a.c, b.c)
  {
    hide InStep;
  }

  lemma AttendedPassed(h: Host, mixed: bool, a: Stand, b: Stand)
    requires Attended(h, mixed, a, b) && b.active
    ensures b.Passed()
  {
  }

  lemma StillAttended(h: Host, mixed: bool, a: Stand, b: Stand)
    requires Still(a, b) && !a.active
    ensures Attended(h, mixed, a, b)
  {
  }

  /** A session that has been conversed with either goes on or is torn down. */
  lemma Concluded(h: Host, a: Stand, b: Stand, c: Stand)
    requires a.active && a.c.tstate == Estab && Conversed(h, a, b) && (Still(b, c) || Gone(b, c))
    ensures Attended(h, false, a, c) && (a.Roomy() ==> c.w.io.ob == [])
    ensures c.active ==> Handed(a, a.w.io.ob, c)
  {
    hide InStep, Handed;
    if Still(b, c) && c.active {
      HandedStill(a, a.w.io.ob, b, c);
    }
  }

  lemma HandedStill(a: Stand, ob: seq<byte>, b: Stand, c: Stand)
    requires Handed(a, ob, b) && Still(b, c)
    ensures Handed(a, ob, c)
  {
  }

  /** The queue a session was given is its own unless something got mixed up. */
  lemma AttendedLoaded(h: Host, mixed: bool, a: Stand, b: Stand, c: Stand)
    requires Attended(h, false, b, c) && a.active && b.active && a.c == b.c && (!mixed ==> a == b)
    ensures Attended(h, mixed, a, c) && (c.active && Handed(b, b.w.io.ob, c) ==> Handed(a, b.w.io.ob, c))
    ensures a.Roomy() ==> b.Roomy()
  {
    hide InStep;
  }

  lemma Released(h: Host, mixed: bool, a: Stand, b: Stand)
    requires a.active && !b.active && a.c.tstate != Estab && b.c == a.c
    ensures Attended(h, mixed, a, b)
  {
    hide InStep;
  }

  lemma StillThenAttended(h: Host, mixed: bool, a: Stand, b: Stand, c: Stand)
    requires Still(a, b) && Attended(h, mixed, b, c)
    ensures Attended(h, mixed, a, c)
  {
    hide InStep;
  }

  lemma AttendedThenStill(h: Host, mixed: bool, now: bool, a: Stand, b: Stand, c: Stand)
    requires Attended(h, mixed, a, b) && Still(b, c) && (mixed ==> now)
    ensures Attended(h, now, a, c)
  {
    hide InStep;
  }

  /** One slot through a whole tick: poll, new connections, service, broadcast, output. */
  lemma TickSlot(h: Host, mixed: bool, a: Stand, p: Stand, n: Stand, s: Stand, b: Stand, r: Stand, out: seq<byte>,
      now: nat, burst: seq<Segment>)
    requires Idle(a.c) && p.active == a.active && p.w == a.w && Polled(a.c, p.c)
    requires a.active ==> a.c.tstate == Estab && a.w.io.cin == []
    requires Welcomed(h, p, n) && Attended(h, mixed, n, s) && Advanced(h, s, b, out)
    requires r.active == b.active && r.w == b.w && SentOn(b.c, r.c, now, burst)
    ensures Idle(r.c) && (r.active ==> r.c.tstate == Estab && r.w.io.cin == [])
    ensures !mixed && Connected(h, a) ==> Connected(h, r)
    ensures r.c.tstate == Estab ==>
              && p.c.tstate == Estab && p.c.ready == r.c.ready && p.c.v.stream <= r.c.v.stream
              && r.c.v.nxt == |r.c.v.stream|
  {
    hide InStep, Carried, View.Cut, SeqNo;
  }

  lemma PolledNew(m: Moment, r: Moment)
    requires Polled(m, r) && r.isNew
    ensures r.v.stream == []
  {
  }

  lemma RoomySlot(h: Host, a: Stand, p: Stand, n: Stand)
    requires a.Roomy() && p.active == a.active && p.w == a.w && Polled(a.c, p.c) && Welcomed(h, p, n)
    requires a.active ==> a.c.tstate == Estab
    ensures n.Roomy()
  {
    hide InStep;
  }

  /** A session has been conversed with: its replies are in the ring, or as many as fit, behind whatever was queued
      before; its keystrokes have been read, and it is in step if it was. */
  ghost predicate Conversed(h: Host, a: Stand, b: Stand) {
    && b.active == a.active && SameSlot(a.c, b.c) && a.c.v.stream <= b.c.v.stream
    && b.Passed() && b.w.io.cin == [] && (a.Roomy() ==> b.w.io.ob == [])
    && Handed(a, a.w.io.ob, b) && (Connected(h, a) ==> Connected(h, b))
  }

  lemma ConversedNow(h: Host, a: Stand, f: Stand, p: Stand, data: seq<byte>, moved: nat)
    requires Inv(a.w) && Inv(f.w) && a.active && a.c.tstate == Estab && a.c.v.Ok() && Keeps(h, a.w, f.w)
    requires Read(a, f, data) && Pumped(f, p, moved) && moved == Min(|f.w.io.ob|, f.Room())
    ensures Conversed(h, a, p.(w := Typing(p.w, [])))
  {
    hide Inv, Sound, Follows, Handed;
    QueueSize(f.w);
    HandedFirst(a, a.w.io.ob, f.w.io.ob, p.(w := Typing(p.w, [])));
    if Connected(h, a) {
      InStepKeeps(h, a.w, f.w, a.c.v.stream);
      InStepDrain(h, f.w, a.c.v.stream, moved);
    }
  }

  /** A session has been torn down. */
  predicate Gone(a: Stand, b: Stand) {
    !b.active && b.c.tstate == Listen && !b.c.ready && b.c.isNew == a.c.isNew && b.w.io.ob == []
  }

  /** The first n bytes of the queue have gone to the ring. */
  predicate Pumped(a: Stand, b: Stand, n: nat) {
    && n <= |a.w.io.ob| && b.active == a.active && SameSlot(a.c, b.c)
    && b.w == Drained(a.w, n) && b.c.v == a.c.v.(stream := a.c.v.stream + a.w.io.ob[..n])
  }

  lemma PumpedNothing(a: Stand)
    ensures Pumped(a, a, 0)
  {
    DrainTwice(a.w, 0, 0);
  }

  lemma PumpedOn(a: Stand, b: Stand, c: Stand, m: nat, n: nat)
    requires Pumped(a, b, m) && Pumped(b, c, n)
    ensures m + n <= |a.w.io.ob| && Pumped(a, c, m + n) && b.w.io.ob == a.w.io.ob[m..] && b.Room() == a.Room() - m
  {
    hide Drained;
    DrainTwice(a.w, m, 0);
    DrainTwice(a.w, m, n);
    assert a.c.v.stream + a.w.io.ob[..m] + b.w.io.ob[..n] == a.c.v.stream + a.w.io.ob[..m + n];
  }

  /** The pump empties the queue if and only if what is queued fits the ring. */
  lemma DrainedIff(a: Stand, b: Stand, moved: nat)
    requires a.c.v.Ok() && Pumped(a, b, moved) && moved == Min(|a.w.io.ob|, a.Room())
    ensures b.w.io.ob == [] <==> |a.w.io.ob| <= a.Room()
  {
    hide Drained;
    DrainTwice(a.w, moved, 0);
  }

  lemma PumpedGone(a: Stand, b: Stand, c: Stand, n: nat)
    requires Pumped(a, b, n) && Gone(b, c)
    ensures Gone(a, c)
  {
  }

  lemma PumpedOnward(a: Stand, b: Stand, n: nat)
    requires Pumped(a, b, n)
    ensures Onward(a.c, b.c)
  {
  }

  class SshTick {
    const h: Host
    const net: Net
    const screen: Renderer
    var slots: seq<World>
    /** What has arrived for each slot and is not a whole packet yet. */
    var ibs: seq<seq<byte>>
    var active: seq<bool>
    var readySeen: seq<bool>
    /** The geometry the screen was last drawn for. */
    var cols: nat
    var rows: nat
    /** The one output queue, which whichever slot is being served uses as its own: `slots[i].io.ob` is what slot i left
        in it. */
    var ob: seq<byte>
    /** The slot served last, and whether one has ever been served with bytes of another in the queue. */
    ghost var owner: nat
    ghost var mixed: bool

    ghost predicate Shape()
      reads this`slots, this`ibs, this`active, this`readySeen, this`ob
    {
      && |slots| == |ibs| == |active| == |readySeen| == |net.conns| && Apart(screen, net) && |ob| <= SSH_OB_SZ
      && forall i :: 0 <= i < |slots| ==> Inv(slots[i])
    }

    ghost function At(i: nat): (a: Stand)
      requires i < |slots| == |active| == |net.conns|
      reads this`slots, this`active, net.conns
    {
      Stand(active[i], Net.Look(net.conns[i]), slots[i])
    }

    /** As long as nothing is mixed up, what is in the queue is what the slot served last has left there. */
    ghost predicate Orderly()
      requires |slots| == |active|
      reads this`slots, this`active, this`ob, this`owner, this`mixed
    {
      !mixed ==> forall i :: 0 <= i < |slots| && active[i] ==> slots[i].io.ob == if i == owner then ob else []
    }

    constructor (h: Host, net: Net, screen: Renderer)
      requires Apart(screen, net)
      ensures Shape() && Orderly() && !mixed && forall i :: 0 <= i < |active| ==> !active[i]
      ensures this.net == net && this.screen == screen && this.h == h
    {
      hide Inv, Apart;
      this.h, this.net, this.screen := h, net, screen;
      slots, ibs := seq(|net.conns|, _ => Reset(h, 0)), seq(|net.conns|, _ => []);
      active, readySeen := seq(|net.conns|, _ => false), seq(|net.conns|, _ => false);
      cols, rows, ob, owner, mixed := 80, 25, [], 0, false;
      new;
      ResetInv(h, 0);
    }

    /** As long as slots only go onward, and nobody joins the telnet broadcast, it stays steady. */
    twostate lemma OnwardSteady()
      requires |slots| == |active| == |net.conns| && old(|slots| == |active| == |net.conns|)
      requires |net.joined| == |net.conns| == |net.marks| && net.joined == old(net.joined)
      requires Grown(old(net.marks), net.marks)
      requires forall i :: 0 <= i < |slots| ==> Onward(old(At(i)).c, At(i).c)
      ensures net.AllSteady()
    {
      forall i | 0 <= i < |slots| && Net.Admitted(net.conns[i])
        ensures old(net.conns[i].v.stream) <= net.conns[i].v.stream
      {
        assert Onward(old(At(i)).c, At(i).c);
      }
      net.GrownSteady();
    }

    twostate lemma OneOnward(k: nat)
      requires k < |slots| == |active| == |net.conns| && old(|slots| == |active| == |net.conns|)
      requires |net.joined| == |net.conns| == |net.marks| && net.joined == old(net.joined)
      requires Grown(old(net.marks), net.marks) && Onward(old(At(k)).c, At(k).c)
      requires forall i :: 0 <= i < |slots| && i != k ==> Still(old(At(i)), At(i))
      ensures net.AllSteady()
    {
      hide Onward, Still;
      forall i | 0 <= i < |slots|
        ensures Onward(old(At(i)).c, At(i).c)
      {
        if i != k {
          StillOnward(old(At(i)), At(i));
        }
      }
      OnwardSteady();
    }

    // ----- the broadcast -----

    /** How much a served slot can take, and the room in its ring. */
    method Capacity(k: nat) returns (cap: nat, room: nat)
      requires Shape() && net.Valid() && k < |slots| && At(k).Serving()
      ensures room as int == At(k).Room() && At(k).Takes(cap) && !At(k).Takes(cap + 1)
    {
      hide Inv, Conn.Valid;
      net.SizesHold();
      assert net.conns[k].Valid();
      room := net.conns[k].RoomLeft();
      cap := Available(slots[k]);
      var netcap := if room > SSH_RING_RESERVE + 40 then room - SSH_RING_RESERVE - 40 else 0;
      if netcap < cap {
        cap := netcap;
      }
    }

    /** One slot of the pacing pass: what it can take now, or evicted if it is full and silent. */
    method PaceSlot(k: nat) returns (cap: nat, evicted: bool)
      requires Shape() && net.Valid() && k < |slots| && At(k).Serving()
      modifies this`active, net.conns
      ensures Shape() && net.Valid() && net.AllSteady()
      ensures forall i :: 0 <= i < |slots| && i != k ==> unchanged(net.conns[i]) && active[i] == old(active[i])
      ensures Paced(old(At(k)), At(k)) && (evicted ==> !active[k] && net.conns[k].tstate == Listen)
      ensures !evicted ==>
                unchanged(net.conns[k]) && active == old(active) && At(k).Takes(cap) && !At(k).Takes(cap + 1)
    {
      hide Inv, Net.Valid, Conn.Valid, Available, Channel.Ready, Stand.Takes;
      net.SizesHold();
      var room;
      cap, room := Capacity(k);
      evicted := cap == 0 && room == 0 && net.conns[k].rexmit_count > 0;
      if evicted {
        var rst := net.SlotDrop(k);
        active := active[k := false];
      }
    }

    /** The pacing pass finds how much every served slot can take, and evicts those that are full and silent. */
    method Pace() returns (any: bool, cap: nat, ghost tight: int)
      requires Shape() && net.Valid()
      modifies this`active, net.conns
      ensures Shape() && net.Valid() && net.AllSteady() && cap <= SSH_CHAN_CHUNK
      ensures forall i :: 0 <= i < |slots| ==> Paced(old(At(i)), At(i))
      ensures forall i :: 0 <= i < |slots| && At(i).Serving() ==> any && At(i).Takes(cap)
      ensures cap < SSH_CHAN_CHUNK ==> 0 <= tight < |slots| && At(tight).Serving() && !At(tight).Takes(cap + 1)
    {
      hide Inv, Net.Valid, Conn.Valid, Available, Channel.Ready, Stand.Takes, Stand.Full, Paced;
      net.SizesHold();
      cap, tight := SSH_CHAN_CHUNK, -1;
      any := false;
      var k := 0;
      while k < |slots|
        invariant 0 <= k <= |slots| && Shape() && net.Valid() && cap <= SSH_CHAN_CHUNK
        invariant forall i :: 0 <= i < k ==>
                    Paced(old(At(i)), At(i)) && (unchanged(net.conns[i]) || net.conns[i].tstate == Listen)
        invariant forall i :: k <= i < |slots| ==> unchanged(net.conns[i]) && active[i] == old(active[i])
        invariant forall i :: 0 <= i < k && At(i).Serving() ==> any && At(i).Takes(cap)
        invariant cap < SSH_CHAN_CHUNK ==> 0 <= tight < k && At(tight).Serving() && !At(tight).Takes(cap + 1)
      {
        PacedSame(At(k));
        if active[k] && net.conns[k].tstate == Estab && slots[k].ch.Ready() {
          any := true;
          ghost var was := cap;
          label before: var a, evicted := PaceSlot(k);
          if !evicted && a < cap {
            cap, tight := a, k;
          }
          forall i | 0 <= i < k && At(i).Serving()
            ensures At(i).Takes(cap)
          {
            assert At(i) == old@before(At(i));
            TakesLess(At(i), was, cap);
          }
          if At(k).Serving() {
            TakesLess(At(k), a, cap);
          }
        }
        k := k + 1;
      }
      net.SizesHold();
      net.LastingSteady();
    }

    /** What the renderer has for everybody, at most `cap` bytes of it. */
    method Pull(cap: nat, scr: Screen, now: nat) returns (plain: seq<byte>)
      requires screen.Valid() && scr.Ok()
      modifies screen, screen.obuf, screen.shadow
      ensures screen.Valid() && |plain| <= cap && screen.tty == FeedAll(old(screen.tty), plain)
      ensures |plain| == cap || AllShown(screen, scr)
    {
      hide Renderer.Valid, Table, FeedAll, Feed, Interrupted, Renderer.Still, Renderer.Following, Renderer.Pending,
           Renderer.Buffers, Elapsed;
      plain := [];
      screen.ValidBuffers();
      FeedNothing(screen.tty);
      while |plain| < cap
        invariant screen.Valid() && screen.Buffers() && |plain| <= cap && screen.tty == FeedAll(old(screen.tty), plain)
      {
        ghost var before := screen.tty;
        var b := screen.NextByte(false, scr, now);
        screen.ValidBuffers();
        if b < 0 {
          break;
        }
        FeedConcat(old(screen.tty), plain, [b as byte]);
        FeedOne(before, b as byte);
        plain := plain + [b as byte];
      }
    }

    /** One chunk for one slot: sealed under that slot's own keys, and every byte of it onto the ring. */
    method DeliverSlot(k: nat, plain: seq<byte>)
      requires Shape() && net.Valid() && k < |slots| && At(k).Serving() && 0 < |plain| && At(k).Takes(|plain|)
      requires slots[k].io.ob == []
      modifies this`slots, net`marks, net.conns, set c | c in net.conns :: c.sbuf
      ensures Shape() && net.Valid() && net.AllSteady() && Grown(old(net.marks), net.marks)
      ensures slots == old(slots)[k := slots[k]] && Delivered(h, old(At(k)), At(k), plain)
      ensures forall i :: 0 <= i < |slots| && i != k ==> Still(old(At(i)), At(i))
    {
      hide Inv, Net.Valid, Emit, Wire, Channel.Ready, DataPacket, Carried, InStep;
      ghost var w, s := slots[k], net.conns[k].v.stream;
      EmitTakes(h, w, plain);
      EmitCarried(h, w, plain, s);
      if InStep(h, w, s) {
        InStepEmit(h, w, s, plain);
      }
      ShapedNow(slots[k]);
      RingOk(k);
      var r := Emit(h, slots[k], plain, WIRE_MAX);
      net.SizesHold();
      slots := slots[k := r.0];
      PutBytes(net, k, r.1);
      net.SizesHold();
      net.GrownSteady();
    }

    lemma RingOk(k: nat)
      requires net.Valid() && k < |net.conns|
      ensures net.conns[k].Valid() && net.conns[k].v.Ok()
    {
      hide Conn.Valid;
    }

    /** The delivery pass: every served slot gets the chunk exactly once, no other slot gets anything. */
    method Deliver(plain: seq<byte>)
      requires Shape() && net.Valid() && 0 < |plain|
      requires forall i :: 0 <= i < |slots| && At(i).Serving() ==> At(i).Takes(|plain|) && slots[i].io.ob == []
      modifies this`slots, net`marks, net.conns, set c | c in net.conns :: c.sbuf
      ensures Shape() && net.Valid() && net.AllSteady() && |slots| == old(|slots|) && Grown(old(net.marks), net.marks)
      ensures forall i :: 0 <= i < |slots| ==> Delivered(h, old(At(i)), At(i), plain)
    {
      hide Inv, Net.Valid, Available, Channel.Ready, Delivered;
      net.SizesHold();
      var k := 0;
      while k < |slots|
        invariant 0 <= k <= |slots| == old(|slots|) && Shape() && net.Valid() && Grown(old(net.marks), net.marks)
        invariant forall i :: 0 <= i < k ==> Delivered(h, old(At(i)), At(i), plain)
        invariant forall i :: k <= i < |slots| ==> Still(old(At(i)), At(i))
      {
        ghost var a := old(At(k));
        label before:
        if active[k] && net.conns[k].tstate == Estab && slots[k].ch.Ready() {
          assert a.Serving() && a.Takes(|plain|);
          DeliverSlot(k, plain);
          StillThenDelivered(h, a, old@before(At(k)), At(k), plain);
          forall i | 0 <= i < k
            ensures Delivered(h, old(At(i)), At(i), plain)
          {
            DeliveredThenStill(h, old(At(i)), old@before(At(i)), At(i), plain);
          }
        } else {
          StillDelivered(h, a, At(k), plain);
        }
        k := k + 1;
      }
      net.SizesHold();
      forall i | 0 <= i < |slots|
        ensures Onward(old(At(i)).c, At(i).c)
      {
        DeliveredOnward(h, old(At(i)), At(i), plain);
      }
      OnwardSteady();
    }

    /** No slot is served, or slot `tight` is and cannot take a byte. */
    ghost predicate Stuck(tight: int)
      requires |slots| == |active| == |net.conns|
      reads this`slots, this`active, net.conns
    {
      || (0 <= tight < |slots| && At(tight).Serving() && !At(tight).Takes(1))
      || forall i :: 0 <= i < |slots| ==> !At(i).Serving()
    }

    /** The pacing pass, and what the renderer then has for everybody. */
    method Chunk(budget: nat, scr: Screen, now: nat) returns (plain: seq<byte>, ghost tight: int)
      requires Shape() && net.Valid() && screen.Valid() && scr.Ok()
      modifies this`active, net.conns, screen, screen.obuf, screen.shadow
      ensures Shape() && net.Valid() && net.AllSteady() && screen.Valid()
      ensures |plain| <= budget && screen.tty == FeedAll(old(screen.tty), plain)
      ensures forall i :: 0 <= i < |slots| ==> Paced(old(At(i)), At(i))
      ensures plain != [] ==> forall i :: 0 <= i < |slots| && At(i).Serving() ==> At(i).Takes(|plain|)
      ensures plain != [] ==>
                || |plain| == budget || |plain| == SSH_CHAN_CHUNK || AllShown(screen, scr)
                || (0 <= tight < |slots| && old(At(tight)).Serving() && !old(At(tight)).Takes(|plain| + 1))
      ensures plain == [] ==> budget == 0 || AllShown(screen, scr) || Stuck(tight)
    {
      hide Inv, Net.Valid, Available, Channel.Ready, Renderer.Valid, FeedAll;
      screen.ValidBuffers();
      net.SizesHold();
      var any, cap;
      any, cap, tight := Pace();
      net.SizesHold();
      FeedNothing(screen.tty);
      plain := [];
      if any && cap > 0 && budget > 0 {
        ghost var most := cap;
        if cap > budget {
          cap := budget;
        }
        plain := Pull(cap, scr, now);
        forall i | 0 <= i < |slots| && At(i).Serving()
          ensures At(i).Takes(|plain|)
        {
          TakesLess(At(i), most, |plain|);
        }
      }
    }

    /** One round of ssh_net_broadcast; an empty chunk ends it. A slot with replies still queued has no room, and then
        there is no chunk: no record gets ahead of a reply. */
    method Round(budget: nat, scr: Screen, now: nat) returns (plain: seq<byte>, ghost tight: int)
      requires Shape() && net.Valid() && screen.Valid() && scr.Ok()
      requires forall i :: 0 <= i < |slots| && active[i] ==> At(i).Passed()
      modifies this`slots, this`active, net`marks, net.conns, set c | c in net.conns :: c.sbuf, screen, screen.obuf,
               screen.shadow
      ensures Shape() && net.Valid() && screen.Valid() && |slots| == old(|slots|)
      ensures net.AllSteady() && Grown(old(net.marks), net.marks)
      ensures |plain| <= budget && screen.tty == FeedAll(old(screen.tty), plain)
      ensures forall i :: 0 <= i < |slots| ==> Advanced(h, old(At(i)), At(i), plain)
      // there was no more to be had, or one byte more would have been too much for a slot
      ensures plain != [] ==>
                || |plain| == budget || |plain| == SSH_CHAN_CHUNK || AllShown(screen, scr)
                || (0 <= tight < |slots| && old(At(tight)).Serving() && !old(At(tight)).Takes(|plain| + 1))
      ensures plain == [] ==> budget == 0 || AllShown(screen, scr) || Stuck(tight)
    {
      hide Inv, Net.Valid, Available, Channel.Ready, Renderer.Valid, FeedAll, Delivered, Advanced, Onward, AllShown;
      net.SizesHold();
      plain, tight := Chunk(budget, scr, now);
      label paced:
      net.SizesHold();
      if |plain| > 0 {
        Deliver(plain);
        net.SizesHold();
        forall i | 0 <= i < |slots|
          ensures Advanced(h, old(At(i)), At(i), plain) && Onward(old(At(i)).c, At(i).c)
        {
          PacedDelivered(h, old(At(i)), old@paced(At(i)), At(i), plain);
          AdvancedOnward(h, old(At(i)), At(i), plain);
        }
      } else {
        forall i | 0 <= i < |slots|
          ensures Advanced(h, old(At(i)), At(i), plain) && Onward(old(At(i)).c, At(i).c)
        {
          StillAdvanced(h, old(At(i)), At(i));
          AdvancedOnward(h, old(At(i)), At(i), plain);
        }
      }
      OnwardSteady();
    }

    /** ssh_net_broadcast: whatever was rendered, the stream of every slot still served at the end has grown by whole
        records that its client opens in turn to all of it, once and in order; every connection that was in step with
        its stream still is. It stops only when the budget is used up, when nothing is left to show, or when some slot
        cannot take more. */
    method Broadcast(scr: Screen, now: nat) returns (ghost out: seq<byte>, ghost tight: int)
      requires Shape() && net.Valid() && screen.Valid() && scr.Ok()
      requires forall i :: 0 <= i < |slots| && active[i] ==> At(i).Passed()
      modifies this`slots, this`active, net`marks, net.conns, set c | c in net.conns :: c.sbuf, screen, screen.obuf,
               screen.shadow
      ensures Shape() && net.Valid() && net.AllSteady() && screen.Valid() && |slots| == old(|slots|)
      ensures Grown(old(net.marks), net.marks)
      ensures |out| <= TX_BUDGET && screen.tty == FeedAll(old(screen.tty), out)
      ensures forall i :: 0 <= i < |slots| ==> Advanced(h, old(At(i)), At(i), out)
      ensures |out| == TX_BUDGET || AllShown(screen, scr) || Stuck(tight)
    {
      hide Inv, Net.Valid, Renderer.Valid, FeedAll, Advanced, Onward;
      net.SizesHold();
      var budget := TX_BUDGET;
      out, tight := [], -1;
      screen.ValidBuffers();
      FeedNothing(screen.tty);
      forall i | 0 <= i < |slots|
        ensures Advanced(h, old(At(i)), At(i), [])
      {
        StillAdvanced(h, old(At(i)), At(i));
      }
      while budget > 0
        invariant Shape() && net.Valid() && screen.Valid() && |slots| == old(|slots|)
        invariant Grown(old(net.marks), net.marks)
        invariant 0 <= budget && |out| + budget == TX_BUDGET && screen.tty == FeedAll(old(screen.tty), out)
        invariant forall i :: 0 <= i < |slots| ==> Advanced(h, old(At(i)), At(i), out)
        decreases budget
      {
        screen.ValidBuffers();
        label before:
        forall i | 0 <= i < |slots| && active[i]
          ensures At(i).Passed()
        {
          AdvancedStream(h, old(At(i)), At(i), out);
        }
        var plain;
        plain, tight := Round(budget, scr, now);
        FeedConcat(old(screen.tty), out, plain);
        forall i | 0 <= i < |slots|
          ensures Advanced(h, old(At(i)), At(i), out + plain)
        {
          AdvancedOn(h, old(At(i)), old@before(At(i)), At(i), out, plain);
        }
        out := out + plain;
        budget := budget - |plain|;
        if |plain| == 0 {
          break;
        }
      }
      net.SizesHold();
      forall i | 0 <= i < |slots|
        ensures Onward(old(At(i)).c, At(i).c)
      {
        AdvancedOnward(h, old(At(i)), At(i), out);
      }
      OnwardSteady();
    }

    // ----- replies -----

    /** One pass of the loop of ssh_pump_output. */
    method PumpChunk(k: nat) returns (n: nat)
      requires Shape() && net.Valid() && k < |slots|
      modifies this`slots, net`marks, net.conns, set c | c in net.conns :: c.sbuf
      ensures Shape() && net.Valid() && net.AllSteady() && |slots| == old(|slots|) && Grown(old(net.marks), net.marks)
      ensures n <= |old(slots[k]).io.ob| && n <= old(At(k)).Room()
      ensures n == 0 ==> old(slots[k]).io.ob == [] || old(At(k)).Room() == 0
      ensures slots == old(slots)[k := slots[k]] && Pumped(old(At(k)), At(k), n)
      ensures forall i :: 0 <= i < |slots| && i != k ==> Still(old(At(i)), At(i))
    {
      hide Inv, Net.Valid, Conn.Valid, Forward, Readable;
      RingOk(k);
      var room := net.conns[k].RoomLeft();
      if room > 128 {
        room := 128;
      }
      n := Min(|slots[k].io.ob|, room);
      var bytes := slots[k].io.ob[..n];
      DrainKeeps(h, slots[k], n);
      net.SizesHold();
      slots := slots[k := Drained(slots[k], n)];
      PutBytes(net, k, bytes);
      RingOk(k);
      net.SizesHold();
      net.GrownSteady();
    }

    /** ssh_pump_output: as much of what is queued as the ring has room for, in order; all of it if it fits. */
    method PumpOutput(k: nat) returns (moved: nat)
      requires Shape() && net.Valid() && k < |slots|
      modifies this`slots, net`marks, net.conns, set c | c in net.conns :: c.sbuf
      ensures Shape() && net.Valid() && net.AllSteady() && |slots| == old(|slots|) && Grown(old(net.marks), net.marks)
      ensures moved == Min(|old(slots[k]).io.ob|, old(At(k)).Room()) && old(At(k)).c.v.Ok()
      ensures slots == old(slots)[k := slots[k]] && Pumped(old(At(k)), At(k), moved)
      ensures forall i :: 0 <= i < |slots| && i != k ==> Still(old(At(i)), At(i))
    {
      hide Inv, Net.Valid, Still, Pumped, Onward;
      moved := 0;
      ghost var a := At(k);
      RingOk(k);
      net.SizesHold();
      forall i | 0 <= i < |slots|
        ensures Still(At(i), At(i))
      {
        StillSame(At(i));
      }
      PumpedNothing(a);
      while true
        invariant Shape() && net.Valid() && |slots| == old(|slots|) && Grown(old(net.marks), net.marks)
        invariant slots == old(slots)[k := slots[k]]
        invariant moved <= |a.w.io.ob| && moved <= a.Room() && Pumped(a, At(k), moved)
        invariant forall i :: 0 <= i < |slots| && i != k ==> Still(old(At(i)), At(i))
        decreases |a.w.io.ob| - moved
      {
        label before:
        var n := PumpChunk(k);
        PumpedOn(a, old@before(At(k)), At(k), moved, n);
        forall i | 0 <= i < |slots| && i != k
          ensures Still(old(At(i)), At(i))
        {
          StillOn(old(At(i)), old@before(At(i)), At(i));
        }
        if n == 0 {
          break;
        }
        moved := moved + n;
      }
      net.SizesHold();
      PumpedOnward(a, At(k), moved);
      OneOnward(k);
    }

    // ----- serving a slot -----

    /** The queue passes to slot k. Something gets mixed up exactly when it holds bytes that another slot left. */
    method Load(k: nat)
      requires Shape() && k < |slots|
      modifies this`slots, this`owner, this`mixed
      ensures Shape() && owner == k && mixed == (old(mixed) || (ob != [] && old(owner) != k))
      ensures slots == old(slots)[k := Holding(old(slots[k]), ob)]
      ensures old(Orderly()) ==> Orderly()
      ensures old(Orderly()) && !mixed && active[k] ==> slots == old(slots)
    {
      hide Inv;
      HoldingInv(slots[k], ob);
      mixed := mixed || (ob != [] && owner != k);
      slots := slots[k := Holding(slots[k], ob)];
      owner := k;
    }

    /** What has arrived for slot k, at most 512 bytes of it. */
    method Gather(k: nat) returns (data: seq<byte>)
      requires net.Valid() && k < |net.conns|
      modifies net.conns
      ensures net.Valid() && net.AllSteady() && |data| <= 512
      ensures net.conns[k].v == old(net.conns[k].v).(popped := old(net.conns[k].v).popped + |data|)
      ensures net.conns[k].v.popped <= |net.conns[k].v.received|
      ensures data == net.conns[k].v.received[old(net.conns[k].v.popped)..net.conns[k].v.popped]
      ensures |data| < 512 ==> net.conns[k].v.popped == |net.conns[k].v.received|
      ensures forall i :: 0 <= i < |net.conns| ==>
                Net.SameButRing(net.conns[i]) && (i != k ==> net.conns[i].v == old(net.conns[i].v))
    {
      hide Net.Valid;
      data := [];
      net.SizesHold();
      RingOk(k);
      ghost var v := net.conns[k].v;
      while |data| < 512
        invariant net.Valid() && |data| <= 512 && v.popped + |data| <= |v.received|
        invariant net.conns[k].v == v.(popped := v.popped + |data|)
        invariant data == v.received[v.popped..v.popped + |data|]
        invariant forall i :: 0 <= i < |net.conns| ==>
                    Net.SameButRing(net.conns[i]) && (i != k ==> net.conns[i].v == old(net.conns[i].v))
      {
        var b := net.RxGetC(k);
        if b < 0 {
          break;
        }
        data := data + [b as byte];
      }
      net.GrownSteady();
    }

    /** It goes to ssh_input. */
    method ReadInput(k: nat) returns (data: seq<byte>)
      requires Shape() && net.Valid() && k < |slots|
      modifies this`slots, this`ibs, net.conns
      ensures Shape() && net.Valid() && |data| <= 512
      ensures slots == old(slots)[k := slots[k]] && ibs == old(ibs)[k := ibs[k]]
      ensures Fed(h, old(slots[k]), old(ibs[k]), data, slots[k], ibs[k]) && Read(old(At(k)), At(k), data)
      ensures forall i :: 0 <= i < |slots| && i != k ==> Still(old(At(i)), At(i))
    {
      hide Inv, Net.Valid, Input;
      data := Gather(k);
      assert slots == slots[k := slots[k]] && ibs == ibs[k := ibs[k]];
      if |data| > 0 {
        var r := Input(h, Slot(slots[k], ibs[k], []), data);
        slots, ibs := slots[k := r.w], ibs[k := r.ib];
      }
    }

    /** The slot's keystrokes, to the last one, go to the keyboard decoder. */
    method Keystrokes(k: nat) returns (keys: seq<byte>)
      requires Shape() && k < |slots|
      modifies this`slots
      ensures Shape() && keys == old(slots[k]).io.cin
      ensures slots == old(slots)[k := Typing(old(slots[k]), [])]
    {
      hide Inv;
      keys := [];
      ghost var w := slots[k];
      while slots[k].io.cin != []
        invariant Shape() && slots == old(slots)[k := Typing(w, slots[k].io.cin)]
        invariant keys + slots[k].io.cin == w.io.cin
        decreases |slots[k].io.cin|
      {
        TypingKeeps(h, slots[k]);
        keys := keys + [slots[k].io.cin[0]];
        slots := slots[k := Typing(slots[k], slots[k].io.cin[1..])];
      }
    }

    /** A client whose shell has just come up, or whose window has changed, makes the screen be painted afresh. */
    method Repaint(k: nat, now: nat)
      requires Shape() && screen.Valid() && k < |slots|
      modifies this`readySeen, this`cols, this`rows, screen
      ensures Shape() && screen.Valid() && screen.tty == old(screen.tty)
      ensures slots[k].ch.Ready() ==> readySeen == old(readySeen)[k := true] && (cols, rows) == WinSize(slots[k].ch)
      ensures !slots[k].ch.Ready() ==> readySeen == old(readySeen) && (cols, rows) == old((cols, rows))
      ensures readySeen != old(readySeen) || (cols, rows) != old((cols, rows)) ==>
                screen.force_kf && !screen.frame_active
      ensures readySeen == old(readySeen) && (cols, rows) == old((cols, rows)) ==> unchanged(screen)
    {
      hide Inv, Renderer.Valid, WinSize;
      if slots[k].ch.Ready() {
        if !readySeen[k] {
          readySeen := readySeen[k := true];
          screen.Reset(now);
        }
        var size := WinSize(slots[k].ch);
        if size != (cols, rows) {
          cols, rows := size.0, size.1;
          screen.Reset(now);
        }
      }
    }

    /** What is left in the queue is discarded, the slot dropped. */
    method Drop(k: nat)
      requires Shape() && net.Valid() && k < |slots|
      modifies this`slots, this`active, net.conns
      ensures Shape() && net.Valid()
      ensures slots == old(slots)[k := slots[k]] && active == old(active)[k := active[k]]
      ensures Gone(old(At(k)), At(k))
      ensures forall i :: 0 <= i < |slots| && i != k ==> Still(old(At(i)), At(i))
    {
      hide Inv, Net.Valid;
      HoldingInv(slots[k], []);
      slots := slots[k := Holding(slots[k], [])];
      var rst := net.SlotDrop(k);
      active := active[k := false];
    }

    /** A session that is over: its last bytes go out as far as they fit. */
    method Teardown(k: nat)
      requires Shape() && net.Valid() && k < |slots|
      modifies this`slots, this`active, net`marks, net.conns, set c | c in net.conns :: c.sbuf
      ensures Shape() && net.Valid() && Grown(old(net.marks), net.marks)
      ensures slots == old(slots)[k := slots[k]] && active == old(active)[k := active[k]]
      ensures if Over(old(slots[k])) then Gone(old(At(k)), At(k)) else Still(old(At(k)), At(k))
      ensures forall i :: 0 <= i < |slots| && i != k ==> Still(old(At(i)), At(i))
    {
      hide Inv, Net.Valid, Pumped, Over, Still, Gone;
      assert slots == slots[k := slots[k]] && active == active[k := active[k]];
      ghost var a := At(k);
      if Over(slots[k]) {
        var moved := PumpOutput(k);
        label pumped:
        Drop(k);
        PumpedGone(a, old@pumped(At(k)), At(k), moved);
        forall i | 0 <= i < |slots| && i != k
          ensures Still(old(At(i)), At(i))
        {
          StillOn(old(At(i)), old@pumped(At(i)), At(i));
        }
      } else {
        forall i | 0 <= i < |slots|
          ensures Still(old(At(i)), At(i))
        {
          StillSame(At(i));
        }
      }
    }

    /** What goes on with an established session: its input, the replies, the keystrokes. */
    method Converse(k: nat) returns (keys: seq<byte>)
      requires Shape() && net.Valid() && k < |slots| && active[k] && net.conns[k].tstate == Estab
      modifies this`slots, this`ibs, net`marks, net.conns, set c | c in net.conns :: c.sbuf
      ensures Shape() && net.Valid() && Grown(old(net.marks), net.marks) && slots == old(slots)[k := slots[k]]
      ensures forall i :: 0 <= i < |slots| && i != k ==> Still(old(At(i)), At(i))
      ensures Conversed(h, old(At(k)), At(k))
    {
      hide Inv, Net.Valid, Fed, Read, Pumped, Still, Conversed;
      ghost var a := At(k);
      RingOk(k);
      var data := ReadInput(k);
      ghost var f := At(k);
      label fed:
      FedKeeps(h, a.w, old(ibs[k]), data, f.w, ibs[k]);
      var moved := PumpOutput(k);
      ghost var p := At(k);
      keys := Keystrokes(k);
      ConversedNow(h, a, f, p, data, moved);
      forall i | 0 <= i < |slots| && i != k
        ensures Still(old(At(i)), At(i))
      {
        StillOn(old(At(i)), old@fed(At(i)), At(i));
      }
    }

    /** And then the screen and the end of the session, if it is over. */
    method Attend(k: nat, now: nat) returns (keys: seq<byte>)
      requires Shape() && net.Valid() && screen.Valid() && k < |slots| && active[k] && net.conns[k].tstate == Estab
      modifies this`slots, this`ibs, this`active, this`readySeen, this`cols, this`rows
      modifies net`marks, net.conns, set c | c in net.conns :: c.sbuf, screen
      ensures Shape() && net.Valid() && screen.Valid() && screen.tty == old(screen.tty)
      ensures Grown(old(net.marks), net.marks)
      ensures slots == old(slots)[k := slots[k]] && active == old(active)[k := active[k]]
      ensures forall i :: 0 <= i < |slots| && i != k ==> Still(old(At(i)), At(i))
      ensures Attended(h, false, old(At(k)), At(k)) && (old(At(k)).Roomy() ==> slots[k].io.ob == [])
      ensures active[k] ==> Handed(old(At(k)), old(slots[k]).io.ob, At(k))
    {
      hide Inv, Net.Valid, Renderer.Valid, Conversed, Stand.Roomy, WinSize, Over, Attended, Handed, Gone, Still;
      ghost var a := At(k);
      keys := Converse(k);
      label conversed:
      Repaint(k, now);
      Teardown(k);
      Concluded(h, a, old@conversed(At(k)), At(k));
      forall i | 0 <= i < |slots| && i != k
        ensures Still(old(At(i)), At(i))
      {
        StillOn(old(At(i)), old@conversed(At(i)), At(i));
      }
    }

    /** A connected session is handed the queue and attended to. */
    method ServeLive(k: nat, now: nat) returns (keys: seq<byte>)
      requires Shape() && Orderly() && net.Valid() && screen.Valid() && k < |slots| && At(k).Live()
      modifies this`slots, this`ibs, this`active, this`readySeen, this`cols, this`rows, this`ob, this`owner, this`mixed
      modifies net`marks, net.conns, set c | c in net.conns :: c.sbuf, screen
      ensures Shape() && Orderly() && net.Valid() && screen.Valid() && |slots| == old(|slots|)
      ensures screen.tty == old(screen.tty) && Grown(old(net.marks), net.marks)
      ensures forall i :: 0 <= i < |slots| && i != k ==> Still(old(At(i)), At(i))
      ensures Attended(h, mixed, old(At(k)), At(k)) && (active[k] ==> Handed(old(At(k)), old(ob), At(k)))
      ensures mixed == (old(mixed) || (old(ob) != [] && old(owner) != k))
      ensures owner == k && (old(At(k)).Roomy() ==> ob == [])
    {
      hide Inv, Net.Valid, Renderer.Valid, Attended, Handed, Stand.Roomy;
      ghost var a := At(k);
      Load(k);
      ghost var b := At(k);
      keys := Attend(k, now);
      AttendedLoaded(h, mixed, a, b, At(k));
      QueueSize(slots[k]);
      ob := slots[k].io.ob;
    }

    /** One slot in the loop of ssh_net_worker. */
    method Serve(k: nat, now: nat) returns (keys: seq<byte>)
      requires Shape() && Orderly() && net.Valid() && screen.Valid() && k < |slots|
      modifies this`slots, this`ibs, this`active, this`readySeen, this`cols, this`rows, this`ob, this`owner, this`mixed
      modifies net`marks, net.conns, set c | c in net.conns :: c.sbuf, screen
      ensures Shape() && Orderly() && net.Valid() && screen.Valid() && |slots| == old(|slots|)
      ensures screen.tty == old(screen.tty) && net.AllSteady() && Grown(old(net.marks), net.marks)
      ensures forall i :: 0 <= i < |slots| && i != k ==> Still(old(At(i)), At(i))
      ensures Attended(h, mixed, old(At(k)), At(k))
      // the queue is mixed up exactly when an established session meets bytes that another slot left there
      ensures mixed == (old(mixed) || (old(At(k)).Live() && old(ob) != [] && old(owner) != k))
      // whoever left them, the bytes in the queue are the first to go to this slot
      ensures active[k] ==> Handed(old(At(k)), old(ob), At(k))
      ensures if old(At(k)).Live() then owner == k && (old(At(k)).Roomy() ==> ob == []) else ob == old(ob)
    {
      hide Inv, Net.Valid, Renderer.Valid, Attended, Handed, Stand.Roomy, Onward;
      keys := [];
      ghost var a := At(k);
      net.SizesHold();
      if !active[k] {
        StillAttended(h, mixed, a, a);
      } else if net.conns[k].tstate != Estab {
        active := active[k := false];
        Released(h, mixed, a, At(k));
      } else {
        keys := ServeLive(k, now);
      }
      net.SizesHold();
      AttendedOnward(h, mixed, a, At(k));
      OneOnward(k);
    }

    // ----- new connections -----

    /** ssh_reset on slot k, and what the worker notes beside it. */
    method Begin(k: nat, drawn: nat)
      requires Shape() && k < |slots|
      modifies this`slots, this`ibs, this`active, this`readySeen, this`cols, this`rows, this`owner, this`mixed
      ensures Shape() && owner == k && mixed == (old(mixed) || (ob != [] && old(owner) != k))
      ensures slots == old(slots)[k := Reset(h, drawn)] && ibs == old(ibs)[k := []]
      ensures active == old(active)[k := true] && readySeen == old(readySeen)[k := false] && cols == 80 && rows == 25
    {
      hide Inv, Reset;
      ResetInv(h, drawn);
      mixed := mixed || (ob != [] && owner != k);
      owner := k;
      slots, ibs := slots[k := Reset(h, drawn)], ibs[k := []];
      active, readySeen := active[k := true], readySeen[k := false];
      cols, rows := 80, 25;
    }

    /** A fresh session on slot k: its version string and KEXINIT go to the ring as far as they fit. */
    method Start(k: nat, drawn: nat)
      requires Shape() && Orderly() && net.Valid() && k < |slots|
      modifies this`slots, this`ibs, this`active, this`readySeen, this`cols, this`rows, this`ob, this`owner, this`mixed
      modifies net`marks, net.conns, set c | c in net.conns :: c.sbuf
      ensures Shape() && Orderly() && net.Valid() && |slots| == old(|slots|)
      ensures net.AllSteady() && Grown(old(net.marks), net.marks)
      ensures Begun(old(At(k)), At(k), Reset(h, drawn)) && ob == slots[k].io.ob
      ensures ibs[k] == [] && !readySeen[k] && cols == 80 && rows == 25
      ensures forall i :: 0 <= i < |slots| && i != k ==> Still(old(At(i)), At(i))
      ensures mixed == (old(mixed) || (old(ob) != [] && old(owner) != k))
    {
      hide Inv, Net.Valid, Reset, Pumped, Onward;
      RingOk(k);
      net.SizesHold();
      ghost var a := At(k);
      Begin(k, drawn);
      var moved := PumpOutput(k);
      QueueSize(slots[k]);
      ob := slots[k].io.ob;
      PumpedOnward(a.(active := true, w := Reset(h, drawn)), At(k), moved);
      net.SizesHold();
      OneOnward(k);
    }

    /** The first slot whose handshake has completed gets a session. */
    method Welcome(at: nat -> nat) returns (k: int)
      requires Shape() && Orderly() && net.Valid()
      requires forall i :: 0 <= i < |slots| && At(i).c.isNew ==> At(i).c.v.stream == []
      modifies this`slots, this`ibs, this`active, this`readySeen, this`cols, this`rows, this`ob, this`owner, this`mixed
      modifies net`marks, net.conns, set c | c in net.conns :: c.sbuf
      ensures Shape() && Orderly() && net.Valid() && |slots| == old(|slots|)
      ensures net.AllSteady() && Grown(old(net.marks), net.marks)
      ensures -1 <= k < |slots| && forall i :: 0 <= i < |slots| && (k < 0 || i < k) ==> !old(At(i)).c.isNew
      ensures forall i :: 0 <= i < |slots| && i != k ==> Still(old(At(i)), At(i))
      ensures k >= 0 ==> old(At(k)).c.isNew && Welcomed(h, old(At(k)), At(k))
      ensures (old(ob) == [] ==> ob == [] && mixed == old(mixed)) && (old(mixed) ==> mixed)
    {
      hide Inv, Net.Valid, Welcomed, Reset, Begun, Connected, Stand.Roomy;
      net.SizesHold();
      k := net.TakeNewSlot();
      net.SizesHold();
      if k >= 0 {
        ghost var b := At(k);
        Start(k, at(k));
        BegunNow(h, b, At(k), at(k));
        New(h, old(At(k)), b, At(k));
      }
      net.SizesHold();
      OnwardSteady();
    }

    /** The loop over net_take_new_slot: every such slot gets one. */
    method Newcomers(at: nat -> nat)
      requires Shape() && Orderly() && net.Valid()
      requires forall i :: 0 <= i < |slots| && At(i).c.isNew ==> At(i).c.v.stream == []
      modifies this`slots, this`ibs, this`active, this`readySeen, this`cols, this`rows, this`ob, this`owner, this`mixed
      modifies net`marks, net.conns, set c | c in net.conns :: c.sbuf
      ensures Shape() && Orderly() && net.Valid() && |slots| == old(|slots|)
      ensures net.AllSteady() && Grown(old(net.marks), net.marks)
      ensures forall i :: 0 <= i < |slots| ==> Welcomed(h, old(At(i)), At(i))
      ensures (old(ob) == [] ==> ob == [] && mixed == old(mixed)) && (old(mixed) ==> mixed)
    {
      hide Inv, Net.Valid, Welcomed, Orderly;
      net.SizesHold();
      ghost var done := 0;
      while true
        invariant Shape() && Orderly() && net.Valid() && |slots| == old(|slots|) && Grown(old(net.marks), net.marks)
        invariant 0 <= done <= |slots|
        invariant forall i :: 0 <= i < done ==> Welcomed(h, old(At(i)), At(i)) && !At(i).c.isNew
        invariant forall i :: done <= i < |slots| ==> Still(old(At(i)), At(i))
        invariant (old(ob) == [] ==> ob == [] && mixed == old(mixed)) && (old(mixed) ==> mixed)
        decreases |slots| - done
      {
        label before:
        var k := Welcome(at);
        forall i | 0 <= i < |slots| && (k < 0 || i <= k)
          ensures Welcomed(h, old(At(i)), At(i)) && !At(i).c.isNew
        {
          WelcomedNext(h, old(At(i)), old@before(At(i)), At(i));
        }
        if k < 0 {
          break;
        }
        done := k + 1;
      }
      forall i | 0 <= i < |slots|
        ensures Onward(old(At(i)).c, At(i).c)
      {
        WelcomedOnward(h, old(At(i)), At(i));
      }
      net.SizesHold();
      OnwardSteady();
    }

    // ----- the tick -----

    /** The loop of ssh_net_worker over the active slots. */
    method ServeAll(now: nat)
      requires Shape() && Orderly() && net.Valid() && screen.Valid()
      modifies this`slots, this`ibs, this`active, this`readySeen, this`cols, this`rows, this`ob, this`owner, this`mixed
      modifies net`marks, net.conns, set c | c in net.conns :: c.sbuf, screen
      ensures Shape() && Orderly() && net.Valid() && screen.Valid() && |slots| == old(|slots|)
      ensures screen.tty == old(screen.tty) && net.AllSteady() && Grown(old(net.marks), net.marks)
      ensures forall i :: 0 <= i < |slots| ==> Attended(h, mixed, old(At(i)), At(i))
      ensures old(mixed) ==> mixed
      ensures old(ob) == [] && (forall i :: 0 <= i < |slots| ==> old(At(i)).Roomy()) ==> ob == [] && mixed == old(mixed)
    {
      hide Inv, Net.Valid, Renderer.Valid, Orderly, Attended, Still, Stand.Roomy, Handed, Onward;
      net.SizesHold();
      forall i | 0 <= i < |slots|
        ensures Still(old(At(i)), At(i))
      {
        StillSame(At(i));
      }
      var k := 0;
      while k < |slots|
        invariant 0 <= k <= |slots| == old(|slots|)
        invariant Shape() && Orderly() && net.Valid() && screen.Valid() && screen.tty == old(screen.tty)
        invariant Grown(old(net.marks), net.marks)
        invariant forall i :: 0 <= i < k ==> Attended(h, mixed, old(At(i)), At(i))
        invariant forall i :: k <= i < |slots| ==> Still(old(At(i)), At(i))
        invariant old(mixed) ==> mixed
        invariant old(ob) == [] && (forall i :: 0 <= i < |slots| ==> old(At(i)).Roomy()) ==>
                    ob == [] && mixed == old(mixed)
      {
        ghost var a, was := old(At(k)), mixed;
        if a.Roomy() {
          StillRoomy(a, At(k));
        }
        label before:
        var keys := Serve(k, now);
        StillThenAttended(h, mixed, a, old@before(At(k)), At(k));
        forall i | 0 <= i < |slots| && i != k
          ensures if i < k then Attended(h, mixed, old(At(i)), At(i)) else Still(old(At(i)), At(i))
        {
          if i < k {
            AttendedThenStill(h, was, mixed, old(At(i)), old@before(At(i)), At(i));
          } else {
            StillOn(old(At(i)), old@before(At(i)), At(i));
          }
        }
        k := k + 1;
      }
      forall i | 0 <= i < |slots|
        ensures Onward(old(At(i)).c, At(i).c)
      {
        AttendedOnward(h, mixed, old(At(i)), At(i));
      }
      net.SizesHold();
      OnwardSteady();
    }

    /** Between ticks: nobody waits for a session, and whoever has one is connected and has typed nothing that has not
        been read. */
    ghost predicate Between()
      requires |slots| == |active| == |net.conns|
      reads this`slots, this`active, net.conns
    {
      forall i :: 0 <= i < |slots| ==>
        Idle(At(i).c) && (active[i] ==> At(i).c.tstate == Estab && slots[i].io.cin == [])
    }

    /** net_poll, as the worker sees it. */
    method PollNet(now: nat, frame: Option<Slots.Frame>)
      requires Shape() && Orderly() && Between() && net.Valid()
      requires frame.Some? ==> frame.value.seg.seqno < TWO32 && frame.value.seg.ackno < TWO32
      modifies net`joined, net`marks, net.conns, set c | c in net.conns :: c.rbuf
      ensures Shape() && Orderly() && net.Valid() && net.AllSteady()
      ensures forall i :: 0 <= i < |slots| ==> Polled(old(At(i)).c, At(i).c)
      ensures |net.joined| == |net.conns| == |net.marks| && old(|net.joined| == |net.conns| == |net.marks|)
      ensures forall i :: 0 <= i < |slots| && old(Net.Admitted(net.conns[i])) && Net.Admitted(net.conns[i]) ==>
                && net.joined[i] == old(net.joined)[i] && old(net.marks)[i] <= net.marks[i]
                && old(net.conns[i].v.stream) <= net.conns[i].v.stream
    {
      hide Inv, Net.Valid, Slots.Took, SentOn, Orderly, Polled;
      net.SizesHold();
      var outs, t := net.Poll(now, frame);
      net.SizesHold();
      forall i | 0 <= i < |slots| && old(Net.Admitted(net.conns[i])) && Net.Admitted(net.conns[i])
        ensures net.joined[i] == old(net.joined)[i] && old(net.marks)[i] <= net.marks[i]
        ensures old(net.conns[i].v.stream) <= net.conns[i].v.stream
      {
        assert net.Steady(i);
      }
      forall i | 0 <= i < |slots|
        ensures Polled(old(At(i)).c, At(i).c)
      {
        PollPolls(old(net.Looks()), t, now, frame, i, At(i).c, t.bursts[i]);
      }
    }

    /** Every session is served, then the screen goes out. */
    method ServeAndCast(now: nat, scr: Screen) returns (ghost out: seq<byte>, ghost served: seq<Stand>)
      requires Shape() && Orderly() && net.Valid() && screen.Valid() && scr.Ok()
      modifies this`slots, this`ibs, this`active, this`readySeen, this`cols, this`rows, this`ob, this`owner, this`mixed
      modifies net`marks, net.conns, set c | c in net.conns :: c.sbuf, screen, screen.obuf, screen.shadow
      ensures Shape() && Orderly() && net.Valid() && screen.Valid() && |slots| == old(|slots|) == |served|
      ensures net.AllSteady() && Grown(old(net.marks), net.marks)
      ensures forall i :: 0 <= i < |slots| ==> Onward(old(At(i)).c, At(i).c)
      ensures |out| <= TX_BUDGET && screen.tty == FeedAll(old(screen.tty), out)
      ensures forall i :: 0 <= i < |slots| ==>
                Attended(h, mixed, old(At(i)), served[i]) && Advanced(h, served[i], At(i), out)
      ensures old(mixed) ==> mixed
      ensures old(ob) == [] && (forall i :: 0 <= i < |slots| ==> old(At(i)).Roomy()) ==> ob == [] && mixed == old(mixed)
    {
      hide Inv, Net.Valid, Renderer.Valid, FeedAll, Attended, Advanced, Stand.Roomy, Stand.Passed, Onward;
      net.SizesHold();
      ServeAll(now);
      served := Stands();
      forall i | 0 <= i < |slots| && active[i]
        ensures At(i).Passed()
      {
        AttendedPassed(h, mixed, old(At(i)), At(i));
      }
      ghost var tight;
      out, tight := Broadcast(scr, now);
      net.SizesHold();
      forall i | 0 <= i < |slots|
        ensures active[i] ==> served[i].active && slots[i].io.ob == served[i].w.io.ob
        ensures Onward(old(At(i)).c, At(i).c)
      {
        AdvancedStream(h, served[i], At(i), out);
        AttendedOnward(h, mixed, old(At(i)), served[i]);
        AdvancedOnward(h, served[i], At(i), out);
        OnwardOn(old(At(i)).c, served[i].c, At(i).c);
      }
      OnwardSteady();
    }

    ghost function Stands(): (s: seq<Stand>)
      requires |slots| == |active| == |net.conns|
      reads this, net.conns
      ensures |s| == |slots| && forall i :: 0 <= i < |s| ==> s[i] == At(i)
    {
      seq(|slots|, i requires 0 <= i < |slots| == |active| == |net.conns| reads this, net.conns => At(i))
    }

    /** net_tx_flush. */
    method SendOut(now: nat) returns (ghost bursts: seq<seq<Segment>>)
      requires Shape() && Orderly() && net.Valid()
      modifies net.conns
      ensures Shape() && Orderly() && net.Valid() && net.AllSteady()
      ensures |bursts| == |slots| && forall i :: 0 <= i < |slots| ==>
                && At(i).active == old(At(i)).active && At(i).w == old(At(i)).w
                && SentOn(old(At(i)).c, At(i).c, now, bursts[i])
    {
      hide Inv, Net.Valid, SentOn;
      var outs;
      outs, bursts := net.RunOutput(now);
    }

    /** The rest of the tick: new sessions, service, the broadcast, and everything is sent. */
    method Work(now: nat, scr: Screen, at: nat -> nat)
      returns (ghost out: seq<byte>, ghost welcomed: seq<Stand>, ghost served: seq<Stand>, ghost cast: seq<Stand>,
        ghost bursts: seq<seq<Segment>>)
      requires Shape() && Orderly() && net.Valid() && screen.Valid() && scr.Ok()
      requires forall i :: 0 <= i < |slots| && At(i).c.isNew ==> At(i).c.v.stream == []
      modifies this`slots, this`ibs, this`active, this`readySeen, this`cols, this`rows, this`ob, this`owner, this`mixed
      modifies net`marks, net.conns, set c | c in net.conns :: c.sbuf, screen, screen.obuf, screen.shadow
      ensures Shape() && Orderly() && net.Valid() && screen.Valid() && net.AllSteady()
      ensures |slots| == old(|slots|) == |welcomed| == |served| == |cast| == |bursts|
      ensures |out| <= TX_BUDGET && screen.tty == FeedAll(old(screen.tty), out)
      ensures forall i :: 0 <= i < |slots| ==>
                && Welcomed(h, old(At(i)), welcomed[i]) && Attended(h, mixed, welcomed[i], served[i])
                && Advanced(h, served[i], cast[i], out)
                && At(i).active == cast[i].active && At(i).w == cast[i].w
                && SentOn(cast[i].c, At(i).c, now, bursts[i])
      ensures old(mixed) ==> mixed
      ensures old(ob) == [] && (forall i :: 0 <= i < |slots| ==> welcomed[i].Roomy()) ==>
                ob == [] && mixed == old(mixed)
    {
      hide Inv, Net.Valid, Renderer.Valid, Orderly, FeedAll, Welcomed, Attended, Advanced, SentOn, Stand.Roomy, Onward;
      net.SizesHold();
      Newcomers(at);
      welcomed := Stands();
      out, served := ServeAndCast(now, scr);
      cast := Stands();
      bursts := SendOut(now);
      net.SizesHold();
      forall i | 0 <= i < |slots|
        ensures Onward(old(At(i)).c, At(i).c)
      {
        WelcomedOnward(h, old(At(i)), welcomed[i]);
        SentOnward(cast[i].c, At(i).c, now, bursts[i]);
        OnwardOn(old(At(i)).c, welcomed[i].c, cast[i].c);
        OnwardOn(old(At(i)).c, cast[i].c, At(i).c);
      }
      OnwardSteady();
    }

    /** ssh_net_worker: one tick. Whatever arrives, every session that was in step with its stream still is, unless some
        session was served while the queue held bytes of another. That cannot happen in a tick that begins with an
        empty queue and with room for a whole queue in every ring; it then ends with an empty queue. */
    method Tick(now: nat, frame: Option<Slots.Frame>, scr: Screen, at: nat -> nat) returns (ghost out: seq<byte>)
      requires Shape() && Orderly() && Between() && net.Valid() && screen.Valid() && scr.Ok()
      requires frame.Some? ==> frame.value.seg.seqno < TWO32 && frame.value.seg.ackno < TWO32
      modifies this`slots, this`ibs, this`active, this`readySeen, this`cols, this`rows, this`ob, this`owner, this`mixed
      modifies net`joined, net`marks, net.conns, set c | c in net.conns :: c.sbuf, set c | c in net.conns :: c.rbuf
      modifies screen, screen.obuf, screen.shadow
      ensures Shape() && Orderly() && Between() && net.Valid() && screen.Valid() && |slots| == old(|slots|)
      ensures net.AllSteady() && |out| <= TX_BUDGET && screen.tty == FeedAll(old(screen.tty), out)
      ensures !mixed ==> forall i :: 0 <= i < |slots| && old(Connected(h, At(i))) ==> Connected(h, At(i))
      ensures forall i :: 0 <= i < |slots| && At(i).c.tstate == Estab ==> At(i).c.v.nxt == |At(i).c.v.stream|
      ensures old(mixed) ==> mixed
      ensures old(ob) == [] && (forall i :: 0 <= i < |slots| ==> old(At(i)).Roomy()) ==> ob == [] && mixed == old(mixed)
    {
      hide Inv, Net.Valid, Renderer.Valid, Orderly, FeedAll, Connected, Welcomed, Attended, Advanced, SentOn, Idle,
           Stand.Roomy, Polled, Onward;
      PollNet(now, frame);
      label polled:
      forall i | 0 <= i < |slots| && At(i).c.isNew
        ensures At(i).c.v.stream == []
      {
        PolledNew(old(At(i)).c, At(i).c);
      }
      ghost var welcomed, served, cast, bursts;
      out, welcomed, served, cast, bursts := Work(now, scr, at);
      net.SizesHold();
      forall i | 0 <= i < |slots|
        ensures Idle(At(i).c) && (active[i] ==> At(i).c.tstate == Estab && slots[i].io.cin == [])
        ensures !mixed && old(Connected(h, At(i))) ==> Connected(h, At(i))
        ensures old(At(i)).Roomy() ==> welcomed[i].Roomy()
        ensures net.Steady(i) && (At(i).c.tstate == Estab ==> At(i).c.v.nxt == |At(i).c.v.stream|)
      {
        TickSlot(h, mixed, old(At(i)), old@polled(At(i)), welcomed[i], served[i], cast[i], At(i), out, now, bursts[i]);
        if old(At(i)).Roomy() {
          RoomySlot(h, old(At(i)), old@polled(At(i)), welcomed[i]);
        }
        assert net.Steady@polled(i);
      }
    }
  }

  lemma DrainTwice(w: World, a: nat, b: nat)
    requires a <= |w.io.ob| && b <= |w.io.ob| - a
    ensures Drained(w, a).io.ob == w.io.ob[a..] && w.io.ob[..a] + Drained(w, a).io.ob[..b] == w.io.ob[..a + b]
    ensures Drained(Drained(w, a), b) == Drained(w, a + b) && Drained(w, 0) == w
  {
    assert w.io.ob[a..][b..] == w.io.ob[a + b..] && w.io.ob[0..] == w.io.ob;
    assert w.io.sent + w.io.ob[..a] + w.io.ob[a..][..b] == w.io.sent + w.io.ob[..a + b];
    assert w.io.sent + w.io.ob[..0] == w.io.sent;
  }
}
