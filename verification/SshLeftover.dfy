/** A run that leaves replies in the output queue the SSH slots share (dosshd/dosshd.c, dosshd/ssh.c): a client that
    asks and asks but acknowledges nothing. */
module SshLeftover {
  import opened Bytes
  import opened TcpView
  import opened Tcp
  import opened Slots
  import opened SshServer
  import opened SshRuns
  import opened SshSafety
  import opened SshClient
  import opened SshOverrun
  import opened SshPump

  /** A global request without a name that wants a reply. */
  const ASK: seq<byte> := [MSG_GLOBAL_REQUEST, 0, 0, 0, 0, 1]

  /** Before the key exchange each request is refused in the clear, in a packet of 16 bytes. */
  lemma AskStep(h: Host, w: World)
    requires w.Shaped() && w.phase == ExpectKexinit && !w.k.sendEnc && w.io.ob == []
    ensures var r := Apply(h, w, Arrive(ASK));
            r.phase == ExpectKexinit && !r.k.sendEnc && |r.io.ob| == 16 && r.io.sent == w.io.sent
  {
    hide SendUnenc;
    assert ASK[1..5] == [0, 0, 0, 0];
    assert HandleGlobalRequest(h, w, ASK) == Send(h, w, [MSG_REQUEST_FAILURE]);
    RefusalLength(h, w);
  }

  lemma RefusalLength(h: Host, w: World)
    requires w.io.ob == []
    ensures |SendUnenc(h, w, [MSG_REQUEST_FAILURE]).io.ob| == 16
    ensures SendUnenc(h, w, [MSG_REQUEST_FAILURE]).phase == w.phase
  {
    hide BeBytes;
  }

  lemma AskAllowed(n: nat)
    ensures Allowed(Arrive(ASK)) && Allowed(Drain(n)) && Allowed(Hello([]))
  {
  }

  lemma HelloKeeps(h: Host, w: World)
    requires w.Shaped() && w.phase == Version
    ensures var r := Apply(h, w, Hello([])); r.phase == ExpectKexinit && r.k == w.k && r.io == w.io
  {
  }

  /** What leaves the queue is sent. */
  lemma DrainStep(h: Host, w: World, n: nat)
    requires w.Shaped() && n <= |w.io.ob|
    ensures var r := Apply(h, w, Drain(n));
            && r.phase == w.phase && r.k == w.k && |r.io.sent| == |w.io.sent| + n && |r.io.ob| == |w.io.ob| - n
  {
  }

  lemma Opening(h: Host) returns (ws: seq<World>, es: seq<Event>, w: World)
    ensures IsRun(h, ws, es) && |ws| == |es| + 1 && ws[|es|] == w && Inv(w) && w.Shaped()
    ensures w.phase == ExpectKexinit && !w.k.sendEnc && w.io.ob == [] && |w.io.sent| <= 400
  {
    hide Inv, Apply, IsRun, Allowed, Reset;
    ResetInv(h, 0);
    ResetSize(h, 0);
    w := Reset(h, 0);
    ws, es := [w], [];
    FirstState(h);
    ghost var e := Hello([]);
    AskAllowed(|w.io.ob|);
    HelloKeeps(h, w);
    ws, w := Extend(h, ws, es, e);
    es := es + [e];
    e := Drain(|w.io.ob|);
    DrainStep(h, w, |w.io.ob|);
    ws, w := Extend(h, ws, es, e);
    es := es + [e];
  }

  lemma FirstState(h: Host)
    ensures IsRun(h, [Reset(h, 0)], []) && !Reset(h, 0).k.sendEnc
  {
    hide Apply, Allowed, OurKexinit;
  }

  /** Whatever the host, a client can bring its session to a point where it has been sent all that a ring holds and part
      of a reply is still queued. */
  lemma LeftoverRun(h: Host) returns (ws: seq<World>, es: seq<Event>, w: World)
    ensures IsRun(h, ws, es) && |ws| == |es| + 1 && ws[|es|] == w && Inv(w) && Readable(h, w)
    ensures |w.io.sent| == SND_SZ - 1 && w.io.ob != []
  {
    hide Inv, Apply, IsRun, Allowed, Readable;
    ws, es, w := Opening(h);
    ghost var e := Arrive(ASK);
    while |w.io.sent| + 16 <= SND_SZ - 1
      invariant IsRun(h, ws, es) && |ws| == |es| + 1 && ws[|es|] == w && Inv(w) && w.Shaped()
      invariant w.phase == ExpectKexinit && !w.k.sendEnc && w.io.ob == [] && |w.io.sent| <= SND_SZ - 1
    {
      AskAllowed(16);
      e := Arrive(ASK);
      AskStep(h, w);
      ws, w := Extend(h, ws, es, e);
      es := es + [e];
      e := Drain(16);
      DrainStep(h, w, 16);
      ws, w := Extend(h, ws, es, e);
      es := es + [e];
    }
    var room := SND_SZ - 1 - |w.io.sent|;
    AskAllowed(room);
    e := Arrive(ASK);
    AskStep(h, w);
    ws, w := Extend(h, ws, es, e);
    es := es + [e];
    e := Drain(room);
    DrainStep(h, w, room);
    ws, w := Extend(h, ws, es, e);
    es := es + [e];
    Unread(h, w);
  }

  /** So the pump need not empty the queue: the peer has acknowledged nothing, the ring is full, and the rest of the
      reply stays for whichever slot is served next. */
  lemma QueueStays(h: Host) returns (ws: seq<World>, es: seq<Event>, a: Stand)
    ensures IsRun(h, ws, es) && |ws| == |es| + 1 && ws[|es|] == a.w
    ensures a.Live() && a.c.v.Ok() && a.c.v.una == 0 && Connected(h, a) && a.Room() == 0
    ensures a.w.io.ob != [] && forall b :: Pumped(a, b, Min(|a.w.io.ob|, a.Room())) ==> b.w.io.ob == a.w.io.ob
  {
    hide Inv, IsRun, Readable;
    var w;
    ws, es, w := LeftoverRun(h);
    a := Stand(true,
               Moment(Estab, false, false, [], 0, 0, SND_SZ - 1, 0, 0, View(0, w.io.sent, 0, SND_SZ - 1, 0, [], 0)), w);
    assert w.io.ob[0..] == w.io.ob;
  }
}
