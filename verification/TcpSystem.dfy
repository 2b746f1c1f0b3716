/** An established DOSSH connection, its peer, and a network that loses, duplicates and reorders
    segments at will: every segment ever sent stays available for delivery, any number of times or
    never. The DOSSH end moves exactly as the methods of Tcp.Conn do. */
module TcpSystem {
  import opened Bytes
  import opened TcpView

  /** A segment in the network, with the stream offsets its two numbers stood for when it was sent. */
  datatype Sent = Sent(off: nat, ackOff: nat, seg: Segment)

  /** A peer: what its application wrote, what it has taken in order, and the furthest right edge
      (acknowledgement plus window) it has been shown. */
  datatype Peer = Peer(out: seq<byte>, received: seq<byte>, edge: nat)

  datatype Sys = Sys(d: View, p: Peer, toPeer: set<Sent>, toDos: set<Sent>)

  datatype Step =
    | Put(b: byte)                  // net_tx_putc, net_tx_putc_slot
    | Output                        // tcp_output
    | Rewind                        // tcp_timer, go-back-N
    | Deliver(x: Sent)              // tcp_in
    | Pop                           // net_rx_getc
    | PeerTake(x: Sent)
    | PeerWrite(b: byte)
    | PeerSend(off: nat, n: nat, psh: bool, window: nat)

  function OutputSent(v: View): set<Sent>
    requires v.Ok()
  {
    set k | 0 <= k < |v.Cut(v.nxt)| :: Sent(v.nxt + MSS_TX * k, |v.received|, v.Cut(v.nxt)[k])
  }

  function ReplySent(v: View, seg: Segment): set<Sent>
    requires v.Ok()
  {
    set r | r in v.Replies(seg) :: Sent(v.OnSegment(seg).nxt, |v.OnSegment(seg).received|, r)
  }

  /** A receiver in the sense of section 3.10.7.4 of RFC 9293, restricted to in-order data: the part of
      a segment that starts at or before the next expected number is appended. */
  function PeerReceive(base: nat, received: seq<byte>, seg: Segment): seq<byte> {
    var dup := Sub32(SeqNo(base, |received|), seg.seqno);
    if dup < TWO31 && dup <= |seg.data| then received + seg.data[dup..] else received
  }

  function PeerSegment(s: Sys, off: nat, n: nat, psh: bool, window: nat): Sent
    requires off + n <= |s.p.out|
  {
    Sent(off, |s.p.received|,
         Segment(SeqNo(s.d.rbase, off), SeqNo(s.d.base, |s.p.received|), Flags(false, false, false, psh, true), window,
                 s.p.out[off..off + n]))
  }

  function Max(a: nat, b: nat): nat {
    if a < b then b else a
  }

  predicate Init(s: Sys) {
    && s.d.Ok() && s.d.una == 0 && s.d.nxt == 0 && s.d.received == [] && s.d.popped == 0
    && s.p.received == [] && s.p.edge <= RCV_SZ - 1 && s.toPeer == {} && s.toDos == {}
  }

  /** A segment is delivered only while its numbers can be told apart modulo 2^32: neither is 2^31 or more
      behind, and its data is not 2^31 or more ahead (section 3.4 of RFC 9293). */
  predicate Timely(s: Sys, x: Sent) {
    s.d.una < x.ackOff + TWO31 && |s.d.received| < x.off + TWO31 && x.off < |s.d.received| + TWO31
  }

  predicate Next(s: Sys, step: Step, s': Sys)
    requires s.d.Ok()
  {
    match step
    case Put(b) =>
      |s.d.stream| - s.d.una < SND_SZ - 1 && s' == s.(d := s.d.(stream := s.d.stream + [b]))
    case Output =>
      s' == s.(d := s.d.(nxt := |s.d.stream|), toPeer := s.toPeer + OutputSent(s.d))
    case Rewind =>
      s' == s.(d := s.d.(nxt := s.d.una))
    case Deliver(x) =>
      && x in s.toDos && Timely(s, x)
      && s' == s.(d := s.d.OnSegment(x.seg), toPeer := s.toPeer + ReplySent(s.d, x.seg))
    case Pop =>
      s.d.popped < |s.d.received| && s' == s.(d := s.d.(popped := s.d.popped + 1))
    case PeerTake(x) =>
      && x in s.toPeer && |s.p.received| < x.off + TWO31
      && s' == s.(p := s.p.(received := PeerReceive(s.d.base, s.p.received, x.seg),
                            edge := Max(s.p.edge, x.ackOff + x.seg.window)))
    case PeerWrite(b) =>
      s' == s.(p := s.p.(out := s.p.out + [b]))
    case PeerSend(off, n, psh, window) =>
      off + n <= |s.p.out| && s' == s.(toDos := s.toDos + {PeerSegment(s, off, n, psh, window)})
  }

  // ----- what every step keeps -----

  /** A segment from DOSSH carries exactly the bytes of the stream at the offset its number names, and
      never advertises room beyond what the receive ring can take. */
  predicate GoodOut(s: Sys, x: Sent) {
    && x.off + |x.seg.data| <= |s.d.stream| && x.seg.data == s.d.stream[x.off..x.off + |x.seg.data|]
    && x.seg.seqno == SeqNo(s.d.base, x.off)
    && x.ackOff + x.seg.window <= s.d.popped + (RCV_SZ - 1)
    && x.seg.flags.ack && x.ackOff <= |s.d.received| && x.seg.ackno == SeqNo(s.d.rbase, x.ackOff)
  }

  predicate GoodIn(s: Sys, x: Sent) {
    && x.off + |x.seg.data| <= |s.p.out| && x.seg.data == s.p.out[x.off..x.off + |x.seg.data|]
    && x.seg.seqno == SeqNo(s.d.rbase, x.off)
    && x.ackOff <= |s.p.received| && x.seg.ackno == SeqNo(s.d.base, x.ackOff)
  }

  predicate Inv(s: Sys) {
    && s.d.Ok()
    && s.d.una <= |s.p.received| <= |s.d.stream| && s.p.received == s.d.stream[..|s.p.received|]
    && |s.d.received| <= |s.p.out| && s.d.received == s.p.out[..|s.d.received|]
    && s.p.edge <= s.d.popped + (RCV_SZ - 1)
    && (forall x :: x in s.toPeer ==> GoodOut(s, x))
    && (forall x :: x in s.toDos ==> GoodIn(s, x))
  }

  /** Segment k of a burst starts k full segments after its first. */
  lemma {:induction false} CutAt(v: View, off: nat, k: nat) returns (n: nat)
    requires v.Ok() && off <= |v.stream| && k < |v.Cut(off)|
    ensures 0 < n && off + MSS_TX * k + n <= |v.stream|
    ensures v.Cut(off)[k] == v.Seg(PSH_ACK, off + MSS_TX * k, v.stream[off + MSS_TX * k..off + MSS_TX * k + n])
    decreases k
  {
    n := if |v.stream| - off > MSS_TX then MSS_TX else |v.stream| - off;
    if k > 0 {
      assert v.Cut(off)[k] == v.Cut(off + n)[k - 1];
      assert |v.Cut(off + n)| > 0;
      n := CutAt(v, off + MSS_TX, k - 1);
    }
  }

  lemma BurstGood(s: Sys, k: nat)
    requires s.d.Ok() && k < |s.d.Cut(s.d.nxt)|
    ensures GoodOut(s, Sent(s.d.nxt + MSS_TX * k, |s.d.received|, s.d.Cut(s.d.nxt)[k]))
  {
    hide View.Cut;
    var n := CutAt(s.d, s.d.nxt, k);
  }

  lemma OutputGood(s: Sys, s': Sys)
    requires Inv(s) && s' == s.(d := s.d.(nxt := |s.d.stream|), toPeer := s.toPeer + OutputSent(s.d))
    ensures Inv(s')
  {
    hide View.Cut;
    forall x | x in s'.toPeer
      ensures GoodOut(s', x)
    {
      if x !in s.toPeer {
        var k :| 0 <= k < |s.d.Cut(s.d.nxt)| && x == Sent(s.d.nxt + MSS_TX * k, |s.d.received|, s.d.Cut(s.d.nxt)[k]);
        BurstGood(s, k);
      }
      assert GoodOut(s, x);
    }
    assert forall x :: x in s'.toDos ==> GoodIn(s, x);
  }

  /** An acknowledgement less than 2^31 stale moves una only to where the peer really is. */
  lemma AckSafe(v: View, ackOff: nat, limit: nat)
    requires v.Ok() && v.una < ackOff + TWO31 && ackOff <= limit <= |v.stream| && v.una <= limit
    ensures v.OnAck(SeqNo(v.base, ackOff)).una <= limit
  {
    SeqDistance(v.base, ackOff, v.una);
  }

  /** In-order data less than 2^31 stale is the next piece of the peer's stream. */
  lemma DataSafe(v: View, off: nat, data: seq<byte>, out: seq<byte>)
    requires v.Ok() && |v.received| < off + TWO31 && |v.received| <= |out| && v.received == out[..|v.received|]
    requires off + |data| <= |out| && data == out[off..off + |data|] && off < |v.received| + TWO31
    ensures var w := v.OnData(SeqNo(v.rbase, off), data); |w.received| <= |out| && w.received == out[..|w.received|]
  {
    if SeqNo(v.rbase, off) == SeqNo(v.rbase, |v.received|) {
      SeqDistance(v.rbase, off, |v.received|);
      assert off == |v.received|;
    }
  }

  lemma DeliverGood(s: Sys, x: Sent, s': Sys)
    requires Inv(s) && x in s.toDos && Timely(s, x)
    requires s' == s.(d := s.d.OnSegment(x.seg), toPeer := s.toPeer + ReplySent(s.d, x.seg))
    ensures Inv(s')
  {
    assert GoodIn(s, x);
    var mid := if x.seg.flags.ack then s.d.OnAck(x.seg.ackno) else s.d;
    AckSafe(s.d, x.ackOff, |s.p.received|);
    DataSafe(mid, x.off, x.seg.data, s.p.out);
    assert s'.d == mid.OnData(x.seg.seqno, x.seg.data);
    forall y | y in s'.toPeer
      ensures GoodOut(s', y)
    {
      if y in s.toPeer {
        assert GoodOut(s, y);
      }
    }
    assert forall y :: y in s'.toDos ==> GoodIn(s, y);
  }

  /** The peer takes only bytes that continue what it has. */
  lemma PeerTakeGood(s: Sys, x: Sent, s': Sys)
    requires Inv(s) && x in s.toPeer && |s.p.received| < x.off + TWO31
    requires s' == s.(p := s.p.(received := PeerReceive(s.d.base, s.p.received, x.seg),
                                edge := Max(s.p.edge, x.ackOff + x.seg.window)))
    ensures Inv(s')
  {
    assert GoodOut(s, x);
    SeqDistance(s.d.base, |s.p.received|, x.off);
    var n := |s'.p.received|;
    assert s'.p.received == s.d.stream[..n];
    forall y | y in s'.toPeer
      ensures GoodOut(s', y)
    {
      assert GoodOut(s, y);
    }
    forall y | y in s'.toDos
      ensures GoodIn(s', y)
    {
      assert GoodIn(s, y);
    }
  }

  lemma StepKeepsInv(s: Sys, step: Step, s': Sys)
    requires Inv(s) && Next(s, step, s')
    ensures Inv(s')
  {
    match step {
      case Output => OutputGood(s, s');
      case Deliver(x) => DeliverGood(s, x, s');
      case PeerTake(x) => PeerTakeGood(s, x, s');
      case _ =>
        forall y | y in s'.toPeer
          ensures GoodOut(s', y)
        {
          assert GoodOut(s, y);
        }
        forall y | y in s'.toDos
          ensures GoodIn(s', y)
        {
          if y in s.toDos { assert GoodIn(s, y); }
        }
    }
  }

  // ----- whole runs -----

  /** A run: every state follows from the one before by some step. */
  ghost predicate Run(run: seq<Sys>, steps: seq<Step>) {
    && |run| == |steps| + 1 && Init(run[0])
    && forall i :: 0 <= i < |steps| ==> run[i].d.Ok() && Next(run[i], steps[i], run[i + 1])
  }

  lemma InitGood(s: Sys)
    requires Init(s)
    ensures Inv(s)
  {
  }

  lemma {:induction false} RunKeepsInv(run: seq<Sys>, steps: seq<Step>, i: nat)
    requires Run(run, steps) && i < |run|
    ensures Inv(run[i])
    decreases i
  {
    hide Inv, Next, Init, View.Ok;
    if i == 0 {
      InitGood(run[0]);
    } else {
      RunKeepsInv(run, steps, i - 1);
      StepKeepsInv(run[i - 1], steps[i - 1], run[i]);
    }
  }

  /** End-to-end safety: whatever the network did, the peer has an exact prefix of what the application
      wrote, DOSSH has an exact prefix of what the peer wrote, every segment in flight carries the stream
      bytes its number names and acknowledges only what has been received, and no byte the peer still lacks has lost
      its place in the ring. */
  lemma EndToEnd(run: seq<Sys>, steps: seq<Step>, i: nat)
    requires Run(run, steps) && i < |run|
    ensures run[i].p.received <= run[i].d.stream
    ensures run[i].d.received <= run[i].p.out
    ensures forall x :: x in run[i].toPeer ==>
              && x.seg.flags.ack && x.ackOff <= |run[i].d.received| && x.seg.ackno == SeqNo(run[i].d.rbase, x.ackOff)
              && x.seg.seqno == SeqNo(run[i].d.base, x.off)
              && x.off + |x.seg.data| <= |run[i].d.stream| && x.seg.data == run[i].d.stream[x.off..x.off + |x.seg.data|]
    ensures forall k, j :: |run[i].p.received| <= k < j < |run[i].d.stream| ==> k % SND_SZ != j % SND_SZ
  {
    RunKeepsInv(run, steps, i);
    var s := run[i];
    forall x | x in s.toPeer
      ensures GoodOut(s, x)
    {
    }
    forall k, j | |s.p.received| <= k < j < |s.d.stream|
      ensures k % SND_SZ != j % SND_SZ
    {
      Apart(k, j);
    }
  }

  lemma Apart(k: nat, j: nat)
    requires k < j < k + SND_SZ
    ensures k % SND_SZ != j % SND_SZ
  {
  }

  /** The right edge of the receive window never moves left. */
  lemma EdgeNeverShrinks(s: Sys, step: Step, s': Sys)
    requires Inv(s) && Next(s, step, s')
    ensures |s.d.received| + s.d.Window() <= |s'.d.received| + s'.d.Window()
  {
  }

  /** Nor over any stretch of any run. */
  lemma {:induction false} EdgeOverRun(run: seq<Sys>, steps: seq<Step>, i: nat, j: nat)
    requires Run(run, steps) && i <= j < |run|
    ensures run[i].d.Ok() && run[j].d.Ok()
    ensures |run[i].d.received| + run[i].d.Window() <= |run[j].d.received| + run[j].d.Window()
    decreases j - i
  {
    hide Next, GoodIn, GoodOut, View.Window, Init;
    RunKeepsInv(run, steps, i);
    RunKeepsInv(run, steps, j);
    if i == j {
    } else {
      EdgeOverRun(run, steps, i, j - 1);
      RunKeepsInv(run, steps, j - 1);
      EdgeNeverShrinks(run[j - 1], steps[j - 1], run[j]);
    }
  }

  /** A segment that stays within an edge the peer has been shown is never refused a byte: if it is the
      next in order, all of it is kept. */
  lemma HonouredWindowNeverRefused(run: seq<Sys>, steps: seq<Step>, i: nat, x: Sent)
    requires Run(run, steps) && i < |run| && x in run[i].toDos
    requires x.off == |run[i].d.received| && x.off + |x.seg.data| <= run[i].p.edge
    ensures run[i].d.Ok() && run[i].d.OnSegment(x.seg).received == run[i].d.received + x.seg.data
  {
    RunKeepsInv(run, steps, i);
    assert GoodIn(run[i], x);
    assert x.seg.data[..|x.seg.data|] == x.seg.data;
  }

  // ----- acknowledgement -----

  /** A timely segment acknowledges exactly what it is meant to: everything before its offset, unless that is old news
      or, after a rewind, more than has been sent again. */
  lemma AckDelivered(run: seq<Sys>, steps: seq<Step>, i: nat, x: Sent)
    requires Run(run, steps) && i < |steps| && steps[i] == Deliver(x) && x.seg.flags.ack
    ensures run[i + 1].d.una == if run[i].d.una < x.ackOff <= run[i].d.nxt then x.ackOff else run[i].d.una
  {
    hide SeqNo, Sub32;
    RunKeepsInv(run, steps, i);
    var d := run[i].d;
    assert Next(run[i], steps[i], run[i + 1]);
    assert GoodIn(run[i], x);
    if d.una < x.ackOff <= d.nxt {
      AckAdvances(d, x.ackOff);
    } else {
      NoNewNumber(d, x.ackOff);
      AckIgnored(d, x.seg.ackno);
    }
  }

  lemma NoNewNumber(v: View, ackOff: nat)
    requires v.Ok() && v.una < ackOff + TWO31 && ackOff <= |v.stream| && !(v.una < ackOff <= v.nxt)
    ensures forall a :: v.una < a <= v.nxt ==> SeqNo(v.base, a) != SeqNo(v.base, ackOff)
  {
    hide SeqNo, Sub32;
    forall a | v.una < a <= v.nxt
      ensures SeqNo(v.base, a) != SeqNo(v.base, ackOff)
    {
      SeqDistance(v.base, a, ackOff);
      SeqDistance(v.base, a, a);
    }
  }

  /** Once everything has been sent and the peer has it all, one acknowledgement of the peer, delivered in time,
      empties the send ring. */
  lemma AckEmptiesRing(run: seq<Sys>, steps: seq<Step>, i: nat, x: Sent)
    requires Run(run, steps) && i < |steps| && steps[i] == Deliver(x) && x.seg.flags.ack
    requires run[i].d.nxt == |run[i].d.stream| && x.ackOff == |run[i].d.stream|
    ensures run[i + 1].d.una == run[i + 1].d.nxt == |run[i + 1].d.stream|
  {
    hide Inv, SeqNo, Sub32;
    AckDelivered(run, steps, i, x);
    RunOk(run, steps, i);
    RunOk(run, steps, i + 1);
  }

  lemma RunOk(run: seq<Sys>, steps: seq<Step>, i: nat)
    requires Run(run, steps) && i < |run|
    ensures run[i].d.Ok()
  {
    RunKeepsInv(run, steps, i);
  }

  // ----- recovery -----

  function TakeAll(base: nat, received: seq<byte>, segs: seq<Segment>): seq<byte>
    decreases |segs|
  {
    if |segs| == 0 then received else TakeAll(base, PeerReceive(base, received, segs[0]), segs[1..])
  }

  /** A segment that starts at or before the next expected byte brings the peer at least to its end. */
  lemma PeerTakesPrefix(v: View, off: nat, n: nat, received: seq<byte>)
    requires v.Ok() && v.una <= off <= |received| <= |v.stream| && received == v.stream[..|received|]
    requires off + n <= |v.stream|
    ensures var next := PeerReceive(v.base, received, v.Seg(PSH_ACK, off, v.stream[off..off + n]));
            off + n <= |next| <= |v.stream| && next == v.stream[..|next|]
  {
    hide SeqNo, Sub32;
    SeqDistance(v.base, |received|, off);
  }

  lemma {:induction false} BurstBringsUpToDate(v: View, off: nat, received: seq<byte>)
    requires v.Ok() && v.una <= off <= |received| <= |v.stream| && received == v.stream[..|received|]
    ensures TakeAll(v.base, received, v.Cut(off)) == v.stream
    decreases |v.stream| - off
  {
    hide View.Cut, View.Seg, PeerReceive, SeqNo, Sub32;
    if off == |v.stream| {
      CutEnd(v);
    } else {
      var n := if |v.stream| - off > MSS_TX then MSS_TX else |v.stream| - off;
      var seg := v.Seg(PSH_ACK, off, v.stream[off..off + n]);
      CutStep(v, off);
      PeerTakesPrefix(v, off, n, received);
      BurstBringsUpToDate(v, off + n, PeerReceive(v.base, received, seg));
      TakeOne(v.base, received, seg, v.Cut(off + n));
    }
  }

  lemma TakeOne(base: nat, received: seq<byte>, seg: Segment, rest: seq<Segment>)
    ensures TakeAll(base, received, [seg] + rest) == TakeAll(base, PeerReceive(base, received, seg), rest)
  {
    hide PeerReceive;
    assert ([seg] + rest)[1..] == rest;
  }

  /** Go-back-N recovers from any loss: from every reachable state, one rewind and one burst that arrives
      in order leave the peer with the whole stream. */
  lemma GoBackNRecovers(run: seq<Sys>, steps: seq<Step>, i: nat)
    requires Run(run, steps) && i < |run|
    ensures var s := run[i]; s.d.Ok() && TakeAll(s.d.base, s.p.received, s.d.Cut(s.d.una)) == s.d.stream
  {
    RunKeepsInv(run, steps, i);
    BurstBringsUpToDate(run[i].d, run[i].d.una, run[i].p.received);
  }
}
