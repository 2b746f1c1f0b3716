/** The connection slot of dosshd/net.c: ring buffers, sequence numbers, retransmission timer. */
module Tcp {
  import opened Bytes
  import opened TcpView

  datatype TState = Listen | SynRcvd | Estab

  /** Two offsets less than a ring apart never share an index. */
  lemma RingIndex(a: nat, b: nat, size: nat)
    requires a < b < a + size
    ensures a % size != b % size
  {
    var q, r, d := a / size, a % size, b - a;
    if r + d < size {
      DivModUnique(b, size, q, r + d);
    } else {
      MulDistr(size, q, 1);
      DivModUnique(b, size, q + 1, r + d - size);
    }
  }

  /** The masked difference of two ring indices is the distance of the offsets. */
  lemma RingDistance(a: nat, b: nat, size: nat)
    requires a <= b < a + size
    ensures (b % size - a % size) % size == b - a
  {
    ModSub(b, a, size);
    SmallMod(b - a, size);
  }

  lemma RingStep(a: nat, n: nat, size: nat)
    requires size > 0
    ensures (a % size + n) % size == (a + n) % size
  {
    DivModUnique(a % size + n, size, (a + n) / size - a / size, (a + n) % size) by {
      MulDistr(size, (a + n) / size, -(a / size));
      assert size * -(a / size) == -(size * (a / size));
    }
  }

  class Conn {
    var tstate: TState
    var peer_ip: seq<byte>
    var peer_port: nat
    var snd_una: nat
    var snd_nxt: nat
    var rcv_nxt: nat
    const sbuf: array<byte>
    var s_una: nat
    var s_nxt: nat
    var s_end: nat
    const rbuf: array<byte>
    var r_head: nat
    var r_tail: nat
    var rexmit_at: nat
    var rexmit_count: nat
    var just_estab: bool
    var ready: bool
    /** What the fields above stand for. */
    ghost var v: View

    /** The send ring holds every byte from the oldest unacknowledged one to the end of the stream. */
    ghost predicate SendRing()
      reads this`s_una, this`s_nxt, this`s_end, this`v, sbuf
    {
      && v.Ok() && sbuf.Length == SND_SZ
      && s_una == v.una % SND_SZ && s_nxt == v.nxt % SND_SZ && s_end == |v.stream| % SND_SZ
      && forall k :: v.una <= k < |v.stream| ==> sbuf[k % SND_SZ] == v.stream[k]
    }

    ghost predicate RecvRing()
      reads this`r_head, this`r_tail, this`v, rbuf
    {
      && v.Ok() && rbuf.Length == RCV_SZ
      && r_tail == v.popped % RCV_SZ && r_head == |v.received| % RCV_SZ
      && forall k :: v.popped <= k < |v.received| ==> rbuf[k % RCV_SZ] == v.received[k]
    }

    /** In the established phase the 32-bit counters track the offsets; before it nothing has been sent. */
    ghost predicate Numbers()
      reads this`tstate, this`snd_una, this`snd_nxt, this`rcv_nxt, this`v
    {
      && v.Ok()
      && (tstate == Estab ==> snd_una == SeqNo(v.base, v.una) && snd_nxt == SeqNo(v.base, v.nxt))
      && (tstate != Estab ==> v.una == 0 && v.nxt == 0 && snd_una < TWO32 && snd_nxt < TWO32)
      && (tstate != Listen ==> rcv_nxt == SeqNo(v.rbase, |v.received|))
    }

    ghost predicate Valid()
      reads this`s_una, this`s_nxt, this`s_end, this`r_head, this`r_tail, this`v, sbuf, rbuf
      reads this`tstate, this`snd_una, this`snd_nxt, this`rcv_nxt
      ensures Valid() ==> v.Ok()
    {
      sbuf != rbuf && v.Ok() && SendRing() && RecvRing() && Numbers()
    }

    constructor ()
      ensures Valid() && tstate == Listen && !ready && fresh(sbuf) && fresh(rbuf)
    {
      tstate := Listen;
      peer_ip, peer_port := [], 0;
      snd_una, snd_nxt, rcv_nxt := 0, 0, 0;
      sbuf := new byte[SND_SZ](_ => 0);
      rbuf := new byte[RCV_SZ](_ => 0);
      s_una, s_nxt, s_end, r_head, r_tail := 0, 0, 0, 0, 0;
      rexmit_at, rexmit_count, just_estab, ready := 0, 0, false, false;
      v := View(0, [], 0, 0, 0, [], 0);
    }

    /** tcp_reset_listen. */
    method ResetListen()
      requires sbuf.Length == SND_SZ && rbuf.Length == RCV_SZ && sbuf != rbuf
      requires snd_una < TWO32 && snd_nxt < TWO32
      modifies this
      ensures Valid() && tstate == Listen && !ready && rexmit_count == 0
      ensures v == View(0, [], 0, 0, 0, [], 0)
      ensures peer_ip == old(peer_ip) && peer_port == old(peer_port) && just_estab == old(just_estab)
    {
      hide SendRing, RecvRing;
      ClearRings(0);
      tstate := Listen;
      rexmit_count := 0;
      ready := false;
    }

    /** Empty rings at the start of a stream. */
    method ClearRings(ghost rbase: nat)
      requires sbuf.Length == SND_SZ && rbuf.Length == RCV_SZ
      modifies this`s_una, this`s_nxt, this`s_end, this`r_head, this`r_tail, this`v
      ensures SendRing() && RecvRing() && v == View(0, [], 0, 0, rbase, [], 0)
    {
      s_una, s_nxt, s_end, r_head, r_tail := 0, 0, 0, 0, 0;
      v := View(0, [], 0, 0, rbase, [], 0);
    }

    /** net_tx_putc_slot, and the append of net_tx_putc: refused exactly when the ring is full. */
    method PutC(ch: byte) returns (ok: bool)
      requires Valid()
      modifies this`s_end, this`v, sbuf
      ensures Valid()
      ensures ok <==> old(|v.stream| - v.una) < SND_SZ - 1
      ensures v == if ok then old(v).(stream := old(v).stream + [ch]) else old(v)
    {
      var room := HasRoom();
      if !room {
        return false;
      }
      sbuf[s_end] := ch;
      RingStep(|v.stream|, 1, SND_SZ);
      s_end := (s_end + 1) % SND_SZ;
      v := v.(stream := v.stream + [ch]);
      forall k | v.una <= k < |v.stream|
        ensures sbuf[k % SND_SZ] == v.stream[k]
      {
        if k < |v.stream| - 1 {
          RingIndex(k, |v.stream| - 1, SND_SZ);
        }
      }
      return true;
    }

    /** The room test of net_tx_putc and net_tx_putc_slot. */
    method HasRoom() returns (room: bool)
      requires Valid()
      ensures room <==> |v.stream| - v.una < SND_SZ - 1
    {
      RingDistance(v.una, |v.stream|, SND_SZ);
      room := (s_end - s_una) % SND_SZ < SND_SZ - 1;
    }

    /** net_tx_room_slot. */
    method RoomLeft() returns (room: nat)
      requires Valid()
      ensures room == SND_SZ - 1 - (|v.stream| - v.una)
    {
      RingDistance(v.una, |v.stream|, SND_SZ);
      room := SND_SZ - 1 - (s_end - s_una) % SND_SZ;
    }

    /** net_rx_getc: -1 when the ring is empty. */
    method GetC() returns (ch: int)
      requires Valid()
      modifies this`r_tail, this`v
      ensures Valid()
      ensures if old(v.popped == |v.received|) then ch == -1 && v == old(v)
              else ch == old(v.received[v.popped]) as int && v == old(v).(popped := old(v.popped) + 1)
    {
      if v.popped < |v.received| {
        RingDistance(v.popped, |v.received|, RCV_SZ);
      }
      if r_tail == r_head {
        return -1;
      }
      ch := rbuf[r_tail] as int;
      RingStep(v.popped, 1, RCV_SZ);
      r_tail := (r_tail + 1) % RCV_SZ;
      v := v.(popped := v.popped + 1);
    }

    /** tcp_send_seg: the segment on the wire, payload read from ring index doff. */
    method SendSeg(flags: Flags, doff: nat, dlen: nat) returns (seg: Segment)
      requires v.Ok() && SendRing() && RecvRing() && dlen <= MSS_TX
      ensures seg.seqno == snd_nxt && seg.ackno == rcv_nxt && seg.flags == flags && seg.window == v.Window()
      ensures |seg.data| == dlen && forall i :: 0 <= i < dlen ==> seg.data[i] == sbuf[(doff + i) % SND_SZ]
    {
      var payload := [];
      var i := 0;
      while i < dlen
        invariant 0 <= i <= dlen && |payload| == i
        invariant forall j :: 0 <= j < i ==> payload[j] == sbuf[(doff + j) % SND_SZ]
      {
        payload := payload + [sbuf[(doff + i) % SND_SZ]];
        i := i + 1;
      }
      RingDistance(v.popped, |v.received|, RCV_SZ);
      seg := Segment(snd_nxt, rcv_nxt, flags, RCV_SZ - 1 - (r_head - r_tail) % RCV_SZ, payload);
    }

    /** A data segment sent from s_nxt carries the stream bytes at the offset its number names. */
    method SendData(n: nat) returns (seg: Segment)
      requires Valid() && tstate == Estab && n <= MSS_TX && v.nxt + n <= |v.stream|
      ensures seg == v.Seg(PSH_ACK, v.nxt, v.stream[v.nxt..v.nxt + n])
    {
      hide SeqNo;
      seg := SendSeg(PSH_ACK, s_nxt, n);
      forall i | 0 <= i < n
        ensures seg.data[i] == v.stream[v.nxt + i]
      {
        RingStep(v.nxt, i, SND_SZ);
      }
      assert seg.data == v.stream[v.nxt..v.nxt + n];
    }

    /** tcp_output: everything not yet sent, in segments of at most MSS_TX bytes. The timer is armed
        when the first outstanding byte leaves. */
    method Output(now: nat) returns (segs: seq<Segment>)
      requires Valid()
      modifies this`s_nxt, this`snd_nxt, this`rexmit_at, this`v
      ensures Valid()
      ensures segs == if tstate == Estab then old(v).Cut(old(v).nxt) else []
      ensures v == if tstate == Estab then old(v).(nxt := |old(v).stream|) else old(v)
      ensures tstate != Estab ==> snd_nxt == old(snd_nxt)
      ensures rexmit_at == if tstate == Estab && old(v.una == v.nxt < |v.stream|) then (now + REXMIT_TICKS) % TWO32
                           else old(rexmit_at)
    {
      hide SendRing, RecvRing, Numbers, View.Cut;
      segs := [];
      if tstate != Estab {
        return;
      }
      var unsent := Unsent();
      while unsent > 0
        invariant Valid() && unsent == |v.stream| - v.nxt
        invariant v == old(v).(nxt := v.nxt) && old(v).nxt <= v.nxt
        invariant segs + old(v).Cut(v.nxt) == old(v).Cut(old(v).nxt)
        invariant rexmit_at == if old(v.una) == old(v.nxt) < v.nxt then (now + REXMIT_TICKS) % TWO32 else old(rexmit_at)
      {
        var n := if unsent > MSS_TX then MSS_TX else unsent;
        CutStep(old(v), v.nxt);
        ghost var rest := old(v).Cut(v.nxt + n);
        var seg := SendNext(n, now);
        assert segs + ([seg] + rest) == segs + [seg] + rest;
        segs := segs + [seg];
        unsent := unsent - n;
      }
      CutEnd(old(v));
    }

    method Unsent() returns (n: nat)
      requires Valid()
      ensures n == |v.stream| - v.nxt
    {
      RingDistance(v.nxt, |v.stream|, SND_SZ);
      n := (s_end - s_nxt) % SND_SZ;
    }

    /** One turn of the loop of tcp_output. */
    method SendNext(n: nat, now: nat) returns (seg: Segment)
      requires Valid() && tstate == Estab && 0 < n <= MSS_TX && v.nxt + n <= |v.stream|
      modifies this`s_nxt, this`snd_nxt, this`rexmit_at, this`v
      ensures Valid() && v == old(v).(nxt := old(v).nxt + n)
      ensures seg == old(v).Seg(PSH_ACK, old(v).nxt, v.stream[old(v).nxt..old(v).nxt + n])
      ensures rexmit_at == if old(v.una == v.nxt) then (now + REXMIT_TICKS) % TWO32 else old(rexmit_at)
    {
      hide SendRing, RecvRing, SeqNo;
      seg := SendData(n);
      SameNumber(v.base, v.una, v.nxt);
      if snd_una == snd_nxt {
        rexmit_at := (now + REXMIT_TICKS) % TWO32;
      }
      Advance(n);
    }

    method Advance(n: nat)
      requires Valid() && tstate == Estab && v.nxt + n <= |v.stream|
      modifies this`s_nxt, this`snd_nxt, this`v
      ensures Valid() && v == old(v).(nxt := old(v).nxt + n)
    {
      RingStep(v.nxt, n, SND_SZ);
      RingStep(v.base + v.nxt, n, TWO32);
      s_nxt := (s_nxt + n) % SND_SZ;
      snd_nxt := (snd_nxt + n) % TWO32;
      v := v.(nxt := v.nxt + n);
    }

    /** The in-order data loop of tcp_in: keep what fits, leave the rest unacknowledged. */
    method Store(data: seq<byte>)
      requires Valid() && tstate == Estab
      modifies this`r_head, this`rcv_nxt, this`v, rbuf
      ensures Valid() && tstate == old(tstate)
      ensures v == old(v).(received := old(v).received
          + data[..if |data| <= old(v).Window() then |data| else old(v).Window()])
    {
      hide SendRing;
      var stored := 0;
      ghost var was := v;
      while stored < |data|
        modifies this`r_head, this`v, rbuf
        invariant 0 <= stored <= |data| && stored <= was.Window()
        invariant v == was.(received := was.received + data[..stored])
        invariant RecvRing() && SendRing()
      {
        RingStep(|v.received|, 1, RCV_SZ);
        var nh := (r_head + 1) % RCV_SZ;
        RingFull(v.popped, |v.received|);
        if nh == r_tail {
          break;
        }
        Keep(data[stored]);
        assert data[..stored + 1] == data[..stored] + [data[stored]];
        stored := stored + 1;
      }
      RingStep(v.rbase + |was.received|, stored, TWO32);
      rcv_nxt := (rcv_nxt + stored) % TWO32;
    }

    method Keep(b: byte)
      requires v.Ok() && RecvRing() && SendRing() && sbuf != rbuf && |v.received| - v.popped < RCV_SZ - 1
      modifies this`r_head, this`v, rbuf
      ensures RecvRing() && SendRing() && v == old(v).(received := old(v).received + [b])
    {
      rbuf[r_head] := b;
      RingStep(|v.received|, 1, RCV_SZ);
      r_head := (r_head + 1) % RCV_SZ;
      v := v.(received := v.received + [b]);
      forall k | v.popped <= k < |v.received|
        ensures rbuf[k % RCV_SZ] == v.received[k]
      {
        if k < |v.received| - 1 {
          RingIndex(k, |v.received| - 1, RCV_SZ);
        }
      }
    }

    /** The acknowledgement branch of tcp_in. */
    method TakeAck(ackno: nat, now: nat)
      requires Valid() && tstate == Estab && ackno < TWO32
      modifies this`s_una, this`snd_una, this`rexmit_at, this`rexmit_count, this`v
      ensures Valid() && v == old(v).OnAck(ackno)
      ensures v.una > old(v).una ==> rexmit_count == 0 && rexmit_at == (now + REXMIT_TICKS) % TWO32
      ensures v.una == old(v).una ==> rexmit_count == old(rexmit_count) && rexmit_at == old(rexmit_at)
    {
      hide SeqNo, Sub32, After, SendRing, RecvRing;
      AckTest(v.base, v.una, v.nxt, ackno);
      if After(ackno, snd_una) && !After(ackno, snd_nxt) {
        Free(Sub32(ackno, snd_una) % 0x1_0000, ackno);
        rexmit_at := (now + REXMIT_TICKS) % TWO32;
        rexmit_count := 0;
      }
    }

    method Free(freed: nat, ackno: nat)
      requires Valid() && tstate == Estab && v.una + freed <= v.nxt && ackno < TWO32
      requires freed == Sub32(ackno, SeqNo(v.base, v.una))
      modifies this`s_una, this`snd_una, this`v
      ensures Valid() && v == old(v).(una := old(v).una + freed)
    {
      hide SeqNo, Sub32;
      RingStep(v.una, freed, SND_SZ);
      NumberAt(v.base, v.una, ackno);
      s_una := (s_una + freed) % SND_SZ;
      snd_una := ackno;
      v := v.(una := v.una + freed);
    }

    /** The part of tcp_in after the slot has been found, for a segment that is neither RST nor SYN. */
    method Receive(seg: Segment, now: nat) returns (outs: seq<Segment>)
      requires Valid() && tstate != Listen && seg.ackno < TWO32
      modifies this, rbuf
      ensures Valid()
      ensures peer_ip == old(peer_ip) && peer_port == old(peer_port)
      ensures just_estab == (old(just_estab) || (old(tstate) == SynRcvd && old(Opens(seg))))
      // a half-open slot waits for the acknowledgement of its SYN
      ensures old(tstate) == SynRcvd && !(seg.flags.ack && seg.ackno == old(snd_nxt)) ==>
                && outs == [] && tstate == SynRcvd && v == old(v) && ready == old(ready) && snd_una == old(snd_una)
                && snd_nxt == old(snd_nxt) && rexmit_count == old(rexmit_count) && rexmit_at == old(rexmit_at)
      // otherwise the segment is an ordinary one of an established connection ...
      ensures old(Opens(seg)) && !seg.flags.fin ==>
                && tstate == Estab && v == old(Opened()).OnSegment(seg) && outs == old(Opened()).Replies(seg)
                && ready == old(ready)
      ensures old(tstate) == SynRcvd && old(Opens(seg)) && !seg.flags.fin ==>
                snd_nxt == old(snd_nxt) && rexmit_count == 0 && rexmit_at == old(rexmit_at)
      ensures old(tstate) == Estab && !seg.flags.fin ==>
                && snd_nxt == old(snd_nxt)
                && if v.una > old(v.una) then rexmit_count == 0 && rexmit_at == (now + REXMIT_TICKS) % TWO32
                   else rexmit_count == old(rexmit_count) && rexmit_at == old(rexmit_at)
      // ... and a FIN is acknowledged and frees the slot
      ensures old(Opens(seg)) && seg.flags.fin ==>
                && tstate == Listen && !ready && v == View(0, [], 0, 0, 0, [], 0)
                && outs == old(Opened()).Replies(seg) + [FinAck(old(Opened()).OnSegment(seg))]
    {
      hide SendRing, RecvRing, SeqNo, View.OnSegment, View.OnAck, View.OnData;
      outs := [];
      if tstate == SynRcvd {
        if seg.flags.ack && seg.ackno == snd_nxt {
          Establish();
        } else {
          return;
        }
      }
      outs := Ordinary(seg, now);
      if seg.flags.fin {
        var ack := Close();
        outs := outs + [ack];
      }
    }

    /** The FIN branch of tcp_in. */
    method Close() returns (ack: Segment)
      requires Valid() && tstate == Estab
      modifies this
      ensures Valid() && tstate == Listen && !ready && v == View(0, [], 0, 0, 0, [], 0) && ack == FinAck(old(v))
      ensures peer_ip == old(peer_ip) && peer_port == old(peer_port) && just_estab == old(just_estab)
    {
      hide SeqNo;
      rcv_nxt := (rcv_nxt + 1) % TWO32;
      ack := SendSeg(ACK_FLAG, 0, 0);
      ResetListen();
    }

    /** The view a slot has once it is established: what was queued before the handshake ended is the
        start of the stream. */
    ghost function Opened(): View
      requires v.Ok()
      reads this`tstate, this`v, this`snd_nxt
    {
      if tstate == SynRcvd then v.(base := snd_nxt) else v
    }

    ghost predicate Opens(seg: Segment)
      reads this`tstate, this`snd_nxt
    {
      tstate == Estab || (tstate == SynRcvd && seg.flags.ack && seg.ackno == snd_nxt)
    }

    /** The handshake completes. */
    method Establish()
      requires Valid() && tstate == SynRcvd
      modifies this`tstate, this`snd_una, this`just_estab, this`rexmit_count, this`v
      ensures Valid() && tstate == Estab && v == old(Opened()) && just_estab && rexmit_count == 0
      ensures v.una == v.nxt
    {
      snd_una := snd_nxt;
      tstate := Estab;
      just_estab := true;
      rexmit_count := 0;
      v := v.(base := snd_nxt);
    }

    /** Acknowledgement and data of one segment. */
    method Ordinary(seg: Segment, now: nat) returns (outs: seq<Segment>)
      requires Valid() && tstate == Estab && seg.ackno < TWO32
      modifies this`s_una, this`snd_una, this`rexmit_at, this`rexmit_count, this`r_head, this`rcv_nxt, this`v, rbuf
      ensures Valid() && v == old(v).OnSegment(seg) && outs == old(v).Replies(seg)
      ensures if v.una > old(v.una) then rexmit_count == 0 && rexmit_at == (now + REXMIT_TICKS) % TWO32
              else rexmit_count == old(rexmit_count) && rexmit_at == old(rexmit_at)
    {
      hide SendRing, RecvRing, SeqNo, View.OnAck;
      outs := [];
      if seg.flags.ack {
        TakeAck(seg.ackno, now);
      }
      if |seg.data| > 0 {
        if seg.seqno == rcv_nxt {
          Store(seg.data);
        }
        var ack := SendSeg(ACK_FLAG, 0, 0);
        outs := [ack];
      } else {
        assert v.received + seg.data[..0] == v.received;
      }
    }

    /** The retransmission timer has run out: something is outstanding and the deadline has passed. */
    ghost predicate Due(now: nat)
      requires v.Ok()
      reads this`v, this`rexmit_at
    {
      v.una < v.nxt && Sub32(now, rexmit_at) < TWO31
    }

    /** The same for a half-open slot, whose SYN|ACK is outstanding. */
    ghost predicate SynDue(now: nat)
      reads this`snd_nxt, this`snd_una, this`rexmit_at
    {
      After(snd_nxt, snd_una) && Sub32(now, rexmit_at) < TWO31
    }

    /** tcp_timer: go back to the oldest unacknowledged byte, or give the slot up. */
    method Timer(now: nat) returns (outs: seq<Segment>)
      requires Valid()
      modifies this
      ensures Valid()
      ensures peer_ip == old(peer_ip) && peer_port == old(peer_port) && just_estab == old(just_estab)
      ensures old(tstate) == Estab && old(Due(now)) && old(rexmit_count) < MAX_REXMIT ==>
                && tstate == Estab && v == old(v).(nxt := old(v).una) && rexmit_count == old(rexmit_count) + 1
                && snd_nxt == snd_una == old(snd_una)
                && rexmit_at == (now + REXMIT_TICKS) % TWO32 && ready == old(ready) && outs == []
      ensures old(tstate) == Estab && old(Due(now)) && old(rexmit_count) >= MAX_REXMIT ==>
                tstate == Listen && !ready && v == View(0, [], 0, 0, 0, [], 0) && outs == []
      ensures old(tstate) == Listen || (old(tstate) == Estab && !old(Due(now))) ==>
                && tstate == old(tstate) && v == old(v) && rexmit_count == old(rexmit_count)
                && rexmit_at == old(rexmit_at) && snd_nxt == old(snd_nxt) && snd_una == old(snd_una)
                && ready == old(ready) && outs == []
      // a half-open slot sends its SYN|ACK again, from the number it began with
      ensures old(tstate) == SynRcvd && old(SynDue(now)) && old(rexmit_count) < MAX_REXMIT ==>
                && tstate == SynRcvd && v == old(v) && snd_nxt == snd_una == old(snd_una) && rcv_nxt == old(rcv_nxt)
                && rexmit_count == old(rexmit_count) + 1 && rexmit_at == (now + REXMIT_TICKS) % TWO32
                && ready == old(ready)
                && outs == [Segment(old(snd_una), old(rcv_nxt), SYN_ACK, old(v).Window(), [])]
      ensures old(tstate) == SynRcvd && old(SynDue(now)) && old(rexmit_count) >= MAX_REXMIT ==>
                tstate == Listen && !ready && v == View(0, [], 0, 0, 0, [], 0) && outs == []
      ensures old(tstate) == SynRcvd && !old(SynDue(now)) ==>
                && tstate == SynRcvd && v == old(v) && snd_nxt == old(snd_nxt) && snd_una == old(snd_una)
                && rexmit_count == old(rexmit_count) && rexmit_at == old(rexmit_at) && ready == old(ready)
                && outs == []
    {
      hide SendRing, RecvRing, SeqNo, Sub32;
      outs := [];
      if tstate == Listen {
        return;
      }
      if tstate == Estab {
        Outstanding(v.base, v.una, v.nxt);
      }
      if After(snd_nxt, snd_una) && Sub32(now, rexmit_at) < TWO31 {
        if rexmit_count + 1 > MAX_REXMIT {
          assert sbuf.Length == SND_SZ && rbuf.Length == RCV_SZ by { Lengths(); }
          ResetListen();
          return;
        }
        rexmit_count := rexmit_count + 1;
        Rewind();
        if tstate == SynRcvd {
          var synAck := SendSeg(SYN_ACK, 0, 0);
          outs := [synAck];
        }
        rexmit_at := (now + REXMIT_TICKS) % TWO32;
      }
    }

    lemma UnaNumber()
      requires Valid() && tstate == Estab
      ensures snd_una == SeqNo(v.base, v.una)
    {
    }

    /** What the counters are in each phase. */
    lemma Numbered()
      requires Valid()
      ensures tstate != Listen ==> v.Ok() && rcv_nxt == SeqNo(v.rbase, |v.received|)
      ensures tstate != Estab ==> v.Ok() && v.una == v.nxt == 0 && snd_una < TWO32 && snd_nxt < TWO32
      ensures tstate == Estab ==>
                v.Ok() && snd_una == SeqNo(v.base, v.una) && snd_nxt == SeqNo(v.base, v.nxt)
    {
    }

    lemma Lengths()
      requires Valid()
      ensures sbuf.Length == SND_SZ && rbuf.Length == RCV_SZ
    {
    }

    /** Go-back-N. */
    method Rewind()
      requires Valid() && tstate != Listen
      modifies this`s_nxt, this`snd_nxt, this`v
      ensures Valid() && v == old(v).(nxt := old(v).una) && snd_nxt == snd_una
    {
      s_nxt := s_una;
      snd_nxt := snd_una;
      v := v.(nxt := v.una);
    }

    /** The SYN branch of tcp_in on the slot alloc_conn picked, live or not. The admission flag keeps
        its value. */
    method Open(ip: seq<byte>, port: nat, seqno: nat, iss: nat, now: nat) returns (synAck: Segment)
      requires Valid() && seqno < TWO32
      modifies this
      ensures Valid() && tstate == SynRcvd && peer_ip == ip && peer_port == port
      ensures v == View(0, [], 0, 0, (seqno + 1) % TWO32, [], 0)
      ensures synAck == Segment(iss % TWO32, (seqno + 1) % TWO32, SYN_ACK, RCV_SZ - 1, [])
      ensures snd_una == iss % TWO32 && snd_nxt == (iss + 1) % TWO32 && rexmit_count == 0
      ensures rexmit_at == (now + REXMIT_TICKS) % TWO32
      ensures ready == old(ready) && just_estab == old(just_estab)
    {
      hide SendRing, RecvRing, SeqNo;
      Prepare(ip, port, seqno, iss);
      synAck := SendSeg(SYN_ACK, 0, 0);
      RingStep(iss, 1, TWO32);
      snd_nxt := (snd_nxt + 1) % TWO32;
      rexmit_at := (now + REXMIT_TICKS) % TWO32;
    }

    method Prepare(ip: seq<byte>, port: nat, seqno: nat, iss: nat)
      requires Valid() && seqno < TWO32
      modifies this
      ensures Valid() && tstate == SynRcvd && peer_ip == ip && peer_port == port
      ensures v == View(0, [], 0, 0, (seqno + 1) % TWO32, [], 0)
      ensures snd_una == snd_nxt == iss % TWO32 && rcv_nxt == (seqno + 1) % TWO32 && rexmit_count == 0
      ensures ready == old(ready) && just_estab == old(just_estab)
    {
      hide SendRing, RecvRing, Numbers, SeqNo;
      assert sbuf.Length == SND_SZ && rbuf.Length == RCV_SZ by { RingSizes(); }
      ClearRings((seqno + 1) % TWO32);
      Number(ip, port, iss % TWO32, (seqno + 1) % TWO32);
      NumbersStart();
    }

    method Number(ip: seq<byte>, port: nat, iss: nat, next: nat)
      modifies this`peer_ip, this`peer_port, this`snd_una, this`snd_nxt, this`rcv_nxt, this`tstate, this`rexmit_count
      ensures tstate == SynRcvd && peer_ip == ip && peer_port == port && snd_una == snd_nxt == iss && rcv_nxt == next
      ensures rexmit_count == 0
    {
      peer_ip, peer_port := ip, port;
      snd_una, snd_nxt := iss, iss;
      rcv_nxt := next;
      tstate := SynRcvd;
      rexmit_count := 0;
    }

    lemma NumbersStart()
      requires v.Ok() && tstate == SynRcvd && snd_una < TWO32 && snd_nxt < TWO32 && rcv_nxt < TWO32
      requires v.una == 0 && v.nxt == 0 && v.received == [] && v.rbase == rcv_nxt
      ensures Numbers()
    {
    }

    lemma RingSizes()
      requires Valid()
      ensures sbuf.Length == SND_SZ && rbuf.Length == RCV_SZ
    {
    }
  }

  /** `(long)(snd_nxt - snd_una) > 0` holds exactly when something is outstanding. */
  lemma Outstanding(base: nat, una: nat, nxt: nat)
    requires una <= nxt <= una + (SND_SZ - 1)
    ensures After(SeqNo(base, nxt), SeqNo(base, una)) <==> una < nxt
  {
    SeqDistance(base, nxt, una);
  }

  /** The acknowledgement of a FIN counts the FIN itself. */
  function FinAck(v: View): Segment
    requires v.Ok()
  {
    v.AckSeg().(ackno := (SeqNo(v.rbase, |v.received|) + 1) % TWO32)
  }

  lemma RingFull(tail: nat, head: nat)
    requires tail <= head < tail + RCV_SZ
    ensures (head + 1) % RCV_SZ == tail % RCV_SZ <==> head - tail == RCV_SZ - 1
  {
    if head - tail == RCV_SZ - 1 {
      RingStep(tail, RCV_SZ, RCV_SZ);
      assert head + 1 == tail + RCV_SZ;
      DivModUnique(head + 1, RCV_SZ, tail / RCV_SZ + 1, tail % RCV_SZ);
    } else {
      RingIndex(tail, head + 1, RCV_SZ);
    }
  }

  lemma SameNumber(base: nat, m: nat, n: nat)
    requires m <= n < m + TWO32
    ensures SeqNo(base, m) == SeqNo(base, n) <==> m == n
  {
    if m < n {
      RingIndex(base + m, base + n, TWO32);
    }
  }
}
