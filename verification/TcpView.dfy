/** One TCP connection of dosshd/net.c in its established phase, as a value: what the ring indices
    and 32-bit sequence numbers of the code stand for. The class in Tcp.dfy is proved against these
    functions, and the whole-network theorems are about them. */
module TcpView {
  import opened Bytes

  const SND_SZ := 4096
  const RCV_SZ := 512
  const MSS_TX := 1400
  const REXMIT_TICKS := 9
  const MAX_REXMIT := 24
  const TWO32 := 0x1_0000_0000
  const TWO31 := 0x8000_0000

  /** The flag bits the code looks at or sets. */
  datatype Flags = Flags(fin: bool, syn: bool, rst: bool, psh: bool, ack: bool)

  /** A TCP segment: sequence and acknowledgement numbers modulo 2^32, window and payload. */
  datatype Segment = Segment(seqno: nat, ackno: nat, flags: Flags, window: nat, data: seq<byte>)

  /** Subtraction of 32-bit sequence numbers. */
  function Sub32(a: int, b: int): nat {
    (a - b) % TWO32
  }

  /** `(long)(a - b) > 0` on 32-bit words. */
  predicate After(a: int, b: int) {
    0 < Sub32(a, b) < TWO31
  }

  /** The sequence number of stream offset n. */
  function SeqNo(base: nat, n: nat): (s: nat)
    ensures s < TWO32
  {
    (base + n) % TWO32
  }

  lemma ModSub(a: nat, b: nat, d: nat)
    requires d > 0
    ensures (a % d - b % d) % d == (a - b) % d
  {
    DivModUnique(a % d - b % d, d, (a - b) / d - a / d + b / d, (a - b) % d) by {
      var x, y, z := a / d, b / d, (a - b) / d;
      assert a == d * x + a % d && b == d * y + b % d && a - b == d * z + (a - b) % d;
      MulDistr(d, z - x, y);
      MulDistr(d, z, -x);
      assert d * -x == -(d * x);
    }
  }

  lemma SmallMod(x: int, d: nat)
    requires d > 0 && -(d as int) <= x < d
    ensures x % d == if x >= 0 then x else x + d
  {
    DivModUnique(x, d, if x >= 0 then 0 else -1, if x >= 0 then x else x + d);
  }

  /** Sequence numbers measure the distance between offsets less than 2^32 apart. */
  lemma SeqDistance(base: nat, m: nat, n: nat)
    requires -TWO32 <= m - n < TWO32
    ensures Sub32(SeqNo(base, m), SeqNo(base, n)) == if m >= n then m - n else m - n + TWO32
  {
    ModSub(base + m, base + n, TWO32);
    SmallMod(m - n, TWO32);
  }

  /** The wrap-around test of tcp_in accepts an acknowledgement exactly when it lies in (una, nxt]. */
  lemma AckTest(base: nat, una: nat, nxt: nat, ack: nat)
    requires una <= nxt <= una + 4095 && ack < TWO32
    ensures (After(ack, SeqNo(base, una)) && !After(ack, SeqNo(base, nxt)))
            <==> 0 < Sub32(ack, SeqNo(base, una)) <= nxt - una
  {
    var x, y, w := SeqNo(base, una), SeqNo(base, nxt), nxt - una;
    var d := Sub32(ack, x);
    var i, j, k := (ack - x) / TWO32, (base + nxt) / TWO32, (base + una) / TWO32;
    assert ack - y == TWO32 * (i - k + j) + (d - w);
    if d >= w {
      DivModUnique(ack - y, TWO32, i - k + j, d - w);
    } else {
      DivModUnique(ack - y, TWO32, i - k + j - 1, d - w + TWO32);
    }
  }

  // ----- the connection as a value -----

  /** base and rbase are the sequence numbers of offset 0 in each direction. `stream` is everything the
      application wrote, of which `una` bytes are acknowledged and `nxt` have been sent; `received` is
      everything taken from the peer, of which `popped` bytes have been read. */
  datatype View = View(base: nat, stream: seq<byte>, una: nat, nxt: nat, rbase: nat, received: seq<byte>, popped: nat) {
    predicate Ok() {
      && una <= nxt <= |stream| <= una + (SND_SZ - 1)
      && popped <= |received| <= popped + (RCV_SZ - 1)
    }

    function Window(): nat
      requires Ok()
    {
      RCV_SZ - 1 - (|received| - popped)
    }

    /** A segment as tcp_send_seg fills it in: sequence number snd_nxt, here that of offset off. */
    function Seg(flags: Flags, off: nat, data: seq<byte>): Segment
      requires Ok()
    {
      Segment(SeqNo(base, off), SeqNo(rbase, |received|), flags, Window(), data)
    }

    function AckSeg(): Segment
      requires Ok()
    {
      Seg(ACK_FLAG, nxt, [])
    }

    /** The data segments tcp_output sends from offset off to the end of the stream. */
    function Cut(off: nat): seq<Segment>
      requires Ok() && off <= |stream|
      decreases |stream| - off
    {
      if off == |stream| then []
      else
        var n := if |stream| - off > MSS_TX then MSS_TX else |stream| - off;
        [Seg(PSH_ACK, off, stream[off..off + n])] + Cut(off + n)
    }

    function OnAck(ackno: nat): (v: View)
      requires Ok()
      ensures v.Ok() && una <= v.una && v.stream == stream && v.nxt == nxt && v.base == base
    {
      var d := Sub32(ackno, SeqNo(base, una));
      if 0 < d <= nxt - una then this.(una := una + d) else this
    }

    /** In-order data is kept as far as the ring has room; anything else is ignored. */
    function OnData(seqno: nat, data: seq<byte>): (v: View)
      requires Ok()
      ensures v.Ok() && v.stream == stream && v.nxt == nxt && v.una == una && v.base == base
    {
      if seqno == SeqNo(rbase, |received|) then
        var n := if |data| <= Window() then |data| else Window();
        this.(received := received + data[..n])
      else this
    }

    /** What tcp_in does with an ordinary segment of an established connection. */
    function OnSegment(seg: Segment): (v: View)
      requires Ok()
      ensures v.Ok() && una <= v.una && v.stream == stream && v.nxt == nxt && v.base == base
    {
      (if seg.flags.ack then OnAck(seg.ackno) else this).OnData(seg.seqno, seg.data)
    }

    /** Every segment with data is answered by one acknowledgement. */
    function Replies(seg: Segment): seq<Segment>
      requires Ok()
    {
      if |seg.data| == 0 then [] else [OnSegment(seg).AckSeg()]
    }
  }

  /** An acknowledgement that carries the number of an offset sent and not yet acknowledged acknowledges exactly the
      bytes before it. */
  lemma AckAdvances(v: View, a: nat)
    requires v.Ok() && v.una < a <= v.nxt
    ensures v.OnAck(SeqNo(v.base, a)) == v.(una := a)
  {
    SeqDistance(v.base, a, v.una);
  }

  /** One that carries no such number changes nothing. */
  lemma AckIgnored(v: View, ackno: nat)
    requires v.Ok() && ackno < TWO32 && forall a :: v.una < a <= v.nxt ==> SeqNo(v.base, a) != ackno
    ensures v.OnAck(ackno) == v
  {
    var d := Sub32(ackno, SeqNo(v.base, v.una));
    if 0 < d <= v.nxt - v.una {
      NumberAt(v.base, v.una, ackno);
      assert false;
    }
  }

  /** The offset a number stands for, from where it is measured. */
  lemma NumberAt(base: nat, una: nat, ackno: nat)
    requires ackno < TWO32
    ensures ackno == SeqNo(base, una + Sub32(ackno, SeqNo(base, una)))
  {
    var d := Sub32(ackno, SeqNo(base, una));
    DivModUnique(base + una + d, TWO32, (base + una) / TWO32 - (ackno - SeqNo(base, una)) / TWO32, ackno);
  }

  /** Data at the next offset expected is kept as far as the window goes, data at any other offset is not. */
  lemma DataTaken(v: View, off: nat, data: seq<byte>)
    requires v.Ok() && |v.received| < off + TWO31 && off < |v.received| + TWO31
    ensures var r := v.OnData(SeqNo(v.rbase, off), data);
            && (off != |v.received| ==> r == v)
            && (off == |v.received| && |data| <= v.Window() ==> r == v.(received := v.received + data))
            && (off == |v.received| && |data| > v.Window() ==>
                  r == v.(received := v.received + data[..v.Window()]) && r.Window() == 0)
  {
    hide SeqNo;
    if off >= |v.received| {
      SeqDistance(v.rbase, off, |v.received|);
    } else {
      SeqDistance(v.rbase, |v.received|, off);
    }
    assert data[..|data|] == data;
  }

  /** The window is the room there is: that many bytes more can be held, and no more. */
  lemma WindowIsRoom(v: View, data: seq<byte>)
    requires v.Ok()
    ensures v.(received := v.received + data).Ok() <==> |data| <= v.Window()
  {
  }

  /** The first segment of a burst, and the rest. */
  lemma CutStep(v: View, off: nat)
    requires v.Ok() && off < |v.stream|
    ensures var n := if |v.stream| - off > MSS_TX then MSS_TX else |v.stream| - off;
            v.Cut(off) == [v.Seg(PSH_ACK, off, v.stream[off..off + n])] + v.Cut(off + n)
  {
  }

  /** Where sending stands does not change what a burst from a given offset holds. */
  lemma {:induction false} CutAnyNxt(v: View, nxt: nat, off: nat)
    requires v.Ok() && v.una <= nxt <= |v.stream| && off <= |v.stream|
    ensures v.(nxt := nxt).Cut(off) == v.Cut(off)
    decreases |v.stream| - off
  {
    if off == |v.stream| {
    } else {
      CutAnyNxt(v, nxt, off + if |v.stream| - off > MSS_TX then MSS_TX else |v.stream| - off);
    }
  }

  lemma CutEnd(v: View)
    requires v.Ok()
    ensures v.Cut(|v.stream|) == []
  {
  }

  const ACK_FLAG := Flags(false, false, false, false, true)
  const PSH_ACK := Flags(false, false, false, true, true)
  const SYN_ACK := Flags(false, true, false, false, true)
  const RST_ACK := Flags(false, false, true, false, true)
}
