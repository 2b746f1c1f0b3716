/** Segments as bytes (dosshd/net.c): the frame tcp_send_seg and ip_send build, and what handle_frame and tcp_in read
    out of one. */
module TcpWire {
  import opened Bytes
  import opened TcpView
  import opened Checksum
  import opened Slots

  const ETH_HLEN := 14
  const IPP_TCP: byte := 6

  // ----- flags and numbers -----

  /** The flag bits of section 3.1 of RFC 9293. */
  function FlagByte(f: Flags): byte {
    (if f.fin then 0x01 else 0) + (if f.syn then 0x02 else 0) + (if f.rst then 0x04 else 0)
        + (if f.psh then 0x08 else 0) + (if f.ack then 0x10 else 0)
  }

  function FlagsOf(b: byte): Flags {
    Flags(b % 2 == 1, b / 2 % 2 == 1, b / 4 % 2 == 1, b / 8 % 2 == 1, b / 16 % 2 == 1)
  }

  lemma FlagsBack(f: Flags)
    ensures FlagsOf(FlagByte(f)) == f
  {
  }

  /** The combinations the code sends. */
  lemma FlagsSent()
    ensures FlagByte(SYN_ACK) == 0x12 && FlagByte(ACK_FLAG) == 0x10 && FlagByte(PSH_ACK) == 0x18
    ensures FlagByte(RST_ACK) == 0x14
  {
  }

  /** rd16. */
  function Read16(s: seq<byte>): (v: nat)
    requires |s| == 2
    ensures v < WORDS
  {
    256 * s[0] as nat + s[1] as nat
  }

  lemma ReadWord(c: nat)
    requires c <= ONES
    ensures Read16(Word(c)) == c
  {
  }

  // ----- building -----

  /** What fits the fields of a segment. */
  predicate Sendable(seg: Segment) {
    seg.seqno < TWO32 && seg.ackno < TWO32 && seg.window <= ONES && |seg.data| <= MSS_TX
  }

  /** The header before the checksum, and what follows it. */
  function Front(from: nat, to: nat, seg: Segment, mss: bool): (s: seq<byte>)
    requires from <= ONES && to <= ONES && Sendable(seg)
    ensures |s| == 16
  {
    Word(from) + Word(to) + BeBytes(seg.seqno) + BeBytes(seg.ackno)
        + [if mss then 0x60 else 0x50, FlagByte(seg.flags)] + Word(seg.window)
  }

  function Back(seg: Segment, mss: bool): (s: seq<byte>)
    ensures |s| == (if mss then 6 else 2) + |seg.data|
  {
    [0, 0] + (if mss then [0x02, 0x04] + Word(MSS_TX) else []) + seg.data
  }

  /** What a receiver adds up before the segment: addresses, protocol and length. */
  function Pseudo(ours: seq<byte>, theirs: seq<byte>, n: nat): nat {
    WordSum(ours) + WordSum(theirs) + 6 + n
  }

  /** A receiver's checksum test succeeds. */
  ghost predicate Verifies(sum: nat) {
    forall received :: Folded(sum, received) ==> received == ONES
  }

  /** tcp_send_seg, from the fields of the segment: with and without the MSS option. */
  method BuildSegment(ours: seq<byte>, theirs: seq<byte>, from: nat, to: nat, seg: Segment, mss: bool)
    returns (t: seq<byte>, ghost c: nat)
    requires |ours| == 4 && |theirs| == 4 && from <= ONES && to <= ONES && Sendable(seg)
    ensures c <= ONES && t == Front(from, to, seg, mss) + Word(c) + Back(seg, mss)
    ensures Verifies(Pseudo(ours, theirs, |t|) + WordSum(t))
  {
    hide Front, Back, Word, WordSum, Folded;
    var front, back := Front(from, to, seg, mss), Back(seg, mss);
    var sum := SegmentChecksum(ours, theirs, front + [0, 0] + back);
    c := sum;
    t := front + Word(sum) + back;
    SumVerifies(Pseudo(ours, theirs, |t|), front, back, sum);
  }

  lemma SumVerifies(pseudo: nat, front: seq<byte>, back: seq<byte>, c: nat)
    requires |front| % 2 == 0 && c <= ONES && Folded(pseudo + WordSum(front + [0, 0] + back), ONES - c)
    ensures Verifies(pseudo + WordSum(front + Word(c) + back))
  {
    hide Word, WordSum, Folded;
    var sum := pseudo + WordSum(front + Word(c) + back);
    forall received | Folded(sum, received)
      ensures received == ONES
    {
      ChecksumVerifies(pseudo, front, back, c, received);
    }
  }

  function IpFront(tot: nat, id: nat): (s: seq<byte>)
    requires tot <= ONES && id <= ONES
    ensures |s| == 10
  {
    [0x45, 0x00] + Word(tot) + Word(id) + [0x40, 0x00, 64, IPP_TCP]
  }

  /** ip_send: the Ethernet and IP headers, and the segment. */
  method BuildFrame(theirMac: seq<byte>, ourMac: seq<byte>, ours: seq<byte>, theirs: seq<byte>, id: nat, t: seq<byte>)
    returns (f: seq<byte>, ghost c: nat)
    requires |theirMac| == 6 && |ourMac| == 6 && |ours| == 4 && |theirs| == 4 && id <= ONES && |t| <= 1424
    ensures c <= ONES && f == theirMac + ourMac + [0x08, 0x00] + IpFront(20 + |t|, id) + Word(c) + ours + theirs + t
    ensures Verifies(WordSum(f[14..34]))
  {
    hide IpFront, Word, WordSum, Folded;
    var front, back := IpFront(20 + |t|, id), ours + theirs;
    var sum := Sum16(front + [0, 0] + back, 0);
    var r := Fin16(sum);
    c := r;
    f := theirMac + ourMac + [0x08, 0x00] + front + Word(r) + ours + theirs + t;
    assert f[14..34] == front + Word(r) + back;
    SumVerifies(0, front, back, r);
  }

  // ----- reading -----

  /** The frame is as long as its headers say: what the code reads is there. */
  predicate Whole(f: seq<byte>) {
    |f| >= 34 && f[12] == 0x08 && f[13] == 0x00 ==>
      var ihl := f[14] as nat % 16 * 4;
      var tot := Read16(f[16..18]);
      ihl + 20 <= tot && ETH_HLEN + tot <= |f|
  }

  /** handle_frame and the beginning of tcp_in: the segment in a frame, if it is TCP over IPv4 to this address and port
      and its header fits. */
  function Parse(f: seq<byte>, ip: seq<byte>, port: nat): Option<Frame>
    requires Whole(f) && |ip| == 4
  {
    if |f| < 34 || f[12] != 0x08 || f[13] != 0x00 then None
    else if f[14] / 16 != 4 || f[30..34] != ip || f[23] != IPP_TCP then None
    else
      var ihl := f[14] as nat % 16 * 4;
      var t := f[ETH_HLEN + ihl..ETH_HLEN + Read16(f[16..18])];
      var toff := t[12] as nat / 16 * 4;
      if Read16(t[2..4]) != port || |t| < toff then None
      else
        Some(Frame(f[26..30], Read16(t[0..2]),
                   Segment(BeValue(t[4..8]), BeValue(t[8..12]), FlagsOf(t[13]), Read16(t[14..16]), t[toff..])))
  }

  lemma ParseSegment(from: nat, to: nat, seg: Segment, mss: bool, c: nat)
    requires from <= ONES && to <= ONES && Sendable(seg) && c <= ONES
    ensures var t := Front(from, to, seg, mss) + Word(c) + Back(seg, mss);
            && |t| >= 20 && Read16(t[0..2]) == from && Read16(t[2..4]) == to
            && BeValue(t[4..8]) == seg.seqno && BeValue(t[8..12]) == seg.ackno && FlagsOf(t[13]) == seg.flags
            && Read16(t[14..16]) == seg.window
            && t[12] as nat / 16 * 4 == (if mss then 24 else 20) && t[if mss then 24 else 20..] == seg.data
  {
    hide Word, BeBytes, BeValue, Read16, FlagByte, FlagsOf;
    var t := Front(from, to, seg, mss) + Word(c) + Back(seg, mss);
    assert t[0..2] == Word(from) && t[2..4] == Word(to) && t[14..16] == Word(seg.window);
    assert t[4..8] == BeBytes(seg.seqno) && t[8..12] == BeBytes(seg.ackno);
    ReadWord(from);
    ReadWord(to);
    ReadWord(seg.window);
    BeRoundTrip(seg.seqno);
    BeRoundTrip(seg.ackno);
    FlagsBack(seg.flags);
  }

  /** What is sent is received: the frame built for a segment is read by a host with the address and port it is for as
      that segment, from our address and port. */
  lemma FrameRoundTrip(f: seq<byte>, macs: seq<byte>, ours: seq<byte>, theirs: seq<byte>, id: nat, ipSum: nat,
      from: nat, to: nat, seg: Segment, mss: bool, c: nat)
    requires |macs| == 12 && |ours| == 4 && |theirs| == 4 && id <= ONES && ipSum <= ONES && c <= ONES
    requires from <= ONES && to <= ONES && Sendable(seg)
    requires var t := Front(from, to, seg, mss) + Word(c) + Back(seg, mss);
             f == macs + [0x08, 0x00] + IpFront(20 + |t|, id) + Word(ipSum) + ours + theirs + t
    ensures Whole(f) && Parse(f, theirs, to) == Some(Frame(ours, from, seg))
    ensures forall port :: port != to ==> Parse(f, theirs, port) == None
    ensures forall ip: seq<byte> :: |ip| == 4 && ip != theirs ==> Parse(f, ip, to) == None
  {
    hide Word, BeBytes, BeValue, Read16, FlagByte, FlagsOf, Front, Back;
    var t := Front(from, to, seg, mss) + Word(c) + Back(seg, mss);
    ParseSegment(from, to, seg, mss, c);
    ReadWord(20 + |t|);
    var h := IpFront(20 + |t|, id);
    assert f[14..24] == h && h[2..4] == Word(20 + |t|) && f[16..18] == h[2..4];
    assert f[14] == h[0] && f[23] == h[9];
    assert f[26..30] == ours && f[30..34] == theirs && f[34..] == t;
    assert f[34..14 + (20 + |t|)] == t;
  }
}
