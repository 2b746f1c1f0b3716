/** The slot table of dosshd/net.c: matching segments to connections, picking a slot for a new one, and
    the all-or-none broadcast. */
module Slots {
  import opened Bytes
  import opened TcpView
  import opened Tcp

  datatype Option<T> = None | Some(value: T)

  /** An inbound TCP segment addressed to us, with the peer it came from. */
  datatype Frame = Frame(ip: seq<byte>, port: nat, seg: Segment)

  // ----- marked streams -----

  /** The bytes of s at the marked places, in order. */
  function Marked(s: seq<byte>, m: seq<bool>): seq<byte>
    requires |s| == |m|
  {
    if |s| == 0 then []
    else
      var n := |s| - 1;
      Marked(s[..n], m[..n]) + if m[n] then [s[n]] else []
  }

  lemma MarkedAppend(s: seq<byte>, m: seq<bool>, b: byte, x: bool)
    requires |s| == |m|
    ensures Marked(s + [b], m + [x]) == Marked(s, m) + if x then [b] else []
  {
    assert (s + [b])[..|s|] == s && (m + [x])[..|m|] == m;
  }

  function Unmarked(n: nat): (m: seq<bool>)
    ensures |m| == n && forall i :: 0 <= i < n ==> !m[i]
  {
    seq(n, _ => false)
  }

  lemma {:induction false} NothingMarked(s: seq<byte>)
    ensures Marked(s, Unmarked(|s|)) == []
  {
    if |s| == 0 {
    } else {
      var n := |s| - 1;
      NothingMarked(s[..n]);
      assert Unmarked(|s|)[..n] == Unmarked(n);
    }
  }

  /** What the segments of a burst add up to. */
  function Concat(bursts: seq<seq<Segment>>): seq<Segment> {
    if |bursts| == 0 then [] else Concat(bursts[..|bursts| - 1]) + bursts[|bursts| - 1]
  }

  lemma ConcatAppend(bursts: seq<seq<Segment>>, b: seq<Segment>)
    ensures Concat(bursts + [b]) == Concat(bursts) + b
  {
    assert (bursts + [b])[..|bursts|] == bursts;
  }

  /** Marks are only added at the end. */
  predicate Grown(a: seq<seq<bool>>, b: seq<seq<bool>>) {
    |a| == |b| && forall i :: 0 <= i < |a| ==> a[i] <= b[i]
  }

  /** The data of a burst. */
  function BurstData(segs: seq<Segment>): seq<byte> {
    if |segs| == 0 then [] else segs[0].data + BurstData(segs[1..])
  }

  lemma {:induction false} BurstIsStream(v: View, off: nat)
    requires v.Ok() && off <= |v.stream|
    ensures BurstData(v.Cut(off)) == v.stream[off..]
    decreases |v.stream| - off
  {
    hide View.Cut;
    if off == |v.stream| {
      CutEnd(v);
    } else {
      CutStep(v, off);
      BurstIsStream(v, off + if |v.stream| - off > MSS_TX then MSS_TX else |v.stream| - off);
    }
  }

  lemma NextNumber(n: nat)
    ensures (n % TWO32 + 1) % TWO32 == (n + 1) % TWO32
  {
    RingStep(n, 1, TWO32);
  }

  predicate NoData(segs: seq<Segment>) {
    forall i :: 0 <= i < |segs| ==> segs[i].data == []
  }

  // ----- a slot at one moment -----

  /** What there is to see of a slot: its fields, the oldest number not acknowledged and the number its next segment
      carries, how often its timer has run out and when it next will, and what they stand for. */
  datatype Moment = Moment(tstate: TState, ready: bool, isNew: bool, ip: seq<byte>, port: nat, acked: nat, next: nat,
      stalls: nat, at: nat, v: View)
  {
    predicate Live() { tstate != Listen }

    predicate Matches(f: Frame) { Live() && port == f.port && ip == f.ip }

    predicate Opens(seg: Segment) { tstate == Estab || (tstate == SynRcvd && seg.flags.ack && seg.ackno == next) }

    function Opened(): View { if tstate == SynRcvd then v.(base := next) else v }

    /** Something is unacknowledged, be it data or the SYN, and the deadline has passed. */
    predicate Due(now: nat) {
      && Sub32(now, at) < TWO31
      && match tstate
         case Listen => false
         case SynRcvd => After(next, acked)
         case Estab => v.una < v.nxt
    }
  }

  /** No live slot belongs to the sender of the frame. */
  predicate NoMatch(ms: seq<Moment>, f: Frame) {
    forall i :: 0 <= i < |ms| ==> !ms[i].Matches(f)
  }

  /** No slot can be had for a new connection from this host. */
  predicate NoRoom(ms: seq<Moment>, ip: seq<byte>) {
    forall i :: 0 <= i < |ms| ==> ms[i].Live() && ms[i].ip != ip
  }

  /** What a segment that is neither a reset nor a SYN does to the live slot it is for, and the replies: a half-open
      slot waits for its SYN to be acknowledged; then data and acknowledgement count, and an acknowledgement of
      anything new starts the timer afresh; a FIN frees the slot. */
  predicate Dispatched(m: Moment, r: Moment, seg: Segment, now: nat, outs: seq<Segment>) {
    && m.v.Ok() && m.Opened().Ok()
    && var v := m.Opened().OnSegment(seg);
       if !m.Opens(seg) then r == m && outs == []
       else if seg.flags.fin then
         && Freed(m.(isNew := m.isNew || m.tstate == SynRcvd), r)
         && outs == m.Opened().Replies(seg) + [FinAck(v)]
       else
         && outs == m.Opened().Replies(seg)
         && r == m.(tstate := Estab, isNew := m.isNew || m.tstate == SynRcvd, acked := SeqNo(v.base, v.una), v := v,
                    stalls := if m.tstate == SynRcvd || v.una > m.v.una then 0 else m.stalls,
                    at := if v.una > m.v.una then (now + REXMIT_TICKS) % TWO32 else m.at)
  }

  /** A SYN is answered by SYN|ACK from a slot set up afresh, or refused when none can be had. */
  predicate SynAnswered(ms: seq<Moment>, rs: seq<Moment>, f: Frame, now: nat, outs: seq<Segment>, k: int)
    requires -1 <= k < |ms| == |rs|
  {
    && (k < 0 <==> NoRoom(ms, f.ip))
    && var theirs, ours := (f.seg.seqno + 1) % TWO32, (0x13700 + now + k) % TWO32;
       if k < 0 then outs == [Segment(0, theirs, RST_ACK, 0, [])]
       else
         && (!ms[k].Live() || ms[k].ip == f.ip)
         && outs == [Segment(ours, theirs, SYN_ACK, RCV_SZ - 1, [])]
         && rs[k] == ms[k].(tstate := SynRcvd, ip := f.ip, port := f.port, acked := ours, next := (ours + 1) % TWO32,
                            stalls := 0, at := (now + REXMIT_TICKS) % TWO32, v := View(0, [], 0, 0, theirs, [], 0))
  }

  /** tcp_reset_listen. */
  predicate Freed(m: Moment, r: Moment) {
    && !r.Live() && !r.ready && r.isNew == m.isNew && r.ip == m.ip && r.port == m.port
    && r.v == View(0, [], 0, 0, 0, [], 0)
  }

  /** tcp_in, from one moment of the table to the next: a reset frees the slot, a SYN opens one unless its peer already
      has one or none can be had, anything else goes to the matching slot. Slot k is the only one touched. */
  predicate Handled(ms: seq<Moment>, rs: seq<Moment>, f: Frame, now: nat, outs: seq<Segment>, k: int) {
    && -1 <= k < |ms| == |rs|
    && (forall i :: 0 <= i < |ms| && i != k ==> rs[i] == ms[i])
    && (f.seg.flags.rst ==>
          && outs == []
          && if k < 0 then NoMatch(ms, f) else ms[k].Matches(f) && Freed(ms[k], rs[k]))
    && (f.seg.flags.syn && !f.seg.flags.rst ==>
          if NoMatch(ms, f) then SynAnswered(ms, rs, f, now, outs, k) else k < 0 && outs == [])
    && (!f.seg.flags.syn && !f.seg.flags.rst ==>
          if k < 0 then NoMatch(ms, f) && outs == []
          else ms[k].Matches(f) && Dispatched(ms[k], rs[k], f.seg, now, outs))
  }

  /** tcp_timer on a slot and what it sends: nothing happens until the timer is due; then the slot goes back to the
      oldest unacknowledged byte, and sends its SYN|ACK again if that is what is missing, or is given up. */
  predicate TimedOut(m: Moment, r: Moment, now: nat, outs: seq<Segment>) {
    if !m.Due(now) then r == m && outs == []
    else if m.stalls < MAX_REXMIT then
      && m.v.Ok()
      && r == m.(next := m.acked, stalls := m.stalls + 1, at := (now + REXMIT_TICKS) % TWO32,
                 v := m.v.(nxt := m.v.una))
      && outs == if m.tstate == Estab then []
                 else [Segment(m.acked, SeqNo(m.v.rbase, |m.v.received|), SYN_ACK, m.v.Window(), [])]
    else Freed(m, r) && outs == []
  }

  /** tcp_output on a slot and what it sends: in the established phase everything in the stream from where sending
      stands; that starts the timer if nothing was on its way. */
  predicate SentOn(m: Moment, r: Moment, now: nat, burst: seq<Segment>) {
    if m.tstate == Estab then
      && m.v.Ok() && burst == m.v.Cut(m.v.nxt)
      && var n := |m.v.stream|;
         r == m.(next := SeqNo(m.v.base, n), v := m.v.(nxt := n),
                 at := if m.v.una == m.v.nxt < n then (now + REXMIT_TICKS) % TWO32 else m.at)
    else r == m && burst == []
  }

  /** A poll: the table after the timers and after the frame, the slot the frame touched, what the timers sent again,
      the answer to the frame, and what each slot then sent. */
  datatype Trace = Trace(timed: seq<Moment>, handled: seq<Moment>, k: int, resent: seq<seq<Segment>>,
      answer: seq<Segment>, bursts: seq<seq<Segment>>)

  predicate Took(ms: seq<Moment>, t: Trace, now: nat, frame: Option<Frame>) {
    && |t.timed| == |t.resent| == |ms|
    && (forall i :: 0 <= i < |ms| ==> TimedOut(ms[i], t.timed[i], now, t.resent[i]))
    && match frame
       case None => t.handled == t.timed && t.k == -1 && t.answer == []
       case Some(f) => Handled(t.timed, t.handled, f, now, t.answer, t.k)
  }

  /** What an established slot had sent when its timer ran out is sent again by the same poll, and counted: all of the
      stream from the oldest unacknowledged byte on. */
  lemma DueResent(ms: seq<Moment>, t: Trace, now: nat, frame: Option<Frame>, i: nat, r: Moment, burst: seq<Segment>)
    requires Took(ms, t, now, frame) && i < |ms| == |t.handled| && SentOn(t.handled[i], r, now, burst)
    requires ms[i].tstate == Estab && ms[i].v.Ok() && ms[i].Due(now) && ms[i].stalls < MAX_REXMIT
    requires r.tstate == Estab
    ensures r.v.una == ms[i].v.una && r.v.stream == ms[i].v.stream && r.stalls == ms[i].stalls + 1
    ensures r.v.Ok() && burst == t.handled[i].v.Cut(r.v.una) && BurstData(burst) == r.v.stream[r.v.una..]
  {
    hide View.Cut, View.Replies, FinAck, SeqNo;
    assert TimedOut(ms[i], t.timed[i], now, t.resent[i]);
    BurstIsStream(t.handled[i].v, t.handled[i].v.nxt);
  }

  // ----- the table -----

  class Net {
    const conns: seq<Conn>
    /** Every byte the broadcast has accepted, oldest first. */
    ghost var log: seq<byte>
    /** Per slot: how long the log was when the slot was last admitted, and which bytes of its stream the broadcast
        has put there since. */
    ghost var joined: seq<nat>
    ghost var marks: seq<seq<bool>>

    /** A slot that takes part in the broadcast. */
    static predicate Admitted(c: Conn)
      reads c
    {
      c.tstate == Estab && c.ready
    }

    static predicate Live(c: Conn)
      reads c
    {
      c.tstate != Listen
    }

    static ghost function Look(c: Conn): Moment
      reads c
    {
      Moment(c.tstate, c.ready, c.just_estab, c.peer_ip, c.peer_port, c.snd_una, c.snd_nxt, c.rexmit_count, c.rexmit_at,
             c.v)
    }

    ghost function Looks(): (s: seq<Moment>)
      reads conns
      ensures |s| == |conns| && forall i :: 0 <= i < |s| ==> s[i] == Look(conns[i])
    {
      seq(|conns|, i requires 0 <= i < |conns| reads conns => Look(conns[i]))
    }

    /** No two slots share storage. */
    ghost predicate Apart() {
      forall i, j :: 0 <= i < j < |conns| ==>
        && conns[i] != conns[j]
        && conns[i].sbuf != conns[j].sbuf && conns[i].sbuf != conns[j].rbuf
        && conns[i].rbuf != conns[j].sbuf && conns[i].rbuf != conns[j].rbuf
    }

    /** At most one live slot matches a peer. */
    ghost predicate UniquePeers()
      reads conns
    {
      forall i, j :: 0 <= i < j < |conns| && Live(conns[i]) && Live(conns[j]) ==>
        conns[i].peer_ip != conns[j].peer_ip || conns[i].peer_port != conns[j].peer_port
    }

    /** The broadcast bytes in the stream of slot i are the accepted bytes since it joined. */
    ghost predicate Agrees(i: nat)
      requires i < |conns| == |joined| == |marks|
      reads this`log, this`joined, this`marks, conns`v
    {
      && joined[i] <= |log| && |marks[i]| == |conns[i].v.stream|
      && Marked(conns[i].v.stream, marks[i]) == log[joined[i]..]
    }

    ghost predicate Agreement()
      reads this, conns
    {
      && |joined| == |conns| == |marks|
      && forall i :: 0 <= i < |conns| && Admitted(conns[i]) ==> Agrees(i)
    }

    /** A slot admitted before and after has neither left nor lost a byte of its stream in between. */
    twostate predicate Steady(i: nat)
      requires i < |conns|
      reads this, conns
    {
      old(Admitted(conns[i])) && Admitted(conns[i]) ==>
        && i < |joined| && i < |old(joined)| && i < |marks| && i < |old(marks)|
        && joined[i] == old(joined)[i] && old(marks)[i] <= marks[i] && old(conns[i].v.stream) <= conns[i].v.stream
    }

    twostate predicate AllSteady()
      reads this, conns
    {
      forall i :: 0 <= i < |conns| ==> Steady(i)
    }

    ghost predicate Valid()
      reads this, conns, set c | c in conns :: c.sbuf, set c | c in conns :: c.rbuf
    {
      && Apart() && UniquePeers() && Agreement()
      && forall i :: 0 <= i < |conns| ==> conns[i].Valid()
    }

    /** net_open: every slot free and listening. */
    constructor (slots: nat)
      ensures Valid() && |conns| == slots && log == [] && fresh(conns)
      ensures forall i :: 0 <= i < |conns| ==> !Live(conns[i]) && fresh(conns[i].sbuf) && fresh(conns[i].rbuf)
    {
      hide Conn.Valid;
      var cs: seq<Conn> := [];
      while |cs| < slots
        invariant |cs| <= slots && fresh(cs)
        invariant forall i :: 0 <= i < |cs| ==>
                    cs[i].Valid() && cs[i].tstate == Listen && fresh(cs[i].sbuf) && fresh(cs[i].rbuf)
        invariant forall i, j :: 0 <= i < j < |cs| ==>
                    && cs[i] != cs[j] && cs[i].sbuf != cs[j].sbuf && cs[i].sbuf != cs[j].rbuf
                    && cs[i].rbuf != cs[j].sbuf && cs[i].rbuf != cs[j].rbuf
      {
        var c := new Conn();
        cs := cs + [c];
      }
      conns := cs;
      log, joined, marks := [], seq(slots, _ => 0), seq(slots, _ => []);
    }

    /** A live slot of this host whose peer has stopped acknowledging. */
    static predicate Stalled(c: Conn, ip: seq<byte>)
      reads c
    {
      Live(c) && c.rexmit_count > 0 && c.peer_ip == ip
    }

    /** find_conn. */
    method FindConn(port: nat, ip: seq<byte>) returns (k: int)
      ensures -1 <= k < |conns|
      ensures k >= 0 ==> Live(conns[k]) && conns[k].peer_port == port && conns[k].peer_ip == ip
      ensures k < 0 ==>
                forall i :: 0 <= i < |conns| && Live(conns[i]) ==> conns[i].peer_port != port || conns[i].peer_ip != ip
    {
      var i := 0;
      while i < |conns|
        invariant 0 <= i <= |conns|
        invariant forall j :: 0 <= j < i && Live(conns[j]) ==> conns[j].peer_port != port || conns[j].peer_ip != ip
      {
        if conns[i].tstate != Listen && conns[i].peer_port == port && conns[i].peer_ip == ip {
          return i;
        }
        i := i + 1;
      }
      return -1;
    }

    /** alloc_conn: a stalled slot of the same host, else a free one, else any slot last used by that
        host, else none. */
    method AllocConn(ip: seq<byte>) returns (k: int)
      ensures -1 <= k < |conns|
      ensures k >= 0 ==> !Live(conns[k]) || conns[k].peer_ip == ip
      ensures k < 0 <==> NoRoom(Looks(), ip)
      ensures (exists i :: 0 <= i < |conns| && Stalled(conns[i], ip)) ==> k >= 0 && Stalled(conns[k], ip)
      ensures k >= 0 && Live(conns[k]) && conns[k].rexmit_count == 0 ==> forall i :: 0 <= i < |conns| ==> Live(conns[i])
    {
      var i := 0;
      while i < |conns|
        invariant 0 <= i <= |conns| && forall j :: 0 <= j < i ==> !Stalled(conns[j], ip)
      {
        if conns[i].tstate != Listen && conns[i].rexmit_count > 0 && conns[i].peer_ip == ip {
          return i;
        }
        i := i + 1;
      }
      i := 0;
      while i < |conns|
        invariant 0 <= i <= |conns|
        invariant forall j :: 0 <= j < i ==> Live(conns[j])
      {
        if conns[i].tstate == Listen {
          return i;
        }
        i := i + 1;
      }
      i := 0;
      while i < |conns|
        invariant 0 <= i <= |conns|
        invariant forall j :: 0 <= j < i ==> conns[j].peer_ip != ip
      {
        if conns[i].peer_ip == ip {
          return i;
        }
        i := i + 1;
      }
      return -1;
    }

    /** Everything about the slots other than k is as it was. */
    twostate predicate OnlySlot(k: nat)
      requires k < |conns|
      reads conns, set c | c in conns :: c.sbuf, set c | c in conns :: c.rbuf
    {
      forall i :: 0 <= i < |conns| && i != k ==>
        unchanged(conns[i]) && unchanged(conns[i].sbuf) && unchanged(conns[i].rbuf)
    }

    /** Changing one slot, validly and without making it clash with a peer or cheating it of broadcast
        bytes, keeps the table valid. */
    twostate lemma SlotChanged(k: nat)
      requires k < |conns| && old(Valid()) && OnlySlot(k) && conns[k].Valid()
      requires log == old(log) && |joined| == |conns| == |marks|
      requires forall i :: 0 <= i < |conns| && i != k ==> joined[i] == old(joined)[i] && marks[i] == old(marks)[i]
      requires Live(conns[k]) ==> forall i :: 0 <= i < |conns| && i != k && Live(conns[i]) ==>
                 conns[i].peer_ip != conns[k].peer_ip || conns[i].peer_port != conns[k].peer_port
      requires Admitted(conns[k]) ==> Agrees(k)
      ensures Valid() && forall i :: 0 <= i < |conns| && i != k ==> Steady(i)
    {
      hide Conn.Valid, Marked;
    }

    /** Note that slot k has just been admitted: it is owed nothing sent before. */
    ghost method Join(k: nat)
      requires k < |conns| && |joined| == |conns| == |marks|
      modifies this`joined, this`marks
      ensures |joined| == |conns| == |marks| && Agrees(k)
      ensures forall i :: 0 <= i < |conns| && i != k ==> joined[i] == old(joined)[i] && marks[i] == old(marks)[i]
    {
      joined, marks := joined[k := |log|], marks[k := Unmarked(|conns[k].v.stream|)];
      NothingMarked(conns[k].v.stream);
    }

    lemma Numbered(k: nat)
      requires Valid() && k < |conns|
      ensures conns[k].v.Ok()
          && (conns[k].tstate == Estab ==> conns[k].snd_una == SeqNo(conns[k].v.base, conns[k].v.una))
    {
      hide Conn.SendRing, Conn.RecvRing;
    }

    lemma SizesHold()
      requires Valid()
      ensures |joined| == |conns| == |marks|
    {
    }

    /** Streams and marks that only grow are steady, as long as nobody joins. */
    twostate lemma GrownSteady()
      requires |joined| == |conns| == |marks| && joined == old(joined) && Grown(old(marks), marks)
      requires forall i :: 0 <= i < |conns| && old(Admitted(conns[i])) && Admitted(conns[i]) ==>
                 old(conns[i].v.stream) <= conns[i].v.stream
      ensures AllSteady()
    {
    }

    /** An established slot that stays established keeps its stream and its admission. */
    static twostate predicate Lasting(c: Conn)
      reads c
    {
      old(c.tstate) == Estab && c.tstate == Estab ==> c.v.stream == old(c.v.stream) && c.ready == old(c.ready)
    }

    /** What lasts is steady, as long as nothing is noted anew. */
    twostate lemma LastingSteady()
      requires |joined| == |conns| == |marks| && joined == old(joined) && marks == old(marks)
      requires forall i :: 0 <= i < |conns| ==> Lasting(conns[i])
      ensures AllSteady()
    {
    }

    /** tcp_in. */
    method TcpIn(f: Frame, now: nat) returns (outs: seq<Segment>, ghost k: int)
      requires Valid() && f.seg.seqno < TWO32 && f.seg.ackno < TWO32
      modifies this`joined, this`marks, conns, set c | c in conns :: c.rbuf
      ensures Valid() && log == old(log) && AllSteady() && NoData(outs)
      ensures Handled(old(Looks()), Looks(), f, now, outs, k)
      ensures forall i :: 0 <= i < |conns| && i != k ==> unchanged(conns[i])
      ensures forall i :: 0 <= i < |conns| ==> Lasting(conns[i])
      ensures k >= 0 && conns[k].tstate == Estab ==> old(conns[k].tstate) != Listen
    {
      hide Valid, Agrees, SynAnswered, Dispatched;
      k := -1;
      var n := FindConn(f.port, f.ip);
      outs := [];
      label found:
      if f.seg.flags.rst {
        if n >= 0 {
          k := n;
          DropDead(n);
        }
      } else if f.seg.flags.syn {
        if n < 0 {
          outs, k := Accept(f, now);
        } else {
          assert Looks()[n].Matches(f);
        }
      } else if n >= 0 {
        k := n;
        outs := Dispatch(n, f.seg, now);
      }
      forall i | 0 <= i < |conns|
        ensures Steady(i)
      {
        SizesHold();
        assert Steady@found(i);
      }
    }

    /** A SYN from a peer that has no live slot. */
    method Accept(f: Frame, now: nat) returns (outs: seq<Segment>, ghost k: int)
      requires Valid() && f.seg.seqno < TWO32 && NoMatch(Looks(), f)
      modifies conns
      ensures Valid() && AllSteady() && -1 <= k < |conns| && NoData(outs)
      ensures SynAnswered(old(Looks()), Looks(), f, now, outs, k) && (k >= 0 ==> conns[k].tstate == SynRcvd)
      ensures forall i :: 0 <= i < |conns| && i != k ==> unchanged(conns[i])
    {
      hide Valid;
      SizesHold();
      var n := AllocConn(f.ip);
      k := n;
      if n < 0 {
        outs := [Segment(0, (f.seg.seqno + 1) % TWO32, RST_ACK, 0, [])];
      } else {
        assert forall i :: 0 <= i < |conns| ==> !Looks()[i].Matches(f);
        var synAck := OpenSlot(n, f, now);
        outs := [synAck];
      }
    }

    /** A slot set up afresh for a peer that has none. */
    method OpenSlot(k: nat, f: Frame, now: nat) returns (synAck: Segment)
      requires Valid() && f.seg.seqno < TWO32 && k < |conns|
      requires forall i :: 0 <= i < |conns| ==> !Look(conns[i]).Matches(f)
      modifies conns[k]
      ensures Valid() && AllSteady()
      ensures forall i :: 0 <= i < |conns| && i != k ==> unchanged(conns[i])
      ensures var theirs, ours := (f.seg.seqno + 1) % TWO32, (0x13700 + now + k) % TWO32;
              && synAck == Segment(ours, theirs, SYN_ACK, RCV_SZ - 1, [])
              && Look(conns[k]) ==
                 old(Look(conns[k])).(tstate := SynRcvd, ip := f.ip, port := f.port, acked := ours,
                                      next := (ours + 1) % TWO32, stalls := 0, at := (now + REXMIT_TICKS) % TWO32,
                                      v := View(0, [], 0, 0, theirs, [], 0))
    {
      hide Conn.Valid, Marked;
      assert forall i :: 0 <= i < |conns| && i != k && Live(conns[i]) ==>
          conns[i].peer_ip != f.ip || conns[i].peer_port != f.port;
      NextNumber(0x13700 + now + k);
      synAck := conns[k].Open(f.ip, f.port, f.seg.seqno, 0x13700 + now + k, now);
      SlotChanged(k);
    }

    /** A segment for a live slot. */
    static method Hear(c: Conn, seg: Segment, now: nat) returns (outs: seq<Segment>)
      requires c.Valid() && Live(c) && seg.ackno < TWO32
      modifies c, c.rbuf
      ensures c.Valid() && Dispatched(old(Look(c)), Look(c), seg, now, outs) && Lasting(c) && NoData(outs)
      ensures c.peer_ip == old(c.peer_ip) && c.peer_port == old(c.peer_port)
    {
      hide Conn.Valid, View.OnSegment;
      c.Numbered();
      outs := c.Receive(seg, now);
      c.Numbered();
    }

    /** A segment for live slot k. A slot whose admission flag is still set joins the broadcast as soon
        as its handshake completes. */
    method Dispatch(k: nat, seg: Segment, now: nat) returns (outs: seq<Segment>)
      requires Valid() && k < |conns| && Live(conns[k]) && seg.ackno < TWO32
      modifies this`joined, this`marks, conns[k], conns[k].rbuf
      ensures Valid() && log == old(log) && AllSteady() && NoData(outs)
      ensures Dispatched(old(Look(conns[k])), Look(conns[k]), seg, now, outs)
      ensures Lasting(conns[k]) && forall i :: 0 <= i < |conns| && i != k ==> unchanged(conns[i])
    {
      hide Conn.Valid, Marked, Dispatched;
      ghost var was := Admitted(conns[k]);
      outs := Hear(conns[k], seg, now);
      if Admitted(conns[k]) && !was {
        Join(k);
      }
      SlotChanged(k);
    }

    /** net_slot_ready. */
    method SlotReady(k: int, on: bool)
      requires Valid()
      modifies this`joined, this`marks, conns
      ensures Valid() && log == old(log) && AllSteady()
      ensures forall i :: 0 <= i < |conns| ==> conns[i].v == old(conns[i].v) && conns[i].tstate == old(conns[i].tstate)
      ensures forall i :: 0 <= i < |conns| ==> conns[i].ready == if i == k then on else old(conns[i].ready)
    {
      hide Conn.Valid, Marked;
      if 0 <= k < |conns| {
        ghost var was := Admitted(conns[k]);
        conns[k].ready := on;
        if Admitted(conns[k]) && !was {
          Join(k);
        }
        SlotChanged(k);
      }
    }

    /** net_slot_drop. */
    method SlotDrop(k: int) returns (outs: seq<Segment>)
      requires Valid()
      modifies conns
      ensures Valid() && AllSteady()
      ensures 0 <= k < |conns| ==> Freed(old(Look(conns[k])), Look(conns[k]))
      ensures forall i :: 0 <= i < |conns| && i != k ==> unchanged(conns[i])
      ensures 0 <= k < |conns| && old(conns[k].tstate) == Estab ==>
                outs == [old(conns[k].v).Seg(RST_ACK, old(conns[k].v).nxt, [])]
      ensures !(0 <= k < |conns|) || old(conns[k].tstate) != Estab ==> outs == []
    {
      outs := [];
      if 0 <= k < |conns| {
        if conns[k].tstate == Estab {
          var rst := conns[k].SendSeg(RST_ACK, 0, 0);
          outs := [rst];
        }
        conns[k].ResetListen();
        SlotChanged(k);
      }
    }

    /** The send ring of a slot has no room. */
    static ghost predicate Full(c: Conn)
      reads c
    {
      |c.v.stream| - c.v.una >= SND_SZ - 1
    }

    /** An admitted slot whose ring is full: slow if its peer still acknowledges, dead if not. */
    static ghost predicate Slow(c: Conn)
      reads c
    {
      Admitted(c) && Full(c) && c.rexmit_count == 0
    }

    static ghost predicate Dead(c: Conn)
      reads c
    {
      Admitted(c) && Full(c) && c.rexmit_count > 0
    }

    /** The first pass of net_tx_putc: drop dead slots, stop at a slow one. */
    method Screen() returns (ok: bool)
      requires Valid()
      modifies conns
      ensures Valid() && AllSteady()
      ensures forall i :: 0 <= i < |conns| ==>
                unchanged(conns[i]) || (old(Dead(conns[i])) && !Live(conns[i]))
      ensures ok ==> forall i :: 0 <= i < |conns| && Admitted(conns[i]) ==> !Full(conns[i])
      ensures !ok <==> old(exists i :: 0 <= i < |conns| && Slow(conns[i]))
    {
      hide Valid;
      SizesHold();
      var i := 0;
      while i < |conns|
        invariant 0 <= i <= |conns| && Valid()
        invariant forall j :: 0 <= j < |conns| ==>
                    unchanged(conns[j]) || (j < i && old(Dead(conns[j])) && !Live(conns[j]))
        invariant forall j :: 0 <= j < i ==> !old(Slow(conns[j]))
        invariant forall j :: 0 <= j < i && Admitted(conns[j]) ==> !Full(conns[j])
      {
        assert unchanged(conns[i]);
        var slow := ScreenSlot(i);
        if slow {
          assert old(Slow(conns[i]));
          SizesHold();
          LastingSteady();
          return false;
        }
        i := i + 1;
      }
      SizesHold();
      LastingSteady();
      return true;
    }

    /** One slot of the first pass. */
    method ScreenSlot(k: nat) returns (slow: bool)
      requires Valid() && k < |conns|
      modifies conns[k]
      ensures Valid()
      ensures forall i :: 0 <= i < |conns| && i != k ==> unchanged(conns[i])
      ensures slow <==> old(Slow(conns[k]))
      ensures if old(Dead(conns[k])) then !Live(conns[k]) else unchanged(conns[k])
    {
      hide Conn.Valid;
      slow := false;
      if conns[k].tstate == Estab && conns[k].ready {
        var room := conns[k].HasRoom();
        if !room {
          if conns[k].rexmit_count > 0 {
            DropDead(k);
          } else {
            slow := true;
          }
        }
      }
    }

    method DropDead(k: nat)
      requires Valid() && k < |conns|
      modifies conns[k]
      ensures Valid() && Freed(old(Look(conns[k])), Look(conns[k])) && AllSteady()
      ensures forall i :: 0 <= i < |conns| && i != k ==> unchanged(conns[i])
    {
      conns[k].ResetListen();
      SlotChanged(k);
    }

    /** The second pass of net_tx_putc. */
    method AppendAll(ch: byte)
      requires Valid() && forall i :: 0 <= i < |conns| && Admitted(conns[i]) ==> !Full(conns[i])
      modifies conns, set c | c in conns :: c.sbuf
      ensures forall i :: 0 <= i < |conns| ==> conns[i].Valid() && SameButRing(conns[i])
      ensures forall i :: 0 <= i < |conns| ==>
                conns[i].v == if Admitted(conns[i]) then
                    old(conns[i].v).(stream := old(conns[i].v).stream + [ch]) else old(conns[i].v)
    {
      hide Conn.Valid;
      var i := 0;
      while i < |conns|
        invariant 0 <= i <= |conns|
        invariant forall j :: 0 <= j < |conns| ==> conns[j].Valid() && SameButRing(conns[j])
        invariant forall j :: i <= j < |conns| ==> conns[j].v == old(conns[j].v)
        invariant forall j :: 0 <= j < i ==>
                    conns[j].v == if Admitted(conns[j]) then
                        old(conns[j].v).(stream := old(conns[j].v).stream + [ch]) else old(conns[j].v)
      {
        if conns[i].tstate == Estab && conns[i].ready {
          var ok := conns[i].PutC(ch);
        }
        i := i + 1;
      }
    }

    /** The byte goes to every admitted slot. */
    method Append(ch: byte)
      requires Valid() && forall i :: 0 <= i < |conns| && Admitted(conns[i]) ==> !Full(conns[i])
      modifies this`log, this`marks, conns, set c | c in conns :: c.sbuf
      ensures Valid() && log == old(log) + [ch] && AllSteady()
      ensures forall i :: 0 <= i < |conns| ==>
                && SameButRing(conns[i])
                && conns[i].v == if Admitted(conns[i]) then
                    old(conns[i].v).(stream := old(conns[i].v).stream + [ch]) else old(conns[i].v)
    {
      hide Conn.Valid, Marked;
      AppendAll(ch);
      log := log + [ch];
      ghost var before := marks;
      marks := seq(|before|, k requires 0 <= k < |before| reads this, conns =>
        if k < |conns| && Admitted(conns[k]) then before[k] + [true] else before[k]);
      forall i | 0 <= i < |conns| && Admitted(conns[i])
        ensures Agrees(i)
      {
        assert old(Admitted(conns[i]) && Agrees(i));
        MarkedAppend(old(conns[i].v.stream), before[i], ch, true);
        assert log[joined[i]..] == old(log)[joined[i]..] + [ch];
      }
    }

    /** What a byte appended to the ring does not touch. */
    static twostate predicate SameButRing(c: Conn)
      reads c
    {
      && c.tstate == old(c.tstate) && c.ready == old(c.ready) && c.just_estab == old(c.just_estab)
      && c.peer_ip == old(c.peer_ip) && c.peer_port == old(c.peer_port) && c.rexmit_count == old(c.rexmit_count)
      && c.snd_una == old(c.snd_una) && c.snd_nxt == old(c.snd_nxt) && c.rexmit_at == old(c.rexmit_at)
    }

    /** net_tx_putc: broadcast one byte to every admitted slot, or to none. */
    method Broadcast(ch: byte) returns (ok: bool)
      requires Valid()
      modifies this`log, this`marks, conns, set c | c in conns :: c.sbuf
      ensures Valid() && AllSteady()
      // refused exactly when some admitted slot is full but still acknowledging
      ensures !ok <==> old(exists i :: 0 <= i < |conns| && Slow(conns[i]))
      ensures !ok ==> exists i :: 0 <= i < |conns| && Slow(conns[i])
      // an accepted byte reaches every slot still admitted; a refused one changes none of them
      ensures log == if ok then old(log) + [ch] else old(log)
      ensures forall i :: 0 <= i < |conns| && Admitted(conns[i]) ==>
                && old(Admitted(conns[i]))
                && conns[i].v == if ok then old(conns[i].v).(stream := old(conns[i].v).stream + [ch])
                    else old(conns[i].v)
      // a slot is dropped only when it is full and its peer has stopped acknowledging
      ensures forall i :: 0 <= i < |conns| && old(Admitted(conns[i])) && !Admitted(conns[i]) ==>
                old(Full(conns[i]) && conns[i].rexmit_count > 0)
      ensures forall i :: 0 <= i < |conns| && !old(Admitted(conns[i])) ==> conns[i].v == old(conns[i].v)
    {
      hide Valid;
      SizesHold();
      ok := Screen();
      if !ok {
        ghost var i :| 0 <= i < |conns| && old(Slow(conns[i]));
        assert unchanged(conns[i]) && Slow(conns[i]);
      }
      label screened:
      if ok {
        Append(ch);
        SizesHold();
        forall i | 0 <= i < |conns|
          ensures Steady(i)
        {
          assert Steady@screened(i);
        }
      }
    }

    /** net_tx_putc_slot: one byte for one slot, outside the broadcast. */
    method PutSlot(k: int, ch: byte) returns (ok: bool)
      requires Valid()
      modifies this`marks, conns, set c | c in conns :: c.sbuf
      ensures Valid() && AllSteady()
      ensures ok <==> 0 <= k < |conns| && old(|conns[k].v.stream| - conns[k].v.una) < SND_SZ - 1
      ensures forall i :: 0 <= i < |conns| ==>
                && SameButRing(conns[i])
                && conns[i].v == if ok && i == k then old(conns[i].v).(stream := old(conns[i].v).stream + [ch])
                   else old(conns[i].v)
      ensures Grown(old(marks), marks)
    {
      hide Valid;
      ok := false;
      SizesHold();
      if 0 <= k < |conns| {
        label before: ok := PutOne(k, ch);
        forall i | 0 <= i < |conns|
          ensures Steady(i)
        {
          assert Steady@before(i);
        }
      }
    }

    /** Note that the last byte of a stream is not a broadcast one. */
    ghost method Note(k: nat)
      requires k < |marks|
      modifies this`marks
      ensures marks == old(marks)[k := old(marks)[k] + [false]]
    {
      marks := marks[k := marks[k] + [false]];
    }

    method PutOne(k: nat, ch: byte) returns (ok: bool)
      requires Valid() && k < |conns|
      modifies this`marks, conns[k], conns[k].sbuf
      ensures Valid() && AllSteady() && SameButRing(conns[k]) && Grown(old(marks), marks)
      ensures ok <==> old(|conns[k].v.stream| - conns[k].v.una) < SND_SZ - 1
      ensures conns[k].v == if ok then old(conns[k].v).(stream := old(conns[k].v).stream + [ch]) else old(conns[k].v)
      ensures forall i :: 0 <= i < |conns| && i != k ==> unchanged(conns[i])
    {
      hide Conn.Valid, Marked;
      ghost var stream, mark := conns[k].v.stream, marks[k];
      ok := conns[k].PutC(ch);
      if ok {
        Note(k);
        if Admitted(conns[k]) {
          MarkedAppend(stream, mark, ch, false);
        }
      }
      SlotChanged(k);
    }

    /** net_rx_getc. */
    method RxGetC(k: int) returns (ch: int)
      requires Valid()
      modifies conns
      ensures Valid() && AllSteady()
      ensures ch < 0 ==> ch == -1 && !(0 <= k < |conns| && old(conns[k].v.popped < |conns[k].v.received|))
      ensures ch >= 0 ==>
                && 0 <= k < |conns| && old(conns[k].v.popped < |conns[k].v.received|)
                && ch == old(conns[k].v.received[conns[k].v.popped]) as int
                && conns[k].v == old(conns[k].v).(popped := old(conns[k].v.popped) + 1)
      ensures forall i :: 0 <= i < |conns| && (ch < 0 || i != k) ==> conns[i].v == old(conns[i].v)
      ensures forall i :: 0 <= i < |conns| ==> SameButRing(conns[i])
    {
      hide Conn.Valid;
      ch := -1;
      if 0 <= k < |conns| {
        ch := conns[k].GetC();
        SlotChanged(k);
      }
    }

    /** net_take_new_slot: the first slot whose handshake has completed since the last call; its flag is cleared. */
    method TakeNewSlot() returns (k: int)
      requires Valid()
      modifies conns
      ensures Valid() && AllSteady() && -1 <= k < |conns|
      ensures k < 0 ==> forall i :: 0 <= i < |conns| ==> !old(conns[i].just_estab)
      ensures k >= 0 ==> old(conns[k].just_estab) && forall i :: 0 <= i < k ==> !old(conns[i].just_estab)
      ensures forall i :: 0 <= i < |conns| ==>
                Look(conns[i]) == if i == k then old(Look(conns[i])).(isNew := false) else old(Look(conns[i]))
    {
      hide Conn.Valid, Marked;
      k := 0;
      while k < |conns|
        invariant 0 <= k <= |conns| && forall i :: 0 <= i < k ==> !conns[i].just_estab
      {
        if conns[k].just_estab {
          conns[k].just_estab := false;
          SlotChanged(k);
          return;
        }
        k := k + 1;
      }
      k := -1;
    }

    /** net_poll: every timer, the frame that arrived if any, then every slot's unsent bytes. The segments are replies
        without data, then for each established slot its stream from where it had been sent to its end. */
    method Poll(now: nat, frame: Option<Frame>)
      returns (outs: seq<Segment>, ghost t: Trace)
      requires Valid() && (frame.Some? ==> frame.value.seg.seqno < TWO32 && frame.value.seg.ackno < TWO32)
      modifies this`joined, this`marks, conns, set c | c in conns :: c.rbuf
      ensures Valid() && log == old(log) && AllSteady()
      ensures Took(old(Looks()), t, now, frame) && |t.handled| == |t.bursts| == |conns|
      ensures forall i :: 0 <= i < |conns| ==>
                Lasting(conns[i]) && SentOn(t.handled[i], Look(conns[i]), now, t.bursts[i])
      ensures outs == Concat(t.resent) + t.answer + Concat(t.bursts) && NoData(Concat(t.resent) + t.answer)
    {
      hide Valid, Took, SentOn;
      outs, t := Intake(now, frame);
      label taken:
      SizesHold();
      forall i | 0 <= i < |conns| && old(Admitted(conns[i])) && Admitted(conns[i])
        ensures i < |old(joined)| && i < |old(marks)| && joined[i] == old(joined)[i]
        ensures old(marks)[i] <= marks[i] && old(conns[i].v.stream) <= conns[i].v.stream
      {
        assert Steady(i);
      }
      var data;
      ghost var bursts;
      data, bursts := RunOutput(now);
      TookAnyway(old(Looks()), t, t.(bursts := bursts), now, frame);
      t := t.(bursts := bursts);
      SizesHold();
      forall i | 0 <= i < |conns|
        ensures Lasting(conns[i]) && Steady(i) && SentOn(t.handled[i], Look(conns[i]), now, t.bursts[i])
      {
        LastsSent(old@taken(Look(conns[i])), Look(conns[i]), now, bursts[i]);
        assert Steady@taken(i);
      }
      outs := outs + data;
    }

    lemma TookAnyway(ms: seq<Moment>, t: Trace, u: Trace, now: nat, frame: Option<Frame>)
      requires Took(ms, t, now, frame) && u == t.(bursts := u.bursts)
      ensures Took(ms, u, now, frame)
    {
    }

    lemma TimedPhase(m: Moment, r: Moment, now: nat, outs: seq<Segment>)
      requires TimedOut(m, r, now, outs)
      ensures r.tstate == m.tstate || r.tstate == Listen
      ensures r.tstate == Estab ==> r.ready == m.ready && r.v.stream == m.v.stream
    {
    }

    lemma LastsSent(m: Moment, r: Moment, now: nat, burst: seq<Segment>)
      requires SentOn(m, r, now, burst)
      ensures r.tstate == m.tstate && r.ready == m.ready && r.v.stream == m.v.stream
    {
    }

    /** The timers and the input of a poll. */
    method Intake(now: nat, frame: Option<Frame>) returns (outs: seq<Segment>, ghost t: Trace)
      requires Valid() && (frame.Some? ==> frame.value.seg.seqno < TWO32 && frame.value.seg.ackno < TWO32)
      modifies this`joined, this`marks, conns, set c | c in conns :: c.rbuf
      ensures Valid() && log == old(log) && AllSteady() && NoData(outs) && outs == Concat(t.resent) + t.answer
      ensures Took(old(Looks()), t, now, frame) && t.handled == Looks()
      ensures forall i :: 0 <= i < |conns| ==> Lasting(conns[i])
    {
      hide Valid, TimedOut, Handled;
      SizesHold();
      ghost var resent;
      outs, resent := RunTimers(now);
      SizesHold();
      t := Trace(Looks(), Looks(), -1, resent, [], []);
      if frame.Some? {
        label timed:
        var segs, k := TcpIn(frame.value, now);
        SizesHold();
        forall i | 0 <= i < |conns|
          ensures Steady(i) && Lasting(conns[i])
        {
          TimedPhase(old(Look(conns[i])), old@timed(Look(conns[i])), now, resent[i]);
          assert Steady@timed(i) && Lasting@timed(conns[i]);
        }
        t := t.(handled := Looks(), k := k, answer := segs);
        outs := outs + segs;
      }
    }

    /** The timer of every slot. */
    method RunTimers(now: nat) returns (outs: seq<Segment>, ghost resent: seq<seq<Segment>>)
      requires Valid()
      modifies conns
      ensures Valid() && AllSteady() && NoData(outs) && outs == Concat(resent) && |resent| == |conns|
      ensures forall i :: 0 <= i < |conns| ==>
                TimedOut(old(Look(conns[i])), Look(conns[i]), now, resent[i]) && Lasting(conns[i])
    {
      hide Conn.Valid, Valid, Steady, TimedOut;
      SizesHold();
      outs, resent := [], [];
      var k := 0;
      while k < |conns|
        invariant 0 <= k <= |conns| && Valid() && NoData(outs) && outs == Concat(resent) && |resent| == k
        invariant forall i :: 0 <= i < k ==>
                    TimedOut(old(Look(conns[i])), Look(conns[i]), now, resent[i]) && Lasting(conns[i])
        invariant forall i :: k <= i < |conns| ==> unchanged(conns[i])
      {
        var segs := TimerSlot(k, now);
        ConcatAppend(resent, segs);
        outs, resent := outs + segs, resent + [segs];
        k := k + 1;
      }
      LastingSteady();
    }

    method TimerSlot(k: nat, now: nat) returns (outs: seq<Segment>)
      requires Valid() && k < |conns|
      modifies conns[k]
      ensures Valid() && NoData(outs) && TimedOut(old(Look(conns[k])), Look(conns[k]), now, outs) && Lasting(conns[k])
      ensures forall i :: 0 <= i < |conns| && i != k ==> unchanged(conns[i])
    {
      hide Conn.Valid, Marked;
      conns[k].Numbered();
      outs := conns[k].Timer(now);
      SlotChanged(k);
    }

    /** tcp_output for every slot. */
    method RunOutput(now: nat) returns (outs: seq<Segment>, ghost bursts: seq<seq<Segment>>)
      requires Valid()
      modifies conns
      ensures Valid() && AllSteady() && outs == Concat(bursts) && |bursts| == |conns|
      ensures forall i :: 0 <= i < |conns| ==>
                SentOn(old(Look(conns[i])), Look(conns[i]), now, bursts[i]) && Lasting(conns[i])
    {
      hide Conn.Valid, Valid, Steady, View.Cut, SentOn;
      SizesHold();
      outs, bursts := [], [];
      var k := 0;
      while k < |conns|
        invariant 0 <= k <= |conns| && Valid() && |bursts| == k && outs == Concat(bursts)
        invariant forall i :: 0 <= i < k ==>
                    SentOn(old(Look(conns[i])), Look(conns[i]), now, bursts[i]) && Lasting(conns[i])
        invariant forall i :: k <= i < |conns| ==> unchanged(conns[i])
      {
        var segs := OutputSlot(k, now);
        ConcatAppend(bursts, segs);
        outs, bursts := outs + segs, bursts + [segs];
        k := k + 1;
      }
      LastingSteady();
    }

    method OutputSlot(k: nat, now: nat) returns (outs: seq<Segment>)
      requires Valid() && k < |conns|
      modifies conns[k]
      ensures Valid() && SentOn(old(Look(conns[k])), Look(conns[k]), now, outs) && Lasting(conns[k])
      ensures forall i :: 0 <= i < |conns| && i != k ==> unchanged(conns[i])
    {
      hide Conn.Valid, Marked, View.Cut;
      outs := conns[k].Output(now);
      conns[k].Numbered();
      SlotChanged(k);
    }
  }

  /** The broadcast bytes that went into the stream of a slot since it joined. */
  ghost function Cast(net: Net, i: nat): seq<byte>
    requires i < |net.conns| && i < |net.marks| && |net.marks[i]| == |net.conns[i].v.stream|
    reads net, net.conns
  {
    Marked(net.conns[i].v.stream, net.marks[i])
  }

  /** Any two admitted slots have been sent the same bytes since the later of them joined: what went into the one
      stream is a suffix of what went into the other. */
  lemma AdmittedAgree(net: Net, i: nat, j: nat)
    requires net.Valid() && i < |net.conns| && j < |net.conns|
    requires Net.Admitted(net.conns[i]) && Net.Admitted(net.conns[j]) && net.joined[i] <= net.joined[j]
    ensures |net.marks[i]| == |net.conns[i].v.stream| && |net.marks[j]| == |net.conns[j].v.stream|
    ensures |Cast(net, j)| <= |Cast(net, i)|
    ensures Cast(net, j) == Cast(net, i)[|Cast(net, i)| - |Cast(net, j)|..]
  {
    hide Marked;
    assert net.Agrees(i) && net.Agrees(j);
  }

  /** Over any stretch in which a slot stays admitted, its stream takes exactly the bytes accepted meanwhile: so any two
      such slots take the same. */
  twostate lemma CastSince(net: Net, i: nat)
    requires old(net.Valid()) && net.Valid() && i < |net.conns| && old(net.log) <= net.log
    requires old(Net.Admitted(net.conns[i])) && Net.Admitted(net.conns[i]) && net.Steady(i)
    ensures |net.marks[i]| == |net.conns[i].v.stream| && |old(net.marks[i])| == |old(net.conns[i].v.stream)|
    ensures Cast(net, i) == old(Cast(net, i)) + net.log[|old(net.log)|..]
  {
    hide Marked;
    assert net.Agrees(i) && old(net.Agrees(i));
    assert net.log == old(net.log) + net.log[|old(net.log)|..];
  }

  // ----- a peer that does not answer -----

  /** A handshake outlives a lost SYN|ACK only until the timer runs out. Then the number of the SYN is taken back and
      not counted again, so the peer's acknowledgement does not open the slot, and the timer never runs out again. */
  lemma HalfOpenStuck(m: Moment, r: Moment, now: nat, outs: seq<Segment>, seg: Segment, later: nat)
    requires TimedOut(m, r, now, outs) && m.tstate == SynRcvd && m.Due(now) && m.stalls < MAX_REXMIT
    requires seg.flags.ack && seg.ackno == (m.acked + 1) % TWO32 && m.acked < TWO32
    ensures r.tstate == SynRcvd && !r.Opens(seg) && !r.Due(later)
  {
  }

  /** Before that the same acknowledgement opens it. */
  lemma HalfOpenOpens(ms: seq<Moment>, rs: seq<Moment>, f: Frame, now: nat, outs: seq<Segment>, k: nat, seg: Segment)
    requires k < |ms| == |rs| && SynAnswered(ms, rs, f, now, outs, k)
    requires seg.flags.ack && seg.ackno == (outs[0].seqno + 1) % TWO32
    ensures rs[k].Opens(seg)
  {
  }

  /** Since the timer was armed at tick t0, the retransmission count and deadline have kept step, and the
      deadline is still ahead. The clock does not wrap. */
  ghost predicate Waiting(m: Moment, t0: nat, now: nat) {
    && m.tstate == Estab && m.v.Ok() && m.v.una < m.v.nxt
    && m.stalls <= MAX_REXMIT && now < m.at <= t0 + REXMIT_TICKS * (m.stalls + 1)
    && t0 <= now && t0 + REXMIT_TICKS * (MAX_REXMIT + 1) < TWO31
  }

  /** A poll later either the slot is gone, or an acknowledgement has advanced it, or it waits on, one retransmission
      further if that was due. */
  lemma PollWaits(ms: seq<Moment>, t: Trace, now: nat, frame: Option<Frame>, i: nat, r: Moment, burst: seq<Segment>,
      t0: nat)
    requires Took(ms, t, now, frame) && i < |ms| == |t.handled| && SentOn(t.handled[i], r, now, burst)
    requires now > 0 && Waiting(ms[i], t0, now - 1)
    ensures r.tstate != Estab || r.v.una > ms[i].v.una || (r.v.una == ms[i].v.una && Waiting(r, t0, now))
    ensures r.tstate == Estab ==> r.v.base == ms[i].v.base && r.v.una <= ms[i].v.una + SND_SZ
  {
    hide View.Cut, View.Replies, View.OnSegment, FinAck, SeqNo, Sub32;
    assert TimedOut(ms[i], t.timed[i], now, t.resent[i]);
    Deadline(now, ms[i].at);
    SmallMod(now + REXMIT_TICKS, TWO32);
  }

  /** Output and further writes change nothing about the wait. */
  lemma SendWaits(m: Moment, r: Moment, now: nat, burst: seq<Segment>, t0: nat)
    requires SentOn(m, r, now, burst) && Waiting(m, t0, now)
    ensures Waiting(r, t0, now) && r.v.una == m.v.una
  {
    hide View.Cut, SeqNo;
  }

  /** What a tick writes to the slots, one byte at a time. */
  method Write(net: Net, i: nat, writes: seq<(nat, byte)>, ghost t0: nat, ghost now: nat)
    requires net.Valid() && i < |net.conns| && Waiting(Net.Look(net.conns[i]), t0, now)
    modifies net`marks, net.conns, set c | c in net.conns :: c.sbuf
    ensures net.Valid() && Waiting(Net.Look(net.conns[i]), t0, now)
    ensures net.conns[i].v.una == old(net.conns[i].v.una)
  {
    hide Net.Valid;
    var j := 0;
    while j < |writes|
      invariant net.Valid() && Waiting(Net.Look(net.conns[i]), t0, now)
      invariant net.conns[i].v.una == old(net.conns[i].v.una)
    {
      var ok := net.PutSlot(writes[j].0, writes[j].1);
      net.Numbered(i);
      j := j + 1;
    }
  }

  /** Bounded reaping: from the tick its timer was armed, a slot whose peer acknowledges nothing new is gone after at
      most 25 * 9 ticks of polling, whatever frames arrive and whatever is written to any slot meanwhile. */
  method Reap(net: Net, i: nat, armed: nat, frames: nat -> Option<Frame>, writes: nat -> seq<(nat, byte)>)
    returns (now: nat)
    requires net.Valid() && i < |net.conns| && Waiting(Net.Look(net.conns[i]), armed, armed)
    requires forall t :: frames(t).Some? ==> frames(t).value.seg.seqno < TWO32 && frames(t).value.seg.ackno < TWO32
    modifies net`joined, net`marks, net.conns, set c | c in net.conns :: c.sbuf, set c | c in net.conns :: c.rbuf
    ensures net.Valid() && armed < now <= armed + REXMIT_TICKS * (MAX_REXMIT + 1)
    ensures net.conns[i].tstate != Estab || net.conns[i].v.una > old(net.conns[i].v.una)
  {
    hide Net.Valid, Took, SentOn;
    now := armed;
    ghost var una := net.conns[i].v.una;
    while true
      invariant net.Valid() && armed <= now <= armed + REXMIT_TICKS * (MAX_REXMIT + 1)
      invariant Waiting(Net.Look(net.conns[i]), armed, now) && net.conns[i].v.una == una
      decreases armed + REXMIT_TICKS * (MAX_REXMIT + 1) - now
    {
      now := now + 1;
      ghost var ms, before := net.Looks(), net.conns[i].v;
      var acked := net.conns[i].snd_una;
      net.Numbered(i);
      var outs, t := net.Poll(now, frames(now));
      PollWaits(ms, t, now, frames(now), i, Net.Look(net.conns[i]), t.bursts[i], armed);
      if net.conns[i].tstate != Estab {
        return;
      }
      net.Numbered(i);
      SameNumber(before.base, before.una, net.conns[i].v.una);
      if net.conns[i].snd_una != acked {
        return;
      }
      Write(net, i, writes(now), armed, now);
      ghost var m := Net.Look(net.conns[i]);
      ghost var bursts;
      outs, bursts := net.RunOutput(now);
      SendWaits(m, Net.Look(net.conns[i]), now, bursts[i], armed);
    }
  }

  lemma Deadline(now: nat, at: nat)
    requires now < TWO31 && at < TWO31
    ensures Sub32(now, at) < TWO31 <==> at <= now
  {
    SmallMod(now - at, TWO32);
  }
}
