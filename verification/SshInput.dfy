/** The byte-fed front end of the SSH server (dosshd/ssh.c): ssh_input, the version exchange and packet decoding over
    one accumulation buffer, and the theorem that the way bytes are cut into calls does not matter. */
module SshInput {
  import opened Bytes
  import opened SshWire
  import opened SshRecord
  import opened SshServer
  import opened SshRuns
  import opened SshSafety

  const LF: byte := 0x0a
  const CR: byte := 0x0d
  const MAX_LINE := 300

  /** A connection and its accumulation buffer. `seen` is the history of dispatched payloads. */
  datatype Slot = Slot(w: World, ib: seq<byte>, seen: seq<seq<byte>>)

  datatype Outcome = Wait | Failed(w: World) | Progress(next: Slot)

  // ----- the version exchange -----

  /** Index of the first line feed, or the length. */
  function LineEnd(ib: seq<byte>): (i: nat)
    ensures i <= |ib| && (i < |ib| ==> ib[i] == LF) && forall k :: 0 <= k < i ==> ib[k] != LF
  {
    if |ib| == 0 then 0 else if ib[0] == LF then 0 else 1 + LineEnd(ib[1..])
  }

  lemma LineEndUnique(ib: seq<byte>, i: nat)
    requires i < |ib| && ib[i] == LF && forall k :: 0 <= k < i ==> ib[k] != LF
    ensures LineEnd(ib) == i
  {
  }

  function TrimCr(line: seq<byte>): (r: seq<byte>)
    ensures |r| <= |line|
  {
    if |line| > 0 && line[|line| - 1] == CR then line[..|line| - 1] else line
  }

  /** What a complete line does: a client's identification moves the connection on, any other line is skipped. */
  function TakeLine(h: Host, w: World, line: seq<byte>): World
    requires w.Shaped()
  {
    var t := TrimCr(line);
    if Ascii("SSH-") <= t then Apply(h, w, Hello(if |t| < 255 then t else t[..255])) else w
  }

  /** try_version. */
  function TryVersion(h: Host, s: Slot): (r: Outcome)
    requires s.w.Shaped()
    ensures r.Progress? ==> |r.next.ib| < |s.ib|
  {
    var i := LineEnd(s.ib);
    if i < |s.ib| && i <= MAX_LINE + 1 then Progress(s.(w := TakeLine(h, s.w, s.ib[..i]), ib := s.ib[i + 1..]))
    else if |s.ib| > MAX_LINE + 1 then Failed(Fail(s.w))
    else Wait
  }

  /** A line of the version exchange (section 4.2 of RFC 4253), ended by CR LF or, from an older client, by LF alone: an
      identification of up to 255 characters is taken as it stands, without its ending; any other line is skipped; one
      of more than 300 characters and its CR is fatal. */
  lemma LineTaken(h: Host, s: Slot, line: seq<byte>, cr: bool, rest: seq<byte>)
    requires s.w.Shaped() && s.w.phase == Version && LF !in line && (|line| > 0 ==> line[|line| - 1] != CR)
    requires s.ib == line + (if cr then [CR, LF] else [LF]) + rest
    ensures var r, n := TryVersion(h, s), |line| + if cr then 1 else 0;
            if n > MAX_LINE + 1 then r == Failed(Fail(s.w))
            else
              && r.Progress? && r.next.ib == rest && r.next.seen == s.seen
              && if Ascii("SSH-") <= line then
                   && r.next.w.phase == ExpectKexinit
                   && (|line| <= 255 ==> r.next.w == s.w.(x := s.w.x.(cliVer := line), phase := ExpectKexinit))
                 else r.next.w == s.w
  {
    hide Ascii, Fail, TakeLine;
    var n := |line| + if cr then 1 else 0;
    LineEndUnique(s.ib, n);
    assert s.ib[n + 1..] == rest && s.ib[..n] == line + if cr then [CR] else [];
    Identified(h, s.w, line, cr);
  }

  lemma Identified(h: Host, w: World, line: seq<byte>, cr: bool)
    requires w.Shaped() && w.phase == Version && (|line| > 0 ==> line[|line| - 1] != CR)
    ensures var r := TakeLine(h, w, line + if cr then [CR] else []);
            if Ascii("SSH-") <= line then
              && r.phase == ExpectKexinit
              && (|line| <= 255 ==> r == w.(x := w.x.(cliVer := line), phase := ExpectKexinit))
            else r == w
  {
    hide Ascii;
    assert TrimCr(line + if cr then [CR] else []) == line;
    assert |line| == 255 ==> line[..255] == line;
  }

  // ----- packets -----

  function Decode(h: Host, s: Slot): (r: Opened)
    requires s.w.Shaped()
    ensures r.Packet? ==> 5 <= r.size <= |s.ib| && |r.payload| <= SSH_IB_SZ
  {
    if s.w.k.recvEnc then Open(h.keystream, s.w.k.c2s, s.w.recvSeq, s.ib) else OpenPlain(s.ib)
  }

  /** try_packet. */
  function TryPacket(h: Host, s: Slot): (r: Outcome)
    requires s.w.Shaped()
    ensures r.Progress? ==> |r.next.ib| < |s.ib|
  {
    match Decode(h, s)
    case More => Wait
    case Bad => Failed(Fail(s.w))
    case Packet(pl, size) => Progress(Slot(Apply(h, s.w, Arrive(pl)), s.ib[size..], s.seen + [pl]))
  }

  predicate Stopped(p: Phase) {
    p == Closed || p == Error
  }

  function Step(h: Host, s: Slot): (r: Outcome)
    requires s.w.Shaped()
    ensures r.Progress? ==> |r.next.ib| < |s.ib|
  {
    if s.w.phase == Version then TryVersion(h, s) else TryPacket(h, s)
  }

  lemma StepInv(h: Host, s: Slot)
    requires Inv(s.w)
    ensures Step(h, s).Progress? ==> Keeps(h, s.w, Step(h, s).next.w) && Inv(Step(h, s).next.w)
    ensures Step(h, s).Failed? ==> Keeps(h, s.w, Step(h, s).w) && Step(h, s).w.phase == Error
  {
    hide SealInv, FlowInv, GateInv, Keeps, Apply, Decode, LineEnd, Fail, TrimCr;
    Ignored(h, s.w);
    FailKeeps(h, s.w);
    if s.w.phase == Version {
      var t := TrimCr(s.ib[..LineEnd(s.ib)]);
      PlainStepKeeps(h, s.w, Hello(if |t| < 255 then t else t[..255]));
    } else if Decode(h, s).Packet? {
      ArriveKeeps(h, s.w, Decode(h, s).payload);
    }
    if Step(h, s).Progress? {
      OpenedInv(h, s.w, Step(h, s).next.w);
    }
  }

  /** The loop of ssh_input. */
  function Pump(h: Host, s: Slot): (r: Slot)
    requires Inv(s.w)
    ensures Inv(r.w) && |r.ib| <= |s.ib|
    decreases |s.ib|
  {
    if Stopped(s.w.phase) then s
    else
      StepInv(h, s);
      match Step(h, s)
      case Wait => s
      case Failed(w) => OpenedInv(h, s.w, w); s.(w := w)
      case Progress(next) => Pump(h, next)
  }

  /** ssh_input. */
  function Input(h: Host, s: Slot, data: seq<byte>): (r: Slot)
    requires Inv(s.w)
    ensures Inv(r.w) && |r.ib| <= |s.ib| + |data|
  {
    if s.w.phase == Error then s
    else if |s.ib| + |data| > SSH_IB_SZ then FailKeeps(h, s.w); OpenedInv(h, s.w, Fail(s.w)); s.(w := Fail(s.w))
    else Pump(h, s.(ib := s.ib + data))
  }

  /** Input keeps every invariant: keys, gate, credit, and a stream that the client can read. */
  lemma {:induction false} PumpKeeps(h: Host, s: Slot)
    requires Inv(s.w)
    ensures Keeps(h, s.w, Pump(h, s).w)
    decreases |s.ib|
  {
    hide Step, Inv, Keeps;
    Ignored(h, s.w);
    ShapedSlot(s.w);
    if !Stopped(s.w.phase) {
      StepInv(h, s);
      if Step(h, s).Progress? {
        PumpKeeps(h, Step(h, s).next);
        KeepsTransitive(h, s.w, Step(h, s).next.w, Pump(h, s).w);
      }
    }
  }

  lemma InputKeeps(h: Host, s: Slot, data: seq<byte>)
    requires Inv(s.w)
    ensures Keeps(h, s.w, Input(h, s, data).w)
  {
    hide Inv, Keeps, Pump, Fail;
    Ignored(h, s.w);
    FailKeeps(h, s.w);
    PumpKeeps(h, s.(ib := s.ib + data));
  }

  // ----- chunking -----

  /** The same state, dispatched payloads and output; once failed, what lies unread in the buffer is moot. */
  predicate Same(a: Slot, b: Slot) {
    a.w == b.w && a.seen == b.seen && (a.w.phase != Error ==> a.ib == b.ib)
  }

  lemma VersionStable(h: Host, s: Slot, more: seq<byte>)
    requires s.w.Shaped() && TryVersion(h, s) != Wait
    ensures var r, big := TryVersion(h, s), TryVersion(h, s.(ib := s.ib + more));
            && (r.Failed? ==> big == r)
            && (r.Progress? ==> big == Progress(r.next.(ib := r.next.ib + more)))
  {
    hide TakeLine, Fail;
    var i := LineEnd(s.ib);
    var all := s.ib + more;
    if i < |s.ib| {
      LineEndUnique(all, i);
      assert all[..i] == s.ib[..i] && all[i + 1..] == s.ib[i + 1..] + more;
    } else {
      assert forall k :: 0 <= k < |s.ib| ==> all[k] == s.ib[k];
      NoLineEnd(all, |s.ib|);
    }
  }

  lemma PacketStable(h: Host, s: Slot, more: seq<byte>)
    requires s.w.Shaped() && TryPacket(h, s) != Wait
    ensures var r, big := TryPacket(h, s), TryPacket(h, s.(ib := s.ib + more));
            && (r.Failed? ==> big == r)
            && (r.Progress? ==> big == Progress(r.next.(ib := r.next.ib + more)))
  {
    hide Apply, Fail, Open, OpenPlain;
    if s.w.k.recvEnc {
      OpenStable(h.keystream, s.w.k.c2s, s.w.recvSeq, s.ib, more);
    } else {
      OpenPlainStable(s.ib, more);
    }
    var d := Decode(h, s);
    if d.Packet? {
      assert (s.ib + more)[d.size..] == s.ib[d.size..] + more;
    }
  }

  /** A step once possible is the same step whatever has arrived behind it. */
  lemma StepStable(h: Host, s: Slot, more: seq<byte>)
    requires s.w.Shaped() && Step(h, s) != Wait
    ensures var r, big := Step(h, s), Step(h, s.(ib := s.ib + more));
            && (r.Failed? ==> big == r)
            && (r.Progress? ==> big == Progress(r.next.(ib := r.next.ib + more)))
  {
    hide TryVersion, TryPacket;
    if s.w.phase == Version {
      VersionStable(h, s, more);
    } else {
      PacketStable(h, s, more);
    }
  }

  /** Pumping first and appending later, or appending first: the same. */
  lemma {:induction false} PumpLater(h: Host, s: Slot, more: seq<byte>)
    requires Inv(s.w)
    ensures var r := Pump(h, s);
            && (r.w.phase == Error ==> Same(Pump(h, s.(ib := s.ib + more)), r))
            && (r.w.phase != Error ==> Pump(h, s.(ib := s.ib + more)) == Pump(h, r.(ib := r.ib + more)))
    decreases |s.ib|
  {
    hide Step, SealInv, FlowInv, GateInv;
    if Stopped(s.w.phase) || Step(h, s) == Wait {
    } else {
      StepInv(h, s);
      StepStable(h, s, more);
      if Step(h, s).Progress? {
        PumpLater(h, Step(h, s).next, more);
      }
    }
  }

  lemma TwoChunks(h: Host, s: Slot, a: seq<byte>, b: seq<byte>)
    requires Inv(s.w) && |s.ib| + |a| + |b| <= SSH_IB_SZ
    ensures Same(Input(h, Input(h, s, a), b), Input(h, s, a + b))
  {
    hide Inv, Pump;
    if s.w.phase != Error {
      var t := s.(ib := s.ib + a);
      PumpLater(h, t, b);
      assert s.ib + a + b == s.ib + (a + b);
    }
  }

  function InputAll(h: Host, s: Slot, chunks: seq<seq<byte>>): (r: Slot)
    requires Inv(s.w)
    ensures Inv(r.w)
  {
    if |chunks| == 0 then s else Input(h, InputAll(h, s, chunks[..|chunks| - 1]), chunks[|chunks| - 1])
  }

  /** Chunking independence: however the bytes are cut into calls, the state, the payloads dispatched and the output
      are those of one call. Output overflow need not be excluded: it, too, happens at the same packet. */
  lemma {:induction false} ChunkingIndependent(h: Host, s: Slot, chunks: seq<seq<byte>>)
    requires Inv(s.w) && |chunks| > 0 && |s.ib| + |Flatten(chunks)| <= SSH_IB_SZ
    ensures Same(InputAll(h, s, chunks), Input(h, s, Flatten(chunks)))
  {
    hide Inv, Pump;
    var n := |chunks| - 1;
    var front, last := chunks[..n], chunks[n];
    if n == 0 {
      assert front == [];
      assert Flatten(chunks) == [] + last == last;
    } else {
      ChunkingIndependent(h, s, front);
      TwoChunks(h, s, Flatten(front), last);
    }
  }

  // ----- input as events -----

  /** Whatever bytes arrive, all they can do to a connection is a sequence of events: every theorem about runs is a
      theorem about inputs. */
  lemma PumpIsRun(h: Host, s: Slot) returns (ws: seq<World>, es: seq<Event>)
    requires Inv(s.w)
    ensures Steps(h, ws, es) && ws[0] == s.w && ws[|es|] == Pump(h, s).w
  {
    hide Inv, Step, Apply, Allowed, Steps;
    var t := s;
    ws, es := [t.w], [];
    NoSteps(h, t.w);
    StepsLength(h, ws, es);
    ShapedSlot(t.w);
    while !Stopped(t.w.phase) && Step(h, t).Progress?
      invariant Steps(h, ws, es) && |ws| == |es| + 1 && ws[0] == s.w && ws[|es|] == t.w && Inv(t.w) && t.w.Shaped()
      invariant Pump(h, t) == Pump(h, s)
      decreases |t.ib|
    {
      StepInv(h, t);
      var next := Step(h, t).next;
      ShapedSlot(next.w);
      if next.w != t.w {
        var e := StepEvent(h, t);
        StepsAppend(h, ws, es, e, next.w);
        ws, es := ws + [next.w], es + [e];
      }
      t := next;
    }
    if !Stopped(t.w.phase) && Step(h, t).Failed? {
      FailEvent(h, t);
      StepsAppend(h, ws, es, Breakdown, Step(h, t).w);
      ws, es := ws + [Step(h, t).w], es + [Breakdown];
    }
  }

  lemma NoSteps(h: Host, w: World)
    ensures Steps(h, [w], [])
  {
  }

  lemma StepsLength(h: Host, ws: seq<World>, es: seq<Event>)
    requires Steps(h, ws, es)
    ensures |ws| == |es| + 1
  {
  }

  lemma ShapedSlot(w: World)
    requires Inv(w)
    ensures w.Shaped()
  {
  }

  lemma StepEvent(h: Host, s: Slot) returns (e: Event)
    requires s.w.Shaped() && Step(h, s).Progress? && Step(h, s).next.w != s.w
    ensures Allowed(e) && Step(h, s).next.w == Apply(h, s.w, e)
  {
    hide Apply, Decode, LineEnd, TrimCr;
    if s.w.phase == Version {
      var t := TrimCr(s.ib[..LineEnd(s.ib)]);
      e := Hello(if |t| < 255 then t else t[..255]);
    } else {
      e := Arrive(Decode(h, s).payload);
    }
  }

  lemma FailEvent(h: Host, s: Slot)
    requires s.w.Shaped() && Step(h, s).Failed?
    ensures Allowed(Breakdown) && Step(h, s).w == Apply(h, s.w, Breakdown)
  {
    hide Decode, LineEnd, Fail;
  }

  // ----- the code -----

  class Connection {
    const h: Host
    const ib: array<byte>
    var ib_len: nat
    var w: World
    ghost var seen: seq<seq<byte>>

    ghost predicate Valid()
      reads this
    {
      ib.Length == SSH_IB_SZ && ib_len <= SSH_IB_SZ && Inv(w)
    }

    ghost function View(): Slot
      requires ib_len <= ib.Length
      reads this, ib
    {
      Slot(w, ib[..ib_len], seen)
    }

    constructor (h: Host, drawn: nat)
      ensures Valid() && View() == Slot(Reset(h, drawn), [], []) && this.h == h && fresh(ib)
    {
      hide Inv, Reset;
      this.h := h;
      ib := new byte[SSH_IB_SZ](_ => 0);
      ib_len := 0;
      w := Reset(h, drawn);
      seen := [];
      new;
      ResetInv(h, drawn);
    }

    /** ib_consume. */
    method Consume(k: nat)
      requires ib_len <= ib.Length && k <= ib_len
      modifies this`ib_len, ib
      ensures ib_len <= ib.Length && ib[..ib_len] == old(ib[k..ib_len])
    {
      var i := k;
      while i < ib_len
        invariant k <= i <= ib_len == old(ib_len)
        invariant forall j :: 0 <= j < i - k ==> ib[j] == old(ib[k + j])
        invariant forall j :: i - k <= j < ib.Length ==> ib[j] == old(ib[j])
      {
        ib[i - k] := ib[i];
        i := i + 1;
      }
      ib_len := ib_len - k;
    }

    /** try_version: scan for the end of a line, giving up past the length limit. */
    method ScanVersion() returns (r: int)
      requires Valid()
      modifies this`ib_len, this`w, ib
      ensures Valid() && -1 <= r <= 1
      ensures r == 0 ==> TryVersion(h, old(View())) == Wait && View() == old(View())
      ensures r == 1 ==> TryVersion(h, old(View())) == Progress(View())
      ensures r == -1 ==> TryVersion(h, old(View())) == Failed(w) && View() == old(View()).(w := w)
    {
      hide Inv, TakeLine, Fail;
      ShapedSlot(w);
      ghost var s := View();
      var i := 0;
      while i < ib_len
        invariant 0 <= i <= ib_len && forall k :: 0 <= k < i ==> ib[k] != LF
        invariant i <= MAX_LINE + 1
      {
        if ib[i] == LF {
          assert LineEnd(s.ib) == i by { LineEndUnique(s.ib, i); }
          LineKeeps(h, s);
          w := TakeLine(h, w, ib[..i]);
          assert ib[..i] == s.ib[..i];
          Consume(i + 1);
          return 1;
        }
        if i > MAX_LINE {
          assert LineEnd(s.ib) > i by { NoLineEnd(s.ib, i + 1); }
          FailKeeps(h, w);
          OpenedInv(h, w, Fail(w));
          w := Fail(w);
          return -1;
        }
        i := i + 1;
      }
      assert LineEnd(s.ib) == |s.ib| by { NoLineEnd(s.ib, i); }
      return 0;
    }

    /** try_packet. */
    method ScanPacket() returns (r: int)
      requires Valid() && w.phase != Version
      modifies this`ib_len, this`w, this`seen, ib
      ensures Valid() && -1 <= r <= 1
      ensures r == 0 ==> TryPacket(h, old(View())) == Wait && View() == old(View())
      ensures r == 1 ==> TryPacket(h, old(View())) == Progress(View())
      ensures r == -1 ==> TryPacket(h, old(View())) == Failed(w) && View() == old(View()).(w := w)
    {
      hide Inv, Apply, Fail, Decode;
      ShapedSlot(w);
      ghost var s := View();
      StepInv(h, s);
      var d := Decode(h, Slot(w, ib[..ib_len], []));
      assert d == Decode(h, s) by { DecodeSeen(h, w, ib[..ib_len], seen); }
      if d.More? {
        return 0;
      } else if d.Bad? {
        FailKeeps(h, w);
        OpenedInv(h, w, Fail(w));
        w := Fail(w);
        return -1;
      }
      w := Apply(h, w, Arrive(d.payload));
      seen := seen + [d.payload];
      assert s.ib[d.size..] == ib[d.size..ib_len];
      Consume(d.size);
      return 1;
    }

    /** ssh_input. */
    method Feed(data: seq<byte>) returns (r: int)
      requires Valid()
      modifies this`ib_len, this`w, this`seen, ib
      ensures Valid() && View() == Input(h, old(View()), data)
      ensures r == if w.phase == Error then -1 else 0
    {
      hide Inv, Step, Fail;
      if w.phase == Error {
        return -1;
      }
      if ib_len + |data| > SSH_IB_SZ {
        FailKeeps(h, w);
        OpenedInv(h, w, Fail(w));
        w := Fail(w);
        return -1;
      }
      Append(data);
      ghost var start := View();
      while w.phase != Error && w.phase != Closed
        invariant Valid() && Pump(h, View()) == Pump(h, start)
        decreases ib_len
      {
        ghost var s := View();
        ShapedSlot(w);
        if w.phase == Version {
          StepVersion(h, s);
          r := ScanVersion();
        } else {
          StepPacket(h, s);
          r := ScanPacket();
        }
        if r <= 0 {
          break;
        }
      }
      r := if w.phase == Error then -1 else 0;
    }

    method Append(data: seq<byte>)
      requires ib_len + |data| <= ib.Length
      modifies this`ib_len, ib
      ensures ib_len <= ib.Length && ib[..ib_len] == old(ib[..ib_len]) + data
    {
      var i := 0;
      var n := ib_len;
      while i < |data|
        invariant 0 <= i <= |data| && ib_len == n
        invariant ib[..n + i] == old(ib[..ib_len]) + data[..i]
      {
        ib[n + i] := data[i];
        i := i + 1;
      }
      ib_len := n + |data|;
      assert data[..i] == data;
    }
  }

  lemma StepVersion(h: Host, s: Slot)
    requires s.w.Shaped() && s.w.phase == Version
    ensures Step(h, s) == TryVersion(h, s)
  {
    hide TryVersion, TryPacket;
  }

  lemma StepPacket(h: Host, s: Slot)
    requires s.w.Shaped() && s.w.phase != Version
    ensures Step(h, s) == TryPacket(h, s)
  {
    hide TryVersion, TryPacket;
  }

  lemma DecodeSeen(h: Host, w: World, ib: seq<byte>, seen: seq<seq<byte>>)
    requires w.Shaped()
    ensures Decode(h, Slot(w, ib, [])) == Decode(h, Slot(w, ib, seen))
  {
  }

  lemma NoLineEnd(ib: seq<byte>, i: nat)
    requires i <= |ib| && forall k :: 0 <= k < i ==> ib[k] != LF
    ensures LineEnd(ib) >= i
  {
  }

  lemma LineKeeps(h: Host, s: Slot)
    requires Inv(s.w)
    ensures Inv(TakeLine(h, s.w, s.ib[..LineEnd(s.ib)]))
  {
    hide SealInv, FlowInv, GateInv, Sound, Repeats, Apply, LineEnd, TrimCr;
    var t := TrimCr(s.ib[..LineEnd(s.ib)]);
    StepKeeps(h, s.w, Hello(if |t| < 255 then t else t[..255]));
  }
}
