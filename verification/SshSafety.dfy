/** Theorems over whole runs of the SSH server (dosshd/ssh.c): any sequence of packets, decoding failures and
    calls, from the reset of a connection on. */
module SshSafety {
  import opened Bytes
  import opened SshWire
  import opened SshRecord
  import opened SshServer
  import opened SshAuth
  import opened SshRuns
  import opened SshClient

  /** The states of a connection through a sequence of events. */
  ghost predicate IsRun(h: Host, ws: seq<World>, es: seq<Event>) {
    Steps(h, ws, es) && exists drawn: nat :: ws[0] == Reset(h, drawn)
  }

  // ----- the beginning -----

  lemma KexinitLength(cookie: seq<byte>)
    requires |cookie| == 16
    ensures |OurKexinit(cookie)| == 193
  {
    hide Ascii, Str;
  }

  lemma ResetInv(h: Host, drawn: nat)
    ensures var w := Reset(h, drawn);
            Inv(w) && FlowInv(w.ch) && w.phase == Version && !w.a.authenticated && w.io.cin == []
                && w.io.log == [] && !w.k.ready && w.ch.out == [] && w.io.sent == [] && Readable(h, w)
  {
    hide OurKexinit, Ascii, SendUnenc;
    KexinitLength(h.Random(drawn, 16));
  }

  lemma ResetSize(h: Host, drawn: nat)
    ensures |Reset(h, drawn).io.ob| <= 400
  {
    hide OurKexinit, BeBytes, Ascii;
    KexinitLength(h.Random(drawn, 16));
  }

  // ----- invariants of every run -----

  lemma {:induction false} RunKeepsInv(h: Host, ws: seq<World>, es: seq<Event>, n: nat)
    requires IsRun(h, ws, es) && n <= |es|
    ensures Inv(ws[n])
  {
    hide Inv, Apply, Reset, Allowed;
    if n == 0 {
      var drawn: nat :| ws[0] == Reset(h, drawn);
      ResetInv(h, drawn);
    } else {
      RunKeepsInv(h, ws, es, n - 1);
      ShapedNow(ws[n - 1]);
      StepKeeps(h, ws[n - 1], es[n - 1]);
    }
  }

  lemma ShapedNow(w: World)
    requires Inv(w)
    ensures w.Shaped()
  {
  }

  /** Nothing is ever undone: between any two moments of a run the phase does not move back, keys once derived are
      not derived again, and the sealed and sent histories only grow. */
  lemma {:induction false} RunForward(h: Host, ws: seq<World>, es: seq<Event>, i: nat, j: nat)
    requires IsRun(h, ws, es) && i <= j <= |es|
    ensures Forward(ws[i], ws[j])
    decreases j - i
  {
    hide Inv, Apply, Reset, Allowed;
    if i == j {
    } else {
      RunForward(h, ws, es, i, j - 1);
      RunKeepsInv(h, ws, es, j - 1);
      ShapedNow(ws[j - 1]);
      StepKeeps(h, ws[j - 1], es[j - 1]);
      ForwardTransitive(ws[i], ws[j - 1], ws[j]);
    }
  }

  // ----- authentication -----

  /** Whoever is authenticated sent a justified request while the server was authenticating. */
  lemma {:induction false} WhoAuthenticated(h: Host, ws: seq<World>, es: seq<Event>, n: nat) returns (i: nat)
    requires IsRun(h, ws, es) && n <= |es| && ws[n].a.authenticated
    ensures i < n && es[i].Arrive? && ws[i].phase == Auth && !ws[i].a.authenticated
    ensures Justified(h, ws[i].k.session, es[i].payload)
  {
    hide Inv, Apply, Reset, Allowed, Justified;
    if n == 0 {
      var drawn: nat :| ws[0] == Reset(h, drawn);
      ResetInv(h, drawn);
    } else if ws[n - 1].a.authenticated {
      i := WhoAuthenticated(h, ws, es, n - 1);
    } else {
      i := n - 1;
      RunKeepsInv(h, ws, es, i);
      ShapedNow(ws[i]);
      StepGate(h, ws[i], es[i]);
    }
  }

  /** Until then no keystroke is taken, no channel opens, and fewer than three failures have been counted; the
      authenticating packet itself types nothing. */
  lemma BeforeAuthentication(h: Host, ws: seq<World>, es: seq<Event>, n: nat)
    requires IsRun(h, ws, es) && n <= |es| && !ws[n].a.authenticated
    ensures ws[n].io.cin == [] && !ws[n].ch.isOpen && ws[n].phase != Session
    ensures ws[n].phase == Auth ==> ws[n].a.fails < SSH_MAX_AUTH_TRIES
    ensures n < |es| ==> ws[n + 1].io.cin == []
  {
    hide Apply, Reset, Allowed, SealInv, FlowInv;
    RunKeepsInv(h, ws, es, n);
    if n < |es| {
      AuthTypesNothing(h, ws[n], es[n]);
    }
  }

  // ----- nonces -----

  /** No two packets of a connection of fewer than 2^32 packets are sealed under the same key and nonce; indeed
      there is only ever one key. */
  lemma NonceNeverReused(h: Host, ws: seq<World>, es: seq<Event>, i: nat, j: nat)
    requires IsRun(h, ws, es) && i < j < |ws[|es|].io.log| && ws[|es|].io.packets <= U32_LIMIT
    ensures var log := ws[|es|].io.log;
            log[i].key == log[j].key == ws[|es|].k.s2c && Nonce(log[i].number) != Nonce(log[j].number)
  {
    hide Apply, Reset, Allowed, Nonce;
    RunKeepsInv(h, ws, es, |es|);
    var log := ws[|es|].io.log;
    if Nonce(log[i].number) == Nonce(log[j].number) {
      NonceInjective(log[i].number, log[j].number);
    }
  }

  // ----- flow control -----

  /** Flow control lasts as long as no flush repeats itself. */
  lemma {:induction false} RunKeepsFlow(h: Host, ws: seq<World>, es: seq<Event>, n: nat)
    requires IsRun(h, ws, es) && n <= |es| && forall i :: 0 <= i < n ==> !Overspends(ws[i], es[i])
    ensures FlowInv(ws[n].ch)
  {
    hide Inv, Apply, Reset, Allowed, Overspends, FlowInv, Forward;
    if n == 0 {
      var drawn: nat :| ws[0] == Reset(h, drawn);
      ResetInv(h, drawn);
    } else {
      RunKeepsFlow(h, ws, es, n - 1);
      RunKeepsInv(h, ws, es, n - 1);
      ShapedNow(ws[n - 1]);
      StepKeeps(h, ws[n - 1], es[n - 1]);
    }
  }

  /** The channel data sent never exceeds the credit granted; our own window stays half open and is exactly the credit
      the client has left. The condition is the exact one of SpendIff on each event, and cannot be dropped: see
      SshOverrun. */
  lemma FlowControl(h: Host, ws: seq<World>, es: seq<Event>, n: nat)
    requires IsRun(h, ws, es) && n <= |es| && ws[n].ch.isOpen && forall i :: 0 <= i < n ==> !Overspends(ws[i], es[i])
    ensures |ws[n].ch.out| + ws[n].ch.peerWindow <= ws[n].ch.granted
    ensures SSH_LOCAL_WINDOW / 2 <= ws[n].ch.localWindow <= SSH_LOCAL_WINDOW
    ensures ws[n].ch.offered == ws[n].ch.taken + ws[n].ch.localWindow
  {
    hide Apply, Reset, Allowed, Inv, Overspends;
    RunKeepsFlow(h, ws, es, n);
  }

  // ----- the client -----

  lemma {:induction false} RunReadable(h: Host, ws: seq<World>, es: seq<Event>, n: nat)
    requires IsRun(h, ws, es) && n <= |es| && forall i :: 0 <= i < n ==> !Overtakes(ws[i], es[i])
    ensures Readable(h, ws[n])
  {
    hide Inv, Apply, Reset, Allowed, Overspends, Overtakes, FlowInv, Forward, Readable;
    if n == 0 {
      var drawn: nat :| ws[0] == Reset(h, drawn);
      ResetInv(h, drawn);
    } else {
      RunReadable(h, ws, es, n - 1);
      RunKeepsInv(h, ws, es, n - 1);
      ShapedNow(ws[n - 1]);
      StepKeeps(h, ws[n - 1], es[n - 1]);
    }
  }

  /** Delivery: in every run in which no record overtakes the queue, a client that opens the bytes sent since encryption
      began has read the payloads sealed so far, in order and from the first; it has read all of them exactly when the
      queue is empty, and then expects the server's next number. */
  lemma ClientInStep(h: Host, ws: seq<World>, es: seq<Event>, n: nat)
    requires IsRun(h, ws, es) && n <= |es| && forall i :: 0 <= i < n ==> !Overtakes(ws[i], es[i])
    requires ws[n].k.sendEnc && !ws[n].err && ws[n].io.mark <= |ws[n].io.sent|
    ensures |ws[n].k.s2c| == 64
    ensures var w := ws[n];
            var r := ClientReads(h.keystream, w.k.s2c, First(w.io.log, w.sendSeq), w.io.sent[w.io.mark..]);
            && r.payloads <= Payloads(w.io.log)
            && (r.payloads == Payloads(w.io.log) <==> w.io.ob == [])
            && (w.io.ob == [] ==> r.rest == [] && r.num == w.sendSeq)
  {
    hide Apply, Reset, Allowed, Inv, Overtakes, ClientReads, Readable;
    RunKeepsInv(h, ws, es, n);
    ShapedNow(ws[n]);
    RunReadable(h, ws, es, n);
    ClientHasRead(h, ws[n]);
  }
}
