/** The order of a session and the client's side of the record layer (dosshd/ssh.c): phases advance one at a time, each
    on its own message, and the packets dispatched are those the client sealed, in order, numbered from its first. */
module SshOrder {
  import opened Bytes
  import opened SshWire
  import opened SshRecord
  import opened SshKex
  import opened SshServer
  import opened SshRuns
  import opened SshSafety
  import opened SshInput

  // ----- the order of a session -----

  /** The message that brings the connection to a phase. */
  predicate Leads(e: Event, rank: nat) {
    match rank
    case 1 => e.Hello?
    case 2 => Is(e, MSG_KEXINIT)
    case 3 => Is(e, MSG_KEX_ECDH_INIT)
    case 4 => Is(e, MSG_NEWKEYS)
    case 5 => Is(e, MSG_SERVICE_REQUEST)
    case 6 => Is(e, MSG_USERAUTH_REQUEST)
    case _ => false
  }

  predicate Is(e: Event, msg: byte) {
    e.Arrive? && |e.payload| > 0 && e.payload[0] == msg
  }

  /** A phase of the session is left only for the next one, on its message, or for the end. */
  lemma StepOrder(h: Host, w: World, e: Event)
    requires Inv(w) && Allowed(e)
    ensures var r := Apply(h, w, e);
            r.phase != w.phase && Rank(r.phase) <= 6 ==> Rank(r.phase) == Rank(w.phase) + 1 && Leads(e, Rank(r.phase))
  {
    hide Inv, HandlePacket, Flush, Emit, Close;
    InvShaped(w);
    StepKeeps(h, w, e);
    match e {
      case Arrive(pl) => if Dispatching(w.phase) { PacketOrder(h, w, pl); }
      case DoFlush => FlushPhase(h, w);
      case DoEmit(plain, outmax) => EmitPhase(h, w, plain, outmax);
      case DoClose => ClosePhase(h, w);
      case _ =>
    }
  }

  lemma EmitPhase(h: Host, w: World, plain: seq<byte>, outmax: nat)
    requires w.Shaped()
    ensures Emit(h, w, plain, outmax).0.phase == w.phase && Apply(h, w, DoEmit(plain, outmax)).phase == w.phase
  {
    hide Wire, DataPacket;
  }

  lemma SendPhase(h: Host, w: World, payload: seq<byte>)
    requires w.Shaped()
    ensures Send(h, w, payload).phase == w.phase || Send(h, w, payload).phase == Error
  {
    hide Send;
  }

  lemma DataPhase(h: Host, w: World, data: seq<byte>)
    requires w.Shaped()
    ensures SendData(h, w, data).phase == w.phase || SendData(h, w, data).phase == Error
  {
    hide Send, DataPacket;
    SendPhase(h, w, DataPacket(w.ch, data));
  }

  lemma {:induction false} FlushFromPhase(h: Host, w: World, sent: nat)
    requires w.Shaped() && sent <= |w.io.cout|
    ensures FlushFrom(h, w, sent).0.phase == w.phase || FlushFrom(h, w, sent).0.phase == Error
    decreases |w.io.cout| - sent
  {
    hide FlushFrom, Allowance, SendData, Paid;
    FlushUnfolds(h, w, sent);
    var take := Allowance(w.ch, |w.io.cout| - sent);
    if sent >= |w.io.cout| || take == 0 || |w.io.ob| + take + 64 > SSH_OB_SZ {
    } else {
      DataPhase(h, w, w.io.cout[sent..sent + take]);
      var s := SendData(h, w, w.io.cout[sent..sent + take]);
      if s.phase != Error {
        FlushFromPhase(h, s.(ch := Paid(s.ch, take)), sent + take);
      }
    }
  }

  lemma FlushPhase(h: Host, w: World)
    requires w.Shaped()
    ensures Flush(h, w).phase == w.phase || Flush(h, w).phase == Error
  {
    hide FlushFrom;
    FlushFromPhase(h, w, 0);
  }

  lemma ClosePhase(h: Host, w: World)
    requires w.Shaped()
    ensures Close(h, w).phase == w.phase || Close(h, w).phase == Error
    ensures Close(h, w).recvSeq == w.recvSeq
  {
    hide Send, Flush, ExitStatus, ToChannel;
    FlushPhase(h, w);
    FlushFrames(h, w);
  }

  lemma PacketOrder(h: Host, w: World, pl: seq<byte>)
    requires w.Shaped() && Dispatching(w.phase)
    ensures var r := HandlePacket(h, w, pl);
            r.phase != w.phase && Rank(r.phase) <= 6 ==>
              Rank(r.phase) == Rank(w.phase) + 1 && Leads(Arrive(pl), Rank(r.phase))
  {
    hide HandleSession, HandleUserauth, HandleServiceRequest, HandleEcdhInit, HandleKexinit, HandleGlobalRequest;
    match w.phase {
      case ExpectKexinit => KexinitPhase(w, pl);
      case ExpectEcdhInit => EcdhPhase(h, w, pl);
      case ExpectNewkeys =>
      case ExpectService => ServicePhase(h, w, pl);
      case Auth => UserauthPhase(h, w, pl);
      case Session => if |pl| > 0 { SessionPhase(h, w, pl); }
    }
    GlobalPhase(h, w, pl);
  }

  lemma KexinitPhase(w: World, pl: seq<byte>)
    requires w.phase == ExpectKexinit
    ensures HandleKexinit(w, pl).phase in {ExpectKexinit, ExpectEcdhInit, Error}
  {
    hide Negotiate, FirstHalf;
  }

  lemma EcdhPhase(h: Host, w: World, pl: seq<byte>)
    requires w.Shaped() && w.phase == ExpectEcdhInit
    ensures HandleEcdhInit(h, w, pl).phase in {ExpectEcdhInit, ExpectNewkeys, Error}
    ensures w.x.discardNext ==> HandleEcdhInit(h, w, pl).phase == ExpectEcdhInit
  {
    hide Send, Mpint, ExchangeHash, KexReply, KsBlob, BeValue, SharedSecret, NewKeys, AllZero;
  }

  lemma ServicePhase(h: Host, w: World, pl: seq<byte>)
    requires w.Shaped() && w.phase == ExpectService
    ensures HandleServiceRequest(h, w, pl).phase in {ExpectService, Auth, Error}
  {
    hide Send, BeValue, ServiceAccept;
  }

  /** Where an authentication request can lead. */
  predicate Authed(p: Phase) {
    p == Auth || p == Session || p == Closed || p == Error
  }

  lemma UserauthPhase(h: Host, w: World, pl: seq<byte>)
    requires w.Shaped() && w.phase == Auth
    ensures Authed(HandleUserauth(h, w, pl).phase)
  {
    hide Accept, Reject, RdString, HandlePassword, Ascii, HandlePubkey, Authed;
    VerdictPhase(h, w, true);
    var r1 := RdString(pl, 1);
    if r1.Got? {
      var u := w.(a := w.a.(user := if |r1.value| < 63 then r1.value else r1.value[..63]));
      VerdictPhase(h, u, true);
      VerdictPhase(h, u, false);
      var r2 := RdString(pl, r1.next);
      if r2.Got? && RdString(pl, r2.next).Got? {
        PubkeyPhase(h, u, pl, RdString(pl, r2.next).next, r1.value, r2.value);
      }
    }
  }

  lemma VerdictPhase(h: Host, w: World, counted: bool)
    requires w.Shaped() && w.phase == Auth
    ensures Authed(Reject(h, w, counted).phase) && Authed(Accept(h, w).phase) && Authed(Fail(w).phase)
  {
    hide Send, AuthFailure, NoMoreAuth;
  }

  lemma PkOkPhase(h: Host, w: World, algo: seq<byte>, blob: seq<byte>)
    requires w.Shaped() && w.phase == Auth
    ensures Authed(SendPkOk(h, w, algo, blob).phase)
  {
    hide Send, Reject, PkOk;
    VerdictPhase(h, w, true);
  }

  lemma PubkeyPhase(h: Host, w: World, pl: seq<byte>, o: nat, user: seq<byte>, service: seq<byte>)
    requires w.Shaped() && w.phase == Auth
    ensures Authed(HandlePubkey(h, w, pl, o, user, service).phase) && Authed(HandlePassword(h, w, pl, o).phase)
  {
    hide Accept, Reject, SendPkOk, RdString, SignedData, Ed25519Part, Ascii, Authed;
    VerdictPhase(h, w, true);
    var a := RdString(pl, o + 1);
    if a.Got? && RdString(pl, a.next).Got? {
      PkOkPhase(h, w, a.value, RdString(pl, a.next).value);
    }
  }

  lemma GlobalPhase(h: Host, w: World, pl: seq<byte>)
    requires w.Shaped()
    ensures HandleGlobalRequest(h, w, pl).phase == w.phase || HandleGlobalRequest(h, w, pl).phase == Error
  {
    hide Send, BeValue;
  }

  lemma SessionPhase(h: Host, w: World, pl: seq<byte>)
    requires w.Shaped() && w.phase == Session && |pl| > 0
    ensures HandleSession(h, w, pl).phase in {Session, Closed, Error}
  {
    hide Send, BeValue, Close, OpenConfirmation, OpenFailure, Ascii, Typed, Request, WindowAdjust;
  }

  /** Nobody skips a step: a run that has reached a phase of the session has passed through every phase before it, each
      reached by its own message: identification, KEXINIT, KEX_ECDH_INIT, NEWKEYS, SERVICE_REQUEST, USERAUTH_REQUEST. */
  lemma {:induction false} Milestones(h: Host, ws: seq<World>, es: seq<Event>, n: nat) returns (at: seq<nat>)
    requires IsRun(h, ws, es) && n <= |es| && Rank(ws[n].phase) <= 6
    ensures |at| == Rank(ws[n].phase)
    ensures forall r :: 0 <= r < |at| ==> at[r] < n && Rank(ws[at[r]].phase) == r && Leads(es[at[r]], r + 1)
    ensures forall r, q :: 0 <= r < q < |at| ==> at[r] < at[q]
  {
    hide Inv, Apply, Allowed, Reset, Leads, Rank;
    if n == 0 {
      var drawn: nat :| ws[0] == Reset(h, drawn);
      ResetInv(h, drawn);
      Ranks();
      at := [];
    } else {
      var w := ws[n - 1];
      RunKeepsInv(h, ws, es, n - 1);
      InvShaped(w);
      StepKeeps(h, w, es[n - 1]);
      StepOrder(h, w, es[n - 1]);
      at := Milestones(h, ws, es, n - 1);
      if ws[n].phase != w.phase {
        at := at + [n - 1];
      }
    }
  }

  lemma Ranks()
    ensures Rank(Version) == 0
  {
  }

  // ----- the other messages -----

  /** The messages section 11 of RFC 4253 lets either side send at any time, and a global request. */
  predicate Anytime(msg: byte) {
    || msg == MSG_DISCONNECT || msg == MSG_IGNORE || msg == MSG_UNIMPLEMENTED || msg == MSG_DEBUG
    || msg == MSG_GLOBAL_REQUEST
  }

  /** The one message each phase before authentication waits for. */
  function Awaited(p: Phase): byte
    requires 1 <= Rank(p) <= 4
  {
    match p
    case ExpectKexinit => MSG_KEXINIT
    case ExpectEcdhInit => MSG_KEX_ECDH_INIT
    case ExpectNewkeys => MSG_NEWKEYS
    case _ => MSG_SERVICE_REQUEST
  }

  /** Whatever the phase, IGNORE, UNIMPLEMENTED and DEBUG do nothing, and DISCONNECT ends the connection and does
      nothing else. Any other message out of turn is fatal until authentication begins, except the one packet that
      follows a wrong guess, which is thrown away whatever it is; from then on it is ignored. */
  lemma OutOfTurn(h: Host, w: World, pl: seq<byte>)
    requires w.Shaped() && Dispatching(w.phase) && |pl| > 0
    ensures pl[0] == MSG_IGNORE || pl[0] == MSG_UNIMPLEMENTED || pl[0] == MSG_DEBUG ==> HandlePacket(h, w, pl) == w
    ensures pl[0] == MSG_DISCONNECT ==> HandlePacket(h, w, pl) == w.(phase := Closed)
    ensures !Anytime(pl[0]) && 1 <= Rank(w.phase) <= 4 && pl[0] != Awaited(w.phase) ==>
              HandlePacket(h, w, pl) ==
              if w.phase == ExpectEcdhInit && w.x.discardNext then w.(x := w.x.(discardNext := false)) else Fail(w)
    ensures !Anytime(pl[0]) && w.phase == Auth && pl[0] != MSG_USERAUTH_REQUEST ==> HandlePacket(h, w, pl) == w
  {
    hide HandleSession, HandleUserauth, HandleServiceRequest, HandleEcdhInit, HandleKexinit, HandleGlobalRequest;
    if w.x.discardNext {
      Discarded(h, w, pl);
    }
  }

  lemma Discarded(h: Host, w: World, pl: seq<byte>)
    requires w.Shaped() && w.x.discardNext
    ensures HandleEcdhInit(h, w, pl) == w.(x := w.x.(discardNext := false))
  {
    hide SwitchKeys;
  }

  // ----- the client's packets -----

  /** How many packets have been dispatched. */
  function Dispatched(ws: seq<World>, es: seq<Event>, n: nat): nat
    requires n <= |es| && |ws| > |es|
  {
    if n == 0 then 0
    else Dispatched(ws, es, n - 1) + if es[n - 1].Arrive? && Dispatching(ws[n - 1].phase) then 1 else 0
  }

  lemma StepNumber(h: Host, w: World, e: Event)
    requires w.Shaped()
    ensures Apply(h, w, e).recvSeq ==
            if e.Arrive? && Dispatching(w.phase) then (w.recvSeq + 1) % U32_LIMIT else w.recvSeq
  {
    hide HandlePacket, Flush, Close, Wire, DataPacket;
    FlushFrames(h, w);
    ClosePhase(h, w);
  }

  /** The next packet is opened with the number of packets before it, counted from the client's first. */
  lemma {:induction false} RunNumber(h: Host, ws: seq<World>, es: seq<Event>, n: nat)
    requires IsRun(h, ws, es) && n <= |es|
    ensures ws[n].recvSeq == Dispatched(ws, es, n) % U32_LIMIT
  {
    hide Inv, Apply, Allowed, OurKexinit, SendUnenc;
    if n == 0 {
      var drawn: nat :| ws[0] == Reset(h, drawn);
    } else {
      RunNumber(h, ws, es, n - 1);
      RunKeepsInv(h, ws, es, n - 1);
      InvShaped(ws[n - 1]);
      StepNumber(h, ws[n - 1], es[n - 1]);
      NextNumber(Dispatched(ws, es, n - 1));
    }
  }

  /** One packet to be sealed, and its padding. */
  datatype Letter = Letter(payload: seq<byte>, pad: seq<byte>) {
    predicate Fits() { |pad| == PadLen(|payload|) && |payload| <= SSH_ENC_MAX_PLEN }
  }

  ghost predicate AllFit(letters: seq<Letter>) {
    forall i :: 0 <= i < |letters| ==> letters[i].Fits()
  }

  /** The records of a client that seals its packets one after the other. */
  ghost function SealAll(ks: Keystream, ek: seq<byte>, num: nat, letters: seq<Letter>): seq<byte>
    requires |ek| == 64 && AllFit(letters)
    decreases |letters|
  {
    if |letters| == 0 then []
    else
      assert letters[0].Fits();
      Seal(ks, ek, num, letters[0].payload, letters[0].pad) + SealAll(ks, ek, (num + 1) % U32_LIMIT, letters[1..])
  }

  function Payloads(letters: seq<Letter>): (r: seq<seq<byte>>)
    ensures |r| == |letters|
  {
    seq(|letters|, i requires 0 <= i < |letters| => letters[i].payload)
  }

  /** The packets arrive one by one, until the connection is over: where that leads, and how many were taken. */
  ghost function ArriveAll(h: Host, w: World, letters: seq<Letter>): (World, nat)
    requires Inv(w) && AllFit(letters)
    decreases |letters|
  {
    if |letters| == 0 || Stopped(w.phase) then (w, 0)
    else
      assert letters[0].Fits();
      ArriveInv(h, w, letters[0].payload);
      var r := ArriveAll(h, Apply(h, w, Arrive(letters[0].payload)), letters[1..]);
      (r.0, r.1 + 1)
  }

  /** One packet more. */
  lemma ArriveNext(h: Host, w: World, letters: seq<Letter>)
    requires Inv(w) && AllFit(letters) && |letters| > 0 && !Stopped(w.phase)
    ensures w.Shaped() && Inv(Apply(h, w, Arrive(letters[0].payload)))
    ensures var r := ArriveAll(h, Apply(h, w, Arrive(letters[0].payload)), letters[1..]);
            ArriveAll(h, w, letters) == (r.0, r.1 + 1)
  {
    hide Inv, Apply;
    assert letters[0].Fits();
    ArriveInv(h, w, letters[0].payload);
  }

  lemma ArriveInv(h: Host, w: World, pl: seq<byte>)
    requires Inv(w) && |pl| <= SSH_ENC_MAX_PLEN
    ensures w.Shaped() && Inv(Apply(h, w, Arrive(pl)))
  {
    hide Inv, HandlePacket;
    InvShaped(w);
    StepKeeps(h, w, Arrive(pl));
  }

  /** What a client seals with its key, from the number of packets it has sent on, is dispatched packet by packet in the
      order it was sealed, and nothing else is, until the connection is over. */
  lemma {:induction false} SealedIsDispatched(h: Host, s: Slot, letters: seq<Letter>)
    requires Inv(s.w) && s.w.k.recvEnc && 2 < Rank(s.w.phase)
    requires AllFit(letters)
    requires |s.w.k.c2s| == 64 && s.ib == SealAll(h.keystream, s.w.k.c2s, s.w.recvSeq, letters)
    ensures var r := Pump(h, s);
            var (w, n) := ArriveAll(h, s.w, letters);
            && r.w == w && n <= |letters| && r.seen == s.seen + Payloads(letters)[..n]
            && (!Stopped(w.phase) ==> n == |letters| && r.ib == [])
    decreases |letters|
  {
    hide Inv, Apply, Open, Seal, Fail, Step, Rank;
    InvShaped(s.w);
    Between(s.w.phase);
    assert s.seen + Payloads(letters)[..0] == s.seen;
    if Stopped(s.w.phase) {
    } else if |letters| == 0 {
      Waits(h, s);
    } else {
      var pl := letters[0].payload;
      assert letters[0].Fits();
      var rest := SealAll(h.keystream, s.w.k.c2s, (s.w.recvSeq + 1) % U32_LIMIT, letters[1..]);
      FirstRecord(h, s, letters[0], rest);
      var next := Slot(Apply(h, s.w, Arrive(pl)), rest, s.seen + [pl]);
      ArriveInv(h, s.w, pl);
      StepForward(h, s.w, pl);
      StepNumber(h, s.w, Arrive(pl));
      SealedIsDispatched(h, next, letters[1..]);
      ArriveNext(h, s.w, letters);
      var n := ArriveAll(h, next.w, letters[1..]).1;
      assert s.seen + [pl] + Payloads(letters[1..])[..n] == s.seen + Payloads(letters)[..n + 1];
    }
  }

  /** One record at the front of the buffer. */
  lemma FirstRecord(h: Host, s: Slot, l: Letter, rest: seq<byte>)
    requires s.w.Shaped() && s.w.k.recvEnc && s.w.phase != Version && l.Fits()
    requires s.ib == Seal(h.keystream, s.w.k.c2s, s.w.recvSeq, l.payload, l.pad) + rest
    ensures Step(h, s) == Progress(Slot(Apply(h, s.w, Arrive(l.payload)), rest, s.seen + [l.payload]))
  {
    hide Apply, Open, Seal, Fail;
    var wire := Seal(h.keystream, s.w.k.c2s, s.w.recvSeq, l.payload, l.pad);
    RecordRoundTrip(h.keystream, s.w.k.c2s, s.w.recvSeq, l.payload, l.pad, rest);
    assert s.ib[|wire|..] == rest;
  }

  lemma Between(p: Phase)
    requires 2 < Rank(p)
    ensures p != Version && (!Stopped(p) ==> Rank(p) <= 6)
  {
  }

  lemma Waits(h: Host, s: Slot)
    requires s.w.Shaped() && s.w.phase != Version && s.ib == []
    ensures Step(h, s) == Wait
  {
    hide Apply, Fail;
  }

  /** Keys stay as they are. */
  lemma StepForward(h: Host, w: World, pl: seq<byte>)
    requires Inv(w) && |pl| <= SSH_ENC_MAX_PLEN && w.k.recvEnc && 2 < Rank(w.phase) <= 6
    ensures var r := Apply(h, w, Arrive(pl)); r.k.recvEnc && r.k.c2s == w.k.c2s && 2 < Rank(r.phase)
  {
    hide Inv, Apply, HandlePacket, SealInv;
    StepKeeps(h, w, Arrive(pl));
    ReadyNow(w);
  }

  lemma ReadyNow(w: World)
    requires Inv(w) && 2 < Rank(w.phase) <= 6
    ensures w.k.ready && w.Shaped()
  {
    hide SealInv, GateInv;
  }
}
