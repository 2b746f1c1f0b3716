/** The SSH server's message handlers (dosshd/ssh.c): one record of everything a connection owns, and what each
    message does to it. Curve25519, Ed25519 and the random source are parameters. */
module SshServer {
  import opened Bytes
  import opened SshWire
  import opened SshRecord
  import opened SshKex

  const SSH_OB_SZ := 2048
  const SSH_CIN_SZ := 256
  const SSH_CHAN_CHUNK := 200
  const SSH_LOCAL_WINDOW := 32768
  const SSH_CHAN_MAXPKT := 1024
  const SSH_MAX_AUTH_TRIES := 3
  const SCRATCH_SZ := SSH_IB_SZ + 128

  const MSG_DISCONNECT: byte := 1
  const MSG_IGNORE: byte := 2
  const MSG_UNIMPLEMENTED: byte := 3
  const MSG_DEBUG: byte := 4
  const MSG_SERVICE_REQUEST: byte := 5
  const MSG_SERVICE_ACCEPT: byte := 6
  const MSG_KEXINIT: byte := 20
  const MSG_NEWKEYS: byte := 21
  const MSG_KEX_ECDH_INIT: byte := 30
  const MSG_KEX_ECDH_REPLY: byte := 31
  const MSG_USERAUTH_REQUEST: byte := 50
  const MSG_USERAUTH_FAILURE: byte := 51
  const MSG_USERAUTH_SUCCESS: byte := 52
  const MSG_USERAUTH_PK_OK: byte := 60
  const MSG_GLOBAL_REQUEST: byte := 80
  const MSG_REQUEST_FAILURE: byte := 82
  const MSG_CHANNEL_OPEN: byte := 90
  const MSG_CHANNEL_OPEN_CONFIRMATION: byte := 91
  const MSG_CHANNEL_OPEN_FAILURE: byte := 92
  const MSG_CHANNEL_WINDOW_ADJUST: byte := 93
  const MSG_CHANNEL_DATA: byte := 94
  const MSG_CHANNEL_EOF: byte := 96
  const MSG_CHANNEL_CLOSE: byte := 97
  const MSG_CHANNEL_REQUEST: byte := 98
  const MSG_CHANNEL_SUCCESS: byte := 99
  const MSG_CHANNEL_FAILURE: byte := 100

  /** The server: its keys, its gate, and the primitives it calls. */
  datatype Host = Host(
    keystream: Keystream,
    x25519: (seq<byte>, seq<byte>, nat) -> byte,
    x25519Public: (seq<byte>, nat) -> byte,
    sign: (seq<byte>, seq<byte>, nat) -> byte,
    verify: (seq<byte>, seq<byte>, seq<byte>) -> bool,
    rng: nat -> byte,
    hostSk: seq<byte>,
    hostPk: seq<byte>,
    password: seq<byte>,
    authkeys: seq<seq<byte>>)
  {
    predicate Open() { |password| == 0 && |authkeys| == 0 }

    function Random(at: nat, n: nat): (r: seq<byte>)
      ensures |r| == n
    {
      seq(n, i requires 0 <= i => rng(at + i))
    }
  }

  datatype Phase =
    | Version | ExpectKexinit | ExpectEcdhInit | ExpectNewkeys | ExpectService
    | Auth | Session | Closed | Error

  function Rank(p: Phase): nat {
    match p
    case Version => 0
    case ExpectKexinit => 1
    case ExpectEcdhInit => 2
    case ExpectNewkeys => 3
    case ExpectService => 4
    case Auth => 5
    case Session => 6
    case Closed => 7
    case Error => 8
  }

  /** Version strings, our KEXINIT, and what the running exchange hash has absorbed. */
  datatype Exchange = Exchange(cliVer: seq<byte>, iS: seq<byte>, transcript: seq<byte>, discardNext: bool,
      svcName: seq<byte>, done: bool)

  datatype Keys = Keys(session: seq<byte>, haveSession: bool, c2s: seq<byte>, s2c: seq<byte>, ready: bool,
      recvEnc: bool, sendEnc: bool)

  datatype Gate = Gate(authenticated: bool, fails: nat, user: seq<byte>)

  /** The session channel. The last four fields are its history: the credit the client has given and the channel
      data sent; the credit offered to the client and the channel data taken from it. */
  datatype Channel = Channel(isOpen: bool, peer: nat, peerWindow: nat, peerMaxpkt: nat, localWindow: nat,
                             pty: bool, shell: bool, cols: nat, rows: nat, eof: bool, sentEof: bool, sentClose: bool,
                             closed: bool, granted: nat, out: seq<byte>, offered: nat, taken: nat)
  {
    predicate Ready() { isOpen && shell && !closed }
  }

  /** One sealed packet: the key and sequence number used, which packet of the connection it was, and its payload. */
  datatype Sealed = Sealed(key: seq<byte>, number: nat, index: nat, payload: seq<byte>)

  /** The shared buffers and the position in the random tape. The last four fields are the history: the packets sent,
      the bytes that have left for the network, and how many bytes had been queued in all when encryption began. */
  datatype Io = Io(ob: seq<byte>, cin: seq<byte>, cout: seq<byte>, drawn: nat, log: seq<Sealed>, packets: nat,
      sent: seq<byte>, mark: nat)

  datatype World = World(phase: Phase, err: bool, x: Exchange, k: Keys, sendSeq: nat, recvSeq: nat, a: Gate,
      ch: Channel, io: Io) {
    predicate Shaped() {
      |k.c2s| == 64 && |k.s2c| == 64 && sendSeq < U32_LIMIT && recvSeq < U32_LIMIT
    }
  }

  // ----- sending -----

  function Fail(w: World): World {
    if w.phase == Error then w else w.(phase := Error, err := true)
  }

  /** ob_append: all or nothing. */
  function Append(w: World, d: seq<byte>): (r: World)
    ensures OnlySends(w, r) && r.sendSeq == w.sendSeq && r.io == w.io.(ob := r.io.ob)
    ensures |w.io.ob| + |d| <= SSH_OB_SZ ==> r == w.(io := w.io.(ob := w.io.ob + d))
    ensures |w.io.ob| + |d| > SSH_OB_SZ ==> r.phase == Error && r.io == w.io
    ensures |w.io.ob| <= SSH_OB_SZ ==> |r.io.ob| <= SSH_OB_SZ
    ensures w.io.ob <= r.io.ob
  {
    if |w.io.ob| + |d| > SSH_OB_SZ then Fail(w) else w.(io := w.io.(ob := w.io.ob + d))
  }

  /** Only the phase (to Error), the output side and the packet counters change when a packet is sent. */
  predicate OnlySends(w: World, r: World) {
    && (w.err ==> r.err) && (r.phase == Error ==> w.phase == Error || r.err)
    && r.io.sent == w.io.sent && r.io.mark == w.io.mark
    && r.x == w.x && r.k == w.k && r.recvSeq == w.recvSeq && r.a == w.a && r.ch == w.ch
    && (r.phase == w.phase || r.phase == Error)
    && r.io.cin == w.io.cin && r.io.cout == w.io.cout && w.io.ob <= r.io.ob
    && (|w.io.ob| <= SSH_OB_SZ ==> |r.io.ob| <= SSH_OB_SZ)
  }

  function SendUnenc(h: Host, w: World, payload: seq<byte>): (r: World)
    ensures OnlySends(w, r) && r.io.log == w.io.log && r.io.packets == w.io.packets + 1
    ensures r.sendSeq == (w.sendSeq + 1) % U32_LIMIT
    ensures |w.io.ob| + |payload| + 16 <= SSH_OB_SZ ==> r.phase == w.phase
  {
    var n := PlainPadLen(|payload|);
    var w1 := Append(w, BeBytes(1 + |payload| + n) + [n as byte]);
    var w2 := Append(w1, payload);
    var w3 := Append(w2, h.Random(w.io.drawn, n));
    w3.(sendSeq := (w.sendSeq + 1) % U32_LIMIT, io := w3.io.(drawn := w.io.drawn + n, packets := w.io.packets + 1))
  }

  /** aead_seal's effect on the connection; the wire bytes are Wire(h, w, payload). */
  function Sealing(w: World, payload: seq<byte>): (r: World)
    ensures r == w.(sendSeq := (w.sendSeq + 1) % U32_LIMIT, io := r.io)
    ensures r.io == w.io.(drawn := r.io.drawn, packets := w.io.packets + 1,
        log := w.io.log + [Sealed(w.k.s2c, w.sendSeq, w.io.packets, payload)])
  {
    w.(sendSeq := (w.sendSeq + 1) % U32_LIMIT,
       io := w.io.(drawn := w.io.drawn + PadLen(|payload|), packets := w.io.packets + 1,
                   log := w.io.log + [Sealed(w.k.s2c, w.sendSeq, w.io.packets, payload)]))
  }

  function Wire(h: Host, w: World, payload: seq<byte>): (wire: seq<byte>)
    requires w.Shaped()
    ensures |payload| < |wire| <= |payload| + 32
  {
    Seal(h.keystream, w.k.s2c, w.sendSeq, payload, h.Random(w.io.drawn, PadLen(|payload|)))
  }

  function SendEnc(h: Host, w: World, payload: seq<byte>): (r: World)
    requires w.Shaped()
    ensures OnlySends(w, r)
    ensures |payload| > SSH_ENC_MAX_PLEN ==> r == Fail(w)
    ensures |payload| <= SSH_ENC_MAX_PLEN ==>
              && r.io.packets == w.io.packets + 1 && r.sendSeq == (w.sendSeq + 1) % U32_LIMIT
              && r.io.log == w.io.log + [Sealed(w.k.s2c, w.sendSeq, w.io.packets, payload)]
              && (|w.io.ob| + |payload| + 32 <= SSH_OB_SZ ==>
                    r.phase == w.phase && r.io.ob == w.io.ob + Wire(h, w, payload))
  {
    if |payload| > SSH_ENC_MAX_PLEN then Fail(w)
    else Append(Sealing(w, payload), Wire(h, w, payload))
  }

  function Send(h: Host, w: World, payload: seq<byte>): (r: World)
    requires w.Shaped()
    ensures OnlySends(w, r) && r.Shaped()
    ensures w.k.sendEnc ==> r == SendEnc(h, w, payload)
    ensures !w.k.sendEnc ==> r == SendUnenc(h, w, payload)
  {
    if w.k.sendEnc then SendEnc(h, w, payload) else SendUnenc(h, w, payload)
  }

  // ----- replies -----

  function ServiceAccept(name: seq<byte>): seq<byte> {
    [MSG_SERVICE_ACCEPT] + Str(name)
  }

  function NoMoreAuth(): seq<byte> {
    [MSG_DISCONNECT] + BeBytes(14) + Str(Ascii("too many authentication failures")) + Str([])
  }

  function AuthFailure(h: Host): seq<byte> {
    [MSG_USERAUTH_FAILURE] + Str(Methods(h)) + [0]
  }

  function PkOk(algo: seq<byte>, blob: seq<byte>): seq<byte> {
    [MSG_USERAUTH_PK_OK] + Str(algo) + Str(blob)
  }

  function OpenFailure(sender: nat, reason: nat): seq<byte> {
    [MSG_CHANNEL_OPEN_FAILURE] + BeBytes(sender) + BeBytes(reason) + Str(Ascii("only one session channel")) + Str([])
  }

  function OpenConfirmation(sender: nat): seq<byte> {
    [MSG_CHANNEL_OPEN_CONFIRMATION] + BeBytes(sender) + BeBytes(0) + BeBytes(SSH_LOCAL_WINDOW)
        + BeBytes(SSH_CHAN_MAXPKT)
  }

  function WindowAdjust(peer: nat, add: nat): seq<byte> {
    [MSG_CHANNEL_WINDOW_ADJUST] + BeBytes(peer) + BeBytes(add)
  }

  function ToChannel(msg: byte, peer: nat): seq<byte> {
    [msg] + BeBytes(peer)
  }

  function ExitStatus(peer: nat): seq<byte> {
    [MSG_CHANNEL_REQUEST] + BeBytes(peer) + Str(Ascii("exit-status")) + [0] + BeBytes(0)
  }

  // ----- key exchange -----

  datatype Lists = Malformed | Lists(names: seq<seq<byte>>, next: nat)

  /** The loop of negotiate over the name-lists of a KEXINIT. */
  function ReadLists(pl: seq<byte>, off: nat, n: nat): (r: Lists)
    ensures r.Lists? ==> |r.names| == n && (n > 0 ==> r.next <= |pl|)
    decreases n
  {
    if n == 0 then Lists([], off)
    else
      match RdString(pl, off)
      case Overrun => Malformed
      case Got(s, next) =>
        match ReadLists(pl, next, n - 1)
        case Malformed => Malformed
        case Lists(names, last) => Lists([s] + names, last)
  }

  datatype Negotiation = BadKexinit | NoCommon | Agreed(discardNext: bool)

  predicate IsCurve(name: seq<byte>) {
    name == Ascii("curve25519-sha256") || name == Ascii("curve25519-sha256@libssh.org")
  }

  function Negotiate(pl: seq<byte>): Negotiation {
    match ReadLists(pl, 17, 10)
    case Malformed => BadKexinit
    case Lists(l, off) =>
      if off + 1 > |pl| then BadKexinit
      else
        var kex, hk := Names(l[0]), Names(l[1]);
        if !(exists i :: 0 <= i < |kex| && IsCurve(kex[i])) then NoCommon
        else if Ascii("ssh-ed25519") !in hk then NoCommon
        else if Ascii("chacha20-poly1305@openssh.com") !in Names(l[2]) then NoCommon
        else if Ascii("chacha20-poly1305@openssh.com") !in Names(l[3]) then NoCommon
        else Agreed(pl[off] != 0 && !(IsCurve(kex[0]) && hk[0] == Ascii("ssh-ed25519")))
  }

  function HandleKexinit(w: World, pl: seq<byte>): World {
    match Negotiate(pl)
    case BadKexinit => Fail(w)
    case NoCommon => Fail(w)
    case Agreed(discard) =>
      w.(phase := ExpectEcdhInit,
         x := w.x.(discardNext := discard, transcript := FirstHalf(w.x.cliVer, pl, w.x.iS)))
  }

  function KsBlob(h: Host): seq<byte> {
    Str(Ascii("ssh-ed25519")) + Str(h.hostPk)
  }

  function KexReply(h: Host, qs: seq<byte>, hash: seq<byte>): seq<byte> {
    var sig := seq(64, i requires 0 <= i => h.sign(h.hostSk, hash, i));
    [MSG_KEX_ECDH_REPLY] + Str(KsBlob(h)) + Str(qs) + Str(Str(Ascii("ssh-ed25519")) + Str(sig))
  }

  /** The keys of this exchange, given its hash and shared secret. */
  function NewKeys(k: Keys, mpint: seq<byte>, hash: seq<byte>): (r: Keys)
    ensures |r.c2s| == 64 && |r.s2c| == 64 && r.sendEnc == k.sendEnc && r.recvEnc == k.recvEnc && r.ready
    ensures r.haveSession && (k.haveSession ==> r.session == k.session) && (!k.haveSession ==> r.session == hash)
  {
    var sid := if k.haveSession then k.session else hash;
    k.(session := sid, haveSession := true, ready := true,
       c2s := DerivedKey(mpint, hash, 0x43, sid, 64), s2c := DerivedKey(mpint, hash, 0x44, sid, 64))
  }

  function SharedSecret(h: Host, sk: seq<byte>, qc: seq<byte>): (r: seq<byte>)
    ensures |r| == 32 && r[0] == h.x25519(sk, qc, 0)
  {
    seq(32, i requires 0 <= i => h.x25519(sk, qc, i))
  }

  /** The test for a low-order client key. */
  predicate AllZero(s: seq<byte>) {
    forall i :: 0 <= i < |s| ==> s[i] == 0
  }

  function HandleEcdhInit(h: Host, w: World, pl: seq<byte>): World
    requires w.Shaped()
  {
    if w.x.discardNext then w.(x := w.x.(discardNext := false))
    else if |pl| < 5 || BeValue(pl[1..5]) != 32 || 37 > |pl| then Fail(w)
    else
      var qc := pl[5..37];
      var sk := h.Random(w.io.drawn, 32);
      var w0 := w.(io := w.io.(drawn := w.io.drawn + 32));
      var qs := seq(32, i requires 0 <= i => h.x25519Public(sk, i));
      var raw := SharedSecret(h, sk, qc);
      if AllZero(raw) then Fail(w0)
      else
        var mpint := Mpint(raw);
        var hash := ExchangeHash(w.x.transcript, KsBlob(h), qc, qs, mpint);
        SwitchKeys(h, w0, KexReply(h, qs, hash), mpint, hash)
  }

  /** The reply and NEWKEYS go out in the clear; then our side encrypts. */
  function SwitchKeys(h: Host, w: World, reply: seq<byte>, mpint: seq<byte>, hash: seq<byte>): World
    requires w.Shaped() && |hash| == 32
  {
    var w1 := Send(h, w, reply);
    var w2 := w1.(k := NewKeys(w1.k, mpint, hash));
    var w3 := Send(h, w2, [MSG_NEWKEYS]);
    w3.(k := w3.k.(sendEnc := true), phase := ExpectNewkeys,
        io := w3.io.(mark := |w3.io.sent| + |w3.io.ob|))
  }

  function HandleServiceRequest(h: Host, w: World, pl: seq<byte>): World
    requires w.Shaped()
  {
    if |pl| < 5 then Fail(w)
    else
      var n := BeValue(pl[1..5]);
      if 5 + n > |pl| || n >= 64 then Fail(w)
      else
        var name := pl[5..5 + n];
        Send(h, w.(x := w.x.(svcName := name, done := true)), ServiceAccept(name)).(phase := Auth)
  }

  // ----- userauth -----

  /** The methods that can still authenticate; never empty. */
  function Methods(h: Host): seq<byte> {
    if |h.authkeys| > 0 && |h.password| > 0 then Ascii("publickey,password")
    else if |h.authkeys| > 0 then Ascii("publickey")
    else Ascii("password")
  }

  function Accept(h: Host, w: World): World
    requires w.Shaped()
  {
    var s := Send(h, w, [MSG_USERAUTH_SUCCESS]);
    s.(a := s.a.(authenticated := true), phase := Session)
  }

  function Reject(h: Host, w: World, counted: bool): World
    requires w.Shaped()
  {
    Refuse(h, w.(a := w.a.(fails := w.a.fails + if counted then 1 else 0)))
  }

  function Refuse(h: Host, w: World): World
    requires w.Shaped()
  {
    if w.a.fails >= SSH_MAX_AUTH_TRIES then Send(h, w, NoMoreAuth()).(phase := Closed) else Send(h, w, AuthFailure(h))
  }

  /** ed25519_key_from_blob and ed25519_sig_from_blob: an algorithm name and n bytes. */
  function Ed25519Part(blob: seq<byte>, n: nat): (r: Read)
    ensures r.Got? ==> |r.value| == n
  {
    match RdString(blob, 0)
    case Overrun => Overrun
    case Got(name, next) =>
      if name != Ascii("ssh-ed25519") then Overrun
      else
        match RdString(blob, next)
        case Overrun => Overrun
        case Got(part, end) => if |part| == n then Got(part, end) else Overrun
  }

  function SendPkOk(h: Host, w: World, algo: seq<byte>, blob: seq<byte>): World
    requires w.Shaped()
  {
    if 1 + 4 + |algo| + 4 + |blob| > 128 then Reject(h, w, true)
    else Send(h, w, PkOk(algo, blob))
  }

  function HandlePubkey(h: Host, w: World, pl: seq<byte>, o: nat, user: seq<byte>, service: seq<byte>): World
    requires w.Shaped()
  {
    if o + 1 > |pl| then Reject(h, w, true)
    else
      match RdString(pl, o + 1)
      case Overrun => Reject(h, w, true)
      case Got(algo, o1) =>
        match RdString(pl, o1)
        case Overrun => Reject(h, w, true)
        case Got(blob, o2) =>
          if algo != Ascii("ssh-ed25519") then Reject(h, w, true)
          else
            match Ed25519Part(blob, 32)
            case Overrun => Reject(h, w, true)
            case Got(key, _) =>
              if pl[o] == 0 then
                if key in h.authkeys then SendPkOk(h, w, algo, blob) else Reject(h, w, true)
              else
                match RdString(pl, o2)
                case Overrun => Reject(h, w, true)
                case Got(sigblob, _) =>
                  match Ed25519Part(sigblob, 64)
                  case Overrun => Reject(h, w, true)
                  case Got(sig, _) =>
                    if key !in h.authkeys then Reject(h, w, true)
                    else
                      var data := SignedData(w.k.session, user, service, algo, blob);
                      if |data| <= SCRATCH_SZ && h.verify(sig, key, data) then Accept(h, w) else Reject(h, w, true)
  }

  function HandlePassword(h: Host, w: World, pl: seq<byte>, o: nat): World
    requires w.Shaped()
  {
    if o + 1 > |pl| || pl[o] != 0 then Reject(h, w, true)
    else
      match RdString(pl, o + 1)
      case Overrun => Reject(h, w, true)
      case Got(pw, _) => if pw == h.password then Accept(h, w) else Reject(h, w, true)
  }

  function HandleUserauth(h: Host, w: World, pl: seq<byte>): World
    requires w.Shaped()
  {
    match RdString(pl, 1)
    case Overrun => Fail(w)
    case Got(user, o1) =>
      match RdString(pl, o1)
      case Overrun => Fail(w)
      case Got(service, o2) =>
        match RdString(pl, o2)
        case Overrun => Fail(w)
        case Got(name, o3) =>
          var u := w.(a := w.a.(user := if |user| < 63 then user else user[..63]));
          if h.Open() then Accept(h, u)
          else if name == Ascii("publickey") then
            if |h.authkeys| == 0 then Reject(h, u, true) else HandlePubkey(h, u, pl, o3, user, service)
          else if |h.password| > 0 && name == Ascii("password") then HandlePassword(h, u, pl, o3)
          else Reject(h, u, name != Ascii("none"))
  }

  // ----- the session channel -----

  function HandleChannelOpen(h: Host, w: World, pl: seq<byte>): World
    requires w.Shaped()
  {
    if 5 > |pl| then Fail(w)
    else
      var n := BeValue(pl[1..5]);
      var o := 5 + n;
      if o + 12 > |pl| then Fail(w)
      else
        AnswerOpen(h, w, pl[5..o], BeValue(pl[o..o + 4]), BeValue(pl[o + 4..o + 8]), BeValue(pl[o + 8..o + 12]))
  }

  function AnswerOpen(h: Host, w: World, name: seq<byte>, sender: nat, window: nat, maxpkt: nat): World
    requires w.Shaped()
  {
    if w.ch.isOpen || name != Ascii("session") then Send(h, w, OpenFailure(sender, if w.ch.isOpen then 1 else 3))
    else Send(h, w.(ch := OpenedBy(w.ch, sender, window, maxpkt)), OpenConfirmation(sender))
  }

  function OpenedBy(ch: Channel, sender: nat, window: nat, maxpkt: nat): Channel {
    ch.(peer := sender, peerWindow := window, peerMaxpkt := maxpkt, localWindow := SSH_LOCAL_WINDOW, isOpen := true,
        granted := window, offered := SSH_LOCAL_WINDOW, taken := 0)
  }

  function WithSize(ch: Channel, pl: seq<byte>, o: nat): Channel {
    if o + 8 <= |pl| then ch.(cols := BeValue(pl[o..o + 4]), rows := BeValue(pl[o + 4..o + 8])) else ch
  }

  /** A channel request's effect on the channel, and whether it is granted. */
  function Request(ch: Channel, name: seq<byte>, pl: seq<byte>, o: nat): (Channel, bool) {
    if name == Ascii("pty-req") then
      (if o + 4 <= |pl| then WithSize(ch, pl, o + 4 + BeValue(pl[o..o + 4])).(pty := true) else ch.(pty := true), true)
    else if name == Ascii("shell") || name == Ascii("exec") then (ch.(shell := true), true)
    else if name == Ascii("window-change") then (WithSize(ch, pl, o), true)
    else (ch, false)
  }

  function HandleChannelRequest(h: Host, w: World, pl: seq<byte>): World
    requires w.Shaped()
  {
    if 9 > |pl| then w
    else
      var o := 9 + BeValue(pl[5..9]);
      if o + 1 > |pl| then w
      else
        var (ch, granted) := Request(w.ch, pl[9..o], pl, o + 1);
        AnswerRequest(h, w.(ch := ch), granted, pl[o] != 0)
  }

  function AnswerRequest(h: Host, w: World, granted: bool, wantReply: bool): World
    requires w.Shaped()
  {
    if wantReply then Send(h, w, ToChannel(if granted then MSG_CHANNEL_SUCCESS else MSG_CHANNEL_FAILURE, w.ch.peer))
    else w
  }

  /** adjust_local_window: top the window up once half of it is used. */
  function Consume(h: Host, w: World, n: nat): World
    requires w.Shaped()
  {
    var r := w.(ch := Taken(w.ch, n));
    if r.ch.localWindow >= SSH_LOCAL_WINDOW / 2 then r else TopUp(h, r)
  }

  function Taken(ch: Channel, n: nat): Channel {
    ch.(localWindow := if ch.localWindow >= n then ch.localWindow - n else 0, taken := ch.taken + n)
  }

  function TopUp(h: Host, w: World): World
    requires w.Shaped() && w.ch.localWindow <= SSH_LOCAL_WINDOW
  {
    var s := Send(h, w, WindowAdjust(w.ch.peer, SSH_LOCAL_WINDOW - w.ch.localWindow));
    s.(ch := Topped(s.ch))
  }

  function Topped(ch: Channel): Channel
    requires ch.localWindow <= SSH_LOCAL_WINDOW
  {
    ch.(localWindow := SSH_LOCAL_WINDOW, offered := ch.offered + (SSH_LOCAL_WINDOW - ch.localWindow))
  }

  /** The keystroke ring takes what fits: one slot always stays free. */
  function Typed(cin: seq<byte>, d: seq<byte>): (r: seq<byte>)
    ensures |cin| <= |r| <= |cin| + |d| && r == cin + d[..|r| - |cin|]
    ensures |cin| < SSH_CIN_SZ ==> |r| < SSH_CIN_SZ && (|r| < |cin| + |d| ==> |r| == SSH_CIN_SZ - 1)
  {
    if |cin| + 1 >= SSH_CIN_SZ then cin
    else if |cin| + |d| < SSH_CIN_SZ then cin + d
    else cin + d[..SSH_CIN_SZ - 1 - |cin|]
  }

  function HandleChannelData(h: Host, w: World, pl: seq<byte>): World
    requires w.Shaped()
  {
    if |pl| < 9 then w
    else
      var said := BeValue(pl[5..9]);
      var n := if 9 + said > |pl| then |pl| - 9 else said;
      Consume(h, w.(io := w.io.(cin := Typed(w.io.cin, pl[9..9 + n]))), n)
  }

  function HandleWindowAdjust(w: World, pl: seq<byte>): World {
    if |pl| < 9 then w
    else
      var add := BeValue(pl[5..9]);
      w.(ch := w.ch.(peerWindow := (w.ch.peerWindow + add) % U32_LIMIT, granted := w.ch.granted + add))
  }

  function HandleGlobalRequest(h: Host, w: World, pl: seq<byte>): World
    requires w.Shaped()
  {
    if 5 > |pl| then w
    else
      var o := 5 + BeValue(pl[1..5]);
      if o < |pl| && pl[o] != 0 then Send(h, w, [MSG_REQUEST_FAILURE]) else w
  }

  // ----- sending channel data -----

  function DataPacket(ch: Channel, data: seq<byte>): (r: seq<byte>)
    ensures |r| == 9 + |data|
  {
    [MSG_CHANNEL_DATA] + BeBytes(ch.peer) + Str(data)
  }

  function Min(a: nat, b: nat): nat {
    if a < b then a else b
  }

  /** How many bytes one packet may carry now. */
  function Allowance(ch: Channel, n: nat): (m: nat)
    ensures m <= n && m <= SSH_CHAN_CHUNK && m <= ch.peerWindow && m <= ch.peerMaxpkt
  {
    Min(Min(Min(n, SSH_CHAN_CHUNK), ch.peerWindow), ch.peerMaxpkt)
  }

  /** The loop of ssh_channel_flush, `sent` bytes of the staging buffer already framed. */
  function FlushFrom(h: Host, w: World, sent: nat): (r: (World, nat))
    requires w.Shaped() && sent <= |w.io.cout|
    ensures sent <= r.1 <= |w.io.cout| && r.0.Shaped() && r.0.io.cout == w.io.cout
    decreases |w.io.cout| - sent
  {
    var take := Allowance(w.ch, |w.io.cout| - sent);
    if sent >= |w.io.cout| || take == 0 || |w.io.ob| + take + 64 > SSH_OB_SZ then (w, sent)
    else
      var s := SendData(h, w, w.io.cout[sent..sent + take]);
      if s.phase == Error then (s, sent) else FlushFrom(h, s.(ch := Paid(s.ch, take)), sent + take)
  }

  /** One CHANNEL_DATA packet, entered in the channel's history. */
  function SendData(h: Host, w: World, data: seq<byte>): (r: World)
    requires w.Shaped()
    ensures r.Shaped() && r.io.cout == w.io.cout && r.ch == w.ch.(out := w.ch.out + data)
  {
    var s := Send(h, w, DataPacket(w.ch, data));
    s.(ch := s.ch.(out := s.ch.out + data))
  }

  function Paid(ch: Channel, n: nat): Channel
    requires n <= ch.peerWindow
  {
    ch.(peerWindow := ch.peerWindow - n)
  }

  /** ssh_channel_flush. */
  function Flush(h: Host, w: World): (r: World)
    requires w.Shaped()
    ensures r.Shaped()
  {
    if !w.ch.isOpen || w.ch.closed then w.(io := w.io.(cout := []))
    else
      var (r, sent) := FlushFrom(h, w, 0);
      r.(io := r.io.(cout := r.io.cout[sent..]))
  }

  /** ssh_channel_avail. */
  function Available(w: World): nat {
    if w.ch.Ready() then Allowance(w.ch, SSH_CHAN_CHUNK) else 0
  }

  /** A record sealed and handed to the network directly. */
  function Emitted(h: Host, w: World, payload: seq<byte>): World
    requires w.Shaped()
  {
    var r := Sealing(w, payload);
    r.(io := r.io.(sent := w.io.sent + Wire(h, w, payload)))
  }

  /** ssh_channel_emit: the new state, and the wire bytes (none when it refuses). */
  function Emit(h: Host, w: World, plain: seq<byte>, outmax: nat): (r: (World, seq<byte>))
    requires w.Shaped()
    ensures r.0.Shaped()
  {
    var n := |plain|;
    if !w.ch.Ready() || !w.k.sendEnc || n == 0 || n > SSH_CHAN_CHUNK || n > w.ch.peerWindow
        || n > w.ch.peerMaxpkt || n + 40 > outmax then
      (w, [])
    else
      var p := DataPacket(w.ch, plain);
      (Emitted(h, w.(ch := Paid(w.ch.(out := w.ch.out + plain), n)), p), Wire(h, w, p))
  }

  /** ssh_channel_close. */
  function Close(h: Host, w: World): (r: World)
    requires w.Shaped()
    ensures r.Shaped()
  {
    if !w.ch.isOpen || w.ch.sentClose then w
    else
      Closing(h, Flush(h, w))
  }

  /** The farewell: exit status, EOF, CLOSE. */
  function Closing(h: Host, w: World): (r: World)
    requires w.Shaped()
    ensures r.Shaped()
  {
    var e := if w.ch.shell then Send(h, w, ExitStatus(w.ch.peer)) else w;
    var g := if e.ch.sentEof then e
             else var s := Send(h, e, ToChannel(MSG_CHANNEL_EOF, e.ch.peer)); s.(ch := s.ch.(sentEof := true));
    var c := Send(h, g, ToChannel(MSG_CHANNEL_CLOSE, g.ch.peer));
    c.(ch := c.ch.(sentClose := true, closed := true))
  }

  // ----- dispatch -----

  function HandleSession(h: Host, w: World, pl: seq<byte>): World
    requires w.Shaped() && |pl| > 0
  {
    var msg := pl[0];
    if msg == MSG_CHANNEL_OPEN then HandleChannelOpen(h, w, pl)
    else if msg == MSG_CHANNEL_REQUEST then HandleChannelRequest(h, w, pl)
    else if msg == MSG_CHANNEL_DATA then HandleChannelData(h, w, pl)
    else if msg == MSG_CHANNEL_WINDOW_ADJUST then HandleWindowAdjust(w, pl)
    else if msg == MSG_CHANNEL_EOF then w.(ch := w.ch.(eof := true))
    else if msg == MSG_CHANNEL_CLOSE then
      var c := if w.ch.sentClose then w else Close(h, w);
      c.(ch := c.ch.(closed := true), phase := Closed)
    else w
  }

  /** handle_packet. */
  function HandlePacket(h: Host, w: World, pl: seq<byte>): World
    requires w.Shaped()
  {
    var msg := if |pl| > 0 then pl[0] else 0;
    if msg == MSG_DISCONNECT then w.(phase := Closed)
    else if msg == MSG_IGNORE || msg == MSG_DEBUG || msg == MSG_UNIMPLEMENTED then w
    else if msg == MSG_GLOBAL_REQUEST then HandleGlobalRequest(h, w, pl)
    else
      match w.phase
      case ExpectKexinit => if msg != MSG_KEXINIT then Fail(w) else HandleKexinit(w, pl)
      case ExpectEcdhInit => if msg != MSG_KEX_ECDH_INIT && !w.x.discardNext then Fail(w) else HandleEcdhInit(h, w, pl)
      case ExpectNewkeys => if msg != MSG_NEWKEYS then Fail(w)
          else w.(k := w.k.(recvEnc := true), phase := ExpectService)
      case ExpectService => if msg != MSG_SERVICE_REQUEST then Fail(w) else HandleServiceRequest(h, w, pl)
      case Auth => if msg == MSG_USERAUTH_REQUEST then HandleUserauth(h, w, pl) else w
      case Session => if |pl| > 0 then HandleSession(h, w, pl) else w
      case _ => Fail(w)
  }

  // ----- the beginning -----

  function OurKexinit(cookie: seq<byte>): seq<byte> {
    [MSG_KEXINIT] + cookie + Str(Ascii("curve25519-sha256,curve25519-sha256@libssh.org")) + Str(Ascii("ssh-ed25519"))
    + Str(Ascii("chacha20-poly1305@openssh.com")) + Str(Ascii("chacha20-poly1305@openssh.com"))
    + Str(Ascii("none")) + Str(Ascii("none")) + Str(Ascii("none")) + Str(Ascii("none")) + Str([]) + Str([])
        + [0, 0, 0, 0, 0]
  }

  /** ssh_reset. */
  function Reset(h: Host, drawn: nat): (w: World)
    ensures w.Shaped()
  {
    var iS := OurKexinit(h.Random(drawn, 16));
    var zero := seq(64, _ => 0 as byte);
    var w := World(Version, false, Exchange([], iS, [], false, [], false),
        Keys(seq(32, _ => 0), false, zero, zero, false, false, false), 0, 0,
                   Gate(false, 0, []),
                   Channel(false, 0, 0, 0, 0, false, false, 0, 0, false, false, false, false, 0, [], 0, 0),
                   Io([], [], [], drawn + 16, [], 0, [], 0));
    SendUnenc(h, Append(w, VERSION_STRING + [0x0d, 0x0a]), iS)
  }
}
