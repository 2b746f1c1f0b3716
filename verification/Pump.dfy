/** The telnet screen pump of dosshd/dosshd.c: bytes from the renderer to the broadcast, with one byte of pushback. */
module Pump {
  import opened Bytes
  import opened Terminal
  import opened Ansi
  import opened Frame
  import opened Render
  import opened Slots

  const TX_BUDGET := 512

  /** The renderer's buffers are not a connection's rings. */
  ghost predicate Apart(screen: Renderer, net: Net) {
    forall i :: 0 <= i < |net.conns| ==>
      && screen.obuf != net.conns[i].sbuf && screen.obuf != net.conns[i].rbuf
      && screen.shadow != net.conns[i].sbuf && screen.shadow != net.conns[i].rbuf
  }

  /** The renderer has handed out everything and, in a mode it shadows, owes nothing on this screen. */
  ghost predicate AllShown(screen: Renderer, scr: Screen)
    reads screen, screen.obuf, screen.shadow
  {
    screen.Buffers() && !screen.Busy() && (scr.Shadowed() ==> screen.Still(scr))
  }

  /** Some admitted slot is full and still acknowledging. */
  ghost predicate Held(net: Net)
    reads net.conns
  {
    exists i :: 0 <= i < |net.conns| && Net.Slow(net.conns[i])
  }

  /** One turn of the loop: a byte is rendered and broadcast, or pushed back, or there is none. */
  method PumpByte(screen: Renderer, net: Net, scr: Screen, now: nat) returns (b: int)
    requires screen.Valid() && screen.Buffers() && net.Valid() && Apart(screen, net) && scr.Ok()
    modifies screen, screen.obuf, screen.shadow, net`log, net`marks, net.conns, set c | c in net.conns :: c.sbuf
    ensures screen.Valid() && screen.Buffers() && net.Valid() && net.AllSteady() && b < 256
    ensures net.log == old(net.log) + if b < 0 then [] else [b as byte]
    ensures screen.tty == if b < 0 then old(screen.tty) else Feed(old(screen.tty), b as byte)
    ensures forall i :: 0 <= i < |net.conns| && Net.Admitted(net.conns[i]) ==>
              && old(Net.Admitted(net.conns[i]))
              && net.conns[i].v.stream == old(net.conns[i].v.stream) + if b < 0 then [] else [b as byte]
    ensures b < 0 ==> AllShown(screen, scr) || Held(net)
  {
    hide Renderer.Valid, Net.Valid, Table, FeedAll, Feed, Interrupted, Renderer.Still, Renderer.Following,
         Renderer.Pending, Renderer.Buffers, Elapsed;
    ghost var before := screen.tty;
    net.SizesHold();
    screen.Steady();
    b := screen.NextByte(false, scr, now);
    screen.ValidBuffers();
    if b >= 0 {
      label rendered:
      var ok := net.Broadcast(b as byte);
      forall i | 0 <= i < |net.conns|
        ensures net.Steady(i)
      {
        assert net.Steady@rendered(i);
      }
      if !ok {
        screen.Pushback(b as byte, before);
        screen.ValidBuffers();
        b := -1;
      }
    }
  }

  /** tx_pump over the network: the bytes that go into the stream of every slot still admitted are exactly the bytes
      the renderer has handed out for good; none lost, repeated or reordered. A terminal fed with them is the
      renderer's terminal. It stops only when the budget is used up, when nothing is left to show, or when some slot is
      full. */
  method TxPump(screen: Renderer, net: Net, scr: Screen, now: nat) returns (ghost out: seq<byte>)
    requires screen.Valid() && net.Valid() && Apart(screen, net) && scr.Ok()
    modifies screen, screen.obuf, screen.shadow, net`log, net`marks, net.conns, set c | c in net.conns :: c.sbuf
    ensures screen.Valid() && net.Valid() && net.AllSteady() && |out| <= TX_BUDGET
    ensures net.log == old(net.log) + out
    ensures screen.tty == FeedAll(old(screen.tty), out)
    ensures forall i :: 0 <= i < |net.conns| && Net.Admitted(net.conns[i]) ==>
              old(Net.Admitted(net.conns[i])) && net.conns[i].v.stream == old(net.conns[i].v.stream) + out
    ensures |out| == TX_BUDGET || AllShown(screen, scr) || Held(net)
  {
    hide Renderer.Valid, Net.Valid, FeedAll, Feed, Renderer.Buffers, AllShown, Held;
    var budget := TX_BUDGET;
    out := [];
    screen.ValidBuffers();
    net.SizesHold();
    FeedNothing(screen.tty);
    while budget > 0
      invariant screen.Valid() && screen.Buffers() && net.Valid() && 0 <= budget && |out| + budget == TX_BUDGET
      invariant |net.joined| == |net.conns| == |net.marks|
      invariant forall i :: 0 <= i < |net.conns| && Net.Admitted(net.conns[i]) ==>
                  && old(Net.Admitted(net.conns[i])) && net.conns[i].v.stream == old(net.conns[i].v.stream) + out
                  && net.joined[i] == old(net.joined)[i] && old(net.marks)[i] <= net.marks[i]
      invariant net.log == old(net.log) + out && screen.tty == FeedAll(old(screen.tty), out)
    {
      ghost var before := screen.tty;
      label rendering:
      var b := PumpByte(screen, net, scr, now);
      net.SizesHold();
      forall i | 0 <= i < |net.conns| && Net.Admitted(net.conns[i])
        ensures net.joined[i] == old(net.joined)[i] && old(net.marks)[i] <= net.marks[i]
      {
        assert net.Steady@rendering(i);
      }
      if b < 0 {
        break;
      }
      FeedConcat(old(screen.tty), out, [b as byte]);
      FeedOne(before, b as byte);
      out := out + [b as byte];
      budget := budget - 1;
    }
  }
}
