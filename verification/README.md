# DOSSH in Dafny

DOSSH is a resident DOS program that mirrors the text screen of the machine to remote terminals, over
telnet or SSH, with its own TCP stack and cryptography. This project models its core and proves what the
code relies on:

- **TCP** (`TcpView`, `Tcp`, `TcpSystem`, `Slots`, `Checksum`, `TcpWire`): connections as objects with their rings and
  wrapping sequence numbers, tied to ghost streams; a network that loses, duplicates and reorders; the slot
  table, its timers and the all-or-none broadcast; frames as bytes.
- **The renderer** (`Terminal`, `Ansi`, `Frame`, `Cp437`, `Render`, `Pump`): the terminal as an automaton fed
  byte by byte, and the renderer as an object whose ghost terminal receives exactly what it hands out, while
  video memory changes at will between calls.
- **Arithmetic** (`Bytes`, `Limbs`, `Poly1305`, `ScalarModL`, `Field25519`, `FieldMul`, `SlidingWindow`,
  `Sha256`, `Sha256Standard`): limb code against integer specifications, overflow bounds included.
- **SSH** (`SshWire`, `SshRecord`, `SshKex`, `SshServer`, `SshAuth`, `SshRuns`, `SshSafety`, `SshClient`,
  `SshCredit`, `SshExchange`, `SshOffer`, `SshReplies`, `SshSession`, `SshOrder`, `SshOverrun`, `SshInput`, `KeyRing`,
  `Base64`, `SshPump`, `SshLeftover`): records, key exchange, the authentication gate, flow control, the byte-fed
  front end, a client that knows only its own messages and our bytes, and the tick: polling, new sessions, input,
  replies, keystrokes, teardown and the encrypted broadcast over one shared output queue.
  `SshServer` holds what each message does to a connection; the other modules prove things about it.

Screen memory, cursor, clock, arriving frames and random bytes are parameters. The ChaCha20 keystream, X25519,
Ed25519 signing and verification are uninterpreted functions; Poly1305 and SHA-256 are the modelled ones.
C masks, shifts and disjoint `|` are written as `%`, `/` and `+`.

Where code and comment disagree, or a property does not hold:

- `FE_CARRY` states `|t0| < 2^63`; its first sum then overflows for t0 near 2^63. `StatedCarryBound` gives the
  exact condition, which every modelled caller meets.
- `ssh_channel_emit` states that n + 40 bytes always suffice; the wire can reach n + 41. `EmitFitsIff`
  says exactly when they do not; the 240 bytes the broadcast offers always do (`WireBound`).
- Handlers that set a phase after sending overwrite the error phase of an output overflow, so phases are
  monotone from packet to packet, not from statement to statement.
- `ssh_channel_flush` in the error phase sends its first chunk without paying for it or removing it, so the
  serial worker, which flushes every tick, can repeat it and exceed the granted window. `FlushConservesIff` is
  the exact condition for a flush, `SpendIff` for every call; `SshOverrun` holds a whole session, from reset on,
  that ends with more sent than granted. Only `FlowControl` needs the condition: the other theorems hold over
  every run, such flushes included.
- `ssh_pump_output` is said to drain the output queue always, so that the buffer the slots share never carries
  bytes of one slot into another. It does so exactly when the queued bytes fit the ring (`DrainedIff`).
  `SshLeftover` holds a run in which they do not: a client that has replies sent to it and acknowledges none.
  What then stays goes to the slot served next (`Serve`, `Misdelivered`). `Tick` says what holds unless that
  happens, and when it cannot.
- The comment at `net.c:438-439` leaves a lost SYN+ACK to retransmission. The rewind of `tcp_timer` takes the number of
  the SYN back and never counts it again: the handshake completes if its SYN is acknowledged before the timer runs out
  (`HalfOpenOpens`), and otherwise never (`HalfOpenStuck`).
- Once a connection has failed, what remains in the input buffer depends on how the input was cut; nothing
  else does. Output overflow need not be excluded.

## Model

| member | source | states |
|---|---|---|
| `Poly1305.BlockStep` | dosshd/crypto/monocypher.c:329-358 | one block: h becomes (h + c)·r modulo 2^130 − 5, h keeps its bound of 5·2^128, no 32- or 64-bit intermediate overflows |
| `Poly1305.FoldedProduct` | dosshd/crypto/monocypher.c:337-342 | the five columns are the schoolbook product with multiples of 2^130 − 5 taken out |
| `Poly1305.Column` | dosshd/crypto/monocypher.c:337-341 | five 64-bit products and their sum fit 64 bits under the clamping bounds |
| `Poly1305.Reduce` | dosshd/crypto/monocypher.c:344-350 | the carry chain keeps the value modulo 2^130 − 5 and restores the bound |
| `Poly1305.Context.PolyBlocks` | dosshd/crypto/monocypher.c:310-364 | a run of blocks is the fold of the specification over them |
| `Poly1305.AccumulateBlocks` | dosshd/crypto/monocypher.c:310-364 | folding whole blocks and then the rest is folding the whole message |
| `Poly1305.BlockFoldModP` | dosshd/crypto/monocypher.c:310-364 | partial reduction between blocks never changes the final residue |
| `Poly1305.ClampLimbs` | dosshd/crypto/monocypher.c:366-375 | clamping the four words is clamping the sixteen bytes |
| `Poly1305.Context.Update` | dosshd/crypto/monocypher.c:377-411 | whatever the alignment, an update appends its bytes to the message absorbed |
| `Poly1305.Context.Final` | dosshd/crypto/monocypher.c:413-440 | the tag of the message absorbed |
| `Poly1305.Finish` | dosshd/crypto/monocypher.c:425-438 | the final reduction and addition of the pad are exact |
| `Poly1305.MacOfUpdates` | dosshd/crypto/monocypher.c:366-440 | for every key, message and split into updates, the tag of section 2.5 of RFC 8439 |
| `ScalarModL.MulAdd` | dosshd/crypto/monocypher.c:1576-1587 | multi-limb multiply-accumulate without carry overflow |
| `ScalarModL.IsAboveL` | dosshd/crypto/monocypher.c:1589-1599 | true exactly when the 256-bit number is at least L |
| `ScalarModL.RemoveL` | dosshd/crypto/monocypher.c:1605-1614 | subtracts L once if possible, also in place |
| `ScalarModL.Barrett` | dosshd/crypto/monocypher.c:1617-1659 | the quotient estimate is at most one short |
| `ScalarModL.TruncatedProduct` | dosshd/crypto/monocypher.c:1638-1646 | the truncated product is q·L modulo 2^256 |
| `ScalarModL.ModL` | dosshd/crypto/monocypher.c:1617-1659 | x mod L for every 512-bit x |
| `ScalarModL.EddsaReduce` | dosshd/crypto/monocypher.c:1661-1667 | a 64-byte hash modulo L |
| `ScalarModL.EddsaMulAdd` | dosshd/crypto/monocypher.c:1670-1681 | (a·b + c) mod L, the S computation of section 5.1.6 of RFC 8032 |
| `Field25519.FeCarry` | dosshd/crypto/monocypher.c:1108-1122 | keeps the value modulo 2^255 − 19 and establishes the stated limb bounds |
| `Field25519.StatedCarryBound` | dosshd/crypto/monocypher.c:1049-1052 | a t0 within the stated bound whose first sum overflows; the guard is the precondition of FeCarry |
| `Field25519.Chain` | dosshd/crypto/monocypher.c:1178-1189 | one carry pass gives the unique tight limbs and the excess over 2^255 |
| `Field25519.SignOfChain` | dosshd/crypto/monocypher.c:1169-1185 | the carry of the first pass is the sign of h |
| `Field25519.FromBytes` | dosshd/crypto/monocypher.c:1131-1150 | the low 255 bits, modulo 2^255 − 19, with the carried limb bounds |
| `Field25519.ToBytes` | dosshd/crypto/monocypher.c:1164-1199 | the canonical 32 bytes of the value |
| `Field25519.Canonicalise` | dosshd/crypto/monocypher.c:1131-1199 | decoding then encoding any 32 bytes gives the canonical encoding of the low 255 bits |
| `Field25519.CanonicalIsUnique` | dosshd/crypto/monocypher.c:1164-1199 | no other 32-byte string below the modulus has that residue |
| `FieldMul.ColumnsAreProduct` | dosshd/crypto/monocypher.c:1228-1275 | the ten columns stand for the product modulo 2^255 − 19 |
| `FieldMul.FeMul` | dosshd/crypto/monocypher.c:1221-1276 | field multiplication within the stated limb bounds, no 64-bit overflow |
| `SlidingWindow.WindowCovers` | dosshd/crypto/monocypher.c:1941-1965 | a window accounts for exactly the bits it spans |
| `SlidingWindow.WindowBounds` | dosshd/crypto/monocypher.c:1944-1952 | a window is not zero and stays within its width |
| `SlidingWindow.LowestBitSplits` | dosshd/crypto/monocypher.c:1953-1959 | the window is an odd digit times a power of two |
| `SlidingWindow.Log2` | dosshd/crypto/monocypher.c:1954-1957 | the three mask tests give the position of the lowest bit |
| `SlidingWindow.TopBit` | dosshd/crypto/monocypher.c:1920-1939 | nothing is owed above the first check |
| `SlidingWindow.Slide.Step` | dosshd/crypto/monocypher.c:1941-1965 | each step pays off exactly its digit; a nonzero digit has a table entry |
| `SlidingWindow.Recode` | dosshd/crypto/monocypher.c:1914-1965 | the digits of the whole loop sum to the scalar; every nonzero one is odd and indexes its table |
| `SlidingWindow.DoubleScalar` | dosshd/crypto/monocypher.c:1991-2021 | the merged ladder with widths 3 and 5 computes the combination of both scalars |
| `Sha256.Transform` | dosshd/crypto/sha256.c:35-62 | the compression function of section 6.2 of FIPS 180-4 |
| `Sha256.Context.AddLen` | dosshd/crypto/sha256.c:80-87 | the two words stay the bit count modulo 2^64 |
| `Sha256.Context.Update` | dosshd/crypto/sha256.c:89-101 | appends its bytes to the message absorbed |
| `Sha256.Context.Final` | dosshd/crypto/sha256.c:103-145 | padding in one or two blocks; the digest of the message absorbed |
| `Sha256.DigestOfUpdates` | dosshd/crypto/sha256.c:64-145 | for every split into updates the digest is that of the whole message |
| `Sha256Standard.RoundTable` | dosshd/crypto/sha256.c:16-33 | the rows that follow are the 64 round constants in order |
| `Sha256Standard.RoundWords0` | dosshd/crypto/sha256.c:16-33 | round constants 0 to 7: the first 32 bits of the fraction of the cube root of the prime, as an integer inequality |
| `Sha256Standard.RoundWords1` | dosshd/crypto/sha256.c:16-33 | round constants 8 to 15: the first 32 bits of the fraction of the cube root of the prime, as an integer inequality |
| `Sha256Standard.RoundWords2` | dosshd/crypto/sha256.c:16-33 | round constants 16 to 23: the first 32 bits of the fraction of the cube root of the prime, as an integer inequality |
| `Sha256Standard.RoundWords3` | dosshd/crypto/sha256.c:16-33 | round constants 24 to 31: the first 32 bits of the fraction of the cube root of the prime, as an integer inequality |
| `Sha256Standard.RoundWords4` | dosshd/crypto/sha256.c:16-33 | round constants 32 to 39: the first 32 bits of the fraction of the cube root of the prime, as an integer inequality |
| `Sha256Standard.RoundWords5` | dosshd/crypto/sha256.c:16-33 | round constants 40 to 47: the first 32 bits of the fraction of the cube root of the prime, as an integer inequality |
| `Sha256Standard.RoundWords6` | dosshd/crypto/sha256.c:16-33 | round constants 48 to 55: the first 32 bits of the fraction of the cube root of the prime, as an integer inequality |
| `Sha256Standard.RoundWords7` | dosshd/crypto/sha256.c:16-33 | round constants 56 to 63: the first 32 bits of the fraction of the cube root of the prime, as an integer inequality |
| `Sha256Standard.InitialWords` | dosshd/crypto/sha256.c:64-78 | the initial words: the first 32 bits of the fraction of the square root of the first eight primes |
| `Sha256Standard.Chooses` | dosshd/crypto/sha256.c:7-14 | Ch takes each bit from y where x has a one and from z where it has a zero |
| `Sha256Standard.Majority` | dosshd/crypto/sha256.c:7-14 | Maj is the bit on which two of the three agree |
| `Sha256Standard.IsBigSigma0` | dosshd/crypto/sha256.c:7-14 | exclusive or of the circular shifts by 2, 13 and 22 |
| `Sha256Standard.IsBigSigma1` | dosshd/crypto/sha256.c:7-14 | of those by 6, 11 and 25 |
| `Sha256Standard.IsSmallSigma0` | dosshd/crypto/sha256.c:7-14 | of those by 7 and 18 and the shift by 3 |
| `Sha256Standard.IsSmallSigma1` | dosshd/crypto/sha256.c:7-14 | of those by 17 and 19 and the shift by 10 |
| `TcpView.AckTest` | dosshd/net.c:477-485 | the wrapping comparison accepts an acknowledgement exactly when it lies in (snd_una, snd_nxt] |
| `TcpView.AckAdvances` | dosshd/net.c:477-485 | an ACK with the number of an offset a sent and not yet acknowledged moves the oldest unacknowledged byte to exactly a |
| `TcpView.AckIgnored` | dosshd/net.c:477-485 | one that carries the number of no such offset changes nothing |
| `TcpView.DataTaken` | dosshd/net.c:487-501 | data at the next offset is kept as far as the window goes, then the window is closed; at any other offset nothing is |
| `TcpView.WindowIsRoom` | dosshd/net.c:305-306 | the window is the number of bytes that can still be held |
| `Tcp.Conn.PutC` | dosshd/net.c:650-663 | refused exactly when the ring is full; otherwise the stream grows by the byte |
| `Tcp.Conn.RoomLeft` | dosshd/net.c:681-690 | the ring room, from masked indices |
| `Tcp.Conn.GetC` | dosshd/net.c:709-721 | the next received byte in order, or -1 |
| `Tcp.Conn.SendSeg` | dosshd/net.c:291-326 | sequence, acknowledgement, free space and ring bytes of a segment |
| `Tcp.Conn.Output` | dosshd/net.c:329-345 | everything unsent, cut into segments that carry the stream at their offsets; arms the timer |
| `Tcp.Conn.Store` | dosshd/net.c:487-501 | in-order data is kept as far as the advertised window, the rest left unacknowledged |
| `Tcp.Conn.TakeAck` | dosshd/net.c:477-485 | the wrapped test and update of the code are the acknowledgement of TcpView, whose meaning AckAdvances and AckIgnored give; it rearms the timer and clears the count when it advances |
| `Tcp.Conn.Receive` | dosshd/net.c:464-507 | the whole effect of a segment on a live slot, by phase, and its replies |
| `Tcp.Conn.Timer` | dosshd/net.c:510-526 | go-back-N, the SYN+ACK again for a half-open slot, or the slot given up after the last retransmission |
| `Tcp.Conn.Open` | dosshd/net.c:437-461 | a SYN sets the slot up afresh and answers SYN+ACK |
| `Tcp.Conn.ResetListen` | dosshd/net.c:280-287 | an empty, unadmitted listening slot |
| `TcpSystem.StepKeepsInv` | dosshd/net.c:291-345 | every step of sender, receiver or network keeps the system invariant |
| `TcpSystem.EndToEnd` | dosshd/net.c:291-345 | any loss, duplication, reordering: both receipts are prefixes of what was written, segments carry the bytes their numbers name and acknowledge what has been received, no unreceived byte loses its ring place |
| `TcpSystem.EdgeOverRun` | dosshd/net.c:305-306 | over any run the right edge of the receive window never moves left |
| `TcpSystem.HonouredWindowNeverRefused` | dosshd/net.c:487-501 | a peer that honours advertised windows never has a byte refused |
| `TcpSystem.GoBackNRecovers` | dosshd/net.c:510-526 | from every reachable state one rewind and one burst bring the peer up to date |
| `TcpSystem.AckDelivered` | dosshd/net.c:477-485 | over any run, a segment delivered in time leaves the oldest unacknowledged byte at exactly the larger of what it was and what the segment acknowledges |
| `TcpSystem.AckEmptiesRing` | dosshd/net.c:477-485 | once the peer has everything, its acknowledgement delivered in time leaves nothing unacknowledged |
| `Checksum.Sum16` | dosshd/net.c:156-164 | the sum of 16-bit words, odd lengths included, without leaving 32 bits |
| `Checksum.SegmentChecksum` | dosshd/net.c:316-322 | the checksum of a segment with its pseudo-header |
| `Checksum.Fin16` | dosshd/net.c:165-170 | the complement of a sum folded without changing it modulo 65535 |
| `Checksum.ChecksumVerifies` | dosshd/net.c:316-322 | with the checksum in its field, any receiver sum folds to all ones |
| `TcpWire.BuildSegment` | dosshd/net.c:291-326 | the bytes of a segment, with and without the MSS option; its checksum verifies at any receiver |
| `TcpWire.BuildFrame` | dosshd/net.c:185-208 | the Ethernet and IP headers around it; the header checksum verifies |
| `TcpWire.FrameRoundTrip` | dosshd/net.c:407-431 | what is built for a segment is read back as that segment, from our address and port, by the host it is for and by no other address or port |
| `TcpWire.FlagsSent` | dosshd/net.c:454 | the flag bytes the code sends: 0x12, 0x10, 0x18, 0x14 |
| `Slots.Net.FindConn` | dosshd/net.c:348-357 | the live slot of that peer, or none exists |
| `Slots.Net.constructor` | dosshd/net.c:725-740 | every slot free, nothing sent |
| `Slots.Net.AllocConn` | dosshd/net.c:365-380 | a stalled slot of the same host first; which others may be taken, and exactly when none can |
| `Slots.Net.TcpIn` | dosshd/net.c:407-508 | which slot a frame touches, what it does to it, and the replies; no other slot changes, no stream of a lasting connection changes, at most one live slot per peer |
| `Slots.Net.Accept` | dosshd/net.c:437-461 | a SYN is answered SYN+ACK exactly when a slot can be had, from one that was free or this host held; otherwise it is refused |
| `Slots.Net.SlotReady` | dosshd/net.c:631-635 | admission changes one flag; a newcomer is owed only what follows |
| `Slots.Net.SlotDrop` | dosshd/net.c:638-647 | frees one slot with a RST+ACK if it was established, touches no other |
| `Slots.Net.TakeNewSlot` | dosshd/net.c:587-597 | the first slot whose handshake has completed since it was last asked, once; -1 when there is none |
| `Slots.Net.Broadcast` | dosshd/net.c:608-627 | all or none: refused exactly when a live slot is full, then every surviving ring is unchanged and a full slot is still alive |
| `Slots.Net.PutSlot` | dosshd/net.c:650-663 | one byte for one slot; no other slot changes |
| `Slots.Net.RxGetC` | dosshd/net.c:709-721 | pops the received bytes of one slot in order; -1 only when nothing is unread |
| `Slots.Net.Poll` | dosshd/net.c:549-570 | exactly what each timer did, from deadline, count and what is outstanding: nothing, a rewind with its new count and deadline (and one SYN+ACK if half-open), or the slot given up; then what the frame did and was answered; then the bursts and the timers they start |
| `Slots.DueResent` | dosshd/net.c:510-526 | data whose deadline has passed is sent again, from the oldest unacknowledged byte to the end of the stream, in the bursts of the same poll, and counted |
| `Slots.PollWaits` | dosshd/net.c:510-526 | a poll without progress leaves a waiting slot gone or one retransmission further, its deadline in step with its count |
| `Slots.HalfOpenStuck` | dosshd/net.c:510-526 | once the timer of a half-open slot has run out, the acknowledgement of its SYN no longer opens it and no timer runs again |
| `Slots.HalfOpenOpens` | dosshd/net.c:464-473 | before that it does |
| `Slots.AdmittedAgree` | dosshd/net.c:608-627 | the broadcast bytes in the streams of any two admitted slots agree since the later one joined |
| `Slots.CastSince` | dosshd/net.c:608-627 | while a slot stays admitted its stream takes exactly the bytes accepted meanwhile |
| `Slots.Reap` | dosshd/net.c:510-526 | polled every tick, whatever arrives and whatever is written: a slot whose peer acknowledges nothing new is gone within 25·9 ticks of the arming of its timer |
| `Terminal.FeedConcat` | test/ansiterm.py:59-116 | feeding a stream in pieces is feeding it whole |
| `Ansi.DecimalRoundTrip` | dosshd/render.c:59-65 | the number written is the number a terminal reads |
| `Ansi.CupEffect` | dosshd/render.c:66-69 | positions the cursor and nothing else |
| `Ansi.SgrEffect` | dosshd/render.c:70-78 | the terminal then shows the colours and blink that the VGA attribute stands for |
| `Ansi.CodesShow` | dosshd/render.c:70-78 | for all 256 attributes the colours of the codes sent, red, green and blue by bits 0 to 2 and bright from 90, are those of the VGA attribute, blue, green, red and intensity by bits 0 to 3, background by bits 4 to 6, blink by bit 7 |
| `Ansi.GlyphEffect` | dosshd/render.c:79-84 | writes one cell and moves right |
| `Ansi.Resynchronise` | dosshd/render.c:163-168 | the first five bytes of a frame bring a parser interrupted anywhere back to its ground state |
| `Ansi.SgrLength` | dosshd/render.c:70-78 | at most 12 bytes, as the reserve assumes |
| `Frame.CellStep` | dosshd/render.c:189-200 | one emitted cell brings its terminal cell into agreement and keeps all others |
| `Cp437.TableHolds` | dosshd/cp437.c:12-99 | every code is one printable glyph of one to three bytes, no raw control byte |
| `Cp437.GlyphReads` | dosshd/cp437.c:12-99 | each glyph is the UTF-8 form of the character of its code; ASCII stands for itself |
| `Render.ChangesZero` | dosshd/render.c:148-153 | the diff count is zero exactly when shadow and screen agree |
| `Render.Renderer.Emit` | dosshd/render.c:57-58 | every byte is stored: the buffer guard never drops one |
| `Render.Renderer.EmitNum` | dosshd/render.c:59-65 | the decimal digits, high first |
| `Render.Renderer.EmitCell` | dosshd/render.c:192-197 | move, colour and glyph in at most 24 bytes |
| `Render.Renderer.FrameDecide` | dosshd/render.c:112-173 | which frame starts: when none does on a shadowed mode the screen is what the shadow holds; it repaints everything exactly when the shadow is of no use, a repaint is due or over three quarters have changed; any other change opens the window for repaints |
| `Render.Renderer.FrameFill` | dosshd/render.c:176-215 | advances at least one cell, keeps terminal and shadow in agreement, finishes with room for the tail |
| `Render.Renderer.Reset` | dosshd/render.c:103-109 | from any state; the next frame repaints |
| `Render.Renderer.NextByte` | dosshd/render.c:217-226 | the terminal gets exactly the bytes handed out; an active frame progresses; -1 only when nothing is owed; silence past the heal window |
| `Render.Renderer.Pushback` | dosshd/render.c:228 | the byte returns to the front and the terminal to where it was |
| `Render.Renderer.Mirrored` | dosshd/render.c:176-215 | drained between frames, the terminal shows the shadow, blanks beyond it, and the cursor where it was last put |
| `Render.Renderer.ShowsScreen` | dosshd/render.c:134-158 | and when nothing is owed, the screen, with its cursor |
| `Render.Renderer.Settle` | dosshd/render.c:112-226 | once the screen stops changing, and if nothing gets lost, the frame in progress plus at most one more bring the terminal to it: every cell in its character and VGA colours, blanks beyond it, the cursor where the screen has it, within the grid, and as visible as it was when that frame began |
| `Render.Renderer.Heal` | dosshd/render.c:119-131 | whatever has become of the terminal between frames, its parser in the middle of a sequence included, the repaint that falls due 36 ticks after the last one, on the network within 72 ticks of a change, makes it show the screen again |
| `Render.Renderer.Quiet` | dosshd/render.c:134-158 | on the network a settled screen past the heal window produces nothing, however often it is asked |
| `Render.ElapsedSpans` | dosshd/render.c:134-158 | tick differences are measured across the wrap-around of the counter |
| `Pump.TxPump` | dosshd/dosshd.c:194-213 | the stream of every slot still admitted grows by exactly the bytes the renderer handed out for good; it stops only after 512 bytes, when the renderer owes nothing, or when a slot cannot take more |
| `SshWire.RdStringIff` | dosshd/ssh.c:593-607 | the reader accepts exactly what the writer writes, inside the packet |
| `SshWire.StrPrefixFree` | dosshd/ssh.c:135-140 | strings are prefix-free |
| `SshWire.SignedDataInjective` | dosshd/ssh.c:674-693 | no two requests or sessions sign the same bytes |
| `SshWire.NlHas` | dosshd/ssh.c:251-264 | finds a name exactly when it is one of the list |
| `SshWire.XorAt` | dosshd/crypto/monocypher.c:219-275 | the exclusive or of the cipher, bit by bit |
| `SshRecord.RecordRoundTrip` | dosshd/ssh.c:209-241 | the receive path recovers exactly what was sealed |
| `SshRecord.Seal` | dosshd/ssh.c:195-233 | packet length a multiple of 8 and at most 256, wire at most payload + 32 |
| `SshRecord.PadLen` | dosshd/ssh.c:218-220 | padding of 4 to 11 bytes |
| `SshRecord.OpenedWasSealed` | dosshd/ssh.c:1042-1070 | only bytes sealed under this key and number are ever dispatched |
| `SshRecord.PlainRoundTrip` | dosshd/ssh.c:177-193 | unencrypted framing comes back through the unencrypted receive path |
| `SshRecord.NonceInjective` | dosshd/ssh.c:127-132 | different sequence numbers give different nonces |
| `SshRecord.NonceIsNumber` | dosshd/ssh.c:127-132 | the eight bytes are the packet number, most significant first |
| `SshRecord.SealLayout` | dosshd/ssh.c:209-233 | which key, nonce and keystream block covers each byte of the record, and what the tag authenticates |
| `SshRecord.FramedOpens` | dosshd/ssh.c:1042-1070 | the unencrypted path accepts whatever is framed and fits, with any padding |
| `SshRecord.OpenedWasFramed` | dosshd/ssh.c:1042-1070 | and nothing else |
| `SshKex.SplitExchangeHash` | dosshd/ssh.c:366-382 | absorbing the pieces in two halves gives the one-shot hash of section 8 of RFC 4253; ClientSession says the handlers pass the right ones |
| `SshKex.HashFirstHalf` | dosshd/ssh.c:427-434 | V_C, V_S, I_C and I_S absorbed in order |
| `SshKex.HashSecondHalf` | dosshd/ssh.c:465-470 | K_S, Q_C, Q_S and K absorbed in order, then the digest |
| `SshKex.BuildKmpint` | dosshd/ssh.c:343-356 | the mpint of the shared secret |
| `SshKex.MpintCanonical` | dosshd/ssh.c:343-356 | same value, never negative, no superfluous byte |
| `SshKex.DeriveKey` | dosshd/ssh.c:391-416 | the key expansion of section 7.2 of RFC 4253 at any length |
| `SshExchange.ClientSession` | dosshd/ssh.c:420-498 | over every run that has not failed and in which no record overtakes the queue, from the bytes sent alone: the client reads our identification, KEXINIT, host key and Q_S; the signature is over its own one-shot exchange hash; its keys, letter C for what it sends and D for what it receives, are the server ones; and with them it opens what follows NEWKEYS, from the packet number it has counted to, as exactly the sealed payloads |
| `SshExchange.ExchangeStep` | dosshd/ssh.c:439-498 | the packet that makes the keys: what is read of the reply, which secret, which hash, which keys |
| `SshExchange.EarlyRun` | dosshd/ssh.c:420-437 | until then: the identification and KEXINIT received are the ones absorbed, and the client reads our KEXINIT |
| `SshExchange.HearsExchange` | dosshd/ssh.c:484-498 | reply and NEWKEYS are read in the clear, whatever follows |
| `SshExchange.Exchanges` | dosshd/ssh.c:439-470 | the keys come from the client key in this packet and 32 bytes of the tape drawn now |
| `SshExchange.ExchangesIff` | dosshd/ssh.c:439-463 | keys are made if and only if the packet holds a key of 32 bytes whose shared secret is not zero |
| `SshOffer.NegotiateIff` | dosshd/ssh.c:307-341 | a KEXINIT is agreed to if and only if its lists name the curve, the host key type and the cipher for each direction; a guess is discarded exactly when there is one and it is wrong |
| `SshOffer.MalformedIff` | dosshd/ssh.c:307-341 | it is malformed if and only if it does not hold ten name-lists and a boolean |
| `SshOffer.NamesJoined` | dosshd/ssh.c:251-273 | splitting a name-list undoes joining it |
| `SshOffer.OurKexinitOffers` | dosshd/ssh.c:283-305 | our KEXINIT is the offer of one algorithm of each kind, no compression, no guess |
| `SshAuth.GateIff` | dosshd/ssh.c:752-792 | a request authenticates if and only if it carries the password, an authorised verified signature, or the box is open |
| `SshAuth.ProbeNeverAuthenticates` | dosshd/ssh.c:731-735 | a publickey request with boolean FALSE, whatever follows, never authenticates on a gated box |
| `SshAuth.SignatureSound` | dosshd/ssh.c:704-750 | an accepted publickey request is an authorised key with a verified signature over this session |
| `SshAuth.SignatureFits` | dosshd/ssh.c:681-683 | the guard on the preimage buffer never fires for a packet that fitted the input buffer |
| `SshReplies.Verdict` | dosshd/ssh.c:752-792 | a userauth request is accepted, told its key would do, refused or fatal exactly by what its bytes say; it counts exactly when it neither lets in nor asks nor uses the method none; the third that counts disconnects with reason 14, the others are told exactly the methods the box has secrets for |
| `SshReplies.ProbeAnswered` | dosshd/ssh.c:652-668 | a question about an authorised key is answered with that key and changes nothing |
| `SshReplies.ServiceIff` | dosshd/ssh.c:508-531 | a service is accepted exactly when its name is a string of the packet shorter than 64 bytes; the answer names it |
| `SshReplies.GlobalIff` | dosshd/ssh.c:929-938 | a global request is refused exactly when a whole name and a true want-reply follow |
| `SshOrder.Milestones` | dosshd/ssh.c:940-994 | over any run each phase reached was reached through all phases before it, each on its own message |
| `SshOrder.OutOfTurn` | dosshd/ssh.c:940-994 | IGNORE, DEBUG and UNIMPLEMENTED do nothing and DISCONNECT ends the connection in every phase; any other message out of turn is fatal before authentication, a wrong guess excepted, and ignored from then on |
| `SshOrder.SealedIsDispatched` | dosshd/ssh.c:1023-1071 | what a client seals with its key in order is dispatched in that order, all of it, until the connection is over |
| `SshOrder.RunNumber` | dosshd/ssh.c:1023-1071 | the number of the next packet expected is the number of packets dispatched |
| `SshRuns.PacketKeeps` | dosshd/ssh.c:940-994 | every packet keeps every invariant and moves no phase back |
| `SshRuns.PacketGate` | dosshd/ssh.c:940-994 | a packet authenticates exactly when justified and received while authenticating |
| `SshRuns.EcdhSends` | dosshd/ssh.c:484-498 | reply and NEWKEYS go out in the clear, so the keys just derived have sealed nothing; every invariant is kept |
| `SshRuns.RejectKeeps` | dosshd/ssh.c:576-584 | a rejection leaves fewer than three counted failures, or leaves the authentication phase |
| `SshRuns.DataKeeps` | dosshd/ssh.c:907-921 | channel data keeps every invariant: the ring below its size, the window within its bounds |
| `SshServer.Typed` | dosshd/ssh.c:911-919 | the keystroke ring takes the data in order, and drops only what follows a full ring |
| `KeyRing.Ring.TypeIn` | dosshd/ssh.c:907-920 | the loop over the ring refines that |
| `KeyRing.Ring.GetC` | dosshd/ssh.c:1238-1246 | the oldest keystroke, or -1; the rest stays in order |
| `SshRuns.TakenFlow` | dosshd/ssh.c:889-905 | data taken comes off our window and an adjustment offers exactly what was used |
| `SshRuns.ConsumeKeeps` | dosshd/ssh.c:889-905 | our window stays between 16384 and 32768 |
| `SshRuns.AdjustKeeps` | dosshd/ssh.c:923-927 | wrapping the peer window modulo 2^32 never creates credit |
| `SshRuns.FlushKeeps` | dosshd/ssh.c:1256-1288 | unless it repeats itself: staged bytes go out in order, each once, all paid for |
| `SshRuns.FlushSafe` | dosshd/ssh.c:1256-1288 | in every phase, a repeating flush included, keys, packet numbers and gate are kept |
| `SshRuns.FlushConservesIff` | dosshd/ssh.c:1256-1288 | credit is conserved exactly unless a flush sends in the error state |
| `SshRuns.EmitKeeps` | dosshd/ssh.c:1302-1320 | a framed chunk is paid for; a refusal changes nothing; with nothing queued the record continues the stream the client reads |
| `SshRuns.SendReads` | dosshd/ssh.c:160-241 | what is sealed is queued as one more record for the client to open in its turn, or the connection has failed |
| `SshRuns.CloseSafe` | dosshd/ssh.c:1330-1361 | the farewell keeps keys and gate in every phase, and credit unless its flush repeats itself |
| `SshRuns.StepKeeps` | dosshd/ssh.c:1095-1361 | every event in every phase keeps keys, gate and the size of the queue; one that does not overspend keeps flow control; one that does not overtake the queue keeps the stream readable |
| `SshRuns.SpendIff` | dosshd/ssh.c:1256-1361 | flush, close and emit conserve credit if and only if they do not overspend |
| `SshSafety.ResetInv` | dosshd/ssh.c:1075-1093 | the invariants hold after reset and nothing overflows |
| `SshSafety.RunForward` | dosshd/ssh.c:940-994 | over any run no phase moves back, keys are derived at most once, nobody is de-authenticated |
| `SshSafety.WhoAuthenticated` | dosshd/ssh.c:752-792 | over any run: authenticated only after a justified request |
| `SshSafety.BeforeAuthentication` | dosshd/ssh.c:907-921 | before that no byte enters the keystroke ring, no channel opens, fewer than three failures are counted |
| `SshSafety.NonceNeverReused` | dosshd/ssh.c:209-233 | over any run of at most 2^32 packets no key and nonce pair repeats |
| `SshSafety.FlowControl` | dosshd/ssh.c:1256-1320 | the books of the server over any run in which no flush repeats itself, failed or not: data sent within the credit granted; our window exactly the credit the client has left, between 16384 and 32768; SshCredit reads the books from the bytes |
| `SshCredit.FlowOnTheWire` | dosshd/ssh.c:804-927 | over any run that has not failed, read from the payloads alone: the channel data sent is within the credit of the CHANNEL_OPEN and WINDOW_ADJUST packets received and no message exceeds the packet size they allow; the window confirmed and adjusted is the data received plus the room left, between 16384 and 32768, and the packet size confirmed is 1024 |
| `SshCredit.ConfirmationReads` | dosshd/ssh.c:835-843 | the client reads a window of 32768 and packets of 1024, addressed to it |
| `SshCredit.RunTold` | dosshd/ssh.c:804-905 | what the server believes it has offered and sent is what its sealed payloads say |
| `SshCredit.RunBooks` | dosshd/ssh.c:804-927 | what it believes it has been granted and sent is what the arriving packets say |
| `SshSession.OpenRefused` | dosshd/ssh.c:804-845 | a CHANNEL_OPEN that opens no session is refused to its sender, reason 1 or 3 |
| `SshSession.OpenConfirmed` | dosshd/ssh.c:804-845 | one that does is confirmed to its sender as channel 0 |
| `SshSession.RequestDone` | dosshd/ssh.c:847-887 | a channel request does what its bytes ask; it is answered only if it wants to be, with success exactly when it is known |
| `SshSession.DataTyped` | dosshd/ssh.c:907-921 | the string of a CHANNEL_DATA is typed as far as the ring has room |
| `SshSession.ClosingSays` | dosshd/ssh.c:1330-1361 | the farewell: exit status zero of a shell, EOF unless said, CLOSE |
| `SshSession.FlushStops` | dosshd/ssh.c:1256-1288 | a flush leaves bytes staged only for want of credit or of room |
| `SshSafety.ClientInStep` | dosshd/ssh.c:160-241 | over any run in which no record overtakes the queue, a client that opens the bytes sent has read the sealed payloads in order from the first, all of them exactly when the queue is empty, and then expects the next number |
| `SshOverrun.ReadListsBack` | dosshd/ssh.c:307-322 | the KEXINIT reader reads back whatever name-lists were written |
| `SshOverrun.HandshakeRun` | dosshd/ssh.c:1075-1107 | on every open box whose key agreement some client key takes to a nonzero secret, for each secret key: a run from reset through key exchange and the gate into the session |
| `SshOverrun.FlushInErrorOverruns` | dosshd/ssh.c:1256-1288 | on every such box a run that sends two bytes on a credit of one |
| `SshOverrun.PlainHostOverruns` | dosshd/ssh.c:1256-1288 | the same for one concrete host, whose key agreement takes the zero point to the zero secret |
| `SshInput.ChunkingIndependent` | dosshd/ssh.c:1095-1107 | any split of the input gives the same state, dispatched payloads and output |
| `SshInput.StepStable` | dosshd/ssh.c:999-1071 | a line or packet once complete is the same whatever has arrived behind it |
| `SshInput.LineTaken` | dosshd/ssh.c:999-1020 | the line of the version exchange, with or without CR: an identification of up to 255 characters is taken without its ending, any other line skipped, one past the limit fatal |
| `SshInput.PumpIsRun` | dosshd/ssh.c:1095-1107 | whatever bytes arrive, their effect is a run of events |
| `SshInput.InputKeeps` | dosshd/ssh.c:1095-1107 | whatever bytes arrive, the invariants, the credit and a readable stream are kept; replies are queued behind what was queued before |
| `SshInput.Connection.Feed` | dosshd/ssh.c:1095-1107 | the loop over the shifting buffer refines the specification |
| `SshInput.Connection.ScanVersion` | dosshd/ssh.c:999-1020 | one line of the version exchange, the length limit included |
| `SshInput.Connection.ScanPacket` | dosshd/ssh.c:1023-1071 | one packet, encrypted or not, or why not |
| `SshInput.Connection.Consume` | dosshd/ssh.c:168-172 | drops exactly the front of the buffer |
| `Base64.B64Decode` | dosshd/ssh.c:1176-1201 | the decoded bytes, or nothing if malformed or too long |
| `Base64.Base64RoundTrip` | dosshd/ssh.c:1163-1201 | decoding undoes encoding for every byte string |
| `Base64.KeyLineRoundTrip` | dosshd/ssh.c:1203-1229 | every key written as an OpenSSH line, with any padding and comment, is read back |
| `Base64.ParseKeyLine` | dosshd/ssh.c:1203-1229 | the key a line holds, of 32 bytes, or none |
| `SshPump.WireBound` | dosshd/ssh.c:1302-1320 | the wire length is at most n + 41, and at most 236 for n up to 200 |
| `SshPump.EmitFitsIff` | dosshd/ssh.c:1311-1313 | the room test suffices except for n + 40 bytes of room and n of the form 8k + 3 |
| `SshSession.AvailableIff` | dosshd/ssh.c:1292-1320 | what the channel is said to take is exactly what emit accepts, given room |
| `SshPump.EmittedOpens` | dosshd/ssh.c:1302-1320 | what was emitted opens as the channel data it carries |
| `SshClient.ReadsConcat` | dosshd/ssh.c:1042-1070 | reading on from a record boundary gives the payloads of both parts |
| `SshClient.ReadsLess` | dosshd/ssh.c:1042-1070 | whoever lacks the end of a stream of records has read fewer payloads |
| `SshClient.ClientHasRead` | dosshd/ssh.c:1042-1070 | of the bytes sent the client has read the first of the payloads, and all of them if and only if the queue is empty |
| `SshPump.EmitCarried` | dosshd/ssh.c:1302-1320 | one emitted record carries exactly its chunk and leaves both ends on the same packet number |
| `SshPump.PutBytes` | dosshd/dosshd.c:379-380 | bytes bounded by the room are all accepted |
| `SshPump.SshTick.Pace` | dosshd/dosshd.c:340-357 | the chunk fits every ready slot; only full and silent slots are evicted; a byte more would not fit some slot, unless the chunk is full |
| `SshPump.SshTick.Deliver` | dosshd/dosshd.c:371-381 | the stream of every ready slot grows by one record that opens to the chunk; no other slot changes |
| `SshPump.SshTick.Round` | dosshd/dosshd.c:335-382 | a slot with replies still queued has no room, so no record gets ahead of a reply; every connection in step with its stream stays so; nothing goes out only when the renderer owes nothing or some slot cannot take a byte |
| `SshPump.SshTick.Broadcast` | dosshd/dosshd.c:330-385 | the stream of every slot still served grows by whole records that its client opens in turn to everything rendered, once and in order; every connection in step with its stream stays so |
| `SshPump.DrainedIff` | dosshd/dosshd.c:276-294 | the pump empties the queue if and only if what is queued fits the ring |
| `SshPump.SshTick.PumpOutput` | dosshd/dosshd.c:280-294 | replies move to the ring in order, as many as fit |
| `SshPump.SshTick.Start` | dosshd/dosshd.c:395-406 | a fresh session on the slot; its first bytes go to the ring as far as they fit, all of them if its stream was empty, and it is then in step |
| `SshPump.SshTick.Newcomers` | dosshd/dosshd.c:395-407 | every slot whose handshake has completed gets such a session; nothing happens to any other |
| `SshPump.SshTick.ReadInput` | dosshd/dosshd.c:418-427 | what has arrived, at most 512 bytes, in order, goes to ssh_input |
| `SshPump.SshTick.Keystrokes` | dosshd/dosshd.c:435-443 | every keystroke in the ring is read, in order, and none is left for the next slot |
| `SshPump.SshTick.Repaint` | dosshd/dosshd.c:445-460 | a shell that has just come up or a new window size makes the next frame a full one; otherwise the renderer is left alone |
| `SshPump.WinSizeIs` | dosshd/ssh.c:1322-1326 | the size the client set, 80 by 25 until then, never zero |
| `SshPump.SshTick.Teardown` | dosshd/dosshd.c:463-469 | a session that is over is dropped, its queue discarded; any other is untouched |
| `SshPump.OverIff` | dosshd/dosshd.c:463-469 | a session is over exactly when its channel is or it no longer takes anything in |
| `SshPump.SshTick.Serve` | dosshd/dosshd.c:411-470 | the queue is given to a slot while it holds bytes of another exactly when the slot served last left some; whoever left them, they go first to this slot; otherwise the session stays in step |
| `SshPump.Misdelivered` | dosshd/dosshd.c:276-294 | in that case the next byte of the stream of the slot is one of the other session, whose client has not read it |
| `SshLeftover.LeftoverRun` | dosshd/ssh.c:160-193 | for every host a run after which all a ring holds has been sent and part of a reply is still queued |
| `SshLeftover.QueueStays` | dosshd/dosshd.c:276-294 | with nothing acknowledged the pump then leaves the queue as it is |
| `SshPump.PollPolls` | dosshd/dosshd.c:389 | what a poll can do to a slot between two ticks: a new one has an empty stream, an old one keeps its stream |
| `SshPump.SshTick.Tick` | dosshd/dosshd.c:387-475 | over a whole tick every connection stays in step with its stream, unless the queue got mixed up; a tick that begins with an empty queue and room for a full one in every ring does not mix it up and ends with it empty |
| `SshPump.ClientOfSlot` | dosshd/dosshd.c:330-475 | the client of a slot in step has read from its stream every reply and record, in order and from the first, up to those still queued; it expects the next number when none is |

## Left out

- Packet driver, interrupt hooks, UART, BIOS data area, install, uninstall: hardware and DOS plumbing.
- `telnet.c` and `ansikey.c`: the telnet negotiation and key-decoding automata are outside the model.
- Entropy collection: the random source is a tape of bytes.
- ChaCha20, X25519, Ed25519, the curve group law, field inversion and squaring: uninterpreted or not modelled; Argon2, Elligator and dirty keys are compiled out.
- A tie between the `ready` flag and a fresh login: the SYN path keeps the flag, so admission is the flag itself.
- Prompt eviction of a dead SSH client: the broadcast reserve keeps its ring from filling to the level the test needs; only the retransmission cap is claimed.
- Inbound checksums are not looked at, as in the code; a frame shorter than its headers say is not modelled.
- ARP, IP options and fragments, what the MSS option of a client says.
- Out-of-order buffering at the peer: the peer keeps in-order data only.
- Clock wrap-around while `Reap` waits: its ticks stay below 2^31.
- A change of cursor visibility alone: the idle test compares only the position, so nothing is sent for it until the next frame.
- Agreement of a mode too large for the shadow with the screen: only parser state, progress and capacity are kept there.
- SSH message handlers are functions on the connection record rather than methods on an object: update in place of `ssh_conn` fields by each handler is not captured; the input loop, buffer, hash and pumps are imperative.
- Sharing of the random tape and of the serial worker's staging buffer between SSH slots: each connection has its own. The keystroke ring is proved empty whenever it changes hands.
- `hdr`, `wire` and scratch buffers of fixed size inside SSH functions, and in-place encryption: values.
- `ssh_state_name` and the other getters.
- The `/EOF` option of `ssh_net_worker`: Ctrl-D is a keystroke like any other.
- `ssh_serial_worker`: its flush, close and drain are events of a run; its loop over the UART is not modelled.
