/** The chacha20-poly1305@openssh.com record layer of dosshd/ssh.c: sealing and opening one packet.
    The cipher's keystream is a parameter; the authenticator is Poly1305 itself. */
module SshRecord {
  import opened Bytes
  import opened SshWire
  import Poly1305

  const SSH_IB_SZ := 2048
  const SSH_ENC_MAX_PLEN := 247

  /** Keystream byte i for a key, a nonce and a starting block. */
  type Keystream = (seq<byte>, seq<byte>, nat, nat) -> byte

  /** seqbuf8. */
  function Nonce(num: nat): (n: seq<byte>)
    ensures |n| == 8
  {
    [0, 0, 0, 0] + BeBytes(num)
  }

  lemma NonceInjective(a: nat, b: nat)
    requires a < U32_LIMIT && b < U32_LIMIT && Nonce(a) == Nonce(b)
    ensures a == b
  {
    hide BeBytes, BeValue;
    assert Nonce(a)[4..] == BeBytes(a) && Nonce(b)[4..] == BeBytes(b);
    BeRoundTrip(a);
    BeRoundTrip(b);
  }

  /** The nonce is the packet number as a 64-bit big-endian number, as OpenSSH's PROTOCOL.chacha20poly1305 has it. */
  lemma NonceIsNumber(num: nat)
    requires num < U32_LIMIT
    ensures |Nonce(num)| == 8 && BigEndian(Nonce(num)) == num
  {
    hide BeBytes, BeValue;
    var n := Nonce(num);
    BigEndianZero(n);
    BigEndianZero(n[1..]);
    BigEndianZero(n[2..]);
    BigEndianZero(n[3..]);
    assert n[1..][1..] == n[2..] && n[2..][1..] == n[3..] && n[3..][1..] == n[4..] == BeBytes(num);
    BeIsBigEndian(BeBytes(num));
    BeRoundTrip(num);
  }

  /** dossh_chacha20_djb. */
  function Crypt(ks: Keystream, key: seq<byte>, nonce: seq<byte>, block: nat, data: seq<byte>): (r: seq<byte>)
    ensures |r| == |data|
    ensures forall i :: 0 <= i < |data| ==> r[i] == Xor(data[i], ks(key, nonce, block, i))
  {
    seq(|data|, i requires 0 <= i < |data| => Xor(data[i], ks(key, nonce, block, i)))
  }

  lemma CryptInverse(ks: Keystream, key: seq<byte>, nonce: seq<byte>, block: nat, data: seq<byte>)
    ensures Crypt(ks, key, nonce, block, Crypt(ks, key, nonce, block, data)) == data
  {
    hide Xor;
    var e := Crypt(ks, key, nonce, block, data);
    var d := Crypt(ks, key, nonce, block, e);
    forall i | 0 <= i < |data|
      ensures d[i] == data[i]
    {
      XorInverse(data[i], ks(key, nonce, block, i));
    }
  }

  /** The one-time key of the authenticator: the first 32 bytes of block 0. */
  function TagKey(ks: Keystream, key: seq<byte>, nonce: seq<byte>): (r: seq<byte>)
    ensures |r| == 32 && forall i :: 0 <= i < 32 ==> r[i] == ks(key, nonce, 0, i)
  {
    seq(32, i requires 0 <= i => ks(key, nonce, 0, i))
  }

  function Tag(ks: Keystream, key: seq<byte>, nonce: seq<byte>, data: seq<byte>): (t: seq<byte>)
    ensures |t| == 16
  {
    Poly1305.Mac(TagKey(ks, key, nonce), data)
  }

  // ----- sealing -----

  function PadLen(plen: nat): (n: nat)
    ensures 4 <= n <= 11 && (1 + plen + n) % 8 == 0
    ensures plen <= SSH_ENC_MAX_PLEN ==> 1 + plen + n <= 256
  {
    var n := 8 - (1 + plen) % 8;
    if n < 4 then n + 8 else n
  }

  function Body(payload: seq<byte>, pad: seq<byte>): (b: seq<byte>)
    requires |pad| < 256
    ensures |b| == 1 + |payload| + |pad|
  {
    [|pad| as byte] + payload + pad
  }

  function SealBody(ks: Keystream, ek: seq<byte>, num: nat, body: seq<byte>): (wire: seq<byte>)
    requires |ek| == 64
    ensures |wire| == 4 + |body| + 16
  {
    var n := Nonce(num);
    var sealed := Crypt(ks, ek[32..], n, 0, BeBytes(|body|)) + Crypt(ks, ek[..32], n, 1, body);
    sealed + Tag(ks, ek[..32], n, sealed)
  }

  /** aead_seal. */
  function Seal(ks: Keystream, ek: seq<byte>, num: nat, payload: seq<byte>, pad: seq<byte>): (wire: seq<byte>)
    requires |ek| == 64 && |pad| == PadLen(|payload|)
    ensures |wire| == |payload| + 21 + |pad| <= |payload| + 32 && |wire| > 20 && (|wire| - 20) % 8 == 0
    ensures |payload| <= SSH_ENC_MAX_PLEN ==> |wire| - 20 <= 256
  {
    hide PadLen, Body, SealBody;
    var body := Body(payload, pad);
    assert |body| % 8 == 0;
    SealBody(ks, ek, num, body)
  }

  /** The layout of OpenSSH's PROTOCOL.chacha20poly1305: the length under the second half of the key, from block 0; the
      body under the first half, from block 1; and the Poly1305 tag of both, keyed by the first 32 bytes of block 0. */
  lemma SealLayout(ks: Keystream, ek: seq<byte>, num: nat, payload: seq<byte>, pad: seq<byte>)
    returns (head: seq<byte>, enc: seq<byte>, tag: seq<byte>)
    requires |ek| == 64 && |pad| == PadLen(|payload|)
    ensures Seal(ks, ek, num, payload, pad) == head + enc + tag
    ensures Under(ks, ek[32..], Nonce(num), 0, BeBytes(1 + |payload| + |pad|), head)
    ensures Under(ks, ek[..32], Nonce(num), 1, [|pad| as byte] + payload + pad, enc)
    ensures tag == Poly1305.Mac(TagKey(ks, ek[..32], Nonce(num)), head + enc)
  {
    hide Xor, BeBytes, Nonce, PadLen, Poly1305.Mac, TagKey;
    var body := Body(payload, pad);
    var n := Nonce(num);
    head, enc := Crypt(ks, ek[32..], n, 0, BeBytes(|body|)), Crypt(ks, ek[..32], n, 1, body);
    tag := Tag(ks, ek[..32], n, head + enc);
  }

  /** The bytes of `data`, each exclusive-ored with its byte of the keystream. */
  predicate Under(ks: Keystream, key: seq<byte>, nonce: seq<byte>, block: nat, data: seq<byte>, wire: seq<byte>) {
    |wire| == |data| && forall i :: 0 <= i < |data| ==> wire[i] == Xor(data[i], ks(key, nonce, block, i))
  }

  // ----- opening -----

  datatype Opened = More | Bad | Packet(payload: seq<byte>, size: nat)

  /** The encrypted half of try_packet: what the front of the input buffer holds. */
  function Open(ks: Keystream, ek: seq<byte>, num: nat, ib: seq<byte>): (r: Opened)
    requires |ek| == 64
    ensures r.Packet? ==> 28 <= r.size <= |ib| && r.size <= SSH_IB_SZ && |r.payload| + 21 <= r.size
  {
    if |ib| < 4 then More
    else
      var n := Nonce(num);
      var len := BeValue(Crypt(ks, ek[32..], n, 0, ib[..4]));
      if len < 8 || len % 8 != 0 || 4 + len + 16 > SSH_IB_SZ then Bad
      else if |ib| < 4 + len + 16 then More
      else if Tag(ks, ek[..32], n, ib[..4 + len]) != ib[4 + len..4 + len + 16] then Bad
      else
        var body := Crypt(ks, ek[..32], n, 1, ib[4..4 + len]);
        var pad := body[0] as nat;
        if pad + 1 > len then Bad else Packet(body[1..len - pad], 4 + len + 16)
  }

  /** A body that can be sealed for this receiver. */
  predicate Sealable(body: seq<byte>) {
    8 <= |body| && |body| % 8 == 0 && 4 + |body| + 16 <= SSH_IB_SZ && body[0] as nat + 1 <= |body|
  }

  /** Sealed under the same key and number, a body comes back, whatever follows it in the buffer. */
  lemma OpenSealed(ks: Keystream, ek: seq<byte>, num: nat, body: seq<byte>, rest: seq<byte>)
    requires |ek| == 64 && Sealable(body)
    ensures Open(ks, ek, num, SealBody(ks, ek, num, body) + rest) == Packet(body[1..|body| - body[0] as nat],
        4 + |body| + 16)
  {
    hide Crypt, Tag, Nonce, BeBytes, BeValue;
    var n, len := Nonce(num), |body|;
    var ib := SealBody(ks, ek, num, body) + rest;
    var head, enc := Crypt(ks, ek[32..], n, 0, BeBytes(len)), Crypt(ks, ek[..32], n, 1, body);
    var tag := Tag(ks, ek[..32], n, head + enc);
    assert ib == head + enc + tag + rest;
    Pieces(head, enc, tag, rest);
    CryptInverse(ks, ek[32..], n, 0, BeBytes(len));
    CryptInverse(ks, ek[..32], n, 1, body);
    BeRoundTrip(len);
  }

  lemma Pieces(a: seq<byte>, b: seq<byte>, c: seq<byte>, d: seq<byte>)
    ensures var s, m, n := a + b + c + d, |a| + |b|, |a| + |b| + |c|;
            s[..|a|] == a && s[|a|..m] == b && s[..m] == a + b && s[m..n] == c
  {
  }

  /** And only sealed bodies are ever accepted: a packet dispatched is one that was sealed under this key and
      this sequence number, byte for byte. */
  lemma OpenedWasSealed(ks: Keystream, ek: seq<byte>, num: nat, ib: seq<byte>) returns (body: seq<byte>)
    requires |ek| == 64 && Open(ks, ek, num, ib).Packet?
    ensures Sealable(body) && Open(ks, ek, num, ib).size == 4 + |body| + 16
    ensures ib[..4 + |body| + 16] == SealBody(ks, ek, num, body)
    ensures Open(ks, ek, num, ib).payload == body[1..|body| - body[0] as nat]
  {
    hide Crypt, Tag, Nonce, BeBytes, BeValue;
    var n := Nonce(num);
    var plain := Crypt(ks, ek[32..], n, 0, ib[..4]);
    var len := BeValue(plain);
    body := Crypt(ks, ek[..32], n, 1, ib[4..4 + len]);
    CryptInverse(ks, ek[32..], n, 0, ib[..4]);
    CryptInverse(ks, ek[..32], n, 1, ib[4..4 + len]);
    BeInverse(plain);
    assert ib[..4 + len] == ib[..4] + ib[4..4 + len];
    assert ib[..4 + len + 16] == ib[..4 + len] + ib[4 + len..4 + len + 16];
  }

  /** The record round trip: the receive path recovers exactly what aead_seal sealed. */
  lemma RecordRoundTrip(ks: Keystream, ek: seq<byte>, num: nat, payload: seq<byte>, pad: seq<byte>, rest: seq<byte>)
    requires |ek| == 64 && |pad| == PadLen(|payload|) && |payload| <= SSH_ENC_MAX_PLEN
    ensures Open(ks, ek, num, Seal(ks, ek, num, payload, pad) + rest) == Packet(payload,
        |Seal(ks, ek, num, payload, pad)|)
  {
    hide SealBody, Open;
    var b := Body(payload, pad);
    assert b[1..|b| - |pad|] == payload;
    OpenSealed(ks, ek, num, b, rest);
  }

  /** More input never changes a verdict already reached. */
  lemma OpenStable(ks: Keystream, ek: seq<byte>, num: nat, ib: seq<byte>, more: seq<byte>)
    requires |ek| == 64 && Open(ks, ek, num, ib) != More
    ensures Open(ks, ek, num, ib + more) == Open(ks, ek, num, ib)
  {
    hide Crypt, Tag, Nonce, BeValue;
    var all := ib + more;
    assert all[..4] == ib[..4];
    var len := BeValue(Crypt(ks, ek[32..], Nonce(num), 0, ib[..4]));
    if 4 + len + 16 <= |ib| {
      assert all[..4 + len] == ib[..4 + len] && all[4..4 + len] == ib[4..4 + len];
      assert all[4 + len..4 + len + 16] == ib[4 + len..4 + len + 16];
    }
  }

  // ----- before encryption -----

  function PlainPadLen(plen: nat): (n: nat)
    ensures 4 <= n <= 11 && (5 + plen + n) % 8 == 0
  {
    var n := 8 - (5 + plen) % 8;
    if n < 4 then n + 8 else n
  }

  /** The unencrypted half of try_packet. */
  function OpenPlain(ib: seq<byte>): (r: Opened)
    ensures r.Packet? ==> 5 <= r.size <= |ib| && r.size <= SSH_IB_SZ && |r.payload| + 5 <= r.size
  {
    if |ib| < 4 then More
    else
      var len := BeValue(ib[..4]);
      if len < 1 || len + 4 > SSH_IB_SZ then Bad
      else if |ib| < 4 + len then More
      else
        var pad := ib[4] as nat;
        if pad + 1 > len then Bad else Packet(ib[5..4 + len - pad], 4 + len)
  }

  lemma OpenPlainStable(ib: seq<byte>, more: seq<byte>)
    requires OpenPlain(ib) != More
    ensures OpenPlain(ib + more) == OpenPlain(ib)
  {
    hide BeValue;
    var all := ib + more;
    assert all[..4] == ib[..4];
    var len := BeValue(ib[..4]);
    if 1 <= len && 4 + len <= |ib| && ib[4] as nat + 1 <= len {
      assert all[5..4 + len - ib[4] as nat] == ib[5..4 + len - ib[4] as nat];
    }
  }

  /** A packet in the clear: its length, the padding's, the payload and the padding. */
  function Framed(payload: seq<byte>, pad: seq<byte>): seq<byte>
    requires |pad| < 256
  {
    BeBytes(1 + |payload| + |pad|) + [|pad| as byte] + payload + pad
  }

  /** The receive path accepts whatever is framed and fits the buffer, with padding of any length, aligned or not, */
  lemma FramedOpens(payload: seq<byte>, pad: seq<byte>, rest: seq<byte>)
    requires |pad| < 256 && 5 + |payload| + |pad| <= SSH_IB_SZ
    ensures OpenPlain(Framed(payload, pad) + rest) == Packet(payload, 5 + |payload| + |pad|)
  {
    hide BeBytes, BeValue;
    var len := 1 + |payload| + |pad|;
    var all := Framed(payload, pad) + rest;
    assert all[..4] == BeBytes(len) && all[4] == |pad| as byte;
    assert all[5..5 + |payload|] == payload;
    BeRoundTrip(len);
  }

  /** and nothing else. */
  lemma OpenedWasFramed(ib: seq<byte>) returns (pad: seq<byte>)
    requires OpenPlain(ib).Packet?
    ensures |pad| < 256 && OpenPlain(ib).size == 5 + |OpenPlain(ib).payload| + |pad| <= SSH_IB_SZ
    ensures ib[..OpenPlain(ib).size] == Framed(OpenPlain(ib).payload, pad)
  {
    hide BeBytes, BeValue;
    var o := OpenPlain(ib);
    var len := BeValue(ib[..4]);
    pad := ib[4 + len - ib[4] as nat..4 + len];
    BeInverse(ib[..4]);
    assert ib[..4 + len] == ib[..4] + [ib[4]] + o.payload + pad;
  }

  /** send_unenc's framing comes back through the unencrypted receive path. */
  lemma PlainRoundTrip(payload: seq<byte>, pad: seq<byte>, rest: seq<byte>)
    requires |pad| == PlainPadLen(|payload|) && 5 + |payload| + |pad| <= SSH_IB_SZ
    ensures var wire := Framed(payload, pad);
            OpenPlain(wire + rest) == Packet(payload, |wire|) && |wire| % 8 == 0
  {
    hide BeBytes, OpenPlain;
    FramedOpens(payload, pad, rest);
  }
}
