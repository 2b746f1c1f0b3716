/** SHA-256 (dosshd/crypto/sha256.c): the byte-fed context against the one-shot hash of FIPS 180-4. */
module Sha256 {
  import opened Bytes

  type word = bv32

  // ----- the specification: sections 4.1.2, 5.1.1, 5.3.3 and 6.2 of FIPS 180-4 -----

  /** Addition modulo 2^32. */
  function Add(x: word, y: word): word { x + y }

  function Ch(x: word, y: word, z: word): word { (x & y) ^ (!x & z) }
  function Maj(x: word, y: word, z: word): word { (x & y) ^ (x & z) ^ (y & z) }
  function Xor3(x: word, y: word, z: word): word { x ^ y ^ z }
  function BigSigma0(x: word): word { Xor3((x >> 2) | (x << 30), (x >> 13) | (x << 19), (x >> 22) | (x << 10)) }
  function BigSigma1(x: word): word { Xor3((x >> 6) | (x << 26), (x >> 11) | (x << 21), (x >> 25) | (x << 7)) }
  function SmallSigma0(x: word): word { Xor3((x >> 7) | (x << 25), (x >> 18) | (x << 14), x >> 3) }
  function SmallSigma1(x: word): word { Xor3((x >> 17) | (x << 15), (x >> 19) | (x << 13), x >> 10) }

  const K0: seq<word> := [
    0x428a2f98, 0x71374491, 0xb5c0fbcf, 0xe9b5dba5, 0x3956c25b, 0x59f111f1, 0x923f82a4, 0xab1c5ed5]
  const K1: seq<word> := [
    0xd807aa98, 0x12835b01, 0x243185be, 0x550c7dc3, 0x72be5d74, 0x80deb1fe, 0x9bdc06a7, 0xc19bf174]
  const K2: seq<word> := [
    0xe49b69c1, 0xefbe4786, 0x0fc19dc6, 0x240ca1cc, 0x2de92c6f, 0x4a7484aa, 0x5cb0a9dc, 0x76f988da]
  const K3: seq<word> := [
    0x983e5152, 0xa831c66d, 0xb00327c8, 0xbf597fc7, 0xc6e00bf3, 0xd5a79147, 0x06ca6351, 0x14292967]
  const K4: seq<word> := [
    0x27b70a85, 0x2e1b2138, 0x4d2c6dfc, 0x53380d13, 0x650a7354, 0x766a0abb, 0x81c2c92e, 0x92722c85]
  const K5: seq<word> := [
    0xa2bfe8a1, 0xa81a664b, 0xc24b8b70, 0xc76c51a3, 0xd192e819, 0xd6990624, 0xf40e3585, 0x106aa070]
  const K6: seq<word> := [
    0x19a4c116, 0x1e376c08, 0x2748774c, 0x34b0bcb5, 0x391c0cb3, 0x4ed8aa4a, 0x5b9cca4f, 0x682e6ff3]
  const K7: seq<word> := [
    0x748f82ee, 0x78a5636f, 0x84c87814, 0x8cc70208, 0x90befffa, 0xa4506ceb, 0xbef9a3f7, 0xc67178f2]
  const K: seq<word> := K0 + K1 + K2 + K3 + K4 + K5 + K6 + K7

  /** The eight working variables, and the eight words of a hash value. */
  datatype Hash = Hash(a: word, b: word, c: word, d: word, e: word, f: word, g: word, h: word) {
    function Plus(o: Hash): Hash {
      Hash(Add(a, o.a), Add(b, o.b), Add(c, o.c), Add(d, o.d), Add(e, o.e), Add(f, o.f), Add(g, o.g), Add(h, o.h))
    }
  }

  const IV: Hash := Hash(0x6a09e667, 0xbb67ae85, 0x3c6ef372, 0xa54ff53a, 0x510e527f, 0x9b05688c, 0x1f83d9ab, 0x5be0cd19)

  /** A big-endian 32-bit word. */
  function BeWord(s: seq<byte>): word
    requires |s| == 4
  {
    (s[0] as word << 24) | (s[1] as word << 16) | (s[2] as word << 8) | s[3] as word
  }

  /** Word t of the message schedule of a block. */
  function Schedule(block: seq<byte>, t: nat): word
    requires |block| == 64
  {
    if t < 16 then BeWord(block[4 * t..4 * t + 4])
    else
      Add(Add(Add(SmallSigma1(Schedule(block, t - 2)), Schedule(block, t - 7)), SmallSigma0(Schedule(block, t - 15))),
          Schedule(block, t - 16))
  }

  function Round(s: Hash, k: word, w: word): Hash {
    var t1 := Add(Add(Add(Add(s.h, BigSigma1(s.e)), Ch(s.e, s.f, s.g)), k), w);
    var t2 := Add(BigSigma0(s.a), Maj(s.a, s.b, s.c));
    Hash(Add(t1, t2), s.a, s.b, s.c, Add(s.d, t1), s.e, s.f, s.g)
  }

  function Rounds(s: Hash, block: seq<byte>, n: nat): Hash
    requires |block| == 64 && n <= 64
  {
    if n == 0 then s else Round(Rounds(s, block, n - 1), K[n - 1], Schedule(block, n - 1))
  }

  function Compress(s: Hash, block: seq<byte>): Hash
    requires |block| == 64
  {
    s.Plus(Rounds(s, block, 64))
  }

  /** The hash value after the whole blocks of m. */
  function Absorb(m: seq<byte>): Hash
    requires |m| % 64 == 0
  {
    if |m| == 0 then IV else Compress(Absorb(m[..|m| - 64]), m[|m| - 64..])
  }

  /** The length of n bytes in bits, as the 64-bit length field holds it. */
  function BitCount(n: nat): nat {
    8 * n % 0x1_0000_0000_0000_0000
  }

  /** The 64-bit big-endian length field. */
  function Be64(n: nat): (s: seq<byte>)
    ensures |s| == 8
  {
    BeBytes(n / 0x1_0000_0000) + BeBytes(n % 0x1_0000_0000)
  }

  function Zeros(n: nat): (z: seq<byte>)
    ensures |z| == n
  {
    seq(n, _ => 0)
  }

  /** The message, a 1 bit, the fewest zero bytes that leave room for the length, and the bit length. */
  function Pad(m: seq<byte>): (p: seq<byte>)
    ensures |p| % 64 == 0
  {
    m + [0x80] + Zeros((55 - |m|) % 64) + Be64(BitCount(|m|))
  }

  function WordBytes(w: word): (s: seq<byte>)
    ensures |s| == 4
  {
    [((w >> 24) & 0xff) as byte, ((w >> 16) & 0xff) as byte, ((w >> 8) & 0xff) as byte, (w & 0xff) as byte]
  }

  function HashBytes(s: Hash): (d: seq<byte>)
    ensures |d| == 32
  {
    WordBytes(s.a) + WordBytes(s.b) + WordBytes(s.c) + WordBytes(s.d)
    + WordBytes(s.e) + WordBytes(s.f) + WordBytes(s.g) + WordBytes(s.h)
  }

  function Digest(m: seq<byte>): (d: seq<byte>)
    ensures |d| == 32
  {
    HashBytes(Absorb(Pad(m)))
  }

  // ----- the code -----

  /** The schedule loops of sha256_transform. */
  method MakeSchedule(data: seq<byte>) returns (m: array<word>)
    requires |data| == 64
    ensures fresh(m) && m.Length == 64
    ensures forall k :: 0 <= k < 64 ==> m[k] == Schedule(data, k)
  {
    hide Add, SmallSigma0, SmallSigma1, BeWord;
    m := new word[64];
    var i := 0;
    while i < 16
      invariant 0 <= i <= 16
      invariant forall k :: 0 <= k < i ==> m[k] == Schedule(data, k)
    {
      m[i] := BeWord(data[4 * i..4 * i + 4]);
      i := i + 1;
    }
    while i < 64
      invariant 16 <= i <= 64
      invariant forall k :: 0 <= k < i ==> m[k] == Schedule(data, k)
    {
      m[i] := Add(Add(Add(SmallSigma1(m[i - 2]), m[i - 7]), SmallSigma0(m[i - 15])), m[i - 16]);
      i := i + 1;
    }
  }

  /** One turn of the round loop, in the order the variables are reassigned. */
  method OneRound(s: Hash, k: word, w: word) returns (r: Hash)
    ensures r == Round(s, k, w)
  {
    hide Add, Ch, Maj, BigSigma0, BigSigma1;
    var a, b, c, d, e, f, g, h := s.a, s.b, s.c, s.d, s.e, s.f, s.g, s.h;
    var t1 := Add(Add(Add(Add(h, BigSigma1(e)), Ch(e, f, g)), k), w);
    var t2 := Add(BigSigma0(a), Maj(a, b, c));
    h := g;
    g := f;
    f := e;
    e := Add(d, t1);
    d := c;
    c := b;
    b := a;
    a := Add(t1, t2);
    r := Hash(a, b, c, d, e, f, g, h);
  }

  /** sha256_transform. */
  method Transform(state: Hash, data: seq<byte>) returns (r: Hash)
    requires |data| == 64
    ensures r == Compress(state, data)
  {
    hide Add, Schedule, Round, K;
    var m := MakeSchedule(data);
    var s := state;
    var i := 0;
    KLength();
    while i < 64
      invariant 0 <= i <= 64 && s == Rounds(state, data, i)
      invariant forall k :: 0 <= k < 64 ==> m[k] == Schedule(data, k)
    {
      s := OneRound(s, K[i], m[i]);
      i := i + 1;
    }
    r := state.Plus(s);
  }

  lemma KLength()
    ensures |K| == 64
  {
  }

  class Context {
    const data: array<byte>
    var datalen: nat
    var bitlen_lo: u32
    var bitlen_hi: u32
    var state: Hash
    ghost var absorbed: seq<byte>

    /** Everything fed so far: the blocks already compressed, then the buffered bytes. */
    ghost function Message(): seq<byte>
      requires datalen <= data.Length
      reads this, data
    {
      absorbed + data[..datalen]
    }

    /** The two-word bit counter. */
    ghost function Count(): nat
      reads this
    {
      bitlen_lo as nat + 0x1_0000_0000 * bitlen_hi as nat
    }

    ghost predicate Valid()
      reads this
    {
      && data.Length == 64 && datalen < 64 && |absorbed| % 64 == 0
      && state == Absorb(absorbed)
      && Count() == BitCount(|absorbed|)
    }

    constructor Init()
      ensures Valid() && Message() == [] && fresh(data)
    {
      hide IV;
      data := new byte[64](_ => 0);
      datalen := 0;
      bitlen_lo, bitlen_hi := 0, 0;
      state := IV;
      absorbed := [];
    }

    /** sha256_addlen. */
    method AddLen(bytes: nat, ghost n: nat)
      requires bytes <= 64 && Count() == BitCount(n)
      modifies this`bitlen_lo, this`bitlen_hi
      ensures Count() == BitCount(n + bytes)
    {
      hide BitCount;
      var add: u32 := bytes as u32 * 8;
      var was := bitlen_lo;
      bitlen_lo := ((was as int + add as int) % 0x1_0000_0000) as u32;
      if bitlen_lo < was {
        bitlen_hi := ((bitlen_hi as int + 1) % 0x1_0000_0000) as u32;
      }
      CarryAdd(was as nat, old(bitlen_hi) as nat, add as nat, bitlen_lo as nat, bitlen_hi as nat);
      CountAdd(n, bytes);
    }

    /** One byte of sha256_update. */
    method Feed(b: byte)
      requires Valid()
      modifies this`datalen, this`state, this`bitlen_lo, this`bitlen_hi, this`absorbed, data
      ensures Valid() && Message() == old(Message()) + [b]
    {
      hide Compress, Absorb, BitCount;
      ghost var before := Message();
      data[datalen] := b;
      datalen := datalen + 1;
      assert Message() == before + [b];
      if datalen == 64 {
        assert data[..] == data[..64];
        state := Transform(state, data[..]);
        AddLen(64, |absorbed|);
        AbsorbNext(absorbed, data[..]);
        absorbed := absorbed + data[..];
        datalen := 0;
        assert Message() == before + [b];
      }
    }

    /** sha256_update. */
    method Update(input: seq<byte>)
      requires Valid()
      modifies this`datalen, this`state, this`bitlen_lo, this`bitlen_hi, this`absorbed, data
      ensures Valid() && Message() == old(Message()) + input
    {
      hide Absorb, BitCount;
      var i := 0;
      while i < |input|
        invariant 0 <= i <= |input|
        invariant Valid() && Message() == old(Message()) + input[..i]
      {
        Feed(input[i]);
        assert input[..i + 1] == input[..i] + [input[i]];
        i := i + 1;
      }
      assert input[..i] == input;
    }

    /** Zero the buffer from index i up to index n. */
    method ZeroFill(i: nat, n: nat)
      requires data.Length == 64 && i <= n <= 64
      modifies data
      ensures data[..] == old(data[..i]) + Zeros(n - i) + old(data[n..])
    {
      var k := i;
      while k < n
        invariant i <= k <= n
        invariant forall j :: 0 <= j < 64 ==> data[j] == if i <= j < k then 0 else old(data[j])
      {
        data[k] := 0;
        k := k + 1;
      }
    }

    /** The eight bytes of the bit counter, most significant first. */
    method StoreCount()
      requires data.Length == 64
      modifies data
      ensures data[..] == old(data[..56]) + Be64(Count())
    {
      var hi, lo := BeBytes(bitlen_hi as nat), BeBytes(bitlen_lo as nat);
      hide BeBytes;
      DivModUnique(Count(), 0x1_0000_0000, bitlen_hi as nat, bitlen_lo as nat);
      StoreWord(56, hi);
      StoreWord(60, lo);
      assert data[..] == old(data[..56]) + (hi + lo);
    }

    method StoreWord(at: nat, w: seq<byte>)
      requires data.Length == 64 && at <= 60 && |w| == 4
      modifies data
      ensures data[..] == old(data[..at]) + w + old(data[at + 4..])
    {
      data[at], data[at + 1], data[at + 2], data[at + 3] := w[0], w[1], w[2], w[3];
    }

    /** The last block, when its padding fits: compress it into the digest state. */
    method FinalShort(ghost tail: seq<byte>)
      requires data.Length == 64 && datalen < 56 && |absorbed| % 64 == 0 && state == Absorb(absorbed)
      requires |tail| == datalen && data[..datalen + 1] == tail + [0x80] && Count() == BitCount(|absorbed| + |tail|)
      modifies this`state, data
      ensures state == Absorb(Pad(absorbed + tail))
    {
      hide Absorb, Compress, Be64, Zeros, BitCount;
      ZeroFill(datalen + 1, 56);
      StoreCount();
      ShortPad(absorbed, tail);
      AbsorbNext(absorbed, data[..]);
      state := Transform(state, data[..]);
    }

    /** The last block, when its padding spills: the length goes into one more. */
    method FinalLong(ghost tail: seq<byte>)
      requires data.Length == 64 && 56 <= datalen < 64 && |absorbed| % 64 == 0 && state == Absorb(absorbed)
      requires |tail| == datalen && data[..datalen + 1] == tail + [0x80] && Count() == BitCount(|absorbed| + |tail|)
      modifies this`state, data
      ensures state == Absorb(Pad(absorbed + tail))
    {
      hide Absorb, Compress, Be64, Zeros, BitCount;
      ZeroFill(datalen + 1, 64);
      ghost var first := data[..];
      assert first == tail + [0x80] + Zeros(63 - |tail|);
      state := Transform(state, data[..]);
      AbsorbNext(absorbed, first);
      ZeroFill(0, 56);
      assert data[..56] == Zeros(56);
      StoreCount();
      LongPad(absorbed, tail);
      AbsorbNext(absorbed + first, data[..]);
      state := Transform(state, data[..]);
    }

    /** sha256_final. */
    method Final() returns (hash: seq<byte>)
      requires Valid()
      modifies this`state, this`bitlen_lo, this`bitlen_hi, data
      ensures hash == Digest(old(Message()))
    {
      hide Absorb, Pad, HashBytes, BitCount;
      ghost var tail := data[..datalen];
      AddLen(datalen, |absorbed|);
      data[datalen] := 0x80;
      assert data[..datalen + 1] == tail + [0x80];
      if datalen < 56 {
        FinalShort(tail);
      } else {
        FinalLong(tail);
      }
      hash := HashBytes(state);
    }
  }

  /** The carry test on the low word keeps the two words equal to the sum modulo 2^64. */
  lemma CarryAdd(lo: nat, hi: nat, add: nat, lo': nat, hi': nat)
    requires lo < 0x1_0000_0000 && hi < 0x1_0000_0000 && add < 0x1_0000_0000
    requires lo' == (lo + add) % 0x1_0000_0000 && hi' == if lo' < lo then (hi + 1) % 0x1_0000_0000 else hi
    ensures lo' + 0x1_0000_0000 * hi' == (lo + 0x1_0000_0000 * hi + add) % 0x1_0000_0000_0000_0000
  {
    var wrapped := lo' < lo && hi + 1 == 0x1_0000_0000;
    assert lo' == if lo + add < 0x1_0000_0000 then lo + add else lo + add - 0x1_0000_0000;
    DivModUnique(lo + 0x1_0000_0000 * hi + add, 0x1_0000_0000_0000_0000, if wrapped then 1 else 0,
        lo' + 0x1_0000_0000 * hi');
  }

  lemma CountAdd(n: nat, k: nat)
    ensures (BitCount(n) + 8 * k) % 0x1_0000_0000_0000_0000 == BitCount(n + k)
  {
    var d := 0x1_0000_0000_0000_0000;
    DivModUnique(BitCount(n) + 8 * k, d, 8 * (n + k) / d - 8 * n / d, BitCount(n + k));
  }

  /** With at most 55 buffered bytes, the padding fits the last block. */
  lemma ShortPad(m: seq<byte>, tail: seq<byte>)
    requires |m| % 64 == 0 && |tail| < 56
    ensures Pad(m + tail) == m + (tail + [0x80] + Zeros(55 - |tail|) + Be64(BitCount(|m| + |tail|)))
  {
    hide Be64, Zeros;
    assert (55 - |m + tail|) % 64 == 55 - |tail|;
  }

  /** Otherwise it spills into one more. */
  lemma LongPad(m: seq<byte>, tail: seq<byte>)
    requires |m| % 64 == 0 && 56 <= |tail| < 64
    ensures Pad(m + tail) == m + (tail + [0x80] + Zeros(63 - |tail|))
                             + (Zeros(56) + Be64(BitCount(|m| + |tail|)))
  {
    hide Be64;
    assert (55 - |m + tail|) % 64 == 119 - |tail|;
    assert Zeros(119 - |tail|) == Zeros(63 - |tail|) + Zeros(56);
  }

  lemma AbsorbNext(m: seq<byte>, block: seq<byte>)
    requires |m| % 64 == 0 && |block| == 64
    ensures Absorb(m + block) == Compress(Absorb(m), block)
  {
    hide Compress;
    assert (m + block)[..|m + block| - 64] == m && (m + block)[|m + block| - 64..] == block;
  }

  /** init, any number of updates, final: the digest depends only on the bytes fed, not on the split. */
  method DigestOfUpdates(chunks: seq<seq<byte>>) returns (hash: seq<byte>)
    ensures hash == Digest(Flatten(chunks))
  {
    var ctx := new Context.Init();
    var i := 0;
    assert ctx.Message() == Flatten(chunks[..0]);
    assert ctx.datalen <= ctx.data.Length;
    hide *;
    while i < |chunks|
      invariant 0 <= i <= |chunks|
      invariant ctx.Valid() && ctx.datalen <= ctx.data.Length && ctx.Message() == Flatten(chunks[..i])
      invariant fresh(ctx) && fresh(ctx.data)
    {
      FlattenPrefix(chunks, i);
      ctx.Update(chunks[i]);
      i := i + 1;
    }
    assert chunks[..i] == chunks;
    hash := ctx.Final();
  }
}
