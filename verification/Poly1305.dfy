/** Poly1305 (dosshd/crypto/monocypher.c): the 32-bit limb code, its streaming
    interface and the MAC of section 2.5 of RFC 8439. Every machine word is a
    bounded type, so a verified body overflows no 32- or 64-bit intermediate. */
module Poly1305 {
  import opened Bytes
  import opened Limbs

  /** 2^130 - 5. */
  const P: nat := 0x3_ffff_ffff_ffff_ffff_ffff_ffff_ffff_fffb
  const B2: nat := 0x1_0000_0000_0000_0000
  const B3: nat := 0x1_0000_0000_0000_0000_0000_0000
  const B4: nat := 0x1_0000_0000_0000_0000_0000_0000_0000_0000

  // ----- the specification, section 2.5 of RFC 8439 -----

  /** `x & 0x0ffffffc` on a 32-bit word. */
  function MaskHigh(x: u32): (y: u32)
    ensures y <= 0x0fff_fffc && y % 4 == 0
    ensures y as int == x as int % 0x1000_0000 / 4 * 4
  {
    x % 0x1000_0000 / 4 * 4
  }

  function ClampByte(i: nat, b: byte): byte {
    if i % 4 == 3 then b % 16 else if i % 4 == 0 && i > 0 then b / 4 * 4 else b
  }

  /** The key half r with the bits the RFC clears. */
  function Clamp(r: seq<byte>): (c: seq<byte>)
    ensures |c| == |r|
  {
    seq(|r|, i requires 0 <= i < |r| => ClampByte(i, r[i]))
  }

  /** Where the last (possibly short) 16-byte block of a message of length n starts. */
  function LastBlock(n: nat): (k: nat)
    requires n > 0
    ensures k < n <= k + 16 && k % 16 == 0
  {
    (n - 1) / 16 * 16
  }

  function ModP(x: nat): (m: nat)
    ensures m < P
  {
    x % P
  }

  function Absorb(acc: nat, block: nat, r: nat): (a: nat)
    ensures a < P
  {
    ModP((acc + block) * r)
  }

  /** The accumulator after a whole message: each block is read with a 1 byte appended. */
  function Accumulate(r: nat, m: seq<byte>): (a: nat)
    ensures a < P
  {
    if |m| == 0 then 0
    else
      var k := LastBlock(|m|);
      Absorb(Accumulate(r, m[..k]), LeValue(m[k..] + [1]), r)
  }

  function Mac(key: seq<byte>, m: seq<byte>): (tag: seq<byte>)
    requires |key| == 32
    ensures |tag| == 16
  {
    LeBytes((Accumulate(LeValue(Clamp(key[..16])), m) + LeValue(key[16..])) % B4, 16)
  }

  // ----- arithmetic -----

  function Value4(w0: nat, w1: nat, w2: nat, w3: nat): nat {
    w0 + B * w1 + B2 * w2 + B3 * w3
  }

  function Value5(w0: nat, w1: nat, w2: nat, w3: nat, w4: nat): nat {
    w0 + B * w1 + B2 * w2 + B3 * w3 + B4 * w4
  }

  /** ctx->r and ctx->pad: four 32-bit limbs. */
  datatype Limbs4 = Limbs4(w0: u32, w1: u32, w2: u32, w3: u32) {
    function Value(): nat { Value4(w0 as int, w1 as int, w2 as int, w3 as int) }

    predicate Clamped() {
      && w0 <= 0x0fff_ffff && w1 <= 0x0fff_fffc && w2 <= 0x0fff_fffc && w3 <= 0x0fff_fffc
      && w1 % 4 == 0 && w2 % 4 == 0 && w3 % 4 == 0
    }
  }

  /** ctx->h: five limbs, the last one small. */
  datatype Limbs5 = Limbs5(w0: u32, w1: u32, w2: u32, w3: u32, w4: u32) {
    function Value(): nat { Value5(w0 as int, w1 as int, w2 as int, w3 as int, w4 as int) }
  }

  /** The schoolbook product, with the columns at 2^128 and above folded by 2^130 = 5 (mod P). */
  lemma FoldedProduct(s0: nat, s1: nat, s2: nat, s3: nat, s4: nat,
                      r0: nat, q0: nat, t0: nat, q1: nat, q2: nat, q3: nat)
    requires r0 == 4 * q0 + t0
    ensures Value5(s0, s1, s2, s3, s4) * Value4(r0, 4 * q1, 4 * q2, 4 * q3) ==
      Value5(s0 * r0 + s1 * (5 * q3) + s2 * (5 * q2) + s3 * (5 * q1) + s4 * (5 * q0),
             s0 * (4 * q1) + s1 * r0 + s2 * (5 * q3) + s3 * (5 * q2) + s4 * (5 * q1),
             s0 * (4 * q2) + s1 * (4 * q1) + s2 * r0 + s3 * (5 * q3) + s4 * (5 * q2),
             s0 * (4 * q3) + s1 * (4 * q2) + s2 * (4 * q1) + s3 * r0 + s4 * (5 * q3),
             s4 * t0)
      + P * (s1 * q3 + s2 * q2 + s3 * q1 + s4 * q0 + B * (s2 * q3 + s3 * q2 + s4 * q1)
             + B2 * (s3 * q3 + s4 * q2) + B3 * (s4 * q3))
  {
  }

  /** How often P was taken out by folding. */
  function Folds(s1: nat, s2: nat, s3: nat, s4: nat, q0: nat, q1: nat, q2: nat, q3: nat): nat {
    s1 * q3 + s2 * q2 + s3 * q1 + s4 * q0 + B * (s2 * q3 + s3 * q2 + s4 * q1) + B2 * (s3 * q3 + s4 * q2)
        + B3 * (s4 * q3)
  }

  lemma ModOfSum(x: nat, y: nat, k: int)
    requires x == y + P * k
    ensures ModP(x) == ModP(y)
  {
    DivModUnique(x, P, y / P + k, y % P);
  }

  /** Reducing the accumulator first does not change what a block does to it. */
  lemma AbsorbModP(h: nat, block: nat, r: nat)
    ensures Absorb(ModP(h), block, r) == Absorb(h, block, r)
  {
    var d := h / P;
    var a := ModP(h);
    assert h == a + P * d;
    assert (h + block) * r == (a + block) * r + P * (d * r) by {
      var y := a + block;
      assert h + block == y + P * d;
      assert (y + P * d) * r == y * r + (P * d) * r;
      MulAssoc(P, d, r);
    }
    ModOfSum((h + block) * r, (a + block) * r, d * r);
  }

  function Times(x: nat, y: nat): nat {
    x * y
  }

  /** One column of (h + c) * r before any carry. */
  function Dot(s0: nat, a: nat, s1: nat, b: nat, s2: nat, c: nat, s3: nat, d: nat, s4: nat, e: nat): nat {
    s0 * a + s1 * b + s2 * c + s3 * d + s4 * e
  }

  /** Five products summed in 64 bits without overflow. */
  method Column(s0: u64, a: u32, s1: u64, b: u32, s2: u64, c: u32, s3: u64, d: u32, s4: u32, e: u32)
    returns (x: u64)
    requires s0 <= 0x1_ffff_fffe && s1 <= 0x1_ffff_fffe && s2 <= 0x1_ffff_fffe && s3 <= 0x1_ffff_fffe && s4 <= 5
    requires a as int + b as int + c as int + d as int < 0x5000_0000 && e < 0x1400_0000
    ensures x as int == Dot(s0 as int, a as int, s1 as int, b as int, s2 as int, c as int, s3 as int, d as int,
        s4 as int, e as int)
    ensures x as int <= 0x1_ffff_fffe * (a as int + b as int + c as int + d as int) + 5 * e as int
  {
    MulBound(s0 as int, a as int, 0x1_ffff_fffe);
    MulBound(s1 as int, b as int, 0x1_ffff_fffe);
    MulBound(s2 as int, c as int, 0x1_ffff_fffe);
    MulBound(s3 as int, d as int, 0x1_ffff_fffe);
    MulBound(s4 as int, e as int, 5);
    x := s0 * a as u64 + s1 * b as u64 + s2 * c as u64 + s3 * d as u64 + s4 as u64 * e as u64;
  }

  method TopColumn(s4: u32, t0: u32) returns (x: u32)
    requires s4 <= 5 && t0 <= 3
    ensures x as int == Times(s4 as int, t0 as int) && x <= 15
  {
    MulBound(s4 as int, t0 as int, 5);
    x := s4 * t0;
  }

  lemma AddLimbs(h: Limbs5, c: Limbs4, end: u32)
    ensures h.Value() + (c.Value() + end as nat * B4) ==
            Value5(h.w0 as nat + c.w0 as nat, h.w1 as nat + c.w1 as nat, h.w2 as nat + c.w2 as nat,
                   h.w3 as nat + c.w3 as nat, h.w4 as nat + end as nat)
  {
  }

  /** One pass of the loop body of poly_blocks: h = (h + c) * r, partially reduced. */
  method BlockStep(h: Limbs5, r: Limbs4, c: Limbs4, end: u32) returns (k: Limbs5)
    requires h.w4 <= 4 && end <= 1 && r.Clamped()
    ensures k.w4 <= 4
    ensures ModP(k.Value()) == Absorb(h.Value(), c.Value() + end as nat * B4, r.Value())
  {
    hide Absorb, ModP, Value4, Value5, Dot, Times;
    AddLimbs(h, c, end);
    var rr0, rr1, rr2, rr3, rr4 := r.w0 / 4 * 5, r.w1 / 4 + r.w1, r.w2 / 4 + r.w2, r.w3 / 4 + r.w3, r.w0 % 4;
    var s0: u64 := h.w0 as u64 + c.w0 as u64;
    var s1: u64 := h.w1 as u64 + c.w1 as u64;
    var s2: u64 := h.w2 as u64 + c.w2 as u64;
    var s3: u64 := h.w3 as u64 + c.w3 as u64;
    var s4: u32 := h.w4 + end;
    var x0 := Column(s0, r.w0, s1, rr3, s2, rr2, s3, rr1, s4, rr0);
    var x1 := Column(s0, r.w1, s1, r.w0, s2, rr3, s3, rr2, s4, rr1);
    var x2 := Column(s0, r.w2, s1, r.w1, s2, r.w0, s3, rr3, s4, rr2);
    var x3 := Column(s0, r.w3, s1, r.w2, s2, r.w1, s3, r.w0, s4, rr3);
    var x4 := TopColumn(s4, rr4);
    k := Reduce(x0, x1, x2, x3, x4);
    ProductModP(h.Value(), c.Value() + end as nat * B4, s0 as int, s1 as int, s2 as int, s3 as int, s4 as int,
                r.w0 as int, r.w1 as int, r.w2 as int, r.w3 as int, (r.w0 / 4) as int, (r.w1 / 4) as int,
                    (r.w2 / 4) as int, (r.w3 / 4) as int, rr4 as int,
                rr0 as int, rr1 as int, rr2 as int, rr3 as int);
  }

  lemma ProductModP(h: nat, c: nat, s0: nat, s1: nat, s2: nat, s3: nat, s4: nat,
                    r0: nat, r1: nat, r2: nat, r3: nat,
                    q0: nat, q1: nat, q2: nat, q3: nat, t0: nat, rr0: nat, rr1: nat, rr2: nat, rr3: nat)
    requires h + c == Value5(s0, s1, s2, s3, s4)
    requires r0 == 4 * q0 + t0 && r1 == 4 * q1 && r2 == 4 * q2 && r3 == 4 * q3
    requires rr0 == 5 * q0 && rr1 == 5 * q1 && rr2 == 5 * q2 && rr3 == 5 * q3
    ensures Absorb(h, c, Value4(r0, r1, r2, r3)) ==
      ModP(Value5(Dot(s0, r0, s1, rr3, s2, rr2, s3, rr1, s4, rr0), Dot(s0, r1, s1, r0, s2, rr3, s3, rr2, s4, rr1),
                  Dot(s0, r2, s1, r1, s2, r0, s3, rr3, s4, rr2), Dot(s0, r3, s1, r2, s2, r1, s3, r0, s4, rr3),
                  Times(s4, t0)))
  {
    hide Absorb, ModP, Value4, Value5, Dot, Times;
    FoldedModP(h, c, s0, s1, s2, s3, s4, r0, q0, t0, q1, q2, q3);
  }

  lemma FoldedModP(h: nat, c: nat, s0: nat, s1: nat, s2: nat, s3: nat, s4: nat, r0: nat, q0: nat, t0: nat, q1: nat,
      q2: nat, q3: nat)
    requires h + c == Value5(s0, s1, s2, s3, s4) && r0 == 4 * q0 + t0
    ensures Absorb(h, c, Value4(r0, 4 * q1, 4 * q2, 4 * q3)) ==
      ModP(Value5(Dot(s0, r0, s1, 5 * q3, s2, 5 * q2, s3, 5 * q1, s4, 5 * q0),
          Dot(s0, 4 * q1, s1, r0, s2, 5 * q3, s3, 5 * q2, s4, 5 * q1),
                  Dot(s0, 4 * q2, s1, 4 * q1, s2, r0, s3, 5 * q3, s4, 5 * q2),
                      Dot(s0, 4 * q3, s1, 4 * q2, s2, 4 * q1, s3, r0, s4, 5 * q3),
                  Times(s4, t0)))
  {
    hide ModP, Value4, Value5;
    assert Value5(s0, s1, s2, s3, s4) * Value4(r0, 4 * q1, 4 * q2, 4 * q3) ==
      Value5(Dot(s0, r0, s1, 5 * q3, s2, 5 * q2, s3, 5 * q1, s4, 5 * q0),
          Dot(s0, 4 * q1, s1, r0, s2, 5 * q3, s3, 5 * q2, s4, 5 * q1),
             Dot(s0, 4 * q2, s1, 4 * q1, s2, r0, s3, 5 * q3, s4, 5 * q2),
                 Dot(s0, 4 * q3, s1, 4 * q2, s2, 4 * q1, s3, r0, s4, 5 * q3),
             Times(s4, t0))
      + P * Folds(s1, s2, s3, s4, q0, q1, q2, q3) by {
      FoldedProduct(s0, s1, s2, s3, s4, r0, q0, t0, q1, q2, q3);
    }
    hide Dot, Times, Folds;
    ModOfSum(Value5(s0, s1, s2, s3, s4) * Value4(r0, 4 * q1, 4 * q2, 4 * q3),
      Value5(Dot(s0, r0, s1, 5 * q3, s2, 5 * q2, s3, 5 * q1, s4, 5 * q0),
          Dot(s0, 4 * q1, s1, r0, s2, 5 * q3, s3, 5 * q2, s4, 5 * q1),
             Dot(s0, 4 * q2, s1, 4 * q1, s2, r0, s3, 5 * q3, s4, 5 * q2),
                 Dot(s0, 4 * q3, s1, 4 * q2, s2, 4 * q1, s3, r0, s4, 5 * q3),
             Times(s4, t0)),
      Folds(s1, s2, s3, s4, q0, q1, q2, q3));
  }

  /** The carry chain of poly_blocks: a partial reduction modulo 2^130 - 5. */
  method Reduce(x0: u64, x1: u64, x2: u64, x3: u64, x4: u32) returns (k: Limbs5)
    requires x0 < 0xa000_0000_0000_0000 && x1 < 0xa000_0000_0000_0000 && x2 < 0xa000_0000_0000_0000
    requires x3 < 0x7fff_ffe6_0000_0000 && x4 <= 15
    ensures k.w4 <= 4
    ensures ModP(k.Value()) == ModP(Value5(x0 as int, x1 as int, x2 as int, x3 as int, x4 as int))
  {
    hide ModP;
    var u5: u32 := x4 + (x3 / 0x1_0000_0000) as u32;
    assert u5 <= 0x7fff_fff5;
    var u0: u64 := (u5 / 4 * 5) as u64 + x0 % 0x1_0000_0000;
    var u1: u64 := u0 / 0x1_0000_0000 + x1 % 0x1_0000_0000 + x0 / 0x1_0000_0000;
    var u2: u64 := u1 / 0x1_0000_0000 + x2 % 0x1_0000_0000 + x1 / 0x1_0000_0000;
    var u3: u64 := u2 / 0x1_0000_0000 + x3 % 0x1_0000_0000 + x2 / 0x1_0000_0000;
    var u4: u32 := (u3 / 0x1_0000_0000) as u32 + u5 % 4;
    k := Limbs5((u0 % 0x1_0000_0000) as u32, (u1 % 0x1_0000_0000) as u32,
                (u2 % 0x1_0000_0000) as u32, (u3 % 0x1_0000_0000) as u32, u4);
    assert Value5(x0 as int, x1 as int, x2 as int, x3 as int, x4 as int) == k.Value() + P * (u5 / 4) as int;
    ModOfSum(Value5(x0 as int, x1 as int, x2 as int, x3 as int, x4 as int), k.Value(), (u5 / 4) as int);
  }

  // ----- folding whole blocks -----

  /** The accumulator after absorbing the 16-byte blocks of s, each with `end` as its 129th bit. */
  function BlockFold(acc: nat, r: nat, s: seq<byte>, end: nat): nat
    requires |s| % 16 == 0
  {
    if |s| == 0 then ModP(acc)
    else
      var k := |s| - 16;
      Absorb(BlockFold(acc, r, s[..k], end), LeValue(s[k..]) + end * B4, r)
  }

  lemma AccumulateLast(r: nat, m: seq<byte>, b: seq<byte>)
    requires |m| % 16 == 0 && 0 < |b| <= 16
    ensures Accumulate(r, m + b) == Absorb(Accumulate(r, m), LeValue(b + [1]), r)
  {
    hide LeValue, Absorb;
    var mb := m + b;
    assert LastBlock(|mb|) == |m|;
    assert mb[..|m|] == m && mb[|m|..] == b;
  }

  /** Whole blocks fold into the accumulator of the message read so far. */
  lemma {:induction false} AccumulateBlocks(r: nat, m: seq<byte>, s: seq<byte>)
    requires |m| % 16 == 0 && |s| % 16 == 0
    ensures Accumulate(r, m + s) == BlockFold(Accumulate(r, m), r, s, 1)
    decreases |s|
  {
    hide Absorb, LeValue, Accumulate;
    if |s| == 0 {
      assert m + s == m;
    } else {
      var k := |s| - 16;
      AccumulateBlocks(r, m, s[..k]);
      assert m + s == m + s[..k] + s[k..];
      AccumulateLast(r, m + s[..k], s[k..]);
      LeValueAppendOne(s[k..]);
    }
  }

  lemma LeValueAppendOne(b: seq<byte>)
    requires |b| == 16
    ensures LeValue(b + [1]) == LeValue(b) + B4
  {
    LeValueConcat(b, [1]);
    assert LeValue([1]) == 1;
    Pow256Of16();
  }

  lemma Pow256Of16()
    ensures Pow256(4) == B && Pow256(8) == B2 && Pow256(12) == B3 && Pow256(16) == B4
  {
    assert Pow256(4) == B;
    Pow256Add(4, 4);
    Pow256Add(8, 4);
    Pow256Add(8, 8);
  }

  /** Four 32-bit words read in order are the 16-byte little-endian number. */
  lemma WordsOfBlock(b: seq<byte>)
    requires |b| == 16
    ensures Value4(LeValue(b[0..4]), LeValue(b[4..8]), LeValue(b[8..12]), LeValue(b[12..16])) == LeValue(b)
  {
    hide LeValue, Pow256;
    Pow256Of16();
    LeValueConcat(b[0..4], b[4..]);
    assert b == b[0..4] + b[4..];
    LeValueConcat(b[4..8], b[8..]);
    assert b[4..] == b[4..8] + b[8..];
    LeValueConcat(b[8..12], b[12..16]);
    assert b[8..] == b[8..12] + b[12..16];
  }

  /** load32_le_buf for the four words of a 16-byte block. */
  method LoadWords(b: seq<byte>) returns (w: Limbs4)
    requires |b| == 16
    ensures w.Value() == LeValue(b)
    ensures w.w0 as nat == LeValue(b[0..4]) && w.w1 as nat == LeValue(b[4..8])
    ensures w.w2 as nat == LeValue(b[8..12]) && w.w3 as nat == LeValue(b[12..16])
  {
    hide LeValue;
    w := Limbs4(Load32(b[0..4]), Load32(b[4..8]), Load32(b[8..12]), Load32(b[12..16]));
    WordsOfBlock(b);
  }

  lemma {:induction false} LeValueZeros(s: seq<byte>, z: seq<byte>)
    requires forall i :: 0 <= i < |z| ==> z[i] == 0
    ensures LeValue(s + z) == LeValue(s)
    decreases |z|
  {
    if |z| == 0 {
      assert s + z == s;
    } else {
      LeValueZeros(s + [0], z[1..]);
      assert s + z == s + [0] + z[1..];
      LeValueConcat(s, [0]);
      assert LeValue([0]) == 0;
    }
  }

  // ----- the streaming context -----

  class Context {
    var h: Limbs5
    var r: Limbs4
    var pad: Limbs4
    const c: array<byte>
    var c_idx: nat
    ghost var key: seq<byte>
    ghost var absorbed: seq<byte>

    /** Everything fed so far: the whole blocks absorbed into h, then the buffered bytes. */
    ghost function Message(): seq<byte>
      requires c_idx <= c.Length
      reads this, c
    {
      absorbed + c[..c_idx]
    }

    ghost predicate Keyed()
      reads this
    {
      && |key| == 32 && c.Length == 16
      && r.Clamped() && r.Value() == LeValue(Clamp(key[..16]))
      && pad.Value() == LeValue(key[16..])
    }

    /** The limbs hold the accumulator of the absorbed blocks; the buffer may hold a full
        block for a moment, before it is absorbed. */
    ghost predicate Buffered()
      reads this
    {
      && Keyed() && c.Length == 16
      && h.w4 <= 4 && c_idx <= 16 && |absorbed| % 16 == 0
      && ModP(h.Value()) == Accumulate(r.Value(), absorbed)
    }

    ghost predicate Valid()
      reads this
    {
      Buffered() && c_idx < 16
    }

    constructor Init(key: seq<byte>)
      requires |key| == 32
      ensures Valid() && this.key == key && Message() == [] && fresh(c)
    {
      hide LeValue, Clamp, Value4;
      h := Limbs5(0, 0, 0, 0, 0);
      var rk, pk := KeyWords(key);
      r, pad := rk, pk;
      c := new byte[16](_ => 0);
      c_idx := 0;
      this.key := key;
      absorbed := [];
    }

    method PolyBlocks(input: seq<byte>, end: u32)
      requires r.Clamped() && h.w4 <= 4 && |input| % 16 == 0 && end <= 1
      modifies this`h
      ensures h.w4 <= 4
      ensures ModP(h.Value()) == BlockFold(old(h.Value()), r.Value(), input, end as nat)
    {
      hide *;
      ghost var start := h.Value();
      var i := 0;
      assert input[..0] == [];
      BlockFoldEmpty(start, r.Value(), end as nat);
      while i < |input| / 16
        invariant 0 <= i <= |input| / 16 && h.w4 <= 4
        invariant ModP(h.Value()) == BlockFold(start, r.Value(), input[..16 * i], end as nat)
      {
        var b := input[16 * i..16 * i + 16];
        AbsorbModP(h.Value(), LeValue(b) + end as nat * B4, r.Value());
        var c := LoadWords(b);
        h := BlockStep(h, r, c, end);
        assert input[..16 * (i + 1)] == input[..16 * i] + b;
        BlockFoldAppend(start, r.Value(), input[..16 * i], b, end as nat);
        i := i + 1;
      }
      assert input[..16 * i] == input;
    }

    /** poly_blocks with end == 1 on the next whole blocks of the message. */
    method AbsorbBlocks(input: seq<byte>)
      requires Buffered() && |input| % 16 == 0
      modifies this`h, this`absorbed
      ensures Buffered() && absorbed == old(absorbed) + input
    {
      hide LeValue, Absorb, ModP, Value4, Value5, Accumulate, BlockFold;
      BlockFoldModP(h.Value(), r.Value(), input, 1);
      AccumulateBlocks(r.Value(), absorbed, input);
      PolyBlocks(input, 1);
      absorbed := absorbed + input;
    }

    /** Append to the block buffer. */
    method Fill(input: seq<byte>)
      requires Buffered() && c_idx + |input| <= 16
      modifies this`c_idx, c
      ensures Buffered() && Message() == old(Message()) + input && c_idx == old(c_idx) + |input|
    {
      hide LeValue, Accumulate, ModP;
      var i := 0;
      while i < |input|
        invariant 0 <= i <= |input|
        invariant c_idx == old(c_idx) + i
        invariant c[..c_idx] == old(c[..c_idx]) + input[..i]
      {
        c[c_idx] := input[i];
        c_idx := c_idx + 1;
        i := i + 1;
      }
      assert input[..i] == input;
    }

    /** Complete the buffered block from the front of the input, and absorb it if it is full. */
    method Align(input: seq<byte>) returns (aligned: nat)
      requires Valid()
      modifies this`h, this`absorbed, this`c_idx, c
      ensures aligned <= |input| && Valid() && Message() == old(Message()) + input[..aligned]
      ensures aligned == |input| || c_idx == 0
    {
      hide LeValue, Accumulate, ModP, Value5;
      var gap := (16 - c_idx) % 16;
      aligned := if gap <= |input| then gap else |input|;
      Fill(input[..aligned]);
      if c_idx == 16 {
        assert c[..] == c[..16];
        AbsorbBlocks(c[..]);
        c_idx := 0;
      }
    }

    /** Absorb the whole blocks of what is left and buffer the remainder. */
    method Bulk(rest: seq<byte>)
      requires Valid() && (rest == [] || c_idx == 0)
      modifies this`h, this`absorbed, this`c_idx, c
      ensures Valid() && Message() == old(Message()) + rest
    {
      hide LeValue, Accumulate, ModP, Value5, Keyed;
      var whole := |rest| / 16 * 16;
      AbsorbBlocks(rest[..whole]);
      Fill(rest[whole..]);
      assert rest == rest[..whole] + rest[whole..];
    }

    /** crypto_poly1305_update: the buffered block, then whole blocks, then the remainder. */
    method Update(input: seq<byte>)
      requires Valid()
      modifies this`h, this`absorbed, this`c_idx, c
      ensures Valid() && Message() == old(Message()) + input
    {
      hide LeValue, Accumulate, ModP, Value5, Keyed;
      if |input| == 0 {
        return;
      }
      var aligned := Align(input);
      Bulk(input[aligned..]);
      assert input == input[..aligned] + input[aligned..];
    }

    /** crypto_poly1305_final. */
    method Final() returns (mac: seq<byte>)
      requires Valid()
      modifies this`h, c
      ensures mac == Mac(key, old(Message()))
    {
      hide LeValue, Accumulate, Clamp, ModP, Value4, Value5;
      assert c_idx == 0 ==> Message() == absorbed;
      if c_idx != 0 {
        PadLast();
      }
      mac := Finish(h, pad);
    }

    /** The last partial block, with its 1 byte, becomes a block whose 129th bit is 0. */
    method PadLast()
      requires Valid() && c_idx != 0
      modifies this`h, c
      ensures h.w4 <= 4 && ModP(h.Value()) == Accumulate(r.Value(), old(Message()))
    {
      hide Accumulate, Absorb, ModP, Value4, Value5, BlockFold;
      ghost var tail := c[..c_idx];
      var i := c_idx;
      while i < 16
        modifies c
        invariant c_idx <= i <= 16
        invariant c[..c_idx] == tail
        invariant forall k :: c_idx <= k < i ==> c[k] == 0
      {
        c[i] := 0;
        i := i + 1;
      }
      c[c_idx] := 1;
      ghost var block := c[..];
      assert block == tail + [1] + block[c_idx + 1..];
      LeValueZeros(tail + [1], block[c_idx + 1..]);
      AccumulateLast(r.Value(), absorbed, tail);
      OneBlock(h.Value(), r.Value(), block);
      PolyBlocks(c[..], 0);
    }
  }

  lemma BlockFoldEmpty(acc: nat, r: nat, end: nat)
    ensures BlockFold(acc, r, [], end) == ModP(acc)
  {
  }

  lemma BlockFoldAppend(acc: nat, r: nat, s: seq<byte>, b: seq<byte>, end: nat)
    requires |s| % 16 == 0 && |b| == 16
    ensures BlockFold(acc, r, s + b, end) == Absorb(BlockFold(acc, r, s, end), LeValue(b) + end * B4, r)
  {
    hide Absorb, LeValue;
    assert (s + b)[..|s + b| - 16] == s && (s + b)[|s + b| - 16..] == b;
  }

  lemma OneBlock(h: nat, r: nat, block: seq<byte>)
    requires |block| == 16
    ensures BlockFold(h, r, block, 0) == Absorb(ModP(h), LeValue(block), r)
  {
    hide LeValue, Absorb, ModP;
    BlockFoldEmpty(h, r, 0);
    assert [] + block == block;
    BlockFoldAppend(h, r, [], block, 0);
  }

  lemma ModPTwice(h: nat)
    ensures ModP(ModP(h)) == ModP(h)
  {
  }

  lemma {:induction false} BlockFoldModP(h: nat, r: nat, s: seq<byte>, end: nat)
    requires |s| % 16 == 0
    ensures BlockFold(ModP(h), r, s, end) == BlockFold(h, r, s, end)
    decreases |s|
  {
    hide Absorb, LeValue, ModP;
    ModPTwice(h);
    if |s| == 0 {
    } else {
      BlockFoldModP(h, r, s[..|s| - 16], end);
    }
  }

  /** Five times the number of times P must be subtracted from h. */
  method Excess(h: Limbs5) returns (c: u64)
    requires h.w4 <= 4
    ensures c == if h.Value() >= P then 5 else 0
  {
    c := 5;
    c := (c + h.w0 as u64) / 0x1_0000_0000;
    c := (c + h.w1 as u64) / 0x1_0000_0000;
    c := (c + h.w2 as u64) / 0x1_0000_0000;
    c := (c + h.w3 as u64) / 0x1_0000_0000;
    c := c + h.w4 as u64;
    c := c / 4 * 5;
  }

  method AddPad(c: u64, h: Limbs5, pad: Limbs4) returns (m: Limbs4)
    requires c <= 5
    ensures m.Value() == (c as int + h.Value() + pad.Value()) % B4
  {
    var c0 := c + h.w0 as u64 + pad.w0 as u64;
    var c1 := c0 / 0x1_0000_0000 + h.w1 as u64 + pad.w1 as u64;
    var c2 := c1 / 0x1_0000_0000 + h.w2 as u64 + pad.w2 as u64;
    var c3 := c2 / 0x1_0000_0000 + h.w3 as u64 + pad.w3 as u64;
    m := Limbs4((c0 % 0x1_0000_0000) as u32, (c1 % 0x1_0000_0000) as u32,
                (c2 % 0x1_0000_0000) as u32, (c3 % 0x1_0000_0000) as u32);
    DivModUnique(c as int + h.Value() + pad.Value(), B4, (c3 / 0x1_0000_0000) as int + h.w4 as int, m.Value());
  }

  lemma StoreWords(m: Limbs4)
    ensures StoreLimbs([m.w0, m.w1, m.w2, m.w3]) == LeBytes(m.Value(), 16)
  {
    hide LeValue, LeBytes, LimbValue, StoreLimbs;
    var w := [m.w0, m.w1, m.w2, m.w3];
    StoreLimbsValue(w);
    Limbs4Value(m.w0, m.w1, m.w2, m.w3);
    LeBytesOf(StoreLimbs(w));
  }

  /** The tail of crypto_poly1305_final: subtract P at most once, add the pad, keep 128 bits. */
  method Finish(h: Limbs5, pad: Limbs4) returns (mac: seq<byte>)
    requires h.w4 <= 4
    ensures mac == LeBytes((ModP(h.Value()) + pad.Value()) % B4, 16)
  {
    var c := Excess(h);
    var m := AddPad(c, h, pad);
    FinalReduction(h.Value(), pad.Value(), c as int);
    StoreWords(m);
    mac := StoreLimbs([m.w0, m.w1, m.w2, m.w3]);
  }

  /** Adding 5 and dropping bit 130 subtracts P. */
  lemma FinalReduction(h: nat, pad: nat, c: nat)
    requires h < 5 * B4 && c == if h >= P then 5 else 0
    ensures (c + h + pad) % B4 == (ModP(h) + pad) % B4
  {
    if h >= P {
      assert h % P == h - P;
      var v := h - P + pad;
      DivModUnique(c + h + pad, B4, v / B4 + 4, v % B4);
    }
  }

  lemma ClampWord(a: nat, b: nat, c: nat, d: nat, w: nat)
    requires a < 256 && b < 256 && c < 256 && d < 256
    requires w == a + 0x100 * b + 0x1_0000 * c + 0x100_0000 * d
    ensures w % 0x1000_0000 == a + 0x100 * b + 0x1_0000 * c + 0x100_0000 * (d % 16)
    ensures w % 0x1000_0000 / 4 * 4 == a / 4 * 4 + 0x100 * b + 0x1_0000 * c + 0x100_0000 * (d % 16)
  {
    var low := a + 0x100 * b + 0x1_0000 * c + 0x100_0000 * (d % 16);
    DivModUnique(w, 0x1000_0000, d / 16, low);
    DivModUnique(low, 4, a / 4 + 0x40 * b + 0x4000 * c + 0x40_0000 * (d % 16), a % 4);
  }

  lemma ClampWindow(k: seq<byte>, i: nat)
    requires |k| == 16 && i < 4
    ensures Clamp(k)[4 * i..4 * i + 4] ==
            [if i == 0 then k[4 * i] else k[4 * i] / 4 * 4, k[4 * i + 1], k[4 * i + 2], k[4 * i + 3] % 16]
  {
    assert (4 * i) % 4 == 0 && (4 * i + 1) % 4 == 1 && (4 * i + 2) % 4 == 2 && (4 * i + 3) % 4 == 3;
  }

  /** What the limb mask leaves of word i is the word the clamped bytes spell. */
  lemma ClampLimb(k: seq<byte>, i: nat)
    requires |k| == 16 && i < 4
    ensures LeValue(Clamp(k)[4 * i..4 * i + 4]) ==
            if i == 0 then LeValue(k[0..4]) % 0x1000_0000
            else LeValue(k[4 * i..4 * i + 4]) % 0x1000_0000 / 4 * 4
  {
    hide LeValue, Clamp, ClampByte;
    var w := k[4 * i..4 * i + 4];
    ClampWindow(k, i);
    LeValue4(w);
    LeValue4(Clamp(k)[4 * i..4 * i + 4]);
    ClampWord(w[0] as nat, w[1] as nat, w[2] as nat, w[3] as nat, LeValue(w));
  }

  /** The limb masks 0x0fffffff and 0x0ffffffc clear exactly the bits the byte-wise clamp clears. */
  lemma ClampLimbs(k: seq<byte>, w: Limbs4)
    requires |k| == 16
    requires w.w0 as nat == LeValue(k[0..4]) && w.w1 as nat == LeValue(k[4..8])
    requires w.w2 as nat == LeValue(k[8..12]) && w.w3 as nat == LeValue(k[12..16])
    ensures Limbs4(w.w0 % 0x1000_0000, MaskHigh(w.w1), MaskHigh(w.w2), MaskHigh(w.w3)).Value() == LeValue(Clamp(k))
  {
    hide LeValue, Clamp;
    WordsOfBlock(Clamp(k));
    ClampLimb(k, 0);
    ClampLimb(k, 1);
    ClampLimb(k, 2);
    ClampLimb(k, 3);
  }

  /** crypto_poly1305_init: both key halves as words, the first one clamped. */
  method KeyWords(key: seq<byte>) returns (r: Limbs4, pad: Limbs4)
    requires |key| == 32
    ensures r.Clamped() && r.Value() == LeValue(Clamp(key[..16]))
    ensures pad.Value() == LeValue(key[16..])
  {
    hide LeValue, Clamp, MaskHigh;
    var w := LoadWords(key[..16]);
    ClampLimbs(key[..16], w);
    r := Limbs4(w.w0 % 0x1000_0000, MaskHigh(w.w1), MaskHigh(w.w2), MaskHigh(w.w3));
    pad := LoadWords(key[16..]);
  }

  /** init, any number of updates, final: the MAC depends only on the bytes fed, not on the split. */
  method MacOfUpdates(key: seq<byte>, chunks: seq<seq<byte>>) returns (mac: seq<byte>)
    requires |key| == 32
    ensures mac == Mac(key, Flatten(chunks))
  {
    var ctx := new Context.Init(key);
    var i := 0;
    assert ctx.Message() == Flatten(chunks[..0]);
    hide *;
    while i < |chunks|
      invariant 0 <= i <= |chunks|
      invariant ctx.Valid() && ctx.key == key && ctx.c_idx <= ctx.c.Length && ctx.Message() == Flatten(chunks[..i])
      invariant fresh(ctx) && fresh(ctx.c)
    {
      FlattenPrefix(chunks, i);
      ctx.Update(chunks[i]);
      i := i + 1;
    }
    assert chunks[..i] == chunks;
    mac := ctx.Final();
  }
}
