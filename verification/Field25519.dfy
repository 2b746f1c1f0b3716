/** Field elements modulo 2^255 - 19 in ten signed limbs (dosshd/crypto/monocypher.c): carry
    propagation, decoding and canonical encoding. Machine integers are bounded types, so a
    verified body overflows no 32- or 64-bit intermediate; a right shift of a signed value is
    the floored division its comment assumes. */
module Field25519 {
  import opened Bytes
  import opened Limbs

  newtype i32 = x: int | -0x8000_0000 <= x < 0x8000_0000
  newtype i64 = x: int | -0x8000_0000_0000_0000 <= x < 0x8000_0000_0000_0000

  const TWO255: int := 0x80000000_00000000_00000000_00000000_00000000_00000000_00000000_00000000
  /** 2^255 - 19. */
  const P: int := 0x7fffffff_ffffffff_ffffffff_ffffffff_ffffffff_ffffffff_ffffffff_ffffffed

  /** The number ten limbs of alternating weight 26 and 25 bits stand for. */
  function Value10(t0: int, t1: int, t2: int, t3: int, t4: int, t5: int, t6: int, t7: int, t8: int, t9: int): int {
    t0 + 0x400_0000 * t1 + 0x8_0000_0000_0000 * t2 + 0x2000_0000_0000_0000_0000 * t3
    + 0x40_0000_0000_0000_0000_0000_0000 * t4 + 0x1_0000_0000_0000_0000_0000_0000_0000_0000 * t5
    + 0x200_0000_0000_0000_0000_0000_0000_0000_0000_0000 * t6
    + 0x8_0000_0000_0000_0000_0000_0000_0000_0000_0000_0000_0000 * t7
    + 0x1000_0000_0000_0000_0000_0000_0000_0000_0000_0000_0000_0000_0000 * t8
    + 0x40_0000_0000_0000_0000_0000_0000_0000_0000_0000_0000_0000_0000_0000_0000 * t9
  }

  datatype Fe = Fe(t0: i32, t1: i32, t2: i32, t3: i32, t4: i32, t5: i32, t6: i32, t7: i32, t8: i32, t9: i32) {
    function Value(): int {
      Value10(t0 as int, t1 as int, t2 as int, t3 as int, t4 as int, t5 as int, t6 as int, t7 as int, t8 as int,
          t9 as int)
    }

    /** The stated postcondition of FE_CARRY: even limbs below 1.1 * 2^25, odd ones below 1.1 * 2^24. */
    predicate Carried() {
      && Below(t0, 36909875) && Below(t2, 36909875) && Below(t4, 36909875) && Below(t6, 36909875) && Below(t8, 36909875)
      && Below(t1, 18454937) && Below(t3, 18454937) && Below(t5, 18454937) && Below(t7, 18454937) && Below(t9, 18454937)
    }
  }

  predicate Below(x: i32, bound: int) {
    -bound <= x as int <= bound
  }

  /** |t| < 2^62. */
  predicate Wide(t: i64) {
    -0x4000_0000_0000_0000 < t < 0x4000_0000_0000_0000
  }

  /** Split t into a carry and a limb centred on zero: c = (t + 2^25) >> 26. */
  method Carry26(t: i64) returns (c: i64, l: i64)
    requires t as int + 0x200_0000 < 0x8000_0000_0000_0000
    ensures t as int == 0x400_0000 * c as int + l as int && -0x200_0000 <= l < 0x200_0000
  {
    c := (t + 0x200_0000) / 0x400_0000;
    l := t - c * 0x400_0000;
  }

  method Carry25(t: i64) returns (c: i64, l: i64)
    requires t as int + 0x100_0000 < 0x8000_0000_0000_0000
    ensures t as int == 0x200_0000 * c as int + l as int && -0x100_0000 <= l < 0x100_0000
  {
    c := (t + 0x100_0000) / 0x200_0000;
    l := t - c * 0x200_0000;
  }

  /** The body of FE_CARRY, with the multiple of 2^255 - 19 that leaves through the last limb. */
  method CarryLimbs(a0: i64, a1: i64, a2: i64, a3: i64, a4: i64, a5: i64, a6: i64, a7: i64, a8: i64, a9: i64)
    returns (h: Fe, ghost k: int)
    requires a0 as int + 0x200_0000 < 0x8000_0000_0000_0000
    requires Wide(a1) && Wide(a2) && Wide(a3) && Wide(a4) && Wide(a5) && Wide(a6) && Wide(a7) && Wide(a8) && Wide(a9)
    ensures h.Carried()
    ensures Value10(a0 as int, a1 as int, a2 as int, a3 as int, a4 as int, a5 as int, a6 as int, a7 as int, a8 as int,
        a9 as int)
            == h.Value() + P * k
  {
    var c, t0, t1, t2, t3, t4, t5, t6, t7, t8, t9;
    c, t0 := Carry26(a0);  t1 := a1 + c;
    c, t4 := Carry26(a4);  t5 := a5 + c;
    c, t1 := Carry25(t1);  t2 := a2 + c;
    c, t5 := Carry25(t5);  t6 := a6 + c;
    c, t2 := Carry26(t2);  t3 := a3 + c;
    c, t6 := Carry26(t6);  t7 := a7 + c;
    c, t3 := Carry25(t3);  t4 := t4 + c;
    c, t7 := Carry25(t7);  t8 := a8 + c;
    c, t4 := Carry26(t4);  t5 := t5 + c;
    c, t8 := Carry26(t8);  t9 := a9 + c;
    c, t9 := Carry25(t9);  t0 := t0 + c * 19;
    k := c as int;
    c, t0 := Carry26(t0);  t1 := t1 + c;
    h := Fe(t0 as i32, t1 as i32, t2 as i32, t3 as i32, t4 as i32, t5 as i32, t6 as i32, t7 as i32, t8 as i32,
        t9 as i32);
  }

  /** FE_CARRY. The limbs keep their value modulo 2^255 - 19 and become small. The addition
      t0 + 2^25 is representable exactly when the first precondition holds. */
  method FeCarry(a0: i64, a1: i64, a2: i64, a3: i64, a4: i64, a5: i64, a6: i64, a7: i64, a8: i64, a9: i64)
    returns (h: Fe)
    requires a0 as int + 0x200_0000 < 0x8000_0000_0000_0000
    requires Wide(a1) && Wide(a2) && Wide(a3) && Wide(a4) && Wide(a5) && Wide(a6) && Wide(a7) && Wide(a8) && Wide(a9)
    ensures h.Carried()
    ensures h.Value() % P ==
            Value10(a0 as int, a1 as int, a2 as int, a3 as int, a4 as int, a5 as int, a6 as int, a7 as int, a8 as int,
                a9 as int) % P
  {
    hide Value10;
    ghost var k;
    h, k := CarryLimbs(a0, a1, a2, a3, a4, a5, a6, a7, a8, a9);
    ModAddMultiple(h.Value(), k);
  }

  lemma ModAddMultiple(v: int, k: int)
    ensures (v + P * k) % P == v % P
  {
    DivModUnique(v + P * k, P, v / P + k, v % P);
  }

  /** The bound |t0| < 2^63 that the comment on FE_CARRY states. */
  predicate StatedBound(t0: int) {
    -0x8000_0000_0000_0000 < t0 < 0x8000_0000_0000_0000
  }

  /** The first sum of FE_CARRY is a 64-bit integer. */
  predicate FirstSumFits(t0: int) {
    -0x8000_0000_0000_0000 <= t0 + 0x200_0000 < 0x8000_0000_0000_0000
  }

  /** The stated bound is not enough for the first sum, and the precondition of FeCarry is exactly
      what it needs. */
  lemma StatedCarryBound()
    ensures exists t0: int :: StatedBound(t0) && !FirstSumFits(t0)
    ensures forall t0: int :: StatedBound(t0) ==> (FirstSumFits(t0) <==> t0 + 0x200_0000 < 0x8000_0000_0000_0000)
  {
    assert StatedBound(0x7fff_ffff_ffff_ffff) && !FirstSumFits(0x7fff_ffff_ffff_ffff);
  }

  // ----- encoding -----

  /** Tight limbs: the unique representation of a number below 2^255. */
  predicate Tight(t: Fe) {
    && 0 <= t.t0 < 0x400_0000 && 0 <= t.t2 < 0x400_0000 && 0 <= t.t4 < 0x400_0000 && 0 <= t.t6 < 0x400_0000
    && 0 <= t.t8 < 0x400_0000
    && 0 <= t.t1 < 0x200_0000 && 0 <= t.t3 < 0x200_0000 && 0 <= t.t5 < 0x200_0000 && 0 <= t.t7 < 0x200_0000
    && 0 <= t.t9 < 0x200_0000
  }

  /** (q + t) >> 26 on 32-bit integers. */
  method Shift26(t: i32, q: i32) returns (r: i32, l: i32)
    requires -0x4000_0000 < t < 0x4000_0000 && -0x1000 < q < 0x1000
    ensures t as int + q as int == 0x400_0000 * r as int + l as int && 0 <= l < 0x400_0000
    ensures -17 <= r <= 16
  {
    r := (t + q) / 0x400_0000;
    l := (t + q) % 0x400_0000;
  }

  method Shift25(t: i32, q: i32) returns (r: i32, l: i32)
    requires -0x2000_0000 < t < 0x2000_0000 && -0x1000 < q < 0x1000
    ensures t as int + q as int == 0x200_0000 * r as int + l as int && 0 <= l < 0x200_0000
    ensures -17 <= r <= 16
  {
    r := (t + q) / 0x200_0000;
    l := (t + q) % 0x200_0000;
  }

  /** One pass of the carry chain over all ten limbs, starting from q: the limbs become tight and
      the carry out is the excess over 2^255. */
  method Chain(h: Fe, q0: i32) returns (t: Fe, q: i32)
    requires h.Carried() && -0x1000 < q0 < 0x1000
    ensures Tight(t)
    ensures h.Value() + q0 as int == t.Value() + TWO255 * q as int
  {
    var l0, l1, l2, l3, l4, l5, l6, l7, l8, l9;
    q, l0 := Shift26(h.t0, q0);
    q, l1 := Shift25(h.t1, q);
    q, l2 := Shift26(h.t2, q);
    q, l3 := Shift25(h.t3, q);
    q, l4 := Shift26(h.t4, q);
    q, l5 := Shift25(h.t5, q);
    q, l6 := Shift26(h.t6, q);
    q, l7 := Shift25(h.t7, q);
    q, l8 := Shift26(h.t8, q);
    q, l9 := Shift25(h.t9, q);
    t := Fe(l0, l1, l2, l3, l4, l5, l6, l7, l8, l9);
  }

  lemma TightBounds(t: Fe)
    requires Tight(t)
    ensures 0 <= t.Value() < TWO255
  {
  }

  /** The first chain finds the sign: q is 0 or -1 according to whether h is negative. */
  lemma SignOfChain(h: Fe, q0: int, low: int, q: int)
    requires h.Carried() && q0 == (19 * h.t9 as int + 0x100_0000) / 0x200_0000
    requires 0 <= low < TWO255 && h.Value() + q0 == low + TWO255 * q
    ensures q == if h.Value() < 0 then -1 else 0
    ensures -P < h.Value() < P
  {
    var top := 0x40_0000_0000_0000_0000_0000_0000_0000_0000_0000_0000_0000_0000_0000_0000;
    assert -top < 5 * (h.Value() - top * h.t9 as int) / 3 < top;
    if h.t9 == 0 {
      assert q0 == 0;
    }
  }

  /** fe_tobytes. */
  method ToBytes(h: Fe) returns (s: seq<byte>)
    requires h.Carried()
    ensures |s| == 32 && LeValue(s) == h.Value() % P
  {
    hide Value10, LeBytes, LeValue;
    var q0: i32 := (19 * h.t9 + 0x100_0000) / 0x200_0000;
    var t, q := Chain(h, q0);
    TightBounds(t);
    SignOfChain(h, q0 as int, t.Value(), q as int);
    var excess;
    t, excess := Chain(h, 19 * q);
    TightBounds(t);
    if h.Value() < 0 {
      DivModUnique(h.Value(), P, -1, h.Value() + P);
      DivModUnique(h.Value() - 19, TWO255, -1, h.Value() + P);
      DivModUnique(h.Value() - 19, TWO255, excess as int, t.Value());
    } else {
      DivModUnique(h.Value(), P, 0, h.Value());
      DivModUnique(h.Value(), TWO255, excess as int, t.Value());
    }
    s := Pack(t);
    Packed(t.Value());
  }

  lemma Packed(v: nat)
    requires v < P
    ensures LeValue(LeBytes(v, 32)) == v
  {
    hide LeValue, LeBytes, Pow256;
    LeRoundTrip(v, 32);
    Pow256Of32();
    ModSmall(v, Pow256(32));
  }

  lemma Pow256Of32()
    ensures Pow256(32) == 2 * TWO255
  {
    hide Pow256;
    SmallPowers();
    Pow256Add(4, 4);
    Pow256Add(8, 8);
    Pow256Add(16, 16);
  }

  lemma Limbs8Value(w: seq<u32>)
    requires |w| == 8
    ensures LimbValue(w) == w[0] as int + B * (w[1] as int + B * (w[2] as int + B * (w[3] as int + B * (w[4] as int
                        + B * (w[5] as int + B * (w[6] as int + B * w[7] as int))))))
  {
    hide LimbValue, PowB;
    assert w == [w[0], w[1], w[2], w[3]] + [w[4], w[5], w[6], w[7]];
    Limbs4Value(w[0], w[1], w[2], w[3]);
    Limbs4Value(w[4], w[5], w[6], w[7]);
    LimbsConcat([w[0], w[1], w[2], w[3]], [w[4], w[5], w[6], w[7]]);
    PowBValues();
  }

  /** The eight store32_le calls: the two bit fields of a word do not overlap, so `|` is `+`. */
  method Pack(t: Fe) returns (s: seq<byte>)
    requires Tight(t)
    ensures s == LeBytes(t.Value(), 32)
  {
    hide LimbValue, LeBytes, LeValue, StoreLimbs;
    var w: seq<u32> := [
      t.t0 as u32 + (t.t1 % 0x40) as u32 * 0x400_0000,
      (t.t1 / 0x40) as u32 + (t.t2 % 0x2000) as u32 * 0x8_0000,
      (t.t2 / 0x2000) as u32 + (t.t3 % 0x8_0000) as u32 * 0x2000,
      (t.t3 / 0x8_0000) as u32 + t.t4 as u32 * 0x40,
      t.t5 as u32 + (t.t6 % 0x80) as u32 * 0x200_0000,
      (t.t6 / 0x80) as u32 + (t.t7 % 0x2000) as u32 * 0x8_0000,
      (t.t7 / 0x2000) as u32 + (t.t8 % 0x10_0000) as u32 * 0x1000,
      (t.t8 / 0x10_0000) as u32 + t.t9 as u32 * 0x40];
    s := StoreLimbs(w);
    StoreLimbsValue(w);
    Limbs8Value(w);
    assert LimbValue(w) == t.Value();
    LeBytesOf(s);
  }

  // ----- decoding -----

  /** load24_le. */
  function Load24(s: seq<byte>): (w: u32)
    requires |s| == 3
    ensures w as nat == LeValue(s) && w < 0x100_0000
  {
    LeValue3(s);
    s[0] as u32 + 0x100 * s[1] as u32 + 0x1_0000 * s[2] as u32
  }

  lemma LeValue3(s: seq<byte>)
    requires |s| == 3
    ensures LeValue(s) == s[0] as nat + 0x100 * s[1] as nat + 0x1_0000 * s[2] as nat
  {
    assert s[1..][1..] == s[2..];
    assert LeValue(s[2..]) == s[2] as nat + 256 * LeValue(s[2..][1..]);
  }

  /** Ten fields of 4, 3, 3, 3, 3, 4, 3, 3, 3 and 3 bytes make up the 32. */
  lemma FieldsOfBytes(s: seq<byte>)
    requires |s| == 32
    ensures LeValue(s) == LeValue(s[0..4]) + 0x1_0000_0000 * LeValue(s[4..7]) + 0x100_0000_0000_0000 * LeValue(s[7..10])
              + 0x1_0000_0000_0000_0000_0000 * LeValue(s[10..13])
                  + 0x100_0000_0000_0000_0000_0000_0000 * LeValue(s[13..16])
              + 0x1_0000_0000_0000_0000_0000_0000_0000_0000 * LeValue(s[16..20])
              + 0x1_0000_0000_0000_0000_0000_0000_0000_0000_0000_0000 * LeValue(s[20..23])
              + 0x100_0000_0000_0000_0000_0000_0000_0000_0000_0000_0000_0000 * LeValue(s[23..26])
              + 0x1_0000_0000_0000_0000_0000_0000_0000_0000_0000_0000_0000_0000_0000 * LeValue(s[26..29])
              + 0x100_0000_0000_0000_0000_0000_0000_0000_0000_0000_0000_0000_0000_0000_0000 * LeValue(s[29..32])
  {
    hide LeValue, Pow256;
    Peel(s, 0, 4);
    Peel(s, 4, 7);
    Peel(s, 7, 10);
    Peel(s, 10, 13);
    Peel(s, 13, 16);
    Peel(s, 16, 20);
    Peel(s, 20, 23);
    Peel(s, 23, 26);
    Peel(s, 26, 29);
    assert s[0..] == s && s[29..] == s[29..32];
    assert Pow256(4) == 0x1_0000_0000 && Pow256(3) == 0x100_0000 by { SmallPowers(); }
  }

  lemma SmallPowers()
    ensures Pow256(4) == 0x1_0000_0000 && Pow256(3) == 0x100_0000
  {
  }

  lemma Peel(s: seq<byte>, i: nat, j: nat)
    requires i <= j <= |s|
    ensures LeValue(s[i..]) == LeValue(s[i..j]) + Pow256(j - i) * LeValue(s[j..])
  {
    assert s[i..] == s[i..j] + s[j..];
    LeValueConcat(s[i..j], s[j..]);
  }

  /** The ten shifted fields, with the top bit of the last one masked off, spell the low 255 bits. */
  lemma LowBits(f0: nat, f1: nat, f2: nat, f3: nat, f4: nat, f5: nat, f6: nat, f7: nat, f8: nat, f9: nat, v: nat)
    requires f0 < 0x1_0000_0000 && f1 < 0x100_0000 && f2 < 0x100_0000 && f3 < 0x100_0000 && f4 < 0x100_0000
    requires f5 < 0x1_0000_0000 && f6 < 0x100_0000 && f7 < 0x100_0000 && f8 < 0x100_0000 && f9 < 0x100_0000
    requires v == f0 + 0x1_0000_0000 * f1 + 0x100_0000_0000_0000 * f2
              + 0x1_0000_0000_0000_0000_0000 * f3 + 0x100_0000_0000_0000_0000_0000_0000 * f4
              + 0x1_0000_0000_0000_0000_0000_0000_0000_0000 * f5
              + 0x1_0000_0000_0000_0000_0000_0000_0000_0000_0000_0000 * f6
              + 0x100_0000_0000_0000_0000_0000_0000_0000_0000_0000_0000_0000 * f7
              + 0x1_0000_0000_0000_0000_0000_0000_0000_0000_0000_0000_0000_0000_0000 * f8
              + 0x100_0000_0000_0000_0000_0000_0000_0000_0000_0000_0000_0000_0000_0000_0000 * f9
    ensures Value10(f0, 0x40 * f1, 0x20 * f2, 8 * f3, 4 * f4, f5, 0x80 * f6, 0x20 * f7, 0x10 * f8, 4 * (f9 % 0x80_0000))
            == v % TWO255
  {
    DivModUnique(v, TWO255, f9 / 0x80_0000,
      Value10(f0, 0x40 * f1, 0x20 * f2, 8 * f3, 4 * f4, f5, 0x80 * f6, 0x20 * f7, 0x10 * f8, 4 * (f9 % 0x80_0000)));
  }

  /** fe_frombytes: the top bit is ignored. */
  method FromBytes(s: seq<byte>) returns (h: Fe)
    requires |s| == 32
    ensures h.Carried()
    ensures h.Value() % P == LeValue(s) % TWO255 % P
  {
    hide LeValue, Load24, Load32, Value10;
    var t0: i64 := Load32(s[0..4]) as i64;
    var t1: i64 := Load24(s[4..7]) as i64 * 0x40;
    var t2: i64 := Load24(s[7..10]) as i64 * 0x20;
    var t3: i64 := Load24(s[10..13]) as i64 * 8;
    var t4: i64 := Load24(s[13..16]) as i64 * 4;
    var t5: i64 := Load32(s[16..20]) as i64;
    var t6: i64 := Load24(s[20..23]) as i64 * 0x80;
    var t7: i64 := Load24(s[23..26]) as i64 * 0x20;
    var t8: i64 := Load24(s[26..29]) as i64 * 0x10;
    var t9: i64 := (Load24(s[29..32]) % 0x80_0000) as i64 * 4;
    assert Value10(t0 as int, t1 as int, t2 as int, t3 as int, t4 as int, t5 as int, t6 as int, t7 as int, t8 as int,
        t9 as int)
           == LeValue(s) % TWO255 by {
      FieldsOfBytes(s);
      LowBits(LeValue(s[0..4]), LeValue(s[4..7]), LeValue(s[7..10]), LeValue(s[10..13]), LeValue(s[13..16]),
              LeValue(s[16..20]), LeValue(s[20..23]), LeValue(s[23..26]), LeValue(s[26..29]), LeValue(s[29..32]),
                  LeValue(s));
    }
    h := FeCarry(t0, t1, t2, t3, t4, t5, t6, t7, t8, t9);
  }

  /** Decoding then encoding gives the canonical encoding of the low 255 bits. */
  method Canonicalise(s: seq<byte>) returns (c: seq<byte>)
    requires |s| == 32
    ensures |c| == 32 && LeValue(c) == LeValue(s) % TWO255 % P
  {
    var h := FromBytes(s);
    c := ToBytes(h);
  }

  /** It is the only 32-byte string below the modulus with that residue. */
  lemma CanonicalIsUnique(v: int, c: seq<byte>)
    requires |c| == 32 && LeValue(c) < P && LeValue(c) % P == v % P
    ensures c == LeBytes(v % P, 32)
  {
    hide LeBytes, LeValue;
    DivModUnique(LeValue(c), P, 0, LeValue(c));
    LeBytesOf(c);
  }
}
