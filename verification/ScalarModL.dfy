/** Arithmetic modulo the Ed25519 group order (dosshd/crypto/monocypher.c): schoolbook
    multiplication on 32-bit limbs and Barrett reduction. Machine words are bounded types,
    so a verified body overflows no carry. */
module ScalarModL {
  import opened Bytes
  import opened Limbs

  // ----- one row of a product -----

  /** The body of the inner loops: p + a*b + carry fits 64 bits and splits into digit and carry. */
  method MulStep(p: u32, a: u32, b: u32, carry: u32) returns (lo: u32, hi: u32)
    ensures lo as nat + B * hi as nat == p as nat + a as nat * b as nat + carry as nat
  {
    ProductBound(a as nat, b as nat);
    var c: u64 := carry as u64 + p as u64 + a as u64 * b as u64;
    lo, hi := (c % 0x1_0000_0000) as u32, (c / 0x1_0000_0000) as u32;
  }

  lemma ProductBound(a: nat, b: nat)
    requires a < B && b < B
    ensures 0 <= a * b <= 0xffff_fffe_0000_0001
  {
    MulBound(a, b, 0xffff_ffff);
  }

  /** p[off..off+n] += a * b[..n], returning the carry out of the last limb. */
  method MulRow(p: array<u32>, off: nat, a: u32, b: seq<u32>, n: nat) returns (carry: u32)
    requires off + n <= p.Length && n <= |b|
    modifies p
    ensures LimbValue(p[off..off + n]) + PowB(n) * carry as nat == LimbValue(old(p[off..off + n]))
        + a as nat * LimbValue(b[..n])
    ensures forall k :: 0 <= k < p.Length && !(off <= k < off + n) ==> p[k] == old(p[k])
  {
    hide LimbValue, PowB;
    ghost var was := p[off..off + n];
    carry := 0;
    var j := 0;
    RowStart(was, b, a as nat);
    while j < n
      invariant 0 <= j <= n
      invariant LimbValue(p[off..off + n][..j]) + PowB(j) * carry as nat == LimbValue(was[..j])
          + a as nat * LimbValue(b[..j])
      invariant forall k :: j <= k < n ==> p[off + k] == was[k]
      invariant forall k :: 0 <= k < p.Length && !(off <= k < off + n) ==> p[k] == old(p[k])
    {
      ghost var before := p[off..off + n];
      ghost var c0 := carry;
      var lo, hi := MulStep(p[off + j], a, b[j], carry);
      p[off + j], carry := lo, hi;
      ghost var after := p[off..off + n];
      assert after[..j] == before[..j];
      LimbsNext(after, j);
      LimbsNext(was, j);
      LimbsNext(b, j);
      RowStep(LimbValue(before[..j]), PowB(j), c0 as nat, LimbValue(was[..j]), a as nat, LimbValue(b[..j]),
              lo as nat, hi as nat, was[j] as nat, b[j] as nat);
      PowBNext(j);
      j := j + 1;
    }
    assert p[off..off + n][..n] == p[off..off + n] && was[..n] == was;
  }

  lemma PowBNext(j: nat)
    ensures PowB(j + 1) == B * PowB(j)
  {
  }

  lemma RowStart(was: seq<u32>, b: seq<u32>, a: nat)
    ensures LimbValue(was[..0]) == 0 && LimbValue(b[..0]) == 0 && PowB(0) == 1
  {
  }

  lemma RowStep(done: nat, q: nat, c0: nat, was: nat, a: nat, b: nat, lo: nat, hi: nat, w: nat, d: nat)
    requires done + q * c0 == was + a * b
    requires lo + B * hi == w + a * d + c0
    ensures (done + q * lo) + (B * q) * hi == (was + q * w) + a * (b + q * d)
  {
    assert q * (lo + B * hi) == q * (w + a * d + c0);
    assert q * (lo + B * hi) == q * lo + (B * q) * hi;
    assert q * (w + a * d + c0) == q * w + a * (q * d) + q * c0;
    assert a * (b + q * d) == a * b + a * (q * d);
  }

  /** p[..|a|+|b|] = a * b + p[..|b|]: one MulRow per limb of a, its carry becoming the next limb. */
  method MulAdd(p: array<u32>, a: seq<u32>, b: seq<u32>)
    requires |a| + |b| <= p.Length
    modifies p
    ensures LimbValue(p[..|a| + |b|]) == LimbValue(old(p[..|b|])) + LimbValue(a) * LimbValue(b)
  {
    hide LimbValue, PowB;
    var n := |b|;
    ghost var start := LimbValue(p[..n]);
    var i := 0;
    RowStart(a, b, 0);
    assert b[..n] == b;
    while i < |a|
      invariant 0 <= i <= |a|
      invariant LimbValue(p[..i + n]) == start + LimbValue(a[..i]) * LimbValue(b)
    {
      ghost var before := p[..];
      assert before[..i + n] == p[..i + n] && before[i..i + n] == p[i..i + n];
      var carry := MulRow(p, i, a[i], b, n);
      ghost var mid := p[..];
      p[i + n] := carry;
      ghost var after := p[..];
      assert after[..i] == before[..i] && after[i..i + n] == mid[i..i + n];
      LimbsOfSlice(before, i, i + n);
      LimbsOfSlice(after, i, i + n);
      LimbsNext(after, i + n);
      PowBAdd(i, n);
      LimbsNext(a, i);
      ColumnStep(LimbValue(before[..i]), LimbValue(before[i..i + n]), LimbValue(after[i..i + n]), PowB(i), PowB(n),
                 carry as nat, a[i] as nat, LimbValue(b), start, LimbValue(a[..i]));
      assert after[..i + n + 1] == p[..i + 1 + n];
      i := i + 1;
    }
    assert a[..|a|] == a;
  }

  lemma ColumnStep(low: nat, was: nat, now: nat, pi: nat, pn: nat, carry: nat, a: nat, b: nat, start: nat, av: nat)
    requires now + pn * carry == was + a * b
    requires low + pi * was == start + av * b
    ensures low + pi * now + (pi * pn) * carry == start + (av + pi * a) * b
  {
    assert pi * (now + pn * carry) == pi * (was + a * b);
    assert pi * (now + pn * carry) == pi * now + (pi * pn) * carry;
    assert pi * (was + a * b) == pi * was + (pi * a) * b;
    assert (av + pi * a) * b == av * b + (pi * a) * b;
  }

  // ----- complement and subtraction -----

  function Not32(x: u32): u32 {
    0xffff_ffff - x
  }

  function Complement(s: seq<u32>): (c: seq<u32>)
    ensures |c| == |s|
  {
    seq(|s|, i requires 0 <= i < |s| => Not32(s[i]))
  }

  lemma {:induction false} ComplementValue(s: seq<u32>)
    ensures LimbValue(Complement(s)) == PowB(|s|) - 1 - LimbValue(s)
  {
    if |s| == 0 {
    } else {
      ComplementValue(s[1..]);
      assert Complement(s)[1..] == Complement(s[1..]);
    }
  }

  /** One limb of x + y + carry. */
  method AddStep(x: u32, y: u32, carry: u32) returns (lo: u32, hi: u32)
    requires carry <= 1
    ensures lo as nat + B * hi as nat == x as nat + y as nat + carry as nat && hi <= 1
  {
    var c: u64 := carry as u64 + x as u64 + y as u64;
    lo, hi := (c % 0x1_0000_0000) as u32, (c / 0x1_0000_0000) as u32;
  }

  lemma AddLimbStep(done: nat, q: nat, c0: nat, x: nat, y: nat, c: nat, lo: nat, hi: nat, xi: nat, yi: nat)
    requires done + q * c == x + y + c0
    requires lo + B * hi == xi + yi + c
    ensures (done + q * lo) + (B * q) * hi == (x + q * xi) + (y + q * yi) + c0
  {
    assert q * (lo + B * hi) == q * (xi + yi + c);
    assert q * (lo + B * hi) == q * lo + (B * q) * hi;
    assert q * (xi + yi + c) == q * xi + q * yi + q * c;
  }

  // ----- modulo L -----

  /** 2^252 + 27742317777372353535851937790883648493, the order of the base point. */
  const L: nat := 0x10000000_00000000_00000000_00000000_14def9de_a2f79cd6_5812631a_5cf5d3ed
  const L_LIMBS: seq<u32> := [0x5cf5d3ed, 0x5812631a, 0xa2f79cd6, 0x14def9de, 0, 0, 0, 0x10000000]
  /** floor(2^512 / L). */
  const R: nat := 0xf_ffffffff_ffffffff_ffffffff_ffffffeb_2106215d_086329a7_ed9ce5a3_0a2c131b
  const R_LIMBS: seq<u32> := [0x0a2c131b, 0xed9ce5a3, 0x086329a7, 0x2106215d,
                              0xffffffeb, 0xffffffff, 0xffffffff, 0xffffffff, 0xf]
  lemma LLimbs()
    ensures LimbValue(L_LIMBS) == L
  {
    hide LimbValue, PowB;
    assert L_LIMBS == [0x5cf5d3ed, 0x5812631a, 0xa2f79cd6, 0x14def9de] + [0, 0, 0, 0x10000000];
    Limbs4Value(0x5cf5d3ed, 0x5812631a, 0xa2f79cd6, 0x14def9de);
    Limbs4Value(0, 0, 0, 0x10000000);
    LimbsConcat([0x5cf5d3ed, 0x5812631a, 0xa2f79cd6, 0x14def9de], [0, 0, 0, 0x10000000]);
    PowBValues();
  }

  lemma RLimbs()
    ensures LimbValue(R_LIMBS) == R
  {
    hide LimbValue, PowB;
    var low, mid := [0x0a2c131b, 0xed9ce5a3, 0x086329a7, 0x2106215d], [0xffffffeb, 0xffffffff, 0xffffffff, 0xffffffff];
    assert R_LIMBS == low + mid + [0xf];
    Limbs4Value(0x0a2c131b, 0xed9ce5a3, 0x086329a7, 0x2106215d);
    Limbs4Value(0xffffffeb, 0xffffffff, 0xffffffff, 0xffffffff);
    LimbsConcat(low, mid);
    LimbsConcat(low + mid, [0xf]);
    OneLimb(0xf);
    PowBValues();
  }

  lemma MulMono(x: nat, y: nat, z: nat)
    requires x <= y
    ensures x * z <= y * z
  {
  }

  lemma MulCancel(x: nat, y: nat, z: nat)
    requires z > 0 && x * z <= y * z
    ensures x <= y
  {
    assert (x - y) * z == x * z - y * z;
    if x > y {
      MulAtLeast(z, x - y);
    }
  }

  lemma MulCancelStrict(x: nat, y: nat, z: nat)
    requires x * z < y * z
    ensures x < y
  {
    assert (x - y) * z == x * z - y * z;
    if x >= y {
      MulBound(0, z, x - y);
    }
  }

  lemma Rearrange(a: nat, b: nat, c: nat)
    ensures (a * b) * c == (a * c) * b && (a * b) * c == (b * c) * a
  {
  }

  lemma BarrettLower(x: nat, q: nat, r: nat, l: nat, n: nat)
    requires n > 0 && r * l <= n && q * n <= x * r
    ensures q * l <= x
  {
    Rearrange(q, n, l);
    Rearrange(x, r, l);
    MulMono(q * n, x * r, l);
    MulMono(r * l, n, x);
    assert n * x == x * n;
    MulCancel(q * l, x, n);
  }

  lemma BarrettUpper(x: nat, q: nat, r: nat, l: nat, n: nat)
    requires l > 0 && n <= (r + 1) * l && x < n && x * r < (q + 1) * n
    ensures x < (q + 2) * l
  {
    UpperA(x, r, l, n);
    UpperB(x, q, r, l, n);
    UpperC(x, q, l, n);
    MulCancelStrict(x, (q + 2) * l, n);
  }

  lemma UpperA(x: nat, r: nat, l: nat, n: nat)
    requires n <= (r + 1) * l
    ensures x * n <= (x * r) * l + x * l
  {
    MulMono(n, (r + 1) * l, x);
    MulDistr(l, r, 1);
    Rearrange(r, l, x);
    assert ((r + 1) * l) * x == (r * l) * x + l * x;
  }

  lemma UpperB(x: nat, q: nat, r: nat, l: nat, n: nat)
    requires x * r < (q + 1) * n
    ensures (x * r) * l + l <= ((q + 1) * n) * l
  {
    MulMono(x * r + 1, (q + 1) * n, l);
    assert (x * r + 1) * l == (x * r) * l + l;
  }

  lemma UpperC(x: nat, q: nat, l: nat, n: nat)
    requires x < n
    ensures ((q + 1) * n) * l + x * l + l <= ((q + 2) * l) * n
  {
    MulMono(x + 1, n, l);
    assert (x + 1) * l == x * l + l;
    Rearrange(q + 1, n, l);
    assert (q + 2) * l == (q + 1) * l + l;
    assert ((q + 1) * l + l) * n == ((q + 1) * l) * n + l * n;
  }

  /** The quotient estimate is at most one short: q L <= x < (q + 2) L. */
  lemma Barrett(x: nat, q: nat, r: nat, l: nat, n: nat)
    requires l > 0 && r * l <= n <= (r + 1) * l && x < n
    requires q * n <= x * r < (q + 1) * n
    ensures q * l <= x < (q + 2) * l
  {
    BarrettLower(x, q, r, l, n);
    BarrettUpper(x, q, r, l, n);
  }

  /** is_above_l: the carry out of x + ~L + 1. */
  method IsAboveL(x: seq<u32>) returns (above: u32)
    requires |x| == 8
    ensures above == if LimbValue(x) >= L then 1 else 0
  {
    hide LimbValue, PowB, Not32;
    ghost var notL := Complement(L_LIMBS);
    ghost var low: nat := 0;
    var carry: u32 := 1;
    var i := 0;
    RowStart(x, notL, 0);
    while i < 8
      invariant 0 <= i <= 8 && carry <= 1 && low < PowB(i)
      invariant low + PowB(i) * carry as nat == LimbValue(x[..i]) + LimbValue(notL[..i]) + 1
    {
      ghost var c := carry;
      assert notL[i] == Not32(L_LIMBS[i]);
      var lo, hi := AddStep(x[i], Not32(L_LIMBS[i]), carry);
      carry := hi;
      LimbsNext(x, i);
      LimbsNext(notL, i);
      PowBNext(i);
      AddLimbStep(low, PowB(i), 1, LimbValue(x[..i]), LimbValue(notL[..i]), c as nat, lo as nat, hi as nat,
          x[i] as nat, notL[i] as nat);
      MulMono(lo as nat, 0xffff_ffff, PowB(i));
      low := low + PowB(i) * lo as nat;
      i := i + 1;
    }
    assert x[..8] == x && notL[..8] == notL;
    ComplementValue(L_LIMBS);
    LLimbs();
    above := carry;
  }

  /** remove_l: subtract L once if it can be subtracted. r may be x itself. */
  method RemoveL(r: array<u32>, x: array<u32>)
    requires r.Length >= 8 && x.Length >= 8
    modifies r
    ensures LimbValue(r[..8]) ==
            if old(LimbValue(x[..8])) >= L then old(LimbValue(x[..8])) - L else old(LimbValue(x[..8]))
  {
    hide LimbValue, PowB, Not32;
    ghost var was := x[..8];
    var above := IsAboveL(x[..8]);
    ghost var y := if above == 1 then Complement(L_LIMBS) else [0, 0, 0, 0, 0, 0, 0, 0];
    var carry := above;
    var i := 0;
    RowStart(was, y, 0);
    RowStart(r[..], y, 0);
    assert r[..][..0] == r[..0];
    while i < 8
      invariant 0 <= i <= 8 && carry <= 1
      invariant LimbValue(r[..i]) + PowB(i) * carry as nat == LimbValue(was[..i]) + LimbValue(y[..i]) + above as nat
      invariant forall k :: i <= k < 8 ==> x[k] == was[k]
    {
      ghost var before := r[..i];
      ghost var c := carry;
      assert y[i] == if above == 1 then Not32(L_LIMBS[i]) else 0;
      var lo, hi := AddStep(x[i], if above == 1 then Not32(L_LIMBS[i]) else 0, carry);
      r[i], carry := lo, hi;
      ghost var after := r[..];
      assert after[..i] == before && after[..i + 1] == r[..i + 1];
      LimbsNext(after, i);
      LimbsNext(was, i);
      LimbsNext(y, i);
      PowBNext(i);
      AddLimbStep(LimbValue(before), PowB(i), above as nat, LimbValue(was[..i]), LimbValue(y[..i]), c as nat,
                  lo as nat, hi as nat, was[i] as nat, y[i] as nat);
      i := i + 1;
    }
    assert was[..8] == was && y[..8] == y;
    RemoveLValue(was, r[..8], y, above, carry);
  }

  lemma RemoveLValue(was: seq<u32>, now: seq<u32>, y: seq<u32>, above: u32, carry: u32)
    requires |was| == |now| == 8 && carry <= 1
    requires above == if LimbValue(was) >= L then 1 else 0
    requires y == if above == 1 then Complement(L_LIMBS) else [0, 0, 0, 0, 0, 0, 0, 0]
    requires LimbValue(now) + PowB(8) * carry as nat == LimbValue(was) + LimbValue(y) + above as nat
    ensures LimbValue(now) == if LimbValue(was) >= L then LimbValue(was) - L else LimbValue(was)
  {
    hide LimbValue, PowB, Not32;
    LimbsBound(was);
    LimbsBound(now);
    PowBValues();
    assert TWO256 * carry as nat == if carry == 1 then TWO256 else 0;
    if above == 1 {
      ComplementValue(L_LIMBS);
      LLimbs();
      assert LimbValue(y) == TWO256 - 1 - L;
    } else {
      ZeroLimbs();
    }
  }

  lemma ZeroLimbs()
    ensures LimbValue([0, 0, 0, 0, 0, 0, 0, 0]) == 0
  {
    hide LimbValue;
    var z: seq<u32> := [0, 0, 0, 0];
    assert [0, 0, 0, 0, 0, 0, 0, 0] == z + z;
    Limbs4Value(0, 0, 0, 0);
    LimbsConcat(z, z);
  }

  /** xr[..8] = q * L modulo 2^256, where q is held in xr[16..24]: row i stops at limb 8. */
  method TruncatedProduct(xr: array<u32>)
    requires xr.Length == 25 && LimbValue(xr[..8]) == 0
    modifies xr
    ensures LimbValue(xr[..8]) == LimbValue(old(xr[16..24])) * L % TWO256
  {
    hide LimbValue, PowB;
    ghost var q := xr[16..24];
    ghost var k: nat := 0;
    var i := 0;
    RowStart(q, q, 0);
    LLimbs();
    while i < 8
      invariant 0 <= i <= 8
      invariant LimbValue(xr[..8]) + PowB(8) * k == LimbValue(q[..i]) * L
      invariant xr[16..24] == q
    {
      ghost var before := xr[..];
      assert before[i + 16] == xr[16..24][i] == q[i];
      assert before[i..8] == xr[i..8] && before[..8] == xr[..8];
      var n := 8 - i;
      var carry := MulRow(xr, i, xr[i + 16], L_LIMBS, n);
      ghost var after := xr[..];
      assert after[..i] == before[..i] && after[i..8] == xr[i..8] && after[..8] == xr[..8];
      assert xr[16..24] == q;
      LimbsOfSlice(before, i, 8);
      LimbsOfSlice(after, i, 8);
      LimbsSplit(L_LIMBS, n);
      LimbsNext(q, i);
      PowBAdd(i, n);
      TruncStep(LimbValue(before[..i]), LimbValue(before[i..8]), LimbValue(after[i..8]), PowB(i), PowB(n), carry as nat,
                q[i] as nat, LimbValue(L_LIMBS[..n]), LimbValue(L_LIMBS[n..]), k, LimbValue(q[..i]));
      k := k + carry as nat + q[i] as nat * LimbValue(L_LIMBS[n..]);
      i := i + 1;
    }
    assert q[..8] == q;
    LimbsBound(xr[..8]);
    PowBValues();
    DivModUnique(LimbValue(q) * L, TWO256, k, LimbValue(xr[..8]));
  }

  lemma TruncStep(low: nat, was: nat, now: nat, pi: nat, pn: nat, carry: nat, a: nat, lpre: nat, lsuf: nat, k: nat,
      qv: nat)
    requires now + pn * carry == was + a * lpre
    requires low + pi * was + (pi * pn) * k == qv * (lpre + pn * lsuf)
    ensures low + pi * now + (pi * pn) * (k + carry + a * lsuf) == (qv + pi * a) * (lpre + pn * lsuf)
  {
    var l, p8, u := lpre + pn * lsuf, pi * pn, a * lsuf;
    assert pi * now + p8 * carry == pi * was + pi * (a * lpre) by {
      MulDistr(pi, now, pn * carry);
      MulDistr(pi, was, a * lpre);
      MulAssoc(pi, pn, carry);
    }
    assert (qv + pi * a) * l == qv * l + pi * (a * l) by {
      MulDistr(l, qv, pi * a);
      MulAssoc(pi, a, l);
    }
    assert pi * (a * l) == pi * (a * lpre) + p8 * u by {
      MulDistr(a, lpre, pn * lsuf);
      MulAssoc(a, pn, lsuf);
      MulAssoc(pn, a, lsuf);
      MulDistr(pi, a * lpre, pn * u);
      MulAssoc(pi, pn, u);
    }
    assert p8 * (k + carry + u) == p8 * k + p8 * carry + p8 * u by {
      MulDistr(p8, k + carry, u);
      MulDistr(p8, k, carry);
    }
  }

  /** xr[..8] = x - xr[..8] modulo 2^256. */
  method SubtractFrom(xr: array<u32>, x: seq<u32>)
    requires xr.Length >= 8 && |x| == 8
    modifies xr
    ensures LimbValue(xr[..8]) == (LimbValue(x) - LimbValue(old(xr[..8]))) % TWO256
  {
    hide LimbValue, PowB, Not32;
    ghost var was := xr[..8];
    ghost var y := Complement(was);
    var carry: u32 := 1;
    var i := 0;
    RowStart(x, y, 0);
    RowStart(xr[..], y, 0);
    assert xr[..][..0] == xr[..0];
    while i < 8
      invariant 0 <= i <= 8 && carry <= 1
      invariant LimbValue(xr[..i]) + PowB(i) * carry as nat == LimbValue(x[..i]) + LimbValue(y[..i]) + 1
      invariant forall k :: i <= k < 8 ==> xr[k] == was[k]
    {
      ghost var before := xr[..i];
      ghost var c := carry;
      assert y[i] == Not32(xr[i]);
      var lo, hi := AddStep(x[i], Not32(xr[i]), carry);
      xr[i], carry := lo, hi;
      ghost var after := xr[..];
      assert after[..i] == before && after[..i + 1] == xr[..i + 1];
      LimbsNext(after, i);
      LimbsNext(x, i);
      LimbsNext(y, i);
      PowBNext(i);
      AddLimbStep(LimbValue(before), PowB(i), 1, LimbValue(x[..i]), LimbValue(y[..i]), c as nat,
                  lo as nat, hi as nat, x[i] as nat, y[i] as nat);
      i := i + 1;
    }
    assert x[..8] == x && y[..8] == y;
    ComplementValue(was);
    LimbsBound(xr[..8]);
    PowBValues();
    DivModUnique(LimbValue(x) - LimbValue(was), TWO256, carry as int - 1, LimbValue(xr[..8]));
  }

  /** What is left after the estimated multiple of L is removed, reduced once more, is x mod L. */
  lemma BarrettResidue(x: nat, xlow: nat, xhigh: nat, q: nat, qlow: nat, qhigh: nat, d: nat)
    requires x < TWO512 && q == x * R / TWO512
    requires x == xlow + TWO256 * xhigh && q == qlow + TWO256 * qhigh
    requires d == (xlow - qlow * L % TWO256) % TWO256
    ensures d < 2 * L && x % L == if d >= L then d - L else d
  {
    var t := qlow * L % TWO256;
    Barrett(x, q, R, L, TWO512) by {
      assert x * R == TWO512 * q + (x * R) % TWO512;
    }
    var v := x - q * L;
    assert 0 <= v < 2 * L by { assert (q + 2) * L == q * L + 2 * L; }
    var k := (xlow - t) / TWO256;
    var m := qlow * L / TWO256;
    assert xlow - t == TWO256 * k + d;
    assert qlow * L == TWO256 * m + t;
    assert q * L == qlow * L + TWO256 * (qhigh * L) by {
      assert (qlow + TWO256 * qhigh) * L == qlow * L + (TWO256 * qhigh) * L;
      MulAssoc(TWO256, qhigh, L);
    }
    var e := xhigh - m - qhigh * L + k;
    assert v == TWO256 * e + d;
    DivModUnique(v, TWO256, e, d);
    DivModUnique(v, TWO256, 0, v);
    assert x == L * q + v;
    if v >= L {
      assert L * (q + 1) == L * q + L;
      DivModUnique(x, L, q + 1, v - L);
    } else {
      DivModUnique(x, L, q, v);
    }
  }

  /** mod_l: Barrett reduction of a 512-bit number, as 32 little-endian bytes. */
  method ModL(x: seq<u32>) returns (reduced: seq<byte>)
    requires |x| == 16
    ensures reduced == LeBytes(LimbValue(x) % L, 32)
  {
    hide LimbValue, PowB, LeBytes, LeValue, StoreLimbs;
    var xr := new u32[25](_ => 0);
    ZeroPrefix(xr[..16]);
    MulAdd(xr, R_LIMBS, x);
    ghost var xq := xr[..];
    assert xq == xr[..25];
    RLimbs();
    QuotientLimbs(xq, x);
    var i := 0;
    while i < 8
      invariant 0 <= i <= 8
      invariant forall k :: 0 <= k < i ==> xr[k] == 0
      invariant forall k :: 8 <= k < 25 ==> xr[k] == xq[k]
    {
      xr[i] := 0;
      i := i + 1;
    }
    ZeroPrefix(xr[..8]);
    assert xr[16..24] == xq[16..24];
    TruncatedProduct(xr);
    SubtractFrom(xr, x[..8]);
    assert LimbValue(x) == LimbValue(x[..8]) + TWO256 * LimbValue(x[8..]) by {
      LimbsSplit(x, 8);
      PowBValues();
    }
    BarrettResidue(LimbValue(x), LimbValue(x[..8]), LimbValue(x[8..]), LimbValue(xq[16..]), LimbValue(xq[16..24]),
        LimbValue(xq[24..]), LimbValue(xr[..8]));
    RemoveL(xr, xr);
    reduced := StoreLimbs(xr[..8]);
    StoreLimbsValue(xr[..8]);
    LeBytesOf(reduced);
  }

  lemma ZeroPrefix(z: seq<u32>)
    requires forall k :: 0 <= k < |z| ==> z[k] == 0
    ensures LimbValue(z) == 0
  {
    if |z| > 0 {
      ZeroPrefix(z[1..]);
    }
  }

  lemma QuotientLimbs(xq: seq<u32>, x: seq<u32>)
    requires |xq| == 25 && |x| == 16 && LimbValue(xq) == R * LimbValue(x)
    ensures LimbValue(x) < TWO512
    ensures LimbValue(xq[16..]) == LimbValue(x) * R / TWO512
    ensures LimbValue(xq[16..]) == LimbValue(xq[16..24]) + TWO256 * LimbValue(xq[24..])
  {
    hide LimbValue, PowB;
    PowBValues();
    LimbsBound(x);
    LimbsSplit(xq, 16);
    LimbsBound(xq[..16]);
    DivModUnique(LimbValue(x) * R, TWO512, LimbValue(xq[16..]), LimbValue(xq[..16]));
    LimbsSplit(xq[16..], 8);
    assert xq[16..][..8] == xq[16..24] && xq[16..][8..] == xq[24..];
  }

  /** crypto_eddsa_mul_add: (a * b + c) mod L. */
  method EddsaMulAdd(a: seq<byte>, b: seq<byte>, c: seq<byte>) returns (r: seq<byte>)
    requires |a| == |b| == |c| == 32
    ensures r == LeBytes((LeValue(a) * LeValue(b) + LeValue(c)) % L, 32)
  {
    hide LimbValue, PowB, LeBytes, LeValue, LoadLimbs;
    var p := new u32[16](_ => 0);
    var i := 0;
    var cw := LoadLimbs(c);
    while i < 8
      invariant 0 <= i <= 8
      invariant p[..i] == cw[..i]
    {
      p[i] := cw[i];
      i := i + 1;
    }
    assert p[..8] == cw;
    MulAdd(p, LoadLimbs(a), LoadLimbs(b));
    LoadLimbsValue(a);
    LoadLimbsValue(b);
    LoadLimbsValue(c);
    assert p[..16] == p[..];
    r := ModL(p[..]);
  }

  /** crypto_eddsa_reduce: a 64-byte hash modulo L. */
  method EddsaReduce(expanded: seq<byte>) returns (reduced: seq<byte>)
    requires |expanded| == 64
    ensures reduced == LeBytes(LeValue(expanded) % L, 32)
  {
    hide LoadLimbs, LeBytes, LeValue, LimbValue;
    LoadLimbsValue(expanded);
    reduced := ModL(LoadLimbs(expanded));
  }
}
