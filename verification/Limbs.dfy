/** Numbers as little-endian sequences of 32-bit limbs, and the byte strings they load from
    and store to. */
module Limbs {
  import opened Bytes

  const TWO256: nat := 0x1_00000000_00000000_00000000_00000000_00000000_00000000_00000000_00000000
  const TWO512: nat := TWO256 * TWO256

  function PowB(n: nat): (p: nat)
    ensures p > 0
  {
    if n == 0 then 1 else B * PowB(n - 1)
  }

  function LimbValue(s: seq<u32>): nat {
    if |s| == 0 then 0 else s[0] as nat + B * LimbValue(s[1..])
  }

  lemma {:induction false} PowBAdd(m: nat, n: nat)
    ensures PowB(m + n) == PowB(m) * PowB(n)
    decreases m
  {
    if m == 0 {
    } else {
      var a, b := PowB(m - 1), PowB(n);
      assert PowB(m - 1 + n) == a * b by { PowBAdd(m - 1, n); }
      assert PowB(m + n) == B * PowB(m - 1 + n);
      MulAssoc(B, a, b);
    }
  }

  lemma {:induction false} LimbsConcat(a: seq<u32>, b: seq<u32>)
    ensures LimbValue(a + b) == LimbValue(a) + PowB(|a|) * LimbValue(b)
  {
    if |a| == 0 {
      assert a + b == b;
    } else {
      var p, v := PowB(|a| - 1), LimbValue(b);
      assert (a + b)[1..] == a[1..] + b;
      assert LimbValue(a[1..] + b) == LimbValue(a[1..]) + p * v by { LimbsConcat(a[1..], b); }
      MulAssoc(B, p, v);
    }
  }

  lemma {:induction false} LimbsBound(s: seq<u32>)
    ensures LimbValue(s) < PowB(|s|)
  {
    if |s| == 0 {
    } else {
      LimbsBound(s[1..]);
    }
  }

  /** Extending a prefix by one limb. */
  lemma LimbsNext(s: seq<u32>, i: nat)
    requires i < |s|
    ensures LimbValue(s[..i + 1]) == LimbValue(s[..i]) + PowB(i) * s[i] as nat
  {
    assert s[..i + 1] == s[..i] + [s[i]];
    LimbsConcat(s[..i], [s[i]]);
    assert LimbValue([s[i]]) == s[i] as nat;
  }

  lemma LimbsSplit(s: seq<u32>, i: nat)
    requires i <= |s|
    ensures LimbValue(s) == LimbValue(s[..i]) + PowB(i) * LimbValue(s[i..])
  {
    assert s == s[..i] + s[i..];
    LimbsConcat(s[..i], s[i..]);
  }

  lemma LimbsOfSlice(s: seq<u32>, i: nat, j: nat)
    requires i <= j <= |s|
    ensures LimbValue(s[..j]) == LimbValue(s[..i]) + PowB(i) * LimbValue(s[i..j])
  {
    assert s[..j][..i] == s[..i] && s[..j][i..] == s[i..j];
    LimbsSplit(s[..j], i);
  }

  lemma OneLimb(x: u32)
    ensures LimbValue([x]) == x as nat
  {
  }

  lemma LimbsCons(x: u32, s: seq<u32>)
    ensures LimbValue([x] + s) == x as nat + B * LimbValue(s)
  {
    assert ([x] + s)[1..] == s;
  }

  lemma Limbs4Value(a: u32, b: u32, c: u32, d: u32)
    ensures LimbValue([a, b, c, d]) == a as nat + B * (b as nat + B * (c as nat + B * d as nat))
  {
    hide LimbValue;
    assert [a, b, c, d] == [a] + ([b] + ([c] + [d]));
    OneLimb(d);
    LimbsCons(c, [d]);
    LimbsCons(b, [c] + [d]);
    LimbsCons(a, [b] + ([c] + [d]));
  }

  lemma PowBValues()
    ensures PowB(4) == 0x1_0000_0000_0000_0000_0000_0000_0000_0000
    ensures PowB(8) == TWO256 && PowB(16) == TWO512
  {
    assert PowB(2) == B * B;
    PowBAdd(2, 2);
    PowBAdd(4, 4);
    PowBAdd(8, 8);
  }

  /** load32_le_buf. */
  function LoadLimbs(s: seq<byte>): (w: seq<u32>)
    requires |s| % 4 == 0
    ensures |w| == |s| / 4
  {
    if |s| == 0 then [] else [Load32(s[..4])] + LoadLimbs(s[4..])
  }

  lemma {:induction false} LoadLimbsValue(s: seq<byte>)
    requires |s| % 4 == 0
    ensures LimbValue(LoadLimbs(s)) == LeValue(s)
  {
    if |s| == 0 {
    } else {
      LoadLimbsValue(s[4..]);
      LimbsCons(Load32(s[..4]), LoadLimbs(s[4..]));
      assert s == s[..4] + s[4..];
      LeValueConcat(s[..4], s[4..]);
      assert Pow256(4) == B;
    }
  }

  /** store32_le_buf. */
  function StoreLimbs(w: seq<u32>): (s: seq<byte>)
    ensures |s| == 4 * |w|
  {
    if |w| == 0 then [] else LeBytes(w[0] as nat, 4) + StoreLimbs(w[1..])
  }

  lemma {:induction false} StoreLimbsValue(w: seq<u32>)
    ensures LeValue(StoreLimbs(w)) == LimbValue(w)
  {
    if |w| == 0 {
    } else {
      StoreLimbsValue(w[1..]);
      LeValueConcat(LeBytes(w[0] as nat, 4), StoreLimbs(w[1..]));
      LeRoundTrip(w[0] as nat, 4);
      assert Pow256(4) == B;
    }
  }
}
