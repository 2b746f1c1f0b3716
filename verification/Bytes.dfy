/** Octets, machine words and the little- and big-endian numbers they spell. */
module Bytes {

  newtype byte = x: int | 0 <= x < 256
  newtype u32 = x: int | 0 <= x < 0x1_0000_0000
  newtype u64 = x: int | 0 <= x < 0x1_0000_0000_0000_0000

  /** The 32-bit limb base. */
  const B: int := 0x1_0000_0000

  function Pow2(n: nat): (p: nat)
    ensures p > 0
  {
    if n == 0 then 1 else 2 * Pow2(n - 1)
  }

  function Pow256(n: nat): (p: nat)
    ensures p > 0
  {
    if n == 0 then 1 else 256 * Pow256(n - 1)
  }

  /** The number a little-endian byte string stands for. */
  function LeValue(s: seq<byte>): nat {
    if |s| == 0 then 0 else s[0] as nat + 256 * LeValue(s[1..])
  }

  /** The n low-order bytes of v, least significant first. */
  function LeBytes(v: nat, n: nat): (s: seq<byte>)
    ensures |s| == n
    decreases n
  {
    if n == 0 then [] else [(v % 256) as byte] + LeBytes(v / 256, n - 1)
  }

  lemma MulAssoc(a: int, b: int, c: int)
    ensures a * (b * c) == (a * b) * c
  {
  }

  lemma MulDistr(a: int, b: int, c: int)
    ensures a * (b + c) == a * b + a * c
  {
  }

  lemma MulBound(x: nat, y: nat, m: nat)
    requires x <= m
    ensures 0 <= x * y <= m * y
  {
  }

  lemma {:induction false} Pow256Add(m: nat, n: nat)
    ensures Pow256(m + n) == Pow256(m) * Pow256(n)
    decreases m
  {
    if m == 0 {
    } else {
      var a, b := Pow256(m - 1), Pow256(n);
      assert Pow256(m - 1 + n) == a * b by { Pow256Add(m - 1, n); }
      assert Pow256(m + n) == 256 * Pow256(m - 1 + n);
      MulAssoc(256, a, b);
    }
  }

  lemma {:induction false} LeValueConcat(a: seq<byte>, b: seq<byte>)
    ensures LeValue(a + b) == LeValue(a) + Pow256(|a|) * LeValue(b)
  {
    if |a| == 0 {
      assert a + b == b;
    } else {
      var p, v := Pow256(|a| - 1), LeValue(b);
      assert (a + b)[1..] == a[1..] + b;
      assert LeValue(a[1..] + b) == LeValue(a[1..]) + p * v by { LeValueConcat(a[1..], b); }
      MulAssoc(256, p, v);
    }
  }

  lemma {:induction false} LeValueBound(s: seq<byte>)
    ensures LeValue(s) < Pow256(|s|)
  {
    if |s| == 0 {
    } else {
      LeValueBound(s[1..]);
    }
  }

  /** Encoding then decoding keeps exactly the low n bytes. */
  lemma {:induction false} LeRoundTrip(v: nat, n: nat)
    ensures LeValue(LeBytes(v, n)) == v % Pow256(n)
    decreases n
  {
    if n == 0 {
    } else {
      LeRoundTrip(v / 256, n - 1);
      assert LeBytes(v, n)[1..] == LeBytes(v / 256, n - 1);
      ModSplit(v, Pow256(n - 1));
    }
  }

  lemma ModSplit(v: nat, p: nat)
    requires p > 0
    ensures v % (256 * p) == v % 256 + 256 * ((v / 256) % p)
  {
    var q := (v / 256) / p;
    var r := (v / 256) % p;
    assert v / 256 == q * p + r;
    assert v == 256 * (q * p + r) + v % 256;
    DivModUnique(v, 256 * p, q, 256 * r + v % 256);
  }

  lemma MulAtLeast(d: int, k: int)
    requires d > 0 && k > 0
    ensures d * k >= d
  {
  }

  lemma DivBelow(c: nat, d: nat, n: nat)
    requires d > 0 && c < d * n
    ensures c / d < n
  {
    var q := c / d;
    assert c == d * q + c % d;
    Ordered(d, n, q);
  }

  lemma Ordered(d: nat, n: int, q: int)
    ensures n <= q ==> d * n <= d * q
  {
    if n <= q {
      MulBound(0, d, q - n);
      MulDistr(d, q, -n);
      assert d * q + d * -n == d * q - d * n;
    }
  }

  lemma DivModUnique(v: int, d: int, q: int, r: int)
    requires d > 0 && 0 <= r < d
    requires v == d * q + r
    ensures v / d == q && v % d == r
  {
    var k := q - v / d;
    assert d * k == v % d - r by {
      assert d * q - d * (v / d) == d * k;
    }
    if k > 0 {
      MulAtLeast(d, k);
    } else if k < 0 {
      MulAtLeast(d, -k);
    }
  }

  /** A little-endian string is determined by its length and value. */
  lemma {:induction false} LeInjective(a: seq<byte>, b: seq<byte>)
    requires |a| == |b| && LeValue(a) == LeValue(b)
    ensures a == b
  {
    if |a| == 0 {
    } else {
      LeInjective(a[1..], b[1..]);
      assert a == [a[0]] + a[1..] && b == [b[0]] + b[1..];
    }
  }

  lemma LeBytesOf(s: seq<byte>)
    ensures LeBytes(LeValue(s), |s|) == s
  {
    LeRoundTrip(LeValue(s), |s|);
    LeValueBound(s);
    ModSmall(LeValue(s), Pow256(|s|));
    LeInjective(LeBytes(LeValue(s), |s|), s);
  }

  lemma ModSmall(v: nat, d: nat)
    requires v < d
    ensures v % d == v
  {
  }

  /** The 32-bit little-endian load of the C sources. */
  function Load32(s: seq<byte>): (w: u32)
    requires |s| == 4
    ensures w as nat == LeValue(s)
  {
    LeValue4(s);
    s[0] as u32 + 0x100 * s[1] as u32 + 0x1_0000 * s[2] as u32 + 0x100_0000 * s[3] as u32
  }

  lemma LeValue4(s: seq<byte>)
    requires |s| == 4
    ensures LeValue(s) == s[0] as nat + 0x100 * s[1] as nat + 0x1_0000 * s[2] as nat + 0x100_0000 * s[3] as nat
  {
    assert LeValue(s[1..]) == s[1] as nat + 256 * LeValue(s[1..][1..]);
    assert s[1..][1..] == s[2..];
    assert LeValue(s[2..]) == s[2] as nat + 256 * LeValue(s[2..][1..]);
    assert s[2..][1..] == s[3..];
    assert LeValue(s[3..]) == s[3] as nat + 256 * LeValue(s[3..][1..]);
  }

  /** A 32-bit number in network byte order. */
  function BeBytes(v: nat): (s: seq<byte>)
    ensures |s| == 4
  {
    [(v / 0x100_0000 % 256) as byte, (v / 0x1_0000 % 256) as byte, (v / 0x100 % 256) as byte, (v % 256) as byte]
  }

  function BeValue(s: seq<byte>): (v: nat)
    requires |s| == 4
    ensures v < 0x1_0000_0000
  {
    0x100_0000 * s[0] as nat + 0x1_0000 * s[1] as nat + 0x100 * s[2] as nat + s[3] as nat
  }

  /** The number a string of bytes spells, the first byte weighing most. */
  function BigEndian(s: seq<byte>): nat {
    if |s| == 0 then 0 else 256 * BigEndian(s[..|s| - 1]) + s[|s| - 1] as nat
  }

  lemma BigEndianZero(s: seq<byte>)
    requires |s| > 0 && s[0] == 0
    ensures BigEndian(s) == BigEndian(s[1..])
  {
    if |s| == 1 {
      assert s[..0] == [] && s[1..] == [];
    } else {
      BigEndianZero(s[..|s| - 1]);
      assert s[..|s| - 1][1..] == s[1..][..|s| - 2];
    }
  }

  lemma BeIsBigEndian(s: seq<byte>)
    requires |s| == 4
    ensures BeValue(s) == BigEndian(s)
  {
    assert s[..3][..2] == s[..2] && s[..2][..1] == s[..1] && s[..1][..0] == [];
    assert BigEndian(s[..1]) == s[0] as nat && BigEndian(s[..2]) == 256 * BigEndian(s[..1]) + s[1] as nat;
    assert BigEndian(s[..3]) == 256 * BigEndian(s[..2]) + s[2] as nat;
  }

  lemma BeRoundTrip(v: nat)
    requires v < 0x1_0000_0000
    ensures BeValue(BeBytes(v)) == v
  {
    var a := v / 0x100;
    var c := a / 0x100;
    DivModUnique(v, 0x1_0000, c, 0x100 * (a % 0x100) + v % 0x100);
    DivModUnique(v, 0x100_0000, c / 0x100, 0x1_0000 * (c % 0x100) + v % 0x1_0000);
  }

  /** One digit to base 256 of a number split at that digit. */
  lemma DigitAt(v: nat, place: nat, high: nat, digit: byte, low: nat)
    requires low < place && v == place * (256 * high + digit as nat) + low
    ensures v / place % 256 == digit as nat
  {
    DivModUnique(v, place, 256 * high + digit as nat, low);
    DivModUnique(256 * high + digit as nat, 256, high, digit as nat);
  }

  lemma BeInverse(s: seq<byte>)
    requires |s| == 4
    ensures BeBytes(BeValue(s)) == s
  {
    var v := BeValue(s);
    var a, b, c, d := s[0] as nat, s[1] as nat, s[2] as nat, s[3] as nat;
    DigitAt(v, 0x100_0000, 0, s[0], 0x1_0000 * b + 0x100 * c + d);
    DigitAt(v, 0x1_0000, a, s[1], 0x100 * c + d);
    DigitAt(v, 0x100, 0x100 * a + b, s[2], d);
    DigitAt(v, 1, 0x1_0000 * a + 0x100 * b + c, s[3], 0);
  }

  /** Every way of cutting a message into pieces. */
  function Flatten(chunks: seq<seq<byte>>): seq<byte> {
    if |chunks| == 0 then [] else Flatten(chunks[..|chunks| - 1]) + chunks[|chunks| - 1]
  }

  lemma FlattenPrefix(chunks: seq<seq<byte>>, i: nat)
    requires i < |chunks|
    ensures Flatten(chunks[..i + 1]) == Flatten(chunks[..i]) + chunks[i]
  {
    assert chunks[..i + 1][..i] == chunks[..i];
  }
}
