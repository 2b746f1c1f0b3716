/** Left-to-right signed sliding windows (dosshd/crypto/monocypher.c) and the merged double-and-add
    ladder that consumes them. */
module SlidingWindow {
  import opened Bytes

  /** scalar_bit: bit i of a little-endian byte string, 0 below position 0. */
  function Bit(s: seq<byte>, i: int): (b: int)
    requires i < 8 * |s|
    ensures b == 0 || b == 1
  {
    if i < 0 then 0 else s[i / 8] as int / Pow2(i % 8) % 2
  }

  /** The number the n low bits spell. */
  function BitSum(s: seq<byte>, n: nat): nat
    requires n <= 8 * |s|
  {
    if n == 0 then 0 else BitSum(s, n - 1) + Bit(s, n - 1) * Pow2(n - 1)
  }

  lemma {:induction false} Pow2Add(m: nat, n: nat)
    ensures Pow2(m + n) == Pow2(m) * Pow2(n)
    decreases m
  {
    if m == 0 {
    } else {
      var a, b := Pow2(m - 1), Pow2(n);
      assert Pow2(m - 1 + n) == a * b by { Pow2Add(m - 1, n); }
      assert Pow2(m + n) == 2 * Pow2(m - 1 + n);
      MulAssoc(2, a, b);
    }
  }

  lemma SmallPowers()
    ensures Pow2(0) == 1 && Pow2(1) == 2 && Pow2(2) == 4 && Pow2(3) == 8 && Pow2(4) == 16 && Pow2(5) == 32
    ensures Pow2(6) == 64 && Pow2(7) == 128 && Pow2(8) == 256
  {
    assert Pow2(2) == 4;
    assert Pow2(4) == 16;
    assert Pow2(6) == 64;
  }

  lemma ModNext(b: nat, p: nat)
    requires p > 0
    ensures b % (2 * p) == b % p + (b / p % 2) * p
  {
    var q, r := b / p, b % p;
    var h, o := q / 2, q % 2;
    assert b == p * q + r;
    assert q == 2 * h + o;
    assert p * q == (2 * p) * h + o * p by {
      MulDistr(p, 2 * h, o);
      MulAssoc(p, 2, h);
    }
    MulBound(o, p, 1);
    DivModUnique(b, 2 * p, h, o * p + r);
  }

  lemma BitOfByte(s: seq<byte>, k: nat, j: nat)
    requires k < |s| && j < 8
    ensures Bit(s, 8 * k + j) == s[k] as int / Pow2(j) % 2
  {
    assert (8 * k + j) / 8 == k && (8 * k + j) % 8 == j;
  }

  lemma BitSumNext(s: seq<byte>, n: nat)
    requires n < 8 * |s|
    ensures BitSum(s, n + 1) == BitSum(s, n) + Bit(s, n) * Pow2(n)
  {
  }

  /** Up to bit j of byte k, the bits spell the lower bytes and the low j bits of that byte. */
  lemma {:induction false} BitSumInByte(s: seq<byte>, k: nat, j: nat)
    requires k < |s| && j <= 8
    ensures BitSum(s, 8 * k + j) == BitSum(s, 8 * k) + Pow2(8 * k) * (s[k] as int % Pow2(j))
    decreases j
  {
    hide Bit, BitSum;
    if j == 0 {
    } else {
      hide Pow2;
      var i := j - 1;
      var p, q, b := Pow2(8 * k), Pow2(i), s[k] as int;
      BitSumInByte(s, k, i);
      BitSumNext(s, 8 * k + i);
      BitOfByte(s, k, i);
      Pow2Add(8 * k, i);
      Pow2Next(i);
      ModNext(b, q);
      MulDistr(p, b % q, (b / q % 2) * q);
      MulAssoc(p, b / q % 2, q);
      MulAssoc(b / q % 2, p, q);
    }
  }

  lemma Pow2Next(i: nat)
    ensures Pow2(i + 1) == 2 * Pow2(i)
  {
  }

  lemma {:induction false} Pow2Of8(k: nat)
    ensures Pow2(8 * k) == Pow256(k)
  {
    if k == 0 {
    } else {
      Pow2Of8(k - 1);
      Pow2Add(8, 8 * (k - 1));
      SmallPowers();
    }
  }

  /** All the bits of the first k bytes spell their little-endian value. */
  lemma {:induction false} BitSumBytes(s: seq<byte>, k: nat)
    requires k <= |s|
    ensures BitSum(s, 8 * k) == LeValue(s[..k])
  {
    hide BitSum, LeValue, Pow256, Pow2;
    if k == 0 {
      assert s[..0] == [];
      EmptySums(s);
    } else {
      BitSumBytes(s, k - 1);
      BitSumInByte(s, k - 1, 8);
      SmallPowers();
      assert s[..k] == s[..k - 1] + [s[k - 1]];
      LeValueConcat(s[..k - 1], [s[k - 1]]);
      OneByte(s[k - 1]);
      Pow2Of8(k - 1);
    }
  }

  lemma EmptySums(s: seq<byte>)
    ensures BitSum(s, 0) == 0 && LeValue([]) == 0
  {
  }

  lemma OneByte(b: byte)
    ensures LeValue([b]) == b as nat
  {
  }

  // ----- what the windows cover -----

  /** The sum of (b[k-1] - b[k]) * 2^k over positions k >= c, in closed form. A scalar is that sum
      taken over every position. */
  function Covered(s: seq<byte>, c: nat): int
    requires |s| == 32 && c <= 254
  {
    LeValue(s) - BitSum(s, c) + Bit(s, c - 1) * Pow2(c)
  }

  /** The bits m, m+1, .., m+n-1 read as a number. */
  function Window(s: seq<byte>, m: nat, n: nat): (v: nat)
    requires m + n <= 8 * |s|
    ensures v < Pow2(n)
  {
    if n == 0 then 0 else Window(s, m, n - 1) + Bit(s, m + n - 1) * Pow2(n - 1)
  }

  lemma {:induction false} WindowSum(s: seq<byte>, m: nat, n: nat)
    requires m + n <= 8 * |s|
    ensures BitSum(s, m + n) == BitSum(s, m) + Pow2(m) * Window(s, m, n)
    decreases n
  {
    hide Bit;
    if n == 0 {
    } else {
      WindowSum(s, m, n - 1);
      Pow2Add(m, n - 1);
      var b := Bit(s, m + n - 1);
      MulDistr(Pow2(m), Window(s, m, n - 1), b * Pow2(n - 1));
      MulAssoc(Pow2(m), b, Pow2(n - 1));
      MulAssoc(b, Pow2(m), Pow2(n - 1));
    }
  }

  /** The signed value of the window of width w ending at position i. */
  function WindowValue(s: seq<byte>, i: nat, w: nat): int
    requires |s| == 32 && 1 <= w <= i + 1 && i < 254
  {
    Window(s, i - w + 1, w - 1) - Bit(s, i) * Pow2(w - 1) + Bit(s, i - w)
  }

  /** A window accounts for exactly the positions it spans. */
  lemma WindowCovers(s: seq<byte>, i: nat, w: nat)
    requires |s| == 32 && 1 <= w <= i + 1 && i < 254
    ensures Covered(s, i - w + 1) == Covered(s, i + 1) + WindowValue(s, i, w) * Pow2(i - w + 1)
  {
    hide Bit, BitSum, Pow2, Window, LeValue;
    var m := i - w + 1;
    WindowSum(s, m, w - 1);
    BitSumNext(s, i);
    Pow2Add(m, w - 1);
    Pow2Next(i);
    WindowProduct(Window(s, m, w - 1), Bit(s, i), Bit(s, i - w), Pow2(m), Pow2(w - 1));
    MulAssoc(2, Bit(s, i), Pow2(i));
    MulAssoc(Bit(s, i), 2, Pow2(i));
    Balance(LeValue(s), BitSum(s, m), BitSum(s, i), BitSum(s, i + 1), Pow2(m) * Window(s, m, w - 1),
        Bit(s, i) * Pow2(i),
            Bit(s, i - w) * Pow2(m), Bit(s, i) * Pow2(i + 1), WindowValue(s, i, w) * Pow2(m));
  }

  lemma WindowProduct(x: int, b: int, t: int, p: int, q: int)
    ensures (x - b * q + t) * p == p * x - b * (p * q) + t * p
  {
    MulDistr(p, x - b * q, t);
    MulDistr(p, x, -(b * q));
    MulAssoc(b, p, q);
    MulAssoc(p, b, q);
  }

  lemma Balance(l: int, s0: int, s1: int, s2: int, px: int, bp: int, tp: int, bp2: int, value: int)
    requires s1 == s0 + px && s2 == s1 + bp && bp2 == 2 * bp && value == px - bp + tp
    ensures l - s0 + tp == l - s2 + bp2 + value
  {
  }

  /** Where two neighbouring bits agree there is nothing to cover. */
  lemma EqualBitsCover(s: seq<byte>, i: nat)
    requires |s| == 32 && i < 254 && Bit(s, i) == Bit(s, i - 1)
    requires i + 1 <= 254
    ensures Covered(s, i) == Covered(s, i + 1)
  {
    hide Bit, BitSum, Pow2, LeValue;
    BitSumNext(s, i);
    Pow2Next(i);
  }

  lemma CoveredAll(s: seq<byte>)
    requires |s| == 32
    ensures Covered(s, 0) == LeValue(s)
  {
  }

  /** Where the two bits differ the window is not zero, and it stays within its width. */
  lemma WindowBounds(s: seq<byte>, i: nat, w: nat)
    requires |s| == 32 && 1 <= w <= i + 1 && i < 254 && Bit(s, i) != Bit(s, i - 1)
    ensures WindowValue(s, i, w) != 0
    ensures -(Pow2(w - 1) as int) <= WindowValue(s, i, w) <= Pow2(w - 1)
  {
    hide Bit, Pow2;
    var m := i - w + 1;
    if w > 1 {
      assert Window(s, m, w - 1) == Window(s, m, w - 2) + Bit(s, i - 1) * Pow2(w - 2);
      Pow2Next(w - 2);
    } else {
      One();
    }
  }

  lemma One()
    ensures Pow2(0) == 1
  {
  }

  // ----- the digit of a window -----

  /** v & (~v + 1): the lowest set bit of v. */
  function LowestBit(v: int): (b: nat)
    requires v != 0
    ensures b > 0
    decreases if v < 0 then -v else v
  {
    if v % 2 != 0 then 1 else 2 * LowestBit(v / 2)
  }

  /** v is an odd multiple of its lowest set bit, which is a power of two no larger than v. */
  lemma {:induction false} LowestBitSplits(v: int, n: nat) returns (k: nat, odd: int)
    requires v != 0 && -(Pow2(n) as int) <= v <= Pow2(n)
    ensures k <= n && LowestBit(v) == Pow2(k) && v == odd * Pow2(k) && odd % 2 == 1
    decreases n
  {
    if v % 2 != 0 {
      k, odd := 0, v;
    } else {
      assert n > 0;
      k, odd := LowestBitSplits(v / 2, n - 1);
      MulAssoc(2, odd, Pow2(k));
      MulAssoc(odd, 2, Pow2(k));
      k := k + 1;
    }
  }

  /** The three mask tests: the position of a single set bit. */
  method Log2(lsb: nat, ghost k: nat) returns (s: nat)
    requires k < 8 && lsb == Pow2(k)
    ensures s == k
  {
    SmallPowers();
    assert lsb == 1 || lsb == 2 || lsb == 4 || lsb == 8 || lsb == 16 || lsb == 32 || lsb == 64 || lsb == 128;
    var b := lsb as bv8;
    s := (if b & 0xAA != 0 then 1 else 0) + (if b & 0xCC != 0 then 2 else 0) + (if b & 0xF0 != 0 then 4 else 0);
  }

  /** A digit that has an entry in a table of 2^(width-2) odd multiples. */
  predicate TableDigit(d: int, width: nat)
    requires width >= 2
  {
    d % 2 == 1 && -(Pow2(width - 1) as int) < d < Pow2(width - 1)
  }

  lemma TableIndex(d: int, width: nat)
    requires width >= 2 && TableDigit(d, width)
    ensures d > 0 ==> d / 2 < Pow2(width - 2)
    ensures d < 0 ==> -d / 2 < Pow2(width - 2)
  {
  }

  lemma WindowEmpty(s: seq<byte>, m: nat)
    requires m <= 8 * |s|
    ensures Window(s, m, 0) == 0
  {
  }

  lemma WindowNext(s: seq<byte>, m: nat, n: nat)
    requires m + n < 8 * |s|
    ensures Window(s, m, n + 1) == Window(s, m, n) + Bit(s, m + n) * Pow2(n)
  {
  }

  lemma {:induction false} Pow2Grows(m: nat, n: nat)
    requires m <= n
    ensures Pow2(m) <= Pow2(n)
    decreases n
  {
    if m == n {
    } else {
      Pow2Grows(m, n - 1);
    }
  }

  lemma ExactQuotient(v: int, odd: int, p: nat)
    requires p > 0 && v == odd * p
    ensures v / p == odd
    ensures odd >= 0 ==> odd <= v
    ensures odd <= 0 ==> v <= odd
  {
    assert v == p * odd + 0;
    DivModUnique(v, p, odd, 0);
    if odd >= 0 {
      MulBound(1, odd, p);
    } else {
      MulBound(1, -odd, p);
      assert p * -odd == -(p * odd);
    }
  }

  /** Shifting out the trailing zeros leaves an odd digit with a table entry. */
  lemma DigitOf(v: int, k: nat, odd: int, w: nat, width: nat)
    requires v == odd * Pow2(k) && odd % 2 == 1 && 1 <= w <= width && 2 <= width
    requires -(Pow2(w - 1) as int) <= v <= Pow2(w - 1)
    ensures v / Pow2(k) == odd && TableDigit(odd, width)
  {
    hide Pow2;
    ExactQuotient(v, odd, Pow2(k));
    Pow2Grows(w - 1, width - 1);
    Pow2Next(width - 2);
  }

  /** slide_ctx. next_check is an unsigned byte: it wraps to 255 once position 0 has been covered. */
  class Slide {
    var next_index: int
    var next_digit: int
    var next_check: nat

    /** The digit already computed but not yet returned, when position i is the next to be visited. */
    ghost function Pending(i: int): int
      reads this
    {
      if 0 <= next_index <= i then next_digit * Pow2(next_index) else 0
    }

    /** What the digits returned so far, worth `emitted`, still owe the scalar. */
    ghost predicate Owes(scalar: seq<byte>, width: nat, i: int, emitted: int)
      reads this
    {
      && |scalar| == 32 && 2 <= width <= 8 && -1 <= i <= 253
      && (next_check == 255 || next_check <= i)
      && (next_check <= i ==> next_index <= i ==> next_index == -1 || next_check < next_index)
      && (0 <= next_index <= i ==> TableDigit(next_digit, width))
      && emitted + Pending(i) == if next_check == 255 then LeValue(scalar) else Covered(scalar, next_check + 1)
    }

    /** slide_init, for a scalar below 2^253. */
    constructor (scalar: seq<byte>)
      requires |scalar| == 32 && LeValue(scalar) < Pow2(253)
      ensures 0 < next_check <= 253
      ensures forall width, i :: 2 <= width <= 8 && next_check <= i <= 253 ==> Owes(scalar, width, i, 0)
    {
      hide LeValue, Pow2, Covered;
      var top := TopBit(scalar);
      next_check, next_index, next_digit := top + 1, -1, -1;
    }

    /** slide_step: the digit of position i. The value of the digits already returned grows by it. */
    method Step(width: nat, i: nat, scalar: seq<byte>, ghost emitted: int) returns (d: int)
      requires Owes(scalar, width, i, emitted)
      modifies this
      ensures Owes(scalar, width, i - 1, emitted + d * Pow2(i))
      ensures d == 0 || TableDigit(d, width)
    {
      hide LeValue, Pow2, Covered, Bit, Window, WindowValue, TableDigit;
      CoveredAll(scalar);
      if i == next_check {
        if Bit(scalar, i) == Bit(scalar, i - 1) {
          EqualBitsCover(scalar, i);
          next_check := (next_check - 1) % 256;
        } else {
          var w := if width <= i + 1 then width else i + 1;
          NextWindow(scalar, width, i, w);
        }
      }
      d := if i == next_index then next_digit else 0;
      assert 0 * Pow2(i) == 0;
    }

    /** The window that starts at the check point. */
    method NextWindow(scalar: seq<byte>, width: nat, i: nat, w: nat)
      requires |scalar| == 32 && 2 <= width <= 8 && i < 254 && next_check == i
      requires 1 <= w <= i + 1 && w <= width && Bit(scalar, i) != Bit(scalar, i - 1)
      modifies this
      ensures next_check == if w == i + 1 then 255 else i - w
      ensures i - w < next_index <= i && TableDigit(next_digit, width)
      ensures next_digit * Pow2(next_index) == Covered(scalar, i - w + 1) - Covered(scalar, i + 1)
    {
      hide LeValue, Pow2, Covered, Bit, WindowValue, LowestBit, TableDigit;
      var m := i - (w - 1);
      var v := ComputeWindow(scalar, i, w);
      WindowBounds(scalar, i, w);
      WindowCovers(scalar, i, w);
      ghost var k, odd := LowestBitSplits(v, w - 1);
      var s := Log2(LowestBit(v), k);
      DigitOf(v, k, odd, w, width);
      assert odd * Pow2(m + k) == v * Pow2(m) by {
        Pow2Add(m, k);
        MulAssoc(odd, Pow2(k), Pow2(m));
      }
      next_index := m + s;
      next_digit := v / Pow2(s);
      next_check := (next_check - w) % 256;
    }
  }

  method ComputeWindow(scalar: seq<byte>, i: nat, w: nat) returns (v: int)
    requires |scalar| == 32 && 1 <= w <= i + 1 && i < 254
    ensures v == WindowValue(scalar, i, w)
  {
    hide Pow2, Bit, Window;
    var m := i - (w - 1);
    var top := Bit(scalar, i) * Pow2(w - 1);
    v := -top;
    var j := 0;
    WindowEmpty(scalar, m);
    while j < w - 1
      invariant 0 <= j <= w - 1
      invariant v == Window(scalar, m, j) - top
    {
      WindowNext(scalar, m, j);
      v := v + Bit(scalar, m + j) * Pow2(j);
      j := j + 1;
    }
    v := v + Bit(scalar, i - w);
  }

  /** The bits from 253 up are zero, and the scan stops at the highest set bit (or at bit 0). */
  method TopBit(scalar: seq<byte>) returns (top: nat)
    requires |scalar| == 32 && LeValue(scalar) < Pow2(253)
    ensures top <= 252 && Covered(scalar, top + 2) == 0
  {
    hide LeValue, Pow2, BitSum, Bit;
    HighBits(scalar);
    top := 252;
    while top > 0 && Bit(scalar, top) == 0
      invariant top <= 252
      invariant LeValue(scalar) == BitSum(scalar, top + 1) && Bit(scalar, top + 1) == 0
    {
      BitSumNext(scalar, top);
      top := top - 1;
    }
    BitSumNext(scalar, top + 1);
  }

  lemma HighBits(scalar: seq<byte>)
    requires |scalar| == 32 && LeValue(scalar) < Pow2(253)
    ensures LeValue(scalar) == BitSum(scalar, 253) && Bit(scalar, 253) == 0
  {
    hide LeValue, Pow2, Bit;
    BitSumBytes(scalar, 32);
    assert scalar[..32] == scalar;
    WindowSum(scalar, 253, 3);
    var w := Window(scalar, 253, 3);
    assert w == 0 by {
      if w > 0 { MulAtLeast(Pow2(253), w); }
    }
    SmallPowers();
    assert Window(scalar, 253, 1) == Window(scalar, 253, 0) + Bit(scalar, 253) * Pow2(0);
  }

  // ----- digits of a whole scalar -----

  /** The number a sequence of digits stands for, least significant first. */
  function DigitSum(digits: seq<int>): int {
    if |digits| == 0 then 0 else digits[0] + 2 * DigitSum(digits[1..])
  }

  /** One scalar through the whole descending loop, entered at any position from its own first check
      up to bit 253: the digits add up to the scalar and every nonzero one has a table entry. */
  method Recode(scalar: seq<byte>, width: nat, start: nat) returns (digits: seq<int>, first: nat)
    requires |scalar| == 32 && LeValue(scalar) < Pow2(253) && 2 <= width <= 8 && start <= 253
    ensures first <= 253
    ensures first <= start ==> |digits| == start + 1 && DigitSum(digits) == LeValue(scalar)
    ensures first <= start ==> forall k :: 0 <= k < |digits| && digits[k] != 0 ==> TableDigit(digits[k], width)
  {
    hide LeValue, Pow2, TableDigit;
    var slide := new Slide(scalar);
    first := slide.next_check;
    digits := [];
    if first > start {
      return;
    }
    var i: int := start;
    One();
    while i >= 0
      invariant -1 <= i <= start && |digits| == start - i
      invariant slide.Owes(scalar, width, i, DigitSum(digits) * Pow2(i + 1))
      invariant forall k :: 0 <= k < |digits| && digits[k] != 0 ==> TableDigit(digits[k], width)
    {
      var d := slide.Step(width, i, scalar, DigitSum(digits) * Pow2(i + 1));
      ghost var sum := DigitSum(digits);
      assert ([d] + digits)[1..] == digits;
      Horner(sum, d, i);
      digits := [d] + digits;
      i := i - 1;
    }
  }

  // ----- the ladder -----

  /** A formal combination a * (-A) + b * B of the two points of the signature equation. */
  datatype Combo = Combo(a: int, b: int) {
    function Plus(o: Combo): Combo { Combo(a + o.a, b + o.b) }
    function Minus(o: Combo): Combo { Combo(a - o.a, b - o.b) }
  }

  /** A table of odd multiples: entry k is 2k+1 times the point. */
  function OddMultiples(point: Combo, n: nat): seq<Combo> {
    seq(n, k => Combo((2 * k + 1) * point.a, (2 * k + 1) * point.b))
  }

  /** The two conditional table additions of the ladder. */
  method AddDigit(sum: Combo, d: int, table: seq<Combo>, ghost point: Combo, ghost width: nat) returns (r: Combo)
    requires 2 <= width && table == OddMultiples(point, Pow2(width - 2)) && (d == 0 || TableDigit(d, width))
    ensures r == Combo(sum.a + d * point.a, sum.b + d * point.b)
  {
    if d != 0 {
      TableIndex(d, width);
    }
    r := sum;
    if d > 0 {
      assert 2 * (d / 2) + 1 == d;
      r := r.Plus(table[d / 2]);
    }
    if d < 0 {
      assert 2 * (-d / 2) + 1 == -d;
      r := r.Minus(table[-d / 2]);
    }
  }

  /** One turn of the ladder: double, then add both digits of position i. */
  method LadderStep(hSlide: Slide, sSlide: Slide, i: nat, h: seq<byte>, s: seq<byte>, sum: Combo,
                    lutA: seq<Combo>, bWindow: seq<Combo>) returns (r: Combo)
    requires hSlide != sSlide
    requires lutA == OddMultiples(Combo(1, 0), Pow2(1)) && bWindow == OddMultiples(Combo(0, 1), Pow2(3))
    requires hSlide.Owes(h, 3, i, sum.a * Pow2(i + 1)) && sSlide.Owes(s, 5, i, sum.b * Pow2(i + 1))
    modifies hSlide, sSlide
    ensures hSlide.Owes(h, 3, i - 1, r.a * Pow2(i)) && sSlide.Owes(s, 5, i - 1, r.b * Pow2(i))
  {
    hide *;
    r := Combo(2 * sum.a, 2 * sum.b);
    var hDigit := hSlide.Step(3, i, h, sum.a * Pow2(i + 1));
    var sDigit := sSlide.Step(5, i, s, sum.b * Pow2(i + 1));
    r := AddDigit(r, hDigit, lutA, Combo(1, 0), 3);
    r := AddDigit(r, sDigit, bWindow, Combo(0, 1), 5);
    Horner(sum.a, hDigit, i);
    Horner(sum.b, sDigit, i);
  }

  lemma OwesNothing(slide: Slide, scalar: seq<byte>, width: nat, emitted: int)
    requires slide.Owes(scalar, width, -1, emitted * Pow2(0))
    ensures emitted == LeValue(scalar)
  {
  }

  /** The merged ladder of crypto_eddsa_check_equation computes [s]B + [h](-A). */
  method DoubleScalar(h: seq<byte>, s: seq<byte>) returns (sum: Combo)
    requires |h| == 32 && |s| == 32 && LeValue(h) < Pow2(253) && LeValue(s) < Pow2(253)
    ensures sum == Combo(LeValue(h), LeValue(s))
  {
    hide *;
    var lutA := OddMultiples(Combo(1, 0), Pow2(1));
    var bWindow := OddMultiples(Combo(0, 1), Pow2(3));
    var hSlide := new Slide(h);
    var sSlide := new Slide(s);
    var i: int := if hSlide.next_check > sSlide.next_check then hSlide.next_check else sSlide.next_check;
    sum := Combo(0, 0);
    assert hSlide.Owes(h, 3, i, 0) && sSlide.Owes(s, 5, i, 0);
    while i >= 0
      invariant -1 <= i <= 253
      invariant hSlide.Owes(h, 3, i, sum.a * Pow2(i + 1))
      invariant sSlide.Owes(s, 5, i, sum.b * Pow2(i + 1))
    {
      sum := LadderStep(hSlide, sSlide, i, h, s, sum, lutA, bWindow);
      i := i - 1;
    }
    OwesNothing(hSlide, h, 3, sum.a);
    OwesNothing(sSlide, s, 5, sum.b);
  }

  lemma Horner(sum: int, d: int, i: nat)
    ensures sum * Pow2(i + 1) + d * Pow2(i) == (2 * sum + d) * Pow2(i)
  {
    hide Pow2;
    Pow2Next(i);
    MulAssoc(sum, 2, Pow2(i));
    MulDistr(Pow2(i), 2 * sum, d);
  }
}
