/** The Internet checksum of dosshd/net.c: what tcp_send_seg and ip_send write is what a receiver verifies. */
module Checksum {
  import opened Bytes

  const WORDS := 0x1_0000
  const ONES := 0xffff

  /** The sum of big-endian 16-bit words, an odd last byte padded with zero. */
  function WordSum(s: seq<byte>): nat {
    if |s| == 0 then 0
    else if |s| == 1 then 256 * s[0] as nat
    else 256 * s[0] as nat + s[1] as nat + WordSum(s[2..])
  }

  /** A sum over fewer than 2^16 bytes stays below 2^31. */
  lemma {:induction false} WordSumBound(s: seq<byte>)
    ensures 2 * WordSum(s) <= ONES * (|s| + 1)
  {
    if |s| <= 1 {
    } else {
      WordSumBound(s[2..]);
    }
  }

  /** sum16, in 32 bits: the length is a 16-bit number and the sum passed in is that of a few other fields. */
  method Sum16(p: seq<byte>, sum: u32) returns (r: u32)
    requires |p| < WORDS && sum < 0x8000_0000
    ensures r as nat == sum as nat + WordSum(p)
  {
    r := sum;
    var i := 0;
    assert p[0..] == p;
    WordSumBound(p);
    while i + 1 < |p|
      invariant 0 <= i <= |p| && r as nat + WordSum(p[i..]) == sum as nat + WordSum(p)
    {
      WordSumFront(p[i..]);
      r := r + (256 * p[i] as u32 + p[i + 1] as u32);
      assert p[i..][2..] == p[i + 2..];
      i := i + 2;
    }
    if i < |p| {
      r := r + 256 * p[i] as u32;
    }
  }

  lemma WordSumFront(s: seq<byte>)
    requires |s| >= 2
    ensures WordSum(s) == 256 * s[0] as nat + s[1] as nat + WordSum(s[2..])
  {
  }

  /** The carries folded back in: congruent modulo 65535, and zero only for zero. */
  ghost predicate Folded(sum: nat, r: nat) {
    r <= ONES && r % ONES == sum % ONES && (r == 0 <==> sum == 0)
  }

  lemma FoldStep(sum: nat)
    ensures (sum % WORDS + sum / WORDS) % ONES == sum % ONES
    ensures sum >= WORDS ==> 0 < sum % WORDS + sum / WORDS < sum
  {
    var q, r := sum / WORDS, sum % WORDS;
    assert sum == q + r + ONES * q;
    DivModUnique(sum, ONES, (q + r) / ONES + q, (q + r) % ONES);
  }

  /** The loop of fin16, before the complement. */
  method Fold(sum: u32) returns (r: u32)
    ensures Folded(sum as nat, r as nat)
  {
    r := sum;
    while r >= 0x1_0000
      invariant r as nat % ONES == sum as nat % ONES && (r == 0 <==> sum == 0)
    {
      FoldStep(r as nat);
      r := r % 0x1_0000 + r / 0x1_0000;
    }
  }

  /** fin16. */
  method Fin16(sum: u32) returns (c: nat)
    ensures c <= ONES && Folded(sum as nat, ONES - c)
  {
    var r := Fold(sum);
    c := ONES - r as nat;
  }

  /** The checksum of tcp_send_seg: addresses, protocol and length, then the segment, of at most 1424 bytes. */
  method SegmentChecksum(ours: seq<byte>, theirs: seq<byte>, seg: seq<byte>) returns (c: nat)
    requires |ours| == 4 && |theirs| == 4 && |seg| <= 1424
    ensures c <= ONES && Folded(WordSum(ours) + WordSum(theirs) + 6 + |seg| + WordSum(seg), ONES - c)
  {
    WordSumBound(ours);
    WordSumBound(theirs);
    var sum := Sum16(ours, 0);
    sum := Sum16(theirs, sum);
    sum := sum + 6;
    sum := sum + |seg| as u32;
    sum := Sum16(seg, sum);
    c := Fin16(sum);
  }

  function Word(c: nat): (w: seq<byte>)
    requires c <= ONES
    ensures |w| == 2
  {
    [(c / 256) as byte, (c % 256) as byte]
  }

  lemma {:induction false} WordSumConcat(a: seq<byte>, b: seq<byte>)
    requires |a| % 2 == 0
    ensures WordSum(a + b) == WordSum(a) + WordSum(b)
  {
    if |a| == 0 {
      assert a + b == b;
    } else {
      WordSumConcat(a[2..], b);
      assert (a + b)[2..] == a[2..] + b;
    }
  }

  /** With the checksum in its field, whatever the rest of the segment, a receiver's sum folds to all ones. */
  lemma ChecksumVerifies(pseudo: nat, before: seq<byte>, after: seq<byte>, c: nat, received: nat)
    requires |before| % 2 == 0 && c <= ONES
    requires Folded(pseudo + WordSum(before + [0, 0] + after), ONES - c)
    requires Folded(pseudo + WordSum(before + Word(c) + after), received)
    ensures received == ONES
  {
    var rest := pseudo + WordSum(before) + WordSum(after);
    assert WordSum([0, 0]) == 0 && WordSum(Word(c)) == c by { assert Word(c)[2..] == [] && [0 as byte, 0][2..] == []; }
    WordSumConcat(before + [0, 0], after);
    WordSumConcat(before, [0, 0]);
    WordSumConcat(before + Word(c), after);
    WordSumConcat(before, Word(c));
    Complement(rest, c);
  }

  lemma Complement(rest: nat, c: nat)
    requires c <= ONES && Folded(rest, ONES - c)
    ensures (rest + c) % ONES == 0 && rest + c > 0
  {
    var r := ONES - c;
    assert rest == ONES * (rest / ONES) + r % ONES;
    if r == ONES {
      DivModUnique(rest + c, ONES, rest / ONES, 0);
    } else {
      MulDistr(ONES, rest / ONES, 1);
      DivModUnique(rest + c, ONES, rest / ONES + 1, 0);
    }
  }
}
