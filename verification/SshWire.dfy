/** The byte-level encodings of dosshd/ssh.c: SSH strings, name-lists, the signed preimage of a publickey
    request, and the exclusive-or of a stream cipher. */
module SshWire {
  import opened Bytes

  const U32_LIMIT := 0x1_0000_0000

  /** The bytes of an ASCII literal. */
  function Ascii(s: string): (r: seq<byte>)
    ensures |r| == |s|
  {
    seq(|s|, i requires 0 <= i < |s| => (s[i] as int % 256) as byte)
  }

  // ----- strings -----

  /** put_str. */
  function Str(s: seq<byte>): (r: seq<byte>)
    ensures |r| == 4 + |s| && r[4..] == s
  {
    BeBytes(|s|) + s
  }

  datatype Read = Overrun | Got(value: seq<byte>, next: nat)

  /** rd_string: every length field is checked against what is left of the packet. */
  function RdString(pl: seq<byte>, o: nat): (r: Read)
    ensures r.Got? ==> o + 4 + |r.value| == r.next <= |pl|
  {
    if o > |pl| || |pl| - o < 4 then Overrun
    else
      var n := BeValue(pl[o..o + 4]);
      if n > |pl| - o - 4 then Overrun else Got(pl[o + 4..o + 4 + n], o + 4 + n)
  }

  /** The reader accepts exactly what the writer writes, and nothing past the end of the packet. */
  lemma RdStringIff(pl: seq<byte>, o: nat, s: seq<byte>)
    requires |s| < U32_LIMIT
    ensures RdString(pl, o) == Got(s, o + 4 + |s|) <==> o <= |pl| && Str(s) <= pl[o..]
  {
    hide BeBytes, BeValue;
    if o <= |pl| && Str(s) <= pl[o..] {
      assert pl[o..o + 4] == pl[o..][..4] == Str(s)[..4] == BeBytes(|s|);
      BeRoundTrip(|s|);
      assert pl[o + 4..o + 4 + |s|] == pl[o..][..4 + |s|][4..] == s;
    }
    if RdString(pl, o) == Got(s, o + 4 + |s|) {
      BeInverse(pl[o..o + 4]);
      assert pl[o..][..4 + |s|] == pl[o..o + 4] + pl[o + 4..o + 4 + |s|] == Str(s);
    }
  }

  /** Whatever is read was written by put_str at that place. */
  lemma RdStringSound(pl: seq<byte>, o: nat)
    requires RdString(pl, o).Got?
    ensures |RdString(pl, o).value| < U32_LIMIT && o <= |pl| && Str(RdString(pl, o).value) <= pl[o..]
    ensures pl[o..] == Str(RdString(pl, o).value) + pl[RdString(pl, o).next..]
  {
    hide BeBytes, BeValue;
    var r := RdString(pl, o);
    assert |r.value| == BeValue(pl[o..o + 4]);
    RdStringIff(pl, o, r.value);
    assert pl[r.next..] == pl[o..][4 + |r.value|..];
  }

  /** Strings are prefix-free: what follows one can be told from it. */
  lemma StrPrefixFree(a: seq<byte>, x: seq<byte>, b: seq<byte>, y: seq<byte>)
    requires |a| < U32_LIMIT && |b| < U32_LIMIT && Str(a) + x == Str(b) + y
    ensures a == b && x == y
  {
    hide BeBytes, BeValue;
    var p, q := Str(a) + x, Str(b) + y;
    assert p[..4] == BeBytes(|a|) && q[..4] == BeBytes(|b|);
    BeRoundTrip(|a|);
    BeRoundTrip(|b|);
    assert p[4..][..|a|] == a && q[4..][..|b|] == b;
    assert p[4 + |a|..] == x && q[4 + |b|..] == y;
  }

  // ----- the signed preimage -----

  /** The string a publickey signature covers (section 7 of RFC 4252). */
  function SignedData(session: seq<byte>, user: seq<byte>, service: seq<byte>, algo: seq<byte>,
      blob: seq<byte>): (r: seq<byte>)
    ensures |r| == 4 + |session| + 1 + 4 + |user| + 4 + |service| + 13 + 1 + 4 + |algo| + 4 + |blob|
  {
    Str(session) + ([50] + (Str(user) + (Str(service)
        + (Str(Ascii("publickey")) + ([1] + (Str(algo) + (Str(blob) + [])))))))
  }

  lemma HeadTail(a: byte, x: seq<byte>, b: byte, y: seq<byte>)
    requires [a] + x == [b] + y
    ensures x == y
  {
    assert ([a] + x)[1..] == x && ([b] + y)[1..] == y;
  }

  /** No two different requests, and no two sessions, sign the same bytes. */
  lemma SignedDataInjective(s: seq<byte>, u: seq<byte>, v: seq<byte>, a: seq<byte>, b: seq<byte>,
                            s': seq<byte>, u': seq<byte>, v': seq<byte>, a': seq<byte>, b': seq<byte>)
    requires |s| < U32_LIMIT && |u| < U32_LIMIT && |v| < U32_LIMIT && |a| < U32_LIMIT && |b| < U32_LIMIT
    requires |s'| < U32_LIMIT && |u'| < U32_LIMIT && |v'| < U32_LIMIT && |a'| < U32_LIMIT && |b'| < U32_LIMIT
    requires SignedData(s, u, v, a, b) == SignedData(s', u', v', a', b')
    ensures s == s' && u == u' && v == v' && a == a' && b == b'
  {
    hide Str, Ascii;
    var m := Str(Ascii("publickey"));
    var e, e': seq<byte> := [], [];
    var r7, r7' := Str(b) + e, Str(b') + e';
    var r6, r6' := Str(a) + r7, Str(a') + r7';
    var r5, r5' := [1] + r6, [1] + r6';
    var r4, r4' := m + r5, m + r5';
    var r3, r3' := Str(v) + r4, Str(v') + r4';
    var r2, r2' := Str(u) + r3, Str(u') + r3';
    StrPrefixFree(s, [50] + r2, s', [50] + r2');
    HeadTail(50, r2, 50, r2');
    StrPrefixFree(u, r3, u', r3');
    StrPrefixFree(v, r4, v', r4');
    StrPrefixFree(Ascii("publickey"), r5, Ascii("publickey"), r5');
    HeadTail(1, r6, 1, r6');
    StrPrefixFree(a, r7, a', r7');
    StrPrefixFree(b, e, b', e');
  }

  // ----- name-lists -----

  const COMMA: byte := 0x2c

  /** The names of a comma-separated list. */
  function Names(list: seq<byte>): (names: seq<seq<byte>>)
    ensures |names| > 0
  {
    if |list| == 0 then [[]]
    else
      var n := |list| - 1;
      var front := Names(list[..n]);
      if list[n] == COMMA then front + [[]] else front[..|front| - 1] + [front[|front| - 1] + [list[n]]]
  }

  /** Where the scan stands: the names before the last comma, and the name being read. */
  lemma NamesNext(list: seq<byte>, i: nat)
    requires i < |list|
    ensures list[i] == COMMA ==> Names(list[..i + 1]) == Names(list[..i]) + [[]]
    ensures list[i] != COMMA ==>
              var f := Names(list[..i]);
              Names(list[..i + 1]) == f[..|f| - 1] + [f[|f| - 1] + [list[i]]]
  {
    assert list[..i + 1][..i] == list[..i];
  }

  /** nl_has: one pass, comparing at each comma and at the end. */
  method NlHas(list: seq<byte>, name: seq<byte>) returns (found: bool)
    ensures found <==> name in Names(list)
  {
    hide Names;
    var i, start := 0, 0;
    assert Names(list[..0]) == [[]] by { NamesEmpty(list[..0]); }
    while true
      invariant 0 <= start <= i <= |list|
      invariant var f := Names(list[..i]); f[|f| - 1] == list[start..i] && name !in f[..|f| - 1]
      decreases |list| - i
    {
      ghost var f := Names(list[..i]);
      assert f == f[..|f| - 1] + [f[|f| - 1]];
      assert i == |list| ==> list[..i] == list;
      if i == |list| || list[i] == COMMA {
        if list[start..i] == name {
          if i < |list| {
            LaterNames(list, i, name);
          }
          return true;
        }
        if i == |list| {
          return false;
        }
        start := i + 1;
      }
      NamesNext(list, i);
      i := i + 1;
    }
  }

  lemma NamesEmpty(list: seq<byte>)
    requires list == []
    ensures Names(list) == [[]]
  {
  }

  /** A name completed by a comma stays in the list. */
  lemma LaterNames(list: seq<byte>, i: nat, name: seq<byte>)
    requires i < |list| && list[i] == COMMA && name in Names(list[..i])
    ensures name in Names(list)
  {
    hide Names;
    NamesNext(list, i);
    var n := |Names(list[..i])|;
    var k := i + 1;
    ghost var done := Names(list[..k])[..n];
    assert done == Names(list[..i]);
    while k < |list|
      invariant i < k <= |list|
      invariant var f := Names(list[..k]); n < |f| && f[..n] == done
    {
      StillNamed(list, k, n);
      k := k + 1;
    }
    assert list[..k] == list;
    var j :| 0 <= j < n && done[j] == name;
    assert Names(list)[j] == name;
  }

  lemma StillNamed(list: seq<byte>, k: nat, n: nat)
    requires k < |list| && n < |Names(list[..k])|
    ensures var f, g := Names(list[..k]), Names(list[..k + 1]); n < |g| && g[..n] == f[..n]
  {
    hide Names;
    NamesNext(list, k);
  }

  // ----- exclusive or -----

  /** The exclusive or of the low n bits. */
  function XorBits(a: nat, b: nat, n: nat): (r: nat)
    ensures r < Pow2(n)
  {
    if n == 0 then 0 else (a + b) % 2 + 2 * XorBits(a / 2, b / 2, n - 1)
  }

  lemma {:induction false} XorBitsInverse(a: nat, b: nat, n: nat)
    requires a < Pow2(n)
    ensures XorBits(XorBits(a, b, n), b, n) == a
  {
    if n == 0 {
    } else {
      hide XorBits;
      XorBitsInverse(a / 2, b / 2, n - 1);
      var x := XorBits(a / 2, b / 2, n - 1);
      var r := (a + b) % 2 + 2 * x;
      XorBitsUnfold(a, b, n);
      XorBitsUnfold(r, b, n);
      LowBit(a, b, x);
    }
  }

  lemma XorBitsUnfold(a: nat, b: nat, n: nat)
    requires n > 0
    ensures XorBits(a, b, n) == (a + b) % 2 + 2 * XorBits(a / 2, b / 2, n - 1)
  {
  }

  lemma LowBit(a: nat, b: nat, x: nat)
    ensures ((a + b) % 2 + 2 * x) / 2 == x
    ensures ((a + b) % 2 + 2 * x + b) % 2 == a % 2
  {
  }

  /** Bit i of a number, counted from the low end. */
  function Bit(v: nat, i: nat): nat {
    if i == 0 then v % 2 else Bit(v / 2, i - 1)
  }

  /** Each bit is one exactly where the two differ. */
  lemma {:induction false} XorBitsAt(a: nat, b: nat, n: nat, i: nat)
    requires i < n
    ensures Bit(XorBits(a, b, n), i) == if Bit(a, i) == Bit(b, i) then 0 else 1
    decreases n
  {
    XorBitsUnfold(a, b, n);
    LowBit(a, b, XorBits(a / 2, b / 2, n - 1));
    if i > 0 {
      hide XorBits;
      XorBitsAt(a / 2, b / 2, n - 1, i - 1);
    }
  }

  function Xor(a: byte, b: byte): byte {
    assert Pow2(8) == 256;
    XorBits(a as nat, b as nat, 8) as byte
  }

  /** Exclusive or, bit by bit. */
  lemma XorAt(a: byte, b: byte, i: nat)
    requires i < 8
    ensures Bit(Xor(a, b) as nat, i) == if Bit(a as nat, i) == Bit(b as nat, i) then 0 else 1
  {
    XorBitsAt(a as nat, b as nat, 8, i);
  }

  lemma XorInverse(a: byte, b: byte)
    ensures Xor(Xor(a, b), b) == a
  {
    assert Pow2(8) == 256;
    XorBitsInverse(a as nat, b as nat, 8);
  }
}
