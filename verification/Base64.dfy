/** Authorised-key lines (dosshd/ssh.c): base64 decoding and the ssh-ed25519 key line. */
module Base64 {
  import opened Bytes
  import opened SshWire
  import opened SshServer
  import opened SshAuth

  const PAD: byte := 0x3d

  /** b64val. */
  function Value(ch: byte): (v: int)
    ensures -1 <= v < 64
  {
    if 0x41 <= ch <= 0x5a then ch as int - 0x41
    else if 0x61 <= ch <= 0x7a then ch as int - 0x61 + 26
    else if 0x30 <= ch <= 0x39 then ch as int - 0x30 + 52
    else if ch == 0x2b then 62
    else if ch == 0x2f then 63
    else -1
  }

  /** The base64 alphabet (section 4 of RFC 4648). */
  function Digit(v: nat): (ch: byte)
    requires v < 64
    ensures Value(ch) == v && ch != PAD
  {
    if v < 26 then (0x41 + v) as byte
    else if v < 52 then (0x61 + v - 26) as byte
    else if v < 62 then (0x30 + v - 52) as byte
    else if v == 62 then 0x2b
    else 0x2f
  }

  datatype Decoded = NotBase64 | Plain(value: seq<byte>)

  /** Base64 without its trailing padding. */
  function Encode(s: seq<byte>): (r: seq<byte>)
    ensures forall i :: 0 <= i < |r| ==> Value(r[i]) >= 0 && r[i] != PAD
  {
    if |s| == 0 then []
    else
      var a := s[0] as nat;
      if |s| == 1 then [Digit(a / 4), Digit(a % 4 * 16)]
      else
        var b := s[1] as nat;
        if |s| == 2 then [Digit(a / 4), Digit(a % 4 * 16 + b / 16), Digit(b % 16 * 4)]
        else
          var c := s[2] as nat;
          [Digit(a / 4), Digit(a % 4 * 16 + b / 16), Digit(b % 16 * 4 + c / 64), Digit(c % 64)] + Encode(s[3..])
  }

  /** The bytes of one full group of four digits. */
  function Group(c0: nat, c1: nat, c2: nat, c3: nat): (r: seq<byte>)
    ensures |r| == 3
  {
    [((c0 * 4 + c1 / 16) % 256) as byte, ((c1 * 16 + c2 / 4) % 256) as byte, ((c2 * 64 + c3) % 256) as byte]
  }

  /** What b64_decode yields, given no bound on the output. */
  function Decode(s: seq<byte>): Decoded {
    if |s| == 0 then Plain([])
    else if |s| == 1 || Value(s[0]) < 0 || Value(s[1]) < 0 then NotBase64
    else if |s| == 2 then Plain(Group(Value(s[0]), Value(s[1]), 0, 0)[..1])
    else if Value(s[2]) < 0 then NotBase64
    else if |s| == 3 then Plain(Group(Value(s[0]), Value(s[1]), Value(s[2]), 0)[..2])
    else if Value(s[3]) < 0 then NotBase64
    else
      match Decode(s[4..])
      case NotBase64 => NotBase64
      case Plain(rest) => Plain(Group(Value(s[0]), Value(s[1]), Value(s[2]), Value(s[3])) + rest)
  }

  lemma GroupOf(a: byte, b: byte, c: byte)
    ensures Group(a as nat / 4, a as nat % 4 * 16 + b as nat / 16, b as nat % 16 * 4 + c as nat / 64,
        c as nat % 64) == [a, b, c]
  {
    var x, y, z := a as nat, b as nat, c as nat;
    assert x / 4 * 4 + (x % 4 * 16 + y / 16) / 16 == x;
    DivModUnique((x % 4 * 16 + y / 16) * 16 + (y % 16 * 4 + z / 64) / 4, 256, x % 4, y);
    DivModUnique((y % 16 * 4 + z / 64) * 64 + z % 64, 256, y % 16, z);
  }

  lemma EncodeFull(s: seq<byte>)
    requires |s| >= 3
    ensures var a, b, c := s[0] as nat, s[1] as nat, s[2] as nat;
            Encode(s) == [Digit(a / 4), Digit(a % 4 * 16 + b / 16), Digit(b % 16 * 4 + c / 64), Digit(c % 64)]
                + Encode(s[3..])
  {
    hide Digit;
  }

  lemma ShortGroups(x: byte, y: byte)
    ensures Group(x as nat / 4, x as nat % 4 * 16, 0, 0)[..1] == [x]
    ensures Group(x as nat / 4, x as nat % 4 * 16 + y as nat / 16, y as nat % 16 * 4, 0)[..2] == [x, y]
  {
    GroupOf(x, 0, 0);
    GroupOf(x, y, 0);
  }

  lemma EncodeShort(s: seq<byte>)
    ensures |s| == 0 ==> Encode(s) == []
    ensures |s| == 1 ==> Encode(s) == [Digit(s[0] as nat / 4), Digit(s[0] as nat % 4 * 16)]
    ensures |s| == 2 ==>
              Encode(s) == [Digit(s[0] as nat / 4), Digit(s[0] as nat % 4 * 16 + s[1] as nat / 16),
                  Digit(s[1] as nat % 16 * 4)]
  {
    hide Digit;
  }

  lemma ShortRoundTrip(s: seq<byte>)
    requires |s| < 3
    ensures Decode(Encode(s)) == Plain(s)
  {
    hide Value, Digit, Group, Encode, Decode;
    EncodeShort(s);
    DecodeTail(Encode(s));
    if |s| == 1 {
      ShortGroups(s[0], 0);
      assert s == [s[0]];
    } else if |s| == 2 {
      ShortGroups(s[0], s[1]);
      assert s == [s[0], s[1]];
    } else {
      assert s == [];
    }
  }

  /** Decoding undoes encoding, for every byte string. */
  lemma {:induction false} Base64RoundTrip(s: seq<byte>)
    ensures Decode(Encode(s)) == Plain(s)
  {
    hide Value, Digit, Group, Encode, Decode;
    if |s| < 3 {
      ShortRoundTrip(s);
    } else {
      GroupOf(s[0], s[1], s[2]);
      EncodeFull(s);
      DecodeGroup(Encode(s));
      Base64RoundTrip(s[3..]);
      assert Encode(s)[4..] == Encode(s[3..]);
      assert s == [s[0], s[1], s[2]] + s[3..];
    }
  }

  /** Trailing padding is dropped before decoding. */
  function Unpadded(s: seq<byte>): (r: seq<byte>)
    ensures r <= s
  {
    if |s| > 0 && s[|s| - 1] == PAD then Unpadded(s[..|s| - 1]) else s
  }

  /** The decoder's verdict: nothing at all for malformed or oversized input. */
  function Bounded(d: Decoded, outmax: nat): seq<byte> {
    if d.Plain? && |d.value| <= outmax then d.value else []
  }

  /** What is decoded so far, followed by the rest. */
  function After(out: seq<byte>, d: Decoded): Decoded {
    match d
    case NotBase64 => NotBase64
    case Plain(v) => Plain(out + v)
  }

  lemma DecodeGroup(s: seq<byte>)
    requires |s| >= 4
    ensures Value(s[0]) >= 0 && Value(s[1]) >= 0 && Value(s[2]) >= 0 && Value(s[3]) >= 0 ==>
              Decode(s) == After(Group(Value(s[0]), Value(s[1]), Value(s[2]), Value(s[3])), Decode(s[4..]))
    ensures Value(s[0]) < 0 || Value(s[1]) < 0 || Value(s[2]) < 0 || Value(s[3]) < 0 ==> Decode(s) == NotBase64
  {
    hide Value, Group;
  }

  /** The last, short group. */
  lemma DecodeTail(s: seq<byte>)
    ensures |s| == 0 ==> Decode(s) == Plain([])
    ensures |s| == 1 ==> Decode(s) == NotBase64
    ensures |s| == 2 ==>
              Decode(s) == if Value(s[0]) < 0 || Value(s[1]) < 0 then NotBase64
                  else Plain(Group(Value(s[0]), Value(s[1]), 0, 0)[..1])
    ensures |s| == 3 ==> Decode(s) == if Value(s[0]) < 0 || Value(s[1]) < 0 || Value(s[2]) < 0 then NotBase64
                                      else Plain(Group(Value(s[0]), Value(s[1]), Value(s[2]), 0)[..2])
  {
    hide Value, Group;
  }

  /** b64_decode. */
  method B64Decode(input: seq<byte>, outmax: nat) returns (out: seq<byte>)
    ensures out == Bounded(Decode(Unpadded(input)), outmax)
  {
    hide Value, Decode, Group;
    var n := |input|;
    assert input[..n] == input;
    while n > 0 && input[n - 1] == PAD
      invariant 0 <= n <= |input| && Unpadded(input[..n]) == Unpadded(input)
    {
      assert input[..n][..n - 1] == input[..n - 1];
      n := n - 1;
    }
    var s := input[..n];
    assert s == Unpadded(input);
    out := [];
    var i := 0;
    assert s[0..] == s;
    while i < |s|
      invariant 0 <= i <= |s| && |out| <= outmax
      invariant Decode(s) == After(out, Decode(s[i..]))
      decreases |s| - i
    {
      var left := s[i..];
      DecodeTail(left);
      if |left| == 1 || Value(left[0]) < 0 || Value(left[1]) < 0 {
        if |left| > 3 { DecodeGroup(left); }
        return [];
      }
      if |left| == 2 {
        out := out + Group(Value(left[0]), Value(left[1]), 0, 0)[..1];
        return if |out| <= outmax then out else [];
      }
      if Value(left[2]) < 0 {
        if |left| > 3 { DecodeGroup(left); }
        return [];
      }
      if |left| == 3 {
        out := out + Group(Value(left[0]), Value(left[1]), Value(left[2]), 0)[..2];
        return if |out| <= outmax then out else [];
      }
      DecodeGroup(left);
      if Value(left[3]) < 0 {
        return [];
      }
      var group := Group(Value(left[0]), Value(left[1]), Value(left[2]), Value(left[3]));
      assert left[4..] == s[i + 4..];
      assert forall d :: After(out, After(group, d)) == After(out + group, d) by { Regroup(out, group); }
      out := out + group;
      if |out| > outmax {
        return [];
      }
      i := i + 4;
    }
    DecodeTail(s[i..]);
  }

  lemma Regroup(a: seq<byte>, b: seq<byte>)
    ensures forall d :: After(a, After(b, d)) == After(a + b, d)
  {
    forall d
      ensures After(a, After(b, d)) == After(a + b, d)
    {
      if d.Plain? {
        assert a + (b + d.value) == a + b + d.value;
      }
    }
  }

  // ----- key lines -----

  predicate Blank(b: byte) {
    b == 0x20 || b == 0x09
  }

  function SkipBlanks(s: seq<byte>): (r: seq<byte>)
    ensures |r| <= |s|
  {
    if |s| > 0 && Blank(s[0]) then SkipBlanks(s[1..]) else s
  }

  /** The longest prefix of base64 digits and padding. */
  function Digits(s: seq<byte>): (r: seq<byte>)
    ensures r <= s
  {
    if |s| > 0 && (Value(s[0]) >= 0 || s[0] == PAD) then [s[0]] + Digits(s[1..]) else []
  }

  /** ssh_parse_authkey_line, on a line that ends where the sequence does. */
  method ParseKeyLine(line: seq<byte>) returns (key: Read)
    ensures key.Got? ==> |key.value| == 32
    ensures key == KeyOf(line)
  {
    hide Decode, Value, Digits, Ed25519Part;
    var p := line;
    while |p| > 0 && Blank(p[0])
      invariant SkipBlanks(p) == SkipBlanks(line)
    {
      p := p[1..];
    }
    if !(ED25519 <= p) {
      return Overrun;
    }
    p := p[11..];
    if |p| == 0 || !Blank(p[0]) {
      return Overrun;
    }
    ghost var after := p;
    while |p| > 0 && Blank(p[0])
      invariant SkipBlanks(p) == SkipBlanks(after)
    {
      p := p[1..];
    }
    var b64 := Digits(p);
    var blob := B64Decode(b64, 80);
    key := Ed25519Part(blob, 32);
  }

  /** What the line says: a comment, a blank line or another algorithm has no key. */
  function KeyOf(line: seq<byte>): Read {
    var p := SkipBlanks(line);
    if !(ED25519 <= p) then Overrun
    else
      var q := p[11..];
      if |q| == 0 || !Blank(q[0]) then Overrun
      else Ed25519Part(Bounded(Decode(Unpadded(Digits(SkipBlanks(q)))), 80), 32)
  }

  lemma {:induction false} DigitsOf(s: seq<byte>, rest: seq<byte>)
    requires forall i :: 0 <= i < |s| ==> Value(s[i]) >= 0 || s[i] == PAD
    requires |rest| > 0 ==> Value(rest[0]) < 0 && rest[0] != PAD
    ensures Digits(s + rest) == s
    decreases |s|
  {
    hide Value;
    var all := s + rest;
    if |s| == 0 {
      assert all == rest;
    } else {
      assert all[1..] == s[1..] + rest && all[0] == s[0];
      DigitsOf(s[1..], rest);
      assert [s[0]] + s[1..] == s;
    }
  }

  function Pads(n: nat): (r: seq<byte>)
    ensures |r| == n && forall i :: 0 <= i < n ==> r[i] == PAD
  {
    seq(n, _ => PAD)
  }

  lemma {:induction false} UnpadsBack(s: seq<byte>, n: nat)
    requires |s| > 0 ==> s[|s| - 1] != PAD
    ensures Unpadded(s + Pads(n)) == s
  {
    var all := s + Pads(n);
    if n == 0 {
      assert all == s;
    } else {
      UnpadsBack(s, n - 1);
      assert all[..|all| - 1] == s + Pads(n - 1);
    }
  }

  lemma BlobLength(key: seq<byte>)
    requires |key| == 32
    ensures |Blob(key, []).Bytes()| == 51 && Blob(key, []).Sized()
  {
  }

  lemma StartsPlain(line: seq<byte>)
    requires ED25519 <= line
    ensures SkipBlanks(line) == line && |ED25519| == 11
  {
    assert line[0] == ED25519[0] == 0x73;
  }

  lemma SkipsOne(s: seq<byte>)
    requires |s| > 0 && Value(s[0]) >= 0
    ensures SkipBlanks([0x20] + s) == s
  {
    assert ([0x20] + s)[1..] == s;
  }

  lemma EncodeStarts(s: seq<byte>)
    requires |s| > 0
    ensures |Encode(s)| > 0 && Encode(s)[|Encode(s)| - 1] != PAD
  {
    hide Digit;
  }

  /** Every ed25519 key, written as OpenSSH writes it with any padding and any comment, is read back exactly. */
  lemma KeyLineRoundTrip(key: seq<byte>, pads: nat, comment: seq<byte>)
    requires |key| == 32 && (|comment| > 0 ==> Value(comment[0]) < 0 && comment[0] != PAD)
    ensures var line := ED25519 + ([0x20] + (Encode(Blob(key, []).Bytes()) + Pads(pads) + comment));
            KeyOf(line).Got? && KeyOf(line).value == key
  {
    hide Decode, Value, Digits, Ed25519Part, Encode, Unpadded, Blob.Bytes, Ascii;
    var blob := Blob(key, []);
    BlobLength(key);
    var b := blob.Bytes();
    EncodeStarts(b);
    var text := Encode(b) + Pads(pads);
    var tail := [0x20] + (text + comment);
    var line := ED25519 + tail;
    StartsPlain(line);
    assert line[11..] == tail;
    assert tail[1..] == text + comment;
    DigitsOf(text, comment);
    SkipsOne(text + comment);
    UnpadsBack(Encode(b), pads);
    Base64RoundTrip(b);
    PartIff(blob, 32);
  }
}
