/** The byte strings dosshd/render.c emits, and what each one does to a terminal. */
module Ansi {
  import opened Bytes
  import opened Terminal

  // ----- numbers -----

  function Decimal(n: nat): (s: seq<byte>)
    ensures |s| > 0 && forall i :: 0 <= i < |s| ==> IsDigit(s[i])
  {
    if n < 10 then [(0x30 + n) as byte] else Decimal(n / 10) + [(0x30 + n % 10) as byte]
  }

  /** What e_num writes is what a terminal reads. */
  lemma {:induction false} DecimalRoundTrip(n: nat)
    ensures Number(Decimal(n)) == n
  {
    var s := Decimal(n);
    if n < 10 {
      assert s[..0] == [];
    } else {
      DecimalRoundTrip(n / 10);
      assert s[..|s| - 1] == Decimal(n / 10);
    }
  }

  lemma DecimalLength(n: nat)
    ensures n < 100 ==> |Decimal(n)| <= 2
    ensures n < 1000 ==> |Decimal(n)| <= 3
  {
  }

  lemma {:induction false} SplitDigits(a: seq<byte>)
    requires forall i :: 0 <= i < |a| ==> IsDigit(a[i])
    ensures Split(a) == [a]
  {
    if |a| == 0 {
    } else {
      SplitDigits(a[1..]);
      assert [a[0]] + a[1..] == a;
    }
  }

  lemma {:induction false} SplitAt(a: seq<byte>, b: seq<byte>)
    requires forall i :: 0 <= i < |a| ==> IsDigit(a[i])
    ensures Split(a + [SEMI] + b) == [a] + Split(b)
  {
    var s := a + [SEMI] + b;
    if |a| == 0 {
      assert s[1..] == b;
    } else {
      SplitAt(a[1..], b);
      assert s[1..] == a[1..] + [SEMI] + b;
      assert [a[0]] + a[1..] == a;
    }
  }

  // ----- control sequences -----

  predicate ParamByte(b: byte) {
    !(0x40 <= b <= 0x7e)
  }

  function CsiBytes(params: seq<byte>, final: byte): seq<byte> {
    [ESC, BRACKET] + params + [final]
  }

  lemma {:induction false} ParamsCollect(t: Term, got: seq<byte>, params: seq<byte>)
    requires t.Ok() && t.parser == Csi(got) && forall i :: 0 <= i < |params| ==> ParamByte(params[i])
    ensures FeedAll(t, params) == t.(parser := Csi(got + params))
    decreases |params|
  {
    if |params| == 0 {
      assert got + params == got;
    } else {
      ParamsCollect(Feed(t, params[0]), got + [params[0]], params[1..]);
      assert got + [params[0]] + params[1..] == got + params;
    }
  }

  lemma FeedOne(t: Term, b: byte)
    requires t.Ok()
    ensures FeedAll(t, [b]) == Feed(t, b)
  {
    assert [b][1..] == [];
    assert FeedAll(Feed(t, b), []) == Feed(t, b);
  }

  /** A whole control sequence reaches Control in one piece. */
  lemma CsiEffect(t: Term, params: seq<byte>, final: byte)
    requires t.Ok() && t.parser == Ground && 0x40 <= final <= 0x7e
    requires forall i :: 0 <= i < |params| ==> ParamByte(params[i])
    ensures FeedAll(t, CsiBytes(params, final)) == Control(t, params, final)
  {
    hide Control, FeedAll;
    var e := t.(parser := Escape);
    var c := t.(parser := Csi([]));
    var p := t.(parser := Csi([] + params));
    assert CsiBytes(params, final) == [ESC] + ([BRACKET] + (params + [final]));
    FeedConcat(t, [ESC], [BRACKET] + (params + [final]));
    FeedOne(t, ESC);
    FeedConcat(e, [BRACKET], params + [final]);
    FeedOne(e, BRACKET);
    FeedConcat(c, params, [final]);
    ParamsCollect(c, [], params);
    FeedOne(p, final);
    assert [] + params == params;
    ControlGround(t, params, final);
  }

  lemma ControlGround(t: Term, params: seq<byte>, final: byte)
    requires t.Ok()
    ensures Control(t.(parser := Csi(params)), params, final) == Control(t, params, final)
  {
  }

  /** e_cup. */
  function Cup(row: nat, col: nat): seq<byte> {
    CsiBytes(Decimal(row + 1) + [SEMI] + Decimal(col + 1), 0x48)
  }

  lemma CupEffect(t: Term, row: nat, col: nat)
    requires t.Ok() && t.parser == Ground
    ensures FeedAll(t, Cup(row, col)) ==
            t.(cy := if row < t.rows then row else t.rows - 1, cx := if col < t.cols then col else t.cols - 1)
  {
    hide FeedAll, Decimal, Number, Split;
    var a, b := Decimal(row + 1), Decimal(col + 1);
    CsiEffect(t, a + [SEMI] + b, 0x48);
    SplitAt(a, b);
    SplitDigits(b);
    DecimalRoundTrip(row + 1);
    DecimalRoundTrip(col + 1);
  }

  // ----- colours -----

  /** VGA colour number to ANSI colour number. */
  const V2A: seq<nat> := [0, 4, 2, 6, 1, 5, 3, 7]

  function FgCode(at: byte): (c: nat)
    ensures 30 <= c <= 37 || 90 <= c <= 97
  {
    var fg := at as nat % 16;
    if fg < 8 then 30 + V2A[fg] else 90 + V2A[fg - 8]
  }

  function BgCode(at: byte): (c: nat)
    ensures 40 <= c <= 47
  {
    40 + V2A[at as nat / 16 % 8]
  }

  /** Whether the bit worth `unit` is set. */
  predicate Bit(b: byte, unit: nat)
    requires unit > 0
  {
    b as nat / unit % 2 == 1
  }

  /** What the video hardware makes of an attribute: blue, green, red and intensity in bits 0 to 3, the background's
      blue, green and red in bits 4 to 6, blinking in bit 7. */
  function Vga(at: byte): Appearance {
    Appearance(Colour(Bit(at, 4), Bit(at, 2), Bit(at, 1), Bit(at, 8)),
               Colour(Bit(at, 0x40), Bit(at, 0x20), Bit(at, 0x10), false), Bit(at, 0x80))
  }

  /** The table swaps the bits for red and blue. */
  lemma Rewired(n: nat)
    requires n < 8
    ensures |V2A| == 8 && V2A[n] < 8 && V2A[n] % 2 == n / 4 && V2A[n] / 2 % 2 == n / 2 % 2 && V2A[n] / 4 == n % 2
  {
  }

  lemma ShadeOf(base: nat, n: nat)
    requires n < 8 && base in {30, 40, 90}
    ensures Shade(base + n) == Colour(n % 2 == 1, n / 2 % 2 == 1, n / 4 == 1, base == 90)
  {
    assert (base + n) % 10 == n;
  }

  lemma LowBits(a: nat)
    requires a < 256
    ensures var n := a % 8; a % 2 == n % 2 && a / 2 % 2 == n / 2 % 2 && a / 4 % 2 == n / 4
  {
    var q, n := a / 8, a % 8;
    assert a / 4 == 2 * q + n / 4;
    assert a / 2 == 2 * (2 * q) + n / 2;
  }

  lemma MiddleBit(a: nat)
    requires a < 256
    ensures a % 16 % 8 == a % 8 && (a / 8 % 2 == 1 <==> a % 16 >= 8)
  {
    var q, n := a / 16, a % 16;
    assert a / 8 == 2 * q + n / 8;
  }

  lemma HighBits(a: nat)
    requires a < 256
    ensures var m := a / 16;
            a / 32 == m / 2 && a / 64 == m / 4 && a / 128 == m / 8 && (m / 8 % 2 == 1 <==> a >= 0x80)
  {
  }

  lemma ForeShows(at: byte)
    ensures Shade(FgCode(at)) == Vga(at).fg
  {
    hide Shade, FgCode, Bit, V2A;
    var n, base := at as nat % 8, if at as nat % 16 < 8 then 30 else 90;
    Rewired(n);
    ForeCode(at);
    ForeBits(at);
    ShadeOf(base, V2A[n]);
  }

  lemma ForeCode(at: byte)
    ensures |V2A| == 8 && FgCode(at) == (if at as nat % 16 < 8 then 30 else 90) + V2A[at as nat % 8]
  {
    MiddleBit(at as nat);
  }

  /** The low half of an attribute, bit by bit. */
  lemma ForeBits(at: byte)
    ensures var n := at as nat % 8;
            && Bit(at, 1) == (n % 2 == 1) && Bit(at, 2) == (n / 2 % 2 == 1) && Bit(at, 4) == (n / 4 == 1)
            && Bit(at, 8) == (at as nat % 16 >= 8)
  {
    LowBits(at as nat);
    MiddleBit(at as nat);
  }

  lemma BackShows(at: byte)
    ensures Shade(BgCode(at)) == Vga(at).bg
  {
    hide Shade;
    var m := at as nat / 16;
    HighBits(at as nat);
    LowBits(m);
    Rewired(m % 8);
    ShadeOf(40, V2A[m % 8]);
  }

  lemma BlinkShows(at: byte)
    ensures at >= 0x80 <==> Vga(at).blink
  {
    HighBits(at as nat);
  }

  /** The codes chosen for an attribute show its colours. */
  lemma CodesShow(at: byte)
    ensures Seen(Attr(FgCode(at), BgCode(at), at >= 0x80)) == Vga(at)
  {
    hide Shade, FgCode, BgCode, Vga;
    ForeShows(at);
    BackShows(at);
    BlinkShows(at);
  }

  /** e_sgr. */
  function SgrSeq(at: byte): seq<byte> {
    var blink := if at >= 0x80 then [SEMI, 0x35] else [];
    CsiBytes([0x30] + [SEMI] + (Decimal(FgCode(at)) + [SEMI] + (Decimal(BgCode(at)) + blink)), 0x6d)
  }

  lemma SgrEffect(t: Term, at: byte)
    requires t.Ok() && t.parser == Ground
    ensures var r := FeedAll(t, SgrSeq(at)); r == t.(cur := r.cur) && Seen(r.cur) == Vga(at)
  {
    CodesShow(at);
    hide FeedAll, Decimal, Split, FgCode, BgCode, Seen, Vga;
    var fg, bg := Decimal(FgCode(at)), Decimal(BgCode(at));
    var tail := bg + if at >= 0x80 then [SEMI, 0x35] else [];
    var params := [0x30] + [SEMI] + (fg + [SEMI] + tail);
    CsiEffect(t, params, 0x6d);
    SplitAt([0x30], fg + [SEMI] + tail);
    SplitAt(fg, tail);
    DecimalRoundTrip(FgCode(at));
    DecimalRoundTrip(BgCode(at));
    if at >= 0x80 {
      assert tail == bg + [SEMI] + [0x35];
      SplitAt(bg, [0x35]);
      SplitDigits([0x35]);
      assert Split(params) == [[0x30], fg, bg, [0x35]];
    } else {
      assert tail == bg;
      SplitDigits(bg);
      assert Split(params) == [[0x30], fg, bg];
    }
    SgrParts(t.cur, fg, bg, FgCode(at), BgCode(at));
  }

  lemma SgrParts(a: Attr, fg: seq<byte>, bg: seq<byte>, f: nat, b: nat)
    requires Number(fg) == f && Number(bg) == b && (30 <= f <= 37 || 90 <= f <= 97) && 40 <= b <= 47
    ensures Sgr(a, [[0x30], fg, bg]) == Attr(f, b, false)
    ensures Sgr(a, [[0x30], fg, bg, [0x35]]) == Attr(f, b, true)
  {
    hide Sgr;
    OneDigit(0x30);
    OneDigit(0x35);
    var d, x := DEFAULT_ATTR, Attr(f, b, false);
    assert [[0x30], fg, bg] == [[0x30]] + ([fg] + ([bg] + []));
    assert [[0x30], fg, bg, [0x35]] == [[0x30]] + ([fg] + ([bg] + ([[0x35]] + [])));
    SgrCons(a, [0x30], [fg] + ([bg] + []));
    SgrCons(d, fg, [bg] + []);
    SgrCons(d.(fg := f), bg, []);
    SgrNil(x);
    SgrCons(a, [0x30], [fg] + ([bg] + ([[0x35]] + [])));
    SgrCons(d, fg, [bg] + ([[0x35]] + []));
    SgrCons(d.(fg := f), bg, [[0x35]] + []);
    SgrCons(x, [0x35], []);
    SgrNil(x.(blink := true));
  }

  lemma SgrNil(a: Attr)
    ensures Sgr(a, []) == a
  {
  }

  lemma SgrCons(a: Attr, p: seq<byte>, rest: seq<seq<byte>>)
    ensures Sgr(a, [p] + rest) == Sgr(SgrOne(a, Number(p)), rest)
  {
    assert ([p] + rest)[1..] == rest;
  }

  lemma OneDigit(b: byte)
    requires IsDigit(b)
    ensures Number([b]) == b as nat - 0x30
  {
    assert [b][..0] == [];
  }

  // ----- the rest of a frame -----

  /** ESC[?7l ESC[?25l : no auto-wrap, hide the cursor. */
  const HIDE: seq<byte> := [ESC, BRACKET, 0x3f, 0x32, 0x35, 0x6c]
  const SHOW: seq<byte> := [ESC, BRACKET, 0x3f, 0x32, 0x35, 0x68]
  const NO_WRAP: seq<byte> := [ESC, BRACKET, 0x3f, 0x37, 0x6c]
  /** ESC[2J ESC[H : erase and home. */
  const ERASE: seq<byte> := [ESC, BRACKET, 0x32, 0x4a]
  const HOME: seq<byte> := [ESC, BRACKET, 0x48]

  lemma ModesEffect(t: Term)
    requires t.Ok() && t.parser == Ground
    ensures FeedAll(t, HIDE) == t.(shown := false) && FeedAll(t, SHOW) == t.(shown := true)
    ensures FeedAll(t, NO_WRAP) == t
  {
    hide FeedAll;
    assert HIDE == CsiBytes([0x3f, 0x32, 0x35], 0x6c);
    assert SHOW == CsiBytes([0x3f, 0x32, 0x35], 0x68);
    assert NO_WRAP == CsiBytes([0x3f, 0x37], 0x6c);
    CsiEffect(t, [0x3f, 0x32, 0x35], 0x6c);
    CsiEffect(t, [0x3f, 0x32, 0x35], 0x68);
    CsiEffect(t, [0x3f, 0x37], 0x6c);
  }

  lemma EraseEffect(t: Term)
    requires t.Ok() && t.parser == Ground
    ensures FeedAll(t, ERASE) == t.(cells := seq(|t.cells|, _ => BLANK))
    ensures FeedAll(t, HOME) == t.(cx := 0, cy := 0)
  {
    hide FeedAll;
    assert ERASE == CsiBytes([0x32], 0x4a);
    assert HOME == CsiBytes([], 0x48);
    CsiEffect(t, [0x32], 0x4a);
    CsiEffect(t, [], 0x48);
  }

  /** A parser can be left anywhere inside a sequence the renderer emits, or inside one of its glyphs. */
  predicate Interrupted(p: Parser) {
    p.Ground? || p.Escape? || p.Csi? || (p.Utf8? && 0 < p.need <= 2)
  }

  /** Wherever a discarded buffer left the parser, the five bytes that open the next frame bring it back to
      its ground state. */
  lemma Resynchronise(t: Term)
    requires t.Ok() && Interrupted(t.parser)
    ensures FeedAll(t, NO_WRAP).parser == Ground
  {
    FeedFive(t, ESC, BRACKET, 0x3f, 0x37, 0x6c);
    match t.parser {
      case Ground => ModesEffect(t);
      case Escape => FromEscape(t);
      case Csi(_) => FromCsi(t);
      case Utf8(_, _) => FromUtf8(t);
    }
  }

  lemma FromEscape(t: Term)
    requires t.Ok() && t.parser == Escape
    ensures Feed(Feed(Feed(Feed(Feed(t, ESC), BRACKET), 0x3f), 0x37), 0x6c).parser == Ground
  {
    hide Control;
  }

  lemma FromCsi(t: Term)
    requires t.Ok() && t.parser.Csi?
    ensures Feed(Feed(Feed(Feed(Feed(t, ESC), BRACKET), 0x3f), 0x37), 0x6c).parser == Ground
  {
    hide Control;
    ControlParser(Feed(t, ESC), t.parser.params + [ESC], BRACKET);
  }

  lemma FromUtf8(t: Term)
    requires t.Ok() && t.parser.Utf8? && 0 < t.parser.need <= 2
    ensures Feed(Feed(Feed(Feed(Feed(t, ESC), BRACKET), 0x3f), 0x37), 0x6c).parser == Ground
  {
    hide Control;
  }

  lemma ControlParser(t: Term, params: seq<byte>, final: byte)
    requires t.Ok()
    ensures Control(t, params, final).parser == Ground
  {
  }

  lemma FeedFive(t: Term, a: byte, b: byte, c: byte, d: byte, e: byte)
    requires t.Ok()
    ensures FeedAll(t, [a, b, c, d, e]) == Feed(Feed(Feed(Feed(Feed(t, a), b), c), d), e)
  {
    hide Feed, FeedAll;
    assert [a, b, c, d, e] == [a] + ([b] + ([c] + ([d] + [e])));
    FeedOne(t, a);
    FeedConcat(t, [a], [b] + ([c] + ([d] + [e])));
    var t1 := Feed(t, a);
    FeedOne(t1, b);
    FeedConcat(t1, [b], [c] + ([d] + [e]));
    var t2 := Feed(t1, b);
    FeedOne(t2, c);
    FeedConcat(t2, [c], [d] + [e]);
    var t3 := Feed(t2, c);
    FeedOne(t3, d);
    FeedConcat(t3, [d], [e]);
    FeedOne(Feed(t3, d), e);
  }

  // ----- glyphs -----

  /** A glyph the terminal stores as it is: printable ASCII, or a UTF-8 sequence of two or three bytes. */
  predicate Glyph(g: seq<byte>) {
    (|g| == 1 && 0x20 <= g[0] < 0x80) || (2 <= |g| <= 3 && OneChar(g))
  }

  lemma GlyphEffect(t: Term, g: seq<byte>)
    requires t.Ok() && t.parser == Ground && Glyph(g)
    ensures FeedAll(t, g) == t.Put(g)
  {
    if |g| == 1 {
      assert g == [g[0]];
      FeedOne(t, g[0]);
    } else if |g| == 2 {
      assert g == [g[0]] + [g[1]];
      FeedConcat(t, [g[0]], [g[1]]);
      FeedOne(t, g[0]);
      FeedOne(Feed(t, g[0]), g[1]);
    } else {
      assert g == [g[0]] + ([g[1]] + [g[2]]);
      var t1 := Feed(t, g[0]);
      FeedConcat(t, [g[0]], [g[1]] + [g[2]]);
      FeedOne(t, g[0]);
      FeedConcat(t1, [g[1]], [g[2]]);
      FeedOne(t1, g[1]);
      FeedOne(Feed(t1, g[1]), g[2]);
      assert [g[0]] + [g[1]] + [g[2]] == g;
    }
  }

  // ----- lengths -----

  lemma CupLength(row: nat, col: nat)
    ensures row < 60 && col < 132 ==> |Cup(row, col)| <= 9
    ensures row < 256 && col < 256 ==> |Cup(row, col)| <= 10
  {
    DecimalLength(row + 1);
    DecimalLength(col + 1);
  }

  lemma SgrLength(at: byte)
    ensures |SgrSeq(at)| <= 12
  {
    DecimalLength(FgCode(at));
    DecimalLength(BgCode(at));
  }

  /** No byte of the stream announces a four-byte character, so a parser cut off anywhere stays Interrupted. */
  predicate Plain(s: seq<byte>) {
    forall i :: 0 <= i < |s| ==> s[i] < 0xf0
  }

  lemma FeedInterrupted(t: Term, b: byte)
    requires t.Ok() && Interrupted(t.parser) && b < 0xf0
    ensures Interrupted(Feed(t, b).parser)
  {
    hide Control;
    if t.parser.Csi? && 0x40 <= b <= 0x7e {
      ControlParser(t, t.parser.params, b);
    }
  }
}
