/** A terminal, as far as DOSSH uses one (test/ansiterm.py): cursor positioning, erase, SGR colours, telnet
    negotiation and UTF-8 text, consumed one byte at a time. */
module Terminal {
  import opened Bytes

  const ESC: byte := 0x1b
  const BRACKET: byte := 0x5b
  const SEMI: byte := 0x3b
  const IAC: byte := 0xff

  /** Foreground and background SGR codes and the blink flag. */
  datatype Attr = Attr(fg: nat, bg: nat, blink: bool)
  const DEFAULT_ATTR := Attr(37, 40, false)

  /** A colour, and how a piece of text looks. */
  datatype Colour = Colour(red: bool, green: bool, blue: bool, bright: bool)
  datatype Appearance = Appearance(fg: Colour, bg: Colour, blink: bool)

  /** The colour a terminal shows for an SGR code: the low digit adds up red 1, green 2 and blue 4, and codes from 90 on
      are bright. */
  function Shade(code: nat): Colour {
    var n := code % 10;
    Colour(n % 2 == 1, n / 2 % 2 == 1, n / 4 % 2 == 1, code >= 90)
  }

  function Seen(a: Attr): Appearance {
    Appearance(Shade(a.fg), Shade(a.bg), a.blink)
  }

  datatype Cell = Cell(glyph: seq<byte>, attr: Attr)
  const BLANK := Cell([0x20], DEFAULT_ATTR)

  /** Where the parser stands. The last four states are inside a telnet command: after IAC, before an option, inside
      a subnegotiation, and after an IAC in one. */
  datatype Parser =
    | Ground | Escape | Csi(params: seq<byte>) | Utf8(need: nat, got: seq<byte>)
    | Iac | IacOption | IacSub | IacSubEnd

  /** The screen, its cursor, whether the cursor is shown, the colours in force and the parser. */
  datatype Term = Term(cols: nat, rows: nat, cells: seq<Cell>, cx: nat, cy: nat, shown: bool, cur: Attr, parser: Parser)
  {
    predicate Ok() {
      && 0 < cols && 0 < rows && |cells| == cols * rows && cx < cols && cy < rows
      && (parser.Utf8? ==> parser.need > 0)
    }

    /** Write one glyph under the cursor and move right, sticking at the last column. */
    function Put(g: seq<byte>): (t: Term)
      requires Ok()
      ensures t.Ok() && t.cols == cols && t.rows == rows && t.parser == parser
    {
      InGrid(cols, rows, cx, cy);
      this.(cells := cells[cy * cols + cx := Cell(g, cur)], cx := if cx + 1 >= cols then cols - 1 else cx + 1)
    }
  }

  lemma InGrid(cols: nat, rows: nat, x: nat, y: nat)
    requires x < cols && y < rows
    ensures 0 <= y * cols + x < cols * rows
  {
    MulBound(y, cols, rows - 1);
    MulDistr(cols, rows, -1);
    assert (rows - 1) * cols == cols * rows - cols;
  }

  // ----- escape sequences -----

  /** The pieces of s between semicolons. */
  function Split(s: seq<byte>): (parts: seq<seq<byte>>)
    ensures |parts| > 0
  {
    if |s| == 0 then [[]]
    else
      var rest := Split(s[1..]);
      if s[0] == SEMI then [[]] + rest else [[s[0]] + rest[0]] + rest[1..]
  }

  predicate IsDigit(b: byte) {
    0x30 <= b <= 0x39
  }

  /** The number a decimal string spells. */
  function Number(s: seq<byte>): nat {
    if |s| == 0 then 0
    else
      var b := s[|s| - 1];
      10 * Number(s[..|s| - 1]) + if IsDigit(b) then b as nat - 0x30 else 0
  }

  function Clamp(n: nat, size: nat): (m: nat)
    requires size > 0
    ensures m < size
  {
    if n == 0 then 0 else if n - 1 < size then n - 1 else size - 1
  }

  function SgrOne(a: Attr, n: nat): Attr {
    if n == 0 then DEFAULT_ATTR
    else if n == 5 then a.(blink := true)
    else if n == 25 then a.(blink := false)
    else if 30 <= n <= 37 || 90 <= n <= 97 then a.(fg := n)
    else if 40 <= n <= 47 || 100 <= n <= 107 then a.(bg := n)
    else a
  }

  function Sgr(a: Attr, parts: seq<seq<byte>>): Attr
    decreases |parts|
  {
    if |parts| == 0 then a else Sgr(SgrOne(a, Number(parts[0])), parts[1..])
  }

  /** Blank the cursor's row from the cursor on; the colours stay. */
  function EraseLine(t: Term): (cells: seq<Cell>)
    requires t.Ok()
    ensures |cells| == |t.cells|
  {
    seq(|t.cells|, i requires 0 <= i < |t.cells| =>
      if i / t.cols == t.cy && i % t.cols >= t.cx then t.cells[i].(glyph := [0x20]) else t.cells[i])
  }

  /** ?25, the parameter of the sequences that show and hide the cursor. */
  const CURSOR_MODE: seq<byte> := [0x3f, 0x32, 0x35]

  /** A complete control sequence: CUP, erase display or line, cursor on or off, SGR; anything else has no visible
      effect. */
  function Control(t: Term, params: seq<byte>, final: byte): (r: Term)
    requires t.Ok()
    ensures r.Ok() && r.cols == t.cols && r.rows == t.rows
  {
    var g := t.(parser := Ground);
    if final == 0x48 || final == 0x66 then
      var parts := Split(params);
      var row := if |parts[0]| > 0 then Number(parts[0]) else 1;
      var col := if |parts| > 1 && |parts[1]| > 0 then Number(parts[1]) else 1;
      g.(cy := Clamp(row, t.rows), cx := Clamp(col, t.cols))
    else if final == 0x4a && params in {[0x32], [], [0x30], [0x33]} then
      g.(cells := seq(|t.cells|, _ => BLANK))
    else if final == 0x4b then g.(cells := EraseLine(t))
    else if params == CURSOR_MODE && final in {0x68, 0x6c} then g.(shown := final == 0x68)
    else if final == 0x6d then
      g.(cur := Sgr(t.cur, if |params| == 0 then [[0x30]] else Split(params)))
    else g
  }

  /** How many more bytes a UTF-8 lead byte announces. */
  function Continuations(b: byte): nat {
    if b < 0xe0 then 1 else if b < 0xf0 then 2 else 3
  }

  predicate IsContinuation(b: byte) {
    0x80 <= b < 0xc0
  }

  /** The bytes are one character in UTF-8 (section 4 of RFC 3629): in its shortest form, no surrogate, and nothing
      above 0x10ffff. */
  predicate OneChar(s: seq<byte>) {
    && (forall i :: 1 <= i < |s| ==> IsContinuation(s[i]))
    && if |s| == 2 then 0xc2 <= s[0] < 0xe0
       else if |s| == 3 then
         0xe0 <= s[0] < 0xf0 && (s[0] == 0xe0 ==> s[1] >= 0xa0) && (s[0] == 0xed ==> s[1] < 0xa0)
       else
         |s| == 4 && 0xf0 <= s[0] <= 0xf4 && (s[0] == 0xf0 ==> s[1] >= 0x90) && (s[0] == 0xf4 ==> s[1] < 0x90)
  }

  function Feed(t: Term, b: byte): (r: Term)
    requires t.Ok()
    ensures r.Ok() && r.cols == t.cols && r.rows == t.rows
  {
    match t.parser
    case Ground =>
      if b == IAC then t.(parser := Iac)
      else if b == ESC then t.(parser := Escape)
      else if b == 0x0d then t.(cx := 0)
      else if b == 0x0a then t.(cy := if t.cy + 1 < t.rows then t.cy + 1 else t.rows - 1)
      else if b == 0x08 then t.(cx := if t.cx == 0 then 0 else t.cx - 1)
      else if b < 0x20 then t
      else if b < 0x80 then t.Put([b])
      else t.(parser := Utf8(Continuations(b), [b]))
    case Iac =>
      if b == IAC then t.(parser := Ground).Put([0xc3, 0xbf])
      else if b == 0xfa then t.(parser := IacSub)
      else if 0xfb <= b <= 0xfe then t.(parser := IacOption)
      else t.(parser := Ground)
    case IacOption => t.(parser := Ground)
    case IacSub => if b == IAC then t.(parser := IacSubEnd) else t
    case IacSubEnd =>
      if b == 0xf0 then t.(parser := Ground) else if b == IAC then t else t.(parser := IacSub)
    case Escape =>
      if b == BRACKET then t.(parser := Csi([])) else t.(parser := Ground)
    case Csi(params) =>
      if 0x40 <= b <= 0x7e then Control(t, params, b) else t.(parser := Csi(params + [b]))
    case Utf8(need, got) =>
      if need > 1 then t.(parser := Utf8(need - 1, got + [b]))
      else
        var all := got + [b];
        t.(parser := Ground).Put(if OneChar(all) then all else [0x3f])
  }

  function FeedAll(t: Term, s: seq<byte>): (r: Term)
    requires t.Ok()
    ensures r.Ok() && r.cols == t.cols && r.rows == t.rows
    decreases |s|
  {
    if |s| == 0 then t else FeedAll(Feed(t, s[0]), s[1..])
  }

  lemma {:induction false} FeedConcat(t: Term, a: seq<byte>, b: seq<byte>)
    requires t.Ok()
    ensures FeedAll(t, a + b) == FeedAll(FeedAll(t, a), b)
    decreases |a|
  {
    if |a| == 0 {
      assert a + b == b;
    } else {
      FeedConcat(Feed(t, a[0]), a[1..], b);
      assert (a + b)[1..] == a[1..] + b;
    }
  }
}
