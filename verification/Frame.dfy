/** What one emitted cell does to the terminal: the step that keeps the mirror in agreement with the
    shadow buffer of dosshd/render.c. */
module Frame {
  import opened Bytes
  import opened Terminal
  import opened Ansi

  /** A glyph table: one printable glyph per CP437 code. */
  predicate Table(glyphs: seq<seq<byte>>) {
    |glyphs| == 256 && forall i :: 0 <= i < 256 ==> Glyph(glyphs[i])
  }

  /** The cell shows this character in these colours. */
  predicate Depicts(cell: Cell, glyphs: seq<seq<byte>>, ch: byte, at: byte)
    requires Table(glyphs)
  {
    cell.glyph == glyphs[ch] && Seen(cell.attr) == Vga(at)
  }

  /** Screen cell c of a cols-wide screen, in the grid of a terminal at least as wide. */
  function Pos(t: Term, cols: nat, c: nat): nat
    requires cols > 0
  {
    c / cols * t.cols + c % cols
  }

  predicate Fits(t: Term, cols: nat, rows: nat) {
    0 < cols <= t.cols && 0 < rows <= t.rows
  }

  lemma RowColumn(cols: nat, rows: nat, c: nat)
    requires cols > 0 && c < cols * rows
    ensures c / cols < rows && c % cols < cols
  {
    DivBelow(c, cols, rows);
  }

  lemma PosInGrid(t: Term, cols: nat, rows: nat, c: nat)
    requires t.Ok() && Fits(t, cols, rows) && c < cols * rows
    ensures Pos(t, cols, c) < |t.cells|
  {
    RowColumn(cols, rows, c);
    InGrid(t.cols, t.rows, c % cols, c / cols);
  }

  lemma PosInjective(t: Term, cols: nat, c: nat, d: nat)
    requires 0 < cols <= t.cols && Pos(t, cols, c) == Pos(t, cols, d)
    ensures c == d
  {
    DivModUnique(Pos(t, cols, c), t.cols, c / cols, c % cols);
    DivModUnique(Pos(t, cols, d), t.cols, d / cols, d % cols);
    assert c == cols * (c / cols) + c % cols && d == cols * (d / cols) + d % cols;
  }

  /** The terminal shows the first `hi` cells of the shadow. */
  ghost predicate Shows(t: Term, glyphs: seq<seq<byte>>, sh: seq<byte>, cols: nat, hi: nat) {
    && Table(glyphs) && cols > 0 && 2 * hi <= |sh|
    && forall c :: 0 <= c < hi ==>
         && Pos(t, cols, c) < |t.cells|
         && Depicts(t.cells[Pos(t, cols, c)], glyphs, sh[2 * c], sh[2 * c + 1])
  }

  /** Outside the first `cols` columns and `rows` rows there is nothing on the terminal. */
  ghost predicate BlankBeyond(t: Term, cols: nat, rows: nat) {
    t.cols > 0 && forall p :: 0 <= p < |t.cells| && (p % t.cols >= cols || p / t.cols >= rows) ==> t.cells[p] == BLANK
  }

  /** The cursor is where the DOS cursor is, as far as the terminal reaches. */
  predicate Parked(t: Term, row: byte, col: byte) {
    && t.cy == (if row as nat < t.rows then row as nat else t.rows - 1)
    && t.cx == (if col as nat < t.cols then col as nat else t.cols - 1)
  }

  /** A cell of the screen is not outside it. */
  lemma Within(t: Term, cols: nat, rows: nat, c: nat)
    requires t.Ok() && Fits(t, cols, rows) && c < cols * rows
    ensures Pos(t, cols, c) % t.cols < cols && Pos(t, cols, c) / t.cols < rows
  {
    RowColumn(cols, rows, c);
    DivModUnique(Pos(t, cols, c), t.cols, c / cols, c % cols);
  }

  /** After cell `last` has been written, the cursor is on the next cell of the same row, if there is one. */
  predicate CursorAfter(t: Term, cols: nat, last: int)
    requires cols > 0
  {
    last >= 0 && (last + 1) % cols != 0 ==> t.cx == (last + 1) % cols && t.cy == (last + 1) / cols
  }

  /** What a frame in progress relies on; if `blank`, there is nothing outside the screen. */
  ghost predicate InFrame(t: Term, glyphs: seq<seq<byte>>, sh: seq<byte>, cols: nat, rows: nat, shown: nat, last: int,
      sgr: int, blank: bool) {
    && t.Ok() && t.parser == Ground && Table(glyphs) && cols > 0
    && -1 <= sgr < 256 && (sgr >= 0 ==> Seen(t.cur) == Vga(sgr as byte))
    && (Fits(t, cols, rows) ==>
          Shows(t, glyphs, sh, cols, shown) && (blank ==> BlankBeyond(t, cols, rows)) && CursorAfter(t, cols, last))
  }

  /** The bytes of one cell: a move unless the cursor is already there, colours unless already set, the glyph. */
  function CellBytes(glyphs: seq<seq<byte>>, cols: nat, c: nat, ch: byte, at: byte, last: int, sgr: int): seq<byte>
    requires Table(glyphs) && cols > 0
  {
    (if c != last + 1 || c % cols == 0 then Cup(c / cols, c % cols) else [])
    + (if at as int != sgr then SgrSeq(at) else [])
    + glyphs[ch]
  }

  lemma FeedNothing(t: Term)
    requires t.Ok()
    ensures FeedAll(t, []) == t
  {
  }

  /** Before the glyph goes out, the cursor is on its cell and the colours are right. */
  lemma Positioned(t: Term, glyphs: seq<seq<byte>>, cols: nat, rows: nat, c: nat, ch: byte, at: byte, last: int,
      sgr: int) returns (u: Term)
    requires t.Ok() && t.parser == Ground && Table(glyphs) && cols > 0 && c < cols * rows
    requires sgr >= 0 ==> sgr < 256 && Seen(t.cur) == Vga(sgr as byte)
    requires Fits(t, cols, rows) ==> CursorAfter(t, cols, last)
    requires last >= -2
    ensures u.Ok() && u.parser == Ground && u.cells == t.cells && u.cols == t.cols && u.rows == t.rows
    ensures Seen(u.cur) == Vga(at)
    ensures Fits(t, cols, rows) ==> u.cx == c % cols && u.cy == c / cols
    ensures FeedAll(t, CellBytes(glyphs, cols, c, ch, at, last, sgr)) == u.Put(glyphs[ch])
  {
    hide FeedAll, Cup, SgrSeq, Seen, Vga, Glyph;
    var move := if c != last + 1 || c % cols == 0 then Cup(c / cols, c % cols) else [];
    var colour := if at as int != sgr then SgrSeq(at) else [];
    RowColumn(cols, rows, c);
    var m := FeedAll(t, move);
    CupEffect(t, c / cols, c % cols);
    FeedNothing(t);
    assert Fits(t, cols, rows) ==> m.cx == c % cols && m.cy == c / cols;
    u := FeedAll(m, colour);
    SgrEffect(m, at);
    FeedNothing(m);
    FeedConcat(t, move, colour);
    FeedConcat(t, move + colour, glyphs[ch]);
    GlyphEffect(u, glyphs[ch]);
  }

  /** Writing cell c brings it into agreement and keeps every other cell as it was. */
  lemma CellStep(t: Term, glyphs: seq<seq<byte>>, sh: seq<byte>, cols: nat, rows: nat, shown: nat, c: nat,
                 ch: byte, at: byte, last: int, sgr: int, blank: bool)
    requires 2 * c + 1 < |sh| && last >= -2
    requires InFrame(t, glyphs, sh, cols, rows, shown, last, sgr, blank) && c < cols * rows
    requires shown == c || (c < shown <= cols * rows)
    ensures InFrame(FeedAll(t, CellBytes(glyphs, cols, c, ch, at, last, sgr)), glyphs, sh[2 * c := ch][2 * c + 1 := at],
                    cols, rows, if shown == c then c + 1 else shown, c, at as int, blank)
  {
    hide FeedAll, Seen, Vga, Glyph;
    var u := Positioned(t, glyphs, cols, rows, c, ch, at, last, sgr);
    var v := u.Put(glyphs[ch]);
    if Fits(t, cols, rows) {
      PutShows(t, u, glyphs, sh, cols, rows, shown, c, ch, at);
      if blank {
        PutWithin(u, cols, rows, c, glyphs[ch]);
      }
      PutMoves(u, cols, rows, c, glyphs[ch]);
    }
  }

  lemma PutWithin(u: Term, cols: nat, rows: nat, c: nat, g: seq<byte>)
    requires u.Ok() && Fits(u, cols, rows) && c < cols * rows && u.cx == c % cols && u.cy == c / cols
    requires BlankBeyond(u, cols, rows)
    ensures BlankBeyond(u.Put(g), cols, rows)
  {
    Within(u, cols, rows, c);
  }

  lemma PutMoves(u: Term, cols: nat, rows: nat, c: nat, g: seq<byte>)
    requires u.Ok() && Fits(u, cols, rows) && c < cols * rows && u.cx == c % cols && u.cy == c / cols
    ensures CursorAfter(u.Put(g), cols, c)
  {
    var q, r := c / cols, c % cols;
    assert c + 1 == cols * q + (r + 1);
    if r + 1 < cols {
      DivModUnique(c + 1, cols, q, r + 1);
    } else {
      assert c + 1 == cols * (q + 1) by { MulDistr(cols, q, 1); }
      DivModUnique(c + 1, cols, q + 1, 0);
    }
  }

  lemma PutShows(t: Term, u: Term, glyphs: seq<seq<byte>>, sh: seq<byte>, cols: nat, rows: nat, shown: nat, c: nat,
      ch: byte, at: byte)
    requires 2 * c + 1 < |sh|
    requires t.Ok() && u.Ok() && u.cells == t.cells && u.cols == t.cols && u.rows == t.rows && Seen(u.cur) == Vga(at)
    requires Fits(t, cols, rows) && c < cols * rows && u.cx == c % cols && u.cy == c / cols
    requires Shows(t, glyphs, sh, cols, shown) && (shown == c || c < shown <= cols * rows)
    ensures Shows(u.Put(glyphs[ch]), glyphs, sh[2 * c := ch][2 * c + 1 := at], cols,
                  if shown == c then c + 1 else shown)
  {
    hide Seen, Vga, Glyph;
    var v := u.Put(glyphs[ch]);
    var sh' := sh[2 * c := ch][2 * c + 1 := at];
    var hi := if shown == c then c + 1 else shown;
    forall d | 0 <= d < hi
      ensures Pos(v, cols, d) < |v.cells| && Depicts(v.cells[Pos(v, cols, d)], glyphs, sh'[2 * d], sh'[2 * d + 1])
    {
      PosInGrid(t, cols, rows, d);
      if d != c {
        if Pos(t, cols, d) == Pos(t, cols, c) {
          PosInjective(t, cols, d, c);
        }
      }
    }
  }
}
