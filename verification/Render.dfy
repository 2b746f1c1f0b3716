/** The screen renderer of dosshd/render.c: a shadow of what the terminal shows, and the shortest stream
    of bytes that keeps the two in agreement, in bounded pieces. */
module Render {
  import opened Bytes
  import opened Terminal
  import opened Ansi
  import opened Frame

  const OBUF := 2048
  const SHADOW_BYTES := 4000
  const CADENCE_TICKS := 36
  const HEAL_TICKS := 72

  /** What a call sees of the machine: the BIOS data area's geometry and cursor, and video memory. */
  datatype Screen = Screen(bdaCols: byte, bdaRows: byte, mem: seq<byte>, curRow: byte, curCol: byte, visible: bool) {
    predicate Ok() { |mem| == 0x8000 }

    function Cols(): (c: nat)
      ensures 0 < c <= 132
    {
      if bdaCols == 0 || bdaCols > 132 then 80 else bdaCols as nat
    }

    function Rows(): (r: nat)
      ensures 0 < r <= 60
    {
      if bdaRows as nat + 1 > 60 then 25 else bdaRows as nat + 1
    }

    function Cells(): (n: nat)
      ensures 0 < n <= 7920
    {
      MulBound(Cols(), Rows(), 132);
      MulBound(Rows(), 132, 60);
      MulAtLeast(Cols(), Rows());
      Cols() * Rows()
    }

    /** The mode is small enough to be shadowed. */
    predicate Shadowed() { 2 * Cells() <= SHADOW_BYTES }
  }

  /** `(long)(now - then)` on 32-bit tick counts. */
  function Elapsed(now: nat, then_: nat): int {
    var d := (now - then_) % 0x1_0000_0000;
    if d < 0x8000_0000 then d else d - 0x1_0000_0000
  }

  /** Ticks up to half the range ahead are measured as they are, across the wrap-around as well. */
  lemma ElapsedSpans(then_: nat, d: nat)
    requires then_ < 0x1_0000_0000 && d < 0x8000_0000
    ensures Elapsed((then_ + d) % 0x1_0000_0000, then_) == d
    ensures d > 0 ==> Elapsed(then_, (then_ + d) % 0x1_0000_0000) == -(d as int)
  {
  }

  /** A mode of c columns and r rows, which the BIOS data area records as c and r - 1. */
  lemma Geometry(scr: Screen, c: nat, r: nat)
    requires 0 < c <= 132 && 0 < r <= 60 && scr.bdaCols as nat == c && scr.bdaRows as nat == r - 1
    ensures scr.Cols() == c && scr.Rows() == r && scr.Cells() == c * r
  {
  }

  class Renderer {
    const glyphs: seq<seq<byte>>
    const obuf: array<byte>
    var o_len: nat
    var o_off: nat
    var pushed: int
    const shadow: array<byte>
    var shadow_valid: bool
    var sh_cols: nat
    var sh_rows: nat
    var force_kf: bool
    var last_kf: nat
    var heal_kf: nat
    var frame_active: bool
    var is_repaint: bool
    var is_toobig: bool
    var walk_cell: nat
    var total_cells: nat
    var f_cols: nat
    ghost var f_rows: nat
    var last_emit: int
    var cur_sgr: int
    var last_cur_r: byte
    var last_cur_c: byte
    /** Whether the last frame showed the cursor. */
    ghost var last_shown: bool
    /** The terminal, fed with every byte handed out and not handed back. */
    ghost var tty: Term
    /** Video memory as it was when the frame began, and whether it has stayed so. */
    ghost var seen: seq<byte>
    ghost var steady: bool
    /** How many frames have been started. */
    ghost var frames: nat
    /** Whether the terminal still shows what has been painted, and nothing outside the screen: bytes may get lost. */
    ghost var known: bool
    ghost var blank: bool

    /** Bytes rendered but not yet handed out. */
    ghost function Pending(): seq<byte>
      requires o_off <= o_len <= obuf.Length && -1 <= pushed < 256
      reads this`o_len, this`o_off, this`pushed, obuf
    {
      (if pushed >= 0 then [pushed as byte] else []) + obuf[o_off..o_len]
    }

    /** The terminal as it will be once they have arrived. */
    ghost function Mirror(): (t: Term)
      requires o_off <= o_len <= obuf.Length && -1 <= pushed < 256 && tty.Ok()
      reads this`o_len, this`o_off, this`pushed, this`tty, obuf
      ensures t.Ok()
    {
      FeedAll(tty, Pending())
    }

    ghost predicate Buffers()
      reads this`o_len, this`o_off, this`pushed, this`tty, obuf
      ensures Buffers() ==> o_off <= o_len <= OBUF == obuf.Length && -1 <= pushed < 256 && tty.Ok()
      ensures Buffers() ==> Table(glyphs) && shadow.Length == SHADOW_BYTES && obuf != shadow
    {
      && obuf.Length == OBUF && shadow.Length == SHADOW_BYTES && obuf != shadow && Table(glyphs)
      && o_off <= o_len <= OBUF && -1 <= pushed < 256 && tty.Ok()
      && Interrupted(tty.parser) && Plain(Pending())
    }

    /** The frame counters. */
    ghost predicate Counters()
      reads this
    {
      && 0 < f_cols <= 132 && 0 < f_rows <= 60 && total_cells == f_cols * f_rows && 0 < total_cells <= 7920
      && walk_cell <= total_cells && -2 <= last_emit && -1 <= cur_sgr < 256
      && (is_toobig <==> 2 * total_cells > SHADOW_BYTES) && (is_toobig ==> is_repaint)
      && sh_cols == f_cols && sh_rows == f_rows
      && (!is_repaint ==> !force_kf && shadow_valid)
    }

    /** How many cells the terminal is known to show during a frame. */
    ghost function Shown(): nat
      reads this
    {
      if is_repaint then walk_cell else total_cells
    }

    /** A frame in progress: what has been painted so far agrees with the shadow, and where video memory has
        stayed put, the shadow agrees with it. */
    ghost predicate Painting()
      requires Buffers()
      reads this, obuf, shadow
    {
      && Counters() && Mirror().parser == Ground && (known || is_repaint || !blank)
      && (!is_toobig && (known || is_repaint) ==>
            InFrame(Mirror(), glyphs, shadow[..], f_cols, f_rows, Shown(), last_emit, cur_sgr, blank))
      && Tracks()
    }

    /** Where video memory has stayed put since the frame began, the shadow has caught up with it. */
    ghost predicate Tracks()
      reads this`is_toobig, this`steady, this`seen, this`walk_cell, shadow
    {
      !is_toobig && steady ==>
        && |seen| == 0x8000 && 2 * walk_cell <= shadow.Length == SHADOW_BYTES
        && forall k :: 0 <= k < 2 * walk_cell ==> shadow[k] == seen[k]
    }

    /** Between frames: the terminal shows the shadow and nothing else, and its cursor is where the last frame put it,
        unless a full repaint is owed or something has been lost. */
    ghost predicate Resting()
      requires Buffers()
      reads this`o_len, this`o_off, this`pushed, this`tty, obuf, this`force_kf, this`shadow_valid, this`sh_cols,
            this`sh_rows, this`last_cur_r, this`last_cur_c, this`last_shown, this`known, this`blank, shadow
    {
      (known || !blank) &&
      (!force_kf && known ==>
        && Mirror().parser == Ground && Parked(Mirror(), last_cur_r, last_cur_c) && Mirror().shown == last_shown
        && (shadow_valid && 2 * (sh_cols * sh_rows) <= SHADOW_BYTES && Fits(Mirror(), sh_cols, sh_rows) ==>
              && Shows(Mirror(), glyphs, shadow[..], sh_cols, sh_cols * sh_rows)
              && (blank ==> BlankBeyond(Mirror(), sh_cols, sh_rows))))
    }

    /** The shadow holds the first `cells` cells of video memory. */
    ghost predicate Caught(mem: seq<byte>, cells: nat)
      reads shadow
    {
      && shadow.Length == SHADOW_BYTES && |mem| == 0x8000 && 2 * cells <= SHADOW_BYTES
      && forall k :: 0 <= k < 2 * cells ==> shadow[k] == mem[k]
    }

    ghost predicate Valid()
      reads this, obuf, shadow
    {
      && Buffers()
      && (frame_active ==> Painting() && walk_cell < total_cells)
      && (!frame_active ==> Resting())
    }

    /** render_reset, or the initial state: whatever the terminal shows and wherever its parser stands. */
    method Reset(now: nat)
      requires Valid()
      modifies this
      ensures Valid() && force_kf && !frame_active && !shadow_valid && Pending() == [] && tty == old(tty)
      ensures heal_kf == now && known && blank
    {
      hide Buffers, Pending, Mirror, FeedAll, Table;
      Forget(now);
      Emptied();
    }

    method Forget(now: nat)
      modifies this`shadow_valid, this`force_kf, this`frame_active, this`o_len, this`o_off, this`pushed,
               this`cur_sgr, this`last_emit,
               this`last_cur_r, this`last_cur_c, this`heal_kf, this`known, this`blank
      ensures known && blank
      ensures !shadow_valid && force_kf && !frame_active && o_len == o_off == 0 && pushed == -1 && heal_kf == now
    {
      shadow_valid, force_kf, frame_active := false, true, false;
      o_len, o_off, pushed := 0, 0, -1;
      cur_sgr, last_emit, last_cur_r, last_cur_c := -1, -2, 255, 255;
      heal_kf := now;
      known, blank := true, true;
    }

    /** Discarding the buffer keeps its invariant, whatever was in it. */
    twostate lemma Emptied()
      requires old(Buffers()) && tty == old(tty) && o_len == o_off == 0 && pushed == -1
      ensures Buffers() && Pending() == []
    {
      hide Table;
    }

    constructor (glyphs: seq<seq<byte>>, ghost terminal: Term)
      requires Table(glyphs) && terminal.Ok() && Interrupted(terminal.parser)
      ensures Valid() && force_kf && !frame_active && Pending() == [] && tty == terminal && fresh(obuf) && fresh(shadow)
      ensures known && blank
    {
      hide Table;
      this.glyphs := glyphs;
      obuf := new byte[OBUF](_ => 0);
      shadow := new byte[SHADOW_BYTES](_ => 0);
      o_len, o_off, pushed := 0, 0, -1;
      shadow_valid, sh_cols, sh_rows, force_kf := false, 0, 0, true;
      last_kf, heal_kf := 0, 0;
      frame_active, is_repaint, is_toobig := false, false, false;
      walk_cell, total_cells, f_cols, f_rows := 0, 0, 0, 0;
      last_emit, cur_sgr, last_cur_r, last_cur_c := 0, 0, 255, 255;
      tty := terminal;
      seen, steady, frames, known, blank := [], false, 0, true, true;
    }

    // ----- emitters -----

    /** Appending to the buffer feeds the mirror. */
    twostate lemma Grown(s: seq<byte>)
      requires old(Buffers()) && Buffers() && tty == old(tty) && Pending() == old(Pending()) + s
      ensures Mirror() == FeedAll(old(Mirror()), s)
    {
      hide FeedAll, Table, Interrupted, Plain;
      FeedConcat(tty, old(Pending()), s);
    }

    /** e_s and e_char. The buffer guard of e_b never refuses a byte: every caller has room. */
    method Emit(s: seq<byte>)
      requires Buffers() && o_len + |s| <= OBUF && Plain(s)
      modifies this`o_len, obuf
      ensures Buffers() && o_len == old(o_len) + |s| && Pending() == old(Pending()) + s
    {
      hide Table, Interrupted;
      var i := 0;
      while i < |s|
        invariant 0 <= i <= |s| && o_len == old(o_len) + i && o_off <= o_len <= OBUF
        invariant obuf[o_off..o_len] == old(obuf[o_off..o_len]) + s[..i]
      {
        if o_len < OBUF {
          obuf[o_len] := s[i];
          o_len := o_len + 1;
        }
        i := i + 1;
      }
      assert s[..i] == s;
      assert Pending() == old(Pending()) + s;
    }

    /** e_num: digits are collected low first and written high first. */
    method EmitNum(v: nat)
      requires Buffers() && o_len + |Decimal(v)| <= OBUF
      modifies this`o_len, obuf
      ensures Buffers() && o_len == old(o_len) + |Decimal(v)| && Pending() == old(Pending()) + Decimal(v)
    {
      hide Buffers, Pending;
      if v == 0 {
        assert [0x30] == Decimal(0);
        Emit([0x30]);
        return;
      }
      var t: seq<byte> := [];
      var n := v;
      while n > 0
        invariant Decimal(v) == (if n > 0 then Decimal(n) else []) + t
      {
        t := [(0x30 + n % 10) as byte] + t;
        n := n / 10;
      }
      assert t == Decimal(v);
      Emit(t);
    }

    method EmitCup(row: nat, col: nat)
      requires Buffers() && o_len + |Cup(row, col)| <= OBUF
      modifies this`o_len, obuf
      ensures Buffers() && o_len == old(o_len) + |Cup(row, col)| && Pending() == old(Pending()) + Cup(row, col)
    {
      hide Decimal, Buffers, Pending;
      Emit([ESC, BRACKET]);
      EmitNum(row + 1);
      Emit([SEMI]);
      EmitNum(col + 1);
      Emit([0x48]);
      assert Cup(row, col) == [ESC, BRACKET] + Decimal(row + 1) + [SEMI] + Decimal(col + 1) + [0x48];
    }

    method EmitSgr(at: byte)
      requires Buffers() && o_len + |SgrSeq(at)| <= OBUF
      modifies this`o_len, obuf
      ensures Buffers() && o_len == old(o_len) + |SgrSeq(at)| && Pending() == old(Pending()) + SgrSeq(at)
    {
      hide Decimal, FgCode, BgCode, Buffers, Pending;
      ghost var blink: seq<byte> := if at >= 0x80 then [SEMI, 0x35] else [];
      assert SgrSeq(at) == SgrHead(at) + (blink + [0x6d]);
      EmitSgrHead(at);
      if at >= 0x80 {
        Emit([SEMI, 0x35]);
      }
      Emit([0x6d]);
      assert Pending() == old(Pending()) + SgrHead(at) + (blink + [0x6d]);
    }

    ghost function SgrHead(at: byte): seq<byte> {
      [ESC, BRACKET, 0x30, SEMI] + Decimal(FgCode(at)) + [SEMI] + Decimal(BgCode(at))
    }

    method EmitSgrHead(at: byte)
      requires Buffers() && o_len + |SgrHead(at)| <= OBUF
      modifies this`o_len, obuf
      ensures Buffers() && o_len == old(o_len) + |SgrHead(at)| && Pending() == old(Pending()) + SgrHead(at)
    {
      hide Decimal, FgCode, BgCode, Buffers, Pending;
      Emit([ESC, BRACKET, 0x30, SEMI]);
      EmitNum(FgCode(at));
      Emit([SEMI]);
      EmitNum(BgCode(at));
    }

    /** The emission of one changed cell in frame_fill: at most 24 bytes. */
    method EmitCell(c: nat, ch: byte, at: byte)
      requires Buffers() && Table(glyphs) && 0 < f_cols <= 132 && c / f_cols < 60 && o_len + 24 <= OBUF
      modifies this`o_len, obuf
      ensures Buffers() && old(o_len) < o_len <= old(o_len) + 24
      ensures Pending() == old(Pending()) + CellBytes(glyphs, f_cols, c, ch, at, last_emit, cur_sgr)
    {
      hide Cup, SgrSeq, Plain, Buffers, Pending;
      var row, col := c / f_cols, c % f_cols;
      CupLength(row, col);
      SgrLength(at);
      ghost var move, colour: seq<byte> := [], [];
      if c != last_emit + 1 || col == 0 {
        EmitCup(row, col);
        move := Cup(row, col);
      }
      if at as int != cur_sgr {
        EmitSgr(at);
        colour := SgrSeq(at);
      }
      GlyphPlain(glyphs[ch]);
      Emit(glyphs[ch]);
      assert Pending() == old(Pending()) + (move + colour + glyphs[ch]);
    }

    // ----- a frame -----

    /** One turn of the loop of frame_fill. */
    method FillCell(scr: Screen)
      requires Buffers() && Painting() && walk_cell < total_cells && o_len + 48 <= OBUF && scr.Ok()
      requires steady ==> seen == scr.mem
      modifies this`o_len, this`walk_cell, this`last_emit, this`cur_sgr, obuf, shadow
      ensures Buffers() && Painting() && walk_cell == old(walk_cell) + 1
      ensures old(o_len) <= o_len <= old(o_len) + 24
      ensures is_repaint ==> o_len > old(o_len)
      ensures forall n: nat :: old(Caught(scr.mem, n)) ==> Caught(scr.mem, n)
    {
      hide Buffers, Pending, FeedAll, InFrame, CellBytes, Table, Mirror;
      var idx := 2 * walk_cell;
      var ch, at := scr.mem[idx], scr.mem[idx + 1];
      if is_toobig {
        PaintBig(ch, at);
      } else if is_repaint || ch != shadow[idx] || at != shadow[idx + 1] {
        PaintCell(ch, at);
      } else {
        walk_cell := walk_cell + 1;
      }
    }

    /** A changed cell of a shadowed mode. */
    method PaintCell(ch: byte, at: byte)
      requires Buffers() && Painting() && walk_cell < total_cells && o_len + 48 <= OBUF && !is_toobig
      requires steady ==> |seen| == 0x8000 && seen[2 * walk_cell] == ch && seen[2 * walk_cell + 1] == at
      modifies this`o_len, this`walk_cell, this`last_emit, this`cur_sgr, obuf, shadow
      ensures Buffers() && Painting() && walk_cell == old(walk_cell) + 1
      ensures old(o_len) < o_len <= old(o_len) + 24
      ensures shadow[..] == old(shadow[..])[2 * old(walk_cell) := ch][2 * old(walk_cell) + 1 := at]
    {
      hide Buffers, Pending, FeedAll, CellBytes, Table, Mirror, InFrame;
      ghost var m, sh := Mirror(), shadow[..];
      var c := walk_cell;
      RowColumn(f_cols, f_rows, c);
      EmitCell(c, ch, at);
      Grown(CellBytes(glyphs, f_cols, c, ch, at, last_emit, cur_sgr));
      if known || is_repaint {
        CellStep(m, glyphs, sh, f_cols, f_rows, Shown(), c, ch, at, last_emit, cur_sgr, blank);
      }
      GroundAfterCell(m, glyphs, f_cols, c, ch, at, last_emit, cur_sgr);
      StoreCell(c, ch, at);
      Advance(c, at);
    }

    method StoreCell(c: nat, ch: byte, at: byte)
      requires 2 * c + 1 < shadow.Length
      modifies shadow
      ensures shadow[..] == old(shadow[..])[2 * c := ch][2 * c + 1 := at]
    {
      shadow[2 * c] := ch;
      shadow[2 * c + 1] := at;
    }

    method Advance(c: nat, at: byte)
      modifies this`cur_sgr, this`last_emit, this`walk_cell
      ensures cur_sgr == at as int && last_emit == c && walk_cell == c + 1
    {
      cur_sgr := at as int;
      last_emit := c;
      walk_cell := c + 1;
    }

    /** A cell of a mode too large for the shadow. */
    method PaintBig(ch: byte, at: byte)
      requires Buffers() && Painting() && walk_cell < total_cells && o_len + 48 <= OBUF && is_toobig
      modifies this`o_len, this`walk_cell, this`last_emit, this`cur_sgr, obuf
      ensures Buffers() && Painting() && walk_cell == old(walk_cell) + 1
      ensures old(o_len) < o_len <= old(o_len) + 24
    {
      hide Buffers, Pending, FeedAll, CellBytes, Table, Mirror, InFrame;
      ghost var m := Mirror();
      var c := walk_cell;
      RowColumn(f_cols, f_rows, c);
      EmitCell(c, ch, at);
      Grown(CellBytes(glyphs, f_cols, c, ch, at, last_emit, cur_sgr));
      GroundAfterCell(m, glyphs, f_cols, c, ch, at, last_emit, cur_sgr);
      Advance(c, at);
    }
    // ----- starting a frame -----

    /** The header: auto-wrap off, cursor hidden, and for a hard clear erase and home. */
    method Header(clear: bool)
      requires Buffers() && Pending() == [] && o_len == 0
      modifies this`o_len, obuf
      ensures Buffers() && 0 < o_len <= 18
      ensures Mirror().parser == Ground
      ensures !clear && old(Mirror()).parser == Ground ==> Mirror() == old(Mirror()).(shown := false)
      ensures clear ==> forall p :: 0 <= p < |Mirror().cells| ==> Mirror().cells[p] == BLANK
      ensures Mirror().cols == old(Mirror()).cols && Mirror().rows == old(Mirror()).rows
    {
      hide Buffers, Pending, FeedAll, Table, Mirror;
      ghost var t := Mirror();
      assert t == tty && Interrupted(t.parser) by { Fresh(); }
      Emit(NO_WRAP);
      Grown(NO_WRAP);
      ghost var u := Mirror();
      Resynchronise(t);
      if t.parser == Ground {
        ModesEffect(t);
      }
      label hide_: Emit(HIDE);
      Grown@hide_(HIDE);
      ModesEffect(u);
      if clear {
        u := Mirror();
        label erase: Emit(ERASE);
        Grown@erase(ERASE);
        EraseEffect(u);
        ghost var w := Mirror();
        label home: Emit(HOME);
        Grown@home(HOME);
        EraseEffect(w);
      }
    }

    lemma Fresh()
      requires Buffers() && Pending() == []
      ensures Mirror() == tty && Interrupted(tty.parser)
    {
      hide Table;
    }

    /** The second half of frame_decide: the counters and the header of a frame that is to be sent. */
    method StartFrame(clear: bool, repaint: bool, scr: Screen)
      requires Buffers() && Resting() && !frame_active && Pending() == [] && o_len == 0 && scr.Ok()
      requires clear ==> repaint
      requires !clear ==> !force_kf && shadow_valid && sh_cols == scr.Cols() && sh_rows == scr.Rows()
      requires !repaint ==> scr.Shadowed()
      requires is_toobig == !scr.Shadowed()
      modifies this`o_len, obuf, this`sh_cols, this`sh_rows, this`f_cols, this`f_rows, this`total_cells,
               this`is_repaint, this`blank,
               this`walk_cell, this`last_emit, this`cur_sgr, this`frame_active, this`seen, this`steady, this`frames
      ensures Buffers() && Painting() && frame_active && walk_cell == 0 < total_cells && 0 < o_len <= 18
      ensures blank == (clear || old(blank))
      ensures f_cols == scr.Cols() && f_rows == scr.Rows() && total_cells == scr.Cells() && is_repaint == repaint
      ensures sh_cols == f_cols && sh_rows == f_rows
      ensures seen == scr.mem && steady && frames == old(frames) + 1
    {
      hide Buffers, Pending, FeedAll, Table, Mirror, Shows, Screen.Cols, Screen.Rows, Screen.Cells, InFrame, Fits,
           Resting, Painting, Screen.Shadowed, BlankBeyond;
      BufferFacts();
      RestsBlank();
      if !clear && known {
        Rested(scr);
      }
      ghost var m, sh := Mirror(), shadow[..];
      Lay(clear, repaint, scr);
      if clear || known {
        Headed(m, Mirror(), clear, repaint, sh, scr);
      }
      blank := blank || clear;
      Opened(scr);
    }

    lemma RestsBlank()
      requires Buffers() && Resting()
      ensures known || !blank
    {
      hide Buffers, Mirror, Shows;
    }

    /** Counters, header and geometry. */
    method Lay(clear: bool, repaint: bool, scr: Screen)
      requires Buffers() && Pending() == [] && o_len == 0
      modifies this`o_len, obuf, this`sh_cols, this`sh_rows, this`f_cols, this`f_rows, this`total_cells,
               this`is_repaint,
               this`walk_cell, this`last_emit, this`cur_sgr, this`frame_active, this`seen, this`steady, this`frames
      ensures Buffers() && 0 < o_len <= 18 && Mirror().parser == Ground && shadow[..] == old(shadow[..])
      ensures !clear && old(Mirror()).parser == Ground ==> Mirror() == old(Mirror()).(shown := false)
      ensures clear ==> forall p :: 0 <= p < |Mirror().cells| ==> Mirror().cells[p] == BLANK
      ensures Mirror().cols == old(Mirror()).cols && Mirror().rows == old(Mirror()).rows
      ensures f_cols == scr.Cols() && f_rows == scr.Rows() && total_cells == scr.Cells() && is_repaint == repaint
      ensures walk_cell == 0 && last_emit == -2 && cur_sgr == -1 && frame_active
      ensures seen == scr.mem && steady && frames == old(frames) + 1
      ensures sh_cols == (if repaint then scr.Cols() else old(sh_cols))
      ensures sh_rows == if repaint then scr.Rows() else old(sh_rows)
    {
      hide Buffers, Pending, FeedAll, Table, Mirror, Screen.Cols, Screen.Rows, Screen.Cells;
      BufferFacts();
      ghost var m, sh := Mirror(), shadow[..];
      SetCounters(repaint, scr);
      assert m == Mirror();
      Header(clear);
      assert shadow[..] == sh;
      SetGeometry(repaint, scr);
    }

    method SetGeometry(repaint: bool, scr: Screen)
      modifies this`sh_cols, this`sh_rows
      ensures sh_cols == (if repaint then scr.Cols() else old(sh_cols))
      ensures sh_rows == if repaint then scr.Rows() else old(sh_rows)
    {
      if repaint {
        sh_cols, sh_rows := scr.Cols(), scr.Rows();
      }
    }

    method SetCounters(repaint: bool, scr: Screen)
      modifies this`f_cols, this`f_rows, this`total_cells, this`is_repaint, this`walk_cell, this`last_emit,
               this`cur_sgr,
               this`frame_active, this`seen, this`steady, this`frames
      ensures f_cols == scr.Cols() && f_rows == scr.Rows() && total_cells == scr.Cells() && is_repaint == repaint
      ensures walk_cell == 0 && last_emit == -2 && cur_sgr == -1 && frame_active
      ensures seen == scr.mem && steady && frames == old(frames) + 1
    {
      f_cols, f_rows, total_cells := scr.Cols(), scr.Rows(), scr.Cells();
      is_repaint, walk_cell := repaint, 0;
      last_emit, cur_sgr, frame_active := -2, -1, true;
      seen, steady, frames := scr.mem, true, frames + 1;
    }

    lemma Rested(scr: Screen)
      requires Buffers() && Resting() && !force_kf && known
      requires shadow_valid && sh_cols == scr.Cols() && sh_rows == scr.Rows()
      ensures Mirror().parser == Ground
      ensures scr.Shadowed() && Fits(Mirror(), scr.Cols(), scr.Rows()) ==>
                && Shows(Mirror(), glyphs, shadow[..], scr.Cols(), scr.Cells())
                && (blank ==> BlankBeyond(Mirror(), scr.Cols(), scr.Rows()))
    {
      hide Buffers, Pending, FeedAll, Table, Mirror, Shows, Screen.Cols, Screen.Rows, Fits;
    }

    /** The header leaves the picture alone, or nothing of it. */
    lemma Headed(m: Term, t: Term, clear: bool, repaint: bool, sh: seq<byte>, scr: Screen)
      requires t.Ok() && t.cols == m.cols && t.rows == m.rows && (clear ==> repaint)
      requires if clear then forall p :: 0 <= p < |t.cells| ==> t.cells[p] == BLANK else t == m.(shown := false)
      requires !repaint && Fits(m, scr.Cols(), scr.Rows()) ==> Shows(m, glyphs, sh, scr.Cols(), scr.Cells())
      requires !clear && blank && scr.Shadowed() && Fits(m, scr.Cols(), scr.Rows()) ==>
                 BlankBeyond(m, scr.Cols(), scr.Rows())
      ensures !repaint && Fits(t, scr.Cols(), scr.Rows()) ==> Shows(t, glyphs, sh, scr.Cols(), scr.Cells())
      ensures (clear || blank) && scr.Shadowed() && Fits(t, scr.Cols(), scr.Rows()) ==>
                BlankBeyond(t, scr.Cols(), scr.Rows())
    {
      hide Table, Depicts, Screen.Cols, Screen.Rows, Screen.Cells, Screen.Shadowed, Shows, BlankBeyond, Fits;
      var cols, rows := scr.Cols(), scr.Rows();
      if clear {
        AllBlank(t, cols, rows);
      } else {
        HiddenCursor(m, cols, rows, sh, scr.Cells());
      }
      assert Fits(t, cols, rows) ==> Fits(m, cols, rows) by { SameSize(m, t, cols, rows); }
    }

    lemma AllBlank(t: Term, cols: nat, rows: nat)
      requires t.cols > 0 && forall p :: 0 <= p < |t.cells| ==> t.cells[p] == BLANK
      ensures BlankBeyond(t, cols, rows)
    {
    }

    lemma SameSize(m: Term, t: Term, cols: nat, rows: nat)
      requires t.cols == m.cols && t.rows == m.rows
      ensures Fits(t, cols, rows) == Fits(m, cols, rows)
    {
    }

    lemma HiddenCursor(m: Term, cols: nat, rows: nat, sh: seq<byte>, hi: nat)
      ensures Shows(m, glyphs, sh, cols, hi) ==> Shows(m.(shown := false), glyphs, sh, cols, hi)
      ensures BlankBeyond(m, cols, rows) ==> BlankBeyond(m.(shown := false), cols, rows)
    {
      hide Table, Depicts;
      var t := m.(shown := false);
      if Shows(m, glyphs, sh, cols, hi) {
        forall c | 0 <= c < hi
          ensures Pos(t, cols, c) < |t.cells| && Depicts(t.cells[Pos(t, cols, c)], glyphs, sh[2 * c], sh[2 * c + 1])
        {
          assert Pos(t, cols, c) == Pos(m, cols, c);
        }
      }
    }

    lemma Opened(scr: Screen)
      requires Buffers() && Mirror().parser == Ground && scr.Ok()
      requires f_cols == scr.Cols() && f_rows == scr.Rows() && total_cells == scr.Cells()
      requires is_toobig == !scr.Shadowed()
      requires walk_cell == 0 && last_emit == -2 && cur_sgr == -1 && sh_cols == f_cols && sh_rows == f_rows
      requires seen == scr.mem && (known || is_repaint || !blank)
      requires is_toobig ==> is_repaint
      requires !is_repaint ==> !force_kf && shadow_valid
      requires !is_repaint && known && Fits(Mirror(), f_cols, f_rows) ==>
                 Shows(Mirror(), glyphs, shadow[..], f_cols, total_cells)
      requires blank && scr.Shadowed() && Fits(Mirror(), f_cols, f_rows) ==> BlankBeyond(Mirror(), f_cols, f_rows)
      ensures Painting()
    {
      hide Buffers, Pending, FeedAll, Table, Mirror, Shows, Screen.Cols, Screen.Rows, InFrame, Fits;
      BufferFacts();
      if !is_toobig && (known || is_repaint) {
        FrameOpens(Mirror(), glyphs, shadow[..], f_cols, f_rows, Shown(), blank);
      }
    }

    lemma BufferFacts()
      requires Buffers()
      ensures Table(glyphs) && shadow.Length == SHADOW_BYTES && obuf.Length == OBUF && obuf != shadow
    {
    }

    /** The diff pass of frame_decide. */
    method CountChanges(scr: Screen) returns (changed: nat)
      requires scr.Ok() && scr.Shadowed() && shadow.Length == SHADOW_BYTES
      ensures changed == Changes(scr.mem, shadow[..], scr.Cells())
    {
      changed := 0;
      var c := 0;
      while c < scr.Cells()
        invariant c <= scr.Cells() && changed == Changes(scr.mem, shadow[..], c)
      {
        if scr.mem[2 * c] != shadow[2 * c] || scr.mem[2 * c + 1] != shadow[2 * c + 1] {
          changed := changed + 1;
        }
        c := c + 1;
      }
    }

    /** Nothing is owed on this screen: same geometry as the shadow, same cells, same cursor. */
    ghost predicate Still(scr: Screen)
      reads this`force_kf, this`shadow_valid, this`sh_cols, this`sh_rows, this`last_cur_r, this`last_cur_c, shadow
    {
      && scr.Ok() && scr.Shadowed() && !force_kf && shadow_valid && sh_cols == scr.Cols() && sh_rows == scr.Rows()
      && Caught(scr.mem, scr.Cells()) && last_cur_r == scr.curRow && last_cur_c == scr.curCol
    }

    /** A repaint is due although nothing may have changed: the last one is 36 ticks old, and on the network the
        screen has changed in the last 72. */
    ghost predicate Due(serial: bool, now: nat)
      reads this`last_kf, this`heal_kf
    {
      Elapsed(now, last_kf) >= CADENCE_TICKS && (serial || Elapsed(now, heal_kf) < HEAL_TICKS)
    }

    /** The shadow is of a screen of this geometry, and no full repaint is owed. */
    ghost predicate Matches(scr: Screen)
      reads this`force_kf, this`shadow_valid, this`sh_cols, this`sh_rows
    {
      !force_kf && shadow_valid && sh_cols == scr.Cols() && sh_rows == scr.Rows()
    }

    /** More than three quarters of its cells have changed. */
    ghost predicate MostlyChanged(scr: Screen)
      reads shadow
    {
      scr.Ok() && scr.Shadowed() && shadow.Length == SHADOW_BYTES
      && Changes(scr.mem, shadow[..], scr.Cells()) * 4 > scr.Cells() * 3
    }

    /** frame_decide: a frame of a shadowed mode repaints everything exactly when the shadow is of no use, a repaint
        is due, or most of the screen has changed; a change seen otherwise opens the window in which repaints fall
        due. */
    method FrameDecide(serial: bool, scr: Screen, now: nat)
      requires Buffers() && Resting() && !frame_active && Pending() == [] && o_len == 0 && scr.Ok()
      modifies this`o_len, obuf, this`sh_cols, this`sh_rows, this`f_cols, this`f_rows, this`total_cells,
               this`is_repaint,
               this`walk_cell, this`last_emit, this`cur_sgr, this`frame_active, this`seen, this`steady, this`frames,
               this`is_toobig, this`heal_kf, this`blank
      ensures Buffers() && is_toobig == !scr.Shadowed() && (old(blank) ==> blank)
      ensures frame_active ==>
                && Painting() && walk_cell == 0 < total_cells && 0 < o_len <= 18 && seen == scr.mem && steady
                && frames == old(frames) + 1 && f_cols == scr.Cols() && f_rows == scr.Rows()
                && total_cells == scr.Cells()
      ensures !frame_active ==> Resting() && Pending() == [] && frames == old(frames) && heal_kf == old(heal_kf)
      ensures !frame_active && scr.Shadowed() ==> Still(scr)
      ensures old(Still(scr)) ==> Still(scr) && heal_kf == old(heal_kf)
      ensures old(Still(scr)) && !serial && Elapsed(now, heal_kf) >= HEAL_TICKS ==> !frame_active
      ensures old(force_kf) || (scr.Shadowed() && old(Due(serial, now))) ==> frame_active && is_repaint
      ensures scr.Shadowed() && old(Still(scr)) && !old(Due(serial, now)) ==> !frame_active
      ensures scr.Shadowed() && frame_active ==>
                (is_repaint <==> !old(Matches(scr)) || old(Due(serial, now)) || old(MostlyChanged(scr)))
      ensures scr.Shadowed() && old(Matches(scr)) && !old(Due(serial, now)) && !old(Caught(scr.mem, scr.Cells())) ==>
                heal_kf == now
    {
      hide Buffers, Pending, FeedAll, Table, Mirror, Shows, Changes, Resting, Elapsed, Painting;
      BufferFacts();
      is_toobig := !scr.Shadowed();
      var clear := force_kf || !shadow_valid || scr.Cols() != sh_cols || scr.Rows() != sh_rows;
      var repaint := clear;
      if !repaint && Elapsed(now, last_kf) >= CADENCE_TICKS && (serial || Elapsed(now, heal_kf) < HEAL_TICKS) {
        repaint := true;
      }
      if is_toobig {
        repaint := force_kf || Elapsed(now, last_kf) >= CADENCE_TICKS;
        clear := repaint;
        if !repaint {
          return;
        }
      }
      if !repaint {
        var changed := CountChanges(scr);
        ChangesZero(scr.mem, shadow[..], scr.Cells());
        if changed == 0 && scr.curRow == last_cur_r && scr.curCol == last_cur_c {
          return;
        }
        if changed > 0 {
          heal_kf := now;
        }
        if changed * 4 > scr.Cells() * 3 {
          repaint := true;
        }
      }
      StartFrame(clear, repaint, scr);
    }
    // ----- filling a frame -----

    /** The tail of a frame: park the cursor, show or hide it. It fits beside the reserve of one cell. */
    method Tail(scr: Screen)
      requires Buffers() && o_len + 16 <= OBUF && Mirror().parser == Ground
      modifies this`o_len, obuf
      ensures Buffers() && old(o_len) < o_len
      ensures Mirror().parser == Ground && Mirror().cells == old(Mirror()).cells && Mirror().cols == old(Mirror()).cols
      ensures Mirror().rows == old(Mirror()).rows
      ensures Parked(Mirror(), scr.curRow, scr.curCol) && Mirror().shown == scr.visible
    {
      hide Buffers, Pending, FeedAll, Table, Mirror, Cup;
      CupLength(scr.curRow as nat, scr.curCol as nat);
      ghost var t := Mirror();
      EmitCup(scr.curRow as nat, scr.curCol as nat);
      Grown(Cup(scr.curRow as nat, scr.curCol as nat));
      CupEffect(t, scr.curRow as nat, scr.curCol as nat);
      ghost var u := Mirror();
      ModesEffect(u);
      label vis: Emit(if scr.visible then SHOW else HIDE);
      Grown@vis(if scr.visible then SHOW else HIDE);
    }

    /** The end of frame_fill, once every cell has been walked. */
    method FinishFrame(scr: Screen, now: nat)
      requires Buffers() && Painting() && frame_active && walk_cell == total_cells && o_len + 24 <= OBUF
      modifies this`o_len, obuf, this`last_cur_r, this`last_cur_c, this`last_shown, this`frame_active,
               this`shadow_valid, this`force_kf, this`last_kf, this`known
      ensures known == (old(known) || is_repaint)
      ensures Buffers() && Resting() && !frame_active && o_len > old(o_len) && !force_kf && last_shown == scr.visible
      ensures last_cur_r == scr.curRow && last_cur_c == scr.curCol && (!is_toobig ==> shadow_valid)
      ensures sh_cols == f_cols && sh_rows == f_rows
      ensures is_toobig ==> shadow_valid == old(shadow_valid)
      ensures !is_toobig && steady ==> Caught(seen, total_cells)
    {
      hide Buffers, Pending, FeedAll, Table, Mirror, Painting, Resting;
      ghost var t := Mirror();
      Painted();
      Tail(scr);
      Conclude(scr, now);
      RestsAfter(t);
    }

    method Conclude(scr: Screen, now: nat)
      modifies this`last_cur_r, this`last_cur_c, this`last_shown, this`frame_active, this`shadow_valid, this`force_kf,
               this`last_kf, this`known
      ensures last_cur_r == scr.curRow && last_cur_c == scr.curCol && last_shown == scr.visible && !frame_active
      ensures known == (old(known) || is_repaint)
      ensures shadow_valid == (!is_toobig || old(shadow_valid)) && force_kf == (!is_repaint && old(force_kf))
      ensures last_kf == if is_repaint || is_toobig then now else old(last_kf)
    {
      last_cur_r, last_cur_c, last_shown := scr.curRow, scr.curCol, scr.visible;
      frame_active := false;
      if !is_toobig { shadow_valid := true; }
      if is_repaint { force_kf := false; }
      if is_repaint || is_toobig { last_kf := now; }
      known := known || is_repaint;
    }

    /** What a fully walked frame has achieved. */
    lemma Painted()
      requires Buffers() && Painting() && walk_cell == total_cells
      ensures Mirror().parser == Ground && sh_cols == f_cols && sh_rows == f_rows && total_cells == f_cols * f_rows
      ensures (is_toobig <==> 2 * total_cells > SHADOW_BYTES) && (is_toobig ==> is_repaint)
      ensures (!is_repaint ==> !force_kf && shadow_valid)
      ensures !is_toobig && (known || is_repaint) && Fits(Mirror(), f_cols, f_rows) ==>
                && Shows(Mirror(), glyphs, shadow[..], f_cols, total_cells)
                && (blank ==> BlankBeyond(Mirror(), f_cols, f_rows))
      ensures !is_toobig && steady ==> Caught(seen, total_cells)
      ensures known || is_repaint || !blank
    {
      hide Buffers, Pending, FeedAll, Table, Mirror, Shows, Fits, CursorAfter, Seen, Vga;
      BufferFacts();
    }

    /** The tail disturbs nothing that rests on the cells. */
    lemma RestsAfter(t: Term)
      requires Buffers() && Mirror().parser == Ground && Mirror().cells == t.cells && Mirror().cols == t.cols
      requires Mirror().rows == t.rows
      requires total_cells == sh_cols * sh_rows && (known || !blank)
      requires Parked(Mirror(), last_cur_r, last_cur_c) && Mirror().shown == last_shown
      requires known && 2 * total_cells <= SHADOW_BYTES && Fits(t, sh_cols, sh_rows) ==>
                 && Shows(t, glyphs, shadow[..], sh_cols, total_cells) && (blank ==> BlankBeyond(t, sh_cols, sh_rows))
      ensures Resting()
    {
      hide Buffers, Pending, FeedAll, Table, Mirror;
      if known && 2 * total_cells <= SHADOW_BYTES && Fits(t, sh_cols, sh_rows) {
        SameCells(t, Mirror(), glyphs, shadow[..], sh_cols, sh_rows, total_cells, blank);
      }
    }

    /** frame_fill. */
    method FrameFill(scr: Screen, now: nat)
      requires Buffers() && Painting() && frame_active && walk_cell < total_cells && o_len <= 18 && scr.Ok()
      requires steady ==> seen == scr.mem
      modifies this`o_len, obuf, this`last_cur_r, this`last_cur_c, this`last_shown, this`frame_active,
               this`shadow_valid,
               this`force_kf, this`last_kf, this`known,
               this`walk_cell, this`last_emit, this`cur_sgr, shadow
      ensures Buffers() && o_len > 0 && (old(known) ==> known) && (!frame_active && is_repaint ==> known)
      ensures frame_active ==> Painting() && old(walk_cell) < walk_cell < total_cells && force_kf == old(force_kf)
      ensures !frame_active ==>
                Resting() && !force_kf && sh_cols == f_cols && sh_rows == f_rows && (!is_toobig ==> shadow_valid)
      ensures !frame_active ==>
                last_cur_r == scr.curRow && last_cur_c == scr.curCol && last_shown == scr.visible
      ensures !frame_active && !is_toobig && steady ==> Caught(seen, total_cells)
      ensures old(Still(scr)) ==> Still(scr)
    {
      hide Buffers, Pending, FeedAll, Table, Mirror, Painting, Resting, Caught;
      while walk_cell < total_cells
        invariant Buffers() && Painting() && old(walk_cell) <= walk_cell <= total_cells && o_len + 24 <= OBUF
        invariant walk_cell == old(walk_cell) ==> o_len <= 18
        invariant old(Caught(scr.mem, scr.Cells())) ==> Caught(scr.mem, scr.Cells())
        invariant unchanged(this`frame_active, this`force_kf, this`shadow_valid, this`last_cur_r, this`last_cur_c)
        invariant known == old(known)
        decreases total_cells - walk_cell
      {
        if o_len + 48 > OBUF {
          return;
        }
        FillCell(scr);
      }
      FinishFrame(scr, now);
    }

    // ----- the byte interface -----

    /** Something is rendered or being rendered. */
    ghost predicate Busy()
      requires Buffers()
      reads this`o_len, this`o_off, this`pushed, this`tty, obuf, this`frame_active
    {
      frame_active || Pending() != []
    }

    /** Cells still to walk. */
    ghost function Left(): int
      reads this`frame_active, this`total_cells, this`walk_cell
    {
      if frame_active then total_cells - walk_cell else 0
    }

    /** The frame in progress, or the last one, was drawn from this very screen. */
    ghost predicate Following(scr: Screen)
      reads this, shadow
    {
      && scr.Ok() && scr.Shadowed()
      && (frame_active ==> steady && seen == scr.mem && !is_toobig && f_cols == scr.Cols() && f_rows == scr.Rows())
      && (!frame_active ==> Still(scr) && last_shown == scr.visible)
    }

    /** The first two branches of render_next_byte, and its last: the next rendered byte. */
    method Take() returns (b: byte)
      requires Valid() && Pending() != []
      modifies this`o_off, this`pushed, this`tty
      ensures Valid() && old(Pending()) == [b] + Pending() && tty == Feed(old(tty), b) && b < 0xf0 && pushed == -1
    {
      hide Valid, Table, FeedAll, Feed, Interrupted;
      assert Buffers() by { ValidBuffers(); }
      ghost var p := Pending();
      if pushed >= 0 {
        b := pushed as byte;
        pushed := -1;
      } else {
        b := obuf[o_off];
        o_off := o_off + 1;
      }
      assert Pending() == p[1..] && p == [b] + Pending();
      assert b == p[0] < 0xf0;
      FeedInterrupted(tty, b);
      FeedCons(tty, b, Pending());
      tty := Feed(tty, b);
      assert Mirror() == old(Mirror());
      Kept();
    }

    lemma ValidBuffers()
      requires Valid()
      ensures Buffers()
    {
    }

    /** The terminal is always at a place a pushback can return it to. */
    lemma Steady()
      requires Buffers()
      ensures tty.Ok() && Interrupted(tty.parser)
    {
    }

    /** Moving bytes from the buffer to the terminal, or back, leaves the mirror and so everything else. */
    twostate lemma Kept()
      requires old(Valid()) && Buffers() && Mirror() == old(Mirror()) && shadow[..] == old(shadow[..])
      requires unchanged(this`shadow_valid, this`sh_cols, this`sh_rows, this`force_kf, this`frame_active,
          this`is_repaint, this`is_toobig, this`last_cur_r, this`last_cur_c, this`last_shown,
                         this`walk_cell, this`total_cells, this`f_cols, this`f_rows, this`last_emit, this`cur_sgr,
                             this`seen, this`steady, this`known, this`blank)
      ensures Valid()
    {
      hide Buffers, Pending, FeedAll, Table, Mirror, InFrame, Shows, Fits;
    }

    /** Ghost bookkeeping: has the screen changed under the frame? */
    method Observe(scr: Screen)
      requires Buffers() && Painting()
      modifies this`steady
      ensures steady == (old(steady) && seen == scr.mem) && Buffers() && Painting() && total_cells == f_cols * f_rows
    {
      hide Buffers, InFrame, Mirror;
      steady := steady && seen == scr.mem;
    }

    method Rewind()
      requires Valid() && Pending() == []
      modifies this`o_len, this`o_off
      ensures Valid() && Pending() == [] && o_len == o_off == 0
    {
      hide Valid, Table, FeedAll, Interrupted;
      ValidBuffers();
      o_len, o_off := 0, 0;
      assert Pending() == [];
      Kept();
    }

    lemma PendingLength()
      requires Buffers()
      ensures |Pending()| >= o_len - o_off
    {
    }

    /** The terminal shows what has been painted, or will at the end of the frame. */
    ghost predicate Mending()
      reads this`known, this`frame_active, this`is_repaint
    {
      known || (frame_active && is_repaint)
    }

    /** Between frames: start one if there is anything to send. */
    method Begin(serial: bool, scr: Screen, now: nat)
      requires Valid() && Pending() == [] && o_len == o_off == 0 && !frame_active && scr.Ok()
      modifies this`o_len, this`o_off, obuf, this`last_cur_r, this`last_cur_c, this`last_shown, this`frame_active,
               this`shadow_valid,
               this`force_kf, this`last_kf,
               this`walk_cell, this`last_emit, this`cur_sgr, shadow, this`sh_cols, this`sh_rows, this`f_cols,
                   this`f_rows, this`total_cells,
               this`is_repaint, this`seen, this`steady, this`frames, this`is_toobig, this`heal_kf, this`known,
               this`blank
      ensures Valid() && (old(Mending()) ==> Mending()) && (old(blank) ==> blank)
      ensures Pending() != [] ==> frames == old(frames) + 1 && (scr.Shadowed() ==> Following(scr))
      ensures Pending() == [] ==>
                !frame_active && frames == old(frames) && heal_kf == old(heal_kf) && (scr.Shadowed() ==> Still(scr))
      ensures old(Still(scr)) ==> Still(scr) && heal_kf == old(heal_kf)
      ensures old(Still(scr)) && !serial && Elapsed(now, heal_kf) >= HEAL_TICKS ==> Pending() == []
      ensures old(force_kf) || (scr.Shadowed() && old(Due(serial, now))) ==> Pending() != [] && Mending()
    {
      hide Buffers, Pending, FeedAll, Table, Mirror, Painting, Resting, Caught, Elapsed;
      FrameDecide(serial, scr, now);
      if frame_active {
        FrameFill(scr, now);
        PendingLength();
      }
    }

    /** Go on with the frame in progress. */
    method Resume(scr: Screen, now: nat)
      requires Valid() && Pending() == [] && o_len == o_off == 0 && frame_active && scr.Ok()
      modifies this`o_len, obuf, this`last_cur_r, this`last_cur_c, this`last_shown, this`frame_active,
               this`shadow_valid,
               this`force_kf, this`last_kf,
               this`walk_cell, this`last_emit, this`cur_sgr, shadow, this`steady, this`known
      ensures old(Mending()) ==> Mending()
      ensures Valid() && Pending() != [] && Left() < old(Left())
      ensures old(Following(scr)) ==> Following(scr)
      ensures !frame_active ==> !force_kf && sh_cols == f_cols && sh_rows == f_rows && (!is_toobig ==> shadow_valid)
      ensures old(Still(scr)) ==> Still(scr)
    {
      hide Buffers, Pending, FeedAll, Table, Mirror, Painting, Resting, Caught;
      Observe(scr);
      FrameFill(scr, now);
      PendingLength();
    }

    /** The third step of render_next_byte: decide on a frame, or go on with the one in progress. */
    method Refill(serial: bool, scr: Screen, now: nat)
      requires Valid() && Pending() == [] && scr.Ok()
      modifies this`o_len, this`o_off, obuf, this`last_cur_r, this`last_cur_c, this`last_shown, this`frame_active,
               this`shadow_valid,
               this`force_kf, this`last_kf,
               this`walk_cell, this`last_emit, this`cur_sgr, shadow, this`sh_cols, this`sh_rows, this`f_cols,
                   this`f_rows, this`total_cells,
               this`is_repaint, this`seen, this`steady, this`frames, this`is_toobig, this`heal_kf, this`known,
               this`blank
      ensures Valid() && (old(Mending()) ==> Mending()) && (old(blank) ==> blank)
      ensures old(frame_active) ==>
                Pending() != [] && Left() < old(Left()) && frames == old(frames) && heal_kf == old(heal_kf)
      ensures !old(frame_active) && Pending() != [] ==> frames == old(frames) + 1 && (scr.Shadowed() ==> Following(scr))
      ensures Pending() == [] ==>
                !frame_active && frames == old(frames) && heal_kf == old(heal_kf) && (scr.Shadowed() ==> Still(scr))
      ensures old(Following(scr)) && old(frame_active) ==> Following(scr)
      ensures old(frame_active) && !frame_active ==>
                !force_kf && sh_cols == old(f_cols) && sh_rows == old(f_rows) && (!is_toobig ==> shadow_valid)
      ensures old(Still(scr)) ==> Still(scr) && heal_kf == old(heal_kf)
      ensures old(Still(scr)) && !old(frame_active) && !serial && Elapsed(now, heal_kf) >= HEAL_TICKS ==>
                Pending() == []
      ensures !old(frame_active) && (old(force_kf) || (scr.Shadowed() && old(Due(serial, now)))) ==>
                Pending() != [] && Mending()
    {
      hide Valid, Buffers, Pending, Table, Elapsed, Still, Due;
      ValidBuffers();
      Rewind();
      ValidBuffers();
      if frame_active {
        Resume(scr, now);
      } else {
        Begin(serial, scr, now);
      }
      ValidBuffers();
    }

    /** render_next_byte: the terminal gets exactly the bytes handed out. A rendered byte comes first; an active
        frame always yields one and walks at least one cell; -1 means nothing is pending and, for a mode that
        fits the shadow, that the screen is the one the terminal shows. */
    method NextByte(serial: bool, scr: Screen, now: nat) returns (b: int)
      requires Valid() && scr.Ok()
      modifies this, obuf, shadow
      ensures Valid() && -1 <= b < 0xf0 && pushed == -1
      ensures tty == if b >= 0 then Feed(old(tty), b as byte) else old(tty)
      ensures old(Pending()) != [] ==> b >= 0 && old(Pending()) == [b as byte] + Pending() && Left() == old(Left())
      ensures old(Pending()) == [] && old(frame_active) ==> b >= 0 && Left() < old(Left())
      ensures old(Busy()) ==> frames == old(frames) && (old(Following(scr)) ==> Following(scr))
      ensures !old(Busy()) && b >= 0 ==> frames == old(frames) + 1 && (scr.Shadowed() ==> Following(scr))
      ensures b < 0 ==> !Busy() && frames == old(frames) && (scr.Shadowed() ==> Still(scr))
      ensures old(frame_active) && !frame_active ==>
                !force_kf && sh_cols == old(f_cols) && sh_rows == old(f_rows) && (!is_toobig ==> shadow_valid)
      ensures old(Still(scr)) ==> Still(scr) && heal_kf == old(heal_kf)
      ensures old(Still(scr)) && !old(Busy()) && !serial && Elapsed(now, heal_kf) >= HEAL_TICKS ==> b == -1
      ensures (old(blank) ==> blank) && (old(Mending()) ==> Mending())
      ensures !old(Busy()) && (old(force_kf) || (scr.Shadowed() && old(Due(serial, now)))) ==> b >= 0 && Mending()
    {
      hide Valid, Pending, Table, Feed, FeedAll, Elapsed, Buffers, Still;
      ValidBuffers();
      PendingShape();
      if pushed >= 0 || o_off < o_len {
        var x := Take();
        return x as int;
      }
      Refill(serial, scr, now);
      ValidBuffers();
      PendingShape();
      if o_off < o_len {
        ghost var p := Pending();
        var x := Take();
        return x as int;
      }
      return -1;
    }

    lemma PendingShape()
      requires Buffers()
      ensures Pending() != [] <==> pushed >= 0 || o_off < o_len
    {
    }

    /** render_pushback: the byte just handed out comes back, and will be handed out first. */
    method Pushback(b: byte, ghost before: Term)
      requires Valid() && pushed == -1 && b < 0xf0
      requires before.Ok() && Interrupted(before.parser) && tty == Feed(before, b)
      modifies this`pushed, this`tty
      ensures Valid() && tty == before && Pending() == [b] + old(Pending())
    {
      hide Valid, Table, FeedAll, Feed, Interrupted;
      ValidBuffers();
      ghost var p := Pending();
      pushed := b as int;
      tty := before;
      assert Pending() == [b] + p;
      FeedCons(before, b, p);
      Kept();
    }

    // ----- what the terminal shows -----

    /** Once drained between frames, if nothing has been lost, the terminal shows the shadow and nothing else, and the
        cursor is where the last frame put it. */
    lemma Mirrored()
      requires Valid() && !Busy() && !force_kf && known
      ensures Parked(tty, last_cur_r, last_cur_c) && tty.shown == last_shown
      ensures shadow_valid && 2 * (sh_cols * sh_rows) <= SHADOW_BYTES && Fits(tty, sh_cols, sh_rows) ==>
                && Shows(tty, glyphs, shadow[..], sh_cols, sh_cols * sh_rows)
                && (blank ==> BlankBeyond(tty, sh_cols, sh_rows))
    {
      hide Table, Shows, Fits;
      Fresh();
    }

    /** And if nothing is owed on this screen, the terminal shows the screen, its cursor included. */
    lemma ShowsScreen(scr: Screen)
      requires Valid() && !Busy() && Still(scr) && known
      ensures Parked(tty, scr.curRow, scr.curCol)
      ensures Fits(tty, scr.Cols(), scr.Rows()) ==>
                && Shows(tty, glyphs, scr.mem, scr.Cols(), scr.Cells())
                && (blank ==> BlankBeyond(tty, scr.Cols(), scr.Rows()))
    {
      hide Valid, Buffers, Table, Shows, Fits, Busy, Screen.Cols, Screen.Rows;
      Mirrored();
      if Fits(tty, scr.Cols(), scr.Rows()) {
        ShowsSame(tty, glyphs, shadow[..], scr.mem, scr.Cols(), scr.Cells());
      }
    }

    /** Hand out every rendered byte and the rest of the frame in progress, on an unchanging screen. */
    method Drain(serial: bool, scr: Screen, clock: nat -> nat, start: nat) returns (out: seq<byte>)
      requires Valid() && scr.Ok()
      modifies this, obuf, shadow
      ensures Valid() && !Busy() && frames == old(frames) && tty == FeedAll(old(tty), out)
      ensures old(Following(scr)) ==> Following(scr)
      ensures (old(Mending()) ==> known) && (old(blank) ==> blank)
    {
      hide Valid, Pending, Table, Feed, FeedAll, Elapsed, Buffers, Following;
      out := [];
      ValidBuffers();
      FeedNothing(tty);
      var i := start;
      while frame_active || pushed >= 0 || o_off < o_len
        invariant Valid() && Buffers() && frames == old(frames) && tty == FeedAll(old(tty), out)
        invariant old(Following(scr)) ==> Following(scr)
        invariant (old(Mending()) ==> Mending()) && (old(blank) ==> blank)
        decreases Left(), |Pending()|
      {
        PendingShape();
        LeftBound();
        ghost var t := tty;
        var b := NextByte(serial, scr, clock(i));
        ValidBuffers();
        LeftBound();
        FeedConcat(old(tty), out, [b as byte]);
        FeedOne(t, b as byte);
        out := out + [b as byte];
        i := i + 1;
      }
      PendingShape();
    }

    lemma LeftBound()
      requires Valid()
      ensures Left() >= 0
    {
    }

    /** Once video memory stops changing, and if nothing gets lost, the frame in progress and at most one more bring the
        terminal to show the screen, nothing else, and the cursor in its place, whatever the clock does meanwhile. If a
        frame was begun, the cursor is also as visible as it should be. */
    method Settle(serial: bool, scr: Screen, clock: nat -> nat) returns (out: seq<byte>)
      requires Valid() && scr.Ok() && scr.Shadowed() && known && blank
      modifies this, obuf, shadow
      ensures Valid() && !Busy() && frames <= old(frames) + 1 && tty == FeedAll(old(tty), out)
      ensures Still(scr)
      ensures Parked(tty, scr.curRow, scr.curCol) && (frames > old(frames) ==> tty.shown == scr.visible)
      ensures Fits(tty, scr.Cols(), scr.Rows()) ==>
                Shows(tty, glyphs, scr.mem, scr.Cols(), scr.Cells()) && BlankBeyond(tty, scr.Cols(), scr.Rows())
    {
      hide Valid, Pending, Table, Feed, FeedAll, Elapsed, Buffers, Shows, Fits, Still;
      ghost var t0 := tty;
      ValidBuffers();
      out := Drain(serial, scr, clock, 0);
      ghost var t := tty;
      ValidBuffers();
      var b := NextByte(serial, scr, clock(|out|));
      ValidBuffers();
      if b >= 0 {
        FeedConcat(t0, out, [b as byte]);
        FeedOne(t, b as byte);
        out := out + [b as byte];
        var more := Drain(serial, scr, clock, |out|);
        FeedConcat(t0, out, more);
        out := out + more;
      }
      ValidBuffers();
      StillParked(scr);
      Mirrored();
      ShowsScreen(scr);
    }

    lemma StillParked(scr: Screen)
      requires Valid() && Still(scr)
      ensures !force_kf
    {
    }

    /** Bytes on their way to the terminal may be lost or damaged: between frames it is then in any state a client of
        the renderer can be in, its parser in the middle of a sequence included. */
    ghost method Garble(t: Term)
      requires Valid() && !Busy() && t.Ok() && Interrupted(t.parser)
      modifies this`tty, this`known, this`blank
      ensures Valid() && !Busy() && tty == t
    {
      hide Table, FeedAll, Plain;
      tty, known, blank := t, false, false;
    }

    /** Self-healing: whatever has become of the terminal, the repaint that is due 36 ticks after the last one, on the
        network only within 72 ticks of a change, brings it back to the screen. */
    method Heal(serial: bool, scr: Screen, clock: nat -> nat) returns (out: seq<byte>)
      requires Valid() && !Busy() && scr.Ok() && scr.Shadowed() && (force_kf || Due(serial, clock(0)))
      modifies this, obuf, shadow
      ensures Valid() && !Busy() && frames == old(frames) + 1 && tty == FeedAll(old(tty), out) && Still(scr) && known
      ensures Parked(tty, scr.curRow, scr.curCol) && tty.shown == scr.visible
      ensures Fits(tty, scr.Cols(), scr.Rows()) ==> Shows(tty, glyphs, scr.mem, scr.Cols(), scr.Cells())
    {
      hide Valid, Pending, Table, Feed, FeedAll, Elapsed, Buffers, Shows, Fits, Still, Due;
      ghost var t0 := tty;
      ValidBuffers();
      var b := NextByte(serial, scr, clock(0));
      ValidBuffers();
      FeedOne(t0, b as byte);
      out := [b as byte];
      var more := Drain(serial, scr, clock, 1);
      FeedConcat(t0, out, more);
      out := out + more;
      ValidBuffers();
      StillParked(scr);
      Mirrored();
      ShowsScreen(scr);
    }

    /** On the network a settled screen past the heal window is silent, for as long as it stays settled. */
    method Quiet(scr: Screen, clock: seq<nat>) returns (out: seq<int>)
      requires Valid() && !Busy() && Still(scr)
      requires forall i :: 0 <= i < |clock| ==> Elapsed(clock[i], heal_kf) >= HEAL_TICKS
      modifies this, obuf, shadow
      ensures Valid() && !Busy() && Still(scr) && tty == old(tty) && frames == old(frames)
      ensures |out| == |clock| && forall i :: 0 <= i < |out| ==> out[i] == -1
    {
      hide Valid, Pending, Table, Feed, FeedAll, Elapsed, Buffers, Busy, HEAL_TICKS;
      out := [];
      ValidBuffers();
      while |out| < |clock|
        invariant Valid() && Buffers() && !Busy() && Still(scr) && tty == old(tty) && frames == old(frames)
        invariant heal_kf == old(heal_kf)
        invariant |out| <= |clock| && forall i :: 0 <= i < |out| ==> out[i] == -1
      {
        var b := NextByte(false, scr, clock[|out|]);
        ValidBuffers();
        out := out + [b];
      }
    }
  }

  /** Whatever the terminal's size, a cell leaves the parser in its ground state. */
  lemma GroundAfterCell(t: Term, glyphs: seq<seq<byte>>, cols: nat, c: nat, ch: byte, at: byte, last: int, sgr: int)
    requires t.Ok() && t.parser == Ground && Table(glyphs) && cols > 0
    ensures FeedAll(t, CellBytes(glyphs, cols, c, ch, at, last, sgr)).parser == Ground
  {
    hide FeedAll, Cup, SgrSeq, Glyph;
    var move := if c != last + 1 || c % cols == 0 then Cup(c / cols, c % cols) else [];
    var colour := if at as int != sgr then SgrSeq(at) else [];
    var m := FeedAll(t, move);
    CupEffect(t, c / cols, c % cols);
    FeedNothing(t);
    var u := FeedAll(m, colour);
    SgrEffect(m, at);
    FeedNothing(m);
    FeedConcat(t, move, colour);
    FeedConcat(t, move + colour, glyphs[ch]);
    GlyphEffect(u, glyphs[ch]);
  }

  lemma GlyphPlain(g: seq<byte>)
    requires Glyph(g)
    ensures Plain(g) && 0 < |g| <= 3
  {
  }

  /** How many of the first n cells differ. */
  function Changes(mem: seq<byte>, sh: seq<byte>, n: nat): nat
    requires 2 * n <= |mem| && 2 * n <= |sh|
  {
    if n == 0 then 0
    else Changes(mem, sh, n - 1) + if mem[2 * n - 2] != sh[2 * n - 2] || mem[2 * n - 1] != sh[2 * n - 1] then 1 else 0
  }

  lemma {:induction false} ChangesZero(mem: seq<byte>, sh: seq<byte>, n: nat)
    requires 2 * n <= |mem| && 2 * n <= |sh|
    ensures Changes(mem, sh, n) == 0 <==> forall k :: 0 <= k < 2 * n ==> sh[k] == mem[k]
  {
    if n == 0 {
    } else {
      ChangesZero(mem, sh, n - 1);
      if Changes(mem, sh, n) == 0 {
        forall k | 0 <= k < 2 * n
          ensures sh[k] == mem[k]
        {
          assert k < 2 * (n - 1) || k == 2 * n - 2 || k == 2 * n - 1;
        }
      }
    }
  }

  lemma FrameOpens(t: Term, glyphs: seq<seq<byte>>, sh: seq<byte>, cols: nat, rows: nat, shown: nat, blank: bool)
    requires t.Ok() && t.parser == Ground && Table(glyphs) && cols > 0
    requires shown > 0 && Fits(t, cols, rows) ==> Shows(t, glyphs, sh, cols, shown)
    requires blank && Fits(t, cols, rows) ==> BlankBeyond(t, cols, rows)
    ensures InFrame(t, glyphs, sh, cols, rows, shown, -2, -1, blank)
  {
    hide BlankBeyond, Depicts;
  }

  /** Agreement carries over to any memory that equals the shadow on those cells. */
  lemma ShowsSame(t: Term, glyphs: seq<seq<byte>>, a: seq<byte>, b: seq<byte>, cols: nat, hi: nat)
    requires Shows(t, glyphs, a, cols, hi) && 2 * hi <= |b| && forall k :: 0 <= k < 2 * hi ==> a[k] == b[k]
    ensures Shows(t, glyphs, b, cols, hi)
  {
  }

  lemma FeedCons(t: Term, b: byte, s: seq<byte>)
    requires t.Ok()
    ensures FeedAll(t, [b] + s) == FeedAll(Feed(t, b), s)
  {
    assert ([b] + s)[1..] == s;
  }

  lemma SameCells(t: Term, u: Term, glyphs: seq<seq<byte>>, sh: seq<byte>, cols: nat, rows: nat, hi: nat, blank: bool)
    requires Shows(t, glyphs, sh, cols, hi) && (blank ==> BlankBeyond(t, cols, rows)) && u.cells == t.cells
        && u.cols == t.cols
    ensures Shows(u, glyphs, sh, cols, hi) && (blank ==> BlankBeyond(u, cols, rows))
  {
    assert forall c :: 0 <= c < hi ==> Pos(u, cols, c) == Pos(t, cols, c);
  }
}
