/** The glyph table of dosshd/cp437.c: CP437 codes as UTF-8. */
module Cp437 {
  import opened Bytes
  import opened Ansi
  import opened Frame

  /** A character that takes two or three UTF-8 bytes. */
  newtype Wide = x: int | 0x80 <= x < 0x10000 && !(0xd800 <= x < 0xe000) witness 0x80

  /** The PC glyphs of codes 0x01 to 0x1f. */
  const LOW: seq<Wide> := [
    0x263a, 0x263b, 0x2665, 0x2666, 0x2663, 0x2660, 0x2022, 0x25d8, 0x25cb, 0x25d9, 0x2642, 0x2640, 0x266a, 0x266b,
    0x263c, 0x25ba, 0x25c4, 0x2195, 0x203c, 0xb6, 0xa7, 0x25ac, 0x21a8, 0x2191, 0x2193, 0x2192, 0x2190, 0x221f,
    0x2194, 0x25b2, 0x25bc
  ]
  /** The glyphs of codes 0x7f to 0xff. */
  const HIGH: seq<Wide> := [
    0x2302, 0xc7, 0xfc, 0xe9, 0xe2, 0xe4, 0xe0, 0xe5, 0xe7, 0xea, 0xeb, 0xe8, 0xef, 0xee,
    0xec, 0xc4, 0xc5, 0xc9, 0xe6, 0xc6, 0xf4, 0xf6, 0xf2, 0xfb, 0xf9, 0xff, 0xd6, 0xdc,
    0xa2, 0xa3, 0xa5, 0x20a7, 0x192, 0xe1, 0xed, 0xf3, 0xfa, 0xf1, 0xd1, 0xaa, 0xba, 0xbf,
    0x2310, 0xac, 0xbd, 0xbc, 0xa1, 0xab, 0xbb, 0x2591, 0x2592, 0x2593, 0x2502, 0x2524, 0x2561, 0x2562,
    0x2556, 0x2555, 0x2563, 0x2551, 0x2557, 0x255d, 0x255c, 0x255b, 0x2510, 0x2514, 0x2534, 0x252c, 0x251c, 0x2500,
    0x253c, 0x255e, 0x255f, 0x255a, 0x2554, 0x2569, 0x2566, 0x2560, 0x2550, 0x256c, 0x2567, 0x2568, 0x2564, 0x2565,
    0x2559, 0x2558, 0x2552, 0x2553, 0x256b, 0x256a, 0x2518, 0x250c, 0x2588, 0x2584, 0x258c, 0x2590, 0x2580, 0x3b1,
    0xdf, 0x393, 0x3c0, 0x3a3, 0x3c3, 0xb5, 0x3c4, 0x3a6, 0x398, 0x3a9, 0x3b4, 0x221e, 0x3c6, 0x3b5,
    0x2229, 0x2261, 0xb1, 0x2265, 0x2264, 0x2320, 0x2321, 0xf7, 0x2248, 0xb0, 0x2219, 0xb7, 0x221a, 0x207f,
    0xb2, 0x25a0, 0xa0
  ]

  function Utf8Of(cp: Wide): (g: seq<byte>)
    ensures Glyph(g) && |g| > 1
  {
    var x := cp as nat;
    if x < 0x800 then [(0xc0 + x / 64) as byte, (0x80 + x % 64) as byte]
    else [(0xe0 + x / 4096) as byte, (0x80 + x / 64 % 64) as byte, (0x80 + x % 64) as byte]
  }

  /** The character a sequence of one, two or three UTF-8 bytes encodes (section 3 of RFC 3629). */
  function CodePoint(g: seq<byte>): int
    requires 1 <= |g| <= 3
  {
    if |g| == 1 then g[0] as int
    else if |g| == 2 then (g[0] as int - 0xc0) * 64 + (g[1] as int - 0x80)
    else (g[0] as int - 0xe0) * 4096 + (g[1] as int - 0x80) * 64 + (g[2] as int - 0x80)
  }

  lemma Utf8Back(cp: Wide)
    ensures |Utf8Of(cp)| <= 3 && CodePoint(Utf8Of(cp)) == cp as int
  {
    var x := cp as nat;
    assert x == 4096 * (x / 4096) + 64 * (x / 64 % 64) + x % 64;
  }

  function GlyphOf(ch: nat): (g: seq<byte>)
    requires ch < 256
    ensures Glyph(g)
  {
    if ch == 0 then [0x20]
    else if ch < 0x20 then Utf8Of(LOW[ch - 1])
    else if ch < 0x7f then [ch as byte]
    else Utf8Of(HIGH[ch - 0x7f])
  }

  const GLYPHS: seq<seq<byte>> := seq(256, ch requires 0 <= ch < 256 => GlyphOf(ch))

  /** The character a code stands for: ASCII for itself, the others as in the tables. */
  function Character(ch: nat): int
    requires ch < 256
  {
    if ch == 0 then 0x20 else if ch < 0x20 then LOW[ch - 1] as int else if ch < 0x7f then ch else HIGH[ch - 0x7f] as int
  }

  lemma GlyphReads(ch: nat)
    requires ch < 256
    ensures |GlyphOf(ch)| <= 3 && CodePoint(GlyphOf(ch)) == Character(ch)
  {
    hide CodePoint, Utf8Of;
    if 0 < ch < 0x20 {
      Utf8Back(LOW[ch - 1]);
    } else if ch >= 0x7f {
      Utf8Back(HIGH[ch - 0x7f]);
    } else {
      OneByte(GlyphOf(ch)[0]);
    }
  }

  lemma OneByte(b: byte)
    ensures CodePoint([b]) == b as int
  {
  }

  /** The renderer's glyph table is one: no code is sent as a raw control byte, and every glyph is one character. */
  lemma TableHolds()
    ensures Table(GLYPHS)
  {
    hide Glyph, GlyphOf;
    forall i | 0 <= i < 256
      ensures Glyph(GLYPHS[i])
    {
      assert GLYPHS[i] == GlyphOf(i);
    }
  }
}
