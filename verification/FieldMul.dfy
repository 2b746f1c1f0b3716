/** fe_mul (dosshd/crypto/monocypher.c): the product of two field elements, column by column. */
module FieldMul {
  import opened Bytes
  import opened Field25519

  /** Ten unreduced columns. */
  datatype Columns = Columns(c0: int, c1: int, c2: int, c3: int, c4: int, c5: int, c6: int, c7: int, c8: int, c9: int) {
    function Value(): int {
      Value10(c0, c1, c2, c3, c4, c5, c6, c7, c8, c9)
    }

    function Plus(o: Columns): Columns {
      Columns(c0 + o.c0, c1 + o.c1, c2 + o.c2, c3 + o.c3, c4 + o.c4,
              c5 + o.c5, c6 + o.c6, c7 + o.c7, c8 + o.c8, c9 + o.c9)
    }
  }

  lemma PlusValue(a: Columns, b: Columns)
    ensures a.Plus(b).Value() == a.Value() + b.Value()
  {
  }

  function Mul(a: int, b: int): int {
    a * b
  }

  lemma MulScale(m: int, a: int, n: int, b: int)
    ensures Mul(m * a, n * b) == m * n * Mul(a, b)
  {
  }

  /** One column of the product before any carry. */
  function Dot10(a0: int, b0: int, a1: int, b1: int, a2: int, b2: int, a3: int, b3: int, a4: int, b4: int,
                 a5: int, b5: int, a6: int, b6: int, a7: int, b7: int, a8: int, b8: int, a9: int, b9: int): int {
    Mul(a0, b0) + Mul(a1, b1) + Mul(a2, b2) + Mul(a3, b3) + Mul(a4, b4) + Mul(a5, b5) + Mul(a6, b6) + Mul(a7, b7)
        + Mul(a8, b8) + Mul(a9, b9)
  }

  /** The columns as fe_mul computes them. */
  function ProductColumns(f: Columns, g: Columns): Columns {
    Columns(Dot10(f.c0, g.c0, 2 * f.c1, 19 * g.c9, f.c2, 19 * g.c8, 2 * f.c3, 19 * g.c7, f.c4, 19 * g.c6,
                  2 * f.c5, 19 * g.c5, f.c6, 19 * g.c4, 2 * f.c7, 19 * g.c3, f.c8, 19 * g.c2, 2 * f.c9, 19 * g.c1),
            Dot10(f.c0, g.c1, f.c1, g.c0, f.c2, 19 * g.c9, f.c3, 19 * g.c8, f.c4, 19 * g.c7,
                  f.c5, 19 * g.c6, f.c6, 19 * g.c5, f.c7, 19 * g.c4, f.c8, 19 * g.c3, f.c9, 19 * g.c2),
            Dot10(f.c0, g.c2, 2 * f.c1, g.c1, f.c2, g.c0, 2 * f.c3, 19 * g.c9, f.c4, 19 * g.c8,
                  2 * f.c5, 19 * g.c7, f.c6, 19 * g.c6, 2 * f.c7, 19 * g.c5, f.c8, 19 * g.c4, 2 * f.c9, 19 * g.c3),
            Dot10(f.c0, g.c3, f.c1, g.c2, f.c2, g.c1, f.c3, g.c0, f.c4, 19 * g.c9,
                  f.c5, 19 * g.c8, f.c6, 19 * g.c7, f.c7, 19 * g.c6, f.c8, 19 * g.c5, f.c9, 19 * g.c4),
            Dot10(f.c0, g.c4, 2 * f.c1, g.c3, f.c2, g.c2, 2 * f.c3, g.c1, f.c4, g.c0,
                  2 * f.c5, 19 * g.c9, f.c6, 19 * g.c8, 2 * f.c7, 19 * g.c7, f.c8, 19 * g.c6, 2 * f.c9, 19 * g.c5),
            Dot10(f.c0, g.c5, f.c1, g.c4, f.c2, g.c3, f.c3, g.c2, f.c4, g.c1,
                  f.c5, g.c0, f.c6, 19 * g.c9, f.c7, 19 * g.c8, f.c8, 19 * g.c7, f.c9, 19 * g.c6),
            Dot10(f.c0, g.c6, 2 * f.c1, g.c5, f.c2, g.c4, 2 * f.c3, g.c3, f.c4, g.c2,
                  2 * f.c5, g.c1, f.c6, g.c0, 2 * f.c7, 19 * g.c9, f.c8, 19 * g.c8, 2 * f.c9, 19 * g.c7),
            Dot10(f.c0, g.c7, f.c1, g.c6, f.c2, g.c5, f.c3, g.c4, f.c4, g.c3,
                  f.c5, g.c2, f.c6, g.c1, f.c7, g.c0, f.c8, 19 * g.c9, f.c9, 19 * g.c8),
            Dot10(f.c0, g.c8, 2 * f.c1, g.c7, f.c2, g.c6, 2 * f.c3, g.c5, f.c4, g.c4,
                  2 * f.c5, g.c3, f.c6, g.c2, 2 * f.c7, g.c1, f.c8, g.c0, 2 * f.c9, 19 * g.c9),
            Dot10(f.c0, g.c9, f.c1, g.c8, f.c2, g.c7, f.c3, g.c6, f.c4, g.c5,
                  f.c5, g.c4, f.c6, g.c3, f.c7, g.c2, f.c8, g.c1, f.c9, g.c0))
  }

  // Row i is limb i of f times g. A product of two odd limbs weighs twice its column, and a column
  // past the tenth returns to the front with weight 19, since 2^255 = 19 modulo P.

  function Row0(f: int, g: Columns): Columns {
    Columns(Mul(f, g.c0), Mul(f, g.c1), Mul(f, g.c2), Mul(f, g.c3), Mul(f, g.c4),
            Mul(f, g.c5), Mul(f, g.c6), Mul(f, g.c7), Mul(f, g.c8), Mul(f, g.c9))
  }

  lemma Row0Value(f: int, g: Columns) returns (k: int)
    ensures 1 * (f * g.Value()) == Row0(f, g).Value() + P * k
  {
    k := 0;
  }

  function Row1(f: int, g: Columns): Columns {
    Columns(38 * Mul(f, g.c9), Mul(f, g.c0), 2 * Mul(f, g.c1), Mul(f, g.c2), 2 * Mul(f, g.c3),
            Mul(f, g.c4), 2 * Mul(f, g.c5), Mul(f, g.c6), 2 * Mul(f, g.c7), Mul(f, g.c8))
  }

  lemma Row1Value(f: int, g: Columns) returns (k: int)
    ensures 0x400_0000 * (f * g.Value()) == Row1(f, g).Value() + P * k
  {
    k := 0x2 * (f * g.c9);
  }

  function Row2(f: int, g: Columns): Columns {
    Columns(19 * Mul(f, g.c8), 19 * Mul(f, g.c9), Mul(f, g.c0), Mul(f, g.c1), Mul(f, g.c2),
            Mul(f, g.c3), Mul(f, g.c4), Mul(f, g.c5), Mul(f, g.c6), Mul(f, g.c7))
  }

  lemma Row2Value(f: int, g: Columns) returns (k: int)
    ensures 0x8_0000_0000_0000 * (f * g.Value()) == Row2(f, g).Value() + P * k
  {
    k := (f * g.c8) + 0x400_0000 * (f * g.c9);
  }

  function Row3(f: int, g: Columns): Columns {
    Columns(38 * Mul(f, g.c7), 19 * Mul(f, g.c8), 38 * Mul(f, g.c9), Mul(f, g.c0), 2 * Mul(f, g.c1),
            Mul(f, g.c2), 2 * Mul(f, g.c3), Mul(f, g.c4), 2 * Mul(f, g.c5), Mul(f, g.c6))
  }

  lemma Row3Value(f: int, g: Columns) returns (k: int)
    ensures 0x2000_0000_0000_0000_0000 * (f * g.Value()) == Row3(f, g).Value() + P * k
  {
    k := 0x2 * (f * g.c7) + 0x400_0000 * (f * g.c8) + 0x10_0000_0000_0000 * (f * g.c9);
  }

  function Row4(f: int, g: Columns): Columns {
    Columns(19 * Mul(f, g.c6), 19 * Mul(f, g.c7), 19 * Mul(f, g.c8), 19 * Mul(f, g.c9), Mul(f, g.c0),
            Mul(f, g.c1), Mul(f, g.c2), Mul(f, g.c3), Mul(f, g.c4), Mul(f, g.c5))
  }

  lemma Row4Value(f: int, g: Columns) returns (k: int)
    ensures 0x40_0000_0000_0000_0000_0000_0000 * (f * g.Value()) == Row4(f, g).Value() + P * k
  {
    k := (f * g.c6) + 0x400_0000 * (f * g.c7) + 0x8_0000_0000_0000 * (f * g.c8) +
        0x2000_0000_0000_0000_0000 * (f * g.c9);
  }

  function Row5(f: int, g: Columns): Columns {
    Columns(38 * Mul(f, g.c5), 19 * Mul(f, g.c6), 38 * Mul(f, g.c7), 19 * Mul(f, g.c8), 38 * Mul(f, g.c9),
            Mul(f, g.c0), 2 * Mul(f, g.c1), Mul(f, g.c2), 2 * Mul(f, g.c3), Mul(f, g.c4))
  }

  lemma Row5Value(f: int, g: Columns) returns (k: int)
    ensures 0x1_0000_0000_0000_0000_0000_0000_0000_0000 * (f * g.Value()) == Row5(f, g).Value() + P * k
  {
    k := 0x2 * (f * g.c5) + 0x400_0000 * (f * g.c6) + 0x10_0000_0000_0000 * (f * g.c7) +
        0x2000_0000_0000_0000_0000 * (f * g.c8) + 0x80_0000_0000_0000_0000_0000_0000 * (f * g.c9);
  }

  function Row6(f: int, g: Columns): Columns {
    Columns(19 * Mul(f, g.c4), 19 * Mul(f, g.c5), 19 * Mul(f, g.c6), 19 * Mul(f, g.c7), 19 * Mul(f, g.c8),
            19 * Mul(f, g.c9), Mul(f, g.c0), Mul(f, g.c1), Mul(f, g.c2), Mul(f, g.c3))
  }

  lemma Row6Value(f: int, g: Columns) returns (k: int)
    ensures 0x200_0000_0000_0000_0000_0000_0000_0000_0000_0000 * (f * g.Value()) == Row6(f, g).Value() + P * k
  {
    k := (f * g.c4) + 0x400_0000 * (f * g.c5) + 0x8_0000_0000_0000 * (f * g.c6) +
        0x2000_0000_0000_0000_0000 * (f * g.c7) + 0x40_0000_0000_0000_0000_0000_0000 * (f * g.c8) +
        0x1_0000_0000_0000_0000_0000_0000_0000_0000 * (f * g.c9);
  }

  function Row7(f: int, g: Columns): Columns {
    Columns(38 * Mul(f, g.c3), 19 * Mul(f, g.c4), 38 * Mul(f, g.c5), 19 * Mul(f, g.c6), 38 * Mul(f, g.c7),
            19 * Mul(f, g.c8), 38 * Mul(f, g.c9), Mul(f, g.c0), 2 * Mul(f, g.c1), Mul(f, g.c2))
  }

  lemma Row7Value(f: int, g: Columns) returns (k: int)
    ensures 0x8_0000_0000_0000_0000_0000_0000_0000_0000_0000_0000_0000 * (f * g.Value()) == Row7(f, g).Value() + P * k
  {
    k := 0x2 * (f * g.c3) + 0x400_0000 * (f * g.c4) + 0x10_0000_0000_0000 * (f * g.c5) +
        0x2000_0000_0000_0000_0000 * (f * g.c6) + 0x80_0000_0000_0000_0000_0000_0000 * (f * g.c7) +
        0x1_0000_0000_0000_0000_0000_0000_0000_0000 * (f * g.c8) +
        0x400_0000_0000_0000_0000_0000_0000_0000_0000_0000 * (f * g.c9);
  }

  function Row8(f: int, g: Columns): Columns {
    Columns(19 * Mul(f, g.c2), 19 * Mul(f, g.c3), 19 * Mul(f, g.c4), 19 * Mul(f, g.c5), 19 * Mul(f, g.c6),
            19 * Mul(f, g.c7), 19 * Mul(f, g.c8), 19 * Mul(f, g.c9), Mul(f, g.c0), Mul(f, g.c1))
  }

  lemma Row8Value(f: int, g: Columns) returns (k: int)
    ensures 0x1000_0000_0000_0000_0000_0000_0000_0000_0000_0000_0000_0000_0000 * (f * g.Value()) == Row8(f,
        g).Value() + P * k
  {
    k := (f * g.c2) + 0x400_0000 * (f * g.c3) + 0x8_0000_0000_0000 * (f * g.c4) +
        0x2000_0000_0000_0000_0000 * (f * g.c5) + 0x40_0000_0000_0000_0000_0000_0000 * (f * g.c6) +
        0x1_0000_0000_0000_0000_0000_0000_0000_0000 * (f * g.c7) +
        0x200_0000_0000_0000_0000_0000_0000_0000_0000_0000 * (f * g.c8) +
        0x8_0000_0000_0000_0000_0000_0000_0000_0000_0000_0000_0000 * (f * g.c9);
  }

  function Row9(f: int, g: Columns): Columns {
    Columns(38 * Mul(f, g.c1), 19 * Mul(f, g.c2), 38 * Mul(f, g.c3), 19 * Mul(f, g.c4), 38 * Mul(f, g.c5),
            19 * Mul(f, g.c6), 38 * Mul(f, g.c7), 19 * Mul(f, g.c8), 38 * Mul(f, g.c9), Mul(f, g.c0))
  }

  lemma Row9Value(f: int, g: Columns) returns (k: int)
    ensures 0x40_0000_0000_0000_0000_0000_0000_0000_0000_0000_0000_0000_0000_0000_0000 * (f * g.Value()) == Row9(f,
        g).Value() + P * k
  {
    k := 0x2 * (f * g.c1) + 0x400_0000 * (f * g.c2) + 0x10_0000_0000_0000 * (f * g.c3) +
        0x2000_0000_0000_0000_0000 * (f * g.c4) + 0x80_0000_0000_0000_0000_0000_0000 * (f * g.c5) +
        0x1_0000_0000_0000_0000_0000_0000_0000_0000 * (f * g.c6) +
        0x400_0000_0000_0000_0000_0000_0000_0000_0000_0000 * (f * g.c7) +
        0x8_0000_0000_0000_0000_0000_0000_0000_0000_0000_0000_0000 * (f * g.c8) +
        0x2000_0000_0000_0000_0000_0000_0000_0000_0000_0000_0000_0000_0000 * (f * g.c9);
  }

  lemma Distribute(f: Columns, v: int)
    ensures f.Value() * v == 1 * (f.c0 * v) + 0x400_0000 * (f.c1 * v) + 0x8_0000_0000_0000 * (f.c2 * v) +
        0x2000_0000_0000_0000_0000 * (f.c3 * v) + 0x40_0000_0000_0000_0000_0000_0000 * (f.c4 * v) +
        0x1_0000_0000_0000_0000_0000_0000_0000_0000 * (f.c5 * v) +
        0x200_0000_0000_0000_0000_0000_0000_0000_0000_0000 * (f.c6 * v) +
        0x8_0000_0000_0000_0000_0000_0000_0000_0000_0000_0000_0000 * (f.c7 * v) +
        0x1000_0000_0000_0000_0000_0000_0000_0000_0000_0000_0000_0000_0000 * (f.c8 * v) +
        0x40_0000_0000_0000_0000_0000_0000_0000_0000_0000_0000_0000_0000_0000_0000 * (f.c9 * v)
  {
  }

  lemma PlusAll(r0: Columns, r1: Columns, r2: Columns, r3: Columns, r4: Columns,
                r5: Columns, r6: Columns, r7: Columns, r8: Columns, r9: Columns) returns (s: Columns)
    ensures s == r0.Plus(r1).Plus(r2).Plus(r3).Plus(r4).Plus(r5).Plus(r6).Plus(r7).Plus(r8).Plus(r9)
    ensures s.Value() == r0.Value() + r1.Value() + r2.Value() + r3.Value() + r4.Value()
                         + r5.Value() + r6.Value() + r7.Value() + r8.Value() + r9.Value()
  {
    hide Value10;
    s := r0;
    PlusValue(s, r1);  s := s.Plus(r1);
    PlusValue(s, r2);  s := s.Plus(r2);
    PlusValue(s, r3);  s := s.Plus(r3);
    PlusValue(s, r4);  s := s.Plus(r4);
    PlusValue(s, r5);  s := s.Plus(r5);
    PlusValue(s, r6);  s := s.Plus(r6);
    PlusValue(s, r7);  s := s.Plus(r7);
    PlusValue(s, r8);  s := s.Plus(r8);
    PlusValue(s, r9);  s := s.Plus(r9);
  }

  lemma SumOfColumn0(f: Columns, g: Columns)
    ensures ProductColumns(f, g).c0 ==
            Row0(f.c0, g).c0 + Row1(f.c1, g).c0 + Row2(f.c2, g).c0 + Row3(f.c3, g).c0 + Row4(f.c4, g).c0
            + Row5(f.c5, g).c0 + Row6(f.c6, g).c0 + Row7(f.c7, g).c0 + Row8(f.c8, g).c0 + Row9(f.c9, g).c0
  {
    hide Mul;
    MulScale(2, f.c1, 19, g.c9);
    MulScale(1, f.c2, 19, g.c8);
    MulScale(2, f.c3, 19, g.c7);
    MulScale(1, f.c4, 19, g.c6);
    MulScale(2, f.c5, 19, g.c5);
    MulScale(1, f.c6, 19, g.c4);
    MulScale(2, f.c7, 19, g.c3);
    MulScale(1, f.c8, 19, g.c2);
    MulScale(2, f.c9, 19, g.c1);
  }

  lemma SumOfColumn1(f: Columns, g: Columns)
    ensures ProductColumns(f, g).c1 ==
            Row0(f.c0, g).c1 + Row1(f.c1, g).c1 + Row2(f.c2, g).c1 + Row3(f.c3, g).c1 + Row4(f.c4, g).c1
            + Row5(f.c5, g).c1 + Row6(f.c6, g).c1 + Row7(f.c7, g).c1 + Row8(f.c8, g).c1 + Row9(f.c9, g).c1
  {
    hide Mul;
    MulScale(1, f.c2, 19, g.c9);
    MulScale(1, f.c3, 19, g.c8);
    MulScale(1, f.c4, 19, g.c7);
    MulScale(1, f.c5, 19, g.c6);
    MulScale(1, f.c6, 19, g.c5);
    MulScale(1, f.c7, 19, g.c4);
    MulScale(1, f.c8, 19, g.c3);
    MulScale(1, f.c9, 19, g.c2);
  }

  lemma SumOfColumn2(f: Columns, g: Columns)
    ensures ProductColumns(f, g).c2 ==
            Row0(f.c0, g).c2 + Row1(f.c1, g).c2 + Row2(f.c2, g).c2 + Row3(f.c3, g).c2 + Row4(f.c4, g).c2
            + Row5(f.c5, g).c2 + Row6(f.c6, g).c2 + Row7(f.c7, g).c2 + Row8(f.c8, g).c2 + Row9(f.c9, g).c2
  {
    hide Mul;
    MulScale(2, f.c1, 1, g.c1);
    MulScale(2, f.c3, 19, g.c9);
    MulScale(1, f.c4, 19, g.c8);
    MulScale(2, f.c5, 19, g.c7);
    MulScale(1, f.c6, 19, g.c6);
    MulScale(2, f.c7, 19, g.c5);
    MulScale(1, f.c8, 19, g.c4);
    MulScale(2, f.c9, 19, g.c3);
  }

  lemma SumOfColumn3(f: Columns, g: Columns)
    ensures ProductColumns(f, g).c3 ==
            Row0(f.c0, g).c3 + Row1(f.c1, g).c3 + Row2(f.c2, g).c3 + Row3(f.c3, g).c3 + Row4(f.c4, g).c3
            + Row5(f.c5, g).c3 + Row6(f.c6, g).c3 + Row7(f.c7, g).c3 + Row8(f.c8, g).c3 + Row9(f.c9, g).c3
  {
    hide Mul;
    MulScale(1, f.c4, 19, g.c9);
    MulScale(1, f.c5, 19, g.c8);
    MulScale(1, f.c6, 19, g.c7);
    MulScale(1, f.c7, 19, g.c6);
    MulScale(1, f.c8, 19, g.c5);
    MulScale(1, f.c9, 19, g.c4);
  }

  lemma SumOfColumn4(f: Columns, g: Columns)
    ensures ProductColumns(f, g).c4 ==
            Row0(f.c0, g).c4 + Row1(f.c1, g).c4 + Row2(f.c2, g).c4 + Row3(f.c3, g).c4 + Row4(f.c4, g).c4
            + Row5(f.c5, g).c4 + Row6(f.c6, g).c4 + Row7(f.c7, g).c4 + Row8(f.c8, g).c4 + Row9(f.c9, g).c4
  {
    hide Mul;
    MulScale(2, f.c1, 1, g.c3);
    MulScale(2, f.c3, 1, g.c1);
    MulScale(2, f.c5, 19, g.c9);
    MulScale(1, f.c6, 19, g.c8);
    MulScale(2, f.c7, 19, g.c7);
    MulScale(1, f.c8, 19, g.c6);
    MulScale(2, f.c9, 19, g.c5);
  }

  lemma SumOfColumn5(f: Columns, g: Columns)
    ensures ProductColumns(f, g).c5 ==
            Row0(f.c0, g).c5 + Row1(f.c1, g).c5 + Row2(f.c2, g).c5 + Row3(f.c3, g).c5 + Row4(f.c4, g).c5
            + Row5(f.c5, g).c5 + Row6(f.c6, g).c5 + Row7(f.c7, g).c5 + Row8(f.c8, g).c5 + Row9(f.c9, g).c5
  {
    hide Mul;
    MulScale(1, f.c6, 19, g.c9);
    MulScale(1, f.c7, 19, g.c8);
    MulScale(1, f.c8, 19, g.c7);
    MulScale(1, f.c9, 19, g.c6);
  }

  lemma SumOfColumn6(f: Columns, g: Columns)
    ensures ProductColumns(f, g).c6 ==
            Row0(f.c0, g).c6 + Row1(f.c1, g).c6 + Row2(f.c2, g).c6 + Row3(f.c3, g).c6 + Row4(f.c4, g).c6
            + Row5(f.c5, g).c6 + Row6(f.c6, g).c6 + Row7(f.c7, g).c6 + Row8(f.c8, g).c6 + Row9(f.c9, g).c6
  {
    hide Mul;
    MulScale(2, f.c1, 1, g.c5);
    MulScale(2, f.c3, 1, g.c3);
    MulScale(2, f.c5, 1, g.c1);
    MulScale(2, f.c7, 19, g.c9);
    MulScale(1, f.c8, 19, g.c8);
    MulScale(2, f.c9, 19, g.c7);
  }

  lemma SumOfColumn7(f: Columns, g: Columns)
    ensures ProductColumns(f, g).c7 ==
            Row0(f.c0, g).c7 + Row1(f.c1, g).c7 + Row2(f.c2, g).c7 + Row3(f.c3, g).c7 + Row4(f.c4, g).c7
            + Row5(f.c5, g).c7 + Row6(f.c6, g).c7 + Row7(f.c7, g).c7 + Row8(f.c8, g).c7 + Row9(f.c9, g).c7
  {
    hide Mul;
    MulScale(1, f.c8, 19, g.c9);
    MulScale(1, f.c9, 19, g.c8);
  }

  lemma SumOfColumn8(f: Columns, g: Columns)
    ensures ProductColumns(f, g).c8 ==
            Row0(f.c0, g).c8 + Row1(f.c1, g).c8 + Row2(f.c2, g).c8 + Row3(f.c3, g).c8 + Row4(f.c4, g).c8
            + Row5(f.c5, g).c8 + Row6(f.c6, g).c8 + Row7(f.c7, g).c8 + Row8(f.c8, g).c8 + Row9(f.c9, g).c8
  {
    hide Mul;
    MulScale(2, f.c1, 1, g.c7);
    MulScale(2, f.c3, 1, g.c5);
    MulScale(2, f.c5, 1, g.c3);
    MulScale(2, f.c7, 1, g.c1);
    MulScale(2, f.c9, 19, g.c9);
  }

  lemma SumOfColumn9(f: Columns, g: Columns)
    ensures ProductColumns(f, g).c9 ==
            Row0(f.c0, g).c9 + Row1(f.c1, g).c9 + Row2(f.c2, g).c9 + Row3(f.c3, g).c9 + Row4(f.c4, g).c9
            + Row5(f.c5, g).c9 + Row6(f.c6, g).c9 + Row7(f.c7, g).c9 + Row8(f.c8, g).c9 + Row9(f.c9, g).c9
  {
    hide Mul;
  }

  /** Summed by column, the rows are what fe_mul computes. */
  lemma SumOfRows(f: Columns, g: Columns)
    ensures ProductColumns(f, g) ==
            Row0(f.c0, g).Plus(Row1(f.c1, g)).Plus(Row2(f.c2, g)).Plus(Row3(f.c3, g)).Plus(Row4(f.c4, g))
            .Plus(Row5(f.c5, g)).Plus(Row6(f.c6, g)).Plus(Row7(f.c7, g)).Plus(Row8(f.c8, g)).Plus(Row9(f.c9, g))
  {
    hide ProductColumns, Row0, Row1, Row2, Row3, Row4, Row5, Row6, Row7, Row8, Row9;
    SumOfColumn0(f, g);
    SumOfColumn1(f, g);
    SumOfColumn2(f, g);
    SumOfColumn3(f, g);
    SumOfColumn4(f, g);
    SumOfColumn5(f, g);
    SumOfColumn6(f, g);
    SumOfColumn7(f, g);
    SumOfColumn8(f, g);
    SumOfColumn9(f, g);
  }

  /** The columns of fe_mul stand for the product modulo P. */
  lemma ColumnsAreProduct(f: Columns, g: Columns)
    ensures ProductColumns(f, g).Value() % P == f.Value() * g.Value() % P
  {
    hide Value10, ProductColumns, Row0, Row1, Row2, Row3, Row4, Row5, Row6, Row7, Row8, Row9;
    Distribute(f, g.Value());
    var k0 := Row0Value(f.c0, g);
    var k1 := Row1Value(f.c1, g);
    var k2 := Row2Value(f.c2, g);
    var k3 := Row3Value(f.c3, g);
    var k4 := Row4Value(f.c4, g);
    var k5 := Row5Value(f.c5, g);
    var k6 := Row6Value(f.c6, g);
    var k7 := Row7Value(f.c7, g);
    var k8 := Row8Value(f.c8, g);
    var k9 := Row9Value(f.c9, g);
    var s := PlusAll(Row0(f.c0, g), Row1(f.c1, g), Row2(f.c2, g), Row3(f.c3, g), Row4(f.c4, g), Row5(f.c5, g),
        Row6(f.c6, g), Row7(f.c7, g), Row8(f.c8, g), Row9(f.c9, g));
    SumOfRows(f, g);
    ModAddMultiple(s.Value(), k0 + k1 + k2 + k3 + k4 + k5 + k6 + k7 + k8 + k9);
  }

  lemma ProductBound(a: int, b: int)
    requires -0x800_0000 <= a <= 0x800_0000 && -0x8000_0000 <= b < 0x8000_0000
    ensures -0x400_0000_0000_0000 <= a * b <= 0x400_0000_0000_0000
  {
    var p, q := if a < 0 then -a else a, if b < 0 then -b else b;
    MulBound(p, q, 0x800_0000);
    assert a * b == p * q || a * b == -(p * q);
  }

  /** Ten 32-bit products summed in 64 bits without overflow. */
  method Column(a0: i32, b0: i32, a1: i32, b1: i32, a2: i32, b2: i32, a3: i32, b3: i32, a4: i32, b4: i32,
                a5: i32, b5: i32, a6: i32, b6: i32, a7: i32, b7: i32, a8: i32, b8: i32, a9: i32, b9: i32)
    returns (x: i64)
    requires Below(a0, 0x800_0000) && Below(a1, 0x800_0000) && Below(a2, 0x800_0000) && Below(a3, 0x800_0000)
    requires Below(a4, 0x800_0000) && Below(a5, 0x800_0000) && Below(a6, 0x800_0000) && Below(a7, 0x800_0000)
    requires Below(a8, 0x800_0000) && Below(a9, 0x800_0000)
    ensures Wide(x)
    ensures x as int ==
            Dot10(a0 as int, b0 as int, a1 as int, b1 as int, a2 as int, b2 as int, a3 as int, b3 as int, a4 as int,
                  b4 as int, a5 as int, b5 as int, a6 as int, b6 as int, a7 as int, b7 as int, a8 as int, b8 as int,
                  a9 as int, b9 as int)
  {
    ProductBound(a0 as int, b0 as int);
    ProductBound(a1 as int, b1 as int);
    ProductBound(a2 as int, b2 as int);
    ProductBound(a3 as int, b3 as int);
    ProductBound(a4 as int, b4 as int);
    ProductBound(a5 as int, b5 as int);
    ProductBound(a6 as int, b6 as int);
    ProductBound(a7 as int, b7 as int);
    ProductBound(a8 as int, b8 as int);
    ProductBound(a9 as int, b9 as int);
    x := a0 as i64 * b0 as i64 + a1 as i64 * b1 as i64 + a2 as i64 * b2 as i64 + a3 as i64 * b3 as i64 +
        a4 as i64 * b4 as i64 + a5 as i64 * b5 as i64 + a6 as i64 * b6 as i64 + a7 as i64 * b7 as i64 +
        a8 as i64 * b8 as i64 + a9 as i64 * b9 as i64;
  }

  /** The stated precondition of fe_mul: even limbs below 1.65 * 2^26, odd ones below 1.65 * 2^25. */
  predicate Spread(f: Fe) {
    && Below(f.t0, 110729625) && Below(f.t2, 110729625) && Below(f.t4, 110729625)
    && Below(f.t6, 110729625) && Below(f.t8, 110729625)
    && Below(f.t1, 55364812) && Below(f.t3, 55364812) && Below(f.t5, 55364812)
    && Below(f.t7, 55364812) && Below(f.t9, 55364812)
  }

  ghost function ColumnsOf(f: Fe): Columns {
    Columns(f.t0 as int, f.t1 as int, f.t2 as int, f.t3 as int, f.t4 as int,
            f.t5 as int, f.t6 as int, f.t7 as int, f.t8 as int, f.t9 as int)
  }

  /** fe_mul: the product modulo 2^255 - 19, again with small limbs. */
  method FeMul(f: Fe, g: Fe) returns (h: Fe)
    requires Spread(f) && Spread(g)
    ensures h.Carried() && h.Value() % P == f.Value() * g.Value() % P
  {
    hide Value10, Dot10;
    var F1, F3, F5, F7, F9 := f.t1 * 2, f.t3 * 2, f.t5 * 2, f.t7 * 2, f.t9 * 2;
    var G1, G2, G3, G4, G5 := g.t1 * 19, g.t2 * 19, g.t3 * 19, g.t4 * 19, g.t5 * 19;
    var G6, G7, G8, G9 := g.t6 * 19, g.t7 * 19, g.t8 * 19, g.t9 * 19;
    var t0 := Column(f.t0, g.t0, F1, G9, f.t2, G8, F3, G7, f.t4, G6, F5, G5, f.t6, G4, F7, G3, f.t8, G2, F9, G1);
    var t1 := Column(f.t0, g.t1, f.t1, g.t0, f.t2, G9, f.t3, G8, f.t4, G7,
                     f.t5, G6, f.t6, G5, f.t7, G4, f.t8, G3, f.t9, G2);
    var t2 := Column(f.t0, g.t2, F1, g.t1, f.t2, g.t0, F3, G9, f.t4, G8, F5, G7, f.t6, G6, F7, G5, f.t8, G4, F9, G3);
    var t3 := Column(f.t0, g.t3, f.t1, g.t2, f.t2, g.t1, f.t3, g.t0, f.t4, G9,
                     f.t5, G8, f.t6, G7, f.t7, G6, f.t8, G5, f.t9, G4);
    var t4 := Column(f.t0, g.t4, F1, g.t3, f.t2, g.t2, F3, g.t1, f.t4, g.t0,
                     F5, G9, f.t6, G8, F7, G7, f.t8, G6, F9, G5);
    var t5 := Column(f.t0, g.t5, f.t1, g.t4, f.t2, g.t3, f.t3, g.t2, f.t4, g.t1,
                     f.t5, g.t0, f.t6, G9, f.t7, G8, f.t8, G7, f.t9, G6);
    var t6 := Column(f.t0, g.t6, F1, g.t5, f.t2, g.t4, F3, g.t3, f.t4, g.t2,
                     F5, g.t1, f.t6, g.t0, F7, G9, f.t8, G8, F9, G7);
    var t7 := Column(f.t0, g.t7, f.t1, g.t6, f.t2, g.t5, f.t3, g.t4, f.t4, g.t3,
                     f.t5, g.t2, f.t6, g.t1, f.t7, g.t0, f.t8, G9, f.t9, G8);
    var t8 := Column(f.t0, g.t8, F1, g.t7, f.t2, g.t6, F3, g.t5, f.t4, g.t4,
                     F5, g.t3, f.t6, g.t2, F7, g.t1, f.t8, g.t0, F9, G9);
    var t9 := Column(f.t0, g.t9, f.t1, g.t8, f.t2, g.t7, f.t3, g.t6, f.t4, g.t5,
                     f.t5, g.t4, f.t6, g.t3, f.t7, g.t2, f.t8, g.t1, f.t9, g.t0);
    ColumnsAreProduct(ColumnsOf(f), ColumnsOf(g));
    h := FeCarry(t0, t1, t2, t3, t4, t5, t6, t7, t8, t9);
  }
}
