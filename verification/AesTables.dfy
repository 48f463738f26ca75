/** GF(2^8) and the T-tables of the AES implementation, for an arbitrary S-box and its inverse. */
module AesTables {
  import opened Words

  /** An S-box S and the table Si that is meant to undo it. */
  datatype SBox = SBox(s: Byte -> Byte, si: Byte -> Byte)

  ghost predicate Undoes(b: SBox) {
    forall x: Byte :: b.si(b.s(x)) == x
  }

  /** Multiplication by x modulo x^8 + x^4 + x^3 + x + 1: the bit shifted out comes back as 0x1b. */
  function XTime(x: Byte): Byte {
    var h := x.v >> 7;
    Byte((x.v << 1) ^ h ^ (h << 1) ^ (h << 3) ^ (h << 4))
  }

  function Mul3(x: Byte): Byte { Add(XTime(x), x) }
  function Mul9(x: Byte): Byte { Add(XTime(XTime(XTime(x))), x) }
  function MulB(x: Byte): Byte { Add(Add(XTime(XTime(XTime(x))), XTime(x)), x) }
  function MulD(x: Byte): Byte { Add(Add(XTime(XTime(XTime(x))), XTime(XTime(x))), x) }
  function MulE(x: Byte): Byte { Add(Add(XTime(XTime(XTime(x))), XTime(XTime(x))), XTime(x)) }

  // ---------------------------------------------------------------------------------------------
  // MixColumns (FIPS 197 sections 5.1.3 and 5.3.3)

  function Sum4(a: Byte, b: Byte, c: Byte, d: Byte): Byte {
    Add(Add(Add(a, b), c), d)
  }

  /** One row of the circulant matrices {02, 03, 01, 01} and {0e, 0b, 0d, 09}. */
  function MixRow(a: Byte, b: Byte, c: Byte, d: Byte): Byte {
    Sum4(XTime(a), Mul3(b), c, d)
  }

  function InvMixRow(a: Byte, b: Byte, c: Byte, d: Byte): Byte {
    Sum4(MulE(a), MulB(b), MulD(c), Mul9(d))
  }

  function MixColumn(w: Word): Word {
    var a, b, c, d := B0(w), B1(w), B2(w), B3(w);
    Pack(MixRow(a, b, c, d), MixRow(b, c, d, a), MixRow(c, d, a, b), MixRow(d, a, b, c))
  }

  function InvMixColumn(w: Word): Word {
    var a, b, c, d := B0(w), B1(w), B2(w), B3(w);
    Pack(InvMixRow(a, b, c, d), InvMixRow(b, c, d, a), InvMixRow(c, d, a, b), InvMixRow(d, a, b, c))
  }

  lemma {:induction false} XTimeLinear(x: Byte, y: Byte)
    ensures XTime(Add(x, y)) == Add(XTime(x), XTime(y))
  {
  }

  lemma {:induction false} XTimeSum4(a: Byte, b: Byte, c: Byte, d: Byte)
    ensures XTime(Sum4(a, b, c, d)) == Sum4(XTime(a), XTime(b), XTime(c), XTime(d))
  {
    hide XTime, Add;
    XTimeLinear(a, b);
    XTimeLinear(Add(a, b), c);
    XTimeLinear(Add(Add(a, b), c), d);
  }

  lemma {:induction false} XTimeMixRow(a: Byte, b: Byte, c: Byte, d: Byte)
    ensures XTime(MixRow(a, b, c, d)) == MixRow(XTime(a), XTime(b), XTime(c), XTime(d))
  {
    hide XTime, Add;
    XTimeSum4(XTime(a), Mul3(b), c, d);
    XTimeLinear(XTime(b), b);
  }

  lemma {:induction false} AddPairs(a: Byte, b: Byte, c: Byte, d: Byte)
    ensures Add(Add(a, b), Add(c, d)) == Add(Add(a, c), Add(b, d))
  {
  }

  lemma {:induction false} AddSums(a: Byte, b: Byte, c: Byte, d: Byte, p: Byte, q: Byte, r: Byte, s: Byte)
    ensures Add(Sum4(a, b, c, d), Sum4(p, q, r, s)) == Sum4(Add(a, p), Add(b, q), Add(c, r), Add(d, s))
  {
    hide Add;
    AddPairs(Add(Add(a, b), c), d, Add(Add(p, q), r), s);
    AddPairs(Add(a, b), c, Add(p, q), r);
    AddPairs(a, b, p, q);
  }

  lemma {:induction false} RotateOne(a: Byte, b: Byte, c: Byte, d: Byte)
    ensures Sum4(a, b, c, d) == Sum4(b, c, d, a)
  {
  }

  lemma {:induction false} Rotate(a: Byte, b: Byte, c: Byte, d: Byte)
    ensures Sum4(a, b, c, d) == Sum4(b, c, d, a) == Sum4(c, d, a, b) == Sum4(d, a, b, c)
  {
    hide Sum4;
    RotateOne(a, b, c, d);
    RotateOne(b, c, d, a);
    RotateOne(c, d, a, b);
  }

  /** The matrix rows add up column by column. */
  lemma {:induction false} AddColumns(a1: Byte, b1: Byte, c1: Byte, d1: Byte, a2: Byte, b2: Byte, c2: Byte, d2: Byte,
                                      a3: Byte, b3: Byte, c3: Byte, d3: Byte, a4: Byte, b4: Byte, c4: Byte, d4: Byte)
    ensures Sum4(Sum4(a1, b1, c1, d1), Sum4(a2, b2, c2, d2), Sum4(a3, b3, c3, d3), Sum4(a4, b4, c4, d4)) ==
            Sum4(Sum4(a1, a2, a3, a4), Sum4(b1, b2, b3, b4), Sum4(c1, c2, c3, c4), Sum4(d1, d2, d3, d4))
  {
    var s1, s2, s3, s4 := Sum4(a1, b1, c1, d1), Sum4(a2, b2, c2, d2), Sum4(a3, b3, c3, d3), Sum4(a4, b4, c4, d4);
    hide Add;
    AddSums(a1, b1, c1, d1, a2, b2, c2, d2);
    AddSums(Add(a1, a2), Add(b1, b2), Add(c1, c2), Add(d1, d2), a3, b3, c3, d3);
    AddSums(Add(Add(a1, a2), a3), Add(Add(b1, b2), b3), Add(Add(c1, c2), c3), Add(Add(d1, d2), d3), a4, b4, c4, d4);
  }

  // Products of a byte with constants, as sums of the byte's multiples x^0 .. x^4.

  datatype Multiples = Multiples(x0: Byte, x1: Byte, x2: Byte, x3: Byte, x4: Byte)
  datatype Poly = Poly(c0: bool, c1: bool, c2: bool, c3: bool, c4: bool)

  function PolyAdd(p: Poly, q: Poly): Poly {
    Poly(p.c0 != q.c0, p.c1 != q.c1, p.c2 != q.c2, p.c3 != q.c3, p.c4 != q.c4)
  }

  function Pick(c: bool, x: Byte): Byte { if c then x else Byte(0) }

  function Times(p: Poly, m: Multiples): Byte {
    Add(Sum4(Pick(p.c0, m.x0), Pick(p.c1, m.x1), Pick(p.c2, m.x2), Pick(p.c3, m.x3)), Pick(p.c4, m.x4))
  }

  lemma {:induction false} PickAdd(c: bool, d: bool, x: Byte)
    ensures Add(Pick(c, x), Pick(d, x)) == Pick(c != d, x)
  {
  }

  lemma {:induction false} TimesAdd(p: Poly, q: Poly, m: Multiples)
    ensures Add(Times(p, m), Times(q, m)) == Times(PolyAdd(p, q), m)
  {
    hide Add, Pick;
    AddPairs(Sum4(Pick(p.c0, m.x0), Pick(p.c1, m.x1), Pick(p.c2, m.x2), Pick(p.c3, m.x3)), Pick(p.c4, m.x4),
             Sum4(Pick(q.c0, m.x0), Pick(q.c1, m.x1), Pick(q.c2, m.x2), Pick(q.c3, m.x3)), Pick(q.c4, m.x4));
    AddSums(Pick(p.c0, m.x0), Pick(p.c1, m.x1), Pick(p.c2, m.x2), Pick(p.c3, m.x3),
            Pick(q.c0, m.x0), Pick(q.c1, m.x1), Pick(q.c2, m.x2), Pick(q.c3, m.x3));
    PickAdd(p.c0, q.c0, m.x0);
    PickAdd(p.c1, q.c1, m.x1);
    PickAdd(p.c2, q.c2, m.x2);
    PickAdd(p.c3, q.c3, m.x3);
    PickAdd(p.c4, q.c4, m.x4);
  }

  lemma {:induction false} AddZero(x: Byte)
    ensures Add(x, Byte(0)) == x && Add(Byte(0), x) == x
  {
  }

  /** One multiple at a time. */
  lemma {:induction false} TimesUnits(m: Multiples)
    ensures Times(Poly(true, false, false, false, false), m) == m.x0
    ensures Times(Poly(false, true, false, false, false), m) == m.x1
    ensures Times(Poly(false, false, true, false, false), m) == m.x2
    ensures Times(Poly(false, false, false, true, false), m) == m.x3
    ensures Times(Poly(false, false, false, false, true), m) == m.x4
    ensures Times(Poly(false, false, false, false, false), m) == Byte(0)
  {
    hide Add;
    AddZero(m.x0);
    AddZero(m.x1);
    AddZero(m.x2);
    AddZero(m.x3);
    AddZero(m.x4);
    AddZero(Byte(0));
  }

  function MultiplesOf(x: Byte): Multiples {
    Multiples(x, XTime(x), XTime(XTime(x)), XTime(XTime(XTime(x))), XTime(XTime(XTime(XTime(x)))))
  }

  /** The constants 09, 0b, 0d and 0e, and their products with 02, as polynomials. */
  lemma {:induction false} ConstantPolys(x: Byte)
    ensures var m := MultiplesOf(x);
            && Mul9(x) == Times(Poly(true, false, false, true, false), m)
            && MulB(x) == Times(Poly(true, true, false, true, false), m)
            && MulD(x) == Times(Poly(true, false, true, true, false), m)
            && MulE(x) == Times(Poly(false, true, true, true, false), m)
  {
    hide XTime, Add, Times;
    var m := MultiplesOf(x);
    TimesUnits(m);
    var e0, e1 := Poly(true, false, false, false, false), Poly(false, true, false, false, false);
    var e2, e3 := Poly(false, false, true, false, false), Poly(false, false, false, true, false);
    TimesAdd(e3, e0, m);
    TimesAdd(e3, e1, m);
    TimesAdd(PolyAdd(e3, e1), e0, m);
    TimesAdd(e3, e2, m);
    TimesAdd(PolyAdd(e3, e2), e0, m);
    TimesAdd(PolyAdd(e3, e2), e1, m);
  }

  lemma {:induction false} DoubledPolys(x: Byte)
    ensures var m := MultiplesOf(x);
            && XTime(Mul9(x)) == Times(Poly(false, true, false, false, true), m)
            && XTime(MulB(x)) == Times(Poly(false, true, true, false, true), m)
            && XTime(MulD(x)) == Times(Poly(false, true, false, true, true), m)
            && XTime(MulE(x)) == Times(Poly(false, false, true, true, true), m)
  {
    hide XTime, Add, Times;
    var m := MultiplesOf(x);
    TimesUnits(m);
    var e1, e2 := Poly(false, true, false, false, false), Poly(false, false, true, false, false);
    var e3, e4 := Poly(false, false, false, true, false), Poly(false, false, false, false, true);
    XTimeLinear(m.x3, m.x0);
    TimesAdd(e4, e1, m);
    XTimeLinear(m.x3, m.x1);
    XTimeLinear(Add(m.x3, m.x1), m.x0);
    TimesAdd(e4, e2, m);
    TimesAdd(PolyAdd(e4, e2), e1, m);
    XTimeLinear(m.x3, m.x2);
    XTimeLinear(Add(m.x3, m.x2), m.x0);
    TimesAdd(e4, e3, m);
    TimesAdd(PolyAdd(e4, e3), e1, m);
    XTimeLinear(Add(m.x3, m.x2), m.x1);
    TimesAdd(PolyAdd(e4, e3), e2, m);
  }

  lemma {:induction false} TimesSum4(p: Poly, q: Poly, r: Poly, s: Poly, m: Multiples)
    ensures Sum4(Times(p, m), Times(q, m), Times(r, m), Times(s, m)) == Times(PolyAdd(PolyAdd(PolyAdd(p, q), r), s), m)
  {
    hide Add, Times;
    TimesAdd(p, q, m);
    TimesAdd(PolyAdd(p, q), r, m);
    TimesAdd(PolyAdd(PolyAdd(p, q), r), s, m);
  }

  /** A byte times a column of the matrix product {0e, 0b, 0d, 09} * {02, 03, 01, 01}. */
  lemma {:induction false} Product(x: Byte)
    ensures Sum4(XTime(MulE(x)), MulB(x), MulD(x), Mul3(Mul9(x))) == x
    ensures Sum4(Mul3(MulE(x)), XTime(MulB(x)), MulD(x), Mul9(x)) == Byte(0)
    ensures Sum4(MulE(x), Mul3(MulB(x)), XTime(MulD(x)), Mul9(x)) == Byte(0)
    ensures Sum4(MulE(x), MulB(x), Mul3(MulD(x)), XTime(Mul9(x))) == Byte(0)
  {
    hide XTime, Add, Sum4, Times, MulE, MulB, MulD, Mul9;
    var m := MultiplesOf(x);
    ConstantPolys(x);
    DoubledPolys(x);
    TimesUnits(m);
    var p9, pB := Poly(true, false, false, true, false), Poly(true, true, false, true, false);
    var pD, pE := Poly(true, false, true, true, false), Poly(false, true, true, true, false);
    var q9, qB := Poly(false, true, false, false, true), Poly(false, true, true, false, true);
    var qD, qE := Poly(false, true, false, true, true), Poly(false, false, true, true, true);
    TimesAdd(q9, p9, m);
    TimesAdd(qE, pE, m);
    TimesAdd(qB, pB, m);
    TimesAdd(qD, pD, m);
    TimesSum4(qE, pB, pD, PolyAdd(q9, p9), m);
    TimesSum4(PolyAdd(qE, pE), qB, pD, p9, m);
    TimesSum4(pE, PolyAdd(qB, pB), qD, p9, m);
    TimesSum4(pE, pB, PolyAdd(qD, pD), q9, m);
  }

  lemma {:induction false} Powers(a: Byte, b: Byte, c: Byte, d: Byte)
    ensures var p := MixRow(a, b, c, d);
            var a1, b1, c1, d1 := XTime(a), XTime(b), XTime(c), XTime(d);
            var a2, b2, c2, d2 := XTime(a1), XTime(b1), XTime(c1), XTime(d1);
            && XTime(p) == MixRow(a1, b1, c1, d1)
            && XTime(XTime(p)) == MixRow(a2, b2, c2, d2)
            && XTime(XTime(XTime(p))) == MixRow(XTime(a2), XTime(b2), XTime(c2), XTime(d2))
  {
    hide XTime, MixRow;
    XTimeMixRow(a, b, c, d);
    XTimeMixRow(XTime(a), XTime(b), XTime(c), XTime(d));
    XTimeMixRow(XTime(XTime(a)), XTime(XTime(b)), XTime(XTime(c)), XTime(XTime(d)));
  }

  lemma {:induction false} MixRowAdd(a: Byte, b: Byte, c: Byte, d: Byte, p: Byte, q: Byte, r: Byte, s: Byte)
    ensures Add(MixRow(a, b, c, d), MixRow(p, q, r, s)) == MixRow(Add(a, p), Add(b, q), Add(c, r), Add(d, s))
  {
    hide XTime, Add, Sum4;
    AddSums(XTime(a), Mul3(b), c, d, XTime(p), Mul3(q), r, s);
    XTimeLinear(a, p);
    XTimeLinear(b, q);
    AddPairs(XTime(b), b, XTime(q), q);
  }

  /** Multiplying a mixed row mixes the multiplied bytes. */
  lemma {:induction false} MulMixRow(a: Byte, b: Byte, c: Byte, d: Byte)
    ensures MulE(MixRow(a, b, c, d)) == MixRow(MulE(a), MulE(b), MulE(c), MulE(d))
    ensures MulB(MixRow(a, b, c, d)) == MixRow(MulB(a), MulB(b), MulB(c), MulB(d))
    ensures MulD(MixRow(a, b, c, d)) == MixRow(MulD(a), MulD(b), MulD(c), MulD(d))
    ensures Mul9(MixRow(a, b, c, d)) == MixRow(Mul9(a), Mul9(b), Mul9(c), Mul9(d))
  {
    hide XTime, Add, MixRow;
    Powers(a, b, c, d);
    var a1, b1, c1, d1 := XTime(a), XTime(b), XTime(c), XTime(d);
    var a2, b2, c2, d2 := XTime(a1), XTime(b1), XTime(c1), XTime(d1);
    var a3, b3, c3, d3 := XTime(a2), XTime(b2), XTime(c2), XTime(d2);
    MixRowAdd(a3, b3, c3, d3, a2, b2, c2, d2);
    MixRowAdd(Add(a3, a2), Add(b3, b2), Add(c3, c2), Add(d3, d2), a1, b1, c1, d1);
    MixRowAdd(Add(a3, a2), Add(b3, b2), Add(c3, c2), Add(d3, d2), a, b, c, d);
    MixRowAdd(a3, b3, c3, d3, a1, b1, c1, d1);
    MixRowAdd(Add(a3, a1), Add(b3, b1), Add(c3, c1), Add(d3, d1), a, b, c, d);
    MixRowAdd(a3, b3, c3, d3, a, b, c, d);
  }

  lemma {:induction false} AddZeros(a: Byte)
    ensures Sum4(a, Byte(0), Byte(0), Byte(0)) == a
  {
  }

  /** The two circulant matrices are inverse to each other. */
  lemma {:induction false} RowsCancel(a: Byte, b: Byte, c: Byte, d: Byte)
    ensures InvMixRow(MixRow(a, b, c, d), MixRow(b, c, d, a), MixRow(c, d, a, b), MixRow(d, a, b, c)) == a
  {
    hide XTime, Add, Sum4, Mul3, Mul9, MulB, MulD, MulE;
    MulMixRow(a, b, c, d);
    MulMixRow(b, c, d, a);
    MulMixRow(c, d, a, b);
    MulMixRow(d, a, b, c);
    Rotate(XTime(MulB(b)), Mul3(MulB(c)), MulB(d), MulB(a));
    Rotate(XTime(MulD(c)), Mul3(MulD(d)), MulD(a), MulD(b));
    Rotate(XTime(Mul9(d)), Mul3(Mul9(a)), Mul9(b), Mul9(c));
    AddColumns(XTime(MulE(a)), Mul3(MulE(b)), MulE(c), MulE(d), MulB(a), XTime(MulB(b)), Mul3(MulB(c)), MulB(d),
               MulD(a), MulD(b), XTime(MulD(c)), Mul3(MulD(d)), Mul3(Mul9(a)), Mul9(b), Mul9(c), XTime(Mul9(d)));
    Product(a);
    Product(b);
    Product(c);
    Product(d);
    AddZeros(a);
  }

  lemma {:induction false} InvMixColumnMixColumn(w: Word)
    ensures InvMixColumn(MixColumn(w)) == w
  {
    hide MixRow, InvMixRow, B0, B1, B2, B3, Pack;
    var a, b, c, d := B0(w), B1(w), B2(w), B3(w);
    RowsCancel(a, b, c, d);
    RowsCancel(b, c, d, a);
    RowsCancel(c, d, a, b);
    RowsCancel(d, a, b, c);
    BytesPack(MixRow(a, b, c, d), MixRow(b, c, d, a), MixRow(c, d, a, b), MixRow(d, a, b, c));
    PackBytes(w);
  }

  lemma {:induction false} MulAdd(x: Byte, y: Byte)
    ensures MulE(Add(x, y)) == Add(MulE(x), MulE(y)) && MulB(Add(x, y)) == Add(MulB(x), MulB(y))
    ensures MulD(Add(x, y)) == Add(MulD(x), MulD(y)) && Mul9(Add(x, y)) == Add(Mul9(x), Mul9(y))
  {
    hide XTime, Add;
    var x1, y1 := XTime(x), XTime(y);
    var x2, y2 := XTime(x1), XTime(y1);
    var x3, y3 := XTime(x2), XTime(y2);
    XTimeLinear(x, y);
    XTimeLinear(x1, y1);
    XTimeLinear(x2, y2);
    AddPairs(x3, y3, x2, y2);
    AddPairs(x3, y3, x1, y1);
    AddPairs(x3, y3, x, y);
    AddPairs(Add(x3, x2), Add(y3, y2), x1, y1);
    AddPairs(Add(x3, x1), Add(y3, y1), x, y);
    AddPairs(Add(x3, x2), Add(y3, y2), x, y);
  }

  lemma {:induction false} InvMixRowAdd(a: Byte, b: Byte, c: Byte, d: Byte, p: Byte, q: Byte, r: Byte, s: Byte)
    ensures InvMixRow(Add(a, p), Add(b, q), Add(c, r), Add(d, s)) == Add(InvMixRow(a, b, c, d), InvMixRow(p, q, r, s))
  {
    hide Add, Sum4, MulE, MulB, MulD, Mul9;
    MulAdd(a, p);
    MulAdd(b, q);
    MulAdd(c, r);
    MulAdd(d, s);
    AddSums(MulE(a), MulB(b), MulD(c), Mul9(d), MulE(p), MulB(q), MulD(r), Mul9(s));
  }

  /** InvMixColumns is linear, so it can be moved across the addition of a round key. */
  lemma {:induction false} InvMixColumnXor(v: Word, w: Word)
    ensures InvMixColumn(Xor(v, w)) == Xor(InvMixColumn(v), InvMixColumn(w))
  {
    hide InvMixRow, B0, B1, B2, B3, Pack, Add, Xor;
    var a, b, c, d := B0(v), B1(v), B2(v), B3(v);
    var p, q, r, s := B0(w), B1(w), B2(w), B3(w);
    XorBytes(v, w);
    InvMixRowAdd(a, b, c, d, p, q, r, s);
    InvMixRowAdd(b, c, d, a, q, r, s, p);
    InvMixRowAdd(c, d, a, b, r, s, p, q);
    InvMixRowAdd(d, a, b, c, s, p, q, r);
    PackXor(InvMixRow(a, b, c, d), InvMixRow(b, c, d, a), InvMixRow(c, d, a, b), InvMixRow(d, a, b, c),
            InvMixRow(p, q, r, s), InvMixRow(q, r, s, p), InvMixRow(r, s, p, q), InvMixRow(s, p, q, r));
  }

  // ---------------------------------------------------------------------------------------------
  // The tables, by the rule that defines them

  function Te0(t: SBox, x: Byte): Word { var y := t.s(x); Pack(XTime(y), y, y, Mul3(y)) }
  function Te1(t: SBox, x: Byte): Word { var y := t.s(x); Pack(Mul3(y), XTime(y), y, y) }
  function Te2(t: SBox, x: Byte): Word { var y := t.s(x); Pack(y, Mul3(y), XTime(y), y) }
  function Te3(t: SBox, x: Byte): Word { var y := t.s(x); Pack(y, y, Mul3(y), XTime(y)) }
  function Te4(t: SBox, x: Byte): Word { var y := t.s(x); Pack(y, y, y, y) }

  function Td0(t: SBox, x: Byte): Word { var y := t.si(x); Pack(MulE(y), Mul9(y), MulD(y), MulB(y)) }
  function Td1(t: SBox, x: Byte): Word { var y := t.si(x); Pack(MulB(y), MulE(y), Mul9(y), MulD(y)) }
  function Td2(t: SBox, x: Byte): Word { var y := t.si(x); Pack(MulD(y), MulB(y), MulE(y), Mul9(y)) }
  function Td3(t: SBox, x: Byte): Word { var y := t.si(x); Pack(Mul9(y), MulD(y), MulB(y), MulE(y)) }
  function Td4(t: SBox, x: Byte): Word { var y := t.si(x); Pack(y, y, y, y) }

  /** Adding four packed columns. */
  lemma {:induction false} PackSum4(a1: Byte, b1: Byte, c1: Byte, d1: Byte, a2: Byte, b2: Byte, c2: Byte, d2: Byte,
                                    a3: Byte, b3: Byte, c3: Byte, d3: Byte, a4: Byte, b4: Byte, c4: Byte, d4: Byte)
    ensures Xor(Xor(Xor(Pack(a1, b1, c1, d1), Pack(a2, b2, c2, d2)), Pack(a3, b3, c3, d3)), Pack(a4, b4, c4, d4)) ==
            Pack(Sum4(a1, a2, a3, a4), Sum4(b1, b2, b3, b4), Sum4(c1, c2, c3, c4), Sum4(d1, d2, d3, d4))
  {
    hide Pack, Add, Xor;
    PackXor(a1, b1, c1, d1, a2, b2, c2, d2);
    PackXor(Add(a1, a2), Add(b1, b2), Add(c1, c2), Add(d1, d2), a3, b3, c3, d3);
    PackXor(Add(Add(a1, a2), a3), Add(Add(b1, b2), b3), Add(Add(c1, c2), c3), Add(Add(d1, d2), d3), a4, b4, c4, d4);
  }

  /** Four T-table look-ups substitute and mix a whole column. */
  lemma {:induction false} TeColumn(t: SBox, x0: Byte, x1: Byte, x2: Byte, x3: Byte)
    ensures Xor(Xor(Xor(Te0(t, x0), Te1(t, x1)), Te2(t, x2)), Te3(t, x3)) ==
            MixColumn(Pack(t.s(x0), t.s(x1), t.s(x2), t.s(x3)))
  {
    hide XTime, Mul3, B0, B1, B2, B3, Pack, Sum4, Xor;
    var a, b, c, d := t.s(x0), t.s(x1), t.s(x2), t.s(x3);
    BytesPack(a, b, c, d);
    PackSum4(XTime(a), a, a, Mul3(a), Mul3(b), XTime(b), b, b, c, Mul3(c), XTime(c), c, d, d, Mul3(d), XTime(d));
    Rotate(XTime(b), Mul3(c), d, a);
    Rotate(XTime(c), Mul3(d), a, b);
    Rotate(XTime(d), Mul3(a), b, c);
  }

  lemma {:induction false} TdColumn(t: SBox, x0: Byte, x1: Byte, x2: Byte, x3: Byte)
    ensures Xor(Xor(Xor(Td0(t, x0), Td1(t, x1)), Td2(t, x2)), Td3(t, x3)) ==
            InvMixColumn(Pack(t.si(x0), t.si(x1), t.si(x2), t.si(x3)))
  {
    hide Mul9, MulB, MulD, MulE, B0, B1, B2, B3, Pack, Sum4, Xor;
    var a, b, c, d := t.si(x0), t.si(x1), t.si(x2), t.si(x3);
    BytesPack(a, b, c, d);
    PackSum4(MulE(a), Mul9(a), MulD(a), MulB(a), MulB(b), MulE(b), Mul9(b), MulD(b),
             MulD(c), MulB(c), MulE(c), Mul9(c), Mul9(d), MulD(d), MulB(d), MulE(d));
    Rotate(MulE(b), MulB(c), MulD(d), Mul9(a));
    Rotate(MulE(c), MulB(d), MulD(a), Mul9(b));
    Rotate(MulE(d), MulB(a), MulD(b), Mul9(c));
  }

  function Masked(a: Word, b: Word, c: Word, d: Word): Word {
    Xor(Xor(Xor(And(a, 0xff000000), And(b, 0x00ff0000)), And(c, 0x0000ff00)), And(d, 0x000000ff))
  }

  /** The masked look-ups of the last round and of the key expansion. */
  lemma {:induction false} MaskColumn(a: Byte, b: Byte, c: Byte, d: Byte)
    ensures Masked(Pack(a, a, a, a), Pack(b, b, b, b), Pack(c, c, c, c), Pack(d, d, d, d)) == Pack(a, b, c, d)
    ensures B3(Pack(a, a, a, a)) == a
  {
    MaskBits(a.v, b.v, c.v, d.v);
  }

  lemma {:induction false} MaskBits(a: bv8, b: bv8, c: bv8, d: bv8)
    ensures ((PackBits(a, a, a, a) & 0xff000000) ^ (PackBits(b, b, b, b) & 0x00ff0000) ^ (PackBits(c, c, c, c) & 0x0000ff00)
             ^ (PackBits(d, d, d, d) & 0x000000ff)) == PackBits(a, b, c, d)
    ensures (PackBits(a, a, a, a) & 0xff) as bv8 == a
  {
  }
}
