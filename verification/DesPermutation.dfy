/** The bit exchanges of DES do the initial permutation of FIPS 46-3. */
module DesPermutation {
  import opened Words
  import opened DesBits

  // Bit k of each of the eight bytes of a block, the last byte's bit first. The rows of the table IP are such
  // columns: 58, 50, .., 2 are the bits 6 of the bytes 8, 7, .., 1.

  function Column0(b: Pair): Word {
    Word(((b.r.v & 1) << 7) | (((b.r.v >> 8) & 1) << 6) | (((b.r.v >> 16) & 1) << 5) | (((b.r.v >> 24) & 1) << 4)
         | ((b.l.v & 1) << 3) | (((b.l.v >> 8) & 1) << 2) | (((b.l.v >> 16) & 1) << 1) | ((b.l.v >> 24) & 1))
  }

  function Column1(b: Pair): Word {
    Word((((b.r.v >> 1) & 1) << 7) | (((b.r.v >> 9) & 1) << 6) | (((b.r.v >> 17) & 1) << 5) | (((b.r.v >> 25) & 1) << 4)
         | (((b.l.v >> 1) & 1) << 3) | (((b.l.v >> 9) & 1) << 2) | (((b.l.v >> 17) & 1) << 1) | ((b.l.v >> 25) & 1))
  }

  function Column2(b: Pair): Word {
    Word((((b.r.v >> 2) & 1) << 7) | (((b.r.v >> 10) & 1) << 6) | (((b.r.v >> 18) & 1) << 5) | (((b.r.v >> 26) & 1) << 4)
         | (((b.l.v >> 2) & 1) << 3) | (((b.l.v >> 10) & 1) << 2) | (((b.l.v >> 18) & 1) << 1) | ((b.l.v >> 26) & 1))
  }

  function Column3(b: Pair): Word {
    Word((((b.r.v >> 3) & 1) << 7) | (((b.r.v >> 11) & 1) << 6) | (((b.r.v >> 19) & 1) << 5) | (((b.r.v >> 27) & 1) << 4)
         | (((b.l.v >> 3) & 1) << 3) | (((b.l.v >> 11) & 1) << 2) | (((b.l.v >> 19) & 1) << 1) | ((b.l.v >> 27) & 1))
  }

  function Column4(b: Pair): Word {
    Word((((b.r.v >> 4) & 1) << 7) | (((b.r.v >> 12) & 1) << 6) | (((b.r.v >> 20) & 1) << 5) | (((b.r.v >> 28) & 1) << 4)
         | (((b.l.v >> 4) & 1) << 3) | (((b.l.v >> 12) & 1) << 2) | (((b.l.v >> 20) & 1) << 1) | ((b.l.v >> 28) & 1))
  }

  function Column5(b: Pair): Word {
    Word((((b.r.v >> 5) & 1) << 7) | (((b.r.v >> 13) & 1) << 6) | (((b.r.v >> 21) & 1) << 5) | (((b.r.v >> 29) & 1) << 4)
         | (((b.l.v >> 5) & 1) << 3) | (((b.l.v >> 13) & 1) << 2) | (((b.l.v >> 21) & 1) << 1) | ((b.l.v >> 29) & 1))
  }

  function Column6(b: Pair): Word {
    Word((((b.r.v >> 6) & 1) << 7) | (((b.r.v >> 14) & 1) << 6) | (((b.r.v >> 22) & 1) << 5) | (((b.r.v >> 30) & 1) << 4)
         | (((b.l.v >> 6) & 1) << 3) | (((b.l.v >> 14) & 1) << 2) | (((b.l.v >> 22) & 1) << 1) | ((b.l.v >> 30) & 1))
  }

  function Column7(b: Pair): Word {
    Word((((b.r.v >> 7) & 1) << 7) | (((b.r.v >> 15) & 1) << 6) | (((b.r.v >> 23) & 1) << 5) | (((b.r.v >> 31) & 1) << 4)
         | (((b.l.v >> 7) & 1) << 3) | (((b.l.v >> 15) & 1) << 2) | (((b.l.v >> 23) & 1) << 1) | ((b.l.v >> 31) & 1))
  }

  function First(w: Word): Word { Word(w.v >> 24) }
  function Second(w: Word): Word { Word((w.v >> 16) & 0xff) }
  function Third(w: Word): Word { Word((w.v >> 8) & 0xff) }
  function Fourth(w: Word): Word { Word(w.v & 0xff) }

  function Join(a: Word, b: Word, c: Word, d: Word): Word {
    Word((a.v << 24) | (b.v << 16) | (c.v << 8) | d.v)
  }

  lemma {:induction false} JoinParts(w: Word)
    ensures Join(First(w), Second(w), Third(w), Fourth(w)) == w
  {
  }

  /** L0 and R0 of FIPS 46-3. */
  function InitialPermutation(b: Pair): Pair {
    Pair(Join(Column6(b), Column4(b), Column2(b), Column0(b)), Join(Column7(b), Column5(b), Column3(b), Column1(b)))
  }

  function High(x: Word): Word { Word(x.v >> 4) }
  function Low4(x: Word): Word { Word(x.v & 15) }

  function Bit0(x: Word): Word { Word(x.v & 1) }
  function Bit1(x: Word): Word { Word(x.v & 2) }
  function Bit2(x: Word): Word { Word(x.v & 4) }
  function Bit3(x: Word): Word { Word(x.v & 8) }

  lemma {:induction false} FourBits(x: Word, y: Word)
    requires Bit0(x) == Bit0(y) && Bit1(x) == Bit1(y) && Bit2(x) == Bit2(y) && Bit3(x) == Bit3(y)
    ensures Low4(x) == Low4(y)
  {
  }

  lemma {:induction false} Halves(x: Word, y: Word)
    requires High(x) == High(y) && Low4(x) == Low4(y)
    ensures x == y
  {
  }

  lemma {:induction false} FirstLeft(b: Pair)
    ensures First(Ror(Initial(b).l)) == Column6(b)
  {
  }

  lemma {:induction false} SecondLeftHigh(b: Pair)
    ensures High(Second(Ror(Initial(b).l))) == High(Column4(b))
  {
  }

  lemma {:induction false} SecondLeftLow(b: Pair)
    ensures Low4(Second(Ror(Initial(b).l))) == Low4(Column4(b))
  {
  }

  lemma {:induction false} SecondLeft(b: Pair)
    ensures Second(Ror(Initial(b).l)) == Column4(b)
  {
    hide Initial, Ror, Second, Column4, High, Low4;
    SecondLeftHigh(b);
    SecondLeftLow(b);
    Halves(Second(Ror(Initial(b).l)), Column4(b));
  }

  lemma {:induction false} ThirdLeft(b: Pair)
    ensures Third(Ror(Initial(b).l)) == Column2(b)
  {
  }

  lemma {:induction false} FourthLeft(b: Pair)
    ensures Fourth(Ror(Initial(b).l)) == Column0(b)
  {
  }

  lemma {:induction false} FirstRightHigh(b: Pair)
    ensures High(First(Ror(Initial(b).r))) == High(Column7(b))
  {
  }

  // The way of the highest bit of the left half through the five exchanges

  function At31(x: Word): Word { Word(x.v >> 31) }
  function At27(x: Word): Word { Word((x.v >> 27) & 1) }
  function At25(x: Word): Word { Word((x.v >> 25) & 1) }

  lemma {:induction false} Way4(a: Word, b: Word)
    ensures At27(X4(a, b).r) == At31(a)
  {
  }

  lemma {:induction false} Way16(a: Word, b: Word)
    ensures At27(X16(a, b).r) == At27(b)
  {
  }

  lemma {:induction false} Way2(a: Word, b: Word)
    ensures At25(X2(a, b).r) == At27(a)
  {
  }

  lemma {:induction false} Way8(a: Word, b: Word)
    ensures At25(X8(a, b).r) == At25(b)
  {
  }

  lemma {:induction false} Way1(a: Word, b: Word)
    ensures At25(X1(a, b).r) == At25(a)
  {
  }

  lemma {:induction false} WayOut(x: Word)
    ensures Bit0(First(Ror(x))) == At25(x)
  {
  }

  lemma {:induction false} WayIn(b: Pair)
    ensures Bit0(Column7(b)) == At31(b.l)
  {
  }

  lemma {:induction false} FirstRight0(b: Pair)
    ensures Bit0(First(Ror(Initial(b).r))) == Bit0(Column7(b))
  {
    hide X4, X16, X2, X8, X1, Rol, Ror, First, Bit0, Column7, At31, At27, At25;
    var p1 := X4(b.l, b.r);
    var p2 := X16(p1.l, p1.r);
    var p3 := X2(p2.r, p2.l);
    var p4 := X8(p3.l, p3.r);
    WayIn(b);
    Way4(b.l, b.r);
    Way16(p1.l, p1.r);
    Way2(p2.r, p2.l);
    Way8(p3.l, p3.r);
    Way1(p4.r, Rol(p4.l));
    WayOut(Initial(b).r);
  }

  lemma {:induction false} FirstRight1(b: Pair)
    ensures Bit1(First(Ror(Initial(b).r))) == Bit1(Column7(b))
  {
  }

  lemma {:induction false} FirstRight2(b: Pair)
    ensures Bit2(First(Ror(Initial(b).r))) == Bit2(Column7(b))
  {
  }

  lemma {:induction false} FirstRight3(b: Pair)
    ensures Bit3(First(Ror(Initial(b).r))) == Bit3(Column7(b))
  {
  }

  lemma {:induction false} FirstRightLow(b: Pair)
    ensures Low4(First(Ror(Initial(b).r))) == Low4(Column7(b))
  {
    hide Initial, Ror, First, Column7, Bit0, Bit1, Bit2, Bit3, Low4;
    FirstRight0(b);
    FirstRight1(b);
    FirstRight2(b);
    FirstRight3(b);
    FourBits(First(Ror(Initial(b).r)), Column7(b));
  }

  lemma {:induction false} FirstRight(b: Pair)
    ensures First(Ror(Initial(b).r)) == Column7(b)
  {
    hide Initial, Ror, First, Column7, High, Low4;
    FirstRightHigh(b);
    FirstRightLow(b);
    Halves(First(Ror(Initial(b).r)), Column7(b));
  }

  lemma {:induction false} SecondRight(b: Pair)
    ensures Second(Ror(Initial(b).r)) == Column5(b)
  {
  }

  lemma {:induction false} ThirdRight(b: Pair)
    ensures Third(Ror(Initial(b).r)) == Column3(b)
  {
  }

  lemma {:induction false} FourthRight(b: Pair)
    ensures Fourth(Ror(Initial(b).r)) == Column1(b)
  {
  }

  /** The program's initial permutation is the standard's, with both halves rotated left by one bit. */
  lemma {:induction false} InitialIsStandard(b: Pair)
    ensures var ip := InitialPermutation(b); Initial(b) == Pair(Rol(ip.l), Rol(ip.r))
  {
    hide Initial, Ror, Rol, Join, First, Second, Third, Fourth;
    hide Column0, Column1, Column2, Column3, Column4, Column5, Column6, Column7;
    var s := Initial(b);
    FirstLeft(b);
    SecondLeft(b);
    ThirdLeft(b);
    FourthLeft(b);
    JoinParts(Ror(s.l));
    RolRor(s.l);
    FirstRight(b);
    SecondRight(b);
    ThirdRight(b);
    FourthRight(b);
    JoinParts(Ror(s.r));
    RolRor(s.r);
  }
}
