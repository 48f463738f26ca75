/** The bits of a word, and what the operations on words do to them. */
module DesWordBits {
  import opened Words
  import opened DesBits
  import opened DesRounds

  function Half(w: Word): Word { Word(w.v >> 1) }
  function Double(w: Word): Word { Word(w.v << 1) }
  function AndWord(a: Word, b: Word): Word { Word(a.v & b.v) }
  predicate Odd(w: Word) { w.v & 1 == 1 }

  function Halves(w: Word, n: nat): Word {
    if n == 0 then w else Half(Halves(w, n - 1))
  }

  /** The last n bits. */
  function BitsOf(w: Word, n: nat): (b: seq<bool>)
    ensures |b| == n
    decreases n
  {
    if n == 0 then [] else BitsOf(Half(w), n - 1) + [Odd(w)]
  }

  function WordOf(bits: seq<bool>): Word {
    if bits == [] then Word(0) else Or(Double(WordOf(bits[..|bits| - 1])), BitWord(bits[|bits| - 1]))
  }

  function BitWord(b: bool): Word { if b then Word(1) else Word(0) }

  function XorBits(a: seq<bool>, b: seq<bool>): (r: seq<bool>)
    requires |a| == |b|
    ensures |r| == |a| && forall i | 0 <= i < |a| :: r[i] == (a[i] != b[i])
  {
    seq(|a|, i requires 0 <= i < |a| => a[i] != b[i])
  }

  function OrBits(a: seq<bool>, b: seq<bool>): (r: seq<bool>)
    requires |a| == |b|
    ensures |r| == |a| && forall i | 0 <= i < |a| :: r[i] == (a[i] || b[i])
  {
    seq(|a|, i requires 0 <= i < |a| => a[i] || b[i])
  }

  lemma {:induction false} HalfXor(a: Word, b: Word)
    ensures Half(Xor(a, b)) == Xor(Half(a), Half(b))
  {
  }

  lemma {:induction false} OddXor(a: Word, b: Word)
    ensures Odd(Xor(a, b)) <==> Odd(a) != Odd(b)
  {
  }

  lemma {:induction false} HalfOr(a: Word, b: Word)
    ensures Half(Or(a, b)) == Or(Half(a), Half(b))
  {
  }

  lemma {:induction false} OddOr(a: Word, b: Word)
    ensures Odd(Or(a, b)) <==> Odd(a) || Odd(b)
  {
  }

  lemma {:induction false} DoubleOr(a: Word, b: Word)
    ensures Double(Or(a, b)) == Or(Double(a), Double(b))
  {
  }

  lemma {:induction false} OrFour(a: Word, b: Word, c: Word, d: Word)
    ensures Or(Or(a, b), Or(c, d)) == Or(Or(a, c), Or(b, d))
  {
  }

  lemma {:induction false} OrBitWords(x: bool, y: bool)
    ensures Or(BitWord(x), BitWord(y)) == BitWord(x || y)
  {
  }

  lemma {:induction false} RolOr(a: Word, b: Word)
    ensures Rol(Or(a, b)) == Or(Rol(a), Rol(b))
  {
  }

  lemma {:induction false} RolXor(a: Word, b: Word)
    ensures Rol(Xor(a, b)) == Xor(Rol(a), Rol(b))
  {
  }

  lemma {:induction false} BitsOfXor(a: Word, b: Word, n: nat)
    ensures BitsOf(Xor(a, b), n) == XorBits(BitsOf(a, n), BitsOf(b, n))
    decreases n
  {
    hide Xor, Half, Odd;
    if n > 0 {
      HalfXor(a, b);
      OddXor(a, b);
      BitsOfXor(Half(a), Half(b), n - 1);
    }
  }

  lemma {:induction false} BitsOfOr(a: Word, b: Word, n: nat)
    ensures BitsOf(Or(a, b), n) == OrBits(BitsOf(a, n), BitsOf(b, n))
    decreases n
  {
    hide Or, Half, Odd;
    if n > 0 {
      HalfOr(a, b);
      OddOr(a, b);
      BitsOfOr(Half(a), Half(b), n - 1);
    }
  }

  lemma {:induction false} WordOfOr(a: seq<bool>, b: seq<bool>)
    requires |a| == |b|
    ensures WordOf(OrBits(a, b)) == Or(WordOf(a), WordOf(b))
  {
    hide Or, Double, BitWord;
    if a == [] {
      OrZero();
    } else {
      var n := |a| - 1;
      var x, y := WordOf(a[..n]), WordOf(b[..n]);
      WordOfOr(a[..n], b[..n]);
      assert OrBits(a, b)[..n] == OrBits(a[..n], b[..n]);
      DoubleOr(x, y);
      OrBitWords(a[n], b[n]);
      OrFour(Double(x), Double(y), BitWord(a[n]), BitWord(b[n]));
    }
  }

  lemma {:induction false} OrZero()
    ensures Or(Word(0), Word(0)) == Word(0)
  {
  }

  lemma {:induction false} HalvesInside(w: Word, n: nat)
    ensures Halves(Half(w), n) == Half(Halves(w, n))
  {
    hide Half;
    if n > 0 { HalvesInside(w, n - 1); }
  }

  lemma {:induction false} BitsSplit(w: Word, m: nat, n: nat)
    ensures BitsOf(w, m + n) == BitsOf(Halves(w, n), m) + BitsOf(w, n)
    decreases n
  {
    hide Half, Odd;
    if n == 0 {
      assert BitsOf(w, m) + [] == BitsOf(w, m);
    } else {
      BitsSplit(Half(w), m, n - 1);
      HalvesInside(w, n - 1);
      assert BitsOf(w, m + n) == BitsOf(Half(w), m + n - 1) + [Odd(w)];
    }
  }

  lemma {:induction false} HalvesPlus(w: Word, m: nat, n: nat)
    ensures Halves(w, m + n) == Halves(Halves(w, m), n)
    decreases n
  {
    hide Half;
    if n > 0 { HalvesPlus(w, m, n - 1); }
  }

  function Shr3(w: Word): Word { Word(w.v >> 3) }
  function Shr5(w: Word): Word { Word(w.v >> 5) }
  function Shr6(w: Word): Word { Word(w.v >> 6) }
  function Shr7(w: Word): Word { Word(w.v >> 7) }
  function Shr11(w: Word): Word { Word(w.v >> 11) }
  function Shr12(w: Word): Word { Word(w.v >> 12) }
  function Shr15(w: Word): Word { Word(w.v >> 15) }
  function Shr18(w: Word): Word { Word(w.v >> 18) }
  function Shr19(w: Word): Word { Word(w.v >> 19) }
  function Shr23(w: Word): Word { Word(w.v >> 23) }
  function Shr27(w: Word): Word { Word(w.v >> 27) }
  function Shr31(w: Word): Word { Word(w.v >> 31) }

  lemma {:induction false} Sum2(w: Word)
    ensures Half(Half(w)) == Shr2(w)
  {
  }

  lemma {:induction false} Halves2(w: Word)
    ensures Halves(w, 2) == Shr2(w)
  {
    hide Halves, Half, Shr2;
    HalvesPlus(w, 1, 1);
    Halves1(w);
    Halves1(Half(w));
    Sum2(w);
  }

  lemma {:induction false} Sum3(w: Word)
    ensures Half(Shr2(w)) == Shr3(w)
  {
  }

  lemma {:induction false} Halves3(w: Word)
    ensures Halves(w, 3) == Shr3(w)
  {
    hide Halves, Half, Shr2, Shr3;
    HalvesPlus(w, 2, 1);
    Halves2(w);
    Halves1(Shr2(w));
    Sum3(w);
  }

  lemma {:induction false} Sum4(w: Word)
    ensures Shr2(Shr2(w)) == Shr4(w)
  {
  }

  lemma {:induction false} Halves4(w: Word)
    ensures Halves(w, 4) == Shr4(w)
  {
    hide Halves, Shr2, Shr4;
    HalvesPlus(w, 2, 2);
    Halves2(w);
    Halves2(Shr2(w));
    Sum4(w);
  }

  lemma {:induction false} Sum5(w: Word)
    ensures Half(Shr4(w)) == Shr5(w)
  {
  }

  lemma {:induction false} Halves5(w: Word)
    ensures Halves(w, 5) == Shr5(w)
  {
    hide Halves, Half, Shr4, Shr5;
    HalvesPlus(w, 4, 1);
    Halves4(w);
    Halves1(Shr4(w));
    Sum5(w);
  }

  lemma {:induction false} Sum6(w: Word)
    ensures Shr2(Shr4(w)) == Shr6(w)
  {
  }

  lemma {:induction false} Halves6(w: Word)
    ensures Halves(w, 6) == Shr6(w)
  {
    hide Halves, Shr2, Shr4, Shr6;
    HalvesPlus(w, 4, 2);
    Halves4(w);
    Halves2(Shr4(w));
    Sum6(w);
  }

  lemma {:induction false} Sum7(w: Word)
    ensures Half(Shr6(w)) == Shr7(w)
  {
  }

  lemma {:induction false} Halves7(w: Word)
    ensures Halves(w, 7) == Shr7(w)
  {
    hide Halves, Half, Shr6, Shr7;
    HalvesPlus(w, 6, 1);
    Halves6(w);
    Halves1(Shr6(w));
    Sum7(w);
  }

  lemma {:induction false} Sum8(w: Word)
    ensures Shr4(Shr4(w)) == Shr8(w)
  {
  }

  lemma {:induction false} Halves8(w: Word)
    ensures Halves(w, 8) == Shr8(w)
  {
    hide Halves, Shr4, Shr8;
    HalvesPlus(w, 4, 4);
    Halves4(w);
    Halves4(Shr4(w));
    Sum8(w);
  }

  lemma {:induction false} Sum11(w: Word)
    ensures Shr3(Shr8(w)) == Shr11(w)
  {
  }

  lemma {:induction false} Halves11(w: Word)
    ensures Halves(w, 11) == Shr11(w)
  {
    hide Halves, Shr11, Shr3, Shr8;
    HalvesPlus(w, 8, 3);
    Halves8(w);
    Halves3(Shr8(w));
    Sum11(w);
  }

  lemma {:induction false} Sum12(w: Word)
    ensures Shr4(Shr8(w)) == Shr12(w)
  {
  }

  lemma {:induction false} Halves12(w: Word)
    ensures Halves(w, 12) == Shr12(w)
  {
    hide Halves, Shr12, Shr4, Shr8;
    HalvesPlus(w, 8, 4);
    Halves8(w);
    Halves4(Shr8(w));
    Sum12(w);
  }

  lemma {:induction false} Sum15(w: Word)
    ensures Shr7(Shr8(w)) == Shr15(w)
  {
  }

  lemma {:induction false} Halves15(w: Word)
    ensures Halves(w, 15) == Shr15(w)
  {
    hide Halves, Shr15, Shr7, Shr8;
    HalvesPlus(w, 8, 7);
    Halves8(w);
    Halves7(Shr8(w));
    Sum15(w);
  }

  lemma {:induction false} Sum16(w: Word)
    ensures Shr8(Shr8(w)) == Shr16(w)
  {
  }

  lemma {:induction false} Halves16(w: Word)
    ensures Halves(w, 16) == Shr16(w)
  {
    hide Halves, Shr16, Shr8;
    HalvesPlus(w, 8, 8);
    Halves8(w);
    Halves8(Shr8(w));
    Sum16(w);
  }

  lemma {:induction false} Sum18(w: Word)
    ensures Shr2(Shr16(w)) == Shr18(w)
  {
  }

  lemma {:induction false} Halves18(w: Word)
    ensures Halves(w, 18) == Shr18(w)
  {
    hide Halves, Shr16, Shr18, Shr2;
    HalvesPlus(w, 16, 2);
    Halves16(w);
    Halves2(Shr16(w));
    Sum18(w);
  }

  lemma {:induction false} Sum19(w: Word)
    ensures Shr3(Shr16(w)) == Shr19(w)
  {
  }

  lemma {:induction false} Halves19(w: Word)
    ensures Halves(w, 19) == Shr19(w)
  {
    hide Halves, Shr16, Shr19, Shr3;
    HalvesPlus(w, 16, 3);
    Halves16(w);
    Halves3(Shr16(w));
    Sum19(w);
  }

  lemma {:induction false} Sum23(w: Word)
    ensures Shr7(Shr16(w)) == Shr23(w)
  {
  }

  lemma {:induction false} Halves23(w: Word)
    ensures Halves(w, 23) == Shr23(w)
  {
    hide Halves, Shr16, Shr23, Shr7;
    HalvesPlus(w, 16, 7);
    Halves16(w);
    Halves7(Shr16(w));
    Sum23(w);
  }

  lemma {:induction false} Sum27(w: Word)
    ensures Shr11(Shr16(w)) == Shr27(w)
  {
  }

  lemma {:induction false} Halves27(w: Word)
    ensures Halves(w, 27) == Shr27(w)
  {
    hide Halves, Shr11, Shr16, Shr27;
    HalvesPlus(w, 16, 11);
    Halves16(w);
    Halves11(Shr16(w));
    Sum27(w);
  }

  lemma {:induction false} Sum31(w: Word)
    ensures Shr15(Shr16(w)) == Shr31(w)
  {
  }

  lemma {:induction false} Halves31(w: Word)
    ensures Halves(w, 31) == Shr31(w)
  {
    hide Halves, Shr15, Shr16, Shr31;
    HalvesPlus(w, 16, 15);
    Halves16(w);
    Halves15(Shr16(w));
    Sum31(w);
  }

  lemma {:induction false} Halves1(w: Word)
    ensures Halves(w, 1) == Half(w)
  {
    hide Half;
    assert Halves(w, 0) == w;
  }

  function AndBits(a: seq<bool>, b: seq<bool>): (r: seq<bool>)
    requires |a| == |b|
    ensures |r| == |a| && forall i | 0 <= i < |a| :: r[i] == (a[i] && b[i])
  {
    seq(|a|, i requires 0 <= i < |a| => a[i] && b[i])
  }

  lemma {:induction false} HalfAnd(a: Word, b: Word)
    ensures Half(AndWord(a, b)) == AndWord(Half(a), Half(b))
  {
  }

  lemma {:induction false} OddAnd(a: Word, b: Word)
    ensures Odd(AndWord(a, b)) <==> Odd(a) && Odd(b)
  {
  }

  lemma {:induction false} BitsOfAnd(a: Word, b: Word, n: nat)
    ensures BitsOf(AndWord(a, b), n) == AndBits(BitsOf(a, n), BitsOf(b, n))
    decreases n
  {
    hide AndWord, Half, Odd;
    if n > 0 {
      HalfAnd(a, b);
      OddAnd(a, b);
      BitsOfAnd(Half(a), Half(b), n - 1);
    }
  }

  lemma {:induction false} Ones6()
    ensures BitsOf(Word(0x3f), 6) == [true, true, true, true, true, true]
    ensures BitsOf(Word(0x1f), 5) == [true, true, true, true, true]
  {
    assert BitsOf(Word(0), 0) == [];
    assert BitsOf(Word(1), 1) == [true];
    assert BitsOf(Word(3), 2) == [true, true];
    assert BitsOf(Word(7), 3) == [true, true, true];
    assert BitsOf(Word(15), 4) == [true, true, true, true];
    assert BitsOf(Word(31), 5) == [true, true, true, true, true];
  }

  function Low5(w: Word): Word { AndWord(w, Word(0x1f)) }

  lemma {:induction false} Low5Bits(w: Word)
    ensures BitsOf(Low5(w), 5) == BitsOf(w, 5)
  {
    hide AndWord, BitsOf;
    Ones6();
    BitsOfAnd(w, Word(0x1f), 5);
  }

  lemma {:induction false} Low6Bits(w: Word)
    ensures BitsOf(Six0(w), 6) == BitsOf(w, 6)
  {
    hide AndWord, BitsOf, Six0;
    Ones6();
    BitsOfAnd(w, Word(0x3f), 6);
    assert Six0(w) == AndWord(w, Word(0x3f)) by { SixIsAnd(w); }
  }

  lemma {:induction false} SixIsAnd(w: Word)
    ensures Six0(w) == AndWord(w, Word(0x3f))
  {
  }

  /** Six bits in the middle of the last n. */
  lemma {:induction false} FieldBits(w: Word, k: nat, n: nat)
    requires k + 6 <= n
    ensures BitsOf(Six0(Halves(w, k)), 6) == BitsOf(w, n)[n - k - 6..n - k]
  {
    hide BitsOf, Six0, Halves;
    Low6Bits(Halves(w, k));
    BitsSplit(w, 6, k);
    BitsSplit(w, n - k - 6, k + 6);
  }
}
