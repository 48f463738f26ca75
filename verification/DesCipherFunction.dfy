/** The cipher function of FIPS 46-3 on bits, with its tables E and P and eight arbitrary S-boxes, and that the table
    look-ups of des compute it. */
module DesCipherFunction {
  import opened Words
  import opened DesBits
  import opened DesRounds
  import opened DesKeys
  import opened DesWordBits

  type Place = n: nat | 1 <= n <= 32 witness 1

  /** The table E, row by row. */
  const E: seq<seq<Place>> :=
    [[32, 1, 2, 3, 4, 5], [4, 5, 6, 7, 8, 9], [8, 9, 10, 11, 12, 13], [12, 13, 14, 15, 16, 17],
     [16, 17, 18, 19, 20, 21], [20, 21, 22, 23, 24, 25], [24, 25, 26, 27, 28, 29], [28, 29, 30, 31, 32, 1]]

  const P: seq<Place> :=
    [16, 7, 20, 21, 29, 12, 28, 17, 1, 15, 23, 26, 5, 18, 31, 10,
     2, 8, 24, 14, 32, 27, 3, 9, 19, 13, 30, 6, 22, 11, 4, 25]

  /** Output bit k of S-box n on six bits; the boxes may be any. */
  type Boxes = (nat, seq<bool>, nat) -> bool

  /** One row of E. */
  function Row(r: seq<bool>, n: nat): (b: seq<bool>)
    requires |r| == 32 && n < 8
    ensures |b| == 6
  {
    [r[E[n][0] - 1], r[E[n][1] - 1], r[E[n][2] - 1], r[E[n][3] - 1], r[E[n][4] - 1], r[E[n][5] - 1]]
  }

  /** The six bits that go into box n + 1. */
  function BoxInput(r: seq<bool>, k: seq<bool>, n: nat): (b: seq<bool>)
    requires |r| == 32 && |k| == 48 && n < 8
    ensures |b| == 6
  {
    XorBits(Row(r, n), k[6 * n..6 * n + 6])
  }

  function Substituted(s: Boxes, r: seq<bool>, k: seq<bool>): (b: seq<bool>)
    requires |r| == 32 && |k| == 48
    ensures |b| == 32
  {
    seq(32, i requires 0 <= i < 32 => s(i / 4 + 1, BoxInput(r, k, i / 4), i % 4))
  }

  function Permuted(b: seq<bool>): (r: seq<bool>)
    requires |b| == 32
    ensures |r| == 32
  {
    seq(32, i requires 0 <= i < 32 => b[P[i] - 1])
  }

  /** f(R, K) */
  function CipherFunction(s: Boxes, r: seq<bool>, k: seq<bool>): (b: seq<bool>)
    requires |r| == 32 && |k| == 48
    ensures |b| == 32
  {
    Permuted(Substituted(s, r, k))
  }

  /** The output of box n alone, in its place among the eight. */
  function OneBox(s: Boxes, n: nat, six: seq<bool>): (b: seq<bool>)
    ensures |b| == 32
  {
    seq(32, i requires 0 <= i < 32 => i / 4 + 1 == n && s(n, six, i % 4))
  }

  /** An entry of SPn: the permuted output of box n, turned left by one as the halves are. */
  function SPEntry(s: Boxes, n: nat, i: Word): Word {
    Rol(WordOf(Permuted(OneBox(s, n, BitsOf(i, 6)))))
  }

  /** SP1 to SP8 made from the S-boxes and P. */
  function TablesOf(s: Boxes): Tables {
    Tables(i => SPEntry(s, 1, i), i => SPEntry(s, 2, i), i => SPEntry(s, 3, i), i => SPEntry(s, 4, i),
           i => SPEntry(s, 5, i), i => SPEntry(s, 6, i), i => SPEntry(s, 7, i), i => SPEntry(s, 8, i))
  }

  lemma {:induction false} PermutedOr(a: seq<bool>, b: seq<bool>)
    requires |a| == 32 && |b| == 32
    ensures Permuted(OrBits(a, b)) == OrBits(Permuted(a), Permuted(b))
  {
  }

  /** The table entries of two sets of bits, joined, are that of both. */
  lemma {:induction false} EntryOr(a: seq<bool>, b: seq<bool>)
    requires |a| == 32 && |b| == 32
    ensures Or(Rol(WordOf(Permuted(a))), Rol(WordOf(Permuted(b)))) == Rol(WordOf(Permuted(OrBits(a, b))))
  {
    hide Or, Rol, WordOf, Permuted;
    PermutedOr(a, b);
    WordOfOr(Permuted(a), Permuted(b));
    RolOr(WordOf(Permuted(a)), WordOf(Permuted(b)));
  }

  // ---------------------------------------------------------------------------------------------
  // The indices the program makes

  function E1(r: Word): Word { Word(((r.v & 1) << 5) | (r.v >> 27)) }
  function E8(r: Word): Word { Word(((r.v & 0x1f) << 1) | (r.v >> 31)) }

  lemma {:induction false} Index1(r: Word, a: Word, b: Word)
    ensures Six24(Xor(Turn(Rol(r)), Cook(a, b).k0)) == Xor(E1(r), Six0(Shr18(a)))
  {
  }

  lemma {:induction false} Index2(r: Word, a: Word, b: Word)
    ensures Six24(Xor(Rol(r), Cook(a, b).k1)) == Xor(Six0(Shr23(r)), Six0(Shr12(a)))
  {
  }

  lemma {:induction false} Index3(r: Word, a: Word, b: Word)
    ensures Six16(Xor(Turn(Rol(r)), Cook(a, b).k0)) == Xor(Six0(Shr19(r)), Six0(Shr6(a)))
  {
  }

  lemma {:induction false} Index4(r: Word, a: Word, b: Word)
    ensures Six16(Xor(Rol(r), Cook(a, b).k1)) == Xor(Six0(Shr15(r)), Six0(a))
  {
  }

  lemma {:induction false} Index5(r: Word, a: Word, b: Word)
    ensures Six8(Xor(Turn(Rol(r)), Cook(a, b).k0)) == Xor(Six0(Shr11(r)), Six0(Shr18(b)))
  {
  }

  lemma {:induction false} Index6(r: Word, a: Word, b: Word)
    ensures Six8(Xor(Rol(r), Cook(a, b).k1)) == Xor(Six0(Shr7(r)), Six0(Shr12(b)))
  {
  }

  lemma {:induction false} Index7(r: Word, a: Word, b: Word)
    ensures Six0(Xor(Turn(Rol(r)), Cook(a, b).k0)) == Xor(Six0(Shr3(r)), Six0(Shr6(b)))
  {
  }

  lemma {:induction false} Index8(r: Word, a: Word, b: Word)
    ensures Six0(Xor(Rol(r), Cook(a, b).k1)) == Xor(E8(r), Six0(b))
  {
  }

  lemma {:induction false} FirstRowWord(r: Word)
    ensures Shr5(E1(r)) == AndWord(r, Word(1))
  {
  }

  lemma {:induction false} FirstRowLow(r: Word)
    ensures Low5(E1(r)) == Low5(Shr27(r))
  {
  }

  lemma {:induction false} LastBit(r: Word)
    ensures BitsOf(AndWord(r, Word(1)), 1) == [Odd(r)]
  {
    hide AndWord, Odd;
    assert Odd(Word(1)) by { OneIsOdd(); }
    OddAnd(r, Word(1));
    assert BitsOf(Half(AndWord(r, Word(1))), 0) == [];
  }

  lemma {:induction false} OneIsOdd()
    ensures Odd(Word(1))
  {
  }

  /** Bit 32 in front of the first five. */
  lemma {:induction false} FirstRow(r: Word)
    ensures BitsOf(E1(r), 6) == Row(BitsOf(r, 32), 0)
  {
    hide E1, Low5, Shr5, Shr27, AndWord, Odd, BitsOf, Halves;
    var b := BitsOf(r, 32);
    BitsSplit(E1(r), 1, 5);
    Halves5(E1(r));
    FirstRowWord(r);
    LastBit(r);
    Low5Bits(E1(r));
    Low5Bits(Shr27(r));
    FirstRowLow(r);
    BitsSplit(r, 5, 27);
    Halves27(r);
    assert BitsOf(E1(r), 6) == [Odd(r)] + b[0..5];
    assert b[31] == Odd(r) by { LastOfBits(r, 32); }
  }

  lemma {:induction false} LastOfBits(r: Word, n: nat)
    requires n > 0
    ensures BitsOf(r, n)[n - 1] == Odd(r)
  {
  }

  lemma {:induction false} LastRowHalf(r: Word)
    ensures Half(E8(r)) == Low5(r)
  {
  }

  lemma {:induction false} LastRowOdd(r: Word)
    ensures Odd(E8(r)) <==> Odd(Shr31(r))
  {
  }

  lemma {:induction false} FirstOfBits(r: Word)
    ensures BitsOf(r, 32)[0] == Odd(Shr31(r))
  {
    hide Shr31, Odd, Halves, BitsOf;
    BitsSplit(r, 1, 31);
    Halves31(r);
    LastOfBits(Shr31(r), 1);
  }

  lemma {:induction false} BitsStep(w: Word, n: nat)
    ensures BitsOf(w, n + 1) == BitsOf(Half(w), n) + [Odd(w)]
  {
  }

  /** Bit 1 behind the last five. */
  lemma {:induction false} LastRow(r: Word)
    ensures BitsOf(E8(r), 6) == Row(BitsOf(r, 32), 7)
  {
    hide E8, Low5, Shr31, Half, Odd, Halves, BitsOf;
    var b := BitsOf(r, 32);
    BitsStep(E8(r), 5);
    LastRowHalf(r);
    LastRowOdd(r);
    Low5Bits(r);
    BitsSplit(r, 27, 5);
    FirstOfBits(r);
    assert BitsOf(E8(r), 6) == b[27..32] + [b[0]];
  }

  lemma {:induction false} Row2(r: Word)
    ensures BitsOf(Six0(Shr23(r)), 6) == Row(BitsOf(r, 32), 1)
  {
    hide BitsOf, Six0, Shr23, Halves;
    FieldBits(r, 23, 32);
    Halves23(r);
    assert BitsOf(r, 32)[3..9] == Row(BitsOf(r, 32), 1);
  }

  lemma {:induction false} Row3(r: Word)
    ensures BitsOf(Six0(Shr19(r)), 6) == Row(BitsOf(r, 32), 2)
  {
    hide BitsOf, Six0, Shr19, Halves;
    FieldBits(r, 19, 32);
    Halves19(r);
    assert BitsOf(r, 32)[7..13] == Row(BitsOf(r, 32), 2);
  }

  lemma {:induction false} Row4(r: Word)
    ensures BitsOf(Six0(Shr15(r)), 6) == Row(BitsOf(r, 32), 3)
  {
    hide BitsOf, Six0, Shr15, Halves;
    FieldBits(r, 15, 32);
    Halves15(r);
    assert BitsOf(r, 32)[11..17] == Row(BitsOf(r, 32), 3);
  }

  lemma {:induction false} Row5(r: Word)
    ensures BitsOf(Six0(Shr11(r)), 6) == Row(BitsOf(r, 32), 4)
  {
    hide BitsOf, Six0, Shr11, Halves;
    FieldBits(r, 11, 32);
    Halves11(r);
    assert BitsOf(r, 32)[15..21] == Row(BitsOf(r, 32), 4);
  }

  lemma {:induction false} Row6(r: Word)
    ensures BitsOf(Six0(Shr7(r)), 6) == Row(BitsOf(r, 32), 5)
  {
    hide BitsOf, Six0, Shr7, Halves;
    FieldBits(r, 7, 32);
    Halves7(r);
    assert BitsOf(r, 32)[19..25] == Row(BitsOf(r, 32), 5);
  }

  lemma {:induction false} Row7(r: Word)
    ensures BitsOf(Six0(Shr3(r)), 6) == Row(BitsOf(r, 32), 6)
  {
    hide BitsOf, Six0, Shr3, Halves;
    FieldBits(r, 3, 32);
    Halves3(r);
    assert BitsOf(r, 32)[23..29] == Row(BitsOf(r, 32), 6);
  }

  /** The key bits of a round: those of the two raw words. */
  function KeyBits48(a: Word, b: Word): (k: seq<bool>)
    ensures |k| == 48
  {
    BitsOf(a, 24) + BitsOf(b, 24)
  }

  lemma {:induction false} FirstKeyField(a: Word, b: Word, n: nat)
    requires n < 4
    ensures BitsOf(Six0(Halves(a, 18 - 6 * n)), 6) == KeyBits48(a, b)[6 * n..6 * n + 6]
  {
    hide BitsOf, Six0, Halves;
    FieldBits(a, 18 - 6 * n, 24);
    assert KeyBits48(a, b)[6 * n..6 * n + 6] == BitsOf(a, 24)[6 * n..6 * n + 6];
  }

  lemma {:induction false} SecondKeyField(a: Word, b: Word, n: nat)
    requires n < 4
    ensures BitsOf(Six0(Halves(b, 18 - 6 * n)), 6) == KeyBits48(a, b)[6 * n + 24..6 * n + 30]
  {
    hide BitsOf, Six0, Halves;
    FieldBits(b, 18 - 6 * n, 24);
    assert KeyBits48(a, b)[6 * n + 24..6 * n + 30] == BitsOf(b, 24)[6 * n..6 * n + 6];
  }

  lemma {:induction false} Input1(r: Word, a: Word, b: Word)
    ensures BitsOf(Six24(Xor(Turn(Rol(r)), Cook(a, b).k0)), 6) == BoxInput(BitsOf(r, 32), KeyBits48(a, b), 0)
  {
    hide BitsOf, Cook, E1, Halves, KeyBits48, Rol, Row, Shr18, Six0, Six24, Turn, Xor;
    Index1(r, a, b);
    BitsOfXor(E1(r), Six0(Shr18(a)), 6);
    FirstRow(r);
    FirstKeyField(a, b, 0);
    Halves18(a);
  }

  lemma {:induction false} Input2(r: Word, a: Word, b: Word)
    ensures BitsOf(Six24(Xor(Rol(r), Cook(a, b).k1)), 6) == BoxInput(BitsOf(r, 32), KeyBits48(a, b), 1)
  {
    hide BitsOf, Cook, Halves, KeyBits48, Rol, Row, Shr12, Shr23, Six0, Six24, Turn, Xor;
    Index2(r, a, b);
    BitsOfXor(Six0(Shr23(r)), Six0(Shr12(a)), 6);
    Row2(r);
    FirstKeyField(a, b, 1);
    Halves12(a);
  }

  lemma {:induction false} Input3(r: Word, a: Word, b: Word)
    ensures BitsOf(Six16(Xor(Turn(Rol(r)), Cook(a, b).k0)), 6) == BoxInput(BitsOf(r, 32), KeyBits48(a, b), 2)
  {
    hide BitsOf, Cook, Halves, KeyBits48, Rol, Row, Shr19, Shr6, Six0, Six16, Turn, Xor;
    Index3(r, a, b);
    BitsOfXor(Six0(Shr19(r)), Six0(Shr6(a)), 6);
    Row3(r);
    FirstKeyField(a, b, 2);
    Halves6(a);
  }

  lemma {:induction false} Input4(r: Word, a: Word, b: Word)
    ensures BitsOf(Six16(Xor(Rol(r), Cook(a, b).k1)), 6) == BoxInput(BitsOf(r, 32), KeyBits48(a, b), 3)
  {
    hide BitsOf, Cook, Halves, KeyBits48, Rol, Row, Shr15, Six0, Six16, Turn, Xor;
    Index4(r, a, b);
    BitsOfXor(Six0(Shr15(r)), Six0(a), 6);
    Row4(r);
    FirstKeyField(a, b, 3);
    assert Halves(a, 0) == a by { NoHalves(a); }
  }

  lemma {:induction false} Input5(r: Word, a: Word, b: Word)
    ensures BitsOf(Six8(Xor(Turn(Rol(r)), Cook(a, b).k0)), 6) == BoxInput(BitsOf(r, 32), KeyBits48(a, b), 4)
  {
    hide BitsOf, Cook, Halves, KeyBits48, Rol, Row, Shr11, Shr18, Six0, Six8, Turn, Xor;
    Index5(r, a, b);
    BitsOfXor(Six0(Shr11(r)), Six0(Shr18(b)), 6);
    Row5(r);
    SecondKeyField(a, b, 0);
    Halves18(b);
  }

  lemma {:induction false} Input6(r: Word, a: Word, b: Word)
    ensures BitsOf(Six8(Xor(Rol(r), Cook(a, b).k1)), 6) == BoxInput(BitsOf(r, 32), KeyBits48(a, b), 5)
  {
    hide BitsOf, Cook, Halves, KeyBits48, Rol, Row, Shr12, Shr7, Six0, Six8, Turn, Xor;
    Index6(r, a, b);
    BitsOfXor(Six0(Shr7(r)), Six0(Shr12(b)), 6);
    Row6(r);
    SecondKeyField(a, b, 1);
    Halves12(b);
  }

  lemma {:induction false} Input7(r: Word, a: Word, b: Word)
    ensures BitsOf(Six0(Xor(Turn(Rol(r)), Cook(a, b).k0)), 6) == BoxInput(BitsOf(r, 32), KeyBits48(a, b), 6)
  {
    hide BitsOf, Cook, Halves, KeyBits48, Rol, Row, Shr3, Shr6, Six0, Turn, Xor;
    Index7(r, a, b);
    BitsOfXor(Six0(Shr3(r)), Six0(Shr6(b)), 6);
    Row7(r);
    SecondKeyField(a, b, 2);
    Halves6(b);
  }

  lemma {:induction false} Input8(r: Word, a: Word, b: Word)
    ensures BitsOf(Six0(Xor(Rol(r), Cook(a, b).k1)), 6) == BoxInput(BitsOf(r, 32), KeyBits48(a, b), 7)
  {
    hide BitsOf, Cook, E8, Halves, KeyBits48, Rol, Row, Six0, Turn, Xor;
    Index8(r, a, b);
    BitsOfXor(E8(r), Six0(b), 6);
    LastRow(r);
    SecondKeyField(a, b, 3);
    assert Halves(b, 0) == b by { NoHalves(b); }
  }

  lemma {:induction false} NoHalves(w: Word)
    ensures Halves(w, 0) == w
  {
  }

  /** The outputs of the eight boxes, joined. */
  function AllBoxes(s: Boxes, r: seq<bool>, k: seq<bool>): (b: seq<bool>)
    requires |r| == 32 && |k| == 48
    ensures |b| == 32
  {
    OrBits(OrBits(OrBits(OrBits(OrBits(OrBits(OrBits(
      OneBox(s, 7, BoxInput(r, k, 6)), OneBox(s, 5, BoxInput(r, k, 4))), OneBox(s, 3, BoxInput(r, k, 2))),
      OneBox(s, 1, BoxInput(r, k, 0))), OneBox(s, 8, BoxInput(r, k, 7))), OneBox(s, 6, BoxInput(r, k, 5))),
      OneBox(s, 4, BoxInput(r, k, 3))), OneBox(s, 2, BoxInput(r, k, 1)))
  }

  lemma {:induction false} AllBoxesIs(s: Boxes, r: seq<bool>, k: seq<bool>)
    requires |r| == 32 && |k| == 48
    ensures AllBoxes(s, r, k) == Substituted(s, r, k)
  {
    hide BoxInput;
  }

  /** For every half, every two raw key words and any S-boxes: the table look-ups on the turned half and the cooked key
      are f(R, K) of the standard, turned alike. */
  lemma {:induction false} FIsStandard(s: Boxes, r: Word, a: Word, b: Word)
    ensures F(TablesOf(s), Rol(r), Cook(a, b)) == Rol(WordOf(CipherFunction(s, BitsOf(r, 32), KeyBits48(a, b))))
  {
    hide Xor, Or, Turn, Rol, Cook, Six0, Six8, Six16, Six24, BitsOf, KeyBits48, BoxInput, OneBox, Permuted, WordOf,
         Substituted;
    var x, k := BitsOf(r, 32), KeyBits48(a, b);
    Input1(r, a, b);
    Input2(r, a, b);
    Input3(r, a, b);
    Input4(r, a, b);
    Input5(r, a, b);
    Input6(r, a, b);
    Input7(r, a, b);
    Input8(r, a, b);
    var b7, b5 := OneBox(s, 7, BoxInput(x, k, 6)), OneBox(s, 5, BoxInput(x, k, 4));
    var b3, b1 := OneBox(s, 3, BoxInput(x, k, 2)), OneBox(s, 1, BoxInput(x, k, 0));
    var b8, b6 := OneBox(s, 8, BoxInput(x, k, 7)), OneBox(s, 6, BoxInput(x, k, 5));
    var b4, b2 := OneBox(s, 4, BoxInput(x, k, 3)), OneBox(s, 2, BoxInput(x, k, 1));
    EntryOr(b7, b5);
    EntryOr(OrBits(b7, b5), b3);
    EntryOr(OrBits(OrBits(b7, b5), b3), b1);
    EntryOr(OrBits(OrBits(OrBits(b7, b5), b3), b1), b8);
    EntryOr(OrBits(OrBits(OrBits(OrBits(b7, b5), b3), b1), b8), b6);
    EntryOr(OrBits(OrBits(OrBits(OrBits(OrBits(b7, b5), b3), b1), b8), b6), b4);
    EntryOr(OrBits(OrBits(OrBits(OrBits(OrBits(OrBits(b7, b5), b3), b1), b8), b6), b4), b2);
    AllBoxesIs(s, x, k);
  }
}
