/** The steps of the AES rounds byte by byte, in the matrix form of FIPS 197: byte r of column c. */
module AesStandard {
  import opened Words
  import opened AesTables
  import opened AesCipher
  import opened AesKeys
  import opened AesBlocks

  function Col(s: Block, c: nat): Word
    requires c < 4
  {
    if c == 0 then s.w0 else if c == 1 then s.w1 else if c == 2 then s.w2 else s.w3
  }

  function RowOf(w: Word, r: nat): Byte
    requires r < 4
  {
    if r == 0 then B0(w) else if r == 1 then B1(w) else if r == 2 then B2(w) else B3(w)
  }

  function At(s: Block, r: nat, c: nat): Byte
    requires r < 4 && c < 4
  {
    RowOf(Col(s, c), r)
  }

  lemma {:induction false} PackRow(a: Byte, b: Byte, c: Byte, d: Byte, r: nat)
    requires r < 4
    ensures RowOf(Pack(a, b, c, d), r) == [a, b, c, d][r]
  {
    hide Pack, B0, B1, B2, B3;
    BytesPack(a, b, c, d);
  }

  /** Section 3.4: the input bytes fill the state column by column. */
  lemma {:induction false} StateAt(b: seq<Byte>, r: nat, c: nat)
    requires |b| == 16 && r < 4 && c < 4
    ensures At(StateOf(b), r, c) == b[r + 4 * c]
  {
    hide Pack, RowOf;
    PackRow(b[4 * c], b[4 * c + 1], b[4 * c + 2], b[4 * c + 3], r);
  }

  /** Section 5.1.1. */
  lemma {:induction false} SubBytesAt(t: SBox, s: Block, r: nat, c: nat)
    requires r < 4 && c < 4
    ensures At(SubBytes(t, s), r, c) == t.s(At(s, r, c))
  {
    hide Pack;
    var w := Col(s, c);
    PackRow(t.s(B0(w)), t.s(B1(w)), t.s(B2(w)), t.s(B3(w)), r);
  }

  lemma {:induction false} ColumnRow(a: Word, b: Word, c: Word, d: Word, r: nat)
    requires r < 4
    ensures RowOf(Column(a, b, c, d), r) == RowOf([a, b, c, d][r], r)
  {
    hide Pack, B0, B1, B2, B3;
    PackRow(B0(a), B1(b), B2(c), B3(d), r);
  }

  /** The column i places to the right, around the end. */
  function ColumnAfter(c: nat, i: nat): (d: nat)
    requires c < 4 && i < 4
    ensures d < 4 && d == (c + i) % 4
  {
    if c + i < 4 then c + i else c + i - 4
  }

  lemma {:induction false} ShiftedColumn(s: Block, c: nat)
    requires c < 4
    ensures Col(ShiftRows(s), c) ==
            Column(Col(s, c), Col(s, ColumnAfter(c, 1)), Col(s, ColumnAfter(c, 2)), Col(s, ColumnAfter(c, 3)))
  {
    hide Column;
  }

  lemma {:induction false} PickColumn(s: Block, c: nat, r: nat)
    requires r < 4 && c < 4
    ensures [Col(s, c), Col(s, ColumnAfter(c, 1)), Col(s, ColumnAfter(c, 2)), Col(s, ColumnAfter(c, 3))][r] ==
            Col(s, ColumnAfter(c, r))
  {
    hide Col;
  }

  /** Section 5.1.2: row r moves r places to the left. */
  lemma {:induction false} ShiftRowsAt(s: Block, r: nat, c: nat)
    requires r < 4 && c < 4
    ensures At(ShiftRows(s), r, c) == At(s, r, (c + r) % 4)
  {
    hide Column, RowOf, Col, ColumnAfter, ShiftRows;
    ShiftedColumn(s, c);
    ColumnRow(Col(s, c), Col(s, ColumnAfter(c, 1)), Col(s, ColumnAfter(c, 2)), Col(s, ColumnAfter(c, 3)), r);
    PickColumn(s, c, r);
  }

  /** Section 5.1.4. */
  lemma {:induction false} AddRoundKeyAt(s: Block, k: Block, r: nat, c: nat)
    requires r < 4 && c < 4
    ensures At(AddRoundKey(s, k), r, c) == Add(At(s, r, c), At(k, r, c))
  {
    hide Xor, Add, B0, B1, B2, B3;
    XorBytes(Col(s, c), Col(k, c));
  }

  /** Section 4.2.1: the bit shifted out is taken back as the byte 1b. */
  lemma {:induction false} XTimeMeans(x: Byte)
    ensures XTime(x).v == if x.v & 0x80 == 0x80 then (x.v << 1) ^ 0x1b else x.v << 1
  {
  }

  /** Section 4.2: the product of the polynomial with the bits of k and x. */
  function Times(k: nat, x: Byte): Byte {
    if k == 0 then Byte(0) else Add(if k % 2 == 1 then x else Byte(0), XTime(Times(k / 2, x)))
  }

  const MIX: seq<nat> := [2, 3, 1, 1]

  lemma {:induction false} SmallProducts(x: Byte)
    ensures Times(1, x) == x && Times(2, x) == XTime(x) && Times(3, x) == Mul3(x)
  {
    hide XTime, Add;
    ZeroTimes();
    AddZero(x);
    AddZero(XTime(x));
    assert Times(1, x) == Add(x, XTime(Times(0, x)));
    assert Times(2, x) == Add(Byte(0), XTime(Times(1, x)));
    AddCommutes(x, XTime(x));
    assert Times(3, x) == Add(x, XTime(Times(1, x)));
  }

  lemma {:induction false} ZeroTimes()
    ensures XTime(Byte(0)) == Byte(0)
  {
  }

  lemma {:induction false} AddZero(x: Byte)
    ensures Add(x, Byte(0)) == x && Add(Byte(0), x) == x
  {
  }

  lemma {:induction false} AddCommutes(x: Byte, y: Byte)
    ensures Add(x, y) == Add(y, x)
  {
  }

  /** Section 5.1.3: each byte is the sum over its column of the bytes times 02, 03, 01, 01, moved round by the row. */
  lemma {:induction false} MixColumnsAt(s: Block, r: nat, c: nat)
    requires r < 4 && c < 4
    ensures At(MixColumns(s), r, c) ==
            Sum4(Times(MIX[0], At(s, r, c)), Times(MIX[1], At(s, (r + 1) % 4, c)),
                 Times(MIX[2], At(s, (r + 2) % 4, c)), Times(MIX[3], At(s, (r + 3) % 4, c)))
  {
    hide Pack, B0, B1, B2, B3, Times, Sum4, XTime, Mul3;
    var w := Col(s, c);
    var x, y, z, u := B0(w), B1(w), B2(w), B3(w);
    PackRow(MixRow(x, y, z, u), MixRow(y, z, u, x), MixRow(z, u, x, y), MixRow(u, x, y, z), r);
    SmallProducts(x);
    SmallProducts(y);
    SmallProducts(z);
    SmallProducts(u);
  }

  function TurnLeft(w: Word): Word { Word((w.v << 8) | (w.v >> 24)) }

  lemma {:induction false} Turned0(w: Word)
    ensures B0(TurnLeft(w)) == B1(w)
  {
  }

  lemma {:induction false} Turned1(w: Word)
    ensures B1(TurnLeft(w)) == B2(w)
  {
  }

  lemma {:induction false} Turned2(w: Word)
    ensures B2(TurnLeft(w)) == B3(w)
  {
  }

  lemma {:induction false} Turned3(w: Word)
    ensures B3(TurnLeft(w)) == B0(w)
  {
  }

  /** Section 5.2: RotWord turns the word left by a byte. */
  lemma {:induction false} RotWordMeans(w: Word)
    ensures RotWord(w) == TurnLeft(w)
  {
    hide TurnLeft, Pack, B0, B1, B2, B3;
    Turned0(w);
    Turned1(w);
    Turned2(w);
    Turned3(w);
    PackBytes(TurnLeft(w));
  }
}
