/** The AES cipher of FIPS 197 on a state of four column words, and the T-table forms of its rounds. */
module AesCipher {
  import opened Words
  import opened AesTables

  /** The state, one word per column, and also a round key. */
  datatype Block = Block(w0: Word, w1: Word, w2: Word, w3: Word)

  // ---------------------------------------------------------------------------------------------
  // FIPS 197 sections 5.1 and 5.3

  function AddRoundKey(s: Block, k: Block): Block {
    Block(Xor(s.w0, k.w0), Xor(s.w1, k.w1), Xor(s.w2, k.w2), Xor(s.w3, k.w3))
  }

  function SubWord(t: SBox, w: Word): Word {
    Pack(t.s(B0(w)), t.s(B1(w)), t.s(B2(w)), t.s(B3(w)))
  }

  function InvSubWord(t: SBox, w: Word): Word {
    Pack(t.si(B0(w)), t.si(B1(w)), t.si(B2(w)), t.si(B3(w)))
  }

  function SubBytes(t: SBox, s: Block): Block {
    Block(SubWord(t, s.w0), SubWord(t, s.w1), SubWord(t, s.w2), SubWord(t, s.w3))
  }

  function InvSubBytes(t: SBox, s: Block): Block {
    Block(InvSubWord(t, s.w0), InvSubWord(t, s.w1), InvSubWord(t, s.w2), InvSubWord(t, s.w3))
  }

  /** Row r of a column, taken from the columns given. */
  function Column(a: Word, b: Word, c: Word, d: Word): Word {
    Pack(B0(a), B1(b), B2(c), B3(d))
  }

  /** Row r moves r columns to the left. */
  function ShiftRows(s: Block): Block {
    Block(Column(s.w0, s.w1, s.w2, s.w3), Column(s.w1, s.w2, s.w3, s.w0),
          Column(s.w2, s.w3, s.w0, s.w1), Column(s.w3, s.w0, s.w1, s.w2))
  }

  /** Row r moves r columns to the right. */
  function InvShiftRows(s: Block): Block {
    Block(Column(s.w0, s.w3, s.w2, s.w1), Column(s.w1, s.w0, s.w3, s.w2),
          Column(s.w2, s.w1, s.w0, s.w3), Column(s.w3, s.w2, s.w1, s.w0))
  }

  function MixColumns(s: Block): Block {
    Block(MixColumn(s.w0), MixColumn(s.w1), MixColumn(s.w2), MixColumn(s.w3))
  }

  function InvMixColumns(s: Block): Block {
    Block(InvMixColumn(s.w0), InvMixColumn(s.w1), InvMixColumn(s.w2), InvMixColumn(s.w3))
  }

  /** Round key r of a schedule of words. */
  function RoundKey(w: seq<Word>, r: nat): Block
    requires 4 * r + 4 <= |w|
  {
    Block(w[4 * r], w[4 * r + 1], w[4 * r + 2], w[4 * r + 3])
  }

  /** The state after the initial key addition and r full rounds. */
  function Rounds(t: SBox, w: seq<Word>, s: Block, r: nat): Block
    requires 4 * r + 4 <= |w|
  {
    if r == 0 then AddRoundKey(s, RoundKey(w, 0))
    else AddRoundKey(MixColumns(ShiftRows(SubBytes(t, Rounds(t, w, s, r - 1)))), RoundKey(w, r))
  }

  /** The Cipher of FIPS 197 section 5.1 with nr rounds. */
  function Cipher(t: SBox, nr: nat, w: seq<Word>, s: Block): Block
    requires 1 <= nr && 4 * nr + 4 <= |w|
  {
    AddRoundKey(ShiftRows(SubBytes(t, Rounds(t, w, s, nr - 1))), RoundKey(w, nr))
  }

  /** The state of the inverse cipher after undoing the last key addition and r rounds. */
  function InvRounds(t: SBox, nr: nat, w: seq<Word>, s: Block, r: nat): Block
    requires r <= nr && 4 * nr + 4 <= |w|
  {
    if r == 0 then AddRoundKey(s, RoundKey(w, nr))
    else InvMixColumns(AddRoundKey(InvSubBytes(t, InvShiftRows(InvRounds(t, nr, w, s, r - 1))), RoundKey(w, nr - r)))
  }

  /** The Inverse Cipher of FIPS 197 section 5.3. */
  function InvCipher(t: SBox, nr: nat, w: seq<Word>, s: Block): Block
    requires 1 <= nr && 4 * nr + 4 <= |w|
  {
    AddRoundKey(InvSubBytes(t, InvShiftRows(InvRounds(t, nr, w, s, nr - 1))), RoundKey(w, 0))
  }

  /** The Equivalent Inverse Cipher of FIPS 197 section 5.3.5: the cipher's shape over inverse steps. */
  function EqRounds(t: SBox, dw: seq<Word>, s: Block, r: nat): Block
    requires 4 * r + 4 <= |dw|
  {
    if r == 0 then AddRoundKey(s, RoundKey(dw, 0))
    else AddRoundKey(InvMixColumns(InvShiftRows(InvSubBytes(t, EqRounds(t, dw, s, r - 1)))), RoundKey(dw, r))
  }

  function EqInvCipher(t: SBox, nr: nat, dw: seq<Word>, s: Block): Block
    requires 1 <= nr && 4 * nr + 4 <= |dw|
  {
    AddRoundKey(InvShiftRows(InvSubBytes(t, EqRounds(t, dw, s, nr - 1))), RoundKey(dw, nr))
  }

  /** The decryption schedule that belongs to an encryption schedule. */
  function DecryptRoundKey(nr: nat, w: seq<Word>, r: nat): Block
    requires r <= nr && 4 * nr + 4 <= |w|
  {
    if r == 0 || r == nr then RoundKey(w, nr - r) else InvMixColumns(RoundKey(w, nr - r))
  }

  ghost predicate DecryptSchedule(nr: nat, w: seq<Word>, dw: seq<Word>) {
    && 4 * nr + 4 <= |w| && 4 * nr + 4 <= |dw|
    && (forall r: nat | r <= nr :: RoundKey(dw, r) == DecryptRoundKey(nr, w, r))
  }

  // ---------------------------------------------------------------------------------------------
  // Each step is undone by its inverse

  lemma {:induction false} AddTwice(s: Block, k: Block)
    ensures AddRoundKey(AddRoundKey(s, k), k) == s
  {
    hide Xor;
    XorTwice(s.w0, k.w0);
    XorTwice(s.w1, k.w1);
    XorTwice(s.w2, k.w2);
    XorTwice(s.w3, k.w3);
  }

  lemma {:induction false} InvSubWordSubWord(t: SBox, w: Word)
    requires Undoes(t)
    ensures InvSubWord(t, SubWord(t, w)) == w
  {
    hide Pack, B0, B1, B2, B3;
    BytesPack(t.s(B0(w)), t.s(B1(w)), t.s(B2(w)), t.s(B3(w)));
    PackBytes(w);
  }

  lemma {:induction false} InvSubBytesSubBytes(t: SBox, s: Block)
    requires Undoes(t)
    ensures InvSubBytes(t, SubBytes(t, s)) == s
  {
    hide InvSubWord, SubWord, Undoes;
    InvSubWordSubWord(t, s.w0);
    InvSubWordSubWord(t, s.w1);
    InvSubWordSubWord(t, s.w2);
    InvSubWordSubWord(t, s.w3);
  }

  lemma {:induction false} ColumnBytes(a: Word, b: Word, c: Word, d: Word)
    ensures var w := Column(a, b, c, d); B0(w) == B0(a) && B1(w) == B1(b) && B2(w) == B2(c) && B3(w) == B3(d)
  {
  }

  lemma {:induction false} InvShiftRowsShiftRows(s: Block)
    ensures InvShiftRows(ShiftRows(s)) == s
  {
    hide Pack, B0, B1, B2, B3;
    ColumnBytes(s.w0, s.w1, s.w2, s.w3);
    ColumnBytes(s.w1, s.w2, s.w3, s.w0);
    ColumnBytes(s.w2, s.w3, s.w0, s.w1);
    ColumnBytes(s.w3, s.w0, s.w1, s.w2);
    PackBytes(s.w0);
    PackBytes(s.w1);
    PackBytes(s.w2);
    PackBytes(s.w3);
  }

  lemma {:induction false} InvMixColumnsMixColumns(s: Block)
    ensures InvMixColumns(MixColumns(s)) == s
  {
    hide MixColumn, InvMixColumn;
    InvMixColumnMixColumn(s.w0);
    InvMixColumnMixColumn(s.w1);
    InvMixColumnMixColumn(s.w2);
    InvMixColumnMixColumn(s.w3);
  }

  lemma {:induction false} InvMixColumnsAdd(s: Block, k: Block)
    ensures InvMixColumns(AddRoundKey(s, k)) == AddRoundKey(InvMixColumns(s), InvMixColumns(k))
  {
    hide InvMixColumn, Xor;
    InvMixColumnXor(s.w0, k.w0);
    InvMixColumnXor(s.w1, k.w1);
    InvMixColumnXor(s.w2, k.w2);
    InvMixColumnXor(s.w3, k.w3);
  }

  lemma {:induction false} InvSubColumn(t: SBox, a: Word, b: Word, c: Word, d: Word)
    ensures InvSubWord(t, Column(a, b, c, d)) ==
            Column(InvSubWord(t, a), InvSubWord(t, b), InvSubWord(t, c), InvSubWord(t, d))
  {
    hide Pack, B0, B1, B2, B3;
    ColumnBytes(a, b, c, d);
    BytesPack(t.si(B0(a)), t.si(B1(a)), t.si(B2(a)), t.si(B3(a)));
    BytesPack(t.si(B0(b)), t.si(B1(b)), t.si(B2(b)), t.si(B3(b)));
    BytesPack(t.si(B0(c)), t.si(B1(c)), t.si(B2(c)), t.si(B3(c)));
    BytesPack(t.si(B0(d)), t.si(B1(d)), t.si(B2(d)), t.si(B3(d)));
  }

  lemma {:induction false} InvSubShift(t: SBox, s: Block)
    ensures InvSubBytes(t, InvShiftRows(s)) == InvShiftRows(InvSubBytes(t, s))
  {
    hide InvSubWord, Column;
    InvSubColumn(t, s.w0, s.w3, s.w2, s.w1);
    InvSubColumn(t, s.w1, s.w0, s.w3, s.w2);
    InvSubColumn(t, s.w2, s.w1, s.w0, s.w3);
    InvSubColumn(t, s.w3, s.w2, s.w1, s.w0);
  }

  // ---------------------------------------------------------------------------------------------
  // The inverse ciphers undo the cipher, for every schedule

  /** After r inverse rounds the state is the one the cipher had before its round nr - r was keyed. */
  lemma {:induction false} InvRoundsMeetRounds(t: SBox, nr: nat, w: seq<Word>, s: Block, r: nat)
    requires Undoes(t) && r < nr && 4 * nr + 4 <= |w|
    ensures InvRounds(t, nr, w, Cipher(t, nr, w, s), r) == ShiftRows(SubBytes(t, Rounds(t, w, s, nr - 1 - r)))
  {
    hide Undoes, AddRoundKey, SubBytes, ShiftRows, MixColumns, InvSubBytes, InvShiftRows, InvMixColumns, RoundKey;
    if r == 0 {
      AddTwice(ShiftRows(SubBytes(t, Rounds(t, w, s, nr - 1))), RoundKey(w, nr));
    } else {
      InvRoundsMeetRounds(t, nr, w, s, r - 1);
      var x := Rounds(t, w, s, nr - r);
      InvShiftRowsShiftRows(SubBytes(t, x));
      InvSubBytesSubBytes(t, x);
      var y := ShiftRows(SubBytes(t, Rounds(t, w, s, nr - r - 1)));
      AddTwice(MixColumns(y), RoundKey(w, nr - r));
      InvMixColumnsMixColumns(y);
    }
  }

  /** FIPS 197 section 5.3: the inverse cipher undoes the cipher. */
  lemma {:induction false} InvCipherUndoes(t: SBox, nr: nat, w: seq<Word>, s: Block)
    requires Undoes(t) && 1 <= nr && 4 * nr + 4 <= |w|
    ensures InvCipher(t, nr, w, Cipher(t, nr, w, s)) == s
  {
    hide Undoes, AddRoundKey, SubBytes, ShiftRows, InvSubBytes, InvShiftRows, RoundKey;
    InvRoundsMeetRounds(t, nr, w, s, nr - 1);
    var x := Rounds(t, w, s, 0);
    InvShiftRowsShiftRows(SubBytes(t, x));
    InvSubBytesSubBytes(t, x);
    AddTwice(s, RoundKey(w, 0));
  }

  lemma {:induction false} EqRoundsAreInvRounds(t: SBox, nr: nat, w: seq<Word>, dw: seq<Word>, s: Block, r: nat)
    requires DecryptSchedule(nr, w, dw) && r < nr
    ensures EqRounds(t, dw, s, r) == InvRounds(t, nr, w, s, r)
  {
    hide AddRoundKey, InvSubBytes, InvShiftRows, InvMixColumns, RoundKey;
    assert RoundKey(dw, r) == DecryptRoundKey(nr, w, r);
    if r != 0 {
      EqRoundsAreInvRounds(t, nr, w, dw, s, r - 1);
      var x := InvRounds(t, nr, w, s, r - 1);
      InvSubShift(t, x);
      InvMixColumnsAdd(InvShiftRows(InvSubBytes(t, x)), RoundKey(w, nr - r));
    }
  }

  /** FIPS 197 section 5.3.5: under the converted schedule the equivalent inverse cipher is the inverse cipher. */
  lemma {:induction false} EquivalentInverse(t: SBox, nr: nat, w: seq<Word>, dw: seq<Word>, s: Block)
    requires DecryptSchedule(nr, w, dw) && 1 <= nr
    ensures EqInvCipher(t, nr, dw, s) == InvCipher(t, nr, w, s)
  {
    hide AddRoundKey, InvSubBytes, InvShiftRows, RoundKey;
    EqRoundsAreInvRounds(t, nr, w, dw, s, nr - 1);
    InvSubShift(t, InvRounds(t, nr, w, s, nr - 1));
    assert RoundKey(dw, nr) == DecryptRoundKey(nr, w, nr);
  }

  lemma {:induction false} EqInvCipherUndoes(t: SBox, nr: nat, w: seq<Word>, dw: seq<Word>, s: Block)
    requires Undoes(t) && DecryptSchedule(nr, w, dw) && 1 <= nr
    ensures EqInvCipher(t, nr, dw, Cipher(t, nr, w, s)) == s
  {
    hide Undoes, EqInvCipher, InvCipher, Cipher;
    EquivalentInverse(t, nr, w, dw, Cipher(t, nr, w, s));
    InvCipherUndoes(t, nr, w, s);
  }

  // ---------------------------------------------------------------------------------------------
  // The rounds as table look-ups

  /** One word of a full encryption round. */
  function TeWord(t: SBox, a: Word, b: Word, c: Word, d: Word, k: Word): Word {
    Xor(Xor(Xor(Xor(Te0(t, B0(a)), Te1(t, B1(b))), Te2(t, B2(c))), Te3(t, B3(d))), k)
  }

  /** One word of a full decryption round. */
  function TdWord(t: SBox, a: Word, b: Word, c: Word, d: Word, k: Word): Word {
    Xor(Xor(Xor(Xor(Td0(t, B0(a)), Td1(t, B1(b))), Td2(t, B2(c))), Td3(t, B3(d))), k)
  }

  /** One word of the last encryption round. */
  function TeLast(t: SBox, a: Word, b: Word, c: Word, d: Word, k: Word): Word {
    Xor(Masked(Te4(t, B0(a)), Te4(t, B1(b)), Te4(t, B2(c)), Te4(t, B3(d))), k)
  }

  /** One word of the last decryption round. */
  function TdLast(t: SBox, a: Word, b: Word, c: Word, d: Word, k: Word): Word {
    Xor(Masked(Td4(t, B0(a)), Td4(t, B1(b)), Td4(t, B2(c)), Td4(t, B3(d))), k)
  }

  lemma {:induction false} SubColumn(t: SBox, a: Word, b: Word, c: Word, d: Word)
    ensures Column(SubWord(t, a), SubWord(t, b), SubWord(t, c), SubWord(t, d)) ==
            Pack(t.s(B0(a)), t.s(B1(b)), t.s(B2(c)), t.s(B3(d)))
  {
  }

  lemma {:induction false} InvSubColumnPack(t: SBox, a: Word, b: Word, c: Word, d: Word)
    ensures Column(InvSubWord(t, a), InvSubWord(t, b), InvSubWord(t, c), InvSubWord(t, d)) ==
            Pack(t.si(B0(a)), t.si(B1(b)), t.si(B2(c)), t.si(B3(d)))
  {
  }

  lemma {:induction false} TeWordIs(t: SBox, a: Word, b: Word, c: Word, d: Word, k: Word)
    ensures TeWord(t, a, b, c, d, k) ==
            Xor(MixColumn(Column(SubWord(t, a), SubWord(t, b), SubWord(t, c), SubWord(t, d))), k)
    ensures TeLast(t, a, b, c, d, k) ==
            Xor(Column(SubWord(t, a), SubWord(t, b), SubWord(t, c), SubWord(t, d)), k)
  {
    hide Pack, B0, B1, B2, B3, Xor, MixColumn, Column, SubWord, Te0, Te1, Te2, Te3, Masked;
    SubColumn(t, a, b, c, d);
    TeColumn(t, B0(a), B1(b), B2(c), B3(d));
    MaskColumn(t.s(B0(a)), t.s(B1(b)), t.s(B2(c)), t.s(B3(d)));
  }

  lemma {:induction false} TdWordIs(t: SBox, a: Word, b: Word, c: Word, d: Word, k: Word)
    ensures TdWord(t, a, b, c, d, k) ==
            Xor(InvMixColumn(Column(InvSubWord(t, a), InvSubWord(t, b), InvSubWord(t, c), InvSubWord(t, d))), k)
    ensures TdLast(t, a, b, c, d, k) ==
            Xor(Column(InvSubWord(t, a), InvSubWord(t, b), InvSubWord(t, c), InvSubWord(t, d)), k)
  {
    hide Pack, B0, B1, B2, B3, Xor, InvMixColumn, Column, InvSubWord, Td0, Td1, Td2, Td3, Masked;
    InvSubColumnPack(t, a, b, c, d);
    TdColumn(t, B0(a), B1(b), B2(c), B3(d));
    MaskColumn(t.si(B0(a)), t.si(B1(b)), t.si(B2(c)), t.si(B3(d)));
  }

  /** Sixteen look-ups and four key words make one round of the cipher; the last round leaves out MixColumns. */
  lemma {:induction false} TeRound(t: SBox, s: Block, k: Block)
    ensures Block(TeWord(t, s.w0, s.w1, s.w2, s.w3, k.w0), TeWord(t, s.w1, s.w2, s.w3, s.w0, k.w1),
                  TeWord(t, s.w2, s.w3, s.w0, s.w1, k.w2), TeWord(t, s.w3, s.w0, s.w1, s.w2, k.w3)) ==
            AddRoundKey(MixColumns(ShiftRows(SubBytes(t, s))), k)
    ensures Block(TeLast(t, s.w0, s.w1, s.w2, s.w3, k.w0), TeLast(t, s.w1, s.w2, s.w3, s.w0, k.w1),
                  TeLast(t, s.w2, s.w3, s.w0, s.w1, k.w2), TeLast(t, s.w3, s.w0, s.w1, s.w2, k.w3)) ==
            AddRoundKey(ShiftRows(SubBytes(t, s)), k)
  {
    hide TeWord, TeLast, Xor, MixColumn, Column, SubWord;
    TeWordIs(t, s.w0, s.w1, s.w2, s.w3, k.w0);
    TeWordIs(t, s.w1, s.w2, s.w3, s.w0, k.w1);
    TeWordIs(t, s.w2, s.w3, s.w0, s.w1, k.w2);
    TeWordIs(t, s.w3, s.w0, s.w1, s.w2, k.w3);
  }

  lemma {:induction false} TdRound(t: SBox, s: Block, k: Block)
    ensures Block(TdWord(t, s.w0, s.w3, s.w2, s.w1, k.w0), TdWord(t, s.w1, s.w0, s.w3, s.w2, k.w1),
                  TdWord(t, s.w2, s.w1, s.w0, s.w3, k.w2), TdWord(t, s.w3, s.w2, s.w1, s.w0, k.w3)) ==
            AddRoundKey(InvMixColumns(InvShiftRows(InvSubBytes(t, s))), k)
    ensures Block(TdLast(t, s.w0, s.w3, s.w2, s.w1, k.w0), TdLast(t, s.w1, s.w0, s.w3, s.w2, k.w1),
                  TdLast(t, s.w2, s.w1, s.w0, s.w3, k.w2), TdLast(t, s.w3, s.w2, s.w1, s.w0, k.w3)) ==
            AddRoundKey(InvShiftRows(InvSubBytes(t, s)), k)
  {
    hide TdWord, TdLast, Xor, InvMixColumn, Column, InvSubWord;
    TdWordIs(t, s.w0, s.w3, s.w2, s.w1, k.w0);
    TdWordIs(t, s.w1, s.w0, s.w3, s.w2, k.w1);
    TdWordIs(t, s.w2, s.w1, s.w0, s.w3, k.w2);
    TdWordIs(t, s.w3, s.w2, s.w1, s.w0, k.w3);
  }
}
