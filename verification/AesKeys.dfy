/** The key schedules of AES_set_encrypt_key and AES_set_decrypt_key. */
module AesKeys {
  import opened Words
  import opened AesTables
  import opened AesCipher

  // ---------------------------------------------------------------------------------------------
  // KeyExpansion of FIPS 197 section 5.2

  /** The byte x^n of GF(2^8). */
  function Power(n: nat): Byte {
    if n == 0 then Byte(1) else XTime(Power(n - 1))
  }

  function Rcon(j: nat): Word
    requires 1 <= j
  {
    Pack(Power(j - 1), Byte(0), Byte(0), Byte(0))
  }

  function RotWord(w: Word): Word {
    Pack(B1(w), B2(w), B3(w), B0(w))
  }

  predicate KeyLength(nk: nat) {
    nk == 4 || nk == 6 || nk == 8
  }

  /** Word i of the expanded key. */
  function KeyWord(t: SBox, key: seq<Word>, i: nat): Word
    requires KeyLength(|key|)
  {
    var nk := |key|;
    if i < nk then key[i]
    else
      var temp := KeyWord(t, key, i - 1);
      var add :=
        if i % nk == 0 then Xor(SubWord(t, RotWord(temp)), Rcon(i / nk))
        else if nk > 6 && i % nk == 4 then SubWord(t, temp)
        else temp;
      Xor(KeyWord(t, key, i - nk), add)
  }

  function Expansion(t: SBox, key: seq<Word>): (w: seq<Word>)
    requires KeyLength(|key|)
    ensures |w| == 4 * (|key| + 6) + 4
  {
    seq(4 * (|key| + 6) + 4, i requires 0 <= i => KeyWord(t, key, i))
  }

  lemma {:induction false} InGroup(nk: nat, j: nat, c: nat)
    requires KeyLength(nk) && c < nk
    ensures (nk * j + c) / nk == j && (nk * j + c) % nk == c
  {
  }

  lemma {:induction false} GroupStart(t: SBox, key: seq<Word>, j: nat, i: nat)
    requires KeyLength(|key|) && 1 <= j && i == |key| * j && |key| <= i
    ensures KeyWord(t, key, i) == Xor(KeyWord(t, key, i - |key|), Xor(SubWord(t, RotWord(KeyWord(t, key, i - 1))), Rcon(j)))
  {
    hide Xor, SubWord, RotWord, Rcon;
    InGroup(|key|, j, 0);
  }

  lemma {:induction false} GroupRest(t: SBox, key: seq<Word>, j: nat, c: nat, i: nat)
    requires KeyLength(|key|) && 1 <= j && 1 <= c < |key| && !(|key| == 8 && c == 4)
    requires i == |key| * j + c && |key| <= i
    ensures KeyWord(t, key, i) == Xor(KeyWord(t, key, i - |key|), KeyWord(t, key, i - 1))
  {
    hide Xor, SubWord, RotWord, Rcon;
    InGroup(|key|, j, c);
  }

  lemma {:induction false} GroupMiddle(t: SBox, key: seq<Word>, j: nat, i: nat)
    requires |key| == 8 && 1 <= j && i == 8 * j + 4
    ensures KeyWord(t, key, i) == Xor(KeyWord(t, key, i - 8), SubWord(t, KeyWord(t, key, i - 1)))
  {
    hide Xor, SubWord, RotWord, Rcon;
  }

  // ---------------------------------------------------------------------------------------------
  // The same words as the program computes them

  const RCON: seq<Word> :=
    [Word(0x01000000), Word(0x02000000), Word(0x04000000), Word(0x08000000), Word(0x10000000),
     Word(0x20000000), Word(0x40000000), Word(0x80000000), Word(0x1B000000), Word(0x36000000)]

  lemma {:induction false} RconTable(i: nat)
    requires i < 10
    ensures RCON[i] == Rcon(i + 1)
  {
    Powers10(i);
    RconBits(Power(i));
  }

  lemma {:induction false} RconBits(p: Byte)
    ensures Pack(p, Byte(0), Byte(0), Byte(0)) == Word((p.v as bv32) << 24)
  {
  }

  lemma {:induction false} Powers10(i: nat)
    requires i < 10
    ensures Power(i).v == [1, 2, 4, 8, 0x10, 0x20, 0x40, 0x80, 0x1b, 0x36][i]
  {
    if i > 0 {
      Powers10(i - 1);
    }
  }

  /** A previous word, a rotated and substituted word and a round constant, added from left to right. */
  function RotatedCore(t: SBox, x: Word, temp: Word, rcon: Word): Word {
    Xor(Xor(Xor(Xor(Xor(x, And(Te4(t, B1(temp)), 0xff000000)), And(Te4(t, B2(temp)), 0x00ff0000)),
                And(Te4(t, B3(temp)), 0x0000ff00)), And(Te4(t, B0(temp)), 0x000000ff)), rcon)
  }

  function PlainCore(t: SBox, x: Word, temp: Word): Word {
    Xor(Xor(Xor(Xor(x, And(Te4(t, B0(temp)), 0xff000000)), And(Te4(t, B1(temp)), 0x00ff0000)),
            And(Te4(t, B2(temp)), 0x0000ff00)), And(Te4(t, B3(temp)), 0x000000ff))
  }

  lemma {:induction false} XorFour(x: Word, a: Word, b: Word, c: Word, d: Word)
    ensures Xor(Xor(Xor(Xor(x, a), b), c), d) == Xor(x, Xor(Xor(Xor(a, b), c), d))
  {
    hide Xor;
    XorAssoc(x, a, b);
    XorAssoc(x, Xor(a, b), c);
    XorAssoc(x, Xor(Xor(a, b), c), d);
  }

  lemma {:induction false} PlainCoreIs(t: SBox, x: Word, temp: Word)
    ensures PlainCore(t, x, temp) == Xor(x, SubWord(t, temp))
  {
    hide Xor, And, B0, B1, B2, B3, Pack;
    var a, b, c, d := B0(temp), B1(temp), B2(temp), B3(temp);
    MaskColumn(t.s(a), t.s(b), t.s(c), t.s(d));
    XorFour(x, And(Te4(t, a), 0xff000000), And(Te4(t, b), 0x00ff0000), And(Te4(t, c), 0x0000ff00), And(Te4(t, d), 0x000000ff));
  }

  lemma {:induction false} RotatedCoreIs(t: SBox, x: Word, temp: Word, rcon: Word)
    ensures RotatedCore(t, x, temp, rcon) == Xor(x, Xor(SubWord(t, RotWord(temp)), rcon))
  {
    hide Xor, And, B0, B1, B2, B3, Pack;
    var a, b, c, d := B1(temp), B2(temp), B3(temp), B0(temp);
    BytesPack(a, b, c, d);
    PlainCoreIs(t, x, RotWord(temp));
    XorAssoc(x, SubWord(t, RotWord(temp)), rcon);
  }

  class AesKey {
    const rdKey: array<Word>
    var rounds: int

    constructor ()
      ensures Valid() && fresh(rdKey)
    {
      rdKey := new Word[60](_ => Word(0));
      rounds := 0;
    }

    ghost predicate Valid() {
      rdKey.Length == 60
    }

    /** One of the set-key operations has succeeded. */
    ghost predicate Ready()
      reads this
    {
      Valid() && (rounds == 10 || rounds == 12 || rounds == 14)
    }

    /** The round keys in use. */
    ghost function Schedule(): (w: seq<Word>)
      requires Ready()
      reads this, rdKey
      ensures |w| == 4 * rounds + 4
    {
      rdKey[..4 * rounds + 4]
    }
  }

  function KeyWords(user: seq<Byte>, nk: nat): (w: seq<Word>)
    requires 4 * nk <= |user|
    ensures |w| == nk
  {
    seq(nk, i requires 0 <= i < nk => Pack(user[4 * i], user[4 * i + 1], user[4 * i + 2], user[4 * i + 3]))
  }

  ghost predicate Filled(t: SBox, key: seq<Word>, rk: array<Word>, n: nat)
    reads rk
  {
    KeyLength(|key|) && n <= rk.Length && (forall i | 0 <= i < n :: rk[i] == KeyWord(t, key, i))
  }

  /** The first word of group j. */
  method StartGroup(t: SBox, rk: array<Word>, nk: nat, j: nat, i: nat, ghost key: seq<Word>)
    requires KeyLength(nk) && |key| == nk && 1 <= j <= 10 && i == nk * j && nk <= i < rk.Length && Filled(t, key, rk, i)
    modifies rk
    ensures Filled(t, key, rk, i + 1)
  {
    hide Xor, RotatedCore, SubWord, RotWord, Rcon, KeyWord;
    RconTable(j - 1);
    RotatedCoreIs(t, rk[i - nk], rk[i - 1], RCON[j - 1]);
    GroupStart(t, key, j, i);
    rk[i] := RotatedCore(t, rk[i - nk], rk[i - 1], RCON[j - 1]);
  }

  /** A word of group j that adds the word before it. */
  method Chain(t: SBox, rk: array<Word>, nk: nat, j: nat, c: nat, i: nat, ghost key: seq<Word>)
    requires KeyLength(nk) && |key| == nk && 1 <= j && 1 <= c < nk && !(nk == 8 && c == 4)
    requires i == nk * j + c && nk <= i < rk.Length && Filled(t, key, rk, i)
    modifies rk
    ensures Filled(t, key, rk, i + 1)
  {
    hide Xor, KeyWord;
    GroupRest(t, key, j, c, i);
    rk[i] := Xor(rk[i - nk], rk[i - 1]);
  }

  /** The fifth word of a group of eight. */
  method MiddleOfGroup(t: SBox, rk: array<Word>, j: nat, i: nat, ghost key: seq<Word>)
    requires |key| == 8 && 1 <= j && i == 8 * j + 4 && i < rk.Length && Filled(t, key, rk, i)
    modifies rk
    ensures Filled(t, key, rk, i + 1)
  {
    hide Xor, PlainCore, SubWord, KeyWord;
    PlainCoreIs(t, rk[i - 8], rk[i - 1]);
    GroupMiddle(t, key, j, i);
    rk[i] := PlainCore(t, rk[i - 8], rk[i - 1]);
  }

  method Expand128(t: SBox, rk: array<Word>, ghost key: seq<Word>)
    requires rk.Length == 60 && |key| == 4 && Filled(t, key, rk, 4)
    modifies rk
    ensures Filled(t, key, rk, 44)
  {
    hide Filled;
    var i, b := 0, 0;
    while true
      invariant 0 <= i < 10 && b == 4 * i
      invariant Filled(t, key, rk, b + 4)
      decreases 10 - i
    {
      StartGroup(t, rk, 4, i + 1, b + 4, key);
      Chain(t, rk, 4, i + 1, 1, b + 5, key);
      Chain(t, rk, 4, i + 1, 2, b + 6, key);
      Chain(t, rk, 4, i + 1, 3, b + 7, key);
      i := i + 1;
      if i == 10 {
        return;
      }
      b := b + 4;
    }
  }

  method Expand192(t: SBox, rk: array<Word>, ghost key: seq<Word>)
    requires rk.Length == 60 && |key| == 6 && Filled(t, key, rk, 6)
    modifies rk
    ensures Filled(t, key, rk, 52)
  {
    hide Filled;
    var i, b := 0, 0;
    while true
      invariant 0 <= i < 8 && b == 6 * i
      invariant Filled(t, key, rk, b + 6)
      decreases 8 - i
    {
      StartGroup(t, rk, 6, i + 1, b + 6, key);
      Chain(t, rk, 6, i + 1, 1, b + 7, key);
      Chain(t, rk, 6, i + 1, 2, b + 8, key);
      Chain(t, rk, 6, i + 1, 3, b + 9, key);
      i := i + 1;
      if i == 8 {
        return;
      }
      Chain(t, rk, 6, i, 4, b + 10, key);
      Chain(t, rk, 6, i, 5, b + 11, key);
      b := b + 6;
    }
  }

  method Expand256(t: SBox, rk: array<Word>, ghost key: seq<Word>)
    requires rk.Length == 60 && |key| == 8 && Filled(t, key, rk, 8)
    modifies rk
    ensures Filled(t, key, rk, 60)
  {
    hide Filled;
    var i, b := 0, 0;
    while true
      invariant 0 <= i < 7 && b == 8 * i
      invariant Filled(t, key, rk, b + 8)
      decreases 7 - i
    {
      StartGroup(t, rk, 8, i + 1, b + 8, key);
      Chain(t, rk, 8, i + 1, 1, b + 9, key);
      Chain(t, rk, 8, i + 1, 2, b + 10, key);
      Chain(t, rk, 8, i + 1, 3, b + 11, key);
      i := i + 1;
      if i == 7 {
        return;
      }
      MiddleOfGroup(t, rk, i, b + 12, key);
      Chain(t, rk, 8, i, 5, b + 13, key);
      Chain(t, rk, 8, i, 6, b + 14, key);
      Chain(t, rk, 8, i, 7, b + 15, key);
      b := b + 8;
    }
  }

  predicate BitsOk(bits: int) {
    bits == 128 || bits == 192 || bits == 256
  }

  /** Word i of the user key. */
  function UserWord(user: seq<Byte>, i: nat): Word
    requires 4 * i + 4 <= |user|
  {
    GetU32(user[4 * i], user[4 * i + 1], user[4 * i + 2], user[4 * i + 3])
  }

  ghost predicate Loaded(user: seq<Byte>, rk: array<Word>, n: nat)
    reads rk
  {
    n <= rk.Length && 4 * n <= |user| && (forall i | 0 <= i < n :: rk[i] == UserWord(user, i))
  }

  method LoadTwo(user: seq<Byte>, rk: array<Word>, n: nat)
    requires Loaded(user, rk, n) && n + 2 <= rk.Length && 4 * (n + 2) <= |user|
    modifies rk
    ensures Loaded(user, rk, n + 2)
  {
    hide UserWord;
    rk[n] := UserWord(user, n);
    rk[n + 1] := UserWord(user, n + 1);
  }

  lemma {:induction false} LoadedIsFilled(t: SBox, user: seq<Byte>, rk: array<Word>, nk: nat)
    requires KeyLength(nk) && Loaded(user, rk, nk)
    ensures Filled(t, KeyWords(user, nk), rk, nk)
  {
  }

  lemma {:induction false} FilledIsExpansion(t: SBox, key: seq<Word>, rk: array<Word>)
    requires KeyLength(|key|) && rk.Length == 60 && Filled(t, key, rk, 4 * (|key| + 6) + 4)
    ensures rk[..4 * (|key| + 6) + 4] == Expansion(t, key)
  {
  }

  /** The first words of the schedule are the user key; the rest of it is expanded from them. */
  method ExpandKey(t: SBox, user: seq<Byte>, bits: int, rk: array<Word>)
    requires BitsOk(bits) && bits / 8 <= |user| && rk.Length == 60
    modifies rk
    ensures rk[..4 * (bits / 32 + 6) + 4] == Expansion(t, KeyWords(user, bits / 32))
  {
    hide Loaded, Filled, KeyWords, Expansion;
    ghost var words := KeyWords(user, bits / 32);
    assert Loaded(user, rk, 0) by {
      NothingLoaded(user, rk);
    }
    LoadTwo(user, rk, 0);
    LoadTwo(user, rk, 2);
    if bits == 128 {
      LoadedIsFilled(t, user, rk, 4);
      Expand128(t, rk, words);
      FilledIsExpansion(t, words, rk);
      return;
    }
    LoadTwo(user, rk, 4);
    if bits == 192 {
      LoadedIsFilled(t, user, rk, 6);
      Expand192(t, rk, words);
      FilledIsExpansion(t, words, rk);
      return;
    }
    LoadTwo(user, rk, 6);
    LoadedIsFilled(t, user, rk, 8);
    Expand256(t, rk, words);
    FilledIsExpansion(t, words, rk);
  }

  lemma {:induction false} NothingLoaded(user: seq<Byte>, rk: array<Word>)
    ensures Loaded(user, rk, 0)
  {
  }

  method SetEncryptKey(t: SBox, user: seq<Byte>, bits: int, key: AesKey) returns (status: int)
    requires key.Valid()
    requires BitsOk(bits) ==> bits / 8 <= |user|
    modifies key, key.rdKey
    ensures !BitsOk(bits) ==> status == -2 && key.rounds == old(key.rounds) && key.rdKey[..] == old(key.rdKey[..])
    ensures BitsOk(bits) ==> status == 0 && key.Ready() && key.rounds == bits / 32 + 6
    ensures BitsOk(bits) ==> key.Schedule() == Expansion(t, KeyWords(user, bits / 32))
  {
    hide KeyWords, Expansion;
    if !BitsOk(bits) {
      return -2;
    }
    if bits == 128 {
      key.rounds := 10;
    } else if bits == 192 {
      key.rounds := 12;
    } else {
      key.rounds := 14;
    }
    ExpandKey(t, user, bits, key.rdKey);
    return 0;
  }

  // ---------------------------------------------------------------------------------------------
  // The decryption schedule

  /** Round key r, read from the array. */
  ghost function KeyAt(rk: array<Word>, r: nat): Block
    requires 4 * r + 4 <= rk.Length
    reads rk
  {
    Block(rk[4 * r], rk[4 * r + 1], rk[4 * r + 2], rk[4 * r + 3])
  }

  /** Two round keys change places. */
  method SwapRoundKeys(rk: array<Word>, i: nat, j: nat)
    requires i < j && 4 * j + 4 <= rk.Length
    modifies rk
    ensures KeyAt(rk, i) == old(KeyAt(rk, j)) && KeyAt(rk, j) == old(KeyAt(rk, i))
    ensures forall r: nat | r != i && r != j && 4 * r + 4 <= rk.Length :: KeyAt(rk, r) == old(KeyAt(rk, r))
  {
    var a, b := 4 * i, 4 * j;
    var temp := rk[a];
    rk[a] := rk[b];
    rk[b] := temp;
    temp := rk[a + 1];
    rk[a + 1] := rk[b + 1];
    rk[b + 1] := temp;
    temp := rk[a + 2];
    rk[a + 2] := rk[b + 2];
    rk[b + 2] := temp;
    temp := rk[a + 3];
    rk[a + 3] := rk[b + 3];
    rk[b + 3] := temp;
  }

  /** The order of the round keys is inverted in place. */
  method ReverseRoundKeys(rk: array<Word>, rounds: nat)
    requires 4 * rounds + 4 <= rk.Length
    modifies rk
    ensures forall r: nat | r <= rounds :: KeyAt(rk, r) == old(KeyAt(rk, rounds - r))
  {
    hide KeyAt;
    var i, j := 0, rounds;
    while i < j
      invariant 0 <= i <= rounds && j == rounds - i && i <= j + 1
      invariant forall r: nat | r <= rounds ::
          KeyAt(rk, r) == old(KeyAt(rk, if i <= r <= j then r else rounds - r))
    {
      SwapRoundKeys(rk, i, j);
      i, j := i + 1, j - 1;
    }
  }

  /** The inverse MixColumns of a word, through the substitution table and the decryption tables. */
  function TableInvMix(t: SBox, w: Word): Word {
    Xor(Xor(Xor(Td0(t, B3(Te4(t, B0(w)))), Td1(t, B3(Te4(t, B1(w))))), Td2(t, B3(Te4(t, B2(w))))), Td3(t, B3(Te4(t, B3(w)))))
  }

  lemma {:induction false} TableInvMixIs(t: SBox, w: Word)
    requires Undoes(t)
    ensures TableInvMix(t, w) == InvMixColumn(w)
  {
    hide Xor, B0, B1, B2, B3, Pack, Td0, Td1, Td2, Td3, InvMixColumn;
    var a, b, c, d := t.s(B0(w)), t.s(B1(w)), t.s(B2(w)), t.s(B3(w));
    BytesPack(a, a, a, a);
    BytesPack(b, b, b, b);
    BytesPack(c, c, c, c);
    BytesPack(d, d, d, d);
    TdColumn(t, a, b, c, d);
    PackBytes(w);
  }

  method InvMixRoundKey(t: SBox, rk: array<Word>, i: nat)
    requires Undoes(t) && 4 * i + 4 <= rk.Length
    modifies rk
    ensures KeyAt(rk, i) == old(InvMixColumns(KeyAt(rk, i)))
    ensures forall r: nat | r != i && 4 * r + 4 <= rk.Length :: KeyAt(rk, r) == old(KeyAt(rk, r))
  {
    hide TableInvMix, InvMixColumn, Undoes;
    var b := 4 * i;
    TableInvMixIs(t, rk[b]);
    TableInvMixIs(t, rk[b + 1]);
    TableInvMixIs(t, rk[b + 2]);
    TableInvMixIs(t, rk[b + 3]);
    rk[b] := TableInvMix(t, rk[b]);
    rk[b + 1] := TableInvMix(t, rk[b + 1]);
    rk[b + 2] := TableInvMix(t, rk[b + 2]);
    rk[b + 3] := TableInvMix(t, rk[b + 3]);
  }

  /** All round keys but the first and the last go through the inverse MixColumns. */
  method InvMixRoundKeys(t: SBox, rk: array<Word>, rounds: nat)
    requires Undoes(t) && 4 * rounds + 4 <= rk.Length
    modifies rk
    ensures forall r: nat | r <= rounds ::
        KeyAt(rk, r) ==
        if r == 0 || r == rounds then old(KeyAt(rk, r)) else InvMixColumns(old(KeyAt(rk, r)))
  {
    hide KeyAt, InvMixColumns, Undoes;
    var i := 1;
    while i < rounds
      invariant 1 <= i && (i <= rounds || rounds == 0)
      invariant forall r: nat | r <= rounds ::
          KeyAt(rk, r) ==
          if 1 <= r < i then InvMixColumns(old(KeyAt(rk, r))) else old(KeyAt(rk, r))
    {
      InvMixRoundKey(t, rk, i);
      i := i + 1;
    }
  }

  lemma {:induction false} SameKeys(w: seq<Word>, rk: array<Word>, rounds: nat)
    requires 4 * rounds + 4 <= rk.Length && w == rk[..4 * rounds + 4]
    ensures forall r: nat | r <= rounds :: KeyAt(rk, r) == RoundKey(w, r)
  {
  }

  lemma {:induction false} Converted(w: seq<Word>, rk: array<Word>, rounds: nat)
    requires 4 * rounds + 4 <= rk.Length && 4 * rounds + 4 <= |w|
    requires forall r: nat | r <= rounds :: KeyAt(rk, r) == DecryptRoundKey(rounds, w, r)
    ensures DecryptSchedule(rounds, w, rk[..4 * rounds + 4])
  {
  }

  method SetDecryptKey(t: SBox, user: seq<Byte>, bits: int, key: AesKey) returns (status: int)
    requires Undoes(t)
    requires key.Valid()
    requires BitsOk(bits) ==> bits / 8 <= |user|
    modifies key, key.rdKey
    ensures !BitsOk(bits) ==> status == -2 && key.rounds == old(key.rounds) && key.rdKey[..] == old(key.rdKey[..])
    ensures BitsOk(bits) ==> status == 0 && key.Ready() && key.rounds == bits / 32 + 6
    ensures BitsOk(bits) ==> DecryptSchedule(key.rounds, Expansion(t, KeyWords(user, bits / 32)), key.Schedule())
  {
    hide KeyWords, Expansion, InvMixColumns, Undoes, KeyAt, RoundKey, DecryptSchedule;
    status := SetEncryptKey(t, user, bits, key);
    if status < 0 {
      return;
    }
    var rk := key.rdKey;
    ghost var w := Expansion(t, KeyWords(user, bits / 32));
    SameKeys(w, rk, key.rounds);
    ReverseRoundKeys(rk, key.rounds);
    InvMixRoundKeys(t, rk, key.rounds);
    Converted(w, rk, key.rounds);
  }
}
