/** The key schedule, the rounds and the block of FIPS 46-3, and that deskey and des compute them. */
module DesStandard {
  import opened Words
  import opened DesBits
  import opened DesRounds
  import opened DesKeys
  import opened DesPermutation
  import opened DesWordBits
  import opened DesCipherFunction
  import opened DesLongs

  // ---------------------------------------------------------------------------------------------
  // The key schedule

  /** The tables PC-1 and PC-2 as FIPS 46-3 prints them. */
  const PC_1: seq<int> :=
    [57, 49, 41, 33, 25, 17, 9, 1, 58, 50, 42, 34, 26, 18, 10, 2, 59, 51, 43, 35, 27, 19, 11, 3, 60, 52, 44, 36] +
    [63, 55, 47, 39, 31, 23, 15, 7, 62, 54, 46, 38, 30, 22, 14, 6, 61, 53, 45, 37, 29, 21, 13, 5, 28, 20, 12, 4]

  const PC_2: seq<int> :=
    [14, 17, 11, 24, 1, 5, 3, 28, 15, 6, 21, 10, 23, 19, 12, 4, 26, 8, 16, 7, 27, 20, 13, 2] +
    [41, 52, 31, 37, 47, 55, 30, 40, 51, 45, 33, 48, 44, 49, 39, 56, 34, 53, 46, 42, 50, 36, 29, 32]

  lemma {:induction false} FirstPc1(j: nat)
    requires j < 28
    ensures PC_1[j] - 1 == PC1[j]
  {
  }

  lemma {:induction false} SecondPc1(j: nat)
    requires 28 <= j < 56
    ensures PC_1[j] - 1 == PC1[j]
  {
  }

  lemma {:induction false} FirstPc2(j: nat)
    requires j < 24
    ensures PC_2[j] - 1 == PC2[j]
  {
  }

  lemma {:induction false} SecondPc2(j: nat)
    requires 24 <= j < 48
    ensures PC_2[j] - 1 == PC2[j]
  {
  }

  lemma {:induction false} Pc1IsStandard(j: nat)
    requires j < 56
    ensures PC_1[j] - 1 == PC1[j]
  {
    if j < 28 { FirstPc1(j); } else { SecondPc1(j); }
  }

  lemma {:induction false} Pc2IsStandard(j: nat)
    requires j < 48
    ensures PC_2[j] - 1 == Pc2(j)
  {
    if j < 24 { FirstPc2(j); } else { SecondPc2(j); }
  }

  function Zeros(n: nat): (z: seq<bool>)
    ensures |z| == n
  {
    seq(n, _ => false)
  }

  lemma {:induction false} NextBig(i: nat)
    requires i < 23
    ensures Half(BIGBYTE[i]) == BIGBYTE[i + 1] && !Odd(BIGBYTE[i])
  {
    match i
    case 0 => assert BIGBYTE[0] == Word(0x800000) && BIGBYTE[1] == Word(0x400000);
    case 1 => assert BIGBYTE[1] == Word(0x400000) && BIGBYTE[2] == Word(0x200000);
    case 2 => assert BIGBYTE[2] == Word(0x200000) && BIGBYTE[3] == Word(0x100000);
    case 3 => assert BIGBYTE[3] == Word(0x100000) && BIGBYTE[4] == Word(0x80000);
    case 4 => assert BIGBYTE[4] == Word(0x80000) && BIGBYTE[5] == Word(0x40000);
    case 5 => assert BIGBYTE[5] == Word(0x40000) && BIGBYTE[6] == Word(0x20000);
    case 6 => assert BIGBYTE[6] == Word(0x20000) && BIGBYTE[7] == Word(0x10000);
    case 7 => assert BIGBYTE[7] == Word(0x10000) && BIGBYTE[8] == Word(0x8000);
    case 8 => assert BIGBYTE[8] == Word(0x8000) && BIGBYTE[9] == Word(0x4000);
    case 9 => assert BIGBYTE[9] == Word(0x4000) && BIGBYTE[10] == Word(0x2000);
    case 10 => assert BIGBYTE[10] == Word(0x2000) && BIGBYTE[11] == Word(0x1000);
    case 11 => assert BIGBYTE[11] == Word(0x1000) && BIGBYTE[12] == Word(0x800);
    case 12 => assert BIGBYTE[12] == Word(0x800) && BIGBYTE[13] == Word(0x400);
    case 13 => assert BIGBYTE[13] == Word(0x400) && BIGBYTE[14] == Word(0x200);
    case 14 => assert BIGBYTE[14] == Word(0x200) && BIGBYTE[15] == Word(0x100);
    case 15 => assert BIGBYTE[15] == Word(0x100) && BIGBYTE[16] == Word(0x80);
    case 16 => assert BIGBYTE[16] == Word(0x80) && BIGBYTE[17] == Word(0x40);
    case 17 => assert BIGBYTE[17] == Word(0x40) && BIGBYTE[18] == Word(0x20);
    case 18 => assert BIGBYTE[18] == Word(0x20) && BIGBYTE[19] == Word(0x10);
    case 19 => assert BIGBYTE[19] == Word(0x10) && BIGBYTE[20] == Word(0x8);
    case 20 => assert BIGBYTE[20] == Word(0x8) && BIGBYTE[21] == Word(0x4);
    case 21 => assert BIGBYTE[21] == Word(0x4) && BIGBYTE[22] == Word(0x2);
    case _ =>
  }

  lemma {:induction false} ZeroBits(n: nat)
    ensures BitsOf(Word(0), n) == Zeros(n)
    decreases n
  {
    hide Half, Odd;
    if n > 0 {
      HalfOfZero();
      ZeroBits(n - 1);
    }
  }

  lemma {:induction false} HalfOfZero()
    ensures Half(Word(0)) == Word(0) && !Odd(Word(0))
  {
  }

  lemma {:induction false} HalfOfOne()
    ensures Half(Word(1)) == Word(0) && Odd(Word(1))
  {
  }

  /** bigbyte[i] is a one in place i of 24, seen from any number of bits that reaches it. */
  lemma {:induction false} BigBits(i: nat, n: nat)
    requires i < 24 && 24 - i <= n
    ensures BitsOf(BIGBYTE[i], n) == Zeros(n - (24 - i)) + [true] + Zeros(23 - i)
    decreases 24 - i
  {
    hide Half, Odd, BitsOf;
    BitsStep(BIGBYTE[i], n - 1);
    if i == 23 {
      assert BIGBYTE[23] == Word(1);
      HalfOfOne();
      ZeroBits(n - 1);
      assert Zeros(n - 1) + [true] + Zeros(0) == Zeros(n - 1) + [true];
    } else {
      NextBig(i);
      BigBits(i + 1, n - 1);
      assert Zeros(23 - i) == Zeros(22 - i) + [false];
    }
  }

  /** The bits PC-2 chooses for one of the two raw words. */
  function ChosenBits(bits: seq<bool>, offset: nat, n: nat): (k: seq<bool>)
    requires |bits| == 56 && n <= 24 && offset <= 24
    ensures |k| == n
  {
    seq(n, j requires 0 <= j < n => bits[Pc2(j + offset)])
  }

  lemma {:induction false} ChosenNext(bits: seq<bool>, offset: nat, n: nat)
    requires |bits| == 56 && 1 <= n <= 24 && offset <= 24
    ensures ChosenBits(bits, offset, n) == ChosenBits(bits, offset, n - 1) + [bits[Pc2(n - 1 + offset)]]
  {
  }

  /** One more bit behind `pre`, or none. */
  lemma {:induction false} OneMoreBit(pre: seq<bool>, m: nat)
    ensures OrBits(pre + Zeros(m + 1), Zeros(|pre|) + [true] + Zeros(m)) == pre + [true] + Zeros(m)
    ensures pre + Zeros(m + 1) == pre + [false] + Zeros(m)
  {
  }

  lemma {:induction false} RawBits(bits: seq<bool>, offset: nat, n: nat)
    requires |bits| == 56 && n <= 24 && offset <= 24
    ensures BitsOf(RawWord(bits, offset, n), 24) == ChosenBits(bits, offset, n) + Zeros(24 - n)
    decreases n
  {
    hide Or, BitsOf, OrBits, ChosenBits, Zeros;
    if n == 0 {
      ZeroBits(24);
      assert ChosenBits(bits, offset, 0) + Zeros(24) == Zeros(24);
    } else {
      RawBits(bits, offset, n - 1);
      ChosenNext(bits, offset, n);
      OneMoreBit(ChosenBits(bits, offset, n - 1), 24 - n);
      BigBits(n - 1, 24);
      BitsOfOr(RawWord(bits, offset, n - 1), BIGBYTE[n - 1], 24);
    }
  }

  /** K of round i + 1: what PC-2 chooses from the shifted halves. */
  function StandardKey(key: seq<Byte>, i: nat): (k: seq<bool>)
    requires |key| == 8 && i < 16
    ensures |k| == 48
  {
    seq(48, j requires 0 <= j < 48 => Pc2IsStandard(j); RoundBits(key, i)[PC_2[j] - 1])
  }

  lemma {:induction false} RawWordsAreKey(key: seq<Byte>, i: nat)
    requires |key| == 8 && i < 16
    ensures KeyBits48(RawWord(RoundBits(key, i), 0, 24), RawWord(RoundBits(key, i), 24, 24)) == StandardKey(key, i)
  {
    hide RawWord, RoundBits, BitsOf;
    var bits := RoundBits(key, i);
    RawBits(bits, 0, 24);
    RawBits(bits, 24, 24);
    assert Zeros(0) == [];
    assert ChosenBits(bits, 0, 24) + [] == ChosenBits(bits, 0, 24);
    assert ChosenBits(bits, 24, 24) + [] == ChosenBits(bits, 24, 24);
    var k := ChosenBits(bits, 0, 24) + ChosenBits(bits, 24, 24);
    forall j: nat | j < 48
      ensures k[j] == StandardKey(key, i)[j]
    {
      Pc2IsStandard(j);
    }
  }

  // The key bits: PC-1 on the key whose bytes have their bits in reverse order

  function Mirror(b: Byte): Byte {
    Byte((b.v << 7) | ((b.v & 2) << 5) | ((b.v & 4) << 3) | ((b.v & 8) << 1)
         | ((b.v >> 1) & 8) | ((b.v >> 3) & 4) | ((b.v >> 5) & 2) | (b.v >> 7))
  }

  /** Bit n of the key, counted from 0 and from the most significant bit of each byte on, as the standard counts. */
  predicate StandardBit(key: seq<Byte>, n: nat)
    requires |key| == 8 && n < 64
  {
    Test(key[n / 8], BYTEBIT[7 - n % 8])
  }

  function Mirrored(key: seq<Byte>): (m: seq<Byte>)
    ensures |m| == |key| && forall i | 0 <= i < |key| :: m[i] == Mirror(key[i])
  {
    seq(|key|, i requires 0 <= i < |key| => Mirror(key[i]))
  }

  lemma {:induction false} MirrorBit(b: Byte, k: nat)
    requires k < 8
    ensures Test(b, BYTEBIT[k]) == Test(Mirror(b), BYTEBIT[7 - k])
  {
    match k
    case 0 =>
    case 1 =>
    case 2 =>
    case 3 =>
    case 4 =>
    case 5 =>
    case 6 =>
    case _ =>
  }

  /** The source reads each key byte from its least significant bit on: the schedule is the standard's for the key with
      its bytes mirrored. */
  lemma {:induction false} KeyIsMirrored(key: seq<Byte>, j: nat)
    requires |key| == 8 && j < 56
    ensures 0 < PC_1[j] <= 64 && Chosen(key)[j] == StandardBit(Mirrored(key), PC_1[j] - 1)
  {
    hide Mirror, Test;
    Pc1IsStandard(j);
    MirrorBit(key[PC1[j] / 8], PC1[j] % 8);
  }

  // ---------------------------------------------------------------------------------------------
  // The rounds and the block

  function StandardRound(s: Boxes, p: Pair, k: seq<bool>): Pair
    requires |k| == 48
  {
    Pair(p.r, Xor(p.l, WordOf(CipherFunction(s, BitsOf(p.r, 32), k))))
  }

  /** The halves after n rounds. */
  function StandardRounds(s: Boxes, key: seq<Byte>, p: Pair, n: nat): Pair
    requires |key| == 8 && n <= 16
  {
    if n == 0 then p else StandardRound(s, StandardRounds(s, key, p, n - 1), StandardKey(key, n - 1))
  }

  /** The cipher block is the one whose initial permutation is the exchanged halves after the sixteenth round. */
  ghost predicate StandardDes(s: Boxes, key: seq<Byte>, b: Pair, c: Pair)
    requires |key| == 8
  {
    InitialPermutation(c) == Swap(StandardRounds(s, key, InitialPermutation(b), 16))
  }

  function Turned(p: Pair): Pair { Pair(Rol(p.l), Rol(p.r)) }

  lemma {:induction false} RoundTurned(s: Boxes, p: Pair, key: seq<Byte>, i: nat)
    requires |key| == 8 && i < 16
    ensures Round(TablesOf(s), Turned(p), Schedule(key)[i]) == Turned(StandardRound(s, p, StandardKey(key, i)))
  {
    hide F, TablesOf, Xor, Rol, BitsOf, WordOf, CipherFunction, RawWord, RoundBits, Cook, StandardKey, KeyBits48;
    var a, b := RawWord(RoundBits(key, i), 0, 24), RawWord(RoundBits(key, i), 24, 24);
    RawWordsAreKey(key, i);
    FIsStandard(s, p.r, a, b);
    RolXor(p.l, WordOf(CipherFunction(s, BitsOf(p.r, 32), StandardKey(key, i))));
    assert Schedule(key)[i] == Cook(a, b);
  }

  lemma {:induction false} RoundsTurned(s: Boxes, key: seq<Byte>, p: Pair, n: nat)
    requires |key| == 8 && n <= 16
    ensures Rounds(TablesOf(s), Schedule(key)[..n], Turned(p)) == Turned(StandardRounds(s, key, p, n))
    decreases n
  {
    hide TablesOf, Schedule, Round, StandardRound, Turned;
    if n > 0 {
      RoundsTurned(s, key, p, n - 1);
      assert Schedule(key)[..n][..n - 1] == Schedule(key)[..n - 1];
      RoundTurned(s, StandardRounds(s, key, p, n - 1), key, n - 1);
    }
  }

  /** With tables made from any S-boxes and P, for every key and block: des computes the DES of FIPS 46-3. */
  lemma {:induction false} DesIsStandard(s: Boxes, key: seq<Byte>, b: Pair)
    requires |key| == 8
    ensures StandardDes(s, key, b, DesBlock(TablesOf(s), Schedule(key), b))
  {
    hide TablesOf, Schedule, Rounds, StandardRounds, Initial, Final, InitialPermutation, Rol;
    var ip := InitialPermutation(b);
    InitialIsStandard(b);
    RoundsTurned(s, key, ip, 16);
    assert Schedule(key)[..16] == Schedule(key);
    var z := Rounds(TablesOf(s), Schedule(key), Initial(b));
    var c := DesBlock(TablesOf(s), Schedule(key), b);
    InitialFinal(z);
    InitialIsStandard(c);
    var ic, out := InitialPermutation(c), StandardRounds(s, key, ip, 16);
    RolInjective(ic.l, out.r);
    RolInjective(ic.r, out.l);
  }

  lemma {:induction false} RolInjective(a: Word, b: Word)
    requires Rol(a) == Rol(b)
    ensures a == b
  {
  }

  // ---------------------------------------------------------------------------------------------
  // deskey and des

  /** A block enciphered with the register of words. */
  method Encipher(s: Boxes, key: seq<Byte>, inblock: array<Byte>, outblock: array<Byte>)
    requires |key| == 8 && inblock.Length == 8 && outblock.Length == 8
    modifies outblock
    ensures StandardDes(s, key, BlockOf(old(inblock[..])), BlockOf(outblock[..]))
  {
    hide TablesOf, Schedule, SubKeys, BlockOf, BytesOf, DesBlock, StandardDes;
    var register := new KeyRegister();
    register.DesKey(key, EN0);
    ghost var b := BlockOf(inblock[..]);
    register.Des(TablesOf(s), inblock, outblock);
    DesIsStandard(s, key, b);
    BlockOfBytes(DesBlock(TablesOf(s), Schedule(key), b));
  }

  /** The same where unsigned long has 64 bits. */
  method EncipherLong(s: Boxes, key: seq<Byte>, inblock: array<Byte>, outblock: array<Byte>)
    requires |key| == 8 && inblock.Length == 8 && outblock.Length == 8
    modifies outblock
    ensures StandardDes(s, key, BlockOf(old(inblock[..])), BlockOf(outblock[..]))
  {
    hide TablesOf, Schedule, SubKeys, Lows, BlockOf, BytesOf, DesBlock, StandardDes;
    var register := new LongRegister();
    register.DesKey(key, EN0);
    ghost var b := BlockOf(inblock[..]);
    register.Des(TablesOf(s), inblock, outblock);
    DesIsStandard(s, key, b);
    BlockOfBytes(DesBlock(TablesOf(s), Schedule(key), b));
  }
}
