/** The key register of DES: how deskey fills it and des uses it. */
module DesKeys {
  import opened Words
  import opened DesBits
  import opened DesRounds

  type Below64 = n: nat | n < 64
  type Below56 = n: nat | n < 56

  const PC1: seq<Below64> :=
    [56, 48, 40, 32, 24, 16, 8, 0, 57, 49, 41, 33, 25, 17, 9, 1, 58, 50, 42, 34, 26, 18, 10, 2, 59, 51, 43, 35] +
    [62, 54, 46, 38, 30, 22, 14, 6, 61, 53, 45, 37, 29, 21, 13, 5, 60, 52, 44, 36, 28, 20, 12, 4, 27, 19, 11, 3]

  const PC2: seq<Below56> :=
    [13, 16, 10, 23, 0, 4, 2, 27, 14, 5, 20, 9, 22, 18, 11, 3, 25, 7, 15, 6, 26, 19, 12, 1] +
    [40, 51, 30, 36, 46, 54, 29, 39, 50, 44, 32, 47, 43, 48, 38, 55, 33, 52, 45, 41, 49, 35, 28, 31]

  const TOTROT: seq<nat> := [1, 2, 4, 6, 8, 10, 12, 14, 15, 17, 19, 21, 23, 25, 27, 28]

  const BYTEBIT: seq<Byte> :=
    [Byte(0x01), Byte(0x02), Byte(0x04), Byte(0x08), Byte(0x10), Byte(0x20), Byte(0x40), Byte(0x80)]

  const BIGBYTE: seq<Word> :=
    [Word(0x800000), Word(0x400000), Word(0x200000), Word(0x100000), Word(0x80000), Word(0x40000), Word(0x20000),
     Word(0x10000), Word(0x8000), Word(0x4000), Word(0x2000), Word(0x1000), Word(0x800), Word(0x400), Word(0x200),
     Word(0x100), Word(0x80), Word(0x40), Word(0x20), Word(0x10), Word(0x8), Word(0x4), Word(0x2), Word(0x1)]

  /** The left shifts of the key schedule of FIPS 46-3, one for each round. */
  const SHIFTS: seq<nat> := [1, 1, 2, 2, 2, 2, 2, 2, 1, 2, 2, 2, 2, 2, 2, 1]

  // ---------------------------------------------------------------------------------------------
  // The key schedule by successive shifts

  predicate Test(a: Byte, b: Byte) { a.v & b.v != 0 }

  function KeyBit(key: seq<Byte>, j: nat): bool
    requires |key| == 8 && j < 56
  {
    Test(key[PC1[j] / 8], BYTEBIT[PC1[j] % 8])
  }

  function Chosen(key: seq<Byte>): (bits: seq<bool>)
    requires |key| == 8
    ensures |bits| == 56
  {
    seq(56, j requires 0 <= j < 56 => KeyBit(key, j))
  }

  function Rotated(half: seq<bool>, n: nat): (r: seq<bool>)
    requires n <= |half|
    ensures |r| == |half|
  {
    half[n..] + half[..n]
  }

  /** A half of the key bits after n rounds, each round shifting what the last one left. */
  function Shifted(half: seq<bool>, n: nat): (r: seq<bool>)
    requires |half| == 28 && n <= 16
    ensures |r| == 28
  {
    if n == 0 then half else Rotated(Shifted(half, n - 1), SHIFTS[n - 1])
  }

  /** The bits that round i of FIPS 46-3 chooses its subkey from. */
  function RoundBits(key: seq<Byte>, i: nat): (bits: seq<bool>)
    requires |key| == 8 && i < 16
    ensures |bits| == 56
  {
    Shifted(Chosen(key)[..28], i + 1) + Shifted(Chosen(key)[28..], i + 1)
  }

  function Pc2(j: nat): Below56
    requires j < 48
  {
    PC2[j]
  }

  /** Twenty-four chosen bits, the first one highest. */
  function RawWord(bits: seq<bool>, offset: nat, n: nat): Word
    requires |bits| == 56 && n <= 24 && offset <= 24
  {
    if n == 0 then Word(0)
    else
      if bits[Pc2(n - 1 + offset)] then Or(RawWord(bits, offset, n - 1), BIGBYTE[n - 1])
      else RawWord(bits, offset, n - 1)
  }

  // The six-bit fields of a raw word, moved to their places

  function Up6(x: Word): Word { Word((x.v & 0x00fc0000) << 6) }
  function Up10(x: Word): Word { Word((x.v & 0x00000fc0) << 10) }
  function Down10(x: Word): Word { Word((x.v & 0x00fc0000) >> 10) }
  function Down6(x: Word): Word { Word((x.v & 0x00000fc0) >> 6) }
  function Up12(x: Word): Word { Word((x.v & 0x0003f000) << 12) }
  function Up16(x: Word): Word { Word((x.v & 0x0000003f) << 16) }
  function Down4(x: Word): Word { Word((x.v & 0x0003f000) >> 4) }
  function Lowest(x: Word): Word { Word(x.v & 0x0000003f) }

  /** The two raw words of a round, regrouped into six-bit fields. */
  function Cook(a: Word, b: Word): SubKey {
    SubKey(Or(Or(Or(Up6(a), Up10(a)), Down10(b)), Down6(b)), Or(Or(Or(Up12(a), Up16(a)), Down4(b)), Lowest(b)))
  }

  function RoundKey(key: seq<Byte>, i: nat): SubKey
    requires |key| == 8 && i < 16
  {
    Cook(RawWord(RoundBits(key, i), 0, 24), RawWord(RoundBits(key, i), 24, 24))
  }

  function Schedule(key: seq<Byte>): (keys: seq<SubKey>)
    requires |key| == 8
    ensures |keys| == 16
  {
    seq(16, i requires 0 <= i < 16 => RoundKey(key, i))
  }

  lemma {:induction false} RotatedTwice(half: seq<bool>, a: nat, b: nat)
    requires a + b <= |half|
    ensures Rotated(Rotated(half, a), b) == Rotated(half, a + b)
  {
  }

  /** The shifts add up to one rotation by the table's total. */
  lemma {:induction false} ShiftedIsRotated(half: seq<bool>, n: nat)
    requires |half| == 28 && 1 <= n <= 16
    ensures TOTROT[n - 1] <= 28 && Shifted(half, n) == Rotated(half, TOTROT[n - 1])
  {
    if n == 1 {
      assert Shifted(half, 0) == half;
    } else {
      ShiftedIsRotated(half, n - 1);
      assert TOTROT[n - 1] == TOTROT[n - 2] + SHIFTS[n - 1] <= 28;
      RotatedTwice(half, TOTROT[n - 2], SHIFTS[n - 1]);
    }
  }

  // ---------------------------------------------------------------------------------------------
  // deskey

  const DE1 := 1
  const EN0 := 0

  method ChooseBits(key: seq<Byte>) returns (bits: array<bool>)
    requires |key| == 8
    ensures fresh(bits) && bits[..] == Chosen(key)
  {
    hide Test;
    bits := new bool[56];
    var j := 0;
    while j < 56
      invariant 0 <= j <= 56
      invariant forall x | 0 <= x < j :: bits[x] == KeyBit(key, x)
    {
      var l := PC1[j];
      bits[j] := Test(key[l / 8], BYTEBIT[l % 8]);
      j := j + 1;
    }
  }

  /** Both halves rotated by the total of round i. */
  method RotateBits(pc1m: array<bool>, pcr: array<bool>, i: nat)
    requires pc1m.Length == 56 && pcr.Length == 56 && pc1m != pcr && i < 16
    modifies pcr
    ensures TOTROT[i] <= 28
    ensures pcr[..] == Rotated(pc1m[..28], TOTROT[i]) + Rotated(pc1m[28..], TOTROT[i])
  {
    var n := TOTROT[i];
    assert 1 <= n <= 28;
    var j := 0;
    while j < 28
      invariant 0 <= j <= 28
      invariant forall x | 0 <= x < j :: pcr[x] == Rotated(pc1m[..28], n)[x]
    {
      var l := j + n;
      if l < 28 {
        pcr[j] := pc1m[l];
      } else {
        pcr[j] := pc1m[l - 28];
      }
      j := j + 1;
    }
    while j < 56
      invariant 28 <= j <= 56
      invariant forall x | 0 <= x < 28 :: pcr[x] == Rotated(pc1m[..28], n)[x]
      invariant forall x | 28 <= x < j :: pcr[x] == Rotated(pc1m[28..], n)[x - 28]
    {
      var l := j + n;
      if l < 56 {
        pcr[j] := pc1m[l];
      } else {
        pcr[j] := pc1m[l - 28];
      }
      j := j + 1;
    }
  }

  /** The two raw words of a round. */
  method CollectBits(pcr: array<bool>, kn: array<Word>, m: nat, n: nat)
    requires pcr.Length == 56 && m < kn.Length && n < kn.Length && m != n
    modifies kn
    ensures kn[m] == RawWord(pcr[..], 0, 24) && kn[n] == RawWord(pcr[..], 24, 24)
    ensures forall x | 0 <= x < kn.Length && x != m && x != n :: kn[x] == old(kn[x])
  {
    hide Or, Pc2;
    kn[m], kn[n] := Word(0), Word(0);
    var j := 0;
    while j < 24
      invariant 0 <= j <= 24
      invariant kn[m] == RawWord(pcr[..], 0, j) && kn[n] == RawWord(pcr[..], 24, j)
      invariant forall x | 0 <= x < kn.Length && x != m && x != n :: kn[x] == old(kn[x])
    {
      if pcr[Pc2(j)] {
        kn[m] := Or(kn[m], BIGBYTE[j]);
      }
      if pcr[Pc2(j + 24)] {
        kn[n] := Or(kn[n], BIGBYTE[j]);
      }
      j := j + 1;
    }
  }

  /** The round whose subkey goes to place i. */
  function RoundAt(edf: int, i: nat): nat
    requires i < 16
  {
    if edf == DE1 then 15 - i else i
  }

  /** Where round i's raw words have been put, for the rounds before n. */
  ghost predicate Placed(key: seq<Byte>, edf: int, kn: seq<Word>, n: nat)
    requires |key| == 8
  {
    && |kn| == 32 && n <= 16
    && (forall i | 0 <= i < n ::
          kn[2 * RoundAt(edf, i)] == RawWord(RoundBits(key, i), 0, 24) &&
          kn[2 * RoundAt(edf, i) + 1] == RawWord(RoundBits(key, i), 24, 24))
  }

  method RawKeys(key: seq<Byte>, edf: int) returns (kn: array<Word>)
    requires |key| == 8
    ensures fresh(kn) && kn.Length == 32 && Placed(key, edf, kn[..], 16)
  {
    hide Placed, Chosen;
    var pc1m := ChooseBits(key);
    var pcr := new bool[56];
    kn := new Word[32](_ => Word(0));
    var i := 0;
    NothingPlaced(key, edf, kn[..]);
    while i < 16
      invariant 0 <= i <= 16
      invariant fresh(kn) && kn.Length == 32 && pc1m[..] == Chosen(key)
      invariant Placed(key, edf, kn[..], i)
    {
      PlaceRound(key, edf, i, pc1m, pcr, kn);
      i := i + 1;
    }
  }

  method PlaceRound(ghost key: seq<Byte>, edf: int, i: nat, pc1m: array<bool>, pcr: array<bool>, kn: array<Word>)
    requires |key| == 8 && i < 16 && pc1m.Length == 56 && pcr.Length == 56 && pc1m != pcr && kn.Length == 32
    requires pc1m[..] == Chosen(key) && Placed(key, edf, kn[..], i)
    modifies pcr, kn
    ensures Placed(key, edf, kn[..], i + 1)
  {
    hide RawWord, Chosen, Rotated, Shifted, Placed;
    var m := if edf == DE1 then (15 - i) * 2 else i * 2;
    var n := m + 1;
    ghost var before := kn[..];
    RotateBits(pc1m, pcr, i);
    ShiftedIsRotated(Chosen(key)[..28], i + 1);
    ShiftedIsRotated(Chosen(key)[28..], i + 1);
    assert pc1m[..28] == Chosen(key)[..28] && pc1m[28..] == Chosen(key)[28..];
    CollectBits(pcr, kn, m, n);
    PlacedNext(key, edf, before, kn[..], i);
  }

  lemma {:induction false} NothingPlaced(key: seq<Byte>, edf: int, kn: seq<Word>)
    requires |key| == 8 && |kn| == 32
    ensures Placed(key, edf, kn, 0)
  {
  }

  lemma {:induction false} PlacedNext(key: seq<Byte>, edf: int, before: seq<Word>, after: seq<Word>, i: nat)
    requires |key| == 8 && i < 16 && Placed(key, edf, before, i) && |after| == 32
    requires after[2 * RoundAt(edf, i)] == RawWord(RoundBits(key, i), 0, 24)
    requires after[2 * RoundAt(edf, i) + 1] == RawWord(RoundBits(key, i), 24, 24)
    requires forall x | 0 <= x < 32 && x != 2 * RoundAt(edf, i) && x != 2 * RoundAt(edf, i) + 1 :: after[x] == before[x]
    ensures Placed(key, edf, after, i + 1)
  {
    hide RawWord, RoundBits;
  }

  /** The raw words of each place are cooked in turn. */
  method CookKeys(kn: array<Word>) returns (cooked: array<Word>)
    requires kn.Length == 32
    ensures fresh(cooked) && cooked.Length == 32
    ensures forall i | 0 <= i < 16 :: SubKeys(cooked[..])[i] == Cook(kn[2 * i], kn[2 * i + 1])
  {
    hide Cook;
    cooked := new Word[32](_ => Word(0));
    var i := 0;
    while i < 16
      invariant 0 <= i <= 16
      invariant forall x | 0 <= x < i :: SubKey(cooked[2 * x], cooked[2 * x + 1]) == Cook(kn[2 * x], kn[2 * x + 1])
    {
      var k := Cook(kn[2 * i], kn[2 * i + 1]);
      cooked[2 * i] := k.k0;
      cooked[2 * i + 1] := k.k1;
      i := i + 1;
    }
  }

  lemma {:induction false} PlacedKeys(key: seq<Byte>, edf: int, kn: seq<Word>, keys: seq<SubKey>)
    requires |key| == 8 && Placed(key, edf, kn, 16) && |keys| == 16
    requires forall i | 0 <= i < 16 :: keys[i] == Cook(kn[2 * i], kn[2 * i + 1])
    ensures keys == if edf == DE1 then Reversed(Schedule(key)) else Schedule(key)
  {
    hide Cook, RawWord, RoundBits;
    forall i | 0 <= i < 16
      ensures keys[i] == RoundKey(key, RoundAt(edf, i))
    {
      assert RoundAt(edf, RoundAt(edf, i)) == i;
      assert kn[2 * RoundAt(edf, RoundAt(edf, i))] == RawWord(RoundBits(key, RoundAt(edf, i)), 0, 24);
    }
  }

  // ---------------------------------------------------------------------------------------------
  // The register and one block of bytes

  function BlockOf(b: seq<Byte>): Pair
    requires |b| == 8
  {
    Pair(WordAt(b, 0), WordAt(b, 4))
  }

  function BytesOf(p: Pair): (b: seq<Byte>)
    ensures |b| == 8
  {
    WordBytes(p.l) + WordBytes(p.r)
  }

  lemma {:induction false} BlockOfBytes(p: Pair)
    ensures BlockOf(BytesOf(p)) == p
  {
  }

  lemma {:induction false} BytesOfBlock(b: seq<Byte>)
    requires |b| == 8
    ensures BytesOf(BlockOf(b)) == b
  {
    hide WordAt, WordBytes;
    BytesOfWord(b, 0);
    BytesOfWord(b, 4);
    assert b == b[0..4] + b[4..8];
  }

  function DesBytes(t: Tables, keys: seq<SubKey>, b: seq<Byte>): (c: seq<Byte>)
    requires |b| == 8
    ensures |c| == 8
  {
    BytesOf(DesBlock(t, keys, BlockOf(b)))
  }

  lemma {:induction false} DesBytesInverse(t: Tables, keys: seq<SubKey>, b: seq<Byte>)
    requires |b| == 8
    ensures DesBytes(t, Reversed(keys), DesBytes(t, keys, b)) == b
  {
    hide BytesOf, BlockOf, DesBlock, Reversed;
    BlockOfBytes(DesBlock(t, keys, BlockOf(b)));
    DesInverse(t, keys, BlockOf(b));
    BytesOfBlock(b);
  }

  method Scrunch(inblock: array<Byte>) returns (work: array<Word>)
    requires inblock.Length == 8
    ensures fresh(work) && work.Length == 2 && Pair(work[0], work[1]) == BlockOf(inblock[..])
  {
    hide Pack;
    work := new Word[2](_ => Word(0));
    work[0] := Pack(inblock[0], inblock[1], inblock[2], inblock[3]);
    work[1] := Pack(inblock[4], inblock[5], inblock[6], inblock[7]);
  }

  method Unscrun(work: array<Word>, outblock: array<Byte>)
    requires work.Length == 2 && outblock.Length == 8
    modifies outblock
    ensures outblock[..] == BytesOf(old(Pair(work[0], work[1])))
  {
    hide B0, B1, B2, B3, BytesOf;
    var x, y := work[0], work[1];
    outblock[0], outblock[1], outblock[2], outblock[3] := B0(x), B1(x), B2(x), B3(x);
    outblock[4], outblock[5], outblock[6], outblock[7] := B0(y), B1(y), B2(y), B3(y);
    EightBytes(Pair(x, y), outblock[..]);
  }

  lemma {:induction false} EightBytes(p: Pair, b: seq<Byte>)
    requires |b| == 8
    ensures b == BytesOf(p) <==>
            && b[0] == B0(p.l) && b[1] == B1(p.l) && b[2] == B2(p.l) && b[3] == B3(p.l)
            && b[4] == B0(p.r) && b[5] == B1(p.r) && b[6] == B2(p.r) && b[7] == B3(p.r)
  {
    hide B0, B1, B2, B3;
  }

  class KeyRegister {
    var knl: seq<Word>

    ghost predicate Valid()
      reads this
    {
      |knl| == 32
    }

    constructor ()
      ensures Valid()
    {
      knl := seq(32, _ => Word(0));
    }

    method UseKey(from: array<Word>)
      requires from.Length == 32
      modifies this
      ensures Valid() && knl == from[..]
    {
      knl := from[..];
    }

    method DesKey(key: seq<Byte>, edf: int)
      requires |key| == 8
      modifies this
      ensures Valid()
      ensures SubKeys(knl) == if edf == DE1 then Reversed(Schedule(key)) else Schedule(key)
    {
      hide Cook, Schedule, Reversed, Placed, SubKeys;
      var kn := RawKeys(key, edf);
      var cooked := CookKeys(kn);
      PlacedKeys(key, edf, kn[..], SubKeys(cooked[..]));
      UseKey(cooked);
    }

    /** The two arrays may be the same. */
    method Des(t: Tables, inblock: array<Byte>, outblock: array<Byte>)
      requires Valid() && inblock.Length == 8 && outblock.Length == 8
      modifies outblock
      ensures outblock[..] == DesBytes(t, SubKeys(knl), old(inblock[..]))
    {
      hide DesBlock, SubKeys, BlockOf, BytesOf;
      var work := Scrunch(inblock);
      DesFunc(t, work, knl);
      Unscrun(work, outblock);
    }

    /** For every key, every block and all tables: DE1 undoes EN0, in place. */
    method EncryptThenDecrypt(t: Tables, key: seq<Byte>, block: array<Byte>)
      requires Valid() && |key| == 8 && block.Length == 8
      modifies this, block
      ensures block[..] == old(block[..])
    {
      hide Schedule, Reversed, DesBytes, SubKeys;
      ghost var was := block[..];
      DesKey(key, EN0);
      Des(t, block, block);
      DesKey(key, DE1);
      Des(t, block, block);
      DesBytesInverse(t, Schedule(key), was);
    }
  }
}
