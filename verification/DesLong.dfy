/** The key register and des where unsigned long has 64 bits: the same schedule and the same bytes. */
module DesLongs {
  import opened Words
  import opened DesBits
  import opened DesRounds
  import opened DesKeys

  // ---------------------------------------------------------------------------------------------
  // Bytes and longs

  function LPack(a: Byte, b: Byte, c: Byte, d: Byte): Long {
    Long((((a.v as bv64) & 0xff) << 24) | (((b.v as bv64) & 0xff) << 16) | (((c.v as bv64) & 0xff) << 8) | ((d.v as bv64) & 0xff))
  }

  function LB0(x: Long): Byte { Byte(((x.v >> 24) & 0xff) as bv8) }
  function LB1(x: Long): Byte { Byte(((x.v >> 16) & 0xff) as bv8) }
  function LB2(x: Long): Byte { Byte(((x.v >> 8) & 0xff) as bv8) }
  function LB3(x: Long): Byte { Byte((x.v & 0xff) as bv8) }

  lemma {:induction false} WidePack(a: Byte, b: Byte, c: Byte, d: Byte)
    ensures LPack(a, b, c, d) == Wide(Pack(a, b, c, d))
  {
  }

  lemma {:induction false} LowBytes(x: Long)
    ensures LB0(x) == B0(Low(x)) && LB1(x) == B1(Low(x)) && LB2(x) == B2(Low(x)) && LB3(x) == B3(Low(x))
  {
  }

  // Cooking, where unsigned long has 64 bits

  function LUp6(x: Long): Long { Long((x.v & 0x00fc0000) << 6) }
  function LUp10(x: Long): Long { Long((x.v & 0x00000fc0) << 10) }
  function LDown10(x: Long): Long { Long((x.v & 0x00fc0000) >> 10) }
  function LDown6(x: Long): Long { Long((x.v & 0x00000fc0) >> 6) }
  function LUp12(x: Long): Long { Long((x.v & 0x0003f000) << 12) }
  function LUp16(x: Long): Long { Long((x.v & 0x0000003f) << 16) }
  function LDown4(x: Long): Long { Long((x.v & 0x0003f000) >> 4) }
  function LLowest(x: Long): Long { Long(x.v & 0x0000003f) }

  lemma {:induction false} WideUp6(x: Word)
    ensures LUp6(Wide(x)) == Wide(Up6(x))
  {
  }

  lemma {:induction false} WideUp10(x: Word)
    ensures LUp10(Wide(x)) == Wide(Up10(x))
  {
  }

  lemma {:induction false} WideDown10(x: Word)
    ensures LDown10(Wide(x)) == Wide(Down10(x))
  {
  }

  lemma {:induction false} WideDown6(x: Word)
    ensures LDown6(Wide(x)) == Wide(Down6(x))
  {
  }

  lemma {:induction false} WideUp12(x: Word)
    ensures LUp12(Wide(x)) == Wide(Up12(x))
  {
  }

  lemma {:induction false} WideUp16(x: Word)
    ensures LUp16(Wide(x)) == Wide(Up16(x))
  {
  }

  lemma {:induction false} WideDown4(x: Word)
    ensures LDown4(Wide(x)) == Wide(Down4(x))
  {
  }

  lemma {:induction false} WideLowest(x: Word)
    ensures LLowest(Wide(x)) == Wide(Lowest(x))
  {
  }

  function LongK0(a: Long, b: Long): Long { LOr(LOr(LOr(LUp6(a), LUp10(a)), LDown10(b)), LDown6(b)) }
  function LongK1(a: Long, b: Long): Long { LOr(LOr(LOr(LUp12(a), LUp16(a)), LDown4(b)), LLowest(b)) }

  /** The two longs cooked from widened raw words are the widened cooked words. */
  lemma {:induction false} WideCook(a: Word, b: Word)
    ensures LongK0(Wide(a), Wide(b)) == Wide(Cook(a, b).k0)
    ensures LongK1(Wide(a), Wide(b)) == Wide(Cook(a, b).k1)
  {
    hide Wide, Or, LOr, Up6, Up10, Down10, Down6, Up12, Up16, Down4, Lowest;
    hide LUp6, LUp10, LDown10, LDown6, LUp12, LUp16, LDown4, LLowest;
    WideUp6(a);
    WideUp10(a);
    WideDown10(b);
    WideDown6(b);
    WideOrs(Up6(a), Up10(a), Down10(b), Down6(b));
    WideUp12(a);
    WideUp16(a);
    WideDown4(b);
    WideLowest(b);
    WideOrs(Up12(a), Up16(a), Down4(b), Lowest(b));
  }

  // ---------------------------------------------------------------------------------------------
  // Collecting and cooking, on longs

  /** The longs are the words, with nothing in their high halves. */
  ghost predicate AllWide(kn: seq<Word>, longs: seq<Long>) {
    |longs| == |kn| && forall i | 0 <= i < |kn| :: longs[i] == Wide(kn[i])
  }

  /** A raw word collected in a long. */
  function LongRaw(bits: seq<bool>, offset: nat, n: nat): Long
    requires |bits| == 56 && n <= 24 && offset <= 24
  {
    if n == 0 then Long(0)
    else if bits[Pc2(n - 1 + offset)] then LOr(LongRaw(bits, offset, n - 1), Wide(BIGBYTE[n - 1]))
    else LongRaw(bits, offset, n - 1)
  }

  lemma {:induction false} WideZero()
    ensures Wide(Word(0)) == Long(0)
  {
  }

  lemma {:induction false} LongRawIs(bits: seq<bool>, offset: nat, n: nat)
    requires |bits| == 56 && n <= 24 && offset <= 24
    ensures LongRaw(bits, offset, n) == Wide(RawWord(bits, offset, n))
  {
    hide Wide, Or, LOr, Pc2;
    if n == 0 {
      WideZero();
    } else {
      LongRawIs(bits, offset, n - 1);
      WideOr(RawWord(bits, offset, n - 1), BIGBYTE[n - 1]);
    }
  }

  method CollectLong(pcr: array<bool>, kn: array<Long>, m: nat, n: nat)
    requires pcr.Length == 56 && m < kn.Length && n < kn.Length && m != n
    modifies kn
    ensures kn[m] == LongRaw(pcr[..], 0, 24) && kn[n] == LongRaw(pcr[..], 24, 24)
    ensures forall x | 0 <= x < kn.Length && x != m && x != n :: kn[x] == old(kn[x])
  {
    hide LOr, Wide, Pc2;
    kn[m], kn[n] := Long(0), Long(0);
    var j := 0;
    while j < 24
      invariant 0 <= j <= 24
      invariant kn[m] == LongRaw(pcr[..], 0, j) && kn[n] == LongRaw(pcr[..], 24, j)
      invariant forall x | 0 <= x < kn.Length && x != m && x != n :: kn[x] == old(kn[x])
    {
      if pcr[Pc2(j)] {
        kn[m] := LOr(kn[m], Wide(BIGBYTE[j]));
      }
      if pcr[Pc2(j + 24)] {
        kn[n] := LOr(kn[n], Wide(BIGBYTE[j]));
      }
      j := j + 1;
    }
  }

  /** Where round i's raw longs have been put, for the rounds before n. */
  ghost predicate LongsPlaced(key: seq<Byte>, edf: int, kn: seq<Long>, n: nat)
    requires |key| == 8
  {
    && |kn| == 32 && n <= 16
    && (forall i | 0 <= i < n ::
          kn[2 * RoundAt(edf, i)] == LongRaw(RoundBits(key, i), 0, 24) &&
          kn[2 * RoundAt(edf, i) + 1] == LongRaw(RoundBits(key, i), 24, 24))
  }

  lemma {:induction false} LongsPlacedNext(key: seq<Byte>, edf: int, before: seq<Long>, after: seq<Long>, i: nat)
    requires |key| == 8 && i < 16 && LongsPlaced(key, edf, before, i) && |after| == 32
    requires after[2 * RoundAt(edf, i)] == LongRaw(RoundBits(key, i), 0, 24)
    requires after[2 * RoundAt(edf, i) + 1] == LongRaw(RoundBits(key, i), 24, 24)
    requires forall x | 0 <= x < 32 && x != 2 * RoundAt(edf, i) && x != 2 * RoundAt(edf, i) + 1 :: after[x] == before[x]
    ensures LongsPlaced(key, edf, after, i + 1)
  {
    hide LongRaw, RoundBits;
  }

  method PlaceLong(ghost key: seq<Byte>, edf: int, i: nat, pc1m: array<bool>, pcr: array<bool>, kn: array<Long>)
    requires |key| == 8 && i < 16 && pc1m.Length == 56 && pcr.Length == 56 && pc1m != pcr && kn.Length == 32
    requires pc1m[..] == Chosen(key) && LongsPlaced(key, edf, kn[..], i)
    modifies pcr, kn
    ensures LongsPlaced(key, edf, kn[..], i + 1)
  {
    hide LongRaw, Chosen, Rotated, Shifted, LongsPlaced;
    var m := if edf == DE1 then (15 - i) * 2 else i * 2;
    var n := m + 1;
    ghost var before := kn[..];
    RotateBits(pc1m, pcr, i);
    ShiftedIsRotated(Chosen(key)[..28], i + 1);
    ShiftedIsRotated(Chosen(key)[28..], i + 1);
    assert pc1m[..28] == Chosen(key)[..28] && pc1m[28..] == Chosen(key)[28..];
    CollectLong(pcr, kn, m, n);
    LongsPlacedNext(key, edf, before, kn[..], i);
  }

  lemma {:induction false} NoLongsPlaced(key: seq<Byte>, edf: int, kn: seq<Long>)
    requires |key| == 8 && |kn| == 32
    ensures LongsPlaced(key, edf, kn, 0)
  {
  }

  method RawLongs(key: seq<Byte>, edf: int) returns (kn: array<Long>)
    requires |key| == 8
    ensures fresh(kn) && kn.Length == 32 && LongsPlaced(key, edf, kn[..], 16)
  {
    hide LongsPlaced, Chosen;
    var pc1m := ChooseBits(key);
    var pcr := new bool[56];
    kn := new Long[32](_ => Long(0));
    var i := 0;
    NoLongsPlaced(key, edf, kn[..]);
    while i < 16
      invariant 0 <= i <= 16
      invariant fresh(kn) && kn.Length == 32 && pc1m[..] == Chosen(key)
      invariant LongsPlaced(key, edf, kn[..], i)
    {
      PlaceLong(key, edf, i, pc1m, pcr, kn);
      i := i + 1;
    }
  }

  /** All thirty-two longs were collected, so all are words. */
  lemma {:induction false} PlacedWide(key: seq<Byte>, edf: int, kn: seq<Long>)
    requires |key| == 8 && LongsPlaced(key, edf, kn, 16)
    ensures AllWide(Lows(kn), kn) && Placed(key, edf, Lows(kn), 16)
  {
    hide LongRaw, RawWord, RoundBits, Wide, Low;
    forall i | 0 <= i < 16
      ensures kn[2 * RoundAt(edf, i)] == Wide(RawWord(RoundBits(key, i), 0, 24))
      ensures kn[2 * RoundAt(edf, i) + 1] == Wide(RawWord(RoundBits(key, i), 24, 24))
      ensures Low(kn[2 * RoundAt(edf, i)]) == RawWord(RoundBits(key, i), 0, 24)
      ensures Low(kn[2 * RoundAt(edf, i) + 1]) == RawWord(RoundBits(key, i), 24, 24)
    {
      LongRawIs(RoundBits(key, i), 0, 24);
      LongRawIs(RoundBits(key, i), 24, 24);
      LowWide(RawWord(RoundBits(key, i), 0, 24));
      LowWide(RawWord(RoundBits(key, i), 24, 24));
    }
    forall x | 0 <= x < 32
      ensures kn[x] == Wide(Low(kn[x]))
    {
      var i := RoundAt(edf, x / 2);
      assert RoundAt(edf, i) == x / 2;
      assert x == 2 * RoundAt(edf, i) || x == 2 * RoundAt(edf, i) + 1;
    }
  }

  ghost predicate LongsCooked(words: seq<Word>, longs: seq<Long>)
    requires |words| == 32
  {
    && |longs| == 32
    && (forall i | 0 <= i < 16 ::
          longs[2 * i] == Wide(Cook(words[2 * i], words[2 * i + 1]).k0) &&
          longs[2 * i + 1] == Wide(Cook(words[2 * i], words[2 * i + 1]).k1))
  }

  method CookLongs(kn: array<Long>, ghost words: seq<Word>) returns (cooked: array<Long>)
    requires kn.Length == 32 && AllWide(words, kn[..])
    ensures fresh(cooked) && cooked.Length == 32 && LongsCooked(words, cooked[..])
  {
    hide Cook, Wide, LongK0, LongK1;
    cooked := new Long[32](_ => Long(0));
    var i := 0;
    while i < 16
      invariant 0 <= i <= 16
      invariant forall x | 0 <= x < i ::
          cooked[2 * x] == Wide(Cook(words[2 * x], words[2 * x + 1]).k0) &&
          cooked[2 * x + 1] == Wide(Cook(words[2 * x], words[2 * x + 1]).k1)
    {
      var raw0, raw1 := kn[2 * i], kn[2 * i + 1];
      WideCook(words[2 * i], words[2 * i + 1]);
      cooked[2 * i] := LongK0(raw0, raw1);
      cooked[2 * i + 1] := LongK1(raw0, raw1);
      i := i + 1;
    }
  }

  lemma {:induction false} CookedWide(words: seq<Word>, longs: seq<Long>)
    requires |words| == 32 && LongsCooked(words, longs)
    ensures AllWide(Lows(longs), longs)
    ensures forall i | 0 <= i < 16 :: SubKeys(Lows(longs))[i] == Cook(words[2 * i], words[2 * i + 1])
  {
    hide Cook, Wide, Low;
    forall i | 0 <= i < 16
      ensures Low(longs[2 * i]) == Cook(words[2 * i], words[2 * i + 1]).k0
      ensures Low(longs[2 * i + 1]) == Cook(words[2 * i], words[2 * i + 1]).k1
    {
      LowWide(Cook(words[2 * i], words[2 * i + 1]).k0);
      LowWide(Cook(words[2 * i], words[2 * i + 1]).k1);
    }
    forall x | 0 <= x < 32
      ensures longs[x] == Wide(Low(longs[x]))
    {
      var i := x / 2;
      assert x == 2 * i || x == 2 * i + 1;
      assert Low(longs[2 * i]) == Cook(words[2 * i], words[2 * i + 1]).k0;
    }
  }

  // ---------------------------------------------------------------------------------------------
  // The register of longs

  method ScrunchLong(inblock: array<Byte>) returns (work: array<Long>)
    requires inblock.Length == 8
    ensures fresh(work) && work.Length == 2
    ensures LongPair(work[0], work[1]) == WidePair(BlockOf(inblock[..]))
  {
    hide Pack, Wide, LPack;
    work := new Long[2](_ => Long(0));
    WidePack(inblock[0], inblock[1], inblock[2], inblock[3]);
    WidePack(inblock[4], inblock[5], inblock[6], inblock[7]);
    work[0] := LPack(inblock[0], inblock[1], inblock[2], inblock[3]);
    work[1] := LPack(inblock[4], inblock[5], inblock[6], inblock[7]);
  }

  /** Takes the low halves, whatever the high halves hold. */
  method UnscrunLong(work: array<Long>, outblock: array<Byte>)
    requires work.Length == 2 && outblock.Length == 8
    modifies outblock
    ensures outblock[..] == BytesOf(old(LowPair(LongPair(work[0], work[1]))))
  {
    hide B0, B1, B2, B3, Low, LB0, LB1, LB2, LB3, BytesOf;
    var x, y := work[0], work[1];
    LowBytes(x);
    LowBytes(y);
    outblock[0], outblock[1], outblock[2], outblock[3] := LB0(x), LB1(x), LB2(x), LB3(x);
    outblock[4], outblock[5], outblock[6], outblock[7] := LB0(y), LB1(y), LB2(y), LB3(y);
    EightBytes(Pair(Low(x), Low(y)), outblock[..]);
  }

  class LongRegister {
    var knl: seq<Long>

    ghost predicate Valid()
      reads this
    {
      |knl| == 32
    }

    constructor ()
      ensures Valid()
    {
      knl := seq(32, _ => Long(0));
    }

    /** Copies any thirty-two longs. */
    method UseKey(from: array<Long>)
      requires from.Length == 32
      modifies this
      ensures Valid() && knl == from[..]
    {
      knl := from[..];
    }

    /** For every key and edf: the longs are the words of the 32-bit register. */
    method DesKey(key: seq<Byte>, edf: int)
      requires |key| == 8
      modifies this
      ensures Valid() && AllWide(Lows(knl), knl)
      ensures SubKeys(Lows(knl)) == if edf == DE1 then Reversed(Schedule(key)) else Schedule(key)
    {
      hide Cook, Schedule, Reversed, Placed, LongsPlaced, LongsCooked, SubKeys, AllWide, Lows;
      var kn := RawLongs(key, edf);
      ghost var words := Lows(kn[..]);
      PlacedWide(key, edf, kn[..]);
      var cooked := CookLongs(kn, words);
      CookedWide(words, cooked[..]);
      PlacedKeys(key, edf, words, SubKeys(Lows(cooked[..])));
      UseKey(cooked);
    }

    /** For every register, also one filled by UseKey. The two arrays may be the same. */
    method Des(t: Tables, inblock: array<Byte>, outblock: array<Byte>)
      requires Valid() && inblock.Length == 8 && outblock.Length == 8
      modifies outblock
      ensures outblock[..] == DesBytes(t, SubKeys(Lows(knl)), old(inblock[..]))
    {
      hide DesBlock, SubKeys, BlockOf, BytesOf, WidePair, LowPair, Lows;
      var work := ScrunchLong(inblock);
      DesFuncLong(t, work, knl, BlockOf(inblock[..]));
      UnscrunLong(work, outblock);
    }

    /** For every key, every block and all tables: DE1 undoes EN0, in place. */
    method EncryptThenDecrypt(t: Tables, key: seq<Byte>, block: array<Byte>)
      requires Valid() && |key| == 8 && block.Length == 8
      modifies this, block
      ensures block[..] == old(block[..])
    {
      hide Schedule, Reversed, DesBytes, SubKeys, Lows, AllWide;
      ghost var was := block[..];
      DesKey(key, EN0);
      Des(t, block, block);
      DesKey(key, DE1);
      Des(t, block, block);
      DesBytesInverse(t, Schedule(key), was);
    }
  }
}
