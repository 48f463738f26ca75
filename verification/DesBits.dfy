/** The initial and final permutations of DES, done by exchanging bits between the two halves. */
module DesBits {
  import opened Words

  datatype Pair = Pair(l: Word, r: Word)

  function Shr4(x: Word): Word { Word(x.v >> 4) }
  function Shl4(x: Word): Word { Word(x.v << 4) }
  function Shr16(x: Word): Word { Word(x.v >> 16) }
  function Shl16(x: Word): Word { Word(x.v << 16) }
  function Shr2(x: Word): Word { Word(x.v >> 2) }
  function Shl2(x: Word): Word { Word(x.v << 2) }
  function Shr8(x: Word): Word { Word(x.v >> 8) }
  function Shl8(x: Word): Word { Word(x.v << 8) }

  function M4(x: Word): Word { Word(x.v & 0x0f0f0f0f) }
  function M16(x: Word): Word { Word(x.v & 0x0000ffff) }
  function M2(x: Word): Word { Word(x.v & 0x33333333) }
  function M8(x: Word): Word { Word(x.v & 0x00ff00ff) }
  function M1(x: Word): Word { Word(x.v & 0xaaaaaaaa) }

  // Each exchange moves the bits of a under the mask, shifted, into b, and those of b into a.

  function X4(a: Word, b: Word): Pair {
    var w := M4(Xor(Shr4(a), b));
    Pair(Xor(a, Shl4(w)), Xor(b, w))
  }

  function X16(a: Word, b: Word): Pair {
    var w := M16(Xor(Shr16(a), b));
    Pair(Xor(a, Shl16(w)), Xor(b, w))
  }

  function X2(a: Word, b: Word): Pair {
    var w := M2(Xor(Shr2(a), b));
    Pair(Xor(a, Shl2(w)), Xor(b, w))
  }

  function X8(a: Word, b: Word): Pair {
    var w := M8(Xor(Shr8(a), b));
    Pair(Xor(a, Shl8(w)), Xor(b, w))
  }

  function X1(a: Word, b: Word): Pair {
    var w := M1(Xor(a, b));
    Pair(Xor(a, w), Xor(b, w))
  }

  function Rol(x: Word): Word { Word((x.v << 1) | ((x.v >> 31) & 1)) }
  function Ror(x: Word): Word { Word((x.v << 31) | (x.v >> 1)) }

  lemma {:induction false} X4Twice(a: Word, b: Word)
    ensures var p := X4(a, b); X4(p.l, p.r) == Pair(a, b)
  {
    hide Xor, M4, Shr4, Shl4;
    var w := M4(Xor(Shr4(a), b));
    ShiftBack4(a, Xor(Shr4(a), b));
    XorCancel(Shr4(a), b, w);
    XorTwice(a, Shl4(w));
    XorTwice(b, w);
  }

  lemma {:induction false} ShiftBack4(a: Word, x: Word)
    ensures Shr4(Xor(a, Shl4(M4(x)))) == Xor(Shr4(a), M4(x))
  {
  }

  lemma {:induction false} X16Twice(a: Word, b: Word)
    ensures var p := X16(a, b); X16(p.l, p.r) == Pair(a, b)
  {
    hide Xor, M16, Shr16, Shl16;
    var w := M16(Xor(Shr16(a), b));
    ShiftBack16(a, Xor(Shr16(a), b));
    XorCancel(Shr16(a), b, w);
    XorTwice(a, Shl16(w));
    XorTwice(b, w);
  }

  lemma {:induction false} ShiftBack16(a: Word, x: Word)
    ensures Shr16(Xor(a, Shl16(M16(x)))) == Xor(Shr16(a), M16(x))
  {
  }

  lemma {:induction false} X2Twice(a: Word, b: Word)
    ensures var p := X2(a, b); X2(p.l, p.r) == Pair(a, b)
  {
    hide Xor, M2, Shr2, Shl2;
    var w := M2(Xor(Shr2(a), b));
    ShiftBack2(a, Xor(Shr2(a), b));
    XorCancel(Shr2(a), b, w);
    XorTwice(a, Shl2(w));
    XorTwice(b, w);
  }

  lemma {:induction false} ShiftBack2(a: Word, x: Word)
    ensures Shr2(Xor(a, Shl2(M2(x)))) == Xor(Shr2(a), M2(x))
  {
  }

  lemma {:induction false} X8Twice(a: Word, b: Word)
    ensures var p := X8(a, b); X8(p.l, p.r) == Pair(a, b)
  {
    hide Xor, M8, Shr8, Shl8;
    var w := M8(Xor(Shr8(a), b));
    ShiftBack8(a, Xor(Shr8(a), b));
    XorCancel(Shr8(a), b, w);
    XorTwice(a, Shl8(w));
    XorTwice(b, w);
  }

  lemma {:induction false} ShiftBack8(a: Word, x: Word)
    ensures Shr8(Xor(a, Shl8(M8(x)))) == Xor(Shr8(a), M8(x))
  {
  }

  /** The unshifted exchange is its own inverse from either side. */
  lemma {:induction false} X1Twice(a: Word, b: Word)
    ensures var p := X1(a, b); X1(p.l, p.r) == Pair(a, b) && X1(p.r, p.l) == Pair(b, a)
  {
    hide Xor, M1;
    var w := M1(Xor(a, b));
    XorCancel(a, b, w);
    XorCancel(b, a, w);
    XorSwap(a, b);
    XorTwice(a, w);
    XorTwice(b, w);
  }

  lemma {:induction false} XorCancel(a: Word, b: Word, w: Word)
    ensures Xor(Xor(a, w), Xor(b, w)) == Xor(a, b)
  {
    hide Xor;
    XorAssoc(a, w, Xor(b, w));
    XorSwap(w, Xor(b, w));
    XorTwice(b, w);
  }

  lemma {:induction false} XorSwap(a: Word, b: Word)
    ensures Xor(a, b) == Xor(b, a)
  {
  }

  lemma {:induction false} RolRor(x: Word)
    ensures Rol(Ror(x)) == x && Ror(Rol(x)) == x
  {
  }

  /** The initial permutation, with both halves left rotated by one bit. */
  function Initial(b: Pair): Pair {
    var p1 := X4(b.l, b.r);
    var p2 := X16(p1.l, p1.r);
    var p3 := X2(p2.r, p2.l);
    var p4 := X8(p3.l, p3.r);
    var p5 := X1(p4.r, Rol(p4.l));
    Pair(Rol(p5.l), p5.r)
  }

  /** The final permutation; the halves come out exchanged. */
  function Final(s: Pair): Pair {
    var p1 := X1(s.l, Ror(s.r));
    var p2 := X8(Ror(p1.l), p1.r);
    var p3 := X2(p2.l, p2.r);
    var p4 := X16(p3.r, p3.l);
    X4(p4.l, p4.r)
  }

  function Swap(s: Pair): Pair { Pair(s.r, s.l) }

  lemma {:induction false} InitialFinal(s: Pair)
    ensures Initial(Final(s)) == Swap(s)
  {
    hide X4, X16, X2, X8, X1, Rol, Ror;
    var p1 := X1(s.l, Ror(s.r));
    var p2 := X8(Ror(p1.l), p1.r);
    var p3 := X2(p2.l, p2.r);
    var p4 := X16(p3.r, p3.l);
    X4Twice(p4.l, p4.r);
    X16Twice(p3.r, p3.l);
    X2Twice(p2.l, p2.r);
    X8Twice(Ror(p1.l), p1.r);
    X1Twice(s.l, Ror(s.r));
    RolRor(p1.l);
    RolRor(s.r);
  }

  lemma {:induction false} FinalInitial(b: Pair)
    ensures Final(Swap(Initial(b))) == b
  {
    hide X4, X16, X2, X8, X1, Rol, Ror;
    var p1 := X4(b.l, b.r);
    var p2 := X16(p1.l, p1.r);
    var p3 := X2(p2.r, p2.l);
    var p4 := X8(p3.l, p3.r);
    var p5 := X1(p4.r, Rol(p4.l));
    X4Twice(b.l, b.r);
    X16Twice(p1.l, p1.r);
    X2Twice(p2.r, p2.l);
    X8Twice(p3.l, p3.r);
    X1Twice(p4.r, Rol(p4.l));
    RolRor(p4.l);
    RolRor(p5.l);
  }

  // ---------------------------------------------------------------------------------------------
  // The same steps where unsigned long has 64 bits

  datatype Long = Long(v: bv64)
  datatype LongPair = LongPair(l: Long, r: Long)

  function Wide(w: Word): Long { Long(w.v as bv64) }
  function Low(x: Long): Word { Word((x.v & 0xffffffff) as bv32) }
  function WidePair(p: Pair): LongPair { LongPair(Wide(p.l), Wide(p.r)) }
  function LowPair(p: LongPair): Pair { Pair(Low(p.l), Low(p.r)) }


  function LXor(a: Long, b: Long): Long { Long(a.v ^ b.v) }
  function LM4(x: Long): Long { Long(x.v & 0x0f0f0f0f) }
  function LM16(x: Long): Long { Long(x.v & 0x0000ffff) }
  function LM2(x: Long): Long { Long(x.v & 0x33333333) }
  function LM8(x: Long): Long { Long(x.v & 0x00ff00ff) }
  function LM1(x: Long): Long { Long(x.v & 0xaaaaaaaa) }
  function LShr4(x: Long): Long { Long(x.v >> 4) }
  function LShl4(x: Long): Long { Long(x.v << 4) }
  function LShr16(x: Long): Long { Long(x.v >> 16) }
  function LShl16(x: Long): Long { Long(x.v << 16) }
  function LShr2(x: Long): Long { Long(x.v >> 2) }
  function LShl2(x: Long): Long { Long(x.v << 2) }
  function LShr8(x: Long): Long { Long(x.v >> 8) }
  function LShl8(x: Long): Long { Long(x.v << 8) }

  function L4(a: Long, b: Long): LongPair {
    var w := LM4(LXor(LShr4(a), b));
    LongPair(LXor(a, LShl4(w)), LXor(b, w))
  }

  function L16(a: Long, b: Long): LongPair {
    var w := LM16(LXor(LShr16(a), b));
    LongPair(LXor(a, LShl16(w)), LXor(b, w))
  }

  function L2(a: Long, b: Long): LongPair {
    var w := LM2(LXor(LShr2(a), b));
    LongPair(LXor(a, LShl2(w)), LXor(b, w))
  }

  function L8(a: Long, b: Long): LongPair {
    var w := LM8(LXor(LShr8(a), b));
    LongPair(LXor(a, LShl8(w)), LXor(b, w))
  }

  function L1(a: Long, b: Long): LongPair {
    var w := LM1(LXor(a, b));
    LongPair(LXor(a, w), LXor(b, w))
  }

  function LRol(x: Long): Long { Long(((x.v << 1) | ((x.v >> 31) & 1)) & 0xffffffff) }
  function LRor(x: Long): Long { Long((x.v << 31) | (x.v >> 1)) }

  function LongInitial(b: LongPair): LongPair {
    var p1 := L4(b.l, b.r);
    var p2 := L16(p1.l, p1.r);
    var p3 := L2(p2.r, p2.l);
    var p4 := L8(p3.l, p3.r);
    var p5 := L1(p4.r, LRol(p4.l));
    LongPair(LRol(p5.l), p5.r)
  }

  function LongFinal(s: LongPair): LongPair {
    var p1 := L1(s.l, LRor(s.r));
    var p2 := L8(LRor(p1.l), p1.r);
    var p3 := L2(p2.l, p2.r);
    var p4 := L16(p3.r, p3.l);
    L4(p4.l, p4.r)
  }

  lemma {:induction false} LowWide(w: Word)
    ensures Low(Wide(w)) == w
  {
  }

  lemma {:induction false} WideXor(a: Word, b: Word)
    ensures LXor(Wide(a), Wide(b)) == Wide(Xor(a, b))
  {
  }

  lemma {:induction false} LowXor(a: Long, b: Long)
    ensures Low(LXor(a, b)) == Xor(Low(a), Low(b))
  {
  }

  // A mask of 32 bits cuts off the high half.

  lemma {:induction false} MaskLow4(a: Long)
    ensures LM4(a) == Wide(M4(Low(a)))
  {
  }

  lemma {:induction false} MaskXor4(b: Word, c: Word)
    ensures M4(Xor(b, c)) == Xor(M4(b), M4(c))
  {
  }

  lemma {:induction false} MaskLow16(a: Long)
    ensures LM16(a) == Wide(M16(Low(a)))
  {
  }

  lemma {:induction false} MaskXor16(b: Word, c: Word)
    ensures M16(Xor(b, c)) == Xor(M16(b), M16(c))
  {
  }

  lemma {:induction false} MaskLow2(a: Long)
    ensures LM2(a) == Wide(M2(Low(a)))
  {
  }

  lemma {:induction false} MaskXor2(b: Word, c: Word)
    ensures M2(Xor(b, c)) == Xor(M2(b), M2(c))
  {
  }

  lemma {:induction false} MaskLow8(a: Long)
    ensures LM8(a) == Wide(M8(Low(a)))
  {
  }

  lemma {:induction false} MaskXor8(b: Word, c: Word)
    ensures M8(Xor(b, c)) == Xor(M8(b), M8(c))
  {
  }

  lemma {:induction false} MaskLow1(a: Long)
    ensures LM1(a) == Wide(M1(Low(a)))
  {
  }

  lemma {:induction false} LowShr4(a: Long)
    ensures M4(Low(LShr4(a))) == M4(Shr4(Low(a)))
  {
  }

  lemma {:induction false} WideShl4(w: Word)
    ensures LShl4(Wide(M4(w))) == Wide(Shl4(M4(w)))
  {
  }

  lemma {:induction false} LowShr16(a: Long)
    ensures M16(Low(LShr16(a))) == M16(Shr16(Low(a)))
  {
  }

  lemma {:induction false} WideShl16(w: Word)
    ensures LShl16(Wide(M16(w))) == Wide(Shl16(M16(w)))
  {
  }

  lemma {:induction false} LowShr2(a: Long)
    ensures M2(Low(LShr2(a))) == M2(Shr2(Low(a)))
  {
  }

  lemma {:induction false} WideShl2(w: Word)
    ensures LShl2(Wide(M2(w))) == Wide(Shl2(M2(w)))
  {
  }

  lemma {:induction false} LowShr8(a: Long)
    ensures M8(Low(LShr8(a))) == M8(Shr8(Low(a)))
  {
  }

  lemma {:induction false} WideShl8(w: Word)
    ensures LShl8(Wide(M8(w))) == Wide(Shl8(M8(w)))
  {
  }

  lemma {:induction false} Low4(a: Long, b: Long)
    ensures LowPair(L4(a, b)) == X4(Low(a), Low(b))
    ensures b == Wide(Low(b)) ==> L4(a, b).r == Wide(X4(Low(a), Low(b)).r)
    ensures a == Wide(Low(a)) ==> L4(a, b).l == Wide(X4(Low(a), Low(b)).l)
  {
    hide Xor, M4, Wide, Low, LXor, LM4, Shr4, Shl4, LShr4, LShl4;
    var x := LXor(LShr4(a), b);
    var w := M4(Xor(Shr4(Low(a)), Low(b)));
    assert LM4(x) == Wide(w) by {
      LowXor(LShr4(a), b);
      LowShr4(a);
      MaskLow4(x);
      MaskXor4(Low(LShr4(a)), Low(b));
      MaskXor4(Shr4(Low(a)), Low(b));
    }
    WideShl4(Xor(Shr4(Low(a)), Low(b)));
    LowWide(w);
    LowWide(Shl4(w));
    LowXor(a, Wide(Shl4(w)));
    LowXor(b, Wide(w));
    WideXor(Low(a), Shl4(w));
    WideXor(Low(b), w);
  }

  lemma {:induction false} Low16(a: Long, b: Long)
    ensures LowPair(L16(a, b)) == X16(Low(a), Low(b))
    ensures b == Wide(Low(b)) ==> L16(a, b).r == Wide(X16(Low(a), Low(b)).r)
    ensures a == Wide(Low(a)) ==> L16(a, b).l == Wide(X16(Low(a), Low(b)).l)
  {
    hide Xor, M16, Wide, Low, LXor, LM16, Shr16, Shl16, LShr16, LShl16;
    var x := LXor(LShr16(a), b);
    var w := M16(Xor(Shr16(Low(a)), Low(b)));
    assert LM16(x) == Wide(w) by {
      LowXor(LShr16(a), b);
      LowShr16(a);
      MaskLow16(x);
      MaskXor16(Low(LShr16(a)), Low(b));
      MaskXor16(Shr16(Low(a)), Low(b));
    }
    WideShl16(Xor(Shr16(Low(a)), Low(b)));
    LowWide(w);
    LowWide(Shl16(w));
    LowXor(a, Wide(Shl16(w)));
    LowXor(b, Wide(w));
    WideXor(Low(a), Shl16(w));
    WideXor(Low(b), w);
  }

  lemma {:induction false} Low2(a: Long, b: Long)
    ensures LowPair(L2(a, b)) == X2(Low(a), Low(b))
    ensures b == Wide(Low(b)) ==> L2(a, b).r == Wide(X2(Low(a), Low(b)).r)
    ensures a == Wide(Low(a)) ==> L2(a, b).l == Wide(X2(Low(a), Low(b)).l)
  {
    hide Xor, M2, Wide, Low, LXor, LM2, Shr2, Shl2, LShr2, LShl2;
    var x := LXor(LShr2(a), b);
    var w := M2(Xor(Shr2(Low(a)), Low(b)));
    assert LM2(x) == Wide(w) by {
      LowXor(LShr2(a), b);
      LowShr2(a);
      MaskLow2(x);
      MaskXor2(Low(LShr2(a)), Low(b));
      MaskXor2(Shr2(Low(a)), Low(b));
    }
    WideShl2(Xor(Shr2(Low(a)), Low(b)));
    LowWide(w);
    LowWide(Shl2(w));
    LowXor(a, Wide(Shl2(w)));
    LowXor(b, Wide(w));
    WideXor(Low(a), Shl2(w));
    WideXor(Low(b), w);
  }

  lemma {:induction false} Low8(a: Long, b: Long)
    ensures LowPair(L8(a, b)) == X8(Low(a), Low(b))
    ensures b == Wide(Low(b)) ==> L8(a, b).r == Wide(X8(Low(a), Low(b)).r)
    ensures a == Wide(Low(a)) ==> L8(a, b).l == Wide(X8(Low(a), Low(b)).l)
  {
    hide Xor, M8, Wide, Low, LXor, LM8, Shr8, Shl8, LShr8, LShl8;
    var x := LXor(LShr8(a), b);
    var w := M8(Xor(Shr8(Low(a)), Low(b)));
    assert LM8(x) == Wide(w) by {
      LowXor(LShr8(a), b);
      LowShr8(a);
      MaskLow8(x);
      MaskXor8(Low(LShr8(a)), Low(b));
      MaskXor8(Shr8(Low(a)), Low(b));
    }
    WideShl8(Xor(Shr8(Low(a)), Low(b)));
    LowWide(w);
    LowWide(Shl8(w));
    LowXor(a, Wide(Shl8(w)));
    LowXor(b, Wide(w));
    WideXor(Low(a), Shl8(w));
    WideXor(Low(b), w);
  }

  lemma {:induction false} Low1(a: Long, b: Long)
    ensures LowPair(L1(a, b)) == X1(Low(a), Low(b))
    ensures b == Wide(Low(b)) ==> L1(a, b).r == Wide(X1(Low(a), Low(b)).r)
    ensures a == Wide(Low(a)) ==> L1(a, b).l == Wide(X1(Low(a), Low(b)).l)
  {
    hide Xor, M1, Wide, Low, LXor, LM1;
    var w := M1(Xor(Low(a), Low(b)));
    MaskLow1(LXor(a, b));
    LowXor(a, b);
    LowWide(w);
    LowXor(a, Wide(w));
    LowXor(b, Wide(w));
    WideXor(Low(a), w);
    WideXor(Low(b), w);
  }

  lemma {:induction false} WideRol(a: Word)
    ensures LRol(Wide(a)) == Wide(Rol(a))
  {
  }

  /** The unmasked right rotation leaves its low half right as long as its argument has no high half. */
  lemma {:induction false} LowRor(w: Word)
    ensures Low(LRor(Wide(w))) == Ror(w)
  {
  }

  lemma {:induction false} InitialWide(b: Pair)
    ensures LongInitial(WidePair(b)) == WidePair(Initial(b))
  {
    hide X4, X16, X2, X8, X1, Rol, L4, L16, L2, L8, L1, LRol, Wide, Low;
    var p1 := X4(b.l, b.r);
    var p2 := X16(p1.l, p1.r);
    var p3 := X2(p2.r, p2.l);
    var p4 := X8(p3.l, p3.r);
    var p5 := X1(p4.r, Rol(p4.l));
    LowWidePair(b.l, b.r);
    Low4(Wide(b.l), Wide(b.r));
    LowWidePair(p1.l, p1.r);
    Low16(Wide(p1.l), Wide(p1.r));
    LowWidePair(p2.l, p2.r);
    Low2(Wide(p2.r), Wide(p2.l));
    LowWidePair(p3.l, p3.r);
    Low8(Wide(p3.l), Wide(p3.r));
    WideRol(p4.l);
    LowWidePair(p4.r, Rol(p4.l));
    Low1(Wide(p4.r), Wide(Rol(p4.l)));
    WideRol(p5.l);
  }

  lemma {:induction false} LowWidePair(a: Word, b: Word)
    ensures Low(Wide(a)) == a && Low(Wide(b)) == b
  {
  }

  lemma {:induction false} FinalLow(s: Pair)
    ensures LowPair(LongFinal(WidePair(s))) == Final(s)
  {
    hide X4, X16, X2, X8, X1, Ror, L4, L16, L2, L8, L1, LRor, Wide, Low;
    var p1 := L1(Wide(s.l), LRor(Wide(s.r)));
    LowWide(s.l);
    LowRor(s.r);
    Low1(Wide(s.l), LRor(Wide(s.r)));
    LowRor(X1(s.l, Ror(s.r)).l);
    var p2 := L8(LRor(p1.l), p1.r);
    Low8(LRor(p1.l), p1.r);
    var p3 := L2(p2.l, p2.r);
    Low2(p2.l, p2.r);
    var p4 := L16(p3.r, p3.l);
    Low16(p3.r, p3.l);
    Low4(p4.l, p4.r);
  }
}
