/** The sixteen rounds of DES for arbitrary combined S and P tables, and what undoes them. */
module DesRounds {
  import opened Words
  import opened DesBits

  /** SP1 to SP8, indexed by six bits. */
  datatype Tables = Tables(sp1: Word -> Word, sp2: Word -> Word, sp3: Word -> Word, sp4: Word -> Word,
                           sp5: Word -> Word, sp6: Word -> Word, sp7: Word -> Word, sp8: Word -> Word)

  /** A cooked subkey: the six-bit groups for the odd and for the even tables. */
  datatype SubKey = SubKey(k0: Word, k1: Word)

  function Or(a: Word, b: Word): Word { Word(a.v | b.v) }
  function Turn(x: Word): Word { Word((x.v << 28) | (x.v >> 4)) }
  function Six0(w: Word): Word { Word(w.v & 0x3f) }
  function Six8(w: Word): Word { Word((w.v >> 8) & 0x3f) }
  function Six16(w: Word): Word { Word((w.v >> 16) & 0x3f) }
  function Six24(w: Word): Word { Word((w.v >> 24) & 0x3f) }

  /** The cipher function of one half and a subkey. */
  function F(t: Tables, x: Word, k: SubKey): Word {
    var v, w := Xor(Turn(x), k.k0), Xor(x, k.k1);
    var odd := Or(Or(Or(t.sp7(Six0(v)), t.sp5(Six8(v))), t.sp3(Six16(v))), t.sp1(Six24(v)));
    Or(Or(Or(Or(odd, t.sp8(Six0(w))), t.sp6(Six8(w))), t.sp4(Six16(w))), t.sp2(Six24(w)))
  }

  /** One round of FIPS 46-3: the halves change sides. */
  function Round(t: Tables, s: Pair, k: SubKey): Pair {
    Pair(s.r, Xor(s.l, F(t, s.r, k)))
  }

  function Rounds(t: Tables, keys: seq<SubKey>, s: Pair): Pair {
    if keys == [] then s else Round(t, Rounds(t, keys[..|keys| - 1], s), keys[|keys| - 1])
  }

  function DesBlock(t: Tables, keys: seq<SubKey>, b: Pair): Pair {
    Final(Rounds(t, keys, Initial(b)))
  }

  function Reversed(keys: seq<SubKey>): (r: seq<SubKey>)
    ensures |r| == |keys| && forall i | 0 <= i < |keys| :: r[i] == keys[|keys| - 1 - i]
  {
    seq(|keys|, i requires 0 <= i < |keys| => keys[|keys| - 1 - i])
  }

  lemma {:induction false} RoundsCons(t: Tables, k: SubKey, keys: seq<SubKey>, s: Pair)
    ensures Rounds(t, [k] + keys, s) == Rounds(t, keys, Round(t, s, k))
    decreases |keys|
  {
    hide Round;
    var all := [k] + keys;
    if keys == [] {
      assert all[..0] == [];
    } else {
      assert all[..|all| - 1] == [k] + keys[..|keys| - 1];
      RoundsCons(t, k, keys[..|keys| - 1], s);
    }
  }

  /** A round on exchanged halves with the same subkey goes back. */
  lemma {:induction false} RoundBack(t: Tables, s: Pair, k: SubKey)
    ensures Round(t, Swap(Round(t, s, k)), k) == Swap(s)
  {
    hide Xor, F;
    XorTwice(s.l, F(t, s.r, k));
  }

  lemma {:induction false} RoundsBack(t: Tables, keys: seq<SubKey>, s: Pair)
    ensures Rounds(t, Reversed(keys), Swap(Rounds(t, keys, s))) == Swap(s)
    decreases |keys|
  {
    hide Round, Swap;
    if keys != [] {
      var n := |keys| - 1;
      var k, pre := keys[n], keys[..n];
      assert Reversed(keys) == [k] + Reversed(pre);
      RoundsCons(t, k, Reversed(pre), Swap(Rounds(t, keys, s)));
      RoundBack(t, Rounds(t, pre, s), k);
      RoundsBack(t, pre, s);
    }
  }

  /** For every block, every table and any number of subkeys, the reversed subkeys undo the cipher. */
  lemma {:induction false} DesInverse(t: Tables, keys: seq<SubKey>, b: Pair)
    ensures DesBlock(t, Reversed(keys), DesBlock(t, keys, b)) == b
  {
    hide Initial, Final, Rounds, Swap;
    var s := Initial(b);
    InitialFinal(Rounds(t, keys, s));
    RoundsBack(t, keys, s);
    FinalInitial(b);
  }

  // ---------------------------------------------------------------------------------------------
  // The rounds as the program runs them: two per turn, the halves staying where they are

  /** The cooked key register as subkeys. */
  function SubKeys(kn: seq<Word>): (keys: seq<SubKey>)
    requires |kn| == 32
    ensures |keys| == 16
  {
    seq(16, i requires 0 <= i < 16 => SubKey(kn[2 * i], kn[2 * i + 1]))
  }

  lemma {:induction false} TwoRounds(t: Tables, keys: seq<SubKey>, s: Pair, n: nat, l: Word, r: Word)
    requires n + 2 <= |keys| && Pair(l, r) == Rounds(t, keys[..n], s)
    ensures var l2 := Xor(l, F(t, r, keys[n]));
            var r2 := Xor(r, F(t, l2, keys[n + 1]));
            Pair(l2, r2) == Rounds(t, keys[..n + 2], s)
  {
    hide Xor, F;
    assert keys[..n + 1][..n] == keys[..n];
    assert keys[..n + 2][..n + 1] == keys[..n + 1];
    assert Rounds(t, keys[..n + 1], s) == Round(t, Rounds(t, keys[..n], s), keys[n]);
  }

  method DesFunc(t: Tables, block: array<Word>, kn: seq<Word>)
    requires block.Length == 2 && |kn| == 32
    modifies block
    ensures Pair(block[0], block[1]) == DesBlock(t, SubKeys(kn), old(Pair(block[0], block[1])))
  {
    hide Initial, Final, Rounds, F, Xor;
    ghost var b := Pair(block[0], block[1]);
    ghost var keys := SubKeys(kn);
    var start := Initial(Pair(block[0], block[1]));
    var left, right := start.l, start.r;
    NoRounds(t, keys, start);
    var round := 0;
    while round < 8
      invariant 0 <= round <= 8
      invariant Pair(left, right) == Rounds(t, keys[..2 * round], start)
    {
      TwoRounds(t, keys, start, 2 * round, left, right);
      left := Xor(left, F(t, right, SubKey(kn[4 * round], kn[4 * round + 1])));
      right := Xor(right, F(t, left, SubKey(kn[4 * round + 2], kn[4 * round + 3])));
      round := round + 1;
    }
    assert keys[..16] == keys;
    var end := Final(Pair(left, right));
    block[0], block[1] := end.l, end.r;
  }

  lemma {:induction false} NoRounds(t: Tables, keys: seq<SubKey>, s: Pair)
    ensures Rounds(t, keys[..0], s) == s
  {
  }

  // ---------------------------------------------------------------------------------------------
  // The same where unsigned long has 64 bits

  function LOr(a: Long, b: Long): Long { Long(a.v | b.v) }
  function LTurn(x: Long): Long { Long((x.v << 28) | (x.v >> 4)) }
  function LSix0(w: Long): Long { Long(w.v & 0x3f) }
  function LSix8(w: Long): Long { Long((w.v >> 8) & 0x3f) }
  function LSix16(w: Long): Long { Long((w.v >> 16) & 0x3f) }
  function LSix24(w: Long): Long { Long((w.v >> 24) & 0x3f) }

  /** An entry of a table of longs, whose values are those of the words. */
  function Entry(sp: Word -> Word, i: Long): Long { Wide(sp(Low(i))) }

  function LongF(t: Tables, x: Long, k0: Long, k1: Long): Long {
    var v, w := LXor(LTurn(x), k0), LXor(x, k1);
    var odd := LOr(LOr(LOr(Entry(t.sp7, LSix0(v)), Entry(t.sp5, LSix8(v))), Entry(t.sp3, LSix16(v))), Entry(t.sp1, LSix24(v)));
    LOr(LOr(LOr(LOr(odd, Entry(t.sp8, LSix0(w))), Entry(t.sp6, LSix8(w))), Entry(t.sp4, LSix16(w))), Entry(t.sp2, LSix24(w)))
  }

  lemma {:induction false} WideOr(a: Word, b: Word)
    ensures LOr(Wide(a), Wide(b)) == Wide(Or(a, b))
  {
  }

  /** The bits a rotation would bring round reach the places the tables look at. */
  lemma {:induction false} LowTurn(x: Word)
    ensures Low(LTurn(Wide(x))) == Turn(x)
  {
  }

  lemma {:induction false} LowSixes(w: Long)
    ensures Low(LSix0(w)) == Six0(Low(w)) && Low(LSix8(w)) == Six8(Low(w))
    ensures Low(LSix16(w)) == Six16(Low(w)) && Low(LSix24(w)) == Six24(Low(w))
  {
  }

  lemma {:induction false} WideOrs(a: Word, b: Word, c: Word, d: Word)
    ensures LOr(LOr(LOr(Wide(a), Wide(b)), Wide(c)), Wide(d)) == Wide(Or(Or(Or(a, b), c), d))
  {
  }

  /** Only the low halves of the keys matter. */
  lemma {:induction false} LongFIs(t: Tables, x: Word, k0: Long, k1: Long)
    ensures LongF(t, Wide(x), k0, k1) == Wide(F(t, x, SubKey(Low(k0), Low(k1))))
  {
    hide Xor, Or, Turn, Six0, Six8, Six16, Six24, LXor, LOr, LTurn, LSix0, LSix8, LSix16, LSix24, Wide, Low;
    LowTurn(x);
    LowXor(LTurn(Wide(x)), k0);
    LowXor(Wide(x), k1);
    LowWide(x);
    LowSixes(LXor(LTurn(Wide(x)), k0));
    LowSixes(LXor(Wide(x), k1));
    var a, b := Xor(Turn(x), Low(k0)), Xor(x, Low(k1));
    var odd := Or(Or(Or(t.sp7(Six0(a)), t.sp5(Six8(a))), t.sp3(Six16(a))), t.sp1(Six24(a)));
    WideOrs(t.sp7(Six0(a)), t.sp5(Six8(a)), t.sp3(Six16(a)), t.sp1(Six24(a)));
    WideOr(odd, t.sp8(Six0(b)));
    WideOrs(Or(odd, t.sp8(Six0(b))), t.sp6(Six8(b)), t.sp4(Six16(b)), t.sp2(Six24(b)));
  }

  function Lows(longs: seq<Long>): (kn: seq<Word>)
    ensures |kn| == |longs|
  {
    seq(|longs|, i requires 0 <= i < |longs| => Low(longs[i]))
  }

  method DesFuncLong(t: Tables, block: array<Long>, keys: seq<Long>, ghost b: Pair)
    requires block.Length == 2 && |keys| == 32
    requires LongPair(block[0], block[1]) == WidePair(b)
    modifies block
    ensures LowPair(LongPair(block[0], block[1])) == DesBlock(t, SubKeys(Lows(keys)), b)
  {
    hide Initial, Final, LongInitial, LongFinal, Rounds, F, LongF, Xor, LXor, Wide, Low;
    ghost var subkeys := SubKeys(Lows(keys));
    ghost var start := Initial(b);
    var s := LongInitial(LongPair(block[0], block[1]));
    InitialWide(b);
    var left, right := s.l, s.r;
    ghost var l, r := start.l, start.r;
    NoRounds(t, subkeys, start);
    var round := 0;
    while round < 8
      invariant 0 <= round <= 8
      invariant left == Wide(l) && right == Wide(r)
      invariant Pair(l, r) == Rounds(t, subkeys[..2 * round], start)
    {
      TwoRounds(t, subkeys, start, 2 * round, l, r);
      left, right := TwoRoundsLong(t, left, right, keys, 4 * round, l, r);
      l := Xor(l, F(t, r, subkeys[2 * round]));
      r := Xor(r, F(t, l, subkeys[2 * round + 1]));
      round := round + 1;
    }
    assert subkeys[..16] == subkeys;
    FinalLow(Pair(l, r));
    var end := LongFinal(LongPair(left, right));
    block[0], block[1] := end.l, end.r;
  }

  method TwoRoundsLong(t: Tables, left: Long, right: Long, keys: seq<Long>, i: nat, ghost l: Word, ghost r: Word)
    returns (left2: Long, right2: Long)
    requires i + 4 <= |keys| && left == Wide(l) && right == Wide(r)
    ensures var l2 := Xor(l, F(t, r, SubKey(Low(keys[i]), Low(keys[i + 1]))));
            && left2 == Wide(l2)
            && right2 == Wide(Xor(r, F(t, l2, SubKey(Low(keys[i + 2]), Low(keys[i + 3])))))
  {
    hide F, LongF, Xor, LXor, Wide, Low;
    ghost var f := F(t, r, SubKey(Low(keys[i]), Low(keys[i + 1])));
    LongFIs(t, r, keys[i], keys[i + 1]);
    WideXor(l, f);
    left2 := LXor(left, LongF(t, right, keys[i], keys[i + 1]));
    LongFIs(t, Xor(l, f), keys[i + 2], keys[i + 3]);
    WideXor(r, F(t, Xor(l, f), SubKey(Low(keys[i + 2]), Low(keys[i + 3]))));
    right2 := LXor(right, LongF(t, left2, keys[i + 2], keys[i + 3]));
  }
}
