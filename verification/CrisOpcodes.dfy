/** The CRIS opcode table and the uncached search for the entry that matches an instruction best. */
module CrisOpcodes {
  import opened Options

  datatype Insn = Insn(v: bv16)

  datatype Version = VersionAll | Warning | V0_3 | V3p | V8 | V8p | SimV0_10 | V0_10 | V3_10 | V8_10 | V10 | V10p | V32p
  datatype Family = V0ToV10 | CommonV10V32 | V32

  datatype Opcode = Opcode(match_: Insn, lose: Insn, args: string, version: Version)
  datatype SpecReg = SpecReg(number: nat, size: nat, version: Version, warned: bool)

  /** The two tables and the family that is disassembled. */
  datatype Env = Env(ops: seq<Opcode>, regs: seq<SpecReg>, family: Family)

  const NO_CRIS_PREFIX := Insn(0)
  const BDAP_QUICK_OPCODE := Insn(0x0100)
  const DIP_OPCODE := Insn(0x0970)

  // Fields of an instruction

  function High4(i: Insn): nat { (i.v >> 12) as nat }
  function Low4(i: Insn): nat { (i.v & 15) as nat }
  predicate SizeIs(i: Insn, bits: Insn) { i.v & 0x30 == bits.v }
  predicate PostIncrement(i: Insn) { i.v & 0x400 != 0 }
  predicate HasAll(bits: Insn, i: Insn) { bits.v & i.v == bits.v }
  predicate HasNone(bits: Insn, i: Insn) { bits.v & i.v == 0 }
  predicate Matches(op: Opcode, i: Insn) { HasAll(op.match_, i) && HasNone(op.lose, i) }
  function Both(op: Opcode): Insn { Insn(op.match_.v | op.lose.v) }

  /** The low byte of a prefix as a signed offset. */
  function Offset(p: Insn): (r: int)
    ensures -128 <= r <= 127
  {
    LowByte(p);
    var byte := (p.v & 255) as int;
    if byte > 127 then byte - 256 else byte
  }

  lemma {:induction false} LowByte(p: Insn)
    ensures (p.v & 255) as int <= 255
  {
  }

  // ---------------------------------------------------------------------------------------------
  // Counting bits

  predicate Zero(x: Insn) { x.v == 0 }
  predicate Odd(x: Insn) { x.v & 1 == 1 }
  function Half(x: Insn): Insn { Insn(x.v >> 1) }
  function DropLowest(x: Insn): Insn { Insn(x.v & (x.v - 1)) }

  /** The number of ones. */
  function Ones(x: Insn): nat
    decreases x.v
  {
    if Zero(x) then 0 else Halved(x); (if Odd(x) then 1 else 0) + Ones(Half(x))
  }

  lemma {:induction false} Halved(x: Insn)
    requires !Zero(x)
    ensures Half(x).v < x.v
  {
  }

  lemma {:induction false} OnesOfEven(x: Insn)
    requires !Odd(x)
    ensures Ones(x) == Ones(Half(x))
  {
  }

  lemma {:induction false} DropOdd(x: Insn)
    requires Odd(x)
    ensures !Odd(DropLowest(x)) && Half(DropLowest(x)) == Half(x)
  {
    hide Odd, Half, DropLowest, WithoutLast;
    DropLast(x);
    EvenWithoutLast(x);
    HalfWithoutLast(x);
  }

  function WithoutLast(x: Insn): Insn { Insn(x.v & (x.v ^ 1)) }

  /** The lowest one of an odd number is its last bit. */
  lemma {:induction false} DropLast(x: Insn)
    requires Odd(x)
    ensures DropLowest(x) == WithoutLast(x)
  {
    MinusOne(x);
  }

  lemma {:induction false} MinusOne(x: Insn)
    requires Odd(x)
    ensures x.v - 1 == x.v ^ 1
  {
  }

  lemma {:induction false} EvenWithoutLast(x: Insn)
    ensures !Odd(WithoutLast(x))
  {
  }

  lemma {:induction false} HalfWithoutLast(x: Insn)
    ensures Half(WithoutLast(x)) == Half(x)
  {
  }

  lemma {:induction false} DropEven(x: Insn)
    requires !Odd(x) && !Zero(x)
    ensures !Zero(Half(x)) && !Odd(DropLowest(x))
    ensures Half(DropLowest(x)) == DropLowest(Half(x))
  {
  }

  /** Clearing the lowest one takes one away. */
  lemma {:induction false} DropLowestOnes(x: Insn)
    requires !Zero(x)
    ensures Ones(DropLowest(x)) == Ones(x) - 1
    decreases x.v
  {
    hide Zero, Odd, Half, DropLowest;
    Halved(x);
    if Odd(x) {
      DropOdd(x);
      OnesOfEven(DropLowest(x));
    } else {
      DropEven(x);
      OnesOfEven(DropLowest(x));
      OnesOfEven(x);
      DropLowestOnes(Half(x));
    }
  }

  lemma {:induction false} NoOnes(x: Insn)
    requires Zero(x)
    ensures Ones(x) == 0
  {
  }

  method NumberOfBits(x: Insn) returns (bits: nat)
    ensures bits == Ones(x)
  {
    hide Zero, DropLowest, Ones;
    bits := 0;
    var val := x;
    while !Zero(val)
      invariant bits + Ones(val) == Ones(x)
      decreases Ones(val)
    {
      DropLowestOnes(val);
      val := DropLowest(val);
      bits := bits + 1;
    }
    NoOnes(val);
  }

  // ---------------------------------------------------------------------------------------------
  // Special registers

  predicate RegApplies(family: Family, r: SpecReg) {
    if family == V32 then
      r.version in {Warning, VersionAll, V3p, V8p, V10p, V32p} && !r.warned
    else r.version != V32p
  }

  predicate RegIs(env: Env, number: nat, r: SpecReg) {
    r.number == number && RegApplies(env.family, r)
  }

  /** The first register of that number the family has, looking from entry i on. */
  function SpecRegFrom(env: Env, number: nat, i: nat): Option<SpecReg>
    requires i <= |env.regs|
    decreases |env.regs| - i
  {
    if i == |env.regs| then None
    else if RegIs(env, number, env.regs[i]) then Some(env.regs[i])
    else SpecRegFrom(env, number, i + 1)
  }

  /** Entry k is a register of that number the family has, and no entry before it is. */
  predicate FirstReg(env: Env, number: nat, k: nat) {
    k < |env.regs| && RegIs(env, number, env.regs[k]) && forall j | 0 <= j < k :: !RegIs(env, number, env.regs[j])
  }

  predicate NoReg(env: Env, number: nat) {
    forall j | 0 <= j < |env.regs| :: !RegIs(env, number, env.regs[j])
  }

  /** What the recursion finds is the first entry, and it finds one if there is one. */
  lemma {:induction false} SpecRegFirst(env: Env, number: nat, i: nat)
    requires i <= |env.regs|
    ensures forall k: nat | i <= k && FirstReg(env, number, k) :: SpecRegFrom(env, number, i) == Some(env.regs[k])
    ensures NoReg(env, number) ==> SpecRegFrom(env, number, i) == None
    decreases |env.regs| - i
  {
    if i < |env.regs| {
      SpecRegFirst(env, number, i + 1);
    }
  }

  method SpecRegInfo(env: Env, number: nat) returns (k: Option<nat>)
    ensures k.Some? ==> FirstReg(env, number, k.value)
    ensures k.None? ==> NoReg(env, number)
  {
    var i := 0;
    while i < |env.regs|
      invariant 0 <= i <= |env.regs|
      invariant forall j | 0 <= j < i :: !RegIs(env, number, env.regs[j])
    {
      if env.regs[i].number == number && RegApplies(env.family, env.regs[i]) {
        return Some(i);
      }
      i := i + 1;
    }
    return None;
  }

  // ---------------------------------------------------------------------------------------------
  // Constraints

  /** reg_size == (unsigned int) -pushsize */
  predicate PushesSize(size: nat, offset: int) {
    size == if offset <= 0 then -offset else 0x1_0000_0000 - offset
  }

  /** What constraint letter i of cs makes of the value so far: -1 when there is no match.
    * m is the match field of the prefix's own opcode. */
  function ConstraintFrom(env: Env, cs: string, i: nat, insn: Insn, prefix: Insn, m: Insn, value: int, ok: bool): int
    requires i <= |cs|
    decreases |cs| - i
  {
    var prefixed := prefix != NO_CRIS_PREFIX;
    if i == |cs| then
      if prefixed && !ok then -1 else value
    else if cs[i] == '!' then
      if prefixed || env.family != V0ToV10 then -1
      else ConstraintFrom(env, cs, i + 1, insn, prefix, m, value, ok)
    else if cs[i] == 'U' then -1
    else if cs[i] == 'M' then
      if High4(insn) != 0 && High4(insn) != 4 && High4(insn) != 8 then -1
      else ConstraintFrom(env, cs, i + 1, insn, prefix, m, value, ok)
    else if cs[i] == 'm' then
      if SizeIs(insn, Insn(0x30)) then -1
      else ConstraintFrom(env, cs, i + 1, insn, prefix, m, value, ok)
    else if cs[i] == 'S' then
      if prefixed && !PostIncrement(insn) then ConstraintFrom(env, cs, i + 1, insn, prefix, m, value, true)
      else -1
    else if cs[i] == 's' || cs[i] == 'y' || cs[i] == 'Y' then
      if prefixed && PostIncrement(insn) && m == DIP_OPCODE then -1
      else ConstraintFrom(env, cs, i + 1, insn, prefix, m, value, ok || prefixed)
    else if cs[i] == 'B' then
      if prefixed && m == BDAP_QUICK_OPCODE && i + 1 < |cs| && PushOk(env, cs[i + 1], insn, Offset(prefix)) then
        ConstraintFrom(env, cs, i + 1, insn, prefix, m, value, true)
      else -1
    else if cs[i] == 'D' then
      if High4(insn) == Low4(insn) then ConstraintFrom(env, cs, i + 1, insn, prefix, m, 5, ok)
      else -1
    else if cs[i] == 'P' then
      if SpecRegFrom(env, High4(insn), 0).Some? then ConstraintFrom(env, cs, i + 1, insn, prefix, m, value + 3, ok)
      else -1
    else ConstraintFrom(env, cs, i + 1, insn, prefix, m, value, ok)
  }

  /** Whether a push of that offset goes with the operand letter. */
  predicate PushOk(env: Env, letter: char, insn: Insn, offset: int) {
    if letter == 'P' then
      var r := SpecRegFrom(env, High4(insn), 0);
      r.Some? && PushesSize(r.value.size, offset)
    else letter == 'R' && SizeIs(insn, Insn(0x20)) && offset == -4
  }

  function Constraint(env: Env, cs: string, insn: Insn, prefix: Insn, m: Insn): int {
    ConstraintFrom(env, cs, 0, insn, prefix, m, 0, false)
  }

  // ---------------------------------------------------------------------------------------------
  // The best match

  predicate Applies(family: Family, v: Version) {
    if family == V32 then v in {VersionAll, V3p, V8p, V10p, V32p} else v != V32p
  }

  /** The versions on which the search aborts. */
  predicate Aborts(family: Family, v: Version) {
    v == V8 || (family != V32 && v == V3_10)
  }

  ghost predicate NoAborts(env: Env) {
    forall i | 0 <= i < |env.ops| :: !Aborts(env.family, env.ops[i].version)
  }

  /** How well entry k matches: its constraints' confidence and twice the bits it fixes, or -1. */
  function Level(env: Env, insn: Insn, prefix: Insn, m: Insn, k: nat): int
    requires k < |env.ops|
  {
    var op := env.ops[k];
    var c := Constraint(env, op.args, insn, prefix, m);
    if Applies(env.family, op.version) && Matches(op, insn) && c >= 0 then c + 2 * Ones(Both(op)) else -1
  }

  /** The search from entry i on, with the best match so far. */
  function BestFrom(env: Env, insn: Insn, prefix: Insn, m: Insn, i: nat, best: Option<nat>, level: int): Option<nat>
    requires i <= |env.ops|
    decreases |env.ops| - i
  {
    if i == |env.ops| then best
    else
      var l := Level(env, insn, prefix, m, i);
      if l > level then (if l >= 32 then Some(i) else BestFrom(env, insn, prefix, m, i + 1, Some(i), l))
      else BestFrom(env, insn, prefix, m, i + 1, best, level)
  }

  function Best(env: Env, insn: Insn, prefix: Insn, m: Insn): Option<nat> {
    BestFrom(env, insn, prefix, m, 0, None, -1)
  }

  /** The uncached look-up: a prefix is looked up itself first, and has to be an instruction. */
  function Search(env: Env, insn: Insn, prefix: Insn): Option<nat>
    decreases prefix != NO_CRIS_PREFIX
  {
    if prefix == NO_CRIS_PREFIX then Best(env, insn, prefix, NO_CRIS_PREFIX)
    else
      var p := Search(env, prefix, NO_CRIS_PREFIX);
      if p.None? then None
      else
        BestInTable(env, prefix, NO_CRIS_PREFIX, NO_CRIS_PREFIX);
        Best(env, insn, prefix, env.ops[p.value].match_)
  }

  /** What the search finds: the first entry of at least 32, or else the first entry of the highest level. */
  ghost predicate FirstBest(env: Env, insn: Insn, prefix: Insn, m: Insn, r: Option<nat>) {
    match r
    case None => forall j: nat | j < |env.ops| :: Level(env, insn, prefix, m, j) < 0
    case Some(k) =>
      && k < |env.ops|
      && Level(env, insn, prefix, m, k) >= 0
      && (forall j: nat | j < k :: Level(env, insn, prefix, m, j) < Level(env, insn, prefix, m, k))
      && (forall j: nat | j < k :: Level(env, insn, prefix, m, j) < 32)
      && (Level(env, insn, prefix, m, k) < 32 ==>
            forall j: nat | k < j < |env.ops| :: Level(env, insn, prefix, m, j) <= Level(env, insn, prefix, m, k))
  }

  /** The best among the first i entries, none of which is a full match. */
  ghost predicate BestSoFar(env: Env, insn: Insn, prefix: Insn, m: Insn, i: nat, best: Option<nat>, level: int)
    requires i <= |env.ops|
  {
    && -1 <= level < 32
    && (best.None? ==> level == -1)
    && (best.Some? ==> best.value < i && level == Level(env, insn, prefix, m, best.value) >= 0)
    && (best.Some? ==> forall j: nat | j < best.value && j < i :: Level(env, insn, prefix, m, j) < level)
    && (forall j: nat | j < i :: Level(env, insn, prefix, m, j) <= level)
  }

  lemma {:induction false} BestFromIs(env: Env, insn: Insn, prefix: Insn, m: Insn, i: nat, best: Option<nat>, level: int)
    requires i <= |env.ops| && BestSoFar(env, insn, prefix, m, i, best, level)
    ensures FirstBest(env, insn, prefix, m, BestFrom(env, insn, prefix, m, i, best, level))
    decreases |env.ops| - i
  {
    hide Level;
    if i < |env.ops| {
      var l := Level(env, insn, prefix, m, i);
      if l > level {
        if l < 32 {
          BestFromIs(env, insn, prefix, m, i + 1, Some(i), l);
        }
      } else {
        BestFromIs(env, insn, prefix, m, i + 1, best, level);
      }
    }
  }

  lemma {:induction false} BestIs(env: Env, insn: Insn, prefix: Insn, m: Insn)
    ensures FirstBest(env, insn, prefix, m, Best(env, insn, prefix, m))
  {
    BestFromIs(env, insn, prefix, m, 0, None, -1);
  }

  lemma {:induction false} BestInTable(env: Env, insn: Insn, prefix: Insn, m: Insn)
    ensures var r := Best(env, insn, prefix, m); r.Some? ==> r.value < |env.ops|
  {
    BestIs(env, insn, prefix, m);
  }

  // ---------------------------------------------------------------------------------------------
  // What the search sees of a prefix

  /** The table a prefixed instruction's result is kept in. */
  datatype Class = Dip | BdapM1 | BdapM2 | BdapM4 | Rest

  function ClassOf(prefix: Insn, m: Insn): Class {
    if m == BDAP_QUICK_OPCODE then
      (match Offset(prefix) case -4 => BdapM4 case -2 => BdapM2 case -1 => BdapM1 case _ => Rest)
    else if m == DIP_OPCODE then Dip
    else Rest
  }

  predicate OwnTable(offset: int) { offset == -1 || offset == -2 || offset == -4 }

  /** The register an instruction names is pushed by a prefix without a table of its own. */
  predicate Stray(env: Env, insn: Insn, p: Insn) {
    var r := SpecRegFrom(env, High4(insn), 0);
    r.Some? && PushesSize(r.value.size, Offset(p)) && !OwnTable(Offset(p))
  }

  /** No register the family has is of such a size. */
  ghost predicate SizesOk(env: Env) {
    forall insn: Insn, p: Insn :: !Stray(env, insn, p)
  }

  lemma {:induction false} SamePush(env: Env, letter: char, insn: Insn, p: Insn, q: Insn)
    requires SizesOk(env) && ClassOf(p, BDAP_QUICK_OPCODE) == ClassOf(q, BDAP_QUICK_OPCODE)
    ensures PushOk(env, letter, insn, Offset(p)) == PushOk(env, letter, insn, Offset(q))
  {
    hide PushesSize, Offset, High4, SizeIs;
    assert !Stray(env, insn, p) && !Stray(env, insn, q);
  }

  lemma {:induction false} NoPush(env: Env, letter: char, insn: Insn, p: Insn)
    requires SizesOk(env) && ClassOf(p, BDAP_QUICK_OPCODE) == Rest
    ensures !PushOk(env, letter, insn, Offset(p))
  {
    hide PushesSize, Offset, High4, SizeIs;
    assert !Stray(env, insn, p);
  }

  /** Two prefixes of one class are the same to every constraint. */
  lemma {:induction false} SameConstraint(env: Env, cs: string, i: nat, insn: Insn, p: Insn, pm: Insn, q: Insn, qm: Insn,
                                          value: int, ok: bool)
    requires SizesOk(env) && i <= |cs| && p != NO_CRIS_PREFIX && q != NO_CRIS_PREFIX && ClassOf(p, pm) == ClassOf(q, qm)
    ensures ConstraintFrom(env, cs, i, insn, p, pm, value, ok) == ConstraintFrom(env, cs, i, insn, q, qm, value, ok)
    decreases |cs| - i
  {
    hide SizesOk, PushOk, High4, Low4, PostIncrement, SizeIs, SpecRegFrom, Offset;
    if i < |cs| {
      SameConstraint(env, cs, i + 1, insn, p, pm, q, qm, value, ok);
      SameConstraint(env, cs, i + 1, insn, p, pm, q, qm, value, true);
      SameConstraint(env, cs, i + 1, insn, p, pm, q, qm, 5, ok);
      SameConstraint(env, cs, i + 1, insn, p, pm, q, qm, value + 3, ok);
      if cs[i] == 'B' && i + 1 < |cs| {
        SamePushOk(env, cs[i + 1], insn, p, pm, q, qm);
      }
    }
  }

  lemma {:induction false} SamePushOk(env: Env, letter: char, insn: Insn, p: Insn, pm: Insn, q: Insn, qm: Insn)
    requires SizesOk(env) && ClassOf(p, pm) == ClassOf(q, qm)
    ensures (pm == BDAP_QUICK_OPCODE && PushOk(env, letter, insn, Offset(p))) ==
            (qm == BDAP_QUICK_OPCODE && PushOk(env, letter, insn, Offset(q)))
    ensures (pm == DIP_OPCODE) == (qm == DIP_OPCODE)
  {
    hide SizesOk, PushOk, Offset;
    if pm == BDAP_QUICK_OPCODE {
      if qm == BDAP_QUICK_OPCODE {
        SamePush(env, letter, insn, p, q);
      } else {
        NoPush(env, letter, insn, p);
      }
    } else if qm == BDAP_QUICK_OPCODE {
      NoPush(env, letter, insn, q);
    }
  }

  lemma {:induction false} SameBestFrom(env: Env, insn: Insn, p: Insn, pm: Insn, q: Insn, qm: Insn, i: nat,
                                        best: Option<nat>, level: int)
    requires SizesOk(env) && p != NO_CRIS_PREFIX && q != NO_CRIS_PREFIX && ClassOf(p, pm) == ClassOf(q, qm)
    requires i <= |env.ops|
    ensures BestFrom(env, insn, p, pm, i, best, level) == BestFrom(env, insn, q, qm, i, best, level)
    decreases |env.ops| - i
  {
    hide SizesOk, ClassOf, Level;
    if i < |env.ops| {
      SameLevel(env, insn, p, pm, q, qm, i);
      var l := Level(env, insn, p, pm, i);
      if l > level {
        SameBestFrom(env, insn, p, pm, q, qm, i + 1, Some(i), l);
      } else {
        SameBestFrom(env, insn, p, pm, q, qm, i + 1, best, level);
      }
    }
  }

  lemma {:induction false} SameLevel(env: Env, insn: Insn, p: Insn, pm: Insn, q: Insn, qm: Insn, i: nat)
    requires SizesOk(env) && p != NO_CRIS_PREFIX && q != NO_CRIS_PREFIX && ClassOf(p, pm) == ClassOf(q, qm)
    requires i < |env.ops|
    ensures Level(env, insn, p, pm, i) == Level(env, insn, q, qm, i)
  {
    hide SizesOk, ClassOf, Ones, Matches, ConstraintFrom;
    SameConstraint(env, env.ops[i].args, 0, insn, p, pm, q, qm, 0, false);
  }

  /** The look-up depends on a prefix only through its class. */
  lemma {:induction false} ClassDecides(env: Env, insn: Insn, p: Insn, pm: Insn, q: Insn, qm: Insn)
    requires SizesOk(env) && p != NO_CRIS_PREFIX && q != NO_CRIS_PREFIX && ClassOf(p, pm) == ClassOf(q, qm)
    ensures Best(env, insn, p, pm) == Best(env, insn, q, qm)
  {
    hide SizesOk, ClassOf, BestFrom;
    SameBestFrom(env, insn, p, pm, q, qm, 0, None, -1);
  }

  // ---------------------------------------------------------------------------------------------
  // Exactly when keeping results by class is right

  lemma {:induction false} PrefixedSearch(env: Env, insn: Insn, prefix: Insn)
    requires prefix != NO_CRIS_PREFIX
    ensures var p := Search(env, prefix, NO_CRIS_PREFIX);
            if p.None? then Search(env, insn, prefix) == None
            else p.value < |env.ops| && Search(env, insn, prefix) == Best(env, insn, prefix, env.ops[p.value].match_)
  {
    hide Best;
    BestInTable(env, prefix, NO_CRIS_PREFIX, NO_CRIS_PREFIX);
  }

  /** The class of a prefix that is an instruction. */
  function PrefixClass(env: Env, p: Insn): Option<Class> {
    var k := Search(env, p, NO_CRIS_PREFIX);
    if k.None? then None
    else
      BestInTable(env, p, NO_CRIS_PREFIX, NO_CRIS_PREFIX);
      Some(ClassOf(p, env.ops[k.value].match_))
  }

  /** Whatever instruction follows, prefixes of one class give the same result. */
  ghost predicate CachingRight(env: Env) {
    forall insn: Insn, p: Insn, q: Insn |
      p != NO_CRIS_PREFIX && q != NO_CRIS_PREFIX && PrefixClass(env, p).Some? && PrefixClass(env, p) == PrefixClass(env, q) ::
      Search(env, insn, p) == Search(env, insn, q)
  }

  lemma {:induction false} SizesMakeItRight(env: Env)
    requires SizesOk(env)
    ensures CachingRight(env)
  {
    hide SizesOk, ClassOf, Search, Best;
    forall insn: Insn, p: Insn, q: Insn |
      p != NO_CRIS_PREFIX && q != NO_CRIS_PREFIX && PrefixClass(env, p).Some? && PrefixClass(env, p) == PrefixClass(env, q)
      ensures Search(env, insn, p) == Search(env, insn, q)
    {
      PrefixedSearch(env, insn, p);
      PrefixedSearch(env, insn, q);
      ClassDecides(env, insn, p, env.ops[Search(env, p, NO_CRIS_PREFIX).value].match_,
                   q, env.ops[Search(env, q, NO_CRIS_PREFIX).value].match_);
    }
  }

  lemma {:induction false} SameRegs(a: Env, b: Env, number: nat, i: nat)
    requires a.regs == b.regs && a.family == b.family && i <= |a.regs|
    ensures SpecRegFrom(a, number, i) == SpecRegFrom(b, number, i)
    decreases |a.regs| - i
  {
    if i < |a.regs| {
      SameRegs(a, b, number, i + 1);
    }
  }

  // A table with a quick BDAP, another prefix, and a push of a special register

  const BDAPQ := Opcode(BDAP_QUICK_OPCODE, Insn(0x0200), "", VersionAll)
  const OTHER := Opcode(Insn(0x0200), Insn(0x0100), "", VersionAll)
  const PUSH := Opcode(Insn(0), Insn(0), "BP", VersionAll)

  /** A quick BDAP with the offset of p. */
  function QuickOf(p: Insn): Insn { Insn((p.v & 255) | 0x0100) }

  lemma {:induction false} QuickOffset(p: Insn)
    ensures Offset(QuickOf(p)) == Offset(p)
  {
    assert QuickOf(p).v & 255 == p.v & 255;
  }

  lemma {:induction false} QuickMatches(p: Insn)
    ensures Matches(BDAPQ, QuickOf(p)) && !Matches(OTHER, QuickOf(p)) && QuickOf(p) != NO_CRIS_PREFIX
  {
  }

  lemma {:induction false} OtherMatches()
    ensures !Matches(BDAPQ, OTHER.match_) && Matches(OTHER, OTHER.match_)
  {
  }

  lemma {:induction false} PushMatches(i: Insn)
    ensures Matches(PUSH, i)
  {
  }

  function PushTable(env: Env): Env { env.(ops := [BDAPQ, OTHER, PUSH]) }

  lemma {:induction false} EmptyConstraint(env: Env, insn: Insn, prefix: Insn, m: Insn)
    ensures Constraint(env, "", insn, prefix, m) == if prefix == NO_CRIS_PREFIX then 0 else -1
  {
  }

  /** A push constraint: met by a quick BDAP that pushes the register, and by nothing that is no quick BDAP. */
  lemma {:induction false} PushConstraint(env: Env, insn: Insn, p: Insn, m: Insn)
    ensures m != BDAP_QUICK_OPCODE || p == NO_CRIS_PREFIX ==> Constraint(env, "BP", insn, p, m) == -1
    ensures p != NO_CRIS_PREFIX && Stray(env, insn, p) ==> Constraint(env, "BP", insn, p, BDAP_QUICK_OPCODE) == 3
  {
    hide SpecRegFrom, High4, Offset, PushesSize;
    if p != NO_CRIS_PREFIX && Stray(env, insn, p) {
      assert ConstraintFrom(env, "BP", 2, insn, p, BDAP_QUICK_OPCODE, 3, true) == 3;
      assert ConstraintFrom(env, "BP", 1, insn, p, BDAP_QUICK_OPCODE, 0, true) == 3;
    }
  }

  /** The only entry of three that matches is found. */
  lemma {:induction false} OnlyMatch(env: Env, insn: Insn, prefix: Insn, m: Insn, k: Option<nat>)
    requires |env.ops| == 3 && (k.Some? ==> k.value < 3 && Level(env, insn, prefix, m, k.value) >= 0)
    requires forall j: nat | j < 3 && k != Some(j) :: Level(env, insn, prefix, m, j) == -1
    ensures Best(env, insn, prefix, m) == k
  {
    hide Level, BestFrom;
    BestIs(env, insn, prefix, m);
  }

  lemma {:induction false} QuickFound(env: Env, p: Insn)
    ensures Search(PushTable(env), QuickOf(p), NO_CRIS_PREFIX) == Some(0)
  {
    hide Matches, Ones, Constraint, Best, QuickOf;
    var e, i := PushTable(env), QuickOf(p);
    QuickMatches(p);
    EmptyConstraint(e, i, NO_CRIS_PREFIX, NO_CRIS_PREFIX);
    PushConstraint(e, i, NO_CRIS_PREFIX, NO_CRIS_PREFIX);
    OnlyMatch(e, i, NO_CRIS_PREFIX, NO_CRIS_PREFIX, Some(0));
  }

  lemma {:induction false} OtherFound(env: Env)
    ensures Search(PushTable(env), OTHER.match_, NO_CRIS_PREFIX) == Some(1)
  {
    hide Matches, Ones, Constraint, Best;
    var e, i := PushTable(env), OTHER.match_;
    OtherMatches();
    EmptyConstraint(e, i, NO_CRIS_PREFIX, NO_CRIS_PREFIX);
    PushConstraint(e, i, NO_CRIS_PREFIX, NO_CRIS_PREFIX);
    OnlyMatch(e, i, NO_CRIS_PREFIX, NO_CRIS_PREFIX, Some(1));
  }

  lemma {:induction false} PushedOrNot(env: Env, insn: Insn, p: Insn)
    requires Stray(PushTable(env), insn, p) && p != NO_CRIS_PREFIX
    ensures Best(PushTable(env), insn, p, BDAP_QUICK_OPCODE) == Some(2)
    ensures Best(PushTable(env), insn, OTHER.match_, OTHER.match_) == None
  {
    hide Matches, Ones, Constraint, Best, Stray;
    var e, q := PushTable(env), OTHER.match_;
    PushMatches(insn);
    EmptyConstraint(e, insn, p, BDAP_QUICK_OPCODE);
    PushConstraint(e, insn, p, BDAP_QUICK_OPCODE);
    OnlyMatch(e, insn, p, BDAP_QUICK_OPCODE, Some(2));
    EmptyConstraint(e, insn, q, q);
    PushConstraint(e, insn, q, q);
    OnlyMatch(e, insn, q, q, None);
  }

  lemma {:induction false} StrayMakesItWrong(env: Env, insn: Insn, p: Insn)
    requires Stray(env, insn, p)
    ensures NoAborts(PushTable(env)) && !CachingRight(PushTable(env))
  {
    hide Best, BestFrom, SpecRegFrom, High4, PushesSize, QuickOf;
    var e, a, b := PushTable(env), QuickOf(p), OTHER.match_;
    QuickOffset(p);
    QuickMatches(p);
    SameRegs(env, e, High4(insn), 0);
    assert Stray(e, insn, a);
    QuickFound(env, p);
    OtherFound(env);
    assert PrefixClass(e, a) == Some(Rest) && PrefixClass(e, b) == Some(Rest);
    PrefixedSearch(e, insn, a);
    PrefixedSearch(e, insn, b);
    PushedOrNot(env, insn, a);
    assert Search(e, insn, a) != Search(e, insn, b);
  }

  /** For a register table and a family: keeping results by class is right for every opcode table if and only if
    * no register has a size that a BDAPQ offset without a table of its own would push. */
  lemma {:induction false} CachingRightIff(regs: seq<SpecReg>, family: Family)
    ensures (forall ops: seq<Opcode> | NoAborts(Env(ops, regs, family)) :: CachingRight(Env(ops, regs, family))) <==>
            SizesOk(Env([], regs, family))
  {
    hide CachingRight, Stray, NoAborts;
    var env := Env([], regs, family);
    if SizesOk(env) {
      forall ops: seq<Opcode> | NoAborts(Env(ops, regs, family))
        ensures CachingRight(Env(ops, regs, family))
      {
        SameSizes(env, Env(ops, regs, family));
        SizesMakeItRight(Env(ops, regs, family));
      }
    } else {
      var insn, p :| Stray(env, insn, p);
      StrayMakesItWrong(env, insn, p);
      assert PushTable(env) == Env([BDAPQ, OTHER, PUSH], regs, family);
    }
  }

  lemma {:induction false} SameSizes(a: Env, b: Env)
    requires a.regs == b.regs && a.family == b.family && SizesOk(a)
    ensures SizesOk(b)
  {
    hide SpecRegFrom, High4, PushesSize, Offset;
    forall insn: Insn, p: Insn
      ensures !Stray(b, insn, p)
    {
      SameRegs(a, b, High4(insn), 0);
      assert !Stray(a, insn, p);
    }
  }
}
