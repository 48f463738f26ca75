/** What the constraint letters of the CRIS opcode table mean, letter by letter, and what an entry has to be to match. */
module CrisLetters {
  import opened Options
  import opened CrisOpcodes

  // ---------------------------------------------------------------------------------------------
  // What each letter demands

  /** The instruction, under the mask, is these bits. */
  predicate Masked(insn: Insn, mask: Insn, bits: Insn) { insn.v & mask.v == bits.v }

  /** Bits 12 to 15 are bits 0 to 3. */
  predicate SameFields(insn: Insn) { insn.v >> 12 == insn.v & 15 }

  /** The number in bits 12 to 15. */
  function RegisterField(insn: Insn): nat { (insn.v >> 12) as nat }

  function LastByte(insn: Insn): nat { (insn.v & 255) as nat }

  ghost predicate HasRegister(env: Env, insn: Insn) {
    exists k: nat :: FirstReg(env, RegisterField(insn), k)
  }

  /** The register is of the size that subtracting the prefix's signed low byte makes room for, as a 32-bit word. */
  predicate MakesRoom(size: nat, prefix: Insn) {
    var byte := LastByte(prefix);
    size == if byte == 0 then 0 else if byte >= 128 then 256 - byte else 0x1_0000_0000 - byte
  }

  /** The prefix pushes what the operand letter names: a special register of the right size, or four bytes. */
  ghost predicate Pushes(env: Env, letter: char, insn: Insn, prefix: Insn) {
    || (letter == 'P' && exists k: nat :: FirstReg(env, RegisterField(insn), k) && MakesRoom(env.regs[k].size, prefix))
    || (letter == 'R' && Masked(insn, Insn(0x30), Insn(0x20)) && Masked(prefix, Insn(255), Insn(0xfc)))
  }

  /** No DIP prefix in front of a post-increment. */
  predicate NoDip(insn: Insn, prefix: Insn, m: Insn) {
    prefix != NO_CRIS_PREFIX && Masked(insn, Insn(0x400), Insn(0x400)) ==> m != DIP_OPCODE
  }

  /** The demand of the letter at place i; `m` is the match field of the prefix's opcode. */
  ghost predicate LetterMet(env: Env, cs: string, i: nat, insn: Insn, prefix: Insn, m: Insn)
    requires i < |cs|
  {
    match cs[i]
    case '!' => prefix == NO_CRIS_PREFIX && env.family == V0ToV10
    case 'U' => false
    case 'M' => exists bits | bits in {Insn(0), Insn(0x4000), Insn(0x8000)} :: Masked(insn, Insn(0xf000), bits)
    case 'm' => !Masked(insn, Insn(0x30), Insn(0x30))
    case 'S' => prefix != NO_CRIS_PREFIX && Masked(insn, Insn(0x400), Insn(0))
    case 's' => NoDip(insn, prefix, m)
    case 'y' => NoDip(insn, prefix, m)
    case 'Y' => NoDip(insn, prefix, m)
    case 'B' => prefix != NO_CRIS_PREFIX && m == BDAP_QUICK_OPCODE && i + 1 < |cs| && Pushes(env, cs[i + 1], insn, prefix)
    case 'D' => SameFields(insn)
    case 'P' => HasRegister(env, insn)
    case _ => true
  }

  /** Letters of an operand that a prefix can modify. */
  predicate Admits(letter: char) {
    letter in {'S', 's', 'y', 'Y', 'B'}
  }

  /** Every letter's demand is met and, with a prefix, one of them admits it. */
  ghost predicate Accepted(env: Env, cs: string, insn: Insn, prefix: Insn, m: Insn) {
    && (forall i: nat | i < |cs| :: LetterMet(env, cs, i, insn, prefix, m))
    && (prefix != NO_CRIS_PREFIX ==> exists i: nat | i < |cs| :: Admits(cs[i]))
  }

  /** Starting from `start`: 5 from the last 'D' on, if there is one, and 3 for every 'P' after it. */
  ghost predicate ConfidenceIs(cs: string, start: int, value: int) {
    exists d: nat | d <= |cs| && LastD(cs, d) :: value == (if d == 0 then start else 5) + 3 * CountP(cs[d..])
  }

  /** The last 'D' is just before place d; there is none when d is 0. */
  predicate LastD(cs: string, d: nat)
    requires d <= |cs|
  {
    if d == 0 then 'D' !in cs else cs[d - 1] == 'D' && 'D' !in cs[d..]
  }

  function CountP(cs: string): nat { multiset(cs)['P'] }

  // ---------------------------------------------------------------------------------------------
  // The fields, as the tests see them

  lemma {:induction false} ClearSize(insn: Insn)
    ensures High4(insn) == 0 || High4(insn) == 4 || High4(insn) == 8 <==>
            exists bits | bits in {Insn(0), Insn(0x4000), Insn(0x8000)} :: Masked(insn, Insn(0xf000), bits)
  {
    hide High4, Masked;
    FieldIs0(insn);
    FieldIs4(insn);
    FieldIs8(insn);
  }

  lemma {:induction false} FieldIs0(insn: Insn)
    ensures High4(insn) == 0 <==> Masked(insn, Insn(0xf000), Insn(0))
  {
  }

  lemma {:induction false} FieldIs4(insn: Insn)
    ensures High4(insn) == 4 <==> Masked(insn, Insn(0xf000), Insn(0x4000))
  {
  }

  lemma {:induction false} FieldIs8(insn: Insn)
    ensures High4(insn) == 8 <==> Masked(insn, Insn(0xf000), Insn(0x8000))
  {
  }

  lemma {:induction false} SameRegister(insn: Insn)
    ensures High4(insn) == Low4(insn) <==> SameFields(insn)
  {
  }

  lemma {:induction false} PostIncrementSet(insn: Insn)
    ensures PostIncrement(insn) <==> Masked(insn, Insn(0x400), Insn(0x400))
  {
  }

  lemma {:induction false} PostIncrementClear(insn: Insn)
    ensures PostIncrement(insn) <==> !Masked(insn, Insn(0x400), Insn(0))
  {
  }

  lemma {:induction false} SizeMasked(insn: Insn, bits: Insn)
    ensures SizeIs(insn, bits) <==> Masked(insn, Insn(0x30), bits)
  {
  }

  lemma {:induction false} FourBytes(prefix: Insn)
    ensures Offset(prefix) == -4 <==> Masked(prefix, Insn(255), Insn(0xfc))
  {
  }

  lemma {:induction false} FieldIsHigh4(insn: Insn)
    ensures RegisterField(insn) == High4(insn)
  {
  }

  lemma {:induction false} RegisterFound(env: Env, insn: Insn)
    ensures SpecRegFrom(env, High4(insn), 0).Some? <==> HasRegister(env, insn)
    ensures forall k: nat | FirstReg(env, RegisterField(insn), k) :: SpecRegFrom(env, High4(insn), 0) == Some(env.regs[k])
  {
    hide SpecRegFrom, High4, RegisterField;
    FieldIsHigh4(insn);
    var number := RegisterField(insn);
    SpecRegFirst(env, number, 0);
    if !NoReg(env, number) {
      var k := LeastReg(env, number);
      assert FirstReg(env, number, k);
    }
  }

  lemma {:induction false} LeastReg(env: Env, number: nat) returns (k: nat)
    requires !NoReg(env, number)
    ensures FirstReg(env, number, k)
  {
    k := 0;
    while !RegIs(env, number, env.regs[k])
      invariant 0 <= k < |env.regs| && (forall j | 0 <= j < k :: !RegIs(env, number, env.regs[j]))
      decreases |env.regs| - k
    {
      k := k + 1;
      if k == |env.regs| {
        assert NoReg(env, number);
      }
    }
  }

  lemma {:induction false} PushIs(env: Env, letter: char, insn: Insn, prefix: Insn)
    ensures PushOk(env, letter, insn, Offset(prefix)) <==> Pushes(env, letter, insn, prefix)
  {
    hide SpecRegFrom, RegIs, High4, RegisterField, SizeIs, Masked, Offset, PushesSize, MakesRoom;
    RegisterFound(env, insn);
    if letter == 'P' && HasRegister(env, insn) {
      var k: nat :| FirstReg(env, RegisterField(insn), k);
      RoomIs(env.regs[k].size, prefix);
      assert forall j: nat | FirstReg(env, RegisterField(insn), j) :: env.regs[j] == env.regs[k];
    } else if letter == 'R' {
      FourBytes(prefix);
      SizeMasked(insn, Insn(0x20));
    }
  }

  lemma {:induction false} RoomIs(size: nat, prefix: Insn)
    ensures PushesSize(size, Offset(prefix)) <==> MakesRoom(size, prefix)
  {
  }

  // ---------------------------------------------------------------------------------------------
  // The loop over the letters

  /** What the letter at place i does when its demand is met. */
  lemma {:induction false} LetterStep(env: Env, cs: string, i: nat, insn: Insn, prefix: Insn, m: Insn, value: int, ok: bool)
    requires i < |cs|
    ensures var r := ConstraintFrom(env, cs, i, insn, prefix, m, value, ok);
            if LetterMet(env, cs, i, insn, prefix, m) then
              r == ConstraintFrom(env, cs, i + 1, insn, prefix, m,
                                  if cs[i] == 'D' then 5 else if cs[i] == 'P' then value + 3 else value,
                                  ok || (prefix != NO_CRIS_PREFIX && Admits(cs[i])))
            else r == -1
  {
    hide High4, Low4, SizeIs, PostIncrement, PushOk, Pushes, SpecRegFrom, HasRegister, Offset, Masked, SameFields;
    match cs[i]
    case 'M' => ClearSize(insn);
    case 'm' => SizeMasked(insn, Insn(0x30));
    case 'S' => PostIncrementClear(insn);
    case 's' => PostIncrementSet(insn);
    case 'y' => PostIncrementSet(insn);
    case 'Y' => PostIncrementSet(insn);
    case 'B' => if i + 1 < |cs| { PushIs(env, cs[i + 1], insn, prefix); }
    case 'D' => SameRegister(insn);
    case 'P' => RegisterFound(env, insn);
    case _ =>
  }

  lemma {:induction false} AcceptedFrom(env: Env, cs: string, i: nat, insn: Insn, prefix: Insn, m: Insn, value: nat, ok: bool)
    requires i <= |cs|
    ensures var r := ConstraintFrom(env, cs, i, insn, prefix, m, value, ok);
            && r >= -1
            && (r >= 0 <==>
                  && (forall j: nat | i <= j < |cs| :: LetterMet(env, cs, j, insn, prefix, m))
                  && (prefix != NO_CRIS_PREFIX ==> ok || exists j: nat | i <= j < |cs| :: Admits(cs[j])))
            && (r >= 0 ==> ConfidenceIs(cs[i..], value, r))
    decreases |cs| - i
  {
    hide LetterMet, ConfidenceIs, ConstraintFrom, Admits;
    if i == |cs| {
      EndOfLetters(env, cs, insn, prefix, m, value, ok);
      NoConfidence(value);
      assert cs[i..] == [];
    } else {
      LetterStep(env, cs, i, insn, prefix, m, value, ok);
      var v := if cs[i] == 'D' then 5 else if cs[i] == 'P' then value + 3 else value;
      AcceptedFrom(env, cs, i + 1, insn, prefix, m, v, ok || (prefix != NO_CRIS_PREFIX && Admits(cs[i])));
      var r := ConstraintFrom(env, cs, i, insn, prefix, m, value, ok);
      if LetterMet(env, cs, i, insn, prefix, m) && r >= 0 {
        assert cs[i..] == [cs[i]] + cs[i + 1..];
        MoreConfidence(cs[i], cs[i + 1..], value, r);
      }
    }
  }

  lemma {:induction false} EndOfLetters(env: Env, cs: string, insn: Insn, prefix: Insn, m: Insn, value: int, ok: bool)
    ensures ConstraintFrom(env, cs, |cs|, insn, prefix, m, value, ok) == if prefix != NO_CRIS_PREFIX && !ok then -1 else value
  {
  }

  lemma {:induction false} NoConfidence(value: int)
    ensures ConfidenceIs([], value, value)
  {
    var cs: string := [];
    assert cs[0..] == [] && CountP(cs[0..]) == 0 && LastD(cs, 0);
  }

  lemma {:induction false} MoreConfidence(letter: char, rest: string, value: int, r: int)
    requires ConfidenceIs(rest, if letter == 'D' then 5 else if letter == 'P' then value + 3 else value, r)
    ensures ConfidenceIs([letter] + rest, value, r)
  {
    var cs := [letter] + rest;
    var start := if letter == 'D' then 5 else if letter == 'P' then value + 3 else value;
    var d: nat :| d <= |rest| && LastD(rest, d) && r == (if d == 0 then start else 5) + 3 * CountP(rest[d..]);
    hide CountP;
    if d > 0 || letter == 'D' {
      assert cs[d + 1..] == rest[d..];
      assert LastD(cs, d + 1) by {
        assert cs[d] == 'D';
        assert d == 0 ==> rest[d..] == rest;
      }
    } else {
      assert cs[0..] == cs && rest[0..] == rest;
      CountCons(letter, rest);
      assert LastD(cs, 0);
    }
  }

  lemma {:induction false} CountCons(letter: char, rest: string)
    ensures CountP([letter] + rest) == CountP(rest) + (if letter == 'P' then 1 else 0)
  {
    assert multiset([letter] + rest) == multiset{letter} + multiset(rest);
  }

  /** cris_constraint without its loop: an instruction is accepted if and only if every letter's own demand is met and,
      with a prefix, some letter admits one; its value is 5 from the last 'D', if any, and 3 for every 'P' after it. */
  lemma {:induction false} ConstraintMeans(env: Env, cs: string, insn: Insn, prefix: Insn, m: Insn)
    ensures var r := Constraint(env, cs, insn, prefix, m);
            && (if Accepted(env, cs, insn, prefix, m) then ConfidenceIs(cs, 0, r) && r >= 0 else r == -1)
  {
    hide ConstraintFrom, LetterMet, ConfidenceIs, Admits;
    AcceptedFrom(env, cs, 0, insn, prefix, m, 0, false);
    assert cs[0..] == cs;
  }

  // ---------------------------------------------------------------------------------------------
  // Versions

  /** The chip versions from `lo` to `hi` that a version stands for. */
  datatype Range = Range(lo: nat, hi: nat)

  const LATEST := 0xffff

  function Versions(v: Version): Range {
    match v
    case VersionAll => Range(0, LATEST)
    case Warning => Range(0, LATEST)
    case V0_3 => Range(0, 3)
    case V3p => Range(3, LATEST)
    case V8 => Range(8, 8)
    case V8p => Range(8, LATEST)
    case SimV0_10 => Range(0, 10)
    case V0_10 => Range(0, 10)
    case V3_10 => Range(3, 10)
    case V8_10 => Range(8, 10)
    case V10 => Range(10, 10)
    case V10p => Range(10, LATEST)
    case V32p => Range(32, LATEST)
  }

  /** An entry is considered for version 32 if it holds there, and for the others if it holds for one up to 10; entries
      that are only warned about are not considered for version 32. */
  lemma {:induction false} AppliesMeans(family: Family, v: Version)
    requires !Aborts(family, v)
    ensures Applies(family, v) <==>
            if family == V32 then Versions(v).lo <= 32 <= Versions(v).hi && v != Warning else Versions(v).lo <= 10
  {
  }

  lemma {:induction false} RegAppliesMeans(family: Family, r: SpecReg)
    ensures RegApplies(family, r) <==>
            if family == V32 then Versions(r.version).lo <= 32 <= Versions(r.version).hi && !r.warned
            else Versions(r.version).lo <= 10
  {
  }

  /** The entry is for the family, has its bits where it fixes them, and accepts the instruction and its prefix. */
  ghost predicate Fits(env: Env, op: Opcode, insn: Insn, prefix: Insn, m: Insn) {
    && (if env.family == V32 then Versions(op.version).lo <= 32 <= Versions(op.version).hi && op.version != Warning
        else Versions(op.version).lo <= 10)
    && Masked(op.match_, insn, op.match_) && Masked(op.lose, insn, Insn(0))
    && Accepted(env, op.args, insn, prefix, m)
  }

  /** Which entries match at all, and how well: fixed bits count double, on top of the letters' value. */
  lemma {:induction false} LevelMeans(env: Env, insn: Insn, prefix: Insn, m: Insn, k: nat)
    requires k < |env.ops| && NoAborts(env)
    ensures var op, l := env.ops[k], Level(env, insn, prefix, m, k);
            if Fits(env, op, insn, prefix, m) then l >= 0 && ConfidenceIs(op.args, 0, l - 2 * Ones(Fixed(op))) else l == -1
  {
    hide Constraint, ConfidenceIs, Accepted, Ones, Matches, Masked, Both, Fixed;
    var op := env.ops[k];
    AppliesMeans(env.family, op.version);
    ConstraintMeans(env, op.args, insn, prefix, m);
    MatchBits(op, insn);
    FixedIsBoth(op);
  }

  /** The search finds an entry that fits, and finds one if there is one. */
  lemma {:induction false} FoundIff(env: Env, insn: Insn, prefix: Insn, m: Insn)
    requires NoAborts(env)
    ensures var r := Best(env, insn, prefix, m);
            && (r.Some? ==> r.value < |env.ops| && Fits(env, env.ops[r.value], insn, prefix, m))
            && (r.None? ==> forall op | op in env.ops :: !Fits(env, op, insn, prefix, m))
  {
    hide Level, Best, Fits, ConfidenceIs, Ones, Fixed;
    BestIs(env, insn, prefix, m);
    forall k: nat | k < |env.ops|
      ensures Level(env, insn, prefix, m, k) >= 0 <==> Fits(env, env.ops[k], insn, prefix, m)
    {
      LevelMeans(env, insn, prefix, m, k);
    }
  }

  /** The bits the entry fixes to one or to zero. */
  function Fixed(op: Opcode): Insn { Insn(op.match_.v | op.lose.v) }

  lemma {:induction false} MatchBits(op: Opcode, insn: Insn)
    ensures Matches(op, insn) <==> Masked(op.match_, insn, op.match_) && Masked(op.lose, insn, Insn(0))
  {
    hide Masked, HasAll, HasNone;
    AllMasked(op.match_, insn);
    NoneMasked(op.lose, insn);
  }

  lemma {:induction false} AllMasked(bits: Insn, insn: Insn)
    ensures HasAll(bits, insn) <==> Masked(bits, insn, bits)
  {
  }

  lemma {:induction false} NoneMasked(bits: Insn, insn: Insn)
    ensures HasNone(bits, insn) <==> Masked(bits, insn, Insn(0))
  {
  }

  lemma {:induction false} FixedIsBoth(op: Opcode)
    ensures Both(op) == Fixed(op)
  {
  }
}
