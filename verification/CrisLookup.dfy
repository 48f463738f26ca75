/** get_opcode_entry and cris_constraint: the look-up with its six tables of earlier results. */
module CrisLookup {
  import opened Options
  import opened CrisOpcodes
  import opened CrisLetters

  predicate PushSize(r: SpecReg) { r.size == 1 || r.size == 2 || r.size == 4 }

  type PushReg = r: SpecReg | PushSize(r) witness SpecReg(0, 1, VersionAll, false)

  function Reg1(number: nat, version: Version, warned: bool): PushReg { SpecReg(number, 1, version, warned) }
  function Reg2(number: nat, version: Version, warned: bool): PushReg { SpecReg(number, 2, version, warned) }
  function Reg4(number: nat, version: Version, warned: bool): PushReg { SpecReg(number, 4, version, warned) }

  /** cris_spec_regs of the disassembler, without the names. */
  const SPEC_REGS: seq<PushReg> :=
    [Reg1(0, V32p, false), Reg1(0, VersionAll, false), Reg1(1, VersionAll, false), Reg1(1, VersionAll, false),
     Reg1(2, V32p, false), Reg1(2, V32p, false), Reg1(2, Warning, false), Reg1(3, V32p, false), Reg1(3, V32p, false),
     Reg1(3, Warning, false), Reg2(4, V32p, false), Reg2(4, VersionAll, false), Reg2(5, V0_10, false),
     Reg4(5, V32p, false), Reg2(5, V0_10, false), Reg4(5, V32p, false), Reg2(6, V0_3, false), Reg4(6, V32p, false),
     Reg2(6, V0_3, false), Reg4(6, V32p, false), Reg4(7, V10p, true), Reg2(7, V0_3, true), Reg4(7, V10p, false),
     Reg2(7, V0_3, false), Reg4(7, V10p, false), Reg2(7, V0_3, false), Reg4(8, V32p, false),
     Reg4(8, VersionAll, false), Reg4(9, V0_10, false), Reg4(9, V32p, false), Reg4(9, VersionAll, false),
     Reg4(10, V0_10, false), Reg4(10, V32p, false), Reg4(10, VersionAll, false), Reg4(11, VersionAll, false),
     Reg4(11, VersionAll, false), Reg4(12, Warning, true), Reg4(12, V32p, false), Reg4(12, V8_10, false),
     Reg4(12, V0_3, false), Reg4(12, VersionAll, false), Reg4(13, Warning, true), Reg4(13, V32p, false),
     Reg4(13, V8_10, false), Reg4(13, V0_3, false), Reg4(13, VersionAll, false), Reg4(14, V3_10, false),
     Reg4(14, V32p, false), Reg4(14, V3p, false), Reg4(15, V10, false), Reg4(15, V32p, false), Reg4(15, V10p, false)]

  lemma {:induction false} FoundInTable(env: Env, number: nat, i: nat)
    requires i <= |env.regs| && forall k | 0 <= k < |env.regs| :: PushSize(env.regs[k])
    ensures var r := SpecRegFrom(env, number, i); r.Some? ==> PushSize(r.value)
    decreases |env.regs| - i
  {
    if i < |env.regs| {
      FoundInTable(env, number, i + 1);
    }
  }

  /** The register table keeps what the caching relies on, for every family and opcode table. */
  lemma {:induction false} RealSizesOk(env: Env)
    requires env.regs == SPEC_REGS
    ensures SizesOk(env)
  {
    assert forall k | 0 <= k < |env.regs| :: PushSize(env.regs[k]) by {
      forall k | 0 <= k < |env.regs|
        ensures PushSize(env.regs[k])
      {
        var r: PushReg := SPEC_REGS[k];
      }
    }
    forall insn: Insn, p: Insn
      ensures !Stray(env, insn, p)
    {
      FoundInTable(env, High4(insn), 0);
    }
  }

  class OpcodeCache {
    const env: Env
    var opcTable: map<Insn, nat>
    var prefixTables: map<Class, map<Insn, nat>>

    constructor (e: Env)
      requires NoAborts(e) && SizesOk(e)
      ensures env == e && Valid()
    {
      env := e;
      opcTable := map[];
      prefixTables := map[Dip := map[], BdapM1 := map[], BdapM2 := map[], BdapM4 := map[], Rest := map[]];
    }

    /** An entry without a prefix is what the uncached search finds. */
    ghost predicate PlainOk()
      reads this
    {
      forall i | i in opcTable :: Search(env, i, NO_CRIS_PREFIX) == Some(opcTable[i])
    }

    /** An entry of a class is what the uncached search finds for every prefix of that class. */
    ghost predicate PrefixedOk()
      reads this
    {
      forall c, i, p: Insn, m: Insn |
        c in prefixTables && i in prefixTables[c] && p != NO_CRIS_PREFIX && ClassOf(p, m) == c ::
        Best(env, i, p, m) == Some(prefixTables[c][i])
    }

    ghost predicate Valid()
      reads this
    {
      && NoAborts(env) && SizesOk(env)
      && prefixTables.Keys == {Dip, BdapM1, BdapM2, BdapM4, Rest}
      && PlainOk() && PrefixedOk()
    }

    /** The match field of the opcode of a prefix that is an instruction. */
    ghost function PrefixMatch(prefix: Insn): Insn
      requires prefix != NO_CRIS_PREFIX ==> Search(env, prefix, NO_CRIS_PREFIX).Some?
    {
      if prefix == NO_CRIS_PREFIX then NO_CRIS_PREFIX
      else
        BestInTable(env, prefix, NO_CRIS_PREFIX, NO_CRIS_PREFIX);
        env.ops[Search(env, prefix, NO_CRIS_PREFIX).value].match_
    }

    /** cris_constraint; the look-ups of the prefix it makes always succeed. */
    method CrisConstraint(cs: string, insn: Insn, prefix: Insn) returns (r: int)
      requires Valid() && (prefix != NO_CRIS_PREFIX ==> Search(env, prefix, NO_CRIS_PREFIX).Some?)
      modifies this
      ensures Valid() && r == Constraint(env, cs, insn, prefix, PrefixMatch(prefix))
      ensures if Accepted(env, cs, insn, prefix, PrefixMatch(prefix)) then r >= 0 && ConfidenceIs(cs, 0, r) else r == -1
      decreases prefix != NO_CRIS_PREFIX, 0
    {
      hide Valid, High4, Low4, PostIncrement, SizeIs, SpecRegFrom, Offset, PushOk, Search, Accepted, ConfidenceIs;
      ghost var m := PrefixMatch(prefix);
      ConstraintMeans(env, cs, insn, prefix, m);
      var prefixed := prefix != NO_CRIS_PREFIX;
      var value, ok, i := 0, false, 0;
      while i < |cs|
        invariant 0 <= i <= |cs| && Valid()
        invariant ConstraintFrom(env, cs, 0, insn, prefix, m, 0, false) ==
                  ConstraintFrom(env, cs, i, insn, prefix, m, value, ok)
      {
        if cs[i] == '!' {
          if prefixed || env.family != V0ToV10 {
            return -1;
          }
        } else if cs[i] == 'U' {
          return -1;
        } else if cs[i] == 'M' {
          if High4(insn) != 0 && High4(insn) != 4 && High4(insn) != 8 {
            return -1;
          }
        } else if cs[i] == 'm' {
          if SizeIs(insn, Insn(0x30)) {
            return -1;
          }
        } else if cs[i] == 'S' {
          if prefixed && !PostIncrement(insn) {
            ok := true;
          } else {
            return -1;
          }
        } else if cs[i] == 's' || cs[i] == 'y' || cs[i] == 'Y' {
          if prefixed {
            if PostIncrement(insn) {
              var code := MatchOfPrefix(prefix);
              if code == DIP_OPCODE {
                return -1;
              }
            }
            ok := true;
          }
        } else if cs[i] == 'B' {
          if !prefixed {
            return -1;
          }
          var code := MatchOfPrefix(prefix);
          if code != BDAP_QUICK_OPCODE || i + 1 == |cs| {
            return -1;
          }
          var fits := CheckPush(cs[i + 1], insn, prefix);
          if !fits {
            return -1;
          }
          ok := true;
        } else if cs[i] == 'D' {
          if High4(insn) != Low4(insn) {
            return -1;
          }
          value := 5;
        } else if cs[i] == 'P' {
          var reg := SpecRegInfo(env, High4(insn));
          SpecRegFirst(env, High4(insn), 0);
          if reg.None? {
            return -1;
          }
          value := value + 3;
        }
        i := i + 1;
      }
      if prefixed && !ok {
        return -1;
      }
      return value;
    }

    method CheckPush(letter: char, insn: Insn, prefix: Insn) returns (ok: bool)
      ensures ok == PushOk(env, letter, insn, Offset(prefix))
    {
      hide SpecRegFrom, Offset, High4, SizeIs;
      if letter == 'P' {
        var reg := SpecRegInfo(env, High4(insn));
        SpecRegFirst(env, High4(insn), 0);
        return reg.Some? && PushesSize(env.regs[reg.value].size, Offset(prefix));
      }
      return letter == 'R' && SizeIs(insn, Insn(0x20)) && Offset(prefix) == -4;
    }

    method MatchOfPrefix(prefix: Insn) returns (m: Insn)
      requires Valid() && prefix != NO_CRIS_PREFIX && Search(env, prefix, NO_CRIS_PREFIX).Some?
      modifies this
      ensures Valid() && m == PrefixMatch(prefix)
      decreases false, 3
    {
      hide Valid, Search;
      var k := GetOpcodeEntry(prefix, NO_CRIS_PREFIX);
      assert k.value < |env.ops| by {
        BestInTable(env, prefix, NO_CRIS_PREFIX, NO_CRIS_PREFIX);
        PlainSearch(env, prefix);
      }
      return env.ops[k.value].match_;
    }

    /** The linear search for the best match. */
    method FindBest(insn: Insn, prefix: Insn) returns (best: Option<nat>)
      requires Valid() && (prefix != NO_CRIS_PREFIX ==> Search(env, prefix, NO_CRIS_PREFIX).Some?)
      modifies this
      ensures Valid() && best == Best(env, insn, prefix, PrefixMatch(prefix))
      decreases prefix != NO_CRIS_PREFIX, 1
    {
      hide Valid, Search, Constraint, Matches, Ones;
      ghost var m := PrefixMatch(prefix);
      best := None;
      var maxLevel := -1;
      var i := 0;
      while i < |env.ops|
        invariant 0 <= i <= |env.ops| && Valid()
        invariant BestFrom(env, insn, prefix, m, 0, None, -1) == BestFrom(env, insn, prefix, m, i, best, maxLevel)
        invariant -1 <= maxLevel
      {
        var op := env.ops[i];
        if Applies(env.family, op.version) && Matches(op, insn) {
          var level := CrisConstraint(op.args, insn, prefix);
          if level >= 0 {
            var bits := NumberOfBits(Both(op));
            level := level + 2 * bits;
            if level > maxLevel {
              best := Some(i);
              maxLevel := level;
              if level >= 32 {
                return;
              }
            }
          }
        }
        i := i + 1;
      }
    }

    /** get_opcode_entry: whatever was looked up before, the result is that of the uncached search. */
    method GetOpcodeEntry(insn: Insn, prefix: Insn) returns (r: Option<nat>)
      requires Valid()
      modifies this
      ensures Valid() && r == Search(env, insn, prefix)
      decreases prefix != NO_CRIS_PREFIX, 2
    {
      hide Valid, Search, ClassOf, Best;
      if prefix == NO_CRIS_PREFIX {
        PlainSearch(env, insn);
        if insn in opcTable {
          FoundPlain(insn);
          return Some(opcTable[insn]);
        }
        r := FindBest(insn, prefix);
        if r.Some? {
          RecordPlain(insn, r.value);
        }
        return;
      }
      var p;
      if prefix in opcTable {
        FoundPlain(prefix);
        p := Some(opcTable[prefix]);
      } else {
        p := GetOpcodeEntry(prefix, NO_CRIS_PREFIX);
      }
      PrefixedSearch(env, insn, prefix);
      if p.None? {
        return None;
      }
      var m := env.ops[p.value].match_;
      var c := ClassOf(prefix, m);
      AllTables(c);
      if insn in prefixTables[c] {
        FoundPrefixed(insn, prefix, m);
        return Some(prefixTables[c][insn]);
      }
      r := FindBest(insn, prefix);
      if r.Some? {
        RecordPrefixed(insn, prefix, m, r.value);
      }
    }

    lemma {:induction false} FoundPlain(insn: Insn)
      requires Valid() && insn in opcTable
      ensures Search(env, insn, NO_CRIS_PREFIX) == Some(opcTable[insn])
    {
    }

    lemma {:induction false} AllTables(c: Class)
      requires Valid()
      ensures c in prefixTables
    {
    }

    lemma {:induction false} FoundPrefixed(insn: Insn, prefix: Insn, m: Insn)
      requires Valid() && prefix != NO_CRIS_PREFIX
      requires ClassOf(prefix, m) in prefixTables && insn in prefixTables[ClassOf(prefix, m)]
      ensures Best(env, insn, prefix, m) == Some(prefixTables[ClassOf(prefix, m)][insn])
    {
    }

    method RecordPlain(insn: Insn, k: nat)
      requires Valid() && Search(env, insn, NO_CRIS_PREFIX) == Some(k)
      modifies this
      ensures Valid()
    {
      hide Search, Best, ClassOf, NoAborts, SizesOk;
      opcTable := opcTable[insn := k];
    }

    /** The entry serves every prefix of the class. */
    method RecordPrefixed(insn: Insn, prefix: Insn, m: Insn, k: nat)
      requires Valid() && prefix != NO_CRIS_PREFIX && Best(env, insn, prefix, m) == Some(k)
      modifies this
      ensures Valid()
    {
      hide Search, Best, ClassOf, NoAborts, SizesOk;
      var c := ClassOf(prefix, m);
      AllTables(c);
      forall p: Insn, pm: Insn | p != NO_CRIS_PREFIX && ClassOf(p, pm) == c
        ensures Best(env, insn, p, pm) == Some(k)
      {
        ClassDecides(env, insn, p, pm, prefix, m);
      }
      var table: map<Insn, nat> := prefixTables[c];
      table := table[insn := k];
      prefixTables := prefixTables[c := table];
    }
  }

  lemma {:induction false} PlainSearch(env: Env, insn: Insn)
    ensures Search(env, insn, NO_CRIS_PREFIX) == Best(env, insn, NO_CRIS_PREFIX, NO_CRIS_PREFIX)
  {
  }

  /** What a look-up returns, without the search: for a prefix that is no instruction nothing; otherwise an entry that fits
      the instruction after that prefix, or nothing when no entry does. */
  lemma {:induction false} LookUpMeans(env: Env, insn: Insn, prefix: Insn)
    requires NoAborts(env)
    ensures var r := Search(env, insn, prefix);
            var p := Search(env, prefix, NO_CRIS_PREFIX);
            if prefix != NO_CRIS_PREFIX && p.None? then r.None?
            else
              && (prefix != NO_CRIS_PREFIX ==> p.value < |env.ops|)
              && var m := if prefix == NO_CRIS_PREFIX then NO_CRIS_PREFIX else env.ops[p.value].match_;
              && (r.Some? ==> r.value < |env.ops| && Fits(env, env.ops[r.value], insn, prefix, m))
              && (r.None? ==> forall op | op in env.ops :: !Fits(env, op, insn, prefix, m))
  {
    hide Search, Best, Fits;
    if prefix == NO_CRIS_PREFIX {
      PlainSearch(env, insn);
      FoundIff(env, insn, prefix, NO_CRIS_PREFIX);
    } else {
      PrefixedSearch(env, insn, prefix);
      var p := Search(env, prefix, NO_CRIS_PREFIX);
      if p.Some? {
        FoundIff(env, insn, prefix, env.ops[p.value].match_);
      }
    }
  }
}
