/** The source language of the filter compiler: rule sets over system calls, and
    the decision they describe for one `seccomp_data`. */
module SeccompPolicy {
  import opened Words
  import Bpf

  const AUDIT_ARCH_X86_64: u32 := 0xc000_003e

  /** One entry of `Rule [6]interface{}`: nil, the two known matchers, or a value of another type. */
  datatype Arg = Unset | AllowAny | AllowValue(value: u64) | Unknown

  type Rule = r: seq<Arg> | |r| == 6 witness [Unset, Unset, Unset, Unset, Unset, Unset]

  /** The zero `Rule{}`: every argument is allowed. */
  const ANY_RULE: Rule := [Unset, Unset, Unset, Unset, Unset, Unset]

  type SyscallRules = map<u64, seq<Rule>>

  datatype RuleSet = RuleSet(rules: SyscallRules, action: u32, vsyscall: bool)

  /** `struct seccomp_data`. */
  datatype Data = Data(nr: u32, arch: u32, ip: u64, args: seq<u64>)

  type Bytes = b: seq<u8> | |b| == 64 witness seq(64, _ => 0)

  function U32At(b: Bytes, off: nat): u32
    requires off + 4 <= 64
  {
    Bpf.Word32(b[off], b[off + 1], b[off + 2], b[off + 3])
  }

  function U64At(b: Bytes, off: nat): u64
    requires off + 8 <= 64
  {
    U32At(b, off) + TWO32 * U32At(b, off + 4)
  }

  /** The little-endian layout of `struct seccomp_data`. */
  function Decode(b: Bytes): (d: Data)
    ensures |d.args| == 6
  {
    Data(U32At(b, 0), U32At(b, 4), U64At(b, 8),
         [U64At(b, 16), U64At(b, 24), U64At(b, 32), U64At(b, 40), U64At(b, 48), U64At(b, 56)])
  }

  /** All six arguments pass; only `AllowValue` constrains one. */
  ghost predicate Matches(r: Rule, args: seq<u64>)
    requires |args| == 6
  {
    forall i :: 0 <= i < 6 && r[i].AllowValue? ==> args[i] == r[i].value
  }

  /** An empty rule list allows any arguments; otherwise some rule must match. */
  ghost predicate Allowed(rules: seq<Rule>, args: seq<u64>)
    requires |args| == 6
  {
    rules == [] || exists i :: 0 <= i < |rules| && Matches(rules[i], args)
  }

  /** The call came from the kernel half of the address space. */
  predicate FromVsyscall(d: Data) {
    d.ip >= 0x8000_0000_0000_0000
  }

  /** Rule set `rs` covers system call `sysno` with the arguments and caller of `d`. */
  ghost predicate Applies(rs: RuleSet, sysno: u64, d: Data)
    requires |d.args| == 6
  {
    && sysno in rs.rules
    && (rs.vsyscall ==> FromVsyscall(d))
    && Allowed(rs.rules[sysno], d.args)
  }

  datatype Decision = Act(action: u32) | NoMatch

  /** The first rule set that applies, from the `from`-th on. */
  ghost function FirstMatch(sets: seq<RuleSet>, from: nat, sysno: u64, d: Data): Decision
    requires |d.args| == 6 && from <= |sets|
    decreases |sets| - from
  {
    if from == |sets| then NoMatch
    else if Applies(sets[from], sysno, d) then Act(sets[from].action)
    else FirstMatch(sets, from + 1, sysno, d)
  }

  /** What the filter is for: the first rule set that covers the call decides,
      and everything else gets the default action. */
  ghost function Policy(sets: seq<RuleSet>, default: u32, d: Data): u32
    requires |d.args| == 6
  {
    if d.arch != AUDIT_ARCH_X86_64 then default
    else
      match FirstMatch(sets, 0, d.nr, d)
      case Act(a) => a
      case NoMatch => default
  }

  // ----- building rule maps -----

  ghost predicate Permits(rules: SyscallRules, sysno: u64, args: seq<u64>)
    requires |args| == 6
  {
    sysno in rules && Allowed(rules[sysno], args)
  }

  /** Appending to a list that may be the empty, allow-all list. */
  function Appended(cur: seq<Rule>, more: seq<Rule>): seq<Rule> {
    (if cur == [] then [ANY_RULE] else cur) + (if more == [] then [ANY_RULE] else more)
  }

  lemma AppendedAllows(cur: seq<Rule>, more: seq<Rule>, args: seq<u64>)
    requires |args| == 6
    ensures Allowed(Appended(cur, more), args) <==> Allowed(cur, args) || Allowed(more, args)
  {
    var c := if cur == [] then [ANY_RULE] else cur;
    var m := if more == [] then [ANY_RULE] else more;
    assert Matches(ANY_RULE, args);
    assert Allowed(c, args) <==> Allowed(cur, args) by {
      if cur == [] { assert Matches(c[0], args); }
    }
    assert Allowed(m, args) <==> Allowed(more, args) by {
      if more == [] { assert Matches(m[0], args); }
    }
    if Allowed(c, args) {
      var i :| 0 <= i < |c| && Matches(c[i], args);
      assert (c + m)[i] == c[i];
    }
    if Allowed(m, args) {
      var i :| 0 <= i < |m| && Matches(m[i], args);
      assert (c + m)[|c| + i] == m[i];
    }
  }

  /** The rule map, changed in place by `AddRule` and `Merge`. */
  class RuleTable {
    var rules: SyscallRules

    constructor ()
      ensures rules == map[]
    {
      rules := map[];
    }

    /** Permits exactly what was permitted before, and what `r` matches on `sysno`. */
    method AddRule(sysno: u64, r: Rule)
      modifies this
      ensures rules.Keys == old(rules).Keys + {sysno}
      ensures forall s: u64 :: s in old(rules) && s != sysno ==> rules[s] == old(rules)[s]
      ensures forall args: seq<u64> :: |args| == 6 ==>
                (Permits(rules, sysno, args) <==> Permits(old(rules), sysno, args) || Matches(r, args))
    {
      if sysno in rules {
        var cur := rules[sysno];
        forall args: seq<u64> | |args| == 6
          ensures Allowed(Appended(cur, [r]), args) <==> Allowed(cur, args) || Matches(r, args)
        {
          AppendedAllows(cur, [r], args);
          assert Allowed([r], args) <==> Matches([r][0], args);
        }
        if |cur| == 0 {
          rules := rules[sysno := rules[sysno] + [ANY_RULE]];
        }
        rules := rules[sysno := rules[sysno] + [r]];
        assert rules[sysno] == Appended(cur, [r]);
      } else {
        rules := rules[sysno := [r]];
        assert forall args: seq<u64> :: |args| == 6 ==> (Allowed([r], args) <==> Matches([r][0], args));
      }
    }

    /** Permits, for `sysno`, what was permitted before and what `rs` permits. */
    method MergeOne(sysno: u64, rs: seq<Rule>)
      modifies this
      ensures rules.Keys == old(rules).Keys + {sysno}
      ensures forall s: u64 :: s in old(rules) && s != sysno ==> rules[s] == old(rules)[s]
      ensures forall args: seq<u64> :: |args| == 6 ==>
                (Permits(rules, sysno, args) <==> Permits(old(rules), sysno, args) || Allowed(rs, args))
    {
      hide Allowed;
      if sysno in rules {
        var cur := rules[sysno];
        forall args: seq<u64> | |args| == 6
          ensures Allowed(Appended(cur, rs), args) <==> Allowed(cur, args) || Allowed(rs, args)
        {
          AppendedAllows(cur, rs, args);
        }
        if |cur| == 0 {
          rules := rules[sysno := rules[sysno] + [ANY_RULE]];
        }
        rules := rules[sysno := rules[sysno] + (if |rs| == 0 then [ANY_RULE] else rs)];
        assert rules[sysno] == Appended(cur, rs);
      } else {
        rules := rules[sysno := rs];
      }
    }

    /** Permits the union of what the two maps permit, for every syscall and arguments. */
    method Merge(other: SyscallRules)
      modifies this
      ensures rules.Keys == old(rules).Keys + other.Keys
      ensures forall s: u64, args: seq<u64> :: |args| == 6 ==>
                (Permits(rules, s, args) <==> Permits(old(rules), s, args) || Permits(other, s, args))
    {
      var todo := other.Keys;
      while todo != {}
        invariant todo <= other.Keys
        invariant rules.Keys == old(rules).Keys + (other.Keys - todo)
        invariant forall s: u64 :: s in todo && s in rules ==> s in old(rules) && rules[s] == old(rules)[s]
        invariant forall s: u64, args: seq<u64> :: |args| == 6 && s !in todo ==>
                    (Permits(rules, s, args) <==> Permits(old(rules), s, args) || Permits(other, s, args))
      {
        var sysno :| sysno in todo;
        MergeOne(sysno, other[sysno]);
        todo := todo - {sysno};
      }
    }
  }
}
