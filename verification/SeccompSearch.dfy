/** The search tree: balanced, ordered, and searched correctly. From the exact
    meaning `Descend` of the code to the policy it is meant to enforce. */
module SeccompSearch {
  import opened Words
  import opened SeccompPolicy
  import opened SeccompCode
  import opened SeccompLabels
  import opened SeccompMeaning

  // ----- shape of the tree -----

  ghost predicate Below(t: Tree, v: u64) {
    forall w :: w in Values(t) ==> w < v
  }

  ghost predicate Above(t: Tree, v: u64) {
    forall w :: w in Values(t) ==> w > v
  }

  ghost predicate Ordered(t: Tree) {
    t.Node? ==> Ordered(t.left) && Ordered(t.right) && Below(t.left, t.value) && Above(t.right, t.value)
  }

  function Depth(t: Tree): nat {
    if t.Nil? then 0 else 1 + if Depth(t.left) > Depth(t.right) then Depth(t.left) else Depth(t.right)
  }

  /** The tree holds exactly the numbers given, in search order. */
  lemma {:induction false} CreateBSTOrdered(s: seq<u64>)
    requires |s| > 0 && Ascending(s)
    ensures forall v :: v in Values(CreateBST(s)) <==> v in s
    ensures Ordered(CreateBST(s))
  {
    var i := |s| / 2;
    var l, r := s[..i], s[i + 1..];
    if i > 0 {
      CreateBSTOrdered(l);
    }
    if i + 1 < |s| {
      CreateBSTOrdered(r);
    }
    AroundMiddle(s, i);
    OrderedNode(CreateBST(s), l, s[i], r);
  }

  lemma AroundMiddle(s: seq<u64>, i: nat)
    requires Ascending(s) && i < |s|
    ensures var l, r := s[..i], s[i + 1..];
            && (forall v :: v in l ==> v < s[i]) && (forall v :: v in r ==> v > s[i])
            && (forall v :: v in s <==> v in l || v == s[i] || v in r)
  {
    assert s == s[..i] + [s[i]] + s[i + 1..];
  }

  lemma OrderedNode(t: Tree, l: seq<u64>, v: u64, r: seq<u64>)
    requires t.Node? && t.value == v && Ordered(t.left) && Ordered(t.right)
    requires forall w :: w in Values(t.left) <==> w in l
    requires forall w :: w in Values(t.right) <==> w in r
    requires (forall w :: w in l ==> w < v) && (forall w :: w in r ==> w > v)
    ensures Ordered(t) && forall w :: w in Values(t) <==> w in l || w == v || w in r
  {
  }

  /** A tree of `n` numbers has at most floor(log2(n)) + 1 levels. */
  lemma {:induction false} CreateBSTBalanced(s: seq<u64>)
    requires |s| > 0
    ensures Depth(CreateBST(s)) > 0 && Pow2(Depth(CreateBST(s)) - 1) <= |s|
  {
    var i := |s| / 2;
    if i > 0 {
      CreateBSTBalanced(s[..i]);
    }
    if i + 1 < |s| {
      CreateBSTBalanced(s[i + 1..]);
    }
  }

  lemma {:induction false} OrderedIsDistinct(t: Tree)
    requires Ordered(t)
    ensures Distinct(t)
  {
    if t.Node? {
      OrderedIsDistinct(t.left);
      OrderedIsDistinct(t.right);
    }
  }

  // ----- searching -----

  /** The code that follows the node of `key`, if the search reaches it. */
  function After(t: Tree, key: u64, rest: Forest): Forest {
    if t.Nil? then rest
    else if key == t.value then Children(t, rest)
    else if key > t.value then After(t.right, key, rest)
    else After(t.left, key, Then(t.right, rest))
  }

  ghost predicate AllBelow(t: Tree, bound: int) {
    forall v :: v in Values(t) ==> v < bound
  }

  /** With all numbers below 2^32 the descent is a search: it finds the key's
      node, if there is one, and otherwise ends in the default action. */
  lemma {:induction false} DescendSearches(t: Tree, rest: Forest, key: u32, sets: seq<RuleSet>, default: u32, b: Bytes)
    requires t.Node? && Ordered(t) && AllBelow(t, TWO32)
    ensures Descend(Then(t, rest), key, sets, default, b) ==
            if key !in Values(t) then default
            else
              match FirstMatch(sets, 0, key, Decode(b))
              case Act(a) => a
              case NoMatch =>
                if Emitted(sets, key) then Descend(After(t, key, rest), IpHigh(b), sets, default, b) else default
    decreases t
  {
    hide FirstMatch, Emitted, Decode, IpHigh;
    assert t.value in Values(t) && Low(t.value) == t.value;
    if key > t.value {
      assert key !in Values(t.left);
      if t.right.Node? {
        DescendSearches(t.right, rest, key, sets, default, b);
      }
    } else if key < t.value {
      assert key !in Values(t.right);
      if t.left.Node? {
        DescendSearches(t.left, Then(t.right, rest), key, sets, default, b);
      }
    }
  }

  // ----- the filter and the policy -----

  /** What the whole program returns on `b`. */
  ghost function Filter(t: Tree, sets: seq<RuleSet>, default: u32, b: Bytes): u32 {
    if U32At(b, 4) != AUDIT_ARCH_X86_64 then default
    else Descend(Then(t, Empty), U32At(b, 0), sets, default, b)
  }

  /** All system calls that some rule set mentions. */
  ghost function Syscalls(sets: seq<RuleSet>): set<u64> {
    set i, v | 0 <= i < |sets| && v in sets[i].rules :: v
  }

  /** The call reaches the end of its rule sets, the last of which is a blanket one. */
  ghost predicate FallsThrough(sets: seq<RuleSet>, d: Data)
    requires |d.args| == 6
  {
    d.arch == AUDIT_ARCH_X86_64 && FirstMatch(sets, 0, d.nr, d).NoMatch? && Emitted(sets, d.nr)
  }

  lemma {:induction false} MatchNeedsKey(sets: seq<RuleSet>, from: nat, sysno: u64, d: Data)
    requires |d.args| == 6 && from <= |sets| && FirstMatch(sets, from, sysno, d).Act?
    ensures sysno in Syscalls(sets)
    decreases |sets| - from
  {
    if !Applies(sets[from], sysno, d) {
      MatchNeedsKey(sets, from + 1, sysno, d);
    }
  }

  lemma DecodeFields(b: Bytes)
    ensures Decode(b).nr == U32At(b, 0) && Decode(b).arch == U32At(b, 4)
  {
  }

  /** The filter decides as the policy says on every call that does not fall
      through. A call that does is due the default action, and gets whatever
      the code after its node makes of the high word of its instruction pointer. */
  lemma FilterDecides(t: Tree, sets: seq<RuleSet>, default: u32, b: Bytes)
    requires t.Node? && Ordered(t) && AllBelow(t, TWO32) && Values(t) == Syscalls(sets)
    ensures !FallsThrough(sets, Decode(b)) ==> Filter(t, sets, default, b) == Policy(sets, default, Decode(b))
    ensures FallsThrough(sets, Decode(b)) ==>
              && Policy(sets, default, Decode(b)) == default
              && Filter(t, sets, default, b) ==
                 Descend(After(t, Decode(b).nr, Empty), IpHigh(b), sets, default, b)
  {
    hide FirstMatch, Emitted, IpHigh, Decode, Descend;
    var d := Decode(b);
    DecodeFields(b);
    DescendSearches(t, Empty, d.nr, sets, default, b);
    if FirstMatch(sets, 0, d.nr, d).Act? {
      MatchNeedsKey(sets, 0, d.nr, d);
    }
    if Emitted(sets, d.nr) {
      EmittedIsKey(sets, d.nr);
    }
  }

  lemma EmittedIsKey(sets: seq<RuleSet>, sysno: u64)
    requires Emitted(sets, sysno)
    ensures sysno in Syscalls(sets)
  {
  }

  /** No rule set gives a system call a blanket action for vsyscalls only. */
  ghost predicate NoVsyscallBlanket(sets: seq<RuleSet>) {
    forall i, v :: 0 <= i < |sets| && Blanket(sets[i], v) ==> !sets[i].vsyscall
  }

  lemma {:induction false} BlanketActs(sets: seq<RuleSet>, from: nat, i: nat, sysno: u64, d: Data)
    requires |d.args| == 6 && from <= i < |sets| && Blanket(sets[i], sysno)
    requires sets[i].vsyscall ==> FromVsyscall(d)
    ensures FirstMatch(sets, from, sysno, d).Act?
    decreases i - from
  {
    if from < i {
      BlanketActs(sets, from + 1, i, sysno, d);
    } else {
      assert Applies(sets[i], sysno, d);
    }
  }

  lemma NothingFallsThrough(sets: seq<RuleSet>, d: Data)
    requires |d.args| == 6 && NoVsyscallBlanket(sets)
    ensures !FallsThrough(sets, d)
  {
    if Emitted(sets, d.nr) {
      var i :| 0 <= i < |sets| && Blanket(sets[i], d.nr);
      BlanketActs(sets, 0, i, d.nr, d);
    }
  }
}
