/** When a listing links: a structural reading of "every jump is forward and near
    enough" that composes with concatenation, and its equivalence with the
    line-number reading that the linker checks. */
module Placement {
  import opened Assembler

  /** Every reference is to a label marked further down the listing, or in `ext`. */
  ghost predicate Closed<L(!new)>(items: seq<Item<L>>, ext: set<L>) {
    items == [] || (Closed(items[1..], ext) && (items[0].Code? ==> Labels(items[0].insn) <= Marked(items[1..]) + ext))
  }

  ghost function CondLabels<L(!new)>(i: Item<L>): set<L> {
    if i.Code? && i.insn.Plain? then Labels(i.insn) else {}
  }

  /** Every conditional reference is to a label marked further down this same listing. */
  ghost predicate CondClosed<L(!new)>(items: seq<Item<L>>) {
    items == [] || (CondClosed(items[1..]) && CondLabels(items[0]) <= Marked(items[1..]))
  }

  /** The number of instructions before the first mark of `l`. */
  ghost function LinesTo<L(!new)>(items: seq<Item<L>>, l: L): nat {
    if items == [] then 0
    else if items[0].Code? then 1 + LinesTo(items[1..], l)
    else if items[0].name == l then 0
    else LinesTo(items[1..], l)
  }

  /** Every conditional reference is at most 255 instructions away. */
  ghost predicate Near<L(!new)>(items: seq<Item<L>>) {
    items == [] || (Near(items[1..]) && forall l :: l in CondLabels(items[0]) ==> LinesTo(items[1..], l) <= 0xff)
  }

  lemma {:induction false} ClosedAppend<L(!new)>(a: seq<Item<L>>, b: seq<Item<L>>, ext: set<L>)
    ensures Closed(a + b, ext) <==> Closed(a, Marked(b) + ext) && Closed(b, ext)
  {
    if a == [] {
      assert a + b == b;
    } else {
      assert (a + b)[1..] == a[1..] + b;
      ClosedAppend(a[1..], b, ext);
      MarkedAppend(a[1..], b);
    }
  }

  lemma {:induction false} ClosedMonotone<L(!new)>(items: seq<Item<L>>, ext: set<L>, ext': set<L>)
    requires Closed(items, ext) && ext <= ext'
    ensures Closed(items, ext')
  {
    if items != [] {
      ClosedMonotone(items[1..], ext, ext');
    }
  }

  lemma {:induction false} LinesToAppend<L(!new)>(a: seq<Item<L>>, b: seq<Item<L>>, l: L)
    requires l in Marked(a)
    ensures LinesTo(a + b, l) == LinesTo(a, l)
  {
    assert (a + b)[1..] == a[1..] + b;
    if a[0].Code? || a[0].name != l {
      LinesToAppend(a[1..], b, l);
    }
  }

  lemma {:induction false} NearAppend<L(!new)>(a: seq<Item<L>>, b: seq<Item<L>>)
    requires CondClosed(a) && CondClosed(b)
    ensures CondClosed(a + b)
    ensures Near(a + b) <==> Near(a) && Near(b)
  {
    if a == [] {
      assert a + b == b;
    } else {
      assert (a + b)[1..] == a[1..] + b;
      NearAppend(a[1..], b);
      MarkedAppend(a[1..], b);
      forall l | l in CondLabels(a[0]) ensures LinesTo(a[1..] + b, l) == LinesTo(a[1..], l) {
        LinesToAppend(a[1..], b, l);
      }
    }
  }

  lemma {:induction false} TargetIsLinesTo<L(!new)>(items: seq<Item<L>>, base: nat, l: L)
    requires MarkedOnce(items) && l in Marked(items)
    ensures l in TargetsFrom(items, base) && TargetsFrom(items, base)[l] == base + LinesTo(items, l)
  {
    TargetsKeys(items, base);
    if items[0].Code? {
      TargetIsLinesTo(items[1..], base + 1, l);
    } else if items[0].name != l {
      TargetIsLinesTo(items[1..], base, l);
    }
  }

  /** In a closed listing a reference on `line` is to a later line, and a near one
      if the listing is near. */
  lemma {:induction false} UsesPlaced<L(!new)>(items: seq<Item<L>>, base: nat, line: nat, slot: Slot, l: L)
    requires MarkedOnce(items) && Closed(items, {})
    requires line < |CodeOf(items)| && LabelAt(CodeOf(items)[line], slot) == To(l)
    ensures l in TargetsFrom(items, base) && TargetsFrom(items, base)[l] > base + line
    ensures Near(items) && slot != OnJump ==> TargetsFrom(items, base)[l] - (base + line) - 1 <= 0xff
  {
    var rest := items[1..];
    if items[0].Mark? {
      UsesPlaced(rest, base, line, slot, l);
      TargetsKeys(rest, base);
    } else if line > 0 {
      UsesPlaced(rest, base + 1, line - 1, slot, l);
    } else {
      assert l in Labels(items[0].insn);
      TargetIsLinesTo(rest, base + 1, l);
    }
  }

  /** Conversely, near offsets make a near listing. */
  lemma {:induction false} OffsetsAreNear<L(!new)>(items: seq<Item<L>>, base: nat)
    requires MarkedOnce(items) && Closed(items, {})
    requires forall line: nat, slot, l | line < |CodeOf(items)| && slot != OnJump ::
               LabelAt(CodeOf(items)[line], slot) == To(l) && l in TargetsFrom(items, base) ==>
                 TargetsFrom(items, base)[l] - (base + line) - 1 <= 0xff
    ensures Near(items)
  {
    if items != [] {
      var rest := items[1..];
      var base' := if items[0].Mark? then base else base + 1;
      TargetsKeys(rest, base');
      forall line: nat, slot, l |
        line < |CodeOf(rest)| && slot != OnJump && LabelAt(CodeOf(rest)[line], slot) == To(l)
        && l in TargetsFrom(rest, base')
        ensures TargetsFrom(rest, base')[l] - (base' + line) - 1 <= 0xff
      {
        var line' := if items[0].Mark? then line else line + 1;
        assert CodeOf(items)[line'] == CodeOf(rest)[line];
        assert TargetsFrom(items, base)[l] == TargetsFrom(rest, base')[l];
      }
      OffsetsAreNear(rest, base');
      forall l | l in CondLabels(items[0]) ensures LinesTo(rest, l) <= 0xff {
        TargetIsLinesTo(rest, base', l);
        var slot := if items[0].insn.jt == To(l) then OnTrue else OnFalse;
        assert LabelAt(CodeOf(items)[0], slot) == To(l);
      }
    }
  }

  lemma {:induction false} TargetsBeforeEnd<L(!new)>(items: seq<Item<L>>, base: nat, l: L)
    requires items != [] && items[|items| - 1].Code? && l in TargetsFrom(items, base)
    ensures TargetsFrom(items, base)[l] < base + |CodeOf(items)|
  {
    TargetsKeys(items, base);
    if |items| > 1 {
      TargetsKeys(items[1..], base);
      TargetsKeys(items[1..], base + 1);
      if items[0].Code? {
        TargetsBeforeEnd(items[1..], base + 1, l);
      } else if items[0].name != l {
        TargetsBeforeEnd(items[1..], base, l);
      }
      if items[0].Mark? {
        LastCode(items[1..]);
      }
    }
  }

  lemma {:induction false} LastCode<L(!new)>(items: seq<Item<L>>)
    requires items != [] && items[|items| - 1].Code?
    ensures |CodeOf(items)| > 0
  {
    if items[0].Mark? {
      LastCode(items[1..]);
    }
  }

  /** A closed listing that ends in code has only forward jumps. */
  lemma ClosedIsForward<L(!new)>(items: seq<Item<L>>)
    requires MarkedOnce(items) && Closed(items, {})
    requires items != [] && items[|items| - 1].Code?
    ensures Forward(Assemble(items))
  {
    var s := Assemble(items);
    forall line: nat, slot, l | JumpsTo(s, line, slot, l)
      ensures l in s.targets && line < s.targets[l] < |s.code|
    {
      UsesPlaced(items, 0, line, slot, l);
      TargetsBeforeEnd(items, 0, l);
    }
  }

  /** The offsets fit exactly when the listing is near and the direct jumps fit. */
  lemma FitsIsNear<L(!new)>(items: seq<Item<L>>)
    requires MarkedOnce(items) && Closed(items, {})
    requires forall line: nat, l :: JumpsTo(Assemble(items), line, OnJump, l) && l in Assemble(items).targets ==>
               Assemble(items).targets[l] - line - 1 <= Limit(OnJump)
    ensures Fits(Assemble(items)) <==> Near(items)
  {
    var s := Assemble(items);
    if Near(items) {
      forall line: nat, slot, l | JumpsTo(s, line, slot, l) && l in s.targets
        ensures s.targets[l] - line - 1 <= Limit(slot)
      {
        UsesPlaced(items, 0, line, slot, l);
      }
    }
    if Fits(s) {
      forall line: nat, slot, l | line < |CodeOf(items)| && slot != OnJump && LabelAt(CodeOf(items)[line], slot) == To(l)
                                  && l in TargetsFrom(items, 0)
        ensures TargetsFrom(items, 0)[l] - line - 1 <= 0xff
      {
        assert JumpsTo(s, line, slot, l);
      }
      OffsetsAreNear(items, 0);
    }
  }

  /** Marks are unique, references closed up to `ext`, conditional ones closed. */
  ghost predicate WellPlaced<L(!new)>(items: seq<Item<L>>, ext: set<L>) {
    MarkedOnce(items) && Closed(items, ext) && CondClosed(items)
  }

  lemma WellPlacedAppend<L(!new)>(a: seq<Item<L>>, b: seq<Item<L>>, ext: set<L>)
    requires WellPlaced(a, Marked(b) + ext) && WellPlaced(b, ext) && Marked(a) !! Marked(b)
    ensures WellPlaced(a + b, ext)
    ensures Near(a + b) <==> Near(a) && Near(b)
    ensures Marked(a + b) == Marked(a) + Marked(b)
  {
    MarkedAppend(a, b);
    ClosedAppend(a, b, ext);
    NearAppend(a, b);
  }
}
