/** The builder object: an instruction slice and a label table that grow with
    every call, and the linker that patches the slice in place. */
module ProgramBuilders {
  import opened Words
  import opened Bpf
  import opened Assembler

  /** What the label table records about `l`: its references and its line. */
  ghost function Info<L>(items: seq<Item<L>>, l: L): LabelInfo {
    var t := TargetsFrom(items, 0);
    LabelInfo(SourcesFrom(CodeOf(items), l), if l in t then t[l] else -1)
  }

  /** The builder's two fields represent the listing. */
  ghost predicate Represents<L>(items: seq<Item<L>>, insns: seq<Insn>, labels: map<L, LabelInfo>) {
    var code := CodeOf(items);
    && MarkedOnce(items)
    && Marked(items) <= Used(items)
    && |insns| == |code|
    && (forall i :: 0 <= i < |code| ==> insns[i] == PlaceholderInsn(code[i]))
    && labels.Keys == Used(items)
    && forall l :: l in labels ==> labels[l] == Info(items, l)
  }

  /** The label table after `l` gained the references `more`. */
  ghost function Extended<L>(labels: map<L, LabelInfo>, l: L, more: seq<Source>): LabelInfo {
    if l in labels then labels[l].(sources := labels[l].sources + more) else LabelInfo(more, -1)
  }

  /** Appending an instruction together with its references keeps the representation. */
  lemma CodeAppended<L>(items: seq<Item<L>>, insns: seq<Insn>, labels: map<L, LabelInfo>,
                        i: SymInsn<L>, labels': map<L, LabelInfo>)
    requires Represents(items, insns, labels)
    requires labels'.Keys == labels.Keys + Labels(i)
    requires forall l :: l in labels' ==> labels'[l] == Extended(labels, l, Uses(i, l, |insns|))
    ensures Represents(items + [Code(i)], insns + [PlaceholderInsn(i)], labels')
  {
    CodeOfAppend(items, [Code(i)]);
    UsedAppend(items, [Code(i)]);
    MarkedAppend(items, [Code(i)]);
    assert CodeOf([Code(i)]) == [i];
    assert Used([Code(i)]) == Labels(i);
    hide TargetsFrom, SourcesFrom, Used, Marked, MarkedOnce, Uses, Labels;
    forall l | l in labels' ensures labels'[l] == Info(items + [Code(i)], l) {
      InfoAppended(items, i, l);
      if l !in labels {
        UnusedInfo(items, l);
      }
    }
  }

  lemma InfoAppended<L>(items: seq<Item<L>>, i: SymInsn<L>, l: L)
    requires MarkedOnce(items)
    ensures Info(items + [Code(i)], l) ==
            Info(items, l).(sources := Info(items, l).sources + Uses(i, l, |CodeOf(items)|))
  {
    var c := [Code(i)];
    CodeOfAppend(items, c);
    MarkedAppend(items, c);
    TargetsAppend(items, c, 0);
    assert CodeOf(c) == [i];
    assert CodeOf(items + c)[..|CodeOf(items + c)| - 1] == CodeOf(items);
  }

  lemma UnusedInfo<L>(items: seq<Item<L>>, l: L)
    requires Marked(items) <= Used(items) && l !in Used(items)
    ensures Info(items, l) == LabelInfo([], -1)
  {
    UsedIsJumpedTo(items, l);
    TargetsKeys(items, 0);
  }

  lemma MarkAppended<L>(items: seq<Item<L>>, insns: seq<Insn>, labels: map<L, LabelInfo>, name: L)
    requires Represents(items, insns, labels)
    requires name in Used(items) && name !in Marked(items)
    ensures Represents(items + [Mark(name)], insns, labels[name := labels[name].(target := |insns|)])
  {
    var m: seq<Item<L>> := [Mark(name)];
    CodeOfAppend(items, m);
    UsedAppend(items, m);
    assert Marked(m) == {name} && MarkedOnce(m);
    MarkedAppend(items, m);
    TargetsAppend(items, m, 0);
    assert TargetsFrom(m, |CodeOf(items)|) == map[name := |CodeOf(items)|];
    assert CodeOf(items + m) == CodeOf(items) && Used(items + m) == Used(items);
    assert Marked(items + m) == Marked(items) + {name};
  }

  lemma {:induction false} LiteralFacts<L>(p: seq<Insn>, n: nat)
    requires n <= |p|
    ensures Marked(Literal<L>(p)[n..]) == {} && Used(Literal<L>(p)[n..]) == {} && MarkedOnce(Literal<L>(p)[n..])
    ensures |CodeOf(Literal<L>(p)[n..])| == |p| - n
    ensures forall i :: n <= i < |p| ==> PlaceholderInsn(CodeOf(Literal<L>(p)[n..])[i - n]) == p[i]
    decreases |p| - n
  {
    if n < |p| {
      LiteralFacts<L>(p, n + 1);
      var items := Literal<L>(p)[n..];
      assert items[1..] == Literal<L>(p)[n + 1..];
      assert items[0] == Jump<L>(p[n].op, p[n].k, p[n].jt, p[n].jf);
    }
  }

  lemma LiteralRepresented<L>(p: seq<Insn>)
    ensures Represents(Literal<L>(p), p, map[])
  {
    LiteralFacts<L>(p, 0);
    assert Literal<L>(p)[0..] == Literal<L>(p);
  }

  /** What the label table says, in terms of the symbolic program. */
  lemma SourceFacts<L(!new)>(items: seq<Item<L>>, insns: seq<Insn>, labels: map<L, LabelInfo>, l: L)
    requires Represents(items, insns, labels) && l in labels
    ensures forall s :: s in labels[l].sources <==> JumpsTo(Assemble(items), s.line, s.slot, l)
    ensures labels[l].target == -1 <==> l !in Assemble(items).targets
    ensures l in Assemble(items).targets ==> labels[l].target == Assemble(items).targets[l]
    ensures labels[l].sources != []
    ensures forall i, j :: 0 <= i < j < |labels[l].sources| ==> labels[l].sources[i] != labels[l].sources[j]
  {
    forall s ensures s in labels[l].sources <==> JumpsTo(Assemble(items), s.line, s.slot, l) {
      SourcesAreUses(CodeOf(items), l, s);
    }
    SourcesDistinct(CodeOf(items), l);
    UsedIsJumpedTo(items, l);
  }

  lemma LabelsAreUsed<L(!new)>(items: seq<Item<L>>, line: nat, slot: Slot, l: L)
    requires JumpsTo(Assemble(items), line, slot, l)
    ensures l in Used(items)
  {
    SourcesAreUses(CodeOf(items), l, Source(line, slot));
    UsedIsJumpedTo(items, l);
  }

  /** Reference `s` to `l` is forward, in range and near enough. */
  ghost predicate SourceDone<L(!new)>(sym: Symbolic<L>, l: L, s: Source) {
    l in sym.targets && s.line < sym.targets[l] < |sym.code| && sym.targets[l] - s.line - 1 <= Limit(s.slot)
  }

  ghost predicate LabelDone<L(!new)>(sym: Symbolic<L>, l: L) {
    forall line: nat, slot :: JumpsTo(sym, line, slot, l) ==> SourceDone(sym, l, Source(line, slot))
  }

  /** Linking under way: the slots in `patched` hold their offsets, the others
      still hold the placeholder. */
  ghost predicate Progress<L(!new)>(sym: Symbolic<L>, insns: seq<Insn>, patched: set<Source>)
    requires Forward(sym) && Fits(sym)
  {
    && |insns| == |sym.code|
    && forall line: nat, slot :: line < |insns| ==> SlotProgress(sym, insns[line], line, slot, patched)
  }

  ghost predicate SlotProgress<L(!new)>(sym: Symbolic<L>, i: Insn, line: nat, slot: Slot, patched: set<Source>)
    requires Forward(sym) && Fits(sym) && line < |sym.code|
  {
    && i.op == OpOf(sym.code[line])
    && GetSlot(i, slot) ==
       GetSlot(if Source(line, slot) in patched then ResolveInsn(sym, line) else PlaceholderInsn(sym.code[line]), slot)
  }

  lemma PatchStep<L(!new)>(sym: Symbolic<L>, insns: seq<Insn>, patched: set<Source>, l: L, s: Source)
    requires Forward(sym) && Fits(sym) && Progress(sym, insns, patched)
    requires JumpsTo(sym, s.line, s.slot, l) && s !in patched
    ensures GetSlot(insns[s.line], s.slot) == Limit(s.slot)
    ensures SourceDone(sym, l, s)
    ensures Progress(sym, insns[s.line := SetSlot(insns[s.line], s.slot, sym.targets[l] - s.line - 1)], patched + {s})
  {
    assert SlotProgress(sym, insns[s.line], s.line, s.slot, patched);
    var i := SetSlot(insns[s.line], s.slot, sym.targets[l] - s.line - 1);
    var insns' := insns[s.line := i];
    forall line: nat, slot | line < |insns| ensures SlotProgress(sym, insns'[line], line, slot, patched + {s}) {
      assert SlotProgress(sym, insns[line], line, slot, patched);
    }
  }

  /** When every reference is patched the code is the linked program. */
  lemma AllPatched<L(!new)>(sym: Symbolic<L>, insns: seq<Insn>, patched: set<Source>)
    requires Forward(sym) && Fits(sym) && Progress(sym, insns, patched)
    requires forall line: nat, slot, l :: JumpsTo(sym, line, slot, l) ==> Source(line, slot) in patched
    ensures insns == Resolve(sym)
  {
    forall line: nat | line < |insns| ensures insns[line] == ResolveInsn(sym, line) {
      forall slot ensures GetSlot(insns[line], slot) == GetSlot(ResolveInsn(sym, line), slot) {
        assert SlotProgress(sym, insns[line], line, slot, patched);
        match LabelAt(sym.code[line], slot) {
          case To(l) => assert JumpsTo(sym, line, slot, l);
          case Offset(_) =>
        }
      }
      assert SlotProgress(sym, insns[line], line, OnTrue, patched);
      assert GetSlot(insns[line], OnTrue) == GetSlot(ResolveInsn(sym, line), OnTrue);
      assert GetSlot(insns[line], OnFalse) == GetSlot(ResolveInsn(sym, line), OnFalse);
      assert GetSlot(insns[line], OnJump) == GetSlot(ResolveInsn(sym, line), OnJump);
    }
  }

  lemma OneLabelPerSlot<L(!new)>(sym: Symbolic<L>, s: Source, k: L, l: L)
    requires JumpsTo(sym, s.line, s.slot, k) && JumpsTo(sym, s.line, s.slot, l)
    ensures k == l
  {
  }

  lemma NothingPatched<L(!new)>(items: seq<Item<L>>, insns: seq<Insn>, labels: map<L, LabelInfo>)
    requires Represents(items, insns, labels)
    ensures |insns| == |Assemble(items).code|
    ensures Forward(Assemble(items)) && Fits(Assemble(items)) ==> Progress(Assemble(items), insns, {})
  {
    var sym := Assemble(items);
    if Forward(sym) && Fits(sym) {
      forall line: nat, slot | line < |insns| ensures SlotProgress(sym, insns[line], line, slot, {}) {
        assert insns[line] == PlaceholderInsn(sym.code[line]);
      }
    }
  }

  /** With every label done, the program links, and every jump is patched. */
  lemma AllDone<L(!new)>(items: seq<Item<L>>, insns: seq<Insn>, table: map<L, LabelInfo>, sym: Symbolic<L>, patched: set<Source>)
    requires Represents(items, insns, table) && sym == Assemble(items) && forall l :: l in table ==> LabelDone(sym, l)
    requires forall l, s :: l in table && s in table[l].sources ==> s in patched
    ensures Forward(sym) && Fits(sym) && forall line: nat, slot, l :: JumpsTo(sym, line, slot, l) ==> Source(line, slot) in patched
  {
    forall line: nat, slot, l | JumpsTo(sym, line, slot, l)
      ensures SourceDone(sym, l, Source(line, slot)) && Source(line, slot) in patched
    {
      LabelsAreUsed(items, line, slot, l);
      SourceFacts(items, insns, table, l);
      assert Source(line, slot) in table[l].sources;
    }
  }

  class ProgramBuilder<L(==, !new)> {
    var labels: map<L, LabelInfo>
    var instructions: seq<Insn>

    /** The calls so far, as a listing. */
    ghost var listing: seq<Item<L>>

    ghost predicate Valid()
      reads this
    {
      Represents(listing, instructions, labels)
    }

    constructor ()
      ensures Valid() && listing == []
    {
      labels := map[];
      instructions := [];
      listing := [];
    }

    method AddLabelSource(name: L, slot: Slot)
      modifies this`labels
      ensures labels == old(labels)[name := Extended(old(labels), name, [Source(|instructions|, slot)])]
    {
      if name !in labels {
        labels := labels[name := LabelInfo([], -1)];
      }
      var s := Source(|instructions|, slot);
      labels := labels[name := labels[name].(sources := labels[name].sources + [s])];
      assert name !in old(labels) ==> [] + [s] == [s];
    }

    method AddJump(op: bv16, k: u32, jt: u8, jf: u8)
      requires Valid()
      modifies this
      ensures Valid() && listing == old(listing) + [Jump<L>(op, k, jt, jf)]
    {
      hide Represents;
      CodeAppended(listing, instructions, labels, Plain(op, k, Offset(jt), Offset(jf)), labels);
      instructions := instructions + [Insn(op, jt, jf, k)];
      listing := listing + [Jump<L>(op, k, jt, jf)];
    }

    method AddStmt(op: bv16, k: u32)
      requires Valid()
      modifies this
      ensures Valid() && listing == old(listing) + [Stmt<L>(op, k)]
    {
      AddJump(op, k, 0, 0);
    }

    method AddDirectJumpLabel(name: L)
      requires Valid()
      modifies this
      ensures Valid() && listing == old(listing) + [Code(Goto(name))]
    {
      hide Represents;
      AddLabelSource(name, OnJump);
      CodeAppended(listing, instructions, old(labels), Goto(name), labels);
      instructions := instructions + [Insn(JMP | JA, 0, 0, 0xffff_ffff)];
      listing := listing + [Code(Goto(name))];
    }

    method AddJumpTrueLabel(op: bv16, k: u32, name: L, jf: u8)
      requires Valid()
      modifies this
      ensures Valid() && listing == old(listing) + [JumpTrue(op, k, name, jf)]
    {
      hide Represents;
      AddLabelSource(name, OnTrue);
      CodeAppended(listing, instructions, old(labels), Plain(op, k, To(name), Offset(jf)), labels);
      instructions := instructions + [Insn(op, 0xff, jf, k)];
      listing := listing + [JumpTrue(op, k, name, jf)];
    }

    method AddJumpFalseLabel(op: bv16, k: u32, jt: u8, name: L)
      requires Valid()
      modifies this
      ensures Valid() && listing == old(listing) + [JumpFalse(op, k, jt, name)]
    {
      hide Represents;
      AddLabelSource(name, OnFalse);
      CodeAppended(listing, instructions, old(labels), Plain(op, k, Offset(jt), To(name)), labels);
      instructions := instructions + [Insn(op, jt, 0xff, k)];
      listing := listing + [JumpFalse(op, k, jt, name)];
    }

    method AddJumpLabels(op: bv16, k: u32, jtName: L, jfName: L)
      requires Valid()
      modifies this
      ensures Valid() && listing == old(listing) + [Code(Plain(op, k, To(jtName), To(jfName)))]
    {
      hide Represents;
      AddLabelSource(jtName, OnTrue);
      AddLabelSource(jfName, OnFalse);
      CodeAppended(listing, instructions, old(labels), Plain(op, k, To(jtName), To(jfName)), labels);
      instructions := instructions + [Insn(op, 0xff, 0xff, k)];
      listing := listing + [Code(Plain(op, k, To(jtName), To(jfName)))];
    }

    /** Succeeds exactly when the label has been referenced and is not yet marked. */
    method AddLabel(name: L) returns (ok: bool)
      requires Valid()
      modifies this
      ensures Valid()
      ensures ok <==> name in Used(old(listing)) && name !in Marked(old(listing))
      ensures listing == if ok then old(listing) + [Mark(name)] else old(listing)
    {
      TargetsKeys(listing, 0);
      if name !in labels {
        return false;
      }
      if labels[name].target != -1 {
        return false;
      }
      MarkAppended(listing, instructions, labels, name);
      labels := labels[name := labels[name].(target := |instructions|)];
      listing := listing + [Mark(name)];
      ok := true;
    }

    /** Writes the offset of one reference into its instruction. Fails when the
        jump is not forward, its offset does not fit, or the field is no placeholder. */
    method Patch(s: Source, target: int) returns (ok: bool)
      requires s.line < |instructions|
      modifies this`instructions
      ensures ok <==> s.line < target && target - s.line - 1 <= Limit(s.slot) &&
                      GetSlot(old(instructions)[s.line], s.slot) == Limit(s.slot)
      ensures instructions ==
              if ok then old(instructions)[s.line := SetSlot(old(instructions)[s.line], s.slot, target - s.line - 1)]
              else old(instructions)
    {
      var inst := instructions[s.line];
      if s.line >= target {
        return false;
      }
      var offset := target - s.line - 1;
      match s.slot {
        case OnJump =>
          if offset > 0xffff_ffff || inst.k != 0xffff_ffff { return false; }
          inst := inst.(k := offset);
        case OnTrue =>
          if offset > 0xff || inst.jt != 0xff { return false; }
          inst := inst.(jt := offset);
        case OnFalse =>
          if offset > 0xff || inst.jf != 0xff { return false; }
          inst := inst.(jf := offset);
      }
      instructions := instructions[s.line := inst];
      ok := true;
    }

    /** Patches every reference to one label. */
    method ResolveLabel(key: L, ghost sym: Symbolic<L>, ghost patched: set<Source>)
      returns (ok: bool, ghost patched': set<Source>)
      requires key in labels && |instructions| == |sym.code|
      requires labels[key].sources != []
      requires forall s :: s in labels[key].sources <==> JumpsTo(sym, s.line, s.slot, key)
      requires labels[key].target == if key in sym.targets then sym.targets[key] else -1
      requires forall i, j :: 0 <= i < j < |labels[key].sources| ==> labels[key].sources[i] != labels[key].sources[j]
      requires forall s :: s in labels[key].sources ==> s !in patched
      requires Forward(sym) && Fits(sym) ==> Progress(sym, instructions, patched)
      modifies this`instructions
      ensures |instructions| == |sym.code|
      ensures !ok ==> !(Forward(sym) && Fits(sym))
      ensures ok ==> LabelDone(sym, key)
      ensures ok ==> patched' == patched + (set s | s in labels[key].sources)
      ensures ok && Forward(sym) && Fits(sym) ==> Progress(sym, instructions, patched')
    {
      patched' := patched;
      var v := labels[key];
      if v.target == -1 || v.target >= |instructions| {
        assert JumpsTo(sym, v.sources[0].line, v.sources[0].slot, key);
        return false, patched;
      }
      var i := 0;
      while i < |v.sources|
        invariant 0 <= i <= |v.sources|
        invariant |instructions| == |sym.code|
        invariant Forward(sym) && Fits(sym) ==> Progress(sym, instructions, patched')
        invariant patched' == patched + (set s | s in v.sources[..i])
        invariant forall s :: s in v.sources[..i] ==> SourceDone(sym, key, s)
      {
        hide Forward, Fits, Progress;
        var s := v.sources[i];
        assert JumpsTo(sym, s.line, s.slot, key) && s !in patched';
        if Forward(sym) && Fits(sym) {
          PatchStep(sym, instructions, patched', key, s);
        }
        var done := Patch(s, v.target);
        if !done {
          return false, patched';
        }
        patched' := patched' + {s};
        i := i + 1;
      }
      assert v.sources[..i] == v.sources;
      ok := true;
    }

    /** Replaces every label by its offset, whatever order the table is walked in.
        Succeeds exactly when every label is marked, inside the program, after
        all its references and near enough; a failure leaves the code half patched. */
    method Instructions() returns (ok: bool, p: seq<Insn>)
      requires Valid()
      modifies this
      ensures ok <==> Forward(Assemble(old(listing))) && Fits(Assemble(old(listing)))
      ensures ok ==> p == Resolve(Assemble(old(listing))) && Valid() && listing == Literal<L>(p)
      ensures p == instructions
    {
      hide Represents, Forward, Fits, Progress, LabelDone, SourceDone, Assemble, JumpsTo, Resolve, Used;
      ghost var sym := Assemble(listing);
      ghost var table := labels;
      ghost var linkable := Forward(sym) && Fits(sym);
      ghost var patched: set<Source> := {};
      NothingPatched(listing, instructions, labels);
      var todo := labels.Keys;
      while todo != {}
        invariant labels == table && listing == old(listing)
        invariant todo <= table.Keys
        invariant |instructions| == |sym.code|
        invariant linkable ==> Progress(sym, instructions, patched)
        invariant forall l :: l in table && l !in todo ==> LabelDone(sym, l)
        invariant forall l, s :: l in table && s in table[l].sources ==> (s in patched <==> l !in todo)
      {
        var key :| key in todo;
        SourceFacts(old(listing), old(instructions), table, key);
        ghost var before := patched;
        ok, patched := ResolveLabel(key, sym, patched);
        if !ok {
          return false, instructions;
        }
        forall l, s | l in table && s in table[l].sources ensures s in patched <==> l !in todo - {key} {
          SourceFacts(old(listing), old(instructions), table, l);
          if s in table[key].sources { OneLabelPerSlot(sym, s, key, l); }
        }
        todo := todo - {key};
      }
      AllDone(old(listing), old(instructions), table, sym, patched);
      AllPatched(sym, instructions, patched);
      LiteralRepresented<L>(instructions);
      labels := map[];
      listing := Literal<L>(instructions);
      ok, p := true, instructions;
    }
  }
}
