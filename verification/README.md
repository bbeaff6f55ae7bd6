# ContainerFS in Dafny

A model of the intricate parts of ContainerFS, in Dafny 4.11, with proofs about it. Five groups of modules:

- **Seccomp compiler and BPF machine.** Rule sets over system calls are compiled into a search tree, a listing with
  labels, and a program (`SeccompPolicy`, `SeccompCode`, `SeccompBuild`); the builder links labels (`Assembler`,
  `ProgramBuilders`, `Placement`); the validator and the interpreter are in `Bpf`, with the laws of its instructions in
  `BpfLaws`. `SeccompMeaning`, `SeccompLabels`,
  `SeccompSearch`, `SeccompCorrect` and `SeccompExact` carry the proof from the emitted instructions to the policy.
- **Segment set.** A B-tree of disjoint ranges with parent links, gap iterators, splitting, rotation and unsplitting
  (`BTree`, `Positions`, `Restructure`, `GapMoves`, `Wiring`, `Updates`, `Rebalance`, `HeapSteps`, `Iterators`,
  `SegmentTrees`), refining a sorted list and a key-to-value map (`SegmentMap`, `SegmentCuts`, `SegmentSets`).
- **Lock-free primitives** as step machines, one step per atomic access, over any number of threads: `Sleep` with
  `SleepAnswers`, `Refs`, `Mutex`, `Gate`.
- **9P server.** References, FID tables, path nodes and handlers (`Ownership`, `Ancestry`, `PathNames`, `P9Server`,
  `P9Runs`), and truncated directory listings (`Readdir`).
- **Ordered and dependency-driven processing.** The worker pool and the framing of compressed streams (`Compressio`,
  `Framing`), and the completion graph of state decoding (`Completion`).

Backend results, the compression and hash functions, thread schedules and map iteration orders are parameters or
choices of the model. Machine integers are bounded integers with every wrap-around written out.

## Findings

Properties that the code does not have, each with an input or a run that shows it and the exact condition under which
it holds.

- **Vsyscall leak** (seccomp.go:304-340). A blanket rule set for vsyscalls leaves its node without a jump to the
  default action, so a call from user code runs on into the next subtree with the upper half of its instruction pointer
  as the key. `BuildsLeaky` builds such a program and gives a call that should be killed and is allowed;
  `CorrectExactlyWhenLeakFree` says when there is none.
- **Truncated numbers** (seccomp.go:271). Nodes compare the low 32 bits of a number. `BuildsWide` gives a program and a
  call; `CorrectExactlyWhenKept` says when such numbers do no harm, and `CorrectExactlyWhen` covers both failures together.
- **Register moves** (interpreter.go:403-406). TAX and TXA move the other way than decoder.go:237-240 prints, which is also
  how the BPF instruction set has them. `MovesSwapped` is a program; `MovesAsListedExactlyWhen` the condition.
- **Stranded gap** (set.go:786-831). Rotating an element over from the previous sibling leaves a gap at the end of that
  sibling at another position. `StrandedGaps` gives the tree; `RebalanceAfterRemove` keeps the position if and only if
  the gap is not stranded. `Remove` never passes such a gap.
- **Empty RemoveRange** (set.go:419-430). With an empty range whose start is mapped, the segment there loses all
  its keys from the start on. `EmptyRangeRemoved` is an input; `RemoveRange` removes exactly the keys of the range if
  and only if this is not so.
- **Hidden last drop** (refcounter.go:266-298). A failing `TryIncRef` in flight hides the last drop, and the destructor
  never runs. `HiddenLastDrop` is the run; `DestroyedExactlyWhen` the condition.
- **Rename loop** (server.go:256-271). A rename stores the moved path node in the source directory, so a later walk can
  share it, and a second rename then moves references of two different files. A reference can become its own parent
  although no request moves a directory under itself (in the run, a/y/z goes into y/z); its file stays open for ever. `OpenForEver` is
  the run; `Trenameat` has the condition, which the server could check before the call; `Stop` says what it means for
  closing files. The comment at server.go:476-478 promises that dropping a FID closes its file; that holds only for
  the whole loop, and only without loops of parents.
- **Closed while moving** (server.go:258-264). A rename drops the old parent of a reference before it sets the new one.
  After a rename loop that drop can go round and close the file being moved; the closed reference is then registered
  with its new parent, which has an owner that never drops it. `ClosesWhileMoving` is the run. `Trenameat` and `Trename`
  say when it happens (`LostWhen`), over the parents and counts before the call, and that every other count stays right.
- **Rename panic** (handlers.go:606-610). The panic called impossible can be reached by walking on from a deleted
  directory. `EndsInPanic` is the run; `Trename` has the condition.

## Model

| member | source | states |
|---|---|---|
| Bpf.Compile | ContainerFS/pkg/bpf/interpreter.go:104-220 | accepts exactly the valid instruction lists, unchanged; otherwise reports the length error, the missing return at the end, or the first bad instruction, in this order |
| Bpf.Exec | ContainerFS/pkg/bpf/interpreter.go:267-412 | the loop over A, X, M and pc computes `Run`, from the zero machine; what the instructions compute is stated by the laws of `BpfLaws` |
| Bpf.CheckIsExact | ContainerFS/pkg/bpf/interpreter.go:104-220 | the validator passes an instruction if and only if no machine and no input makes it fail as an invalid opcode, an index of M out of range or an unchecked division, and its jumps stay inside |
| Bpf.NextStaysInside | ContainerFS/pkg/bpf/interpreter.go:267-412 | a step of a validated program goes to an instruction of the program; it can fail only at a load outside the input or a division by a zero X |
| Bpf.ValidatedProgramsAreSafe | ContainerFS/pkg/bpf/interpreter.go:267-412 | every run of a validated program ends in a value, a load outside the input, or a division by a zero X, never in an invalid opcode or the end of the program |
| Bpf.RunsOnlyForward | ContainerFS/pkg/bpf/interpreter.go:267-412 | every run visits ascending positions, so it ends within the program length |
| BpfLaws.SourceX | ContainerFS/pkg/bpf/interpreter.go:331-398 | every operand from X acts as a constant of that value; only a zero divisor in X is an error of its own |
| BpfLaws.OnlyTarget | ContainerFS/pkg/bpf/interpreter.go:273-406 | each class of instructions changes its one target, and only jumps choose where to go on |
| BpfLaws.ReturnsA | ContainerFS/pkg/bpf/interpreter.go:399-402 | returning A after loading a constant is returning the constant |
| BpfLaws.Comparisons | ContainerFS/pkg/bpf/interpreter.go:383-398 | for all operands: JGE is JGT or JEQ, JGT is not JGE with the operands exchanged, JSET is taken exactly when AND leaves a bit; each jump goes one of two ways |
| BpfLaws.GreaterBySub | ContainerFS/pkg/bpf/interpreter.go:387-390 | JGT is taken exactly when SUB leaves a positive difference without wrapping |
| BpfLaws.AddSub | ContainerFS/pkg/bpf/interpreter.go:331-338 | SUB undoes ADD and ADD undoes SUB, modulo 2^32 |
| BpfLaws.AddNeg | ContainerFS/pkg/bpf/interpreter.go:331-368 | ADD has a zero and commutes, and NEG is SUB from zero |
| BpfLaws.AddTwice | ContainerFS/pkg/bpf/interpreter.go:331-334 | adding twice is adding the sum, modulo 2^32 |
| BpfLaws.MulSteps | ContainerFS/pkg/bpf/interpreter.go:339-342 | MUL is repeated ADD |
| BpfLaws.DivMod | ContainerFS/pkg/bpf/interpreter.go:343-376 | A is k times DIV plus MOD, and MOD is below k |
| BpfLaws.Shifts | ContainerFS/pkg/bpf/interpreter.go:359-366 | LSH and RSH are MUL and DIV by 2^k below 32, and clear A from there on |
| BpfLaws.Bits | ContainerFS/pkg/bpf/interpreter.go:351-380 | OR and AND add up to both operands, XOR is their sum without the common bits, AND commutes |
| BpfLaws.XorTwice | ContainerFS/pkg/bpf/interpreter.go:377-380 | XOR twice with one operand is the identity |
| BpfLaws.MaskIsMod | ContainerFS/pkg/bpf/interpreter.go:355-376 | AND with 2^n - 1 is MOD by 2^n |
| BpfLaws.StoreLoad | ContainerFS/pkg/bpf/interpreter.go:311-330 | a scratch register gives back what was stored last, to A or X |
| BpfLaws.Indirect | ContainerFS/pkg/bpf/interpreter.go:293-310 | an indirect load is an absolute one at X + k modulo 2^32 |
| BpfLaws.HalfFromBytes | ContainerFS/pkg/bpf/input_bytes.go:42-47 | a half word is there exactly when its last byte is, and is made of its bytes in the byte order of the input |
| BpfLaws.WordFromHalves | ContainerFS/pkg/bpf/input_bytes.go:34-39 | the same for a word and its halves |
| BpfLaws.Bytes | ContainerFS/pkg/bpf/input_bytes.go:50-59 | a byte is loaded exactly when its offset is below the length |
| BpfLaws.HeaderLength | ContainerFS/pkg/bpf/interpreter.go:321-326 | the header length load is a byte load, AND 15 and LSH 2, into X |
| BpfLaws.MovesAsListedExactlyWhen | ContainerFS/pkg/bpf/interpreter.go:403-406 | TAX and TXA do what the decoder prints if and only if A equals X; each does what it prints for the other |
| BpfLaws.MovesSwapped | ContainerFS/pkg/bpf/decoder.go:234-244 | a program that returns 0 as listed and 42 when executed |
| Assembler.LinkingPreservesMeaning | ContainerFS/pkg/bpf/program_builder.go:142-191 | when all labels resolve forward and in range, the resolved program computes on every input what the labelled program does |
| Assembler.AssembledListing | ContainerFS/pkg/bpf/program_builder.go:108-120 | every item of a listing is where the assembled program has it, and every label stands at the line it was added at |
| Assembler.SourcesAreUses | ContainerFS/pkg/bpf/program_builder.go:133-140 | the recorded jump sources of a label are exactly the jump fields that name it |
| ProgramBuilders.ProgramBuilder.constructor | ContainerFS/pkg/bpf/program_builder.go:40-42 | a new builder represents the empty listing |
| ProgramBuilders.ProgramBuilder.AddStmt | ContainerFS/pkg/bpf/program_builder.go:72-74 | appends a statement to the listing the builder represents |
| ProgramBuilders.ProgramBuilder.AddJump | ContainerFS/pkg/bpf/program_builder.go:77-79 | appends a jump with literal offsets |
| ProgramBuilders.ProgramBuilder.AddDirectJumpLabel | ContainerFS/pkg/bpf/program_builder.go:82-85 | appends an unconditional jump to a label |
| ProgramBuilders.ProgramBuilder.AddJumpTrueLabel | ContainerFS/pkg/bpf/program_builder.go:88-91 | appends a jump whose true branch goes to a label |
| ProgramBuilders.ProgramBuilder.AddJumpFalseLabel | ContainerFS/pkg/bpf/program_builder.go:94-97 | appends a jump whose false branch goes to a label |
| ProgramBuilders.ProgramBuilder.AddJumpLabels | ContainerFS/pkg/bpf/program_builder.go:100-104 | appends a jump with a label for both branches |
| ProgramBuilders.ProgramBuilder.AddLabel | ContainerFS/pkg/bpf/program_builder.go:108-120 | succeeds exactly for a label that is jumped to and not placed yet, and then places it at the next line |
| ProgramBuilders.ProgramBuilder.AddLabelSource | ContainerFS/pkg/bpf/program_builder.go:133-140 | adds one source to the label entry, keeping the others |
| ProgramBuilders.ProgramBuilder.Patch | ContainerFS/pkg/bpf/program_builder.go:142-191 | one source is patched exactly when the target lies ahead, the offset fits the field and the field still has its placeholder |
| ProgramBuilders.ProgramBuilder.ResolveLabel | ContainerFS/pkg/bpf/program_builder.go:142-191 | all sources of one label: on success the label is forward and in range and its sources are done; failure implies that the listing cannot be linked |
| ProgramBuilders.ProgramBuilder.Instructions | ContainerFS/pkg/bpf/program_builder.go:126-131 | succeeds if and only if every label is forward and in range; the result is then `Resolve` of the listing, whatever the order of the label map |
| Placement.ClosedIsForward | ContainerFS/pkg/bpf/program_builder.go:142-191 | a listing that places every label it jumps to further on has no backward jump |
| Placement.FitsIsNear | ContainerFS/pkg/bpf/program_builder.go:142-191 | its offsets fit if and only if every conditional jump spans at most 255 instructions |
| SeccompPolicy.AppendedAllows | ContainerFS/pkg/seccomp/seccomp_rules.go:104-132 | a combined rule list allows what either list allows, the empty list standing for everything |
| SeccompPolicy.RuleTable.constructor | ContainerFS/pkg/seccomp/seccomp_rules.go:98-100 | a new table has no rules |
| SeccompPolicy.RuleTable.AddRule | ContainerFS/pkg/seccomp/seccomp_rules.go:104-114 | the system call is permitted with the arguments that were permitted or match the rule; other entries stay |
| SeccompPolicy.RuleTable.MergeOne | ContainerFS/pkg/seccomp/seccomp_rules.go:117-132 | the same for one entry of a merged table |
| SeccompPolicy.RuleTable.Merge | ContainerFS/pkg/seccomp/seccomp_rules.go:117-132 | afterwards permits exactly what either table permitted |
| SeccompLabels.ProgramPlaced | ContainerFS/pkg/seccomp/seccomp.go:120-143 | every label of the generated listing is placed once and after its uses; all conditional jumps are short if and only if each argument check is |
| SeccompMeaning.ArgRuns | ContainerFS/pkg/seccomp/seccomp.go:217-226 | the four instructions of an `AllowValue` compare the full 64-bit argument |
| SeccompMeaning.RuleRuns | ContainerFS/pkg/seccomp/seccomp.go:210-245 | the code of a rule returns the action exactly when all six arguments match, and otherwise runs on past its end |
| SeccompMeaning.SetRuns | ContainerFS/pkg/seccomp/seccomp.go:289-331 | the code of a rule set acts exactly when it covers the call, vsyscall bit included |
| SeccompMeaning.SetsRun | ContainerFS/pkg/seccomp/seccomp.go:289-331 | the code of all rule sets of a number acts as the first that covers the call |
| SeccompMeaning.NodeRuns | ContainerFS/pkg/seccomp/seccomp.go:264-342 | the code of a node followed by any further subtrees computes `Descend`, fall-through included |
| SeccompMeaning.ForestRuns | ContainerFS/pkg/seccomp/seccomp.go:364-375 | the same for a sequence of subtrees in preorder |
| SeccompSearch.CreateBSTOrdered | ContainerFS/pkg/seccomp/seccomp.go:182-192 | the tree of a sorted list holds exactly its numbers, in search order |
| SeccompSearch.CreateBSTBalanced | ContainerFS/pkg/seccomp/seccomp.go:182-192 | it has at most floor(log2 n) + 1 levels |
| SeccompSearch.DescendSearches | ContainerFS/pkg/seccomp/seccomp.go:264-287 | with numbers below 2^32 the code finds the node of a number, or takes the default action |
| SeccompSearch.FilterDecides | ContainerFS/pkg/seccomp/seccomp.go:264-342 | the filter decides as the policy says on every call that does not fall through |
| SeccompSearch.NothingFallsThrough | ContainerFS/pkg/seccomp/seccomp.go:304-340 | without blanket rule sets for vsyscalls no call falls through |
| SeccompCorrect.ProgramRuns | ContainerFS/pkg/seccomp/seccomp.go:120-143 | the labelled program returns `Filter` on all 64-byte inputs |
| SeccompCorrect.LinksExactlyWhen | ContainerFS/pkg/seccomp/seccomp.go:120-143 | the labels resolve if and only if every argument check is short enough for a conditional jump and the program is below 2^32 instructions |
| SeccompCorrect.ProgramIsValid | ContainerFS/pkg/seccomp/seccomp.go:120-143 | a linked program of at most 4096 instructions passes the validator |
| SeccompBuild.AddCompare | ContainerFS/pkg/seccomp/seccomp.go:217-226 | emits one half of an argument comparison |
| SeccompBuild.AddArg | ContainerFS/pkg/seccomp/seccomp.go:213-231 | emits the code of one argument, or reports a matcher of unknown type |
| SeccompBuild.AddArgs | ContainerFS/pkg/seccomp/seccomp.go:213-231 | emits the code of all six arguments, or fails exactly when one is of unknown type |
| SeccompBuild.AddRule | ContainerFS/pkg/seccomp/seccomp.go:210-245 | emits `RuleCode` of one rule |
| SeccompBuild.AddSyscallArgsCheck | ContainerFS/pkg/seccomp/seccomp.go:210-245 | emits `RulesCode`, and fails exactly when a matcher is of unknown type |
| SeccompBuild.AddMatchers | ContainerFS/pkg/seccomp/seccomp.go:310-325 | emits a blanket action or the rule checks |
| SeccompBuild.AddRuleSet | ContainerFS/pkg/seccomp/seccomp.go:289-331 | emits one rule set with its vsyscall check |
| SeccompBuild.AddRuleSets | ContainerFS/pkg/seccomp/seccomp.go:288-332 | emits all rule sets of a number, and fails exactly when an action is unreachable or a matcher unknown |
| SeccompBuild.BuildBSTProgram | ContainerFS/pkg/seccomp/seccomp.go:264-342 | emits `NodeCode`, with the same failures |
| SeccompBuild.AddBranch | ContainerFS/pkg/seccomp/seccomp.go:273-283 | emits the comparison that chooses a subtree |
| SeccompBuild.Traverse | ContainerFS/pkg/seccomp/seccomp.go:364-375 | emits a whole subtree in preorder, and fails exactly when one of its nodes does |
| SeccompBuild.SortedSyscalls | ContainerFS/pkg/seccomp/seccomp.go:146-161 | collects the numbers of all rule sets, each once, ascending |
| SeccompBuild.SortedIsUnique | ContainerFS/pkg/seccomp/seccomp.go:161-161 | there is only one such list |
| SeccompBuild.BuildIndex | ContainerFS/pkg/seccomp/seccomp.go:146-178 | panics exactly without system calls; otherwise emits the root of the balanced tree over them |
| SeccompBuild.BuildProgram | ContainerFS/pkg/seccomp/seccomp.go:120-143 | compiler correctness for all rule sets: when it panics, when it fails, that the program returns `Filter` on every input and is valid, and the exact condition under which it enforces the policy, in general, without blanket vsyscall sets, and with all numbers below 2^32 |
| SeccompBuild.ProgramMeets | ContainerFS/pkg/seccomp/seccomp.go:120-143 | a linked program computes the filter, is valid when short, and enforces the policy when numbers are below 2^32 and no blanket set is for vsyscalls |
| SeccompBuild.ProgramEnforces | ContainerFS/pkg/seccomp/seccomp.go:120-143 | when a program that computes the filter enforces the policy |
| SeccompBuild.BuiltIsFast | ContainerFS/pkg/seccomp/seccomp.go:182-192 | every search in a built program takes at most 3 instructions per tree level, with 2^(levels - 1) <= number of system calls |
| SeccompSpeed.SearchSteps | ContainerFS/pkg/seccomp/seccomp.go:264-287 | three instructions per tree level reach the argument check or the default action |
| SeccompSpeed.SearchIsFast | ContainerFS/pkg/seccomp/seccomp.go:182-192 | so a search takes 3 * levels instructions with 2^(levels - 1) <= number of system calls |
| SeccompExact.DecodeEncode | ContainerFS/pkg/seccomp/seccomp_rules.go:19-40 | every call has its 64 bytes: the layout of `seccomp_data` loses nothing |
| SeccompExact.DescendLands | ContainerFS/pkg/seccomp/seccomp.go:264-287 | the code for a key ends at the node `Land` names, comparing low words |
| SeccompExact.CallDecided | ContainerFS/pkg/seccomp/seccomp.go:264-342 | one call is decided right if and only if it stops right and, from user code, runs on right |
| SeccompExact.CorrectExactlyWhen | ContainerFS/pkg/seccomp/seccomp.go:120-143 | for any tree and all rule sets: the policy is enforced on every input if and only if every search stops at a node that decides like the number searched for, and nothing leaks past such a node |
| SeccompExact.CorrectExactlyWhenKept | ContainerFS/pkg/seccomp/seccomp.go:271-283 | without blanket vsyscall sets: if and only if every search stops at such a node; this is the exact harm of numbers of 2^32 and more |
| SeccompExact.CorrectExactlyWhenLeakFree | ContainerFS/pkg/seccomp/seccomp.go:304-340 | with numbers below 2^32: if and only if every hole is sealed against the numbers below 2^31 of the subtree that follows it |
| SeccompExact.RunsOnOnce | ContainerFS/pkg/seccomp/seccomp.go:335-341 | a call that falls through reaches at most the node of its upper instruction pointer half in the next subtree |
| SeccompExact.VsyscallLeak | ContainerFS/pkg/seccomp/seccomp.go:304-340 | a concrete leak: the filter for two rule sets allows a call due to be killed |
| SeccompExact.TruncatedNumber | ContainerFS/pkg/seccomp/seccomp.go:271-283 | a concrete truncation: the filter for a rule with number 2^32 allows system call 0 |
| SeccompBuild.BuildsLeaky | ContainerFS/pkg/seccomp/seccomp.go:120-143 | the leaking rule sets are built, and the program allows the call due to be killed |
| SeccompBuild.BuildsWide | ContainerFS/pkg/seccomp/seccomp.go:120-143 | so is the rule with number 2^32, and the program allows system call 0 |
| SeccompNames.TextInjective | ContainerFS/pkg/seccomp/seccomp.go:194-204 | different labels have different texts, so labels may be compared as values |
| BTree.JoinSplit | ContainerFS/pkg/segment/set.go:730-769 | joining undoes the split of a full child |
| BTree.RotateBack | ContainerFS/pkg/segment/set.go:786-859 | rotating right undoes rotating left |
| GapMoves.SplitKidGaps | ContainerFS/pkg/segment/set.go:730-769 | splitting a child leaves every gap at its ordinal position, adjusted as the code adjusts it |
| GapMoves.SplitTopGaps | ContainerFS/pkg/segment/set.go:685-729 | the same for splitting the root |
| GapMoves.JoinGaps | ContainerFS/pkg/segment/set.go:897-937 | the same for joining two children |
| GapMoves.UnsplitGaps | ContainerFS/pkg/segment/set.go:860-896 | the same for pulling the last two children into the root |
| GapMoves.RotateLeftGaps | ContainerFS/pkg/segment/set.go:832-859 | the same for taking an element from the next sibling |
| GapMoves.RotateRightGaps | ContainerFS/pkg/segment/set.go:786-831 | taking one from the previous sibling keeps a gap if and only if it is not one of the last two of that sibling |
| GapMoves.StrandedGaps | ContainerFS/pkg/segment/set.go:786-831 | a concrete gap that ends up elsewhere or nowhere |
| SegmentTrees.SegmentTree.constructor | ContainerFS/pkg/segment/set.go:71-86 | an empty tree is valid |
| SegmentTrees.SegmentTree.SplitChild | ContainerFS/pkg/segment/set.go:730-769 | splits a full child in place: valid shape, links and contents |
| SegmentTrees.SegmentTree.SplitRoot | ContainerFS/pkg/segment/set.go:685-729 | splits a full root in place |
| SegmentTrees.SegmentTree.RotateFromPrev | ContainerFS/pkg/segment/set.go:786-831 | moves the last element of the previous sibling over |
| SegmentTrees.SegmentTree.RotateFromNext | ContainerFS/pkg/segment/set.go:832-859 | moves the first element of the next sibling over |
| SegmentTrees.SegmentTree.MergeSiblings | ContainerFS/pkg/segment/set.go:897-937 | joins two siblings and their separator |
| SegmentTrees.SegmentTree.UnsplitRoot | ContainerFS/pkg/segment/set.go:860-896 | pulls two children into the root |
| SegmentTrees.SegmentTree.RebalanceBeforeInsert | ContainerFS/pkg/segment/set.go:678-769 | keeps the in-order list and the ordinal position of the gap, keeps the tree valid, and the leaf of the returned gap has room |
| SegmentTrees.SegmentTree.RebalanceAfterRemove | ContainerFS/pkg/segment/set.go:777-938 | makes the tree valid again, keeps the in-order list, and returns a gap at the same ordinal position if and only if the gap was not stranded by a rotation |
| SegmentTrees.SegmentTree.InsertWithoutMergingUnchecked | ContainerFS/pkg/segment/set.go:374-382 | puts one element at the gap, keeps the tree valid, and returns an iterator to it |
| SegmentTrees.SegmentTree.Remove | ContainerFS/pkg/segment/set.go:387-409 | takes one element out, keeps the tree valid, and returns the gap where it was |
| SegmentTrees.SegmentTree.SetElement | ContainerFS/pkg/segment/set.go:994-996 | replaces one element; iterators to others stay right |
| SegmentTrees.SegmentTree.FirstSegment | ContainerFS/pkg/segment/set.go:644-649 | the first element of a subtree |
| SegmentTrees.SegmentTree.LastSegment | ContainerFS/pkg/segment/set.go:654-659 | the last element of a subtree |
| SegmentTrees.SegmentTree.SegmentBeforePosition | ContainerFS/pkg/segment/set.go:1249-1257 | climbs to the element before a position, or ends |
| SegmentTrees.SegmentTree.SegmentAfterPosition | ContainerFS/pkg/segment/set.go:1262-1270 | climbs to the element after a position, or ends |
| SegmentTrees.SegmentTree.PrevSegment | ContainerFS/pkg/segment/set.go:1081-1092 | the iterator to the element before |
| SegmentTrees.SegmentTree.NextSegment | ContainerFS/pkg/segment/set.go:1096-1107 | the iterator to the element after |
| SegmentTrees.SegmentTree.PrevGap | ContainerFS/pkg/segment/set.go:1110-1117 | the gap before an element |
| SegmentTrees.SegmentTree.NextGap | ContainerFS/pkg/segment/set.go:1120-1125 | the gap after an element |
| SegmentTrees.SegmentTree.SegmentBeforeGap | ContainerFS/pkg/segment/set.go:1216-1218 | the element before a gap |
| SegmentTrees.SegmentTree.SegmentAfterGap | ContainerFS/pkg/segment/set.go:1222-1224 | the element after a gap |
| SegmentTrees.SegmentTree.NextGapOf | ContainerFS/pkg/segment/set.go:1238-1244 | the gap after a gap |
| SegmentMap.AddPlain | ContainerFS/pkg/segment/set.go:359-367 | inserting into a fitting gap adds exactly the keys of the range |
| SegmentMap.AddToPrev | ContainerFS/pkg/segment/set.go:317-351 | so does growing the segment before it |
| SegmentMap.AddToNext | ContainerFS/pkg/segment/set.go:317-351 | and growing the segment after it |
| SegmentMap.MergeAgrees | ContainerFS/pkg/segment/set.go:451-462 | merging two neighbours changes no key, if the merge function says so of values |
| SegmentMap.SplitAgrees | ContainerFS/pkg/segment/set.go:535-543 | nor does splitting |
| SegmentMap.TakeRemoves | ContainerFS/pkg/segment/set.go:387-409 | removing a segment removes exactly its keys |
| SegmentMap.NothingLeftToJoin | ContainerFS/pkg/segment/set.go:466-479 | after one merging pass no two neighbours can be merged, if a merge that fails also fails with what the neighbour grows to |
| SegmentSets.SegmentSet.constructor | ContainerFS/pkg/segment/set.go:71-86 | an empty set maps no key |
| SegmentSets.SearchNode | ContainerFS/pkg/segment/set.go:184-208 | binary search in one node: the segment with the key, or the slot for it |
| SegmentSets.SegmentSet.Find | ContainerFS/pkg/segment/set.go:184-208 | finds a segment exactly when the key is mapped, the one that gives its value; otherwise the gap around the key |
| SegmentSets.SegmentSet.GapStart | ContainerFS/pkg/segment/set.go:1192-1197 | the end of the segment before, or the least key |
| SegmentSets.SegmentSet.GapEnd | ContainerFS/pkg/segment/set.go:1201-1206 | the start of the segment after, or the largest key |
| SegmentSets.SegmentSet.InsertWithoutMerging | ContainerFS/pkg/segment/set.go:359-367 | panics exactly when the range does not fit the gap; otherwise adds its keys as a segment of its own |
| SegmentSets.SegmentSet.Insert | ContainerFS/pkg/segment/set.go:317-351 | panics exactly when the range does not fit; otherwise the list is that of a plain insertion, merged with the segment before and then with the one after wherever ranges touch and values merge; it adds exactly the keys of the range |
| SegmentSets.SegmentSet.Add | ContainerFS/pkg/segment/set.go:271-284 | panics exactly for an empty range; succeeds exactly when no key of it is mapped and it ends by the largest key; then inserts and merges as `Insert` does at the place of the range, adding exactly its keys |
| SegmentSets.SegmentSet.AddWithoutMerging | ContainerFS/pkg/segment/set.go:290-303 | the same conditions; the segment is put at its place and nothing is merged |
| SegmentMap.InsertLeavesNone | ContainerFS/pkg/segment/set.go:305-351 | insertion keeps a set in which no neighbours merge that way, if merging fails steadily |
| SegmentSets.SegmentSet.IsEmptyRange | ContainerFS/pkg/segment/set.go:105-117 | panics exactly for a reversed range; otherwise true exactly when the range is empty, or none of its keys is mapped and it ends by the largest key or starts before some segment |
| SegmentSets.SegmentSet.MergeUnchecked | ContainerFS/pkg/segment/set.go:451-462 | merges exactly when the ranges touch and the values merge; no key changes |
| SegmentSets.SegmentSet.MergeAll | ContainerFS/pkg/segment/set.go:466-479 | one greedy pass over the list; no key changes |
| SegmentSets.SegmentSet.SplitUnchecked | ContainerFS/pkg/segment/set.go:535-543 | splits one segment; no key changes |
| SegmentSets.SegmentSet.SplitAt | ContainerFS/pkg/segment/set.go:548-554 | splits exactly when a segment lies across the key, and exactly that segment; then none does; no key changes |
| SegmentSets.SegmentSet.Isolate | ContainerFS/pkg/segment/set.go:560-568 | leaves the part of the segment inside the range as a segment of its own; no key changes |
| SegmentSets.SegmentSet.RemoveRange | ContainerFS/pkg/segment/set.go:419-430 | removes exactly the keys of the range if and only if the range is not empty or its start is not mapped; otherwise exactly the keys from its start to the end of their segment; the returned gap reaches over the range |
| SegmentSets.EmptyRangeRemoved | ContainerFS/pkg/segment/set.go:419-430 | adding [0, 1) and removing [0, 0) leaves key 0 unmapped |
| Sleep.StepKeeps | ContainerFS/pkg/sleep/sleep_unsafe.go:128-381 | every atomic step of every thread keeps the invariant of lists, wakers and parking |
| Sleep.RunKeeps | ContainerFS/pkg/sleep/sleep_unsafe.go:128-381 | so does every run |
| Sleep.NoLostWakeup | ContainerFS/pkg/sleep/sleep_unsafe.go:151-309 | in every run: a sleeper parked with a non-empty shared list has a thread still in its `waitingG` loop or about to wake it |
| Sleep.WakesOnlyParked | ContainerFS/pkg/sleep/commit_noasm.go:30-42 | `goready` is called only on a parked goroutine, by one thread |
| Sleep.WakersAreUnique | ContainerFS/pkg/sleep/sleep_unsafe.go:284-362 | in every run: an associated waker not just being added is queued or carried if and only if its `s` is not the sleeper; it has one carrier at most, is never carried and listed at once, and is in the lists once at most |
| Sleep.AssertedIsPending | ContainerFS/pkg/sleep/sleep_unsafe.go:347-362 | an asserted associated waker is in a list, on its way, or being added |
| Sleep.DoneIsClean | ContainerFS/pkg/sleep/sleep_unsafe.go:234-280 | when `Done` returns no waker is associated, listed or carried |
| Sleep.ListsAreOneQueue | ContainerFS/pkg/sleep/sleep_unsafe.go:151-203 | the two linked lists are one FIFO queue: a push appends, a pop takes the front, no other step changes it |
| SleepAnswers.EndsByAnswer | ContainerFS/pkg/sleep/sleep_unsafe.go:215-230 | a waker stops being asserted exactly when a `Fetch` returns it or a `Clear` of it answers yes, and becomes asserted only by `Assert`; `Clear` answers no only when it is not asserted |
| SleepAnswers.EachAssertionAnsweredOnce | ContainerFS/pkg/sleep/sleep_unsafe.go:215-381 | in every run, for every waker: assertions = `Fetch` calls that returned it + `Clear` calls that answered yes + the one still pending |
| SleepAnswers.FetchReturns | ContainerFS/pkg/sleep/sleep_unsafe.go:205-230 | a `Fetch` that ends returns a waker, or none if it was not to wait and both lists were empty |
| SleepAnswers.FetchAnswersTruly | ContainerFS/pkg/sleep/sleep_unsafe.go:205-230 | in every run: a returned waker was associated and asserted; when none is returned, whatever is asserted is still being pushed by its `Assert` |
| SleepAnswers.AssertTakesEffect | ContainerFS/pkg/sleep/sleep_unsafe.go:347-362 | whatever others do, an `Assert` gets past its marking only with the waker asserted |
| SleepAnswers.AssertAlone | ContainerFS/pkg/sleep/sleep_unsafe.go:347-362 | an undisturbed `Assert` leaves its waker asserted |
| SleepAnswers.ClearAlone | ContainerFS/pkg/sleep/sleep_unsafe.go:370-381 | an undisturbed `Clear` leaves its waker not asserted and answers whether it was |
| SleepAnswers.FetchAlone | ContainerFS/pkg/sleep/sleep_unsafe.go:151-230 | from every point of an undisturbed `Fetch`: it returns the first asserted waker of the queue, or none if there is none and it is not to wait |
| Refs.StepKeeps | ContainerFS/pkg/refs/refcounter.go:211-298 | every atomic addition keeps the word equal to both packed counts and does not panic |
| Refs.RunKeeps | ContainerFS/pkg/refs/refcounter.go:211-298 | so does every run; the destructor count never falls |
| Refs.CountsAndDestructor | ContainerFS/pkg/refs/refcounter.go:211-298 | in every run: the word is (references - 1) + 2^32 * in-flight tries; the destructor ran at most once, and only with no reference and no try that will succeed |
| Refs.NoneAfterDestructor | ContainerFS/pkg/refs/refcounter.go:225-237 | no reference exists in any state after the destructor |
| Refs.TryAnswersTruly | ContainerFS/pkg/refs/refcounter.go:225-237 | in every run: `TryIncRef` succeeds if and only if a reference is held at its first addition, and adds one reference exactly then |
| Refs.TryKeepsItsAnswer | ContainerFS/pkg/refs/refcounter.go:225-237 | whatever others do between its two additions |
| Refs.DestroyedExactlyWhen | ContainerFS/pkg/refs/refcounter.go:266-298 | the destructor has run if and only if some `DecRef` of the run dropped the last reference with no try in flight |
| Refs.HiddenLastDrop | ContainerFS/pkg/refs/refcounter.go:266-298 | a run that ends with no reference, nothing in flight and no destructor call |
| Mutex.StepKeeps | ContainerFS/pkg/amutex/amutex.go:66-114 | every step of both mutexes keeps their invariant |
| Mutex.MutualExclusion | ContainerFS/pkg/amutex/amutex.go:66-114 | in every run: at most one holder, and v is 1 exactly when there is none |
| Mutex.NoForgottenWaiter | ContainerFS/pkg/tmutex/tmutex.go:38-81 | in every run a blocked waiter has v negative, a token, an awake waiter or an unlocker about to send, aborted waits included; if v is 1 one of them can step |
| Mutex.AnswersAreTrue | ContainerFS/pkg/tmutex/tmutex.go:38-66 | in every run: `TryLock` gives up only when the mutex is held, a thread gets it only when it is free, and `Lock` ends with it unless aborted while waiting |
| Mutex.FreeIsTaken | ContainerFS/pkg/tmutex/tmutex.go:38-66 | undisturbed on a free mutex, `TryLock` and `Lock` get it |
| Mutex.WaitersAreServed | ContainerFS/pkg/amutex/amutex.go:66-114 | in every run: when the mutex is free and a thread is blocked on it, threads under way get it in four steps at most, without a new call |
| Mutex.WakesAreSent | ContainerFS/pkg/tmutex/tmutex.go:70-81 | in every run: no waiter is woken but by an unlocker that saw waiters, one for one |
| Gate.StepKeeps | ContainerFS/pkg/gate/gate.go:79-134 | every step keeps the invariant and does not panic |
| Gate.NoEntryAfterClose | ContainerFS/pkg/gate/gate.go:79-94 | once closed, nobody enters any more |
| Gate.CloseWaitsForAll | ContainerFS/pkg/gate/gate.go:101-134 | in every run: done is closed once at most and only with nobody inside; `Close` returns only then |
| Gate.AnswersAreTrue | ContainerFS/pkg/gate/gate.go:79-115 | in every run: `Enter` is refused exactly when the gate is closed as it looks, lets in only while it is open and retries only when the count has changed; leaving takes one user off the count |
| Gate.OpenIsEntered | ContainerFS/pkg/gate/gate.go:79-94 | undisturbed, an open gate is entered |
| Gate.CloserIsLetGo | ContainerFS/pkg/gate/gate.go:101-134 | in every run: with nobody inside a waiting `Close` returns in two steps at most |
| Gate.EmptyIsClosed | ContainerFS/pkg/gate/gate.go:121-134 | undisturbed, an empty gate is closed without waiting |
| Completion.Decoder.constructor | ContainerFS/pkg/state/decode.go:70-105 | no object waits |
| Completion.Decoder.WaitFor | ContainerFS/pkg/state/decode.go:99-105 | adds one wait edge, with its callback |
| Completion.Decoder.CheckComplete | ContainerFS/pkg/state/decode.go:77-96 | terminates, leaves objects in progress alone, and leaves nothing ready that was not ready before |
| Completion.Decoder.Scan | ContainerFS/pkg/state/decode.go:517-539 | for any scan order: each callback fires once, after all its object waited for; an object is complete at the end if and only if it is neither on a cycle of waits nor behind one |
| Completion.Decoder.Settled | ContainerFS/pkg/state/decode.go:517-539 | with nothing ready, the order of completion is a fixpoint of the wait graph |
| Completion.ChainDescends | ContainerFS/pkg/state/decode.go:77-96 | wait chains of a completed object lead to earlier ones |
| Completion.StuckChain | ContainerFS/pkg/state/decode.go:77-96 | an incomplete object starts wait chains of every length |
| Completion.IncompleteAreCycles | ContainerFS/pkg/state/decode.go:517-539 | the objects left incomplete are exactly those on or behind a cycle |
| Compressio.StepKeeps | ContainerFS/pkg/compressio/compressio.go:136-202 | every step of workers and scheduler keeps each worker's share in order |
| Compressio.DeliveredInOrder | ContainerFS/pkg/compressio/compressio.go:320-347 | for any number of workers and any interleaving the k-th result delivered is that of the k-th chunk scheduled |
| Compressio.NeverJams | ContainerFS/pkg/compressio/compressio.go:320-347 | while something is undelivered some step other than scheduling can happen |
| Framing.Writer.constructor | ContainerFS/pkg/compressio/compressio.go:572-597 | the header is written and starts the hash chain |
| Framing.Writer.Flush | ContainerFS/pkg/compressio/compressio.go:600-625 | appends one frame: length, data, chained hash |
| Framing.Reader.Open | ContainerFS/pkg/compressio/compressio.go:361-389 | reads and checks the header |
| Framing.Reader.ReadChunk | ContainerFS/pkg/compressio/compressio.go:453-498 | reads one frame with its stored hash and moves the hash chain on; reports the end of the stream and a cut frame |
| Framing.ReadBack | ContainerFS/pkg/compressio/compressio.go:453-498 | reading what was framed gives back all chunks and accepts every hash, also with fewer than four bytes more |
| Framing.ReadOnlyFrames | ContainerFS/pkg/compressio/compressio.go:178-190 | the converse: an input read as the chunks ds without an error is the frames of ds, hashes included, and a tail of fewer than four bytes |
| Framing.OpenOnlyHeader | ContainerFS/pkg/compressio/compressio.go:361-389 | an accepted header is one a writer writes |
| Framing.AcceptedExactlyWhenWritten | ContainerFS/pkg/compressio/compressio.go:178-190 | a stream is read without an error if and only if it is one a writer can write, with a tail of fewer than four bytes |
| Framing.OpenHeader | ContainerFS/pkg/compressio/compressio.go:361-389 | the header of a written stream is accepted |
| Framing.StreamRoundTrip | ContainerFS/pkg/compressio/compressio.go:600-625 | end to end, any workers on both sides: what is read and decompressed is what was scheduled for writing, in order |
| Readdir.Buffer.Consume | ContainerFS/pkg/p9/buffer.go:56-64 | takes n bytes, or sets the sticky overrun flag |
| Readdir.Buffer.ReadWord | ContainerFS/pkg/p9/buffer.go:85-118 | reads a little-endian word, zero on overrun |
| Readdir.Buffer.ReadString | ContainerFS/pkg/p9/buffer.go:171-184 | reads a length-prefixed string |
| Readdir.Buffer.WriteWord | ContainerFS/pkg/p9/buffer.go:187-204 | appends a little-endian word |
| Readdir.Buffer.WriteString | ContainerFS/pkg/p9/buffer.go:257-262 | appends a string with its length modulo 2^16 |
| Readdir.Buffer.DecodeDirent | ContainerFS/pkg/p9/p9.go:1047-1052 | reads one entry |
| Readdir.Buffer.EncodeDirent | ContainerFS/pkg/p9/p9.go:1055-1060 | appends one entry |
| Readdir.EntryRoundTrip | ContainerFS/pkg/p9/p9.go:1047-1060 | decoding an encoded entry gives it back, whatever follows |
| Readdir.CutEntryOverruns | ContainerFS/pkg/p9/buffer.go:56-64 | decoding a proper prefix of an entry overruns |
| Readdir.EntryOnlyEncoding | ContainerFS/pkg/p9/p9.go:1047-1052 | the converse: whatever decodes to an entry starts with the encoding of that entry |
| Readdir.EntriesOnlyEncodings | ContainerFS/pkg/p9/messages.go:1608-1620 | whatever decodes to the entries ds is their encodings and a tail that holds no entry |
| Readdir.CutDecodes | ContainerFS/pkg/p9/messages.go:1608-1620 | a cut payload decodes to the entries that fit |
| Readdir.FittingIsLongest | ContainerFS/pkg/p9/messages.go:1623-1638 | that is the longest prefix that fits |
| Readdir.CutIsLongest | ContainerFS/pkg/p9/messages.go:1623-1638 | both together, for any byte count |
| Readdir.Rreaddir.Encode | ContainerFS/pkg/p9/messages.go:1623-1638 | the payload is cut at Count |
| Readdir.Rreaddir.Decode | ContainerFS/pkg/p9/messages.go:1608-1620 | entries are read until one overruns |
| Readdir.RoundTrip | ContainerFS/pkg/p9/messages.go:1608-1638 | encoding and decoding yields exactly the longest prefix of entries whose encoding fits in Count |
| Ownership.DieCounts | ContainerFS/pkg/p9/server.go:166-182 | closing an unowned reference keeps every count equal to its owners |
| Ownership.DetachCounts | ContainerFS/pkg/p9/server.go:256-271 | so does leaving a parent |
| Ownership.AttachCounts | ContainerFS/pkg/p9/server.go:256-271 | and getting a new one |
| Ancestry.DoomedNext | ContainerFS/pkg/p9/server.go:166-182 | a drop closes the reference itself, and what the drop of its parent then closes |
| Ancestry.LoopsHold | ContainerFS/pkg/p9/server.go:166-182 | no drop by a handler closes a reference on a loop of parents |
| Ancestry.DropKeepsLoops | ContainerFS/pkg/p9/server.go:166-182 | so such drops leave every loop as it is |
| Ancestry.ClosedExactlyWhenAcyclic | ContainerFS/pkg/p9/server.go:469-484 | without FIDs and handlers all files are closed if and only if no reference is on a loop and none was closed while it moved |
| Ancestry.AcyclicExactlyWhen | ContainerFS/pkg/p9/server.go:256-271 | a rename keeps parents free of loops if and only if nothing that moves is the target or above it |
| Ancestry.HeldLoopsHold | ContainerFS/pkg/p9/server.go:256-271 | moving a reference does not close it when all its loops pass one a handler holds |
| Ancestry.TrappedToo | ContainerFS/pkg/p9/server.go:166-182 | if leaving its parent would close a reference, the same holds of everything on its loop |
| Ancestry.TrappedStays | ContainerFS/pkg/p9/server.go:256-271 | and still holds after a reference outside the loop has moved |
| PathNames.TrappedAlike | ContainerFS/pkg/p9/server.go:303-312 | and does not depend on what a handler holds of the references in the FID table |
| PathNames.LostNext | ContainerFS/pkg/p9/server.go:258-264 | one more move: some reference is closed while it moves, or everything that moving would close is still to come |
| P9Server.Server.constructor | ContainerFS/pkg/p9/server.go:49-53 | an empty server is valid |
| P9Server.Server.IncRef | ContainerFS/pkg/p9/server.go:161-163 | one owner more |
| P9Server.Server.Drop | ContainerFS/pkg/p9/server.go:166-182 | closes exactly the references on the way up that have no other owner, each once; a reference between two parents is lost exactly when it is one of them |
| P9Server.Server.CloseMoving | ContainerFS/pkg/p9/server.go:166-182 | closes a reference between two parents; the second drop of its old parent closes nothing |
| P9Server.Server.DecRef | ContainerFS/pkg/p9/server.go:166-182 | the same between handlers: counts, registration and loops are kept |
| P9Server.Server.LookupFID | ContainerFS/pkg/p9/server.go:303-312 | finds the reference and takes it |
| P9Server.Server.InsertFID | ContainerFS/pkg/p9/server.go:318-327 | installs a reference and drops the one it replaces |
| P9Server.Server.DeleteFID | ContainerFS/pkg/p9/server.go:332-342 | removes an entry and drops its reference |
| P9Server.Server.PathNodeFor | ContainerFS/pkg/p9/path_tree.go:42-51 | the path node of an entry; a new, empty one exactly if there was none |
| P9Server.Server.AddChild | ContainerFS/pkg/p9/path_tree.go:70-77 | registers a name; the panic for a reference already registered cannot happen |
| P9Server.Server.Clone | ContainerFS/pkg/p9/handlers.go:1066-1103 | a second reference with the same parent, path node, mark and name |
| P9Server.Server.DoWalk | ContainerFS/pkg/p9/handlers.go:1050-1153 | succeeds exactly under the stated conditions; then a chain of new references, each registered under its name with its parent's path node, leads to the result; on failure nothing is left owned |
| P9Server.Server.Twalk | ContainerFS/pkg/p9/handlers.go:1156-1174 | the handler: the new FID holds the walked reference, everything else stays; the exact reply, with the first step that fails |
| P9Server.Server.Tclunk | ContainerFS/pkg/p9/handlers.go:117-122 | removes the FID |
| P9Server.Server.Tattach | ContainerFS/pkg/p9/handlers.go:191-249 | the FID holds a new reference to the root or, with a path, the one a walk from such a root leads to; the exact reply |
| P9Server.Server.AttachWalk | ContainerFS/pkg/p9/handlers.go:236-247 | the walk of an attach: the walked reference is installed, the root is dropped |
| P9Server.Server.NewChild | ContainerFS/pkg/p9/handlers.go:341-361 | a created file, registered under its name |
| P9Server.Server.Tlcreate | ContainerFS/pkg/p9/handlers.go:311-368 | the exact reply; on success the FID holds the new child, open, registered and with the path node of its entry |
| P9Server.Server.NotifyDelete | ContainerFS/pkg/p9/server.go:205-218 | marks exactly the references registered with the path node or anywhere below |
| P9Server.Server.MarkChildDeleted | ContainerFS/pkg/p9/server.go:223-230 | unregisters the references with the name and marks exactly them and everything below |
| P9Server.Server.Tunlinkat | ContainerFS/pkg/p9/handlers.go:521-572 | the exact reply; on success marks exactly the references with the name and below it |
| P9Server.Server.Tremove | ContainerFS/pkg/p9/handlers.go:125-181 | the same through the file; the FID goes in any case; the exact reply |
| P9Server.Server.MoveOne | ContainerFS/pkg/p9/server.go:256-271 | one reference moves to the new parent, is registered there and owns it; it is closed on the way if and only if nothing but its own loop kept it open; all counts are right either way |
| P9Server.Server.RenameChildTo | ContainerFS/pkg/p9/server.go:256-271 | every reference with the old name moves to the target, what had the new name is marked, others keep parents and names; the moved path node is stored in the source directory; a single reference with the name is closed while it moves if and only if nothing but its own loop kept it open; of several, one at least is, in any order, if that holds of one, and only such as were above themselves |
| P9Server.Server.Trenameat | ContainerFS/pkg/p9/handlers.go:465-518 | when it succeeds, all of that, whatever state it starts from; and parents stay free of loops if and only if nothing with the old name is the target or above it |
| P9Server.Server.RenameRef | ContainerFS/pkg/p9/handlers.go:575-636 | the rename through a file: all of that for the entry of the file, and the exact condition of its panic |
| P9Server.Server.Trename | ContainerFS/pkg/p9/handlers.go:575-636 | the handler, with the same results |
| P9Server.Server.Stop | ContainerFS/pkg/p9/server.go:469-484 | drops the FIDs of a connection; with none and no handler left every file is closed exactly once if and only if no reference was on a loop or closed while it moved |
| P9Server.Server.OwnedWhileOpen | ContainerFS/pkg/p9/server.go:161-182 | in every valid state a count is the number of FIDs, children and handlers that own the reference; the file is open exactly while there are any |
| P9Server.Server.NameIsThere | ContainerFS/pkg/p9/path_tree.go:56-63 | a live undeleted reference with a parent is registered, so its name is found |
| P9Runs.OpenForEver | ContainerFS/pkg/p9/server.go:256-271 | a run of handlers from the start that ends with no FID, no handler and a file still open, its own parent |
| P9Runs.EndsInPanic | ContainerFS/pkg/p9/handlers.go:606-610 | a run that ends in the panic of a rename |
| P9Runs.ClosesWhileMoving | ContainerFS/pkg/p9/server.go:256-271 | a run whose last rename closes the file it moves; it is registered all the same, and the root it then owns stays open without any FID |

## Left out

- Atomics are sequentially consistent; the Go memory model and the assembly version of `commitSleep` are not modelled.
- Refs.StepKeeps: reference and try counts stay below 2^31, so overflow of the packed word is not modelled.
- Gate.StepKeeps: fewer than 2^31 users and one closer.
- Weak references and their zapping (refcounter.go:86-173, 240-251): the weak reference list, `Get` and the zapping by the destructor are not modelled.
- Which goroutine the scheduler picks: progress is stated as an enabled step, not as fairness.
- bpf/decoder.go prints programs; `Install`, `SetFilter` and the capability probe call the kernel.
- SeccompBuild.SortedSyscalls: the library sort is modelled by insertion; the log output is left out.
- The B-tree keeps its nodes in a map from references to nodes, with elements and children as sequences instead of fixed arrays and counters; the clearing of unused slots is not modelled.
- SegmentSets.SegmentSet.Add: keys are unbounded integers, so a reversed range has a negative length where unsigned keys would wrap around.
- Checked variants of merging, splitting and iterator setters, `MergeRange`, `MergeAdjacent`, `ApplyContiguous`, `Span`, and export and import are compositions of what is here.
- Framing.StreamRoundTrip: compression and the keyed hash are any functions with an inverse and a fixed length; pooled buffers and the inline buffers of `Write` and `Read` are not modelled.
- Readdir.RoundTrip: names of 2^16 bytes and more, whose length prefix wraps around, are excluded; `Rreaddir.Encode` is stated for all.
- The reflection, encoding and cycle printing of state decoding.
- P9Server.Server.RenameChildTo: with several references of one name, one that is above itself and has other owners may or may not be closed while it moves, depending on the order in which the map is walked; which orders do so is not characterised.
- P9Server.Server.Drop: handlers are whole steps; a rename between the last decrement and the unregistering of a reference is not modelled.
- P9Server.Server.Tattach: the authentication FID, the splitting of the attach path and the closing of a root file whose attributes cannot be read are not modelled.
- 9P handlers that look up a FID, ask the backend and drop it again; the `Renamed` notifications; file modes beyond directory and open; QIDs and attributes; tags and flushing.
- The DHCP, vdso, cpuid, tcpip and urpc packages, and everything that talks to the system.
