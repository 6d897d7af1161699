# Verified model of the v2 65816 recompiler

The recompiler turns 65816 machine code into C. What matters is that it keeps the
meaning of the code: it must decode every instruction under the operand widths it is
executed with, build the right control flow around it, drop only variants
that nothing needs, and emit C whose stack, returns, flags and decimal
arithmetic behave like the processor. This project models those parts and
proves what they are for, for all inputs.

`dafny verify dfyconfig.toml` checks everything. No file of the original program
is needed for that.

## How the model is laid out

| file | what it models |
|---|---|
| `Machine.dfy` | widths, decode keys, instructions, LoROM mirrors |
| `Decoder.dfy` | `post_state`, the successor rules, the gated worklist |
| `Gates.dfy`, `Succession.dfy` | what a decode takes in and where instructions lead, spelled out |
| `Dedupe.dfy`, `DecodedMerge.dfy` | merging keys that differ only in saved widths; what it does to branches of a decoded graph |
| `Listings.dfy`, `ListedStages.dfy`, `Lines.dfy` | how the stages treat functions given by a listing, and straight-line ones |
| `CutBranch.dfy` | a branch whose targets are rejected, through decode and merge |
| `ConstZFold.dfy` | folding BEQ/BNE after an immediate load, reachability prune |
| `ExitAnalysis.dfy` | the meet of the widths at a function's exits |
| `ModeMachine.dfy` | the processor as far as widths go: nested calls, unbounded P stack |
| `ExitSoundness.dfy` | inferred exit widths are the widths of every returning execution |
| `ExitModes.dfy` | the exit-mode fixpoint and the records it emits |
| `ExitExample.dfy` | a caller and a callee on which all premises of exit-mode soundness hold |
| `MirrorExample.dfy`, `RtiExample.dfy` | mirrored entries with different exits; functions that end in RTI |
| `Graphs.dfy`, `DomTree.dfy`, `DomInvariants.dfy`, `Dominators.dfy` | path dominance and the iterative dominator loop |
| `Frontier.dfy` | dominance frontiers |
| `Blocks.dfy`, `Lowering.dfy` | leaders, basic blocks, `build_cfg`; blocks of a folded function |
| `BlockRuns.dfy` | executions of the machine code, block by block |
| `PlpJoin.dfy` | a PLP reached with two saved widths, through decode, merge, fold and blocks |
| `Trampolines.dfy`, `StackBytes.dfy` | the stack-delta collecting analysis; stack instructions byte by byte |
| `Prune.dfy`, `Routing.dfy` | variant pruning and variant routing |
| `ReturnFrames.dfy` | return frames on cpu->S, tail calls, SKIP_N unwinding |
| `Flags.dfy` | flag mirrors and the lagging P byte |
| `Bcd.dfy` | decimal ADC and SBC |
| `Crc32.dfy`, `CrcPolynomial.dfy` | CRC-32; the CRC as a remainder of polynomial division |

Where the source loops over mutable state the model is a method proved against a
specification; pure case analysis stays functions. The main theorems:

- `ExitSoundness.ExitsSound`: if the exit table is what a clean pass leaves, every
  execution of a recorded function, through calls nested to any depth, the decoder's
  recovered dispatch edges and hand-overs to dispatch handlers, leaves in exactly the
  recorded widths, and also returns in them iff the RTI that may end it pulls the widths
  it ran in. It goes through the decode worklist, the merge and the fold, whose exact
  relations are the postconditions of `DecodeFunction`, `Merge` and `Fold`. Its premises
  are: the seeds are right (about the widths before an RTI), PHP nests at most eight deep,
  no PLP pulls a P the function did not push, XCE comes only where both widths are 8 bits
  (all three in `ModeMachine.Trackable`), an RTI that ends a call pulls the widths it ran
  in, calls reach recorded entries, edges pass the gates, and no function starts with a
  branch that the fold decides. `ExitExample.PremisesMet` and `ExitExample.CallerRuns`
  show that they can be met, with a call that changes the widths between a PHP and its
  PLP.
- `BlockRuns.RunIsBlockRun`: under the same premises the execution of a function is
  executed block by block in its control-flow graph, provided that splits inside a block
  lead only to leaders.
- `Dominators.ComputeDominators`: the Cooper-Harvey-Kennedy loop ends and yields the
  path-sense immediate dominators of exactly the reachable blocks.
- `ReturnFrames.BalancedCall` and `ReturnFrames.ResumesExactly`: balanced nested
  calls, with tail calls anywhere, return through the host stack to the address after
  the call; after a return to an ancestor exactly one condition on frames and tail calls
  decides which caller resumes.
- `CrcPolynomial.CrcIsRemainder`: the complement of the computed CRC is the remainder of
  polynomial division by the generator of IEEE 802.3, and the only one.
- `Prune.PruneNeverStrands` with `Routing.EveryModeStillRoutes`: pruning never leaves a
  runtime mode without a target, given that a canonical variant kept its cfg entry.

## Properties that do not hold everywhere

For each of these there is a lemma with a concrete input that breaks the property and
a lemma with the exact condition under which it holds.

- The constant-Z fold changes what a function does when its entry is itself a folded
  branch (`ConstZFold.EntryLoopLosesReturn`, exact: `ConstZFold.ExecutionsKept`).
- A branch reached with two P histories whose targets were rejected gets more than two
  successors (`CutBranch.OutsideTargetsMultiply`, exact: `DecodedMerge.BranchKept`, and
  `Dedupe.NoneAdded` for any instruction).
- Blocks miss reachable code behind a PLP that two saved widths reach
  (`PlpJoin.LosesCode`, exact: `Lowering.FoldedPartition`).
- The frontier walk misses an entry block that is a loop header
  (`Frontier.EntryLoopMissed`, exact: `Frontier.FrontierAtEntry`).
- The static tracking of widths differs from the processor's past eight nested PHPs, on a
  PLP of the caller's P and on XCE with a 16-bit width (`ExitSoundness.TrackingLost`, exact:
  `ExitSoundness.TrackingExact`).
- The exit recorded for a function that ends in RTI is not the widths after the pull
  (`RtiExample.RtiRecordedWrong`, exact: `RtiExample.RtiExit`).
- Rebuilding the exit table from hints and emitted records changes where a call resumes
  when the mirror's record shows through a width-preserving exit, and when a hint is not
  taken up because its widths were not discovered (`MirrorExample.MirrorShadows`,
  `ExitModes.HintForUndiscovered`, exact: `ExitModes.RecordsSuffice`).
- SKIP_N counts frames from the return up, but a tail call pops its frame without
  decrementing it. With a tail call below the ancestor the ancestor's caller returns early
  (`ReturnFrames.TailOvershoots`), and one level further out another caller resumes in its
  place, two bytes too low (`ReturnFrames.OvershootResumesOuterCaller`). Exact:
  `ReturnFrames.ResumesExactly`; for an ancestor in the callee's own tail chain
  `ReturnFrames.AncestorCallerResumes`.
- A push on a full recomp stack is dropped, its pop is not, so past 64 frames a live
  caller's frame is lost (`ReturnFrames.FullStackLosesCaller`, exact:
  `ReturnFrames.CapExact`; with no caller on the stack `ReturnFrames.CapAtBottom`).

Where comments and code differ the model follows the code: exit-mode inference makes
up to twelve passes and does revise and delete records (its header speaks of records
that are never revised and of eight passes); `host_return_valid` holds the frame size 2
or 3, not 1.

## Model

| member | source | states |
|---|---|---|
| `Decoder.DecodeFunction` | recompiler/v2/decoder.py:1558-1637 | on success the decoded keys are exactly those the entry key reaches through edges that pass the end, sibling, bank and ROM gates, each with its exact record; otherwise a reached key has no instruction or as many reached keys as the limit were found |
| `Decoder.Grow` | recompiler/v2/decoder.py:2171-2181 | recording one instruction and queueing its edges keeps the worklist sound and complete |
| `Decoder.TrailDecoded` | recompiler/v2/decoder.py:942-1101 | an execution along accepted edges stays in the graph, and every key on it has a record decoded under its own widths, so two modes at one address keep two records |
| `Gates.SiblingsFallenInto` | recompiler/v2/decoder.py:1597-1625 | a decoded key at the entry of a sibling is the function's own entry, or some decoded instruction leads to it otherwise than by a jump |
| `Gates.PastTheEnd` | recompiler/v2/decoder.py:1585-1596 | a decoded key at or past the end is the entry, the target of a jump, or falls from a key at or past the end |
| `Gates.DecodedIsCode` | recompiler/v2/decoder.py:1626-1635 | every decoded address lies in $8000-$FFFF and its LoROM offset in the ROM |
| `Gates.NothingElseLeftOut` | recompiler/v2/decoder.py:1584-1635 | an edge of a decoded instruction that none of these excludes has its target decoded |
| `Gates.EntryIsCode` | recompiler/v2/decoder.py:1575-1635 | the entry is decoded iff it is code |
| `Succession.Edges65816` | recompiler/v2/decoder.py:975-1001 | mnemonic by mnemonic, the addresses, kinds and states that an instruction other than a call leads to |
| `Succession.DispatchAsked` | recompiler/v2/decoder.py:1649-1660 | only jumps, calls and PHA are looked up as recovered dispatches, under the function, the site and the widths |
| `Succession.DispatchEdges` | recompiler/v2/decoder.py:2171-2181 | a recovered dispatch queues its handlers after the plain edges, if it resumes, and is recorded with its own successors and table |
| `Succession.Untracked` | recompiler/v2/decoder.py:892-913 | a ninth PHP, a PLP on nothing and any instruction but REP, SEP, PHP and PLP leave the tracked state as it is |
| `Succession.TargetIs` | recompiler/v2/decoder.py:1021-1026 | a short call stays in its bank, a long one names 24 bits, a call through a table names nothing |
| `Succession.LookedUp` | recompiler/v2/decoder.py:1048-1066 | a table is asked for the address and, only if that is not in it, for its LoROM mirror |
| `Succession.SkipIs` | recompiler/v2/decoder.py:1027-1047 | the inline arguments that are skipped are those of the callee or of its mirror |
| `Succession.CallsResume` | recompiler/v2/decoder.py:1020-1097 | a call resumes behind itself and the inline arguments in exactly the widths that the recorded exit gives, or else the one or two modes before a conditional branch, or else its own |
| `Succession.UnknownCallResumes` | recompiler/v2/decoder.py:1020-1097 | a call through a table that was not recovered resumes behind itself as it was made |
| `Dedupe.PickCanonical` | recompiler/v2/decoder.py:2220-2228 | each key is mapped to the first key found with its address and widths |
| `Dedupe.AppendNew` | recompiler/v2/decoder.py:2251-2261 | exactly the images not yet present are appended, each once, after what was there |
| `Dedupe.Merge` | recompiler/v2/decoder.py:2207-2268 | the merged graph holds the representatives, each with the images of all edges of its slot and no others, its own edges first and in place; the entry is remapped |
| `Dedupe.OnePerSlot` | recompiler/v2/decoder.py:2220-2263 | one key per address and widths remains and none is lost |
| `Dedupe.SameRep` | recompiler/v2/decoder.py:2220-2228 | two keys share a representative iff they share address and widths |
| `Dedupe.EdgesExact` | recompiler/v2/decoder.py:2239-2261 | an edge is in the merged graph iff it is the image of an edge of the graph |
| `Dedupe.WalkMaps` | recompiler/v2/decoder.py:2239-2261 | every walk maps to a walk of the merged graph |
| `Dedupe.PositionsKept` | recompiler/v2/decoder.py:2231-2250 | the representative keeps its instruction, and its own successors keep their positions: fall-through at 0, target at 1 |
| `Dedupe.NoneAdded` | recompiler/v2/decoder.py:2244-2261 | a merged instruction keeps its number of successors iff every key of its slot leads only where the representative leads |
| `DecodedMerge.BranchKept` | recompiler/v2/decoder.py:2207-2268 | in a graph the worklist decoded, a merged conditional branch keeps two successors iff its slot has one key or every target of the slot's keys was decoded |
| `CutBranch.BranchGrows` | recompiler/v2/decoder.py:2244-2261 | for BCC over a PHP to a BEQ whose targets the gates reject, every decode and merge leaves the BEQ with more than two successors |
| `CutBranch.OutsideTargetsMultiply` | recompiler/v2/decoder.py:2207-2268 | that function decodes and merges to such a graph |
| `ConstZFold.CollectPreds` | recompiler/v2/decoder.py:2458-2462 | the predecessor map holds exactly the edges of the graph |
| `ConstZFold.Decider` | recompiler/v2/decoder.py:2471-2488 | finds the immediate load that decides a branch iff there is one |
| `ConstZFold.FoldBranches` | recompiler/v2/decoder.py:2464-2516 | every decided branch keeps only its live edge and nothing else changes |
| `ConstZFold.MarkReachable` | recompiler/v2/decoder.py:2537-2548 | marks exactly the keys the entry reaches inside the graph |
| `ConstZFold.Fold` | recompiler/v2/decoder.py:2425-2551 | the result is the folded graph restricted to what its entry reaches |
| `ConstZFold.LoadsZeroIs` | recompiler/v2/decoder.py:2491-2499 | in all four widths the Z that the fold computes is that of a processor which loads A by as many bytes as M says and X or Y by as many as X says |
| `ConstZFold.AnyRegisters` | recompiler/v2/decoder.py:2491-2499 | that Z does not depend on what the registers held before |
| `ConstZFold.FoldExact` | recompiler/v2/decoder.py:2464-2516 | a BEQ or BNE whose one predecessor is an immediate load that leads only there keeps the way the processor takes; every other instruction stays as it is |
| `ConstZFold.ExecutionsKept` | recompiler/v2/decoder.py:2455-2551 | folding and pruning keep the set of executions, with Z set by the immediate load at its width, iff the entry is not a folded branch with two different targets |
| `ConstZFold.SurvivorsReached` | recompiler/v2/decoder.py:2537-2551 | every surviving instruction is reached inside the surviving graph |
| `ConstZFold.FoldedEntryLoses` | recompiler/v2/decoder.py:2466-2516 | a folded entry loses the execution that enters it with the other Z |
| `ConstZFold.EntryLoopLosesReturn` | recompiler/v2/decoder.py:2466-2516 | LDA #0; BEQ back, entered at the BEQ, loses its return |
| `ExitAnalysis.MeetHandlers` | recompiler/v2/decoder.py:2386-2414 | meets exactly the recorded exits of a dispatch's handlers and fails iff one has no record |
| `ExitAnalysis.HandlerIs` | recompiler/v2/decoder.py:2376-2403 | control is handed over by a JSL or JMP with a table and no successors, to the non-zero entries, long ones with their own bank and short ones in that of the dispatch |
| `ExitAnalysis.Analyze` | recompiler/v2/decoder.py:2318-2422 | gives a flag value iff all handlers are known, some exit exists and all exits agree on that value |
| `ExitSoundness.TrackingExact` | recompiler/v2/decoder.py:871-913 | for every instruction and tracked stack, the static tracking of widths and saved widths equals the processor's, whatever the carry and the caller's P, iff PHP nests within the limit, PLP pulls a P of this function and XCE comes in 8-bit widths |
| `ExitSoundness.TrackingLost` | recompiler/v2/decoder.py:898-912 | XCE into emulation and a PLP of the caller's P leave 16-bit code in 8-bit widths that the tracking does not see, and a ninth nested PHP is dropped, so the PLP after it gives the widths of the eighth |
| `ExitSoundness.RunLeaves` | recompiler/v2/decoder.py:2356-2422 | from any point inside the folded graph an execution that ends in RTS, RTL or RTI leaves, before the pull of an RTI, in widths with which the analysis sees the graph left |
| `ExitSoundness.ExitsSound` | recompiler/v2/exit_mx_autoroute.py:232-276 | every execution of a recorded function, calls nested to any depth, leaves in exactly the recorded widths, and returns in them iff the RTI that may end it pulls the widths it ran in |
| `ExitModes.DecodeVariantExit` | recompiler/v2/exit_mx_autoroute.py:101-150 | gives widths only if the exits of the decoded, merged and folded variant have exactly these in common, and none only if decoding fails or they have none in common |
| `ModeMachine.DecodedUnder` | recompiler/v2/exit_mx_autoroute.py:137-141 | a variant is decoded from its own start and widths up to its end, without siblings, under the table as it is |
| `ExitModes.Reroute` | recompiler/v2/exit_mx_autoroute.py:246-273 | a named unseeded variant ends with the exit that decoding under the table derives, or with none iff none can be derived; all other records stay, and a change is reported iff there is one |
| `ExitModes.Pass` | recompiler/v2/exit_mx_autoroute.py:236-276 | the tables of a pass: each variant in turn is re-derived under the table that the one before left; it is dirty iff some step changed its table |
| `ExitModes.QuietIsClean` | recompiler/v2/exit_mx_autoroute.py:275-276 | a pass that changes nothing leaves every named entry settled |
| `ExitModes.PassAnswers` | recompiler/v2/exit_mx_autoroute.py:236-273 | after any pass each named unseeded variant has a record derived under a table of that pass, or none because none could be derived |
| `ExitModes.SeedExits` | recompiler/v2/exit_mx_autoroute.py:223-231 | the seeds are the hints for all four entry widths, the last hint for an address winning |
| `ExitModes.EmitRecords` | recompiler/v2/exit_mx_autoroute.py:278-306 | the records are exactly the unseeded exits that change the widths |
| `ExitModes.InferExits` | recompiler/v2/exit_mx_autoroute.py:232-276 | at least one pass is made, each from the table of the one before, and passes go on while they change something, up to twelve |
| `ExitModes.DetectAndRoute` | recompiler/v2/exit_mx_autoroute.py:217-306 | the whole run from the seeds on; clean or not, every record is one that the last pass derived; seeds are unchanged, a clean end leaves a consistent table, and the records emitted are exact |
| `ExitModes.CleanExitsSound` | recompiler/v2/exit_mx_autoroute.py:232-276 | after a clean pass all executions leave as recorded, and return so iff the RTI that may end them pulls the widths it ran in |
| `ExitExample.PremisesMet` | recompiler/v2/exit_mx_autoroute.py:232-276 | inference itself leaves a table with which a caller (PHP, JSR, PLP, RTS) and its callee (SEP #$20, RTS) meet all premises of `ExitsSound` |
| `ExitExample.CallerRuns` | recompiler/v2/decoder.py:942-1101 | the caller has a returning execution in every entry widths, with the call resumed in the callee's narrowed ones |
| `ExitExample.InferProgram` | recompiler/v2/exit_mx_autoroute.py:217-306 | inference on that program without hints ends clean, with exactly the derived table |
| `RtiExample.RtiExit` | recompiler/v2/codegen.py:2131-2146 | for every function with an RTI that survives decoding, merging and folding, the common exit is the widths after the emitted pull iff the pulled P has the widths that the RTI ran in |
| `RtiExample.RtiRecordedWrong` | recompiler/v2/codegen.py:2131-2146 | for a handler in 16-bit widths that returns to 8-bit code inference derives 16-bit widths |
| `ExitModes.RecordsSuffice` | tools/v2_regen.py:690-733 | calls resume alike under the inferred table and the one rebuilt from hints and records iff no preserving exit is shadowed by its mirror, no hint for undiscovered widths is lost, and none is lost for the mirror |
| `ExitModes.HintForUndiscovered` | tools/v2_regen.py:706-718 | a hint for an address with no discovered variant no longer holds for 16-bit entry |
| `MirrorExample.UpperShadowed` | recompiler/v2/decoder.py:1051-1066 | of two mirrored entries with different end addresses, the one that keeps its widths resumes in the other's once the table is rebuilt, in every widths but 16-bit and whatever was discovered |
| `MirrorExample.MirrorShadows` | recompiler/v2/exit_mx_autoroute.py:232-276 | the table of these two entries is one on which inference stops |
| `Dominators.DepthFirst.Visit` | recompiler/v2/cfg.py:181-191 | depth-first search appends the newly reached blocks, the starting one last, every other before one of its predecessors |
| `Dominators.ReversePostorder` | recompiler/v2/cfg.py:177-196 | the order lists exactly the reachable blocks, the entry first, every other with a predecessor before it |
| `Dominators.Intersect` | recompiler/v2/cfg.py:200-207 | ends, and gives the nearest common ancestor of two blocks in the current tree |
| `Dominators.Visit` | recompiler/v2/cfg.py:212-222 | one block's update keeps the approximation of dominance and moves its parent only up |
| `Dominators.Sweep` | recompiler/v2/cfg.py:210-222 | one round keeps the invariants, and a round without change is a fixpoint |
| `Dominators.ComputeDominators` | recompiler/v2/cfg.py:168-224 | ends; maps exactly the reachable blocks, the entry to itself and every other to its immediate dominator in the sense of paths |
| `DomInvariants.FixpointIsDominance` | recompiler/v2/cfg.py:208-224 | at a fixpoint the ancestors of a block are exactly its dominators |
| `DomInvariants.HeightDrops` | recompiler/v2/cfg.py:208-223 | each change lowers a measure, so the loop ends |
| `Frontier.WalkUp` | recompiler/v2/cfg.py:243-250 | the walk adds a block to the frontiers of exactly the ancestors below its immediate dominator |
| `Frontier.FrontierExact` | recompiler/v2/cfg.py:227-252 | for every block but the entry, y is in the computed frontier of x iff x dominates a predecessor of y and does not strictly dominate y |
| `Frontier.ComputeFrontier` | recompiler/v2/cfg.py:227-252 | computes exactly what the walks collect |
| `Frontier.FrontierAtEntry` | recompiler/v2/cfg.py:238-250 | the equivalence extends to the entry iff no reachable block branches back to it |
| `Frontier.EntryLoopMissed` | recompiler/v2/cfg.py:238-250 | an entry that is a loop header is in a frontier that is not computed |
| `Blocks.ReverseEdges` | recompiler/v2/cfg.py:92-110 | counts incoming edges with multiplicity |
| `Blocks.IdentifyLeaders` | recompiler/v2/cfg.py:92-110 | the leaders are exactly the entry, successors of block-enders and joins |
| `Blocks.WalkBlock` | recompiler/v2/cfg.py:121-152 | from a leader follows single successors without repetition up to the next leader, a block-ender or a split |
| `Blocks.BuildBlocks` | recompiler/v2/cfg.py:113-165 | every leader in the code gets its block, with the successors of its last instruction |
| `Blocks.WirePredecessors` | recompiler/v2/cfg.py:159-165 | predecessor lists hold exactly the reversed block edges |
| `Blocks.TransfersComeLast` | recompiler/v2/cfg.py:42-47 | returns, stops, branches, jumps and calls come only at the end of a block, and a block that ends with anything else ends before a leader, at a split or where the code ends |
| `Blocks.TransfersLead` | recompiler/v2/cfg.py:98-104 | what a return, stop, branch, jump or call leads to inside the code starts a block |
| `Blocks.BuildCfg` | recompiler/v2/cfg.py:255-278 | blocks, dominators and frontiers of one function fit together; an entry that was not decoded gives no dominators |
| `Blocks.BlocksDisjoint` | recompiler/v2/cfg.py:113-165 | an instruction lies at one place of one block at most |
| `Blocks.PartitionExact` | recompiler/v2/cfg.py:92-165 | with all instructions reachable, every one lies in a block iff each instruction that does not end a block but has several successors leads only to leaders |
| `Lowering.FoldedPartition` | recompiler/v2/cfg.py:255-278 | of a folded function, whose code is all reachable, the blocks cover every instruction iff each one that does not end a block but has several successors leads only to leaders |
| `BlockRuns.RunIsBlockRun` | recompiler/v2/cfg.py:255-278 | an execution of a function under the premises of `ExitsSound` passes, in the merged and folded graph, the instructions of whole blocks along a path of the block graph from the entry and the beginning of one more |
| `BlockRuns.RunWalks` | recompiler/v2/decoder.py:2207-2551 | the keys that an execution passes in its function map to a walk of the merged and folded graph |
| `PlpJoin.LosesCode` | recompiler/v2/cfg.py:92-143 | a PLP in 8-bit widths reached with 8-bit and with 16-bit saved widths leaves reachable code outside all blocks, however the function is decoded, merged, folded and numbered |
| `PlpJoin.MergedPlp` | recompiler/v2/decoder.py:1558-1637 | that function does decode, merge and fold |
| `Blocks.BlockRunIsCodeRun` | recompiler/v2/cfg.py:113-165 | executing block by block executes a path of the decoded code |
| `Blocks.CodeRunIsBlockRun` | recompiler/v2/cfg.py:113-165 | every path of decode edges from the entry is executed block by block |
| `Trampolines.ClampIs` | recompiler/v2/emit_function.py:186-190 | the clamp gives the nearest delta within 64 bytes |
| `Trampolines.ClampInvisible` | recompiler/v2/emit_function.py:186-190 | on paths that stay within 64 bytes the clamped delta is the counted one, counted since the last TCS or TXS |
| `StackBytes.StepMoves` | recompiler/v2/emit_function.py:147-183 | the delta of an instruction is the number of bytes by which executing it byte by byte, in the widths in force, lowers S; it has none iff it sets S |
| `StackBytes.DeltaIsLevel` | recompiler/v2/emit_function.py:147-183 | on any path without TCS or TXS the counted delta is the entry level less S |
| `StackBytes.CountsAfresh` | recompiler/v2/emit_function.py:227-231 | after TCS or TXS only what follows counts |
| `StackBytes.UnbalancedExactly` | recompiler/v2/emit_function.py:215-237 | within 64 bytes and without TCS or TXS a return is a trampoline iff S is off its entry level and the path has a PEA, PEI or PER |
| `StackBytes.PulledBack` | recompiler/v2/emit_function.py:155-183 | PHA/PLA, PHX/PLX, PHY/PLY, PHD/PLD, PHP/PLP and PHB/PLB in the same widths give S back and count as nothing |
| `Trampolines.ScanBlock` | recompiler/v2/emit_function.py:215-237 | one block's states and flagged returns are exactly those of its instructions |
| `Trampolines.Propagate` | recompiler/v2/emit_function.py:240-247 | successors receive exactly the outgoing states and are queued when they gain one |
| `Trampolines.ClassifyReturns` | recompiler/v2/emit_function.py:192-249 | ends, and flags a return iff some path from the entry reaches it with non-zero clamped delta after a PEA, PEI or PER |
| `Prune.PropagateTaint` | tools/v2_regen.py:619-653 | taints exactly the variants from which a chain of direct references leads to a stub-marked variant or to one missing from a cfg bank |
| `Prune.ReferenceTaint` | tools/v2_regen.py:2147-2169 | when the loop ends, a surviving, unprotected, non-canonical variant with a safe canonical sibling leads to no bad body |
| `Prune.Pruner.Pass` | tools/v2_regen.py:2082-2169 | one pass drops every wrong-width variant and, unless the emit is stable without a new one, only these; nothing it drops is declared, linked from skipped banks or named directly by a body that is declared or not dirty; it ends the loop iff the emit is stable and nothing was dropped |
| `Prune.PassIs` | tools/v2_regen.py:590-616 | the same of the pruning relation, from the references, dirty and emitted sets alone |
| `Prune.PassAdds` | tools/v2_regen.py:394-466 | a pass adds only variants that are neither canonical nor protected and keep an emitted canonical sibling |
| `Prune.PruneNeverStrands` | tools/v2_regen.py:590-616 | over every build the pruned set grows, holds no canonical variant, and each address with a pruned variant keeps an emitted canonical one that is never pruned |
| `Routing.NearestSurvivor` | recompiler/v2/codegen.py:275-288 | picks a survivor to which none is closer, the accumulator width counting before the index width; none iff there is none |
| `Routing.RoutesToSurvivor` | recompiler/v2/codegen.py:256-364 | with survivors recorded all four modes name a survivor, the exact one or the closest, the default the one closest to 16-bit widths, and a direct call agrees with the switch |
| `Routing.RecordedIs` | recompiler/v2/codegen.py:256-272 | the survivors of an address are those recorded for it or, failing that, for its LoROM mirror |
| `Routing.UnrecordedRoutes` | recompiler/v2/codegen.py:256-272 | without a record every mode and every direct call names its own variant |
| `Routing.ApplyPrune` | tools/v2_regen.py:656-687 | each cfg keeps exactly its unpruned entries, and the survivor map is what they declare |
| `Routing.BuildSurvivors` | tools/v2_regen.py:670-687 | the map holds the preserved survivors and, elsewhere, exactly the declared ones |
| `Routing.RoutesAvoidPruned` | tools/v2_regen.py:656-687 | after a prune no mode is routed to a pruned variant of an address that keeps one |
| `Routing.PreservedRoutes` | tools/v2_regen.py:670-687 | an address with preserved survivors routes every mode and every direct call to one of them |
| `Routing.EveryModeStillRoutes` | tools/v2_regen.py:2082-2107 | at the end of any build, an address that lost variants routes every mode and every direct call: to a preserved survivor if the address has some, and otherwise to an unpruned variant, given that an emitted canonical sibling still has its cfg entry |
| `ReturnFrames.PushFrameHolds` | recompiler/v2/codegen.py:1891-1926 | a call pushes the frame whose popped address is the address after the call, and touches nothing else |
| `ReturnFrames.LevelRestored` | recompiler/v2/codegen.py:2147-2193 | a call of a balanced function returns normally, and at the level before the call iff RTS answers JSR and RTL answers JSL |
| `ReturnFrames.BalancedRun` | recompiler/v2/emit_function.py:711-728 | in a nested execution with tail calls anywhere every return is a host return that pops the address after its call |
| `ReturnFrames.BalancedCall` | recompiler/v2/codegen.py:2037-2087 | a balanced call gives back stack level and bank, leaves live frames alone, and all its returns are host returns |
| `ReturnFrames.FramesRestored` | runner/src/common_cpu_infra.c:256-258 | within the cap of 64 every function pops exactly its own recomp frame, however it returns |
| `ReturnFrames.CapExact` | runner/src/common_cpu_infra.c:366-380 | a balanced run with a caller on the stack gives back its callers' frames iff it stays within the cap |
| `ReturnFrames.CapAtBottom` | runner/src/common_cpu_infra.c:366-380 | with no caller on the stack it is left empty either way |
| `ReturnFrames.PushEntryIs` | recompiler/v2/emit_function.py:1858-1862 | a function records its entry level on top of the recomp stack, in place of the top frame if the stack is full |
| `ReturnFrames.FullStackLosesCaller` | runner/src/common_cpu_infra.c:256-258 | on a full stack one call of a function that returns at once loses its caller's frame |
| `ReturnFrames.NearestIs` | runner/src/common_cpu_infra.c:203-218 | the frame found is the nearest one entered at the wanted level, none iff there is none |
| `ReturnFrames.ReturnTakes` | recompiler/v2/codegen.py:2189-2218 | a return goes to the host caller iff there is one and the stack is at its entry level, to the nearest ancestor entered at another level of the stack if there is one, and else to a dispatch, with the address popped |
| `ReturnFrames.EscapeRun` | recompiler/v2/codegen.py:2192-2218 | every run within the cap, whatever ancestor returns its calls resolved, either hands on nothing to unwind, the stack as if the frame it was entered with had been popped, or ends with a return to an ancestor: the stack at that frame's level, its frame popped, with as many levels to unwind as frames in between plus tail calls passed |
| `ReturnFrames.ResumesExactly` | recompiler/v2/codegen.py:2076-2084 | after a return to an ancestor a caller resumes iff the ancestor's frame number is its own count of frames plus the tail calls passed; otherwise it returns early whatever follows its call |
| `ReturnFrames.CallersReturnEarly` | recompiler/v2/codegen.py:2076-2084 | every caller from the return up to and including the ancestor returns early, with one level too many for each tail call made since the ancestor was entered |
| `ReturnFrames.AncestorCallerResumes` | recompiler/v2/codegen.py:2055-2059 | the caller of the function whose own tail chain holds the ancestor resumes iff no tail call was made after the ancestor was entered; the stack is at the level before the call iff the return fits the call |
| `ReturnFrames.OvershootingExists` | recompiler/v2/emit_function.py:711-728 | a function whose callee tail-calls one that unwinds to it escapes to itself with a tail call made after it was entered |
| `ReturnFrames.TailOvershoots` | recompiler/v2/emit_function.py:723-728 | the caller of that function returns early |
| `ReturnFrames.OvershootResumesOuterCaller` | recompiler/v2/emit_function.py:723-728 | and the caller above it resumes in its place, two bytes too low |
| `Flags.StepRefines` | recompiler/v2/codegen.py:927-970 | one emitted flag operation is one operation of the machine with a single P |
| `Flags.ByBytes` | recompiler/v2/widths.py:71-90 | Z says that all bytes of the operand in use are zero, N is the top bit of the highest of them |
| `Flags.SyncRefines` | recompiler/v2/emitter_helpers.py:93-132 | REP and SEP lose no flag that only the mirrors hold |
| `Flags.Refines` | recompiler/v2/emitter_helpers.py:93-132 | over every sequence of flag operations both machines show the same flags and push the same bytes |
| `Flags.OnlyArithmeticLags` | recompiler/v2/widths.py:71-104 | P is always right about M, X, D and I once it is; only N, V, Z and C lag |
| `Flags.UnpackIs` | fuzz/_harness_c.py:116-137 | spreading P to the mirrors and packing them gives P back |
| `Flags.StatusRegister.RepFlags` | recompiler/v2/emitter_helpers.py:107-132 | the program sees exactly the mask cleared, no flag that only the mirrors held is lost, and P is right about every flag |
| `Flags.StatusRegister.SepFlags` | recompiler/v2/emitter_helpers.py:107-132 | the same with the mask set |
| `Flags.StatusRegister.SetFlag` | recompiler/v2/codegen.py:927-942 | the program sees the flag set; P is right about it and about all it was right about before |
| `Flags.StatusRegister.SetNZ` | recompiler/v2/widths.py:71-90 | the program sees N and Z of the operand at its width; P is right about both and about all it was right about before |
| `Flags.StatusRegister.AluFlags` | recompiler/v2/codegen.py:876-900 | the program sees the new arithmetic flags although P is unchanged |
| `Flags.StatusRegister.PushP` | recompiler/v2/codegen.py:1004-1013 | the byte pushed is that of the machine with a single P, and P has caught up with the mirrors |
| `Flags.StatusRegister.PullP` | recompiler/v2/codegen.py:1095-1101 | the flags seen are those of the pulled byte, and P is right about every flag |
| `Flags.StatusRegister.ExchangeCE` | recompiler/v2/codegen.py:960-970 | the program sees C and the emulation bit swapped and M and X forced in emulation; P is right about every flag when emulation is entered and unchanged otherwise |
| `Flags.StatusRegister.Execute` | recompiler/v2/emitter_helpers.py:93-132 | executing any sequence of these in place shows the flags and pushed bytes of the machine with a single P |
| `Bcd.EmittedAdd8` | recompiler/v2/codegen.py:654-663 | the emitted 8-bit ADC statements, result, carry and V, are the digit-by-digit definition |
| `Bcd.EmittedAdd16` | recompiler/v2/codegen.py:664-677 | the same for 16-bit ADC |
| `Bcd.EmittedSubtract8` | recompiler/v2/codegen.py:678-689 | the same for 8-bit SBC |
| `Bcd.EmittedSubtract16` | recompiler/v2/codegen.py:690-704 | the same for 16-bit SBC |
| `Bcd.AdcIsDecimalSum` | recompiler/v2/codegen.py:652-677 | on valid digits decimal ADC gives valid digits whose value with the carry is the sum |
| `Bcd.SbcIsDecimalDifference` | recompiler/v2/codegen.py:678-704 | on valid digits decimal SBC gives valid digits whose value is the difference less the borrow, modulo the range, carry meaning no borrow |
| `Bcd.AdcOverflow` | recompiler/v2/codegen.py:652-677 | on valid digits V says that the signed top digits and the decimal carry of the lower ones leave the range of a signed digit |
| `Bcd.SbcOverflow` | recompiler/v2/codegen.py:678-704 | the same for the difference of the top digits and the borrow of the lower ones |
| `Bcd.AdcAllIs` | recompiler/v2/codegen.py:644-704 | threading the carry through words of any number gives the decimal sum modulo the range with the right final carry |
| `Bcd.SbcAllIs` | recompiler/v2/codegen.py:644-704 | the same for the difference and the final borrow |
| `Bcd.SubtractionUndoes` | recompiler/v2/codegen.py:644-704 | subtracting what was added with the opposite carry gives the number back and borrows iff the addition carried |
| `Crc32.Crc.InitTable` | runner/src/crc32.c:6-14 | fills the table with eight steps of each index and marks it ready |
| `Crc32.Crc.Compute` | runner/src/crc32.c:16-22 | the result is the bit-serial reflected CRC of the data, table built or not |
| `Crc32.LookupStep` | runner/src/crc32.c:19-20 | one lookup enters one byte |
| `Crc32.BurstErrors` | runner/src/crc32.c:16-22 | messages of one length that differ only within four consecutive bytes have equal CRCs iff they are equal |
| `CrcPolynomial.IsRemainder` | runner/src/crc32.c:6-20 | after a message of n bits the register, x^n times its initial value and x^32 times the message add up to a multiple of x^32+x^26+x^23+x^22+x^16+x^12+x^11+x^10+x^8+x^7+x^5+x^4+x^2+x+1 |
| `CrcPolynomial.CrcIsRemainder` | runner/src/crc32.c:16-22 | the complement of the CRC is the remainder of that division, and no other polynomial of degree at most 31 is |

## Left out

- The text of emitted C, labels, trace calls and diagnostics: no semantic content.
- cfg and ROM file parsing, scanning emitted C for references: the reference graph and the dirty and emitted sets are inputs.
- Dispatch-table recovery, inline-argument detection and opcode decoding: their results are the abstract functions `fetch`, `dispatch` and the map `skips` of `Decoder.Env`.
- In the CFG, dominator and trampoline files a decode key is a number that identifies it; the (address, widths) meaning of a key plays no part there.
- Convergence of exit-mode inference within twelve passes and uniqueness of its fixpoint: updates can delete records, so neither follows.
- ExitSoundness.ExitsSound: calls that resolve through the LoROM mirror are executed as the recorded alias; executions through XCE in 16-bit widths, through a PLP of the caller's P, through calls without a record or past the gates are outside the statement. A seed of a function that ends in RTI is taken to name the widths before the pull.
- ModeMachine.Runs: an RTS or RTL is a return to the caller; one that pops an address the function pushed (the PHA dispatch of recompiler/v2/decoder.py:1956-1994) goes elsewhere, which inference does not see, and is not an execution here.
- ExitSoundness.RunLeaves: a `Dispatched` step is by definition one of the successors that the decoder recorded for the dispatch, and an indirect call resumes with unchanged widths whatever its handler did.
- The emulation bit is not part of the width machine: that REP and PLP cannot widen in emulation mode is enforced neither by the emitted code nor here.
- ExitModes.DecodeVariantExit: the `callee_exit_mx_modes` table is modelled in the decoder but empty here, as in the source's inference.
- ReturnFrames.BalancedRun: the popped address is claimed for stacks in low RAM whose live return frames no store hits; `entry_s_offset` and calls from synthesized sites are not modelled.
- ReturnFrames.EscapeRun: a dispatch on the popped address is modelled as a miss; a hit enters other functions and is not modelled.
- ReturnFrames.EscapeRun, ReturnFrames.ResumesExactly, ReturnFrames.CallersReturnEarly, ReturnFrames.AncestorCallerResumes: for runs within the cap of 64 frames; past it a live caller's frame is lost (`CapExact`), and which ancestor is then found is not stated.
- Bcd.AdcIsDecimalSum: digits that are not decimal are in the emitted statements, but nothing is stated about their sums.
- Flags.Refines: the forced M and X of PLP in emulation mode belong to the processor, not to the emitted code, and are in neither machine.
- Trampolines.ClampInvisible: TCS and TXS set the counter to 0 as in the source, so a delta counts the bytes since the last of these, not since the function was entered.
- `scan_tail_call_stack_delta` and `scan_rts_stack_deltas`: their edge guard stops propagation when a state set grows later, so agreement on all paths does not follow from the code.
- Interrupt entry, HLE stubs, `force_variant_at`, the interpreter tier and the runtime dispatch table.
- Opcode and cycle tables, decode memoization, LoROM offset arithmetic beyond the ROM gate: finite or easy.
