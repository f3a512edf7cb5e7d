# Verification of the cco compiler's middle end

cco compiles a small systems language with compile-time ownership to x86-64 or C11. This project models the parts of the
compiler whose correctness everything else rests on, and proves what they promise, on every input:

- **Optimizer** (`OptFold`, `OptReplace`, `OptDce`, `OptCfg`, `OptFinished`, `Optimizer`): the block IR with a step
  semantics, the six passes and the driver loop as methods of a class that edits its blocks, the proof that no pass and
  no number of rounds changes what a function prints, calls and returns, unless it trapped, and what is left when they
  are done.
- **Lowering** (`Ast`, `Lower`, `LowerShape`, `LowerSound`, `LowerCtx`, `LowerNames`, `LowerShadow`): structured code
  with `if`, `while`, `for`, `break`, `continue`, short scopes and calls, translated to blocks, with the proof that both
  mean the same, and the optimizer behind it: source program to optimized blocks.
- **Analyses** (`Graph`, `Dominance`, `Loops`): dominator sets by iteration to a fixed point, tree, frontiers and their
  checker; natural loops, their nesting and depth.
- **Interprocedural passes** (`Tarjan`, `CallGraph`, `Ipa`, `CallGraphBuild`, `IpaSafety`): recursive components with
  the explicit stack and its bounded buffer, reachability, purity, removal of dead functions, over an SSA form with phis
  and calls (`SsaIr`).
- **Inlining** (`Inline*`, `Exchange`, `SsaCheck`, `SsaMeaning`): the in-place edit of one call site, that it keeps
  results and SSA form; the check that follows each edit, what it means and exactly when it accepts; the driver over a
  module with accepted and rejected edits, and exactly when its scan ends.
- **Loop preheaders** (`LoopPreheader`): the edit, and that it changes no run.
- **Ownership** (`Ownership*`): the move checker with its scopes, tables and releases, the meaning of the code it
  annotates, safety on all paths, what it does not refuse, and the exact conditions where it is not safe or not fair.
- **Module resolver** (`Resolver`) and **type descriptors** (`TypeDesc`): the order of merging, import cycles, and
  exactly which clashes are reported; printing and parsing of nested types.

Code that updates its data step by step is written as methods with loops, on classes where the original has a record it
keeps changing, and each method is proved against a specification function or property; the lemmas are about those.
The outside world (what calls of unknown functions answer) is a parameter, `world`, that may depend on everything observed
so far; runs are stated for every amount of fuel, so that statements about ended runs are about all runs that end.

`dafny verify dfyconfig.toml` verifies the whole project.

## Model

| member | source | states |
|---|---|---|
| ConstantFolding.FoldRefines | src/ir/ir_opt.c:81-265 | Folding keeps the form of the function and, block for block, every run that does not trap: same slots, same trace, same result. |
| ConstantFolding.FoldIsComplete | src/ir/ir_opt.c:81-265 | Folding twice is folding once, and an operation still standing on two literals of one kind is a division or remainder by zero, a logical operator on integers, or anything but a logical operator on booleans. |
| TruncatedDivision.DivisionExactlyWhen | src/ir/ir_opt.c:96-113 | `/` and `%`, folded or run, give the one `q` and `r` with `a == b * q + r`, `r` smaller than `b` and of the sign of `a`; a zero divisor gives neither. |
| ConstantPropagation.KnownConstsTruthful | src/ir/ir_opt.c:270-333 | Whatever the table of known constants says of a register is what its definition puts there, on any run of the block. |
| ConstantPropagation.PropagateRefines | src/ir/ir_opt.c:270-333 | Replacing known registers by their literals keeps the form and every run that does not trap. |
| FinishedCode.PropagationLeaves | src/ir/ir_opt.c:270-333 | Afterwards no instruction but a `Const` uses a register that a `Const` of the function gives a literal. |
| UseReplacement.ReplaceUsesRefines | src/ir/ir_opt.c:29-61 | Replacing all uses of a register, function-wide, by a value its definition delivers keeps form and runs. |
| AlgebraicSimplification.SimplifyRefines | src/ir/ir_opt.c:340-440 | Identities such as `x + 0` and `x * 0`, with the replacement of uses they trigger, keep form and runs from any point of the sweep on. |
| FinishedCode.SimplificationLeaves | src/ir/ir_opt.c:340-440 | Afterwards no instruction has a neutral or absorbing operand or compares or subtracts equal ones, although uses are replaced while the sweep is under way. |
| CopyPropagation.ForwardRefines | src/ir/ir_opt.c:449-493 | Forwarding stored values to later loads of the block keeps form and runs, for any table that is right where the sweep stands. |
| FinishedCode.ForwardingLeaves | src/ir/ir_opt.c:449-493 | Afterwards a load whose slot the block has stored before, with no call in between and at most 64 slots stored in the block, has no use anywhere. |
| DeadCode.EliminateRefines | src/ir/ir_opt.c:517-567 | Repeated removal of unused definitions keeps the form and every run that does not trap. |
| DeadCode.EliminateIsComplete | src/ir/ir_opt.c:517-567 | When it stops, every side-effect free definition left is used. |
| DeadCode.DeadDivisionDisappears | src/ir/ir_opt.c:497-567 | Only a refinement: a function that traps on an unused division returns normally after the pass. |
| CfgSimplification.KeepRefines | src/ir/ir_opt.c:612-660 | Unlinking the blocks that breadth-first marking did not reach leaves every run as it was, traps included, for every environment and fuel. |
| CfgSimplification.SimplifiedRefines | src/ir/ir_opt.c:571-664 | Folding constant branches and unlinking unreachable blocks keeps the form, the entry and every run that does not trap. |
| CfgSimplification.SimplifiedIsReachable | src/ir/ir_opt.c:571-664 | The blocks left are exactly those the entry reaches once constant branches are folded, and all are reachable in the result's own graph. |
| FinishedCode.StraighteningLeaves | src/ir/ir_opt.c:571-664 | Afterwards the entry reaches every block, and no branch is on a literal or has equal targets. |
| Optimizer.IrFunction.RecomputeCfg | src/ir/ir.c:485-540 | The successor and predecessor lists hold exactly the edges the terminators call for, each once, and mirror each other. |
| Optimizer.IrFunction.OneIteration | src/ir/ir_opt.c:668-732 | One round, all six passes in order, keeps the invariant and refines the function; afterwards every block can be reached and every branch has something to decide. When it reports no change the blocks are what they were and nothing is left to do: nothing to fold, simplify, propagate or forward, and nothing unused. |
| Optimizer.IrFunction.Optimize | src/ir/ir_opt.c:668-732 | At every level and with verification on or off, the driver succeeds on a well-formed function, keeps it well-formed and refines it: the structural check after each round cannot fail. Above level 0 the result is that of one to ten rounds, ten unless one more would change nothing and nothing is left to do; every block can be reached and every branch has something to decide. |
| LoweringShape.LoweredIsWellFormed | src/ir/ir_lower.c:221-486 | Whatever the body, lowered blocks start with the entry, end in their only terminator, branch to blocks that exist, and define every register once, before its uses and in the same block. |
| LoweringSound.LoweringPreservesMeaning | src/ir/ir_lower.c:101-486 | A safe program with names kept apart gives a result with a trace if and only if its blocks run to that result with that trace; so one runs forever exactly when the other does. |
| LoweringSound.RefinedPreservesMeaning | src/ir/ir_lower.c:101-486 | The same of any blocks that refine the lowered ones. |
| LowerContext.CompileFunction | src/ir/ir_lower.c:430-486 | Lowering done imperatively and then optimized at any level yields a well-formed function that means the source program, in both directions, and is straightened above level 0. |
| OrdinaryNames.ShortNamesApart | src/ir/ir_lower.c:241-242 | Different names of at most 122 characters have different slots. |
| OrdinaryNames.LongNamesMeet | src/ir/ir_lower.c:241-242 | Names of 127 characters and more share a slot if and only if they agree in the first 127. |
| OrdinaryNames.DifferentNamesOrdinary | src/ir/ir_lower.c:51-65 | A function whose parameters and declarations all have different names of at most 122 characters is ordinary: no variable hides another, and no name is cut. |
| OrdinaryNames.OrdinaryPreservesMeaning | src/ir/ir_lower.c:101-486 | A safe ordinary program gives a result with a trace if and only if its blocks do; slots are not mentioned. |
| OrdinaryNames.CompileOrdinary | src/ir/ir_lower.c:430-486 | The same of what comes out of the optimizer. |
| ShadowedNames.ShadowingIsLost | src/ir/ir_lower.c:51-65 | A variable declared in an inner block under the slot name of an outer one that is printed afterwards: the program prints the outer value; its blocks do so if and only if the slot names differ or the two values are equal. |
| ShadowedNames.NestedApart | src/ir/ir_lower.c:51-65 | The hypothesis of LoweringPreservesMeaning holds of that program if and only if the slot names differ, so it shuts out exactly the failing family. |
| Graphs.MarkReachable | src/ir/ir_dominance.c:78-95 | The worklist marks exactly the nodes some path reaches and never outgrows its array. |
| Dominators.SteadyIsExact | src/ir/ir_dominance.c:112-158 | A sound table of dominators that one more round does not change is exact: the fixed point is the set of dominators over all paths. |
| Dominators.IdomExists | src/ir/ir_dominance.c:160-192 | Every reachable block but the entry has an immediate dominator. |
| Dominators.IdomUnique | src/ir/ir_dominance.c:160-192 | And only one. |
| Dominators.IdomStep | src/ir/ir_dominance.c:42-50 | The strict dominators of a block are its immediate dominator and that one's, so the depth in the tree is their number. |
| Dominance.DomInfo.constructor | src/ir/ir_dominance.c:52-228 | For any graph with mirrored edges the computed rows are the dominators over all paths, the tree links are the immediate dominators and their inverse, depths count strict dominators, and frontiers are the textbook frontiers without repetition. |
| Dominance.DomInfo.Dominates | src/ir/ir_dominance.c:248-256 | The query answers path dominance for reachable blocks, and only reflexively for the others. |
| Dominance.DomInfo.GetIdom | src/ir/ir_dominance.c:263-268 | None exactly for the entry and unreachable blocks, and otherwise the immediate dominator. |
| Dominance.DomInfo.GetFrontier | src/ir/ir_dominance.c:270-284 | Exactly the blocks of the dominance frontier, each once. |
| Dominance.DomInfo.Verify | src/ir/ir_dominance.c:286-386 | The checker accepts every computed result, and accepts only tables in which tree parents strictly dominate and chain up to the entry, and frontier entries have a predecessor the block dominates but are not strictly dominated by it. |
| NaturalLoops.Nested | src/ir/ir_loop.c:162-192 | Two loops with different reachable headers that share a reachable block are one strictly inside the other. |
| LoopAnalysis.LoopInfo.constructor | src/ir/ir_loop.c:67-205 | One loop for each header of a back edge, with exactly its latches and the blocks of its natural loop, each once; parent is the smallest loop strictly around it, children the inverse, depth the length of the parent chain. |
| LoopAnalysis.ChainCounts | src/ir/ir_loop.c:194-205 | For a reachable header that depth is one more than the number of loops around it. |
| LoopAnalysis.LoopInfo.ForBlock | src/ir/ir_loop.c:239-251 | The loop answered holds the block and lies inside every other loop that does; none is answered only if no loop holds it. |
| LoopAnalysis.LoopInfo.BlockDepth | src/ir/ir_loop.c:253-256 | For a reachable block, the number of loops that hold it. |
| LoopPreheaders.GetOrCreatePreheader | src/ir/ir_loop.c:264-372 | A lone outside predecessor that leads only to the header is returned with the function untouched; otherwise the function becomes exactly the edit of the model: new block, redirected branches, split phis, fresh registers. |
| LoopPreheaders.PreheaderKeepsRuns | src/ir/ir_loop.c:264-372 | That edit keeps every run of the function, values and traps alike: a run that ends with fuel `n` ends the same with `2n`, and one that ends afterwards ended the same before. |
| LoopPreheaders.PreheaderKeepsResults | src/ir/ir_loop.c:264-372 | And every run of every function of the module, however calls lead back to the edited one. |
| LoopPreheaders.PreheaderIsDedicated | src/ir/ir_loop.c:269-285 | Afterwards the preheader is the only outside predecessor of the header if and only if there were at most 32. |
| LoopPreheaders.FunnelDedicatedExactlyWhen | src/ir/ir_loop.c:269-285 | Functions for every number of outside predecessors: `n` blocks that each choose between the next one and the loop; from 33 on the loop gets no preheader of its own. |
| Interprocedural.SccSearch.constructor | src/ir/ir_ipa.c:118-168 | The recursive search numbers two functions alike if and only if they call each other in a circle, and flags no function wrongly; only components of more than 64 members lack flags, and those have 64. |
| CallGraphBuild.SettledIsRight | src/ir/ir_ipa.c:285-360 | A purity table that no call site changes any more is the least one: each class is the worst of the function and anything it can get to by calls. |
| CallGraphBuild.CallGraph.constructor | src/ir/ir_ipa.c:170-360 | The whole graph of any module with one entry: call lists, self-recursion, components and flags, reachability from the entry (everything when there is none) and purity are each exactly the property they name. |
| InterproceduralSafety.PureRunsQuietly | src/ir/ir_ipa.c:285-360 | A function not classed as side-effecting prints nothing, asks the world nothing, and returns what its arguments determine, whatever the world and the trace before. (Slots belong to one activation here, so the class of functions that only read is as good as pure.) |
| InterproceduralSafety.ClassExactlyWhen | src/ir/ir_ipa.c:285-360 | A function is classed side-effecting if and only if by calls it gets to a print, a store, or a call of the runtime or of what the module does not have, and pure if and only if it gets to none of these and to no load. |
| InterproceduralSafety.EliminateDead | src/ir/ir_ipa.c:795-837 | What is kept is the specified list, and the count is the number removed. |
| InterproceduralSafety.KeptExactly | src/ir/ir_ipa.c:795-837 | A function is kept if and only if its name is live. |
| InterproceduralSafety.KeptCall | src/ir/ir_ipa.c:795-837 | Every call of a live function runs in the smaller module exactly as before, for every fuel. |
| InlineEditing.SsaFunction.InlineCallSite | src/ir/ir_ipa.c:461-664 | The step-by-step edit of the caller, split block, register numbering, copied blocks, noted returns, result phi, makes exactly the inlined function of the model. |
| InlineProgram.InliningFollows | src/ir/ir_ipa.c:461-664 | The edited caller gives what the caller gave: same value and trace for every run that ends, and it starves where the caller starved. |
| InlineProgram.InliningKeepsResults | src/ir/ir_ipa.c:461-664 | In the module with the edited caller every call of every function ends as before; what ends afterwards ended the same or trapped before. |
| InlineSound.InlinedKeepsForm | src/ir/ir_ipa.c:461-664 | Caller and callee in SSA form, with targets that exist and phis that hear from predecessors, leave the edited caller in that form: single assignment, and definitions that dominate the uses in reachable blocks. |
| SsaCheck.VerifyFunction | src/ir/ir_ssa.c:464-585 | The check that follows an edit, with its counts, its table of defining blocks, at most 32 operands looked at, and the computed dominators, accepts exactly what `Accepts` describes: definitions made once, every use (reachable or not) defined in its block or a dominating one, phis in front that hear from predecessors. |
| AcceptedForm.AcceptedPhis | src/ir/ir_ssa.c:545-565 | In an accepted function every block a phi names has an edge to the block of the phi. |
| AcceptedForm.AcceptedPlaces | src/ir/ir_ssa.c:477-498 | No register below the limit is defined at two places; AcceptedPhiDefs adds two phis of one block. |
| AcceptedForm.AcceptedUse | src/ir/ir_ssa.c:500-533 | Each of the first 32 register operands of a reachable instruction is defined in its block or in one on every path to it. |
| AcceptedForm.FormExactlyWhen | src/ir/ir_ssa.c:464-585 | Where every block can be reached and no instruction has more than 32 register operands, a function is in SSA form with phis that hear from predecessors if and only if it is accepted, uses in a block follow their definitions in it, and what phis read is defined: the last two are not looked at. |
| AcceptedForm.EarlyUseAccepted | src/ir/ir_ssa.c:500-533 | `print %0; %0 = 1` is accepted. |
| AcceptedForm.GroundlessPhiAccepted | src/ir/ir_ssa.c:535-570 | A phi that reads a register nobody defines is accepted. |
| SsaCheck.AcceptsExactlyWhen | src/ir/ir_ssa.c:500-533 | Of a function in SSA form, where form is asked of reachable uses only, the check accepts if and only if every unreachable block defines what it uses itself. |
| InlineReach.ReachedExactly | src/ir/ir_ipa.c:461-664 | Which blocks of the edited caller can be reached, from caller and callee alone: old blocks that have a path not passing the call, or passing it when the callee can return; what follows the call when the callee can return; copies of what the callee reaches. |
| InlineCheck.AcceptedExactlyWhen | src/ir/ir_ipa.c:666-675 | Caller and callee that passed the check: the edited caller passes if and only if no piece of it that cannot be reached, as just said, uses what another piece defines. |
| InlineAccept.ReachedCallAccepted | src/ir/ir_ipa.c:666-675 | If the call can be reached and the callee can return, it passes if and only if no unreachable block of the callee reads an argument passed in a register. |
| InlineAccept.ResultUsedRejected | src/ir/ir_ipa.c:666-675 | If no return of the callee is noted, any instruction that uses the result, reachable or not, has the edit rejected. |
| InlineReject.DeadCallRejected | src/ir/ir_ipa.c:666-675 | A caller and a callee that pass the check, the callee returning, whose inlining does not pass: the call stands after a return, and what follows it prints the result. |
| InlineReject.UsedResultRejected | src/ir/ir_ipa.c:666-675 | A callee that never returns and whose result is printed after the call: rejected. |
| InlineReject.UnusedResultAccepted | src/ir/ir_ipa.c:666-675 | The same with nothing used after the call: accepted. |
| InlineEnding.InliningEndsExactlyWhen | src/ir/ir_ipa.c:685-758 | The edits of a function, accepted or rejected and whichever calls are taken, are bounded if and only if none of the calls it would take leads into a cycle of functions that may be inlined other than itself, which can be read off the call graph beforehand. |
| InlineEnding.NeverSettles | src/ir/ir_ipa.c:685-758 | Otherwise, whichever call is taken, and whether or not the edit is accepted, there is another one to take. |
| InlineScan.ScanEndsExactlyWhen | src/ir/ir_ipa.c:685-758 | The scan as the program does it, back to the first block after an accepted edit and on to the next after a rejected one, comes to an end if and only if no such cycle can be got to and it never follows the instructions a rejected edit has moved. |
| InlineScan.FinishedIsSettled | src/ir/ir_ipa.c:685-758 | Wherever the scan stands no call before it is one it would take, rejected edits behind it or not; at its end there is none in the function. |
| InlineReject.ScanGoesAstray | src/ir/ir_ipa.c:746-752 | A module on which the scan does follow moved instructions: two calls in one block, the edit for the first rejected. |
| InlineLively.LivelyRound | src/ir/ir_ipa.c:646-675 | In a module in SSA form without unreachable blocks whose candidates have a return, every edit is accepted, and the module stays such a module. |
| InlineLively.LivelyScanEndsExactlyWhen | src/ir/ir_ipa.c:685-758 | There the scan never goes astray, and ends if and only if no cycle of functions that may be inlined can be got to. |
| InlineCrowd.NeverDone | src/ir/ir_ipa.c:145-162 | A module on which that happens, with the call graph and candidate tests of the compiler: 130 or more functions calling their neighbours, each cheap and none calling itself. At every threshold from the default on no number of rounds is enough; every edit is accepted, and the scan is still going after any number of steps. |
| InlineDriving.CalculateInlineCost | src/ir/ir_ipa.c:51-96 | The cost counted instruction by instruction is the sum over the blocks. |
| InlineDriving.Candidates | src/ir/ir_ipa.c:719-743 | A function is a candidate if and only if it is not the entry, is flagged neither recursive nor in a recursive component, and costs no more than the hard ceiling and the threshold. |
| InlineDriving.CandidateExactlyWhen | src/ir/ir_ipa.c:51-96 | A candidate is what is neither entry nor flagged and weighs at most 80 and the threshold: one for each phi, operation and plain branch, two for each load, store, print and choice, three for each call. |
| InlineDriving.CandidatesEnd | src/ir/ir_ipa.c:719-758 | With the computed flags and components that fit the buffer, no cycle is left among candidates, so inlining ends everywhere. |
| InlineDriving.InlineFunction | src/ir/ir_ipa.c:685-762 | Unless edits can go on for ever, the loops reach the end of the modelled scan, or the point where it goes astray; in the former case no call is left that it would take. The count is that of the accepted edits, and the function is the result of all edits, accepted or not, each of a call it may take. |
| InlineDriving.StaysHealthy | src/ir/ir_ipa.c:646-675 | From a module in SSA form (reachable uses), after any rounds, accepted or rejected, the module is still in that form and every site was fit for inlining when its turn came. |
| InlineDriving.AllPass | src/ir/ir_ipa.c:666-675 | Rounds over a module without unreachable blocks whose candidates have a return all pass the check. |
| InlineDriving.InliningModuleKeepsResults | src/ir/ir_ipa.c:768-793 | Any rounds of inlining over a healthy module, accepted or rejected, change no result of any function, in both directions as above. |
| InlineDriving.InlineModule | src/ir/ir_ipa.c:768-793 | The record of edits yields the module, the count is that of the accepted ones, and unless a scan goes astray nothing is left to take in any function. A healthy module stays healthy and keeps all its results, whatever the check says; without unreachable blocks and with returns no scan goes astray and all edits count. |
| OwnershipChecker.CheckFunction | src/frontend/scope_analysis.c:1293-1765 | The imperative checker, with its tables restored and merged in place, accepts, rejects and annotates exactly as the specification does. |
| CheckerComplete.HarmlessAccepted | src/frontend/scope_analysis.c:1295-1765 | A function that makes, assigns, reads and branches on objects, with loops and jumps out of them, and gives nothing away, is accepted unless its blocks nest more than 127 deep. |
| CheckerComplete.StraightRejectedExactlyWhen | src/frontend/scope_analysis.c:871-971 | A straight-line function is refused if and only if running it reads, moves or consumes what it has given away. |
| CheckerComplete.RejectedOnlyWhenNull | src/frontend/scope_analysis.c:1670-1750 | A loop-free function that takes nothing in a condition, in which no variable of the table gets a new value in both branches of an `if`, is refused only if some run of it does so. |
| CheckerComplete.TakenInCondition | src/frontend/scope_analysis.c:1670-1674 | A condition that takes a variable in scope is refused. |
| CheckerComplete.IfBlamesExactlyWhen | src/frontend/scope_analysis.c:1705-1748 | After an `if` with plain branches, everything in the table is empty on some path if and only if no variable of the table has got a new value in both branches. |
| CheckerComplete.RevivedRejected | src/frontend/scope_analysis.c:1724-1747 | `consume x; if { x = new; } else { x = new; } read x` is refused, though no run of it reads what is empty. |
| UseSafety.NoUseAfterMove | src/frontend/scope_analysis.c:871-971 | On every path and loop iteration, an accepted function in which no `if` and no loop makes the checker forget a move never reads, moves or consumes a variable that holds nothing. |
| UseSafety.MergeForgetsExactlyWhen | src/frontend/scope_analysis.c:1705-1748 | The merge of two branches keeps every move either made if and only if no branch has put a variable among the first entries of its table that was not in the table before and is not found beyond them. |
| OwnershipConverse.IfReadsExactlyWhen | src/frontend/scope_analysis.c:1670-1750 | After an `if` whose branches have no nested control, no accepted read finds nothing if and only if the merge remembers in that sense. |
| OwnershipConverse.LoopReadsExactlyWhen | src/frontend/scope_analysis.c:1752-1765 | After a loop with a disciplined body, no accepted read finds nothing if and only if the body leaves the entries from before the loop in the table. |
| ReleaseSafety.NoDoubleRelease | src/frontend/scope_analysis.c:2388-2502 | Whatever an accepted function does and wherever a run is stopped, no object has been released twice and none that was handed over has been released; no discipline is needed. |
| ReleaseExactness.ExactlyOnce | src/frontend/scope_analysis.c:1580-1627 | Where the checker forgets no move and is made sure of none that may not have happened, every object a finished call made or was given has been released or handed over, once. |
| OwnershipConverse.IfSureExactlyWhen | src/frontend/scope_analysis.c:1705-1748 | After an `if` with plain branches, what the table is sure of holds nothing on every path if and only if it is sure of nothing that a branch is not sure of. |
| OwnershipConverse.AssignKeepsExactlyWhen | src/frontend/scope_analysis.c:1293-1578 | An assignment loses no object if and only if its variable is not one that only some branches moved. |
| OwnershipConverse.LoopLeavesExactlyWhen | src/frontend/scope_analysis.c:1752-1765 | Leaving the function after a loop that is passed by loses no object if and only if the loop has made the checker sure of nothing new. |
| OwnershipLimits.BranchForgetsMove | src/frontend/scope_analysis.c:1705-1718 | `consume x; if { x = new; consume y; } read y` is accepted and reads what was given away. |
| OwnershipLimits.LoopForgetsMove | src/frontend/scope_analysis.c:1752-1765 | `consume x; while { x = new; } read x` is accepted and reads what was given away. |
| OwnershipLimits.ReassignmentLeaks | src/frontend/scope_analysis.c:1293-1578 | `if { consume x; } x = new`, well scoped and accepted, loses the old object when the branch is not taken. |
| OwnershipLimits.ReturnInLoopLeaks | src/frontend/scope_analysis.c:1752-1765 | `while { return x; }`, well scoped and accepted, loses the object when the body does not run. |
| OwnershipLimits.ForgettingMayBeHarmless | src/frontend/scope_analysis.c:1670-1765 | With a loop and a return inside the branch, the merge forgets a move and still no accepted read finds nothing: the condition on an `if` is not necessary there. |
| ModuleResolver.ResolveProgram | src/frontend/module_resolver.c:405-533 | Succeeds if and only if nothing reachable is missing or has stray statements, no imports go round in a circle, and merging depth first, imports before importers, meets no clash; then the order is that one, with each reachable file once. An error reported is true of the program, and a reported clash is the first in that order, with the declaration the scan finds first. |
| ModuleResolver.NoClashExactlyWhen | src/frontend/module_resolver.c:164-331 | Merging files in an order meets no clash if and only if no file says the same twice, and what two files both say is a type whose kind comes later, in the order class or struct, enum, interface, in the file merged first. |
| ModuleResolver.NoClashMeans | src/frontend/module_resolver.c:164-403 | What is merged without a clash: no function name, no operator with its symbol, parameters and class, and no implementation twice, and two types of one name only with the later kind first; and the other way round. |
| ModuleResolver.PairResolvesExactlyWhen | src/frontend/module_resolver.c:164-331 | A file with one type that imports a file with one type: resolved if and only if the names differ or the imported type is of a later kind. |
| ModuleResolver.SameNameUnnoticed | src/frontend/module_resolver.c:164-331 | A class in the entry file and an interface of the same name in a file it imports are both merged without an error; the other way round the program is refused. |
| TypeDescriptors.RoundTrip | src/frontend/parser.c:178-262 | Parsing the printed form of any type of the parser's shape, with any tokens but a bracket behind, gives the type back with classes and enums as names and stops right after it. |
| TypeDescriptors.PrintIsInjective | src/frontend/ast.c:184-212 | No two types of that shape, up to that, print alike. |
| TypeDescriptors.ParenthesesMatter | src/frontend/ast.c:184-212 | Thanks to the parentheses around the map of an array: without them an array of maps and a map to arrays print alike, whatever the key and value. |
| TypeDescriptors.ParsedIsShaped | src/frontend/parser.c:178-262 | Everything the parser accepts is of the shape it can print and read again. |
| TypeDescriptors.ParsePrintParse | src/frontend/parser.c:178-262 | Printing what was parsed and parsing it again gives the same. |
| TypeDescriptors.Parser.ParseTypeDesc | src/frontend/parser.c:178-262 | The cursor-based parser returns what the specification parser does and leaves the cursor where it stops. |
| TypeDescriptors.CloneEquals | src/frontend/ast.c:134-226 | A clone is equal to its original if and only if no class or enum occurs in it, and is always compatible with it. |

## Findings

Properties the documentation or the code suggests and the code does not have, each with an input and with the exact condition
under which the property holds, and one thing the documentation says of the code.

- **Shadowing is lost in lowering** (`src/ir/ir_lower.c:51-65`). A slot is known by the name of its variable, cut to 127
  characters, and the list of bindings is not cut back when a scope ends. A variable declared in an inner block under the name
  of an outer one takes over its slot. `ShadowedNames.ShadowingIsLost` has the program and the exact condition.
- **Inlining need not end** (`src/ir/ir_ipa.c:145-162`, `685-758`). A recursive component flags at most 64 members, so that
  of a large one some stay candidates. `InlineCrowd.NeverDone` has the module, `InlineEnding.InliningEndsExactlyWhen` the
  exact condition.
- **The check after an edit rejects inlined functions that are in order** (`src/ir/ir_ipa.c:666-675`,
  `src/ir/ir_ssa.c:500-533`). It asks of every use what makes sense for reachable ones, and dominance says nothing of
  unreachable blocks. Inputs: a call after a return (`InlineReject.DeadCallRejected`), and a used result of a callee that
  never returns (`InlineReject.UsedResultRejected`; unused, it passes: `UnusedResultAccepted`). Exact condition:
  `InlineCheck.AcceptedExactlyWhen`, and for calls that are reached `InlineAccept.ReachedCallAccepted`.
- **A rejected edit is neither undone nor reported** (`src/ir/ir_ipa.c:746-758`). The function stays edited, the scan goes on
  with the instructions that followed the call, now in another block, and takes further calls as standing in the old one.
  `InlineReject.ScanGoesAstray` has the module, `InlineScan.ScanEndsExactlyWhen` the condition with the scan in it,
  `InlineLively.LivelyScanEndsExactlyWhen` one that can be read off the module. Results are kept either way up to that point
  (`InlineDriving.InlineModule`).
- **The check passes functions that are not in SSA form** (`src/ir/ir_ssa.c:500-570`). It looks neither at the order within
  a block nor at what phis read: `AcceptedForm.EarlyUseAccepted`, `AcceptedForm.GroundlessPhiAccepted`. Exact condition for
  functions all of whose blocks can be reached: `AcceptedForm.FormExactlyWhen`.
- **The ownership merge can forget a move** (`src/frontend/scope_analysis.c:1705-1748`). It looks only past the entries the
  table had before the branches, and a branch that re-initialises one of those makes room there.
  `OwnershipLimits.BranchForgetsMove`; `UseSafety.MergeForgetsExactlyWhen` and `OwnershipConverse.IfReadsExactlyWhen` say
  when.
- **The ownership merge can keep a move that is over** (`src/frontend/scope_analysis.c:1724-1747`). It starts from the table
  before the branches, so that a variable given a new value in both of them stays moved:
  `CheckerComplete.RevivedRejected`, exactly when: `CheckerComplete.IfBlamesExactlyWhen`. Without that, a loop-free function
  is refused only for what a run of it does (`CheckerComplete.RejectedOnlyWhenNull`).
- **A loop can forget a move** (`src/frontend/scope_analysis.c:1752-1765`). The table after the loop is the table after its
  body, which may not run. `OwnershipLimits.LoopForgetsMove`, `OwnershipConverse.LoopReadsExactlyWhen`.
- **Two ways to lose an object**: assigning to a variable that only some branches moved
  (`OwnershipLimits.ReassignmentLeaks`, `OwnershipConverse.AssignKeepsExactlyWhen`), and returning a variable from a loop
  body (`OwnershipLimits.ReturnInLoopLeaks`, `OwnershipConverse.LoopLeavesExactlyWhen`).
- **Name clashes are found in one direction only** (`src/frontend/module_resolver.c:164-331`). A type is compared with kinds
  up to its own, so one of a later kind merged earlier is not noticed: class `X` in the entry file, interface `X` in a file it
  imports (`ModuleResolver.SameNameUnnoticed`). `ModuleResolver.NoClashExactlyWhen` and `ResolveProgram` say exactly which
  programs pass.
- **A preheader is not always dedicated** (`src/ir/ir_loop.c:269-279`): outside predecessors past the 32nd still go
  straight to the header. `LoopPreheaders.FunnelDedicatedExactlyWhen` has the function with 33,
  `LoopPreheaders.PreheaderIsDedicated` the condition.
- `README.md:212` speaks of Lengauer-Tarjan dominance; the code iterates sets to a fixed point, which is what is modelled.

## Left out

- LoweringSound.LoweringPreservesMeaning: asks for names kept apart, since shadowing is lost (see Findings), and for
  programs that do not trap; without the former it fails on every program of the family in ShadowedNames.
- UseSafety.NoUseAfterMove: asks that no `if` and no loop makes the checker forget a move. That is exact for loops, and for
  an `if` whose branches have no nested control; with loops or jumps inside a branch the table holds moves made only by runs
  that do not come back, so forgetting one can be harmless (OwnershipLimits.ForgettingMayBeHarmless) and no condition on the
  tables alone is exact.
- ReleaseExactness.ExactlyOnce: asks in addition that a loop body rebinds nothing the table is sure was moved. That is
  sufficient but not necessary: `while { if { x = new; return x; } }` after `consume x` rebinds and loses nothing, because
  the run that rebinds does not come back; as above the tables do not tell.
- CheckerComplete.RejectedOnlyWhenNull: not for loops that give things away, and not for code behind an `if` both of whose
  branches return, which the checker goes on with although no run gets there.
- InlineDriving.InlineModule: takes modules where no cycle is left among the candidates; where one is, the end of each
  function's scan is decided by InlineScan.ScanEndsExactlyWhen, one function at a time. It stops where a scan goes astray:
  what the program does from there on, an edit of one block at an instruction of another, is not part of this model.
- InlineScan.ScanEndsExactlyWhen: that the scan never goes astray is said of the scan itself; read off the module it is
  proved where no block is unreachable and candidates return (InlineLively.LivelyScanEndsExactlyWhen).
- InterproceduralSafety.PureRunsQuietly: slots belong to one activation and there are no fields, so a read-only function
  cannot observe anything a pure one does not; what loads of shared memory would add is not modelled.
- InlineProgram.InliningKeepsResults: a run that trapped before may end afterwards, because an argument or a missing result
  that nothing reads is no longer evaluated; runs that end keep their end in both directions.
- ModuleResolver.ResolveProgram: programs of at most 128 files, the size of the resolver's arrays, which it does not check.
- The type rules of the verifier (`src/ir/ir_verify.c:45-332`): only its structural checks are modelled (one terminator at
  the end, targets that exist, definitions). Instructions on values of the wrong kind trap in the semantics, so the
  optimizer results do not need them.
- Floats, characters, strings, arrays, maps and class fields in the IR; integers are unbounded, so wrap-around at 32 and 64
  bits, and folding that differs from the target there, is not modelled.
- Cleanup emission in lowering (`src/ir/ir_lower.c:72-99`), calls of functions that return nothing (a call always yields a
  value in the model), and the translation of the remaining statements and expressions.
- Borrowed parameters, `for`, `match`, arrays and maps in the ownership checker; its core language has declarations,
  assignments, reads, moves, calls that consume, blocks, `if`, `while`, `break`, `continue` and `return`. The growth of the
  moved table and its limit are left out.
- SSA construction and destruction, SCCP, value numbering, loop-invariant motion, strength reduction, profile guidance, the
  back ends, the linker and the parser other than for types.
- The inliner's profile-based thresholds; the model has the plain ones.
- Of lexing printed types only what the tokens need: names are any identifiers other than `Self`; other reserved words are
  not ruled out as names. Printing into a buffer is on token sequences.
- Error messages and positions beyond which error it is; arenas, memory limits and I/O; a missing entry file.
