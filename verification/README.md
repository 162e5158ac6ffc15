# A verified model of a small SSA compiler backend

The repository compiles a 64-bit integer SSA language to x86-64: a validator, dominators, liveness,
live intervals and an interference graph, two register allocators behind one independent verifier,
and a code generator with phi lowering; a reference interpreter says what programs mean. This
project models those stages in Dafny and proves that they fit together.

`dafny verify dfyconfig.toml` checks everything.

## How the pieces connect

- `Ir`, `Interp`, `Cfg` — programs, the interpreter with its step limit, paths and predecessors.
- `Arithmetic`, `ExampleRuns`, `Examples` — what instructions compute in whole numbers and how many steps
  a run takes, carried to whole runs of the repository's example programs for every argument.
- `Dominators`, `Validation`, `Safety` — the forward fixpoint, exact on paths, the validator against a
  declarative definition on paths, and what validation buys the interpreter.
- `Liveness`, `LivenessSweeps`, `SweepWalks`, `LivenessFixpoint`, `LivenessSoundness` — liveness defined
  on paths, the backward sweeps that compute it, exactly when they come to rest and what they find for
  any function, and what liveness means for the interpreter.
- `Intervals`, `Coverage`, `Interference` — the linear intervals that over-approximate liveness, and the
  interference graph.
- `Alloc`, `LinearScan`, `ScanSteps`, `SpillMinimality`, `Anneal` — the verifier, both allocators and what
  each of their steps does, and optimality of furthest-end eviction.
- `Machine`, `ParallelMoves`, `MoveCycles`, `BrokenCycles`, `ParallelCopy` — abstract x86-64
  instructions with symbolic labels, and the sequencer for simultaneous moves, exact for distinct
  destinations. `MoveOrigins`, `SharedMoves` — the same for destinations that repeat.
- `Lowering`, `Emitter` — the code of a function as a value, and the imperative emitter that
  produces exactly it. `Frames` and `Layout` — what its shape guarantees of every run.
- `Effects`, `Edges`, `Separation`, `Simulation`, `Transfer`, `Preservation`, `Termination` — the
  simulation: at each point every live value's location holds the interpreter's value. It ends in
  `Termination.EmittedCodeIsEquivalent`: where every edge delivers, the emitted code returns exactly
  the value the interpreter computes with some step limit, and `Termination.DivergeTogether`: it runs
  forever exactly when every step limit is exceeded.
- `Pipeline` — validation, allocation and emission one after the other: `Pipeline.Compile`.
- `DeadPhi`, `SpilledRing`, `SharedCycle`, `SharedCycleProgram`, `RepeatedIds` — programs that meet the
  limits below.

Each loop of the source is a method tied to a specification function or a declarative predicate, and
the properties are lemmas about those.

## Where the code falls short

Two things the code generator promises do not hold of every verified assignment.

- **Cycles through the stack.** Once a cycle of moves is broken, the saved value waits in the first
  scratch register, and a later move out of a stack slot loads through that same register.
  `ParallelCopy.ParallelCopyIsExact` gives the exact condition for distinct destinations: the moves
  act as one simultaneous assignment from every state if and only if no cycle, counted from its
  destination listed first, has a stack slot in third place or later. Only the move that closes the
  cycle is misdelivered, and it receives the value of one of those slots
  (`ParallelCopy.SequenceDelivers`). `SpilledRing.SpilledRingBreaksTheCode` is a validated loop that
  rotates three phis: it returns 1 while its code returns 5, under the assignment that linear scan
  chooses when no register is allowed.
- **Dead phis.** A dead phi has a one-point interval and may share a location with a later phi of its
  block; identity moves are dropped, so its move can overwrite the live phi.
  `DeadPhi.DeadPhiBreaksTheCode` is a two-block function that returns 2 while its code returns 1, and
  `DeadPhi.LinearScanSharesPhis` shows that linear scan with the default registers picks the
  offending assignment. Sharing as such is harmless: `DeadPhi.HarmlessDelivers`.

The main theorems therefore assume `Separation.EdgesDeliver`. It asks of every edge, for the phis that
are used anywhere, what following the moves symbolically decides, and `Edges.EdgeIsExact` shows that
this is exact for every edge: the used phis get their inputs from every state if and only if it holds.
In terms of the assignment, `Separation.VerifiedEdgeIsExact` says that for a verified assignment, and
an edge none of whose cycles passes through a location of two phis, this is so if and only if no used
phi already in place shares its location with a phi that moves, and no used phi closes a bad cycle.
Where a cycle does pass through such a location, the locations alone decide nothing:
`SharedCycleProgram.TwistDelivers` is a function that is accepted with its phis in two orders, and its
edge delivers in one of them.
`Separation.EasyEdgesDeliver` derives the condition from a check on the program: a phi with a later
phi in its block is used somewhere, and each block's phis are unspilled or at most two.

One more thing fails for functions that are not validated. With two blocks of one id the loop that
computes liveness can run forever. `SweepWalks.RestIsDecided` is the exact condition: it ends if and only
if blocks of one id have the same values live at their ends. That is a question of reachability over the
listed blocks, in which a step leads to the block whose sets an update reads: the first with the
successor's id after the updated block, or the first of all. `RepeatedIds.OrderDecidesTermination` gives
four blocks for which the loop never ends, and the same blocks in another order for which it does.
Liveness, the intervals and the graph are exact for every function for which it ends.

## Model

| member | source | states |
|---|---|---|
| `Ir.FirstBlockIsFound` | crates/ir/src/ir.rs:83-85 | lookup fails iff no block has the id, and of several such blocks it finds the first |
| `Interp.EvalPhis` | crates/ir/src/interp.rs:41-58 | the two-phase phi prologue is a simultaneous assignment: all phis read the old environment |
| `Interp.EvalI64WithLimit` | crates/ir/src/interp.rs:15-137 | the interpreter loop computes the recursive semantics `Eval`, errors and step limit included |
| `Arithmetic.InstructionComputes` | crates/ir/src/interp.rs:66-110 | an instruction succeeds iff what it reads is there, and binds its result alone: for sums and products a 64-bit number that differs from the integer result by a multiple of 2^64 and equals it whenever it fits |
| `Arithmetic.UsesAreReads` | crates/ir/src/ir.rs:126-135 | a value is listed as used iff the instruction fails without it |
| `Arithmetic.FirstInputIsRead` | crates/ir/src/interp.rs:46-50 | a phi reads its first input that names the predecessor, and fails iff none does |
| `Arithmetic.EvalTakesSteps` | crates/ir/src/interp.rs:31-136 | a run that returns takes one step per block entered and one per instruction: every limit from there on gives the same result, every smaller one is exceeded |
| `Examples.BasicBlockComputes` | crates/ir/src/examples.rs:5-23 | `basicblock` returns (x + y) z + 7 + x z + y z modulo 2^64, exactly when it fits, in twelve steps |
| `Examples.BasicBlockTest` | crates/ir/tests/parser_interp.rs:7-10 | so 47 on [2, 3, 4] |
| `Examples.TraceComputes` | crates/ir/src/examples.rs:25-44 | `trace` returns the greater argument in eight steps |
| `Examples.LoopSumComputes` | crates/ir/src/examples.rs:46-67 | `loop_sum` returns n (n + 1) / 2 modulo 2^64 in 9 + 7 n steps, 0 in nine steps for negative n |
| `Examples.LoopSumDiverges` | crates/ir/src/examples.rs:46-67 | except for the greatest n, whose counter wraps around: every step limit is exceeded |
| `Examples.PhiSwapLoopComputes` | crates/ir/src/examples.rs:69-92 | `phi_swap_loop` returns the second argument after an odd number of swaps and else the first, in 12 + 7 count steps |
| `Cfg.BuildPredecessors` | crates/analysis/src/liveness.rs:23-44 | succeeds iff every successor exists, and returns exactly the predecessors of each block |
| `Dominators.Sweep` | crates/analysis/src/dominators.rs:43-72 | one pass only shrinks the sets, keeps every true dominator, and reports a change unless settled |
| `Dominators.FixpointIsExact` | crates/analysis/src/dominators.rs:40-73 | a settled map holds exactly the blocks on every path from a root (the entry or a block without predecessors) |
| `Dominators.ComputeDominators` | crates/analysis/src/dominators.rs:20-76 | terminates; succeeds iff the entry and all successors exist; the result is exact for any graph |
| `Dominators.ReachableDominators` | crates/analysis/src/dominators.rs:12-18 | with all blocks reachable, d is in dom[b] iff every path from the entry to b passes through d |
| `Validation.CheckShape` | crates/analysis/src/validation.rs:105-128 | accepts iff blocks are unique and non-empty, and entry and successors exist |
| `Validation.ComputeReachable` | crates/analysis/src/validation.rs:130-140 | the worklist ends despite repeated entries, with exactly the blocks some path reaches |
| `Validation.ReachableCountDecides` | crates/analysis/src/validation.rs:141-143 | comparing counts decides whether all blocks are reachable |
| `Validation.CollectDefinitions` | crates/analysis/src/validation.rs:149-186 | succeeds iff phis come first, argument indices are in range and definitions are single |
| `Validation.UseCheckIsExact` | crates/analysis/src/validation.rs:75-102 | the lookup in the computed dominators decides path domination of a use |
| `Validation.PhiChecksAreExact` | crates/analysis/src/validation.rs:194-231 | the phi checks decide that inputs match predecessors one to one and are available at their ends |
| `Validation.ValidateFunction` | crates/analysis/src/validation.rs:104-251 | returns Ok iff the function is well formed by the declarative definition on paths |
| `Safety.RunIsSafe` | crates/ir/src/interp.rs:31-136 | along any walk with everything defined so far bound, a run of any length can only fail at the step limit |
| `Safety.ValidatedCannotGoWrong` | crates/ir/src/interp.rs:15-137 | a validated function with the right argument count never fails except by the step limit |
| `Liveness.CollectPhiData` | crates/analysis/src/liveness.rs:46-65 | the phi definitions per block id and phi uses per edge, exactly, for any function |
| `Liveness.BlockSets` | crates/analysis/src/liveness.rs:72-97 | use_set is the upward-exposed values, def_set the defined ones |
| `Liveness.LiveInUnfolds` | crates/analysis/src/liveness.rs:114-142 | liveness on walks satisfies the dataflow equation at a block's start |
| `LivenessFixpoint.UpdateBlock` | crates/analysis/src/liveness.rs:114-150 | one block's update: fails iff a successor has no entry, and reports a change iff the sets differ from what flows back |
| `LivenessFixpoint.Sweep` | crates/analysis/src/liveness.rs:113-151 | the sweep over blocks in reverse applies the updates one after the other, for any function |
| `LivenessSweeps.SweepsBecomeStationary` | crates/analysis/src/liveness.rs:110-153 | for any function the sweeps reach a map that a whole sweep maps to itself, though updates inside it may undo one another |
| `SweepWalks.EntryIsExact` | crates/analysis/src/liveness.rs:113-151 | in a sweep of that map every update writes exactly the values that walks over the listed blocks find live |
| `SweepWalks.RestIsDecided` | crates/analysis/src/liveness.rs:110-153 | the loop ends iff blocks of one id have the same values live at their ends |
| `SweepWalks.AgreeingTwinsAreAlike` | crates/analysis/src/liveness.rs:110-153 | which they have when they lead to the same successors, and so for unique ids |
| `RepeatedIds.OrderDecidesTermination` | crates/analysis/src/liveness.rs:110-153 | with repeated ids every sweep can report a change: four blocks for which it does, and the same blocks in another order for which the loop ends |
| `SweepWalks.QuietIsExact` | crates/analysis/src/liveness.rs:110-153 | when a sweep changes nothing the sets of an id are exactly what walks from each block of that id find |
| `LivenessFixpoint.WalksAreLive` | crates/analysis/src/liveness.rs:110-153 | with unique ids those walks find exactly the path-based live-in and live-out values |
| `LivenessFixpoint.ComputeLiveness` | crates/analysis/src/liveness.rs:67-160 | for every function for which the loop ends: fails iff a successor is missing, and its sets are exactly what the walks find; with unique ids, live_in and live_out hold a value iff a walk reaches a use (ordinary, terminator or phi on that edge) without a definition |
| `LivenessSoundness.LiveValuesDecide` | crates/analysis/src/liveness.rs:110-153 | environments that agree on what is live into a block give the same outcome for every step limit |
| `Intervals.NumberCode` | crates/analysis/src/intervals.rs:41-59 | numbers instructions and terminators consecutively, numbers and bounds of later blocks of an id replacing earlier ones; fails iff positions exceed 32 bits |
| `Intervals.PositionsAreDistinct` | crates/analysis/src/intervals.rs:45-59 | distinct program points have distinct positions |
| `Intervals.MarksAreTouches` | crates/analysis/src/intervals.rs:64-104 | with unique ids the marked positions are those where a value is defined, used or live at a boundary |
| `Intervals.ComputeLiveIntervals` | crates/analysis/src/intervals.rs:39-123 | for every function for which liveness ends: one interval per value from its first marked position to its last, sorted, the numbers and bounds of later blocks replacing those of earlier ones with their id; exact failure condition |
| `Intervals.SpansInOrder` | crates/analysis/src/intervals.rs:117 | the intervals come by start, then end, then value, and no value twice |
| `Intervals.OverlapIsCommonPosition` | crates/analysis/src/intervals.rs:18-20 | two intervals overlap iff some position lies in both |
| `Coverage.LiveIsCovered` | crates/analysis/src/intervals.rs:64-104 | wherever a value is live its interval contains the position and the one before, for any layout and loops |
| `Coverage.LiveInMeetsPhi` | crates/analysis/src/intervals.rs:93-103 | a value live into a block shares a position with every phi of it |
| `Coverage.UsedPhisOverlap` | crates/analysis/src/intervals.rs:64-104 | in a validated function two phis of a block share a position if the earlier one is used anywhere |
| `Coverage.CommonPointSeparates` | crates/alloc/src/lib.rs:218-254 | a verified assignment gives values sharing a position different locations |
| `Coverage.UsedPhiIsPlacedLast` | crates/alloc/src/lib.rs:218-254 | a verified assignment gives a used phi another location than any later phi of its block |
| `Coverage.UsedPhisAreApart` | crates/alloc/src/lib.rs:218-254 | so it keeps the phis of a block apart when those with a later phi are used |
| `Interference.InterferenceGraph.AddNode` | crates/analysis/src/interference.rs:27-30 | adds the node and no edge, keeping the graph symmetric and irreflexive |
| `Interference.InterferenceGraph.AddEdge` | crates/analysis/src/interference.rs:32-40 | adds both directions of one edge and its ends, nothing for a self-edge |
| `Interference.ScanInst` | crates/analysis/src/interference.rs:62-77 | one step of the backward scan keeps the exact live set and adds exactly the new nodes and edges |
| `Interference.BuildInterferenceGraph` | crates/analysis/src/interference.rs:43-81 | for every function for which liveness ends: nodes are the values that appear; two values are joined iff one is defined in some listed block where the other is live after |
| `Interference.CollisionsInterfere` | crates/analysis/src/interference.rs:43-81 | with unique ids values are joined iff one is defined where the other is live after on paths |
| `Interference.EdgeOverlaps` | crates/analysis/src/interference.rs:43-81 | every interference edge joins values whose intervals overlap |
| `Interference.VerifiedIsColouring` | crates/alloc/src/lib.rs:218-254 | a verified assignment properly colours the graph, with registers and stack slots alike |
| `Alloc.CheckOverlaps` | crates/alloc/src/lib.rs:218-254 | accepts iff no two overlapping intervals share a location |
| `Alloc.VerifyAssignment` | crates/alloc/src/lib.rs:141-257 | returns Ok iff domain, registers, spill count, slot count and overlaps are all right; every error it returns holds of the assignment, and a register is refused only if it is none of the first listed up to the limit, or is a scratch register |
| `Alloc.AllowedAreFirst` | crates/alloc/src/lib.rs:147-152 | the registers a limit allows are those listed at an index below it |
| `Alloc.ValidateForCodegen` | crates/alloc/src/lib.rs:79-110 | returns Ok iff all registers are distinct, rbx is absent and there are two scratch registers; every error it returns holds of the set |
| `LinearScan.ExpireOld` | crates/alloc_linear_scan/src/lib.rs:10-25 | removing in place while scanning frees exactly the registers of expired intervals, in order of end |
| `LinearScan.PlaceInterval` | crates/alloc_linear_scan/src/lib.rs:52-78 | takes a free register, spills, or evicts the furthest end |
| `LinearScan.ScanKeepsInv` | crates/alloc_linear_scan/src/lib.rs:49-79 | free and active registers always partition the pool, slots are fresh and counted exactly, and nothing overlapping shares a location |
| `LinearScan.ScanIsValid` | crates/alloc_linear_scan/src/lib.rs:81-87 | on distinct values, forward intervals and distinct non-scratch registers the result passes the verifier |
| `LinearScan.Allocate` | crates/alloc_linear_scan/src/lib.rs:33-88 | returns the scan's assignment, and fails iff that assignment is invalid |
| `ScanSteps.ScanStarts` | crates/alloc_linear_scan/src/lib.rs:39-44 | before the first interval the registers listed below the limit are free, in that order |
| `ScanSteps.ScanAdvances` | crates/alloc_linear_scan/src/lib.rs:49-79 | each interval in turn: those ended before its start give their registers back in order of end, ties as they became active; then it takes the register freed last, or the next slot, or the register of an active interval that ends last and later, which goes to the next slot |
| `ScanSteps.ScanOrder` | crates/alloc_linear_scan/src/lib.rs:46-47 | the intervals are visited by start, then end, then value |
| `Sorting.SortIsStable` | crates/alloc_linear_scan/src/lib.rs:15 | sorting keeps the order of elements that rank alike |
| `SpillMinimality.ScanStaysAhead` | crates/alloc_linear_scan/src/lib.rs:49-79 | at every point and for every end bound, the scan keeps at least as many early-ending intervals in registers as any valid assignment |
| `SpillMinimality.ScanSpillsLeast` | crates/alloc_linear_scan/src/lib.rs:65-78 | no assignment the verifier accepts for the same intervals and limit has fewer spills |
| `Anneal.NewProblem` | crates/alloc_sim_anneal/src/lib.rs:33-49 | neighbour lists hold exactly the overlapping pairs, each once |
| `Anneal.Cost` | crates/alloc_sim_anneal/src/lib.rs:51-71 | the cost of a state, conflicts counted once per pair |
| `Anneal.ConflictsAreCharged` | crates/alloc_sim_anneal/src/lib.rs:63-69 | the cost of a state is the price of its choices and a million for each overlapping pair that shares a register |
| `Anneal.CostIsPriced` | crates/alloc_sim_anneal/src/lib.rs:51-62 | a state with every value in the first register costs its conflicts alone; with as many conflicts, moving a value from register c to the stack costs 100 and its length less c more, and to register d it costs d - c more |
| `Anneal.CheapStateHasNoConflict` | crates/alloc_sim_anneal/src/lib.rs:63-69 | a state that costs less than one conflict has none |
| `Anneal.GreedyState` | crates/alloc_sim_anneal/src/lib.rs:73-91 | the repair of the state that prefers no register: each value has the least register no earlier neighbour holds, the stack only when they hold all |
| `Anneal.Repair` | crates/alloc_sim_anneal/src/lib.rs:93-115 | each choice is a register no earlier neighbour holds, the preferred one unless one holds it, else the least such; the stack only when they hold all |
| `Anneal.RepairIsUnique` | crates/alloc_sim_anneal/src/lib.rs:93-115 | these conditions determine the repaired state |
| `Anneal.RepairedHasNoConflict` | crates/alloc_sim_anneal/src/lib.rs:93-115 | repair leaves no register conflict, whatever it starts from |
| `Anneal.Propose` | crates/alloc_sim_anneal/src/lib.rs:170-190 | one step changes one choice and keeps the change iff it costs no more or a worse state is accepted; the cost stays right |
| `Anneal.ChoiceIsNew` | crates/alloc_sim_anneal/src/lib.rs:171-175 | a proposal is the drawn choice, or when that is the one in place the next, the first register following the stack |
| `Anneal.ProposalIsKept` | crates/alloc_sim_anneal/src/lib.rs:177-190 | only the drawn place changes; a dearer state is kept only when accepted, and a change is refused only when it is dearer and not accepted |
| `Anneal.RunAnneal` | crates/alloc_sim_anneal/src/lib.rs:150-194 | returns the greedy state when there is nothing to anneal, and else the repair of the earliest cheapest state visited with these draws, never dearer than greedy; no conflict after repair, nor before it when greedy is cheap |
| `Anneal.Allocate` | crates/alloc_sim_anneal/src/lib.rs:202-232 | always passes the verifier under linear scan's preconditions, for any draws, never spills less than linear scan, and follows the annealed state value by value: choice c is the c-th listed register, the limit a stack slot, slots in order |
| `ParallelMoves.MoveEffect` | crates/codegen/src/emitter.rs:162-176 | a ready move transfers the value, changing only its destination and the temporary it loads through |
| `ParallelMoves.BreakEffect` | crates/codegen/src/emitter.rs:179-193 | breaking a cycle also leaves the old destination in the temporary |
| `BrokenCycles.DstsAreSrcs` | crates/codegen/src/emitter.rs:161-179 | with no move ready, the pending moves are a permutation |
| `BrokenCycles.BreakIsHot` | crates/codegen/src/emitter.rs:179-198 | a cycle is broken only when no pending move reads a temporary; afterwards one chain waits for it and the rest is still a permutation |
| `MoveCycles.SequenceFrame` | crates/codegen/src/emitter.rs:149-202 | whatever the cycles, only destinations and temporaries change |
| `ParallelCopy.SequenceDelivers` | crates/codegen/src/emitter.rs:149-202 | every move receives its source's original value, except one that closes a bad cycle, which receives a slot's value |
| `ParallelCopy.ParallelCopyIsExact` | crates/codegen/src/emitter.rs:149-202 | a simultaneous assignment from every state iff there is no bad cycle |
| `ParallelCopy.RegisterCyclesAreSafe` | crates/codegen/src/emitter.rs:149-202 | delivers whenever cycles of three or more are register-only |
| `ParallelCopy.StackRingLosesAValue` | crates/codegen/src/emitter.rs:167-198 | three stack slots in a ring: the sequencer loses a value |
| `MoveOrigins.OriginIsExact` | crates/codegen/src/emitter.rs:149-202 | for any moves, repeated destinations included: a location receives a source's value from every state iff following the moves symbolically says so |
| `SharedMoves.NothingReadyIsDistinct` | crates/codegen/src/emitter.rs:161-179 | with repeated destinations but no cycle through one, no repetition is left when nothing is ready |
| `SharedMoves.LastMoveDelivers` | crates/codegen/src/emitter.rs:149-202 | then, of the moves into a location, the last listed one delivers its source's original value, unless it closes a bad cycle |
| `Lowering.FrameIsLeast` | crates/codegen/src/emitter.rs:276-291 | the frame is the least multiple of 16 covering all slots, and fits iff that is at most 16,777,216 bytes |
| `Lowering.VerdictIsUnique` | crates/codegen/src/emitter.rs:258-259 | the verdict does not depend on which interval list of the function is used |
| `Emitter.GetVal` | crates/codegen/src/emitter.rs:47-66 | fails iff the value has no location; names its register, loading a stack value into the preferred one |
| `Emitter.SetVal` | crates/codegen/src/emitter.rs:68-92 | fails iff the value has no location; moves or stores a register into it |
| `Emitter.EmitParallelMoves` | crates/codegen/src/emitter.rs:149-202 | the destructive loop emits exactly the specified sequence for the non-identity moves |
| `Emitter.CollectPhis` | crates/codegen/src/emitter.rs:210-223 | the phis of every block, in order |
| `Emitter.PhiMovesForEdge` | crates/codegen/src/emitter.rs:225-246 | the moves of an edge: one per phi, identities dropped |
| `Emitter.EmitInst` | crates/codegen/src/emitter.rs:314-465 | appends exactly the instruction's code |
| `Emitter.EmitTerm` | crates/codegen/src/emitter.rs:468-545 | appends exactly the terminator's code, stubs and edge moves included |
| `Emitter.FrameSize` | crates/codegen/src/emitter.rs:267-291 | 32-bit overflow checks and the 16 MiB limit together refuse exactly the frames that are too large |
| `Emitter.EmitFunctionI64` | crates/codegen/src/emitter.rs:248-557 | succeeds iff function, registers, arguments, intervals, assignment and frame are acceptable, and returns the specified code |
| `Frames.FunctionIsLaid` | crates/codegen/src/emitter.rs:302-546 | every jump has its target in the body, conditional jumps follow comparisons, the epilogue is in order, control cannot run off the end |
| `Frames.PrologueEffect` | crates/codegen/src/emitter.rs:273-300 | the prologue sets up the frame and the argument shadows |
| `Frames.ArgumentsAreShadowed` | crates/codegen/src/emitter.rs:296-300 | after it rdi, rsi, rdx, rcx, r8 and r9, as many as there are arguments, lie in this order below the saved rbp |
| `Frames.BodyStep` | crates/codegen/src/emitter.rs:310-546 | every step of a body keeps rsp, rbp, rbx, the shadows, the saved rbp and all memory outside the frame |
| `Frames.FrameDiscipline` | crates/codegen/src/emitter.rs:267-300 | in every run, from any state: never stuck, shadows never overwritten, nothing outside the frame touched, and rsp, rbp and rbx restored at `ret`, as sections 3.2.1 and 3.2.2 of the System V AMD64 psABI require |
| `Frames.SlotsAreDisjoint` | crates/codegen/src/emitter.rs:38-45 | shadow and spill addresses are pairwise distinct and inside the frame, consecutive slots next to each other and the first below the last shadow |
| `Layout.CodeLabelsAreUnique` | crates/codegen/src/emitter.rs:303-312 | every label, block or local, is bound at most once |
| `Effects.InstEffect` | crates/codegen/src/emitter.rs:316-416 | the code of an instruction other than a phi or a comparison leaves the interpreter's result in its location and disturbs no other location but the temporaries |
| `Effects.CompareEffect` | crates/codegen/src/emitter.rs:417-434 | the compare sees the operands' values |
| `Edges.EdgeMovesAreDistinct` | crates/codegen/src/emitter.rs:236-244 | phis in distinct locations give moves with distinct destinations |
| `Edges.EdgeIsExact` | crates/codegen/src/emitter.rs:225-246 | for every edge, whatever phis share and whatever cycles there are: the used phis receive their inputs from every state iff following the moves says so |
| `Edges.SafeEdgeIsExact` | crates/codegen/src/emitter.rs:225-246 | and, with no cycle through a shared location, iff no used phi in place shares its location with one that moves and no used phi closes a bad cycle |
| `Edges.ApartEdgeIsExact` | crates/codegen/src/emitter.rs:225-246 | with phis in distinct locations all of them are served iff there is no bad cycle |
| `Edges.EdgeKeepsOthers` | crates/codegen/src/emitter.rs:225-246 | locations of no phi keep their values on every edge |
| `SharedCycle.OrderDecides` | crates/codegen/src/emitter.rs:160-199 | a cycle through a shared location, none bad: the used phis are served in one order of the phis and not in the other |
| `SharedCycleProgram.TwistDelivers` | crates/codegen/src/emitter.rs:225-246 | a two-block function with that edge is accepted in both orders, and its edges deliver in exactly one |
| `Edges.EnteredValues` | crates/ir/src/interp.rs:41-58 | entering a block binds each phi to its input's old value and nothing else changes |
| `Separation.VerifiedIsSeparated` | crates/alloc/src/lib.rs:218-254 | at each instruction, nothing that is used there, live after it or (for a phi) live into the block shares the result's location |
| `Separation.UseIsNotResult` | crates/analysis/src/validation.rs:86-92 | in a validated function no instruction uses what it defines |
| `Separation.VerifiedPlacesUsedLast` | crates/alloc/src/lib.rs:218-254 | a verified assignment lets a used phi share its location with no later phi |
| `Separation.VerifiedEdgeIsExact` | crates/codegen/src/emitter.rs:225-246 | for a verified assignment and an edge without a cycle through a shared location: the used phis are served from every state iff none in place shares its location with one that moves and none closes a bad cycle |
| `Separation.EasyEdgesDeliver` | crates/codegen/src/emitter.rs:149-202 | unspilled phis or at most two a block, those with a later phi used, make every edge deliver |
| `Simulation.ArgsAreStored` | crates/codegen/src/emitter.rs:296-298 | the registers the prologue stores from are those in which section 3.2.3 of the System V AMD64 psABI passes integer arguments: rdi, rsi, rdx, rcx, r8, r9 |
| `Simulation.SelectRuns` | crates/codegen/src/emitter.rs:434-442 | the jump sequence of a comparison leaves 1 or 0 |
| `Simulation.ResultRuns` | crates/codegen/src/emitter.rs:314-465 | the code of any instruction but a phi, comparisons included, runs to its end with the interpreter's result in its location |
| `Simulation.InstRuns` | crates/codegen/src/emitter.rs:314-465 | one instruction of code keeps every live value's location equal to the interpreter's value |
| `Simulation.PartsRun` | crates/codegen/src/emitter.rs:314-466 | and so do all instructions of a block |
| `Transfer.EdgeMatches` | crates/codegen/src/emitter.rs:487-499 | after an edge's moves the relation holds at the successor, with its phis entered |
| `Transfer.BranchRuns` | crates/codegen/src/emitter.rs:505-544 | a branch reaches the stub of the selected successor, so moves happen on the edge |
| `Transfer.ReturnRuns` | crates/codegen/src/emitter.rs:469-486 | a return halts with the value in rax |
| `Preservation.RunTraces` | crates/ir/src/interp.rs:31-136 | a successful interpretation is a chain of block ends |
| `Preservation.SettingSimulates` | crates/codegen/src/emitter.rs:310-546 | the simulation diagram: between two block ends the code does what the interpreter does, in at least one step |
| `Preservation.SemanticPreservation` | crates/codegen/src/emitter.rs:248-557 | for an accepted assignment whose edges deliver the used phis: whenever the interpreter returns r, the code halts with r in rax and the caller's registers and memory restored |
| `Termination.ReturnsOrRuns` | crates/ir/src/interp.rs:31-136 | a validated function returns with some budget or passes through any number of blocks |
| `Termination.EmittedCodeIsEquivalent` | crates/codegen/src/emitter.rs:248-557 | for an accepted assignment whose edges deliver the used phis: called with its arguments in rdi, rsi, rdx, rcx, r8 and r9, the code returns x iff the interpreter returns x with some step limit |
| `Termination.DivergeTogether` | crates/codegen/src/emitter.rs:248-557 | for an accepted assignment whose edges deliver the used phis: the code runs forever iff every step limit is exceeded |
| `Pipeline.IntervalsFeedTheScan` | crates/alloc_linear_scan/src/lib.rs:33-50 | a function's intervals meet linear scan's needs, so it never fails on them |
| `Pipeline.AllocatedCodeIsEquivalent` | crates/codegen/src/emitter.rs:258-259 | an assignment verified under any register limit, whose frame fits and whose edges deliver the used phis, compiles to equivalent code |
| `Pipeline.IntervalsAreFew` | crates/alloc_linear_scan/src/lib.rs:49-79 | a validated function has no more intervals than definitions, so slot counters stay within 32 bits |
| `Pipeline.AdmissibleDrawsStay` | crates/alloc_sim_anneal/src/lib.rs:139-141 | reducing draws to the number of intervals and choices leaves admissible ones as they are |
| `Pipeline.Compile` | crates/cli/src/main.rs:145-157 | validation, allocation by either allocator and emission: an allocation exists iff the checks and the numbering succeed, code exists iff it also fits; the allocation is linear scan's, with the fewest spills, or the one that annealing with the given draws leads to; if its edges deliver the used phis the code computes the function for every call |
| `DeadPhi.LinearScanSharesPhis` | crates/alloc_linear_scan/src/lib.rs:49-79 | linear scan puts a dead and a live phi in one register |
| `DeadPhi.SharedDoesNotDeliver` | crates/codegen/src/emitter.rs:238-242 | under that assignment an edge fails the condition the main theorems ask for |
| `DeadPhi.HarmlessDelivers` | crates/codegen/src/emitter.rs:238-242 | another assignment that also shares a location is accepted, and under it every edge delivers |
| `DeadPhi.DeadPhiBreaksTheCode` | crates/codegen/src/emitter.rs:225-246 | for that accepted assignment the function returns 2 and its code, from any state, does not |
| `SpilledRing.LinearScanSpillsAll` | crates/alloc_linear_scan/src/lib.rs:49-79 | with no registers allowed linear scan gives each value of the rotating loop its own slot |
| `SpilledRing.RingIsCalled` | crates/codegen/src/emitter.rs:248-259 | the loop and that assignment pass validation and verification |
| `SpilledRing.RingPhisLieApart` | crates/alloc/src/lib.rs:218-254 | its phis are used and lie apart, so only the cycle is at fault |
| `SpilledRing.SpilledRingBreaksTheCode` | crates/codegen/src/emitter.rs:178-198 | the loop returns 1 and its code, from any state, does not |

## Left out

- EmittedCodeIsEquivalent: asks that every edge deliver its used phis from every state; a function whose failing edges are never taken, or fail only from states that never occur, is compiled right as well, which depends on the run. The same holds of SemanticPreservation, DivergeTogether and Compile.
- VerifiedEdgeIsExact: leaves out edges with a cycle through a location of two phis, where the order of the phis decides; EdgeIsExact covers them by following the moves.
- CollectPhis: requires unique block ids, which emission has checked.
- Allocate: both allocators take at most 2^32 - 1 intervals, so that slot counters stay within 32 bits; Pipeline.IntervalsAreFew derives this for the intervals of a validated function. Where the annealer's assignment comes from is stated for intervals of distinct values and distinct registers outside the scratch set, which every function and every accepted register set have.
- Identifiers and argument counts are natural numbers, not 32-bit ones; positions, slots and the frame size keep their 32-bit limits.
- The temperature, `exp` and the generator of the annealer are an arbitrary sequence of draws: where to change, to what, and whether to accept a worse state. Nothing is claimed about the cost of the repaired state, because repair can add spills.
- The step counter's own overflow, past the step limit, cannot occur and is not modelled.
- Machine addresses are unbounded integers, so the stack does not wrap; registers and cells never written read as 0 or as their value at entry.
- Byte encoding, label fix-up, `assemble`, disassembly, and the code-size, load and store counts.
- Error texts, the payload of some error variants, and insertion order of maps and sets.
- The parser, serialisation, function names, SIMD templates, the runner, the command line and the visualiser.
