# cg12 back end: a Dafny model

cg12 is a compiler back end for amd64 and arm64. This project models the graph and
state algorithms at its core over a small IR (blocks of instructions over numbered
temporaries, phis, terminators, executable and synthetic edges) and proves them against
paths and executions.

* **Control flow**: `Cfg`, `DomTheory`, `DomTrees`, `SsaCheck`, `SccTheory`, `Scc`,
  `LoopTheory`, `Nesting`, `Loops`.
* **Register allocation**: `Liveness`, `Bitset` and `LiveSets`, `Interference`,
  `SparseGraph`, `Colouring`, `ArmAlloc` and `ArmBuild`, `CallerSaves`, then `Machine`,
  `RegSim` and `RegAlloc`, which run the original over unbounded temporaries and the
  result over registers and slots and prove that they stay together for every run.
  `AllocMeans` says what that comes to on the instructions' fields, and `ArmHomes` that
  the arm64 homes keep apart what a step needs apart.
* **Emission**: `ParallelMove` and `MoveRuns`, `Matching` and `Layout`, `FloatConv`,
  `OrderedDriver`.
* **Frames and stack maps**: `BitFlow`, `AllocaSlots`, `Frame`, `Derivations`,
  `StaleAllocs`, `NoSplit`.

`Graphs`, `Sorting` and `Ir` hold what they share. `dafny verify dfyconfig.toml` checks everything.

Costs, frequencies, register preferences, the order of pre-assignment candidates, what
an operation computes, where a branch goes and what a destroyed register holds are
parameters: the results hold for all of them.

Where the code does less than its comments say, the model follows the code, gives an
input that shows it, and proves when the promise holds.

* `VerifyDominance` looks at arguments and not at the closure environment a call reads,
  so a function whose environment is defined too late is accepted.
* `naturalLoop` walks predecessor lists that include unreachable blocks, so an
  unreachable block may lie in two bodies that do not nest.
* `parallelMove` saves a cycle's register at the width of the value about to be written
  there. When the move that reads it is wider, half of its value is lost; the sequence is
  right exactly when no cycle starts at a destination narrower than its reader. The runs
  of an allocated function have no cycle, so what is emitted for them is right.
* The block layout places a matching cycle whole and loses the edge that closes it, so
  another order may keep more edges, at most one for each cycle. It keeps the most when
  the terminators allow no cycle of fall-throughs; with one it may or may not.
* The lifetime dataflow on arm64 looks markers up by their operand's number without
  asking whether it is a temporary, so a marker on a constant can end an allocation's
  lifetime early.
* `noSplitChainSharing` searches up with the set the search down has filled, so on a
  call cycle it can miss a caller.

What is asked of callers appears as preconditions. Two pinned temporaries wanted at once
have different registers, none is pinned to a register an assembly destroys around it,
and an assembly marks its pinned operands (`RegAlloc.PinnedApart`,
`RegAlloc.AllPinsMarked`). Lowered code has no phis, arguments that die at their call and
nothing live across a tail call (`RegSim.Lowered`); no move of a run of arguments or
parameters reads an earlier one's destination (`MoveRuns.IsRun`). The allocation analyses
have only reachable predecessors, and an entry without predecessors where facts hold on
entry (`BitFlow.Graphy`). Parallel moves have distinct destinations
and no memory destination another move reads (`ParallelMove.PairsOk`), or read nothing an
earlier one has changed (`ParallelMove.Ordered`).

## Model

| member | source | states |
|---|---|---|
| `Cfg.FillPreds` | analysis/cfg.go:151-172 | the last-entry test lists every predecessor of every block exactly once, in ascending order |
| `Cfg.CFG.ComputeRPO` | analysis/cfg.go:206-254 | the explicit-stack walk terminates and lists exactly the reachable blocks once, entry first, each later block after one of its predecessors; the numbering is the position in that list |
| `Cfg.CFG.Build` | analysis/cfg.go:33-50 | a built graph has exact predecessor lists, order and numbering over executable and synthetic edges together |
| `Cfg.FinishedIsRpo` | analysis/cfg.go:240-254 | reversing the finish order of a completed walk gives such an order, and an edge backwards in it closes a cycle |
| `Cfg.AcyclicRpoIsTopological` | analysis/cfg.go:206-254 | on an acyclic graph every edge goes forwards in the order |
| `DomTrees.Intersect` | analysis/dom.go:91-101 | the two climbing pointers terminate at the greatest common element of the two parent chains |
| `DomTrees.NewIdom` | analysis/dom.go:106-117 | folding over the processed predecessors gives the greatest element common to all their chains, skipping unreachable and unprocessed ones |
| `DomTrees.Round` | analysis/dom.go:104-122 | one round keeps the invariant of the fixpoint and, if it changes anything, strictly lowers a finite measure |
| `DomTrees.Fixpoint` | analysis/dom.go:103-123 | the rounds terminate with every parent stable |
| `DomTheory.ChainIsDominance` | analysis/dom.go:74-133 | at a stable state a block is on another's parent chain exactly when every walk from the entry to the other passes it |
| `DomTrees.Dominators` | analysis/dom.go:74-133 | the stored parent of every reachable block but the entry is its immediate dominator in terms of paths, and the entry and unreachable blocks have none |
| `DomTrees.Dominates` | analysis/dom.go:136-143 | on a reachable block the answer is true exactly when every path from the entry passes through a; on an unreachable one exactly when a is b |
| `SsaCheck.RecordDefs` | analysis/ssacheck.go:36-69 | the recorded site of each temporary is its only definition, with parameters, phis and fixed allocations placed before every instruction |
| `SsaCheck.VerifyDominance` | analysis/ssacheck.go:22-132 | a single-definition function is accepted exactly when it is lowered, or on every path from the entry each defined temporary is defined before each argument that reads it, phi arguments counted at the exit of their predecessor; one whose reachable block reads an argument at or before the instruction that defines it, no stack allocation, is refused; an accepted function has every use defined, closure environments included, exactly when each environment meets the same guard |
| `SsaCheck.SitesAre` | analysis/ssacheck.go:36-69 | a temporary is defined at the top of a block by a phi, at the function's entry as a parameter or by a fixed stack allocation anywhere, and otherwise at the instruction that writes it |
| `SsaCheck.EarlyReadRejected` | analysis/ssacheck.go:71-97 | a reachable block that reads a temporary as an argument at or before the instruction defining it, no stack allocation, is not accepted |
| `SsaCheck.AcceptedRead` | analysis/ssacheck.go:99-132 | in an accepted function every path to an argument, a terminator's operand or a phi's operand of a temporary that something defines comes past an instruction or phi that writes it, unless it is a parameter or a stack allocation |
| `SsaCheck.GuardDecides` | analysis/ssacheck.go:71-97 | the site-and-dominance test of one use decides whether every path defines the temporary before it |
| `SsaCheck.AcceptedUsesExactly` | analysis/ssacheck.go:109-114 | with every argument defined, every use is defined exactly when each reachable instruction's environment meets the guard |
| `SsaCheck.EarlyContextAccepted` | analysis/ssacheck.go:109-114 | a call whose environment is defined only after it passes the checker |
| `Scc.SCCs` | analysis/scc.go:13-84 | the iterative search terminates; its components are whole strongly connected components that partition the blocks, and no edge leads from a component to a later one |
| `Scc.Explore` | analysis/scc.go:30-81 | one root's search numbers exactly the blocks it reaches that had no number, and appends their components in reverse topological order to those found before |
| `Scc.ReachedEarlier` | analysis/scc.go:61-73 | a block's component comes no earlier than that of anything it reaches, and is the same one exactly when it is reached back |
| `Scc.PopComp` | analysis/scc.go:61-73 | popping to the frame's block takes exactly the stack above it, once |
| `SccTheory.CompIsScc` | analysis/scc.go:61-73 | when a frame's low number equals its index, the stack from it upwards is one strongly connected component |
| `Scc.SameComponentIffMutual` | analysis/scc.go:13-84 | two blocks are in one component exactly when each reaches the other |
| `Loops.NaturalLoop` | analysis/loop.go:20-40 | the backward worklist returns exactly the header and the blocks that reach a latch without passing the header |
| `Loops.GroupLatches` | analysis/loopforest.go:35-42 | a block is grouped as a latch of a header exactly when it has an executable edge to it and the header dominates it |
| `Loops.DisjointOrNested` | analysis/loopforest.go:48-57 | two loops share no reachable block, or one body strictly contains the other |
| `Loops.DisjointOrNestedExactly` | analysis/loop.go:29-38 | counting unreachable blocks too, two bodies are disjoint or nested exactly when no unreachable block reaches a latch of each, avoiding its header, while neither header reaches the other's latch that way |
| `Loops.ReachableEntriesNest` | analysis/loop.go:29-38 | when every branch to a reachable block comes from a reachable one, bodies hold reachable blocks only and any two are disjoint or nested |
| `Loops.UnreachableCanStraddle` | analysis/loop.go:32-37 | an unreachable block with edges into two separate loops ends up in both bodies |
| `Loops.FindParent` | analysis/loopforest.go:62-70 | the smallest other body containing the header is the innermost enclosing loop |
| `Loops.DepthOf` | analysis/loopforest.go:73-83 | the parent chain is as long as the number of loops containing the header |
| `Loops.Innermost` | analysis/loopforest.go:89-95 | each block in a body is mapped to a loop of greatest depth containing it |
| `Loops.BuildForest` | analysis/loopforest.go:33-101 | every header of a back edge has its loop with exact body, parent and depth, innermost first; a block has an innermost loop exactly when some natural loop contains it, and that one is deepest; all bodies are disjoint or nested exactly when no unreachable block straddles two headers |
| `Loops.LoopDepth` | analysis/loop.go:5-15 | a block, reachable or not, has a depth exactly when a natural loop contains it: the greatest depth of such a loop, which is the number of them always when the block is reachable, and otherwise exactly when it straddles no two of them |
| `Loops.DepthExactly` | analysis/loopforest.go:89-95 | the innermost loop's depth is the number of loops around a block exactly when no two of those, neither inside the other, are entered by the block below their headers |
| `Ir.ReadsAndWrites` | ir/instr.go:156-168 | an instruction reads exactly the temporaries among its arguments and its closure environment, a call's arguments included, and writes exactly its result and further results |
| `LiveSets.FlowFrom` | analysis/live.go:54-62 | along an edge flow, into the set in place, the successor's live-in set and exactly the operands its phis take from this block |
| `LiveSets.WalkBlock` | analysis/live.go:65-95 | the backward walk leaves in the scratch set the values read before being written, plus what passes through, lifetime markers counting for nothing |
| `Liveness.BlockInIs` | analysis/live.go:65-95 | a temporary is in that set exactly when its entry value is read in the block, or survives it and is live out |
| `LiveSets.Turn` | analysis/live.go:46-98 | a block's turn over bit sets that share no words keeps the sets sound; reporting no growth it leaves the block satisfied, reporting growth it uses up missing facts |
| `LiveSets.Round` | analysis/live.go:42-100 | a round that grows no live-in set leaves every block satisfied by its successors; one that does uses up a finite set of missing facts |
| `LiveSets.ComputeLiveness` | analysis/live.go:17-103 | the rounds terminate; a temporary is in the bit set live out (in) of a reachable block exactly when some path from its exit (entry) reaches a read, phi operands on their edge included, with no write before |
| `Liveness.LiveInSuccessor` | analysis/live.go:48-54 | what is live into a successor is live out of the block, by extending the path |
| `Liveness.LivenessIs` | analysis/live.go:17-103 | the same of the instructions' fields: live out exactly when a path over the terminators' successors, through blocks that do not write it, comes to a phi operand on its edge or to a block that exposes it |
| `Liveness.ExposedIs` | analysis/live.go:65-95 | exposed means that the block's phis do not write it and an instruction that is no lifetime marker has it as argument or environment, or the terminator as operand, before any writes it |
| `Liveness.EdgeUseIs` | analysis/live.go:54-62 | a temporary is taken along an edge exactly when it is the operand some phi of the successor lists for the block |
| `Liveness.ReadAheadIsLive` | analysis/live.go:65-95 | a temporary among the arguments or the environment of an instruction that some path comes to with no write before is live out of the path's first block |
| `Bitset.TempSet.Add` | analysis/bitset.go:22-29 | adds the element and reports whether it was absent |
| `Bitset.TempSet.Remove` | analysis/bitset.go:40-42 | removes exactly the element |
| `Bitset.TempSet.Has` | analysis/bitset.go:45-47 | reports membership |
| `Bitset.TempSet.Union` | analysis/bitset.go:50-60 | becomes the union, also when both are one set, and reports exactly whether it grew |
| `Bitset.TempSet.SetTo` | analysis/bitset.go:74-76 | becomes the other set |
| `Bitset.TempSet.Members` | analysis/bitset.go:121-131 | lists exactly the elements in ascending order, taking the lowest bit off each word |
| `Bitset.TempSet.Len` | analysis/bitset.go:79-85 | the number of elements |
| `Bitset.TempSet.Equal` | analysis/bitset.go:134-144 | for sets of one size, true exactly when the elements are the same |
| `Bitset.DropLowest` | analysis/bitset.go:127-127 | a word and itself less one is the word without its lowest set bit |
| `Bitset.SameElements` | analysis/bitset.go:134-144 | words are equal exactly when they hold the same elements |
| `Interference.ColorGraph.AddEdge` | amd64/gcalloc.go:93-117 | a clash becomes an edge between two colourable temporaries of one class, a forbidden register beside a pinned one, and nothing otherwise |
| `Interference.ColorGraph.Visit` | amd64/gcalloc.go:143-230 | one instruction reports exactly the clashes of its results with what is live after it (a move's source set aside, an assembly's inputs included), its clobbers, and the managed references held |
| `Interference.ColorGraph.BuildBlock` | amd64/gcalloc.go:125-239 | a block's walk reports exactly its instructions' clashes, clobbers and held references |
| `Interference.ColorGraph.Build` | amd64/gcalloc.go:123-240 | the finished graph has an edge, a forbidden register or a held reference exactly where some reachable instruction demands it |
| `Interference.MovesAre` | amd64/gcalloc.go:489-497 | moves are exactly copies, parameters and arguments of one temporary into one |
| `Interference.ClashIs` | amd64/gcalloc.go:205-230 | two temporaries clash at an instruction exactly when they differ, it writes one, and it writes the other too, or the other is live after it and is not the source of such a move, or it is an inline assembly that reads the other |
| `Interference.RawIs` | amd64/gcalloc.go:229-236 | live after an instruction is what some later one has as argument or environment before any writes it, and what the block passes on unwritten |
| `SparseGraph.InterferenceGraph.AddPair` | arm64/interference.go:65-71 | records the pair, in either order, and nothing else |
| `SparseGraph.InterferenceGraph.Seal` | arm64/interference.go:76-117 | every row ends up strictly ascending and holds exactly the nodes reported with it |
| `SparseGraph.InterferenceGraph.Row` | arm64/interference.go:121-123 | returns that exact row |
| `SparseGraph.Fill` | arm64/interference.go:95-103 | each row holds its partners in the order reported, no row running into the next |
| `SparseGraph.Dedup` | arm64/interference.go:109-115 | compacting a sorted row in place keeps each member once |
| `Colouring.Remove` | amd64/gcalloc.go:327-336 | taking a node out leaves every remaining degree equal to the number of remaining neighbours |
| `Colouring.Simplify` | amd64/gcalloc.go:309-336 | the stack holds every node once, and the ones pushed as certain are exactly those with fewer neighbours left than available colours |
| `Colouring.SureHasColour` | amd64/gcalloc.go:276-288 | such a node has a colour left when popped, whatever the others took, pre-assigned neighbours included |
| `Colouring.Pick` | amd64/gcalloc.go:342-397 | the register chosen is in the class, not forbidden and held by no neighbour: one a move partner holds, if any is open, else the first open one of the order the node prefers; none is chosen only if none is left, or the node crosses calls often enough to want a register they preserve, the chosen one is not, and saving it at each crossing costs as much as spilling |
| `Colouring.Select` | amd64/gcalloc.go:340-403 | popping keeps the colouring proper and gives every node a usable register or a slot of its own, or neither when it is recomputed at each use |
| `Colouring.AssignAmd64` | amd64/gcalloc.go:244-408 | neighbours never share a register, no node holds a forbidden one, pinned ones keep theirs, held references have no register, whatever has no register has an aligned slot disjoint from the others unless it is recomputed at each use, and a node certain when removed is coloured unless spilling is cheaper |
| `Colouring.PreassignKeeps` | arm64/gcalloc.go:441-447 | taking a callee-saved register and forbidding it to the neighbours left keeps the colouring proper |
| `Colouring.SpillKeeps` | arm64/gcalloc.go:305-326 | the next slot, of eight or sixteen bytes, is at the least multiple of its size from the end of the area, which grows to the slot's end; no two slots share a byte; what is recomputed gets none |
| `Colouring.SlotsAre` | arm64/gcalloc.go:305-326 | every slot is eight or sixteen bytes at a multiple of that inside the area, and no two share a byte |
| `Colouring.AssignArm64` | arm64/gcalloc.go:301-658 | the same guarantees with greedy pre-assignment, where a node's forbidden registers grow only by ones its neighbours hold |
| `ArmAlloc.AddEdge` | arm64/gcalloc.go:155-173 | a clash becomes a reported pair of two colourable temporaries of one class, a forbidden register beside a pinned one, and nothing otherwise |
| `ArmAlloc.Rows` | arm64/interference.go:121-123 | the sealed rows give each node exactly the nodes reported with it |
| `ArmAlloc.Allocate` | arm64/gcalloc.go:301-658 | from reported clashes through sealed rows to registers: the coloured graph has exactly the reported edges and forbidden registers, and clashing temporaries of one class never share a register unless both are pinned |
| `ArmBuild.Visit` | arm64/gcalloc.go:195-283 | one instruction reports exactly its results against what is live after it, against its operands when those are still read, the registers its clobbers or a call's vectors may not use, and the references held |
| `ArmBuild.Walk` | arm64/gcalloc.go:178-288 | the backward walks of all blocks report exactly what some reachable instruction demands |
| `ArmBuild.AllocateFunc` | arm64/gcalloc.go:28-46 | walk, seal and colour: around every reachable instruction what it keeps apart is in different registers, nothing is in a register it is kept from, no held reference is in a register, and the slots are aligned and disjoint |
| `ArmHomes.RegistersApart` | arm64/gcalloc.go:264-283 | a result's register is not that of another result of its class, nor of anything of its class live after the instruction but what it copies, nor, for an inline assembly and an instruction that reads operands after writing, of an operand; unless both are pinned |
| `ArmHomes.RegistersAvoided` | arm64/gcalloc.go:215-262 | what is not pinned is in no register an inline assembly around it names, a vector in none across a call, a managed reference live at a call or safepoint in none at all |
| `ArmHomes.AllocationHomed` | arm64/gcalloc.go:301-658 | with nothing recomputed at each use, what the allocator returns is one home each: pinned registers kept, others from the file of their class, slots private |
| `ArmHomes.ArmApart` | arm64/gcalloc.go:264-283 | the homes the arm64 allocation gives keep apart, at every reachable instruction, what has to be apart, across classes, slots and pinned registers |
| `ArmHomes.ArmStepAgrees` | arm64/gcalloc.go:195-283 | so one instruction over those homes leaves every live temporary's value at home, but for what a call destroys |
| `CallerSaves.BlockLists` | amd64/callersave.go:23-72 | each non-tail call lists exactly, in ascending order, what is live across it in a register its callee need not preserve; fails exactly on a managed reference there |
| `CallerSaves.SavedIs` | amd64/callersave.go:38-66 | saved at an instruction is exactly what is live after it without being a result, if it is a call but no tail call, in a register the callee need not preserve |
| `CallerSaves.WrapBlock` | amd64/callersave.go:93-125 | the rebuilt block wraps each call's arguments and call with its saves and restores, one new slot per temporary on first need |
| `CallerSaves.InsertCallerSaves` | amd64/callersave.go:19-127 | reachable blocks are wrapped, nothing else changes, save slots are distinct words that exactly extend the spill area; fails exactly when a managed reference would need saving |
| `CallerSaves.WrapKeepsOrder` | amd64/callersave.go:93-125 | without what was inserted, a rebuilt block is the original |
| `CallerSaves.WrapKeepsRuns` | amd64/callersave.go:90-121 | nothing is inserted after an argument, so each run still meets its call |
| `CallerSaves.WrapNothing` | amd64/callersave.go:74-76 | with nothing to save a block is unchanged |
| `Machine.StepAgrees` | amd64/gcalloc.go:143-238 | one instruction, run over registers and slots that keep clashing temporaries apart, leaves every live temporary's value in its place: copies that share a register, early-clobber assembly, and assembly whose dying pinned input shares its register with a pinned result included; a call keeps its results and what it may not destroy |
| `Machine.MoveMoves` | amd64/gcalloc.go:489-497 | over temporaries a copy, parameter or argument of one temporary moves its value and does nothing else; a lifetime marker does nothing |
| `Machine.OperationComputes` | ir/instr.go:156-168 | any other operation leaves in its results what it computes from the values of its arguments and environment, so in memory, and nothing elsewhere |
| `Machine.MachineMoves` | amd64/callersave.go:105-122 | on the machine moves copy one home to another, saves a home to a save slot and restores a save slot to a home, and nothing else changes |
| `Machine.MachineComputes` | ir/instr.go:156-168 | an operation other than an inline assembly leaves in its result's home what it computes from what its operands' homes held |
| `Machine.MachineDestroys` | amd64/callersave.go:54-66 | on the machine a call leaves arbitrary contents in every register its callee need not preserve and an inline assembly in those it names, its results aside; nothing else is changed |
| `Machine.MachineReadsEarly` | amd64/gcalloc.go:218-226 | an inline assembly may read arbitrary contents where it names a register or puts a result, but for a register shared by a pinned result and a pinned operand |
| `RegSim.RestoredAgrees` | amd64/callersave.go:105-122 | after arguments, call and restores every temporary live across the call is back in its register, though the call destroyed all registers outside the preserved set |
| `RegSim.WrapAgrees` | amd64/callersave.go:93-125 | a whole rebuilt block agrees with the block over temporaries on what is live at its end |
| `RegAlloc.ClashApart` | amd64/gcalloc.go:93-117 | in a finished colouring clashing temporaries have different homes, whatever mix of nodes, pinned ones, classes and slots |
| `RegAlloc.InstrApart` | amd64/gcalloc.go:93-104 | around one instruction whatever is wanted at once has different homes; only pinned operands of one assembly may share |
| `RegAlloc.RegAlloc` | amd64/regalloc.go:71-102 | the pipeline yields exact order, liveness and an allocation that keeps every clash apart, an assembly's input and result pinned to one register excepted; it fails exactly when a managed reference is pinned, across a call, to a register the call may destroy |
| `RegAlloc.RunsAgree` | amd64/regalloc.go:71-102 | for every behaviour of operations, branches and destroyed registers and every number of steps, the allocated function is at the same block as the original, with the same memory and every live temporary's value in its home |
| `AllocMeans.ResultsApart` | amd64/gcalloc.go:205-230 | in the allocated function a result's home is not that of another result, nor of anything live after the instruction but what a copy, parameter or argument moves, nor, in an inline assembly, of an operand unless both are pinned |
| `AllocMeans.NotClobbered` | amd64/gcalloc.go:183-203 | whatever an inline assembly reads, writes or lives across it has a home other than the registers it names |
| `AllocMeans.LoweredMeans` | amd64/regalloc.go:71-102 | what is asked of the code, of its fields: no instruction of the save pass, one destination a move, no operand of an inline assembly among its results, arguments dead after their call, nothing live across a tail call |
| `AllocMeans.LoweredIf` | amd64/regalloc.go:71-102 | and conversely: code whose fields meet this is fit for the allocator |
| `AllocMeans.PointMoves` | amd64/regalloc.go:71-102 | a running function runs its block and goes to the successor the branch picks from the values, or on the machine the homes, of the terminator's operands; it stops where there is none |
| `AllocMeans.RunsTogether` | amd64/regalloc.go:71-102 | from a reachable block with every live temporary at home, after any number of blocks both functions are in one block with one memory and every live temporary at home; when they stop, so are the terminator's operands |
| `ParallelMove.StuckExactly` | amd64/xselect.go:235-252 | no pending move is unblocked exactly when every pending move is on a cycle |
| `ParallelMove.OneReader` | amd64/xselect.go:252-279 | in a stuck worklist each destination has one reader, so the cycles are disjoint |
| `ParallelMove.StuckDirect` | amd64/xselect.go:252-271 | a stuck worklist moves only between registers and nothing in it waits in a scratch register, so one scratch per bank serves any number of cycles |
| `ParallelMove.MoveIs` | amd64/mc.go:764-850 | one emitted move leaves in its destination the source's low half, the high one too if it is wide; if it is not between registers it may leave anything in the scratch registers; nothing else changes |
| `ParallelMove.ParallelMove` | amd64/xselect.go:227-279 | on distinct destinations it terminates and never meets a memory cycle; every destination's low half is its source's original and nothing but destinations and scratch is written; the whole word is right for all contents exactly when no cycle starts at a destination narrower than its reader. Moves that read nothing an earlier one has changed, destinations distinct or not, are emitted as given |
| `ParallelMove.InOrderWins` | amd64/xselect.go:227-250 | such moves leave each destination with the whole original value of the last source moved to it, and change nothing else |
| `ParallelMove.SwapNarrows` | amd64/xselect.go:267-270 | swapping a narrow register and a wide one, in that order, is such a cycle: the rescued copy has the width of the narrow one |
| `MoveRuns.RunHasNoCycle` | amd64/mc.go:989-1013 | among the pairs of a run of parameters or arguments, at homes that keep clashing temporaries apart, a cycle can only start at a place moved onto itself, which is dropped |
| `MoveRuns.EmitRun` | amd64/mc.go:1082-1093 | so the parallel move emits the run in order: each destination gets the original of the last source moved to its home, whatever the widths, and that is its own source for every destination read after the run, though others are never read |
| `MoveRuns.ReadInOrder` | amd64/mc.go:1082-1093 | run one after the other on the machine, the moves too give every destination read after the run its own source's original value |
| `MoveRuns.EmittedAsRun` | amd64/mc.go:1082-1093 | what is emitted for a run leaves in the home of each destination read afterwards what running it move by move does, in the width the move has |
| `MoveRuns.AllocatedRuns` | amd64/mc.go:989-1013 | the homes of an allocated function keep its runs apart and share no slot |
| `Matching.Try` | arm64/layout.go:55-68 | the recursive search terminates; success gives a matching that covers the block and all covered before, failure changes nothing and leaves a set no later search can leave or end in |
| `Matching.MatchBlocks` | arm64/layout.go:51-73 | afterwards every block is matched or has all its candidates in one closed set |
| `Matching.MatchingIsMaximum` | arm64/layout.go:48-73 | no set of allowed edges with one successor and one predecessor per block is larger |
| `Layout.EmitChains` | arm64/layout.go:75-106 | every block is emitted once, the entry first, whole chains at a time |
| `Layout.LostExactly` | arm64/layout.go:88-106 | a matched edge is a fall-through of the emitted order except exactly the one into the least block of a matching cycle |
| `Layout.NoOrderBeats` | arm64/layout.go:9-12 | no order of the blocks that starts at the entry has more fall-throughs than are matched |
| `Layout.RealisesAllButCycles` | arm64/layout.go:9-12 | the emitted order has at most as many fall-throughs as are matched, and at least that many less one for each matching cycle |
| `Layout.CycleCosts` | arm64/layout.go:5-6 | for one function every layout this search can give falls through twice where another order falls through three times |
| `Layout.CycleHarmless` | arm64/layout.go:5-6 | a cycle of possible fall-throughs need not cost: for another function every layout is best |
| `Layout.LayoutBlocks` | arm64/layout.go:22-108 | the order is a permutation from the entry; its matching is no smaller than any set of allowed edges with one successor and one predecessor a block; it falls through on every matched edge but one per cycle; and when the terminators allow no cycle of fall-throughs no order from the entry falls through more often |
| `OrderedDriver.Deterministic` | arm64/parallel.go:129-191 | whatever the interleaving, a finished run has merged functions 0 to e-1 in order, where e is the first failure, returns e's error, and has drained every job it started |
| `OrderedDriver.AlwaysSafe` | arm64/parallel.go:160-189 | at every moment merges are a prefix of the serial ones, the awaited job has been started, the function of every waiting or running job is unreleased, at most as many jobs run as there are workers, and no more than twice that many are started beyond what is merged |
| `OrderedDriver.NoDeadlock` | arm64/parallel.go:145-189 | until the driver returns some step is possible |
| `OrderedDriver.RunIsBounded` | arm64/parallel.go:163-189 | every run is finite: each step lowers a measure |
| `FloatConv.RoundIsNearest` | amd64/xasm_float.go:133-138 | rounding to a p-bit significand gives a value no representable value is nearer than |
| `FloatConv.TiesToEven` | amd64/xasm_float.go:227-232 | of two nearest values it is the one with the even significand |
| `FloatConv.HalvingIsExact` | amd64/xasm_float.go:211-232 | halving with the dropped bit put back, rounding and doubling is rounding the value itself, whenever at least three bits are dropped |
| `FloatConv.TwoBitsAreNotEnough` | amd64/xasm_float.go:225-232 | with two dropped bits the bit put back makes a false tie |
| `FloatConv.UnsignedToFloatRounds` | amd64/xasm_float.go:244-265 | every unsigned 64-bit value converts to its correctly rounded float in both precisions |
| `FloatConv.BiasIsExact` | amd64/xasm_float.go:149-163 | a float in [2^63, 2^64) is an integer from which 2^63 can be taken exactly |
| `FloatConv.FloatToUnsignedTruncates` | amd64/xasm_float.go:179-208 | every float in [0, 2^64) converts to its exact truncation |
| `FloatConv.UnsignedRoundTrip` | amd64/xselect.go:367-408 | there and back every unsigned 64-bit value becomes its rounding, or zero when that is 2^64, so is unchanged exactly when it has a p-bit significand |
| `FloatConv.TooLargeIsZero` | amd64/xasm_float.go:179-208 | from 2^64 on the conversion gives zero |
| `FloatConv.SignedAnswer` | amd64/xasm_float.go:179-208 | a negative source gives the two's complement of its truncation, one below the signed range or unordered the indefinite value |
| `FloatConv.Unsigned32ToFloatRounds` | amd64/xselect.go:391-408 | a zero-extended 32-bit value converts through the signed 64-bit instruction to its correct rounding |
| `FloatConv.FloatToUnsigned32Truncates` | amd64/xselect.go:367-383 | for a float in [0, 2^32) the low half of the signed 64-bit truncation is its exact truncation |
| `BitFlow.WalkExact` | arm64/allocacolor.go:69-113 | at a fixpoint reached from below, a fact is computed at a point exactly when it holds there on some path from the entry |
| `AllocaSlots.BlockLive` | arm64/allocacolor.go:72-113 | the rounds terminate; an allocation is recorded live in a block exactly when some path has it started and not ended at a point there, markers looked up by their operand's number alone |
| `AllocaSlots.CoveredExactly` | arm64/allocacolor.go:92-99 | the dataflow has an allocation on throughout its lifetime exactly when no path meets, within it, an end marker on a non-temporary of the same number |
| `AllocaSlots.ConstantEndsLifetime` | arm64/allocacolor.go:92-99 | an end marker on a constant ends an allocation of that number for the dataflow, so two allocations live together do not interfere |
| `AllocaSlots.InLifetimeIs` | arm64/allocacolor.go:80-99 | an allocation is in its lifetime at a point of a path exactly when a start marker has named its temporary and no end marker has named it since |
| `AllocaSlots.ByNumberIs` | arm64/allocacolor.go:92-99 | for the dataflow it is so when a start marker has carried its number, on a temporary or a constant, and no end marker has since |
| `AllocaSlots.ShapeIs` | arm64/frame.go:133-148 | an allocation is aligned to 4, 8 or 16 as it asks, to 16 if it asks for anything else, and takes the least multiple of that holding its size, one unit when it has none |
| `AllocaSlots.Interference` | arm64/allocacolor.go:117-136 | two allocations interfere exactly when both are live somewhere in one block |
| `AllocaSlots.SortBySize` | arm64/allocacolor.go:140-149 | every allocation once, larger rounded size first, ties by temporary number |
| `AllocaSlots.Assign` | arm64/allocacolor.go:155-185 | every allocation is in one group, of its own shape, with no member it interferes with, and no group is opened whose first member fits an earlier one |
| `AllocaSlots.AllocaGroups` | arm64/allocacolor.go:19-201 | the grouped allocations are exactly those started and ended somewhere, if at least two; ones that share a slot have one shape and on no path are both in their lifetimes at one point, unless such a marker cuts one short; two alone of one shape that do not interfere do share |
| `Frame.PlaceAll` | arm64/frame.go:91-115 | every allocation has an aligned place; two overlap only if they own one slot, and then coincide |
| `Frame.ComputeFrame` | arm64/frame.go:75-130 | frame record, callee saves, spills, allocations and variadic areas follow each other without overlap in the least 16-aligned frame that holds them above the outgoing area |
| `Frame.AllocationPlaced` | arm64/frame.go:91-115 | every allocation has an offset aligned as it asks, its bytes between the spills and the end of the allocations |
| `Frame.AreasAre` | arm64/frame.go:75-130 | the frame record takes sixteen bytes and each saved register eight; spills, allocations and a variadic function's eight words and eight quads follow; the frame is the least multiple of sixteen that holds them above the outgoing area |
| `Frame.DisjointBytes` | arm64/frame.go:91-115 | two allocations kept apart have their requested bytes one before the other |
| `Frame.SharersMatch` | arm64/frame.go:91-115 | allocations at one offset ask for one alignment and round up to one size |
| `Frame.LiveTogetherApart` | arm64/frame.go:82-109 | two allocations in their lifetimes at one point of a path, neither cut short by a marker on a non-temporary, or of which one is not grouped, have disjoint bytes |
| `Frame.LayoutFrame` | arm64/frame.go:75-148 | grouping, placing and sizing together: every allocation of four, eight or any other alignment is at a multiple of 4, 8 or 16, allocations at one offset ask for one alignment, the frame holds its areas apart, and allocations in their lifetimes at one point have disjoint bytes |
| `Derivations.PointerAllocationSources` | arm64/regalloc.go:442-528 | the worklist drains; a temporary maps to an allocation exactly when a chain of copies, constant additions, selects and phis leads from one to the other |
| `Derivations.SourcesAre` | arm64/regalloc.go:442-528 | the same over chains: from the allocation's temporary, each link one derivation, to the temporary |
| `Derivations.CarriesAre` | arm64/regalloc.go:530-546 | a link is a phi operand, a copy of a temporary, an addition of an integer constant to one, or one of the two values of a select, and nothing else |
| `StaleAllocs.Transfer` | arm64/regalloc.go:338-374 | a block's walk applies touches, then a new allocation, and records at each call or safepoint what is undefined before it |
| `StaleAllocs.OffMeansStale` | arm64/regalloc.go:361-371 | an allocation is undefined after a run of instructions exactly when it was made in it and not touched since |
| `StaleAllocs.Settle` | arm64/regalloc.go:303-327 | the rounds drain with every entry state equal to what enters the block |
| `StaleAllocs.UndefinedAllocations` | arm64/regalloc.go:238-334 | tracked are exactly the pointer-bearing allocations that do not escape; at each call and safepoint, and nowhere else, one of them is suppressed exactly when on every path there its allocation has run and nothing has touched it since |
| `StaleAllocs.TouchesAre` | arm64/regalloc.go:268-293 | an instruction touches an allocation exactly when it reads a temporary derived from it and is no lifetime marker, copy, constant addition or select, or is a call whose stack result lands there |
| `StaleAllocs.ReadIsScanned` | arm64/regalloc.go:338-374 | an allocation that some path to a safepoint reads so after making it last, a store into it included, is not suppressed there |
| `StaleAllocs.UnreadIsStale` | arm64/regalloc.go:338-374 | one made and since then only derived from, marked or left alone is undefined |
| `NoSplit.Reach` | arm64/nosplit_measure.go:177-190 | adds exactly what the edges lead to without passing what was visited before |
| `NoSplit.Sharing` | arm64/nosplit_measure.go:159-166 | finds everything below, and above whatever a path avoiding those reaches; that is everything above or below exactly when every outside caller into a cycle through the function also leads to it outside what is below |
| `NoSplit.SharesAllExactly` | arm64/nosplit_measure.go:159-166 | the same condition decides completeness for any result of the two searches |
| `NoSplit.DirectCallerFound` | arm64/nosplit_measure.go:162-164 | a caller of the cycle that also calls the function itself is found, so calling into the cycle does not alone make a miss |
| `NoSplit.CycleHidesCaller` | arm64/nosplit_measure.go:162-164 | on a cycle a caller of the cycle is missed |
| `NoSplit.ChainSharing` | arm64/nosplit_measure.go:138-173 | on an acyclic graph each nosplit function maps to exactly those on a chain with it |
| `NoSplit.Budget.Headroom` | arm64/nosplit_measure.go:102-110 | the measured room less all charges so far, nothing for a function not measured |
| `NoSplit.Budget.Charge` | arm64/nosplit_measure.go:121-128 | adds one charge to the ledger, to every function sharing a chain |
| `NoSplit.GrantIs` | arm64/nosplit_measure.go:112-128 | a grant adds its bytes to its function's frame and takes them from the room of every measured function that shares a chain with it |
| `NoSplit.ChainsStayWithin` | arm64/nosplit_measure.go:112-128 | after any grants, each within the headroom then left and charged, every chain of an acyclic graph is within the limit or was granted nothing |

## Left out

- Instruction encoding, relocations, object files, debug information and stack-map bytes.
- Block frequencies and spill costs are inputs; how they are estimated is not modelled.
- How a rematerialised value is recomputed; in `RegAlloc` every spilled temporary has a slot.
- Spill-slot coalescing on arm64 (`coalesceSpillSlots`) and the arm64 caller-save pass.
- Pooling and release of graphs and dominator maps, environment variables, statistics and error texts.
- Emission of spilled operands through scratch registers; the machine model reads and writes a home in one step. Arguments run in sequence there; `MoveRuns` shows the parallel move emitted for them does the same.
- Machine words in the simulation have no width; `ParallelMove` models the two halves of a word.
- Registers, nodes and counters are unbounded numbers; the 32-bit fields of the row graph are not bounded.
- `TempSet.Copy` and the iterator `All`; the passes that read the live sets work on their contents.
- ArmBuild.AllocateFunc: which temporaries cross a call where no register survives one, and which instructions still read an operand after writing their result, are inputs.
- ArmHomes.ArmStepAgrees: one instruction, not a whole run, because the arm64 caller-save pass is not modelled.
- MoveRuns.EmitRun: a float is not moved from memory to memory.
- Layout.LayoutBlocks: with a cycle of possible fall-throughs only the bound is stated; whether the order is then best is a path-cover question.
- Colouring.Simplify: the order among certain nodes is an input, because only the guarantee for such nodes matters.
- ParallelMove.ParallelMove: memory places with different base or offset are taken not to overlap, and a float is not moved from memory to memory, where the staging register is an integer one.
- Derivations.PointerAllocationSources: gives sets, not sorted lists.
- StaleAllocs.UndefinedAllocations: which allocations escape the frame, and where a call returning on the stack puts its result, are inputs.
- Frame.ComputeFrame: which callee-saved registers are used, the outgoing area's size and the counts of named arguments are inputs.
- NoSplit.ChainsStayWithin: the initial headroom comes from a stack checker that is not part of this model.
- FloatConv.FloatToUnsignedTruncates: infinities are not modelled, and the subtraction is only assumed exact where its result is representable.
- OrderedDriver.Deterministic: what compiling a function does is a function of it, and the number of workers is at least one.
- SsaCheck.VerifyDominance: gives the verdict, not the message.
