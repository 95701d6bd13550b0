# Verified model of the cuOpt deterministic search and conic front end

A Dafny project that models four parts of the solver and proves what they promise. `dafny verify dfyconfig.toml` checks all of
it.

**Deterministic parallel branch and bound.** `SearchModel` is a step machine: workers start and finish nodes, heuristic
solutions arrive, and a serial callback merges solutions, deals backlogs out again, computes the lower bound and decides
termination. Workers meet the callback's barrier where the source lets them: while a node is being strengthened or solved
(`branch_and_bound.cpp` line 5354, `dual_simplex/phase2.cpp` lines 3440, 4374 and 4510), while waiting after a limit return or
for lack of work (`branch_and_bound.cpp` lines 5142 and 5154). So the cutoff a node was given may be stale when its LP
returns, and a node whose LP stopped on a limit stays with its worker and is taken up again after the callback, on top of leaf
bounds that are already its own. If it is pruned at that moment the leaf bounds no longer belong to the last solved node; the
invariant shows this harmless, because open siblings share their bound (`SearchInvariant.LastInv`). The LP solver, bound
strengthening, dives and heuristics are oracles with contracts: an infeasible answer means no feasible point in the box, a
cutoff means every point is at or above it, an optimal leaf objective bounds every point of the box, strengthening keeps every
feasible point. `SearchInvariant`, `SearchSteps`, `SearchFinish`, `SearchSync` and `SearchTheorem` prove coverage, valid
bounds and right verdicts for every run; `SearchNode` tables what each step does with a node and `SearchOutcome` what a
callback does with solutions, verdict and backlogs; `SearchResume` follows paused nodes; `SearchMerge`, `SearchKeys` and
`SearchEvents` prove that the callback is deterministic, identifiers are unique and every closed node is logged once;
`SearchCounterexample` gives runs whose verdict is wrong because tree exhaustion never consults the numerical bound;
`SearchWorkers` holds the workers and the callback as classes and loops. `Lattice` is the objective lattice.

The coverage slack is `primal_tol`, or the larger of `primal_tol` and `integer_tol` times the step on an objective lattice; it
vanishes when the incumbent lies on the lattice.

**Search tree.** `BoundWalk` recovers a node's bounds by the leaf-to-root walk. `ClosingProtocol` is the atomic child-count
protocol as a step machine over every interleaving. `Destructor` is the rotation-based release of a subtree. `Stacks` holds
the local stacks of dives and plunges over the circular deque.

**Quadratic constraints to second-order cones, and the cached update path.** `ConeModel` gives problems a meaning and defines
when one problem extends another. `ConeClassify`, `ConeFactor`, `ConeGeneral`, `ConeConvert`, `ConeSteps`, `ConePasses`,
`ConeLayout` and `ConePermute` treat the five passes (conversion, rotated lift, aliasing, bound split, permutation);
`ConeTheorem` composes them, `ConeAccept` says which problems are accepted and `ConeCopies` where copies are made;
`ConeProblem` runs them in place on a class with the source's loops and scratch arrays; `ConeObjective` rewrites the quadratic
objective. `ConeRhs` and `RhsUpdate` push a new right-hand side through the cached result, `BarrierTransform` a new objective;
`RhsReplay` replays recorded eliminations and `RhsRestore` restores the eliminated variables.

**Two numerical kernels.** `Givens` is the host-side least-squares solve inside GMRES. `RowCheck` is the adaptive-precision
row check under the relative rounding model of section 4.3.1 of IEEE 754-2019.

Conventions. Numbers are exact reals, infinities are the datatype `Ext`. A square root is a witness `w >= 0` with `w * w` the
radicand, passed in where the source calls `sqrt`. The factorisation routine is a contract on matrix entries: `L D L^T` in
pivot order is the Hessian, `D > 0`. `Sums` and `Reals` hold finite sums, absolute values and products of vectors.

Where a property fails. Tree exhaustion reports OPTIMAL or INFEASIBLE without looking at the numerical bound
(`branch_and_bound.cpp` lines 5265-5273); `SearchTheorem.ExhaustionRight` shows the verdict right whenever the numerical bound
is at least the upper bound less the slack, and `SearchCounterexample.NumericalExhaustion` shows that for every other pair of
bounds some run ends with exactly that pair and a wrong verdict. An eliminated variable that appeared in no row is recorded
with pivot row -1, and replaying such a record is refused (`barrier_transform.hpp` lines 219-224), so no right-hand-side
update is possible on such a cache: `RhsReplay.UnpivotedRejected`. Each record also keeps the right-hand side its pivot row
had, from which the variable is restored (`dual_simplex/presolve.cpp` line 2292), and an update does not refresh it:
`RhsRestore.RestoreCorrect` shows a restored point right exactly when every stored value is the replayed one, and
`RhsRestore.MovedPivotFails` and `RhsRestore.StaleUpdate` give updates for which it is wrong. Sequence solves, which are the
ones that update, turn these eliminations off (`pdlp/solve.cu` lines 546-549). The dive stack is allocated for
`backtrack_limit + 4` entries while its comment speaks of `backtrack_limit + 2`; `Stacks.Dive` shows that `limit + 2` are held
after every step and no push meets a full deque.

## Model

| member | source | states |
|---|---|---|
| `SearchTheorem.RunInv` | cpp/src/branch_and_bound/branch_and_bound.cpp:5115-5311 | the search invariant (tree shape, held nodes, coverage, bounds) holds in every state of every run, for every interleaving of node starts, node ends, pauses on a limit, resumptions, arriving heuristic solutions and callbacks |
| `SearchTheorem.EverySyncAccounts` | cpp/src/branch_and_bound/branch_and_bound.cpp:5158-5279 | after every callback each integer-feasible point lies in the box of a held node whose bound it respects, or at or above the numerical bound, or no better than the upper bound by more than the slack |
| `SearchTheorem.ReportedBoundValid` | cpp/src/branch_and_bound/branch_and_bound.cpp:5755-5784 | the lower bound computed after any callback is at or below every feasible objective, up to the slack below an attained upper bound |
| `SearchTheorem.ExhaustionRight` | cpp/src/branch_and_bound/branch_and_bound.cpp:5265-5273 | an exhausted tree gives the right answer whenever the numerical bound does not undercut the upper bound by more than the slack |
| `SearchTheorem.ExhaustionRightWithoutNumerical` | cpp/src/branch_and_bound/branch_and_bound.cpp:5265-5273 | with no node ended NUMERICAL, exhaustion means an incumbent optimal within the slack, or an infeasible problem |
| `SearchCounterexample.NumericalExhaustion` | cpp/src/branch_and_bound/branch_and_bound.cpp:5265-5273 | for every upper and numerical bound outside that condition, a run that ends exhausted with exactly these bounds and a wrong verdict, so the condition cannot be weakened |
| `SearchTheorem.ExactOnGrid` | cpp/src/branch_and_bound/branch_and_bound.cpp:509-528 | on an objective lattice the answer is exact once the incumbent lies on the lattice |
| `SearchTheorem.GapVerdictRight` | cpp/src/branch_and_bound/branch_and_bound.cpp:5260-5263 | stopping on a closed gap leaves no feasible point better than the slack or the gap allowed, in the user's objective |
| `SearchOutcome.VerdictExact` | cpp/src/branch_and_bound/branch_and_bound.cpp:5242-5273 | the verdict of every callback, on the bounds: with no work left decided by the upper bound; otherwise OPTIMAL exactly when both bounds are finite and within the absolute or relative gap, a limit only where they are not, undecided in all other cases; the lower bound it reads is the least of the numerical bound and the bounds of the held nodes, and one of them, the incumbent's only when all are infinite |
| `SearchOutcome.CallbackSettles` | cpp/src/branch_and_bound/branch_and_bound.cpp:5513-5656 | after every callback no collected solution, from the queue, a worker or a dive, beats the bound by more than the slack; the bound falls only to a collected solution, which becomes the incumbent; there is an incumbent exactly when there was one or anything was collected |
| `SearchOutcome.CallbackLeaves` | cpp/src/branch_and_bound/branch_and_bound.cpp:5158-5240 | what else a callback leaves: the later part of the queue, the next horizon, the least ceiling as numerical bound, and workers with their node, leaf bounds and counters, no queued solutions, the merged bound, released from a pause |
| `SearchOutcome.CallbackBalances` | cpp/src/branch_and_bound/branch_and_bound.cpp:5698-5752 | backlogs are dealt exactly when a worker has two nodes or more beside an idle one or over four times as many as another; then worker w of n gets the nodes at w, w+n, w+2n, ... of creation order, the last on top of its old stack, and backlogs are empty |
| `SearchOutcome.DealtEvenly` | cpp/src/branch_and_bound/branch_and_bound.cpp:5748-5751 | no worker is dealt two nodes more than another |
| `SearchNode.StartTakes` | cpp/src/branch_and_bound/branch_and_bound.cpp:5120-5139 | which node a worker takes and from where, from the backlog one of least bound, then origin, then creation number; pruned exactly when its bound exceeds the worker's, else solved on the strengthened bounds with the cutoff one dual tolerance above |
| `SearchNode.FinishTable` | cpp/src/branch_and_bound/branch_and_bound.cpp:1429-1536 | the status, bound and children a node gets from each answer of the LP, exactly which answers branch, where the children lie and what the worker keeps |
| `SearchNode.EventSays` | cpp/src/branch_and_bound/branch_and_bound.cpp:1292-1315 | every step logs exactly what became of its node, under the worker and the node's creation number, stamped with the LP work the worker has done |
| `SearchNode.ClockIsWork` | cpp/src/branch_and_bound/branch_and_bound.cpp:5410-5411 | a worker's clock is the sum of its LP work, across callbacks |
| `SearchTheorem.OpenLeavesAreHeld` | cpp/src/branch_and_bound/deterministic_workers.hpp:182-234 | at every moment the open leaves are exactly the nodes in the workers' current slot, plunge stack and backlog, each held once |
| `SearchTheorem.StartNeverStuck` | cpp/src/branch_and_bound/branch_and_bound.cpp:5120-5134 | whatever a worker dequeues, a paused node included, is an open leaf with well-formed bounds |
| `SearchSteps.StartKeeps` | cpp/src/branch_and_bound/branch_and_bound.cpp:5121-5139 | dequeuing a node or taking up a paused one, pruning it against the local bound or setting up its bounds, recomputed or on top of what the leaf problem holds, preserves the invariant |
| `SearchSteps.PruneLast` | cpp/src/branch_and_bound/branch_and_bound.cpp:5127-5134 | a paused node pruned on resumption leaves the leaf problem with bounds that are not its parent's: no open child of the parent can then pass the bound test, so the stale bounds are never used |
| `SearchSteps.BaseStands` | cpp/src/branch_and_bound/branch_and_bound.cpp:5136-5139 | the bounds a node is set up with, incremental or recomputed, stand for the box of its path: no feasible point of it is lost and none outside is added |
| `SearchResume.PausedIsResumed` | cpp/src/branch_and_bound/branch_and_bound.cpp:5141-5144 | after a limit return the worker's next start comes after a callback and takes up the very node it was solving |
| `SearchResume.ResumedRun` | cpp/src/branch_and_bound/deterministic_workers.hpp:215-221 | for every problem of a family, a run that pauses a node and reaches a state from which it is started again |
| `SearchFinish.FinishKeeps` | cpp/src/branch_and_bound/branch_and_bound.cpp:1429-1536 | every outcome of a node (infeasible, cutoff, integral, fathomed, branched, limit, numerical) preserves the invariant, also when a callback fell between its start and its end |
| `SearchSync.SyncKeeps` | cpp/src/branch_and_bound/branch_and_bound.cpp:5158-5279 | the whole callback preserves the invariant |
| `SearchSync.BalanceHolds` | cpp/src/branch_and_bound/branch_and_bound.cpp:5698-5752 | rebalancing only permutes held nodes and changes nothing else of a worker |
| `SearchSync.MergeKeeps` | cpp/src/branch_and_bound/branch_and_bound.cpp:5426-5481 | merging worker solutions keeps incumbent and bound in step and leaves every queued objective settled |
| `SearchKeys.RunKeys` | cpp/src/branch_and_bound/deterministic_workers.hpp:188-217 | in every run nodes are told apart by (worker, sequence number), and so are queued solutions; heuristic solutions carry no worker's number |
| `SearchKeys.HeldIdsDistinct` | cpp/src/branch_and_bound/mip_node.hpp:295-305 | packed ids of held nodes are pairwise distinct while sequence numbers fit in 32 bits |
| `SearchKeys.SyncDeterministic` | cpp/src/branch_and_bound/branch_and_bound.cpp:5158-5279 | the state after a callback depends only on what was collected, not on the order of collection |
| `SearchMerge.SortedUnique` | cpp/src/branch_and_bound/bb_event.hpp:69-73 | two sorted sequences of the same items are equal when the order tells the items apart |
| `SearchEvents.EventsUnique` | cpp/src/branch_and_bound/deterministic_workers.hpp:417-425 | the sorted event batch, payloads included, does not depend on the order workers are polled in, although the order skips the payload |
| `SearchEvents.SequenceIdentifies` | cpp/src/branch_and_bound/deterministic_workers.hpp:236-240 | over a whole run, across callbacks, no two steps log events with the same worker and sequence number |
| `SearchEvents.BatchIsHorizon` | cpp/src/branch_and_bound/deterministic_workers.hpp:471-478 | a callback collects exactly the events logged since the callback before |
| `SearchEvents.LoggedOnce` | cpp/src/branch_and_bound/branch_and_bound.cpp:1292-1315 | no node is logged twice in a run, whether pruned, closed or branched |
| `SearchEvents.ClosedIsLogged` | cpp/src/branch_and_bound/branch_and_bound.cpp:1292-1315 | at every moment of every run the nodes below the root that are no longer open are exactly those logged so far |
| `SearchWorkers.CollectEvents` | cpp/src/branch_and_bound/deterministic_workers.hpp:417-425 | the pool loop takes over every worker's events and empties its log, clock and counter kept |
| `SearchMerge.SolutionsUnique` | cpp/src/branch_and_bound/deterministic_workers.hpp:48-53 | the merge order of worker solutions is determined by the solutions |
| `SearchMerge.HeuristicsUnique` | cpp/src/branch_and_bound/branch_and_bound.cpp:5571-5580 | the replay order of heuristic solutions, by stamp and then objective, is determined by the solutions |
| `SearchMerge.LexSays` | cpp/src/branch_and_bound/branch_and_bound.cpp:5571-5580 | the tie-break on solution values: the first difference decides, a proper prefix comes first |
| `SearchMerge.MergeTakesFirst` | cpp/src/branch_and_bound/branch_and_bound.cpp:5446-5475 | at most one solution of a pool is accepted: the first in merge order, which has the least objective, then worker, then number |
| `SearchMerge.HorizonSplits` | cpp/src/branch_and_bound/branch_and_bound.cpp:5554-5569 | solutions stamped before the horizon are replayed, all others stay queued, each with its multiplicity |
| `SearchMerge.QueueOrderIrrelevant` | cpp/src/branch_and_bound/branch_and_bound.cpp:5554-5569 | queues with the same items are split alike |
| `SearchWorkers.BfsWorker.EnqueueForPlunge` | cpp/src/branch_and_bound/deterministic_workers.hpp:188-213 | the oldest plunge entry goes to the end of the backlog, the preferred child on top of its sibling on top of the rest |
| `SearchWorkers.BfsWorker.Enqueue` | cpp/src/branch_and_bound/deterministic_workers.hpp:182-186 | pushes a node on top of the plunge stack; it is held once more, everything else as before |
| `SearchWorkers.BfsWorker.Size` | cpp/src/branch_and_bound/deterministic_workers.hpp:231-234 | the number of held nodes, positive exactly when there is work |
| `SearchWorkers.BfsWorker.RetireOldest` | cpp/src/branch_and_bound/deterministic_workers.hpp:192-195 | the oldest entry moves to the end of the backlog; nothing held is lost |
| `SearchWorkers.BfsWorker.Take` | cpp/src/branch_and_bound/deterministic_workers.hpp:215-229 | the paused node, else the top of the stack, else a backlog node of least bound; held nodes unchanged |
| `SearchWorkers.BfsWorker.FindTop` | cpp/src/branch_and_bound/deterministic_workers.hpp:215-229 | finds a backlog entry that no other entry precedes, one of least bound |
| `SearchWorkers.BfsWorker.RecordSolution` | cpp/src/branch_and_bound/branch_and_bound.cpp:1262-1272 | the local bound becomes the minimum of itself and the objective; the solution is appended under the next number exactly when it improves; queued solutions stay told apart and strictly improving, none below the local bound |
| `SearchWorkers.Coordinator.ReplayTimeline` | cpp/src/branch_and_bound/branch_and_bound.cpp:5582-5642 | the two-index timeline loop computes the replay of the due solutions, whose effect `SearchOutcome.CallbackSettles` states |
| `SearchWorkers.Coordinator.ProcessSolutions` | cpp/src/branch_and_bound/branch_and_bound.cpp:5426-5481 | the merge loop computes the merge of the step machine |
| `SearchWorkers.Coordinator.FoldCeilings` | cpp/src/branch_and_bound/branch_and_bound.cpp:5653-5655 | the numerical bound becomes the least of itself and the workers' ceilings |
| `SearchWorkers.LeastBound` | cpp/src/branch_and_bound/branch_and_bound.cpp:5759-5777 | the running minimum is the least bound of all listed nodes |
| `SearchWorkers.BalanceLoads` | cpp/src/branch_and_bound/branch_and_bound.cpp:5698-5752 | the test and the dealing loop compute the balance of the step machine, whose effect `SearchOutcome.CallbackBalances` states |
| `Lattice.SnapSound` | cpp/src/branch_and_bound/branch_and_bound.cpp:478-492 | snapping never exceeds a lattice value at or above the leaf objective |
| `Lattice.SnapLeast` | cpp/src/branch_and_bound/branch_and_bound.cpp:478-492 | the snapped bound is the least lattice value at or above the leaf objective less the integer tolerance of a step; without a lattice it is the leaf objective |
| `Lattice.SnapMonotone` | cpp/src/branch_and_bound/branch_and_bound.cpp:478-492 | snapped bounds do not fall from parent to child |
| `Lattice.CutoffKeepsBetter` | cpp/src/branch_and_bound/branch_and_bound.cpp:494-507 | the node cutoff keeps every lattice value below an on-lattice upper bound |
| `Lattice.CutoffSays` | cpp/src/branch_and_bound/branch_and_bound.cpp:494-507 | the node cutoff less the dual tolerance is the upper bound, or the greatest lattice value strictly better than it |
| `Lattice.AcceptsExactlyBetter` | cpp/src/branch_and_bound/branch_and_bound.cpp:509-528 | with primal_tol below the step, an on-lattice incumbent is replaced exactly by strictly better lattice objectives |
| `Lattice.AcceptsSays` | cpp/src/branch_and_bound/branch_and_bound.cpp:509-528 | a candidate replaces an incumbent exactly when it is better by more than primal_tol and, on a lattice, less than half a step above some lattice value better than the incumbent by more than the integer tolerance of a step |
| `Lattice.RejectionSound` | cpp/src/branch_and_bound/branch_and_bound.cpp:509-528 | a rejected solution leaves only attainable objectives within the slack of the incumbent |
| `BoundWalk.TreeNode.GetVariableBounds` | cpp/src/branch_and_bound/mip_node.hpp:135-147 | the leaf-to-root first-writer-wins loop computes the walk of the node's path |
| `BoundWalk.TreeNode.UpdateBranchedVariableBounds` | cpp/src/branch_and_bound/mip_node.hpp:149-172 | one node writes its interval only where no deeper node has |
| `BoundWalk.WalkIsIntersection` | cpp/src/branch_and_bound/mip_node.hpp:135-172 | for branching values within the leaf bounds the walk is the intersection of the root bounds with every interval on the path |
| `BoundWalk.WalkPoints` | cpp/src/branch_and_bound/mip_node.hpp:135-172 | a point lies in the walked box exactly when it lies in the root box and every interval |
| `BoundWalk.ChildrenCover` | cpp/src/branch_and_bound/mip_node.hpp:125-128 | every point integral in the branching variable lies in one of the children |
| `BoundWalk.ChildrenPartition` | cpp/src/branch_and_bound/mip_node.hpp:125-128 | branching at a fractional value: every point of the node integral in the variable lies in exactly one child, no point with that value in either |
| `BoundWalk.IncrementalStands` | cpp/src/branch_and_bound/branch_and_bound.cpp:5323-5333 | one branch applied to the parent's strengthened bounds keeps every feasible point of the child's walked box |
| `BoundWalk.EnqueueDiveNode` | cpp/src/branch_and_bound/deterministic_workers.hpp:358-368 | a dive starts from a parentless copy of the node with the bounds of the node's path resolved beforehand |
| `BoundWalk.DiveNodeBounds` | cpp/src/branch_and_bound/branch_and_bound.cpp:5943-5947 | a node of the dive's own tree gets the box of its branches on top of the start node's whole path |
| `BoundWalk.WalkResumes` | cpp/src/branch_and_bound/mip_node.hpp:240-260 | a detached copy over its resolved bounds walks to the same box |
| `ClosingProtocol.RunInv` | cpp/src/branch_and_bound/mip_node.hpp:186-202 | the counting and bound invariants hold under every interleaving of closing calls |
| `ClosingProtocol.CountersExact` | cpp/src/branch_and_bound/mip_node.hpp:186-202 | each counter equals the children that have not completed, and each inner node is cascaded through once |
| `ClosingProtocol.AncestorsAlive` | cpp/src/branch_and_bound/mip_node.hpp:186-202 | no ancestor of an open leaf is ever freed |
| `ClosingProtocol.TouchedAlive` | cpp/src/branch_and_bound/mip_node.hpp:186-202 | no step touches a freed node: not the decremented parent, not the children read or released, not the node completed |
| `ClosingProtocol.FreedOnce` | cpp/src/branch_and_bound/mip_node.hpp:186-202 | no two steps of a run release the same node |
| `ClosingProtocol.QuietOutcome` | cpp/src/branch_and_bound/mip_node.hpp:186-202 | when the last leaf closes, the root's bound is the least of all final leaf bounds, and attained |
| `Destructor.FreeSubtree` | cpp/src/branch_and_bound/mip_node.hpp:44-64 | every node of a subtree is freed exactly once with both slots empty, in at most 2n steps |
| `Destructor.Rotation` | cpp/src/branch_and_bound/mip_node.hpp:51-56 | a rotation keeps the in-order sequence and lowers the measure by one |
| `Destructor.Destroy` | cpp/src/branch_and_bound/mip_node.hpp:44-64 | both child slots in turn |
| `Stacks.CircularDeque.PushFront` | cpp/src/utilities/circular_deque.hpp:60-65 | the ring buffer as a sequence: push at the front |
| `Stacks.CircularDeque.PopBack` | cpp/src/utilities/circular_deque.hpp:75-80 | the ring buffer as a sequence: pop at the back |
| `Stacks.Dive` | cpp/src/branch_and_bound/branch_and_bound.cpp:2172-2247 | on every sequence of outcomes the stack fits its capacity, its depth gap ends within the limit and its size within limit + 2; it ends as the outcomes prescribe, the same for the trimming loop and the single pop |
| `Stacks.DiveStep` | cpp/src/branch_and_bound/branch_and_bound.cpp:1405-1424 | the top entry leaves; branching puts the preferred child on top of its sibling and drops the oldest entry once it lies more than the limit above; depths stay descending within the limit |
| `Stacks.PlungeStep` | cpp/src/branch_and_bound/branch_and_bound.cpp:1787-1950 | which nodes a plunge finishes, puts back, stacks and queues: the evicted sibling first, the preferred child on top, the other below it or in the queue when that is short |
| `Stacks.Plunge` | cpp/src/branch_and_bound/branch_and_bound.cpp:1772-1969 | the stack holds at most two siblings and every node is finished or queued on every exit |
| `ConeClassify.NormalizeKeeps` | cpp/src/barrier/translate_soc.hpp:31-43 | turning >= into <= keeps the points of the constraint |
| `ConeClassify.StandardForm` | cpp/src/barrier/translate_soc.hpp:277-300 | a standard route is exact: the form is a positive multiple of tails minus head |
| `ConeClassify.RotatedForm` | cpp/src/barrier/translate_soc.hpp:284-299 | a rotated route is exact: the form is a positive multiple of tails minus the ratio times the product of the heads |
| `ConeClassify.PartsForm` | cpp/src/barrier/translate_soc.hpp:203-262 | sorting and sifting the entries by kind keeps the form |
| `ConeAccept.Routes` | cpp/src/barrier/translate_soc.hpp:170-300 | for coefficients separated by the tolerance: the standard route exactly for one diagonal -s and others s > tol at distinct columns, no linear part, rhs 0; the rotated one exactly for one cross -2d, d > tol, with such diagonals; rejected exactly for an empty constraint, a head that does not match or missing tails; general otherwise |
| `ConeAccept.StandardRouted` | cpp/src/barrier/translate_soc.hpp:297-398 | a constraint of standard shape becomes the cone of its head and exactly its other columns, ascending |
| `ConeAccept.RotatedRouted` | cpp/src/barrier/translate_soc.hpp:284-443 | a constraint of rotated shape becomes the rotated cone of its cross term and exactly its diagonal columns, with ratio d/s |
| `ConeFactor.SquaresAreForm` | cpp/src/barrier/translate_soc.hpp:464-525 | the factorisation turns the form into weighted squares: they add up to twice the form |
| `ConeGeneral.YSquares` | cpp/src/barrier/translate_soc.hpp:587-614 | the squares of the y columns add up to twice the quadratic form |
| `ConeGeneral.GeneralRows` | cpp/src/barrier/translate_soc.hpp:587-656 | the linking rows hold exactly when the added columns take their determined values |
| `ConeGeneral.GeneralConeSays` | cpp/src/barrier/translate_soc.hpp:658-674 | with those values the cone says exactly what the quadratic constraint says |
| `ConeConvert.GeneralExtends` | cpp/src/barrier/translate_soc.hpp:457-676 | the general path extends the model: solutions project onto and lift from those before |
| `ConeConvert.StandardExtends` | cpp/src/barrier/translate_soc.hpp:368-398 | the standard fast path extends the model |
| `ConeConvert.RotatedExtends` | cpp/src/barrier/translate_soc.hpp:399-443 | the rotated fast path extends the model |
| `ConeCopies.StepAdds` | cpp/src/barrier/translate_soc.hpp:365-676 | a fast step adds nothing but its cone; the general step adds rank + 2 free columns without cost, as many equality rows, and the cone over exactly these columns |
| `ConeConvert.HeadNonneg` | cpp/src/barrier/translate_soc.hpp:75-97 | a head that passes the test is nonnegative at every point of the rows and bounds |
| `ConeConvert.ImpliedWitness` | cpp/src/barrier/translate_soc.hpp:75-97 | an implied bound is nonnegative exactly when some marked singleton row makes it so |
| `ConeAccept.HeadTested` | cpp/src/barrier/translate_soc.hpp:75-97 | the head test passes exactly when the column's own bound is nonnegative or some singleton row bounds it from below by a nonnegative value |
| `ConePasses.ConvertExtends` | cpp/src/barrier/translate_soc.hpp:151-676 | converting every constraint in turn extends the model |
| `ConePasses.LiftAllExtends` | cpp/src/barrier/translate_soc.hpp:695-823 | lifting every rotated cone extends the model |
| `ConeSteps.LiftIdentity` | cpp/src/barrier/translate_soc.hpp:705-708 | s_0^2 - s_1^2 is twice the ratio times the product of the heads |
| `ConeSteps.LiftExtends` | cpp/src/barrier/translate_soc.hpp:755-777 | one lifted cone extends the model, for a root h with 2 h^2 equal to the ratio |
| `ConeSteps.LinkExtends` | cpp/src/barrier/translate_soc.hpp:880-896 | replacing one cone entry by a linked copy extends the model |
| `ConePasses.AliasExtends` | cpp/src/barrier/translate_soc.hpp:826-908 | aliasing extends the model |
| `ConePasses.SplitExtends` | cpp/src/barrier/translate_soc.hpp:910-991 | bound splitting extends the model |
| `ConeLayout.RouteDistinct` | cpp/src/barrier/translate_soc.hpp:233-262 | a fast route names no variable twice inside its cone |
| `ConeLayout.AliasDisjoint` | cpp/src/barrier/translate_soc.hpp:826-908 | after aliasing the cones are pairwise disjoint |
| `ConeLayout.SplitSettles` | cpp/src/barrier/translate_soc.hpp:910-991 | after splitting every cone column is free or a head with bounds [0, inf), and the cones stay disjoint |
| `ConeCopies.AliasedSlots` | cpp/src/barrier/translate_soc.hpp:826-848 | a cone entry is replaced by a copy exactly where an earlier cone holds its variable |
| `ConeCopies.SettledSlots` | cpp/src/barrier/translate_soc.hpp:910-937 | a cone entry is replaced by a copy exactly where its variable is neither free nor a head with bounds [0, inf) |
| `ConeCopies.ExpandedDims` | cpp/src/barrier/translate_soc.hpp:1005-1124 | the barrier gets one cone for each constraint, with as many entries as that constraint's cone |
| `ConePermute.OrderIsPermutation` | cpp/src/barrier/translate_soc.hpp:1005-1023 | the column order lists every column once, so the internal size check cannot fail |
| `ConeCopies.OrderKept` | cpp/src/barrier/translate_soc.hpp:1005-1023 | columns outside the cones keep their order, then the entries of each cone follow in theirs |
| `ConePermute.PermuteSat` | cpp/src/barrier/translate_soc.hpp:1025-1056 | permuting columns permutes the solutions |
| `ConePermute.PermuteCost` | cpp/src/barrier/translate_soc.hpp:1036-1052 | the linear objective is unchanged by the permutation |
| `ConeTheorem.MeaningPreserved` | cpp/src/barrier/translate_soc.hpp:57-1124 | for every accepted problem a point satisfies the original rows, bounds and quadratic constraints iff some expanded solution projects to it |
| `ConeTheorem.ObjectivePreserved` | cpp/src/barrier/translate_soc.hpp:1128-1147 | the linear objective agrees at the projection of every expanded point |
| `ConeTheorem.ExpansionLayout` | cpp/src/barrier/translate_soc.hpp:1005-1124 | cone k fills one contiguous segment, cone_var_start plus the dims is the column count, original columns keep distinct places, cone columns are free or heads on [0, inf) |
| `ConeAccept.ExpandAccepts` | cpp/src/barrier/translate_soc.hpp:57-676 | a problem is accepted exactly when it has quadratic constraints and each is of standard or rotated shape with heads known to be nonnegative from the original rows and bounds, or takes the general path and has a factorisation |
| `ConeAccept.ExpandCones` | cpp/src/barrier/translate_soc.hpp:151-676 | constraint k becomes cone k, over exactly its variables for a standard or rotated shape |
| `ConeAccept.OrdinaryCone` | cpp/src/barrier/translate_soc.hpp:365-398 | a problem with one ordinary second-order cone is accepted and the cone kept |
| `ConeProblem.Problem.ComputeImplied` | cpp/src/barrier/translate_soc.hpp:75-97 | the row loop fills both tables with every column's implied bound and its rows |
| `ConeProblem.Problem.ConvertOne` | cpp/src/barrier/translate_soc.hpp:151-676 | one constraint converted in place, or refused, as the pass prescribes; `ConeAccept.Routes` and `ConeAccept.ExpandAccepts` say which |
| `ConeProblem.Problem.AppendGeneral` | cpp/src/barrier/translate_soc.hpp:541-676 | columns, linking rows and cone of the general path appended in place |
| `ConeProblem.Problem.ConvertQuadratics` | cpp/src/barrier/translate_soc.hpp:151-676 | the conversion loop computes the conversion pass |
| `ConeProblem.Problem.LiftRotated` | cpp/src/barrier/translate_soc.hpp:738-811 | the lift loop computes the lift pass |
| `ConeProblem.Problem.AliasShared` | cpp/src/barrier/translate_soc.hpp:826-908 | the owner-table loop and the appended rows compute the aliasing pass |
| `ConeProblem.Problem.SplitBounded` | cpp/src/barrier/translate_soc.hpp:910-991 | the slot loop and the appended rows compute the splitting pass |
| `ConeProblem.BuildOrder` | cpp/src/barrier/translate_soc.hpp:1005-1023 | the two loops compute the column order and its inverse |
| `ConeProblem.PermuteDense` | cpp/src/barrier/translate_soc.hpp:1036-1050 | moving values through old_to_new places each old entry at its new column |
| `ConeProblem.Problem.PermuteColumns` | cpp/src/barrier/translate_soc.hpp:1005-1056 | rows, bounds, costs and cones moved to the new order |
| `ConeProblem.BuildHessian` | cpp/src/barrier/translate_soc.hpp:475-509 | the Hessian over the constraint's own variables, folded to the lower triangle; the scratch array is handed back all -1 |
| `ConeProblem.ExpandProblem` | cpp/src/barrier/translate_soc.hpp:57-1124 | the five passes in place compute the expansion; it refuses exactly the problems `ConeAccept.ExpandAccepts` excludes |
| `ConeObjective.RewriteObjective` | cpp/src/barrier/translate_soc.hpp:1058-1112 | counting, prefix sums and scatter give the renamed rows; refused exactly when the offsets or indices are invalid |
| `ConeObjective.ValidIsCompressed` | cpp/src/barrier/translate_soc.hpp:1058-1080 | an objective is accepted exactly when it is the compressed form of one row for each model column |
| `ConeObjective.EntriesKept` | cpp/src/barrier/translate_soc.hpp:1058-1112 | Q'[p(i), p(j)] = Q[i, j], with empty rows for added columns |
| `ConeObjective.FormKept` | cpp/src/barrier/translate_soc.hpp:1058-1112 | the quadratic form is unchanged at every point |
| `ConeObjective.QuadraticPreserved` | cpp/src/barrier/translate_soc.hpp:1058-1124 | the rewritten quadratic objective agrees at the projection of every expanded point |
| `ConeRhs.UpdateIsExpansion` | cpp/src/barrier/barrier_transform.hpp:358-383 | under a new right-hand side, expanding again succeeds exactly when the recheck passes, and then gives the cached expansion with its own rows updated |
| `ConeRhs.UpdatedMeaning` | cpp/src/barrier/barrier_transform.hpp:358-383 | when the recheck of the recorded heads passes, the cached expansion is still equivalent to the quadratic constraints |
| `ConeRhs.UpdatedHeads` | cpp/src/barrier/barrier_transform.hpp:369-383 | when the recheck of the recorded heads passes, each is nonnegative at every point of the new rows |
| `ConeRhs.HeadOkNew` | cpp/src/barrier/translate_soc.hpp:99-105 | the head test under a new right-hand side is the recheck of what was recorded for it |
| `BarrierTransform.CrushIsAdjoint` | cpp/src/barrier/barrier_transform.hpp:252-326 | crush(c).z equals c.uncrush(z) up to a constant of the objective, for every cost, reduced point and value of the substituted variables |
| `BarrierTransform.SlacksInserted` | cpp/src/barrier/barrier_transform.hpp:121-130 | columns keep their order and leave exactly the places of the inserted slacks free |
| `BarrierTransform.NegateSays` | cpp/src/dual_simplex/presolve.cpp:2451-2456 | each listed entry changes sign, the others stay |
| `BarrierTransform.MergedSays` | cpp/src/dual_simplex/presolve.cpp:2369-2382 | a split variable is its own entry minus its partner's, the others stay |
| `BarrierTransform.RefilledSays` | cpp/src/dual_simplex/presolve.cpp:2384-2412 | kept columns take the reduced point's values, removed ones their recorded values |
| `BarrierTransform.RestoredSays` | cpp/src/dual_simplex/presolve.cpp:2276-2296 | the barrier's columns are unscaled; substituted variables take the values restored for them |
| `BarrierTransform.UncrushSays` | cpp/src/dual_simplex/presolve.cpp:2437-2456 | a column of the problem is its converted column's value plus its lower bound, with the other sign if it was negated |
| `BarrierTransform.CrushObjective` | cpp/src/barrier/barrier_transform.hpp:252-326 | the loops compute the crushed objective; on a consistent cache it is refused exactly when the number of costs is wrong or a column substituted away is left with one |
| `BarrierTransform.AllRemovedRejected` | cpp/src/barrier/barrier_transform.hpp:290-298 | when presolve removed every column no update is accepted |
| `BarrierTransform.ScatterThenGather` | cpp/src/barrier/barrier_transform.hpp:131-156 | scattering an objective into the expanded layout and gathering it back is the identity |
| `BarrierTransform.ScatterObjective` | cpp/src/barrier/barrier_transform.hpp:133-143 | the scatter loop |
| `BarrierTransform.GatherObjective` | cpp/src/barrier/barrier_transform.hpp:145-156 | the gather loop |
| `BarrierTransform.DropSubstituted` | cpp/src/barrier/barrier_transform.hpp:175-208 | substituted columns are dropped, refused when one has a cost |
| `BarrierTransform.PairAdjoint` | cpp/src/barrier/barrier_transform.hpp:300-312 | splitting free variables is adjoint to merging them |
| `BarrierTransform.NegateAdjoint` | cpp/src/barrier/barrier_transform.hpp:286-288 | negation of listed variables is self-adjoint |
| `RhsReplay.ReplayCorrect` | cpp/src/barrier/barrier_transform.hpp:210-250 | a point solves the kept rows with the replayed right-hand side iff it extends to a solution of all rows with the original one |
| `RhsReplay.ReplayCommutes` | cpp/src/barrier/barrier_transform.hpp:210-236 | the replay gives the right-hand side of the row operations for every matrix |
| `RhsReplay.SoundForEveryRhs` | cpp/src/dual_simplex/presolve.cpp:491-546 | the row operations of records made for one right-hand side are sound for every other and leave the same matrix |
| `RhsReplay.SoundFactor` | cpp/src/dual_simplex/presolve.cpp:523-546 | the factors of a sound record are the row's coefficient of the variable over the pivot row's |
| `RhsRestore.RestoreCorrect` | cpp/src/dual_simplex/presolve.cpp:2288-2297 | a point satisfying the kept rows with the replayed values is restored to a solution of all rows iff every record's rhs is the replayed value of its pivot row at its turn; the kept variables stay |
| `RhsRestore.UpdateRestores` | cpp/src/dual_simplex/presolve.cpp:2288-2297 | after an update of the right-hand side a restored point solves the new system iff the records are current for it |
| `RhsRestore.MovedPivotFails` | cpp/src/dual_simplex/presolve.cpp:2292-2296 | where records are current, moving the first pivot row's right-hand side makes restoring fail at every point of the kept rows |
| `RhsRestore.StaleUpdate` | cpp/src/dual_simplex/presolve.cpp:2292-2296 | an update that is accepted and restores the old point: one row, for every old and new value |
| `RhsRestore.StoredRow` | cpp/src/dual_simplex/presolve.cpp:493-502 | the stored coefficient, columns and coefficients give the pivot row at every point |
| `RhsRestore.RestorePoint` | cpp/src/dual_simplex/presolve.cpp:2288-2297 | the reverse substitution loop computes the restored point in place |
| `RhsReplay.UnpivotedRejected` | cpp/src/barrier/barrier_transform.hpp:219-224 | a variable eliminated without a row makes every right-hand-side update invalid |
| `RhsReplay.SubstituteRows` | cpp/src/barrier/barrier_transform.hpp:210-250 | the loops compute the replay, or refuse as prescribed |
| `RhsUpdate.SuccessRight` | cpp/src/barrier/barrier_transform.hpp:385-421 | a successful update: a point satisfies the scaled kept rows with the crushed values iff it extends to a solution of all rows with the new ones |
| `RhsUpdate.InfeasibleRight` | cpp/src/barrier/barrier_transform.hpp:391-398 | an update called infeasible leaves no point that satisfies the rows |
| `RhsUpdate.UpdateVerdict` | cpp/src/barrier/barrier_transform.hpp:339-421 | on a consistent cache: invalid exactly when a size is wrong, the cache takes no updates or a recorded head has no row left that keeps it nonnegative; else infeasible exactly when an empty row has a nonzero value; else a success |
| `RhsUpdate.SuccessKeepsMeaning` | cpp/src/barrier/barrier_transform.hpp:358-383 | a successful update alone: the cached expansion with the new values means what the quadratic constraints with the new values mean |
| `RhsUpdate.SuccessKeepsHeads` | cpp/src/barrier/barrier_transform.hpp:369-383 | a successful update alone: every recorded head is nonnegative wherever the new rows and bounds hold |
| `RhsUpdate.CrushNewRhs` | cpp/src/barrier/barrier_transform.hpp:333-423 | the loops compute the status and the crushed values; `RhsUpdate.UpdateVerdict` says when which |
| `RhsUpdate.RecheckHeads` | cpp/src/barrier/barrier_transform.hpp:369-383 | the recheck loop decides whether every recorded head is still bounded below by 0 |
| `Givens.NormSplits` | cpp/src/barrier/iterative_refinement.hpp:338-358 | for every y the squared residual is that of the triangular part plus the square of the last rotated entry |
| `Givens.Triangular` | cpp/src/barrier/iterative_refinement.hpp:338-351 | the rotations make every column upper triangular with positive diagonal |
| `Givens.TurnNorm` | cpp/src/barrier/iterative_refinement.hpp:338-356 | applying the rotations keeps the norm of every vector |
| `Givens.LeastSquares` | cpp/src/barrier/iterative_refinement.hpp:367-382 | a solution of the triangular system minimises the residual, whose norm is the last rotated entry |
| `Givens.ResidualShrinks` | cpp/src/barrier/iterative_refinement.hpp:353-358 | the reported residual never increases |
| `Givens.RotateColumn` | cpp/src/barrier/iterative_refinement.hpp:318-356 | one column loaded, rotated by the earlier rotations and by its own, in place |
| `Givens.Factor` | cpp/src/barrier/iterative_refinement.hpp:286-365 | the column loop leaves the rotations, the rotated right-hand side and the triangular columns, and stops at the first column whose residual is within the tolerance, or when columns run out |
| `Givens.BackSubstitute` | cpp/src/barrier/iterative_refinement.hpp:367-382 | with nonzero diagonal every row of the triangular system is closed; at a zero diagonal the rows below are closed and the entries up from it are 0 |
| `Givens.SolveCycle` | cpp/src/barrier/iterative_refinement.hpp:276-382 | one cycle returns a least-squares minimiser whatever the workspace held before, for the first number of columns whose residual is within the tolerance |
| `RowCheck.Enclosed` | benchmarks/linear_programming/cuopt/initial_problem_check.hpp:26-44 | the computed error interval holds the exact activity with room for the rounding of its end points, when (nnz + 1) u is at most 1/64 |
| `RowCheck.VerdictRight` | benchmarks/linear_programming/cuopt/initial_problem_check.hpp:105-138 | the verdict reports zero excess exactly when the exact activity is within the limits |
| `RowCheck.VerdictSays` | benchmarks/linear_programming/cuopt/initial_problem_check.hpp:105-138 | a row is escalated exactly when its error interval reaches a limit from both sides; a violation is reported on the side of the exact activity, with the rounded distance of the activity measured |
| `RowCheck.RowSum` | benchmarks/linear_programming/cuopt/initial_problem_check.hpp:26-44 | the accumulation loop and its error bound enclose the exact activity |
| `RowCheck.CheckRow` | benchmarks/linear_programming/cuopt/initial_problem_check.hpp:105-138 | under the solver's limits, the bounds widened by the absolute tolerance plus the relative one times the larger finite bound, the verdict is right |
| `RowCheck.ExcessZero` | benchmarks/linear_programming/cuopt/initial_problem_check.hpp:119-124 | the excess is 0 exactly when its activity is within the limits |

## Left out

- SearchTheorem.ReportedBoundValid: exact reals; feasibility of LP answers is taken without residual, integrality within `integer_tol`.
- ConeTheorem.MeaningPreserved: assumes that no coefficient falls inside the classification tolerance without being exactly there (`Separated`), exact square roots, and the factorisation contract.
- ConeObjective.QuadraticPreserved: the rewriting is modelled for a nonempty objective; the source skips an empty one.
- BarrierTransform.CrushIsAdjoint: removed values and lower-bound shifts enter as a constant of the objective; folding is not modelled, and the source refuses such caches for right-hand-side updates.
- RowCheck.VerdictRight: the wide sum of an escalated row is taken as exact; overflow, underflow and NaN are not modelled, nor are the positive activity, which the solver's limits ignore, and the excess over the untoleranced bounds.
- Givens.SolveCycle: the Arnoldi columns are inputs with a positive subdiagonal; breakdown and NaN exits only shorten the list of columns.
- RhsRestore.RestoreCorrect: primal values only; the duals restored in the same loop, and entries dropped below a rounding threshold during elimination, are not modelled.
- Destructor.FreeSubtree: unique ownership of nodes is modelled by tree values, not by a heap of pointers.
- ClosingProtocol.RunInv: memory orders below acquire-release are not modelled; each atomic operation is one step.
- Index-range, length and row-type validation of quadratic constraints is taken as well-formedness of the input (`ConeModel.Wf`); variable types and the checks that cone members are continuous are left out, which only enlarges the set of accepted problems.
- The objective lattice is a contract: every feasible objective lies on it; how the step is found is not modelled.
- The order of terms inside an appended row (the source sorts them) and column and row names.
- The `head1_is_constant_half` lift, which nothing enables.
- SearchKeys.SyncDeterministic: diving workers are an input; that their solutions carry distinct (worker, sequence number) pairs is a precondition.
- Dives, primal heuristics, pseudo-costs and bound strengthening appear as contracts; the diving heap and the assignment of dives are not modelled.
- The unexplored-node counter, statistics, logging and reporting.
- Nodes are never removed in `SearchModel`; freeing is the subject of `ClosingProtocol`. Node addresses are unique numbers, so reuse of an address behind `last_solved_node` is not modelled.
- The heap behind a backlog is a sequence searched for its top; sorting by the standard library is a contract (a sorted permutation).
- Clocks: the work of a node, the horizon step and whether a callback is over budget are inputs. Event and solution sequence numbers are unbounded.
- Opportunistic worker pools, node stealing and sub-MIPs beyond the two local stacks.
- Device vectors, sparse-library wrappers, streams and the orthogonalisation kernel.
- Dual simplex, crossover, cuts, symmetry, presolve other than the recorded eliminations, and the factorisation itself.
