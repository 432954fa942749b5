# Verified core of FShell2

FShell2 generates test suites for C programs from coverage queries. This project models the parts of
it that decide whether a test exists and which tests cover which goals, and proves them correct.

- **The SAT solver** (`Solver.dfy`, with `Trail`, `Watches`, `Propagation`, `Analysis`, `Implication`,
  `Database`, `SearchState`, `Heap`, `Restarts`): MiniSat's conflict-driven search as a class whose
  methods change trail, watch lists, marks and clause memory in place. A ghost field records every
  clause ever added; all answers are stated about it.
- **The simplifier** (`SimpSolver.dfy`, with `Elimination`, `Subsumption`, `ClauseSet`): variable
  elimination, backward subsumption and model reconstruction from the packed stack. `Preprocessing.dfy`
  joins it with the solver.
- **The query pipeline**: `Nfa.dfy` and `TraceAutomaton.dfy` (simplification of automata),
  `Pattern.dfy` (coverage patterns to automata), `Booleans.dfy`, `Unrolling.dfy` and `Encoder.dfy`
  (automata to constraints over program steps), `Path.dfy` (events to steps), `Query.dfy` (the whole
  way), `GoalIds.dfy`, `KnownSat.dfy` and `GoalScan.dfy` (which goal a run satisfies).
- **Test-suite generation** (`Generation.dfy`): the loop over solver answers with blocking clauses,
  using the solver class itself.

`Cnf.dfy` holds the shared vocabulary: literals, clauses, valuations, implication. `Basics.dfy` has
shared arithmetic, `Solving.dfy` what callers of the solver share.

The main results are `Solvers.Solver.Solve` and `SolveAll`, `Preprocessing.SolveSimplified`,
`Queries.DoQuery`, `GoalScan.SatisfiedGoal` and `Generation.Generate`. Loops over sets in the original
run in a fixed order; here the order is arbitrary, so the results hold for every order. Random and
activity-based choices are arbitrary choices as well.

Reading notes:

- Termination of the search: conflicts strictly increase a weighted count of literals per level, so no
  search has more than `MaxConflicts` conflicts; the restart schedule exceeds this bound.
- A solver state is always reached through the constructor, `NewVar`, `AddClause` and `Solve`; `Valid`
  is the invariant of all of them. The same holds for `SimpSolver`.
- Assumed: the edges of an automaton form a set of triples of source, label and destination. The
  automaton library is not part of this model.
- The code loses the empty word of the left operand of an alternative when the right operand does not
  have it: compiling the right operand makes the common start states non-final, while they stay
  recorded as test-goal states (`evaluate_coverage_pattern.cpp:133-136` and `:169-186`). The model
  follows the code. `AsBuilt` is the language that results, `KeepsAll` the exact condition under which
  no reachable recorded state is left without being final, and `EmptyWordLost` an input. Patterns
  whose atoms reject the empty word are never affected (`PlainPattern`).
- An atom of two states and one edge must not accept the empty word: the code asserts this
  (`evaluate_coverage_pattern.cpp:122`). Every atom has one initial state and some word.
- The comment on `Clause::subsumes` says that the returned literal can be deleted from the other clause;
  the code returns the literal of the first clause, whose negation can be deleted. The model follows the
  code.
- `make_id_map` gives no identifier at all when there is no group, where a product would have one.

## Model

| member | source | states |
|---|---|---|
| `Solvers.Solver.Solve` | minisat-2.2.0/core/Solver.cc:751-793 | For every reachable state and all assumptions: true gives a model with values for all decision variables, and when every variable of the added clauses may be decided each valuation it describes satisfies every clause ever added and the assumptions; false with an empty conflict means the added clauses are unsatisfiable; false with a conflict gives an implied clause of negated assumptions: a true literal of the last trail, and otherwise only negations of decisions on which that literal depends, traced from reason to reason. Without a budget the answer is never undefined. |
| `Solvers.Solver.SolveAll` | minisat-2.2.0/core/Solver.cc:751-793 | With either restart schedule and no budget, when every variable of the added clauses may be decided, satisfiable is answered exactly when some valuation satisfies the added clauses and the assumptions. |
| `Solvers.Solver.Search` | minisat-2.2.0/core/Solver.cc:614-705 | Terminates for every conflict bound; gives up only after that many conflicts, and only if the bound is at most the proved maximal number of conflicts; true leaves a propagated assignment of all decision variables with all assumptions true, false a refutation. |
| `Solvers.Solver.Propagate` | minisat-2.2.0/core/Solver.cc:449-508 | With no conflict the level-aware watch invariant holds for the whole trail; a conflict is a live clause whose literals are all false; clause contents are only reordered and every new assignment has a reason. |
| `Solvers.Solver.PropagateWatcher` | minisat-2.2.0/core/Solver.cc:461-501 | One watch-list entry: blocker, true first literal, new watch, unit or conflict, each keeping the invariant for the entries already passed. |
| `Solvers.Solver.PropagateClause` | minisat-2.2.0/core/Solver.cc:476-498 | The clause part of an entry: after it the entry is covered, moved away, or the returned clause is false; the remaining list shrinks. |
| `Solvers.Solver.FindWatch` | minisat-2.2.0/core/Solver.cc:482-487 | The first literal after the watches that is not false, or the end when all are false. |
| `Solvers.Solver.CleanAll` | minisat-2.2.0/core/SolverTypes.h:289-309 | Entries of deleted clauses leave the watch lists without touching the invariant. |
| `Solvers.Solver.UncheckedEnqueue` | minisat-2.2.0/core/Solver.cc:429-435 | Value, level, reason and trail position of the new literal; nothing else changes. |
| `Solvers.Solver.Analyze` | minisat-2.2.0/core/Solver.cc:264-356 | For every conflict above level 0: the learnt clause is implied by the added clauses, false on the trail, has exactly one literal of the conflict level, that literal is the first unique implication point, its second literal has the returned level, no later literal can be dropped because of the others by the chosen minimisation, and every mark is cleared. |
| `Solvers.Solver.FindUip` | minisat-2.2.0/core/Solver.cc:268-302 | Resolving backwards along the trail ends with an implied clause at the first unique implication point: every way back from the conflict to the decision passes it, and none nearer to the conflict has this property. |
| `Solvers.Solver.MarkClause` | minisat-2.2.0/core/Solver.cc:281-292 | Marking a reason counts the pending literals of the current level, collects the others once each, and raises the activity of just the newly marked variables. |
| `Solvers.Solver.Minimize` | minisat-2.2.0/core/Solver.cc:304-335 | The kept literals with the asserting one still form an implied clause, and exactly the right ones are kept: in the deep mode those that depend on a decision by a chain of reasons that avoids the other literals of the clause, in the basic mode those whose reason the others do not cover, in the third mode all. |
| `Solvers.Solver.LitRedundant` | minisat-2.2.0/core/Solver.cc:361-387 | Redundant exactly if no chain of reasons leads from the literal to a decision through unmarked literals only; neither the hash of levels nor the marks left by earlier checks change the answer. On success every new mark is closed; on failure marks and clear list are as before. |
| `Solvers.Solver.ScanReason` | minisat-2.2.0/core/Solver.cc:369-383 | One reason in the deep check: its open literals are marked and stacked, or the marks made since the start are undone because some chain of reasons leads to a decision through unmarked literals. |
| `Solvers.Solver.FindBacktrack` | minisat-2.2.0/core/Solver.cc:338-353 | The literal of the highest other level comes second and its level is returned. |
| `Solvers.Solver.CancelUntil` | minisat-2.2.0/core/Solver.cc:207-218 | Below the current level the trail becomes its prefix at that level with the same values, levels and reasons, the signs of the undone literals are remembered as the phase-saving mode says, and the whole solver invariant holds there, including the watch invariant and the decision heap; at or above it nothing changes. |
| `Solvers.Solver.PickBranchLit` | minisat-2.2.0/core/Solver.cc:225-244 | A literal of an unassigned decision variable, or none only when every decision variable is assigned. |
| `Solvers.Solver.AnalyzeFinal` | minisat-2.2.0/core/Solver.cc:399-426 | The literal itself, followed by negations of decisions on which it depends, each linked to it by a chain of reasons; all are negated assumptions, the added clauses imply the clause, and all marks are clear afterwards. |
| `Solvers.Solver.NextAssumption` | minisat-2.2.0/core/Solver.cc:674-688 | The next unassigned assumption, a dummy level for a true one, or for a false one a final conflict that names only assumptions on which its falsity depends. |
| `Solvers.Solver.HandleConflict` | minisat-2.2.0/core/Solver.cc:631-641 | The learnt clause is implied and asserts the first unique implication point; after the backjump it is unit, then attached, listed and its literal enqueued with it as reason; all invariants hold and the termination measure has grown. |
| `Solvers.Solver.Decide` | minisat-2.2.0/core/Solver.cc:700-702 | A new level with the decided literal keeps every invariant. |
| `Solvers.Solver.AddClause` | minisat-2.2.0/core/Solver.cc:132-159 | Adds exactly this clause to the recorded formula and keeps the solver invariant; false is returned exactly when the solver is refuted. |
| `Solvers.Solver.FilterClause` | minisat-2.2.0/core/Solver.cc:139-145 | Detects root-satisfied and tautological clauses and drops false and duplicate literals from the sorted clause. |
| `Solvers.Solver.SortLits` | minisat-2.2.0/core/Solver.cc:138 | Sorted by packed form and a permutation of the input. |
| `Solvers.Solver.NewVar` | minisat-2.2.0/core/Solver.cc:114-129 | A new unassigned variable at the next index with the given preferred sign and eligibility, in a refuted solver too; every invariant is kept. |
| `Solvers.Solver.RemoveClause` | minisat-2.2.0/core/Solver.cc:188-195 | A live unlocked or satisfied clause leaves the database without breaking reasons or watches. |
| `Solvers.Solver.RemoveSatisfied` | minisat-2.2.0/core/Solver.cc:545-556 | Exactly the clauses with a true literal at the root are deleted and taken from the list, and the models of the added clauses are unchanged. |
| `Solvers.Solver.ReduceDB` | minisat-2.2.0/core/Solver.cc:525-542 | Of the learnt clauses exactly the chosen ones that are long and not locked are deleted; the solver invariant is kept. |
| `Solvers.Solver.RebuildOrderHeap` | minisat-2.2.0/core/Solver.cc:559-566 | Afterwards the heap holds exactly the unassigned decision variables. |
| `Solvers.Solver.Simplify` | minisat-2.2.0/core/Solver.cc:577-599 | False exactly for a refuted solver, which stays refuted; otherwise all invariants hold at the root, and when the removal is due no listed clause has a true literal left and the heap holds exactly the unassigned decision variables. |
| `Solvers.Solver.constructor` | minisat-2.2.0/core/Solver.cc:51-99 | The empty solver satisfies the invariant. |
| `Watches.PropagationComplete` | minisat-2.2.0/core/Solver.cc:449-508 | When everything is propagated, every live clause has a true literal or two watched literals that are not false. |
| `Watches.WatchCut` | minisat-2.2.0/core/Solver.cc:207-218 | The watch invariant survives a jump back to any level. |
| `Watches.AttachInv` | minisat-2.2.0/core/Solver.cc:162-168 | The watch invariant survives attaching a clause that is covered where a watch is false. |
| `Watches.MoveShape` | minisat-2.2.0/core/Solver.cc:482-487 | Moving a watch keeps every clause watched by exactly its first two literals. |
| `Analysis.Resolve` | minisat-2.2.0/core/Solver.cc:268-302 | Resolving with the reason of the last pending literal keeps the implied disjunction. |
| `Analysis.UipClause` | minisat-2.2.0/core/Solver.cc:302 | With one pending literal left, its negation and the collected tail form an implied clause. |
| `Analysis.MarkedTrue` | minisat-2.2.0/core/Solver.cc:361-387 | By induction on the trail order: in a model where no kept literal is true, every marked variable has its trail value. |
| `Analysis.MinimizeSound` | minisat-2.2.0/core/Solver.cc:304-335 | Dropping all closed literals at once keeps the clause implied although the marks are shared. |
| `Implication.GivesUp` | minisat-2.2.0/core/Solver.cc:374-383 | Aborting is right: an unmarked literal without a reason, or one whose hashed level no marked literal has, leads to a decision through unmarked literals. |
| `Implication.NoEscape` | minisat-2.2.0/core/Solver.cc:361-387 | From a literal whose check succeeded no chain of reasons leads to a decision through literals that were unmarked before. |
| `Implication.EscapesSame` | minisat-2.2.0/core/Solver.cc:312-314 | Marks left by successful checks do not change which literals are redundant, so the order of the checks does not matter. |
| `Implication.MinimalLearnt` | minisat-2.2.0/core/Solver.cc:304-335 | After the minimisation no literal can be dropped because of those that are left. |
| `Implication.ExploreStep` | minisat-2.2.0/core/Solver.cc:268-300 | Resolving on a literal that is no implication point keeps that exactly the waiting literals border on the explored part of the implication graph. |
| `Implication.ExploreEnd` | minisat-2.2.0/core/Solver.cc:295-302 | The last waiting literal is the first unique implication point of the conflict level. |
| `Database.LearntUnit` | minisat-2.2.0/core/Solver.cc:631-641 | After the backjump the first literal of the learnt clause is unassigned and the others are false. |
| `Database.LearnStep` | minisat-2.2.0/core/Solver.cc:631-641 | Attaching the learnt clause and enqueueing its literal keeps trail, reasons, watches and soundness. |
| `Database.ModelFound` | minisat-2.2.0/core/Solver.cc:784-787 | A propagated assignment of all variables satisfies every clause ever added, although only the reduced clauses are stored. |
| `Database.RootConflict` | minisat-2.2.0/core/Solver.cc:627 | An implied clause that is false at the root refutes the formula. |
| `Database.ConflictRefutes` | minisat-2.2.0/core/Solver.cc:674-688 | A conflict made of negated assumptions refutes the formula under the assumptions. |
| `SearchState.WeightJump` | minisat-2.2.0/core/Solver.cc:614-705 | A backjump with one new literal at the lower level strictly increases the weighted level counts, whatever it undoes. |
| `SearchState.JumpKeeps` | minisat-2.2.0/core/Solver.cc:631-641 | Assumption levels and level use survive the jump and the measure has grown. |
| `SearchState.FinalDone` | minisat-2.2.0/core/Solver.cc:399-426 | The collected clause of the final analysis is implied and the marks are clear. |
| `Implication.TraceMark` | minisat-2.2.0/core/Solver.cc:413-418 | Marking a literal of the reason of a traced literal keeps that every mark belongs to a literal on which the analysed one depends. |
| `Implication.CauseAdded` | minisat-2.2.0/core/Solver.cc:410-413 | A marked decision is one on which the analysed literal depends. |
| `Cnf.PackedLiterals` | minisat-2.2.0/core/SolverTypes.h:58-67 | Packing literals is a bijection, negation flips the lowest bit, and complementary literals are neighbours in the order. |
| `Restarts.Luby` | minisat-2.2.0/core/Solver.cc:734-748 | The two loops terminate and compute the factor to the exponent that the recursive definition of the sequence gives. |
| `Restarts.LastPlace` | minisat-2.2.0/core/Solver.cc:721-731 | The last place of a block of 2^k - 1 places holds k - 1. |
| `Restarts.HalfBlock` | minisat-2.2.0/core/Solver.cc:741-745 | Each half of a block repeats the smaller block. |
| `Restarts.ScheduleUnbounded` | minisat-2.2.0/core/Solver.cc:771-778 | The Luby schedule and the geometric one exceed every bound, so some restart is allowed enough conflicts to finish. |
| `Heaps.Heap.PercolateUp` | minisat-2.2.0/mtl/Heap.h:44-57 | Restores heap order along the path to the root and keeps `indices` the exact inverse. |
| `Heaps.Heap.PercolateDown` | minisat-2.2.0/mtl/Heap.h:60-73 | Restores heap order below the position and keeps `indices` the exact inverse. |
| `Heaps.Heap.Insert` | minisat-2.2.0/mtl/Heap.h:99-107 | Adds exactly the element; order and inverse are kept for any strict weak order. |
| `Heaps.Heap.RemoveMin` | minisat-2.2.0/mtl/Heap.h:110-119 | Removes and returns an element that no other precedes. |
| `Heaps.Heap.Decrease` | minisat-2.2.0/mtl/Heap.h:84 | After the order moved one element towards the root, order and inverse are restored. |
| `Heaps.Heap.Update` | minisat-2.2.0/mtl/Heap.h:89-96 | After any change of the order at one element it is inserted or moved, and order and inverse hold. |
| `Heaps.Heap.Build` | minisat-2.2.0/mtl/Heap.h:123-134 | The heap holds exactly the given elements, ordered. |
| `Heaps.RootLeast` | minisat-2.2.0/mtl/Heap.h:110-119 | The root of an ordered heap is a least element. |
| `SimpSolvers.SimpSolver.AddClause` | minisat-2.2.0/simp/SimpSolver.cc:135-172 | Adds exactly this clause to the recorded originals; the stored clauses and units still have the same models up to reconstruction, or the originals are unsatisfiable. A stored clause is queued and its variables are touched; after a new unit no live clause is unit or falsified. |
| `SimpSolvers.SimpSolver.PropagateUnits` | minisat-2.2.0/core/Solver.cc:449-508 | Propagation to the end at the root: the models stay the same, and no live clause is unit or falsified, or there are no models. |
| `SimpSolvers.SimpSolver.StrengthenClause` | minisat-2.2.0/simp/SimpSolver.cc:190-213 | Deleting the literal keeps the models of clauses and units, also when a binary clause becomes a unit, which is propagated to the end; false means they have none. The changed clause is queued again, and the variable that lost an occurrence enters the heap if it is open. |
| `SimpSolvers.SimpSolver.BackwardSubsumptionCheck` | minisat-2.2.0/simp/SimpSolver.cc:326-390 | Every removal and strengthening keeps the models of clauses and units, deletes clauses and literals only, leaves clauses as long as the limit alone, and puts every open variable that lost an occurrence into the heap; terminates, also when interrupted, with an empty queue and the unit counter at its end. Uninterrupted it saturates: no queued or changed live clause and no new unit subsumes or strengthens another live clause within the limit. False means there are no models. |
| `SimpSolvers.SimpSolver.TryCandidates` | minisat-2.2.0/simp/SimpSolver.cc:364-385 | The candidates of one clause are removed or strengthened without changing the models; afterwards the clause subsumes or strengthens no live clause that was not changed meanwhile, and changed clauses are queued. |
| `SimpSolvers.SimpSolver.Lookup` | minisat-2.2.0/core/SolverTypes.h:269-309 | A cleaned occurrence list holds exactly the live clauses with the variable, once each. |
| `SimpSolvers.SimpSolver.EliminateVar` | minisat-2.2.0/simp/SimpSolver.cc:470-528 | The invariant relating originals, remainder and reconstruction stack is kept; the variable is eliminated exactly when the resolvents are few and short enough, and otherwise nothing changes; in every case at most cls.size() + grow clauses are stored, none of them longer than the limit. The resolvents are queued with their variables touched and subsumption saturates with them, and open variables that lost an occurrence are in the heap. |
| `SimpSolvers.SimpSolver.Eliminate` | minisat-2.2.0/simp/SimpSolver.cc:580-634 | The main loop, with the original's guard, terminates whenever it is interrupted, keeps the invariant, eliminates no frozen variable, and unless the problem is refuted leaves nothing touched, no unit untried and the heap empty. Without interrupts its whole history is a chain of subsumption rounds and of tries, each of which takes a variable from the heap and eliminates it exactly if it is open and that is worthwhile; if nothing was eliminated, no variable that was in the heap may be eliminated with profit. |
| `SimpSolvers.SimpSolver.GatherTouched` | minisat-2.2.0/simp/SimpSolver.cc:277-302 | Queues exactly the live clauses with a touched variable beside those already queued; no variable is touched afterwards. |
| `SimpSolvers.SimpSolver.EliminateAll` | minisat-2.2.0/simp/SimpSolver.cc:606-630 | Empties the heap by tries alone unless interrupted, each eliminating its variable exactly if it is open and that is worthwhile; if nothing is eliminated the heap has become smaller, nothing waits for subsumption, and no variable that was in it may be eliminated with profit. |
| `SimpSolvers.SimpSolver.SettleClauses` | minisat-2.2.0/simp/SimpSolver.cc:589-595 | Gathering and subsuming between eliminations: unless interrupted, every live clause that was queued, has changed or has a touched variable subsumes and strengthens no other one within the limit. |
| `SimpSolvers.HeapTried` | minisat-2.2.0/simp/SimpSolver.cc:606-630 | In an uninterrupted history every variable that was in the heap at the start has been tried when the heap is empty. |
| `SimpSolvers.NothingWorth` | minisat-2.2.0/simp/SimpSolver.cc:606-630 | If tries eliminate nothing, no variable that left the heap may be eliminated with profit, then or at the end. |
| `SimpSolvers.SimpSolver.UpdateElimHeap` | minisat-2.2.0/simp/SimpSolver.h:170-174 | A variable whose occurrences changed enters the heap exactly if it is neither frozen nor eliminated nor assigned; nothing leaves it. |
| `SimpSolvers.SimpSolver.WithinLimits` | minisat-2.2.0/simp/SimpSolver.cc:483-493 | Accepts exactly when the counting form finds no more resolvents than allowed and none over the size limit. |
| `SimpSolvers.SimpSolver.ProduceResolvents` | minisat-2.2.0/simp/SimpSolver.cc:513-518 | The stored constraints gain exactly the meaning of all resolvents. |
| `SimpSolvers.SimpSolver.MkElimClause` | minisat-2.2.0/simp/SimpSolver.cc:444-466 | Pushes the packed clause with the eliminated variable first and the length last. |
| `SimpSolvers.SimpSolver.ExtendModel` | minisat-2.2.0/simp/SimpSolver.cc:563-577 | A model of the remainder without values for eliminated variables becomes a total model, unchanged elsewhere, of every clause ever added. |
| `SimpSolvers.SimpSolver.ReadStack` | minisat-2.2.0/simp/SimpSolver.cc:563-577 | Reading the packed stack from the top is the recursive reconstruction. |
| `SimpSolvers.SimpSolver.NewVar` | minisat-2.2.0/simp/SimpSolver.cc:76-88 | A new variable that is not eliminated, in a refuted solver too; the invariant is kept. |
| `ClauseSet.Equisatisfiable` | minisat-2.2.0/simp/SimpSolver.cc:470-528 | After any sequence of steps the remainder is satisfiable exactly when the added clauses are. |
| `ClauseSet.EliminatePreserves` | minisat-2.2.0/simp/SimpSolver.cc:470-528 | Replacing the clauses of a variable by their resolvents and storing the smaller side keeps both directions of the relation to the originals. |
| `ClauseSet.DropSubsumed` | minisat-2.2.0/simp/SimpSolver.cc:374-375 | Removing a subsumed clause keeps the models. |
| `ClauseSet.StrengthenEquiv` | minisat-2.2.0/simp/SimpSolver.cc:376-380 | Self-subsuming resolution keeps the models. |
| `Elimination.SidesSatisfied` | minisat-2.2.0/simp/SimpSolver.cc:563-577 | Repairing the stored side satisfies it, and the other side follows from the resolvents. |
| `Elimination.ExtendPackedAll` | minisat-2.2.0/simp/SimpSolver.cc:437-466 | The packed stack is read back as the stored clauses in reverse order. |
| `Elimination.ExtendKeeps` | minisat-2.2.0/simp/SimpSolver.cc:563-577 | Reconstruction changes eliminated variables only. |
| `Elimination.ResolventImplied` | minisat-2.2.0/simp/SimpSolver.cc:513-518 | A model of both parents satisfies the resolvent; every elimination rests on this. |
| `Subsumption.Merge` | minisat-2.2.0/simp/SimpSolver.cc:217-244 | False exactly for tautological resolvents; otherwise the result has exactly the literals of both parents without the variable, once each, so its length is the size of their set. |
| `Subsumption.MergeSize` | minisat-2.2.0/simp/SimpSolver.cc:248-274 | The counting form gives the same answer and, as the size of the same set, the length of the clause that the building form returns. |
| `Subsumption.Subsumes` | minisat-2.2.0/core/SolverTypes.h:367-396 | Subsumption exactly for C within D, a literal exactly when C with it flipped lies within D, otherwise neither; the size and 32-bit signature filters never change the answer. |
| `Subsumption.SignatureFilter` | minisat-2.2.0/core/SolverTypes.h:154-159 | A clause whose variables all occur in the other passes the signature test. |
| `Preprocessing.SolveSimplified` | minisat-2.2.0/simp/SimpSolver.cc:93-131 | Freezing the assumptions, elimination, a core solver that does not decide eliminated variables, reconstruction and unfreezing together answer exactly for the added clauses under the assumptions, with a total model of all of them; a refuted solver gives false. What remains is the result of a whole elimination with the assumptions frozen; afterwards the frozen variables are as before and just the unfrozen ones wait for elimination. |
| `TraceAutomata.TraceAutomaton.Simplify` | fshell2/fql/concepts/trace_automaton.cpp:120-237 | For every automaton, also with epsilon cycles and loops: same language, no epsilon edge, no dead state; with renumbering the result is a renamed simplification. |
| `TraceAutomata.TraceAutomaton.RemoveEpsilon` | fshell2/fql/concepts/trace_automaton.cpp:129-153 | Every run has a counterpart that stops at most some epsilon edges early, runs that do not end with an epsilon edge end in exactly the same states before and after, and no epsilon edge is left. |
| `TraceAutomata.TraceAutomaton.BypassState` | fshell2/fql/concepts/trace_automaton.cpp:130-152 | All epsilon edges into one state are bypassed and no state without such edges gains one. |
| `TraceAutomata.TraceAutomaton.RemoveDead` | fshell2/fql/concepts/trace_automaton.cpp:156-193 | The worklist takes at most as many rounds as there are states and edges, removes only useless states, and leaves no removable state. |
| `TraceAutomata.TraceAutomaton.CheckState` | fshell2/fql/concepts/trace_automaton.cpp:161-192 | One queued state: each new queue entry is paid for by a deleted edge, and every state that became dead is queued. |
| `TraceAutomata.TraceAutomaton.CopyFrom` | fshell2/fql/concepts/trace_automaton.cpp:90-118 | Adds an injectively renamed copy on new states and returns the names of its initial and final states. |
| `TraceAutomata.CompactStateNumbers` | fshell2/fql/concepts/trace_automaton.cpp:239-249 | Numbers states and their inverse from 0 without gaps, with exactly the final numbers. |
| `TraceAutomata.CopyLanguage` | fshell2/fql/concepts/trace_automaton.cpp:212-230 | Renaming states keeps the language. |
| `Nfas.BypassSimulates` | fshell2/fql/concepts/trace_automaton.cpp:134-149 | Bypassing one epsilon edge keeps all runs up to trailing epsilon edges, and exactly those that do not end with one, for any automaton. |
| `Nfas.DropTrims` | fshell2/fql/concepts/trace_automaton.cpp:166-192 | Removing a dead state keeps every set of states that enters and leaves itself. |
| `Nfas.SameLanguage` | fshell2/fql/concepts/trace_automaton.cpp:120-193 | The two phases together preserve the accepted language. |
| `Patterns.Evaluator.DoQuery` | fshell2/fql/evaluation/evaluate_coverage_pattern.cpp:89-108 | For every pattern, quoted parts included: the words of the pattern are exactly those that lead to the recorded states, the accepted words are exactly those of the pattern as built, and some reachable recorded state is not final exactly when the pattern does not keep all. For exact patterns, among them all whose atoms reject the empty word, the recorded states are the final states; for the latter the automaton has the pattern's language. The goal tree has the shape of the pattern: each part has the states where its own words end, both operands of an alternative starting where it does, the second operand of a concatenation where the first one ends. |
| `Patterns.Evaluator.Visit` | fshell2/fql/evaluation/evaluate_coverage_pattern.cpp:169-202 | Compiling a part leaves all old states and the words leading to them alone, ends in new states exactly with old words followed by words of the part that are not empty, and in the states where it starts exactly if it has the empty word; which of these are final is stated in the same way. The goal tree of the part has its shape, operand by operand. |
| `Patterns.ShapedLater` | fshell2/fql/evaluation/evaluate_coverage_pattern.cpp:169-202 | Later compilations keep the shape of the goal trees made before. |
| `Patterns.Evaluator.CopyFromPathPattern` | fshell2/fql/evaluation/evaluate_coverage_pattern.cpp:110-167 | The same for one atom, in both the single-edge and the general form. |
| `Patterns.Evaluator.SingleEdge` | fshell2/fql/evaluation/evaluate_coverage_pattern.cpp:118-136 | An atom with two states and one edge is compiled by one new state and direct edges to it. |
| `Patterns.Evaluator.Attach` | fshell2/fql/evaluation/evaluate_coverage_pattern.cpp:138-166 | Copying, epsilon edges and simplification compile any other atom; no old state is lost. |
| `Patterns.SingleAtom` | fshell2/fql/evaluation/evaluate_coverage_pattern.cpp:116-130 | With two states and one edge, a suitable atom accepts exactly the one-letter word of that edge. |
| `Patterns.AttachedCompiled` | fshell2/fql/evaluation/evaluate_coverage_pattern.cpp:138-166 | Attaching and simplifying an atom compiles it, also when it accepts the empty word: then the states where it starts are final again. |
| `Patterns.CompiledAlternative` | fshell2/fql/evaluation/evaluate_coverage_pattern.cpp:169-186 | Two compilations from the same states compile the alternative; the second one takes back that the start states are final. |
| `Patterns.CompiledConcat` | fshell2/fql/evaluation/evaluate_coverage_pattern.cpp:188-202 | Two compilations in sequence compile the concatenation, also when one of them has the empty word. |
| `Patterns.QueryLanguage` | fshell2/fql/evaluation/evaluate_coverage_pattern.cpp:224-231 | Starting from one initial final state, the recorded states have the language of the pattern, the final ones that of the pattern as built, and they differ reachably exactly when the pattern does not keep all. |
| `Patterns.KeepsLanguage` | fshell2/fql/evaluation/evaluate_coverage_pattern.cpp:169-202 | When the empty word of each left operand is one of the right one wherever it can end the pattern, the automaton accepts the pattern's language. |
| `Patterns.PlainPattern` | fshell2/fql/evaluation/evaluate_coverage_pattern.cpp:169-202 | A pattern whose atoms all reject the empty word rejects it, is exact and keeps all. |
| `Patterns.EmptyWordLost` | fshell2/fql/evaluation/evaluate_coverage_pattern.cpp:169-186 | A concrete pattern, "any number of l" or l once, whose empty word is not accepted; with the operands exchanged nothing is lost. |
| `Patterns.IsTestGoalState` | fshell2/fql/evaluation/evaluate_coverage_pattern.cpp:63-72 | The recursive search finds exactly the states in the tree. |
| `Encoders.Build` | fshell2/fql/evaluation/compute_test_goals.cpp:661-788 | For every valuation of the program variables, the constraints have a solution exactly when the given constraints hold and the automaton accepts a word that the raw events of the path read. |
| `Paths.Steps` | fshell2/fql/evaluation/compute_test_goals.cpp:731-778 | The one-pass filter keeps exactly the events that count and do not repeat the first event of their run of one instruction. |
| `Paths.StepReads` | fshell2/fql/evaluation/compute_test_goals.cpp:790-834 | A step reads exactly the words that its event reads: node labels, then a label of the edge that is taken, where a goto jumps if the guard of the event behind is false or it is unconditional. |
| `Paths.PathWords` | fshell2/fql/evaluation/compute_test_goals.cpp:731-778 | By induction over the events: the steps of a path read exactly what its events read. |
| `Paths.UnconditionalReads` | fshell2/fql/evaluation/compute_test_goals.cpp:803-813 | An executed unconditional goto reads a label of its jump edge, and nothing else. |
| `Paths.ConditionalReads` | fshell2/fql/evaluation/compute_test_goals.cpp:803-813 | An executed conditional goto with both edges mapped reads a label of the jump edge if the guard of the event behind is false, and otherwise one of the other edge. |
| `Paths.HeadUnique` | fshell2/fql/evaluation/compute_test_goals.cpp:758-764 | A run of events of one instruction, with irrelevant ones between, has one first event. |
| `Paths.RunStarts` | fshell2/fql/evaluation/compute_test_goals.cpp:758-760 | An event of another instruction than the run before it starts a run and counts. |
| `Paths.RunGoesOn` | fshell2/fql/evaluation/compute_test_goals.cpp:761-764 | An event of the same instruction counts unless it repeats the first one of the run. |
| `Encoders.Encoder.DoStep` | fshell2/fql/evaluation/compute_test_goals.cpp:790-1045 | The reachable vector states after a step are exactly those reached by reading its node labels and the label of the taken edge. |
| `Encoders.Encoder.DoSteps` | fshell2/fql/evaluation/compute_test_goals.cpp:731-778 | By induction over the steps: the vector states are exactly those the path can have reached. |
| `Encoders.Encoder.EdgeStep` | fshell2/fql/evaluation/compute_test_goals.cpp:934-1043 | The new vector makes exactly an edge move; guards, skipping at instrumented locations and the equality case included. |
| `Encoders.Encoder.NodeRound` | fshell2/fql/evaluation/compute_test_goals.cpp:846-907 | The new vector stays or, at an executed location, makes one node transition. |
| `Encoders.Encoder.NodeRounds` | fshell2/fql/evaluation/compute_test_goals.cpp:818-909 | As many rounds as sources reach exactly the node closure. |
| `Encoders.CollectTrans` | fshell2/fql/evaluation/compute_test_goals.cpp:966-1023 | The collected literals hold exactly for transitions from the possibly reached states; pruning loses none, the reached set stays closed and has no state that is not reachable by them. |
| `Encoders.MakeEquals` | fshell2/fql/evaluation/compute_test_goals.cpp:647-659 | The cached literal compares this vector with this state's code. |
| `Encoders.Encoder.RequireFinal` | fshell2/fql/evaluation/compute_test_goals.cpp:780-787 | A solution remains exactly when the vector can end in a final state. |
| `Unrolling.EnoughRounds` | fshell2/fql/evaluation/compute_test_goals.cpp:818-909 | &#124;sources&#124; optional rounds reach what any number of node transitions reaches when the guard holds, and only the same state otherwise. |
| `Unrolling.ShortRun` | fshell2/fql/evaluation/compute_test_goals.cpp:827-846 | A node run can be cut to at most as many edges as there are sources. |
| `Unrolling.CompleteReads` | fshell2/fql/evaluation/compute_test_goals.cpp:962-1032 | When all outgoing edges are mapped, an executed step reads a label of the edge it takes. |
| `Unrolling.PassesUnread` | fshell2/fql/evaluation/compute_test_goals.cpp:1035-1038 | An executed, not instrumented step is passed without reading exactly when it is a goto with one mapped edge and the path takes the other. |
| `Unrolling.MoveStep` | fshell2/fql/evaluation/compute_test_goals.cpp:934-1043 | Constraints that describe a move change the set of reachable vector states by exactly that move. |
| `Booleans.Width` | fshell2/fql/evaluation/compute_test_goals.cpp:709-711 | Enough bits for every number up to the number of states, and no more than needed. |
| `Booleans.BitsDistinct` | fshell2/fql/evaluation/compute_test_goals.cpp:709-711 | Numbers below 2^width have different codes. |
| `Queries.DoQuery` | fshell2/fql/evaluation/compute_test_goals.cpp:565-629 | Pattern compilation, the filter and both unrollings together: a solution exists exactly when the events of the path read a word of the pattern as built and a word of the passing clause; for patterns that keep all, as built means the pattern itself. |
| `Queries.NoPathLost` | fshell2/fql/evaluation/compute_test_goals.cpp:565-629 | For a given pattern, no path that reads one of its words is missed exactly if the pattern as built has all its words; each word has a straight-line path that reads just it. |
| `Queries.EmptyPathLost` | fshell2/fql/evaluation/compute_test_goals.cpp:565-629 | A path that matches a pattern but is not found for it: the query misses it. |
| `GoalIds.MakeIdMap` | fshell2/fql/evaluation/compute_test_goals.cpp:197-244 | The list holds every choice of one goal per group at its mixed-radix number; skips are one less than the number of later choices; empty without groups or with an empty group. |
| `GoalIds.Advance` | fshell2/fql/evaluation/compute_test_goals.cpp:223-229 | The pointers move to the next number, or all stand at their ends after the last. |
| `GoalIds.NumberDigits` | fshell2/fql/evaluation/compute_test_goals.cpp:217-230 | Every choice has its own number below the product of the sizes. |
| `GoalIds.DigitsNumber` | fshell2/fql/evaluation/compute_test_goals.cpp:217-230 | Every number below the product of the sizes is the number of a choice. |
| `GoalIds.LexicographicOrder` | fshell2/fql/evaluation/compute_test_goals.cpp:217-230 | The order of the list is the lexicographic order of the choices. |
| `GoalIds.MakeSkips` | fshell2/fql/evaluation/compute_test_goals.cpp:232-243 | skips[k] + 1 is the product of the later group sizes. |
| `GoalScan.Scan` | fshell2/fql/evaluation/compute_test_goals.cpp:1334-1350 | The skipping scan finds the first identifier whose goals are all known, as a full scan would, and never runs past the end. |
| `GoalScan.SkipBlock` | fshell2/fql/evaluation/compute_test_goals.cpp:1345-1349 | All skipped identifiers lack the missing goal, and the block ends within the list. |
| `GoalScan.SatisfiedGoal` | fshell2/fql/evaluation/compute_test_goals.cpp:1295-1350 | The least closed set exists, and closure and scan together find the first identifier whose goals lie in it. |
| `KnownSats.KnownSat.Insert` | fshell2/fql/evaluation/compute_test_goals.cpp:1137-1160 | The bitmap grows at either end and represents exactly the old set with the literal; true exactly when it is a new variable; constants change nothing. |
| `KnownSats.KnownSat.Has` | fshell2/fql/evaluation/compute_test_goals.cpp:1171-1179 | Membership in the represented set; constants are answered by their sign. |
| `KnownSats.KnownSat.constructor` | fshell2/fql/evaluation/compute_test_goals.cpp:1126-1135 | The two passes represent exactly the base literals, constants among them. |
| `KnownSats.Close` | fshell2/fql/evaluation/compute_test_goals.cpp:1295-1332 | The worklist terminates with the least set that contains the start literals and is closed under the conjunction rules. |
| `KnownSats.ApplyRules` | fshell2/fql/evaluation/compute_test_goals.cpp:1305-1321 | Every conjunction with the operand is known afterwards or waits for an operand that is not yet known. |
| `KnownSats.Release` | fshell2/fql/evaluation/compute_test_goals.cpp:1323-1331 | Conjunctions that waited for the operand are known afterwards. |
| `Generation.Generate` | fshell2/tc_generation/constraint_strengthening.cpp:117-254 | When every model satisfies exactly one goal, for every limit, any earlier test cases, and goals credited by the internal analysis, by the solver or by both: at most one test case per goal and no more than the limit; every test case is a model of the given constraints that differs from every earlier one on some input; every credited goal is credited once and some such model with the inputs of its test case satisfies it; with the solver every goal that the inputs of a test case reach is credited to it or before, and without it just the goals of the own model; unless the limit stopped the loop a goal stays open exactly when no such model satisfies it. |
| `Generation.MakeCase` | fshell2/tc_generation/constraint_strengthening.cpp:174-247 | One round credits the goals of a new model, and with the solver all open goals that its inputs reach, otherwise no others; it excludes exactly the credited goals in the main solver. |
| `Generation.Strengthen` | fshell2/tc_generation/constraint_strengthening.cpp:235-247 | The inner loop terminates, credits goals reachable under the fixed literals only, and leaves none of them open. |
| `Generation.FixedMeans` | fshell2/tc_generation/constraint_strengthening.cpp:93-105 | The fixed literals of a model hold exactly for the valuations with the same value on every input. |
| `Generation.PreviousMeans` | fshell2/tc_generation/constraint_strengthening.cpp:137-143 | The constraints with the clauses for earlier test cases have exactly the models that differ from each of these on some input. |
| `Generation.FindSatTestGoals` | fshell2/tc_generation/constraint_strengthening.cpp:51-91 | Exactly the open goals that the model satisfies are moved, with the clauses that exclude them. |
| `Generation.CreditFound` | fshell2/tc_generation/constraint_strengthening.cpp:189-205 | Exactly the open goals that the internal analysis found are moved, with the clauses that exclude them. |
| `Generation.OpenInfeasible` | fshell2/tc_generation/constraint_strengthening.cpp:164 | Without a model that avoids the covered goals, no model satisfies an open goal. |

## Left out

- Solvers.Solver.Solve: the restart schedule is a parameter with a ghost witness that one of its bounds suffices; `SolveAll` supplies the Luby schedule. Budgets and interrupts are the flag `limited`.
- Solvers.Solver.Propagate: does not model the in-place compaction of a watch list during the scan; entries are removed one by one.
- Solvers.Solver.ReduceDB: does not model the activity order that selects clauses; the chosen set is arbitrary.
- Solvers.Solver.Simplify: does not model the count of propagations that says when a removal is due; that is a parameter.
- Solvers.Solver.SortLits: a selection sort stands for the library's sort.
- SimpSolvers.SimpSolver.AddClause: does not model the watch lists of the simplifier; units are propagated over the live clauses, and literals are filtered by membership tests instead of sorting.
- Preprocessing.SolveSimplified: does not model that the original continues in the same object; the remaining clauses go to a new core solver that does not decide eliminated variables.
- SimpSolvers.SimpSolver.Eliminate: does not model the priorities of the elimination heap; any of its variables may come next. Interrupts arrive at arbitrary points if the flag `interruptible` allows them. Freeing the data structures of the simplifier at the end is left out.
- Encoders.Encoder.DoStep: does not record the literals of test-goal states and transitions; they carry no constraint.
- Generation.Generate: the internal coverage analysis is a parameter that finds exactly the goals of a model; the inputs are any chosen list of variables; the core solver answers, where the original's solver objects also simplify, with the variables of the goals frozen.
- Paths.Steps: the instructions to ignore, and the target graphs mapped to each instruction, are given.
- TraceAutomata.TraceAutomaton.Simplify: the removal of duplicate edges is void on a set of edges.
- Rounding, decay and rescaling of activities, and statistics: soundness does not depend on them.
- Clause memory, relocation and garbage collection: clause references are indices.
- `asymm`, `implied` and `substitute` of the simplifier: off by default or not called.
- The product simulation at the start of `get_satisfied_test_goals`, which collects the start literals.
- Path patterns, filters, control flow graphs, symbolic execution and the expression layer.
- Command processing, macros, options, printing, DIMACS files and exceptions.
