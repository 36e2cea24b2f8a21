# incplan: incremental SAT-based planning, modelled in Dafny

incplan reads a planning problem in four DIMACS-style sections. These are
the initial-state clauses `i`, the invariant clauses `u` (they hold at every
step), the goal clauses `g`, and the transfer clauses `t` (they relate one
step to the next). Each section uses `n` variables per time step. incplan
then searches for a plan with an incremental SAT solver, reached through
the IPASIR interface. It grows the number of steps (the makespan) round by
round until the solver answers SAT, then prints the truth value of every
variable at every step.

The project models four layers of that program:

- **Time-point managers** (module `TimeSlotMapping`). They hand out the
  time points of the plan. The single-ended manager grows one stack forward
  from the initial state. The double-ended manager grows a begin stack from
  the initial state and an end stack back from the goal state. A ratio
  decides which stack gets the next point. In `Duplicated` mode the two
  stack tops name the same moment. Managers are values (`Manager`), with
  functions for successor, predecessor, first and last point. The two C++
  classes are also modelled as Dafny classes, and lemmas prove that they
  agree with the value model.
- **The time-point based encoder** (module `TimePointBased`). It gives each
  time point a slot, the first time the point is used. It maps a literal of
  a time point to a solver literal, for each of the three helper-variable
  layouts. It forwards add, assume, val, solve and reset to an IPASIR
  solver. The class keeps a ghost history of the requests it was given. Its
  invariant ties the slot table and the solver's call log to that history.
- **The planning driver** (modules `IncplanEncoding` and `Incplan`).
  - It checks the section headers.
  - It encodes the initial, invariant, transfer and goal clauses. It links
    the two stacks with guarded equivalence clauses, switched on by an
    activation literal.
  - It runs the rounds of `slv`, then prints the plan.
  - `IncplanEncoding` gives the exact request sequence of every step as
    pure functions. It proves what those requests mean: where the transfer
    clauses go, what the link clauses force, and which points the printer
    visits.
  - The `Incplan.Solver` class emits its requests imperatively, and each
    method is proved to emit exactly that sequence.
- **IPASIR and the scrambling wrapper** (modules `Ipasir` and
  `RandomizedIpasir`).
  - `Ipasir` models the solver protocol: clauses are terminated by 0,
    assumptions last for one solve, and the solver moves between the INPUT,
    SAT and UNSAT states. A ghost event log and its replay record it.
  - The wrapper buffers clauses and assumptions. On `solve` it renames
    variables through two inverse tables and shuffles the clauses, their
    literals and the assumptions. It then forwards everything, and it
    renames the answers back.

The solver's search itself is not modelled. `Ipasir.Solver.Solve` picks its
outcome, model and failed-assumption set freely, and every result proved
here holds whatever the solver answers. `wrappers.dfy` holds the stock
`Option` and `Result` datatypes.

Source paths in the tables are relative to the repository root.

## Model

| member | source | states |
|---|---|---|
| Ipasir.Code | app/incplan/src/incplan/src/libs/ipasir/ipasir_cpp.h:12 | SAT is code 10, UNSAT 20 and TIMEOUT 0; each code belongs to one outcome only |
| Ipasir.Decode | app/incplan/src/incplan/src/libs/ipasir/ipasir_cpp.h:12 | a code decodes exactly when it is 0, 10 or 20, and the decoded outcome has that code |
| Ipasir.CodeRoundTrip | app/incplan/src/incplan/src/libs/ipasir/ipasir_cpp.h:12 | decoding the code of an outcome gives that outcome back |
| Ipasir.Apply | app/incplan/src/incplan/src/libs/ipasir/ipasir_cpp.h:20-77 | defines the effect of one call on the clause database and the state; stated by `CallEffects` |
| Ipasir.CallEffects | app/incplan/src/incplan/src/libs/ipasir/ipasir_cpp.h:20-77 | `add`, `assume` and `reset` leave the solver in INPUT; `val` changes nothing; `solve` keeps the clauses and drops the assumptions; `add(0)` closes the pending clause; any other `add` and every `assume` adds exactly one literal |
| Ipasir.Replay | app/incplan/src/incplan/src/libs/ipasir/ipasir_cpp.h:20-77 | defines the database and state a call history leads to: the calls applied in order to the empty database |
| Ipasir.ReplayStep | app/incplan/src/incplan/src/libs/ipasir/ipasir_cpp.h:20-77 | one more call applies to whatever the history so far led to |
| Ipasir.ResetReplays | app/incplan/src/incplan/src/libs/ipasir/ipasir_cpp.cpp:70-80 | a history that ends in `reset` leads to the empty database in INPUT, whatever came before |
| Ipasir.AddEvents | app/incplan/src/incplan/src/libs/ipasir/ipasir_cpp.cpp:37-42 | `addClause` issues one `add` per literal, in clause order |
| Ipasir.PendingAccumulates | app/incplan/src/incplan/src/libs/ipasir/ipasir_cpp.h:20-35 | adding non-zero literals only extends the clause under construction; finished clauses and assumptions are unchanged |
| Ipasir.AddClauseAppends | app/incplan/src/incplan/src/libs/ipasir/ipasir_cpp.h:37-43 | with no clause pending, a clause's literals followed by 0 append exactly that clause to the database and leave the solver in INPUT |
| Ipasir.ClausesPersist | app/incplan/src/incplan/src/libs/ipasir/ipasir_cpp.h:20-24 | added clauses cannot be removed: only `reset` shrinks the clause list |
| Ipasir.AssumptionsLastOneSolve | app/incplan/src/incplan/src/libs/ipasir/ipasir_cpp.h:45-53 | after a `solve`, the assumptions in force are exactly those assumed since that solve |
| Ipasir.Value | app/incplan/src/incplan/src/libs/ipasir/ipasir_cpp.h:67-77 | `val` reports `lit`, `-lit` or 0 |
| Ipasir.ValOfNegation | app/incplan/src/incplan/src/libs/ipasir/ipasir_cpp.h:67-77 | asking for `lit` or for `-lit` reports the same (true) literal |
| Ipasir.Solver.constructor | app/incplan/src/incplan/src/libs/ipasir/ipasir_cpp.cpp:16-23 | a new solver has an empty history, is in INPUT, has the default callbacks and a learned-clause length bound of 0 |
| Ipasir.Solver.Add | app/incplan/src/incplan/src/libs/ipasir/ipasir_cpp.h:20-35 | `add` is allowed in every state and leaves the solver in INPUT; the history grows by that call |
| Ipasir.Solver.AddClause | app/incplan/src/incplan/src/libs/ipasir/ipasir_cpp.cpp:37-42 | the history grows by an `add` per literal and then `add(0)`; the state is INPUT |
| Ipasir.Solver.Assume | app/incplan/src/incplan/src/libs/ipasir/ipasir_cpp.h:45-53 | `assume` is allowed in every state and leaves the solver in INPUT |
| Ipasir.Solver.Solve | app/incplan/src/incplan/src/libs/ipasir/ipasir_cpp.h:55-65 | the state becomes SAT on 10, UNSAT on 20 and stays INPUT on 0 |
| Ipasir.Solver.ModelValue | app/incplan/src/incplan/src/libs/ipasir/ipasir_cpp.h:67-77 | the value of a literal in the model is `lit`, `-lit` or 0 |
| Ipasir.Solver.Val | app/incplan/src/incplan/src/libs/ipasir/ipasir_cpp.h:67-77 | `val` needs the SAT state and keeps it; it returns the model's value of `lit` |
| Ipasir.Solver.Failed | app/incplan/src/incplan/src/libs/ipasir/ipasir_cpp.h:79-90 | `failed` needs the UNSAT state; it returns 1 exactly when the assumption was used, else 0 |
| Ipasir.Solver.SetTerminate | app/incplan/src/incplan/src/libs/ipasir/ipasir_cpp.h:92-103 | stores the callback and changes nothing else, the state included |
| Ipasir.Solver.SetLearn | app/incplan/src/incplan/src/libs/ipasir/ipasir_cpp.h:105-119 | stores the callback and the length bound and changes nothing else |
| Ipasir.Solver.Reset | app/incplan/src/incplan/src/libs/ipasir/ipasir_cpp.cpp:70-80 | forgets every clause and assumption, returns to INPUT, restores the default callbacks and sets the learned-clause length bound back to 0 |
| TimeSlotMapping.AcquireNext | app/incplan/src/incplan/src/TimeSlotMapping.h:88-104 | single-ended: the next index. Double-ended: the first call seeds the begin stack and the second the end stack; afterwards the point goes to the begin stack exactly when (beginTop + 1) / (beginTop + endTop + 2) <= ratio |
| TimeSlotMapping.AcquireMany | app/incplan/src/incplan/src/TimeSlotMapping.h:88-104 | any number of acquisitions from a reachable state ends in a reachable state |
| TimeSlotMapping.IsValid | app/incplan/src/incplan/src/TimeSlotMapping.h:106-111 | defines the points handed out: index 0 up to the top of their stack; `OnTimelineRank` states that their rank lies between 0 and the last rank |
| TimeSlotMapping.Span | app/incplan/src/incplan/src/TimeSlotMapping.h:113-193 | defines the rank of the goal point: next - 1 single-ended; beginTop + endTop double-ended, plus one unless the two tops are one duplicated point |
| TimeSlotMapping.Rank | app/incplan/src/incplan/src/TimeSlotMapping.h:113-177 | defines the position on the timeline B0 .. B(beginTop), E(endTop) .. E0 along which successor and predecessor step; the two names of a duplicated top share one rank |
| TimeSlotMapping.IsOnForwardStack | app/incplan/src/incplan/src/TimeSlotMapping.h:179-185 | defines the forward stack: every point single-ended, the begin stack double-ended |
| TimeSlotMapping.Successor | app/incplan/src/incplan/src/TimeSlotMapping.h:113-144 | an invalid point gives invalid_argument. A valid point's successor is valid and one rank later. In Duplicated mode it is never the begin-stack name of the shared top |
| TimeSlotMapping.Predecessor | app/incplan/src/incplan/src/TimeSlotMapping.h:146-177 | the mirror image of `Successor`: valid, one rank earlier, never the end-stack name of a duplicated top |
| TimeSlotMapping.First | app/incplan/src/incplan/src/TimeSlotMapping.h:187-189 | the first point has rank 0 and is valid once the begin stack is seeded |
| TimeSlotMapping.Last | app/incplan/src/incplan/src/TimeSlotMapping.h:191-193 | the last point has the last rank and is valid once the end stack is seeded |
| TimeSlotMapping.Walk | app/incplan/src/incplan/src/TimeSlotMapping.h:113-144 | k successor steps: single-ended they reach index + k; from a valid point of a seeded double-ended manager they all succeed exactly when rank + k is at most the last rank, and then end on a valid point k ranks later |
| TimeSlotMapping.WalkBack | app/incplan/src/incplan/src/TimeSlotMapping.h:146-177 | k predecessor steps: single-ended they reach index - k; from a valid point of a seeded double-ended manager they all succeed exactly when k is at most the rank, and then end on a valid point k ranks earlier |
| TimeSlotMapping.WalkAdvancesRank | app/incplan/src/incplan/src/TimeSlotMapping.h:113-144 | k successor steps from a valid point within the timeline all succeed; they end k ranks later, on a valid point |
| TimeSlotMapping.WalkBackLowersRank | app/incplan/src/incplan/src/TimeSlotMapping.h:146-177 | k predecessor steps within the timeline all succeed and end k ranks earlier |
| TimeSlotMapping.WalkFirstToLast | app/incplan/src/incplan/src/unit_tests/TestTimeSlotMapping.cpp:114-120 | from the first point, stepping forward Span times reaches exactly the last point |
| TimeSlotMapping.WalkBackLastToFirst | app/incplan/src/incplan/src/unit_tests/TestTimeSlotMapping.cpp:114-121 | from the last point, stepping backward Span times reaches exactly the first point |
| TimeSlotMapping.SuccessorThenPredecessor | app/incplan/src/incplan/src/TimeSlotMapping.h:113-177 | the predecessor of the successor is the point itself; the end-stack name of a duplicated top comes back under its begin-stack name |
| TimeSlotMapping.PredecessorThenSuccessor | app/incplan/src/incplan/src/TimeSlotMapping.h:113-177 | the successor of the predecessor is the point itself; the begin-stack name of a duplicated top comes back under its end-stack name |
| TimeSlotMapping.SingleEndedWalk | app/incplan/src/incplan/src/unit_tests/TestTimeSlotMapping.cpp:26-40 | single-ended: k steps forward from the first point reach index k |
| TimeSlotMapping.SingleEndedAcquisitions | app/incplan/src/incplan/src/TimeSlotMapping.h:32-34 | single-ended: after k acquisitions the next index is k |
| TimeSlotMapping.SingleEndedKthAcquisition | app/incplan/src/incplan/src/unit_tests/TestTimeSlotMapping.cpp:6-24 | the k-th acquisition hands out index k - 1, and that point becomes the last point |
| TimeSlotMapping.FreshDoubleEnded | app/incplan/src/incplan/src/TimeSlotMapping.h:62-80 | a new double-ended manager has both stacks empty (tops at -1) |
| TimeSlotMapping.RatioOneGrowsBegin | app/incplan/src/incplan/src/TimeSlotMapping.h:96-103 | with ratio 1 and both stacks seeded, every acquisition goes to the begin stack |
| TimeSlotMapping.RatioOneSchedule | app/incplan/src/incplan/src/unit_tests/TestTimeSlotMapping.cpp:42-62 | with ratio 1, after k + 2 acquisitions the begin top is k and the end top is 0 |
| TimeSlotMapping.HalfRatioAlternates | app/incplan/src/incplan/src/unit_tests/TestTimeSlotMapping.cpp:94-112 | with ratio 1/2 the stacks alternate, begin stack first: after k + 2 acquisitions the tops are ceil(k / 2) and floor(k / 2) |
| TimeSlotMapping.UniqueRatioOneInsertion | app/incplan/src/incplan/src/unit_tests/TestTimeSlotMapping.cpp:52-61 | Unique tops, ratio 1: the new point is on the forward stack, follows the old begin top and precedes the goal; first and last are unchanged |
| TimeSlotMapping.DuplicatedRatioOneInsertion | app/incplan/src/incplan/src/unit_tests/TestTimeSlotMapping.cpp:74-91 | Duplicated tops, ratio 1: the new point follows the old begin top, which is followed by the goal; the new point's successor is out_of_range |
| TimeSlotMapping.HalfRatioDuplicatedTraversal | app/incplan/src/incplan/src/unit_tests/TestTimeSlotMapping.cpp:94-123 | Duplicated tops, ratio 1/2: the k-th interior point is on the forward stack exactly when k is odd; k steps forward from the first point reach the goal, and k steps back from the goal reach the first point |
| TimeSlotMapping.SingleEndedTimePointManager.constructor | app/incplan/src/incplan/src/TimeSlotMapping.h:53-54 | a new single-ended manager has next index 0 |
| TimeSlotMapping.SingleEndedTimePointManager.AquireNext | app/incplan/src/incplan/src/TimeSlotMapping.h:32-34 | the new state and the point handed out are those of `AcquireNext` on the old state |
| TimeSlotMapping.SingleEndedClassAgrees | app/incplan/src/incplan/src/TimeSlotMapping.h:35-52 | the class's successor, predecessor, first and last are those of the value model |
| TimeSlotMapping.SingleEndedBasicScenario | app/incplan/src/incplan/src/unit_tests/TestTimeSlotMapping.cpp:6-24 | after three acquisitions on the class: the first point stays first, the last acquired is last, and the three distinct points are linked by successor and predecessor as acquired |
| TimeSlotMapping.DoubleEndedTimePointManager.constructor | app/incplan/src/incplan/src/TimeSlotMapping.h:75-80 | a new manager has both stacks empty, with the given ratio and top-element option |
| TimeSlotMapping.DoubleEndedTimePointManager.Default | app/incplan/src/incplan/src/TimeSlotMapping.h:82-86 | the default manager has ratio 1 and Unique tops |
| TimeSlotMapping.DoubleEndedTimePointManager.AquireNext | app/incplan/src/incplan/src/TimeSlotMapping.h:88-104 | the new state and the point handed out are those of `AcquireNext` on the old state |
| TimeSlotMapping.DoubleEndedClassAgrees | app/incplan/src/incplan/src/TimeSlotMapping.h:106-193 | the class's `isValid`, `isOnForwardStack`, first and last agree with the value model |
| TimeSlotMapping.UniqueRatioOneScenario | app/incplan/src/incplan/src/unit_tests/TestTimeSlotMapping.cpp:42-62 | Unique tops, ratio 1, on the class: after the two seeds, twenty acquisitions all go to the begin stack, first and last never change, and the last one lies between its predecessor and the goal point |
| TimePointBased.LiteralToIpasir | app/incplan/src/incplan/src/TimePointBasedSolver.h:120-163 | 0 stays 0; a positive literal moves up by its block's start; a negative literal is the negation of its variable's image |
| TimePointBased.BlockStart | app/incplan/src/incplan/src/TimePointBasedSolver.h:125-147 | defines the unsigned offset of a slot's block of problem or helper variables in each of the three layouts |
| TimePointBased.Offset | app/incplan/src/incplan/src/TimePointBasedSolver.h:120-155 | the terminator 0 gets offset 0, and a negative literal gets the negated offset of its variable |
| TimePointBased.BlockStartNonNegative | app/incplan/src/incplan/src/TimePointBasedSolver.h:125-147 | the offset of a slot's block is never negative |
| TimePointBased.LiteralToIpasirSign | app/incplan/src/incplan/src/TimePointBasedSolver.h:150-152 | mapping commutes with negation, and positive literals map to positive ones |
| TimePointBased.SingleAfterExamples | app/incplan/src/incplan/src/unit_tests/TestTimePointBasedSolver.cpp:34-72 | 2 problem variables and 1 helper per slot: problem literal l at slot i is 3i + l, and the helper is 3i + 3, both with their sign |
| TimePointBased.BlockInjective | app/incplan/src/incplan/src/TimePointBasedSolver.h:127-139 | numbering slot-major with width w never gives two (slot, position) pairs the same number |
| TimePointBased.InterleavedInjective | app/incplan/src/incplan/src/TimePointBasedSolver.h:127-139 | in the SingleBefore and SingleAfter layouts, distinct (slot, kind, variable) triples get distinct solver variables |
| TimePointBased.AllBeforeSeparated | app/incplan/src/incplan/src/TimePointBasedSolver.h:141-147 | in the AllBefore layout, helpers below 1000 never collide with problem variables |
| TimePointBased.AllBeforeInjective | app/incplan/src/incplan/src/TimePointBasedSolver.h:141-147 | in the AllBefore layout, distinct variables of one kind get distinct solver variables |
| TimePointBased.AllBeforeCollision | app/incplan/src/incplan/src/TimePointBasedSolver.h:141-147 | with one helper per slot, the helper of slot 1000 lands on the first problem variable of slot 0 |
| TimePointBased.IndexOf | app/incplan/src/incplan/src/TimePointBasedSolver.h:111-114 | a known point keeps its slot; an unknown point gets the next free slot, which is the table's size |
| TimePointBased.Register | app/incplan/src/incplan/src/TimePointBasedSolver.h:111-114 | inserting a point gives it `IndexOf` and leaves every other entry unchanged |
| TimePointBased.RegisterKeepsDense | app/incplan/src/incplan/src/TimePointBasedSolver.h:111-114 | slots stay exactly 0 .. size - 1, each used once |
| TimePointBased.SlotsDistinct | app/incplan/src/incplan/src/TimePointBasedSolver.h:111-114 | two different time points never share a slot |
| TimePointBased.TableAfterOne | app/incplan/src/incplan/src/TimePointBasedSolver.h:120-123 | a request keeps every slot already given; the terminator 0 does not register its point |
| TimePointBased.EventOf | app/incplan/src/incplan/src/TimePointBasedSolver.h:27-61 | each encoder call becomes exactly one solver call of the matching kind, and its literal is 0 only for the terminator |
| TimePointBased.TableAfter | app/incplan/src/incplan/src/TimePointBasedSolver.h:111-114 | slots once given never change |
| TimePointBased.Events | app/incplan/src/incplan/src/TimePointBasedSolver.h:27-61 | one solver call per encoder call |
| TimePointBased.EventsShape | app/incplan/src/incplan/src/TimePointBasedSolver.h:27-61 | the i-th solver call has the kind of the i-th encoder call |
| TimePointBased.TableAfterConcat | app/incplan/src/incplan/src/TimePointBasedSolver.h:111-114 | the slot table after two request sequences is the table after the first, extended by the second |
| TimePointBased.TableAfterDense | app/incplan/src/incplan/src/TimePointBasedSolver.h:111-114 | any request sequence keeps the slot table dense |
| TimePointBased.EventsConcat | app/incplan/src/incplan/src/TimePointBasedSolver.h:27-61 | translating two request sequences one after the other gives the translation of their concatenation |
| TimePointBased.EventsUseFinalTable | app/incplan/src/incplan/src/TimePointBasedSolver.h:111-163 | every solver call made so far is the translation of its request under the current slot table: later slots never rename earlier literals |
| TimePointBased.RequestsStep | app/incplan/src/incplan/src/TimePointBasedSolver.h:27-61 | one more request extends the slot table by one step and the solver history by one call |
| TimePointBased.ProblemValue | app/incplan/src/incplan/src/TimePointBasedSolver.h:47-56 | an unassigned value gives 0, a true value `lit` and a false value `-lit` |
| TimePointBased.TimePointBasedSolver.ValidIsSound | app/incplan/src/incplan/src/TimePointBasedSolver.h:21-24 | the encoder's invariant gives a dense slot table and a solver that follows its protocol |
| TimePointBased.TimePointBasedSolver.constructor | app/incplan/src/incplan/src/TimePointBasedSolver.h:73-84 | an empty slot table and request history, with the given widths and layout, over the given solver |
| TimePointBased.TimePointBasedSolver.WithDefaultPosition | app/incplan/src/incplan/src/TimePointBasedSolver.h:86-92 | as the constructor, with helper variables after the problem variables of each slot |
| TimePointBased.TimePointBasedSolver.GetIndex | app/incplan/src/incplan/src/TimePointBasedSolver.h:111-114 | returns the point's slot, registering the point on first use |
| TimePointBased.TimePointBasedSolver.GetOffset | app/incplan/src/incplan/src/TimePointBasedSolver.h:120-155 | 0 gets offset 0 and registers nothing; otherwise the offset plus the literal is the literal's solver literal in the layout |
| TimePointBased.TimePointBasedSolver.LiteralToIpasirAt | app/incplan/src/incplan/src/TimePointBasedSolver.h:157-163 | returns `LiteralToIpasir` at the point's slot |
| TimePointBased.TimePointBasedSolver.Add | app/incplan/src/incplan/src/TimePointBasedSolver.h:27-33 | the request is recorded, the table advances by it and the solver gets exactly its translation |
| TimePointBased.TimePointBasedSolver.Assume | app/incplan/src/incplan/src/TimePointBasedSolver.h:35-41 | the request is recorded, the table advances by it and the solver gets exactly its translation |
| TimePointBased.TimePointBasedSolver.AddProblemLiteral | app/incplan/src/incplan/src/TimePointBasedSolver.h:27-29 | records the problem literal's `add` and leaves the solver in INPUT |
| TimePointBased.TimePointBasedSolver.AddHelperLiteral | app/incplan/src/incplan/src/TimePointBasedSolver.h:31-33 | records the helper literal's `add` and leaves the solver in INPUT |
| TimePointBased.TimePointBasedSolver.AssumeProblemLiteral | app/incplan/src/incplan/src/TimePointBasedSolver.h:35-37 | records the problem literal's `assume` and leaves the solver in INPUT |
| TimePointBased.TimePointBasedSolver.AssumeHelperLiteral | app/incplan/src/incplan/src/TimePointBasedSolver.h:39-41 | records the helper literal's `assume` and leaves the solver in INPUT |
| TimePointBased.TimePointBasedSolver.FinalizeClause | app/incplan/src/incplan/src/TimePointBasedSolver.h:43-45 | the solver gets `add(0)` |
| TimePointBased.TimePointBasedSolver.ValueProblemLiteral | app/incplan/src/incplan/src/TimePointBasedSolver.h:47-56 | in the SAT state, returns the problem literal's value as `ProblemValue` of the model's value of its solver literal |
| TimePointBased.TimePointBasedSolver.SolveSAT | app/incplan/src/incplan/src/TimePointBasedSolver.h:59-61 | one `solve`; the state follows its result |
| TimePointBased.TimePointBasedSolver.Reset | app/incplan/src/incplan/src/TimePointBasedSolver.h:106-108 | the solver forgets everything and the slot table is kept |
| IncplanEncoding.EffectiveOptions | app/incplan/src/incplan/src/incplan.cpp:567-569 | non-incremental solving forces the single-ended manager, and no other option changes |
| IncplanEncoding.StepToMakespan | app/incplan/src/incplan/src/incplan.cpp:553-562 | defines the linear schedule: round `step` targets makespan l * step (the exponential schedule is left out below); its growth is stated by `StepToMakespanMonotone` |
| IncplanEncoding.StepToMakespanMonotone | app/incplan/src/incplan/src/incplan.cpp:553-562 | the linear schedule never shrinks, growing by l per step |
| IncplanEncoding.DriverLayout | app/incplan/src/incplan/src/incplan.cpp:239-249 | n problem variables and one helper per slot; AllBefore exactly with the icaps2017 option, else SingleAfter |
| IncplanEncoding.CheckHeader | app/incplan/src/incplan/src/incplan.cpp:166-200 | accepted exactly when the word is `cnf`, the type is the expected one among i, u, g, t, and the count is the first one fixed, or twice it for `t` |
| IncplanEncoding.HeadersFixCount | app/incplan/src/incplan/src/incplan.cpp:193-197 | four well-formed headers are accepted exactly when u and g repeat the count of i and t repeats or doubles it; that count is the result |
| IncplanEncoding.CheckHeaders | app/incplan/src/incplan/src/incplan.cpp:212-224 | accepted headers are i, u, g and t in that order, each with the word `cnf`; the count is the first header's when that is non-zero; a first header without `cnf` fails with NotCnf |
| IncplanEncoding.ProblemRequests | app/incplan/src/incplan/src/incplan.cpp:430-440 | one problem-literal `add` per literal, every one at the given point |
| IncplanEncoding.TransferLit | app/incplan/src/incplan/src/incplan.cpp:443-457 | a literal at most n in absolute value goes to the source unchanged; a larger one goes to the destination, shifted by n toward 0 with its sign kept |
| IncplanEncoding.TransferRequests | app/incplan/src/incplan/src/incplan.cpp:442-459 | one `add` per transfer literal, in order |
| IncplanEncoding.TransferRequestsStep | app/incplan/src/incplan/src/incplan.cpp:443-458 | one more turn of the transfer loop appends one `TransferLit` |
| IncplanEncoding.TransferRoundTrip | app/incplan/src/incplan/src/incplan.cpp:442-459 | shifting a destination literal back up by n recovers the transfer literal |
| IncplanEncoding.TransferInRange | app/incplan/src/incplan/src/incplan.cpp:442-459 | with literals within 2n, every shifted literal is a variable 1 .. n |
| IncplanEncoding.IsUnitGoalMeaning | app/incplan/src/incplan/src/incplan.cpp:465-480 | with the option off nothing is a unit; a unit is a literal enclosed by terminators, or at position 0 one followed by a terminator |
| IncplanEncoding.LeadingEmptyClauseIsUnit | app/incplan/src/incplan/src/incplan.cpp:470-472 | at position 0 the terminator of an empty first goal clause counts as a unit goal, so the goal `0 0` yields the single request to assume the literal 0 |
| IncplanEncoding.IsUnitGoal | app/incplan/src/incplan/src/incplan.cpp:465-480 | defines the unit-goal test as written; its meaning is stated by `IsUnitGoalMeaning` |
| IncplanEncoding.GoalFrom | app/incplan/src/incplan/src/incplan.cpp:483-495 | defines the requests of goal entries i ..: a unit literal is assumed and its closing 0 skipped, every other entry goes through `GoalStep` |
| IncplanEncoding.GoalEntry | app/incplan/src/incplan/src/incplan.cpp:484-491 | defines the requests of one goal entry: an assumption for a unit literal, otherwise `GoalStep` |
| IncplanEncoding.GoalRequests | app/incplan/src/incplan/src/incplan.cpp:482-497 | defines the requests of `addGoalClauses`: `GoalFrom` position 0 |
| IncplanEncoding.GoalStep | app/incplan/src/incplan/src/incplan.cpp:484-491 | a guarded terminator is preceded by `-act`; every other literal is added as it is |
| IncplanEncoding.GoalNext | app/incplan/src/incplan/src/incplan.cpp:483-495 | the goal loop always advances and never passes the end |
| IncplanEncoding.GoalFromEntry | app/incplan/src/incplan/src/incplan.cpp:483-495 | the goal requests are the current entry's requests followed by those from the next position |
| IncplanEncoding.Unguard | app/incplan/src/incplan/src/incplan.cpp:486-489 | dropping the activation literals never lengthens a sequence |
| IncplanEncoding.UnguardConcat | app/incplan/src/incplan/src/incplan.cpp:486-489 | dropping activation literals distributes over concatenation |
| IncplanEncoding.GuardOnlyAddsActivation | app/incplan/src/incplan/src/incplan.cpp:482-497 | the guarded goal clauses are the unguarded ones with `-act` added, and nothing else |
| IncplanEncoding.UnguardStep | app/incplan/src/incplan/src/incplan.cpp:486-490 | the same for one goal literal |
| IncplanEncoding.GuardedClausesCarryActivation | app/incplan/src/incplan/src/incplan.cpp:486-490 | in the guarded goal, every clause terminator comes right after `-act` |
| IncplanEncoding.GoalAtOnePoint | app/incplan/src/incplan/src/incplan.cpp:482-497 | every goal literal is added or assumed at the goal's time point |
| IncplanEncoding.LinkClauses | app/incplan/src/incplan/src/incplan.cpp:499-513 | 2n clauses of three literals each |
| IncplanEncoding.LitRequests | app/incplan/src/incplan/src/incplan.cpp:503-510 | one `add` per literal of a clause |
| IncplanEncoding.ClauseRequestsConcat | app/incplan/src/incplan/src/incplan.cpp:499-513 | emitting two clause lists emits their concatenation |
| IncplanEncoding.LinkRequests | app/incplan/src/incplan/src/incplan.cpp:499-513 | the link makes 8 calls per variable |
| IncplanEncoding.LinkPairRequests | app/incplan/src/incplan/src/incplan.cpp:501-511 | defines the eight calls of one turn of the link loop; their meaning is `LinkPairAsClauses` |
| IncplanEncoding.LinkPairAsClauses | app/incplan/src/incplan/src/incplan.cpp:501-511 | one turn of the link loop emits its two clauses, each literal then the terminator |
| IncplanEncoding.LinkRequestsAreClauses | app/incplan/src/incplan/src/incplan.cpp:499-513 | the link's calls are exactly the clauses `LinkClauses`, emitted in order |
| IncplanEncoding.AllSatConcat | app/incplan/src/incplan/src/incplan.cpp:499-513 | two clause lists both hold exactly when their concatenation holds |
| IncplanEncoding.PairMeaning | app/incplan/src/incplan/src/incplan.cpp:501-511 | one turn's two clauses hold exactly when act is false or variable i agrees at A and B |
| IncplanEncoding.LinkMeaning | app/incplan/src/incplan/src/incplan.cpp:499-513 | with act false the link clauses hold; with act true they hold exactly when A and B agree on variables 1 .. n |
| IncplanEncoding.AcquireGrows | app/incplan/src/incplan/src/incplan.cpp:383-396 | once seeded, every acquisition lengthens the timeline by one, and its point is the new last-inserted point |
| IncplanEncoding.TransferEndpoints | app/incplan/src/incplan/src/incplan.cpp:386-393 | defines where the transfer clauses of a new point go: from its predecessor on the forward stack, to its successor otherwise; its meaning is `TransferGoesForward` |
| IncplanEncoding.TransferGoesForward | app/incplan/src/incplan/src/incplan.cpp:386-393 | the transfer clauses of a new point always succeed and run from a point to the one just after it; single-ended, from index - 1 to the new point |
| IncplanEncoding.LinkEndpoints | app/incplan/src/incplan/src/incplan.cpp:340-354 | defines the link endpoints of `finalize`: first and last when the last point is the goal point, else the point and its neighbour across the seam; its meaning is `LinkJoinsTops` |
| IncplanEncoding.LinkJoinsTops | app/incplan/src/incplan/src/incplan.cpp:339-354 | in Duplicated mode, `finalize` always links the begin-stack name and the end-stack name of the shared top |
| IncplanEncoding.AcquireManySeeded | app/incplan/src/incplan/src/incplan.cpp:383-396 | k acquisitions lengthen the timeline by k, and the manager stays of its kind |
| IncplanEncoding.Seeds | app/incplan/src/incplan/src/incplan.cpp:309-334 | after `initialize` the manager is seeded and its timeline has span 0 |
| IncplanEncoding.SeedPoint | app/incplan/src/incplan/src/incplan.cpp:320-333 | `initialize` returns the point inserted last: t0 single-ended, the goal seed double-ended |
| IncplanEncoding.SeedsAcquired | app/incplan/src/incplan/src/incplan.cpp:311-333 | the seeds are one acquisition single-ended and two double-ended, from a fresh manager |
| IncplanEncoding.InitialRequests | app/incplan/src/incplan/src/incplan.cpp:320-333 | defines the requests of `initialize` after the reset: initial and invariant clauses at t0, and double-ended the unguarded goal and the invariant clauses at the goal point |
| IncplanEncoding.FinalizeRequests | app/incplan/src/incplan/src/incplan.cpp:336-368 | defines the requests of `finalize`: the guarded goal single-ended or the link double-ended, then the assumption `act` at the last point |
| IncplanEncoding.GrowthLastInserted | app/incplan/src/incplan/src/incplan.cpp:383-396 | after growth, the tracked point is the one inserted last |
| IncplanEncoding.GrowthLast | app/incplan/src/incplan/src/incplan.cpp:383-396 | defines the point growth inserts last: the k-th acquisition, or the old point when nothing is acquired |
| IncplanEncoding.StepRequests | app/incplan/src/incplan/src/incplan.cpp:384-395 | defines the requests of one growth step: the new point's invariant clauses, then its transfer clauses between `TransferEndpoints` |
| IncplanEncoding.GrowthRequests | app/incplan/src/incplan/src/incplan.cpp:383-396 | defines the requests of k growth steps, one `StepRequests` per acquisition in order |
| IncplanEncoding.GrowthStep | app/incplan/src/incplan/src/incplan.cpp:383-396 | one more growth step acquires one more point and appends its invariant and transfer requests |
| IncplanEncoding.RoundGrowth | app/incplan/src/incplan/src/incplan.cpp:382-383 | growth reaches the round's target makespan, and only when the makespan is below it |
| IncplanEncoding.SeedsAreDriverManagers | app/incplan/src/incplan/src/incplan.cpp:311-318 | the managers `initialize` builds are single-ended, or double-ended with Duplicated tops |
| IncplanEncoding.GrowthKeepsDriverManager | app/incplan/src/incplan/src/incplan.cpp:383-396 | growth keeps that shape |
| IncplanEncoding.RoundStart | app/incplan/src/incplan/src/incplan.cpp:378-380 | defines where a round starts: the seeds again when solving non-incrementally, else the previous timeline |
| IncplanEncoding.RestartRequests | app/incplan/src/incplan/src/incplan.cpp:378-380 | defines the re-initialisation requests: reset and `initialize` when solving non-incrementally, none otherwise |
| IncplanEncoding.RoundRequests | app/incplan/src/incplan/src/incplan.cpp:377-421 | defines the requests of one round; their parts are stated by `RoundRequestsParts` |
| IncplanEncoding.RoundRequestsParts | app/incplan/src/incplan/src/incplan.cpp:377-421 | a round is: re-initialisation when non-incremental, growth, the optional intermediate solve, `finalize`, then the solve |
| IncplanEncoding.CleanRequests | app/incplan/src/incplan/src/incplan.cpp:416-421 | defines the clean clause: `-act` at the point inserted last, then 0 |
| IncplanEncoding.AfterRounds | app/incplan/src/incplan/src/incplan.cpp:374-396 | the manager and last point after n rounds always form a seeded driver manager with its point inserted last |
| IncplanEncoding.AfterRoundsSpan | app/incplan/src/incplan/src/incplan.cpp:382-396 | after n > 0 rounds the timeline spans exactly the makespan of round n - 1, incremental or not |
| IncplanEncoding.RoundsSoFarOutcome | app/incplan/src/incplan/src/incplan.cpp:376-377 | when the loop of `slv` stops, every round but the last failed, and the outcome is SAT exactly when the last round is |
| IncplanEncoding.RoundsSoFarStep | app/incplan/src/incplan/src/incplan.cpp:377 | the loop of `slv` goes on only after a failed round |
| IncplanEncoding.SlvHistory | app/incplan/src/incplan/src/incplan.cpp:370-428 | defines the request history of the rounds of `slv`: each round's `RoundRequests`, followed by the clean clause when `cleanLiteral` applies to its outcome |
| IncplanEncoding.SlvHistoryStep | app/incplan/src/incplan/src/incplan.cpp:377-421 | one more round appends its `RoundRequests`, then the clean clause at its last point when `cleanLiteral` applies to its outcome |
| IncplanEncoding.OnTimelineRank | app/incplan/src/incplan/src/incplan.cpp:261-288 | a point of the timeline has a rank from 0 to the makespan |
| IncplanEncoding.Visit | app/incplan/src/incplan/src/incplan.cpp:264-287 | the points printed from t are makespan - rank(t) + 1 many, ranks rising one at a time from t |
| IncplanEncoding.VisitAgrees | app/incplan/src/incplan/src/incplan.cpp:264-287 | except for a duplicated top at makespan 0, the loop as written visits exactly `Visit` |
| IncplanEncoding.VisitAsWritten | app/incplan/src/incplan/src/incplan.cpp:264-287 | defines the points the loop of `printSolution` visits as written: it stops only at the goal point, and a failing successor query ends it with that failure |
| IncplanEncoding.PrintVisitsEveryStep | app/incplan/src/incplan/src/incplan.cpp:261-288 | printing starts at the first point and prints one row per step, the last at the goal point (makespan 0 with Duplicated tops aside) |
| IncplanEncoding.VisitIsWalk | app/incplan/src/incplan/src/incplan.cpp:286-287 | the k-th printed point is k successor steps from the start |
| IncplanEncoding.VisitSuffix | app/incplan/src/incplan/src/incplan.cpp:264-287 | printing from the k-th printed point prints the rest of the same sequence |
| IncplanEncoding.PrintAtMakespanZeroAsWritten | app/incplan/src/incplan/src/incplan.cpp:282-286 | the loop as written fails with out_of_range at makespan 0 with Duplicated tops; the corrected walk prints the single row |
| IncplanEncoding.PrintAgreesOtherwise | app/incplan/src/incplan/src/incplan.cpp:261-288 | in every other case the loop as written and the corrected walk print the same points |
| Incplan.ShownInRange | app/incplan/src/incplan/src/incplan.cpp:270-276 | with solver-like output, variable j at step k is printed as a number in k*n + 1 .. (k+1)*n, with the value's sign |
| Incplan.Shown | app/incplan/src/incplan/src/incplan.cpp:270-276 | defines the printed value: unchanged, or in solver-like output moved away from 0 by step * n with its sign kept |
| Incplan.RowPrefix | app/incplan/src/incplan/src/incplan.cpp:268-277 | the first `count` printed entries of a row |
| Incplan.RowPrefixEntry | app/incplan/src/incplan/src/incplan.cpp:268-277 | entry j of a row prints variable j + 1 of that step |
| Incplan.PrintedRow | app/incplan/src/incplan/src/incplan.cpp:268-278 | a printed row has one entry per problem variable |
| Incplan.PrintedRowValues | app/incplan/src/incplan/src/incplan.cpp:268-277 | a printed row has n entries, and entry j is variable j + 1's value, shifted by k*n in solver-like output |
| Incplan.PrintedRowsWidth | app/incplan/src/incplan/src/incplan.cpp:267-281 | every printed row has one entry per problem variable |
| Incplan.ValueRequests | app/incplan/src/incplan/src/incplan.cpp:268-269 | printing a row asks for the value of variables 1 .. n in order, at the row's point |
| Incplan.Run | app/incplan/src/incplan/src/incplan.cpp:578-619 | `solved` exactly when a solution is printed, after at most `maxRounds` rounds; a solution has one row per step of the last round's makespan, one row per point of the final timeline from first to last, each row the model's values of variables 1 .. n at that point |
| Incplan.Solver.constructor | app/incplan/src/incplan/src/incplan.cpp:239-249 | a fresh encoder over a fresh solver, with empty tables and history |
| Incplan.Solver.AddClauses | app/incplan/src/incplan/src/incplan.cpp:430-440 | emits `ProblemRequests` |
| Incplan.Solver.AddInitialClauses | app/incplan/src/incplan/src/incplan.cpp:430-434 | emits the initial clauses at the point |
| Incplan.Solver.AddInvariantClauses | app/incplan/src/incplan/src/incplan.cpp:436-440 | emits the invariant clauses at the point |
| Incplan.Solver.AddTransferClauses | app/incplan/src/incplan/src/incplan.cpp:442-459 | emits `TransferRequests` from source to destination |
| Incplan.Solver.AddTransferLiteral | app/incplan/src/incplan/src/incplan.cpp:443-457 | emits one `TransferLit` |
| Incplan.Solver.AddGoalClauses | app/incplan/src/incplan/src/incplan.cpp:482-497 | emits `GoalRequests` for the goal at the point, guarded or not |
| Incplan.Solver.AddGoalEntry | app/incplan/src/incplan/src/incplan.cpp:484-495 | emits one entry's requests and returns the next position |
| Incplan.Solver.AddGoalLiteral | app/incplan/src/incplan/src/incplan.cpp:486-491 | emits `GoalStep`: the literal, preceded by `-act` when it closes a guarded clause |
| Incplan.Solver.AddLink | app/incplan/src/incplan/src/incplan.cpp:499-513 | emits `LinkRequests`, which are the clauses `LinkClauses` |
| Incplan.Solver.AddLinkPair | app/incplan/src/incplan/src/incplan.cpp:501-511 | emits one turn's two guarded clauses |
| Incplan.Solver.AddLinkClause | app/incplan/src/incplan/src/incplan.cpp:503-506 | emits `-act@binding, x@A, y@B, 0` |
| Incplan.Solver.Initialize | app/incplan/src/incplan/src/incplan.cpp:309-334 | resets, seeds the manager, emits the initial, invariant and (double-ended) goal clauses, sets makespan 0 and returns the seed point |
| Incplan.Solver.Finalize | app/incplan/src/incplan/src/incplan.cpp:336-368 | emits the guarded goal (single-ended) or the link, then assumes `act` at the last point |
| Incplan.Solver.Grow | app/incplan/src/incplan/src/incplan.cpp:383-396 | raises the makespan to the target if below it, acquiring one point per step and emitting its invariant and transfer clauses |
| Incplan.Solver.GrowStep | app/incplan/src/incplan/src/incplan.cpp:384-395 | one growth step: one more point and its requests |
| Incplan.Solver.AddStep | app/incplan/src/incplan/src/incplan.cpp:385-393 | the new point's invariant clauses and transfer clauses, from its predecessor or to its successor |
| Incplan.Solver.Round | app/incplan/src/incplan/src/incplan.cpp:377-421 | the round's requests are `RoundRequests`; the makespan reaches the round's target and the state follows the solve result |
| Incplan.Solver.SolveBeforeGoal | app/incplan/src/incplan/src/incplan.cpp:398-401 | one intermediate `solve` exactly when `solveBeforeGoalClauses` is set, no request otherwise |
| Incplan.Solver.Prepare | app/incplan/src/incplan/src/incplan.cpp:378-396 | re-initialisation when non-incremental, then growth to the target |
| Incplan.Solver.Restart | app/incplan/src/incplan/src/incplan.cpp:378-380 | re-runs `initialize` exactly when solving non-incrementally |
| Incplan.Solver.Clean | app/incplan/src/incplan/src/incplan.cpp:416-421 | adds the unit clause `-act` at the last point |
| Incplan.Solver.Slv | app/incplan/src/incplan/src/incplan.cpp:370-428 | corrected `slv`: the history is the reset and `initialize` requests, then for each round its `RoundRequests`, then `-act` at its last point when `cleanLiteral` is set and the round failed; every round but the last failed; true exactly when the last round is SAT, and then the solver is still in SAT; the makespan is exactly the last round's target |
| Incplan.Solver.SlvAsWritten | app/incplan/src/incplan/src/incplan.cpp:370-428 | as written: the same history, except that with `cleanLiteral` the clean clause `-act` follows every round, the SAT one included, so a SAT answer leaves the solver in INPUT |
| Incplan.Solver.SlvRounds | app/incplan/src/incplan/src/incplan.cpp:370-428 | the common body of both versions: the history of `SlvHistory`, exact makespan, every round but the last failed, `solveResult` is the last outcome, and a SAT outcome leaves the solver in SAT unless cleaned |
| Incplan.Solver.SlvStart | app/incplan/src/incplan/src/incplan.cpp:373-376 | `initialize` starts the loop: no rounds yet, makespan 0, history extended by the reset and the initial requests |
| Incplan.Solver.SlvLoop | app/incplan/src/incplan/src/incplan.cpp:377-422 | the loop of rounds stops at the first SAT round or after `maxRounds` rounds, keeping the history, manager and outcomes of `SlvHistory` |
| Incplan.Solver.SlvTurn | app/incplan/src/incplan/src/incplan.cpp:377-421 | one turn of the loop: its round and clean clause extend the history as `SlvHistoryStep` says, and the outcome is appended |
| Incplan.Solver.RoundAndClean | app/incplan/src/incplan/src/incplan.cpp:377-421 | a round's `RoundRequests`, followed by `-act` at its last point when `cleanLiteral` applies; the manager moves to the next round's |
| Incplan.Solver.CleanAfterRound | app/incplan/src/incplan/src/incplan.cpp:416-421 | adds `-act` at the last point exactly when `cleanLiteral` applies to the outcome, else changes nothing |
| Incplan.Solver.SlvFinish | app/incplan/src/incplan/src/incplan.cpp:426 | the last outcome becomes `solveResult` |
| Incplan.Solver.SlvOutcome | app/incplan/src/incplan/src/incplan.cpp:376-427 | what the stopped loop leaves: the history, the manager, the exact makespan, and every round but the last failed |
| Incplan.Solver.Solve | app/incplan/src/incplan/src/incplan.cpp:254-259 | runs `slv` with the same request history, rounds and outcome, and records the makespan reached as the final makespan |
| Incplan.Solver.RecordMakespan | app/incplan/src/incplan/src/incplan.cpp:256-257 | the final makespan becomes the makespan reached |
| Incplan.Solver.SolveAndPrint | app/incplan/src/incplan/src/incplan.cpp:608-612 | `solve` then `printSolution`: a solution exactly when solved, with one row per step of the final timeline, each the model's values at that point |
| Incplan.Solver.PrintSolution | app/incplan/src/incplan/src/incplan.cpp:261-296 | on SAT: makespan + 1 rows, one per point from first to last in timeline order, each holding that point's values; otherwise "no solution" |
| Incplan.Solver.PrintStep | app/incplan/src/incplan/src/incplan.cpp:267-281 | appends the row of the current point, keeping the earlier rows |
| Incplan.Solver.PrintAdvance | app/incplan/src/incplan/src/incplan.cpp:267-288 | one turn of the outer loop: prints the row of the point, then either ends with all points of the timeline printed or moves one step on |
| Incplan.Solver.PrintRow | app/incplan/src/incplan/src/incplan.cpp:268-278 | asks for variables 1 .. n at the point and returns their printed values |
| Incplan.Solver.PrintRowStep | app/incplan/src/incplan/src/incplan.cpp:268-277 | one turn of the inner loop: the row and the history each grow by variable j's entry |
| Incplan.Solver.PrintEntry | app/incplan/src/incplan/src/incplan.cpp:269-276 | one `val` request and the printed value |
| RandomizedIpasir.MapLit | app/incplan/src/incplan/src/libs/ipasir/randomized_ipasir.h:175-192 | 0 stays 0; otherwise the sign is kept and the variable is the table's entry |
| RandomizedIpasir.MapAll | app/incplan/src/incplan/src/libs/ipasir/randomized_ipasir.h:69-73 | renames each literal of a clause in place |
| RandomizedIpasir.MapClauses | app/incplan/src/incplan/src/libs/ipasir/randomized_ipasir.h:69-73 | renames every clause; there are as many renamed clauses as clauses |
| RandomizedIpasir.MapClausesEach | app/incplan/src/incplan/src/libs/ipasir/randomized_ipasir.h:69-73 | clause k of the renamed list is clause k renamed |
| RandomizedIpasir.MapAllStep | app/incplan/src/incplan/src/libs/ipasir/randomized_ipasir.h:70-72 | renaming one more literal appends its renaming |
| RandomizedIpasir.UnmapMap | app/incplan/src/incplan/src/libs/ipasir/randomized_ipasir.h:171-192 | `unmap(map(l)) == l` for every literal whose variable is known |
| RandomizedIpasir.MapUnmap | app/incplan/src/incplan/src/libs/ipasir/randomized_ipasir.h:171-192 | `map(unmap(x)) == x` for every solver literal in range |
| RandomizedIpasir.UnmapMapAll | app/incplan/src/incplan/src/libs/ipasir/randomized_ipasir.h:171-192 | renaming a clause of known literals and renaming it back gives the clause |
| RandomizedIpasir.UnmapMapEach | app/incplan/src/incplan/src/libs/ipasir/randomized_ipasir.h:132-165 | once every buffered literal is known, every buffered clause can be renamed |
| RandomizedIpasir.PermutationKeepsKnown | app/incplan/src/incplan/src/libs/ipasir/randomized_ipasir.h:157-165 | shuffling keeps every literal known |
| RandomizedIpasir.LitVarsCover | app/incplan/src/incplan/src/libs/ipasir/randomized_ipasir.h:132-144 | literals whose variables were all recorded are known |
| RandomizedIpasir.VarsOfCover | app/incplan/src/incplan/src/libs/ipasir/randomized_ipasir.h:132-140 | the same for every buffered clause |
| RandomizedIpasir.PermutationKeepsDistinct | app/incplan/src/incplan/src/libs/ipasir/randomized_ipasir.h:146-153 | shuffling a list without repetitions leaves none |
| RandomizedIpasir.Learned | app/incplan/src/incplan/src/libs/ipasir/randomized_ipasir.h:55-59 | the learned clause is the literals before the first 0 |
| RandomizedIpasir.LearnedRoundTrip | app/incplan/src/incplan/src/libs/ipasir/randomized_ipasir.h:55-63 | a clause learned over renamed variables reaches the client as the original clause |
| RandomizedIpasir.LearnedIsPrefix | app/incplan/src/incplan/src/libs/ipasir/randomized_ipasir.h:57-59 | the learned clause is the prefix before the first 0 |
| RandomizedIpasir.RandomizedSolver.constructor | app/incplan/src/incplan/src/libs/ipasir/randomized_ipasir.h:10-15 | one open clause, empty tables except slot 0, nothing known, the generator seeded |
| RandomizedIpasir.RandomizedSolver.Init | app/incplan/src/incplan/src/libs/ipasir/randomized_ipasir.h:113-117 | opens a clause and reserves slot 0 in both tables |
| RandomizedIpasir.RandomizedSolver.Add | app/incplan/src/incplan/src/libs/ipasir/randomized_ipasir.h:25-31 | the buffer changes as IPASIR's `add` changes a clause database; the wrapped solver is untouched |
| RandomizedIpasir.RandomizedSolver.Assume | app/incplan/src/incplan/src/libs/ipasir/randomized_ipasir.h:33-35 | the buffer changes as IPASIR's `assume` does; the wrapped solver is untouched |
| RandomizedIpasir.RandomizedSolver.Shuffle | app/incplan/src/incplan/src/libs/ipasir/randomized_ipasir.h:146 | the result is a permutation of the input |
| RandomizedIpasir.RandomizedSolver.AddLiteral | app/incplan/src/incplan/src/libs/ipasir/randomized_ipasir.h:119-130 | records the literal's variable, as new exactly when it was not known, and raises the maximum |
| RandomizedIpasir.RandomizedSolver.CollectLiterals | app/incplan/src/incplan/src/libs/ipasir/randomized_ipasir.h:137-139 | the known variables grow by those of the literals |
| RandomizedIpasir.RandomizedSolver.CollectClauses | app/incplan/src/incplan/src/libs/ipasir/randomized_ipasir.h:136-140 | the known variables grow by those of the clauses |
| RandomizedIpasir.RandomizedSolver.ScrumbleVariables | app/incplan/src/incplan/src/libs/ipasir/randomized_ipasir.h:132-155 | all buffered variables become known; earlier ones keep their solver variables, new ones get solver variables after the old ones; the tables stay inverse |
| RandomizedIpasir.RandomizedSolver.ExtendTables | app/incplan/src/incplan/src/libs/ipasir/randomized_ipasir.h:148-154 | the new variables are appended to `fromIpasir`, and `toIpasir` points each of them at its position |
| RandomizedIpasir.RandomizedSolver.ScrumbleClauses | app/incplan/src/incplan/src/libs/ipasir/randomized_ipasir.h:157-165 | drops the empty open clause, permutes the clauses, permutes each clause's literals and permutes the assumptions |
| RandomizedIpasir.RandomizedSolver.ShuffleAssumptions | app/incplan/src/incplan/src/libs/ipasir/randomized_ipasir.h:164 | the assumptions are permuted |
| RandomizedIpasir.RandomizedSolver.ShuffleClauses | app/incplan/src/incplan/src/libs/ipasir/randomized_ipasir.h:160 | the finished clauses are permuted |
| RandomizedIpasir.RandomizedSolver.ShuffleEach | app/incplan/src/incplan/src/libs/ipasir/randomized_ipasir.h:161-163 | each clause keeps its place and its multiset of literals |
| RandomizedIpasir.RandomizedSolver.ForwardClause | app/incplan/src/incplan/src/libs/ipasir/randomized_ipasir.h:70-73 | the wrapped solver gets each renamed literal, then 0 |
| RandomizedIpasir.RandomizedSolver.ForwardLiteral | app/incplan/src/incplan/src/libs/ipasir/randomized_ipasir.h:71 | the wrapped solver gets one renamed literal |
| RandomizedIpasir.RandomizedSolver.ForwardClauses | app/incplan/src/incplan/src/libs/ipasir/randomized_ipasir.h:69-74 | the wrapped solver gets every renamed clause, in order |
| RandomizedIpasir.RandomizedSolver.ClauseEventsStep | app/incplan/src/incplan/src/libs/ipasir/randomized_ipasir.h:69-74 | forwarding one more clause appends its renamed literals and 0 |
| RandomizedIpasir.AddEventsMapStep | app/incplan/src/incplan/src/libs/ipasir/randomized_ipasir.h:70-72 | forwarding one more literal of a clause appends its renamed `add` |
| RandomizedIpasir.RandomizedSolver.ForwardAssumptions | app/incplan/src/incplan/src/libs/ipasir/randomized_ipasir.h:78-80 | the wrapped solver gets every renamed assumption, in order |
| RandomizedIpasir.AssumeEventsStep | app/incplan/src/incplan/src/libs/ipasir/randomized_ipasir.h:78-80 | forwarding one more assumption appends its renamed `assume` |
| RandomizedIpasir.RandomizedSolver.Solve | app/incplan/src/incplan/src/libs/ipasir/randomized_ipasir.h:65-84 | the wrapped solver gets a permutation of the buffered clauses, each permuted and renamed, then the permuted renamed assumptions and one `solve`; the buffers are emptied and earlier renamings kept |
| RandomizedIpasir.RandomizedSolver.Send | app/incplan/src/incplan/src/libs/ipasir/randomized_ipasir.h:69-81 | forwards the clauses, then the assumptions, and empties both buffers |
| RandomizedIpasir.RandomizedSolver.Scrumble | app/incplan/src/incplan/src/libs/ipasir/randomized_ipasir.h:66-67 | after both scrumble steps, every buffered literal can be renamed and the tables are inverse |
| RandomizedIpasir.RandomizedSolver.Val | app/incplan/src/incplan/src/libs/ipasir/randomized_ipasir.h:37-39 | returns `lit`, `-lit` or 0 exactly as the wrapped solver reports the renamed literal true, false or unassigned |
| RandomizedIpasir.RandomizedSolver.Failed | app/incplan/src/incplan/src/libs/ipasir/randomized_ipasir.h:41-43 | 1 exactly when the renamed assumption failed, else 0 |
| RandomizedIpasir.RandomizedSolver.SetLearn | app/incplan/src/incplan/src/libs/ipasir/randomized_ipasir.h:45-53 | stores the client's callback, and the wrapped solver reports through the unmapping callback |
| RandomizedIpasir.RandomizedSolver.MappingCallback | app/incplan/src/incplan/src/libs/ipasir/randomized_ipasir.h:55-63 | the client receives the learned clause renamed back, terminated by 0 |
| RandomizedIpasir.RandomizedSolver.SetTerminate | app/incplan/src/incplan/src/libs/ipasir/randomized_ipasir.h:86-88 | passes the callback through |
| RandomizedIpasir.RandomizedSolver.Reset | app/incplan/src/incplan/src/libs/ipasir/randomized_ipasir.h:90-98 | the wrapped solver forgets everything and its terminate and learn callbacks are back to the defaults with bound 0, so the unmapping callback is disconnected; the buffers and tables are as after construction; the generator and the client's learn callback are kept |

## Left out

- The SAT search itself. `Ipasir.Solver.Solve` chooses its result, model and failed assumptions freely. No property depends on what the solver answers.
- Reading the input stream: comment skipping, `parseCnf` and stream errors. Only the header rule of `parseCnfHeader` (`CheckHeader`, `CheckHeaders`) is modelled. A fatal log message becomes an `Err` result.
- `Problem::inferAdditionalInformation`. Its results are never used by the encoding.
- The exponential step schedule (`floor(pow(e, n + o))`): it uses floating point. `StepToMakespan` is the linear schedule `l * step`.
- The `float` ratio of the double-ended manager is an exact fraction. The comparison `(beginTop + 1) / (beginTop + endTop + 2) <= ratio` is done by cross-multiplying, with no rounding.
- Randomness. `std::mt19937` and `std::shuffle` are replaced by `Shuffle`, whose only promise is to return a permutation (its body rotates the sequence). The seed printout and `std::random_device` are left out.
- Logging, timing, JSON statistics, option parsing (TCLAP), the search path for the input file, and `signature()`.
- `selectLiteral` / `selectLiteralCallback` and the extended-IPASIR literal selection. They return no hint in this program.
- `getBeginTop` / `getEndTop`: the driver never calls them.
- 32-bit `int` overflow in literal numbering and counters. All integers are unbounded.
- Incplan.Solver.Slv: the source loops until SAT. The model stops after `maxRounds` rounds and then reports no solution; everything else about the rounds is stated in full.
- Incplan.Run: bounded by `maxRounds` in the same way as `Slv`.
- IncplanEncoding.IsUnitGoal: reproduced as written, so with `-u` a goal that begins with the empty clause `0 0` counts as a unit at position 0 and `addGoalClauses` assumes the literal 0 (incplan.cpp:470-471, 491-493), which the IPASIR header forbids for every call (ipasir_cpp.h:29-33); `Ipasir.Solver.Assume` does not require a non-zero literal, so the model does not flag this call, and `LeadingEmptyClauseIsUnit` exhibits the request.
- With `-u` in double-ended mode, `initialize` assumes the unit goal literals instead of adding them, and IPASIR drops assumptions after the next `solve` (`Ipasir.AssumptionsLastOneSolve`). Later rounds therefore solve without the unit goals. The model reproduces this as written; no corrected driver is modelled, because the intended fix (adding them as clauses, or assuming them again in every round) is not evident from the source.
- The time-point manager is held by the driver as a value (`Manager`), not through a `unique_ptr` to a class. The two classes are modelled separately and proved equal to the value model.
- RandomizedIpasir.MapLit: the `assert(variable != 0)` of `map` is a precondition (`Mappable`) rather than an abort.
- The learned-clause callback: `Ipasir.Callback` only identifies which callback is installed. Calling it is not modelled, except for the renaming done by `MappingCallback`.
- The stack tags `FROM_BEGIN` and `FROM_END` are 0 and 1 here. Their values are not part of the source shown; only their distinctness matters.
- The other programs of the repository (`genipa*`, `icnf`, `ipasirprint`, the checkers, the solver glue) and the mock solver used by tests.

## Findings

| source | as written | input that shows it | evidently intended | confidence | as-written member | corrected member |
|---|---|---|---|---|---|---|
| app/incplan/src/incplan/src/incplan.cpp:416-421 | with the clean option, `slv` adds the unit clause `-act` after every solve, including the final SAT one, so the solver is back in INPUT when `printSolution` calls `val` | any problem solved with the clean option: the last round answers SAT, then `add` moves the solver from SAT to INPUT, and IPASIR allows `val` only in SAT (ipasir_cpp.h:67-77) | clean only after a round that was not SAT | not executed | Incplan.Solver.SlvAsWritten | Incplan.Solver.Slv |
| app/incplan/src/incplan/src/incplan.cpp:282-286 | `printSolution` stops only when the point equals `getLast()`. With Duplicated tops at makespan 0, the first point is the begin-stack name of the shared top and the last is its end-stack name, so the loop calls `getSuccessor` past the begin top | double-ended solving that is SAT at makespan 0 (the goal holds in the initial state): `getSuccessor((FROM_BEGIN, 0))` throws out_of_range (TimeSlotMapping.h:125-141) | print the single row of step 0 and stop | not executed | IncplanEncoding.PrintAtMakespanZeroAsWritten | Incplan.Solver.PrintSolution |
