/**
 * The incremental planning driver.
 *
 * It grows a timeline of time points, asks the encoder for the initial,
 * invariant, transfer, goal and link clauses at those points, and solves
 * after every round under the assumption that the round's activation
 * literal holds.  Every method is proved to append exactly the request
 * sequence module IncplanEncoding computes for it to the encoder's
 * request history, which in turn fixes the IPASIR calls made.
 */
module Incplan {

  import opened Wrappers
  import opened TimeSlotMapping
  import opened TimePointBased
  import opened IncplanEncoding
  import Ipasir

  /** What `printSolution` writes: a header and one row of values per step, or "no solution". */
  datatype Output = NoSolution | Solution(literalsPerTime: nat, steps: int, rows: seq<seq<int>>)

  /** A value as printed: shifted into the range of its step in solver-like output. */
  function Shown(v: int, step: nat, n: nat, normalOutput: bool): int
  {
    if !normalOutput then v
    else if v < 0 then v - step * n
    else v + step * n
  }

  /** In solver-like output the literal of variable j at step k lies in k * n < |x| <= (k + 1) * n. */
  lemma ShownInRange(j: int, k: nat, n: nat)
    requires 1 <= j <= n
    ensures k * n < Shown(j, k, n, true) <= (k + 1) * n
    ensures Shown(-j, k, n, true) == -Shown(j, k, n, true)
  {
  }

  /** Variable j's entry in row k: its value (j, -j or 0), shown for step k. */
  predicate PrintedValue(x: int, j: int, k: nat, n: nat, normalOutput: bool)
  {
    x == Shown(j, k, n, normalOutput) || x == Shown(-j, k, n, normalOutput) || x == Shown(0, k, n, normalOutput)
  }

  /** What `printSolution` writes for variable `j` of the point in `slot` at step `k`: its value under `model`, shown for step k. */
  function PrintedEntry(layout: Layout, model: map<int, bool>, slot: int, j: int, k: nat, normalOutput: bool): int
    requires slot >= 0
  {
    Shown(ProblemValue(j, Ipasir.Value(model, LiteralToIpasir(layout, slot, j, Problem))), k, layout.varsPerTime, normalOutput)
  }

  /** The entries for variables 1..count. */
  function RowPrefix(layout: Layout, model: map<int, bool>, slot: int, k: nat, normalOutput: bool, count: nat): (row: seq<int>)
    requires slot >= 0
    ensures |row| == count
  {
    if count == 0 then []
    else RowPrefix(layout, model, slot, k, normalOutput, count - 1) + [PrintedEntry(layout, model, slot, count, k, normalOutput)]
  }

  /** The row `printSolution` writes for the point in `slot` at step `k`: one entry per problem variable. */
  function PrintedRow(layout: Layout, model: map<int, bool>, slot: int, k: nat, normalOutput: bool): (row: seq<int>)
    requires slot >= 0
    ensures |row| == layout.varsPerTime
  {
    RowPrefix(layout, model, slot, k, normalOutput, layout.varsPerTime)
  }

  lemma {:induction false} RowPrefixEntry(layout: Layout, model: map<int, bool>, slot: int, k: nat, normalOutput: bool, count: nat, j: int)
    requires slot >= 0 && 0 <= j < count
    ensures RowPrefix(layout, model, slot, k, normalOutput, count)[j] == PrintedEntry(layout, model, slot, j + 1, k, normalOutput)
  {
    if j < count - 1 {
      RowPrefixEntry(layout, model, slot, k, normalOutput, count - 1, j);
    }
  }

  /**
   * A printed row has one entry per variable, and entry j is variable
   * j + 1 as true, false or unassigned, shown for its step.
   */
  lemma PrintedRowValues(layout: Layout, model: map<int, bool>, slot: int, k: nat, normalOutput: bool, j: int)
    requires slot >= 0 && 0 <= j < layout.varsPerTime
    ensures |PrintedRow(layout, model, slot, k, normalOutput)| == layout.varsPerTime
    ensures PrintedValue(PrintedRow(layout, model, slot, k, normalOutput)[j], j + 1, k, layout.varsPerTime, normalOutput)
  {
    RowPrefixEntry(layout, model, slot, k, normalOutput, layout.varsPerTime, j);
    var v := Ipasir.Value(model, LiteralToIpasir(layout, slot, j + 1, Problem));
    assert v == 0 || v > 0 || v < 0;
  }

  /** The rows `printSolution` writes for `points`, one per point, from the model and the slot table. */
  predicate PrintedRows(layout: Layout, model: map<int, bool>, table: map<TimePoint, int>, normalOutput: bool,
                        rows: seq<seq<int>>, points: seq<TimePoint>)
  {
    SlotsInRange(table) && |rows| == |points|
    && forall k :: 0 <= k < |points| ==> rows[k] == PrintedRow(layout, model, IndexOf(table, points[k]), k, normalOutput)
  }

  /** Every printed row has one entry per problem variable. */
  lemma PrintedRowsWidth(layout: Layout, model: map<int, bool>, table: map<TimePoint, int>, normalOutput: bool,
                         rows: seq<seq<int>>, points: seq<TimePoint>)
    requires PrintedRows(layout, model, table, normalOutput, rows, points)
    ensures forall k :: 0 <= k < |rows| ==> |rows[k]| == layout.varsPerTime
  {
    forall k | 0 <= k < |rows|
      ensures |rows[k]| == layout.varsPerTime
    {
      assert rows[k] == PrintedRow(layout, model, IndexOf(table, points[k]), k, normalOutput);
    }
  }

  /** The value queries for variables 1..n at `t`. */
  function ValueRequests(t: TimePoint, n: nat): (r: seq<Request>)
    ensures |r| == n
    ensures forall j :: 0 <= j < n ==> r[j] == ValueLit(Lit(j + 1, t, Problem))
  {
    if n == 0 then [] else ValueRequests(t, n - 1) + [ValueLit(Lit(n, t, Problem))]
  }

  /** The four requests of one link clause. */
  function LinkClauseRequests(x: int, a: TimePoint, y: int, b: TimePoint, binding: TimePoint): seq<Request>
  {
    [AddLit(Lit(-ActivationLiteral, binding, Helper)), ProblemLit(x, a), ProblemLit(y, b), FinalizeClause]
  }

  /** Appending to a history that is an append keeps the first part. */
  lemma AppendPoints(done: seq<TimePoint>, t: TimePoint, rest: seq<TimePoint>)
    ensures done + ([t] + rest) == (done + [t]) + rest
  {
  }

  lemma AppendAssoc(prefix: seq<Request>, done: seq<Request>, step: seq<Request>)
    ensures prefix + done + step == prefix + (done + step)
  {
  }

  /**
   * `incplan_main`: builds the solver for the problem (non-incremental
   * solving forces the single-ended manager), solves and prints.  Along
   * the corrected `slv`, a solution is printed from the SAT state: one
   * row per point of the timeline the last round grew, from the initial
   * to the goal point, holding the model's values at that point.
   */
  method Run(problem: PlanningProblem, options: Options, maxRounds: nat)
    returns (solved: bool, out: Output, ghost rounds: nat, ghost model: map<int, bool>,
             ghost table: map<TimePoint, int>, ghost points: seq<TimePoint>)
    requires GoalReadable(problem.goal, options.unitInGoal2Assume)
    ensures solved <==> out.Solution?
    ensures rounds <= maxRounds && (solved <==> rounds > 0 && out.Solution?) && (!solved ==> rounds == maxRounds)
    ensures out.Solution? ==>
              var o := EffectiveOptions(options);
              var m := AfterRounds(o, rounds).0;
              out.literalsPerTime == problem.literalsPerTime
              && out.steps == |out.rows| == StepToMakespan(o, rounds - 1) + 1
              && points == Visit(m, First(m))
              && PrintedRows(DriverLayout(problem, o), model, table, options.normalOutput, out.rows, points)
              && forall k :: 0 <= k < |out.rows| ==> |out.rows[k]| == problem.literalsPerTime
  {
    var s := new Solver(problem, EffectiveOptions(options));
    solved, out, rounds, points := s.SolveAndPrint(maxRounds);
    model, table := s.base.solver.model, s.base.timePoints;
  }

  /** A history extended part by part is extended by the parts in order. */
  lemma AppendParts(start: seq<Request>, r1: seq<Request>, r2: seq<Request>, r3: seq<Request>, r4: seq<Request>,
                    a: seq<Request>, b: seq<Request>, c: seq<Request>, d: seq<Request>)
    requires r1 == start + a && r2 == r1 + b && r3 == r2 + c && r4 == r3 + d
    ensures r4 == start + (a + b + c + d)
  {
  }

  /** The requests `initialize` issues after its reset, put together from the clause sets it adds. */
  lemma InitialRequestsShape(p: PlanningProblem, o: Options, start: seq<Request>, r0: seq<Request>, final: seq<Request>)
    requires GoalReadable(p.goal, o.unitInGoal2Assume)
    requires r0 == start + [ResetReq]
    requires o.singleEnded ==>
               final == r0 + (ProblemRequests(p.initial, First(Seeds(o))) + ProblemRequests(p.invariants, First(Seeds(o))))
    requires !o.singleEnded ==>
               final == r0 + (ProblemRequests(p.initial, First(Seeds(o))) + ProblemRequests(p.invariants, First(Seeds(o))))
                        + (GoalRequests(p.goal, SeedPoint(o), false, o.unitInGoal2Assume) + ProblemRequests(p.invariants, SeedPoint(o)))
    ensures final == start + ([ResetReq] + InitialRequests(p, o))
  {
  }

  /** Two single appends make one append of two. */
  lemma AppendTwo(r0: seq<Request>, r1: seq<Request>, r2: seq<Request>, q: seq<Request>)
    requires |q| == 2
    requires r1 == r0 + [q[0]] && r2 == r1 + [q[1]]
    ensures r2 == r0 + q
  {
    assert q == [q[0]] + [q[1]];
  }

  /** Four single appends make one append of four. */
  lemma AppendFour(r0: seq<Request>, r1: seq<Request>, r2: seq<Request>, r3: seq<Request>, r4: seq<Request>, q: seq<Request>)
    requires |q| == 4
    requires r1 == r0 + [q[0]] && r2 == r1 + [q[1]] && r3 == r2 + [q[2]] && r4 == r3 + [q[3]]
    ensures r4 == r0 + q
  {
    assert q == [q[0]] + [q[1]] + [q[2]] + [q[3]];
  }

  /** The solver of the planning problem: the encoder plus the timeline and the solving state. */
  class Solver {
    const problem: PlanningProblem
    const options: Options
    const base: TimePointBasedSolver
    /** The time-point manager; `initialize` replaces it. */
    var manager: Manager
    var makeSpan: int
    var finalMakeSpan: int
    var solveResult: Ipasir.SolveResult

    ghost predicate Valid()
      reads this, base, base.solver
    {
      base.Valid() && Reachable(manager)
      && base.GetLayout() == DriverLayout(problem, options)
      && GoalReadable(problem.goal, options.unitInGoal2Assume)
      && (options.nonIncrementalSolving ==> options.singleEnded)
    }

    /** The manager after `initialize`: of the configured kind, seeded, and as far grown as the makespan says. */
    predicate Initialized()
      reads this
    {
      Seeded(manager) && makeSpan == Span(manager)
      && (options.singleEnded ==> manager.SingleEnded?)
      && (!options.singleEnded ==> manager.DoubleEnded? && manager.option == Duplicated && manager.ratio == options.ratio)
    }

    constructor(problem: PlanningProblem, options: Options)
      requires GoalReadable(problem.goal, options.unitInGoal2Assume)
      requires options.nonIncrementalSolving ==> options.singleEnded
      ensures Valid() && fresh(base) && fresh(base.solver)
      ensures this.problem == problem && this.options == options
      ensures base.timePoints == map[] && base.requests == [] && base.solver.log == []
    {
      this.problem := problem;
      this.options := options;
      var ipasir := new Ipasir.Solver();
      base := new TimePointBasedSolver(problem.literalsPerTime, 1, ipasir,
                                       if options.icaps2017Version then AllBefore else SingleAfter);
      manager := SingleEnded(0);
      makeSpan := 0;
      finalMakeSpan := 0;
      solveResult := Ipasir.Unsat;
    }

    /** Adds a clause set at `t`, literal by literal. */
    method AddClauses(lits: seq<int>, t: TimePoint)
      requires Valid()
      modifies base`timePoints, base`requests, base.solver`state, base.solver`log
      ensures Valid()
      ensures base.requests == old(base.requests) + ProblemRequests(lits, t)
    {
      for i := 0 to |lits|
        invariant Valid()
        invariant base.requests == old(base.requests) + ProblemRequests(lits[..i], t)
      {
        base.AddProblemLiteral(lits[i], t);
        assert lits[..i + 1][..i] == lits[..i];
      }
      assert lits[..|lits|] == lits;
    }

    method AddInitialClauses(t: TimePoint)
      requires Valid()
      modifies base`timePoints, base`requests, base.solver`state, base.solver`log
      ensures Valid()
      ensures base.requests == old(base.requests) + ProblemRequests(problem.initial, t)
    {
      AddClauses(problem.initial, t);
    }

    method AddInvariantClauses(t: TimePoint)
      requires Valid()
      modifies base`timePoints, base`requests, base.solver`state, base.solver`log
      ensures Valid()
      ensures base.requests == old(base.requests) + ProblemRequests(problem.invariants, t)
    {
      AddClauses(problem.invariants, t);
    }

    /** Adds the transfer clauses: source-step literals at `source`, destination-step literals shifted down at `destination`. */
    method AddTransferClauses(source: TimePoint, destination: TimePoint)
      requires Valid()
      modifies base`timePoints, base`requests, base.solver`state, base.solver`log
      ensures Valid()
      ensures base.requests == old(base.requests) + TransferRequests(problem.literalsPerTime, problem.transfer, source, destination)
    {
      var lits := problem.transfer;
      for i := 0 to |lits|
        invariant Valid()
        invariant base.requests == old(base.requests) + TransferRequests(problem.literalsPerTime, lits[..i], source, destination)
      {
        AddTransferLiteral(lits[i], source, destination);
        TransferRequestsStep(problem.literalsPerTime, lits, i, source, destination);
      }
      assert lits[..|lits|] == lits;
    }

    /** One iteration of the transfer loop: a destination-step literal is shifted into the per-step range. */
    method AddTransferLiteral(literal: int, source: TimePoint, destination: TimePoint)
      requires Valid()
      modifies base`timePoints, base`requests, base.solver`state, base.solver`log
      ensures Valid()
      ensures base.requests == old(base.requests) + [TransferLit(problem.literalsPerTime, literal, source, destination)]
    {
      var n := problem.literalsPerTime;
      var literalIsSourceTime := Abs(literal) <= n;
      var shifted := literal;
      if !literalIsSourceTime {
        if literal > 0 {
          shifted := literal - n;
        } else {
          shifted := literal + n;
        }
      }
      if literalIsSourceTime {
        base.AddProblemLiteral(shifted, source);
      } else {
        base.AddProblemLiteral(shifted, destination);
      }
    }

    /**
     * Adds the goal clauses at `t`; unit goals are assumed when so
     * configured, and guarded clauses get `-act@t` before their 0.
     */
    method AddGoalClauses(t: TimePoint, isGuarded: bool)
      requires Valid()
      modifies base`timePoints, base`requests, base.solver`state, base.solver`log
      ensures Valid()
      ensures base.requests == old(base.requests) + GoalRequests(problem.goal, t, isGuarded, options.unitInGoal2Assume)
    {
      ghost var done: seq<Request> := [];
      var i := 0;
      while i < |problem.goal|
        invariant 0 <= i <= |problem.goal|
        invariant Valid()
        invariant done + GoalFrom(problem.goal, i, t, isGuarded, options.unitInGoal2Assume)
                  == GoalRequests(problem.goal, t, isGuarded, options.unitInGoal2Assume)
        invariant base.requests == old(base.requests) + done
        decreases |problem.goal| - i
      {
        ghost var entry := GoalEntry(problem.goal, i, t, isGuarded, options.unitInGoal2Assume);
        GoalFromEntry(problem.goal, i, t, isGuarded, options.unitInGoal2Assume);
        AppendAssoc(done, entry, GoalFrom(problem.goal, GoalNext(problem.goal, i, options.unitInGoal2Assume), t, isGuarded, options.unitInGoal2Assume));
        AppendAssoc(old(base.requests), done, entry);
        done := done + entry;
        i := AddGoalEntry(i, t, isGuarded);
      }
    }

    /**
     * One iteration of the goal loop at entry `i`: a unit literal is
     * assumed and its closing 0 skipped, anything else is added.  Returns
     * the entry to continue with.
     */
    method AddGoalEntry(i: nat, t: TimePoint, isGuarded: bool) returns (next: nat)
      requires Valid() && i < |problem.goal|
      modifies base`timePoints, base`requests, base.solver`state, base.solver`log
      ensures Valid() && next == GoalNext(problem.goal, i, options.unitInGoal2Assume)
      ensures base.requests == old(base.requests) + GoalEntry(problem.goal, i, t, isGuarded, options.unitInGoal2Assume)
    {
      var literal := problem.goal[i];
      if !IsUnitGoal(problem.goal, i, options.unitInGoal2Assume) {
        AddGoalLiteral(literal, t, isGuarded);
        next := i + 1;
      } else {
        base.AssumeProblemLiteral(literal, t);
        next := i + 2; // skip the 0 that closes the unit clause
      }
    }

    /** A goal literal that is added, preceded by `-act@t` when it closes a guarded clause. */
    method AddGoalLiteral(literal: int, t: TimePoint, isGuarded: bool)
      requires Valid()
      modifies base`timePoints, base`requests, base.solver`state, base.solver`log
      ensures Valid()
      ensures base.requests == old(base.requests) + GoalStep(literal, t, isGuarded)
    {
      if literal == 0 && isGuarded {
        ghost var r0 := base.requests;
        base.AddHelperLiteral(-ActivationLiteral, t);
        ghost var r1 := base.requests;
        base.AddProblemLiteral(literal, t);
        AppendTwo(r0, r1, base.requests, GoalStep(literal, t, isGuarded));
      } else {
        base.AddProblemLiteral(literal, t);
      }
    }

    /** Adds the 2n link clauses making every variable equal at `a` and `b` while `act@binding` holds. */
    method AddLink(a: TimePoint, b: TimePoint, binding: TimePoint)
      requires Valid()
      modifies base`timePoints, base`requests, base.solver`state, base.solver`log
      ensures Valid()
      ensures base.requests == old(base.requests) + LinkRequests(problem.literalsPerTime, a, b, binding)
    {
      for i := 1 to problem.literalsPerTime + 1
        invariant Valid()
        invariant base.requests == old(base.requests) + LinkRequests(i - 1, a, b, binding)
      {
        AddLinkPair(i, a, b, binding);
        AppendAssoc(old(base.requests), LinkRequests(i - 1, a, b, binding), LinkPairRequests(i, a, b, binding));
      }
    }

    /** One iteration of the link loop: the two clauses for variable `i`. */
    method AddLinkPair(i: int, a: TimePoint, b: TimePoint, binding: TimePoint)
      requires Valid()
      modifies base`timePoints, base`requests, base.solver`state, base.solver`log
      ensures Valid()
      ensures base.requests == old(base.requests) + LinkPairRequests(i, a, b, binding)
    {
      AddLinkClause(-i, a, i, b, binding);
      AddLinkClause(i, a, -i, b, binding);
      assert LinkPairRequests(i, a, b, binding)
          == LinkClauseRequests(-i, a, i, b, binding) + LinkClauseRequests(i, a, -i, b, binding);
    }

    /** One link clause `-act@binding \/ x@a \/ y@b`, closed by `finalizeClause`. */
    method AddLinkClause(x: int, a: TimePoint, y: int, b: TimePoint, binding: TimePoint)
      requires Valid()
      modifies base`timePoints, base`requests, base.solver`state, base.solver`log
      ensures Valid()
      ensures base.requests == old(base.requests) + LinkClauseRequests(x, a, y, b, binding)
    {
      var activationLiteral := ActivationLiteral;
      ghost var r0 := base.requests;
      base.AddHelperLiteral(-activationLiteral, binding);
      ghost var r1 := base.requests;
      base.AddProblemLiteral(x, a);
      ghost var r2 := base.requests;
      base.AddProblemLiteral(y, b);
      ghost var r3 := base.requests;
      base.FinalizeClause();
      AppendFour(r0, r1, r2, r3, base.requests, LinkClauseRequests(x, a, y, b, binding));
    }

    /**
     * `initialize`: resets the solver, starts a manager of the configured
     * kind and encodes the initial state at the first point; double-ended,
     * the goal is encoded (unguarded) at the second.  Returns that point.
     */
    method Initialize() returns (e: TimePoint)
      requires Valid()
      modifies this`manager, this`makeSpan, base`timePoints, base`requests
      modifies base.solver`state, base.solver`log, base.solver`terminate, base.solver`learn, base.solver`learnMaxLength
      ensures Valid() && Initialized() && makeSpan == 0
      ensures manager == Seeds(options) && e == SeedPoint(options)
      ensures base.requests == old(base.requests) + ([ResetReq] + InitialRequests(problem, options))
    {
      base.Reset();
      if options.singleEnded {
        manager := SingleEnded(0);
      } else {
        manager := FreshDoubleEnded(options.ratio, Duplicated);
      }
      makeSpan := 0;
      SeedsAcquired(options);
      var (m1, t0) := AcquireNext(manager);
      manager := m1;
      ghost var r0 := base.requests;
      AddInitialClauses(t0);
      AddInvariantClauses(t0);
      AppendAssoc(r0, ProblemRequests(problem.initial, t0), ProblemRequests(problem.invariants, t0));
      e := t0;
      if !options.singleEnded {
        ghost var r1 := base.requests;
        var (m2, tN) := AcquireNext(manager);
        manager := m2;
        AddGoalClauses(tN, false);
        AddInvariantClauses(tN);
        AppendAssoc(r1, GoalRequests(problem.goal, tN, false, options.unitInGoal2Assume), ProblemRequests(problem.invariants, tN));
        e := tN;
      }
      assert t0 == First(Seeds(options));
      InitialRequestsShape(problem, options, old(base.requests), r0, base.requests);
    }

    /**
     * `finalize`: the goal clauses guarded by the activation literal of `e`
     * (single-ended), or the link between the two names of the shared top
     * element (double-ended); then the activation literal is assumed.
     */
    method Finalize(e: TimePoint)
      requires Valid() && Initialized() && LastInserted(manager, e)
      modifies base`timePoints, base`requests, base.solver`state, base.solver`log
      ensures Valid() && base.solver.state == Ipasir.InputState
      ensures base.requests == old(base.requests) + FinalizeRequests(problem, options, manager, e)
    {
      ghost var clauses: seq<Request>;
      if options.singleEnded {
        AddGoalClauses(e, true);
        clauses := GoalRequests(problem.goal, e, true, options.unitInGoal2Assume);
      } else {
        LinkJoinsTops(manager, e);
        var (linkSource, linkDestination) := LinkEndpoints(manager, e).value;
        AddLink(linkSource, linkDestination, e);
        clauses := LinkRequests(problem.literalsPerTime, linkSource, linkDestination, e);
      }
      base.AssumeHelperLiteral(ActivationLiteral, e);
      AppendAssoc(old(base.requests), clauses, [AssumeLit(Lit(ActivationLiteral, e, Helper))]);
    }

    /**
     * The growth loop of `slv`: acquires points until the makespan reaches
     * `target`, adding the invariant at each new point and the transfer
     * clauses towards its neighbour.  Returns the point acquired last.
     */
    method Grow(target: int, e: TimePoint) returns (last: TimePoint)
      requires Valid() && Initialized() && LastInserted(manager, e)
      modifies this`manager, this`makeSpan, base`timePoints, base`requests, base.solver`state, base.solver`log
      ensures Valid() && Initialized()
      ensures makeSpan == if old(makeSpan) < target then target else old(makeSpan)
      ensures manager == AcquireMany(old(manager), makeSpan - old(makeSpan))
      ensures last == GrowthLast(old(manager), makeSpan - old(makeSpan), e)
      ensures base.requests == old(base.requests) + GrowthRequests(problem, old(manager), makeSpan - old(makeSpan))
    {
      last := e;
      while makeSpan < target
        invariant Valid() && Initialized()
        invariant old(makeSpan) <= makeSpan && (old(makeSpan) < target ==> makeSpan <= target)
        invariant old(makeSpan) >= target ==> makeSpan == old(makeSpan)
        invariant manager == AcquireMany(old(manager), makeSpan - old(makeSpan))
        invariant last == GrowthLast(old(manager), makeSpan - old(makeSpan), e)
        invariant base.requests == old(base.requests) + GrowthRequests(problem, old(manager), makeSpan - old(makeSpan))
        decreases target - makeSpan
      {
        last := GrowStep(old(manager), makeSpan - old(makeSpan), e, old(base.requests));
      }
    }

    /** One iteration of the growth loop: acquires the next point and adds its clauses. */
    method GrowStep(ghost m0: Manager, ghost k: nat, ghost e: TimePoint, ghost before: seq<Request>) returns (last: TimePoint)
      requires Valid() && Initialized() && Reachable(m0) && Seeded(m0)
      requires manager == AcquireMany(m0, k)
      requires base.requests == before + GrowthRequests(problem, m0, k)
      modifies this`manager, this`makeSpan, base`timePoints, base`requests, base.solver`state, base.solver`log
      ensures Valid() && Initialized() && makeSpan == old(makeSpan) + 1
      ensures manager == AcquireMany(m0, k + 1)
      ensures last == GrowthLast(m0, k + 1, e)
      ensures base.requests == before + GrowthRequests(problem, m0, k + 1)
    {
      GrowthStep(problem, m0, k, e);
      AcquireGrows(manager);
      var (m1, tNew) := AcquireNext(manager);
      ghost var stepRequests := StepRequests(problem, manager);
      manager := m1;
      TransferGoesForward(manager, tNew);
      AddStep(tNew);
      AppendAssoc(before, GrowthRequests(problem, m0, k), stepRequests);
      last := tNew;
      makeSpan := makeSpan + 1;
    }

    /** One iteration of the growth loop, after `tNew` was acquired. */
    method AddStep(tNew: TimePoint)
      requires Valid() && Grown(manager, tNew)
      modifies base`timePoints, base`requests, base.solver`state, base.solver`log
      ensures Valid()
      ensures TransferEndpoints(manager, tNew).Ok?
      ensures var (src, dst) := TransferEndpoints(manager, tNew).value;
              base.requests == old(base.requests)
                + (ProblemRequests(problem.invariants, tNew) + TransferRequests(problem.literalsPerTime, problem.transfer, src, dst))
    {
      TransferGoesForward(manager, tNew);
      AddInvariantClauses(tNew);
      ghost var r1 := base.requests;
      if IsOnForwardStack(manager, tNew) {
        var pred := Predecessor(manager, tNew).value;
        AddTransferClauses(pred, tNew);
      } else {
        var succ := Successor(manager, tNew).value;
        AddTransferClauses(tNew, succ);
      }
      var (src, dst) := TransferEndpoints(manager, tNew).value;
      AppendAssoc(old(base.requests), ProblemRequests(problem.invariants, tNew),
                  TransferRequests(problem.literalsPerTime, problem.transfer, src, dst));
    }

    /**
     * One round of `slv` up to its solve: re-initialisation when solving
     * non-incrementally, growth to the round's makespan, the optional
     * intermediate solve, `finalize` and the solve itself.
     */
    method Round(step: nat, e: TimePoint) returns (result: Ipasir.SolveResult, last: TimePoint, ghost intermediate: Ipasir.SolveResult)
      requires Valid() && Initialized() && LastInserted(manager, e)
      modifies this`manager, this`makeSpan, base`timePoints, base`requests
      modifies base.solver`state, base.solver`log, base.solver`model, base.solver`failedAssumptions
      modifies base.solver`terminate, base.solver`learn, base.solver`learnMaxLength
      ensures Valid() && Initialized() && LastInserted(manager, last)
      ensures base.solver.state == Ipasir.StateAfterSolve(result)
      ensures makeSpan >= StepToMakespan(options, step)
      ensures var (m0, e0) := RoundStart(options, old(manager), e);
              manager == AcquireMany(m0, RoundGrowth(options, m0, step))
              && last == GrowthLast(m0, RoundGrowth(options, m0, step), e0)
      ensures base.requests == old(base.requests) + RoundRequests(problem, options, old(manager), e, step, intermediate, result)
    {
      ghost var m0, k, e0;
      last, m0, k, e0 := Prepare(step, e);
      ghost var r1 := base.requests;
      intermediate := SolveBeforeGoal();
      ghost var r2 := base.requests;
      Finalize(last);
      ghost var r3 := base.requests;
      result := base.SolveSAT();
      RoundRequestsParts(problem, options, old(manager), e, step, intermediate, result, m0, e0, k);
      AppendParts(old(base.requests), r1, r2, r3, base.requests,
                  RoundFrame(problem, options, m0, k),
                  if options.solveBeforeGoalClauses then [SolveReq(intermediate)] else [],
                  FinalizeRequests(problem, options, manager, last), [SolveReq(result)]);
    }

    /** The intermediate solve a round makes before its goal clauses, when configured to. */
    method SolveBeforeGoal() returns (ghost intermediate: Ipasir.SolveResult)
      requires Valid()
      modifies base`requests, base.solver`state, base.solver`log, base.solver`model, base.solver`failedAssumptions
      ensures Valid()
      ensures base.requests == old(base.requests) + if options.solveBeforeGoalClauses then [SolveReq(intermediate)] else []
      ensures !options.solveBeforeGoalClauses ==> intermediate == Ipasir.Unsat
    {
      intermediate := Ipasir.Unsat;
      if options.solveBeforeGoalClauses {
        var r := base.SolveSAT();
        intermediate := r;
      }
    }

    /**
     * The part of a round of `slv` before its solves: re-initialisation
     * when solving non-incrementally, then growth to the round's makespan.
     */
    method Prepare(step: nat, e: TimePoint) returns (last: TimePoint, ghost m0: Manager, ghost k: nat, ghost e0: TimePoint)
      requires Valid() && Initialized() && LastInserted(manager, e)
      modifies this`manager, this`makeSpan, base`timePoints, base`requests
      modifies base.solver`state, base.solver`log, base.solver`terminate, base.solver`learn, base.solver`learnMaxLength
      ensures Valid() && Initialized() && DriverManager(m0) && LastInserted(manager, last)
      ensures (m0, e0) == RoundStart(options, old(manager), e) && k == RoundGrowth(options, m0, step)
      ensures manager == AcquireMany(m0, k) && last == GrowthLast(m0, k, e0)
      ensures makeSpan >= StepToMakespan(options, step)
      ensures base.requests == old(base.requests) + RoundFrame(problem, options, m0, k)
    {
      var start := Restart(e);
      m0, e0 := manager, start;
      ghost var s0 := makeSpan;
      last := Grow(StepToMakespan(options, step), start);
      k := makeSpan - s0;
      GrowthLastInserted(m0, k, e0);
      AppendAssoc(old(base.requests), RestartRequests(problem, options), GrowthRequests(problem, m0, k));
    }

    /** The start of a round: `initialize` again when solving non-incrementally, otherwise nothing. */
    method Restart(e: TimePoint) returns (start: TimePoint)
      requires Valid() && Initialized() && LastInserted(manager, e)
      modifies this`manager, this`makeSpan, base`timePoints, base`requests
      modifies base.solver`state, base.solver`log, base.solver`terminate, base.solver`learn, base.solver`learnMaxLength
      ensures Valid() && Initialized() && DriverManager(manager) && LastInserted(manager, start)
      ensures (manager, start) == RoundStart(options, old(manager), e)
      ensures base.requests == old(base.requests) + RestartRequests(problem, options)
    {
      SeedsAreDriverManagers(options);
      start := e;
      if options.nonIncrementalSolving {
        start := Initialize();
      }
    }

    /** The unit clause `-act@e` that switches a round's goal or link clauses off for good. */
    method Clean(e: TimePoint)
      requires Valid()
      modifies base`timePoints, base`requests, base.solver`state, base.solver`log
      ensures Valid() && base.solver.state == Ipasir.InputState
      ensures base.requests == old(base.requests) + CleanRequests(e)
    {
      var activationLiteral := ActivationLiteral;
      ghost var r0 := base.requests;
      base.AddHelperLiteral(-activationLiteral, e);
      ghost var r1 := base.requests;
      base.FinalizeClause();
      AppendTwo(r0, r1, base.requests, CleanRequests(e));
    }

    /**
     * `slv`, corrected: rounds of growing makespan until one is
     * satisfiable (or `maxRounds` rounds are done); the activation literal
     * is cleaned only after a round that failed, so a satisfiable solve
     * leaves the solver in the SAT state for `printSolution`.  Round `i`
     * solves with `results[i]`, after an intermediate solve with
     * `intermediates[i]` when one is made.
     */
    method Slv(maxRounds: nat)
      returns (solved: bool, ghost rounds: nat, ghost intermediates: seq<Ipasir.SolveResult>, ghost results: seq<Ipasir.SolveResult>)
      requires Valid()
      modifies this`manager, this`makeSpan, this`solveResult, base`timePoints, base`requests
      modifies base.solver`state, base.solver`log, base.solver`model, base.solver`failedAssumptions
      modifies base.solver`terminate, base.solver`learn, base.solver`learnMaxLength
      ensures Valid() && Initialized()
      ensures |intermediates| == |results| == rounds <= maxRounds
      ensures base.requests == SlvHistory(old(base.requests) + ([ResetReq] + InitialRequests(problem, options)),
                                          problem, options, intermediates, results, false)
      ensures manager == AfterRounds(options, rounds).0
      ensures makeSpan == if rounds == 0 then 0 else StepToMakespan(options, rounds - 1)
      ensures forall i :: 0 <= i < rounds - 1 ==> results[i] != Ipasir.Sat
      ensures solved <==> rounds > 0 && results[rounds - 1] == Ipasir.Sat
      ensures solved <==> solveResult == Ipasir.Sat
      ensures solved ==> base.solver.state == Ipasir.SatState
      ensures !solved ==> rounds == maxRounds
    {
      var result;
      ghost var last;
      result, last, rounds, intermediates, results := SlvRounds(maxRounds, false);
      solved := result == Ipasir.Sat;
    }

    /**
     * `slv` as written: the activation literal is cleaned after every
     * solve, the satisfiable one included, which adds a clause and so
     * leaves the SAT state before `printSolution` queries the model.
     */
    method SlvAsWritten(maxRounds: nat)
      returns (solved: bool, ghost rounds: nat, ghost intermediates: seq<Ipasir.SolveResult>, ghost results: seq<Ipasir.SolveResult>)
      requires Valid()
      modifies this`manager, this`makeSpan, this`solveResult, base`timePoints, base`requests
      modifies base.solver`state, base.solver`log, base.solver`model, base.solver`failedAssumptions
      modifies base.solver`terminate, base.solver`learn, base.solver`learnMaxLength
      ensures Valid() && Initialized()
      ensures |intermediates| == |results| == rounds <= maxRounds
      ensures base.requests == SlvHistory(old(base.requests) + ([ResetReq] + InitialRequests(problem, options)),
                                          problem, options, intermediates, results, true)
      ensures manager == AfterRounds(options, rounds).0
      ensures makeSpan == if rounds == 0 then 0 else StepToMakespan(options, rounds - 1)
      ensures forall i :: 0 <= i < rounds - 1 ==> results[i] != Ipasir.Sat
      ensures solved <==> rounds > 0 && results[rounds - 1] == Ipasir.Sat
      ensures solved <==> solveResult == Ipasir.Sat
      ensures solved && options.cleanLiteral ==> base.solver.state == Ipasir.InputState
      ensures solved && !options.cleanLiteral ==> base.solver.state == Ipasir.SatState
      ensures !solved ==> rounds == maxRounds
    {
      var result;
      ghost var last;
      result, last, rounds, intermediates, results := SlvRounds(maxRounds, true);
      solved := result == Ipasir.Sat;
    }

    /**
     * The body of `slv`: `initialize`, the loop of rounds, and the outcome
     * of the last round stored in `solveResult` (`cleanAfterSat` selects
     * the source as written).
     */
    method SlvRounds(maxRounds: nat, cleanAfterSat: bool)
      returns (result: Ipasir.SolveResult, ghost last: TimePoint, ghost rounds: nat,
               ghost intermediates: seq<Ipasir.SolveResult>, ghost results: seq<Ipasir.SolveResult>)
      requires Valid()
      modifies this`manager, this`makeSpan, this`solveResult, base`timePoints, base`requests
      modifies base.solver`state, base.solver`log, base.solver`model, base.solver`failedAssumptions
      modifies base.solver`terminate, base.solver`learn, base.solver`learnMaxLength
      ensures Valid() && Initialized()
      ensures |intermediates| == |results| == rounds <= maxRounds
      ensures base.requests == SlvHistory(old(base.requests) + ([ResetReq] + InitialRequests(problem, options)),
                                          problem, options, intermediates, results, cleanAfterSat)
      ensures manager == AfterRounds(options, rounds).0
      ensures makeSpan == if rounds == 0 then 0 else StepToMakespan(options, rounds - 1)
      ensures forall i :: 0 <= i < rounds - 1 ==> results[i] != Ipasir.Sat
      ensures result == Ipasir.Sat <==> rounds > 0 && results[rounds - 1] == Ipasir.Sat
      ensures solveResult == result && (result != Ipasir.Sat ==> rounds == maxRounds)
      ensures result == Ipasir.Sat ==>
                base.solver.state == if CleansAfter(options, result, cleanAfterSat) then Ipasir.InputState else Ipasir.SatState
    {
      var e, start := SlvStart(cleanAfterSat);
      var e';
      result, e', rounds, intermediates, results := SlvLoop(maxRounds, e, cleanAfterSat, start);
      last := e';
      SlvFinish(result, last, rounds, start, intermediates, results, cleanAfterSat);
      SlvOutcome(result, last, rounds, start, intermediates, results, cleanAfterSat);
    }

    /** What the loop of `slv` leaves behind, read off `SlvSoFar`. */
    lemma SlvOutcome(result: Ipasir.SolveResult, last: TimePoint, rounds: nat, start: seq<Request>,
                     intermediates: seq<Ipasir.SolveResult>, results: seq<Ipasir.SolveResult>, cleanAfterSat: bool)
      requires SlvSoFar(rounds, last, start, intermediates, results, result, cleanAfterSat)
      ensures Valid() && Initialized()
      ensures |intermediates| == |results| == rounds
      ensures base.requests == SlvHistory(start, problem, options, intermediates, results, cleanAfterSat)
      ensures manager == AfterRounds(options, rounds).0
      ensures makeSpan == if rounds == 0 then 0 else StepToMakespan(options, rounds - 1)
      ensures forall i :: 0 <= i < rounds - 1 ==> results[i] != Ipasir.Sat
      ensures result == Ipasir.Sat <==> rounds > 0 && results[rounds - 1] == Ipasir.Sat
    {
      RoundsSoFarOutcome(results, result);
      AfterRoundsSpan(options, rounds);
    }

    /** `initialize`, as the start of the loop of `slv`. */
    method SlvStart(cleanAfterSat: bool) returns (e: TimePoint, ghost start: seq<Request>)
      requires Valid()
      modifies this`manager, this`makeSpan, base`timePoints, base`requests
      modifies base.solver`state, base.solver`log, base.solver`terminate, base.solver`learn, base.solver`learnMaxLength
      ensures SlvSoFar(0, e, start, [], [], Ipasir.Unsat, cleanAfterSat) && makeSpan == 0
      ensures start == old(base.requests) + ([ResetReq] + InitialRequests(problem, options))
    {
      e := Initialize();
      start := base.requests;
    }

    /** The end of `slv`: the outcome of the last round becomes `solveResult`. */
    method SlvFinish(result: Ipasir.SolveResult, ghost last: TimePoint, ghost rounds: nat, ghost start: seq<Request>,
                     ghost intermediates: seq<Ipasir.SolveResult>, ghost results: seq<Ipasir.SolveResult>,
                     ghost cleanAfterSat: bool)
      requires SlvSoFar(rounds, last, start, intermediates, results, result, cleanAfterSat)
      modifies this`solveResult
      ensures SlvSoFar(rounds, last, start, intermediates, results, result, cleanAfterSat)
      ensures solveResult == result
    {
      solveResult := result;
    }

    /**
     * The loop of `slv`, after `initialize` returned `e0` and left the
     * request history at `start`: rounds until one is satisfiable or
     * `maxRounds` rounds are done (`cleanAfterSat` selects the source as
     * written).
     */
    method SlvLoop(maxRounds: nat, e0: TimePoint, cleanAfterSat: bool, ghost start: seq<Request>)
      returns (result: Ipasir.SolveResult, last: TimePoint, ghost rounds: nat,
               ghost intermediates: seq<Ipasir.SolveResult>, ghost results: seq<Ipasir.SolveResult>)
      requires SlvSoFar(0, e0, start, [], [], Ipasir.Unsat, cleanAfterSat)
      modifies this`manager, this`makeSpan, base`timePoints, base`requests
      modifies base.solver`state, base.solver`log, base.solver`model, base.solver`failedAssumptions
      modifies base.solver`terminate, base.solver`learn, base.solver`learnMaxLength
      ensures SlvSoFar(rounds, last, start, intermediates, results, result, cleanAfterSat)
      ensures rounds <= maxRounds && (result != Ipasir.Sat ==> rounds == maxRounds)
      ensures result == Ipasir.Sat ==>
                base.solver.state == if CleansAfter(options, result, cleanAfterSat) then Ipasir.InputState else Ipasir.SatState
    {
      var step := 0;
      last := e0;
      intermediates, results := [], [];
      result := Ipasir.Unsat;
      while result != Ipasir.Sat && step < maxRounds
        invariant step <= maxRounds && SlvSoFar(step, last, start, intermediates, results, result, cleanAfterSat)
        invariant result == Ipasir.Sat ==>
                    base.solver.state == if CleansAfter(options, result, cleanAfterSat) then Ipasir.InputState else Ipasir.SatState
        decreases maxRounds - step
      {
        result, last, intermediates, results := SlvTurn(step, last, cleanAfterSat, start, intermediates, results, result);
        step := step + 1;
      }
      rounds := step;
    }

    /**
     * The loop of `slv` has run `step` rounds since `initialize` left the
     * request history at `start`, `result` is the outcome of the last
     * round, and `e` is the point inserted last.
     */
    ghost predicate SlvSoFar(step: nat, e: TimePoint, start: seq<Request>, intermediates: seq<Ipasir.SolveResult>,
                             results: seq<Ipasir.SolveResult>, result: Ipasir.SolveResult, cleanAfterSat: bool)
      reads this, base, base.solver
    {
      Valid() && Initialized()
      && |intermediates| == |results| == step && RoundsSoFar(results, result)
      && (manager, e) == AfterRounds(options, step)
      && base.requests == SlvHistory(start, problem, options, intermediates, results, cleanAfterSat)
    }

    /**
     * One turn of the loop of `slv`: a round, then the clean clause when
     * `CleansAfter` says so (`cleanAfterSat` selects the source as written).
     */
    method SlvTurn(step: nat, e: TimePoint, cleanAfterSat: bool, ghost start: seq<Request>,
                   ghost intermediates: seq<Ipasir.SolveResult>, ghost results: seq<Ipasir.SolveResult>,
                   ghost previous: Ipasir.SolveResult)
      returns (result: Ipasir.SolveResult, last: TimePoint,
               ghost intermediates': seq<Ipasir.SolveResult>, ghost results': seq<Ipasir.SolveResult>)
      requires SlvSoFar(step, e, start, intermediates, results, previous, cleanAfterSat) && previous != Ipasir.Sat
      modifies this`manager, this`makeSpan, base`timePoints, base`requests
      modifies base.solver`state, base.solver`log, base.solver`model, base.solver`failedAssumptions
      modifies base.solver`terminate, base.solver`learn, base.solver`learnMaxLength
      ensures SlvSoFar(step + 1, last, start, intermediates', results', result, cleanAfterSat)
      ensures results' == results + [result]
      ensures CleansAfter(options, result, cleanAfterSat) ==> base.solver.state == Ipasir.InputState
      ensures !CleansAfter(options, result, cleanAfterSat) ==> base.solver.state == Ipasir.StateAfterSolve(result)
    {
      ghost var intermediate;
      result, last, intermediate := RoundAndClean(step, e, cleanAfterSat);
      SlvHistoryStep(start, problem, options, intermediates, results, cleanAfterSat, intermediate, result, old(manager), e, last);
      intermediates' := intermediates + [intermediate];
      results' := results + [result];
      RoundsSoFarStep(results, previous, result);
    }

    /** A round of `slv` and the clean clause after it, when `CleansAfter` says so. */
    method RoundAndClean(step: nat, e: TimePoint, cleanAfterSat: bool)
      returns (result: Ipasir.SolveResult, last: TimePoint, ghost intermediate: Ipasir.SolveResult)
      requires Valid() && Initialized() && (manager, e) == AfterRounds(options, step)
      modifies this`manager, this`makeSpan, base`timePoints, base`requests
      modifies base.solver`state, base.solver`log, base.solver`model, base.solver`failedAssumptions
      modifies base.solver`terminate, base.solver`learn, base.solver`learnMaxLength
      ensures Valid() && Initialized() && (manager, last) == AfterRounds(options, step + 1)
      ensures var rounds := old(base.requests) + RoundRequests(problem, options, old(manager), e, step, intermediate, result);
              base.requests == if CleansAfter(options, result, cleanAfterSat) then rounds + CleanRequests(last) else rounds
      ensures CleansAfter(options, result, cleanAfterSat) ==> base.solver.state == Ipasir.InputState
      ensures !CleansAfter(options, result, cleanAfterSat) ==> base.solver.state == Ipasir.StateAfterSolve(result)
    {
      result, last, intermediate := Round(step, e);
      CleanAfterRound(result, last, cleanAfterSat);
    }

    /** The clean clause after a round, when `CleansAfter` says so. */
    method CleanAfterRound(result: Ipasir.SolveResult, last: TimePoint, cleanAfterSat: bool)
      requires Valid()
      modifies base`timePoints, base`requests, base.solver`state, base.solver`log
      ensures Valid()
      ensures CleansAfter(options, result, cleanAfterSat) ==>
                base.requests == old(base.requests) + CleanRequests(last) && base.solver.state == Ipasir.InputState
      ensures !CleansAfter(options, result, cleanAfterSat) ==>
                base.requests == old(base.requests) && base.solver.state == old(base.solver.state)
    {
      if options.cleanLiteral && (cleanAfterSat || result != Ipasir.Sat) {
        Clean(last);
      }
    }

    /** `solve` followed by `printSolution`, as `incplan_main` runs them. */
    method SolveAndPrint(maxRounds: nat) returns (solved: bool, out: Output, ghost rounds: nat, ghost points: seq<TimePoint>)
      requires Valid()
      modifies this`manager, this`makeSpan, this`finalMakeSpan, this`solveResult, base`timePoints, base`requests
      modifies base.solver`state, base.solver`log, base.solver`model, base.solver`failedAssumptions
      modifies base.solver`terminate, base.solver`learn, base.solver`learnMaxLength
      ensures solved <==> out.Solution?
      ensures rounds <= maxRounds && (solved ==> rounds > 0) && (!solved ==> rounds == maxRounds)
      ensures out.Solution? ==>
                var m := AfterRounds(options, rounds).0;
                out.literalsPerTime == problem.literalsPerTime
                && out.steps == |out.rows| == StepToMakespan(options, rounds - 1) + 1
                && points == Visit(m, First(m))
                && PrintedRows(DriverLayout(problem, options), base.solver.model, base.timePoints, options.normalOutput, out.rows, points)
                && forall k :: 0 <= k < |out.rows| ==> |out.rows[k]| == problem.literalsPerTime
    {
      ghost var intermediates, results;
      solved, rounds, intermediates, results := Solve(maxRounds);
      out, points := PrintSolution();
      if out.Solution? {
        PrintedRowsWidth(base.GetLayout(), base.solver.model, base.timePoints, options.normalOutput, out.rows, points);
      }
    }

    /** `solve`: runs `slv` and records the makespan reached. */
    method Solve(maxRounds: nat)
      returns (solved: bool, ghost rounds: nat, ghost intermediates: seq<Ipasir.SolveResult>, ghost results: seq<Ipasir.SolveResult>)
      requires Valid()
      modifies this`manager, this`makeSpan, this`finalMakeSpan, this`solveResult, base`timePoints, base`requests
      modifies base.solver`state, base.solver`log, base.solver`model, base.solver`failedAssumptions
      modifies base.solver`terminate, base.solver`learn, base.solver`learnMaxLength
      ensures Valid() && Initialized() && finalMakeSpan == makeSpan
      ensures |intermediates| == |results| == rounds <= maxRounds
      ensures base.requests == SlvHistory(old(base.requests) + ([ResetReq] + InitialRequests(problem, options)),
                                          problem, options, intermediates, results, false)
      ensures manager == AfterRounds(options, rounds).0
      ensures makeSpan == if rounds == 0 then 0 else StepToMakespan(options, rounds - 1)
      ensures forall i :: 0 <= i < rounds - 1 ==> results[i] != Ipasir.Sat
      ensures solved <==> rounds > 0 && results[rounds - 1] == Ipasir.Sat
      ensures solved <==> solveResult == Ipasir.Sat
      ensures solved ==> base.solver.state == Ipasir.SatState
      ensures !solved ==> rounds == maxRounds
    {
      solved, rounds, intermediates, results := Slv(maxRounds);
      RecordMakespan();
    }

    /** The last step of `solve`: the makespan reached is kept for `printSolution`. */
    method RecordMakespan()
      requires Valid() && Initialized()
      modifies this`finalMakeSpan
      ensures Valid() && Initialized() && finalMakeSpan == makeSpan
    {
      finalMakeSpan := makeSpan;
    }

    /**
     * `printSolution`: after a satisfiable solve, the header and one row
     * per step of the timeline, from the initial to the goal point; the
     * traversal also stops once the last step is printed.
     */
    method PrintSolution() returns (out: Output, ghost points: seq<TimePoint>)
      requires Valid() && Initialized()
      requires solveResult == Ipasir.Sat ==> base.solver.state == Ipasir.SatState
      modifies base`timePoints, base`requests, base.solver`log
      ensures Valid()
      ensures solveResult != Ipasir.Sat ==> out == NoSolution
      ensures solveResult == Ipasir.Sat ==>
                out.Solution? && out.literalsPerTime == problem.literalsPerTime && out.steps == finalMakeSpan + 1
                && points == Visit(manager, First(manager)) && |points| == makeSpan + 1
                && Printed(out.rows, points)
    {
      if solveResult != Ipasir.Sat {
        return NoSolution, [];
      }
      var n := problem.literalsPerTime;
      var t := First(manager);
      var time := 0;
      var rows: seq<seq<int>> := [];
      points := [];
      while true
        invariant Printing(rows, points, t, time)
        decreases Span(manager) - time
      {
        var done;
        rows, points, done, t, time := PrintAdvance(rows, points, t, time);
        if done {
          break;
        }
      }
      out := Solution(n, finalMakeSpan + 1, rows);
    }

    /** The outer loop of `printSolution` has reached `t` as step `time`, with the rows of the earlier points printed. */
    ghost predicate Printing(rows: seq<seq<int>>, points: seq<TimePoint>, t: TimePoint, time: nat)
      reads this, base, base.solver
    {
      Valid() && base.solver.state == Ipasir.SatState
      && OnTimeline(manager, t) && Rank(manager, t) == time && time <= Span(manager)
      && points + Visit(manager, t) == Visit(manager, First(manager))
      && Printed(rows, points)
    }

    /**
     * One iteration of the outer loop of `printSolution`: prints the row of
     * `t`, then either stops at the end of the timeline or moves to the
     * successor of `t`.
     */
    method PrintAdvance(rows: seq<seq<int>>, ghost points: seq<TimePoint>, t: TimePoint, time: nat)
      returns (rows': seq<seq<int>>, ghost points': seq<TimePoint>, done: bool, t': TimePoint, time': nat)
      requires Printing(rows, points, t, time)
      modifies base`timePoints, base`requests, base.solver`log
      ensures Valid() && base.solver.state == Ipasir.SatState && Printed(rows', points')
      ensures done ==> points' == Visit(manager, First(manager))
      ensures !done ==> time' == time + 1 && Printing(rows', points', t', time')
    {
      rows', points' := PrintStep(rows, points, t);
      if t == Last(manager) || Rank(manager, t) == Span(manager) {
        assert Visit(manager, t) == [t];
        return rows', points', true, t, time;
      }
      t' := Successor(manager, t).value;
      assert Visit(manager, t) == [t] + Visit(manager, t');
      AppendPoints(points, t, Visit(manager, t'));
      time' := time + 1;
      done := false;
    }

    /** The rows printed so far, one per visited point, as the model gives them. */
    ghost predicate Printed(rows: seq<seq<int>>, points: seq<TimePoint>)
      reads this, base, base.solver
    {
      base.Valid()
      && PrintedRows(base.GetLayout(), base.solver.model, base.timePoints, options.normalOutput, rows, points)
      && (problem.literalsPerTime > 0 ==> forall k :: 0 <= k < |points| ==> points[k] in base.timePoints)
    }

    /** One step of the outer loop of `printSolution`: the row of `t`, printed after those of `points`. */
    method PrintStep(rows: seq<seq<int>>, ghost points: seq<TimePoint>, t: TimePoint) returns (rows': seq<seq<int>>, ghost points': seq<TimePoint>)
      requires Valid() && base.solver.state == Ipasir.SatState
      requires Printed(rows, points)
      modifies base`timePoints, base`requests, base.solver`log
      ensures Valid() && base.solver.state == Ipasir.SatState
      ensures points' == points + [t] && |rows'| == |rows| + 1 && rows'[..|rows|] == rows
      ensures Printed(rows', points')
    {
      var row := PrintRow(t, |rows|);
      rows' := rows + [row];
      points' := points + [t];
      forall k | 0 <= k < |points'|
        ensures rows'[k] == PrintedRow(base.GetLayout(), base.solver.model, IndexOf(base.timePoints, points'[k]), k, options.normalOutput)
      {
        if k < |points| && problem.literalsPerTime > 0 {
          assert points'[k] in old(base.timePoints);
        }
      }
    }

    /** The inner loop of `printSolution`: the values of variables 1..n at `t`, shown for step `time`. */
    method PrintRow(t: TimePoint, time: nat) returns (row: seq<int>)
      requires Valid() && base.solver.state == Ipasir.SatState
      modifies base`timePoints, base`requests, base.solver`log
      ensures Valid() && base.solver.state == Ipasir.SatState
      ensures base.requests == old(base.requests) + ValueRequests(t, problem.literalsPerTime)
      ensures base.timePoints == if problem.literalsPerTime == 0 then old(base.timePoints) else Register(old(base.timePoints), t)
      ensures row == PrintedRow(base.GetLayout(), base.solver.model, IndexOf(old(base.timePoints), t), time, options.normalOutput)
    {
      ghost var slot := IndexOf(base.timePoints, t);
      row := [];
      for j := 1 to problem.literalsPerTime + 1
        invariant RowSoFar(row, j - 1, t, time, slot, old(base.requests), old(base.timePoints))
      {
        row := PrintRowStep(row, j, t, time, slot, old(base.requests), old(base.timePoints));
      }
    }

    /**
     * The state after the first `count` turns of the inner loop of
     * `printSolution`, which started with `before` and `points0`.
     */
    ghost predicate RowSoFar(row: seq<int>, count: nat, t: TimePoint, time: nat, slot: int,
                             before: seq<Request>, points0: map<TimePoint, int>)
      reads this, base, base.solver
    {
      Valid() && base.solver.state == Ipasir.SatState && SlotsInRange(points0)
      && slot == IndexOf(points0, t)
      && base.requests == before + ValueRequests(t, count)
      && base.timePoints == (if count == 0 then points0 else Register(points0, t))
      && row == RowPrefix(base.GetLayout(), base.solver.model, slot, time, options.normalOutput, count)
    }

    /** One turn of the inner loop of `printSolution`: appends the entry of variable `j`. */
    method PrintRowStep(row: seq<int>, j: int, t: TimePoint, time: nat, ghost slot: int,
                        ghost before: seq<Request>, ghost points0: map<TimePoint, int>)
      returns (row': seq<int>)
      requires 1 <= j && RowSoFar(row, j - 1, t, time, slot, before, points0)
      modifies base`timePoints, base`requests, base.solver`log
      ensures RowSoFar(row', j, t, time, slot, before, points0)
    {
      assert IndexOf(base.timePoints, t) == slot;
      var val := PrintEntry(j, t, time);
      AppendAssoc(before, ValueRequests(t, j - 1), [ValueLit(Lit(j, t, Problem))]);
      row' := row + [val];
    }

    /** One value of the inner loop of `printSolution`: variable `j` at `t`, offset for step `time` when requested. */
    method PrintEntry(j: int, t: TimePoint, time: nat) returns (val: int)
      requires Valid() && base.solver.state == Ipasir.SatState
      modifies base`timePoints, base`requests, base.solver`log
      ensures Valid() && base.solver.state == Ipasir.SatState
      ensures base.requests == old(base.requests) + [ValueLit(Lit(j, t, Problem))]
      ensures base.timePoints == TableAfterOne(old(base.timePoints), ValueLit(Lit(j, t, Problem)))
      ensures val == PrintedEntry(base.GetLayout(), base.solver.model, IndexOf(old(base.timePoints), t), j, time, options.normalOutput)
    {
      val := base.ValueProblemLiteral(j, t);
      if options.normalOutput {
        var offset := time * problem.literalsPerTime;
        if val < 0 {
          offset := -offset;
        }
        val := val + offset;
      }
    }
  }
}
