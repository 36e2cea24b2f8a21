/**
 * What the planning driver asks the encoder for, as pure functions.
 *
 * The driver turns a planning problem (initial, invariant, goal and
 * transfer clauses in DIMACS style, each clause terminated by 0, over
 * `n` variables per time step) into requests on the time-point based
 * encoder.  The functions here compute those request sequences; the
 * driver class in module Incplan emits them and is proved to emit exactly
 * these.  The lemmas state what the requests mean.
 */
module IncplanEncoding {

  import opened Wrappers
  import opened TimeSlotMapping
  import opened TimePointBased

  /** The four clause sets of a planning problem and its number of variables per time step. */
  datatype PlanningProblem = PlanningProblem(
    initial: seq<int>,
    invariants: seq<int>,
    goal: seq<int>,
    transfer: seq<int>,
    literalsPerTime: nat)

  /** The command-line switches the encoding depends on. */
  datatype Options = Options(
    unitInGoal2Assume: bool,
    solveBeforeGoalClauses: bool,
    nonIncrementalSolving: bool,
    normalOutput: bool,
    singleEnded: bool,
    cleanLiteral: bool,
    icaps2017Version: bool,
    ratio: Ratio,
    linearStepSize: nat)

  /** Non-incremental solving rebuilds the formula every round and only works single-ended. */
  function EffectiveOptions(o: Options): (r: Options)
    ensures r.singleEnded <==> o.singleEnded || o.nonIncrementalSolving
    ensures r.(singleEnded := o.singleEnded) == o
  {
    if o.nonIncrementalSolving then o.(singleEnded := true) else o
  }

  /** The makespan targeted in round `step`: the linear schedule l * step. */
  function StepToMakespan(o: Options, step: nat): (r: nat)
  {
    o.linearStepSize * step
  }

  lemma StepToMakespanMonotone(o: Options, s1: nat, s2: nat)
    requires s1 <= s2
    ensures StepToMakespan(o, s1) <= StepToMakespan(o, s2)
    ensures StepToMakespan(o, s2) - StepToMakespan(o, s1) == o.linearStepSize * (s2 - s1)
  {
    assert o.linearStepSize * s2 == o.linearStepSize * s1 + o.linearStepSize * (s2 - s1);
    MulNonNegative(o.linearStepSize, s2 - s1);
  }

  /** The helper variable that switches the goal or link clauses of a round on. */
  const ActivationLiteral: int := 1

  /** Solver variables are laid out per slot, helpers after problem variables unless the icaps2017 layout is chosen. */
  function DriverLayout(p: PlanningProblem, o: Options): (r: Layout)
    ensures r.varsPerTime == p.literalsPerTime && r.helperPerTime == 1
    ensures r.position == AllBefore <==> o.icaps2017Version
    ensures r.position != SingleBefore
  {
    Layout(p.literalsPerTime, 1, if o.icaps2017Version then AllBefore else SingleAfter)
  }

  // ---------------------------------------------------------------------
  // Header rule
  // ---------------------------------------------------------------------

  datatype HeaderError = NotCnf | WrongType | UnknownType | WrongLiteralCount

  /**
   * Checks a section header `<type> cnf <literals> <clauses>` against the
   * expected section.  `known` is the number of variables per time step
   * fixed so far (0 before the first header); the result is the number
   * fixed afterwards.
   */
  function CheckHeader(known: nat, expected: char, kind: char, word: string, literals: nat): (r: Result<nat, HeaderError>)
    ensures r.Ok? <==>
              word == "cnf" && kind == expected && kind in "iugt"
              && (known == 0 || literals == known || (kind == 't' && literals == 2 * known))
    ensures r.Ok? && known == 0 ==> r.value == literals
    ensures r.Ok? && known != 0 ==> r.value == known
    ensures r.Err? && word != "cnf" ==> r.error == NotCnf
  {
    if word != "cnf" then Err(NotCnf)
    else if kind != expected then Err(WrongType)
    else if kind !in "iugt" then Err(UnknownType)
    else if known == 0 then Ok(literals)
    else if literals != known && (kind != 't' || literals != 2 * known) then Err(WrongLiteralCount)
    else Ok(known)
  }

  /** The headers of the four sections, in file order. */
  datatype Header = Header(kind: char, word: string, literals: nat)

  /** The number of variables per time step the four headers i, u, g, t fix, or the first error. */
  function CheckHeaders(hs: seq<Header>): (r: Result<nat, HeaderError>)
    requires |hs| == 4
    ensures r.Ok? ==> hs[0].kind == 'i' && hs[1].kind == 'u' && hs[2].kind == 'g' && hs[3].kind == 't'
    ensures r.Ok? ==> forall k :: 0 <= k < 4 ==> hs[k].word == "cnf"
    ensures r.Ok? && hs[0].literals != 0 ==> r.value == hs[0].literals
    ensures r.Err? && hs[0].word != "cnf" ==> r.error == NotCnf
  {
    var a := CheckHeader(0, 'i', hs[0].kind, hs[0].word, hs[0].literals);
    if a.Err? then a else
    var b := CheckHeader(a.value, 'u', hs[1].kind, hs[1].word, hs[1].literals);
    if b.Err? then b else
    var c := CheckHeader(b.value, 'g', hs[2].kind, hs[2].word, hs[2].literals);
    if c.Err? then c else
    CheckHeader(c.value, 't', hs[3].kind, hs[3].word, hs[3].literals)
  }

  /**
   * With a non-zero count in the first header, a file is accepted exactly
   * when every later header repeats it, the transfer section possibly
   * doubling it.
   */
  lemma HeadersFixCount(hs: seq<Header>)
    requires |hs| == 4 && hs[0].literals > 0
    requires forall i :: 0 <= i < 4 ==> hs[i].word == "cnf"
    requires hs[0].kind == 'i' && hs[1].kind == 'u' && hs[2].kind == 'g' && hs[3].kind == 't'
    ensures CheckHeaders(hs).Ok? <==>
              hs[1].literals == hs[0].literals && hs[2].literals == hs[0].literals
              && (hs[3].literals == hs[0].literals || hs[3].literals == 2 * hs[0].literals)
    ensures CheckHeaders(hs).Ok? ==> CheckHeaders(hs).value == hs[0].literals
  {
    assert hs[0].word == "cnf" && hs[1].word == "cnf" && hs[2].word == "cnf" && hs[3].word == "cnf";
  }

  // ---------------------------------------------------------------------
  // Clause requests
  // ---------------------------------------------------------------------

  /** One problem literal (or terminator 0) of a clause set, at `t`. */
  function ProblemLit(l: int, t: TimePoint): Request
  {
    AddLit(Lit(l, t, Problem))
  }

  /** The requests for a clause set placed at one time point. */
  function ProblemRequests(lits: seq<int>, t: TimePoint): (r: seq<Request>)
    ensures |r| == |lits|
    ensures forall i :: 0 <= i < |lits| ==> r[i] == ProblemLit(lits[i], t)
  {
    if lits == [] then [] else ProblemRequests(lits[..|lits| - 1], t) + [ProblemLit(lits[|lits| - 1], t)]
  }

  /** Whether a template literal of the transfer relation speaks about the source step. */
  predicate IsSourceLiteral(n: nat, l: int)
  {
    Abs(l) <= n
  }

  function Abs(l: int): nat
  {
    if l < 0 then -l else l
  }

  /** A literal of the destination step, shifted towards zero into the per-step range. */
  function ShiftDown(n: nat, l: int): int
  {
    if l > 0 then l - n else l + n
  }

  /** The request one transfer template literal becomes. */
  function TransferLit(n: nat, l: int, source: TimePoint, destination: TimePoint): (r: Request)
    ensures r.AddLit? && r.l.kind == Problem
    ensures IsSourceLiteral(n, l) ==> r.l == Lit(l, source, Problem)
    ensures !IsSourceLiteral(n, l) ==> r.l.t == destination && r.l.lit != 0
    ensures !IsSourceLiteral(n, l) ==> (r.l.lit > 0 <==> l > 0) && Abs(l) == Abs(r.l.lit) + n
  {
    if IsSourceLiteral(n, l) then ProblemLit(l, source) else ProblemLit(ShiftDown(n, l), destination)
  }

  /** The requests for the transfer clauses between two consecutive points. */
  function TransferRequests(n: nat, lits: seq<int>, source: TimePoint, destination: TimePoint): (r: seq<Request>)
    ensures |r| == |lits|
    ensures forall i :: 0 <= i < |lits| ==> r[i] == TransferLit(n, lits[i], source, destination)
  {
    if lits == [] then []
    else TransferRequests(n, lits[..|lits| - 1], source, destination) + [TransferLit(n, lits[|lits| - 1], source, destination)]
  }

  lemma TransferRequestsStep(n: nat, lits: seq<int>, i: int, source: TimePoint, destination: TimePoint)
    requires 0 <= i < |lits|
    ensures TransferRequests(n, lits[..i + 1], source, destination)
            == TransferRequests(n, lits[..i], source, destination) + [TransferLit(n, lits[i], source, destination)]
  {
    assert lits[..i + 1][..i] == lits[..i];
  }

  /** Recovers the template literal from a transfer request: destination literals are shifted back. */
  function Untransfer(n: nat, req: Request, destination: TimePoint): int
    requires req.AddLit?
  {
    var l := req.l.lit;
    if req.l.t == destination then (if l > 0 then l + n else l - n) else l
  }

  /** The transfer requests keep the whole template: it can be read back from them. */
  lemma TransferRoundTrip(n: nat, lits: seq<int>, source: TimePoint, destination: TimePoint, i: int)
    requires source != destination && 0 <= i < |lits|
    ensures Untransfer(n, TransferRequests(n, lits, source, destination)[i], destination) == lits[i]
  {
  }

  /** A transfer template over 2n variables produces only literals of the per-step range. */
  lemma TransferInRange(n: nat, lits: seq<int>, source: TimePoint, destination: TimePoint)
    requires forall i :: 0 <= i < |lits| ==> Abs(lits[i]) <= 2 * n
    ensures forall i :: 0 <= i < |lits| ==>
              var r := TransferRequests(n, lits, source, destination)[i].l.lit;
              Abs(r) <= n && (r == 0 <==> lits[i] == 0)
  {
  }

  // ---------------------------------------------------------------------
  // Goal clauses
  // ---------------------------------------------------------------------

  /** A goal clause set in DIMACS form: empty, or its last entry terminates a clause. */
  predicate WellTerminated(lits: seq<int>)
  {
    lits == [] || lits[|lits| - 1] == 0
  }

  /**
   * Whether `goal[i]` is the literal of a unit clause, to be assumed
   * rather than added.  As written, position 0 only looks at its
   * successor, so a leading empty clause `0 0` also counts as a unit.
   */
  predicate IsUnitGoal(goal: seq<int>, i: nat, unitInGoal2Assume: bool)
    requires i < |goal| && (unitInGoal2Assume ==> WellTerminated(goal))
    requires unitInGoal2Assume && i == 0 ==> |goal| >= 2
  {
    if !unitInGoal2Assume then false
    else if i == 0 then goal[1] == 0
    else if goal[i] == 0 then false
    else i + 1 < |goal| && goal[i + 1] == 0 && goal[i - 1] == 0
  }

  lemma IsUnitGoalMeaning(goal: seq<int>, i: nat, u: bool)
    requires i < |goal| && (u ==> WellTerminated(goal))
    requires u && i == 0 ==> |goal| >= 2
    ensures !u ==> !IsUnitGoal(goal, i, u)
    ensures u && i > 0 ==>
              (IsUnitGoal(goal, i, u) <==> goal[i] != 0 && i + 1 < |goal| && goal[i + 1] == 0 && goal[i - 1] == 0)
    ensures u && i == 0 ==> (IsUnitGoal(goal, i, u) <==> goal[1] == 0)
    ensures IsUnitGoal(goal, i, u) ==> i + 1 < |goal| && goal[i + 1] == 0
  {
  }

  /**
   * The unit-goal rule also takes the empty clause `0 0` at the front for a
   * unit, so the goal's requests assume the literal 0, which IPASIR forbids.
   */
  lemma LeadingEmptyClauseIsUnit(t: TimePoint, guarded: bool)
    ensures IsUnitGoal([0, 0], 0, true)
    ensures GoalRequests([0, 0], t, guarded, true) == [AssumeLit(Lit(0, t, Problem))]
  {
  }

  /**
   * What the source can read when unit goals are assumed: the unit-goal
   * rule looks one past position 0, and it asserts that a non-zero entry
   * is followed by another one.
   */
  predicate GoalReadable(goal: seq<int>, unitInGoal2Assume: bool)
  {
    unitInGoal2Assume ==> WellTerminated(goal) && (goal != [] ==> |goal| >= 2)
  }

  /** The requests for goal entries `i..` at `t`; guarded clauses get `-act@t` before their 0. */
  function GoalFrom(goal: seq<int>, i: nat, t: TimePoint, guarded: bool, u: bool): (r: seq<Request>)
    requires GoalReadable(goal, u) && i <= |goal|
    decreases |goal| - i
  {
    if i == |goal| then []
    else if IsUnitGoal(goal, i, u) then [AssumeLit(Lit(goal[i], t, Problem))] + GoalFrom(goal, i + 2, t, guarded, u)
    else GoalStep(goal[i], t, guarded) + GoalFrom(goal, i + 1, t, guarded, u)
  }

  /** The requests for one goal entry that is not assumed. */
  function GoalStep(l: int, t: TimePoint, guarded: bool): (r: seq<Request>)
    ensures l == 0 && guarded ==> r == [AddLit(Lit(-ActivationLiteral, t, Helper)), ProblemLit(0, t)]
    ensures !(l == 0 && guarded) ==> r == [ProblemLit(l, t)]
  {
    if l == 0 && guarded then [AddLit(Lit(-ActivationLiteral, t, Helper)), ProblemLit(0, t)] else [ProblemLit(l, t)]
  }

  /** The requests for the goal entry at `i` alone: an assumption for a unit literal, otherwise `GoalStep`. */
  function GoalEntry(goal: seq<int>, i: nat, t: TimePoint, guarded: bool, u: bool): (r: seq<Request>)
    requires GoalReadable(goal, u) && i < |goal|
  {
    if IsUnitGoal(goal, i, u) then [AssumeLit(Lit(goal[i], t, Problem))] else GoalStep(goal[i], t, guarded)
  }

  /** The entry after the one at `i`: a unit literal's closing 0 is skipped. */
  function GoalNext(goal: seq<int>, i: nat, u: bool): (r: nat)
    requires GoalReadable(goal, u) && i < |goal|
    ensures i < r <= |goal|
  {
    if IsUnitGoal(goal, i, u) then i + 2 else i + 1
  }

  lemma GoalFromEntry(goal: seq<int>, i: nat, t: TimePoint, guarded: bool, u: bool)
    requires GoalReadable(goal, u) && i < |goal|
    ensures GoalFrom(goal, i, t, guarded, u) == GoalEntry(goal, i, t, guarded, u) + GoalFrom(goal, GoalNext(goal, i, u), t, guarded, u)
  {
  }

  function GoalRequests(goal: seq<int>, t: TimePoint, guarded: bool, u: bool): seq<Request>
    requires GoalReadable(goal, u)
  {
    GoalFrom(goal, 0, t, guarded, u)
  }

  /** The goal requests without the guard literals. */
  function Unguard(reqs: seq<Request>): (r: seq<Request>)
    ensures |r| <= |reqs|
  {
    if reqs == [] then []
    else (if reqs[0].AddLit? && reqs[0].l.kind == Helper then [] else [reqs[0]]) + Unguard(reqs[1..])
  }

  lemma {:induction false} UnguardConcat(a: seq<Request>, b: seq<Request>)
    ensures Unguard(a + b) == Unguard(a) + Unguard(b)
  {
    if a != [] {
      assert (a + b)[1..] == a[1..] + b;
      UnguardConcat(a[1..], b);
    } else {
      assert a + b == b;
    }
  }

  /** Removing the guards from the guarded goal gives the unguarded goal: the guard adds nothing else. */
  lemma {:induction false} GuardOnlyAddsActivation(goal: seq<int>, i: nat, t: TimePoint, u: bool)
    requires GoalReadable(goal, u) && i <= |goal|
    ensures Unguard(GoalFrom(goal, i, t, true, u)) == GoalFrom(goal, i, t, false, u)
    decreases |goal| - i
  {
    if i < |goal| {
      if IsUnitGoal(goal, i, u) {
        GuardOnlyAddsActivation(goal, i + 2, t, u);
        UnguardConcat([AssumeLit(Lit(goal[i], t, Problem))], GoalFrom(goal, i + 2, t, true, u));
      } else {
        GuardOnlyAddsActivation(goal, i + 1, t, u);
        UnguardConcat(GoalStep(goal[i], t, true), GoalFrom(goal, i + 1, t, true, u));
        UnguardStep(goal[i], t);
      }
    }
  }

  lemma UnguardStep(l: int, t: TimePoint)
    ensures Unguard(GoalStep(l, t, true)) == GoalStep(l, t, false)
  {
    if l == 0 {
      assert GoalStep(l, t, true)[1..] == [ProblemLit(0, t)];
    }
  }

  /** A problem literal 0 at `t`: the terminator of an added clause. */
  predicate IsTerminator(req: Request)
  {
    req.AddLit? && req.l.kind == Problem && req.l.lit == 0
  }

  /** In a guarded goal every added clause carries `-act@t` right before its terminating 0. */
  lemma {:induction false} GuardedClausesCarryActivation(goal: seq<int>, i: nat, t: TimePoint, u: bool, j: int)
    requires GoalReadable(goal, u) && i <= |goal|
    requires 0 <= j < |GoalFrom(goal, i, t, true, u)| && IsTerminator(GoalFrom(goal, i, t, true, u)[j])
    ensures j > 0 && GoalFrom(goal, i, t, true, u)[j - 1] == AddLit(Lit(-ActivationLiteral, t, Helper))
    decreases |goal| - i
  {
    var r := GoalFrom(goal, i, t, true, u);
    if IsUnitGoal(goal, i, u) {
      var rest := GoalFrom(goal, i + 2, t, true, u);
      assert r == [AssumeLit(Lit(goal[i], t, Problem))] + rest;
      assert j >= 1 && r[j] == rest[j - 1];
      GuardedClausesCarryActivation(goal, i + 2, t, u, j - 1);
      if j - 1 > 0 {
        assert r[j - 1] == rest[j - 2];
      } else {
        assert false;
      }
    } else {
      var step := GoalStep(goal[i], t, true);
      var rest := GoalFrom(goal, i + 1, t, true, u);
      assert r == step + rest;
      if j < |step| {
        assert goal[i] == 0 && j == 1;
      } else {
        assert r[j] == rest[j - |step|];
        GuardedClausesCarryActivation(goal, i + 1, t, u, j - |step|);
        if j - |step| > 0 {
          assert r[j - 1] == rest[j - |step| - 1];
        } else {
          assert false;
        }
      }
    }
  }

  /** Every goal request is placed at `t`. */
  lemma {:induction false} GoalAtOnePoint(goal: seq<int>, i: nat, t: TimePoint, g: bool, u: bool, j: int)
    requires GoalReadable(goal, u) && i <= |goal|
    requires 0 <= j < |GoalFrom(goal, i, t, g, u)|
    ensures (GoalFrom(goal, i, t, g, u)[j].AddLit? || GoalFrom(goal, i, t, g, u)[j].AssumeLit?) && GoalFrom(goal, i, t, g, u)[j].l.t == t
    decreases |goal| - i
  {
    if IsUnitGoal(goal, i, u) {
      if j > 0 {
        GoalAtOnePoint(goal, i + 2, t, g, u, j - 1);
      }
    } else {
      var step := GoalStep(goal[i], t, g);
      if j >= |step| {
        GoalAtOnePoint(goal, i + 1, t, g, u, j - |step|);
      }
    }
  }

  // ---------------------------------------------------------------------
  // Link clauses
  // ---------------------------------------------------------------------

  /** The two clauses that make variable `i` equal at `a` and `b` while `act@binding` holds. */
  function LinkPair(i: int, a: TimePoint, b: TimePoint, binding: TimePoint): seq<seq<Lit>>
  {
    [[Lit(-ActivationLiteral, binding, Helper), Lit(-i, a, Problem), Lit(i, b, Problem)],
     [Lit(-ActivationLiteral, binding, Helper), Lit(i, a, Problem), Lit(-i, b, Problem)]]
  }

  /** The link clauses for variables 1..k. */
  function LinkClauses(k: nat, a: TimePoint, b: TimePoint, binding: TimePoint): (r: seq<seq<Lit>>)
    ensures |r| == 2 * k
    ensures forall c :: c in r ==> |c| == 3
  {
    if k == 0 then [] else LinkClauses(k - 1, a, b, binding) + LinkPair(k, a, b, binding)
  }

  /** Requests adding each clause literal by literal, each closed by `finalizeClause`. */
  function ClauseRequests(cs: seq<seq<Lit>>): (r: seq<Request>)
  {
    if cs == [] then []
    else ClauseRequests(cs[..|cs| - 1]) + LitRequests(cs[|cs| - 1]) + [FinalizeClause]
  }

  function LitRequests(c: seq<Lit>): (r: seq<Request>)
    ensures |r| == |c|
    ensures forall i :: 0 <= i < |c| ==> r[i] == AddLit(c[i])
  {
    if c == [] then [] else LitRequests(c[..|c| - 1]) + [AddLit(c[|c| - 1])]
  }

  lemma {:induction false} ClauseRequestsConcat(x: seq<seq<Lit>>, y: seq<seq<Lit>>)
    ensures ClauseRequests(x + y) == ClauseRequests(x) + ClauseRequests(y)
  {
    if y == [] {
      assert x + y == x;
    } else {
      var init, last := y[..|y| - 1], y[|y| - 1];
      ClauseRequestsConcat(x, init);
      assert (x + y)[..|x + y| - 1] == x + init;
      assert (x + y)[|x + y| - 1] == last;
      RequestsAssoc(ClauseRequests(x), ClauseRequests(init), LitRequests(last), [FinalizeClause]);
    }
  }

  lemma RequestsAssoc(a: seq<Request>, b: seq<Request>, c: seq<Request>, d: seq<Request>)
    ensures a + b + c + d == a + (b + c + d)
  {
  }

  /** The eight requests for variable k, in the order `addLink` issues them. */
  function LinkPairRequests(k: int, a: TimePoint, b: TimePoint, binding: TimePoint): seq<Request>
  {
    [AddLit(Lit(-ActivationLiteral, binding, Helper)), ProblemLit(-k, a), ProblemLit(k, b), FinalizeClause,
     AddLit(Lit(-ActivationLiteral, binding, Helper)), ProblemLit(k, a), ProblemLit(-k, b), FinalizeClause]
  }

  /** The requests of `addLink` for variables 1..n. */
  function LinkRequests(n: nat, a: TimePoint, b: TimePoint, binding: TimePoint): (r: seq<Request>)
    ensures |r| == 8 * n
  {
    if n == 0 then [] else LinkRequests(n - 1, a, b, binding) + LinkPairRequests(n, a, b, binding)
  }

  lemma LinkPairAsClauses(k: int, a: TimePoint, b: TimePoint, binding: TimePoint)
    ensures ClauseRequests(LinkPair(k, a, b, binding)) == LinkPairRequests(k, a, b, binding)
  {
    var pair := LinkPair(k, a, b, binding);
    assert LitRequests(pair[0]) == [AddLit(pair[0][0]), AddLit(pair[0][1]), AddLit(pair[0][2])];
    assert LitRequests(pair[1]) == [AddLit(pair[1][0]), AddLit(pair[1][1]), AddLit(pair[1][2])];
    assert pair[..1] == [pair[0]] && [pair[0]][..0] == [];
    assert ClauseRequests([pair[0]]) == LitRequests(pair[0]) + [FinalizeClause];
    assert ClauseRequests(pair) == ClauseRequests([pair[0]]) + LitRequests(pair[1]) + [FinalizeClause];
  }

  /**
   * `addLink` issues exactly the 2n three-literal link clauses, each
   * added literal by literal and closed by `finalizeClause`.
   */
  lemma {:induction false} LinkRequestsAreClauses(n: nat, a: TimePoint, b: TimePoint, binding: TimePoint)
    ensures LinkRequests(n, a, b, binding) == ClauseRequests(LinkClauses(n, a, b, binding))
  {
    if n > 0 {
      LinkRequestsAreClauses(n - 1, a, b, binding);
      ClauseRequestsConcat(LinkClauses(n - 1, a, b, binding), LinkPair(n, a, b, binding));
      LinkPairAsClauses(n, a, b, binding);
    }
  }

  /** A truth value for every (variable, time point, kind). */
  type Assignment = (int, TimePoint, Kind) -> bool

  predicate LitTrue(asg: Assignment, l: Lit)
  {
    if l.lit > 0 then asg(l.lit, l.t, l.kind) else !asg(-l.lit, l.t, l.kind)
  }

  predicate ClauseSat(asg: Assignment, c: seq<Lit>)
  {
    exists i :: 0 <= i < |c| && LitTrue(asg, c[i])
  }

  predicate AllSat(asg: Assignment, cs: seq<seq<Lit>>)
  {
    forall j :: 0 <= j < |cs| ==> ClauseSat(asg, cs[j])
  }

  lemma AllSatConcat(asg: Assignment, x: seq<seq<Lit>>, y: seq<seq<Lit>>)
    ensures AllSat(asg, x + y) <==> AllSat(asg, x) && AllSat(asg, y)
  {
    if AllSat(asg, x + y) {
      assert forall j :: 0 <= j < |x| ==> (x + y)[j] == x[j];
      assert forall j :: 0 <= j < |y| ==> (x + y)[|x| + j] == y[j];
    }
  }

  /** The two clauses for variable k hold exactly when the activation literal is off or k agrees at a and b. */
  lemma PairMeaning(k: nat, a: TimePoint, b: TimePoint, binding: TimePoint, asg: Assignment)
    requires k >= 1
    ensures AllSat(asg, LinkPair(k, a, b, binding))
            <==> !asg(ActivationLiteral, binding, Helper) || asg(k, a, Problem) == asg(k, b, Problem)
  {
    var pair := LinkPair(k, a, b, binding);
    if !asg(ActivationLiteral, binding, Helper) {
      assert LitTrue(asg, pair[0][0]) && LitTrue(asg, pair[1][0]);
      assert ClauseSat(asg, pair[0]) && ClauseSat(asg, pair[1]);
    } else if asg(k, a, Problem) && asg(k, b, Problem) {
      assert LitTrue(asg, pair[0][2]) && LitTrue(asg, pair[1][1]);
      assert ClauseSat(asg, pair[0]) && ClauseSat(asg, pair[1]);
    } else if !asg(k, a, Problem) && !asg(k, b, Problem) {
      assert LitTrue(asg, pair[0][1]) && LitTrue(asg, pair[1][2]);
      assert ClauseSat(asg, pair[0]) && ClauseSat(asg, pair[1]);
    } else if asg(k, a, Problem) {
      assert !LitTrue(asg, pair[0][0]) && !LitTrue(asg, pair[0][1]) && !LitTrue(asg, pair[0][2]);
      assert !ClauseSat(asg, pair[0]);
    } else {
      assert !LitTrue(asg, pair[1][0]) && !LitTrue(asg, pair[1][1]) && !LitTrue(asg, pair[1][2]);
      assert !ClauseSat(asg, pair[1]);
    }
  }

  /**
   * The link clauses mean bit equality: with the activation literal on
   * they hold exactly when variables 1..k agree at `a` and `b`, and with
   * it off they always hold.
   */
  lemma {:induction false} LinkMeaning(k: nat, a: TimePoint, b: TimePoint, binding: TimePoint, asg: Assignment)
    ensures !asg(ActivationLiteral, binding, Helper) ==> AllSat(asg, LinkClauses(k, a, b, binding))
    ensures asg(ActivationLiteral, binding, Helper) ==>
              (AllSat(asg, LinkClauses(k, a, b, binding))
               <==> forall i :: 1 <= i <= k ==> asg(i, a, Problem) == asg(i, b, Problem))
  {
    if k > 0 {
      LinkMeaning(k - 1, a, b, binding, asg);
      AllSatConcat(asg, LinkClauses(k - 1, a, b, binding), LinkPair(k, a, b, binding));
      PairMeaning(k, a, b, binding, asg);
    }
  }

  // ---------------------------------------------------------------------
  // Where transfer and link clauses go
  // ---------------------------------------------------------------------

  /** The point acquired last by a manager that has grown past its seeds. */
  predicate Grown(m: Manager, e: TimePoint)
  {
    match m
    case SingleEnded(next) => next >= 2 && e == TimePoint(0, next - 1)
    case DoubleEnded(bt, et, _, _) =>
      bt >= 0 && et >= 0
      && ((e == TimePoint(FromBegin, bt) && bt >= 1) || (e == TimePoint(FromEnd, et) && et >= 1))
  }

  /** The point acquired last, including the seeds handed out by `initialize`. */
  predicate LastInserted(m: Manager, e: TimePoint)
  {
    Grown(m, e)
    || (m == SingleEnded(1) && e == TimePoint(0, 0))
    || (m.DoubleEnded? && m.beginTop == 0 && m.endTop == 0 && e == TimePoint(FromEnd, 0))
  }

  /** A manager whose seeds are handed out (one point single-ended, one per stack double-ended). */
  predicate Seeded(m: Manager)
  {
    match m
    case SingleEnded(next) => next >= 1
    case DoubleEnded(bt, et, _, _) => bt >= 0 && et >= 0
  }

  /** Once seeded, every acquisition grows the timeline and its point is the one acquired last. */
  lemma AcquireGrows(m: Manager)
    requires Reachable(m) && Seeded(m)
    ensures Seeded(AcquireNext(m).0) && Grown(AcquireNext(m).0, AcquireNext(m).1)
    ensures Span(AcquireNext(m).0) == Span(m) + 1
  {
  }

  /**
   * Transfer clauses for a new point go from its predecessor (forward
   * stack) or to its successor (backward stack).
   */
  function TransferEndpoints(m: Manager, e: TimePoint): (r: Result<(TimePoint, TimePoint), Failure>)
    requires Reachable(m)
  {
    if IsOnForwardStack(m, e) then
      match Predecessor(m, e)
      case Ok(p) => Ok((p, e))
      case Err(f) => Err(f)
    else
      match Successor(m, e)
      case Ok(s) => Ok((e, s))
      case Err(f) => Err(f)
  }

  /** Transfer clauses of a newly acquired point always run forward in time, from one step to the next. */
  lemma TransferGoesForward(m: Manager, e: TimePoint)
    requires Reachable(m) && Grown(m, e)
    ensures TransferEndpoints(m, e).Ok?
    ensures var (src, dst) := TransferEndpoints(m, e).value;
            (src == e || dst == e) && src != dst
            && (m.DoubleEnded? ==> IsValid(m, src) && IsValid(m, dst) && Rank(m, dst) == Rank(m, src) + 1)
            && (m.SingleEnded? ==> src == TimePoint(0, e.index - 1) && dst == e)
  {
  }

  /**
   * Link endpoints in `finalize`: the whole timeline when the last point
   * is the goal point, else the point and its neighbour across the seam.
   */
  function LinkEndpoints(m: Manager, e: TimePoint): (r: Result<(TimePoint, TimePoint), Failure>)
    requires Reachable(m)
  {
    if e == Last(m) then Ok((First(m), Last(m)))
    else if IsOnForwardStack(m, e) then
      match Predecessor(m, e)
      case Err(f) => Err(f)
      case Ok(p) =>
        match Successor(m, p)
        case Ok(s) => Ok((e, s))
        case Err(f) => Err(f)
    else
      match Successor(m, e)
      case Err(f) => Err(f)
      case Ok(s) =>
        match Predecessor(m, s)
        case Ok(p) => Ok((p, e))
        case Err(f) => Err(f)
  }

  /** In Duplicated mode the link always joins the two names of the shared top element. */
  lemma LinkJoinsTops(m: Manager, e: TimePoint)
    requires Reachable(m) && m.DoubleEnded? && m.option == Duplicated && LastInserted(m, e)
    ensures LinkEndpoints(m, e) == Ok((TimePoint(FromBegin, m.beginTop), TimePoint(FromEnd, m.endTop)))
  {
    var b, t := TimePoint(FromBegin, m.beginTop), TimePoint(FromEnd, m.endTop);
    if e != Last(m) {
      if IsOnForwardStack(m, e) {
        var p := Predecessor(m, e);
        assert p.Ok?;
        var s := Successor(m, p.value);
        assert s.Ok? && Rank(m, s.value) == m.beginTop;
        assert s.value == t;
      } else {
        var s := Successor(m, e);
        assert s.Ok?;
        var p := Predecessor(m, s.value);
        assert p.Ok? && Rank(m, p.value) == m.beginTop;
        assert p.value == b;
      }
    }
  }

  // ---------------------------------------------------------------------
  // Rounds
  // ---------------------------------------------------------------------

  /** The requests for growing the timeline by one point from `m`. */
  function StepRequests(p: PlanningProblem, m: Manager): (r: seq<Request>)
    requires Reachable(m) && Seeded(m)
  {
    var (m1, e) := AcquireNext(m);
    AcquireGrows(m);
    TransferGoesForward(m1, e);
    var (src, dst) := TransferEndpoints(m1, e).value;
    ProblemRequests(p.invariants, e) + TransferRequests(p.literalsPerTime, p.transfer, src, dst)
  }

  /** The requests for growing the timeline by `k` points from `m`. */
  function GrowthRequests(p: PlanningProblem, m: Manager, k: nat): (r: seq<Request>)
    requires Reachable(m) && Seeded(m)
  {
    if k == 0 then []
    else
      AcquireManySeeded(m, k - 1);
      GrowthRequests(p, m, k - 1) + StepRequests(p, AcquireMany(m, k - 1))
  }

  lemma {:induction false} AcquireManySeeded(m: Manager, k: nat)
    requires Reachable(m) && Seeded(m)
    ensures Seeded(AcquireMany(m, k))
    ensures Span(AcquireMany(m, k)) == Span(m) + k
    ensures m.DoubleEnded? ==>
              AcquireMany(m, k).DoubleEnded? && AcquireMany(m, k).ratio == m.ratio && AcquireMany(m, k).option == m.option
    ensures m.SingleEnded? ==> AcquireMany(m, k).SingleEnded?
  {
    if k > 0 {
      AcquireManySeeded(m, k - 1);
      AcquireGrows(AcquireMany(m, k - 1));
    }
  }

  /** The manager `initialize` leaves behind, before any growth. */
  function Seeds(o: Options): (r: Manager)
    ensures Reachable(r) && Seeded(r) && Span(r) == 0
  {
    if o.singleEnded then SingleEnded(1) else DoubleEnded(0, 0, o.ratio, Duplicated)
  }

  /** The point `initialize` returns. */
  function SeedPoint(o: Options): (e: TimePoint)
    ensures LastInserted(Seeds(o), e)
  {
    if o.singleEnded then TimePoint(0, 0) else TimePoint(FromEnd, 0)
  }

  /** `initialize`: the seeds' manager comes from two (one) acquisitions of a fresh manager. */
  lemma SeedsAcquired(o: Options)
    ensures o.singleEnded ==>
              AcquireNext(SingleEnded(0)) == (Seeds(o), SeedPoint(o))
    ensures !o.singleEnded ==>
              var (m1, t0) := AcquireNext(FreshDoubleEnded(o.ratio, Duplicated));
              t0 == TimePoint(FromBegin, 0) && AcquireNext(m1) == (Seeds(o), SeedPoint(o))
  {
  }

  /** The requests `initialize` issues after the reset. */
  function InitialRequests(p: PlanningProblem, o: Options): seq<Request>
    requires GoalReadable(p.goal, o.unitInGoal2Assume)
  {
    var t0 := First(Seeds(o));
    ProblemRequests(p.initial, t0) + ProblemRequests(p.invariants, t0)
    + (if o.singleEnded then []
       else GoalRequests(p.goal, SeedPoint(o), false, o.unitInGoal2Assume) + ProblemRequests(p.invariants, SeedPoint(o)))
  }

  /** The requests `finalize` issues: guarded goal or link clauses, then the activation assumption. */
  function FinalizeRequests(p: PlanningProblem, o: Options, m: Manager, e: TimePoint): seq<Request>
    requires Reachable(m) && LastInserted(m, e)
    requires GoalReadable(p.goal, o.unitInGoal2Assume)
    requires m.DoubleEnded? ==> m.option == Duplicated
  {
    (if m.SingleEnded? then GoalRequests(p.goal, e, true, o.unitInGoal2Assume)
     else LinkRequests(p.literalsPerTime, TimePoint(FromBegin, m.beginTop), TimePoint(FromEnd, m.endTop), e))
    + [AssumeLit(Lit(ActivationLiteral, e, Helper))]
  }

  /** The point acquired last after growing `m` by `k` points; `e` when nothing is acquired. */
  function GrowthLast(m: Manager, k: nat, e: TimePoint): TimePoint
    requires Reachable(m)
  {
    if k == 0 then e else AcquireNext(AcquireMany(m, k - 1)).1
  }

  lemma GrowthLastInserted(m: Manager, k: nat, e: TimePoint)
    requires Reachable(m) && Seeded(m) && LastInserted(m, e)
    ensures LastInserted(AcquireMany(m, k), GrowthLast(m, k, e))
  {
    if k > 0 {
      AcquireManySeeded(m, k - 1);
      AcquireGrows(AcquireMany(m, k - 1));
    }
  }

  /** One more acquisition: the manager, the point acquired last and the growth requests each take one step. */
  lemma GrowthStep(p: PlanningProblem, m: Manager, k: nat, e: TimePoint)
    requires Reachable(m) && Seeded(m)
    ensures AcquireMany(m, k + 1) == AcquireNext(AcquireMany(m, k)).0
    ensures GrowthLast(m, k + 1, e) == AcquireNext(AcquireMany(m, k)).1
    ensures Seeded(AcquireMany(m, k))
    ensures GrowthRequests(p, m, k + 1) == GrowthRequests(p, m, k) + StepRequests(p, AcquireMany(m, k))
  {
    AcquireManySeeded(m, k);
  }

  /** How many points a round adds to `m` to reach the makespan of round `step`. */
  function RoundGrowth(o: Options, m: Manager, step: nat): (k: nat)
    ensures Span(m) + k >= StepToMakespan(o, step)
    ensures Span(m) >= StepToMakespan(o, step) ==> k == 0
    ensures Span(m) < StepToMakespan(o, step) ==> Span(m) + k == StepToMakespan(o, step)
  {
    var target := StepToMakespan(o, step);
    if Span(m) < target then target - Span(m) else 0
  }

  /** A manager the driver keeps: seeded, and sharing its top element when double-ended. */
  predicate DriverManager(m: Manager)
  {
    Reachable(m) && Seeded(m) && (m.DoubleEnded? ==> m.option == Duplicated)
  }

  lemma SeedsAreDriverManagers(o: Options)
    ensures DriverManager(Seeds(o))
  {
  }

  lemma GrowthKeepsDriverManager(m: Manager, k: nat)
    requires DriverManager(m)
    ensures DriverManager(AcquireMany(m, k))
  {
    AcquireManySeeded(m, k);
  }

  /** Where a round starts: from the seeds again when solving non-incrementally. */
  function RoundStart(o: Options, m: Manager, e: TimePoint): (r: (Manager, TimePoint))
  {
    if o.nonIncrementalSolving then (Seeds(o), SeedPoint(o)) else (m, e)
  }

  /**
   * The requests of one round of `slv` started at manager `m` with last
   * point `e`: re-initialisation when non-incremental, growth to the
   * round's makespan, the optional intermediate solve, `finalize` and the
   * solve.
   */
  function RoundRequests(p: PlanningProblem, o: Options, m: Manager, e: TimePoint, step: nat,
                         intermediate: Ipasir.SolveResult, result: Ipasir.SolveResult): seq<Request>
    requires DriverManager(m) && LastInserted(m, e)
    requires GoalReadable(p.goal, o.unitInGoal2Assume)
  {
    SeedsAreDriverManagers(o);
    var (m0, e0) := RoundStart(o, m, e);
    var k := RoundGrowth(o, m0, step);
    GrowthKeepsDriverManager(m0, k);
    GrowthLastInserted(m0, k, e0);
    RoundFrame(p, o, m0, k)
    + (if o.solveBeforeGoalClauses then [SolveReq(intermediate)] else [])
    + FinalizeRequests(p, o, AcquireMany(m0, k), GrowthLast(m0, k, e0))
    + [SolveReq(result)]
  }

  /** The re-initialisation a round starts with when solving non-incrementally. */
  function RestartRequests(p: PlanningProblem, o: Options): seq<Request>
    requires GoalReadable(p.goal, o.unitInGoal2Assume)
  {
    if o.nonIncrementalSolving then [ResetReq] + InitialRequests(p, o) else []
  }

  /** Re-initialisation (non-incremental solving) and growth of a round. */
  function RoundFrame(p: PlanningProblem, o: Options, m0: Manager, k: nat): seq<Request>
    requires DriverManager(m0)
    requires GoalReadable(p.goal, o.unitInGoal2Assume)
  {
    RestartRequests(p, o) + GrowthRequests(p, m0, k)
  }

  /** The requests of a round, with its start and growth named. */
  lemma RoundRequestsParts(p: PlanningProblem, o: Options, m: Manager, e: TimePoint, step: nat,
                           intermediate: Ipasir.SolveResult, result: Ipasir.SolveResult,
                           m0: Manager, e0: TimePoint, k: nat)
    requires DriverManager(m) && LastInserted(m, e)
    requires GoalReadable(p.goal, o.unitInGoal2Assume)
    requires (m0, e0) == RoundStart(o, m, e) && k == RoundGrowth(o, m0, step)
    ensures DriverManager(m0) && DriverManager(AcquireMany(m0, k))
    ensures LastInserted(AcquireMany(m0, k), GrowthLast(m0, k, e0))
    ensures RoundRequests(p, o, m, e, step, intermediate, result)
            == RoundFrame(p, o, m0, k)
               + (if o.solveBeforeGoalClauses then [SolveReq(intermediate)] else [])
               + FinalizeRequests(p, o, AcquireMany(m0, k), GrowthLast(m0, k, e0))
               + [SolveReq(result)]
  {
    SeedsAreDriverManagers(o);
    GrowthKeepsDriverManager(m0, k);
    GrowthLastInserted(m0, k, e0);
  }

  /** The unit clause `-act@e` that `cleanLitearl` adds after the solve. */
  function CleanRequests(e: TimePoint): seq<Request>
  {
    [AddLit(Lit(-ActivationLiteral, e, Helper)), FinalizeClause]
  }

  /**
   * The manager and the point inserted last after `n` rounds of `slv`,
   * which starts from the seeds of `initialize`; round `i` grows the
   * timeline to the makespan of step `i`.
   */
  function AfterRounds(o: Options, n: nat): (r: (Manager, TimePoint))
    ensures DriverManager(r.0) && LastInserted(r.0, r.1)
  {
    SeedsAreDriverManagers(o);
    if n == 0 then (Seeds(o), SeedPoint(o))
    else
      var (m, e) := AfterRounds(o, n - 1);
      var (m0, e0) := RoundStart(o, m, e);
      var k := RoundGrowth(o, m0, n - 1);
      GrowthKeepsDriverManager(m0, k);
      GrowthLastInserted(m0, k, e0);
      (AcquireMany(m0, k), GrowthLast(m0, k, e0))
  }

  /**
   * After `n > 0` rounds the timeline spans exactly the makespan of the
   * last round, whether rounds go on from the previous timeline or start
   * again from the seeds.
   */
  lemma {:induction false} AfterRoundsSpan(o: Options, n: nat)
    ensures Span(AfterRounds(o, n).0) == if n == 0 then 0 else StepToMakespan(o, n - 1)
  {
    if n > 0 {
      AfterRoundsSpan(o, n - 1);
      var (m, e) := AfterRounds(o, n - 1);
      var (m0, e0) := RoundStart(o, m, e);
      if n > 1 {
        StepToMakespanMonotone(o, n - 2, n - 1);
      }
      AcquireManySeeded(m0, RoundGrowth(o, m0, n - 1));
    }
  }

  /** Whether the activation literal is cleaned after a round that solved to `result`. */
  predicate CleansAfter(o: Options, result: Ipasir.SolveResult, cleanAfterSat: bool)
  {
    o.cleanLiteral && (cleanAfterSat || result != Ipasir.Sat)
  }

  /**
   * The outcomes of the rounds of `slv` so far: every round before the
   * last one failed, and `result` is the last outcome (UNSAT before any
   * round was made).
   */
  predicate RoundsSoFar(results: seq<Ipasir.SolveResult>, result: Ipasir.SolveResult)
  {
    (if |results| == 0 then result == Ipasir.Unsat else results[|results| - 1] == result)
    && forall i :: 0 <= i < |results| - 1 ==> results[i] != Ipasir.Sat
  }

  /** What `RoundsSoFar` says of the outcomes once the loop of `slv` has stopped. */
  lemma RoundsSoFarOutcome(results: seq<Ipasir.SolveResult>, result: Ipasir.SolveResult)
    requires RoundsSoFar(results, result)
    ensures forall i :: 0 <= i < |results| - 1 ==> results[i] != Ipasir.Sat
    ensures result == Ipasir.Sat <==> |results| > 0 && results[|results| - 1] == Ipasir.Sat
  {
  }

  /** The loop of `slv` only goes on after a failed round. */
  lemma RoundsSoFarStep(results: seq<Ipasir.SolveResult>, result: Ipasir.SolveResult, next: Ipasir.SolveResult)
    requires RoundsSoFar(results, result) && result != Ipasir.Sat
    ensures RoundsSoFar(results + [next], next)
  {
  }

  /**
   * The request history after the first `|results|` rounds of `slv`,
   * starting from `before`: round `i` makes its intermediate solve with
   * `intermediates[i]` (when there is one) and its solve with
   * `results[i]`; then, with `cleanLiteral`, the unit clause `-act` at
   * the round's last point follows a round that failed, and also one that
   * succeeded when `cleanAfterSat` is set.
   */
  function SlvHistory(before: seq<Request>, p: PlanningProblem, o: Options, intermediates: seq<Ipasir.SolveResult>,
                      results: seq<Ipasir.SolveResult>, cleanAfterSat: bool): seq<Request>
    requires |intermediates| == |results|
    requires GoalReadable(p.goal, o.unitInGoal2Assume)
    decreases |results|
  {
    if |results| == 0 then before
    else
      var n := |results| - 1;
      var (m, e) := AfterRounds(o, n);
      var rounds := SlvHistory(before, p, o, intermediates[..n], results[..n], cleanAfterSat)
                    + RoundRequests(p, o, m, e, n, intermediates[n], results[n]);
      if CleansAfter(o, results[n], cleanAfterSat) then rounds + CleanRequests(AfterRounds(o, n + 1).1) else rounds
  }

  /**
   * One more round of `slv`, started at `m` with last point `e` and
   * ending at `last`, appends its requests, then its clean clause.
   */
  lemma SlvHistoryStep(before: seq<Request>, p: PlanningProblem, o: Options, intermediates: seq<Ipasir.SolveResult>,
                       results: seq<Ipasir.SolveResult>, cleanAfterSat: bool,
                       intermediate: Ipasir.SolveResult, result: Ipasir.SolveResult,
                       m: Manager, e: TimePoint, last: TimePoint)
    requires |intermediates| == |results|
    requires GoalReadable(p.goal, o.unitInGoal2Assume)
    requires (m, e) == AfterRounds(o, |results|) && last == AfterRounds(o, |results| + 1).1
    ensures DriverManager(m) && LastInserted(m, e)
    ensures var rounds := SlvHistory(before, p, o, intermediates, results, cleanAfterSat)
                          + RoundRequests(p, o, m, e, |results|, intermediate, result);
            SlvHistory(before, p, o, intermediates + [intermediate], results + [result], cleanAfterSat)
            == if CleansAfter(o, result, cleanAfterSat) then rounds + CleanRequests(last) else rounds
  {
    assert (intermediates + [intermediate])[..|results|] == intermediates;
    assert (results + [result])[..|results|] == results;
  }

  // ---------------------------------------------------------------------
  // Printing the plan
  // ---------------------------------------------------------------------

  /** A point of the seeded timeline. */
  predicate OnTimeline(m: Manager, t: TimePoint)
  {
    Seeded(m) && (if m.SingleEnded? then t.tag == 0 && 0 <= t.index <= Span(m) else IsValid(m, t))
  }

  lemma OnTimelineRank(m: Manager, t: TimePoint)
    requires OnTimeline(m, t)
    ensures 0 <= Rank(m, t) <= Span(m)
  {
  }

  /**
   * The points `printSolution` visits from `t`, one per step, stopping at
   * the goal point or at the last step (corrected traversal).
   */
  function Visit(m: Manager, t: TimePoint): (r: seq<TimePoint>)
    requires Reachable(m) && OnTimeline(m, t)
    ensures |r| == Span(m) - Rank(m, t) + 1 && r[0] == t
    ensures forall k :: 0 <= k < |r| ==> OnTimeline(m, r[k]) && Rank(m, r[k]) == Rank(m, t) + k
    decreases Span(m) - Rank(m, t)
  {
    OnTimelineRank(m, t);
    if t == Last(m) || Rank(m, t) == Span(m) then [t]
    else [t] + Visit(m, Successor(m, t).value)
  }

  /**
   * The points `printSolution` visits as written: it stops only at the
   * goal point, and a successor query that fails ends it with that failure.
   */
  function VisitAsWritten(m: Manager, t: TimePoint): (r: Result<seq<TimePoint>, Failure>)
    requires Reachable(m) && OnTimeline(m, t)
    decreases Span(m) - Rank(m, t)
  {
    OnTimelineRank(m, t);
    if t == Last(m) then Ok([t])
    else
      match Successor(m, t)
      case Err(f) => Err(f)
      case Ok(s) =>
        match VisitAsWritten(m, s)
        case Ok(rest) => Ok([t] + rest)
        case Err(f) => Err(f)
  }

  /**
   * Both traversals agree except from the begin-stack name of a
   * duplicated top element that sits on an empty end stack.
   */
  lemma {:induction false} VisitAgrees(m: Manager, t: TimePoint)
    requires Reachable(m) && OnTimeline(m, t)
    requires !(m.DoubleEnded? && m.option == Duplicated && t == TimePoint(FromBegin, m.beginTop) && m.endTop == 0)
    ensures VisitAsWritten(m, t) == Ok(Visit(m, t))
    decreases Span(m) - Rank(m, t)
  {
    OnTimelineRank(m, t);
    if t != Last(m) {
      assert Rank(m, t) < Span(m);
      var s := Successor(m, t).value;
      VisitAgrees(m, s);
    }
  }

  /** From the initial point the traversal reaches the goal after one row per step. */
  lemma PrintVisitsEveryStep(m: Manager)
    requires Reachable(m) && Seeded(m)
    ensures |Visit(m, First(m))| == Span(m) + 1 && Visit(m, First(m))[0] == First(m)
    ensures Visit(m, First(m))[Span(m)] == Last(m) || (m.DoubleEnded? && m.option == Duplicated && Span(m) == 0)
  {
    var r := Visit(m, First(m));
    var z := r[Span(m)];
    if m.DoubleEnded? && !(m.option == Duplicated && Span(m) == 0) {
      assert Rank(m, z) == Span(m);
      if z.tag == FromBegin {
        assert m.option == Duplicated && m.endTop == 0 && z.index == m.beginTop && Span(m) > 0;
        WalkAdvancesRank(m, First(m), Span(m));
        VisitIsWalk(m, First(m), Span(m));
        assert false;
      }
    }
  }

  /** The traversal is the successor walk. */
  lemma {:induction false} VisitIsWalk(m: Manager, t: TimePoint, k: nat)
    requires Reachable(m) && OnTimeline(m, t) && k < |Visit(m, t)|
    ensures Walk(m, t, k) == Ok(Visit(m, t)[k])
  {
    if k > 0 {
      VisitIsWalk(m, t, k - 1);
      var r := Visit(m, t);
      var u := r[k - 1];
      VisitSuffix(m, t, k - 1);
      assert Visit(m, u) == r[k - 1..];
      assert Visit(m, u)[1] == r[k];
      assert Walk(m, t, k) == Successor(m, u);
    }
  }

  lemma {:induction false} VisitSuffix(m: Manager, t: TimePoint, k: nat)
    requires Reachable(m) && OnTimeline(m, t) && k < |Visit(m, t)|
    ensures Visit(m, Visit(m, t)[k]) == Visit(m, t)[k..]
    decreases k
  {
    if k > 0 {
      var r := Visit(m, t);
      var s := Successor(m, t).value;
      assert r == [t] + Visit(m, s);
      VisitSuffix(m, s, k - 1);
      assert r[k..] == Visit(m, s)[k - 1..];
    }
  }

  /**
   * A double-ended plan of makespan 0 (the two seeds only, the top element
   * duplicated): the traversal as written asks for the successor of the
   * initial point, which is out of range, while the corrected one prints
   * the single step the header announces.
   */
  lemma PrintAtMakespanZeroAsWritten(ratio: Ratio)
    ensures VisitAsWritten(DoubleEnded(0, 0, ratio, Duplicated), TimePoint(FromBegin, 0)) == Err(OutOfRange)
    ensures Visit(DoubleEnded(0, 0, ratio, Duplicated), TimePoint(FromBegin, 0)) == [TimePoint(FromBegin, 0)]
  {
  }

  /** Away from that case the corrected traversal is the source's. */
  lemma PrintAgreesOtherwise(m: Manager)
    requires Reachable(m) && Seeded(m)
    requires !(m.DoubleEnded? && m.option == Duplicated && m.beginTop == 0 && m.endTop == 0)
    ensures VisitAsWritten(m, First(m)) == Ok(Visit(m, First(m)))
  {
    VisitAgrees(m, First(m));
  }
}
