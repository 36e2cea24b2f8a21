/**
 * The incremental SAT solver interface (IPASIR) as seen through its C++
 * binding.  The solver itself is not modelled: `Solve` picks its outcome,
 * model and failed-assumption set nondeterministically.  What is modelled
 * is the protocol: clauses are built literal by literal and terminated by
 * 0, assumptions live for exactly one solve call, and the solver moves
 * between the INPUT, SAT and UNSAT states.
 *
 * The history of calls is kept as a ghost event log; `Replay` computes the
 * clause database and the state the log leads to.
 */
module Ipasir {

  import opened Wrappers

  /** Outcome of `solve`. */
  datatype SolveResult = Sat | Unsat | Timeout

  /** The integer code the C interface returns for each outcome. */
  function Code(r: SolveResult): (c: int)
    ensures c == 10 <==> r == Sat
    ensures c == 20 <==> r == Unsat
    ensures c == 0 <==> r == Timeout
  {
    match r
    case Sat => 10
    case Unsat => 20
    case Timeout => 0
  }

  /** Inverse of `Code` on the three legal codes. */
  function Decode(c: int): (r: Option<SolveResult>)
    ensures r.Some? <==> c in {0, 10, 20}
    ensures r.Some? ==> Code(r.value) == c
  {
    if c == 10 then Some(Sat) else if c == 20 then Some(Unsat) else if c == 0 then Some(Timeout) else None
  }

  lemma CodeRoundTrip(r: SolveResult)
    ensures Decode(Code(r)) == Some(r)
  {
  }

  /** The three states of the IPASIR state machine. */
  datatype State = InputState | SatState | UnsatState

  /** Callbacks registered with the solver: the default ones restored by `reset`, or client ones. */
  datatype Callback = Default | Client(id: nat) | Unmapping(user: Callback)

  /** One call on the solver, as far as the clause database and the state are concerned. */
  datatype Event =
    | Add(litOrZero: int)
    | Assume(lit: int)
    | Solve(result: SolveResult)
    | Val(lit: int)
    | Reset

  /** What a sequence of calls has built up. */
  datatype Database = Database(
    clauses: seq<seq<int>>,   // finished clauses
    pending: seq<int>,        // literals of the clause under construction
    assumptions: seq<int>,    // assumptions for the next solve
    state: State)

  const Empty := Database([], [], [], InputState)

  function StateAfterSolve(r: SolveResult): State
  {
    match r
    case Sat => SatState
    case Unsat => UnsatState
    case Timeout => InputState
  }

  /** Effect of one call. */
  function Apply(db: Database, e: Event): Database
  {
    match e
    case Add(l) =>
      if l == 0 then db.(clauses := db.clauses + [db.pending], pending := [], state := InputState)
      else db.(pending := db.pending + [l], state := InputState)
    case Assume(l) => db.(assumptions := db.assumptions + [l], state := InputState)
    case Solve(r) => db.(assumptions := [], state := StateAfterSolve(r))
    case Val(_) => db
    case Reset => Empty
  }

  /**
   * What each call does to the state machine and the database: every call
   * but `solve` and `val` leads to INPUT, `val` changes nothing, `solve`
   * drops the assumptions and keeps the clauses, `add(0)` closes the
   * pending clause, and every other `add` or `assume` adds one literal.
   */
  lemma CallEffects(db: Database, e: Event)
    ensures e.Add? || e.Assume? || e.Reset? ==> Apply(db, e).state == InputState
    ensures e.Val? ==> Apply(db, e) == db
    ensures e.Solve? ==> Apply(db, e).clauses == db.clauses && Apply(db, e).pending == db.pending && Apply(db, e).assumptions == []
    ensures e == Add(0) ==> Apply(db, e).clauses == db.clauses + [db.pending] && Apply(db, e).pending == []
    ensures (e.Add? && e.litOrZero != 0) || e.Assume? ==>
              |Apply(db, e).clauses| == |db.clauses|
              && |Apply(db, e).pending| + |Apply(db, e).assumptions| == |db.pending| + |db.assumptions| + 1
  {
  }

  /** Effect of a whole history, folded from its last call backwards. */
  function Replay(log: seq<Event>): Database
  {
    if log == [] then Empty else Apply(Replay(log[..|log| - 1]), log[|log| - 1])
  }

  lemma ReplayStep(log: seq<Event>, e: Event)
    ensures Replay(log + [e]) == Apply(Replay(log), e)
  {
    assert (log + [e])[..|log|] == log;
  }

  /** `reset` empties the database whatever came before. */
  lemma ResetReplays(log: seq<Event>)
    ensures Replay(log + [Event.Reset]) == Empty
  {
    ReplayStep(log, Event.Reset);
  }

  /** The events `addClause` produces for the literals of a clause (without its terminator). */
  function AddEvents(lits: seq<int>): (r: seq<Event>)
    ensures |r| == |lits|
    ensures forall i :: 0 <= i < |lits| ==> r[i] == Add(lits[i])
  {
    if lits == [] then [] else AddEvents(lits[..|lits| - 1]) + [Add(lits[|lits| - 1])]
  }

  /** The literals assumed by a history. */
  function Assumed(log: seq<Event>): seq<int>
  {
    if log == [] then []
    else
      var last := log[|log| - 1];
      Assumed(log[..|log| - 1]) + (if last.Assume? then [last.lit] else [])
  }

  /** Adding non-zero literals only extends the pending clause. */
  lemma {:induction false} PendingAccumulates(log: seq<Event>, lits: seq<int>)
    requires 0 !in lits
    ensures Replay(log + AddEvents(lits)).clauses == Replay(log).clauses
    ensures Replay(log + AddEvents(lits)).assumptions == Replay(log).assumptions
    ensures Replay(log + AddEvents(lits)).pending == Replay(log).pending + lits
  {
    if lits == [] {
      assert log + AddEvents(lits) == log;
    } else {
      var init, last := lits[..|lits| - 1], lits[|lits| - 1];
      assert lits == init + [last];
      PendingAccumulates(log, init);
      assert AddEvents(lits) == AddEvents(init) + [Add(last)];
      assert log + AddEvents(lits) == (log + AddEvents(init)) + [Add(last)];
      ReplayStep(log + AddEvents(init), Add(last));
    }
  }

  /**
   * With no clause under construction, adding the literals of a clause
   * and then 0 appends exactly that clause to the database.
   */
  lemma AddClauseAppends(log: seq<Event>, clause: seq<int>)
    requires Replay(log).pending == []
    requires 0 !in clause
    ensures Replay(log + AddEvents(clause) + [Add(0)])
            == Replay(log).(clauses := Replay(log).clauses + [clause], state := InputState)
  {
    PendingAccumulates(log, clause);
    ReplayStep(log + AddEvents(clause), Add(0));
    assert Replay(log).pending + clause == clause;
  }

  /** Clauses are never taken back: only `reset` forgets them. */
  lemma {:induction false} ClausesPersist(log: seq<Event>, later: seq<Event>)
    requires forall i :: 0 <= i < |later| ==> !later[i].Reset?
    ensures Replay(log).clauses <= Replay(log + later).clauses
  {
    if later == [] {
      assert log + later == log;
    } else {
      var init, last := later[..|later| - 1], later[|later| - 1];
      ClausesPersist(log, init);
      assert log + later == (log + init) + [last];
      ReplayStep(log + init, last);
      var mid := Replay(log + init).clauses;
      assert mid <= Replay(log + later).clauses;
    }
  }

  /**
   * Assumptions hold for one solve call only: after a `solve`, the
   * assumptions in force are exactly those assumed since.
   */
  lemma {:induction false} AssumptionsLastOneSolve(log: seq<Event>, r: SolveResult, later: seq<Event>)
    requires forall i :: 0 <= i < |later| ==> !later[i].Solve? && !later[i].Reset?
    ensures Replay(log + [Solve(r)] + later).assumptions == Assumed(later)
  {
    if later == [] {
      ReplayStep(log, Solve(r));
      assert log + [Solve(r)] + later == log + [Solve(r)];
    } else {
      var init := later[..|later| - 1];
      var last := later[|later| - 1];
      AssumptionsLastOneSolve(log, r, init);
      assert log + [Solve(r)] + later == (log + [Solve(r)] + init) + [last];
      ReplayStep(log + [Solve(r)] + init, last);
    }
  }

  /**
   * What `val` reports for `lit` under `model`: the literal if it is true,
   * its negation if it is false, 0 if its variable is unassigned.
   */
  function Value(model: map<int, bool>, lit: int): (r: int)
    ensures r == lit || r == -lit || r == 0
  {
    var v := if lit < 0 then -lit else lit;
    if v !in model then 0
    else if model[v] == (lit > 0) then lit
    else -lit
  }

  /**
   * The solver.  `state` is the observable IPASIR state; `log` is the
   * ghost history it results from.
   */
  class Solver {
    var state: State
    ghost var log: seq<Event>
    /** Model of the last satisfiable solve: variable -> value. */
    var model: map<int, bool>
    /** Assumptions the last unsatisfiable solve used. */
    var failedAssumptions: set<int>
    var terminate: Callback
    var learn: Callback
    var learnMaxLength: int

    ghost predicate Valid()
      reads this
    {
      state == Replay(log).state
    }

    constructor()
      ensures Valid() && log == [] && state == InputState
      ensures terminate == Default && learn == Default && learnMaxLength == 0
    {
      state := InputState;
      log := [];
      model := map[];
      failedAssumptions := {};
      terminate := Default;
      learn := Default;
      learnMaxLength := 0;
    }

    /** Adds a literal to the clause under construction, or finishes it when given 0. */
    method Add(litOrZero: int)
      requires Valid()
      modifies this`state, this`log
      ensures Valid() && log == old(log) + [Event.Add(litOrZero)] && state == InputState
    {
      ReplayStep(log, Event.Add(litOrZero));
      log := log + [Event.Add(litOrZero)];
      state := InputState;
    }

    /** Adds every literal of `clause`, then the terminating 0. */
    method AddClause(clause: seq<int>)
      requires Valid()
      modifies this`state, this`log
      ensures Valid() && state == InputState
      ensures log == old(log) + AddEvents(clause) + [Event.Add(0)]
    {
      var i := 0;
      while i < |clause|
        invariant 0 <= i <= |clause|
        invariant Valid()
        invariant log == old(log) + AddEvents(clause[..i])
      {
        assert clause[..i + 1][..i] == clause[..i];
        Add(clause[i]);
        i := i + 1;
      }
      assert clause[..i] == clause;
      Add(0);
    }

    /** Assumes a literal for the next solve call only. */
    method Assume(lit: int)
      requires Valid()
      modifies this`state, this`log
      ensures Valid() && log == old(log) + [Event.Assume(lit)] && state == InputState
    {
      ReplayStep(log, Event.Assume(lit));
      log := log + [Event.Assume(lit)];
      state := InputState;
    }

    /** Solves under the current assumptions; the outcome is not modelled. */
    method Solve() returns (r: SolveResult)
      requires Valid()
      modifies this`state, this`log, this`model, this`failedAssumptions
      ensures Valid() && log == old(log) + [Event.Solve(r)] && state == StateAfterSolve(r)
    {
      r := *;
      model := *;
      failedAssumptions := *;
      ReplayStep(log, Event.Solve(r));
      log := log + [Event.Solve(r)];
      state := StateAfterSolve(r);
    }

    /**
     * Value of a literal in the model: the literal if true, its negation
     * if false, 0 if irrelevant.
     */
    function ModelValue(lit: int): (r: int)
      reads this
      ensures r == lit || r == -lit || r == 0
    {
      Value(model, lit)
    }

    /** `val`: only allowed in the SAT state, which it keeps. */
    method Val(lit: int) returns (r: int)
      requires Valid() && state == SatState
      modifies this`log
      ensures Valid() && state == SatState && log == old(log) + [Event.Val(lit)]
      ensures r == ModelValue(lit)
      ensures r == lit || r == -lit || r == 0
    {
      ReplayStep(log, Event.Val(lit));
      log := log + [Event.Val(lit)];
      r := ModelValue(lit);
    }

    /** 1 if the assumption was used to prove unsatisfiability, else 0.  Only in the UNSAT state. */
    function Failed(lit: int): (r: int)
      reads this
      requires state == UnsatState
      ensures r == 1 <==> lit in failedAssumptions
      ensures r == 0 || r == 1
    {
      if lit in failedAssumptions then 1 else 0
    }

    method SetTerminate(callback: Callback)
      modifies this`terminate
      ensures terminate == callback
    {
      terminate := callback;
    }

    method SetLearn(maxLength: int, callback: Callback)
      modifies this`learn, this`learnMaxLength
      ensures learn == callback && learnMaxLength == maxLength
    {
      learn := callback;
      learnMaxLength := maxLength;
    }

    /** Forgets every clause and assumption and restores the default callbacks. */
    method Reset()
      requires Valid()
      modifies this`state, this`log, this`terminate, this`learn, this`learnMaxLength
      ensures Valid() && log == old(log) + [Event.Reset] && state == InputState
      ensures terminate == Default && learn == Default && learnMaxLength == 0
      ensures Replay(log) == Empty
    {
      ResetReplays(log);
      log := log + [Event.Reset];
      state := InputState;
      terminate, learn, learnMaxLength := Default, Default, 0;
    }
  }

  /** A literal and its negation both evaluate to whichever of the two is true. */
  lemma ValOfNegation(model: map<int, bool>, lit: int)
    ensures Value(model, -lit) == Value(model, lit)
  {
  }
}
