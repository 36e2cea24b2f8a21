/**
 * Literals "at a time point" and their IPASIR variables.
 *
 * Each time point gets a slot index the first time a non-zero literal is
 * placed at it; slot indices are handed out 0, 1, 2, ... and never change.
 * The layout decides where, inside the IPASIR variable space, the problem
 * and helper variables of a slot live.
 */
module TimePointBased {

  import opened TimeSlotMapping
  import Ipasir

  datatype HelperVariablePosition = AllBefore | SingleBefore | SingleAfter

  /** Problem variables are the planning encoding's; helper variables are the driver's own. */
  datatype Kind = Problem | Helper

  datatype Layout = Layout(varsPerTime: nat, helperPerTime: nat, position: HelperVariablePosition)

  /** Number of variables of one kind per time point. */
  function Width(layout: Layout, kind: Kind): nat
  {
    if kind == Problem then layout.varsPerTime else layout.helperPerTime
  }

  /** The IPASIR variable of literal 1 of `kind` at slot `idx` is BlockStart + 1. */
  function BlockStart(layout: Layout, idx: int, kind: Kind): int
  {
    match layout.position
    case SingleBefore =>
      idx * (layout.varsPerTime + layout.helperPerTime) + (if kind == Problem then layout.helperPerTime else 0)
    case SingleAfter =>
      idx * (layout.varsPerTime + layout.helperPerTime) + (if kind == Helper then layout.varsPerTime else 0)
    case AllBefore =>
      if kind == Helper then idx * layout.helperPerTime else idx * layout.varsPerTime + 1000
  }

  /** The signed offset added to a literal: 0 for the terminator 0, negated for negative literals. */
  function Offset(layout: Layout, idx: int, literal: int, kind: Kind): (r: int)
    ensures literal == 0 ==> r == 0
    ensures literal < 0 ==> r == -Offset(layout, idx, -literal, kind)
    decreases if literal < 0 then 1 else 0
  {
    if literal == 0 then 0
    else if literal < 0 then -BlockStart(layout, idx, kind)
    else BlockStart(layout, idx, kind)
  }

  /** The IPASIR literal of `literal` of `kind` at slot `idx`. */
  function LiteralToIpasir(layout: Layout, idx: int, literal: int, kind: Kind): (r: int)
    requires idx >= 0
    ensures literal == 0 <==> r == 0
    ensures literal > 0 ==> r == BlockStart(layout, idx, kind) + literal
    ensures literal < 0 ==> r == -(BlockStart(layout, idx, kind) - literal)
  {
    BlockStartNonNegative(layout, idx, kind);
    Offset(layout, idx, literal, kind) + literal
  }

  lemma MulNonNegative(a: int, b: int)
    requires a >= 0 && b >= 0
    ensures a * b >= 0
  {
  }

  lemma BlockStartNonNegative(layout: Layout, idx: int, kind: Kind)
    requires idx >= 0
    ensures BlockStart(layout, idx, kind) >= 0
  {
    MulNonNegative(idx, layout.varsPerTime + layout.helperPerTime);
    MulNonNegative(idx, layout.helperPerTime);
    MulNonNegative(idx, layout.varsPerTime);
  }

  /** Negating a literal negates its IPASIR literal; positive literals map to positive ones. */
  lemma LiteralToIpasirSign(layout: Layout, idx: int, literal: int, kind: Kind)
    requires idx >= 0
    ensures LiteralToIpasir(layout, idx, -literal, kind) == -LiteralToIpasir(layout, idx, literal, kind)
    ensures literal > 0 ==> LiteralToIpasir(layout, idx, literal, kind) > 0
  {
    BlockStartNonNegative(layout, idx, kind);
  }

  /**
   * Two problem and one helper variable per point, helpers after: slot i
   * uses 3i + 1 and 3i + 2 for the problem variables and 3i + 3 for the
   * helper (the source's tests expect 1, 4 / 3, 6 / -5 for slots 0 and 1).
   */
  lemma SingleAfterExamples(idx: int, lit: int)
    requires idx >= 0 && 1 <= lit <= 2
    ensures LiteralToIpasir(Layout(2, 1, SingleAfter), idx, lit, Problem) == 3 * idx + lit
    ensures LiteralToIpasir(Layout(2, 1, SingleAfter), idx, -lit, Problem) == -(3 * idx + lit)
    ensures LiteralToIpasir(Layout(2, 1, SingleAfter), idx, 1, Helper) == 3 * idx + 3
    ensures LiteralToIpasir(Layout(2, 1, SingleAfter), idx, -1, Helper) == -(3 * idx + 3)
  {
  }

  /** Slot-major numbering is injective: slot i, position l (1 <= l <= w) gives i * w + l. */
  lemma BlockInjective(w: int, i1: int, l1: int, i2: int, l2: int)
    requires i1 >= 0 && i2 >= 0 && 1 <= l1 <= w && 1 <= l2 <= w
    requires i1 * w + l1 == i2 * w + l2
    ensures i1 == i2 && l1 == l2
  {
    if i1 < i2 {
      MulNonNegative(i2 - i1 - 1, w);
    } else if i2 < i1 {
      MulNonNegative(i1 - i2 - 1, w);
    }
  }

  /** Position of (kind, literal) inside a slot of the interleaved layouts, from 1. */
  function SlotPosition(layout: Layout, literal: int, kind: Kind): int
  {
    BlockStart(layout, 0, kind) + literal
  }

  /**
   * In the interleaved layouts every variable of every slot has its own
   * positive IPASIR variable: different (slot, kind, variable) triples never
   * share one.
   */
  lemma InterleavedInjective(layout: Layout, i1: int, k1: Kind, l1: int, i2: int, k2: Kind, l2: int)
    requires layout.position != AllBefore
    requires i1 >= 0 && i2 >= 0
    requires 1 <= l1 <= Width(layout, k1) && 1 <= l2 <= Width(layout, k2)
    requires (i1, k1, l1) != (i2, k2, l2)
    ensures LiteralToIpasir(layout, i1, l1, k1) != LiteralToIpasir(layout, i2, l2, k2)
  {
    var w := layout.varsPerTime + layout.helperPerTime;
    assert LiteralToIpasir(layout, i1, l1, k1) == i1 * w + SlotPosition(layout, l1, k1);
    assert LiteralToIpasir(layout, i2, l2, k2) == i2 * w + SlotPosition(layout, l2, k2);
    if LiteralToIpasir(layout, i1, l1, k1) == LiteralToIpasir(layout, i2, l2, k2) {
      BlockInjective(w, i1, SlotPosition(layout, l1, k1), i2, SlotPosition(layout, l2, k2));
    }
  }

  /**
   * The layout that places all helper variables first keeps them apart
   * from the problem variables, which start at 1001, exactly as long as the
   * helper block of the slot ends at or below 1000.
   */
  lemma AllBeforeSeparated(layout: Layout, ih: int, lh: int, ip: int, lp: int)
    requires layout.position == AllBefore
    requires ih >= 0 && ip >= 0 && 1 <= lh <= layout.helperPerTime && 1 <= lp <= layout.varsPerTime
    requires ih * layout.helperPerTime + layout.helperPerTime <= 1000
    ensures LiteralToIpasir(layout, ih, lh, Helper) != LiteralToIpasir(layout, ip, lp, Problem)
  {
    MulNonNegative(ip, layout.varsPerTime);
  }

  /** Within one kind, the all-helpers-first layout is injective too. */
  lemma AllBeforeInjective(layout: Layout, kind: Kind, i1: int, l1: int, i2: int, l2: int)
    requires layout.position == AllBefore
    requires i1 >= 0 && i2 >= 0 && 1 <= l1 <= Width(layout, kind) && 1 <= l2 <= Width(layout, kind)
    requires (i1, l1) != (i2, l2)
    ensures LiteralToIpasir(layout, i1, l1, kind) != LiteralToIpasir(layout, i2, l2, kind)
  {
    if LiteralToIpasir(layout, i1, l1, kind) == LiteralToIpasir(layout, i2, l2, kind) {
      BlockInjective(Width(layout, kind), i1, l1, i2, l2);
    }
  }

  /** Past slot 999 (one helper per slot) a helper variable lands on a problem variable. */
  lemma AllBeforeCollision()
    ensures var layout := Layout(1, 1, AllBefore);
            LiteralToIpasir(layout, 1000, 1, Helper) == LiteralToIpasir(layout, 0, 1, Problem)
  {
  }

  // ---------------------------------------------------------------------
  // The slot table
  // ---------------------------------------------------------------------

  /** Every slot lies in 0 .. |m| - 1. */
  predicate SlotsInRange(m: map<TimePoint, int>)
  {
    forall t :: t in m ==> 0 <= m[t] < |m|
  }

  /** No two time points share a slot. */
  predicate SlotsUnique(m: map<TimePoint, int>)
  {
    forall a, b :: a in m && b in m && m[a] == m[b] ==> a == b
  }

  /** Slots 0 .. |m| - 1, each used by exactly one time point. */
  predicate Dense(m: map<TimePoint, int>)
  {
    SlotsInRange(m) && SlotsUnique(m)
  }

  /** The slot `t` has, or gets when it is registered now. */
  function IndexOf(m: map<TimePoint, int>, t: TimePoint): (r: int)
    requires SlotsInRange(m)
    ensures 0 <= r <= |m|
    ensures r == |m| <==> t !in m
  {
    if t in m then m[t] else |m|
  }

  /** Inserts `t` with the next slot unless it is already there. */
  function Register(m: map<TimePoint, int>, t: TimePoint): (r: map<TimePoint, int>)
    requires SlotsInRange(m)
    ensures SlotsInRange(r)
    ensures t in r && r[t] == IndexOf(m, t)
    ensures forall u :: u in m ==> u in r && r[u] == m[u]
  {
    if t in m then m else m[t := |m|]
  }

  lemma RegisterKeepsDense(m: map<TimePoint, int>, t: TimePoint)
    requires Dense(m)
    ensures Dense(Register(m, t))
  {
    var r := Register(m, t);
    forall a, b | a in r && b in r && r[a] == r[b]
      ensures a == b
    {
      if a != t && b != t {
        assert m[a] == m[b];
      }
    }
  }

  /** Two different time points never share a slot. */
  lemma SlotsDistinct(m: map<TimePoint, int>, a: TimePoint, b: TimePoint)
    requires Dense(m)
    ensures a != b ==> IndexOf(Register(m, a), b) != IndexOf(m, a)
  {
    RegisterKeepsDense(m, a);
  }

  // ---------------------------------------------------------------------
  // Requests and their translation
  // ---------------------------------------------------------------------

  /** A literal of `kind` at time point `t`; literal 0 is a clause terminator. */
  datatype Lit = Lit(lit: int, t: TimePoint, kind: Kind)

  /** One call of the encoder's interface. */
  datatype Request =
    | AddLit(l: Lit)
    | AssumeLit(l: Lit)
    | ValueLit(l: Lit)
    | FinalizeClause
    | SolveReq(result: Ipasir.SolveResult)
    | ResetReq

  /** The literal a request carries; 0 for the terminator, `solve` and `reset`. */
  function RequestLiteral(req: Request): int
  {
    if req.AddLit? || req.AssumeLit? || req.ValueLit? then req.l.lit else 0
  }

  function EventLiteral(e: Ipasir.Event): int
  {
    match e
    case Add(l) => l
    case Assume(l) => l
    case Val(l) => l
    case _ => 0
  }

  /** The slot table after one request: a non-zero literal registers its time point. */
  function TableAfterOne(m: map<TimePoint, int>, req: Request): (r: map<TimePoint, int>)
    requires SlotsInRange(m)
    ensures SlotsInRange(r)
    ensures forall u :: u in m ==> u in r && r[u] == m[u]
  {
    if RequestLiteral(req) == 0 then m else Register(m, req.l.t)
  }

  /** The IPASIR call one request becomes, given the slot table before it. */
  function EventOf(layout: Layout, m: map<TimePoint, int>, req: Request): (e: Ipasir.Event)
    requires SlotsInRange(m)
    ensures e.Assume? <==> req.AssumeLit?
    ensures e.Add? <==> req.AddLit? || req.FinalizeClause?
    ensures e.Val? <==> req.ValueLit?
    ensures e.Solve? <==> req.SolveReq?
    ensures e.Reset? <==> req.ResetReq?
    ensures EventLiteral(e) == 0 <==> RequestLiteral(req) == 0
  {
    match req
    case FinalizeClause => Ipasir.Add(0)
    case SolveReq(r) => Ipasir.Solve(r)
    case ResetReq => Ipasir.Reset
    case AddLit(Lit(lit, t, kind)) => Ipasir.Add(LiteralToIpasir(layout, IndexOf(m, t), lit, kind))
    case AssumeLit(Lit(lit, t, kind)) => Ipasir.Assume(LiteralToIpasir(layout, IndexOf(m, t), lit, kind))
    case ValueLit(Lit(lit, t, kind)) => Ipasir.Val(LiteralToIpasir(layout, IndexOf(m, t), lit, kind))
  }

  /** The slot table after a sequence of requests; slots once given never change. */
  function TableAfter(m: map<TimePoint, int>, reqs: seq<Request>): (r: map<TimePoint, int>)
    requires SlotsInRange(m)
    ensures SlotsInRange(r)
    ensures forall u :: u in m ==> u in r && r[u] == m[u]
  {
    if reqs == [] then m else TableAfterOne(TableAfter(m, reqs[..|reqs| - 1]), reqs[|reqs| - 1])
  }

  /** The IPASIR calls a sequence of requests becomes, one per request. */
  function Events(layout: Layout, m: map<TimePoint, int>, reqs: seq<Request>): (r: seq<Ipasir.Event>)
    requires SlotsInRange(m)
    ensures |r| == |reqs|
  {
    if reqs == [] then []
    else
      var init := reqs[..|reqs| - 1];
      Events(layout, m, init) + [EventOf(layout, TableAfter(m, init), reqs[|reqs| - 1])]
  }

  /**
   * Every request becomes exactly one IPASIR call of its own kind (add for
   * add and finalize, assume for assume, val for a value query, solve and
   * reset for themselves),
   * whose literal is zero exactly when the request's is.
   */
  lemma {:induction false} EventsShape(layout: Layout, m: map<TimePoint, int>, reqs: seq<Request>, i: int)
    requires SlotsInRange(m) && 0 <= i < |reqs|
    ensures var e := Events(layout, m, reqs)[i];
            (e.Assume? <==> reqs[i].AssumeLit?) && (e.Add? <==> reqs[i].AddLit? || reqs[i].FinalizeClause?)
            && (e.Val? <==> reqs[i].ValueLit?) && (e.Solve? <==> reqs[i].SolveReq?) && (e.Reset? <==> reqs[i].ResetReq?)
            && (EventLiteral(e) == 0 <==> RequestLiteral(reqs[i]) == 0)
  {
    if i < |reqs| - 1 {
      EventsShape(layout, m, reqs[..|reqs| - 1], i);
    }
  }

  lemma {:induction false} TableAfterConcat(m: map<TimePoint, int>, a: seq<Request>, b: seq<Request>)
    requires SlotsInRange(m)
    ensures TableAfter(m, a + b) == TableAfter(TableAfter(m, a), b)
  {
    if b == [] {
      assert a + b == a;
    } else {
      TableAfterConcat(m, a, b[..|b| - 1]);
      assert (a + b)[..|a + b| - 1] == a + b[..|b| - 1];
    }
  }

  lemma {:induction false} TableAfterDense(m: map<TimePoint, int>, reqs: seq<Request>)
    requires Dense(m)
    ensures Dense(TableAfter(m, reqs))
  {
    if reqs != [] {
      TableAfterDense(m, reqs[..|reqs| - 1]);
      var last := reqs[|reqs| - 1];
      if RequestLiteral(last) != 0 {
        RegisterKeepsDense(TableAfter(m, reqs[..|reqs| - 1]), last.l.t);
      }
    }
  }

  /** Translating two request sequences one after the other is translating their concatenation. */
  lemma {:induction false} EventsConcat(layout: Layout, m: map<TimePoint, int>, a: seq<Request>, b: seq<Request>)
    requires SlotsInRange(m)
    ensures Events(layout, m, a + b) == Events(layout, m, a) + Events(layout, TableAfter(m, a), b)
  {
    if b == [] {
      assert a + b == a;
    } else {
      var init := b[..|b| - 1];
      EventsConcat(layout, m, a, init);
      TableAfterConcat(m, a, init);
      assert (a + b)[..|a + b| - 1] == a + init;
    }
  }

  /**
   * Slots are permanent: every call a request sequence becomes is the one
   * its request would become under the final table, and every time point
   * mentioned by a non-zero literal is in that table.
   */
  lemma {:induction false} EventsUseFinalTable(layout: Layout, m: map<TimePoint, int>, reqs: seq<Request>, i: int)
    requires SlotsInRange(m) && 0 <= i < |reqs|
    ensures Events(layout, m, reqs)[i] == EventOf(layout, TableAfter(m, reqs), reqs[i])
    ensures RequestLiteral(reqs[i]) != 0 ==> reqs[i].l.t in TableAfter(m, reqs)
  {
    var init, last := reqs[..|reqs| - 1], reqs[|reqs| - 1];
    var before := TableAfter(m, init);
    var after := TableAfter(m, reqs);
    assert after == TableAfterOne(before, last);
    if i < |reqs| - 1 {
      EventsUseFinalTable(layout, m, init, i);
      assert init[i] == reqs[i];
      if RequestLiteral(reqs[i]) != 0 {
        assert IndexOf(after, reqs[i].l.t) == IndexOf(before, reqs[i].l.t);
      }
    } else if RequestLiteral(last) != 0 {
      assert IndexOf(after, last.l.t) == IndexOf(before, last.l.t);
    }
  }

  // ---------------------------------------------------------------------
  // The encoder object
  // ---------------------------------------------------------------------

  /** One more request extends the table by one step and the calls by one call. */
  lemma RequestsStep(layout: Layout, m: map<TimePoint, int>, reqs: seq<Request>, req: Request)
    requires SlotsInRange(m)
    ensures TableAfter(m, reqs + [req]) == TableAfterOne(TableAfter(m, reqs), req)
    ensures Events(layout, m, reqs + [req]) == Events(layout, m, reqs) + [EventOf(layout, TableAfter(m, reqs), req)]
  {
    assert (reqs + [req])[..|reqs|] == reqs;
  }

  /**
   * The value of problem literal `lit` given what `val` reported for its
   * solver literal `v`: `lit` if true, `-lit` if false, 0 if unassigned.
   */
  function ProblemValue(lit: int, v: int): (r: int)
    ensures r == 0 <==> v == 0 || lit == 0
    ensures v > 0 ==> r == lit
    ensures v < 0 ==> r == -lit
  {
    if v == 0 then 0 else if v < 0 then -lit else lit
  }

  /**
   * Owns the slot table and the IPASIR solver it writes to.  The ghost
   * `requests` is the history of calls on this object; the table and the
   * solver's calls are always what that history produces.
   */
  class TimePointBasedSolver {
    const varsPerTime: nat
    const helperPerTime: nat
    const helperVariablePosition: HelperVariablePosition
    var timePoints: map<TimePoint, int>
    const solver: Ipasir.Solver
    ghost var requests: seq<Request>
    /** The solver's calls before this object took it over. */
    ghost const initialLog: seq<Ipasir.Event>

    function GetLayout(): Layout
    {
      Layout(varsPerTime, helperPerTime, helperVariablePosition)
    }

    /** The table is dense and the solver follows its protocol. */
    ghost predicate Sound()
      reads this, solver
    {
      solver.Valid() && Dense(timePoints)
    }

    /**
     * The solver follows its protocol, and the table and the solver's calls
     * are what the request history produces; the table is then dense too
     * (`ValidIsSound`).
     */
    ghost predicate Valid()
      reads this, solver
    {
      solver.Valid()
      && timePoints == TableAfter(map[], requests)
      && solver.log == initialLog + Events(GetLayout(), map[], requests)
    }

    lemma ValidIsSound()
      requires Valid()
      ensures Sound()
    {
      TableAfterDense(map[], requests);
    }

    constructor(varsPerTime: nat, helperPerTime: nat, solver: Ipasir.Solver, position: HelperVariablePosition)
      requires solver.Valid()
      ensures Valid() && timePoints == map[] && requests == [] && this.solver == solver
      ensures initialLog == solver.log
      ensures GetLayout() == Layout(varsPerTime, helperPerTime, position)
    {
      this.varsPerTime := varsPerTime;
      this.helperPerTime := helperPerTime;
      this.solver := solver;
      this.helperVariablePosition := position;
      timePoints := map[];
      requests := [];
      initialLog := solver.log;
    }

    /** Helper variables after the problem variables of each slot, the source's default. */
    constructor WithDefaultPosition(varsPerTime: nat, helperPerTime: nat, solver: Ipasir.Solver)
      requires solver.Valid()
      ensures Valid() && timePoints == map[] && requests == [] && this.solver == solver
      ensures initialLog == solver.log
      ensures GetLayout() == Layout(varsPerTime, helperPerTime, SingleAfter)
    {
      this.varsPerTime := varsPerTime;
      this.helperPerTime := helperPerTime;
      this.solver := solver;
      this.helperVariablePosition := SingleAfter;
      timePoints := map[];
      requests := [];
      initialLog := solver.log;
    }

    method GetIndex(t: TimePoint) returns (idx: int)
      requires Sound()
      modifies this`timePoints
      ensures Sound()
      ensures idx == IndexOf(old(timePoints), t) && timePoints == Register(old(timePoints), t)
    {
      RegisterKeepsDense(timePoints, t);
      if t !in timePoints {
        timePoints := timePoints[t := |timePoints|];
      }
      idx := timePoints[t];
    }

    /** The signed offset of `literal`; the terminator 0 does not touch the table. */
    method GetOffset(literal: int, t: TimePoint, kind: Kind) returns (offset: int)
      requires Sound()
      modifies this`timePoints
      ensures Sound()
      ensures literal == 0 ==> offset == 0 && timePoints == old(timePoints)
      ensures literal != 0 ==> timePoints == Register(old(timePoints), t)
      ensures offset + literal == LiteralToIpasir(GetLayout(), IndexOf(old(timePoints), t), literal, kind)
    {
      if literal == 0 {
        return 0;
      }
      var idx := GetIndex(t);
      match helperVariablePosition {
        case SingleBefore =>
          offset := idx * (varsPerTime + helperPerTime);
          if kind == Problem {
            offset := offset + helperPerTime;
          }
        case SingleAfter =>
          offset := idx * (varsPerTime + helperPerTime);
          if kind == Helper {
            offset := offset + varsPerTime;
          }
        case AllBefore =>
          if kind == Helper {
            offset := idx * helperPerTime;
          } else {
            offset := idx * varsPerTime + 1000;
          }
      }
      if literal < 0 {
        offset := -offset;
      }
    }

    /** `problemLiteral2Ipasir` and `helperLiteral2Ipasir`. */
    method LiteralToIpasirAt(literal: int, t: TimePoint, kind: Kind) returns (r: int)
      requires Sound()
      modifies this`timePoints
      ensures Sound()
      ensures timePoints == TableAfterOne(old(timePoints), AddLit(Lit(literal, t, kind)))
      ensures r == LiteralToIpasir(GetLayout(), IndexOf(old(timePoints), t), literal, kind)
    {
      var offset := GetOffset(literal, t, kind);
      r := offset + literal;
    }

    /** Forwards one literal (or the terminator 0) of the clause under construction. */
    method Add(l: Lit)
      requires Valid()
      modifies this`timePoints, this`requests, solver`state, solver`log
      ensures Valid() && solver.state == Ipasir.InputState
      ensures requests == old(requests) + [AddLit(l)]
      ensures timePoints == TableAfterOne(old(timePoints), AddLit(l))
      ensures solver.log == old(solver.log) + [EventOf(GetLayout(), old(timePoints), AddLit(l))]
    {
      RequestsStep(GetLayout(), map[], requests, AddLit(l));
      ValidIsSound();
      var x := LiteralToIpasirAt(l.lit, l.t, l.kind);
      solver.Add(x);
      requests := requests + [AddLit(l)];
    }

    /** Forwards one assumption for the next solve. */
    method Assume(l: Lit)
      requires Valid()
      modifies this`timePoints, this`requests, solver`state, solver`log
      ensures Valid() && solver.state == Ipasir.InputState
      ensures requests == old(requests) + [AssumeLit(l)]
      ensures timePoints == TableAfterOne(old(timePoints), AssumeLit(l))
      ensures solver.log == old(solver.log) + [EventOf(GetLayout(), old(timePoints), AssumeLit(l))]
    {
      RequestsStep(GetLayout(), map[], requests, AssumeLit(l));
      ValidIsSound();
      var x := LiteralToIpasirAt(l.lit, l.t, l.kind);
      solver.Assume(x);
      requests := requests + [AssumeLit(l)];
    }

    method AddProblemLiteral(lit: int, t: TimePoint)
      requires Valid()
      modifies this`timePoints, this`requests, solver`state, solver`log
      ensures Valid() && solver.state == Ipasir.InputState
      ensures requests == old(requests) + [AddLit(Lit(lit, t, Problem))]
    {
      Add(Lit(lit, t, Problem));
    }

    method AddHelperLiteral(lit: int, t: TimePoint)
      requires Valid()
      modifies this`timePoints, this`requests, solver`state, solver`log
      ensures Valid() && solver.state == Ipasir.InputState
      ensures requests == old(requests) + [AddLit(Lit(lit, t, Helper))]
    {
      Add(Lit(lit, t, Helper));
    }

    method AssumeProblemLiteral(lit: int, t: TimePoint)
      requires Valid()
      modifies this`timePoints, this`requests, solver`state, solver`log
      ensures Valid() && solver.state == Ipasir.InputState
      ensures requests == old(requests) + [AssumeLit(Lit(lit, t, Problem))]
    {
      Assume(Lit(lit, t, Problem));
    }

    method AssumeHelperLiteral(lit: int, t: TimePoint)
      requires Valid()
      modifies this`timePoints, this`requests, solver`state, solver`log
      ensures Valid() && solver.state == Ipasir.InputState
      ensures requests == old(requests) + [AssumeLit(Lit(lit, t, Helper))]
    {
      Assume(Lit(lit, t, Helper));
    }

    method FinalizeClause()
      requires Valid()
      modifies this`requests, solver`state, solver`log
      ensures Valid() && solver.state == Ipasir.InputState
      ensures requests == old(requests) + [Request.FinalizeClause]
      ensures solver.log == old(solver.log) + [Ipasir.Add(0)]
    {
      RequestsStep(GetLayout(), map[], requests, Request.FinalizeClause);
      solver.Add(0);
      requests := requests + [Request.FinalizeClause];
    }

    /**
     * The value of problem literal `lit` at `t` in the model, expressed as
     * `lit` (its IPASIR literal is true), `-lit` (false) or 0 (unassigned).
     */
    method ValueProblemLiteral(lit: int, t: TimePoint) returns (r: int)
      requires Valid() && solver.state == Ipasir.SatState
      modifies this`timePoints, this`requests, solver`log
      ensures Valid() && solver.state == Ipasir.SatState
      ensures requests == old(requests) + [ValueLit(Lit(lit, t, Problem))]
      ensures timePoints == TableAfterOne(old(timePoints), ValueLit(Lit(lit, t, Problem)))
      ensures r == ProblemValue(lit, Ipasir.Value(solver.model, LiteralToIpasir(GetLayout(), IndexOf(old(timePoints), t), lit, Problem)))
    {
      RequestsStep(GetLayout(), map[], requests, ValueLit(Lit(lit, t, Problem)));
      ValidIsSound();
      var x := LiteralToIpasirAt(lit, t, Problem);
      var value := solver.Val(x);
      requests := requests + [ValueLit(Lit(lit, t, Problem))];
      if value == 0 {
        r := 0;
      } else if value < 0 {
        r := -lit;
      } else {
        r := lit;
      }
    }

    method SolveSAT() returns (result: Ipasir.SolveResult)
      requires Valid()
      modifies this`requests, solver`state, solver`log, solver`model, solver`failedAssumptions
      ensures Valid()
      ensures requests == old(requests) + [SolveReq(result)]
      ensures solver.log == old(solver.log) + [Ipasir.Solve(result)]
      ensures solver.state == Ipasir.StateAfterSolve(result)
    {
      result := solver.Solve();
      RequestsStep(GetLayout(), map[], requests, SolveReq(result));
      requests := requests + [SolveReq(result)];
    }

    /** Resets the solver; the slot table is kept. */
    method Reset()
      requires Valid()
      modifies this`requests, solver`state, solver`log, solver`terminate, solver`learn, solver`learnMaxLength
      ensures Valid() && solver.state == Ipasir.InputState
      ensures requests == old(requests) + [ResetReq] && timePoints == old(timePoints)
      ensures solver.log == old(solver.log) + [Ipasir.Reset] && Ipasir.Replay(solver.log) == Ipasir.Empty
    {
      RequestsStep(GetLayout(), map[], requests, ResetReq);
      solver.Reset();
      requests := requests + [ResetReq];
    }
  }
}
