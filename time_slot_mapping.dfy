/**
 * Time points and the managers that hand them out.
 *
 * A time point is a pair (stack, index).  The single-ended manager grows
 * one stack from the initial state towards the goal.  The double-ended
 * manager grows one stack from the initial state (FromBegin) and one from
 * the goal state (FromEnd); read front to back, the timeline is
 * B0, B1, ..., B(beginTop), E(endTop), ..., E1, E0.  With the Duplicated
 * option the two top elements are the same moment, so B(beginTop) and
 * E(endTop) are two names of one point.
 *
 * The managers are modelled twice: as a value (`Manager`) with pure query
 * functions, on which the properties are proved, and as the two classes of
 * the source, whose only mutator `AquireNext` is tied to the value model.
 */
module TimeSlotMapping {

  import opened Wrappers

  datatype TimePoint = TimePoint(tag: int, index: int)

  /** Stack tags of the double-ended manager (only their distinctness matters). */
  const FromBegin: int := 0
  const FromEnd: int := 1

  datatype TopElementOption = Unique | Duplicated

  /** The floating-point growth ratio, kept as an exact fraction. */
  datatype Fraction = Fraction(num: int, den: int)
  type Ratio = r: Fraction | r.den > 0 witness Fraction(1, 1)

  /** std::invalid_argument and std::out_of_range. */
  datatype Failure = InvalidArgument | OutOfRange

  datatype Manager =
    | SingleEnded(next: int)
    | DoubleEnded(beginTop: int, endTop: int, ratio: Ratio, option: TopElementOption)

  /** The states a manager can reach from its constructor. */
  predicate Reachable(m: Manager)
  {
    match m
    case SingleEnded(next) => next >= 0
    case DoubleEnded(bt, et, _, _) => (bt == -1 && et == -1) || (bt == 0 && et == -1) || (bt >= 0 && et >= 0)
  }

  /** Whether a double-ended manager puts its next point on the begin stack (both stacks seeded). */
  predicate GrowsBegin(m: Manager)
    requires m.DoubleEnded?
  {
    // countBegin / countAll <= ratio, multiplied out (countAll > 0 once both stacks are seeded)
    (m.beginTop + 1) * m.ratio.den <= m.ratio.num * (m.beginTop + m.endTop + 2)
  }

  /**
   * Hands out the next time point: the single-ended manager counts up;
   * the double-ended one seeds the begin stack, then the end stack, then
   * grows the begin stack while its share stays within the ratio.
   */
  function AcquireNext(m: Manager): (r: (Manager, TimePoint))
    requires Reachable(m)
    ensures Reachable(r.0)
    ensures m.SingleEnded? ==> r.0 == SingleEnded(m.next + 1) && r.1 == TimePoint(0, m.next)
    ensures m.DoubleEnded? ==>
              r.0.DoubleEnded? && r.0.ratio == m.ratio && r.0.option == m.option
              && ((r.1 == TimePoint(FromBegin, m.beginTop + 1) && r.0.beginTop == m.beginTop + 1 && r.0.endTop == m.endTop)
                  || (r.1 == TimePoint(FromEnd, m.endTop + 1) && r.0.endTop == m.endTop + 1 && r.0.beginTop == m.beginTop))
    ensures m.DoubleEnded? && m.beginTop == -1 ==> r.1 == TimePoint(FromBegin, 0)
    ensures m.DoubleEnded? && m.beginTop >= 0 && m.endTop == -1 ==> r.1 == TimePoint(FromEnd, 0)
    ensures m.DoubleEnded? && m.beginTop >= 0 && m.endTop >= 0 ==> (r.1.tag == FromBegin <==> GrowsBegin(m))
  {
    match m
    case SingleEnded(next) => (SingleEnded(next + 1), TimePoint(0, next))
    case DoubleEnded(bt, et, ratio, option) =>
      if bt == -1 then (m.(beginTop := 0), TimePoint(FromBegin, 0))
      else if et == -1 then (m.(endTop := 0), TimePoint(FromEnd, 0))
      else if GrowsBegin(m) then (m.(beginTop := bt + 1), TimePoint(FromBegin, bt + 1))
      else (m.(endTop := et + 1), TimePoint(FromEnd, et + 1))
  }

  /** Whether a point has been handed out by a double-ended manager. */
  predicate IsValid(m: Manager, t: TimePoint)
    requires m.DoubleEnded?
  {
    ((t.tag == FromBegin && t.index <= m.beginTop) || (t.tag == FromEnd && t.index <= m.endTop))
    && t.index >= 0
  }

  /** Index of the last point of the timeline (the first has rank 0). */
  function Span(m: Manager): int
  {
    match m
    case SingleEnded(next) => next - 1
    case DoubleEnded(bt, et, _, option) => if option == Duplicated then bt + et else bt + et + 1
  }

  /** Position of a point on the timeline; both names of a duplicated top share one rank. */
  function Rank(m: Manager, t: TimePoint): int
  {
    if m.SingleEnded? || t.tag == FromBegin then t.index else Span(m) - t.index
  }

  /**
   * The next point in time.  Double-ended: a point that was not handed
   * out is an invalid argument, a step past the goal is out of range.
   */
  function Successor(m: Manager, t: TimePoint): (r: Result<TimePoint, Failure>)
    requires Reachable(m)
    ensures m.SingleEnded? ==> r == Ok(TimePoint(0, t.index + 1))
    ensures m.DoubleEnded? && !IsValid(m, t) ==> r == Err(InvalidArgument)
    ensures m.DoubleEnded? && IsValid(m, t) ==>
              (r.Ok? <==> Rank(m, t) < Span(m)) && (r.Err? ==> r.error == OutOfRange)
    ensures m.DoubleEnded? && r.Ok? ==> IsValid(m, r.value) && Rank(m, r.value) == Rank(m, t) + 1
    ensures m.DoubleEnded? && m.option == Duplicated && r.Ok? ==> r.value != TimePoint(FromBegin, m.beginTop)
  {
    match m
    case SingleEnded(_) => Ok(TimePoint(0, t.index + 1))
    case DoubleEnded(bt, et, _, option) =>
      if !IsValid(m, t) then Err(InvalidArgument)
      else
        var step :=
          if t.tag == FromBegin then TimePoint(FromBegin, t.index + 1)
          else TimePoint(FromEnd, t.index - 1);
        var result :=
          if option == Duplicated then
            if step.tag == FromBegin && step.index == bt then TimePoint(FromEnd, et)
            else if step.tag == FromBegin && step.index == bt + 1 then TimePoint(FromEnd, et - 1)
            else step
          else if step.tag == FromBegin && step.index > bt then TimePoint(FromEnd, et)
          else step;
        if IsValid(m, result) then Ok(result) else Err(OutOfRange)
  }

  /** The previous point in time; the mirror image of `Successor`. */
  function Predecessor(m: Manager, t: TimePoint): (r: Result<TimePoint, Failure>)
    requires Reachable(m)
    ensures m.SingleEnded? ==> r == Ok(TimePoint(0, t.index - 1))
    ensures m.DoubleEnded? && !IsValid(m, t) ==> r == Err(InvalidArgument)
    ensures m.DoubleEnded? && IsValid(m, t) ==>
              (r.Ok? <==> Rank(m, t) > 0) && (r.Err? ==> r.error == OutOfRange)
    ensures m.DoubleEnded? && r.Ok? ==> IsValid(m, r.value) && Rank(m, r.value) == Rank(m, t) - 1
    ensures m.DoubleEnded? && m.option == Duplicated && r.Ok? ==> r.value != TimePoint(FromEnd, m.endTop)
  {
    match m
    case SingleEnded(_) => Ok(TimePoint(0, t.index - 1))
    case DoubleEnded(bt, et, _, option) =>
      if !IsValid(m, t) then Err(InvalidArgument)
      else
        var step :=
          if t.tag == FromBegin then TimePoint(FromBegin, t.index - 1)
          else TimePoint(FromEnd, t.index + 1);
        var result :=
          if option == Duplicated then
            if step.tag == FromEnd && step.index == et then TimePoint(FromBegin, bt)
            else if step.tag == FromEnd && step.index == et + 1 then TimePoint(FromBegin, bt - 1)
            else step
          else if step.tag == FromEnd && step.index > et then TimePoint(FromBegin, bt)
          else step;
        if IsValid(m, result) then Ok(result) else Err(OutOfRange)
  }

  /** Whether the point lies on the stack grown from the initial state. */
  predicate IsOnForwardStack(m: Manager, t: TimePoint)
  {
    m.SingleEnded? || t.tag == FromBegin
  }

  /** The point of the initial state. */
  function First(m: Manager): (r: TimePoint)
    ensures Rank(m, r) == 0
    ensures m.DoubleEnded? && m.beginTop >= 0 ==> IsValid(m, r)
  {
    if m.SingleEnded? then TimePoint(0, 0) else TimePoint(FromBegin, 0)
  }

  /** The point of the goal state. */
  function Last(m: Manager): (r: TimePoint)
    ensures Rank(m, r) == Span(m)
    ensures m.DoubleEnded? && m.endTop >= 0 ==> IsValid(m, r)
  {
    if m.SingleEnded? then TimePoint(0, m.next - 1) else TimePoint(FromEnd, 0)
  }

  /** `k` successor steps from `t`, failing with the first failure. */
  function Walk(m: Manager, t: TimePoint, k: nat): (r: Result<TimePoint, Failure>)
    requires Reachable(m)
    ensures m.SingleEnded? && k > 0 ==> r == Ok(TimePoint(0, t.index + k))
    ensures m.DoubleEnded? && m.endTop >= 0 && IsValid(m, t) ==> (r.Ok? <==> Rank(m, t) + k <= Span(m))
    ensures m.DoubleEnded? && IsValid(m, t) && r.Ok? ==> IsValid(m, r.value) && Rank(m, r.value) == Rank(m, t) + k
  {
    if k == 0 then Ok(t)
    else
      match Walk(m, t, k - 1)
      case Ok(u) => Successor(m, u)
      case Err(e) => Err(e)
  }

  /** `k` predecessor steps from `t`. */
  function WalkBack(m: Manager, t: TimePoint, k: nat): (r: Result<TimePoint, Failure>)
    requires Reachable(m)
    ensures m.SingleEnded? && k > 0 ==> r == Ok(TimePoint(0, t.index - k))
    ensures m.DoubleEnded? && m.endTop >= 0 && IsValid(m, t) ==> (r.Ok? <==> k <= Rank(m, t))
    ensures m.DoubleEnded? && IsValid(m, t) && r.Ok? ==> IsValid(m, r.value) && Rank(m, r.value) == Rank(m, t) - k
  {
    if k == 0 then Ok(t)
    else
      match WalkBack(m, t, k - 1)
      case Ok(u) => Predecessor(m, u)
      case Err(e) => Err(e)
  }

  /** The state after `k` acquisitions. */
  function AcquireMany(m: Manager, k: nat): (r: Manager)
    requires Reachable(m)
    ensures Reachable(r)
  {
    if k == 0 then m else AcquireNext(AcquireMany(m, k - 1)).0
  }

  // ---------------------------------------------------------------------
  // Traversal
  // ---------------------------------------------------------------------

  /** Walking forward from a valid point stays valid and advances the rank one per step. */
  lemma {:induction false} WalkAdvancesRank(m: Manager, t: TimePoint, k: nat)
    requires Reachable(m) && m.DoubleEnded? && IsValid(m, t)
    requires Rank(m, t) + k <= Span(m)
    ensures Walk(m, t, k).Ok?
    ensures IsValid(m, Walk(m, t, k).value) && Rank(m, Walk(m, t, k).value) == Rank(m, t) + k
    ensures k > 0 && m.option == Duplicated ==> Walk(m, t, k).value != TimePoint(FromBegin, m.beginTop)
  {
    if k > 0 {
      WalkAdvancesRank(m, t, k - 1);
    }
  }

  /** Walking backward from a valid point stays valid and lowers the rank one per step. */
  lemma {:induction false} WalkBackLowersRank(m: Manager, t: TimePoint, k: nat)
    requires Reachable(m) && m.DoubleEnded? && IsValid(m, t)
    requires k <= Rank(m, t)
    ensures WalkBack(m, t, k).Ok?
    ensures IsValid(m, WalkBack(m, t, k).value) && Rank(m, WalkBack(m, t, k).value) == Rank(m, t) - k
    ensures k > 0 && m.option == Duplicated ==> WalkBack(m, t, k).value != TimePoint(FromEnd, m.endTop)
  {
    if k > 0 {
      WalkBackLowersRank(m, t, k - 1);
    }
  }

  /**
   * With both stacks seeded and at least one step between them, walking
   * forward from the first point reaches the last point after exactly
   * `Span` steps.
   */
  lemma WalkFirstToLast(m: Manager)
    requires Reachable(m) && m.DoubleEnded? && m.beginTop >= 0 && m.endTop >= 0
    requires Span(m) >= 1
    ensures Walk(m, First(m), Span(m)) == Ok(Last(m))
  {
    WalkAdvancesRank(m, First(m), Span(m));
  }

  /** Walking backward from the last point reaches the first after `Span` steps. */
  lemma WalkBackLastToFirst(m: Manager)
    requires Reachable(m) && m.DoubleEnded? && m.beginTop >= 0 && m.endTop >= 0
    requires Span(m) >= 1
    ensures WalkBack(m, Last(m), Span(m)) == Ok(First(m))
  {
    WalkBackLowersRank(m, Last(m), Span(m));
  }

  /**
   * Successor and predecessor undo each other.  In Duplicated mode the
   * end-stack name of the shared top comes back under its begin-stack name.
   */
  lemma SuccessorThenPredecessor(m: Manager, t: TimePoint)
    requires Reachable(m) && m.DoubleEnded? && Successor(m, t).Ok?
    ensures (m.option == Duplicated && t == TimePoint(FromEnd, m.endTop)) ==>
              Predecessor(m, Successor(m, t).value) == Ok(TimePoint(FromBegin, m.beginTop))
    ensures !(m.option == Duplicated && t == TimePoint(FromEnd, m.endTop)) ==>
              Predecessor(m, Successor(m, t).value) == Ok(t)
  {
  }

  lemma PredecessorThenSuccessor(m: Manager, t: TimePoint)
    requires Reachable(m) && m.DoubleEnded? && m.endTop >= 0 && Predecessor(m, t).Ok?
    ensures (m.option == Duplicated && t == TimePoint(FromBegin, m.beginTop)) ==>
              Successor(m, Predecessor(m, t).value) == Ok(TimePoint(FromEnd, m.endTop))
    ensures !(m.option == Duplicated && t == TimePoint(FromBegin, m.beginTop)) ==>
              Successor(m, Predecessor(m, t).value) == Ok(t)
  {
  }

  /** Single-ended: `k` steps from the first point is the point with index `k`. */
  lemma {:induction false} SingleEndedWalk(next: int, k: nat)
    requires next >= 0
    ensures Walk(SingleEnded(next), First(SingleEnded(next)), k) == Ok(TimePoint(0, k))
  {
    if k > 0 {
      SingleEndedWalk(next, k - 1);
    }
  }

  /** Single-ended: after `k` acquisitions from a fresh manager the next index is k. */
  lemma {:induction false} SingleEndedAcquisitions(k: nat)
    ensures AcquireMany(SingleEnded(0), k) == SingleEnded(k)
  {
    if k > 0 {
      SingleEndedAcquisitions(k - 1);
      assert AcquireMany(SingleEnded(0), k) == AcquireNext(SingleEnded(k - 1)).0;
    }
  }

  /** Single-ended: the `k`-th acquisition hands out index k - 1, which becomes the last point. */
  lemma SingleEndedKthAcquisition(k: nat)
    requires k > 0
    ensures AcquireNext(AcquireMany(SingleEnded(0), k - 1)).1 == TimePoint(0, k - 1)
    ensures Last(AcquireMany(SingleEnded(0), k)) == TimePoint(0, k - 1)
  {
    SingleEndedAcquisitions(k - 1);
    SingleEndedAcquisitions(k);
  }

  // ---------------------------------------------------------------------
  // Acquisition order of the double-ended manager
  // ---------------------------------------------------------------------

  /** A freshly constructed double-ended manager. */
  function FreshDoubleEnded(ratio: Ratio, option: TopElementOption): (r: Manager)
    ensures Reachable(r) && r.DoubleEnded? && r.beginTop == -1 && r.endTop == -1
  {
    DoubleEnded(-1, -1, ratio, option)
  }

  /** (a + 1) * c <= d * (a + b + 2) whenever c == d > 0 and b >= 0. */
  lemma RatioOneHolds(a: int, b: int, c: int)
    requires a >= 0 && b >= 0 && c > 0
    ensures (a + 1) * c <= c * (a + b + 2)
  {
    assert c * (a + b + 2) == (a + 1) * c + (b + 1) * c;
  }

  /** With ratio 1 every acquisition after the two seeds goes to the begin stack. */
  lemma RatioOneGrowsBegin(m: Manager)
    requires Reachable(m) && m.DoubleEnded? && m.ratio.num == m.ratio.den
    requires m.beginTop >= 0 && m.endTop >= 0
    ensures AcquireNext(m).1 == TimePoint(FromBegin, m.beginTop + 1)
    ensures AcquireNext(m).0 == m.(beginTop := m.beginTop + 1)
  {
    RatioOneHolds(m.beginTop, m.endTop, m.ratio.den);
  }

  /** With ratio 1, after `k + 2` acquisitions the begin stack holds k + 1 points, the end stack one. */
  lemma {:induction false} RatioOneSchedule(ratio: Ratio, option: TopElementOption, k: nat)
    requires ratio.num == ratio.den
    ensures AcquireMany(FreshDoubleEnded(ratio, option), k + 2) == DoubleEnded(k, 0, ratio, option)
  {
    var initial := FreshDoubleEnded(ratio, option);
    if k == 0 {
      assert AcquireMany(initial, 1) == DoubleEnded(0, -1, ratio, option);
    } else {
      RatioOneSchedule(ratio, option, k - 1);
      RatioOneGrowsBegin(DoubleEnded(k - 1, 0, ratio, option));
      assert AcquireMany(initial, k + 2) == AcquireNext(AcquireMany(initial, k + 1)).0;
    }
  }

  /** The ratio-1/2 test (a + 1) * 2c <= c * (a + b + 2) in the two cases alternation meets. */
  lemma HalfRatioStep(a: int, b: int, c: int)
    requires c > 0 && a >= 0 && b >= 0
    ensures a == b ==> (a + 1) * (2 * c) <= c * (a + b + 2)
    ensures a == b + 1 ==> !((a + 1) * (2 * c) <= c * (a + b + 2))
  {
    assert (a + 1) * (2 * c) == 2 * (a * c) + 2 * c;
    assert c * (a + b + 2) == a * c + b * c + 2 * c;
    if a == b + 1 {
      assert a * c == b * c + c;
    }
  }

  /**
   * With ratio 1/2 the two stacks take turns, begin first: after the two
   * seeds and k further acquisitions the begin top is (k + 1) / 2 and the
   * end top k / 2.
   */
  lemma {:induction false} HalfRatioAlternates(ratio: Ratio, option: TopElementOption, k: nat)
    requires 2 * ratio.num == ratio.den
    ensures AcquireMany(FreshDoubleEnded(ratio, option), k + 2) == DoubleEnded((k + 1) / 2, k / 2, ratio, option)
  {
    var initial := FreshDoubleEnded(ratio, option);
    if k == 0 {
      assert AcquireMany(initial, 1) == DoubleEnded(0, -1, ratio, option);
    } else {
      HalfRatioAlternates(ratio, option, k - 1);
      HalfRatioStep(k / 2, (k - 1) / 2, ratio.num);
      assert AcquireMany(initial, k + 2) == AcquireNext(AcquireMany(initial, k + 1)).0;
    }
  }

  /** Unique top elements, ratio 1: a new begin point sits between the previous begin top and the goal. */
  lemma UniqueRatioOneInsertion(m: Manager)
    requires Reachable(m) && m.DoubleEnded? && m.option == Unique && m.ratio.num == m.ratio.den
    requires m.beginTop >= 0 && m.endTop == 0
    ensures var (m', t) := AcquireNext(m);
            IsOnForwardStack(m', t)
            && Predecessor(m', t) == Ok(TimePoint(FromBegin, m.beginTop))
            && Successor(m', t) == Ok(Last(m'))
            && First(m') == First(m) && Last(m') == Last(m)
  {
    RatioOneGrowsBegin(m);
  }

  /**
   * Duplicated top elements, ratio 1: the new begin point is the same
   * moment as the goal, so stepping forward from it is out of range and
   * the previous begin top is followed by the goal.
   */
  lemma DuplicatedRatioOneInsertion(m: Manager)
    requires Reachable(m) && m.DoubleEnded? && m.option == Duplicated && m.ratio.num == m.ratio.den
    requires m.beginTop >= 0 && m.endTop == 0
    ensures var (m', t) := AcquireNext(m);
            IsOnForwardStack(m', t)
            && Predecessor(m', t) == Ok(TimePoint(FromBegin, m.beginTop))
            && Successor(m', TimePoint(FromBegin, m.beginTop)) == Ok(Last(m'))
            && Successor(m', t) == Err(OutOfRange)
            && Predecessor(m', Last(m')) == Ok(TimePoint(FromBegin, m.beginTop))
  {
    RatioOneGrowsBegin(m);
  }

  /**
   * Duplicated top elements, ratio 1/2: the interior acquisitions
   * alternate, begin stack first, and after k of them the first point
   * reaches the goal after exactly k forward steps and the goal reaches the
   * first point after k backward steps.
   */
  lemma HalfRatioDuplicatedTraversal(ratio: Ratio, k: nat)
    requires 2 * ratio.num == ratio.den && k >= 1
    ensures var before := AcquireMany(FreshDoubleEnded(ratio, Duplicated), k + 1);
            IsOnForwardStack(before, AcquireNext(before).1) <==> k % 2 == 1
    ensures var m := AcquireMany(FreshDoubleEnded(ratio, Duplicated), k + 2);
            Walk(m, First(m), k) == Ok(Last(m)) && WalkBack(m, Last(m), k) == Ok(First(m))
  {
    HalfRatioAlternates(ratio, Duplicated, k - 1);
    HalfRatioAlternates(ratio, Duplicated, k);
    HalfRatioStep(k / 2, (k - 1) / 2, ratio.num);
    var m := AcquireMany(FreshDoubleEnded(ratio, Duplicated), k + 2);
    WalkFirstToLast(m);
    WalkBackLastToFirst(m);
  }

  // ---------------------------------------------------------------------
  // The two manager classes
  // ---------------------------------------------------------------------

  class SingleEndedTimePointManager {
    var next: int

    ghost predicate Valid()
      reads this
    {
      next >= 0
    }

    /** The manager as a value. */
    function Model(): Manager
      reads this
    {
      SingleEnded(next)
    }

    constructor()
      ensures Valid() && Model() == SingleEnded(0)
    {
      next := 0;
    }

    method AquireNext() returns (t: TimePoint)
      requires Valid()
      modifies this
      ensures Valid() && (Model(), t) == AcquireNext(old(Model()))
    {
      t := TimePoint(0, next);
      next := next + 1;
    }

    function GetSuccessor(t: TimePoint): TimePoint
    {
      TimePoint(0, t.index + 1)
    }

    function GetPredecessor(t: TimePoint): TimePoint
    {
      TimePoint(0, t.index - 1)
    }

    function GetFirst(): TimePoint
    {
      TimePoint(0, 0)
    }

    function GetLast(): TimePoint
      reads this
    {
      TimePoint(0, next - 1)
    }
  }

  /** The queries of the single-ended class agree with the value model. */
  lemma SingleEndedClassAgrees(tpm: SingleEndedTimePointManager, t: TimePoint)
    requires tpm.Valid()
    ensures Successor(tpm.Model(), t) == Ok(tpm.GetSuccessor(t))
    ensures Predecessor(tpm.Model(), t) == Ok(tpm.GetPredecessor(t))
    ensures First(tpm.Model()) == tpm.GetFirst() && Last(tpm.Model()) == tpm.GetLast()
  {
  }

  class DoubleEndedTimePointManager {
    var currentBeginTop: int
    var currentEndTop: int
    const ratio: Ratio
    const topElementOption: TopElementOption

    /** The manager as a value. */
    function Model(): Manager
      reads this
    {
      DoubleEnded(currentBeginTop, currentEndTop, ratio, topElementOption)
    }

    ghost predicate Valid()
      reads this
    {
      Reachable(Model())
    }

    constructor(ratio: Ratio, topElementOption: TopElementOption)
      ensures Valid() && Model() == FreshDoubleEnded(ratio, topElementOption)
    {
      this.ratio := ratio;
      this.topElementOption := topElementOption;
      currentBeginTop := -1;
      currentEndTop := -1;
    }

    /** The default constructor: ratio 1, unique top elements. */
    constructor Default()
      ensures Valid() && Model() == FreshDoubleEnded(Fraction(1, 1), Unique)
    {
      ratio := Fraction(1, 1);
      topElementOption := Unique;
      currentBeginTop := -1;
      currentEndTop := -1;
    }

    method AquireNext() returns (t: TimePoint)
      requires Valid()
      modifies this
      ensures Valid() && (Model(), t) == AcquireNext(old(Model()))
    {
      if currentBeginTop == -1 {
        currentBeginTop := currentBeginTop + 1;
        return TimePoint(FromBegin, currentBeginTop);
      }
      if currentEndTop == -1 {
        currentEndTop := currentEndTop + 1;
        return TimePoint(FromEnd, currentEndTop);
      }
      var countBegin := currentBeginTop + 1;
      var countAll := currentBeginTop + currentEndTop + 2;
      if countBegin * ratio.den <= ratio.num * countAll {
        currentBeginTop := currentBeginTop + 1;
        t := TimePoint(FromBegin, currentBeginTop);
      } else {
        currentEndTop := currentEndTop + 1;
        t := TimePoint(FromEnd, currentEndTop);
      }
    }

    predicate IsValid(t: TimePoint)
      reads this
    {
      ((t.tag == FromBegin && t.index <= currentBeginTop) || (t.tag == FromEnd && t.index <= currentEndTop))
      && t.index >= 0
    }

    function GetSuccessor(t: TimePoint): Result<TimePoint, Failure>
      reads this
      requires Valid()
    {
      Successor(Model(), t)
    }

    function GetPredecessor(t: TimePoint): Result<TimePoint, Failure>
      reads this
      requires Valid()
    {
      Predecessor(Model(), t)
    }

    predicate IsOnForwardStack(t: TimePoint)
    {
      t.tag == FromBegin
    }

    function GetFirst(): TimePoint
    {
      TimePoint(FromBegin, 0)
    }

    function GetLast(): TimePoint
    {
      TimePoint(FromEnd, 0)
    }
  }

  /** The queries of the double-ended class agree with the value model. */
  lemma DoubleEndedClassAgrees(tpm: DoubleEndedTimePointManager, t: TimePoint)
    requires tpm.Valid()
    ensures tpm.IsValid(t) <==> IsValid(tpm.Model(), t)
    ensures tpm.IsOnForwardStack(t) <==> IsOnForwardStack(tpm.Model(), t)
    ensures First(tpm.Model()) == tpm.GetFirst() && Last(tpm.Model()) == tpm.GetLast()
  {
  }

  /**
   * The source's basic single-ended test against the class: the first
   * point is both first and last, each new point becomes the last, and
   * neighbours are each other's successor and predecessor.
   */
  method SingleEndedBasicScenario() returns (tpm: SingleEndedTimePointManager, t0: TimePoint, t1: TimePoint, t2: TimePoint)
    ensures tpm.Valid() && t0 != t1 && t1 != t2
    ensures tpm.GetFirst() == t0 && tpm.GetLast() == t2
    ensures tpm.GetPredecessor(t1) == t0 && tpm.GetSuccessor(t0) == t1 && tpm.GetSuccessor(t1) == t2
  {
    tpm := new SingleEndedTimePointManager();
    t0 := tpm.AquireNext();
    assert tpm.GetFirst() == t0 && tpm.GetLast() == t0;
    t1 := tpm.AquireNext();
    assert tpm.GetFirst() == t0 && tpm.GetLast() == t1;
    assert tpm.GetSuccessor(t0) == t1 && tpm.GetPredecessor(t1) == t0;
    t2 := tpm.AquireNext();
  }

  /**
   * The source's unique-top ratio-1 test against the class: after the two
   * seeds, twenty insertions all go to the begin stack, each between the
   * previous one and the goal point.
   */
  method UniqueRatioOneScenario() returns (tpm: DoubleEndedTimePointManager, first: TimePoint, last: TimePoint)
    ensures tpm.Valid() && tpm.Model() == DoubleEnded(20, 0, Fraction(1, 1), Unique)
    ensures first == tpm.GetFirst() && last == tpm.GetLast()
    ensures tpm.GetPredecessor(TimePoint(FromBegin, 20)) == Ok(TimePoint(FromBegin, 19))
    ensures tpm.GetSuccessor(TimePoint(FromBegin, 20)) == Ok(last)
  {
    tpm := new DoubleEndedTimePointManager(Fraction(1, 1), Unique);
    first := tpm.AquireNext();
    last := tpm.AquireNext();
    assert first == tpm.GetFirst() && last == tpm.GetLast();
    var i := 0;
    var previous := first;
    while i < 20
      invariant 0 <= i <= 20
      invariant tpm.Valid() && tpm.Model() == DoubleEnded(i, 0, Fraction(1, 1), Unique)
      invariant first == tpm.GetFirst() && last == tpm.GetLast()
      invariant previous == TimePoint(FromBegin, i)
    {
      RatioOneGrowsBegin(tpm.Model());
      var t := tpm.AquireNext();
      assert tpm.IsOnForwardStack(t);
      assert tpm.GetPredecessor(t) == Ok(previous);
      assert tpm.GetSuccessor(t) == Ok(last);
      previous := t;
      i := i + 1;
    }
  }
}
