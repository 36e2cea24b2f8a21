/**
 * The scrambling IPASIR wrapper.  It buffers clauses and assumptions
 * instead of passing them on; on each `solve` it gives every variable seen
 * for the first time a fresh solver variable (in shuffled order), shuffles
 * the clauses, the literals of each clause and the assumptions, and only
 * then forwards everything, renamed, to the wrapped solver.  Answers from
 * the wrapped solver are renamed back.
 *
 * `toIpasir` maps an original variable to the solver's variable,
 * `fromIpasir` maps back; index 0 is reserved for 0 in both.  Each shuffle
 * is an unspecified permutation: callers of `Shuffle` know only that it
 * keeps the multiset of elements.
 */
module RandomizedIpasir {

  import Ipasir

  /** The variable of a literal. */
  function Var(lit: int): nat
  {
    if lit < 0 then -lit else lit
  }

  /** `lit` can be renamed with `table`: 0, or a variable the table maps to a non-zero variable. */
  predicate Mappable(table: seq<nat>, lit: int)
  {
    lit != 0 ==> Var(lit) < |table| && table[Var(lit)] != 0
  }

  predicate AllMappable(table: seq<nat>, lits: seq<int>)
  {
    forall i :: 0 <= i < |lits| ==> Mappable(table, lits[i])
  }

  /**
   * `map` (with `toIpasir`) and `unmap` (with `fromIpasir`): 0 stays 0,
   * any other literal becomes the table's variable for its variable, with
   * the literal's sign.
   */
  function MapLit(table: seq<nat>, lit: int): (r: int)
    requires Mappable(table, lit)
    ensures r == 0 <==> lit == 0
    ensures r < 0 <==> lit < 0
    ensures lit != 0 ==> Var(r) == table[Var(lit)]
  {
    if lit == 0 then 0
    else if lit < 0 then -(table[Var(lit)] as int)
    else table[Var(lit)]
  }

  /** Renames every literal of a clause. */
  function MapAll(table: seq<nat>, lits: seq<int>): (r: seq<int>)
    requires AllMappable(table, lits)
    ensures |r| == |lits|
    ensures forall i :: 0 <= i < |lits| ==> r[i] == MapLit(table, lits[i])
  {
    if lits == [] then []
    else MapAll(table, lits[..|lits| - 1]) + [MapLit(table, lits[|lits| - 1])]
  }

  /** Renames every clause. */
  function MapClauses(table: seq<nat>, cs: seq<seq<int>>): (r: seq<seq<int>>)
    requires forall k :: 0 <= k < |cs| ==> AllMappable(table, cs[k])
    ensures |r| == |cs|
  {
    if cs == [] then []
    else MapClauses(table, cs[..|cs| - 1]) + [MapAll(table, cs[|cs| - 1])]
  }

  /** Clause k of the renamed list is clause k renamed. */
  lemma {:induction false} MapClausesEach(table: seq<nat>, cs: seq<seq<int>>, k: int)
    requires forall i :: 0 <= i < |cs| ==> AllMappable(table, cs[i])
    requires 0 <= k < |cs|
    ensures MapClauses(table, cs)[k] == MapAll(table, cs[k])
  {
    if k < |cs| - 1 {
      MapClausesEach(table, cs[..|cs| - 1], k);
    }
  }

  /**
   * The two tables are inverse to each other on the known variables, and
   * slot 0 is reserved for 0 in both.
   */
  predicate Consistent(to: seq<nat>, from: seq<nat>, known: set<nat>)
  {
    |to| >= 1 && |from| >= 1 && to[0] == 0 && from[0] == 0
    && (forall v :: v in known ==> 1 <= v < |to| && 1 <= to[v] < |from| && from[to[v]] == v)
    && (forall i :: 1 <= i < |from| ==> from[i] in known && from[i] < |to| && to[from[i]] == i)
  }

  /** `unmap(map(l)) == l` for every literal whose variable is known. */
  lemma UnmapMap(to: seq<nat>, from: seq<nat>, known: set<nat>, lit: int)
    requires Consistent(to, from, known)
    requires lit != 0 ==> Var(lit) in known
    ensures Mappable(to, lit) && Mappable(from, MapLit(to, lit))
    ensures MapLit(from, MapLit(to, lit)) == lit
  {
  }

  /** `map(unmap(x)) == x` for every literal of the solver's variable range. */
  lemma MapUnmap(to: seq<nat>, from: seq<nat>, known: set<nat>, x: int)
    requires Consistent(to, from, known)
    requires x != 0 ==> Var(x) < |from|
    ensures Mappable(from, x) && Mappable(to, MapLit(from, x))
    ensures MapLit(to, MapLit(from, x)) == x
  {
    if x != 0 {
      assert from[Var(x)] in known;
    }
  }

  /** Renaming a clause of known literals and renaming it back gives the clause. */
  lemma {:induction false} UnmapMapAll(to: seq<nat>, from: seq<nat>, known: set<nat>, lits: seq<int>)
    requires Consistent(to, from, known)
    requires KnownLits(lits, known)
    ensures AllMappable(to, lits) && AllMappable(from, MapAll(to, lits))
    ensures MapAll(from, MapAll(to, lits)) == lits
  {
    forall l | l in lits
      ensures Mappable(to, l)
    {
      UnmapMap(to, from, known, l);
    }
    var mapped := MapAll(to, lits);
    forall x | x in mapped
      ensures Mappable(from, x)
    {
      var i :| 0 <= i < |lits| && mapped[i] == x;
      UnmapMap(to, from, known, lits[i]);
    }
    forall i | 0 <= i < |lits|
      ensures MapAll(from, mapped)[i] == lits[i]
    {
      UnmapMap(to, from, known, lits[i]);
    }
  }

  /** Every clause of known literals can be renamed. */
  lemma UnmapMapEach(to: seq<nat>, from: seq<nat>, known: set<nat>, cs: seq<seq<int>>)
    requires Consistent(to, from, known)
    requires forall k :: 0 <= k < |cs| ==> KnownLits(cs[k], known)
    ensures forall k :: 0 <= k < |cs| ==> AllMappable(to, cs[k])
  {
    forall k | 0 <= k < |cs|
      ensures AllMappable(to, cs[k])
    {
      UnmapMapAll(to, from, known, cs[k]);
    }
  }

  /** The literals are non-zero and their variables known. */
  predicate KnownLits(lits: seq<int>, known: set<nat>)
  {
    forall l :: l in lits ==> l != 0 && Var(l) in known
  }

  /** Shuffling keeps the literals known. */
  lemma PermutationKeepsKnown(a: seq<int>, b: seq<int>, known: set<nat>)
    requires multiset(a) == multiset(b) && KnownLits(a, known)
    ensures KnownLits(b, known)
  {
    forall l | l in b
      ensures l != 0 && Var(l) in known
    {
      assert l in multiset(b);
      assert l in multiset(a);
      assert l in a;
    }
  }

  /** The variables of a sequence of literals. */
  function LitVars(lits: seq<int>): set<nat>
  {
    if lits == [] then {} else LitVars(lits[..|lits| - 1]) + {Var(lits[|lits| - 1])}
  }

  /** The variables of a sequence of clauses. */
  function VarsOf(cs: seq<seq<int>>): set<nat>
  {
    if cs == [] then {} else VarsOf(cs[..|cs| - 1]) + LitVars(cs[|cs| - 1])
  }

  lemma {:induction false} LitVarsCover(lits: seq<int>, known: set<nat>)
    requires 0 !in lits && LitVars(lits) <= known
    ensures KnownLits(lits, known)
  {
    if lits != [] {
      var init := lits[..|lits| - 1];
      LitVarsCover(init, known);
      assert lits == init + [lits[|lits| - 1]];
    }
  }

  lemma {:induction false} VarsOfCover(cs: seq<seq<int>>, known: set<nat>)
    requires forall k :: 0 <= k < |cs| ==> 0 !in cs[k]
    requires VarsOf(cs) <= known
    ensures forall k :: 0 <= k < |cs| ==> KnownLits(cs[k], known)
  {
    if cs != [] {
      VarsOfCover(cs[..|cs| - 1], known);
      LitVarsCover(cs[|cs| - 1], known);
    }
  }

  /** A permutation has the same elements. */
  lemma SameMembers<T>(a: seq<T>, b: seq<T>)
    requires multiset(a) == multiset(b)
    ensures forall x :: x in a <==> x in b
  {
    forall x
      ensures x in a <==> x in b
    {
      assert x in a <==> x in multiset(a);
      assert x in b <==> x in multiset(b);
    }
  }

  /** No element occurs twice. */
  predicate Distinct(s: seq<nat>)
  {
    forall i, j :: 0 <= i < j < |s| ==> s[i] != s[j]
  }

  lemma {:induction false} DistinctCountsOnce(s: seq<nat>, x: nat)
    requires Distinct(s)
    ensures multiset(s)[x] <= 1
  {
    if s != [] {
      var init := s[..|s| - 1];
      assert s == init + [s[|s| - 1]];
      DistinctCountsOnce(init, x);
      if x == s[|s| - 1] {
        assert x !in init;
      }
    }
  }

  lemma CountsTwice(s: seq<nat>, i: int, j: int)
    requires 0 <= i < j < |s| && s[i] == s[j]
    ensures multiset(s)[s[i]] >= 2
  {
    assert s == s[..j] + [s[j]] + s[j + 1..];
    assert s[i] in s[..j];
  }

  /** A permutation of a sequence without repetitions has none either. */
  lemma PermutationKeepsDistinct(a: seq<nat>, b: seq<nat>)
    requires multiset(a) == multiset(b) && Distinct(a)
    ensures Distinct(b)
  {
    forall i, j | 0 <= i < j < |b|
      ensures b[i] != b[j]
    {
      if b[i] == b[j] {
        CountsTwice(b, i, j);
        DistinctCountsOnce(a, b[i]);
      }
    }
  }

  /** `b` is `a` with the literals of each clause reordered. */
  predicate ShuffledEach(a: seq<seq<int>>, b: seq<seq<int>>)
  {
    |a| == |b| && forall k :: 0 <= k < |a| ==> multiset(a[k]) == multiset(b[k])
  }

  lemma AppendThree<T>(a: seq<T>, b: seq<T>, c: seq<T>, d: seq<T>)
    ensures a + (b + c + d) == a + b + c + d
  {
  }

  /** The calls that forward clauses: each literal, then 0. */
  function ClauseEvents(cs: seq<seq<int>>): seq<Ipasir.Event>
  {
    if cs == [] then []
    else ClauseEvents(cs[..|cs| - 1]) + Ipasir.AddEvents(cs[|cs| - 1]) + [Ipasir.Add(0)]
  }

  /** The calls that forward assumptions. */
  function AssumeEvents(lits: seq<int>): seq<Ipasir.Event>
  {
    if lits == [] then [] else AssumeEvents(lits[..|lits| - 1]) + [Ipasir.Assume(lits[|lits| - 1])]
  }

  lemma MapAllStep(table: seq<nat>, lits: seq<int>, j: int)
    requires 0 <= j < |lits| && AllMappable(table, lits)
    ensures AllMappable(table, lits[..j]) && AllMappable(table, lits[..j + 1])
    ensures MapAll(table, lits[..j + 1]) == MapAll(table, lits[..j]) + [MapLit(table, lits[j])]
  {
    assert lits[..j + 1][..j] == lits[..j];
  }

  lemma AssumeEventsStep(table: seq<nat>, lits: seq<int>, j: int)
    requires 0 <= j < |lits| && AllMappable(table, lits)
    ensures AllMappable(table, lits[..j]) && AllMappable(table, lits[..j + 1])
    ensures AssumeEvents(MapAll(table, lits[..j + 1]))
            == AssumeEvents(MapAll(table, lits[..j])) + [Ipasir.Assume(MapLit(table, lits[j]))]
  {
    MapAllStep(table, lits, j);
    var m := MapAll(table, lits[..j + 1]);
    assert m[..|m| - 1] == MapAll(table, lits[..j]);
  }

  lemma AddEventsMapStep(table: seq<nat>, lits: seq<int>, j: int)
    requires 0 <= j < |lits| && AllMappable(table, lits)
    ensures AllMappable(table, lits[..j]) && AllMappable(table, lits[..j + 1])
    ensures Ipasir.AddEvents(MapAll(table, lits[..j + 1]))
            == Ipasir.AddEvents(MapAll(table, lits[..j])) + [Ipasir.Add(MapLit(table, lits[j]))]
  {
    MapAllStep(table, lits, j);
    var m := MapAll(table, lits[..j + 1]);
    assert m[..|m| - 1] == MapAll(table, lits[..j]);
  }

  /**
   * The prefix of a learned clause the solver passes to the callback: its
   * literals up to the terminating 0.
   */
  function Learned(clause: seq<int>): (r: seq<int>)
    requires 0 in clause
    ensures 0 !in r && |r| < |clause| && clause[|r|] == 0 && r == clause[..|r|]
  {
    if clause[0] == 0 then [] else [clause[0]] + Learned(clause[1..])
  }

  /**
   * A learned clause over renamed known variables comes back to the
   * callback as the original clause.
   */
  lemma LearnedRoundTrip(to: seq<nat>, from: seq<nat>, known: set<nat>, c: seq<int>, rest: seq<int>)
    requires Consistent(to, from, known) && KnownLits(c, known)
    ensures AllMappable(to, c)
    ensures 0 in MapAll(to, c) + [0] + rest
    ensures Learned(MapAll(to, c) + [0] + rest) == MapAll(to, c)
    ensures AllMappable(from, MapAll(to, c)) && MapAll(from, MapAll(to, c)) == c
  {
    UnmapMapAll(to, from, known, c);
    var mapped := MapAll(to, c);
    var clause := mapped + [0] + rest;
    assert clause[|c|] == 0;
    assert clause[..|c|] == mapped;
    forall i | 0 <= i < |mapped|
      ensures mapped[i] != 0
    {
      assert c[i] in c;
    }
    LearnedIsPrefix(clause, MapAll(to, c));
  }

  lemma {:induction false} LearnedIsPrefix(clause: seq<int>, p: seq<int>)
    requires 0 !in p && |p| < |clause| && clause[..|p|] == p && clause[|p|] == 0
    ensures 0 in clause && Learned(clause) == p
  {
    assert clause[|p|] in clause;
    if p != [] {
      assert clause[0] == p[0];
      assert clause[1..][..|p| - 1] == p[1..];
      LearnedIsPrefix(clause[1..], p[1..]);
    }
  }

  class RandomizedSolver {
    /** The wrapped solver. */
    const inner: Ipasir.Solver
    /** Buffered clauses; the last one is the clause being built. */
    var clauses: seq<seq<int>>
    var assumptions: seq<int>
    var toIpasir: seq<nat>
    var fromIpasir: seq<nat>
    var knownVariables: set<nat>
    /** State of the random generator; only `Shuffle` uses it. */
    var generator: nat
    var learnedClauseCallback: Ipasir.Callback

    ghost predicate Valid()
      reads this, inner
    {
      inner.Valid()
      && |clauses| >= 1
      && (forall k :: 0 <= k < |clauses| ==> 0 !in clauses[k])
      && 0 !in assumptions
      && Consistent(toIpasir, fromIpasir, knownVariables)
    }

    /** The state right after construction and after `reset`. */
    ghost predicate Pristine()
      reads this
    {
      clauses == [[]] && assumptions == [] && toIpasir == [0] && fromIpasir == [0] && knownVariables == {}
    }

    /**
     * The buffered clauses and assumptions as the IPASIR clause database
     * they stand for: finished clauses, the clause being built, assumptions.
     */
    ghost function Buffer(): Ipasir.Database
      reads this
      requires |clauses| >= 1
    {
      Ipasir.Database(clauses[..|clauses| - 1], clauses[|clauses| - 1], assumptions, Ipasir.InputState)
    }

    constructor(seed: nat, solver: Ipasir.Solver)
      requires solver.Valid()
      ensures inner == solver && generator == seed
      ensures Pristine() && Valid()
    {
      inner := solver;
      generator := seed;
      clauses := [];
      assumptions := [];
      toIpasir := [];
      fromIpasir := [];
      knownVariables := {};
      learnedClauseCallback := Ipasir.Default;
      new;
      Init();
    }

    /** `init`: opens the first clause and reserves slot 0 of both tables. */
    method Init()
      modifies this`clauses, this`toIpasir, this`fromIpasir
      ensures clauses == old(clauses) + [[]]
      ensures toIpasir == old(toIpasir) + [0] && fromIpasir == old(fromIpasir) + [0]
    {
      clauses := clauses + [[]];
      toIpasir := toIpasir + [0];
      fromIpasir := fromIpasir + [0];
    }

    /** `add`: buffers the literal, or opens a new clause on 0; nothing reaches the wrapped solver. */
    method Add(litOrZero: int)
      requires Valid()
      modifies this`clauses
      ensures Valid() && unchanged(inner)
      ensures Buffer() == Ipasir.Apply(old(Buffer()), Ipasir.Add(litOrZero))
    {
      if litOrZero == 0 {
        clauses := clauses + [[]];
      } else {
        clauses := clauses[..|clauses| - 1] + [clauses[|clauses| - 1] + [litOrZero]];
      }
    }

    /** `assume`: buffers the assumption. */
    method Assume(lit: int)
      requires Valid() && lit != 0
      modifies this`assumptions
      ensures Valid() && unchanged(inner)
      ensures Buffer() == Ipasir.Apply(old(Buffer()), Ipasir.Assume(lit))
    {
      assumptions := assumptions + [lit];
    }

    /** `std::shuffle`: some permutation of `s`, chosen by the generator. */
    method Shuffle<T>(s: seq<T>) returns (r: seq<T>)
      modifies this`generator
      ensures multiset(r) == multiset(s)
    {
      r := s;
      if |s| > 0 {
        var k := generator % |s|;
        assert s == s[..k] + s[k..];
        r := s[k..] + s[..k];
      }
      generator := generator + 1;
    }

    /** The bookkeeping of `scrumbleVariables` while it collects new variables. */
    ghost predicate Collected(newVariables: seq<nat>, maxVariable: nat, known0: set<nat>)
      reads this
    {
      known0 <= knownVariables
      && maxVariable >= |toIpasir|
      && (forall v :: v in knownVariables ==> 1 <= v <= maxVariable)
      && Distinct(newVariables)
      && (forall v :: v in newVariables ==> v in knownVariables && v !in known0)
      && (forall v :: v in knownVariables ==> v in known0 || v in newVariables)
    }

    /** `addLiteral`: records the variable of `lit`, as new if it was not known yet. */
    method AddLiteral(newVariables: seq<nat>, maxVariable: nat, lit: int, ghost known0: set<nat>)
      returns (newVariables': seq<nat>, maxVariable': nat)
      requires lit != 0 && Collected(newVariables, maxVariable, known0)
      modifies this`knownVariables
      ensures knownVariables == old(knownVariables) + {Var(lit)}
      ensures newVariables' == if Var(lit) in old(knownVariables) then newVariables else newVariables + [Var(lit)]
      ensures maxVariable' == if Var(lit) > maxVariable then Var(lit) else maxVariable
      ensures Collected(newVariables', maxVariable', known0)
    {
      var variable := Var(lit);
      maxVariable' := maxVariable;
      if variable > maxVariable' {
        maxVariable' := variable;
      }
      var inserted := variable !in knownVariables;
      knownVariables := knownVariables + {variable};
      newVariables' := newVariables;
      if inserted {
        newVariables' := newVariables + [variable];
      }
    }

    /** The inner loop of `scrumbleVariables`: `addLiteral` for every literal of `lits`. */
    method CollectLiterals(newVariables: seq<nat>, maxVariable: nat, lits: seq<int>, ghost known0: set<nat>)
      returns (newVariables': seq<nat>, maxVariable': nat)
      requires 0 !in lits && Collected(newVariables, maxVariable, known0)
      modifies this`knownVariables
      ensures knownVariables == old(knownVariables) + LitVars(lits)
      ensures Collected(newVariables', maxVariable', known0)
    {
      newVariables', maxVariable' := newVariables, maxVariable;
      for j := 0 to |lits|
        invariant knownVariables == old(knownVariables) + LitVars(lits[..j])
        invariant Collected(newVariables', maxVariable', known0)
      {
        assert lits[..j + 1][..j] == lits[..j];
        newVariables', maxVariable' := AddLiteral(newVariables', maxVariable', lits[j], known0);
      }
      assert lits[..|lits|] == lits;
    }

    /** The clause loop of `scrumbleVariables`, starting with nothing collected. */
    method CollectClauses(ghost known0: set<nat>) returns (newVariables: seq<nat>, maxVariable: nat)
      requires known0 == knownVariables && Consistent(toIpasir, fromIpasir, known0)
      requires forall k :: 0 <= k < |clauses| ==> 0 !in clauses[k]
      modifies this`knownVariables
      ensures knownVariables == old(knownVariables) + VarsOf(clauses)
      ensures Collected(newVariables, maxVariable, known0)
    {
      newVariables, maxVariable := [], |toIpasir|;
      for c := 0 to |clauses|
        invariant knownVariables == known0 + VarsOf(clauses[..c])
        invariant Collected(newVariables, maxVariable, known0)
      {
        assert clauses[..c + 1][..c] == clauses[..c];
        newVariables, maxVariable := CollectLiterals(newVariables, maxVariable, clauses[c], known0);
      }
      assert clauses[..|clauses|] == clauses;
    }

    /**
     * `scrumbleVariables`: every variable of the buffered clauses and
     * assumptions becomes known; the new ones get the next solver
     * variables in shuffled order, and earlier ones keep theirs.
     */
    method ScrumbleVariables()
      requires Valid()
      modifies this`toIpasir, this`fromIpasir, this`knownVariables, this`generator
      ensures Valid()
      ensures knownVariables == old(knownVariables) + VarsOf(clauses) + LitVars(assumptions)
      ensures |fromIpasir| >= |old(fromIpasir)| && fromIpasir[..|old(fromIpasir)|] == old(fromIpasir)
      ensures forall v :: v in old(knownVariables) ==> toIpasir[v] == old(toIpasir)[v]
      ensures forall v :: v in knownVariables && v !in old(knownVariables) ==> toIpasir[v] >= |old(fromIpasir)|
    {
      ghost var known0 := knownVariables;
      var newVariables, maxVariable := CollectClauses(known0);
      newVariables, maxVariable := CollectLiterals(newVariables, maxVariable, assumptions, known0);
      var shuffled := Shuffle(newVariables);
      PermutationKeepsDistinct(newVariables, shuffled);
      SameMembers(newVariables, shuffled);
      ExtendTables(shuffled, maxVariable, known0);
    }

    /**
     * The end of `scrumbleVariables`: appends the new variables to
     * `fromIpasir`, grows `toIpasir` to `maxVariable + 1` and points it at them.
     */
    method ExtendTables(newVariables: seq<nat>, maxVariable: nat, ghost known0: set<nat>)
      requires Consistent(toIpasir, fromIpasir, known0)
      requires known0 <= knownVariables && maxVariable >= |toIpasir|
      requires Distinct(newVariables)
      requires forall v :: v in newVariables ==> v in knownVariables && v !in known0 && 1 <= v <= maxVariable
      requires forall v :: v in knownVariables ==> v in known0 || v in newVariables
      modifies this`toIpasir, this`fromIpasir
      ensures Consistent(toIpasir, fromIpasir, knownVariables)
      ensures fromIpasir == old(fromIpasir) + newVariables
      ensures |fromIpasir| >= |old(fromIpasir)| && fromIpasir[..|old(fromIpasir)|] == old(fromIpasir)
      ensures forall v :: v in knownVariables && v !in known0 ==> toIpasir[v] >= |old(fromIpasir)|
      ensures |toIpasir| == maxVariable + 1
      ensures forall v :: v in known0 ==> toIpasir[v] == old(toIpasir)[v]
      ensures forall i :: 0 <= i < |newVariables| ==> toIpasir[newVariables[i]] == |old(fromIpasir)| + i
    {
      var newStart := |fromIpasir|;
      fromIpasir := fromIpasir + newVariables;
      toIpasir := toIpasir + seq(maxVariable + 1 - |toIpasir|, _ => 0);
      forall k | newStart <= k < |fromIpasir|
        ensures 1 <= fromIpasir[k] <= maxVariable
      {
        assert fromIpasir[k] in newVariables;
      }
      for i := newStart to |fromIpasir|
        invariant fromIpasir == old(fromIpasir) + newVariables
        invariant forall k :: newStart <= k < |fromIpasir| ==> 1 <= fromIpasir[k] <= maxVariable
        invariant |toIpasir| == maxVariable + 1 && toIpasir[0] == 0
        invariant forall k :: newStart <= k < i ==> toIpasir[fromIpasir[k]] == k
        invariant forall v :: v in known0 ==> toIpasir[v] == old(toIpasir)[v]
      {
        assert fromIpasir[i] == newVariables[i - newStart];
        toIpasir := toIpasir[fromIpasir[i] := i];
      }
      forall v | v in knownVariables
        ensures 1 <= v < |toIpasir| && 1 <= toIpasir[v] < |fromIpasir| && fromIpasir[toIpasir[v]] == v
      {
        if v !in known0 {
          var i :| 0 <= i < |newVariables| && newVariables[i] == v;
          assert fromIpasir[newStart + i] == v;
        }
      }
    }

    /**
     * `scrumbleClauses`: drops the (empty) clause under construction and
     * shuffles the clauses, the literals of each clause and the assumptions.
     */
    method ScrumbleClauses() returns (ghost order: seq<seq<int>>)
      requires |clauses| >= 1 && clauses[|clauses| - 1] == []
      requires forall k :: 0 <= k < |clauses| ==> KnownLits(clauses[k], knownVariables)
      requires KnownLits(assumptions, knownVariables)
      modifies this`clauses, this`assumptions, this`generator
      ensures multiset(order) == multiset(old(clauses[..|clauses| - 1])) && ShuffledEach(order, clauses)
      ensures multiset(assumptions) == multiset(old(assumptions))
      ensures forall k :: 0 <= k < |clauses| ==> KnownLits(clauses[k], knownVariables)
      ensures KnownLits(assumptions, knownVariables)
    {
      var finished := clauses[..|clauses| - 1];
      ShuffleClauses(finished);
      order := clauses;
      ShuffleEach();
      ShuffleAssumptions();
    }

    /** The last shuffle of `scrumbleClauses`: the assumptions in some order. */
    method ShuffleAssumptions()
      requires KnownLits(assumptions, knownVariables)
      modifies this`assumptions, this`generator
      ensures multiset(assumptions) == multiset(old(assumptions))
      ensures KnownLits(assumptions, knownVariables)
    {
      var assumed := assumptions;
      assumptions := Shuffle(assumed);
      PermutationKeepsKnown(assumed, assumptions, knownVariables);
    }

    /** The outer shuffle of `scrumbleClauses`: the finished clauses in some order. */
    method ShuffleClauses(finished: seq<seq<int>>)
      requires forall k :: 0 <= k < |finished| ==> KnownLits(finished[k], knownVariables)
      modifies this`clauses, this`generator
      ensures multiset(clauses) == multiset(finished)
      ensures forall k :: 0 <= k < |clauses| ==> KnownLits(clauses[k], knownVariables)
    {
      clauses := Shuffle(finished);
      forall k | 0 <= k < |clauses|
        ensures KnownLits(clauses[k], knownVariables)
      {
        assert clauses[k] in multiset(finished);
        var j :| 0 <= j < |finished| && finished[j] == clauses[k];
      }
    }

    /** The loop of `scrumbleClauses` that shuffles the literals within each clause. */
    method ShuffleEach()
      requires forall k :: 0 <= k < |clauses| ==> KnownLits(clauses[k], knownVariables)
      modifies this`clauses, this`generator
      ensures ShuffledEach(old(clauses), clauses)
      ensures forall k :: 0 <= k < |clauses| ==> KnownLits(clauses[k], knownVariables)
    {
      for i := 0 to |clauses|
        invariant ShuffledEach(old(clauses), clauses)
        invariant forall k :: 0 <= k < |clauses| ==> KnownLits(clauses[k], knownVariables)
      {
        var clause := Shuffle(clauses[i]);
        PermutationKeepsKnown(clauses[i], clause, knownVariables);
        clauses := clauses[i := clause];
      }
    }

    /** The loop over one clause in `solve`: its renamed literals, then 0. */
    method ForwardClause(clause: seq<int>)
      requires inner.Valid() && AllMappable(toIpasir, clause)
      modifies inner`state, inner`log
      ensures inner.Valid()
      ensures inner.log == old(inner.log) + Ipasir.AddEvents(MapAll(toIpasir, clause)) + [Ipasir.Add(0)]
    {
      for j := 0 to |clause|
        invariant inner.Valid()
        invariant inner.log == old(inner.log) + Ipasir.AddEvents(MapAll(toIpasir, clause[..j]))
      {
        ForwardLiteral(clause, j, old(inner.log));
      }
      assert clause[..|clause|] == clause;
      inner.Add(0);
    }

    /** One turn of the literal loop of `solve`: forwards the renamed `clause[j]`. */
    method ForwardLiteral(clause: seq<int>, j: int, ghost before: seq<Ipasir.Event>)
      requires inner.Valid() && AllMappable(toIpasir, clause) && 0 <= j < |clause|
      requires inner.log == before + Ipasir.AddEvents(MapAll(toIpasir, clause[..j]))
      modifies inner`state, inner`log
      ensures inner.Valid()
      ensures inner.log == before + Ipasir.AddEvents(MapAll(toIpasir, clause[..j + 1]))
    {
      AddEventsMapStep(toIpasir, clause, j);
      inner.Add(MapLit(toIpasir, clause[j]));
    }

    /** The clause loop of `solve`. */
    method ForwardClauses(cs: seq<seq<int>>)
      requires inner.Valid() && forall k :: 0 <= k < |cs| ==> AllMappable(toIpasir, cs[k])
      modifies inner`state, inner`log
      ensures inner.Valid()
      ensures inner.log == old(inner.log) + ClauseEvents(MapClauses(toIpasir, cs))
    {
      for i := 0 to |cs|
        invariant inner.Valid()
        invariant inner.log == old(inner.log) + ClauseEvents(MapClauses(toIpasir, cs[..i]))
      {
        ClauseEventsStep(cs, i);
        ghost var before := inner.log;
        ForwardClause(cs[i]);
        AppendThree(old(inner.log), ClauseEvents(MapClauses(toIpasir, cs[..i])),
                    Ipasir.AddEvents(MapAll(toIpasir, cs[i])), [Ipasir.Add(0)]);
      }
      assert cs[..|cs|] == cs;
    }

    lemma ClauseEventsStep(cs: seq<seq<int>>, i: int)
      requires 0 <= i < |cs| && forall k :: 0 <= k < |cs| ==> AllMappable(toIpasir, cs[k])
      ensures ClauseEvents(MapClauses(toIpasir, cs[..i + 1]))
              == ClauseEvents(MapClauses(toIpasir, cs[..i])) + Ipasir.AddEvents(MapAll(toIpasir, cs[i])) + [Ipasir.Add(0)]
    {
      assert cs[..i + 1][..i] == cs[..i];
      assert MapClauses(toIpasir, cs[..i + 1])[..i] == MapClauses(toIpasir, cs[..i]);
    }

    /** The assumption loop of `solve`. */
    method ForwardAssumptions(lits: seq<int>)
      requires inner.Valid() && AllMappable(toIpasir, lits)
      modifies inner`state, inner`log
      ensures inner.Valid()
      ensures inner.log == old(inner.log) + AssumeEvents(MapAll(toIpasir, lits))
    {
      for j := 0 to |lits|
        invariant inner.Valid()
        invariant inner.log == old(inner.log) + AssumeEvents(MapAll(toIpasir, lits[..j]))
      {
        AssumeEventsStep(toIpasir, lits, j);
        inner.Assume(MapLit(toIpasir, lits[j]));
      }
      assert lits[..|lits|] == lits;
    }

    /**
     * `solve`: renames and shuffles, forwards every buffered clause and
     * assumption, and solves.  `sent` and `sentAssumptions` are the
     * clauses and assumptions in the order they were forwarded.
     */
    method Solve() returns (r: Ipasir.SolveResult, ghost order: seq<seq<int>>, ghost sent: seq<seq<int>>, ghost sentAssumptions: seq<int>)
      requires Valid() && clauses[|clauses| - 1] == []
      modifies this`clauses, this`assumptions, this`toIpasir, this`fromIpasir, this`knownVariables, this`generator
      modifies inner`state, inner`log, inner`model, inner`failedAssumptions
      ensures Valid()
      ensures clauses == [[]] && assumptions == []
      ensures knownVariables == old(knownVariables) + VarsOf(old(clauses)) + LitVars(old(assumptions))
      ensures |fromIpasir| >= |old(fromIpasir)| && fromIpasir[..|old(fromIpasir)|] == old(fromIpasir)
      ensures forall v :: v in old(knownVariables) ==> toIpasir[v] == old(toIpasir)[v]
      ensures multiset(order) == multiset(old(clauses[..|clauses| - 1])) && ShuffledEach(order, sent)
      ensures multiset(sentAssumptions) == multiset(old(assumptions))
      ensures forall k :: 0 <= k < |sent| ==> KnownLits(sent[k], knownVariables) && AllMappable(toIpasir, sent[k])
      ensures KnownLits(sentAssumptions, knownVariables) && AllMappable(toIpasir, sentAssumptions)
      ensures inner.log == old(inner.log) + ClauseEvents(MapClauses(toIpasir, sent))
                           + AssumeEvents(MapAll(toIpasir, sentAssumptions)) + [Ipasir.Solve(r)]
      ensures inner.state == Ipasir.StateAfterSolve(r)
    {
      order := Scrumble();
      sent, sentAssumptions := Send();
      r := inner.Solve();
    }

    /** Forwards the scrambled clauses, then the assumptions, and empties both buffers. */
    method Send() returns (ghost sent: seq<seq<int>>, ghost sentAssumptions: seq<int>)
      requires inner.Valid()
      requires forall k :: 0 <= k < |clauses| ==> AllMappable(toIpasir, clauses[k])
      requires AllMappable(toIpasir, assumptions)
      modifies this`clauses, this`assumptions, inner`state, inner`log
      ensures inner.Valid() && sent == old(clauses) && sentAssumptions == old(assumptions)
      ensures clauses == [[]] && assumptions == []
      ensures inner.log == old(inner.log) + ClauseEvents(MapClauses(toIpasir, sent))
                           + AssumeEvents(MapAll(toIpasir, sentAssumptions))
    {
      sent, sentAssumptions := clauses, assumptions;
      ForwardClauses(clauses);
      clauses := [[]];
      ForwardAssumptions(assumptions);
      assumptions := [];
    }

    /** The two scrumble steps of `solve`, which leave every buffered literal renameable. */
    method Scrumble() returns (ghost order: seq<seq<int>>)
      requires Valid() && clauses[|clauses| - 1] == []
      modifies this`clauses, this`assumptions, this`toIpasir, this`fromIpasir, this`knownVariables, this`generator
      ensures unchanged(inner) && Consistent(toIpasir, fromIpasir, knownVariables)
      ensures knownVariables == old(knownVariables) + VarsOf(old(clauses)) + LitVars(old(assumptions))
      ensures |fromIpasir| >= |old(fromIpasir)| && fromIpasir[..|old(fromIpasir)|] == old(fromIpasir)
      ensures forall v :: v in old(knownVariables) ==> toIpasir[v] == old(toIpasir)[v]
      ensures multiset(order) == multiset(old(clauses[..|clauses| - 1])) && ShuffledEach(order, clauses)
      ensures multiset(assumptions) == multiset(old(assumptions))
      ensures forall k :: 0 <= k < |clauses| ==> KnownLits(clauses[k], knownVariables) && AllMappable(toIpasir, clauses[k])
      ensures KnownLits(assumptions, knownVariables) && AllMappable(toIpasir, assumptions)
    {
      ScrumbleVariables();
      VarsOfCover(clauses, knownVariables);
      LitVarsCover(assumptions, knownVariables);
      order := ScrumbleClauses();
      UnmapMapEach(toIpasir, fromIpasir, knownVariables, clauses);
      UnmapMapAll(toIpasir, fromIpasir, knownVariables, assumptions);
    }

    /** `val`: the value of `lit`, asked of the wrapped solver under its name and renamed back. */
    method Val(lit: int) returns (r: int)
      requires Valid() && inner.state == Ipasir.SatState
      requires lit != 0 && Var(lit) in knownVariables
      modifies inner`log
      ensures Valid() && inner.state == Ipasir.SatState
      ensures inner.log == old(inner.log) + [Ipasir.Val(MapLit(toIpasir, lit))]
      ensures r == lit <==> inner.ModelValue(MapLit(toIpasir, lit)) == MapLit(toIpasir, lit)
      ensures r == -lit <==> inner.ModelValue(MapLit(toIpasir, lit)) == -MapLit(toIpasir, lit)
      ensures r == 0 <==> inner.ModelValue(MapLit(toIpasir, lit)) == 0
    {
      UnmapMap(toIpasir, fromIpasir, knownVariables, lit);
      UnmapMap(toIpasir, fromIpasir, knownVariables, -lit);
      var x := inner.Val(MapLit(toIpasir, lit));
      r := MapLit(fromIpasir, x);
    }

    /** `failed`: whether the renamed assumption was used to prove unsatisfiability (1) or not (0). */
    function Failed(lit: int): (r: int)
      reads this, inner
      requires inner.state == Ipasir.UnsatState
      requires Consistent(toIpasir, fromIpasir, knownVariables) && lit != 0 && Var(lit) in knownVariables
      ensures r == 0 || r == 1
      ensures r == 1 <==> MapLit(toIpasir, lit) in inner.failedAssumptions
    {
      inner.Failed(MapLit(toIpasir, lit))
    }

    /** `set_learn`: the wrapped solver reports learned clauses through `mappingCallback`. */
    method SetLearn(maxLength: int, callback: Ipasir.Callback)
      modifies this`learnedClauseCallback, inner`learn, inner`learnMaxLength
      ensures learnedClauseCallback == callback
      ensures inner.learn == Ipasir.Unmapping(callback) && inner.learnMaxLength == maxLength
    {
      learnedClauseCallback := callback;
      inner.SetLearn(maxLength, Ipasir.Unmapping(callback));
    }

    /**
     * `mappingCallback`: the clause the client's learn callback receives
     * for a clause learned by the wrapped solver, renamed back.
     */
    method MappingCallback(clause: seq<int>) returns (mappedClause: seq<int>)
      requires 0 in clause && AllMappable(fromIpasir, Learned(clause))
      ensures mappedClause == MapAll(fromIpasir, Learned(clause)) + [0]
    {
      mappedClause := [];
      var i := 0;
      while clause[i] != 0
        invariant 0 <= i <= |Learned(clause)|
        invariant mappedClause == MapAll(fromIpasir, clause[..i])
        decreases |Learned(clause)| - i
      {
        assert clause[..i + 1][..i] == clause[..i];
        assert clause[i] in Learned(clause);
        mappedClause := mappedClause + [MapLit(fromIpasir, clause[i])];
        i := i + 1;
      }
      assert clause[..i] == Learned(clause);
      mappedClause := mappedClause + [0];
    }

    /** `set_terminate`: passed through. */
    method SetTerminate(callback: Ipasir.Callback)
      modifies inner`terminate
      ensures inner.terminate == callback
    {
      inner.SetTerminate(callback);
    }

    /**
     * `reset`: the buffers and tables are as after construction, the
     * generator and the client's learn callback are kept, and the wrapped
     * solver's callbacks are back to the defaults, so the unmapping callback
     * installed by `SetLearn` is no longer connected.
     */
    method Reset()
      requires Valid()
      modifies this`clauses, this`assumptions, this`toIpasir, this`fromIpasir, this`knownVariables
      modifies inner`state, inner`log, inner`terminate, inner`learn, inner`learnMaxLength
      ensures Valid() && Pristine()
      ensures Ipasir.Replay(inner.log) == Ipasir.Empty
      ensures inner.terminate == Ipasir.Default && inner.learn == Ipasir.Default && inner.learnMaxLength == 0
      ensures generator == old(generator) && learnedClauseCallback == old(learnedClauseCallback)
    {
      inner.Reset();
      clauses := [];
      assumptions := [];
      toIpasir := [];
      fromIpasir := [];
      knownVariables := {};
      Init();
    }
  }
}
