/** Test-suite generation: models of the program's constraints are enumerated until every goal that
    some model satisfies is covered. */
module Generation {
  import opened Cnf
  import opened Trails
  import opened Database
  import opened Solvers
  import opened Solving

  /** A test case: the goals it is credited with, and the model it was taken from. */
  datatype TestCase = TestCase(goals: set<nat>, model: seq<LBool>)

  // ---------- goals ----------

  /** A goal is a conjunction of literals; `a` satisfies the goal number `g` and no other. */
  ghost predicate OnlyGoal(a: Valuation, goals: seq<Clause>, g: nat) {
    g < |goals| && AllTrue(a, goals[g]) && forall h :: 0 <= h < |goals| && AllTrue(a, goals[h]) ==> h == g
  }

  ghost predicate ExactlyOneGoal(f: set<Clause>, goals: seq<Clause>) {
    forall a :: Models(a, f) ==> exists g :: OnlyGoal(a, goals, g)
  }

  /** Some model of `f` satisfies the goal and the fixed literals. */
  ghost predicate Reachable(f: set<Clause>, goal: Clause, fixed: seq<Lit>) {
    exists a :: Models(a, f) && AllTrue(a, goal) && AllTrue(a, fixed)
  }

  predicate InputsBelow(inputs: seq<Var>, n: nat) { forall i :: 0 <= i < |inputs| ==> inputs[i] < n }

  /** The values of a model on the chosen variables. */
  function Fixed(model: seq<LBool>, inputs: seq<Var>): (ls: seq<Lit>)
    requires InputsBelow(inputs, |model|)
  {
    seq(|inputs|, i requires 0 <= i < |inputs| => Lit(inputs[i], model[inputs[i]] == LFalse))
  }

  /** `a` gives the inputs the values that they have in the model. */
  ghost predicate SameInputs(a: Valuation, m: seq<LBool>, inputs: seq<Var>)
    requires InputsBelow(inputs, |m|)
  {
    forall i :: 0 <= i < |inputs| ==> (inputs[i] in a <==> m[inputs[i]] != LFalse)
  }

  /** The fixed literals hold exactly for the valuations with the same inputs. */
  lemma FixedMeans(a: Valuation, m: seq<LBool>, inputs: seq<Var>)
    requires InputsBelow(inputs, |m|)
    ensures AllTrue(a, Fixed(m, inputs)) <==> SameInputs(a, m, inputs)
  {
    var ls := Fixed(m, inputs);
    if AllTrue(a, ls) {
      forall i | 0 <= i < |inputs| ensures inputs[i] in a <==> m[inputs[i]] != LFalse {
        assert ls[i] in ls;
        assert True(a, ls[i]);
      }
    }
    if SameInputs(a, m, inputs) {
      forall l | l in ls ensures True(a, l) { var i :| 0 <= i < |inputs| && l == ls[i]; }
    }
  }

  /** Some model of `f` with the inputs of `m` satisfies the goal. */
  ghost predicate ReachableWith(f: set<Clause>, goal: Clause, m: seq<LBool>, inputs: seq<Var>)
    requires InputsBelow(inputs, |m|)
  {
    exists a :: Models(a, f) && AllTrue(a, goal) && SameInputs(a, m, inputs)
  }

  lemma ReachableInputs(f: set<Clause>, goal: Clause, m: seq<LBool>, inputs: seq<Var>)
    requires InputsBelow(inputs, |m|)
    ensures Reachable(f, goal, Fixed(m, inputs)) <==> ReachableWith(f, goal, m, inputs)
  {
    hide Models, Fixed, AllTrue, SameInputs;
    forall a ensures AllTrue(a, Fixed(m, inputs)) <==> SameInputs(a, m, inputs) { FixedMeans(a, m, inputs); }
  }

  function Negated(c: Clause): (d: Clause) { seq(|c|, i requires 0 <= i < |c| => c[i].Not()) }

  lemma NegatedSat(a: Valuation, c: Clause)
    ensures Sat(a, Negated(c)) <==> !AllTrue(a, c)
  {
    var d := Negated(c);
    if Sat(a, d) {
      var l :| l in d && True(a, l);
      var i :| 0 <= i < |d| && d[i] == l;
      assert c[i] in c;
    }
    if !AllTrue(a, c) {
      var l :| l in c && !True(a, l);
      var i :| 0 <= i < |c| && c[i] == l;
      assert d[i] in d && True(a, d[i]);
    }
  }

  /** The clauses that exclude the goals in `ids`. */
  ghost function Blocking(goals: seq<Clause>, ids: set<nat>): set<Clause> {
    set g | g in ids && g < |goals| :: Negated(goals[g])
  }

  lemma BlockedModels(a: Valuation, f: set<Clause>, goals: seq<Clause>, ids: set<nat>)
    ensures Models(a, f + Blocking(goals, ids)) <==>
      Models(a, f) && forall g :: g in ids && g < |goals| ==> !AllTrue(a, goals[g])
  {
    hide Sat, AllTrue, Negated;
    forall g | g in ids && g < |goals|
      ensures Negated(goals[g]) in Blocking(goals, ids) && (Sat(a, Negated(goals[g])) <==> !AllTrue(a, goals[g])) {
      NegatedSat(a, goals[g]);
    }
  }

  lemma ModelLit(m: seq<LBool>, l: Lit)
    requires TotalModel(m) && l.v < |m|
    ensures Agrees(ValuationOf(m), m) && (True(ValuationOf(m), l) <==> Val(m, l) == LTrue)
  {
  }

  lemma FixedTrue(m: seq<LBool>, inputs: seq<Var>)
    requires TotalModel(m) && InputsBelow(inputs, |m|)
    ensures AllTrue(ValuationOf(m), Fixed(m, inputs))
  {
    var ls := Fixed(m, inputs);
    forall l | l in ls ensures True(ValuationOf(m), l) {
      var i :| 0 <= i < |ls| && ls[i] == l;
    }
  }

  /** Whether a model satisfies a goal. */
  method GoalHolds(m: seq<LBool>, goal: Clause) returns (sat: bool)
    requires TotalModel(m) && VarsBelow(goal, |m|)
    ensures sat <==> AllTrue(ValuationOf(m), goal)
  {
    hide ValuationOf, TotalModel;
    sat := true;
    var i := 0;
    while sat && i < |goal|
      invariant 0 <= i <= |goal| && (sat ==> forall l :: l in goal[..i] ==> True(ValuationOf(m), l))
        && (!sat ==> !AllTrue(ValuationOf(m), goal))
      decreases |goal| - i
    {
      assert goal[i] in goal && goal[..i + 1] == goal[..i] + [goal[i]];
      ModelLit(m, goal[i]);
      sat := Val(m, goal[i]) == LTrue;
      i := i + 1;
    }
    assert goal[..|goal|] == goal;
  }

  ghost predicate GoalsBelow(goals: seq<Clause>, n: nat) { forall g :: 0 <= g < |goals| ==> VarsBelow(goals[g], n) }

  ghost predicate BlockList(cs: seq<Clause>, goals: seq<Clause>, ids: set<nat>) { SetOf(cs) == Blocking(goals, ids) }

  lemma BlockOne(cs: seq<Clause>, goals: seq<Clause>, ids: set<nat>, g: nat)
    requires BlockList(cs, goals, ids) && g < |goals|
    ensures BlockList(cs + [Negated(goals[g])], goals, ids + {g})
  {
    hide Negated;
    var c := Negated(goals[g]);
    forall d ensures d in Blocking(goals, ids + {g}) <==> d in Blocking(goals, ids) || d == c { assert g in ids + {g}; }
    forall d ensures d in cs + [c] <==> d in cs || d == c { }
    assert SetOf(cs + [c]) == SetOf(cs) + {c};
  }

  /** Moves the goals that the model satisfies from the open ones to the done ones, and makes the
      clauses that exclude them. */
  method FindSatTestGoals(m: seq<LBool>, goals: seq<Clause>, open: set<nat>)
    returns (done: set<nat>, open': set<nat>, more: seq<Clause>)
    requires TotalModel(m) && GoalsBelow(goals, |m|) && forall g :: g in open ==> g < |goals|
    ensures Split(done, open', open) && BlockList(more, goals, done)
    ensures forall g :: g in open ==> (g in done <==> AllTrue(ValuationOf(m), goals[g]))
  {
    hide ValuationOf, AllTrue, TotalModel, BlockList, VarsBelow, Negated;
    done, open', more := {}, open, [];
    var rest := open;
    NothingBlocked(goals);
    while rest != {}
      invariant rest <= open' && Split(done, open', open) && BlockList(more, goals, done)
      invariant forall g :: g in open && g !in rest ==> (g in done <==> AllTrue(ValuationOf(m), goals[g]))
    {
      var g :| g in rest;
      rest := rest - {g};
      var sat := GoalHolds(m, goals[g]);
      if sat {
        BlockOne(more, goals, done, g);
        done, more, open' := done + {g}, more + [Negated(goals[g])], open' - {g};
      }
    }
  }

  lemma NothingBlocked(goals: seq<Clause>)
    ensures BlockList([], goals, {})
  {
  }

  /** Takes over the open goals that the internal analysis found. */
  method CreditFound(m: seq<LBool>, goals: seq<Clause>, open: set<nat>, found: set<nat>)
    returns (done: set<nat>, open': set<nat>, more: seq<Clause>)
    requires forall g :: g in open ==> g < |goals|
    requires forall g :: g in open ==> (g in found <==> AllTrue(ValuationOf(m), goals[g]))
    ensures Split(done, open', open) && BlockList(more, goals, done)
    ensures forall g :: g in open ==> (g in done <==> AllTrue(ValuationOf(m), goals[g]))
  {
    hide ValuationOf, AllTrue, BlockList, Negated;
    done, open', more := {}, open, [];
    var rest := found;
    NothingBlocked(goals);
    while rest != {}
      invariant rest <= found && Split(done, open', open) && BlockList(more, goals, done)
      invariant forall g :: g in open ==> (g in done <==> g in found && g !in rest)
    {
      var g :| g in rest;
      rest := rest - {g};
      if g in open' {
        BlockOne(more, goals, done, g);
        done, more, open' := done + {g}, more + [Negated(goals[g])], open' - {g};
      }
    }
  }

  // ---------- solvers ----------

  /** Every variable may be decided. */
  function Every(n: nat): (d: seq<bool>)
    ensures |d| == n
  {
    seq(n, i => true)
  }

  lemma EveryUses(cs: seq<Clause>, n: nat)
    requires ClausesBelow(cs, n)
    ensures AllUse(cs, Every(n))
  {
    forall i | 0 <= i < |cs| ensures Uses(cs[i], Every(n)) { assert VarsBelow(cs[i], n); }
  }

  lemma EveryTotal(s: Solver, n: nat)
    requires s.decision == Every(n) && s.Assigns(s.model) && |s.model| == n
    ensures TotalModel(s.model)
  {
  }

  ghost predicate ClausesBelow(cs: seq<Clause>, n: nat) { forall i :: 0 <= i < |cs| ==> VarsBelow(cs[i], n) }

  lemma BlockBelow(cs: seq<Clause>, goals: seq<Clause>, ids: set<nat>, n: nat)
    requires BlockList(cs, goals, ids) && GoalsBelow(goals, n)
    ensures AllUse(cs, Every(n))
  {
    forall i | 0 <= i < |cs| ensures VarsBelow(cs[i], n) {
      assert cs[i] in Blocking(goals, ids);
      var g :| g in ids && g < |goals| && cs[i] == Negated(goals[g]);
      forall l | l in cs[i] ensures l.v < n {
        var k :| 0 <= k < |cs[i]| && cs[i][k] == l;
        assert goals[g][k] in goals[g];
      }
    }
    EveryUses(cs, n);
  }

  // ---------- one model ----------

  /** The numbers below `n`. */
  function UpTo(n: nat): (r: set<nat>)
    ensures forall g: nat :: g in r <==> g < n
    ensures |r| == n
  {
    if n == 0 then {} else UpTo(n - 1) + {n - 1}
  }

  ghost function Ids(goals: seq<Clause>): set<nat> { UpTo(|goals|) }

  /** `done` and `rest` make up `open`. */
  ghost predicate Split(done: set<nat>, rest: set<nat>, open: set<nat>) { done + rest == open && done !! rest }

  lemma SplitNone(open: set<nat>, covered: set<nat>)
    ensures Split({}, open, open) && covered + {} == covered
  {
  }

  lemma SplitMore(done: set<nat>, rest: set<nat>, open: set<nat>, got: set<nat>, rest': set<nat>)
    requires Split(done, rest, open) && Split(got, rest', rest)
    ensures Split(done + got, rest', open)
  {
  }

  lemma SplitIds(covered: set<nat>, open: set<nat>, all: set<nat>, done: set<nat>, rest: set<nat>)
    requires Split(covered, open, all) && Split(done, rest, open)
    ensures Split(covered + done, rest, all) && done !! covered
  {
  }

  lemma Joined(x: set<nat>, y: set<nat>, z: set<nat>)
    ensures x + y + z == x + (y + z)
  {
  }

  /** A model that excludes the covered goals satisfies an open one. */
  lemma OpenGoal(a: Valuation, f: set<Clause>, goals: seq<Clause>, covered: set<nat>, open: set<nat>) returns (g: nat)
    requires ExactlyOneGoal(f, goals) && Models(a, f + Blocking(goals, covered)) && Split(covered, open, Ids(goals))
    ensures g in open && g < |goals| && AllTrue(a, goals[g])
  {
    hide AllTrue, Models;
    BlockedModels(a, f, goals, covered);
    g :| OnlyGoal(a, goals, g);
    assert g in Ids(goals);
  }

  type Check = seq<LBool> -> set<nat>

  /** The internal analysis finds exactly the goals that a model of the constraints satisfies. */
  ghost predicate ExactCheck(check: Check, f: set<Clause>, goals: seq<Clause>, n: nat) {
    forall m: seq<LBool> :: TotalModel(m) && |m| == n && Models(ValuationOf(m), f) ==> FindsGoals(check(m), m, goals)
  }

  ghost predicate FindsGoals(found: set<nat>, m: seq<LBool>, goals: seq<Clause>) {
    forall g: nat :: g in found <==> g < |goals| && AllTrue(ValuationOf(m), goals[g])
  }

  /** Every goal that the model satisfies is in `done`. */
  ghost predicate Covered(done: set<nat>, m: seq<LBool>, goals: seq<Clause>) {
    forall g: nat :: g < |goals| && AllTrue(ValuationOf(m), goals[g]) ==> g in done
  }

  /** The model satisfies every goal in `done`. */
  ghost predicate Met(done: set<nat>, m: seq<LBool>, goals: seq<Clause>) {
    forall g :: g in done ==> g < |goals| && AllTrue(ValuationOf(m), goals[g])
  }

  /** Credits the open goals that the model satisfies, as the solver's model or the internal analysis
      says; there is at least one. */
  method TakeModel(m: seq<LBool>, goals: seq<Clause>, open: set<nat>, known: Option<set<nat>>, ghost f: set<Clause>,
                   ghost covered: set<nat>, ghost fixed: seq<Lit>)
    returns (done: set<nat>, open': set<nat>, more: seq<Clause>)
    requires TotalModel(m) && GoalsBelow(goals, |m|) && ExactlyOneGoal(f, goals) && Split(covered, open, Ids(goals))
    requires Models(ValuationOf(m), f + Blocking(goals, covered)) && AllTrue(ValuationOf(m), fixed)
    requires known.Some? ==> FindsGoals(known.value, m, goals)
    ensures done != {} && Split(done, open', open) && BlockList(more, goals, done)
    ensures forall g :: g in done ==> g < |goals| && Reachable(f, goals[g], fixed)
    ensures Covered(done, m, goals) && Met(done, m, goals)
  {
    hide TotalModel, GoalsBelow, ExactlyOneGoal, Models, ValuationOf, AllTrue, BlockList, Blocking;
    assert forall g :: g in open ==> g in Ids(goals);
    ghost var a := ValuationOf(m);
    if known.Some? { done, open', more := CreditFound(m, goals, open, known.value); }
    else { done, open', more := FindSatTestGoals(m, goals, open); }
    ghost var g := OpenGoal(ValuationOf(m), f, goals, covered, open);
    BlockedModels(ValuationOf(m), f, goals, covered);
    forall h: nat | h < |goals| && AllTrue(ValuationOf(m), goals[h]) ensures h in open { assert h in Ids(goals); }
  }

  lemma BlockMore(f: set<Clause>, goals: seq<Clause>, covered: set<nat>, done: set<nat>, more: seq<Clause>)
    requires BlockList(more, goals, done)
    ensures f + Blocking(goals, covered) + SetOf(more) == f + Blocking(goals, covered + done)
    ensures forall cs :: BlockList(cs, goals, covered) ==> BlockList(cs + more, goals, covered + done)
  {
    hide Negated;
    assert Blocking(goals, covered + done) == Blocking(goals, covered) + Blocking(goals, done);
    forall cs | BlockList(cs, goals, covered) ensures BlockList(cs + more, goals, covered + done) {
      assert SetOf(cs + more) == SetOf(cs) + SetOf(more);
    }
  }

  // ---------- one test case ----------

  /** Credits the goals of another model with the same fixed literals, and excludes them everywhere. */
  method CreditMore(main: Solver, tmp: Solver, n: nat, goals: seq<Clause>, fixed: seq<Lit>, open: set<nat>,
                    coverage: seq<Clause>, ghost f: set<Clause>, ghost now: set<nat>)
    returns (got: set<nat>, open': set<nat>, coverage': seq<Clause>)
    requires main != tmp && main.order != tmp.order && GoalsBelow(goals, n) && |tmp.model| == n
    requires Ready(main, Every(n), f + Blocking(goals, now)) && Ready(tmp, Every(n), f + Blocking(goals, now))
    requires ExactlyOneGoal(f, goals) && Split(now, open, Ids(goals)) && BlockList(coverage, goals, now)
    requires TotalModel(tmp.model) && Models(ValuationOf(tmp.model), f + Blocking(goals, now))
      && AllTrue(ValuationOf(tmp.model), fixed)
    modifies main, tmp
    ensures got != {} && Split(got, open', open) && BlockList(coverage', goals, now + got)
    ensures Ready(main, Every(n), f + Blocking(goals, now + got))
      && Ready(tmp, Every(n), f + Blocking(goals, now + got))
    ensures forall g :: g in got ==> g < |goals| && Reachable(f, goals[g], fixed)
  {
    hide *;
    var more;
    got, open', more := TakeModel(tmp.model, goals, open, None, f, now, fixed);
    BlockBelow(more, goals, got, n);
    BlockMore(f, goals, now, got, more);
    AddAll(main, more, Every(n), f + Blocking(goals, now));
    AddAll(tmp, more, Every(n), f + Blocking(goals, now));
    coverage' := coverage + more;
  }

  /** Asks for more goals under the fixed literals of a test case, until none is left. */
  method Strengthen(main: Solver, tmp: Solver, n: nat, goals: seq<Clause>, fixed: seq<Lit>, open: set<nat>,
                    coverage: seq<Clause>, ghost f: set<Clause>, ghost covered: set<nat>)
    returns (done: set<nat>, open': set<nat>, coverage': seq<Clause>)
    requires main != tmp && main.order != tmp.order
    requires Ready(main, Every(n), f + Blocking(goals, covered)) && Ready(tmp, Every(n), f + Blocking(goals, covered))
    requires GoalsBelow(goals, n) && VarsBelow(fixed, n) && ExactlyOneGoal(f, goals) && Split(covered, open, Ids(goals))
    requires BlockList(coverage, goals, covered)
    modifies main, tmp, tmp.order
    ensures Split(done, open', open) && Ready(main, Every(n), f + Blocking(goals, covered + done))
      && BlockList(coverage', goals, covered + done)
    ensures forall g :: g in done ==> g < |goals| && Reachable(f, goals[g], fixed)
    ensures NoneReachable(f, goals, open', fixed)
  {
    hide *;
    done, open', coverage' := {}, open, coverage;
    ghost var now := covered;
    SplitNone(open, covered);
    NoneLeft(f, goals, fixed);
    while open' != {}
      invariant Split(done, open', open) && BlockList(coverage', goals, now) && now == covered + done
      invariant Ready(main, Every(n), f + Blocking(goals, now)) && Ready(tmp, Every(n), f + Blocking(goals, now))
      invariant forall g :: g in done ==> g < |goals| && Reachable(f, goals[g], fixed)
      decreases |open'|
    {
      ghost var before := open';
      SplitIds(covered, open, Ids(goals), done, open');
      ReadyParts(tmp, Every(n), f + Blocking(goals, now));
      var sat := tmp.SolveAll(fixed, true, 100, 2);
      if !sat {
        OpenUnreachable(f, goals, now, open', fixed);
        break;
      }
      IsReady(tmp, Every(n), f + Blocking(goals, now));
      EveryTotal(tmp, n);
      SolverModel(tmp, fixed, f + Blocking(goals, now));
      var got;
      got, open', coverage' := CreditMore(main, tmp, n, goals, fixed, open', coverage', f, now);
      SplitMore(done, before, open, got, open');
      Joined(covered, done, got);
      done, now := done + got, now + got;
      FewerOpen(before, open', got);
    }
  }

  /** No goal of `open` is reachable under the fixed literals. */
  ghost predicate NoneReachable(f: set<Clause>, goals: seq<Clause>, open: set<nat>, fixed: seq<Lit>) {
    forall g :: g in open && g < |goals| ==> !Reachable(f, goals[g], fixed)
  }

  lemma NoneLeft(f: set<Clause>, goals: seq<Clause>, fixed: seq<Lit>)
    ensures NoneReachable(f, goals, {}, fixed)
  {
  }

  lemma OpenUnreachable(f: set<Clause>, goals: seq<Clause>, covered: set<nat>, open: set<nat>, fixed: seq<Lit>)
    requires ExactlyOneGoal(f, goals) && UnsatUnder(f + Blocking(goals, covered), fixed)
    requires Split(covered, open, Ids(goals))
    ensures NoneReachable(f, goals, open, fixed)
  {
    hide AllTrue, Models, Blocking;
    forall g | g in open && g < |goals| ensures !Reachable(f, goals[g], fixed) {
      if Reachable(f, goals[g], fixed) {
        var a :| Models(a, f) && AllTrue(a, goals[g]) && AllTrue(a, fixed);
        var h :| OnlyGoal(a, goals, h);
        BlockedModels(a, f, goals, covered);
      }
    }
  }

  lemma FewerOpen(open: set<nat>, open': set<nat>, got: set<nat>)
    requires Split(got, open', open) && got != {}
    ensures |open'| < |open|
  {
    assert |open| == |got| + |open'|;
  }

  // ---------- the whole suite ----------

  ghost predicate CaseOk(f: set<Clause>, goals: seq<Clause>, inputs: seq<Var>, n: nat, tc: TestCase) {
    && tc.goals != {} && |tc.model| == n && TotalModel(tc.model) && Models(ValuationOf(tc.model), f)
    && InputsBelow(inputs, n) && Covered(tc.goals, tc.model, goals)
    && forall g :: g in tc.goals ==> g < |goals| && ReachableWith(f, goals[g], tc.model, inputs)
  }

  ghost predicate Credits(tcs: seq<TestCase>, i: int, g: nat) { 0 <= i < |tcs| && g in tcs[i].goals }

  /** The goals in `covered` are credited once each. */
  ghost predicate SuiteOk(tcs: seq<TestCase>, covered: set<nat>) {
    && (forall i, g :: Credits(tcs, i, g) ==> g in covered)
    && (forall g :: g in covered ==> exists i :: Credits(tcs, i, g))
    && (forall i, j, g :: Credits(tcs, i, g) && Credits(tcs, j, g) ==> i == j)
    && |tcs| <= |covered|
  }

  lemma SuiteGrows(tcs: seq<TestCase>, covered: set<nat>, tc: TestCase)
    requires SuiteOk(tcs, covered) && tc.goals != {} && tc.goals !! covered
    ensures SuiteOk(tcs + [tc], covered + tc.goals)
  {
    var all := tcs + [tc];
    forall i, g ensures Credits(all, i, g) <==> Credits(tcs, i, g) || (i == |tcs| && g in tc.goals) { }
    forall g | g in covered + tc.goals ensures exists i :: Credits(all, i, g) {
      if g in covered {
        var i :| Credits(tcs, i, g);
        assert Credits(all, i, g);
      } else { assert Credits(all, |tcs|, g); }
    }
    assert |covered + tc.goals| == |covered| + |tc.goals|;
    var g :| g in tc.goals;
    assert |tc.goals - {g}| == |tc.goals| - 1;
  }

  /** Without a model that avoids the covered goals, no model satisfies an open one. */
  lemma OpenInfeasible(f: set<Clause>, goals: seq<Clause>, covered: set<nat>, g: nat)
    requires ExactlyOneGoal(f, goals) && UnsatUnder(f + Blocking(goals, covered), []) && g < |goals| && g !in covered
    ensures UnsatUnder(f, goals[g])
  {
    hide AllTrue, Models;
    forall a | Models(a, f) ensures !AllTrue(a, goals[g]) {
      BlockedModels(a, f, goals, covered);
      NoAssumptions(a);
      var h :| OnlyGoal(a, goals, h);
    }
  }

  lemma NoAssumptions(a: Valuation)
    ensures AllTrue(a, [])
  {
  }

  lemma CoveredFeasible(f: set<Clause>, goal: Clause, m: seq<LBool>, inputs: seq<Var>)
    requires InputsBelow(inputs, |m|) && ReachableWith(f, goal, m, inputs)
    ensures !UnsatUnder(f, goal)
  {
  }

  /** One round of the main loop: a test case from a model of the main solver.  The goals of the model
      are those the internal analysis finds, those the solver says, or both; without the solver the
      test case is not strengthened. */
  method MakeCase(main: Solver, cnf: seq<Clause>, n: nat, goals: seq<Clause>, inputs: seq<Var>, open: set<nat>,
                  coverage: seq<Clause>, check: Option<Check>, useSat: bool, ghost covered: set<nat>)
    returns (tc: TestCase, open': set<nat>, coverage': seq<Clause>)
    requires ClausesBelow(cnf, n) && GoalsBelow(goals, n) && InputsBelow(inputs, n) && ExactlyOneGoal(SetOf(cnf), goals)
    requires Ready(main, Every(n), SetOf(cnf) + Blocking(goals, covered)) && main.IsModel(main.model, [])
      && |main.model| == n && TotalModel(main.model)
    requires Split(covered, open, Ids(goals)) && BlockList(coverage, goals, covered)
    requires (check.Some? ==> ExactCheck(check.value, SetOf(cnf), goals, n)) && (check.Some? || useSat)
    modifies main
    ensures CaseOk(SetOf(cnf), goals, inputs, n, tc) && Split(tc.goals, open', open)
    ensures if useSat then NoneReachable(SetOf(cnf), goals, open', Fixed(tc.model, inputs))
      else Met(tc.goals, tc.model, goals)
    ensures Ready(main, Every(n), SetOf(cnf) + Blocking(goals, covered + tc.goals))
      && BlockList(coverage', goals, covered + tc.goals)
  {
    hide *;
    ghost var f := SetOf(cnf);
    ReadyParts(main, Every(n), f + Blocking(goals, covered));
    SolverModel(main, [], f + Blocking(goals, covered));
    var m := main.model;
    var fixed := Fixed(m, inputs);
    FixedTrue(m, inputs);
    FixedBelow(m, inputs);
    BlockedModels(ValuationOf(m), f, goals, covered);
    var found: set<nat> := {};
    if check.Some? {
      found := check.value(m);
      CheckFinds(check.value, f, goals, n, m);
    }
    var first, more;
    first, open', more := TakeModel(m, goals, open, if useSat then None else Some(found), f, covered, fixed);
    BlockBelow(more, goals, first, n);
    BlockMore(f, goals, covered, first, more);
    AddAll(main, more, Every(n), f + Blocking(goals, covered));
    coverage' := coverage + more;
    var others: set<nat> := {};
    if useSat {
      ghost var now, mid := covered + first, open';
      SplitIds(covered, open, Ids(goals), first, open');
      others, open', coverage' := StrengthenCase(main, cnf, n, goals, fixed, open', coverage', now);
      SplitMore(first, mid, open, others, open');
      Joined(covered, first, others);
    }
    if check.Some? { FoundFirst(found, m, goals, first); }
    assert found + first + others == first + others;
    assert first + {} == first;
    tc := TestCase(found + first + others, m);
    CoveredMore(first, others, m, goals);
    IsCase(f, goals, inputs, n, tc, fixed);
  }

  lemma CheckFinds(check: Check, f: set<Clause>, goals: seq<Clause>, n: nat, m: seq<LBool>)
    requires ExactCheck(check, f, goals, n) && TotalModel(m) && |m| == n && Models(ValuationOf(m), f)
    ensures FindsGoals(check(m), m, goals)
  {
  }

  lemma FoundFirst(found: set<nat>, m: seq<LBool>, goals: seq<Clause>, first: set<nat>)
    requires FindsGoals(found, m, goals)
    requires Covered(first, m, goals)
    ensures found <= first
  {
  }

  lemma CoveredMore(first: set<nat>, others: set<nat>, m: seq<LBool>, goals: seq<Clause>)
    requires Covered(first, m, goals)
    ensures Covered(first + others, m, goals)
  {
  }

  lemma IsCase(f: set<Clause>, goals: seq<Clause>, inputs: seq<Var>, n: nat, tc: TestCase, fixed: seq<Lit>)
    requires tc.goals != {} && |tc.model| == n && TotalModel(tc.model) && Models(ValuationOf(tc.model), f)
      && InputsBelow(inputs, n) && fixed == Fixed(tc.model, inputs) && Covered(tc.goals, tc.model, goals)
    requires forall g :: g in tc.goals ==> g < |goals| && Reachable(f, goals[g], fixed)
    ensures CaseOk(f, goals, inputs, n, tc)
  {
    hide Reachable, ReachableWith, Fixed, Models, Covered;
    forall g | g in tc.goals ensures ReachableWith(f, goals[g], tc.model, inputs) {
      ReachableInputs(f, goals[g], tc.model, inputs);
    }
  }

  /** A second solver with everything blocked so far looks for more goals of the same test case. */
  method StrengthenCase(main: Solver, cnf: seq<Clause>, n: nat, goals: seq<Clause>, fixed: seq<Lit>, open: set<nat>,
                        coverage: seq<Clause>, ghost covered: set<nat>)
    returns (done: set<nat>, open': set<nat>, coverage': seq<Clause>)
    requires ClausesBelow(cnf, n) && GoalsBelow(goals, n) && VarsBelow(fixed, n) && ExactlyOneGoal(SetOf(cnf), goals)
    requires Ready(main, Every(n), SetOf(cnf) + Blocking(goals, covered))
    requires Split(covered, open, Ids(goals)) && BlockList(coverage, goals, covered)
    modifies main
    ensures Split(done, open', open) && BlockList(coverage', goals, covered + done)
    ensures Ready(main, Every(n), SetOf(cnf) + Blocking(goals, covered + done))
    ensures forall g :: g in done ==> g < |goals| && Reachable(SetOf(cnf), goals[g], fixed)
    ensures NoneReachable(SetOf(cnf), goals, open', fixed)
  {
    hide *;
    ghost var f := SetOf(cnf);
    EveryUses(cnf, n);
    var tmp := NewSolver(Every(n), cnf);
    BlockBelow(coverage, goals, covered, n);
    AddAll(tmp, coverage, Every(n), f);
    SameBlocking(coverage, goals, covered);
    done, open', coverage' := Strengthen(main, tmp, n, goals, fixed, open, coverage, f, covered);
  }

  lemma FixedBelow(m: seq<LBool>, inputs: seq<Var>)
    requires InputsBelow(inputs, |m|)
    ensures VarsBelow(Fixed(m, inputs), |m|)
  {
  }

  lemma SameBlocking(cs: seq<Clause>, goals: seq<Clause>, ids: set<nat>)
    requires BlockList(cs, goals, ids)
    ensures SetOf(cs) == Blocking(goals, ids)
  {
  }

  /** The constraints together with clauses that exclude the inputs of earlier test cases. */
  function WithPrevious(cnf: seq<Clause>, prev: seq<seq<LBool>>, inputs: seq<Var>): (r: seq<Clause>)
    requires forall i :: 0 <= i < |prev| ==> InputsBelow(inputs, |prev[i]|)
  {
    cnf + seq(|prev|, i requires 0 <= i < |prev| => Negated(Fixed(prev[i], inputs)))
  }

  /** A model of the constraints that differs from every earlier test case on some input. */
  ghost predicate NewModel(a: Valuation, cnf: seq<Clause>, prev: seq<seq<LBool>>, inputs: seq<Var>)
    requires forall i :: 0 <= i < |prev| ==> InputsBelow(inputs, |prev[i]|)
  {
    Models(a, SetOf(cnf)) && forall i :: 0 <= i < |prev| ==> !SameInputs(a, prev[i], inputs)
  }

  lemma PreviousMeans(a: Valuation, cnf: seq<Clause>, prev: seq<seq<LBool>>, inputs: seq<Var>)
    requires forall i :: 0 <= i < |prev| ==> InputsBelow(inputs, |prev[i]|)
    ensures Models(a, SetOf(WithPrevious(cnf, prev, inputs))) <==> NewModel(a, cnf, prev, inputs)
  {
    hide Sat, AllTrue, Negated, Fixed, SameInputs;
    var all := WithPrevious(cnf, prev, inputs);
    var extra := all[|cnf|..];
    forall i | 0 <= i < |extra| ensures Sat(a, extra[i]) <==> !SameInputs(a, prev[i], inputs) {
      NegatedSat(a, Fixed(prev[i], inputs));
      FixedMeans(a, prev[i], inputs);
    }
    if Models(a, SetOf(all)) {
      forall c | c in SetOf(cnf) ensures Sat(a, c) {
        var k :| 0 <= k < |cnf| && cnf[k] == c;
        assert all[k] == c && c in SetOf(all);
      }
      forall i | 0 <= i < |extra| ensures Sat(a, extra[i]) { assert extra[i] in SetOf(all); }
    }
    if NewModel(a, cnf, prev, inputs) {
      forall c | c in SetOf(all) ensures Sat(a, c) {
        var k :| 0 <= k < |all| && all[k] == c;
        if k < |cnf| { assert cnf[k] == c && c in SetOf(cnf); } else { assert c == extra[k - |cnf|]; }
      }
    }
  }

  lemma PreviousKeeps(cnf: seq<Clause>, prev: seq<seq<LBool>>, inputs: seq<Var>, goals: seq<Clause>, n: nat)
    requires forall i :: 0 <= i < |prev| ==> InputsBelow(inputs, |prev[i]|)
    requires ClausesBelow(cnf, n) && InputsBelow(inputs, n) && ExactlyOneGoal(SetOf(cnf), goals)
    ensures ClausesBelow(WithPrevious(cnf, prev, inputs), n)
      && ExactlyOneGoal(SetOf(WithPrevious(cnf, prev, inputs)), goals)
  {
    hide OnlyGoal, Models, AllTrue;
    var all := WithPrevious(cnf, prev, inputs);
    forall k | 0 <= k < |all| ensures VarsBelow(all[k], n) {
      if k < |cnf| { assert VarsBelow(cnf[k], n); }
      else { NegatedBelow(prev[k - |cnf|], inputs, n); }
    }
    forall a | Models(a, SetOf(all)) ensures exists g :: OnlyGoal(a, goals, g) { PreviousMeans(a, cnf, prev, inputs); }
  }

  lemma CheckKeeps(check: Check, cnf: seq<Clause>, prev: seq<seq<LBool>>, inputs: seq<Var>, goals: seq<Clause>, n: nat)
    requires (forall i :: 0 <= i < |prev| ==> InputsBelow(inputs, |prev[i]|)) && ExactCheck(check, SetOf(cnf), goals, n)
    ensures ExactCheck(check, SetOf(WithPrevious(cnf, prev, inputs)), goals, n)
  {
    hide FindsGoals, Models, AllTrue, TotalModel, ValuationOf, WithPrevious;
    forall m: seq<LBool>
      | TotalModel(m) && |m| == n && Models(ValuationOf(m), SetOf(WithPrevious(cnf, prev, inputs)))
      ensures FindsGoals(check(m), m, goals) {
      PreviousMeans(ValuationOf(m), cnf, prev, inputs);
    }
  }

  lemma NegatedBelow(m: seq<LBool>, inputs: seq<Var>, n: nat)
    requires InputsBelow(inputs, |m|) && InputsBelow(inputs, n)
    ensures VarsBelow(Negated(Fixed(m, inputs)), n)
  {
  }

  /** Some new model satisfies the goal. */
  ghost predicate Feasible(cnf: seq<Clause>, prev: seq<seq<LBool>>, inputs: seq<Var>, goal: Clause)
    requires forall i :: 0 <= i < |prev| ==> InputsBelow(inputs, |prev[i]|)
  {
    exists a :: NewModel(a, cnf, prev, inputs) && AllTrue(a, goal)
  }

  /** Some new model with the inputs of the test case satisfies the goal. */
  ghost predicate ReachedBy(cnf: seq<Clause>, prev: seq<seq<LBool>>, inputs: seq<Var>, goal: Clause, m: seq<LBool>)
    requires forall i :: 0 <= i < |prev| ==> InputsBelow(inputs, |prev[i]|)
    requires InputsBelow(inputs, |m|)
  {
    exists a :: NewModel(a, cnf, prev, inputs) && AllTrue(a, goal) && SameInputs(a, m, inputs)
  }

  /** A test case is a new model, credited with its own goal and only with goals that its inputs reach. */
  ghost predicate GoodCase(cnf: seq<Clause>, prev: seq<seq<LBool>>, goals: seq<Clause>, inputs: seq<Var>, n: nat,
                           tc: TestCase)
    requires forall i :: 0 <= i < |prev| ==> InputsBelow(inputs, |prev[i]|)
    requires InputsBelow(inputs, n)
  {
    && tc.goals != {} && |tc.model| == n && TotalModel(tc.model) && NewModel(ValuationOf(tc.model), cnf, prev, inputs)
    && Covered(tc.goals, tc.model, goals)
    && forall g :: g in tc.goals ==> g < |goals| && ReachedBy(cnf, prev, inputs, goals[g], tc.model)
  }

  /** A goal that the inputs of a test case reach is credited to it or to an earlier one. */
  ghost predicate SaturatedSuite(cnf: seq<Clause>, prev: seq<seq<LBool>>, goals: seq<Clause>, inputs: seq<Var>, n: nat,
                                 tcs: seq<TestCase>)
    requires (forall i :: 0 <= i < |prev| ==> InputsBelow(inputs, |prev[i]|)) && InputsBelow(inputs, n)
  {
    forall i, g :: 0 <= i < |tcs| && 0 <= g < |goals| ==>
      |tcs[i].model| == n && ReachedBy(cnf, prev, inputs, goals[g], tcs[i].model) ==> CreditedBy(tcs, i, g)
  }

  /** Generates a test suite.  A limit of 0 is no limit.  There are at most as many test cases as goals
      and as the limit allows, every credited goal is credited once and some model with the inputs of its
      test case satisfies it, and unless the limit stopped the loop a goal stays open exactly when no
      new model of the constraints satisfies it.  With the solver the suite is saturated; without it a
      test case is credited with the goals of its own model only. */
  method Generate(cnf0: seq<Clause>, n: nat, goals: seq<Clause>, inputs: seq<Var>, limit: nat, prev: seq<seq<LBool>>,
                  check: Option<Check>, useSat: bool)
    returns (tcs: seq<TestCase>, open: set<nat>)
    requires ClausesBelow(cnf0, n) && GoalsBelow(goals, n) && InputsBelow(inputs, n)
      && ExactlyOneGoal(SetOf(cnf0), goals)
    requires forall i :: 0 <= i < |prev| ==> InputsBelow(inputs, |prev[i]|)
    requires (check.Some? ==> ExactCheck(check.value, SetOf(cnf0), goals, n)) && (check.Some? || useSat)
    ensures |tcs| <= |goals| && (limit > 0 ==> |tcs| <= limit)
    ensures forall i :: 0 <= i < |tcs| ==> GoodCase(cnf0, prev, goals, inputs, n, tcs[i])
    ensures forall g :: 0 <= g < |goals| && !Feasible(cnf0, prev, inputs, goals[g]) ==> g in open
    ensures limit == 0 || |tcs| < limit ==>
      forall g :: 0 <= g < |goals| ==> (g in open <==> !Feasible(cnf0, prev, inputs, goals[g]))
    ensures forall g :: 0 <= g < |goals| ==> (g in open <==> !exists i :: Credits(tcs, i, g))
    ensures forall i, j, g :: Credits(tcs, i, g) && Credits(tcs, j, g) ==> i == j
    ensures if useSat then SaturatedSuite(cnf0, prev, goals, inputs, n, tcs)
      else forall i :: 0 <= i < |tcs| ==> Met(tcs[i].goals, tcs[i].model, goals)
  {
    hide *;
    PreviousKeeps(cnf0, prev, inputs, goals, n);
    var cnf := WithPrevious(cnf0, prev, inputs);
    ghost var f := SetOf(cnf);
    if check.Some? { CheckKeeps(check.value, cnf0, prev, inputs, goals, n); }
    ghost var covered: set<nat> := {};
    tcs, open := [], UpTo(|goals|);
    var coverage: seq<Clause> := [];
    StartSuite(goals, f, inputs, n, open);
    EveryUses(cnf, n);
    var main := NewSolver(Every(n), cnf);
    while open != {} && (limit == 0 || |tcs| < limit)
      invariant fresh(main) && fresh(main.order) && (limit == 0 || |tcs| <= limit)
      invariant Ready(main, Every(n), f + Blocking(goals, covered)) && BlockList(coverage, goals, covered)
      invariant Split(covered, open, Ids(goals)) && SuiteOk(tcs, covered)
      invariant Suite(f, goals, inputs, n, tcs, useSat)
      decreases |open|
    {
      ghost var before := open;
      ReadyParts(main, Every(n), f + Blocking(goals, covered));
      NoVars(n);
      var sat := main.SolveAll([], true, 100, 2);
      if !sat {
        forall g | g in open ensures g < |goals| && UnsatUnder(f, goals[g]) {
          OpenParts(covered, open, goals, g);
          OpenInfeasible(f, goals, covered, g);
        }
        break;
      }
      IsReady(main, Every(n), f + Blocking(goals, covered));
      EveryTotal(main, n);
      var tc;
      tc, open, coverage := MakeCase(main, cnf, n, goals, inputs, open, coverage, check, useSat, covered);
      CaseSome(f, goals, inputs, n, tc);
      SplitIds(covered, before, Ids(goals), tc.goals, open);
      SuiteGrows(tcs, covered, tc);
      OneMoreCase(f, goals, inputs, n, tcs, covered, tc, open, useSat);
      FewerOpen(before, open, tc.goals);
      tcs := tcs + [tc];
      covered := covered + tc.goals;
    }
    FinishSuite(f, goals, inputs, n, tcs, covered, open, limit, useSat);
    Restate(cnf0, prev, goals, inputs, n, tcs, useSat);
  }

  /** The goal is credited to test case `i` or to an earlier one. */
  ghost predicate CreditedBy(tcs: seq<TestCase>, i: int, g: nat) { exists j :: j <= i && Credits(tcs, j, g) }

  /** Every goal that the inputs of a test case reach is credited to it or to an earlier one. */
  ghost predicate Saturated(f: set<Clause>, goals: seq<Clause>, inputs: seq<Var>, n: nat, tcs: seq<TestCase>) {
    InputsBelow(inputs, n) && forall i, g :: 0 <= i < |tcs| && 0 <= g < |goals| ==>
      |tcs[i].model| == n && ReachableWith(f, goals[g], tcs[i].model, inputs) ==> CreditedBy(tcs, i, g)
  }

  /** Every test case is right; with the solver they are saturated, and without it they are credited
      with the goals of their own models only. */
  ghost predicate Suite(f: set<Clause>, goals: seq<Clause>, inputs: seq<Var>, n: nat, tcs: seq<TestCase>,
                        useSat: bool) {
    && (forall i :: 0 <= i < |tcs| ==> CaseOk(f, goals, inputs, n, tcs[i]))
    && if useSat then Saturated(f, goals, inputs, n, tcs)
       else forall i :: 0 <= i < |tcs| ==> Met(tcs[i].goals, tcs[i].model, goals)
  }

  lemma OneMoreCase(f: set<Clause>, goals: seq<Clause>, inputs: seq<Var>, n: nat, tcs: seq<TestCase>,
                    covered: set<nat>, tc: TestCase, open: set<nat>, useSat: bool)
    requires Suite(f, goals, inputs, n, tcs, useSat) && CaseOk(f, goals, inputs, n, tc)
    requires SuiteOk(tcs + [tc], covered + tc.goals) && Split(covered + tc.goals, open, Ids(goals))
    requires if useSat then InputsBelow(inputs, n) && |tc.model| == n
      && NoneReachable(f, goals, open, Fixed(tc.model, inputs)) else Met(tc.goals, tc.model, goals)
    ensures Suite(f, goals, inputs, n, tcs + [tc], useSat)
  {
    hide CaseOk, Saturated, Met, SuiteOk, NoneReachable, Fixed, Split;
    if useSat { SaturatedGrows(f, goals, inputs, n, tcs, covered, tc, open); }
  }

  lemma SaturatedGrows(f: set<Clause>, goals: seq<Clause>, inputs: seq<Var>, n: nat, tcs: seq<TestCase>,
                       covered: set<nat>, tc: TestCase, open: set<nat>)
    requires Saturated(f, goals, inputs, n, tcs) && SuiteOk(tcs + [tc], covered + tc.goals) && |tc.model| == n
    requires Split(covered + tc.goals, open, Ids(goals)) && NoneReachable(f, goals, open, Fixed(tc.model, inputs))
    ensures Saturated(f, goals, inputs, n, tcs + [tc])
  {
    hide ReachableWith, Reachable, Fixed;
    var all := tcs + [tc];
    forall i, g | 0 <= i < |all| && 0 <= g < |goals| && |all[i].model| == n
      && ReachableWith(f, goals[g], all[i].model, inputs)
      ensures CreditedBy(all, i, g) {
      if i < |tcs| {
        var j :| j <= i && Credits(tcs, j, g);
        assert Credits(all, j, g);
      } else {
        ReachableInputs(f, goals[g], tc.model, inputs);
        assert g in Ids(goals);
        var j :| Credits(all, j, g);
      }
    }
  }

  /** The results in terms of the given constraints and the earlier test cases. */
  lemma Restate(cnf: seq<Clause>, prev: seq<seq<LBool>>, goals: seq<Clause>, inputs: seq<Var>, n: nat,
                tcs: seq<TestCase>, useSat: bool)
    requires (forall i :: 0 <= i < |prev| ==> InputsBelow(inputs, |prev[i]|)) && InputsBelow(inputs, n)
    requires Suite(SetOf(WithPrevious(cnf, prev, inputs)), goals, inputs, n, tcs, useSat)
    ensures forall goal :: UnsatUnder(SetOf(WithPrevious(cnf, prev, inputs)), goal) <==>
      !Feasible(cnf, prev, inputs, goal)
    ensures forall i :: 0 <= i < |tcs| ==> GoodCase(cnf, prev, goals, inputs, n, tcs[i])
    ensures if useSat then SaturatedSuite(cnf, prev, goals, inputs, n, tcs)
      else forall i :: 0 <= i < |tcs| ==> Met(tcs[i].goals, tcs[i].model, goals)
  {
    hide Models, AllTrue, NewModel, WithPrevious, SameInputs, ValuationOf, TotalModel, Covered, SetOf;
    var f := SetOf(WithPrevious(cnf, prev, inputs));
    forall a ensures Models(a, f) <==> NewModel(a, cnf, prev, inputs) { PreviousMeans(a, cnf, prev, inputs); }
    forall goal, m: seq<LBool> | InputsBelow(inputs, |m|)
      ensures ReachedBy(cnf, prev, inputs, goal, m) <==> ReachableWith(f, goal, m, inputs) { }
  }

  lemma NoVars(n: nat)
    ensures VarsBelow([], n)
  {
  }

  lemma StartSuite(goals: seq<Clause>, f: set<Clause>, inputs: seq<Var>, n: nat, open: set<nat>)
    requires open == UpTo(|goals|) && InputsBelow(inputs, n)
    ensures Saturated(f, goals, inputs, n, []) && forall useSat :: Suite(f, goals, inputs, n, [], useSat)
    ensures Split({}, open, Ids(goals)) && f + Blocking(goals, {}) == f && BlockList([], goals, {}) && SuiteOk([], {})
  {
  }

  lemma OpenParts(covered: set<nat>, open: set<nat>, goals: seq<Clause>, g: nat)
    requires Split(covered, open, Ids(goals)) && g in open
    ensures g < |goals| && g !in covered
  {
    assert g in Ids(goals);
  }

  lemma CaseSome(f: set<Clause>, goals: seq<Clause>, inputs: seq<Var>, n: nat, tc: TestCase)
    requires CaseOk(f, goals, inputs, n, tc)
    ensures tc.goals != {} && |tc.model| == n
  {
  }

  lemma CoveredCount(goals: seq<Clause>, covered: set<nat>, open: set<nat>)
    requires Split(covered, open, Ids(goals))
    ensures |covered| <= |goals|
  {
    assert |covered + open| == |covered| + |open|;
  }

  lemma FinishSuite(f: set<Clause>, goals: seq<Clause>, inputs: seq<Var>, n: nat, tcs: seq<TestCase>, covered: set<nat>,
                    open: set<nat>, limit: nat, useSat: bool)
    requires Split(covered, open, Ids(goals)) && SuiteOk(tcs, covered)
    requires Suite(f, goals, inputs, n, tcs, useSat)
    requires limit == 0 || |tcs| < limit ==> forall g :: g in open ==> g < |goals| && UnsatUnder(f, goals[g])
    ensures |tcs| <= |goals|
    ensures forall g :: 0 <= g < |goals| && UnsatUnder(f, goals[g]) ==> g in open
    ensures limit == 0 || |tcs| < limit ==> forall g :: 0 <= g < |goals| ==> (g in open <==> UnsatUnder(f, goals[g]))
    ensures forall g :: 0 <= g < |goals| ==> (g in open <==> !exists i :: Credits(tcs, i, g))
    ensures forall i, j, g :: Credits(tcs, i, g) && Credits(tcs, j, g) ==> i == j
  {
    hide UnsatUnder, ReachableWith, Models, TotalModel, Covered;
    CoveredCount(goals, covered, open);
    forall g | 0 <= g < |goals|
      ensures (UnsatUnder(f, goals[g]) ==> g in open) && (g in open <==> !exists i :: Credits(tcs, i, g)) {
      assert g in Ids(goals);
      if g in covered {
        var i :| Credits(tcs, i, g);
        assert CaseOk(f, goals, inputs, n, tcs[i]);
        CoveredFeasible(f, goals[g], tcs[i].model, inputs);
      }
    }
  }
}
