/** Solving with preprocessing: variables are eliminated, the core solver answers for what remains,
    and its model is extended to the eliminated variables. */
module Preprocessing {
  import opened Cnf
  import opened Trails
  import opened Database
  import opened ClauseSet
  import opened Solvers
  import opened SimpSolvers
  import opened Solving

  // ---------- what remains ----------

  /** The variables that are not eliminated. */
  function Others(eliminated: seq<bool>): (d: seq<bool>)
    ensures |d| == |eliminated| && forall v :: 0 <= v < |d| ==> (d[v] <==> !eliminated[v])
  {
    seq(|eliminated|, v requires 0 <= v < |eliminated| => !eliminated[v])
  }

  ghost predicate HoldsIn(a: Valuation, cs: seq<Clause>) { forall i :: 0 <= i < |cs| ==> Sat(a, cs[i]) }

  lemma SetHolds(a: Valuation, cs: seq<Clause>)
    ensures Models(a, SetOf(cs)) <==> HoldsIn(a, cs)
  {
    hide Sat;
    if HoldsIn(a, cs) { forall c | c in SetOf(cs) ensures Sat(a, c) { var i :| 0 <= i < |cs| && cs[i] == c; } }
    if Models(a, SetOf(cs)) { forall i | 0 <= i < |cs| ensures Sat(a, cs[i]) { assert cs[i] in SetOf(cs); } }
  }

  lemma HoldsMore(a: Valuation, cs: seq<Clause>, c: Clause)
    ensures HoldsIn(a, cs + [c]) <==> HoldsIn(a, cs) && Sat(a, c)
  {
    hide Sat;
    var ds := cs + [c];
    assert ds[|cs|] == c;
    if HoldsIn(a, ds) { forall i | 0 <= i < |cs| ensures Sat(a, cs[i]) { assert ds[i] == cs[i]; } }
  }

  lemma UnitSat(a: Valuation, l: Lit)
    ensures Sat(a, [l]) <==> True(a, l)
  {
    assert l in [l];
  }

  ghost predicate LiveBelow(a: Valuation, ca: seq<Clause>, mark: seq<bool>, n: nat) {
    forall cr: CRef {:trigger Alive(ca, mark, cr)} :: Alive(ca, mark, cr) && cr < n ==> Sat(a, ca[cr])
  }

  ghost predicate UnitsBelow(a: Valuation, units: seq<Lit>, n: nat) {
    forall i :: 0 <= i < n && i < |units| ==> True(a, units[i])
  }

  /** The live clauses, then the units as clauses. */
  method RemainingClauses(s: SimpSolver) returns (cs: seq<Clause>)
    requires s.ok && s.Valid()
    ensures AllUse(cs, Others(s.eliminated))
    ensures forall a :: Models(a, SetOf(cs)) <==> Base(a, s.ca, s.mark, s.units)
  {
    hide SimpSolver.Valid, Sat, Base, Models, HoldsIn, SetOf, Uses;
    ShapeParts(s);
    ghost var d := Others(s.eliminated);
    cs := [];
    assert forall a :: HoldsIn(a, cs) <==> LiveBelow(a, s.ca, s.mark, 0) by { NoneLive(cs, s.ca, s.mark); }
    for i := 0 to |s.ca|
      invariant AllUse(cs, d) && forall a :: HoldsIn(a, cs) <==> LiveBelow(a, s.ca, s.mark, i)
    {
      ghost var before := cs;
      if !s.mark[i] { ClauseBelow(s, i); cs := cs + [s.ca[i]]; }
      forall a ensures HoldsIn(a, cs) <==> LiveBelow(a, s.ca, s.mark, i + 1) {
        HoldsMore(a, before, s.ca[i]);
        LiveNext(a, s.ca, s.mark, i);
      }
    }
    ghost var live := cs;
    forall a ensures HoldsIn(a, cs) <==> HoldsIn(a, live) && UnitsBelow(a, s.units, 0) { }
    for i := 0 to |s.units|
      invariant AllUse(cs, d) && forall a :: HoldsIn(a, cs) <==> HoldsIn(a, live) && UnitsBelow(a, s.units, i)
    {
      ghost var before := cs;
      UnitBelow(s, i);
      cs := cs + [[s.units[i]]];
      forall a ensures HoldsIn(a, cs) <==> HoldsIn(a, live) && UnitsBelow(a, s.units, i + 1) {
        HoldsMore(a, before, [s.units[i]]);
        UnitSat(a, s.units[i]);
      }
    }
    forall a ensures Models(a, SetOf(cs)) <==> Base(a, s.ca, s.mark, s.units) {
      SetHolds(a, cs);
      BaseParts(a, s.ca, s.mark, s.units);
    }
  }

  lemma ShapeParts(s: SimpSolver)
    requires s.ok && s.Valid()
    ensures |s.mark| == |s.ca|
  {
  }

  lemma NoneLive(cs: seq<Clause>, ca: seq<Clause>, mark: seq<bool>)
    requires cs == []
    ensures forall a :: HoldsIn(a, cs) <==> LiveBelow(a, ca, mark, 0)
  {
  }

  lemma LiveNext(a: Valuation, ca: seq<Clause>, mark: seq<bool>, i: nat)
    requires i < |ca| == |mark|
    ensures LiveBelow(a, ca, mark, i + 1) <==> LiveBelow(a, ca, mark, i) && (!mark[i] ==> Sat(a, ca[i]))
  {
    hide Sat;
    if LiveBelow(a, ca, mark, i + 1) { assert !mark[i] ==> Alive(ca, mark, i); }
  }

  lemma ClauseBelow(s: SimpSolver, i: nat)
    requires s.ok && s.Valid() && Alive(s.ca, s.mark, i)
    ensures Uses(s.ca[i], Others(s.eliminated))
  {
  }

  lemma UnitBelow(s: SimpSolver, i: nat)
    requires s.ok && s.Valid() && i < |s.units|
    ensures Uses([s.units[i]], Others(s.eliminated))
  {
  }

  lemma BaseParts(a: Valuation, ca: seq<Clause>, mark: seq<bool>, units: seq<Lit>)
    ensures Base(a, ca, mark, units) <==> LiveBelow(a, ca, mark, |ca|) && UnitsBelow(a, units, |units|)
  {
    hide Sat;
    if UnitsBelow(a, units, |units|) {
      forall l | l in units ensures True(a, l) { var i :| 0 <= i < |units| && units[i] == l; }
    }
  }

  // ---------- the answer ----------

  /** Freezes the variables of `vs`, or lets them be eliminated again. */
  method FreezeAll(s: SimpSolver, vs: set<Var>, b: bool)
    requires s.Valid() && forall v :: v in vs ==> v < |s.eliminated|
    modifies s`frozen, s`elimHeap
    ensures s.Valid() && s.frozen == if b then old(s.frozen) + vs else old(s.frozen) - vs
    ensures s.elimHeap == old(s.elimHeap) + if b then {} else OpenOf(s, vs)
  {
    hide *;
    var rest := vs;
    OpenNone(s);
    assert vs - rest == {};
    while rest != {}
      invariant s.Valid() && rest <= vs
      invariant s.elimHeap == old(s.elimHeap) + if b then {} else OpenOf(s, vs - rest)
      invariant s.frozen == if b then old(s.frozen) + (vs - rest) else old(s.frozen) - (vs - rest)
    {
      var v :| v in rest;
      OpenMore(s, vs - rest, v);
      ghost var done := vs - rest;
      rest := rest - {v};
      assert vs - rest == done + {v};
      s.SetFrozen(v, b);
    }
    assert vs - rest == vs;
  }

  /** The variables of `vs` that may be eliminated if they are not frozen. */
  ghost function OpenOf(s: SimpSolver, vs: set<Var>): set<Var> reads s`eliminated, s`assigns {
    set v | v in vs && Open(v, {}, s.eliminated, s.assigns)
  }

  lemma OpenNone(s: SimpSolver)
    ensures OpenOf(s, {}) == {}
  {
  }

  lemma OpenMore(s: SimpSolver, vs: set<Var>, v: Var)
    ensures OpenOf(s, vs + {v}) == OpenOf(s, vs) + if Open(v, {}, s.eliminated, s.assigns) then {v} else {}
  {
  }

  /** Eliminates variables, solves what remains under the assumptions, whose variables are frozen in
      the meantime, with a solver that does not decide eliminated variables, and extends the model.
      The answer is the one for the clauses that were added, and what remains is the result of a whole
      elimination.  Afterwards just the unfrozen variables wait for elimination. */
  method SolveSimplified(s: SimpSolver, assumps: seq<Lit>)
    returns (sat: bool, ghost interrupted: bool, ghost run: seq<View>, ghost acts: seq<Act>)
    requires s.Valid() && Usable(s.eliminated, assumps)
    modifies s
    ensures s.Valid() && s.original == old(s.original) && s.frozen == old(s.frozen)
    ensures sat ==> TotalModel(s.model) && forall a :: Agrees(a, s.model) ==>
      Models(a, s.original) && AllTrue(a, assumps)
    ensures sat <==> !UnsatUnder(s.original, assumps)
    ensures interrupted ==> s.interruptible
    ensures s.ok ==> s.elimHeap == OpenOf(s, VarsOf(assumps) - s.frozen)
    ensures s.ok && !interrupted ==> Linked(old(s.Now()), run, acts, EmptyHeap(s.Now()),
      s.frozen + VarsOf(assumps), s.grow, s.clauseLim)
  {
    hide *;
    ViewIs(s);
    var extra := VarsOf(assumps) - s.frozen;
    AssumpsBelow(s.eliminated, assumps, extra);
    FreezeAll(s, extra, true);
    ViewIs(s);
    assert s.frozen == old(s.frozen) + VarsOf(assumps) && s.elimHeap == old(s.elimHeap);
    var good;
    good, interrupted, run, acts := s.Eliminate();
    ViewIs(s);
    ghost var t := s.Now();
    AssumpsKept(old(s.eliminated), s.eliminated, assumps, s.frozen);
    if good {
      sat := SolveRest(s, assumps);
    } else {
      RefutedUnder(s, assumps);
      sat := false;
    }
    FreezeAll(s, extra, false);
    ViewIs(s);
    assert old(s.frozen) + extra - extra == old(s.frozen) && extra == VarsOf(assumps) - s.frozen;
    if good { assert EmptyHeap(s.Now()) == t; }
    if good { assert {} + OpenOf(s, extra) == OpenOf(s, extra); }
  }

  /** Solves what remains after the elimination, and extends the model. */
  method SolveRest(s: SimpSolver, assumps: seq<Lit>) returns (sat: bool)
    requires s.ok && s.Valid() && Usable(s.eliminated, assumps) && VarsBelow(assumps, |Others(s.eliminated)|)
    modifies s`model
    ensures s.Valid()
    ensures sat ==> TotalModel(s.model) && forall a :: Agrees(a, s.model) ==>
      Models(a, s.original) && AllTrue(a, assumps)
    ensures sat <==> !UnsatUnder(s.original, assumps)
  {
    hide *;
    var cs := RemainingClauses(s);
    var d := Others(s.eliminated);
    var core := NewSolver(d, cs);
    ReadyParts(core, d, SetOf(cs));
    sat := core.SolveAll(assumps, true, 100, 2);
    if sat {
      s.model := core.model;
      Extendable(s, core, cs, assumps);
      s.ExtendModel();
      FinalModel(s, core, assumps);
      WitnessModel(s, assumps);
    } else {
      StillUnsat(s, cs, assumps);
    }
  }

  function VarsOf(ls: seq<Lit>): set<Var> { set l | l in ls :: l.v }

  ghost function EmptyHeap(v: View): View { v.(store := v.store.(heap := {})) }

  lemma ViewIs(s: SimpSolver)
    ensures s.Now() == View(Store(s.ca, s.mark, s.units, s.assigns, s.elimHeap), s.occurs, s.eliminated)
    ensures EmptyHeap(s.Now()) == View(Store(s.ca, s.mark, s.units, s.assigns, {}), s.occurs, s.eliminated)
  {
  }

  lemma AssumpsBelow(eliminated: seq<bool>, assumps: seq<Lit>, vs: set<Var>)
    requires Usable(eliminated, assumps) && vs <= VarsOf(assumps)
    ensures forall v :: v in vs ==> v < |eliminated|
  {
  }

  lemma RefutedUnder(s: SimpSolver, assumps: seq<Lit>)
    requires s.Valid() && !s.ok
    ensures UnsatUnder(s.original, assumps)
  {
  }

  lemma AssumpsKept(before: seq<bool>, after: seq<bool>, assumps: seq<Lit>, frozen: set<Var>)
    requires Usable(before, assumps) && VarsOf(assumps) <= frozen && Eliminates(before, after, frozen)
    ensures Usable(after, assumps) && VarsBelow(assumps, |Others(after)|) && |after| == |before|
  {
    hide Left;
    forall l | l in assumps ensures l.v in frozen { }
  }

  /** The core model has values for all variables that are not eliminated, and describes models of the
      remainder only. */
  lemma Extendable(s: SimpSolver, core: Solver, cs: seq<Clause>, assumps: seq<Lit>)
    requires core.formula == SetOf(cs) && core.IsModel(core.model, assumps) && core.Assigns(core.model)
    requires core.decision == Others(s.eliminated) && |core.model| == |s.eliminated| && s.model == core.model
    requires forall a :: Models(a, SetOf(cs)) <==> Base(a, s.ca, s.mark, s.units)
    ensures forall v :: 0 <= v < |s.model| && !s.eliminated[v] ==> s.model[v] != LUndef
    ensures forall a {:trigger Agrees(a, s.model)} :: Agrees(a, s.model) ==> Base(a, s.ca, s.mark, s.units)
  {
    hide Base, Models, SetOf;
  }

  /** The extended model keeps the values of the assumptions. */
  lemma FinalModel(s: SimpSolver, core: Solver, assumps: seq<Lit>)
    requires |s.model| == |core.model| == |s.eliminated| && Usable(s.eliminated, assumps)
    requires core.IsModel(core.model, assumps) && core.Assigns(core.model) && core.decision == Others(s.eliminated)
    requires forall v :: 0 <= v < |s.model| && !s.eliminated[v] ==> s.model[v] == core.model[v]
    requires forall v :: 0 <= v < |s.model| ==> s.model[v] != LUndef
    ensures TotalModel(s.model) && forall a :: Agrees(a, s.model) ==> AllTrue(a, assumps)
  {
    SolverModel(core, assumps, core.formula);
    forall a, l | Agrees(a, s.model) && l in assumps ensures True(a, l) {
      assert True(ValuationOf(core.model), l) && core.model[l.v] != LUndef;
    }
  }

  lemma WitnessModel(s: SimpSolver, assumps: seq<Lit>)
    requires forall a :: Agrees(a, s.model) ==> Models(a, s.original)
    requires forall a :: Agrees(a, s.model) ==> AllTrue(a, assumps)
    ensures !UnsatUnder(s.original, assumps)
  {
    assert Agrees(ValuationOf(s.model), s.model);
  }

  lemma StillUnsat(s: SimpSolver, cs: seq<Clause>, assumps: seq<Lit>)
    requires s.ok && s.Valid() && UnsatUnder(SetOf(cs), assumps)
    requires forall a :: Models(a, SetOf(cs)) <==> Base(a, s.ca, s.mark, s.units)
    ensures UnsatUnder(s.original, assumps)
  {
    hide Base, Models, SetOf, OccursOk, DbShape, UnitShape;
    forall a | Models(a, s.original) ensures !AllTrue(a, assumps) { assert Base(a, s.ca, s.mark, s.units); }
  }
}
