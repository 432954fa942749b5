/** Using the solver: loading clauses, asking, and reading the answer as a valuation. */
module Solving {
  import opened Cnf
  import opened Trails
  import opened Database
  import opened Solvers

  ghost function SetOf(cs: seq<Clause>): set<Clause> { set c | c in cs }

  /** Only variables that may be decided occur. */
  ghost predicate Uses(c: Clause, decision: seq<bool>) { forall l :: l in c ==> l.v < |decision| && decision[l.v] }

  ghost predicate AllUse(cs: seq<Clause>, decision: seq<bool>) { forall i :: 0 <= i < |cs| ==> Uses(cs[i], decision) }

  ghost predicate SetUses(f: set<Clause>, decision: seq<bool>) { forall c :: c in f ==> Uses(c, decision) }

  /** A solver for `f` that may decide the given variables. */
  ghost predicate Ready(s: Solver, decision: seq<bool>, f: set<Clause>) reads s, s.order {
    s.Valid() && s.decision == decision && |s.assigns| == |decision| && s.formula == f && SetUses(f, decision)
  }

  lemma ReadyParts(s: Solver, decision: seq<bool>, f: set<Clause>)
    requires Ready(s, decision, f)
    ensures s.Valid() && s.decision == decision && |s.assigns| == |decision| && s.formula == f && s.Decided()
      && SetUses(f, decision)
  {
    forall v: Var | OccursIn(f, v) ensures v < |decision| && decision[v] {
      var c, l :| c in f && l in c && l.v == v;
      assert Uses(c, decision);
    }
  }

  lemma IsReady(s: Solver, decision: seq<bool>, f: set<Clause>)
    requires s.Valid() && s.decision == decision && |s.assigns| == |decision| && s.formula == f && SetUses(f, decision)
    ensures Ready(s, decision, f)
  {
  }

  method AddAll(s: Solver, cs: seq<Clause>, ghost decision: seq<bool>, ghost f: set<Clause>)
    requires Ready(s, decision, f) && AllUse(cs, decision)
    modifies s
    ensures Ready(s, decision, f + SetOf(cs))
  {
    hide Solver.Valid, Uses;
    assert f + SetOf(cs[..0]) == f;
    for i := 0 to |cs|
      invariant Ready(s, decision, f + SetOf(cs[..i]))
    {
      UsesBelow(cs[i], decision);
      var good := s.AddClause(cs[i]);
      OneMoreClause(f, cs, i);
    }
    assert cs[..|cs|] == cs;
  }

  lemma UsesBelow(c: Clause, decision: seq<bool>)
    requires Uses(c, decision)
    ensures VarsBelow(c, |decision|)
  {
  }

  lemma OneMoreClause(f: set<Clause>, cs: seq<Clause>, i: nat)
    requires i < |cs|
    ensures f + SetOf(cs[..i + 1]) == f + SetOf(cs[..i]) + {cs[i]}
  {
    assert cs[..i + 1] == cs[..i] + [cs[i]];
  }

  method NewSolver(decision: seq<bool>, cs: seq<Clause>) returns (s: Solver)
    requires AllUse(cs, decision)
    ensures fresh(s) && fresh(s.order) && Ready(s, decision, SetOf(cs))
  {
    hide Solver.Valid;
    s := new Solver(2);
    assert decision[..0] == [];
    for i := 0 to |decision|
      invariant fresh(s) && fresh(s.order) && s.Valid() && s.decision == decision[..i] && |s.assigns| == i
        && s.formula == {}
    {
      var v := s.NewVar(true, decision[i], 0.0);
      assert decision[..i + 1] == decision[..i] + [decision[i]];
    }
    assert decision[..|decision|] == decision;
    AddAll(s, cs, decision, {});
    assert {} + SetOf(cs) == SetOf(cs);
  }

  /** The valuation that makes the true variables of a model true. */
  ghost function ValuationOf(m: seq<LBool>): Valuation { iset v | 0 <= v < |m| && m[v] == LTrue }

  ghost predicate TotalModel(m: seq<LBool>) { forall v :: 0 <= v < |m| ==> m[v] != LUndef }

  /** What a solver's model means. */
  lemma SolverModel(s: Solver, assumps: seq<Lit>, f: set<Clause>)
    requires s.IsModel(s.model, assumps) && s.formula == f
    ensures Models(ValuationOf(s.model), f) && AllTrue(ValuationOf(s.model), assumps)
  {
    assert Agrees(ValuationOf(s.model), s.model);
  }
}
