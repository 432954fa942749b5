/** The preprocessing simplifier: variable elimination, backward subsumption and model
    reconstruction, on clauses and root-level units. */
module SimpSolvers {
  import opened Cnf
  import opened Trails
  import opened Elimination
  import opened Subsumption
  import opened Database
  import opened ClauseSet

  class SimpSolver {
    var ok: bool
    var ca: seq<Clause>
    var mark: seq<bool>
    var units: seq<Lit>                // the root-level trail
    var assigns: seq<LBool>            // the assignment the units make
    var occurs: Occurs
    var eliminated: seq<bool>
    var elimclauses: seq<nat>          // the packed reconstruction stack
    var queue: seq<CRef>               // clauses to try for backward subsumption
    var bwdsubAssigns: nat             // units already tried
    var touched: set<Var>              // variables of clauses stored since clauses were last gathered
    var elimHeap: set<Var>             // variables to try to eliminate
    var frozen: set<Var>               // variables that must not be eliminated
    var model: seq<LBool>
    const grow: int
    const clauseLim: int
    const subsumptionLim: int
    const interruptible: bool          // whether interrupts may arrive
    ghost var original: set<Clause>    // every clause ever added

    ghost predicate Shape()
      reads this`ca, this`mark, this`units, this`assigns, this`occurs, this`eliminated, this`queue, this`bwdsubAssigns,
        this`elimHeap
    {
      && HeapShape() && DbShape(ca, mark, eliminated) && UnitShape(units, assigns, eliminated)
        && OccursOk(ca, mark, occurs)
      && bwdsubAssigns <= |units| && forall cr :: cr in queue ==> cr < |ca|
    }

    ghost predicate HeapShape() reads this`elimHeap, this`eliminated, this`assigns {
      |assigns| == |eliminated| && forall v :: v in elimHeap ==> v < |eliminated|
    }

    /** Stored clauses concern eliminated variables and mention defined variables only. */
    ghost predicate StackShape() reads this`eliminated, this`elimclauses {
      && StackOk(elimclauses, eliminated) && StackDefined(elimclauses, Remaining(eliminated))
      && StackCovers(elimclauses, eliminated)
    }

    /** The state between calls. */
    ghost predicate Valid()
      reads this`ok, this`ca, this`mark, this`units, this`assigns, this`occurs, this`eliminated, this`elimclauses,
        this`queue, this`bwdsubAssigns, this`elimHeap, this`original
    {
      && HeapShape()
      && if ok then Shape() && StackShape() && Preserved(original, elimclauses, ca, mark, units) else Unsat(original)
    }

    /** The constraints are the same as in the given state. */
    ghost predicate Same(ca0: seq<Clause>, mark0: seq<bool>, units0: seq<Lit>) reads this`ca, this`mark, this`units {
      Equivalent(ca0, mark0, units0, ca, mark, units)
    }

    constructor (grow: int, clauseLim: int, subsumptionLim: int, interruptible: bool)
      ensures Valid() && ok && original == {} && eliminated == []
    {
      ok, ca, mark, units, assigns, occurs := true, [], [], [], [], map[];
      eliminated, elimclauses, queue, bwdsubAssigns, model := [], [], [], 0, [];
      touched, elimHeap, frozen := {}, {}, {};
      this.grow, this.clauseLim, this.subsumptionLim := grow, clauseLim, subsumptionLim;
      this.interruptible := interruptible;
      original := {};
      new;
      assert forall v: Var :: Occ(occurs, v) == [];
    }

    method NewVar() returns (v: Var)
      requires Valid()
      modifies this`assigns, this`eliminated, this`elimHeap
      ensures Valid() && v == old(|eliminated|) && eliminated == old(eliminated) + [false]
      ensures elimHeap == old(elimHeap) + {v}
    {
      v := |eliminated|;
      if ok {
        NewVarShapes(ca, mark, units, assigns, eliminated);
        NewVarStack(elimclauses, eliminated);
      }
      assigns, eliminated := assigns + [LUndef], eliminated + [false];
      elimHeap := elimHeap + {v};
    }

    // ---------- units ----------

    method EnqueueUnit(l: Lit)
      requires Shape() && l.v < |assigns| && assigns[l.v] == LUndef && !eliminated[l.v]
      modifies this`units, this`assigns
      ensures Shape() && units == old(units) + [l] && Undefs(assigns) == old(Undefs(assigns)) - 1
    {
      hide DbShape, UnitShape, OccursOk, Undefs;
      UnitPush(units, assigns, eliminated, l);
      UndefsDrop(assigns, l.v, if l.neg then LFalse else LTrue);
      assigns := assigns[l.v := if l.neg then LFalse else LTrue];
      units := units + [l];
    }

    /** Whether `c` is falsified (`some` false), has just one literal left (`unit`), or neither. */
    method InspectClause(c: Clause) returns (some: bool, unit: Option<Lit>)
      ensures !some ==> forall l :: l in c ==> Val(assigns, l) == LFalse
      ensures unit.Some? ==> some && unit.value in c && Val(assigns, unit.value) == LUndef
      ensures some && unit.None? ==> NotUnit(assigns, c)
      ensures unit.Some? ==> forall l :: l in c && l != unit.value ==> Val(assigns, l) == LFalse
    {
      some, unit := false, None;
      var i := 0;
      while i < |c|
        invariant 0 <= i <= |c|
        invariant !some ==> forall l :: l in c[..i] ==> Val(assigns, l) == LFalse
        invariant some <==> unit.Some?
        invariant unit.Some? ==> unit.value in c[..i] && unit.value in c && Val(assigns, unit.value) == LUndef
        invariant unit.Some? ==> forall l :: l in c[..i] && l != unit.value ==> Val(assigns, l) == LFalse
      {
        assert c[..i + 1] == c[..i] + [c[i]] && c[i] in c;
        if Val(assigns, c[i]) != LFalse {
          if some || Val(assigns, c[i]) == LTrue { return true, None; }
          some, unit := true, Some(c[i]);
        }
        i := i + 1;
      }
      assert c[..i] == c;
    }

    /** No live clause is unit or falsified. */
    ghost predicate Propagated() reads this`ca, this`mark, this`assigns { PropagatedBelow(|ca|) }

    ghost predicate PropagatedBelow(n: nat) reads this`ca, this`mark, this`assigns {
      forall cr: CRef {:trigger Alive(ca, mark, cr)} :: Alive(ca, mark, cr) && cr < n ==> NotUnit(assigns, ca[cr])
    }

    /** A live clause that is unit or falsified, if there is one. */
    method FindUnit() returns (conflict: bool, unit: Option<Lit>)
      requires Shape()
      ensures !conflict && unit.None? ==> Propagated()
      ensures conflict ==> Contradictory(ca, mark, units)
      ensures unit.Some? ==> unit.value.v < |assigns| && assigns[unit.value.v] == LUndef && !eliminated[unit.value.v]
      ensures unit.Some? ==> Equivalent(ca, mark, units, ca, mark, units + [unit.value])
    {
      hide NotUnit, UnitShape, OccursOk, Equivalent, Contradictory;
      conflict, unit := false, None;
      var cr: nat := 0;
      while cr < |ca|
        invariant cr <= |ca| && unit.None? && !conflict && PropagatedBelow(cr)
      {
        if !mark[cr] {
          var some;
          some, unit := InspectClause(ca[cr]);
          assert Alive(ca, mark, cr);
          if !some {
            FalsifiedClause(ca, mark, units, assigns, eliminated, cr);
            return true, None;
          }
          if unit.Some? {
            UnitClause(ca, mark, units, assigns, eliminated, cr, unit.value);
            return;
          }
        }
        cr := cr + 1;
      }
    }

    /** Root-level unit propagation. */
    method PropagateUnits() returns (good: bool)
      requires Shape()
      modifies this`units, this`assigns
      ensures Shape() && Same(ca, mark, old(units)) && old(units) <= units
      ensures if good then Propagated() else Contradictory(ca, mark, units)
    {
      hide Propagated, DbShape, UnitShape, OccursOk, Equivalent, Undefs, Contradictory;
      EquivalentRefl(ca, mark, units);
      while true
        invariant Shape() && Same(ca, mark, old(units)) && old(units) <= units
        decreases Undefs(assigns)
      {
        var conflict, unit := FindUnit();
        if conflict { return false; }
        if unit.None? { return true; }
        ghost var units0 := units;
        EnqueueUnit(unit.value);
        EquivalentTrans(ca, mark, old(units), ca, mark, units0, ca, mark, units);
      }
    }

    // ---------- adding clauses ----------

    /** Drops false and repeated literals; `satisfied` when the clause holds anyway. */
    method FilterClause(ps: Clause) returns (satisfied: bool, qs: Clause)
      ensures satisfied ==> exists l :: l in ps && (Val(assigns, l) == LTrue || l.Not() in ps)
      ensures !satisfied ==> Proper(qs) && Within(qs, ps) && |qs| <= |ps|
      ensures !satisfied ==> forall l :: l in ps ==>
        if l in qs then Val(assigns, l) == LUndef else Val(assigns, l) == LFalse
    {
      satisfied, qs := false, [];
      var i := 0;
      while i < |ps|
        invariant 0 <= i <= |ps| && Proper(qs) && Within(qs, ps[..i]) && |qs| <= i
        invariant forall l :: l in ps[..i] ==> if l in qs then Val(assigns, l) == LUndef else Val(assigns, l) == LFalse
      {
        var x := ps[i];
        assert ps[..i + 1] == ps[..i] + [x] && x in ps;
        assert x.Not().Not() == x;
        if Val(assigns, x) == LTrue || x.Not() in qs {
          return true, qs;
        }
        if Val(assigns, x) != LFalse && x !in qs { qs := qs + [x]; }
        i := i + 1;
      }
      assert ps[..i] == ps;
    }

    ghost predicate Collected(queue0: seq<CRef>, touched0: set<Var>, n: nat)
      reads this`queue, this`touched, this`ca
    {
      Collects(ca, queue, touched, queue0, touched0, n)
    }

    /** Adds the constraint `ps` to the current ones; false when they become contradictory. */
    method AddConstraint(ps: Clause) returns (good: bool)
      requires Shape() && Usable(eliminated, ps)
      modifies this`ca, this`mark, this`units, this`assigns, this`occurs, this`queue, this`touched
      ensures old(mark) <= mark && old(units) <= units
      ensures Shape() && |ca| <= old(|ca|) + 1 && (|ca| > old(|ca|) ==> |ca[old(|ca|)]| <= |ps|)
      ensures good ==> Adds(old(ca), old(mark), old(units), ca, mark, units, ps)
      ensures !good ==> forall a {:trigger Base(a, old(ca), old(mark), old(units))} ::
        !(Base(a, old(ca), old(mark), old(units)) && Sat(a, ps))
      ensures old(ca) <= ca && queue == old(queue) + if |ca| == old(|ca|) then [] else [old(|ca|)]
      ensures good && units != old(units) ==> Propagated()
      ensures touched == old(touched) + (if |ca| == old(|ca|) then {} else VarsOf(ca[old(|ca|)]))
    {
      hide Propagated, VarsOf, DbShape, UnitShape, OccursOk, Adds, Equivalent, Contradictory;
      var satisfied, qs := FilterClause(ps);
      if satisfied {
        SatisfiedAdds(ca, mark, units, assigns, eliminated, ps);
        return true;
      }
      FilteredMeans(units, assigns, eliminated, ps, qs);
      UsableWithin(eliminated, ps, qs);
      if |qs| == 0 {
        NoneLeft(ca, mark, units, ps, qs);
        return false;
      } else if |qs| == 1 {
        OneLeft(ca, mark, units, ps, qs);
        assert qs[0] in qs;
        UnitSizes(units, assigns, eliminated);
        EnqueueUnit(qs[0]);
        ghost var units1 := units;
        good := PropagateUnits();
        AddsThen(ca, mark, old(units), ca, mark, units1, ca, mark, units, ps);
        if !good { AddsRejected(ca, mark, old(units), ca, mark, units, ps); }
      } else {
        MarkLength(ca, mark, eliminated);
        AddsClause(ca, mark, units, ps, qs);
        StoreClause(qs);
        good := true;
      }
    }

    /** Stores a clause of at least two literals, and touches its variables. */
    method StoreClause(c: Clause)
      requires Shape() && |c| >= 2 && Proper(c) && Usable(eliminated, c)
      modifies this`ca, this`mark, this`occurs, this`queue, this`touched
      ensures Shape() && ca == old(ca) + [c] && mark == old(mark) + [false]
      ensures queue == old(queue) + [old(|ca|)] && touched == old(touched) + VarsOf(c)
    {
      hide VarsOf, DbShape, UnitShape, OccursOk;
      MarkLength(ca, mark, eliminated);
      DbPush(ca, mark, eliminated, c);
      OccursPush(ca, mark, occurs, c);
      var cr := |ca|;
      ca, mark := ca + [c], mark + [false];
      occurs := Listed(occurs, c, cr);
      queue := queue + [cr];
      touched := touched + VarsOf(c);
    }

    /** Adds a clause to the problem. */
    method AddClause(ps: Clause) returns (good: bool)
      requires Valid() && (ok ==> Usable(eliminated, ps))
      modifies this`ok, this`ca, this`mark, this`units, this`assigns, this`occurs, this`queue, this`touched,
        this`original
      ensures Valid() && original == old(original) + {ps} && good == ok
      ensures good && units != old(units) ==> Propagated()
      ensures good ==> |ca| >= old(|ca|)
      ensures good ==> queue == old(queue) + if |ca| == old(|ca|) then [] else [old(|ca|)]
      ensures good ==> touched == old(touched) + if |ca| == old(|ca|) then {} else VarsOf(ca[old(|ca|)])
    {
      hide Propagated, VarsOf, HeapShape, DbShape, UnitShape, OccursOk, Adds, Equivalent, Contradictory, Preserved,
        StackOk, StackDefined,
        StackCovers,
        Unsat, Usable;
      if !ok {
        UnsatGrow(original, ps);
        original := original + {ps};
        return false;
      }
      good := AddConstraint(ps);
      if good {
        PreservedAdd(original, elimclauses, eliminated, ps, old(ca), old(mark), old(units), ca, mark, units);
      } else {
        RejectedUnsat(original, elimclauses, ps, old(ca), old(mark), old(units));
      }
      original := original + {ps};
      ok := good;
    }

    // ---------- backward subsumption ----------

    /** The occurrence list of `v` without deleted clauses. */
    method Lookup(v: Var)
      requires Shape()
      modifies this`occurs
      ensures Shape() && occurs == old(occurs)[v := LiveRefs(mark, Occ(old(occurs), v))]
      ensures NoDup(Occ(occurs, v)) && Occ(occurs, v) == LiveRefs(mark, old(Occ(occurs, v)))
      ensures forall cr: CRef :: cr in Occ(occurs, v) <==> Alive(ca, mark, cr) && HasVar(ca[cr], v)
    {
      hide DbShape, UnitShape, OccursOk, LiveRefs, NoDup;
      MarkLength(ca, mark, eliminated);
      LookupExact(ca, mark, occurs, v);
      CleanOccurs(ca, mark, occurs, v);
      occurs := occurs[v := LiveRefs(mark, Occ(occurs, v))];
    }

    /** Where the clause used for subsumption comes from: a live clause, or a unit. */
    ghost predicate Source(c: Clause, from: Option<CRef>) reads this`ca, this`mark, this`units {
      match from
      case Some(k) => Alive(ca, mark, k) && ca[k] == c
      case None => exists l :: l in units && c == [l]
    }

    /** The number of occurrences of `v` has changed. */
    method UpdateElimHeap(v: Var)
      requires HeapShape() && v < |eliminated|
      modifies this`elimHeap
      ensures HeapShape() && elimHeap == old(elimHeap) +
        (if v in frozen || eliminated[v] || assigns[v] != LUndef then {} else {v})
    {
      if v in elimHeap || (v !in frozen && !eliminated[v] && assigns[v] == LUndef) { elimHeap := elimHeap + {v}; }
    }

    /** The same for every variable of `c`. */
    method UpdateAll(c: Clause)
      requires HeapShape() && forall l :: l in c ==> l.v < |eliminated|
      modifies this`elimHeap
      ensures HeapShape() && elimHeap == old(elimHeap) + Candidates(c)
    {
      for i := 0 to |c|
        invariant HeapShape() && elimHeap == old(elimHeap) + Candidates(c[..i])
      {
        assert c[..i + 1] == c[..i] + [c[i]] && c[i] in c;
        UpdateElimHeap(c[i].v);
      }
      assert c[..|c|] == c;
    }

    /** The variables of `c` that may be eliminated. */
    ghost function Candidates(c: Clause): set<Var> reads this`frozen, this`eliminated, this`assigns {
      set l | l in c && l.v !in frozen && l.v < |eliminated| && !eliminated[l.v]
        && l.v < |assigns| && assigns[l.v] == LUndef :: l.v
    }

    /** Freezes `v`, or lets it be eliminated again. */
    method SetFrozen(v: Var, b: bool)
      requires Valid() && v < |eliminated|
      modifies this`frozen, this`elimHeap
      ensures Valid() && frozen == if b then old(frozen) + {v} else old(frozen) - {v}
      ensures elimHeap == old(elimHeap) + if !b && Open(v, {}, eliminated, assigns) then {v} else {}
    {
      frozen := if b then frozen + {v} else frozen - {v};
      if !b { UpdateElimHeap(v); }
    }

    ghost function State(): Store reads this`ca, this`mark, this`units, this`assigns, this`elimHeap {
      Store(ca, mark, units, assigns, elimHeap)
    }

    ghost function Now(): View
      reads this`ca, this`mark, this`units, this`assigns, this`elimHeap, this`occurs, this`eliminated
    {
      View(State(), occurs, eliminated)
    }

    /** What has changed since then are deleted clauses and literals and new units. */
    ghost predicate Since(s: Store)
      reads this`ca, this`mark, this`units, this`assigns, this`elimHeap, this`eliminated, this`frozen
    {
      Reduced(s, State(), frozen, eliminated)
    }

    /** Deletes clause `cr`, which `c` subsumes. */
    method RemoveSubsumed(cr: CRef, c: Clause, from: Option<CRef>)
      requires Shape() && Alive(ca, mark, cr) && from != Some(cr) && Source(c, from) && Within(c, ca[cr])
      modifies this`mark, this`elimHeap
      ensures Shape() && Same(ca, old(mark), units) && Source(c, from) && mark == old(mark)[cr := true]
      ensures |mark| == |ca| == |old(mark)| && LiveLits(ca, mark) < LiveLits(ca, old(mark)) && Since(old(State()))
    {
      hide UnitShape, OccursOk, Equivalent, LiveLits, Reduced;
      DropSubsumed(ca, mark, units, cr, c);
      MarkShapes(ca, mark, mark[cr := true], eliminated, occurs);
      LiveLitsDrop(ca, mark, cr, ca[cr], true);
      assert ca[cr := ca[cr]] == ca;
      ClauseVars(ca, mark, units, assigns, eliminated, cr);
      ghost var s := State();
      UpdateAll(ca[cr]);
      mark := mark[cr := true];
      DeletedReduced(s, cr, State(), frozen, eliminated);
    }

    /** Deletes literal `x` from clause `cr`; a binary clause becomes a unit. */
    method StrengthenClause(cr: CRef, x: Lit, c: Clause, from: Option<CRef>) returns (good: bool)
      requires Shape() && Alive(ca, mark, cr) && from != Some(cr) && Source(c, from) && Proper(c)
      requires FlippedWithin(c, ca[cr], x.Not())
      modifies this`ca, this`mark, this`units, this`assigns, this`occurs, this`queue, this`elimHeap
      ensures Shape() && Source(c, from)
      ensures if good then Same(old(ca), old(mark), old(units)) else Contradictory(old(ca), old(mark), old(units))
      ensures |mark| == |ca| == |old(mark)| == |old(ca)| && LiveLits(ca, mark) < LiveLits(old(ca), old(mark))
      ensures good && units != old(units) ==> Propagated()
      ensures Since(old(State())) && queue == old(queue) + [cr]
      ensures forall k: CRef :: k < |ca| && k != cr ==> ca[k] == old(ca)[k] && mark[k] == old(mark)[k]
      ensures mark[cr] || forall l :: l in ca[cr] <==> l in old(ca)[cr] && l != x
      ensures if |old(ca)[cr]| == 2 then mark[cr] && occurs == old(occurs)
              else occurs == old(occurs)[x.v := WithoutRef(Occ(old(occurs), x.v), cr)]
    {
      hide Propagated, HeapShape, Reduced, UnitShape, OccursOk, Equivalent, LiveLits, Contradictory;
      UnitSizes(units, assigns, eliminated);
      queue := queue + [cr];
      assert x.Not().Not() == x;
      ClauseVars(ca, mark, units, assigns, eliminated, cr);
      assert x in ca[cr];
      var d := Without(ca[cr], x);
      StrengthenedEquiv(ca, mark, units, cr, c, from, x, d);
      if |ca[cr]| == 2 {
        good := StrengthenToUnit(cr, x, d, c, from);
      } else {
        StrengthenShapes(ca, mark, eliminated, occurs, cr, x, d);
        LiveLitsDrop(ca, mark, cr, d, false);
        assert mark[cr := false] == mark;
        ghost var s := State();
        WithoutLits(ca[cr], x);
        ca := ca[cr := d];
        occurs := occurs[x.v := WithoutRef(Occ(occurs, x.v), cr)];
        UpdateElimHeap(x.v);
        ShortenedReduced(s, cr, d, x, State(), frozen, eliminated);
        good := true;
      }
    }

    /** A binary clause loses a literal: it is deleted and its other literal becomes a unit. */
    method StrengthenToUnit(cr: CRef, ghost x: Lit, d: Clause, c: Clause, from: Option<CRef>) returns (good: bool)
      requires Shape() && Alive(ca, mark, cr) && from != Some(cr) && Source(c, from)
      requires |d| == 1 && d[0] in ca[cr] && Equivalent(ca, mark, units, ca[cr := d], mark, units)
      modifies this`ca, this`mark, this`units, this`assigns, this`elimHeap
      ensures Shape() && Source(c, from)
      ensures if good then Same(old(ca), old(mark), old(units)) else Contradictory(old(ca), old(mark), old(units))
      ensures |mark| == |ca| == |old(mark)| == |old(ca)| && LiveLits(ca, mark) < LiveLits(old(ca), old(mark))
      ensures good && units != old(units) ==> Propagated()
      ensures Since(old(State())) && mark == old(mark)[cr := true] && ca == old(ca)[cr := d]
    {
      hide Propagated, HeapShape, Reduced, UnitShape, OccursOk, Equivalent, LiveLits, Contradictory;
      ghost var ca0, mark0, units0, s := ca, mark, units, State();
      LiveLitsDrop(ca, mark, cr, d, true);
      assert Usable(eliminated, ca[cr]);
      MarkShapes(ca, mark, mark[cr := true], eliminated, occurs);
      DeletedShapes(ca, mark[cr := true], eliminated, occurs, cr, d);
      ClauseVars(ca0, mark0, units0, assigns, eliminated, cr);
      UpdateAll(ca[cr]);
      mark := mark[cr := true];
      ca := ca[cr := d];
      ghost var assigns0 := assigns;
      DeletedReduced(s, cr, State(), frozen, eliminated);
      ghost var t := State();
      var y := d[0];
      UnitSizes(units, assigns, eliminated);
      if Val(assigns, y) != LUndef {
        good := Val(assigns, y) != LFalse;
        ReducedNone(t, frozen, eliminated);
        KnownUnit(ca0, mark0, units0, assigns, eliminated, cr, d);
      } else {
        EnqueueUnit(y);
        ToUnit(ca0, mark0, units0, cr, d);
        ghost var units1 := units;
        good := PropagateUnits();
        EquivalentTrans(ca0, mark0, units0, ca, mark, units1, ca, mark, units);
        if !good { ContradictoryBack(ca0, mark0, units0, ca, mark, units); }
        assert units0 <= units && forall l :: l in units0 ==> l in units;
        UnitsClose(units0, assigns0, units, assigns, eliminated, frozen);
        UnitsReduced(t, State(), frozen, eliminated);
        ReducedTrans(s, t, State(), frozen, eliminated);
      }
    }

    /** Tries `c` against every live clause with variable `best`, which `c` has: nothing is left to do. */
    method TryCandidates(c: Clause, from: Option<CRef>, best: Var) returns (good: bool)
      requires Shape() && Source(c, from) && Proper(c) && HasVar(c, best)
      modifies this`ca, this`mark, this`units, this`assigns, this`occurs, this`queue, this`elimHeap
      ensures Shape() && |mark| == |ca| == |old(mark)| == |old(ca)| && Since(old(State())) && Source(c, from)
      ensures if good then Same(old(ca), old(mark), old(units)) else Contradictory(old(ca), old(mark), old(units))
      ensures good ==> (
        || LiveLits(ca, mark) < LiveLits(old(ca), old(mark))
        || (LiveLits(ca, mark) == LiveLits(old(ca), old(mark)) && units == old(units) && queue == old(queue)))
      ensures LongKept(old(State()), State(), subsumptionLim)
      ensures good ==> Exhausted(c, from, ca, mark, old(ca), subsumptionLim) && Requeues(old(ca), old(queue))
    {
      hide HeapShape, UnitShape, OccursOk, DbShape, Equivalent, LiveLits, Contradictory, NoDup, Reduced, LeftOver,
        Requeued, Exhausted, LongKept;
      MarkLength(ca, mark, eliminated);
      ReducedNone(State(), frozen, eliminated);
      EquivalentRefl(ca, mark, units);
      RequeuedNone(ca, mark, queue);
      LongNone(State(), subsumptionLim);
      Lookup(best);
      var j: nat := 0;
      LeftAll(c, from, ca, mark, old(ca), subsumptionLim, Occ(occurs, best), best);
      while j < |Occ(occurs, best)|
        invariant Shape() && Source(c, from) && |mark| == |ca| == |old(mark)| == |old(ca)| && Since(old(State()))
        invariant Same(old(ca), old(mark), old(units)) && j <= |Occ(occurs, best)| && Requeues(old(ca), old(queue))
        invariant LongKept(old(State()), State(), subsumptionLim)
        invariant LeftOver(c, from, ca, mark, old(ca), subsumptionLim, Occ(occurs, best), j, best)
        invariant LiveLits(ca, mark) < LiveLits(old(ca), old(mark)) ||
          (LiveLits(ca, mark) == LiveLits(old(ca), old(mark)) && units == old(units) && queue == old(queue))
        decreases LiveLits(ca, mark), |Occ(occurs, best)| - j
      {
        ghost var ca0, mark0, units0, s0 := ca, mark, units, State();
        ghost var queue0 := queue;
        ReducedShrunk(old(State()), s0, frozen, eliminated);
        var stay;
        good, stay := TryOne(c, from, best, j, old(ca));
        ReducedTrans(old(State()), s0, State(), frozen, eliminated);
        LongTrans(old(State()), s0, State(), subsumptionLim);
        if !good {
          ContradictoryBack(old(ca), old(mark), old(units), ca0, mark0, units0);
          return;
        }
        ReducedShrunk(s0, State(), frozen, eliminated);
        RequeuedTrans(old(ca), old(queue), s0, queue0, State(), queue);
        EquivalentTrans(old(ca), old(mark), old(units), ca0, mark0, units0, ca, mark, units);
        if !stay { j := j + 1; }
      }
      LeftNothing(c, from, ca, mark, old(ca), subsumptionLim, Occ(occurs, best), best);
      good := true;
    }

    /** Clauses that changed since then are in the queue, and so is what was. */
    ghost predicate Requeues(ca0: seq<Clause>, queue0: seq<CRef>) reads this`ca, this`mark, this`queue {
      Requeued(ca0, queue0, ca, mark, queue)
    }

    /** Tries `c` against candidate number `j`; `stay` when the list is to be read at `j` again. */
    method TryOne(c: Clause, from: Option<CRef>, best: Var, j: nat, ghost was: seq<Clause>)
      returns (good: bool, stay: bool)
      requires Shape() && Source(c, from) && Proper(c) && HasVar(c, best) && j < |Occ(occurs, best)|
      requires |was| == |ca| && NoLonger(was, ca)
      requires LeftOver(c, from, ca, mark, was, subsumptionLim, Occ(occurs, best), j, best)
      modifies this`ca, this`mark, this`units, this`assigns, this`occurs, this`queue, this`elimHeap
      ensures Shape() && Source(c, from) && |mark| == |ca| == |old(mark)| == |old(ca)| && Since(old(State()))
      ensures if good then Same(old(ca), old(mark), old(units)) else Contradictory(old(ca), old(mark), old(units))
      ensures LiveLits(ca, mark) < LiveLits(old(ca), old(mark))
        || (!stay && State() == old(State()) && queue == old(queue) && occurs == old(occurs))
      ensures good ==> if stay then j <= |Occ(occurs, best)| else j < |Occ(occurs, best)|
      ensures good ==>
        LeftOver(c, from, ca, mark, was, subsumptionLim, Occ(occurs, best), if stay then j else j + 1, best)
      ensures Requeues(old(ca), old(queue)) && LongKept(old(State()), State(), subsumptionLim)
    {
      hide HeapShape, UnitShape, OccursOk, Equivalent, LiveLits, Contradictory, NoDup, Reduced, LeftOver, Requeued;
      MarkLength(ca, mark, eliminated);
      EquivalentRefl(ca, mark, units);
      ReducedNone(State(), frozen, eliminated);
      RequeuedNone(ca, mark, queue);
      good, stay := true, false;
      var cr := Occ(occurs, best)[j];
      OccRange(ca, mark, occurs, best, j);
      if !mark[cr] && Some(cr) != from && (subsumptionLim == -1 || |ca[cr]| < subsumptionLim) {
        assert Alive(ca, mark, cr);
        var r := Subsumes(c, ca[cr]);
        if r == Subsumed {
          ghost var cs, ca0, mark0 := Occ(occurs, best), ca, mark;
          RemoveSubsumed(cr, c, from);
          RequeuedDeleted(ca, mark0, cr, queue);
          LeftLess(c, from, ca0, mark0, ca, mark, was, subsumptionLim, cs, j, best);
          return;
        } else if r.Deletes? {
          assert r.l.Not().Not() == r.l;
          good, stay := TryStrengthen(c, from, best, j, r.l.Not(), was);
          return;
        }
      }
      SettledIdle(c, from, ca, mark, was, subsumptionLim, cr);
      LeftLess(c, from, ca, mark, ca, mark, was, subsumptionLim, Occ(occurs, best), j, best);
    }

    /** Deletes a literal of candidate number `j`. */
    method TryStrengthen(c: Clause, from: Option<CRef>, best: Var, j: nat, x: Lit, ghost was: seq<Clause>)
      returns (good: bool, stay: bool)
      requires Shape() && Source(c, from) && Proper(c) && HasVar(c, best) && j < |Occ(occurs, best)|
      requires |was| == |ca| && NoLonger(was, ca)
      requires LeftOver(c, from, ca, mark, was, subsumptionLim, Occ(occurs, best), j, best)
      requires var cr := Occ(occurs, best)[j];
      Alive(ca, mark, cr) && from != Some(cr) && FlippedWithin(c, ca[cr], x.Not())
        && (subsumptionLim == -1 || |ca[cr]| < subsumptionLim)
      modifies this`ca, this`mark, this`units, this`assigns, this`occurs, this`queue, this`elimHeap
      ensures Shape() && Source(c, from) && |mark| == |ca| == |old(mark)| == |old(ca)| && Since(old(State()))
      ensures if good then Same(old(ca), old(mark), old(units)) else Contradictory(old(ca), old(mark), old(units))
      ensures LiveLits(ca, mark) < LiveLits(old(ca), old(mark))
      ensures good ==> if stay then j <= |Occ(occurs, best)| else j < |Occ(occurs, best)|
      ensures good ==>
        LeftOver(c, from, ca, mark, was, subsumptionLim, Occ(occurs, best), if stay then j else j + 1, best)
      ensures Requeues(old(ca), old(queue)) && LongKept(old(State()), State(), subsumptionLim)
    {
      hide HeapShape, UnitShape, OccursOk, DbShape, Equivalent, LiveLits, Contradictory, NoDup, Reduced, LeftOver,
        Requeued, FlippedWithin, Source, NoLonger, HasVar;
      ghost var cs, ca0, mark0, queue0 := Occ(occurs, best), ca, mark, queue;
      var cr := Occ(occurs, best)[j];
      MarkLength(ca, mark, eliminated);
      ListUnique(ca, mark, occurs, best);
      ProperAt(ca, mark, eliminated, cr);
      good := StrengthenClause(cr, x, c, from);
      RequeuedShortened(ca0, queue0, ca, mark, cr);
      StrengthenedIdle(c, from, ca0[cr], x, ca, mark, was, subsumptionLim, cr);
      stay := x.v == best;
      if stay && |ca0[cr]| != 2 {
        WithoutRefAt(cs, j);
        LeftGone(c, from, ca0, mark0, ca, mark, was, subsumptionLim, cs, j, best);
      } else if stay {
        LeftSame(c, from, ca0, mark0, ca, mark, was, subsumptionLim, cs, j, best);
      } else {
        LeftLess(c, from, ca0, mark0, ca, mark, was, subsumptionLim, cs, j, best);
      }
    }

    /** The variable of `c` with the fewest occurrences. */
    method BestVar(c: Clause) returns (best: Var)
      requires |c| > 0
      ensures HasVar(c, best)
      ensures forall l :: l in c ==> |Occ(occurs, best)| <= |Occ(occurs, l.v)|
    {
      best := c[0].v;
      assert c[0] in c;
      var i := 1;
      while i < |c|
        invariant 1 <= i <= |c| && HasVar(c, best)
        invariant forall l :: l in c[..i] ==> |Occ(occurs, best)| <= |Occ(occurs, l.v)|
      {
        assert c[..i + 1] == c[..i] + [c[i]] && c[i] in c;
        if |Occ(occurs, c[i].v)| < |Occ(occurs, best)| { best := c[i].v; }
        i := i + 1;
      }
      assert c[..i] == c;
    }

    /** The next clause to try, or a unit once the queue is empty; an empty clause for a deleted one. */
    method TakeSource() returns (c: Clause, from: Option<CRef>)
      requires Shape() && (|queue| > 0 || bwdsubAssigns < |units|)
      modifies this`queue, this`bwdsubAssigns
      ensures Shape() && (c != [] ==> Source(c, from) && Proper(c))
        && (c == [] ==> |old(queue)| > 0 && !Alive(ca, mark, old(queue)[0]))
      ensures c != [] ==> if old(queue) == [] then from == None
        && c == [units[old(bwdsubAssigns)]] else from == Some(old(queue)[0])
      ensures if old(queue) == [] then queue == [] && bwdsubAssigns == old(bwdsubAssigns) + 1 && c != []
              else queue == old(queue)[1..] && bwdsubAssigns == old(bwdsubAssigns)
    {
      hide HeapShape, UnitShape, OccursOk, Proper;
      MarkLength(ca, mark, eliminated);
      c, from := [], None;
      if |queue| == 0 {
        c := [units[bwdsubAssigns]];
        UnitProper(c);
        assert units[bwdsubAssigns] in units;
        bwdsubAssigns := bwdsubAssigns + 1;
      } else {
        var cr := queue[0];
        assert cr in queue && forall k :: k in queue[1..] ==> k in queue;
        queue := queue[1..];
        if mark[cr] { return; }
        assert Alive(ca, mark, cr);
        c, from := ca[cr], Some(cr);
        ProperAt(ca, mark, eliminated, cr);
      }
    }

    /** Backward subsumption and subsumption resolution until nothing is left to try: unless interrupted,
        no clause that was queued or has changed, and no unit that was not tried before, subsumes a live
        clause or deletes a literal of it. */
    method BackwardSubsumptionCheck() returns (good: bool, ghost interrupted: bool)
      requires Shape()
      modifies this`ca, this`mark, this`units, this`assigns, this`occurs, this`queue, this`bwdsubAssigns,
        this`elimHeap
      ensures Shape() && |ca| == old(|ca|) && Since(old(State()))
      ensures good ==> queue == [] && bwdsubAssigns == |units|
      ensures |mark| == |ca| == |old(mark)| && (good ==> LiveLits(ca, mark) <= LiveLits(old(ca), old(mark)))
      ensures if good then Same(old(ca), old(mark), old(units)) else Contradictory(old(ca), old(mark), old(units))
      ensures (interrupted ==> interruptible) && LongKept(old(State()), State(), subsumptionLim)
      ensures good && !interrupted ==> Saturated(old(ca), old(queue), old(bwdsubAssigns))
    {
      hide HeapShape, DbShape, UnitShape, OccursOk, Equivalent, LiveLits, Contradictory, Reduced, Saturates, Requeued,
        Exhausted, Source, LongKept;
      EquivalentRefl(ca, mark, units);
      MarkLength(ca, mark, eliminated);
      ReducedNone(State(), frozen, eliminated);
      NothingTried(State(), ca, queue, bwdsubAssigns, subsumptionLim);
      LongNone(State(), subsumptionLim);
      interrupted := false;
      while |queue| > 0 || bwdsubAssigns < |units|
        invariant Shape() && |mark| == |ca| == |old(mark)| == |old(ca)| && Since(old(State()))
        invariant Same(old(ca), old(mark), old(units)) && LiveLits(ca, mark) <= LiveLits(old(ca), old(mark))
        invariant !interrupted && LongKept(old(State()), State(), subsumptionLim)
        invariant Saturates(State(), old(ca), old(queue), queue, old(bwdsubAssigns), bwdsubAssigns, subsumptionLim)
        decreases LiveLits(ca, mark), |units| - bwdsubAssigns, |queue|
      {
        var stop: bool := *;
        if interruptible && stop {
          interrupted := true;
          queue := [];
          bwdsubAssigns := |units|;
          break;
        }
        ghost var queue0, b0 := queue, bwdsubAssigns;
        var c, from := TakeSource();
        if c == [] {
          PoppedDead(State(), old(ca), old(queue), queue0, old(bwdsubAssigns), b0, subsumptionLim);
          continue;
        }
        ghost var s0, queue1 := State(), queue;
        var best := BestVar(c);
        good := TryCandidates(c, from, best);
        ReducedTrans(old(State()), s0, State(), frozen, eliminated);
        LongTrans(old(State()), s0, State(), subsumptionLim);
        if !good {
          ContradictoryBack(old(ca), old(mark), old(units), s0.ca, s0.mark, s0.units);
          return;
        }
        EquivalentTrans(old(ca), old(mark), old(units), s0.ca, s0.mark, s0.units, ca, mark, units);
        ReducedShrunk(s0, State(), frozen, eliminated);
        ReducedShrunk(old(State()), s0, frozen, eliminated);
        SourceIs(c, from);
        Tried(s0, State(), old(ca), old(queue), queue0, queue1, queue, old(bwdsubAssigns), b0, bwdsubAssigns, c, from,
          subsumptionLim);
      }
      good := true;
    }

    /** The clauses that were queued, those that have changed and the new units are exhausted. */
    ghost predicate Saturated(ca0: seq<Clause>, queue0: seq<CRef>, b0: nat)
      reads this`ca, this`mark, this`units, this`assigns, this`elimHeap, this`queue, this`bwdsubAssigns
    {
      Saturates(State(), ca0, queue0, queue, b0, bwdsubAssigns, subsumptionLim)
    }

    lemma SourceIs(c: Clause, from: Option<CRef>)
      requires Source(c, from)
      ensures from.Some? ==> Alive(ca, mark, from.value) && ca[from.value] == c
    {
    }

    // ---------- variable elimination ----------

    /** The occurrences of `v`, by sign. */
    method SplitOccurrences(cls: seq<CRef>, v: Var) returns (pos: seq<CRef>, neg: seq<CRef>)
      requires forall cr :: cr in cls ==> cr < |ca| && HasVar(ca[cr], v)
      ensures forall cr :: cr in cls <==> cr in pos || cr in neg
      ensures forall cr :: cr in pos ==> cr < |ca| && Lit(v, false) in ca[cr]
      ensures forall cr :: cr in neg ==> cr < |ca| && Lit(v, true) in ca[cr]
      ensures pos == Positive(ca, cls, v) && neg == Negative(ca, cls, v)
    {
      pos, neg := [], [];
      var i := 0;
      while i < |cls|
        invariant 0 <= i <= |cls| && pos == Positive(ca, cls[..i], v) && neg == Negative(ca, cls[..i], v)
        invariant forall cr :: cr in cls[..i] <==> cr in pos || cr in neg
        invariant forall cr :: cr in pos ==> cr < |ca| && Lit(v, false) in ca[cr]
        invariant forall cr :: cr in neg ==> cr < |ca| && Lit(v, true) in ca[cr]
      {
        assert cls[..i + 1] == cls[..i] + [cls[i]] && cls[i] in cls && cls[..i + 1][..i] == cls[..i];
        if Lit(v, false) in ca[cls[i]] { pos := pos + [cls[i]]; }
        else {
          OtherSign(ca[cls[i]], v);
          neg := neg + [cls[i]];
        }
        i := i + 1;
      }
      assert cls[..i] == cls;
    }

    /** One row of the count: stops when the limit or the size limit is exceeded. */
    method RowWithin(p: CRef, neg: seq<CRef>, v: Var, limit: int, cnt0: nat) returns (within: bool, cnt: nat)
      requires p < |ca| && Proper(ca[p]) && HasVar(ca[p], v) && (cnt0 == 0 || cnt0 <= limit)
      requires forall cr :: cr in neg ==> cr < |ca| && Proper(ca[cr]) && HasVar(ca[cr], v)
      ensures within ==>
        cnt == cnt0 + RowCount(ca, p, neg, v) && RowFits(ca, p, neg, v, clauseLim) && (cnt == 0 || cnt <= limit)
      ensures !within ==>
        !RowFits(ca, p, neg, v, clauseLim)
        || (cnt0 + RowCount(ca, p, neg, v) > 0 && cnt0 + RowCount(ca, p, neg, v) > limit)
    {
      hide Clashes, Proper, HasVar, ResolventSet;
      cnt := cnt0;
      for j := 0 to |neg|
        invariant cnt == cnt0 + RowCount(ca, p, neg[..j], v) && (cnt == 0 || cnt <= limit)
        invariant forall k :: 0 <= k < j ==> Fits(ca, p, neg[k], v, clauseLim)
      {
        assert neg[..j + 1][..j] == neg[..j];
        assert neg[j] in neg;
        RowPrefix(ca, p, neg, j + 1, v);
        var good, size := MergeSize(ca[p], ca[neg[j]], v);
        if good {
          cnt := cnt + 1;
          if cnt > limit || (clauseLim != -1 && size > clauseLim) {
            assert clauseLim != -1 && size > clauseLim ==> !Fits(ca, p, neg[j], v, clauseLim);
            return false, cnt;
          }
        }
      }
      assert neg[..|neg|] == neg;
      RowDone(ca, p, neg, v, clauseLim);
      within := true;
    }

    /** Whether the resolvents are few enough and none is too long. */
    method WithinLimits(pos: seq<CRef>, neg: seq<CRef>, v: Var, limit: int) returns (within: bool)
      requires forall cr :: cr in pos ==> cr < |ca| && Proper(ca[cr]) && HasVar(ca[cr], v)
      requires forall cr :: cr in neg ==> cr < |ca| && Proper(ca[cr]) && HasVar(ca[cr], v)
      ensures within <==>
        (Resolvents(ca, pos, neg, v) == 0 || Resolvents(ca, pos, neg, v) <= limit) && AllFit(ca, pos, neg, v, clauseLim)
    {
      hide Proper, HasVar, RowFits, RowCount;
      var cnt: nat := 0;
      for i := 0 to |pos|
        invariant cnt == Resolvents(ca, pos[..i], neg, v) && (cnt == 0 || cnt <= limit)
        invariant forall k :: 0 <= k < i ==> RowFits(ca, pos[k], neg, v, clauseLim)
      {
        assert pos[i] in pos && pos[..i + 1][..i] == pos[..i];
        ResolventsPrefix(ca, pos, i + 1, neg, v);
        within, cnt := RowWithin(pos[i], neg, v, limit, cnt);
        if !within { return; }
      }
      assert pos[..|pos|] == pos;
      within := true;
    }

    /** Pushes clause `c`, with its literal `x` in front, onto the reconstruction stack. */
    method MkElimClause(c: Clause, x: Lit) returns (ghost stored: Clause)
      requires Proper(c) && x in c
      modifies this`elimclauses
      ensures elimclauses == old(elimclauses) + Packed(stored) && SameLits(stored, c) && StartsWith(stored, x)
    {
      var first := |elimclauses|;
      var vPos := first;
      var i := 0;
      while i < |c|
        invariant 0 <= i <= |c| && elimclauses == old(elimclauses) + seq(i, k requires 0 <= k < i => ToInt(c[k]))
        invariant first <= vPos && (x in c[..i] ==> vPos < first + i && c[vPos - first] == x)
      {
        assert c[..i + 1] == c[..i] + [c[i]];
        elimclauses := elimclauses + [ToInt(c[i])];
        if c[i].v == x.v {
          vPos := first + i;
          OneLiteral(c, i, x);
        }
        i := i + 1;
      }
      assert c[..i] == c;
      ghost var k := vPos - first;
      stored := c[0 := c[k]][k := c[0]];
      FrontFirst(c, k, x);
      elimclauses := elimclauses[vPos := elimclauses[first]][first := elimclauses[vPos]];
      elimclauses := elimclauses + [|c|];
      assert elimclauses == old(elimclauses) + Packed(stored);
    }

    /** Stores the clauses of one side, then the default value for the other. */
    method StoreSide(side: seq<CRef>, x: Lit) returns (ghost stored: seq<Clause>)
      requires forall cr :: cr in side ==> cr < |ca| && Proper(ca[cr]) && x in ca[cr]
      modifies this`elimclauses
      ensures StoresSide(stored, ca, side, x) && |stored| == |side|
      ensures elimclauses == old(elimclauses) + PackedAll(stored) + Packed([x.Not()])
    {
      hide Packed, StoresSide;
      stored := [];
      var i := 0;
      StoreNone(ca, x);
      assert side[..0] == [];
      while i < |side|
        invariant 0 <= i <= |side| && |stored| == i && StoresSide(stored, ca, side[..i], x)
        invariant elimclauses == old(elimclauses) + PackedAll(stored)
      {
        assert side[i] in side;
        ghost var c := MkElimClause(ca[side[i]], x);
        StoreMore(stored, ca, side, i, x, c);
        assert (stored + [c])[..|stored|] == stored;
        stored := stored + [c];
        i := i + 1;
      }
      assert side[..i] == side;
      PackedUnit(x.Not());
      elimclauses := elimclauses + [ToInt(x.Not())];
      elimclauses := elimclauses + [1];
    }

    /** Deletes the clauses of `cs`. */
    method RemoveAll(cs: seq<CRef>)
      requires HeapShape() && |ca| == |mark|
      requires forall cr :: cr in cs ==> cr < |ca| && forall l :: l in ca[cr] ==> l.v < |eliminated|
      modifies this`mark, this`elimHeap
      ensures old(elimHeap) <= elimHeap
      ensures forall cr, l {:trigger l in ca[cr]} :: cr in cs && cr < |ca| && l in ca[cr] ==>
        Open(l.v, frozen, eliminated, assigns) ==> l.v in elimHeap
      ensures HeapShape() && |mark| == old(|mark|)
        && forall k :: 0 <= k < |mark| ==> (mark[k] <==> old(mark)[k] || k in cs)
    {
      var i := 0;
      while i < |cs|
        invariant 0 <= i <= |cs| && |mark| == old(|mark|) && HeapShape()
        invariant old(elimHeap) <= elimHeap
        invariant forall cr, l {:trigger l in ca[cr]} :: cr in cs[..i] && cr < |ca| && l in ca[cr] ==>
          Open(l.v, frozen, eliminated, assigns) ==> l.v in elimHeap
        invariant forall k :: 0 <= k < |mark| ==> (mark[k] <==> old(mark)[k] || k in cs[..i])
      {
        assert cs[..i + 1] == cs[..i] + [cs[i]] && cs[i] in cs;
        UpdateAll(ca[cs[i]]);
        mark := mark[cs[i] := true];
        i := i + 1;
      }
      assert cs[..i] == cs;
    }

    /** A former clause on `v`: proper, over usable variables apart from `v`. */
    ghost predicate FormerClause(cr: CRef, v: Var) reads this`ca, this`eliminated {
      cr < |ca| && Proper(ca[cr]) && forall l :: l in ca[cr] && l.v != v ==> l.v < |eliminated| && !eliminated[l.v]
    }

    /** Adds the resolvents of clause `p` with the clauses of `neg`. */
    method ProduceRow(p: CRef, neg: seq<CRef>, v: Var) returns (good: bool)
      requires Shape() && FormerClause(p, v) && forall n :: n in neg ==> FormerClause(n, v)
      modifies this`ca, this`mark, this`units, this`assigns, this`occurs, this`queue, this`touched
      ensures old(mark) <= mark && old(units) <= units && Collected(old(queue), old(touched), old(|ca|))
      ensures Shape() && old(ca) <= ca && |ca| <= old(|ca|) + RowCount(old(ca), p, neg, v)
      ensures RowFits(old(ca), p, neg, v, clauseLim) ==> ShortFrom(ca, old(|ca|), clauseLim)
      ensures if good then AddsResolvents(old(ca), old(mark), old(units), ca, mark, units, old(ca), [p], neg, v)
              else RefutesResolvents(old(ca), old(mark), old(units), old(ca), [p], neg, v)
    {
      hide VarsOf, DbShape, UnitShape, OccursOk, Adds, AddsResolvents, RefutesResolvents, Usable, Proper, IsResolvent,
        Clashes, ShortFrom, RowFits, ResolventSet, Collected;
      var j := 0;
      ghost var ca0 := ca;
      AddsNone(ca, mark, units, ca0, [p], v);
      ShortNone(ca, clauseLim);
      CollectedNone();
      assert neg[..0] == [];
      while j < |neg|
        invariant 0 <= j <= |neg| && Shape() && ca0 <= ca && |ca| <= |ca0| + RowCount(ca0, p, neg[..j], v)
        invariant old(mark) <= mark && old(units) <= units && Collected(old(queue), old(touched), old(|ca|))
        invariant AddsResolvents(ca0, old(mark), old(units), ca, mark, units, ca0, [p], neg[..j], v)
        invariant RowFits(ca0, p, neg, v, clauseLim) ==> ShortFrom(ca, |ca0|, clauseLim)
      {
        assert neg[j] in neg && neg[..j + 1][..j] == neg[..j];
        assert ca[p] == ca0[p] && ca[neg[j]] == ca0[neg[j]];
        ghost var ca1, mark1, units1, queue1, touched1 := ca, mark, units, queue, touched;
        CollectedParts(old(queue), old(touched), old(|ca|));
        var fine, r := Merge(ca[p], ca[neg[j]], v);
        good := true;
        if fine {
          ResolventUsable(eliminated, ca[p], ca[neg[j]], v, r);
          good := AddConstraint(r);
          CollectedOne(old(queue), old(touched), old(|ca|), ca1, queue1, touched1);
        }
        ResolventAdded(ca0, old(mark), old(units), ca1, mark1, units1, ca, mark, units, p, neg, j, v, fine, r, good);
        RowPrefix(ca0, p, neg, j + 1, v);
        if fine { ShortMore(ca0, ca1, ca, p, neg, j, v, clauseLim, r); }
        if !good { return; }
        j := j + 1;
      }
      assert neg[..j] == neg;
      good := true;
    }

    /** Adds all resolvents on `v`. */
    method ProduceResolvents(pos: seq<CRef>, neg: seq<CRef>, v: Var) returns (good: bool)
      requires Shape() && (forall p :: p in pos ==> FormerClause(p, v)) && forall n :: n in neg ==> FormerClause(n, v)
      modifies this`ca, this`mark, this`units, this`assigns, this`occurs, this`queue, this`touched
      ensures old(mark) <= mark && old(units) <= units && Collected(old(queue), old(touched), old(|ca|))
      ensures Shape() && old(ca) <= ca && |ca| <= old(|ca|) + Resolvents(old(ca), pos, neg, v)
      ensures AllFit(old(ca), pos, neg, v, clauseLim) ==> ShortFrom(ca, old(|ca|), clauseLim)
      ensures if good then AddsResolvents(old(ca), old(mark), old(units), ca, mark, units, old(ca), pos, neg, v)
              else RefutesResolvents(old(ca), old(mark), old(units), old(ca), pos, neg, v)
    {
      hide VarsOf, DbShape, UnitShape, OccursOk, AddsResolvents, RefutesResolvents, Proper, RowCount, ShortFrom, AllFit,
        Collected,
        RowFits;
      var i := 0;
      ghost var ca0 := ca;
      AddsNothing(ca, mark, units, ca0, neg, v);
      ShortNone(ca, clauseLim);
      CollectedNone();
      assert pos[..0] == [];
      while i < |pos|
        invariant 0 <= i <= |pos| && Shape() && ca0 <= ca && |ca| <= |ca0| + Resolvents(ca0, pos[..i], neg, v)
        invariant old(mark) <= mark && old(units) <= units && Collected(old(queue), old(touched), old(|ca|))
        invariant AddsResolvents(ca0, old(mark), old(units), ca, mark, units, ca0, pos[..i], neg, v)
        invariant AllFit(ca0, pos, neg, v, clauseLim) ==> ShortFrom(ca, |ca0|, clauseLim)
      {
        assert pos[i] in pos && pos[..i + 1][..i] == pos[..i];
        ghost var ca1, mark1, units1, queue1, touched1 := ca, mark, units, queue, touched;
        CollectedParts(old(queue), old(touched), old(|ca|));
        assert forall n :: n in neg ==> n < |ca0| && ca1[n] == ca0[n];
        RowSame(ca0, ca1, pos[i], neg, v);
        good := ProduceRow(pos[i], neg, v);
        CollectedMore(old(queue), old(touched), old(|ca|), ca1, queue1, touched1);
        RowAdded(ca0, old(mark), old(units), ca1, mark1, units1, ca, mark, units, pos, i, neg, v, good);
        ResolventsPrefix(ca0, pos, i + 1, neg, v);
        if AllFit(ca0, pos, neg, v, clauseLim) { ShortRow(ca0, ca1, ca, pos, i, neg, v, clauseLim); }
        if !good { return; }
        i := i + 1;
      }
      assert pos[..i] == pos;
      good := true;
    }

    /** Deletes the clauses on `v` and stores one side for reconstruction. */
    method TakeOut(v: Var, pos: seq<CRef>, neg: seq<CRef>, cls: seq<CRef>)
      returns (ghost stored: seq<Clause>, ghost x: Lit)
      requires Shape() && StackShape() && v < |eliminated| && !eliminated[v] && assigns[v] == LUndef
      requires forall cr: CRef :: cr in cls <==> Alive(ca, mark, cr) && HasVar(ca[cr], v)
      requires (forall cr :: cr in cls <==> cr in pos || cr in neg)
      requires forall cr :: cr in pos ==> cr < |ca| && Lit(v, false) in ca[cr]
      requires forall cr :: cr in neg ==> cr < |ca| && Lit(v, true) in ca[cr]
      modifies this`mark, this`eliminated, this`elimclauses, this`elimHeap
      ensures Shape() && StackShape() && eliminated == old(eliminated)[v := true] && !HasVar(units, v)
      ensures SplitOn(ca, old(mark), mark, pos, neg, v) && forall cr :: cr in cls ==> FormerClause(cr, v)
      ensures old(elimHeap) <= elimHeap && Queued(ca, old(mark), ca, mark, elimHeap, frozen, eliminated, assigns)
      ensures |stored| <= |pos| && |stored| <= |neg|
      ensures x.v == v && StoresSide(stored, ca, if x.neg then neg else pos, x)
      ensures elimclauses == old(elimclauses) + PackedAll(stored) + Packed([x.Not()])
    {
      hide DbShape, UnitShape, OccursOk, StackOk, StackDefined, StackCovers, StoresSide, SplitOn, PackedAll, Packed,
        HasVar, Open;
      ghost var mark0, elim0, elig0 := mark, elimclauses, eliminated;
      SidesProper(ca, mark, eliminated, cls, pos, neg);
      eliminated := eliminated[v := true];
      x := Lit(v, |pos| > |neg|);
      var first := Lit(v, |pos| > |neg|);
      var side := if |pos| > |neg| then neg else pos;
      stored := StoreSide(side, first);
      MarkLength(ca, mark, elig0);
      FormerVars(v, cls, mark, elig0);
      RemoveAll(cls);
      RemovedQueued(ca, mark0, mark, cls, elimHeap, frozen, eliminated, assigns);
      ElimShapes(ca, mark0, mark, units, assigns, elig0, occurs, cls, v);
      SplitFacts(ca, mark0, mark, elig0, cls, pos, neg, v);
      NotAUnit(units, assigns, elig0, v);
      StackGrows(elim0, elig0, eliminated, stored, ca, mark0, cls, side, x);
      FormerAll(v, cls, elig0, mark0);
    }

    /** Replaces the clauses on `v` by their resolvents and stores one side for reconstruction. */
    method ResolveAway(v: Var, pos: seq<CRef>, neg: seq<CRef>, cls: seq<CRef>) returns (good: bool)
      requires Shape() && StackShape() && Preserved(original, elimclauses, ca, mark, units)
      requires v < |eliminated| && !eliminated[v] && v < |assigns| && assigns[v] == LUndef
      requires forall cr: CRef :: cr in cls <==> Alive(ca, mark, cr) && HasVar(ca[cr], v)
      requires (forall cr :: cr in cls <==> cr in pos || cr in neg)
      requires forall cr :: cr in pos ==> cr < |ca| && Lit(v, false) in ca[cr]
      requires forall cr :: cr in neg ==> cr < |ca| && Lit(v, true) in ca[cr]
      modifies this`ca, this`mark, this`units, this`assigns, this`occurs, this`eliminated, this`elimclauses,
        this`queue, this`touched, this`elimHeap
      ensures Shape() && StackShape() && eliminated == old(eliminated)[v := true]
      ensures if good then Preserved(original, elimclauses, ca, mark, units) else Unsat(original)
      ensures old(ca) <= ca && old(elimHeap) <= elimHeap
        && StaysOpen(frozen, old(eliminated), old(assigns), eliminated, assigns)
      ensures Queued(old(ca), old(mark), ca, mark, elimHeap, frozen, eliminated, assigns)
      ensures Collected(old(queue), old(touched), old(|ca|)) && bwdsubAssigns == old(bwdsubAssigns)
        && Occ(occurs, v) == []
      ensures |ca| <= old(|ca|) + Resolvents(old(ca), pos, neg, v)
      ensures AllFit(old(ca), pos, neg, v, clauseLim) ==> ShortFrom(ca, old(|ca|), clauseLim)
    {
      hide DbShape, UnitShape, OccursOk, Preserved, StackShape, StoresSide, AddsResolvents, RefutesResolvents, SplitOn,
        PackedAll, Packed, Unsat, Resolvents, HasVar, AllFit, ShortFrom, HeapShape, FormerClause, Queued, Open,
          Collected;
      ghost var ca0, mark0, units0, elim0 := ca, mark, units, elimclauses;
      ghost var stored, x := TakeOut(v, pos, neg, cls);
      ghost var rest, assigns1 := mark, assigns;
      good := ProduceResolvents(pos, neg, v);
      UnitsClose(units0, assigns1, units, assigns, eliminated, frozen);
      ElimCloses(old(eliminated), v, assigns1, assigns, frozen);
      PrefixQueued(ca0, mark0, rest, ca, mark, elimHeap, frozen, eliminated, assigns1, assigns);
      if good {
        AddedMeans(ca0, rest, units0, ca, mark, units, pos, neg, v);
        EliminatePreserves(original, elim0, ca0, mark0, rest, pos, neg, v, units0, stored, x, ca, mark, units);
      } else {
        RefutedByResolvents(original, elim0, ca0, mark0, rest, units0, pos, neg, v);
      }
      ClearOccurs(ca, mark, eliminated, occurs, v);
      occurs := occurs[v := []];
    }

    lemma FormerAll(v: Var, cls: seq<CRef>, elig0: seq<bool>, mark0: seq<bool>)
      requires DbShape(ca, mark0, elig0) && v < |elig0| && eliminated == elig0[v := true]
      requires forall cr :: cr in cls ==> Alive(ca, mark0, cr)
      ensures forall cr :: cr in cls ==> FormerClause(cr, v)
    {
      forall cr | cr in cls ensures FormerClause(cr, v) { assert Alive(ca, mark0, cr) && Usable(elig0, ca[cr]); }
    }

    lemma FormerVars(v: Var, cls: seq<CRef>, mark0: seq<bool>, elig0: seq<bool>)
      requires DbShape(ca, mark0, elig0) && |elig0| == |eliminated| && forall cr :: cr in cls ==> Alive(ca, mark0, cr)
      ensures forall cr :: cr in cls ==> cr < |ca| && forall l :: l in ca[cr] ==> l.v < |eliminated|
    {
      forall cr | cr in cls ensures cr < |ca| && forall l :: l in ca[cr] ==> l.v < |eliminated| {
        assert Alive(ca, mark0, cr) && Usable(elig0, ca[cr]);
      }
    }

    /** Eliminates `v` by resolution when the limits allow it; false when the problem is refuted. */
    method EliminateVar(v: Var)
      returns (good: bool, ghost interrupted: bool, ghost was: seq<Clause>, ghost waiting: seq<CRef>)
      requires ok && Valid() && v < |eliminated| && !eliminated[v] && v < |assigns| && assigns[v] == LUndef
      modifies this`ok, this`ca, this`mark, this`units, this`assigns, this`occurs, this`eliminated, this`elimclauses,
        this`queue, this`bwdsubAssigns, this`touched, this`elimHeap
      ensures Valid() && ok == good
      ensures eliminated == if old(Worthwhile(ca, LiveRefs(mark, Occ(occurs, v)), v, grow, clauseLim))
        then old(eliminated)[v := true] else old(eliminated)
      ensures |ca| <= old(|ca|) || |ca| <= old(|ca|) + |old(LiveRefs(mark, Occ(occurs, v)))| + grow
      ensures ShortFrom(ca, old(|ca|), clauseLim)
      ensures eliminated == old(eliminated) ==> good && State() == old(State()) && SameLists(old(Now()), Now())
      ensures eliminated == old(eliminated) ==> bwdsubAssigns == old(bwdsubAssigns) && queue == old(queue)
      ensures eliminated == old(eliminated) ==> touched == old(touched)
      ensures interrupted ==> interruptible
      ensures good && eliminated != old(eliminated) ==>
        |was| == |ca| && old(ca) <= was && Collects(was, waiting, touched, old(queue), old(touched), old(|ca|))
      ensures good && eliminated != old(eliminated) && !interrupted ==> Saturated(was, waiting, old(bwdsubAssigns))
      ensures good && eliminated != old(eliminated) ==> bwdsubAssigns == |units| && queue == []
      ensures old(elimHeap) <= elimHeap && Queued(old(ca), old(mark), ca, mark, elimHeap, frozen, eliminated, assigns)
    {
      hide *;
      interrupted, was, waiting := false, ca, queue;
      ShortNone(ca, clauseLim);
      QueuedNone(ca, mark, elimHeap, frozen, eliminated, assigns);
      var cls, pos, neg := Occurrences(v);
      WorthwhileIs(v, cls, pos, neg);
      var within := WithinLimits(pos, neg, v, |cls| + grow);
      if !within { return true, false, was, waiting; }
      good, interrupted, was, waiting := ReplaceClauses(v, pos, neg, cls);
    }

    /** Replaces the clauses on `v` by their resolvents, which are queued with their variables touched, and
        subsumes with them: `was` are the clauses and `waiting` is the queue in between. */
    method ReplaceClauses(v: Var, pos: seq<CRef>, neg: seq<CRef>, cls: seq<CRef>)
      returns (good: bool, ghost interrupted: bool, ghost was: seq<Clause>, ghost waiting: seq<CRef>)
      requires ok && Shape() && StackShape() && Preserved(original, elimclauses, ca, mark, units)
      requires v < |eliminated| && !eliminated[v] && v < |assigns| && assigns[v] == LUndef
      requires forall cr: CRef :: cr in cls <==> Alive(ca, mark, cr) && HasVar(ca[cr], v)
      requires (forall cr :: cr in cls <==> cr in pos || cr in neg)
      requires forall cr :: cr in pos ==> cr < |ca| && Lit(v, false) in ca[cr]
      requires forall cr :: cr in neg ==> cr < |ca| && Lit(v, true) in ca[cr]
      modifies this`ok, this`ca, this`mark, this`units, this`assigns, this`occurs, this`eliminated, this`elimclauses,
        this`queue, this`bwdsubAssigns, this`touched, this`elimHeap
      ensures Valid() && ok == good && eliminated == old(eliminated)[v := true] && (interrupted ==> interruptible)
      ensures |ca| <= old(|ca|) + Resolvents(old(ca), pos, neg, v)
      ensures AllFit(old(ca), pos, neg, v, clauseLim) ==> ShortFrom(ca, old(|ca|), clauseLim)
      ensures |was| == |ca| && old(ca) <= was && Collects(was, waiting, touched, old(queue), old(touched), old(|ca|))
      ensures good && !interrupted ==> Saturated(was, waiting, old(bwdsubAssigns))
      ensures good ==> bwdsubAssigns == |units| && queue == []
      ensures old(elimHeap) <= elimHeap && Queued(old(ca), old(mark), ca, mark, elimHeap, frozen, eliminated, assigns)
    {
      hide *;
      interrupted := false;
      good := ResolveAway(v, pos, neg, cls);
      ok := good;
      was, waiting := ca, queue;
      CollectedIs(old(queue), old(touched), old(|ca|));
      IsValid();
      if good {
        ghost var mark1, s1, e1, a1 := mark, State(), eliminated, assigns;
        StateParts();
        good, interrupted := Subsume();
        StateParts();
        ReducedParts(s1, State(), frozen, eliminated);
        if AllFit(old(ca), pos, neg, v, clauseLim) { ShortStays(was, ca, old(|ca|), clauseLim); }
        QueuedTrans(old(ca), old(mark), was, mark1, s1.heap, e1, a1, ca, mark, elimHeap, eliminated, assigns, frozen);
      }
    }

    lemma CollectedParts(queue0: seq<CRef>, touched0: set<Var>, n: nat)
      requires Collected(queue0, touched0, n)
      ensures queue0 <= queue && touched0 <= touched
      ensures forall cr: CRef :: n <= cr < |ca| ==> cr in queue && VarsOf(ca[cr]) <= touched
    {
    }

    lemma CollectedIs(queue0: seq<CRef>, touched0: set<Var>, n: nat)
      requires Collected(queue0, touched0, n)
      ensures Collects(ca, queue, touched, queue0, touched0, n)
    {
    }

    lemma CollectedOne(queue0: seq<CRef>, touched0: set<Var>, n: nat, ca1: seq<Clause>, queue1: seq<CRef>,
                       touched1: set<Var>)
      requires queue0 <= queue1 && touched0 <= touched1 && ca1 <= ca && |ca| <= |ca1| + 1
      requires forall cr: CRef :: n <= cr < |ca1| ==> cr in queue1 && VarsOf(ca1[cr]) <= touched1
      requires queue == queue1 + if |ca| == |ca1| then [] else [|ca1|]
      requires touched == touched1 + if |ca| == |ca1| then {} else VarsOf(ca[|ca1|])
      ensures Collected(queue0, touched0, n)
    {
      hide VarsOf;
    }

    lemma CollectedNone()
      ensures Collected(queue, touched, |ca|)
    {
    }

    lemma CollectedMore(queue0: seq<CRef>, touched0: set<Var>, n: nat, ca1: seq<Clause>, queue1: seq<CRef>,
                        touched1: set<Var>)
      requires Collected(queue1, touched1, |ca1|) && queue0 <= queue1 && touched0 <= touched1 && ca1 <= ca
      requires forall cr: CRef :: n <= cr < |ca1| ==> cr in queue1 && VarsOf(ca1[cr]) <= touched1
      ensures Collected(queue0, touched0, n)
    {
      hide VarsOf;
      forall cr: CRef | n <= cr < |ca1| ensures cr in queue {
        assert cr in queue1;
        var i :| 0 <= i < |queue1| && queue1[i] == cr;
        assert queue[i] == cr;
      }
    }

    lemma StateParts()
      ensures State() == Store(ca, mark, units, assigns, elimHeap)
    {
    }

    /** The live clauses with `v`, split by sign. */
    method Occurrences(v: Var) returns (cls: seq<CRef>, pos: seq<CRef>, neg: seq<CRef>)
      requires ok && Valid()
      modifies this`occurs
      ensures Valid() && Shape() && StackShape() && Preserved(original, elimclauses, ca, mark, units)
      ensures SameLists(old(Now()), Now())
      ensures cls == old(LiveRefs(mark, Occ(occurs, v))) && pos == Positive(ca, cls, v) && neg == Negative(ca, cls, v)
      ensures forall cr: CRef :: cr in cls <==> Alive(ca, mark, cr) && HasVar(ca[cr], v)
      ensures forall cr :: cr in cls <==> cr in pos || cr in neg
      ensures forall cr :: cr in pos ==> cr < |ca| && Lit(v, false) in ca[cr]
      ensures forall cr :: cr in neg ==> cr < |ca| && Lit(v, true) in ca[cr]
      ensures forall cr :: cr in cls ==> cr < |ca| && Proper(ca[cr]) && HasVar(ca[cr], v)
    {
      hide DbShape, UnitShape, OccursOk, Preserved, StackShape, HeapShape, LiveRefs, NoDup, HasVar, Positive, Negative,
        Proper;
      CleanSame(mark, occurs, v);
      Lookup(v);
      cls := Occ(occurs, v);
      SidesProper(ca, mark, eliminated, cls, cls, cls);
      pos, neg := SplitOccurrences(cls, v);
    }

    lemma WorthwhileIs(v: Var, cls: seq<CRef>, pos: seq<CRef>, neg: seq<CRef>)
      requires pos == Positive(ca, cls, v) && neg == Negative(ca, cls, v)
      ensures Worthwhile(ca, cls, v, grow, clauseLim) <==>
        (Resolvents(ca, pos, neg, v) == 0 || Resolvents(ca, pos, neg, v) <= |cls| + grow)
          && AllFit(ca, pos, neg, v, clauseLim)
    {
    }

    lemma IsValid()
      requires Shape() && if ok then StackShape()
        && Preserved(original, elimclauses, ca, mark, units) else Unsat(original)
      ensures Valid()
    {
    }

    // ---------- the main loop ----------

    /** Queues the clauses of touched variables. */
    method GatherTouched()
      requires ok && Valid()
      modifies this`queue, this`touched, this`occurs
      ensures ok && Valid() && touched == {} && (old(touched) == {} ==> queue == old(queue))
      ensures old(NoDup(queue)) ==> NoDup(queue)
      ensures forall cr: CRef :: cr in queue <==>
        cr in old(queue) || (Alive(ca, mark, cr) && exists l :: l in ca[cr] && l.v in old(touched))
    {
      hide HeapShape, DbShape, UnitShape, OccursOk, Preserved, StackOk, StackDefined, StackCovers;
      while touched != {}
        invariant ok && Valid() && touched <= old(touched) && (old(touched) == {} ==> queue == old(queue))
        invariant old(NoDup(queue)) ==> NoDup(queue)
        invariant forall cr: CRef :: cr in queue <==>
          cr in old(queue) || (Alive(ca, mark, cr) && TouchedBy(ca[cr], old(touched) - touched))
      {
        var v :| v in touched;
        ghost var done, before := old(touched) - touched, queue;
        Lookup(v);
        QueueAll(Occ(occurs, v));
        touched := touched - {v};
        assert old(touched) - touched == done + {v};
        forall cr: CRef ensures cr in queue <==>
          cr in old(queue) || (Alive(ca, mark, cr) && TouchedBy(ca[cr], old(touched) - touched))
        {
          if Alive(ca, mark, cr) { TouchedMore(ca[cr], done, v); }
        }
      }
      assert old(touched) - touched == old(touched);
    }

    /** Queues what is not queued yet. */
    method QueueAll(cs: seq<CRef>)
      requires Shape() && forall cr :: cr in cs ==> cr < |ca|
      modifies this`queue
      ensures old(NoDup(queue)) ==> NoDup(queue)
      ensures Shape() && forall cr :: cr in queue <==> cr in old(queue) || cr in cs
    {
      hide DbShape, UnitShape, OccursOk;
      for i := 0 to |cs|
        invariant old(NoDup(queue)) ==> NoDup(queue)
        invariant Shape() && forall cr :: cr in queue <==> cr in old(queue) || cr in cs[..i]
      {
        assert cs[..i + 1] == cs[..i] + [cs[i]] && cs[i] in cs;
        if cs[i] !in queue { queue := queue + [cs[i]]; }
      }
      assert cs[..|cs|] == cs;
    }

    /** Backward subsumption between eliminations. */
    method Subsume() returns (good: bool, ghost interrupted: bool)
      requires ok && Valid()
      modifies this`ok, this`ca, this`mark, this`units, this`assigns, this`occurs, this`queue, this`bwdsubAssigns,
        this`elimHeap
      ensures Valid() && ok == good && |mark| == |ca| && |old(mark)| == |old(ca)|
      ensures |ca| == old(|ca|) && Reduced(old(State()), State(), frozen, eliminated)
      ensures good ==> LiveLits(ca, mark) <= LiveLits(old(ca), old(mark)) && queue == [] && bwdsubAssigns == |units|
      ensures (interrupted ==> interruptible) && LongKept(old(State()), State(), subsumptionLim)
      ensures good && !interrupted ==> Saturated(old(ca), old(queue), old(bwdsubAssigns))
    {
      hide DbShape, UnitShape, OccursOk, Preserved, StackOk, StackDefined, StackCovers, Unsat, Equivalent,
        Contradictory, LiveLits, Reduced, HeapShape, Saturates, LongKept;
      MarkLength(ca, mark, eliminated);
      ghost var ca0, mark0, units0 := ca, mark, units;
      good, interrupted := BackwardSubsumptionCheck();
      if good { PreservedEquiv(original, elimclauses, ca0, mark0, units0, ca, mark, units); }
      else { ContradictoryUnsat(original, elimclauses, ca0, mark0, units0); }
      ok := good;
    }

    /** Nothing waits for backward subsumption. */
    ghost predicate Drained() reads this`touched, this`queue, this`bwdsubAssigns, this`units {
      touched == {} && queue == [] && bwdsubAssigns == |units|
    }

    /** Takes variables from the heap until it is empty or the search is interrupted, and eliminates them
        where that is worthwhile. */
    method EliminateAll() returns (good: bool, ghost interrupted: bool, ghost run: seq<View>, ghost acts: seq<Act>)
      requires ok && Valid() && Drained() && elimHeap != {}
      modifies this`ok, this`ca, this`mark, this`units, this`assigns, this`occurs, this`eliminated, this`elimclauses,
        this`queue, this`bwdsubAssigns, this`touched, this`elimHeap
      ensures Valid() && ok == good && Eliminates(old(eliminated), eliminated, frozen)
      ensures good ==> queue == [] && bwdsubAssigns == |units|
      ensures eliminated == old(eliminated) ==> good && Drained() && |elimHeap| < old(|elimHeap|)
      ensures interrupted ==> interruptible
      ensures good && !interrupted ==>
        elimHeap == {} && OnlyTries(acts) && Linked(old(Now()), run, acts, Now(), frozen, grow, clauseLim)
      ensures good && !interrupted && eliminated == old(eliminated) ==> NoneWorth(old(elimHeap))
    {
      hide Worth, LiveRefs, ShortFrom, Left, Valid, Eliminates, Linked, Queued, Worthwhile, SameLists, Open;
      good, interrupted, run, acts := true, false, [Now()], [];
      EliminatesNone(eliminated, frozen);
      LinkedNone(Now(), frozen, grow, clauseLim);
      ghost var first := true;
      while elimHeap != {}
        invariant ok && Valid() && Eliminates(old(eliminated), eliminated, frozen)
        invariant queue == [] && bwdsubAssigns == |units| && OnlyTries(acts) && !interrupted
        invariant Linked(old(Now()), run, acts, Now(), frozen, grow, clauseLim)
        invariant eliminated == old(eliminated) ==>
          touched == {} && if first then elimHeap == old(elimHeap) else |elimHeap| < old(|elimHeap|)
        decreases Left(eliminated), |elimHeap|
      {
        first := false;
        ghost var s := Now();
        var v :| v in elimHeap;
        InHeap(v);
        TakeVar(v);
        var stop: bool := *;
        if interruptible && stop { interrupted := true; break; }
        good := TryVar(v, s, old(eliminated));
        if !good { return; }
        LinkedMore(old(Now()), run, acts, s, Try(v), Now(), frozen, grow, clauseLim);
        run, acts := run + [Now()], acts + [Try(v)];
      }
      if !interrupted && eliminated == old(eliminated) {
        NothingWorth(old(Now()), run, acts, Now(), frozen, grow, clauseLim);
      }
    }

    /** Eliminates `v`, which was taken from the heap at `s`, if it may be eliminated and that is worthwhile. */
    method TryVar(v: Var, ghost s: View, ghost before: seq<bool>) returns (good: bool)
      requires ok && Valid() && v < |eliminated| == |assigns| && queue == [] && bwdsubAssigns == |units|
      requires v in s.store.heap && Now() == s.(store := s.store.(heap := s.store.heap - {v}))
      requires Eliminates(before, eliminated, frozen)
      modifies this`ok, this`ca, this`mark, this`units, this`assigns, this`occurs, this`eliminated, this`elimclauses,
        this`queue, this`bwdsubAssigns, this`touched, this`elimHeap
      ensures Valid() && ok == good && Eliminates(before, eliminated, frozen)
      ensures good ==> queue == [] && bwdsubAssigns == |units| && Link(s, Try(v), Now(), frozen, grow, clauseLim)
      ensures |eliminated| == |old(eliminated)| && Left(eliminated) <= Left(old(eliminated))
      ensures if eliminated == old(eliminated) then good && elimHeap == old(elimHeap) && touched == old(touched)
              else Left(eliminated) < Left(old(eliminated))
      ensures eliminated == before ==> eliminated == old(eliminated)
    {
      hide LiveRefs, ShortFrom, Left, Valid, Eliminates, Queued, Worthwhile, Reduced;
      EliminatesSame(before, eliminated, frozen);
      if eliminated[v] || assigns[v] != LUndef || v in frozen { return true; }
      ghost var e := eliminated;
      ghost var interrupted, was, waiting;
      good, interrupted, was, waiting := EliminateVar(v);
      EliminatesOne(before, e, eliminated, frozen, v);
    }

    method TakeVar(v: Var)
      requires ok && Valid() && v in elimHeap
      modifies this`elimHeap
      ensures ok && Valid() && elimHeap == old(elimHeap) - {v} && |elimHeap| < old(|elimHeap|)
    {
      hide DbShape, UnitShape, OccursOk, Preserved, StackOk, StackDefined, StackCovers;
      elimHeap := elimHeap - {v};
    }

    lemma InHeap(v: Var)
      requires Valid() && v in elimHeap
      ensures v < |eliminated| == |assigns|
    {
    }

    /** The preprocessing loop.  A round that eliminates nothing leaves nothing to subsume and a smaller
        heap, so the loop ends, however it is interrupted; frozen variables stay.  Without interrupts the
        heap is emptied by tries only, each of which eliminates its variable exactly where that is
        worthwhile. */
    method Eliminate() returns (good: bool, ghost interrupted: bool, ghost run: seq<View>, ghost acts: seq<Act>)
      requires Valid()
      modifies this`ok, this`ca, this`mark, this`units, this`assigns, this`occurs, this`eliminated, this`elimclauses,
        this`queue, this`bwdsubAssigns, this`touched, this`elimHeap
      ensures Valid() && ok == good && Eliminates(old(eliminated), eliminated, frozen)
      ensures interrupted ==> interruptible
      ensures good ==> touched == {} && bwdsubAssigns == |units| && elimHeap == {}
      ensures good && !interrupted ==> Linked(old(Now()), run, acts, Now(), frozen, grow, clauseLim)
      ensures good && !interrupted && eliminated == old(eliminated) ==> NoneWorth(old(elimHeap))
    {
      hide *;
      interrupted, run, acts := false, [Now()], [];
      EliminatesNone(eliminated, frozen);
      LinkedNone(Now(), frozen, grow, clauseLim);
      NoneWorthNone();
      if !ok { return false, false, run, acts; }
      while touched != {} || bwdsubAssigns < |units| || elimHeap != {}
        invariant ok && Valid() && Eliminates(old(eliminated), eliminated, frozen)
        invariant interrupted ==> interruptible
        invariant !interrupted ==> Linked(old(Now()), run, acts, Now(), frozen, grow, clauseLim)
        invariant !interrupted && eliminated == old(eliminated) ==>
          if acts == [] then elimHeap == old(elimHeap)
          else touched == {} && bwdsubAssigns >= |units| && elimHeap == {} && NoneWorth(old(elimHeap))
        decreases Left(eliminated), if touched != {} || bwdsubAssigns < |units| || queue != [] then 1 else 0, |elimHeap|
      {
        ghost var before, s, heap0 := eliminated, Now(), elimHeap;
        ghost var stopped;
        good, stopped := SettleClauses();
        interrupted := interrupted || stopped;
        if !good { return; }
        var stop: bool := *;
        if interruptible && stop {
          ClearHeap();
          return true, true, run, acts;
        }
        if !interrupted {
          LinkedMore(old(Now()), run, acts, s, Settle, Now(), frozen, grow, clauseLim);
          run, acts := run + [Now()], acts + [Settle];
        }
        Drains();
        ghost var waiting := elimHeap;
        good, stopped, run, acts := EliminateSome(interrupted, old(Now()), run, acts);
        interrupted := interrupted || stopped;
        EliminatesTrans(old(eliminated), before, eliminated, frozen);
        if !good { return; }
        NoneWorthLess(heap0, waiting);
        Drains();
        assert queue == [];
      }
      UnitsTried();
      NoneWorthNone();
      good := true;
    }

    /** Goes on with the history `run` by the tries of one elimination round, if the heap is not empty. */
    method EliminateSome(ghost before: bool, ghost s: View, ghost run: seq<View>, ghost acts: seq<Act>)
      returns (good: bool, ghost interrupted: bool, ghost run': seq<View>, ghost acts': seq<Act>)
      requires ok && Valid() && Drained() && (!before ==> Linked(s, run, acts, Now(), frozen, grow, clauseLim))
      modifies this`ok, this`ca, this`mark, this`units, this`assigns, this`occurs, this`eliminated, this`elimclauses,
        this`queue, this`bwdsubAssigns, this`touched, this`elimHeap
      ensures Valid() && ok == good && Eliminates(old(eliminated), eliminated, frozen)
      ensures good ==> queue == [] && bwdsubAssigns == |units|
      ensures eliminated == old(eliminated) ==>
        good && Drained() && (old(elimHeap) != {} ==> |elimHeap| < old(|elimHeap|))
      ensures (interrupted ==> interruptible) && |acts'| >= |acts|
      ensures good && !interrupted ==> elimHeap == {}
      ensures good && !interrupted && !before ==> Linked(s, run', acts', Now(), frozen, grow, clauseLim)
      ensures good && !interrupted && eliminated == old(eliminated) ==> NoneWorth(old(elimHeap))
    {
      hide *;
      good, interrupted, run', acts' := true, false, run, acts;
      EliminatesNone(eliminated, frozen);
      NoneWorthNone();
      Drains();
      if elimHeap == {} { return; }
      ghost var t, run2, acts2 := Now(), [], [];
      good, interrupted, run2, acts2 := EliminateAll();
      if good { Drains(); }
      if good && !interrupted && !before {
        LinkedSize(t, run2, acts2, Now(), frozen, grow, clauseLim);
        LinkedTrans(s, run, acts, t, run2, acts2, Now(), frozen, grow, clauseLim);
        run', acts' := run + run2[1..], acts + acts2;
      }
    }

    /** No variable of `vs` may be eliminated with profit. */
    ghost predicate NoneWorth(vs: set<Var>)
      reads this`ca, this`mark, this`units, this`assigns, this`elimHeap, this`occurs, this`eliminated, this`frozen
    {
      forall v :: v in vs && MayTry(Now(), v, frozen) ==> !Worth(Now(), v, grow, clauseLim)
    }

    lemma NoneWorthNone()
      ensures NoneWorth({})
    {
    }

    lemma NoneWorthLess(vs: set<Var>, ws: set<Var>)
      ensures vs <= ws && NoneWorth(ws) ==> NoneWorth(vs)
    {
      hide MayTry, Worth;
    }

    /** Gathers the clauses of touched variables and subsumes. */
    method SettleClauses() returns (good: bool, ghost stopped: bool)
      requires ok && Valid()
      modifies this`ok, this`ca, this`mark, this`units, this`assigns, this`occurs, this`queue, this`bwdsubAssigns,
        this`touched, this`elimHeap
      ensures Valid() && ok == good && (good ==> touched == {} && queue == [] && bwdsubAssigns == |units|)
      ensures Link(old(Now()), Settle, Now(), frozen, grow, clauseLim) && old(elimHeap) <= elimHeap
      ensures old(touched) == {} && old(queue) == [] && old(bwdsubAssigns) >= old(|units|) ==> elimHeap == old(elimHeap)
      ensures (stopped ==> interruptible) && LongKept(old(State()), State(), subsumptionLim)
      ensures good && !stopped ==> Settled(old(ca), old(queue), old(touched))
    {
      hide Valid, Reduced, Exhausted, HeapShape, NoLonger, Within, LongKept;
      MarkSize();
      ReducedNone(State(), frozen, eliminated);
      LongNone(State(), subsumptionLim);
      GatherTouched();
      ghost var ca0, queue0, s := ca, queue, State();
      good, stopped := true, false;
      if queue != [] || bwdsubAssigns < |units| {
        good, stopped := Subsume();
        ReducedShrunk(s, State(), frozen, eliminated);
      }
      if good { UnitsTried(); }
    }

    /** The clauses that were queued, that have changed, or that have a touched variable are exhausted. */
    ghost predicate Settled(ca0: seq<Clause>, queue0: seq<CRef>, touched0: set<Var>) reads this`ca, this`mark {
      forall cr: CRef {:trigger Alive(ca, mark, cr)} :: Alive(ca, mark, cr) && cr < |ca0| ==>
        cr in queue0 || ca[cr] != ca0[cr] || TouchedBy(ca0[cr], touched0) ==>
        Exhausted(ca[cr], Some(cr), ca, mark, ca0, subsumptionLim)
    }

    method ClearHeap()
      requires ok && Valid()
      modifies this`elimHeap
      ensures ok && Valid() && elimHeap == {}
    {
      hide DbShape, UnitShape, OccursOk, Preserved, StackOk, StackDefined, StackCovers;
      elimHeap := {};
    }

    lemma UnitsTried()
      requires ok && Valid()
      ensures bwdsubAssigns <= |units|
    {
    }

    lemma Drains()
      requires ok && Valid()
      ensures bwdsubAssigns <= |units| && (Drained() <==> touched == {} && queue == [] && bwdsubAssigns == |units|)
    {
    }

    lemma SameLength()
      requires ok && Valid()
      ensures |assigns| == |eliminated|
    {
    }

    lemma MarkSize()
      requires ok && Valid()
      ensures |mark| == |ca|
    {
    }

    // ---------- model reconstruction ----------

    /** Gives the eliminated variables values: a model of the remaining constraints becomes a model
        of every clause ever added. */
    method ExtendModel()
      requires ok && Valid() && |model| == |eliminated|
      requires forall v :: 0 <= v < |model| && !eliminated[v] ==> model[v] != LUndef
      requires forall a {:trigger Agrees(a, model)} :: Agrees(a, model) ==> Base(a, ca, mark, units)
      modifies this`model
      ensures |model| == |eliminated| && forall v :: 0 <= v < |model| ==> model[v] != LUndef
      ensures forall v :: 0 <= v < |model| && !eliminated[v] ==> model[v] == old(model)[v]
      ensures forall a {:trigger Agrees(a, model)} :: Agrees(a, model) ==> Models(a, original)
    {
      hide *;
      StackParts();
      ReadStack();
      Reconstructed(old(model));
    }

    lemma StackParts()
      requires ok && Valid()
      ensures StackOk(elimclauses, eliminated)
    {
    }

    /** Reads the packed stack from the top. */
    method ReadStack()
      requires StackOk(elimclauses, eliminated) && |model| == |eliminated|
      modifies this`model
      ensures model == ExtendPartial(elimclauses, old(model))
    {
      hide StackOk, ExtendPartial;
      var i := |elimclauses| - 1;
      assert elimclauses[..i + 1] == elimclauses;
      while i > 0
        invariant -1 <= i < |elimclauses| && |model| == |eliminated|
        invariant StackOk(elimclauses[..i + 1], eliminated)
        invariant ExtendPartial(elimclauses[..i + 1], model) == ExtendPartial(elimclauses, old(model))
      {
        ghost var c := StackTop(elimclauses, eliminated, model, i);
        var n := elimclauses[i];
        var start := i - n;
        var allFalse := RestIsFalse(start, n, c);
        if allFalse {
          var x := ToLit(elimclauses[start]);
          assert x == c[0];
          model := model[x.v := if x.neg then LFalse else LTrue];
        }
        i := start - 1;
      }
      StackBottom(elimclauses, eliminated, model, i);
    }

    /** Whether the literals after the first of the packed clause at `start` are all false. */
    method RestIsFalse(start: nat, n: nat, ghost c: Clause) returns (allFalse: bool)
      requires 0 < n && start + n < |elimclauses| && |c| == n
      requires forall k :: 0 <= k < n ==> c[k] == ToLit(elimclauses[start + k])
      ensures allFalse <==> forall k :: 1 <= k < n ==> Val(model, c[k]) == LFalse
    {
      var j := n;
      while j > 1
        invariant 1 <= j <= n && forall k :: j <= k < n ==> Val(model, c[k]) == LFalse
      {
        assert c[j - 1] == ToLit(elimclauses[start + j - 1]);
        if Val(model, ToLit(elimclauses[start + j - 1])) != LFalse { return false; }
        j := j - 1;
      }
      return true;
    }

    lemma Reconstructed(m: seq<LBool>)
      requires ok && Valid() && |m| == |eliminated| && model == ExtendPartial(elimclauses, m)
      requires forall v :: 0 <= v < |m| && !eliminated[v] ==> m[v] != LUndef
      requires forall a {:trigger Agrees(a, m)} :: Agrees(a, m) ==> Base(a, ca, mark, units)
      ensures |model| == |eliminated| && forall v :: 0 <= v < |model| ==> model[v] != LUndef
      ensures forall v :: 0 <= v < |model| && !eliminated[v] ==> model[v] == m[v]
      ensures forall a {:trigger Agrees(a, model)} :: Agrees(a, model) ==> Models(a, original)
    {
      hide DbShape, UnitShape, OccursOk, StackOk, StackDefined, StackCovers, ExtendPartial, Base, Models, Extend,
        Agrees;
      PartialTotal(elimclauses, eliminated, m);
      forall a | Agrees(a, model) ensures Models(a, original) {
        var b := Before(a, m, eliminated);
        AgreesBefore(a, model, m, eliminated);
        assert Base(b, ca, mark, units);
        assert Models(Extend(elimclauses, b), original);
        ExtendFixed(elimclauses, eliminated, m, a);
      }
    }
  }

  /** The clause that is read when the stack is read down to `i`. */
  lemma StackTop(elim: seq<nat>, eliminated: seq<bool>, m: seq<LBool>, i: nat) returns (c: Clause)
    requires i < |elim| && StackOk(elim[..i + 1], eliminated)
    ensures var n := elim[i];
      && 0 < n <= i && |c| == n && c[0].v < |eliminated| && StackOk(elim[..i - n], eliminated)
      && (forall k :: 0 <= k < n ==> c[k] == ToLit(elim[i - n + k]))
      && ExtendPartial(elim[..i + 1], m) == ExtendPartial(elim[..i - n], RepairPartial(m, c))
  {
    var stack := elim[..i + 1];
    c := TopClause(stack);
    var n := elim[i];
    assert n == stack[|stack| - 1];
    assert stack[..|stack| - 1 - n] == elim[..i - n];
  }

  /** Nothing is left to read at the bottom. */
  lemma StackBottom(elim: seq<nat>, eliminated: seq<bool>, m: seq<LBool>, i: int)
    requires -1 <= i <= 0 && i < |elim| && StackOk(elim[..i + 1], eliminated)
    ensures ExtendPartial(elim[..i + 1], m) == m
  {
  }

  ghost function Remaining(eliminated: seq<bool>): iset<Var> { iset v | 0 <= v < |eliminated| && !eliminated[v] }

  /** A true literal, or at least two that are open. */
  ghost predicate NotUnit(assigns: seq<LBool>, c: Clause) {
    || (exists i :: 0 <= i < |c| && Val(assigns, c[i]) == LTrue)
    || (exists i, j :: 0 <= i < j < |c| && Val(assigns, c[i]) == LUndef && Val(assigns, c[j]) == LUndef)
  }

  lemma NewVarShapes(ca: seq<Clause>, mark: seq<bool>, units: seq<Lit>, assigns: seq<LBool>, eliminated: seq<bool>)
    requires DbShape(ca, mark, eliminated) && UnitShape(units, assigns, eliminated)
    ensures DbShape(ca, mark, eliminated + [false]) && UnitShape(units, assigns + [LUndef], eliminated + [false])
  {
    var e := eliminated + [false];
    forall cr: CRef | Alive(ca, mark, cr) ensures |ca[cr]| >= 2 && Proper(ca[cr]) && Usable(e, ca[cr]) {
      assert Usable(eliminated, ca[cr]);
    }
  }

  lemma NewVarStack(elim: seq<nat>, eliminated: seq<bool>)
    requires StackOk(elim, eliminated) && StackDefined(elim, Remaining(eliminated))
    ensures StackOk(elim, eliminated + [false]) && StackDefined(elim, Remaining(eliminated + [false]))
    ensures StackCovers(elim, eliminated) ==> StackCovers(elim, eliminated + [false])
  {
    StackMono(elim, eliminated, eliminated + [false]);
    DefinedMono(elim, Remaining(eliminated), Remaining(eliminated + [false]));
  }

  lemma {:induction false} DefinedMono(elim: seq<nat>, d1: iset<Var>, d2: iset<Var>)
    requires StackDefined(elim, d1) && d1 <= d2
    ensures StackDefined(elim, d2)
  {
    if |elim| > 0 {
      var c := TopClause(elim);
      DefinedMono(elim[..|elim| - 1 - elim[|elim| - 1]], d1 + iset{c[0].v}, d2 + iset{c[0].v});
    }
  }

  lemma EquivalentRefl(ca: seq<Clause>, mark: seq<bool>, units: seq<Lit>)
    ensures Equivalent(ca, mark, units, ca, mark, units)
  {
  }

  lemma FalsifiedClause(ca: seq<Clause>, mark: seq<bool>, units: seq<Lit>, assigns: seq<LBool>, eliminated: seq<bool>,
                        cr: CRef)
    requires UnitShape(units, assigns, eliminated) && Alive(ca, mark, cr)
    requires forall l :: l in ca[cr] ==> Val(assigns, l) == LFalse
    ensures Contradictory(ca, mark, units)
  {
    forall a ensures !Base(a, ca, mark, units) {
      if AllTrue(a, units) { FalseLits(units, assigns, eliminated, ca[cr], [], a); }
    }
  }

  lemma UnitClause(ca: seq<Clause>, mark: seq<bool>, units: seq<Lit>, assigns: seq<LBool>, eliminated: seq<bool>,
                   cr: CRef, l: Lit)
    requires UnitShape(units, assigns, eliminated) && Alive(ca, mark, cr) && l in ca[cr] && Usable(eliminated, ca[cr])
    requires Val(assigns, l) == LUndef && forall k :: k in ca[cr] && k != l ==> Val(assigns, k) == LFalse
    ensures Equivalent(ca, mark, units, ca, mark, units + [l])
    ensures l.v < |assigns| && assigns[l.v] == LUndef && !eliminated[l.v]
  {
    forall a | Base(a, ca, mark, units) ensures True(a, l) {
      FalseLits(units, assigns, eliminated, ca[cr], [l], a);
    }
    ImpliedUnit(ca, mark, units, l);
  }

  lemma SatisfiedAdds(ca: seq<Clause>, mark: seq<bool>, units: seq<Lit>, assigns: seq<LBool>, eliminated: seq<bool>,
                      ps: Clause)
    requires UnitShape(units, assigns, eliminated) && exists l :: l in ps && (Val(assigns, l) == LTrue || l.Not() in ps)
    ensures Adds(ca, mark, units, ca, mark, units, ps)
  {
    var l :| l in ps && (Val(assigns, l) == LTrue || l.Not() in ps);
    forall a | Base(a, ca, mark, units) ensures Sat(a, ps) {
      if Val(assigns, l) == LTrue { TrueLit(units, assigns, eliminated, l, a); }
      else { assert True(a, l) || True(a, l.Not()); }
    }
  }

  lemma FilteredMeans(units: seq<Lit>, assigns: seq<LBool>, eliminated: seq<bool>, ps: Clause, qs: Clause)
    requires UnitShape(units, assigns, eliminated) && Within(qs, ps)
    requires forall l :: l in ps && l !in qs ==> Val(assigns, l) == LFalse
    ensures forall a {:trigger AllTrue(a, units)} :: AllTrue(a, units) ==> (Sat(a, ps) <==> Sat(a, qs))
  {
    forall a | AllTrue(a, units) ensures Sat(a, ps) <==> Sat(a, qs) {
      FalseLits(units, assigns, eliminated, ps, qs, a);
    }
  }

  lemma UsableWithin(eliminated: seq<bool>, ps: Clause, qs: Clause)
    requires Usable(eliminated, ps) && Within(qs, ps)
    ensures Usable(eliminated, qs)
  {
  }

  lemma NoneLeft(ca: seq<Clause>, mark: seq<bool>, units: seq<Lit>, ps: Clause, qs: Clause)
    requires |qs| == 0
    requires forall a {:trigger AllTrue(a, units)} :: AllTrue(a, units) ==> (Sat(a, ps) <==> Sat(a, qs))
    ensures forall a {:trigger Base(a, ca, mark, units)} :: !(Base(a, ca, mark, units) && Sat(a, ps))
  {
    forall a ensures !(Base(a, ca, mark, units) && Sat(a, ps)) { assert !Sat(a, qs); }
  }

  lemma OneLeft(ca: seq<Clause>, mark: seq<bool>, units: seq<Lit>, ps: Clause, qs: Clause)
    requires |qs| == 1
    requires forall a {:trigger AllTrue(a, units)} :: AllTrue(a, units) ==> (Sat(a, ps) <==> Sat(a, qs))
    ensures Adds(ca, mark, units, ca, mark, units + [qs[0]], ps)
  {
    forall a | AllTrue(a, units) ensures Sat(a, ps) <==> True(a, qs[0]) { assert qs[0] in qs; }
    AddsUnit(ca, mark, units, qs[0], ps);
  }

  lemma UnitSizes(units: seq<Lit>, assigns: seq<LBool>, eliminated: seq<bool>)
    requires UnitShape(units, assigns, eliminated)
    ensures |assigns| == |eliminated|
  {
  }

  lemma MarkLength(ca: seq<Clause>, mark: seq<bool>, eliminated: seq<bool>)
    requires DbShape(ca, mark, eliminated)
    ensures |mark| == |ca|
  {
  }

  lemma AddsRejected(ca: seq<Clause>, mark: seq<bool>, units: seq<Lit>, ca': seq<Clause>, mark': seq<bool>,
                     units': seq<Lit>, ps: Clause)
    requires Adds(ca, mark, units, ca', mark', units', ps) && Contradictory(ca', mark', units')
    ensures forall a {:trigger Base(a, ca, mark, units)} :: !(Base(a, ca, mark, units) && Sat(a, ps))
  {
    forall a ensures !(Base(a, ca, mark, units) && Sat(a, ps)) { assert !Base(a, ca', mark', units'); }
  }

  // ---------- strengthening ----------

  /** The clause without literal `x`, in order. */
  function Without(c: Clause, x: Lit): Clause {
    if |c| == 0 then []
    else if c[0] == x then c[1..]
    else [c[0]] + Without(c[1..], x)
  }

  lemma {:induction false} WithoutLits(c: Clause, x: Lit)
    requires Distinct(c) && x in c
    ensures |Without(c, x)| == |c| - 1 && Distinct(Without(c, x))
    ensures forall l :: l in Without(c, x) <==> l in c && l != x
  {
    if c[0] != x {
      WithoutLits(c[1..], x);
      assert c == [c[0]] + c[1..];
      assert c[0] !in c[1..];
      var w := Without(c[1..], x);
      forall i | 0 <= i < |w| ensures w[i] != c[0] { assert w[i] in w; }
    }
  }

  function WithoutRef(cs: seq<CRef>, cr: CRef): seq<CRef> {
    if |cs| == 0 then []
    else if cs[0] == cr then cs[1..]
    else [cs[0]] + WithoutRef(cs[1..], cr)
  }

  lemma {:induction false} WithoutRefHas(cs: seq<CRef>, cr: CRef)
    requires NoDup(cs)
    ensures |WithoutRef(cs, cr)| <= |cs| && NoDup(WithoutRef(cs, cr))
    ensures forall k :: k in WithoutRef(cs, cr) <==> k in cs && k != cr
  {
    if |cs| > 0 && cs[0] != cr {
      WithoutRefHas(cs[1..], cr);
      assert cs == [cs[0]] + cs[1..];
      assert cs[0] !in cs[1..];
      var w := WithoutRef(cs[1..], cr);
      forall i | 0 <= i < |w| ensures w[i] != cs[0] { assert w[i] in w; }
    }
  }

  lemma StrengthenedEquiv(ca: seq<Clause>, mark: seq<bool>, units: seq<Lit>, cr: CRef, c: Clause, from: Option<CRef>,
                          x: Lit, d: Clause)
    requires Alive(ca, mark, cr) && from != Some(cr) && FlippedWithin(c, ca[cr], x.Not()) && Proper(ca[cr])
      && |ca[cr]| >= 2 && Proper(c)
    requires if from.Some? then Alive(ca, mark, from.value)
      && ca[from.value] == c else exists l :: l in units && c == [l]
    requires d == Without(ca[cr], x)
    ensures |d| == |ca[cr]| - 1 && Proper(d) && (forall l :: l in d <==> l in ca[cr] && l != x) && d[0] in ca[cr]
    ensures Equivalent(ca, mark, units, ca[cr := d], mark, units)
  {
    hide Without;
    assert x.Not().Not() == x;
    WithoutLits(ca[cr], x);
    assert d[0] in d;
    forall l | l in d ensures l.Not() !in d { assert l in ca[cr]; }
    forall l | l in c && l != x.Not() ensures l in d {
      assert l in ca[cr];
      assert l != x by { assert x.Not() in c; }
    }
    StrengthenEquiv(ca, mark, units, cr, c, x, d);
  }

  lemma StrengthenShapes(ca: seq<Clause>, mark: seq<bool>, eliminated: seq<bool>, occurs: Occurs, cr: CRef, x: Lit,
                         d: Clause)
    requires DbShape(ca, mark, eliminated) && OccursOk(ca, mark, occurs) && Alive(ca, mark, cr) && x in ca[cr]
    requires |d| >= 2 && Proper(d) && forall l :: l in d <==> l in ca[cr] && l != x
    ensures DbShape(ca[cr := d], mark, eliminated)
    ensures OccursOk(ca[cr := d], mark, occurs[x.v := WithoutRef(Occ(occurs, x.v), cr)])
    ensures |WithoutRef(Occ(occurs, x.v), cr)| <= |Occ(occurs, x.v)|
  {
    hide WithoutRef;
    var ca' := ca[cr := d];
    var occurs' := occurs[x.v := WithoutRef(Occ(occurs, x.v), cr)];
    assert ListOk(ca, mark, Occ(occurs, x.v), x.v);
    WithoutRefHas(Occ(occurs, x.v), cr);
    forall l | l in d ensures l.v != x.v {
      assert l in ca[cr] && l != x;
      assert l != x.Not() by { assert x.Not() !in ca[cr]; }
    }
    forall k: CRef | Alive(ca', mark, k) ensures |ca'[k]| >= 2 && Proper(ca'[k]) && Usable(eliminated, ca'[k]) {
      assert Alive(ca, mark, k);
    }
    forall k: CRef | Alive(ca', mark, k) ensures ListedAt(ca', occurs', k) {
      assert Alive(ca, mark, k) && ListedAt(ca, occurs, k);
      forall l: Lit | l in ca'[k] ensures k in Occ(occurs', l.v) { assert l in ca[k]; }
    }
    forall v: Var ensures ListOk(ca', mark, Occ(occurs', v), v) {
      assert ListOk(ca, mark, Occ(occurs, v), v);
      forall k: CRef | k in Occ(occurs', v) ensures k < |ca'| && (Alive(ca', mark, k) ==> HasVar(ca'[k], v)) {
        assert k in Occ(occurs, v);
        if k == cr && Alive(ca, mark, k) {
          var l :| l in ca[cr] && l.v == v;
          assert v != x.v;
          assert l in d;
        }
      }
    }
  }

  /** What a deleted clause holds does not matter. */
  lemma DeletedShapes(ca: seq<Clause>, mark: seq<bool>, eliminated: seq<bool>, occurs: Occurs, cr: CRef, d: Clause)
    requires DbShape(ca, mark, eliminated) && OccursOk(ca, mark, occurs) && cr < |ca| && mark[cr]
    ensures DbShape(ca[cr := d], mark, eliminated) && OccursOk(ca[cr := d], mark, occurs)
  {
    var ca' := ca[cr := d];
    forall k: CRef | Alive(ca', mark, k)
      ensures ListedAt(ca', occurs, k) && |ca'[k]| >= 2 && Proper(ca'[k]) && Usable(eliminated, ca'[k])
    {
      assert Alive(ca, mark, k) && ListedAt(ca, occurs, k);
    }
    forall v: Var ensures ListOk(ca', mark, Occ(occurs, v), v) {
      assert ListOk(ca, mark, Occ(occurs, v), v);
      forall k: CRef | k in Occ(occurs, v) && Alive(ca', mark, k) ensures HasVar(ca'[k], v) {
        assert Alive(ca, mark, k);
      }
    }
  }

  lemma ToUnitBase(a: Valuation, ca: seq<Clause>, mark: seq<bool>, units: seq<Lit>, cr: CRef, d: Clause)
    requires Alive(ca, mark, cr) && |d| == 1
    ensures Base(a, ca[cr := d], mark, units) <==> Base(a, ca[cr := d], mark[cr := true], units) && True(a, d[0])
  {
    var ca', mark' := ca[cr := d], mark[cr := true];
    assert Sat(a, d) <==> True(a, d[0]) by { assert d[0] in d; }
    if Base(a, ca', mark, units) {
      assert Alive(ca', mark, cr);
      forall k: CRef | Alive(ca', mark', k) ensures Sat(a, ca'[k]) { assert Alive(ca', mark, k); }
    }
    if Base(a, ca', mark', units) && True(a, d[0]) {
      forall k: CRef | Alive(ca', mark, k) ensures Sat(a, ca'[k]) { if k != cr { assert Alive(ca', mark', k); } }
    }
  }

  lemma ToUnit(ca: seq<Clause>, mark: seq<bool>, units: seq<Lit>, cr: CRef, d: Clause)
    requires Alive(ca, mark, cr) && |d| == 1 && Equivalent(ca, mark, units, ca[cr := d], mark, units)
    ensures Equivalent(ca, mark, units, ca[cr := d], mark[cr := true], units + [d[0]])
  {
    forall a ensures Base(a, ca, mark, units) <==> Base(a, ca[cr := d], mark[cr := true], units + [d[0]]) {
      assert Base(a, ca, mark, units) <==> Base(a, ca[cr := d], mark, units);
      ToUnitBase(a, ca, mark, units, cr, d);
      assert d[0] in units + [d[0]];
      assert AllTrue(a, units + [d[0]]) <==> AllTrue(a, units) && True(a, d[0]);
    }
  }

  /** A literal that is already assigned: either known, or a contradiction. */
  lemma KnownUnit(ca: seq<Clause>, mark: seq<bool>, units: seq<Lit>, assigns: seq<LBool>, eliminated: seq<bool>,
                  cr: CRef, d: Clause)
    requires Alive(ca, mark, cr) && |d| == 1 && Equivalent(ca, mark, units, ca[cr := d], mark, units)
    requires UnitShape(units, assigns, eliminated) && Val(assigns, d[0]) != LUndef
    ensures if Val(assigns, d[0]) == LTrue then Equivalent(ca, mark, units, ca[cr := d], mark[cr := true], units)
      else Contradictory(ca, mark, units)
  {
    forall a
      ensures Val(assigns, d[0]) == LTrue ==>
        (Base(a, ca, mark, units) <==> Base(a, ca[cr := d], mark[cr := true], units))
      ensures Val(assigns, d[0]) == LFalse ==> !Base(a, ca, mark, units)
    {
      assert Base(a, ca, mark, units) <==> Base(a, ca[cr := d], mark, units);
      ToUnitBase(a, ca, mark, units, cr, d);
      if AllTrue(a, units) {
        var l := if Val(assigns, d[0]) == LTrue then d[0] else d[0].Not();
        TrueLit(units, assigns, eliminated, l, a);
      }
    }
  }

  lemma ContradictoryBack(ca: seq<Clause>, mark: seq<bool>, units: seq<Lit>, ca': seq<Clause>, mark': seq<bool>,
                          units': seq<Lit>)
    requires Equivalent(ca, mark, units, ca', mark', units') && Contradictory(ca', mark', units')
    ensures Contradictory(ca, mark, units)
  {
    forall a ensures !Base(a, ca, mark, units) { assert !Base(a, ca', mark', units'); }
  }

  lemma OccRange(ca: seq<Clause>, mark: seq<bool>, occurs: Occurs, v: Var, j: nat)
    requires OccursOk(ca, mark, occurs) && j < |Occ(occurs, v)|
    ensures Occ(occurs, v)[j] < |ca|
  {
    assert ListOk(ca, mark, Occ(occurs, v), v);
    assert Occ(occurs, v)[j] in Occ(occurs, v);
  }

  // ---------- elimination ----------

  lemma OtherSign(c: Clause, v: Var)
    requires HasVar(c, v) && Lit(v, false) !in c
    ensures Lit(v, true) in c
  {
    var l :| l in c && l.v == v;
    assert l == Lit(v, true);
  }

  /** The number of resolvents of `p` with the clauses of `neg` that are no tautologies. */
  ghost function RowCount(ca: seq<Clause>, p: CRef, neg: seq<CRef>, v: Var): nat {
    if |neg| == 0 then 0
    else
      var n := neg[|neg| - 1];
      RowCount(ca, p, neg[..|neg| - 1], v) + if p < |ca| && n < |ca| && !Clashes(ca[p], ca[n], v) then 1 else 0
  }

  /** The number of clauses that eliminating `v` produces. */
  ghost function Resolvents(ca: seq<Clause>, pos: seq<CRef>, neg: seq<CRef>, v: Var): nat {
    if |pos| == 0 then 0 else Resolvents(ca, pos[..|pos| - 1], neg, v) + RowCount(ca, pos[|pos| - 1], neg, v)
  }

  /** The variable may be eliminated. */
  ghost predicate Open(v: Var, frozen: set<Var>, eliminated: seq<bool>, assigns: seq<LBool>) {
    v !in frozen && v < |eliminated| && !eliminated[v] && v < |assigns| && assigns[v] == LUndef
  }

  /** Literals that are gone since then, with their clauses or from them, have their variables in the heap. */
  ghost predicate Queued(ca0: seq<Clause>, mark0: seq<bool>, ca: seq<Clause>, mark: seq<bool>, heap: set<Var>,
                         frozen: set<Var>, eliminated: seq<bool>, assigns: seq<LBool>) {
    forall cr, l {:trigger l in ca0[cr]} :: 0 <= cr < |ca0| && cr < |ca| && Alive(ca0, mark0, cr) && l in ca0[cr] ==>
      (Alive(ca, mark, cr) && l in ca[cr]) || !Open(l.v, frozen, eliminated, assigns) || l.v in heap
  }

  lemma QueuedNone(ca: seq<Clause>, mark: seq<bool>, heap: set<Var>, frozen: set<Var>, eliminated: seq<bool>,
                   assigns: seq<LBool>)
    ensures Queued(ca, mark, ca, mark, heap, frozen, eliminated, assigns)
  {
  }

  /** What is open now was open before. */
  ghost predicate StaysOpen(frozen: set<Var>, e0: seq<bool>, a0: seq<LBool>, e: seq<bool>, a: seq<LBool>) {
    forall v: Var :: Open(v, frozen, e, a) ==> Open(v, frozen, e0, a0)
  }

  lemma QueuedTrans(ca0: seq<Clause>, mark0: seq<bool>, ca1: seq<Clause>, mark1: seq<bool>, h1: set<Var>, e1: seq<bool>,
                    a1: seq<LBool>, ca2: seq<Clause>, mark2: seq<bool>, h2: set<Var>, e2: seq<bool>, a2: seq<LBool>,
                    frozen: set<Var>)
    requires Queued(ca0, mark0, ca1, mark1, h1, frozen, e1, a1) && Queued(ca1, mark1, ca2, mark2, h2, frozen, e2, a2)
    requires h1 <= h2 && StaysOpen(frozen, e1, a1, e2, a2) && |ca0| <= |ca1|
    ensures Queued(ca0, mark0, ca2, mark2, h2, frozen, e2, a2)
  {
    hide Open, Alive;
  }

  /** What simplification changes. */
  datatype Store = Store(ca: seq<Clause>, mark: seq<bool>, units: seq<Lit>, assigns: seq<LBool>, heap: set<Var>)

  /** Live clauses were live before and lost at most literals. */
  ghost predicate Shrunk(s: Store, t: Store) {
    && |s.ca| == |s.mark| == |t.ca| == |t.mark| && NoLonger(s.ca, t.ca)
    && forall k: CRef {:trigger Alive(t.ca, t.mark, k)} :: Alive(t.ca, t.mark, k) ==>
         Alive(s.ca, s.mark, k) && Within(t.ca[k], s.ca[k])
  }

  /** From `s` to `t` clauses shrink, units and heap grow, and lost occurrences are in the heap. */
  ghost predicate Reduced(s: Store, t: Store, frozen: set<Var>, eliminated: seq<bool>) {
    && Shrunk(s, t) && s.units <= t.units && s.heap <= t.heap
    && Queued(s.ca, s.mark, t.ca, t.mark, t.heap, frozen, eliminated, t.assigns)
    && StaysOpen(frozen, eliminated, s.assigns, eliminated, t.assigns)
  }

  lemma ReducedNone(s: Store, frozen: set<Var>, eliminated: seq<bool>)
    requires |s.ca| == |s.mark|
    ensures Reduced(s, s, frozen, eliminated)
  {
    NoLongerSelf(s.ca);
  }

  lemma ReducedTrans(s: Store, t: Store, u: Store, frozen: set<Var>, eliminated: seq<bool>)
    requires Reduced(s, t, frozen, eliminated) && Reduced(t, u, frozen, eliminated)
    ensures Reduced(s, u, frozen, eliminated)
  {
    hide Open, Queued, NoLonger, Alive;
    QueuedTrans(s.ca, s.mark, t.ca, t.mark, t.heap, eliminated, t.assigns, u.ca, u.mark, u.heap, eliminated, u.assigns,
      frozen);
    NoLongerTrans(s.ca, t.ca, u.ca);
    assert forall v: Var :: Open(v, frozen, eliminated, u.assigns) ==> Open(v, frozen, eliminated, s.assigns);
  }

  // ---------- saturation ----------

  /** `c` neither subsumes `d` nor deletes a literal of it. */
  ghost predicate NoEffect(c: Clause, d: Clause) { !Within(c, d) && forall x: Lit :: !FlippedWithin(c, d, x) }

  /** `c`, from clause `from` if it is one, has nothing to do on the live clauses that are short enough;
      `was` are the clauses as they were when the limit was last looked at. */
  ghost predicate Exhausted(c: Clause, from: Option<CRef>, ca: seq<Clause>, mark: seq<bool>, was: seq<Clause>,
                            lim: int) {
    forall k: CRef {:trigger Alive(ca, mark, k)} :: Alive(ca, mark, k) ==>
      Some(k) != from && k < |was| && (lim == -1 || |was[k]| < lim) ==> NoEffect(c, ca[k])
  }

  lemma NoEffectShrinks(c: Clause, d: Clause, d': Clause)
    requires NoEffect(c, d) && Within(d', d)
    ensures NoEffect(c, d')
  {
    forall x: Lit ensures !FlippedWithin(c, d', x) { assert !FlippedWithin(c, d, x); }
  }

  lemma ExhaustedKeeps(c: Clause, from: Option<CRef>, s: Store, t: Store, was: seq<Clause>, lim: int)
    requires Exhausted(c, from, s.ca, s.mark, was, lim) && Shrunk(s, t)
    ensures Exhausted(c, from, t.ca, t.mark, was, lim)
  {
    hide NoEffect, Within, NoLonger;
    forall k: CRef | Alive(t.ca, t.mark, k) && Some(k) != from && k < |was| && (lim == -1 || |was[k]| < lim)
      ensures NoEffect(c, t.ca[k]) {
      assert Alive(s.ca, s.mark, k);
      NoEffectShrinks(c, s.ca[k], t.ca[k]);
    }
  }

  /** After the deletion of a literal, `c` has nothing more to do on the clause. */
  lemma StrengthenedNoEffect(c: Clause, d: Clause, x: Lit, d': Clause)
    requires Proper(c) && Proper(d) && FlippedWithin(c, d, x.Not()) && forall l :: l in d' ==> l in d && l != x
    ensures NoEffect(c, d')
  {
    assert x.Not().Not() == x && x !in d' && x.Not() !in d';
  }

  /** A clause without variable `v` is unrelated to one with it. */
  lemma WithoutVarNoEffect(c: Clause, d: Clause, v: Var)
    requires HasVar(c, v) && !HasVar(d, v)
    ensures NoEffect(c, d)
  {
    var l :| l in c && l.v == v;
    assert l !in d && l.Not() !in d;
    forall x: Lit ensures !FlippedWithin(c, d, x) { }
  }

  ghost predicate Requeued(ca0: seq<Clause>, queue0: seq<CRef>, ca: seq<Clause>, mark: seq<bool>, queue: seq<CRef>) {
    && (forall k :: k in queue0 ==> k in queue)
    && forall k: CRef {:trigger Alive(ca, mark, k)} :: Alive(ca, mark, k) && k < |ca0| ==> ca[k] == ca0[k] || k in queue
  }

  lemma RequeuedNone(ca: seq<Clause>, mark: seq<bool>, queue: seq<CRef>)
    ensures Requeued(ca, queue, ca, mark, queue)
  {
  }

  lemma RequeuedTrans(ca0: seq<Clause>, queue0: seq<CRef>, s: Store, queue1: seq<CRef>, t: Store, queue2: seq<CRef>)
    requires Requeued(ca0, queue0, s.ca, s.mark, queue1) && Requeued(s.ca, queue1, t.ca, t.mark, queue2) && Shrunk(s, t)
    ensures Requeued(ca0, queue0, t.ca, t.mark, queue2)
  {
    hide NoLonger, Within;
    forall k: CRef | Alive(t.ca, t.mark, k) && k < |ca0| ensures t.ca[k] == ca0[k] || k in queue2 {
      assert Alive(s.ca, s.mark, k);
    }
  }

  /** Outside the queue, the clauses that were in `queue0` and those that differ from `ca0` are exhausted,
      and so are the units from `lo` to before `hi`. */
  ghost predicate Saturates(s: Store, ca0: seq<Clause>, queue0: seq<CRef>, queue: seq<CRef>, lo: nat, hi: nat,
                            lim: int) {
    && (forall k: CRef {:trigger Alive(s.ca, s.mark, k)} :: Alive(s.ca, s.mark, k) && k < |ca0| ==>
          (k in queue0 || s.ca[k] != ca0[k]) && k !in queue ==> Exhausted(s.ca[k], Some(k), s.ca, s.mark, ca0, lim))
    && (forall i :: lo <= i < hi && i < |s.units| ==> Exhausted([s.units[i]], None, s.ca, s.mark, ca0, lim))
  }

  lemma NothingTried(s: Store, ca0: seq<Clause>, queue: seq<CRef>, b: nat, lim: int)
    requires s.ca == ca0
    ensures Saturates(s, ca0, queue, queue, b, b, lim)
  {
  }

  lemma PoppedDead(s: Store, ca0: seq<Clause>, queue0: seq<CRef>, queue: seq<CRef>, lo: nat, hi: nat, lim: int)
    requires Saturates(s, ca0, queue0, queue, lo, hi, lim) && |queue| > 0 && !Alive(s.ca, s.mark, queue[0])
    ensures Saturates(s, ca0, queue0, queue[1..], lo, hi, lim)
  {
    hide Exhausted;
    assert queue == [queue[0]] + queue[1..];
  }

  lemma ExhaustedSooner(c: Clause, from: Option<CRef>, ca: seq<Clause>, mark: seq<bool>, was: seq<Clause>,
                        was0: seq<Clause>, lim: int)
    requires Exhausted(c, from, ca, mark, was, lim) && NoLonger(was0, was)
    ensures Exhausted(c, from, ca, mark, was0, lim)
  {
    hide NoEffect;
  }

  /** One more clause or unit is tried. */
  lemma Tried(s: Store, t: Store, ca0: seq<Clause>, queue0: seq<CRef>, queue: seq<CRef>, queue1: seq<CRef>,
              queue2: seq<CRef>, lo: nat, hi: nat, hi': nat, c: Clause, from: Option<CRef>, lim: int)
    requires Saturates(s, ca0, queue0, queue, lo, hi, lim) && Shrunk(s, t) && s.units <= t.units && NoLonger(ca0, s.ca)
    requires hi <= |s.units|
    requires Exhausted(c, from, t.ca, t.mark, s.ca, lim) && Requeued(s.ca, queue1, t.ca, t.mark, queue2)
    requires if queue == [] then queue1 == [] && hi' == hi + 1 && from == None && hi < |s.units| && c == [s.units[hi]]
             else queue1 == queue[1..] && hi' == hi && from == Some(queue[0])
    requires from.Some? ==> Alive(t.ca, t.mark, from.value) && t.ca[from.value] == c
    ensures Saturates(t, ca0, queue0, queue2, lo, hi', lim)
  {
    hide Exhausted, NoLonger, Within;
    ExhaustedSooner(c, from, t.ca, t.mark, s.ca, ca0, lim);
    forall k: CRef | Alive(t.ca, t.mark, k) && k < |ca0| && (k in queue0 || t.ca[k] != ca0[k]) && k !in queue2
      ensures Exhausted(t.ca[k], Some(k), t.ca, t.mark, ca0, lim) {
      assert Alive(s.ca, s.mark, k) && t.ca[k] == s.ca[k] && k !in queue1;
      if Some(k) != from {
        assert k !in queue by { if queue != [] { assert queue == [queue[0]] + queue[1..]; } }
        ExhaustedKeeps(s.ca[k], Some(k), s, t, ca0, lim);
      }
    }
    forall i | lo <= i < hi' && i < |t.units| ensures Exhausted([t.units[i]], None, t.ca, t.mark, ca0, lim) {
      if i < hi && i < |s.units| { ExhaustedKeeps([s.units[i]], None, s, t, ca0, lim); }
    }
  }

  /** Clauses as long as the limit are left alone. */
  ghost predicate LongKept(s: Store, t: Store, lim: int) {
    |s.ca| == |s.mark| == |t.ca| == |t.mark| && forall k {:trigger t.ca[k]} {:trigger t.mark[k]} ::
      0 <= k < |s.ca| && lim != -1 && |s.ca[k]| >= lim ==> t.ca[k] == s.ca[k] && t.mark[k] == s.mark[k]
  }

  lemma LongNone(s: Store, lim: int)
    ensures |s.ca| == |s.mark| ==> LongKept(s, s, lim)
  {
  }

  lemma LongTrans(s: Store, t: Store, u: Store, lim: int)
    requires LongKept(s, t, lim) && LongKept(t, u, lim)
    ensures LongKept(s, u, lim)
  {
    forall k | 0 <= k < |s.ca| && lim != -1 && |s.ca[k]| >= lim
      ensures u.ca[k] == s.ca[k] && u.mark[k] == s.mark[k]
    {
      assert t.ca[k] == s.ca[k];
    }
  }

  /** The clauses from number `n` on are queued and their variables are touched, beside what was before. */
  ghost predicate Collects(ca: seq<Clause>, queue: seq<CRef>, touched: set<Var>, queue0: seq<CRef>,
                           touched0: set<Var>, n: nat) {
    && queue0 <= queue && touched0 <= touched
    && forall cr: CRef :: n <= cr < |ca| ==> cr in queue && VarsOf(ca[cr]) <= touched
  }

  lemma ReducedParts(s: Store, t: Store, frozen: set<Var>, eliminated: seq<bool>)
    requires Reduced(s, t, frozen, eliminated)
    ensures NoLonger(s.ca, t.ca) && s.heap <= t.heap && StaysOpen(frozen, eliminated, s.assigns, eliminated, t.assigns)
    ensures Queued(s.ca, s.mark, t.ca, t.mark, t.heap, frozen, eliminated, t.assigns)
  {
  }

  lemma ReducedShrunk(s: Store, t: Store, frozen: set<Var>, eliminated: seq<bool>)
    requires Reduced(s, t, frozen, eliminated)
    ensures Shrunk(s, t) && NoLonger(s.ca, t.ca) && |s.ca| == |s.mark| == |t.ca| == |t.mark| && s.heap <= t.heap
    ensures s.units <= t.units
  {
  }

  /** Every live clause with `best` on which `c` has something to do comes in the list from `j` on. */
  ghost predicate LeftOver(c: Clause, from: Option<CRef>, ca: seq<Clause>, mark: seq<bool>, was: seq<Clause>, lim: int,
                           cs: seq<CRef>, j: nat, best: Var) {
    j <= |cs| && forall k: CRef {:trigger Alive(ca, mark, k)} :: Alive(ca, mark, k) ==>
      Idle(c, from, ca, was, lim, k) || !HasVar(ca[k], best) || k in cs[j..]
  }

  ghost predicate Idle(c: Clause, from: Option<CRef>, ca: seq<Clause>, was: seq<Clause>, lim: int, k: CRef) {
    k < |ca| && k < |was| && (Some(k) == from || (lim != -1 && |was[k]| >= lim) || NoEffect(c, ca[k]))
  }

  lemma LeftAll(c: Clause, from: Option<CRef>, ca: seq<Clause>, mark: seq<bool>, was: seq<Clause>, lim: int,
                cs: seq<CRef>, best: Var)
    requires forall k: CRef :: k in cs <==> Alive(ca, mark, k) && HasVar(ca[k], best)
    ensures LeftOver(c, from, ca, mark, was, lim, cs, 0, best)
  {
    hide Idle, HasVar;
    assert cs[0..] == cs;
  }

  lemma LeftNothing(c: Clause, from: Option<CRef>, ca: seq<Clause>, mark: seq<bool>, was: seq<Clause>, lim: int,
                    cs: seq<CRef>, best: Var)
    requires LeftOver(c, from, ca, mark, was, lim, cs, |cs|, best) && HasVar(c, best)
    ensures Exhausted(c, from, ca, mark, was, lim)
  {
    hide HasVar, NoEffect;
    forall k: CRef | Alive(ca, mark, k) && Some(k) != from && k < |was| && (lim == -1 || |was[k]| < lim)
      ensures NoEffect(c, ca[k]) {
      if !HasVar(ca[k], best) { WithoutVarNoEffect(c, ca[k], best); }
    }
  }

  /** Candidate `j` is settled. */
  lemma LeftLess(c: Clause, from: Option<CRef>, ca0: seq<Clause>, mark0: seq<bool>, ca: seq<Clause>, mark: seq<bool>,
                 was: seq<Clause>, lim: int, cs: seq<CRef>, j: nat, best: Var)
    requires LeftOver(c, from, ca0, mark0, was, lim, cs, j, best) && j < |cs|
    requires |ca| == |mark| == |ca0| == |mark0|
      && forall k: CRef :: k < |ca| && k != cs[j] ==> ca[k] == ca0[k] && mark[k] == mark0[k]
    requires Alive(ca, mark, cs[j]) ==> Idle(c, from, ca, was, lim, cs[j])
    ensures LeftOver(c, from, ca, mark, was, lim, cs, j + 1, best)
  {
    hide HasVar, NoEffect;
    assert cs[j..] == [cs[j]] + cs[j + 1..];
    forall k: CRef | Alive(ca, mark, k)
      ensures Idle(c, from, ca, was, lim, k) || !HasVar(ca[k], best) || k in cs[j + 1..] {
      if k != cs[j] { assert Alive(ca0, mark0, k); }
    }
  }

  /** Candidate `j` was deleted and stays in the list. */
  lemma LeftSame(c: Clause, from: Option<CRef>, ca0: seq<Clause>, mark0: seq<bool>, ca: seq<Clause>, mark: seq<bool>,
                 was: seq<Clause>, lim: int, cs: seq<CRef>, j: nat, best: Var)
    requires LeftOver(c, from, ca0, mark0, was, lim, cs, j, best) && j < |cs|
    requires |ca| == |mark| == |ca0| == |mark0|
      && forall k: CRef :: k < |ca| && k != cs[j] ==> ca[k] == ca0[k] && mark[k] == mark0[k]
    requires !Alive(ca, mark, cs[j])
    ensures LeftOver(c, from, ca, mark, was, lim, cs, j, best)
  {
    hide HasVar, NoEffect;
    forall k: CRef | Alive(ca, mark, k)
      ensures Idle(c, from, ca, was, lim, k) || !HasVar(ca[k], best) || k in cs[j..] {
      assert k != cs[j];
      assert Alive(ca0, mark0, k);
    }
  }

  /** Candidate `j` is settled and has left the list. */
  lemma LeftGone(c: Clause, from: Option<CRef>, ca0: seq<Clause>, mark0: seq<bool>, ca: seq<Clause>, mark: seq<bool>,
                 was: seq<Clause>, lim: int, cs: seq<CRef>, j: nat, best: Var)
    requires LeftOver(c, from, ca0, mark0, was, lim, cs, j, best) && j < |cs|
    requires |ca| == |mark| == |ca0| == |mark0|
      && forall k: CRef :: k < |ca| && k != cs[j] ==> ca[k] == ca0[k] && mark[k] == mark0[k]
    requires Alive(ca, mark, cs[j]) ==> Idle(c, from, ca, was, lim, cs[j])
    ensures LeftOver(c, from, ca, mark, was, lim, cs[..j] + cs[j + 1..], j, best)
  {
    LeftLess(c, from, ca0, mark0, ca, mark, was, lim, cs, j, best);
    assert (cs[..j] + cs[j + 1..])[j..] == cs[j + 1..];
  }

  lemma UnitProper(c: Clause)
    requires |c| == 1
    ensures Proper(c)
  {
  }

  lemma ProperAt(ca: seq<Clause>, mark: seq<bool>, eliminated: seq<bool>, cr: CRef)
    requires DbShape(ca, mark, eliminated) && Alive(ca, mark, cr)
    ensures Proper(ca[cr]) && |ca[cr]| >= 2
  {
  }

  lemma RequeuedDeleted(ca: seq<Clause>, mark: seq<bool>, cr: CRef, queue: seq<CRef>)
    requires |ca| == |mark| && cr < |ca|
    ensures Requeued(ca, queue, ca, mark[cr := true], queue)
  {
  }

  lemma RequeuedShortened(ca0: seq<Clause>, queue: seq<CRef>, ca: seq<Clause>, mark: seq<bool>, cr: CRef)
    requires |ca0| == |ca| && forall k: CRef :: k < |ca| && k != cr ==> ca[k] == ca0[k]
    ensures Requeued(ca0, queue, ca, mark, queue + [cr])
  {
  }

  /** The clause was looked at: it is dead, the source itself, too long, or unrelated. */
  lemma SettledIdle(c: Clause, from: Option<CRef>, ca: seq<Clause>, mark: seq<bool>, was: seq<Clause>, lim: int,
                    cr: CRef)
    requires cr < |ca| == |mark| == |was| && NoLonger(was, ca)
    requires mark[cr] || Some(cr) == from || (lim != -1 && |ca[cr]| >= lim) || NoEffect(c, ca[cr])
    ensures Alive(ca, mark, cr) ==> Idle(c, from, ca, was, lim, cr)
  {
    hide NoEffect;
  }

  lemma StrengthenedIdle(c: Clause, from: Option<CRef>, d: Clause, x: Lit, ca: seq<Clause>, mark: seq<bool>,
                         was: seq<Clause>, lim: int, cr: CRef)
    requires cr < |ca| == |mark| == |was| && Proper(c) && Proper(d) && FlippedWithin(c, d, x.Not())
    requires mark[cr] || forall l :: l in ca[cr] <==> l in d && l != x
    ensures Alive(ca, mark, cr) ==> Idle(c, from, ca, was, lim, cr)
  {
    hide NoEffect, FlippedWithin, Proper;
    if !mark[cr] { StrengthenedNoEffect(c, d, x, ca[cr]); }
  }

  lemma ListUnique(ca: seq<Clause>, mark: seq<bool>, occurs: Occurs, v: Var)
    requires OccursOk(ca, mark, occurs)
    ensures NoDup(Occ(occurs, v))
  {
    assert ListOk(ca, mark, Occ(occurs, v), v);
  }

  /** One clause is deleted and its variables are in the heap. */
  lemma DeletedReduced(s: Store, cr: CRef, t: Store, frozen: set<Var>, eliminated: seq<bool>)
    requires |s.ca| == |s.mark| == |t.ca| && cr < |s.ca| && t.mark == s.mark[cr := true] && NoLonger(s.ca, t.ca)
    requires t.units == s.units && t.assigns == s.assigns && s.heap <= t.heap
    requires forall k: CRef :: k < |s.ca| && k != cr ==> t.ca[k] == s.ca[k]
    requires forall l :: l in s.ca[cr] && Open(l.v, frozen, eliminated, t.assigns) ==> l.v in t.heap
    ensures Reduced(s, t, frozen, eliminated)
  {
    hide Open;
  }

  /** One clause loses a literal whose variable is in the heap. */
  lemma ShortenedReduced(s: Store, cr: CRef, d: Clause, x: Lit, t: Store, frozen: set<Var>, eliminated: seq<bool>)
    requires |s.ca| == |s.mark| && Alive(s.ca, s.mark, cr) && t.mark == s.mark && t.ca == s.ca[cr := d]
    requires |d| <= |s.ca[cr]| && forall l :: l in d <==> l in s.ca[cr] && l != x
    requires t.units == s.units && t.assigns == s.assigns && s.heap <= t.heap
    requires Open(x.v, frozen, eliminated, t.assigns) ==> x.v in t.heap
    ensures Reduced(s, t, frozen, eliminated)
  {
    hide Open;
  }

  /** Only units were added. */
  lemma UnitsReduced(s: Store, t: Store, frozen: set<Var>, eliminated: seq<bool>)
    requires |s.ca| == |s.mark| && t.ca == s.ca && t.mark == s.mark && s.units <= t.units && t.heap == s.heap
    requires StaysOpen(frozen, eliminated, s.assigns, eliminated, t.assigns)
    ensures Reduced(s, t, frozen, eliminated)
  {
    hide Open;
    NoLongerSelf(s.ca);
  }

  lemma {:induction false} WithoutRefAt(cs: seq<CRef>, j: nat)
    requires NoDup(cs) && j < |cs|
    ensures WithoutRef(cs, cs[j]) == cs[..j] + cs[j + 1..]
    decreases |cs|
  {
    if j > 0 {
      WithoutRefAt(cs[1..], j - 1);
      assert cs[1..][..j - 1] == cs[..j][1..] && cs[1..][j..] == cs[j + 1..];
      assert cs[..j] == [cs[0]] + cs[..j][1..];
    }
  }

  lemma RemovedQueued(ca: seq<Clause>, mark0: seq<bool>, mark: seq<bool>, cls: seq<CRef>, heap: set<Var>,
                      frozen: set<Var>, eliminated: seq<bool>, assigns: seq<LBool>)
    requires |mark| == |mark0| == |ca| && forall k :: 0 <= k < |mark| ==> (mark[k] <==> mark0[k] || k in cls)
    requires forall cr, l {:trigger l in ca[cr]} :: cr in cls && cr < |ca| && l in ca[cr] ==>
      Open(l.v, frozen, eliminated, assigns) ==> l.v in heap
    ensures Queued(ca, mark0, ca, mark, heap, frozen, eliminated, assigns)
  {
    hide Open;
  }

  lemma ElimCloses(e0: seq<bool>, v: Var, a0: seq<LBool>, a: seq<LBool>, frozen: set<Var>)
    requires v < |e0| && StaysOpen(frozen, e0[v := true], a0, e0[v := true], a)
    ensures StaysOpen(frozen, e0, a0, e0[v := true], a)
  {
    forall x: Var | Open(x, frozen, e0[v := true], a) ensures Open(x, frozen, e0, a0) {
      assert Open(x, frozen, e0[v := true], a0);
    }
  }

  /** Clauses and units that are added later leave the heap as it must be. */
  lemma PrefixQueued(ca0: seq<Clause>, mark0: seq<bool>, rest: seq<bool>, ca: seq<Clause>, mark: seq<bool>,
                     heap: set<Var>, frozen: set<Var>, eliminated: seq<bool>, a0: seq<LBool>, a: seq<LBool>)
    requires Queued(ca0, mark0, ca0, rest, heap, frozen, eliminated, a0) && ca0 <= ca && rest <= mark
    requires StaysOpen(frozen, eliminated, a0, eliminated, a)
    ensures Queued(ca0, mark0, ca, mark, heap, frozen, eliminated, a)
  {
    hide Open;
  }

  // ---------- the history of an elimination ----------

  datatype View = View(store: Store, occurs: Occurs, eliminated: seq<bool>)

  /** One step: a variable is taken from the heap and tried, or clauses are subsumed. */
  datatype Act = Try(v: Var) | Settle

  ghost function Cls(s: View, v: Var): seq<CRef> { LiveRefs(s.store.mark, Occ(s.occurs, v)) }

  /** Eliminating `v` gives few enough and short enough resolvents. */
  ghost predicate Worth(s: View, v: Var, grow: int, lim: int) { Worthwhile(s.store.ca, Cls(s, v), v, grow, lim) }

  ghost predicate SameLists(s: View, t: View) { forall u: Var :: Cls(t, u) == Cls(s, u) }

  ghost predicate MayTry(s: View, v: Var, frozen: set<Var>) { Open(v, frozen, s.eliminated, s.store.assigns) }

  /** An open variable is eliminated exactly if that is worthwhile; then the variables that lost an
      occurrence are in the heap.  Otherwise the variable only leaves the heap. */
  ghost predicate TryLink(s: View, v: Var, t: View, frozen: set<Var>, grow: int, lim: int) {
    && v in s.store.heap
    && if MayTry(s, v, frozen) && Worth(s, v, grow, lim) then
         && t.eliminated == s.eliminated[v := true] && s.store.heap - {v} <= t.store.heap
         && Queued(s.store.ca, s.store.mark, t.store.ca, t.store.mark, t.store.heap, frozen, t.eliminated,
           t.store.assigns)
       else t.store == s.store.(heap := s.store.heap - {v}) && t.eliminated == s.eliminated && SameLists(s, t)
  }

  ghost predicate Link(s: View, act: Act, t: View, frozen: set<Var>, grow: int, lim: int) {
    match act
    case Try(v) => TryLink(s, v, t, frozen, grow, lim)
    case Settle => t.eliminated == s.eliminated && Reduced(s.store, t.store, frozen, s.eliminated)
  }

  /** `run` leads from `s` to `t` by the steps `acts`. */
  ghost predicate Linked(s: View, run: seq<View>, acts: seq<Act>, t: View, frozen: set<Var>, grow: int, lim: int) {
    && |run| == |acts| + 1 && run[0] == s && run[|acts|] == t
    && forall i {:trigger acts[i]} :: 0 <= i < |acts| ==> Link(run[i], acts[i], run[i + 1], frozen, grow, lim)
  }

  lemma LinkedNone(s: View, frozen: set<Var>, grow: int, lim: int)
    ensures Linked(s, [s], [], s, frozen, grow, lim)
  {
  }

  lemma LinkedSize(s: View, run: seq<View>, acts: seq<Act>, t: View, frozen: set<Var>, grow: int, lim: int)
    requires Linked(s, run, acts, t, frozen, grow, lim)
    ensures |run| == |acts| + 1
  {
  }

  lemma LinkedMore(s: View, run: seq<View>, acts: seq<Act>, t: View, act: Act, u: View, frozen: set<Var>, grow: int,
                   lim: int)
    requires Linked(s, run, acts, t, frozen, grow, lim) && Link(t, act, u, frozen, grow, lim)
    ensures Linked(s, run + [u], acts + [act], u, frozen, grow, lim)
  {
    hide Link;
    var run', acts' := run + [u], acts + [act];
    forall i | 0 <= i < |acts'| ensures Link(run'[i], acts'[i], run'[i + 1], frozen, grow, lim) {
      if i < |acts| { assert acts[i] == acts'[i]; }
    }
  }

  lemma LinkedTrans(s: View, run: seq<View>, acts: seq<Act>, t: View, run2: seq<View>, acts2: seq<Act>, u: View,
                    frozen: set<Var>, grow: int, lim: int)
    requires Linked(s, run, acts, t, frozen, grow, lim) && Linked(t, run2, acts2, u, frozen, grow, lim)
    ensures Linked(s, run + run2[1..], acts + acts2, u, frozen, grow, lim)
  {
    hide Link;
    var run', acts' := run + run2[1..], acts + acts2;
    forall i | 0 <= i < |acts'| ensures Link(run'[i], acts'[i], run'[i + 1], frozen, grow, lim) {
      if i < |acts| { assert acts[i] == acts'[i]; } else { assert acts2[i - |acts|] == acts'[i]; }
    }
  }

  ghost predicate OnlyTries(acts: seq<Act>) { forall i :: 0 <= i < |acts| ==> acts[i].Try? }

  /** Every variable that was in the heap at the start of an uninterrupted run has been tried. */
  lemma {:induction false} HeapTried(s: View, run: seq<View>, acts: seq<Act>, t: View, frozen: set<Var>, grow: int,
                                     lim: int, v: Var)
    requires Linked(s, run, acts, t, frozen, grow, lim) && v in s.store.heap && v !in t.store.heap
    ensures Try(v) in acts
    decreases |acts|
  {
    hide Queued, Worth, MayTry, SameLists, Shrunk, StaysOpen;
    assert |acts| > 0;
    var act := acts[0];
    assert Link(s, act, run[1], frozen, grow, lim);
    if act != Try(v) {
      LinkedRest(s, run, acts, t, frozen, grow, lim);
      HeapTried(run[1], run[1..], acts[1..], t, frozen, grow, lim, v);
      assert acts == [acts[0]] + acts[1..];
    }
  }

  lemma LinkedRest(s: View, run: seq<View>, acts: seq<Act>, t: View, frozen: set<Var>, grow: int, lim: int)
    requires Linked(s, run, acts, t, frozen, grow, lim) && |acts| > 0
    ensures Linked(run[1], run[1..], acts[1..], t, frozen, grow, lim) && Link(s, acts[0], run[1], frozen, grow, lim)
  {
    hide Link;
    var run', acts' := run[1..], acts[1..];
    forall i | 0 <= i < |acts'| ensures Link(run'[i], acts'[i], run'[i + 1], frozen, grow, lim) {
      assert acts[i + 1] == acts'[i];
    }
  }

  /** What is eliminated stays so. */
  lemma {:induction false} ElimStays(s: View, run: seq<View>, acts: seq<Act>, t: View, frozen: set<Var>, grow: int,
                                     lim: int, v: Var)
    requires Linked(s, run, acts, t, frozen, grow, lim) && v < |s.eliminated| && s.eliminated[v]
    ensures v < |t.eliminated| && t.eliminated[v]
    decreases |acts|
  {
    hide Queued, Worth, SameLists, Shrunk, StaysOpen;
    if |acts| > 0 {
      LinkedRest(s, run, acts, t, frozen, grow, lim);
      ElimStays(run[1], run[1..], acts[1..], t, frozen, grow, lim, v);
    }
  }

  /** If tries eliminate nothing, no variable that has left the heap was open and worthwhile, and it is
      not worthwhile now. */
  lemma {:induction false} NothingWorth(s: View, run: seq<View>, acts: seq<Act>, t: View, frozen: set<Var>, grow: int,
                                        lim: int)
    requires Linked(s, run, acts, t, frozen, grow, lim) && OnlyTries(acts) && t.eliminated == s.eliminated
    ensures t.store == s.store.(heap := t.store.heap) && SameLists(s, t)
    ensures forall v :: v in s.store.heap && v !in t.store.heap && MayTry(t, v, frozen) ==> !Worth(t, v, grow, lim)
    decreases |acts|
  {
    hide Queued, Worthwhile, Open, Cls;
    if |acts| > 0 {
      LinkedRest(s, run, acts, t, frozen, grow, lim);
      var v := acts[0].v;
      if MayTry(s, v, frozen) && Worth(s, v, grow, lim) {
        OpenIs(s, v, frozen);
        ElimStays(run[1], run[1..], acts[1..], t, frozen, grow, lim, v);
        assert false;
      }
      NothingWorth(run[1], run[1..], acts[1..], t, frozen, grow, lim);
    }
  }

  lemma OpenIs(s: View, v: Var, frozen: set<Var>)
    requires MayTry(s, v, frozen)
    ensures v < |s.eliminated| && !s.eliminated[v]
  {
  }

  lemma {:induction false} LiveTwice(mark: seq<bool>, cs: seq<CRef>)
    ensures LiveRefs(mark, LiveRefs(mark, cs)) == LiveRefs(mark, cs)
    decreases |cs|
  {
    if |cs| > 0 {
      var rest := LiveRefs(mark, cs[..|cs| - 1]);
      LiveTwice(mark, cs[..|cs| - 1]);
      var cr := cs[|cs| - 1];
      if cr < |mark| && !mark[cr] { assert (rest + [cr])[..|rest|] == rest; }
    }
  }

  /** Cleaning a list does not change which live clauses it has. */
  lemma CleanSame(mark: seq<bool>, occurs: Occurs, v: Var)
    ensures var cleaned := occurs[v := LiveRefs(mark, Occ(occurs, v))];
      forall u: Var :: LiveRefs(mark, Occ(cleaned, u)) == LiveRefs(mark, Occ(occurs, u))
  {
    LiveTwice(mark, Occ(occurs, v));
  }

  /** A longer list of units leaves fewer variables open. */
  lemma UnitsClose(u0: seq<Lit>, a0: seq<LBool>, u: seq<Lit>, a: seq<LBool>, eliminated: seq<bool>, frozen: set<Var>)
    requires UnitShape(u0, a0, eliminated) && UnitShape(u, a, eliminated) && u0 <= u
    ensures StaysOpen(frozen, eliminated, a0, eliminated, a)
  {
    forall v: Var | v < |a0| && a0[v] != LUndef ensures a[v] != LUndef {
      assert Lit(v, a0[v] == LFalse) in u0 && Lit(v, a0[v] == LFalse) in u;
    }
  }

  ghost predicate TouchedBy(c: Clause, vs: set<Var>) { exists l :: l in c && l.v in vs }

  lemma TouchedMore(c: Clause, vs: set<Var>, v: Var)
    ensures TouchedBy(c, vs + {v}) <==> TouchedBy(c, vs) || HasVar(c, v)
  {
  }

  lemma ClauseVars(ca: seq<Clause>, mark: seq<bool>, units: seq<Lit>, assigns: seq<LBool>, eliminated: seq<bool>,
                   cr: CRef)
    requires DbShape(ca, mark, eliminated) && UnitShape(units, assigns, eliminated) && Alive(ca, mark, cr)
    ensures |assigns| == |eliminated| && forall l :: l in ca[cr] ==> l.v < |eliminated|
  {
    assert Usable(eliminated, ca[cr]);
  }

  /** How many variables are not eliminated. */
  ghost function Left(eliminated: seq<bool>): nat {
    if |eliminated| == 0 then 0
    else Left(eliminated[..|eliminated| - 1]) + if eliminated[|eliminated| - 1] then 0 else 1
  }

  lemma {:induction false} LeftDrop(eliminated: seq<bool>, v: Var)
    requires v < |eliminated| && !eliminated[v]
    ensures Left(eliminated[v := true]) == Left(eliminated) - 1
  {
    var e := eliminated[v := true];
    if v < |eliminated| - 1 {
      LeftDrop(eliminated[..|eliminated| - 1], v);
      assert e[..|e| - 1] == eliminated[..|eliminated| - 1][v := true];
    } else {
      assert e[..|e| - 1] == eliminated[..|eliminated| - 1];
    }
  }

  /** More variables are eliminated, none of them frozen. */
  ghost predicate Eliminates(before: seq<bool>, after: seq<bool>, frozen: set<Var>) {
    && |before| == |after| && Left(after) <= Left(before) && (after != before ==> Left(after) < Left(before))
    && forall v :: 0 <= v < |before| ==> (before[v] ==> after[v]) && (v in frozen ==> after[v] == before[v])
  }

  lemma EliminatesNone(e: seq<bool>, frozen: set<Var>)
    ensures Eliminates(e, e, frozen)
  {
  }

  lemma EliminatesTrans(a: seq<bool>, b: seq<bool>, c: seq<bool>, frozen: set<Var>)
    requires Eliminates(a, b, frozen) && Eliminates(b, c, frozen)
    ensures Eliminates(a, c, frozen) && (c != b ==> Left(c) < Left(b)) && Left(c) <= Left(b) && |c| == |b|
    ensures c == a ==> b == a
  {
    hide Left;
  }

  lemma EliminatesSame(a: seq<bool>, b: seq<bool>, frozen: set<Var>)
    requires Eliminates(a, b, frozen)
    ensures |a| == |b|
  {
  }

  lemma EliminatesOne(a: seq<bool>, b: seq<bool>, c: seq<bool>, frozen: set<Var>, v: Var)
    requires Eliminates(a, b, frozen) && v < |b| && !b[v] && v !in frozen && (c == b || c == b[v := true])
    ensures Eliminates(a, c, frozen) && |c| == |b| && Left(c) <= Left(b) && (c[v] ==> Left(c) < Left(b))
      && (c == a ==> c == b)
  {
    hide Left;
    LeftDrop(b, v);
  }

  /** The clauses from `n` on are not longer than the limit; -1 is no limit. */
  ghost predicate ShortFrom(ca: seq<Clause>, n: nat, lim: int) {
    lim != -1 ==> forall k :: n <= k < |ca| ==> |ca[k]| <= lim
  }

  /** No clause has become longer. */
  ghost predicate NoLonger(before: seq<Clause>, after: seq<Clause>) {
    |before| == |after| && forall k :: 0 <= k < |after| ==> |after[k]| <= |before[k]|
  }

  lemma NoLongerSelf(ca: seq<Clause>)
    ensures NoLonger(ca, ca)
  {
  }

  lemma NoLongerTrans(a: seq<Clause>, b: seq<Clause>, c: seq<Clause>)
    requires NoLonger(a, b) && NoLonger(b, c)
    ensures NoLonger(a, c)
  {
  }

  lemma ShortStays(before: seq<Clause>, after: seq<Clause>, n: nat, lim: int)
    requires NoLonger(before, after)
    ensures ShortFrom(before, n, lim) ==> ShortFrom(after, n, lim)
  {
  }

  lemma ShortNone(ca: seq<Clause>, lim: int)
    ensures ShortFrom(ca, |ca|, lim)
  {
  }

  /** One more resolvent within the size limit. */
  lemma ShortMore(ca0: seq<Clause>, ca1: seq<Clause>, ca: seq<Clause>, p: CRef, neg: seq<CRef>, j: nat, v: Var,
                  lim: int, r: Clause)
    requires p < |ca0| && j < |neg| && neg[j] < |ca0| && ca0 <= ca1 <= ca && |ca| <= |ca1| + 1
    requires !Clashes(ca0[p], ca0[neg[j]], v) && |r| == |ResolventSet(ca0[p], ca0[neg[j]], v)|
    requires |ca| > |ca1| ==> |ca[|ca1|]| <= |r|
    requires RowFits(ca0, p, neg, v, lim) ==> ShortFrom(ca1, |ca0|, lim)
    ensures RowFits(ca0, p, neg, v, lim) ==> ShortFrom(ca, |ca0|, lim)
  {
    if RowFits(ca0, p, neg, v, lim) {
      assert neg[j] in neg && Fits(ca0, p, neg[j], v, lim);
      forall k | |ca0| <= k < |ca| && lim != -1 ensures |ca[k]| <= lim {
        if k < |ca1| { assert ca[k] == ca1[k]; }
      }
    }
  }

  lemma ShortRow(ca0: seq<Clause>, ca1: seq<Clause>, ca: seq<Clause>, pos: seq<CRef>, i: nat, neg: seq<CRef>, v: Var,
                 lim: int)
    requires i < |pos| && ca0 <= ca1 <= ca && pos[i] < |ca0| && forall n :: n in neg ==> n < |ca0|
    requires AllFit(ca0, pos, neg, v, lim) && ShortFrom(ca1, |ca0|, lim)
    requires RowFits(ca1, pos[i], neg, v, lim) ==> ShortFrom(ca, |ca1|, lim)
    ensures ShortFrom(ca, |ca0|, lim)
  {
    hide Clashes, ResolventSet;
    assert RowFits(ca0, pos[i], neg, v, lim);
    forall n | n in neg ensures Fits(ca1, pos[i], n, v, lim) { assert Fits(ca0, pos[i], n, v, lim); }
    forall k | |ca0| <= k < |ca| && lim != -1 ensures |ca[k]| <= lim {
      if k < |ca1| { assert ca[k] == ca1[k]; }
    }
  }

  /** The clauses of `cls` with the positive literal of `v`, and the others. */
  ghost function Positive(ca: seq<Clause>, cls: seq<CRef>, v: Var): seq<CRef> {
    if |cls| == 0 then []
    else
      var cr := cls[|cls| - 1];
      Positive(ca, cls[..|cls| - 1], v) + if cr < |ca| && Lit(v, false) in ca[cr] then [cr] else []
  }

  ghost function Negative(ca: seq<Clause>, cls: seq<CRef>, v: Var): seq<CRef> {
    if |cls| == 0 then []
    else
      var cr := cls[|cls| - 1];
      Negative(ca, cls[..|cls| - 1], v) + if cr < |ca| && Lit(v, false) in ca[cr] then [] else [cr]
  }

  /** Eliminating `v`, which occurs in `cls`, gives few enough and short enough resolvents. */
  ghost predicate Worthwhile(ca: seq<Clause>, cls: seq<CRef>, v: Var, grow: int, lim: int) {
    var n := Resolvents(ca, Positive(ca, cls, v), Negative(ca, cls, v), v);
    (n == 0 || n <= |cls| + grow) && AllFit(ca, Positive(ca, cls, v), Negative(ca, cls, v), v, lim)
  }

  /** The resolvent of the two clauses is a tautology or not longer than the limit; -1 is no limit. */
  ghost predicate Fits(ca: seq<Clause>, p: CRef, n: CRef, v: Var, lim: int) {
    p < |ca| && n < |ca| && !Clashes(ca[p], ca[n], v) && lim != -1 ==> |ResolventSet(ca[p], ca[n], v)| <= lim
  }

  ghost predicate RowFits(ca: seq<Clause>, p: CRef, neg: seq<CRef>, v: Var, lim: int) {
    forall n :: n in neg ==> Fits(ca, p, n, v, lim)
  }

  ghost predicate AllFit(ca: seq<Clause>, pos: seq<CRef>, neg: seq<CRef>, v: Var, lim: int) {
    forall p :: p in pos ==> RowFits(ca, p, neg, v, lim)
  }

  lemma RowDone(ca: seq<Clause>, p: CRef, neg: seq<CRef>, v: Var, lim: int)
    requires forall k :: 0 <= k < |neg| ==> Fits(ca, p, neg[k], v, lim)
    ensures RowFits(ca, p, neg, v, lim)
  {
    hide Fits;
  }

  lemma {:induction false} RowPrefix(ca: seq<Clause>, p: CRef, neg: seq<CRef>, j: nat, v: Var)
    requires j <= |neg|
    ensures RowCount(ca, p, neg[..j], v) <= RowCount(ca, p, neg, v)
  {
    hide Clashes;
    if j == |neg| { assert neg[..j] == neg; }
    else {
      var front := neg[..|neg| - 1];
      RowPrefix(ca, p, front, j, v);
      assert front[..j] == neg[..j];
    }
  }

  lemma {:induction false} ResolventsPrefix(ca: seq<Clause>, pos: seq<CRef>, i: nat, neg: seq<CRef>, v: Var)
    requires i <= |pos|
    ensures Resolvents(ca, pos[..i], neg, v) <= Resolvents(ca, pos, neg, v)
  {
    hide RowCount;
    if i == |pos| { assert pos[..i] == pos; }
    else {
      var front := pos[..|pos| - 1];
      ResolventsPrefix(ca, front, i, neg, v);
      assert front[..i] == pos[..i];
    }
  }

  lemma FrontFirst(c: Clause, k: nat, x: Lit)
    requires Proper(c) && k < |c| && c[k] == x
    ensures var d := c[0 := c[k]][k := c[0]];
      SameLits(d, c) && StartsWith(d, x)
  {
    var d := c[0 := c[k]][k := c[0]];
    forall l | l in c ensures l in d {
      var m :| 0 <= m < |c| && c[m] == l;
      assert d[if m == 0 then k else if m == k then 0 else m] == l;
    }
    forall m | 1 <= m < |d| ensures d[m].v != x.v {
      var m' := if m == k then 0 else m;
      assert d[m] == c[m'];
      if c[m'].v == x.v { OneLiteral(c, k, c[m']); }
    }
  }

  lemma StoreNone(ca: seq<Clause>, x: Lit)
    ensures StoresSide([], ca, [], x)
  {
  }

  lemma StoreMore(stored: seq<Clause>, ca: seq<Clause>, side: seq<CRef>, i: nat, x: Lit, c: Clause)
    requires i < |side| && StoresSide(stored, ca, side[..i], x) && side[i] < |ca| && SameLits(c, ca[side[i]])
      && StartsWith(c, x)
    ensures StoresSide(stored + [c], ca, side[..i + 1], x)
  {
    var stored', side' := stored + [c], side[..i + 1];
    assert side' == side[..i] + [side[i]];
    assert c in stored' && side[i] in side';
    forall d | d in stored' ensures StartsWith(d, x) { if d in stored { } }
    forall cr: CRef | cr in side' && cr < |ca| ensures IsStored(stored', ca, cr) {
      if cr in side[..i] {
        assert IsStored(stored, ca, cr);
        var d :| d in stored && SameLits(d, ca[cr]);
        assert d in stored';
      }
    }
    forall d | d in stored' ensures ComesFrom(d, ca, side') {
      if d in stored {
        assert ComesFrom(d, ca, side[..i]);
        var cr :| cr in side[..i] && cr < |ca| && SameLits(d, ca[cr]);
        assert cr in side';
      }
    }
  }

  lemma PackedUnit(x: Lit)
    ensures Packed([x]) == [ToInt(x)] + [1]
  {
  }

  /** The new constraints are the old ones and the resolvents of `pos` and `neg` (clauses of `cs`). */
  ghost predicate AddsResolvents(ca: seq<Clause>, mark: seq<bool>, units: seq<Lit>, ca': seq<Clause>, mark': seq<bool>,
                                 units': seq<Lit>,
                                 cs: seq<Clause>, pos: seq<CRef>, neg: seq<CRef>, v: Var) {
    forall a {:trigger Base(a, ca', mark', units')} {:trigger Base(a, ca, mark, units)} ::
      Base(a, ca', mark', units') <==> Base(a, ca, mark, units) && AllResolvents(a, cs, pos, neg, v)
  }

  ghost predicate RefutesResolvents(ca: seq<Clause>, mark: seq<bool>, units: seq<Lit>, cs: seq<Clause>, pos: seq<CRef>,
                                    neg: seq<CRef>, v: Var) {
    forall a {:trigger Base(a, ca, mark, units)} :: !(Base(a, ca, mark, units) && AllResolvents(a, cs, pos, neg, v))
  }

  lemma AddsNone(ca: seq<Clause>, mark: seq<bool>, units: seq<Lit>, cs: seq<Clause>, pos: seq<CRef>, v: Var)
    ensures AddsResolvents(ca, mark, units, ca, mark, units, cs, pos, [], v)
  {
  }

  lemma AddsNothing(ca: seq<Clause>, mark: seq<bool>, units: seq<Lit>, cs: seq<Clause>, neg: seq<CRef>, v: Var)
    ensures AddsResolvents(ca, mark, units, ca, mark, units, cs, [], neg, v)
  {
  }

  lemma ResolventUsable(eliminated: seq<bool>, p: Clause, q: Clause, v: Var, r: Clause)
    requires IsResolvent(r, p, q, v)
    requires forall l: Lit :: l in p && l.v != v ==> l.v < |eliminated| && !eliminated[l.v]
    requires forall l: Lit :: l in q && l.v != v ==> l.v < |eliminated| && !eliminated[l.v]
    ensures Usable(eliminated, r)
  {
  }

  lemma ResolventMeans(a: Valuation, p: Clause, q: Clause, v: Var, fine: bool, r: Clause)
    requires fine <==> !Clashes(p, q, v)
    requires fine ==> IsResolvent(r, p, q, v)
    ensures ResolventHolds(a, p, q, v) <==> !fine || Sat(a, r)
  {
    if !fine {
      var l :| l in p && l.v != v && l.Not() in q;
    } else {
      if ResolventHolds(a, p, q, v) {
        var l: Lit :| l.v != v && (l in p || l in q) && (True(a, l) || (l in p && l.Not() in q));
        assert l in r;
      }
      if Sat(a, r) {
        var l :| l in r && True(a, l);
        assert l.v != v;
      }
    }
  }

  lemma ResolventAdded(ca0: seq<Clause>, mark0: seq<bool>, units0: seq<Lit>, ca1: seq<Clause>, mark1: seq<bool>,
                       units1: seq<Lit>,
                       ca: seq<Clause>, mark: seq<bool>, units: seq<Lit>, p: CRef, neg: seq<CRef>, j: nat, v: Var,
                       fine: bool, r: Clause, good: bool)
    requires p < |ca0| && j < |neg| && neg[j] < |ca0|
    requires AddsResolvents(ca0, mark0, units0, ca1, mark1, units1, ca0, [p], neg[..j], v)
    requires fine <==> !Clashes(ca0[p], ca0[neg[j]], v)
    requires fine ==> IsResolvent(r, ca0[p], ca0[neg[j]], v)
    requires !fine ==> ca == ca1 && mark == mark1 && units == units1 && good
    requires fine && good ==> Adds(ca1, mark1, units1, ca, mark, units, r)
    requires fine && !good ==> forall a {:trigger Base(a, ca1, mark1, units1)} ::
      !(Base(a, ca1, mark1, units1) && Sat(a, r))
    ensures if good then AddsResolvents(ca0, mark0, units0, ca, mark, units, ca0, [p], neg[..j + 1], v)
            else RefutesResolvents(ca0, mark0, units0, ca0, [p], neg, v)
  {
    hide Base, Clashes, IsResolvent, Sat, ResolventHolds, AllResolvents;
    forall a
      ensures good ==> (Base(a, ca, mark, units) <==>
        Base(a, ca0, mark0, units0) && AllResolvents(a, ca0, [p], neg[..j + 1], v))
      ensures !good ==> !(Base(a, ca0, mark0, units0) && AllResolvents(a, ca0, [p], neg, v))
    {
      assert Base(a, ca1, mark1, units1) <==> Base(a, ca0, mark0, units0) && AllResolvents(a, ca0, [p], neg[..j], v);
      ResolventMeans(a, ca0[p], ca0[neg[j]], v, fine, r);
      OneMore(a, ca0, p, neg, j, v);
    }
  }

  lemma OneMore(a: Valuation, cs: seq<Clause>, p: CRef, neg: seq<CRef>, j: nat, v: Var)
    requires p < |cs| && j < |neg| && neg[j] < |cs|
    ensures AllResolvents(a, cs, [p], neg[..j + 1], v) <==>
      AllResolvents(a, cs, [p], neg[..j], v) && ResolventHolds(a, cs[p], cs[neg[j]], v)
    ensures AllResolvents(a, cs, [p], neg, v) ==> AllResolvents(a, cs, [p], neg[..j + 1], v)
  {
    hide ResolventHolds;
    assert neg[..j + 1] == neg[..j] + [neg[j]];
    assert p in [p] && neg[j] in neg[..j + 1];
    assert forall n :: n in neg[..j] ==> n in neg[..j + 1];
    if AllResolvents(a, cs, [p], neg, v) {
      forall k, n | k in [p] && n in neg[..j + 1] && k < |cs| && n < |cs| ensures ResolventHolds(a, cs[k], cs[n], v) {
        assert n in neg;
      }
    }
  }

  lemma {:induction false} RowSame(cs: seq<Clause>, ca: seq<Clause>, p: CRef, neg: seq<CRef>, v: Var)
    requires cs <= ca && p < |cs| && forall n :: n in neg ==> n < |cs|
    ensures RowCount(ca, p, neg, v) == RowCount(cs, p, neg, v)
    ensures forall a {:trigger AllResolvents(a, ca, [p], neg, v)} {:trigger AllResolvents(a, cs, [p], neg, v)} ::
      AllResolvents(a, ca, [p], neg, v) <==> AllResolvents(a, cs, [p], neg, v)
  {
    assert ca[p] == cs[p] && forall n :: n in neg ==> ca[n] == cs[n];
    RowCountSame(cs, ca, p, neg, v);
  }

  lemma {:induction false} RowCountSame(cs: seq<Clause>, ca: seq<Clause>, p: CRef, neg: seq<CRef>, v: Var)
    requires cs <= ca && p < |cs| && forall n :: n in neg ==> n < |cs|
    ensures RowCount(ca, p, neg, v) == RowCount(cs, p, neg, v)
  {
    if |neg| > 0 {
      assert neg[|neg| - 1] in neg;
      var front := neg[..|neg| - 1];
      forall n | n in front ensures n < |cs| { assert n in neg; }
      RowCountSame(cs, ca, p, neg[..|neg| - 1], v);
    }
  }

  lemma RowAdded(ca0: seq<Clause>, mark0: seq<bool>, units0: seq<Lit>, ca1: seq<Clause>, mark1: seq<bool>,
                 units1: seq<Lit>,
                 ca: seq<Clause>, mark: seq<bool>, units: seq<Lit>, pos: seq<CRef>, i: nat, neg: seq<CRef>, v: Var,
                 good: bool)
    requires i < |pos| && ca0 <= ca1 && pos[i] < |ca0| && forall n :: n in neg ==> n < |ca0|
    requires AddsResolvents(ca0, mark0, units0, ca1, mark1, units1, ca0, pos[..i], neg, v)
    requires if good then AddsResolvents(ca1, mark1, units1, ca, mark, units, ca1, [pos[i]], neg, v)
             else RefutesResolvents(ca1, mark1, units1, ca1, [pos[i]], neg, v)
    ensures if good then AddsResolvents(ca0, mark0, units0, ca, mark, units, ca0, pos[..i + 1], neg, v)
            else RefutesResolvents(ca0, mark0, units0, ca0, pos, neg, v)
  {
    hide Base, AllResolvents;
    RowSame(ca0, ca1, pos[i], neg, v);
    forall a
      ensures good ==> (Base(a, ca, mark, units) <==>
        Base(a, ca0, mark0, units0) && AllResolvents(a, ca0, pos[..i + 1], neg, v))
      ensures !good ==> !(Base(a, ca0, mark0, units0) && AllResolvents(a, ca0, pos, neg, v))
    {
      assert Base(a, ca1, mark1, units1) <==> Base(a, ca0, mark0, units0) && AllResolvents(a, ca0, pos[..i], neg, v);
      assert AllResolvents(a, ca1, [pos[i]], neg, v) <==> AllResolvents(a, ca0, [pos[i]], neg, v);
      OneRowMore(a, ca0, pos, i, neg, v);
    }
  }

  lemma OneRowMore(a: Valuation, cs: seq<Clause>, pos: seq<CRef>, i: nat, neg: seq<CRef>, v: Var)
    requires i < |pos|
    ensures AllResolvents(a, cs, pos[..i + 1], neg, v) <==>
      AllResolvents(a, cs, pos[..i], neg, v) && AllResolvents(a, cs, [pos[i]], neg, v)
    ensures AllResolvents(a, cs, pos, neg, v) ==> AllResolvents(a, cs, pos[..i + 1], neg, v)
  {
    hide ResolventHolds;
    assert pos[..i + 1] == pos[..i] + [pos[i]];
    assert forall p :: p in pos[..i + 1] <==> p in pos[..i] || p in [pos[i]];
    if AllResolvents(a, cs, pos, neg, v) {
      forall k, n | k in pos[..i + 1] && n in neg && k < |cs| && n < |cs| ensures ResolventHolds(a, cs[k], cs[n], v) {
        assert k in pos;
      }
    }
  }

  lemma SidesProper(ca: seq<Clause>, mark: seq<bool>, eliminated: seq<bool>, cls: seq<CRef>, pos: seq<CRef>,
                    neg: seq<CRef>)
    requires DbShape(ca, mark, eliminated) && (forall cr :: cr in cls ==> Alive(ca, mark, cr))
    requires forall cr :: cr in cls <==> cr in pos || cr in neg
    ensures forall cr :: cr in cls ==> cr < |ca| && Proper(ca[cr])
  {
    forall cr | cr in cls ensures cr < |ca| && Proper(ca[cr]) { assert Alive(ca, mark, cr); }
  }

  lemma ElimShapes(ca: seq<Clause>, mark: seq<bool>, rest: seq<bool>, units: seq<Lit>, assigns: seq<LBool>,
                   eliminated: seq<bool>, occurs: Occurs, cls: seq<CRef>, v: Var)
    requires DbShape(ca, mark, eliminated) && UnitShape(units, assigns, eliminated) && OccursOk(ca, mark, occurs)
    requires v < |eliminated| && assigns[v] == LUndef && |rest| == |mark|
    requires forall k :: 0 <= k < |mark| ==> (rest[k] <==> mark[k] || k in cls)
    requires forall cr: CRef :: cr in cls <==> Alive(ca, mark, cr) && HasVar(ca[cr], v)
    ensures DbShape(ca, rest, eliminated[v := true]) && UnitShape(units, assigns, eliminated[v := true])
      && OccursOk(ca, rest, occurs)
  {
    var e := eliminated[v := true];
    MarkShapes(ca, mark, rest, eliminated, occurs);
    forall cr: CRef | Alive(ca, rest, cr) ensures |ca[cr]| >= 2 && Proper(ca[cr]) && Usable(e, ca[cr]) {
      assert Alive(ca, mark, cr) && !HasVar(ca[cr], v);
      forall l | l in ca[cr] ensures l.v != v { }
    }
    forall l | l in units ensures l.v != v { assert Val(assigns, l) == LTrue; }
  }

  lemma SplitFacts(ca: seq<Clause>, mark: seq<bool>, rest: seq<bool>, eliminated: seq<bool>, cls: seq<CRef>,
                   pos: seq<CRef>, neg: seq<CRef>, v: Var)
    requires DbShape(ca, mark, eliminated) && |rest| == |mark|
    requires forall k :: 0 <= k < |mark| ==> (rest[k] <==> mark[k] || k in cls)
    requires forall cr: CRef :: cr in cls <==> Alive(ca, mark, cr) && HasVar(ca[cr], v)
    requires forall cr :: cr in cls <==> cr in pos || cr in neg
    requires forall cr :: cr in pos ==> cr < |ca| && Lit(v, false) in ca[cr]
    requires forall cr :: cr in neg ==> cr < |ca| && Lit(v, true) in ca[cr]
    ensures SplitOn(ca, mark, rest, pos, neg, v)
  {
    forall cr | cr in cls ensures Alive(ca, mark, cr) && NonTaut(ca[cr]) { assert Alive(ca, mark, cr); }
    forall cr: CRef ensures Alive(ca, rest, cr) <==> Alive(ca, mark, cr) && cr !in pos && cr !in neg { }
    forall cr: CRef | Alive(ca, rest, cr) ensures !HasVar(ca[cr], v) { assert Alive(ca, mark, cr) && cr !in cls; }
  }

  lemma NotAUnit(units: seq<Lit>, assigns: seq<LBool>, eliminated: seq<bool>, v: Var)
    requires UnitShape(units, assigns, eliminated) && v < |assigns| && assigns[v] == LUndef
    ensures !HasVar(units, v)
  {
    forall l | l in units ensures l.v != v { assert Val(assigns, l) == LTrue; }
  }

  lemma StackGrows(elim: seq<nat>, before: seq<bool>, after: seq<bool>, stored: seq<Clause>, ca: seq<Clause>,
                   mark: seq<bool>, cls: seq<CRef>, side: seq<CRef>, x: Lit)
    requires StackOk(elim, before) && StackDefined(elim, Remaining(before)) && x.v < |before| && !before[x.v]
      && after == before[x.v := true]
    requires StoresSide(stored, ca, side, x) && DbShape(ca, mark, before) && forall cr :: cr in side ==> cr in cls
    requires forall cr :: cr in cls ==> Alive(ca, mark, cr)
    ensures StackOk(elim + PackedAll(stored) + Packed([x.Not()]), after)
    ensures StackDefined(elim + PackedAll(stored) + Packed([x.Not()]), Remaining(after))
    ensures StackCovers(elim, before) ==> StackCovers(elim + PackedAll(stored) + Packed([x.Not()]), after)
  {
    hide Packed, PackedAll, StackOk, StackDefined, StackCovers, DbShape, StoresSide;
    StoredUsable(before, stored, ca, mark, cls, side, x);
    StackMono(elim, before, after);
    StackPushAll(elim, stored, after, x);
    StackPush(elim + PackedAll(stored), [x.Not()], after);
    DefinedPushAll(elim, stored, Remaining(before), x);
    assert Remaining(after) + iset{x.Not().v} == Remaining(before);
    DefinedDefault(elim + PackedAll(stored), x.Not(), Remaining(after));
    if StackCovers(elim, before) { CoversGrow(elim, before, stored, x); }
  }

  lemma StoredUsable(before: seq<bool>, stored: seq<Clause>, ca: seq<Clause>, mark: seq<bool>, cls: seq<CRef>,
                     side: seq<CRef>, x: Lit)
    requires StoresSide(stored, ca, side, x) && DbShape(ca, mark, before) && forall cr :: cr in side ==> cr in cls
    requires forall cr :: cr in cls ==> Alive(ca, mark, cr)
    ensures forall c: Clause :: c in stored ==> StartsWith(c, x) && AllIn(c, Remaining(before))
  {
    forall c: Clause | c in stored ensures StartsWith(c, x) && AllIn(c, Remaining(before)) {
      assert StartsWith(c, x) && ComesFrom(c, ca, side);
      var cr :| cr in side && cr < |ca| && SameLits(c, ca[cr]);
      assert Alive(ca, mark, cr) && Usable(before, ca[cr]);
      forall k | 0 <= k < |c| ensures c[k].v in Remaining(before) { assert c[k] in c && c[k] in ca[cr]; }
    }
  }

  lemma CoversGrow(elim: seq<nat>, before: seq<bool>, stored: seq<Clause>, x: Lit)
    requires StackCovers(elim, before) && x.v < |before| && forall c :: c in stored ==> StartsWith(c, x)
    ensures StackCovers(elim + PackedAll(stored) + Packed([x.Not()]), before[x.v := true])
  {
    hide Packed, PackedAll, StackVars;
    VarsPushAll(elim, stored);
    VarsPush(elim + PackedAll(stored), [x.Not()]);
  }

  lemma {:induction false} StackPushAll(elim: seq<nat>, stored: seq<Clause>, eliminated: seq<bool>, x: Lit)
    requires StackOk(elim, eliminated) && x.v < |eliminated| && eliminated[x.v]
      && forall c :: c in stored ==> StartsWith(c, x)
    ensures StackOk(elim + PackedAll(stored), eliminated)
  {
    hide StackOk, Packed;
    if |stored| == 0 { assert elim + PackedAll(stored) == elim; }
    else {
      var front, c := stored[..|stored| - 1], stored[|stored| - 1];
      assert c in stored;
      StackPushAll(elim, front, eliminated, x);
      StackPush(elim + PackedAll(front), c, eliminated);
      assert elim + PackedAll(stored) == (elim + PackedAll(front)) + Packed(c);
    }
  }

  lemma AddedMeans(ca0: seq<Clause>, rest: seq<bool>, units0: seq<Lit>, ca: seq<Clause>, mark: seq<bool>,
                   units: seq<Lit>, pos: seq<CRef>, neg: seq<CRef>, v: Var)
    requires AddsResolvents(ca0, rest, units0, ca, mark, units, ca0, pos, neg, v)
    ensures forall a {:trigger Base(a, ca, mark, units)} {:trigger Base(a, ca0, rest, units0)} ::
      Base(a, ca, mark, units) <==> Base(a, ca0, rest, units0) && AllResolvents(a, ca0, pos, neg, v)
  {
  }

  lemma RefutedByResolvents(f: set<Clause>, elim: seq<nat>, ca: seq<Clause>, mark: seq<bool>, rest: seq<bool>,
                            units: seq<Lit>, pos: seq<CRef>, neg: seq<CRef>, v: Var)
    requires Preserved(f, elim, ca, mark, units) && SplitOn(ca, mark, rest, pos, neg, v)
    requires RefutesResolvents(ca, rest, units, ca, pos, neg, v)
    ensures Unsat(f)
  {
    hide Base, SplitOn, AllResolvents;
    forall a ensures !Models(a, f) {
      SplitBase(a, ca, mark, rest, pos, neg, v, units);
      if Base(a, ca, mark, units) { ResolventsFollow(a, ca, mark, rest, pos, neg, v, units); }
      assert !(Base(a, ca, rest, units) && AllResolvents(a, ca, pos, neg, v));
    }
  }

  /** No live clause has an eliminated variable, so its list may be emptied. */
  lemma ClearOccurs(ca: seq<Clause>, mark: seq<bool>, eliminated: seq<bool>, occurs: Occurs, v: Var)
    requires DbShape(ca, mark, eliminated) && OccursOk(ca, mark, occurs) && v < |eliminated| && eliminated[v]
    ensures OccursOk(ca, mark, occurs[v := []])
  {
    var occurs' := occurs[v := []];
    forall cr: CRef | Alive(ca, mark, cr) ensures ListedAt(ca, occurs', cr) {
      assert ListedAt(ca, occurs, cr) && Usable(eliminated, ca[cr]);
      forall l: Lit | l in ca[cr] ensures cr in Occ(occurs', l.v) { assert l.v != v; }
    }
    forall w: Var ensures ListOk(ca, mark, Occ(occurs', w), w) { assert ListOk(ca, mark, Occ(occurs, w), w); }
  }

  // ---------- reconstruction on partial models ----------

  /** The variables that stored clauses start with. */
  ghost function StackVars(elim: seq<nat>): iset<Var> {
    if |elim| == 0 || elim[|elim| - 1] >= |elim| || elim[|elim| - 1] == 0 then iset{}
    else StackVars(elim[..|elim| - 1 - elim[|elim| - 1]]) + iset{TopClause(elim)[0].v}
  }

  ghost predicate StackCovers(elim: seq<nat>, eliminated: seq<bool>) {
    forall v :: 0 <= v < |eliminated| && eliminated[v] ==> v in StackVars(elim)
  }

  lemma VarsPush(elim: seq<nat>, c: Clause)
    requires |c| > 0
    ensures StackVars(elim + Packed(c)) == StackVars(elim) + iset{c[0].v}
  {
    var e := elim + Packed(c);
    assert e[|e| - 1] == |c|;
    assert e[|elim|] == ToInt(c[0]);
    PackedLiterals(c[0], c[0], 0);
    assert TopClause(e)[0] == c[0];
    assert e[..|e| - 1 - |c|] == elim;
  }

  lemma {:induction false} VarsPushAll(elim: seq<nat>, cs: seq<Clause>)
    requires forall c :: c in cs ==> |c| > 0
    ensures StackVars(elim) <= StackVars(elim + PackedAll(cs))
  {
    hide Packed, StackVars;
    if |cs| == 0 { assert elim + PackedAll(cs) == elim; }
    else {
      var front, c := cs[..|cs| - 1], cs[|cs| - 1];
      assert c in cs;
      forall d | d in front ensures |d| > 0 { assert d in cs; }
      VarsPushAll(elim, front);
      VarsPush(elim + PackedAll(front), c);
      assert elim + PackedAll(cs) == (elim + PackedAll(front)) + Packed(c);
    }
  }

  /** What the reconstruction does to a model with undefined entries. */
  ghost function RepairPartial(m: seq<LBool>, c: Clause): seq<LBool> {
    if |c| > 0 && c[0].v < |m| && (forall k :: 1 <= k < |c| ==> Val(m, c[k]) == LFalse)
    then m[c[0].v := if c[0].neg then LFalse else LTrue] else m
  }

  ghost function ExtendPartial(elim: seq<nat>, m: seq<LBool>): (r: seq<LBool>)
    ensures |r| == |m|
  {
    if |elim| == 0 || elim[|elim| - 1] >= |elim| then m
    else ExtendPartial(elim[..|elim| - 1 - elim[|elim| - 1]], RepairPartial(m, TopClause(elim)))
  }

  ghost predicate DefinesAll(m: seq<LBool>, def: iset<Var>) { forall v :: v in def ==> v < |m| && m[v] != LUndef }

  /** One repair on a partial model does what it does on the valuations the model describes. */
  lemma RepairAgrees(m: seq<LBool>, c: Clause, def: iset<Var>, a: Valuation)
    requires Agrees(a, m) && DefinesAll(m, def) && |c| > 0 && c[0].v < |m|
    requires (forall k :: 1 <= k < |c| ==> c[k].v in def) && (|c| > 1 ==> c[0].v in def)
    ensures Agrees(Repair(a, c), RepairPartial(m, c)) && DefinesAll(RepairPartial(m, c), def + iset{c[0].v})
  {
    forall k | 1 <= k < |c| ensures Val(m, c[k]) == LFalse <==> !True(a, c[k]) { assert c[k].v in def; }
  }

  lemma {:induction false} ExtendAgrees(elim: seq<nat>, eliminated: seq<bool>, def: iset<Var>, m: seq<LBool>,
                                        a: Valuation)
    requires StackOk(elim, eliminated) && StackDefined(elim, def) && |m| == |eliminated| && DefinesAll(m, def)
      && Agrees(a, m)
    ensures Agrees(Extend(elim, a), ExtendPartial(elim, m)) && DefinesAll(ExtendPartial(elim, m), def + StackVars(elim))
  {
    if |elim| == 0 {
      assert def + StackVars(elim) == def;
    } else {
      var c := TopClause(elim);
      var rest := elim[..|elim| - 1 - elim[|elim| - 1]];
      RepairAgrees(m, c, def, a);
      ExtendAgrees(rest, eliminated, def + iset{c[0].v}, RepairPartial(m, c), Repair(a, c));
      assert def + iset{c[0].v} + StackVars(rest) == def + StackVars(elim);
    }
  }

  lemma {:induction false} PartialKeeps(elim: seq<nat>, eliminated: seq<bool>, m: seq<LBool>, v: Var)
    requires StackOk(elim, eliminated) && |m| == |eliminated| && v < |m| && !eliminated[v]
    ensures ExtendPartial(elim, m)[v] == m[v]
  {
    if |elim| > 0 {
      PartialKeeps(elim[..|elim| - 1 - elim[|elim| - 1]], eliminated, RepairPartial(m, TopClause(elim)), v);
    }
  }

  lemma PartialTotal(elim: seq<nat>, eliminated: seq<bool>, m: seq<LBool>)
    requires StackOk(elim, eliminated) && StackDefined(elim, Remaining(eliminated)) && StackCovers(elim, eliminated)
    requires |m| == |eliminated| && forall v :: 0 <= v < |m| && !eliminated[v] ==> m[v] != LUndef
    ensures forall v :: 0 <= v < |m| ==> ExtendPartial(elim, m)[v] != LUndef
    ensures forall v :: 0 <= v < |m| && !eliminated[v] ==> ExtendPartial(elim, m)[v] == m[v]
  {
    hide StackOk, StackDefined, ExtendPartial;
    var a := iset v | 0 <= v < |m| && m[v] == LTrue;
    ExtendAgrees(elim, eliminated, Remaining(eliminated), m, a);
    forall v | 0 <= v < |m| && !eliminated[v] ensures ExtendPartial(elim, m)[v] == m[v] {
      PartialKeeps(elim, eliminated, m, v);
    }
    forall v | 0 <= v < |m| && eliminated[v] ensures ExtendPartial(elim, m)[v] != LUndef {
      assert v in Remaining(eliminated) + StackVars(elim);
    }
  }

  /** `a` with the values of `m` on the eliminated variables. */
  ghost function Before(a: Valuation, m: seq<LBool>, eliminated: seq<bool>): Valuation {
    iset v: Var | if v < |m| && v < |eliminated| && eliminated[v] then m[v] == LTrue else v in a
  }

  lemma AgreesBefore(a: Valuation, model: seq<LBool>, m: seq<LBool>, eliminated: seq<bool>)
    requires Agrees(a, model) && |model| == |m| == |eliminated|
    requires forall v :: 0 <= v < |m| && !eliminated[v] ==> model[v] == m[v]
    ensures Agrees(Before(a, m, eliminated), m)
  {
  }

  /** Reconstruction sets every eliminated variable, whatever it was before. */
  lemma ExtendFixed(elim: seq<nat>, eliminated: seq<bool>, m: seq<LBool>, a: Valuation)
    requires StackOk(elim, eliminated) && StackDefined(elim, Remaining(eliminated)) && StackCovers(elim, eliminated)
    requires |m| == |eliminated| && forall v :: 0 <= v < |m| && !eliminated[v] ==> m[v] != LUndef
    requires Agrees(Before(a, m, eliminated), m) && Agrees(a, ExtendPartial(elim, m))
    ensures Extend(elim, Before(a, m, eliminated)) == a
  {
    hide StackOk, StackDefined, ExtendPartial, Extend, StackCovers;
    var b := Before(a, m, eliminated);
    PartialTotal(elim, eliminated, m);
    ExtendAgrees(elim, eliminated, Remaining(eliminated), m, b);
    forall v: Var ensures v in Extend(elim, b) <==> v in a {
      if v < |m| { assert ExtendPartial(elim, m)[v] != LUndef; }
      else { ExtendKeeps(elim, eliminated, b, v); }
    }
  }
}
