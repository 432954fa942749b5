/** The simplifier's view of the problem: live clauses and root-level units as a set of
    constraints, and what elimination, subsumption and strengthening do to its models. */
module ClauseSet {
  import opened Cnf
  import opened Trails
  import opened Elimination
  import opened Database

  type Occurs = map<Var, seq<CRef>>

  function Occ(occurs: Occurs, v: Var): seq<CRef> { if v in occurs then occurs[v] else [] }

  ghost predicate Alive(ca: seq<Clause>, mark: seq<bool>, cr: CRef) { cr < |ca| && cr < |mark| && !mark[cr] }

  /** `a` satisfies every live clause and every unit. */
  ghost predicate Base(a: Valuation, ca: seq<Clause>, mark: seq<bool>, units: seq<Lit>) {
    && (forall cr: CRef {:trigger Alive(ca, mark, cr)} :: Alive(ca, mark, cr) ==> Sat(a, ca[cr]))
    && AllTrue(a, units)
  }

  /** The variables that clauses and units may use. */
  ghost predicate Usable(eliminated: seq<bool>, c: seq<Lit>) {
    forall l :: l in c ==> l.v < |eliminated| && !eliminated[l.v]
  }

  ghost predicate DbShape(ca: seq<Clause>, mark: seq<bool>, eliminated: seq<bool>) {
    && |mark| == |ca|
    && forall cr: CRef {:trigger Alive(ca, mark, cr)} ::
         Alive(ca, mark, cr) ==> |ca[cr]| >= 2 && Proper(ca[cr]) && Usable(eliminated, ca[cr])
  }

  /** The root assignment is the list of units, each variable once. */
  ghost predicate UnitShape(units: seq<Lit>, assigns: seq<LBool>, eliminated: seq<bool>) {
    && |assigns| == |eliminated| && Usable(eliminated, units) && Distinct(units)
    && (forall l :: l in units ==> Val(assigns, l) == LTrue)
    && (forall v :: 0 <= v < |assigns| && assigns[v] != LUndef ==> Lit(v, assigns[v] == LFalse) in units)
  }

  ghost predicate ListedAt(ca: seq<Clause>, occurs: Occurs, cr: CRef) {
    cr < |ca| && forall l :: l in ca[cr] ==> cr in Occ(occurs, l.v)
  }

  ghost predicate ListOk(ca: seq<Clause>, mark: seq<bool>, cs: seq<CRef>, v: Var) {
    && NoDup(cs)
    && forall cr: CRef {:trigger cr in cs} :: cr in cs ==> cr < |ca| && (Alive(ca, mark, cr) ==> HasVar(ca[cr], v))
  }

  /** A live clause is listed under each of its variables; lists may still hold deleted clauses. */
  ghost predicate OccursOk(ca: seq<Clause>, mark: seq<bool>, occurs: Occurs) {
    && (forall cr: CRef {:trigger ListedAt(ca, occurs, cr)} :: Alive(ca, mark, cr) ==>
      ListedAt(ca, occurs, cr))
    && (forall v: Var {:trigger ListOk(ca, mark, Occ(occurs, v), v)} :: ListOk(ca, mark, Occ(occurs, v), v))
  }

  // ---------- what is preserved over a whole run ----------

  /** The current constraints follow from the added clauses, and any of their models is turned
      into a model of the added clauses by the reconstruction stack. */
  ghost predicate Preserved(f: set<Clause>, elim: seq<nat>, ca: seq<Clause>, mark: seq<bool>, units: seq<Lit>) {
    forall a {:trigger Base(a, ca, mark, units)} {:trigger Models(a, f)} ::
      && (Models(a, f) ==> Base(a, ca, mark, units))
      && (Base(a, ca, mark, units) ==> Models(Extend(elim, a), f))
  }

  /** Elimination and simplification keep satisfiability, in both directions. */
  lemma Equisatisfiable(f: set<Clause>, elim: seq<nat>, ca: seq<Clause>, mark: seq<bool>, units: seq<Lit>)
    requires Preserved(f, elim, ca, mark, units)
    ensures (exists a :: Models(a, f)) <==> (exists a :: Base(a, ca, mark, units))
  {
    if a :| Base(a, ca, mark, units) { assert Models(Extend(elim, a), f); }
    if a :| Models(a, f) { assert Base(a, ca, mark, units); }
  }

  /** The same constraints in another form. */
  ghost predicate Equivalent(ca: seq<Clause>, mark: seq<bool>, units: seq<Lit>, ca': seq<Clause>, mark': seq<bool>,
                             units': seq<Lit>) {
    forall a {:trigger Base(a, ca, mark, units)} {:trigger Base(a, ca', mark', units')} ::
      Base(a, ca, mark, units) <==> Base(a, ca', mark', units')
  }

  ghost predicate Contradictory(ca: seq<Clause>, mark: seq<bool>, units: seq<Lit>) {
    forall a {:trigger Base(a, ca, mark, units)} :: !Base(a, ca, mark, units)
  }

  lemma PreservedEquiv(f: set<Clause>, elim: seq<nat>, ca: seq<Clause>, mark: seq<bool>, units: seq<Lit>,
                       ca': seq<Clause>, mark': seq<bool>, units': seq<Lit>)
    requires Preserved(f, elim, ca, mark, units) && Equivalent(ca, mark, units, ca', mark', units')
    ensures Preserved(f, elim, ca', mark', units')
  {
    forall a
      ensures (Models(a, f) ==> Base(a, ca', mark', units'))
        && (Base(a, ca', mark', units') ==> Models(Extend(elim, a), f)) {
      assert Base(a, ca, mark, units) <==> Base(a, ca', mark', units');
    }
  }

  lemma ContradictoryUnsat(f: set<Clause>, elim: seq<nat>, ca: seq<Clause>, mark: seq<bool>, units: seq<Lit>)
    requires Preserved(f, elim, ca, mark, units) && Contradictory(ca, mark, units)
    ensures Unsat(f)
  {
    forall a ensures !Models(a, f) { assert !Base(a, ca, mark, units); }
  }

  lemma EquivalentTrans(c1: seq<Clause>, m1: seq<bool>, u1: seq<Lit>, c2: seq<Clause>, m2: seq<bool>, u2: seq<Lit>,
                        c3: seq<Clause>, m3: seq<bool>, u3: seq<Lit>)
    requires Equivalent(c1, m1, u1, c2, m2, u2) && Equivalent(c2, m2, u2, c3, m3, u3)
    ensures Equivalent(c1, m1, u1, c3, m3, u3)
    ensures Contradictory(c2, m2, u2) ==> Contradictory(c1, m1, u1)
  {
    forall a ensures Base(a, c1, m1, u1) <==> Base(a, c3, m3, u3) {
      assert Base(a, c1, m1, u1) <==> Base(a, c2, m2, u2);
    }
    if Contradictory(c2, m2, u2) {
      forall a ensures !Base(a, c1, m1, u1) { assert !Base(a, c2, m2, u2); }
    }
  }

  // ---------- adding to the constraints ----------

  /** `b'` adds exactly the constraint `c`. */
  ghost predicate Adds(ca: seq<Clause>, mark: seq<bool>, units: seq<Lit>, ca': seq<Clause>, mark': seq<bool>,
                       units': seq<Lit>, c: Clause) {
    forall a {:trigger Base(a, ca, mark, units)} {:trigger Base(a, ca', mark', units')} ::
      Base(a, ca', mark', units') <==> Base(a, ca, mark, units) && Sat(a, c)
  }

  lemma AddsUnit(ca: seq<Clause>, mark: seq<bool>, units: seq<Lit>, l: Lit, c: Clause)
    requires forall a {:trigger AllTrue(a, units)} :: AllTrue(a, units) ==> (Sat(a, c) <==> True(a, l))
    ensures Adds(ca, mark, units, ca, mark, units + [l], c)
  {
    forall a ensures Base(a, ca, mark, units + [l]) <==> Base(a, ca, mark, units) && Sat(a, c) {
      assert l in units + [l];
      assert AllTrue(a, units + [l]) <==> AllTrue(a, units) && True(a, l);
    }
  }

  lemma AddsClause(ca: seq<Clause>, mark: seq<bool>, units: seq<Lit>, c: Clause, q: Clause)
    requires |mark| == |ca|
    requires forall a {:trigger AllTrue(a, units)} :: AllTrue(a, units) ==> (Sat(a, c) <==> Sat(a, q))
    ensures Adds(ca, mark, units, ca + [q], mark + [false], units, c)
  {
    var ca', mark' := ca + [q], mark + [false];
    forall a ensures Base(a, ca', mark', units) <==> Base(a, ca, mark, units) && Sat(a, c) {
      if Base(a, ca', mark', units) {
        assert Alive(ca', mark', |ca|);
        forall cr: CRef | Alive(ca, mark, cr) ensures Sat(a, ca[cr]) { assert Alive(ca', mark', cr); }
      }
      if Base(a, ca, mark, units) && Sat(a, c) {
        forall cr: CRef | Alive(ca', mark', cr) ensures Sat(a, ca'[cr]) {
          if cr < |ca| { assert Alive(ca, mark, cr); }
        }
      }
    }
  }

  /** A literal that the constraints imply may become a unit. */
  lemma ImpliedUnit(ca: seq<Clause>, mark: seq<bool>, units: seq<Lit>, l: Lit)
    requires forall a {:trigger Base(a, ca, mark, units)} :: Base(a, ca, mark, units) ==> True(a, l)
    ensures Equivalent(ca, mark, units, ca, mark, units + [l])
  {
    forall a ensures Base(a, ca, mark, units) <==> Base(a, ca, mark, units + [l]) {
      assert l in units + [l];
      assert AllTrue(a, units + [l]) <==> AllTrue(a, units) && True(a, l);
    }
  }

  /** Under the units, a clause with all literals but those of `q` false means `q`. */
  lemma FalseLits(units: seq<Lit>, assigns: seq<LBool>, eliminated: seq<bool>, c: Clause, q: Clause, a: Valuation)
    requires UnitShape(units, assigns, eliminated) && AllTrue(a, units)
    requires forall l :: l in q ==> l in c
    requires forall l :: l in c && l !in q ==> Val(assigns, l) == LFalse
    ensures Sat(a, c) <==> Sat(a, q)
  {
    if Sat(a, c) {
      var l :| l in c && True(a, l);
      assert Val(assigns, l) == LFalse ==> Lit(l.v, assigns[l.v] == LFalse) in units;
      assert Val(assigns, l) == LFalse ==> True(a, Lit(l.v, assigns[l.v] == LFalse));
    }
  }

  lemma TrueLit(units: seq<Lit>, assigns: seq<LBool>, eliminated: seq<bool>, l: Lit, a: Valuation)
    requires UnitShape(units, assigns, eliminated) && AllTrue(a, units) && Val(assigns, l) == LTrue
    ensures True(a, l)
  {
    assert Lit(l.v, assigns[l.v] == LFalse) in units;
  }

  // ---------- deleting and strengthening ----------

  /** Deleting a clause that another live clause or a unit subsumes. */
  lemma DropSubsumed(ca: seq<Clause>, mark: seq<bool>, units: seq<Lit>, cr: CRef, c: Clause)
    requires Alive(ca, mark, cr) && (forall l :: l in c ==> l in ca[cr])
    requires (exists k: CRef :: k != cr && Alive(ca, mark, k) && ca[k] == c) || (exists l :: l in units && c == [l])
    ensures Equivalent(ca, mark, units, ca, mark[cr := true], units)
  {
    var mark' := mark[cr := true];
    forall a ensures Base(a, ca, mark, units) <==> Base(a, ca, mark', units) {
      if Base(a, ca, mark, units) {
        forall k: CRef | Alive(ca, mark', k) ensures Sat(a, ca[k]) { assert Alive(ca, mark, k); }
      }
      if Base(a, ca, mark', units) {
        assert Sat(a, c) by { SourceHolds(a, ca, mark', units, mark, cr, c); }
        forall k: CRef | Alive(ca, mark, k) ensures Sat(a, ca[k]) {
          if k != cr { assert Alive(ca, mark', k); }
        }
      }
    }
  }

  lemma SourceHolds(a: Valuation, ca: seq<Clause>, mark': seq<bool>, units: seq<Lit>, mark: seq<bool>, cr: CRef,
                    c: Clause)
    requires Base(a, ca, mark', units) && cr < |mark| && mark' == mark[cr := true]
    requires (exists k: CRef :: k != cr && Alive(ca, mark, k) && ca[k] == c) || (exists l :: l in units && c == [l])
    ensures Sat(a, c)
  {
    if k: CRef :| k != cr && Alive(ca, mark, k) && ca[k] == c { assert Alive(ca, mark', k); }
    else {
      var l :| l in units && c == [l];
      assert l in c;
    }
  }

  /** Removing `x` from clause `cr` when `c` with one literal flipped lies within it. */
  lemma StrengthenEquiv(ca: seq<Clause>, mark: seq<bool>, units: seq<Lit>, cr: CRef, c: Clause, x: Lit, d: Clause)
    requires Alive(ca, mark, cr) && x in ca[cr] && x.Not() in c
    requires forall l :: l in c && l != x.Not() ==> l in d
    requires forall l :: l in d <==> l in ca[cr] && l != x
    requires (exists k: CRef :: k != cr && Alive(ca, mark, k) && ca[k] == c) || (exists l :: l in units && c == [l])
    ensures Equivalent(ca, mark, units, ca[cr := d], mark, units)
    ensures forall a {:trigger Base(a, ca, mark, units)} :: Base(a, ca, mark, units) ==> Sat(a, d)
  {
    var ca' := ca[cr := d];
    forall a | Base(a, ca, mark, units) ensures Sat(a, d) {
      assert Sat(a, ca[cr]) && Sat(a, c) by { LiveSat(a, ca, mark, units, cr, c); }
      var l :| l in ca[cr] && True(a, l);
      if l == x {
        var k :| k in c && True(a, k);
        assert k in d;
      }
    }
    forall a ensures Base(a, ca, mark, units) <==> Base(a, ca', mark, units) {
      if Base(a, ca, mark, units) {
        forall k: CRef | Alive(ca', mark, k) ensures Sat(a, ca'[k]) { assert Alive(ca, mark, k); }
      }
      if Base(a, ca', mark, units) {
        assert Alive(ca', mark, cr);
        forall k: CRef | Alive(ca, mark, k) ensures Sat(a, ca[k]) { assert Alive(ca', mark, k); }
      }
    }
  }

  lemma LiveSat(a: Valuation, ca: seq<Clause>, mark: seq<bool>, units: seq<Lit>, cr: CRef, c: Clause)
    requires Base(a, ca, mark, units) && Alive(ca, mark, cr)
    requires (exists k: CRef :: k != cr && Alive(ca, mark, k) && ca[k] == c) || (exists l :: l in units && c == [l])
    ensures Sat(a, ca[cr]) && Sat(a, c)
  {
    if k: CRef :| k != cr && Alive(ca, mark, k) && ca[k] == c { }
    else {
      var l :| l in units && c == [l];
      assert l in c;
    }
  }

  // ---------- eliminating a variable ----------

  /** `rest` marks the clauses of `pos` and `neg`, all live clauses with `v`, as deleted too. */
  ghost predicate SplitOn(ca: seq<Clause>, mark: seq<bool>, rest: seq<bool>, pos: seq<CRef>, neg: seq<CRef>, v: Var) {
    && |rest| == |mark| == |ca|
    && (forall cr :: cr in pos ==> Alive(ca, mark, cr) && Lit(v, false) in ca[cr] && NonTaut(ca[cr]))
    && (forall cr :: cr in neg ==> Alive(ca, mark, cr) && Lit(v, true) in ca[cr] && NonTaut(ca[cr]))
    && (forall cr: CRef {:trigger Alive(ca, mark, cr)} {:trigger Alive(ca, rest, cr)} ::
          Alive(ca, rest, cr) <==> Alive(ca, mark, cr) && cr !in pos && cr !in neg)
    && (forall cr: CRef {:trigger Alive(ca, rest, cr)} :: Alive(ca, rest, cr) ==> !HasVar(ca[cr], v))
  }

  /** Every resolvent on `v` is a tautology or holds in `a`. */
  ghost predicate AllResolvents(a: Valuation, ca: seq<Clause>, pos: seq<CRef>, neg: seq<CRef>, v: Var) {
    forall p, n {:trigger p in pos, n in neg} :: p in pos && n in neg && p < |ca| && n < |ca| ==>
      ResolventHolds(a, ca[p], ca[n], v)
  }

  lemma SplitBase(a: Valuation, ca: seq<Clause>, mark: seq<bool>, rest: seq<bool>, pos: seq<CRef>, neg: seq<CRef>,
                  v: Var, units: seq<Lit>)
    requires SplitOn(ca, mark, rest, pos, neg, v)
    ensures Base(a, ca, mark, units) <==>
      && Base(a, ca, rest, units)
      && (forall cr :: cr in pos && cr < |ca| ==> Sat(a, ca[cr]))
        && (forall cr :: cr in neg && cr < |ca| ==> Sat(a, ca[cr]))
  {
    if Base(a, ca, mark, units) {
      forall cr: CRef | Alive(ca, rest, cr) ensures Sat(a, ca[cr]) { assert Alive(ca, mark, cr); }
    }
    if Base(a, ca, rest, units) && (forall cr :: cr in pos && cr < |ca| ==> Sat(a, ca[cr]))
      && (forall cr :: cr in neg && cr < |ca| ==> Sat(a, ca[cr])) {
      forall cr: CRef | Alive(ca, mark, cr) ensures Sat(a, ca[cr]) {
        if cr !in pos && cr !in neg { assert Alive(ca, rest, cr); }
      }
    }
  }

  lemma ResolventsFollow(a: Valuation, ca: seq<Clause>, mark: seq<bool>, rest: seq<bool>, pos: seq<CRef>,
                         neg: seq<CRef>, v: Var, units: seq<Lit>)
    requires SplitOn(ca, mark, rest, pos, neg, v) && Base(a, ca, mark, units)
    ensures AllResolvents(a, ca, pos, neg, v)
  {
    forall p, n | p in pos && n in neg ensures ResolventHolds(a, ca[p], ca[n], v) {
      assert Alive(ca, mark, p) && Alive(ca, mark, n);
      ResolventImplied(a, ca[p], ca[n], v);
    }
  }

  /** Valuations that differ on `v` only agree on everything without `v`. */
  lemma RestUnchanged(a: Valuation, b: Valuation, ca: seq<Clause>, rest: seq<bool>, units: seq<Lit>, v: Var)
    requires SameOff(a, b, v) && Base(a, ca, rest, units)
    requires forall cr: CRef {:trigger Alive(ca, rest, cr)} :: Alive(ca, rest, cr) ==> !HasVar(ca[cr], v)
    requires !HasVar(units, v)
    ensures Base(b, ca, rest, units)
  {
    forall cr: CRef | Alive(ca, rest, cr) ensures Sat(b, ca[cr]) {
      var l :| l in ca[cr] && True(a, l);
      assert l.v != v;
    }
    forall l | l in units ensures True(b, l) { assert l.v != v; }
  }

  /** `stored` lists the clauses of `side`, each with the literal `x` in front. */
  ghost predicate StoresSide(stored: seq<Clause>, ca: seq<Clause>, side: seq<CRef>, x: Lit) {
    && (forall c {:trigger StartsWith(c, x)} :: c in stored ==> StartsWith(c, x))
    && (forall cr: CRef {:trigger IsStored(stored, ca, cr)} :: cr in side && cr < |ca| ==> IsStored(stored, ca, cr))
    && (forall c {:trigger ComesFrom(c, ca, side)} :: c in stored ==> ComesFrom(c, ca, side))
  }

  ghost predicate IsStored(stored: seq<Clause>, ca: seq<Clause>, cr: CRef) {
    cr < |ca| && exists c :: c in stored && SameLits(c, ca[cr])
  }

  ghost predicate ComesFrom(c: Clause, ca: seq<Clause>, side: seq<CRef>) {
    exists cr :: cr in side && cr < |ca| && SameLits(c, ca[cr])
  }

  /** The heart of elimination: a model of the rest and the resolvents, repaired from the stored
      side, satisfies both sides. */
  lemma RepairSides(a: Valuation, ca: seq<Clause>, mark: seq<bool>, rest: seq<bool>, pos: seq<CRef>, neg: seq<CRef>,
                    v: Var,
                    units: seq<Lit>, stored: seq<Clause>, x: Lit)
    requires SplitOn(ca, mark, rest, pos, neg, v) && !HasVar(units, v) && x.v == v
    requires StoresSide(stored, ca, if x.neg then neg else pos, x)
    requires Base(a, ca, rest, units) && AllResolvents(a, ca, pos, neg, v)
    ensures Base(RepairAll(SetTrue(a, x.Not()), stored), ca, mark, units)
  {
    var mine, yours := if x.neg then neg else pos, if x.neg then pos else neg;
    var others := set cr | cr in yours && cr < |ca| :: ca[cr];
    forall c | c in stored ensures StartsWith(c, x) { }
    forall d | d in others ensures x.Not() in d && NonTaut(d) {
      var cr :| cr in yours && cr < |ca| && d == ca[cr];
    }
    forall c, d | c in stored && d in others ensures ResolventHolds(a, c, d, v) {
      StoredResolvent(a, ca, pos, neg, v, stored, x, c, d);
    }
    SidesSatisfied(a, x, stored, others);
    var b := RepairAll(SetTrue(a, x.Not()), stored);
    RestUnchanged(a, b, ca, rest, units, v);
    forall cr | cr in mine && cr < |ca| ensures Sat(b, ca[cr]) {
      assert IsStored(stored, ca, cr);
      var c :| c in stored && SameLits(c, ca[cr]);
      var l :| l in c && True(b, l);
      assert l in ca[cr];
    }
    forall cr | cr in yours && cr < |ca| ensures Sat(b, ca[cr]) { assert ca[cr] in others; }
    SplitBase(b, ca, mark, rest, pos, neg, v, units);
  }

  lemma StoredResolvent(a: Valuation, ca: seq<Clause>, pos: seq<CRef>, neg: seq<CRef>, v: Var, stored: seq<Clause>,
                        x: Lit, c: Clause, d: Clause)
    requires x.v == v && StoresSide(stored, ca, if x.neg then neg else pos, x) && AllResolvents(a, ca, pos, neg, v)
    requires c in stored && exists cr :: cr in (if x.neg then pos else neg) && cr < |ca| && d == ca[cr]
    ensures ResolventHolds(a, c, d, v)
  {
    var y :| y in (if x.neg then pos else neg) && y < |ca| && d == ca[y];
    assert ComesFrom(c, ca, if x.neg then neg else pos);
    var z :| z in (if x.neg then neg else pos) && z < |ca| && SameLits(c, ca[z]);
    var p, n := if x.neg then y else z, if x.neg then z else y;
    assert ResolventHolds(a, ca[p], ca[n], v);
    var l: Lit :| l.v != v && (l in ca[p] || l in ca[n]) && (True(a, l) || (l in ca[p] && l.Not() in ca[n]));
    if True(a, l) { assert l in c || l in d; }
    else if x.neg { assert l.Not() in c && l.Not().Not() == l; }
    else { assert l in c; }
  }

  /** One elimination preserves satisfiability and reconstruction. */
  lemma EliminatePreserves(f: set<Clause>, elim: seq<nat>, ca: seq<Clause>, mark: seq<bool>, rest: seq<bool>,
                           pos: seq<CRef>, neg: seq<CRef>, v: Var,
                           units: seq<Lit>, stored: seq<Clause>, x: Lit, ca': seq<Clause>, mark': seq<bool>,
                           units': seq<Lit>)
    requires Preserved(f, elim, ca, mark, units) && SplitOn(ca, mark, rest, pos, neg, v) && !HasVar(units, v)
      && x.v == v
    requires StoresSide(stored, ca, if x.neg then neg else pos, x)
    requires forall a {:trigger Base(a, ca', mark', units')} {:trigger Base(a, ca, rest, units)} ::
      Base(a, ca', mark', units') <==> Base(a, ca, rest, units) && AllResolvents(a, ca, pos, neg, v)
    ensures Preserved(f, elim + PackedAll(stored) + Packed([x.Not()]), ca', mark', units')
  {
    hide Base, SplitOn, AllResolvents, StoresSide, PackedAll, Packed, Extend, RepairAll;
    var elim' := elim + PackedAll(stored) + Packed([x.Not()]);
    forall a
      ensures (Models(a, f) ==> Base(a, ca', mark', units'))
        && (Base(a, ca', mark', units') ==> Models(Extend(elim', a), f)) {
      if Models(a, f) {
        assert Base(a, ca, mark, units);
        SplitBase(a, ca, mark, rest, pos, neg, v, units);
        ResolventsFollow(a, ca, mark, rest, pos, neg, v, units);
      }
      if Base(a, ca', mark', units') {
        RepairSides(a, ca, mark, rest, pos, neg, v, units, stored, x);
        var a0 := SetTrue(a, x.Not());
        assert Models(Extend(elim, RepairAll(a0, stored)), f);
        ExtendPackedAll(elim, stored, a0);
        ExtendPacked(elim + PackedAll(stored), [x.Not()], a);
        assert Repair(a, [x.Not()]) == a0;
      }
    }
  }

  // ---------- keeping the shapes ----------

  lemma UnitPush(units: seq<Lit>, assigns: seq<LBool>, eliminated: seq<bool>, l: Lit)
    requires UnitShape(units, assigns, eliminated) && l.v < |assigns| && assigns[l.v] == LUndef && !eliminated[l.v]
    ensures UnitShape(units + [l], assigns[l.v := if l.neg then LFalse else LTrue], eliminated)
  {
    var units', assigns' := units + [l], assigns[l.v := if l.neg then LFalse else LTrue];
    forall k | k in units ensures k.v != l.v { assert Val(assigns, k) == LTrue; }
    forall v | 0 <= v < |assigns'| && assigns'[v] != LUndef ensures Lit(v, assigns'[v] == LFalse) in units' {
      if v == l.v { assert l in units'; }
      else { assert Lit(v, assigns[v] == LFalse) in units; }
    }
  }

  ghost function Undefs(assigns: seq<LBool>): nat {
    if |assigns| == 0 then 0 else Undefs(assigns[..|assigns| - 1]) + if assigns[|assigns| - 1] == LUndef then 1 else 0
  }

  lemma {:induction false} UndefsDrop(assigns: seq<LBool>, v: Var, x: LBool)
    requires v < |assigns| && assigns[v] == LUndef && x != LUndef
    ensures Undefs(assigns[v := x]) == Undefs(assigns) - 1
  {
    var s := assigns[v := x];
    if v < |assigns| - 1 {
      UndefsDrop(assigns[..|assigns| - 1], v, x);
      assert s[..|s| - 1] == assigns[..|assigns| - 1][v := x];
    } else {
      assert s[..|s| - 1] == assigns[..|assigns| - 1];
    }
  }

  /** `occurs` after clause `cr` with literals `c` is listed under each of its variables. */
  function Listed(occurs: Occurs, c: Clause, cr: CRef): Occurs {
    if |c| == 0 then occurs
    else
      var o := Listed(occurs, c[..|c| - 1], cr);
      var v := c[|c| - 1].v;
      o[v := Occ(o, v) + [cr]]
  }

  lemma {:induction false} ListedAll(occurs: Occurs, c: Clause, cr: CRef, v: Var)
    requires Proper(c)
    ensures Occ(Listed(occurs, c, cr), v) == if HasVar(c, v) then Occ(occurs, v) + [cr] else Occ(occurs, v)
  {
    if |c| > 0 {
      var front, last := c[..|c| - 1], c[|c| - 1];
      assert forall l :: l in front ==> l in c;
      ListedAll(occurs, front, cr, v);
      assert last in c;
      forall l: Lit | l in front ensures l.v != last.v {
        assert l in c && l != last && l.Not() !in c;
      }
      if HasVar(c, v) && last.v != v {
        var l: Lit :| l in c && l.v == v;
        assert l in front;
      }
    }
  }

  lemma OccursPush(ca: seq<Clause>, mark: seq<bool>, occurs: Occurs, q: Clause)
    requires OccursOk(ca, mark, occurs) && |mark| == |ca| && Proper(q)
    ensures OccursOk(ca + [q], mark + [false], Listed(occurs, q, |ca|))
  {
    hide Listed;
    var ca', mark', occurs' := ca + [q], mark + [false], Listed(occurs, q, |ca|);
    forall cr: CRef | Alive(ca', mark', cr) ensures ListedAt(ca', occurs', cr) {
      forall l: Lit | l in ca'[cr] ensures cr in Occ(occurs', l.v) {
        ListedAll(occurs, q, |ca|, l.v);
        if cr < |ca| { assert Alive(ca, mark, cr) && ListedAt(ca, occurs, cr); }
      }
    }
    forall v: Var ensures ListOk(ca', mark', Occ(occurs', v), v) {
      ListedAll(occurs, q, |ca|, v);
      assert ListOk(ca, mark, Occ(occurs, v), v);
      forall cr: CRef | cr in Occ(occurs', v) ensures cr < |ca'| && (Alive(ca', mark', cr) ==> HasVar(ca'[cr], v)) {
        if cr in Occ(occurs, v) { assert Alive(ca', mark', cr) ==> Alive(ca, mark, cr); }
      }
      forall i | 0 <= i < |Occ(occurs, v)| ensures Occ(occurs, v)[i] != |ca| {
        assert Occ(occurs, v)[i] in Occ(occurs, v);
      }
    }
  }

  lemma DbPush(ca: seq<Clause>, mark: seq<bool>, eliminated: seq<bool>, q: Clause)
    requires DbShape(ca, mark, eliminated) && |q| >= 2 && Proper(q) && Usable(eliminated, q)
    ensures DbShape(ca + [q], mark + [false], eliminated)
  {
    var ca', mark' := ca + [q], mark + [false];
    forall cr: CRef | Alive(ca', mark', cr) ensures |ca'[cr]| >= 2 && Proper(ca'[cr]) && Usable(eliminated, ca'[cr]) {
      if cr < |ca| { assert Alive(ca, mark, cr); }
    }
  }

  /** Deleting clauses keeps the shapes. */
  lemma MarkShapes(ca: seq<Clause>, mark: seq<bool>, rest: seq<bool>, eliminated: seq<bool>, occurs: Occurs)
    requires DbShape(ca, mark, eliminated) && OccursOk(ca, mark, occurs) && |rest| == |mark|
    requires forall i :: 0 <= i < |mark| && mark[i] ==> rest[i]
    ensures DbShape(ca, rest, eliminated) && OccursOk(ca, rest, occurs)
  {
    forall cr: CRef | Alive(ca, rest, cr)
      ensures ListedAt(ca, occurs, cr) && |ca[cr]| >= 2 && Proper(ca[cr]) && Usable(eliminated, ca[cr]) {
      assert Alive(ca, mark, cr) && ListedAt(ca, occurs, cr);
    }
    forall v: Var ensures ListOk(ca, rest, Occ(occurs, v), v) {
      assert ListOk(ca, mark, Occ(occurs, v), v);
      forall cr: CRef | cr in Occ(occurs, v) && Alive(ca, rest, cr) ensures HasVar(ca[cr], v) {
        assert Alive(ca, mark, cr);
      }
    }
  }

  /** The live clauses of a list. */
  function LiveRefs(mark: seq<bool>, cs: seq<CRef>): (r: seq<CRef>) {
    if |cs| == 0 then []
    else
      var rest := LiveRefs(mark, cs[..|cs| - 1]);
      var cr := cs[|cs| - 1];
      if cr < |mark| && !mark[cr] then rest + [cr] else rest
  }

  lemma {:induction false} LiveRefsHave(mark: seq<bool>, cs: seq<CRef>)
    requires NoDup(cs)
    ensures NoDup(LiveRefs(mark, cs))
    ensures forall cr: CRef :: cr in LiveRefs(mark, cs) <==> cr in cs && cr < |mark| && !mark[cr]
  {
    if |cs| > 0 {
      var front, last := cs[..|cs| - 1], cs[|cs| - 1];
      LiveRefsHave(mark, front);
      assert cs == front + [last];
      assert last !in front;
    }
  }

  lemma CleanOccurs(ca: seq<Clause>, mark: seq<bool>, occurs: Occurs, v: Var)
    requires OccursOk(ca, mark, occurs) && |mark| == |ca|
    ensures OccursOk(ca, mark, occurs[v := LiveRefs(mark, Occ(occurs, v))])
  {
    hide LiveRefs;
    var cs := LiveRefs(mark, Occ(occurs, v));
    var occurs' := occurs[v := cs];
    assert ListOk(ca, mark, Occ(occurs, v), v);
    LiveRefsHave(mark, Occ(occurs, v));
    forall cr: CRef | Alive(ca, mark, cr) ensures ListedAt(ca, occurs', cr) {
      assert ListedAt(ca, occurs, cr);
    }
    forall w: Var ensures ListOk(ca, mark, Occ(occurs', w), w) { assert ListOk(ca, mark, Occ(occurs, w), w); }
  }

  /** The list of `v`, cleaned, holds exactly the live clauses with `v`. */
  lemma LookupExact(ca: seq<Clause>, mark: seq<bool>, occurs: Occurs, v: Var)
    requires OccursOk(ca, mark, occurs) && |mark| == |ca|
    ensures NoDup(LiveRefs(mark, Occ(occurs, v)))
    ensures forall cr: CRef :: cr in LiveRefs(mark, Occ(occurs, v)) <==> Alive(ca, mark, cr) && HasVar(ca[cr], v)
  {
    assert ListOk(ca, mark, Occ(occurs, v), v);
    LiveRefsHave(mark, Occ(occurs, v));
    forall cr: CRef | Alive(ca, mark, cr) && HasVar(ca[cr], v) ensures cr in Occ(occurs, v) {
      assert ListedAt(ca, occurs, cr);
      var l :| l in ca[cr] && l.v == v;
    }
  }

  // ---------- measuring ----------

  /** The number of literals in live clauses. */
  function LiveLits(ca: seq<Clause>, mark: seq<bool>): nat
    requires |mark| == |ca|
  {
    if |ca| == 0 then 0
    else LiveLits(ca[..|ca| - 1], mark[..|ca| - 1]) + if mark[|ca| - 1] then 0 else |ca[|ca| - 1]|
  }

  lemma {:induction false} LiveLitsDrop(ca: seq<Clause>, mark: seq<bool>, cr: CRef, c: Clause, m: bool)
    requires |mark| == |ca| && Alive(ca, mark, cr)
    ensures LiveLits(ca[cr := c], mark[cr := m]) == LiveLits(ca, mark) - |ca[cr]| + if m then 0 else |c|
  {
    var ca', mark' := ca[cr := c], mark[cr := m];
    var n := |ca| - 1;
    if cr < n {
      assert ca'[..n] == ca[..n][cr := c] && mark'[..n] == mark[..n][cr := m];
      LiveLitsDrop(ca[..n], mark[..n], cr, c, m);
    } else {
      assert ca'[..n] == ca[..n] && mark'[..n] == mark[..n];
    }
  }

  // ---------- adding clauses over the remaining variables ----------

  lemma ExtendSat(elim: seq<nat>, eliminated: seq<bool>, a: Valuation, c: Clause)
    requires StackOk(elim, eliminated) && Usable(eliminated, c)
    ensures Sat(Extend(elim, a), c) <==> Sat(a, c)
  {
    forall l | l in c ensures True(Extend(elim, a), l) <==> True(a, l) { ExtendKeeps(elim, eliminated, a, l.v); }
    if Sat(a, c) {
      var l :| l in c && True(a, l);
      assert True(Extend(elim, a), l);
    }
    if Sat(Extend(elim, a), c) {
      var l :| l in c && True(Extend(elim, a), l);
      assert True(a, l);
    }
  }

  lemma PreservedAdd(f: set<Clause>, elim: seq<nat>, eliminated: seq<bool>, ps: Clause,
                     ca: seq<Clause>, mark: seq<bool>, units: seq<Lit>, ca': seq<Clause>, mark': seq<bool>,
                     units': seq<Lit>)
    requires Preserved(f, elim, ca, mark, units) && Adds(ca, mark, units, ca', mark', units', ps)
    requires StackOk(elim, eliminated) && Usable(eliminated, ps)
    ensures Preserved(f + {ps}, elim, ca', mark', units')
  {
    hide Base, StackOk, Usable, Models, Sat, Extend;
    var g := f + {ps};
    forall a
      ensures (Models(a, g) ==> Base(a, ca', mark', units'))
        && (Base(a, ca', mark', units') ==> Models(Extend(elim, a), g)) {
      assert Base(a, ca', mark', units') <==> Base(a, ca, mark, units) && Sat(a, ps);
      ExtendSat(elim, eliminated, a, ps);
      ModelsAdd(a, f, ps);
      ModelsAdd(Extend(elim, a), f, ps);
    }
  }

  lemma ModelsAdd(a: Valuation, f: set<Clause>, ps: Clause)
    ensures Models(a, f + {ps}) <==> Models(a, f) && Sat(a, ps)
  {
    assert ps in f + {ps} && forall c :: c in f ==> c in f + {ps};
  }

  lemma RejectedUnsat(f: set<Clause>, elim: seq<nat>, ps: Clause, ca: seq<Clause>, mark: seq<bool>, units: seq<Lit>)
    requires Preserved(f, elim, ca, mark, units)
    requires forall a {:trigger Base(a, ca, mark, units)} :: !(Base(a, ca, mark, units) && Sat(a, ps))
    ensures Unsat(f + {ps})
  {
    forall a ensures !Models(a, f + {ps}) {
      ModelsAdd(a, f, ps);
      assert !(Base(a, ca, mark, units) && Sat(a, ps));
    }
  }

  lemma AddsThen(c1: seq<Clause>, m1: seq<bool>, u1: seq<Lit>, c2: seq<Clause>, m2: seq<bool>, u2: seq<Lit>,
                 c3: seq<Clause>, m3: seq<bool>, u3: seq<Lit>, ps: Clause)
    requires Adds(c1, m1, u1, c2, m2, u2, ps) && Equivalent(c2, m2, u2, c3, m3, u3)
    ensures Adds(c1, m1, u1, c3, m3, u3, ps)
  {
    forall a ensures Base(a, c3, m3, u3) <==> Base(a, c1, m1, u1) && Sat(a, ps) {
      assert Base(a, c2, m2, u2) <==> Base(a, c3, m3, u3);
    }
  }
}
