/** A query as a whole: from the coverage pattern to constraints on the program variables. */
module Queries {
  import opened Cnf
  import opened Booleans
  import opened Nfas
  import opened Patterns
  import opened Unrolling
  import opened Paths
  import opened Encoders

  /** What a path reads depends on the program variables only. */
  lemma StepLocal(a: Valuation, b: Valuation, base: Var, st: Step, w: Symbols)
    requires StepBelow(st, base) && SameBelow(a, b, base)
    ensures StepWord(a, st, w) <==> StepWord(b, st, w)
  {
    hide Holds, Below;
    HoldsLocal(a, b, base, st.guard);
    HoldsLocal(a, b, base, st.jump);
    forall v ensures NodeWord(a, st, v) <==> NodeWord(b, st, v) { }
    forall v ensures EdgeWord(a, st, v) <==> EdgeWord(b, st, v) {
      if st.edges.Some? { assert forall k :: 0 <= k < |st.edges.value| ==> (Takes(a, st, k) <==> Takes(b, st, k)); }
    }
  }

  lemma {:induction false} MatchesLocal(a: Valuation, b: Valuation, base: Var, steps: seq<Step>, w: Symbols)
    requires (forall i :: 0 <= i < |steps| ==> StepBelow(steps[i], base)) && SameBelow(a, b, base)
    ensures Matches(a, steps, w) <==> Matches(b, steps, w)
    decreases |steps|
  {
    hide StepBelow, StepWord;
    if |steps| > 0 {
      var front, st := steps[..|steps| - 1], steps[|steps| - 1];
      forall v ensures Matches(a, front, v) <==> Matches(b, front, v) { MatchesLocal(a, b, base, front, v); }
      forall v ensures StepWord(a, st, v) <==> StepWord(b, st, v) { StepLocal(a, b, base, st, v); }
    }
  }

  lemma FeasibleLocal(a: Valuation, b: Valuation, base: Var, aut: Nfa, steps: seq<Step>)
    requires (forall i :: 0 <= i < |steps| ==> StepBelow(steps[i], base)) && SameBelow(a, b, base)
    ensures Feasible(a, aut, steps) <==> Feasible(b, aut, steps)
  {
    hide StepBelow, Matches, Accepts;
    forall w ensures Matches(a, steps, w) <==> Matches(b, steps, w) { MatchesLocal(a, b, base, steps, w); }
  }

  /** Adding the constraints of a second automaton asks for both. */
  lemma BothSolvable(r: Valuation, base: Var, mid: Var, cnf1: seq<Exp>, cnf2: seq<Exp>, aut: Nfa, steps: seq<Step>)
    requires base <= mid && forall i :: 0 <= i < |steps| ==> StepBelow(steps[i], base)
    requires forall a {:trigger Solvable(a, mid, cnf2)} :: Solvable(a, mid, cnf2) <==>
      AllHold(a, cnf1) && Feasible(a, aut, steps)
    ensures Solvable(r, base, cnf2) <==> Solvable(r, base, cnf1) && Feasible(r, aut, steps)
  {
    hide StepBelow, Feasible, AllHold;
    if Solvable(r, base, cnf2) {
      var a :| SameBelow(a, r, base) && AllHold(a, cnf2);
      assert Solvable(a, mid, cnf2);
      FeasibleLocal(a, r, base, aut, steps);
    }
    if Solvable(r, base, cnf1) && Feasible(r, aut, steps) {
      var a :| SameBelow(a, r, base) && AllHold(a, cnf1);
      FeasibleLocal(a, r, base, aut, steps);
      assert Solvable(a, mid, cnf2);
      var b :| SameBelow(b, a, mid) && AllHold(b, cnf2);
      assert SameBelow(b, r, base);
    }
  }

  /** The path reads a word of the pattern. */
  ghost predicate Covers(r: Valuation, p: Pattern, code: Program, es: seq<Event>) {
    exists w :: InLanguage(p, w) && PathReads(r, code, es, |es|, w)
  }

  /** The path reads a word of the pattern as built. */
  ghost predicate CoversBuilt(r: Valuation, p: Pattern, code: Program, es: seq<Event>) {
    exists w :: AsBuilt(p, w) && PathReads(r, code, es, |es|, w)
  }

  /** Compiles the cover pattern, then unrolls its automaton and that of the passing clause over the
      same events; the second time the map of target graphs has those of the passing clause, too.
      For every valuation of the program variables the result has a solution exactly when the given
      constraints hold, the path reads a word of the pattern as built, and it reads a word of the
      passing clause.  For patterns that keep all these are the words of the pattern. */
  method DoQuery(eval: Evaluator, cover: Pattern, passing: Nfa, coverCode: Program, passingCode: Program,
                 es: seq<Event>, cnf0: seq<Exp>, base: Var)
    returns (cnf: seq<Exp>, goals: TestGoalStates)
    requires AtomsOk(cover) && WellFormed(passing) && NoEpsilon(passing.trans) && |passing.initial| == 1
    requires AllBelow(cnf0, base) && EventsBelow(coverCode, es, base) && EventsBelow(passingCode, es, base)
    modifies eval, eval.aut
    ensures forall r {:trigger Solvable(r, base, cnf)} :: Solvable(r, base, cnf) <==>
      AllHold(r, cnf0) && CoversBuilt(r, cover, coverCode, es) && Possible(r, passing, passingCode, es)
    ensures KeepsAll(cover) ==> forall r {:trigger Solvable(r, base, cnf)} :: Solvable(r, base, cnf) <==>
      AllHold(r, cnf0) && Covers(r, cover, coverCode, es) && Possible(r, passing, passingCode, es)
    ensures forall s :: s in eval.all <==> GoalIn(goals, s)
    ensures Shaped(eval.aut.View(), iset{[]}, cover, goals)
  {
    hide *;
    EventsKnown(passingCode, es, base);
    PathBelow(passingCode, es, |es|, base);
    ghost var steps := Path(passingCode, es, |es|);
    goals := eval.DoQuery(cover);
    IsWellFormed(eval);
    ghost var aut := eval.aut.View();
    var mid;
    cnf, mid := Build(Nfa(eval.aut.states, eval.aut.trans, eval.aut.initial, eval.aut.finals), coverCode, es, cnf0,
      base);
    ghost var cnf1 := cnf;
    EventsBelowMore(passingCode, es, base, mid);
    var vars;
    cnf, vars := Build(passing, passingCode, es, cnf, mid);
    forall r ensures Possible(r, passing, passingCode, es) <==> Feasible(r, passing, steps) {
      StepsPossible(r, passing, passingCode, es);
    }
    forall r
      ensures Solvable(r, base, cnf) <==>
        AllHold(r, cnf0) && CoversBuilt(r, cover, coverCode, es) && Possible(r, passing, passingCode, es) {
      BothSolvable(r, base, mid, cnf1, cnf, passing, steps);
      SameCover(r, aut, cover, coverCode, es);
    }
    if KeepsAll(cover) {
      forall r ensures CoversBuilt(r, cover, coverCode, es) <==> Covers(r, cover, coverCode, es) {
        KeptCover(r, cover, coverCode, es);
      }
    }
  }

  lemma EventsBelowMore(code: Program, es: seq<Event>, n: Var, m: Var)
    requires EventsBelow(code, es, n) && n <= m
    ensures EventsBelow(code, es, m)
  {
    hide Below, JumpsKnown, InstructionOk, Behind;
    forall i | 0 <= i < |es| && Counts(code, es[i]) ensures Below(es[i].guard.value, m) {
      BelowMono(es[i].guard.value, n, m);
    }
    forall i: nat, j: nat | i < |es| && Counts(code, es[i]) && Behind(es, i, j) && j < |es| && es[j].guard.Some?
      ensures Below(es[j].guard.value, m) {
      BelowMono(es[j].guard.value, n, m);
    }
  }

  lemma KeptCover(r: Valuation, p: Pattern, code: Program, es: seq<Event>)
    requires KeepsAll(p)
    ensures CoversBuilt(r, p, code, es) <==> Covers(r, p, code, es)
  {
    hide AsBuilt, InLanguage, KeepsAll, PathReads;
    forall w ensures AsBuilt(p, w) <==> InLanguage(p, w) { KeepsLanguage(p, w); }
  }

  // ---------- which patterns lose a path ----------

  /** A straight-line program: location number `k` reads label number `k` of `w` on its only edge. */
  function Straight(w: Symbols): Program {
    (pc: nat) =>
      Instruction(false, false, false, false, None, Some([MappedEdge(false, {if pc < |w| then w[pc] else 0})]))
  }

  /** The first `n` locations, all executed. */
  ghost function Locations(n: nat): seq<Event> {
    if n == 0 then [] else Locations(n - 1) + [Event(n - 1, Location, Some(Const(true)))]
  }

  lemma {:induction false} LocationAt(n: nat, i: nat)
    requires i < n
    ensures |Locations(n)| == n && Locations(n)[i] == Event(i, Location, Some(Const(true)))
    decreases n
  {
    if i < n - 1 { LocationAt(n - 1, i); }
    else if n > 1 { LocationAt(n - 1, 0); }
  }

  /** Different locations are different steps. */
  lemma LocationKept(w: Symbols, i: nat)
    requires i < |w|
    ensures |Locations(|w|)| == |w| && KeptAt(Straight(w), Locations(|w|), i)
  {
    var es := Locations(|w|);
    LocationAt(|w|, i);
  }

  lemma LocationReads(r: Valuation, w: Symbols, i: nat, v: Symbols)
    requires i < |w| == |Locations(|w|)| && Counts(Straight(w), Locations(|w|)[i])
    ensures EventReads(r, Straight(w), Locations(|w|), i, v) <==> v == [w[i]]
  {
    var es, code := Locations(|w|), Straight(w);
    LocationAt(|w|, i);
    var c := code(es[i].pc);
    var jumps := Jumps(r, code, es, i);
    assert Taken(c, jumps, 0);
    OnlyEdges(c, jumps, v);
    assert EventReads(r, code, es, i, v) <==> EdgeLabels(c, jumps, v);
    if v == [w[i]] { assert EdgeLabels(c, jumps, v); }
    if EdgeLabels(c, jumps, v) {
      var k: nat :| Taken(c, jumps, k) && |v| == 1 && v[0] in c.edges.value[k].graphs;
      assert k == 0 && v == [v[0]];
    }
  }

  /** The straight-line path reads exactly its word. */
  lemma {:induction false} StraightReads(r: Valuation, w: Symbols, n: nat, v: Symbols)
    requires n <= |w| == |Locations(|w|)|
    ensures PathReads(r, Straight(w), Locations(|w|), n, v) <==> v == w[..n]
    decreases n
  {
    hide EventReads, KeptAt, Counts;
    var es, code := Locations(|w|), Straight(w);
    if n > 0 {
      LocationKept(w, n - 1);
      KeptCounts(code, es, n - 1);
      assert w[..n] == w[..n - 1] + [w[n - 1]];
      if PathReads(r, code, es, n, v) {
        var j :| 0 <= j <= |v| && PathReads(r, code, es, n - 1, v[..j]) && EventReads(r, code, es, n - 1, v[j..]);
        StraightReads(r, w, n - 1, v[..j]);
        LocationReads(r, w, n - 1, v[j..]);
        assert v == v[..j] + v[j..];
      }
      if v == w[..n] {
        StraightReads(r, w, n - 1, v[..n - 1]);
        LocationReads(r, w, n - 1, v[n - 1..]);
        assert v[..n - 1] == w[..n - 1] && v[n - 1..] == [w[n - 1]];
      }
    }
  }

  ghost predicate LosesNoWord(p: Pattern) { forall w :: InLanguage(p, w) <==> AsBuilt(p, w) }

  ghost predicate LosesNoPath(p: Pattern) {
    forall r, code, es :: Covers(r, p, code, es) <==> CoversBuilt(r, p, code, es)
  }

  /** The query finds every path that reads a word of a pattern exactly if the pattern loses no word. */
  lemma NoPathLost(p: Pattern)
    ensures LosesNoPath(p) <==> LosesNoWord(p)
  {
    hide InLanguage, AsBuilt, PathReads, Straight, Locations;
    if LosesNoPath(p) {
      forall w ensures InLanguage(p, w) <==> AsBuilt(p, w) {
        var r: Valuation := iset{};
        var es, code := Locations(|w|), Straight(w);
        LocationsSize(|w|);
        forall v ensures PathReads(r, code, es, |es|, v) <==> v == w {
          StraightReads(r, w, |w|, v);
          assert w[..|w|] == w;
        }
        assert Covers(r, p, code, es) <==> InLanguage(p, w);
        assert CoversBuilt(r, p, code, es) <==> AsBuilt(p, w);
      }
    }
  }

  lemma LocationsSize(n: nat)
    ensures |Locations(n)| == n
  {
    if n > 0 { LocationAt(n, 0); }
  }

  /** A path without events reads a word of "any number of `l`, or `l` once", but none of the pattern as
      built. */
  lemma EmptyPathLost(r: Valuation, l: int, code: Program)
    requires l != Epsilon
    ensures var p := Alternative(Pattern.Atom(Repeated(l)), Pattern.Atom(Single(l)));
      Covers(r, p, code, []) && !CoversBuilt(r, p, code, [])
  {
    hide InLanguage, AsBuilt, Accepts;
    EmptyWordLost(l);
    assert PathReads(r, code, [], 0, []);
  }

  lemma IsWellFormed(eval: Evaluator)
    requires eval.aut.Valid()
    ensures WellFormed(eval.aut.View()) && eval.aut.View() ==
      Nfa(eval.aut.states, eval.aut.trans, eval.aut.initial, eval.aut.finals)
  {
  }

  lemma SameCover(r: Valuation, aut: Nfa, p: Pattern, code: Program, es: seq<Event>)
    requires forall w :: Accepts(aut, w) <==> AsBuilt(p, w)
    ensures Possible(r, aut, code, es) <==> CoversBuilt(r, p, code, es)
  {
    hide Accepts, AsBuilt, PathReads;
  }
}
