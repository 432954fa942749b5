/** What a program path lets an automaton read, and the constraints that say so. */
module Unrolling {
  import opened Basics
  import opened Cnf
  import opened Booleans
  import opened Nfas

  /** An outgoing edge of a location that some target graph contains. */
  datatype MappedEdge = MappedEdge(jump: bool, graphs: set<int>)

  /** One program step.  `guard` says whether it is executed and `jump`, at a goto, whether it jumps;
      `nodes` and `edges` are the target graphs its location and outgoing edges are mapped to. */
  datatype Step = Step(guard: Exp, isGoto: bool, jump: Exp, instrumented: bool, nodes: Option<set<int>>,
    edges: Option<seq<MappedEdge>>)

  /** At most two outgoing edges, and two only at a goto: the jump and the fall-through. */
  ghost predicate StepOk(st: Step) {
    st.edges.Some? ==>
      var es := st.edges.value;
      && (|es| == 1 || (|es| == 2 && st.isGoto && !st.instrumented && es[0].jump != es[1].jump))
      && (!st.isGoto ==> !es[0].jump)
  }

  /** All the outgoing edges of a mapped location are mapped. */
  ghost predicate Complete(st: Step)
    requires StepOk(st)
  {
    st.edges.Some? && st.isGoto ==> |st.edges.value| == 2 || (st.jump == Const(true) && st.edges.value[0].jump)
  }

  // ---------- what a path reads ----------

  /** The path takes the mapped edge number `k` of the step. */
  ghost predicate Takes(a: Valuation, st: Step, k: nat)
    requires st.edges.Some? && k < |st.edges.value|
  {
    Holds(a, st.guard) && (st.isGoto ==> (st.edges.value[k].jump <==> Holds(a, st.jump)))
  }

  ghost predicate TakesSome(a: Valuation, st: Step)
    requires st.edges.Some?
  {
    exists k :: 0 <= k < |st.edges.value| && Takes(a, st, k)
  }

  /** A label of the taken edge is read, and at an instrumented location nothing may be read
      instead; a step that is not executed reads nothing, and an executed step without mapped
      edges cannot be passed unless it is instrumented. */
  ghost predicate EdgeWord(a: Valuation, st: Step, w: Symbols) {
    if st.edges.None? then w == [] && (st.instrumented || !Holds(a, st.guard))
    else if TakesSome(a, st) then
      exists k :: 0 <= k < |st.edges.value| && Takes(a, st, k) &&
        ((|w| == 1 && w[0] in st.edges.value[k].graphs) || (st.instrumented && w == []))
    else w == []
  }

  /** Any number of node labels of an executed location. */
  ghost predicate NodeWord(a: Valuation, st: Step, w: Symbols) {
    w != [] ==> st.nodes.Some? && Holds(a, st.guard) && forall l :: l in w ==> l in st.nodes.value
  }

  ghost predicate StepWord(a: Valuation, st: Step, w: Symbols) {
    exists j :: 0 <= j <= |w| && NodeWord(a, st, w[..j]) && EdgeWord(a, st, w[j..])
  }

  ghost predicate Matches(a: Valuation, steps: seq<Step>, w: Symbols) {
    if |steps| == 0 then w == []
    else exists j ::
      0 <= j <= |w| && Matches(a, steps[..|steps| - 1], w[..j]) && StepWord(a, steps[|steps| - 1], w[j..])
  }

  /** When all outgoing edges are mapped, an executed step reads a label of the edge it takes. */
  lemma CompleteReads(a: Valuation, st: Step, w: Symbols)
    requires StepOk(st) && Complete(st) && Holds(a, st.guard) && EdgeWord(a, st, w) && !st.instrumented
    ensures st.edges.Some?
      && exists k :: 0 <= k < |st.edges.value| && Takes(a, st, k) && |w| == 1 && w[0] in st.edges.value[k].graphs
  {
    assert Takes(a, st, 0) || (|st.edges.value| == 2 && Takes(a, st, 1));
  }

  /** An executed step at a mapped location passes without reading exactly where one of the two edges
      of a goto is mapped and the path takes the other. */
  lemma PassesUnread(a: Valuation, st: Step)
    requires StepOk(st) && st.edges.Some? && Holds(a, st.guard) && !st.instrumented
    ensures EdgeWord(a, st, []) <==> st.isGoto && |st.edges.value| == 1 && st.edges.value[0].jump != Holds(a, st.jump)
  {
    assert Takes(a, st, 0) || (|st.edges.value| == 2 && Takes(a, st, 1)) ||
      (st.isGoto && |st.edges.value| == 1 && st.edges.value[0].jump != Holds(a, st.jump));
  }

  /** No two mapped edges are taken at once. */
  lemma TakesOne(a: Valuation, st: Step, j: nat, k: nat)
    requires StepOk(st) && st.edges.Some? && j < |st.edges.value| && k < |st.edges.value| && Takes(a, st, j)
      && Takes(a, st, k)
    ensures j == k
  {
  }

  // ---------- one change of the state vector ----------

  ghost predicate NodeMove(a: Valuation, t: set<Edge>, guard: Exp, graphs: set<int>, s: nat, s': nat) {
    s == s' || (Holds(a, guard) && Reads(t, graphs, s, s'))
  }

  ghost predicate Reads(t: set<Edge>, graphs: set<int>, s: nat, s': nat) {
    exists l :: l in graphs && Edge(s, l, s') in t
  }

  ghost predicate EdgeMove(a: Valuation, t: set<Edge>, st: Step, s: nat, s': nat)
    requires st.edges.Some?
  {
    && (forall k :: 0 <= k < |st.edges.value| && Takes(a, st, k) ==>
      Reads(t, st.edges.value[k].graphs, s, s') || (st.instrumented && s == s'))
    && (TakesSome(a, st) || s == s')
  }

  /** A change of the state vector reads an edge word. */
  lemma EdgeMoveReads(a: Valuation, t: set<Edge>, st: Step, s: nat, s': nat)
    requires StepOk(st) && st.edges.Some? && NoEpsilon(t) && EdgeMove(a, t, st, s, s')
    ensures exists w :: EdgeWord(a, st, w) && Goes(t, s, w, s')
  {
    hide Goes, Holds;
    GoesNowhere(t, s);
    if TakesSome(a, st) {
      var k :| 0 <= k < |st.edges.value| && Takes(a, st, k);
      if Reads(t, st.edges.value[k].graphs, s, s') {
        var l :| l in st.edges.value[k].graphs && Edge(s, l, s') in t;
        GoesEdge(t, Edge(s, l, s'));
        assert EdgeWord(a, st, [l]);
      } else { assert EdgeWord(a, st, []); }
    } else { assert EdgeWord(a, st, []); }
  }

  lemma EdgeWordMoves(a: Valuation, t: set<Edge>, st: Step, s: nat, w: Symbols, s': nat)
    requires StepOk(st) && st.edges.Some? && NoEpsilon(t) && EdgeWord(a, st, w) && Goes(t, s, w, s')
    ensures EdgeMove(a, t, st, s, s')
  {
    hide Goes, Holds;
    if w == [] { NoMove(t, s, s'); }
    if TakesSome(a, st) {
      var k :| 0 <= k < |st.edges.value| && Takes(a, st, k)
        && ((|w| == 1 && w[0] in st.edges.value[k].graphs) || (st.instrumented && w == []));
      if |w| == 1 { assert w == [w[0]];
        OneMove(t, s, w[0], s'); }
      forall j | 0 <= j < |st.edges.value| && Takes(a, st, j) ensures j == k { TakesOne(a, st, j, k); }
    }
  }

  // ---------- node rounds ----------

  /** `n` optional rounds of node transitions. */
  ghost predicate Rounds(a: Valuation, t: set<Edge>, guard: Exp, graphs: set<int>, n: nat, s: nat, s': nat) {
    if n == 0 then s == s'
    else exists x :: Rounds(a, t, guard, graphs, n - 1, s, x) && NodeMove(a, t, guard, graphs, x, s')
  }

  ghost function Sources(t: set<Edge>, graphs: set<int>): set<State> { set e | e in t && e.sym in graphs :: e.src }

  ghost predicate Labelled(es: seq<Edge>, graphs: set<int>) { forall i :: 0 <= i < |es| ==> es[i].sym in graphs }

  /** A run of node transitions from `s` to `s'`. */
  ghost predicate NodeRun(t: set<Edge>, graphs: set<int>, s: nat, es: seq<Edge>, s': nat) {
    Chain(t, s, es, s') && Labelled(es, graphs)
  }

  /** A list longer than a set that holds all its elements repeats one. */
  lemma {:induction false} Pigeonhole(xs: seq<State>, s: set<State>) returns (i: nat, j: nat)
    requires |xs| > |s| && forall k :: 0 <= k < |xs| ==> xs[k] in s
    ensures i < j < |xs| && xs[i] == xs[j]
    decreases |xs|
  {
    var n := |xs| - 1;
    var x := xs[n];
    if k :| 0 <= k < n && xs[k] == x { i, j := k, n; }
    else {
      assert |s - {x}| == |s| - 1;
      i, j := Pigeonhole(xs[..n], s - {x});
    }
  }

  lemma {:induction false} ChainSplit(t: set<Edge>, u: State, es: seq<Edge>, v: State, i: nat)
    requires Chain(t, u, es, v) && i < |es|
    ensures Chain(t, u, es[..i], es[i].src) && Chain(t, es[i].src, es[i..], v) && es[i] in t
    decreases |es|
  {
    if i > 0 {
      ChainSplit(t, es[0].dst, es[1..], v, i - 1);
      assert es[1..][..i - 1] == es[..i][1..] && es[1..][i - 1..] == es[i..];
    }
  }

  /** Cutting a loop out of a long run leaves at most as many edges as there are sources. */
  lemma {:induction false} ShortRun(t: set<Edge>, graphs: set<int>, s: nat, es: seq<Edge>, s': nat)
    returns (fs: seq<Edge>)
    requires NodeRun(t, graphs, s, es, s')
    ensures NodeRun(t, graphs, s, fs, s') && |fs| <= |Sources(t, graphs)|
    decreases |es|
  {
    fs := es;
    if |es| > |Sources(t, graphs)| {
      var srcs := seq(|es|, i requires 0 <= i < |es| => es[i].src);
      forall k | 0 <= k < |srcs| ensures srcs[k] in Sources(t, graphs) { ChainSplit(t, s, es, s', k); }
      var i, j := Pigeonhole(srcs, Sources(t, graphs));
      ChainSplit(t, s, es, s', i);
      ChainSplit(t, s, es, s', j);
      ChainAppend(t, s, es[..i], es[i].src, es[j..], s');
      fs := ShortRun(t, graphs, s, es[..i] + es[j..], s');
    }
  }

  lemma {:induction false} RunRounds(a: Valuation, t: set<Edge>, guard: Exp, graphs: set<int>, n: nat, s: nat,
                                     es: seq<Edge>, s': nat)
    requires NodeRun(t, graphs, s, es, s') && |es| <= n && Holds(a, guard)
    ensures Rounds(a, t, guard, graphs, n, s, s')
    decreases n
  {
    if |es| == 0 {
      if n > 0 { RunRounds(a, t, guard, graphs, n - 1, s, es, s'); assert NodeMove(a, t, guard, graphs, s', s'); }
    } else {
      ChainEnds(t, s, es, s');
      var e := es[|es| - 1];
      RunRounds(a, t, guard, graphs, n - 1, s, es[..|es| - 1], e.src);
      assert Reads(t, graphs, e.src, s') && NodeMove(a, t, guard, graphs, e.src, s');
    }
  }

  lemma {:induction false} RoundsRun(a: Valuation, t: set<Edge>, guard: Exp, graphs: set<int>, n: nat, s: nat, s': nat)
    returns (es: seq<Edge>)
    requires Rounds(a, t, guard, graphs, n, s, s')
    ensures NodeRun(t, graphs, s, es, s') && (!Holds(a, guard) ==> s == s' && es == [])
  {
    es := [];
    if n > 0 {
      var x :| Rounds(a, t, guard, graphs, n - 1, s, x) && NodeMove(a, t, guard, graphs, x, s');
      es := RoundsRun(a, t, guard, graphs, n - 1, s, x);
      if x != s' {
        var l :| l in graphs && Edge(x, l, s') in t;
        var e := Edge(x, l, s');
        assert [e][1..] == [] && Chain(t, s', [], s') && Chain(t, x, [e], s');
        ChainAppend(t, s, es, x, [e], s');
        es := es + [e];
      }
    }
  }

  /** As many rounds as there are sources reach exactly what any number of node transitions
      reaches, and nothing but the same state when the location is not executed. */
  lemma EnoughRounds(a: Valuation, t: set<Edge>, guard: Exp, graphs: set<int>, s: nat, s': nat)
    ensures Rounds(a, t, guard, graphs, |Sources(t, graphs)|, s, s') <==>
      if Holds(a, guard) then exists es :: NodeRun(t, graphs, s, es, s') else s == s'
  {
    var n := |Sources(t, graphs)|;
    if Rounds(a, t, guard, graphs, n, s, s') { var es := RoundsRun(a, t, guard, graphs, n, s, s'); }
    if Holds(a, guard) {
      if es :| NodeRun(t, graphs, s, es, s') {
        var fs := ShortRun(t, graphs, s, es, s');
        RunRounds(a, t, guard, graphs, n, s, fs, s');
      }
    } else if s == s' { RoundsStay(a, t, guard, graphs, n, s); }
  }

  lemma {:induction false} RoundsStay(a: Valuation, t: set<Edge>, guard: Exp, graphs: set<int>, n: nat, s: nat)
    ensures Rounds(a, t, guard, graphs, n, s, s)
  {
    if n > 0 { RoundsStay(a, t, guard, graphs, n - 1, s); assert NodeMove(a, t, guard, graphs, s, s); }
  }

  // ---------- solutions ----------

  /** Some solution of the constraints extends `r` and has the vector in state `s`. */
  ghost predicate At(r: Valuation, base: Var, cnf: seq<Exp>, vec: seq<Exp>, s: nat) {
    s < Pow(2, |vec|) && exists a :: SolvesAt(a, r, base, cnf, vec, s)
  }

  ghost predicate SolvesAt(a: Valuation, r: Valuation, base: Var, cnf: seq<Exp>, vec: seq<Exp>, s: nat) {
    SameBelow(a, r, base) && AllHold(a, cnf) && Encodes(a, vec, s)
  }

  ghost predicate Codes(reached: set<nat>, w: nat) { forall s :: s in reached ==> s < Pow(2, w) }

  ghost predicate InSome(a: Valuation, vec: seq<Exp>, reached: set<nat>) {
    exists s :: s in reached && Encodes(a, vec, s)
  }

  /** In every solution the vector is one of the possibly reached states. */
  ghost predicate StoreOk(base: Var, cnf: seq<Exp>, vec: seq<Exp>, next: Var, reached: set<nat>) {
    && base <= next && AllBelow(cnf, next) && AllBelow(vec, next) && Codes(reached, |vec|)
    && forall a :: AllHold(a, cnf) ==> InSome(a, vec, reached)
  }

  type Move = (Valuation, nat, nat) -> bool

  /** A move depends on the program variables only. */
  ghost predicate LocalMove(move: Move, base: Var) {
    forall a, b, s, t {:trigger move(a, s, t), move(b, s, t)} :: SameBelow(a, b, base) ==>
      (move(a, s, t) <==> move(b, s, t))
  }

  ghost predicate MovesTo(a: Valuation, move: Move, vec: seq<Exp>, reached: set<nat>, s: nat) {
    exists t :: t in reached && move(a, s, t) && Encodes(a, vec, t)
  }

  /** The constraints `d` say that the state vector makes a move. */
  ghost predicate Describes(d: seq<Exp>, vec: seq<Exp>, vec': seq<Exp>, reached: set<nat>, reached': set<nat>,
                            move: Move) {
    && (forall a, s {:trigger Encodes(a, vec, s)} :: s in reached && Encodes(a, vec, s) ==>
      (AllHold(a, d) <==> MovesTo(a, move, vec', reached', s)))
    && (forall a, s, t {:trigger move(a, s, t)} :: s in reached && move(a, s, t) ==> t in reached')
  }

  ghost predicate After(r: Valuation, base: Var, cnf: seq<Exp>, vec: seq<Exp>, move: Move, t: nat) {
    exists s :: At(r, base, cnf, vec, s) && move(r, s, t)
  }

  lemma AllHoldBoth(a: Valuation, c: seq<Exp>, d: seq<Exp>)
    ensures AllHold(a, c + d) <==> AllHold(a, c) && AllHold(a, d)
  {
    hide Holds;
    if AllHold(a, c + d) {
      forall i | 0 <= i < |c| ensures Holds(a, c[i]) { assert (c + d)[i] == c[i]; }
      forall i | 0 <= i < |d| ensures Holds(a, d[i]) { assert (c + d)[|c| + i] == d[i]; }
    }
  }

  lemma AllBelowBoth(c: seq<Exp>, d: seq<Exp>, n: Var)
    ensures AllBelow(c + d, n) <==> AllBelow(c, n) && AllBelow(d, n)
  {
    hide Below;
    if AllBelow(c + d, n) {
      forall i | 0 <= i < |c| ensures Below(c[i], n) { assert (c + d)[i] == c[i]; }
      forall i | 0 <= i < |d| ensures Below(d[i], n) { assert (c + d)[|c| + i] == d[i]; }
    }
  }

  lemma VariablesBelow(n: Var, w: nat)
    ensures AllBelow(Variables(n, w), n + w)
  {
  }

  /** In a solution the state is a reached one. */
  lemma StateReached(a: Valuation, base: Var, cnf: seq<Exp>, vec: seq<Exp>, next: Var, reached: set<nat>, s: nat)
    requires StoreOk(base, cnf, vec, next, reached) && AllHold(a, cnf) && Encodes(a, vec, s) && s < Pow(2, |vec|)
    ensures s in reached
  {
    hide Encodes, AllHold;
    assert InSome(a, vec, reached);
    var x :| x in reached && Encodes(a, vec, x);
    EncodesOne(a, vec, s, x);
  }

  lemma MoveSound(r: Valuation, base: Var, cnf: seq<Exp>, vec: seq<Exp>, next: Var, reached: set<nat>, d: seq<Exp>,
                  reached': set<nat>, move: Move, t: nat)
    requires StoreOk(base, cnf, vec, next, reached) && LocalMove(move, base) && Codes(reached', |vec|)
    requires Describes(d, vec, Variables(next, |vec|), reached, reached', move)
      && At(r, base, cnf + d, Variables(next, |vec|), t)
    ensures After(r, base, cnf, vec, move, t)
  {
    hide Encodes, AllHold, Pow;
    var vec' := Variables(next, |vec|);
    var a :| SolvesAt(a, r, base, cnf + d, vec', t);
    AllHoldBoth(a, cnf, d);
    assert InSome(a, vec, reached);
    var s :| s in reached && Encodes(a, vec, s);
    assert MovesTo(a, move, vec', reached', s);
    var x :| x in reached' && move(a, s, x) && Encodes(a, vec', x);
    EncodesOne(a, vec', t, x);
    assert SolvesAt(a, r, base, cnf, vec, s);
    assert move(a, s, t) <==> move(r, s, t);
  }

  lemma MoveComplete(r: Valuation, base: Var, cnf: seq<Exp>, vec: seq<Exp>, next: Var, reached: set<nat>, d: seq<Exp>,
                     reached': set<nat>, move: Move, t: nat)
    requires StoreOk(base, cnf, vec, next, reached) && LocalMove(move, base) && Codes(reached', |vec|)
    requires Describes(d, vec, Variables(next, |vec|), reached, reached', move) && After(r, base, cnf, vec, move, t)
    ensures At(r, base, cnf + d, Variables(next, |vec|), t)
  {
    hide Encodes, AllHold, Pow, AllBelow;
    var vec' := Variables(next, |vec|);
    var s :| At(r, base, cnf, vec, s) && move(r, s, t);
    var a :| SolvesAt(a, r, base, cnf, vec, s);
    StateReached(a, base, cnf, vec, next, reached, s);
    var b := SetVariables(a, next, |vec|, t);
    Unaffected(a, b, next, cnf, vec, s);
    assert SameBelow(b, r, base);
    assert move(b, s, t) <==> move(r, s, t);
    assert MovesTo(b, move, vec', reached', s);
    AllHoldBoth(b, cnf, d);
    assert SolvesAt(b, r, base, cnf + d, vec', t);
  }

  lemma Unaffected(a: Valuation, b: Valuation, n: Var, cnf: seq<Exp>, vec: seq<Exp>, s: nat)
    requires AllBelow(cnf, n) && AllBelow(vec, n) && SameBelow(a, b, n)
    ensures (AllHold(a, cnf) <==> AllHold(b, cnf)) && (Encodes(a, vec, s) <==> Encodes(b, vec, s))
  {
    HoldLocal(a, b, n, cnf);
    EncodesLocal(a, b, n, vec, s);
  }

  /** Adding the constraints of a move makes exactly that move. */
  lemma MoveStep(base: Var, cnf: seq<Exp>, vec: seq<Exp>, next: Var, reached: set<nat>, d: seq<Exp>, reached': set<nat>,
                 move: Move)
    requires StoreOk(base, cnf, vec, next, reached) && LocalMove(move, base) && Codes(reached', |vec|)
      && AllBelow(d, next + |vec|)
    requires Describes(d, vec, Variables(next, |vec|), reached, reached', move)
    ensures StoreOk(base, cnf + d, Variables(next, |vec|), next + |vec|, reached')
    ensures forall r, t :: At(r, base, cnf + d, Variables(next, |vec|), t) <==> After(r, base, cnf, vec, move, t)
  {
    hide Encodes, AllHold, Pow, AllBelow, At, After;
    var vec' := Variables(next, |vec|);
    forall r, t ensures At(r, base, cnf + d, vec', t) <==> After(r, base, cnf, vec, move, t) {
      if At(r, base, cnf + d, vec', t) { MoveSound(r, base, cnf, vec, next, reached, d, reached', move, t); }
      if After(r, base, cnf, vec, move, t) { MoveComplete(r, base, cnf, vec, next, reached, d, reached', move, t); }
    }
    forall a | AllHold(a, cnf + d) ensures InSome(a, vec', reached') {
      AllHoldBoth(a, cnf, d);
      assert InSome(a, vec, reached);
      var s :| s in reached && Encodes(a, vec, s);
      assert MovesTo(a, move, vec', reached', s);
    }
    AllBelowMono(cnf, next, next + |vec|);
    AllBelowBoth(cnf, d, next + |vec|);
    VariablesBelow(next, |vec|);
  }

  // ---------- a whole step ----------

  lemma {:induction false} LabelledWord(t: set<Edge>, u: State, es: seq<Edge>, v: State, graphs: set<int>)
    requires NoEpsilon(t) && Chain(t, u, es, v)
    ensures |Word(es)| == |es| && (Labelled(es, graphs) <==> forall l :: l in Word(es) ==> l in graphs)
    decreases |es|
  {
    if |es| > 0 {
      LabelledWord(t, es[0].dst, es[1..], v, graphs);
      assert Word(es) == [es[0].sym] + Word(es[1..]);
      assert Labelled(es, graphs) <==> es[0].sym in graphs && Labelled(es[1..], graphs) by {
        if Labelled(es, graphs) { assert forall i :: 0 <= i < |es| - 1 ==> es[1..][i] == es[i + 1]; }
        if es[0].sym in graphs && Labelled(es[1..], graphs) {
          forall i | 0 <= i < |es| ensures es[i].sym in graphs { assert i > 0 ==> es[i] == es[1..][i - 1]; }
        }
      }
    }
  }

  ghost predicate NodeGoes(a: Valuation, t: set<Edge>, st: Step, s: nat, s': nat) {
    exists w :: NodeWord(a, st, w) && Goes(t, s, w, s')
  }
  ghost predicate EdgeGoes(a: Valuation, t: set<Edge>, st: Step, s: nat, s': nat) {
    exists w :: EdgeWord(a, st, w) && Goes(t, s, w, s')
  }
  ghost predicate StepGoes(a: Valuation, t: set<Edge>, st: Step, s: nat, s': nat) {
    exists w :: StepWord(a, st, w) && Goes(t, s, w, s')
  }

  /** The rounds of node transitions read the node words of the step. */
  lemma RoundsRead(a: Valuation, t: set<Edge>, st: Step, s: nat, s': nat)
    requires NoEpsilon(t) && st.nodes.Some?
    ensures Rounds(a, t, st.guard, st.nodes.value, |Sources(t, st.nodes.value)|, s, s') <==> NodeGoes(a, t, st, s, s')
  {
    hide Holds, Rounds, Sources;
    var graphs := st.nodes.value;
    EnoughRounds(a, t, st.guard, graphs, s, s');
    if Holds(a, st.guard) {
      if es :| NodeRun(t, graphs, s, es, s') {
        LabelledWord(t, s, es, s', graphs);
        assert NodeWord(a, st, Word(es)) && Goes(t, s, Word(es), s');
      }
      if NodeGoes(a, t, st, s, s') {
        var w :| NodeWord(a, st, w) && Goes(t, s, w, s');
        var es :| Chain(t, s, es, s') && Word(es) == w;
        LabelledWord(t, s, es, s', graphs);
        assert NodeRun(t, graphs, s, es, s');
      }
    } else {
      NoNodes(a, t, st, s, s');
    }
  }

  lemma NoNodes(a: Valuation, t: set<Edge>, st: Step, s: nat, s': nat)
    requires NoEpsilon(t) && (st.nodes.None? || !Holds(a, st.guard))
    ensures NodeGoes(a, t, st, s, s') <==> s == s'
  {
    hide Goes, Holds;
    if NodeGoes(a, t, st, s, s') {
      var w :| NodeWord(a, st, w) && Goes(t, s, w, s');
      NoMove(t, s, s');
    }
    GoesNowhere(t, s);
    assert NodeWord(a, st, []);
  }

  lemma EdgeMoveGoes(a: Valuation, t: set<Edge>, st: Step, s: nat, s': nat)
    requires StepOk(st) && st.edges.Some? && NoEpsilon(t)
    ensures EdgeMove(a, t, st, s, s') <==> EdgeGoes(a, t, st, s, s')
  {
    hide EdgeMove, EdgeWord, Goes;
    if EdgeMove(a, t, st, s, s') { EdgeMoveReads(a, t, st, s, s'); }
    if EdgeGoes(a, t, st, s, s') {
      var w :| EdgeWord(a, st, w) && Goes(t, s, w, s');
      EdgeWordMoves(a, t, st, s, w, s');
    }
  }

  /** Without mapped edges the state stays, and an executed step must be instrumented. */
  lemma UnmappedGoes(a: Valuation, t: set<Edge>, st: Step, s: nat, s': nat)
    requires st.edges.None? && NoEpsilon(t)
    ensures EdgeGoes(a, t, st, s, s') <==> s == s' && (st.instrumented || !Holds(a, st.guard))
  {
    hide Goes, Holds;
    if EdgeGoes(a, t, st, s, s') {
      var w :| EdgeWord(a, st, w) && Goes(t, s, w, s');
      NoMove(t, s, s');
    }
    GoesNowhere(t, s);
    assert EdgeWord(a, st, []) <==> st.instrumented || !Holds(a, st.guard);
  }

  lemma GoesSplit(t: set<Edge>, s: State, w: Symbols, j: nat, s': State) returns (x: State)
    requires NoEpsilon(t) && j <= |w| && Goes(t, s, w, s')
    ensures Goes(t, s, w[..j], x) && Goes(t, x, w[j..], s')
  {
    var es :| Chain(t, s, es, s') && Word(es) == w;
    x := ChainCut(t, s, es, j, s');
  }

  lemma {:induction false} ChainCut(t: set<Edge>, s: State, es: seq<Edge>, j: nat, s': State) returns (x: State)
    requires NoEpsilon(t) && Chain(t, s, es, s') && j <= |Word(es)|
    ensures Goes(t, s, Word(es)[..j], x) && Goes(t, x, Word(es)[j..], s')
    decreases |es|
  {
    hide Goes;
    var w := Word(es);
    if j == 0 {
      x := s;
      GoesNowhere(t, s);
      assert w[..0] == [] && w[0..] == w;
      ChainGoes(t, s, es, s');
    } else {
      x := ChainCut(t, es[0].dst, es[1..], j - 1, s');
      GoesEdge(t, es[0]);
      assert w == [es[0].sym] + Word(es[1..]);
      assert w[..j] == [es[0].sym] + Word(es[1..])[..j - 1] && w[j..] == Word(es[1..])[j - 1..];
      GoesAppend(t, s, [es[0].sym], es[0].dst, Word(es[1..])[..j - 1], x);
    }
  }

  /** A step reads node labels, then the label of an edge. */
  lemma StepInTwo(a: Valuation, t: set<Edge>, st: Step, s: nat, s': nat)
    requires NoEpsilon(t)
    ensures StepGoes(a, t, st, s, s') <==> exists x :: NodeGoes(a, t, st, s, x) && EdgeGoes(a, t, st, x, s')
  {
    hide Goes, NodeWord, EdgeWord;
    if StepGoes(a, t, st, s, s') {
      var w :| StepWord(a, st, w) && Goes(t, s, w, s');
      var j :| 0 <= j <= |w| && NodeWord(a, st, w[..j]) && EdgeWord(a, st, w[j..]);
      var x := GoesSplit(t, s, w, j, s');
      assert NodeGoes(a, t, st, s, x) && EdgeGoes(a, t, st, x, s');
    }
    if x :| NodeGoes(a, t, st, s, x) && EdgeGoes(a, t, st, x, s') {
      var u :| NodeWord(a, st, u) && Goes(t, s, u, x);
      var v :| EdgeWord(a, st, v) && Goes(t, x, v, s');
      GoesAppend(t, s, u, x, v, s');
      assert (u + v)[..|u|] == u && (u + v)[|u|..] == v;
      assert StepWord(a, st, u + v);
    }
  }

  // ---------- all steps ----------

  /** The path can have taken the automaton from `i` to `s`. */
  ghost predicate PathGoes(a: Valuation, t: set<Edge>, steps: seq<Step>, i: nat, s: nat) {
    exists w :: Matches(a, steps, w) && Goes(t, i, w, s)
  }

  lemma PathStart(a: Valuation, t: set<Edge>, i: nat, s: nat)
    requires NoEpsilon(t)
    ensures PathGoes(a, t, [], i, s) <==> i == s
  {
    hide Goes;
    if PathGoes(a, t, [], i, s) { NoMove(t, i, s); }
    GoesNowhere(t, i);
    assert Matches(a, [], []);
  }

  lemma PathStep(a: Valuation, t: set<Edge>, steps: seq<Step>, st: Step, i: nat, s': nat)
    requires NoEpsilon(t)
    ensures PathGoes(a, t, steps + [st], i, s') <==>
      exists s :: PathGoes(a, t, steps, i, s) && StepGoes(a, t, st, s, s')
  {
    hide Goes, StepWord;
    var all := steps + [st];
    assert all[..|all| - 1] == steps && all[|all| - 1] == st;
    if PathGoes(a, t, all, i, s') {
      var w :| Matches(a, all, w) && Goes(t, i, w, s');
      var j :| 0 <= j <= |w| && Matches(a, steps, w[..j]) && StepWord(a, st, w[j..]);
      var s := GoesSplit(t, i, w, j, s');
      assert PathGoes(a, t, steps, i, s) && StepGoes(a, t, st, s, s');
    }
    if s :| PathGoes(a, t, steps, i, s) && StepGoes(a, t, st, s, s') {
      var u :| Matches(a, steps, u) && Goes(t, i, u, s);
      var v :| StepWord(a, st, v) && Goes(t, s, v, s');
      GoesAppend(t, i, u, s, v, s');
      assert (u + v)[..|u|] == u && (u + v)[|u|..] == v;
      assert Matches(a, all, u + v);
    }
  }
}
