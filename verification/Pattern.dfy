/** Coverage patterns and the automaton that is grown for them one atom at a time. */
module Patterns {
  import opened Nfas
  import opened TraceAutomata

  /** A coverage pattern; an atom, quoted or not, is given by the automaton of its path pattern. */
  datatype Pattern =
    | Atom(ta: Nfa)
    | Alternative(first: Pattern, second: Pattern)
    | Concat(first: Pattern, second: Pattern)

  ghost predicate InLanguage(p: Pattern, w: Symbols) {
    match p
    case Atom(ta) => Accepts(ta, w)
    case Alternative(a, b) => InLanguage(a, w) || InLanguage(b, w)
    case Concat(a, b) => exists j :: 0 <= j <= |w| && InLanguage(a, w[..j]) && InLanguage(b, w[j..])
  }

  /** What the compiled automaton accepts.  Compiling the second operand of an alternative takes back
      that the states where both start are final, so the first operand loses the empty word. */
  ghost predicate AsBuilt(p: Pattern, w: Symbols) {
    match p
    case Atom(ta) => Accepts(ta, w)
    case Alternative(a, b) => (w != [] && AsBuilt(a, w)) || AsBuilt(b, w)
    case Concat(a, b) => exists j :: 0 <= j <= |w| && InLanguage(a, w[..j]) && AsBuilt(b, w[j..])
  }

  ghost function Language(p: Pattern): iset<Symbols> { iset w | InLanguage(p, w) }
  ghost function Built(p: Pattern): iset<Symbols> { iset w | AsBuilt(p, w) }

  /** One initial state and some accepted word; with a single edge between two states, not the empty
      word.  Other atoms may accept it, as quoted ones do. */
  ghost predicate AtomOk(ta: Nfa) {
    && WellFormed(ta) && |ta.initial| == 1 && (exists w :: Accepts(ta, w))
    && (|ta.states| == 2 && |ta.trans| == 1 ==> !Accepts(ta, []))
  }

  ghost predicate AtomsOk(p: Pattern) {
    match p
    case Atom(ta) => AtomOk(ta)
    case Alternative(a, b) => AtomsOk(a) && AtomsOk(b)
    case Concat(a, b) => AtomsOk(a) && AtomsOk(b)
  }

  /** The test-goal states of a pattern and of its parts. */
  datatype TestGoalStates = Goals(states: set<State>, children: seq<TestGoalStates>)

  ghost predicate GoalIn(t: TestGoalStates, s: State) {
    s in t.states || exists c :: c in t.children && GoalIn(c, s)
  }

  /** The recursive search for a test-goal state. */
  method IsTestGoalState(t: TestGoalStates, s: State) returns (r: bool)
    ensures r <==> GoalIn(t, s)
    decreases t
  {
    if s in t.states { return true; }
    if |t.children| == 0 { return false; }
    for i := 0 to |t.children|
      invariant forall c :: c in t.children[..i] ==> !GoalIn(c, s)
    {
      assert t.children[i] in t.children;
      var found := IsTestGoalState(t.children[i], s);
      if found { return true; }
      assert t.children[..i + 1] == t.children[..i] + [t.children[i]];
    }
    assert t.children[..|t.children|] == t.children;
    return false;
  }

  /** A word leads from an initial state into `f`. */
  ghost predicate Arrives(a: Nfa, f: set<State>, w: Symbols) {
    exists i, k :: i in a.initial && k in f && Goes(a.trans, i, w, k)
  }

  ghost function AllStates(a: Nfa): iset<State> { iset s | s in a.states }

  /** The automaton between two atoms. */
  ghost predicate Trimmed(a: Nfa) {
    WellFormed(a) && NoEpsilon(a.trans) && Sustained(a, AllStates(a))
  }

  ghost predicate SplitArrives(a: Nfa, f: set<State>, l: iset<Symbols>, w: Symbols, j: int) {
    0 <= j <= |w| && Arrives(a, f, w[..j]) && w[j..] in l
  }

  /** A word that leads into `f`, and then a word of `l`. */
  ghost predicate Composed(a: Nfa, f: set<State>, l: iset<Symbols>, w: Symbols) {
    exists j :: SplitArrives(a, f, l, w, j)
  }

  /** The same with a word of `l` that is not empty. */
  ghost predicate Extended(a: Nfa, f: set<State>, l: iset<Symbols>, w: Symbols) {
    exists j :: SplitArrives(a, f, l, w, j) && j < |w|
  }

  /** The states made final after `f` was taken over from `a`. */
  ghost function Marked(a: Nfa, f: set<State>, b: Nfa): set<State> { b.finals - (a.finals - f) }

  /** `b` extends `a` by `p` from the states `f` on.  `g` are the states where `p` ends: new ones, and
      all of `f` if `p` has the empty word.  The final ones among them are where `p` ends as built. */
  ghost predicate Compiled(a: Nfa, f: set<State>, p: Pattern, b: Nfa, g: set<State>) {
    && Trimmed(b) && b.initial == a.initial && a.states <= b.states && g <= b.states
    && a.finals - f <= b.finals && Marked(a, f, b) <= g
    && g * a.states == (if [] in Language(p) then f else {})
    && Marked(a, f, b) * a.states == (if [] in Built(p) then f else {})
    && SameOld(a, b)
    && (forall w :: Arrives(b, g - a.states, w) <==> Extended(a, f, Language(p), w))
    && (forall w :: Arrives(b, Marked(a, f, b) - a.states, w) <==> Extended(a, f, Built(p), w))
    && (Inhabited(b, Lost(a, f, b, g)) <==> !KeepsNew(p))
    && (Exact(p) ==> Lost(a, f, b, g) == {})
  }

  ghost predicate Inhabited(a: Nfa, f: set<State>) { exists w :: Arrives(a, f, w) }

  /** The new states where the pattern ends that are not final. */
  ghost function Lost(a: Nfa, f: set<State>, b: Nfa, g: set<State>): set<State> { g - Marked(a, f, b) - a.states }

  ghost predicate HasMore(p: Pattern) { exists w :: w != [] && InLanguage(p, w) }

  /** No new state where `p` ends is left without being final. */
  ghost predicate KeepsNew(p: Pattern) {
    match p
    case Atom(ta) => true
    case Alternative(x, y) => KeepsNew(x) && KeepsNew(y)
    case Concat(x, y) => KeepsNew(y) && (InLanguage(y, []) && !AsBuilt(y, []) ==> !HasMore(x))
  }

  /** The same for states that are not reached, too: the last operand of a concatenation does not lose
      the empty word. */
  ghost predicate Exact(p: Pattern) {
    match p
    case Atom(ta) => true
    case Alternative(x, y) => Exact(x) && Exact(y)
    case Concat(x, y) => Exact(y) && (InLanguage(y, []) ==> AsBuilt(y, []))
  }

  /** Every state where `p` ends is final: the empty word of a left operand is one of the right one. */
  ghost predicate KeepsAll(p: Pattern) { KeepsNew(p) && (InLanguage(p, []) ==> AsBuilt(p, [])) }

  /** The words that lead to old states are the same. */
  ghost predicate SameOld(a: Nfa, b: Nfa) {
    forall k, w {:trigger Arrives(b, {k}, w)} {:trigger Arrives(a, {k}, w)} :: k in a.states ==>
      (Arrives(b, {k}, w) <==> Arrives(a, {k}, w))
  }

  lemma ComposedParts(a: Nfa, f: set<State>, l: iset<Symbols>, w: Symbols)
    ensures Composed(a, f, l, w) <==> Extended(a, f, l, w) || ([] in l && Arrives(a, f, w))
  {
    hide Arrives;
    assert w[..|w|] == w && w[|w|..] == [];
    if Composed(a, f, l, w) {
      var j :| SplitArrives(a, f, l, w, j);
      if j == |w| { assert [] in l; }
    }
    if [] in l && Arrives(a, f, w) { assert SplitArrives(a, f, l, w, |w|); }
  }

  // ---------- runs in grown automata ----------

  /** New edges never lead back to old states. */
  ghost predicate Grows(a: Nfa, t: set<Edge>) {
    WellFormed(a) && a.trans <= t && forall e :: e in t && e.dst in a.states ==> e in a.trans
  }

  lemma {:induction false} OldChain(a: Nfa, t: set<Edge>, u: State, es: seq<Edge>, v: State)
    requires Grows(a, t) && Chain(t, u, es, v) && v in a.states
    ensures u in a.states && Chain(a.trans, u, es, v)
    decreases |es|
  {
    if |es| > 0 { OldChain(a, t, es[0].dst, es[1..], v); }
  }

  lemma OldGoes(a: Nfa, t: set<Edge>, u: State, w: Symbols, v: State)
    requires Grows(a, t) && Goes(t, u, w, v) && v in a.states
    ensures u in a.states && Goes(a.trans, u, w, v)
  {
    var es :| Chain(t, u, es, v) && Word(es) == w;
    OldChain(a, t, u, es, v);
  }

  lemma GoesMore(t: set<Edge>, t': set<Edge>, u: State, w: Symbols, v: State)
    requires t <= t' && Goes(t, u, w, v)
    ensures Goes(t', u, w, v)
  {
    hide Goes;
    SubsetRefines(t', t);
    GoesRefines(t', t, u, w, v);
  }

  lemma OldArrives(a: Nfa, b: Nfa, k: State, w: Symbols)
    requires Grows(a, b.trans) && a.initial == b.initial && k in a.states
    ensures Arrives(b, {k}, w) <==> Arrives(a, {k}, w)
  {
    hide Goes, Grows;
    if Arrives(b, {k}, w) {
      var i, x :| i in b.initial && x in {k} && Goes(b.trans, i, w, x);
      OldGoes(a, b.trans, i, w, k);
    }
    if Arrives(a, {k}, w) {
      var i, x :| i in a.initial && x in {k} && Goes(a.trans, i, w, x);
      GrowsSubset(a, b.trans);
      GoesMore(a.trans, b.trans, i, w, k);
    }
  }

  lemma GrowsSubset(a: Nfa, t: set<Edge>)
    requires Grows(a, t)
    ensures a.trans <= t
  {
  }

  // ---------- an atom with a single edge ----------

  ghost function Links(f: set<State>, l: int, q: State): set<Edge> { set s | s in f :: Edge(s, l, q) }

  ghost function Appended(a: Nfa, f: set<State>, l: int, q: State): Nfa {
    Nfa(a.states + {q}, a.trans + Links(f, l, q), a.initial, a.finals - f + {q})
  }

  /** `b` is `a` with one more state, the only end, and direct edges to it from the states `f`. */
  ghost predicate AddsOneState(a: Nfa, f: set<State>, b: Nfa, g: set<State>) {
    exists q, l :: q !in a.states && g == {q} && b == Appended(a, f, l, q)
  }

  lemma SingleAtom(ta: Nfa) returns (e: Edge)
    requires AtomOk(ta) && |ta.states| == 2 && |ta.trans| == 1
    ensures ta.trans == {e} && e.sym != Epsilon && forall w :: Accepts(ta, w) <==> w == [e.sym]
  {
    hide Goes;
    e :| e in ta.trans;
    OneEdge(ta.trans, e);
    var v :| Accepts(ta, v);
    var i, f :| i in ta.initial && f in ta.finals && Goes(ta.trans, i, v, f);
    NonEmptyRun(ta, i, v, f);
    forall w ensures Accepts(ta, w) <==> w == [e.sym] {
      if Accepts(ta, w) {
        var j, g :| j in ta.initial && g in ta.finals && Goes(ta.trans, j, w, g);
        NonEmptyRun(ta, j, w, g);
      }
      if w == [e.sym] { GoesEdge(ta.trans, e); }
    }
  }

  lemma OneEdge(t: set<Edge>, e: Edge)
    requires |t| == 1 && e in t
    ensures t == {e}
  {
    assert |t - {e}| == 0;
  }

  /** With one edge and no empty word, an accepting run is that edge. */
  lemma NonEmptyRun(ta: Nfa, i: State, w: Symbols, f: State)
    requires !Accepts(ta, []) && |ta.trans| == 1 && i in ta.initial && f in ta.finals && Goes(ta.trans, i, w, f)
    ensures exists e :: ta.trans == {e} && e.src == i && e.dst == f && w == [e.sym] && e.sym != Epsilon
  {
    hide Goes;
    var e, w' := FirstEdge(ta.trans, i, w, f);
    GoesNowhere(ta.trans, i);
    assert w == [] || i == f ==> Accepts(ta, []);
    OneEdge(ta.trans, e);
    SelfRun(ta.trans, e, w', f);
    SecondStep(ta.trans, e, w', f);
  }

  /** From the end of the only edge a run goes nowhere unless the edge is a loop. */
  lemma SelfRun(t: set<Edge>, e: Edge, w: Symbols, f: State)
    requires t == {e} && Goes(t, e.dst, w, f) && e.src != f
    ensures e.dst == f
  {
    var es :| Chain(t, e.dst, es, f) && Word(es) == w;
    if |es| > 0 { ChainEnds(t, e.dst, es, f); }
  }

  lemma SecondStep(t: set<Edge>, e: Edge, w: Symbols, f: State)
    requires t == {e} && Goes(t, e.dst, w, f) && e.src != f && e.dst == f
    ensures w == []
  {
    var e2, w2 := FirstEdge(t, f, w, f);
  }

  /** The empty suffix or prefix does not change a word. */
  lemma Whole(w: Symbols, v: Symbols)
    ensures (w + v)[..|w|] == w && (w + v)[|w|..] == v
  {
  }

  lemma AppendedGrows(a: Nfa, f: set<State>, l: int, q: State)
    requires WellFormed(a) && f <= a.states && q !in a.states
    ensures WellFormed(Appended(a, f, l, q)) && Grows(a, Appended(a, f, l, q).trans)
  {
  }

  lemma AppendedSustained(a: Nfa, f: set<State>, l: int, q: State)
    requires Trimmed(a) && f <= a.states && q !in a.states && f != {} && l != Epsilon
    ensures Trimmed(Appended(a, f, l, q))
  {
    var b := Appended(a, f, l, q);
    AppendedGrows(a, f, l, q);
    var u, v := AllStates(a), AllStates(b);
    var s :| s in f;
    assert Edge(s, l, q) in b.trans;
    forall k | k in v ensures Entered(b, v, k) && Left(b, v, k) {
      if k != q {
        assert Entered(a, u, k) && Left(a, u, k);
        if k in f { assert Edge(k, l, q) in b.trans; }
      }
    }
  }

  lemma AppendedArrives(a: Nfa, f: set<State>, l: int, q: State, w: Symbols)
    requires WellFormed(a) && f <= a.states && q !in a.states && l != Epsilon && a.initial <= a.states
    ensures Arrives(Appended(a, f, l, q), {q}, w) <==> Extended(a, f, iset{[l]}, w)
  {
    hide Goes, WellFormed;
    var b := Appended(a, f, l, q);
    AppendedGrows(a, f, l, q);
    if Arrives(b, {q}, w) {
      var i, k :| i in b.initial && k in {q} && Goes(b.trans, i, w, k);
      var e, w' := LastEdge(b.trans, i, w, q);
      LinkInto(a, f, l, q, e);
      OldGoes(a, b.trans, i, w', e.src);
      Whole(w', [l]);
      assert Arrives(a, f, w[..|w'|]);
      assert SplitArrives(a, f, iset{[l]}, w, |w'|);
    }
    if Extended(a, f, iset{[l]}, w) {
      var j :| SplitArrives(a, f, iset{[l]}, w, j) && j < |w|;
      assert w[j..] == [l];
      var i, s :| i in a.initial && s in f && Goes(a.trans, i, w[..j], s);
      GrowsSubset(a, b.trans);
      GoesMore(a.trans, b.trans, i, w[..j], s);
      GoesEdge(b.trans, Edge(s, l, q));
      GoesAppend(b.trans, i, w[..j], s, [l], q);
      assert w[..j] + [l] == w;
    }
  }

  lemma LinkInto(a: Nfa, f: set<State>, l: int, q: State, e: Edge)
    requires WellFormed(a) && q !in a.states && e in Appended(a, f, l, q).trans && e.dst == q
    ensures e.src in f && e.sym == l
  {
  }

  lemma AppendedCompiled(a: Nfa, f: set<State>, l: int, q: State, ta: Nfa)
    requires Trimmed(a) && f <= a.states && q !in a.states && f != {} && l != Epsilon
    requires forall v :: Accepts(ta, v) <==> v == [l]
    ensures Compiled(a, f, Atom(ta), Appended(a, f, l, q), {q})
  {
    hide Arrives, Extended, Accepts, Sustained, Inhabited;
    var b := Appended(a, f, l, q);
    AppendedSustained(a, f, l, q);
    AppendedGrows(a, f, l, q);
    OneWord(ta, l);
    assert Marked(a, f, b) == {q} && {q} - a.states == {q} && {q} * a.states == {};
    NoneLost(a, f, b);
    forall k, w | k in a.states ensures Arrives(b, {k}, w) <==> Arrives(a, {k}, w) { OldArrives(a, b, k, w); }
    forall w ensures Arrives(b, {q}, w) <==> Extended(a, f, iset{[l]}, w) { AppendedArrives(a, f, l, q, w); }
  }

  lemma NoneLost(a: Nfa, f: set<State>, b: Nfa)
    ensures !Inhabited(b, Lost(a, f, b, Marked(a, f, b))) && Lost(a, f, b, Marked(a, f, b)) == {}
  {
    assert Lost(a, f, b, Marked(a, f, b)) == {};
  }

  lemma OneWord(ta: Nfa, l: int)
    requires forall v :: Accepts(ta, v) <==> v == [l]
    ensures Language(Atom(ta)) == Built(Atom(ta)) == iset{[l]} && [] !in Language(Atom(ta))
  {
    hide Accepts;
    assert [] != [l];
  }

  // ---------- an atom in general ----------

  /** `a` with a copy of `ta` under the names `m`, entered by epsilon edges from `f`. */
  ghost function Attached(a: Nfa, f: set<State>, ta: Nfa, m: map<State, State>, i: State): Nfa {
    Nfa(a.states + m.Values, a.trans + Image(m, ta.trans) + Links(f, Epsilon, i), a.initial,
        a.finals - f + ImageStates(m, ta.finals))
  }

  ghost predicate Attachable(a: Nfa, f: set<State>, ta: Nfa, m: map<State, State>, i: State) {
    && Trimmed(a) && f <= a.states && AtomOk(ta) && Copies(m, ta, a.states)
    && i in ta.initial && i in m
  }

  lemma ImageEdge(m: map<State, State>, ta: Nfa, e: Edge)
    requires WellFormed(ta) && m.Keys == ta.states && e in Image(m, ta.trans)
    ensures e.src in m.Values && e.dst in m.Values
  {
    var x :| x in ta.trans && x.src in m && x.dst in m && e == Edge(m[x.src], x.sym, m[x.dst]);
  }

  lemma AttachedGrows(a: Nfa, f: set<State>, ta: Nfa, m: map<State, State>, i: State)
    requires Attachable(a, f, ta, m, i)
    ensures m[i] in m.Values && WellFormed(Attached(a, f, ta, m, m[i])) && Grows(a, Attached(a, f, ta, m, m[i]).trans)
  {
    hide Accepts, Image;
    var b := Attached(a, f, ta, m, m[i]);
    forall e | e in Image(m, ta.trans) ensures e.src in m.Values && e.dst in m.Values { ImageEdge(m, ta, e); }
    assert forall e :: e in b.trans ==> e in a.trans || e in Image(m, ta.trans) || (e.src in f && e.dst == m[i]);
    forall s | s in ImageStates(m, ta.finals) ensures s in m.Values { }
  }

  lemma {:induction false} NewChain(a: Nfa, f: set<State>, ta: Nfa, m: map<State, State>, i: State, u: State,
                                    es: seq<Edge>, v: State)
    requires Attachable(a, f, ta, m, i) && Chain(Attached(a, f, ta, m, m[i]).trans, u, es, v) && u in m.Values
    ensures v in m.Values && Chain(Image(m, ta.trans), u, es, v)
    decreases |es|
  {
    hide Accepts, Image, Sustained;
    if |es| > 0 {
      assert es[0] in Image(m, ta.trans) by { assert es[0].src !in a.states; }
      ImageEdge(m, ta, es[0]);
      NewChain(a, f, ta, m, i, es[0].dst, es[1..], v);
    }
  }

  /** A run from an old state to a copied one crosses over once. */
  ghost predicate Crosses(a: Nfa, f: set<State>, t: set<Edge>, i: State, u: State, w: Symbols, v: State) {
    exists s, w1, w2 :: s in f && w == w1 + w2 && Goes(a.trans, u, w1, s) && Goes(t, i, w2, v)
  }

  lemma {:induction false} CrossChain(a: Nfa, f: set<State>, ta: Nfa, m: map<State, State>, i: State, u: State,
                                      es: seq<Edge>, v: State)
    requires Attachable(a, f, ta, m, i) && Chain(Attached(a, f, ta, m, m[i]).trans, u, es, v) && u in a.states
      && v in m.Values
    ensures Crosses(a, f, Image(m, ta.trans), m[i], u, Word(es), v)
    decreases |es|
  {
    hide Accepts, Image, Sustained, Goes;
    var e := es[0];
    if e in a.trans {
      CrossChain(a, f, ta, m, i, e.dst, es[1..], v);
      CrossBefore(a, f, Image(m, ta.trans), m[i], e, Word(es[1..]), v);
    } else {
      if e in Image(m, ta.trans) { ImageEdge(m, ta, e); }
      assert e.dst == m[i] && u in f && e.sym == Epsilon;
      NewChain(a, f, ta, m, i, m[i], es[1..], v);
      GoesNowhere(a.trans, u);
      ChainGoes(Image(m, ta.trans), m[i], es[1..], v);
      assert Word(es) == [] + Word(es[1..]);
    }
  }

  lemma CrossBefore(a: Nfa, f: set<State>, t: set<Edge>, i: State, e: Edge, w: Symbols, v: State)
    requires e in a.trans && Crosses(a, f, t, i, e.dst, w, v)
    ensures Crosses(a, f, t, i, e.src, Label(e.sym) + w, v)
  {
    hide Goes;
    var s, w1, w2 :| s in f && w == w1 + w2 && Goes(a.trans, e.dst, w1, s) && Goes(t, i, w2, v);
    GoesEdge(a.trans, e);
    GoesAppend(a.trans, e.src, Label(e.sym), e.dst, w1, s);
    assert Label(e.sym) + w == (Label(e.sym) + w1) + w2;
  }

  lemma CrossGoes(a: Nfa, f: set<State>, ta: Nfa, m: map<State, State>, i: State, u: State, w: Symbols, v: State)
    requires Attachable(a, f, ta, m, i) && Goes(Attached(a, f, ta, m, m[i]).trans, u, w, v) && u in a.states
      && v in m.Values
    ensures Crosses(a, f, Image(m, ta.trans), m[i], u, w, v)
  {
    hide Attached, Crosses, Trimmed, AtomOk, Copies;
    var es :| Chain(Attached(a, f, ta, m, m[i]).trans, u, es, v) && Word(es) == w;
    CrossChain(a, f, ta, m, i, u, es, v);
  }

  /** A run within the copy into a final state reads a word of the atom. */
  lemma CopyAccepts(a: Nfa, f: set<State>, ta: Nfa, m: map<State, State>, i: State, w: Symbols, n: State)
    requires Attachable(a, f, ta, m, i) && Goes(Image(m, ta.trans), m[i], w, n) && n in ImageStates(m, ta.finals)
    ensures Accepts(ta, w)
  {
    hide Goes, Sustained, Image, WellFormed;
    var ft :| ft in ta.finals && ft in m && n == m[ft];
    var x := CopyReturns(ta.trans, m, i, w, n);
    SameName(m, x, ft);
  }

  /** An old state that reaches the end of the atom by reading nothing is one where it starts, and
      the atom has the empty word. */
  lemma EmptyAtom(a: Nfa, f: set<State>, ta: Nfa, m: map<State, State>, i: State, k: State, n: State)
    requires Attachable(a, f, ta, m, i) && k in a.states && n in ImageStates(m, ta.finals)
    requires Goes(Attached(a, f, ta, m, m[i]).trans, k, [], n)
    ensures k in f && Accepts(ta, [])
  {
    hide Goes, Attached, Accepts, Sustained, Copies;
    assert n in m.Values;
    CrossGoes(a, f, ta, m, i, k, [], n);
    var s, w1, w2 :| s in f && [] == w1 + w2 && Goes(a.trans, k, w1, s) && Goes(Image(m, ta.trans), m[i], w2, n);
    assert w1 == [] && w2 == [];
    NoMove(a.trans, k, s);
    CopyAccepts(a, f, ta, m, i, [], n);
  }

  /** Reading nothing does not lead to an old state from elsewhere. */
  lemma StayOld(a: Nfa, t: set<Edge>, k: State, n: State)
    requires Grows(a, t) && NoEpsilon(a.trans) && n in a.states && Goes(t, k, [], n)
    ensures k == n
  {
    hide Goes, Grows;
    OldGoes(a, t, k, [], n);
    NoMove(a.trans, k, n);
  }

  /** The simplification of an attached atom: `c` without epsilon edges, then `b` without dead states. */
  ghost predicate Staged(a: Nfa, f: set<State>, ta: Nfa, m: map<State, State>, i: State, c: Nfa, b: Nfa) {
    && Attachable(a, f, ta, m, i)
    && WellFormed(c) && Simulates(Attached(a, f, ta, m, m[i]), c) && NoEpsilon(c.trans) && Trims(c, b)
  }

  lemma OldEdgeStays(a: Nfa, f: set<State>, ta: Nfa, m: map<State, State>, i: State, c: Nfa, b: Nfa, e: Edge)
    requires Staged(a, f, ta, m, i, c, b) && e in a.trans
    ensures e in c.trans
  {
    hide Goes, Grows, Trims, Refines, Sustained, Accepts, Copies;
    var a1 := Attached(a, f, ta, m, m[i]);
    AttachedGrows(a, f, ta, m, i);
    GoesEdge(a1.trans, e);
    assert Simulated(a1, c, e.src, Label(e.sym), e.dst);
    var k :| Goes(c.trans, e.src, Label(e.sym), k) && Goes(a1.trans, k, [], e.dst);
    StayOld(a, a1.trans, k, e.dst);
    OneMove(c.trans, e.src, e.sym, e.dst);
  }

  lemma OldFinalStays(a: Nfa, f: set<State>, ta: Nfa, m: map<State, State>, i: State, c: Nfa, b: Nfa, k: State)
    requires Staged(a, f, ta, m, i, c, b) && k in a.finals && k !in f
    ensures k in c.finals
  {
    hide Goes, Grows, Trims, Refines, Sustained, Accepts, Copies;
    var a1 := Attached(a, f, ta, m, m[i]);
    GoesNowhere(a1.trans, k);
    assert Simulated(a1, c, k, [], k);
    var x :| Goes(c.trans, k, [], x) && (k in a1.finals ==> x in c.finals);
    NoMove(c.trans, k, x);
  }

  /** A word of the atom, read in the copy. */
  lemma CopyRun(a: Nfa, f: set<State>, ta: Nfa, m: map<State, State>, i: State, w: Symbols) returns (n: State)
    requires Attachable(a, f, ta, m, i) && Accepts(ta, w)
    ensures n in ImageStates(m, ta.finals) && Goes(Image(m, ta.trans), m[i], w, n)
  {
    hide Goes, Image, Sustained;
    var j, ft :| j in ta.initial && ft in ta.finals && Goes(ta.trans, j, w, ft);
    SameInitial(ta, i, j);
    CopyGoes(ta.trans, m, i, w, ft);
    n := m[ft];
  }

  /** A word of the atom, read from a state of `f`. */
  lemma AtomRun(a: Nfa, f: set<State>, ta: Nfa, m: map<State, State>, i: State, s: State, w: Symbols) returns (n: State)
    requires Attachable(a, f, ta, m, i) && s in f && Accepts(ta, w)
    ensures n in ImageStates(m, ta.finals) && Goes(Attached(a, f, ta, m, m[i]).trans, s, w, n)
  {
    hide Goes, Image, Sustained, Accepts, ImageStates;
    var t := Attached(a, f, ta, m, m[i]).trans;
    n := CopyRun(a, f, ta, m, i, w);
    GoesMore(Image(m, ta.trans), t, m[i], w, n);
    GoesEdge(t, Edge(s, Epsilon, m[i]));
    GoesAppend(t, s, [], m[i], w, n);
    assert [] + w == w;
  }

  lemma SameInitial(ta: Nfa, i: State, j: State)
    requires |ta.initial| == 1 && i in ta.initial && j in ta.initial
    ensures i == j
  {
    assert |ta.initial - {i}| == 0;
  }

  /** The same run after bypassing epsilon edges ends in a final state. */
  lemma EndOfAtom(a: Nfa, f: set<State>, ta: Nfa, m: map<State, State>, i: State, c: Nfa, b: Nfa, u: State, w: Symbols,
                  n: State)
    returns (k: State)
    requires Staged(a, f, ta, m, i, c, b) && Goes(Attached(a, f, ta, m, m[i]).trans, u, w, n)
      && n in ImageStates(m, ta.finals)
    ensures Goes(c.trans, u, w, k) && k in c.finals
  {
    hide Goes, Strides, Grows, Trims, Refines, Sustained, Accepts, Copies, ImageStates;
    var a1 := Attached(a, f, ta, m, m[i]);
    assert Simulated(a1, c, u, w, n);
    k :| Goes(c.trans, u, w, k) && Goes(a1.trans, k, [], n) && (n in a1.finals ==> k in c.finals);
  }

  /** The old states, and the states on the way through the new atom. */
  ghost function Kept(a: Nfa, f: set<State>, c: Nfa): iset<State> {
    iset n | n in a.states || (Onward(f, c, n) && Productive(c, n))
  }

  ghost predicate Onward(f: set<State>, c: Nfa, n: State) { exists s, w :: s in f && Goes(c.trans, s, w, n) }

  lemma OnwardNext(f: set<State>, c: Nfa, e: Edge)
    requires e in c.trans && (e.src in f || Onward(f, c, e.src))
    ensures Onward(f, c, e.dst)
  {
    hide Goes;
    GoesEdge(c.trans, e);
    if Onward(f, c, e.src) {
      var s, w :| s in f && Goes(c.trans, s, w, e.src);
      GoesAppend(c.trans, s, w, e.src, Label(e.sym), e.dst);
    }
  }

  lemma KeptEntered(a: Nfa, f: set<State>, c: Nfa, n: State)
    requires n in Kept(a, f, c) && n !in a.states && f <= a.states
    ensures Entered(c, Kept(a, f, c), n)
  {
    hide Goes, Productive;
    var s, w :| s in f && Goes(c.trans, s, w, n);
    var e, w' := LastEdge(c.trans, s, w, n);
    assert Onward(f, c, e.src);
    ProductivePrev(c, e);
  }

  lemma KeptLeft(a: Nfa, f: set<State>, c: Nfa, n: State)
    requires Productive(c, n) && (n in f || Onward(f, c, n))
    ensures Left(c, Kept(a, f, c), n)
  {
    hide Goes, Onward;
    var w, g :| g in c.finals && Goes(c.trans, n, w, g);
    var e, w' := FirstEdge(c.trans, n, w, g);
    if n !in c.finals {
      assert Productive(c, e.dst);
      OnwardNext(f, c, e);
      assert e.dst in Kept(a, f, c);
    }
  }

  lemma StartProductive(a: Nfa, f: set<State>, ta: Nfa, m: map<State, State>, i: State, c: Nfa, b: Nfa, s: State)
    requires Staged(a, f, ta, m, i, c, b) && s in f
    ensures Productive(c, s)
  {
    hide Goes, Trims, Simulates, Accepts, Attached, ImageStates;
    var w :| Accepts(ta, w);
    var n := AtomRun(a, f, ta, m, i, s, w);
    var k := EndOfAtom(a, f, ta, m, i, c, b, s, w, n);
  }

  lemma OldSustained(a: Nfa, f: set<State>, ta: Nfa, m: map<State, State>, i: State, c: Nfa, b: Nfa, k: State)
    requires Staged(a, f, ta, m, i, c, b) && k in a.states
    ensures Entered(c, Kept(a, f, c), k) && Left(c, Kept(a, f, c), k)
  {
    hide Goes, Trims, Simulates, Accepts, Attached, Copies, Productive, Onward;
    var u := Kept(a, f, c);
    assert k in AllStates(a) && Entered(a, AllStates(a), k) && Left(a, AllStates(a), k);
    assert c.initial == a.initial by { SameStart(a, f, ta, m, i, c, b); }
    if k !in a.initial {
      var e :| e in a.trans && e.dst == k && e.src in a.states;
      OldEdgeStays(a, f, ta, m, i, c, b, e);
      assert e.src in u;
    }
    if k in f {
      StartProductive(a, f, ta, m, i, c, b, k);
      KeptLeft(a, f, c, k);
    } else if k in a.finals {
      OldFinalStays(a, f, ta, m, i, c, b, k);
    } else {
      var e :| e in a.trans && e.src == k && e.dst in a.states;
      OldEdgeStays(a, f, ta, m, i, c, b, e);
      assert e.dst in u;
    }
  }

  lemma SameStart(a: Nfa, f: set<State>, ta: Nfa, m: map<State, State>, i: State, c: Nfa, b: Nfa)
    requires Staged(a, f, ta, m, i, c, b)
    ensures c.initial == a.initial == b.initial && c.states == a.states + m.Values && b.states <= c.states
    ensures b.finals == c.finals * b.states && b.trans <= c.trans && NoEpsilon(b.trans)
  {
  }

  lemma KeptSustained(a: Nfa, f: set<State>, ta: Nfa, m: map<State, State>, i: State, c: Nfa, b: Nfa)
    requires Staged(a, f, ta, m, i, c, b)
    ensures Sustained(c, Kept(a, f, c)) && KeepsWithin(c, b, Kept(a, f, c))
  {
    hide Goes, Simulates, Accepts, Attached, Copies, Productive, Onward, Sustained, Entered, Left, KeepsWithin;
    var u := Kept(a, f, c);
    SameStart(a, f, ta, m, i, c, b);
    forall k | k in u ensures k in c.states && Entered(c, u, k) && Left(c, u, k) {
      if k in a.states { OldSustained(a, f, ta, m, i, c, b, k); }
      else {
        KeptEntered(a, f, c, k);
        KeptLeft(a, f, c, k);
        EnteredState(c, u, k);
      }
    }
    IsSustained(c, u);
  }

  lemma EnteredState(c: Nfa, u: iset<State>, k: State)
    requires WellFormed(c) && Entered(c, u, k)
    ensures k in c.states
  {
  }

  lemma IsSustained(c: Nfa, u: iset<State>)
    requires forall k :: k in u ==> k in c.states && Entered(c, u, k) && Left(c, u, k)
    ensures Sustained(c, u)
  {
  }

  lemma AttachedKeeps(a: Nfa, f: set<State>, ta: Nfa, m: map<State, State>, i: State, c: Nfa, b: Nfa)
    requires Staged(a, f, ta, m, i, c, b)
    ensures a.states <= b.states && a.trans <= b.trans && a.finals - f <= b.finals
    ensures forall s :: s in b.initial ==> Left(b, AllStates(b), s)
  {
    hide Goes, Simulates, Accepts, Attached, Copies, Productive, Onward, Entered;
    var u := Kept(a, f, c);
    KeptSustained(a, f, ta, m, i, c, b);
    SameStart(a, f, ta, m, i, c, b);
    assert forall k :: k in a.states ==> k in u;
    forall e | e in a.trans ensures e in b.trans {
      OldEdgeStays(a, f, ta, m, i, c, b, e);
      assert e.src in u && e.dst in u;
    }
    forall k | k in a.finals - f ensures k in b.finals { OldFinalStays(a, f, ta, m, i, c, b, k); }
    forall s | s in b.initial ensures Left(b, AllStates(b), s) {
      assert s in u && Left(b, u, s);
      if s !in b.finals {
        var e :| e in b.trans && e.src == s && e.dst in u;
        assert e.dst in b.states;
      }
    }
  }

  lemma AttachedTrimmed(a: Nfa, f: set<State>, ta: Nfa, m: map<State, State>, i: State, c: Nfa, b: Nfa)
    requires Staged(a, f, ta, m, i, c, b) && WellFormed(b) && forall s :: s in b.states ==> !Dead(b, s)
    ensures Trimmed(b)
  {
    hide Goes, Simulates, Accepts, Attached, Copies, Productive, Onward, Attachable, Trims;
    var u := AllStates(b);
    AttachedKeeps(a, f, ta, m, i, c, b);
    SameStart(a, f, ta, m, i, c, b);
    forall k | k in u ensures Entered(b, u, k) && Left(b, u, k) {
      if k !in b.initial {
        assert !Dead(b, k);
        var e :| e in b.trans && e.dst == k;
        assert e.src in u;
        if k !in b.finals {
          var e' :| e' in b.trans && e'.src == k;
          assert e'.dst in u;
        }
      }
    }
  }

  /** A state made final reaches the end of the atom by reading nothing. */
  lemma NewFinal(a: Nfa, f: set<State>, ta: Nfa, m: map<State, State>, i: State, c: Nfa, b: Nfa, k: State)
    returns (n: State)
    requires Staged(a, f, ta, m, i, c, b) && k in b.finals && k !in a.finals - f
    ensures n in ImageStates(m, ta.finals) && Goes(Attached(a, f, ta, m, m[i]).trans, k, [], n)
    ensures k in a.states ==> k in f && Accepts(ta, [])
  {
    hide Goes, Refines, Accepts, Copies, Sustained, ImageStates, Grows;
    var a1 := Attached(a, f, ta, m, m[i]);
    SameStart(a, f, ta, m, i, c, b);
    assert EarlyFinal(a1, k);
    n :| n in a1.finals && Goes(a1.trans, k, [], n);
    AttachedGrows(a, f, ta, m, i);
    if n in a.finals - f { StayOld(a, a1.trans, k, n); }
    if k in a.states { EmptyAtom(a, f, ta, m, i, k, n); }
  }

  lemma RunBack(a: Nfa, f: set<State>, ta: Nfa, m: map<State, State>, i: State, c: Nfa, b: Nfa, u: State, w: Symbols,
                v: State)
    requires Staged(a, f, ta, m, i, c, b) && Goes(b.trans, u, w, v)
    ensures Goes(Attached(a, f, ta, m, m[i]).trans, u, w, v)
  {
    hide Goes, Trimmed, AtomOk, Copies, Attached, Refines;
    GoesMore(b.trans, c.trans, u, w, v);
    GoesRefines(Attached(a, f, ta, m, m[i]).trans, c.trans, u, w, v);
  }

  /** A run that ends with an edge into the copy has crossed over before that edge. */
  lemma CrossStride(a: Nfa, f: set<State>, ta: Nfa, m: map<State, State>, i: State, u: State, w: Symbols, k: State)
    returns (s: State, j: nat)
    requires Attachable(a, f, ta, m, i) && Strides(Attached(a, f, ta, m, m[i]).trans, u, w, k)
    requires u in a.states && k in m.Values
    ensures s in f && j < |w| && Goes(a.trans, u, w[..j], s) && Goes(Image(m, ta.trans), m[i], w[j..], k)
  {
    hide Goes, Strides, Sustained, Image, Accepts, Copies;
    var e, v := LastStride(Attached(a, f, ta, m, m[i]).trans, u, w, k);
    EdgeInto(a, f, ta, m, i, e);
    CrossGoes(a, f, ta, m, i, u, v, e.src);
    var w1, w2;
    s, w1, w2 :| s in f && v == w1 + w2 && Goes(a.trans, u, w1, s) && Goes(Image(m, ta.trans), m[i], w2, e.src);
    GoesEdge(Image(m, ta.trans), e);
    GoesAppend(Image(m, ta.trans), m[i], w2, e.src, [e.sym], k);
    Whole(w1, w2 + [e.sym]);
    assert w == w1 + (w2 + [e.sym]);
    j := |w1|;
  }

  lemma EdgeInto(a: Nfa, f: set<State>, ta: Nfa, m: map<State, State>, i: State, e: Edge)
    requires Attachable(a, f, ta, m, i) && e in Attached(a, f, ta, m, m[i]).trans && e.sym != Epsilon
      && e.dst in m.Values
    ensures e in Image(m, ta.trans) && e.src in m.Values
  {
    hide Image, Accepts, Sustained;
    assert e.dst !in a.states;
    ImageEdge(m, ta, e);
  }

  lemma CopyGoesOn(a: Nfa, f: set<State>, ta: Nfa, m: map<State, State>, i: State, u: State, w: Symbols, v: State)
    requires Attachable(a, f, ta, m, i) && Goes(Attached(a, f, ta, m, m[i]).trans, u, w, v) && u in m.Values
    ensures v in m.Values && Goes(Image(m, ta.trans), u, w, v)
  {
    hide Attached, Trimmed, AtomOk, Copies;
    var es :| Chain(Attached(a, f, ta, m, m[i]).trans, u, es, v) && Word(es) == w;
    NewChain(a, f, ta, m, i, u, es, v);
  }

  lemma AttachedArrives(a: Nfa, f: set<State>, ta: Nfa, m: map<State, State>, i: State, c: Nfa, b: Nfa, w: Symbols)
    requires Staged(a, f, ta, m, i, c, b) && Arrives(b, Marked(a, f, b) - a.states, w)
    ensures Extended(a, f, Language(Atom(ta)), w)
  {
    hide Goes, Strides, Accepts, Copies, Sustained, ImageStates, Attached, Trimmed, AtomOk, Trims, Simulated, Refines;
    var i0, k :| i0 in b.initial && k in Marked(a, f, b) - a.states && Goes(b.trans, i0, w, k);
    var n := NewFinal(a, f, ta, m, i, c, b, k);
    SameStart(a, f, ta, m, i, c, b);
    InitialOld(a, i0);
    var e, v := LastEdge(b.trans, i0, w, k);
    GoesStrides(b.trans, i0, v, e);
    StridesMore(b.trans, c.trans, i0, w, k);
    NewState(a, f, ta, m, i, c, b, k);
    var s, j := CrossStride(a, f, ta, m, i, i0, w, k);
    CopyGoesOn(a, f, ta, m, i, k, [], n);
    GoesAppend(Image(m, ta.trans), m[i], w[j..], k, [], n);
    assert w[j..] + [] == w[j..];
    CopyAccepts(a, f, ta, m, i, w[j..], n);
    assert Arrives(a, f, w[..j]);
    assert SplitArrives(a, f, Language(Atom(ta)), w, j);
  }

  lemma NewState(a: Nfa, f: set<State>, ta: Nfa, m: map<State, State>, i: State, c: Nfa, b: Nfa, k: State)
    requires Staged(a, f, ta, m, i, c, b) && k in b.finals && k !in a.states
    ensures k in m.Values
  {
    hide Simulates, Sustained;
    SameStart(a, f, ta, m, i, c, b);
  }

  lemma StridesMore(t: set<Edge>, t': set<Edge>, u: State, w: Symbols, v: State)
    requires t <= t' && Strides(t, u, w, v)
    ensures Strides(t', u, w, v)
  {
    hide Goes, Strides;
    var e, w' := LastStride(t, u, w, v);
    GoesMore(t, t', u, w', e.src);
    GoesStrides(t', u, w', e);
  }

  lemma InitialOld(a: Nfa, i: State)
    requires Trimmed(a) && i in a.initial
    ensures i in a.states
  {
  }

  lemma ExtendedArrives(a: Nfa, f: set<State>, ta: Nfa, m: map<State, State>, i: State, c: Nfa, b: Nfa, w: Symbols)
    requires Staged(a, f, ta, m, i, c, b) && Extended(a, f, Language(Atom(ta)), w)
    ensures Arrives(b, Marked(a, f, b) - a.states, w)
  {
    hide Goes, Strides, Accepts, Copies, Sustained, ImageStates, Attached, Trimmed, AtomOk, Trims, Simulated, Refines,
      Image;
    var j :| SplitArrives(a, f, Language(Atom(ta)), w, j) && j < |w|;
    var i0, s :| i0 in a.initial && s in f && Goes(a.trans, i0, w[..j], s);
    var t := Attached(a, f, ta, m, m[i]).trans;
    var n := CopyRun(a, f, ta, m, i, w[j..]);
    var d := GoesStride(Image(m, ta.trans), m[i], w[j..], n);
    CopyEnters(a, f, ta, m, i, s, w[j..], d);
    GoesMore(a.trans, t, i0, w[..j], s);
    StridesAfter(t, i0, w[..j], s, w[j..], d);
    assert w[..j] + w[j..] == w;
    assert Strides(c.trans, i0, w, d);
    StridesGoes(c.trans, i0, w, d);
    GoesMore(Image(m, ta.trans), t, d, [], n);
    CopyEnd(a, f, ta, m, i, c, b, d, n);
    SameStart(a, f, ta, m, i, c, b);
    assert Productive(c, d) by { GoesNowhere(c.trans, d); }
    TrimKeeps(c, b, i0, w, d);
    FinalsOld(a, d);
  }

  lemma GoesStride(t: set<Edge>, u: State, w: Symbols, v: State) returns (d: State)
    requires Goes(t, u, w, v) && w != []
    ensures Strides(t, u, w, d) && Goes(t, d, [], v)
  {
    hide Strides;
    var es :| Chain(t, u, es, v) && Word(es) == w;
    d := SplitStride(t, u, es, v);
  }

  /** A step within the copy, taken from a state of `f`, ends in the copy. */
  lemma CopyEnters(a: Nfa, f: set<State>, ta: Nfa, m: map<State, State>, i: State, s: State, w: Symbols, d: State)
    requires Attachable(a, f, ta, m, i) && s in f && Strides(Image(m, ta.trans), m[i], w, d)
    ensures Strides(Attached(a, f, ta, m, m[i]).trans, s, w, d) && d in m.Values && d !in a.states
    ensures Image(m, ta.trans) <= Attached(a, f, ta, m, m[i]).trans && a.trans <= Attached(a, f, ta, m, m[i]).trans
  {
    hide Goes, Strides, Image, Accepts, Sustained;
    var t := Attached(a, f, ta, m, m[i]).trans;
    StridesMore(Image(m, ta.trans), t, m[i], w, d);
    GoesEdge(t, Edge(s, Epsilon, m[i]));
    StridesAfter(t, s, [], m[i], w, d);
    assert [] + w == w;
    var e, v := LastStride(Image(m, ta.trans), m[i], w, d);
    ImageEdge(m, ta, e);
  }

  /** A state from which the atom ends by reading nothing is final after bypassing. */
  lemma CopyEnd(a: Nfa, f: set<State>, ta: Nfa, m: map<State, State>, i: State, c: Nfa, b: Nfa, d: State, n: State)
    requires Staged(a, f, ta, m, i, c, b) && Goes(Attached(a, f, ta, m, m[i]).trans, d, [], n)
    requires n in ImageStates(m, ta.finals)
    ensures d in c.finals
  {
    hide Goes, Strides, Trims, Refines, Sustained, Accepts, Copies, ImageStates;
    var k := EndOfAtom(a, f, ta, m, i, c, b, d, [], n);
    NoMove(c.trans, d, k);
  }

  lemma FinalsOld(a: Nfa, k: State)
    requires Trimmed(a)
    ensures k in a.finals ==> k in a.states
  {
  }

  lemma AttachedOldArrives(a: Nfa, f: set<State>, ta: Nfa, m: map<State, State>, i: State, c: Nfa, b: Nfa, k: State,
                           w: Symbols)
    requires Staged(a, f, ta, m, i, c, b) && k in a.states
    ensures Arrives(b, {k}, w) <==> Arrives(a, {k}, w)
  {
    hide Goes, Accepts, Copies, Sustained, ImageStates, Attached, AtomOk, Trims, Grows;
    SameStart(a, f, ta, m, i, c, b);
    AttachedKeeps(a, f, ta, m, i, c, b);
    AttachedGrows(a, f, ta, m, i);
    var t := Attached(a, f, ta, m, m[i]).trans;
    if Arrives(b, {k}, w) {
      var i0, x :| i0 in b.initial && x in {k} && Goes(b.trans, i0, w, x);
      RunBack(a, f, ta, m, i, c, b, i0, w, k);
      OldGoes(a, t, i0, w, k);
    }
    if Arrives(a, {k}, w) {
      var i0, x :| i0 in a.initial && x in {k} && Goes(a.trans, i0, w, x);
      GoesMore(a.trans, b.trans, i0, w, k);
    }
  }

  /** The states where the atom starts are final again exactly when it has the empty word. */
  lemma AttachedMarks(a: Nfa, f: set<State>, ta: Nfa, m: map<State, State>, i: State, c: Nfa, b: Nfa)
    requires Staged(a, f, ta, m, i, c, b)
    ensures Marked(a, f, b) * a.states == if Accepts(ta, []) then f else {}
  {
    hide Goes, Strides, Simulates, Trims, Accepts, Copies, Sustained, Attached, ImageStates;
    SameStart(a, f, ta, m, i, c, b);
    AttachedKeeps(a, f, ta, m, i, c, b);
    forall k | k in Marked(a, f, b) * a.states ensures k in f && Accepts(ta, []) {
      var n := NewFinal(a, f, ta, m, i, c, b, k);
    }
    if Accepts(ta, []) {
      forall k | k in f ensures k in b.finals {
        var n := AtomRun(a, f, ta, m, i, k, []);
        CopyEnd(a, f, ta, m, i, c, b, k, n);
      }
    }
  }

  /** Attaching an atom and simplifying compiles it. */
  lemma AttachedCompiled(a: Nfa, f: set<State>, ta: Nfa, m: map<State, State>, i: State, b: Nfa)
    requires Attachable(a, f, ta, m, i) && Simplified(Attached(a, f, ta, m, m[i]), b)
    requires WellFormed(b) && forall s :: s in b.states ==> !Dead(b, s)
    ensures Compiled(a, f, Atom(ta), b, Marked(a, f, b))
  {
    hide Attached, Arrives, Extended, Simulates, Trims, Dead, Trimmed, AtomOk, Copies, Accepts, Inhabited;
    var c :| WellFormed(c) && Simulates(Attached(a, f, ta, m, m[i]), c) && NoEpsilon(c.trans) && Trims(c, b);
    assert Staged(a, f, ta, m, i, c, b);
    AttachedTrimmed(a, f, ta, m, i, c, b);
    MarkedStates(a, f, b);
    NoneLost(a, f, b);
    hide WellFormed;
    AttachedKeeps(a, f, ta, m, i, c, b);
    AttachedMarks(a, f, ta, m, i, c, b);
    SameStart(a, f, ta, m, i, c, b);
    assert Language(Atom(ta)) == Built(Atom(ta));
    forall k, w | k in a.states ensures Arrives(b, {k}, w) <==> Arrives(a, {k}, w) {
      AttachedOldArrives(a, f, ta, m, i, c, b, k, w);
    }
    forall w ensures Arrives(b, Marked(a, f, b) - a.states, w) <==> Extended(a, f, Language(Atom(ta)), w) {
      if Arrives(b, Marked(a, f, b) - a.states, w) { AttachedArrives(a, f, ta, m, i, c, b, w); }
      if Extended(a, f, Language(Atom(ta)), w) { ExtendedArrives(a, f, ta, m, i, c, b, w); }
    }
  }

  lemma MarkedStates(a: Nfa, f: set<State>, b: Nfa)
    requires WellFormed(b)
    ensures Marked(a, f, b) <= b.states
  {
  }

  // ---------- patterns from parts ----------

  lemma ArrivesEach(a: Nfa, f: set<State>, w: Symbols)
    ensures Arrives(a, f, w) <==> exists k :: k in f && Arrives(a, {k}, w)
  {
    hide Goes;
    if Arrives(a, f, w) {
      var i, k :| i in a.initial && k in f && Goes(a.trans, i, w, k);
      assert Arrives(a, {k}, w) by { assert k in {k}; }
    }
  }

  lemma ArrivesSame(a: Nfa, b: Nfa, f: set<State>, w: Symbols)
    requires forall k :: k in f ==> (Arrives(b, {k}, w) <==> Arrives(a, {k}, w))
    ensures Arrives(b, f, w) <==> Arrives(a, f, w)
  {
    hide Arrives;
    ArrivesEach(a, f, w);
    ArrivesEach(b, f, w);
  }

  lemma ArrivesUnion(a: Nfa, f: set<State>, g: set<State>, w: Symbols)
    ensures Arrives(a, f + g, w) <==> Arrives(a, f, w) || Arrives(a, g, w)
  {
    hide Goes;
  }

  lemma ExtendedSame(a: Nfa, b: Nfa, f: set<State>, l: iset<Symbols>, w: Symbols)
    requires SameOld(a, b) && f <= a.states
    ensures Extended(a, f, l, w) <==> Extended(b, f, l, w)
  {
    hide Arrives;
    forall v ensures Arrives(b, f, v) <==> Arrives(a, f, v) { ArrivesSame(a, b, f, v); }
    if Extended(a, f, l, w) {
      var j :| SplitArrives(a, f, l, w, j) && j < |w|;
      assert SplitArrives(b, f, l, w, j);
    }
    if Extended(b, f, l, w) {
      var j :| SplitArrives(b, f, l, w, j) && j < |w|;
      assert SplitArrives(a, f, l, w, j);
    }
  }

  /** Only the words that are not empty matter, and a union of languages extends to a union. */
  lemma ExtendedUnion(a: Nfa, f: set<State>, l: iset<Symbols>, k: iset<Symbols>, u: iset<Symbols>, w: Symbols)
    requires forall v :: v != [] ==> (v in u <==> v in l || v in k)
    ensures Extended(a, f, u, w) <==> Extended(a, f, l, w) || Extended(a, f, k, w)
  {
    hide Arrives;
    if Extended(a, f, u, w) {
      var j :| SplitArrives(a, f, u, w, j) && j < |w|;
      assert w[j..] != [];
      assert SplitArrives(a, f, l, w, j) || SplitArrives(a, f, k, w, j);
    }
    if Extended(a, f, l, w) {
      var j :| SplitArrives(a, f, l, w, j) && j < |w|;
      assert w[j..] != [] && SplitArrives(a, f, u, w, j);
    }
    if Extended(a, f, k, w) {
      var j :| SplitArrives(a, f, k, w, j) && j < |w|;
      assert w[j..] != [] && SplitArrives(a, f, u, w, j);
    }
  }

  lemma BuiltWithin(p: Pattern, w: Symbols)
    requires AsBuilt(p, w)
    ensures InLanguage(p, w)
  {
  }

  /** Where the words of two languages end that are read from the same states one after the other. */
  lemma AlternativeArrives(a: Nfa, f: set<State>, l: iset<Symbols>, b: Nfa, g: set<State>, k: iset<Symbols>, c: Nfa,
                           h: set<State>, u: iset<Symbols>, w: Symbols)
    requires f <= a.states <= b.states && g <= b.states && SameOld(a, b) && SameOld(b, c) && h * b.states <= f
    requires forall v :: Arrives(b, g - a.states, v) <==> Extended(a, f, l, v)
    requires forall v :: Arrives(c, h - b.states, v) <==> Extended(b, f, k, v)
    requires forall v :: v != [] ==> (v in u <==> v in l || v in k)
    ensures Arrives(c, g + h - a.states, w) <==> Extended(a, f, u, w)
  {
    hide Arrives, Extended, SameOld;
    assert g + h - a.states == (g - a.states) + (h - b.states);
    ArrivesUnion(c, g - a.states, h - b.states, w);
    OldSame(b, c, g - a.states, w);
    ExtendedSame(a, b, f, k, w);
    ExtendedUnion(a, f, l, k, u, w);
  }

  lemma OldSame(a: Nfa, b: Nfa, f: set<State>, w: Symbols)
    requires SameOld(a, b) && f <= a.states
    ensures Arrives(b, f, w) <==> Arrives(a, f, w)
  {
    hide Arrives;
    ArrivesSame(a, b, f, w);
  }

  lemma SameOldTrans(a: Nfa, b: Nfa, c: Nfa)
    requires SameOld(a, b) && SameOld(b, c) && a.states <= b.states
    ensures SameOld(a, c)
  {
    hide Arrives;
    forall k, w | k in a.states ensures Arrives(c, {k}, w) <==> Arrives(a, {k}, w) {
      assert Arrives(b, {k}, w) <==> Arrives(a, {k}, w);
    }
  }

  lemma InhabitedUnion(a: Nfa, f: set<State>, g: set<State>)
    ensures Inhabited(a, f + g) <==> Inhabited(a, f) || Inhabited(a, g)
  {
    hide Arrives;
    forall w ensures Arrives(a, f + g, w) <==> Arrives(a, f, w) || Arrives(a, g, w) { ArrivesUnion(a, f, g, w); }
  }

  lemma InhabitedOld(a: Nfa, b: Nfa, f: set<State>)
    requires SameOld(a, b) && f <= a.states
    ensures Inhabited(b, f) <==> Inhabited(a, f)
  {
    hide Arrives, SameOld;
    forall w ensures Arrives(b, f, w) <==> Arrives(a, f, w) { OldSame(a, b, f, w); }
  }

  /** Which states two compilations from the same states make final. */
  lemma AlternativeMarks(a: Nfa, f: set<State>, p: Pattern, b: Nfa, g: set<State>, q: Pattern, c: Nfa, h: set<State>)
    requires f <= a.states && Compiled(a, f, p, b, g) && Compiled(b, f, q, c, h)
    ensures a.finals - f <= c.finals && Marked(a, f, c) == Marked(a, f, b) - f + Marked(b, f, c)
      && Marked(a, f, c) <= g + h
    ensures Marked(a, f, c) * a.states == (if [] in Built(q) then f else {})
    ensures (g + h) * a.states == (if [] in Language(p) || [] in Language(q) then f else {})
    ensures Lost(a, f, c, g + h) == Lost(a, f, b, g) + Lost(b, f, c, h)
    ensures Marked(a, f, c) - a.states == Marked(a, f, b) + Marked(b, f, c) - a.states
    ensures h * b.states <= f && Marked(b, f, c) * b.states <= f
  {
    hide Arrives, Extended, Trimmed, Inhabited, Language, Built, SameOld;
    InBoth(h, b.states, [] in Language(q), f);
    InBoth(g, a.states, [] in Language(p), f);
    InBoth(Marked(b, f, c), b.states, [] in Built(q), f);
    InBoth(Marked(a, f, b), a.states, [] in Built(p), f);
  }

  lemma InBoth(g: set<State>, s: set<State>, yes: bool, f: set<State>)
    requires g * s == if yes then f else {}
    ensures forall x :: x in g && x in s <==> yes && x in f
  {
    forall x ensures x in g && x in s <==> yes && x in f { assert x in g && x in s <==> x in g * s; }
  }

  lemma CompiledAlternative(a: Nfa, f: set<State>, p: Pattern, b: Nfa, g: set<State>, q: Pattern, c: Nfa, h: set<State>)
    requires f <= a.states && Compiled(a, f, p, b, g) && Compiled(b, f, q, c, h)
    ensures Compiled(a, f, Alternative(p, q), c, g + h)
  {
    hide Arrives, Extended, Trimmed, WellFormed, Inhabited, Lost, Marked, SameOld;
    AlternativeMarks(a, f, p, b, g, q, c, h);
    SameOldTrans(a, b, c);
    var m1, m2 := Marked(a, f, b), Marked(b, f, c);
    forall w ensures Arrives(c, g + h - a.states, w) <==> Extended(a, f, Language(Alternative(p, q)), w) {
      AlternativeArrives(a, f, Language(p), b, g, Language(q), c, h, Language(Alternative(p, q)), w);
    }
    forall w ensures Arrives(c, m1 + m2 - a.states, w) <==> Extended(a, f, Built(Alternative(p, q)), w) {
      AlternativeArrives(a, f, Built(p), b, m1, Built(q), c, m2, Built(Alternative(p, q)), w);
    }
    InhabitedUnion(c, Lost(a, f, b, g), Lost(b, f, c, h));
    LostWithin(a, f, b, g);
    InhabitedOld(b, c, Lost(a, f, b, g));
  }

  lemma LostWithin(a: Nfa, f: set<State>, b: Nfa, g: set<State>)
    ensures Lost(a, f, b, g) <= g
  {
  }

  // ---------- the tree of goals ----------

  ghost function Arrivals(a: Nfa, f: set<State>): iset<Symbols> { iset w | Arrives(a, f, w) }

  /** After a word of `start`, the states of `t` are where the words of `p` end, and the same holds for
      its parts.  An atom has no parts.  Both operands of an alternative start where it does and its
      states are theirs; the second operand of a concatenation starts where the first one ends, and
      ends where the concatenation does. */
  ghost predicate Shaped(a: Nfa, start: iset<Symbols>, p: Pattern, t: TestGoalStates) {
    && t.states <= a.states && (forall w :: Arrives(a, t.states, w) <==> w in Joined(start, Language(p)))
    && match p
       case Atom(ta) => t.children == []
       case Alternative(x, y) =>
         && |t.children| == 2 && t.states == t.children[0].states + t.children[1].states
         && Shaped(a, start, x, t.children[0]) && Shaped(a, start, y, t.children[1])
       case Concat(x, y) =>
         && |t.children| == 2 && t.states == t.children[1].states
         && Shaped(a, start, x, t.children[0])
         && Shaped(a, Joined(start, Language(x)), y, t.children[1])
  }

  /** Later compilations keep the shape. */
  lemma {:induction false} ShapedLater(a: Nfa, b: Nfa, start: iset<Symbols>, p: Pattern, t: TestGoalStates)
    requires Shaped(a, start, p, t) && SameOld(a, b) && a.states <= b.states
    ensures Shaped(b, start, p, t)
    decreases p
  {
    hide Arrives, SameOld, Joined, Language;
    forall w ensures Arrives(b, t.states, w) <==> w in Joined(start, Language(p)) { OldSame(a, b, t.states, w); }
    match p {
      case Atom(ta) =>
      case Alternative(x, y) =>
        ShapedLater(a, b, start, x, t.children[0]);
        ShapedLater(a, b, start, y, t.children[1]);
      case Concat(x, y) =>
        ShapedLater(a, b, start, x, t.children[0]);
        ShapedLater(a, b, Joined(start, Language(x)), y, t.children[1]);
    }
  }

  lemma ComposedJoined(a: Nfa, f: set<State>, l: iset<Symbols>, w: Symbols)
    ensures Composed(a, f, l, w) <==> w in Joined(Arrivals(a, f), l)
  {
    hide Arrives;
    if Composed(a, f, l, w) { var j :| SplitArrives(a, f, l, w, j); }
    if w in Joined(Arrivals(a, f), l) {
      var j :| 0 <= j <= |w| && w[..j] in Arrivals(a, f) && w[j..] in l;
      assert SplitArrives(a, f, l, w, j);
    }
  }

  /** Where a compiled pattern ends. */
  lemma CompiledEnds(a: Nfa, f: set<State>, p: Pattern, b: Nfa, g: set<State>)
    requires Compiled(a, f, p, b, g) && f <= a.states
    ensures forall w :: Arrives(b, g, w) <==> w in Joined(Arrivals(a, f), Language(p))
    ensures g <= b.states && SameOld(a, b) && a.states <= b.states
    ensures Arrivals(b, g) == Joined(Arrivals(a, f), Language(p)) && Arrivals(b, f) == Arrivals(a, f)
  {
    forall w ensures Arrives(b, g, w) <==> w in Joined(Arrivals(a, f), Language(p)) {
      hide *;
      CompiledArrives(a, f, p, b, g, w);
      ComposedJoined(a, f, Language(p), w);
    }
    hide Arrives, Extended, Trimmed, Inhabited, Language, Built, Joined, Marked, Lost;
    forall w ensures Arrives(b, f, w) <==> Arrives(a, f, w) { OldSame(a, b, f, w); }
  }

  lemma ShapedAtom(a: Nfa, f: set<State>, ta: Nfa, b: Nfa, g: set<State>)
    requires Compiled(a, f, Atom(ta), b, g) && f <= a.states
    ensures Shaped(b, Arrivals(a, f), Atom(ta), Goals(g, []))
  {
    hide Compiled, Arrives, Joined, Language;
    CompiledEnds(a, f, Atom(ta), b, g);
  }

  lemma ShapedAlternative(a: Nfa, f: set<State>, x: Pattern, b: Nfa, g: set<State>, y: Pattern, c: Nfa, h: set<State>,
                          t1: TestGoalStates, t2: TestGoalStates)
    requires f <= a.states && Compiled(a, f, x, b, g) && Compiled(b, f, y, c, h)
    requires Compiled(a, f, Alternative(x, y), c, g + h)
    requires Shaped(b, Arrivals(a, f), x, t1) && t1.states == g && Shaped(c, Arrivals(b, f), y, t2) && t2.states == h
    ensures Shaped(c, Arrivals(a, f), Alternative(x, y), Goals(g + h, [t1, t2]))
  {
    CompiledEnds(a, f, x, b, g);
    CompiledEnds(b, f, y, c, h);
    CompiledEnds(a, f, Alternative(x, y), c, g + h);
    ShapedLater(b, c, Arrivals(a, f), x, t1);
    hide Compiled, Arrives, Joined, Language, Arrivals, SameOld;
  }

  lemma ShapedConcat(a: Nfa, f: set<State>, x: Pattern, b: Nfa, g: set<State>, y: Pattern, c: Nfa, h: set<State>,
                     t1: TestGoalStates, t2: TestGoalStates)
    requires f <= a.states && Compiled(a, f, x, b, g) && Compiled(b, g, y, c, h) && Compiled(a, f, Concat(x, y), c, h)
    requires Shaped(b, Arrivals(a, f), x, t1) && t1.states == g && Shaped(c, Arrivals(b, g), y, t2) && t2.states == h
    ensures Shaped(c, Arrivals(a, f), Concat(x, y), Goals(h, [t1, t2]))
  {
    CompiledEnds(a, f, x, b, g);
    CompiledEnds(b, g, y, c, h);
    CompiledEnds(a, f, Concat(x, y), c, h);
    ShapedLater(b, c, Arrivals(a, f), x, t1);
    hide Compiled, Arrives, Joined, Language, Arrivals, SameOld;
  }

  lemma Slices(w: Symbols, k: nat, j: nat)
    requires k <= j <= |w|
    ensures w[k..][..j - k] == w[..j][k..] && w[k..][j - k..] == w[j..] && w[..k] == w[..j][..k]
  {
  }

  ghost function Joined(l: iset<Symbols>, k: iset<Symbols>): iset<Symbols> {
    iset w | exists j :: 0 <= j <= |w| && w[..j] in l && w[j..] in k
  }

  lemma JoinedWord(l: iset<Symbols>, k: iset<Symbols>, v: Symbols, n: nat)
    requires n <= |v| && v[..n] in l && v[n..] in k
    ensures v in Joined(l, k)
  {
  }

  lemma JoinedSplit(l: iset<Symbols>, k: iset<Symbols>, v: Symbols) returns (n: nat)
    requires v in Joined(l, k)
    ensures n <= |v| && v[..n] in l && v[n..] in k
  {
    n :| 0 <= n <= |v| && v[..n] in l && v[n..] in k;
  }

  /** Reading on from where the first language ends, in either of two ways to count the new states. */
  lemma ExtendedJoined(a: Nfa, f: set<State>, l: iset<Symbols>, b: Nfa, g: set<State>, k: iset<Symbols>, w: Symbols)
    requires forall v :: Arrives(b, g, v) <==> Composed(a, f, l, v)
    ensures Extended(b, g, k, w) || ([] in k && Extended(a, f, l, w)) <==> Extended(a, f, Joined(l, k), w)
  {
    hide Arrives, Joined;
    if Extended(b, g, k, w) {
      var j :| SplitArrives(b, g, k, w, j) && j < |w|;
      assert Composed(a, f, l, w[..j]);
      var n :| SplitArrives(a, f, l, w[..j], n);
      Slices(w, n, j);
      JoinedWord(l, k, w[n..], j - n);
      assert SplitArrives(a, f, Joined(l, k), w, n);
    }
    if [] in k && Extended(a, f, l, w) {
      var j :| SplitArrives(a, f, l, w, j) && j < |w|;
      assert w[j..][..|w| - j] == w[j..] && w[j..][|w| - j..] == [];
      JoinedWord(l, k, w[j..], |w| - j);
      assert SplitArrives(a, f, Joined(l, k), w, j);
    }
    if Extended(a, f, Joined(l, k), w) {
      var j :| SplitArrives(a, f, Joined(l, k), w, j) && j < |w|;
      var n := JoinedSplit(l, k, w[j..]);
      Slices(w, j, j + n);
      if j + n < |w| {
        assert SplitArrives(a, f, l, w[..j + n], j);
        assert Arrives(b, g, w[..j + n]);
        assert SplitArrives(b, g, k, w, j + n);
      } else {
        assert w[j..][..n] == w[j..] && w[j..][n..] == [];
        assert SplitArrives(a, f, l, w, j);
      }
    }
  }

  lemma ConcatArrives(a: Nfa, f: set<State>, l: iset<Symbols>, b: Nfa, g: set<State>, k: iset<Symbols>, c: Nfa,
                      h: set<State>, w: Symbols)
    requires a.states <= b.states && g <= b.states && SameOld(b, c) && h * b.states == (if [] in k then g else {})
    requires forall v :: Arrives(b, g, v) <==> Composed(a, f, l, v)
    requires forall v :: Arrives(b, g - a.states, v) <==> Extended(a, f, l, v)
    requires forall v :: Arrives(c, h - b.states, v) <==> Extended(b, g, k, v)
    ensures Arrives(c, h - a.states, w) <==> Extended(a, f, Joined(l, k), w)
  {
    hide Arrives, Extended, Composed, SameOld, Joined;
    var old' := if [] in k then g - a.states else {};
    assert h - a.states == (h - b.states) + old';
    ArrivesUnion(c, h - b.states, old', w);
    OldSame(b, c, old', w);
    ArrivesNone(b, w);
    ExtendedJoined(a, f, l, b, g, k, w);
  }

  lemma ArrivesNone(a: Nfa, w: Symbols)
    ensures !Arrives(a, {}, w)
  {
  }

  /** A compiled pattern ends exactly with its words. */
  lemma CompiledArrives(a: Nfa, f: set<State>, p: Pattern, b: Nfa, g: set<State>, w: Symbols)
    requires Compiled(a, f, p, b, g) && f <= a.states
    ensures Arrives(b, g, w) <==> Composed(a, f, Language(p), w)
    ensures Arrives(b, Marked(a, f, b), w) <==> Composed(a, f, Built(p), w)
  {
    hide Arrives, Extended, Composed, Trimmed, Inhabited, Language, Built;
    EndsCompose(a, f, b, g, Language(p), w);
    EndsCompose(a, f, b, Marked(a, f, b), Built(p), w);
  }

  lemma EndsCompose(a: Nfa, f: set<State>, b: Nfa, g: set<State>, l: iset<Symbols>, w: Symbols)
    requires f <= a.states && SameOld(a, b) && g * a.states == (if [] in l then f else {})
    requires Arrives(b, g - a.states, w) <==> Extended(a, f, l, w)
    ensures Arrives(b, g, w) <==> Composed(a, f, l, w)
  {
    hide Arrives, Extended, Composed, SameOld;
    assert g == (g - a.states) + g * a.states;
    ArrivesUnion(b, g - a.states, g * a.states, w);
    OldSame(a, b, g * a.states, w);
    ArrivesNone(a, w);
    ComposedParts(a, f, l, w);
  }

  /** Which states two compilations in sequence make final. */
  lemma ConcatMarks(a: Nfa, f: set<State>, p: Pattern, b: Nfa, g: set<State>, q: Pattern, c: Nfa, h: set<State>)
    requires WellFormed(a) && f <= a.states && Compiled(a, f, p, b, g) && Compiled(b, g, q, c, h)
    ensures a.finals - f <= c.finals && Marked(a, f, c) == Marked(b, g, c)
    ensures Marked(a, f, c) * a.states == (if [] in Language(p) && [] in Built(q) then f else {})
    ensures h * a.states == (if [] in Language(p) && [] in Language(q) then f else {})
    ensures [] in Built(q) ==> [] in Language(q)
    ensures Lost(a, f, c, h) ==
      Lost(b, g, c, h) + (if [] in Language(q) && [] !in Built(q) then g - a.states else {})
  {
    hide Arrives, Extended, Trimmed, Inhabited, InLanguage, AsBuilt, SameOld;
    if [] in Built(q) { BuiltWithin(q, []); }
    hide Language, Built;
    InBoth(h, b.states, [] in Language(q), g);
    InBoth(g, a.states, [] in Language(p), f);
    InBoth(Marked(b, g, c), b.states, [] in Built(q), g);
    assert b.finals - g == a.finals - f;
  }

  lemma CompiledConcat(a: Nfa, f: set<State>, p: Pattern, b: Nfa, g: set<State>, q: Pattern, c: Nfa, h: set<State>)
    requires WellFormed(a) && f <= a.states && Inhabited(a, f) && Compiled(a, f, p, b, g) && Compiled(b, g, q, c, h)
    ensures Compiled(a, f, Concat(p, q), c, h)
  {
    hide Arrives, Extended, Composed, Trimmed, WellFormed, Inhabited, Lost, Marked, SameOld, HasMore;
    ConcatMarks(a, f, p, b, g, q, c, h);
    SameOldTrans(a, b, c);
    ConcatWords(p, q);
    forall v ensures Arrives(b, g, v) <==> Composed(a, f, Language(p), v) { CompiledArrives(a, f, p, b, g, v); }
    forall w ensures Arrives(c, h - a.states, w) <==> Extended(a, f, Language(Concat(p, q)), w) {
      ConcatArrives(a, f, Language(p), b, g, Language(q), c, h, w);
    }
    var m := Marked(b, g, c);
    forall w ensures Arrives(c, m - a.states, w) <==> Extended(a, f, Built(Concat(p, q)), w) {
      ConcatArrives(a, f, Language(p), b, g, Built(q), c, m, w);
    }
    InhabitedUnion(c, Lost(b, g, c, h), g - a.states);
    InhabitedUnion(c, Lost(b, g, c, h), {});
    InhabitedOld(b, c, g - a.states);
    InhabitedMore(a, f, p, b, g - a.states);
    forall w ensures !Arrives(c, {}, w) { ArrivesNone(c, w); }
    NotInhabited(c, {});
  }

  lemma NotInhabited(a: Nfa, f: set<State>)
    requires forall w :: !Arrives(a, f, w)
    ensures !Inhabited(a, f)
  {
  }

  lemma ConcatWords(p: Pattern, q: Pattern)
    ensures Language(Concat(p, q)) == Joined(Language(p), Language(q))
    ensures Built(Concat(p, q)) == Joined(Language(p), Built(q))
    ensures [] in Language(Concat(p, q)) <==> [] in Language(p) && [] in Language(q)
    ensures [] in Built(Concat(p, q)) <==> [] in Language(p) && [] in Built(q)
  {
    var e: Symbols := [];
    assert e[..0] == [] && e[0..] == [];
  }

  /** New states where a pattern ends are reached exactly if it has a word that is not empty. */
  lemma InhabitedMore(a: Nfa, f: set<State>, p: Pattern, b: Nfa, g: set<State>)
    requires Inhabited(a, f) && forall w :: Arrives(b, g, w) <==> Extended(a, f, Language(p), w)
    ensures Inhabited(b, g) <==> HasMore(p)
  {
    hide Arrives, InLanguage;
    if Inhabited(b, g) {
      var w :| Arrives(b, g, w);
      var j :| SplitArrives(a, f, Language(p), w, j) && j < |w|;
      assert w[j..] != [];
    }
    if HasMore(p) {
      var u :| Arrives(a, f, u);
      var v :| v != [] && InLanguage(p, v);
      Whole(u, v);
      assert SplitArrives(a, f, Language(p), u + v, |u|);
      assert Arrives(b, g, u + v);
    }
  }

  /** Every pattern has a word, so its compilation ends somewhere. */
  lemma {:induction false} SomeWord(p: Pattern) returns (w: Symbols)
    requires AtomsOk(p)
    ensures InLanguage(p, w)
  {
    match p {
      case Atom(ta) => w :| Accepts(ta, w);
      case Alternative(a, b) => w := SomeWord(a);
      case Concat(a, b) =>
        var u := SomeWord(a);
        var v := SomeWord(b);
        w := u + v;
        Whole(u, v);
    }
  }

  lemma CompiledInhabited(a: Nfa, f: set<State>, p: Pattern, b: Nfa, g: set<State>)
    requires Compiled(a, f, p, b, g) && f <= a.states && AtomsOk(p) && Inhabited(a, f)
    ensures Inhabited(b, g) && g != {}
  {
    hide AtomsOk, InLanguage, Trimmed, Compiled, Arrives;
    var u :| Arrives(a, f, u);
    var v := SomeWord(p);
    Whole(u, v);
    assert SplitArrives(a, f, Language(p), u + v, |u|);
    CompiledArrives(a, f, p, b, g, u + v);
    if g == {} { ArrivesNone(b, u + v); }
  }

  // ---------- the evaluation ----------

  class Evaluator {
    const aut: TraceAutomaton           // the test-goal automaton
    var current: set<State>             // the final states of what is compiled so far
    var all: set<State>                 // every test-goal state

    constructor ()
      ensures fresh(aut) && aut.Valid() && current == all == {}
    {
      aut := new TraceAutomaton();
      current, all := {}, {};
    }

    /** One more atom, from the current final states on. */
    method CopyFromPathPattern(ta: Nfa) returns (t: TestGoalStates)
      requires Trimmed(aut.View()) && current <= aut.states && current != {} && AtomOk(ta)
      modifies this, aut
      ensures Compiled(old(aut.View()), old(current), Atom(ta), aut.View(), current)
      ensures |ta.states| == 2 && |ta.trans| == 1 ==>
        AddsOneState(old(aut.View()), old(current), aut.View(), current)
      ensures t == Goals(current, []) && all == old(all) + current
    {
      if |ta.states| == 2 && |ta.trans| == 1 { SingleEdge(ta); } else { Attach(ta); }
      t := Goals(current, []);
      all := all + current;
    }

    /** An atom with one edge shares its first state with the current final states. */
    method SingleEdge(ta: Nfa)
      requires Trimmed(aut.View()) && current <= aut.states && current != {} && AtomOk(ta)
      requires |ta.states| == 2 && |ta.trans| == 1
      modifies this`current, aut
      ensures Compiled(old(aut.View()), old(current), Atom(ta), aut.View(), current)
      ensures AddsOneState(old(aut.View()), old(current), aut.View(), current)
    {
      hide Compiled, Trimmed, AtomOk, Accepts;
      ghost var a, f := aut.View(), current;
      ghost var edge := SingleAtom(ta);
      var e :| e in ta.trans;
      var q := aut.NewState();
      var prev := current;
      current := {q};
      aut.finals := aut.finals + {q};
      Link(prev, e.sym, q);
      FinalsOldAll(a);
      assert aut.View() == Appended(a, f, e.sym, q);
      AppendedCompiled(a, f, e.sym, q, ta);
    }

    /** Leads every state of `prev` to `q`, and makes it no longer final. */
    method Link(prev: set<State>, l: int, q: State)
      modifies aut
      ensures aut.trans == old(aut.trans) + Links(prev, l, q) && aut.finals == old(aut.finals) - prev
      ensures aut.states == old(aut.states) && aut.initial == old(aut.initial)
    {
      var rest := prev;
      while rest != {}
        invariant rest <= prev && aut.trans == old(aut.trans) + Links(prev - rest, l, q)
        invariant aut.finals == old(aut.finals) - (prev - rest)
        invariant aut.states == old(aut.states) && aut.initial == old(aut.initial)
      {
        var s :| s in rest;
        ghost var done := prev - rest;
        rest := rest - {s};
        aut.trans := aut.trans + {Edge(s, l, q)};
        aut.finals := aut.finals - {s};
        assert prev - rest == done + {s};
        OneMoreLink(done, s, l, q);
      }
    }

    /** Any other atom is copied, entered by epsilon edges, and the automaton is simplified. */
    method Attach(ta: Nfa)
      requires Trimmed(aut.View()) && current <= aut.states && AtomOk(ta)
      modifies this`current, aut
      ensures Compiled(old(aut.View()), old(current), Atom(ta), aut.View(), current)
    {
      hide Compiled, Trimmed, AtomOk, Accepts, Simplified, Dead;
      ghost var a, f := aut.View(), current;
      TrimmedParts(a);
      AtomParts(ta);
      var prev := current;
      var init, fin, m := aut.CopyFrom(ta);
      ghost var i :| i in ta.initial;
      assert m[i] in init;
      var j :| j in init;
      OneImage(m, ta, i, init, j);
      Link(prev, Epsilon, j);
      var exFinal := aut.finals;
      aut.finals := aut.finals + fin;
      assert aut.View() == Attached(a, f, ta, m, m[i]);
      AttachedGrows(a, f, ta, m, i);
      aut.Simplify(false);
      current := aut.finals - exFinal;
      AttachedCompiled(a, f, ta, m, i, aut.View());
    }

    /** Compiles a pattern from the current final states on. */
    method Visit(p: Pattern) returns (t: TestGoalStates)
      requires Trimmed(aut.View()) && current <= aut.states && Inhabited(aut.View(), current) && AtomsOk(p)
      modifies this, aut
      ensures Compiled(old(aut.View()), old(current), p, aut.View(), current)
      ensures t.states == current && forall s :: s in all <==> s in old(all) || GoalIn(t, s)
      ensures Shaped(aut.View(), Arrivals(old(aut.View()), old(current)), p, t)
      decreases p
    {
      hide Compiled, Trimmed, Inhabited, AtomOk, Shaped, Arrivals;
      ghost var a, f := aut.View(), current;
      match p {
        case Atom(ta) =>
          InhabitedSome(a, f);
          t := CopyFromPathPattern(ta);
          ShapedAtom(a, f, ta, aut.View(), current);
        case Alternative(x, y) =>
          var bak := current;
          var t1 := Visit(x);
          ghost var b, g := aut.View(), current;
          CompiledParts(a, f, x, b, g);
          var first := current;
          current := bak;
          var t2 := Visit(y);
          TrimmedParts(a);
          CompiledAlternative(a, f, x, b, g, y, aut.View(), current);
          ShapedAlternative(a, f, x, b, g, y, aut.View(), current, t1, t2);
          assert first + current == current + first;
          current := current + first;
          t := Goals(current, [t1, t2]);
          all := all + current;
        case Concat(x, y) =>
          var t1 := Visit(x);
          ghost var b, g := aut.View(), current;
          CompiledParts(a, f, x, b, g);
          CompiledInhabited(a, f, x, b, g);
          var t2 := Visit(y);
          TrimmedParts(a);
          CompiledConcat(a, f, x, b, g, y, aut.View(), current);
          ShapedConcat(a, f, x, b, g, y, aut.View(), current, t1, t2);
          t := Goals(current, [t1, t2]);
          all := all + current;
      }
    }

    /** The words of the pattern are those that lead to the recorded states, and the tree finds
        exactly the recorded test-goal states.  The automaton accepts the words of the pattern as
        built; some reachable recorded state is not final exactly if the pattern does not keep all. */
    method DoQuery(p: Pattern) returns (t: TestGoalStates)
      requires AtomsOk(p)
      modifies this, aut
      ensures aut.Valid() && NoEpsilon(aut.trans) && |aut.initial| == 1 && aut.finals <= current
      ensures forall w :: Arrives(aut.View(), current, w) <==> InLanguage(p, w)
      ensures forall w :: Accepts(aut.View(), w) <==> AsBuilt(p, w)
      ensures Inhabited(aut.View(), current - aut.finals) <==> !KeepsAll(p)
      ensures Exact(p) && (InLanguage(p, []) ==> AsBuilt(p, [])) ==> aut.finals == current
      ensures NoEmptyAtoms(p) ==> aut.finals == current && forall w :: Accepts(aut.View(), w) <==> InLanguage(p, w)
      ensures t.states == current && forall s :: s in all <==> GoalIn(t, s)
      ensures Shaped(aut.View(), iset{[]}, p, t)
    {
      hide Compiled, Trimmed, Inhabited, AtomOk, Accepts, Shaped;
      aut.states, aut.trans, aut.initial, aut.finals := {}, {}, {}, {};
      current, all := {}, {};
      var q := aut.NewState();
      current := current + {q};
      aut.initial := aut.initial + {q};
      aut.finals := aut.finals + {q};
      ghost var a := aut.View();
      assert a == Nfa({q}, {}, {q}, {q});
      StartState(a, q);
      t := Visit(p);
      OnlyEmpty(a, q);
      QueryLanguage(a, q, p, aut.View(), current);
      if NoEmptyAtoms(p) { PlainKeeps(p, aut.View()); }
    }
  }

  lemma FinalsOldAll(a: Nfa)
    requires Trimmed(a)
    ensures a.finals <= a.states
  {
  }

  lemma TrimmedParts(a: Nfa)
    requires Trimmed(a)
    ensures WellFormed(a)
  {
  }

  lemma AtomParts(ta: Nfa)
    requires AtomOk(ta)
    ensures WellFormed(ta) && |ta.initial| == 1 && ta.initial != {} && ta.initial <= ta.states
  {
  }

  lemma OneMoreLink(f: set<State>, s: State, l: int, q: State)
    ensures Links(f + {s}, l, q) == Links(f, l, q) + {Edge(s, l, q)}
  {
  }

  lemma OneImage(m: map<State, State>, ta: Nfa, i: State, init: set<State>, j: State)
    requires |ta.initial| == 1 && i in ta.initial && init == ImageStates(m, ta.initial) && j in init
    ensures i in m && j == m[i]
  {
    var x :| x in ta.initial && x in m && j == m[x];
    SameInitial(ta, i, x);
  }

  lemma InhabitedSome(a: Nfa, f: set<State>)
    requires Inhabited(a, f)
    ensures f != {}
  {
  }

  lemma CompiledParts(a: Nfa, f: set<State>, p: Pattern, b: Nfa, g: set<State>)
    requires Compiled(a, f, p, b, g) && f <= a.states && Inhabited(a, f)
    ensures Trimmed(b) && g <= b.states && f <= b.states && Inhabited(b, f)
  {
    hide Arrives, Inhabited, Trimmed, Extended, SameOld, Language, Built, Lost, Marked;
    InhabitedOld(a, b, f);
  }

  lemma StartState(a: Nfa, q: State)
    requires a == Nfa({q}, {}, {q}, {q})
    ensures Trimmed(a) && Inhabited(a, {q})
  {
    GoesNowhere(a.trans, q);
    assert Arrives(a, {q}, []);
  }

  lemma NoEdgesWord(u: State, w: Symbols, v: State)
    requires Goes({}, u, w, v)
    ensures w == []
  {
    var es :| Chain({}, u, es, v) && Word(es) == w;
  }

  /** From one initial state, a compiled pattern is read exactly to where it ends. */
  lemma FromStart(a: Nfa, q: State, l: iset<Symbols>, w: Symbols)
    requires a == Nfa({q}, {}, {q}, {q})
    ensures Composed(a, {q}, l, w) <==> w in l
  {
    hide Goes;
    if w in l {
      GoesNowhere(a.trans, q);
      assert w[..0] == [] && w[0..] == w;
      assert Arrives(a, {q}, w[..0]);
      assert SplitArrives(a, {q}, l, w, 0);
    }
    if Composed(a, {q}, l, w) {
      var j :| SplitArrives(a, {q}, l, w, j);
      var i, k :| i in a.initial && k in {q} && Goes(a.trans, i, w[..j], k);
      NoEdgesWord(i, w[..j], k);
      assert w[j..] == w;
    }
  }

  lemma OnlyEmpty(a: Nfa, q: State)
    requires a == Nfa({q}, {}, {q}, {q})
    ensures Arrivals(a, {q}) == iset{[]}
  {
    hide Goes;
    GoesNowhere(a.trans, q);
    forall w ensures Arrives(a, {q}, w) <==> w == [] {
      if Arrives(a, {q}, w) {
        var i, k :| i in a.initial && k in {q} && Goes(a.trans, i, w, k);
        NoEdgesWord(i, w, k);
      }
    }
  }

  lemma QueryLanguage(a: Nfa, q: State, p: Pattern, b: Nfa, g: set<State>)
    requires a == Nfa({q}, {}, {q}, {q}) && Compiled(a, {q}, p, b, g)
    ensures WellFormed(b) && NoEpsilon(b.trans) && |b.initial| == 1 && b.finals <= g
    ensures forall w :: Accepts(b, w) <==> AsBuilt(p, w)
    ensures forall w :: Arrives(b, g, w) <==> InLanguage(p, w)
    ensures Inhabited(b, g - b.finals) <==> !KeepsAll(p)
    ensures Exact(p) && (InLanguage(p, []) ==> AsBuilt(p, [])) ==> b.finals == g
  {
    hide InLanguage, AsBuilt, Goes, Sustained, Extended, Composed;
    assert a.finals - {q} == {} && Marked(a, {q}, b) == b.finals;
    forall w ensures Accepts(b, w) <==> AsBuilt(p, w) {
      assert Accepts(b, w) <==> Arrives(b, b.finals, w);
      CompiledArrives(a, {q}, p, b, g, w);
      FromStart(a, q, Built(p), w);
    }
    forall w ensures Arrives(b, g, w) <==> InLanguage(p, w) {
      CompiledArrives(a, {q}, p, b, g, w);
      FromStart(a, q, Language(p), w);
    }
    LostStates(a, q, p, b, g);
  }

  lemma LostStates(a: Nfa, q: State, p: Pattern, b: Nfa, g: set<State>)
    requires a == Nfa({q}, {}, {q}, {q}) && Compiled(a, {q}, p, b, g) && Marked(a, {q}, b) == b.finals
    ensures Inhabited(b, g - b.finals) <==> !KeepsAll(p)
    ensures Exact(p) && (InLanguage(p, []) ==> AsBuilt(p, [])) ==> g - b.finals == {}
  {
    hide InLanguage, AsBuilt, Exact, Arrives, Sustained, Extended, Inhabited, SameOld, KeepsNew;
    StartState(a, q);
    InhabitedOld(a, b, {q});
    var old' := if InLanguage(p, []) && !AsBuilt(p, []) then {q} else {};
    if AsBuilt(p, []) { BuiltWithin(p, []); }
    InBoth(g, a.states, [] in Language(p), {q});
    InBoth(b.finals, a.states, [] in Built(p), {q});
    assert forall x :: x in g - b.finals <==> x in Lost(a, {q}, b, g) || x in old';
    assert g - b.finals == Lost(a, {q}, b, g) + old';
    InhabitedUnion(b, Lost(a, {q}, b, g), old');
    forall w ensures !Arrives(b, {}, w) { ArrivesNone(b, w); }
    NotInhabited(b, {});
  }

  /** When no state is left without being final, the automaton has the language of the pattern. */
  lemma {:induction false} KeptWords(p: Pattern, w: Symbols)
    requires KeepsNew(p) && InLanguage(p, w) && w != []
    ensures AsBuilt(p, w)
    decreases p
  {
    match p {
      case Atom(ta) =>
      case Alternative(x, y) => if InLanguage(x, w) { KeptWords(x, w); } else { KeptWords(y, w); }
      case Concat(x, y) =>
        var j :| 0 <= j <= |w| && InLanguage(x, w[..j]) && InLanguage(y, w[j..]);
        if w[j..] != [] { KeptWords(y, w[j..]); }
        else { assert w[..j] == w && HasMore(x); }
    }
  }

  lemma KeepsLanguage(p: Pattern, w: Symbols)
    requires KeepsAll(p)
    ensures AsBuilt(p, w) <==> InLanguage(p, w)
  {
    hide InLanguage, AsBuilt, KeepsNew;
    if InLanguage(p, w) && w != [] { KeptWords(p, w); }
    if AsBuilt(p, w) { BuiltWithin(p, w); }
  }

  /** No atom of the pattern accepts the empty word: patterns without quotes. */
  ghost predicate NoEmptyAtoms(p: Pattern) {
    match p
    case Atom(ta) => !Accepts(ta, [])
    case Alternative(x, y) => NoEmptyAtoms(x) && NoEmptyAtoms(y)
    case Concat(x, y) => NoEmptyAtoms(x) && NoEmptyAtoms(y)
  }

  /** Patterns without empty atoms have no empty word and lose nothing. */
  lemma {:induction false} PlainPattern(p: Pattern)
    requires NoEmptyAtoms(p)
    ensures !InLanguage(p, []) && KeepsAll(p) && Exact(p)
    decreases p
  {
    match p {
      case Atom(ta) =>
      case Alternative(x, y) =>
        PlainPattern(x);
        PlainPattern(y);
      case Concat(x, y) =>
        PlainPattern(x);
        PlainPattern(y);
        var e: Symbols := [];
        assert forall j :: 0 <= j <= |e| ==> e[..j] == e;
    }
  }

  lemma PlainKeeps(p: Pattern, a: Nfa)
    requires NoEmptyAtoms(p) && forall w :: Accepts(a, w) <==> AsBuilt(p, w)
    ensures !InLanguage(p, []) && Exact(p) && forall w :: Accepts(a, w) <==> InLanguage(p, w)
  {
    hide Accepts, InLanguage, AsBuilt, KeepsAll, NoEmptyAtoms;
    PlainPattern(p);
    forall w ensures AsBuilt(p, w) <==> InLanguage(p, w) { KeepsLanguage(p, w); }
  }

  // ---------- where the empty word is lost ----------

  /** Any number of `l`: one state, initial and final, with a loop. */
  ghost function Repeated(l: int): Nfa { Nfa({0}, {Edge(0, l, 0)}, {0}, {0}) }

  ghost function Single(l: int): Nfa { Nfa({0, 1}, {Edge(0, l, 1)}, {0}, {1}) }

  /** Any number of `l`, or `l` once: the pattern has the empty word, but it is not accepted. */
  lemma EmptyWordLost(l: int)
    requires l != Epsilon
    ensures var p := Alternative(Atom(Repeated(l)), Atom(Single(l)));
      AtomsOk(p) && InLanguage(p, []) && !AsBuilt(p, []) && !KeepsAll(p)
    ensures KeepsAll(Alternative(Atom(Single(l)), Atom(Repeated(l))))
  {
    hide Goes;
    var r, s := Repeated(l), Single(l);
    GoesNowhere(r.trans, 0);
    assert Accepts(r, []);
    GoesEdge(s.trans, Edge(0, l, 1));
    assert Accepts(s, Label(l));
    assert !Accepts(s, []) by {
      if Accepts(s, []) {
        var i, f :| i in s.initial && f in s.finals && Goes(s.trans, i, [], f);
        NoMove(s.trans, i, f);
      }
    }
    assert |s.states| == 2;
    var q := Alternative(Atom(s), Atom(r));
    assert AsBuilt(Atom(r), []) && KeepsNew(Atom(r)) && KeepsNew(Atom(s));
    assert AsBuilt(q, []) && KeepsNew(q);
  }
}
