/** Nondeterministic automata with epsilon edges, the runs they allow, and what the two phases of
    the simplification keep. */
module Nfas {
  type State = nat

  /** The label that reads nothing. */
  const Epsilon: int := -1

  type Symbols = seq<int>

  datatype Edge = Edge(src: State, sym: int, dst: State)

  datatype Nfa = Nfa(states: set<State>, trans: set<Edge>, initial: set<State>, finals: set<State>)

  ghost predicate WellFormed(a: Nfa) {
    && a.initial <= a.states && a.finals <= a.states
    && forall e :: e in a.trans ==> e.src in a.states && e.dst in a.states
  }

  // ---------- runs ----------

  ghost predicate Chain(t: set<Edge>, u: State, es: seq<Edge>, v: State)
    decreases |es|
  {
    if |es| == 0 then u == v else es[0] in t && es[0].src == u && Chain(t, es[0].dst, es[1..], v)
  }

  ghost function Label(l: int): Symbols { if l == Epsilon then [] else [l] }

  ghost function Word(es: seq<Edge>): Symbols {
    if |es| == 0 then [] else Label(es[0].sym) + Word(es[1..])
  }

  /** Some run reads `w` from `u` to `v`. */
  ghost predicate Goes(t: set<Edge>, u: State, w: Symbols, v: State) {
    exists es :: Chain(t, u, es, v) && Word(es) == w
  }

  ghost predicate Accepts(a: Nfa, w: Symbols) {
    exists i, f :: i in a.initial && f in a.finals && Goes(a.trans, i, w, f)
  }

  ghost predicate NoEpsilon(t: set<Edge>) { forall e :: e in t ==> e.sym != Epsilon }

  lemma JoinWords(u: Symbols, v: Symbols, w: Symbols)
    ensures u + (v + w) == (u + v) + w
  {
  }

  lemma {:induction false} ChainAppend(t: set<Edge>, u: State, es: seq<Edge>, v: State, fs: seq<Edge>, x: State)
    requires Chain(t, u, es, v) && Chain(t, v, fs, x)
    ensures Chain(t, u, es + fs, x) && Word(es + fs) == Word(es) + Word(fs)
    decreases |es|
  {
    hide Label;
    var all := es + fs;
    if |es| == 0 { assert all == fs && [] + Word(fs) == Word(fs); }
    else {
      var e, rest := es[0], es[1..];
      ChainAppend(t, e.dst, rest, v, fs, x);
      assert all[0] == e && all[1..] == rest + fs;
      JoinWords(Label(e.sym), Word(rest), Word(fs));
    }
  }

  lemma GoesNowhere(t: set<Edge>, u: State)
    ensures Goes(t, u, [], u)
  {
    assert Chain(t, u, [], u) && Word([]) == [];
  }

  lemma GoesEdge(t: set<Edge>, e: Edge)
    requires e in t
    ensures Goes(t, e.src, Label(e.sym), e.dst)
  {
    assert [e][1..] == [] && Chain(t, e.dst, [], e.dst);
    assert Chain(t, e.src, [e], e.dst) && Word([e]) == Label(e.sym);
  }

  lemma GoesAppend(t: set<Edge>, u: State, w: Symbols, v: State, w': Symbols, x: State)
    requires Goes(t, u, w, v) && Goes(t, v, w', x)
    ensures Goes(t, u, w + w', x)
  {
    var es :| Chain(t, u, es, v) && Word(es) == w;
    var fs :| Chain(t, v, fs, x) && Word(fs) == w';
    ChainAppend(t, u, es, v, fs, x);
  }

  /** Every edge of `t'` is a run of `t`, so every run of `t'` is one of `t`. */
  ghost predicate Refines(t: set<Edge>, t': set<Edge>) {
    forall e :: e in t' ==> Goes(t, e.src, Label(e.sym), e.dst)
  }

  lemma {:induction false} ChainRefines(t: set<Edge>, t': set<Edge>, u: State, es: seq<Edge>, v: State)
    requires Refines(t, t') && Chain(t', u, es, v)
    ensures Goes(t, u, Word(es), v)
    decreases |es|
  {
    hide Goes;
    if |es| == 0 { GoesNowhere(t, u); }
    else {
      ChainRefines(t, t', es[0].dst, es[1..], v);
      GoesAppend(t, u, Label(es[0].sym), es[0].dst, Word(es[1..]), v);
    }
  }

  lemma GoesRefines(t: set<Edge>, t': set<Edge>, u: State, w: Symbols, v: State)
    requires Refines(t, t') && Goes(t', u, w, v)
    ensures Goes(t, u, w, v)
  {
    hide Refines;
    var es :| Chain(t', u, es, v) && Word(es) == w;
    ChainRefines(t, t', u, es, v);
  }

  lemma SubsetRefines(t: set<Edge>, t': set<Edge>)
    requires t' <= t
    ensures Refines(t, t')
  {
    hide Goes;
    forall e | e in t' ensures Goes(t, e.src, Label(e.sym), e.dst) { GoesEdge(t, e); }
  }

  // ---------- simulation ----------

  /** A run of `a` to `n` has a counterpart in `b` that stops at most some epsilon edges early. */
  ghost predicate Simulated(a: Nfa, b: Nfa, u: State, w: Symbols, n: State) {
    exists k :: Goes(b.trans, u, w, k) && Goes(a.trans, k, [], n) && (n in a.finals ==> k in b.finals)
  }

  ghost predicate EarlyFinal(a: Nfa, k: State) { exists n :: n in a.finals && Goes(a.trans, k, [], n) }

  /** Some run of at least one edge reads `w` from `u` to `v` and does not end with an epsilon edge. */
  ghost predicate Strides(t: set<Edge>, u: State, w: Symbols, v: State) {
    exists es: seq<Edge> :: |es| > 0 && Chain(t, u, es, v) && Word(es) == w && es[|es| - 1].sym != Epsilon
  }

  lemma StridesGoes(t: set<Edge>, u: State, w: Symbols, v: State)
    requires Strides(t, u, w, v)
    ensures Goes(t, u, w, v)
  {
  }

  lemma GoesStrides(t: set<Edge>, u: State, w: Symbols, e: Edge)
    requires Goes(t, u, w, e.src) && e in t && e.sym != Epsilon
    ensures Strides(t, u, w + [e.sym], e.dst)
  {
    var es :| Chain(t, u, es, e.src) && Word(es) == w;
    assert [e][1..] == [] && Chain(t, e.dst, [], e.dst);
    assert Chain(t, e.src, [e], e.dst) && Word([e]) == Label(e.sym);
    ChainAppend(t, u, es, e.src, [e], e.dst);
    assert (es + [e])[|es + [e]| - 1] == e;
  }

  lemma StridesBefore(t: set<Edge>, e: Edge, w: Symbols, v: State)
    requires e in t && Strides(t, e.dst, w, v)
    ensures Strides(t, e.src, Label(e.sym) + w, v)
  {
    hide Label;
    var es: seq<Edge> :| |es| > 0 && Chain(t, e.dst, es, v) && Word(es) == w && es[|es| - 1].sym != Epsilon;
    var all := [e] + es;
    assert all[0] == e && all[1..] == es && all[|all| - 1] == es[|es| - 1];
    assert Chain(t, e.src, all, v);
  }

  lemma LastStride(t: set<Edge>, u: State, w: Symbols, v: State) returns (e: Edge, w': Symbols)
    requires Strides(t, u, w, v)
    ensures e in t && e.sym != Epsilon && e.dst == v && Goes(t, u, w', e.src) && w == w' + [e.sym]
  {
    var es: seq<Edge> :| |es| > 0 && Chain(t, u, es, v) && Word(es) == w && es[|es| - 1].sym != Epsilon;
    ChainEnds(t, u, es, v);
    e, w' := es[|es| - 1], Word(es[..|es| - 1]);
  }

  /** A run that reads something has a last step that does. */
  lemma {:induction false} SplitStride(t: set<Edge>, u: State, es: seq<Edge>, v: State) returns (d: State)
    requires Chain(t, u, es, v) && Word(es) != []
    ensures Strides(t, u, Word(es), d) && Goes(t, d, [], v)
    decreases |es|
  {
    hide Goes, Strides;
    if Word(es[1..]) != [] {
      d := SplitStride(t, es[0].dst, es[1..], v);
      StridesBefore(t, es[0], Word(es[1..]), d);
    } else {
      d := es[0].dst;
      ChainGoes(t, d, es[1..], v);
      GoesNowhere(t, u);
      GoesStrides(t, u, [], es[0]);
      assert Word(es) == [] + [es[0].sym];
    }
  }

  lemma StridesAfter(t: set<Edge>, u: State, w: Symbols, v: State, w': Symbols, x: State)
    requires Goes(t, u, w, v) && Strides(t, v, w', x)
    ensures Strides(t, u, w + w', x)
  {
    hide Goes;
    var e, v' := LastStride(t, v, w', x);
    GoesAppend(t, u, w, v, v', e.src);
    GoesStrides(t, u, w + v', e);
    assert (w + v') + [e.sym] == w + w';
  }

  /** What removing epsilon edges keeps: runs up to trailing epsilon edges, and exactly where a run
      ends that does not end with an epsilon edge. */
  ghost predicate Simulates(a: Nfa, b: Nfa) {
    && a.states == b.states && a.initial == b.initial
    && (forall u, w, n :: Goes(a.trans, u, w, n) ==> Simulated(a, b, u, w, n))
    && (forall u, w, n :: Strides(a.trans, u, w, n) <==> Strides(b.trans, u, w, n))
    && Refines(a.trans, b.trans)
    && (forall k :: k in b.finals ==> EarlyFinal(a, k))
  }

  lemma SimulatesSelf(a: Nfa)
    ensures Simulates(a, a)
  {
    hide Goes, Strides;
    forall u, w, n | Goes(a.trans, u, w, n) ensures Simulated(a, a, u, w, n) { GoesNowhere(a.trans, n); }
    SubsetRefines(a.trans, a.trans);
    forall k | k in a.finals ensures EarlyFinal(a, k) { GoesNowhere(a.trans, k); }
  }

  lemma SimulatedTrans(a: Nfa, b: Nfa, c: Nfa, u: State, w: Symbols, n: State)
    requires Refines(a.trans, b.trans) && Simulated(a, b, u, w, n)
    requires forall k :: Goes(b.trans, u, w, k) ==> Simulated(b, c, u, w, k)
    ensures Simulated(a, c, u, w, n)
  {
    hide Goes, Refines;
    var k :| Goes(b.trans, u, w, k) && Goes(a.trans, k, [], n) && (n in a.finals ==> k in b.finals);
    var m :| Goes(c.trans, u, w, m) && Goes(b.trans, m, [], k) && (k in b.finals ==> m in c.finals);
    GoesRefines(a.trans, b.trans, m, [], k);
    GoesAppend(a.trans, m, [], k, [], n);
  }

  lemma EarlyTrans(a: Nfa, b: Nfa, k: State)
    requires Refines(a.trans, b.trans) && EarlyFinal(b, k) && forall m :: m in b.finals ==> EarlyFinal(a, m)
    ensures EarlyFinal(a, k)
  {
    hide Goes, Refines;
    var m :| m in b.finals && Goes(b.trans, k, [], m);
    GoesRefines(a.trans, b.trans, k, [], m);
    var n :| n in a.finals && Goes(a.trans, m, [], n);
    GoesAppend(a.trans, k, [], m, [], n);
  }

  lemma SimulatesTrans(a: Nfa, b: Nfa, c: Nfa)
    requires Simulates(a, b) && Simulates(b, c)
    ensures Simulates(a, c)
  {
    hide Goes, Strides, Refines, Simulated, EarlyFinal;
    forall u, w, n | Goes(a.trans, u, w, n) ensures Simulated(a, c, u, w, n) { SimulatedTrans(a, b, c, u, w, n); }
    RefinesTrans(a.trans, b.trans, c.trans);
    forall k | k in c.finals ensures EarlyFinal(a, k) { EarlyTrans(a, b, k); }
  }

  lemma RefinesTrans(a: set<Edge>, b: set<Edge>, c: set<Edge>)
    requires Refines(a, b) && Refines(b, c)
    ensures Refines(a, c)
  {
    hide Goes;
    forall e | e in c ensures Goes(a, e.src, Label(e.sym), e.dst) {
      GoesRefines(a, b, e.src, Label(e.sym), e.dst);
    }
  }

  // ---------- one epsilon edge ----------

  /** The edges out of `s`, started from `p` instead. */
  ghost function Rerouted(out: set<Edge>, p: State): set<Edge> { set o | o in out :: Edge(p, o.sym, o.dst) }

  /** `out` holds the edges out of `s`, and perhaps an epsilon loop that is already gone. */
  ghost predicate OutOf(out: set<Edge>, t: set<Edge>, s: State) {
    forall e :: e != Edge(s, Epsilon, s) ==> (e in out <==> e in t && e.src == s)
  }

  /** The automaton with the epsilon edge from `p` to `s` bypassed. */
  ghost function Bypass(a: Nfa, p: State, s: State, out: set<Edge>): Nfa {
    a.(trans := (if p == s then a.trans else a.trans + Rerouted(out, p)) - {Edge(p, Epsilon, s)},
       finals := if s in a.finals then a.finals + {p} else a.finals)
  }

  lemma BypassSimulates(a: Nfa, p: State, s: State, out: set<Edge>)
    requires Edge(p, Epsilon, s) in a.trans && OutOf(out, a.trans, s)
      && (Edge(s, Epsilon, s) in out || Edge(s, Epsilon, s) !in a.trans)
    ensures Simulates(a, Bypass(a, p, s, out))
  {
    hide Goes, Strides;
    var b := Bypass(a, p, s, out);
    GoesEdge(a.trans, Edge(p, Epsilon, s));
    forall u, w, n | Goes(a.trans, u, w, n) ensures Simulated(a, b, u, w, n) { BypassGoes(a, p, s, out, u, w, n); }
    BypassRefines(a, p, s, out);
    forall u, w, n ensures Strides(a.trans, u, w, n) <==> Strides(b.trans, u, w, n) {
      if Strides(a.trans, u, w, n) { BypassStrides(a, p, s, out, u, w, n); }
      if Strides(b.trans, u, w, n) { StridesBack(a, p, s, out, u, w, n); }
    }
    forall k | k in b.finals ensures EarlyFinal(a, k) {
      if k in a.finals { GoesNowhere(a.trans, k); }
    }
  }

  lemma BypassGoes(a: Nfa, p: State, s: State, out: set<Edge>, u: State, w: Symbols, n: State)
    requires Edge(p, Epsilon, s) in a.trans && OutOf(out, a.trans, s) && Goes(a.trans, u, w, n)
    ensures Simulated(a, Bypass(a, p, s, out), u, w, n)
  {
    var es :| Chain(a.trans, u, es, n) && Word(es) == w;
    BypassChain(a, p, s, out, u, es, n);
  }

  /** An edge after the bypass is one from before, perhaps behind the epsilon edge. */
  lemma BypassEdgeBack(a: Nfa, p: State, s: State, out: set<Edge>, e: Edge) returns (o: Edge)
    requires Edge(p, Epsilon, s) in a.trans && OutOf(out, a.trans, s) && e in Bypass(a, p, s, out).trans
    ensures o in a.trans && o.sym == e.sym && o.dst == e.dst && Goes(a.trans, e.src, [], o.src)
  {
    hide Goes;
    o := e;
    GoesNowhere(a.trans, e.src);
    if e !in a.trans {
      o :| o in out && e == Edge(p, o.sym, o.dst);
      GoesEdge(a.trans, Edge(p, Epsilon, s));
    }
  }

  lemma BypassRefines(a: Nfa, p: State, s: State, out: set<Edge>)
    requires Edge(p, Epsilon, s) in a.trans && OutOf(out, a.trans, s)
    ensures Refines(a.trans, Bypass(a, p, s, out).trans)
  {
    hide Goes, Bypass;
    forall e | e in Bypass(a, p, s, out).trans ensures Goes(a.trans, e.src, Label(e.sym), e.dst) {
      var o := BypassEdgeBack(a, p, s, out, e);
      GoesEdge(a.trans, o);
      GoesAppend(a.trans, e.src, [], o.src, Label(o.sym), o.dst);
      assert [] + Label(o.sym) == Label(e.sym);
    }
  }

  lemma StridesBack(a: Nfa, p: State, s: State, out: set<Edge>, u: State, w: Symbols, n: State)
    requires Edge(p, Epsilon, s) in a.trans && OutOf(out, a.trans, s) && Strides(Bypass(a, p, s, out).trans, u, w, n)
    ensures Strides(a.trans, u, w, n)
  {
    hide Goes, Bypass;
    var t := Bypass(a, p, s, out).trans;
    var e, v := LastStride(t, u, w, n);
    BypassRefines(a, p, s, out);
    GoesRefines(a.trans, t, u, v, e.src);
    var o := BypassEdgeBack(a, p, s, out, e);
    GoesAppend(a.trans, u, v, e.src, [], o.src);
    assert v + [] == v;
    GoesStrides(a.trans, u, v, o);
  }

  lemma BypassStrides(a: Nfa, p: State, s: State, out: set<Edge>, u: State, w: Symbols, n: State)
    requires Edge(p, Epsilon, s) in a.trans && OutOf(out, a.trans, s) && Strides(a.trans, u, w, n)
    ensures Strides(Bypass(a, p, s, out).trans, u, w, n)
  {
    hide Bypass;
    var es: seq<Edge> :| |es| > 0 && Chain(a.trans, u, es, n) && Word(es) == w && es[|es| - 1].sym != Epsilon;
    BypassStride(a, p, s, out, u, es, n);
  }

  lemma StrideEdge(t: set<Edge>, e: Edge)
    requires e in t && e.sym != Epsilon
    ensures Strides(t, e.src, Label(e.sym), e.dst)
  {
    GoesNowhere(t, e.src);
    GoesStrides(t, e.src, [], e);
    assert [] + [e.sym] == [e.sym];
  }

  /** A run that does not end with an epsilon edge ends in the same state after the bypass. */
  lemma {:induction false} BypassStride(a: Nfa, p: State, s: State, out: set<Edge>, u: State, es: seq<Edge>, n: State)
    requires Edge(p, Epsilon, s) in a.trans && OutOf(out, a.trans, s) && Chain(a.trans, u, es, n)
    requires |es| > 0 && es[|es| - 1].sym != Epsilon
    ensures Strides(Bypass(a, p, s, out).trans, u, Word(es), n)
    decreases |es|, 1
  {
    hide Strides;
    var t := Bypass(a, p, s, out).trans;
    assert Word(es) == Label(es[0].sym) + Word(es[1..]);
    if es[0] != Edge(p, Epsilon, s) {
      if |es| == 1 {
        StrideEdge(t, es[0]);
        assert Word(es) == Label(es[0].sym);
      } else {
        BypassStride(a, p, s, out, es[0].dst, es[1..], n);
        StridesBefore(t, es[0], Word(es[1..]), n);
      }
    } else if p == s {
      BypassStride(a, p, s, out, s, es[1..], n);
      assert Word(es) == Word(es[1..]);
    } else {
      StridePair(a, p, s, out, es, n);
    }
  }

  lemma Reroutes(a: Nfa, p: State, s: State, out: set<Edge>, o: Edge)
    requires OutOf(out, a.trans, s) && o in a.trans && o.src == s && o != Edge(s, Epsilon, s) && p != s
    ensures Edge(p, o.sym, o.dst) in Bypass(a, p, s, out).trans
  {
  }

  /** A run that starts with an epsilon edge reads what is left after it. */
  lemma SkipFirst(t: set<Edge>, p: State, es: seq<Edge>, n: State)
    requires Chain(t, p, es, n) && |es| > 1 && es[0].sym == Epsilon
    ensures es[1] in t && es[1].src == es[0].dst && Chain(t, es[1].dst, es[2..], n)
    ensures Word(es) == Label(es[1].sym) + Word(es[2..])
    ensures es[1].sym == Epsilon ==> Word(es) == Word([es[0]] + es[2..])
    ensures es[1].dst == es[0].dst ==> Chain(t, p, [es[0]] + es[2..], n)
  {
    assert es[1..][1..] == es[2..] && ([es[0]] + es[2..])[1..] == es[2..];
  }

  lemma StridePair(a: Nfa, p: State, s: State, out: set<Edge>, es: seq<Edge>, n: State)
    requires Edge(p, Epsilon, s) in a.trans && OutOf(out, a.trans, s) && Chain(a.trans, p, es, n)
    requires |es| > 1 && es[|es| - 1].sym != Epsilon && p != s && es[0] == Edge(p, Epsilon, s)
    ensures Strides(Bypass(a, p, s, out).trans, p, Word(es), n)
    decreases |es|, 0
  {
    hide Strides, Bypass, Label;
    var t := Bypass(a, p, s, out).trans;
    var o := es[1];
    SkipFirst(a.trans, p, es, n);
    if o == Edge(s, Epsilon, s) {
      var shorter := [es[0]] + es[2..];
      assert shorter[1..] == es[2..] && shorter[|shorter| - 1] == es[|es| - 1];
      BypassStride(a, p, s, out, p, shorter, n);
    } else {
      var e := Edge(p, o.sym, o.dst);
      Reroutes(a, p, s, out, o);
      if |es| == 2 { StrideEdge(t, e); assert Word(es) == Label(o.sym); }
      else {
        BypassStride(a, p, s, out, o.dst, es[2..], n);
        StridesBefore(t, e, Word(es[2..]), n);
      }
    }
  }

  lemma SimulatedEdge(a: Nfa, b: Nfa, e: Edge, w: Symbols, n: State)
    requires e in b.trans && Simulated(a, b, e.dst, w, n)
    ensures Simulated(a, b, e.src, Label(e.sym) + w, n)
  {
    hide Goes;
    var k :| Goes(b.trans, e.dst, w, k) && Goes(a.trans, k, [], n) && (n in a.finals ==> k in b.finals);
    GoesEdge(b.trans, e);
    GoesAppend(b.trans, e.src, Label(e.sym), e.dst, w, k);
  }

  lemma {:induction false} BypassChain(a: Nfa, p: State, s: State, out: set<Edge>, u: State, es: seq<Edge>, n: State)
    requires Edge(p, Epsilon, s) in a.trans && OutOf(out, a.trans, s) && Chain(a.trans, u, es, n)
    ensures Simulated(a, Bypass(a, p, s, out), u, Word(es), n)
    decreases |es|, 1
  {
    hide Goes, Simulated;
    var b := Bypass(a, p, s, out);
    if |es| == 0 { SimulatedStop(a, b, n, n); GoesNowhere(a.trans, n); }
    else if es[0] != Edge(p, Epsilon, s) {
      BypassChain(a, p, s, out, es[0].dst, es[1..], n);
      SimulatedEdge(a, b, es[0], Word(es[1..]), n);
    } else if p == s {
      BypassChain(a, p, s, out, s, es[1..], n);
      assert Word(es) == Word(es[1..]);
    } else if |es| == 1 {
      assert n == s && Word(es[1..]) == [] && Word(es) == [];
      GoesEdge(a.trans, es[0]);
      SimulatedStop(a, b, p, s);
    } else {
      BypassPair(a, p, s, out, es, n);
    }
  }

  lemma SimulatedStop(a: Nfa, b: Nfa, k: State, n: State)
    ensures Goes(a.trans, k, [], n) && (n in a.finals ==> k in b.finals) ==> Simulated(a, b, k, [], n)
  {
    hide Goes;
    GoesNowhere(b.trans, k);
  }

  lemma BypassPair(a: Nfa, p: State, s: State, out: set<Edge>, es: seq<Edge>, n: State)
    requires OutOf(out, a.trans, s) && Chain(a.trans, p, es, n) && |es| > 1 && p != s && es[0] == Edge(p, Epsilon, s)
    ensures Simulated(a, Bypass(a, p, s, out), p, Word(es), n)
    decreases |es|, 0
  {
    hide Simulated;
    var b := Bypass(a, p, s, out);
    var o := es[1];
    assert es[1..][1..] == es[2..] && Chain(a.trans, o.dst, es[2..], n);
    assert Word(es) == Label(o.sym) + Word(es[2..]);
    if o == Edge(s, Epsilon, s) {
      var shorter := [es[0]] + es[2..];
      assert shorter[1..] == es[2..];
      assert Chain(a.trans, p, shorter, n) && Word(shorter) == Word(es);
      BypassChain(a, p, s, out, p, shorter, n);
    } else {
      BypassChain(a, p, s, out, o.dst, es[2..], n);
      assert o in out;
      assert Edge(p, o.sym, o.dst) in b.trans;
      SimulatedEdge(a, b, Edge(p, o.sym, o.dst), Word(es[2..]), n);
    }
  }

  // ---------- dead states ----------

  /** Every state of `u` is entered and left within `u`, except at initial and final states. */
  ghost predicate Sustained(a: Nfa, u: iset<State>) {
    forall k :: k in u ==> k in a.states && Entered(a, u, k) && Left(a, u, k)
  }

  ghost predicate Entered(a: Nfa, u: iset<State>, k: State) {
    k in a.initial || exists e :: e in a.trans && e.dst == k && e.src in u
  }

  ghost predicate Left(a: Nfa, u: iset<State>, k: State) {
    k in a.finals || exists e :: e in a.trans && e.src == k && e.dst in u
  }

  ghost predicate KeepsWithin(a: Nfa, b: Nfa, u: iset<State>) {
    Sustained(b, u) && forall e :: e in a.trans && e.src in u && e.dst in u ==> e in b.trans
  }

  /** What removing dead states keeps. */
  ghost predicate Trims(a: Nfa, b: Nfa) {
    && b.states <= a.states && b.trans <= a.trans && b.initial == a.initial && b.finals == a.finals * b.states
    && forall u :: Sustained(a, u) ==> KeepsWithin(a, b, u)
  }

  lemma TrimsSelf(a: Nfa)
    requires WellFormed(a)
    ensures Trims(a, a)
  {
  }

  lemma TrimsTrans(a: Nfa, b: Nfa, c: Nfa)
    requires Trims(a, b) && Trims(b, c)
    ensures Trims(a, c)
  {
    hide Sustained;
    forall u | Sustained(a, u) ensures KeepsWithin(a, c, u) { assert KeepsWithin(a, b, u) && KeepsWithin(b, c, u); }
  }

  /** A state that is never entered, or never left and not final. */
  ghost predicate Dead(a: Nfa, d: State) {
    && d !in a.initial
    && ((forall e :: e in a.trans ==> e.dst != d) || (d !in a.finals && forall e :: e in a.trans ==> e.src != d))
  }

  ghost function Drop(a: Nfa, d: State): Nfa {
    a.(states := a.states - {d}, finals := a.finals - {d}, trans := set e | e in a.trans && e.src != d && e.dst != d)
  }

  lemma DropTrims(a: Nfa, d: State)
    requires WellFormed(a) && Dead(a, d)
    ensures Trims(a, Drop(a, d)) && WellFormed(Drop(a, d))
  {
    var b := Drop(a, d);
    forall u | Sustained(a, u) ensures KeepsWithin(a, b, u) {
      assert d !in u;
      forall k | k in u ensures k in b.states && Entered(b, u, k) && Left(b, u, k) {
        assert Entered(a, u, k) && Left(a, u, k);
        if k !in a.initial {
          var e :| e in a.trans && e.dst == k && e.src in u;
          assert e in b.trans;
        }
        if k !in a.finals {
          var e :| e in a.trans && e.src == k && e.dst in u;
          assert e in b.trans;
        }
      }
    }
  }

  // ---------- runs that trimming keeps ----------

  ghost predicate Reached(a: Nfa, k: State) { exists i, w :: i in a.initial && Goes(a.trans, i, w, k) }
  ghost predicate Productive(a: Nfa, k: State) { exists w, f :: f in a.finals && Goes(a.trans, k, w, f) }

  ghost function Useful(a: Nfa): iset<State> { iset k | Reached(a, k) && Productive(a, k) }

  lemma {:induction false} ChainEnds(t: set<Edge>, u: State, es: seq<Edge>, v: State)
    requires Chain(t, u, es, v) && |es| > 0
    ensures es[|es| - 1] in t && es[|es| - 1].dst == v && Chain(t, u, es[..|es| - 1], es[|es| - 1].src)
    ensures Word(es) == Word(es[..|es| - 1]) + Label(es[|es| - 1].sym)
    decreases |es|
  {
    if |es| == 1 {
      assert es[1..] == [] && es[..0] == [] && Word([]) == [];
    } else {
      ChainEnds(t, es[0].dst, es[1..], v);
      assert es[1..][..|es| - 2] == es[..|es| - 1][1..];
    }
  }

  /** A run is empty, or has a first edge. */
  lemma FirstEdge(t: set<Edge>, u: State, w: Symbols, v: State) returns (e: Edge, w': Symbols)
    requires Goes(t, u, w, v)
    ensures (u == v && w == []) || (e in t && e.src == u && Goes(t, e.dst, w', v) && w == Label(e.sym) + w')
  {
    var es :| Chain(t, u, es, v) && Word(es) == w;
    e, w' := Edge(0, 0, 0), [];
    if |es| > 0 { e, w' := es[0], Word(es[1..]); }
  }

  /** A run is empty, or has a last edge. */
  lemma LastEdge(t: set<Edge>, u: State, w: Symbols, v: State) returns (e: Edge, w': Symbols)
    requires Goes(t, u, w, v)
    ensures (u == v && w == []) || (e in t && e.dst == v && Goes(t, u, w', e.src) && w == w' + Label(e.sym))
  {
    var es :| Chain(t, u, es, v) && Word(es) == w;
    e, w' := Edge(0, 0, 0), [];
    if |es| > 0 {
      ChainEnds(t, u, es, v);
      e, w' := es[|es| - 1], Word(es[..|es| - 1]);
    }
  }

  lemma ChainGoes(t: set<Edge>, u: State, es: seq<Edge>, v: State)
    requires Chain(t, u, es, v)
    ensures Goes(t, u, Word(es), v)
  {
  }

  /** Without epsilon edges, a run that reads nothing stays where it is. */
  lemma NoMove(t: set<Edge>, u: State, v: State)
    requires NoEpsilon(t) && Goes(t, u, [], v)
    ensures u == v
  {
    var e, w := FirstEdge(t, u, [], v);
    assert e in t ==> |Label(e.sym) + w| > 0;
  }

  lemma OneMove(t: set<Edge>, u: State, l: int, v: State)
    requires NoEpsilon(t) && Goes(t, u, [l], v)
    ensures Edge(u, l, v) in t
  {
    var e, w := FirstEdge(t, u, [l], v);
    assert [l] == [e.sym] + w;
    assert ([e.sym] + w)[0] == e.sym && |w| == 0;
    NoMove(t, e.dst, v);
  }

  lemma ReachedNext(a: Nfa, e: Edge)
    requires Reached(a, e.src) && e in a.trans
    ensures Reached(a, e.dst)
  {
    hide Goes;
    var i, w :| i in a.initial && Goes(a.trans, i, w, e.src);
    GoesEdge(a.trans, e);
    GoesAppend(a.trans, i, w, e.src, Label(e.sym), e.dst);
  }

  lemma ProductivePrev(a: Nfa, e: Edge)
    requires Productive(a, e.dst) && e in a.trans
    ensures Productive(a, e.src)
  {
    hide Goes;
    var w, f :| f in a.finals && Goes(a.trans, e.dst, w, f);
    GoesEdge(a.trans, e);
    GoesAppend(a.trans, e.src, Label(e.sym), e.dst, w, f);
  }

  lemma UsefulEntered(a: Nfa, k: State)
    requires k in Useful(a)
    ensures Entered(a, Useful(a), k)
  {
    hide Goes;
    var i, w :| i in a.initial && Goes(a.trans, i, w, k);
    var e, w' := LastEdge(a.trans, i, w, k);
    if k !in a.initial {
      assert Reached(a, e.src);
      ProductivePrev(a, e);
      assert e.src in Useful(a);
    }
  }

  lemma UsefulLeft(a: Nfa, k: State)
    requires k in Useful(a)
    ensures Left(a, Useful(a), k)
  {
    hide Goes;
    var w, f :| f in a.finals && Goes(a.trans, k, w, f);
    var e, w' := FirstEdge(a.trans, k, w, f);
    if k !in a.finals {
      assert Productive(a, e.dst);
      ReachedNext(a, e);
      assert e.dst in Useful(a);
    }
  }

  lemma UsefulSustained(a: Nfa)
    requires WellFormed(a)
    ensures Sustained(a, Useful(a))
  {
    hide Reached, Productive, Useful;
    forall k | k in Useful(a) ensures k in a.states && Entered(a, Useful(a), k) && Left(a, Useful(a), k) {
      UsefulEntered(a, k);
      UsefulLeft(a, k);
    }
  }

  lemma {:induction false} KeptChain(a: Nfa, b: Nfa, u: State, es: seq<Edge>, v: State)
    requires Chain(a.trans, u, es, v) && Reached(a, u) && Productive(a, v)
    requires KeepsWithin(a, b, Useful(a))
    ensures Chain(b.trans, u, es, v) && Productive(a, u)
    decreases |es|
  {
    hide Goes, Reached, Productive, Sustained;
    if |es| > 0 {
      ReachedNext(a, es[0]);
      KeptChain(a, b, es[0].dst, es[1..], v);
      ProductivePrev(a, es[0]);
      assert u in Useful(a) && es[0].dst in Useful(a);
    }
  }

  /** A run from an initial state to a state that can still accept survives trimming. */
  lemma TrimKeeps(a: Nfa, b: Nfa, i: State, w: Symbols, k: State)
    requires WellFormed(a) && Trims(a, b) && i in a.initial && Goes(a.trans, i, w, k) && Productive(a, k)
    ensures Goes(b.trans, i, w, k) && k in b.states
  {
    UsefulSustained(a);
    assert KeepsWithin(a, b, Useful(a));
    var es :| Chain(a.trans, i, es, k) && Word(es) == w;
    assert Reached(a, i) by { GoesNowhere(a.trans, i); }
    KeptChain(a, b, i, es, k);
    assert Reached(a, k);
    assert k in Useful(a);
  }

  /** The result of simplification: epsilon edges bypassed, then dead states removed. */
  ghost predicate Simplified(a: Nfa, b: Nfa) {
    NoEpsilon(b.trans) && exists c :: WellFormed(c) && Simulates(a, c) && NoEpsilon(c.trans) && Trims(c, b)
  }

  /** Simplification preserves the language. */
  lemma SameLanguage(a: Nfa, b: Nfa, w: Symbols)
    requires Simplified(a, b)
    ensures Accepts(a, w) <==> Accepts(b, w)
  {
    hide Goes, Trims, Refines;
    var c :| WellFormed(c) && Simulates(a, c) && Trims(c, b);
    if Accepts(a, w) { AcceptsForward(a, b, c, w); }
    if Accepts(b, w) { AcceptsBack(a, b, c, w); }
  }

  lemma AcceptsForward(a: Nfa, b: Nfa, c: Nfa, w: Symbols)
    requires WellFormed(c) && Simulates(a, c) && Trims(c, b) && Accepts(a, w)
    ensures Accepts(b, w)
  {
    hide Goes, Refines;
    var i, f :| i in a.initial && f in a.finals && Goes(a.trans, i, w, f);
    assert Simulated(a, c, i, w, f);
    var k :| Goes(c.trans, i, w, k) && k in c.finals;
    GoesNowhere(c.trans, k);
    TrimKeeps(c, b, i, w, k);
  }

  lemma AcceptsBack(a: Nfa, b: Nfa, c: Nfa, w: Symbols)
    requires Simulates(a, c) && Trims(c, b) && Accepts(b, w)
    ensures Accepts(a, w)
  {
    hide Goes, Refines;
    var i, k :| i in b.initial && k in b.finals && Goes(b.trans, i, w, k);
    SubsetRefines(c.trans, b.trans);
    GoesRefines(c.trans, b.trans, i, w, k);
    GoesRefines(a.trans, c.trans, i, w, k);
    assert EarlyFinal(a, k);
    var f :| f in a.finals && Goes(a.trans, k, [], f);
    GoesAppend(a.trans, i, w, k, [], f);
    assert w + [] == w;
  }
}
