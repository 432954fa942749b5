/** Building the constraints of an automaton over the steps of a program. */
module Encoders {
  import opened Basics
  import opened Cnf
  import opened Booleans
  import opened Nfas
  import opened TraceAutomata
  import opened Unrolling
  import opened Paths

  /** The targets of the transitions of `l` from `s`. */
  function Targets(t: set<Edge>, l: int, s: nat): set<nat> { set e | e in t && e.src == s && e.sym == l :: e.dst }

  /** Cached comparisons belong to the vector. */
  ghost predicate CacheOk(cache: map<nat, Exp>, vec: seq<Exp>) {
    forall s :: s in cache ==> cache[s] == Equal(vec, Constant(s, |vec|))
  }

  /** The literal that says that the vector is in state `s`. */
  method MakeEquals(cache: map<nat, Exp>, vec: seq<Exp>, s: nat) returns (e: Exp, cache': map<nat, Exp>)
    requires CacheOk(cache, vec)
    ensures e == Equal(vec, Constant(s, |vec|)) && CacheOk(cache', vec)
  {
    cache' := if s in cache then cache else cache[s := Equal(vec, Constant(s, |vec|))];
    e := cache'[s];
  }

  ghost predicate Comparisons(es: seq<Exp>, vec: seq<Exp>, targets: set<nat>) {
    && (forall i :: 0 <= i < |es| ==> Compares(es[i], vec, targets))
    && (forall t :: t in targets ==> Equal(vec, Constant(t, |vec|)) in es)
  }

  ghost predicate Compares(e: Exp, vec: seq<Exp>, targets: set<nat>) {
    exists t :: t in targets && e == Equal(vec, Constant(t, |vec|))
  }

  lemma ComparisonsHold(a: Valuation, es: seq<Exp>, vec: seq<Exp>, targets: set<nat>)
    requires Comparisons(es, vec, targets)
    ensures SomeHolds(a, es) <==> InSome(a, vec, targets)
  {
    hide Holds, Encodes;
    if SomeHolds(a, es) {
      var i :| 0 <= i < |es| && Holds(a, es[i]);
      assert Compares(es[i], vec, targets);
      var t :| t in targets && es[i] == Equal(vec, Constant(t, |vec|));
      EqualEncodes(a, vec, t);
    }
    if InSome(a, vec, targets) {
      var t :| t in targets && Encodes(a, vec, t);
      EqualEncodes(a, vec, t);
      var i :| 0 <= i < |es| && es[i] == Equal(vec, Constant(t, |vec|));
    }
  }

  lemma EqualBelow(vec: seq<Exp>, s: nat, n: Var)
    requires AllBelow(vec, n)
    ensures Below(Equal(vec, Constant(s, |vec|)), n)
  {
    ConstantEncodes(iset{}, s, |vec|);
    AllBelowMono(Constant(s, |vec|), 0, n);
  }

  lemma ComparisonsBelow(es: seq<Exp>, vec: seq<Exp>, targets: set<nat>, n: Var)
    requires Comparisons(es, vec, targets) && AllBelow(vec, n)
    ensures AllBelow(es, n)
  {
    hide Below;
    forall i | 0 <= i < |es| ensures Below(es[i], n) {
      assert Compares(es[i], vec, targets);
      var t :| t in targets && es[i] == Equal(vec, Constant(t, |vec|));
      EqualBelow(vec, t, n);
    }
  }

  lemma ComparisonsAdd(es: seq<Exp>, vec: seq<Exp>, targets: set<nat>, t: nat)
    requires Comparisons(es, vec, targets)
    ensures Comparisons(es + [Equal(vec, Constant(t, |vec|))], vec, targets + {t})
  {
    var e := Equal(vec, Constant(t, |vec|));
    var fs := es + [e];
    assert fs[|es|] == e;
    forall i | 0 <= i < |fs| ensures Compares(fs[i], vec, targets + {t}) {
      if i < |es| {
        assert Compares(es[i], vec, targets);
        var x :| x in targets && es[i] == Equal(vec, Constant(x, |vec|));
        assert x in targets + {t};
      } else { assert t in targets + {t}; }
    }
  }

  /** A literal per target of a transition. */
  method CollectDests(next: seq<Exp>, targets: set<nat>, cache: map<nat, Exp>)
    returns (dests: seq<Exp>, cache': map<nat, Exp>)
    requires CacheOk(cache, next)
    ensures Comparisons(dests, next, targets) && CacheOk(cache', next)
  {
    hide Comparisons, CacheOk;
    dests, cache' := [], cache;
    var rest := targets;
    NoComparisons(next);
    assert targets - rest == {};
    while rest != {}
      invariant rest <= targets && Comparisons(dests, next, targets - rest) && CacheOk(cache', next)
    {
      var t :| t in rest;
      var e;
      e, cache' := MakeEquals(cache', next, t);
      ComparisonsAdd(dests, next, targets - rest, t);
      assert targets - rest + {t} == targets - (rest - {t});
      dests := dests + [e];
      rest := rest - {t};
    }
    assert targets - rest == targets;
  }

  lemma NoComparisons(vec: seq<Exp>)
    ensures Comparisons([], vec, {})
  {
  }

  // ---------- transitions ----------

  type Pair = (int, nat)

  function Pairs(t: set<Edge>, graphs: set<int>): set<Pair> { set e | e in t && e.sym in graphs :: (e.sym, e.src) }

  ghost predicate PairHolds(a: Valuation, next: seq<Exp>, t: set<Edge>, done: set<Pair>, s: nat) {
    exists l :: (l, s) in done && InSome(a, next, Targets(t, l, s))
  }

  /** `ts` says which of the transitions in `done` the vectors make. */
  ghost predicate DescribesPairs(ts: seq<Exp>, prev: seq<Exp>, next: seq<Exp>, r0: set<nat>, t: set<Edge>,
                                 done: set<Pair>) {
    forall a, s {:trigger Encodes(a, prev, s)} :: s in r0 && Encodes(a, prev, s) ==>
      (SomeHolds(a, ts) <==> PairHolds(a, next, t, done, s))
  }

  lemma PairSkipped(ts: seq<Exp>, prev: seq<Exp>, next: seq<Exp>, r0: set<nat>, t: set<Edge>, done: set<Pair>, p: Pair)
    requires DescribesPairs(ts, prev, next, r0, t, done) && p.1 !in r0
    ensures DescribesPairs(ts, prev, next, r0, t, done + {p})
  {
    hide Encodes, SomeHolds, InSome;
    forall a, s | s in r0 && Encodes(a, prev, s) ensures SomeHolds(a, ts) <==> PairHolds(a, next, t, done + {p}, s) {
      assert forall l :: (l, s) in done + {p} <==> (l, s) in done;
    }
  }

  lemma PairAdded(ts: seq<Exp>, prev: seq<Exp>, next: seq<Exp>, r0: set<nat>, t: set<Edge>, done: set<Pair>, p: Pair,
                  dests: seq<Exp>)
    requires DescribesPairs(ts, prev, next, r0, t, done) && Codes(r0, |prev|) && p.1 < Pow(2, |prev|)
    requires Comparisons(dests, next, Targets(t, p.0, p.1))
    ensures DescribesPairs(ts + [Land(Equal(prev, Constant(p.1, |prev|)), Lor(dests))], prev, next, r0, t, done + {p})
  {
    hide Encodes, SomeHolds, InSome, Holds, Comparisons, Land, Lor, Constant, Pow;
    var e := Land(Equal(prev, Constant(p.1, |prev|)), Lor(dests));
    forall a, s | s in r0 && Encodes(a, prev, s)
      ensures SomeHolds(a, ts + [e]) <==> PairHolds(a, next, t, done + {p}, s) {
      assert SomeHolds(a, ts) <==> PairHolds(a, next, t, done, s);
      SomeMore(a, ts, e);
      LandHolds(a, Equal(prev, Constant(p.1, |prev|)), Lor(dests));
      LorHolds(a, dests);
      ComparisonsHold(a, dests, next, Targets(t, p.0, p.1));
      EqualEncodes(a, prev, p.1);
      if Encodes(a, prev, p.1) { EncodesOne(a, prev, s, p.1); }
      PairMore(a, next, t, done, p, s);
    }
  }

  lemma PairMore(a: Valuation, next: seq<Exp>, t: set<Edge>, done: set<Pair>, p: Pair, s: nat)
    ensures PairHolds(a, next, t, done + {p}, s) <==>
      PairHolds(a, next, t, done, s) || (s == p.1 && InSome(a, next, Targets(t, p.0, p.1)))
  {
    hide InSome;
    if PairHolds(a, next, t, done, s) {
      var l :| (l, s) in done && InSome(a, next, Targets(t, l, s));
      assert (l, s) in done + {p};
    }
    if s == p.1 { assert (p.0, s) in done + {p}; }
  }

  lemma PairBelow(prev: seq<Exp>, next: seq<Exp>, targets: set<nat>, dests: seq<Exp>, s: nat, n: Var)
    requires AllBelow(prev, n) && AllBelow(next, n) && Comparisons(dests, next, targets)
    ensures Below(Land(Equal(prev, Constant(s, |prev|)), Lor(dests)), n)
  {
    hide Below, Land, Lor;
    EqualBelow(prev, s, n);
    ComparisonsBelow(dests, next, targets, n);
    GatesBelow(n, dests, Equal(prev, Constant(s, |prev|)), Lor(dests));
  }

  ghost predicate ReadsNext(a: Valuation, next: seq<Exp>, t: set<Edge>, graphs: set<int>, s: nat) {
    exists s' :: Reads(t, graphs, s, s') && Encodes(a, next, s')
  }

  lemma PairsRead(a: Valuation, next: seq<Exp>, t: set<Edge>, graphs: set<int>, s: nat)
    ensures PairHolds(a, next, t, Pairs(t, graphs), s) <==> ReadsNext(a, next, t, graphs, s)
  {
    hide Encodes;
    if PairHolds(a, next, t, Pairs(t, graphs), s) {
      var l :| (l, s) in Pairs(t, graphs) && InSome(a, next, Targets(t, l, s));
      var x :| x in Targets(t, l, s) && Encodes(a, next, x);
      assert Reads(t, graphs, s, x);
    }
    if ReadsNext(a, next, t, graphs, s) {
      var x :| Reads(t, graphs, s, x) && Encodes(a, next, x);
      var l :| l in graphs && Edge(s, l, x) in t;
      assert x in Targets(t, l, s) by { assert Edge(s, l, x).dst == x; }
      assert (l, s) in Pairs(t, graphs) by { assert Edge(s, l, x).sym == l; }
    }
  }

  /** `ts` says that the vectors make a transition with a label in `graphs`. */
  ghost predicate DescribesReads(ts: seq<Exp>, prev: seq<Exp>, next: seq<Exp>, r0: set<nat>, t: set<Edge>,
                                 graphs: set<int>) {
    forall a, s {:trigger Encodes(a, prev, s)} :: s in r0 && Encodes(a, prev, s) ==>
      (SomeHolds(a, ts) <==> ReadsNext(a, next, t, graphs, s))
  }

  ghost predicate CodedEdges(t: set<Edge>, w: nat) { forall e :: e in t ==> e.src < Pow(2, w) && e.dst < Pow(2, w) }

  /** The states read from `r0` are possibly reached. */
  ghost predicate ClosedUnder(t: set<Edge>, graphs: set<int>, r0: set<nat>, reached: set<nat>) {
    forall s, x :: s in r0 && Reads(t, graphs, s, x) ==> x in reached
  }

  /** Collects the possible transitions; sources that cannot be reached are passed over. */
  method CollectTrans(t: set<Edge>, graphs: set<int>, prev: seq<Exp>, next: seq<Exp>, reached: set<nat>,
                      prevEq: map<nat, Exp>, nextEq: map<nat, Exp>, ghost r0: set<nat>, ghost n: Var)
    returns (ts: seq<Exp>, reached': set<nat>, prevEq': map<nat, Exp>, nextEq': map<nat, Exp>)
    requires CacheOk(prevEq, prev) && CacheOk(nextEq, next) && |prev| == |next| && AllBelow(prev, n)
      && AllBelow(next, n)
    requires CodedEdges(t, |prev|) && Codes(reached, |prev|) && r0 <= reached
    ensures CacheOk(prevEq', prev) && CacheOk(nextEq', next) && reached <= reached' && Codes(reached', |prev|)
    ensures DescribesReads(ts, prev, next, r0, t, graphs) && AllBelow(ts, n) && ClosedUnder(t, graphs, r0, reached')
    ensures forall c: set<nat> {:trigger ClosedUnder(t, graphs, c, c)} ::
      reached <= c && ClosedUnder(t, graphs, c, c) ==> reached' <= c
  {
    hide CacheOk, DescribesPairs, AllBelow, Comparisons, ClosedUnder, Land, Lor, Constant, Below, Pow;
    ts, reached', prevEq', nextEq' := [], reached, prevEq, nextEq;
    var rest := Pairs(t, graphs);
    NoPairs(prev, next, r0, t, n);
    while rest != {}
      invariant rest <= Pairs(t, graphs) && reached <= reached' && Codes(reached', |prev|) && CacheOk(prevEq', prev)
        && CacheOk(nextEq', next)
      invariant DescribesPairs(ts, prev, next, r0, t, Pairs(t, graphs) - rest) && AllBelow(ts, n)
      invariant forall l, s :: (l, s) in Pairs(t, graphs) && (l, s) !in rest && s in r0 ==> Targets(t, l, s) <= reached'
      invariant forall c: set<nat> {:trigger ClosedUnder(t, graphs, c, c)} ::
        reached <= c && ClosedUnder(t, graphs, c, c) ==> reached' <= c
    {
      var p :| p in rest;
      ghost var done := Pairs(t, graphs) - rest;
      rest := rest - {p};
      assert done + {p} == Pairs(t, graphs) - rest;
      if p.1 in reached' {
        var dests, src;
        var targets := Targets(t, p.0, p.1);
        dests, nextEq' := CollectDests(next, targets, nextEq');
        src, prevEq' := MakeEquals(prevEq', prev, p.1);
        PairAdded(ts, prev, next, r0, t, done, p, dests);
        PairBelow(prev, next, targets, dests, p.1, n);
        BelowMore(ts, Land(src, Lor(dests)), n);
        CodedTargets(t, p.0, p.1, |prev|);
        TargetsWithin(t, graphs, p);
        ts := ts + [Land(src, Lor(dests))];
        reached' := reached' + targets;
      } else { PairSkipped(ts, prev, next, r0, t, done, p); }
    }
    assert Pairs(t, graphs) - rest == Pairs(t, graphs);
    AllPairs(ts, prev, next, r0, t, graphs);
    PairsClosed(t, graphs, r0, reached');
  }

  lemma NoPairs(prev: seq<Exp>, next: seq<Exp>, r0: set<nat>, t: set<Edge>, n: Var)
    ensures AllBelow([], n) && forall p: set<Pair> {:trigger p - p} :: DescribesPairs([], prev, next, r0, t, p - p)
  {
    hide Encodes, InSome;
    forall p: set<Pair> ensures DescribesPairs([], prev, next, r0, t, p - p) { assert p - p == {}; }
  }

  lemma BelowMore(es: seq<Exp>, e: Exp, n: Var)
    requires AllBelow(es, n) && Below(e, n)
    ensures AllBelow(es + [e], n)
  {
  }

  /** A closed set with a source has its targets, too. */
  lemma TargetsWithin(t: set<Edge>, graphs: set<int>, p: Pair)
    requires p in Pairs(t, graphs)
    ensures forall c: set<nat> {:trigger ClosedUnder(t, graphs, c, c)} ::
      ClosedUnder(t, graphs, c, c) && p.1 in c ==> Targets(t, p.0, p.1) <= c
  {
    forall c: set<nat>, x | ClosedUnder(t, graphs, c, c) && p.1 in c && x in Targets(t, p.0, p.1) ensures x in c {
      assert Reads(t, graphs, p.1, x);
    }
  }

  lemma CodedTargets(t: set<Edge>, l: int, s: nat, w: nat)
    requires CodedEdges(t, w)
    ensures Codes(Targets(t, l, s), w)
  {
    forall x | x in Targets(t, l, s) ensures x < Pow(2, w) {
      var e :| e in t && e.src == s && e.sym == l && x == e.dst;
    }
  }

  lemma AllPairs(ts: seq<Exp>, prev: seq<Exp>, next: seq<Exp>, r0: set<nat>, t: set<Edge>, graphs: set<int>)
    requires DescribesPairs(ts, prev, next, r0, t, Pairs(t, graphs))
    ensures DescribesReads(ts, prev, next, r0, t, graphs)
  {
    hide Encodes, SomeHolds, PairHolds, ReadsNext;
    forall a, s | s in r0 && Encodes(a, prev, s) ensures SomeHolds(a, ts) <==> ReadsNext(a, next, t, graphs, s) {
      PairsRead(a, next, t, graphs, s);
    }
  }

  lemma PairsClosed(t: set<Edge>, graphs: set<int>, r0: set<nat>, reached: set<nat>)
    requires forall l, s :: (l, s) in Pairs(t, graphs) && s in r0 ==> Targets(t, l, s) <= reached
    ensures ClosedUnder(t, graphs, r0, reached)
  {
    forall s, x | s in r0 && Reads(t, graphs, s, x) ensures x in reached {
      var l :| l in graphs && Edge(s, l, x) in t;
      assert (l, s) in Pairs(t, graphs) by { assert Edge(s, l, x).sym == l; }
      assert x in Targets(t, l, s) by { assert Edge(s, l, x).dst == x; }
    }
  }

  // ---------- the constraints of a move ----------

  ghost function NodeMoves(t: set<Edge>, guard: Exp, graphs: set<int>): Move {
    (a: Valuation, s: nat, s': nat) => NodeMove(a, t, guard, graphs, s, s')
  }

  ghost function StepMoves(t: set<Edge>, st: Step): Move
    requires st.edges.Some?
  {
    (a: Valuation, s: nat, s': nat) => EdgeMove(a, t, st, s, s')
  }

  /** Staying or, when the location is executed, a node transition. */
  lemma NodeDescribes(prev: seq<Exp>, next: seq<Exp>, r0: set<nat>, reached: set<nat>, t: set<Edge>, guard: Exp,
                      graphs: set<int>, ts: seq<Exp>)
    requires |prev| == |next| && DescribesReads(ts, prev, next, r0, t, graphs) && ClosedUnder(t, graphs, r0, reached)
      && r0 <= reached
    ensures Describes([Lor([Equal(prev, next), Land(guard, Lor(ts))])], prev, next, r0, reached,
      NodeMoves(t, guard, graphs))
  {
    hide Encodes, Holds, Land, Lor, SomeHolds, Reads;
    var move: Move := NodeMoves(t, guard, graphs);
    var x, y := Equal(prev, next), Land(guard, Lor(ts));
    var d := [Lor([x, y])];
    forall a, s | s in r0 && Encodes(a, prev, s) ensures AllHold(a, d) <==> MovesTo(a, move, next, reached, s) {
      OneConstraint(a, d[0]);
      LorTwo(a, x, y);
      LandHolds(a, guard, Lor(ts));
      LorHolds(a, ts);
      EqualVectors(a, prev, next, s);
      assert SomeHolds(a, ts) <==> ReadsNext(a, next, t, graphs, s);
      if Holds(a, x) { assert move(a, s, s) && s in reached; }
      if Holds(a, y) {
        var x' :| Reads(t, graphs, s, x') && Encodes(a, next, x');
        assert move(a, s, x');
      }
      if MovesTo(a, move, next, reached, s) {
        var x' :| x' in reached && move(a, s, x') && Encodes(a, next, x');
        assert Reads(t, graphs, s, x') ==> ReadsNext(a, next, t, graphs, s);
      }
    }
  }

  lemma OneConstraint(a: Valuation, e: Exp)
    ensures AllHold(a, [e]) <==> Holds(a, e)
  {
    assert [e][0] == e;
  }

  lemma LorTwo(a: Valuation, x: Exp, y: Exp)
    ensures Holds(a, Lor([x, y])) <==> Holds(a, x) || Holds(a, y)
  {
    LorHolds(a, [x, y]);
    assert [x, y][0] == x && [x, y][1] == y;
  }

  lemma NodeLocal(t: set<Edge>, guard: Exp, graphs: set<int>, base: Var)
    requires Below(guard, base)
    ensures LocalMove(NodeMoves(t, guard, graphs), base)
  {
    hide Holds, Reads;
    var move: Move := NodeMoves(t, guard, graphs);
    forall a, b, s, s' | SameBelow(a, b, base) ensures move(a, s, s') <==> move(b, s, s') {
      HoldsLocal(a, b, base, guard);
    }
  }

  /** The literal of the edge number `k`. */
  function EdgeGuard(st: Step, k: nat): (e: Exp)
    requires st.edges.Some? && k < |st.edges.value|
  {
    var jump := if st.isGoto then st.jump else Const(false);
    Land(st.guard, if st.isGoto && st.edges.value[k].jump then jump else Lnot(jump))
  }

  lemma EdgeGuardTakes(a: Valuation, st: Step, k: nat)
    requires st.edges.Some? && k < |st.edges.value|
    ensures Holds(a, EdgeGuard(st, k)) <==> Takes(a, st, k)
  {
    hide Land, Lnot;
    var jump := if st.isGoto then st.jump else Const(false);
    LnotHolds(a, jump);
    LandHolds(a, st.guard, if st.isGoto && st.edges.value[k].jump then jump else Lnot(jump));
  }

  lemma EdgeGuardBelow(st: Step, k: nat, n: Var)
    requires st.edges.Some? && k < |st.edges.value| && Below(st.guard, n) && Below(st.jump, n)
    ensures Below(EdgeGuard(st, k), n)
  {
    hide Land, Lnot;
    var jump := if st.isGoto then st.jump else Const(false);
    GatesBelow(n, [], jump, jump);
    GatesBelow(n, [], st.guard, if st.isGoto && st.edges.value[k].jump then jump else Lnot(jump));
  }

  /** What the constraint of the edge number `k` says about a successor. */
  ghost predicate EdgeSays(a: Valuation, t: set<Edge>, st: Step, k: nat, next: seq<Exp>, s: nat)
    requires st.edges.Some? && k < |st.edges.value|
  {
    Takes(a, st, k) ==> ReadsNext(a, next, t, st.edges.value[k].graphs, s) || (st.instrumented && Encodes(a, next, s))
  }

  ghost predicate DescribesEdges(d: seq<Exp>, prev: seq<Exp>, next: seq<Exp>, r0: set<nat>, t: set<Edge>, st: Step,
                                 n: nat)
    requires st.edges.Some? && n <= |st.edges.value|
  {
    forall a, s {:trigger Encodes(a, prev, s)} :: s in r0 && Encodes(a, prev, s) ==>
      (AllHold(a, d) <==> forall k :: 0 <= k < n ==> EdgeSays(a, t, st, k, next, s))
  }

  lemma NoEdgeDescribed(prev: seq<Exp>, next: seq<Exp>, r0: set<nat>, t: set<Edge>, st: Step)
    requires st.edges.Some?
    ensures DescribesEdges([], prev, next, r0, t, st, 0)
  {
  }

  /** The constraint of one more edge. */
  lemma EdgeAdded(d: seq<Exp>, prev: seq<Exp>, next: seq<Exp>, r0: set<nat>, t: set<Edge>, st: Step, k: nat,
                  ts: seq<Exp>)
    requires st.edges.Some? && k < |st.edges.value| && |prev| == |next|
    requires DescribesEdges(d, prev, next, r0, t, st, k)
      && DescribesReads(ts, prev, next, r0, t, st.edges.value[k].graphs)
    ensures DescribesEdges(d + [EdgeConstraint(st, k, ts, prev, next)], prev, next, r0, t, st, k + 1)
  {
    hide Encodes, Holds, Land, Lor, Lnot, SomeHolds, ReadsNext, EdgeGuard, Takes, AllHold;
    var c := EdgeConstraint(st, k, ts, prev, next);
    forall a, s | s in r0 && Encodes(a, prev, s)
      ensures AllHold(a, d + [c]) <==> forall j :: 0 <= j < k + 1 ==> EdgeSays(a, t, st, j, next, s)
    {
      AllHoldBoth(a, d, [c]);
      OneConstraint(a, c);
      EdgeConstraintSays(a, prev, next, t, st, k, ts, s);
      assert AllHold(a, d) <==> forall j :: 0 <= j < k ==> EdgeSays(a, t, st, j, next, s);
    }
  }

  function EdgeConstraint(st: Step, k: nat, ts: seq<Exp>, prev: seq<Exp>, next: seq<Exp>): Exp
    requires st.edges.Some? && k < |st.edges.value|
  {
    Lor([Lnot(EdgeGuard(st, k)), Lor(if st.instrumented then ts + [Equal(prev, next)] else ts)])
  }

  lemma EdgeConstraintSays(a: Valuation, prev: seq<Exp>, next: seq<Exp>, t: set<Edge>, st: Step, k: nat, ts: seq<Exp>,
                           s: nat)
    requires st.edges.Some? && k < |st.edges.value| && |prev| == |next| && Encodes(a, prev, s)
    requires SomeHolds(a, ts) <==> ReadsNext(a, next, t, st.edges.value[k].graphs, s)
    ensures Holds(a, EdgeConstraint(st, k, ts, prev, next)) <==> EdgeSays(a, t, st, k, next, s)
  {
    hide Encodes, Holds, Land, Lor, Lnot, SomeHolds, ReadsNext, EdgeGuard, Takes;
    var all := if st.instrumented then ts + [Equal(prev, next)] else ts;
    LorTwo(a, Lnot(EdgeGuard(st, k)), Lor(all));
    LnotHolds(a, EdgeGuard(st, k));
    EdgeGuardTakes(a, st, k);
    LorHolds(a, all);
    SomeMore(a, ts, Equal(prev, next));
    EqualVectors(a, prev, next, s);
  }

  lemma EdgeConstraintBelow(st: Step, k: nat, ts: seq<Exp>, prev: seq<Exp>, next: seq<Exp>, n: Var)
    requires st.edges.Some? && k < |st.edges.value| && Below(st.guard, n) && Below(st.jump, n)
    requires AllBelow(ts, n) && AllBelow(prev, n) && AllBelow(next, n)
    ensures Below(EdgeConstraint(st, k, ts, prev, next), n) && Below(EdgeGuard(st, k), n) && Below(Equal(prev, next), n)
  {
    hide Land, Lor, Lnot, EdgeGuard;
    var all := if st.instrumented then ts + [Equal(prev, next)] else ts;
    EdgeGuardBelow(st, k, n);
    GatesBelow(n, all, EdgeGuard(st, k), Const(true));
    GatesBelow(n, [Lnot(EdgeGuard(st, k)), Lor(all)], Const(true), Const(true));
  }

  /** The edge literals hold exactly for the taken edges. */
  ghost predicate EdgeGuards(gs: seq<Exp>, st: Step)
    requires st.edges.Some?
  {
    |gs| == |st.edges.value| && forall k :: 0 <= k < |gs| ==> gs[k] == EdgeGuard(st, k)
  }

  lemma GuardsTake(a: Valuation, gs: seq<Exp>, st: Step)
    requires st.edges.Some? && EdgeGuards(gs, st)
    ensures Holds(a, Lor(gs)) <==> TakesSome(a, st)
  {
    hide Holds, Takes, EdgeGuard, Lor;
    LorHolds(a, gs);
    forall k | 0 <= k < |gs| ensures Holds(a, gs[k]) <==> Takes(a, st, k) { EdgeGuardTakes(a, st, k); }
  }

  /** All the constraints of the edges of a step. */
  lemma EdgeDescribes(d: seq<Exp>, prev: seq<Exp>, next: seq<Exp>, r0: set<nat>, reached: set<nat>, t: set<Edge>,
                      st: Step, gs: seq<Exp>, eq: Exp)
    requires StepOk(st) && st.edges.Some? && |prev| == |next| && EdgeGuards(gs, st) && r0 <= reached
      && Codes(reached, |prev|)
    requires DescribesEdges(d, prev, next, r0, t, st, |st.edges.value|)
    requires forall k :: 0 <= k < |st.edges.value| ==> ClosedUnder(t, st.edges.value[k].graphs, r0, reached)
    requires eq == Equal(prev, next) || (eq == Const(false) && Lor(gs) == Const(true))
    ensures Describes(d + [Lor([Lor(gs), eq])], prev, next, r0, reached, StepMoves(t, st))
  {
    hide Encodes, Holds, Land, Lor, SomeHolds, Reads, Takes, AllHold, TakesSome, EdgeGuards, Codes, EdgeMove, StepOk,
      ClosedUnder;
    var move: Move := StepMoves(t, st);
    var c := Lor([Lor(gs), eq]);
    forall a, s | s in r0 && Encodes(a, prev, s) ensures AllHold(a, d + [c]) <==> MovesTo(a, move, next, reached, s) {
      AllHoldBoth(a, d, [c]);
      OneConstraint(a, c);
      LorTwo(a, Lor(gs), eq);
      GuardsTake(a, gs, st);
      EqHolds(a, prev, next, eq, Lor(gs), s);
      assert AllHold(a, d) <==> forall k :: 0 <= k < |st.edges.value| ==> EdgeSays(a, t, st, k, next, s);
      EdgeMoves(a, next, r0, reached, t, st, s);
      assert MovesTo(a, move, next, reached, s) <==>
        exists s' :: s' in reached && EdgeMove(a, t, st, s, s') && Encodes(a, next, s');
    }
    forall a, s, s' | s in r0 && move(a, s, s') ensures s' in reached { EdgeMoveReached(a, t, st, s, s', r0, reached); }
  }

  lemma EqHolds(a: Valuation, prev: seq<Exp>, next: seq<Exp>, eq: Exp, taken: Exp, s: nat)
    requires |prev| == |next| && Encodes(a, prev, s)
      && (eq == Equal(prev, next) || (eq == Const(false) && taken == Const(true)))
    ensures Holds(a, taken) || Holds(a, eq) <==> Holds(a, taken) || Encodes(a, next, s)
  {
    hide Encodes;
    EqualVectors(a, prev, next, s);
  }

  lemma EdgeMoveReached(a: Valuation, t: set<Edge>, st: Step, s: nat, s': nat, r0: set<nat>, reached: set<nat>)
    requires st.edges.Some? && s in r0 && r0 <= reached && EdgeMove(a, t, st, s, s')
    requires forall k :: 0 <= k < |st.edges.value| ==> ClosedUnder(t, st.edges.value[k].graphs, r0, reached)
    ensures s' in reached
  {
    hide Takes, Reads;
    if TakesSome(a, st) {
      var k :| 0 <= k < |st.edges.value| && Takes(a, st, k);
      assert ClosedUnder(t, st.edges.value[k].graphs, r0, reached);
    }
  }

  lemma EdgeMoves(a: Valuation, next: seq<Exp>, r0: set<nat>, reached: set<nat>, t: set<Edge>, st: Step, s: nat)
    requires StepOk(st) && st.edges.Some? && r0 <= reached && s in r0
    requires forall k :: 0 <= k < |st.edges.value| ==> ClosedUnder(t, st.edges.value[k].graphs, r0, reached)
    ensures (&& (forall k :: 0 <= k < |st.edges.value| ==> EdgeSays(a, t, st, k, next, s))
             && (TakesSome(a, st) || Encodes(a, next, s))) <==>
      exists s' :: s' in reached && EdgeMove(a, t, st, s, s') && Encodes(a, next, s')
  {
    hide Takes, Reads, Encodes, StepOk;
    if (forall k :: 0 <= k < |st.edges.value| ==> EdgeSays(a, t, st, k, next, s))
      && (TakesSome(a, st) || Encodes(a, next, s)) {
      if TakesSome(a, st) {
        var k :| 0 <= k < |st.edges.value| && Takes(a, st, k);
        assert EdgeSays(a, t, st, k, next, s) && ClosedUnder(t, st.edges.value[k].graphs, r0, reached);
        forall j | 0 <= j < |st.edges.value| && Takes(a, st, j) ensures j == k { TakesOne(a, st, j, k); }
        if ReadsNext(a, next, t, st.edges.value[k].graphs, s) {
          var s' :| Reads(t, st.edges.value[k].graphs, s, s') && Encodes(a, next, s');
          assert EdgeMove(a, t, st, s, s');
        } else { assert EdgeMove(a, t, st, s, s); }
      } else { assert EdgeMove(a, t, st, s, s); }
    }
    if s' :| s' in reached && EdgeMove(a, t, st, s, s') && Encodes(a, next, s') {
      forall k | 0 <= k < |st.edges.value| ensures EdgeSays(a, t, st, k, next, s) {
        assert Reads(t, st.edges.value[k].graphs, s, s') ==> ReadsNext(a, next, t, st.edges.value[k].graphs, s);
      }
    }
  }

  lemma EdgeLocal(t: set<Edge>, st: Step, base: Var)
    requires st.edges.Some? && Below(st.guard, base) && Below(st.jump, base)
    ensures LocalMove(StepMoves(t, st), base)
  {
    hide Holds, Reads, Below;
    var move: Move := StepMoves(t, st);
    forall a, b, s, s' | SameBelow(a, b, base) ensures move(a, s, s') <==> move(b, s, s') {
      HoldsLocal(a, b, base, st.guard);
      HoldsLocal(a, b, base, st.jump);
      forall k | 0 <= k < |st.edges.value| ensures Takes(a, st, k) <==> Takes(b, st, k) { }
    }
  }

  // ---------- composing moves ----------

  ghost predicate RoundsAfter(r: Valuation, base: Var, cnf: seq<Exp>, vec: seq<Exp>, t: set<Edge>, guard: Exp,
                              graphs: set<int>, n: nat, x: nat) {
    exists s :: At(r, base, cnf, vec, s) && Rounds(r, t, guard, graphs, n, s, x)
  }

  lemma NoRounds(r: Valuation, base: Var, cnf: seq<Exp>, vec: seq<Exp>, t: set<Edge>, guard: Exp, graphs: set<int>,
                 x: nat)
    ensures RoundsAfter(r, base, cnf, vec, t, guard, graphs, 0, x) <==> At(r, base, cnf, vec, x)
  {
    hide At;
    if At(r, base, cnf, vec, x) { assert Rounds(r, t, guard, graphs, 0, x, x); }
  }

  lemma OneMoreRound(r: Valuation, base: Var, cnf0: seq<Exp>, vec0: seq<Exp>, cnf: seq<Exp>, vec: seq<Exp>,
                     t: set<Edge>, guard: Exp, graphs: set<int>, n: nat, x: nat)
    requires forall s :: At(r, base, cnf, vec, s) <==> RoundsAfter(r, base, cnf0, vec0, t, guard, graphs, n, s)
    ensures After(r, base, cnf, vec, NodeMoves(t, guard, graphs), x) <==>
      RoundsAfter(r, base, cnf0, vec0, t, guard, graphs, n + 1, x)
  {
    hide At, NodeMove;
    var move := NodeMoves(t, guard, graphs);
    if After(r, base, cnf, vec, move, x) {
      var y :| At(r, base, cnf, vec, y) && move(r, y, x);
      assert RoundsAfter(r, base, cnf0, vec0, t, guard, graphs, n, y);
      var s :| At(r, base, cnf0, vec0, s) && Rounds(r, t, guard, graphs, n, s, y);
      assert Rounds(r, t, guard, graphs, n + 1, s, x);
    }
    if RoundsAfter(r, base, cnf0, vec0, t, guard, graphs, n + 1, x) {
      var s :| At(r, base, cnf0, vec0, s) && Rounds(r, t, guard, graphs, n + 1, s, x);
      var y :| Rounds(r, t, guard, graphs, n, s, y) && NodeMove(r, t, guard, graphs, y, x);
      assert RoundsAfter(r, base, cnf0, vec0, t, guard, graphs, n, y);
      assert move(r, y, x);
    }
  }

  ghost predicate NodesAfter(r: Valuation, base: Var, cnf: seq<Exp>, vec: seq<Exp>, t: set<Edge>, st: Step, x: nat) {
    exists s :: At(r, base, cnf, vec, s) && NodeGoes(r, t, st, s, x)
  }

  ghost predicate EdgesAfter(r: Valuation, base: Var, cnf: seq<Exp>, vec: seq<Exp>, t: set<Edge>, st: Step, x: nat) {
    exists s :: At(r, base, cnf, vec, s) && EdgeGoes(r, t, st, s, x)
  }

  ghost predicate StepAfter(r: Valuation, base: Var, cnf: seq<Exp>, vec: seq<Exp>, t: set<Edge>, st: Step, x: nat) {
    exists s :: At(r, base, cnf, vec, s) && StepGoes(r, t, st, s, x)
  }

  lemma RoundsAreNodes(r: Valuation, base: Var, cnf: seq<Exp>, vec: seq<Exp>, t: set<Edge>, st: Step, x: nat)
    requires NoEpsilon(t) && st.nodes.Some?
    ensures RoundsAfter(r, base, cnf, vec, t, st.guard, st.nodes.value, |Sources(t, st.nodes.value)|, x) <==>
      NodesAfter(r, base, cnf, vec, t, st, x)
  {
    hide At, Rounds, NodeGoes, Sources, NoEpsilon;
    forall s
      ensures Rounds(r, t, st.guard, st.nodes.value, |Sources(t, st.nodes.value)|, s, x) <==> NodeGoes(r, t, st, s, x) {
      RoundsRead(r, t, st, s, x);
    }
  }

  lemma NoNodesAfter(r: Valuation, base: Var, cnf: seq<Exp>, vec: seq<Exp>, t: set<Edge>, st: Step, x: nat)
    requires NoEpsilon(t) && st.nodes.None?
    ensures NodesAfter(r, base, cnf, vec, t, st, x) <==> At(r, base, cnf, vec, x)
  {
    hide At, NodeGoes, NoEpsilon;
    forall s ensures NodeGoes(r, t, st, s, x) <==> s == x { NoNodes(r, t, st, s, x); }
  }

  lemma MovesAreEdges(r: Valuation, base: Var, cnf: seq<Exp>, vec: seq<Exp>, t: set<Edge>, st: Step, x: nat)
    requires NoEpsilon(t) && StepOk(st) && st.edges.Some?
    ensures After(r, base, cnf, vec, StepMoves(t, st), x) <==> EdgesAfter(r, base, cnf, vec, t, st, x)
  {
    hide At, EdgeMove, EdgeGoes, NoEpsilon;
    forall s ensures EdgeMove(r, t, st, s, x) <==> EdgeGoes(r, t, st, s, x) { EdgeMoveGoes(r, t, st, s, x); }
    var move := StepMoves(t, st);
    if EdgesAfter(r, base, cnf, vec, t, st, x) {
      var s :| At(r, base, cnf, vec, s) && EdgeGoes(r, t, st, s, x);
      assert move(r, s, x);
    }
  }

  lemma TwoHalves(r: Valuation, base: Var, cnf0: seq<Exp>, vec0: seq<Exp>, cnf: seq<Exp>, vec: seq<Exp>, t: set<Edge>,
                  st: Step, x: nat)
    requires NoEpsilon(t) && forall y :: At(r, base, cnf, vec, y) <==> NodesAfter(r, base, cnf0, vec0, t, st, y)
    ensures EdgesAfter(r, base, cnf, vec, t, st, x) <==> StepAfter(r, base, cnf0, vec0, t, st, x)
  {
    hide At, NodeGoes, EdgeGoes, StepGoes, NoEpsilon;
    if EdgesAfter(r, base, cnf, vec, t, st, x) {
      var y :| At(r, base, cnf, vec, y) && EdgeGoes(r, t, st, y, x);
      assert NodesAfter(r, base, cnf0, vec0, t, st, y);
      var s :| At(r, base, cnf0, vec0, s) && NodeGoes(r, t, st, s, y);
      StepInTwo(r, t, st, s, x);
    }
    if StepAfter(r, base, cnf0, vec0, t, st, x) {
      var s :| At(r, base, cnf0, vec0, s) && StepGoes(r, t, st, s, x);
      StepInTwo(r, t, st, s, x);
      var y :| NodeGoes(r, t, st, s, y) && EdgeGoes(r, t, st, y, x);
      assert NodesAfter(r, base, cnf0, vec0, t, st, y);
    }
  }

  /** A constraint on program variables only filters the solutions. */
  lemma Filtered(r: Valuation, base: Var, cnf: seq<Exp>, vec: seq<Exp>, e: Exp, x: nat)
    requires Below(e, base)
    ensures At(r, base, cnf + [e], vec, x) <==> At(r, base, cnf, vec, x) && Holds(r, e)
  {
    hide Holds, Encodes, Pow, AllHold, Below;
    if At(r, base, cnf + [e], vec, x) {
      var a :| SolvesAt(a, r, base, cnf + [e], vec, x);
      AllHoldBoth(a, cnf, [e]);
      OneConstraint(a, e);
      HoldsLocal(a, r, base, e);
      assert SolvesAt(a, r, base, cnf, vec, x);
    }
    if At(r, base, cnf, vec, x) && Holds(r, e) {
      var a :| SolvesAt(a, r, base, cnf, vec, x);
      AllHoldBoth(a, cnf, [e]);
      OneConstraint(a, e);
      HoldsLocal(a, r, base, e);
      assert SolvesAt(a, r, base, cnf + [e], vec, x);
    }
  }

  lemma FilteredStore(base: Var, cnf: seq<Exp>, vec: seq<Exp>, next: Var, reached: set<nat>, e: Exp)
    requires StoreOk(base, cnf, vec, next, reached) && Below(e, base)
    ensures StoreOk(base, cnf + [e], vec, next, reached)
  {
    hide Holds, Encodes, AllHold, Below, InSome;
    BelowMono(e, base, next);
    BelowMore(cnf, e, next);
    forall a | AllHold(a, cnf + [e]) ensures InSome(a, vec, reached) { AllHoldBoth(a, cnf, [e]); }
  }

  lemma UnmappedAfter(r: Valuation, base: Var, cnf: seq<Exp>, vec: seq<Exp>, t: set<Edge>, st: Step, x: nat)
    requires NoEpsilon(t) && st.edges.None?
    ensures EdgesAfter(r, base, cnf, vec, t, st, x) <==>
      At(r, base, cnf, vec, x) && (st.instrumented || !Holds(r, st.guard))
  {
    hide At, EdgeGoes, NoEpsilon, Holds;
    forall s ensures EdgeGoes(r, t, st, s, x) <==> s == x && (st.instrumented || !Holds(r, st.guard)) {
      UnmappedGoes(r, t, st, s, x);
    }
  }

  // ---------- the construction ----------

  ghost predicate StepBelow(st: Step, n: Var) { StepOk(st) && Below(st.guard, n) && Below(st.jump, n) }

  class Encoder {
    var cnf: seq<Exp>
    var vars: Var                   // the next unused variable
    var prev: seq<Exp>              // the state vector
    var reached: set<nat>           // states the vector can possibly be in
    var prevEq: map<nat, Exp>       // comparisons with the state vector made so far
    const trans: set<Edge>
    ghost const base: Var           // the program variables are below

    ghost predicate Valid()
      reads this`cnf, this`vars, this`prev, this`reached, this`prevEq
    {
      StoreOk(base, cnf, prev, vars, reached) && CacheOk(prevEq, prev) && CodedEdges(trans, |prev|) && NoEpsilon(trans)
    }

    constructor (cnf: seq<Exp>, base: Var, trans: set<Edge>, init: nat, width: nat)
      requires AllBelow(cnf, base) && CodedEdges(trans, width) && NoEpsilon(trans) && init < Pow(2, width)
      ensures Valid() && this.trans == trans && this.base == base && |prev| == width
      ensures forall r, x :: At(r, base, this.cnf, prev, x) <==> AllHold(r, cnf) && x == init
    {
      this.cnf, this.base, vars, this.trans := cnf, base, base, trans;
      prev, reached, prevEq := Constant(init, width), {init}, map[];
      new;
      StartAt(cnf, base, init, width);
    }

    /** One optional node transition. */
    method NodeRound(guard: Exp, graphs: set<int>)
      requires Valid() && Below(guard, base)
      modifies this`cnf, this`vars, this`prev, this`reached, this`prevEq
      ensures Valid() && |prev| == old(|prev|)
      ensures forall r, x :: At(r, base, cnf, prev, x) <==>
        After(r, base, old(cnf), old(prev), NodeMoves(trans, guard, graphs), x)
    {
      hide Below, AllBelow, At, After, LocalMove, Describes, DescribesReads, Land, Lor, CacheOk, CodedEdges, NoEpsilon,
        StoreOk, Codes;
      ghost var r0, n := reached, vars + |prev|;
      StoreParts(base, cnf, prev, vars, reached);
      var next := Variables(vars, |prev|);
      EmptyCache(next);
      VectorsBelow(prev, vars, |prev|);
      var ts, nextEq;
      ts, reached, prevEq, nextEq := CollectTrans(trans, graphs, prev, next, reached, prevEq, map[], r0, n);
      var c := Lor([Equal(prev, next), Land(guard, Lor(ts))]);
      NodeDescribes(prev, next, r0, reached, trans, guard, graphs, ts);
      NodeLocal(trans, guard, graphs, base);
      BelowMono(guard, base, n);
      NodeBelow(prev, next, guard, ts, n);
      MoveStep(base, cnf, prev, vars, r0, [c], reached, NodeMoves(trans, guard, graphs));
      cnf := cnf + [c];
      vars := vars + |prev|;
      prev, prevEq := next, nextEq;
    }

    /** As many optional node transitions as there are sources. */
    method NodeRounds(st: Step)
      requires Valid() && st.nodes.Some? && Below(st.guard, base)
      modifies this`cnf, this`vars, this`prev, this`reached, this`prevEq
      ensures Valid() && |prev| == old(|prev|)
      ensures forall r, x :: At(r, base, cnf, prev, x) <==> NodesAfter(r, base, old(cnf), old(prev), trans, st, x)
    {
      hide *;
      ghost var cnf0, vec0 := cnf, prev;
      var graphs := st.nodes.value;
      var sources := set e | e in trans && e.sym in graphs :: e.src;
      SameSources(trans, graphs, sources);
      forall r, x
        ensures At(r, base, cnf, prev, x) <==> RoundsAfter(r, base, cnf0, vec0, trans, st.guard, graphs, 0, x) {
        NoRounds(r, base, cnf, prev, trans, st.guard, graphs, x);
      }
      for i := 0 to |sources|
        invariant Valid() && |prev| == |vec0|
        invariant forall r, x :: At(r, base, cnf, prev, x) <==>
          RoundsAfter(r, base, cnf0, vec0, trans, st.guard, graphs, i, x)
      {
        ghost var cnf1, vec1 := cnf, prev;
        NodeRound(st.guard, graphs);
        forall r, x
          ensures At(r, base, cnf, prev, x) <==> RoundsAfter(r, base, cnf0, vec0, trans, st.guard, graphs, i + 1, x) {
          OneMoreRound(r, base, cnf0, vec0, cnf1, vec1, trans, st.guard, graphs, i, x);
        }
      }
      ValidParts();
      forall r, x ensures At(r, base, cnf, prev, x) <==> NodesAfter(r, base, cnf0, vec0, trans, st, x) {
        RoundsAreNodes(r, base, cnf0, vec0, trans, st, x);
      }
    }

    lemma ValidParts()
      requires Valid()
      ensures NoEpsilon(trans) && CodedEdges(trans, |prev|) && CacheOk(prevEq, prev)
        && StoreOk(base, cnf, prev, vars, reached)
    {
    }

    /** The constraints of all mapped edges of the step. */
    method EdgeConstraints(st: Step, next: seq<Exp>, ghost n: Var)
      returns (d: seq<Exp>, gs: seq<Exp>, eq: Exp, nextEq: map<nat, Exp>)
      requires st.edges.Some? && StepBelow(st, n) && AllBelow(prev, n) && AllBelow(next, n) && |next| == |prev|
      requires CacheOk(prevEq, prev) && CodedEdges(trans, |prev|) && Codes(reached, |prev|)
      modifies this`reached, this`prevEq
      ensures CacheOk(prevEq, prev) && CacheOk(nextEq, next) && old(reached) <= reached && Codes(reached, |prev|)
      ensures DescribesEdges(d, prev, next, old(reached), trans, st, |st.edges.value|) && EdgeGuards(gs, st)
      ensures forall k :: 0 <= k < |st.edges.value| ==>
        ClosedUnder(trans, st.edges.value[k].graphs, old(reached), reached)
      ensures AllBelow(d, n) && AllBelow(gs, n) && (eq == if st.instrumented then Equal(prev, next) else Const(false))
    {
      hide Below, AllBelow, DescribesReads, DescribesEdges, EdgeConstraint, EdgeGuard, CacheOk, CodedEdges, Codes,
        ClosedUnder, StepOk, Lor;
      var es := st.edges.value;
      d, gs, eq, nextEq := [], [], Const(false), map[];
      EmptyCache(next);
      NoEdgeDescribed(prev, next, reached, trans, st);
      NoneBelow(n);
      SomeEdge(st);
      for k := 0 to |es|
        invariant CacheOk(prevEq, prev) && CacheOk(nextEq, next) && old(reached) <= reached && Codes(reached, |prev|)
        invariant DescribesEdges(d, prev, next, old(reached), trans, st, k) && |gs| == k
        invariant forall j :: 0 <= j < k ==> gs[j] == EdgeGuard(st, j)
        invariant forall j :: 0 <= j < k ==> ClosedUnder(trans, es[j].graphs, old(reached), reached)
        invariant AllBelow(d, n) && AllBelow(gs, n)
          && (eq == if st.instrumented && k > 0 then Equal(prev, next) else Const(false))
      {
        ghost var before := reached;
        var ts;
        ts, reached, prevEq, nextEq := CollectTrans(trans, es[k].graphs, prev, next, reached, prevEq, nextEq,
          old(reached), n);
        forall j | 0 <= j < k ensures ClosedUnder(trans, es[j].graphs, old(reached), reached) {
          ClosedMore(trans, es[j].graphs, old(reached), before, reached);
        }
        EdgeAdded(d, prev, next, old(reached), trans, st, k, ts);
        EdgeConstraintBelow(st, k, ts, prev, next, n);
        BelowMore(d, EdgeConstraint(st, k, ts, prev, next), n);
        BelowMore(gs, EdgeGuard(st, k), n);
        gs := gs + [EdgeGuard(st, k)];
        if st.instrumented { eq := Equal(prev, next); }
        d := d + [EdgeConstraint(st, k, ts, prev, next)];
      }
    }

    /** A transition for the taken edge. */
    method EdgeStep(st: Step)
      requires Valid() && st.edges.Some? && StepBelow(st, base)
      modifies this`cnf, this`vars, this`prev, this`reached, this`prevEq
      ensures Valid() && |prev| == old(|prev|)
      ensures forall r, x :: At(r, base, cnf, prev, x) <==> After(r, base, old(cnf), old(prev), StepMoves(trans, st), x)
    {
      hide Below, AllBelow, At, After, LocalMove, Describes, DescribesEdges, Lor, CacheOk, CodedEdges, NoEpsilon,
        StoreOk, Codes, ClosedUnder, EdgeGuards, StepOk;
      ghost var r0, n := reached, vars + |prev|;
      StoreParts(base, cnf, prev, vars, reached);
      var next := Variables(vars, |prev|);
      VectorsBelow(prev, vars, |prev|);
      BelowMono(st.guard, base, n);
      BelowMono(st.jump, base, n);
      var d, gs, eq, nextEq := EdgeConstraints(st, next, n);
      var edge := Lor(gs);
      if edge != Const(true) && eq == Const(false) { eq := Equal(prev, next); }
      var c := Lor([edge, eq]);
      EdgeDescribes(d, prev, next, r0, reached, trans, st, gs, eq);
      EdgeLocal(trans, st, base);
      LastBelow(prev, next, gs, eq, n);
      BelowMore(d, c, n);
      MoveStep(base, cnf, prev, vars, r0, d + [c], reached, StepMoves(trans, st));
      cnf := cnf + (d + [c]);
      vars := vars + |prev|;
      prev, prevEq := next, nextEq;
    }

    /** Reads what the step reads: node labels, then a label of the taken edge. */
    method DoStep(st: Step)
      requires Valid() && StepBelow(st, base)
      modifies this`cnf, this`vars, this`prev, this`reached, this`prevEq
      ensures Valid() && |prev| == old(|prev|)
      ensures forall r, x :: At(r, base, cnf, prev, x) <==> StepAfter(r, base, old(cnf), old(prev), trans, st, x)
    {
      hide At, StoreOk, CacheOk, CodedEdges, NoEpsilon, NodesAfter, EdgesAfter, StepAfter, After, Below, StepOk, Holds,
        Lnot, StepMoves;
      ghost var cnf0, vec0 := cnf, prev;
      if st.nodes.Some? { NodeRounds(st); }
      else {
        forall r, x ensures NodesAfter(r, base, cnf0, vec0, trans, st, x) <==> At(r, base, cnf, prev, x) {
          NoNodesAfter(r, base, cnf, prev, trans, st, x);
        }
      }
      ghost var cnf1, vec1 := cnf, prev;
      forall r, x
        ensures EdgesAfter(r, base, cnf1, vec1, trans, st, x) <==> StepAfter(r, base, cnf0, vec0, trans, st, x) {
        TwoHalves(r, base, cnf0, vec0, cnf1, vec1, trans, st, x);
      }
      if st.edges.None? {
        if !st.instrumented {
          GatesBelow(base, [], st.guard, st.guard);
          FilteredStore(base, cnf, prev, vars, reached, Lnot(st.guard));
          cnf := cnf + [Lnot(st.guard)];
        }
        forall r, x ensures At(r, base, cnf, prev, x) <==> EdgesAfter(r, base, cnf1, vec1, trans, st, x) {
          UnmappedAfter(r, base, cnf1, vec1, trans, st, x);
          if !st.instrumented { LnotHolds(r, st.guard); Filtered(r, base, cnf1, vec1, Lnot(st.guard), x); }
        }
      } else {
        EdgeStep(st);
        forall r, x ensures At(r, base, cnf, prev, x) <==> EdgesAfter(r, base, cnf1, vec1, trans, st, x) {
          MovesAreEdges(r, base, cnf1, vec1, trans, st, x);
        }
      }
    }

    /** All steps in order. */
    method DoSteps(steps: seq<Step>, ghost cnf0: seq<Exp>, ghost init: nat)
      requires Valid() && (forall i :: 0 <= i < |steps| ==> StepBelow(steps[i], base))
      requires forall r, x :: At(r, base, cnf, prev, x) <==> AllHold(r, cnf0) && x == init
      modifies this`cnf, this`vars, this`prev, this`reached, this`prevEq
      ensures Valid() && |prev| == old(|prev|)
      ensures forall r, x :: At(r, base, cnf, prev, x) <==> AllHold(r, cnf0) && PathGoes(r, trans, steps, init, x)
    {
      hide At, StepAfter, PathGoes, AllHold, StepBelow, StoreOk, CacheOk, CodedEdges, NoEpsilon;
      forall r, x ensures PathGoes(r, trans, steps[..0], init, x) <==> init == x { PathStart(r, trans, init, x); }
      for i := 0 to |steps|
        invariant Valid() && |prev| == old(|prev|)
        invariant forall r, x :: At(r, base, cnf, prev, x) <==>
          AllHold(r, cnf0) && PathGoes(r, trans, steps[..i], init, x)
      {
        ghost var cnf1, vec1 := cnf, prev;
        DoStep(steps[i]);
        assert steps[..i + 1] == steps[..i] + [steps[i]];
        forall r, x
          ensures At(r, base, cnf, prev, x) <==> AllHold(r, cnf0) && PathGoes(r, trans, steps[..i + 1], init, x) {
          PathStep(r, trans, steps[..i], steps[i], init, x);
          OneStepAfter(r, base, cnf0, cnf1, vec1, trans, steps[..i], steps[i], init, x);
        }
      }
      assert steps[..|steps|] == steps;
    }

    /** The vector ends in a final state. */
    method RequireFinal(finals: set<nat>)
      requires Valid() && Codes(finals, |prev|)
      modifies this`cnf
      ensures forall r {:trigger Solvable(r, base, cnf)} :: Solvable(r, base, cnf) <==>
        AtSome(r, base, old(cnf), prev, finals)
      ensures base <= vars && AllBelow(cnf, vars)
    {
      hide *;
      ValidParts();
      StoreParts(base, cnf, prev, vars, reached);
      var fs, cache := CollectDests(prev, finals, prevEq);
      forall r ensures Solvable(r, base, cnf + [Lor(fs)]) <==> AtSome(r, base, cnf, prev, finals) {
        FinalSolves(r, base, cnf, prev, vars, reached, finals, fs);
      }
      ComparisonsBelow(fs, prev, finals, vars);
      GatesBelow(vars, fs, Const(true), Const(true));
      BelowMore(cnf, Lor(fs), vars);
      cnf := cnf + [Lor(fs)];
    }
  }

  /** Some solution of the constraints extends `r`. */
  ghost predicate Solvable(r: Valuation, base: Var, cnf: seq<Exp>) {
    exists a :: SameBelow(a, r, base) && AllHold(a, cnf)
  }

  ghost predicate AtSome(r: Valuation, base: Var, cnf: seq<Exp>, vec: seq<Exp>, finals: set<nat>) {
    exists x :: x in finals && At(r, base, cnf, vec, x)
  }

  lemma FinalSolves(r: Valuation, base: Var, cnf: seq<Exp>, vec: seq<Exp>, next: Var, reached: set<nat>,
                    finals: set<nat>, fs: seq<Exp>)
    requires StoreOk(base, cnf, vec, next, reached) && Comparisons(fs, vec, finals) && Codes(finals, |vec|)
    ensures Solvable(r, base, cnf + [Lor(fs)]) <==> AtSome(r, base, cnf, vec, finals)
  {
    hide Encodes, AllHold, Lor, Comparisons, AllBelow, Holds, SomeHolds;
    if Solvable(r, base, cnf + [Lor(fs)]) {
      var a :| SameBelow(a, r, base) && AllHold(a, cnf + [Lor(fs)]);
      AllHoldBoth(a, cnf, [Lor(fs)]);
      OneConstraint(a, Lor(fs));
      LorHolds(a, fs);
      ComparisonsHold(a, fs, vec, finals);
      var x :| x in finals && Encodes(a, vec, x);
      assert SolvesAt(a, r, base, cnf, vec, x);
    }
    if x :| x in finals && At(r, base, cnf, vec, x) {
      var a :| SolvesAt(a, r, base, cnf, vec, x);
      AllHoldBoth(a, cnf, [Lor(fs)]);
      OneConstraint(a, Lor(fs));
      LorHolds(a, fs);
      ComparisonsHold(a, fs, vec, finals);
      assert InSome(a, vec, finals);
    }
  }

  lemma StartAt(cnf: seq<Exp>, base: Var, init: nat, width: nat)
    requires AllBelow(cnf, base) && init < Pow(2, width)
    ensures StoreOk(base, cnf, Constant(init, width), base, {init})
    ensures forall r, x :: At(r, base, cnf, Constant(init, width), x) <==> AllHold(r, cnf) && x == init
  {
    hide Encodes, AllHold, AllBelow, Holds;
    var vec := Constant(init, width);
    forall a ensures Encodes(a, vec, init) { ConstantEncodes(a, init, width); }
    ConstantEncodes(iset{}, init, width);
    AllBelowMono(vec, 0, base);
    forall r, x ensures At(r, base, cnf, vec, x) <==> AllHold(r, cnf) && x == init {
      if At(r, base, cnf, vec, x) {
        var a :| SolvesAt(a, r, base, cnf, vec, x);
        EncodesOne(a, vec, x, init);
        Unaffected(a, r, base, cnf, [], 0);
      }
      if AllHold(r, cnf) && x == init { assert SolvesAt(r, r, base, cnf, vec, x); }
    }
    forall a | AllHold(a, cnf) ensures InSome(a, vec, {init}) { assert init in {init}; }
  }

  lemma StoreParts(base: Var, cnf: seq<Exp>, vec: seq<Exp>, next: Var, reached: set<nat>)
    requires StoreOk(base, cnf, vec, next, reached)
    ensures base <= next && AllBelow(cnf, next) && AllBelow(vec, next) && Codes(reached, |vec|)
  {
  }

  lemma EmptyCache(vec: seq<Exp>)
    ensures CacheOk(map[], vec)
  {
  }

  lemma VectorsBelow(vec: seq<Exp>, next: Var, w: nat)
    requires AllBelow(vec, next)
    ensures AllBelow(vec, next + w) && AllBelow(Variables(next, w), next + w)
  {
    AllBelowMono(vec, next, next + w);
    VariablesBelow(next, w);
  }

  lemma NodeBelow(prev: seq<Exp>, next: seq<Exp>, guard: Exp, ts: seq<Exp>, n: Var)
    requires AllBelow(prev, n) && AllBelow(next, n) && Below(guard, n) && AllBelow(ts, n)
    ensures AllBelow([Lor([Equal(prev, next), Land(guard, Lor(ts))])], n)
  {
    hide Lor, Land;
    GatesBelow(n, ts, guard, Const(true));
    GatesBelow(n, [], guard, Lor(ts));
    GatesBelow(n, [Equal(prev, next), Land(guard, Lor(ts))], guard, guard);
  }

  lemma LastBelow(prev: seq<Exp>, next: seq<Exp>, gs: seq<Exp>, eq: Exp, n: Var)
    requires AllBelow(prev, n) && AllBelow(next, n) && AllBelow(gs, n)
      && (eq == Equal(prev, next) || eq == Const(false))
    ensures Below(Lor([Lor(gs), eq]), n)
  {
    hide Lor;
    GatesBelow(n, gs, eq, eq);
    GatesBelow(n, [Lor(gs), eq], eq, eq);
  }

  lemma NoneBelow(n: Var)
    ensures AllBelow([], n)
  {
  }

  lemma SameSources(t: set<Edge>, graphs: set<int>, sources: set<State>)
    requires sources == set e | e in t && e.sym in graphs :: e.src
    ensures sources == Sources(t, graphs)
  {
  }

  lemma SomeEdge(st: Step)
    requires StepOk(st) && st.edges.Some?
    ensures |st.edges.value| > 0
  {
  }

  lemma ClosedMore(t: set<Edge>, graphs: set<int>, r0: set<nat>, before: set<nat>, after: set<nat>)
    requires ClosedUnder(t, graphs, r0, before) && before <= after
    ensures ClosedUnder(t, graphs, r0, after)
  {
    hide Reads;
  }

  lemma OneStepAfter(r: Valuation, base: Var, cnf0: seq<Exp>, cnf: seq<Exp>, vec: seq<Exp>, t: set<Edge>,
                     steps: seq<Step>, st: Step, init: nat, x: nat)
    requires forall s :: At(r, base, cnf, vec, s) <==> AllHold(r, cnf0) && PathGoes(r, t, steps, init, s)
    requires PathGoes(r, t, steps + [st], init, x) <==>
      exists s :: PathGoes(r, t, steps, init, s) && StepGoes(r, t, st, s, x)
    ensures StepAfter(r, base, cnf, vec, t, st, x) <==> AllHold(r, cnf0) && PathGoes(r, t, steps + [st], init, x)
  {
    hide At, AllHold, PathGoes, StepGoes;
    if AllHold(r, cnf0) && PathGoes(r, t, steps + [st], init, x) {
      var s :| PathGoes(r, t, steps, init, s) && StepGoes(r, t, st, s, x);
      assert At(r, base, cnf, vec, s);
    }
  }

  /** The mapped edges of an instruction: one, or the jump and the fall-through of a goto. */
  ghost predicate InstructionOk(c: Instruction) {
    c.edges.Some? ==>
      var es := c.edges.value;
      && (|es| == 1 || (|es| == 2 && c.isGoto && !c.instrumented && es[0].jump != es[1].jump))
      && (!c.isGoto ==> !es[0].jump)
  }

  /** The guards and conditions of the events that count are over the program variables. */
  ghost predicate EventsBelow(code: Program, es: seq<Event>, n: Var) {
    && JumpsKnown(code, es)
    && forall i :: 0 <= i < |es| && Counts(code, es[i]) ==>
         && InstructionOk(code(es[i].pc)) && Below(es[i].guard.value, n)
         && forall j: nat :: Behind(es, i, j) && j < |es| && es[j].guard.Some? ==> Below(es[j].guard.value, n)
  }

  lemma StepOfBelow(code: Program, es: seq<Event>, i: nat, n: Var)
    requires i < |es| && EventsBelow(code, es, n) && Counts(code, es[i]) && JumpKnown(code, es, i)
    ensures StepBelow(StepOf(code, es, i), n)
  {
    assert es[i].guard.Some?;
    hide Counts, Lnot;
    GatesBelow(n, [], Const(false), Const(false));
    if Conditional(code, es[i]) {
      var e := es[ConditionAt(es, i)].guard.value;
      GatesBelow(n, [], e, e);
    }
  }

  lemma {:induction false} PathBelow(code: Program, es: seq<Event>, n: nat, base: Var)
    requires n <= |es| && EventsBelow(code, es, base)
    ensures forall i :: 0 <= i < |Path(code, es, n)| ==> StepBelow(Path(code, es, n)[i], base)
    decreases n
  {
    hide StepBelow, StepOf;
    if n > 0 {
      PathBelow(code, es, n - 1, base);
      if KeptAt(code, es, n - 1) { StepOfBelow(code, es, n - 1, base); }
    }
  }

  lemma EventsKnown(code: Program, es: seq<Event>, n: Var)
    requires EventsBelow(code, es, n)
    ensures JumpsKnown(code, es)
  {
  }

  /** Builds the constraints of an automaton over the events of a path.  For every valuation of the
      program variables they have a solution exactly when the valuation satisfies the given
      constraints and the automaton accepts a word that the events of the path read. */
  method Build(a: Nfa, code: Program, es: seq<Event>, cnf0: seq<Exp>, base: Var) returns (cnf: seq<Exp>, vars: Var)
    requires WellFormed(a) && NoEpsilon(a.trans) && |a.initial| == 1 && AllBelow(cnf0, base)
    requires EventsBelow(code, es, base)
    ensures forall r {:trigger Solvable(r, base, cnf)} :: Solvable(r, base, cnf) <==>
      AllHold(r, cnf0) && Possible(r, a, code, es)
    ensures base <= vars && AllBelow(cnf, vars)
  {
    hide *;
    EventsKnown(code, es, base);
    var steps := Steps(code, es);
    PathBelow(code, es, |es|, base);
    var number, state, finals := CompactStateNumbers(a);
    NumbersCover(a, number, state);
    var trans := set e | e in a.trans :: Edge(number[e.src], e.sym, number[e.dst]);
    var width := Width(|a.states|);
    assert a.initial != {};
    var q :| q in a.initial;
    var init := number[q];
    CompactEdges(a, number, state, trans, finals, width);
    var enc := new Encoder(cnf0, base, trans, init, width);
    enc.DoSteps(steps, cnf0, init);
    ghost var cnf1 := enc.cnf;
    enc.RequireFinal(finals);
    cnf, vars := enc.cnf, enc.vars;
    forall r ensures Solvable(r, base, cnf) <==> AllHold(r, cnf0) && Possible(r, a, code, es) {
      StepsPossible(r, a, code, es);
      FinalPath(r, base, cnf0, cnf1, enc.prev, trans, steps, init, finals);
      CompactFeasible(r, a, number, state, trans, finals, q, steps);
    }
  }

  lemma NumbersCover(a: Nfa, number: map<State, nat>, state: map<nat, State>)
    requires WellFormed(a) && number.Keys == a.states && Numbered(number, state, |a.states|)
    ensures (forall e :: e in a.trans ==> e.src in number && e.dst in number)
      && (forall q :: q in a.initial ==> q in number)
    ensures Injective(number) && forall s :: s in number ==> number[s] < |a.states|
  {
    forall x, y | x in number && y in number && number[x] == number[y] ensures x == y {
      assert state[number[x]] == x && state[number[y]] == y;
    }
    forall s | s in number ensures number[s] < |a.states| { assert number[s] in state; }
  }

  lemma CompactEdges(a: Nfa, number: map<State, nat>, state: map<nat, State>, trans: set<Edge>, finals: set<nat>,
                     width: nat)
    requires WellFormed(a) && NoEpsilon(a.trans) && number.Keys == a.states && Numbered(number, state, |a.states|)
      && |a.states| < Pow(2, width)
    requires trans == (set e | e in a.trans && e.src in number
      && e.dst in number :: Edge(number[e.src], e.sym, number[e.dst]))
    requires forall k :: k in finals <==> k in state && state[k] in a.finals
    ensures trans == Image(number, a.trans) && CodedEdges(trans, width) && NoEpsilon(trans) && Codes(finals, width)
    ensures forall q :: q in number ==> number[q] < Pow(2, width)
  {
    hide Pow;
    NumbersCover(a, number, state);
    forall e | e in trans ensures e.src < Pow(2, width) && e.dst < Pow(2, width) && e.sym != Epsilon {
      var x :| x in a.trans && x.src in number && x.dst in number && e == Edge(number[x.src], x.sym, number[x.dst]);
    }
  }

  ghost predicate PathEnds(r: Valuation, t: set<Edge>, steps: seq<Step>, init: nat, finals: set<nat>) {
    exists x :: x in finals && PathGoes(r, t, steps, init, x)
  }

  lemma FinalPath(r: Valuation, base: Var, cnf0: seq<Exp>, cnf: seq<Exp>, vec: seq<Exp>, t: set<Edge>, steps: seq<Step>,
                  init: nat, finals: set<nat>)
    requires forall x :: At(r, base, cnf, vec, x) <==> AllHold(r, cnf0) && PathGoes(r, t, steps, init, x)
    ensures AtSome(r, base, cnf, vec, finals) <==> AllHold(r, cnf0) && PathEnds(r, t, steps, init, finals)
  {
    hide At, PathGoes, AllHold;
    if PathEnds(r, t, steps, init, finals) && AllHold(r, cnf0) {
      var x :| x in finals && PathGoes(r, t, steps, init, x);
      assert At(r, base, cnf, vec, x);
    }
  }

  /** The numbers run exactly like the states they stand for. */
  lemma CompactFeasible(r: Valuation, a: Nfa, number: map<State, nat>, state: map<nat, State>, trans: set<Edge>,
                        finals: set<nat>, q: State, steps: seq<Step>)
    requires WellFormed(a) && number.Keys == a.states && Numbered(number, state, |a.states|)
      && trans == Image(number, a.trans)
    requires |a.initial| == 1 && q in a.initial && forall k :: k in finals <==> k in state && state[k] in a.finals
    ensures PathEnds(r, trans, steps, number[q], finals) <==> Feasible(r, a, steps)
  {
    hide Goes, Matches, Image, Injective;
    NumbersCover(a, number, state);
    if PathEnds(r, trans, steps, number[q], finals) {
      var x :| x in finals && PathGoes(r, trans, steps, number[q], x);
      var w :| Matches(r, steps, w) && Goes(trans, number[q], w, x);
      var f := CopyReturns(a.trans, number, q, w, x);
      assert state[number[f]] == f;
      assert Accepts(a, w);
    }
    if Feasible(r, a, steps) {
      var w :| Accepts(a, w) && Matches(r, steps, w);
      var i, f :| i in a.initial && f in a.finals && Goes(a.trans, i, w, f);
      assert |a.initial - {q}| == 0;
      CopyGoes(a.trans, number, q, w, f);
      assert state[number[f]] == f;
      assert PathGoes(r, trans, steps, number[q], number[f]);
    }
  }

  /** The automaton accepts a word that the path reads. */
  ghost predicate Possible(r: Valuation, a: Nfa, code: Program, es: seq<Event>) {
    exists w :: Accepts(a, w) && PathReads(r, code, es, |es|, w)
  }

  lemma StepsPossible(r: Valuation, a: Nfa, code: Program, es: seq<Event>)
    requires JumpsKnown(code, es)
    ensures Feasible(r, a, Path(code, es, |es|)) <==> Possible(r, a, code, es)
  {
    hide Accepts, Matches, PathReads, Path, JumpKnown;
    forall w ensures Matches(r, Path(code, es, |es|), w) <==> PathReads(r, code, es, |es|, w) {
      PathWords(r, code, es, |es|, w);
    }
  }

  /** The automaton accepts a word that matches the steps. */
  ghost predicate Feasible(r: Valuation, a: Nfa, steps: seq<Step>) { exists w :: Accepts(a, w) && Matches(r, steps, w) }
}
