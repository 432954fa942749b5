/** The trace automaton that is simplified, copied and renumbered in place. */
module TraceAutomata {
  import opened Basics
  import opened Nfas

  /** Different states get different names. */
  ghost predicate Injective(m: map<State, State>) {
    forall x, y {:trigger m[x], m[y]} :: x in m && y in m && m[x] == m[y] ==> x == y
  }

  ghost function ImageStates(m: map<State, State>, s: set<State>): set<State> { set x | x in s && x in m :: m[x] }

  ghost function Image(m: map<State, State>, t: set<Edge>): set<Edge> {
    set e | e in t && e.src in m && e.dst in m :: Edge(m[e.src], e.sym, m[e.dst])
  }

  /** `m` names the states of `src` by states outside `base`. */
  ghost predicate Copies(m: map<State, State>, src: Nfa, base: set<State>) {
    m.Keys == src.states && Injective(m) && m.Values !! base
  }

  /** `b` is `a` with its states renamed. */
  ghost predicate Renamed(a: Nfa, b: Nfa) {
    exists m {:trigger ImageStates(m, a.initial)} ::
      Copies(m, a, {}) && b == Nfa(m.Values, Image(m, a.trans), ImageStates(m, a.initial), ImageStates(m, a.finals))
  }

  /** `d` is a simplification of `a`, renamed twice. */
  ghost predicate Compacted(a: Nfa, d: Nfa) { exists b, c :: Simplified(a, b) && Renamed(b, c) && Renamed(c, d) }

  lemma IsCompacted(a: Nfa, b: Nfa, c: Nfa, d: Nfa)
    requires Simplified(a, b) && Renamed(b, c) && Renamed(c, d)
    ensures Compacted(a, d)
  {
    hide Simplified, Renamed;
  }

  ghost predicate SameWords(a: Nfa, b: Nfa) { forall w :: Accepts(a, w) <==> Accepts(b, w) }

  ghost predicate NoneDead(a: Nfa) { forall s :: s in a.states ==> !Dead(a, s) }

  /** `m` names some states of `all` by the states beside `base`. */
  ghost predicate Naming(m: map<State, State>, states: set<State>, base: set<State>, all: set<State>) {
    Injective(m) && states == base + m.Values && m.Values !! base && m.Keys <= all
  }

  /** Beside `before`, the edges are those of `done` under the new names. */
  ghost predicate Copied(m: map<State, State>, trans: set<Edge>, before: set<Edge>, done: set<Edge>) {
    Within(m, done) && trans == before + Image(m, done)
  }

  class TraceAutomaton {
    var states: set<State>
    var trans: set<Edge>
    var initial: set<State>
    var finals: set<State>

    ghost function View(): Nfa reads this { Nfa(states, trans, initial, finals) }

    ghost predicate Valid() reads this { WellFormed(View()) }

    constructor ()
      ensures Valid() && View() == Nfa({}, {}, {}, {})
    {
      states, trans, initial, finals := {}, {}, {}, {};
    }

    method NewState() returns (q: State)
      modifies this`states
      ensures q !in old(states) && states == old(states) + {q}
    {
      FreshState(states);
      q :| q !in states;
      states := states + {q};
    }

    // ---------- epsilon edges ----------

    /** Starts the edges of `out` from `p` as well. */
    method Reroute(p: State, out: set<Edge>)
      modifies this`trans
      ensures trans == old(trans) + Rerouted(out, p)
    {
      var rest := out;
      while rest != {}
        invariant rest <= out && trans == old(trans) + Rerouted(out - rest, p)
      {
        var o :| o in rest;
        ghost var left := out - rest;
        rest := rest - {o};
        trans := trans + {Edge(p, o.sym, o.dst)};
        assert out - rest == left + {o};
        assert Rerouted(left + {o}, p) == Rerouted(left, p) + {Edge(p, o.sym, o.dst)};
      }
    }

    /** Bypasses one epsilon edge into `s`. */
    method BypassEdge(p: State, s: State, out: set<Edge>)
      requires Edge(p, Epsilon, s) in trans
      modifies this`trans, this`finals
      ensures View() == Bypass(old(View()), p, s, out)
    {
      if p != s { Reroute(p, out); }
      if s in finals { finals := finals + {p}; }
      trans := trans - {Edge(p, Epsilon, s)};
    }

    /** Removes every epsilon edge into `s`. */
    method BypassState(s: State)
      requires Valid() && s in states
      modifies this`trans, this`finals
      ensures Valid() && Simulates(old(View()), View())
      ensures forall e :: e in trans && e.sym == Epsilon ==> e.dst != s && EpsInto(old(trans), e.dst)
    {
      hide Simulates;
      ghost var a0 := View();
      var rest := set e | e in trans && e.dst == s;
      var out := set e | e in trans && e.src == s;
      SimulatesSelf(View());
      while rest != {}
        invariant Valid() && states == a0.states && Simulates(a0, View()) && OutOf(out, trans, s)
        invariant Edge(s, Epsilon, s) in trans ==> Edge(s, Epsilon, s) in out
        invariant out <= a0.trans && forall e :: e in rest ==> e in trans && e.dst == s
        invariant forall e :: e in trans && e.sym == Epsilon && e.dst == s ==> e in rest
        invariant forall e :: e in trans && e.sym == Epsilon ==> EpsInto(a0.trans, e.dst)
      {
        var e :| e in rest;
        rest := rest - {e};
        if e.sym == Epsilon {
          ghost var a := View();
          BypassSimulates(a, e.src, s, out);
          BypassEdge(e.src, s, out);
          BypassKeeps(a0.trans, a, View(), e.src, s, out, rest);
          SimulatesTrans(a0, a, View());
        }
      }
    }

    method RemoveEpsilon()
      requires Valid()
      modifies this`trans, this`finals
      ensures Valid() && Simulates(old(View()), View()) && NoEpsilon(trans)
    {
      hide Simulates;
      ghost var a0 := View();
      var rest := states;
      SimulatesSelf(a0);
      while rest != {}
        invariant Valid() && states == a0.states && rest <= states && Simulates(a0, View())
        invariant forall e :: e in trans && e.sym == Epsilon ==> e.dst in rest
      {
        var s :| s in rest;
        ghost var a := View();
        BypassState(s);
        SimulatesTrans(a0, a, View());
        forall e | e in trans && e.sym == Epsilon ensures e.dst in rest - {s} { EpsFrom(a.trans, e.dst); }
        rest := rest - {s};
      }
    }

    // ---------- dead states ----------

    /** Deletes the edges and queues their other ends; every queued entry is paid for by an edge. */
    method DeleteEdges(es: set<Edge>, forward: bool, queue: seq<State>) returns (queue': seq<State>)
      requires es <= trans
      modifies this`trans
      ensures trans == old(trans) - es && |queue'| + |trans| == |queue| + |old(trans)|
      ensures forall q :: q in queue' <==> q in queue || OtherEnd(es, forward, q)
    {
      hide OtherEnd, Deleted;
      var rest := es;
      queue' := queue;
      NoneDeleted(trans, es, forward, queue);
      while rest != {}
        invariant Deleted(old(trans), es, forward, queue, rest, trans, queue')
      {
        var e :| e in rest;
        OneDeleted(old(trans), es, forward, queue, rest, trans, queue', e);
        queue' := queue' + [if forward then e.dst else e.src];
        rest := rest - {e};
        trans := trans - {e};
      }
      AllDeleted(old(trans), es, forward, queue, trans, queue');
    }

    /** Deletes a dead state and its edges, which are the edges out of it or those into it. */
    method DropState(s: State, es: set<Edge>, forward: bool, queue: seq<State>) returns (queue': seq<State>)
      requires Valid() && s in states && Dead(View(), s) && Drop(View(), s).trans == trans - es && es <= trans
      requires AtState(es, trans, s, forward)
      modifies this`states, this`trans, this`finals
      ensures Valid() && states == old(states) - {s} && trans == old(trans) - es && Trims(old(View()), View())
      ensures |queue'| + |trans| == |queue| + |old(trans)| && (forall q :: q in queue ==> q in queue')
      ensures forall q :: q in queue' ==> q in queue || q in old(states)
      ensures forall q :: q in states && Dead(View(), q) ==> q in queue' || (q != s && Dead(old(View()), q))
    {
      hide Trims, Dead;
      ghost var a := View();
      queue' := DeleteEdges(es, forward, queue);
      states, finals := states - {s}, finals - {s};
      DropTrims(a, s);
      DeadLater(a, s, forward, queue', es);
    }

    /** Looks at one queued state. */
    method CheckState(s: State, queue: seq<State>, dead: set<State>) returns (queue': seq<State>, dead': set<State>)
      requires Valid() && dead !! states && (s in states || s in dead)
      modifies this`states, this`trans, this`finals
      ensures Valid() && Trims(old(View()), View()) && dead' !! states && states + dead' == old(states) + dead
        && states <= old(states)
      ensures |queue'| + |trans| == |queue| + |old(trans)| && trans <= old(trans)
      ensures forall q :: q in queue ==> q in queue'
      ensures forall q :: q in queue' ==> q in queue || q in old(states)
      ensures forall q :: q in states && Dead(View(), q) ==> q in queue' || (q != s && Dead(old(View()), q))
    {
      hide Trims, Dead, WellFormed;
      queue', dead' := queue, dead;
      TrimsSelf(View());
      if s in dead { return; }
      var ins := set e | e in trans && e.dst == s;
      var outs := set e | e in trans && e.src == s;
      assert AtState(ins, trans, s, false) && AtState(outs, trans, s, true);
      hide AtState, Drop;
      DeadTest(View(), s, ins, outs);
      if s in initial { return; }
      if ins == {} {
        queue' := DropState(s, outs, true, queue);
        dead' := dead + {s};
      } else if outs == {} && s !in finals {
        queue' := DropState(s, ins, false, queue);
        dead' := dead + {s};
      }
    }

    /** Empties the queue.  The number of rounds is at most the number of states and edges. */
    method RemoveDead() returns (ghost rounds: nat)
      requires Valid()
      modifies this`states, this`trans, this`finals
      ensures Valid() && Trims(old(View()), View()) && (forall s :: s in states ==> !Dead(View(), s))
      ensures rounds <= |old(states)| + |old(trans)|
    {
      hide Trims, Dead;
      ghost var a0 := View();
      var queue := Listed(states);
      var dead: set<State> := {};
      rounds := 0;
      TrimsSelf(a0);
      while |queue| > 0
        invariant Valid() && Trims(a0, View()) && dead !! states && states + dead == a0.states
        invariant forall q :: q in queue ==> q in a0.states
        invariant forall q :: q in states && Dead(View(), q) ==> q in queue
        invariant rounds + |queue| + |trans| == |a0.states| + |a0.trans|
        decreases |trans|, |queue|
      {
        var s := queue[0];
        ghost var a, queue0 := View(), queue;
        queue, dead := CheckState(s, queue[1..], dead);
        rounds := rounds + 1;
        TrimsTrans(a0, a, View());
        assert forall q :: q in queue0 ==> q == s || q in queue0[1..];
        SubsetSize(trans, a.trans);
      }
    }

    /** Bypasses epsilon edges, then removes dead states. */
    method Reduce()
      requires Valid()
      modifies this`states, this`trans, this`finals
      ensures Valid() && Simplified(old(View()), View()) && (forall s :: s in states ==> !Dead(View(), s))
      ensures forall w :: Accepts(old(View()), w) <==> Accepts(View(), w)
    {
      hide Simulates, Trims, Accepts, Dead;
      ghost var a := View();
      RemoveEpsilon();
      ghost var c := View();
      ghost var rounds := RemoveDead();
      TrimsSubset(c, View());
      assert Simplified(a, View());
      forall w ensures Accepts(a, w) <==> Accepts(View(), w) { SameLanguage(a, View(), w); }
    }

    // ---------- copying ----------

    /** Adds a copy of `src` under new names; returns the names of its initial and final states. */
    method CopyFrom(src: Nfa) returns (init: set<State>, fin: set<State>, ghost m: map<State, State>)
      requires Valid() && WellFormed(src)
      modifies this`states, this`trans
      ensures Valid() && Copies(m, src, old(states)) && states == old(states) + m.Values
      ensures trans == old(trans) + Image(m, src.trans)
      ensures init == ImageStates(m, src.initial) && fin == ImageStates(m, src.finals)
    {
      hide Injective, Image, Naming, Copied, ImageStates;
      var names: map<State, State> := map[];
      init, fin := {}, {};
      var rest := src.states;
      ghost var done: set<Edge> := {};
      EmptyCopy(names, src, states, trans);
      while rest != {}
        invariant rest <= src.states && src.states - rest <= names.Keys
        invariant Naming(names, states, old(states), src.states) && Copied(names, trans, old(trans), done)
        invariant done == set e | e in src.trans && e.src !in rest
        invariant init == ImageStates(names, src.initial - rest) && fin == ImageStates(names, src.finals - rest)
      {
        var s :| s in rest;
        ghost var names0 := names;
        names := NameOf(names, s, done, old(states), src.states, old(trans));
        var q := names[s];
        if s in src.initial { init := init + {q}; }
        if s in src.finals { fin := fin + {q}; }
        names, done := CopyEdges(names, (set e | e in src.trans && e.src == s), done, old(states), src.states,
          old(trans));
        MoreImages(names0, names, src.initial, rest, s, q);
        MoreImages(names0, names, src.finals, rest, s, q);
        rest := rest - {s};
      }
      m := names;
      CopyDone(src, m, states, trans, old(View()), done, rest);
    }

    /** Finds the name of `s`, or makes one. */
    method NameOf(names: map<State, State>, s: State, ghost done: set<Edge>, ghost base: set<State>,
                  ghost all: set<State>, ghost before: set<Edge>)
      returns (names': map<State, State>)
      requires Naming(names, states, base, all) && Copied(names, trans, before, done) && s in all
      modifies this`states
      ensures Naming(names', states, base, all) && Copied(names', trans, before, done)
      ensures Extends(names, names') && s in names'
    {
      hide Injective, Image;
      names' := names;
      if s !in names {
        var q := NewState();
        names' := names[s := q];
        NewName(names, s, q);
      }
      SameImage(names, names', done);
    }

    method CopyEdges(names: map<State, State>, es: set<Edge>, ghost done: set<Edge>, ghost base: set<State>,
                     ghost all: set<State>, ghost before: set<Edge>)
      returns (names': map<State, State>, ghost done': set<Edge>)
      requires Naming(names, states, base, all) && Copied(names, trans, before, done)
      requires forall e :: e in es ==> e.src in names && e.dst in all
      modifies this`states, this`trans
      ensures Naming(names', states, base, all) && Copied(names', trans, before, done')
      ensures Extends(names, names') && done' == done + es
    {
      hide Naming, Copied;
      var rest := es;
      names', done' := names, done;
      while rest != {}
        invariant Naming(names', states, base, all) && Copied(names', trans, before, done')
        invariant rest <= es && Extends(names, names') && done' == done + (es - rest)
      {
        var e :| e in rest;
        names' := NameOf(names', e.dst, done', base, all, before);
        OneMoreImage(names', trans, before, done', e);
        trans := trans + {Edge(names'[e.src], e.sym, names'[e.dst])};
        done' := done' + {e};
        rest := rest - {e};
      }
    }

    /** Turns an empty automaton into a copy of `src`. */
    method Become(src: Nfa)
      requires Valid() && states == {} && trans == {} && WellFormed(src)
      modifies this
      ensures Valid() && SameWords(src, View()) && (NoneDead(src) ==> NoneDead(View()))
      ensures (NoEpsilon(src.trans) ==> NoEpsilon(trans)) && Renamed(src, View())
    {
      hide *;
      var i, f, m := CopyFrom(src);
      initial, finals := i, f;
      CopiedAll(src, m);
    }

    lemma CopiedAll(src: Nfa, m: map<State, State>)
      requires WellFormed(src) && Copies(m, src, {}) && states == m.Values && trans == Image(m, src.trans)
      requires initial == ImageStates(m, src.initial) && finals == ImageStates(m, src.finals)
      ensures Valid() && SameWords(src, View()) && (NoneDead(src) ==> NoneDead(View()))
      ensures (NoEpsilon(src.trans) ==> NoEpsilon(trans)) && Renamed(src, View())
    {
      hide Injective, Dead, Accepts;
      CopyLanguage(src, View(), m);
      if NoneDead(src) { CopyDead(src, View(), m); }
      CopyValid(Nfa({}, {}, {}, {}), src, m);
    }

    /** Simplifies, and with `compact` also renames the states. */
    method Simplify(compact: bool)
      requires Valid()
      modifies this
      ensures Valid() && NoEpsilon(trans)
      ensures forall w :: Accepts(old(View()), w) <==> Accepts(View(), w)
      ensures forall s :: s in states ==> !Dead(View(), s)
      ensures if compact then Compacted(old(View()), View()) else Simplified(old(View()), View())
    {
      hide Accepts, Dead, Simulates, Renamed, Compacted;
      Reduce();
      ghost var b := View();
      if compact {
        var clone := new TraceAutomaton();
        clone.Become(Nfa(states, trans, initial, finals));
        states, trans, initial, finals := {}, {}, {}, {};
        ghost var c := clone.View();
        Become(Nfa(clone.states, clone.trans, clone.initial, clone.finals));
        IsCompacted(old(View()), b, c, View());
      }
    }
  }

  // ---------- sets ----------

  lemma FreshState(s: set<State>)
    ensures exists q: State :: q !in s
  {
    var m := Above(s);
    assert m !in s;
  }

  lemma {:induction false} Above(s: set<State>) returns (m: State)
    ensures forall x :: x in s ==> x < m
    decreases s
  {
    if s == {} { m := 0; }
    else {
      var x :| x in s;
      var n := Above(s - {x});
      m := if x < n then n else x + 1;
      forall y | y in s ensures y < m { assert y == x || y in s - {x}; }
    }
  }

  /** The elements of a set, in some order. */
  method Listed(s: set<State>) returns (r: seq<State>)
    ensures |r| == |s| && forall x :: x in r <==> x in s
  {
    var rest := s;
    r := [];
    while rest != {}
      invariant rest <= s && |r| + |rest| == |s| && forall x :: x in r <==> x in s && x !in rest
    {
      var x :| x in rest;
      rest := rest - {x};
      r := r + [x];
    }
  }

  // ---------- epsilon edges ----------

  ghost predicate EpsInto(t: set<Edge>, d: State) { exists e :: e in t && e.sym == Epsilon && e.dst == d }

  lemma EpsFrom(t: set<Edge>, d: State)
    requires EpsInto(t, d)
    ensures exists e :: e in t && e.sym == Epsilon && e.dst == d
  {
  }

  lemma BypassKeeps(t0: set<Edge>, a: Nfa, b: Nfa, p: State, s: State, out: set<Edge>, rest: set<Edge>)
    requires WellFormed(a) && s in a.states && b == Bypass(a, p, s, out) && OutOf(out, a.trans, s)
      && Edge(p, Epsilon, s) in a.trans
    requires Edge(s, Epsilon, s) in a.trans ==> Edge(s, Epsilon, s) in out
    requires out <= t0 && (forall e :: e in a.trans && e.sym == Epsilon ==> EpsInto(t0, e.dst))
    requires forall e :: e in a.trans && e.sym == Epsilon && e.dst == s ==> e == Edge(p, Epsilon, s) || e in rest
    requires Edge(p, Epsilon, s) !in rest && forall e :: e in rest ==> e in a.trans && e.dst == s
    ensures WellFormed(b) && OutOf(out, b.trans, s) && (Edge(s, Epsilon, s) in b.trans ==> Edge(s, Epsilon, s) in out)
    ensures forall e :: e in rest ==> e in b.trans
    ensures forall e :: e in b.trans && e.sym == Epsilon && e.dst == s ==> e in rest
    ensures forall e :: e in b.trans && e.sym == Epsilon ==> EpsInto(t0, e.dst)
  {
    forall e | e in b.trans && e !in a.trans
      ensures e.src == p && p != s && exists o :: o in out && o.sym == e.sym && o.dst == e.dst {
      var o :| o in out && e == Edge(p, o.sym, o.dst);
    }
    forall e | e in b.trans ensures e.src in b.states && e.dst in b.states {
      if e !in a.trans {
        var o :| o in out && e == Edge(p, o.sym, o.dst);
        if o != Edge(s, Epsilon, s) { assert o in a.trans; }
      }
    }
    forall e | e in b.trans && e.sym == Epsilon && e.dst == s ensures e in rest {
      assert e != Edge(p, Epsilon, s);
    }
  }

  // ---------- dead states ----------

  ghost predicate OtherEnd(es: set<Edge>, forward: bool, q: State) {
    exists e :: e in es && q == if forward then e.dst else e.src
  }

  /** The edges of `es` outside `rest` are deleted and their other ends queued. */
  ghost predicate Deleted(t0: set<Edge>, es: set<Edge>, forward: bool, queue0: seq<State>, rest: set<Edge>,
                          t: set<Edge>, queue: seq<State>) {
    && rest <= es <= t0 && (forall e :: e in t <==> e in t0 && (e in es ==> e in rest))
    && |queue| + |t| == |queue0| + |t0|
    && forall q :: q in queue <==> q in queue0 || OtherEnd(es - rest, forward, q)
  }

  lemma NoneDeleted(t: set<Edge>, es: set<Edge>, forward: bool, queue: seq<State>)
    requires es <= t
    ensures Deleted(t, es, forward, queue, es, t, queue)
  {
    assert es - es == {};
  }

  lemma OneDeleted(t0: set<Edge>, es: set<Edge>, forward: bool, queue0: seq<State>, rest: set<Edge>, t: set<Edge>,
                   queue: seq<State>, e: Edge)
    requires Deleted(t0, es, forward, queue0, rest, t, queue) && e in rest
    ensures Deleted(t0, es, forward, queue0, rest - {e}, t - {e}, queue + [if forward then e.dst else e.src])
  {
    hide OtherEnd;
    OneMoreEnd(es - rest, e, forward);
    assert es - (rest - {e}) == es - rest + {e};
  }

  lemma AllDeleted(t0: set<Edge>, es: set<Edge>, forward: bool, queue0: seq<State>, t: set<Edge>, queue: seq<State>)
    requires Deleted(t0, es, forward, queue0, {}, t, queue)
    ensures t == t0 - es && |queue| + |t| == |queue0| + |t0|
    ensures forall q :: q in queue <==> q in queue0 || OtherEnd(es, forward, q)
  {
    hide OtherEnd;
    assert es - {} == es;
  }

  lemma OneMoreEnd(es: set<Edge>, e: Edge, forward: bool)
    ensures forall q :: OtherEnd(es + {e}, forward, q) <==>
      OtherEnd(es, forward, q) || q == if forward then e.dst else e.src
  {
    forall q
      ensures OtherEnd(es + {e}, forward, q) <==> OtherEnd(es, forward, q) || q == if forward then e.dst else e.src {
      if OtherEnd(es, forward, q) {
        var f :| f in es && q == if forward then f.dst else f.src;
        assert f in es + {e};
      }
      assert e in es + {e};
    }
  }

  /** `es` holds the edges out of `s`, or those into it. */
  ghost predicate AtState(es: set<Edge>, t: set<Edge>, s: State, forward: bool) {
    forall e :: e in es <==> e in t && (if forward then e.src else e.dst) == s
  }

  lemma DeadTest(a: Nfa, s: State, ins: set<Edge>, outs: set<Edge>)
    requires AtState(ins, a.trans, s, false) && AtState(outs, a.trans, s, true)
    ensures ins <= a.trans && outs <= a.trans
    ensures Dead(a, s) <==> s !in a.initial && (ins == {} || (outs == {} && s !in a.finals))
    ensures ins == {} ==> Drop(a, s).trans == a.trans - outs
    ensures outs == {} ==> Drop(a, s).trans == a.trans - ins
  {
  }

  /** A state that dies when `s` goes was at the other end of a deleted edge. */
  lemma DeadLater(a: Nfa, s: State, forward: bool, queue: seq<State>, es: set<Edge>)
    requires AtState(es, a.trans, s, forward)
    requires Drop(a, s).trans == a.trans - es && forall q :: OtherEnd(es, forward, q) ==> q in queue
    ensures forall q :: q in a.states && q != s && Dead(Drop(a, s), q) ==> q in queue || Dead(a, q)
  {
    var b := Drop(a, s);
    forall e | e in es ensures (if forward then e.dst else e.src) in queue {
      assert OtherEnd(es, forward, if forward then e.dst else e.src);
    }
    forall q | q in a.states && q != s && Dead(b, q) && q !in queue ensures Dead(a, q) {
      assert forall e :: e in a.trans && (e.src == q || e.dst == q) ==> e in b.trans;
    }
  }

  lemma TrimsSubset(a: Nfa, b: Nfa)
    requires Trims(a, b) && NoEpsilon(a.trans)
    ensures NoEpsilon(b.trans)
  {
  }

  // ---------- copying ----------

  ghost predicate Within(m: map<State, State>, t: set<Edge>) { forall e :: e in t ==> e.src in m && e.dst in m }

  ghost predicate Extends(m: map<State, State>, n: map<State, State>) {
    m.Keys <= n.Keys && forall x :: x in m ==> n[x] == m[x]
  }

  lemma NewName(m: map<State, State>, s: State, q: State)
    requires s !in m && q !in m.Values
    ensures m[s := q].Values == m.Values + {q} && (Injective(m) ==> Injective(m[s := q]))
  {
    var n := m[s := q];
    forall y ensures y in n.Values <==> y in m.Values || y == q {
      if y in m.Values { var x :| x in m && m[x] == y; assert n[x] == y; }
      assert n[s] == q;
    }
    forall x | x in m ensures m[x] != q { assert m[x] in m.Values; }
  }

  lemma EmptyCopy(m: map<State, State>, src: Nfa, states: set<State>, trans: set<Edge>)
    requires m == map[]
    ensures Naming(m, states, states, src.states) && Copied(m, trans, trans, {})
    ensures forall s :: ImageStates(m, s) == {}
  {
  }

  lemma CopyDone(src: Nfa, m: map<State, State>, states: set<State>, trans: set<Edge>, a: Nfa, done: set<Edge>,
                 rest: set<State>)
    requires WellFormed(a) && WellFormed(src) && rest == {} && src.states - rest <= m.Keys
    requires Naming(m, states, a.states, src.states) && Copied(m, trans, a.trans, done)
    requires done == set e | e in src.trans && e.src !in rest
    ensures Copies(m, src, a.states) && states == a.states + m.Values && trans == a.trans + Image(m, src.trans)
    ensures WellFormed(Nfa(states, trans, a.initial, a.finals))
    ensures src.initial - rest == src.initial && src.finals - rest == src.finals
  {
    hide Injective, Image;
    assert done == src.trans;
    CopyValid(a, src, m);
  }

  lemma SameImage(m: map<State, State>, n: map<State, State>, t: set<Edge>)
    requires Extends(m, n) && Within(m, t)
    ensures Image(n, t) == Image(m, t) && Within(n, t)
  {
    forall x ensures x in Image(n, t) <==> x in Image(m, t) {
      if x in Image(n, t) {
        var e :| e in t && e.src in n && e.dst in n && x == Edge(n[e.src], e.sym, n[e.dst]);
        assert e.src in m && e.dst in m;
      }
    }
  }

  lemma OneMoreImage(m: map<State, State>, trans: set<Edge>, before: set<Edge>, done: set<Edge>, e: Edge)
    requires Copied(m, trans, before, done) && e.src in m && e.dst in m
    ensures Copied(m, trans + {Edge(m[e.src], e.sym, m[e.dst])}, before, done + {e})
  {
    assert Image(m, done + {e}) == Image(m, done) + {Edge(m[e.src], e.sym, m[e.dst])};
  }

  lemma SameImages(m: map<State, State>, n: map<State, State>, s: set<State>)
    requires Extends(m, n) && s <= m.Keys
    ensures ImageStates(n, s) == ImageStates(m, s)
  {
    forall x ensures x in ImageStates(n, s) <==> x in ImageStates(m, s) {
      if x in ImageStates(n, s) {
        var y :| y in s && y in n && x == n[y];
        assert y in m;
      }
    }
  }

  lemma MoreImages(m: map<State, State>, n: map<State, State>, all: set<State>, rest: set<State>, s: State, q: State)
    requires Extends(m, n) && s in rest && s in n && n[s] == q && all - rest <= m.Keys
    ensures ImageStates(n, all - (rest - {s})) == ImageStates(m, all - rest) + (if s in all then {q} else {})
  {
    assert all - (rest - {s}) == all - rest + (if s in all then {s} else {});
    SameImages(m, n, all - rest);
  }

  lemma CopyValid(a: Nfa, src: Nfa, m: map<State, State>)
    requires WellFormed(a) && WellFormed(src) && m.Keys == src.states
    ensures WellFormed(Nfa(a.states + m.Values, a.trans + Image(m, src.trans), a.initial, a.finals))
  {
    forall e | e in Image(m, src.trans) ensures e.src in m.Values && e.dst in m.Values {
      var f :| f in src.trans && f.src in m && f.dst in m && e == Edge(m[f.src], f.sym, m[f.dst]);
    }
  }

  /** A run of the original under its new names. */
  lemma {:induction false} CopyChain(t: set<Edge>, m: map<State, State>, u: State, es: seq<Edge>, v: State)
    requires Chain(t, u, es, v) && Within(m, t) && u in m
    ensures v in m && Goes(Image(m, t), m[u], Word(es), m[v])
    decreases |es|
  {
    hide Goes;
    if |es| == 0 { GoesNowhere(Image(m, t), m[u]); }
    else {
      CopyChain(t, m, es[0].dst, es[1..], v);
      var e := Edge(m[u], es[0].sym, m[es[0].dst]);
      GoesEdge(Image(m, t), e);
      GoesAppend(Image(m, t), m[u], Label(e.sym), e.dst, Word(es[1..]), m[v]);
    }
  }

  /** A run of the copy, back under the old names. */
  lemma {:induction false} CopyBack(t: set<Edge>, m: map<State, State>, u: State, es: seq<Edge>, v: State)
    requires u in m && Chain(Image(m, t), m[u], es, v) && Injective(m)
    ensures exists x :: x in m && m[x] == v && Goes(t, u, Word(es), x)
    decreases |es|
  {
    hide Goes;
    if |es| == 0 { GoesNowhere(t, u); }
    else {
      var e :| e in t && e.src in m && e.dst in m && es[0] == Edge(m[e.src], e.sym, m[e.dst]);
      assert e.src == u;
      CopyBack(t, m, e.dst, es[1..], v);
      var x :| x in m && m[x] == v && Goes(t, e.dst, Word(es[1..]), x);
      GoesEdge(t, e);
      GoesAppend(t, u, Label(e.sym), e.dst, Word(es[1..]), x);
    }
  }

  /** Renaming keeps the language. */
  lemma CopyLanguage(a: Nfa, b: Nfa, m: map<State, State>)
    requires WellFormed(a) && m.Keys == a.states && Injective(m) && b.trans == Image(m, a.trans)
    requires b.initial == ImageStates(m, a.initial) && b.finals == ImageStates(m, a.finals)
    ensures forall w :: Accepts(a, w) <==> Accepts(b, w)
  {
    hide Goes, Injective;
    forall w ensures Accepts(a, w) <==> Accepts(b, w) {
      if Accepts(a, w) {
        var i, f :| i in a.initial && f in a.finals && Goes(a.trans, i, w, f);
        CopyGoes(a.trans, m, i, w, f);
        assert m[i] in b.initial && m[f] in b.finals;
      }
      if Accepts(b, w) {
        var j, g :| j in b.initial && g in b.finals && Goes(b.trans, j, w, g);
        var i :| i in a.initial && i in m && j == m[i];
        var f := CopyReturns(a.trans, m, i, w, g);
        var h :| h in a.finals && h in m && g == m[h];
        SameName(m, f, h);
      }
    }
  }

  /** Renaming a state that is not dead does not make it dead. */
  lemma CopyAlive(a: Nfa, b: Nfa, m: map<State, State>, x: State)
    requires WellFormed(a) && m.Keys == a.states && Injective(m) && b.trans == Image(m, a.trans) && x in a.states
    requires b.initial == ImageStates(m, a.initial) && b.finals == ImageStates(m, a.finals) && !Dead(a, x)
    ensures !Dead(b, m[x])
  {
    if x in a.initial { assert m[x] in b.initial; }
    else {
      var e :| e in a.trans && e.dst == x;
      assert Edge(m[e.src], e.sym, m[e.dst]) in b.trans;
      if x in a.finals { assert m[x] in b.finals; }
      else {
        var o :| o in a.trans && o.src == x;
        assert Edge(m[o.src], o.sym, m[o.dst]) in b.trans;
      }
    }
  }

  lemma CopyDead(a: Nfa, b: Nfa, m: map<State, State>)
    requires WellFormed(a) && m.Keys == a.states && Injective(m) && b.trans == Image(m, a.trans) && b.states == m.Values
    requires b.initial == ImageStates(m, a.initial) && b.finals == ImageStates(m, a.finals)
    requires forall x :: x in a.states ==> !Dead(a, x)
    ensures forall s :: s in b.states ==> !Dead(b, s)
  {
    hide Dead;
    forall s | s in b.states ensures !Dead(b, s) {
      var x :| x in m && m[x] == s;
      CopyAlive(a, b, m, x);
    }
  }

  lemma SameName(m: map<State, State>, x: State, y: State)
    requires Injective(m) && x in m && y in m && m[x] == m[y]
    ensures x == y
  {
  }

  lemma CopyGoes(t: set<Edge>, m: map<State, State>, u: State, w: Symbols, v: State)
    requires Goes(t, u, w, v) && Within(m, t) && u in m
    ensures v in m && Goes(Image(m, t), m[u], w, m[v])
  {
    var es :| Chain(t, u, es, v) && Word(es) == w;
    CopyChain(t, m, u, es, v);
  }

  lemma CopyReturns(t: set<Edge>, m: map<State, State>, u: State, w: Symbols, v: State) returns (x: State)
    requires u in m && Goes(Image(m, t), m[u], w, v) && Injective(m)
    ensures x in m && m[x] == v && Goes(t, u, w, x)
  {
    var es :| Chain(Image(m, t), m[u], es, v) && Word(es) == w;
    CopyBack(t, m, u, es, v);
    x :| x in m && m[x] == v && Goes(t, u, Word(es), x);
  }

  /** `number` and `state` are inverse bijections between some states and the numbers below `n`. */
  ghost predicate Numbered(number: map<State, nat>, state: map<nat, State>, n: nat) {
    && (forall k :: k in state <==> 0 <= k < n)
    && (forall s {:trigger number[s]} :: s in number ==> number[s] in state && state[number[s]] == s)
    && (forall k {:trigger state[k]} :: k in state ==> state[k] in number && number[state[k]] == k)
  }

  lemma NumberOne(number: map<State, nat>, state: map<nat, State>, n: nat, s: State)
    requires Numbered(number, state, n) && s !in number
    ensures Numbered(number[s := n], state[n := s], n + 1)
  {
  }

  /** Numbers the states from 0 without gaps. */
  method CompactStateNumbers(a: Nfa) returns (number: map<State, nat>, state: map<nat, State>, finals: set<nat>)
    requires WellFormed(a)
    ensures number.Keys == a.states && Numbered(number, state, |a.states|)
    ensures forall k :: k in finals <==> k in state && state[k] in a.finals
  {
    hide Numbered;
    number, state, finals := map[], map[], {};
    var rest, idx := a.states, 0;
    assert Numbered(number, state, 0) by { NumberNone(number, state); }
    while rest != {}
      invariant rest <= a.states && idx + |rest| == |a.states|
      invariant number.Keys == a.states - rest && Numbered(number, state, idx)
      invariant forall k :: k in finals <==> k in state && state[k] in a.finals
    {
      var s :| s in rest;
      rest := rest - {s};
      NumberOne(number, state, idx, s);
      NotYet(number, state, idx);
      number, state := number[s := idx], state[idx := s];
      if s in a.finals { finals := finals + {idx}; }
      idx := idx + 1;
    }
  }

  lemma NumberNone(number: map<State, nat>, state: map<nat, State>)
    requires number == map[] && state == map[]
    ensures Numbered(number, state, 0)
  {
  }

  lemma NotYet(number: map<State, nat>, state: map<nat, State>, n: nat)
    requires Numbered(number, state, n)
    ensures n !in state
  {
  }
}
