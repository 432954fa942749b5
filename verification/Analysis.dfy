/** Conflict analysis on values: the resolvent kept in `seen` and the learnt tail, clause
    minimisation through shared marks, and the final conflict in terms of assumptions. */
module Analysis {
  import opened Cnf
  import opened Trails
  import opened Watches
  import opened Propagation

  ghost function Lits(ls: seq<Lit>): set<Lit> { set l | l in ls }

  ghost predicate Clear(seen: seq<bool>) { forall v: Var {:trigger SeenAt(seen, v)} :: !SeenAt(seen, v) }

  ghost predicate SubLits(xs: seq<Lit>, ys: seq<Lit>) { forall l :: l in xs ==> l in ys }

  lemma SubLitsNone(ys: seq<Lit>)
    ensures SubLits([], ys)
  {
  }

  lemma SubLitsMore(xs: seq<Lit>, ys: seq<Lit>, i: nat)
    requires SubLits(xs, ys) && i < |ys|
    ensures SubLits(xs + [ys[i]], ys)
  {
  }

  lemma VarsTail(first: Lit, tail: seq<Lit>, n: nat)
    requires VarsBelow([first] + tail, n)
    ensures VarsBelow(tail, n)
  {
    forall l | l in tail ensures l.v < n { assert l in [first] + tail; }
  }

  ghost predicate SeenAt(seen: seq<bool>, v: Var) { v < |seen| && seen[v] }

  /** Trail index `k` carries a marked literal of the current decision level. */
  ghost predicate Pending(t: Trail, seen: seq<bool>, k: nat) {
    k < |t.lits| && SeenAt(seen, t.lits[k].v) && Lev(t, t.lits[k]) == |t.lim|
  }

  /** `a` satisfies the current resolvent: a tail literal, or the negation of a pending literal below `hi`. */
  ghost predicate Holds(a: Valuation, t: Trail, tail: seq<Lit>, seen: seq<bool>, hi: nat) {
    || (exists l :: l in tail && True(a, l))
    || (exists k {:trigger Pending(t, seen, k)} :: 0 <= k < hi && Pending(t, seen, k) && !True(a, t.lits[k]))
  }

  ghost predicate Resolvent(f: set<Clause>, t: Trail, tail: seq<Lit>, seen: seq<bool>, hi: nat) {
    forall a {:trigger Models(a, f)} :: Models(a, f) ==> Holds(a, t, tail, seen, hi)
  }

  /** A marked variable: assigned above the root, pending below `hi` or in the tail. */
  ghost predicate MarkAt(t: Trail, tail: seq<Lit>, hi: nat, v: Var) {
    && v < |t.assigns| && t.assigns[v] != LUndef && v < |t.level| && v < |t.pos| && t.level[v] > 0
    && (t.level[v] == |t.lim| ==> t.pos[v] < hi)
    && (t.level[v] != |t.lim| ==> exists l :: l in tail && l.v == v)
  }

  ghost predicate TailAt(t: Trail, seen: seq<bool>, l: Lit) {
    Val(t.assigns, l) == LFalse && 0 < Lev(t, l) < |t.lim| && SeenAt(seen, l.v)
  }

  ghost predicate DistinctVars(ls: seq<Lit>) { forall i, j :: 0 <= i < j < |ls| ==> ls[i].v != ls[j].v }

  /** `seen` marks the tail and the pending literals of the current level, whose variables are `pend`. */
  ghost predicate SeenOk(t: Trail, tail: seq<Lit>, seen: seq<bool>, hi: nat, pend: set<Var>) {
    && |seen| == |t.assigns| && hi <= |t.lits|
    && (forall v: Var {:trigger SeenAt(seen, v)} :: SeenAt(seen, v) ==> MarkAt(t, tail, hi, v))
    && (forall l {:trigger TailAt(t, seen, l)} :: l in tail ==> TailAt(t, seen, l))
    && DistinctVars(tail)
    && (forall v: Var :: v in pend <==> SeenAt(seen, v) && v < |t.level| && t.level[v] == |t.lim|)
  }

  /** From literal `start` on, every literal of `c` is false at the root or marked. */
  ghost predicate Marked(t: Trail, seen: seq<bool>, c: Clause, start: nat, n: nat) {
    forall j {:trigger c[j]} :: start <= j < n && j < |c| ==> Lev(t, c[j]) == 0 || SeenAt(seen, c[j].v)
  }

  ghost predicate FalseBelow(t: Trail, c: Clause, start: nat, hi: nat) {
    forall j {:trigger c[j]} :: start <= j < |c| ==> Val(t.assigns, c[j]) == LFalse && Pos(t, c[j]) < hi
  }

  /** Marking one more false literal `q`. */
  lemma MarkStep(t: Trail, tail: seq<Lit>, seen: seq<bool>, hi: nat, pend: set<Var>, q: Lit)
    requires TrailOk(t) && SeenOk(t, tail, seen, hi, pend) && Val(t.assigns, q) == LFalse && Pos(t, q) < hi
    requires !SeenAt(seen, q.v) && Lev(t, q) > 0
    ensures Lev(t, q) >= |t.lim| ==> SeenOk(t, tail, seen[q.v := true], hi, pend + {q.v}) && q.v !in pend
    ensures Lev(t, q) < |t.lim| ==> SeenOk(t, tail + [q], seen[q.v := true], hi, pend)
  {
    LevelBound(t, q);
    var seen' := seen[q.v := true];
    var tail' := if Lev(t, q) < |t.lim| then tail + [q] else tail;
    forall v | SeenAt(seen', v) ensures MarkAt(t, tail', hi, v) {
      if v != q.v { assert SeenAt(seen, v); }
      else if Lev(t, q) < |t.lim| { assert q in tail'; }
    }
    forall l | l in tail' ensures TailAt(t, seen', l) {
      if l in tail { assert TailAt(t, seen, l); }
    }
    forall i | 0 <= i < |tail| ensures tail[i].v != q.v {
      assert tail[i] in tail && TailAt(t, seen, tail[i]);
    }
  }

  /** A model of the formula that satisfies `c` through a literal from `start` on satisfies the resolvent. */
  lemma HoldsClause(f: set<Clause>, t: Trail, tail: seq<Lit>, seen: seq<bool>, hi: nat, pend: set<Var>, c: Clause,
                    start: nat, a: Valuation, j: nat)
    requires TrailOk(t) && Units(f, t) && SeenOk(t, tail, seen, hi, pend) && Models(a, f)
    requires Marked(t, seen, c, start, |c|) && FalseBelow(t, c, start, hi)
    requires start <= j < |c| && True(a, c[j])
    ensures Holds(a, t, tail, seen, hi)
  {
    var l := c[j];
    AssignedPos(t, l);
    LevelBound(t, l);
    if Lev(t, l) == 0 { RootFalse(f, t, l, a); }
    else if Lev(t, l) == |t.lim| { assert Pending(t, seen, Pos(t, l)); }
    else {
      assert SeenAt(seen, l.v) && MarkAt(t, tail, hi, l.v);
      var l' :| l' in tail && l'.v == l.v;
      assert TailAt(t, seen, l');
      assert l' == l;
    }
  }

  /** The conflict clause itself is the first resolvent. */
  lemma FirstResolvent(f: set<Clause>, t: Trail, tail: seq<Lit>, seen: seq<bool>, pend: set<Var>, c: Clause)
    requires TrailOk(t) && Units(f, t) && SeenOk(t, tail, seen, |t.lits|, pend) && Implied(f, c)
    requires Marked(t, seen, c, 0, |c|) && FalseBelow(t, c, 0, |t.lits|)
    ensures Resolvent(f, t, tail, seen, |t.lits|)
  {
    hide TrailOk, Units, SeenOk, Holds;
    forall a | Models(a, f) ensures Holds(a, t, tail, seen, |t.lits|) {
      assert Sat(a, c);
      var l :| l in c && True(a, l);
      var j :| 0 <= j < |c| && c[j] == l;
      HoldsClause(f, t, tail, seen, |t.lits|, pend, c, 0, a, j);
    }
  }

  /** Nothing is pending between `i` and `hi`. */
  ghost predicate NonePending(t: Trail, seen: seq<bool>, i: nat, hi: nat) {
    forall k {:trigger t.lits[k]} :: i <= k < hi && k < |t.lits| ==> !SeenAt(seen, t.lits[k].v)
  }

  lemma SkipUnseen(f: set<Clause>, t: Trail, tail: seq<Lit>, seen: seq<bool>, i: nat, hi: nat)
    requires Resolvent(f, t, tail, seen, hi) && i <= hi && NonePending(t, seen, i, hi)
    ensures Resolvent(f, t, tail, seen, i)
  {
    forall a | Models(a, f) ensures Holds(a, t, tail, seen, i) {
      assert Holds(a, t, tail, seen, hi);
    }
  }

  /** Resolving on the literal at index `i` with its reason `c`. */
  lemma Resolve(f: set<Clause>, t: Trail, tail: seq<Lit>, seen: seq<bool>, i: nat,
                tail': seq<Lit>, seen': seq<bool>, pend': set<Var>, c: Clause)
    requires TrailOk(t) && Units(f, t) && Implied(f, c) && i < |t.lits| && Propagating(t, c, i)
    requires Resolvent(f, t, tail, seen, i + 1)
    requires tail <= tail' && SeenOk(t, tail', seen', i, pend')
    requires forall v: Var :: SeenAt(seen, v) && v != t.lits[i].v ==> SeenAt(seen', v)
    requires Marked(t, seen', c, 1, |c|)
    ensures Resolvent(f, t, tail', seen', i)
  {
    hide Units, SeenOk, Marked, Holds;
    forall a | Models(a, f) ensures Holds(a, t, tail', seen', i) {
      assert Holds(a, t, tail, seen, i + 1);
      if True(a, t.lits[i]) || !Pending(t, seen, i) {
        HoldsBelow(a, t, tail, seen, i, tail', seen');
      } else {
        assert Sat(a, c);
        var l :| l in c && True(a, l);
        var j :| 0 <= j < |c| && c[j] == l;
        HoldsClause(f, t, tail', seen', i, pend', c, 1, a, j);
      }
    }
  }

  lemma HoldsBelow(a: Valuation, t: Trail, tail: seq<Lit>, seen: seq<bool>, i: nat, tail': seq<Lit>, seen': seq<bool>)
    requires TrailOk(t) && i < |t.lits| && Holds(a, t, tail, seen, i + 1) && tail <= tail'
    requires True(a, t.lits[i]) || !Pending(t, seen, i)
    requires forall v: Var :: SeenAt(seen, v) && v != t.lits[i].v ==> SeenAt(seen', v)
    ensures Holds(a, t, tail', seen', i)
  {
    if l :| l in tail && True(a, l) { assert l in tail'; }
    else {
      var k: nat :| 0 <= k < i + 1 && Pending(t, seen, k) && !True(a, t.lits[k]);
      assert OnTrail(t, k) && OnTrail(t, i);
      assert Pending(t, seen', k);
    }
  }

  /** With one pending literal left, its negation and the tail form an implied clause. */
  lemma UipClause(f: set<Clause>, t: Trail, tail: seq<Lit>, seen: seq<bool>, i: nat)
    requires i < |t.lits| && Resolvent(f, t, tail, seen, i + 1)
    requires forall k {:trigger Pending(t, seen, k)} :: 0 <= k < i ==> !Pending(t, seen, k)
    ensures Implied(f, [t.lits[i].Not()] + tail)
  {
    var c := [t.lits[i].Not()] + tail;
    forall a | Models(a, f) ensures Sat(a, c) {
      assert Holds(a, t, tail, seen, i + 1);
      if l :| l in tail && True(a, l) { assert l in c; }
      else { assert c[0] in c; }
    }
  }

  // ---------- bookkeeping of the marks ----------

  lemma MarkNone(t: Trail, seen: seq<bool>, c: Clause, start: nat)
    ensures Marked(t, seen, c, start, start)
  {
  }

  /** What marking literal `j` of `c` keeps. */
  lemma MarkNext(t: Trail, tail: seq<Lit>, seen: seq<bool>, hi: nat, pend: set<Var>, c: Clause, start: nat, j: nat)
    requires TrailOk(t) && SeenOk(t, tail, seen, hi, pend) && FalseBelow(t, c, start, hi) && start <= j < |c|
    requires Marked(t, seen, c, start, j)
    ensures c[j].v < |seen| && |seen| == |t.assigns| == |t.level|
    ensures seen[c[j].v] || t.level[c[j].v] == 0 ==> Marked(t, seen, c, start, j + 1)
    ensures !seen[c[j].v] && t.level[c[j].v] > 0 ==>
      var marked := seen[c[j].v := true];
      Marked(t, marked, c, start, j + 1) && (forall v: Var :: SeenAt(seen, v) ==> SeenAt(marked, v))
      && if t.level[c[j].v] >= |t.lim| then SeenOk(t, tail, marked, hi, pend + {c[j].v}) && c[j].v !in pend
         else SeenOk(t, tail + [c[j]], marked, hi, pend)
  {
    hide TrailOk, SeenOk;
    SeenSizes(t, tail, seen, hi, pend, c[j]);
    if !seen[c[j].v] && t.level[c[j].v] > 0 { MarkStep(t, tail, seen, hi, pend, c[j]); }
  }

  lemma SeenSizes(t: Trail, tail: seq<Lit>, seen: seq<bool>, hi: nat, pend: set<Var>, q: Lit)
    requires TrailOk(t) && SeenOk(t, tail, seen, hi, pend) && Val(t.assigns, q) == LFalse
    ensures q.v < |seen| && |seen| == |t.assigns| == |t.level| == |t.pos| == |t.reason|
  {
  }

  lemma NothingSeen(t: Trail, seen: seq<bool>)
    requires |seen| == |t.assigns| && Clear(seen)
    ensures SeenOk(t, [], seen, |t.lits|, {})
  {
  }

  lemma ConflictBelow(t: Trail, c: Clause)
    requires TrailOk(t) && forall k :: 0 <= k < |c| ==> Val(t.assigns, c[k]) == LFalse
    ensures FalseBelow(t, c, 0, |t.lits|)
  {
    forall j | 0 <= j < |c| ensures Pos(t, c[j]) < |t.lits| { AssignedPos(t, c[j]); }
  }

  lemma SoundAt(f: set<Clause>, ca: seq<Clause>, cr: CRef)
    requires Sound(f, ca) && cr < |ca|
    ensures Implied(f, ca[cr])
  {
    assert Implied(f, ca[cr]);
  }

  lemma PendingTop(t: Trail, tail: seq<Lit>, seen: seq<bool>, hi: nat, pend: set<Var>, c: Clause)
    requires TrailOk(t) && SeenOk(t, tail, seen, hi, pend) && Marked(t, seen, c, 0, |c|) && |t.lim| > 0
    requires |c| >= 2 && Lev(t, c[1]) == |t.lim|
    ensures pend != {}
  {
    assert c[1].v in pend;
  }

  /** The last marked index holds a literal of the current level. */
  lemma TopMarked(t: Trail, tail: seq<Lit>, seen: seq<bool>, hi: nat, pend: set<Var>, i: nat, x: Var)
    requires TrailOk(t) && SeenOk(t, tail, seen, hi, pend) && x in pend && |t.lim| > 0
    requires i < hi && t.pos[x] <= i && SeenAt(seen, t.lits[i].v) && NonePending(t, seen, i + 1, hi)
    ensures t.lits[i].v in pend && SeenOk(t, tail, seen, i + 1, pend)
  {
    assert OnTrail(t, i) && OnTrail(t, t.pos[x]);
    assert SeenAt(seen, x) && MarkAt(t, tail, hi, x);
    AssignedPos(t, Lit(x, false));
    LevelMono(t.lim, |t.lits|, t.pos[x], i, t.level[x], Lev(t, t.lits[i]));
    forall v: Var | SeenAt(seen, v) ensures MarkAt(t, tail, i + 1, v) {
      assert MarkAt(t, tail, hi, v);
      AssignedPos(t, Lit(v, false));
      assert t.lits[t.pos[v]].v == v;
    }
  }

  lemma Unmark(t: Trail, tail: seq<Lit>, seen: seq<bool>, i: nat, pend: set<Var>)
    requires TrailOk(t) && i < |t.lits| && SeenOk(t, tail, seen, i + 1, pend) && t.lits[i].v in pend
    ensures t.lits[i].v < |seen| && SeenOk(t, tail, seen[t.lits[i].v := false], i, pend - {t.lits[i].v})
    ensures Val(t.assigns, t.lits[i]) == LTrue && Lev(t, t.lits[i]) == |t.lim|
    ensures |pend - {t.lits[i].v}| == |pend| - 1
  {
    var p := t.lits[i];
    assert OnTrail(t, i) && SeenAt(seen, p.v);
    var seen' := seen[p.v := false];
    forall v: Var | SeenAt(seen', v) ensures MarkAt(t, tail, i, v) {
      assert SeenAt(seen, v) && MarkAt(t, tail, i + 1, v);
      AssignedPos(t, Lit(v, false));
    }
    forall l | l in tail ensures TailAt(t, seen', l) { assert TailAt(t, seen, l); }
  }

  lemma LastPending(t: Trail, tail: seq<Lit>, seen: seq<bool>, seen': seq<bool>, i: nat, pend: set<Var>)
    requires TrailOk(t) && i < |t.lits| && |pend| == 0 && SeenOk(t, tail, seen', i, pend)
    requires t.lits[i].v < |seen| && seen' == seen[t.lits[i].v := false]
    ensures forall k {:trigger Pending(t, seen, k)} :: 0 <= k < i ==> !Pending(t, seen, k)
    ensures pend == {}
  {
    forall k: nat | 0 <= k < i ensures !Pending(t, seen, k) {
      assert OnTrail(t, k) && OnTrail(t, i);
      assert SeenAt(seen', t.lits[k].v) ==> !Pending(t, seen, k);
    }
  }

  lemma SeenWiden(t: Trail, tail: seq<Lit>, seen: seq<bool>, i: nat)
    requires SeenOk(t, tail, seen, i, {})
    ensures SeenOk(t, tail, seen, |t.lits|, {})
  {
    forall v: Var | SeenAt(seen, v) ensures MarkAt(t, tail, |t.lits|, v) { assert MarkAt(t, tail, i, v); }
  }

  /** While literals of the level are pending below it, a literal of the level has a reason. */
  lemma HasReason(t: Trail, ca: seq<Clause>, mark: seq<bool>, tail: seq<Lit>, seen: seq<bool>, i: nat, pend: set<Var>)
    requires TrailOk(t) && ReasonOk(t, ca, mark) && i < |t.lits| && Lev(t, t.lits[i]) == |t.lim| > 0
    requires SeenOk(t, tail, seen, i, pend) && pend != {}
    ensures t.lits[i].v < |t.reason| && t.reason[t.lits[i].v].Some? && t.reason[t.lits[i].v].value < |ca|
    ensures var c := ca[t.reason[t.lits[i].v].value];
      Propagating(t, c, i) && FalseBelow(t, c, 1, i)
  {
    var x :| x in pend;
    assert SeenAt(seen, x) && MarkAt(t, tail, i, x);
    AssignedPos(t, Lit(x, false));
    assert ReasonAt(t, ca, mark, i) && OnTrail(t, i);
  }

  // ---------- minimisation ----------

  /** The reason of `v` has only marked or root-level literals besides the first. */
  ghost predicate Closed(t: Trail, ca: seq<Clause>, seen: seq<bool>, v: Var) {
    && v < |t.reason| && t.reason[v].Some? && t.reason[v].value < |ca|
    && Marked(t, seen, ca[t.reason[v].value], 1, |ca[t.reason[v].value]|)
  }

  lemma ClosedGrow(t: Trail, ca: seq<Clause>, seen: seq<bool>, seen': seq<bool>, v: Var)
    requires Closed(t, ca, seen, v) && forall x: Var :: SeenAt(seen, x) ==> SeenAt(seen', x)
    ensures Closed(t, ca, seen', v)
  {
  }

  /** Every marked variable is assigned, and is either closed or one of `keep`. */
  ghost predicate MinOk(t: Trail, ca: seq<Clause>, seen: seq<bool>, keep: seq<Lit>) {
    forall v: Var {:trigger SeenAt(seen, v)} :: SeenAt(seen, v) ==>
      && v < |t.assigns| && t.assigns[v] != LUndef
      && (Closed(t, ca, seen, v) || exists l :: l in keep && l.v == v)
  }

  /** In a model that falsifies `keep`, every marked literal of the trail is true: by induction
      along the trail, through the reasons. */
  lemma {:induction false} MarkedTrue(f: set<Clause>, t: Trail, ca: seq<Clause>, mark: seq<bool>, seen: seq<bool>,
                                      keep: seq<Lit>, a: Valuation, i: nat)
    requires TrailOk(t) && ReasonOk(t, ca, mark) && Units(f, t) && Sound(f, ca) && Models(a, f)
    requires MinOk(t, ca, seen, keep) && i < |t.lits| && SeenAt(seen, t.lits[i].v)
    requires forall l :: l in keep ==> !True(a, l) && Val(t.assigns, l) == LFalse
    ensures True(a, t.lits[i])
    decreases i
  {
    var v := t.lits[i].v;
    assert OnTrail(t, i);
    if l :| l in keep && l.v == v {
      AssignedPos(t, l);
    } else {
      assert ReasonAt(t, ca, mark, i) && Closed(t, ca, seen, v);
      var c := ca[t.reason[v].value];
      assert Implied(f, c);
      assert Sat(a, c);
      var l :| l in c && True(a, l);
      var j :| 0 <= j < |c| && c[j] == l;
      if j > 0 {
        if Lev(t, l) == 0 { RootFalse(f, t, l, a); }
        else {
          AssignedPos(t, l);
          MarkedTrue(f, t, ca, mark, seen, keep, a, Pos(t, l));
        }
      }
    }
  }

  /** Dropping closed literals keeps the clause implied. */
  lemma MinimizeSound(f: set<Clause>, t: Trail, ca: seq<Clause>, mark: seq<bool>, seen: seq<bool>, first: Lit,
                      all: seq<Lit>, keep: seq<Lit>)
    requires TrailOk(t) && ReasonOk(t, ca, mark) && Units(f, t) && Sound(f, ca)
    requires Implied(f, [first] + all) && MinOk(t, ca, seen, keep)
    requires forall l :: l in all ==> Val(t.assigns, l) == LFalse && SeenAt(seen, l.v)
    requires SubLits(keep, all)
    ensures Implied(f, [first] + keep)
  {
    forall a | Models(a, f) ensures Sat(a, [first] + keep) {
      var l :| l in [first] + all && True(a, l);
      if l == first { assert first in [first] + keep; }
      else if forall k :: k in keep ==> !True(a, k) {
        AssignedPos(t, l);
        MarkedTrue(f, t, ca, mark, seen, keep, a, Pos(t, l));
      } else {
        var k :| k in keep && True(a, k);
        assert k in [first] + keep;
      }
    }
  }

  /** Every marked variable is on the list to be cleared. */
  ghost predicate ToClear(seen: seq<bool>, toclear: seq<Lit>) {
    forall v: Var {:trigger SeenAt(seen, v)} :: SeenAt(seen, v) ==> exists l :: l in toclear && l.v == v
  }

  /** A false literal with a reason clause. */
  ghost predicate OpenAt(t: Trail, l: Lit) {
    Val(t.assigns, l) == LFalse && l.v < |t.reason| && t.reason[l.v].Some?
  }

  ghost predicate NewAt(t: Trail, ca: seq<Clause>, seen: seq<bool>, open: set<Lit>, marks: seq<Lit>, v: Var) {
    && v < |t.assigns| && t.assigns[v] != LUndef
    && (Closed(t, ca, seen, v) || exists l :: l in open && l.v == v)
    && (exists l :: l in marks && l.v == v)
  }

  /** During a redundancy check that started from `seen0`: the new marks are listed in `marks`, and
      each is closed or still `open`. */
  ghost predicate RedOk(t: Trail, ca: seq<Clause>, seen0: seq<bool>, seen: seq<bool>, open: set<Lit>, marks: seq<Lit>) {
    && |seen| == |seen0| == |t.assigns|
    && (forall v: Var {:trigger SeenAt(seen0, v)} :: SeenAt(seen0, v) ==> SeenAt(seen, v))
    && (forall v: Var {:trigger SeenAt(seen, v)} ::
          SeenAt(seen, v) && !SeenAt(seen0, v) ==> NewAt(t, ca, seen, open, marks, v))
    && (forall l {:trigger l in marks} :: l in marks ==> SeenAt(seen, l.v) && !SeenAt(seen0, l.v))
    && (forall l {:trigger l in open} :: l in open ==> OpenAt(t, l))
  }

  lemma RedStart(t: Trail, ca: seq<Clause>, seen: seq<bool>, p: Lit)
    requires |seen| == |t.assigns| && OpenAt(t, p)
    ensures RedOk(t, ca, seen, seen, {p}, [])
  {
  }

  lemma RedPush(t: Trail, ca: seq<Clause>, seen0: seq<bool>, seen: seq<bool>, open: set<Lit>, marks: seq<Lit>, r: Lit)
    requires RedOk(t, ca, seen0, seen, open, marks) && OpenAt(t, r) && !SeenAt(seen, r.v) && r.v < |seen|
    ensures RedOk(t, ca, seen0, seen[r.v := true], open + {r}, marks + [r])
  {
    var seen', open', marks' := seen[r.v := true], open + {r}, marks + [r];
    forall v: Var | SeenAt(seen, v) ensures SeenAt(seen', v) { }
    forall v: Var | SeenAt(seen', v) && !SeenAt(seen0, v) ensures NewAt(t, ca, seen', open', marks', v) {
      if v == r.v { assert r in open' && r in marks'; }
      else {
        assert SeenAt(seen, v) && NewAt(t, ca, seen, open, marks, v);
        if Closed(t, ca, seen, v) { ClosedGrow(t, ca, seen, seen', v); }
      }
    }
    forall l | l in marks' ensures SeenAt(seen', l.v) && !SeenAt(seen0, l.v) {
      if l in marks { } else { assert l == r; }
    }
  }

  /** Once its whole reason is marked, `q` is closed. */
  lemma RedClose(t: Trail, ca: seq<Clause>, seen0: seq<bool>, seen: seq<bool>, open: set<Lit>, marks: seq<Lit>, q: Lit)
    requires RedOk(t, ca, seen0, seen, open + {q}, marks) && Closed(t, ca, seen, q.v) && OpenAt(t, q)
    ensures RedOk(t, ca, seen0, seen, open, marks)
  {
    forall v: Var | SeenAt(seen, v) && !SeenAt(seen0, v) ensures NewAt(t, ca, seen, open, marks, v) {
      assert NewAt(t, ca, seen, open + {q}, marks, v);
    }
    forall l | l in open ensures OpenAt(t, l) { assert l in open + {q}; }
  }

  lemma RedOpen(t: Trail, ca: seq<Clause>, seen0: seq<bool>, seen: seq<bool>, open: set<Lit>, marks: seq<Lit>, q: Lit)
    requires RedOk(t, ca, seen0, seen, open, marks) && q in open
    ensures OpenAt(t, q)
  {
  }

  lemma TrailSizes(t: Trail)
    requires TrailOk(t)
    ensures |t.assigns| == |t.level| == |t.reason| == |t.pos|
  {
  }

  lemma OpenReason(t: Trail, ca: seq<Clause>, mark: seq<bool>, q: Lit)
    requires TrailOk(t) && ReasonOk(t, ca, mark) && OpenAt(t, q)
    ensures t.reason[q.v].value < |ca| && Propagating(t, ca[t.reason[q.v].value], Pos(t, q))
    ensures FalseBelow(t, ca[t.reason[q.v].value], 1, |t.lits|)
  {
    AssignedPos(t, q);
    assert ReasonAt(t, ca, mark, Pos(t, q));
  }

  /** A finished check leaves marks the minimisation can rely on. */
  lemma RedDone(t: Trail, ca: seq<Clause>, seen0: seq<bool>, seen: seq<bool>, marks: seq<Lit>, keep: seq<Lit>,
                toclear: seq<Lit>)
    requires RedOk(t, ca, seen0, seen, {}, marks) && MinOk(t, ca, seen0, keep) && ToClear(seen0, toclear)
    ensures MinOk(t, ca, seen, keep) && ToClear(seen, toclear + marks)
  {
    forall v: Var | SeenAt(seen, v)
      ensures v < |t.assigns| && t.assigns[v] != LUndef
        && (Closed(t, ca, seen, v) || exists l :: l in keep && l.v == v)
      ensures exists l :: l in toclear + marks && l.v == v
    {
      if SeenAt(seen0, v) {
        if Closed(t, ca, seen0, v) { ClosedGrow(t, ca, seen0, seen, v); }
        var l :| l in toclear && l.v == v;
        assert l in toclear + marks;
      } else {
        assert NewAt(t, ca, seen, {}, marks, v);
        var l :| l in marks && l.v == v;
        assert l in toclear + marks;
      }
    }
  }

  lemma RedUndo(t: Trail, ca: seq<Clause>, seen0: seq<bool>, seen: seq<bool>, open: set<Lit>, marks: seq<Lit>,
                seen': seq<bool>)
    requires RedOk(t, ca, seen0, seen, open, marks) && |seen'| == |seen|
    requires forall v :: 0 <= v < |seen| ==> (seen'[v] <==> seen[v] && forall l :: l in marks ==> l.v != v)
    ensures seen' == seen0
  {
    forall v | 0 <= v < |seen| ensures seen'[v] == seen0[v] {
      if seen[v] && !seen0[v] { assert SeenAt(seen, v) && !SeenAt(seen0, v) && NewAt(t, ca, seen, open, marks, v); }
      if seen0[v] { assert SeenAt(seen0, v) && SeenAt(seen, v); }
    }
  }

  /** Removing a closed literal from the clause being minimised. */
  lemma MinDrop(t: Trail, ca: seq<Clause>, seen: seq<bool>, keep: seq<Lit>, x: Lit, rest: seq<Lit>)
    requires MinOk(t, ca, seen, keep + [x] + rest) && Closed(t, ca, seen, x.v)
    requires DistinctVars(keep + [x] + rest)
    ensures MinOk(t, ca, seen, keep + rest) && DistinctVars(keep + rest)
  {
    var all := keep + [x] + rest;
    forall v: Var | SeenAt(seen, v)
      ensures v < |t.assigns| && t.assigns[v] != LUndef
        && (Closed(t, ca, seen, v) || exists l :: l in keep + rest && l.v == v)
    {
      if !Closed(t, ca, seen, v) {
        var l :| l in all && l.v == v;
        assert l in keep + rest;
      }
    }
    var less := keep + rest;
    forall i, j | 0 <= i < j < |less| ensures less[i].v != less[j].v {
      var i', j' := if i < |keep| then i else i + 1, if j < |keep| then j else j + 1;
      assert less[i] == all[i'] && less[j] == all[j'];
    }
  }

  // ---------- counting unmarked variables, for termination ----------

  ghost function Unmarked(seen: seq<bool>): nat {
    if |seen| == 0 then 0 else Unmarked(seen[..|seen| - 1]) + if seen[|seen| - 1] then 0 else 1
  }

  lemma {:induction false} UnmarkedDrops(seen: seq<bool>, v: Var)
    requires v < |seen| && !seen[v]
    ensures Unmarked(seen[v := true]) == Unmarked(seen) - 1
  {
    var s := seen[v := true];
    if v < |seen| - 1 {
      UnmarkedDrops(seen[..|seen| - 1], v);
      assert s[..|s| - 1] == seen[..|seen| - 1][v := true];
    } else {
      assert s[..|s| - 1] == seen[..|seen| - 1];
    }
  }

  // ---------- the final conflict ----------

  /** Marked trail literals below `hi` are true in `a`. */
  ghost predicate BelowTrue(a: Valuation, t: Trail, seen: seq<bool>, hi: nat) {
    forall k {:trigger t.lits[k]} :: 0 <= k < hi && k < |t.lits| && SeenAt(seen, t.lits[k].v) ==> True(a, t.lits[k])
  }

  /** The marked literals below `hi` and the negations of `out` together force `p`. */
  ghost predicate Forces(f: set<Clause>, t: Trail, seen: seq<bool>, hi: nat, out: seq<Lit>, p: Lit) {
    forall a {:trigger Models(a, f)} ::
      Models(a, f) && (forall l :: l in out ==> !True(a, l)) && BelowTrue(a, t, seen, hi) ==> True(a, p)
  }

  lemma ForcesDecision(f: set<Clause>, t: Trail, seen: seq<bool>, i: nat, out: seq<Lit>, p: Lit)
    requires TrailOk(t) && i < |t.lits| && |seen| == |t.assigns| && Forces(f, t, seen, i + 1, out, p)
    requires t.lits[i].v < |seen|
    ensures Forces(f, t, seen[t.lits[i].v := false], i, out + [t.lits[i].Not()], p)
  {
    assert OnTrail(t, i);
    var seen' := seen[t.lits[i].v := false];
    forall a | Models(a, f) && (forall l :: l in out + [t.lits[i].Not()] ==> !True(a, l)) && BelowTrue(a, t, seen', i)
      ensures True(a, p)
    {
      assert t.lits[i].Not() in out + [t.lits[i].Not()];
      forall k | 0 <= k < i + 1 && SeenAt(seen, t.lits[k].v) ensures True(a, t.lits[k]) {
        if k < i { assert OnTrail(t, k); assert SeenAt(seen', t.lits[k].v); }
      }
      assert forall l :: l in out ==> l in out + [t.lits[i].Not()];
    }
  }

  lemma ForcesSkip(f: set<Clause>, t: Trail, seen: seq<bool>, i: nat, out: seq<Lit>, p: Lit)
    requires i < |t.lits| && !SeenAt(seen, t.lits[i].v) && Forces(f, t, seen, i + 1, out, p)
    ensures Forces(f, t, seen, i, out, p)
  {
    forall a | Models(a, f) && (forall l :: l in out ==> !True(a, l)) && BelowTrue(a, t, seen, i) ensures True(a, p) {
      assert BelowTrue(a, t, seen, i + 1);
    }
  }

  lemma ForcesReason(f: set<Clause>, t: Trail, seen: seq<bool>, i: nat, out: seq<Lit>, p: Lit, c: Clause,
                     seen': seq<bool>)
    requires TrailOk(t) && Units(f, t) && i < |t.lits| && |seen| == |t.assigns| && Forces(f, t, seen, i + 1, out, p)
    requires Implied(f, c) && Propagating(t, c, i)
    requires Marked(t, seen', c, 1, |c|)
    requires forall v: Var :: SeenAt(seen, v) && v != t.lits[i].v ==> SeenAt(seen', v)
    ensures Forces(f, t, seen', i, out, p)
  {
    forall a | Models(a, f) && (forall l :: l in out ==> !True(a, l)) && BelowTrue(a, t, seen', i) ensures True(a, p) {
      ReasonForces(f, t, seen', i, c, a);
      forall k | 0 <= k < i + 1 && SeenAt(seen, t.lits[k].v) ensures True(a, t.lits[k]) {
        if k < i { assert OnTrail(t, k) && OnTrail(t, i); assert SeenAt(seen', t.lits[k].v); }
      }
      assert BelowTrue(a, t, seen, i + 1);
    }
  }

  lemma ReasonForces(f: set<Clause>, t: Trail, seen: seq<bool>, i: nat, c: Clause, a: Valuation)
    requires TrailOk(t) && Units(f, t) && i < |t.lits| && Implied(f, c) && Propagating(t, c, i)
    requires Marked(t, seen, c, 1, |c|) && Models(a, f) && BelowTrue(a, t, seen, i)
    ensures True(a, t.lits[i])
  {
    assert Sat(a, c);
    var l :| l in c && True(a, l);
    var j :| 0 <= j < |c| && c[j] == l;
    if j > 0 {
      AssignedPos(t, l);
      if Lev(t, l) == 0 { RootFalse(f, t, l, a); }
    }
  }

  // ---------- the learnt clause ----------

  /** What conflict analysis promises of the learnt clause: it is implied and false, its first
      literal alone belongs to the current level, and it becomes unit at level `bt`. */
  ghost predicate LearntOk(f: set<Clause>, t: Trail, learnt: Clause, bt: nat) {
    && Implied(f, learnt) && |learnt| >= 1 && bt < |t.lim| && DistinctVars(learnt)
    && Val(t.assigns, learnt[0]) == LFalse && Lev(t, learnt[0]) == |t.lim|
    && (forall k :: 1 <= k < |learnt| ==> Val(t.assigns, learnt[k]) == LFalse && 0 < Lev(t, learnt[k]) <= bt)
    && (if |learnt| == 1 then bt == 0 else Lev(t, learnt[1]) == bt)
  }

  lemma LearntLevel(f: set<Clause>, t: Trail, learnt: Clause, bt: nat)
    requires LearntOk(f, t, learnt, bt)
    ensures bt < |t.lim| && |learnt| >= 1 && Implied(f, learnt) && (|learnt| == 1 ==> bt == 0)
  {
  }

  lemma LearntFacts(t: Trail, tail: seq<Lit>, seen: seq<bool>, p: Lit, keep: seq<Lit>)
    requires TrailOk(t) && SeenOk(t, tail, seen, |t.lits|, {}) && DistinctVars(keep) && SubLits(keep, tail)
    requires Val(t.assigns, p) == LTrue && Lev(t, p) == |t.lim|
    ensures forall l :: l in keep ==> Val(t.assigns, l) == LFalse && 0 < Lev(t, l) < |t.lim|
    ensures DistinctVars([p.Not()] + keep)
  {
    forall l | l in keep ensures Val(t.assigns, l) == LFalse && 0 < Lev(t, l) < |t.lim| && l.v != p.v {
      assert TailAt(t, seen, l);
    }
  }

  lemma LearntSwap(f: set<Clause>, t: Trail, learnt: Clause, m: nat)
    requires Implied(f, learnt) && 1 <= m < |learnt| && DistinctVars(learnt) && 0 < Lev(t, learnt[m]) < |t.lim|
    requires Val(t.assigns, learnt[0]) == LFalse && Lev(t, learnt[0]) == |t.lim|
    requires forall k :: 1 <= k < |learnt| ==>
      Val(t.assigns, learnt[k]) == LFalse && 0 < Lev(t, learnt[k]) <= Lev(t, learnt[m])
    ensures LearntOk(f, t, learnt[1 := learnt[m]][m := learnt[1]], Lev(t, learnt[m]))
  {
    SwapSame(learnt, 1, m);
    var d := learnt[1 := learnt[m]][m := learnt[1]];
    forall a | Models(a, f) ensures Sat(a, d) { assert Sat(a, learnt); }
  }

  lemma TailFacts(t: Trail, tail: seq<Lit>, seen: seq<bool>, p: Lit)
    requires TrailOk(t) && SeenOk(t, tail, seen, |t.lits|, {}) && Val(t.assigns, p) == LTrue
    ensures DistinctVars(tail) && ToClear(seen, tail) && |seen| == |t.assigns| && VarsBelow([p.Not()] + tail, |seen|)
    ensures forall l :: l in tail ==> Val(t.assigns, l) == LFalse && SeenAt(seen, l.v)
  {
    forall l | l in tail ensures Val(t.assigns, l) == LFalse && SeenAt(seen, l.v) { assert TailAt(t, seen, l); }
    forall v: Var | SeenAt(seen, v) ensures exists l :: l in tail && l.v == v {
      assert MarkAt(t, tail, |t.lits|, v);
      assert v !in {};
    }
  }

  lemma MinStart(t: Trail, ca: seq<Clause>, seen: seq<bool>, tail: seq<Lit>)
    requires ToClear(seen, tail) && forall l :: l in tail ==> Val(t.assigns, l) == LFalse
    ensures MinOk(t, ca, seen, tail)
  {
    forall v: Var | SeenAt(seen, v) ensures v < |t.assigns| && t.assigns[v] != LUndef {
      var l :| l in tail && l.v == v;
    }
  }

  lemma ToClearMore(seen: seq<bool>, first: Lit, tail: seq<Lit>)
    requires ToClear(seen, tail)
    ensures ToClear(seen, [first] + tail)
  {
    forall v: Var | SeenAt(seen, v) ensures exists l :: l in [first] + tail && l.v == v {
      var l :| l in tail && l.v == v;
      assert l in [first] + tail;
    }
  }

  lemma RedKeeps(t: Trail, ca: seq<Clause>, seen0: seq<bool>, seen: seq<bool>, open: set<Lit>, marks: seq<Lit>)
    requires RedOk(t, ca, seen0, seen, open, marks)
    ensures forall v: Var :: SeenAt(seen0, v) ==> SeenAt(seen, v)
  {
  }

  lemma AllCleared(seen: seq<bool>, seen': seq<bool>, toclear: seq<Lit>)
    requires |seen'| == |seen| && ToClear(seen, toclear)
    requires forall v :: 0 <= v < |seen'| ==> (seen'[v] <==> seen[v] && forall l :: l in toclear ==> l.v != v)
    ensures Clear(seen')
  {
    forall v: Var ensures !SeenAt(seen', v) {
      if v < |seen| && seen[v] { assert SeenAt(seen, v); }
    }
  }
}
