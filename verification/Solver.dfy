/** The CDCL solver: a class with the solver's own state, updated in place. */
module Solvers {
  import opened Cnf
  import opened Trails
  import opened Watches
  import opened Propagation
  import opened Analysis
  import opened Implication
  import opened Heaps
  import opened Database
  import opened SearchState
  import opened Restarts

  class Solver {
    var ok: bool
    var ca: seq<Clause>                // clause memory; a CRef is an index
    var mark: seq<bool>                // deleted clauses
    var clauses: seq<CRef>             // problem clauses
    var learnts: seq<CRef>             // learnt clauses
    var watches: WatchMap
    var dirties: seq<Lit>              // watch lists with entries of deleted clauses
    var assigns: seq<LBool>
    var level: seq<nat>
    var reason: seq<Option<CRef>>
    var trail: seq<Lit>
    var trailLim: seq<nat>
    var qhead: nat
    var seen: seq<bool>
    var analyzeToclear: seq<Lit>
    const ccminMode: int               // 0: none, 1: basic, 2: deep
    var activity: seq<real>
    const varInc: real
    const order: Heap
    var decision: seq<bool>            // variables eligible for decisions
    var polarity: seq<bool>
    const phaseSaving: int
    var assumptions: seq<Lit>
    var model: seq<LBool>
    var conflict: seq<Lit>
    var conflicts: nat                 // how many there have been
    ghost var pos: seq<nat>            // trail index of every assigned variable
    ghost var formula: set<Clause>     // every clause ever added

    constructor (mode: int)
      ensures Valid() && ok && formula == {} && assigns == [] && decision == [] && fresh(order)
    {
      ok, ca, mark, clauses, learnts, watches, dirties := true, [], [], [], [], map[], [];
      assigns, level, reason, trail, trailLim, qhead := [], [], [], [], [], 0;
      seen, analyzeToclear, ccminMode, activity, varInc := [], [], mode, [], 1.0;
      order := new Heap(ActivityLt([]));
      decision, polarity, phaseSaving, assumptions, model, conflict := [], [], 2, [], [], [];
      conflicts := 0;
      pos, formula := [], {};
      new;
      EmptyState();
    }

    ghost function T(): Trail
      reads this`assigns, this`level, this`reason, this`trail, this`trailLim, this`pos
    { Trail(assigns, level, reason, trail, trailLim, pos) }

    function Value(l: Lit): LBool reads this { Val(assigns, l) }

    ghost predicate Prop(q: nat)
      reads this`assigns, this`level, this`reason, this`trail, this`trailLim, this`pos, this`formula, this`ca,
        this`mark, this`watches
    { PropOk(formula, T(), ca, mark, watches, q) }

    /** What is not yet propagated belongs to the current decision level. */
    ghost predicate QueueOk(q: nat)
      reads this`trailLim
    { |trailLim| > 0 ==> trailLim[|trailLim| - 1] <= q }

    /** Every literal of clause `cr` is false. */
    ghost predicate Falsified(cr: CRef)
      reads this`ca, this`assigns
    {
      cr < |ca| && forall k :: 0 <= k < |ca[cr]| ==> Val(assigns, ca[cr][k]) == LFalse
    }

    method UncheckedEnqueue(p: Lit, from: Option<CRef>)
      requires Shape(T()) && p.v < |assigns|
      modifies this`assigns, this`level, this`reason, this`trail, this`pos
      ensures T() == Enqueued(old(T()), p, from)
    {
      assigns := assigns[p.v := if p.neg then LFalse else LTrue];
      level := level[p.v := |trailLim|];
      reason := reason[p.v := from];
      trail := trail + [p];
      pos := pos[p.v := |trail| - 1];
    }

    /** The first literal after the two watches that is not false. */
    method FindWatch(c: Clause) returns (j: nat)
      requires |c| >= 2
      ensures 2 <= j <= |c| && (j < |c| ==> Val(assigns, c[j]) != LFalse)
      ensures forall k :: 2 <= k < j ==> Val(assigns, c[k]) == LFalse
    {
      j := 2;
      while j < |c|
        invariant 2 <= j <= |c| && forall k :: 2 <= k < j ==> Val(assigns, c[k]) == LFalse
      {
        if Value(c[j]) != LFalse { return; }
        j := j + 1;
      }
    }

    /** Handles entry `k` of the list of `p` once `~p` is the second literal of its clause. */
    method PropagateClause(p: Lit, k: nat) returns (k': nat, confl: Option<CRef>)
      requires 0 < qhead <= |trail| && trail[qhead - 1] == p && Prop(qhead - 1) && QueueOk(qhead - 1)
      requires k < |WL(watches, p)| && CoverList(T(), ca, WL(watches, p), k, |trailLim|)
      requires WL(watches, p)[k].cref < |ca| && |ca[WL(watches, p)[k].cref]| >= 2
      requires ca[WL(watches, p)[k].cref][1] == p.Not() && Val(assigns, WL(watches, p)[k].blocker) != LTrue
      modifies this`ca, this`watches, this`assigns, this`level, this`reason, this`trail, this`pos, this`qhead
      ensures Prop(old(qhead) - 1) && SameSets(old(ca), ca) && Extends(old(T()), T()) && Explained(old(T()), T())
      ensures confl.None? ==> qhead == old(qhead) && k' <= |WL(watches, p)|
      ensures confl.None? ==> |WL(watches, p)| - k' < old(|WL(watches, p)|) - k
      ensures confl.None? ==> CoverList(T(), ca, WL(watches, p), k', |trailLim|)
      ensures confl.Some? ==> qhead == |trail| && Falsified(confl.value) && confl.value < |mark| && !mark[confl.value]
      ensures confl.Some? ==> |ca[confl.value]| >= 2 && ca[confl.value][1] == p.Not()
    {
      hide PropOk, CoverList, SameSets, Explained, Val;
      ghost var q := qhead - 1;
      var w := WL(watches, p)[k];
      EntryFacts(formula, T(), ca, mark, watches, q, p, k);
      SameSetsRefl(ca);
      ExplainedRefl(T());
      var cr := w.cref;
      var first := ca[cr][0];
      if first != w.blocker && Value(first) == LTrue {
        Reblock(p, k);
        CoverNext(formula, T(), ca, mark, watches, q, WL(watches, p), k, first);
        return k + 1, None;
      }
      var j := FindWatch(ca[cr]);
      if j < |ca[cr]| {
        CurrentLit(formula, T(), ca, mark, watches, q, p);
        MoveWatch(p, k, j);
        return k, None;
      }
      confl := KeepWatch(p, k);
      k' := k + 1;
    }

    /** The first literal becomes the blocker of entry `k`. */
    method Reblock(p: Lit, k: nat)
      requires 0 < qhead <= |trail| && Prop(qhead - 1) && k < |WL(watches, p)|
      requires WL(watches, p)[k].cref < |ca| && |ca[WL(watches, p)[k].cref]| >= 2
      requires ca[WL(watches, p)[k].cref][1] == p.Not()
      modifies this`watches
      ensures Prop(qhead - 1) && |WL(watches, p)| == old(|WL(watches, p)|)
      ensures var cr := old(WL(watches, p)[k]).cref;
        cr < |ca| && |ca[cr]| >= 2 && WL(watches, p)[k] == Watcher(cr, ca[cr][0])
      ensures forall n, lv :: CoverList(T(), ca, old(WL(watches, p)), n, lv) ==>
        CoverList(T(), ca, WL(watches, p), n, lv)
    {
      hide PropOk, CoverList, Val;
      var first := ca[WL(watches, p)[k].cref][0];
      BlockStep(formula, T(), ca, mark, watches, qhead - 1, p, k, first);
      SetBlocker(p, k, first);
    }

    /** No literal can replace the second watch: the clause is unit or in conflict. */
    method KeepWatch(p: Lit, k: nat) returns (confl: Option<CRef>)
      requires 0 < qhead <= |trail| && trail[qhead - 1] == p && Prop(qhead - 1) && QueueOk(qhead - 1)
      requires k < |WL(watches, p)| && CoverList(T(), ca, WL(watches, p), k, |trailLim|)
      requires WL(watches, p)[k].cref < |ca| && |ca[WL(watches, p)[k].cref]| >= 2
      requires ca[WL(watches, p)[k].cref][1] == p.Not()
      requires var c := ca[WL(watches, p)[k].cref];
        (Val(assigns, c[0]) == LTrue ==> c[0] == WL(watches, p)[k].blocker)
          && Val(assigns, WL(watches, p)[k].blocker) != LTrue
        && forall i :: 2 <= i < |c| ==> Val(assigns, c[i]) == LFalse
      modifies this`watches, this`assigns, this`level, this`reason, this`trail, this`pos, this`qhead
      ensures Prop(old(qhead) - 1) && Extends(old(T()), T()) && Explained(old(T()), T())
      ensures |WL(watches, p)| == old(|WL(watches, p)|)
      ensures confl.None? ==> qhead == old(qhead) && CoverList(T(), ca, WL(watches, p), k + 1, |trailLim|)
      ensures confl.Some? ==> qhead == |trail| && Falsified(confl.value) && confl.value < |mark| && !mark[confl.value]
      ensures confl.Some? ==> |ca[confl.value]| >= 2 && ca[confl.value][1] == p.Not()
    {
      hide PropOk, CoverList, Explained;
      ghost var q := qhead - 1;
      ExplainedRefl(T());
      EntryFacts(formula, T(), ca, mark, watches, q, p, k);
      CurrentLit(formula, T(), ca, mark, watches, q, p);
      Reblock(p, k);
      var cr := WL(watches, p)[k].cref;
      if Value(ca[cr][0]) == LFalse {
        qhead := |trail|;
        return Some(cr);
      }
      EnqueueUnit(p, k);
      confl := None;
    }

    /** The clause of entry `k` is unit: its first literal is enqueued. */
    method EnqueueUnit(p: Lit, k: nat)
      requires 0 < qhead <= |trail| && Prop(qhead - 1) && k < |WL(watches, p)|
      requires CoverList(T(), ca, WL(watches, p), k, |trailLim|)
      requires WL(watches, p)[k].cref < |ca| && |ca[WL(watches, p)[k].cref]| >= 2
      requires var c := ca[WL(watches, p)[k].cref];
        Val(assigns, c[0]) == LUndef && Lev(T(), c[1]) == |trailLim|
          && forall i :: 1 <= i < |c| ==> Val(assigns, c[i]) == LFalse
      modifies this`assigns, this`level, this`reason, this`trail, this`pos
      ensures Prop(qhead - 1) && Extends(old(T()), T()) && Explained(old(T()), T())
      ensures CoverList(T(), ca, WL(watches, p), k + 1, |trailLim|)
    {
      hide PropOk, CoverList, TrailOk, ReasonOk, DbOk, WatchShape, Sound, Units, Explained;
      ghost var q := qhead - 1;
      var cr := WL(watches, p)[k].cref;
      EntryFacts(formula, T(), ca, mark, watches, q, p, k);
      PropTrail(formula, T(), ca, mark, watches, q);
      var first := ca[cr][0];
      assert first in ca[cr];
      EnqueueStep(formula, T(), ca, mark, watches, q, cr);
      ExplainedEnqueue(T(), first, cr);
      CoverListEnqueue(T(), first, Some(cr), ca, WL(watches, p), k, |trailLim|);
      UncheckedEnqueue(first, Some(cr));
      CoverNext(formula, T(), ca, mark, watches, q, WL(watches, p), k, first);
    }

    method SetBlocker(p: Lit, k: nat, b: Lit)
      requires p in watches && k < |watches[p]|
      modifies this`watches
      ensures watches == Blocked(old(watches), p, k, b)
      ensures forall n, lv :: CoverList(T(), ca, old(WL(watches, p)), n, lv) ==>
        CoverList(T(), ca, WL(watches, p), n, lv)
    {
      watches := watches[p := watches[p][k := Watcher(watches[p][k].cref, b)]];
      forall n, lv | CoverList(T(), ca, old(WL(watches, p)), n, lv) ensures CoverList(T(), ca, WL(watches, p), n, lv) {
        SameRefsCover(T(), ca, old(WL(watches, p)), WL(watches, p), n, lv);
      }
    }

    /** Literal `j` of the clause of entry `k` becomes its second watch. */
    method MoveWatch(p: Lit, k: nat, j: nat)
      requires 0 < qhead <= |trail| && Prop(qhead - 1)
      requires p in watches && k < |watches[p]| && watches[p][k].cref < |ca|
      requires 2 <= j < |ca[watches[p][k].cref]| && ca[watches[p][k].cref][1] == p.Not()
      requires Val(assigns, ca[watches[p][k].cref][0]) != LTrue && Val(assigns, ca[watches[p][k].cref][j]) != LFalse
      requires Pos(T(), p) == qhead - 1 && CoverList(T(), ca, watches[p], k, |trailLim|)
      modifies this`ca, this`watches
      ensures Prop(qhead - 1) && SameSets(old(ca), ca) && WL(watches, p) == Without(old(watches[p]), k)
      ensures CoverList(T(), ca, WL(watches, p), k, |trailLim|)
    {
      hide PropOk, CoverList, SameSets, Explained;
      var cr := watches[p][k].cref;
      EntryFacts(formula, T(), ca, mark, watches, qhead - 1, p, k);
      SameSetsRefl(ca);
      ExplainedRefl(T());
      var c := ca[cr];
      var w := Watcher(cr, c[0]);
      MoveStep(formula, T(), ca, mark, watches, qhead - 1, p, k, j, w);
      SwapSame(c, 1, j);
      assert c[j] != c[1];
      ReorderList(T(), ca, watches[p], k, |trailLim|, cr, Rewatched(c, j));
      SameSetsUpdate(ca, ca, cr, Rewatched(c, j));
      ca := ca[cr := c[1 := c[j]][j := c[1]]];
      CoverWithout(T(), ca, watches[p], k, |trailLim|);
      watches := watches[p := watches[p][..k] + watches[p][k + 1..]];
      watches := watches[c[j].Not() := WL(watches, c[j].Not()) + [w]];
    }

    /** Handles entry `k` of the list of `p`: keeps it, moves it, enqueues a unit or finds a conflict. */
    method PropagateWatcher(p: Lit, k: nat) returns (k': nat, confl: Option<CRef>)
      requires 0 < qhead <= |trail| && trail[qhead - 1] == p && Prop(qhead - 1) && QueueOk(qhead - 1)
      requires k < |WL(watches, p)| && CoverList(T(), ca, WL(watches, p), k, |trailLim|)
      modifies this`ca, this`watches, this`assigns, this`level, this`reason, this`trail, this`pos, this`qhead
      ensures Prop(old(qhead) - 1) && SameSets(old(ca), ca) && Extends(old(T()), T()) && Explained(old(T()), T())
      ensures confl.None? ==> qhead == old(qhead) && k' <= |WL(watches, p)|
      ensures confl.None? ==> |WL(watches, p)| - k' < old(|WL(watches, p)|) - k
      ensures confl.None? ==> CoverList(T(), ca, WL(watches, p), k', |trailLim|)
      ensures confl.Some? ==> qhead == |trail| && Falsified(confl.value) && confl.value < |mark| && !mark[confl.value]
      ensures confl.Some? ==> |ca[confl.value]| >= 2 && ca[confl.value][1] == p.Not()
    {
      hide PropOk, CoverList, SameSets, Explained;
      confl, k' := None, k;
      var w := WL(watches, p)[k];
      EntryFacts(formula, T(), ca, mark, watches, qhead - 1, p, k);
      SameSetsRefl(ca);
      ExplainedRefl(T());
      if Value(w.blocker) == LTrue {
        CoverNext(formula, T(), ca, mark, watches, qhead - 1, WL(watches, p), k, w.blocker);
        return k + 1, None;
      }
      var cr := w.cref;
      if ca[cr][0] == p.Not() {
        CurrentLit(formula, T(), ca, mark, watches, qhead - 1, p);
        SwapStep(formula, T(), ca, mark, watches, qhead - 1, cr);
        SwapSame(ca[cr], 0, 1);
        ReorderList(T(), ca, WL(watches, p), k, |trailLim|, cr, ca[cr][0 := ca[cr][1]][1 := ca[cr][0]]);
        SameSetsUpdate(ca, ca, cr, ca[cr][0 := ca[cr][1]][1 := ca[cr][0]]);
        ca := ca[cr := ca[cr][0 := ca[cr][1]][1 := ca[cr][0]]];
      }
      ghost var ca0 := ca;
      k', confl := PropagateClause(p, k);
      SameSetsTrans(old(ca), ca0, ca);
    }

    /** Propagates the literal at the head of the queue through its watch list. */
    method PropagateLit(p: Lit) returns (confl: Option<CRef>)
      requires 0 < qhead <= |trail| && trail[qhead - 1] == p && Prop(qhead - 1) && QueueOk(qhead - 1)
      modifies this`ca, this`watches, this`assigns, this`level, this`reason, this`trail, this`pos, this`qhead
      ensures SameSets(old(ca), ca) && Extends(old(T()), T()) && Explained(old(T()), T())
      ensures confl.None? ==> qhead == old(qhead) && Prop(qhead)
      ensures confl.Some? ==> qhead == |trail| && Prop(old(qhead) - 1) && Conflicting(confl.value)
    {
      hide PropOk, CoverList, SameSets, TrailOk, ReasonOk, DbOk, WatchShape, Sound, Units, Explained;
      var k: nat := 0;
      confl := None;
      SameSetsRefl(ca);
      ExplainedRefl(T());
      CoverNone(T(), ca, WL(watches, p), |trailLim|);
      while k < |WL(watches, p)|
        invariant k <= |WL(watches, p)| && qhead == old(qhead) && Prop(qhead - 1) && confl.None?
        invariant SameSets(old(ca), ca) && Extends(old(T()), T()) && Explained(old(T()), T())
        invariant CoverList(T(), ca, WL(watches, p), k, |trailLim|)
        decreases |WL(watches, p)| - k
      {
        ghost var ca0, t0 := ca, T();
        k, confl := PropagateWatcher(p, k);
        SameSetsTrans(old(ca), ca0, ca);
        ExplainedTrans(old(T()), t0, T());
        if confl.Some? {
          FalseAtTop(formula, T(), ca, mark, watches, old(qhead) - 1, p);
          return;
        }
      }
      AdvanceStep(formula, T(), ca, mark, watches, qhead - 1);
    }

    /** A live clause, false in all its literals, with one of them at the current level. */
    ghost predicate Conflicting(cr: CRef)
      reads this`assigns, this`level, this`reason, this`trail, this`trailLim, this`pos, this`ca, this`mark
    {
      && Falsified(cr) && cr < |mark| && !mark[cr]
      && |ca[cr]| >= 2 && Lev(T(), ca[cr][1]) == |trailLim|
    }

    ghost predicate Idle(q: nat)
      reads this`assigns, this`level, this`reason, this`trail, this`trailLim, this`pos, this`formula, this`ca,
        this`mark, this`watches, this`dirties
    { IdleOk(formula, T(), ca, mark, watches, dirties, q) }

    method CleanAll(ghost q: nat)
      requires Idle(q)
      modifies this`watches, this`dirties
      ensures dirties == [] && Idle(q)
    {
      hide IdleOk;
      while |dirties| > 0
        invariant Idle(q)
      {
        CleanStep(formula, T(), ca, mark, watches, dirties, q);
        watches := watches[dirties[0] := LiveOnly(mark, WL(watches, dirties[0]))];
        dirties := dirties[1..];
      }
    }

    /** Unit propagation to the end of the queue, or to a conflict. */
    method Propagate() returns (confl: Option<CRef>)
      requires Idle(qhead) && QueueOk(qhead)
      modifies this`ca, this`watches, this`dirties, this`assigns, this`level, this`reason, this`trail, this`pos,
        this`qhead
      ensures SameSets(old(ca), ca) && Extends(old(T()), T()) && Explained(old(T()), T()) && dirties == []
        && qhead == |trail|
      ensures confl.None? ==> Idle(qhead)
      ensures confl.Some? ==> Idle(old(qhead)) && Conflicting(confl.value)
    {
      hide *;
      CleanAll(qhead);
      PropOfIdle(qhead);
      confl := PropagateQueue();
      if confl.None? { IdleOfProp(qhead); } else { IdleOfProp(old(qhead)); }
    }

    lemma PropOfIdle(q: nat)
      requires Idle(q) && dirties == []
      ensures Prop(q)
    {
      CleanDone(formula, T(), ca, mark, watches, [], q);
    }

    lemma IdleOfProp(q: nat)
      requires Prop(q) && dirties == []
      ensures Idle(q)
    {
      CleanDone(formula, T(), ca, mark, watches, [], q);
    }

    /** Propagates literal after literal of the queue. */
    method PropagateQueue() returns (confl: Option<CRef>)
      requires Prop(qhead) && QueueOk(qhead)
      modifies this`ca, this`watches, this`assigns, this`level, this`reason, this`trail, this`pos, this`qhead
      ensures SameSets(old(ca), ca) && Extends(old(T()), T()) && Explained(old(T()), T()) && qhead == |trail|
      ensures confl.None? ==> Prop(qhead)
      ensures confl.Some? ==> Prop(old(qhead)) && Conflicting(confl.value)
    {
      hide PropOk, SameSets, Explained;
      SameSetsRefl(ca);
      ExplainedRefl(T());
      confl := None;
      PropQueue(formula, T(), ca, mark, watches, qhead);
      while qhead < |trail|
        invariant old(qhead) <= qhead <= |trail|
        invariant SameSets(old(ca), ca) && Extends(old(T()), T()) && Explained(old(T()), T())
        invariant confl.None? ==> Prop(qhead)
        invariant confl.Some? ==> qhead == |trail| && Prop(old(qhead)) && Conflicting(confl.value)
        decreases |assigns| - qhead
      {
        var p := trail[qhead];
        PropBound(formula, T(), ca, mark, watches, qhead);
        qhead := qhead + 1;
        ghost var ca0, t0, q := ca, T(), qhead - 1;
        confl := PropagateLit(p);
        SameSetsTrans(old(ca), ca0, ca);
        ExplainedTrans(old(T()), t0, T());
        if confl.Some? { PropWeaken(formula, T(), ca, mark, watches, q, old(qhead)); }
        else { PropQueue(formula, T(), ca, mark, watches, qhead); }
      }
    }

    // ---------- conflict analysis ----------

    ghost predicate OrderOk() reads this`activity, order {
      order.Valid() && order.lt == ActivityLt(activity) && varInc >= 0.0
    }

    method BumpVar(v: Var)
      requires OrderOk() && v < |activity|
      modifies this`activity, order
      ensures OrderOk() && activity == old(activity)[v := old(activity)[v] + varInc]
      ensures order.Elems() == old(order.Elems()) && |order.indices| == old(|order.indices|)
    {
      BumpKeepsOrder(activity, v, activity[v] + varInc);
      activity := activity[v := activity[v] + varInc];
      order.Decrease(v, ActivityLt(activity));
    }

    /** Marks the literals of `c` from `start` on; those of lower levels join the tail. */
    method MarkClause(c: Clause, start: nat, tail0: seq<Lit>, pathC0: nat, ghost hi: nat, ghost pend0: set<Var>)
      returns (tail: seq<Lit>, pathC: nat, ghost pend: set<Var>)
      requires TrailOk(T()) && OrderOk() && |activity| == |assigns| && start <= |c|
      requires SeenOk(T(), tail0, seen, hi, pend0) && |pend0| == pathC0 && FalseBelow(T(), c, start, hi)
      modifies this`seen, this`activity, order
      ensures OrderOk() && |activity| == |assigns|
      ensures order.Elems() == old(order.Elems()) && |order.indices| == old(|order.indices|)
      ensures SeenOk(T(), tail, seen, hi, pend) && |pend| == pathC && pend0 <= pend && tail0 <= tail
      ensures forall v: Var :: SeenAt(old(seen), v) ==> SeenAt(seen, v)
      ensures Bumped(old(seen), seen, old(activity), activity, varInc)
      ensures Marked(T(), seen, c, start, |c|) && forall v: Var :: v in pend ==> v in pend0 || Names(c, start, v)
    {
      hide *;
      FieldsOf();
      tail, pathC, pend := tail0, pathC0, pend0;
      MarkNone(T(), seen, c, start);
      BumpedNone(seen, activity, varInc);
      var j := start;
      while j < |c|
        invariant start <= j <= |c| && OrderOk() && |activity| == |assigns|
        invariant order.Elems() == old(order.Elems()) && |order.indices| == old(|order.indices|)
        invariant SeenOk(T(), tail, seen, hi, pend) && |pend| == pathC && pend0 <= pend && tail0 <= tail
        invariant forall v: Var :: SeenAt(old(seen), v) ==> SeenAt(seen, v)
        invariant Bumped(old(seen), seen, old(activity), activity, varInc)
        invariant Marked(T(), seen, c, start, j) && forall v: Var :: v in pend ==> v in pend0 || Names(c, start, v)
      {
        FieldsOf();
        var q := c[j];
        NamesOne(c, start, j);
        MarkNext(T(), tail, seen, hi, pend, c, start, j);
        if !seen[q.v] && level[q.v] > 0 {
          BumpedMore(old(seen), seen, old(activity), activity, varInc, q.v);
          BumpVar(q.v);
          seen := seen[q.v := true];
          if level[q.v] >= |trailLim| {
            pathC, pend := pathC + 1, pend + {q.v};
          } else {
            tail := tail + [q];
          }
        }
        j := j + 1;
      }
    }

    lemma ConflictParts(confl: CRef)
      requires |trailLim| > 0 && Idle(trailLim[|trailLim| - 1]) && Conflicting(confl) && |seen| == |assigns|
      ensures Analyzing() && confl < |ca| && |ca[confl]| >= 2 && Lev(T(), ca[confl][1]) == |trailLim|
      ensures forall k :: 0 <= k < |ca[confl]| ==> Val(assigns, ca[confl][k]) == LFalse
    {
    }

    /** Resolution has come down to trail index `hi`; `pend` are the marked variables of the current
        level, and `done` the trail indices already resolved on. */
    ghost predicate Tracing(confl: CRef, tail: seq<Lit>, hi: nat, pathC: nat, pend: set<Var>, done: set<nat>)
      reads this`assigns, this`level, this`reason, this`trail, this`trailLim, this`pos, this`formula, this`ca, this`seen
    {
      && confl < |ca| && hi <= |trail| && |pend| == pathC && SeenOk(T(), tail, seen, hi, pend)
      && Resolvent(formula, T(), tail, seen, hi) && Explored(T(), ca, ca[confl], done, pend, hi)
    }

    /** The last marked literal, at trail index `i`, has just been unmarked, and `pathC` marked variables
        of the current level are left. */
    ghost predicate Popped(confl: CRef, tail: seq<Lit>, i: nat, pathC: nat, seen0: seq<bool>, all: set<Var>,
                           done: set<nat>)
      reads this`assigns, this`level, this`reason, this`trail, this`trailLim, this`pos, this`formula, this`ca, this`seen
    {
      && confl < |ca| && i < |trail| && trail[i].v < |seen0| && trail[i].v in all && seen == seen0[trail[i].v := false]
      && SeenOk(T(), tail, seen0, i + 1, all) && SeenOk(T(), tail, seen, i, all - {trail[i].v})
      && Resolvent(formula, T(), tail, seen0, i + 1) && Explored(T(), ca, ca[confl], done, all, i + 1)
      && Val(assigns, trail[i]) == LTrue && Lev(T(), trail[i]) == |trailLim| && Pos(T(), trail[i]) == i
      && |all - {trail[i].v}| == pathC
    }

    /** Marks the conflict clause. */
    method StartTrace(confl: CRef) returns (tail: seq<Lit>, pathC: nat, ghost pend: set<Var>)
      requires Analyzing() && |trailLim| > 0 && Clear(seen) && OrderOk() && |activity| == |assigns|
      requires confl < |ca| && |ca[confl]| >= 2 && Lev(T(), ca[confl][1]) == |trailLim|
      requires forall k :: 0 <= k < |ca[confl]| ==> Val(assigns, ca[confl][k]) == LFalse
      modifies this`seen, this`activity, order
      ensures OrderOk() && |activity| == |assigns| && Analyzing()
      ensures order.Elems() == old(order.Elems()) && |order.indices| == old(|order.indices|)
      ensures Tracing(confl, tail, |trail|, pathC, pend, {}) && pend != {}
    {
      hide TrailOk, SeenOk, ReasonOk, Sound, Units, Resolvent, Explored, Names, OrderOk, Heap.Elems, FalseBelow, Marked;
      NothingSeen(T(), seen);
      ConflictBelow(T(), ca[confl]);
      tail, pathC, pend := MarkClause(ca[confl], 0, [], 0, |trail|, {});
      SeenSize(T(), tail, seen, |trail|, pend);
      SoundAt(formula, ca, confl);
      FirstResolvent(formula, T(), tail, seen, pend, ca[confl]);
      PendingTop(T(), tail, seen, |trail|, pend, ca[confl]);
      ExploreFirst(T(), ca, ca[confl], tail, seen, pend);
    }

    /** Unmarks the last marked literal of the trail. */
    method PopMarked(confl: CRef, tail: seq<Lit>, hi: nat, ghost pathC: nat, ghost pend: set<Var>, ghost done: set<nat>)
      returns (i: nat)
      requires Analyzing() && |trailLim| > 0 && Tracing(confl, tail, hi, pathC, pend, done) && pend != {}
      modifies this`seen
      ensures i < hi && i < |trail| && pathC > 0 && Popped(confl, tail, i, pathC - 1, old(seen), pend, done)
        && Analyzing()
    {
      hide TrailOk, SeenOk, ReasonOk, Sound, Units, Resolvent, Explored;
      i := NextMarked(tail, hi, pend);
      ExploreSkip(T(), ca, ca[confl], done, pend, hi, tail, seen, i);
      AtIndex(T(), i);
      Unmark(T(), tail, seen, i, pend);
      seen := seen[trail[i].v := false];
    }

    /** Resolves on the literal at `i` with its reason. */
    method TraceOn(confl: CRef, i: nat, tail0: seq<Lit>, pathC0: nat, ghost seen0: seq<bool>, ghost all: set<Var>,
                   ghost done: set<nat>)
      returns (tail: seq<Lit>, pathC: nat, ghost pend: set<Var>)
      requires Analyzing() && |trailLim| > 0 && OrderOk() && |activity| == |assigns|
      requires Popped(confl, tail0, i, pathC0, seen0, all, done) && pathC0 > 0
      modifies this`seen, this`activity, order
      ensures OrderOk() && |activity| == |assigns| && Analyzing()
      ensures order.Elems() == old(order.Elems()) && |order.indices| == old(|order.indices|)
      ensures Tracing(confl, tail, i, pathC, pend, done + {i}) && pend != {}
    {
      hide TrailOk, SeenOk, ReasonOk, Sound, Units, Resolvent, Explored, Names, OrderOk, Heap.Elems, FalseBelow, Marked,
        Propagating;
      ghost var rest := all - {trail[i].v};
      HasReason(T(), ca, mark, tail0, seen, i, rest);
      var r := reason[trail[i].v];
      var c := ca[r.value];
      tail, pathC, pend := MarkClause(c, 1, tail0, pathC0, i, rest);
      SeenSize(T(), tail, seen, i, pend);
      SoundAt(formula, ca, r.value);
      Resolve(formula, T(), tail0, seen0, i, tail, seen, pend, c);
      StillWaits(T(), tail0, seen0, i, all, trail[i].v);
      ExploreNext(T(), ca, mark, ca[confl], done, all, i, tail, seen, pend, c);
    }

    /** Resolves back along the trail to the first unique implication point. */
    method FindUip(confl: CRef) returns (p: Lit, tail: seq<Lit>)
      requires |trailLim| > 0 && Idle(trailLim[|trailLim| - 1]) && Conflicting(confl)
      requires OrderOk() && |activity| == |assigns| && |seen| == |assigns| && Clear(seen)
      modifies this`seen, this`activity, order
      ensures OrderOk() && |activity| == |assigns|
      ensures order.Elems() == old(order.Elems()) && |order.indices| == old(|order.indices|)
      ensures Implied(formula, [p.Not()] + tail)
      ensures Val(assigns, p) == LTrue && Lev(T(), p) == |trailLim|
      ensures SeenOk(T(), tail, seen, |trail|, {})
      ensures Pos(T(), p) < |trail| && trail[Pos(T(), p)] == p && FirstUip(T(), ca, ca[confl], Pos(T(), p))
    {
      hide *;
      ConflictParts(confl);
      ghost var done: set<nat>, pend: set<Var>;
      done := {};
      var pathC: nat;
      tail, pathC, pend := StartTrace(confl);
      var hi: nat := |trail|;
      while true
        invariant hi <= |trail| && OrderOk() && |activity| == |assigns| && Analyzing()
        invariant order.Elems() == old(order.Elems()) && |order.indices| == old(|order.indices|)
        invariant Tracing(confl, tail, hi, pathC, pend, done) && pend != {}
        decreases hi
      {
        ghost var seen0 := seen;
        hi := PopMarked(confl, tail, hi, pathC, pend, done);
        p := trail[hi];
        pathC := pathC - 1;
        if pathC == 0 {
          UipFound(confl, tail, hi, seen0, pend, done);
          return;
        }
        tail, pathC, pend := TraceOn(confl, hi, tail, pathC, seen0, pend, done);
        done := done + {hi};
      }
    }

    lemma UipFound(confl: CRef, tail: seq<Lit>, i: nat, seen0: seq<bool>, all: set<Var>, done: set<nat>)
      requires Analyzing() && |trailLim| > 0 && Popped(confl, tail, i, 0, seen0, all, done)
      ensures i < |trail| && Implied(formula, [trail[i].Not()] + tail) && SeenOk(T(), tail, seen, |trail|, {})
      ensures Val(assigns, trail[i]) == LTrue && Lev(T(), trail[i]) == |trailLim| && Pos(T(), trail[i]) == i
      ensures FirstUip(T(), ca, ca[confl], i)
    {
      hide TrailOk, SeenOk, ReasonOk, Sound, Units, Resolvent, Explored;
      LastPending(T(), tail, seen0, seen, i, all - {trail[i].v});
      UipClause(formula, T(), tail, seen0, i);
      SeenWiden(T(), tail, seen, i);
      ExploreLast(T(), ca, mark, ca[confl], done, all, i);
    }

    /** The last marked trail index below `hi`. */
    method NextMarked(tail: seq<Lit>, hi: nat, ghost pend: set<Var>) returns (i: nat)
      requires TrailOk(T()) && SeenOk(T(), tail, seen, hi, pend) && pend != {} && |trailLim| > 0
      requires Resolvent(formula, T(), tail, seen, hi)
      ensures i < hi && i < |trail| && trail[i].v < |seen| && seen[trail[i].v] && trail[i].v in pend
      ensures Resolvent(formula, T(), tail, seen, i + 1) && SeenOk(T(), tail, seen, i + 1, pend)
    {
      hide Resolvent;
      i := hi;
      ghost var x: Var :| x in pend;
      assert SeenAt(seen, x) && OnTrail(T(), pos[x]);
      while true
        invariant pos[x] < i <= hi && NonePending(T(), seen, i, hi)
        decreases i
      {
        i := i - 1;
        assert OnTrail(T(), i);
        if seen[trail[i].v] { break; }
      }
      SkipUnseen(formula, T(), tail, seen, i + 1, hi);
      TopMarked(T(), tail, seen, hi, pend, i, x);
    }

    // ---------- clause minimisation ----------

    ghost predicate Analyzing()
      reads this`assigns, this`level, this`reason, this`trail, this`trailLim, this`pos, this`formula, this`ca,
        this`mark, this`seen
    {
      && TrailOk(T()) && ReasonOk(T(), ca, mark) && Units(formula, T()) && Sound(formula, ca)
      && |seen| == |assigns|
    }

    /** Unmarks the variables of `analyzeToclear` from index `from` on. */
    method ClearMarks(from: nat)
      requires from <= |analyzeToclear| && VarsBelow(analyzeToclear, |seen|)
      modifies this`seen
      ensures |seen| == old(|seen|)
      ensures forall v :: 0 <= v < |seen| ==>
        (seen[v] <==> old(seen)[v] && forall l :: l in analyzeToclear[from..] ==> l.v != v)
    {
      var j := from;
      while j < |analyzeToclear|
        invariant from <= j <= |analyzeToclear| && |seen| == old(|seen|)
        invariant forall v :: 0 <= v < |seen| ==>
          (seen[v] <==> old(seen)[v] && forall l :: l in analyzeToclear[from..j] ==> l.v != v)
      {
        assert analyzeToclear[from..j + 1] == analyzeToclear[from..j] + [analyzeToclear[j]];
        assert analyzeToclear[j] in analyzeToclear;
        seen := seen[analyzeToclear[j].v := false];
        j := j + 1;
      }
      assert analyzeToclear[from..j] == analyzeToclear[from..];
    }

    ghost predicate Checking(seen0: seq<bool>, top: nat, open: set<Lit>)
      reads this`assigns, this`level, this`reason, this`trail, this`trailLim, this`pos, this`formula, this`ca,
        this`mark, this`seen,
        this`analyzeToclear
    {
      && Analyzing() && top <= |analyzeToclear|
      && VarsBelow(analyzeToclear, |seen|)
      && RedOk(T(), ca, seen0, seen, open, analyzeToclear[top..])
    }

    /** Marks `r` and puts it on the list to be cleared. */
    method MarkOpen(r: Lit, stack: seq<Lit>, q: Lit, top: nat, ghost seen0: seq<bool>)
      requires Checking(seen0, top, Lits(stack) + {q})
      requires OpenAt(T(), r) && r.v < |seen| && !seen[r.v]
      modifies this`seen, this`analyzeToclear
      ensures Checking(seen0, top, Lits(stack + [r]) + {q})
      ensures |analyzeToclear| >= top && analyzeToclear[..top] == old(analyzeToclear[..top])
      ensures r.v < |seen| && seen == old(seen)[r.v := true] && Unmarked(seen) == old(Unmarked(seen)) - 1
    {
      hide TrailOk, ReasonOk, Units, Sound, RedOk, Unmarked;
      RedPush(T(), ca, seen0, seen, Lits(stack) + {q}, analyzeToclear[top..], r);
      UnmarkedDrops(seen, r.v);
      seen := seen[r.v := true];
      analyzeToclear := analyzeToclear + [r];
      assert analyzeToclear[top..] == old(analyzeToclear[top..]) + [r];
      assert Lits(stack + [r]) + {q} == Lits(stack) + {q} + {r};
    }

    /** Marks the reason of `q`; fails when it meets a literal that cannot be removed. */
    method ScanReason(q: Lit, stack0: seq<Lit>, abs: bv32, top: nat, ghost seen0: seq<bool>, ghost h: nat)
      returns (good: bool, stack: seq<Lit>)
      requires Checking(seen0, top, Lits(stack0) + {q}) && OpenAt(T(), q)
      requires LevelsIn(T(), seen, abs) && LevelsIn(T(), seen0, abs)
      requires Reaches(T(), ca, seen0, h, Pos(T(), q)) && ReachesAll(T(), ca, seen0, h, stack0)
      modifies this`seen, this`analyzeToclear
      ensures |analyzeToclear| >= top && analyzeToclear[..top] == old(analyzeToclear[..top])
      ensures good ==> Checking(seen0, top, Lits(stack)) && Closed(T(), ca, seen, q.v)
      ensures good ==> LevelsIn(T(), seen, abs) && ReachesAll(T(), ca, seen0, h, stack)
      ensures good ==> stack0 <= stack && forall v: Var :: SeenAt(old(seen), v) ==> SeenAt(seen, v)
      ensures good ==> 2 * Unmarked(seen) + |stack| <= 2 * old(Unmarked(seen)) + |stack0|
      ensures !good ==> Escapes(T(), ca, seen0, h) && seen == seen0 && analyzeToclear == old(analyzeToclear[..top])
    {
      hide TrailOk, ReasonOk, Units, Sound, RedOk, Unmarked, LevelsIn, Reaches, ReachesAll, Escapes, HasLevel;
      stack := stack0;
      OpenReason(T(), ca, mark, q);
      TrailSizes(T());
      var c := ca[reason[q.v].value];
      var i := 1;
      while i < |c|
        invariant 1 <= i <= |c| && top <= |analyzeToclear| && stack0 <= stack
        invariant Checking(seen0, top, Lits(stack) + {q})
        invariant analyzeToclear[..top] == old(analyzeToclear[..top])
        invariant forall v: Var :: SeenAt(old(seen), v) ==> SeenAt(seen, v)
        invariant Marked(T(), seen, c, 1, i)
        invariant LevelsIn(T(), seen, abs) && ReachesAll(T(), ca, seen0, h, stack)
        invariant 2 * Unmarked(seen) + |stack| <= 2 * old(Unmarked(seen)) + |stack0|
      {
        var r := c[i];
        if !seen[r.v] && level[r.v] > 0 {
          RedOld(T(), ca, seen0, seen, Lits(stack) + {q}, analyzeToclear[top..], r.v);
          ReachesReason(T(), ca, mark, seen0, h, q, i);
          if reason[r.v].Some? && HasLevel(abs, level[r.v]) {
            LevelsMark(T(), seen, abs, r.v);
            ReachesPush(T(), ca, seen0, h, stack, r);
            MarkOpen(r, stack, q, top, seen0);
            stack := stack + [r];
          } else {
            ghost var marked := seen;
            GivesUp(T(), ca, mark, seen0, abs, h, r);
            ClearMarks(top);
            RedUndo(T(), ca, seen0, marked, Lits(stack) + {q}, analyzeToclear[top..], seen);
            analyzeToclear := analyzeToclear[..top];
            return false, stack;
          }
        }
        i := i + 1;
      }
      good := true;
      RedClose(T(), ca, seen0, seen, Lits(stack), analyzeToclear[top..], q);
    }

    /** Whether `p` follows from marked literals; the marks made on the way are kept on success. */
    method LitRedundant(p: Lit, abs: bv32) returns (redundant: bool)
      requires Analyzing() && OpenAt(T(), p) && VarsBelow(analyzeToclear, |seen|) && LevelsIn(T(), seen, abs)
      modifies this`seen, this`analyzeToclear
      ensures Analyzing() && VarsBelow(analyzeToclear, |seen|)
      ensures old(analyzeToclear) <= analyzeToclear && LevelsIn(T(), seen, abs)
      ensures redundant <==> !Escapes(T(), ca, old(seen), Pos(T(), p))
      ensures NewClosed(T(), ca, old(seen), seen)
      ensures redundant ==> Closed(T(), ca, seen, p.v)
      ensures redundant ==> RedOk(T(), ca, old(seen), seen, {}, analyzeToclear[old(|analyzeToclear|)..])
      ensures !redundant ==> seen == old(seen) && analyzeToclear == old(analyzeToclear)
    {
      hide TrailOk, ReasonOk, Units, Sound, RedOk, Unmarked, LevelsIn, Reaches, ReachesAll, Escapes, NewClosed;
      var stack := [p];
      var top := |analyzeToclear|;
      RedStart(T(), ca, seen, p);
      ReachesOne(T(), ca, seen, p);
      NewClosedNone(T(), ca, seen);
      assert analyzeToclear[top..] == [];
      assert Lits(stack) == {p};
      while |stack| > 0
        invariant top == old(|analyzeToclear|) <= |analyzeToclear| && analyzeToclear[..top] == old(analyzeToclear)
        invariant Checking(old(seen), top, Lits(stack)) && LevelsIn(T(), seen, abs)
        invariant ReachesAll(T(), ca, old(seen), Pos(T(), p), stack)
        invariant p in stack || Closed(T(), ca, seen, p.v)
        decreases 2 * Unmarked(seen) + |stack|
      {
        var q := stack[|stack| - 1];
        var rest := stack[..|stack| - 1];
        ghost var before := seen;
        assert stack == rest + [q];
        assert Lits(stack) == Lits(rest) + {q};
        RedOpen(T(), ca, old(seen), seen, Lits(stack), analyzeToclear[top..], q);
        var good;
        ReachesPush(T(), ca, old(seen), Pos(T(), p), rest, q);
        good, stack := ScanReason(q, rest, abs, top, old(seen), Pos(T(), p));
        if !good {
          assert analyzeToclear == old(analyzeToclear);
          return false;
        }
        if Closed(T(), ca, before, p.v) { ClosedGrow(T(), ca, before, seen, p.v); }
      }
      assert Lits(stack) == {};
      CheckEnds(T(), ca, old(seen), seen, analyzeToclear[top..], p);
      return true;
    }

    /** Drops redundant literals of `tail`, in the mode chosen by `ccminMode`. */
    method Minimize(first: Lit, tail: seq<Lit>) returns (keep: seq<Lit>)
      requires Analyzing() && Implied(formula, [first] + tail) && DistinctVars(tail)
      requires forall l :: l in tail ==> Val(assigns, l) == LFalse && SeenAt(seen, l.v)
      requires ToClear(seen, tail) && analyzeToclear == [first] + tail && VarsBelow([first] + tail, |seen|)
      modifies this`seen, this`analyzeToclear
      ensures Analyzing() && Implied(formula, [first] + keep) && DistinctVars(keep)
      ensures forall l :: l in tail ==> (l in keep <==> !Droppable(ccminMode, T(), ca, old(seen), l))
      ensures SubLits(keep, tail) && ToClear(seen, analyzeToclear)
      ensures VarsBelow(analyzeToclear, |seen|)
    {
      hide *;
      AnalyzingParts();
      VarsTail(first, tail, |seen|);
      var abs := AbstractLevels(tail);
      MinStart(T(), ca, seen, tail);
      ToClearMore(seen, first, tail);
      LevelsStart(T(), seen, tail, abs);
      ghost var seen0 := seen;
      keep := KeepNeeded(tail, abs);
      NewClosedGrows(T(), ca, seen0, seen);
      AnalyzingParts();
      MinimizeSound(formula, T(), ca, mark, seen, first, tail, keep);
    }

    lemma AnalyzingParts()
      requires Analyzing()
      ensures TrailOk(T()) && ReasonOk(T(), ca, mark) && Units(formula, T()) && Sound(formula, ca)
      ensures |seen| == |assigns| == |level| && T().assigns == assigns && T().level == level
    {
      TrailSizes(T());
    }

    /** The literals of `tail` that must stay. */
    method KeepNeeded(tail: seq<Lit>, abs: bv32) returns (keep: seq<Lit>)
      requires Analyzing() && DistinctVars(tail) && forall l :: l in tail ==> Val(assigns, l) == LFalse
      requires MinOk(T(), ca, seen, tail) && ToClear(seen, analyzeToclear) && VarsBelow(analyzeToclear, |seen|)
      requires LevelsIn(T(), seen, abs)
      modifies this`seen, this`analyzeToclear
      ensures Analyzing() && MinOk(T(), ca, seen, keep) && DistinctVars(keep) && SubLits(keep, tail)
      ensures ToClear(seen, analyzeToclear) && VarsBelow(analyzeToclear, |seen|)
      ensures NewClosed(T(), ca, old(seen), seen)
      ensures forall l :: l in tail ==> (l in keep <==> !Droppable(ccminMode, T(), ca, old(seen), l))
    {
      hide *;
      keep := [];
      var i := 0;
      SubLitsNone(tail);
      SubLitsNone(tail[..0]);
      NewClosedNone(T(), ca, seen);
      assert [] + tail[0..] == tail;
      while i < |tail|
        invariant 0 <= i <= |tail| && Analyzing() && DistinctVars(keep + tail[i..])
        invariant MinOk(T(), ca, seen, keep + tail[i..]) && ToClear(seen, analyzeToclear)
        invariant VarsBelow(analyzeToclear, |seen|) && SubLits(keep, tail)
        invariant NewClosed(T(), ca, old(seen), seen) && LevelsIn(T(), seen, abs)
          && (ccminMode != 2 ==> seen == old(seen))
        invariant forall l :: l in tail[..i] ==> (l in keep <==> !Droppable(ccminMode, T(), ca, old(seen), l))
        invariant SubLits(keep, tail[..i])
      {
        var x := tail[i];
        ghost var rest := tail[i + 1..];
        assert keep + tail[i..] == keep + [x] + rest;
        ghost var before := seen;
        var drop := CanDrop(x, abs, keep + tail[i..]);
        DroppableSame(ccminMode, T(), ca, old(seen), before, x);
        NewClosedTrans(T(), ca, old(seen), before, seen);
        KeptMore(tail, i, keep, drop);
        if drop {
          MinDrop(T(), ca, seen, keep, x, rest);
        } else {
          SubLitsMore(keep, tail, i);
          keep := keep + [x];
        }
        i := i + 1;
      }
      assert keep + tail[i..] == keep;
      assert tail[..i] == tail;
    }

    /** The levels of the clause, as a 32-bit set. */
    method AbstractLevels(tail: seq<Lit>) returns (abs: bv32)
      requires VarsBelow(tail, |level|)
      ensures forall l :: l in tail ==> l.v < |level| && HasLevel(abs, level[l.v])
    {
      hide HasLevel, Join;
      abs := 0;
      var i := 0;
      while i < |tail|
        invariant 0 <= i <= |tail|
        invariant forall l :: l in tail[..i] ==> l.v < |level| && HasLevel(abs, level[l.v])
      {
        assert tail[..i + 1] == tail[..i] + [tail[i]] && tail[i] in tail;
        LevelAdded(abs, level[tail[i].v]);
        abs := Join(abs, LevelBit(level[tail[i].v]));
        i := i + 1;
      }
      assert tail[..i] == tail;
    }

    /** Whether `x` may leave the learnt clause. */
    method CanDrop(x: Lit, abs: bv32, ghost all: seq<Lit>) returns (drop: bool)
      requires Analyzing() && Val(assigns, x) == LFalse
      requires MinOk(T(), ca, seen, all) && ToClear(seen, analyzeToclear)
      requires VarsBelow(analyzeToclear, |seen|) && LevelsIn(T(), seen, abs)
      modifies this`seen, this`analyzeToclear
      ensures Analyzing() && MinOk(T(), ca, seen, all) && ToClear(seen, analyzeToclear)
      ensures VarsBelow(analyzeToclear, |seen|)
      ensures NewClosed(T(), ca, old(seen), seen) && LevelsIn(T(), seen, abs) && (ccminMode != 2 ==> seen == old(seen))
      ensures drop ==> Closed(T(), ca, seen, x.v)
      ensures drop <==> Droppable(ccminMode, T(), ca, old(seen), x)
    {
      hide TrailOk, ReasonOk, Units, Sound, RedOk, MinOk, LevelsIn, NewClosed, Escapes;
      TrailSizes(T());
      NewClosedNone(T(), ca, seen);
      drop := false;
      if reason[x.v].None? {
        DecisionEscapes(T(), ca, seen, x);
        return;
      }
      if ccminMode == 2 {
        drop := LitRedundant(x, abs);
        if drop {
          ghost var marks := analyzeToclear[old(|analyzeToclear|)..];
          RedDone(T(), ca, old(seen), seen, marks, all, old(analyzeToclear));
          assert analyzeToclear == old(analyzeToclear) + marks;
          RedKeeps(T(), ca, old(seen), seen, {}, marks);
        }
      } else if ccminMode == 1 {
        OpenReason(T(), ca, mark, x);
        var c := ca[reason[x.v].value];
        var k := 1;
        while k < |c|
          invariant 1 <= k <= |c| && Marked(T(), seen, c, 1, k)
        {
          if !seen[c[k].v] && level[c[k].v] > 0 { return; }
          k := k + 1;
        }
        drop := true;
      }
    }

    /** Puts a literal of the highest remaining level second and returns that level. */
    method FindBacktrack(first: Lit, keep: seq<Lit>) returns (learnt: Clause, bt: nat)
      requires TrailOk(T()) && |trailLim| > 0 && Implied(formula, [first] + keep) && DistinctVars([first] + keep)
      requires forall l :: l in keep ==> Val(assigns, l) == LFalse && 0 < Lev(T(), l) < |trailLim|
      requires Val(assigns, first) == LFalse && Lev(T(), first) == |trailLim|
      ensures |learnt| > 0 && LearntOk(formula, T(), learnt, bt) && learnt[0] == first && SameLits(learnt[1..], keep)
    {
      hide *;
      StateIs();
      learnt := [first] + keep;
      if |keep| == 0 {
        bt := 0;
        LearntAlone(formula, T(), first, learnt);
        SameLitsSelf(keep);
        assert learnt[1..] == keep;
        return;
      }
      var m := HighestLevel(learnt, first, keep);
      bt := level[learnt[m].v];
      LearntSwap(formula, T(), learnt, m);
      SwappedTail(first, keep, learnt, m);
      learnt := learnt[1 := learnt[m]][m := learnt[1]];
    }

    /** The index of a literal of the highest level after the first. */
    method HighestLevel(learnt: Clause, ghost first: Lit, ghost keep: seq<Lit>) returns (m: nat)
      requires TrailOk(T()) && learnt == [first] + keep && |keep| > 0
      requires forall l :: l in keep ==> Val(assigns, l) == LFalse && 0 < Lev(T(), l) < |trailLim|
      ensures 1 <= m < |learnt| && learnt[m].v < |level| && Lev(T(), learnt[m]) == level[learnt[m].v]
      ensures forall k :: 1 <= k < |learnt| ==> Lev(T(), learnt[k]) <= Lev(T(), learnt[m])
      ensures forall k :: 1 <= k < |learnt| ==>
        Val(assigns, learnt[k]) == LFalse && 0 < Lev(T(), learnt[k]) < |trailLim|
    {
      hide TrailOk;
      forall k | 1 <= k < |learnt| ensures learnt[k] in keep { assert learnt[k] == keep[k - 1]; }
      TrailSizes(T());
      m := 1;
      var i := 2;
      while i < |learnt|
        invariant 1 <= m < |learnt| && 2 <= i <= |learnt|
        invariant forall k :: 1 <= k < i ==> Lev(T(), learnt[k]) <= Lev(T(), learnt[m])
      {
        if level[learnt[i].v] > level[learnt[m].v] { m := i; }
        i := i + 1;
      }
    }

    /** First-UIP conflict analysis with minimisation. */
    method Analyze(confl: CRef) returns (learnt: Clause, bt: nat)
      requires |trailLim| > 0 && Idle(trailLim[|trailLim| - 1]) && Conflicting(confl)
      requires OrderOk() && |activity| == |assigns| && |seen| == |assigns| && Clear(seen)
      modifies this`seen, this`analyzeToclear, this`activity, order
      ensures OrderOk() && |activity| == |assigns|
      ensures order.Elems() == old(order.Elems()) && |order.indices| == old(|order.indices|)
      ensures LearntOk(formula, T(), learnt, bt) && FirstUip(T(), ca, ca[confl], Pos(T(), learnt[0]))
      ensures Irreducible(ccminMode, T(), ca, learnt)
      ensures |seen| == |assigns| && Clear(seen)
    {
      hide *;
      AnalyzesFrom(trailLim[|trailLim| - 1]);
      var p, tail := FindUip(confl);
      analyzeToclear := [p.Not()] + tail;
      TailFacts(T(), tail, seen, p);
      AnalyzesFrom(trailLim[|trailLim| - 1]);
      ghost var seen0 := seen;
      var keep := Minimize(p.Not(), tail);
      AnalyzingParts();
      LearntFacts(T(), tail, seen0, p, keep);
      Negated(p);
      learnt, bt := FindBacktrack(p.Not(), keep);
      SameLitsAre(learnt[1..], keep);
      MinimalLearnt(ccminMode, T(), ca, seen0, tail, keep, learnt);
      ghost var marked := seen;
      ClearMarks(0);
      assert analyzeToclear[0..] == analyzeToclear;
      AllCleared(marked, seen, analyzeToclear);
    }

    lemma Negated(p: Lit)
      requires Val(assigns, p) == LTrue
      ensures Val(assigns, p.Not()) == LFalse && Lev(T(), p.Not()) == Lev(T(), p) && Pos(T(), p.Not()) == Pos(T(), p)
    {
    }

    lemma AnalyzesFrom(q: nat)
      requires Idle(q) && |seen| == |assigns|
      ensures Analyzing() && TrailOk(T()) && T().assigns == assigns && T().lim == trailLim && T().lits == trail
    {
      IdleTrail(formula, T(), ca, mark, watches, dirties, q);
    }

    // ---------- the whole state ----------

    ghost predicate Sizes() reads this`seen, this`activity, this`polarity, this`decision, this`assigns {
      |seen| == |assigns| && |activity| == |assigns| && |polarity| == |assigns| && |decision| == |assigns|
    }

    ghost predicate NoMarks() reads this`seen { Clear(seen) }

    ghost predicate HeapOk(except: int)
      reads this`activity, this`decision, this`assigns, order
    {
      OrderOk() && HeapCovers(decision, assigns, order.Elems(), |order.indices|, except)
    }

    /** Everything the solver keeps between steps, with the trail propagated up to index `q`. */
    ghost predicate Core(q: nat)
      reads this`assigns, this`level, this`reason, this`trail, this`trailLim, this`pos, this`formula, this`ca,
        this`mark, this`watches, this`dirties,
        this`clauses, this`learnts, this`seen, this`activity, this`polarity, this`decision, order
    {
      && Idle(q) && QueueOk(q) && Sizes() && NoMarks() && HeapOk(-1)
      && ListsOk(mark, clauses, learnts) && Complete(formula, T(), ca, clauses)
    }

    lemma CoreParts(q: nat)
      requires Core(q)
      ensures Idle(q) && QueueOk(q) && Sizes() && NoMarks() && HeapOk(-1)
      ensures ListsOk(mark, clauses, learnts) && Complete(formula, T(), ca, clauses)
      ensures IdleOk(formula, T(), ca, mark, watches, dirties, q) && TrailOk(T()) && Shape(T())
      ensures T().assigns == assigns && T().lim == trailLim && T().lits == trail
      ensures |mark| == |ca| && |reason| == |assigns|
    {
      MarkSize(ca, mark, watches);
      TrailShape(T());
    }

    lemma IsCore(q: nat)
      requires IdleOk(formula, T(), ca, mark, watches, dirties, q) && QueueOk(q) && Sizes() && NoMarks() && HeapOk(-1)
      requires ListsOk(mark, clauses, learnts) && Complete(formula, T(), ca, clauses)
      ensures Core(q)
    {
    }

    /** Enqueues with the decision order in mind. */
    method Put(p: Lit, from: Option<CRef>, ghost except: int)
      requires Shape(T()) && p.v < |assigns| && Sizes() && HeapOk(except) && (except == -1 || except == p.v)
      modifies this`assigns, this`level, this`reason, this`trail, this`pos
      ensures T() == Enqueued(old(T()), p, from) && |assigns| == old(|assigns|) && Sizes() && HeapOk(-1)
    {
      hide OrderOk, HeapCovers, Heap.Elems;
      HeapAssign(decision, assigns, order.Elems(), |order.indices|, except, p.v, if p.neg then LFalse else LTrue);
      UncheckedEnqueue(p, from);
    }

    /** The added clauses are unsatisfiable; only the decision order is still looked after. */
    ghost predicate Lost()
      reads this`formula, this`seen, this`activity, this`polarity, this`decision, this`assigns, order
    { Unsat(formula) && Sizes() && HeapOk(-1) }

    method InsertVarOrder(x: Var)
      requires HeapOk(x) && x < |decision|
      modifies order
      ensures HeapOk(-1) && order.Elems() == old(order.Elems()) + if decision[x] then {x} else {}
    {
      if !order.InHeap(x) && decision[x] { order.Insert(x); }
    }

    /** Unassigns every variable from trail index `lim` on and puts it back into the order. */
    method Unassign(lim: nat)
      requires TrailOk(T()) && lim <= |trail| && Sizes() && HeapOk(-1)
      modifies this`assigns, this`polarity, order
      ensures Unassigned(old(T()), assigns, lim) && Sizes() && HeapOk(-1)
      ensures SavedPhases(old(T()), lim, phaseSaving, old(polarity), polarity)
    {
      hide TrailOk, SavedPhases;
      ghost var t := T();
      UnassignStart(t);
      ghost var polarity0 := polarity;
      PhasesStart(t, phaseSaving, polarity);
      var c := |trail|;
      while c > lim
        invariant lim <= c <= |trail| && Sizes() && |assigns| == |t.assigns| && HeapOk(-1)
        invariant Unassigned(t, assigns, c) && SavedPhases(t, c, phaseSaving, polarity0, polarity)
      {
        c := c - 1;
        var x := trail[c].v;
        UnassignStep(t, assigns, c);
        PhaseStep(t, c, phaseSaving, polarity0, polarity);
        assigns := assigns[x := LUndef];
        if phaseSaving > 1 || (phaseSaving == 1 && |trailLim| > 0 && c > trailLim[|trailLim| - 1]) {
          polarity := polarity[x := trail[c].neg];
        }
        InsertVarOrder(x);
      }
    }

    /** Backtracks to level `lv`, keeping the assignments made there. */
    method CancelUntil(lv: nat, ghost q: nat)
      requires Core(q) && (lv < |trailLim| ==> trailLim[lv] <= q)
      modifies this`assigns, this`trail, this`trailLim, this`qhead, this`polarity, order
      ensures lv < old(|trailLim|) ==> CutTo(old(T()), T(), lv) && qhead == |trail| && Core(qhead)
      ensures lv < old(|trailLim|) ==> SavedPhases(old(T()), old(trailLim)[lv], phaseSaving, old(polarity), polarity)
      ensures lv >= old(|trailLim|) ==> T() == old(T()) && qhead == old(qhead) && Core(q)
    {
      if lv < |trailLim| { CutBack(lv, q); }
    }

    /** The part of backtracking for a level below the current one. */
    method CutBack(lv: nat, ghost q: nat)
      requires Core(q) && lv < |trailLim| && trailLim[lv] <= q
      modifies this`assigns, this`trail, this`trailLim, this`qhead, this`polarity, order
      ensures CutTo(old(T()), T(), lv) && qhead == |trail| && Core(qhead)
      ensures SavedPhases(old(T()), old(trailLim)[lv], phaseSaving, old(polarity), polarity)
    {
      hide *;
      ghost var t := T();
      FieldsOf();
      CoreParts(q);
      IdleTrail(formula, t, ca, mark, watches, dirties, q);
      LimsBelow(t, lv);
      Unassign(trailLim[lv]);
      qhead := trailLim[lv];
      Shorten(lv, t);
      CutState(t, lv, q);
    }

    lemma CutState(t: Trail, lv: nat, q: nat)
      requires IdleOk(formula, t, ca, mark, watches, dirties, q) && Complete(formula, t, ca, clauses)
      requires ListsOk(mark, clauses, learnts) && CutTo(t, T(), lv) && t.lim[lv] <= q
      requires Sizes() && NoMarks() && HeapOk(-1)
      ensures Core(|trail|)
    {
      hide *;
      FieldsOf();
      IdleTrail(formula, t, ca, mark, watches, dirties, q);
      CutIdle(formula, t, T(), lv, ca, mark, watches, dirties, q);
      CutQueue(t, T(), lv);
      ClausesInMemory(mark, clauses, learnts);
      CutComplete(formula, t, T(), lv, ca, clauses);
      QueueFrom(|trail|);
      IsCore(|trail|);
    }

    lemma FieldsOf()
      ensures T() == Trail(assigns, level, reason, trail, trailLim, pos)
    {
    }

    method Shorten(lv: nat, ghost t: Trail)
      requires lv < |trailLim| && trailLim[lv] <= |trail| && t == Trail(t.assigns, level, reason, trail, trailLim, pos)
      requires Unassigned(t, assigns, trailLim[lv])
      modifies this`trail, this`trailLim
      ensures CutTo(t, T(), lv) && |trail| == old(trailLim[lv])
    {
      trail := trail[..trailLim[lv]];
      trailLim := trailLim[..lv];
    }

    lemma QueueFrom(q: nat)
      requires |trailLim| > 0 ==> trailLim[|trailLim| - 1] <= q
      ensures QueueOk(q)
    {
    }

    /** The next decision literal, if an unassigned decision variable is left. */
    method PickBranchLit() returns (next: Option<Lit>)
      requires HeapOk(-1) && Sizes()
      modifies order
      ensures next.None? ==> HeapOk(-1) && forall v :: 0 <= v < |assigns| && decision[v] ==> assigns[v] != LUndef
      ensures next.Some? ==> next.value.v < |assigns| && assigns[next.value.v] == LUndef && HeapOk(next.value.v)
      ensures next.Some? ==> next.value.v < |decision| && decision[next.value.v]
    {
      var cand: Option<Var> := None;
      var random: bool := *;
      if random && |order.heap| > 0 {
        var i :| 0 <= i < |order.heap|;
        cand := Some(order.heap[i]);
        assert order.heap[i] in order.Elems();
      }
      while cand.None? || assigns[cand.value] != LUndef || !decision[cand.value]
        invariant cand.Some? ==> cand.value < |assigns|
        invariant HeapOk(if cand.Some? then cand.value else -1)
        decreases order.Elems()
      {
        if |order.heap| == 0 {
          return None;
        }
        var x := order.RemoveMin();
        cand := Some(x);
      }
      var neg: bool := *;
      next := Some(Lit(cand.value, neg));
    }

    /** Expresses why the true literal `p` holds in terms of the assumptions on which it depends. */
    method AnalyzeFinal(p: Lit) returns (out: seq<Lit>)
      requires Analyzing() && NoMarks() && Val(assigns, p) == LTrue && p.Not() in assumptions
      requires AssumpOk(T(), assumptions) && |trailLim| < |assumptions|
      modifies this`seen
      ensures Analyzing() && NoMarks()
      ensures out != [] && out[0] == p && Causes(T(), ca, out)
      ensures Implied(formula, out) && forall l :: l in out ==> l.Not() in assumptions
    {
      hide TrailOk, ReasonOk, Sound, Units, Forces, FinalSeen, AssumpOk, Implied, MarksTraced, Decides;
      out := [p];
      if |trailLim| == 0 {
        RootFact(formula, T(), p);
        return;
      }
      TrailSizes(T());
      FinalStart(formula, T(), seen, p);
      TraceStart(T(), ca, seen, p);
      hide Causes;
      seen := seen[p.v := true];
      LimsBelow(T(), 0);
      var i := |trail|;
      ghost var ds := [];
      while i > trailLim[0]
        invariant trailLim[0] <= i <= |trail| && Analyzing() && out == [p] + ds
        invariant FinalSeen(T(), seen, p, i) && Forces(formula, T(), seen, i, ds, p)
        invariant MarksTraced(T(), ca, seen, p) && Causes(T(), ca, out)
        invariant forall l :: l in out ==> l.Not() in assumptions
      {
        i := i - 1;
        TrailVar(T(), i);
        var x := trail[i].v;
        if seen[x] {
          if reason[x].None? {
            ForcesDecision(formula, T(), seen, i, ds, p);
            DecisionIsAssumption(T(), assumptions, i);
            CauseAdded(T(), ca, seen, p, i, out);
            TraceUnmark(T(), ca, seen, p, x);
            out, ds := out + [trail[i].Not()], ds + [trail[i].Not()];
            FinalUnmark(T(), seen, p, i);
            seen := seen[x := false];
          } else {
            FinalReason(p, i, ds);
          }
        } else {
          ForcesSkip(formula, T(), seen, i, ds, p);
          FinalSkip(T(), seen, p, i);
        }
      }
      FinalDone(formula, T(), seen, p, ds, seen[p.v := false]);
      seen := seen[p.v := false];
    }

    /** Replaces the mark on the literal at `i` by marks on its reason. */
    method FinalReason(p: Lit, i: nat, ghost ds: seq<Lit>)
      requires Analyzing() && i < |trail| && FinalSeen(T(), seen, p, i + 1) && Forces(formula, T(), seen, i + 1, ds, p)
      requires trail[i].v < |seen| && trail[i].v < |reason| && reason[trail[i].v].Some?
      requires seen[trail[i].v] && MarksTraced(T(), ca, seen, p)
      modifies this`seen
      ensures Analyzing() && FinalSeen(T(), seen, p, i) && Forces(formula, T(), seen, i, ds, p)
      ensures MarksTraced(T(), ca, seen, p)
    {
      hide TrailOk, ReasonOk, Sound, Units, Forces, FinalSeen, Implied, Propagating, MarksTraced, DependsOn;
      ghost var seen0 := seen;
      var x := trail[i].v;
      ReasonFacts(formula, T(), ca, mark, i);
      TrailSizes(T());
      FinalUnmark(T(), seen, p, i);
      TracedAt(T(), ca, seen, p, i);
      TraceUnmark(T(), ca, seen, p, x);
      seen := seen[x := false];
      var c := ca[reason[x].value];
      var j := 1;
      while j < |c|
        invariant 1 <= j <= |c| && |seen| == |assigns| && FinalSeen(T(), seen, p, i)
        invariant Marked(T(), seen, c, 1, j) && MarksTraced(T(), ca, seen, p)
        invariant forall v: Var :: SeenAt(seen0, v) && v != x ==> SeenAt(seen, v)
      {
        if level[c[j].v] > 0 {
          FinalMark(T(), seen, p, i, c[j]);
          TraceMark(T(), ca, seen, p, i, j);
          seen := seen[c[j].v := true];
        }
        j := j + 1;
      }
      ForcesReason(formula, T(), seen0, i, ds, p, c, seen);
    }

    // ---------- deleting clauses ----------

    predicate Locked(cr: CRef)
      requires cr < |ca| && |ca[cr]| > 0 && ca[cr][0].v < |reason|
      reads this
      ensures Locked(cr) <==> Locks(T(), ca, cr)
    { Value(ca[cr][0]) == LTrue && reason[ca[cr][0].v] == Some(cr) }

    /** Marks a clause as deleted; its watchers go when their lists are next cleaned. */
    method RemoveClause(cr: CRef, ghost q: nat)
      requires Idle(q) && cr < |ca| && |ca[cr]| >= 2 && cr < |mark| && !mark[cr]
      requires Locks(T(), ca, cr) ==> |trailLim| == 0
      modifies this`mark, this`dirties, this`reason
      ensures Idle(q) && mark == old(mark)[cr := true] && |reason| == old(|reason|)
      ensures !old(Locks(T(), ca, cr)) ==> reason == old(reason)
    {
      hide TrailOk, ReasonOk, DbOk, WatchShape, DirtyOk, WatchInv, Sound, Units;
      ghost var t, m, ds := T(), mark, dirties;
      ReasonRange(t, ca, cr);
      var c := ca[cr];
      dirties := dirties + [c[0].Not(), c[1].Not()];
      if Locked(cr) { reason := reason[c[0].v := None]; }
      mark := mark[cr := true];
      RemoveStep(formula, t, ca, m, watches, ds, q, cr, T(), dirties);
    }

    method Satisfied(cr: CRef) returns (sat: bool)
      requires cr < |ca|
      ensures sat <==> HasTrue(cr)
    {
      var c := ca[cr];
      var i := 0;
      while i < |c|
        invariant 0 <= i <= |c| && forall k :: 0 <= k < i ==> Val(assigns, c[k]) != LTrue
      {
        if Value(c[i]) == LTrue {
          assert c[i] in c;
          return true;
        }
        i := i + 1;
      }
      return false;
    }

    /** Deletes the clauses of `cs` that a root literal satisfies.  `pre` and `post` are the clauses
        listed before and after `cs`; `problem` says whether `cs` are the problem clauses. */
    method RemoveSatisfied(cs: seq<CRef>, problem: bool, ghost pre: seq<CRef>, ghost post: seq<CRef>, ghost q: nat)
      returns (kept: seq<CRef>)
      requires Idle(q) && |trailLim| == 0 && Listing(pre, cs, post, if problem then cs else clauses)
      modifies this`mark, this`dirties, this`reason
      ensures Idle(q) && Listing(pre, kept, post, if problem then kept else clauses) && |reason| == old(|reason|)
      ensures KeepsRest(cs, kept) && Deleted(old(mark), cs, |cs|)
    {
      hide *;
      kept := [];
      ghost var rest := cs;
      SweepStarts(cs);
      ghost var mark0 := mark;
      DeletedNone(cs);
      for i := 0 to |cs|
        invariant Idle(q) && |reason| == old(|reason|) && Swept(cs, i, kept, rest) && Deleted(mark0, cs, i)
        invariant Listing(pre, kept + rest, post, if problem then kept + rest else clauses)
      {
        ghost var later := SweepNext(cs, i, kept, rest);
        DeletedIs(mark0, cs, i);
        ghost var mark1 := mark;
        kept := KeepOrRemove(cs[i], kept, later, problem, pre, post, q);
        DeletedMore(mark0, mark1, cs, i);
        rest := later;
      }
      SweepEnds(cs, kept, rest);
    }

    /** Since then exactly those of the first `n` clauses have been deleted that have a true literal. */
    ghost predicate Deleted(mark0: seq<bool>, cs: seq<CRef>, n: nat) reads this`ca, this`assigns, this`mark {
      n <= |cs| && |mark| == |mark0| && forall cr: CRef :: cr < |mark| ==>
        (mark[cr] <==> mark0[cr] || (cr in cs[..n] && HasTrue(cr)))
    }

    lemma DeletedNone(cs: seq<CRef>)
      ensures Deleted(mark, cs, 0)
    {
    }

    lemma DeletedIs(mark0: seq<bool>, cs: seq<CRef>, n: nat)
      requires Deleted(mark0, cs, n)
      ensures n <= |cs| && |mark| == |mark0| && forall cr: CRef :: cr < |mark| ==>
        (mark[cr] <==> mark0[cr] || (cr in cs[..n] && HasTrue(cr)))
    {
    }

    lemma DeletedMore(mark0: seq<bool>, mark1: seq<bool>, cs: seq<CRef>, i: nat)
      requires i < |cs| && |mark1| == |mark0| && forall cr: CRef :: cr < |mark1| ==>
        (mark1[cr] <==> mark0[cr] || (cr in cs[..i] && HasTrue(cr)))
      requires mark == if HasTrue(cs[i]) && cs[i] < |mark1| then mark1[cs[i] := true] else mark1
      ensures Deleted(mark0, cs, i + 1)
    {
      hide HasTrue;
      assert cs[..i + 1] == cs[..i] + [cs[i]];
    }

    /** `kept` holds exactly the clauses without a true literal among the first `i`; `rest` are the others. */
    ghost predicate Swept(cs: seq<CRef>, i: nat, kept: seq<CRef>, rest: seq<CRef>) reads this`ca, this`assigns {
      i <= |cs| && rest == cs[i..] && KeepsRest(cs[..i], kept)
    }

    lemma SweepStarts(cs: seq<CRef>)
      ensures Swept(cs, 0, [], cs) && [] + cs == cs
    {
    }

    lemma SweepNext(cs: seq<CRef>, i: nat, kept: seq<CRef>, rest: seq<CRef>) returns (later: seq<CRef>)
      requires i < |cs| && Swept(cs, i, kept, rest)
      ensures kept + rest == kept + [cs[i]] + later
      ensures Swept(cs, i + 1, if HasTrue(cs[i]) then kept else kept + [cs[i]], later)
    {
      hide HasTrue;
      later := cs[i + 1..];
      assert cs[..i + 1] == cs[..i] + [cs[i]] && rest == [cs[i]] + later;
    }

    lemma SweepEnds(cs: seq<CRef>, kept: seq<CRef>, rest: seq<CRef>)
      requires Swept(cs, |cs|, kept, rest)
      ensures kept + rest == kept && KeepsRest(cs, kept)
    {
      assert cs[..|cs|] == cs;
    }

    /** The clauses listed as `pre`, `cs` and `post` are all live and different, and `problem` keep the formula. */
    ghost predicate Listing(pre: seq<CRef>, cs: seq<CRef>, post: seq<CRef>, problem: seq<CRef>)
      reads this`assigns, this`level, this`reason, this`trail, this`trailLim, this`pos, this`formula, this`ca, this`mark
    {
      AllFresh(mark, pre + cs + post) && NoDup(pre + cs + post) && Complete(formula, T(), ca, problem)
    }

    lemma Listings()
      ensures ListsOk(mark, clauses, learnts) && Complete(formula, T(), ca, clauses) <==>
        Listing(clauses, learnts, [], clauses)
      ensures Listing(clauses, learnts, [], clauses) <==> Listing([], clauses, learnts, clauses)
    {
      ListsParts(mark, clauses, learnts);
    }

    /** Removes one clause if it has a true literal. */
    method KeepOrRemove(cr: CRef, kept: seq<CRef>, ghost rest: seq<CRef>, problem: bool, ghost pre: seq<CRef>,
                        ghost post: seq<CRef>, ghost q: nat)
      returns (kept': seq<CRef>)
      requires Idle(q) && |trailLim| == 0 && Listing(pre, kept + [cr] + rest, post, if problem then kept + [cr] + rest
        else clauses)
      modifies this`mark, this`dirties, this`reason
      ensures kept' == if HasTrue(cr) then kept else kept + [cr]
      ensures cr < |old(mark)| && mark == if HasTrue(cr) then old(mark)[cr := true] else old(mark)
      ensures Idle(q) && |reason| == old(|reason|)
        && Listing(pre, kept' + rest, post, if problem then kept' + rest else clauses)
    {
      hide TrailOk, ReasonOk, DbOk, WatchShape, DirtyOk, WatchInv, Sound, Units, AllFresh, NoDup, Complete, HasTrue;
      assert pre + (kept + [cr] + rest) + post == (pre + kept) + [cr] + (rest + post);
      ListsDrop(mark, pre + kept, cr, rest + post);
      ClauseFacts(formula, T(), ca, mark, watches, dirties, q, cr);
      var sat := Satisfied(cr);
      kept' := kept + [cr];
      if sat {
        ghost var t := T();
        if problem {
          TrueMeans(cr);
          CompleteDrop(formula, t, ca, kept, cr, rest);
        }
        RemoveClause(cr, q);
        CompleteSameRoot(formula, t, T(), ca, if problem then kept + rest else clauses);
        assert pre + (kept + rest) + post == (pre + kept) + (rest + post);
        kept' := kept;
      }
    }

    /** `kept` holds exactly the clauses of `cs` without a true literal. */
    ghost predicate KeepsRest(cs: seq<CRef>, kept: seq<CRef>) reads this`ca, this`assigns {
      forall cr :: cr in kept <==> cr in cs && !HasTrue(cr)
    }

    lemma TrueMeans(cr: CRef)
      requires HasTrue(cr)
      ensures cr < |ca| && exists l :: l in ca[cr] && Val(assigns, l) == LTrue
    {
    }

    /** Clause `cr` has a true literal. */
    ghost predicate HasTrue(cr: CRef) reads this`ca, this`assigns {
      cr < |ca| && exists l :: l in ca[cr] && Val(assigns, l) == LTrue
    }

    method RebuildOrderHeap()
      requires HeapOk(-1) && Sizes()
      modifies order
      ensures HeapOk(-1) && forall v: nat :: v in order.Elems() <==>
        v < |assigns| && v < |decision| && decision[v] && assigns[v] == LUndef
    {
      var vs: seq<nat> := [];
      var v: nat := 0;
      while v < |assigns|
        invariant 0 <= v <= |assigns|
        invariant forall i :: 0 <= i < |vs| ==> vs[i] < v && vs[i] < |order.indices|
        invariant forall i, j :: 0 <= i < j < |vs| ==> vs[i] < vs[j]
        invariant forall x :: x in vs <==> 0 <= x < v && decision[x] && assigns[x] == LUndef
      {
        if decision[v] && assigns[v] == LUndef { vs := vs + [v]; }
        v := v + 1;
      }
      order.Build(vs);
    }

    /** Deletes the chosen learnt clauses that are long and not locked. */
    method ReduceDB(chosen: set<CRef>)
      requires Core(qhead)
      modifies this`mark, this`dirties, this`reason, this`learnts
      ensures Core(qhead) && reason == old(reason) && T() == old(T())
      ensures Reduces(T(), ca, chosen, old(mark), mark, old(learnts), |old(learnts)|, learnts)
    {
      hide *;
      var cs := learnts;
      var kept := [];
      var i := 0;
      ghost var t, mark0 := T(), mark;
      ReducesNone(t, ca, chosen, mark, cs);
      PassedNone(cs);
      while i < |cs|
        invariant 0 <= i <= |cs| && Passed(cs, i, kept, learnts) && Core(qhead) && reason == old(reason)
        invariant T() == t && Reduces(t, ca, chosen, mark0, mark, cs, i, kept)
      {
        ghost var mark1 := mark;
        var dropped := KeepOrDrop(cs, i, kept, cs[i] in chosen);
        ReducesMore(t, ca, chosen, mark0, mark1, mark, cs, i, kept, dropped);
        if !dropped { kept := kept + [cs[i]]; }
        i := i + 1;
      }
      PassedAll(cs, kept, learnts);
    }

    /** The same for clause number `i` of `cs`, after those that are `kept`. */
    method KeepOrDrop(cs: seq<CRef>, i: nat, kept: seq<CRef>, want: bool) returns (dropped: bool)
      requires Core(qhead) && i < |cs| && Passed(cs, i, kept, learnts)
      modifies this`mark, this`dirties, this`reason, this`learnts
      ensures T() == old(T()) && (dropped <==> want && Reducible(T(), ca, cs[i]))
      ensures cs[i] < |old(mark)| && mark == if dropped then old(mark)[cs[i] := true] else old(mark)
      ensures Core(qhead) && reason == old(reason)
      ensures Passed(cs, i + 1, if dropped then kept else kept + [cs[i]], learnts)
    {
      hide *;
      var rest := cs[i + 1..];
      PassedNext(cs, i, kept, learnts, rest);
      dropped := DropLearnt(kept, cs[i], rest, want);
    }

    /** Deletes a learnt clause, or keeps it: it must stay if it is short or locked. */
    method DropLearnt(kept: seq<CRef>, cr: CRef, rest: seq<CRef>, want: bool) returns (dropped: bool)
      requires Core(qhead) && learnts == kept + [cr] + rest
      modifies this`mark, this`dirties, this`reason, this`learnts
      ensures T() == old(T()) && (dropped <==> want && Reducible(T(), ca, cr))
      ensures cr < |old(mark)| && mark == if dropped then old(mark)[cr := true] else old(mark)
      ensures Core(qhead) && reason == old(reason) && learnts == if dropped then kept + rest else old(learnts)
    {
      hide TrailOk, ReasonOk, DbOk, WatchShape, DirtyOk, WatchInv, Sound, Units, ListsOk, AllFresh, NoDup, Complete,
        HeapCovers;
      assert clauses + learnts == (clauses + kept) + [cr] + rest;
      DropFromLists(mark, clauses, kept, cr, rest);
      ClauseFacts(formula, T(), ca, mark, watches, dirties, qhead, cr);
      dropped := false;
      if want && |ca[cr]| > 2 && !Locked(cr) {
        RemoveClause(cr, qhead);
        learnts := kept + rest;
        dropped := true;
      }
    }

    // ---------- search ----------

    /** Propagation within the solver's invariant. */
    method PropagateAll() returns (confl: Option<CRef>)
      requires Core(qhead)
      modifies this`ca, this`watches, this`dirties, this`assigns, this`level, this`reason, this`trail, this`pos,
        this`qhead
      ensures Extends(old(T()), T()) && Explained(old(T()), T()) && qhead == |trail| && TrailOk(T())
      ensures |assigns| == old(|assigns|) && (confl.None? ==> Core(qhead))
      ensures confl.Some? && |trailLim| > 0 ==> Core(trailLim[|trailLim| - 1]) && Conflicting(confl.value)
      ensures confl.Some? && |trailLim| == 0 ==> Lost()
    {
      hide TrailOk, ReasonOk, DbOk, WatchShape, DirtyOk, WatchInv, Sound, Units, ListsOk, Complete, SameSets,
        HeapCovers, Explained;
      ghost var t, ca0 := T(), ca;
      confl := Propagate();
      ClausesInMemory(mark, clauses, learnts);
      MarkSize(ca, mark, watches);
      assert TrailOk(t) && TrailOk(T());
      SameSizes(ca0, ca);
      ExtendComplete(formula, t, T(), ca0, ca0, clauses);
      CompleteReorder(formula, T(), ca0, ca, clauses);
      HeapExtend(decision, t, T(), order.Elems(), |order.indices|);
      if confl.Some? {
        if |trailLim| == 0 {
          SoundAt(formula, ca, confl.value);
          RootConflict(formula, T(), ca[confl.value]);
        } else {
          IdleWeaken(formula, T(), ca, mark, watches, dirties, old(qhead), trailLim[|trailLim| - 1]);
        }
      }
    }

    /** Removes satisfied clauses at the root level; false when the formula is refuted. */
    method Simplify(due: bool) returns (good: bool)
      requires Valid()
      modifies this`ok, this`ca, this`mark, this`clauses, this`learnts, this`watches, this`dirties, this`assigns,
        this`level, this`reason, this`trail, this`pos, this`qhead, order
      ensures ok == good && Valid() && |assigns| == old(|assigns|)
      ensures good && due ==> Tidied()
      ensures good ==> Extends(old(T()), T()) && qhead == |trail|
    {
      hide TrailOk, ReasonOk, DbOk, WatchShape, DirtyOk, WatchInv, Sound, Units, ListsOk, AllFresh, NoDup, Complete,
        HeapCovers, Explained, Clear, Heap.Valid, Heap.Elems, StrictWeak, Tidied;
      if !ok { return false; }
      var confl := PropagateAll();
      if confl.Some? {
        ok := false;
        return false;
      }
      if !due { return true; }
      DropSatisfied();
      return true;
    }

    /** No listed clause has a true literal, and the order has exactly the unassigned decision variables. */
    ghost predicate Tidied()
      reads this`ca, this`assigns, this`clauses, this`learnts, this`decision, order
    {
      && (forall cr :: cr in clauses || cr in learnts ==> !HasTrue(cr))
      && forall v: nat :: v in order.Elems() <==>
           v < |assigns| && v < |decision| && decision[v] && assigns[v] == LUndef
    }

    lemma IsTidied(clauses0: seq<CRef>, learnts0: seq<CRef>)
      requires KeepsRest(clauses0, clauses) && KeepsRest(learnts0, learnts)
      requires forall v: nat :: v in order.Elems() <==>
        v < |assigns| && v < |decision| && decision[v] && assigns[v] == LUndef
      ensures Tidied()
    {
      hide HasTrue;
    }

    /** Deletes the clauses satisfied at the root and rebuilds the order. */
    method DropSatisfied()
      requires Core(qhead) && |trailLim| == 0
      modifies this`mark, this`clauses, this`learnts, this`dirties, this`reason, order
      ensures Core(qhead) && |reason| == old(|reason|) && Tidied()
    {
      hide *;
      CoreParts(qhead);
      Listings();
      learnts := RemoveSatisfied(learnts, false, clauses, [], qhead);
      Listings();
      clauses := RemoveSatisfied(clauses, true, [], learnts, qhead);
      Listings();
      IdleMeans(qhead);
      IsCore(qhead);
      CoreParts(qhead);
      RebuildOrderHeap();
      IdleMeans(qhead);
      IsCore(qhead);
      IsTidied(old(clauses), old(learnts));
    }

    lemma IdleMeans(q: nat)
      requires Idle(q)
      ensures IdleOk(formula, T(), ca, mark, watches, dirties, q)
    {
    }

    /** Adds the learnt clause and enqueues its first literal. */
    method Learn(learnt: Clause)
      requires Core(qhead) && qhead == |trail| && Implied(formula, learnt) && |learnt| >= 1
      requires learnt[0].v < |assigns| && Val(assigns, learnt[0]) == LUndef
      requires forall k :: 1 <= k < |learnt| ==> Val(assigns, learnt[k]) == LFalse
      requires |learnt| == 1 ==> |trailLim| == 0
      requires |learnt| > 1 ==> ClauseOk(learnt, |assigns|) && Lev(T(), learnt[1]) == |trailLim|
      modifies this`ca, this`mark, this`learnts, this`watches, this`assigns, this`level, this`reason, this`trail,
        this`pos
      ensures Core(qhead) && Shape(old(T())) && (|learnt| > 1 || |trailLim| == 0)
      ensures T() == Enqueued(old(T()), learnt[0], if |learnt| > 1 then Some(|old(ca)|) else None)
      ensures |learnt| > 1 ==> ca == old(ca) + [learnt] && learnts == old(learnts) + [|old(ca)|]
      ensures |learnt| > 1 ==> watches == Attached(old(watches), |old(ca)|, learnt)
    {
      hide *;
      ghost var t := T();
      StateIs();
      CoreParts(qhead);
      if |learnt| == 1 {
        assert learnt == [learnt[0]];
        EnqueueIdle(formula, t, ca, mark, watches, dirties, qhead, learnt[0]);
        Put(learnt[0], None, -1);
        EnqueuedLits(t, learnt[0], None);
        ClausesInMemory(mark, clauses, learnts);
        IdleTrail(formula, T(), ca, mark, watches, dirties, qhead);
        ExtendComplete(formula, t, T(), ca, ca, clauses);
      } else {
        LearnClause(learnt);
      }
      IsCore(qhead);
    }

    method LearnClause(learnt: Clause)
      requires Idle(qhead) && qhead == |trail| && Implied(formula, learnt) && ClauseOk(learnt, |assigns|) && Shape(T())
      requires Sizes() && HeapOk(-1) && TrailOk(T()) && |mark| == |ca|
      requires ListsOk(mark, clauses, learnts) && Complete(formula, T(), ca, clauses)
      requires learnt[0].v < |assigns| && Val(assigns, learnt[0]) == LUndef
      requires forall k :: 1 <= k < |learnt| ==> Val(assigns, learnt[k]) == LFalse
      requires Lev(T(), learnt[1]) == |trailLim|
      modifies this`ca, this`mark, this`learnts, this`watches, this`assigns, this`level, this`reason, this`trail,
        this`pos
      ensures IdleOk(formula, T(), ca, mark, watches, dirties, qhead) && Sizes() && HeapOk(-1)
      ensures ListsOk(mark, clauses, learnts) && Complete(formula, T(), ca, clauses)
      ensures T() == Enqueued(old(T()), learnt[0], Some(|old(ca)|))
      ensures ca == old(ca) + [learnt] && learnts == old(learnts) + [|old(ca)|]
        && watches == Attached(old(watches), |old(ca)|, learnt)
    {
      hide *;
      ghost var t, ca0 := T(), ca;
      StateIs();
      IdleMeans(qhead);
      ClausesInMemory(mark, clauses, learnts);
      LearnStep(formula, t, ca, mark, watches, dirties, learnt);
      ListsAdd(mark, clauses, learnts);
      ClauseTwo(learnt, |assigns|);
      var cr := |ca|;
      AllocAndAttach(learnt);
      learnts := learnts + [cr];
      Put(learnt[0], Some(cr), -1);
      EnqueuedLits(t, learnt[0], Some(cr));
      IdleTrail(formula, T(), ca, mark, watches, dirties, qhead);
      ExtendComplete(formula, t, T(), ca0, ca, clauses);
    }

    method AllocAndAttach(c: Clause)
      requires |c| >= 2
      modifies this`ca, this`mark, this`watches
      ensures ca == old(ca) + [c] && mark == old(mark) + [false] && watches == Attached(old(watches), |old(ca)|, c)
    {
      var cr := |ca|;
      ca, mark := ca + [c], mark + [false];
      watches := watches[c[0].Not() := WL(watches, c[0].Not()) + [Watcher(cr, c[1])]];
      watches := watches[c[1].Not() := WL(watches, c[1].Not()) + [Watcher(cr, c[0])]];
    }

    /** Opens a decision level with `p`. */
    method OpenLevel()
      modifies this`trailLim
      ensures T() == old(T()).(lim := old(trailLim) + [|trail|]) && trailLim == old(trailLim) + [|trail|]
    {
      trailLim := trailLim + [|trail|];
    }

    method Decide(p: Lit)
      requires Idle(qhead) && Sizes() && NoMarks() && HeapOk(p.v) && ListsOk(mark, clauses, learnts)
      requires Complete(formula, T(), ca, clauses)
      requires qhead == |trail| && p.v < |assigns| && assigns[p.v] == LUndef
      modifies this`assigns, this`level, this`reason, this`trail, this`trailLim, this`pos
      ensures Core(qhead) && Shape(old(T()))
      ensures T() == Enqueued(old(T()).(lim := old(trailLim) + [old(|trail|)]), p, None)
    {
      hide *;
      ghost var t := T();
      IdleMeans(qhead);
      IdleTrail(formula, t, ca, mark, watches, dirties, qhead);
      StateIs();
      NewLevel(formula, t, ca, mark, watches, dirties);
      ClausesInMemory(mark, clauses, learnts);
      OpenLevel();
      ghost var t1 := T();
      StateIs();
      LevelRoot(t);
      UndefVar(assigns, p);
      CompleteSameRoot(formula, t, t1, ca, clauses);
      IdleTrail(formula, t1, ca, mark, watches, dirties, qhead);
      EnqueueIdle(formula, t1, ca, mark, watches, dirties, qhead, p);
      DecideComplete(formula, t1, p, ca, clauses);
      Put(p, None, p.v);
      QueueFrom(qhead);
      IsCore(qhead);
    }

    ghost predicate Searching()
      reads this`assigns, this`level, this`reason, this`trail, this`trailLim, this`pos, this`formula, this`ca,
        this`mark, this`watches, this`dirties,
        this`clauses, this`learnts, this`seen, this`activity, this`polarity, this`decision, this`ok,
        this`qhead, this`assumptions, order
    {
      && ok && Core(qhead) && AssumpOk(T(), assumptions)
      && LevelsUsed(trailLim, |trail|, |assumptions|) && VarsBelow(assumptions, |assigns|)
    }

    /** The termination measure of a search. */
    ghost function Measure(): nat
      reads this`assigns, this`level, this`reason, this`trail, this`trailLim, this`pos, this`assumptions
    {
      TotalWeight(T(), |assigns| + 1, |assigns| + |assumptions|)
    }

    /** Conflict analysis does not disturb the rest of the state. */
    method LearnFrom(confl: CRef) returns (learnt: Clause, bt: nat)
      requires |trailLim| > 0 && Core(trailLim[|trailLim| - 1]) && Conflicting(confl)
      modifies this`seen, this`analyzeToclear, this`activity, order
      ensures Core(trailLim[|trailLim| - 1])
      ensures LearntOk(formula, T(), learnt, bt) && FirstUip(T(), ca, ca[confl], Pos(T(), learnt[0]))
      ensures Irreducible(ccminMode, T(), ca, learnt)
    {
      hide *;
      ghost var q := trailLim[|trailLim| - 1];
      CoreParts(q);
      HeapParts();
      ghost var elems, bound := order.Elems(), |order.indices|;
      learnt, bt := Analyze(confl);
      HeapFrom(elems, bound);
      IsCore(q);
    }

    lemma HeapParts()
      requires HeapOk(-1) && Sizes() && NoMarks()
      ensures OrderOk() && HeapCovers(decision, assigns, order.Elems(), |order.indices|, -1)
      ensures |activity| == |assigns| && |seen| == |assigns| && Clear(seen)
    {
    }

    lemma HeapFrom(elems: set<nat>, bound: nat)
      requires OrderOk() && order.Elems() == elems && |order.indices| == bound
      requires HeapCovers(decision, assigns, elems, bound, -1) && |activity| == |assigns| && |seen| == |assigns|
        && Clear(seen)
      ensures HeapOk(-1) && NoMarks()
      ensures |polarity| == |assigns| && |decision| == |assigns| ==> Sizes()
    {
    }

    /** Analyses the conflict, jumps back, and learns: the clause is unit there, attached, and its first
        literal, at the first unique implication point, is enqueued. */
    method HandleConflict(confl: CRef) returns (ghost learnt: Clause, ghost bt: nat, ghost u: Trail)
      requires |trailLim| > 0 && Core(trailLim[|trailLim| - 1]) && Conflicting(confl)
      requires AssumpOk(T(), assumptions) && LevelsUsed(trailLim, |trail|, |assumptions|)
      modifies this`ca, this`mark, this`learnts, this`watches, this`assigns, this`level, this`reason, this`trail,
        this`pos,
        this`trailLim, this`qhead, this`polarity, this`seen, this`analyzeToclear, this`activity, order
      ensures Core(qhead) && AssumpOk(T(), assumptions) && LevelsUsed(trailLim, |trail|, |assumptions|)
      ensures |assigns| == old(|assigns|) && Measure() > old(Measure())
      ensures LearntOk(formula, old(T()), learnt, bt)
        && FirstUip(old(T()), old(ca), old(ca)[confl], Pos(old(T()), learnt[0]))
      ensures Irreducible(ccminMode, old(T()), old(ca), learnt)
      ensures JumpedTo(old(T()), old(ca), old(learnts), old(watches), u, learnt, bt)
    {
      hide *;
      var out, level := LearnFrom(confl);
      learnt, bt := out, level;
      u := JumpAndLearn(out, level);
    }

    /** The state after the jump to `u`, where `learnt` was unit, and after learning it. */
    ghost predicate JumpedTo(t: Trail, ca0: seq<Clause>, learnts0: seq<CRef>, watches0: WatchMap, u: Trail,
                             learnt: Clause, bt: nat)
      reads this`assigns, this`level, this`reason, this`trail, this`trailLim, this`pos, this`ca, this`learnts,
        this`watches
    {
      && CutTo(t, u, bt) && Shape(u) && |learnt| > 0 && learnt[0].v < |u.assigns|
      && Val(u.assigns, learnt[0]) == LUndef && (forall k :: 1 <= k < |learnt| ==> Val(u.assigns, learnt[k]) == LFalse)
      && T() == Enqueued(u, learnt[0], if |learnt| > 1 then Some(|ca0|) else None)
      && (|learnt| > 1 ==>
          ca == ca0 + [learnt] && learnts == learnts0 + [|ca0|] && watches == Attached(watches0, |ca0|, learnt))
    }

    method JumpAndLearn(learnt: Clause, bt: nat) returns (ghost u: Trail)
      requires |trailLim| > 0 && Core(trailLim[|trailLim| - 1]) && LearntOk(formula, T(), learnt, bt)
      requires AssumpOk(T(), assumptions) && LevelsUsed(trailLim, |trail|, |assumptions|)
      modifies this`ca, this`mark, this`learnts, this`watches, this`assigns, this`level, this`reason, this`trail,
        this`pos,
        this`trailLim, this`qhead, this`polarity, order
      ensures Core(qhead) && AssumpOk(T(), assumptions) && LevelsUsed(trailLim, |trail|, |assumptions|)
      ensures |assigns| == old(|assigns|) && Measure() > old(Measure())
      ensures JumpedTo(old(T()), old(ca), old(learnts), old(watches), u, learnt, bt)
    {
      hide *;
      ghost var t := T();
      StateIs();
      CoreParts(trailLim[|trailLim| - 1]);
      LearntLevel(formula, t, learnt, bt);
      LimsSorted(t, bt);
      CancelUntil(bt, trailLim[|trailLim| - 1]);
      u := T();
      StateIs();
      CoreParts(qhead);
      LearntUnit(formula, t, u, learnt, bt);
      CutLim(t, u, bt);
      ghost var from := if |learnt| > 1 then Some(|ca|) else None;
      UndefVar(u.assigns, learnt[0]);
      JumpKeeps(t, u, bt, learnt[0], from, assumptions);
      Learn(learnt);
      EnqueuedLits(u, learnt[0], from);
      StateIs();
      IsJumped(t, old(ca), old(learnts), old(watches), u, learnt, bt);
    }

    lemma StateIs()
      ensures Measure() == TotalWeight(T(), |assigns| + 1, |assigns| + |assumptions|)
      ensures T().lim == trailLim && T().lits == trail && T().assigns == assigns
    {
    }

    lemma IsJumped(t: Trail, ca0: seq<Clause>, learnts0: seq<CRef>, watches0: WatchMap, u: Trail, learnt: Clause,
                   bt: nat)
      requires CutTo(t, u, bt) && Shape(u) && |learnt| > 0 && learnt[0].v < |u.assigns|
      requires Val(u.assigns, learnt[0]) == LUndef
        && forall k :: 1 <= k < |learnt| ==> Val(u.assigns, learnt[k]) == LFalse
      requires T() == Enqueued(u, learnt[0], if |learnt| > 1 then Some(|ca0|) else None)
      requires |learnt| > 1 ==>
        ca == ca0 + [learnt] && learnts == learnts0 + [|ca0|] && watches == Attached(watches0, |ca0|, learnt)
      ensures JumpedTo(t, ca0, learnts0, watches0, u, learnt, bt)
    {
    }

    /** Opens the levels of the assumptions in turn; `failed` when one is already false. */
    method NextAssumption() returns (next: Option<Lit>, failed: bool)
      requires Searching() && qhead == |trail| && conflict == []
      modifies this`trailLim, this`seen, this`conflict
      ensures ok && Core(qhead) && failed == (conflict != [])
      ensures failed ==> Implied(formula, conflict) && forall l :: l in conflict ==> l.Not() in assumptions
      ensures failed ==> Causes(T(), ca, conflict)
      ensures !failed ==> Searching() && Measure() == old(Measure())
      ensures !failed && next.None? ==> |trailLim| >= |assumptions|
      ensures !failed && next.Some? ==> |trailLim| < |assumptions| && next.value == assumptions[|trailLim|]
      ensures !failed && next.Some? ==> next.value.v < |assigns| && assigns[next.value.v] == LUndef
    {
      hide *;
      next, failed := None, false;
      while |trailLim| < |assumptions|
        invariant Searching() && conflict == [] && Measure() == old(Measure())
        decreases |assumptions| - |trailLim|
      {
        var p := assumptions[|trailLim|];
        ValueOf(p);
        if Value(p) == LTrue {
          DummyLevel();
        } else if Value(p) == LFalse {
          conflict := FailedAssumption(p);
          failed := true;
          return;
        } else {
          SearchParts();
          VarBelow(assumptions, |assigns|, p);
          next := Some(p);
          return;
        }
      }
      SearchParts();
    }

    lemma ValueOf(p: Lit)
      ensures Value(p) == Val(assigns, p) && (p.v < |assigns| && Value(p) == LUndef ==> assigns[p.v] == LUndef)
      ensures Value(p) == LFalse ==> Val(assigns, p.Not()) == LTrue && p.Not().Not() == p
    {
    }

    /** The assumptions that make `p`, itself an assumption, false. */
    method FailedAssumption(p: Lit) returns (out: seq<Lit>)
      requires Searching() && qhead == |trail| && |trailLim| < |assumptions| && p in assumptions
      requires Val(assigns, p.Not()) == LTrue && p.Not().Not() == p
      modifies this`seen
      ensures ok && Core(qhead)
      ensures out != [] && out[0] == p.Not() && Causes(T(), ca, out)
      ensures Implied(formula, out) && forall l :: l in out ==> l.Not() in assumptions
    {
      hide *;
      ghost var t := T();
      StateIs();
      SearchParts();
      CoreParts(qhead);
      MayAnalyze(qhead);
      out := AnalyzeFinal(p.Not());
      SeenAsLong();
      IsCore(qhead);
    }

    lemma MayAnalyze(q: nat)
      requires IdleOk(formula, T(), ca, mark, watches, dirties, q) && Sizes()
      ensures Analyzing() && |activity| == |polarity| == |decision| == |assigns|
    {
      IdleTrail(formula, T(), ca, mark, watches, dirties, q);
    }

    lemma SeenAsLong()
      requires Analyzing() && |activity| == |polarity| == |decision| == |assigns|
      ensures Sizes()
    {
    }

    lemma SearchParts()
      requires Searching()
      ensures ok && Core(qhead) && AssumpOk(T(), assumptions) && LevelsUsed(trailLim, |trail|, |assumptions|)
      ensures VarsBelow(assumptions, |assigns|)
    {
    }

    /** An empty decision level for an assumption that already holds. */
    method DummyLevel()
      requires Searching() && qhead == |trail| && |trailLim| < |assumptions|
      requires Val(assigns, assumptions[|trailLim|]) == LTrue
      modifies this`trailLim
      ensures Searching() && Measure() == old(Measure()) && |trailLim| == old(|trailLim|) + 1
    {
      hide *;
      ghost var t := T();
      StateIs();
      SearchParts();
      CoreParts(qhead);
      NewLevel(formula, t, ca, mark, watches, dirties);
      AssumpDummy(t, assumptions);
      LevelsOpen(trailLim, |trail|, |assumptions|);
      OpenLevel();
      LevelRoot(t);
      CompleteSameRoot(formula, t, T(), ca, clauses);
      WeightLevels(t, T(), |assigns| + 1, |assigns| + |assumptions|);
      StateIs();
      QueueFrom(qhead);
      IsCore(qhead);
      IsSearching();
    }

    /** The formula is refuted, or it is refuted under the assumptions named in `conflict`. */
    ghost predicate Refuted()
      reads this`assigns, this`level, this`reason, this`trail, this`trailLim, this`pos, this`formula, this`ca,
        this`mark, this`watches, this`dirties,
        this`clauses, this`learnts, this`seen, this`activity, this`polarity, this`decision, this`ok,
        this`qhead, this`assumptions, this`conflict, order
    {
      if conflict == [] then Lost()
      else
        && ok && Core(qhead) && Implied(formula, conflict) && Causes(T(), ca, conflict)
        && forall l :: l in conflict ==> l.Not() in assumptions
    }

    /** The assignment is propagated, covers every decision variable and meets the assumptions. */
    ghost predicate Found()
      reads this`assigns, this`level, this`reason, this`trail, this`trailLim, this`pos, this`formula, this`ca,
        this`mark, this`watches, this`dirties,
        this`clauses, this`learnts, this`seen, this`activity, this`polarity, this`decision, this`ok,
        this`qhead, this`assumptions, this`conflict, order
    {
      && ok && Core(qhead) && qhead == |trail| && conflict == []
      && (forall v :: 0 <= v < |assigns| && v < |decision| && decision[v] ==> assigns[v] != LUndef)
      && (forall l :: l in assumptions ==> Val(assigns, l) == LTrue)
    }

    /** Root-level simplification inside a search. */
    method SimplifyRoot(due: bool) returns (good: bool)
      requires Searching() && qhead == |trail| && |trailLim| == 0
      modifies this`ok, this`ca, this`mark, this`clauses, this`learnts, this`watches, this`dirties, this`assigns,
        this`level, this`reason, this`trail, this`pos, this`qhead, order
      ensures good ==> Searching() && qhead == |trail| && |trailLim| == 0 && Measure() >= old(Measure())
      ensures |assigns| == old(|assigns|) && (!good ==> Lost()) && (good && due ==> Tidied())
    {
      hide Tidied, TrailOk, ReasonOk, DbOk, WatchShape, DirtyOk, WatchInv, Sound, Units, ListsOk, Complete, HeapCovers,
        Clear,
        Heap.Valid, Heap.Elems, StrictWeak, AssumpOk, LevelsUsed, TotalWeight, VarsBelow, Unsat;
      ghost var t := T();
      good := Simplify(due);
      if good {
        AssumpRoot(T(), assumptions);
        ExtendKeeps(t, T(), assumptions);
      }
    }

    /** The part of a search round without conflict: simplify, reduce, then decide. */
    method NextDecision() returns (status: LBool)
      requires Searching() && qhead == |trail| && conflict == []
      modifies this`ok, this`ca, this`mark, this`clauses, this`learnts, this`watches, this`dirties, this`assigns,
        this`level, this`reason, this`trail, this`trailLim, this`pos, this`qhead, this`seen, this`conflict, order
      ensures |assigns| == old(|assigns|)
      ensures status == LUndef ==> Searching() && Measure() > old(Measure()) && conflict == []
      ensures status == LTrue ==> Found()
      ensures status == LFalse ==> Refuted()
    {
      hide *;
      if |trailLim| == 0 {
        var due: bool := *;
        var good := SimplifyRoot(due);
        if !good { RefutedNow(); return LFalse; }
      }
      var reduce: bool := *;
      var chosen: set<CRef> := *;
      if reduce { ReduceSearch(chosen); }
      var next, failed := NextAssumption();
      if failed { RefutedByAssumptions(); return LFalse; }
      status := Branch(next);
    }

    lemma RefutedNow()
      requires conflict == [] && Lost()
      ensures Refuted()
    {
    }

    lemma RefutedByAssumptions()
      requires conflict != [] && ok && Core(qhead) && Implied(formula, conflict) && Causes(T(), ca, conflict)
      requires forall l :: l in conflict ==> l.Not() in assumptions
      ensures Refuted()
    {
    }

    method ReduceSearch(chosen: set<CRef>)
      requires Searching()
      modifies this`mark, this`dirties, this`reason, this`learnts
      ensures Searching() && Measure() == old(Measure())
      ensures Reduces(T(), ca, chosen, old(mark), mark, old(learnts), |old(learnts)|, learnts)
    {
      hide Reduces, TrailOk, ReasonOk, DbOk, WatchShape, DirtyOk, WatchInv, Sound, Units, ListsOk, Complete, HeapCovers,
        Clear,
        Heap.Valid, Heap.Elems, StrictWeak, AssumpOk, LevelsUsed, TotalWeight, VarsBelow, Unsat, Implied;
      ReduceDB(chosen);
    }

    /** Decides the next assumption, or any unassigned decision variable; a model when none is left. */
    method Branch(assumed: Option<Lit>) returns (status: LBool)
      requires Searching() && qhead == |trail| && conflict == []
      requires assumed.None? ==> |trailLim| >= |assumptions|
      requires assumed.Some? ==> |trailLim| < |assumptions| && assumed.value == assumptions[|trailLim|]
      requires assumed.Some? ==> assumed.value.v < |assigns| && assigns[assumed.value.v] == LUndef
      modifies this`assigns, this`level, this`reason, this`trail, this`trailLim, this`pos, order
      ensures |assigns| == old(|assigns|) && status != LFalse
      ensures status == LUndef ==> Searching() && Measure() > old(Measure())
      ensures status == LTrue ==> Found()
    {
      hide TrailOk, ReasonOk, DbOk, WatchShape, DirtyOk, WatchInv, Sound, Units, ListsOk, Complete, HeapCovers, Clear,
        Heap.Valid, Heap.Elems, StrictWeak, AssumpOk, LevelsUsed, TotalWeight, VarsBelow, Unsat, Implied;
      var next := assumed;
      if next.None? {
        next := PickBranchLit();
        if next.None? {
          AllAssumed(T(), assumptions);
          return LTrue;
        }
      } else {
        HeapSkip(decision, assigns, order.Elems(), |order.indices|, next.value.v);
      }
      DecideSearch(next.value);
      return LUndef;
    }

    method DecideSearch(p: Lit)
      requires ok && Idle(qhead) && Sizes() && NoMarks() && HeapOk(p.v) && ListsOk(mark, clauses, learnts)
      requires Complete(formula, T(), ca, clauses) && VarsBelow(assumptions, |assigns|)
      requires AssumpOk(T(), assumptions) && LevelsUsed(trailLim, |trail|, |assumptions|)
      requires qhead == |trail| && p.v < |assigns| && assigns[p.v] == LUndef
      requires |trailLim| < |assumptions| ==> p == assumptions[|trailLim|]
      modifies this`assigns, this`level, this`reason, this`trail, this`trailLim, this`pos
      ensures |assigns| == old(|assigns|) && Searching() && Measure() > old(Measure())
    {
      hide TrailOk, ReasonOk, DbOk, WatchShape, DirtyOk, WatchInv, Sound, Units, ListsOk, Complete, HeapCovers, Clear,
        Heap.Valid, Heap.Elems, StrictWeak, AssumpOk, LevelsUsed, TotalWeight, VarsBelow, Unsat, Implied;
      ghost var t := T();
      Decide(p);
      DecideKeeps(t, p, assumptions);
    }

    /** A conflict above the root level, with the search's invariants. */
    ghost predicate InConflict(confl: CRef)
      reads this`assigns, this`level, this`reason, this`trail, this`trailLim, this`pos, this`formula, this`ca,
        this`mark, this`watches, this`dirties,
        this`clauses, this`learnts, this`seen, this`activity, this`polarity, this`decision, this`ok,
        this`assumptions, order
    {
      && ok && |trailLim| > 0 && Core(trailLim[|trailLim| - 1]) && Conflicting(confl)
      && AssumpOk(T(), assumptions) && LevelsUsed(trailLim, |trail|, |assumptions|) && VarsBelow(assumptions, |assigns|)
    }

    method SearchPropagate() returns (confl: Option<CRef>)
      requires Searching()
      modifies this`ca, this`watches, this`dirties, this`assigns, this`level, this`reason, this`trail, this`pos,
        this`qhead
      ensures |assigns| == old(|assigns|) && Measure() >= old(Measure())
      ensures confl.None? ==> Searching() && qhead == |trail|
      ensures confl.Some? ==> if |trailLim| == 0 then Lost() else InConflict(confl.value)
    {
      hide TrailOk, ReasonOk, DbOk, WatchShape, DirtyOk, WatchInv, Sound, Units, ListsOk, Complete, HeapCovers, Clear,
        Heap.Valid, Heap.Elems, StrictWeak, AssumpOk, LevelsUsed, TotalWeight, VarsBelow, Unsat, Implied, Explained;
      ghost var t := T();
      confl := PropagateAll();
      ExtendKeeps(t, T(), assumptions);
      AssumpExtend(t, T(), assumptions);
    }

    method SearchLearn(confl: CRef)
      requires InConflict(confl)
      modifies this`ca, this`mark, this`learnts, this`watches, this`assigns, this`level, this`reason, this`trail,
        this`pos,
        this`trailLim, this`qhead, this`polarity, this`seen, this`analyzeToclear, this`activity, order
      ensures Searching() && |assigns| == old(|assigns|) && Measure() > old(Measure())
    {
      hide *;
      ConflictState(confl);
      ghost var learnt, bt, u := HandleConflict(confl);
      IsSearching();
    }

    lemma ConflictState(confl: CRef)
      requires InConflict(confl)
      ensures ok && |trailLim| > 0 && Core(trailLim[|trailLim| - 1]) && Conflicting(confl)
      ensures AssumpOk(T(), assumptions) && LevelsUsed(trailLim, |trail|, |assumptions|)
        && VarsBelow(assumptions, |assigns|)
    {
    }

    lemma IsSearching()
      requires ok && Core(qhead) && AssumpOk(T(), assumptions) && LevelsUsed(trailLim, |trail|, |assumptions|)
      requires VarsBelow(assumptions, |assigns|)
      ensures Searching()
    {
    }

    /** Gives up the current decisions. */
    method Restart()
      requires Searching() && qhead == |trail|
      modifies this`assigns, this`trail, this`trailLim, this`qhead, this`polarity, order
      ensures Searching() && |trailLim| == 0 && |assigns| == old(|assigns|)
    {
      hide TrailOk, ReasonOk, DbOk, WatchShape, DirtyOk, WatchInv, Sound, Units, ListsOk, Complete, HeapCovers, Clear,
        Heap.Valid, Heap.Elems, StrictWeak, AssumpOk, LevelsUsed, TotalWeight, VarsBelow, Unsat, Implied;
      if |trailLim| > 0 {
        LimsBelow(T(), 0);
        CancelUntil(0, qhead);
        AssumpRoot(T(), assumptions);
      }
    }

    lemma MeasureBound()
      requires Searching()
      ensures Measure() <= MaxConflicts(|assigns|, |assumptions|)
    {
      WeightMax(T(), assumptions);
    }

    /** Searches until the formula is decided or the bound on conflicts is reached; a negative bound
        means no bound.  Terminates for every bound. */
    method Search(nofConflicts: int, limited: bool) returns (status: LBool, exhausted: bool)
      requires Searching() && conflict == []
      modifies this`ok, this`ca, this`mark, this`clauses, this`learnts, this`watches, this`dirties, this`assigns,
        this`level, this`reason, this`trail, this`trailLim, this`pos, this`qhead, this`seen, this`analyzeToclear,
        this`activity, this`polarity, this`conflict, this`conflicts, order
      ensures |assigns| == old(|assigns|) && conflicts >= old(conflicts)
      ensures status == LUndef && !exhausted ==> conflicts >= old(conflicts) + nofConflicts
      ensures status == LTrue ==> Found()
      ensures status == LFalse ==> Refuted()
      ensures status == LUndef ==> Searching() && |trailLim| == 0 && conflict == []
      ensures exhausted ==> limited
      ensures status == LUndef ==> exhausted || 0 <= nofConflicts <= MaxConflicts(|assigns|, |assumptions|)
    {
      hide *;
      var conflictC: nat := 0;
      exhausted := false;
      ghost var bound := MaxConflicts(|assigns|, |assumptions|);
      while true
        invariant Searching() && conflict == [] && |assigns| == old(|assigns|) && conflictC <= Measure() && !exhausted
        invariant conflicts == old(conflicts) + conflictC
        decreases bound - Measure()
      {
        MeasureBound();
        var confl := SearchPropagate();
        if confl.Some? {
          conflicts, conflictC := conflicts + 1, conflictC + 1;
          if |trailLim| == 0 {
            RefutedNow();
            return LFalse, false;
          }
          SearchLearn(confl.value);
        } else {
          var over: bool := *;
          exhausted := limited && over;
          MeasureBound();
          if (nofConflicts >= 0 && conflictC >= nofConflicts) || exhausted {
            Restart();
            return LUndef, exhausted;
          }
          status := NextDecision();
          if status != LUndef { return status, false; }
        }
      }
    }

    // ---------- the public interface ----------

    /** Between calls the solver is at the root level, or the added clauses are refuted. */
    ghost predicate Valid()
      reads this`assigns, this`level, this`reason, this`trail, this`trailLim, this`pos, this`formula, this`ca,
        this`mark, this`watches, this`dirties,
        this`clauses, this`learnts, this`seen, this`activity, this`polarity, this`decision, this`ok,
        this`qhead, order
    {
      if ok then Core(qhead) && |trailLim| == 0 else Lost()
    }

    lemma EmptyState()
      requires ok && ca == [] && mark == [] && clauses == [] && learnts == [] && watches == map[] && dirties == []
      requires assigns == [] && level == [] && reason == [] && trail == [] && trailLim == [] && qhead == 0 && pos == []
      requires seen == [] && activity == [] && decision == [] && polarity == [] && formula == {} && varInc == 1.0
      requires order.Valid() && order.lt == ActivityLt([]) && order.heap == []
      ensures Valid()
    {
      assert forall p :: WL(watches, p) == [];
      assert WatchShape(ca, mark, watches);
      assert WatchInv(T(), ca, watches, 0);
      assert Complete(formula, T(), ca, clauses);
    }

    /** Adds a variable; `dvar` makes it eligible for decisions. */
    method NewVar(sign: bool, dvar: bool, initial: real) returns (v: Var)
      requires Valid() && initial >= 0.0
      modifies this`assigns, this`level, this`reason, this`pos, this`seen, this`activity, this`polarity, this`decision,
        order
      ensures Valid() && ok == old(ok) && v == old(|assigns|) && |assigns| == v + 1
        && decision == old(decision) + [dvar] && polarity == old(polarity) + [sign]
    {
      hide *;
      v := |assigns|;
      ghost var t := T();
      StateIs();
      ValidParts();
      GrowVar(sign, dvar, initial);
      if ok { IsGrown(t); } else { IsLost(t); }
    }

    /** One more variable everywhere. */
    method GrowVar(sign: bool, dvar: bool, initial: real)
      requires Sizes() && HeapOk(-1) && initial >= 0.0
      requires ok ==>
        NoMarks() && IdleOk(formula, T(), ca, mark, watches, dirties, qhead) && Complete(formula, T(), ca, clauses)
      modifies this`assigns, this`level, this`reason, this`pos, this`seen, this`activity, this`polarity, this`decision,
        order
      ensures T() == WithVar(old(T())) && Grown(old(T()))
      ensures decision == old(decision) + [dvar] && polarity == old(polarity) + [sign]
      ensures ok ==>
        NoMarks() && IdleOk(formula, T(), ca, mark, watches, dirties, qhead) && Complete(formula, T(), ca, clauses)
    {
      hide *;
      if ok {
        NewVarIdle(formula, T(), ca, mark, watches, dirties, qhead);
        NewVarComplete(formula, T(), ca, clauses);
      }
      NewVarOrder(dvar, initial);
      GrowTrail(sign);
    }

    lemma ValidParts()
      requires Valid()
      ensures Sizes() && HeapOk(-1) && (!ok ==> Unsat(formula))
      ensures ok ==>
        NoMarks() && IdleOk(formula, T(), ca, mark, watches, dirties, qhead) && Complete(formula, T(), ca, clauses)
      ensures ok ==> Core(qhead) && |trailLim| == 0 && ListsOk(mark, clauses, learnts)
    {
    }

    lemma IsLost(t: Trail)
      requires !ok && Unsat(formula) && T() == WithVar(t) && Grown(t)
      ensures Valid() && |assigns| == |t.assigns| + 1
    {
      hide StrictWeak, Heap.Valid, Heap.Elems, HeapCovers, Unsat;
    }

    /** The fields that are not part of the trail have grown as well. */
    ghost predicate Grown(t: Trail) reads this`seen, this`polarity, this`decision, this`activity, order {
      && |seen| == |polarity| == |decision| == |activity| == |t.assigns| + 1
      && OrderOk() && HeapCovers(decision, t.assigns + [LUndef], order.Elems(), |order.indices|, -1)
    }

    lemma IsGrown(t: Trail)
      requires ok && T() == WithVar(t) && Grown(t) && NoMarks() && |trailLim| == 0
      requires IdleOk(formula, T(), ca, mark, watches, dirties, qhead) && Complete(formula, T(), ca, clauses)
      requires ListsOk(mark, clauses, learnts)
      ensures Valid() && |assigns| == |t.assigns| + 1
    {
      hide IdleOk, Complete, ListsOk, StrictWeak, Heap.Valid, Heap.Elems, HeapCovers, Clear;
    }

    method GrowTrail(sign: bool)
      requires |seen| == |polarity| == |assigns| && |decision| == |activity| == |assigns| + 1 && OrderOk()
      requires HeapCovers(decision, assigns + [LUndef], order.Elems(), |order.indices|, -1)
      modifies this`assigns, this`level, this`reason, this`pos, this`seen, this`polarity
      ensures polarity == old(polarity) + [sign]
      ensures T() == WithVar(old(T())) && Grown(old(T())) && (old(NoMarks()) ==> NoMarks())
    {
      hide HeapCovers, OrderOk, Heap.Elems;
      if NoMarks() { ClearMore(seen); }
      assigns, level, reason, pos := assigns + [LUndef], level + [0], reason + [None], pos + [0];
      seen := seen + [false];
      polarity := polarity + [sign];
    }

    /** The decision order for one more variable, not yet counted in `assigns`. */
    method NewVarOrder(dvar: bool, initial: real)
      requires HeapOk(-1) && Sizes() && initial >= 0.0
      modifies this`activity, this`decision, order
      ensures OrderOk() && HeapCovers(decision, assigns + [LUndef], order.Elems(), |order.indices|, -1)
      ensures order.Elems() == old(order.Elems()) + if dvar then {|assigns|} else {}
      ensures |activity| == |assigns| + 1 && decision == old(decision) + [dvar]
        && |seen| == |polarity| == |old(decision)| == |assigns|
    {
      var v := |assigns|;
      NewActivity(activity, initial);
      activity := activity + [initial];
      order.Decrease(v, ActivityLt(activity));
      decision := decision + [dvar];
      if !order.InHeap(v) && decision[v] { order.Insert(v); }
    }

    /** The literals of `ps` in the order of their packed forms. */
    method SortLits(ps: seq<Lit>) returns (sorted: seq<Lit>)
      ensures SortedLits(sorted) && multiset(sorted) == multiset(ps)
    {
      sorted := ps;
      var i := 0;
      while i < |sorted|
        invariant 0 <= i <= |sorted| && multiset(sorted) == multiset(ps) && SortedTo(sorted, i)
      {
        var best := Least(sorted, i);
        SwapSorted(sorted, i, best);
        sorted := sorted[i := sorted[best]][best := sorted[i]];
        i := i + 1;
      }
    }

    /** The place of a least literal from `i` on. */
    method Least(ls: seq<Lit>, i: nat) returns (best: nat)
      requires i < |ls|
      ensures i <= best < |ls| && forall b :: i <= b < |ls| ==> ToInt(ls[best]) <= ToInt(ls[b])
    {
      best := i;
      var j := i + 1;
      while j < |ls|
        invariant i <= best < |ls| && i < j <= |ls|
        invariant forall b :: i <= b < j ==> ToInt(ls[best]) <= ToInt(ls[b])
      {
        if ToInt(ls[j]) < ToInt(ls[best]) { best := j; }
        j := j + 1;
      }
    }

    /** Drops false and duplicate literals; `satisfied` when the clause holds at the root anyway. */
    method FilterClause(ps: seq<Lit>) returns (satisfied: bool, qs: seq<Lit>)
      requires TrailOk(T()) && |trailLim| == 0 && SortedLits(ps)
      ensures satisfied ==> exists l :: l in ps && (Val(assigns, l) == LTrue || l.Not() in ps)
      ensures !satisfied ==> Filtered(assigns, ps, qs)
    {
      hide TrailOk;
      satisfied, qs := false, [];
      var i := 0;
      var p: Option<Lit> := None;
      while i < |ps|
        invariant 0 <= i <= |ps| && Filtered(assigns, ps[..i], qs)
        invariant p == if qs == [] then None else Some(qs[|qs| - 1])
      {
        var x := ps[i];
        assert x in ps;
        if Value(x) == LTrue || (p.Some? && x == p.value.Not()) {
          assert p.Some? ==> p.value in qs && p.value in ps[..i];
          return true, qs;
        }
        FilterStep(assigns, ps, i, qs);
        if Value(x) != LFalse && p != Some(x) {
          qs, p := qs + [x], Some(x);
        }
        i := i + 1;
      }
      assert ps[..i] == ps;
    }

    /** Adds a clause to the formula. */
    method AddClause(ps: Clause) returns (good: bool)
      requires Valid() && VarsBelow(ps, |assigns|)
      modifies this`ok, this`ca, this`mark, this`clauses, this`watches, this`dirties, this`assigns,
        this`level, this`reason, this`trail, this`pos, this`qhead, this`formula
      ensures Valid() && formula == old(formula) + {ps} && good == ok && |assigns| == old(|assigns|)
    {
      hide *;
      if !ok {
        RefutedStays(ps);
        formula := formula + {ps};
        StillRefuted();
        return false;
      }
      var sorted := SortLits(ps);
      SortedSame(ps, sorted);
      RootState();
      var satisfied, qs := FilterClause(sorted);
      if satisfied {
        AddSatisfied(ps, sorted);
        return true;
      }
      FilteredSame(assigns, ps, sorted, qs);
      AddFiltered(ps, qs);
      return ok;
    }

    lemma RefutedStays(ps: Clause)
      requires Valid() && !ok
      ensures Unsat(formula + {ps}) && Sizes() && HeapOk(-1)
    {
      UnsatGrow(formula, ps);
    }

    lemma StillRefuted()
      requires !ok && Unsat(formula) && Sizes() && HeapOk(-1)
      ensures Valid()
    {
    }

    lemma RootState()
      requires ok && Valid()
      ensures TrailOk(T()) && |trailLim| == 0
    {
    }

    /** The clause already holds at the root: only the ghost formula grows. */
    method AddSatisfied(ps: Clause, ghost sorted: seq<Lit>)
      requires ok && Valid() && SameLits(ps, sorted)
      requires exists l :: l in sorted && (Val(assigns, l) == LTrue || l.Not() in sorted)
      modifies this`formula
      ensures ok && Valid() && formula == old(formula) + {ps}
    {
      hide TrailOk, ReasonOk, DbOk, WatchShape, DirtyOk, WatchInv, Sound, Units, ListsOk, Complete, HeapCovers, Clear,
        Heap.Valid, Heap.Elems, StrictWeak;
      ghost var l :| l in sorted && (Val(assigns, l) == LTrue || l.Not() in sorted);
      SatisfiedAtRoot(T(), ps, l);
      CompleteSatisfied(formula, T(), ca, clauses, ps);
      FormulaGrow(formula, ps, T(), ca, mark, watches, dirties, qhead);
      formula := formula + {ps};
    }

    /** Adds what is left of the clause: nothing, a unit, or a clause to watch. */
    method AddFiltered(ps: Clause, qs: Clause)
      requires ok && Valid() && VarsBelow(ps, |assigns|) && Filtered(assigns, ps, qs)
      modifies this`ok, this`ca, this`mark, this`clauses, this`watches, this`dirties, this`assigns,
        this`level, this`reason, this`trail, this`pos, this`qhead, this`formula
      ensures Valid() && formula == old(formula) + {ps} && |assigns| == old(|assigns|)
    {
      hide *;
      ghost var f, t := formula, T();
      ValidParts();
      StateIs();
      CoreParts(qhead);
      IdleTrail(f, t, ca, mark, watches, dirties, qhead);
      FormulaGrow(f, ps, t, ca, mark, watches, dirties, qhead);
      IdleTrail(f + {ps}, t, ca, mark, watches, dirties, qhead);
      formula := formula + {ps};
      FilteredImplied(formula, t, ps, qs);
      FilteredClause(assigns, ps, qs);
      FilteredShape(assigns, ps, qs);
      if |qs| == 0 {
        assert qs == [];
        EmptyUnsat(formula);
        ok := false;
        StillRefuted();
      } else if |qs| == 1 {
        assert qs == [qs[0]];
        IsIdle(qhead);
        AddUnit(ps, qs[0], f);
      } else {
        StoreFiltered(ps, qs, f);
      }
    }

    lemma FilteredShape(assigns: seq<LBool>, ps: seq<Lit>, qs: seq<Lit>)
      requires Filtered(assigns, ps, qs) && Distinct(qs) && VarsBelow(qs, |assigns|)
      ensures SubLits(qs, ps) && (|qs| > 0 ==> qs[0] in ps) && (|qs| >= 2 ==> ClauseOk(qs, |assigns|))
    {
      assert |qs| > 0 ==> qs[0] in qs;
    }

    lemma IsIdle(q: nat)
      requires IdleOk(formula, T(), ca, mark, watches, dirties, q)
      ensures Idle(q)
    {
    }

    /** Stores and watches a clause of at least two literals. */
    method StoreFiltered(ghost ps: Clause, qs: Clause, ghost f: set<Clause>)
      requires ok && IdleOk(formula, T(), ca, mark, watches, dirties, qhead) && QueueOk(qhead) && Sizes() && NoMarks()
      requires HeapOk(-1) && |trailLim| == 0 && ListsOk(mark, clauses, learnts) && Complete(f, T(), ca, clauses)
      requires formula == f + {ps} && Implied(formula, qs) && ClauseOk(qs, |assigns|) && SubLits(qs, ps)
      requires |qs| >= 2 && forall k :: 0 <= k < |qs| ==> Val(assigns, qs[k]) == LUndef
      modifies this`ca, this`mark, this`clauses, this`watches
      ensures Valid()
    {
      hide *;
      ghost var t := T();
      StateIs();
      IdleTrail(formula, t, ca, mark, watches, dirties, qhead);
      ClausesInMemory(mark, clauses, learnts);
      AddStep(formula, t, ca, mark, watches, dirties, qhead, qs);
      CompleteAdd(f, t, ca, clauses, ps, qs);
      ListsAdd(mark, clauses, learnts);
      var cr := |ca|;
      AllocAndAttach(qs);
      clauses := clauses + [cr];
      IsCore(qhead);
      IsValid();
    }

    lemma IsValid()
      requires if ok then Core(qhead) && |trailLim| == 0 else Lost()
      ensures Valid()
    {
    }

    /** Enqueues a unit clause at the root and propagates it. */
    method AddUnit(ghost ps: Clause, q: Lit, ghost f: set<Clause>)
      requires ok && Idle(qhead) && QueueOk(qhead) && Sizes() && NoMarks() && HeapOk(-1) && |trailLim| == 0
      requires ListsOk(mark, clauses, learnts) && Complete(f, T(), ca, clauses) && formula == f + {ps}
      requires q.v < |assigns| && Val(assigns, q) == LUndef && Implied(formula, [q]) && q in ps
      modifies this`ok, this`ca, this`watches, this`dirties, this`assigns, this`level, this`reason, this`trail,
        this`pos, this`qhead
      ensures Valid() && |assigns| == old(|assigns|)
    {
      hide *;
      ghost var t := T();
      StateIs();
      IdleMeans(qhead);
      IdleTrail(formula, t, ca, mark, watches, dirties, qhead);
      ClausesInMemory(mark, clauses, learnts);
      MarkSize(ca, mark, watches);
      TrailShape(t);
      EnqueueIdle(formula, t, ca, mark, watches, dirties, qhead, q);
      UnitComplete(f, t, ca, clauses, ps, q);
      Put(q, None, -1);
      IsCore(qhead);
      var confl := PropagateAll();
      ok := confl.None?;
      IsValid();
    }

    /** Every variable of the added clauses may be decided; others need not be. */
    ghost predicate Decided() reads this`formula, this`decision {
      forall v: Var {:trigger OccursIn(formula, v)} :: OccursIn(formula, v) ==> v < |decision| && decision[v]
    }

    /** Every valuation that `m` describes satisfies the formula and the assumptions. */
    ghost predicate IsModel(m: seq<LBool>, assumps: seq<Lit>) reads this`formula {
      forall a :: Agrees(a, m) ==> Models(a, formula) && AllTrue(a, assumps)
    }

    /** The decision variables have values. */
    ghost predicate Assigns(m: seq<LBool>) reads this`decision {
      forall v :: 0 <= v < |m| && v < |decision| && decision[v] ==> m[v] != LUndef
    }

    /** Solves under assumptions.  `bound` gives the conflict bound of each restart; some restart must
        be allowed enough conflicts, which every unbounded schedule provides. */
    method Solve(assumps: seq<Lit>, bound: nat -> int, limited: bool, ghost enough: nat) returns (status: LBool)
      requires Valid() && VarsBelow(assumps, |assigns|)
      requires bound(enough) < 0 || bound(enough) > MaxConflicts(|assigns|, |assumps|)
      modifies this`ok, this`ca, this`mark, this`clauses, this`learnts, this`watches, this`dirties, this`assigns,
        this`level, this`reason, this`trail, this`trailLim, this`pos, this`qhead, this`seen, this`analyzeToclear,
        this`activity, this`polarity, this`conflict, this`conflicts, this`assumptions, this`model, order
      ensures Valid() && |assigns| == old(|assigns|)
      ensures status == LTrue ==> |model| == |assigns| && Assigns(model) && (Decided() ==> IsModel(model, assumps))
      ensures if status == LTrue then conflict == [] else model == []
      ensures status == LFalse && conflict == [] ==> Unsat(formula)
      ensures status == LFalse && conflict != [] ==>
        Implied(formula, conflict) && CauseKnown()
        && forall l :: l in conflict ==> l.Not() in assumps
      ensures status == LFalse ==> UnsatUnder(formula, assumps)
      ensures !limited ==> status != LUndef
    {
      hide *;
      Begin(assumps);
      if !ok {
        RefutedBefore();
        UnsatAnyway(formula, assumps);
        return LFalse;
      }
      StartSearch();
      status := LUndef;
      var exhausted := false;
      var restarts: nat := 0;
      while status == LUndef && !exhausted
        invariant |assigns| == old(|assigns|) && restarts <= enough + 1 && assumptions == assumps && model == []
        invariant status == LUndef ==> Searching() && |trailLim| == 0 && conflict == []
        invariant status == LTrue ==> Found()
        invariant status == LFalse ==> Refuted()
        invariant exhausted ==> limited
        invariant restarts == enough + 1 ==> status != LUndef || exhausted
        decreases enough + 1 - restarts
      {
        status, exhausted := Search(bound(restarts), limited);
        if limited {
          var overBudget: bool := *;
          exhausted := exhausted || overBudget;
        }
        restarts := restarts + 1;
      }
      Finish(status);
    }

    /** Solves with either restart schedule and without a budget: the answer is exact. */
    method SolveAll(assumps: seq<Lit>, luby: bool, first: nat, inc: nat) returns (sat: bool)
      requires Valid() && VarsBelow(assumps, |assigns|) && Decided() && first > 0 && inc >= 2
      modifies this`ok, this`ca, this`mark, this`clauses, this`learnts, this`watches, this`dirties, this`assigns,
        this`level, this`reason, this`trail, this`trailLim, this`pos, this`qhead, this`seen, this`analyzeToclear,
        this`activity, this`polarity, this`conflict, this`conflicts, this`assumptions, this`model, order
      ensures Valid() && |assigns| == old(|assigns|)
      ensures sat ==> |model| == |assigns| && Assigns(model) && IsModel(model, assumps)
      ensures sat <==> !UnsatUnder(formula, assumps)
    {
      hide *;
      ghost var enough := ScheduleUnbounded(luby, first, inc, MaxConflicts(|assigns|, |assumps|));
      var status := Solve(assumps, Schedule(luby, first, inc), false, enough);
      sat := status == LTrue;
      NotBoth(assumps, sat);
    }

    lemma NotBoth(assumps: seq<Lit>, sat: bool)
      requires sat ==> IsModel(model, assumps)
      requires !sat ==> UnsatUnder(formula, assumps)
      ensures sat <==> !UnsatUnder(formula, assumps)
    {
      var a := iset v | 0 <= v < |model| && model[v] == LTrue;
      assert Agrees(a, model);
    }

    method Begin(assumps: seq<Lit>)
      requires Valid()
      modifies this`model, this`conflict, this`assumptions
      ensures Valid() && model == [] && conflict == [] && assumptions == assumps
    {
      hide *;
      model, conflict, assumptions := [], [], assumps;
    }

    method CopyModel()
      requires Found()
      modifies this`model
      ensures ok && Core(qhead) && |model| == |assigns| && Assigns(model) && (Decided() ==> IsModel(model, assumptions))
    {
      hide TrailOk, ReasonOk, DbOk, WatchShape, DirtyOk, WatchInv, Sound, Units, ListsOk, Complete, HeapCovers, Clear,
        Heap.Valid, IsModel, Decided, Assigns;
      FoundModel();
      model := assigns;
    }

    method Refute()
      requires Lost()
      modifies this`ok
      ensures Valid()
    {
      ok := false;
    }

    lemma RefutedBefore()
      requires Valid() && !ok
      ensures Unsat(formula)
    {
    }

    lemma StartSearch()
      requires ok && Valid() && VarsBelow(assumptions, |assigns|)
      ensures Searching() && |trailLim| == 0
    {
      AssumpRoot(T(), assumptions);
    }

    /** Copies the model, notes a refutation and returns to the root level. */
    method Finish(status: LBool)
      requires status == LUndef ==> Searching() && |trailLim| == 0
      requires status == LTrue ==> Found()
      requires status == LFalse ==> Refuted()
      modifies this`ok, this`model, this`assigns, this`trail, this`trailLim, this`qhead, this`polarity, order
      ensures Valid() && |assigns| == old(|assigns|)
      ensures status == LTrue ==> |model| == |assigns| && Assigns(model) && (Decided() ==> IsModel(model, assumptions))
      ensures if status == LTrue then conflict == [] else model == old(model)
      ensures status == LFalse && conflict == [] ==> Unsat(formula)
      ensures status == LFalse && conflict != [] ==>
        Implied(formula, conflict) && CauseKnown()
        && forall l :: l in conflict ==> l.Not() in assumptions
      ensures status == LFalse ==> UnsatUnder(formula, assumptions)
    {
      hide *;
      if status == LTrue {
        NoConflict();
        CopyModel();
      } else if status == LFalse {
        RefutedMeaning();
        if conflict == [] {
          Refute();
          return;
        }
      } else {
        SearchCore();
      }
      ghost var t := T();
      if status == LFalse { RefutedTrail(); }
      BackToRoot();
      if status == LFalse { IsCauseKnown(t); }
    }

    /** The search ended with a trail on which the conflict consists of a true literal and negations of
        decisions on which that depends; what is left is its root level. */
    ghost predicate CauseKnown()
      reads this`assigns, this`level, this`reason, this`trail, this`trailLim, this`pos, this`ca, this`mark,
        this`conflict
    {
      exists t {:trigger Causes(t, ca, conflict)} ::
        (t == T() || CutTo(t, T(), 0)) && TrailOk(t) && ReasonOk(t, ca, mark) && Causes(t, ca, conflict)
    }

    lemma RefutedTrail()
      requires Refuted() && conflict != []
      ensures TrailOk(T()) && ReasonOk(T(), ca, mark) && Causes(T(), ca, conflict)
    {
    }

    lemma IsCauseKnown(t: Trail)
      requires t == T() || CutTo(t, T(), 0)
      requires TrailOk(t) && ReasonOk(t, ca, mark) && Causes(t, ca, conflict)
      ensures CauseKnown()
    {
    }

    lemma NoConflict()
      requires Found()
      ensures conflict == []
    {
    }

    lemma FoundModel()
      requires Found()
      ensures Assigns(assigns) && (Decided() ==> IsModel(assigns, assumptions))
    {
      hide TrailOk, ReasonOk, DbOk, WatchShape, DirtyOk, WatchInv, Sound, Units, ListsOk, Complete, Clear, Heap.Valid,
        Models, Agrees, OccursIn;
      TrailSizes(T());
      if Decided() {
        forall a | Agrees(a, assigns) ensures Models(a, formula) && AllTrue(a, assumptions) {
          ModelFound(formula, T(), ca, mark, watches, clauses, learnts, a);
          forall l | l in assumptions ensures True(a, l) { AgreesTrue(a, assigns, l); }
        }
      }
    }

    lemma SearchCore()
      requires Searching()
      ensures ok && Core(qhead)
    {
    }

    lemma RefutedMeaning()
      requires Refuted()
      ensures conflict == [] ==> Lost() && Unsat(formula)
      ensures conflict != [] ==> ok && Core(qhead) && Implied(formula, conflict) && forall l :: l in conflict ==>
        l.Not() in assumptions
      ensures UnsatUnder(formula, assumptions)
    {
      if conflict == [] { UnsatAnyway(formula, assumptions); } else { ConflictRefutes(formula, conflict, assumptions); }
    }

    method BackToRoot()
      requires ok && Core(qhead)
      modifies this`assigns, this`trail, this`trailLim, this`qhead, this`polarity, order
      ensures ok && Valid() && |assigns| == old(|assigns|)
      ensures T() == old(T()) || CutTo(old(T()), T(), 0)
    {
      hide TrailOk, ReasonOk, DbOk, WatchShape, DirtyOk, WatchInv, Sound, Units, ListsOk, Complete, HeapCovers, Clear,
        Heap.Valid;
      if |trailLim| > 0 {
        LimsSorted(T(), 0);
        CancelUntil(0, qhead);
      }
    }
  }

  function ActivityLt(activity: seq<real>): Order {
    (x: nat, y: nat) => (if x < |activity| then activity[x] else 0.0) > (if y < |activity| then activity[y] else 0.0)
  }

  /** A long clause that is not the reason of its first literal. */
  ghost predicate Reducible(t: Trail, ca: seq<Clause>, cr: CRef) {
    cr < |ca| && |ca[cr]| > 2 && !Locks(t, ca, cr)
  }

  /** Of the first `n` clauses exactly the chosen reducible ones are deleted, and the others are kept. */
  ghost predicate Reduces(t: Trail, ca: seq<Clause>, chosen: set<CRef>, mark0: seq<bool>, mark: seq<bool>,
                          cs: seq<CRef>, n: nat, kept: seq<CRef>) {
    && n <= |cs| && |mark| == |mark0|
    && (forall cr :: cr in kept <==> cr in cs[..n] && !(cr in chosen && Reducible(t, ca, cr)))
    && forall cr: CRef :: cr < |mark| ==>
         (mark[cr] <==> mark0[cr] || (cr in cs[..n] && cr in chosen && Reducible(t, ca, cr)))
  }

  /** `all` are the clauses of `cs` that are `kept`, and those from number `i` on. */
  ghost predicate Passed(cs: seq<CRef>, i: nat, kept: seq<CRef>, all: seq<CRef>) {
    i <= |cs| && all == kept + cs[i..]
  }

  lemma PassedNone(cs: seq<CRef>)
    ensures Passed(cs, 0, [], cs)
  {
  }

  lemma PassedNext(cs: seq<CRef>, i: nat, kept: seq<CRef>, all: seq<CRef>, rest: seq<CRef>)
    requires i < |cs| && Passed(cs, i, kept, all) && rest == cs[i + 1..]
    ensures all == kept + [cs[i]] + rest
    ensures Passed(cs, i + 1, kept, kept + rest) && Passed(cs, i + 1, kept + [cs[i]], all)
  {
    assert cs[i..] == [cs[i]] + rest;
  }

  lemma PassedAll(cs: seq<CRef>, kept: seq<CRef>, all: seq<CRef>)
    requires Passed(cs, |cs|, kept, all)
    ensures all == kept
  {
  }

  lemma ReducesNone(t: Trail, ca: seq<Clause>, chosen: set<CRef>, mark: seq<bool>, cs: seq<CRef>)
    ensures Reduces(t, ca, chosen, mark, mark, cs, 0, [])
  {
  }

  lemma ReducesMore(t: Trail, ca: seq<Clause>, chosen: set<CRef>, mark0: seq<bool>, mark1: seq<bool>, mark: seq<bool>,
                    cs: seq<CRef>, i: nat, kept: seq<CRef>, dropped: bool)
    requires Reduces(t, ca, chosen, mark0, mark1, cs, i, kept) && i < |cs| && cs[i] < |mark1|
    requires dropped <==> cs[i] in chosen && Reducible(t, ca, cs[i])
    requires mark == if dropped then mark1[cs[i] := true] else mark1
    ensures Reduces(t, ca, chosen, mark0, mark, cs, i + 1, if dropped then kept else kept + [cs[i]])
  {
    hide Reducible;
    assert cs[..i + 1] == cs[..i] + [cs[i]];
  }

  /** The literal at `c` is remembered when it is undone. */
  ghost predicate SavesPhase(t: Trail, c: nat, mode: int) {
    mode > 1 || (mode == 1 && |t.lim| > 0 && c > t.lim[|t.lim| - 1])
  }

  /** The signs of the literals from `lim` on are remembered, where the mode says so. */
  ghost predicate SavedPhases(t: Trail, lim: nat, mode: int, before: seq<bool>, after: seq<bool>) {
    |before| == |after| == |t.assigns| && forall v {:trigger after[v]} :: 0 <= v < |after| && v < |t.pos| ==>
      after[v] == if t.assigns[v] != LUndef && lim <= t.pos[v] < |t.lits| && SavesPhase(t, t.pos[v], mode)
                  then t.lits[t.pos[v]].neg else before[v]
  }

  lemma PhasesStart(t: Trail, mode: int, polarity: seq<bool>)
    requires |polarity| == |t.assigns|
    ensures SavedPhases(t, |t.lits|, mode, polarity, polarity)
  {
  }

  lemma PhaseStep(t: Trail, c: nat, mode: int, before: seq<bool>, polarity: seq<bool>)
    requires TrailOk(t) && c < |t.lits| && SavedPhases(t, c + 1, mode, before, polarity)
    ensures t.lits[c].v < |polarity|
    ensures SavedPhases(t, c, mode, before,
      if SavesPhase(t, c, mode) then polarity[t.lits[c].v := t.lits[c].neg] else polarity)
  {
    assert OnTrail(t, c);
    hide SavesPhase;
  }

  /** The activity of just the newly marked variables has grown by one step. */
  ghost predicate Bumped(seen0: seq<bool>, seen: seq<bool>, before: seq<real>, after: seq<real>, step: real) {
    |before| == |after| && forall v: Var {:trigger after[v]} :: v < |after| ==>
      after[v] == if SeenAt(seen, v) && !SeenAt(seen0, v) then before[v] + step else before[v]
  }

  lemma BumpedNone(seen: seq<bool>, activity: seq<real>, step: real)
    ensures Bumped(seen, seen, activity, activity, step)
  {
  }

  lemma BumpedMore(seen0: seq<bool>, seen: seq<bool>, before: seq<real>, after: seq<real>, step: real, v: Var)
    requires Bumped(seen0, seen, before, after, step) && v < |seen| && v < |after| && !seen[v]
      && (SeenAt(seen0, v) ==> SeenAt(seen, v))
    ensures Bumped(seen0, seen[v := true], before, after[v := after[v] + step], step)
  {
  }

  lemma BumpKeepsOrder(activity: seq<real>, v: Var, r: real)
    requires v < |activity| && r >= activity[v]
    ensures StrictWeak(ActivityLt(activity[v := r]))
    ensures forall x: nat, y: nat :: x != v && y != v ==>
      ActivityLt(activity[v := r])(x, y) == ActivityLt(activity)(x, y)
    ensures forall y: nat :: !ActivityLt(activity)(y, v) ==> !ActivityLt(activity[v := r])(y, v)
  {
  }

  lemma NewActivity(activity: seq<real>, r: real)
    requires r >= 0.0
    ensures StrictWeak(ActivityLt(activity + [r]))
    ensures forall x: nat, y: nat :: x != |activity| && y != |activity| ==>
      ActivityLt(activity + [r])(x, y) == ActivityLt(activity)(x, y)
    ensures forall y: nat :: !ActivityLt(activity)(y, |activity|) ==> !ActivityLt(activity + [r])(y, |activity|)
  {
  }

  lemma ClearMore(seen: seq<bool>)
    requires Clear(seen)
    ensures Clear(seen + [false])
  {
    forall v: Var ensures !SeenAt(seen + [false], v) { assert !SeenAt(seen, v); }
  }

  /** The first `i` literals are in order and before all others. */
  ghost predicate SortedTo(s: seq<Lit>, i: nat) {
    forall a, b :: 0 <= a < i && a < b < |s| ==> ToInt(s[a]) <= ToInt(s[b])
  }

  lemma SwapSorted(s: seq<Lit>, i: nat, j: nat)
    requires i <= j < |s| && SortedTo(s, i) && forall b :: i <= b < |s| ==> ToInt(s[j]) <= ToInt(s[b])
    ensures var r := s[i := s[j]][j := s[i]]; multiset(r) == multiset(s) && SortedTo(r, i + 1)
  {
    hide ToInt;
  }

  lemma SameLitsAre(xs: seq<Lit>, ys: seq<Lit>)
    requires SameLits(xs, ys)
    ensures forall l :: l in xs <==> l in ys
  {
  }

  lemma SameLitsSelf(ls: seq<Lit>)
    ensures SameLits(ls, ls)
  {
  }

  lemma LearntAlone(f: set<Clause>, t: Trail, first: Lit, learnt: Clause)
    requires |t.lim| > 0 && Implied(f, learnt) && learnt == [first]
    requires Val(t.assigns, first) == LFalse && Lev(t, first) == |t.lim|
    ensures LearntOk(f, t, learnt, 0)
  {
  }

  lemma SwappedTail(first: Lit, keep: seq<Lit>, learnt: Clause, m: nat)
    requires learnt == [first] + keep && 1 <= m < |learnt|
    ensures SameLits(learnt[1 := learnt[m]][m := learnt[1]][1..], keep)
  {
    var swapped := learnt[1 := learnt[m]][m := learnt[1]];
    var tail := swapped[1..];
    forall l ensures l in tail <==> l in keep {
      if l in tail {
        var k :| 0 <= k < |tail| && tail[k] == l;
        var from := if k == 0 then m - 1 else if k == m - 1 then 0 else k;
        assert keep[from] == learnt[from + 1] == l;
      }
      if l in keep {
        var k :| 0 <= k < |keep| && keep[k] == l;
        var to := if k == 0 then m - 1 else if k == m - 1 then 0 else k;
        assert tail[to] == swapped[to + 1] == l;
      }
    }
  }

  lemma SortedSame(ps: seq<Lit>, sorted: seq<Lit>)
    requires multiset(sorted) == multiset(ps)
    ensures SameLits(ps, sorted)
  {
    forall l ensures l in ps <==> l in sorted {
      assert l in ps <==> l in multiset(ps);
      assert l in sorted <==> l in multiset(sorted);
    }
  }

  lemma FilteredSame(assigns: seq<LBool>, ps: seq<Lit>, sorted: seq<Lit>, qs: seq<Lit>)
    requires SameLits(ps, sorted) && Filtered(assigns, sorted, qs)
    ensures Filtered(assigns, ps, qs)
  {
  }

  lemma FilterStep(assigns: seq<LBool>, ps: seq<Lit>, i: nat, qs: seq<Lit>)
    requires SortedLits(ps) && i < |ps| && Filtered(assigns, ps[..i], qs) && Val(assigns, ps[i]) != LTrue
    ensures if Val(assigns, ps[i]) != LFalse && (qs == [] || qs[|qs| - 1] != ps[i])
            then Filtered(assigns, ps[..i + 1], qs + [ps[i]]) else Filtered(assigns, ps[..i + 1], qs)
  {
    var x := ps[i];
    assert ps[..i + 1] == ps[..i] + [x];
    if Val(assigns, x) != LFalse && (qs == [] || qs[|qs| - 1] != x) {
      forall k | 0 <= k < |qs| ensures ToInt(qs[k]) < ToInt(x) {
        assert qs[|qs| - 1] in qs && qs[|qs| - 1] in ps[..i];
        var j :| 0 <= j < i && ps[j] == qs[|qs| - 1];
        PackedLiterals(qs[|qs| - 1], x, 0);
        PackedLiterals(x, x, 0);
      }
    }
  }
}
