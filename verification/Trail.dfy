/** The assignment part of the solver's state as a value, and what keeps it consistent:
    the trail, the decision-level separators, levels, reasons and positions. */
module Trails {
  import opened Basics
  import opened Cnf

  datatype LBool = LTrue | LFalse | LUndef


  type CRef = nat

  /** `pos` is ghost data of the solver: the trail index of every assigned variable. */
  datatype Trail = Trail(assigns: seq<LBool>, level: seq<nat>, reason: seq<Option<CRef>>,
                         lits: seq<Lit>, lim: seq<nat>, pos: seq<nat>)

  function Val(assigns: seq<LBool>, l: Lit): LBool {
    if l.v >= |assigns| || assigns[l.v] == LUndef then LUndef
    else if (assigns[l.v] == LTrue) != l.neg then LTrue
    else LFalse
  }

  ghost function Lev(t: Trail, l: Lit): nat { if l.v < |t.level| then t.level[l.v] else 0 }

  ghost function Pos(t: Trail, l: Lit): nat { if l.v < |t.pos| then t.pos[l.v] else 0 }

  ghost function RootEnd(t: Trail): nat { if |t.lim| == 0 then |t.lits| else t.lim[0] }

  ghost predicate Shape(t: Trail) {
    |t.level| == |t.assigns| && |t.reason| == |t.assigns| && |t.pos| == |t.assigns|
  }

  /** Level `lv` owns trail index `i`. */
  ghost predicate LevelAt(lim: seq<nat>, i: nat, lv: nat) {
    lv <= |lim| && (lv > 0 ==> lim[lv - 1] <= i) && (lv < |lim| ==> i < lim[lv])
  }

  ghost predicate LimOk(lim: seq<nat>, n: nat) {
    && (forall k :: 0 <= k < |lim| ==> lim[k] <= n)
    && (forall j, k :: 0 <= j < k < |lim| ==> lim[j] <= lim[k])
  }

  ghost predicate OnTrail(t: Trail, i: nat) {
    && i < |t.lits| && Val(t.assigns, t.lits[i]) == LTrue
    && Pos(t, t.lits[i]) == i && LevelAt(t.lim, i, Lev(t, t.lits[i]))
  }

  ghost predicate TrailOk(t: Trail) {
    && Shape(t)
    && LimOk(t.lim, |t.lits|)
    && (forall i :: 0 <= i < |t.lits| ==> OnTrail(t, i))
    && (forall v :: 0 <= v < |t.assigns| && t.assigns[v] != LUndef ==>
          t.pos[v] < |t.lits| && t.lits[t.pos[v]].v == v)
  }

  /** Some other literal of `c` has the level of the first. */
  ghost predicate SameLevel(t: Trail, c: Clause) {
    |c| > 0 && exists k {:trigger c[k]} :: 1 <= k < |c| && Lev(t, c[k]) == Lev(t, c[0])
  }

  /** Clause `c` is unit at trail index `i`: it starts with the literal there and the rest
      was already false, above the root by a literal of the same level. */
  ghost predicate Propagating(t: Trail, c: Clause, i: nat) {
    && |c| > 0 && i < |t.lits| && c[0] == t.lits[i]
    && (forall k :: 1 <= k < |c| ==> Val(t.assigns, c[k]) == LFalse && Pos(t, c[k]) < i)
    && (Lev(t, c[0]) > 0 ==> SameLevel(t, c))
  }

  /** A literal above the root level has a reason clause, or opens its decision level. */
  ghost predicate ReasonAt(t: Trail, ca: seq<Clause>, mark: seq<bool>, i: nat) {
    && i < |t.lits| && t.lits[i].v < |t.reason|
    && match t.reason[t.lits[i].v]
       case None => 0 < Lev(t, t.lits[i]) <= |t.lim| ==> i == t.lim[Lev(t, t.lits[i]) - 1]
       case Some(cr) => cr < |ca| && cr < |mark| && !mark[cr] && Propagating(t, ca[cr], i)
  }

  ghost predicate ReasonOk(t: Trail, ca: seq<Clause>, mark: seq<bool>) {
    forall i :: 0 <= i < |t.lits| ==> ReasonAt(t, ca, mark, i)
  }

  /** Root-level literals follow from the formula alone. */
  ghost predicate Units(f: set<Clause>, t: Trail) {
    forall i :: 0 <= i < RootEnd(t) && i < |t.lits| ==> Implied(f, [t.lits[i]])
  }

  /** The state after `p` has been put on the trail. */
  ghost function Enqueued(t: Trail, p: Lit, from: Option<CRef>): Trail
    requires Shape(t) && p.v < |t.assigns|
  {
    Trail(t.assigns[p.v := if p.neg then LFalse else LTrue], t.level[p.v := |t.lim|],
          t.reason[p.v := from], t.lits + [p], t.lim, t.pos[p.v := |t.lits|])
  }

  /** `u` is `t` cut back to decision level `lv`. */
  ghost predicate CutTo(t: Trail, u: Trail, lv: nat) {
    && lv < |t.lim| && t.lim[lv] <= |t.lits|
    && u.lits == t.lits[..t.lim[lv]] && u.lim == t.lim[..lv]
    && u.level == t.level && u.reason == t.reason && u.pos == t.pos
    && |u.assigns| == |t.assigns|
    && (forall v :: 0 <= v < |t.assigns| && v < |t.pos| ==>
          u.assigns[v] == if t.assigns[v] != LUndef && t.pos[v] < t.lim[lv] then t.assigns[v] else LUndef)
  }

  // ---------- what follows from a consistent trail ----------

  lemma UndefVar(assigns: seq<LBool>, l: Lit)
    requires l.v < |assigns|
    ensures Val(assigns, l) == LUndef <==> assigns[l.v] == LUndef
  {
  }

  lemma AssignedPos(t: Trail, l: Lit)
    requires TrailOk(t) && Val(t.assigns, l) != LUndef
    ensures Pos(t, l) < |t.lits|
    ensures t.lits[Pos(t, l)] == if Val(t.assigns, l) == LTrue then l else l.Not()
    ensures LevelAt(t.lim, Pos(t, l), Lev(t, l))
  {
    assert OnTrail(t, Pos(t, l));
  }

  lemma LevelMono(lim: seq<nat>, n: nat, i: nat, j: nat, li: nat, lj: nat)
    requires LimOk(lim, n) && i <= j && LevelAt(lim, i, li) && LevelAt(lim, j, lj)
    ensures li <= lj
  {
    assert forall j, k :: 0 <= j < k < |lim| ==> lim[j] <= lim[k];
  }

  /** A trail holds every variable at most once. */
  lemma TrailBound(t: Trail)
    requires TrailOk(t)
    ensures |t.lits| <= |t.assigns|
  {
    forall i | 0 <= i < |t.lits| ensures t.lits[i].v < |t.assigns| { assert OnTrail(t, i); }
    forall i, j | 0 <= i < j < |t.lits| ensures t.lits[i].v != t.lits[j].v { assert OnTrail(t, i) && OnTrail(t, j); }
    VarSetSize(t.lits);
    BoundedSize(VarSet(t.lits), |t.assigns|);
  }

  ghost function VarSet(ls: seq<Lit>): (s: set<Var>)
    ensures forall x :: x in s <==> exists i :: 0 <= i < |ls| && ls[i].v == x
  { if |ls| == 0 then {} else VarSet(ls[..|ls| - 1]) + {ls[|ls| - 1].v} }

  lemma {:induction false} VarSetSize(ls: seq<Lit>)
    requires forall i, j :: 0 <= i < j < |ls| ==> ls[i].v != ls[j].v
    ensures |VarSet(ls)| == |ls|
  {
    if |ls| > 0 { VarSetSize(ls[..|ls| - 1]); }
  }

  // ---------- enqueueing ----------

  lemma EnqueueTrail(t: Trail, p: Lit, from: Option<CRef>)
    requires TrailOk(t) && p.v < |t.assigns| && t.assigns[p.v] == LUndef
    ensures TrailOk(Enqueued(t, p, from))
  {
    var u := Enqueued(t, p, from);
    forall i | 0 <= i < |u.lits| ensures OnTrail(u, i) {
      if i < |t.lits| { assert OnTrail(t, i); }
    }
  }

  lemma EnqueueReason(t: Trail, p: Lit, from: Option<CRef>, ca: seq<Clause>, mark: seq<bool>)
    requires TrailOk(t) && p.v < |t.assigns| && t.assigns[p.v] == LUndef
    requires ReasonOk(t, ca, mark)
    requires from.None? ==> |t.lim| == 0 || t.lim[|t.lim| - 1] == |t.lits|
    requires from.Some? ==> from.value < |ca| && from.value < |mark| && !mark[from.value]
    requires from.Some? ==> |ca[from.value]| > 0 && ca[from.value][0] == p
    requires from.Some? ==> forall k :: 1 <= k < |ca[from.value]| ==> Val(t.assigns, ca[from.value][k]) == LFalse
    requires from.Some? && |t.lim| > 0 ==> |ca[from.value]| > 1 && Lev(t, ca[from.value][1]) == |t.lim|
    ensures ReasonOk(Enqueued(t, p, from), ca, mark)
  {
    var u := Enqueued(t, p, from);
    forall i | 0 <= i < |u.lits| ensures ReasonAt(u, ca, mark, i) {
      if i < |t.lits| {
        EarlierReason(t, p, from, ca, mark, i);
      } else if from.Some? {
        var c := ca[from.value];
        forall k | 1 <= k < |c| ensures Val(u.assigns, c[k]) == LFalse && Pos(u, c[k]) < i {
          AssignedPos(t, c[k]);
        }
      }
    }
  }

  lemma EarlierReason(t: Trail, p: Lit, from: Option<CRef>, ca: seq<Clause>, mark: seq<bool>, i: nat)
    requires TrailOk(t) && p.v < |t.assigns| && t.assigns[p.v] == LUndef && ReasonOk(t, ca, mark) && i < |t.lits|
    ensures ReasonAt(Enqueued(t, p, from), ca, mark, i)
  {
    assert ReasonAt(t, ca, mark, i) && OnTrail(t, i);
    assert t.lits[i].v != p.v;
  }

  /** A clause whose literals other than the first are false at the root implies the first. */
  lemma RootUnit(f: set<Clause>, t: Trail, c: Clause)
    requires TrailOk(t) && Units(f, t) && Implied(f, c) && |c| > 0
    requires forall k :: 1 <= k < |c| ==> Val(t.assigns, c[k]) == LFalse && Lev(t, c[k]) == 0
    ensures Implied(f, [c[0]])
  {
    forall a | Models(a, f) ensures Sat(a, [c[0]]) {
      var l :| l in c && True(a, l);
      if l != c[0] {
        RootFalse(f, t, l, a);
      }
      assert c[0] in [c[0]];
    }
  }

  /** A literal false at the root is false in every model of the formula. */
  lemma RootFalse(f: set<Clause>, t: Trail, l: Lit, a: Valuation)
    requires TrailOk(t) && Units(f, t) && Val(t.assigns, l) == LFalse && Lev(t, l) == 0
    requires Models(a, f)
    ensures !True(a, l)
  {
    AssignedPos(t, l);
    var i := Pos(t, l);
    assert Implied(f, [t.lits[i]]);
    assert Sat(a, [t.lits[i]]);
  }

  lemma EnqueueUnits(f: set<Clause>, t: Trail, p: Lit, from: Option<CRef>)
    requires TrailOk(t) && p.v < |t.assigns| && Units(f, t)
    requires |t.lim| == 0 ==> Implied(f, [p])
    ensures Units(f, Enqueued(t, p, from))
  {
    var u := Enqueued(t, p, from);
    forall i | 0 <= i < RootEnd(u) && i < |u.lits| ensures Implied(f, [u.lits[i]]) {
      if i < |t.lits| { assert u.lits[i] == t.lits[i]; }
    }
  }

  // ---------- cutting back ----------

  lemma CutValues(t: Trail, u: Trail, lv: nat, l: Lit)
    requires TrailOk(t) && CutTo(t, u, lv)
    ensures Val(u.assigns, l) == if Val(t.assigns, l) != LUndef
      && Pos(t, l) < t.lim[lv] then Val(t.assigns, l) else LUndef
    ensures Val(u.assigns, l) != LUndef <==> Val(t.assigns, l) != LUndef && Lev(t, l) <= lv
  {
    if Val(t.assigns, l) != LUndef { AssignedPos(t, l); CutLevel(t, lv, Pos(t, l), Lev(t, l)); }
  }

  lemma CutLevel(t: Trail, lv: nat, i: nat, li: nat)
    requires LimOk(t.lim, |t.lits|) && lv < |t.lim| && LevelAt(t.lim, i, li)
    ensures i < t.lim[lv] <==> li <= lv
  {
    if li <= lv { assert li == lv || t.lim[li] <= t.lim[lv]; }
    else { assert li - 1 == lv || t.lim[lv] <= t.lim[li - 1]; }
  }

  lemma CutTrail(t: Trail, u: Trail, lv: nat)
    requires TrailOk(t) && CutTo(t, u, lv)
    ensures TrailOk(u)
  {
    forall i | 0 <= i < |u.lits| ensures OnTrail(u, i) {
      assert OnTrail(t, i);
      CutValues(t, u, lv, t.lits[i]);
      CutLevel(t, lv, i, Lev(t, t.lits[i]));
    }
    forall v | 0 <= v < |u.assigns| && u.assigns[v] != LUndef
      ensures u.pos[v] < |u.lits| && u.lits[u.pos[v]].v == v
    {
      assert t.assigns[v] != LUndef;
    }
  }

  lemma CutReason(t: Trail, u: Trail, lv: nat, ca: seq<Clause>, mark: seq<bool>)
    requires TrailOk(t) && CutTo(t, u, lv) && ReasonOk(t, ca, mark)
    ensures ReasonOk(u, ca, mark)
  {
    forall i | 0 <= i < |u.lits| ensures ReasonAt(u, ca, mark, i) {
      assert ReasonAt(t, ca, mark, i) && OnTrail(t, i);
      CutLevel(t, lv, i, Lev(t, t.lits[i]));
      var r := t.reason[t.lits[i].v];
      if r.Some? {
        var c := ca[r.value];
        forall k | 1 <= k < |c| ensures Val(u.assigns, c[k]) == LFalse && Pos(u, c[k]) < i {
          CutValues(t, u, lv, c[k]);
        }
      }
    }
  }

  lemma CutUnits(f: set<Clause>, t: Trail, u: Trail, lv: nat)
    requires TrailOk(t) && CutTo(t, u, lv) && Units(f, t)
    ensures Units(f, u) && RootEnd(u) == RootEnd(t)
    ensures forall i :: 0 <= i < RootEnd(t) ==> u.lits[i] == t.lits[i]
  {
    assert lv == 0 || t.lim[0] <= t.lim[lv];
  }
}
