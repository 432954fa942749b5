/** What a search keeps about its decisions, and the measure that makes it terminate. */
module SearchState {
  import opened Basics
  import opened Cnf
  import opened Trails
  import opened Propagation
  import opened Analysis

  // ---------- decisions and assumptions ----------

  /** Level `k + 1` was opened for assumption `k`, which is true there. */
  ghost predicate AssumedAt(t: Trail, assumps: seq<Lit>, k: nat) {
    k < |assumps| && Val(t.assigns, assumps[k]) == LTrue && Lev(t, assumps[k]) <= k + 1
  }

  /** A literal without a reason on an assumption's level is that assumption. */
  ghost predicate DecisionAt(t: Trail, assumps: seq<Lit>, i: nat) {
    && i < |t.lits| && t.lits[i].v < |t.reason|
    && (t.reason[t.lits[i].v].None? && 0 < Lev(t, t.lits[i]) <= |assumps| ==>
      t.lits[i] == assumps[Lev(t, t.lits[i]) - 1])
  }

  ghost predicate AssumpOk(t: Trail, assumps: seq<Lit>) {
    && (forall k {:trigger AssumedAt(t, assumps, k)} :: 0 <= k < |t.lim| && k < |assumps| ==> AssumedAt(t, assumps, k))
    && (forall i {:trigger DecisionAt(t, assumps, i)} :: 0 <= i < |t.lits| ==> DecisionAt(t, assumps, i))
  }

  /** Levels beyond the assumptions are never empty. */
  ghost predicate LevelsUsed(lim: seq<nat>, n: nat, k0: nat) {
    && (forall j, k :: k0 <= j < k < |lim| ==> lim[j] < lim[k])
    && (|lim| > k0 ==> lim[|lim| - 1] < n)
  }

  lemma {:induction false} LevelsBound(lim: seq<nat>, n: nat, k0: nat, k: nat)
    requires k0 <= k < |lim| && LevelsUsed(lim, n, k0)
    ensures lim[k] >= k - k0
  {
    if k > k0 { LevelsBound(lim, n, k0, k - 1); }
  }

  lemma AssumpExtend(t: Trail, u: Trail, assumps: seq<Lit>)
    requires TrailOk(t) && TrailOk(u) && Extends(t, u) && AssumpOk(t, assumps)
    requires Explained(t, u)
    ensures AssumpOk(u, assumps)
  {
    forall k: nat | 0 <= k < |u.lim| && k < |assumps| ensures AssumedAt(u, assumps, k) {
      assert AssumedAt(t, assumps, k);
      ExtendValues(t, u, assumps[k]);
    }
    forall i: nat | 0 <= i < |u.lits| ensures DecisionAt(u, assumps, i) {
      assert OnTrail(u, i);
      if i < |t.lits| {
        assert DecisionAt(t, assumps, i) && u.lits[i] == t.lits[i] && OnTrail(t, i);
        ExtendValues(t, u, t.lits[i]);
      }
    }
  }

  lemma AssumpCut(t: Trail, u: Trail, lv: nat, assumps: seq<Lit>)
    requires TrailOk(t) && CutTo(t, u, lv) && AssumpOk(t, assumps)
    ensures AssumpOk(u, assumps)
  {
    forall k: nat | 0 <= k < |u.lim| && k < |assumps| ensures AssumedAt(u, assumps, k) {
      assert AssumedAt(t, assumps, k);
      CutValues(t, u, lv, assumps[k]);
    }
    forall i: nat | 0 <= i < |u.lits| ensures DecisionAt(u, assumps, i) { assert DecisionAt(t, assumps, i); }
  }

  lemma AssumpEnqueue(t: Trail, p: Lit, from: Option<CRef>, assumps: seq<Lit>)
    requires TrailOk(t) && p.v < |t.assigns| && t.assigns[p.v] == LUndef && AssumpOk(t, assumps)
    requires from.Some? || |t.lim| == 0 || |t.lim| > |assumps|
    ensures AssumpOk(Enqueued(t, p, from), assumps)
  {
    var u := Enqueued(t, p, from);
    forall k: nat | 0 <= k < |u.lim| && k < |assumps| ensures AssumedAt(u, assumps, k) {
      assert AssumedAt(t, assumps, k);
    }
    forall i: nat | 0 <= i < |u.lits| ensures DecisionAt(u, assumps, i) {
      if i < |t.lits| { assert DecisionAt(t, assumps, i) && OnTrail(t, i); }
    }
  }

  /** Opening a level whose assumption already holds. */
  lemma AssumpDummy(t: Trail, assumps: seq<Lit>)
    requires TrailOk(t) && AssumpOk(t, assumps) && |t.lim| < |assumps| && Val(t.assigns, assumps[|t.lim|]) == LTrue
    ensures AssumpOk(t.(lim := t.lim + [|t.lits|]), assumps)
  {
    var u := t.(lim := t.lim + [|t.lits|]);
    forall k: nat | 0 <= k < |u.lim| && k < |assumps| ensures AssumedAt(u, assumps, k) {
      if k < |t.lim| { assert AssumedAt(t, assumps, k); } else { LevelBound(t, assumps[k]); }
    }
    forall i: nat | 0 <= i < |u.lits| ensures DecisionAt(u, assumps, i) { assert DecisionAt(t, assumps, i); }
  }

  /** Deciding `p`: the next assumption, or any literal once all assumptions are decided. */
  lemma AssumpDecide(t: Trail, p: Lit, assumps: seq<Lit>)
    requires TrailOk(t) && AssumpOk(t, assumps) && p.v < |t.assigns| && t.assigns[p.v] == LUndef
    requires |t.lim| < |assumps| ==> p == assumps[|t.lim|]
    ensures AssumpOk(Enqueued(t.(lim := t.lim + [|t.lits|]), p, None), assumps)
  {
    var u := Enqueued(t.(lim := t.lim + [|t.lits|]), p, None);
    forall k: nat | 0 <= k < |u.lim| && k < |assumps| ensures AssumedAt(u, assumps, k) {
      if k < |t.lim| { assert AssumedAt(t, assumps, k); }
    }
    forall i: nat | 0 <= i < |u.lits| ensures DecisionAt(u, assumps, i) {
      if i < |t.lits| { assert DecisionAt(t, assumps, i) && OnTrail(t, i); }
    }
  }

  // ---------- the termination measure ----------

  ghost function Worth(t: Trail, b: nat, top: nat, i: nat): nat
    requires i < |t.lits|
  { if Lev(t, t.lits[i]) <= top then Pow(b, top - Lev(t, t.lits[i])) else 0 }

  /** Each trail literal counts a power of `b` that falls with its level. */
  ghost function Weight(t: Trail, b: nat, top: nat, n: nat): nat
    requires n <= |t.lits|
  { if n == 0 then 0 else Weight(t, b, top, n - 1) + Worth(t, b, top, n - 1) }

  ghost function TotalWeight(t: Trail, b: nat, top: nat): nat { Weight(t, b, top, |t.lits|) }

  lemma {:induction false} WeightSame(t: Trail, u: Trail, b: nat, top: nat, n: nat)
    requires n <= |t.lits| && n <= |u.lits|
    requires forall i :: 0 <= i < n ==> u.lits[i] == t.lits[i] && Lev(u, t.lits[i]) == Lev(t, t.lits[i])
    ensures Weight(u, b, top, n) == Weight(t, b, top, n)
  {
    if n > 0 { WeightSame(t, u, b, top, n - 1); }
  }

  lemma {:induction false} WeightGrows(t: Trail, b: nat, top: nat, m: nat, n: nat)
    requires m <= n <= |t.lits| && b >= 1 && forall i :: 0 <= i < n ==> Lev(t, t.lits[i]) <= top
    ensures Weight(t, b, top, n) >= Weight(t, b, top, m) + (n - m)
  {
    if m < n {
      WeightGrows(t, b, top, m, n - 1);
      PowMono(b, 0, top - Lev(t, t.lits[n - 1]));
    }
  }

  /** The literals from index `m` on, all above level `lv`, weigh less than one literal on `lv`. */
  lemma {:induction false} WeightTail(t: Trail, b: nat, top: nat, lv: nat, m: nat, n: nat)
    requires m <= n <= |t.lits| && b >= 1 && lv < top
    requires forall i :: m <= i < n ==> lv < Lev(t, t.lits[i])
    ensures Weight(t, b, top, n) <= Weight(t, b, top, m) + (n - m) * Pow(b, top - lv - 1)
  {
    if m < n {
      WeightTail(t, b, top, lv, m, n - 1);
      if Lev(t, t.lits[n - 1]) <= top { PowMono(b, top - Lev(t, t.lits[n - 1]), top - lv - 1); }
      MulAdd(n - 1 - m, Pow(b, top - lv - 1));
    }
  }

  lemma {:induction false} WeightBound(t: Trail, b: nat, top: nat, n: nat)
    requires n <= |t.lits| && b >= 1
    ensures Weight(t, b, top, n) <= n * Pow(b, top)
  {
    if n > 0 {
      WeightBound(t, b, top, n - 1);
      if Lev(t, t.lits[n - 1]) <= top { PowMono(b, top - Lev(t, t.lits[n - 1]), top); }
      MulAdd(n - 1, Pow(b, top));
    }
  }

  ghost predicate LevelsTo(t: Trail, top: nat) {
    forall i {:trigger t.lits[i]} :: 0 <= i < |t.lits| ==> Lev(t, t.lits[i]) <= top
  }

  lemma LevelsToTop(t: Trail, top: nat)
    requires TrailOk(t) && |t.lim| <= top
    ensures LevelsTo(t, top)
  {
    forall i | 0 <= i < |t.lits| ensures Lev(t, t.lits[i]) <= top { assert OnTrail(t, i); }
  }

  /** Propagation and decisions only add weight. */
  lemma WeightExtend(t: Trail, u: Trail, b: nat, top: nat)
    requires TrailOk(t) && TrailOk(u) && t.lits <= u.lits && b >= 1 && |u.lim| <= top
    requires forall i :: 0 <= i < |t.lits| ==> Lev(u, t.lits[i]) == Lev(t, t.lits[i])
    ensures TotalWeight(u, b, top) >= TotalWeight(t, b, top) + (|u.lits| - |t.lits|)
  {
    LevelsToTop(u, top);
    WeightSame(t, u, b, top, |t.lits|);
    WeightGrows(u, b, top, |t.lits|, |u.lits|);
  }

  /** A backjump with one new literal at level `lv` adds weight, whatever it undoes. */
  lemma WeightJump(t: Trail, u: Trail, lv: nat, p: Lit, from: Option<CRef>, top: nat)
    requires TrailOk(t) && CutTo(t, u, lv) && p.v < |u.assigns| && Shape(u) && u.assigns[p.v] == LUndef
    requires TrailOk(u) && |t.lim| <= top
    ensures TotalWeight(Enqueued(u, p, from), |t.assigns| + 1, top) > TotalWeight(t, |t.assigns| + 1, top)
  {
    var b, m := |t.assigns| + 1, |u.lits|;
    var w := Enqueued(u, p, from);
    forall i | 0 <= i < m ensures w.lits[i] == t.lits[i] && Lev(w, t.lits[i]) == Lev(t, t.lits[i]) {
      assert OnTrail(u, i) && u.lits[i] == t.lits[i];
    }
    WeightSame(t, w, b, top, m);
    forall i | m <= i < |t.lits| ensures lv < Lev(t, t.lits[i]) {
      assert OnTrail(t, i);
      CutLevel(t, lv, i, Lev(t, t.lits[i]));
    }
    WeightTail(t, b, top, lv, m, |t.lits|);
    TrailBound(t);
    var p1 := Pow(b, top - lv - 1);
    PowMono(b, 0, top - lv - 1);
    JumpArith(|t.lits| - m, b, p1);
    assert Lev(w, w.lits[m]) == lv && Worth(w, b, top, m) == b * p1;
  }

  lemma JumpArith(k: nat, b: nat, p: nat)
    requires k < b && p >= 1
    ensures k * p < b * p
  {
    MulMono(k + 1, b, p);
    MulAdd(k, p);
  }

  /** No search over `n` variables and `k` assumptions has more conflicts than this. */
  ghost function MaxConflicts(n: nat, k: nat): nat { n * Pow(n + 1, n + k) }

  // ---------- the decision order ----------

  /** Every unassigned decision variable, `except` aside, is in the heap. */
  ghost predicate HeapCovers(decision: seq<bool>, assigns: seq<LBool>, elems: set<nat>, bound: nat, except: int) {
    && |decision| == |assigns|
    && (forall v {:trigger decision[v]} :: 0 <= v < |assigns| && decision[v] ==>
          v < bound && (assigns[v] == LUndef && v != except ==> v in elems))
    && (forall v :: v in elems ==> v < |assigns|)
  }

  // ---------- the final conflict ----------

  ghost predicate FinalAt(t: Trail, p: Lit, i: nat, v: Var) {
    && v < |t.assigns| && t.assigns[v] != LUndef && v < |t.pos| && t.pos[v] < i
    && v < |t.level| && (t.level[v] > 0 || v == p.v)
  }

  /** Marks during final analysis: assigned before index `i`, above the root except for `p`. */
  ghost predicate FinalSeen(t: Trail, seen: seq<bool>, p: Lit, i: nat) {
    && |seen| == |t.assigns|
    && (forall v: Var {:trigger SeenAt(seen, v)} :: SeenAt(seen, v) ==> FinalAt(t, p, i, v))
  }

  lemma FinalStart(f: set<Clause>, t: Trail, seen: seq<bool>, p: Lit)
    requires TrailOk(t) && Val(t.assigns, p) == LTrue && |seen| == |t.assigns| && Clear(seen)
    ensures p.v < |seen| && FinalSeen(t, seen[p.v := true], p, |t.lits|)
    ensures Forces(f, t, seen[p.v := true], |t.lits|, [], p)
  {
    AssignedPos(t, p);
    var seen' := seen[p.v := true];
    forall v: Var | SeenAt(seen', v) ensures FinalAt(t, p, |t.lits|, v) { assert v != p.v ==> !SeenAt(seen, v); }
    forall a | Models(a, f) && BelowTrue(a, t, seen', |t.lits|) ensures True(a, p) {
      assert SeenAt(seen', t.lits[Pos(t, p)].v);
    }
  }

  lemma FinalSkip(t: Trail, seen: seq<bool>, p: Lit, i: nat)
    requires TrailOk(t) && i < |t.lits| && FinalSeen(t, seen, p, i + 1) && !SeenAt(seen, t.lits[i].v)
    ensures FinalSeen(t, seen, p, i)
  {
    forall v: Var | SeenAt(seen, v) ensures FinalAt(t, p, i, v) {
      assert FinalAt(t, p, i + 1, v);
      AssignedPos(t, Lit(v, false));
    }
  }

  lemma FinalUnmark(t: Trail, seen: seq<bool>, p: Lit, i: nat)
    requires TrailOk(t) && i < |t.lits| && FinalSeen(t, seen, p, i + 1) && t.lits[i].v < |seen|
    ensures FinalSeen(t, seen[t.lits[i].v := false], p, i)
  {
    var seen' := seen[t.lits[i].v := false];
    forall v: Var | SeenAt(seen', v) ensures FinalAt(t, p, i, v) {
      assert SeenAt(seen, v) && FinalAt(t, p, i + 1, v);
      AssignedPos(t, Lit(v, false));
    }
  }

  lemma FinalMark(t: Trail, seen: seq<bool>, p: Lit, i: nat, q: Lit)
    requires FinalSeen(t, seen, p, i) && Val(t.assigns, q) == LFalse && Pos(t, q) < i && Lev(t, q) > 0
    requires |t.pos| == |t.assigns| == |t.level|
    ensures q.v < |seen| && FinalSeen(t, seen[q.v := true], p, i)
  {
    var seen' := seen[q.v := true];
    forall v: Var | SeenAt(seen', v) ensures FinalAt(t, p, i, v) {
      if v != q.v { assert SeenAt(seen, v); }
    }
  }

  /** The collected clause is implied, and unmarking `p` clears everything. */
  lemma FinalDone(f: set<Clause>, t: Trail, seen: seq<bool>, p: Lit, ds: seq<Lit>, seen': seq<bool>)
    requires TrailOk(t) && Units(f, t) && |t.lim| > 0 && Val(t.assigns, p) == LTrue && p.v < |seen|
    requires FinalSeen(t, seen, p, t.lim[0]) && Forces(f, t, seen, t.lim[0], ds, p)
    requires seen' == seen[p.v := false]
    ensures Implied(f, [p] + ds) && Clear(seen')
  {
    forall v: Var | SeenAt(seen, v) ensures v == p.v {
      assert FinalAt(t, p, t.lim[0], v);
      AssignedPos(t, Lit(v, false));
      CutLevel(t, 0, t.pos[v], t.level[v]);
    }
    forall v: Var ensures !SeenAt(seen', v) { assert v != p.v && v < |seen| && seen[v] ==> SeenAt(seen, v); }
    forall a | Models(a, f) ensures Sat(a, [p] + ds) {
      if l :| l in ds && True(a, l) { assert l in [p] + ds; }
      else {
        forall k | 0 <= k < t.lim[0] && k < |t.lits| && SeenAt(seen, t.lits[k].v) ensures True(a, t.lits[k]) {
          assert Implied(f, [t.lits[k]]);
          assert Sat(a, [t.lits[k]]);
        }
        assert BelowTrue(a, t, seen, t.lim[0]);
        assert p in [p] + ds;
      }
    }
  }

  /** Below the number of assumptions, a literal without a reason is an assumption. */
  lemma DecisionIsAssumption(t: Trail, assumps: seq<Lit>, i: nat)
    requires TrailOk(t) && AssumpOk(t, assumps) && 0 < |t.lim| < |assumps| && t.lim[0] <= i < |t.lits|
    requires t.lits[i].v < |t.reason| && t.reason[t.lits[i].v].None?
    ensures t.lits[i] in assumps
  {
    assert OnTrail(t, i) && DecisionAt(t, assumps, i);
    CutLevel(t, 0, i, Lev(t, t.lits[i]));
  }

  lemma HeapAssign(decision: seq<bool>, assigns: seq<LBool>, elems: set<nat>, bound: nat, except: int, v: Var, x: LBool)
    requires HeapCovers(decision, assigns, elems, bound, except) && v < |assigns| && x != LUndef
      && (except == -1 || except == v)
    ensures HeapCovers(decision, assigns[v := x], elems, bound, -1)
  {
  }

  /** More assigned variables leave the heap's promise intact. */
  lemma HeapExtend(decision: seq<bool>, t: Trail, u: Trail, elems: set<nat>, bound: nat)
    requires HeapCovers(decision, t.assigns, elems, bound, -1) && TrailOk(t) && TrailOk(u) && Extends(t, u)
    ensures HeapCovers(decision, u.assigns, elems, bound, -1)
  {
    forall v | 0 <= v < |u.assigns| && decision[v] ensures v < bound && (u.assigns[v] == LUndef ==> v in elems) {
      if t.assigns[v] != LUndef { ExtendValues(t, u, Lit(v, false)); }
    }
  }

  // ---------- steps of the search ----------

  lemma AssumpRoot(t: Trail, assumps: seq<Lit>)
    requires TrailOk(t) && |t.lim| == 0
    ensures AssumpOk(t, assumps) && LevelsUsed(t.lim, |t.lits|, |assumps|)
  {
    forall i: nat | 0 <= i < |t.lits| ensures DecisionAt(t, assumps, i) { assert OnTrail(t, i); }
  }

  lemma LevelCount(t: Trail, k0: nat)
    requires TrailOk(t) && LevelsUsed(t.lim, |t.lits|, k0)
    ensures |t.lim| <= |t.assigns| + k0
  {
    TrailBound(t);
    if |t.lim| > k0 { LevelsBound(t.lim, |t.lits|, k0, |t.lim| - 1); }
  }

  lemma LevelsCut(t: Trail, u: Trail, lv: nat, k0: nat, n: nat)
    requires CutTo(t, u, lv) && LevelsUsed(t.lim, |t.lits|, k0) && n >= |u.lits|
    ensures LevelsUsed(u.lim, n, k0)
  {
  }

  lemma LevelsMore(lim: seq<nat>, n: nat, m: nat, k0: nat)
    requires LevelsUsed(lim, n, k0) && n <= m
    ensures LevelsUsed(lim, m, k0)
  {
  }

  lemma LevelsOpen(lim: seq<nat>, n: nat, k0: nat)
    requires LevelsUsed(lim, n, k0)
    ensures LevelsUsed(lim + [n], n + 1, k0) && (|lim| < k0 ==> LevelsUsed(lim + [n], n, k0))
  {
    var lim' := lim + [n];
    forall j, k | k0 <= j < k < |lim'| ensures lim'[j] < lim'[k] {
      if k == |lim| { assert j == |lim| - 1 || lim[j] < lim[|lim| - 1]; }
    }
  }

  /** After the jump and the learnt literal, all search invariants hold and weight has grown. */
  lemma JumpKeeps(t: Trail, u: Trail, lv: nat, p: Lit, from: Option<CRef>, assumps: seq<Lit>)
    requires TrailOk(t) && CutTo(t, u, lv) && TrailOk(u) && p.v < |u.assigns| && u.assigns[p.v] == LUndef
    requires AssumpOk(t, assumps) && LevelsUsed(t.lim, |t.lits|, |assumps|) && (from.Some? || lv == 0)
    ensures var w := Enqueued(u, p, from);
      && AssumpOk(w, assumps) && LevelsUsed(w.lim, |w.lits|, |assumps|)
      && TotalWeight(w, |t.assigns| + 1, |t.assigns| + |assumps|) > TotalWeight(t, |t.assigns| + 1,
        |t.assigns| + |assumps|)
  {
    hide TrailOk, AssumpOk, LevelsUsed, TotalWeight, CutTo, Enqueued;
    assert Shape(u) by { TrailShape(u); }
    AssumpCut(t, u, lv, assumps);
    assert |u.lim| == lv by { CutLim(t, u, lv); }
    AssumpEnqueue(u, p, from, assumps);
    LevelsCut(t, u, lv, |assumps|, |u.lits| + 1);
    assert Enqueued(u, p, from).lim == u.lim && |Enqueued(u, p, from).lits| == |u.lits| + 1 by {
      EnqueuedLits(u, p, from);
    }
    LevelCount(t, |assumps|);
    WeightJump(t, u, lv, p, from, |t.assigns| + |assumps|);
  }

  lemma CutLim(t: Trail, u: Trail, lv: nat)
    requires CutTo(t, u, lv)
    ensures |u.lim| == lv && |u.assigns| == |t.assigns|
  {
  }

  lemma EnqueuedLits(t: Trail, p: Lit, from: Option<CRef>)
    requires Shape(t) && p.v < |t.assigns|
    ensures Enqueued(t, p, from).lim == t.lim && Enqueued(t, p, from).lits == t.lits + [p]
    ensures |Enqueued(t, p, from).assigns| == |t.assigns|
  {
  }

  /** Propagation keeps the search invariants and never loses weight. */
  lemma ExtendKeeps(t: Trail, u: Trail, assumps: seq<Lit>)
    requires TrailOk(t) && TrailOk(u) && Extends(t, u) && LevelsUsed(t.lim, |t.lits|, |assumps|)
    ensures LevelsUsed(u.lim, |u.lits|, |assumps|)
    ensures TotalWeight(u, |t.assigns| + 1, |t.assigns| + |assumps|) >= TotalWeight(t, |t.assigns| + 1,
      |t.assigns| + |assumps|)
  {
    LevelsMore(t.lim, |t.lits|, |u.lits|, |assumps|);
    LevelCount(u, |assumps|);
    forall i | 0 <= i < |t.lits| ensures Lev(u, t.lits[i]) == Lev(t, t.lits[i]) {
      assert OnTrail(t, i);
      ExtendValues(t, u, t.lits[i]);
    }
    WeightExtend(t, u, |t.assigns| + 1, |t.assigns| + |assumps|);
  }

  /** A decision adds weight. */
  lemma DecideKeeps(t: Trail, p: Lit, assumps: seq<Lit>)
    requires TrailOk(t) && p.v < |t.assigns| && t.assigns[p.v] == LUndef && AssumpOk(t, assumps)
    requires LevelsUsed(t.lim, |t.lits|, |assumps|) && (|t.lim| < |assumps| ==> p == assumps[|t.lim|])
    requires TrailOk(Enqueued(t.(lim := t.lim + [|t.lits|]), p, None))
    ensures var w := Enqueued(t.(lim := t.lim + [|t.lits|]), p, None);
      && AssumpOk(w, assumps) && LevelsUsed(w.lim, |w.lits|, |assumps|)
      && TotalWeight(w, |t.assigns| + 1, |t.assigns| + |assumps|) > TotalWeight(t, |t.assigns| + 1,
        |t.assigns| + |assumps|)
  {
    var w := Enqueued(t.(lim := t.lim + [|t.lits|]), p, None);
    AssumpDecide(t, p, assumps);
    LevelsOpen(t.lim, |t.lits|, |assumps|);
    LevelCount(w, |assumps|);
    forall i | 0 <= i < |t.lits| ensures Lev(w, t.lits[i]) == Lev(t, t.lits[i]) { assert OnTrail(t, i); }
    WeightExtend(t, w, |t.assigns| + 1, |t.assigns| + |assumps|);
  }

  lemma WeightLevels(t: Trail, u: Trail, b: nat, top: nat)
    requires u.lits == t.lits && u.level == t.level
    ensures TotalWeight(u, b, top) == TotalWeight(t, b, top)
  {
    WeightSame(t, u, b, top, |t.lits|);
  }

  /** The measure is bounded. */
  lemma WeightMax(t: Trail, assumps: seq<Lit>)
    requires TrailOk(t)
    ensures TotalWeight(t, |t.assigns| + 1, |t.assigns| + |assumps|) <= MaxConflicts(|t.assigns|, |assumps|)
  {
    TrailBound(t);
    WeightBound(t, |t.assigns| + 1, |t.assigns| + |assumps|, |t.lits|);
    MulMono(|t.lits|, |t.assigns|, Pow(|t.assigns| + 1, |t.assigns| + |assumps|));
  }

  lemma AllAssumed(t: Trail, assumps: seq<Lit>)
    requires AssumpOk(t, assumps) && |assumps| <= |t.lim|
    ensures forall l :: l in assumps ==> Val(t.assigns, l) == LTrue
  {
    forall l | l in assumps ensures Val(t.assigns, l) == LTrue {
      var k :| 0 <= k < |assumps| && assumps[k] == l;
      assert AssumedAt(t, assumps, k);
    }
  }

  lemma HeapSkip(decision: seq<bool>, assigns: seq<LBool>, elems: set<nat>, bound: nat, v: int)
    requires HeapCovers(decision, assigns, elems, bound, -1)
    ensures HeapCovers(decision, assigns, elems, bound, v)
  {
  }
}
