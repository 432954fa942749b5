/** One step of unit propagation at a time: what each way of handling a watcher keeps. */
module Propagation {
  import opened Cnf
  import opened Trails
  import opened Watches

  ghost predicate Sound(f: set<Clause>, ca: seq<Clause>) {
    forall cr {:trigger Implied(f, ca[cr])} :: 0 <= cr < |ca| ==> Implied(f, ca[cr])
  }

  ghost predicate AllLive(mark: seq<bool>, ws: WatchMap) {
    forall p {:trigger Live(mark, WL(ws, p))} :: Live(mark, WL(ws, p))
  }

  /** The clause database holds the same clauses, up to the order of literals. */
  ghost predicate SameSets(ca: seq<Clause>, ca': seq<Clause>) {
    |ca'| == |ca| && forall cr {:trigger SameLits(ca[cr], ca'[cr])} :: 0 <= cr < |ca| ==> SameLits(ca[cr], ca'[cr])
  }

  /** The state propagation works in: everything before trail index `q` has been propagated. */
  ghost predicate PropOk(f: set<Clause>, t: Trail, ca: seq<Clause>, mark: seq<bool>, ws: WatchMap, q: nat) {
    && TrailOk(t) && ReasonOk(t, ca, mark) && DbOk(ca, |t.assigns|) && q <= |t.lits|
    && WatchShape(ca, mark, ws) && AllLive(mark, ws) && WatchInv(t, ca, ws, q)
    && Sound(f, ca) && Units(f, t)
  }

  lemma ReorderSound(f: set<Clause>, ca: seq<Clause>, n: nat, cr: CRef, c: Clause)
    requires Sound(f, ca) && DbOk(ca, n) && cr < |ca| && SameLits(ca[cr], c) && |c| == |ca[cr]| && Distinct(c)
    ensures Sound(f, ca[cr := c]) && DbOk(ca[cr := c], n)
  {
    assert Implied(f, ca[cr]);
    forall a | Models(a, f) ensures Sat(a, c) { assert Sat(a, ca[cr]); }
    var ca' := ca[cr := c];
    forall k | 0 <= k < |ca'| ensures Implied(f, ca'[k]) {
      if k != cr { assert Implied(f, ca[k]); }
    }
    forall k | 0 <= k < |ca'| ensures ClauseOk(ca'[k], n) { assert ClauseOk(ca[k], n); }
  }

  lemma SwapStep(f: set<Clause>, t: Trail, ca: seq<Clause>, mark: seq<bool>, ws: WatchMap, q: nat, cr: CRef)
    requires PropOk(f, t, ca, mark, ws, q) && cr < |ca| && |ca[cr]| >= 2 && Val(t.assigns, ca[cr][0]) == LFalse
    ensures PropOk(f, t, ca[cr := ca[cr][0 := ca[cr][1]][1 := ca[cr][0]]], mark, ws, q)
  {
    hide TrailOk, ReasonOk, DbOk, WatchShape, AllLive, WatchInv, Sound, Units;
    var c := ca[cr][0 := ca[cr][1]][1 := ca[cr][0]];
    DistinctAt(ca, |t.assigns|, cr);
    SwapSame(ca[cr], 0, 1);
    ReorderReason(t, ca, mark, cr, c);
    ReorderSound(f, ca, |t.assigns|, cr, c);
    SwapFirstTwo(ca, mark, ws, cr);
    ReorderInv(t, ca, ws, q, cr, c);
  }

  lemma DistinctAt(ca: seq<Clause>, n: nat, cr: CRef)
    requires DbOk(ca, n) && cr < |ca|
    ensures ClauseOk(ca[cr], n)
  {
  }

  lemma BlockStep(f: set<Clause>, t: Trail, ca: seq<Clause>, mark: seq<bool>, ws: WatchMap, q: nat, p: Lit, k: nat,
                  b: Lit)
    requires PropOk(f, t, ca, mark, ws, q)
    requires p in ws && k < |ws[p]| && ws[p][k].cref < |ca| && b in ca[ws[p][k].cref]
    ensures PropOk(f, t, ca, mark, Blocked(ws, p, k, b), q)
  {
    hide TrailOk, ReasonOk, DbOk, WatchShape, WatchInv, Sound, Units;
    BlockedShape(ca, mark, ws, p, k, b);
    BlockedInv(t, ca, ws, q, p, k, b);
    forall p' ensures Live(mark, WL(Blocked(ws, p, k, b), p')) { assert Live(mark, WL(ws, p')); }
  }

  lemma MoveStep(f: set<Clause>, t: Trail, ca: seq<Clause>, mark: seq<bool>, ws: WatchMap, q: nat, p: Lit, k: nat,
                 j: nat, w: Watcher)
    requires PropOk(f, t, ca, mark, ws, q) && MovePre(ca, ws, p, k, j, w, |t.assigns|)
    requires Val(t.assigns, ca[w.cref][0]) != LTrue && Val(t.assigns, ca[w.cref][j]) != LFalse && Pos(t, p) >= q
    ensures PropOk(f, t, ca[w.cref := Rewatched(ca[w.cref], j)], mark, Moved(ws, p, k, ca[w.cref][j].Not(), w), q)
  {
    hide TrailOk, ReasonOk, DbOk, WatchShape, WatchInv, Sound, Units, Moved;
    var c := Rewatched(ca[w.cref], j);
    SwapSame(ca[w.cref], 1, j);
    ReorderReason(t, ca, mark, w.cref, c);
    ReorderSound(f, ca, |t.assigns|, w.cref, c);
    MoveShape(ca, mark, ws, p, k, j, w, |t.assigns|);
    MoveInv(t, ca, ws, q, p, k, ca[w.cref][j].Not(), w);
    ReorderInv(t, ca, Moved(ws, p, k, ca[w.cref][j].Not(), w), q, w.cref, c);
    MoveLive(mark, ws, p, k, ca[w.cref][j].Not(), w);
  }

  lemma MoveLive(mark: seq<bool>, ws: WatchMap, p: Lit, k: nat, to: Lit, w: Watcher)
    requires AllLive(mark, ws) && p in ws && k < |ws[p]| && w.cref == ws[p][k].cref
    ensures AllLive(mark, Moved(ws, p, k, to, w))
  {
    assert Live(mark, WL(ws, p));
    forall p' ensures Live(mark, WL(Moved(ws, p, k, to, w), p')) { assert Live(mark, WL(ws, p')); }
  }

  lemma EnqueueStep(f: set<Clause>, t: Trail, ca: seq<Clause>, mark: seq<bool>, ws: WatchMap, q: nat, cr: CRef)
    requires PropOk(f, t, ca, mark, ws, q) && cr < |ca| && !mark[cr] && |ca[cr]| >= 2
    requires ca[cr][0].v < |t.assigns| && t.assigns[ca[cr][0].v] == LUndef
    requires (forall k :: 1 <= k < |ca[cr]| ==> Val(t.assigns, ca[cr][k]) == LFalse) && Lev(t, ca[cr][1]) == |t.lim|
    ensures PropOk(f, Enqueued(t, ca[cr][0], Some(cr)), ca, mark, ws, q)
  {
    hide TrailOk, ReasonOk, DbOk, WatchShape, WatchInv, Sound, Units, AllLive, Enqueued;
    assert |mark| == |ca| by { MarkSize(ca, mark, ws); }
    var p := ca[cr][0];
    assert Shape(t) by { TrailShape(t); }
    EnqueueTrail(t, p, Some(cr));
    EnqueueReason(t, p, Some(cr), ca, mark);
    WatchEnqueue(t, p, Some(cr), ca, ws, q);
    if |t.lim| == 0 { RootImplied(f, t, ca, cr); }
    EnqueueUnits(f, t, p, Some(cr));
    EnqueueSizes(t, p, Some(cr));
  }

  lemma MarkSize(ca: seq<Clause>, mark: seq<bool>, ws: WatchMap)
    requires WatchShape(ca, mark, ws)
    ensures |mark| == |ca|
  {
  }

  lemma TrailShape(t: Trail)
    requires TrailOk(t)
    ensures Shape(t)
  {
  }

  lemma EnqueueSizes(t: Trail, p: Lit, from: Option<CRef>)
    requires Shape(t) && p.v < |t.assigns|
    ensures |Enqueued(t, p, from).assigns| == |t.assigns| && |Enqueued(t, p, from).lits| == |t.lits| + 1
  {
  }

  lemma RootImplied(f: set<Clause>, t: Trail, ca: seq<Clause>, cr: CRef)
    requires TrailOk(t) && Units(f, t) && Sound(f, ca) && cr < |ca| && |ca[cr]| > 0 && |t.lim| == 0
    requires forall k :: 1 <= k < |ca[cr]| ==> Val(t.assigns, ca[cr][k]) == LFalse
    ensures Implied(f, [ca[cr][0]])
  {
    assert Implied(f, ca[cr]);
    forall k | 1 <= k < |ca[cr]| ensures Lev(t, ca[cr][k]) == 0 { AssignedPos(t, ca[cr][k]); }
    RootUnit(f, t, ca[cr]);
  }

  // ---------- what a growing trail keeps ----------

  /** `u` is `t` with more literals on top, at the same decision level. */
  ghost predicate Extends(t: Trail, u: Trail) {
    t.lits <= u.lits && t.lim == u.lim && |t.assigns| == |u.assigns|
  }

  /** Old literals keep their reasons, and every new literal has one. */
  ghost predicate Explained(t: Trail, u: Trail) {
    && t.lits <= u.lits && |t.reason| == |u.reason|
    && (forall i {:trigger t.lits[i]} :: 0 <= i < |t.lits| && t.lits[i].v < |t.reason| ==>
      u.reason[t.lits[i].v] == t.reason[t.lits[i].v])
    && (forall i {:trigger u.lits[i]} :: |t.lits| <= i < |u.lits| ==>
      u.lits[i].v < |u.reason| && u.reason[u.lits[i].v].Some?)
  }

  lemma ExplainedRefl(t: Trail)
    ensures Explained(t, t)
  {
  }

  lemma ExplainedTrans(t: Trail, u: Trail, w: Trail)
    requires Explained(t, u) && Explained(u, w)
    ensures Explained(t, w)
  {
    assert forall i :: 0 <= i < |t.lits| ==> u.lits[i] == t.lits[i] && w.lits[i] == t.lits[i];
    forall i | |t.lits| <= i < |w.lits| ensures w.lits[i].v < |w.reason| && w.reason[w.lits[i].v].Some? {
      if i < |u.lits| { assert w.lits[i] == u.lits[i]; }
    }
  }

  lemma ExplainedEnqueue(t: Trail, p: Lit, cr: CRef)
    requires TrailOk(t) && p.v < |t.assigns| && t.assigns[p.v] == LUndef
    ensures Explained(t, Enqueued(t, p, Some(cr)))
  {
    forall i | 0 <= i < |t.lits| ensures t.lits[i].v != p.v { assert OnTrail(t, i); }
  }

  lemma ExtendValues(t: Trail, u: Trail, l: Lit)
    requires TrailOk(t) && TrailOk(u) && Extends(t, u) && Val(t.assigns, l) != LUndef
    ensures Val(u.assigns, l) == Val(t.assigns, l) && Pos(u, l) == Pos(t, l) && Lev(u, l) == Lev(t, l)
  {
    AssignedPos(t, l);
    var i := Pos(t, l);
    assert OnTrail(t, i) && OnTrail(u, i) && u.lits[i] == t.lits[i];
    LevelMono(t.lim, |u.lits|, i, i, Lev(t, l), Lev(u, l));
    LevelMono(t.lim, |u.lits|, i, i, Lev(u, l), Lev(t, l));
  }

  // ---------- handling one watcher ----------

  lemma SameSetsRefl(ca: seq<Clause>)
    ensures SameSets(ca, ca)
  {
  }

  lemma SameSetsUpdate(old_ca: seq<Clause>, ca: seq<Clause>, cr: CRef, c: Clause)
    requires SameSets(old_ca, ca) && cr < |ca| && SameLits(ca[cr], c)
    ensures SameSets(old_ca, ca[cr := c])
  {
    var ca' := ca[cr := c];
    forall k | 0 <= k < |old_ca| ensures SameLits(old_ca[k], ca'[k]) { assert SameLits(old_ca[k], ca[k]); }
  }

  lemma SameSetsTrans(a: seq<Clause>, b: seq<Clause>, c: seq<Clause>)
    requires SameSets(a, b) && SameSets(b, c)
    ensures SameSets(a, c)
  {
    forall k | 0 <= k < |a| ensures SameLits(a[k], c[k]) { assert SameLits(a[k], b[k]) && SameLits(b[k], c[k]); }
  }

  lemma EntryFacts(f: set<Clause>, t: Trail, ca: seq<Clause>, mark: seq<bool>, ws: WatchMap, q: nat, p: Lit, k: nat)
    requires PropOk(f, t, ca, mark, ws, q) && k < |WL(ws, p)|
    ensures p in ws && EntryOk(ca, p, WL(ws, p)[k]) && |mark| == |ca| && !mark[WL(ws, p)[k].cref]
    ensures ClauseOk(ca[WL(ws, p)[k].cref], |t.assigns|) && Shape(t)
  {
    assert EntryAt(ca, ws, p, k) && Live(mark, WL(ws, p));
  }

  /** The literal being propagated is true, at its index, at the current decision level. */
  lemma CurrentLit(f: set<Clause>, t: Trail, ca: seq<Clause>, mark: seq<bool>, ws: WatchMap, q: nat, p: Lit)
    requires PropOk(f, t, ca, mark, ws, q) && q < |t.lits| && t.lits[q] == p
    requires |t.lim| > 0 ==> t.lim[|t.lim| - 1] <= q
    ensures Val(t.assigns, p) == LTrue && Pos(t, p) == q && Lev(t, p) == |t.lim|
  {
    hide ReasonOk, DbOk, WatchShape, WatchInv, Sound, Units, AllLive;
    assert OnTrail(t, q);
    if |t.lim| > 0 { LevelMono(t.lim, |t.lits|, q, q, |t.lim|, Lev(t, p)); }
  }

  lemma PropTrail(f: set<Clause>, t: Trail, ca: seq<Clause>, mark: seq<bool>, ws: WatchMap, q: nat)
    requires PropOk(f, t, ca, mark, ws, q)
    ensures TrailOk(t) && ReasonOk(t, ca, mark) && DbOk(ca, |t.assigns|) && WatchShape(ca, mark, ws)
    ensures Sound(f, ca) && Units(f, t) && q <= |t.lits|
  {
  }

  lemma LevelBound(t: Trail, l: Lit)
    requires TrailOk(t) && Val(t.assigns, l) != LUndef
    ensures Lev(t, l) <= |t.lim|
  {
    AssignedPos(t, l);
  }

  /** A true literal covers the clause of entry `k`. */
  lemma CoverNext(f: set<Clause>, t: Trail, ca: seq<Clause>, mark: seq<bool>, ws: WatchMap, q: nat, xs: seq<Watcher>,
                  k: nat, l: Lit)
    requires PropOk(f, t, ca, mark, ws, q) && CoverList(t, ca, xs, k, |t.lim|)
    requires k < |xs| && xs[k].cref < |ca| && l in ca[xs[k].cref] && Val(t.assigns, l) == LTrue
    ensures CoverList(t, ca, xs, k + 1, |t.lim|)
  {
    hide ReasonOk, DbOk, WatchShape, WatchInv, Sound, Units, AllLive, TrailOk;
    LevelBound(t, l);
    forall m | 0 <= m < |xs| && m < k + 1 ensures CoverAt(t, ca, xs, m, |t.lim|) {
      if m < k { assert CoverAt(t, ca, xs, m, |t.lim|); }
    }
  }

  lemma CoverWithout(t: Trail, ca: seq<Clause>, ws: seq<Watcher>, k: nat, lv: nat)
    requires CoverList(t, ca, ws, k, lv) && k < |ws|
    ensures CoverList(t, ca, Without(ws, k), k, lv)
  {
    forall m | 0 <= m < |Without(ws, k)| && m < k ensures CoverAt(t, ca, Without(ws, k), m, lv) {
      assert CoverAt(t, ca, ws, m, lv);
    }
  }

  lemma AdvanceStep(f: set<Clause>, t: Trail, ca: seq<Clause>, mark: seq<bool>, ws: WatchMap, q: nat)
    requires PropOk(f, t, ca, mark, ws, q) && q < |t.lits|
    requires |t.lim| > 0 ==> t.lim[|t.lim| - 1] <= q
    requires CoverList(t, ca, WL(ws, t.lits[q]), |WL(ws, t.lits[q])|, |t.lim|)
    ensures PropOk(f, t, ca, mark, ws, q + 1)
  {
    hide TrailOk, ReasonOk, DbOk, WatchShape, WatchInv, Sound, Units, AllLive, CoverList;
    CurrentLit(f, t, ca, mark, ws, q, t.lits[q]);
    AdvanceInv(t, ca, ws, q);
  }

  /** The state between calls: as for propagation, but deleted clauses may still be listed. */
  ghost predicate IdleOk(f: set<Clause>, t: Trail, ca: seq<Clause>, mark: seq<bool>, ws: WatchMap, dirties: seq<Lit>,
                         q: nat) {
    && TrailOk(t) && ReasonOk(t, ca, mark) && DbOk(ca, |t.assigns|) && q <= |t.lits|
    && WatchShape(ca, mark, ws) && DirtyOk(mark, ws, dirties) && WatchInv(t, ca, ws, q)
    && Sound(f, ca) && Units(f, t)
  }

  lemma CleanStep(f: set<Clause>, t: Trail, ca: seq<Clause>, mark: seq<bool>, ws: WatchMap, dirties: seq<Lit>, q: nat)
    requires IdleOk(f, t, ca, mark, ws, dirties, q) && |dirties| > 0
    ensures IdleOk(f, t, ca, mark, ws[dirties[0] := LiveOnly(mark, WL(ws, dirties[0]))], dirties[1..], q)
  {
    hide TrailOk, ReasonOk, DbOk, WatchShape, WatchInv, Sound, Units, DirtyOk;
    CleanShape(ca, mark, ws, dirties[0]);
    CleanInv(t, ca, mark, ws, q, dirties[0]);
    CleanDirty(mark, ws, dirties);
  }

  lemma CleanDone(f: set<Clause>, t: Trail, ca: seq<Clause>, mark: seq<bool>, ws: WatchMap, dirties: seq<Lit>, q: nat)
    ensures IdleOk(f, t, ca, mark, ws, [], q) <==> PropOk(f, t, ca, mark, ws, q)
    ensures PropOk(f, t, ca, mark, ws, q) ==> IdleOk(f, t, ca, mark, ws, dirties, q)
  {
    hide TrailOk, ReasonOk, DbOk, WatchShape, WatchInv, Sound, Units;
    if DirtyOk(mark, ws, []) {
      forall p ensures Live(mark, WL(ws, p)) { assert p !in []; }
    }
    if AllLive(mark, ws) {
      forall p ensures Live(mark, WL(ws, p)) { }
    }
  }

  lemma PropQueue(f: set<Clause>, t: Trail, ca: seq<Clause>, mark: seq<bool>, ws: WatchMap, q: nat)
    requires PropOk(f, t, ca, mark, ws, q)
    ensures q <= |t.lits|
  {
  }

  lemma PropBound(f: set<Clause>, t: Trail, ca: seq<Clause>, mark: seq<bool>, ws: WatchMap, q: nat)
    requires PropOk(f, t, ca, mark, ws, q)
    ensures |t.lits| <= |t.assigns|
  {
    TrailBound(t);
  }

  lemma PropWeaken(f: set<Clause>, t: Trail, ca: seq<Clause>, mark: seq<bool>, ws: WatchMap, q: nat, q': nat)
    requires PropOk(f, t, ca, mark, ws, q) && q' <= q
    ensures PropOk(f, t, ca, mark, ws, q')
  {
    hide TrailOk, ReasonOk, DbOk, WatchShape, Sound, Units, AllLive, CoverList;
    assert WatchInv(t, ca, ws, q');
  }

  lemma CoverNone(t: Trail, ca: seq<Clause>, ws: seq<Watcher>, lv: nat)
    ensures CoverList(t, ca, ws, 0, lv)
  {
  }

  lemma FalseAtTop(f: set<Clause>, t: Trail, ca: seq<Clause>, mark: seq<bool>, ws: WatchMap, q: nat, p: Lit)
    requires PropOk(f, t, ca, mark, ws, q) && q < |t.lits| && t.lits[q] == p
    requires |t.lim| > 0 ==> t.lim[|t.lim| - 1] <= q
    ensures Lev(t, p.Not()) == |t.lim|
  {
    CurrentLit(f, t, ca, mark, ws, q, p);
  }
}
