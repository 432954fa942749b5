/** Two-watched-literal lists with blockers: their shape, and the level-aware invariant
    that makes unit propagation complete. */
module Watches {
  import opened Cnf
  import opened Trails

  datatype Watcher = Watcher(cref: CRef, blocker: Lit)

  type WatchMap = map<Lit, seq<Watcher>>

  function WL(ws: WatchMap, p: Lit): seq<Watcher> { if p in ws then ws[p] else [] }

  ghost predicate ClauseOk(c: Clause, n: nat) { |c| >= 2 && Distinct(c) && VarsBelow(c, n) }

  ghost predicate DbOk(ca: seq<Clause>, n: nat) {
    forall cr :: 0 <= cr < |ca| ==> ClauseOk(ca[cr], n)
  }

  /** A watcher in the list of `p` belongs to a clause one of whose first two literals is `~p`. */
  ghost predicate EntryOk(ca: seq<Clause>, p: Lit, w: Watcher) {
    && w.cref < |ca| && |ca[w.cref]| >= 2
    && (p.Not() == ca[w.cref][0] || p.Not() == ca[w.cref][1])
    && w.blocker in ca[w.cref]
  }

  ghost predicate EntryAt(ca: seq<Clause>, ws: WatchMap, p: Lit, m: nat) {
    m < |WL(ws, p)| && EntryOk(ca, p, WL(ws, p)[m])
  }

  ghost predicate Has(ws: seq<Watcher>, cr: CRef) { exists m :: 0 <= m < |ws| && ws[m].cref == cr }

  ghost predicate Once(ws: seq<Watcher>) {
    forall m, k :: 0 <= m < k < |ws| ==> ws[m].cref != ws[k].cref
  }

  ghost predicate Watched(ca: seq<Clause>, ws: WatchMap, cr: CRef) {
    && cr < |ca| && |ca[cr]| >= 2
    && Has(WL(ws, ca[cr][0].Not()), cr) && Has(WL(ws, ca[cr][1].Not()), cr)
  }

  /** Lists hold sane entries without repetition, and every live clause is in both its lists. */
  ghost predicate WatchShape(ca: seq<Clause>, mark: seq<bool>, ws: WatchMap) {
    && |mark| == |ca|
    && Entries(ca, ws) && NoRepeats(ws) && AllWatched(ca, mark, ws)
  }

  ghost predicate Entries(ca: seq<Clause>, ws: WatchMap) {
    forall p, m {:trigger EntryAt(ca, ws, p, m)} :: 0 <= m < |WL(ws, p)| ==> EntryAt(ca, ws, p, m)
  }

  ghost predicate NoRepeats(ws: WatchMap) { forall p {:trigger Once(WL(ws, p))} :: Once(WL(ws, p)) }

  ghost predicate AllWatched(ca: seq<Clause>, mark: seq<bool>, ws: WatchMap) {
    forall cr {:trigger Watched(ca, ws, cr)} ::
      0 <= cr < |ca| && cr < |mark| && !mark[cr] ==> Watched(ca, ws, cr)
  }

  ghost predicate Live(mark: seq<bool>, ws: seq<Watcher>) {
    forall m :: 0 <= m < |ws| && ws[m].cref < |mark| ==> !mark[ws[m].cref]
  }

  /** Watchers of deleted clauses occur only in lists that are waiting to be cleaned. */
  ghost predicate DirtyOk(mark: seq<bool>, ws: WatchMap, dirties: seq<Lit>) {
    forall p :: p !in dirties ==> Live(mark, WL(ws, p))
  }

  /** Some literal of `c` is true, at a level no higher than `lv`. */
  ghost predicate Covered(t: Trail, c: Clause, lv: nat) {
    exists l :: l in c && Val(t.assigns, l) == LTrue && Lev(t, l) <= lv
  }

  ghost predicate CoverList(t: Trail, ca: seq<Clause>, ws: seq<Watcher>, n: nat, lv: nat) {
    forall m {:trigger CoverAt(t, ca, ws, m, lv)} :: 0 <= m < |ws| && m < n ==> CoverAt(t, ca, ws, m, lv)
  }

  ghost predicate CoverAt(t: Trail, ca: seq<Clause>, ws: seq<Watcher>, m: nat, lv: nat) {
    m < |ws| && ws[m].cref < |ca| && Covered(t, ca[ws[m].cref], lv)
  }

  /** The level-aware watch invariant: once a literal at a trail index below `q` made a watched
      literal false, its clause has a true literal assigned no later than that level. */
  ghost predicate WatchInv(t: Trail, ca: seq<Clause>, ws: WatchMap, q: nat) {
    forall p {:trigger CoverList(t, ca, WL(ws, p), |WL(ws, p)|, Lev(t, p))} ::
      Val(t.assigns, p) == LTrue && Pos(t, p) < q ==>
      CoverList(t, ca, WL(ws, p), |WL(ws, p)|, Lev(t, p))
  }

  // ---------- the invariant under trail changes ----------

  lemma CoverListEnqueue(t: Trail, p: Lit, from: Option<CRef>, ca: seq<Clause>, ws: seq<Watcher>, n: nat, lv: nat)
    requires TrailOk(t) && p.v < |t.assigns| && t.assigns[p.v] == LUndef
    requires CoverList(t, ca, ws, n, lv)
    ensures CoverList(Enqueued(t, p, from), ca, ws, n, lv)
  {
    var u := Enqueued(t, p, from);
    forall m | 0 <= m < |ws| && m < n ensures CoverAt(u, ca, ws, m, lv) {
      assert CoverAt(t, ca, ws, m, lv);
      var l :| l in ca[ws[m].cref] && Val(t.assigns, l) == LTrue && Lev(t, l) <= lv;
      assert Val(u.assigns, l) == LTrue && Lev(u, l) <= lv;
    }
  }

  lemma WatchEnqueue(t: Trail, p: Lit, from: Option<CRef>, ca: seq<Clause>, ws: WatchMap, q: nat)
    requires TrailOk(t) && p.v < |t.assigns| && t.assigns[p.v] == LUndef
    requires WatchInv(t, ca, ws, q) && q <= |t.lits|
    ensures WatchInv(Enqueued(t, p, from), ca, ws, q)
  {
    var u := Enqueued(t, p, from);
    forall p' | Val(u.assigns, p') == LTrue && Pos(u, p') < q
      ensures CoverList(u, ca, WL(ws, p'), |WL(ws, p')|, Lev(u, p'))
    {
      assert p'.v != p.v;
      CoverListEnqueue(t, p, from, ca, WL(ws, p'), |WL(ws, p')|, Lev(t, p'));
    }
  }

  /** The invariant survives a jump back to any lower decision level. */
  lemma WatchCut(t: Trail, u: Trail, lv: nat, ca: seq<Clause>, ws: WatchMap, q: nat)
    requires TrailOk(t) && CutTo(t, u, lv) && WatchInv(t, ca, ws, q) && t.lim[lv] <= q
    ensures WatchInv(u, ca, ws, t.lim[lv])
  {
    forall p | Val(u.assigns, p) == LTrue && Pos(u, p) < t.lim[lv]
      ensures CoverList(u, ca, WL(ws, p), |WL(ws, p)|, Lev(u, p))
    {
      CutValues(t, u, lv, p);
      var xs := WL(ws, p);
      assert CoverList(t, ca, xs, |xs|, Lev(t, p));
      forall m | 0 <= m < |xs| ensures CoverAt(u, ca, xs, m, Lev(u, p)) {
        assert CoverAt(t, ca, xs, m, Lev(t, p));
        var l :| l in ca[xs[m].cref] && Val(t.assigns, l) == LTrue && Lev(t, l) <= Lev(t, p);
        CutValues(t, u, lv, l);
      }
    }
  }

  // ---------- reordering clauses and changing the lists ----------

  lemma SwapSame(c: Clause, i: nat, j: nat)
    requires i < |c| && j < |c|
    ensures SameLits(c, c[i := c[j]][j := c[i]])
    ensures Distinct(c) ==> Distinct(c[i := c[j]][j := c[i]])
  {
    var d := c[i := c[j]][j := c[i]];
    forall l | l in c ensures l in d {
      var k :| 0 <= k < |c| && c[k] == l;
      assert d[if k == i then j else if k == j then i else k] == l;
    }
  }

  lemma ReorderList(t: Trail, ca: seq<Clause>, xs: seq<Watcher>, n: nat, lv: nat, cr: CRef, c: Clause)
    requires cr < |ca| && SameLits(ca[cr], c) && CoverList(t, ca, xs, n, lv)
    ensures CoverList(t, ca[cr := c], xs, n, lv)
  {
    var ca' := ca[cr := c];
    forall m | 0 <= m < |xs| && m < n ensures CoverAt(t, ca', xs, m, lv) {
      assert CoverAt(t, ca, xs, m, lv);
    }
  }

  lemma ReorderInv(t: Trail, ca: seq<Clause>, ws: WatchMap, q: nat, cr: CRef, c: Clause)
    requires cr < |ca| && SameLits(ca[cr], c) && WatchInv(t, ca, ws, q)
    ensures WatchInv(t, ca[cr := c], ws, q)
  {
    forall p | Val(t.assigns, p) == LTrue && Pos(t, p) < q
      ensures CoverList(t, ca[cr := c], WL(ws, p), |WL(ws, p)|, Lev(t, p))
    {
      ReorderList(t, ca, WL(ws, p), |WL(ws, p)|, Lev(t, p), cr, c);
    }
  }

  /** A clause that is nobody's reason may be reordered. */
  lemma ReorderReason(t: Trail, ca: seq<Clause>, mark: seq<bool>, cr: CRef, c: Clause)
    requires TrailOk(t) && ReasonOk(t, ca, mark) && cr < |ca| && |ca[cr]| > 0
    requires Val(t.assigns, ca[cr][0]) != LTrue
    ensures ReasonOk(t, ca[cr := c], mark)
  {
    var ca' := ca[cr := c];
    forall i | 0 <= i < |t.lits| ensures ReasonAt(t, ca', mark, i) {
      assert ReasonAt(t, ca, mark, i) && OnTrail(t, i);
    }
  }

  lemma SwapFirstTwo(ca: seq<Clause>, mark: seq<bool>, ws: WatchMap, cr: CRef)
    requires cr < |ca| && |ca[cr]| >= 2 && WatchShape(ca, mark, ws)
    ensures WatchShape(ca[cr := ca[cr][0 := ca[cr][1]][1 := ca[cr][0]]], mark, ws)
  {
    var c := ca[cr][0 := ca[cr][1]][1 := ca[cr][0]];
    var ca' := ca[cr := c];
    SwapSame(ca[cr], 0, 1);
    forall p, m | 0 <= m < |WL(ws, p)| ensures EntryAt(ca', ws, p, m) {
      assert EntryAt(ca, ws, p, m);
    }
    forall k | 0 <= k < |ca'| && !mark[k] ensures Watched(ca', ws, k) {
      assert Watched(ca, ws, k);
    }
  }

  /** Lists that agree on the clause of every entry. */
  ghost predicate SameRefs(xs: seq<Watcher>, ys: seq<Watcher>) {
    |xs| == |ys| && forall m :: 0 <= m < |xs| ==> xs[m].cref == ys[m].cref
  }

  lemma HasSame(xs: seq<Watcher>, ys: seq<Watcher>, cr: CRef)
    requires SameRefs(xs, ys) && Has(xs, cr)
    ensures Has(ys, cr)
  {
    var m :| 0 <= m < |xs| && xs[m].cref == cr;
    assert ys[m].cref == cr;
  }

  /** Replacing the blocker of one watcher. */
  ghost function Blocked(ws: WatchMap, p: Lit, k: nat, b: Lit): WatchMap
    requires p in ws && k < |ws[p]|
  { ws[p := ws[p][k := Watcher(ws[p][k].cref, b)]] }

  lemma BlockedShape(ca: seq<Clause>, mark: seq<bool>, ws: WatchMap, p: Lit, k: nat, b: Lit)
    requires WatchShape(ca, mark, ws)
    requires p in ws && k < |ws[p]| && ws[p][k].cref < |ca| && b in ca[ws[p][k].cref]
    ensures WatchShape(ca, mark, Blocked(ws, p, k, b))
  {
    var ws' := Blocked(ws, p, k, b);
    forall p', m | 0 <= m < |WL(ws', p')| ensures EntryAt(ca, ws', p', m) {
      assert EntryAt(ca, ws, p', m);
    }
    forall p' ensures Once(WL(ws', p')) { assert Once(WL(ws, p')); }
    forall cr | 0 <= cr < |ca| && !mark[cr] ensures Watched(ca, ws', cr) {
      assert Watched(ca, ws, cr);
      HasSame(WL(ws, ca[cr][0].Not()), WL(ws', ca[cr][0].Not()), cr);
      HasSame(WL(ws, ca[cr][1].Not()), WL(ws', ca[cr][1].Not()), cr);
    }
  }

  lemma SameRefsCover(t: Trail, ca: seq<Clause>, xs: seq<Watcher>, ys: seq<Watcher>, n: nat, lv: nat)
    requires SameRefs(xs, ys) && CoverList(t, ca, xs, n, lv)
    ensures CoverList(t, ca, ys, n, lv)
  {
    forall m | 0 <= m < |ys| && m < n ensures CoverAt(t, ca, ys, m, lv) { assert CoverAt(t, ca, xs, m, lv); }
  }

  lemma BlockedInv(t: Trail, ca: seq<Clause>, ws: WatchMap, q: nat, p: Lit, k: nat, b: Lit)
    requires WatchInv(t, ca, ws, q) && p in ws && k < |ws[p]|
    ensures WatchInv(t, ca, Blocked(ws, p, k, b), q)
  {
    var ws' := Blocked(ws, p, k, b);
    forall p' | Val(t.assigns, p') == LTrue && Pos(t, p') < q
      ensures CoverList(t, ca, WL(ws', p'), |WL(ws', p')|, Lev(t, p'))
    {
      SameRefsCover(t, ca, WL(ws, p'), WL(ws', p'), |WL(ws, p')|, Lev(t, p'));
    }
  }

  ghost function Without(ws: seq<Watcher>, k: nat): seq<Watcher>
    requires k < |ws|
  { ws[..k] + ws[k + 1..] }

  lemma HasWithout(ws: seq<Watcher>, k: nat, cr: CRef)
    requires k < |ws| && Has(ws, cr) && ws[k].cref != cr
    ensures Has(Without(ws, k), cr)
  {
    var m :| 0 <= m < |ws| && ws[m].cref == cr;
    assert Without(ws, k)[if m < k then m else m - 1].cref == cr;
  }

  lemma HasAppend(ws: seq<Watcher>, w: Watcher, cr: CRef)
    requires Has(ws, cr) || w.cref == cr
    ensures Has(ws + [w], cr)
  {
    if w.cref == cr { assert (ws + [w])[|ws|].cref == cr; }
    else {
      var m :| 0 <= m < |ws| && ws[m].cref == cr;
      assert (ws + [w])[m].cref == cr;
    }
  }

  /** Entry `k` of the list of `p` moves to the list of `to`. */
  ghost function Moved(ws: WatchMap, p: Lit, k: nat, to: Lit, w: Watcher): WatchMap
    requires p in ws && k < |ws[p]|
  { ws[p := Without(ws[p], k)][to := WL(ws, to) + [w]] }

  /** The clause whose second watch becomes its literal at `j`. */
  ghost function Rewatched(c: Clause, j: nat): Clause
    requires 2 <= j < |c|
  { c[1 := c[j]][j := c[1]] }

  ghost predicate MovePre(ca: seq<Clause>, ws: WatchMap, p: Lit, k: nat, j: nat, w: Watcher, n: nat) {
    && p in ws && k < |ws[p]| && w.cref == ws[p][k].cref && w.cref < |ca|
    && ClauseOk(ca[w.cref], n) && 2 <= j < |ca[w.cref]|
    && ca[w.cref][1] == p.Not() && w.blocker == ca[w.cref][0]
  }

  lemma MoveShape(ca: seq<Clause>, mark: seq<bool>, ws: WatchMap, p: Lit, k: nat, j: nat, w: Watcher, n: nat)
    requires WatchShape(ca, mark, ws) && MovePre(ca, ws, p, k, j, w, n)
    ensures WatchShape(ca[w.cref := Rewatched(ca[w.cref], j)], mark, Moved(ws, p, k, ca[w.cref][j].Not(), w))
  {
    hide Entries, NoRepeats, AllWatched;
    MoveEntries(ca, ws, p, k, j, w, n);
    MoveOnce(ca, ws, p, k, j, w, n);
    MoveWatched(ca, mark, ws, p, k, j, w, n);
  }

  lemma MoveWatched(ca: seq<Clause>, mark: seq<bool>, ws: WatchMap, p: Lit, k: nat, j: nat, w: Watcher, n: nat)
    requires AllWatched(ca, mark, ws) && MovePre(ca, ws, p, k, j, w, n)
    ensures AllWatched(ca[w.cref := Rewatched(ca[w.cref], j)], mark, Moved(ws, p, k, ca[w.cref][j].Not(), w))
  {
    var ca' := ca[w.cref := Rewatched(ca[w.cref], j)];
    forall cr | 0 <= cr < |ca| && cr < |mark| && !mark[cr]
      ensures Watched(ca', Moved(ws, p, k, ca[w.cref][j].Not(), w), cr)
    {
      assert Watched(ca, ws, cr);
      MoveHas(ca, ws, p, k, j, w, n, cr, 0);
      MoveHas(ca, ws, p, k, j, w, n, cr, 1);
    }
  }

  lemma MoveHas(ca: seq<Clause>, ws: WatchMap, p: Lit, k: nat, j: nat, w: Watcher, n: nat, cr: CRef, i: nat)
    requires MovePre(ca, ws, p, k, j, w, n) && Watched(ca, ws, cr) && i < 2
    ensures var ca' := ca[w.cref := Rewatched(ca[w.cref], j)];
      Has(WL(Moved(ws, p, k, ca[w.cref][j].Not(), w), ca'[cr][i].Not()), cr)
  {
    var c := ca[w.cref];
    assert c[1] != c[j] && c[0] != c[1];
    var to := c[j].Not();
    var x := if cr == w.cref && i == 1 then to else ca[cr][i].Not();
    if x == to {
      HasAppend(WL(ws, to), w, cr);
    } else if x == p {
      HasWithout(ws[p], k, cr);
    }
  }

  lemma MoveEntries(ca: seq<Clause>, ws: WatchMap, p: Lit, k: nat, j: nat, w: Watcher, n: nat)
    requires Entries(ca, ws) && NoRepeats(ws) && MovePre(ca, ws, p, k, j, w, n)
    ensures Entries(ca[w.cref := Rewatched(ca[w.cref], j)], Moved(ws, p, k, ca[w.cref][j].Not(), w))
  {
    var c := ca[w.cref];
    assert c[1] != c[j];
    var ca' := ca[w.cref := Rewatched(c, j)];
    var to := c[j].Not();
    var ws' := Moved(ws, p, k, to, w);
    SwapSame(c, 1, j);
    forall p', m | 0 <= m < |WL(ws', p')| ensures EntryAt(ca', ws', p', m) {
      if p' == p {
        EntryShifted(ca, ws, p, k, j, w, n, m);
      } else if p' == to && m == |WL(ws, to)| {
        assert Rewatched(c, j)[0] in Rewatched(c, j);
      } else {
        assert EntryAt(ca, ws, p', m);
        EntryElsewhere(ca, ws, p, p', m, w.cref, j);
      }
    }
  }

  lemma EntryShifted(ca: seq<Clause>, ws: WatchMap, p: Lit, k: nat, j: nat, w: Watcher, n: nat, m: nat)
    requires Entries(ca, ws) && NoRepeats(ws) && MovePre(ca, ws, p, k, j, w, n)
    requires m < |WL(Moved(ws, p, k, ca[w.cref][j].Not(), w), p)|
    ensures EntryAt(ca[w.cref := Rewatched(ca[w.cref], j)], Moved(ws, p, k, ca[w.cref][j].Not(), w), p, m)
  {
    var m' := if m < k then m else m + 1;
    assert ca[w.cref][1] != ca[w.cref][j];
    assert EntryAt(ca, ws, p, m');
    assert ws[p][m'].cref != w.cref by { assert Once(WL(ws, p)); }
  }

  lemma EntryElsewhere(ca: seq<Clause>, ws: WatchMap, p: Lit, p': Lit, m: nat, cr: CRef, j: nat)
    requires cr < |ca| && 2 <= j < |ca[cr]| && EntryAt(ca, ws, p', m) && p' != p && ca[cr][1] == p.Not()
    ensures EntryOk(ca[cr := Rewatched(ca[cr], j)], p', WL(ws, p')[m])
  {
    SwapSame(ca[cr], 1, j);
  }

  lemma MoveOnce(ca: seq<Clause>, ws: WatchMap, p: Lit, k: nat, j: nat, w: Watcher, n: nat)
    requires Entries(ca, ws) && NoRepeats(ws) && MovePre(ca, ws, p, k, j, w, n)
    ensures NoRepeats(Moved(ws, p, k, ca[w.cref][j].Not(), w))
  {
    var c := ca[w.cref];
    assert c[1] != c[j] && c[0] != c[j];
    var to := c[j].Not();
    forall p' ensures Once(WL(Moved(ws, p, k, to, w), p')) {
      assert Once(WL(ws, p'));
      if p' == to {
        forall m | 0 <= m < |WL(ws, to)| ensures WL(ws, to)[m].cref != w.cref {
          assert EntryAt(ca, ws, to, m);
        }
      }
    }
  }

  lemma MoveInv(t: Trail, ca: seq<Clause>, ws: WatchMap, q: nat, p: Lit, k: nat, to: Lit, w: Watcher)
    requires WatchInv(t, ca, ws, q) && p in ws && k < |ws[p]| && Val(t.assigns, to) != LTrue && Pos(t, p) >= q
    ensures WatchInv(t, ca, Moved(ws, p, k, to, w), q)
  {
    var ws' := Moved(ws, p, k, to, w);
    forall p' | Val(t.assigns, p') == LTrue && Pos(t, p') < q
      ensures CoverList(t, ca, WL(ws', p'), |WL(ws', p')|, Lev(t, p'))
    {
      assert WL(ws', p') == WL(ws, p');
      assert CoverList(t, ca, WL(ws, p'), |WL(ws, p')|, Lev(t, p'));
    }
  }

  // ---------- attaching a clause ----------

  /** A new clause enters the lists of its first two literals. */
  ghost function Attached(ws: WatchMap, cr: CRef, c: Clause): WatchMap
    requires |c| >= 2
  {
    var ws1 := ws[c[0].Not() := WL(ws, c[0].Not()) + [Watcher(cr, c[1])]];
    ws1[c[1].Not() := WL(ws1, c[1].Not()) + [Watcher(cr, c[0])]]
  }

  lemma AttachedList(ws: WatchMap, cr: CRef, c: Clause, p: Lit)
    requires |c| >= 2 && c[0] != c[1]
    ensures WL(Attached(ws, cr, c), p) ==
      if p == c[0].Not() then WL(ws, p) + [Watcher(cr, c[1])]
      else if p == c[1].Not() then WL(ws, p) + [Watcher(cr, c[0])] else WL(ws, p)
  {
  }

  lemma AttachShape(ca: seq<Clause>, mark: seq<bool>, ws: WatchMap, c: Clause, n: nat)
    requires WatchShape(ca, mark, ws) && ClauseOk(c, n)
    ensures WatchShape(ca + [c], mark + [false], Attached(ws, |ca|, c))
  {
    hide Attached;
    var cr := |ca|;
    var ca' := ca + [c];
    var ws' := Attached(ws, cr, c);
    assert c[0] != c[1];
    forall p, m | 0 <= m < |WL(ws', p)| ensures EntryAt(ca', ws', p, m) {
      AttachedList(ws, cr, c, p);
      if m < |WL(ws, p)| { assert EntryAt(ca, ws, p, m); }
    }
    forall p ensures Once(WL(ws', p)) {
      AttachedList(ws, cr, c, p);
      assert Once(WL(ws, p));
      forall m | 0 <= m < |WL(ws, p)| ensures WL(ws, p)[m].cref != cr { assert EntryAt(ca, ws, p, m); }
    }
    forall k | 0 <= k < |ca'| && !(mark + [false])[k] ensures Watched(ca', ws', k) {
      if k < |ca| { assert Watched(ca, ws, k); }
      forall i | 0 <= i < 2 ensures Has(WL(ws', ca'[k][i].Not()), k) {
        var x := ca'[k][i].Not();
        AttachedList(ws, cr, c, x);
        if x == c[0].Not() { HasAppend(WL(ws, x), Watcher(cr, c[1]), k); }
        else if x == c[1].Not() { HasAppend(WL(ws, x), Watcher(cr, c[0]), k); }
      }
    }
  }

  /** Attaching keeps the invariant when the clause is covered wherever a watch is false. */
  lemma AttachInv(t: Trail, ca: seq<Clause>, ws: WatchMap, c: Clause, q: nat)
    requires WatchInv(t, ca, ws, q) && |c| >= 2 && c[0] != c[1]
    requires Val(t.assigns, c[0]) == LFalse ==> Covered(t, c, Lev(t, c[0]))
    requires Val(t.assigns, c[1]) == LFalse ==> Covered(t, c, Lev(t, c[1]))
    ensures WatchInv(t, ca + [c], Attached(ws, |ca|, c), q)
  {
    hide Attached, Covered;
    var ca' := ca + [c];
    var ws' := Attached(ws, |ca|, c);
    forall p | Val(t.assigns, p) == LTrue && Pos(t, p) < q
      ensures CoverList(t, ca', WL(ws', p), |WL(ws', p)|, Lev(t, p))
    {
      var xs := WL(ws, p);
      assert CoverList(t, ca, xs, |xs|, Lev(t, p));
      AttachedList(ws, |ca|, c, p);
      forall m | 0 <= m < |WL(ws', p)| ensures CoverAt(t, ca', WL(ws', p), m, Lev(t, p)) {
        if m < |xs| { assert CoverAt(t, ca, xs, m, Lev(t, p)); }
      }
    }
  }

  // ---------- dropping the watchers of deleted clauses ----------

  /** The entries of `ws` whose clause is not deleted, in order. */
  function LiveOnly(mark: seq<bool>, ws: seq<Watcher>): seq<Watcher> {
    if |ws| == 0 then []
    else
      var rest := LiveOnly(mark, ws[..|ws| - 1]);
      var w := ws[|ws| - 1];
      if w.cref < |mark| && mark[w.cref] then rest else rest + [w]
  }

  lemma {:induction false} LiveOnlyHas(mark: seq<bool>, ws: seq<Watcher>, cr: CRef)
    requires Has(ws, cr) && cr < |mark| && !mark[cr]
    ensures Has(LiveOnly(mark, ws), cr)
  {
    var w := ws[|ws| - 1];
    var front := ws[..|ws| - 1];
    if w.cref != cr {
      var m :| 0 <= m < |ws| && ws[m].cref == cr;
      assert front[m].cref == cr;
      LiveOnlyHas(mark, front, cr);
    }
    if !(w.cref < |mark| && mark[w.cref]) { HasAppend(LiveOnly(mark, front), w, cr); }
  }

  lemma {:induction false} LiveOnlyFrom(mark: seq<bool>, ws: seq<Watcher>, k: nat) returns (m: nat)
    requires k < |LiveOnly(mark, ws)|
    ensures m < |ws| && ws[m] == LiveOnly(mark, ws)[k] && (ws[m].cref < |mark| ==> !mark[ws[m].cref])
  {
    var rest := LiveOnly(mark, ws[..|ws| - 1]);
    if k < |rest| { m := LiveOnlyFrom(mark, ws[..|ws| - 1], k); } else { m := |ws| - 1; }
  }

  lemma {:induction false} LiveOnlyOnce(mark: seq<bool>, ws: seq<Watcher>)
    requires Once(ws)
    ensures Once(LiveOnly(mark, ws))
  {
    if |ws| > 0 {
      var rest := LiveOnly(mark, ws[..|ws| - 1]);
      LiveOnlyOnce(mark, ws[..|ws| - 1]);
      forall k | 0 <= k < |rest| ensures rest[k].cref != ws[|ws| - 1].cref {
        var m := LiveOnlyFrom(mark, ws[..|ws| - 1], k);
      }
    }
  }

  lemma CleanShape(ca: seq<Clause>, mark: seq<bool>, ws: WatchMap, d: Lit)
    requires WatchShape(ca, mark, ws)
    ensures WatchShape(ca, mark, ws[d := LiveOnly(mark, WL(ws, d))])
  {
    hide LiveOnly;
    var ws' := ws[d := LiveOnly(mark, WL(ws, d))];
    forall p, m | 0 <= m < |WL(ws', p)| ensures EntryAt(ca, ws', p, m) {
      var k := m;
      if p == d { k := LiveOnlyFrom(mark, WL(ws, d), m); }
      assert EntryAt(ca, ws, p, k);
    }
    forall p ensures Once(WL(ws', p)) { assert Once(WL(ws, p)); LiveOnlyOnce(mark, WL(ws, p)); }
    forall cr | 0 <= cr < |ca| && !mark[cr] ensures Watched(ca, ws', cr) {
      assert Watched(ca, ws, cr);
      forall i | 0 <= i < 2 ensures Has(WL(ws', ca[cr][i].Not()), cr) {
        LiveOnlyHas(mark, WL(ws, ca[cr][i].Not()), cr);
      }
    }
  }

  lemma CleanInv(t: Trail, ca: seq<Clause>, mark: seq<bool>, ws: WatchMap, q: nat, d: Lit)
    requires WatchInv(t, ca, ws, q)
    ensures WatchInv(t, ca, ws[d := LiveOnly(mark, WL(ws, d))], q)
  {
    hide LiveOnly, Covered;
    var ws' := ws[d := LiveOnly(mark, WL(ws, d))];
    forall p | Val(t.assigns, p) == LTrue && Pos(t, p) < q
      ensures CoverList(t, ca, WL(ws', p), |WL(ws', p)|, Lev(t, p))
    {
      var xs := WL(ws, p);
      assert CoverList(t, ca, xs, |xs|, Lev(t, p));
      forall m | 0 <= m < |WL(ws', p)| ensures CoverAt(t, ca, WL(ws', p), m, Lev(t, p)) {
        var k := m;
        if p == d { k := LiveOnlyFrom(mark, xs, m); }
        assert CoverAt(t, ca, xs, k, Lev(t, p));
      }
    }
  }

  lemma CleanDirty(mark: seq<bool>, ws: WatchMap, dirties: seq<Lit>)
    requires DirtyOk(mark, ws, dirties) && |dirties| > 0
    ensures DirtyOk(mark, ws[dirties[0] := LiveOnly(mark, WL(ws, dirties[0]))], dirties[1..])
  {
    hide LiveOnly;
    var d := dirties[0];
    var ws' := ws[d := LiveOnly(mark, WL(ws, d))];
    forall p | p !in dirties[1..] ensures Live(mark, WL(ws', p)) {
      if p == d {
        forall m | 0 <= m < |WL(ws', d)| && WL(ws', d)[m].cref < |mark| ensures !mark[WL(ws', d)[m].cref] {
          var k := LiveOnlyFrom(mark, WL(ws, d), m);
        }
      } else {
        assert p !in dirties;
      }
    }
  }

  /** Everything through trail index `q` is propagated once the list of the literal there is covered. */
  lemma AdvanceInv(t: Trail, ca: seq<Clause>, ws: WatchMap, q: nat)
    requires TrailOk(t) && WatchInv(t, ca, ws, q) && q < |t.lits|
    requires CoverList(t, ca, WL(ws, t.lits[q]), |WL(ws, t.lits[q])|, Lev(t, t.lits[q]))
    ensures WatchInv(t, ca, ws, q + 1)
  {
    forall p | Val(t.assigns, p) == LTrue && Pos(t, p) < q + 1
      ensures CoverList(t, ca, WL(ws, p), |WL(ws, p)|, Lev(t, p))
    {
      if Pos(t, p) == q { AssignedPos(t, p); }
    }
  }

  // ---------- what the invariant gives ----------

  /** Two-watched-literal completeness: with everything propagated, a live clause has a true
      literal, or its two watched literals are not false. */
  lemma PropagationComplete(t: Trail, ca: seq<Clause>, mark: seq<bool>, ws: WatchMap, cr: CRef)
    requires TrailOk(t) && WatchShape(ca, mark, ws) && WatchInv(t, ca, ws, |t.lits|)
    requires cr < |ca| && !mark[cr]
    ensures |ca[cr]| >= 2
    ensures (exists l :: l in ca[cr] && Val(t.assigns, l) == LTrue)
            || (Val(t.assigns, ca[cr][0]) != LFalse && Val(t.assigns, ca[cr][1]) != LFalse)
  {
    hide TrailOk;
    assert Watched(ca, ws, cr);
    if Val(t.assigns, ca[cr][0]) == LFalse { FalseWatch(t, ca, ws, cr, ca[cr][0]); }
    if Val(t.assigns, ca[cr][1]) == LFalse { FalseWatch(t, ca, ws, cr, ca[cr][1]); }
  }

  lemma FalseWatch(t: Trail, ca: seq<Clause>, ws: WatchMap, cr: CRef, x: Lit)
    requires TrailOk(t) && WatchInv(t, ca, ws, |t.lits|) && Val(t.assigns, x) == LFalse
    requires cr < |ca| && Has(WL(ws, x.Not()), cr)
    ensures exists l :: l in ca[cr] && Val(t.assigns, l) == LTrue
  {
    var p := x.Not();
    AssignedPos(t, p);
    var xs := WL(ws, p);
    assert CoverList(t, ca, xs, |xs|, Lev(t, p));
    var m :| 0 <= m < |xs| && xs[m].cref == cr;
    assert CoverAt(t, ca, xs, m, Lev(t, p));
  }
}
