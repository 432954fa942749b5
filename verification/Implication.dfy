/** The implication graph of the conflict level, and unique implication points. */
module Implication {
  import opened Cnf
  import opened Trails
  import opened Watches
  import opened Propagation
  import opened Analysis

  /** Trail index `j` lies at the current decision level. */
  ghost predicate Current(t: Trail, j: nat) { j < |t.lits| && Lev(t, t.lits[j]) == |t.lim| }

  /** The clause is false because of the literal at `j`, among others. */
  ghost predicate Blames(t: Trail, c: Clause, start: nat, j: nat) {
    Current(t, j) && exists k {:trigger c[k]} :: start <= k < |c| && c[k] == t.lits[j].Not()
  }

  /** The literal at `j` was used to propagate the one at `i`. */
  ghost predicate Antecedent(t: Trail, ca: seq<Clause>, i: nat, j: nat) {
    && i < |t.lits| && t.lits[i].v < |t.reason| && t.reason[t.lits[i].v].Some?
    && t.reason[t.lits[i].v].value < |ca| && Blames(t, ca[t.reason[t.lits[i].v].value], 1, j)
  }

  /** A way back from the conflict through the literals of the current level. */
  ghost predicate Walk(t: Trail, ca: seq<Clause>, confl: Clause, xs: seq<nat>) {
    && |xs| > 0 && Blames(t, confl, 0, xs[0])
    && forall k :: 0 <= k < |xs| - 1 ==> Antecedent(t, ca, xs[k], xs[k + 1])
  }

  ghost predicate WalkTo(t: Trail, ca: seq<Clause>, confl: Clause, xs: seq<nat>, i: nat) {
    Walk(t, ca, confl, xs) && xs[|xs| - 1] == i
  }

  /** The trail index of the current decision. */
  ghost function DecisionIndex(t: Trail): nat { if |t.lim| == 0 then 0 else t.lim[|t.lim| - 1] }

  /** Every way back from the conflict to the decision passes `p`. */
  ghost predicate Uip(t: Trail, ca: seq<Clause>, confl: Clause, p: nat) {
    forall xs {:trigger WalkTo(t, ca, confl, xs, DecisionIndex(t))} :: WalkTo(t, ca, confl, xs, DecisionIndex(t)) ==>
      p in xs
  }

  /** The unique implication point nearest to the conflict. */
  ghost predicate FirstUip(t: Trail, ca: seq<Clause>, confl: Clause, p: nat) {
    p < |t.lits| && Uip(t, ca, confl, p) && forall q :: p < q < |t.lits| ==> !Uip(t, ca, confl, q)
  }

  // ---------- ways down to the decision ----------

  lemma AntecedentBefore(t: Trail, ca: seq<Clause>, mark: seq<bool>, i: nat, j: nat)
    requires TrailOk(t) && ReasonOk(t, ca, mark) && Antecedent(t, ca, i, j)
    ensures j < i && Current(t, j)
  {
    assert ReasonAt(t, ca, mark, i) && OnTrail(t, j);
  }

  /** A literal of the current level other than the decision has an antecedent at that level. */
  lemma HasAntecedent(t: Trail, ca: seq<Clause>, mark: seq<bool>, i: nat) returns (j: nat)
    requires TrailOk(t) && ReasonOk(t, ca, mark) && |t.lim| > 0 && Current(t, i) && i != DecisionIndex(t)
    ensures Antecedent(t, ca, i, j) && j < i
  {
    assert ReasonAt(t, ca, mark, i) && OnTrail(t, i);
    var c := ca[t.reason[t.lits[i].v].value];
    var k :| 1 <= k < |c| && Lev(t, c[k]) == Lev(t, c[0]);
    AssignedPos(t, c[k]);
    j := Pos(t, c[k]);
    assert OnTrail(t, j) && t.lits[j] == c[k].Not() && c[k] == t.lits[j].Not();
  }

  ghost predicate Descends(t: Trail, ca: seq<Clause>, xs: seq<nat>, i: nat) {
    && |xs| > 0 && xs[0] == i && xs[|xs| - 1] == DecisionIndex(t)
    && (forall k :: 0 <= k < |xs| - 1 ==> Antecedent(t, ca, xs[k], xs[k + 1]))
    && forall k :: 0 <= k < |xs| ==> xs[k] <= i
  }

  lemma {:induction false} Descend(t: Trail, ca: seq<Clause>, mark: seq<bool>, i: nat) returns (xs: seq<nat>)
    requires TrailOk(t) && ReasonOk(t, ca, mark) && |t.lim| > 0 && Current(t, i)
    ensures Descends(t, ca, xs, i)
    decreases i
  {
    if i == DecisionIndex(t) { xs := [i]; }
    else {
      var j := HasAntecedent(t, ca, mark, i);
      var ys := Descend(t, ca, mark, j);
      xs := [i] + ys;
      forall k | 0 <= k < |xs| - 1 ensures Antecedent(t, ca, xs[k], xs[k + 1]) {
        if k > 0 { assert xs[k] == ys[k - 1] && xs[k + 1] == ys[k]; }
      }
    }
  }

  /** A way back to `i`, continued down to the decision. */
  lemma Continue(t: Trail, ca: seq<Clause>, confl: Clause, xs: seq<nat>, ys: seq<nat>, i: nat) returns (zs: seq<nat>)
    requires WalkTo(t, ca, confl, xs, i) && Descends(t, ca, ys, i)
    ensures WalkTo(t, ca, confl, zs, DecisionIndex(t)) && forall x :: x in zs ==> x in xs || x in ys
  {
    zs := xs + ys[1..];
    forall k | 0 <= k < |zs| - 1 ensures Antecedent(t, ca, zs[k], zs[k + 1]) {
      if k < |xs| - 1 { assert zs[k] == xs[k] && zs[k + 1] == xs[k + 1]; }
      else { assert zs[k] == ys[k - (|xs| - 1)] && zs[k + 1] == ys[k + 1 - (|xs| - 1)]; }
    }
    assert zs[|zs| - 1] == ys[|ys| - 1];
  }

  /** A literal that some way back to an earlier one avoids is no implication point. */
  lemma Avoided(t: Trail, ca: seq<Clause>, mark: seq<bool>, confl: Clause, xs: seq<nat>, i: nat, q: nat)
    requires TrailOk(t) && ReasonOk(t, ca, mark) && |t.lim| > 0 && Current(t, i) && WalkTo(t, ca, confl, xs, i)
    requires q !in xs && i < q
    ensures !Uip(t, ca, confl, q)
  {
    var ys := Descend(t, ca, mark, i);
    var zs := Continue(t, ca, confl, xs, ys, i);
    assert q !in zs;
  }

  // ---------- exploring ----------

  ghost predicate PendAt(t: Trail, pend: set<Var>, k: nat) { k < |t.lits| && t.lits[k].v in pend }

  /** A way back to `i` whose other literals are all explored. */
  ghost predicate Found(t: Trail, ca: seq<Clause>, confl: Clause, done: set<nat>, i: nat) {
    exists xs :: WalkTo(t, ca, confl, xs, i) && forall k :: 0 <= k < |xs| - 1 ==> xs[k] in done
  }

  /** The literals in `done` are explored, those of `pend` are waiting below index `hi`. */
  ghost predicate Explored(t: Trail, ca: seq<Clause>, confl: Clause, done: set<nat>, pend: set<Var>, hi: nat) {
    && (forall i :: i in done ==> hi <= i < |t.lits|)
    && (forall k: nat {:trigger PendAt(t, pend, k)} :: PendAt(t, pend, k) ==> k < hi && Current(t, k))
    && (forall j: nat {:trigger Blames(t, confl, 0, j)} :: Blames(t, confl, 0, j) ==> j in done || PendAt(t, pend, j))
    && (forall i: nat, j: nat {:trigger Antecedent(t, ca, i, j)} :: i in done && Antecedent(t, ca, i, j) ==>
      j in done || PendAt(t, pend, j))
    && (forall k: nat {:trigger PendAt(t, pend, k)} :: PendAt(t, pend, k) ==> Found(t, ca, confl, done, k))
    && (forall q: nat {:trigger Uip(t, ca, confl, q)} :: q in done ==> !Uip(t, ca, confl, q))
  }

  ghost predicate BlamesVar(t: Trail, c: Clause, v: Var) { exists j: nat :: Blames(t, c, 0, j) && t.lits[j].v == v }

  /** At the start the literals that the conflict blames are waiting. */
  lemma ExploreStart(t: Trail, ca: seq<Clause>, confl: Clause, pend: set<Var>)
    requires TrailOk(t) && forall v: Var :: v in pend <==> BlamesVar(t, confl, v)
    ensures Explored(t, ca, confl, {}, pend, |t.lits|)
  {
    forall k: nat | PendAt(t, pend, k) ensures Current(t, k) && Found(t, ca, confl, {}, k) {
      var j: nat :| Blames(t, confl, 0, j) && t.lits[j].v == t.lits[k].v;
      assert OnTrail(t, j) && OnTrail(t, k);
      assert WalkTo(t, ca, confl, [k], k);
    }
  }

  /** Exploring `i` while another literal waits: `i` is no implication point. */
  lemma NotLast(t: Trail, ca: seq<Clause>, mark: seq<bool>, confl: Clause, done: set<nat>, pend: set<Var>, i: nat,
                v: Var)
    requires TrailOk(t) && ReasonOk(t, ca, mark) && |t.lim| > 0 && Explored(t, ca, confl, done, pend, i + 1)
    requires PendAt(t, pend, i) && v in pend && v < |t.assigns| && t.assigns[v] != LUndef && v != t.lits[i].v
    ensures !Uip(t, ca, confl, i)
  {
    var x := t.pos[v];
    assert PendAt(t, pend, x) && x != i && OnTrail(t, i);
    assert Found(t, ca, confl, done, x);
    var xs :| WalkTo(t, ca, confl, xs, x) && forall k :: 0 <= k < |xs| - 1 ==> xs[k] in done;
    forall k | 0 <= k < |xs| ensures xs[k] != i { if k < |xs| - 1 { assert xs[k] in done; } }
    Avoided(t, ca, mark, confl, xs, x, i);
  }

  lemma FoundMore(t: Trail, ca: seq<Clause>, confl: Clause, done: set<nat>, i: nat, j: nat)
    requires Found(t, ca, confl, done, i)
    ensures Found(t, ca, confl, done + {i}, i)
    ensures Antecedent(t, ca, i, j) ==> Found(t, ca, confl, done + {i}, j)
    ensures forall k :: Found(t, ca, confl, done, k) ==> Found(t, ca, confl, done + {i}, k)
  {
    hide Antecedent, Blames;
    var xs :| WalkTo(t, ca, confl, xs, i) && forall k :: 0 <= k < |xs| - 1 ==> xs[k] in done;
    if Antecedent(t, ca, i, j) {
      var ys := xs + [j];
      forall k | 0 <= k < |ys| - 1 ensures Antecedent(t, ca, ys[k], ys[k + 1]) && ys[k] in done + {i} {
        if k < |xs| - 1 { assert ys[k] == xs[k] && ys[k + 1] == xs[k + 1]; }
      }
      assert WalkTo(t, ca, confl, ys, j);
    }
    forall k | Found(t, ca, confl, done, k) ensures Found(t, ca, confl, done + {i}, k) {
      var ws :| WalkTo(t, ca, confl, ws, k) && forall m :: 0 <= m < |ws| - 1 ==> ws[m] in done;
    }
  }

  /** One literal explored: its antecedents wait. */
  lemma ExploreStep(t: Trail, ca: seq<Clause>, mark: seq<bool>, confl: Clause, done: set<nat>, pend: set<Var>, i: nat,
                    pend': set<Var>)
    requires TrailOk(t) && ReasonOk(t, ca, mark) && Explored(t, ca, confl, done, pend, i + 1) && PendAt(t, pend, i)
    requires !Uip(t, ca, confl, i)
    requires forall v :: v in pend && v != t.lits[i].v ==> v in pend'
    requires forall j {:trigger Antecedent(t, ca, i, j)} :: Antecedent(t, ca, i, j) ==> PendAt(t, pend', j)
    requires forall j {:trigger PendAt(t, pend', j)} :: PendAt(t, pend', j) ==>
      (PendAt(t, pend, j) && j != i) || Antecedent(t, ca, i, j)
    ensures Explored(t, ca, confl, done + {i}, pend', i)
  {
    hide Antecedent, Blames, Found, Uip;
    var done' := done + {i};
    assert Found(t, ca, confl, done, i) && OnTrail(t, i);
    forall j: nat | PendAt(t, pend', j) ensures j < i && Current(t, j) && Found(t, ca, confl, done', j) {
      FoundMore(t, ca, confl, done, i, j);
      if Antecedent(t, ca, i, j) { AntecedentBefore(t, ca, mark, i, j); }
      else { assert PendAt(t, pend, j); }
    }
    forall j: nat | PendAt(t, pend, j) ensures j in done' || PendAt(t, pend', j) {
      assert OnTrail(t, i) && OnTrail(t, j);
    }
  }

  /** The last waiting literal is the first unique implication point. */
  lemma ExploreEnd(t: Trail, ca: seq<Clause>, mark: seq<bool>, confl: Clause, done: set<nat>, pend: set<Var>, i: nat)
    requires TrailOk(t) && ReasonOk(t, ca, mark) && |t.lim| > 0 && Explored(t, ca, confl, done, pend, i + 1)
    requires PendAt(t, pend, i) && pend == {t.lits[i].v} && DecisionIndex(t) <= i
    ensures FirstUip(t, ca, confl, i)
  {
    hide Antecedent, Blames;
    forall k: nat | PendAt(t, pend, k) ensures k == i { assert OnTrail(t, k) && OnTrail(t, i); }
    forall xs | WalkTo(t, ca, confl, xs, DecisionIndex(t)) ensures i in xs {
      Passes(t, ca, confl, done, pend, i, xs, |xs| - 1);
    }
    forall q | i < q < |t.lits| ensures !Uip(t, ca, confl, q) {
      if q !in done {
        assert Found(t, ca, confl, done, i) && Current(t, i);
        var xs :| WalkTo(t, ca, confl, xs, i) && forall k :: 0 <= k < |xs| - 1 ==> xs[k] in done;
        forall k | 0 <= k < |xs| ensures xs[k] != q { if k < |xs| - 1 { assert xs[k] in done; } }
        Avoided(t, ca, mark, confl, xs, i, q);
      }
    }
  }

  /** A way back that stays clear of the last waiting literal is explored. */
  lemma {:induction false} Passes(t: Trail, ca: seq<Clause>, confl: Clause, done: set<nat>, pend: set<Var>, i: nat,
                                  xs: seq<nat>, k: nat)
    requires Explored(t, ca, confl, done, pend, i + 1) && Walk(t, ca, confl, xs) && k < |xs|
    requires forall j: nat :: PendAt(t, pend, j) ==> j == i
    ensures i in xs || xs[k] in done
  {
    hide Antecedent, Blames, Found, Uip;
    if k > 0 {
      Passes(t, ca, confl, done, pend, i, xs, k - 1);
      assert Antecedent(t, ca, xs[k - 1], xs[k]);
    }
  }

  // ---------- the marks of conflict analysis ----------

  /** `c` has a literal on `v` from `start` on. */
  ghost predicate Names(c: Clause, start: nat, v: Var) { exists k {:trigger c[k]} :: start <= k < |c| && c[k].v == v }

  /** After marking `c`, what it blames is waiting. */
  lemma BlamedWaits(t: Trail, tail: seq<Lit>, seen: seq<bool>, hi: nat, pend: set<Var>, c: Clause, start: nat, j: nat)
    requires TrailOk(t) && SeenOk(t, tail, seen, hi, pend) && Marked(t, seen, c, start, |c|) && |t.lim| > 0
    requires Blames(t, c, start, j)
    ensures PendAt(t, pend, j)
  {
    assert OnTrail(t, j);
    var k :| start <= k < |c| && c[k] == t.lits[j].Not();
    assert SeenAt(seen, c[k].v);
  }

  lemma NamedBlamed(t: Trail, tail: seq<Lit>, seen: seq<bool>, hi: nat, pend: set<Var>, c: Clause, start: nat, j: nat)
    requires TrailOk(t) && SeenOk(t, tail, seen, hi, pend) && FalseBelow(t, c, start, hi)
    requires PendAt(t, pend, j) && Names(c, start, t.lits[j].v)
    ensures Blames(t, c, start, j)
  {
    var k :| start <= k < |c| && c[k].v == t.lits[j].v;
    assert OnTrail(t, j) && Val(t.assigns, c[k]) == LFalse;
    assert c[k] == t.lits[j].Not();
  }

  lemma ExploreFirst(t: Trail, ca: seq<Clause>, confl: Clause, tail: seq<Lit>, seen: seq<bool>, pend: set<Var>)
    requires TrailOk(t) && SeenOk(t, tail, seen, |t.lits|, pend) && Marked(t, seen, confl, 0, |confl|) && |t.lim| > 0
    requires FalseBelow(t, confl, 0, |t.lits|) && forall v: Var :: v in pend ==> Names(confl, 0, v)
    ensures Explored(t, ca, confl, {}, pend, |t.lits|)
  {
    hide Marked, FalseBelow, Names, Explored;
    forall v: Var ensures v in pend <==> BlamesVar(t, confl, v) {
      if v in pend {
        var j := MarkedAt(t, tail, seen, |t.lits|, pend, v);
        NamedBlamed(t, tail, seen, |t.lits|, pend, confl, 0, j);
      }
      if BlamesVar(t, confl, v) {
        var j: nat :| Blames(t, confl, 0, j) && t.lits[j].v == v;
        BlamedWaits(t, tail, seen, |t.lits|, pend, confl, 0, j);
      }
    }
    ExploreStart(t, ca, confl, pend);
  }

  lemma MarkedAt(t: Trail, tail: seq<Lit>, seen: seq<bool>, hi: nat, pend: set<Var>, v: Var) returns (j: nat)
    requires TrailOk(t) && SeenOk(t, tail, seen, hi, pend) && v in pend
    ensures PendAt(t, pend, j) && t.lits[j].v == v && v < |t.assigns| && t.assigns[v] != LUndef
  {
    assert SeenAt(seen, v) && MarkAt(t, tail, hi, v);
    j := t.pos[v];
  }

  /** Nothing waits between `i` and `hi`. */
  lemma ExploreSkip(t: Trail, ca: seq<Clause>, confl: Clause, done: set<nat>, pend: set<Var>, hi: nat, tail: seq<Lit>,
                    seen: seq<bool>, i: nat)
    requires TrailOk(t) && Explored(t, ca, confl, done, pend, hi) && SeenOk(t, tail, seen, i + 1, pend) && i < hi
    ensures Explored(t, ca, confl, done, pend, i + 1)
  {
    hide Blames, Antecedent, Found, Uip;
    forall k: nat | PendAt(t, pend, k) ensures k < i + 1 {
      assert SeenAt(seen, t.lits[k].v) && MarkAt(t, tail, i + 1, t.lits[k].v) && OnTrail(t, k);
    }
  }

  /** The literal at `i` is resolved on: it is no implication point, and its antecedents wait. */
  lemma ExploreNext(t: Trail, ca: seq<Clause>, mark: seq<bool>, confl: Clause, done: set<nat>, pend: set<Var>, i: nat,
                    tail: seq<Lit>, seen: seq<bool>, pend': set<Var>, c: Clause)
    requires TrailOk(t) && ReasonOk(t, ca, mark) && |t.lim| > 0 && Explored(t, ca, confl, done, pend, i + 1)
      && PendAt(t, pend, i)
    requires exists v: Var :: v in pend && v != t.lits[i].v && v < |t.assigns| && t.assigns[v] != LUndef
    requires SeenOk(t, tail, seen, i, pend') && Marked(t, seen, c, 1, |c|) && FalseBelow(t, c, 1, i)
    requires t.lits[i].v < |t.reason| && t.reason[t.lits[i].v].Some? && t.reason[t.lits[i].v].value < |ca|
      && c == ca[t.reason[t.lits[i].v].value]
    requires pend - {t.lits[i].v} <= pend'
      && forall v: Var :: v in pend' ==> (v in pend && v != t.lits[i].v) || Names(c, 1, v)
    ensures Explored(t, ca, confl, done + {i}, pend', i)
  {
    hide Explored, Marked, FalseBelow, Names, Blames, SeenOk, TrailOk, ReasonOk, Uip;
    var v: Var :| v in pend && v != t.lits[i].v && v < |t.assigns| && t.assigns[v] != LUndef;
    NotLast(t, ca, mark, confl, done, pend, i, v);
    forall j: nat | Antecedent(t, ca, i, j) ensures PendAt(t, pend', j) {
      BlamedWaits(t, tail, seen, i, pend', c, 1, j);
    }
    forall j: nat | PendAt(t, pend', j) ensures (PendAt(t, pend, j) && j != i) || Antecedent(t, ca, i, j) {
      if t.lits[j].v !in pend || t.lits[j].v == t.lits[i].v { NamedBlamed(t, tail, seen, i, pend', c, 1, j); }
    }
    ExploreStep(t, ca, mark, confl, done, pend, i, pend');
  }

  lemma ExploreLast(t: Trail, ca: seq<Clause>, mark: seq<bool>, confl: Clause, done: set<nat>, pend: set<Var>, i: nat)
    requires TrailOk(t) && ReasonOk(t, ca, mark) && |t.lim| > 0 && Explored(t, ca, confl, done, pend, i + 1)
      && PendAt(t, pend, i)
    requires |pend - {t.lits[i].v}| == 0
    ensures FirstUip(t, ca, confl, i)
  {
    hide Uip, Found, Antecedent, Blames, ReasonOk;
    assert pend - {t.lits[i].v} == {};
    assert forall v :: v in pend ==> v == t.lits[i].v;
    assert pend == {t.lits[i].v};
    assert Current(t, i) && OnTrail(t, i);
    ExploreEnd(t, ca, mark, confl, done, pend, i);
  }

  lemma NamesOne(c: Clause, start: nat, j: nat)
    requires start <= j < |c|
    ensures Names(c, start, c[j].v)
  {
  }

  lemma AtIndex(t: Trail, i: nat)
    requires TrailOk(t) && i < |t.lits|
    ensures Pos(t, t.lits[i]) == i
  {
    assert OnTrail(t, i);
  }

  lemma StillWaits(t: Trail, tail: seq<Lit>, seen: seq<bool>, i: nat, pend: set<Var>, v: Var)
    requires TrailOk(t) && SeenOk(t, tail, seen, i + 1, pend) && pend - {v} != {}
    ensures exists x: Var :: x in pend && x != v && x < |t.assigns| && t.assigns[x] != LUndef
  {
    var x :| x in pend - {v};
    assert SeenAt(seen, x) && MarkAt(t, tail, i + 1, x);
  }

  lemma SeenSize(t: Trail, tail: seq<Lit>, seen: seq<bool>, hi: nat, pend: set<Var>)
    requires SeenOk(t, tail, seen, hi, pend)
    ensures |seen| == |t.assigns|
  {
  }

  // ---------- the final conflict ----------

  /** `l` occurs in `c` after the first literal. */
  ghost predicate Mentions(c: Clause, l: Lit) { exists k {:trigger c[k]} :: 1 <= k < |c| && c[k] == l }

  /** The literal at `j` occurs negated in the reason of the one at `i`. */
  ghost predicate UsedFor(t: Trail, ca: seq<Clause>, i: nat, j: nat) {
    && i < |t.lits| && j < |t.lits| && t.lits[i].v < |t.reason| && t.reason[t.lits[i].v].Some?
    && t.reason[t.lits[i].v].value < |ca| && Mentions(ca[t.reason[t.lits[i].v].value], t.lits[j].Not())
  }

  /** A way back from the literal at `i` to that at `j`, from reason to reason. */
  ghost predicate Traces(t: Trail, ca: seq<Clause>, xs: seq<nat>, i: nat, j: nat) {
    && |xs| > 0 && xs[0] == i && xs[|xs| - 1] == j
    && forall k {:trigger xs[k]} :: 0 <= k < |xs| - 1 ==> UsedFor(t, ca, xs[k], xs[k + 1])
  }

  ghost predicate DependsOn(t: Trail, ca: seq<Clause>, i: nat, j: nat) { exists xs :: Traces(t, ca, xs, i, j) }

  /** `l` negates a decision on which the literal `p` of the trail depends. */
  ghost predicate Decides(t: Trail, ca: seq<Clause>, p: Lit, l: Lit, j: nat) {
    && j < |t.lits| && t.lits[j] == l.Not() && l.v < |t.reason| && t.reason[l.v].None? && Lev(t, l) > 0
    && DependsOn(t, ca, Pos(t, p), j)
  }

  ghost predicate NegatesCause(t: Trail, ca: seq<Clause>, p: Lit, l: Lit) { exists j :: Decides(t, ca, p, l, j) }

  /** A true literal, and then only negations of decisions on which it depends. */
  ghost predicate Causes(t: Trail, ca: seq<Clause>, out: seq<Lit>) {
    && |out| > 0 && Val(t.assigns, out[0]) == LTrue
    && forall k {:trigger out[k]} :: 1 <= k < |out| ==> NegatesCause(t, ca, out[0], out[k])
  }

  /** Every marked variable belongs to a literal on which `p` depends. */
  ghost predicate MarksTraced(t: Trail, ca: seq<Clause>, seen: seq<bool>, p: Lit) {
    forall v: Var {:trigger SeenAt(seen, v)} :: SeenAt(seen, v) ==> v < |t.pos| && DependsOn(t, ca, Pos(t, p), t.pos[v])
  }

  lemma TraceStart(t: Trail, ca: seq<Clause>, seen: seq<bool>, p: Lit)
    requires Clear(seen) && p.v < |seen| && p.v < |t.pos|
    ensures MarksTraced(t, ca, seen[p.v := true], p)
  {
    var i := Pos(t, p);
    assert Traces(t, ca, [i], i, i);
    var seen' := seen[p.v := true];
    forall v: Var {:trigger SeenAt(seen', v)} | SeenAt(seen', v) ensures v == p.v {
      assert v == p.v || SeenAt(seen, v);
    }
  }

  lemma TraceUnmark(t: Trail, ca: seq<Clause>, seen: seq<bool>, p: Lit, v: Var)
    requires MarksTraced(t, ca, seen, p) && v < |seen|
    ensures MarksTraced(t, ca, seen[v := false], p)
  {
    hide DependsOn;
    var seen' := seen[v := false];
    forall u: Var | SeenAt(seen', u) ensures u < |t.pos| && DependsOn(t, ca, Pos(t, p), t.pos[u]) {
      assert SeenAt(seen, u);
    }
  }

  lemma TraceNext(t: Trail, ca: seq<Clause>, h: nat, i: nat, j: nat)
    requires DependsOn(t, ca, h, i) && UsedFor(t, ca, i, j)
    ensures DependsOn(t, ca, h, j)
  {
    var xs :| Traces(t, ca, xs, h, i);
    var ys := xs + [j];
    forall k | 0 <= k < |ys| - 1 ensures UsedFor(t, ca, ys[k], ys[k + 1]) {
      if k < |xs| - 1 { assert ys[k] == xs[k] && ys[k + 1] == xs[k + 1]; }
    }
    assert Traces(t, ca, ys, h, j);
  }

  /** Marking a literal of the reason of a literal on which `p` depends. */
  lemma TraceMark(t: Trail, ca: seq<Clause>, seen: seq<bool>, p: Lit, i: nat, k: nat)
    requires TrailOk(t) && MarksTraced(t, ca, seen, p) && DependsOn(t, ca, Pos(t, p), i) && i < |t.lits|
    requires t.lits[i].v < |t.reason| && t.reason[t.lits[i].v].Some? && t.reason[t.lits[i].v].value < |ca|
    requires var c := ca[t.reason[t.lits[i].v].value];
      1 <= k < |c| && Val(t.assigns, c[k]) == LFalse && c[k].v < |seen|
    ensures MarksTraced(t, ca, seen[ca[t.reason[t.lits[i].v].value][k].v := true], p)
  {
    var c := ca[t.reason[t.lits[i].v].value];
    var q := c[k];
    AssignedPos(t, q);
    assert Mentions(c, q) && t.lits[Pos(t, q)].Not() == q;
    TraceNext(t, ca, Pos(t, p), i, Pos(t, q));
    hide DependsOn, UsedFor;
    var seen' := seen[q.v := true];
    forall v: Var | SeenAt(seen', v) ensures v < |t.pos| && DependsOn(t, ca, Pos(t, p), t.pos[v]) {
      if v != q.v { assert SeenAt(seen, v); }
    }
  }

  lemma TracedAt(t: Trail, ca: seq<Clause>, seen: seq<bool>, p: Lit, i: nat)
    requires TrailOk(t) && MarksTraced(t, ca, seen, p) && i < |t.lits| && SeenAt(seen, t.lits[i].v)
    ensures DependsOn(t, ca, Pos(t, p), i)
  {
    hide DependsOn;
    assert OnTrail(t, i);
  }

  /** A marked decision is one on which `p` depends. */
  lemma CauseAdded(t: Trail, ca: seq<Clause>, seen: seq<bool>, p: Lit, i: nat, out: seq<Lit>)
    requires TrailOk(t) && MarksTraced(t, ca, seen, p) && i < |t.lits| && SeenAt(seen, t.lits[i].v)
    requires |t.lim| > 0 && t.lim[0] <= i && t.lits[i].v < |t.reason| && t.reason[t.lits[i].v].None?
    requires Causes(t, ca, out) && out[0] == p
    ensures Causes(t, ca, out + [t.lits[i].Not()])
  {
    TracedAt(t, ca, seen, p, i);
    assert OnTrail(t, i);
    hide DependsOn;
    assert Decides(t, ca, p, t.lits[i].Not(), i);
    hide Decides;
    var out' := out + [t.lits[i].Not()];
    forall k | 1 <= k < |out'| ensures NegatesCause(t, ca, p, out'[k]) {
      if k < |out| { assert out'[k] == out[k]; }
    }
  }

  // ---------- minimisation ----------

  /** An unmarked literal above the root. */
  ghost predicate FreeAt(t: Trail, seen: seq<bool>, i: nat) {
    i < |t.lits| && !SeenAt(seen, t.lits[i].v) && Lev(t, t.lits[i]) > 0
  }

  /** A way back from `i` to `j` that meets only unmarked literals after the first. */
  ghost predicate Avoids(t: Trail, ca: seq<Clause>, seen: seq<bool>, xs: seq<nat>, i: nat, j: nat) {
    Traces(t, ca, xs, i, j) && forall k {:trigger xs[k]} :: 1 <= k < |xs| ==> FreeAt(t, seen, xs[k])
  }

  ghost predicate IsDecision(t: Trail, j: nat) {
    j < |t.lits| && t.lits[j].v < |t.reason| && t.reason[t.lits[j].v].None?
  }

  ghost predicate Reaches(t: Trail, ca: seq<Clause>, seen: seq<bool>, i: nat, j: nat) {
    exists xs :: Avoids(t, ca, seen, xs, i, j)
  }

  /** The literal at `i` depends on a decision in a way that avoids the marked literals. */
  ghost predicate Escapes(t: Trail, ca: seq<Clause>, seen: seq<bool>, i: nat) {
    exists j :: Reaches(t, ca, seen, i, j) && IsDecision(t, j)
  }

  lemma ReachesSelf(t: Trail, ca: seq<Clause>, seen: seq<bool>, i: nat)
    ensures Reaches(t, ca, seen, i, i)
  {
    assert Avoids(t, ca, seen, [i], i, i);
  }

  lemma ReachesNext(t: Trail, ca: seq<Clause>, seen: seq<bool>, h: nat, i: nat, j: nat)
    requires Reaches(t, ca, seen, h, i) && UsedFor(t, ca, i, j) && FreeAt(t, seen, j)
    ensures Reaches(t, ca, seen, h, j)
  {
    var xs :| Avoids(t, ca, seen, xs, h, i);
    var ys := xs + [j];
    forall k | 0 <= k < |ys| - 1 ensures UsedFor(t, ca, ys[k], ys[k + 1]) {
      if k < |xs| - 1 { assert ys[k] == xs[k] && ys[k + 1] == xs[k + 1]; }
    }
    assert Avoids(t, ca, seen, ys, h, j);
  }

  ghost predicate ClosedAt(t: Trail, ca: seq<Clause>, seen: seq<bool>, i: nat) {
    i < |t.lits| && Closed(t, ca, seen, t.lits[i].v)
  }

  /** What is used for a closed literal, above the root, is marked. */
  lemma ClosedNext(t: Trail, ca: seq<Clause>, seen: seq<bool>, i: nat, j: nat)
    requires ClosedAt(t, ca, seen, i) && UsedFor(t, ca, i, j) && Lev(t, t.lits[j]) > 0
    ensures SeenAt(seen, t.lits[j].v)
  {
    assert t.lits[j].Not().v == t.lits[j].v && Lev(t, t.lits[j].Not()) == Lev(t, t.lits[j]);
  }

  /** The marks beyond `seen0` are all closed. */
  ghost predicate NewClosed(t: Trail, ca: seq<Clause>, seen0: seq<bool>, seen: seq<bool>) {
    forall v: Var {:trigger SeenAt(seen0, v)} {:trigger SeenAt(seen, v)} ::
      (SeenAt(seen0, v) ==> SeenAt(seen, v)) && (SeenAt(seen, v) ==> SeenAt(seen0, v) || Closed(t, ca, seen, v))
  }

  lemma NewClosedTrans(t: Trail, ca: seq<Clause>, seen0: seq<bool>, seen1: seq<bool>, seen: seq<bool>)
    requires NewClosed(t, ca, seen0, seen1) && NewClosed(t, ca, seen1, seen)
    ensures NewClosed(t, ca, seen0, seen)
  {
    forall v: Var ensures (SeenAt(seen0, v) ==> SeenAt(seen, v))
      && (SeenAt(seen, v) ==> SeenAt(seen0, v) || Closed(t, ca, seen, v)) {
      assert SeenAt(seen0, v) ==> SeenAt(seen1, v);
      if SeenAt(seen1, v) && !SeenAt(seen0, v) { ClosedGrow(t, ca, seen1, seen, v); }
    }
  }

  /** From a closed literal on, everything unmarked before is closed now, and no decision. */
  lemma {:induction false} ClosedStays(t: Trail, ca: seq<Clause>, seen0: seq<bool>, seen: seq<bool>, xs: seq<nat>,
                                       i: nat, j: nat, k: nat, n: nat)
    requires NewClosed(t, ca, seen0, seen) && Avoids(t, ca, seen0, xs, i, j) && k <= n < |xs|
    requires ClosedAt(t, ca, seen, xs[k])
    ensures ClosedAt(t, ca, seen, xs[n]) && !IsDecision(t, xs[n])
    decreases n
  {
    hide UsedFor, Closed;
    if k < n {
      ClosedStays(t, ca, seen0, seen, xs, i, j, k, n - 1);
      assert UsedFor(t, ca, xs[n - 1], xs[n]) && FreeAt(t, seen0, xs[n]);
      ClosedNext(t, ca, seen, xs[n - 1], xs[n]);
    }
    ClosedIs(t, ca, seen, xs[n]);
  }

  lemma ClosedIs(t: Trail, ca: seq<Clause>, seen: seq<bool>, i: nat)
    requires ClosedAt(t, ca, seen, i)
    ensures !IsDecision(t, i)
  {
  }

  /** A closed literal does not escape the marks made before. */
  lemma NoEscape(t: Trail, ca: seq<Clause>, seen0: seq<bool>, seen: seq<bool>, i: nat)
    requires NewClosed(t, ca, seen0, seen) && ClosedAt(t, ca, seen, i)
    ensures !Escapes(t, ca, seen0, i)
  {
    hide ClosedAt, IsDecision, NewClosed;
    if Escapes(t, ca, seen0, i) {
      var j :| Reaches(t, ca, seen0, i, j) && IsDecision(t, j);
      var xs :| Avoids(t, ca, seen0, xs, i, j);
      ClosedStays(t, ca, seen0, seen, xs, i, j, 0, |xs| - 1);
    }
  }

  /** Closed marks make no difference. */
  lemma EscapesSame(t: Trail, ca: seq<Clause>, seen0: seq<bool>, seen: seq<bool>, i: nat)
    requires NewClosed(t, ca, seen0, seen)
    ensures Escapes(t, ca, seen, i) <==> Escapes(t, ca, seen0, i)
  {
    hide Closed, Traces, IsDecision;
    if Escapes(t, ca, seen, i) {
      var j :| Reaches(t, ca, seen, i, j) && IsDecision(t, j);
      var xs :| Avoids(t, ca, seen, xs, i, j);
      FewerMarks(t, ca, seen0, seen, xs, i, j);
    }
    if Escapes(t, ca, seen0, i) {
      var j :| Reaches(t, ca, seen0, i, j) && IsDecision(t, j);
      var xs :| Avoids(t, ca, seen0, xs, i, j);
      forall k | 1 <= k < |xs| ensures FreeAt(t, seen, xs[k]) {
        assert FreeAt(t, seen0, xs[k]);
        if SeenAt(seen, t.lits[xs[k]].v) { ClosedReach(t, ca, seen0, seen, xs, i, j, k); }
      }
      assert Avoids(t, ca, seen, xs, i, j);
    }
  }

  lemma ClosedReach(t: Trail, ca: seq<Clause>, seen0: seq<bool>, seen: seq<bool>, xs: seq<nat>, i: nat, j: nat, k: nat)
    requires NewClosed(t, ca, seen0, seen) && Avoids(t, ca, seen0, xs, i, j) && IsDecision(t, j)
    requires 0 <= k < |xs|
    ensures !ClosedAt(t, ca, seen, xs[k])
  {
    hide ClosedAt, IsDecision, NewClosed, Avoids;
    AvoidsEnd(t, ca, seen0, xs, i, j);
    if ClosedAt(t, ca, seen, xs[k]) { ClosedStays(t, ca, seen0, seen, xs, i, j, k, |xs| - 1); }
  }

  lemma AvoidsEnd(t: Trail, ca: seq<Clause>, seen: seq<bool>, xs: seq<nat>, i: nat, j: nat)
    requires Avoids(t, ca, seen, xs, i, j)
    ensures |xs| > 0 && xs[|xs| - 1] == j
  {
  }

  /** With fewer marks more escapes. */
  lemma FewerMarks(t: Trail, ca: seq<Clause>, seen0: seq<bool>, seen: seq<bool>, xs: seq<nat>, i: nat, j: nat)
    requires Avoids(t, ca, seen, xs, i, j) && forall v: Var :: SeenAt(seen0, v) ==> SeenAt(seen, v)
    ensures Avoids(t, ca, seen0, xs, i, j)
  {
    hide Traces;
    forall k | 1 <= k < |xs| ensures FreeAt(t, seen0, xs[k]) { assert FreeAt(t, seen, xs[k]); }
  }

  /** Some other literal of the same level is used for a literal that is no decision. */
  lemma SameLevelUsed(t: Trail, ca: seq<Clause>, mark: seq<bool>, i: nat) returns (j: nat)
    requires TrailOk(t) && ReasonOk(t, ca, mark) && i < |t.lits| && Lev(t, t.lits[i]) > 0 && !IsDecision(t, i)
    ensures UsedFor(t, ca, i, j) && j < i && Lev(t, t.lits[j]) == Lev(t, t.lits[i])
  {
    assert ReasonAt(t, ca, mark, i) && OnTrail(t, i);
    var c := ca[t.reason[t.lits[i].v].value];
    var k :| 1 <= k < |c| && Lev(t, c[k]) == Lev(t, c[0]);
    AssignedPos(t, c[k]);
    j := Pos(t, c[k]);
    assert t.lits[j] == c[k].Not() && c[k] == t.lits[j].Not();
  }

  /** If no literal of its level is marked, a literal that is reached leads on to its decision. */
  lemma {:induction false} LevelEscapes(t: Trail, ca: seq<Clause>, mark: seq<bool>, seen: seq<bool>, h: nat, i: nat)
    requires TrailOk(t) && ReasonOk(t, ca, mark) && Reaches(t, ca, seen, h, i)
    requires i < |t.lits| && Lev(t, t.lits[i]) > 0
    requires forall v: Var :: SeenAt(seen, v) && v < |t.level| ==> t.level[v] != Lev(t, t.lits[i])
    ensures Escapes(t, ca, seen, h)
    decreases i
  {
    hide Reaches, UsedFor;
    if !IsDecision(t, i) {
      var j := SameLevelUsed(t, ca, mark, i);
      assert OnTrail(t, j);
      ReachesNext(t, ca, seen, h, i, j);
      LevelEscapes(t, ca, mark, seen, h, j);
    }
  }

  /** The false literal `r` of the reason of `q` is used for the latter. */
  lemma UsedInReason(t: Trail, ca: seq<Clause>, mark: seq<bool>, q: Lit, k: nat)
    requires TrailOk(t) && ReasonOk(t, ca, mark) && OpenAt(t, q) && t.reason[q.v].value < |ca|
    requires 1 <= k < |ca[t.reason[q.v].value]| && Val(t.assigns, ca[t.reason[q.v].value][k]) == LFalse
    ensures var r := ca[t.reason[q.v].value][k];
      && UsedFor(t, ca, Pos(t, q), Pos(t, r)) && Pos(t, r) < |t.lits| && t.lits[Pos(t, r)] == r.Not()
      && Lev(t, t.lits[Pos(t, r)]) == Lev(t, r)
  {
    var r := ca[t.reason[q.v].value][k];
    AssignedPos(t, q);
    AssignedPos(t, r);
    assert r.Not().Not() == r;
  }

  /** Whether the minimisation drops the literal: never, if its reason is covered by the marks, or if it
      depends on no decision except through marked literals. */
  ghost predicate Droppable(mode: int, t: Trail, ca: seq<Clause>, seen: seq<bool>, x: Lit) {
    if mode == 2 then !Escapes(t, ca, seen, Pos(t, x)) else mode == 1 && Closed(t, ca, seen, x.v)
  }

  ghost predicate OnlyMarks(seen: seq<bool>, ls: seq<Lit>) {
    forall v: Var {:trigger SeenAt(seen, v)} :: SeenAt(seen, v) <==> exists l :: l in ls && l.v == v
  }

  /** No literal after the first can be dropped because of the others. */
  ghost predicate Irreducible(mode: int, t: Trail, ca: seq<Clause>, learnt: Clause) {
    |learnt| > 0 && forall seen, l {:trigger OnlyMarks(seen, learnt[1..]), l in learnt[1..]} ::
      OnlyMarks(seen, learnt[1..]) && l in learnt[1..] ==> !Droppable(mode, t, ca, seen, l)
  }

  /** What could not be dropped before cannot be dropped with fewer marks. */
  lemma StillNeeded(mode: int, t: Trail, ca: seq<Clause>, seen0: seq<bool>, seen: seq<bool>, x: Lit)
    requires !Droppable(mode, t, ca, seen0, x) && forall v: Var :: SeenAt(seen, v) ==> SeenAt(seen0, v)
    ensures !Droppable(mode, t, ca, seen, x)
  {
    hide Traces, IsDecision;
    if mode == 2 {
      var i := Pos(t, x);
      var j :| Reaches(t, ca, seen0, i, j) && IsDecision(t, j);
      var xs :| Avoids(t, ca, seen0, xs, i, j);
      FewerMarks(t, ca, seen, seen0, xs, i, j);
    } else if mode == 1 && Closed(t, ca, seen, x.v) {
      ClosedGrow(t, ca, seen, seen0, x.v);
    }
  }

  lemma DroppableSame(mode: int, t: Trail, ca: seq<Clause>, seen0: seq<bool>, seen: seq<bool>, x: Lit)
    requires NewClosed(t, ca, seen0, seen) && (mode != 2 ==> seen == seen0)
    ensures Droppable(mode, t, ca, seen, x) <==> Droppable(mode, t, ca, seen0, x)
  {
    hide Escapes, NewClosed;
    if mode == 2 { EscapesSame(t, ca, seen0, seen, Pos(t, x)); }
  }

  /** A literal without a reason is needed in the deep mode. */
  lemma DecisionEscapes(t: Trail, ca: seq<Clause>, seen: seq<bool>, x: Lit)
    requires TrailOk(t) && Val(t.assigns, x) == LFalse && x.v < |t.reason| && t.reason[x.v].None?
    ensures Escapes(t, ca, seen, Pos(t, x))
  {
    AssignedPos(t, x);
    ReachesSelf(t, ca, seen, Pos(t, x));
  }

  // ---------- the deep check ----------

  /** One bit per decision level, hashed to 32 bits. */
  function LevelBit(lv: nat): bv32 { (1 as bv32) << (lv % 32) }

  function Join(a: bv32, b: bv32): bv32 { a | b }

  predicate Meets(a: bv32, b: bv32) { a & b != 0 }

  predicate HasLevel(abs: bv32, lv: nat) { Meets(LevelBit(lv), abs) }

  /** Every marked variable has its level in the set `abs`. */
  ghost predicate LevelsIn(t: Trail, seen: seq<bool>, abs: bv32) {
    forall v: Var {:trigger SeenAt(seen, v)} :: SeenAt(seen, v) ==> v < |t.level| && HasLevel(abs, t.level[v])
  }

  lemma LevelsMark(t: Trail, seen: seq<bool>, abs: bv32, v: Var)
    requires LevelsIn(t, seen, abs) && v < |seen| && v < |t.level| && HasLevel(abs, t.level[v])
    ensures LevelsIn(t, seen[v := true], abs)
  {
    hide HasLevel;
    var seen' := seen[v := true];
    forall u: Var | SeenAt(seen', u) ensures u < |t.level| && HasLevel(abs, t.level[u]) {
      if u != v { assert SeenAt(seen, u); }
    }
  }

  ghost predicate ReachesAll(t: Trail, ca: seq<Clause>, seen: seq<bool>, h: nat, ls: seq<Lit>) {
    forall l :: l in ls ==> Reaches(t, ca, seen, h, Pos(t, l))
  }

  lemma ReachesOne(t: Trail, ca: seq<Clause>, seen: seq<bool>, p: Lit)
    ensures ReachesAll(t, ca, seen, Pos(t, p), [p])
  {
    ReachesSelf(t, ca, seen, Pos(t, p));
  }

  lemma ReachesPush(t: Trail, ca: seq<Clause>, seen: seq<bool>, h: nat, ls: seq<Lit>, l: Lit)
    ensures ReachesAll(t, ca, seen, h, ls) && Reaches(t, ca, seen, h, Pos(t, l)) <==>
      ReachesAll(t, ca, seen, h, ls + [l])
  {
    hide Reaches;
    if ReachesAll(t, ca, seen, h, ls + [l]) {
      forall k | k in ls ensures Reaches(t, ca, seen, h, Pos(t, k)) { assert k in ls + [l]; }
      assert l in ls + [l];
    }
  }

  /** An unmarked literal above the root, in the reason of one that is reached, is reached. */
  lemma ReachesReason(t: Trail, ca: seq<Clause>, mark: seq<bool>, seen: seq<bool>, h: nat, q: Lit, k: nat)
    requires TrailOk(t) && ReasonOk(t, ca, mark) && OpenAt(t, q) && t.reason[q.v].value < |ca|
    requires 1 <= k < |ca[t.reason[q.v].value]| && Val(t.assigns, ca[t.reason[q.v].value][k]) == LFalse
    requires var r := ca[t.reason[q.v].value][k]; Lev(t, r) > 0 && !SeenAt(seen, r.v)
    requires Reaches(t, ca, seen, h, Pos(t, q))
    ensures Reaches(t, ca, seen, h, Pos(t, ca[t.reason[q.v].value][k]))
  {
    hide Reaches, UsedFor;
    UsedInReason(t, ca, mark, q, k);
    ReachesNext(t, ca, seen, h, Pos(t, q), Pos(t, ca[t.reason[q.v].value][k]));
  }

  /** Giving up is right: a literal without a reason, or one whose level is not that of any marked
      literal, leads to a decision. */
  lemma GivesUp(t: Trail, ca: seq<Clause>, mark: seq<bool>, seen: seq<bool>, abs: bv32, h: nat, r: Lit)
    requires TrailOk(t) && ReasonOk(t, ca, mark) && LevelsIn(t, seen, abs) && Val(t.assigns, r) == LFalse
    requires Lev(t, r) > 0 && Reaches(t, ca, seen, h, Pos(t, r)) && r.v < |t.reason| && r.v < |t.level|
    requires t.reason[r.v].None? || !HasLevel(abs, t.level[r.v])
    ensures Escapes(t, ca, seen, h)
  {
    hide Reaches;
    AssignedPos(t, r);
    if t.reason[r.v].Some? { LevelEscapes(t, ca, mark, seen, h, Pos(t, r)); }
  }

  lemma RedOld(t: Trail, ca: seq<Clause>, seen0: seq<bool>, seen: seq<bool>, open: set<Lit>, marks: seq<Lit>, v: Var)
    requires RedOk(t, ca, seen0, seen, open, marks) && !SeenAt(seen, v)
    ensures !SeenAt(seen0, v)
  {
  }

  /** A finished check has closed its marks and the literal itself. */
  lemma CheckEnds(t: Trail, ca: seq<Clause>, seen0: seq<bool>, seen: seq<bool>, marks: seq<Lit>, p: Lit)
    requires TrailOk(t) && RedOk(t, ca, seen0, seen, {}, marks) && Closed(t, ca, seen, p.v) && OpenAt(t, p)
    ensures NewClosed(t, ca, seen0, seen) && !Escapes(t, ca, seen0, Pos(t, p))
  {
    AssignedPos(t, p);
    forall v: Var | SeenAt(seen, v) && !SeenAt(seen0, v) ensures Closed(t, ca, seen, v) {
      assert NewAt(t, ca, seen, {}, marks, v);
    }
    NoEscape(t, ca, seen0, seen, Pos(t, p));
  }

  /** Adding a level keeps the others. */
  lemma LevelAdded(abs: bv32, lv: nat)
    ensures HasLevel(Join(abs, LevelBit(lv)), lv)
    ensures forall k :: HasLevel(abs, k) ==> HasLevel(Join(abs, LevelBit(lv)), k)
  {
    hide LevelBit, Meets, Join;
    BitMeets(abs, lv);
    forall k: nat | HasLevel(abs, k) ensures HasLevel(Join(abs, LevelBit(lv)), k) {
      JoinMeets(LevelBit(k), abs, LevelBit(lv));
    }
  }

  lemma JoinMeets(x: bv32, a: bv32, b: bv32)
    ensures Meets(x, a) ==> Meets(x, Join(a, b))
  {
  }

  lemma BitMeets(abs: bv32, lv: nat)
    ensures Meets(LevelBit(lv), Join(abs, LevelBit(lv)))
  {
    BitNotZero(lv % 32);
    SelfMeets(abs, LevelBit(lv));
  }

  lemma SelfMeets(a: bv32, x: bv32)
    ensures x != 0 ==> Meets(x, Join(a, x))
  {
  }

  lemma BitNotZero(k: nat)
    requires k < 32
    ensures (1 as bv32) << k != 0
  {
    var m := k as bv6;
    assert (1 as bv32) << m != 0;
  }

  lemma LevelsStart(t: Trail, seen: seq<bool>, tail: seq<Lit>, abs: bv32)
    requires ToClear(seen, tail) && forall l :: l in tail ==> l.v < |t.level| && HasLevel(abs, t.level[l.v])
    ensures LevelsIn(t, seen, abs)
  {
    hide HasLevel;
  }

  lemma KeptMore(tail: seq<Lit>, i: nat, keep: seq<Lit>, drop: bool)
    requires DistinctVars(tail) && i < |tail| && SubLits(keep, tail[..i])
    ensures var keep' := if drop then keep else keep + [tail[i]];
      && SubLits(keep', tail[..i + 1]) && (tail[i] in keep' <==> !drop)
      && forall l :: l in tail[..i] ==> (l in keep' <==> l in keep)
    ensures forall l :: l in tail[..i + 1] <==> l in tail[..i] || l == tail[i]
  {
    assert tail[..i + 1] == tail[..i] + [tail[i]];
    forall l | l in tail[..i] ensures l != tail[i] { var k :| 0 <= k < i && tail[k] == l; }
  }

  lemma NewClosedNone(t: Trail, ca: seq<Clause>, seen: seq<bool>)
    ensures NewClosed(t, ca, seen, seen)
  {
    hide Closed;
  }

  lemma NewClosedGrows(t: Trail, ca: seq<Clause>, seen0: seq<bool>, seen: seq<bool>)
    requires NewClosed(t, ca, seen0, seen)
    ensures forall v: Var :: SeenAt(seen0, v) ==> SeenAt(seen, v)
  {
    hide Closed;
  }

  /** After the minimisation nothing can be dropped because of what is left. */
  lemma MinimalLearnt(mode: int, t: Trail, ca: seq<Clause>, seen: seq<bool>, tail: seq<Lit>, keep: seq<Lit>,
                      learnt: Clause)
    requires SubLits(keep, tail) && (forall l :: l in tail ==> SeenAt(seen, l.v)) && |learnt| > 0
    requires forall l :: l in tail ==> (l in keep <==> !Droppable(mode, t, ca, seen, l))
    requires forall l :: l in learnt[1..] <==> l in keep
    ensures Irreducible(mode, t, ca, learnt)
  {
    hide Droppable;
    forall marks, l | OnlyMarks(marks, learnt[1..]) && l in learnt[1..] ensures !Droppable(mode, t, ca, marks, l) {
      StillNeeded(mode, t, ca, seen, marks, l);
    }
  }
}
