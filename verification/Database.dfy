/** The clause database as a whole: what is complete with respect to the added clauses, and how
    adding, learning, deleting and backjumping keep the solver's state consistent. */
module Database {
  import opened Cnf
  import opened Trails
  import opened Watches
  import opened Propagation
  import opened Analysis

  ghost predicate RootTrue(a: Valuation, t: Trail) {
    forall i {:trigger t.lits[i]} :: 0 <= i < RootEnd(t) && i < |t.lits| ==> True(a, t.lits[i])
  }

  /** `a` satisfies the live problem clauses and the root-level literals. */
  ghost predicate BaseModel(a: Valuation, t: Trail, ca: seq<Clause>, clauses: seq<CRef>) {
    && (forall cr {:trigger cr in clauses} :: cr in clauses ==> cr < |ca| && Sat(a, ca[cr]))
    && RootTrue(a, t)
  }

  ghost predicate OccursIn(f: set<Clause>, v: Var) { exists c, l :: c in f && l in c && l.v == v }

  ghost predicate ClauseOccurs(f: set<Clause>, c: Clause) { forall l :: l in c ==> OccursIn(f, l.v) }

  /** The problem clauses use no other variables than the added clauses. */
  ghost predicate Occurring(f: set<Clause>, ca: seq<Clause>, clauses: seq<CRef>) {
    forall cr {:trigger cr in clauses} :: cr in clauses && cr < |ca| ==> ClauseOccurs(f, ca[cr])
  }

  /** Nothing was lost: the live problem clauses and the root literals imply every added clause. */
  ghost predicate Complete(f: set<Clause>, t: Trail, ca: seq<Clause>, clauses: seq<CRef>) {
    && (forall a {:trigger BaseModel(a, t, ca, clauses)} :: BaseModel(a, t, ca, clauses) ==> Models(a, f))
    && Occurring(f, ca, clauses)
  }

  ghost predicate AllFresh(mark: seq<bool>, cs: seq<CRef>) {
    forall i {:trigger cs[i]} :: 0 <= i < |cs| ==> cs[i] < |mark| && !mark[cs[i]]
  }

  ghost predicate NoDup(cs: seq<CRef>) { forall i, j :: 0 <= i < j < |cs| ==> cs[i] != cs[j] }

  /** The two clause lists hold live clauses, each once. */
  ghost predicate ListsOk(mark: seq<bool>, clauses: seq<CRef>, learnts: seq<CRef>) {
    AllFresh(mark, clauses + learnts) && NoDup(clauses + learnts)
  }

  // ---------- completeness ----------

  lemma CompleteReorder(f: set<Clause>, t: Trail, ca: seq<Clause>, ca': seq<Clause>, clauses: seq<CRef>)
    requires Complete(f, t, ca, clauses) && SameSets(ca, ca')
    ensures Complete(f, t, ca', clauses)
  {
    hide OccursIn;
    forall cr | cr in clauses && cr < |ca'| ensures ClauseOccurs(f, ca'[cr]) {
      assert SameLits(ca[cr], ca'[cr]) && ClauseOccurs(f, ca[cr]);
    }
    forall a | BaseModel(a, t, ca', clauses) ensures Models(a, f) {
      forall cr | cr in clauses ensures cr < |ca| && Sat(a, ca[cr]) {
        assert SameLits(ca[cr], ca'[cr]);
        var l :| l in ca'[cr] && True(a, l);
        assert l in ca[cr];
      }
      assert BaseModel(a, t, ca, clauses);
    }
  }

  /** More root literals, more clauses in memory: a stronger base. */
  lemma CompleteGrow(f: set<Clause>, t: Trail, u: Trail, ca: seq<Clause>, ca': seq<Clause>, clauses: seq<CRef>)
    requires Complete(f, t, ca, clauses) && ca <= ca' && RootEnd(t) <= RootEnd(u) && RootEnd(t) <= |t.lits|
      && RootEnd(u) <= |u.lits|
    requires forall i :: 0 <= i < RootEnd(t) ==> u.lits[i] == t.lits[i]
    requires forall cr :: cr in clauses ==> cr < |ca|
    ensures Complete(f, u, ca', clauses)
  {
    hide ClauseOccurs;
    forall a | BaseModel(a, u, ca', clauses) ensures Models(a, f) {
      forall i | 0 <= i < RootEnd(t) ensures True(a, t.lits[i]) { assert u.lits[i] == t.lits[i]; }
      assert BaseModel(a, t, ca, clauses);
    }
  }

  lemma OccursGrow(f: set<Clause>, ps: Clause, c: Clause)
    ensures ClauseOccurs(f, c) ==> ClauseOccurs(f + {ps}, c)
    ensures SubLits(c, ps) ==> ClauseOccurs(f + {ps}, c)
  {
    if ClauseOccurs(f, c) {
      forall l | l in c ensures OccursIn(f + {ps}, l.v) {
        var d, k :| d in f && k in d && k.v == l.v;
        assert d in f + {ps};
      }
    }
    if SubLits(c, ps) {
      forall l | l in c ensures OccursIn(f + {ps}, l.v) { assert ps in f + {ps} && l in ps; }
    }
  }

  lemma OccurringGrow(f: set<Clause>, ps: Clause, ca: seq<Clause>, clauses: seq<CRef>)
    requires Occurring(f, ca, clauses)
    ensures Occurring(f + {ps}, ca, clauses)
  {
    hide ClauseOccurs;
    forall cr | cr in clauses && cr < |ca| ensures ClauseOccurs(f + {ps}, ca[cr]) { OccursGrow(f, ps, ca[cr]); }
  }

  /** Adding a clause whose false-at-root literals were dropped. */
  lemma CompleteAdd(f: set<Clause>, t: Trail, ca: seq<Clause>, clauses: seq<CRef>, ps: Clause, c: Clause)
    requires Complete(f, t, ca, clauses) && SubLits(c, ps) && forall cr :: cr in clauses ==> cr < |ca|
    ensures Complete(f + {ps}, t, ca + [c], clauses + [|ca|])
  {
    hide ClauseOccurs;
    var clauses' := clauses + [|ca|];
    OccursGrow(f, ps, c);
    OccurringGrow(f, ps, ca, clauses);
    forall cr | cr in clauses' && cr < |ca| + 1 ensures ClauseOccurs(f + {ps}, (ca + [c])[cr]) {
      if cr < |ca| { assert cr in clauses; }
    }
    forall a | BaseModel(a, t, ca + [c], clauses') ensures Models(a, f + {ps}) {
      forall cr | cr in clauses ensures cr < |ca| && Sat(a, ca[cr]) { assert cr in clauses'; }
      assert BaseModel(a, t, ca, clauses);
      assert |ca| in clauses' && Sat(a, c);
      var l :| l in c && True(a, l);
      assert l in ps;
    }
  }

  /** A clause that is already satisfied by the base needs no copy. */
  lemma CompleteSatisfied(f: set<Clause>, t: Trail, ca: seq<Clause>, clauses: seq<CRef>, ps: Clause)
    requires Complete(f, t, ca, clauses)
    requires forall a {:trigger RootTrue(a, t)} :: RootTrue(a, t) ==> Sat(a, ps)
    ensures Complete(f + {ps}, t, ca, clauses)
  {
    hide ClauseOccurs;
    OccurringGrow(f, ps, ca, clauses);
    forall a | BaseModel(a, t, ca, clauses) ensures Models(a, f + {ps}) {
      assert RootTrue(a, t);
    }
  }

  lemma RootTrueSat(t: Trail, l: Lit, a: Valuation)
    requires TrailOk(t) && Val(t.assigns, l) == LTrue && Lev(t, l) == 0 && RootTrue(a, t)
    ensures True(a, l)
  {
    AssignedPos(t, l);
  }

  /** Deleting a problem clause that a root literal satisfies. */
  lemma CompleteDrop(f: set<Clause>, t: Trail, ca: seq<Clause>, pre: seq<CRef>, cr: CRef, post: seq<CRef>)
    requires Complete(f, t, ca, pre + [cr] + post) && TrailOk(t) && |t.lim| == 0 && cr < |ca|
    requires exists l :: l in ca[cr] && Val(t.assigns, l) == LTrue
    ensures Complete(f, t, ca, pre + post)
  {
    hide ClauseOccurs;
    var l :| l in ca[cr] && Val(t.assigns, l) == LTrue;
    AssignedPos(t, l);
    forall k | k in pre + post && k < |ca| ensures ClauseOccurs(f, ca[k]) { assert k in pre + [cr] + post; }
    forall a | BaseModel(a, t, ca, pre + post) ensures Models(a, f) {
      RootTrueSat(t, l, a);
      forall k | k in pre + [cr] + post ensures k < |ca| && Sat(a, ca[k]) {
        if k != cr { assert k in pre + post; }
      }
      assert BaseModel(a, t, ca, pre + [cr] + post);
    }
  }

  // ---------- results ----------

  /** A clause false at the root refutes the formula. */
  lemma RootConflict(f: set<Clause>, t: Trail, c: Clause)
    requires TrailOk(t) && Units(f, t) && Implied(f, c) && |t.lim| == 0
    requires forall k :: 0 <= k < |c| ==> Val(t.assigns, c[k]) == LFalse
    ensures Unsat(f)
  {
    forall a ensures !Models(a, f) {
      if Models(a, f) {
        assert Sat(a, c);
        var l :| l in c && True(a, l);
        AssignedPos(t, l);
        RootFalse(f, t, l, a);
      }
    }
  }

  /** `a` gives every assigned variable its value. */
  ghost predicate Agrees(a: Valuation, assigns: seq<LBool>) {
    forall v :: 0 <= v < |assigns| ==> (assigns[v] == LTrue ==> v in a) && (assigns[v] == LFalse ==> v !in a)
  }

  lemma AgreesTrue(a: Valuation, assigns: seq<LBool>, l: Lit)
    requires Agrees(a, assigns) && Val(assigns, l) == LTrue
    ensures True(a, l)
  {
  }

  /** A fully propagated assignment of all variables of the added clauses satisfies every added clause. */
  lemma ModelFound(f: set<Clause>, t: Trail, ca: seq<Clause>, mark: seq<bool>, ws: WatchMap, clauses: seq<CRef>,
                   learnts: seq<CRef>, a: Valuation)
    requires TrailOk(t) && DbOk(ca, |t.assigns|) && WatchShape(ca, mark, ws) && WatchInv(t, ca, ws, |t.lits|)
    requires ListsOk(mark, clauses, learnts) && Complete(f, t, ca, clauses)
    requires (forall v {:trigger OccursIn(f, v)} :: 0 <= v < |t.assigns| && OccursIn(f, v) ==> t.assigns[v] != LUndef)
    requires Agrees(a, t.assigns)
    ensures Models(a, f)
  {
    hide WatchShape, WatchInv, OccursIn;
    assert |mark| == |ca| by { MarkSize(ca, mark, ws); }
    forall cr | cr in clauses ensures cr < |ca| && Sat(a, ca[cr]) {
      var i :| 0 <= i < |clauses| && clauses[i] == cr;
      assert (clauses + learnts)[i] == cr;
      PropagationComplete(t, ca, mark, ws, cr);
      assert ClauseOk(ca[cr], |t.assigns|) && ClauseOccurs(f, ca[cr]);
      assert ca[cr][0] in ca[cr] && OccursIn(f, ca[cr][0].v);
      var l :| l in ca[cr] && Val(t.assigns, l) == LTrue;
      AgreesTrue(a, t.assigns, l);
    }
    forall i | 0 <= i < RootEnd(t) && i < |t.lits| ensures True(a, t.lits[i]) {
      assert OnTrail(t, i);
      AgreesTrue(a, t.assigns, t.lits[i]);
    }
    assert BaseModel(a, t, ca, clauses);
  }

  // ---------- backjumping and learning ----------

  lemma CutIdle(f: set<Clause>, t: Trail, u: Trail, lv: nat, ca: seq<Clause>, mark: seq<bool>, ws: WatchMap,
                dirties: seq<Lit>, q: nat)
    requires IdleOk(f, t, ca, mark, ws, dirties, q) && CutTo(t, u, lv) && t.lim[lv] <= q
    ensures IdleOk(f, u, ca, mark, ws, dirties, |u.lits|)
  {
    hide TrailOk, ReasonOk, DbOk, WatchShape, DirtyOk, WatchInv, Sound, Units;
    CutTrail(t, u, lv);
    CutReason(t, u, lv, ca, mark);
    CutUnits(f, t, u, lv);
    WatchCut(t, u, lv, ca, ws, q);
  }

  lemma RootEndBound(t: Trail)
    requires TrailOk(t)
    ensures RootEnd(t) <= |t.lits|
  {
  }

  lemma IdleWeaken(f: set<Clause>, t: Trail, ca: seq<Clause>, mark: seq<bool>, ws: WatchMap, dirties: seq<Lit>, q: nat,
                   q': nat)
    requires IdleOk(f, t, ca, mark, ws, dirties, q) && q' <= q
    ensures IdleOk(f, t, ca, mark, ws, dirties, q')
  {
    hide TrailOk, ReasonOk, DbOk, WatchShape, DirtyOk, Sound, Units, CoverList;
    assert WatchInv(t, ca, ws, q');
  }

  /** After the jump the learnt clause is unit. */
  lemma LearntUnit(f: set<Clause>, t: Trail, u: Trail, learnt: Clause, bt: nat)
    requires TrailOk(t) && LearntOk(f, t, learnt, bt) && CutTo(t, u, bt)
    ensures Val(u.assigns, learnt[0]) == LUndef && learnt[0].v < |u.assigns|
    ensures forall k :: 1 <= k < |learnt| ==> Val(u.assigns, learnt[k]) == LFalse
    ensures |learnt| > 1 ==> ClauseOk(learnt, |u.assigns|) && Lev(u, learnt[1]) == bt
  {
    forall k | 0 <= k < |learnt|
      ensures learnt[k].v < |u.assigns| && (k == 0 ==> Val(u.assigns, learnt[0]) == LUndef)
        && (k > 0 ==> Val(u.assigns, learnt[k]) == LFalse)
    {
      CutValues(t, u, bt, learnt[k]);
    }
  }

  /** Attaching a unit clause and enqueueing its first literal. */
  lemma LearnStep(f: set<Clause>, t: Trail, ca: seq<Clause>, mark: seq<bool>, ws: WatchMap, dirties: seq<Lit>,
                  c: Clause)
    requires IdleOk(f, t, ca, mark, ws, dirties, |t.lits|) && Implied(f, c) && ClauseOk(c, |t.assigns|)
    requires Val(t.assigns, c[0]) == LUndef && c[0].v < |t.assigns| && Shape(t)
    requires forall k :: 1 <= k < |c| ==> Val(t.assigns, c[k]) == LFalse
    requires Lev(t, c[1]) == |t.lim|
    ensures IdleOk(f, Enqueued(t, c[0], Some(|ca|)), ca + [c], mark + [false], Attached(ws, |ca|, c), dirties, |t.lits|)
  {
    hide TrailOk, ReasonOk, DbOk, WatchShape, DirtyOk, WatchInv, Sound, Units, Attached;
    var p, from := c[0], Some(|ca|);
    var u := Enqueued(t, p, from);
    MarkSize(ca, mark, ws);
    assert c[0] != c[1];
    EnqueueTrail(t, p, from);
    MoreReason(t, ca, mark, c);
    EnqueueReason(t, p, from, ca + [c], mark + [false]);
    WatchEnqueue(t, p, from, ca, ws, |t.lits|);
    AttachShape(ca, mark, ws, c, |t.assigns|);
    assert Covered(u, c, |t.lim|) by { assert c[0] in c && Val(u.assigns, c[0]) == LTrue; }
    assert Lev(u, c[1]) == |t.lim|;
    AttachInv(u, ca, ws, c, |t.lits|);
    AttachDirty(ca, mark, ws, dirties, c);
    MoreSound(f, ca, c, |t.assigns|);
    if |t.lim| == 0 {
      forall k | 1 <= k < |c| ensures Lev(t, c[k]) == 0 { FalseLevel(t, c[k]); }
      RootUnit(f, t, c);
    }
    EnqueueUnits(f, t, p, from);
    EnqueueSizes(t, p, from);
  }

  lemma FalseLevel(t: Trail, l: Lit)
    requires TrailOk(t) && |t.lim| == 0 && Val(t.assigns, l) == LFalse
    ensures Lev(t, l) == 0
  {
    AssignedPos(t, l);
  }

  lemma MoreReason(t: Trail, ca: seq<Clause>, mark: seq<bool>, c: Clause)
    requires ReasonOk(t, ca, mark)
    ensures ReasonOk(t, ca + [c], mark + [false])
  {
    forall i | 0 <= i < |t.lits| ensures ReasonAt(t, ca + [c], mark + [false], i) { assert ReasonAt(t, ca, mark, i); }
  }

  lemma MoreSound(f: set<Clause>, ca: seq<Clause>, c: Clause, n: nat)
    requires Sound(f, ca) && DbOk(ca, n) && Implied(f, c) && ClauseOk(c, n)
    ensures Sound(f, ca + [c]) && DbOk(ca + [c], n)
  {
    var ca' := ca + [c];
    forall k | 0 <= k < |ca'| ensures Implied(f, ca'[k]) { if k < |ca| { assert Implied(f, ca[k]); } }
    forall k | 0 <= k < |ca'| ensures ClauseOk(ca'[k], n) { if k < |ca| { assert ClauseOk(ca[k], n); } }
  }

  lemma AttachDirty(ca: seq<Clause>, mark: seq<bool>, ws: WatchMap, dirties: seq<Lit>, c: Clause)
    requires DirtyOk(mark, ws, dirties) && |c| >= 2 && c[0] != c[1] && |mark| == |ca| && WatchShape(ca, mark, ws)
    ensures DirtyOk(mark + [false], Attached(ws, |ca|, c), dirties)
  {
    hide Attached;
    var mark' := mark + [false];
    forall p | p !in dirties ensures Live(mark', WL(Attached(ws, |ca|, c), p)) {
      AttachedList(ws, |ca|, c, p);
      var xs := WL(ws, p);
      assert Live(mark, xs);
      forall m | 0 <= m < |xs| ensures xs[m].cref < |mark'| && !mark'[xs[m].cref] { assert EntryAt(ca, ws, p, m); }
    }
  }

  /** Adding a clause all of whose literals are unassigned. */
  lemma AddStep(f: set<Clause>, t: Trail, ca: seq<Clause>, mark: seq<bool>, ws: WatchMap, dirties: seq<Lit>, q: nat,
                c: Clause)
    requires IdleOk(f, t, ca, mark, ws, dirties, q) && Implied(f, c) && ClauseOk(c, |t.assigns|)
    requires forall k :: 0 <= k < |c| ==> Val(t.assigns, c[k]) == LUndef
    ensures IdleOk(f, t, ca + [c], mark + [false], Attached(ws, |ca|, c), dirties, q)
  {
    hide TrailOk, ReasonOk, DbOk, WatchShape, DirtyOk, WatchInv, Sound, Units, Attached;
    MarkSize(ca, mark, ws);
    assert c[0] != c[1];
    MoreReason(t, ca, mark, c);
    AttachShape(ca, mark, ws, c, |t.assigns|);
    AttachInv(t, ca, ws, c, q);
    AttachDirty(ca, mark, ws, dirties, c);
    MoreSound(f, ca, c, |t.assigns|);
  }

  /** Enqueueing a literal without a reason: a decision, or a fact at the root. */
  lemma EnqueueIdle(f: set<Clause>, t: Trail, ca: seq<Clause>, mark: seq<bool>, ws: WatchMap, dirties: seq<Lit>, q: nat,
                    p: Lit)
    requires IdleOk(f, t, ca, mark, ws, dirties, q) && Val(t.assigns, p) == LUndef && p.v < |t.assigns| && Shape(t)
    requires if |t.lim| == 0 then Implied(f, [p]) else t.lim[|t.lim| - 1] == |t.lits|
    ensures IdleOk(f, Enqueued(t, p, None), ca, mark, ws, dirties, q)
  {
    hide TrailOk, ReasonOk, DbOk, WatchShape, DirtyOk, WatchInv, Sound, Units;
    EnqueueTrail(t, p, None);
    EnqueueReason(t, p, None, ca, mark);
    WatchEnqueue(t, p, None, ca, ws, q);
    EnqueueUnits(f, t, p, None);
  }

  /** Opening a decision level. */
  lemma IdleTrail(f: set<Clause>, t: Trail, ca: seq<Clause>, mark: seq<bool>, ws: WatchMap, dirties: seq<Lit>, q: nat)
    requires IdleOk(f, t, ca, mark, ws, dirties, q)
    ensures TrailOk(t) && Shape(t) && ReasonOk(t, ca, mark) && Units(f, t) && Sound(f, ca) && WatchShape(ca, mark, ws)
    ensures |mark| == |ca| && RootEnd(t) <= |t.lits| && q <= |t.lits|
  {
    MarkSize(ca, mark, ws);
  }

  lemma LevelRoot(t: Trail)
    ensures RootEnd(t.(lim := t.lim + [|t.lits|])) == RootEnd(t)
  {
  }

  lemma ClauseTwo(c: Clause, n: nat)
    requires ClauseOk(c, n)
    ensures |c| >= 2
  {
  }

  lemma NewLevel(f: set<Clause>, t: Trail, ca: seq<Clause>, mark: seq<bool>, ws: WatchMap, dirties: seq<Lit>)
    requires IdleOk(f, t, ca, mark, ws, dirties, |t.lits|)
    ensures IdleOk(f, t.(lim := t.lim + [|t.lits|]), ca, mark, ws, dirties, |t.lits|)
  {
    var u := t.(lim := t.lim + [|t.lits|]);
    assert TrailOk(u) by {
      forall i | 0 <= i < |u.lits| ensures OnTrail(u, i) { assert OnTrail(t, i); }
    }
    assert ReasonOk(u, ca, mark) by {
      forall i | 0 <= i < |u.lits| ensures ReasonAt(u, ca, mark, i) {
        assert ReasonAt(t, ca, mark, i) && OnTrail(t, i);
      }
    }
    assert Units(f, u);
    assert WatchInv(u, ca, ws, |t.lits|) by { LevelInv(t, u, ca, ws); }
  }

  lemma LevelInv(t: Trail, u: Trail, ca: seq<Clause>, ws: WatchMap)
    requires WatchInv(t, ca, ws, |t.lits|) && u == t.(lim := u.lim)
    ensures WatchInv(u, ca, ws, |t.lits|)
  {
    forall p | Val(u.assigns, p) == LTrue && Pos(u, p) < |t.lits|
      ensures CoverList(u, ca, WL(ws, p), |WL(ws, p)|, Lev(u, p))
    {
      var xs := WL(ws, p);
      assert CoverList(t, ca, xs, |xs|, Lev(t, p));
      forall m | 0 <= m < |xs| ensures CoverAt(u, ca, xs, m, Lev(u, p)) {
        assert CoverAt(t, ca, xs, m, Lev(t, p));
      }
    }
  }

  // ---------- deleting clauses ----------

  /** A clause is deleted; if it was the reason of a literal, the literal keeps its value at the root. */
  lemma RemoveStep(f: set<Clause>, t: Trail, ca: seq<Clause>, mark: seq<bool>, ws: WatchMap, dirties: seq<Lit>, q: nat,
                   cr: CRef, u: Trail, dirties': seq<Lit>)
    requires IdleOk(f, t, ca, mark, ws, dirties, q) && cr < |ca| && |ca[cr]| >= 2 && !mark[cr] && Shape(t)
    requires SubLits(dirties, dirties') && ca[cr][0].Not() in dirties' && ca[cr][1].Not() in dirties'
    requires if Locks(t, ca, cr) then |t.lim| == 0 && u == t.(reason := t.reason[ca[cr][0].v := None]) else u == t
    ensures IdleOk(f, u, ca, mark[cr := true], ws, dirties', q)
  {
    hide TrailOk, ReasonOk, DbOk, WatchShape, DirtyOk, WatchInv, Sound, Units;
    MarkSize(ca, mark, ws);
    RemoveTrail(f, t, ca, mark, cr, u);
    RemoveShape(ca, mark, ws, cr);
    RemoveDirty(ca, mark, ws, dirties, cr, dirties');
    RemoveInv(t, u, ca, ws, q);
  }

  /** `cr` is the reason of its first literal. */
  ghost predicate Locks(t: Trail, ca: seq<Clause>, cr: CRef) {
    && cr < |ca| && |ca[cr]| >= 1 && Val(t.assigns, ca[cr][0]) == LTrue
    && ca[cr][0].v < |t.reason| && t.reason[ca[cr][0].v] == Some(cr)
  }

  lemma RemoveTrail(f: set<Clause>, t: Trail, ca: seq<Clause>, mark: seq<bool>, cr: CRef, u: Trail)
    requires TrailOk(t) && ReasonOk(t, ca, mark) && Units(f, t) && cr < |ca| && cr < |mark| && |ca[cr]| >= 2
    requires if Locks(t, ca, cr) then |t.lim| == 0 && u == t.(reason := t.reason[ca[cr][0].v := None]) else u == t
    ensures TrailOk(u) && ReasonOk(u, ca, mark[cr := true]) && Units(f, u)
  {
    var mark' := mark[cr := true];
    assert TrailOk(u) by {
      forall i | 0 <= i < |u.lits| ensures OnTrail(u, i) { assert OnTrail(t, i); }
    }
    forall i | 0 <= i < |u.lits| ensures ReasonAt(u, ca, mark', i) {
      assert ReasonAt(t, ca, mark, i) && OnTrail(t, i);
    }
    assert RootEnd(u) == RootEnd(t);
  }

  lemma RemoveShape(ca: seq<Clause>, mark: seq<bool>, ws: WatchMap, cr: CRef)
    requires WatchShape(ca, mark, ws) && cr < |ca|
    ensures WatchShape(ca, mark[cr := true], ws)
  {
  }

  lemma RemoveDirty(ca: seq<Clause>, mark: seq<bool>, ws: WatchMap, dirties: seq<Lit>, cr: CRef, dirties': seq<Lit>)
    requires WatchShape(ca, mark, ws) && DirtyOk(mark, ws, dirties) && cr < |ca| && |ca[cr]| >= 2
    requires SubLits(dirties, dirties') && ca[cr][0].Not() in dirties' && ca[cr][1].Not() in dirties'
    ensures DirtyOk(mark[cr := true], ws, dirties')
  {
    var mark' := mark[cr := true];
    forall p | p !in dirties' ensures Live(mark', WL(ws, p)) {
      var xs := WL(ws, p);
      assert Live(mark, xs);
      forall m | 0 <= m < |xs| && xs[m].cref < |mark'| ensures !mark'[xs[m].cref] { assert EntryAt(ca, ws, p, m); }
    }
  }

  lemma RemoveInv(t: Trail, u: Trail, ca: seq<Clause>, ws: WatchMap, q: nat)
    requires WatchInv(t, ca, ws, q) && u == t.(reason := u.reason)
    ensures WatchInv(u, ca, ws, q)
  {
    forall p | Val(u.assigns, p) == LTrue && Pos(u, p) < q
      ensures CoverList(u, ca, WL(ws, p), |WL(ws, p)|, Lev(u, p))
    {
      var xs := WL(ws, p);
      assert CoverList(t, ca, xs, |xs|, Lev(t, p));
      forall m | 0 <= m < |xs| ensures CoverAt(u, ca, xs, m, Lev(u, p)) { assert CoverAt(t, ca, xs, m, Lev(t, p)); }
    }
  }

  lemma ListsDrop(mark: seq<bool>, pre: seq<CRef>, cr: CRef, post: seq<CRef>)
    requires AllFresh(mark, pre + [cr] + post) && NoDup(pre + [cr] + post)
    ensures cr < |mark| && !mark[cr] && AllFresh(mark[cr := true], pre + post) && NoDup(pre + post)
  {
    var all := pre + [cr] + post;
    assert all[|pre|] == cr;
    var less := pre + post;
    forall i | 0 <= i < |less| ensures less[i] < |mark| && !mark[cr := true][less[i]] {
      var i' := if i < |pre| then i else i + 1;
      assert less[i] == all[i'] && all[i'] != all[|pre|];
    }
    forall i, j | 0 <= i < j < |less| ensures less[i] != less[j] {
      var i', j' := if i < |pre| then i else i + 1, if j < |pre| then j else j + 1;
      assert less[i] == all[i'] && less[j] == all[j'];
    }
  }

  lemma ListsAdd(mark: seq<bool>, clauses: seq<CRef>, learnts: seq<CRef>)
    requires ListsOk(mark, clauses, learnts)
    ensures ListsOk(mark + [false], clauses + [|mark|], learnts) && ListsOk(mark + [false], clauses, learnts + [|mark|])
  {
    var all := clauses + learnts;
    assert forall i :: 0 <= i < |all| ==> all[i] < |mark|;
    var xs := (clauses + [|mark|]) + learnts;
    forall i | 0 <= i < |xs| ensures xs[i] < |mark| + 1 && !(mark + [false])[xs[i]] {
      assert i != |clauses| ==> xs[i] == all[if i < |clauses| then i else i - 1];
    }
    forall i, j | 0 <= i < j < |xs| ensures xs[i] != xs[j] {
      assert i != |clauses| ==> xs[i] == all[if i < |clauses| then i else i - 1];
      assert j != |clauses| ==> xs[j] == all[if j < |clauses| then j else j - 1];
    }
    var ys := clauses + (learnts + [|mark|]);
    assert ys == all + [|mark|];
    forall i | 0 <= i < |ys| ensures ys[i] < |mark| + 1 && !(mark + [false])[ys[i]] {
      assert i < |all| ==> ys[i] == all[i];
    }
  }

  // ---------- helpers for the solver's methods ----------

  /** `assigns` is the assignment of `t` with everything from trail index `c` on undone. */
  ghost predicate Unassigned(t: Trail, assigns: seq<LBool>, c: nat) {
    && |assigns| == |t.assigns|
    && forall v :: 0 <= v < |assigns| && v < |t.pos| ==>
         assigns[v] == if t.assigns[v] != LUndef && t.pos[v] < c then t.assigns[v] else LUndef
  }

  lemma UnassignStart(t: Trail)
    requires TrailOk(t)
    ensures Unassigned(t, t.assigns, |t.lits|)
  {
  }

  lemma UnassignStep(t: Trail, assigns: seq<LBool>, c: nat)
    requires TrailOk(t) && Unassigned(t, assigns, c + 1) && c < |t.lits|
    ensures t.lits[c].v < |assigns| && Unassigned(t, assigns[t.lits[c].v := LUndef], c)
  {
    assert OnTrail(t, c);
  }

  lemma LimsBelow(t: Trail, lv: nat)
    requires TrailOk(t) && lv < |t.lim|
    ensures t.lim[lv] <= |t.lits|
  {
  }

  lemma CutQueue(t: Trail, u: Trail, lv: nat)
    requires TrailOk(t) && CutTo(t, u, lv)
    ensures |u.lim| > 0 ==> u.lim[|u.lim| - 1] <= |u.lits|
  {
  }

  lemma CutComplete(f: set<Clause>, t: Trail, u: Trail, lv: nat, ca: seq<Clause>, clauses: seq<CRef>)
    requires TrailOk(t) && CutTo(t, u, lv) && Units(f, t) && Complete(f, t, ca, clauses)
    requires forall cr :: cr in clauses ==> cr < |ca|
    ensures Complete(f, u, ca, clauses)
  {
    CutUnits(f, t, u, lv);
    CutTrail(t, u, lv);
    CompleteGrow(f, t, u, ca, ca, clauses);
  }

  lemma ClausesInMemory(mark: seq<bool>, clauses: seq<CRef>, learnts: seq<CRef>)
    requires ListsOk(mark, clauses, learnts)
    ensures forall cr :: cr in clauses ==> cr < |mark| && !mark[cr]
    ensures forall cr :: cr in learnts ==> cr < |mark| && !mark[cr]
  {
    var all := clauses + learnts;
    forall cr | cr in clauses ensures cr < |mark| && !mark[cr] {
      var i :| 0 <= i < |clauses| && clauses[i] == cr;
      assert all[i] == cr;
    }
    forall cr | cr in learnts ensures cr < |mark| && !mark[cr] {
      var i :| 0 <= i < |learnts| && learnts[i] == cr;
      assert all[|clauses| + i] == cr;
    }
  }

  lemma RootFact(f: set<Clause>, t: Trail, p: Lit)
    requires TrailOk(t) && Units(f, t) && |t.lim| == 0 && Val(t.assigns, p) == LTrue
    ensures Implied(f, [p])
  {
    AssignedPos(t, p);
    assert Implied(f, [t.lits[Pos(t, p)]]);
  }

  lemma TrailVar(t: Trail, i: nat)
    requires TrailOk(t) && i < |t.lits|
    ensures t.lits[i].v < |t.assigns|
  {
    assert OnTrail(t, i);
  }

  lemma ReasonFacts(f: set<Clause>, t: Trail, ca: seq<Clause>, mark: seq<bool>, i: nat)
    requires TrailOk(t) && ReasonOk(t, ca, mark) && Sound(f, ca) && i < |t.lits| && t.lits[i].v < |t.reason|
    requires t.reason[t.lits[i].v].Some?
    ensures t.reason[t.lits[i].v].value < |ca|
    ensures var c := ca[t.reason[t.lits[i].v].value];
      Implied(f, c) && Propagating(t, c, i) && FalseBelow(t, c, 1, i)
  {
    assert ReasonAt(t, ca, mark, i);
    assert Implied(f, ca[t.reason[t.lits[i].v].value]);
  }

  /** Completeness depends on the trail's literals and levels only. */
  lemma CompleteSameRoot(f: set<Clause>, t: Trail, u: Trail, ca: seq<Clause>, clauses: seq<CRef>)
    requires Complete(f, t, ca, clauses) && u.lits == t.lits && RootEnd(u) == RootEnd(t)
    ensures Complete(f, u, ca, clauses)
  {
    forall a | BaseModel(a, u, ca, clauses) ensures Models(a, f) {
      assert RootTrue(a, t);
      assert BaseModel(a, t, ca, clauses);
    }
  }

  lemma ExtendComplete(f: set<Clause>, t: Trail, u: Trail, ca: seq<Clause>, ca': seq<Clause>, clauses: seq<CRef>)
    requires TrailOk(t) && TrailOk(u) && t.lits <= u.lits && t.lim == u.lim && ca <= ca'
    requires Complete(f, t, ca, clauses) && forall cr :: cr in clauses ==> cr < |ca|
    ensures Complete(f, u, ca', clauses)
  {
    RootEndBound(t);
    RootEndBound(u);
    CompleteGrow(f, t, u, ca, ca', clauses);
  }

  lemma ReasonRange(t: Trail, ca: seq<Clause>, cr: CRef)
    requires TrailOk(t) && DbOk(ca, |t.assigns|) && cr < |ca|
    ensures |ca[cr]| >= 2 && ca[cr][0].v < |t.reason| && Shape(t)
  {
    assert ClauseOk(ca[cr], |t.assigns|) && ca[cr][0] in ca[cr];
  }

  lemma ClauseFacts(f: set<Clause>, t: Trail, ca: seq<Clause>, mark: seq<bool>, ws: WatchMap, dirties: seq<Lit>, q: nat,
                    cr: CRef)
    requires IdleOk(f, t, ca, mark, ws, dirties, q) && cr < |mark|
    ensures cr < |ca| && |ca[cr]| >= 2 && ca[cr][0].v < |t.reason| && |mark| == |ca|
  {
    hide ReasonOk, WatchInv, Sound, Units, DirtyOk;
    ReasonRange(t, ca, cr);
  }

  lemma DropFromLists(mark: seq<bool>, clauses: seq<CRef>, kept: seq<CRef>, cr: CRef, rest: seq<CRef>)
    requires ListsOk(mark, clauses, kept + [cr] + rest)
    ensures cr < |mark| && !mark[cr] && ListsOk(mark[cr := true], clauses, kept + rest)
  {
    assert clauses + (kept + [cr] + rest) == (clauses + kept) + [cr] + rest;
    ListsDrop(mark, clauses + kept, cr, rest);
    assert clauses + (kept + rest) == (clauses + kept) + rest;
  }

  lemma SameSizes(ca: seq<Clause>, ca': seq<Clause>)
    requires SameSets(ca, ca')
    ensures |ca| == |ca'|
  {
  }

  lemma ListsParts(mark: seq<bool>, clauses: seq<CRef>, learnts: seq<CRef>)
    ensures ListsOk(mark, clauses, learnts) <==> AllFresh(mark, clauses + learnts + []) && NoDup(clauses + learnts + [])
    ensures ListsOk(mark, clauses, learnts) <==> AllFresh(mark, [] + clauses + learnts) && NoDup([] + clauses + learnts)
  {
    assert clauses + learnts + [] == clauses + learnts;
    assert [] + clauses + learnts == clauses + learnts;
  }

  lemma DecideComplete(f: set<Clause>, t: Trail, p: Lit, ca: seq<Clause>, clauses: seq<CRef>)
    requires TrailOk(t) && |t.lim| > 0 && p.v < |t.assigns| && Complete(f, t, ca, clauses)
    ensures Complete(f, Enqueued(t, p, None), ca, clauses)
  {
    var u := Enqueued(t, p, None);
    forall a | BaseModel(a, u, ca, clauses) ensures Models(a, f) {
      forall i | 0 <= i < RootEnd(t) && i < |t.lits| ensures True(a, t.lits[i]) { assert u.lits[i] == t.lits[i]; }
      assert BaseModel(a, t, ca, clauses);
    }
  }

  lemma LimsSorted(t: Trail, lv: nat)
    requires TrailOk(t) && lv < |t.lim|
    ensures t.lim[lv] <= t.lim[|t.lim| - 1]
  {
  }

  lemma VarBelow(ls: seq<Lit>, n: nat, l: Lit)
    requires VarsBelow(ls, n) && l in ls
    ensures l.v < n
  {
  }

  // ---------- adding clauses and variables ----------

  lemma ImpliedGrow(f: set<Clause>, ps: Clause, c: Clause)
    requires Implied(f, c)
    ensures Implied(f + {ps}, c)
  {
    forall a | Models(a, f + {ps}) ensures Sat(a, c) {
      assert forall d :: d in f ==> d in f + {ps};
      assert Models(a, f);
    }
  }

  lemma FormulaGrow(f: set<Clause>, ps: Clause, t: Trail, ca: seq<Clause>, mark: seq<bool>, ws: WatchMap,
                    dirties: seq<Lit>, q: nat)
    requires IdleOk(f, t, ca, mark, ws, dirties, q)
    ensures IdleOk(f + {ps}, t, ca, mark, ws, dirties, q)
  {
    hide TrailOk, ReasonOk, DbOk, WatchShape, DirtyOk, WatchInv, Implied;
    var g := f + {ps};
    forall cr | 0 <= cr < |ca| ensures Implied(g, ca[cr]) { ImpliedGrow(f, ps, ca[cr]); }
    forall i | 0 <= i < RootEnd(t) && i < |t.lits| ensures Implied(g, [t.lits[i]]) { ImpliedGrow(f, ps, [t.lits[i]]); }
  }

  lemma UnsatGrow(f: set<Clause>, ps: Clause)
    requires Unsat(f)
    ensures Unsat(f + {ps})
  {
    forall a ensures !Models(a, f + {ps}) {
      assert !Models(a, f);
      var c :| c in f && !Sat(a, c);
      assert c in f + {ps};
    }
  }

  ghost predicate SortedLits(ps: seq<Lit>) { forall i, j :: 0 <= i < j < |ps| ==> ToInt(ps[i]) <= ToInt(ps[j]) }

  /** `qs` is the part of `ps` that is left: unassigned literals, strictly increasing; the rest is false. */
  ghost predicate Filtered(assigns: seq<LBool>, ps: seq<Lit>, qs: seq<Lit>) {
    && SubLits(qs, ps) && (forall l :: l in qs ==> Val(assigns, l) == LUndef)
    && (forall i, j :: 0 <= i < j < |qs| ==> ToInt(qs[i]) < ToInt(qs[j]))
    && (forall l :: l in ps ==> l in qs || Val(assigns, l) == LFalse)
  }

  lemma FilteredImplied(f: set<Clause>, t: Trail, ps: Clause, qs: Clause)
    requires TrailOk(t) && Units(f, t) && |t.lim| == 0 && Filtered(t.assigns, ps, qs) && ps in f
    ensures Implied(f, qs)
  {
    forall a | Models(a, f) ensures Sat(a, qs) {
      assert Sat(a, ps);
      var l :| l in ps && True(a, l);
      if l !in qs {
        FalseLevel(t, l);
        RootFalse(f, t, l, a);
      }
    }
  }

  lemma FilteredClause(assigns: seq<LBool>, ps: Clause, qs: Clause)
    requires Filtered(assigns, ps, qs) && VarsBelow(ps, |assigns|)
    ensures Distinct(qs) && VarsBelow(qs, |assigns|)
    ensures forall k :: 0 <= k < |qs| ==> Val(assigns, qs[k]) == LUndef && qs[k].v < |assigns|
  {
    forall l | l in qs ensures l.v < |assigns| { assert l in ps; }
    forall k | 0 <= k < |qs| ensures Val(assigns, qs[k]) == LUndef && qs[k].v < |assigns| { assert qs[k] in qs; }
  }

  lemma EmptyUnsat(f: set<Clause>)
    requires Implied(f, [])
    ensures Unsat(f)
  {
    forall a ensures !Models(a, f) {
      assert !Sat(a, []);
    }
  }

  /** A tautology, or a clause with a root-true literal, holds wherever the root literals do. */
  lemma SatisfiedAtRoot(t: Trail, ps: Clause, l: Lit)
    requires TrailOk(t) && |t.lim| == 0 && l in ps && (Val(t.assigns, l) == LTrue || l.Not() in ps)
    ensures forall a {:trigger RootTrue(a, t)} :: RootTrue(a, t) ==> Sat(a, ps)
  {
    forall a | RootTrue(a, t) ensures Sat(a, ps) {
      if Val(t.assigns, l) == LTrue {
        AssignedPos(t, l);
        RootTrueSat(t, l, a);
      } else {
        assert True(a, l) || True(a, l.Not());
      }
    }
  }

  /** Once the only remaining literal is enqueued at the root, the added clause is covered. */
  lemma UnitComplete(f: set<Clause>, t: Trail, ca: seq<Clause>, clauses: seq<CRef>, ps: Clause, q: Lit)
    requires TrailOk(t) && |t.lim| == 0 && Complete(f, t, ca, clauses) && q in ps && q.v < |t.assigns|
    requires forall cr :: cr in clauses ==> cr < |ca|
    ensures Complete(f + {ps}, Enqueued(t, q, None), ca, clauses)
  {
    hide ClauseOccurs;
    var u := Enqueued(t, q, None);
    OccurringGrow(f, ps, ca, clauses);
    forall a | BaseModel(a, u, ca, clauses) ensures Models(a, f + {ps}) {
      forall i | 0 <= i < RootEnd(t) && i < |t.lits| ensures True(a, t.lits[i]) { assert u.lits[i] == t.lits[i]; }
      assert BaseModel(a, t, ca, clauses);
      assert u.lits[|t.lits|] == q;
    }
  }

  ghost function WithVar(t: Trail): Trail {
    Trail(t.assigns + [LUndef], t.level + [0], t.reason + [None], t.lits, t.lim, t.pos + [0])
  }

  lemma NewVarIdle(f: set<Clause>, t: Trail, ca: seq<Clause>, mark: seq<bool>, ws: WatchMap, dirties: seq<Lit>, q: nat)
    requires IdleOk(f, t, ca, mark, ws, dirties, q)
    ensures IdleOk(f, WithVar(t), ca, mark, ws, dirties, q)
  {
    hide Sound, WatchShape, DirtyOk, Implied;
    var u := WithVar(t);
    assert TrailOk(u) by {
      forall i | 0 <= i < |u.lits| ensures OnTrail(u, i) { assert OnTrail(t, i); }
    }
    assert ReasonOk(u, ca, mark) by { NewVarReason(t, ca, mark); }
    assert DbOk(ca, |u.assigns|) by {
      forall cr | 0 <= cr < |ca| ensures ClauseOk(ca[cr], |u.assigns|) { assert ClauseOk(ca[cr], |t.assigns|); }
    }
    assert WatchInv(u, ca, ws, q) by { NewVarInv(t, ca, ws, q); }
  }

  lemma NewVarComplete(f: set<Clause>, t: Trail, ca: seq<Clause>, clauses: seq<CRef>)
    requires Complete(f, t, ca, clauses)
    ensures Complete(f, WithVar(t), ca, clauses)
  {
    CompleteSameRoot(f, t, WithVar(t), ca, clauses);
  }

  lemma NewVarReason(t: Trail, ca: seq<Clause>, mark: seq<bool>)
    requires TrailOk(t) && ReasonOk(t, ca, mark)
    ensures ReasonOk(WithVar(t), ca, mark)
  {
    var u := WithVar(t);
    forall i | 0 <= i < |u.lits| ensures ReasonAt(u, ca, mark, i) {
      assert ReasonAt(t, ca, mark, i) && OnTrail(t, i);
    }
  }

  lemma NewVarInv(t: Trail, ca: seq<Clause>, ws: WatchMap, q: nat)
    requires TrailOk(t) && WatchInv(t, ca, ws, q)
    ensures WatchInv(WithVar(t), ca, ws, q)
  {
    var u := WithVar(t);
    forall p | Val(u.assigns, p) == LTrue && Pos(u, p) < q
      ensures CoverList(u, ca, WL(ws, p), |WL(ws, p)|, Lev(u, p))
    {
      var xs := WL(ws, p);
      assert CoverList(t, ca, xs, |xs|, Lev(t, p));
      forall m | 0 <= m < |xs| ensures CoverAt(u, ca, xs, m, Lev(u, p)) {
        assert CoverAt(t, ca, xs, m, Lev(t, p));
        var l :| l in ca[xs[m].cref] && Val(t.assigns, l) == LTrue && Lev(t, l) <= Lev(t, p);
        assert Val(u.assigns, l) == LTrue && Lev(u, l) <= Lev(u, p);
      }
    }
  }

  /** A final conflict made of negated assumptions refutes the formula under them. */
  lemma ConflictRefutes(f: set<Clause>, conflict: Clause, assumps: seq<Lit>)
    requires Implied(f, conflict) && forall l :: l in conflict ==> l.Not() in assumps
    ensures UnsatUnder(f, assumps)
  {
    forall a | Models(a, f) ensures !AllTrue(a, assumps) {
      assert Sat(a, conflict);
      var l :| l in conflict && True(a, l);
      assert l.Not() in assumps;
    }
  }

  lemma UnsatAnyway(f: set<Clause>, assumps: seq<Lit>)
    requires Unsat(f)
    ensures UnsatUnder(f, assumps)
  {
  }
}
