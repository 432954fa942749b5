/** Variable elimination by resolution and the reconstruction of models, on clauses. */
module Elimination {
  import opened Cnf

  ghost function SetTrue(a: Valuation, l: Lit): Valuation { if l.neg then a - iset{l.v} else a + iset{l.v} }

  ghost predicate NonTaut(c: Clause) { forall l :: l in c ==> l.Not() !in c }

  /** A clause without repeated or complementary literals. */
  ghost predicate Proper(c: Clause) { Distinct(c) && NonTaut(c) }

  ghost predicate HasVar(c: Clause, v: Var) { exists l :: l in c && l.v == v }

  /** Resolving `p` and `q` on `v` gives a tautology. */
  ghost predicate Clashes(p: Clause, q: Clause, v: Var) {
    exists l :: l in p && l.v != v && l.Not() in q
  }

  /** `r` has exactly the literals of `p` and `q` on other variables than `v`. */
  ghost predicate IsResolvent(r: Clause, p: Clause, q: Clause, v: Var) {
    forall l :: l in r <==> l.v != v && (l in p || l in q)
  }

  // ---------- one variable ----------

  /** The literals of `c` other than its first are false. */
  ghost predicate RestFalse(a: Valuation, c: Clause) { forall k :: 1 <= k < |c| ==> !True(a, c[k]) }

  /** What the reconstruction does with one stored clause. */
  ghost function Repair(a: Valuation, c: Clause): Valuation {
    if |c| > 0 && RestFalse(a, c) then SetTrue(a, c[0]) else a
  }

  /** Stored clauses are used from the last to the first. */
  ghost function RepairAll(a: Valuation, cs: seq<Clause>): Valuation {
    if |cs| == 0 then a else RepairAll(Repair(a, cs[|cs| - 1]), cs[..|cs| - 1])
  }

  /** Two valuations that differ on `v` only. */
  ghost predicate SameOff(a: Valuation, b: Valuation, v: Var) { forall x :: x != v ==> (x in a <==> x in b) }

  ghost predicate StartsWith(c: Clause, x: Lit) { |c| > 0 && c[0] == x && forall k :: 1 <= k < |c| ==> c[k].v != x.v }

  lemma {:induction false} RepairKeeps(a: Valuation, cs: seq<Clause>, x: Lit)
    requires forall c :: c in cs ==> StartsWith(c, x)
    ensures SameOff(a, RepairAll(a, cs), x.v)
    ensures True(a, x) ==> True(RepairAll(a, cs), x)
    ensures forall c :: c in cs ==> Sat(RepairAll(a, cs), c)
    ensures True(RepairAll(a, cs), x) && !True(a, x) ==> exists c :: c in cs && RestFalse(a, c)
  {
    if |cs| > 0 {
      var c := cs[|cs| - 1];
      var front := cs[..|cs| - 1];
      var b := Repair(a, c);
      assert c in cs;
      assert SameOff(a, b, x.v);
      RepairKeeps(b, front, x);
      var z := RepairAll(a, cs);
      assert Sat(z, c) by { RepairedSat(a, b, z, c, x); }
      forall d | d in cs ensures Sat(z, d) { assert d == c || d in front; }
      if True(z, x) && !True(a, x) && !RestFalse(a, c) {
        var d :| d in front && RestFalse(b, d);
        assert d in cs && RestFalse(a, d);
      }
    }
  }

  lemma RepairedSat(a: Valuation, b: Valuation, z: Valuation, c: Clause, x: Lit)
    requires StartsWith(c, x) && b == Repair(a, c) && SameOff(b, z, x.v) && (True(b, x) ==> True(z, x))
    ensures Sat(z, c)
  {
    if RestFalse(a, c) { assert c[0] in c; }
    else {
      var k :| 1 <= k < |c| && True(a, c[k]);
      assert c[k] in c && True(z, c[k]);
    }
  }

  /** The stored side is repaired and the other side follows from the resolvents.  `x` is the
      literal of the stored clauses, and the default value makes it false. */
  lemma SidesSatisfied(a: Valuation, x: Lit, stored: seq<Clause>, others: set<Clause>)
    requires forall c :: c in stored ==> StartsWith(c, x)
    requires forall d :: d in others ==> x.Not() in d && NonTaut(d)
    requires forall c, d {:trigger c in stored, d in others} :: c in stored && d in others ==>
      ResolventHolds(a, c, d, x.v)
    ensures var b := RepairAll(SetTrue(a, x.Not()), stored);
      && SameOff(a, b, x.v)
      && (forall c :: c in stored ==> Sat(b, c))
      && (forall d :: d in others ==> Sat(b, d))
  {
    var a0 := SetTrue(a, x.Not());
    RepairKeeps(a0, stored, x);
    var b := RepairAll(a0, stored);
    forall d | d in others ensures Sat(b, d) {
      if !True(b, x) { assert x.Not() in d && True(b, x.Not()); }
      else {
        var c :| c in stored && RestFalse(a0, c);
        assert ResolventHolds(a, c, d, x.v);
        var l: Lit :| l.v != x.v && (l in c || l in d) && (True(a, l) || (l in c && l.Not() in d));
        if l in d && True(a, l) { assert True(b, l); }
        else if l in c {
          var k :| 0 <= k < |c| && c[k] == l;
          assert k > 0 && !True(a0, c[k]);
          assert True(b, l.Not());
        }
      }
    }
  }

  /** The resolvent of `c` and `d` on `v` is a tautology or holds in `a`. */
  ghost predicate ResolventHolds(a: Valuation, c: Clause, d: Clause, v: Var) {
    exists l: Lit :: l.v != v && (l in c || l in d) && (True(a, l) || (l in c && l.Not() in d))
  }

  /** A model of both parents satisfies their resolvent. */
  lemma ResolventImplied(a: Valuation, p: Clause, q: Clause, v: Var)
    requires Sat(a, p) && Sat(a, q) && Lit(v, false) in p && Lit(v, true) in q && NonTaut(p) && NonTaut(q)
    ensures ResolventHolds(a, p, q, v)
  {
    var c := if v in a then q else p;
    assert Lit(v, true).Not() == Lit(v, false) && Lit(v, false).Not() == Lit(v, true);
    var l :| l in c && True(a, l);
    assert l.v != v;
  }

  // ---------- the packed stack ----------

  /** One stored clause: its packed literals, then its length. */
  ghost function Packed(c: Clause): seq<nat> { seq(|c|, i requires 0 <= i < |c| => ToInt(c[i])) + [|c|] }

  /** The stored clause at the top of the stack. */
  ghost function TopClause(elim: seq<nat>): Clause
    requires |elim| > 0 && elim[|elim| - 1] < |elim|
  {
    var n := elim[|elim| - 1];
    seq(n, i requires 0 <= i < n => ToLit(elim[|elim| - 1 - n + i]))
  }

  /** Reconstruction from the packed stack. */
  ghost function Extend(elim: seq<nat>, a: Valuation): Valuation {
    if |elim| == 0 || elim[|elim| - 1] >= |elim| then a
    else Extend(elim[..|elim| - 1 - elim[|elim| - 1]], Repair(a, TopClause(elim)))
  }

  lemma ExtendPacked(elim: seq<nat>, c: Clause, a: Valuation)
    ensures Extend(elim + Packed(c), a) == Extend(elim, Repair(a, c))
  {
    var e := elim + Packed(c);
    assert e[|e| - 1] == |c|;
    var t := TopClause(e);
    assert |t| == |c|;
    forall i | 0 <= i < |c| ensures t[i] == c[i] {
      assert e[|elim| + i] == ToInt(c[i]);
      PackedLiterals(c[i], c[i], 0);
    }
    assert t == c;
    assert e[..|e| - 1 - |c|] == elim;
  }

  ghost function PackedAll(cs: seq<Clause>): seq<nat> {
    if |cs| == 0 then [] else PackedAll(cs[..|cs| - 1]) + Packed(cs[|cs| - 1])
  }

  lemma {:induction false} ExtendPackedAll(elim: seq<nat>, cs: seq<Clause>, a: Valuation)
    ensures Extend(elim + PackedAll(cs), a) == Extend(elim, RepairAll(a, cs))
  {
    if |cs| == 0 { assert elim + PackedAll(cs) == elim; }
    else {
      var front, c := cs[..|cs| - 1], cs[|cs| - 1];
      assert elim + PackedAll(cs) == (elim + PackedAll(front)) + Packed(c);
      ExtendPacked(elim + PackedAll(front), c, a);
      ExtendPackedAll(elim, front, Repair(a, c));
    }
  }

  /** The stack is a sequence of packed clauses that start with eliminated variables. */
  ghost predicate StackOk(elim: seq<nat>, eliminated: seq<bool>) {
    |elim| > 0 ==>
      && 0 < elim[|elim| - 1] < |elim|
      && TopClause(elim)[0].v < |eliminated| && eliminated[TopClause(elim)[0].v]
      && StackOk(elim[..|elim| - 1 - elim[|elim| - 1]], eliminated)
  }

  /** Reconstruction changes eliminated variables only. */
  lemma {:induction false} ExtendKeeps(elim: seq<nat>, eliminated: seq<bool>, a: Valuation, v: Var)
    requires StackOk(elim, eliminated) && (v >= |eliminated| || !eliminated[v])
    ensures v in Extend(elim, a) <==> v in a
  {
    if |elim| > 0 {
      ExtendKeeps(elim[..|elim| - 1 - elim[|elim| - 1]], eliminated, Repair(a, TopClause(elim)), v);
    }
  }

  lemma StackPush(elim: seq<nat>, c: Clause, eliminated: seq<bool>)
    requires StackOk(elim, eliminated) && |c| > 0 && c[0].v < |eliminated| && eliminated[c[0].v]
    ensures StackOk(elim + Packed(c), eliminated)
  {
    var e := elim + Packed(c);
    assert e[|e| - 1] == |c|;
    assert e[|elim|] == ToInt(c[0]);
    PackedLiterals(c[0], c[0], 0);
    assert TopClause(e)[0] == c[0];
    assert e[..|e| - 1 - |c|] == elim;
  }

  lemma {:induction false} StackMono(elim: seq<nat>, e1: seq<bool>, e2: seq<bool>)
    requires StackOk(elim, e1) && |e1| <= |e2| && forall v :: 0 <= v < |e1| && e1[v] ==> e2[v]
    ensures StackOk(elim, e2)
  {
    if |elim| > 0 { StackMono(elim[..|elim| - 1 - elim[|elim| - 1]], e1, e2); }
  }

  // ---------- the stack on partial models ----------

  /** When the stack is read from the top, every stored clause mentions defined variables only:
      those in `def`, and those defined by the clauses read before it. */
  ghost predicate StackDefined(elim: seq<nat>, def: iset<Var>) {
    |elim| > 0 ==>
      && 0 < elim[|elim| - 1] < |elim|
      && (var c := TopClause(elim);
          && (forall k :: 1 <= k < |c| ==> c[k].v in def)
          && (|c| > 1 ==> c[0].v in def)
          && StackDefined(elim[..|elim| - 1 - elim[|elim| - 1]], def + iset{c[0].v}))
  }

  lemma DefinedPush(elim: seq<nat>, c: Clause, def: iset<Var>)
    requires |c| > 0 && (forall k :: 1 <= k < |c| ==> c[k].v in def) && (|c| > 1 ==> c[0].v in def)
    requires StackDefined(elim, def + iset{c[0].v})
    ensures StackDefined(elim + Packed(c), def)
  {
    var e := elim + Packed(c);
    assert e[|e| - 1] == |c|;
    forall i | 0 <= i < |c| ensures TopClause(e)[i] == c[i] {
      assert e[|elim| + i] == ToInt(c[i]);
      PackedLiterals(c[i], c[i], 0);
    }
    assert TopClause(e) == c;
    assert e[..|e| - 1 - |c|] == elim;
  }

  lemma {:induction false} DefinedPushAll(elim: seq<nat>, cs: seq<Clause>, def: iset<Var>, x: Lit)
    requires x.v in def && forall c :: c in cs ==> StartsWith(c, x) && AllIn(c, def)
    requires StackDefined(elim, def)
    ensures StackDefined(elim + PackedAll(cs), def)
  {
    hide StackDefined, Packed;
    if |cs| == 0 { assert elim + PackedAll(cs) == elim; }
    else {
      var front, c := cs[..|cs| - 1], cs[|cs| - 1];
      assert c in cs;
      DefinedPushAll(elim, front, def, x);
      assert def + iset{c[0].v} == def;
      DefinedPush(elim + PackedAll(front), c, def);
      assert elim + PackedAll(cs) == (elim + PackedAll(front)) + Packed(c);
    }
  }

  ghost predicate AllIn(c: Clause, def: iset<Var>) { forall k :: 0 <= k < |c| ==> c[k].v in def }

  /** The default value of an eliminated variable, stored on top. */
  lemma DefinedDefault(elim: seq<nat>, x: Lit, def: iset<Var>)
    requires StackDefined(elim, def + iset{x.v})
    ensures StackDefined(elim + Packed([x]), def)
  {
    DefinedPush(elim, [x], def);
  }
}
