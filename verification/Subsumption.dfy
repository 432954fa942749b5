/** Clause-level operations of the simplifier: both forms of `merge`, and the subsumption test
    with its 32-bit signature. */
module Subsumption {
  import opened Cnf
  import opened Elimination

  // ---------- merging ----------

  ghost function LitSet(c: Clause): set<Lit> { set l | l in c }

  /** The literals of the resolvent on `v`. */
  ghost function ResolventSet(p: Clause, q: Clause, v: Var): set<Lit> {
    set l | l in LitSet(p) + LitSet(q) && l.v != v
  }

  lemma {:induction false} DistinctSize(c: Clause)
    requires Distinct(c)
    ensures |LitSet(c)| == |c|
  {
    if |c| > 0 {
      var front := c[..|c| - 1];
      DistinctSize(front);
      assert LitSet(c) == LitSet(front) + {c[|c| - 1]};
    } else {
      assert LitSet(c) == {};
    }
  }

  lemma ResolventSize(r: Clause, p: Clause, q: Clause, v: Var)
    requires Distinct(r) && IsResolvent(r, p, q, v)
    ensures |r| == |ResolventSet(p, q, v)|
  {
    DistinctSize(r);
    assert LitSet(r) == ResolventSet(p, q, v);
  }

  /** The index of the literal on variable `v`, or the length of the clause. */
  method FindVar(c: Clause, v: Var) returns (k: nat)
    ensures k <= |c| && (k < |c| ==> c[k].v == v) && (k == |c| ==> !HasVar(c, v))
  {
    k := 0;
    while k < |c|
      invariant k <= |c| && forall j :: 0 <= j < k ==> c[j].v != v
    {
      if c[k].v == v { return; }
      k := k + 1;
    }
  }

  /** In a proper clause a variable has one literal. */
  lemma OneLiteral(c: Clause, k: nat, l: Lit)
    requires Proper(c) && k < |c| && l in c && l.v == c[k].v
    ensures l == c[k]
  {
    assert c[k] in c;
    assert l == c[k] || l == c[k].Not();
  }

  /** The resolvent on `v`; false when it is a tautology. */
  method Merge(p: Clause, q: Clause, v: Var) returns (good: bool, out: Clause)
    requires Proper(p) && Proper(q)
    ensures good <==> !Clashes(p, q, v)
    ensures good ==> IsResolvent(out, p, q, v) && Proper(out) && |out| == |ResolventSet(p, q, v)|
  {
    var ps, qs := if |p| < |q| then q else p, if |p| < |q| then p else q;
    good, out := MergeFirst(ps, qs, v);
    ClashesSym(p, q, v);
    if !good { return; }
    out := MergeSecond(ps, qs, v, out);
    ResolventSize(out, p, q, v);
  }

  /** The literals of `qs` whose variable does not occur in `ps`; false on a clash. */
  method MergeFirst(ps: Clause, qs: Clause, v: Var) returns (good: bool, out: Clause)
    requires Proper(ps) && Proper(qs)
    ensures good <==> !Clashes(ps, qs, v)
    ensures good ==> Distinct(out) && forall l :: l in out <==> l in qs && l.v != v && !HasVar(ps, l.v)
  {
    out := [];
    var i := 0;
    while i < |qs|
      invariant 0 <= i <= |qs| && Distinct(out)
      invariant forall l :: l in out <==> l in qs[..i] && l.v != v && !HasVar(ps, l.v)
      invariant forall l :: l in qs[..i] && l.v != v ==> l.Not() !in ps
    {
      var x := qs[i];
      assert qs[..i + 1] == qs[..i] + [x];
      assert x !in qs[..i];
      if x.v != v {
        var k := FindVar(ps, x.v);
        if k < |ps| {
          if ps[k] == x.Not() {
            assert ps[k] in ps && x in qs && ps[k].Not() == x;
            return false, out;
          }
          OneLiteralNot(ps, k, x);
        } else {
          out := out + [x];
        }
      }
      i := i + 1;
    }
    good := true;
    assert qs[..i] == qs;
    forall l | l in ps && l.v != v ensures l.Not() !in qs { assert l.Not().Not() == l; }
  }

  lemma OneLiteralNot(c: Clause, k: nat, x: Lit)
    requires Proper(c) && k < |c| && c[k].v == x.v && c[k] != x.Not()
    ensures x == c[k] && x.Not() !in c && HasVar(c, x.v)
  {
    assert c[k] in c;
  }

  method MergeSecond(ps: Clause, qs: Clause, v: Var, out0: Clause) returns (out: Clause)
    requires Proper(ps) && Proper(qs) && Distinct(out0) && !Clashes(ps, qs, v)
    requires forall l :: l in out0 <==> l in qs && l.v != v && !HasVar(ps, l.v)
    ensures IsResolvent(out, ps, qs, v) && IsResolvent(out, qs, ps, v) && Proper(out)
  {
    out := out0;
    var i := 0;
    while i < |ps|
      invariant 0 <= i <= |ps| && Distinct(out)
      invariant forall l :: l in out <==> l in out0 || (l in ps[..i] && l.v != v)
    {
      assert ps[..i + 1] == ps[..i] + [ps[i]];
      assert ps[i] !in ps[..i] && ps[i] in ps;
      if ps[i].v != v {
        assert HasVar(ps, ps[i].v);
        out := out + [ps[i]];
      }
      i := i + 1;
    }
    assert ps[..i] == ps;
    MergedLits(ps, qs, v, out0, out);
  }

  lemma MergedLits(ps: Clause, qs: Clause, v: Var, out0: Clause, out: Clause)
    requires Proper(ps) && Proper(qs) && !Clashes(ps, qs, v)
    requires forall l :: l in out0 <==> l in qs && l.v != v && !HasVar(ps, l.v)
    requires forall l :: l in out <==> l in out0 || (l in ps && l.v != v)
    ensures IsResolvent(out, ps, qs, v) && IsResolvent(out, qs, ps, v) && NonTaut(out)
  {
    forall l: Lit | l in qs && l.v != v ensures l in out {
      if HasVar(ps, l.v) {
        var k :| k in ps && k.v == l.v;
        assert k == l || k == l.Not();
        assert k.Not() !in qs;
      }
    }
    forall l | l in out ensures l.Not() !in out {
      assert l.Not().Not() == l;
    }
  }

  lemma ClashesSym(p: Clause, q: Clause, v: Var)
    ensures Clashes(p, q, v) <==> Clashes(q, p, v)
  {
    if l :| l in p && l.v != v && l.Not() in q { assert l.Not() in q && l.Not().v != v && l.Not().Not() == l; }
    if l :| l in q && l.v != v && l.Not() in p { assert l.Not() in p && l.Not().v != v && l.Not().Not() == l; }
  }

  /** The size of the resolvent without building it: the counting form agrees with the building form. */
  method MergeSize(p: Clause, q: Clause, v: Var) returns (good: bool, size: nat)
    requires Proper(p) && Proper(q) && HasVar(p, v) && HasVar(q, v)
    ensures good <==> !Clashes(p, q, v)
    ensures good ==> size == |ResolventSet(p, q, v)|
  {
    var ps, qs := if |p| < |q| then q else p, if |p| < |q| then p else q;
    ClashesSym(p, q, v);
    assert ResolventSet(p, q, v) == ResolventSet(ps, qs, v);
    good, size := CountMerged(ps, qs, v);
  }

  method CountMerged(ps: Clause, qs: Clause, v: Var) returns (good: bool, size: nat)
    requires Proper(ps) && Proper(qs) && HasVar(ps, v)
    ensures good <==> !Clashes(ps, qs, v)
    ensures good ==> size == |ResolventSet(ps, qs, v)|
  {
    hide ResolventSet, Proper, HasVar;
    WithoutVar(ps, v);
    size := |ps| - 1;
    var i := 0;
    assert qs[..0] == [];
    while i < |qs|
      invariant 0 <= i <= |qs| && size == |ResolventSet(ps, qs[..i], v)|
      invariant forall l :: l in qs[..i] && l.v != v ==> l.Not() !in ps
    {
      var x := qs[i];
      assert qs[..i + 1] == qs[..i] + [x];
      OneMoreMerged(ps, qs, i, v);
      if x.v != v {
        var k := FindVar(ps, x.v);
        if k < |ps| {
          if ps[k] == x.Not() {
            assert ps[k] in ps && x in qs && ps[k].Not() == x;
            return false, size;
          }
          OneLiteralNot(ps, k, x);
          AlreadyMerged(ps, qs[..i], v, x);
        } else {
          NotYetMerged(ps, qs, i, v);
          size := size + 1;
        }
      }
      i := i + 1;
    }
    good := true;
    assert qs[..i] == qs;
    forall l | l in ps && l.v != v ensures l.Not() !in qs { assert l.Not().Not() == l; }
  }

  lemma OneMoreMerged(ps: Clause, qs: Clause, i: nat, v: Var)
    requires i < |qs|
    ensures ResolventSet(ps, qs[..i + 1], v) == ResolventSet(ps, qs[..i], v) + (if qs[i].v != v then {qs[i]} else {})
  {
    assert qs[..i + 1] == qs[..i] + [qs[i]];
  }

  lemma AlreadyMerged(ps: Clause, qs: Clause, v: Var, x: Lit)
    requires x in ps && x.v != v
    ensures ResolventSet(ps, qs, v) + {x} == ResolventSet(ps, qs, v)
  {
    assert x in LitSet(ps) + LitSet(qs);
  }

  lemma NotYetMerged(ps: Clause, qs: Clause, i: nat, v: Var)
    requires i < |qs| && Proper(qs) && !HasVar(ps, qs[i].v)
    ensures |ResolventSet(ps, qs[..i], v) + {qs[i]}| == |ResolventSet(ps, qs[..i], v)| + 1 && qs[i].Not() !in ps
  {
    var x := qs[i];
    assert x.Not().v == x.v;
    assert x !in qs[..i];
    assert x !in ps;
  }

  lemma WithoutVar(c: Clause, v: Var)
    requires Proper(c) && HasVar(c, v)
    ensures |c| >= 1 && |ResolventSet(c, [], v)| == |c| - 1
  {
    DistinctSize(c);
    var x :| x in c && x.v == v;
    forall l | l in c && l.v == v ensures l == x { assert l == x || l == x.Not(); }
    assert ResolventSet(c, [], v) == LitSet(c) - {x};
  }

  // ---------- signatures ----------

  function Bit(v: Var): bv32 { (1 as bv32) << (v % 32) }

  /** The signature of a clause: one of 32 bits for each of its variables. */
  function Signature(c: Clause): bv32 {
    if |c| == 0 then 0 else Either(Signature(c[..|c| - 1]), Bit(c[|c| - 1].v))
  }

  function Either(a: bv32, b: bv32): bv32 { a | b }

  /** Every bit of `x` is set in `y`. */
  predicate BitsIn(x: bv32, y: bv32) { x & !y == 0 }

  lemma OrAbove(x: bv32, a: bv32, b: bv32)
    ensures x & !a == 0 ==> x & !(a | b) == 0
    ensures x & !(a | x) == 0
  {
  }

  lemma OrBelow(x: bv32, a: bv32, b: bv32)
    ensures a & !x == 0 && b & !x == 0 ==> (a | b) & !x == 0
    ensures (0 as bv32) & !x == 0
  {
  }

  lemma InFirst(x: bv32, a: bv32, b: bv32)
    requires BitsIn(x, a)
    ensures BitsIn(x, Either(a, b))
  {
    OrAbove(x, a, b);
  }

  lemma InSecond(x: bv32, a: bv32)
    ensures BitsIn(x, Either(a, x))
  {
    OrAbove(x, a, a);
  }

  lemma BothIn(x: bv32, a: bv32, b: bv32)
    requires BitsIn(a, x) && BitsIn(b, x)
    ensures BitsIn(Either(a, b), x)
  {
    OrBelow(x, a, b);
  }

  lemma NoneIn(x: bv32)
    ensures BitsIn(0, x)
  {
    OrBelow(x, 0, 0);
  }

  lemma {:induction false} BitInSignature(c: Clause, v: Var)
    requires HasVar(c, v)
    ensures BitsIn(Bit(v), Signature(c))
  {
    hide Bit, BitsIn, Either;
    var last := c[|c| - 1];
    var front := c[..|c| - 1];
    if last.v == v { InSecond(Bit(v), Signature(front)); }
    else {
      var l :| l in c && l.v == v;
      assert l in front;
      BitInSignature(front, v);
      InFirst(Bit(v), Signature(front), Bit(last.v));
    }
  }

  /** The signature filter never rejects a clause whose variables all occur in the other. */
  lemma {:induction false} SignatureFilter(c: Clause, d: Clause)
    requires forall l :: l in c ==> HasVar(d, l.v)
    ensures BitsIn(Signature(c), Signature(d))
  {
    hide Bit, BitsIn, Either;
    if |c| > 0 {
      var last := c[|c| - 1];
      assert last in c;
      SignatureFilter(c[..|c| - 1], d);
      BitInSignature(d, last.v);
      BothIn(Signature(d), Signature(c[..|c| - 1]), Bit(last.v));
    } else {
      NoneIn(Signature(d));
    }
  }

  // ---------- subsumption ----------

  /** What `subsumes` answers: no relation, subsumption, or a literal of the first clause whose
      negation can be deleted from the second. */
  datatype SubResult = Unrelated | Subsumed | Deletes(l: Lit)

  ghost predicate Within(c: Clause, d: Clause) { forall l :: l in c ==> l in d }

  /** `c` with `x` flipped lies within `d`. */
  ghost predicate FlippedWithin(c: Clause, d: Clause, x: Lit) {
    x in c && x.Not() in d && forall l :: l in c && l != x ==> l in d
  }

  /** The subsumption test answers exactly, and its size and signature filters change nothing. */
  method Subsumes(c: Clause, d: Clause) returns (r: SubResult)
    requires Proper(c) && Proper(d)
    ensures r == Subsumed <==> Within(c, d)
    ensures forall x :: r == Deletes(x) <==> FlippedWithin(c, d, x)
  {
    if |d| < |c| || !BitsIn(Signature(c), Signature(d)) {
      RejectRight(c, d);
      return Unrelated;
    }
    r := SubsumesScan(c, d);
  }

  method SubsumesScan(c: Clause, d: Clause) returns (r: SubResult)
    requires Proper(c) && Proper(d)
    ensures r == Subsumed <==> Within(c, d)
    ensures forall x :: r == Deletes(x) <==> FlippedWithin(c, d, x)
  {
    r := Subsumed;
    var i := 0;
    while i < |c|
      invariant 0 <= i <= |c| && ScanOk(c[..i], d, r)
    {
      var found := FindLit(c[i], d, r == Subsumed);
      assert c[..i + 1] == c[..i] + [c[i]];
      if found == |d| {
        NotFound(c, d, i, r);
        return Unrelated;
      }
      ScanStep(c, d, i, r, found);
      if d[found] != c[i] { r := Deletes(c[i]); }
      i := i + 1;
    }
    assert c[..i] == c;
    ScanDone(c, d, r);
  }

  /** The index of `x` in `d`, or of its negation when that is allowed; `|d|` when there is none. */
  method FindLit(x: Lit, d: Clause, flip: bool) returns (j: nat)
    requires Proper(d)
    ensures j <= |d|
    ensures j < |d| ==> d[j] == x || (flip && d[j] == x.Not() && x !in d)
    ensures j == |d| ==> x !in d && (flip ==> x.Not() !in d)
  {
    j := 0;
    while j < |d|
      invariant j <= |d| && x !in d[..j] && (flip ==> x.Not() !in d[..j])
    {
      assert d[..j + 1] == d[..j] + [d[j]];
      if d[j] == x { return; }
      if flip && d[j] == x.Not() {
        assert d[j] in d && d[j].Not() == x;
        return;
      }
      j := j + 1;
    }
    assert d[..j] == d;
  }

  ghost predicate ScanOk(c: Clause, d: Clause, r: SubResult) {
    match r
    case Unrelated => false
    case Subsumed => Within(c, d)
    case Deletes(x) => FlippedWithin(c, d, x)
  }

  lemma ScanStep(c: Clause, d: Clause, i: nat, r: SubResult, j: nat)
    requires Proper(c) && i < |c| && ScanOk(c[..i], d, r) && j < |d|
    requires d[j] == c[i] || (r == Subsumed && d[j] == c[i].Not() && c[i] !in d)
    ensures ScanOk(c[..i + 1], d, if d[j] != c[i] then Deletes(c[i]) else r)
  {
    assert c[..i + 1] == c[..i] + [c[i]];
    assert d[j] in d && c[i] !in c[..i];
  }

  /** A literal that is missing in both signs, or missing after a flip, rules every answer out. */
  lemma NotFound(c: Clause, d: Clause, i: nat, r: SubResult)
    requires Proper(c) && Proper(d) && i < |c| && ScanOk(c[..i], d, r)
    requires c[i] !in d && (r == Subsumed ==> c[i].Not() !in d)
    ensures !Within(c, d) && forall x :: !FlippedWithin(c, d, x)
  {
    assert c[i] in c;
    if r.Deletes? {
      assert r.l in c && r.l != c[i] && r.l.Not() in d;
      assert r.l !in d by { assert r.l.Not().Not() == r.l; }
    }
  }

  lemma ScanDone(c: Clause, d: Clause, r: SubResult)
    requires Proper(c) && Proper(d) && ScanOk(c, d, r)
    ensures r == Subsumed <==> Within(c, d)
    ensures forall x :: r == Deletes(x) <==> FlippedWithin(c, d, x)
  {
    forall x | FlippedWithin(c, d, x) ensures r == Deletes(x) {
      assert x !in d by { assert x.Not() in d && x.Not().Not() == x; }
    }
    if r.Deletes? {
      assert r.l !in d by { assert r.l.Not() in d && r.l.Not().Not() == r.l; }
    }
  }

  lemma RejectRight(c: Clause, d: Clause)
    requires Proper(c) && Proper(d) && (|d| < |c| || !BitsIn(Signature(c), Signature(d)))
    ensures !Within(c, d) && forall x :: !FlippedWithin(c, d, x)
  {
    hide Signature, Bit;
    if Within(c, d) || exists x :: FlippedWithin(c, d, x) {
      forall l | l in c ensures HasVar(d, l.v) {
        if l !in d { assert l.Not() in d && l.Not().v == l.v; }
      }
      SignatureFilter(c, d);
      VarsFit(c, d);
      assert false;
    }
  }

  function VarsOf(c: Clause): set<Var> { set l | l in c :: l.v }

  lemma {:induction false} VarsSize(c: Clause)
    requires Proper(c)
    ensures |VarsOf(c)| == |c|
  {
    if |c| > 0 {
      var front, last := c[..|c| - 1], c[|c| - 1];
      forall l | l in front ensures l.Not() !in front { assert l in c; }
      VarsSize(front);
      assert VarsOf(c) == VarsOf(front) + {last.v};
      forall l | l in front ensures l.v != last.v {
        assert l in c && last in c;
        assert l != last;
        assert l.Not() !in c;
      }
    } else {
      assert VarsOf(c) == {};
    }
  }

  lemma VarsFit(c: Clause, d: Clause)
    requires Proper(c) && Proper(d) && forall l :: l in c ==> HasVar(d, l.v)
    ensures |c| <= |d|
  {
    VarsSize(c);
    VarsSize(d);
    forall v | v in VarsOf(c) ensures v in VarsOf(d) {
      var l :| l in c && l.v == v;
      assert HasVar(d, v);
      var k :| k in d && k.v == v;
    }
    assert VarsOf(d) == VarsOf(c) + (VarsOf(d) - VarsOf(c));
  }
}
