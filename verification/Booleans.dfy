/** Boolean constraints over numbered variables, and state numbers as bit vectors. */
module Booleans {
  import opened Basics
  import opened Cnf

  /** What a literal of the constraint store stands for. */
  datatype Exp =
    | Const(value: bool)
    | Atom(v: Var)
    | Not(e: Exp)
    | And(x: Exp, y: Exp)
    | Or(es: seq<Exp>)
    | Equal(left: seq<Exp>, right: seq<Exp>)

  ghost predicate Holds(a: Valuation, e: Exp) {
    match e
    case Const(b) => b
    case Atom(v) => v in a
    case Not(x) => !Holds(a, x)
    case And(x, y) => Holds(a, x) && Holds(a, y)
    case Or(es) => exists i :: 0 <= i < |es| && Holds(a, es[i])
    case Equal(x, y) => |x| == |y| && forall i :: 0 <= i < |x| ==> (Holds(a, x[i]) <==> Holds(a, y[i]))
  }

  ghost predicate AllHold(a: Valuation, es: seq<Exp>) { forall i :: 0 <= i < |es| ==> Holds(a, es[i]) }

  /** Only variables below `n` occur. */
  ghost predicate Below(e: Exp, n: Var) {
    match e
    case Const(_) => true
    case Atom(v) => v < n
    case Not(x) => Below(x, n)
    case And(x, y) => Below(x, n) && Below(y, n)
    case Or(es) => forall i :: 0 <= i < |es| ==> Below(es[i], n)
    case Equal(x, y) => (forall i :: 0 <= i < |x| ==> Below(x[i], n)) && (forall i :: 0 <= i < |y| ==> Below(y[i], n))
  }

  ghost predicate AllBelow(es: seq<Exp>, n: Var) { forall i :: 0 <= i < |es| ==> Below(es[i], n) }

  ghost predicate SameBelow(a: Valuation, b: Valuation, n: Var) { forall v: Var :: v < n ==> (v in a <==> v in b) }

  lemma {:induction false} HoldsLocal(a: Valuation, b: Valuation, n: Var, e: Exp)
    requires Below(e, n) && SameBelow(a, b, n)
    ensures Holds(a, e) <==> Holds(b, e)
    decreases e
  {
    match e {
      case Const(_) =>
      case Atom(_) =>
      case Not(x) => HoldsLocal(a, b, n, x);
      case And(x, y) => HoldsLocal(a, b, n, x); HoldsLocal(a, b, n, y);
      case Or(es) => HoldLocal(a, b, n, es);
      case Equal(x, y) => HoldLocal(a, b, n, x); HoldLocal(a, b, n, y);
    }
  }

  lemma {:induction false} HoldLocal(a: Valuation, b: Valuation, n: Var, es: seq<Exp>)
    requires AllBelow(es, n) && SameBelow(a, b, n)
    ensures forall i :: 0 <= i < |es| ==> (Holds(a, es[i]) <==> Holds(b, es[i]))
    decreases es
  {
    forall i | 0 <= i < |es| ensures Holds(a, es[i]) <==> Holds(b, es[i]) { HoldsLocal(a, b, n, es[i]); }
  }

  lemma {:induction false} BelowMono(e: Exp, n: Var, m: Var)
    requires Below(e, n) && n <= m
    ensures Below(e, m)
    decreases e
  {
    match e {
      case Const(_) =>
      case Atom(_) =>
      case Not(x) => BelowMono(x, n, m);
      case And(x, y) => BelowMono(x, n, m); BelowMono(y, n, m);
      case Or(es) => AllBelowMono(es, n, m);
      case Equal(x, y) => AllBelowMono(x, n, m); AllBelowMono(y, n, m);
    }
  }

  lemma {:induction false} AllBelowMono(es: seq<Exp>, n: Var, m: Var)
    requires AllBelow(es, n) && n <= m
    ensures AllBelow(es, m)
    decreases es
  {
    forall i | 0 <= i < |es| ensures Below(es[i], m) { BelowMono(es[i], n, m); }
  }

  // ---------- gates, with constants folded ----------

  ghost predicate SomeHolds(a: Valuation, es: seq<Exp>) { exists i :: 0 <= i < |es| && Holds(a, es[i]) }

  function Lor(es: seq<Exp>): (r: Exp) {
    if Const(true) in es then Const(true) else if |es| == 0 then Const(false) else Or(es)
  }

  function Land(x: Exp, y: Exp): (r: Exp) {
    if x == Const(true) then y
    else if y == Const(true) then x
    else if x == Const(false) || y == Const(false) then Const(false)
    else And(x, y)
  }

  function Lnot(x: Exp): (r: Exp) { if x.Const? then Const(!x.value) else Not(x) }

  lemma LorHolds(a: Valuation, es: seq<Exp>)
    ensures Holds(a, Lor(es)) <==> SomeHolds(a, es)
  {
    if Const(true) in es {
      var i :| 0 <= i < |es| && es[i] == Const(true);
      assert Holds(a, es[i]);
    }
  }

  lemma LandHolds(a: Valuation, x: Exp, y: Exp)
    ensures Holds(a, Land(x, y)) <==> Holds(a, x) && Holds(a, y)
  {
  }

  lemma LnotHolds(a: Valuation, x: Exp)
    ensures Holds(a, Lnot(x)) <==> !Holds(a, x)
  {
  }

  lemma GatesBelow(n: Var, es: seq<Exp>, x: Exp, y: Exp)
    ensures AllBelow(es, n) ==> Below(Lor(es), n)
    ensures Below(x, n) && Below(y, n) ==> Below(Land(x, y), n)
    ensures Below(x, n) ==> Below(Lnot(x), n)
  {
  }

  lemma SomeMore(a: Valuation, es: seq<Exp>, e: Exp)
    ensures SomeHolds(a, es + [e]) <==> SomeHolds(a, es) || Holds(a, e)
  {
    hide Holds;
    var fs := es + [e];
    if SomeHolds(a, es) {
      var i :| 0 <= i < |es| && Holds(a, es[i]);
      assert fs[i] == es[i];
    }
    if Holds(a, e) { assert fs[|es|] == e; }
  }

  // ---------- state numbers ----------

  /** The lowest `w` bits of `s`, lowest first. */
  function Bits(s: nat, w: nat): (r: seq<bool>)
    ensures |r| == w
  {
    if w == 0 then [] else [s % 2 == 1] + Bits(s / 2, w - 1)
  }

  /** Numbers below `2^w` have different codes. */
  lemma {:induction false} BitsDistinct(s: nat, t: nat, w: nat)
    requires s < Pow(2, w) && t < Pow(2, w) && Bits(s, w) == Bits(t, w)
    ensures s == t
  {
    if w > 0 {
      assert Bits(s, w)[0] == (s % 2 == 1) && Bits(t, w)[0] == (t % 2 == 1);
      assert Bits(s, w)[1..] == Bits(s / 2, w - 1) && Bits(t, w)[1..] == Bits(t / 2, w - 1);
      BitsDistinct(s / 2, t / 2, w - 1);
    }
  }

  /** Enough bits for every number up to `n`. */
  method Width(n: nat) returns (w: nat)
    ensures w > 0 && n < Pow(2, w) && (n > 0 ==> Pow(2, w - 1) <= n)
  {
    w := 1;
    var k := n / 2;
    ghost var p := 2;
    while k > 0
      invariant w > 0 && p > 0 && p == Pow(2, w) && p == 2 * Pow(2, w - 1) && k == n / p
      invariant n > 0 ==> Pow(2, w - 1) <= n
    {
      Halve(n, p);
      k, w, p := k / 2, w + 1, 2 * p;
    }
    Halve(n, p);
  }

  lemma Halve(n: nat, p: nat)
    requires p > 0
    ensures n / p / 2 == n / (2 * p) && (n / p > 0 ==> p <= n) && (n / p == 0 ==> n < p)
  {
    var q, r := n / p, n % p;
    var q', r' := q / 2, q % 2;
    var big, z := 2 * p, r' * p + r;
    assert n == q * p + r;
    assert z < big by { MulMono(r', 1, p); }
    assert n == q' * big + z by { Distribute(q', 2, r', p); }
    DivUnique(q', z, big);
    if q > 0 { MulMono(1, q, p); }
  }

  /** The value of a vector. */
  ghost function Value(a: Valuation, vec: seq<Exp>): seq<bool> {
    seq(|vec|, i requires 0 <= i < |vec| => Holds(a, vec[i]))
  }

  ghost predicate Encodes(a: Valuation, vec: seq<Exp>, s: nat) { Value(a, vec) == Bits(s, |vec|) }

  lemma EncodesOne(a: Valuation, vec: seq<Exp>, s: nat, t: nat)
    requires Encodes(a, vec, s) && Encodes(a, vec, t) && s < Pow(2, |vec|) && t < Pow(2, |vec|)
    ensures s == t
  {
    BitsDistinct(s, t, |vec|);
  }

  function Constant(s: nat, w: nat): (r: seq<Exp>)
    ensures |r| == w
  {
    seq(w, i requires 0 <= i < w => Const(Bits(s, w)[i]))
  }

  function Variables(n: Var, w: nat): (r: seq<Exp>)
    ensures |r| == w
  {
    seq(w, i requires 0 <= i < w => Atom(n + i))
  }

  lemma ConstantEncodes(a: Valuation, s: nat, w: nat)
    ensures Encodes(a, Constant(s, w), s) && AllBelow(Constant(s, w), 0)
  {
  }

  /** Comparing a vector with a code tests whether it encodes the number. */
  lemma EqualEncodes(a: Valuation, vec: seq<Exp>, s: nat)
    ensures Holds(a, Equal(vec, Constant(s, |vec|))) <==> Encodes(a, vec, s)
  {
    var c := Constant(s, |vec|);
    if Encodes(a, vec, s) {
      forall i | 0 <= i < |vec| ensures Holds(a, vec[i]) <==> Holds(a, c[i]) {
        assert Value(a, vec)[i] == Bits(s, |vec|)[i];
      }
    }
    if Holds(a, Equal(vec, c)) {
      forall i | 0 <= i < |vec| ensures Value(a, vec)[i] == Bits(s, |vec|)[i] {
        assert Holds(a, vec[i]) <==> Holds(a, c[i]);
      }
    }
  }

  lemma EqualVectors(a: Valuation, x: seq<Exp>, y: seq<Exp>, s: nat)
    requires |x| == |y| && Encodes(a, x, s)
    ensures Holds(a, Equal(x, y)) <==> Encodes(a, y, s)
  {
    if Encodes(a, y, s) {
      forall i | 0 <= i < |x| ensures Holds(a, x[i]) <==> Holds(a, y[i]) { assert Value(a, x)[i] == Value(a, y)[i]; }
    }
    if Holds(a, Equal(x, y)) {
      forall i | 0 <= i < |x| ensures Value(a, y)[i] == Value(a, x)[i] { assert Holds(a, x[i]) <==> Holds(a, y[i]); }
    }
  }

  lemma EncodesLocal(a: Valuation, b: Valuation, n: Var, vec: seq<Exp>, s: nat)
    requires AllBelow(vec, n) && SameBelow(a, b, n)
    ensures Encodes(a, vec, s) <==> Encodes(b, vec, s)
  {
    HoldLocal(a, b, n, vec);
    assert Value(a, vec) == Value(b, vec);
  }

  /** New variables can take any value without touching the others. */
  lemma SetVariables(a: Valuation, n: Var, w: nat, s: nat) returns (b: Valuation)
    ensures SameBelow(a, b, n) && Encodes(b, Variables(n, w), s)
  {
    var bits := Bits(s, w);
    b := iset v: Var | (v < n && v in a) || (n <= v < n + w && bits[v - n]);
    forall i | 0 <= i < w ensures Value(b, Variables(n, w))[i] == bits[i] { }
  }
}
