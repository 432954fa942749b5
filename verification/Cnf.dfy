/** Literals, clauses and their meaning: the vocabulary every other module uses. */
module Cnf {

  datatype Option<T> = None | Some(value: T)

  type Var = nat

  /** A literal: a variable and whether it is negated.  `ToInt` gives the packed form. */
  datatype Lit = Lit(v: Var, neg: bool) {
    function Not(): Lit { Lit(v, !neg) }
  }

  type Clause = seq<Lit>

  /** A total valuation, given by the variables it makes true. */
  type Valuation = iset<Var>

  ghost predicate True(a: Valuation, l: Lit) { (l.v in a) != l.neg }

  ghost predicate Sat(a: Valuation, c: Clause) { exists l :: l in c && True(a, l) }

  ghost predicate Models(a: Valuation, f: set<Clause>) { forall c :: c in f ==> Sat(a, c) }

  /** Every model of `f` satisfies `c`. */
  ghost predicate Implied(f: set<Clause>, c: Clause) {
    forall a :: Models(a, f) ==> Sat(a, c)
  }

  ghost predicate Unsat(f: set<Clause>) { forall a :: !Models(a, f) }

  ghost predicate AllTrue(a: Valuation, ls: seq<Lit>) { forall l :: l in ls ==> True(a, l) }

  ghost predicate UnsatUnder(f: set<Clause>, assumps: seq<Lit>) {
    forall a :: Models(a, f) ==> !AllTrue(a, assumps)
  }

  ghost predicate SameLits(c: Clause, d: Clause) { forall l :: l in c <==> l in d }

  ghost predicate Distinct(c: Clause) { forall i, j :: 0 <= i < j < |c| ==> c[i] != c[j] }

  ghost predicate VarsBelow(c: Clause, n: nat) { forall l :: l in c ==> l.v < n }

  /** The packed form of a literal: twice the variable, plus one when negated. */
  function ToInt(l: Lit): (x: nat) { 2 * l.v + if l.neg then 1 else 0 }

  function ToLit(x: nat): (l: Lit) { Lit(x / 2, x % 2 == 1) }

  /** Packing is a bijection, negation flips the lowest bit, and a literal and its negation
      are neighbours in the order of packed forms. */
  lemma PackedLiterals(l: Lit, k: Lit, x: nat)
    ensures ToLit(ToInt(l)) == l && ToInt(ToLit(x)) == x
    ensures ToInt(l.Not()) == if ToInt(l) % 2 == 0 then ToInt(l) + 1 else ToInt(l) - 1
    ensures l.v != k.v ==> (ToInt(l) < ToInt(k) <==> ToInt(l.Not()) < ToInt(k))
    ensures l.v < k.v ==> ToInt(l) < ToInt(k)
  {
  }
}
