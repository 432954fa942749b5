/** Facts about numbers and finite sets that several modules need. */
module Basics {
  // ---------- products and quotients ----------

  lemma MulMono(x: nat, y: nat, s: nat)
    requires x <= y
    ensures x * s <= y * s
  {
  }

  lemma MulAdd(x: nat, s: nat)
    ensures (x + 1) * s == x * s + s
  {
  }

  lemma MulAssoc(a: nat, b: nat, c: nat)
    ensures a * (b * c) == a * b * c
  {
  }

  lemma Distribute(x: nat, m: nat, y: nat, s: nat)
    ensures (x * m + y) * s == x * (m * s) + y * s
  {
  }

  lemma QuotientBelow(n: nat, q: nat, r: nat, s: nat, x: nat)
    requires r < s && n == q * s + r && x * s <= n
    ensures x <= q
  {
    if x > q { MulMono(q + 1, x, s); MulAdd(q, s); }
  }

  lemma Divide(n: nat, s: nat) returns (q: nat, r: nat)
    requires s > 0
    ensures q == n / s && r == n % s && n == q * s + r && r < s
  {
    q, r := n / s, n % s;
  }

  lemma DivUnique(q: nat, r: nat, s: nat)
    requires r < s
    ensures (q * s + r) / s == q && (q * s + r) % s == r
  {
    var n := q * s + r;
    var x, y := n / s, n % s;
    assert n == x * s + y;
    QuotientBelow(n, q, r, s, x);
    QuotientBelow(n, x, y, s, q);
  }

  lemma DivLess(n: nat, m: nat, s: nat)
    requires s > 0 && n < m * s
    ensures n / s < m
  {
    var x, y := n / s, n % s;
    assert n == x * s + y;
    if x >= m { MulMono(m, x, s); }
  }

  // ---------- powers ----------

  function Pow(b: nat, e: nat): nat { if e == 0 then 1 else b * Pow(b, e - 1) }

  lemma {:induction false} PowMono(b: nat, d: nat, e: nat)
    requires b >= 1 && d <= e
    ensures 1 <= Pow(b, d) <= Pow(b, e)
    decreases e
  {
    if e == 0 {
    } else if d == e {
      PowMono(b, d - 1, e - 1);
      MulMono(1, b, Pow(b, e - 1));
    } else {
      PowMono(b, d, e - 1);
      MulMono(1, b, Pow(b, e - 1));
    }
  }

  // ---------- finite sets ----------

  lemma SubsetSize<X>(a: set<X>, b: set<X>)
    requires a <= b
    ensures |a| <= |b| && (a != b ==> |a| < |b|)
  {
    assert b == a + (b - a);
    if a != b { var x :| x in b - a; }
  }

  /** At most `n` numbers lie below `n`. */
  lemma {:induction false} BoundedSize(s: set<nat>, n: nat)
    requires forall x :: x in s ==> x < n
    ensures |s| <= n
  {
    if n == 0 { assert s == {}; }
    else {
      BoundedSize(s - {n - 1}, n - 1);
      assert s <= (s - {n - 1}) + {n - 1};
      SubsetSize(s, (s - {n - 1}) + {n - 1});
    }
  }
}
