/** The restart schedule: the Luby sequence, as a definition and as the loop that computes it. */
module Restarts {
  import opened Basics

  /** The number of bits of `n`: the least `k` with `n < 2^k`. */
  function BitLength(n: nat): (k: nat) { if n == 0 then 0 else 1 + BitLength(n / 2) }

  lemma {:induction false} BitsBound(n: nat)
    ensures n < Pow(2, BitLength(n)) && (n > 0 ==> Pow(2, BitLength(n) - 1) <= n)
  {
    if n > 0 { BitsBound(n / 2); }
  }

  lemma {:induction false} BitsIs(n: nat, k: nat)
    requires k > 0 && Pow(2, k - 1) <= n < Pow(2, k)
    ensures BitLength(n) == k
    decreases k
  {
    if k > 1 { BitsIs(n / 2, k - 1); }
  }

  /** A place that is not the last of its block has a counterpart earlier. */
  lemma Earlier(x: nat)
    ensures BitLength(x + 1) > 0 && Pow(2, BitLength(x + 1) - 1) <= x + 1
    ensures x + 2 != Pow(2, BitLength(x + 1)) ==> x + 1 - Pow(2, BitLength(x + 1) - 1) < x
  {
    BitsBound(x + 1);
    var k := BitLength(x + 1);
    if k > 1 { assert Pow(2, k - 1) == 2 * Pow(2, k - 2); }
  }

  /** The exponents 0, 0 0 1, 0 0 1 0 0 1 2, ...: the last place of a block of `2^k - 1` places holds
      `k - 1`, and the places before it repeat the smaller blocks. */
  function Exponent(x: nat): (e: nat)
    decreases x
  {
    Earlier(x);
    var k := BitLength(x + 1);
    if x + 2 == Pow(2, k) then k - 1 else Exponent(x + 1 - Pow(2, k - 1))
  }

  lemma ExponentIs(x: nat, k: nat)
    requires k > 0 && Pow(2, k - 1) <= x + 1 < Pow(2, k)
    ensures Exponent(x) == if x + 2 == Pow(2, k) then k - 1 else Exponent(x + 1 - Pow(2, k - 1))
  {
    hide Pow;
    BitsIs(x + 1, k);
  }

  lemma LastPlace(k: nat)
    requires k > 0
    ensures Pow(2, k) >= 2 && Exponent(Pow(2, k) - 2) == k - 1
  {
    hide Exponent;
    PowMono(2, 1, k);
    ExponentIs(Pow(2, k) - 2, k);
  }

  /** Within a block of `2^k - 1` places, each half repeats the smaller block. */
  lemma HalfBlock(k: nat, x: nat)
    requires k > 1 && x + 2 < Pow(2, k)
    ensures Pow(2, k) == 2 * Pow(2, k - 1) && Pow(2, k - 1) > 1
    ensures Exponent(x) == Exponent(x % (Pow(2, k - 1) - 1)) && x % (Pow(2, k - 1) - 1) + 1 < Pow(2, k - 1)
  {
    hide Exponent;
    var half := Pow(2, k - 1) - 1;
    assert Pow(2, k - 1) == 2 * Pow(2, k - 2);
    hide Pow;
    Remainder(x, half);
    if x >= half { ExponentIs(x, k); }
  }

  lemma Remainder(x: nat, half: nat)
    requires 0 < half && x < 2 * half
    ensures x % half == if x < half then x else x - half
  {
  }

  lemma Double(k: nat)
    ensures Pow(2, k + 1) == 2 * Pow(2, k)
  {
  }

  /** The restart factor `y` to the Luby exponent of `x`. */
  method Luby(y: nat, x: nat) returns (r: nat)
    ensures r == Pow(y, Exponent(x))
  {
    hide Exponent;
    var size: nat, exp: nat := 1, 0;
    assert Pow(2, 1) == 2 * Pow(2, 0);
    hide Pow;
    while size < x + 1
      invariant size == Pow(2, exp + 1) - 1
      decreases x + 1 - size
    {
      Double(exp + 1);
      size, exp := 2 * size + 1, exp + 1;
    }
    var z: nat := x;
    while size - 1 != z
      invariant size == Pow(2, exp + 1) - 1 && z < size && Exponent(z) == Exponent(x)
      decreases exp
    {
      HalfBlock(exp + 1, z);
      size, exp := (size - 1) / 2, exp - 1;
      z := z % size;
    }
    LastPlace(exp + 1);
    r := Pow(y, exp);
  }

  lemma {:induction false} PowerGrows(y: nat, e: nat)
    requires y >= 2
    ensures Pow(y, e) > e
  {
    if e > 0 {
      PowerGrows(y, e - 1);
      assert y * Pow(y, e - 1) >= 2 * Pow(y, e - 1);
    }
  }

  /** The conflict bound of each restart: by the Luby sequence, or geometric. */
  function Schedule(luby: bool, first: nat, inc: nat): (nat -> int) {
    (n: nat) => first * Pow(inc, if luby then Exponent(n) else n)
  }

  /** Both schedules exceed every bound. */
  lemma ScheduleUnbounded(luby: bool, first: nat, inc: nat, bound: nat) returns (n: nat)
    requires first > 0 && inc >= 2
    ensures Schedule(luby, first, inc)(n) > bound
  {
    hide *;
    LastPlace(bound + 1);
    n := if luby then Pow(2, bound + 1) - 2 else bound;
    PowerGrows(inc, bound);
    MulMono(1, first, Pow(inc, bound));
    ScheduleAt(luby, first, inc, n);
  }

  lemma ScheduleAt(luby: bool, first: nat, inc: nat, n: nat)
    ensures Schedule(luby, first, inc)(n) == first * Pow(inc, if luby then Exponent(n) else n)
  {
  }
}
