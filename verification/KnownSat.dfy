/** The literals known to be satisfied: an offset bitmap, and its closure under conjunctions. */
module KnownSats {
  import opened Basics
  import opened Cnf

  /** Bit 1 stands for the negated literal, bit 2 for the plain one. */
  function Mask(neg: bool): (m: bv8) { if neg then 1 else 2 }

  lemma MaskBits(x: bv8, neg: bool, other: bool)
    ensures (x | Mask(neg)) & Mask(neg) != 0 && Mask(neg) & Mask(neg) != 0
    ensures other != neg ==> (x | Mask(neg)) & Mask(other) == x & Mask(other) && Mask(neg) & Mask(other) == 0
  {
  }

  /** The bitmap has the bit of `l`. */
  predicate HasBit(lits: seq<bv8>, low: nat, l: Lit) { low <= l.v < low + |lits| && lits[l.v - low] & Mask(l.neg) != 0 }

  /** A constant, or a literal of a variable. */
  datatype Literal = Fixed(value: bool) | Free(lit: Lit)

  /** Variable numbers are positive. */
  ghost predicate PositiveVar(l: Literal) { l.Free? ==> l.lit.v > 0 }

  ghost function Frees(lits: set<Lit>): set<Literal> { set l | l in lits :: Free(l) }

  class KnownSat {
    var lits: seq<bv8>
    var minVar: nat
    var maxVar: nat
    ghost var frees: set<Lit>
    ghost var contents: set<Literal>   // the constant true is always known

    ghost predicate Valid() reads this {
      && contents == Frees(frees) + {Fixed(true)}
      && (forall l :: l in frees <==> HasBit(lits, minVar, l))
      && (forall l :: l in frees ==> l.v > 0)
      && (if |lits| == 0 then minVar == maxVar == 0 else 0 < minVar <= maxVar && maxVar + 1 == minVar + |lits|)
    }

    constructor (base: seq<Literal>)
      requires forall l :: l in base ==> PositiveVar(l)
      ensures Valid() && forall l :: l in contents <==> l == Fixed(true) || (l in base && l != Fixed(false))
    {
      lits, minVar, maxVar, frees, contents := [], 0, 0, {}, {Fixed(true)};
      new;
      for i := 0 to |base|
        invariant Valid() && forall l :: l in contents ==> l == Fixed(true) || (l in base && l != Fixed(false))
      {
        var isNew := Insert(base[i]);
        if isNew { break; }
      }
      var k := |base|;
      while k > 0
        invariant 0 <= k <= |base| && Valid()
        invariant forall l :: l in contents ==> l == Fixed(true) || (l in base && l != Fixed(false))
        invariant forall l :: l in base[k..] && l != Fixed(false) ==> l in contents
      {
        k := k - 1;
        var isNew := Insert(base[k]);
        assert base[k..] == [base[k]] + base[k + 1..];
      }
      assert base[0..] == base;
    }

    /** Adds a literal; true when it was not there.  Constants change nothing. */
    method Insert(l: Literal) returns (isNew: bool)
      requires Valid() && PositiveVar(l)
      modifies this
      ensures Valid() && contents == old(contents) + (if l == Fixed(false) then {} else {l})
      ensures isNew == (l.Free? && l !in old(contents))
    {
      if l.Fixed? { return false; }
      isNew := InsertLit(l.lit);
      MoreFrees(old(frees), l.lit);
      contents := contents + {l};
    }

    method InsertLit(l: Lit) returns (isNew: bool)
      requires Valid() && l.v > 0
      modifies this`lits, this`minVar, this`maxVar, this`frees
      ensures (forall k :: k in frees <==> HasBit(lits, minVar, k)) && frees == old(frees) + {l}
      ensures isNew == (l !in old(frees)) && 0 < minVar <= maxVar && maxVar + 1 == minVar + |lits|
    {
      var mask := Mask(l.neg);
      isNew := true;
      if |lits| == 0 {
        lits, minVar, maxVar := [mask], l.v, l.v;
        InsertFirst(frees, old(minVar), l);
      } else if l.v > maxVar {
        InsertAbove(frees, lits, minVar, l);
        lits := lits + Blank(l.v - maxVar - 1) + [mask];
        maxVar := l.v;
      } else if l.v < minVar {
        InsertBelow(frees, lits, minVar, l);
        lits := [mask] + Blank(minVar - l.v - 1) + lits;
        minVar := l.v;
      } else {
        InsertWithin(frees, lits, minVar, l);
        isNew := lits[l.v - minVar] & mask == 0;
        lits := lits[l.v - minVar := lits[l.v - minVar] | mask];
      }
      frees := frees + {l};
    }

    method Has(l: Literal) returns (r: bool)
      requires Valid() && PositiveVar(l)
      ensures r <==> l in contents
    {
      if l.Fixed? { return l.value; }
      r := l.lit.v >= minVar && l.lit.v <= maxVar && lits[l.lit.v - minVar] & Mask(l.lit.neg) != 0;
    }
  }

  lemma MoreFrees(c: set<Lit>, l: Lit)
    ensures Frees(c + {l}) == Frees(c) + {Free(l)} && (Free(l) in Frees(c) <==> l in c)
  {
  }

  function Blank(n: nat): (r: seq<bv8>)
    ensures |r| == n && forall i :: 0 <= i < n ==> r[i] == 0
  {
    seq(n, i => 0)
  }

  lemma InsertFirst(c: set<Lit>, low: nat, l: Lit)
    requires forall k :: k in c <==> HasBit([], low, k)
    ensures c == {} && forall k :: k in c + {l} <==> HasBit([Mask(l.neg)], l.v, k)
  {
    forall k ensures k in c + {l} <==> HasBit([Mask(l.neg)], l.v, k) { MaskBits(0, l.neg, k.neg); }
  }

  lemma InsertAbove(c: set<Lit>, lits: seq<bv8>, low: nat, l: Lit)
    requires (forall k :: k in c <==> HasBit(lits, low, k)) && l.v >= low + |lits|
    ensures l !in c && forall k :: k in c + {l} <==> HasBit(lits + Blank(l.v - low - |lits|) + [Mask(l.neg)], low, k)
  {
    var bits := lits + Blank(l.v - low - |lits|) + [Mask(l.neg)];
    forall k ensures k in c + {l} <==> HasBit(bits, low, k) { MaskBits(0, l.neg, k.neg); }
  }

  lemma InsertBelow(c: set<Lit>, lits: seq<bv8>, low: nat, l: Lit)
    requires (forall k :: k in c <==> HasBit(lits, low, k)) && l.v < low
    ensures l !in c && forall k :: k in c + {l} <==> HasBit([Mask(l.neg)] + Blank(low - l.v - 1) + lits, l.v, k)
  {
    var bits := [Mask(l.neg)] + Blank(low - l.v - 1) + lits;
    forall k ensures k in c + {l} <==> HasBit(bits, l.v, k) { MaskBits(0, l.neg, k.neg); }
  }

  lemma InsertWithin(c: set<Lit>, lits: seq<bv8>, low: nat, l: Lit)
    requires (forall k :: k in c <==> HasBit(lits, low, k)) && low <= l.v < low + |lits|
    ensures forall k :: k in c + {l} <==> HasBit(lits[l.v - low := lits[l.v - low] | Mask(l.neg)], low, k)
  {
    var x := lits[l.v - low];
    var bits := lits[l.v - low := x | Mask(l.neg)];
    forall k ensures k in c + {l} <==> HasBit(bits, low, k) { MaskBits(x, l.neg, k.neg); }
  }

  // ---------- closure under conjunctions ----------

  type Rules = map<Literal, set<(Literal, Literal)>>

  /** `r` is the conjunction of `s` and `o`. */
  ghost predicate Rule(rules: Rules, s: Literal, r: Literal, o: Literal) { s in rules && (r, o) in rules[s] }

  /** Conjunctions with constants are folded. */
  ghost predicate Folded(s: Literal, r: Literal, o: Literal) {
    && (o == Fixed(true) ==> r == s) && (s == Fixed(true) ==> r == o)
    && (o == Fixed(false) || s == Fixed(false) ==> r == Fixed(false))
  }

  ghost predicate RulesOk(rules: Rules) {
    forall s, r, o :: Rule(rules, s, r, o) ==> PositiveVar(r) && PositiveVar(o) && Folded(s, r, o)
  }

  /** With both operands a conjunction is known, unless it is constantly false. */
  ghost predicate Closed(rules: Rules, k: iset<Literal>) {
    forall s, r, o :: Rule(rules, s, r, o) && s in k && o in k && r != Fixed(false) ==> r in k
  }

  ghost predicate Contains(k: iset<Literal>, start: seq<Literal>) {
    Fixed(true) in k && forall l :: l in start && l != Fixed(false) ==> l in k
  }

  /** Everything in `c` follows from `start` by the rules. */
  ghost predicate Follows(start: seq<Literal>, rules: Rules, c: set<Literal>) {
    forall k: iset<Literal> {:trigger Closed(rules, k)} :: Contains(k, start) && Closed(rules, k) ==>
      forall l :: l in c ==> l in k
  }

  ghost function Wide(c: set<Literal>): iset<Literal> { iset l | l in c }

  /** `c` is the least set that contains the constant true and `start` and is closed. */
  ghost predicate LeastClosed(start: seq<Literal>, rules: Rules, c: set<Literal>) {
    Contains(Wide(c), start) && Fixed(false) !in c && Closed(rules, Wide(c)) && Follows(start, rules, c)
  }

  type Missing = map<Literal, seq<Literal>>

  ghost predicate Waits(missing: Missing, o: Literal, r: Literal) { o in missing && r in missing[o] }

  ghost predicate Derived(rules: Rules, c: set<Literal>, r: Literal, o: Literal) {
    exists s :: s in c && Rule(rules, s, r, o)
  }

  /** What waits for an operand would be known with it. */
  ghost predicate MissingOk(rules: Rules, c: set<Literal>, missing: Missing) {
    forall o, r :: Waits(missing, o, r) ==> PositiveVar(r) && (r == Fixed(false) || Derived(rules, c, r, o))
  }

  /** The conjunctions of the literals in `done` are known or wait for an operand not in `done`. */
  ghost predicate Served(rules: Rules, done: set<Literal>, c: set<Literal>, missing: Missing) {
    forall s, r, o :: s in done && Rule(rules, s, r, o) && r != Fixed(false) ==>
      r in c || (o !in done && Waits(missing, o, r))
  }

  ghost predicate StateOk(start: seq<Literal>, rules: Rules, c: set<Literal>, missing: Missing, done: set<Literal>) {
    Follows(start, rules, c) && MissingOk(rules, c, missing) && Served(rules, done, c, missing)
  }

  /** Every conjunction with operand `s` is known, constantly false, or waits. */
  ghost predicate Applied(rules: Rules, s: Literal, c: set<Literal>, missing: Missing, done: set<Literal>,
                          rest: set<(Literal, Literal)>) {
    forall r, o :: Rule(rules, s, r, o) && (r, o) !in rest && r != Fixed(false) ==>
      r in c || (o !in done && o != s && Waits(missing, o, r))
  }

  lemma FollowsRule(start: seq<Literal>, rules: Rules, c: set<Literal>, r: Literal, o: Literal)
    requires Follows(start, rules, c) && Derived(rules, c, r, o) && o in c && r != Fixed(false)
    ensures Follows(start, rules, c + {r})
  {
    var s :| s in c && Rule(rules, s, r, o);
    forall k: iset<Literal> | Contains(k, start) && Closed(rules, k) ensures forall l :: l in c + {r} ==> l in k {
      assert s in k && o in k;
    }
  }

  /** One more literal is known. */
  lemma LearnMore(start: seq<Literal>, rules: Rules, c: set<Literal>, missing: Missing, done: set<Literal>, r: Literal,
                  o: Literal)
    requires StateOk(start, rules, c, missing, done) && Derived(rules, c, r, o) && o in c && r != Fixed(false)
    ensures StateOk(start, rules, c + {r}, missing, done)
  {
    hide Follows;
    FollowsRule(start, rules, c, r, o);
    forall o, r' | Waits(missing, o, r') && r' != Fixed(false) ensures Derived(rules, c + {r}, r', o) {
      var s :| s in c && Rule(rules, s, r', o);
      assert s in c + {r};
    }
  }

  function AddMissing(missing: Missing, o: Literal, r: Literal): Missing {
    missing[o := (if o in missing then missing[o] else []) + [r]]
  }

  lemma AddMissingWaits(missing: Missing, o: Literal, r: Literal)
    ensures forall x, y :: Waits(AddMissing(missing, o, r), x, y) <==> Waits(missing, x, y) || (x == o && y == r)
  {
  }

  /** Literals still to be found among all results of rules. */
  ghost function Results(rules: Rules): set<Literal> { set s, p | s in rules && p in rules[s] :: p.0 }

  /** Between two moments the known literals grow by results of rules, and the new ones are queued. */
  ghost predicate Grows(rules: Rules, c: set<Literal>, queue: seq<Literal>, c': set<Literal>, queue': seq<Literal>) {
    && c <= c' <= c + Results(rules) && (c' == c ==> queue' == queue)
    && forall l :: l in queue' <==> l in queue || l in c' - c
  }

  lemma GrowsNot(rules: Rules, c: set<Literal>, queue: seq<Literal>)
    ensures Grows(rules, c, queue, c, queue)
  {
  }

  lemma GrowsMeans(rules: Rules, c: set<Literal>, queue: seq<Literal>, c': set<Literal>, queue': seq<Literal>)
    requires Grows(rules, c, queue, c', queue')
    ensures c <= c' <= c + Results(rules) && (c' == c ==> queue' == queue)
    ensures forall l :: l in queue' <==> l in queue || l in c' - c
  {
  }

  lemma GrowsMore(rules: Rules, c: set<Literal>, queue: seq<Literal>, c1: set<Literal>, queue1: seq<Literal>,
                  r: Literal)
    requires Grows(rules, c, queue, c1, queue1) && (r != Fixed(false) ==> r in Results(rules))
    ensures var c2 := c1 + (if r == Fixed(false) then {} else {r});
      Grows(rules, c, queue, c2, if c2 == c1 then queue1 else queue1 + [r])
  {
    hide Results;
  }

  /** Looks at every conjunction with operand `s`. */
  method ApplyRules(known: KnownSat, rules: Rules, s: Literal, queue: seq<Literal>, missing: Missing,
                    ghost start: seq<Literal>, ghost done: set<Literal>)
    returns (queue': seq<Literal>, missing': Missing)
    requires known.Valid() && RulesOk(rules) && (s in known.contents || s == Fixed(false)) && s !in done
    requires done <= known.contents + {Fixed(false)} && StateOk(start, rules, known.contents, missing, done)
    modifies known
    ensures known.Valid() && Grows(rules, old(known.contents), queue, known.contents, queue')
    ensures StateOk(start, rules, known.contents, missing', done)
      && Applied(rules, s, known.contents, missing', done, {})
  {
    hide RulesOk, StateOk, Applied, AddMissing, Grows;
    queue', missing' := queue, missing;
    GrowsNot(rules, known.contents, queue);
    if s !in rules { NothingApplied(rules, s, known.contents, missing, done); return; }
    var rest := rules[s];
    AllLeft(rules, s, known.contents, missing, done);
    while rest != {}
      invariant rest <= rules[s] && known.Valid() && old(known.contents) <= known.contents
      invariant Grows(rules, old(known.contents), queue, known.contents, queue')
      invariant StateOk(start, rules, known.contents, missing', done)
        && Applied(rules, s, known.contents, missing', done, rest)
    {
      var p :| p in rest;
      RuleLiterals(rules, s, p.0, p.1);
      ghost var before, queue0, rest0 := known.contents, queue', rest;
      rest := rest - {p};
      if p.1 == Fixed(true) {
        Handled(rules, s, known.contents, known.contents, missing', missing', done, rest0, p);
        continue;
      }
      var have := known.Has(p.0);
      if have {
        Handled(rules, s, known.contents, known.contents, missing', missing', done, rest0, p);
        continue;
      }
      var both := known.Has(p.1);
      if both {
        queue' := Learn(known, rules, p.0, p.1, queue', missing', start, done);
        GrowsMore(rules, old(known.contents), queue, before, queue0, p.0);
        Handled(rules, s, before, known.contents, missing', missing', done, rest0, p);
      } else {
        WaitFor(start, rules, known.contents, missing', done, s, p.1, p.0);
        AddMissingWaits(missing', p.1, p.0);
        Handled(rules, s, known.contents, known.contents, missing', AddMissing(missing', p.1, p.0), done, rest0, p);
        missing' := AddMissing(missing', p.1, p.0);
      }
    }
  }

  lemma NothingApplied(rules: Rules, s: Literal, c: set<Literal>, missing: Missing, done: set<Literal>)
    requires s !in rules
    ensures Applied(rules, s, c, missing, done, {})
  {
  }

  lemma AllLeft(rules: Rules, s: Literal, c: set<Literal>, missing: Missing, done: set<Literal>)
    requires s in rules
    ensures Applied(rules, s, c, missing, done, rules[s])
  {
  }

  /** The conjunction `p` needs no more attention. */
  lemma Handled(rules: Rules, s: Literal, c: set<Literal>, c': set<Literal>, missing: Missing, missing': Missing,
                done: set<Literal>, rest: set<(Literal, Literal)>, p: (Literal, Literal))
    requires Applied(rules, s, c, missing, done, rest) && c <= c'
      && forall o, r :: Waits(missing, o, r) ==> Waits(missing', o, r)
    requires p.0 != Fixed(false) ==> p.0 in c' || (p.1 !in done && p.1 != s && Waits(missing', p.1, p.0))
    ensures Applied(rules, s, c', missing', done, rest - {p})
  {
    hide Waits;
    assert forall r, o :: (r, o) !in rest - {p} ==> (r, o) !in rest || (r == p.0 && o == p.1);
  }

  lemma RuleLiterals(rules: Rules, s: Literal, r: Literal, o: Literal)
    requires RulesOk(rules) && s in rules && (r, o) in rules[s]
    ensures PositiveVar(r) && PositiveVar(o) && r in Results(rules) && Folded(s, r, o)
    ensures forall c: set<Literal> :: s in c ==> Derived(rules, c, r, o)
  {
    assert Rule(rules, s, r, o);
    assert (r, o).0 == r;
  }

  lemma WaitFor(start: seq<Literal>, rules: Rules, c: set<Literal>, missing: Missing, done: set<Literal>, s: Literal,
                o: Literal, r: Literal)
    requires StateOk(start, rules, c, missing, done) && PositiveVar(r) && (r == Fixed(false) || Derived(rules, c, r, o))
    ensures StateOk(start, rules, c, AddMissing(missing, o, r), done)
  {
    hide Waits, AddMissing, Follows;
    AddMissingWaits(missing, o, r);
  }

  /** Adds a conjunction whose operands are known. */
  method Learn(known: KnownSat, rules: Rules, r: Literal, o: Literal, queue: seq<Literal>, missing: Missing,
               ghost start: seq<Literal>, ghost done: set<Literal>)
    returns (queue': seq<Literal>)
    requires known.Valid() && PositiveVar(r) && (r == Fixed(false) || Derived(rules, known.contents, r, o))
      && o in known.contents
    requires StateOk(start, rules, known.contents, missing, done)
    modifies known
    ensures known.Valid() && known.contents == old(known.contents) + (if r == Fixed(false) then {} else {r})
    ensures StateOk(start, rules, known.contents, missing, done)
    ensures queue' == if known.contents == old(known.contents) then queue else queue + [r]
  {
    hide *;
    if r != Fixed(false) { LearnMore(start, rules, known.contents, missing, done, r, o); }
    HasTrue(known);
    var isNew := known.Insert(r);
    assert !isNew ==> known.contents == old(known.contents);
    queue' := if isNew then queue + [r] else queue;
  }

  lemma HasTrue(known: KnownSat)
    requires known.Valid()
    ensures Fixed(true) in known.contents && Fixed(false) !in known.contents
  {
  }

  /** Adds the conjunctions that waited for `s`. */
  method Release(known: KnownSat, rules: Rules, s: Literal, queue: seq<Literal>, missing: Missing,
                 ghost start: seq<Literal>, ghost done: set<Literal>)
    returns (queue': seq<Literal>, missing': Missing)
    requires known.Valid() && (s in known.contents || s == Fixed(false)) && RulesOk(rules)
    requires StateOk(start, rules, known.contents, missing, done)
      && Applied(rules, s, known.contents, missing, done, {})
    modifies known
    ensures known.Valid() && Grows(rules, old(known.contents), queue, known.contents, queue')
    ensures StateOk(start, rules, known.contents, missing', done + {s})
  {
    hide RulesOk, StateOk, Applied, Grows;
    queue', missing' := queue, missing;
    GrowsNot(rules, known.contents, queue);
    if s in missing {
      var rs := missing[s];
      for i := 0 to |rs|
        invariant known.Valid() && old(known.contents) <= known.contents
        invariant Grows(rules, old(known.contents), queue, known.contents, queue')
        invariant StateOk(start, rules, known.contents, missing, done)
        invariant forall j :: 0 <= j < i ==> rs[j] == Fixed(false) || rs[j] in known.contents
      {
        WaitingDerived(start, rules, known.contents, missing, done, s, rs[i]);
        ghost var before, queue0 := known.contents, queue';
        if s == Fixed(false) {
          FalseWaits(start, rules, known.contents, missing, done, rs[i]);
          var isNew := known.Insert(rs[i]);
          assert known.contents == before;
        } else {
          queue' := Learn(known, rules, rs[i], s, queue', missing, start, done);
          GrowsMore(rules, old(known.contents), queue, before, queue0, rs[i]);
        }
      }
      missing' := missing - {s};
    }
    AppliedMore(rules, s, old(known.contents), known.contents, missing, done);
    Released(start, rules, done, s, known.contents, missing, missing');
  }

  lemma WaitingDerived(start: seq<Literal>, rules: Rules, c: set<Literal>, missing: Missing, done: set<Literal>,
                       o: Literal, r: Literal)
    requires StateOk(start, rules, c, missing, done) && o in missing && r in missing[o]
    ensures PositiveVar(r) && (r == Fixed(false) || (Derived(rules, c, r, o) && r in Results(rules)))
  {
    assert Waits(missing, o, r);
    if r != Fixed(false) {
      var s :| s in c && Rule(rules, s, r, o);
      assert (r, o).0 == r;
    }
  }

  /** Only the constant false waits for the constant false. */
  lemma FalseWaits(start: seq<Literal>, rules: Rules, c: set<Literal>, missing: Missing, done: set<Literal>, r: Literal)
    requires StateOk(start, rules, c, missing, done) && RulesOk(rules) && Waits(missing, Fixed(false), r)
    ensures r == Fixed(false)
  {
    assert forall s :: Rule(rules, s, r, Fixed(false)) ==> Folded(s, r, Fixed(false));
  }

  lemma AppliedMore(rules: Rules, s: Literal, c: set<Literal>, c': set<Literal>, missing: Missing, done: set<Literal>)
    requires Applied(rules, s, c, missing, done, {}) && c <= c'
    ensures Applied(rules, s, c', missing, done, {})
  {
  }

  lemma Released(start: seq<Literal>, rules: Rules, done: set<Literal>, s: Literal, c: set<Literal>, missing: Missing,
                 missing': Missing)
    requires StateOk(start, rules, c, missing, done) && missing' == missing - {s}
      && Applied(rules, s, c, missing, done, {})
    requires s in missing ==> forall r :: r in missing[s] ==> r == Fixed(false) || r in c
    ensures StateOk(start, rules, c, missing', done + {s})
  {
    hide Follows;
    assert forall o, r :: o != s ==> (Waits(missing', o, r) <==> Waits(missing, o, r));
    assert forall r :: Waits(missing, s, r) ==> r == Fixed(false) || r in c;
  }

  /** Takes one literal from the queue. */
  method Round(known: KnownSat, rules: Rules, s: Literal, queue: seq<Literal>, missing: Missing,
               ghost start: seq<Literal>, ghost done: set<Literal>)
    returns (queue': seq<Literal>, missing': Missing)
    requires known.Valid() && RulesOk(rules) && (s in known.contents || s == Fixed(false))
      && done <= known.contents + {Fixed(false)}
    requires StateOk(start, rules, known.contents, missing, done)
    modifies known
    ensures known.Valid() && old(known.contents) <= known.contents <= old(known.contents) + Results(rules)
    ensures StateOk(start, rules, known.contents, missing', done + {s})
    ensures forall l :: l in queue' <==> l in queue || l in known.contents - old(known.contents)
    ensures known.contents == old(known.contents) ==> queue' == queue
  {
    hide *;
    ghost var c := known.contents;
    ServedLess(start, rules, done, done - {s}, c, missing);
    queue', missing' := ApplyRules(known, rules, s, queue, missing, start, done - {s});
    ghost var c1, queue1 := known.contents, queue';
    GrowsMeans(rules, c, queue, c1, queue1);
    queue', missing' := Release(known, rules, s, queue', missing', start, done - {s});
    GrowsMeans(rules, c1, queue1, known.contents, queue');
    assert done - {s} + {s} == done + {s};
  }

  /** The worklist closure: the least set that contains the start literals and is closed. */
  method Close(start: seq<Literal>, rules: Rules) returns (known: KnownSat)
    requires RulesOk(rules) && forall l :: l in start ==> PositiveVar(l)
    ensures fresh(known) && known.Valid() && LeastClosed(start, rules, known.contents)
  {
    hide *;
    known := new KnownSat(start);
    HasTrue(known);
    var missing: Missing := map[];
    var queue := start;
    ghost var done: set<Literal> := {};
    ghost var all := known.contents + Results(rules);
    StartClosure(start, rules, known.contents);
    while |queue| > 0
      invariant known.Valid() && fresh(known) && known.contents <= all
        && StateOk(start, rules, known.contents, missing, done)
      invariant forall l :: l in start && l != Fixed(false) ==> l in known.contents
      invariant forall l :: l in queue || l in done ==> l == Fixed(false) || l in known.contents
      invariant forall l :: l in known.contents ==> l == Fixed(true) || l in done || l in queue
      decreases |all - known.contents|, |queue|
    {
      var s := queue[0];
      ghost var before := known.contents;
      QueueTail(queue);
      queue, missing := Round(known, rules, s, queue[1..], missing, start, done);
      done := done + {s};
      if known.contents != before { Fewer(all, before, known.contents); }
    }
    HasTrue(known);
    Finished(start, rules, known.contents, done, missing);
  }

  lemma StartClosure(start: seq<Literal>, rules: Rules, c: set<Literal>)
    requires forall l :: l in c <==> l == Fixed(true) || (l in start && l != Fixed(false))
    ensures StateOk(start, rules, c, map[], {})
  {
  }

  lemma QueueTail(queue: seq<Literal>)
    requires |queue| > 0
    ensures forall l :: l in queue <==> l == queue[0] || l in queue[1..]
  {
  }

  lemma ServedLess(start: seq<Literal>, rules: Rules, done: set<Literal>, fewer: set<Literal>, c: set<Literal>,
                   missing: Missing)
    requires StateOk(start, rules, c, missing, done) && fewer <= done
    ensures StateOk(start, rules, c, missing, fewer)
  {
    hide Follows, MissingOk;
  }

  lemma Fewer(all: set<Literal>, c: set<Literal>, c': set<Literal>)
    requires c <= c' <= all && c != c'
    ensures |all - c'| < |all - c|
  {
    assert c' == c + (c' - c);
    var l :| l in c' - c;
    assert all - c' <= all - c - {l};
    SubsetSize(all - c', all - c - {l});
  }

  lemma Finished(start: seq<Literal>, rules: Rules, c: set<Literal>, done: set<Literal>, missing: Missing)
    requires RulesOk(rules) && StateOk(start, rules, c, missing, done) && Fixed(true) in c && Fixed(false) !in c
    requires forall l :: l in start && l != Fixed(false) ==> l in c
    requires forall l :: l in c ==> l == Fixed(true) || l in done
    ensures LeastClosed(start, rules, c)
  {
    hide Follows;
    var k := Wide(c);
    forall s, r, o | Rule(rules, s, r, o) && s in k && o in k && r != Fixed(false) ensures r in k {
      assert Folded(s, r, o);
    }
  }
}
