/** Which test goal a run satisfies: the closure of what it is known to satisfy, then a scan over
    the identifiers that skips all choices sharing a missing goal. */
module GoalScan {
  import opened Basics
  import opened Cnf
  import opened GoalIds
  import opened KnownSats

  // ---------- blocks of identifiers ----------

  /** How many identifiers share the goals up to group `k`. */
  ghost function Block(sizes: seq<nat>, k: nat): nat
    requires k < |sizes|
  {
    Size(sizes[k + 1..])
  }

  lemma {:induction false} SizeSplit(sizes: seq<nat>, k: nat)
    requires k <= |sizes|
    ensures Size(sizes) == Size(sizes[..k]) * Size(sizes[k..])
    decreases |sizes|
  {
    if k > 0 {
      SizeSplit(sizes[1..], k - 1);
      assert sizes[..k][1..] == sizes[1..][..k - 1] && sizes[1..][k - 1..] == sizes[k..];
      var x, y := Size(sizes[..k][1..]), Size(sizes[k..]);
      assert sizes[0] * (x * y) == sizes[0] * x * y by { MulAssoc(sizes[0], x, y); }
    } else {
      assert sizes[..0] == [] && sizes[0..] == sizes;
    }
  }

  /** Later blocks divide earlier ones. */
  lemma BlockDivides(sizes: seq<nat>, j: nat, k: nat) returns (m: nat)
    requires Positive(sizes) && j <= k < |sizes|
    ensures Block(sizes, j) == m * Block(sizes, k) && m > 0 && Block(sizes, k) > 0
  {
    var rest := sizes[j + 1..];
    SizeSplit(rest, k - j);
    assert rest[k - j..] == sizes[k + 1..];
    m := Size(rest[..k - j]);
    SizePositive(rest[..k - j]);
    SizePositive(sizes[k + 1..]);
  }

  lemma DivMulAt(x: nat, m: nat, y: nat, s: nat, r: nat, n: nat)
    requires y < m && r < s && n == (x * m + y) * s + r
    ensures m * s > 0 && n / (m * s) == x && (n % (m * s)) / s == y
  {
    var big, z := m * s, y * s + r;
    assert z < big by { MulMono(y + 1, m, s); MulAdd(y, s); }
    assert n == x * big + z by { Distribute(x, m, y, s); }
    DivUnique(x, z, big);
    DivUnique(y, r, s);
  }

  lemma DivMul(n: nat, m: nat, s: nat)
    requires m > 0 && s > 0
    ensures m * s > 0 && n / (m * s) == (n / s) / m && (n % (m * s)) / s == (n / s) % m
  {
    var q, r := n / s, n % s;
    var x, y := q / m, q % m;
    assert q == x * m + y;
    assert n == q * s + r;
    DivMulAt(x, m, y, s, r, n);
  }

  /** Identifiers in one block share their digits up to group `k`. */
  lemma {:induction false} SameBlock(sizes: seq<nat>, n: nat, n': nat, k: nat)
    requires Positive(sizes) && k < |sizes| && Block(sizes, k) > 0 && n / Block(sizes, k) == n' / Block(sizes, k)
    ensures forall j :: 0 <= j <= k ==> Digits(sizes, n)[j] == Digits(sizes, n')[j]
    decreases |sizes|
  {
    var rest := sizes[1..];
    SizePositive(rest);
    if k > 0 {
      assert rest[k..] == sizes[k + 1..];
      SizeSplit(rest, k);
      var m, s := Size(rest[..k]), Block(sizes, k);
      SizePositive(rest[..k]);
      DivMul(n, m, s);
      DivMul(n', m, s);
      SameBlock(rest, n % Size(rest), n' % Size(rest), k - 1);
    }
  }

  // ---------- the scan ----------

  /** The goals of an identifier up to group `n` are all known. */
  ghost predicate KnownUpTo(row: seq<Literal>, known: set<Literal>, n: nat) {
    forall j :: 0 <= j < n && j < |row| ==> row[j] in known
  }

  ghost predicate AllKnown(row: seq<Literal>, known: set<Literal>) { forall l :: l in row ==> l in known }

  /** What `MakeIdMap` promises. */
  ghost predicate IdMap(groups: seq<seq<Literal>>, ids: seq<seq<Literal>>, skips: seq<nat>) {
    && |groups| > 0 && NoEmptyGroup(groups) && |ids| == Size(Sizes(groups)) && ListsChoices(groups, ids)
      && |skips| == |groups|
    && forall k :: 0 <= k < |groups| ==> skips[k] + 1 == Size(Sizes(groups)[k + 1..])
  }

  /** Inside a block, the goals that the block fixes are known. */
  ghost predicate Entered(groups: seq<seq<Literal>>, ids: seq<seq<Literal>>, known: set<Literal>, id: nat)
    requires id < |ids| && NoEmptyGroup(groups)
  {
    forall k :: 0 <= k < |groups| && Inside(Sizes(groups), k, id) ==> KnownUpTo(ids[id], known, k + 1)
  }

  ghost predicate Inside(sizes: seq<nat>, k: nat, id: nat)
    requires k < |sizes| && Positive(sizes)
  {
    SizePositive(sizes[k + 1..]);
    id % Block(sizes, k) != 0
  }

  lemma RowAt(groups: seq<seq<Literal>>, ids: seq<seq<Literal>>, skips: seq<nat>, id: nat)
    requires IdMap(groups, ids, skips) && id < |ids|
    ensures DigitsOk(Sizes(groups), Digits(Sizes(groups), id)) && ids[id] == Pick(groups, Digits(Sizes(groups), id))
      && |ids[id]| == |groups|
  {
    DigitsNumber(Sizes(groups), id);
  }

  lemma SameGoals(groups: seq<seq<Literal>>, ids: seq<seq<Literal>>, skips: seq<nat>, id: nat, id': nat, k: nat)
    requires IdMap(groups, ids, skips) && id < |ids| && id' < |ids| && k < |groups|
    requires Block(Sizes(groups), k) > 0 && id / Block(Sizes(groups), k) == id' / Block(Sizes(groups), k)
    ensures |ids[id]| == |ids[id']| == |groups| && forall j :: 0 <= j <= k ==> ids[id][j] == ids[id'][j]
  {
    hide Digits, ListsChoices, Block, Number, Size;
    RowAt(groups, ids, skips, id);
    RowAt(groups, ids, skips, id');
    SameBlock(Sizes(groups), id, id', k);
  }

  /** A whole block is skipped: its identifiers all lack the goal, and it ends within the list. */
  lemma SkipBlock(groups: seq<seq<Literal>>, ids: seq<seq<Literal>>, skips: seq<nat>, known: set<Literal>, id: nat,
                  k: nat)
    requires IdMap(groups, ids, skips) && id < |ids| && k < |groups| && k < |ids[id]| && ids[id][k] !in known
    requires Entered(groups, ids, known, id)
    ensures id + skips[k] < |ids| && forall i :: id <= i <= id + skips[k] ==> !AllKnown(ids[i], known)
  {
    hide ListsChoices, Size, Digits;
    var sizes := Sizes(groups);
    var s := Block(sizes, k);
    SizePositive(sizes[k + 1..]);
    assert !Inside(sizes, k, id);
    SizeSplit(sizes, k + 1);
    BlockEnd(id, Size(sizes[..k + 1]), s);
    forall i | id <= i <= id + skips[k] ensures !AllKnown(ids[i], known) {
      WithinBlock(id, i, s);
      SameGoals(groups, ids, skips, id, i, k);
      assert ids[i][k] in ids[i];
    }
  }

  lemma BlockEnd(id: nat, m: nat, s: nat)
    requires s > 0 && id % s == 0 && id < m * s
    ensures id + s <= m * s
  {
    DivLess(id, m, s);
    MulMono(id / s + 1, m, s);
    MulAdd(id / s, s);
  }

  lemma WithinBlock(id: nat, i: nat, s: nat)
    requires s > 0 && id % s == 0 && id <= i < id + s
    ensures id / s == i / s
  {
    var q := id / s;
    assert id == q * s && i == q * s + (i - id);
    DivUnique(q, i - id, s);
  }

  lemma NextQuotient(q: nat, m: nat)
    requires m > 0
    ensures if q % m + 1 < m then (q + 1) / m == q / m else q + 1 == (q / m) * m + m
  {
    var x, y := q / m, q % m;
    assert q == x * m + y;
    if y + 1 < m { DivUnique(x, y + 1, m); }
  }

  lemma StepQuotient(id: nat, s: nat)
    requires s > 0 && id % s == 0
    ensures id == (id / s) * s && (id + s) / s == id / s + 1
  {
    var q := id / s;
    MulAdd(q, s);
    DivUnique(q + 1, 0, s);
  }

  /** After a skip, a block that is not just being entered is the one before. */
  lemma SameOuter(id: nat, m: nat, s: nat)
    requires m > 0 && s > 0 && id % s == 0
    ensures m * s > 0 && ((id + s) % (m * s) != 0 ==> (id + s) / (m * s) == id / (m * s))
  {
    DivMul(id, m, s);
    StepQuotient(id, s);
    var q := id / s;
    NextQuotient(q, m);
    if q % m + 1 < m { DivMul(id + s, m, s); }
    else { AllFull(id, q, q / m, m, s); }
  }

  lemma AllFull(id: nat, q: nat, x: nat, m: nat, s: nat)
    requires m > 0 && s > 0 && id == q * s && q + 1 == x * m + m
    ensures m * s > 0 && (id + s) % (m * s) == 0
  {
    MulAdd(q, s);
    MulAdd(x, m);
    Distribute(x + 1, m, 0, s);
    MulMono(1, m, s);
    DivUnique(x + 1, 0, m * s);
  }

  lemma EnteredNext(groups: seq<seq<Literal>>, ids: seq<seq<Literal>>, skips: seq<nat>, known: set<Literal>, id: nat,
                    k: nat)
    requires IdMap(groups, ids, skips) && id < |ids| && k < |groups| && k < |ids[id]| && ids[id][k] !in known
      && KnownUpTo(ids[id], known, k)
    requires Entered(groups, ids, known, id) && id + skips[k] + 1 < |ids|
    ensures Entered(groups, ids, known, id + skips[k] + 1)
  {
    hide ListsChoices, Size, Digits;
    var sizes := Sizes(groups);
    var next := id + skips[k] + 1;
    var s := Block(sizes, k);
    SizePositive(sizes[k + 1..]);
    assert !Inside(sizes, k, id);
    forall j | 0 <= j < |groups| && Inside(sizes, j, next) ensures KnownUpTo(ids[next], known, j + 1) {
      if j < k {
        var m := BlockDivides(sizes, j, k);
        SameOuter(id, m, s);
        SameGoals(groups, ids, skips, id, next, j);
      } else { NotInside(sizes, k, j, id, next); }
    }
  }

  lemma NotInside(sizes: seq<nat>, k: nat, j: nat, id: nat, next: nat)
    requires Positive(sizes) && k <= j < |sizes| && Block(sizes, k) > 0 && id % Block(sizes, k) == 0
      && next == id + Block(sizes, k)
    ensures !Inside(sizes, j, next)
  {
    var m := BlockDivides(sizes, k, j);
    var s, q := Block(sizes, j), id / Block(sizes, k);
    assert next == (q + 1) * (m * s) by { MulAdd(q, m * s); }
    MulAssoc(q + 1, m, s);
    DivUnique((q + 1) * m, 0, s);
  }

  /** The position of the first goal that is not known, if any. */
  method FirstMissing(row: seq<Literal>, known: KnownSat) returns (found: bool, k: nat)
    requires known.Valid() && forall l :: l in row ==> PositiveVar(l)
    ensures found <==> AllKnown(row, known.contents)
    ensures !found ==> k < |row| && row[k] !in known.contents && KnownUpTo(row, known.contents, k)
  {
    found, k := true, 0;
    while found && k < |row|
      invariant 0 <= k <= |row| && (found ==> KnownUpTo(row, known.contents, k))
      invariant !found ==> 0 < k && row[k - 1] !in known.contents && KnownUpTo(row, known.contents, k - 1)
      decreases |row| - k
    {
      found := known.Has(row[k]);
      k := k + 1;
    }
    if !found { k := k - 1; }
  }

  /** The skipping scan finds the first identifier all of whose goals are known, as a scan over the
      whole list would, and stays within the list. */
  method Scan(groups: seq<seq<Literal>>, ids: seq<seq<Literal>>, skips: seq<nat>, known: KnownSat)
    returns (found: bool, id: nat)
    requires IdMap(groups, ids, skips) && known.Valid() && forall row, l :: row in ids && l in row ==> PositiveVar(l)
    ensures found ==> id < |ids| && AllKnown(ids[id], known.contents) && forall i :: 0 <= i < id ==>
      !AllKnown(ids[i], known.contents)
    ensures !found ==> id == |ids| && forall i :: 0 <= i < |ids| ==> !AllKnown(ids[i], known.contents)
  {
    hide IdMap, AllKnown, KnownUpTo, Entered;
    id := 0;
    StartEntered(groups, ids, skips, known.contents);
    while id < |ids|
      invariant id <= |ids| && (id < |ids| ==> Entered(groups, ids, known.contents, id))
      invariant forall i :: 0 <= i < id ==> !AllKnown(ids[i], known.contents)
    {
      assert ids[id] in ids;
      var k;
      found, k := FirstMissing(ids[id], known);
      if found { return; }
      SkipsMatch(groups, ids, skips, id);
      SkipBlock(groups, ids, skips, known.contents, id, k);
      if id + skips[k] + 1 < |ids| { EnteredNext(groups, ids, skips, known.contents, id, k); }
      id := id + skips[k] + 1;
    }
    found := false;
  }

  lemma StartEntered(groups: seq<seq<Literal>>, ids: seq<seq<Literal>>, skips: seq<nat>, known: set<Literal>)
    requires IdMap(groups, ids, skips)
    ensures NoEmptyGroup(groups) && |ids| > 0 && Entered(groups, ids, known, 0)
  {
    var sizes := Sizes(groups);
    SizePositive(sizes);
    forall k | 0 <= k < |sizes| ensures !Inside(sizes, k, 0) {
      SizePositive(sizes[k + 1..]);
      DivUnique(0, 0, Block(sizes, k));
    }
  }

  lemma SkipsMatch(groups: seq<seq<Literal>>, ids: seq<seq<Literal>>, skips: seq<nat>, id: nat)
    requires IdMap(groups, ids, skips) && id < |ids|
    ensures |ids[id]| == |skips| == |groups|
  {
    RowAt(groups, ids, skips, id);
  }

  /** The goal a run is credited with: the first identifier whose goals are all in the least set
      that contains what the run satisfies and is closed under conjunctions. */
  method SatisfiedGoal(start: seq<Literal>, rules: Rules, groups: seq<seq<Literal>>)
    returns (found: bool, id: nat, ids: seq<seq<Literal>>)
    requires RulesOk(rules) && (forall l :: l in start ==> PositiveVar(l))
      && forall g, l :: g in groups && l in g ==> PositiveVar(l)
    ensures (|groups| > 0 && NoEmptyGroup(groups) && |ids| == Size(Sizes(groups)) && ListsChoices(groups, ids))
      || (!found && ids == [])
    ensures exists c :: LeastClosed(start, rules, c)
    ensures forall c :: LeastClosed(start, rules, c) ==>
      if found then id < |ids| && AllKnown(ids[id], c) && forall i :: 0 <= i < id ==> !AllKnown(ids[i], c)
      else forall i :: 0 <= i < |ids| ==> !AllKnown(ids[i], c)
  {
    hide LeastClosed, AllKnown, RulesOk, ListsChoices, Size;
    var skips;
    ids, skips := MakeIdMap(groups);
    var known := Close(start, rules);
    forall c | LeastClosed(start, rules, c) ensures c == known.contents {
      LeastUnique(start, rules, c, known.contents);
    }
    found, id := false, 0;
    if |ids| > 0 {
      PositiveRows(groups, ids, skips);
      found, id := Scan(groups, ids, skips, known);
    }
  }

  lemma LeastUnique(start: seq<Literal>, rules: Rules, c: set<Literal>, d: set<Literal>)
    requires LeastClosed(start, rules, c) && LeastClosed(start, rules, d)
    ensures c == d
  {
    var x, y := iset l | l in c, iset l | l in d;
    assert forall l :: l in d ==> l in x;
    assert forall l :: l in c ==> l in y;
  }

  lemma PositiveRows(groups: seq<seq<Literal>>, ids: seq<seq<Literal>>, skips: seq<nat>)
    requires IdMap(groups, ids, skips) && forall g, l :: g in groups && l in g ==> PositiveVar(l)
    ensures forall row, l :: row in ids && l in row ==> PositiveVar(l)
  {
    forall row, l | row in ids && l in row ensures PositiveVar(l) {
      var id :| 0 <= id < |ids| && ids[id] == row;
      RowAt(groups, ids, skips, id);
      var k :| 0 <= k < |row| && row[k] == l;
      assert groups[k] in groups && l in groups[k];
    }
  }
}
