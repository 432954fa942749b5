/** Test-goal identifiers: the product of the goal groups as a list, and how far a scan may skip. */
module GoalIds {
  import opened Basics

  // ---------- mixed-radix numbers ----------

  function Size(sizes: seq<nat>): nat { if |sizes| == 0 then 1 else sizes[0] * Size(sizes[1..]) }

  ghost predicate DigitsOk(sizes: seq<nat>, d: seq<nat>) {
    |d| == |sizes| && forall k :: 0 <= k < |d| ==> d[k] < sizes[k]
  }

  ghost function Number(sizes: seq<nat>, d: seq<nat>): nat
    requires |d| == |sizes|
  {
    if |d| == 0 then 0 else d[0] * Size(sizes[1..]) + Number(sizes[1..], d[1..])
  }

  ghost predicate Positive(sizes: seq<nat>) { forall k :: 0 <= k < |sizes| ==> sizes[k] > 0 }

  ghost function Digits(sizes: seq<nat>, n: nat): (d: seq<nat>)
    requires Positive(sizes)
    ensures |d| == |sizes|
  {
    if |sizes| == 0 then []
    else
      SizePositive(sizes[1..]);
      [n / Size(sizes[1..])] + Digits(sizes[1..], n % Size(sizes[1..]))
  }

  lemma {:induction false} SizePositive(sizes: seq<nat>)
    requires Positive(sizes)
    ensures Size(sizes) > 0
    decreases |sizes|
  {
    if |sizes| > 0 {
      SizePositive(sizes[1..]);
      MulMono(1, sizes[0], Size(sizes[1..]));
    }
  }

  /** Digits and numbers below the size correspond one to one. */
  lemma {:induction false} NumberDigits(sizes: seq<nat>, d: seq<nat>)
    requires Positive(sizes) && DigitsOk(sizes, d)
    ensures Number(sizes, d) < Size(sizes) && Digits(sizes, Number(sizes, d)) == d
    decreases |sizes|
  {
    if |sizes| > 0 {
      var rest := sizes[1..];
      NumberDigits(rest, d[1..]);
      var s := Size(rest);
      DivUnique(d[0], Number(rest, d[1..]), s);
      MulMono(d[0] + 1, sizes[0], s);
      MulAdd(d[0], s);
    }
  }

  lemma SizeFirst(sizes: seq<nat>)
    requires |sizes| > 0
    ensures Size(sizes) == sizes[0] * Size(sizes[1..])
  {
  }

  /** A first digit and the digits of the rest. */
  lemma FirstDigit(sizes: seq<nat>, n: nat, q: nat, e: seq<nat>)
    requires |sizes| > 0 && Positive(sizes) && Size(sizes[1..]) > 0 && n / Size(sizes[1..]) == q && q < sizes[0]
    requires e == Digits(sizes[1..], n % Size(sizes[1..])) && DigitsOk(sizes[1..], e)
    ensures Digits(sizes, n) == [q] + e && DigitsOk(sizes, [q] + e)
    ensures Number(sizes, [q] + e) == q * Size(sizes[1..]) + Number(sizes[1..], e)
  {
    assert ([q] + e)[1..] == e;
    forall k | 0 <= k < |sizes| ensures ([q] + e)[k] < sizes[k] { if k > 0 { assert e[k - 1] < sizes[1..][k - 1]; } }
  }

  lemma {:induction false} DigitsNumber(sizes: seq<nat>, n: nat)
    requires Positive(sizes) && n < Size(sizes)
    ensures DigitsOk(sizes, Digits(sizes, n)) && Number(sizes, Digits(sizes, n)) == n
    decreases |sizes|
  {
    if |sizes| > 0 {
      SizeFirst(sizes);
      hide Size, Digits, Number, DigitsOk;
      var rest := sizes[1..];
      SizePositive(rest);
      var s := Size(rest);
      DivLess(n, sizes[0], s);
      var q, r := Divide(n, s);
      DigitsNumber(rest, r);
      FirstDigit(sizes, n, q, Digits(rest, r));
    }
  }

  ghost predicate LexLess(d: seq<nat>, e: seq<nat>)
    requires |d| == |e|
  {
    |d| > 0 && (d[0] < e[0] || (d[0] == e[0] && LexLess(d[1..], e[1..])))
  }

  /** The order of the numbers is the lexicographic order of the digits. */
  lemma {:induction false} LexicographicOrder(sizes: seq<nat>, d: seq<nat>, e: seq<nat>)
    requires Positive(sizes) && DigitsOk(sizes, d) && DigitsOk(sizes, e)
    ensures Number(sizes, d) < Number(sizes, e) <==> LexLess(d, e)
    decreases |sizes|
  {
    if |sizes| > 0 {
      var rest := sizes[1..];
      LexicographicOrder(rest, d[1..], e[1..]);
      NumberDigits(rest, d[1..]);
      NumberDigits(rest, e[1..]);
      var s := Size(rest);
      if d[0] < e[0] { MulMono(d[0] + 1, e[0], s); MulAdd(d[0], s); }
      if e[0] < d[0] { MulMono(e[0] + 1, d[0], s); MulAdd(e[0], s); }
    }
  }

  // ---------- counting up ----------

  /** The digits from `p` on are as large as they can be. */
  ghost predicate Full(sizes: seq<nat>, d: seq<nat>, p: nat)
    requires |d| == |sizes|
  {
    forall k :: p <= k < |d| ==> d[k] + 1 == sizes[k]
  }

  ghost function Zeros(n: nat): (z: seq<nat>)
    ensures |z| == n
  { seq(n, i => 0) }

  lemma {:induction false} FullNumber(sizes: seq<nat>, d: seq<nat>)
    requires DigitsOk(sizes, d) && Full(sizes, d, 0)
    ensures Number(sizes, d) + 1 == Size(sizes)
    decreases |sizes|
  {
    if |sizes| > 0 {
      FullNumber(sizes[1..], d[1..]);
      MulAdd(d[0], Size(sizes[1..]));
    }
  }

  lemma {:induction false} ZeroNumber(sizes: seq<nat>)
    ensures Number(sizes, Zeros(|sizes|)) == 0
    decreases |sizes|
  {
    if |sizes| > 0 {
      ZeroNumber(sizes[1..]);
      assert Zeros(|sizes|)[1..] == Zeros(|sizes| - 1);
    }
  }

  /** Stepping the digit before the full ones and clearing those adds one. */
  lemma {:induction false} Carry(sizes: seq<nat>, d: seq<nat>, p: nat)
    requires DigitsOk(sizes, d) && p < |d| && d[p] + 1 < sizes[p] && Full(sizes, d, p + 1)
    ensures Number(sizes, d[..p] + [d[p] + 1] + Zeros(|d| - p - 1)) == Number(sizes, d) + 1
    decreases |sizes|
  {
    var e := d[..p] + [d[p] + 1] + Zeros(|d| - p - 1);
    if p == 0 {
      FullNumber(sizes[1..], d[1..]);
      ZeroNumber(sizes[1..]);
      assert e[1..] == Zeros(|d| - 1);
      MulAdd(d[0], Size(sizes[1..]));
    } else {
      Carry(sizes[1..], d[1..], p - 1);
      assert e[1..] == d[1..][..p - 1] + [d[p] + 1] + Zeros(|d| - p - 1);
    }
  }

  // ---------- the list of identifiers ----------

  ghost function Sizes<T>(groups: seq<seq<T>>): (s: seq<nat>)
    ensures |s| == |groups|
  {
    seq(|groups|, k requires 0 <= k < |groups| => |groups[k]|)
  }

  ghost predicate NoEmptyGroup<T>(groups: seq<seq<T>>) { forall k :: 0 <= k < |groups| ==> |groups[k]| > 0 }

  /** One goal of every group. */
  ghost function Pick<T>(groups: seq<seq<T>>, d: seq<nat>): seq<T>
    requires DigitsOk(Sizes(groups), d)
  {
    seq(|groups|, k requires 0 <= k < |groups| => groups[k][d[k]])
  }

  /** The identifiers are numbered like the choices of goals. */
  ghost predicate ListsChoices<T>(groups: seq<seq<T>>, ids: seq<seq<T>>) {
    forall d :: DigitsOk(Sizes(groups), d) && Number(Sizes(groups), d) < |ids| ==>
      ids[Number(Sizes(groups), d)] == Pick(groups, d)
  }

  method PickAll<T>(groups: seq<seq<T>>, ptrs: seq<nat>) returns (r: seq<T>)
    requires DigitsOk(Sizes(groups), ptrs)
    ensures r == Pick(groups, ptrs)
  {
    r := [];
    for k := 0 to |groups|
      invariant |r| == k && forall j :: 0 <= j < k ==> r[j] == groups[j][ptrs[j]]
    {
      r := r + [groups[k][ptrs[k]]];
    }
  }

  /** Moves the pointers to the next choice; past the last choice all of them are at their ends. */
  method Advance<T>(groups: seq<seq<T>>, ptrs: seq<nat>) returns (ptrs': seq<nat>)
    requires |groups| > 0 && NoEmptyGroup(groups) && DigitsOk(Sizes(groups), ptrs)
    ensures if Number(Sizes(groups), ptrs) + 1 == Size(Sizes(groups))
      then |ptrs'| == |groups| && forall k :: 0 <= k < |groups| ==> ptrs'[k] == |groups[k]|
      else DigitsOk(Sizes(groups), ptrs') && Number(Sizes(groups), ptrs') == Number(Sizes(groups), ptrs) + 1
  {
    ghost var sizes := Sizes(groups);
    var n := |groups|;
    ptrs' := ptrs;
    var rindex := n;
    while rindex > 0
      invariant 0 <= rindex <= n && |ptrs'| == n
      invariant forall k :: 0 <= k < rindex ==> ptrs'[k] == ptrs[k]
      invariant forall k :: rindex <= k < n ==> ptrs'[k] == sizes[k] == ptrs[k] + 1
    {
      ptrs' := ptrs'[rindex - 1 := ptrs'[rindex - 1] + 1];
      if ptrs'[rindex - 1] != |groups[rindex - 1]| { break; }
      rindex := rindex - 1;
    }
    if rindex == 0 { FullNumber(sizes, ptrs); return; }
    for k := rindex to n
      invariant |ptrs'| == n && forall j :: 0 <= j < n ==>
        ptrs'[j] ==
          (if j < rindex - 1 then ptrs[j] else if j == rindex - 1 then ptrs[j] + 1 else if j < k then 0 else sizes[j])
    {
      ptrs' := ptrs'[k := 0];
    }
    ghost var p := rindex - 1;
    Carry(sizes, ptrs, p);
    assert ptrs' == ptrs[..p] + [ptrs[p] + 1] + Zeros(n - p - 1);
    NumberDigits(sizes, ptrs');
  }

  /** All choices of one goal per group, in lexicographic order. */
  method MakeIds<T>(groups: seq<seq<T>>) returns (ids: seq<seq<T>>)
    requires |groups| > 0 && NoEmptyGroup(groups)
    ensures |ids| == Size(Sizes(groups)) && ListsChoices(groups, ids)
  {
    hide Pick;
    ghost var sizes := Sizes(groups);
    var ptrs := seq(|groups|, k => 0);
    ids := [];
    assert ptrs == Zeros(|sizes|);
    ZeroNumber(sizes);
    NumberDigits(sizes, ptrs);
    while ptrs[0] != |groups[0]|
      invariant |ptrs| == |groups| && |ids| <= Size(sizes) && ListsChoices(groups, ids)
      invariant if |ids| == Size(sizes) then ptrs[0] == |groups[0]|
        else DigitsOk(sizes, ptrs) && Number(sizes, ptrs) == |ids|
      decreases Size(sizes) - |ids|
    {
      var row := PickAll(groups, ptrs);
      ListsOne(groups, ids, ptrs, row);
      NumberDigits(sizes, ptrs);
      ids := ids + [row];
      ptrs := Advance(groups, ptrs);
    }
  }

  lemma ListsOne<T>(groups: seq<seq<T>>, ids: seq<seq<T>>, d: seq<nat>, row: seq<T>)
    requires NoEmptyGroup(groups) && ListsChoices(groups, ids) && DigitsOk(Sizes(groups), d)
      && Number(Sizes(groups), d) == |ids| && row == Pick(groups, d)
    ensures ListsChoices(groups, ids + [row])
  {
    hide Pick;
    var sizes := Sizes(groups);
    forall e | DigitsOk(sizes, e) && Number(sizes, e) < |ids| + 1
      ensures (ids + [row])[Number(sizes, e)] == Pick(groups, e) {
      if Number(sizes, e) == |ids| { NumberDigits(sizes, d); NumberDigits(sizes, e); }
    }
  }

  /** How far to skip when the goal of a group is missing: one less than the number of choices for
      the later groups. */
  method MakeSkips<T>(groups: seq<seq<T>>) returns (skips: seq<nat>)
    requires NoEmptyGroup(groups)
    ensures |skips| == |groups| && forall k :: 0 <= k < |groups| ==> skips[k] + 1 == Size(Sizes(groups)[k + 1..])
  {
    ghost var sizes := Sizes(groups);
    skips := seq(|groups|, k => 0);
    var prec, k := 1, |groups|;
    assert sizes[k..] == [];
    while k > 0
      invariant 0 <= k <= |groups| && |skips| == |groups| && prec == Size(sizes[k..]) && prec > 0
      invariant forall j :: k <= j < |groups| ==> skips[j] + 1 == Size(sizes[j + 1..])
    {
      k := k - 1;
      skips := skips[k := prec - 1];
      assert sizes[k..][1..] == sizes[k + 1..];
      prec := prec * |groups[k]|;
      SizePositive(sizes[k..]);
    }
  }

  /** Identifiers and skips; there are none without groups or with an empty group. */
  method MakeIdMap<T>(groups: seq<seq<T>>) returns (ids: seq<seq<T>>, skips: seq<nat>)
    ensures |groups| > 0 && NoEmptyGroup(groups) ==>
      && |ids| == Size(Sizes(groups)) && ListsChoices(groups, ids) && |skips| == |groups|
      && forall k :: 0 <= k < |groups| ==> skips[k] + 1 == Size(Sizes(groups)[k + 1..])
    ensures !(|groups| > 0 && NoEmptyGroup(groups)) ==> ids == [] && skips == []
  {
    ids, skips := [], [];
    for k := 0 to |groups|
      invariant forall j :: 0 <= j < k ==> |groups[j]| > 0
    {
      if |groups[k]| == 0 { return; }
    }
    if |groups| == 0 { return; }
    ids := MakeIds(groups);
    skips := MakeSkips(groups);
  }
}
