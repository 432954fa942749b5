/** The indexed binary heap behind the decision order. */
module Heaps {

  type Order = (nat, nat) -> bool

  /** A strict weak order: asymmetric, and "not above" is transitive. */
  ghost predicate StrictWeak(lt: Order) {
    && (forall x, y :: lt(x, y) ==> !lt(y, x))
    && (forall x, y, z {:trigger lt(y, x), lt(z, y)} :: !lt(y, x) && !lt(z, y) ==> !lt(z, x))
  }

  function Left(i: nat): nat { 2 * i + 1 }
  function Right(i: nat): nat { 2 * (i + 1) }
  function Parent(i: nat): nat { if i == 0 then 0 else (i - 1) / 2 }

  /** Position `j` does not go above its parent. */
  ghost predicate InOrder(lt: Order, h: seq<nat>, j: nat) {
    0 < j < |h| ==> !lt(h[j], h[Parent(j)])
  }

  /** Heap order below `lo`; with `lo == 0` this is heap order. */
  ghost predicate OrderedFrom(lt: Order, h: seq<nat>, lo: nat) {
    forall j {:trigger InOrder(lt, h, j)} :: 0 < j < |h| && lo <= Parent(j) ==> InOrder(lt, h, j)
  }

  /** The children of `i` do not go above the parent of `i`. */
  ghost predicate Bridged(lt: Order, h: seq<nat>, i: nat, j: nat) {
    0 < i < |h| && 0 < j < |h| && Parent(j) == i ==> !lt(h[j], h[Parent(i)])
  }

  /** Heap order everywhere below `lo` except between `i` and its neighbours. */
  ghost predicate OrderedAround(lt: Order, h: seq<nat>, lo: nat, i: nat) {
    && (forall j {:trigger InOrder(lt, h, j)} ::
          0 < j < |h| && lo <= Parent(j) && j != i && Parent(j) != i ==> InOrder(lt, h, j))
    && (i > 0 && lo <= Parent(i) ==> forall j {:trigger Bridged(lt, h, i, j)} :: Bridged(lt, h, i, j))
  }

  ghost predicate ChildrenOk(lt: Order, h: seq<nat>, i: nat) {
    forall j {:trigger InOrder(lt, h, j)} :: 0 < j < |h| && Parent(j) == i ==> InOrder(lt, h, j)
  }

  /** `ind` is the exact inverse of `h`, with -1 for absent elements. */
  ghost predicate Inverse(h: seq<nat>, ind: seq<int>) {
    && (forall i :: 0 <= i < |h| ==> h[i] < |ind| && ind[h[i]] == i)
    && (forall x :: 0 <= x < |ind| && ind[x] != -1 ==> 0 <= ind[x] < |h| && h[ind[x]] == x)
  }

  ghost predicate SamePresence(a: seq<int>, b: seq<int>) {
    |a| == |b| && forall x :: 0 <= x < |a| ==> (a[x] == -1 <==> b[x] == -1)
  }

  ghost function Swapped(h: seq<nat>, i: nat, j: nat): seq<nat>
    requires i < |h| && j < |h|
  { h[i := h[j]][j := h[i]] }

  lemma SwapInverse(h: seq<nat>, ind: seq<int>, i: nat, j: nat)
    requires Inverse(h, ind) && i < |h| && j < |h| && i != j
    ensures Inverse(Swapped(h, i, j), ind[h[j] := i][h[i] := j])
    ensures SamePresence(ind, ind[h[j] := i][h[i] := j])
  {
    assert h[i] != h[j] by { assert ind[h[i]] == i && ind[h[j]] == j; }
  }

  lemma StepUp(lt: Order, h: seq<nat>, i: nat)
    requires StrictWeak(lt) && 0 < i < |h| && OrderedAround(lt, h, 0, i) && ChildrenOk(lt, h, i)
    requires lt(h[i], h[Parent(i)])
    ensures OrderedAround(lt, Swapped(h, i, Parent(i)), 0, Parent(i))
    ensures ChildrenOk(lt, Swapped(h, i, Parent(i)), Parent(i))
  {
    var p := Parent(i);
    var g := Swapped(h, i, p);
    forall j | 0 < j < |g| && j != p ensures InOrder(lt, g, j) {
      if j != i { assert InOrder(lt, h, j); }
      if Parent(j) == i { assert Bridged(lt, h, i, j); }
    }
    if p > 0 {
      assert InOrder(lt, h, p);
      forall j: nat ensures Bridged(lt, g, p, j) {
        if 0 < j < |g| && Parent(j) == p && j != i { assert InOrder(lt, h, j); }
      }
    }
  }

  lemma DoneUp(lt: Order, h: seq<nat>, i: nat)
    requires StrictWeak(lt) && i < |h| && OrderedAround(lt, h, 0, i) && InOrder(lt, h, i)
    ensures ChildrenOk(lt, h, i) ==> OrderedFrom(lt, h, 0)
  {
  }

  lemma StepDown(lt: Order, h: seq<nat>, lo: nat, i: nat, c: nat)
    requires StrictWeak(lt) && lo <= i < |h| && OrderedAround(lt, h, lo, i)
    requires lo <= Parent(i) ==> InOrder(lt, h, i)
    requires c == Left(i) || c == Right(i)
    requires c < |h| && lt(h[c], h[i])
    requires forall j :: 0 < j < |h| && Parent(j) == i ==> !lt(h[j], h[c])
    ensures OrderedAround(lt, Swapped(h, i, c), lo, c)
    ensures InOrder(lt, Swapped(h, i, c), c)
  {
    var g := Swapped(h, i, c);
    assert Parent(c) == i;
    forall j | 0 < j < |g| && lo <= Parent(j) && j != c && Parent(j) != c ensures InOrder(lt, g, j) {
      if Parent(j) != i { assert InOrder(lt, h, j); }
      if j == i { assert Bridged(lt, h, i, c); }
    }
    forall j: nat ensures Bridged(lt, g, c, j) {
      if 0 < j < |g| && Parent(j) == c { assert InOrder(lt, h, j); }
    }
  }

  lemma DoneDown(lt: Order, h: seq<nat>, lo: nat, i: nat)
    requires OrderedAround(lt, h, lo, i) && ChildrenOk(lt, h, i)
    requires lo <= Parent(i) ==> InOrder(lt, h, i)
    ensures OrderedFrom(lt, h, lo)
  {
  }

  /** The root of an ordered heap is a least element. */
  lemma RootLeast(lt: Order, h: seq<nat>, j: nat)
    requires StrictWeak(lt) && OrderedFrom(lt, h, 0) && j < |h|
    ensures !lt(h[j], h[0])
  {
    if j > 0 { RootLeast(lt, h, Parent(j)); assert InOrder(lt, h, j); }
  }

  class Heap {
    var lt: Order
    var heap: seq<nat>
    var indices: seq<int>

    ghost predicate Valid() reads this {
      StrictWeak(lt) && OrderedFrom(lt, heap, 0) && Inverse(heap, indices)
    }

    ghost function Elems(): set<nat> reads this { set x | x in heap }

    constructor (lt: Order)
      requires StrictWeak(lt)
      ensures Valid() && heap == [] && this.lt == lt
    {
      this.lt := lt;
      heap, indices := [], [];
    }

    predicate InHeap(n: nat)
      reads this
      requires Valid()
      ensures InHeap(n) <==> n in Elems()
    {
      n < |indices| && indices[n] >= 0
    }

    /** Moves the element at `i` up to its place. */
    method PercolateUp(i: nat)
      requires StrictWeak(lt) && Inverse(heap, indices) && i < |heap| && OrderedAround(lt, heap, 0, i)
      requires ChildrenOk(lt, heap, i) || InOrder(lt, heap, i) || (i > 0 && lt(heap[i], heap[Parent(i)]))
      modifies this`heap, this`indices
      ensures Inverse(heap, indices) && SamePresence(old(indices), indices) && |heap| == old(|heap|)
      ensures old(ChildrenOk(lt, heap, i)) || old(i > 0 && lt(heap[i], heap[Parent(i)])) ==> OrderedFrom(lt, heap, 0)
      ensures old(InOrder(lt, heap, i)) ==> heap == old(heap) && indices == old(indices)
    {
      hide StrictWeak, OrderedAround, ChildrenOk, OrderedFrom, HoleAt, Inverse, SamePresence;
      var x := heap[i];
      var k := i;
      if k > 0 && lt(x, heap[Parent(k)]) { UpChildren(lt, heap, k); }
      ghost var h, ind := heap, indices;
      HoleStart(heap, indices, k);
      while k != 0 && lt(x, heap[Parent(k)])
        invariant k <= i && |h| == |heap| == old(|heap|) && SamePresence(old(indices), ind)
        invariant HoleAt(heap, indices, h, ind, k, x) && OrderedAround(lt, h, 0, k)
        invariant old(ChildrenOk(lt, heap, i)) || old(i > 0 && lt(heap[i], heap[Parent(i)])) ==> ChildrenOk(lt, h, k)
        invariant k != i ==> old(i > 0 && lt(heap[i], heap[Parent(i)]))
        invariant k == i ==> heap == old(heap) && indices == old(indices)
      {
        var p := Parent(k);
        HoleMoves(heap, indices, h, ind, k, x, p, old(indices));
        StepUp(lt, h, k);
        h, ind := Swapped(h, k, p), ind[heap[p] := k][x := p];
        heap := heap[k := heap[p]];
        indices := indices[heap[p] := k];
        k := p;
      }
      HoleFilled(heap, indices, h, ind, k, x);
      DoneUp(lt, h, k);
      heap := heap[k := x];
      indices := indices[x := k];
    }

    /** Moves the element at `i` down to its place. */
    method PercolateDown(i: nat, ghost lo: nat)
      requires StrictWeak(lt) && Inverse(heap, indices) && lo <= i < |heap| && OrderedAround(lt, heap, lo, i)
      requires lo <= Parent(i) ==> InOrder(lt, heap, i)
      modifies this`heap, this`indices
      ensures Inverse(heap, indices) && SamePresence(old(indices), indices) && |heap| == old(|heap|)
      ensures OrderedFrom(lt, heap, lo)
    {
      hide StrictWeak, OrderedAround, ChildrenOk, OrderedFrom, HoleAt, Inverse, SamePresence;
      var x := heap[i];
      var k := i;
      ghost var h, ind := heap, indices;
      HoleStart(heap, indices, k);
      while Left(k) < |heap|
        invariant lo <= k < |h| == |heap| == old(|heap|) && SamePresence(old(indices), ind)
        invariant HoleAt(heap, indices, h, ind, k, x)
        invariant OrderedAround(lt, h, lo, k) && (lo <= Parent(k) ==> InOrder(lt, h, k))
        decreases |heap| - k
      {
        var c := if Right(k) < |heap| && lt(heap[Right(k)], heap[Left(k)]) then Right(k) else Left(k);
        ChildPicked(lt, heap, indices, h, ind, k, x, c);
        HoleMoves(heap, indices, h, ind, k, x, c, old(indices));
        if !lt(heap[c], x) { SmallestChild(lt, h, k, c); break; }
        StepDown(lt, h, lo, k, c);
        h, ind := Swapped(h, k, c), ind[heap[c] := k][x := c];
        heap := heap[k := heap[c]];
        indices := indices[heap[k] := k];
        k := c;
      }
      if Left(k) >= |heap| { NoChildren(lt, h, k); }
      HoleFilled(heap, indices, h, ind, k, x);
      DoneDown(lt, h, lo, k);
      heap := heap[k := x];
      indices := indices[x := k];
    }

    method Insert(n: nat)
      requires Valid() && n !in Elems()
      modifies this`heap, this`indices
      ensures Valid() && Elems() == old(Elems()) + {n} && |indices| >= old(|indices|) && n < |indices|
    {
      assert n < |indices| ==> indices[n] == -1;
      indices := indices + seq(if n < |indices| then 0 else n + 1 - |indices|, _ => -1);
      indices := indices[n := |heap|];
      heap := heap + [n];
      assert Inverse(heap, indices);
      AppendOrder(lt, old(heap), n);
      ghost var was := indices;
      PercolateUp(|heap| - 1);
      PresenceElems(was, indices, old(heap) + [n], heap);
      AppendElems(old(heap), n);
    }

    method RemoveMin() returns (x: nat)
      requires Valid() && |heap| > 0
      modifies this`heap, this`indices
      ensures Valid() && x in old(Elems()) && Elems() == old(Elems()) - {x} && |indices| == old(|indices|)
      ensures forall y :: y in old(Elems()) ==> !lt(y, x)
    {
      forall y | y in Elems() ensures !lt(y, heap[0]) {
        var j :| 0 <= j < |heap| && heap[j] == y;
        RootLeast(lt, heap, j);
      }
      x := heap[0];
      var last := heap[|heap| - 1];
      RemoveInverse(heap, indices);
      heap := heap[0 := last];
      indices := indices[last := 0];
      indices := indices[x := -1];
      heap := heap[..|heap| - 1];
      RemoveOrder(lt, old(heap));
      ghost var h1, was := heap, indices;
      if |heap| > 1 {
        PercolateDown(0, 0);
      } else {
        assert forall j: nat :: InOrder(lt, heap, j);
      }
      PresenceElems(was, indices, h1, heap);
    }

    /** The order changes so that `n` moves towards the root; the heap is repaired. */
    method Decrease(n: nat, lt': Order)
      requires Valid() && StrictWeak(lt')
      requires forall x, y :: x != n && y != n ==> lt'(x, y) == lt(x, y)
      requires forall y :: !lt(y, n) ==> !lt'(y, n)
      modifies this
      ensures Valid() && lt == lt' && Elems() == old(Elems()) && |indices| == old(|indices|)
    {
      lt := lt';
      if n < |indices| && indices[n] >= 0 {
        var i := indices[n];
        forall j | 0 < j < |heap| && j != i ensures InOrder(lt', heap, j) { assert InOrder(old(lt), heap, j); }
        forall j: nat ensures Bridged(lt', heap, i, j) {
          if 0 < i < |heap| && 0 < j < |heap| && Parent(j) == i {
            assert InOrder(old(lt), heap, j) && InOrder(old(lt), heap, i);
          }
        }
        PercolateUp(i);
        PresenceElems(old(indices), indices, old(heap), heap);
      } else {
        assert forall i :: 0 <= i < |heap| ==> heap[i] != n;
        forall j | 0 < j < |heap| ensures InOrder(lt', heap, j) { assert InOrder(old(lt), heap, j); }
      }
    }

    /** The order changes at `n` in any way; `n` is inserted or moved to its place. */
    method Update(n: nat, lt': Order)
      requires Valid() && StrictWeak(lt')
      requires forall x, y :: x != n && y != n ==> lt'(x, y) == lt(x, y)
      modifies this
      ensures Valid() && lt == lt' && Elems() == old(Elems()) + {n} && |indices| >= old(|indices|)
    {
      hide StrictWeak, OrderedFrom, OrderedAround, ChildrenOk;
      if n < |indices| && indices[n] >= 0 {
        OrderElsewhere(lt, lt', heap, indices[n]);
        lt := lt';
        PercolateUp(indices[n]);
        ghost var h1, was := heap, indices;
        PresenceElems(old(indices), indices, old(heap), heap);
        AroundIfOrdered(lt, heap, indices[n]);
        PercolateDown(indices[n], 0);
        PresenceElems(was, indices, h1, heap);
        assert n in old(heap);
      } else {
        NotThere(heap, indices, n);
        OrderWithout(lt, lt', heap, n);
        lt := lt';
        Insert(n);
      }
    }

    /** Rebuilds the heap from the elements of `ns`. */
    method Build(ns: seq<nat>)
      requires Valid() && forall i, j :: 0 <= i < j < |ns| ==> ns[i] != ns[j]
      requires forall i :: 0 <= i < |ns| ==> ns[i] < |indices|
      modifies this`heap, this`indices
      ensures Valid() && Elems() == (set x | x in ns) && |indices| == old(|indices|)
    {
      var i := 0;
      while i < |heap|
        invariant i <= |heap| && |indices| == old(|indices|) && heap == old(heap)
        invariant forall x :: 0 <= x < |indices| && indices[x] != -1 ==>
          old(indices)[x] == indices[x] && i <= indices[x] < |heap|
      {
        indices := indices[heap[i] := -1];
        i := i + 1;
      }
      heap := [];
      i := 0;
      while i < |ns|
        invariant i <= |ns| && |indices| == old(|indices|) && heap == ns[..i] && Inverse(heap, indices)
      {
        indices := indices[ns[i] := i];
        heap := heap + [ns[i]];
        i := i + 1;
      }
      assert heap == ns;
      ghost var was := indices;
      var k: nat := |heap| / 2;
      assert OrderedFrom(lt, heap, k);
      while k > 0
        invariant k <= |heap| / 2 && |heap| == |ns| && Inverse(heap, indices) && SamePresence(was, indices)
        invariant OrderedFrom(lt, heap, k)
      {
        k := k - 1;
        PercolateDown(k, k);
      }
      PresenceElems(was, indices, ns, heap);
    }
  }

  /** A change of the order at one element leaves the others in order around it. */
  lemma OrderElsewhere(lt: Order, lt': Order, h: seq<nat>, i: nat)
    requires StrictWeak(lt) && OrderedFrom(lt, h, 0) && i < |h|
    requires forall a, b :: 0 <= a < b < |h| ==> h[a] != h[b]
    requires forall x, y :: x != h[i] && y != h[i] ==> lt'(x, y) == lt(x, y)
    ensures OrderedAround(lt', h, 0, i)
  {
    forall j | 0 < j < |h| && j != i && Parent(j) != i ensures InOrder(lt', h, j) { assert InOrder(lt, h, j); }
    forall j: nat ensures Bridged(lt', h, i, j) {
      if 0 < i && 0 < j < |h| && Parent(j) == i { assert InOrder(lt, h, j) && InOrder(lt, h, i); }
    }
  }

  lemma AroundIfOrdered(lt: Order, h: seq<nat>, i: nat)
    requires StrictWeak(lt) && i < |h|
    ensures OrderedFrom(lt, h, 0) ==> OrderedAround(lt, h, 0, i) && InOrder(lt, h, i)
  {
    if OrderedFrom(lt, h, 0) {
      forall j: nat ensures Bridged(lt, h, i, j) {
        if 0 < i && 0 < j < |h| && Parent(j) == i { assert InOrder(lt, h, j) && InOrder(lt, h, i); }
      }
    }
  }

  lemma OrderWithout(lt: Order, lt': Order, h: seq<nat>, n: nat)
    requires OrderedFrom(lt, h, 0) && n !in h && forall x, y :: x != n && y != n ==> lt'(x, y) == lt(x, y)
    ensures OrderedFrom(lt', h, 0)
  {
    forall j | 0 < j < |h| ensures InOrder(lt', h, j) { assert InOrder(lt, h, j); }
  }

  lemma NotThere(h: seq<nat>, ind: seq<int>, n: nat)
    requires Inverse(h, ind) && (n < |ind| ==> ind[n] < 0)
    ensures n !in h
  {
  }

  lemma UpChildren(lt: Order, h: seq<nat>, i: nat)
    requires StrictWeak(lt) && 0 < i < |h| && OrderedAround(lt, h, 0, i) && lt(h[i], h[Parent(i)])
    ensures ChildrenOk(lt, h, i)
  {
    forall j | 0 < j < |h| && Parent(j) == i ensures InOrder(lt, h, j) { assert Bridged(lt, h, i, j); }
  }

  /** `h` and `ind` are the heap and its inverse once the moving element `x` fills the hole at `k`. */
  ghost predicate HoleAt(heap: seq<nat>, indices: seq<int>, h: seq<nat>, ind: seq<int>, k: nat, x: nat) {
    && k < |heap| && x < |indices| && |ind| == |indices|
    && h == heap[k := x] && ind == indices[x := k] && Inverse(h, ind)
  }

  lemma HoleStart(heap: seq<nat>, indices: seq<int>, k: nat)
    requires Inverse(heap, indices) && k < |heap|
    ensures HoleAt(heap, indices, heap, indices, k, heap[k]) && SamePresence(indices, indices)
  {
    assert indices[heap[k]] == k;
  }

  /** Filling the hole at `k` from `p` and moving the hole to `p` swaps the two positions. */
  lemma HoleMoves(heap: seq<nat>, indices: seq<int>, h: seq<nat>, ind: seq<int>, k: nat, x: nat, p: nat, was: seq<int>)
    requires HoleAt(heap, indices, h, ind, k, x) && SamePresence(was, ind) && p < |heap| && p != k
    ensures |h| == |heap| && |ind| == |indices| && h[k] == x && h[p] == heap[p] && heap[p] < |indices| && x < |indices|
    ensures HoleAt(heap[k := heap[p]], indices[heap[p] := k], Swapped(h, k, p), ind[heap[p] := k][x := p], p, x)
    ensures SamePresence(was, ind[heap[p] := k][x := p])
  {
    SwapInverse(h, ind, k, p);
    assert x != heap[p] by { assert ind[h[k]] == k && ind[h[p]] == p; }
    assert Swapped(h, k, p) == heap[k := heap[p]][p := x];
    assert ind[heap[p] := k][x := p] == indices[heap[p] := k][x := p];
  }

  lemma ChildPicked(lt: Order, heap: seq<nat>, indices: seq<int>, h: seq<nat>, ind: seq<int>, k: nat, x: nat, c: nat)
    requires StrictWeak(lt) && HoleAt(heap, indices, h, ind, k, x) && Left(k) < |heap|
    requires c == if Right(k) < |heap| && lt(heap[Right(k)], heap[Left(k)]) then Right(k) else Left(k)
    ensures k < c < |heap| == |h| && forall j :: 0 < j < |h| && Parent(j) == k ==> !lt(h[j], h[c])
  {
    hide StrictWeak, Inverse;
    SmallerChild(lt, h, k, c);
  }

  lemma HoleFilled(heap: seq<nat>, indices: seq<int>, h: seq<nat>, ind: seq<int>, k: nat, x: nat)
    requires HoleAt(heap, indices, h, ind, k, x)
    ensures k < |heap| && x < |indices| && h == heap[k := x] && ind == indices[x := k] && Inverse(h, ind) && h[k] == x
    ensures k > 0 ==> h[Parent(k)] == heap[Parent(k)]
  {
  }


  lemma NoChildren(lt: Order, h: seq<nat>, i: nat)
    requires Left(i) >= |h|
    ensures ChildrenOk(lt, h, i)
  {
  }

  lemma SmallerChild(lt: Order, h: seq<nat>, i: nat, c: nat)
    requires StrictWeak(lt) && Left(i) < |h|
    requires c == if Right(i) < |h| && lt(h[Right(i)], h[Left(i)]) then Right(i) else Left(i)
    ensures forall j :: 0 < j < |h| && Parent(j) == i ==> !lt(h[j], h[c])
  {
    forall j | 0 < j < |h| && Parent(j) == i ensures !lt(h[j], h[c]) {
      assert j == Left(i) || j == Right(i);
    }
  }

  lemma SmallestChild(lt: Order, h: seq<nat>, i: nat, c: nat)
    requires StrictWeak(lt) && i < |h| && c < |h| && !lt(h[c], h[i])
    requires forall j :: 0 < j < |h| && Parent(j) == i ==> !lt(h[j], h[c])
    ensures ChildrenOk(lt, h, i)
  {
  }

  lemma AppendElems(h: seq<nat>, n: nat)
    ensures (set x | x in h + [n]) == (set x | x in h) + {n}
  {
  }

  lemma PresenceElems(a: seq<int>, b: seq<int>, g: seq<nat>, h: seq<nat>)
    requires SamePresence(a, b) && Inverse(g, a) && Inverse(h, b)
    ensures (set x | x in g) == (set x | x in h)
  {
    forall x ensures x in g <==> x in h {
      if x in g { assert a[x] != -1; assert h[b[x]] == x; }
      if x in h { assert b[x] != -1; assert g[a[x]] == x; }
    }
  }

  lemma AppendOrder(lt: Order, h: seq<nat>, n: nat)
    requires OrderedFrom(lt, h, 0)
    ensures OrderedAround(lt, h + [n], 0, |h|) && ChildrenOk(lt, h + [n], |h|)
  {
    forall j | 0 < j < |h| ensures InOrder(lt, h + [n], j) { assert InOrder(lt, h, j); }
    forall j: nat ensures Bridged(lt, h + [n], |h|, j) { }
  }

  lemma RemoveOrder(lt: Order, h: seq<nat>)
    requires OrderedFrom(lt, h, 0) && |h| > 0
    ensures OrderedAround(lt, h[0 := h[|h| - 1]][..|h| - 1], 0, 0)
  {
    var g := h[0 := h[|h| - 1]][..|h| - 1];
    forall j | 0 < j < |g| && Parent(j) != 0 ensures InOrder(lt, g, j) { assert InOrder(lt, h, j); }
  }

  lemma RemoveInverse(h: seq<nat>, ind: seq<int>)
    requires Inverse(h, ind) && |h| > 0
    ensures var last := h[|h| - 1];
      var g := h[0 := last][..|h| - 1];
      Inverse(g, ind[last := 0][h[0] := -1]) && (set x | x in g) == (set x | x in h) - {h[0]}
  {
    var last := h[|h| - 1];
    var g := h[0 := last][..|h| - 1];
    forall x | x in h && x != h[0] ensures x in g {
      assert g[if x == last then 0 else ind[x]] == x;
    }
  }
}
