/** The forest of partial Huffman trees while the two lightest trees are merged
    again and again. A node's weight word is 256 times the weight of its leaves,
    plus its height; nodes 1..n are the leaves, and node 0 is the sentinel. */
module HuffmanForest {
  import opened Bits
  import opened Heap

  function Wt(w: seq<int>, k: int): int {
    W(w, k) / 256
  }

  function Ht(w: seq<int>, k: int): int {
    W(w, k) % 256
  }

  function At(p: seq<int>, k: int): int {
    if 0 <= k < |p| then p[k] else -1
  }

  /** The least weight that a tree of height `k` can have. */
  function Fib(k: int): (r: int)
    ensures r >= 1
  {
    if k <= 0 then 1 else if k == 1 then 2 else Fib(k - 1) + Fib(k - 2)
  }

  lemma {:induction false} FibMonotone(j: int, k: int)
    requires j <= k
    ensures Fib(j) <= Fib(k)
    decreases k - j
  {
    if j < k {
      FibMonotone(j, k - 1);
    }
  }

  lemma FibValues()
    ensures Fib(13) == 610 && Fib(29) == 1346269
  {
    assert Fib(5) == 13 && Fib(6) == 21;
    assert Fib(9) == 89 && Fib(10) == 144;
    assert Fib(13) == 610 && Fib(14) == 987;
    assert Fib(17) == 4181 && Fib(18) == 6765;
    assert Fib(21) == 28657 && Fib(22) == 46368;
    assert Fib(25) == 196418 && Fib(26) == 317811;
  }

  /** Nodes 1..m: a node has a later node as its parent or is the root of a tree. */
  ghost predicate Parents(p: seq<int>, n: int, m: int) {
    forall k :: 1 <= k <= m ==> At(p, k) == -1 || (k < At(p, k) <= m && n < At(p, k))
  }

  /** The inner node `g` has exactly the two children `a` and `b`. */
  ghost predicate Children(p: seq<int>, m: int, g: int, a: int, b: int) {
    && 1 <= a < g && 1 <= b < g && a != b
    && forall k :: 1 <= k <= m ==> (At(p, k) == g <==> k == a || k == b)
  }

  ghost predicate TwoChildren(p: seq<int>, m: int, g: int) {
    exists a, b :: Children(p, m, g, a, b)
  }

  ghost predicate Binary(p: seq<int>, n: int, m: int) {
    forall g :: n < g <= m ==> TwoChildren(p, m, g)
  }

  predicate IsRoot(p: seq<int>, m: int, k: int) {
    1 <= k <= m && At(p, k) == -1
  }

  /** The heap holds the sentinel and every root, once. */
  ghost predicate Roots(h: seq<int>, p: seq<int>, m: int) {
    forall k :: multiset(h)[k] == if k == 0 || IsRoot(p, m, k) then 1 else 0
  }

  /** The weight of all trees together. */
  function RootSum(w: seq<int>, p: seq<int>, m: int): int
    decreases m
  {
    if m <= 0 then 0 else RootSum(w, p, m - 1) + (if At(p, m) == -1 then Wt(w, m) else 0)
  }

  /** Every node is as heavy as its height demands, and a parent is higher than
      its children. */
  ghost predicate Heavy(w: seq<int>, p: seq<int>, m: int) {
    forall k :: 1 <= k <= m ==> Fib(Ht(w, k)) <= Wt(w, k) && (At(p, k) != -1 ==> Ht(w, k) < Ht(w, At(p, k)))
  }

  /** The roots are not lighter than `last`, the weight taken out last, which is
      as heavy as a tree one lower than any root. */
  ghost predicate Since(w: seq<int>, p: seq<int>, m: int, last: int) {
    forall k :: IsRoot(p, m, k) ==> last <= W(w, k) && (Ht(w, k) >= 1 ==> Fib(Ht(w, k) - 1) <= last / 256)
  }

  /** The forest after `a` and `b` got the new parent `g`. */
  function Join(p: seq<int>, a: int, b: int, g: int): (r: seq<int>)
    requires 0 <= a < |p| && 0 <= b < |p| && 0 <= g < |p|
    ensures |r| == |p|
  {
    p[a := g][b := g][g := -1]
  }

  lemma JoinParents(p: seq<int>, n: int, m: int, a: int, b: int)
    requires Parents(p, n, m) && n <= m && m + 1 < |p| && 1 <= a <= m && 1 <= b <= m
    ensures Parents(Join(p, a, b, m + 1), n, m + 1)
  {
    var q := Join(p, a, b, m + 1);
    forall k | 1 <= k <= m + 1
      ensures At(q, k) == -1 || (k < At(q, k) <= m + 1 && n < At(q, k))
    {
      assert k <= m ==> At(p, k) == -1 || (k < At(p, k) <= m && n < At(p, k));
    }
  }

  lemma JoinBinary(p: seq<int>, n: int, m: int, a: int, b: int)
    requires Parents(p, n, m) && Binary(p, n, m) && 0 <= n <= m && m + 1 < |p|
    requires IsRoot(p, m, a) && IsRoot(p, m, b) && a != b
    ensures Binary(Join(p, a, b, m + 1), n, m + 1)
  {
    var top := m + 1;
    var q := Join(p, a, b, top);
    forall g | n < g <= top ensures TwoChildren(q, top, g) {
      if g == top {
        forall k | 1 <= k <= top ensures At(q, k) == g <==> k == a || k == b {
          assert k <= m ==> At(p, k) != g;
        }
        assert Children(q, top, g, a, b);
      } else {
        assert TwoChildren(p, m, g);
        var c, d :| Children(p, m, g, c, d);
        forall k | 1 <= k <= m + 1 ensures At(q, k) == g <==> k == c || k == d {
          assert k <= m ==> (At(p, k) == g <==> k == c || k == d);
        }
        assert Children(q, top, g, c, d);
      }
    }
  }

  lemma JoinRoots(h: seq<int>, h2: seq<int>, h3: seq<int>, p: seq<int>, m: int, a: int, b: int)
    requires Roots(h, p, m) && 0 <= m && m + 1 < |p|
    requires IsRoot(p, m, a) && IsRoot(p, m, b) && a != b
    requires multiset(h2) + multiset{a} + multiset{b} == multiset(h)
    requires multiset(h3) == multiset(h2) + multiset{m + 1}
    ensures Roots(h3, Join(p, a, b, m + 1), m + 1)
  {
    var q := Join(p, a, b, m + 1);
    forall k
      ensures multiset(h3)[k] == if k == 0 || IsRoot(q, m + 1, k) then 1 else 0
    {
      assert multiset(h)[k] == if k == 0 || IsRoot(p, m, k) then 1 else 0;
      assert multiset(h)[k] == multiset(h2)[k] + multiset{a}[k] + multiset{b}[k];
    }
  }

  lemma {:induction false} RootSumSame(w: seq<int>, w': seq<int>, p: seq<int>, p': seq<int>, m: int)
    requires forall k :: 1 <= k <= m ==> At(p, k) == At(p', k) && Wt(w, k) == Wt(w', k)
    ensures RootSum(w, p, m) == RootSum(w', p', m)
    decreases m
  {
    if m > 0 { RootSumSame(w, w', p, p', m - 1); }
  }

  lemma {:induction false} RootSumChild(w: seq<int>, p: seq<int>, m: int, a: int, g: int)
    requires IsRoot(p, m, a) && a < |p| && g >= 0
    ensures RootSum(w, p[a := g], m) == RootSum(w, p, m) - Wt(w, a)
    decreases m
  {
    if a == m {
      RootSumSame(w, w, p, p[a := g], m - 1);
    } else {
      RootSumChild(w, p, m - 1, a, g);
    }
  }

  lemma JoinSum(w: seq<int>, w': seq<int>, p: seq<int>, m: int, a: int, b: int)
    requires 0 <= m && m + 1 < |p| && IsRoot(p, m, a) && IsRoot(p, m, b) && a != b
    requires forall k :: 1 <= k <= m ==> W(w, k) == W(w', k)
    requires Wt(w', m + 1) == Wt(w, a) + Wt(w, b)
    ensures RootSum(w', Join(p, a, b, m + 1), m + 1) == RootSum(w, p, m)
  {
    var g := m + 1;
    RootSumChild(w, p, m, a, g);
    RootSumChild(w, p[a := g], m, b, g);
    RootSumSame(w, w', p[a := g][b := g], Join(p, a, b, g), m);
  }

  lemma {:induction false} RootBelowSum(w: seq<int>, p: seq<int>, m: int, a: int)
    requires IsRoot(p, m, a) && forall k :: 1 <= k <= m ==> Wt(w, k) >= 0
    ensures Wt(w, a) <= RootSum(w, p, m) && RootSum(w, p, m) >= 0
    decreases m
  {
    RootSumPositive(w, p, m - 1);
    if a < m { RootBelowSum(w, p, m - 1, a); }
  }

  lemma {:induction false} RootSumPositive(w: seq<int>, p: seq<int>, m: int)
    requires forall k :: 1 <= k <= m ==> Wt(w, k) >= 0
    ensures RootSum(w, p, m) >= 0
    decreases m
  {
    if m > 0 { RootSumPositive(w, p, m - 1); }
  }

  lemma {:induction false} RootsBelowSum(w: seq<int>, p: seq<int>, m: int, a: int, b: int)
    requires IsRoot(p, m, a) && IsRoot(p, m, b) && a < b && forall k :: 1 <= k <= m ==> Wt(w, k) >= 0
    ensures Wt(w, a) + Wt(w, b) <= RootSum(w, p, m)
    decreases m
  {
    if b == m {
      RootBelowSum(w, p, m - 1, a);
    } else {
      RootsBelowSum(w, p, m - 1, a, b);
    }
  }

  // ----- weights

  function WeightOf(z: nat): nat {
    z - z % 256
  }

  function DepthOf(z: nat): nat {
    z % 256
  }

  function Max(a: int, b: int): int {
    if a > b then a else b
  }

  function AddWeights(z1: nat, z2: nat): nat {
    Or(WeightOf(z1) + WeightOf(z2), 1 + Max(DepthOf(z1), DepthOf(z2)))
  }

  lemma AddWeightsValue(z1: nat, z2: nat)
    requires z1 % 256 < 255 && z2 % 256 < 255
    ensures AddWeights(z1, z2) == 256 * (z1 / 256 + z2 / 256) + 1 + Max(z1 % 256, z2 % 256)
    ensures AddWeights(z1, z2) / 256 == z1 / 256 + z2 / 256
    ensures AddWeights(z1, z2) % 256 == 1 + Max(z1 % 256, z2 % 256)
  {
    var x, d := z1 / 256 + z2 / 256, 1 + Max(z1 % 256, z2 % 256);
    assert ShiftLeft(x, 8) == 256 * x by {
      assert ShiftLeft(x, 1) == 2 * x;
      assert ShiftLeft(x, 2) == 4 * x;
      assert ShiftLeft(x, 4) == 16 * x;
      assert ShiftLeft(x, 6) == 64 * x;
    }
    Pow2Values();
    OrDisjoint(x, d, 8);
  }

  /** Merging two trees: the new node is one higher than the higher of the two. */
  lemma JoinHeavy(w: seq<int>, w': seq<int>, p: seq<int>, m: int, a: int, b: int, last: int)
    requires 0 <= m && m + 1 < |p| && IsRoot(p, m, a) && IsRoot(p, m, b) && a != b
    requires Heavy(w, p, m) && Since(w, p, m, last) && 0 <= last && 0 <= W(w, a) <= W(w, b)
    requires forall k :: IsRoot(p, m, k) && k != a ==> W(w, b) <= W(w, k)
    requires forall k :: 1 <= k <= m ==> W(w, k) == W(w', k)
    requires Wt(w', m + 1) == Wt(w, a) + Wt(w, b)
    requires Ht(w', m + 1) == 1 + Max(Ht(w, a), Ht(w, b))
    ensures Fib(Ht(w', m + 1)) <= Wt(w', m + 1)
    ensures Fib(Max(Ht(w, a), Ht(w, b))) <= W(w, b) / 256 && W(w, b) <= W(w', m + 1)
  {
    assert IsRoot(p, m, a) && IsRoot(p, m, b);
    assert last / 256 <= Wt(w, a) <= Wt(w, b);
  }

  lemma JoinHeavyAll(w: seq<int>, w': seq<int>, p: seq<int>, n: int, m: int, a: int, b: int)
    requires 0 <= m && m + 1 < |p| && IsRoot(p, m, a) && IsRoot(p, m, b) && a != b
    requires Parents(p, n, m) && Heavy(w, p, m)
    requires forall k :: 1 <= k <= m ==> W(w, k) == W(w', k)
    requires Ht(w', m + 1) == 1 + Max(Ht(w, a), Ht(w, b))
    requires Fib(Ht(w', m + 1)) <= Wt(w', m + 1)
    ensures Heavy(w', Join(p, a, b, m + 1), m + 1)
  {
    hide Fib;
    var q := Join(p, a, b, m + 1);
    forall k | 1 <= k <= m + 1
      ensures Fib(Ht(w', k)) <= Wt(w', k) && (At(q, k) != -1 ==> Ht(w', k) < Ht(w', At(q, k)))
    {
      if k <= m {
        assert Fib(Ht(w, k)) <= Wt(w, k) && (At(p, k) != -1 ==> Ht(w, k) < Ht(w, At(p, k)));
      }
    }
  }

  lemma JoinSince(w: seq<int>, w': seq<int>, p: seq<int>, m: int, a: int, b: int, last: int)
    requires 0 <= m && m + 1 < |p| && IsRoot(p, m, a) && IsRoot(p, m, b) && a != b
    requires Since(w, p, m, last) && last <= W(w, b)
    requires forall k :: IsRoot(p, m, k) && k != a ==> W(w, b) <= W(w, k)
    requires forall k :: 1 <= k <= m ==> W(w, k) == W(w', k)
    requires Ht(w', m + 1) == 1 + Max(Ht(w, a), Ht(w, b))
    requires Fib(Max(Ht(w, a), Ht(w, b))) <= W(w, b) / 256 && W(w, b) <= W(w', m + 1)
    ensures Since(w', Join(p, a, b, m + 1), m + 1, W(w, b))
  {
    hide Fib;
    var q := Join(p, a, b, m + 1);
    forall k | IsRoot(q, m + 1, k)
      ensures W(w, b) <= W(w', k) && (Ht(w', k) >= 1 ==> Fib(Ht(w', k) - 1) <= W(w, b) / 256)
    {
      if k <= m {
        assert IsRoot(p, m, k) && k != a;
        assert Ht(w, k) >= 1 ==> Fib(Ht(w, k) - 1) <= last / 256;
      }
    }
  }

  // ----- the whole state between two merges

  const TOTAL_LIMIT := 900259

  /** Weight words fit a signed 32-bit integer. */
  ghost predicate Fits(w: seq<int>, m: int) {
    forall k :: 0 <= k <= m ==> 0 <= W(w, k) < 0x8000_0000
  }

  ghost predicate Merging(h: seq<int>, w: seq<int>, p: seq<int>, n: int, m: int, last: int, total: int) {
    && 1 <= n <= m && m < |p| == |w| && |h| - 1 + m == 2 * n
    && Parents(p, n, m) && Binary(p, n, m) && Roots(h, p, m)
    && IsHeap(h, w) && Heavy(w, p, m) && Since(w, p, m, last) && Fits(w, m)
    && RootSum(w, p, m) == total <= TOTAL_LIMIT && last >= 0
  }

  /** The heap after the two lightest nodes were taken out. */
  function RemoveTwo(h: seq<int>, w: seq<int>): (r: seq<int>)
    requires |h| >= 3
    ensures |r| == |h| - 2
  {
    Remove(Remove(h, w), w)
  }

  lemma NotSentinel(h: seq<int>)
    requires |h| >= 2 && h[0] == 0 && multiset(h)[0] <= 1
    ensures h[1] != 0 && multiset(h)[h[1]] >= 1
  {
    assert h == [h[0]] + [h[1]] + h[2..];
  }

  lemma RootOfCount(h: seq<int>, p: seq<int>, m: int, k: int)
    requires Roots(h, p, m) && k != 0
    ensures multiset(h)[k] == if IsRoot(p, m, k) then 1 else 0
  {
  }

  /** The two lightest nodes are different roots, in order, and no root is between. */
  lemma LightestTwo(h: seq<int>, w: seq<int>, p: seq<int>, m: int)
    requires IsHeap(h, w) && Roots(h, p, m) && |h| >= 3 && m >= 0
    ensures var a, b := h[1], Remove(h, w)[1];
      && IsRoot(p, m, a) && IsRoot(p, m, b) && a != b && W(w, a) <= W(w, b)
      && (forall k :: IsRoot(p, m, k) && k != a ==> W(w, b) <= W(w, k))
      && IsHeap(RemoveTwo(h, w), w)
      && multiset(RemoveTwo(h, w)) + multiset{a} + multiset{b} == multiset(h)
  {
    var h1 := Remove(h, w);
    var a, b := h[1], h1[1];
    RemoveHeap(h, w);
    RemoveHeap(h1, w);
    hide Remove, IsRoot, W;
    assert multiset(h)[0] <= 1;
    NotSentinel(h);
    NotSentinel(h1);
    RootOfCount(h, p, m, a);
    RootOfCount(h, p, m, b);
    assert multiset(h1)[a] == multiset(h)[a] - 1;
    RemoveLightest(h, w, b);
    forall k | IsRoot(p, m, k) && k != a ensures W(w, b) <= W(w, k) {
      assert multiset(h)[k] == 1;
      assert multiset(h1)[k] == 1;
      RemoveLightest(h1, w, k);
    }
  }

  /** Depths stay below 255 because a tree that high would be too heavy. */
  lemma DepthFits(w: seq<int>, p: seq<int>, m: int, k: int, total: int)
    requires IsRoot(p, m, k) && Heavy(w, p, m) && RootSum(w, p, m) == total <= TOTAL_LIMIT
    ensures Ht(w, k) < 29 && Wt(w, k) <= total
  {
    forall j | 1 <= j <= m ensures Wt(w, j) >= 0 {
      assert Fib(Ht(w, j)) <= Wt(w, j);
    }
    RootBelowSum(w, p, m, k);
    if Ht(w, k) >= 29 {
      FibMonotone(29, Ht(w, k));
      FibValues();
    }
  }

  lemma JoinFits(w: seq<int>, p: seq<int>, m: int, a: int, b: int, total: int)
    requires IsRoot(p, m, a) && IsRoot(p, m, b) && a != b && Fits(w, m)
    requires Heavy(w, p, m) && RootSum(w, p, m) == total <= TOTAL_LIMIT
    ensures W(w, a) % 256 < 29 && W(w, b) % 256 < 29 && 0 <= W(w, a) && 0 <= W(w, b)
    ensures 0 <= AddWeights(W(w, a), W(w, b)) < 0x8000_0000
  {
    DepthFits(w, p, m, a, total);
    DepthFits(w, p, m, b, total);
    forall j | 1 <= j <= m ensures Wt(w, j) >= 0 {
      assert Fib(Ht(w, j)) <= Wt(w, j);
    }
    if a < b { RootsBelowSum(w, p, m, a, b); } else { RootsBelowSum(w, p, m, b, a); }
    AddWeightsValue(W(w, a), W(w, b));
  }

  lemma HeapKept(h: seq<int>, w: seq<int>, w': seq<int>)
    requires IsHeap(h, w) && forall x :: x in h ==> W(w, x) == W(w', x)
    ensures IsHeap(h, w')
  {
    forall k ensures Ordered(h, w', k) {
      assert Ordered(h, w, k);
    }
  }

  /** Merging the two lightest trees keeps everything that is known of the forest. */
  lemma Merge(h: seq<int>, w: seq<int>, p: seq<int>, n: int, m: int, last: int, total: int)
    requires Merging(h, w, p, n, m, last, total) && |h| >= 3 && m + 1 < |p|
    ensures var a, b, g := h[1], Remove(h, w)[1], m + 1;
      && 1 <= a <= m && 1 <= b <= m && 0 <= W(w, a) && 0 <= W(w, b)
      && var w' := w[g := AddWeights(W(w, a), W(w, b))];
      Merging(Insert(RemoveTwo(h, w), w', g), w', Join(p, a, b, g), n, g, W(w, b), total)
  {
    hide Insert, Remove, RemoveTwo, Join, Parents, Binary, Roots, Heavy, Since, IsHeap, RootSum, Fib, AddWeights;
    var a, b, g := h[1], Remove(h, w)[1], m + 1;
    LightestTwo(h, w, p, m);
    JoinFits(w, p, m, a, b, total);
    AddWeightsValue(W(w, a), W(w, b));
    var w' := w[g := AddWeights(W(w, a), W(w, b))];
    var h2 := RemoveTwo(h, w);
    MergeHeap(h, h2, w, w', p, m, a, b);
    JoinParents(p, n, m, a, b);
    JoinBinary(p, n, m, a, b);
    JoinRoots(h, h2, Insert(h2, w', g), p, m, a, b);
    JoinSum(w, w', p, m, a, b);
    SinceRoot(w, p, m, last, b);
    JoinHeavy(w, w', p, m, a, b, last);
    JoinHeavyAll(w, w', p, n, m, a, b);
    JoinSince(w, w', p, m, a, b, last);
  }

  lemma SinceRoot(w: seq<int>, p: seq<int>, m: int, last: int, b: int)
    requires Since(w, p, m, last) && IsRoot(p, m, b)
    ensures last <= W(w, b)
  {
  }

  lemma MergeHeap(h: seq<int>, h2: seq<int>, w: seq<int>, w': seq<int>, p: seq<int>, m: int, a: int, b: int)
    requires Roots(h, p, m) && IsHeap(h2, w) && 0 <= m
    requires multiset(h2) + multiset{a} + multiset{b} == multiset(h)
    requires forall k :: 0 <= k <= m ==> W(w, k) == W(w', k)
    requires W(w', m + 1) >= 0
    ensures IsHeap(Insert(h2, w', m + 1), w')
    ensures multiset(Insert(h2, w', m + 1)) == multiset(h2) + multiset{m + 1}
  {
    forall x | x in h2 ensures W(w, x) == W(w', x) {
      assert multiset(h2)[x] >= 1;
      assert multiset(h)[x] >= 1;
      assert x == 0 || IsRoot(p, m, x);
    }
    HeapKept(h2, w, w');
    InsertHeap(h2, w', m + 1);
  }
}
