/** The builder of Huffman code lengths: it terminates, no length exceeds the
    given maximum, and the lengths fill the code space exactly. */
module HuffmanLengths {
  import opened Bits
  import opened Heap
  import opened HuffmanForest
  import opened HuffmanTree
  import opened HuffmanOptimal
  import Huffman

  const MAX_ALPHA_SIZE := 258
  const FREQ_LIMIT := 900001

  // ----- building the tree in place

  const NODES := 2 * MAX_ALPHA_SIZE

  /** Nodes 1..n weigh at least 1 and have height 0. */
  ghost predicate Leaves(w: seq<int>, n: int) {
    && |w| == NODES && 0 <= n < NODES && W(w, 0) == 0
    && forall k :: 1 <= k <= n ==> Wt(w, k) >= 1 && Ht(w, k) == 0
  }

  function LeafSum(w: seq<int>, n: int): int
    decreases n
  {
    if n <= 0 then 0 else LeafSum(w, n - 1) + Wt(w, n)
  }

  /** The first `i` leaves are in the heap, each a tree of its own. */
  ghost predicate Planted(h: seq<int>, w: seq<int>, p: seq<int>, i: int) {
    && |p| == |w| && |h| == i + 1 && IsHeap(h, w) && Roots(h, p, i)
    && forall k :: 1 <= k <= i ==> At(p, k) == -1
  }

  lemma Plant(h: seq<int>, w: seq<int>, p: seq<int>, i: int)
    requires Planted(h, w, p, i) && 0 <= i && i + 1 < |p| && W(w, i + 1) >= 0
    ensures Planted(Insert(h, w, i + 1), w, p[i + 1 := -1], i + 1)
  {
    var g, q := Insert(h, w, i + 1), p[i + 1 := -1];
    InsertHeap(h, w, i + 1);
    forall k ensures multiset(g)[k] == if k == 0 || IsRoot(q, i + 1, k) then 1 else 0 {
      assert multiset(h)[k] == if k == 0 || IsRoot(p, i, k) then 1 else 0;
      assert k != i + 1 ==> At(q, k) == At(p, k);
    }
    assert forall k :: 1 <= k <= i ==> At(q, k) == At(p, k);
  }

  lemma {:induction false} PlantedSum(w: seq<int>, p: seq<int>, n: int)
    requires forall k :: 1 <= k <= n ==> At(p, k) == -1
    ensures RootSum(w, p, n) == LeafSum(w, n)
    decreases n
  {
    if n > 0 { PlantedSum(w, p, n - 1); }
  }

  lemma {:induction false} LeafBelowSum(w: seq<int>, n: int, k: int)
    requires Leaves(w, n) && 1 <= k <= n
    ensures Wt(w, k) <= LeafSum(w, n)
    decreases n
  {
    LeafSumAtLeast(w, n - 1);
    if k < n { LeafBelowSum(w, n - 1, k); }
  }

  lemma {:induction false} LeafSumAtLeast(w: seq<int>, n: int)
    requires Leaves(w, n)
    ensures LeafSum(w, n) >= n
    decreases n
  {
    if n > 0 { LeafSumAtLeast(w, n - 1); }
  }

  lemma LeavesUnmerged(h: seq<int>, w: seq<int>, p: seq<int>, n: int)
    requires Planted(h, w, p, n)
    ensures Sums(w, p, n) && Lightest(w, p, n)
  {
    hide IsHeap, Roots;
  }

  /** Leaves alone are a forest that is ready to be merged. */
  lemma LeavesMerging(h: seq<int>, w: seq<int>, p: seq<int>, n: int)
    requires Leaves(w, n) && Planted(h, w, p, n) && n >= 1 && LeafSum(w, n) <= TOTAL_LIMIT
    ensures Merging(h, w, p, n, n, 0, LeafSum(w, n))
  {
    PlantedSum(w, p, n);
    forall k | 0 <= k <= n ensures 0 <= W(w, k) < 0x8000_0000 {
      if k > 0 { LeafBelowSum(w, n, k); }
    }
    hide LeafSum, RootSum, IsHeap, Roots;
  }

  /** Slot `z` of the heap was just filled and moves up. */
  method PlantLeaf(heap: array<int>, weight: array<int>, parent: array<int>, i: int,
                   ghost h: seq<int>, ghost w: seq<int>, ghost p: seq<int>)
    requires heap != weight && heap != parent && weight != parent && 0 <= i && i + 1 < heap.Length
    requires Holds(heap, h) && Holds(weight, w) && Holds(parent, p)
    requires Nodes(h, w) && |h| == i + 1 < |w| == |p| && W(w, 0) == 0 && W(w, i + 1) >= 0
    modifies heap, parent
    ensures Holds(heap, Insert(h, w, i + 1)) && Holds(parent, p[i + 1 := -1])
  {
    parent[i + 1] := -1;
    heap[i + 1] := i + 1;
    UpHeap(heap, weight, i + 1, h + [i + 1], w);
  }

  lemma NodesOfRoots(h: seq<int>, w: seq<int>, p: seq<int>, m: int)
    requires IsHeap(h, w) && Roots(h, p, m) && 0 <= m < |w|
    ensures Nodes(h, w)
  {
    forall k | 0 <= k < |h| ensures 0 <= h[k] < |w| {
      assert multiset(h)[h[k]] >= 1;
    }
  }

  method PlantAll(heap: array<int>, weight: array<int>, parent: array<int>, n: int, ghost w: seq<int>)
    returns (ghost h: seq<int>, ghost p: seq<int>)
    requires heap != weight && heap != parent && weight != parent && 1 <= n && n + 1 < heap.Length
    requires parent.Length == weight.Length == NODES && Holds(weight, w) && Leaves(w, n)
    modifies heap, parent
    ensures Holds(heap, h) && Holds(parent, p) && Planted(h, w, p, n)
  {
    heap[0] := 0;
    parent[0] := -2;
    h, p := [0], parent[..];
    PlantNone(w, p);
    for i := 0 to n
      invariant Holds(heap, h) && Holds(parent, p) && Planted(h, w, p, i)
    {
      NodesOfRoots(h, w, p, i);
      assert Wt(w, i + 1) >= 1;
      PlantLeaf(heap, weight, parent, i, h, w, p);
      Plant(h, w, p, i);
      h, p := Insert(h, w, i + 1), p[i + 1 := -1];
    }
  }

  lemma PlantNone(w: seq<int>, p: seq<int>)
    requires |w| == |p| && W(w, 0) == 0
    ensures Planted([0], w, p, 0)
  {
  }

  /** Takes the lightest node out of the heap. */
  method TakeLightest(heap: array<int>, weight: array<int>, nHeap: int, ghost h: seq<int>, ghost w: seq<int>)
    returns (x: int)
    requires heap != weight && nHeap >= 1 && |h| == nHeap + 1 && Holds(heap, h) && Nodes(h, w)
    requires Holds(weight, w)
    modifies heap
    ensures x == h[1] && Holds(heap, Remove(h, w))
  {
    hide SiftDown, W;
    x := heap[1];
    heap[1] := heap[nHeap];
    ghost var g := h[1 := h[nHeap]][..nHeap];
    DownHeap(heap, weight, nHeap - 1, 1, g, w);
  }

  lemma NodesRemain(h: seq<int>, w: seq<int>, p: seq<int>, m: int)
    requires IsHeap(h, w) && Roots(h, p, m) && 0 <= m < |w| && |h| >= 3
    ensures Nodes(h, w) && Nodes(Remove(h, w), w) && Nodes(RemoveTwo(h, w), w)
  {
    NodesOfRoots(h, w, p, m);
    RemoveHeap(h, w);
    NodesWithin(h, Remove(h, w), h[1], w);
    RemoveHeap(Remove(h, w), w);
    NodesWithin(Remove(h, w), RemoveTwo(h, w), Remove(h, w)[1], w);
  }

  lemma NodesWithin(h: seq<int>, g: seq<int>, x: int, w: seq<int>)
    requires Nodes(h, w) && IsHeap(g, w) && multiset(g) + multiset{x} == multiset(h)
    ensures Nodes(g, w)
  {
    forall k | 0 <= k < |g| ensures 0 <= g[k] < |w| {
      assert g[k] in multiset(g);
      assert g[k] in multiset(h);
    }
  }

  // ----- merging in place

  /** Takes the two lightest trees and makes them the children of a new node. */
  method MergeTwo(heap: array<int>, weight: array<int>, parent: array<int>, nHeap: int, nNodes: int,
                  ghost h: seq<int>, ghost w: seq<int>, ghost p: seq<int>)
    requires heap != weight && heap != parent && weight != parent
    requires Holds(heap, h) && Holds(weight, w) && Holds(parent, p) && |w| == |p|
    requires nHeap >= 2 && |h| == nHeap + 1 && 1 <= nNodes && nNodes + 1 < |p| && W(w, 0) == 0
    requires Nodes(h, w) && Nodes(Remove(h, w), w) && Nodes(RemoveTwo(h, w), w)
    requires 1 <= h[1] <= nNodes && 1 <= Remove(h, w)[1] <= nNodes
    requires 0 <= W(w, h[1]) && 0 <= W(w, Remove(h, w)[1])
    modifies heap, weight, parent
    ensures var a, b, g := h[1], Remove(h, w)[1], nNodes + 1;
      && var w' := w[g := AddWeights(W(w, a), W(w, b))];
      && Holds(heap, Insert(RemoveTwo(h, w), w', g)) && Holds(weight, w') && Holds(parent, Join(p, a, b, g))
  {
    hide Remove, Insert, SiftUp, AddWeights;
    var n1 := TakeLightest(heap, weight, nHeap, h, w);
    var n2 := TakeLightest(heap, weight, nHeap - 1, Remove(h, w), w);
    var g := nNodes + 1;
    parent[n1] := g;
    parent[n2] := g;
    weight[g] := AddWeights(weight[n1], weight[n2]);
    parent[g] := -1;
    ghost var w' := w[g := AddWeights(W(w, n1), W(w, n2))];
    PushNode(heap, weight, nHeap - 1, g, RemoveTwo(h, w), w');
  }

  method PushNode(heap: array<int>, weight: array<int>, nHeap: int, g: int, ghost h: seq<int>, ghost w: seq<int>)
    requires heap != weight && Holds(heap, h) && Holds(weight, w) && Nodes(h, w)
    requires nHeap == |h| < heap.Length && 1 <= g < |w| && W(w, 0) == 0 && W(w, g) >= 0
    modifies heap
    ensures Holds(heap, Insert(h, w, g))
  {
    heap[nHeap] := g;
    UpHeap(heap, weight, nHeap, h + [g], w);
  }

  /** All trees are merged into one. */
  method MergeAll(heap: array<int>, weight: array<int>, parent: array<int>, n: int,
                  ghost h0: seq<int>, ghost w0: seq<int>, ghost p0: seq<int>, ghost total: int)
    returns (ghost w: seq<int>, ghost p: seq<int>)
    requires heap != weight && heap != parent && weight != parent && n >= 2
    requires Holds(heap, h0) && Holds(weight, w0) && Holds(parent, p0)
    requires weight.Length == parent.Length == NODES && |w0| == NODES && 2 * n <= NODES
    requires Merging(h0, w0, p0, n, n, 0, total) && Sums(w0, p0, n) && Lightest(w0, p0, n)
    modifies heap, weight, parent
    ensures Holds(weight, w) && Holds(parent, p) && |w| == |p| == NODES
    ensures OneTree(p, n, 2 * n - 1) && Heavy(w, p, 2 * n - 1) && Wt(w, 2 * n - 1) == total
    ensures Huffmans(w, p, n, 2 * n - 1)
    ensures forall k :: 0 <= k <= n ==> W(w, k) == W(w0, k)
  {
    hide Parents, Binary, Roots, IsHeap, Heavy, Since, RootSum, Insert, Remove, RemoveTwo, Join, AddWeights;
    hide Sums, Lightest, Huffmans;
    var nHeap, nNodes := n, n;
    ghost var h, last := h0, 0;
    w, p := w0, p0;
    while nHeap > 1
      invariant 1 <= nHeap == |h| - 1 && nNodes >= n
      invariant Holds(heap, h) && Holds(weight, w) && Holds(parent, p) && |w| == NODES
      invariant Merging(h, w, p, n, nNodes, last, total) && Sums(w, p, nNodes) && Lightest(w, p, nNodes)
      invariant forall k :: 0 <= k <= n ==> W(w, k) == W(w0, k)
      decreases nHeap
    {
      Merge(h, w, p, n, nNodes, last, total);
      MergeOrder(h, w, p, n, nNodes, last, total);
      MergeReady(h, w, p, nNodes);
      MergeTwo(heap, weight, parent, nHeap, nNodes, h, w, p);
      ghost var a, b, g := h[1], Remove(h, w)[1], nNodes + 1;
      ghost var w' := w[g := AddWeights(W(w, a), W(w, b))];
      last := W(w, b);
      h, w, p := Insert(RemoveTwo(h, w), w', g), w', Join(p, a, b, g);
      nHeap, nNodes := nHeap - 1, nNodes + 1;
    }
    Merged(h, w, p, n, last, total);
    OrderedTree(w, p, n, 2 * n - 1);
  }

  lemma OrderedTree(w: seq<int>, p: seq<int>, n: int, m: int)
    requires OneTree(p, n, m) && Heavy(w, p, m) && Sums(w, p, m) && Lightest(w, p, m)
    ensures Huffmans(w, p, n, m)
  {
    hide OneTree, Sums, Lightest;
    forall k | 1 <= k <= m ensures Wt(w, k) >= 0 {
      assert Fib(Ht(w, k)) <= Wt(w, k);
    }
  }

  /** The new tree was made of the two lightest ones. */
  lemma MergeOrder(h: seq<int>, w: seq<int>, p: seq<int>, n: int, m: int, last: int, total: int)
    requires Merging(h, w, p, n, m, last, total) && |h| >= 3 && m + 1 < |p| && Sums(w, p, m) && Lightest(w, p, m)
    ensures var a, b, g := h[1], Remove(h, w)[1], m + 1;
      && 1 <= a <= m && 1 <= b <= m && 0 <= W(w, a) && 0 <= W(w, b)
      && var w' := w[g := AddWeights(W(w, a), W(w, b))];
      Sums(w', Join(p, a, b, g), g) && Lightest(w', Join(p, a, b, g), g)
  {
    hide Insert, Remove, RemoveTwo, Join, Parents, Binary, Roots, Heavy, Since, IsHeap, RootSum, Fib, AddWeights;
    hide Sums, Lightest;
    var a, b, g := h[1], Remove(h, w)[1], m + 1;
    LightestTwo(h, w, p, m);
    JoinFits(w, p, m, a, b, total);
    AddWeightsValue(W(w, a), W(w, b));
    JoinSums(w, w[g := AddWeights(W(w, a), W(w, b))], p, n, m, a, b);
    JoinLightest(w, w[g := AddWeights(W(w, a), W(w, b))], p, n, m, a, b);
  }

  lemma MergeReady(h: seq<int>, w: seq<int>, p: seq<int>, m: int)
    requires IsHeap(h, w) && Roots(h, p, m) && 0 <= m < |w| && |h| >= 3
    ensures Nodes(h, w) && Nodes(Remove(h, w), w) && Nodes(RemoveTwo(h, w), w) && W(w, 0) == 0
  {
    NodesRemain(h, w, p, m);
  }

  /** A single root is the last node, and weighs as much as all leaves. */
  lemma Merged(h: seq<int>, w: seq<int>, p: seq<int>, n: int, last: int, total: int)
    requires n >= 1 && Merging(h, w, p, n, 2 * n - 1, last, total) && |h| == 2
    ensures OneTree(p, n, 2 * n - 1) && Heavy(w, p, 2 * n - 1) && Wt(w, 2 * n - 1) == total
  {
    var top := 2 * n - 1;
    assert At(p, top) == -1;
    OneRoot(h, p, top);
    OnlyRootSum(w, p, top, top - 1);
    assert RootSum(w, p, top) == RootSum(w, p, top - 1) + Wt(w, top);
    hide Parents, Binary, Roots, IsHeap, Heavy, Since, RootSum, Wt, At;
  }

  lemma OneRoot(h: seq<int>, p: seq<int>, top: int)
    requires top >= 1 && Roots(h, p, top) && |h| == 2 && h[0] == 0 && At(p, top) == -1
    ensures forall k :: 1 <= k <= top ==> (At(p, k) == -1 <==> k == top)
  {
    assert h == [h[0], h[1]];
    assert multiset(h)[top] == 1;
    forall k | 1 <= k <= top ensures At(p, k) == -1 <==> k == top {
      assert multiset(h)[k] == if k == 0 || IsRoot(p, top, k) then 1 else 0;
    }
  }

  lemma {:induction false} OnlyRootSum(w: seq<int>, p: seq<int>, top: int, m: int)
    requires m < top && forall k :: 1 <= k < top ==> At(p, k) != -1
    ensures RootSum(w, p, m) == 0
    decreases m
  {
    if m > 0 { OnlyRootSum(w, p, top, m - 1); }
  }

  /** The depths of the leaves are the code lengths. */
  method ReadDepths(len: array<nat>, parent: array<int>, n: int, maxLen: int, ghost p: seq<int>)
    returns (tooLong: bool)
    requires n >= 2 && len.Length >= n && parent.Length >= 2 * n && Holds(parent, p) && |p| == parent.Length
    requires OneTree(p, n, 2 * n - 1)
    modifies len
    ensures forall i :: 0 <= i < n ==> len[i] == Depth(p, 2 * n - 1, i + 1)
    ensures tooLong <==> exists i :: 0 <= i < n && len[i] > maxLen
  {
    tooLong := false;
    ghost var at := 0;
    for i := 1 to n + 1
      invariant forall k :: 0 <= k < i - 1 ==> len[k] == Depth(p, 2 * n - 1, k + 1)
      invariant if tooLong then 0 <= at < i - 1 && len[at] > maxLen else forall k :: 0 <= k < i - 1 ==> len[k] <= maxLen
    {
      var j := DepthOfLeaf(parent, n, i, p);
      len[i - 1] := j;
      if j > maxLen {
        tooLong := true;
        at := i - 1;
      }
    }
  }

  method DepthOfLeaf(parent: array<int>, n: int, i: int, ghost p: seq<int>) returns (j: nat)
    requires n >= 2 && parent.Length >= 2 * n && Holds(parent, p) && |p| == parent.Length
    requires OneTree(p, n, 2 * n - 1) && 1 <= i <= n
    ensures j == Depth(p, 2 * n - 1, i)
  {
    j := 0;
    var k := i;
    while parent[k] >= 0
      invariant 1 <= k <= 2 * n - 1 && j + Depth(p, 2 * n - 1, k) == Depth(p, 2 * n - 1, i)
      decreases 2 * n - k
    {
      ParentAbove(p, n, k);
      k := parent[k];
      j := j + 1;
    }
    ParentAbove(p, n, k);
  }

  lemma ParentAbove(p: seq<int>, n: int, k: int)
    requires n >= 1 && OneTree(p, n, 2 * n - 1) && 1 <= k <= 2 * n - 1
    ensures At(p, k) >= 0 ==> k < At(p, k) <= 2 * n - 1 && Depth(p, 2 * n - 1, k) == 1 + Depth(p, 2 * n - 1, At(p, k))
    ensures At(p, k) < 0 ==> Depth(p, 2 * n - 1, k) == 0
  {
  }

  // ----- rescaling

  function Halved(x: int): int {
    1 + x / 2
  }

  /** The leaves of `w'` are those of `w`, rescaled. */
  ghost predicate Rescaled(w: seq<int>, w': seq<int>, n: int) {
    forall k :: 1 <= k <= n ==> W(w', k) == 256 * Halved(Wt(w, k))
  }

  lemma {:induction false} RescaledSum(w: seq<int>, w': seq<int>, n: int)
    requires Leaves(w, n) && Leaves(w', n) && Rescaled(w, w', n)
    ensures LeafSum(w', n) <= LeafSum(w, n)
    ensures LeafSum(w', n) < LeafSum(w, n) || LeafSum(w, n) <= 2 * n
    decreases n
  {
    if n > 0 {
      RescaledSum(w, w', n - 1);
      assert Wt(w', n) == Halved(Wt(w, n));
    }
  }

  method Rescale(weight: array<int>, n: int, ghost w: seq<int>) returns (ghost w': seq<int>)
    requires weight.Length == NODES && Holds(weight, w) && Leaves(w, n)
    modifies weight
    ensures Holds(weight, w') && Leaves(w', n) && Rescaled(w, w', n)
  {
    for i := 1 to n + 1
      invariant forall k :: 1 <= k < i ==> weight[k] == 256 * Halved(Wt(w, k))
      invariant forall k :: i <= k < NODES ==> weight[k] == w[k]
      invariant weight[0] == 0
    {
      var j := weight[i] / 256;
      j := 1 + j / 2;
      weight[i] := j * 256;
    }
    w' := weight[..];
    RescaledLeaves(w, w', n);
  }

  lemma RescaledLeaves(w: seq<int>, w': seq<int>, n: int)
    requires Leaves(w, n) && |w'| == NODES && w'[0] == 0
    requires forall k :: 1 <= k < n + 1 ==> w'[k] == 256 * Halved(Wt(w, k))
    ensures Leaves(w', n) && Rescaled(w, w', n)
  {
    forall k | 1 <= k <= n ensures Wt(w', k) >= 1 && Ht(w', k) == 0 {
      assert Wt(w, k) >= 1;
    }
  }

  // ----- the builder

  function Sum(freq: seq<nat>, n: nat): nat
    requires n <= |freq|
  {
    if n == 0 then 0 else Sum(freq, n - 1) + freq[n - 1]
  }

  /** A tree with a leaf deeper than 12 weighs at least 610, more than 258 leaves
      of weight 2 do. */
  lemma TooDeep(w: seq<int>, p: seq<int>, n: int, i: int)
    requires 2 <= n && OneTree(p, n, 2 * n - 1) && Heavy(w, p, 2 * n - 1) && 0 <= i < n
    requires Depth(p, 2 * n - 1, i + 1) > 12
    ensures Wt(w, 2 * n - 1) >= 610
  {
    var top := 2 * n - 1;
    DepthBelowHeight(p, w, n, top, i + 1);
    assert Fib(Ht(w, top)) <= Wt(w, top);
    FibMonotone(13, Ht(w, top));
    FibValues();
  }

  /** When some code is too long, rescaling makes the weights smaller. */
  lemma Progress(w0: seq<int>, w: seq<int>, w': seq<int>, p: seq<int>, n: int, i: int)
    requires 2 <= n <= MAX_ALPHA_SIZE && Leaves(w0, n) && Leaves(w', n) && Rescaled(w0, w', n)
    requires OneTree(p, n, 2 * n - 1) && Heavy(w, p, 2 * n - 1) && Wt(w, 2 * n - 1) == LeafSum(w0, n)
    requires 0 <= i < n && Depth(p, 2 * n - 1, i + 1) > 12
    ensures LeafSum(w', n) < LeafSum(w0, n)
  {
    TooDeep(w, p, n, i);
    RescaledSum(w0, w', n);
  }

  lemma LeavesKept(w0: seq<int>, w: seq<int>, n: int)
    requires Leaves(w0, n) && |w| == NODES && forall k :: 0 <= k <= n ==> W(w, k) == W(w0, k)
    ensures Leaves(w, n) && LeafSum(w, n) == LeafSum(w0, n)
    decreases n
  {
    forall k | 1 <= k <= n ensures Wt(w, k) >= 1 && Ht(w, k) == 0 {
      assert Wt(w0, k) >= 1;
    }
    if n > 0 { LeavesKept(w0, w, n - 1); }
  }

  /** The lengths that were read are usable code lengths. */
  lemma LengthsExact(p: seq<int>, n: int, lens: seq<nat>, maxLen: int)
    requires n >= 2 && OneTree(p, n, 2 * n - 1) && |lens| == n && maxLen <= 20
    requires forall i :: 0 <= i < n ==> lens[i] == Depth(p, 2 * n - 1, i + 1) && lens[i] <= maxLen
    ensures forall i :: 0 <= i < n ==> 1 <= lens[i] <= maxLen
    ensures Huffman.Space(lens, n, 20) == 0x10_0000
  {
    KraftEquation(p, n, lens);
    forall i | 0 <= i < n ensures 1 <= lens[i] {
      ParentAbove(p, n, i + 1);
    }
  }

  /** The initial weights of the leaves. */
  method SetWeights(weight: array<int>, freq: seq<nat>) returns (ghost w: seq<int>)
    requires weight.Length == NODES && |freq| <= MAX_ALPHA_SIZE
    modifies weight
    ensures Holds(weight, w) && Leaves(w, |freq|) && LeafSum(w, |freq|) <= Sum(freq, |freq|) + |freq|
    ensures Weighs(w, Scaled(freq, 0))
  {
    var alphaSize := |freq|;
    for i := 0 to alphaSize
      invariant forall k :: 0 <= k < i ==> weight[k + 1] == 256 * Weight(freq, k)
    {
      weight[i + 1] := (if freq[i] == 0 then 1 else freq[i]) * 256;
    }
    weight[0] := 0;
    w := weight[..];
    WeightsSet(w, freq);
    FirstSum(w, freq, |freq|);
  }

  /** The frequencies, each at least 1, and then halved `k` times, each to at least 1. */
  function Scaled(freq: seq<nat>, k: nat): (r: seq<nat>)
    ensures |r| == |freq|
  {
    if k == 0 then seq(|freq|, i requires 0 <= i < |freq| => if freq[i] > 1 then freq[i] else 1)
    else
      var s := Scaled(freq, k - 1);
      seq(|freq|, i requires 0 <= i < |freq| => 1 + s[i] / 2)
  }

  /** The leaves have these weights. */
  ghost predicate Weighs(w: seq<int>, weights: seq<nat>) {
    forall i :: 0 <= i < |weights| ==> Wt(w, i + 1) == weights[i]
  }

  ghost predicate TooLong(lens: seq<nat>, maxLen: int) {
    exists i :: 0 <= i < |lens| && lens[i] > maxLen
  }

  /** These are the lengths of all codes that were built, the last ones those that are used: each
      is a cheapest code for the frequencies, halved as often as there were codes before it, and
      each but the last one has a length that is too long. */
  ghost predicate Rounds(freq: seq<nat>, maxLen: int, built: seq<seq<nat>>) {
    forall k :: 0 <= k < |built| ==>
      Optimal(Scaled(freq, k), built[k]) && (k < |built| - 1 <==> TooLong(built[k], maxLen))
  }

  /** The lengths are those of a cheapest code, or if those were too long, of a cheapest code for
      the frequencies halved until they were not. */
  ghost predicate Cheapest(freq: seq<nat>, maxLen: int, lens: seq<nat>) {
    exists built :: Rounds(freq, maxLen, built) && built != [] && built[|built| - 1] == lens
  }

  function Weight(freq: seq<nat>, k: int): int {
    if 0 <= k < |freq| && freq[k] > 0 then freq[k] else 1
  }

  lemma WeightsSet(w: seq<int>, freq: seq<nat>)
    requires |w| == NODES && w[0] == 0 && |freq| <= MAX_ALPHA_SIZE
    requires forall k :: 0 <= k < |freq| ==> w[k + 1] == 256 * Weight(freq, k)
    ensures Leaves(w, |freq|) && forall k :: 1 <= k <= |freq| ==> Wt(w, k) == Weight(freq, k - 1)
  {
    forall k | 1 <= k <= |freq| ensures Wt(w, k) == Weight(freq, k - 1) && Ht(w, k) == 0 {
      assert w[k - 1 + 1] == 256 * Weight(freq, k - 1);
    }
  }

  lemma {:induction false} FirstSum(w: seq<int>, freq: seq<nat>, n: nat)
    requires n <= |freq| && forall k :: 1 <= k <= |freq| ==> Wt(w, k) == Weight(freq, k - 1)
    ensures LeafSum(w, n) <= Sum(freq, n) + n
  {
    if n > 0 { FirstSum(w, freq, n - 1); }
  }

  method BuildTree(weight: array<int>, parent: array<int>, n: int, ghost w0: seq<int>)
    returns (ghost w: seq<int>, ghost p: seq<int>)
    requires weight != parent && weight.Length == parent.Length == NODES && 2 <= n <= MAX_ALPHA_SIZE
    requires Holds(weight, w0) && Leaves(w0, n) && LeafSum(w0, n) <= TOTAL_LIMIT
    modifies weight, parent
    ensures Holds(weight, w) && Holds(parent, p) && |w| == |p| == NODES
    ensures Leaves(w, n) && LeafSum(w, n) == LeafSum(w0, n)
    ensures OneTree(p, n, 2 * n - 1) && Heavy(w, p, 2 * n - 1) && Wt(w, 2 * n - 1) == LeafSum(w, n)
    ensures Huffmans(w, p, n, 2 * n - 1) && forall k :: 0 <= k <= n ==> W(w, k) == W(w0, k)
  {
    hide OneTree, Heavy, LeafSum, Planted, Merging, Leaves, Wt, Sums, Lightest, Huffmans;
    var heap := new int[MAX_ALPHA_SIZE + 2];
    ghost var h0, p0 := PlantAll(heap, weight, parent, n, w0);
    SizeOfLeaves(w0, n);
    LeavesMerging(h0, w0, p0, n);
    LeavesUnmerged(h0, w0, p0, n);
    w, p := MergeAll(heap, weight, parent, n, h0, w0, p0, LeafSum(w0, n));
    LeavesKept(w0, w, n);
  }

  lemma SizeOfLeaves(w: seq<int>, n: int)
    requires Leaves(w, n)
    ensures |w| == NODES
  {
  }

  lemma SameWeights(w0: seq<int>, w: seq<int>, n: int, weights: seq<nat>)
    requires Weighs(w0, weights) && |weights| == n && forall k :: 0 <= k <= n ==> W(w, k) == W(w0, k)
    ensures Weighs(w, weights)
  {
  }

  lemma DepthsOptimal(w: seq<int>, p: seq<int>, n: int, weights: seq<nat>, lens: seq<nat>)
    requires n >= 2 && Huffmans(w, p, n, 2 * n - 1) && Weighs(w, weights) && |weights| == |lens| == n
    requires forall i :: 0 <= i < n ==> lens[i] == Depth(p, 2 * n - 1, i + 1)
    ensures Optimal(weights, lens)
  {
    hide Huffmans, Optimal;
    TreeOptimal(w, p, n, 2 * n - 1, weights, lens);
  }

  lemma RescaledWeighs(w: seq<int>, w': seq<int>, freq: seq<nat>, k: nat)
    requires Weighs(w, Scaled(freq, k)) && Rescaled(w, w', |freq|)
    ensures Weighs(w', Scaled(freq, k + 1))
  {
    var weights := Scaled(freq, k + 1);
    forall i | 0 <= i < |freq| ensures Wt(w', i + 1) == weights[i] {
      assert W(w', i + 1) == 256 * Halved(Wt(w, i + 1));
    }
  }

  /** All codes built so far are cheapest ones, but too long. */
  ghost predicate AllTooLong(freq: seq<nat>, maxLen: int, built: seq<seq<nat>>) {
    forall k :: 0 <= k < |built| ==> Optimal(Scaled(freq, k), built[k]) && TooLong(built[k], maxLen)
  }

  lemma NextRound(freq: seq<nat>, maxLen: int, built: seq<seq<nat>>, lens: seq<nat>, i: nat)
    requires AllTooLong(freq, maxLen, built) && Optimal(Scaled(freq, |built|), lens)
    requires i < |lens| && lens[i] > maxLen
    ensures AllTooLong(freq, maxLen, built + [lens])
  {
    hide Scaled, Optimal;
  }

  lemma LastRound(freq: seq<nat>, maxLen: int, built: seq<seq<nat>>, lens: seq<nat>)
    requires AllTooLong(freq, maxLen, built) && Optimal(Scaled(freq, |built|), lens)
    requires forall i :: 0 <= i < |lens| ==> lens[i] <= maxLen
    ensures Cheapest(freq, maxLen, lens)
  {
    hide Scaled, Optimal;
    var all := built + [lens];
    assert Rounds(freq, maxLen, all) && all[|all| - 1] == lens;
  }

  /** Code lengths of at most `maxLen` bits for the given frequencies. */
  method MakeCodeLengths(len: array<nat>, freq: seq<nat>, maxLen: int)
    requires 2 <= |freq| <= MAX_ALPHA_SIZE && |freq| <= len.Length
    requires Sum(freq, |freq|) <= FREQ_LIMIT && 12 <= maxLen <= 20
    modifies len
    ensures forall i :: 0 <= i < |freq| ==> 1 <= len[i] <= maxLen
    ensures Huffman.Space(len[..|freq|], |freq|, 20) == 0x10_0000
    ensures Cheapest(freq, maxLen, len[..|freq|])
  {
    hide OneTree, Heavy, LeafSum, Leaves, Rescaled, Depth, Wt, Sum, Weighs, Scaled, Huffmans, Optimal, TooLong;
    var n := |freq|;
    var weight, parent := new int[NODES], new int[NODES];
    ghost var w := SetWeights(weight, freq);
    ghost var p;
    ghost var built: seq<seq<nat>> := [];
    while true
      invariant fresh(weight) && fresh(parent)
      invariant Holds(weight, w) && Leaves(w, n) && LeafSum(w, n) <= TOTAL_LIMIT
      invariant Weighs(w, Scaled(freq, |built|)) && AllTooLong(freq, maxLen, built)
      decreases LeafSum(w, n)
    {
      ghost var w0 := w;
      LeafSumAtLeast(w0, n);
      w, p := BuildTree(weight, parent, n, w);
      SizeOfLeaves(w, n);
      var tooLong := ReadDepths(len, parent, n, maxLen, p);
      SameWeights(w0, w, n, Scaled(freq, |built|));
      DepthsOptimal(w, p, n, Scaled(freq, |built|), len[..n]);
      if !tooLong {
        LastRound(freq, maxLen, built, len[..n]);
        break;
      }
      ghost var i :| 0 <= i < n && len[i] > maxLen;
      ghost var w1 := w;
      w := Rescale(weight, n, w);
      Progress(w1, w1, w, p, n, i);
      NextRound(freq, maxLen, built, len[..n], i);
      RescaledWeighs(w1, w, freq, |built|);
      built := built + [len[..n]];
    }
    LengthsExact(p, n, len[..n], maxLen);
  }
}
