/** The binary heap of tree nodes used to build Huffman codes. Slot 0 of the heap
    is a sentinel that holds node 0, of weight 0; the slots from 1 on hold the
    nodes in heap order of their weights. */
module Heap {

  /** The weight of node `k`. */
  function W(w: seq<int>, k: int): int {
    if 0 <= k < |w| then w[k] else 0
  }

  function Swap(h: seq<int>, i: nat, j: nat): (r: seq<int>)
    requires i < |h| && j < |h|
    ensures |r| == |h|
  {
    h[i := h[j]][j := h[i]]
  }

  lemma SwapKeeps(h: seq<int>, i: nat, j: nat)
    requires i < |h| && j < |h|
    ensures multiset(Swap(h, i, j)) == multiset(h)
  {
  }

  /** Slot `k` respects the order with its parent slot. */
  predicate Ordered(h: seq<int>, w: seq<int>, k: int) {
    1 <= k < |h| ==> W(w, h[k / 2]) <= W(w, h[k])
  }

  ghost predicate IsHeap(h: seq<int>, w: seq<int>) {
    && |h| >= 1 && h[0] == 0 && W(w, 0) == 0
    && forall k :: Ordered(h, w, k)
  }

  /** The entry in slot `z` moves up until its parent is not heavier. */
  function SiftUp(h: seq<int>, w: seq<int>, z: nat): (r: seq<int>)
    requires z < |h|
    ensures |r| == |h|
    decreases z
  {
    if z >= 1 && W(w, h[z]) < W(w, h[z / 2]) then SiftUp(Swap(h, z, z / 2), w, z / 2) else h
  }

  /** The slot below `z` with the lighter entry. */
  function LightChild(h: seq<int>, w: seq<int>, z: nat): (y: nat)
    requires 1 <= z && 2 * z < |h|
    ensures y == 2 * z || y == 2 * z + 1
    ensures y < |h|
  {
    if 2 * z + 1 < |h| && W(w, h[2 * z + 1]) < W(w, h[2 * z]) then 2 * z + 1 else 2 * z
  }

  /** The entry in slot `z` moves down until it is lighter than those below it. */
  function SiftDown(h: seq<int>, w: seq<int>, z: nat): (r: seq<int>)
    requires 1 <= z
    ensures |r| == |h|
    decreases |h| - z
  {
    if 2 * z >= |h| then h
    else
      var y := LightChild(h, w, z);
      if W(w, h[z]) < W(w, h[y]) then h else SiftDown(Swap(h, z, y), w, y)
  }

  /** In heap order but for slot `z` against its parent. */
  ghost predicate HeapButUp(h: seq<int>, w: seq<int>, z: nat)
    requires z < |h|
  {
    && h[0] == 0 && W(w, 0) == 0 && W(w, h[z]) >= 0
    && (forall k :: k != z ==> Ordered(h, w, k))
    && (forall k :: 1 <= k < |h| && k / 2 == z && z >= 1 ==> W(w, h[z / 2]) <= W(w, h[k]))
  }

  lemma {:induction false} SiftUpHeap(h: seq<int>, w: seq<int>, z: nat)
    requires z < |h| && HeapButUp(h, w, z)
    ensures IsHeap(SiftUp(h, w, z), w)
    ensures multiset(SiftUp(h, w, z)) == multiset(h)
    decreases z
  {
    if z >= 1 && W(w, h[z]) < W(w, h[z / 2]) {
      SiftUpStep(h, w, z);
      SwapKeeps(h, z, z / 2);
      SiftUpHeap(Swap(h, z, z / 2), w, z / 2);
    } else {
      assert Ordered(h, w, z);
    }
  }

  lemma SiftUpStep(h: seq<int>, w: seq<int>, z: nat)
    requires 1 <= z < |h| && HeapButUp(h, w, z) && W(w, h[z]) < W(w, h[z / 2])
    ensures HeapButUp(Swap(h, z, z / 2), w, z / 2)
  {
    var y := z / 2;
    var g := Swap(h, z, y);
    assert y >= 1;
    forall k | k != y ensures Ordered(g, w, k) {
      assert k != z ==> Ordered(h, w, k);
    }
    forall k | 1 <= k < |g| && k / 2 == y ensures W(w, g[y / 2]) <= W(w, g[k]) {
      assert k != z ==> Ordered(h, w, k);
      assert Ordered(h, w, y);
    }
  }

  /** In heap order but for slot `z` against the slots below it. */
  ghost predicate HeapButDown(h: seq<int>, w: seq<int>, z: nat) {
    && |h| >= 1 && 1 <= z && h[0] == 0 && W(w, 0) == 0
    && (forall k :: k / 2 != z ==> Ordered(h, w, k))
    && (forall k :: 1 <= k < |h| && k / 2 == z ==> W(w, h[z / 2]) <= W(w, h[k]))
  }

  lemma {:induction false} SiftDownHeap(h: seq<int>, w: seq<int>, z: nat)
    requires HeapButDown(h, w, z)
    ensures IsHeap(SiftDown(h, w, z), w)
    ensures multiset(SiftDown(h, w, z)) == multiset(h)
    decreases |h| - z
  {
    if 2 * z >= |h| {
      forall k ensures Ordered(h, w, k) {}
    } else {
      var y := LightChild(h, w, z);
      if W(w, h[z]) < W(w, h[y]) {
        forall k ensures Ordered(h, w, k) {}
      } else {
        SiftDownStep(h, w, z);
        SwapKeeps(h, z, y);
        SiftDownHeap(Swap(h, z, y), w, y);
      }
    }
  }

  lemma SiftDownStep(h: seq<int>, w: seq<int>, z: nat)
    requires HeapButDown(h, w, z) && 2 * z < |h|
    requires W(w, h[z]) >= W(w, h[LightChild(h, w, z)])
    ensures HeapButDown(Swap(h, z, LightChild(h, w, z)), w, LightChild(h, w, z))
  {
    var y := LightChild(h, w, z);
    var g := Swap(h, z, y);
    forall k | k / 2 != y ensures Ordered(g, w, k) {
      assert k / 2 != z ==> Ordered(h, w, k);
    }
    forall k | 1 <= k < |g| && k / 2 == y ensures W(w, g[y / 2]) <= W(w, g[k]) {
      assert Ordered(h, w, k);
    }
  }

  /** The root is the lightest. */
  lemma {:induction false} RootLightest(h: seq<int>, w: seq<int>, k: nat)
    requires IsHeap(h, w) && 1 <= k < |h|
    ensures W(w, h[1]) <= W(w, h[k])
  {
    if k > 1 {
      assert Ordered(h, w, k);
      RootLightest(h, w, k / 2);
    }
  }

  // ----- the operations

  function Insert(h: seq<int>, w: seq<int>, x: int): (r: seq<int>)
    ensures |r| == |h| + 1
  {
    SiftUp(h + [x], w, |h|)
  }

  /** What remains when the root is taken out. */
  function Remove(h: seq<int>, w: seq<int>): (r: seq<int>)
    requires |h| >= 2
    ensures |r| == |h| - 1
  {
    SiftDown(h[1 := h[|h| - 1]][..|h| - 1], w, 1)
  }

  lemma InsertHeap(h: seq<int>, w: seq<int>, x: int)
    requires IsHeap(h, w) && W(w, x) >= 0
    ensures IsHeap(Insert(h, w, x), w)
    ensures multiset(Insert(h, w, x)) == multiset(h) + multiset{x}
  {
    var g := h + [x];
    forall k | k != |h| ensures Ordered(g, w, k) {
      assert Ordered(h, w, k);
    }
    SiftUpHeap(g, w, |h|);
  }

  lemma RemoveHeap(h: seq<int>, w: seq<int>)
    requires IsHeap(h, w) && |h| >= 2
    ensures IsHeap(Remove(h, w), w)
    ensures multiset(Remove(h, w)) + multiset{h[1]} == multiset(h)
  {
    var g := h[1 := h[|h| - 1]][..|h| - 1];
    LastToRoot(h, w);
    SiftDownHeap(g, w, 1);
    RemoveKeeps(h);
  }

  lemma LastToRoot(h: seq<int>, w: seq<int>)
    requires IsHeap(h, w) && |h| >= 2
    ensures HeapButDown(h[1 := h[|h| - 1]][..|h| - 1], w, 1)
  {
    var g := h[1 := h[|h| - 1]][..|h| - 1];
    forall k | 1 <= k < |h| ensures 0 <= W(w, h[k]) {
      assert Ordered(h, w, 1);
      RootLightest(h, w, k);
    }
    forall k | k / 2 != 1 ensures Ordered(g, w, k) {
      assert Ordered(h, w, k);
    }
  }

  /** The root that is taken out is not heavier than what remains. */
  lemma RemoveLightest(h: seq<int>, w: seq<int>, x: int)
    requires IsHeap(h, w) && |h| >= 2 && x in multiset(h) && x != 0
    ensures W(w, h[1]) <= W(w, x)
  {
    var k :| 0 <= k < |h| && h[k] == x;
    RootLightest(h, w, k);
  }

  lemma RemoveKeeps(h: seq<int>)
    requires |h| >= 2
    ensures multiset(h[1 := h[|h| - 1]][..|h| - 1]) + multiset{h[1]} == multiset(h)
  {
    var n := |h| - 1;
    var f := h[1 := h[n]];
    assert f == f[..n] + [f[n]];
    assert multiset(f) == multiset(f[..n]) + multiset{h[n]};
    assert multiset(f) == multiset(h) - multiset{h[1]} + multiset{h[n]};
  }

  // ----- the same in place

  /** The array begins with `s`. */
  ghost predicate Holds(a: array<int>, s: seq<int>)
    reads a
  {
    |s| <= a.Length && forall k :: 0 <= k < |s| ==> a[k] == s[k]
  }

  /** The heap's slots hold `h`, whose entries are nodes that have a weight in `w`. */
  ghost predicate Nodes(h: seq<int>, w: seq<int>) {
    |h| >= 1 && h[0] == 0 && forall k :: 0 <= k < |h| ==> 0 <= h[k] < |w|
  }

  /** The heap holds `h` but for slot `z`, whose entry is in `tmp`. */
  ghost predicate HoldsBut(heap: array<int>, h: seq<int>, z: int, tmp: int)
    reads heap
  {
    && 0 <= z < |h| <= heap.Length && h[z] == tmp
    && forall k :: 0 <= k < |h| && k != z ==> heap[k] == h[k]
  }

  method UpHeap(heap: array<int>, weight: array<int>, z: nat, ghost h: seq<int>, ghost w: seq<int>)
    requires heap != weight && z < |h| && Holds(heap, h) && Nodes(h, w)
    requires Holds(weight, w) && W(w, 0) == 0 && W(w, h[z]) >= 0
    modifies heap
    ensures Holds(heap, SiftUp(h, w, z))
    ensures forall k :: |h| <= k < heap.Length ==> heap[k] == old(heap[k])
  {
    var zz, tmp := z, heap[z];
    ghost var g := h;
    while weight[tmp] < weight[heap[zz / 2]]
      invariant HoldsBut(heap, g, zz, tmp) && (zz > 0 || heap[0] == 0) && |g| == |h| && Nodes(g, w)
      invariant SiftUp(g, w, zz) == SiftUp(h, w, z)
      invariant forall k :: |h| <= k < heap.Length ==> heap[k] == old(heap[k])
      decreases zz
    {
      g := Swap(g, zz, zz / 2);
      heap[zz] := heap[zz / 2];
      zz := zz / 2;
    }
    heap[zz] := tmp;
  }

  method DownHeap(heap: array<int>, weight: array<int>, nHeap: int, z: nat, ghost h: seq<int>, ghost w: seq<int>)
    requires heap != weight && 1 <= z < heap.Length && nHeap + 1 == |h| && Holds(heap, h) && Nodes(h, w)
    requires Holds(weight, w)
    modifies heap
    ensures Holds(heap, SiftDown(h, w, z))
    ensures forall k :: |h| <= k < heap.Length ==> heap[k] == old(heap[k])
  {
    if 2 * z > nHeap {
      return;
    }
    hide SiftDown, Swap;
    var zz, tmp := z, heap[z];
    ghost var g := h;
    while 2 * zz <= nHeap
      invariant 1 <= zz && HoldsBut(heap, g, zz, tmp) && |g| == |h| && Nodes(g, w)
      invariant SiftDown(g, w, zz) == SiftDown(h, w, z)
      invariant forall k :: |h| <= k < heap.Length ==> heap[k] == old(heap[k])
      decreases nHeap - zz
    {
      var yy := 2 * zz;
      if yy < nHeap && weight[heap[yy + 1]] < weight[heap[yy]] {
        yy := yy + 1;
      }
      if weight[tmp] < weight[heap[yy]] {
        break;
      }
      DownStep(g, w, zz, yy);
      g := Swap(g, zz, yy);
      heap[zz] := heap[yy];
      zz := yy;
    }
    heap[zz] := tmp;
  }

  lemma DownStep(g: seq<int>, w: seq<int>, z: nat, y: nat)
    requires 1 <= z && 2 * z < |g| && Nodes(g, w)
    requires y == LightChild(g, w, z) && W(w, g[z]) >= W(w, g[y])
    ensures SiftDown(g, w, z) == SiftDown(Swap(g, z, y), w, y) && Nodes(Swap(g, z, y), w)
  {
  }
}
