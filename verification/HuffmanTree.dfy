/** A finished Huffman tree: how deep its leaves are, and that they fill the code space. */
module HuffmanTree {
  import opened Bits
  import opened Heap
  import opened HuffmanForest
  import Huffman

  // ----- depths in a finished tree

  /** The number of steps from node `k` up to a root. */
  function Depth(p: seq<int>, top: int, k: int): (d: int)
    ensures d >= 0
    decreases top - k
  {
    if k < At(p, k) <= top then 1 + Depth(p, top, At(p, k)) else 0
  }

  /** The tree is complete: the last node is the only root. */
  ghost predicate OneTree(p: seq<int>, n: int, top: int) {
    && 1 <= n <= top && Parents(p, n, top) && Binary(p, n, top)
    && forall k :: 1 <= k <= top ==> (At(p, k) == -1 <==> k == top)
  }

  lemma {:induction false} DepthBound(p: seq<int>, n: int, top: int, k: int)
    requires OneTree(p, n, top) && 1 <= k <= top
    ensures Depth(p, top, k) <= top - k
    decreases top - k
  {
    if k < top {
      DepthBound(p, n, top, At(p, k));
    }
  }

  lemma {:induction false} DepthBelowHeight(p: seq<int>, w: seq<int>, n: int, top: int, k: int)
    requires OneTree(p, n, top) && Heavy(w, p, top) && 1 <= k <= top
    ensures Depth(p, top, k) + Ht(w, k) <= Ht(w, top)
    decreases top - k
  {
    if k < top {
      DepthBelowHeight(p, w, n, top, At(p, k));
    }
  }

  // ----- the Kraft sum of a tree

  function P2(k: int): int {
    if k < 0 then 0 else Pow2(k)
  }

  /** The code space of all codes that begin with the path to node `k`. */
  function Share(p: seq<int>, top: int, all: int, k: int): int {
    P2(all - Depth(p, top, k))
  }

  /** Cutting the tree above the nodes up to `g`: the shares of those among the
      first `j` nodes that hang from a later node than `g`. */
  function Front(p: seq<int>, top: int, all: int, g: int, j: int): int
    decreases j
  {
    if j <= 0 then 0
    else Front(p, top, all, g, j - 1) + (if At(p, j) == -1 || At(p, j) > g then Share(p, top, all, j) else 0)
  }

  function If(c: bool, x: int): int {
    if c then x else 0
  }

  /** Lowering the cut below `g` adds the shares of the children of `g`. */
  lemma {:induction false} FrontLower(p: seq<int>, n: int, top: int, all: int, g: int, a: int, b: int, j: int)
    requires Children(p, top, g, a, b) && 0 <= j <= top && 0 <= n < g
    ensures Front(p, top, all, g - 1, j)
         == Front(p, top, all, g, j) + If(a <= j, Share(p, top, all, a)) + If(b <= j, Share(p, top, all, b))
    decreases j
  {
    hide Share;
    if j > 0 {
      FrontLower(p, n, top, all, g, a, b, j - 1);
      assert At(p, j) == g <==> j == a || j == b;
    }
  }

  lemma ChildShares(p: seq<int>, n: int, top: int, all: int, g: int, a: int, b: int)
    requires OneTree(p, n, top) && n < g <= top <= all && Children(p, top, g, a, b)
    ensures Share(p, top, all, a) + Share(p, top, all, b) == Share(p, top, all, g)
  {
    assert At(p, a) == g && At(p, b) == g;
    DepthBound(p, n, top, g);
    assert Depth(p, top, a) == 1 + Depth(p, top, g) == Depth(p, top, b);
    Halves(all - Depth(p, top, g));
  }

  lemma Halves(k: int)
    requires k >= 1
    ensures P2(k - 1) + P2(k - 1) == P2(k)
  {
  }

  lemma {:induction false} FrontAt(p: seq<int>, n: int, top: int, all: int, g: int)
    requires OneTree(p, n, top) && n <= g <= top <= all
    ensures Front(p, top, all, g, g) == P2(all)
    decreases top - g
  {
    if g == top {
      FrontTop(p, n, top, all, top - 1);
      assert At(p, top) == -1;
    } else {
      var g1 := g + 1;
      FrontAt(p, n, top, all, g1);
      assert TwoChildren(p, top, g1);
      var a, b :| Children(p, top, g1, a, b);
      FrontLower(p, n, top, all, g1, a, b, g);
      ChildShares(p, n, top, all, g1, a, b);
      FrontLast(p, n, top, all, g1);
    }
  }

  lemma FrontLast(p: seq<int>, n: int, top: int, all: int, g: int)
    requires OneTree(p, n, top) && n < g <= top
    ensures Front(p, top, all, g, g) == Front(p, top, all, g, g - 1) + Share(p, top, all, g)
  {
  }

  lemma {:induction false} FrontTop(p: seq<int>, n: int, top: int, all: int, j: int)
    requires OneTree(p, n, top) && j < top
    ensures Front(p, top, all, top, j) == 0
    decreases j
  {
    if j > 0 { FrontTop(p, n, top, all, j - 1); }
  }

  /** The depths of the leaves fill the code space exactly (Kraft's equation). */
  lemma KraftEquation(p: seq<int>, n: int, lens: seq<nat>)
    requires n >= 2 && OneTree(p, n, 2 * n - 1) && |lens| == n
    requires forall i :: 0 <= i < n ==> lens[i] == Depth(p, 2 * n - 1, i + 1) && lens[i] <= 20
    ensures Huffman.Space(lens, n, 20) == 0x10_0000
  {
    var top := 2 * n - 1;
    FrontAt(p, n, top, top + 20, n);
    LeafShares(p, n, top, lens, n);
    Pow2Values();
    Huffman.ShiftPow2(20, top);
    ShiftLeftInjective(Huffman.Space(lens, n, 20), 0x10_0000, top);
  }

  lemma ShiftLeftInjective(a: nat, b: nat, k: nat)
    requires ShiftLeft(a, k) == ShiftLeft(b, k)
    ensures a == b
  {
    Huffman.ShiftLeftOrder(a, b, k);
    Huffman.ShiftLeftOrder(b, a, k);
  }

  lemma {:induction false} LeafShares(p: seq<int>, n: int, top: int, lens: seq<nat>, j: nat)
    requires OneTree(p, n, top) && n < top && j <= n == |lens|
    requires forall i :: 0 <= i < n ==> lens[i] == Depth(p, top, i + 1) && lens[i] <= 20
    ensures Front(p, top, top + 20, n, j) == ShiftLeft(Huffman.Space(lens, j, 20), top)
  {
    if j > 0 {
      LeafShares(p, n, top, lens, j - 1);
      assert At(p, j) > n;
      var x := Pow2(20 - lens[j - 1]);
      Huffman.ShiftPow2(20 - lens[j - 1], top);
      Huffman.ShiftLeftAdd(Huffman.Space(lens, j - 1, 20), x, top);
    } else {
      Huffman.ShiftLeftAdd(0, 0, top);
    }
  }
}
