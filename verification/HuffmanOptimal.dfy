/** Why Huffman codes are the cheapest: merging the two lightest trees again and again loses
    nothing against any other code. */
module HuffmanOptimal {
  import opened Bits
  import opened Heap
  import opened HuffmanForest
  import opened HuffmanTree

  // ----- codes and what they cost

  /** What symbols of these weights cost with codes of these lengths. */
  function CodeCost(weights: seq<nat>, lens: seq<nat>): nat
    requires |weights| == |lens|
  {
    if lens == [] then 0
    else
      var k := |lens| - 1;
      CodeCost(weights[..k], lens[..k]) + weights[k] * lens[k]
  }

  /** The sum of the powers of 1/2 with these exponents, in units of the one with exponent `m`. */
  function KraftSum(lens: seq<nat>, m: nat): nat
    requires forall i :: 0 <= i < |lens| ==> lens[i] <= m
  {
    if lens == [] then 0
    else
      var k := |lens| - 1;
      KraftSum(lens[..k], m) + Pow2(m - lens[k])
  }

  /** Some prefix code has these lengths: the sum is at most 1. */
  ghost predicate Codable(lens: seq<nat>, m: nat) {
    (forall i :: 0 <= i < |lens| ==> lens[i] <= m) && KraftSum(lens, m) <= Pow2(m)
  }

  /** There is no cheaper code. */
  ghost predicate Optimal(weights: seq<nat>, lens: seq<nat>) {
    && |weights| == |lens| && (exists m: nat :: Codable(lens, m))
    && forall other: seq<nat>, m: nat :: |other| == |weights| && Codable(other, m) ==>
      CodeCost(weights, lens) <= CodeCost(weights, other)
  }

  // ----- the order of the merges

  /** A parent weighs as much as its two children. */
  ghost predicate Sums(w: seq<int>, p: seq<int>, m: int) {
    forall a, b :: 1 <= a <= m && 1 <= b <= m && a != b && At(p, a) == At(p, b) && At(p, a) != -1 ==>
      Wt(w, At(p, a)) == Wt(w, a) + Wt(w, b)
  }

  /** When a node got its parent, `j` was a root: it was there and has a later parent or none. */
  predicate Hangs(p: seq<int>, g: int, j: int) {
    At(p, j) == -1 || At(p, j) > g
  }

  /** Nodes were merged when they were lightest. */
  ghost predicate Lightest(w: seq<int>, p: seq<int>, m: int) {
    forall k, j :: 1 <= k <= m && At(p, k) != -1 && 1 <= j < At(p, k) && Hangs(p, At(p, k), j) ==>
      Wt(w, k) <= Wt(w, j)
  }

  lemma NewParent(p: seq<int>, n: int, m: int, a: int, b: int, x: int)
    requires 1 <= x <= m && m + 1 < |p| && Parents(p, n, m) && 1 <= a <= m && 1 <= b <= m
    ensures At(Join(p, a, b, m + 1), x) == if x == a || x == b then m + 1 else At(p, x)
    ensures At(p, x) <= m
  {
  }

  lemma JoinSums(w: seq<int>, w': seq<int>, p: seq<int>, n: int, m: int, a: int, b: int)
    requires n <= m && 0 <= m && m + 1 < |p| && IsRoot(p, m, a) && IsRoot(p, m, b) && a != b && Parents(p, n, m)
    requires forall k :: 1 <= k <= m ==> W(w, k) == W(w', k)
    requires Wt(w', m + 1) == Wt(w, a) + Wt(w, b) && Sums(w, p, m)
    ensures Sums(w', Join(p, a, b, m + 1), m + 1)
  {
    var g := m + 1;
    var q := Join(p, a, b, g);
    JoinParents(p, n, m, a, b);
    forall x, y | 1 <= x <= g && 1 <= y <= g && x != y && At(q, x) == At(q, y) && At(q, x) != -1
      ensures Wt(w', At(q, x)) == Wt(w', x) + Wt(w', y)
    {
      assert x <= m && y <= m;
      NewParent(p, n, m, a, b, x);
      NewParent(p, n, m, a, b, y);
    }
  }

  lemma JoinLightest(w: seq<int>, w': seq<int>, p: seq<int>, n: int, m: int, a: int, b: int)
    requires n <= m && 0 <= m && m + 1 < |p| && IsRoot(p, m, a) && IsRoot(p, m, b) && a != b && Parents(p, n, m)
    requires W(w, a) <= W(w, b) && forall k :: IsRoot(p, m, k) && k != a ==> W(w, b) <= W(w, k)
    requires forall k :: 1 <= k <= m ==> W(w, k) == W(w', k)
    requires Lightest(w, p, m)
    ensures Lightest(w', Join(p, a, b, m + 1), m + 1)
  {
    var g := m + 1;
    var q := Join(p, a, b, g);
    JoinParents(p, n, m, a, b);
    forall k, j | 1 <= k <= g && At(q, k) != -1 && 1 <= j < At(q, k) && Hangs(q, At(q, k), j)
      ensures Wt(w', k) <= Wt(w', j)
    {
      if k == a || k == b {
        if j != a && j != b { assert IsRoot(p, m, j); }
      } else {
        assert k <= m && j <= m && At(p, k) == At(q, k) && Hangs(p, At(p, k), j);
        assert Wt(w, k) <= Wt(w, j);
      }
    }
  }

  // ----- sums over the roots at one time

  function F(f: seq<int>, j: int): int {
    if 0 <= j < |f| then f[j] else 0
  }

  /** The sum of `f` over those of the first `j` nodes that hang from a later node than `g`. */
  function Total(p: seq<int>, g: int, j: int, f: seq<int>): int
    decreases j
  {
    if j <= 0 then 0 else Total(p, g, j - 1, f) + (if Hangs(p, g, j) then F(f, j) else 0)
  }

  lemma {:induction false} TotalUpdate(p: seq<int>, g: int, j: int, f: seq<int>, k: int, v: int)
    requires 1 <= k < |f|
    ensures Total(p, g, j, f[k := v]) == Total(p, g, j, f) + If(k <= j && Hangs(p, g, k), v - f[k])
    decreases j
  {
    if j > 0 { TotalUpdate(p, g, j - 1, f, k, v); }
  }

  /** Below `g` its children take its place. */
  lemma {:induction false} TotalLower(p: seq<int>, top: int, g: int, a: int, b: int, j: int, f: seq<int>)
    requires Children(p, top, g, a, b) && j <= top
    ensures Total(p, g - 1, j, f) == Total(p, g, j, f) + If(a <= j, F(f, a)) + If(b <= j, F(f, b))
    decreases j
  {
    if j > 0 {
      TotalLower(p, top, g, a, b, j - 1, f);
      assert At(p, j) == g <==> j == a || j == b;
    }
  }

  lemma TotalBelow(p: seq<int>, n: int, top: int, g: int, a: int, b: int, f: seq<int>)
    requires OneTree(p, n, top) && n < g <= top && Children(p, top, g, a, b)
    ensures Total(p, g - 1, g - 1, f) == Total(p, g, g, f) - F(f, g) + F(f, a) + F(f, b)
  {
    TotalLower(p, top, g, a, b, g - 1, f);
    assert Hangs(p, g, g);
  }

  ghost predicate Positive(p: seq<int>, g: int, j: int, f: seq<int>) {
    forall i :: 1 <= i <= j && Hangs(p, g, i) ==> F(f, i) >= 0
  }

  lemma {:induction false} TotalPositive(p: seq<int>, g: int, j: int, f: seq<int>)
    requires Positive(p, g, j, f)
    ensures Total(p, g, j, f) >= 0
    decreases j
  {
    if j > 0 { TotalPositive(p, g, j - 1, f); }
  }

  lemma {:induction false} TotalHasOne(p: seq<int>, g: int, j: int, f: seq<int>, a: int)
    requires Positive(p, g, j, f) && 1 <= a <= j && Hangs(p, g, a)
    ensures Total(p, g, j, f) >= F(f, a)
    decreases j
  {
    TotalPositive(p, g, j - 1, f);
    if a < j { TotalHasOne(p, g, j - 1, f, a); }
  }

  lemma {:induction false} TotalHasTwo(p: seq<int>, g: int, j: int, f: seq<int>, a: int, b: int)
    requires Positive(p, g, j, f) && 1 <= a < b <= j && Hangs(p, g, a) && Hangs(p, g, b)
    ensures Total(p, g, j, f) >= F(f, a) + F(f, b)
    decreases j
  {
    if b < j { TotalHasTwo(p, g, j - 1, f, a, b); } else { TotalHasOne(p, g, j - 1, f, a); }
  }

  // ----- lengths for the roots

  /** What each node costs. */
  function Costs(w: seq<int>, lens: seq<nat>): (r: seq<int>)
    ensures |r| == |lens|
  {
    seq(|lens|, j requires 0 <= j < |lens| => Wt(w, j) * lens[j])
  }

  /** The code space that each node takes, of a space of 2 to the power of `m`. */
  function Shares(lens: seq<nat>, m: nat): (r: seq<int>)
    ensures |r| == |lens|
  {
    seq(|lens|, j requires 0 <= j < |lens| => P2(m - lens[j]))
  }

  function Cost(w: seq<int>, p: seq<int>, g: int, lens: seq<nat>): int {
    Total(p, g, g, Costs(w, lens))
  }

  function Space(p: seq<int>, g: int, lens: seq<nat>, m: nat): int {
    Total(p, g, g, Shares(lens, m))
  }

  /** Lengths for the roots when there are `g` nodes. */
  ghost predicate Fitting(p: seq<int>, g: int, lens: seq<nat>, m: nat) {
    && 0 <= g < |lens| && (forall i :: 1 <= i <= g && Hangs(p, g, i) ==> lens[i] <= m)
    && Space(p, g, lens, m) <= P2(m)
  }

  lemma CostsAt(w: seq<int>, lens: seq<nat>, k: int, x: nat)
    requires 0 <= k < |lens|
    ensures Costs(w, lens[k := x]) == Costs(w, lens)[k := Wt(w, k) * x]
  {
  }

  lemma SharesAt(lens: seq<nat>, m: nat, k: int, x: nat)
    requires 0 <= k < |lens|
    ensures Shares(lens[k := x], m) == Shares(lens, m)[k := P2(m - x)]
  {
  }

  /** A root `k` gets the length `x`. */
  lemma Change(w: seq<int>, p: seq<int>, g: int, lens: seq<nat>, m: nat, k: int, x: nat)
    requires 1 <= k <= g < |lens| && Hangs(p, g, k)
    ensures Cost(w, p, g, lens[k := x]) == Cost(w, p, g, lens) + Wt(w, k) * x - Wt(w, k) * lens[k]
    ensures Space(p, g, lens[k := x], m) == Space(p, g, lens, m) + P2(m - x) - P2(m - lens[k])
  {
    CostsAt(w, lens, k, x);
    SharesAt(lens, m, k, x);
    TotalUpdate(p, g, g, Costs(w, lens), k, Wt(w, k) * x);
    TotalUpdate(p, g, g, Shares(lens, m), k, P2(m - x));
  }

  // ----- exchanging lengths

  lemma ProductOrder(u: int, v: int, x: int, y: int)
    requires u <= v && x <= y
    ensures v * x + u * y <= u * x + v * y
  {
    assert (v - u) * (y - x) >= 0;
  }

  /** The lighter one of two roots gets the longer code. */
  lemma Exchange(w: seq<int>, p: seq<int>, g: int, lens: seq<nat>, m: nat, a: int, x: int) returns (r: seq<nat>)
    requires Fitting(p, g, lens, m) && 1 <= a <= g && 1 <= x <= g && Hangs(p, g, a) && Hangs(p, g, x)
    requires Wt(w, a) <= Wt(w, x) && lens[a] <= lens[x]
    ensures Fitting(p, g, r, m) && Cost(w, p, g, r) <= Cost(w, p, g, lens)
    ensures |r| == |lens| && r[a] == lens[x] && r[x] == lens[a] && forall k :: 0 <= k < |r| && k != a && k != x ==>
      r[k] == lens[k]
  {
    hide Cost, Space, Hangs;
    r := lens[a := lens[x]];
    Change(w, p, g, lens, m, a, lens[x]);
    if a != x {
      Change(w, p, g, r, m, x, lens[a]);
      ProductOrder(Wt(w, a), Wt(w, x), lens[a], lens[x]);
      r := r[x := lens[a]];
    }
  }

  /** A longest one among the roots up to `j`, other than `but`; `a` is one of them. */
  lemma {:induction false} Longest(p: seq<int>, g: int, lens: seq<nat>, j: int, but: int, a: int) returns (x: int)
    requires 1 <= a <= j <= g < |lens| && Hangs(p, g, a) && a != but
    ensures 1 <= x <= j && Hangs(p, g, x) && x != but
    ensures forall i :: 1 <= i <= j && Hangs(p, g, i) && i != but ==> lens[i] <= lens[x]
    decreases j
  {
    if a == j {
      x := j;
      for i := 1 to j
        invariant 1 <= x <= j && Hangs(p, g, x) && x != but && lens[j] <= lens[x]
        invariant forall k :: 1 <= k < i && Hangs(p, g, k) && k != but ==> lens[k] <= lens[x]
      {
        if Hangs(p, g, i) && i != but && lens[i] > lens[x] {
          x := i;
        }
      }
    } else {
      x := Longest(p, g, lens, j - 1, but, a);
      if Hangs(p, g, j) && j != but && lens[j] > lens[x] {
        x := j;
      }
    }
  }

  lemma {:induction false} P2Sum(i: nat, j: nat)
    ensures P2(i + j) == P2(i) * P2(j)
  {
    if i > 0 { P2Sum(i - 1, j); }
  }

  /** The shares of all roots but `a`, whose codes are shorter than `len`, are multiples of
      twice the share of a code of `len` bits. */
  lemma {:induction false} EvenShares(p: seq<int>, g: int, lens: seq<nat>, m: nat, j: int, a: int, len: nat)
    returns (t: int)
    requires j <= g < |lens| && 1 <= len <= m && 1 <= a <= g && Hangs(p, g, a)
    requires forall i :: 1 <= i <= j && Hangs(p, g, i) && i != a ==> lens[i] < len
    ensures Total(p, g, j, Shares(lens, m)) == 2 * P2(m - len) * t + If(a <= j, P2(m - lens[a]))
    decreases j
  {
    hide P2;
    t := 0;
    if j > 0 {
      t := EvenShares(p, g, lens, m, j - 1, a, len);
      if Hangs(p, g, j) && j != a {
        var u := P2(len - 1 - lens[j]);
        EvenShare(m, len, lens[j]);
        Distribute(2 * P2(m - len), t, u);
        t := t + u;
      }
    }
  }

  lemma EvenShare(m: nat, len: nat, x: nat)
    requires x < len <= m
    ensures P2(m - x) == 2 * P2(m - len) * P2(len - 1 - x)
  {
    P2Sum(m - len + 1, len - 1 - x);
    assert P2(m - len + 1) == 2 * P2(m - len);
  }

  lemma Distribute(q: int, t: int, u: int)
    ensures q * t + q * u == q * (t + u)
  {
  }

  lemma MultipleRoom(q: int, t: int, u: int)
    requires q >= 1 && 2 * q * t + q <= 2 * q * u
    ensures 2 * q * t + 2 * q <= 2 * q * u
  {
    if t >= u { TimesOrder(2 * q, u, t); }
    TimesOrder(2 * q, t + 1, u);
  }

  lemma TimesOrder(q: int, x: int, y: int)
    requires q >= 0 && x <= y
    ensures q * x <= q * y
  {
  }

  /** A single longest code can be shortened. */
  lemma Shorten(w: seq<int>, p: seq<int>, g: int, lens: seq<nat>, m: nat, a: int)
    requires Fitting(p, g, lens, m) && 1 <= a <= g && Hangs(p, g, a) && lens[a] >= 1 && Wt(w, a) >= 0
    requires forall i :: 1 <= i <= g && Hangs(p, g, i) && i != a ==> lens[i] < lens[a]
    ensures Fitting(p, g, lens[a := lens[a] - 1], m)
    ensures Cost(w, p, g, lens[a := lens[a] - 1]) <= Cost(w, p, g, lens)
  {
    hide Cost;
    var len := lens[a];
    Change(w, p, g, lens, m, a, len - 1);
    var t := EvenShares(p, g, lens, m, g, a, len);
    var q, u := P2(m - len), P2(len - 1);
    P2Sum(m - len, 1 + (len - 1));
    assert P2(m) == 2 * q * u by { assert P2(len) == 2 * u; assert q * (2 * u) == 2 * q * u; }
    MultipleRoom(q, t, u);
    assert Wt(w, a) * (len - 1) == Wt(w, a) * len - Wt(w, a);
    assert P2(m - (len - 1)) == 2 * q;
  }

  /** The two longest codes get the same length. */
  lemma {:induction false} Level(w: seq<int>, p: seq<int>, g: int, lens: seq<nat>, m: nat, a: int, b: int)
    returns (r: seq<nat>)
    requires Fitting(p, g, lens, m) && 1 <= a <= g && 1 <= b <= g && a != b && Hangs(p, g, a) && Hangs(p, g, b)
    requires Wt(w, a) >= 0 && lens[b] <= lens[a]
    requires forall i :: 1 <= i <= g && Hangs(p, g, i) && i != a ==> lens[i] <= lens[b]
    ensures Fitting(p, g, r, m) && |r| == |lens| && r[a] == r[b] && Cost(w, p, g, r) <= Cost(w, p, g, lens)
    ensures forall i :: 1 <= i <= g && Hangs(p, g, i) ==> r[i] <= r[b]
    decreases lens[a]
  {
    hide Fitting, Cost, Hangs;
    LensLonger(p, g, lens, m);
    r := lens;
    if lens[a] > lens[b] {
      Shorten(w, p, g, lens, m, a);
      r := Level(w, p, g, lens[a := lens[a] - 1], m, a, b);
    }
  }

  lemma LensLonger(p: seq<int>, g: int, lens: seq<nat>, m: nat)
    requires Fitting(p, g, lens, m)
    ensures 0 <= g < |lens|
  {
  }

  /** The two lightest roots can have codes of the same length, which are not empty. */
  lemma Pair(w: seq<int>, p: seq<int>, g: int, lens: seq<nat>, m: nat, a: int, b: int) returns (r: seq<nat>)
    requires Fitting(p, g, lens, m) && 1 <= a <= g && 1 <= b <= g && a != b && Hangs(p, g, a) && Hangs(p, g, b)
    requires 0 <= Wt(w, a) <= Wt(w, b)
    requires forall i :: 1 <= i <= g && Hangs(p, g, i) && i != a ==> Wt(w, b) <= Wt(w, i)
    ensures Fitting(p, g, r, m) && |r| == |lens| && Cost(w, p, g, r) <= Cost(w, p, g, lens)
    ensures r[a] == r[b] >= 1
  {
    hide Fitting, Cost, Hangs;
    LensLonger(p, g, lens, m);
    var x := Longest(p, g, lens, g, 0, a);
    var s := Exchange(w, p, g, lens, m, a, x);
    var y := Longest(p, g, s, g, a, b);
    var t := Exchange(w, p, g, s, m, b, y);
    r := Level(w, p, g, t, m, a, b);
    NotEmpty(p, g, r, m, a, b);
  }

  lemma NotEmpty(p: seq<int>, g: int, lens: seq<nat>, m: nat, a: int, b: int)
    requires Fitting(p, g, lens, m) && 1 <= a <= g && 1 <= b <= g && a != b && Hangs(p, g, a) && Hangs(p, g, b)
    requires lens[a] == lens[b]
    ensures lens[b] >= 1
  {
    var f := Shares(lens, m);
    assert Positive(p, g, g, f);
    if a < b { TotalHasTwo(p, g, g, f, a, b); } else { TotalHasTwo(p, g, g, f, b, a); }
  }

  // ----- the tree

  function Depths(p: seq<int>, top: nat): (r: seq<nat>)
    ensures |r| == top + 1
  {
    seq(top + 1, k => Depth(p, top, k))
  }

  /** A tree whose nodes were merged when they were lightest. */
  ghost predicate Huffmans(w: seq<int>, p: seq<int>, n: int, top: int) {
    && OneTree(p, n, top) && Sums(w, p, top) && Lightest(w, p, top)
    && forall k :: 1 <= k <= top ==> Wt(w, k) >= 0
  }

  /** The two children of `g` become one code. */
  lemma Merged(w: seq<int>, p: seq<int>, n: int, top: int, g: int, a: int, b: int, lens: seq<nat>, m: nat)
    requires Huffmans(w, p, n, top) && n < g <= top && Children(p, top, g, a, b) && |lens| == top + 1
    requires Fitting(p, g - 1, lens, m) && lens[a] == lens[b] >= 1
    ensures Fitting(p, g, lens[g := lens[a] - 1], m)
    ensures Cost(w, p, g, lens[g := lens[a] - 1]) == Cost(w, p, g - 1, lens) - Wt(w, g)
  {
    hide Cost, Space;
    var x, s := lens[a], lens[g := lens[a] - 1];
    assert At(p, a) == g && At(p, b) == g;
    assert Hangs(p, g - 1, a) && Hangs(p, g - 1, b);
    Lowered(w, p, n, top, g, a, b, lens, m, x - 1);
    Doubled(Wt(w, a), Wt(w, b), Wt(w, g), x);
    assert P2(m - (x - 1)) == 2 * P2(m - x);
    forall i | 1 <= i <= g && Hangs(p, g, i) ensures s[i] <= m {
      assert i < g ==> Hangs(p, g - 1, i);
    }
  }

  lemma Lowered(w: seq<int>, p: seq<int>, n: int, top: int, g: int, a: int, b: int, lens: seq<nat>, m: nat, y: nat)
    requires OneTree(p, n, top) && n < g <= top && Children(p, top, g, a, b) && |lens| == top + 1
    ensures Cost(w, p, g, lens[g := y])
         == Cost(w, p, g - 1, lens) + Wt(w, g) * y - Wt(w, a) * lens[a] - Wt(w, b) * lens[b]
    ensures Space(p, g, lens[g := y], m) == Space(p, g - 1, lens, m) + P2(m - y) - P2(m - lens[a]) - P2(m - lens[b])
  {
    hide OneTree, Children, Total, P2, Wt;
    InTree(p, n, top, g, a, b);
    var s := lens[g := y];
    TotalBelow(p, n, top, g, a, b, Costs(w, s));
    TotalBelow(p, n, top, g, a, b, Shares(s, m));
    CostsAt(w, lens, g, y);
    SharesAt(lens, m, g, y);
    TotalUpdate(p, g - 1, g - 1, Costs(w, lens), g, Wt(w, g) * y);
    TotalUpdate(p, g - 1, g - 1, Shares(lens, m), g, P2(m - y));
  }

  lemma InTree(p: seq<int>, n: int, top: int, g: int, a: int, b: int)
    requires OneTree(p, n, top) && n < g <= top && Children(p, top, g, a, b)
    ensures 1 <= n && 1 <= a < g && 1 <= b < g && a != b
  {
  }

  lemma Doubled(u: int, v: int, s: int, x: int)
    requires s == u + v
    ensures s * (x - 1) == u * x + v * x - s
  {
  }

  /** The depths of the two children are one more than that of their parent. */
  lemma DepthsBelow(w: seq<int>, p: seq<int>, n: int, top: int, g: int, a: int, b: int)
    requires Huffmans(w, p, n, top) && n < g <= top && Children(p, top, g, a, b)
    ensures Cost(w, p, g - 1, Depths(p, top)) == Cost(w, p, g, Depths(p, top)) + Wt(w, g)
  {
    var d := Depths(p, top);
    assert At(p, a) == g && At(p, b) == g;
    TotalBelow(p, n, top, g, a, b, Costs(w, d));
    Doubled(Wt(w, a), Wt(w, b), Wt(w, g), d[g] + 1);
  }

  lemma {:induction false} TopOnly(p: seq<int>, n: int, top: int, f: seq<int>, j: int)
    requires OneTree(p, n, top) && j < top
    ensures Total(p, top, j, f) == 0
    decreases j
  {
    if j > 0 { TopOnly(p, n, top, f, j - 1); }
  }

  /** At no time are there better lengths for the roots than their depths in the whole tree. */
  lemma {:induction false} RootsOptimal(w: seq<int>, p: seq<int>, n: int, top: nat, g: int, lens: seq<nat>, m: nat)
    requires Huffmans(w, p, n, top) && n <= g <= top && |lens| == top + 1 && Fitting(p, g, lens, m)
    ensures Cost(w, p, g, Depths(p, top)) <= Cost(w, p, g, lens)
    decreases top - g
  {
    hide Huffmans, Fitting, Cost, Hangs, Wt, Children;
    if g == top {
      TopOptimal(w, p, n, top, lens, m);
    } else {
      var a, b := NextMerge(w, p, n, top, g + 1);
      var r := Pair(w, p, g, lens, m, a, b);
      Merged(w, p, n, top, g + 1, a, b, r, m);
      DepthsBelow(w, p, n, top, g + 1, a, b);
      RootsOptimal(w, p, n, top, g + 1, r[g + 1 := r[a] - 1], m);
    }
  }

  lemma TopOptimal(w: seq<int>, p: seq<int>, n: int, top: nat, lens: seq<nat>, m: nat)
    requires Huffmans(w, p, n, top) && |lens| == top + 1
    ensures Cost(w, p, top, Depths(p, top)) <= Cost(w, p, top, lens)
  {
    hide Huffmans, Cost, Wt;
    CostTop(w, p, n, top, Depths(p, top));
    CostTop(w, p, n, top, lens);
  }

  lemma CostTop(w: seq<int>, p: seq<int>, n: int, top: int, lens: seq<nat>)
    requires Huffmans(w, p, n, top) && |lens| == top + 1
    ensures Cost(w, p, top, lens) == Wt(w, top) * lens[top]
    ensures Wt(w, top) >= 0 && Wt(w, top) * lens[top] >= 0 && Depth(p, top, top) == 0
  {
    hide Wt;
    TopOnly(p, n, top, Costs(w, lens), top - 1);
    assert Hangs(p, top, top);
  }

  /** The two children of `g`, the lighter one first: no root was lighter. */
  lemma NextMerge(w: seq<int>, p: seq<int>, n: int, top: int, g: int) returns (a: int, b: int)
    requires Huffmans(w, p, n, top) && n < g <= top
    ensures Children(p, top, g, a, b) && 1 <= a < g && 1 <= b < g && a != b
    ensures Hangs(p, g - 1, a) && Hangs(p, g - 1, b) && 0 <= Wt(w, a) <= Wt(w, b)
    ensures forall i :: 1 <= i <= g - 1 && Hangs(p, g - 1, i) && i != a ==> Wt(w, b) <= Wt(w, i)
  {
    assert TwoChildren(p, top, g);
    a, b :| Children(p, top, g, a, b);
    if Wt(w, b) < Wt(w, a) {
      a, b := b, a;
    }
    ChildrenLightest(w, p, n, top, g, a, b);
  }

  lemma ChildrenLightest(w: seq<int>, p: seq<int>, n: int, top: int, g: int, a: int, b: int)
    requires Huffmans(w, p, n, top) && n < g <= top && Children(p, top, g, a, b)
    ensures Hangs(p, g - 1, a) && Hangs(p, g - 1, b) && 1 <= a < g && 1 <= b < g && 0 <= Wt(w, a) && 0 <= Wt(w, b)
    ensures forall i :: 1 <= i <= g - 1 && Hangs(p, g - 1, i) && i != a && i != b ==>
      Wt(w, a) <= Wt(w, i) && Wt(w, b) <= Wt(w, i)
  {
    assert At(p, a) == g && At(p, b) == g;
    forall i | 1 <= i <= g - 1 && Hangs(p, g - 1, i) && i != a && i != b
      ensures Wt(w, a) <= Wt(w, i) && Wt(w, b) <= Wt(w, i)
    {
      assert Hangs(p, At(p, a), i);
    }
  }

  // ----- the leaves

  ghost predicate ForLeaf(w: seq<int>, weights: seq<nat>, lens: seq<nat>, all: seq<nat>, m: nat, i: int) {
    0 <= i < |weights| == |lens| < |all| && weights[i] == Wt(w, i + 1) && lens[i] == all[i + 1] <= m
  }

  lemma {:induction false} LeafSums(w: seq<int>, p: seq<int>, n: int, top: int, weights: seq<nat>, lens: seq<nat>,
          all: seq<nat>, m: nat, j: nat)
    requires OneTree(p, n, top) && j <= n < top && |weights| == |lens| == n && |all| == top + 1
    requires forall i :: 0 <= i < n ==> ForLeaf(w, weights, lens, all, m, i)
    ensures Total(p, n, j, Costs(w, all)) == CodeCost(weights[..j], lens[..j])
    ensures (forall i :: 0 <= i < j ==> lens[..j][i] <= m) && Total(p, n, j, Shares(all, m)) == KraftSum(lens[..j], m)
    decreases j
  {
    forall i | 0 <= i < j ensures lens[..j][i] <= m {
      assert ForLeaf(w, weights, lens, all, m, i);
    }
    if j > 0 {
      LeafSums(w, p, n, top, weights, lens, all, m, j - 1);
      assert ForLeaf(w, weights, lens, all, m, j - 1);
      assert weights[..j][..j - 1] == weights[..j - 1] && lens[..j][..j - 1] == lens[..j - 1];
      assert Hangs(p, n, j);
    }
  }

  lemma LeafTotals(w: seq<int>, p: seq<int>, n: int, top: int, weights: seq<nat>, lens: seq<nat>, all: seq<nat>,
          m: nat)
    requires OneTree(p, n, top) && n < top && |weights| == |lens| == n && |all| == top + 1
    requires forall i :: 0 <= i < n ==> ForLeaf(w, weights, lens, all, m, i)
    ensures (forall i :: 0 <= i < n ==> lens[i] <= m) && Total(p, n, n, Shares(all, m)) == KraftSum(lens, m)
    ensures Total(p, n, n, Costs(w, all)) == CodeCost(weights, lens)
  {
    hide Total, KraftSum, CodeCost, Costs, Shares;
    LeafSums(w, p, n, top, weights, lens, all, m, n);
    assert weights[..n] == weights && lens[..n] == lens;
  }

  lemma P2Is(m: nat)
    ensures P2(m) == Pow2(m)
  {
  }

  /** The depths of the leaves are the lengths of a cheapest code. */
  lemma TreeOptimal(w: seq<int>, p: seq<int>, n: int, top: int, weights: seq<nat>, lens: seq<nat>)
    requires Huffmans(w, p, n, top) && n < top && |weights| == |lens| == n
    requires forall i :: 0 <= i < n ==> weights[i] == Wt(w, i + 1) && lens[i] == Depth(p, top, i + 1)
    ensures Optimal(weights, lens)
  {
    hide Codable;
    DepthsFit(w, p, n, top, weights, lens);
    forall other: seq<nat>, m: nat | |other| == |weights| && Codable(other, m)
      ensures CodeCost(weights, lens) <= CodeCost(weights, other)
    {
      NoCheaper(w, p, n, top, weights, lens, other, m);
    }
  }

  lemma NoCheaper(w: seq<int>, p: seq<int>, n: int, top: int, weights: seq<nat>, lens: seq<nat>, other: seq<nat>,
          m: nat)
    requires Huffmans(w, p, n, top) && n < top && |weights| == |lens| == |other| == n && Codable(other, m)
    requires forall i :: 0 <= i < n ==> weights[i] == Wt(w, i + 1) && lens[i] == Depth(p, top, i + 1)
    ensures CodeCost(weights, lens) <= CodeCost(weights, other)
  {
    hide Huffmans, Fitting, Codable, Cost, CodeCost, Wt, Depth;
    var all := ForLeaves(w, p, n, top, weights, other, m);
    DepthsCost(w, p, n, top, weights, lens);
    RootsOptimal(w, p, n, top, n, all, m);
  }

  /** Lengths for the leaves alone. */
  lemma ForLeaves(w: seq<int>, p: seq<int>, n: int, top: int, weights: seq<nat>, other: seq<nat>, m: nat)
    returns (all: seq<nat>)
    requires Huffmans(w, p, n, top) && n < top && |weights| == |other| == n && Codable(other, m)
    requires forall i :: 0 <= i < n ==> weights[i] == Wt(w, i + 1)
    ensures 1 <= n && |all| == top + 1 && Fitting(p, n, all, m) && Cost(w, p, n, all) == CodeCost(weights, other)
  {
    hide OneTree, Sums, Lightest, Total, Hangs, KraftSum, CodeCost, Costs, Shares, P2, Pow2, Wt;
    all := [0] + other + seq(top - n, _ => 0);
    forall i | 0 <= i < n ensures ForLeaf(w, weights, other, all, m, i) {
      assert all[i + 1] == other[i];
    }
    LeafTotals(w, p, n, top, weights, other, all, m);
    P2Is(m);
    DepthsBound(p, n, top);
  }

  lemma DepthsCost(w: seq<int>, p: seq<int>, n: int, top: int, weights: seq<nat>, lens: seq<nat>)
    requires Huffmans(w, p, n, top) && n < top && |weights| == |lens| == n
    requires forall i :: 0 <= i < n ==> weights[i] == Wt(w, i + 1) && lens[i] == Depth(p, top, i + 1)
    ensures Cost(w, p, n, Depths(p, top)) == CodeCost(weights, lens)
  {
    hide OneTree, Sums, Lightest, Total, KraftSum, CodeCost, Costs, Shares, Wt;
    DepthsBound(p, n, top);
    LeafTotals(w, p, n, top, weights, lens, Depths(p, top), top);
  }

  lemma DepthsBound(p: seq<int>, n: int, top: int)
    requires OneTree(p, n, top)
    ensures 1 <= n && forall k :: 1 <= k <= top ==> Depth(p, top, k) <= top
  {
    forall k | 1 <= k <= top ensures Depth(p, top, k) <= top {
      DepthBound(p, n, top, k);
    }
  }

  /** The depths fill the code space, so there is a code with these lengths. */
  lemma DepthsFit(w: seq<int>, p: seq<int>, n: int, top: int, weights: seq<nat>, lens: seq<nat>)
    requires Huffmans(w, p, n, top) && n < top && |weights| == |lens| == n
    requires forall i :: 0 <= i < n ==> weights[i] == Wt(w, i + 1) && lens[i] == Depth(p, top, i + 1)
    ensures Codable(lens, top)
  {
    DepthsBound(p, n, top);
    LeafTotals(w, p, n, top, weights, lens, Depths(p, top), top);
    FrontAt(p, n, top, top, n);
    TotalIsFront(p, top, n, n);
    P2Is(top);
  }

  lemma {:induction false} TotalIsFront(p: seq<int>, top: int, g: int, j: int)
    requires 0 <= j <= top
    ensures Total(p, g, j, Shares(Depths(p, top), top)) == Front(p, top, top, g, j)
    decreases j
  {
    if j > 0 { TotalIsFront(p, top, g, j - 1); }
  }

  /** With a cheapest code a heavier symbol has no longer code. */
  lemma HeavierShorter(weights: seq<nat>, lens: seq<nat>, i: nat, j: nat)
    requires Optimal(weights, lens) && i < |weights| && j < |weights| && weights[i] > weights[j]
    ensures lens[i] <= lens[j]
  {
    hide CodeCost, KraftSum;
    if lens[i] > lens[j] {
      var m: nat :| Codable(lens, m);
      Swapped(weights, lens, m, i, j);
      assert Codable(lens[i := lens[j]][j := lens[i]], m);
      Gain(weights[i], weights[j], lens[i], lens[j]);
    }
  }

  lemma Gain(u: nat, v: nat, x: nat, y: nat)
    requires u > v && x > y
    ensures u * y + v * x < u * x + v * y
  {
    assert (u - v) * (x - y) > 0;
  }

  lemma Swapped(weights: seq<nat>, lens: seq<nat>, m: nat, i: nat, j: nat)
    requires |weights| == |lens| && i < |lens| && j < |lens| && i != j
    requires forall k :: 0 <= k < |lens| ==> lens[k] <= m
    ensures var other := lens[i := lens[j]][j := lens[i]];
      && CodeCost(weights, other) == CodeCost(weights, lens) + weights[i] * lens[j] - weights[i] * lens[i]
                                     + weights[j] * lens[i] - weights[j] * lens[j]
      && (forall k :: 0 <= k < |other| ==> other[k] <= m) && KraftSum(other, m) == KraftSum(lens, m)
  {
    hide CodeCost, KraftSum;
    CostUpdate(weights, lens, i, lens[j]);
    CostUpdate(weights, lens[i := lens[j]], j, lens[i]);
    KraftUpdate(lens, m, i, lens[j]);
    KraftUpdate(lens[i := lens[j]], m, j, lens[i]);
  }

  lemma {:induction false} CostUpdate(weights: seq<nat>, lens: seq<nat>, i: nat, x: nat)
    requires |weights| == |lens| && i < |lens|
    ensures CodeCost(weights, lens[i := x]) == CodeCost(weights, lens) + weights[i] * x - weights[i] * lens[i]
    decreases |lens|
  {
    var k := |lens| - 1;
    if i == k {
      assert lens[i := x][..k] == lens[..k];
    } else {
      assert lens[i := x][..k] == lens[..k][i := x];
      CostUpdate(weights[..k], lens[..k], i, x);
    }
  }

  lemma {:induction false} KraftUpdate(lens: seq<nat>, m: nat, i: nat, x: nat)
    requires i < |lens| && x <= m && forall j :: 0 <= j < |lens| ==> lens[j] <= m
    ensures KraftSum(lens[i := x], m) == KraftSum(lens, m) + Pow2(m - x) - Pow2(m - lens[i])
    decreases |lens|
  {
    var k := |lens| - 1;
    if i == k {
      assert lens[i := x][..k] == lens[..k];
    } else {
      assert lens[i := x][..k] == lens[..k][i := x];
      KraftUpdate(lens[..k], m, i, x);
    }
  }
}
