/** The shell sort of the main sort: pointers to rotations that begin with the same
    bytes, put in the order of the rotations. */
module ShellSort {
  import opened Bits
  import opened Wrappers
  import opened Permutations
  import opened Rotations
  import opened RotationRanks
  import opened MainCompare
  import opened QuickSort

  /** The increments. */
  const INCS: seq<nat> :=
    [1, 4, 13, 40, 121, 364, 1093, 3280, 9841, 29524, 88573, 265720, 797161, 2391484]

  // ----- insertion

  /** While entry `i` of `f0` is on its way down to `j`, past entries that are not less. */
  ghost predicate Sinking(f0: seq<nat>, g: seq<nat>, e: seq<nat>, lo: int, i: int, j: int) {
    && 0 <= lo <= j <= i < |f0| == |g| && g[j] == f0[i]
    && (forall k {:trigger g[k]} :: j < k <= i ==> g[k] == f0[k - 1])
    && (forall k :: j <= k < i ==> Key(f0, e, k) >= Key(f0, e, i))
    && (forall k :: lo <= k < j ==> g[k] == f0[k])
  }

  lemma SinkOn(f0: seq<nat>, g: seq<nat>, e: seq<nat>, lo: nat, i: nat, j: nat)
    requires Sinking(f0, g, e, lo, i, j) && lo < j && Key(g, e, j - 1) >= Key(g, e, j)
    ensures Sinking(f0, g[j := g[j - 1]][j - 1 := g[j]], e, lo, i, j - 1)
  {
  }

  lemma Sunk(f0: seq<nat>, g: seq<nat>, e: seq<nat>, lo: nat, i: nat, j: nat)
    requires Sinking(f0, g, e, lo, i, j) && SortedPart(f0, e, lo, i - 1)
    requires lo < j ==> Key(g, e, j - 1) <= Key(g, e, j)
    ensures SortedPart(g, e, lo, i)
  {
    forall k | lo <= k <= i ensures Key(g, e, k) == Key(f0, e, if k < j then k else if k == j then i else k - 1) {
      if k > j { assert g[k] == f0[k - 1]; }
    }
    forall x, y | lo <= x < y <= i ensures Key(g, e, x) <= Key(g, e, y) {
      if x < j && lo < j { assert Key(f0, e, x) <= Key(f0, e, j - 1) || x == j - 1; }
    }
  }

  /** Entry `i` of `f0`, which is `v`, is on its way down and has left a hole at `j`. */
  ghost predicate Moving(ptr: array<nat>, e: seq<nat>, f0: seq<nat>, g: seq<nat>, v: nat, lo: nat, hi: nat, i: nat,
          j: nat, h: nat)
    reads ptr
  {
    && lo <= j <= i <= hi < |g| <= ptr.Length && g[j] == v && But(ptr, g, j)
    && Entries(g, e) && Shuffled(f0, g, lo, hi)
    && (h == 1 ==> Sinking(f0, g, e, lo, i, j))
  }

  lemma MovingStarts(ptr: array<nat>, e: seq<nat>, f0: seq<nat>, lo: nat, hi: nat, i: nat, h: nat)
    requires lo <= i <= hi < |f0| <= ptr.Length && f0 == ptr[..|f0|] && Entries(f0, e)
    ensures Moving(ptr, e, f0, f0, ptr[i], lo, hi, i, i, h)
  {
    ShuffledSame(f0, lo, hi);
  }

  /** The entry moves down past one that is not less. */
  method MoveDown(ptr: array<nat>, ghost e: seq<nat>, ghost f0: seq<nat>, ghost g: seq<nat>, ghost v: nat,
          ghost lo: nat, ghost hi: nat, ghost i: nat, j: nat, h: nat)
    returns (ghost g': seq<nat>)
    requires Moving(ptr, e, f0, g, v, lo, hi, i, j, h) && 1 <= h && lo + h <= j && Key(g, e, j - h) >= Key(g, e, j)
    modifies ptr
    ensures Moving(ptr, e, f0, g', v, lo, hi, i, j - h, h) && |g'| == |g|
  {
    hide Shuffled, Sinking, Entries, Key;
    if h == 1 { SinkOn(f0, g, e, lo, i, j); }
    g' := MoveEntry(ptr, |g|, j, j - h, f0, g, e, lo, hi);
  }

  /** The entry is put down where it belongs. */
  method PutDown(ptr: array<nat>, ghost e: seq<nat>, ghost f0: seq<nat>, ghost g: seq<nat>, v: nat, ghost lo: nat,
          ghost hi: nat, ghost i: nat, j: nat, ghost h: nat)
    requires Moving(ptr, e, f0, g, v, lo, hi, i, j, h) && (h == 1 && lo < j ==> Key(g, e, j - 1) <= Key(g, e, j))
    modifies ptr
    ensures ptr[..|g|] == g && Entries(g, e) && Shuffled(f0, g, lo, hi)
    ensures h == 1 && SortedPart(f0, e, lo, i - 1) ==> SortedPart(g, e, lo, i)
  {
    hide Shuffled, Entries, Sinking, Key, SortedPart;
    if h == 1 && SortedPart(f0, e, lo, i - 1) { Sunk(f0, g, e, lo, i, j); }
    ptr[j] := v;
  }

  lemma MovingKeys(ptr: array<nat>, e: seq<nat>, f0: seq<nat>, g: seq<nat>, v: nat, lo: nat, hi: nat, i: nat, j: nat,
          h: nat)
    requires Moving(ptr, e, f0, g, v, lo, hi, i, j, h) && 1 <= h && lo + h <= j
    ensures j < |g| && ptr[j - h] == g[j - h] < |e| && v == g[j] < |e| && Shuffled(f0, g, lo, hi)
    ensures Key(g, e, j - h) == e[g[j - h]] && Key(g, e, j) == e[v]
  {
    hide Shuffled, Sinking;
  }

  // ----- pointers to rotations

  /** The rotations that a part points to begin with the same `d` bytes. */
  ghost predicate Shares(b: seq<byte>, f: seq<nat>, lo: int, hi: int, d: nat) {
    && |f| == |b| && (forall k :: 0 <= k < |f| ==> f[k] < |b|)
    && forall k, l :: 0 <= lo <= k <= hi < |f| && lo <= l <= hi ==> Agree(b, f[k], f[l], d)
  }

  lemma SharesEntries(b: seq<byte>, f: seq<nat>, lo: int, hi: int, d: nat)
    requires Shares(b, f, lo, hi, d)
    ensures Entries(f, Ranks(b))
  {
  }

  lemma SharesShuffled(b: seq<byte>, f: seq<nat>, g: seq<nat>, lo: nat, hi: int, d: nat)
    requires Shares(b, f, lo, hi, d) && Shuffled(f, g, lo, hi)
    ensures Shares(b, g, lo, hi, d)
  {
    EntriesShuffled(f, g, b, lo, hi);
    forall k, l | lo <= k <= hi < |g| && lo <= l <= hi ensures Agree(b, g[k], g[l], d) {
      var k' := FromWithin(f, g, lo, hi, k);
      var l' := FromWithin(f, g, lo, hi, l);
      assert Agree(b, f[k'], f[l'], d);
    }
  }

  lemma Apart(ptr: array<nat>, block: array<byte>, quadrant: array<nat>, nblock: nat, b: seq<byte>, q: seq<nat>)
    requires Setting(ptr, block, quadrant, nblock, b, q)
    ensures Separate(ptr, block) && ptr != quadrant && nblock == |b| <= ptr.Length
  {
  }

  lemma SharedPair(b: seq<byte>, f: seq<nat>, lo: nat, hi: int, d: nat, k: nat, l: nat)
    requires Shares(b, f, lo, hi, d) && lo <= k <= hi < |f| && lo <= l <= hi
    ensures Agree(b, f[k], f[l], d) && f[k] < |b| && f[l] < |b|
    ensures Key(f, Ranks(b), k) == Ranks(b)[f[k]] && Key(f, Ranks(b), l) == Ranks(b)[f[l]]
  {
  }

  /** Compares entry `k` with the one on its way. */
  method EntryGreater(p: nat, v: nat, block: array<byte>, quadrant: array<nat>, nblock: nat, d: nat, budget: int,
                      ghost b: seq<byte>, ghost q: seq<nat>)
    returns (gt: bool, left: int)
    requires nblock == |b| && Known(block, quadrant, b, q) && Agree(b, p, v, d) && d <= N_RADIX + N_QSORT + 1
    ensures if gt then Ranks(b)[p] >= Ranks(b)[v] else Ranks(b)[p] <= Ranks(b)[v]
    ensures left != budget ==> Agree(b, p, v, FREE_BYTES)
  {
    StartFollowing(b, p, v, d);
    hide Describes, Ranks, Padded, Repeated;
    gt, left := GreaterThan(p + d, v + d, block, quadrant, nblock, budget, b, q, p, v, d);
    if left != budget { AgreeLess(b, p, v, d + FREE_BYTES, FREE_BYTES); }
  }

  lemma ShuffledBag(f: seq<nat>, g: seq<nat>, lo: int, hi: int)
    requires Shuffled(f, g, lo, hi)
    ensures multiset(f) == multiset(g) && |f| == |g|
  {
  }

  /** The entry moves down past a greater one; if that one is not greater, the entry
      has found its place. */
  method SinkOne(ptr: array<nat>, block: array<byte>, quadrant: array<nat>, nblock: nat, v: nat, ghost lo: nat,
          ghost hi: nat, ghost i: nat, j: nat, h: nat, d: nat, budget: int, ghost b: seq<byte>, ghost q: seq<nat>,
          ghost f0: seq<nat>, ghost g: seq<nat>)
    returns (gt: bool, left: int, ghost g': seq<nat>)
    requires Setting(ptr, block, quadrant, nblock, b, q) && Moving(ptr, Ranks(b), f0, g, v, lo, hi, i, j, h)
    requires |g| == nblock
    requires 1 <= h && lo + h <= j <= i <= hi < nblock && Shares(b, f0, lo, hi, d) && d <= N_RADIX + N_QSORT + 1
    modifies ptr
    ensures gt ==> Moving(ptr, Ranks(b), f0, g', v, lo, hi, i, j - h, h) && |g'| == nblock
    ensures !gt ==>
      g' == g && Moving(ptr, Ranks(b), f0, g, v, lo, hi, i, j, h) && Key(g, Ranks(b), j - h) <= Key(g, Ranks(b), j)
    ensures left != budget ==> Repetitive(b, multiset(f0))
  {
    hide Shuffled, Known, Ranks, Agree, Shares, Moving, Key, Repetitive;
    MovingKeys(ptr, Ranks(b), f0, g, v, lo, hi, i, j, h);
    SharesShuffled(b, f0, g, lo, hi, d);
    SharedPair(b, g, lo, hi, d, j - h, j);
    g' := g;
    gt, left := EntryGreater(ptr[j - h], v, block, quadrant, nblock, d, budget, b, q);
    ShuffledBag(f0, g, lo, hi);
    if left != budget { RepeatFound(b, g, j - h, j); }
    if gt {
      g' := MoveDown(ptr, Ranks(b), f0, g, v, lo, hi, i, j, h);
    }
  }

  /** Inserts entry `i` into every `h`-th entry before it. */
  method Insert(ptr: array<nat>, block: array<byte>, quadrant: array<nat>, nblock: nat, lo: nat, ghost hi: nat, i: nat,
          h: nat, d: nat, budget: int, ghost b: seq<byte>, ghost q: seq<nat>)
    returns (left: int)
    requires Setting(ptr, block, quadrant, nblock, b, q)
    requires 1 <= h && lo + h <= i <= hi < nblock && d <= N_RADIX + N_QSORT + 1 && Shares(b, ptr[..nblock], lo, hi, d)
    modifies ptr
    ensures Shuffled(old(ptr[..nblock]), ptr[..nblock], lo, hi) && Shares(b, ptr[..nblock], lo, hi, d)
    ensures h == 1 && SortedPart(old(ptr[..nblock]), Ranks(b), lo, i - 1) ==> SortedPart(ptr[..nblock], Ranks(b), lo, i)
    ensures left != budget ==> Repetitive(b, multiset(old(ptr[..nblock])))
  {
    hide Repetitive, Moving, Setting, Shuffled, SortedPart, Shares, Key, Ranks, Entries;
    Apart(ptr, block, quadrant, nblock, b, q);
    ghost var f0 := ptr[..nblock];
    ghost var g := f0;
    var v, j := ptr[i], i;
    SharesEntries(b, f0, lo, hi, d);
    MovingStarts(ptr, Ranks(b), f0, lo, hi, i, h);
    left := budget;
    while true
      invariant lo + h <= j <= i && |g| == nblock && Setting(ptr, block, quadrant, nblock, b, q)
      invariant Moving(ptr, Ranks(b), f0, g, v, lo, hi, i, j, h) && (left != budget ==> Repetitive(b, multiset(f0)))
      decreases j
    {
      var gt;
      gt, left, g := SinkOne(ptr, block, quadrant, nblock, v, lo, hi, i, j, h, d, left, b, q, f0, g);
      if !gt {
        break;
      }
      j := j - h;
      if j <= lo + h - 1 {
        break;
      }
    }
    PutDown(ptr, Ranks(b), f0, g, v, lo, hi, i, j, h);
    SharesShuffled(b, f0, g, lo, hi, d);
  }

  // ----- the passes

  /** One pass of insertions, three at a time. Between them the pass stops when too
      much work has been done. */
  method Pass(ptr: array<nat>, block: array<byte>, quadrant: array<nat>, nblock: nat, lo: nat, hi: nat, h: nat, d: nat,
          budget: int, ghost b: seq<byte>, ghost q: seq<nat>)
    returns (left: int, stopped: bool)
    requires Setting(ptr, block, quadrant, nblock, b, q)
    requires 1 <= h && lo <= hi < nblock && d <= N_RADIX + N_QSORT + 1 && Shares(b, ptr[..nblock], lo, hi, d)
    modifies ptr
    ensures Shuffled(old(ptr[..nblock]), ptr[..nblock], lo, hi) && Shares(b, ptr[..nblock], lo, hi, d)
    ensures stopped ==> left < 0
    ensures left != budget ==> Repetitive(b, multiset(old(ptr[..nblock])))
    ensures !stopped && h == 1 ==> SortedPart(ptr[..nblock], Ranks(b), lo, hi)
  {
    ghost var f0 := ptr[..nblock];
    assert SortedPart(f0, Ranks(b), lo, lo);
    Apart(ptr, block, quadrant, nblock, b, q);
    hide Shuffled, Ranks, SortedPart, Shares, Setting, Repetitive;
    assert Shuffled(f0, f0, lo, hi) by { ShuffledSame(f0, lo, hi); }
    left := budget;
    var i := lo + h;
    while true
      invariant lo + h <= i && (i <= hi + 1 || i == lo + h)
      invariant Setting(ptr, block, quadrant, nblock, b, q) && Shuffled(f0, ptr[..nblock], lo, hi)
      invariant Shares(b, ptr[..nblock], lo, hi, d)
      invariant h == 1 ==> SortedPart(ptr[..nblock], Ranks(b), lo, i - 1)
      invariant left != budget ==> Repetitive(b, multiset(f0))
      decreases hi + 1 - i
    {
      ghost var i0 := i;
      for copy := 0 to 3
        invariant lo + h <= i && (i <= hi + 1 || i == lo + h) && i == i0 + copy
        invariant Setting(ptr, block, quadrant, nblock, b, q) && Shuffled(f0, ptr[..nblock], lo, hi)
        invariant Shares(b, ptr[..nblock], lo, hi, d)
        invariant h == 1 ==> SortedPart(ptr[..nblock], Ranks(b), lo, i - 1)
        invariant left != budget ==> Repetitive(b, multiset(f0))
      {
        if i > hi {
          return left, false;
        }
        ghost var f := ptr[..nblock];
        ShuffledBag(f0, f, lo, hi);
        left := Insert(ptr, block, quadrant, nblock, lo, hi, i, h, d, left, b, q);
        ShuffledTransitive(f0, f, ptr[..nblock], lo, hi);
        i := i + 1;
      }
      if left < 0 {
        return left, true;
      }
    }
  }

  /** The index of the first increment that is not less than `bigN`. */
  method FirstIncrement(bigN: nat) returns (hp: nat)
    requires 2 <= bigN <= MOST_SORTED
    ensures 1 <= hp < |INCS|
  {
    hp := 0;
    while INCS[hp] < bigN
      invariant hp < |INCS| && (hp == 0 ==> INCS[hp] < bigN)
      decreases |INCS| - hp
    {
      assert INCS[12] < bigN ==> hp < 13;
      hp := hp + 1;
    }
  }

  /** Sorts a part of the pointers, unless too much work has been done. */
  method MainSimpleSort(ptr: array<nat>, block: array<byte>, quadrant: array<nat>, nblock: nat, lo: nat, hi: int,
          d: nat, budget: int, ghost b: seq<byte>, ghost q: seq<nat>)
    returns (left: int)
    requires Setting(ptr, block, quadrant, nblock, b, q) && nblock <= MOST_SORTED
    requires lo - 1 <= hi < nblock && d <= N_RADIX + N_QSORT + 1 && Shares(b, ptr[..nblock], lo, hi, d)
    modifies ptr
    ensures Shuffled(old(ptr[..nblock]), ptr[..nblock], lo, hi)
    ensures left >= 0 ==> SortedPart(ptr[..nblock], Ranks(b), lo, hi)
    ensures left != budget ==> Repetitive(b, multiset(old(ptr[..nblock])))
  {
    var bigN := hi - lo + 1;
    if bigN < 2 {
      return budget;
    }
    ghost var f0 := ptr[..nblock];
    Apart(ptr, block, quadrant, nblock, b, q);
    hide Shuffled, Ranks, SortedPart, Shares, Setting, Repetitive;
    assert Shuffled(f0, f0, lo, hi) by { ShuffledSame(f0, lo, hi); }
    left := budget;
    var hp := FirstIncrement(bigN);
    while hp > 0
      invariant hp < |INCS|
      invariant Setting(ptr, block, quadrant, nblock, b, q) && Shuffled(f0, ptr[..nblock], lo, hi)
      invariant Shares(b, ptr[..nblock], lo, hi, d)
      invariant hp == 0 ==> SortedPart(ptr[..nblock], Ranks(b), lo, hi)
      invariant left != budget ==> Repetitive(b, multiset(f0))
    {
      hp := hp - 1;
      ghost var f := ptr[..nblock];
      ShuffledBag(f0, f, lo, hi);
      var stopped;
      left, stopped := Pass(ptr, block, quadrant, nblock, lo, hi, INCS[hp], d, left, b, q);
      ShuffledTransitive(f0, f, ptr[..nblock], lo, hi);
      if stopped {
        return;
      }
    }
  }
}
