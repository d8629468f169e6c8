/** The fallback sort's quicksort: it sorts positions by their class, in place,
    with an explicit stack. */
module QuickSort {
  import opened Bits

  const SMALL_THRESH := 10
  const STACK_SIZE := 100
  const MOST_SORTED := 0x10_0000

  // ----- rearranging part of a sequence

  /** `g` is `f` with the elements at `lo` to `hi` in another order. */
  ghost predicate Shuffled(f: seq<nat>, g: seq<nat>, lo: int, hi: int) {
    && |f| == |g| && multiset(f) == multiset(g)
    && forall k :: 0 <= k < |f| && !(lo <= k <= hi) ==> f[k] == g[k]
  }

  lemma SwapShuffles(f: seq<nat>, i: nat, j: nat, lo: int, hi: int)
    requires i < |f| && j < |f| && lo <= i <= hi && lo <= j <= hi
    ensures Shuffled(f, f[i := f[j]][j := f[i]], lo, hi)
  {
    var g := f[i := f[j]][j := f[i]];
    if i < j {
      SwapParts(f, g, i, j);
    } else if j < i {
      SwapParts(f, g, j, i);
    } else {
      assert g == f;
    }
  }

  lemma SwapParts(f: seq<nat>, g: seq<nat>, i: nat, j: nat)
    requires i < j < |f| == |g| && f[i] == g[j] && f[j] == g[i]
    requires forall k :: 0 <= k < |f| && k != i && k != j ==> f[k] == g[k]
    ensures multiset(f) == multiset(g)
  {
    assert f == f[..i] + [f[i]] + f[i + 1..j] + [f[j]] + f[j + 1..];
    assert g == f[..i] + [f[j]] + f[i + 1..j] + [f[i]] + f[j + 1..];
  }

  lemma ShuffledSame(f: seq<nat>, lo: int, hi: int)
    ensures Shuffled(f, f, lo, hi)
  {
  }

  lemma ShuffledTransitive(f: seq<nat>, g: seq<nat>, h: seq<nat>, lo: int, hi: int)
    requires Shuffled(f, g, lo, hi) && Shuffled(g, h, lo, hi)
    ensures Shuffled(f, h, lo, hi)
  {
  }

  lemma ShuffledWider(f: seq<nat>, g: seq<nat>, lo: int, hi: int, lo': int, hi': int)
    requires Shuffled(f, g, lo, hi) && lo' <= lo && hi <= hi'
    ensures Shuffled(f, g, lo', hi')
  {
  }

  lemma MiddleSame(a: seq<nat>, m: seq<nat>, n: seq<nat>, c: seq<nat>)
    requires multiset(a + m + c) == multiset(a + n + c)
    ensures multiset(m) == multiset(n)
  {
    forall x ensures multiset(m)[x] == multiset(n)[x] {
      assert multiset(a + m + c)[x] == multiset(a)[x] + multiset(m)[x] + multiset(c)[x];
      assert multiset(a + n + c)[x] == multiset(a)[x] + multiset(n)[x] + multiset(c)[x];
    }
  }

  /** Every element of the part comes from the part. */
  lemma FromWithin(f: seq<nat>, g: seq<nat>, lo: nat, hi: int, k: nat) returns (j: nat)
    requires Shuffled(f, g, lo, hi) && lo <= k <= hi < |f|
    ensures lo <= j <= hi && f[j] == g[k]
  {
    assert f == f[..lo] + f[lo..hi + 1] + f[hi + 1..];
    assert g == f[..lo] + g[lo..hi + 1] + f[hi + 1..];
    MiddleSame(f[..lo], f[lo..hi + 1], g[lo..hi + 1], f[hi + 1..]);
    assert g[lo..hi + 1][k - lo] in multiset(f[lo..hi + 1]);
    j :| 0 <= j < hi + 1 - lo && f[lo..hi + 1][j] == g[k];
    j := j + lo;
  }

  // ----- keys

  /** The class of the position that entry `i` holds. */
  function Key(f: seq<nat>, e: seq<nat>, i: int): int {
    if 0 <= i < |f| && f[i] < |e| then e[f[i]] else 0
  }

  ghost predicate SortedPart(f: seq<nat>, e: seq<nat>, lo: int, hi: int) {
    forall p, q :: lo <= p < q <= hi ==> Key(f, e, p) <= Key(f, e, q)
  }

  ghost predicate Entries(f: seq<nat>, e: seq<nat>) {
    forall i :: 0 <= i < |f| ==> f[i] < |e|
  }

  lemma EntriesShuffled(f: seq<nat>, g: seq<nat>, e: seq<nat>, lo: int, hi: int)
    requires Entries(f, e) && Shuffled(f, g, lo, hi)
    ensures Entries(g, e)
  {
    forall i | 0 <= i < |g| ensures g[i] < |e| {
      assert g[i] in multiset(f);
    }
  }

  // ----- insertion sort

  /** `fmap` is `g` but for entry `hole`. */
  ghost predicate But(fmap: array<nat>, g: seq<nat>, hole: int)
    reads fmap
  {
    |g| <= fmap.Length && forall k :: 0 <= k < |g| && k != hole ==> fmap[k] == g[k]
  }

  /** One entry moves into the hole. */
  method MoveEntry(fmap: array<nat>, ghost len: nat, hole: nat, j: nat, ghost f0: seq<nat>, ghost g: seq<nat>,
          ghost e: seq<nat>, ghost lo: nat, ghost hi: int)
    returns (ghost g': seq<nat>)
    requires len <= fmap.Length
    requires lo <= hole <= hi < |g| && lo <= j <= hi && hole != j && Shuffled(f0, g, lo, hi) && Entries(g, e)
    requires But(fmap, g, hole)
    modifies fmap
    ensures g' == g[hole := g[j]][j := g[hole]] && Shuffled(f0, g', lo, hi) && Entries(g', e) && But(fmap, g', j)
  {
    SwapShuffles(g, hole, j, lo, hi);
    g' := g[hole := g[j]][j := g[hole]];
    ShuffledTransitive(f0, g, g', lo, hi);
    EntriesShuffled(g, g', e, lo, hi);
    fmap[hole] := fmap[j];
  }

  /** Inserts entry `i` among every fourth entry after it. */
  method InsertByFour(fmap: array<nat>, ghost len: nat, eclass: array<nat>, i: nat, hi: nat, ghost lo: nat)
    requires len <= fmap.Length
    requires fmap != eclass && lo <= i && i + 4 <= hi < len
    requires Entries(fmap[..len], eclass[..])
    modifies fmap
    ensures Shuffled(old(fmap[..len]), fmap[..len], lo, hi)
  {
    var tmp := fmap[i];
    var ec_tmp := eclass[tmp];
    var j := i + 4;
    ghost var f0, e := fmap[..len], eclass[..];
    ghost var g := f0;
    hide Shuffled;
    assert Shuffled(f0, g, lo, hi) by { ShuffledSame(f0, lo, hi); }
    while j <= hi && ec_tmp > eclass[fmap[j]]
      invariant i + 4 <= j <= hi + 4 && eclass[..] == e
      invariant Entries(g, e) && Shuffled(f0, g, lo, hi) && But(fmap, g, j - 4) && g[j - 4] == tmp
      decreases hi + 4 - j
    {
      g := MoveEntry(fmap, len, j - 4, j, f0, g, e, lo, hi);
      j := j + 4;
    }
    fmap[j - 4] := tmp;
    assert fmap[..len] == g;
  }

  /** While entry `i` of `f0` is on its way up to `j - 1`. */
  ghost predicate Sliding(f0: seq<nat>, g: seq<nat>, e: seq<nat>, i: nat, j: nat, hi: nat, ec: int) {
    && i < j <= hi + 1 <= |f0| == |g| && g[j - 1] == f0[i]
    && (forall k {:trigger g[k]} :: i <= k < j - 1 ==> g[k] == f0[k + 1])
    && (forall k :: i < k < j ==> Key(f0, e, k) < ec)
    && (forall k :: j <= k <= hi ==> g[k] == f0[k])
  }

  lemma Slid(f0: seq<nat>, g: seq<nat>, e: seq<nat>, i: nat, j: nat, hi: nat, ec: int)
    requires Sliding(f0, g, e, i, j, hi, ec) && SortedPart(f0, e, i + 1, hi) && ec == Key(f0, e, i)
    requires j <= hi ==> ec <= Key(f0, e, j)
    ensures SortedPart(g, e, i, hi)
  {
    forall k | i <= k <= hi
      ensures Key(g, e, k) == Key(f0, e, if k < j - 1 then k + 1 else if k == j - 1 then i else k)
    {
      if k < j - 1 { assert g[k] == f0[k + 1]; }
    }
    forall p, q | i <= p < q <= hi ensures Key(g, e, p) <= Key(g, e, q) {
      if j <= q { assert Key(f0, e, j) <= Key(f0, e, q) || j == q; }
    }
  }

  lemma SlideOn(f0: seq<nat>, g: seq<nat>, g': seq<nat>, e: seq<nat>, i: nat, j: nat, hi: nat, ec: int)
    requires Sliding(f0, g, e, i, j, hi, ec) && j <= hi && Key(f0, e, j) < ec
    requires g' == g[j - 1 := g[j]][j := g[j - 1]]
    ensures Sliding(f0, g', e, i, j + 1, hi, ec)
  {
  }

  /** Inserts entry `i` into the sorted entries after it. */
  method InsertOne(fmap: array<nat>, ghost len: nat, eclass: array<nat>, i: nat, hi: nat, ghost lo: nat)
    requires len <= fmap.Length
    requires fmap != eclass && lo <= i < hi < len
    requires Entries(fmap[..len], eclass[..]) && SortedPart(fmap[..len], eclass[..], i + 1, hi)
    modifies fmap
    ensures Shuffled(old(fmap[..len]), fmap[..len], lo, hi)
    ensures SortedPart(fmap[..len], eclass[..], i, hi)
  {
    var tmp := fmap[i];
    var ec_tmp := eclass[tmp];
    var j := i + 1;
    ghost var f0, e := fmap[..len], eclass[..];
    ghost var g := f0;
    hide Shuffled, SortedPart;
    assert Shuffled(f0, g, lo, hi) by { ShuffledSame(f0, lo, hi); }
    while j <= hi && ec_tmp > eclass[fmap[j]]
      invariant eclass[..] == e && Sliding(f0, g, e, i, j, hi, ec_tmp)
      invariant Entries(g, e) && Shuffled(f0, g, lo, hi) && But(fmap, g, j - 1)
      decreases hi + 1 - j
    {
      ghost var g0 := g;
      g := MoveEntry(fmap, len, j - 1, j, f0, g, e, lo, hi);
      SlideOn(f0, g0, g, e, i, j, hi, ec_tmp);
      j := j + 1;
    }
    fmap[j - 1] := tmp;
    assert fmap[..len] == g;
    Slid(f0, g, e, i, j, hi, ec_tmp);
  }

  method SimpleSort(fmap: array<nat>, ghost len: nat, eclass: array<nat>, lo: nat, hi: int)
    requires len <= fmap.Length
    requires fmap != eclass && lo - 1 <= hi < len && Entries(fmap[..len], eclass[..])
    modifies fmap
    ensures Shuffled(old(fmap[..len]), fmap[..len], lo, hi) && SortedPart(fmap[..len], eclass[..], lo, hi)
  {
    if lo == hi {
      return;
    }
    ghost var f0, e := fmap[..len], eclass[..];
    if hi - lo > 3 {
      var i := hi - 4;
      while i >= lo
        invariant lo - 1 <= i <= hi - 4 && eclass[..] == e
        invariant Entries(fmap[..len], e) && Shuffled(f0, fmap[..len], lo, hi)
      {
        ghost var f := fmap[..len];
        InsertByFour(fmap, len, eclass, i, hi, lo);
        ShuffledTransitive(f0, f, fmap[..len], lo, hi);
        EntriesShuffled(f, fmap[..len], e, lo, hi);
        i := i - 1;
      }
    }
    var i := hi - 1;
    while i >= lo
      invariant lo - 2 <= i <= hi - 1 && eclass[..] == e
      invariant Entries(fmap[..len], e) && Shuffled(f0, fmap[..len], lo, hi) && SortedPart(fmap[..len], e, i + 1, hi)
    {
      ghost var f := fmap[..len];
      InsertOne(fmap, len, eclass, i, hi, lo);
      ShuffledTransitive(f0, f, fmap[..len], lo, hi);
      EntriesShuffled(f, fmap[..len], e, lo, hi);
      i := i - 1;
    }
  }

  // ----- partitioning

  /** The four parts that are known: equal, less, then greater, equal. */
  ghost predicate Parted(f: seq<nat>, e: seq<nat>, med: int, lo: int, hi: int, ltLo: int, unLo: int, unHi: int,
          gtHi: int) {
    && 0 <= lo <= ltLo <= unLo <= unHi + 1 && unHi <= gtHi <= hi < |f|
    && (forall k :: lo <= k < ltLo ==> Key(f, e, k) == med)
    && (forall k :: ltLo <= k < unLo ==> Key(f, e, k) < med)
    && (forall k :: unHi < k <= gtHi ==> Key(f, e, k) > med)
    && (forall k :: gtHi < k <= hi ==> Key(f, e, k) == med)
  }

  lemma KeySwap(f: seq<nat>, e: seq<nat>, i: nat, j: nat, k: int)
    requires i < |f| && j < |f|
    ensures Key(f[i := f[j]][j := f[i]], e, k) == Key(f, e, if k == i then j else if k == j then i else k)
  {
  }

  lemma LowEqual(f: seq<nat>, e: seq<nat>, med: int, lo: int, hi: int, ltLo: nat, unLo: nat, unHi: int, gtHi: int)
    requires Parted(f, e, med, lo, hi, ltLo, unLo, unHi, gtHi) && unLo <= unHi && Key(f, e, unLo) == med
    ensures Parted(f[unLo := f[ltLo]][ltLo := f[unLo]], e, med, lo, hi, ltLo + 1, unLo + 1, unHi, gtHi)
  {
    forall k {:trigger Key(f[unLo := f[ltLo]][ltLo := f[unLo]], e, k)} | lo <= k <= hi
      ensures Key(f[unLo := f[ltLo]][ltLo := f[unLo]], e, k)
        == Key(f, e, if k == unLo then ltLo else if k == ltLo then unLo else k)
    {
      KeySwap(f, e, unLo, ltLo, k);
    }
    hide Key;
  }

  lemma HighEqual(f: seq<nat>, e: seq<nat>, med: int, lo: int, hi: int, ltLo: nat, unLo: nat, unHi: nat, gtHi: nat)
    requires Parted(f, e, med, lo, hi, ltLo, unLo, unHi, gtHi) && unLo <= unHi && Key(f, e, unHi) == med
    ensures Parted(f[unHi := f[gtHi]][gtHi := f[unHi]], e, med, lo, hi, ltLo, unLo, unHi - 1, gtHi - 1)
  {
    forall k {:trigger Key(f[unHi := f[gtHi]][gtHi := f[unHi]], e, k)} | lo <= k <= hi
      ensures Key(f[unHi := f[gtHi]][gtHi := f[unHi]], e, k)
        == Key(f, e, if k == unHi then gtHi else if k == gtHi then unHi else k)
    {
      KeySwap(f, e, unHi, gtHi, k);
    }
    hide Key;
  }

  lemma BothMove(f: seq<nat>, e: seq<nat>, med: int, lo: int, hi: int, ltLo: nat, unLo: nat, unHi: nat, gtHi: nat)
    requires Parted(f, e, med, lo, hi, ltLo, unLo, unHi, gtHi) && unLo <= unHi
    requires Key(f, e, unLo) > med && Key(f, e, unHi) < med
    ensures Parted(f[unLo := f[unHi]][unHi := f[unLo]], e, med, lo, hi, ltLo, unLo + 1, unHi - 1, gtHi)
  {
    forall k {:trigger Key(f[unLo := f[unHi]][unHi := f[unLo]], e, k)} | lo <= k <= hi
      ensures Key(f[unLo := f[unHi]][unHi := f[unLo]], e, k)
        == Key(f, e, if k == unLo then unHi else if k == unHi then unLo else k)
    {
      KeySwap(f, e, unLo, unHi, k);
    }
    hide Key;
  }

  method Swap(fmap: array<nat>, ghost len: nat, i: nat, j: nat, ghost e: seq<nat>, ghost f0: seq<nat>, ghost lo: int,
          ghost hi: int)
    requires len <= fmap.Length
    requires i < len && j < len && lo <= i <= hi && lo <= j <= hi
    requires Entries(fmap[..len], e) && Shuffled(f0, fmap[..len], lo, hi)
    modifies fmap
    ensures fmap[..len] == old(fmap[..len])[i := old(fmap[j])][j := old(fmap[i])]
    ensures Entries(fmap[..len], e) && Shuffled(f0, fmap[..len], lo, hi)
  {
    ghost var f := fmap[..len];
    SwapShuffles(f, i, j, lo, hi);
    ghost var g := f[i := f[j]][j := f[i]];
    ShuffledTransitive(f0, f, g, lo, hi);
    EntriesShuffled(f, g, e, lo, hi);
    var tmp := fmap[i];
    fmap[i] := fmap[j];
    fmap[j] := tmp;
    assert fmap[..len] == g;
  }

  /** Moves up over entries that are not greater. */
  method ScanUp(fmap: array<nat>, ghost len: nat, eclass: array<nat>, med: nat, ghost lo: nat, ghost hi: int,
          ltLo0: nat, unLo0: nat, unHi: int, ghost gtHi: int, ghost f0: seq<nat>)
    returns (ltLo: nat, unLo: nat)
    requires len <= fmap.Length
    requires fmap != eclass && Entries(fmap[..len], eclass[..]) && Shuffled(f0, fmap[..len], lo, hi)
    requires Parted(fmap[..len], eclass[..], med, lo, hi, ltLo0, unLo0, unHi, gtHi)
    modifies fmap
    ensures Entries(fmap[..len], eclass[..]) && Shuffled(f0, fmap[..len], lo, hi)
    ensures Parted(fmap[..len], eclass[..], med, lo, hi, ltLo, unLo, unHi, gtHi)
    ensures unLo0 <= unLo && (unLo <= unHi ==> Key(fmap[..len], eclass[..], unLo) > med)
  {
    hide Shuffled;
    ghost var e := eclass[..];
    ltLo, unLo := ltLo0, unLo0;
    while unLo <= unHi
      invariant unLo0 <= unLo && eclass[..] == e && Entries(fmap[..len], e) && Shuffled(f0, fmap[..len], lo, hi)
      invariant Parted(fmap[..len], e, med, lo, hi, ltLo, unLo, unHi, gtHi)
      decreases unHi - unLo
    {
      var n: int := eclass[fmap[unLo]];
      assert n == Key(fmap[..len], e, unLo);
      if n == med {
        LowEqual(fmap[..len], e, med, lo, hi, ltLo, unLo, unHi, gtHi);
        Swap(fmap, len, unLo, ltLo, e, f0, lo, hi);
        ltLo := ltLo + 1;
      } else if n > med {
        break;
      }
      unLo := unLo + 1;
    }
  }

  /** Moves down over entries that are not less. */
  method ScanDown(fmap: array<nat>, ghost len: nat, eclass: array<nat>, med: nat, ghost lo: nat, ghost hi: int,
          ghost ltLo: nat, unLo: nat, unHi0: int, gtHi0: int, ghost f0: seq<nat>)
    returns (unHi: int, gtHi: int)
    requires len <= fmap.Length
    requires fmap != eclass && Entries(fmap[..len], eclass[..]) && Shuffled(f0, fmap[..len], lo, hi)
    requires Parted(fmap[..len], eclass[..], med, lo, hi, ltLo, unLo, unHi0, gtHi0)
    requires unLo <= unHi0 ==> Key(fmap[..len], eclass[..], unLo) > med
    modifies fmap
    ensures Entries(fmap[..len], eclass[..]) && Shuffled(f0, fmap[..len], lo, hi)
    ensures Parted(fmap[..len], eclass[..], med, lo, hi, ltLo, unLo, unHi, gtHi)
    ensures unHi <= unHi0
    ensures unLo <= unHi ==> Key(fmap[..len], eclass[..], unLo) > med && Key(fmap[..len], eclass[..], unHi) < med
  {
    hide Shuffled;
    ghost var e := eclass[..];
    unHi, gtHi := unHi0, gtHi0;
    while unLo <= unHi
      invariant unHi <= unHi0 && eclass[..] == e && Entries(fmap[..len], e) && Shuffled(f0, fmap[..len], lo, hi)
      invariant Parted(fmap[..len], e, med, lo, hi, ltLo, unLo, unHi, gtHi)
      invariant unLo <= unHi ==> Key(fmap[..len], e, unLo) > med
      decreases unHi - unLo
    {
      var n: int := eclass[fmap[unHi]];
      assert n == Key(fmap[..len], e, unHi);
      if n == med {
        HighEqual(fmap[..len], e, med, lo, hi, ltLo, unLo, unHi, gtHi);
        KeySwap(fmap[..len], e, unHi, gtHi, unLo);
        Swap(fmap, len, unHi, gtHi, e, f0, lo, hi);
        gtHi := gtHi - 1;
      } else if n < med {
        break;
      }
      unHi := unHi - 1;
    }
  }

  /** Splits a part around the class `med`. */
  method Partition(fmap: array<nat>, ghost len: nat, eclass: array<nat>, med: nat, lo: nat, hi: int)
    returns (ltLo: nat, unLo: nat, gtHi: int)
    requires len <= fmap.Length
    requires fmap != eclass && lo <= hi < len && Entries(fmap[..len], eclass[..])
    modifies fmap
    ensures Shuffled(old(fmap[..len]), fmap[..len], lo, hi) && Entries(fmap[..len], eclass[..])
    ensures Parted(fmap[..len], eclass[..], med, lo, hi, ltLo, unLo, unLo - 1, gtHi)
  {
    hide Shuffled, Key;
    ghost var f0, e := fmap[..len], eclass[..];
    assert Shuffled(f0, f0, lo, hi) by { ShuffledSame(f0, lo, hi); }
    ltLo, unLo, gtHi := lo, lo, hi;
    var unHi := hi;
    while true
      invariant eclass[..] == e && Entries(fmap[..len], e) && Shuffled(f0, fmap[..len], lo, hi)
      invariant Parted(fmap[..len], e, med, lo, hi, ltLo, unLo, unHi, gtHi)
      decreases unHi - unLo + 1
    {
      ltLo, unLo := ScanUp(fmap, len, eclass, med, lo, hi, ltLo, unLo, unHi, gtHi, f0);
      unHi, gtHi := ScanDown(fmap, len, eclass, med, lo, hi, ltLo, unLo, unHi, gtHi, f0);
      if unLo > unHi {
        break;
      }
      BothMove(fmap[..len], e, med, lo, hi, ltLo, unLo, unHi, gtHi);
      Swap(fmap, len, unLo, unHi, e, f0, lo, hi);
      unLo := unLo + 1;
      unHi := unHi - 1;
    }
  }

  /** Where the entry comes from when `n` entries at `p` and at `q` change places. */
  function SwappedFrom(k: int, p: int, q: int, n: int): int {
    if p <= k < p + n then k - p + q else if q <= k < q + n then k - q + p else k
  }

  ghost predicate Exchanged(f: seq<nat>, g: seq<nat>, e: seq<nat>, lo: int, hi: int, p: int, q: int, n: int) {
    forall k :: lo <= k <= hi ==> Key(g, e, k) == Key(f, e, SwappedFrom(k, p, q, n))
  }

  lemma ExchangeOne(f: seq<nat>, g: seq<nat>, e: seq<nat>, lo: nat, hi: int, p: nat, q: nat, d: nat)
    requires lo <= p && p + d < q && q + d <= hi < |g| && Exchanged(f, g, e, lo, hi, p, q, d)
    ensures Exchanged(f, g[p + d := g[q + d]][q + d := g[p + d]], e, lo, hi, p, q, d + 1)
  {
    var g' := g[p + d := g[q + d]][q + d := g[p + d]];
    forall k | lo <= k <= hi ensures Key(g', e, k) == Key(f, e, SwappedFrom(k, p, q, d + 1)) {
      var k' := if k == p + d then q + d else if k == q + d then p + d else k;
      KeySwap(g, e, p + d, q + d, k);
      assert Key(g, e, k') == Key(f, e, SwappedFrom(k', p, q, d));
    }
  }

  method SwapBlocks(fmap: array<nat>, ghost len: nat, p: nat, q: nat, n: nat, ghost e: seq<nat>, ghost f0: seq<nat>,
          ghost lo: nat, ghost hi: int)
    requires len <= fmap.Length
    requires lo <= p && p + n <= q && q + n <= hi + 1 <= len
    requires Entries(fmap[..len], e) && Shuffled(f0, fmap[..len], lo, hi)
    modifies fmap
    ensures Entries(fmap[..len], e) && Shuffled(f0, fmap[..len], lo, hi)
    ensures Exchanged(old(fmap[..len]), fmap[..len], e, lo, hi, p, q, n)
  {
    ghost var f := fmap[..len];
    assert Exchanged(f, f, e, lo, hi, p, q, 0);
    hide Shuffled, Key, Exchanged, SwappedFrom, Entries;
    for d := 0 to n
      invariant Entries(fmap[..len], e) && Shuffled(f0, fmap[..len], lo, hi)
      invariant Exchanged(f, fmap[..len], e, lo, hi, p, q, d)
    {
      ExchangeOne(f, fmap[..len], e, lo, hi, p, q, d);
      Swap(fmap, len, p + d, q + d, e, f0, lo, hi);
    }
  }

  /** The three parts in order: less up to `n`, greater from `m` on. */
  ghost predicate Arranged(f: seq<nat>, e: seq<nat>, med: int, lo: int, hi: int, n: int, m: int) {
    && lo - 1 <= n < m <= hi + 1
    && (forall k :: lo <= k <= n ==> Key(f, e, k) < med)
    && (forall k :: n < k < m ==> Key(f, e, k) == med)
    && (forall k :: m <= k <= hi ==> Key(f, e, k) > med)
  }

  function Min(a: int, b: int): int {
    if a < b then a else b
  }

  lemma GatheredLow(f1: seq<nat>, f2: seq<nat>, f3: seq<nat>, e: seq<nat>, med: int, lo: int, hi: int, ltLo: int,
          unLo: int, gtHi: int, n: int, m: int)
    requires Parted(f1, e, med, lo, hi, ltLo, unLo, unLo - 1, gtHi)
    requires n == Min(ltLo - lo, unLo - ltLo) && m == Min(hi - gtHi, gtHi - (unLo - 1))
    requires Exchanged(f1, f2, e, lo, hi, lo, unLo - n, n) && Exchanged(f2, f3, e, lo, hi, unLo, hi - m + 1, m)
    ensures forall k :: lo <= k < unLo ==> if k < lo + unLo - ltLo then Key(f3, e, k) < med else Key(f3, e, k) == med
  {
    hide Key;
    forall k | lo <= k < unLo
      ensures if k < lo + unLo - ltLo then Key(f3, e, k) < med else Key(f3, e, k) == med
    {
      assert SwappedFrom(k, unLo, hi - m + 1, m) == k;
      assert Key(f3, e, k) == Key(f2, e, k);
      assert Key(f2, e, k) == Key(f1, e, SwappedFrom(k, lo, unLo - n, n));
    }
  }

  lemma GatheredHigh(f1: seq<nat>, f2: seq<nat>, f3: seq<nat>, e: seq<nat>, med: int, lo: int, hi: int, ltLo: int,
          unLo: int, gtHi: int, n: int, m: int)
    requires Parted(f1, e, med, lo, hi, ltLo, unLo, unLo - 1, gtHi)
    requires n == Min(ltLo - lo, unLo - ltLo) && m == Min(hi - gtHi, gtHi - (unLo - 1))
    requires Exchanged(f1, f2, e, lo, hi, lo, unLo - n, n) && Exchanged(f2, f3, e, lo, hi, unLo, hi - m + 1, m)
    ensures forall k :: unLo <= k <= hi ==>
      if k < hi - (gtHi - unLo + 1) + 1 then Key(f3, e, k) == med else Key(f3, e, k) > med
  {
    hide Key;
    forall k | unLo <= k <= hi
      ensures if k < hi - (gtHi - unLo + 1) + 1 then Key(f3, e, k) == med else Key(f3, e, k) > med
    {
      var k' := SwappedFrom(k, unLo, hi - m + 1, m);
      assert SwappedFrom(k', lo, unLo - n, n) == k';
      assert Key(f3, e, k) == Key(f2, e, k');
      assert Key(f2, e, k') == Key(f1, e, SwappedFrom(k', lo, unLo - n, n));
    }
  }

  /** Brings the equal entries from both ends to the middle. */
  method Gather(fmap: array<nat>, ghost len: nat, lo: nat, hi: int, ltLo: nat, unLo: nat, gtHi: int, ghost e: seq<nat>,
          ghost med: int, ghost f0: seq<nat>)
    returns (n: int, m: int)
    requires len <= fmap.Length
    requires Parted(fmap[..len], e, med, lo, hi, ltLo, unLo, unLo - 1, gtHi) && ltLo <= gtHi + 1
    requires Entries(fmap[..len], e) && Shuffled(f0, fmap[..len], lo, hi)
    modifies fmap
    ensures Entries(fmap[..len], e) && Shuffled(f0, fmap[..len], lo, hi)
    ensures n == lo + unLo - ltLo - 1 && m == hi - (gtHi - (unLo - 1)) + 1
    ensures Arranged(fmap[..len], e, med, lo, hi, n, m)
  {
    hide Shuffled, Key, Exchanged, Entries;
    ghost var f1 := fmap[..len];
    var unHi := unLo - 1;
    n := Min(ltLo - lo, unLo - ltLo);
    SwapBlocks(fmap, len, lo, unLo - n, n, e, f0, lo, hi);
    ghost var f2 := fmap[..len];
    m := Min(hi - gtHi, gtHi - unHi);
    SwapBlocks(fmap, len, unLo, hi - m + 1, m, e, f0, lo, hi);
    GatheredLow(f1, f2, fmap[..len], e, med, lo, hi, ltLo, unLo, gtHi, n, m);
    GatheredHigh(f1, f2, fmap[..len], e, med, lo, hi, ltLo, unLo, gtHi, n, m);
    n := lo + unLo - ltLo - 1;
    m := hi - (gtHi - unHi) + 1;
  }

  // ----- the stack

  datatype Part = Part(lo: int, hi: int)

  function Size(a: Part): int {
    a.hi - a.lo + 1
  }

  /** The parts lie in the range and apart from each other. */
  ghost predicate Scattered(stack: seq<Part>, lo: int, hi: int) {
    && (forall s :: 0 <= s < |stack| ==> lo <= stack[s].lo <= stack[s].hi + 1 && stack[s].hi <= hi)
    && (forall s, t :: 0 <= s < t < |stack| ==> stack[s].hi < stack[t].lo || stack[t].hi < stack[s].lo)
  }

  predicate Holds(a: Part, p: int) {
    a.lo <= p <= a.hi
  }

  /** Some part that is still to be sorted holds both positions. */
  ghost predicate Together(stack: seq<Part>, p: int, q: int) {
    exists s :: 0 <= s < |stack| && Holds(stack[s], p) && Holds(stack[s], q)
  }

  /** All that is left to do is to sort the parts on the stack. */
  ghost predicate Ordered(f: seq<nat>, e: seq<nat>, lo: int, hi: int, stack: seq<Part>) {
    forall p, q :: lo <= p < q <= hi ==> Together(stack, p, q) || Key(f, e, p) <= Key(f, e, q)
  }

  /** One part has been rearranged, and `more` of it is still to be sorted. */
  lemma StillOrdered(f: seq<nat>, g: seq<nat>, e: seq<nat>, lo: nat, hi: int, rest: seq<Part>, a: Part, more: seq<Part>)
    requires 0 <= a.lo && Scattered(rest + [a], lo, hi) && hi < |f| && Entries(f, e) && Entries(g, e)
    requires Ordered(f, e, lo, hi, rest + [a]) && Shuffled(f, g, a.lo, a.hi)
    requires forall p, q :: a.lo <= p < q <= a.hi ==> Together(rest + more, p, q) || Key(g, e, p) <= Key(g, e, q)
    ensures Ordered(g, e, lo, hi, rest + more)
  {
    var all := rest + [a];
    assert all[|rest|] == a;
    forall p, q | lo <= p < q <= hi && !(Holds(a, p) && Holds(a, q))
      ensures Together(rest + more, p, q) || Key(g, e, p) <= Key(g, e, q)
    {
      var p', q' := p, q;
      if Holds(a, p) { p' := FromWithin(f, g, a.lo, a.hi, p); }
      if Holds(a, q) { q' := FromWithin(f, g, a.lo, a.hi, q); }
      assert Key(f, e, p') == Key(g, e, p) && Key(f, e, q') == Key(g, e, q);
      if Together(all, p', q') {
        var s :| 0 <= s < |all| && Holds(all[s], p') && Holds(all[s], q');
        assert s != |rest| && rest[s] == all[s];
        assert p' == p && q' == q;
        assert (rest + more)[s] == all[s];
      }
    }
  }

  lemma SortedDone(f: seq<nat>, g: seq<nat>, e: seq<nat>, lo: nat, hi: int, rest: seq<Part>, a: Part)
    requires 0 <= a.lo && Scattered(rest + [a], lo, hi) && hi < |f| && Entries(f, e) && Entries(g, e)
    requires Ordered(f, e, lo, hi, rest + [a]) && Shuffled(f, g, a.lo, a.hi) && SortedPart(g, e, a.lo, a.hi)
    ensures Ordered(g, e, lo, hi, rest) && Scattered(rest, lo, hi)
  {
    StillOrdered(f, g, e, lo, hi, rest, a, []);
    assert rest + [] == rest;
    assert forall s :: 0 <= s < |rest| ==> (rest + [a])[s] == rest[s];
  }

  lemma ArrangedOrder(g: seq<nat>, e: seq<nat>, med: int, a: Part, n: int, m: int, rest: seq<Part>, x: Part, y: Part,
          p: int, q: int)
    requires Arranged(g, e, med, a.lo, a.hi, n, m) && a.lo <= p < q <= a.hi
    requires (x == Part(a.lo, n) && y == Part(m, a.hi)) || (y == Part(a.lo, n) && x == Part(m, a.hi))
    ensures Together(rest + [x, y], p, q) || Key(g, e, p) <= Key(g, e, q)
  {
    var both := rest + [x, y];
    assert both[|rest|] == x && both[|rest| + 1] == y;
    hide Key;
    assert q <= n ==> Holds(Part(a.lo, n), p) && Holds(Part(a.lo, n), q);
    assert m <= p ==> Holds(Part(m, a.hi), p) && Holds(Part(m, a.hi), q);
  }

  /** The part has been split, and its two ends are still to be sorted. */
  lemma SplitDone(f: seq<nat>, g: seq<nat>, e: seq<nat>, med: int, lo: nat, hi: int, rest: seq<Part>, a: Part, n: int,
          m: int, x: Part, y: Part)
    requires 0 <= a.lo && Scattered(rest + [a], lo, hi) && hi < |f| && Entries(f, e) && Entries(g, e)
    requires Ordered(f, e, lo, hi, rest + [a]) && Shuffled(f, g, a.lo, a.hi) && Arranged(g, e, med, a.lo, a.hi, n, m)
    requires (x == Part(a.lo, n) && y == Part(m, a.hi)) || (y == Part(a.lo, n) && x == Part(m, a.hi))
    ensures Ordered(g, e, lo, hi, rest + [x, y]) && Scattered(rest + [x, y], lo, hi)
  {
    forall p, q | a.lo <= p < q <= a.hi ensures Together(rest + [x, y], p, q) || Key(g, e, p) <= Key(g, e, q) {
      ArrangedOrder(g, e, med, a, n, m, rest, x, y, p, q);
    }
    StillOrdered(f, g, e, lo, hi, rest, a, [x, y]);
    ScatterSplit(rest, a, lo, hi, n, m, x, y);
  }

  lemma ScatterSplit(rest: seq<Part>, a: Part, lo: int, hi: int, n: int, m: int, x: Part, y: Part)
    requires Scattered(rest + [a], lo, hi) && a.lo - 1 <= n < m <= a.hi + 1
    requires (x == Part(a.lo, n) && y == Part(m, a.hi)) || (y == Part(a.lo, n) && x == Part(m, a.hi))
    ensures Scattered(rest + [x, y], lo, hi)
  {
    var all, both := rest + [a], rest + [x, y];
    assert all[|rest|] == a;
    forall s, t | 0 <= s < t < |both| ensures both[s].hi < both[t].lo || both[t].hi < both[s].lo {
      if s < |rest| {
        assert both[s] == all[s];
        if t < |rest| { assert both[t] == all[t]; }
      }
    }
    forall s | 0 <= s < |both| ensures lo <= both[s].lo <= both[s].hi + 1 && both[s].hi <= hi {
      if s < |rest| { assert both[s] == all[s]; }
    }
  }

  /** The parts on the stack shrink by half from each to the next. */
  ghost predicate Shallow(stack: seq<Part>, total: int) {
    && (forall s :: 0 <= s < |stack| ==> Size(stack[s]) * Pow2(s) <= total)
    && (forall s :: 0 <= s < |stack| - 1 ==> Size(stack[s]) >= 1)
  }

  lemma DepthAt(stack: seq<Part>, total: int, s: nat)
    requires Shallow(stack, total) && s < |stack| - 1
    ensures Pow2(s) <= total
  {
    var size := Size(stack[s]);
    assert size * Pow2(s) >= Pow2(s);
  }

  lemma StackDepth(stack: seq<Part>, total: int)
    requires Shallow(stack, total) && total <= MOST_SORTED
    ensures |stack| < 24
  {
    Pow2Monotone(21, 22);
    Pow2Values();
    if 22 < |stack| - 1 { DepthAt(stack, total, 22); }
  }

  lemma ShallowPop(rest: seq<Part>, a: Part, total: int)
    requires Shallow(rest + [a], total)
    ensures Shallow(rest, total) && forall s :: 0 <= s < |rest| ==> Size(rest[s]) >= 1
    ensures Size(a) * Pow2(|rest|) <= total
  {
    var all := rest + [a];
    assert all[|rest|] == a;
    forall s | 0 <= s < |rest| ensures Size(rest[s]) * Pow2(s) <= total && Size(rest[s]) >= 1 {
      assert all[s] == rest[s];
    }
  }

  lemma ShallowPush(rest: seq<Part>, a: Part, total: int, x: Part, y: Part)
    requires Shallow(rest + [a], total) && Size(x) >= Size(y) >= 0 && Size(x) >= 1 && Size(x) + Size(y) <= Size(a)
    ensures Shallow(rest + [x, y], total)
  {
    ShallowPop(rest, a, total);
    var both, p := rest + [x, y], |rest|;
    Halves(Size(a), Size(x), Size(y), Pow2(p), total);
    assert Pow2(p + 1) == 2 * Pow2(p);
    assert both[p] == x && both[p + 1] == y;
    forall s | 0 <= s < |both| ensures Size(both[s]) * Pow2(s) <= total {
      if s < p { assert both[s] == rest[s]; }
    }
    forall s | 0 <= s < |both| - 1 ensures Size(both[s]) >= 1 {
      if s < p { assert both[s] == rest[s]; }
    }
  }

  lemma Halves(a: int, x: int, y: int, w: nat, total: int)
    requires a * w <= total && x + y <= a && x >= y >= 0
    ensures x * w <= total && y * (2 * w) <= total
  {
    assert x * w <= a * w;
    assert (2 * y) * w <= a * w;
    assert y * (2 * w) == (2 * y) * w;
  }

  /** What is left to do. */
  function Weight(stack: seq<Part>): nat {
    if stack == [] then 0
    else
      var a := stack[|stack| - 1];
      Weight(stack[..|stack| - 1]) + (if Size(a) > 0 then 2 * Size(a) else 0) + 1
  }

  lemma WeightPush(rest: seq<Part>, a: Part, x: Part, y: Part)
    requires Size(x) >= 0 && Size(y) >= 0 && Size(x) + Size(y) < Size(a)
    ensures Weight(rest + [x, y]) < Weight(rest + [a])
    ensures Weight(rest) < Weight(rest + [a])
  {
    assert (rest + [x, y])[..|rest| + 1] == rest + [x];
    assert (rest + [x])[..|rest|] == rest && (rest + [a])[..|rest|] == rest;
  }

  // ----- the sort

  /** A class picked from the part, at one of three places in turn. */
  method PickMedian(fmap: array<nat>, ghost len: nat, eclass: array<nat>, lo: nat, hi: nat, r: nat)
    returns (med: nat, ghost at: nat)
    requires len <= fmap.Length
    requires lo <= hi < len && Entries(fmap[..len], eclass[..])
    ensures lo <= at <= hi && med == Key(fmap[..len], eclass[..], at)
  {
    var r3 := r % 3;
    if r3 == 0 {
      at, med := lo, eclass[fmap[lo]];
    } else if r3 == 1 {
      at, med := (lo + hi) / 2, eclass[fmap[(lo + hi) / 2]];
    } else {
      at, med := hi, eclass[fmap[hi]];
    }
  }

  /** The class that was picked occurs in the part. */
  lemma PivotStays(f: seq<nat>, g: seq<nat>, e: seq<nat>, lo: nat, hi: nat, at: nat) returns (k: nat)
    requires lo <= at <= hi < |f| && Shuffled(f, g, lo, hi) && Entries(f, e) && Entries(g, e)
    ensures lo <= k <= hi && Key(g, e, k) == Key(f, e, at)
  {
    assert Shuffled(g, f, lo, hi);
    k := FromWithin(g, f, lo, hi, at);
  }

  lemma AllEqual(f: seq<nat>, e: seq<nat>, med: int, lo: int, hi: int, ltLo: int, unLo: int, gtHi: int)
    requires Parted(f, e, med, lo, hi, ltLo, unLo, unLo - 1, gtHi) && gtHi < ltLo
    ensures SortedPart(f, e, lo, hi)
  {
  }

  lemma EndsSmaller(f: seq<nat>, e: seq<nat>, med: int, lo: int, hi: int, n: int, m: int, k: int)
    requires Arranged(f, e, med, lo, hi, n, m) && lo <= k <= hi && Key(f, e, k) == med
    ensures n + 1 < m
  {
  }

  /** Splits a part; `none` when all of its entries have the same class. */
  method Split(fmap: array<nat>, ghost len: nat, eclass: array<nat>, lo: nat, hi: nat, r: nat)
    returns (none: bool, n: int, m: int, ghost med: nat)
    requires len <= fmap.Length
    requires fmap != eclass && lo <= hi < len && Entries(fmap[..len], eclass[..])
    modifies fmap
    ensures Shuffled(old(fmap[..len]), fmap[..len], lo, hi) && Entries(fmap[..len], eclass[..])
    ensures none ==> SortedPart(fmap[..len], eclass[..], lo, hi)
    ensures !none ==> Arranged(fmap[..len], eclass[..], med, lo, hi, n, m) && n + 1 < m && (lo <= n || m <= hi)
  {
    hide Shuffled, Key, SortedPart, Entries;
    ghost var f0, e := fmap[..len], eclass[..];
    var pivot, at := PickMedian(fmap, len, eclass, lo, hi, r);
    med := pivot;
    var ltLo, unLo, gtHi := Partition(fmap, len, eclass, pivot, lo, hi);
    n, m := 0, 0;
    if gtHi < ltLo {
      AllEqual(fmap[..len], e, med, lo, hi, ltLo, unLo, gtHi);
      return true, n, m, med;
    }
    none := false;
    n, m := Gather(fmap, len, lo, hi, ltLo, unLo, gtHi, e, med, f0);
    ghost var k := PivotStays(f0, fmap[..len], e, lo, hi, at);
    EndsSmaller(fmap[..len], e, med, lo, hi, n, m, k);
  }

  /** The state of the sort: what is on the stack is all that is left to do. */
  ghost predicate Sorting(f0: seq<nat>, f: seq<nat>, e: seq<nat>, lo: nat, hi: int, stack: seq<Part>) {
    && hi < |f| && Entries(f, e) && Shuffled(f0, f, lo, hi)
    && Ordered(f, e, lo, hi, stack) && Scattered(stack, lo, hi) && Shallow(stack, hi - lo + 1)
  }

  lemma SortingStarts(f: seq<nat>, e: seq<nat>, lo: nat, hi: int)
    requires lo <= hi < |f| && Entries(f, e)
    ensures Sorting(f, f, e, lo, hi, [Part(lo, hi)])
  {
    var stack := [Part(lo, hi)];
    assert Holds(stack[0], lo);
    forall p, q | lo <= p < q <= hi ensures Together(stack, p, q) {
      assert Holds(stack[0], p) && Holds(stack[0], q);
    }
    assert Pow2(0) == 1;
    ShuffledSame(f, lo, hi);
  }

  lemma SortingEnds(f0: seq<nat>, f: seq<nat>, e: seq<nat>, lo: nat, hi: int)
    requires Sorting(f0, f, e, lo, hi, [])
    ensures Shuffled(f0, f, lo, hi) && SortedPart(f, e, lo, hi)
  {
    forall p, q | lo <= p < q <= hi ensures Key(f, e, p) <= Key(f, e, q) {
      assert !Together([], p, q);
    }
  }

  lemma TopPart(f0: seq<nat>, f: seq<nat>, e: seq<nat>, lo: nat, hi: int, rest: seq<Part>, a: Part)
    requires Sorting(f0, f, e, lo, hi, rest + [a]) && hi - lo + 1 <= MOST_SORTED
    ensures lo <= a.lo <= a.hi + 1 && a.hi <= hi && |rest| + 1 < 24
    ensures Weight(rest) < Weight(rest + [a])
  {
    assert (rest + [a])[|rest|] == a;
    StackDepth(rest + [a], hi - lo + 1);
    assert (rest + [a])[..|rest|] == rest;
  }

  lemma PartSorted(f0: seq<nat>, f: seq<nat>, g: seq<nat>, e: seq<nat>, lo: nat, hi: int, rest: seq<Part>, a: Part)
    requires Sorting(f0, f, e, lo, hi, rest + [a]) && lo <= a.lo && a.hi <= hi
    requires Shuffled(f, g, a.lo, a.hi) && Entries(g, e) && SortedPart(g, e, a.lo, a.hi)
    ensures Sorting(f0, g, e, lo, hi, rest)
  {
    SortedDone(f, g, e, lo, hi, rest, a);
    ShallowPop(rest, a, hi - lo + 1);
    ShuffledWider(f, g, a.lo, a.hi, lo, hi);
    ShuffledTransitive(f0, f, g, lo, hi);
  }

  lemma PartSplit(f0: seq<nat>, f: seq<nat>, g: seq<nat>, e: seq<nat>, med: int, lo: nat, hi: int, rest: seq<Part>,
          a: Part, n: int, m: int, x: Part, y: Part)
    requires Sorting(f0, f, e, lo, hi, rest + [a]) && lo <= a.lo && a.hi <= hi
    requires Shuffled(f, g, a.lo, a.hi) && Entries(g, e) && Arranged(g, e, med, a.lo, a.hi, n, m)
    requires n + 1 < m && (a.lo <= n || m <= a.hi) && Size(x) >= Size(y)
    requires (x == Part(a.lo, n) && y == Part(m, a.hi)) || (y == Part(a.lo, n) && x == Part(m, a.hi))
    ensures Sorting(f0, g, e, lo, hi, rest + [x, y]) && Weight(rest + [x, y]) < Weight(rest + [a])
  {
    SplitDone(f, g, e, med, lo, hi, rest, a, n, m, x, y);
    ShallowPush(rest, a, hi - lo + 1, x, y);
    WeightPush(rest, a, x, y);
    ShuffledWider(f, g, a.lo, a.hi, lo, hi);
    ShuffledTransitive(f0, f, g, lo, hi);
  }

  /** Sorts the entries from `loSt` to `hiSt` by class. The larger part is pushed
      first, so the stack never fills up. */
  method QSort3(fmap: array<nat>, ghost len: nat, eclass: array<nat>, loSt: nat, hiSt: int)
    requires len <= fmap.Length
    requires fmap != eclass && loSt <= hiSt < len && Entries(fmap[..len], eclass[..])
    requires hiSt - loSt + 1 <= MOST_SORTED
    modifies fmap
    ensures Shuffled(old(fmap[..len]), fmap[..len], loSt, hiSt)
    ensures SortedPart(fmap[..len], eclass[..], loSt, hiSt)
  {
    hide Shuffled, Key, SortedPart, Entries, Ordered, Scattered, Shallow, Arranged, Sorting, Weight;
    ghost var f0, e := fmap[..len], eclass[..];
    var r := 0;
    var stack, sp := new Part[STACK_SIZE](_ => Part(0, 0)), 0;
    stack[sp] := Part(loSt, hiSt);
    sp := sp + 1;
    SortingStarts(f0, e, loSt, hiSt);
    assert stack[..sp] == [Part(loSt, hiSt)];
    while sp > 0
      modifies fmap, stack
      invariant sp <= STACK_SIZE && eclass[..] == e && Sorting(f0, fmap[..len], e, loSt, hiSt, stack[..sp])
      decreases Weight(stack[..sp])
    {
      ghost var rest := stack[..sp - 1];
      assert stack[..sp] == rest + [stack[sp - 1]];
      ghost var f := fmap[..len];
      TopPart(f0, f, e, loSt, hiSt, rest, stack[sp - 1]);
      SortingEntries(f0, f, e, loSt, hiSt, stack[..sp]);
      assert sp < STACK_SIZE - 1;
      sp := sp - 1;
      var a := stack[sp];
      if a.hi - a.lo < SMALL_THRESH {
        SimpleSort(fmap, len, eclass, a.lo, a.hi);
        EntriesShuffled(f, fmap[..len], e, a.lo, a.hi);
        PartSorted(f0, f, fmap[..len], e, loSt, hiSt, rest, a);
        continue;
      }
      r := (r * 7621 + 1) % 32768;
      var none, n, m;
      ghost var med;
      none, n, m, med := Split(fmap, len, eclass, a.lo, a.hi, r);
      if none {
        PartSorted(f0, f, fmap[..len], e, loSt, hiSt, rest, a);
        continue;
      }
      var x, y := Part(a.lo, n), Part(m, a.hi);
      if n - a.lo <= a.hi - m {
        x, y := y, x;
      }
      PartSplit(f0, f, fmap[..len], e, med, loSt, hiSt, rest, a, n, m, x, y);
      stack[sp], stack[sp + 1] := x, y;
      sp := sp + 2;
      assert stack[..sp] == rest + [x, y];
    }
    SortingEnds(f0, fmap[..len], e, loSt, hiSt);
  }

  lemma SortingEntries(f0: seq<nat>, f: seq<nat>, e: seq<nat>, lo: nat, hi: int, stack: seq<Part>)
    requires Sorting(f0, f, e, lo, hi, stack)
    ensures Entries(f, e) && hi < |f|
  {
  }
}
