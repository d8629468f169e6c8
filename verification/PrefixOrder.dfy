/** Sorting rotations by ever longer prefixes: what a pass of the fallback sort
    knows, and how classes of one length give the order for twice the length. */
module PrefixOrder {
  import opened Bits
  import opened Permutations
  import opened Rotations
  import opened QuickSort
  import opened BucketFlags

  /** The first `H` bytes of the rotation that entry `i` points to. */
  function Text(b: seq<byte>, f: seq<nat>, i: int, H: nat): seq<byte> {
    if 0 <= i < |f| && f[i] < |b| then Cyclic(b, f[i], H) else []
  }

  predicate Same(b: seq<byte>, f: seq<nat>, i: int, j: int, H: nat) {
    Text(b, f, i, H) == Text(b, f, j, H)
  }

  ghost predicate TextSorted(b: seq<byte>, f: seq<nat>, H: nat) {
    forall i, j :: 0 <= i < j < |b| ==> Leq(Text(b, f, i, H), Text(b, f, j, H))
  }

  predicate Flag(h: seq<bool>, i: int) {
    0 <= i < |h| && h[i]
  }

  ghost predicate HeadAt(b: seq<byte>, f: seq<nat>, h: seq<bool>, i: int, H: nat) {
    Flag(h, i) <==> !Same(b, f, i - 1, i, H)
  }

  /** The entries are in the order of the first `H` bytes of their rotations, and
      the flags mark where these bytes change. */
  ghost predicate Refined(b: seq<byte>, f: seq<nat>, h: seq<bool>, H: nat) {
    && b != [] && Permutation(f, |b|) && Fenced(h, |b|) && h[0] && TextSorted(b, f, H)
    && forall i :: 0 < i < |b| ==> HeadAt(b, f, h, i, H)
  }

  // ----- buckets

  /** The bucket that entry `i` is in, named by its first entry. */
  function Head(h: seq<bool>, i: int): int {
    if i <= 0 || i >= |h| || h[i] then i else Head(h, i - 1)
  }

  lemma {:induction false} HeadRange(h: seq<bool>, i: nat)
    requires i < |h|
    ensures 0 <= Head(h, i) <= i
  {
    if i > 0 && !h[i] { HeadRange(h, i - 1); }
  }

  lemma NoFlag(b: seq<byte>, f: seq<nat>, h: seq<bool>, H: nat, i: nat)
    requires Refined(b, f, h, H) && 0 < i < |b| && !h[i]
    ensures Text(b, f, i - 1, H) == Text(b, f, i, H)
  {
    assert HeadAt(b, f, h, i, H);
  }

  lemma {:induction false} HeadText(b: seq<byte>, f: seq<nat>, h: seq<bool>, H: nat, i: nat)
    requires Refined(b, f, h, H) && i < |b|
    ensures Text(b, f, Head(h, i), H) == Text(b, f, i, H)
  {
    if i > 0 && !h[i] {
      HeadText(b, f, h, H, i - 1);
      NoFlag(b, f, h, H, i);
    }
  }

  lemma {:induction false} HeadMonotone(h: seq<bool>, i: nat, j: nat)
    requires i <= j < |h|
    ensures Head(h, i) <= Head(h, j)
  {
    if i < j {
      if h[j] {
        HeadRange(h, i);
      } else {
        HeadMonotone(h, i, j - 1);
      }
    }
  }

  lemma SameNoFlag(b: seq<byte>, f: seq<nat>, h: seq<bool>, H: nat, i: nat)
    requires Refined(b, f, h, H) && 0 < i < |b| && Text(b, f, i - 1, H) == Text(b, f, i, H)
    ensures !h[i]
  {
    assert HeadAt(b, f, h, i, H);
  }

  /** Entries with equal prefixes are in one bucket. */
  lemma {:induction false} HeadEqual(b: seq<byte>, f: seq<nat>, h: seq<bool>, H: nat, i: nat, j: nat)
    requires Refined(b, f, h, H) && i <= j < |b| && Text(b, f, i, H) == Text(b, f, j, H)
    ensures Head(h, i) == Head(h, j)
  {
    if i < j {
      Between(b, f, H, i, j - 1, j);
      SameNoFlag(b, f, h, H, j);
      hide Refined, Text;
      HeadEqual(b, f, h, H, i, j - 1);
    }
  }

  lemma Between(b: seq<byte>, f: seq<nat>, H: nat, i: nat, k: nat, j: nat)
    requires TextSorted(b, f, H) && i <= k <= j < |b| && Text(b, f, i, H) == Text(b, f, j, H)
    ensures Text(b, f, k, H) == Text(b, f, j, H)
  {
    if i < k < j {
      LeqAntisymmetric(Text(b, f, k, H), Text(b, f, j, H));
    }
  }

  /** A flag between two entries tells their prefixes apart. */
  lemma FlagBetween(b: seq<byte>, f: seq<nat>, h: seq<bool>, H: nat, i: nat, x: nat, j: nat)
    requires Refined(b, f, h, H) && i < x <= j < |b| && h[x]
    ensures Text(b, f, i, H) != Text(b, f, j, H)
  {
    assert HeadAt(b, f, h, x, H) && Flag(h, x);
    hide Refined, Text, Leq;
    if Text(b, f, i, H) == Text(b, f, j, H) {
      Between(b, f, H, i, x - 1, j);
      Between(b, f, H, i, x, j);
    }
  }

  /** Buckets are ordered as the prefixes of their entries. */
  lemma HeadOrder(b: seq<byte>, f: seq<nat>, h: seq<bool>, H: nat, i: nat, j: nat)
    requires Refined(b, f, h, H) && i < |b| && j < |b|
    ensures Head(h, i) <= Head(h, j) <==> Leq(Text(b, f, i, H), Text(b, f, j, H))
  {
    LeqReflexive(Text(b, f, i, H));
    if i <= j {
      HeadMonotone(h, i, j);
    } else {
      HeadMonotone(h, j, i);
      if Leq(Text(b, f, i, H), Text(b, f, j, H)) {
        LeqAntisymmetric(Text(b, f, i, H), Text(b, f, j, H));
        HeadEqual(b, f, h, H, j, i);
      } else if Head(h, i) == Head(h, j) {
        HeadText(b, f, h, H, i);
        HeadText(b, f, h, H, j);
      }
    }
  }

  // ----- classes

  /** The position `H` before `p`, around the end. */
  function Back(n: nat, p: nat, H: nat): (k: nat)
    requires p < n && H <= n
    ensures k < n
  {
    var k: int := p - H;
    if k < 0 then k + n else k
  }

  lemma BackAhead(n: nat, p: nat, H: nat)
    requires p < n && H <= n
    ensures Ahead(n, Back(n, p, H), H) == p
    ensures Back(n, Ahead(n, p, H), H) == p
  {
    AheadIs(n, Back(n, p, H), H);
    AheadIs(n, p, H);
  }

  /** The part of the rotation from `p` that lies `H` to `2 * H` ahead. */
  function Second(b: seq<byte>, p: int, H: nat): seq<byte> {
    if 0 <= p < |b| then Cyclic(b, Ahead(|b|, p, H), H) else []
  }

  /** The classes order the positions by their second `H` bytes. */
  ghost predicate Classes(b: seq<byte>, e: seq<nat>, H: nat) {
    && |b| <= |e|
    && forall p, q :: 0 <= p < |b| && 0 <= q < |b| ==> (e[p] <= e[q] <==> Leq(Second(b, p, H), Second(b, q, H)))
  }

  /** Each position has the bucket of the rotation `H` ahead as its class. */
  ghost predicate Classified(b: seq<byte>, f: seq<nat>, h: seq<bool>, e: seq<nat>, H: nat) {
    && |b| <= |e| && Permutation(f, |b|) && H <= |b|
    && forall i :: 0 <= i < |b| ==> e[Back(|b|, f[i], H)] == Head(h, i)
  }

  lemma ClassAt(b: seq<byte>, f: seq<nat>, h: seq<bool>, e: seq<nat>, H: nat, p: nat) returns (i: nat)
    requires Classified(b, f, h, e, H) && p < |b|
    ensures i < |b| && e[p] == Head(h, i) && Text(b, f, i, H) == Second(b, p, H)
  {
    i := IndexIn(f, |b|, Ahead(|b|, p, H));
    BackAhead(|b|, p, H);
    assert e[Back(|b|, f[i], H)] == Head(h, i);
  }

  lemma ClassesOrder(b: seq<byte>, f: seq<nat>, h: seq<bool>, e: seq<nat>, H: nat)
    requires Refined(b, f, h, H) && Classified(b, f, h, e, H)
    ensures Classes(b, e, H)
  {
    forall p, q | 0 <= p < |b| && 0 <= q < |b| ensures e[p] <= e[q] <==> Leq(Second(b, p, H), Second(b, q, H)) {
      var i := ClassAt(b, f, h, e, H, p);
      var j := ClassAt(b, f, h, e, H, q);
      HeadOrder(b, f, h, H, i, j);
    }
  }

  // ----- twice the length

  /** Refining every bucket by class. */
  ghost predicate Split2(b: seq<byte>, f0: seq<nat>, h0: seq<bool>, e: seq<nat>, f: seq<nat>, h: seq<bool>, H: nat,
          m: int) {
    && Permutation(f, |b|) && Entries(f, e) && Fenced(h0, |b|) && Fenced(h, |b|) && h[0] && 0 <= m <= |b| && h0[m]
    && (forall i :: 0 <= i < |b| ==> Text(b, f, i, H) == Text(b, f0, i, H))
    && (forall i, j :: 0 <= i < j < m && Same(b, f0, i, j, H) ==> Key(f, e, i) <= Key(f, e, j))
    && (forall i :: m <= i ==> Flag(h, i) == Flag(h0, i))
    && (forall i :: 0 < i < m ==> ChangeAt(f, e, h0, h, i))
  }

  /** A text of twice the length is a text and the second part after it. */
  lemma TextTwice(b: seq<byte>, f: seq<nat>, i: nat, H: nat)
    requires i < |f| && f[i] < |b|
    ensures Text(b, f, i, 2 * H) == Text(b, f, i, H) + Second(b, f[i], H)
  {
    CyclicSplit(b, f[i], H, H);
  }

  lemma KeyOrder(b: seq<byte>, e: seq<nat>, f: seq<nat>, H: nat, i: nat, j: nat)
    requires Classes(b, e, H) && Permutation(f, |b|) && i < |b| && j < |b|
    ensures Key(f, e, i) <= Key(f, e, j) <==> Leq(Second(b, f[i], H), Second(b, f[j], H))
    ensures Key(f, e, i) == Key(f, e, j) <==> Second(b, f[i], H) == Second(b, f[j], H)
  {
    assert e[f[i]] <= e[f[j]] <==> Leq(Second(b, f[i], H), Second(b, f[j], H));
    assert e[f[j]] <= e[f[i]] <==> Leq(Second(b, f[j], H), Second(b, f[i], H));
    LeqReflexive(Second(b, f[i], H));
    if Key(f, e, i) == Key(f, e, j) {
      LeqAntisymmetric(Second(b, f[i], H), Second(b, f[j], H));
    }
  }

  lemma PairRefined(b: seq<byte>, f0: seq<nat>, h0: seq<bool>, e: seq<nat>, f: seq<nat>, h: seq<bool>, H: nat, i: nat,
          j: nat)
    requires Refined(b, f0, h0, H) && Classes(b, e, H) && Split2(b, f0, h0, e, f, h, H, |b|) && i < j < |b|
    ensures Leq(Text(b, f, i, 2 * H), Text(b, f, j, 2 * H))
    ensures Same(b, f, i, j, 2 * H) <==> Same(b, f0, i, j, H) && Key(f, e, i) == Key(f, e, j)
  {
    assert Leq(Text(b, f0, i, H), Text(b, f0, j, H));
    assert Same(b, f0, i, j, H) ==> Key(f, e, i) <= Key(f, e, j);
    PairTwice(b, f, e, H, i, j);
  }

  lemma PairTwice(b: seq<byte>, f: seq<nat>, e: seq<nat>, H: nat, i: nat, j: nat)
    requires Classes(b, e, H) && Permutation(f, |b|) && i < j < |b| && Leq(Text(b, f, i, H), Text(b, f, j, H))
    requires Same(b, f, i, j, H) ==> Key(f, e, i) <= Key(f, e, j)
    ensures Leq(Text(b, f, i, 2 * H), Text(b, f, j, 2 * H))
    ensures Same(b, f, i, j, 2 * H) <==> Same(b, f, i, j, H) && Key(f, e, i) == Key(f, e, j)
  {
    TextTwice(b, f, i, H);
    TextTwice(b, f, j, H);
    KeyOrder(b, e, f, H, i, j);
    hide Leq, Key, Second;
    LeqConcat(Text(b, f, i, H), Text(b, f, j, H), Second(b, f[i], H), Second(b, f[j], H));
    ConcatEqual(Text(b, f, i, H), Second(b, f[i], H), Text(b, f, j, H), Second(b, f[j], H));
  }

  lemma ConcatEqual(a: seq<byte>, b: seq<byte>, a': seq<byte>, b': seq<byte>)
    requires |a| == |a'|
    ensures a + b == a' + b' <==> a == a' && b == b'
  {
    assert (a + b)[..|a|] == a && (a + b)[|a|..] == b;
    assert (a' + b')[..|a'|] == a' && (a' + b')[|a'|..] == b';
  }

  /** When all buckets have been refined, the order is that of twice the length. */
  lemma RefinedTwice(b: seq<byte>, f0: seq<nat>, h0: seq<bool>, e: seq<nat>, f: seq<nat>, h: seq<bool>, H: nat)
    requires Refined(b, f0, h0, H) && Classes(b, e, H) && Split2(b, f0, h0, e, f, h, H, |b|)
    ensures Refined(b, f, h, 2 * H)
  {
    TextsTwice(b, f0, h0, e, f, h, H);
    HeadsTwice(b, f0, h0, e, f, h, H);
  }

  lemma HeadsTwice(b: seq<byte>, f0: seq<nat>, h0: seq<bool>, e: seq<nat>, f: seq<nat>, h: seq<bool>, H: nat)
    requires Refined(b, f0, h0, H) && Classes(b, e, H) && Split2(b, f0, h0, e, f, h, H, |b|)
    ensures forall i :: 0 < i < |b| ==> HeadAt(b, f, h, i, 2 * H)
  {
    forall i | 0 < i < |b| ensures HeadAt(b, f, h, i, 2 * H) {
      HeadTwice(b, f0, h0, e, f, h, H, i);
    }
  }

  lemma HeadTwice(b: seq<byte>, f0: seq<nat>, h0: seq<bool>, e: seq<nat>, f: seq<nat>, h: seq<bool>, H: nat, i: nat)
    requires Refined(b, f0, h0, H) && Classes(b, e, H) && Split2(b, f0, h0, e, f, h, H, |b|) && 0 < i < |b|
    ensures HeadAt(b, f, h, i, 2 * H)
  {
    hide Same;
    PairRefined(b, f0, h0, e, f, h, H, i - 1, i);
    assert HeadAt(b, f0, h0, i, H);
    assert ChangeAt(f, e, h0, h, i);
  }

  lemma TextsTwice(b: seq<byte>, f0: seq<nat>, h0: seq<bool>, e: seq<nat>, f: seq<nat>, h: seq<bool>, H: nat)
    requires Refined(b, f0, h0, H) && Classes(b, e, H) && Split2(b, f0, h0, e, f, h, H, |b|)
    ensures TextSorted(b, f, 2 * H)
  {
    forall i, j | 0 <= i < j < |b| ensures Leq(Text(b, f, i, 2 * H), Text(b, f, j, 2 * H)) {
      PairRefined(b, f0, h0, e, f, h, H, i, j);
    }
  }

  // ----- one bucket after the other

  lemma SplitStarts(b: seq<byte>, f: seq<nat>, h: seq<bool>, e: seq<nat>, H: nat)
    requires Refined(b, f, h, H) && Entries(f, e)
    ensures Split2(b, f, h, e, f, h, H, 0)
  {
  }

  /** Flag `i` of `h1` says that flag `i` of `h` is set or the class changes there. */
  ghost predicate ChangeAt(f: seq<nat>, e: seq<nat>, h: seq<bool>, h1: seq<bool>, i: int) {
    Flag(h1, i) <==> Flag(h, i) || Key(f, e, i - 1) != Key(f, e, i)
  }

  /** The entries of the bucket `l` to `r` are sorted by class, and the flags in it
      mark where the class changes. */
  ghost predicate BucketSorted(f: seq<nat>, h: seq<bool>, e: seq<nat>, f1: seq<nat>, h1: seq<bool>, l: int, r: int) {
    && Shuffled(f, f1, l, r) && SortedPart(f1, e, l, r) && Entries(f1, e) && |h1| == |h|
    && (forall i :: !(l <= i <= r) ==> Flag(h1, i) == Flag(h, i))
    && Flag(h1, l) && (forall i :: l < i <= r ==> ChangeAt(f1, e, h, h1, i))
  }

  /** The flags from `m` on: single entries, and the bucket `l` to `r`. */
  ghost predicate NextBucket(h: seq<bool>, m: int, l: int, r: int, n: int) {
    m <= l <= r < n && AllSet(h, m, l + 1) && AllClear(h, l + 1, r + 1) && Flag(h, r + 1)
  }

  lemma BucketText(b: seq<byte>, f0: seq<nat>, h0: seq<bool>, H: nat, l: nat, i: nat)
    requires Refined(b, f0, h0, H) && l <= i < |b| && forall k :: l < k <= i ==> !Flag(h0, k)
    ensures Text(b, f0, l, H) == Text(b, f0, i, H)
  {
    if l < i {
      assert !Flag(h0, i);
      BucketText(b, f0, h0, H, l, i - 1);
      NoFlag(b, f0, h0, H, i);
    }
  }

  lemma SplitFlags(b: seq<byte>, f0: seq<nat>, h0: seq<bool>, e: seq<nat>, f: seq<nat>, h: seq<bool>, H: nat, m: int,
          l: int, r: int)
    requires Split2(b, f0, h0, e, f, h, H, m) && NextBucket(h, m, l, r, |b|)
    ensures forall k :: l < k <= r ==> !Flag(h0, k)
    ensures forall k :: m <= k <= l ==> Flag(h0, k)
    ensures Flag(h0, r + 1)
  {
    forall k | l < k <= r ensures !Flag(h0, k) { assert Flag(h, k) == Flag(h0, k); }
    forall k | m <= k <= l ensures Flag(h0, k) { assert Flag(h, k) == Flag(h0, k); }
    assert Flag(h, r + 1) == Flag(h0, r + 1);
  }

  lemma TextsKept(b: seq<byte>, f0: seq<nat>, h0: seq<bool>, H: nat, f: seq<nat>, f1: seq<nat>, l: nat, r: nat)
    requires Refined(b, f0, h0, H) && l <= r < |b| && (forall k :: l < k <= r ==> !Flag(h0, k))
    requires Permutation(f, |b|) && Shuffled(f, f1, l, r)
    requires forall i :: 0 <= i < |b| ==> Text(b, f, i, H) == Text(b, f0, i, H)
    ensures forall i :: 0 <= i < |b| ==> Text(b, f1, i, H) == Text(b, f0, i, H)
  {
    forall i | 0 <= i < |b| ensures Text(b, f1, i, H) == Text(b, f0, i, H) {
      if l <= i <= r {
        var j := FromWithin(f, f1, l, r, i);
        BucketText(b, f0, h0, H, l, i);
        BucketText(b, f0, h0, H, l, j);
        assert Text(b, f1, i, H) == Text(b, f, j, H);
      } else {
        assert Text(b, f1, i, H) == Text(b, f, i, H);
      }
    }
  }

  lemma OrderKept(b: seq<byte>, f0: seq<nat>, h0: seq<bool>, e: seq<nat>, f: seq<nat>, f1: seq<nat>, H: nat, m: nat,
          l: nat, r: nat, i: nat, j: nat)
    requires Refined(b, f0, h0, H) && m <= l <= r < |b| && (forall k :: m <= k <= l ==> Flag(h0, k))
    requires Shuffled(f, f1, l, r) && SortedPart(f1, e, l, r) && |f| == |b|
    requires forall i, j :: 0 <= i < j < m && Same(b, f0, i, j, H) ==> Key(f, e, i) <= Key(f, e, j)
    requires i < j <= r && Same(b, f0, i, j, H)
    ensures Key(f1, e, i) <= Key(f1, e, j)
  {
    if j < m {
      assert Key(f, e, i) <= Key(f, e, j);
    } else if i < l {
      var x := if i < m then m else i + 1;
      assert Flag(h0, x);
      FlagBetween(b, f0, h0, H, i, if x <= j then x else j, j);
    }
  }

  lemma SplitStep(b: seq<byte>, f0: seq<nat>, h0: seq<bool>, e: seq<nat>, f: seq<nat>, h: seq<bool>, H: nat, m: nat,
          l: nat, r: nat, f1: seq<nat>, h1: seq<bool>)
    requires Refined(b, f0, h0, H) && Split2(b, f0, h0, e, f, h, H, m) && NextBucket(h, m, l, r, |b|)
    requires BucketSorted(f, h, e, f1, h1, l, r)
    ensures Split2(b, f0, h0, e, f1, h1, H, r + 1)
  {
    SplitFlags(b, f0, h0, e, f, h, H, m, l, r);
    Rearranged(f, f1, |b|);
    TextsKept(b, f0, h0, H, f, f1, l, r);
    forall i, j | 0 <= i < j < r + 1 && Same(b, f0, i, j, H) ensures Key(f1, e, i) <= Key(f1, e, j) {
      OrderKept(b, f0, h0, e, f, f1, H, m, l, r, i, j);
    }
    FlagsKept(b, f0, h0, e, f, h, H, m, l, r, f1, h1);
  }

  lemma FlagsKept(b: seq<byte>, f0: seq<nat>, h0: seq<bool>, e: seq<nat>, f: seq<nat>, h: seq<bool>, H: nat, m: nat,
          l: nat, r: nat, f1: seq<nat>, h1: seq<bool>)
    requires Split2(b, f0, h0, e, f, h, H, m) && NextBucket(h, m, l, r, |b|) && BucketSorted(f, h, e, f1, h1, l, r)
    requires forall k :: m <= k <= l ==> Flag(h0, k)
    ensures Fenced(h1, |b|) && h1[0] && (forall i :: r + 1 <= i ==> Flag(h1, i) == Flag(h0, i))
    ensures forall i :: 0 < i < r + 1 ==> ChangeAt(f1, e, h0, h1, i)
  {
    forall i | |b| <= i < |h1| ensures h1[i] == h[i] { assert Flag(h1, i) == Flag(h, i); }
    assert Flag(h1, 0) == if l == 0 then true else Flag(h, 0);
    forall i | 0 < i < r + 1 ensures ChangeAt(f1, e, h0, h1, i) {
      if i < l {
        assert Flag(h1, i) == Flag(h, i);
        if i >= m {
          assert Flag(h0, i) && Flag(h, i) == Flag(h0, i);
        } else {
          assert f1[i] == f[i] && f1[i - 1] == f[i - 1];
          assert ChangeAt(f, e, h0, h, i);
        }
      } else if i > l {
        assert ChangeAt(f1, e, h, h1, i);
        assert Flag(h, i) == Flag(h0, i);
      } else {
        assert Flag(h0, l);
      }
    }
  }

  /** Only single entries are left. */
  lemma SplitEnds(b: seq<byte>, f0: seq<nat>, h0: seq<bool>, e: seq<nat>, f: seq<nat>, h: seq<bool>, H: nat, m: nat)
    requires Refined(b, f0, h0, H) && Split2(b, f0, h0, e, f, h, H, m) && AllSet(h, m, |b|)
    ensures Split2(b, f0, h0, e, f, h, H, |b|)
  {
    forall k | m <= k < |b| ensures Flag(h0, k) { assert Flag(h, k) == Flag(h0, k); }
    assert Flag(h0, |b|);
    forall i | 0 < i < |b| ensures ChangeAt(f, e, h0, h, i) {
      if i >= m { assert Flag(h, i) == Flag(h0, i); }
    }
    forall i, j | 0 <= i < j < |b| && Same(b, f0, i, j, H) ensures Key(f, e, i) <= Key(f, e, j) {
      if j >= m {
        assert Flag(h0, j);
        FlagBetween(b, f0, h0, H, i, j, j);
      }
    }
  }

  // ----- the end

  lemma PrefixLeq(b: seq<byte>, p: nat, q: nat, m: nat, k: nat)
    requires p < |b| && q < |b| && Leq(Cyclic(b, p, m + k), Cyclic(b, q, m + k))
    ensures Leq(Cyclic(b, p, m), Cyclic(b, q, m))
  {
    CyclicSplit(b, p, m, k);
    CyclicSplit(b, q, m, k);
    LeqConcat(Cyclic(b, p, m), Cyclic(b, q, m), Cyclic(b, Ahead(|b|, p, m), k), Cyclic(b, Ahead(|b|, q, m), k));
  }

  lemma LongerLeq(b: seq<byte>, p: nat, q: nat, m: nat, k: nat)
    requires p < |b| && q < |b| && Leq(Cyclic(b, p, m), Cyclic(b, q, m)) && Cyclic(b, p, m) != Cyclic(b, q, m)
    ensures Leq(Cyclic(b, p, m + k), Cyclic(b, q, m + k))
  {
    CyclicSplit(b, p, m, k);
    CyclicSplit(b, q, m, k);
    LeqConcat(Cyclic(b, p, m), Cyclic(b, q, m), Cyclic(b, Ahead(|b|, p, m), k), Cyclic(b, Ahead(|b|, q, m), k));
  }

  /** The sort is complete when the prefixes are whole rotations, or when they are
      all different. */
  lemma RefinedEnough(b: seq<byte>, f: seq<nat>, h: seq<bool>, H: nat)
    requires Refined(b, f, h, H) && (H >= |b| || AllSet(h, 0, |b|))
    ensures SortedRotations(b, f)
  {
    var n := |b|;
    forall r, s | 0 <= r < s < n ensures Leq(Rotation(b, f[r]), Rotation(b, f[s])) {
      assert Leq(Text(b, f, r, H), Text(b, f, s, H));
      if H >= n {
        PrefixLeq(b, f[r], f[s], n, H - n);
      } else {
        FlagBetween(b, f, h, H, r, s, s);
        LongerLeq(b, f[r], f[s], H, n - H);
      }
    }
  }
}
