/** What the main sort knows between its steps: the starts of the small buckets, with a
    mark on those that are sorted. */
module SmallBuckets {
  import opened Bits
  import opened Wrappers
  import opened Permutations
  import opened Rotations
  import opened RotationRanks
  import opened QuickSort
  import opened ShellSort
  import opened PairBuckets
  import opened BucketFill
  import opened BigBuckets

  const SETMASK := 0x20_0000

  predicate IsSet(v: nat) {
    v / SETMASK % 2 == 1
  }

  function WithMask(v: nat): nat {
    if IsSet(v) then v else v + SETMASK
  }

  function WithoutMask(v: nat): nat {
    if IsSet(v) then v - SETMASK else v
  }

  /** The table has the start of every small bucket, and marks those of `flags`. */
  ghost predicate Table(ftab: array<nat>, b: seq<byte>, flags: seq<bool>)
    reads ftab
  {
    && ftab.Length == PAIRS + 1 && |flags| == PAIRS && |b| <= MOST_SORTED && ftab[PAIRS] == |b|
    && forall x :: 0 <= x < PAIRS ==> ftab[x] == Start(b, x) + if flags[x] then SETMASK else 0
  }

  method StartOf(ftab: array<nat>, x: nat, ghost b: seq<byte>, ghost flags: seq<bool>) returns (s: nat)
    requires x <= PAIRS && Table(ftab, b, flags)
    ensures s == Start(b, x)
  {
    StartMonotone(b, x, x);
    StartAll(b);
    hide Start;
    s := WithoutMask(ftab[x]);
  }

  method IsMarked(ftab: array<nat>, x: nat, ghost b: seq<byte>, ghost flags: seq<bool>) returns (marked: bool)
    requires x < PAIRS && Table(ftab, b, flags)
    ensures marked == flags[x]
  {
    StartMonotone(b, x, x);
    hide Start;
    marked := IsSet(ftab[x]);
  }

  method Mark(ftab: array<nat>, x: nat, ghost b: seq<byte>, ghost flags: seq<bool>)
    requires x < PAIRS && Table(ftab, b, flags)
    modifies ftab
    ensures Table(ftab, b, flags[x := true])
  {
    StartMonotone(b, x, x);
    hide Start;
    ftab[x] := WithMask(ftab[x]);
  }

  ghost predicate SortedFlags(b: seq<byte>, f: seq<nat>, flags: seq<bool>) {
    |flags| == PAIRS && forall x :: 0 <= x < PAIRS && flags[x] ==> SortedBucket(b, f, x)
  }

  /** All positions are in their buckets, and the buckets of `flags` are sorted. */
  ghost predicate Buckets(b: seq<byte>, f: seq<nat>, flags: seq<bool>) {
    InBuckets(b, f) && SortedFlags(b, f, flags)
  }

  /** Between the steps of the sort. */
  ghost predicate Progress(ptr: array<nat>, ftab: array<nat>, nblock: nat, b: seq<byte>, flags: seq<bool>)
    reads ptr, ftab
  {
    nblock == |b| <= ptr.Length && Table(ftab, b, flags) && Buckets(b, ptr[..nblock], flags)
  }

  // ----- sorted ranges of buckets

  lemma PairsOrder(b: seq<byte>, p: nat, q: nat)
    requires p < |b| && q < |b| && Pair(b, p) < Pair(b, q)
    ensures Ranks(b)[p] <= Ranks(b)[q]
  {
    if b[p] == b[q] {
      RankNext(b, p, q);
      RankByte(b, Next(|b|, p), Next(|b|, q));
    } else {
      RankByte(b, p, q);
    }
  }

  lemma RangeSorted(b: seq<byte>, f: seq<nat>, x: nat, y: nat)
    requires InBuckets(b, f) && x <= y && forall z :: x <= z < y ==> SortedBucket(b, f, z)
    ensures SortedPart(f, Ranks(b), Start(b, x), Start(b, y) - 1)
  {
    StartMonotone(b, x, y);
    hide Start, Pair, Ranks, SortedBucket;
    forall k, m | Start(b, x) <= k < m <= Start(b, y) - 1 ensures Key(f, Ranks(b), k) <= Key(f, Ranks(b), m) {
      BucketsBetween(b, f, x, y, k);
      BucketsOrder(b, f, k, m);
    }
  }

  lemma BucketsOrder(b: seq<byte>, f: seq<nat>, k: nat, m: nat)
    requires InBuckets(b, f) && k < m < |b| && f[k] < |b| && SortedBucket(b, f, Pair(b, f[k]))
    ensures Key(f, Ranks(b), k) <= Key(f, Ranks(b), m)
  {
    var x, y := Pair(b, f[k]), Pair(b, f[m]);
    assert InBucket(b, f, k) && InBucket(b, f, m);
    hide Start, Ranks, Pair;
    if y < x {
      StartMonotone(b, y + 1, x);
    } else if x < y {
      PairsOrder(b, f[k], f[m]);
    }
  }

  /** When all small buckets are sorted, all rotations are. */
  lemma AllSorted(b: seq<byte>, f: seq<nat>, flags: seq<bool>)
    requires InBuckets(b, f) && SortedFlags(b, f, flags) && forall x :: 0 <= x < PAIRS ==> flags[x]
    ensures SortedRotations(b, f)
  {
    hide Start, Ranks, Pair, SortedBucket;
    RangeSorted(b, f, 0, PAIRS);
    StartAll(b);
    StartNext(b, 0);
    forall i, j | 0 <= i < j < |b| ensures Ranks(b)[f[i]] <= Ranks(b)[f[j]] {
      assert Key(f, Ranks(b), i) <= Key(f, Ranks(b), j);
    }
    SortedByRank(b, f);
  }

  // ----- one small bucket

  /** The rotations of a small bucket have two bytes in common. */
  lemma BucketShares(b: seq<byte>, f: seq<nat>, x: nat)
    requires InBuckets(b, f)
    ensures Shares(b, f, Start(b, x), Start(b, x + 1) - 1, 2)
  {
    StartMonotone(b, x, x + 1);
    forall k, l | Start(b, x) <= k <= Start(b, x + 1) - 1 && Start(b, x) <= l <= Start(b, x + 1) - 1
      ensures Agree(b, f[k], f[l], 2)
    {
      BucketsBetween(b, f, x, x + 1, k);
      BucketsBetween(b, f, x, x + 1, l);
      hide Start;
      PairAgrees(b, f[k], f[l]);
    }
  }

  lemma PairAgrees(b: seq<byte>, p: nat, q: nat)
    requires p < |b| && q < |b| && Pair(b, p) == Pair(b, q)
    ensures Agree(b, p, q, 2)
  {
    assert Agree(b, p, q, 0);
    AgreeOn(b, p, q, 0);
    assert Ahead(|b|, p, 1) == Ahead(|b|, Next(|b|, p), 0) && Ahead(|b|, q, 1) == Ahead(|b|, Next(|b|, q), 0);
    AgreeOn(b, p, q, 1);
  }

  /** Rearranging a small bucket keeps all positions in their buckets. */
  lemma BucketShuffled(b: seq<byte>, f: seq<nat>, g: seq<nat>, x: nat)
    requires InBuckets(b, f) && Shuffled(f, g, Start(b, x), Start(b, x + 1) - 1)
    ensures InBuckets(b, g)
  {
    var lo, hi := Start(b, x), Start(b, x + 1) - 1;
    StartMonotone(b, x, x + 1);
    Rearranged(f, g, |b|);
    forall k | 0 <= k < |b| ensures InBucket(b, g, k) {
      assert InBucket(b, f, k);
      if lo <= k <= hi {
        var j := FromWithin(f, g, lo, hi, k);
        assert InBucket(b, f, j);
        hide Start;
        BucketsBetween(b, f, x, x + 1, k);
        BucketsBetween(b, f, x, x + 1, j);
      }
    }
  }

  lemma OthersSorted(b: seq<byte>, f: seq<nat>, g: seq<nat>, x: nat, flags: seq<bool>)
    requires SortedFlags(b, f, flags) && Shuffled(f, g, Start(b, x), Start(b, x + 1) - 1) && SortedBucket(b, g, x)
    requires x < PAIRS
    ensures SortedFlags(b, g, flags[x := true])
  {
    forall y | 0 <= y < PAIRS && y != x && flags[y] ensures SortedBucket(b, g, y) {
      OtherSorted(b, f, g, x, y);
    }
  }

  lemma OtherSorted(b: seq<byte>, f: seq<nat>, g: seq<nat>, x: nat, y: nat)
    requires Shuffled(f, g, Start(b, x), Start(b, x + 1) - 1) && SortedBucket(b, f, y) && x != y
    ensures SortedBucket(b, g, y)
  {
    if y < x { StartMonotone(b, y + 1, x); } else { StartMonotone(b, x + 1, y); }
    hide Start, Ranks;
    forall k, m | Start(b, y) <= k < m <= Start(b, y + 1) - 1 ensures Key(g, Ranks(b), k) <= Key(g, Ranks(b), m) {
      assert Key(f, Ranks(b), k) <= Key(f, Ranks(b), m);
    }
  }

  lemma TinyBucket(b: seq<byte>, f: seq<nat>, x: nat, flags: seq<bool>)
    requires SortedFlags(b, f, flags) && x < PAIRS && (flags[x] || Start(b, x + 1) - 1 <= Start(b, x))
    ensures SortedFlags(b, f, flags[x := true])
  {
    hide Start, Ranks;
  }
}
