/** Filling the small buckets from both ends while a sorted big bucket is scanned. */
module BucketFill {
  import opened Bits
  import opened Wrappers
  import opened Permutations
  import opened Rotations
  import opened RotationRanks
  import opened QuickSort
  import opened PairBuckets
  import opened BucketScan

  /** The big buckets that are done with. */
  predicate IsDone(done: seq<bool>, t: int) {
    0 <= t < |done| && done[t]
  }

  /** The position belongs to a bucket that is being filled. */
  predicate Touched(b: seq<byte>, c: byte, done: seq<bool>, p: nat) {
    p < |b| && b[Next(|b|, p)] == c && !IsDone(done, b[p])
  }

  /** The small bucket of byte `t` and then `c`. */
  function Small(t: int, c: int): int {
    256 * t + c
  }

  /** Where the next position from the upward scan goes. */
  function LeftAt(b: seq<byte>, c: byte, l: seq<nat>, t: int): int {
    Start(b, Small(t, c)) + |Preds(b, l, t)|
  }

  /** Where the next position from the downward scan goes. */
  function RightAt(b: seq<byte>, c: byte, r: seq<nat>, t: int): int {
    Start(b, Small(t, c) + 1) - 1 - |Preds(b, r, t)|
  }

  /** What entry `k` of the bucket of `t` and `c` holds while it is being filled: from the
      left what the upward scan has found, from the right what the downward scan has found. */
  function InSmall(b: seq<byte>, c: byte, l: seq<nat>, r: seq<nat>, t: int, k: int, otherwise: nat): nat {
    var i, j := k - Start(b, Small(t, c)), Start(b, Small(t, c) + 1) - 1 - k;
    if 0 <= i < |Preds(b, l, t)| then Preds(b, l, t)[i]
    else if 0 <= j < |Preds(b, r, t)| then Preds(b, r, t)[j]
    else otherwise
  }

  /** What entry `k` holds while the buckets whose second byte is `c` are filled. */
  function Filled(b: seq<byte>, f0: seq<nat>, c: byte, done: seq<bool>, l: seq<nat>, r: seq<nat>, k: nat): nat
    requires k < |f0| && f0[k] < |b|
  {
    if Touched(b, c, done, f0[k]) then InSmall(b, c, l, r, b[f0[k]], k, f0[k]) else f0[k]
  }

  ghost predicate FilledIn(b: seq<byte>, f0: seq<nat>, f: seq<nat>, c: byte, done: seq<bool>, l: seq<nat>,
          r: seq<nat>) {
    |f| == |f0| == |b| && forall k :: 0 <= k < |f0| ==> f0[k] < |b| && f[k] == Filled(b, f0, c, done, l, r, k)
  }

  lemma EntryBucket(b: seq<byte>, f: seq<nat>, k: int, t: nat, c: nat)
    requires InBuckets(b, f) && 0 <= k < |b| && c < 256
    ensures f[k] < |b|
    ensures Start(b, Small(t, c)) <= k < Start(b, Small(t, c) + 1) <==> b[f[k]] == t && b[Next(|b|, f[k])] == c
  {
    BucketsBetween(b, f, Small(t, c), Small(t, c) + 1, k);
    hide Start, InBuckets;
  }

  /** One more position from the upward scan. */
  lemma FillLeft(b: seq<byte>, f0: seq<nat>, f: seq<nat>, c: byte, done: seq<bool>, l: seq<nat>, r: seq<nat>, x: nat)
    requires InBuckets(b, f0) && FilledIn(b, f0, f, c, done, l, r) && x < |b|
    requires var t := b[Previous(|b|, x)]; LeftAt(b, c, l, t) <= RightAt(b, c, r, t)
    ensures var p := Previous(|b|, x); var t: int := b[p]; var i := LeftAt(b, c, l, t);
      && 0 <= i < |f|
      && FilledIn(b, f0, if IsDone(done, t) then f else f[i := p], c, done, l + [x], r)
  {
    var p := Previous(|b|, x);
    var t: int := b[p];
    var i, y := LeftAt(b, c, l, t), Small(t, c);
    StartMonotone(b, y, y + 1);
    var g := if IsDone(done, t) then f else f[i := p];
    forall k | 0 <= k < |b| ensures f0[k] < |b| && g[k] == Filled(b, f0, c, done, l + [x], r, k) {
      EntryBucket(b, f0, k, t, c);
      PredsPush(b, l, x, b[f0[k]]);
      assert f[k] == Filled(b, f0, c, done, l, r, k);
      hide Start, Preds, InBuckets, FilledIn, Small;
    }
  }

  /** One more position from the downward scan. */
  lemma FillRight(b: seq<byte>, f0: seq<nat>, f: seq<nat>, c: byte, done: seq<bool>, l: seq<nat>, r: seq<nat>, x: nat)
    requires InBuckets(b, f0) && FilledIn(b, f0, f, c, done, l, r) && x < |b|
    requires var t := b[Previous(|b|, x)]; LeftAt(b, c, l, t) <= RightAt(b, c, r, t)
    ensures var p := Previous(|b|, x); var t: int := b[p]; var i := RightAt(b, c, r, t);
      && 0 <= i < |f|
      && FilledIn(b, f0, if IsDone(done, t) then f else f[i := p], c, done, l, r + [x])
  {
    var p := Previous(|b|, x);
    var t: int := b[p];
    var i, y := RightAt(b, c, r, t), Small(t, c);
    StartMonotone(b, y, y + 1);
    var g := if IsDone(done, t) then f else f[i := p];
    forall k | 0 <= k < |b| ensures f0[k] < |b| && g[k] == Filled(b, f0, c, done, l, r + [x], k) {
      EntryBucket(b, f0, k, t, c);
      PredsPush(b, r, x, b[f0[k]]);
      assert f[k] == Filled(b, f0, c, done, l, r, k);
      hide Start, Preds, InBuckets, FilledIn, Small;
    }
  }

  // ----- the outcome

  /** The scans have ended, and some byte differs from that of the big bucket. */
  ghost predicate Filling(b: seq<byte>, f0: seq<nat>, f: seq<nat>, c: byte, done: seq<bool>, up: seq<nat>, dn: seq<nat>,
                          l: seq<nat>, r: seq<nat>, o: nat)
  {
    InBuckets(b, f0) && FilledIn(b, f0, f, c, done, l, r) && Ended(b, c, up, dn, l, r) && o < |b| && b[o] != c
  }

  /** Where an entry of a full bucket comes from. */
  function FromIndex(b: seq<byte>, c: byte, l: seq<nat>, t: int, k: int): int {
    var x, y := Start(b, Small(t, c)), Start(b, Small(t, c) + 1);
    if k - x < |Preds(b, l, t)| then k - x else |Preds(b, l, t)| + (y - 1 - k)
  }

  predicate GainedEntry(b: seq<byte>, f: seq<nat>, c: byte, l: seq<nat>, r: seq<nat>, t: int, k: int) {
    && 0 <= k < |f| && 0 <= FromIndex(b, c, l, t, k) < |Gained(b, l, r, t)|
    && f[k] == Gained(b, l, r, t)[FromIndex(b, c, l, t, k)]
  }

  /** A small bucket that has been filled: the first scan from its left end, the other
      from its right end. */
  ghost predicate FullBucket(b: seq<byte>, f: seq<nat>, c: byte, l: seq<nat>, r: seq<nat>, t: int) {
    forall k :: Start(b, Small(t, c)) <= k < Start(b, Small(t, c) + 1) ==> GainedEntry(b, f, c, l, r, t, k)
  }

  lemma BucketFull(b: seq<byte>, f0: seq<nat>, f: seq<nat>, c: byte, done: seq<bool>, up: seq<nat>, dn: seq<nat>,
          l: seq<nat>, r: seq<nat>, t: byte, o: nat)
    requires Filling(b, f0, f, c, done, up, dn, l, r, o) && !IsDone(done, t)
    ensures FullBucket(b, f, c, l, r, t)
  {
    hide InBuckets, FilledIn, Ended, FullBucket, Preds, SoFar;
    AllFilled(b, c, up, dn, l, r, t, o);
    BucketFits(b, f0, f, c, done, l, r, t);
  }

  lemma BucketFits(b: seq<byte>, f0: seq<nat>, f: seq<nat>, c: byte, done: seq<bool>, l: seq<nat>, r: seq<nat>, t: byte)
    requires InBuckets(b, f0) && FilledIn(b, f0, f, c, done, l, r) && !IsDone(done, t)
    requires |Preds(b, l, t)| + |Preds(b, r, t)| == SoFar(b, |b|, Small(t, c))
    ensures FullBucket(b, f, c, l, r, t)
  {
    forall k | Start(b, Small(t, c)) <= k < Start(b, Small(t, c) + 1) ensures GainedEntry(b, f, c, l, r, t, k) {
      StartMonotone(b, Small(t, c), Small(t, c) + 1);
      EntryFits(b, f0, f, c, done, l, r, t, k);
    }
  }

  lemma EntryFits(b: seq<byte>, f0: seq<nat>, f: seq<nat>, c: byte, done: seq<bool>, l: seq<nat>, r: seq<nat>, t: byte,
          k: nat)
    requires InBuckets(b, f0) && FilledIn(b, f0, f, c, done, l, r) && !IsDone(done, t) && k < |b|
    requires Start(b, Small(t, c)) <= k < Start(b, Small(t, c) + 1)
    requires |Preds(b, l, t)| + |Preds(b, r, t)| == SoFar(b, |b|, Small(t, c))
    ensures GainedEntry(b, f, c, l, r, t, k)
  {
    hide InBuckets, Preds, Start, SoFar;
    EntryBucket(b, f0, k, t, c);
    StartNext(b, Small(t, c));
    assert f[k] == Filled(b, f0, c, done, l, r, k) == InSmall(b, c, l, r, t, k, f0[k]);
    assert Start(b, Small(t, c) + 1) - Start(b, Small(t, c)) == |Preds(b, l, t)| + |Preds(b, r, t)|;
  }

  lemma FullEntry(b: seq<byte>, f: seq<nat>, c: byte, up: seq<nat>, dn: seq<nat>, l: seq<nat>, r: seq<nat>, t: byte,
          k: int)
    requires FullBucket(b, f, c, l, r, t) && Scans(b, c, up, dn, l, r)
    requires Start(b, Small(t, c)) <= k < Start(b, Small(t, c) + 1)
    ensures var i := FromIndex(b, c, l, t, k);
      && 0 <= k < |f| && 0 <= i < |Gained(b, l, r, t)| && f[k] == Gained(b, l, r, t)[i]
      && f[k] < |b| && Pair(b, f[k]) == Small(t, c)
  {
    assert GainedEntry(b, f, c, l, r, t, k);
    GainedPair(b, c, up, dn, l, r, t, FromIndex(b, c, l, t, k));
  }

  lemma FullDistinct(b: seq<byte>, f: seq<nat>, c: byte, up: seq<nat>, dn: seq<nat>, l: seq<nat>, r: seq<nat>, t: byte,
          k: int, m: int)
    requires FullBucket(b, f, c, l, r, t) && Scans(b, c, up, dn, l, r)
    requires Start(b, Small(t, c)) <= k < m < Start(b, Small(t, c) + 1)
    ensures 0 <= k < m < |f| && f[k] != f[m]
  {
    GainedDistinct(b, c, up, dn, l, r, t);
    FullEntry(b, f, c, up, dn, l, r, t, k);
    FullEntry(b, f, c, up, dn, l, r, t, m);
    hide Start, Preds, Pair, Scans, Small;
    assert FromIndex(b, c, l, t, k) != FromIndex(b, c, l, t, m);
  }

  lemma FullSorted(b: seq<byte>, f: seq<nat>, c: byte, up: seq<nat>, dn: seq<nat>, l: seq<nat>, r: seq<nat>, t: byte)
    requires FullBucket(b, f, c, l, r, t) && Scans(b, c, up, dn, l, r)
    ensures SortedPart(f, Ranks(b), Start(b, Small(t, c)), Start(b, Small(t, c) + 1) - 1)
  {
    var x, y := Start(b, Small(t, c)), Start(b, Small(t, c) + 1);
    var pl, pr := Preds(b, l, t), Preds(b, r, t);
    PredsInOrder(b, false, l, t);
    PredsInOrder(b, true, r, t);
    hide Start, Preds, Pair, Scans, Small, Gained, Ranks, FullBucket;
    forall k, m | x <= k < m <= y - 1 ensures Key(f, Ranks(b), k) <= Key(f, Ranks(b), m) {
      FullPair(b, f, c, up, dn, l, r, t, k, m);
    }
  }

  lemma FullPair(b: seq<byte>, f: seq<nat>, c: byte, up: seq<nat>, dn: seq<nat>, l: seq<nat>, r: seq<nat>, t: byte,
          k: int, m: int)
    requires FullBucket(b, f, c, l, r, t) && Scans(b, c, up, dn, l, r)
    requires InOrder(b, false, Preds(b, l, t)) && InOrder(b, true, Preds(b, r, t))
    requires Start(b, Small(t, c)) <= k < m < Start(b, Small(t, c) + 1)
    ensures Key(f, Ranks(b), k) <= Key(f, Ranks(b), m)
  {
    FullEntry(b, f, c, up, dn, l, r, t, k);
    FullEntry(b, f, c, up, dn, l, r, t, m);
    var i, j := FromIndex(b, c, l, t, k), FromIndex(b, c, l, t, m);
    hide Preds, Pair, Scans, Ranks, Start, FullBucket, InOrder, Gained;
    GainedOrder(b, c, up, dn, l, r, t, i, j);
  }

  lemma GainedOrder(b: seq<byte>, c: byte, up: seq<nat>, dn: seq<nat>, l: seq<nat>, r: seq<nat>, t: byte, i: nat,
          j: nat)
    requires Scans(b, c, up, dn, l, r) && i < |Gained(b, l, r, t)| && j < |Gained(b, l, r, t)|
    requires InOrder(b, false, Preds(b, l, t)) && InOrder(b, true, Preds(b, r, t))
    requires if j < |Preds(b, l, t)| then i < j else i < |Preds(b, l, t)| || j < i
    ensures Before(b, false, Gained(b, l, r, t)[i], Gained(b, l, r, t)[j])
  {
    hide Preds, Scans, Ranks;
    var pl, pr := Preds(b, l, t), Preds(b, r, t);
    if j < |pl| {
      assert Before(b, false, pl[i], pl[j]);
    } else if i < |pl| {
      GainedBetween(b, c, up, dn, l, r, t, i, j - |pl|);
    } else {
      assert Before(b, true, pr[j - |pl|], pr[i - |pl|]);
    }
  }

  /** The other small buckets stay as they were. */
  lemma Untouched(b: seq<byte>, f0: seq<nat>, f: seq<nat>, c: byte, done: seq<bool>, l: seq<nat>, r: seq<nat>, k: nat)
    requires FilledIn(b, f0, f, c, done, l, r) && k < |b|
    ensures f0[k] < |b| && (!Touched(b, c, done, f0[k]) ==> f[k] == f0[k])
  {
    assert f[k] == Filled(b, f0, c, done, l, r, k);
    hide Start, Preds;
  }

  lemma SamePair(b: seq<byte>, f0: seq<nat>, f: seq<nat>, c: byte, done: seq<bool>, up: seq<nat>, dn: seq<nat>,
          l: seq<nat>, r: seq<nat>, o: nat, k: nat)
    requires Filling(b, f0, f, c, done, up, dn, l, r, o) && k < |b|
    ensures f0[k] < |b| && f[k] < |b| && Pair(b, f[k]) == Pair(b, f0[k])
    ensures Start(b, Pair(b, f0[k])) <= k < Start(b, Pair(b, f0[k]) + 1)
    ensures f[k] == f0[k] || (Touched(b, c, done, f0[k]) && Pair(b, f0[k]) == Small(b[f0[k]], c))
  {
    assert InBucket(b, f0, k);
    Untouched(b, f0, f, c, done, l, r, k);
    if f[k] != f0[k] {
      var t: int := b[f0[k]];
      BucketFull(b, f0, f, c, done, up, dn, l, r, t, o);
      EntryBucket(b, f0, k, t, c);
      FullEntry(b, f, c, up, dn, l, r, t, k);
    }
  }

  /** Filling the buckets keeps every position in its bucket. */
  lemma FilledBuckets(b: seq<byte>, f0: seq<nat>, f: seq<nat>, c: byte, done: seq<bool>, up: seq<nat>, dn: seq<nat>,
          l: seq<nat>, r: seq<nat>, o: nat)
    requires Filling(b, f0, f, c, done, up, dn, l, r, o)
    ensures InBuckets(b, f)
  {
    forall k | 0 <= k < |b| ensures f[k] < |b| && InBucket(b, f, k) {
      SamePair(b, f0, f, c, done, up, dn, l, r, o, k);
    }
    forall k, m | 0 <= k < m < |b| ensures f[k] != f[m] {
      FilledDistinct(b, f0, f, c, done, up, dn, l, r, o, k, m);
    }
  }

  lemma FilledDistinct(b: seq<byte>, f0: seq<nat>, f: seq<nat>, c: byte, done: seq<bool>, up: seq<nat>, dn: seq<nat>,
          l: seq<nat>, r: seq<nat>, o: nat, k: nat, m: nat)
    requires Filling(b, f0, f, c, done, up, dn, l, r, o) && k < m < |b|
    ensures |f| == |b| && f[k] != f[m]
  {
    hide Start, Pair, Preds, Filling, Small;
    FillingSizes(b, f0, f, c, done, up, dn, l, r, o, k, m);
    SamePair(b, f0, f, c, done, up, dn, l, r, o, k);
    SamePair(b, f0, f, c, done, up, dn, l, r, o, m);
    if f[k] == f[m] {
      FullTwice(b, f0, f, c, done, up, dn, l, r, o, b[f0[if f[k] != f0[k] then k else m]], k, m);
    }
  }

  lemma FillingSizes(b: seq<byte>, f0: seq<nat>, f: seq<nat>, c: byte, done: seq<bool>, up: seq<nat>, dn: seq<nat>,
          l: seq<nat>, r: seq<nat>, o: nat, k: nat, m: nat)
    requires Filling(b, f0, f, c, done, up, dn, l, r, o) && k < m < |b|
    ensures |f| == |f0| == |b| && f0[k] != f0[m] && Scans(b, c, up, dn, l, r)
  {
  }

  lemma FullTwice(b: seq<byte>, f0: seq<nat>, f: seq<nat>, c: byte, done: seq<bool>, up: seq<nat>, dn: seq<nat>,
          l: seq<nat>, r: seq<nat>, o: nat, t: byte, k: nat, m: nat)
    requires Filling(b, f0, f, c, done, up, dn, l, r, o) && k < m < |b| && !IsDone(done, t)
    requires Start(b, Small(t, c)) <= k && m < Start(b, Small(t, c) + 1)
    ensures |f| == |b| && f[k] != f[m]
  {
    hide Start, Preds, Filling, Scans, FullBucket, Small;
    FillingSizes(b, f0, f, c, done, up, dn, l, r, o, k, m);
    BucketFull(b, f0, f, c, done, up, dn, l, r, t, o);
    FullDistinct(b, f, c, up, dn, l, r, t, k, m);
  }
}
