/** A big bucket of the main sort: the parts of it that the scans begin with, what the
    scans read, and what they leave behind. */
module BigBuckets {
  import opened Bits
  import opened Permutations
  import opened Rotations
  import opened RotationRanks
  import opened QuickSort
  import opened PairBuckets
  import opened BucketScan
  import opened BucketFill

  /** The entries of big bucket `c` before its small bucket of `c` and `c`. */
  function UpPart(b: seq<byte>, f: seq<nat>, c: byte): (s: seq<nat>)
    requires |f| == |b|
    ensures |s| == Start(b, Small(c, c)) - Start(b, Small(c, 0))
  {
    StartMonotone(b, Small(c, 0), Small(c, c));
    f[Start(b, Small(c, 0))..Start(b, Small(c, c))]
  }

  /** The entries after it, last one first. */
  function DownPart(b: seq<byte>, f: seq<nat>, c: byte): (s: seq<nat>)
    requires |f| == |b|
    ensures |s| == Start(b, Small(c, 256)) - Start(b, Small(c, c) + 1)
  {
    StartMonotone(b, Small(c, c) + 1, Small(c, 256));
    var lo, hi := Start(b, Small(c, c) + 1), Start(b, Small(c, 256));
    seq(hi - lo, i requires 0 <= i < hi - lo => f[hi - 1 - i])
  }

  lemma InBig(b: seq<byte>, f: seq<nat>, c: byte, x: nat, y: nat, k: nat)
    requires InBuckets(b, f) && k < |b| && x <= y <= 256
    ensures f[k] < |b|
    ensures Start(b, Small(c, x)) <= k < Start(b, Small(c, y)) <==> b[f[k]] == c && x <= b[Next(|b|, f[k])] < y
  {
    BucketsBetween(b, f, Small(c, x), Small(c, y), k);
    hide Start, InBuckets;
  }

  lemma SmallNext(c: byte)
    ensures Small(c, c) + 1 == Small(c, c as int + 1) && Small(c, 0) >= 0 && Small(c, c) >= Small(c, 0)
    ensures Small(c, 256) >= Small(c, c) + 1
  {
  }

  lemma UpFirsts(b: seq<byte>, f: seq<nat>, c: byte)
    requires InBuckets(b, f) && SortedPart(f, Ranks(b), Start(b, Small(c, 0)), Start(b, Small(c, c)) - 1)
    ensures Firsts(b, c, false, UpPart(b, f, c)) && AllFirsts(b, c, false, UpPart(b, f, c))
  {
    hide Start, Small, Ranks;
    SmallNext(c);
    var s, lo, hi := UpPart(b, f, c), Start(b, Small(c, 0)), Start(b, Small(c, c));
    StartMonotone(b, Small(c, 0), Small(c, c));
    forall i | 0 <= i < |s| ensures s[i] == f[lo + i] < |b| && b[s[i]] == c && Beside(b, c, false, s[i]) {
      InBig(b, f, c, 0, c, lo + i);
    }
    forall i, j | 0 <= i < j < |s| ensures s[i] != s[j] && Before(b, false, s[i], s[j]) {
      assert Key(f, Ranks(b), lo + i) <= Key(f, Ranks(b), lo + j);
    }
    forall p: nat | p < |b| && b[p] == c && Beside(b, c, false, p) ensures p in s {
      var k := IndexIn(f, |b|, p);
      InBig(b, f, c, 0, c, k);
      assert s[k - lo] == p;
    }
  }

  lemma DownFirsts(b: seq<byte>, f: seq<nat>, c: byte)
    requires InBuckets(b, f) && SortedPart(f, Ranks(b), Start(b, Small(c, c) + 1), Start(b, Small(c, 256)) - 1)
    ensures Firsts(b, c, true, DownPart(b, f, c)) && AllFirsts(b, c, true, DownPart(b, f, c))
  {
    hide Start, Small, Ranks;
    SmallNext(c);
    var s, lo, hi := DownPart(b, f, c), Start(b, Small(c, c) + 1), Start(b, Small(c, 256));
    StartMonotone(b, Small(c, c) + 1, Small(c, 256));
    forall i | 0 <= i < |s| ensures s[i] == f[hi - 1 - i] < |b| && b[s[i]] == c && Beside(b, c, true, s[i]) {
      InBig(b, f, c, c as int + 1, 256, hi - 1 - i);
    }
    forall i, j | 0 <= i < j < |s| ensures s[i] != s[j] && Before(b, true, s[i], s[j]) {
      assert Key(f, Ranks(b), hi - 1 - j) <= Key(f, Ranks(b), hi - 1 - i);
    }
    forall p: nat | p < |b| && b[p] == c && Beside(b, c, true, p) ensures p in s {
      var k := IndexIn(f, |b|, p);
      InBig(b, f, c, c as int + 1, 256, k);
      assert s[hi - 1 - k] == p;
    }
  }

  // ----- what the scans read

  /** Outside its own small bucket the big bucket is not touched. */
  lemma ReadFirst(b: seq<byte>, f0: seq<nat>, f: seq<nat>, c: byte, done: seq<bool>, l: seq<nat>, r: seq<nat>, j: int)
    requires InBuckets(b, f0) && FilledIn(b, f0, f, c, done, l, r) && 0 <= j < |b|
    requires Start(b, Small(c, 0)) <= j < Start(b, Small(c, c))
      || Start(b, Small(c, c) + 1) <= j < Start(b, Small(c, 256))
    ensures |f| == |f0| == |b| && f[j] == f0[j]
  {
    assert Small(c, c) + 1 == Small(c, c as int + 1);
    InBig(b, f0, c, 0, c, j);
    InBig(b, f0, c, c as int + 1, 256, j);
    hide Start, Small, Preds;
    Untouched(b, f0, f, c, done, l, r, j);
  }

  /** In its own small bucket a scan reads what it has found. */
  lemma ReadFound(b: seq<byte>, f0: seq<nat>, f: seq<nat>, c: byte, done: seq<bool>, l: seq<nat>, r: seq<nat>, j: int)
    requires InBuckets(b, f0) && FilledIn(b, f0, f, c, done, l, r) && !IsDone(done, c) && 0 <= j < |b|
    requires Start(b, Small(c, c)) <= j < Start(b, Small(c, c) + 1)
    ensures |f| == |f0| == |b| && f[j] == InSmall(b, c, l, r, c, j, f0[j])
  {
    EntryBucket(b, f0, j, c, c);
    assert f[j] == Filled(b, f0, c, done, l, r, j);
    hide Start, Small, Preds, InSmall;
  }

  lemma OwnRoom(b: seq<byte>, c: byte, up: seq<nat>, dn: seq<nat>, l: seq<nat>, r: seq<nat>)
    requires Scans(b, c, up, dn, l, r)
    ensures 0 <= Start(b, Small(c, 0)) <= Start(b, Small(c, c)) <= Start(b, Small(c, c) + 1) <= Start(b, Small(c, 256))
      <= |b|
    ensures LeftAt(b, c, l, c) <= RightAt(b, c, r, c) + 1
  {
    StartMonotone(b, Small(c, 0), Small(c, c));
    StartMonotone(b, Small(c, c), Small(c, c) + 1);
    StartMonotone(b, Small(c, c) + 1, Small(c, 256));
    StartNext(b, Small(c, c));
    hide Scans, Start, SoFar, Preds;
    RoomLeft(b, c, up, dn, l, r, c);
  }

  /** The state of the two scans of big bucket `c`: `f0` was there before, `f` is there now. */
  ghost predicate Scanning(b: seq<byte>, f0: seq<nat>, f: seq<nat>, c: byte, done: seq<bool>, l: seq<nat>,
          r: seq<nat>) {
    && InBuckets(b, f0) && FilledIn(b, f0, f, c, done, l, r) && !IsDone(done, c)
    && Scans(b, c, UpPart(b, f0, c), DownPart(b, f0, c), l, r)
  }

  lemma ScanBounds(b: seq<byte>, f0: seq<nat>, f: seq<nat>, c: byte, done: seq<bool>, l: seq<nat>, r: seq<nat>)
    requires Scanning(b, f0, f, c, done, l, r)
    ensures |f| == |f0| == |b|
    ensures 0 <= Start(b, Small(c, 0)) <= Start(b, Small(c, c)) <= Start(b, Small(c, c) + 1) <= Start(b, Small(c, 256))
      <= |b|
    ensures LeftAt(b, c, l, c) <= RightAt(b, c, r, c) + 1
  {
    hide Scans, Start, SoFar, Preds;
    OwnRoom(b, c, UpPart(b, f0, c), DownPart(b, f0, c), l, r);
  }

  lemma ReadAny(b: seq<byte>, f0: seq<nat>, f: seq<nat>, c: byte, done: seq<bool>, l: seq<nat>, r: seq<nat>, j: int)
    requires Scanning(b, f0, f, c, done, l, r) && Start(b, Small(c, 0)) <= j < Start(b, Small(c, 256))
    ensures 0 <= j < |b| == |f| == |f0|
    ensures f[j] == if Start(b, Small(c, c)) <= j < Start(b, Small(c, c) + 1) then InSmall(b, c, l, r, c, j, f0[j])
      else f0[j]
  {
    ScanBounds(b, f0, f, c, done, l, r);
    hide Scans, Start, Small, Preds, InBuckets, FilledIn, InSmall;
    if Start(b, Small(c, c)) <= j < Start(b, Small(c, c) + 1) {
      ReadFound(b, f0, f, c, done, l, r, j);
    } else {
      ReadFirst(b, f0, f, c, done, l, r, j);
    }
  }

  /** The entries that the upward scan reads are those it is to go through. */
  lemma ReadUp(b: seq<byte>, f0: seq<nat>, f: seq<nat>, c: byte, done: seq<bool>, l: seq<nat>, r: seq<nat>, j: int)
    requires Scanning(b, f0, f, c, done, l, r) && j == Start(b, Small(c, 0)) + |l| < LeftAt(b, c, l, c)
    ensures 0 <= j < |f| == |f0| == |b| && |l| < |UpPart(b, f0, c)| + |Preds(b, l, c)|
    ensures f[j] == (UpPart(b, f0, c) + Preds(b, l, c))[|l|]
  {
    hide Scanning, Start, Small, Preds;
    ScanBounds(b, f0, f, c, done, l, r);
    ReadAny(b, f0, f, c, done, l, r, j);
  }

  /** The entries that the downward scan reads are those it is to go through. */
  lemma ReadDown(b: seq<byte>, f0: seq<nat>, f: seq<nat>, c: byte, done: seq<bool>, l: seq<nat>, r: seq<nat>, j: int)
    requires Scanning(b, f0, f, c, done, l, r) && j == Start(b, Small(c, 256)) - 1 - |r| > RightAt(b, c, r, c)
    ensures 0 <= j < |f| == |f0| == |b| && |r| < |DownPart(b, f0, c)| + |Preds(b, r, c)|
    ensures f[j] == (DownPart(b, f0, c) + Preds(b, r, c))[|r|]
  {
    hide Scanning, Start, Small, Preds;
    ScanBounds(b, f0, f, c, done, l, r);
    ReadAny(b, f0, f, c, done, l, r, j);
  }

  // ----- the steps of the scans

  lemma ScansOn(b: seq<byte>, c: byte, up: seq<nat>, dn: seq<nat>, l: seq<nat>, r: seq<nat>, x: nat)
    requires Scans(b, c, up, dn, l, r) && |l| < |up| + |Preds(b, l, c)| && x == (up + Preds(b, l, c))[|l|]
    ensures x < |b| && Scans(b, c, up, dn, l + [x], r)
    ensures var t: int := b[Previous(|b|, x)]; LeftAt(b, c, l, t) <= RightAt(b, c, r, t)
  {
    hide Firsts, Scanned, Start, SoFar;
    ScanOn(b, c, false, up, l, x);
    var t: int := b[Previous(|b|, x)];
    RoomLeft(b, c, up, dn, l + [x], r, t);
    PredsPush(b, l, x, t);
    StartNext(b, Small(t, c));
  }

  lemma ScansBack(b: seq<byte>, c: byte, up: seq<nat>, dn: seq<nat>, l: seq<nat>, r: seq<nat>, x: nat)
    requires Scans(b, c, up, dn, l, r) && |r| < |dn| + |Preds(b, r, c)| && x == (dn + Preds(b, r, c))[|r|]
    ensures x < |b| && Scans(b, c, up, dn, l, r + [x])
    ensures var t: int := b[Previous(|b|, x)]; LeftAt(b, c, l, t) <= RightAt(b, c, r, t)
  {
    hide Firsts, Scanned, Start, SoFar;
    ScanOn(b, c, true, dn, r, x);
    var t: int := b[Previous(|b|, x)];
    RoomLeft(b, c, up, dn, l, r + [x], t);
    PredsPush(b, r, x, t);
    StartNext(b, Small(t, c));
  }

  /** The upward scan takes entry `j`. */
  lemma UpStep(b: seq<byte>, f0: seq<nat>, f: seq<nat>, c: byte, done: seq<bool>, l: seq<nat>, r: seq<nat>, j: int)
    requires Scanning(b, f0, f, c, done, l, r) && j == Start(b, Small(c, 0)) + |l| < LeftAt(b, c, l, c)
    ensures 0 <= j < |f| == |b| && f[j] < |b|
    ensures var p := Previous(|b|, f[j]); var t: int := b[p]; var i := LeftAt(b, c, l, t);
      && 0 <= i < |f|
      && Scanning(b, f0, if IsDone(done, t) then f else f[i := p], c, done, l + [f[j]], r)
      && forall u :: LeftAt(b, c, l + [f[j]], u) == LeftAt(b, c, l, u) + if u == t then 1 else 0
  {
    ReadUp(b, f0, f, c, done, l, r, j);
    hide Start, Preds, InBuckets, FilledIn, Scans, Small;
    ScansOn(b, c, UpPart(b, f0, c), DownPart(b, f0, c), l, r, f[j]);
    FillLeft(b, f0, f, c, done, l, r, f[j]);
    forall u { PredsPush(b, l, f[j], u); }
  }

  /** The downward scan takes entry `j`. */
  lemma DownStep(b: seq<byte>, f0: seq<nat>, f: seq<nat>, c: byte, done: seq<bool>, l: seq<nat>, r: seq<nat>, j: int)
    requires Scanning(b, f0, f, c, done, l, r) && j == Start(b, Small(c, 256)) - 1 - |r| > RightAt(b, c, r, c)
    ensures 0 <= j < |f| == |b| && f[j] < |b|
    ensures var p := Previous(|b|, f[j]); var t: int := b[p]; var i := RightAt(b, c, r, t);
      && 0 <= i < |f|
      && Scanning(b, f0, if IsDone(done, t) then f else f[i := p], c, done, l, r + [f[j]])
      && forall u :: RightAt(b, c, r + [f[j]], u) == RightAt(b, c, r, u) - if u == t then 1 else 0
  {
    ReadDown(b, f0, f, c, done, l, r, j);
    hide Start, Preds, InBuckets, FilledIn, Scans, Small;
    ScansBack(b, c, UpPart(b, f0, c), DownPart(b, f0, c), l, r, f[j]);
    FillRight(b, f0, f, c, done, l, r, f[j]);
    forall u { PredsPush(b, r, f[j], u); }
  }

  // ----- what the scans leave behind

  ghost predicate SortedBucket(b: seq<byte>, f: seq<nat>, x: nat) {
    SortedPart(f, Ranks(b), Start(b, x), Start(b, x + 1) - 1)
  }

  /** Both scans have come to their ends. */
  ghost predicate ScansOver(b: seq<byte>, c: byte, l: seq<nat>, r: seq<nat>) {
    Start(b, Small(c, 0)) + |l| >= LeftAt(b, c, l, c) && Start(b, Small(c, 256)) - 1 - |r| <= RightAt(b, c, r, c)
  }

  lemma ScansEnded(b: seq<byte>, f0: seq<nat>, f: seq<nat>, c: byte, done: seq<bool>, l: seq<nat>, r: seq<nat>)
    requires Scanning(b, f0, f, c, done, l, r) && ScansOver(b, c, l, r)
    requires AllFirsts(b, c, false, UpPart(b, f0, c)) && AllFirsts(b, c, true, DownPart(b, f0, c))
    ensures Ended(b, c, UpPart(b, f0, c), DownPart(b, f0, c), l, r)
  {
    var up, dn := UpPart(b, f0, c), DownPart(b, f0, c);
    hide Start, Preds, InBuckets, FilledIn, Small, Firsts, AllFirsts, Distinct, InOrder, Side;
    assert |l| == |up| + |Preds(b, l, c)| && |r| == |dn| + |Preds(b, r, c)|;
    assert (up + Preds(b, l, c))[..|l|] == up + Preds(b, l, c) && (dn + Preds(b, r, c))[..|r|] == dn + Preds(b, r, c);
  }

  /** The small buckets that have been filled are sorted; the others stay as they were. */
  lemma ScanSorts(b: seq<byte>, f0: seq<nat>, f: seq<nat>, c: byte, done: seq<bool>, up: seq<nat>, dn: seq<nat>,
          l: seq<nat>, r: seq<nat>, o: nat, t: byte, u: byte)
    requires Filling(b, f0, f, c, done, up, dn, l, r, o)
    requires (u == c && !IsDone(done, t)) || SortedBucket(b, f0, Small(t, u))
    ensures SortedBucket(b, f, Small(t, u))
  {
    hide Filling, Start, Small, FullBucket, Scans;
    if u == c && !IsDone(done, t) {
      FillingScans(b, f0, f, c, done, up, dn, l, r, o);
      BucketFull(b, f0, f, c, done, up, dn, l, r, t, o);
      FullSorted(b, f, c, up, dn, l, r, t);
    } else {
      forall k | Start(b, Small(t, u)) <= k < Start(b, Small(t, u) + 1)
        ensures Key(f, Ranks(b), k) == Key(f0, Ranks(b), k)
      {
        KeyKept(b, f0, f, c, done, up, dn, l, r, o, t, u, k);
      }
    }
  }

  lemma FillingScans(b: seq<byte>, f0: seq<nat>, f: seq<nat>, c: byte, done: seq<bool>, up: seq<nat>, dn: seq<nat>,
                     l: seq<nat>, r: seq<nat>, o: nat)
    requires Filling(b, f0, f, c, done, up, dn, l, r, o)
    ensures Scans(b, c, up, dn, l, r)
  {
  }

  lemma KeyKept(b: seq<byte>, f0: seq<nat>, f: seq<nat>, c: byte, done: seq<bool>, up: seq<nat>, dn: seq<nat>,
          l: seq<nat>, r: seq<nat>, o: nat, t: byte, u: byte, k: int)
    requires Filling(b, f0, f, c, done, up, dn, l, r, o) && !(u == c && !IsDone(done, t))
    requires Start(b, Small(t, u)) <= k < Start(b, Small(t, u) + 1)
    ensures Key(f, Ranks(b), k) == Key(f0, Ranks(b), k)
  {
    StartMonotone(b, Small(t, u), Small(t, u) + 1);
    EntryBucket(b, f0, k, t, u);
    Untouched(b, f0, f, c, done, l, r, k);
    hide Start, Small, InBuckets, Ended, Ranks;
  }

  /** When all bytes are the same, all rotations are. */
  lemma AllRanksSame(b: seq<byte>, c: byte, p: nat, q: nat)
    requires p < |b| && q < |b| && forall i :: 0 <= i < |b| ==> b[i] == c
    ensures Ranks(b)[p] == Ranks(b)[q]
  {
    var n := |b|;
    forall k | 0 <= k < n ensures Cyclic(b, p, n)[k] == Cyclic(b, q, n)[k] {
      CyclicAt(b, p, n, k);
      CyclicAt(b, q, n, k);
    }
    assert Cyclic(b, p, n) == Cyclic(b, q, n);
    AgreeSame(b, p, q, n);
  }

  lemma AllSortedSame(b: seq<byte>, f: seq<nat>, c: byte, x: nat)
    requires Permutation(f, |b|) && forall i :: 0 <= i < |b| ==> b[i] == c
    ensures SortedBucket(b, f, x)
  {
    StartMonotone(b, x, x + 1);
    forall k, m | Start(b, x) <= k < m <= Start(b, x + 1) - 1 ensures Key(f, Ranks(b), k) <= Key(f, Ranks(b), m) {
      AllRanksSame(b, c, f[k], f[m]);
    }
  }

  /** When all bytes are the same the scans find nothing. */
  lemma NothingFound(b: seq<byte>, f0: seq<nat>, f: seq<nat>, c: byte, done: seq<bool>, l: seq<nat>, r: seq<nat>)
    requires Scanning(b, f0, f, c, done, l, r) && forall i :: 0 <= i < |b| ==> b[i] == c
    ensures l == [] && r == [] && f == f0
    ensures b != [] ==> LeftAt(b, c, l, c) == 0 && RightAt(b, c, r, c) == |b| - 1
  {
    if l != [] {
      assert Side(b, c, false, l[0]);
      AfterSame(b, c, l[0], |b|);
    }
    if r != [] {
      assert Side(b, c, true, r[0]);
      AfterSame(b, c, r[0], |b|);
    }
    forall k | 0 <= k < |b| ensures f[k] == f0[k] {
      assert f[k] == Filled(b, f0, c, done, l, r, k);
    }
    if b != [] {
      EntryBucket(b, f0, 0, c, c);
      EntryBucket(b, f0, |b| - 1, c, c);
      ScanBounds(b, f0, f, c, done, l, r);
    }
  }

  /** The small bucket of `c` and `c` is full, or holds the whole block. */
  ghost predicate CursorsMet(b: seq<byte>, c: byte, l: seq<nat>, r: seq<nat>) {
    || LeftAt(b, c, l, c) - 1 == RightAt(b, c, r, c)
    || (LeftAt(b, c, l, c) == 0 && RightAt(b, c, r, c) == |b| - 1)
  }

  /** After both scans all positions are in their buckets, and every small bucket whose
      second byte is `c` is sorted, if it was not done with before. */
  lemma ScanDone(b: seq<byte>, f0: seq<nat>, f: seq<nat>, c: byte, done: seq<bool>, l: seq<nat>, r: seq<nat>)
    requires Scanning(b, f0, f, c, done, l, r) && ScansOver(b, c, l, r) && b != []
    requires AllFirsts(b, c, false, UpPart(b, f0, c)) && AllFirsts(b, c, true, DownPart(b, f0, c))
    ensures InBuckets(b, f) && CursorsMet(b, c, l, r)
    ensures forall t: byte, u: byte ::
      (u == c && !IsDone(done, t)) || SortedBucket(b, f0, Small(t, u)) ==> SortedBucket(b, f, Small(t, u))
  {
    hide Ended, Scans, Start, SoFar, Preds, SortedBucket, FilledIn, AllFirsts;
    if forall i :: 0 <= i < |b| ==> b[i] == c {
      NothingFound(b, f0, f, c, done, l, r);
      forall t: byte, u: byte ensures SortedBucket(b, f, Small(t, u)) {
        AllSortedSame(b, f, c, Small(t, u));
      }
    } else {
      var o: nat :| o < |b| && b[o] != c;
      var up, dn := UpPart(b, f0, c), DownPart(b, f0, c);
      ScansEnded(b, f0, f, c, done, l, r);
      assert Filling(b, f0, f, c, done, up, dn, l, r, o);
      FilledBuckets(b, f0, f, c, done, up, dn, l, r, o);
      AllFilled(b, c, up, dn, l, r, c, o);
      StartNext(b, Small(c, c));
      forall t: byte, u: byte | (u == c && !IsDone(done, t)) || SortedBucket(b, f0, Small(t, u))
        ensures SortedBucket(b, f, Small(t, u))
      {
        ScanSorts(b, f0, f, c, done, up, dn, l, r, o, t, u);
      }
    }
  }
}
