/** The main sort: small buckets are sorted one by one, or filled while a sorted big
    bucket is scanned, until too much work has been done. */
module MainSort {
  import opened Bits
  import opened Wrappers
  import opened Permutations
  import opened Rotations
  import opened RotationRanks
  import opened MainCompare
  import opened QuickSort
  import opened ShellSort
  import opened MultikeySort
  import opened PairBuckets
  import opened RunningOrder
  import opened BucketScan
  import opened BucketFill
  import opened BigBuckets
  import opened SmallBuckets

  // ----- step 1: sorting the small buckets of a big one

  /** Sorts the small bucket `x`, which is not tiny. */
  method SortBucket(ptr: array<nat>, block: array<byte>, quadrant: array<nat>, nblock: nat, x: nat, lo: nat, hi: int,
          budget: int, ghost b: seq<byte>, ghost q: seq<nat>, ghost flags: seq<bool>)
    returns (left: int)
    requires Setting(ptr, block, quadrant, nblock, b, q) && nblock <= MOST_SORTED && x < PAIRS && |flags| == PAIRS
    requires Buckets(b, ptr[..nblock], flags) && lo == Start(b, x) < hi == Start(b, x + 1) - 1
    modifies ptr
    ensures left >= 0 ==> Buckets(b, ptr[..nblock], flags[x := true])
    ensures left != budget ==> LongRepeat(b)
  {
    Apart(ptr, block, quadrant, nblock, b, q);
    hide Setting, Start, Ranks, InBuckets, SortedFlags, Shares, Shuffled, SortedPart, Repetitive, LongRepeat;
    ghost var f := ptr[..nblock];
    BucketShares(b, f, x);
    StartMonotone(b, x, x + 1);
    left := MainQSort3(ptr, block, quadrant, nblock, lo, hi, N_RADIX, budget, b, q);
    if left >= 0 { NowSorted(b, f, ptr[..nblock], x, flags); }
    if left != budget { DifferentEntries(b, f); }
  }

  lemma DifferentEntries(b: seq<byte>, f: seq<nat>)
    requires InBuckets(b, f) && Repetitive(b, multiset(f))
    ensures LongRepeat(b)
  {
    hide Agree, InBucket;
    var p: nat, q: nat :| Agree(b, p, q, FREE_BYTES) && (p != q || multiset(f)[p] > 1);
    OnceEach(f, p);
  }

  lemma {:induction false} OnceEach(f: seq<nat>, p: nat)
    requires forall i, j :: 0 <= i < j < |f| ==> f[i] != f[j]
    ensures multiset(f)[p] <= 1
    decreases |f|
  {
    if f != [] {
      var g := f[..|f| - 1];
      assert f == g + [f[|f| - 1]];
      OnceEach(g, p);
      if p == f[|f| - 1] { assert p !in g; }
    }
  }

  /** Sorts one small bucket, unless it is sorted or tiny. */
  method SortSmall(ptr: array<nat>, block: array<byte>, quadrant: array<nat>, ftab: array<nat>, nblock: nat, sb: nat,
          budget: int, ghost b: seq<byte>, ghost q: seq<nat>, ghost flags: seq<bool>)
    returns (left: int)
    requires Setting(ptr, block, quadrant, nblock, b, q) && Progress(ptr, ftab, nblock, b, flags)
    requires sb < PAIRS && budget >= 0
    requires ptr != ftab
    modifies ptr, ftab
    ensures left >= 0 ==> Progress(ptr, ftab, nblock, b, flags[sb := true])
    ensures left != budget ==> LongRepeat(b)
  {
    ProgressParts(ptr, ftab, nblock, b, flags);
    ghost var f := ptr[..nblock];
    hide Setting, Start, Table, Buckets, LongRepeat;
    left := budget;
    var marked := IsMarked(ftab, sb, b, flags);
    if !marked {
      var lo := StartOf(ftab, sb, b, flags);
      var end := StartOf(ftab, sb + 1, b, flags);
      var hi: int := end as int - 1;
      if hi > lo {
        left := SortBucket(ptr, block, quadrant, nblock, sb, lo, hi, left, b, q, flags);
        if left < 0 {
          return;
        }
      } else {
        NoNeed(b, f, sb, flags);
      }
    } else {
      NoNeed(b, f, sb, flags);
    }
    Mark(ftab, sb, b, flags);
  }

  lemma NoNeed(b: seq<byte>, f: seq<nat>, x: nat, flags: seq<bool>)
    requires Buckets(b, f, flags) && x < PAIRS && |flags| == PAIRS && (flags[x] || Start(b, x + 1) - 1 <= Start(b, x))
    ensures Buckets(b, f, flags[x := true])
  {
    TinyBucket(b, f, x, flags);
  }

  lemma ProgressParts(ptr: array<nat>, ftab: array<nat>, nblock: nat, b: seq<byte>, flags: seq<bool>)
    requires Progress(ptr, ftab, nblock, b, flags)
    ensures |flags| == PAIRS && nblock <= MOST_SORTED && nblock == |b| <= ptr.Length && ftab.Length == PAIRS + 1
  {
  }

  lemma NowSorted(b: seq<byte>, f: seq<nat>, g: seq<nat>, x: nat, flags: seq<bool>)
    requires InBuckets(b, f) && SortedFlags(b, f, flags) && Shuffled(f, g, Start(b, x), Start(b, x + 1) - 1)
    requires x < PAIRS
    requires SortedPart(g, Ranks(b), Start(b, x), Start(b, x + 1) - 1)
    ensures InBuckets(b, g) && SortedFlags(b, g, flags[x := true])
  {
    assert SortedBucket(b, g, x);
    hide Start, InBuckets, SortedFlags, Shuffled, SortedPart;
    BucketShuffled(b, f, g, x);
    OthersSorted(b, f, g, x, flags);
  }

  /** What is marked after the first `j` small buckets of big bucket `c` have been sorted,
      but for that of `c` and `c`. */
  ghost predicate RowMarked(flags0: seq<bool>, flags: seq<bool>, c: int, j: int) {
    && |flags| == |flags0| == PAIRS
    && forall x :: 0 <= x < PAIRS ==> flags[x] == (flags0[x] || (Small(c, 0) <= x < Small(c, j) && x != Small(c, c)))
  }

  /** Sorts the small buckets of big bucket `ss`, but for that of `ss` and `ss`. */
  method SortBig(ptr: array<nat>, block: array<byte>, quadrant: array<nat>, ftab: array<nat>, nblock: nat, ss: byte,
          budget: int, ghost b: seq<byte>, ghost q: seq<nat>, ghost flags0: seq<bool>)
    returns (left: int, ghost flags: seq<bool>)
    requires Setting(ptr, block, quadrant, nblock, b, q) && Progress(ptr, ftab, nblock, b, flags0) && budget >= 0
    requires ptr != ftab && ftab != quadrant && Separate(ftab, block)
    modifies ptr, ftab
    ensures left >= 0 ==> Progress(ptr, ftab, nblock, b, flags) && RowMarked(flags0, flags, ss, 256)
    ensures left != budget ==> LongRepeat(b)
  {
    Apart(ptr, block, quadrant, nblock, b, q);
    ProgressParts(ptr, ftab, nblock, b, flags0);
    hide Setting, Progress, LongRepeat;
    left, flags := budget, flags0;
    for j := 0 to 256
      invariant Setting(ptr, block, quadrant, nblock, b, q) && Progress(ptr, ftab, nblock, b, flags) && left >= 0
      invariant RowMarked(flags0, flags, ss, j) && (left != budget ==> LongRepeat(b))
    {
      if j != ss {
        var sb := Small(ss, j);
        left := SortSmall(ptr, block, quadrant, ftab, nblock, sb, left, b, q, flags);
        if left < 0 {
          return;
        }
        flags := flags[sb := true];
      }
    }
  }

  // ----- step 2: scanning the big bucket

  /** The cursors are where the scans have left them, for all big buckets that are not
      done with. */
  ghost predicate Cursors(copyStart: array<int>, copyEnd: array<int>, b: seq<byte>, c: byte, done: seq<bool>,
          l: seq<nat>, r: seq<nat>)
    reads copyStart, copyEnd
  {
    && copyStart.Length == 256 && copyEnd.Length == 256
    && forall t :: 0 <= t < 256 && !IsDone(done, t) ==>
      copyStart[t] == LeftAt(b, c, l, t) && copyEnd[t] == RightAt(b, c, r, t)
  }

  method InitCursors(ftab: array<nat>, ss: byte, copyStart: array<int>, copyEnd: array<int>, ghost b: seq<byte>,
                     ghost flags: seq<bool>, ghost done: seq<bool>)
    requires Table(ftab, b, flags) && copyStart.Length == 256 && copyEnd.Length == 256
    requires copyStart != copyEnd && Separate(ftab, copyStart) && Separate(ftab, copyEnd)
    modifies copyStart, copyEnd
    ensures Cursors(copyStart, copyEnd, b, ss, done, [], [])
  {
    hide Table, Start;
    for j := 0 to 256
      invariant Table(ftab, b, flags)
      invariant forall t ::
        0 <= t < j ==> copyStart[t] == Start(b, Small(t, ss)) && copyEnd[t] == Start(b, Small(t, ss) + 1) - 1
    {
      var s := StartOf(ftab, Small(j, ss), b, flags);
      var e := StartOf(ftab, Small(j, ss) + 1, b, flags);
      copyStart[j] := s;
      copyEnd[j] := e as int - 1;
    }
  }

  /** The position before that of entry `j`, around the end. */
  method StepBack(ptr: array<nat>, j: nat, nblock: nat) returns (k: nat)
    requires j < ptr.Length && ptr[j] < nblock
    ensures k == Previous(nblock, ptr[j])
  {
    var k0: int := ptr[j] as int - 1;
    if k0 < 0 {
      k0 := k0 + nblock;
    }
    k := k0;
  }

  ghost predicate ScanArrays(ptr: array<nat>, block: array<byte>, bigDone: array<bool>, copyStart: array<int>,
          copyEnd: array<int>, nblock: nat)
  {
    && nblock <= ptr.Length && nblock <= block.Length
    && bigDone.Length == 256 && copyStart.Length == copyEnd.Length == 256
    && Separate(ptr, block) && Separate(ptr, copyStart) && Separate(ptr, copyEnd) && Separate(block, copyStart)
    && Separate(block, copyEnd) && copyStart != copyEnd && Separate(ptr, bigDone) && Separate(copyStart, bigDone)
    && Separate(copyEnd, bigDone)
  }

  /** The state of the scans of big bucket `c`. */
  ghost predicate ScanState(ptr: array<nat>, block: array<byte>, bigDone: array<bool>, copyStart: array<int>,
          copyEnd: array<int>, nblock: nat, b: seq<byte>, f0: seq<nat>, c: byte, done: seq<bool>, l: seq<nat>,
          r: seq<nat>)
    reads ptr, block, bigDone, copyStart, copyEnd
  {
    && ScanArrays(ptr, block, bigDone, copyStart, copyEnd, nblock) && block[..nblock] == b && bigDone[..] == done
    && Scanning(b, f0, ptr[..nblock], c, done, l, r) && Cursors(copyStart, copyEnd, b, c, done, l, r)
  }

  lemma StateBounds(ptr: array<nat>, block: array<byte>, bigDone: array<bool>, copyStart: array<int>,
          copyEnd: array<int>, nblock: nat, b: seq<byte>, f0: seq<nat>, c: byte, done: seq<bool>, l: seq<nat>,
          r: seq<nat>)
    requires ScanState(ptr, block, bigDone, copyStart, copyEnd, nblock, b, f0, c, done, l, r)
    ensures copyStart.Length == copyEnd.Length == 256
    ensures 0 <= Start(b, Small(c, 0)) <= Start(b, Small(c, 256)) <= nblock == |b|
    ensures copyStart[c] == LeftAt(b, c, l, c) && copyEnd[c] == RightAt(b, c, r, c)
  {
    ScanBounds(b, f0, ptr[..nblock], c, done, l, r);
    hide Start, Preds, Scans, InBuckets, FilledIn;
  }

  /** Puts the position before that of entry `j` into its small bucket, at the left. */
  method PutForward(ptr: array<nat>, block: array<byte>, bigDone: array<bool>, copyStart: array<int>,
          ghost copyEnd: array<int>, nblock: nat, j: nat, ss: byte, ghost b: seq<byte>, ghost f0: seq<nat>,
          ghost done: seq<bool>, ghost l: seq<nat>, ghost r: seq<nat>)
    returns (ghost x: nat)
    requires ScanState(ptr, block, bigDone, copyStart, copyEnd, nblock, b, f0, ss, done, l, r)
    requires j == Start(b, Small(ss, 0)) + |l| < LeftAt(b, ss, l, ss)
    modifies ptr, copyStart
    ensures ScanState(ptr, block, bigDone, copyStart, copyEnd, nblock, b, f0, ss, done, l + [x], r) && j < nblock
  {
    hide Scanning, Start, Small, Preds, LeftAt, RightAt;
    ghost var f := ptr[..nblock];
    UpStep(b, f0, f, ss, done, l, r, j);
    x := f[j];
    var k := StepBack(ptr, j, nblock);
    var c1 := block[k];
    if !bigDone[c1] {
      ptr[copyStart[c1]] := k;
      assert ptr[..nblock] == f[copyStart[c1] := k];
      copyStart[c1] := copyStart[c1] + 1;
    }
  }

  /** Puts the position before that of entry `j` into its small bucket, at the right. */
  method PutBackward(ptr: array<nat>, block: array<byte>, bigDone: array<bool>, ghost copyStart: array<int>,
          copyEnd: array<int>, nblock: nat, j: nat, ss: byte, ghost b: seq<byte>, ghost f0: seq<nat>,
          ghost done: seq<bool>, ghost l: seq<nat>, ghost r: seq<nat>)
    returns (ghost x: nat)
    requires ScanState(ptr, block, bigDone, copyStart, copyEnd, nblock, b, f0, ss, done, l, r)
    requires j == Start(b, Small(ss, 256)) - 1 - |r| > RightAt(b, ss, r, ss)
    modifies ptr, copyEnd
    ensures ScanState(ptr, block, bigDone, copyStart, copyEnd, nblock, b, f0, ss, done, l, r + [x]) && j < nblock
  {
    hide Scanning, Start, Small, Preds, LeftAt, RightAt;
    ghost var f := ptr[..nblock];
    DownStep(b, f0, f, ss, done, l, r, j);
    x := f[j];
    var k := StepBack(ptr, j, nblock);
    var c1 := block[k];
    if !bigDone[c1] {
      ptr[copyEnd[c1]] := k;
      assert ptr[..nblock] == f[copyEnd[c1] := k];
      copyEnd[c1] := copyEnd[c1] - 1;
    }
  }

  /** Scans the big bucket upwards, from its start to where the bucket of `ss` and `ss`
      has been filled. */
  method ScanForward(ptr: array<nat>, block: array<byte>, bigDone: array<bool>, copyStart: array<int>,
          ghost copyEnd: array<int>, nblock: nat, start: nat, ss: byte, ghost b: seq<byte>, ghost f0: seq<nat>,
          ghost done: seq<bool>)
    returns (ghost l: seq<nat>)
    requires ScanState(ptr, block, bigDone, copyStart, copyEnd, nblock, b, f0, ss, done, [], [])
    requires start == Start(b, Small(ss, 0))
    modifies ptr, copyStart
    ensures ScanState(ptr, block, bigDone, copyStart, copyEnd, nblock, b, f0, ss, done, l, [])
    ensures start + |l| >= LeftAt(b, ss, l, ss)
  {
    hide ScanState, Start, Small, LeftAt, RightAt;
    StateBounds(ptr, block, bigDone, copyStart, copyEnd, nblock, b, f0, ss, done, [], []);
    l := [];
    var j: nat := start;
    while j < copyStart[ss]
      invariant j == start + |l| && ScanState(ptr, block, bigDone, copyStart, copyEnd, nblock, b, f0, ss, done, l, [])
      decreases nblock - j
    {
      StateBounds(ptr, block, bigDone, copyStart, copyEnd, nblock, b, f0, ss, done, l, []);
      ghost var x := PutForward(ptr, block, bigDone, copyStart, copyEnd, nblock, j, ss, b, f0, done, l, []);
      l := l + [x];
      j := j + 1;
    }
    StateBounds(ptr, block, bigDone, copyStart, copyEnd, nblock, b, f0, ss, done, l, []);
  }

  /** Scans the big bucket downwards, from its end to where the bucket of `ss` and `ss`
      has been filled. */
  method ScanBackward(ptr: array<nat>, block: array<byte>, bigDone: array<bool>, ghost copyStart: array<int>,
          copyEnd: array<int>, nblock: nat, end: nat, ss: byte, ghost b: seq<byte>, ghost f0: seq<nat>,
          ghost done: seq<bool>, ghost l: seq<nat>)
    returns (ghost r: seq<nat>)
    requires ScanState(ptr, block, bigDone, copyStart, copyEnd, nblock, b, f0, ss, done, l, [])
    requires end == Start(b, Small(ss, 256))
    modifies ptr, copyEnd
    ensures ScanState(ptr, block, bigDone, copyStart, copyEnd, nblock, b, f0, ss, done, l, r)
    ensures end - 1 - |r| <= RightAt(b, ss, r, ss)
  {
    hide ScanState, Start, Small, LeftAt, RightAt;
    StateBounds(ptr, block, bigDone, copyStart, copyEnd, nblock, b, f0, ss, done, l, []);
    r := [];
    var j: int := end as int - 1;
    while j > copyEnd[ss]
      invariant j == end - 1 - |r| && ScanState(ptr, block, bigDone, copyStart, copyEnd, nblock, b, f0, ss, done, l, r)
      decreases j
    {
      StateBounds(ptr, block, bigDone, copyStart, copyEnd, nblock, b, f0, ss, done, l, r);
      ReadableDown(ptr, block, bigDone, copyStart, copyEnd, nblock, b, f0, ss, done, l, r, j);
      ghost var x := PutBackward(ptr, block, bigDone, copyStart, copyEnd, nblock, j, ss, b, f0, done, l, r);
      r := r + [x];
      j := j - 1;
    }
    StateBounds(ptr, block, bigDone, copyStart, copyEnd, nblock, b, f0, ss, done, l, r);
  }

  lemma ReadableDown(ptr: array<nat>, block: array<byte>, bigDone: array<bool>, copyStart: array<int>,
          copyEnd: array<int>, nblock: nat, b: seq<byte>, f0: seq<nat>, c: byte, done: seq<bool>, l: seq<nat>,
          r: seq<nat>, j: int)
    requires ScanState(ptr, block, bigDone, copyStart, copyEnd, nblock, b, f0, c, done, l, r)
    requires j == Start(b, Small(c, 256)) - 1 - |r| > RightAt(b, c, r, c)
    ensures j >= 0
  {
    hide Start, Preds, Scanning, Small, RightAt;
    ReadDown(b, f0, ptr[..nblock], c, done, l, r, j);
  }

  /** What is marked when the small buckets of `t` and `c` are, for all `t` below `n`. */
  ghost predicate ColumnMarked(flags0: seq<bool>, flags: seq<bool>, c: int, n: int) {
    && |flags| == |flags0| == PAIRS
    && forall x :: 0 <= x < PAIRS ==> flags[x] == (flags0[x] || (x % 256 == c && x / 256 < n))
  }

  /** Marks all small buckets whose second byte is `ss`. */
  method MarkColumn(ftab: array<nat>, ss: byte, ghost b: seq<byte>, ghost flags0: seq<bool>)
    returns (ghost flags: seq<bool>)
    requires Table(ftab, b, flags0)
    modifies ftab
    ensures Table(ftab, b, flags) && ColumnMarked(flags0, flags, ss, 256)
  {
    TableSize(ftab, b, flags0);
    hide Table;
    flags := flags0;
    for j := 0 to 256
      invariant Table(ftab, b, flags) && ColumnMarked(flags0, flags, ss, j)
    {
      Mark(ftab, Small(j, ss), b, flags);
      flags := flags[Small(j, ss) := true];
    }
  }

  lemma TableSize(ftab: array<nat>, b: seq<byte>, flags: seq<bool>)
    requires Table(ftab, b, flags)
    ensures |flags| == PAIRS
  {
  }

  /** The small buckets of a big one are sorted, but for that of `c` and `c`. */
  ghost predicate RowSorted(b: seq<byte>, f: seq<nat>, flags: seq<bool>, c: byte) {
    && Buckets(b, f, flags)
    && forall x :: Small(c, 0) <= x < Small(c, 256) && x != Small(c, c) ==> flags[x]
  }

  lemma RowFirsts(b: seq<byte>, f: seq<nat>, flags: seq<bool>, c: byte)
    requires RowSorted(b, f, flags, c)
    ensures |f| == |b| && Firsts(b, c, false, UpPart(b, f, c)) && AllFirsts(b, c, false, UpPart(b, f, c))
    ensures Firsts(b, c, true, DownPart(b, f, c)) && AllFirsts(b, c, true, DownPart(b, f, c))
  {
    hide Start, SortedBucket, SortedPart, InBuckets;
    RangeSorted(b, f, Small(c, 0), Small(c, c));
    RangeSorted(b, f, Small(c, c) + 1, Small(c, 256));
    assert |f| == |b| by { BucketsSize(b, f); }
    UpFirsts(b, f, c);
    DownFirsts(b, f, c);
  }

  lemma BucketsSize(b: seq<byte>, f: seq<nat>)
    requires InBuckets(b, f)
    ensures |f| == |b|
  {
  }

  lemma ScanningStarts(b: seq<byte>, f: seq<nat>, flags: seq<bool>, c: byte, done: seq<bool>)
    requires RowSorted(b, f, flags, c) && !IsDone(done, c)
    ensures Scanning(b, f, f, c, done, [], [])
  {
    RowFirsts(b, f, flags, c);
    ScanStarts(b, c, false, UpPart(b, f, c));
    ScanStarts(b, c, true, DownPart(b, f, c));
    hide Start, Firsts, Scanned;
  }

  /** The marks after the scan hold. */
  lemma ScanMarks(b: seq<byte>, f0: seq<nat>, f: seq<nat>, flags0: seq<bool>, flags: seq<bool>, c: byte,
          done: seq<bool>, l: seq<nat>, r: seq<nat>)
    requires RowSorted(b, f0, flags0, c) && ColumnMarked(flags0, flags, c, 256) && b != []
    requires forall x :: 0 <= x < PAIRS && IsDone(done, x / 256) ==> flags0[x]
    requires Scanning(b, f0, f, c, done, l, r) && ScansOver(b, c, l, r)
    ensures Buckets(b, f, flags) && CursorsMet(b, c, l, r)
  {
    hide Scanning, ScansOver, CursorsMet, InBuckets, SortedBucket, IsDone, UpPart, DownPart;
    RowFirsts(b, f0, flags0, c);
    ScanDone(b, f0, f, c, done, l, r);
    forall x | 0 <= x < PAIRS && flags[x] ensures SortedBucket(b, f, x) {
      var t: byte, u: byte := x / 256, x % 256;
      assert x == Small(t, u);
      if flags0[x] { assert SortedBucket(b, f0, x); }
    }
  }

  /** The arrays of the sort do not overlap. */
  ghost predicate SortArrays(ptr: array<nat>, block: array<byte>, quadrant: array<nat>, ftab: array<nat>,
          bigDone: array<bool>, copyStart: array<int>, copyEnd: array<int>, nblock: nat)
  {
    && ScanArrays(ptr, block, bigDone, copyStart, copyEnd, nblock)
    && ptr != quadrant && ptr != ftab && ftab != quadrant && Separate(ftab, block) && Separate(ftab, bigDone)
    && Separate(ftab, copyStart) && Separate(ftab, copyEnd) && Separate(quadrant, block) && Separate(quadrant, bigDone)
    && Separate(quadrant, copyStart) && Separate(quadrant, copyEnd) && Separate(block, bigDone)
  }

  /** Fills the small buckets whose second byte is `ss`, from the sorted ones of big
      bucket `ss`. */
  method ScanBig(ptr: array<nat>, block: array<byte>, ghost quadrant: array<nat>, ftab: array<nat>,
          bigDone: array<bool>, copyStart: array<int>, copyEnd: array<int>, nblock: nat, ss: byte, ghost b: seq<byte>,
          ghost flags0: seq<bool>)
    returns (ghost flags: seq<bool>)
    requires SortArrays(ptr, block, quadrant, ftab, bigDone, copyStart, copyEnd, nblock) && b != []
    requires block[..nblock] == b
    requires Table(ftab, b, flags0) && nblock == |b| && RowSorted(b, ptr[..nblock], flags0, ss)
    requires !bigDone[ss] && forall x :: 0 <= x < PAIRS && IsDone(bigDone[..], x / 256) ==> flags0[x]
    modifies ptr, ftab, copyStart, copyEnd
    ensures Table(ftab, b, flags) && Buckets(b, ptr[..nblock], flags) && ColumnMarked(flags0, flags, ss, 256)
    ensures copyStart[ss] - 1 == copyEnd[ss] || (copyStart[ss] == 0 && copyEnd[ss] == nblock - 1)
  {
    hide Table, Start, RowSorted, Scanning, Buckets, LeftAt, RightAt, CursorsMet, ColumnMarked;
    ghost var f0, done := ptr[..nblock], bigDone[..];
    TableSize(ftab, b, flags0);
    ScanningStarts(b, f0, flags0, ss, done);
    InitCursors(ftab, ss, copyStart, copyEnd, b, flags0, done);
    var start := StartOf(ftab, Small(ss, 0), b, flags0);
    var end := StartOf(ftab, Small(ss, 256), b, flags0);
    assert ScanState(ptr, block, bigDone, copyStart, copyEnd, nblock, b, f0, ss, done, [], []);
    ghost var l, r := ScanBoth(ptr, block, bigDone, copyStart, copyEnd, nblock, start, end, ss, b, f0, done);
    flags := MarkColumn(ftab, ss, b, flags0);
    ScanMarks(b, f0, ptr[..nblock], flags0, flags, ss, done, l, r);
    StateBounds(ptr, block, bigDone, copyStart, copyEnd, nblock, b, f0, ss, done, l, r);
    MetAt(b, ss, l, r);
  }

  lemma MetAt(b: seq<byte>, c: byte, l: seq<nat>, r: seq<nat>)
    requires CursorsMet(b, c, l, r)
    ensures LeftAt(b, c, l, c) - 1 == RightAt(b, c, r, c) || (LeftAt(b, c, l, c) == 0 && RightAt(b, c, r, c) == |b| - 1)
  {
  }

  /** Both scans; afterwards the two ends have met. */
  method ScanBoth(ptr: array<nat>, block: array<byte>, bigDone: array<bool>, copyStart: array<int>, copyEnd: array<int>,
          nblock: nat, start: nat, end: nat, ss: byte, ghost b: seq<byte>, ghost f0: seq<nat>, ghost done: seq<bool>)
    returns (ghost l: seq<nat>, ghost r: seq<nat>)
    requires ScanState(ptr, block, bigDone, copyStart, copyEnd, nblock, b, f0, ss, done, [], [])
    requires start == Start(b, Small(ss, 0)) && end == Start(b, Small(ss, 256))
    modifies ptr, copyStart, copyEnd
    ensures ScanState(ptr, block, bigDone, copyStart, copyEnd, nblock, b, f0, ss, done, l, r) && ScansOver(b, ss, l, r)
  {
    hide ScanState, Start, Small, LeftAt, RightAt;
    l := ScanForward(ptr, block, bigDone, copyStart, copyEnd, nblock, start, ss, b, f0, done);
    r := ScanBackward(ptr, block, bigDone, copyStart, copyEnd, nblock, end, ss, b, f0, done, l);
  }

  // ----- step 3: the descriptors

  lemma {:induction false} ShiftMonotone(x: nat, y: nat, k: nat)
    requires x <= y
    ensures ShiftRight(x, k) <= ShiftRight(y, k) <= y
  {
    if k > 0 { ShiftMonotone(x / 2, y / 2, k - 1); }
  }

  lemma {:induction false} ShiftOnce(x: nat, k: nat)
    ensures ShiftRight(x, k + 1) == ShiftRight(x, k) / 2
  {
    if k > 0 { ShiftOnce(x / 2, k - 1); }
  }

  /** The shift with which the places of a big bucket fit into 16 bits. */
  method FindShift(bbSize: nat) returns (shifts: nat)
    ensures ShiftRight(bbSize, shifts) <= 65534
  {
    shifts := 0;
    while ShiftRight(bbSize, shifts) > 65534
      decreases ShiftRight(bbSize, shifts)
    {
      ShiftOnce(bbSize, shifts);
      shifts := shifts + 1;
    }
  }

  /** The positions at places `j` and later of big bucket `c` have been given their
      descriptors; other bytes keep theirs. */
  ghost predicate Described(b: seq<byte>, f: seq<nat>, q0: seq<nat>, q: seq<nat>, c: byte, start: nat, size: nat,
          shifts: nat, j: nat) {
    && |q| == |q0| == |b| == |f| && start + size <= |f| && j <= size
    && (forall i :: j <= i < size ==> f[start + i] < |b| && q[f[start + i]] == ShiftRight(i, shifts))
    && forall p :: 0 <= p < |b| && b[p] != c ==> q[p] == q0[p]
  }

  lemma DescribeOne(b: seq<byte>, f: seq<nat>, q0: seq<nat>, q: seq<nat>, c: byte, start: nat, size: nat, shifts: nat,
          j: nat)
    requires InBuckets(b, f) && start == Start(b, Small(c, 0)) && start + size == Start(b, Small(c, 256))
    requires Described(b, f, q0, q, c, start, size, shifts, j) && j > 0
    ensures f[start + (j - 1)] < |b|
    ensures Described(b, f, q0, q[f[start + (j - 1)] := ShiftRight(j - 1, shifts)], c, start, size, shifts, j - 1)
  {
    InBig(b, f, c, 0, 256, start + (j - 1));
    assert Distinct(f);
    hide Start, Small, ShiftRight, InBuckets;
  }

  /** The new descriptors tell the order of the rotations. */
  lemma DescribedTells(b: seq<byte>, f: seq<nat>, q0: seq<nat>, q: seq<nat>, c: byte, start: nat, size: nat,
          shifts: nat)
    requires InBuckets(b, f) && start == Start(b, Small(c, 0)) && start + size == Start(b, Small(c, 256))
    requires SortedPart(f, Ranks(b), start, start + size - 1)
    requires Described(b, f, q0, q, c, start, size, shifts, 0) && Describes(b, q0)
    ensures Describes(b, q)
  {
    hide Start, Small, Ranks, ShiftRight, InBuckets;
    forall i, j | 0 <= i < |b| && 0 <= j < |b| && b[i] == b[j] && q[i] < q[j] ensures Ranks(b)[i] <= Ranks(b)[j] {
      if b[i] == c {
        var k := PlaceIn(b, f, c, start, size, i);
        var m := PlaceIn(b, f, c, start, size, j);
        assert f[start + k] == i && f[start + m] == j;
        if m <= k { ShiftMonotone(m, k, shifts); }
        assert Key(f, Ranks(b), start + k) <= Key(f, Ranks(b), start + m);
      }
    }
  }

  lemma PlaceIn(b: seq<byte>, f: seq<nat>, c: byte, start: nat, size: nat, p: nat) returns (k: nat)
    requires InBuckets(b, f) && start == Start(b, Small(c, 0)) && start + size == Start(b, Small(c, 256))
    requires p < |b| && b[p] == c
    ensures k < size && start + k < |f| && f[start + k] == p
  {
    var i := IndexIn(f, |b|, p);
    InBig(b, f, c, 0, 256, i);
    k := i - start;
  }

  lemma DescribedStarts(b: seq<byte>, f: seq<nat>, q: seq<nat>, c: byte, start: nat, size: nat, shifts: nat)
    requires |q| == |b| == |f| && start + size <= |f|
    ensures Described(b, f, q, q, c, start, size, shifts, size)
  {
  }

  lemma BigSorted(b: seq<byte>, f: seq<nat>, flags: seq<bool>, c: byte)
    requires Buckets(b, f, flags) && forall x :: Small(c, 0) <= x < Small(c, 256) ==> flags[x]
    ensures 0 <= Start(b, Small(c, 0)) <= Start(b, Small(c, 256)) <= |b| == |f|
    ensures SortedPart(f, Ranks(b), Start(b, Small(c, 0)), Start(b, Small(c, 256)) - 1) && InBuckets(b, f)
  {
    hide Start, Ranks, SortedBucket, InBuckets, SortedPart;
    StartMonotone(b, Small(c, 0), Small(c, 256));
    BucketsSize(b, f);
    RangeSorted(b, f, Small(c, 0), Small(c, 256));
  }

  /** Sets a descriptor, and its copy behind the block. */
  method SetDescriptor(quadrant: array<nat>, nblock: nat, p: nat, qVal: nat, ghost q: seq<nat>)
    requires Repeated(quadrant, q) && nblock == |q| && p < nblock
    modifies quadrant
    ensures Repeated(quadrant, q[p := qVal])
  {
    quadrant[p] := qVal;
    if p < N_OVERSHOOT {
      quadrant[p + nblock] := qVal;
    }
  }

  /** Gives the positions of a big bucket their places as descriptors. */
  method DescribeBucket(ptr: array<nat>, quadrant: array<nat>, nblock: nat, bbStart: nat, bbSize: nat, shifts: nat,
          ss: byte, ghost b: seq<byte>, ghost q: seq<nat>)
    returns (ghost q': seq<nat>)
    requires ptr != quadrant && nblock == |b| == |q| <= ptr.Length && Repeated(quadrant, q)
    requires InBuckets(b, ptr[..nblock])
    requires bbStart == Start(b, Small(ss, 0)) && bbStart + bbSize == Start(b, Small(ss, 256)) <= |b|
    requires ShiftRight(bbSize, shifts) <= 65534
    modifies quadrant
    ensures Repeated(quadrant, q') && Described(b, ptr[..nblock], q, q', ss, bbStart, bbSize, shifts, 0)
  {
    hide Start, Small, ShiftRight, InBuckets, Described, Repeated;
    ghost var f := ptr[..nblock];
    q' := q;
    DescribedStarts(b, f, q, ss, bbStart, bbSize, shifts);
    var j := bbSize;
    while j > 0
      invariant ptr[..nblock] == f && Repeated(quadrant, q') && |q'| == nblock
      invariant 0 <= j <= bbSize && Described(b, f, q, q', ss, bbStart, bbSize, shifts, j)
    {
      j := j - 1;
      DescribeOne(b, f, q, q', ss, bbStart, bbSize, shifts, j + 1);
      ShiftMonotone(j, bbSize, shifts);
      var a2update := ptr[bbStart + j];
      var qVal := ShiftRight(j, shifts) % 0x1_0000;
      SetDescriptor(quadrant, nblock, a2update, qVal, q');
      q' := q'[a2update := qVal];
    }
  }

  /** Gives every position of a sorted big bucket its place as its descriptor. */
  method UpdateQuadrant(ptr: array<nat>, block: array<byte>, quadrant: array<nat>, ftab: array<nat>, nblock: nat,
          ss: byte, ghost b: seq<byte>, ghost q: seq<nat>, ghost flags: seq<bool>)
    returns (ghost q': seq<nat>)
    requires Setting(ptr, block, quadrant, nblock, b, q) && Progress(ptr, ftab, nblock, b, flags)
    requires ftab != quadrant && Separate(quadrant, block) && forall x :: Small(ss, 0) <= x < Small(ss, 256) ==>
      flags[x]
    modifies quadrant
    ensures Setting(ptr, block, quadrant, nblock, b, q')
  {
    BigSorted(b, ptr[..nblock], flags, ss);
    hide Start, Small, Ranks, ShiftRight, InBuckets, SortedFlags, Table, Describes, Described, Padded, Repeated,
         SortedPart;
    var bbStart := StartOf(ftab, Small(ss, 0), b, flags);
    var bbEnd := StartOf(ftab, Small(ss, 256), b, flags);
    var bbSize: nat := bbEnd - bbStart;
    var shifts := FindShift(bbSize);
    DescribesSize(b, q);
    q' := DescribeBucket(ptr, quadrant, nblock, bbStart, bbSize, shifts, ss, b, q);
    DescribedTells(b, ptr[..nblock], q, q', ss, bbStart, bbSize, shifts);
  }

  lemma DescribesSize(b: seq<byte>, q: seq<nat>)
    requires Describes(b, q)
    ensures |q| == |b|
  {
  }

  // ----- the sort

  /** The small buckets that are marked are those of a big bucket that is done with, by
      their first byte or by their second. */
  ghost predicate Marked(flags: seq<bool>, done: seq<bool>) {
    && |flags| == PAIRS && |done| == 256
    && forall x :: 0 <= x < PAIRS ==> flags[x] == (IsDone(done, x / 256) || IsDone(done, x % 256))
  }

  lemma RowDone(b: seq<byte>, f: seq<nat>, flags0: seq<bool>, flags: seq<bool>, done: seq<bool>, c: byte)
    requires Marked(flags0, done) && RowMarked(flags0, flags, c, 256) && Buckets(b, f, flags)
    ensures RowSorted(b, f, flags, c) && forall x :: 0 <= x < PAIRS && IsDone(done, x / 256) ==> flags[x]
  {
    hide Buckets, IsDone;
  }

  lemma BigMarked(flags0: seq<bool>, flags1: seq<bool>, flags: seq<bool>, done: seq<bool>, c: byte)
    requires Marked(flags0, done) && RowMarked(flags0, flags1, c, 256) && ColumnMarked(flags1, flags, c, 256)
    ensures Marked(flags, done[c as int := true]) && forall x :: Small(c, 0) <= x < Small(c, 256) ==> flags[x]
  {
    var done' := done[c as int := true];
    forall x | 0 <= x < PAIRS ensures flags[x] == (IsDone(done', x / 256) || IsDone(done', x % 256)) {
      assert x == Small(x / 256, x % 256);
    }
    forall x | Small(c, 0) <= x < Small(c, 256) ensures flags[x] {
      assert x / 256 == c;
    }
  }

  /** Deals with one big bucket: its small buckets are sorted, those that it is the second
      byte of are filled, and its positions get descriptors. */
  method DoBig(ptr: array<nat>, block: array<byte>, quadrant: array<nat>, ftab: array<nat>, bigDone: array<bool>,
               copyStart: array<int>, copyEnd: array<int>, nblock: nat, ss: byte, last: bool, budget: int,
               ghost b: seq<byte>, ghost q: seq<nat>, ghost flags0: seq<bool>)
    returns (left: int, ghost q': seq<nat>, ghost flags: seq<bool>)
    requires SortArrays(ptr, block, quadrant, ftab, bigDone, copyStart, copyEnd, nblock) && budget >= 0
    requires Setting(ptr, block, quadrant, nblock, b, q) && Progress(ptr, ftab, nblock, b, flags0)
    requires block[..nblock] == b
    requires Marked(flags0, bigDone[..]) && !bigDone[ss] && b != []
    modifies ptr, quadrant, ftab, bigDone, copyStart, copyEnd
    ensures left >= 0 ==> Setting(ptr, block, quadrant, nblock, b, q') && Progress(ptr, ftab, nblock, b, flags)
    ensures left >= 0 ==> bigDone[..] == old(bigDone[..])[ss as int := true] && Marked(flags, bigDone[..])
    ensures left != budget ==> LongRepeat(b)
  {
    hide LongRepeat, Setting, Table, Buckets, RowMarked, ColumnMarked, RowSorted, Start, Marked;
    ghost var done, flags1 := bigDone[..], flags0;
    q', flags := q, flags0;
    left, flags1 := SortBig(ptr, block, quadrant, ftab, nblock, ss, budget, b, q, flags0);
    if left < 0 {
      return;
    }
    assert !bigDone[ss];
    RowDone(b, ptr[..nblock], flags0, flags1, done, ss);
    flags := ScanBig(ptr, block, quadrant, ftab, bigDone, copyStart, copyEnd, nblock, ss, b, flags1);
    BigMarked(flags0, flags1, flags, done, ss);
    bigDone[ss] := true;
    assert bigDone[..] == done[ss as int := true];
    if !last {
      q' := UpdateQuadrant(ptr, block, quadrant, ftab, nblock, ss, b, q, flags);
    }
  }

  /** The first `i` big buckets of the running order are done with. */
  ghost predicate DoneUpTo(ro: seq<nat>, done: seq<bool>, i: int) {
    && Permutation(ro, 256) && |done| == 256
    && forall k :: 0 <= k < 256 ==> done[ro[k]] == (k < i)
  }

  lemma DoneNext(ro: seq<nat>, done: seq<bool>, i: nat)
    requires DoneUpTo(ro, done, i) && i < 256
    ensures ro[i] < 256 && !done[ro[i]] && DoneUpTo(ro, done[ro[i] := true], i + 1)
  {
  }

  lemma DoneAll(ro: seq<nat>, done: seq<bool>, flags: seq<bool>)
    requires DoneUpTo(ro, done, 256) && Marked(flags, done)
    ensures forall x :: 0 <= x < PAIRS ==> flags[x]
  {
    forall x | 0 <= x < PAIRS ensures flags[x] {
      var k := IndexIn(ro, 256, x / 256);
      assert done[ro[k]];
    }
  }

  lemma NothingDone(ro: seq<nat>, done: seq<bool>, flags: seq<bool>)
    requires Permutation(ro, 256) && |done| == 256 && forall c :: 0 <= c < 256 ==> !done[c]
    requires |flags| == PAIRS && forall x :: 0 <= x < PAIRS ==> !flags[x]
    ensures DoneUpTo(ro, done, 0) && Marked(flags, done)
  {
  }

  /** The radix sort and the order of the big buckets. */
  method Prepare(ptr: array<nat>, block: array<byte>, quadrant: array<nat>, ftab: array<nat>, runningOrder: array<nat>,
                 bigDone: array<bool>, nblock: nat, ghost b: seq<byte>)
    returns (ghost flags: seq<bool>)
    requires N_OVERSHOOT < nblock <= MOST_SORTED && nblock <= ptr.Length
    requires nblock + N_OVERSHOOT <= block.Length && nblock + N_OVERSHOOT <= quadrant.Length && b == block[..nblock]
    requires ftab.Length == PAIRS + 1 && runningOrder.Length == 256 && bigDone.Length == 256
    requires ptr != quadrant && ptr != ftab && ftab != quadrant && Separate(block, ptr) && Separate(block, quadrant)
    requires Separate(block, ftab) && runningOrder != ptr && runningOrder != ftab && runningOrder != quadrant
    requires Separate(runningOrder, block) && Separate(bigDone, runningOrder) && Separate(bigDone, ptr)
    requires Separate(bigDone, ftab) && Separate(bigDone, quadrant) && Separate(bigDone, block)
    modifies ptr, block, quadrant, ftab, runningOrder, bigDone
    ensures block[..nblock] == b && Setting(ptr, block, quadrant, nblock, b, seq(nblock, p => 0))
    ensures Progress(ptr, ftab, nblock, b, flags) && DoneUpTo(runningOrder[..], bigDone[..], 0)
    ensures Marked(flags, bigDone[..])
  {
    hide Start, InBuckets, Known, SoFar, Permutation, SortedPart, BigSizes;
    CountPairs(block, quadrant, ftab, nblock, b);
    Overshoot(block, quadrant, nblock, b);
    ghost var q := seq(nblock, p => 0);
    SumPairs(ftab, nblock, b);
    assert Known(block, quadrant, b, q);
    PlacePairs(ptr, block, ftab, nblock, b);
    StartAll(b);
    MakeRunningOrder(runningOrder, ftab, b);
    ghost var ro := runningOrder[..256];
    assert runningOrder[..] == ro;
    for i := 0 to 256
      modifies bigDone
      invariant runningOrder[..] == ro && forall c :: 0 <= c < i ==> !bigDone[c]
    {
      bigDone[i] := false;
    }
    flags := seq(PAIRS, x => false);
    assert runningOrder[..] == ro;
    NothingDone(ro, bigDone[..], flags);
  }

  /** Sorts the rotations of the block, unless more than `budget` units of work are
      needed; then the rotations are left in some order. A block in which no two rotations
      begin with the same 20 bytes costs nothing. */
  method Sort(ptr: array<nat>, block: array<byte>, quadrant: array<nat>, nblock: nat, budget: nat) returns (left: int)
    requires N_OVERSHOOT < nblock <= MOST_SORTED && nblock <= ptr.Length
    requires nblock + N_OVERSHOOT <= block.Length && nblock + N_OVERSHOOT <= quadrant.Length
    requires ptr != quadrant && Separate(block, ptr) && Separate(block, quadrant)
    modifies ptr, block, quadrant
    ensures block[..nblock] == old(block[..nblock])
    ensures left >= 0 ==> SortedRotations(block[..nblock], ptr[..nblock])
    ensures left != budget ==> LongRepeat(block[..nblock])
  {
    ghost var b, q := block[..nblock], seq(nblock, p => 0);
    var ftab, runningOrder, bigDone := new nat[PAIRS + 1], new nat[256], new bool[256];
    var copyStart, copyEnd := new int[256], new int[256];
    hide Setting, Progress, DoneUpTo, Marked, LongRepeat;
    ghost var flags := Prepare(ptr, block, quadrant, ftab, runningOrder, bigDone, nblock, b);
    left := budget;
    for i := 0 to 256
      invariant left >= 0 && block[..nblock] == b && Setting(ptr, block, quadrant, nblock, b, q)
      invariant Progress(ptr, ftab, nblock, b, flags)
      invariant DoneUpTo(runningOrder[..], bigDone[..], i) && Marked(flags, bigDone[..])
      invariant left != budget ==> LongRepeat(b)
    {
      DoneNext(runningOrder[..], bigDone[..], i);
      var ss := runningOrder[i];
      left, q, flags := DoBig(ptr, block, quadrant, ftab, bigDone, copyStart, copyEnd, nblock, ss, i == 255, left, b, q,
        flags);
      if left < 0 {
        return;
      }
    }
    DoneAll(runningOrder[..], bigDone[..], flags);
    ProgressSorted(ptr, ftab, nblock, b, flags);
  }

  lemma ProgressSorted(ptr: array<nat>, ftab: array<nat>, nblock: nat, b: seq<byte>, flags: seq<bool>)
    requires Progress(ptr, ftab, nblock, b, flags) && |flags| == PAIRS && forall x :: 0 <= x < PAIRS ==> flags[x]
    ensures nblock <= ptr.Length && SortedRotations(b, ptr[..nblock])
  {
    AllSorted(b, ptr[..nblock], flags);
  }
}
