/** The fallback sort: it sorts the rotations of a block in place by prefixes of
    doubling length. */
module FallbackSort {
  import opened Bits
  import opened Wrappers
  import opened CountingSort
  import opened ByteCounts
  import opened Permutations
  import opened Rotations
  import opened BucketFlags
  import opened QuickSort
  import opened PrefixOrder
  import opened RadixStart

  // ----- one pass

  lemma BackDistinct(n: nat, p: nat, q: nat, H: nat)
    requires p < n && q < n && H <= n && p != q
    ensures Back(n, p, H) != Back(n, q, H)
  {
  }

  /** The first `i` entries have given out their classes. */
  ghost predicate Given(n: nat, f: seq<nat>, h: seq<bool>, e: seq<nat>, H: nat, i: nat) {
    && H <= n <= |e| && |f| == n && Permutation(f, n)
    && forall q :: 0 <= q < i && q < n ==> e[Back(n, f[q], H)] == Head(h, q)
  }

  lemma GiveOne(n: nat, f: seq<nat>, h: seq<bool>, e: seq<nat>, H: nat, i: nat, j: nat)
    requires Given(n, f, h, e, H, i) && i < n && Head(h, i) == j
    ensures Given(n, f, h, e[Back(n, f[i], H) := j], H, i + 1)
  {
    var k := Back(n, f[i], H);
    forall q | 0 <= q < i ensures Back(n, f[q], H) != k {
      BackDistinct(n, f[q], f[i], H);
    }
  }

  lemma HeadStep(b: seq<byte>, f: seq<nat>, h: seq<bool>, H: nat, i: nat)
    requires Refined(b, f, h, H) && i < |b|
    ensures Head(h, i) == if h[i] then i else Head(h, i - 1)
    ensures 0 <= Head(h, i)
  {
    HeadRange(h, i);
  }

  /** Gives each position the bucket of the rotation `H` ahead as its class. */
  method Classify(fmap: array<nat>, eclass: array<nat>, bhtab: array<bv32>, nblock: nat, H: nat, ghost b: seq<byte>,
                  ghost h: seq<bool>)
    requires fmap != eclass && Separate(eclass, bhtab)
    requires nblock == |b| <= fmap.Length && nblock <= eclass.Length && H <= nblock
    requires Refined(b, fmap[..nblock], h, H) && Marks(bhtab, h)
    modifies eclass
    ensures Classified(b, fmap[..nblock], h, eclass[..], H)
  {
    hide BitSet, TextSorted, HeadAt, Head;
    ghost var f := fmap[..nblock];
    var j := 0;
    for i := 0 to nblock
      invariant i > 0 ==> j == Head(h, i - 1)
      invariant fmap[..nblock] == f && Given(nblock, f, h, eclass[..], H, i)
    {
      HeadStep(b, f, h, H, i);
      if BitSet(bhtab[i / 32], i % 32) {
        j := i;
      }
      var k: int := fmap[i] - H;
      if k < 0 {
        k := k + nblock;
      }
      ghost var e := eclass[..];
      GiveOne(nblock, f, h, e, H, i, j);
      eclass[k] := j;
      assert eclass[..] == e[k := j];
    }
  }

  /** Flags every entry of a bucket whose class differs from the one before. */
  method MarkChanges(fmap: array<nat>, eclass: array<nat>, bhtab: array<bv32>, nblock: nat, l: nat, r: nat,
          ghost h: seq<bool>)
    returns (ghost h1: seq<bool>)
    requires fmap != eclass && Separate(fmap, bhtab) && Separate(eclass, bhtab)
    requires l <= r < nblock <= fmap.Length && Entries(fmap[..nblock], eclass[..])
    requires Marks(bhtab, h) && r < |h|
    modifies bhtab
    ensures Marks(bhtab, h1) && |h1| == |h| && Flag(h1, l)
    ensures forall i :: !(l <= i <= r) ==> Flag(h1, i) == Flag(h, i)
    ensures forall i :: l < i <= r ==> ChangeAt(fmap[..nblock], eclass[..], h, h1, i)
  {
    hide Marks;
    ghost var f, e := fmap[..nblock], eclass[..];
    h1 := h;
    var cc: int := -1;
    for i := l to r + 1
      invariant Marks(bhtab, h1) && |h1| == |h| && (i > l ==> cc == Key(f, e, i - 1) && Flag(h1, l))
      invariant i == l ==> cc == -1
      invariant forall k :: !(l <= k < i) ==> Flag(h1, k) == Flag(h, k)
      invariant forall k :: l < k < i ==> ChangeAt(f, e, h, h1, k)
    {
      var cc1 := eclass[fmap[i]];
      assert cc1 == Key(f, e, i);
      ghost var g := h1;
      if cc != cc1 {
        SetBH(bhtab, i, h1);
        h1 := h1[i := true];
        cc := cc1;
      }
      forall k | l < k <= i ensures ChangeAt(f, e, h, h1, k) {
        assert k < i ==> ChangeAt(f, e, h, g, k);
      }
    }
  }

  /** Sorts one bucket by class and flags the new buckets in it. */
  method SortBucket(fmap: array<nat>, eclass: array<nat>, bhtab: array<bv32>, nblock: nat, l: nat, r: nat,
          ghost h: seq<bool>)
    returns (ghost h1: seq<bool>)
    requires fmap != eclass && Separate(fmap, bhtab) && Separate(eclass, bhtab)
    requires l <= r < nblock <= fmap.Length && nblock <= MOST_SORTED && Entries(fmap[..nblock], eclass[..])
    requires Marks(bhtab, h) && r < |h|
    modifies fmap, bhtab
    ensures BucketSorted(old(fmap[..nblock]), h, eclass[..], fmap[..nblock], h1, l, r) && Marks(bhtab, h1)
  {
    hide Shuffled, SortedPart, Entries, Marks, Key;
    ghost var f, e := fmap[..nblock], eclass[..];
    QSort3(fmap, nblock, eclass, l, r);
    EntriesShuffled(f, fmap[..nblock], e, l, r);
    h1 := MarkChanges(fmap, eclass, bhtab, nblock, l, r, h);
  }

  /** Refines all buckets. When there was nothing to refine, `nNotDone` is 0. */
  method RefineBuckets(fmap: array<nat>, eclass: array<nat>, bhtab: array<bv32>, nblock: nat, ghost b: seq<byte>,
                       ghost h0: seq<bool>, ghost H: nat)
    returns (nNotDone: nat, ghost h: seq<bool>)
    requires fmap != eclass && Separate(fmap, bhtab) && Separate(eclass, bhtab)
    requires nblock == |b| <= fmap.Length && nblock <= MOST_SORTED
    requires Refined(b, fmap[..nblock], h0, H) && Entries(fmap[..nblock], eclass[..]) && Marks(bhtab, h0)
    modifies fmap, bhtab
    ensures Marks(bhtab, h) && Split2(b, old(fmap[..nblock]), h0, eclass[..], fmap[..nblock], h, H, nblock)
    ensures nNotDone == 0 ==> AllSet(h, 0, nblock)
  {
    ghost var f0, e := fmap[..nblock], eclass[..];
    SplitStarts(b, f0, h0, e, H);
    hide Marks, Entries, Refined;
    nNotDone, h := 0, h0;
    var r: int := -1;
    while true
      invariant -1 <= r < nblock && eclass[..] == e
      invariant Marks(bhtab, h) && Split2(b, f0, h0, e, fmap[..nblock], h, H, r + 1)
      invariant nNotDone == 0 ==> r == -1
      decreases nblock - r
    {
      ghost var f := fmap[..nblock];
      SplitFence(b, f0, h0, e, f, h, H, r + 1);
      var k := FindClear(bhtab, r + 1, nblock, h);
      StartsSet(h, r + 1, k);
      var l := k - 1;
      if l >= nblock {
        SplitEnds(b, f0, h0, e, f, h, H, r + 1);
        return;
      }
      k := FindSet(bhtab, k, nblock, h);
      ghost var m := r + 1;
      r := k - 1;
      assert NextBucket(h, m, l, r, nblock);
      nNotDone := nNotDone + (r - l + 1);
      ghost var h1 := SortBucket(fmap, eclass, bhtab, nblock, l, r, h);
      SplitStep(b, f0, h0, e, f, h, H, m, l, r, fmap[..nblock], h1);
      h := h1;
    }
  }

  lemma SplitFence(b: seq<byte>, f0: seq<nat>, h0: seq<bool>, e: seq<nat>, f: seq<nat>, h: seq<bool>, H: nat, m: nat)
    requires Split2(b, f0, h0, e, f, h, H, m)
    ensures Fenced(h, |b|) && Entries(f, e) && m <= |b| && h[m]
  {
    assert Flag(h, m) == Flag(h0, m);
  }

  lemma StartsSet(h: seq<bool>, m: nat, k: nat)
    requires m <= k < |h| && h[m] && !h[k] && AllSet(h, m, k)
    ensures m < k
  {
  }

  // ----- all passes

  /** Refines by doubling lengths until the rotations are told apart. */
  method RefineAll(fmap: array<nat>, eclass: array<nat>, bhtab: array<bv32>, nblock: nat, ghost b: seq<byte>,
                   ghost h0: seq<bool>)
    requires fmap != eclass && Separate(fmap, bhtab) && Separate(eclass, bhtab)
    requires nblock == |b| <= fmap.Length && nblock <= MOST_SORTED && nblock <= eclass.Length
    requires Refined(b, fmap[..nblock], h0, 1) && Marks(bhtab, h0)
    modifies fmap, eclass, bhtab
    ensures SortedRotations(b, fmap[..nblock])
  {
    ghost var h := h0;
    RefinedSome(b, fmap[..nblock], h, 1);
    hide Marks, Refined, SortedRotations, Classified, Classes, Split2, AllSet;
    var H := 1;
    while true
      invariant 1 <= H <= nblock && Refined(b, fmap[..nblock], h, H) && Marks(bhtab, h)
      decreases nblock - H
    {
      Classify(fmap, eclass, bhtab, nblock, H, b, h);
      ghost var f := fmap[..nblock];
      ClassesOrder(b, f, h, eclass[..], H);
      PermutationEntries(b, f, h, eclass[..], H);
      var nNotDone;
      ghost var h1;
      nNotDone, h1 := RefineBuckets(fmap, eclass, bhtab, nblock, b, h, H);
      RefinedTwice(b, f, h, eclass[..], fmap[..nblock], h1, H);
      h := h1;
      H := 2 * H;
      if H > nblock || nNotDone == 0 {
        RefinedEnough(b, fmap[..nblock], h, H);
        return;
      }
    }
  }

  lemma RefinedSome(b: seq<byte>, f: seq<nat>, h: seq<bool>, H: nat)
    requires Refined(b, f, h, H)
    ensures |b| >= 1
  {
  }

  lemma PermutationEntries(b: seq<byte>, f: seq<nat>, h: seq<bool>, e: seq<nat>, H: nat)
    requires Classified(b, f, h, e, H)
    ensures Entries(f, e)
  {
  }


  // ----- the block again

  function FirstByteOf(b: seq<byte>): nat -> seq<byte> {
    (i: nat) => if i < |b| then Cyclic(b, i, 1) else []
  }

  /** The sorted rotations begin with the sorted bytes. */
  lemma FirstColumn(b: seq<byte>, f: seq<nat>, i: nat)
    requires SortedRotations(b, f) && i < |b|
    ensures b[f[i]] == b[Follow(b, i)]
  {
    var g, o := FirstByteOf(b), Order(b);
    OrderPermutation(b);
    PermutationMultiset(f, o, |b|);
    ApplyMultiset(g, f, o);
    forall r, s | 0 <= r < s < |b| ensures Leq(Apply(g, f)[r], Apply(g, f)[s]) && Leq(Apply(g, o)[r], Apply(g, o)[s]) {
      PrefixLeq(b, f[r], f[s], 1, |b| - 1);
      OneByte(b, o[r]);
      OneByte(b, o[s]);
    }
    SortedUnique(Apply(g, f), Apply(g, o));
    assert Apply(g, f)[i] == Apply(g, o)[i];
    OneByte(b, f[i]);
    OneByte(b, o[i]);
  }

  lemma OneByte(b: seq<byte>, p: nat)
    requires p < |b|
    ensures Cyclic(b, p, 1) == [b[p]]
  {
    assert Cyclic(b, p, 1) == [b[p]] + Cyclic(b, Next(|b|, p), 0);
  }

  /** How many rows from row `i` on begin with byte `c`. */
  function RowsLeft(b: seq<byte>, i: nat, c: int): int {
    var start := if Lower(b, c) < i then i else Lower(b, c);
    if start < Lower(b, c + 1) then Lower(b, c + 1) - start else 0
  }

  lemma RowsLeftStep(b: seq<byte>, i: nat)
    requires i < |b|
    ensures var c0: int := b[Follow(b, i)];
      && RowsLeft(b, i, c0) > 0
      && forall c :: 0 <= c < 256 ==> RowsLeft(b, i + 1, c) == RowsLeft(b, i, c) - (if c == c0 then 1 else 0)
    ensures forall c :: 0 <= c < b[Follow(b, i)] ==> RowsLeft(b, i, c) == 0
  {
    var c0: nat := b[Follow(b, i)];
    RowInRange(b, i);
    hide Lower, Follow, RowsLeft;
    forall c: nat | c < 256
      ensures RowsLeft(b, i + 1, c) == RowsLeft(b, i, c) - (if c == c0 then 1 else 0)
      ensures (c < c0 ==> RowsLeft(b, i, c) == 0)
    {
      RowsLeftOf(b, i, c0, c);
    }
    RowsLeftOf(b, i, c0, c0);
  }

  lemma RowsLeftOf(b: seq<byte>, i: nat, c0: nat, c: nat)
    requires Lower(b, c0) <= i < Lower(b, c0 + 1)
    ensures RowsLeft(b, i + 1, c) == RowsLeft(b, i, c) - (if c == c0 then 1 else 0)
    ensures c < c0 ==> RowsLeft(b, i, c) == 0
    ensures c == c0 ==> RowsLeft(b, i, c) > 0
  {
    hide Lower;
    if c < c0 {
      LowerMonotone(b, c + 1, c0);
    } else if c > c0 {
      LowerMonotone(b, c0 + 1, c);
    }
  }

  lemma RowsLeftStart(b: seq<byte>, c: nat)
    ensures RowsLeft(b, 0, c) == Equal(b, |b|, c)
  {
    LowerNext(b, c);
    LowerRange(b, c);
  }

  /** The next byte that is left. */
  method NextByte(ftabCopy: array<int>, j0: nat, ghost c0: int) returns (j: nat)
    requires j0 <= c0 < ftabCopy.Length && ftabCopy[c0] != 0 && forall c :: 0 <= c < c0 ==> ftabCopy[c] == 0
    ensures j == c0
  {
    j := j0;
    while ftabCopy[j] == 0
      invariant j <= c0
      decreases c0 - j
    {
      j := j + 1;
    }
  }

  /** The state of the reconstruction before row `i`: the counts of the bytes that
      are left, and the bytes that have been written. */
  ghost predicate Rebuilding(b: seq<byte>, f: seq<nat>, counts: seq<int>, bytes: seq<byte>, i: nat) {
    && |counts| == 256 && |f| == |b| <= |bytes|
    && (forall c :: 0 <= c < 256 ==> counts[c] == RowsLeft(b, i, c))
    && (forall q :: 0 <= q < i && q < |f| ==> f[q] < |b| && bytes[f[q]] == b[f[q]])
  }

  lemma RebuildOne(b: seq<byte>, f: seq<nat>, counts: seq<int>, bytes: seq<byte>, i: nat)
    requires SortedRotations(b, f) && i < |b| && Rebuilding(b, f, counts, bytes, i)
    ensures var c0: int := b[Follow(b, i)];
      && counts[c0] > 0 && (forall c :: 0 <= c < c0 ==> counts[c] == 0)
      && Rebuilding(b, f, counts[c0 := counts[c0] - 1], bytes[f[i] := b[Follow(b, i)]], i + 1)
  {
    RowsLeftStep(b, i);
    FirstColumn(b, f, i);
    hide RowsLeft, Follow;
  }

  lemma RebuiltAll(b: seq<byte>, f: seq<nat>, counts: seq<int>, bytes: seq<byte>)
    requires SortedRotations(b, f) && Rebuilding(b, f, counts, bytes, |b|)
    ensures bytes[..|b|] == b
  {
    forall p | 0 <= p < |b| ensures bytes[p] == b[p] {
      var q := IndexIn(f, |b|, p);
    }
  }

  /** Writes the block again from the sorted rotations and the byte counts,
      whatever `eclass8` holds. */
  method Reconstruct(fmap: array<nat>, ftabCopy: array<int>, eclass8: array<byte>, nblock: nat, ghost b: seq<byte>)
    requires nblock == |b| <= fmap.Length && nblock <= eclass8.Length && ftabCopy.Length == 256
    requires Separate(fmap, ftabCopy) && Separate(fmap, eclass8) && Separate(ftabCopy, eclass8)
    requires SortedRotations(b, fmap[..nblock])
    requires forall c :: 0 <= c < 256 ==> ftabCopy[c] == Equal(b, nblock, c)
    modifies ftabCopy, eclass8
    ensures eclass8[..nblock] == b
  {
    ghost var f := fmap[..nblock];
    forall c | 0 <= c < 256 ensures ftabCopy[c] == RowsLeft(b, 0, c) { RowsLeftStart(b, c); }
    hide Lower, Equal, RowsLeft, Leq;
    var j := 0;
    for i := 0 to nblock
      invariant fmap[..nblock] == f && 0 <= j < 256 && (i < nblock ==> j <= b[Follow(b, i)])
      invariant Rebuilding(b, f, ftabCopy[..], eclass8[..], i)
    {
      ghost var counts, bytes := ftabCopy[..], eclass8[..];
      RebuildOne(b, f, counts, bytes, i);
      j := NextByte(ftabCopy, j, b[Follow(b, i)]);
      ftabCopy[j] := ftabCopy[j] - 1;
      eclass8[fmap[i]] := j;
      assert ftabCopy[..] == counts[j := counts[j] - 1] && eclass8[..] == bytes[f[i] := b[Follow(b, i)]];
      if i + 1 < nblock { RowsOrdered(b, i); }
    }
    RebuiltAll(b, f, ftabCopy[..], eclass8[..]);
  }

  /** Sorts the rotations of the block in `eclass8`; the block itself is the same
      afterwards. */
  method Sort(fmap: array<nat>, eclass: array<nat>, bhtab: array<bv32>, eclass8: array<byte>, nblock: nat)
    requires fmap != eclass && Separate(fmap, bhtab) && Separate(eclass, bhtab) && Separate(eclass8, bhtab)
    requires Separate(eclass8, eclass)
    requires Separate(fmap, eclass8)
    requires 1 <= nblock <= fmap.Length && nblock <= eclass.Length && nblock <= eclass8.Length && nblock <= MOST_SORTED
    requires nblock + 64 <= 32 * bhtab.Length
    modifies fmap, eclass, bhtab, eclass8
    ensures eclass8[..nblock] == old(eclass8[..nblock])
    ensures SortedRotations(old(eclass8[..nblock]), fmap[..nblock])
  {
    hide Lower, Equal, Marks, Refined, SortedRotations, Placed, StartFlags;
    ghost var b := eclass8[..nblock];
    var ftab, ftabCopy := new int[257], new int[256];
    CountBytes(eclass8, ftab, ftabCopy, nblock, b);
    PlaceBytes(fmap, eclass8, ftab, nblock, b);
    ghost var h := FlagBuckets(bhtab, ftab, nblock, b);
    RadixRefined(b, fmap[..nblock], h);
    RefineAll(fmap, eclass, bhtab, nblock, b, h);
    Reconstruct(fmap, ftabCopy, eclass8, nblock, b);
  }
}
