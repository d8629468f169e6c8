/** The start of the main sort: positions sorted by their first two bytes into small
    buckets, one for each pair of bytes. */
module PairBuckets {
  import opened Bits
  import opened Wrappers
  import opened CountingSort
  import opened Permutations
  import opened Rotations
  import opened QuickSort
  import opened MainCompare

  const PAIRS := 65536

  /** The small bucket of a position. */
  function Pair(b: seq<byte>, p: nat): (x: nat)
    requires p < |b|
    ensures x < PAIRS
  {
    var c: int := b[p];
    256 * c + b[Next(|b|, p)]
  }

  function Pairs(b: seq<byte>): (s: seq<nat>)
    ensures |s| == |b|
  {
    seq(|b|, p requires 0 <= p < |b| => Pair(b, p))
  }

  /** How many positions are in the buckets before `x`. */
  function Start(b: seq<byte>, x: int): int {
    if x < 0 then 0 else |ByKey(Pairs(b), x)|
  }

  /** How many positions before `i` are in bucket `x`. */
  function SoFar(b: seq<byte>, i: int, x: int): int {
    if 0 <= i <= |b| && x >= 0 then |Select(Pairs(b), i, x)| else 0
  }

  lemma StartNext(b: seq<byte>, x: nat)
    ensures Start(b, x + 1) == Start(b, x) + SoFar(b, |b|, x) && Start(b, 0) == 0 && SoFar(b, |b|, x) >= 0
  {
  }

  lemma StartMonotone(b: seq<byte>, x: nat, y: nat)
    requires x <= y
    ensures 0 <= Start(b, x) <= Start(b, y) <= |b|
  {
    ByKeyPrefix(Pairs(b), x, y);
    ByKeySize(Pairs(b), y);
  }

  lemma StartAll(b: seq<byte>)
    ensures Start(b, PAIRS) == |b|
  {
    AllBelow(Pairs(b), |b|, PAIRS);
    ByKeySize(Pairs(b), PAIRS);
  }

  lemma SoFarNone(b: seq<byte>)
    ensures forall x :: SoFar(b, 0, x) == 0
  {
  }

  lemma SoFarNext(b: seq<byte>, i: nat)
    requires i < |b|
    ensures forall x :: 0 <= x < PAIRS ==> SoFar(b, i + 1, x) == SoFar(b, i, x) + (if x == Pair(b, i) then 1 else 0)
    ensures Start(b, Pair(b, i)) + SoFar(b, i, Pair(b, i)) == Position(Pairs(b), i)
  {
  }

  // ----- positions in their buckets

  ghost predicate InBucket(b: seq<byte>, f: seq<nat>, k: int) {
    0 <= k < |f| && f[k] < |b| && Start(b, Pair(b, f[k])) <= k < Start(b, Pair(b, f[k]) + 1)
  }

  /** Every position is in its bucket. */
  ghost predicate InBuckets(b: seq<byte>, f: seq<nat>) {
    Permutation(f, |b|) && forall k :: 0 <= k < |b| ==> InBucket(b, f, k)
  }

  /** What is between the start of one bucket and that of another is in the buckets
      between them. */
  lemma BucketsBetween(b: seq<byte>, f: seq<nat>, x: nat, y: nat, k: nat)
    requires InBuckets(b, f) && k < |b|
    ensures Start(b, x) <= k < Start(b, y) <==> x <= Pair(b, f[k]) < y
  {
    var z := Pair(b, f[k]);
    assert InBucket(b, f, k);
    hide Start, Pair;
    if z < x { StartMonotone(b, z + 1, x); }
    if x <= z { StartMonotone(b, x, z); }
    if z < y { StartMonotone(b, z + 1, y); }
    if y <= z { StartMonotone(b, y, z); }
  }

  ghost predicate PlacedPairs(b: seq<byte>, f: seq<nat>, i: int) {
    |f| == |b| && forall p :: i <= p < |b| && 0 <= p ==> Position(Pairs(b), p) < |b| && f[Position(Pairs(b), p)] == p
  }

  lemma PlaceAt(b: seq<byte>, i: nat)
    requires i < |b|
    ensures Position(Pairs(b), i) < |b|
    ensures forall p :: 0 <= p < |b| && p != i ==> Position(Pairs(b), p) != Position(Pairs(b), i)
  {
    var keys := Pairs(b);
    StartAll(b);
    ByKeyPosition(keys, PAIRS, i);
    forall p | 0 <= p < |b| && p != i ensures Position(keys, p) != Position(keys, i) {
      ByKeyPosition(keys, PAIRS, p);
    }
  }

  lemma PlaceOnePair(b: seq<byte>, f: seq<nat>, i: nat)
    requires i < |b| && PlacedPairs(b, f, i + 1)
    ensures Position(Pairs(b), i) < |f| && PlacedPairs(b, f[Position(Pairs(b), i) := i], i)
  {
    PlaceAt(b, i);
    hide Position, Pairs;
  }

  lemma PairsPlaced(b: seq<byte>, f: seq<nat>)
    requires PlacedPairs(b, f, 0)
    ensures InBuckets(b, f)
  {
    var keys := Pairs(b);
    StartAll(b);
    forall k | 0 <= k < |b| ensures f[k] == ByKey(keys, PAIRS)[k] && f[k] < |b| && Position(keys, f[k]) == k {
      ByKeyAt(keys, PAIRS, k);
    }
    forall k | 0 <= k < |b| ensures InBucket(b, f, k) {
      SelectRank(keys, f[k]);
      StartNext(b, Pair(b, f[k]));
    }
  }

  // ----- the methods

  /** The pair of byte `c` and the first byte of the pair `j`. */
  function PairBefore(j: nat, c: byte): nat {
    Or(ShiftLeft(c, 8), j / 256)
  }

  lemma PairBeforeIs(b: seq<byte>, i: nat, j: nat)
    requires i < |b| && j < PAIRS && j / 256 == b[Next(|b|, i)]
    ensures PairBefore(j, b[i]) == Pair(b, i) && Pair(b, i) / 256 == b[i]
  {
    Pow2Values();
    OrDisjoint(b[i], j / 256, 8);
    ShiftLeft8(b[i]);
  }

  /** Counts the positions of every bucket, and clears the descriptors. */
  method CountPairs(block: array<byte>, quadrant: array<nat>, ftab: array<nat>, nblock: nat, ghost b: seq<byte>)
    requires 1 <= nblock == |b| <= block.Length && nblock <= quadrant.Length && b == block[..nblock]
    requires ftab.Length == PAIRS + 1
    requires quadrant != ftab && Separate(block, quadrant) && Separate(block, ftab)
    modifies quadrant, ftab
    ensures forall x :: 0 <= x < PAIRS ==> ftab[x] == SoFar(b, nblock, x)
    ensures ftab[PAIRS] == 0 && forall p :: 0 <= p < nblock ==> quadrant[p] == 0
  {
    hide SoFar, Pair, PairBefore, Start;
    for i := 0 to PAIRS + 1
      invariant forall x :: 0 <= x < i ==> ftab[x] == 0
    {
      ftab[i] := 0;
    }
    ShiftLeft8(block[0]);
    var j := ShiftLeft(block[0], 8);
    var i: nat := nblock;
    while i > 0
      invariant 0 <= i <= nblock && block[..nblock] == b && j < PAIRS && j / 256 == b[if i == nblock then 0 else i]
      invariant forall x :: 0 <= x < PAIRS ==> ftab[x] + SoFar(b, i, x) == SoFar(b, nblock, x)
      invariant ftab[PAIRS] == 0 && forall p :: i <= p < nblock ==> quadrant[p] == 0
    {
      i := i - 1;
      quadrant[i] := 0;
      PairBeforeIs(b, i, j);
      SoFarNext(b, i);
      j := PairBefore(j, block[i]);
      ftab[j] := ftab[j] + 1;
    }
    SoFarNone(b);
  }

  /** Repeats the first bytes behind the block. */
  method Overshoot(block: array<byte>, quadrant: array<nat>, nblock: nat, ghost b: seq<byte>)
    requires N_OVERSHOOT < nblock == |b| && nblock + N_OVERSHOOT <= block.Length
    requires nblock + N_OVERSHOOT <= quadrant.Length
    requires b == block[..nblock] && Separate(block, quadrant) && forall p :: 0 <= p < nblock ==> quadrant[p] == 0
    modifies block, quadrant
    ensures Known(block, quadrant, b, seq(nblock, p => 0)) && block[..nblock] == b
  {
    for i := 0 to N_OVERSHOOT
      invariant block[..nblock] == b && forall k :: 0 <= k < i ==> block[nblock + k] == b[k]
      invariant forall p :: 0 <= p < nblock + i ==> quadrant[p] == 0
    {
      block[nblock + i] := block[i];
      quadrant[nblock + i] := 0;
    }
    forall i | 0 <= i < nblock + N_OVERSHOOT ensures block[i] == b[Wrap(nblock, i)] {
      if i >= nblock { assert block[nblock + (i - nblock)] == b[i - nblock]; }
    }
  }

  /** Adds the counts up. */
  method SumPairs(ftab: array<nat>, nblock: nat, ghost b: seq<byte>)
    requires nblock == |b| && ftab.Length == PAIRS + 1 && ftab[PAIRS] == 0
    requires forall x :: 0 <= x < PAIRS ==> ftab[x] == SoFar(b, nblock, x)
    modifies ftab
    ensures forall x :: 0 <= x < PAIRS ==> ftab[x] == Start(b, x + 1)
    ensures ftab[PAIRS] == nblock
  {
    StartNext(b, 0);
    hide SoFar, Start;
    for i := 1 to PAIRS
      invariant forall x :: 0 <= x < i ==> ftab[x] == Start(b, x + 1)
      invariant forall x :: i <= x < PAIRS ==> ftab[x] == SoFar(b, nblock, x)
      invariant ftab[PAIRS] == 0
    {
      StartNext(b, i);
      ftab[i] := ftab[i] + ftab[i - 1];
    }
    StartAll(b);
    assert ftab[PAIRS - 1] == Start(b, PAIRS - 1 + 1);
    ftab[PAIRS] := ftab[PAIRS] + ftab[PAIRS - 1];
  }

  /** Places the positions; afterwards `ftab` has the start of each bucket. */
  method PlacePairs(ptr: array<nat>, block: array<byte>, ftab: array<nat>, nblock: nat, ghost b: seq<byte>)
    requires 1 <= nblock == |b| <= block.Length && nblock <= ptr.Length && b == block[..nblock]
    requires ftab.Length == PAIRS + 1
    requires ptr != ftab && Separate(block, ptr) && Separate(block, ftab)
    requires ftab[PAIRS] == nblock && forall x :: 0 <= x < PAIRS ==> ftab[x] == Start(b, x + 1)
    modifies ptr, ftab
    ensures InBuckets(b, ptr[..nblock])
    ensures ftab[PAIRS] == nblock && forall x :: 0 <= x < PAIRS ==> ftab[x] == Start(b, x)
  {
    hide SoFar, Pair, PairBefore, Start, PlacedPairs, InBuckets, Position;
    forall x | 0 <= x < PAIRS ensures ftab[x] == Start(b, x) + SoFar(b, nblock, x) {
      StartNext(b, x);
    }
    ShiftLeft8(block[0]);
    var s := ShiftLeft(block[0], 8);
    var i: nat := nblock;
    NothingPlaced(b, ptr[..nblock]);
    while i > 0
      invariant 0 <= i <= nblock && block[..nblock] == b && s < PAIRS && s / 256 == b[if i == nblock then 0 else i]
      invariant ftab[PAIRS] == nblock && forall x :: 0 <= x < PAIRS ==> ftab[x] == Start(b, x) + SoFar(b, i, x)
      invariant PlacedPairs(b, ptr[..nblock], i)
    {
      i := i - 1;
      PairBeforeIs(b, i, s);
      SoFarNext(b, i);
      PlaceOnePair(b, ptr[..nblock], i);
      ghost var f := ptr[..nblock];
      s := PairBefore(s, block[i]);
      var j := ftab[s] - 1;
      ftab[s] := j;
      ptr[j] := i;
      assert ptr[..nblock] == f[j := i];
    }
    SoFarNone(b);
    PairsPlaced(b, ptr[..nblock]);
  }

  lemma NothingPlaced(b: seq<byte>, f: seq<nat>)
    requires |f| == |b|
    ensures PlacedPairs(b, f, |b|)
  {
  }
}
