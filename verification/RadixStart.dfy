/** The start of the fallback sort: positions sorted by their first byte, with the
    last position of each byte first, and flags where the byte changes. */
module RadixStart {
  import opened Bits
  import opened Wrappers
  import opened CountingSort
  import opened ByteCounts
  import opened Permutations
  import opened Rotations
  import opened BucketFlags
  import opened PrefixOrder

  // ----- where the positions go

  /** Where position `i` goes: the later of two equal bytes comes first. */
  function Slot(b: seq<byte>, i: nat): int
    requires i < |b|
  {
    var c: int := b[i];
    Lower(b, c + 1) - 1 - Equal(b, i, c)
  }

  /** The place of `k` when the order of its bucket is turned around. */
  function Mirror(b: seq<byte>, k: nat): int
    requires k < |b|
  {
    var c: int := b[Follow(b, k)];
    Lower(b, c) + Lower(b, c + 1) - 1 - k
  }

  lemma MirrorInside(b: seq<byte>, k: nat)
    requires k < |b|
    ensures 0 <= Mirror(b, k) < |b| && b[Follow(b, Mirror(b, k))] == b[Follow(b, k)] && Mirror(b, Mirror(b, k)) == k
  {
    var c: nat := b[Follow(b, k)];
    RowInRange(b, k);
    LowerRange(b, c);
    LowerRange(b, c + 1);
    FirstByte(b, Mirror(b, k), c);
  }

  /** The position that goes to place `k`. */
  function Owner(b: seq<byte>, k: int): (i: int)
    ensures 0 <= k < |b| ==> 0 <= i < |b|
  {
    if 0 <= k < |b| then
      MirrorInside(b, k);
      Follow(b, Mirror(b, k))
    else -1
  }

  lemma SlotOfOwner(b: seq<byte>, k: nat)
    requires k < |b|
    ensures Slot(b, Owner(b, k)) == k && b[Owner(b, k)] == b[Follow(b, k)]
  {
    MirrorInside(b, k);
    var p := Mirror(b, k);
    PositionFollow(b, p);
    NextRow(b, Follow(b, p));
    hide Follow, Lower, Equal, Position;
  }

  lemma OwnerOfSlot(b: seq<byte>, i: nat)
    requires i < |b|
    ensures 0 <= Slot(b, i) < |b| && Owner(b, Slot(b, i)) == i
  {
    var c: nat, k := b[i], Slot(b, i);
    NextRow(b, i);
    SlotInBucket(b, i);
    LowerRange(b, c);
    LowerRange(b, c + 1);
    FirstByte(b, k, c);
    hide Lower, Equal, Position;
  }

  lemma SlotInBucket(b: seq<byte>, i: nat)
    requires i < |b|
    ensures var c: int := b[i]; Lower(b, c) <= Slot(b, i) < Lower(b, c + 1)
  {
    var c: nat := b[i];
    LowerNext(b, c);
    SelectRank(b, i);
  }

  // ----- the flags

  /** A bucket of some byte begins at `x`. */
  ghost predicate StartsAt(b: seq<byte>, x: int, n: int) {
    exists c :: 0 <= c < n && Lower(b, c) == x
  }

  lemma StartIff(b: seq<byte>, x: nat)
    requires 0 < x < |b|
    ensures StartsAt(b, x, 256) <==> b[Follow(b, x - 1)] != b[Follow(b, x)]
  {
    hide Lower, StartsAt;
    RowInRange(b, x - 1);
    RowInRange(b, x);
    RowsOrdered(b, x - 1);
    StartBetween(b, x, b[Follow(b, x - 1)], b[Follow(b, x)]);
  }

  lemma StartBetween(b: seq<byte>, x: int, c0: nat, c1: nat)
    requires c0 <= c1 < 256 && Lower(b, c0) <= x - 1 < Lower(b, c0 + 1) && Lower(b, c1) <= x < Lower(b, c1 + 1)
    ensures StartsAt(b, x, 256) <==> c0 != c1
  {
    hide Lower;
    if c0 < c1 {
      LowerMonotone(b, c0 + 1, c1);
      assert 0 <= c1 < 256 && Lower(b, c1) == x;
    }
    if StartsAt(b, x, 256) {
      var c: nat :| c < 256 && Lower(b, c) == x;
      if c <= c0 { LowerMonotone(b, c, c0); }
      if c > c1 { LowerMonotone(b, c1 + 1, c); }
    }
  }

  ghost predicate Placed(b: seq<byte>, f: seq<nat>) {
    |f| == |b| && forall k :: 0 <= k < |b| ==> f[k] == Owner(b, k)
  }

  ghost predicate StartFlags(b: seq<byte>, h: seq<bool>) {
    forall x :: 0 <= x < |b| ==> (Flag(h, x) <==> StartsAt(b, x, 256))
  }

  lemma PlacedText(b: seq<byte>, f: seq<nat>, k: nat)
    requires Placed(b, f) && k < |b|
    ensures Text(b, f, k, 1) == [b[Follow(b, k)]]
  {
    SlotOfOwner(b, k);
    assert Cyclic(b, f[k], 1) == [b[f[k]]] + Cyclic(b, Next(|b|, f[k]), 0);
  }

  lemma PlacedPermutation(b: seq<byte>, f: seq<nat>)
    requires Placed(b, f)
    ensures Permutation(f, |b|)
  {
    forall i, j | 0 <= i < j < |f| ensures f[i] != f[j] {
      SlotOfOwner(b, i);
      SlotOfOwner(b, j);
    }
  }

  lemma PlacedSorted(b: seq<byte>, f: seq<nat>)
    requires Placed(b, f)
    ensures TextSorted(b, f, 1)
  {
    OrderPermutation(b);
    forall i, j | 0 <= i < j < |b| ensures Leq(Text(b, f, i, 1), Text(b, f, j, 1)) {
      PlacedText(b, f, i);
      PlacedText(b, f, j);
    }
  }

  /** The radix sort refines by one byte. */
  lemma RadixRefined(b: seq<byte>, f: seq<nat>, h: seq<bool>)
    requires b != [] && Placed(b, f) && StartFlags(b, h) && Fenced(h, |b|)
    ensures Refined(b, f, h, 1)
  {
    PlacedPermutation(b, f);
    PlacedSorted(b, f);
    forall i | 0 < i < |b| ensures HeadAt(b, f, h, i, 1) {
      RadixHead(b, f, h, i);
    }
    FirstStart(b, h);
  }

  lemma RadixHead(b: seq<byte>, f: seq<nat>, h: seq<bool>, i: nat)
    requires Placed(b, f) && StartFlags(b, h) && 0 < i < |b|
    ensures HeadAt(b, f, h, i, 1)
  {
    hide Text, StartsAt;
    PlacedText(b, f, i - 1);
    PlacedText(b, f, i);
    StartIff(b, i);
    assert Flag(h, i) <==> StartsAt(b, i, 256);
  }

  lemma FirstStart(b: seq<byte>, h: seq<bool>)
    requires b != [] && StartFlags(b, h)
    ensures Flag(h, 0)
  {
    LowerNext(b, 0);
    assert Lower(b, 0) == 0;
    assert Flag(h, 0) <==> StartsAt(b, 0, 256);
  }

  // ----- the methods

  /** Counts the bytes. */
  method CountBytes(eclass8: array<byte>, ftab: array<int>, ftabCopy: array<int>, nblock: nat, ghost b: seq<byte>)
    requires nblock <= eclass8.Length && b == eclass8[..nblock] && ftab.Length == 257
    requires ftabCopy.Length == 256 && ftab != ftabCopy
    modifies ftab, ftabCopy
    ensures forall c :: 0 <= c < 256 ==> ftabCopy[c] == Equal(b, nblock, c)
    ensures forall c :: 0 <= c < 256 ==> ftab[c] == Lower(b, c + 1)
    ensures ftab[256] == nblock
  {
    SelectNone(b);
    hide Lower, Equal;
    for i := 0 to 257
      invariant forall c :: 0 <= c < i ==> ftab[c] == 0
    {
      ftab[i] := 0;
    }
    for i := 0 to nblock
      invariant forall c :: 0 <= c < 256 ==> ftab[c] == Equal(b, i, c)
      invariant ftab[256] == 0
    {
      NextRow(b, i);
      ftab[eclass8[i]] := ftab[eclass8[i]] + 1;
    }
    for i := 0 to 256
      modifies ftabCopy
      invariant forall c :: 0 <= c < i ==> ftabCopy[c] == Equal(b, nblock, c)
    {
      ftabCopy[i] := ftab[i];
    }
    LowerNext(b, 0);
    SumStarts(ftab, nblock, b);
    LowerAll(b);
  }

  method SumStarts(ftab: array<int>, nblock: nat, ghost b: seq<byte>)
    requires ftab.Length == 257 && nblock == |b|
    requires forall c :: 0 <= c < 257 ==> ftab[c] == CountOf(b, c)
    modifies ftab
    ensures forall c :: 0 <= c < 257 ==> ftab[c] == SumTo(b, c)
  {
    SumStep(b, 0);
    hide Lower, Equal, CountOf, SumTo;
    for i := 1 to 257
      invariant Summed(ftab, b, i)
    {
      SumStep(b, i);
      SumOne(ftab, b, i);
    }
  }

  ghost predicate Summed(ftab: array<int>, b: seq<byte>, i: int)
    reads ftab
  {
    ftab.Length == 257 && forall c :: 0 <= c < 257 ==> ftab[c] == if c < i then SumTo(b, c) else CountOf(b, c)
  }

  method SumOne(ftab: array<int>, ghost b: seq<byte>, i: nat)
    requires 1 <= i < 257 && Summed(ftab, b, i) && CountOf(b, i) + SumTo(b, i - 1) == SumTo(b, i)
    modifies ftab
    ensures Summed(ftab, b, i + 1)
  {
    hide SumTo, CountOf;
    ftab[i] := ftab[i] + ftab[i - 1];
  }

  /** How often `c` occurs; 256 is no byte. */
  function CountOf(b: seq<byte>, c: int): int {
    if c < 256 then Equal(b, |b|, c) else 0
  }

  function SumTo(b: seq<byte>, c: int): int {
    Lower(b, if c < 256 then c + 1 else 256)
  }

  lemma SumStep(b: seq<byte>, i: nat)
    requires i <= 256
    ensures i > 0 ==> CountOf(b, i) + SumTo(b, i - 1) == SumTo(b, i)
    ensures CountOf(b, 0) == SumTo(b, 0)
  {
    LowerNext(b, i);
    LowerNext(b, 0);
  }

  /** Places the positions; afterwards `ftab` has the start of each bucket. */
  method PlaceBytes(fmap: array<nat>, eclass8: array<byte>, ftab: array<int>, nblock: nat, ghost b: seq<byte>)
    requires nblock <= eclass8.Length && b == eclass8[..nblock] && ftab.Length == 257
    requires nblock <= fmap.Length && Separate(fmap, ftab) && Separate(fmap, eclass8) && Separate(ftab, eclass8)
    requires forall c :: 0 <= c < 256 ==> ftab[c] == Lower(b, c + 1)
    modifies fmap, ftab
    ensures Placed(b, fmap[..nblock])
    ensures forall c :: 0 <= c < 256 ==> ftab[c] == Lower(b, c)
  {
    SelectNone(b);
    hide Lower, Equal, Owner, Slot;
    for i := 0 to nblock
      invariant eclass8[..nblock] == b
      invariant forall c :: 0 <= c < 256 ==> ftab[c] == Lower(b, c + 1) - Equal(b, i, c)
      invariant forall k :: 0 <= k < nblock && Owner(b, k) < i ==> fmap[k] == Owner(b, k)
    {
      PlaceNext(b, i);
      var j := eclass8[i];
      var k := ftab[j] - 1;
      ftab[j] := k;
      fmap[k] := i;
    }
    forall c | 0 <= c < 256 ensures ftab[c] == Lower(b, c) {
      LowerNext(b, c);
    }
    forall k | 0 <= k < nblock ensures fmap[k] == Owner(b, k) {
      OwnerRange(b, k);
    }
  }

  lemma OwnerRange(b: seq<byte>, k: nat)
    requires k < |b|
    ensures 0 <= Owner(b, k) < |b|
  {
  }

  lemma PlaceNext(b: seq<byte>, i: nat)
    requires i < |b|
    ensures var k := Slot(b, i);
      && 0 <= k < |b| && k == Lower(b, b[i] as int + 1) - Equal(b, i, b[i]) - 1 && Owner(b, k) == i
      && forall q :: 0 <= q < |b| && Owner(b, q) == i ==> q == k
    ensures forall c :: 0 <= c < 256 ==> Equal(b, i + 1, c) == Equal(b, i, c) + (if c == b[i] then 1 else 0)
  {
    OwnerOfSlot(b, i);
    NextRow(b, i);
    forall q | 0 <= q < |b| && Owner(b, q) == i ensures q == Slot(b, i) {
      SlotOfOwner(b, q);
    }
  }

  /** Flags the first entry of each bucket, and the sentinels after the last entry.
      The table need not be clear beyond its first `nBhtab` words. */
  method FlagBuckets(bhtab: array<bv32>, ftab: array<int>, nblock: nat, ghost b: seq<byte>) returns (ghost h: seq<bool>)
    requires nblock == |b| && nblock + 64 <= 32 * bhtab.Length && ftab.Length >= 256 && Separate(bhtab, ftab)
    requires forall c :: 0 <= c < 256 ==> ftab[c] == Lower(b, c)
    modifies bhtab
    ensures Marks(bhtab, h) && Fenced(h, nblock) && StartFlags(b, h)
  {
    hide Lower, BitSet;
    h := ClearTable(bhtab, nblock);
    hide Marks;
    for i := 0 to 256
      invariant Marks(bhtab, h) && |h| == nblock + 64
      invariant forall x :: 0 <= x < nblock ==> (Flag(h, x) <==> StartsAt(b, x, i))
    {
      LowerRange(b, i);
      SetBH(bhtab, ftab[i], h);
      StartsMore(b, i);
      ghost var g := h;
      h := h[ftab[i] := true];
      forall x | 0 <= x < nblock ensures Flag(h, x) <==> StartsAt(b, x, i + 1) {
        assert Flag(h, x) <==> Flag(g, x) || x == Lower(b, i);
      }
    }
    ghost var h0 := h;
    for i := 0 to 32
      invariant Marks(bhtab, h) && |h| == nblock + 64
      invariant forall x :: 0 <= x < nblock ==> h[x] == h0[x]
      invariant forall x {:trigger h[x]} :: nblock <= x < nblock + 2 * i ==> (h[x] <==> (x - nblock) % 2 == 0)
    {
      SetBH(bhtab, nblock + 2 * i, h);
      h := h[nblock + 2 * i := true];
      ClearBH(bhtab, nblock + 2 * i + 1, h);
      h := h[nblock + 2 * i + 1 := false];
    }
    forall x | 0 <= x < nblock ensures Flag(h, x) <==> StartsAt(b, x, 256) {
      assert Flag(h, x) == Flag(h0, x);
    }
  }

  lemma StartsMore(b: seq<byte>, i: nat)
    ensures forall x :: StartsAt(b, x, i + 1) <==> StartsAt(b, x, i) || x == Lower(b, i)
  {
    forall x ensures StartsAt(b, x, i + 1) <==> StartsAt(b, x, i) || x == Lower(b, i) {
      if x == Lower(b, i) { assert 0 <= i < i + 1 && Lower(b, i) == x; }
      if StartsAt(b, x, i) {
        var c :| 0 <= c < i && Lower(b, c) == x;
        assert 0 <= c < i + 1 && Lower(b, c) == x;
      }
    }
  }

  method ClearTable(bhtab: array<bv32>, nblock: nat) returns (ghost h: seq<bool>)
    requires nblock + 64 <= 32 * bhtab.Length
    modifies bhtab
    ensures Marks(bhtab, h) && |h| == nblock + 64 && forall x :: 0 <= x < nblock ==> !h[x]
  {
    hide BitSet;
    var nBhtab := 2 + nblock / 32;
    for i := 0 to nBhtab
      invariant forall w :: 0 <= w < i ==> bhtab[w] == 0
    {
      bhtab[i] := 0;
    }
    h := seq(nblock + 64, k requires 0 <= k < nblock + 64 reads bhtab => BitSet(bhtab[k / 32], k % 32));
    forall x | 0 <= x < nblock ensures !h[x] {
      WholeWord(bhtab[x / 32], x % 32);
    }
  }
}
