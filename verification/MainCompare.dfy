/** Comparing two rotations, with the help of what is known of the order so far,
    for a limited amount of work. */
module MainCompare {
  import opened Bits
  import opened Wrappers
  import opened Rotations
  import opened RotationRanks

  const N_RADIX := 2
  const N_QSORT := 12
  const N_SHELL := 18
  const N_OVERSHOOT := N_RADIX + N_QSORT + N_SHELL + 2

  /** A place in the block or in the area behind it, where the block begins again. */
  function Wrap(n: nat, i: int): int {
    if i < n then i else i - n
  }

  /** The first bytes of the block are repeated behind it. */
  ghost predicate Padded(block: array<byte>, b: seq<byte>)
    reads block
  {
    && N_OVERSHOOT < |b| && |b| + N_OVERSHOOT <= block.Length
    && forall i :: 0 <= i < |b| + N_OVERSHOOT ==> block[i] == b[Wrap(|b|, i)]
  }

  ghost predicate Repeated(quadrant: array<nat>, q: seq<nat>)
    reads quadrant
  {
    && N_OVERSHOOT < |q| && |q| + N_OVERSHOOT <= quadrant.Length
    && forall i :: 0 <= i < |q| + N_OVERSHOOT ==> quadrant[i] == q[Wrap(|q|, i)]
  }

  /** Where two positions hold the same byte and differ in their descriptors, the
      descriptors tell the order of the rotations. */
  ghost predicate Describes(b: seq<byte>, q: seq<nat>) {
    |q| == |b| && forall i, j :: 0 <= i < |b| && 0 <= j < |b| && b[i] == b[j] && q[i] < q[j] ==>
      Ranks(b)[i] <= Ranks(b)[j]
  }

  /** The arrays hold the block and descriptors of it. */
  ghost predicate Known(block: array<byte>, quadrant: array<nat>, b: seq<byte>, q: seq<nat>)
    reads block, quadrant
  {
    Padded(block, b) && Repeated(quadrant, q) && Describes(b, q)
  }

  /** The pointers to be sorted are apart from what is known. */
  ghost predicate Setting(ptr: array<nat>, block: array<byte>, quadrant: array<nat>, nblock: nat, b: seq<byte>,
          q: seq<nat>)
    reads block, quadrant
  {
    nblock == |b| <= ptr.Length && Known(block, quadrant, b, q) && Separate(ptr, block) && ptr != quadrant
  }

  /** One unit of work; the counter is a 32-bit integer. */
  function Spend(budget: int): int {
    if budget == -0x8000_0000 then 0x7fff_ffff else budget - 1
  }

  /** The number of equal bytes that a comparison sees before it is charged for. */
  const FREE_BYTES := 20

  /** Two of the entries point to rotations that begin with the same bytes, so many that
      comparing them is charged for. */
  ghost predicate Repetitive(b: seq<byte>, entries: multiset<nat>) {
    exists p: nat, q: nat :: Agree(b, p, q, FREE_BYTES) && (p != q || entries[p] > 1)
  }

  /** Two different rotations of the block begin with the same bytes. */
  ghost predicate LongRepeat(b: seq<byte>) {
    exists p: nat, q: nat :: p != q && Agree(b, p, q, FREE_BYTES)
  }

  lemma RepeatFound(b: seq<byte>, f: seq<nat>, i: nat, j: nat)
    requires i < j < |f| && Agree(b, f[i], f[j], FREE_BYTES)
    ensures Repetitive(b, multiset(f))
  {
    hide Agree;
    if f[i] == f[j] {
      assert f == f[..j] + [f[j]] + f[j + 1..];
      assert f[..j][i] == f[i] && f[i] in multiset(f[..j]);
    }
  }

  // ----- walking along two rotations

  /** After `m` equal bytes the rotations that start at `o1` and `o2` have been
      followed to places `i1` and `i2`. */
  ghost predicate Followed(b: seq<byte>, o1: nat, o2: nat, m: nat, i1: nat, i2: nat) {
    && i1 < 2 * |b| && i2 < 2 * |b| && Agree(b, o1, o2, m)
    && Wrap(|b|, i1) == Ahead(|b|, o1, m) && Wrap(|b|, i2) == Ahead(|b|, o2, m)
  }

  lemma FollowOn(b: seq<byte>, o1: nat, o2: nat, m: nat, i1: nat, i2: nat)
    requires Followed(b, o1, o2, m, i1, i2) && i1 + 1 < 2 * |b| && i2 + 1 < 2 * |b|
    requires b[Wrap(|b|, i1)] == b[Wrap(|b|, i2)]
    ensures Followed(b, o1, o2, m + 1, i1 + 1, i2 + 1)
  {
    AgreeOn(b, o1, o2, m);
    AheadNext(|b|, o1, m);
    AheadNext(|b|, o2, m);
    hide Cyclic, Ahead;
  }

  lemma {:induction false} AheadNext(n: nat, i: nat, h: nat)
    requires i < n
    ensures Ahead(n, i, h + 1) == Next(n, Ahead(n, i, h))
    decreases h
  {
    if h > 0 { AheadNext(n, Next(n, i), h - 1); }
  }

  /** The answer `gt` fits the order of the two rotations. */
  ghost predicate Fits(b: seq<byte>, gt: bool, o1: nat, o2: nat)
  {
    o1 < |b| && o2 < |b| && if gt then Ranks(b)[o1] >= Ranks(b)[o2] else Ranks(b)[o1] <= Ranks(b)[o2]
  }

  lemma BytesTell(b: seq<byte>, o1: nat, o2: nat, m: nat, i1: nat, i2: nat)
    requires Followed(b, o1, o2, m, i1, i2) && b[Wrap(|b|, i1)] != b[Wrap(|b|, i2)]
    ensures Fits(b, b[Wrap(|b|, i1)] > b[Wrap(|b|, i2)], o1, o2)
  {
    hide Ranks;
    RankAgree(b, o1, o2, m);
    RankAgree(b, o2, o1, m);
    if b[Wrap(|b|, i1)] < b[Wrap(|b|, i2)] {
      RankByte(b, Wrap(|b|, i1), Wrap(|b|, i2));
    } else {
      RankByte(b, Wrap(|b|, i2), Wrap(|b|, i1));
    }
  }

  lemma DescriptorsTell(b: seq<byte>, q: seq<nat>, o1: nat, o2: nat, m: nat, i1: nat, i2: nat)
    requires Followed(b, o1, o2, m, i1, i2) && b[Wrap(|b|, i1)] == b[Wrap(|b|, i2)]
    requires Describes(b, q) && q[Wrap(|b|, i1)] != q[Wrap(|b|, i2)]
    ensures Fits(b, q[Wrap(|b|, i1)] > q[Wrap(|b|, i2)], o1, o2)
  {
    hide Ranks;
    RankAgree(b, o1, o2, m);
    RankAgree(b, o2, o1, m);
  }

  lemma RotationsSame(b: seq<byte>, o1: nat, o2: nat, m: nat, i1: nat, i2: nat)
    requires Followed(b, o1, o2, m, i1, i2) && m >= |b|
    ensures Fits(b, false, o1, o2)
  {
    AgreeSame(b, o1, o2, m);
  }

  /** Where two rotations that agree on `d` bytes are compared. */
  lemma StartFollowing(b: seq<byte>, o1: nat, o2: nat, d: nat)
    requires Agree(b, o1, o2, d) && d < |b|
    ensures Followed(b, o1, o2, d, o1 + d, o2 + d)
  {
    AheadIs(|b|, o1, d);
    AheadIs(|b|, o2, d);
  }

  // ----- the comparison

  lemma PaddedAt(block: array<byte>, b: seq<byte>, i: nat)
    requires Padded(block, b) && i < |b| + N_OVERSHOOT
    ensures i < block.Length && block[i] == b[Wrap(|b|, i)]
  {
  }

  lemma RepeatedAt(quadrant: array<nat>, q: seq<nat>, i: nat)
    requires Repeated(quadrant, q) && i < |q| + N_OVERSHOOT
    ensures i < quadrant.Length && quadrant[i] == q[Wrap(|q|, i)]
  {
  }

  /** Compares one byte of both rotations. */
  method CompareByte(i1: nat, i2: nat, block: array<byte>, ghost b: seq<byte>, ghost o1: nat, ghost o2: nat,
          ghost m: nat)
    returns (differ: bool, gt: bool)
    requires Padded(block, b) && Followed(b, o1, o2, m, i1, i2) && i1 < |b| + N_OVERSHOOT && i2 < |b| + N_OVERSHOOT
    ensures differ ==> Fits(b, gt, o1, o2)
    ensures !differ ==> b[Wrap(|b|, i1)] == b[Wrap(|b|, i2)] && Followed(b, o1, o2, m + 1, i1 + 1, i2 + 1)
  {
    PaddedAt(block, b, i1);
    PaddedAt(block, b, i2);
    hide Followed, Fits, Padded;
    var c1, c2 := block[i1], block[i2];
    if c1 != c2 {
      BytesTell(b, o1, o2, m, i1, i2);
      return true, c1 > c2;
    }
    FollowOn(b, o1, o2, m, i1, i2);
    differ, gt := false, false;
  }

  /** Compares one byte of both rotations, and if it is equal the descriptors. */
  method CompareBoth(i1: nat, i2: nat, block: array<byte>, quadrant: array<nat>, ghost b: seq<byte>, ghost q: seq<nat>,
                     ghost o1: nat, ghost o2: nat, ghost m: nat)
    returns (differ: bool, gt: bool)
    requires Known(block, quadrant, b, q) && |q| == |b|
    requires Followed(b, o1, o2, m, i1, i2) && i1 < |b| + N_OVERSHOOT && i2 < |b| + N_OVERSHOOT
    ensures differ ==> Fits(b, gt, o1, o2)
    ensures !differ ==> Followed(b, o1, o2, m + 1, i1 + 1, i2 + 1)
  {
    RepeatedAt(quadrant, q, i1);
    RepeatedAt(quadrant, q, i2);
    hide Followed, Fits, Padded, Repeated, Describes;
    differ, gt := CompareByte(i1, i2, block, b, o1, o2, m);
    if differ {
      return;
    }
    var s1, s2 := quadrant[i1], quadrant[i2];
    if s1 != s2 {
      DescriptorsTell(b, q, o1, o2, m, i1, i2);
      return true, s1 > s2;
    }
  }

  lemma KnownSize(block: array<byte>, quadrant: array<nat>, b: seq<byte>, q: seq<nat>)
    requires Known(block, quadrant, b, q)
    ensures |q| == |b| > N_OVERSHOOT && Padded(block, b)
  {
  }

  /** Compares twelve bytes. */
  method TwelveFirst(j1: nat, j2: nat, block: array<byte>, nblock: nat, ghost b: seq<byte>, ghost o1: nat,
          ghost o2: nat, ghost d: nat)
    returns (differ: bool, gt: bool)
    requires nblock == |b| && Padded(block, b)
    requires Followed(b, o1, o2, d, j1, j2) && j1 < nblock + N_RADIX + N_QSORT + 1
    requires j2 < nblock + N_RADIX + N_QSORT + 1
    ensures differ ==> Fits(b, gt, o1, o2)
    ensures !differ ==> Followed(b, o1, o2, d + 12, j1 + 12, j2 + 12)
  {
    hide Followed, Fits, Padded;
    var i1: nat, i2: nat := j1, j2;
    for k := 0 to 12
      invariant i1 == j1 + k && i2 == j2 + k && Followed(b, o1, o2, d + k, i1, i2)
    {
      differ, gt := CompareByte(i1, i2, block, b, o1, o2, d + k);
      if differ {
        return;
      }
      i1, i2 := i1 + 1, i2 + 1;
    }
    differ, gt := false, false;
  }

  /** Compares the rotations that start at `o1` and `o2` from their places `j1` and `j2`
      on. The answer can only be yes if the first rotation is greater or equal, and
      only be no if it is less or equal. Work is only charged for when the rotations begin
      with the same bytes. */
  method GreaterThan(j1: nat, j2: nat, block: array<byte>, quadrant: array<nat>, nblock: nat, budget: int,
                     ghost b: seq<byte>, ghost q: seq<nat>, ghost o1: nat, ghost o2: nat, ghost d: nat)
    returns (gt: bool, left: int)
    requires nblock == |b| && Known(block, quadrant, b, q)
    requires Followed(b, o1, o2, d, j1, j2) && j1 < nblock + N_RADIX + N_QSORT + 1
    requires j2 < nblock + N_RADIX + N_QSORT + 1
    ensures Fits(b, gt, o1, o2)
    ensures left != budget ==> Agree(b, o1, o2, d + FREE_BYTES)
  {
    hide Followed, Fits, Known, Padded, Agree;
    KnownSize(block, quadrant, b, q);
    left := budget;
    var i1: nat, i2: nat := j1, j2;
    var differ;
    differ, gt := TwelveFirst(i1, i2, block, nblock, b, o1, o2, d);
    if differ {
      return;
    }
    i1, i2 := i1 + 12, i2 + 12;
    var k: int := nblock + 8;
    ghost var m := d + 12;
    while k >= 0
      invariant -8 <= k && m == d + 12 + (nblock + 8 - k) && i1 < nblock + 27 && i2 < nblock + 27
      invariant Followed(b, o1, o2, m, i1, i2) && (left != budget ==> Agree(b, o1, o2, d + FREE_BYTES))
    {
      differ, gt := EightMore(i1, i2, block, quadrant, nblock, b, q, o1, o2, m);
      if differ {
        return;
      }
      i1, i2, m := i1 + 8, i2 + 8, m + 8;
      WrapBoth(b, o1, o2, m, i1, i2);
      if i1 >= nblock {
        i1 := i1 - nblock;
      }
      if i2 >= nblock {
        i2 := i2 - nblock;
      }
      k := k - 8;
      FollowedAgree(b, o1, o2, m, i1, i2, d + FREE_BYTES);
      left := Spend(left);
    }
    RotationsSame(b, o1, o2, m, i1, i2);
    gt := false;
  }

  lemma FollowedAgree(b: seq<byte>, o1: nat, o2: nat, m: nat, i1: nat, i2: nat, k: nat)
    requires Followed(b, o1, o2, m, i1, i2) && k <= m
    ensures Agree(b, o1, o2, k)
  {
    AgreeLess(b, o1, o2, m, k);
  }

  lemma WrapBoth(b: seq<byte>, o1: nat, o2: nat, m: nat, i1: nat, i2: nat)
    requires Followed(b, o1, o2, m, i1, i2)
    ensures Followed(b, o1, o2, m, Wrap(|b|, i1), Wrap(|b|, i2))
  {
  }

  /** Compares eight bytes, and the descriptors of those that are equal. */
  method EightMore(j1: nat, j2: nat, block: array<byte>, quadrant: array<nat>, nblock: nat,
                   ghost b: seq<byte>, ghost q: seq<nat>, ghost o1: nat, ghost o2: nat, ghost m: nat)
    returns (differ: bool, gt: bool)
    requires nblock == |b| && Known(block, quadrant, b, q)
    requires Followed(b, o1, o2, m, j1, j2) && j1 < nblock + 27 && j2 < nblock + 27
    ensures differ ==> Fits(b, gt, o1, o2)
    ensures !differ ==> Followed(b, o1, o2, m + 8, j1 + 8, j2 + 8)
  {
    hide Followed, Fits, Known;
    KnownSize(block, quadrant, b, q);
    var i1: nat, i2: nat := j1, j2;
    for k := 0 to 8
      invariant i1 == j1 + k && i2 == j2 + k && Followed(b, o1, o2, m + k, i1, i2)
    {
      differ, gt := CompareBoth(i1, i2, block, quadrant, b, q, o1, o2, m + k);
      if differ {
        return;
      }
      i1, i2 := i1 + 1, i2 + 1;
    }
    differ, gt := false, false;
  }
}
