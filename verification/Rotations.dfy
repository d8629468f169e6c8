/** The rotations of a block and their order; the last column of the sorted
    rotations determines the block, also when rotations are equal. */
module Rotations {
  import opened Bits
  import opened CountingSort
  import opened Permutations

  // ----- the order of strings

  predicate Leq(a: seq<byte>, b: seq<byte>)
    decreases |a|
  {
    a == [] || (b != [] && (a[0] < b[0] || (a[0] == b[0] && Leq(a[1..], b[1..]))))
  }

  lemma {:induction false} LeqReflexive(a: seq<byte>)
    ensures Leq(a, a)
    decreases |a|
  {
    if a != [] { LeqReflexive(a[1..]); }
  }

  lemma {:induction false} LeqTotal(a: seq<byte>, b: seq<byte>)
    ensures Leq(a, b) || Leq(b, a)
    decreases |a|
  {
    if a != [] && b != [] { LeqTotal(a[1..], b[1..]); }
  }

  lemma {:induction false} LeqAntisymmetric(a: seq<byte>, b: seq<byte>)
    requires Leq(a, b) && Leq(b, a)
    ensures a == b
    decreases |a|
  {
    if a != [] && b != [] { LeqAntisymmetric(a[1..], b[1..]); }
  }

  lemma {:induction false} LeqTransitive(a: seq<byte>, b: seq<byte>, c: seq<byte>)
    requires Leq(a, b) && Leq(b, c)
    ensures Leq(a, c)
    decreases |a|
  {
    if a != [] && a[0] == b[0] && b[0] == c[0] { LeqTransitive(a[1..], b[1..], c[1..]); }
  }

  /** Strings with first parts of the same length. */
  lemma {:induction false} LeqConcat(a: seq<byte>, a': seq<byte>, b: seq<byte>, b': seq<byte>)
    requires |a| == |a'|
    ensures Leq(a + b, a' + b') <==> Leq(a, a') && (a == a' ==> Leq(b, b'))
    decreases |a|
  {
    if a == [] {
      assert a + b == b && a' + b' == b';
    } else {
      assert (a + b)[1..] == a[1..] + b && (a' + b')[1..] == a'[1..] + b';
      LeqConcat(a[1..], a'[1..], b, b');
      assert a == a' <==> a[0] == a'[0] && a[1..] == a'[1..] by {
        assert a == [a[0]] + a[1..] && a' == [a'[0]] + a'[1..];
      }
    }
  }

  ghost predicate Sorted(s: seq<seq<byte>>) {
    forall i, j :: 0 <= i < j < |s| ==> Leq(s[i], s[j])
  }

  /** There is only one way to sort. */
  lemma {:induction false} SortedUnique(s: seq<seq<byte>>, t: seq<seq<byte>>)
    requires Sorted(s) && Sorted(t) && multiset(s) == multiset(t)
    ensures s == t
  {
    assert |multiset(s)| == |s| && |multiset(t)| == |t|;
    if s != [] {
      assert s[0] in multiset(t) && t[0] in multiset(s);
      FirstIsLeast(s, t[0]);
      FirstIsLeast(t, s[0]);
      hide Leq;
      LeqAntisymmetric(s[0], t[0]);
      WithoutFirst(s);
      WithoutFirst(t);
      SortedTail(s);
      SortedTail(t);
      SortedUnique(s[1..], t[1..]);
    }
  }

  lemma SortedTail(s: seq<seq<byte>>)
    requires Sorted(s) && s != []
    ensures Sorted(s[1..])
  {
  }

  lemma FirstIsLeast(s: seq<seq<byte>>, x: seq<byte>)
    requires Sorted(s) && x in s
    ensures Leq(s[0], x)
  {
    LeqReflexive(x);
  }

  // ----- rotations

  function Next(n: nat, i: nat): (r: nat)
    requires i < n
    ensures r < n
  {
    if i + 1 == n then 0 else i + 1
  }

  function Previous(n: nat, i: nat): (r: nat)
    requires i < n
    ensures r < n && Next(n, r) == i
  {
    if i == 0 then n - 1 else i - 1
  }

  function Ahead(n: nat, i: nat, h: nat): (r: nat)
    requires i < n
    ensures r < n
    decreases h
  {
    if h == 0 then i else Ahead(n, Next(n, i), h - 1)
  }

  /** The `h` bytes from position `i` on, around the end as often as needed. */
  function Cyclic(b: seq<byte>, i: nat, h: nat): (s: seq<byte>)
    requires i < |b|
    ensures |s| == h
    decreases h
  {
    if h == 0 then [] else [b[i]] + Cyclic(b, Next(|b|, i), h - 1)
  }

  function Rotation(b: seq<byte>, i: nat): (s: seq<byte>)
    requires i < |b|
    ensures |s| == |b|
  {
    Cyclic(b, i, |b|)
  }

  lemma {:induction false} CyclicSplit(b: seq<byte>, i: nat, h: nat, k: nat)
    requires i < |b|
    ensures Cyclic(b, i, h + k) == Cyclic(b, i, h) + Cyclic(b, Ahead(|b|, i, h), k)
    decreases h
  {
    if h > 0 { CyclicSplit(b, Next(|b|, i), h - 1, k); }
  }

  lemma {:induction false} AheadIs(n: nat, i: nat, h: nat)
    requires i < n && h <= n
    ensures Ahead(n, i, h) == if i + h < n then i + h else i + h - n
    decreases h
  {
    if h > 0 { AheadIs(n, Next(n, i), h - 1); }
  }

  lemma {:induction false} CyclicAt(b: seq<byte>, i: nat, h: nat, k: nat)
    requires i < |b| && k < h
    ensures Cyclic(b, i, h)[k] == b[Ahead(|b|, i, k)]
    decreases h
  {
    if k > 0 { CyclicAt(b, Next(|b|, i), h - 1, k - 1); }
  }

  lemma RotationNext(b: seq<byte>, i: nat)
    requires i < |b|
    ensures Rotation(b, Next(|b|, i)) == Rotation(b, i)[1..] + [Rotation(b, i)[0]]
    ensures Rotation(b, i)[0] == b[i]
  {
    var n := |b|;
    CyclicSplit(b, i, n, 1);
    AheadIs(n, i, n);
    assert Cyclic(b, i, n + 1) == [b[i]] + Cyclic(b, Next(n, i), n);
    assert Cyclic(b, i, 1) == [b[i]] + Cyclic(b, Next(n, i), 0);
    assert Cyclic(b, i, n + 1)[1..] == Cyclic(b, i, n)[1..] + [b[i]];
  }

  lemma RotationZero(b: seq<byte>)
    requires b != []
    ensures Rotation(b, 0) == b
  {
    forall k | 0 <= k < |b| ensures Rotation(b, 0)[k] == b[k] {
      CyclicAt(b, 0, |b|, k);
      AheadIs(|b|, 0, k);
    }
  }

  // ----- the sorted rotations

  ghost predicate Pointers(block: seq<byte>, ptr: seq<nat>) {
    |ptr| == |block| && forall i :: 0 <= i < |ptr| ==> ptr[i] < |block|
  }

  /** The byte before position `p` of the block, around the end. */
  function ByteBefore(block: seq<byte>, p: nat): byte
    requires p < |block|
  {
    block[Previous(|block|, p)]
  }

  /** The last column of the sorted rotations. */
  function LastColumn(block: seq<byte>, ptr: seq<nat>): (s: seq<byte>)
    requires Pointers(block, ptr)
    ensures |s| == |block|
  {
    seq(|block|, i requires 0 <= i < |block| => ByteBefore(block, ptr[i]))
  }

  /** The pointers of the rotations in order. */
  ghost predicate SortedRotations(b: seq<byte>, ptr: seq<nat>) {
    && Permutation(ptr, |b|)
    && forall r, s :: 0 <= r < s < |b| ==> Leq(Rotation(b, ptr[r]), Rotation(b, ptr[s]))
  }

  // ----- the inverse

  /** The rows of the table in the order of their last bytes; for equal bytes in
      the order of the rows. */
  function Order(col: seq<byte>): seq<nat> {
    ByKey(col, 256)
  }

  lemma OrderPermutation(col: seq<byte>)
    ensures Permutation(Order(col), |col|)
    ensures forall r, s :: 0 <= r < s < |col| ==>
      var o := Order(col);
      col[o[r]] < col[o[s]] || (col[o[r]] == col[o[s]] && o[r] < o[s])
  {
    var o := Order(col);
    AllBelow(col, |col|, 256);
    ByKeySize(col, 256);
    forall r | 0 <= r < |o| ensures o[r] < |col| && Position(col, o[r]) == r {
      ByKeyAt(col, 256, r);
    }
    forall r, s | 0 <= r < s < |col|
      ensures o[r] != o[s] && (col[o[r]] < col[o[s]] || (col[o[r]] == col[o[s]] && o[r] < o[s]))
    {
      PositionOrder(col, o[r], o[s]);
    }
  }

  lemma {:induction false} AllBelow(keys: seq<nat>, n: nat, key: nat)
    requires n <= |keys| && forall i :: 0 <= i < n ==> keys[i] < key
    ensures CountBelow(keys, n, key) == n
  {
    if n > 0 { AllBelow(keys, n - 1, key); }
  }

  /** The row whose rotation begins one position later than that of row `r`. */
  function Follow(col: seq<byte>, r: nat): (s: nat)
    requires r < |col|
    ensures s < |col|
  {
    OrderPermutation(col);
    Order(col)[r]
  }

  function Row(col: seq<byte>, orig: nat, k: nat): (r: nat)
    requires orig < |col|
    ensures r < |col|
  {
    if k == 0 then orig else Follow(col, Row(col, orig, k - 1))
  }

  /** The block whose last column is `col` and whose first row is `orig`. */
  function Unsorted(col: seq<byte>, orig: nat): (b: seq<byte>)
    requires orig < |col|
    ensures |b| == |col|
  {
    seq(|col|, k requires 0 <= k < |col| => col[Row(col, orig, k + 1)])
  }

  function RotationsOf(b: seq<byte>): nat -> seq<byte> {
    (i: nat) => if i < |b| then Rotation(b, i) else []
  }

  /** The start of the rotation that row `Follow(col, r)`, turned back by one
      position, stands for. */
  function TurnedBack(b: seq<byte>, ptr: seq<nat>, r: nat): (p: nat)
    requires Pointers(b, ptr) && r < |b|
    ensures p < |b|
  {
    Previous(|b|, ptr[Follow(LastColumn(b, ptr), r)])
  }

  lemma TurnedBackOrder(b: seq<byte>, ptr: seq<nat>, r: nat, s: nat)
    requires SortedRotations(b, ptr) && r < s < |b|
    ensures Leq(Rotation(b, TurnedBack(b, ptr, r)), Rotation(b, TurnedBack(b, ptr, s)))
    ensures TurnedBack(b, ptr, r) != TurnedBack(b, ptr, s)
  {
    var n, col := |b|, LastColumn(b, ptr);
    OrderPermutation(col);
    var i, j := Follow(col, r), Follow(col, s);
    var p, q := ptr[i], ptr[j];
    RotationBack(b, p);
    RotationBack(b, q);
    assert i != j && p != q;
    if col[i] == col[j] {
      CyclicSplit(b, p, n - 1, 1);
      CyclicSplit(b, q, n - 1, 1);
      LeqConcat(Cyclic(b, p, n - 1), Cyclic(b, q, n - 1),
                Cyclic(b, Ahead(n, p, n - 1), 1), Cyclic(b, Ahead(n, q, n - 1), 1));
    }
  }

  lemma RotationBack(b: seq<byte>, p: nat)
    requires p < |b|
    ensures Rotation(b, Previous(|b|, p)) == [ByteBefore(b, p)] + Cyclic(b, p, |b| - 1)
  {
  }

  /** Row by row, the rotations turned back are the sorted rotations. */
  lemma TurnedBackSame(b: seq<byte>, ptr: seq<nat>, r: nat)
    requires SortedRotations(b, ptr) && r < |b|
    ensures Rotation(b, TurnedBack(b, ptr, r)) == Rotation(b, ptr[r])
  {
    var n, g := |b|, RotationsOf(b);
    var q := seq(n, i requires 0 <= i < n => TurnedBack(b, ptr, i));
    forall i, j | 0 <= i < j < n ensures q[i] != q[j] && Leq(Rotation(b, q[i]), Rotation(b, q[j])) {
      TurnedBackOrder(b, ptr, i, j);
    }
    PermutationMultiset(ptr, q, n);
    ApplyMultiset(g, ptr, q);
    SortedUnique(Apply(g, ptr), Apply(g, q));
    assert Apply(g, ptr)[r] == Rotation(b, ptr[r]) && Apply(g, q)[r] == Rotation(b, q[r]);
  }

  /** Following the rows turns the rotation on by one position. */
  lemma FollowTurns(b: seq<byte>, ptr: seq<nat>, r: nat, k: nat)
    requires SortedRotations(b, ptr) && r < |b| && k < |b| && Rotation(b, ptr[r]) == Rotation(b, k)
    ensures var s := Follow(LastColumn(b, ptr), r);
      LastColumn(b, ptr)[s] == b[k] && Rotation(b, ptr[s]) == Rotation(b, Next(|b|, k))
  {
    var s := Follow(LastColumn(b, ptr), r);
    var p := Previous(|b|, ptr[s]);
    TurnedBackSame(b, ptr, r);
    RotationNext(b, p);
    RotationNext(b, k);
  }

  lemma {:induction false} RowTurns(b: seq<byte>, ptr: seq<nat>, orig: nat, k: nat)
    requires SortedRotations(b, ptr) && orig < |b| && k < |b| && Rotation(b, ptr[orig]) == b
    ensures Rotation(b, ptr[Row(LastColumn(b, ptr), orig, k)]) == Rotation(b, k)
  {
    if k == 0 {
      RotationZero(b);
    } else {
      RowTurns(b, ptr, orig, k - 1);
      FollowTurns(b, ptr, Row(LastColumn(b, ptr), orig, k - 1), k - 1);
    }
  }

  /** The last column and any row equal to the block give the block back,
      whatever the order of equal rotations. */
  lemma UnsortedSorted(b: seq<byte>, ptr: seq<nat>, orig: nat)
    requires SortedRotations(b, ptr) && orig < |b| && Rotation(b, ptr[orig]) == b
    ensures Unsorted(LastColumn(b, ptr), orig) == b
  {
    var col := LastColumn(b, ptr);
    forall k | 0 <= k < |b| ensures Unsorted(col, orig)[k] == b[k] {
      RowTurns(b, ptr, orig, k);
      FollowTurns(b, ptr, Row(col, orig, k), k);
    }
  }
}
