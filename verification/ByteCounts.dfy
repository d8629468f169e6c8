/** Counting the bytes of a column: how many are smaller than a byte, and how
    many are equal to it. */
module ByteCounts {
  import opened Bits
  import opened CountingSort
  import opened Permutations
  import opened Rotations

  /** How many bytes of the column are less than `b`. */
  function Lower(col: seq<byte>, b: int): int {
    if b < 0 then 0 else |ByKey(col, b)|
  }

  /** How many of the first `i` bytes equal `b`. */
  function Equal(col: seq<byte>, i: int, b: int): int {
    if 0 <= i <= |col| && b >= 0 then |Select(col, i, b)| else 0
  }

  ghost predicate Cumulated(cftab: array<nat>, col: seq<byte>)
    reads cftab
  {
    cftab.Length == 257 && forall b :: 0 <= b < 257 ==> cftab[b] == Lower(col, b)
  }

  ghost predicate CountedUp(cftab: array<nat>, col: seq<byte>, i: int)
    reads cftab
  {
    cftab.Length == 257 && forall b :: 0 <= b < 256 ==> cftab[b] == Lower(col, b) + Equal(col, i, b)
  }

  lemma LowerNext(col: seq<byte>, b: nat)
    ensures Lower(col, 0) == 0 && Lower(col, b + 1) == Lower(col, b) + Equal(col, |col|, b)
  {
  }

  lemma LowerRange(col: seq<byte>, b: nat)
    ensures 0 <= Lower(col, b) <= |col|
  {
    ByKeySize(col, b);
  }

  lemma LowerAll(col: seq<byte>)
    ensures Lower(col, 256) == |col|
  {
    OrderPermutation(col);
  }

  /** The next row of the order to be filled is that of row `i`. */
  lemma NextRow(col: seq<byte>, i: nat)
    requires i < |col|
    ensures Lower(col, col[i]) + Equal(col, i, col[i]) == Position(col, i) < |col|
    ensures Follow(col, Position(col, i)) == i
    ensures forall b :: 0 <= b < 256 ==> Equal(col, i + 1, b) == Equal(col, i, b) + (if b == col[i] then 1 else 0)
  {
    OrderPermutation(col);
    ByKeyPosition(col, 256, i);
  }

  lemma PositionFollow(col: seq<byte>, r: nat)
    requires r < |col|
    ensures Position(col, Follow(col, r)) == r
  {
    OrderPermutation(col);
    ByKeyAt(col, 256, r);
  }

  lemma SelectNone(col: seq<byte>)
    ensures forall b :: Equal(col, 0, b) == 0
  {
  }

  lemma RowInRange(col: seq<byte>, r: nat)
    requires r < |col|
    ensures var c: int := col[Follow(col, r)]; Lower(col, c) <= r < Lower(col, c + 1)
  {
    var s := Follow(col, r);
    PositionFollow(col, r);
    SelectRank(col, s);
    LowerNext(col, col[s]);
    hide Follow, ByKey, Select;
  }

  lemma LowerMonotone(col: seq<byte>, a: nat, b: nat)
    requires a <= b
    ensures Lower(col, a) <= Lower(col, b)
  {
    ByKeyPrefix(col, a, b);
    hide ByKey;
  }

  lemma FirstByte(col: seq<byte>, r: nat, b: nat)
    requires r < |col| && Lower(col, b) <= r < Lower(col, b + 1)
    ensures col[Follow(col, r)] == b
  {
    hide *;
    RowInRange(col, r);
    var c: nat := col[Follow(col, r)];
    if b < c {
      LowerMonotone(col, b + 1, c);
    } else if c < b {
      LowerMonotone(col, c + 1, b);
    }
  }

  lemma RowsOrdered(b: seq<byte>, i: nat)
    requires i + 1 < |b|
    ensures b[Follow(b, i)] <= b[Follow(b, i + 1)]
  {
    OrderPermutation(b);
  }
}
