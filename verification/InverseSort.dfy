/** The decoder's tables for walking back through the sorted rotations: one word
    per row, or, in small mode, packed 20-bit cells. */
module InverseSort {
  import opened Bits
  import opened ByteCounts
  import opened CountingSort
  import opened Permutations
  import opened Rotations

  const MOST_ROWS := 0x10_0000

  /** Sums the byte counts up. The checks of the entries against the number of
      rows cannot fail. */
  method MakeCftab(unzftab: array<nat>, cftab: array<nat>, nblock: nat, ghost col: seq<byte>)
    requires unzftab.Length == 256 && cftab.Length == 257 && cftab != unzftab && nblock == |col|
    requires forall b :: 0 <= b < 256 ==> unzftab[b] == Equal(col, |col|, b)
    modifies cftab
    ensures Cumulated(cftab, col)
  {
    LowerNext(col, 0);
    hide Lower, Equal;
    cftab[0] := 0;
    for i := 1 to 257
      invariant cftab[0] == 0 && forall b :: 1 <= b < i ==> cftab[b] == unzftab[b - 1]
    {
      cftab[i] := unzftab[i - 1];
    }
    SumCounts(cftab, unzftab, col);
    forall b: nat | b < 257 ensures Lower(col, b) <= nblock {
      LowerRange(col, b);
    }
    assert forall b :: 0 <= b < 257 ==> cftab[b] <= nblock;
  }

  method SumCounts(cftab: array<nat>, unzftab: array<nat>, ghost col: seq<byte>)
    requires unzftab.Length == 256 && cftab.Length == 257 && cftab != unzftab
    requires forall b :: 0 <= b < 256 ==> unzftab[b] == Equal(col, |col|, b)
    requires cftab[0] == Lower(col, 0) && forall b :: 1 <= b < 257 ==> cftab[b] == unzftab[b - 1]
    modifies cftab
    ensures Cumulated(cftab, col)
  {
    hide Lower, Equal;
    for i := 1 to 257
      invariant forall b :: 0 <= b < i ==> cftab[b] == Lower(col, b)
      invariant forall b :: i <= b < 257 ==> cftab[b] == unzftab[b - 1]
    {
      LowerNext(col, i - 1);
      cftab[i] := cftab[i] + cftab[i - 1];
    }
  }

  // ----- one word per row: the byte of the row, and above it the row that follows

  function Followed(col: seq<byte>, r: int): int {
    if 0 <= r < |col| then Follow(col, r) else 0
  }

  function ColumnByte(col: seq<byte>, r: int): int {
    if 0 <= r < |col| then col[r] else 0
  }

  /** The word of row `r` when the first `i` rows have been entered. */
  function Entry(col: seq<byte>, i: int, r: int): int {
    ColumnByte(col, r) + (if Followed(col, r) < i then 256 * Followed(col, r) else 0)
  }

  ghost predicate Entered(tt: array<nat>, col: seq<byte>, i: int)
    reads tt
  {
    |col| <= tt.Length && forall r :: 0 <= r < |col| ==> tt[r] == Entry(col, i, r)
  }

  ghost predicate Walkable(tt: array<nat>, col: seq<byte>)
    reads tt
  {
    |col| <= tt.Length && forall r :: 0 <= r < |col| ==> tt[r] == ColumnByte(col, r) + 256 * Followed(col, r)
  }

  lemma EntryStep(col: seq<byte>, i: nat)
    requires i < |col|
    ensures Entry(col, i, i) % 256 == col[i]
    ensures var p := Position(col, i);
      p < |col| && Entry(col, i, p) == col[p] && Entry(col, i + 1, p) == col[p] + 256 * i
    ensures forall r :: 0 <= r < |col| && r != Position(col, i) ==> Entry(col, i + 1, r) == Entry(col, i, r)
  {
    NextRow(col, i);
    forall r | 0 <= r < |col| && r != Position(col, i) ensures Followed(col, r) != i {
      PositionFollow(col, r);
    }
  }

  lemma {:induction false} OrSymmetric(a: nat, b: nat)
    ensures Or(a, b) == Or(b, a)
    decreases a + b
  {
    if a > 0 || b > 0 { OrSymmetric(a / 2, b / 2); }
  }

  lemma JoinEntry(c: byte, i: nat)
    ensures Or(c, ShiftLeft(i, 8)) == c + 256 * i
  {
    Pow2Values();
    OrDisjoint(i, c, 8);
    OrSymmetric(c, ShiftLeft(i, 8));
    ShiftLeft8(i);
  }

  /** Links the rows, in place. */
  method LinkRows(tt: array<nat>, cftab: array<nat>, nblock: nat, ghost col: seq<byte>)
    requires nblock == |col| <= tt.Length && tt != cftab && Cumulated(cftab, col)
    requires forall r :: 0 <= r < nblock ==> tt[r] == col[r]
    modifies tt, cftab
    ensures Walkable(tt, col)
  {
    hide Lower, Equal, Entry, Followed, Position;
    LinkStart(col);
    for i := 0 to nblock
      invariant Entered(tt, col, i) && CountedUp(cftab, col, i)
    {
      LinkRow(tt, cftab, i, col);
    }
    LinkEnd(tt, col);
  }

  lemma LinkStart(col: seq<byte>)
    ensures forall r :: 0 <= r < |col| ==> Entry(col, 0, r) == col[r]
    ensures forall b :: Equal(col, 0, b) == 0
  {
  }

  lemma LinkEnd(tt: array<nat>, col: seq<byte>)
    requires Entered(tt, col, |col|)
    ensures Walkable(tt, col)
  {
  }

  method LinkRow(tt: array<nat>, cftab: array<nat>, i: nat, ghost col: seq<byte>)
    requires i < |col| && tt != cftab && Entered(tt, col, i) && CountedUp(cftab, col, i)
    modifies tt, cftab
    ensures Entered(tt, col, i + 1) && CountedUp(cftab, col, i + 1)
  {
    hide Lower, Equal, Entry, Followed, Position;
    EntryStep(col, i);
    NextRow(col, i);
    var uc: byte := tt[i] % 256;
    var p := cftab[uc];
    JoinEntry(col[p], i);
    tt[p] := Or(tt[p], ShiftLeft(i, 8));
    cftab[uc] := cftab[uc] + 1;
  }

  // ----- small mode: 20-bit cells

  /** The cells of a block: the low 16 bits of each, and the high 4 bits of two in
      one byte. */
  ghost predicate Packed(ll16: array<nat>, ll4: array<byte>, n: nat)
  {
    n <= ll16.Length && (1 + n) / 2 <= ll4.Length
  }

  function GetLL4(ll4: array<byte>, i: nat): nat
    requires i / 2 < ll4.Length
    reads ll4
  {
    if i % 2 == 0 then ll4[i / 2] % 16 else ll4[i / 2] / 16 % 16
  }

  function GetLL(ll16: array<nat>, ll4: array<byte>, i: nat): nat
    requires i < ll16.Length && i / 2 < ll4.Length
    reads ll16, ll4
  {
    ll16[i] + GetLL4(ll4, i) * 0x1_0000
  }

  method SetLL4(ll4: array<byte>, i: nat, v: nat)
    requires i / 2 < ll4.Length && v < 16
    modifies ll4
    ensures GetLL4(ll4, i) == v
    ensures forall k :: 0 <= k < ll4.Length && k != i / 2 ==> ll4[k] == old(ll4[k])
    ensures forall k: nat :: k / 2 == i / 2 && k != i ==> GetLL4(ll4, k) == old(GetLL4(ll4, k))
  {
    if i % 2 == 0 {
      ll4[i / 2] := ll4[i / 2] - ll4[i / 2] % 16 + v;
    } else {
      ll4[i / 2] := ll4[i / 2] % 16 + 16 * v;
    }
  }

  method SetLL(ll16: array<nat>, ll4: array<byte>, ghost n: nat, i: nat, v: nat)
    requires Packed(ll16, ll4, n) && i < n && v < MOST_ROWS
    modifies ll16, ll4
    ensures Packed(ll16, ll4, n) && GetLL(ll16, ll4, i) == v
    ensures forall k: nat :: k < n && k != i ==> GetLL(ll16, ll4, k) == old(GetLL(ll16, ll4, k))
    ensures forall k: nat :: k < n && k != i ==> ll16[k] == old(ll16[k])
  {
    ll16[i] := v % 0x1_0000;
    SetLL4(ll4, i, v / 0x1_0000);
    forall k: nat | k < n && k != i ensures GetLL4(ll4, k) == old(GetLL4(ll4, k)) {}
  }

  /** Row `r` is linked to the row that follows. */
  ghost predicate Linked(ll16: array<nat>, ll4: array<byte>, col: seq<byte>, r: int)
    reads ll16, ll4
  {
    && 0 <= r < |col| <= ll16.Length && r / 2 < ll4.Length
    && GetLL(ll16, ll4, r) == Followed(col, r)
  }

  /** Row `r` is linked to the row that it follows. */
  ghost predicate BackLinked(ll16: array<nat>, ll4: array<byte>, col: seq<byte>, r: int)
    reads ll16, ll4
  {
    && 0 <= r < |col| <= ll16.Length && r / 2 < ll4.Length
    && GetLL(ll16, ll4, r) == Position(col, r)
  }

  /** Computes the T vector over the column, in place. */
  method LinkBack(ll16: array<nat>, ll4: array<byte>, cftabCopy: array<nat>, nblock: nat, ghost col: seq<byte>)
    requires ll16 != cftabCopy
    requires nblock == |col| <= MOST_ROWS && Packed(ll16, ll4, nblock) && Cumulated(cftabCopy, col)
    requires forall r :: 0 <= r < nblock ==> ll16[r] == col[r]
    modifies ll16, ll4, cftabCopy
    ensures Packed(ll16, ll4, nblock)
    ensures forall r :: 0 <= r < nblock ==> BackLinked(ll16, ll4, col, r)
  {
    hide Lower, Equal, Followed, Position, GetLL;
    SelectNone(col);
    for i := 0 to nblock
      invariant Packed(ll16, ll4, nblock) && CountedUp(cftabCopy, col, i)
      invariant forall r :: 0 <= r < i ==> BackLinked(ll16, ll4, col, r)
      invariant forall r :: i <= r < nblock ==> ll16[r] == col[r]
    {
      NextRow(col, i);
      var uc: byte := ll16[i];
      label before:
      SetLL(ll16, ll4, nblock, i, cftabCopy[uc]);
      cftabCopy[uc] := cftabCopy[uc] + 1;
      forall r | 0 <= r <= i ensures BackLinked(ll16, ll4, col, r) {
        if r < i { assert old@before(BackLinked(ll16, ll4, col, r)); }
      }
    }
  }

  /** The rows on the way from `orig`, so far. */
  ghost predicate Path(col: seq<byte>, path: seq<nat>) {
    && path != [] && Distinct(path) && InRange(path, |col|)
    && forall t :: 0 < t < |path| ==> PathStep(col, path, t)
  }

  ghost predicate PathStep(col: seq<byte>, path: seq<nat>, t: int)
    requires 0 < t < |path| && InRange(path, |col|)
  {
    path[t] == Position(col, path[t - 1])
  }

  /** A path either goes on to a new row or comes back to its start. */
  lemma PathGrows(col: seq<byte>, path: seq<nat>)
    requires Path(col, path)
    ensures |path| <= |col|
    ensures var j := Position(col, path[|path| - 1]);
      j < |col| && Follow(col, j) == path[|path| - 1] && (j == path[0] || (j !in path && Path(col, path + [j])))
  {
    var m := |path| - 1;
    var j := Position(col, path[m]);
    Pigeonhole(path, |col|);
    NextRow(col, path[m]);
    if j != path[0] {
      forall t | 0 < t <= m ensures path[t] != j {
        assert PathStep(col, path, t);
        NextRow(col, path[t - 1]);
      }
      var longer := path + [j];
      forall t | 0 < t < |longer| ensures PathStep(col, longer, t) {
        assert t <= m ==> PathStep(col, path, t);
      }
    }
  }

  /** A closed path: the rows on it are linked to the rows that follow, which are
      on it too. */
  ghost predicate Cycle(ll16: array<nat>, ll4: array<byte>, col: seq<byte>, cycle: set<nat>)
    reads ll16, ll4
  {
    forall r :: r in cycle ==> Linked(ll16, ll4, col, r) && Followed(col, r) in cycle
  }

  /** While the links on the way from `orig` are turned around: `done` are the rows
      after `orig` that the way has reached. */
  ghost predicate Turning(ll16: array<nat>, ll4: array<byte>, col: seq<byte>, done: set<nat>)
    reads ll16, ll4
  {
    forall r :: 0 <= r < |col| ==> if r in done then Linked(ll16, ll4, col, r) else BackLinked(ll16, ll4, col, r)
  }

  /** Turns one link around. */
  method TurnLink(ll16: array<nat>, ll4: array<byte>, i: nat, j: nat, ghost col: seq<byte>, ghost done: set<nat>)
    returns (tmp: nat)
    requires Packed(ll16, ll4, |col|) && |col| <= MOST_ROWS
    requires Turning(ll16, ll4, col, done) && j < |col| && j !in done && Followed(col, j) == i < |col|
    modifies ll16, ll4
    ensures Packed(ll16, ll4, |col|) && tmp == Position(col, j) && Turning(ll16, ll4, col, done + {j})
  {
    hide Position, Followed;
    tmp := GetLL(ll16, ll4, j);
    SetLL(ll16, ll4, |col|, j, i);
    forall r | 0 <= r < |col| && r != j
      ensures if r in done then Linked(ll16, ll4, col, r) else BackLinked(ll16, ll4, col, r)
    {
      assert if r in done then old(Linked(ll16, ll4, col, r)) else old(BackLinked(ll16, ll4, col, r));
    }
  }

  /** Turns the links around on the one cycle that `origPtr` lies on. */
  method ReverseCycle(ll16: array<nat>, ll4: array<byte>, origPtr: nat, ghost col: seq<byte>)
    returns (ghost cycle: set<nat>)
    requires Packed(ll16, ll4, |col|) && origPtr < |col| <= MOST_ROWS
    requires forall r :: 0 <= r < |col| ==> BackLinked(ll16, ll4, col, r)
    modifies ll16, ll4
    ensures Packed(ll16, ll4, |col|) && origPtr in cycle && Cycle(ll16, ll4, col, cycle)
    ensures forall r :: 0 <= r < |col| && r !in cycle ==> BackLinked(ll16, ll4, col, r)
  {
    hide Position, Followed, GetLL;
    var i := origPtr;
    assert BackLinked(ll16, ll4, col, i);
    var j := GetLL(ll16, ll4, i);
    ghost var path: seq<nat>, done: set<nat> := [origPtr], {};
    while true
      invariant Packed(ll16, ll4, |col|) && Path(col, path) && path[0] == origPtr
      invariant i == path[|path| - 1] && j == Position(col, i)
      invariant forall r :: r in done <==> r in path && r != origPtr
      invariant Turning(ll16, ll4, col, done)
      decreases |col| - |path|
    {
      PathGrows(col, path);
      FollowedIs(col, j);
      ghost var next := j;
      var tmp := TurnLink(ll16, ll4, i, j, col, done);
      done := done + {next};
      i := j;
      j := tmp;
      if i == origPtr {
        break;
      }
      path := path + [next];
      PathGrows(col, path);
    }
    cycle := done;
    CycleClosed(ll16, ll4, col, path, cycle);
  }

  /** The tables of small mode, from the column. */
  method LinkCycle(ll16: array<nat>, ll4: array<byte>, cftab: array<nat>, nblock: nat, origPtr: nat,
          ghost col: seq<byte>)
    returns (ghost cycle: set<nat>)
    requires origPtr < nblock == |col| <= MOST_ROWS && Cumulated(cftab, col)
    requires ll16 != cftab && Packed(ll16, ll4, nblock)
    requires forall r :: 0 <= r < nblock ==> ll16[r] == col[r]
    modifies ll16, ll4
    ensures origPtr in cycle && Cycle(ll16, ll4, col, cycle) && Cumulated(cftab, col)
    ensures Packed(ll16, ll4, nblock) && forall r :: 0 <= r < nblock && r !in cycle ==> BackLinked(ll16, ll4, col, r)
  {
    var cftabCopy := new nat[257];
    for i := 0 to 257
      modifies cftabCopy
      invariant forall b :: 0 <= b < i ==> cftabCopy[b] == cftab[b]
    {
      cftabCopy[i] := cftab[i];
    }
    LinkBack(ll16, ll4, cftabCopy, nblock, col);
    cycle := ReverseCycle(ll16, ll4, origPtr, col);
  }

  lemma FollowedIs(col: seq<byte>, r: nat)
    requires r < |col|
    ensures Followed(col, r) == Follow(col, r)
  {
  }

  lemma CycleClosed(ll16: array<nat>, ll4: array<byte>, col: seq<byte>, path: seq<nat>, cycle: set<nat>)
    requires Path(col, path) && Position(col, path[|path| - 1]) == path[0]
    requires forall r :: r in cycle <==> r in path
    requires Turning(ll16, ll4, col, cycle)
    ensures Cycle(ll16, ll4, col, cycle)
  {
    hide Position, GetLL;
    forall r | r in cycle ensures Linked(ll16, ll4, col, r) && Followed(col, r) in cycle {
      var t :| 0 <= t < |path| && path[t] == r;
      var u := if t == 0 then |path| - 1 else t - 1;
      assert t > 0 ==> PathStep(col, path, t);
      NextRow(col, path[u]);
      FollowedIs(col, r);
    }
  }

  // ----- the byte that begins a row

  /** The byte whose range of rows holds `indx`. */
  method IndexIntoF(indx: nat, cftab: array<nat>, ghost col: seq<byte>) returns (nb: nat)
    requires Cumulated(cftab, col) && indx < |col|
    ensures nb == col[Follow(col, indx)]
  {
    LowerNext(col, 0);
    LowerAll(col);
    hide Lower;
    nb := 0;
    var na := 256;
    while na - nb != 1
      invariant 0 <= nb < na <= 256 && Lower(col, nb) <= indx < Lower(col, na)
      decreases na - nb
    {
      var mid := (nb + na) / 2;
      if indx >= cftab[mid] {
        nb := mid;
      } else {
        na := mid;
      }
    }
    FirstByte(col, indx, nb);
  }

}
