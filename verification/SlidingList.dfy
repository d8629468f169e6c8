/** The decoder's move-to-front list: 16 lines of 16 entries that slide towards
    the low end of a larger array, so that moving an entry to the front shifts at
    most one line and the ends of the lines before it. */
module SlidingList {
  import opened Bits
  import opened MoveToFront
  import opened Permutations

  const MTFA_SIZE := 4096
  const MTFL_SIZE := 16

  function At(s: seq<int>, i: int): int {
    if 0 <= i < |s| then s[i] else 0
  }

  /** The `n` cells of `a` from `base` on hold the entries of `s` from `from` on. */
  ghost predicate Line(a: seq<int>, base: int, n: int, s: seq<int>, from: int) {
    forall p :: base <= p < base + n ==> At(a, p) == At(s, from + p - base)
  }

  /** The lines lie one after the other, apart from or touching each other. */
  ghost predicate Spaced(b: seq<int>) {
    && |b| == 16 && 0 <= b[0] && b[15] + 16 <= MTFA_SIZE
    && forall l, m :: 0 <= l < m < 16 ==> At(b, l) + 16 * (m - l) <= At(b, m)
  }

  /** The lines at `b` hold `list`. */
  ghost predicate Lists(a: seq<int>, b: seq<int>, list: seq<nat>) {
    |list| == 256 && forall l :: 0 <= l < 16 ==> Line(a, At(b, l), 16, list, 16 * l)
  }

  lemma {:induction false} SpacedBase(b: seq<int>, l: int)
    requires Spaced(b) && 0 <= l < 16
    ensures 0 <= At(b, l) && At(b, l) + 16 <= MTFA_SIZE - 16 * (15 - l)
  {
    assert l > 0 ==> At(b, 0) + 16 * (l - 0) <= At(b, l);
    assert l < 15 ==> At(b, l) + 16 * (15 - l) <= At(b, 15);
  }

  /** What moving entry `k` to the front does to entry `i`. */
  function Moved(list: seq<nat>, k: int, i: int): int {
    if i == 0 then At(list, k) else if i <= k then At(list, i - 1) else At(list, i)
  }

  lemma ToFrontAt(list: seq<nat>, k: nat, goal: seq<nat>)
    requires k < |list| && goal == ToFront(list, k)
    ensures forall i :: 0 <= i < |list| ==> At(goal, i) == Moved(list, k, i)
  {
    forall i | 0 <= i < |list| ensures At(goal, i) == Moved(list, k, i) {
      assert goal[i] == if i == 0 then list[k] else if i <= k then list[i - 1] else list[i];
    }
  }

  lemma LineKept(a: seq<int>, q: int, v: int, base: int, n: int, s: seq<int>, from: int)
    requires Line(a, base, n, s, from) && 0 <= q < |a| && !(base <= q < base + n)
    ensures Line(a[q := v], base, n, s, from)
  {
    var a' := a[q := v];
    forall p | base <= p < base + n ensures At(a', p) == At(s, from + p - base) {
      assert At(a', p) == At(a, p);
    }
  }

  // ----- the lines while an entry moves to the front

  function PassingBase(b: seq<int>, L: int, l: int, m: int): int {
    if m == L then (if l == L then At(b, m) + 1 else At(b, m))
    else if l < m < L then At(b, m) - 1
    else At(b, m)
  }

  /** An entry of line `L` moves to the front: the lines between `l` and `L` are
      done, line `l` misses its first entry, the lines before it are as they were. */
  ghost predicate Passing(a: seq<int>, c: seq<int>, list: seq<nat>, goal: seq<nat>, b: seq<int>, L: int, l: int) {
    && 0 <= l <= L < 16 && Spaced(b) && b[0] >= 1 && |a| == MTFA_SIZE && |c| == 16
    && (forall m :: 0 <= m < 16 ==> At(c, m) == PassingBase(b, L, l, m))
    && (forall m :: l < m < 16 ==> Line(a, At(c, m), 16, goal, 16 * m))
    && Line(a, At(c, l), 15, goal, 16 * l + 1)
    && (forall m :: 0 <= m < l ==> Line(a, At(c, m), 16, list, 16 * m))
  }

  lemma PassBases(c: seq<int>, c': seq<int>, b: seq<int>, L: int, l: int)
    requires |c| == 16 && 1 <= l <= L < 16 && c' == c[l := c[l] - 1]
    requires forall m :: 0 <= m < 16 ==> At(c, m) == PassingBase(b, L, l, m)
    ensures forall m :: 0 <= m < 16 ==> At(c', m) == PassingBase(b, L, l - 1, m)
  {
    forall m | 0 <= m < 16 ensures At(c', m) == PassingBase(b, L, l - 1, m) {
      assert At(c, m) == PassingBase(b, L, l, m);
    }
  }

  /** The last entry of the line before becomes the first one of line `l`. */
  lemma PassStep(a: seq<int>, c: seq<int>, list: seq<nat>, goal: seq<nat>, b: seq<int>, L: int, l: int, nn: nat)
    requires Passing(a, c, list, goal, b, L, l) && l >= 1
    requires |list| == 256 && nn < 256 && goal == ToFront(list, nn) && nn / 16 == L
    ensures 0 <= At(c, l) - 1 < MTFA_SIZE
    ensures Passing(a[At(c, l) - 1 := At(a, At(c, l - 1) + 15)], c[l := c[l] - 1], list, goal, b, L, l - 1)
  {
    var q, v := At(c, l) - 1, At(a, At(c, l - 1) + 15);
    assert At(c, l) == PassingBase(b, L, l, l) && At(c, l - 1) == PassingBase(b, L, l, l - 1);
    SpacedBase(b, l);
    SpacedBase(b, l - 1);
    var a', c' := a[q := v], c[l := c[l] - 1];
    PassBases(c, c', b, L, l);
    hide ToFront;
    PassLinesAfter(a, c, list, goal, b, L, l, q, v);
    PassLine(a, c, list, goal, b, L, l, nn);
    PassLinesBefore(a, c, list, goal, b, L, l, q, v);
    assert forall m :: m != l ==> At(c', m) == At(c, m);
    assert At(c', l) == q;
  }

  lemma PassLinesAfter(a: seq<int>, c: seq<int>, list: seq<nat>, goal: seq<nat>, b: seq<int>, L: int, l: int, q: int,
          v: int)
    requires Passing(a, c, list, goal, b, L, l) && l >= 1 && q == At(c, l) - 1 && 0 <= q < |a|
    ensures forall m :: l < m < 16 ==> Line(a[q := v], At(c, m), 16, goal, 16 * m)
  {
    assert At(c, l) == PassingBase(b, L, l, l);
    forall m | l < m < 16 ensures Line(a[q := v], At(c, m), 16, goal, 16 * m) {
      assert At(c, m) == PassingBase(b, L, l, m) && At(b, l) + 16 * (m - l) <= At(b, m);
      LineKept(a, q, v, At(c, m), 16, goal, 16 * m);
    }
  }

  lemma PassLinesBefore(a: seq<int>, c: seq<int>, list: seq<nat>, goal: seq<nat>, b: seq<int>, L: int, l: int, q: int,
          v: int)
    requires Passing(a, c, list, goal, b, L, l) && l >= 1 && q == At(c, l) - 1 && 0 <= q < |a|
    ensures forall m :: 0 <= m < l - 1 ==> Line(a[q := v], At(c, m), 16, list, 16 * m)
  {
    assert At(c, l) == PassingBase(b, L, l, l);
    forall m | 0 <= m < l - 1 ensures Line(a[q := v], At(c, m), 16, list, 16 * m) {
      assert At(c, m) == PassingBase(b, L, l, m) && At(b, m) + 16 * (l - m) <= At(b, l);
      LineKept(a, q, v, At(c, m), 16, list, 16 * m);
    }
  }

  /** Line `l` gets its first entry, and the line before it loses its last one. */
  lemma PassLine(a: seq<int>, c: seq<int>, list: seq<nat>, goal: seq<nat>, b: seq<int>, L: int, l: int, nn: nat)
    requires Passing(a, c, list, goal, b, L, l) && l >= 1
    requires |list| == 256 && nn < 256 && goal == ToFront(list, nn) && nn / 16 == L
    requires 0 <= At(c, l) - 1 < |a|
    ensures var a' := a[At(c, l) - 1 := At(a, At(c, l - 1) + 15)];
      Line(a', At(c, l) - 1, 16, goal, 16 * l) && Line(a', At(c, l - 1), 15, goal, 16 * (l - 1) + 1)
  {
    var q, v, e := At(c, l) - 1, At(a, At(c, l - 1) + 15), At(c, l - 1);
    var a' := a[q := v];
    assert At(c, l) == PassingBase(b, L, l, l) && e == PassingBase(b, L, l, l - 1);
    assert At(b, l - 1) + 16 * (l - (l - 1)) <= At(b, l);
    ToFrontAt(list, nn, goal);
    hide ToFront;
    assert Line(a, e, 16, list, 16 * (l - 1));
    assert At(a, e + 15) == At(list, 16 * l - 1);
    forall p | q <= p < q + 16 ensures At(a', p) == At(goal, 16 * l + p - q) {
      if p > q { assert At(a', p) == At(a, p); }
    }
    forall p | e <= p < e + 15 ensures At(a', p) == At(goal, 16 * (l - 1) + 1 + p - e) {
      assert At(a', p) == At(a, p) == At(list, 16 * (l - 1) + p - e);
    }
  }

  /** Cells `e`+1 to `e`+`off` were shifted up by one. */
  ghost predicate Shifted(a: seq<int>, a': seq<int>, e: int, off: int) {
    |a| == |a'| && forall p {:trigger At(a', p)} :: At(a', p) == if e < p <= e + off then At(a, p - 1) else At(a, p)
  }

  lemma LineOutside(a: seq<int>, a': seq<int>, e: int, off: int, base: int, s: seq<int>, from: int)
    requires Shifted(a, a', e, off) && Line(a, base, 16, s, from) && 0 <= off < 16
    requires base + 16 <= e || e + 16 <= base
    ensures Line(a', base, 16, s, from)
  {
    forall p | base <= p < base + 16 ensures At(a', p) == At(s, from + p - base) {
      assert At(a, p) == At(s, from + p - base);
    }
  }

  lemma LineLater(a: seq<int>, base: int, list: seq<nat>, goal: seq<nat>, nn: nat, m: int)
    requires Line(a, base, 16, list, 16 * m) && |list| == 256 && nn < 16 * m && 0 <= m < 16
    requires forall i :: 0 <= i < |list| ==> At(goal, i) == Moved(list, nn, i)
    ensures Line(a, base, 16, goal, 16 * m)
  {
    forall p | base <= p < base + 16 ensures At(a, p) == At(goal, 16 * m + p - base) {
      assert At(a, p) == At(list, 16 * m + p - base);
    }
  }

  /** Opening a gap in line `L`, over the entry that moves. */
  lemma PassStart(a: seq<int>, a': seq<int>, b: seq<int>, c: seq<int>, list: seq<nat>, goal: seq<nat>, nn: nat)
    requires |a| == |a'| == MTFA_SIZE && Spaced(b) && b[0] >= 1 && Lists(a, b, list) && nn < 256
    requires goal == ToFront(list, nn) && c == b[nn / 16 := b[nn / 16] + 1]
    requires Shifted(a, a', At(b, nn / 16), nn % 16)
    ensures Passing(a', c, list, goal, b, nn / 16, nn / 16)
  {
    var L, off := nn / 16, nn % 16;
    var e := At(b, L);
    forall m | 0 <= m < 16 ensures At(c, m) == PassingBase(b, L, L, m) {}
    ToFrontAt(list, nn, goal);
    hide ToFront;
    GapLine(a, a', e, off, list, goal, nn);
    forall m | L < m < 16 ensures Line(a', At(c, m), 16, goal, 16 * m) {
      assert At(b, L) + 16 * (m - L) <= At(b, m);
      LineOutside(a, a', e, off, At(b, m), list, 16 * m);
      LineLater(a', At(b, m), list, goal, nn, m);
    }
    forall m | 0 <= m < L ensures Line(a', At(c, m), 16, list, 16 * m) {
      assert At(b, m) + 16 * (L - m) <= At(b, L);
      LineOutside(a, a', e, off, At(b, m), list, 16 * m);
    }
  }

  lemma GapLine(a: seq<int>, a': seq<int>, e: int, off: int, list: seq<nat>, goal: seq<nat>, nn: nat)
    requires Shifted(a, a', e, off) && off == nn % 16 && nn < 256 && |list| == 256
    requires Line(a, e, 16, list, 16 * (nn / 16))
    requires forall i :: 0 <= i < |list| ==> At(goal, i) == Moved(list, nn, i)
    ensures Line(a', e + 1, 15, goal, 16 * (nn / 16) + 1)
  {
    var from := 16 * (nn / 16);
    forall p | e + 1 <= p < e + 1 + 15 ensures At(a', p) == At(goal, from + 1 + p - (e + 1)) {
      assert At(a, p) == At(list, from + p - e);
      assert At(a, p - 1) == At(list, from + p - 1 - e);
    }
  }

  /** The moved entry becomes the first one of line 0. */
  lemma PassEnd(a: seq<int>, c: seq<int>, list: seq<nat>, goal: seq<nat>, b: seq<int>, L: int, uc: int)
    requires Passing(a, c, list, goal, b, L, 0) && L >= 1 && |goal| == 256 && uc == goal[0]
    ensures 0 <= At(c, 0) - 1 < MTFA_SIZE && At(c, 0) == b[0]
    ensures Spaced(c[0 := At(c, 0) - 1]) && Lists(a[At(c, 0) - 1 := uc], c[0 := At(c, 0) - 1], goal)
  {
    SpacedBase(b, 0);
    assert At(c, 0) == PassingBase(b, L, 0, 0);
    var q := At(c, 0) - 1;
    var a', c' := a[q := uc], c[0 := q];
    forall m | 0 <= m < 16 ensures At(c', m) == if m < L then At(b, m) - 1 else At(b, m) {
      assert At(c, m) == PassingBase(b, L, 0, m);
    }
    EndSpaced(b, c', L);
    forall m | 0 <= m < 16 ensures Line(a', At(c', m), 16, goal, 16 * m) {
      if m > 0 {
        assert At(c, m) == PassingBase(b, L, 0, m) && At(b, 0) + 16 * (m - 0) <= At(b, m);
        LineKept(a, q, uc, At(c, m), 16, goal, 16 * m);
      } else {
        FirstLine(a, goal, q);
      }
    }
  }

  lemma FirstLine(a: seq<int>, goal: seq<nat>, q: int)
    requires 0 <= q < |a| && |goal| == 256 && Line(a, q + 1, 15, goal, 1)
    ensures Line(a[q := goal[0]], q, 16, goal, 0)
  {
    var a' := a[q := goal[0]];
    forall p | q <= p < q + 16 ensures At(a', p) == At(goal, 0 + p - q) {
      if p > q { assert At(a', p) == At(a, p); }
    }
  }

  lemma EndSpaced(b: seq<int>, c: seq<int>, L: int)
    requires Spaced(b) && b[0] >= 1 && |c| == 16 && 1 <= L < 16
    requires forall m :: 0 <= m < 16 ==> At(c, m) == if m < L then At(b, m) - 1 else At(b, m)
    ensures Spaced(c)
  {
    assert At(c, 15) <= At(b, 15) && At(c, 0) == At(b, 0) - 1;
    forall l, m | 0 <= l < m < 16 ensures At(c, l) + 16 * (m - l) <= At(c, m) {
      assert At(b, l) + 16 * (m - l) <= At(b, m);
    }
  }

  // ----- the list itself

  class MtfArray {
    const mtfa: array<int>
    const mtfbase: array<int>
    ghost var list: seq<nat>

    ghost predicate Shaped()
      reads this, mtfa, mtfbase
    {
      && mtfa != mtfbase && mtfa.Length == MTFA_SIZE && mtfbase.Length == 16
      && Spaced(mtfbase[..]) && Lists(mtfa[..], mtfbase[..], list)
    }

    ghost predicate Valid()
      reads this, mtfa, mtfbase
    {
      Shaped() && mtfbase[0] >= 1
    }

    /** The list starts out as 0, 1, .., 255, at the high end of the array. */
    constructor ()
      ensures Valid() && list == Iota(256) && fresh(mtfa) && fresh(mtfbase)
    {
      mtfa := new int[MTFA_SIZE];
      mtfbase := new int[16];
      new;
      var kk := MTFA_SIZE - 1;
      for ii := 16 downto 0
        invariant kk == 3840 + 16 * ii - 1
        invariant forall l :: ii <= l < 16 ==> mtfbase[l] == 3840 + 16 * l
        invariant forall p :: kk < p < MTFA_SIZE ==> mtfa[p] == p - 3840
      {
        for jj := 16 downto 0
          invariant kk == 3840 + 16 * ii + jj - 1
          invariant forall p :: kk < p < MTFA_SIZE ==> mtfa[p] == p - 3840
          invariant forall l :: ii < l < 16 ==> mtfbase[l] == 3840 + 16 * l
        {
          mtfa[kk] := ii * MTFL_SIZE + jj;
          kk := kk - 1;
        }
        mtfbase[ii] := kk + 1;
      }
      list := Iota(256);
      FreshLists(mtfa[..], mtfbase[..], list);
    }

    /** The entry in front. */
    method Front() returns (uc: int)
      requires Valid()
      ensures uc == list[0]
    {
      FrontCell(mtfa[..], mtfbase[..], list);
      uc := mtfa[mtfbase[0]];
    }

    /** Moves entry `nn` to the front and returns it. */
    method MoveFront(nn: nat) returns (uc: int)
      requires Valid() && nn < 256
      modifies this, mtfa, mtfbase
      ensures Valid() && uc == old(list)[nn] && list == ToFront(old(list), nn)
    {
      if nn < MTFL_SIZE {
        uc := MoveInFirstLine(nn);
      } else {
        uc := MoveAcross(nn);
        if mtfbase[0] == 0 {
          Rebuild();
        }
      }
    }

    /** An entry of the first line: the entries before it are shifted, four at a
        time while that many are left. */
    method MoveInFirstLine(nn0: nat) returns (uc: int)
      requires Valid() && nn0 < MTFL_SIZE
      modifies this, mtfa
      ensures Valid() && uc == old(list)[nn0] && list == ToFront(old(list), nn0)
    {
      var nn, pp := nn0, mtfbase[0];
      ghost var a0 := mtfa[..];
      FirstCells(a0, mtfbase[..], list, nn0);
      uc := mtfa[pp + nn];
      ShiftUp(pp, nn);
      mtfa[pp] := uc;
      FirstLineMoved(a0, mtfa[..], mtfbase[..], list, nn0);
      list := ToFront(list, nn0);
    }

    method ShiftUp(pp: int, nn0: nat)
      requires nn0 < MTFL_SIZE && 0 <= pp && pp + 16 <= mtfa.Length
      modifies mtfa
      ensures forall p :: 0 <= p < mtfa.Length ==> mtfa[p] == if pp < p <= pp + nn0 then old(mtfa[p - 1])
        else old(mtfa[p])
    {
      var nn: int := nn0;
      while nn > 3
        invariant 0 <= nn <= nn0
        invariant forall p :: 0 <= p < mtfa.Length ==>
          mtfa[p] == if pp + nn < p <= pp + nn0 then old(mtfa[p - 1]) else old(mtfa[p])
      {
        var z := pp + nn;
        mtfa[z] := mtfa[z - 1];
        mtfa[z - 1] := mtfa[z - 2];
        mtfa[z - 2] := mtfa[z - 3];
        mtfa[z - 3] := mtfa[z - 4];
        nn := nn - 4;
      }
      while nn > 0
        invariant 0 <= nn <= nn0
        invariant forall p :: 0 <= p < mtfa.Length ==>
          mtfa[p] == if pp + nn < p <= pp + nn0 then old(mtfa[p - 1]) else old(mtfa[p])
      {
        mtfa[pp + nn] := mtfa[pp + nn - 1];
        nn := nn - 1;
      }
    }

    /** An entry of a later line: its line closes up over it, and every line
        before it hands its last entry on. */
    method MoveAcross(nn: nat) returns (uc: int)
      requires Valid() && MTFL_SIZE <= nn < 256
      modifies this, mtfa, mtfbase
      ensures Shaped() && uc == old(list)[nn] && list == ToFront(old(list), nn)
    {
      var lno, off := nn / MTFL_SIZE, nn % MTFL_SIZE;
      ghost var a0, b0, list0, goal := mtfa[..], mtfbase[..], list, ToFront(list, nn);
      ghost var L := lno;
      CellOf(a0, b0, list, nn);
      uc := mtfa[mtfbase[lno] + off];
      CloseUp(mtfbase[lno], off);
      mtfbase[lno] := mtfbase[lno] + 1;
      PassStart(a0, mtfa[..], b0, mtfbase[..], list0, goal, nn);
      while lno > 0
        invariant 0 <= lno <= L
        invariant Passing(mtfa[..], mtfbase[..], list0, goal, b0, L, lno)
        decreases lno
      {
        HandOn(lno, list0, goal, b0, L, nn);
        lno := lno - 1;
      }
      PassEnd(mtfa[..], mtfbase[..], list0, goal, b0, L, uc);
      ghost var a1, b1 := mtfa[..], mtfbase[..];
      mtfbase[0] := mtfbase[0] - 1;
      mtfa[mtfbase[0]] := uc;
      assert mtfbase[..] == b1[0 := At(b1, 0) - 1];
      assert mtfa[..] == a1[At(b1, 0) - 1 := uc];
      list := goal;
    }

    method CloseUp(base: int, off: nat)
      requires mtfa.Length == MTFA_SIZE && 0 <= base && base + 16 <= mtfa.Length && off < 16
      modifies mtfa
      ensures Shifted(old(mtfa[..]), mtfa[..], base, off)
    {
      var pp := base + off;
      while pp > base
        invariant base <= pp <= base + off
        invariant forall p :: 0 <= p < mtfa.Length ==>
          mtfa[p] == if pp < p <= base + off then old(mtfa[p - 1]) else old(mtfa[p])
      {
        mtfa[pp] := mtfa[pp - 1];
        pp := pp - 1;
      }
    }

    /** The line before hands its last entry on to line `lno`. */
    method HandOn(lno: nat, ghost list0: seq<nat>, ghost goal: seq<nat>, ghost b0: seq<int>, ghost L: int,
            ghost nn: nat)
      requires mtfa != mtfbase && mtfa.Length == MTFA_SIZE && mtfbase.Length == 16 && lno >= 1
      requires Passing(mtfa[..], mtfbase[..], list0, goal, b0, L, lno)
      requires |list0| == 256 && nn < 256 && goal == ToFront(list0, nn) && nn / 16 == L
      modifies mtfa, mtfbase
      ensures Passing(mtfa[..], mtfbase[..], list0, goal, b0, L, lno - 1)
    {
      ghost var a, c := mtfa[..], mtfbase[..];
      PassStep(a, c, list0, goal, b0, L, lno, nn);
      PassCell(a, c, list0, goal, b0, L, lno);
      mtfbase[lno] := mtfbase[lno] - 1;
      mtfa[mtfbase[lno]] := mtfa[mtfbase[lno - 1] + MTFL_SIZE - 1];
      assert mtfbase[..] == c[lno := c[lno] - 1];
      assert mtfa[..] == a[At(c, lno) - 1 := At(a, At(c, lno - 1) + 15)];
    }

    /** The lines move back to the high end of the array, last line first. */
    method Rebuild()
      requires Shaped()
      modifies mtfa, mtfbase
      ensures Valid() && list == old(list)
    {
      ghost var b0 := mtfbase[..];
      var kk := MTFA_SIZE - 1;
      for ii := 16 downto 0
        invariant kk == 3840 + 16 * ii - 1
        invariant forall l :: 0 <= l < 16 ==> mtfbase[l] == if l < ii then b0[l] else 3840 + 16 * l
        invariant Rebuilt(mtfa[..], b0, list, ii, 0)
      {
        RebuildLine(ii, kk, b0);
        kk := kk - 16;
        mtfbase[ii] := kk + 1;
      }
      RebuiltAll(mtfa[..], mtfbase[..], b0, list);
    }

    method RebuildLine(ii: nat, kk0: int, ghost b0: seq<int>)
      requires mtfa != mtfbase && mtfa.Length == MTFA_SIZE && mtfbase.Length == 16 && ii < 16
      requires kk0 == 3840 + 16 * ii + 15 && Spaced(b0) && mtfbase[ii] == b0[ii] && |list| == 256
      requires Rebuilt(mtfa[..], b0, list, ii + 1, 0)
      modifies mtfa
      ensures Rebuilt(mtfa[..], b0, list, ii, 0)
    {
      var kk := kk0;
      RebuiltNext(mtfa[..], b0, list, ii);
      for jj := 16 downto 0
        invariant kk == 3840 + 16 * ii + jj - 1
        invariant Rebuilt(mtfa[..], b0, list, ii, jj)
      {
        ghost var a := mtfa[..];
        RebuiltCell(a, b0, list, ii, jj);
        mtfa[kk] := mtfa[mtfbase[ii] + jj];
        assert mtfa[..] == a[kk := At(a, At(b0, ii) + jj)];
        kk := kk - 1;
      }
    }
  }

  lemma FrontCell(a: seq<int>, b: seq<int>, list: seq<nat>)
    requires |a| == MTFA_SIZE && Spaced(b) && Lists(a, b, list)
    ensures 0 <= b[0] < MTFA_SIZE && a[b[0]] == list[0]
  {
    SpacedBase(b, 0);
    assert Line(a, At(b, 0), 16, list, 16 * 0);
    assert At(a, b[0]) == At(list, 0);
  }

  lemma CellOf(a: seq<int>, b: seq<int>, list: seq<nat>, nn: nat)
    requires |a| == MTFA_SIZE && Spaced(b) && Lists(a, b, list) && nn < 256
    ensures 0 <= b[nn / 16] && b[nn / 16] + 16 <= MTFA_SIZE && a[b[nn / 16] + nn % 16] == list[nn]
  {
    var l := nn / 16;
    SpacedBase(b, l);
    assert Line(a, At(b, l), 16, list, 16 * l);
    assert At(a, b[l] + nn % 16) == At(list, nn);
  }

  lemma FirstCells(a: seq<int>, b: seq<int>, list: seq<nat>, nn: nat)
    requires |a| == MTFA_SIZE && Spaced(b) && Lists(a, b, list) && nn < 16
    ensures 0 <= b[0] && b[0] + 16 <= MTFA_SIZE && a[b[0] + nn] == list[nn]
  {
    CellOf(a, b, list, nn);
  }

  lemma PassCell(a: seq<int>, c: seq<int>, list: seq<nat>, goal: seq<nat>, b: seq<int>, L: int, l: int)
    requires Passing(a, c, list, goal, b, L, l) && l >= 1
    ensures 1 <= c[l] <= MTFA_SIZE && 0 <= c[l - 1] && c[l - 1] + 15 < c[l]
  {
    assert At(c, l) == PassingBase(b, L, l, l) && At(c, l - 1) == PassingBase(b, L, l, l - 1);
    SpacedBase(b, l);
    SpacedBase(b, l - 1);
    assert At(b, l - 1) + 16 * (l - (l - 1)) <= At(b, l);
  }

  /** Moving within the first line. */
  lemma FirstLineMoved(a: seq<int>, a': seq<int>, b: seq<int>, list: seq<nat>, nn: nat)
    requires |a| == |a'| == MTFA_SIZE && Spaced(b) && Lists(a, b, list) && nn < 16
    requires forall p {:trigger a'[p]} :: 0 <= p < MTFA_SIZE ==>
      a'[p] == if p == b[0] then list[nn] else if b[0] < p <= b[0] + nn then a[p - 1] else a[p]
    ensures Lists(a', b, ToFront(list, nn))
  {
    var goal := ToFront(list, nn);
    ToFrontAt(list, nn, goal);
    hide ToFront;
    forall l | 0 <= l < 16 ensures Line(a', At(b, l), 16, goal, 16 * l) {
      var base := At(b, l);
      SpacedBase(b, l);
      assert Line(a, base, 16, list, 16 * l);
      assert l > 0 ==> At(b, 0) + 16 * (l - 0) <= At(b, l);
      forall p | base <= p < base + 16 ensures At(a', p) == At(goal, 16 * l + p - base) {
        assert At(a, p) == At(list, 16 * l + p - base);
        assert p > base ==> At(a, p - 1) == At(list, 16 * l + p - 1 - base);
        assert At(goal, 16 * l + p - base) == Moved(list, nn, 16 * l + p - base);
        assert a'[p] == if p == b[0] then list[nn] else if b[0] < p <= b[0] + nn then a[p - 1] else a[p];
      }
    }
  }

  /** While rebuilding: the cells from line `ii`, entry `jj`, on have their final
      place; the entries before it are still in the old lines. */
  ghost predicate Rebuilt(a: seq<int>, b: seq<int>, list: seq<nat>, ii: int, jj: int) {
    && |a| == MTFA_SIZE && |list| == 256 && |b| == 16
    && (forall p :: 3840 + 16 * ii + jj <= p < MTFA_SIZE ==> At(a, p) == At(list, p - 3840))
    && (forall l :: 0 <= l < ii && l < 16 ==> Line(a, At(b, l), 16, list, 16 * l))
    && (ii < 16 ==> Line(a, At(b, ii), jj, list, 16 * ii))
  }

  lemma RebuiltNext(a: seq<int>, b: seq<int>, list: seq<nat>, ii: nat)
    requires Rebuilt(a, b, list, ii + 1, 0) && ii < 16
    ensures Rebuilt(a, b, list, ii, 16)
  {
  }

  lemma RebuiltCell(a: seq<int>, b: seq<int>, list: seq<nat>, ii: nat, jj: nat)
    requires Spaced(b) && ii < 16 && jj < 16 && Rebuilt(a, b, list, ii, jj + 1)
    ensures 0 <= b[ii] && b[ii] + jj < MTFA_SIZE
    ensures Rebuilt(a[3840 + 16 * ii + jj := At(a, At(b, ii) + jj)], b, list, ii, jj)
  {
    SpacedBase(b, ii);
    var kk, v := 3840 + 16 * ii + jj, At(a, At(b, ii) + jj);
    var a' := a[kk := v];
    assert v == At(list, 16 * ii + jj);
    forall p | 3840 + 16 * ii + jj <= p < MTFA_SIZE ensures At(a', p) == At(list, p - 3840) {
      if p != kk { assert At(a', p) == At(a, p); }
    }
    forall l | 0 <= l < ii && l < 16 ensures Line(a', At(b, l), 16, list, 16 * l) {
      SpacedBase(b, l);
      LineKept(a, kk, v, At(b, l), 16, list, 16 * l);
    }
    LineKept(a, kk, v, At(b, ii), jj, list, 16 * ii);
  }

  lemma RebuiltAll(a: seq<int>, c: seq<int>, b: seq<int>, list: seq<nat>)
    requires Rebuilt(a, b, list, 0, 0) && |c| == 16 && forall l :: 0 <= l < 16 ==> c[l] == 3840 + 16 * l
    ensures Spaced(c) && Lists(a, c, list) && c[0] >= 1
  {
    forall p | 3839 < p < MTFA_SIZE ensures a[p] == list[p - 3840] {
      assert At(a, p) == At(list, p - 3840);
    }
    FreshLists(a, c, list);
  }

  lemma FreshLists(a: seq<int>, b: seq<int>, list: seq<nat>)
    requires |a| == MTFA_SIZE && |b| == 16 && |list| == 256
    requires forall l :: 0 <= l < 16 ==> b[l] == 3840 + 16 * l
    requires forall p :: 3839 < p < MTFA_SIZE ==> a[p] == list[p - 3840]
    ensures Spaced(b) && Lists(a, b, list)
  {
    forall l | 0 <= l < 16 ensures Line(a, At(b, l), 16, list, 16 * l) {
      var base := 3840 + 16 * l;
      forall p | base <= p < base + 16 ensures At(a, p) == At(list, 16 * l + p - base) {}
    }
  }
}
