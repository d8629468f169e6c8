/** Sequences that follow a recurrence, as arrays are filled with them and as they overwrite
    themselves. */
module Recurrence {

  /** Each element is made from that `n` places before, that `pos1` places after it, and the
      last two. */
  datatype Shape = Shape(n: nat, pos1: nat) {
    predicate Valid() {
      2 <= n && 0 < pos1 < n
    }
  }

  /** What the recurrence puts at place `i`. */
  function NextAt<T>(r: Shape, f: (T, T, T, T) -> T, s: seq<T>, i: int): T
    requires r.Valid() && r.n <= i <= |s|
  {
    f(s[i - r.n], s[i - r.n + r.pos1], s[i - 2], s[i - 1])
  }

  ghost predicate Made<T>(r: Shape, f: (T, T, T, T) -> T, s: seq<T>, i: int) {
    r.Valid() && r.n <= i < |s| && s[i] == NextAt(r, f, s, i)
  }

  /** A sequence goes on by the recurrence. */
  ghost predicate Follows<T>(r: Shape, f: (T, T, T, T) -> T, s: seq<T>) {
    r.Valid() && forall i :: r.n <= i < |s| ==> Made(r, f, s, i)
  }

  lemma NextLonger<T>(r: Shape, f: (T, T, T, T) -> T, s: seq<T>, t: seq<T>, i: int)
    requires r.Valid() && s <= t && r.n <= i <= |s|
    ensures NextAt(r, f, s, i) == NextAt(r, f, t, i)
    ensures i < |s| ==> (Made(r, f, s, i) <==> Made(r, f, t, i))
  {
  }

  lemma FollowsSnoc<T>(r: Shape, f: (T, T, T, T) -> T, s: seq<T>, w: T)
    requires r.Valid() && |s| >= r.n
    ensures Follows(r, f, s + [w]) <==> Follows(r, f, s) && w == NextAt(r, f, s, |s|)
  {
    hide Made, NextAt;
    var t := s + [w];
    forall i | r.n <= i < |s| ensures Made(r, f, s, i) <==> Made(r, f, t, i) {
      NextLonger(r, f, s, t, i);
    }
    NextLonger(r, f, s, t, |s|);
    MadeLast(r, f, t);
  }

  lemma MadeLast<T>(r: Shape, f: (T, T, T, T) -> T, t: seq<T>)
    requires r.Valid() && |t| > r.n
    ensures Made(r, f, t, |t| - 1) <==> t[|t| - 1] == NextAt(r, f, t, |t| - 1)
  {
  }

  /** The state, and the `k` words that follow it. */
  function Extend<T>(r: Shape, f: (T, T, T, T) -> T, s: seq<T>, k: nat): (t: seq<T>)
    requires r.Valid() && |s| >= r.n
    ensures |t| == |s| + k
  {
    if k == 0 then s
    else
      var t := Extend(r, f, s, k - 1);
      t + [NextAt(r, f, t, |t|)]
  }

  /** There is one continuation that follows the recurrence. */
  lemma {:induction false} ExtendIs<T>(r: Shape, f: (T, T, T, T) -> T, s: seq<T>, t: seq<T>, k: nat)
    requires r.Valid() && |s| == r.n && |t| == r.n + k && t[..r.n] == s
    ensures Follows(r, f, t) <==> t == Extend(r, f, s, k)
    decreases k
  {
    hide Follows, NextAt;
    if k == 0 {
      assert t[..r.n] == t;
      NothingFollows(r, f, s);
    } else {
      var u := t[..|t| - 1];
      assert t == u + [t[|t| - 1]] && u[..r.n] == s;
      ExtendIs(r, f, s, u, k - 1);
      FollowsSnoc(r, f, u, t[|t| - 1]);
      if t == Extend(r, f, s, k) { assert u == Extend(r, f, s, k - 1); }
    }
  }

  lemma NothingFollows<T>(r: Shape, f: (T, T, T, T) -> T, s: seq<T>)
    requires r.Valid() && |s| == r.n
    ensures Follows(r, f, s)
  {
  }

  function Last<T>(s: seq<T>, n: nat): seq<T>
    requires n <= |s|
  {
    s[|s| - n..]
  }

  /** Only the last words matter for those that follow, so two fills are one longer fill. */
  lemma {:induction false} ExtendTwice<T>(r: Shape, f: (T, T, T, T) -> T, s: seq<T>, j: nat, k: nat)
    requires r.Valid() && |s| == r.n
    ensures Extend(r, f, s, j + k) == Extend(r, f, s, j) + Extend(r, f, Last(Extend(r, f, s, j), r.n), k)[r.n..]
    decreases k
  {
    hide NextAt;
    var a := Extend(r, f, s, j);
    var last := Last(a, r.n);
    if k == 0 {
      assert Extend(r, f, last, 0)[r.n..] == [];
    } else {
      ExtendTwice(r, f, s, j, k - 1);
      var t, u := Extend(r, f, s, j + k - 1), Extend(r, f, last, k - 1);
      ExtendKeeps(r, f, last, k - 1);
      assert t == a[..j] + u by { assert u == last + u[r.n..] && a == a[..j] + last; }
      NextShifted(r, f, a[..j], u);
      var w := NextAt(r, f, u, |u|);
      assert (u + [w])[r.n..] == u[r.n..] + [w];
      assert t + [w] == a + (u[r.n..] + [w]);
    }
  }

  lemma NextShifted<T>(r: Shape, f: (T, T, T, T) -> T, a: seq<T>, u: seq<T>)
    requires r.Valid() && |u| >= r.n
    ensures NextAt(r, f, a + u, |a + u|) == NextAt(r, f, u, |u|)
  {
  }

  lemma LastOfTwo<T>(a: seq<T>, b: seq<T>, n: nat)
    requires n <= |b| - n
    ensures Last(a + b[n..], n) == Last(b, n)
  {
  }

  lemma {:induction false} ExtendKeeps<T>(r: Shape, f: (T, T, T, T) -> T, s: seq<T>, k: nat)
    requires r.Valid() && |s| >= r.n
    ensures Extend(r, f, s, k)[..|s|] == s
  {
    if k > 0 { ExtendKeeps(r, f, s, k - 1); }
  }

  // ----- filling an array

  /** The words of the array so far follow those of the state. */
  ghost predicate Filled<T>(r: Shape, f: (T, T, T, T) -> T, s: seq<T>, a: seq<T>, i: int, r1: T, r2: T) {
    && r.Valid() && |s| == r.n && 0 <= i <= |a| && Follows(r, f, s + a[..i])
    && r1 == (s + a[..i])[r.n + i - 2] && r2 == (s + a[..i])[r.n + i - 1]
  }

  /** One word more. */
  lemma FilledOn<T>(r: Shape, f: (T, T, T, T) -> T, s: seq<T>, a: seq<T>, i: nat, r1: T, r2: T, b: seq<T>, w: T)
    requires Filled(r, f, s, a, i, r1, r2) && i < |a| && b == a[i := w]
    requires w == f(if i < r.n then s[i] else a[i - r.n],
                       if i + r.pos1 < r.n then s[i + r.pos1] else a[i + r.pos1 - r.n], r1, r2)
    ensures Filled(r, f, s, b, i + 1, r2, w)
  {
    hide Follows, NextAt;
    var t := s + a[..i];
    assert s + b[..i + 1] == t + [w];
    WordsAt(r, f, s, a, i);
    FollowsSnoc(r, f, t, w);
  }

  lemma WordsAt<T>(r: Shape, f: (T, T, T, T) -> T, s: seq<T>, a: seq<T>, i: nat)
    requires r.Valid() && |s| == r.n && i < |a|
    ensures var t := s + a[..i];
      NextAt(r, f, t, |t|) == f(if i < r.n then s[i] else a[i - r.n],
                                if i + r.pos1 < r.n then s[i + r.pos1] else a[i + r.pos1 - r.n],
                                t[r.n + i - 2], t[r.n + i - 1])
  {
  }

  /** Fills the array but for its last `n` words, or its first `n` words if these are more. */
  method FillFront<T>(r: Shape, f: (T, T, T, T) -> T, state: array<T>, a: array<T>, size: nat)
    returns (i: nat, r1: T, r2: T)
    requires r.Valid() && state.Length == r.n && r.n <= size == a.Length && state != a
    modifies a
    ensures Filled(r, f, state[..], a[..], i, r1, r2) && i == if size < 2 * r.n then r.n else size - r.n
  {
    hide Filled;
    ghost var s := state[..];
    var n := r.n;
    i := 0;
    r1, r2 := state[n - 2], state[n - 1];
    FilledStarts(r, f, s, a[..]);
    while i < n - r.pos1
      invariant 0 <= i <= n - r.pos1 && state[..] == s && Filled(r, f, s, a[..], i, r1, r2)
    {
      ghost var before := a[..];
      a[i] := f(state[i], state[i + r.pos1], r1, r2);
      FilledOn(r, f, s, before, i, r1, r2, a[..], a[i]);
      r1 := r2;
      r2 := a[i];
      i := i + 1;
    }
    while i < n
      invariant n - r.pos1 <= i <= n && state[..] == s && Filled(r, f, s, a[..], i, r1, r2)
    {
      ghost var before := a[..];
      a[i] := f(state[i], a[i + r.pos1 - n], r1, r2);
      FilledOn(r, f, s, before, i, r1, r2, a[..], a[i]);
      r1 := r2;
      r2 := a[i];
      i := i + 1;
    }
    while i < size - n
      invariant n <= i <= size && (i <= size - n || i == n) && state[..] == s && Filled(r, f, s, a[..], i, r1, r2)
    {
      ghost var before := a[..];
      a[i] := f(a[i - n], a[i + r.pos1 - n], r1, r2);
      FilledOn(r, f, s, before, i, r1, r2, a[..], a[i]);
      r1 := r2;
      r2 := a[i];
      i := i + 1;
    }
  }

  /** Fills the array with the words that follow the state, and keeps the last ones as the new
      state. */
  method GenRandArray<T>(r: Shape, f: (T, T, T, T) -> T, state: array<T>, a: array<T>, size: nat)
    requires r.Valid() && state.Length == r.n && r.n <= size == a.Length && state != a
    modifies state, a
    ensures old(state[..]) + a[..] == Extend(r, f, old(state[..]), size)
    ensures state[..] == Last(Extend(r, f, old(state[..]), size), r.n)
  {
    hide Filled;
    ghost var s := state[..];
    var n := r.n;
    var i, r1, r2 := FillFront(r, f, state, a, size);
    var j := 0;
    while j < 2 * n - size
      invariant 0 <= j && (j <= 2 * n - size || j == 0) && Filled(r, f, s, a[..], i, r1, r2)
      invariant forall k :: 0 <= k < j ==> state[k] == a[k + size - n]
    {
      state[j] := a[j + size - n];
      j := j + 1;
    }
    while i < size
      invariant n <= i <= size && j == i - (size - n) && Filled(r, f, s, a[..], i, r1, r2)
      invariant forall k :: 0 <= k < j ==> state[k] == a[k + size - n]
    {
      ghost var before := a[..];
      a[i] := f(a[i - n], a[i + r.pos1 - n], r1, r2);
      FilledOn(r, f, s, before, i, r1, r2, a[..], a[i]);
      r1 := r2;
      r2 := a[i];
      state[j] := a[i];
      i, j := i + 1, j + 1;
    }
    FilledEnds(r, f, s, a[..], size, r1, r2);
    assert state[..] == a[size - n..];
  }

  lemma FilledStarts<T>(r: Shape, f: (T, T, T, T) -> T, s: seq<T>, a: seq<T>)
    requires r.Valid() && |s| == r.n
    ensures Filled(r, f, s, a, 0, s[r.n - 2], s[r.n - 1])
  {
    assert s + a[..0] == s;
  }

  lemma FilledEnds<T>(r: Shape, f: (T, T, T, T) -> T, s: seq<T>, a: seq<T>, size: nat, r1: T, r2: T)
    requires Filled(r, f, s, a, size, r1, r2) && size == |a| >= r.n
    ensures s + a == Extend(r, f, s, size) && Last(Extend(r, f, s, size), r.n) == a[size - r.n..]
  {
    hide Follows;
    assert a[..size] == a && (s + a)[..r.n] == s;
    ExtendIs(r, f, s, s + a, size);
  }

  // ----- the state in place

  /** Refills the state: each word is overwritten by the one `n` places later. */
  method SfmtGenRandAll<T>(r: Shape, f: (T, T, T, T) -> T, state: array<T>)
    requires r.Valid() && state.Length == r.n
    modifies state
    ensures state[..] == Last(Extend(r, f, old(state[..]), r.n), r.n)
  {
    hide Filled;
    ghost var s := state[..];
    var n, i := r.n, 0;
    var r1, r2 := state[n - 2], state[n - 1];
    FilledStarts(r, f, s, state[..]);
    while i < n - r.pos1
      invariant 0 <= i <= n - r.pos1 && Filled(r, f, s, state[..], i, r1, r2)
      invariant forall k :: i <= k < n ==> state[k] == s[k]
    {
      ghost var before := state[..];
      state[i] := f(state[i], state[i + r.pos1], r1, r2);
      FilledOn(r, f, s, before, i, r1, r2, state[..], state[i]);
      r1 := r2;
      r2 := state[i];
      i := i + 1;
    }
    while i < n
      invariant n - r.pos1 <= i <= n && Filled(r, f, s, state[..], i, r1, r2)
      invariant forall k :: i <= k < n ==> state[k] == s[k]
    {
      ghost var before := state[..];
      state[i] := f(state[i], state[i + r.pos1 - n], r1, r2);
      FilledOn(r, f, s, before, i, r1, r2, state[..], state[i]);
      r1 := r2;
      r2 := state[i];
      i := i + 1;
    }
    FilledEnds(r, f, s, state[..], n, r1, r2);
  }
}
