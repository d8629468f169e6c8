/** Permutations of the numbers below n, as sequences. */
module Permutations {

  function Iota(n: nat): (s: seq<nat>)
    ensures |s| == n
  {
    seq(n, i => i)
  }

  ghost predicate Distinct(p: seq<nat>) {
    forall i, j :: 0 <= i < j < |p| ==> p[i] != p[j]
  }

  ghost predicate InRange(p: seq<nat>, n: nat) {
    forall i :: 0 <= i < |p| ==> p[i] < n
  }

  ghost predicate Permutation(p: seq<nat>, n: nat) {
    |p| == n && InRange(p, n) && Distinct(p)
  }

  ghost function Elements(p: seq<nat>): set<nat> {
    set i | 0 <= i < |p| :: p[i]
  }

  ghost function Naturals(n: nat): (s: set<nat>)
    ensures forall i: nat :: i in s <==> i < n
  {
    if n == 0 then {} else Naturals(n - 1) + {n - 1}
  }

  lemma {:induction false} NaturalsSize(n: nat)
    ensures |Naturals(n)| == n
  {
    if n > 0 {
      NaturalsSize(n - 1);
    }
  }

  lemma {:induction false} ElementsSize(p: seq<nat>)
    requires Distinct(p)
    ensures |Elements(p)| == |p|
  {
    if p != [] {
      var m := |p| - 1;
      ElementsSize(p[..m]);
      assert Elements(p) == Elements(p[..m]) + {p[m]};
    }
  }

  lemma SubsetSize<T>(a: set<T>, b: set<T>)
    requires a <= b
    ensures |a| <= |b|
    ensures |a| == |b| ==> a == b
  {
    assert b == a + (b - a);
    if |a| == |b| {
      assert b - a == {};
    }
  }

  /** The pigeonhole principle. */
  lemma Pigeonhole(p: seq<nat>, n: nat)
    requires Distinct(p) && InRange(p, n)
    ensures |p| <= n
  {
    ElementsSize(p);
    NaturalsSize(n);
    SubsetSize(Elements(p), Naturals(n));
  }

  lemma PermutationElements(p: seq<nat>, n: nat)
    requires Permutation(p, n)
    ensures Elements(p) == Naturals(n)
  {
    ElementsSize(p);
    NaturalsSize(n);
    SubsetSize(Elements(p), Naturals(n));
  }

  lemma IndexIn(f: seq<nat>, n: nat, x: nat) returns (i: nat)
    requires Permutation(f, n) && x < n
    ensures i < n && f[i] == x
  {
    PermutationElements(f, n);
    assert x in Elements(f);
    i :| 0 <= i < |f| && f[i] == x;
  }

  lemma {:induction false} DistinctCount(p: seq<nat>, x: nat)
    requires Distinct(p)
    ensures multiset(p)[x] == if x in Elements(p) then 1 else 0
  {
    if p != [] {
      var m := |p| - 1;
      DistinctCount(p[..m], x);
      assert p == p[..m] + [p[m]];
      assert Elements(p) == Elements(p[..m]) + {p[m]};
    }
  }

  /** Two permutations of the same numbers are rearrangements of each other. */
  lemma PermutationMultiset(p: seq<nat>, q: seq<nat>, n: nat)
    requires Permutation(p, n) && Permutation(q, n)
    ensures multiset(p) == multiset(q)
  {
    PermutationElements(p, n);
    PermutationElements(q, n);
    forall x ensures multiset(p)[x] == multiset(q)[x] {
      DistinctCount(p, x);
      DistinctCount(q, x);
    }
  }

  lemma {:induction false} CountTwice(p: seq<nat>, i: nat, j: nat)
    requires i < j < |p| && p[i] == p[j]
    ensures multiset(p)[p[i]] >= 2
  {
    assert p == p[..j] + p[j..];
    assert p[..j][i] in p[..j] && p[j..][0] in p[j..];
  }

  /** A rearrangement of a permutation is a permutation. */
  lemma Rearranged(p: seq<nat>, q: seq<nat>, n: nat)
    requires Permutation(p, n) && multiset(p) == multiset(q)
    ensures Permutation(q, n)
  {
    assert |multiset(q)| == |q| && |multiset(p)| == |p|;
    forall i | 0 <= i < |q| ensures q[i] < n {
      assert q[i] in multiset(p);
    }
    forall i, j | 0 <= i < j < |q| ensures q[i] != q[j] {
      DistinctCount(p, q[i]);
      if q[i] == q[j] { CountTwice(q, i, j); }
    }
  }

  function Apply<T>(g: nat -> T, p: seq<nat>): (s: seq<T>)
    ensures |s| == |p|
  {
    seq(|p|, i requires 0 <= i < |p| => g(p[i]))
  }

  lemma Without<T>(q: seq<T>, j: nat)
    requires j < |q|
    ensures multiset(q[..j] + q[j + 1..]) == multiset(q) - multiset{q[j]}
  {
    assert q == q[..j] + ([q[j]] + q[j + 1..]);
  }

  lemma WithoutFirst<T>(q: seq<T>)
    requires q != []
    ensures multiset(q[1..]) == multiset(q) - multiset{q[0]}
    ensures q == [q[0]] + q[1..]
  {
    assert q == [q[0]] + q[1..];
  }

  lemma ApplySplit<T>(g: nat -> T, q: seq<nat>, j: nat)
    requires j < |q|
    ensures Apply(g, q)[..j] + Apply(g, q)[j + 1..] == Apply(g, q[..j] + q[j + 1..])
  {
  }

  lemma {:induction false} ApplyMultiset<T>(g: nat -> T, p: seq<nat>, q: seq<nat>)
    requires multiset(p) == multiset(q)
    ensures multiset(Apply(g, p)) == multiset(Apply(g, q))
    decreases |p|
  {
    assert |multiset(p)| == |p| && |multiset(q)| == |q|;
    if p != [] {
      assert p[0] in multiset(q);
      var j :| 0 <= j < |q| && q[j] == p[0];
      Without(q, j);
      WithoutFirst(p);
      ApplyMultiset(g, p[1..], q[..j] + q[j + 1..]);
      ApplySplit(g, q, j);
      Without(Apply(g, q), j);
      WithoutFirst(Apply(g, p));
      assert Apply(g, p)[1..] == Apply(g, p[1..]);
      hide *;
      MultisetAdd(Apply(g, p), Apply(g, q), g(p[0]));
    }
  }

  lemma MultisetAdd<T>(a: seq<T>, b: seq<T>, x: T)
    requires x in a && x in b && multiset(a) - multiset{x} == multiset(b) - multiset{x}
    ensures multiset(a) == multiset(b)
  {
    assert x in multiset(a) && x in multiset(b);
    assert multiset(a) == multiset(a) - multiset{x} + multiset{x};
    assert multiset(b) == multiset(b) - multiset{x} + multiset{x};
  }
}
