/** Stable sorting of positions by a small key: the order in which codes are
    numbered, and the order of the rows in the inverse block sort. */
module CountingSort {

  /** The positions below `n` that have the given key, in order. */
  function Select(keys: seq<nat>, n: nat, key: nat): (s: seq<nat>)
    requires n <= |keys|
    ensures |s| <= n
  {
    if n == 0 then []
    else Select(keys, n - 1, key) + (if keys[n - 1] == key then [n - 1] else [])
  }

  function Count(keys: seq<nat>, key: nat): nat {
    |Select(keys, |keys|, key)|
  }

  /** The positions that have a smaller key than the given one, by key and then
      by position. */
  function ByKey(keys: seq<nat>, key: nat): seq<nat> {
    if key == 0 then [] else ByKey(keys, key - 1) + Select(keys, |keys|, key - 1)
  }

  /** How many positions before `s` have the same key. */
  function Rank(keys: seq<nat>, s: nat): nat
    requires s < |keys|
  {
    |Select(keys, s, keys[s])|
  }

  /** Where `s` comes in the sorted order. */
  function Position(keys: seq<nat>, s: nat): nat
    requires s < |keys|
  {
    |ByKey(keys, keys[s])| + Rank(keys, s)
  }

  lemma {:induction false} SelectPrefix(keys: seq<nat>, m: nat, n: nat, key: nat)
    requires m <= n <= |keys|
    ensures |Select(keys, m, key)| <= |Select(keys, n, key)|
    ensures Select(keys, n, key)[..|Select(keys, m, key)|] == Select(keys, m, key)
  {
    if m < n {
      SelectPrefix(keys, m, n - 1, key);
    }
  }

  lemma SelectRank(keys: seq<nat>, s: nat)
    requires s < |keys|
    ensures Rank(keys, s) < Count(keys, keys[s])
    ensures Select(keys, |keys|, keys[s])[Rank(keys, s)] == s
  {
    SelectPrefix(keys, s + 1, |keys|, keys[s]);
    var all := Select(keys, |keys|, keys[s]);
    var some := Select(keys, s + 1, keys[s]);
    assert some[Rank(keys, s)] == s;
    assert all[..|some|][Rank(keys, s)] == s;
  }

  lemma {:induction false} ByKeyPrefix(keys: seq<nat>, l: nat, m: nat)
    requires l <= m
    ensures |ByKey(keys, l)| <= |ByKey(keys, m)|
    ensures ByKey(keys, m)[..|ByKey(keys, l)|] == ByKey(keys, l)
  {
    if l < m {
      ByKeyPrefix(keys, l, m - 1);
    }
  }

  lemma ConcatAt<T>(a: seq<T>, b: seq<T>, k: nat, all: seq<T>)
    requires k < |b| && |a| + |b| <= |all| && all[..|a| + |b|] == a + b
    ensures all[|a| + k] == b[k]
  {
    assert (a + b)[|a| + k] == b[k];
  }

  /** The number of positions below `n` with a smaller key. */
  function CountBelow(keys: seq<nat>, n: nat, key: nat): (c: nat)
    requires n <= |keys|
    ensures c <= n
  {
    if n == 0 then 0 else CountBelow(keys, n - 1, key) + (if keys[n - 1] < key then 1 else 0)
  }

  lemma {:induction false} CountBelowStep(keys: seq<nat>, n: nat, key: nat)
    requires n <= |keys|
    ensures CountBelow(keys, n, key + 1) == CountBelow(keys, n, key) + |Select(keys, n, key)|
    ensures CountBelow(keys, n, 0) == 0
  {
    if n > 0 { CountBelowStep(keys, n - 1, key); }
  }

  lemma {:induction false} ByKeySize(keys: seq<nat>, key: nat)
    ensures |ByKey(keys, key)| == CountBelow(keys, |keys|, key) <= |keys|
  {
    CountBelowStep(keys, |keys|, if key == 0 then 0 else key - 1);
    if key > 0 {
      ByKeySize(keys, key - 1);
      assert |ByKey(keys, key)| == |ByKey(keys, key - 1)| + |Select(keys, |keys|, key - 1)|;
    }
  }

  lemma {:induction false} SelectAt(keys: seq<nat>, n: nat, key: nat, k: nat)
    requires n <= |keys| && k < |Select(keys, n, key)|
    ensures var s := Select(keys, n, key)[k]; s < n && keys[s] == key && Rank(keys, s) == k
  {
    if k < |Select(keys, n - 1, key)| {
      SelectAt(keys, n - 1, key, k);
    }
  }

  /** The position of the k-th in the order is k. */
  lemma {:induction false} ByKeyAt(keys: seq<nat>, key: nat, k: nat)
    requires k < |ByKey(keys, key)|
    ensures var s := ByKey(keys, key)[k]; s < |keys| && keys[s] < key && Position(keys, s) == k
  {
    var n := |ByKey(keys, key - 1)|;
    if k < n {
      ByKeyAt(keys, key - 1, k);
    } else {
      SelectAt(keys, |keys|, key - 1, k - n);
    }
  }

  /** The order has each position at its place. */
  lemma ByKeyPosition(keys: seq<nat>, key: nat, s: nat)
    requires s < |keys| && keys[s] < key
    ensures Position(keys, s) < |ByKey(keys, key)| && ByKey(keys, key)[Position(keys, s)] == s
  {
    SelectRank(keys, s);
    ByKeyPrefix(keys, keys[s] + 1, key);
    hide Select;
    ConcatAt(ByKey(keys, keys[s]), Select(keys, |keys|, keys[s]), Rank(keys, s), ByKey(keys, key));
  }

  /** The order is by key, and positions of the same key keep their order. */
  lemma PositionOrder(keys: seq<nat>, s: nat, t: nat)
    requires s < |keys| && t < |keys| && Position(keys, s) < Position(keys, t)
    ensures keys[s] < keys[t] || (keys[s] == keys[t] && s < t)
  {
    hide Select;
    SelectRank(keys, t);
    if keys[t] < keys[s] {
      ByKeyPrefix(keys, keys[t] + 1, keys[s]);
    } else if keys[s] == keys[t] && t <= s {
      SelectPrefix(keys, t, s, keys[s]);
    }
  }
}
