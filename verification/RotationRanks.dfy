/** The rotations of a block ranked: comparing rotations is comparing numbers. */
module RotationRanks {
  import opened Bits
  import opened Permutations
  import opened Rotations

  /** The positions whose rotations are less than that of `p`. */
  ghost function Lesser(b: seq<byte>, p: nat): (s: set<nat>)
    requires p < |b|
  {
    set q | 0 <= q < |b| && !Leq(Rotation(b, p), Rotation(b, q))
  }

  /** The rank of every rotation; equal rotations have the same rank. */
  ghost function Ranks(b: seq<byte>): (rk: seq<nat>)
    ensures |rk| == |b|
  {
    seq(|b|, p requires 0 <= p < |b| => |Lesser(b, p)|)
  }

  lemma RankOrder(b: seq<byte>, p: nat, q: nat)
    requires p < |b| && q < |b|
    ensures Ranks(b)[p] <= Ranks(b)[q] <==> Leq(Rotation(b, p), Rotation(b, q))
  {
    if Leq(Rotation(b, p), Rotation(b, q)) {
      LesserGrows(b, p, q);
      SubsetSize(Lesser(b, p), Lesser(b, q));
    } else {
      LeqTotal(Rotation(b, p), Rotation(b, q));
      LesserGrows(b, q, p);
      LeqReflexive(Rotation(b, q));
      assert q in Lesser(b, p) && q !in Lesser(b, q);
      SubsetSize(Lesser(b, q), Lesser(b, p));
    }
  }

  lemma LesserGrows(b: seq<byte>, p: nat, q: nat)
    requires p < |b| && q < |b| && Leq(Rotation(b, p), Rotation(b, q))
    ensures Lesser(b, p) <= Lesser(b, q)
  {
    forall r | r in Lesser(b, p) ensures r in Lesser(b, q) {
      if Leq(Rotation(b, q), Rotation(b, r)) {
        LeqTransitive(Rotation(b, p), Rotation(b, q), Rotation(b, r));
      }
    }
  }

  lemma RankByte(b: seq<byte>, p: nat, q: nat)
    requires p < |b| && q < |b| && b[p] < b[q]
    ensures Ranks(b)[p] < Ranks(b)[q]
  {
    RankOrder(b, q, p);
    RotationNext(b, p);
    RotationNext(b, q);
  }

  /** After equal bytes the order is that of the rotations that follow. */
  lemma RankNext(b: seq<byte>, p: nat, q: nat)
    requires p < |b| && q < |b| && b[p] == b[q]
    ensures Ranks(b)[p] <= Ranks(b)[q] <==> Ranks(b)[Next(|b|, p)] <= Ranks(b)[Next(|b|, q)]
  {
    var n := |b|;
    RankOrder(b, p, q);
    RankOrder(b, Next(n, p), Next(n, q));
    RotationNext(b, p);
    RotationNext(b, q);
    var s, t := Rotation(b, p), Rotation(b, q);
    LeqConcat(s[1..], t[1..], [s[0]], [t[0]]);
    assert Leq([s[0]], [t[0]]);
    hide Rotation;
  }

  /** The rotations of `p` and `q` begin with the same `d` bytes. */
  ghost predicate Agree(b: seq<byte>, p: nat, q: nat, d: nat) {
    p < |b| && q < |b| && Cyclic(b, p, d) == Cyclic(b, q, d)
  }

  lemma {:induction false} RankAgree(b: seq<byte>, p: nat, q: nat, d: nat)
    requires Agree(b, p, q, d)
    ensures Ranks(b)[p] <= Ranks(b)[q] <==> Ranks(b)[Ahead(|b|, p, d)] <= Ranks(b)[Ahead(|b|, q, d)]
    decreases d
  {
    if d > 0 {
      var p', q' := Next(|b|, p), Next(|b|, q);
      assert Cyclic(b, p, d)[0] == b[p] && Cyclic(b, q, d)[0] == b[q];
      assert Cyclic(b, p, d)[1..] == Cyclic(b, p', d - 1) && Cyclic(b, q, d)[1..] == Cyclic(b, q', d - 1);
      RankNext(b, p, q);
      RankAgree(b, p', q', d - 1);
    }
  }

  lemma AgreeOn(b: seq<byte>, p: nat, q: nat, d: nat)
    requires Agree(b, p, q, d) && b[Ahead(|b|, p, d)] == b[Ahead(|b|, q, d)]
    ensures Agree(b, p, q, d + 1)
  {
    CyclicSplit(b, p, d, 1);
    CyclicSplit(b, q, d, 1);
    OneMore(b, Ahead(|b|, p, d));
    OneMore(b, Ahead(|b|, q, d));
  }

  lemma OneMore(b: seq<byte>, p: nat)
    requires p < |b|
    ensures Cyclic(b, p, 1) == [b[p]]
  {
    assert Cyclic(b, p, 1) == [b[p]] + Cyclic(b, Next(|b|, p), 0);
  }

  lemma {:induction false} AgreeLess(b: seq<byte>, p: nat, q: nat, d: nat, k: nat)
    requires Agree(b, p, q, d) && k <= d
    ensures Agree(b, p, q, k)
  {
    CyclicSplit(b, p, k, d - k);
    CyclicSplit(b, q, k, d - k);
    assert Cyclic(b, p, k) == Cyclic(b, p, d)[..k] && Cyclic(b, q, k) == Cyclic(b, q, d)[..k];
  }

  lemma AgreeSame(b: seq<byte>, p: nat, q: nat, d: nat)
    requires Agree(b, p, q, d) && d >= |b|
    ensures Ranks(b)[p] == Ranks(b)[q]
  {
    var n := |b|;
    CyclicSplit(b, p, n, d - n);
    CyclicSplit(b, q, n, d - n);
    assert Cyclic(b, p, d)[..n] == Cyclic(b, p, n) && Cyclic(b, q, d)[..n] == Cyclic(b, q, n);
    LeqReflexive(Rotation(b, p));
    RankOrder(b, p, q);
    RankOrder(b, q, p);
  }

  /** Sorting by rank is sorting the rotations. */
  lemma SortedByRank(b: seq<byte>, f: seq<nat>)
    requires Permutation(f, |b|)
    requires forall i, j :: 0 <= i < j < |b| ==> Ranks(b)[f[i]] <= Ranks(b)[f[j]]
    ensures SortedRotations(b, f)
  {
    forall i, j | 0 <= i < j < |b| ensures Leq(Rotation(b, f[i]), Rotation(b, f[j])) {
      RankOrder(b, f[i], f[j]);
    }
  }
}
