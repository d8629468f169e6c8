/** Scanning a sorted big bucket: the positions one step back, taken in the order of
    the scan, are in order, and together they fill all small buckets whose second byte
    is that of the big bucket, its own included. */
module BucketScan {
  import opened Bits
  import opened CountingSort
  import opened Permutations
  import opened Rotations
  import opened RotationRanks
  import opened PairBuckets

  // ----- one step back

  /** The positions one step before those of a list, as far as they hold byte `t`. */
  function Preds(b: seq<byte>, l: seq<nat>, t: int): (s: seq<nat>)
    ensures |s| <= |l|
  {
    if l == [] then []
    else
      var m := |l| - 1;
      Preds(b, l[..m], t) + (if l[m] < |b| && b[Previous(|b|, l[m])] == t then [Previous(|b|, l[m])] else [])
  }

  lemma PredsPush(b: seq<byte>, l: seq<nat>, p: nat, t: int)
    requires p < |b|
    ensures Preds(b, l + [p], t) == Preds(b, l, t) + if b[Previous(|b|, p)] == t then [Previous(|b|, p)] else []
  {
    assert (l + [p])[..|l|] == l;
  }

  /** Where an element comes from. */
  lemma {:induction false} PredFrom(b: seq<byte>, l: seq<nat>, t: int, i: nat) returns (j: nat)
    requires i < |Preds(b, l, t)|
    ensures j < |l| && l[j] < |b| && Preds(b, l, t)[i] == Previous(|b|, l[j]) && b[Preds(b, l, t)[i]] == t
  {
    var m := |l| - 1;
    if i < |Preds(b, l[..m], t)| {
      j := PredFrom(b, l[..m], t, i);
    } else {
      j := m;
    }
  }

  lemma {:induction false} PredsHold(b: seq<byte>, l: seq<nat>, t: int, j: nat)
    requires j < |l| && l[j] < |b| && b[Previous(|b|, l[j])] == t
    ensures Previous(|b|, l[j]) in Preds(b, l, t)
  {
    var m := |l| - 1;
    if j < m {
      PredsHold(b, l[..m], t, j);
    }
  }

  lemma PreviousNext(n: nat, p: nat)
    requires p < n
    ensures Previous(n, Next(n, p)) == p && Next(n, Previous(n, p)) == p
  {
  }

  lemma {:induction false} PredsDistinct(b: seq<byte>, l: seq<nat>, t: int)
    requires Distinct(l)
    ensures Distinct(Preds(b, l, t))
  {
    if l != [] {
      var m := |l| - 1;
      PredsDistinct(b, l[..m], t);
      if l[m] < |b| {
        forall i | 0 <= i < |Preds(b, l[..m], t)| ensures Preds(b, l[..m], t)[i] != Previous(|b|, l[m]) {
          var j := PredFrom(b, l[..m], t, i);
          PreviousNext(|b|, l[j]);
          PreviousNext(|b|, l[m]);
        }
      }
    }
  }

  /** `p` comes before `q` going up, or going down. */
  ghost predicate Before(b: seq<byte>, down: bool, p: nat, q: nat) {
    p < |b| && q < |b| && if down then Ranks(b)[q] <= Ranks(b)[p] else Ranks(b)[p] <= Ranks(b)[q]
  }

  ghost predicate InOrder(b: seq<byte>, down: bool, l: seq<nat>) {
    forall i, j :: 0 <= i < j < |l| ==> Before(b, down, l[i], l[j])
  }

  lemma BeforeNext(b: seq<byte>, down: bool, p: nat, q: nat)
    requires p < |b| && q < |b| && b[p] == b[q]
    ensures Before(b, down, p, q) <==> Before(b, down, Next(|b|, p), Next(|b|, q))
  {
    RankNext(b, p, q);
    RankNext(b, q, p);
  }

  lemma {:induction false} PredsInOrder(b: seq<byte>, down: bool, l: seq<nat>, t: int)
    requires InOrder(b, down, l)
    ensures InOrder(b, down, Preds(b, l, t))
  {
    if l != [] {
      var m := |l| - 1;
      var some := Preds(b, l[..m], t);
      PredsInOrder(b, down, l[..m], t);
      if l[m] < |b| && b[Previous(|b|, l[m])] == t {
        forall i | 0 <= i < |some| ensures Before(b, down, some[i], Previous(|b|, l[m])) {
          var j := PredFrom(b, l[..m], t, i);
          BeforeNext(b, down, some[i], Previous(|b|, l[m]));
          PreviousNext(|b|, l[j]);
          PreviousNext(|b|, l[m]);
          assert Before(b, down, l[j], l[m]);
        }
      }
    }
  }

  // ----- runs of one byte

  /** The first of `m` bytes from position `p` on that is not `c`; `c` when there is none. */
  function After(b: seq<byte>, c: byte, p: nat, m: nat): byte
    requires p < |b|
    decreases m
  {
    if m == 0 then c else if b[p] != c then b[p] else After(b, c, Next(|b|, p), m - 1)
  }

  lemma {:induction false} AfterMore(b: seq<byte>, c: byte, p: nat, m: nat)
    requires p < |b|
    ensures After(b, c, p, m + 1) == if After(b, c, p, m) != c then After(b, c, p, m) else b[Ahead(|b|, p, m)]
    decreases m
  {
    if m > 0 && b[p] == c {
      AfterMore(b, c, Next(|b|, p), m - 1);
    }
  }

  /** A run is followed by the same byte, wherever in the run one begins. */
  lemma AfterRun(b: seq<byte>, c: byte, p: nat)
    requires p < |b| && b[p] == c
    ensures After(b, c, p, |b|) == After(b, c, Next(|b|, p), |b|)
  {
    var n := |b|;
    AfterMore(b, c, Next(n, p), n - 1);
    AheadIs(n, Next(n, p), n - 1);
  }

  lemma {:induction false} AfterNone(b: seq<byte>, c: byte, p: nat, m: nat, k: nat)
    requires p < |b| && After(b, c, p, m) == c && k < m
    ensures b[Ahead(|b|, p, k)] == c
    decreases m
  {
    if k > 0 { AfterNone(b, c, Next(|b|, p), m - 1, k - 1); }
  }

  /** When some byte differs from `c`, every run of `c` comes to an end. */
  lemma AfterSome(b: seq<byte>, c: byte, p: nat, o: nat)
    requires p < |b| && o < |b| && b[o] != c
    ensures After(b, c, p, |b|) != c
  {
    if After(b, c, p, |b|) == c {
      var k := if p <= o then o - p else o - p + |b|;
      AfterNone(b, c, p, |b|, k);
      AheadIs(|b|, p, k);
    }
  }

  lemma {:induction false} AfterSame(b: seq<byte>, c: byte, p: nat, m: nat)
    requires p < |b| && forall i :: 0 <= i < |b| ==> b[i] == c
    ensures After(b, c, p, m) == c
    decreases m
  {
    if m > 0 { AfterSame(b, c, Next(|b|, p), m - 1); }
  }

  /** A run that is followed by a smaller byte comes before one that is followed by a
      greater one. */
  lemma {:induction false} RunsOrder(b: seq<byte>, c: byte, p: nat, q: nat, m: nat)
    requires p < |b| && q < |b| && b[p] == c && b[q] == c
    requires After(b, c, p, m) < c < After(b, c, q, m)
    ensures Ranks(b)[p] < Ranks(b)[q]
    decreases m
  {
    var p', q' := Next(|b|, p), Next(|b|, q);
    RankNext(b, q, p);
    if b[p'] == c && b[q'] == c {
      RunsOrder(b, c, p', q', m - 1);
    } else {
      RankByte(b, p', q');
    }
  }

  // ----- the list of a scan

  /** The run at `p` is followed by a smaller byte, or by a greater one. */
  predicate Side(b: seq<byte>, c: byte, down: bool, p: nat) {
    p < |b| && b[p] == c && if down then After(b, c, p, |b|) > c else After(b, c, p, |b|) < c
  }

  /** The part of the big bucket that a scan begins with, in its order. */
  ghost predicate Firsts(b: seq<byte>, c: byte, down: bool, first: seq<nat>) {
    && Distinct(first) && InOrder(b, down, first)
    && forall i :: 0 <= i < |first| ==> first[i] < |b| && b[first[i]] == c && Beside(b, c, down, first[i])
  }

  predicate Beside(b: seq<byte>, c: byte, down: bool, p: nat)
    requires p < |b|
  {
    if down then b[Next(|b|, p)] > c else b[Next(|b|, p)] < c
  }

  /** What a scan has come by: the first part, and then what it has itself found. */
  ghost predicate Scanned(b: seq<byte>, c: byte, down: bool, first: seq<nat>, l: seq<nat>) {
    && |l| <= |first| + |Preds(b, l, c)| && l == (first + Preds(b, l, c))[..|l|]
    && Distinct(l) && InOrder(b, down, l) && forall i :: 0 <= i < |l| ==> Side(b, c, down, l[i])
  }

  lemma ScanStarts(b: seq<byte>, c: byte, down: bool, first: seq<nat>)
    ensures Scanned(b, c, down, first, [])
  {
  }

  lemma BesideSide(b: seq<byte>, c: byte, down: bool, p: nat)
    requires p < |b| && b[p] == c && Beside(b, c, down, p)
    ensures Side(b, c, down, p)
  {
    AfterRun(b, c, p);
  }

  lemma SideBack(b: seq<byte>, c: byte, down: bool, p: nat)
    requires Side(b, c, down, p) && b[Previous(|b|, p)] == c
    ensures Side(b, c, down, Previous(|b|, p))
  {
    PreviousNext(|b|, p);
    AfterRun(b, c, Previous(|b|, p));
  }

  /** What begins the scan comes before what the scan finds. */
  lemma FirstBefore(b: seq<byte>, c: byte, down: bool, p: nat, q: nat)
    requires p < |b| && q < |b| && b[p] == c && b[q] == c && Beside(b, c, down, p) && b[Next(|b|, q)] == c
    ensures Before(b, down, p, q) && p != q
  {
    BeforeNext(b, down, p, q);
    if down {
      RankByte(b, Next(|b|, q), Next(|b|, p));
    } else {
      RankByte(b, Next(|b|, p), Next(|b|, q));
    }
  }

  lemma ScannedNext(b: seq<byte>, c: byte, down: bool, first: seq<nat>, l: seq<nat>, x: nat)
    requires Firsts(b, c, down, first) && Scanned(b, c, down, first, l)
    requires |l| < |first| + |Preds(b, l, c)| && x == (first + Preds(b, l, c))[|l|]
    ensures Side(b, c, down, x) && forall i :: 0 <= i < |l| ==> Before(b, down, l[i], x) && l[i] != x
  {
    var found, k := Preds(b, l, c), |l| - |first|;
    if k < 0 {
      BesideSide(b, c, down, x);
    } else {
      var j := PredFrom(b, l, c, k);
      SideBack(b, c, down, l[j]);
      PreviousNext(|b|, l[j]);
      PredsDistinct(b, l, c);
      PredsInOrder(b, down, l, c);
      forall i | 0 <= i < |l| ensures Before(b, down, l[i], x) && l[i] != x {
        if i < |first| {
          assert l[i] == first[i];
          FirstBefore(b, c, down, l[i], x);
        } else {
          assert l[i] == found[i - |first|];
        }
      }
    }
  }

  /** A scan takes its next position. */
  lemma ScanOn(b: seq<byte>, c: byte, down: bool, first: seq<nat>, l: seq<nat>, x: nat)
    requires Firsts(b, c, down, first) && Scanned(b, c, down, first, l)
    requires |l| < |first| + |Preds(b, l, c)| && x == (first + Preds(b, l, c))[|l|]
    ensures x < |b| && Scanned(b, c, down, first, l + [x])
  {
    ScannedNext(b, c, down, first, l, x);
    PredsPush(b, l, x, c);
    hide Before, Ranks, Preds, Side;
    TakeNext(first, Preds(b, l, c), Preds(b, l + [x], c), l, x);
  }

  lemma TakeNext(first: seq<nat>, found: seq<nat>, found': seq<nat>, l: seq<nat>, x: nat)
    requires |l| < |first| + |found| && l == (first + found)[..|l|] && x == (first + found)[|l|]
    requires |found| <= |found'| && found'[..|found|] == found
    ensures l + [x] == (first + found')[..|l| + 1]
  {
    assert first + found' == first + found + found'[|found|..];
  }

  // ----- what the two scans fill

  /** The two scans of a big bucket. */
  ghost predicate Scans(b: seq<byte>, c: byte, up: seq<nat>, dn: seq<nat>, l: seq<nat>, r: seq<nat>) {
    && Firsts(b, c, false, up) && Scanned(b, c, false, up, l)
    && Firsts(b, c, true, dn) && Scanned(b, c, true, dn, r)
  }

  /** All positions that a small bucket gets from the two scans. */
  function Gained(b: seq<byte>, l: seq<nat>, r: seq<nat>, t: int): seq<nat> {
    Preds(b, l, t) + Preds(b, r, t)
  }

  lemma GainedPair(b: seq<byte>, c: byte, up: seq<nat>, dn: seq<nat>, l: seq<nat>, r: seq<nat>, t: byte, i: nat)
    requires Scans(b, c, up, dn, l, r) && i < |Gained(b, l, r, t)|
    ensures var p := Gained(b, l, r, t)[i]; p < |b| && Pair(b, p) == 256 * (t as int) + c && b[p] == t
    ensures var p := Gained(b, l, r, t)[i];
      if i < |Preds(b, l, t)| then Next(|b|, p) in l && Side(b, c, false, Next(|b|, p))
      else Next(|b|, p) in r && Side(b, c, true, Next(|b|, p))
  {
    var k := |Preds(b, l, t)|;
    if i < k {
      var j := PredFrom(b, l, t, i);
      PreviousNext(|b|, l[j]);
      assert Side(b, c, false, l[j]);
    } else {
      var j := PredFrom(b, r, t, i - k);
      PreviousNext(|b|, r[j]);
      assert Side(b, c, true, r[j]);
    }
  }

  lemma GainedDistinct(b: seq<byte>, c: byte, up: seq<nat>, dn: seq<nat>, l: seq<nat>, r: seq<nat>, t: byte)
    requires Scans(b, c, up, dn, l, r)
    ensures Distinct(Gained(b, l, r, t))
  {
    var u, k := Gained(b, l, r, t), |Preds(b, l, t)|;
    PredsDistinct(b, l, t);
    PredsDistinct(b, r, t);
    forall i, j | 0 <= i < j < |u| ensures u[i] != u[j] {
      if i < k <= j {
        GainedPair(b, c, up, dn, l, r, t, i);
        GainedPair(b, c, up, dn, l, r, t, j);
      }
    }
  }

  // ----- the positions of one small bucket

  lemma BucketElements(b: seq<byte>, x: nat)
    ensures var s := Select(Pairs(b), |b|, x); Distinct(s) && forall p: nat ::
      p in Elements(s) <==> p < |b| && Pair(b, p) == x
  {
    var keys := Pairs(b);
    var s := Select(keys, |b|, x);
    forall i | 0 <= i < |s| ensures s[i] < |b| && keys[s[i]] == x && CountingSort.Rank(keys, s[i]) == i {
      SelectAt(keys, |b|, x, i);
    }
    forall p: nat | p < |b| && Pair(b, p) == x ensures p in Elements(s) {
      assert keys[p] == x;
      SelectRank(keys, p);
      assert s[CountingSort.Rank(keys, p)] == p;
    }
  }

  /** Different positions of a bucket are no more than it has. */
  lemma BucketRoom(b: seq<byte>, x: nat, u: seq<nat>)
    requires Distinct(u) && forall i :: 0 <= i < |u| ==> u[i] < |b| && Pair(b, u[i]) == x
    ensures |u| <= SoFar(b, |b|, x)
    ensures (forall p: nat :: p < |b| && Pair(b, p) == x ==> p in u) ==> |u| == SoFar(b, |b|, x)
  {
    var s := Select(Pairs(b), |b|, x);
    BucketElements(b, x);
    ElementsSize(u);
    ElementsSize(s);
    hide Select, Pair;
    SubsetSize(Elements(u), Elements(s));
    if forall p: nat :: p < |b| && Pair(b, p) == x ==> p in u {
      forall p | p in Elements(s) ensures p in Elements(u) {
        assert p in u;
      }
      assert Elements(s) == Elements(u);
    }
  }

  /** The scans never run out of room. */
  lemma RoomLeft(b: seq<byte>, c: byte, up: seq<nat>, dn: seq<nat>, l: seq<nat>, r: seq<nat>, t: byte)
    requires Scans(b, c, up, dn, l, r)
    ensures |Preds(b, l, t)| + |Preds(b, r, t)| <= SoFar(b, |b|, 256 * (t as int) + c)
  {
    hide Scans, Preds, Pair, Side, SoFar, Distinct;
    var u := Gained(b, l, r, t);
    GainedDistinct(b, c, up, dn, l, r, t);
    forall i | 0 <= i < |u| ensures u[i] < |b| && Pair(b, u[i]) == 256 * (t as int) + c {
      GainedPair(b, c, up, dn, l, r, t, i);
    }
    BucketRoom(b, 256 * (t as int) + c, u);
  }

  /** A scan begins with all positions of the big bucket on its side. */
  ghost predicate AllFirsts(b: seq<byte>, c: byte, down: bool, first: seq<nat>) {
    forall p: nat :: p < |b| && b[p] == c && Beside(b, c, down, p) ==> p in first
  }

  /** A scan that has come to its end has found every run on its side. */
  lemma {:induction false} AllFound(b: seq<byte>, c: byte, down: bool, first: seq<nat>, l: seq<nat>, p: nat, m: nat)
    requires AllFirsts(b, c, down, first) && l == first + Preds(b, l, c)
    requires p < |b| && b[p] == c && if down then After(b, c, p, m) > c else After(b, c, p, m) < c
    ensures p in l
    decreases m
  {
    var q := Next(|b|, p);
    if b[q] == c {
      AllFound(b, c, down, first, l, q, m - 1);
      var j :| 0 <= j < |l| && l[j] == q;
      PreviousNext(|b|, p);
      PredsHold(b, l, c, j);
    }
  }

  /** Both scans have come to their ends. */
  ghost predicate Ended(b: seq<byte>, c: byte, up: seq<nat>, dn: seq<nat>, l: seq<nat>, r: seq<nat>) {
    && Scans(b, c, up, dn, l, r) && AllFirsts(b, c, false, up) && AllFirsts(b, c, true, dn)
    && l == up + Preds(b, l, c) && r == dn + Preds(b, r, c)
  }

  /** Unless all bytes are the same, the scans fill every small bucket. */
  lemma AllFilled(b: seq<byte>, c: byte, up: seq<nat>, dn: seq<nat>, l: seq<nat>, r: seq<nat>, t: byte, o: nat)
    requires Ended(b, c, up, dn, l, r) && o < |b| && b[o] != c
    ensures |Preds(b, l, t)| + |Preds(b, r, t)| == SoFar(b, |b|, 256 * (t as int) + c)
  {
    hide Ended, Scans, Preds, Pair, Side, SoFar, Distinct;
    var u := Gained(b, l, r, t);
    EndedScans(b, c, up, dn, l, r);
    GainedDistinct(b, c, up, dn, l, r, t);
    forall i | 0 <= i < |u| ensures u[i] < |b| && Pair(b, u[i]) == 256 * (t as int) + c {
      GainedPair(b, c, up, dn, l, r, t, i);
    }
    forall p: nat | p < |b| && Pair(b, p) == 256 * (t as int) + c ensures p in u {
      PositionGained(b, c, up, dn, l, r, t, o, p);
    }
    BucketRoom(b, 256 * (t as int) + c, u);
  }

  lemma EndedScans(b: seq<byte>, c: byte, up: seq<nat>, dn: seq<nat>, l: seq<nat>, r: seq<nat>)
    requires Ended(b, c, up, dn, l, r)
    ensures Scans(b, c, up, dn, l, r)
  {
  }

  lemma PositionGained(b: seq<byte>, c: byte, up: seq<nat>, dn: seq<nat>, l: seq<nat>, r: seq<nat>, t: byte, o: nat,
          p: nat)
    requires Ended(b, c, up, dn, l, r) && o < |b| && b[o] != c && p < |b| && Pair(b, p) == 256 * (t as int) + c
    ensures p in Gained(b, l, r, t)
  {
    var q := Next(|b|, p);
    AfterSome(b, c, q, o);
    PreviousNext(|b|, p);
    var down := After(b, c, q, |b|) > c;
    AllFound(b, c, down, if down then dn else up, if down then r else l, q, |b|);
    if down {
      var j :| 0 <= j < |r| && r[j] == q;
      PredsHold(b, r, t, j);
    } else {
      var j :| 0 <= j < |l| && l[j] == q;
      PredsHold(b, l, t, j);
    }
  }

  /** What the upward scan finds comes before what the downward scan finds. */
  lemma GainedBetween(b: seq<byte>, c: byte, up: seq<nat>, dn: seq<nat>, l: seq<nat>, r: seq<nat>, t: byte, i: nat,
          j: nat)
    requires Scans(b, c, up, dn, l, r) && i < |Preds(b, l, t)| && j < |Preds(b, r, t)|
    ensures Before(b, false, Preds(b, l, t)[i], Preds(b, r, t)[j])
  {
    var p, q := Preds(b, l, t)[i], Preds(b, r, t)[j];
    assert Gained(b, l, r, t)[i] == p && Gained(b, l, r, t)[|Preds(b, l, t)| + j] == q;
    GainedPair(b, c, up, dn, l, r, t, i);
    GainedPair(b, c, up, dn, l, r, t, |Preds(b, l, t)| + j);
    RunsOrder(b, c, Next(|b|, p), Next(|b|, q), |b|);
    BeforeNext(b, false, p, q);
  }
}
