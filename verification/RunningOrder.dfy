/** The order in which the main sort takes the big buckets: smallest first. */
module RunningOrder {
  import opened Bits
  import opened Permutations
  import opened QuickSort
  import opened PairBuckets
  import opened ShellSort

  /** The size of a big bucket: how many positions have a given first byte. */
  function BigSize(b: seq<byte>, c: nat): nat {
    StartMonotone(b, 256 * c, 256 * (c + 1));
    Start(b, 256 * (c + 1)) - Start(b, 256 * c)
  }

  function BigSizes(b: seq<byte>): (e: seq<nat>)
    ensures |e| == 256
  {
    seq(256, c requires 0 <= c < 256 => BigSize(b, c))
  }

  ghost predicate Starts(ftab: array<nat>, b: seq<byte>)
    reads ftab
  {
    ftab.Length == PAIRS + 1 && forall x :: 0 <= x <= PAIRS ==> ftab[x] == Start(b, x)
  }

  method BigFreq(ftab: array<nat>, c: nat, ghost b: seq<byte>) returns (n: int)
    requires c < 256 && Starts(ftab, b)
    ensures n == BigSizes(b)[c]
  {
    assert BigSizes(b)[c] == Start(b, 256 * (c + 1)) - Start(b, 256 * c);
    StartMonotone(b, 256 * c, 256 * (c + 1));
    hide Start;
    n := ftab[256 * (c + 1)] - ftab[256 * c];
  }

  /** Inserts entry `i` into every `h`-th entry before it. */
  method InsertBig(ro: array<nat>, ftab: array<nat>, i: nat, h: nat, ghost b: seq<byte>)
    requires ro.Length == 256 && ro != ftab && Starts(ftab, b) && 1 <= h <= i < 256 && Entries(ro[..256], BigSizes(b))
    modifies ro
    ensures Shuffled(old(ro[..256]), ro[..256], 0, 255) && Entries(ro[..256], BigSizes(b))
    ensures h == 1 && SortedPart(old(ro[..256]), BigSizes(b), 0, i - 1) ==> SortedPart(ro[..256], BigSizes(b), 0, i)
  {
    ghost var f0, e := ro[..256], BigSizes(b);
    ghost var g := f0;
    MovingStarts(ro, e, f0, 0, 255, i, h);
    hide Shuffled, SortedPart, BigSizes, Starts, Moving, Entries, Key;
    var vv, j := ro[i], i;
    while true
      invariant h <= j <= i && Starts(ftab, b) && |g| == 256 && Moving(ro, e, f0, g, vv, 0, 255, i, j, h)
      decreases j
    {
      MovingKeys(ro, e, f0, g, vv, 0, 255, i, j, h);
      var size := BigFreq(ftab, vv, b);
      var other := BigFreq(ftab, ro[j - h], b);
      if other <= size {
        break;
      }
      g := MoveDown(ro, e, f0, g, vv, 0, 255, i, j, h);
      j := j - h;
      if j <= h - 1 {
        break;
      }
    }
    PutDown(ro, e, f0, g, vv, 0, 255, i, j, h);
  }

  lemma OneSorted(f: seq<nat>, e: seq<nat>)
    ensures SortedPart(f, e, 0, 0)
  {
  }

  /** Puts the big buckets in the order of their sizes. */
  method MakeRunningOrder(ro: array<nat>, ftab: array<nat>, ghost b: seq<byte>)
    requires ro.Length == 256 && ro != ftab && Starts(ftab, b)
    modifies ro
    ensures Permutation(ro[..256], 256) && SortedPart(ro[..256], BigSizes(b), 0, 255)
  {
    for i := 0 to 256
      invariant forall k :: 0 <= k < i ==> ro[k] == k
    {
      ro[i] := i;
    }
    ghost var f0, e := ro[..256], BigSizes(b);
    assert Entries(f0, e) && Permutation(f0, 256);
    hide Shuffled, SortedPart, Entries, BigSizes, Starts;
    assert Shuffled(f0, f0, 0, 255) by { ShuffledSame(f0, 0, 255); }
    var h := 364;
    while h != 1
      invariant h in {364, 121, 40, 13, 4, 1}
      invariant Starts(ftab, b) && Entries(ro[..256], e) && Shuffled(f0, ro[..256], 0, 255)
      invariant h == 1 ==> SortedPart(ro[..256], e, 0, 255)
    {
      h := h / 3;
      OneSorted(ro[..256], e);
      for i := h to 256
        invariant Starts(ftab, b) && Entries(ro[..256], e) && Shuffled(f0, ro[..256], 0, 255)
        invariant h == 1 ==> SortedPart(ro[..256], e, 0, i - 1)
      {
        ghost var f := ro[..256];
        InsertBig(ro, ftab, i, h, b);
        ShuffledTransitive(f0, f, ro[..256], 0, 255);
      }
    }
    ShuffledPermutation(f0, ro[..256]);
  }

  lemma ShuffledPermutation(f: seq<nat>, g: seq<nat>)
    requires Permutation(f, 256) && Shuffled(f, g, 0, 255)
    ensures Permutation(g, 256)
  {
    Rearranged(f, g, 256);
  }
}
