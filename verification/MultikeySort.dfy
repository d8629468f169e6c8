/** The multikey quicksort of the main sort: it splits pointers by one byte of their
    rotations at a time, in place, with an explicit stack. */
module MultikeySort {
  import opened Bits
  import opened Wrappers
  import opened Permutations
  import opened Rotations
  import opened RotationRanks
  import opened MainCompare
  import opened ShellSort
  import opened QuickSort

  const MAIN_SMALL_THRESH := 20
  const MAIN_DEPTH_THRESH := N_RADIX + N_QSORT
  const MAIN_STACK_SIZE := 100

  // ----- one byte of every rotation

  /** For every position the byte `d` places on. */
  function BytesAhead(b: seq<byte>, d: nat): (e: seq<nat>)
    ensures |e| == |b|
  {
    seq(|b|, p requires 0 <= p < |b| => b[Ahead(|b|, p, d)])
  }

  lemma ByteAhead(block: array<byte>, b: seq<byte>, p: nat, d: nat)
    requires Padded(block, b) && p < |b| && d < N_OVERSHOOT
    ensures p + d < block.Length && block[p + d] == BytesAhead(b, d)[p]
  {
    AheadIs(|b|, p, d);
  }

  /** The byte that entry `k` is split by. */
  method ByteOf(ptr: array<nat>, block: array<byte>, nblock: nat, k: nat, d: nat, ghost b: seq<byte>) returns (c: byte)
    requires nblock == |b| <= ptr.Length && Padded(block, b) && d < N_OVERSHOOT && k < nblock
    requires Entries(ptr[..nblock], BytesAhead(b, d))
    ensures c == Key(ptr[..nblock], BytesAhead(b, d), k)
  {
    ByteAhead(block, b, ptr[k], d);
    c := block[ptr[k] + d];
  }

  /** Of two rotations that begin alike the one with the smaller next byte is first. */
  lemma NextByteTells(b: seq<byte>, f: seq<nat>, lo: nat, hi: int, d: nat, p: nat, q: nat)
    requires Shares(b, f, lo, hi, d) && lo <= p <= hi < |f| && lo <= q <= hi
    requires Key(f, BytesAhead(b, d), p) < Key(f, BytesAhead(b, d), q)
    ensures Key(f, Ranks(b), p) <= Key(f, Ranks(b), q)
  {
    assert Agree(b, f[p], f[q], d);
    RankAgree(b, f[p], f[q], d);
    RankByte(b, Ahead(|b|, f[p], d), Ahead(|b|, f[q], d));
  }

  /** Rotations that begin alike and have the same next byte have one more byte in common. */
  lemma SharesMore(b: seq<byte>, f: seq<nat>, lo: nat, hi: int, d: nat, lo': nat, hi': int, med: int)
    requires Shares(b, f, lo, hi, d) && hi < |f| && lo <= lo' && hi' <= hi
    requires forall k :: lo' <= k <= hi' ==> Key(f, BytesAhead(b, d), k) == med
    ensures Shares(b, f, lo', hi', d + 1)
  {
    forall k, l | lo' <= k <= hi' < |f| && lo' <= l <= hi' ensures Agree(b, f[k], f[l], d + 1) {
      assert Agree(b, f[k], f[l], d);
      assert Key(f, BytesAhead(b, d), k) == Key(f, BytesAhead(b, d), l);
      AgreeOn(b, f[k], f[l], d);
    }
  }

  // ----- partitioning

  /** Moves up over entries that are not greater. */
  method ScanUp(ptr: array<nat>, block: array<byte>, nblock: nat, d: nat, med: nat, ghost lo: nat, ghost hi: int,
          ltLo0: nat, unLo0: nat, unHi: int, ghost gtHi: int, ghost b: seq<byte>, ghost f0: seq<nat>)
    returns (ltLo: nat, unLo: nat)
    requires nblock == |b| <= ptr.Length && Padded(block, b) && d < N_OVERSHOOT && Separate(ptr, block)
    requires Entries(ptr[..nblock], BytesAhead(b, d)) && Shuffled(f0, ptr[..nblock], lo, hi)
    requires Parted(ptr[..nblock], BytesAhead(b, d), med, lo, hi, ltLo0, unLo0, unHi, gtHi)
    modifies ptr
    ensures Entries(ptr[..nblock], BytesAhead(b, d)) && Shuffled(f0, ptr[..nblock], lo, hi)
    ensures Parted(ptr[..nblock], BytesAhead(b, d), med, lo, hi, ltLo, unLo, unHi, gtHi)
    ensures unLo0 <= unLo && (unLo <= unHi ==> Key(ptr[..nblock], BytesAhead(b, d), unLo) > med)
  {
    hide Shuffled, Entries, Padded, BytesAhead, Key;
    ghost var e := BytesAhead(b, d);
    ltLo, unLo := ltLo0, unLo0;
    while unLo <= unHi
      invariant unLo0 <= unLo && Padded(block, b) && Entries(ptr[..nblock], e) && Shuffled(f0, ptr[..nblock], lo, hi)
      invariant Parted(ptr[..nblock], e, med, lo, hi, ltLo, unLo, unHi, gtHi)
      decreases unHi - unLo
    {
      var c := ByteOf(ptr, block, nblock, unLo, d, b);
      var n: int := c - med;
      if n == 0 {
        LowEqual(ptr[..nblock], e, med, lo, hi, ltLo, unLo, unHi, gtHi);
        Swap(ptr, nblock, unLo, ltLo, e, f0, lo, hi);
        ltLo := ltLo + 1;
      } else if n > 0 {
        break;
      }
      unLo := unLo + 1;
    }
  }

  /** Moves down over entries that are not less. */
  method ScanDown(ptr: array<nat>, block: array<byte>, nblock: nat, d: nat, med: nat, ghost lo: nat, ghost hi: int,
          ghost ltLo: nat, unLo: nat, unHi0: int, gtHi0: int, ghost b: seq<byte>, ghost f0: seq<nat>)
    returns (unHi: int, gtHi: int)
    requires nblock == |b| <= ptr.Length && Padded(block, b) && d < N_OVERSHOOT && Separate(ptr, block)
    requires Entries(ptr[..nblock], BytesAhead(b, d)) && Shuffled(f0, ptr[..nblock], lo, hi)
    requires Parted(ptr[..nblock], BytesAhead(b, d), med, lo, hi, ltLo, unLo, unHi0, gtHi0)
    requires unLo <= unHi0 ==> Key(ptr[..nblock], BytesAhead(b, d), unLo) > med
    modifies ptr
    ensures Entries(ptr[..nblock], BytesAhead(b, d)) && Shuffled(f0, ptr[..nblock], lo, hi)
    ensures Parted(ptr[..nblock], BytesAhead(b, d), med, lo, hi, ltLo, unLo, unHi, gtHi)
    ensures unHi <= unHi0
    ensures unLo <= unHi ==>
      Key(ptr[..nblock], BytesAhead(b, d), unLo) > med && Key(ptr[..nblock], BytesAhead(b, d), unHi) < med
  {
    hide Shuffled, Entries, Padded, BytesAhead, Key;
    ghost var e := BytesAhead(b, d);
    unHi, gtHi := unHi0, gtHi0;
    while unLo <= unHi
      invariant unHi <= unHi0 && Padded(block, b) && Entries(ptr[..nblock], e) && Shuffled(f0, ptr[..nblock], lo, hi)
      invariant Parted(ptr[..nblock], e, med, lo, hi, ltLo, unLo, unHi, gtHi)
      invariant unLo <= unHi ==> Key(ptr[..nblock], e, unLo) > med
      decreases unHi - unLo
    {
      var c := ByteOf(ptr, block, nblock, unHi, d, b);
      var n: int := c - med;
      if n == 0 {
        HighEqual(ptr[..nblock], e, med, lo, hi, ltLo, unLo, unHi, gtHi);
        KeySwap(ptr[..nblock], e, unHi, gtHi, unLo);
        Swap(ptr, nblock, unHi, gtHi, e, f0, lo, hi);
        gtHi := gtHi - 1;
      } else if n < 0 {
        break;
      }
      unHi := unHi - 1;
    }
  }

  /** Splits a part around the byte `med`. */
  method Partition(ptr: array<nat>, block: array<byte>, nblock: nat, d: nat, med: nat, lo: nat, hi: int,
          ghost b: seq<byte>)
    returns (ltLo: nat, unLo: nat, gtHi: int)
    requires nblock == |b| <= ptr.Length && Padded(block, b) && d < N_OVERSHOOT && Separate(ptr, block)
    requires lo <= hi < nblock && Entries(ptr[..nblock], BytesAhead(b, d))
    modifies ptr
    ensures Shuffled(old(ptr[..nblock]), ptr[..nblock], lo, hi) && Entries(ptr[..nblock], BytesAhead(b, d))
    ensures Parted(ptr[..nblock], BytesAhead(b, d), med, lo, hi, ltLo, unLo, unLo - 1, gtHi)
  {
    hide Shuffled, Key, Padded, Entries, BytesAhead;
    ghost var f0, e := ptr[..nblock], BytesAhead(b, d);
    assert Shuffled(f0, f0, lo, hi) by { ShuffledSame(f0, lo, hi); }
    ltLo, unLo, gtHi := lo, lo, hi;
    var unHi := hi;
    while true
      invariant Padded(block, b) && Entries(ptr[..nblock], e) && Shuffled(f0, ptr[..nblock], lo, hi)
      invariant Parted(ptr[..nblock], e, med, lo, hi, ltLo, unLo, unHi, gtHi)
      decreases unHi - unLo + 1
    {
      ltLo, unLo := ScanUp(ptr, block, nblock, d, med, lo, hi, ltLo, unLo, unHi, gtHi, b, f0);
      unHi, gtHi := ScanDown(ptr, block, nblock, d, med, lo, hi, ltLo, unLo, unHi, gtHi, b, f0);
      if unLo > unHi {
        break;
      }
      BothMove(ptr[..nblock], e, med, lo, hi, ltLo, unLo, unHi, gtHi);
      Swap(ptr, nblock, unLo, unHi, e, f0, lo, hi);
      unLo := unLo + 1;
      unHi := unHi - 1;
    }
  }

  /** The middle one of three bytes. */
  method Median3(a0: byte, b0: byte, c: byte) returns (m: byte)
    ensures m == a0 || m == b0 || m == c
    ensures (a0 <= m <= b0 || b0 <= m <= a0) || (a0 <= m <= c || c <= m <= a0)
    ensures (b0 <= m <= a0 || a0 <= m <= b0) || (b0 <= m <= c || c <= m <= b0)
    ensures (c <= m <= a0 || a0 <= m <= c) || (c <= m <= b0 || b0 <= m <= c)
  {
    var a, b := a0, b0;
    if a > b {
      a, b := b, a;
    }
    if b > c {
      b := c;
      if a > b {
        b := a;
      }
    }
    m := b;
  }

  /** The byte to split by. */
  method PickByte(ptr: array<nat>, block: array<byte>, nblock: nat, lo: nat, hi: nat, d: nat, ghost b: seq<byte>)
    returns (med: byte, ghost at: nat)
    requires nblock == |b| <= ptr.Length && Padded(block, b) && d < N_OVERSHOOT
    requires lo <= hi < nblock && Entries(ptr[..nblock], BytesAhead(b, d))
    ensures lo <= at <= hi && med == Key(ptr[..nblock], BytesAhead(b, d), at)
  {
    hide Padded, Entries, BytesAhead, Key;
    var x := ByteOf(ptr, block, nblock, lo, d, b);
    var y := ByteOf(ptr, block, nblock, hi, d, b);
    var z := ByteOf(ptr, block, nblock, (lo + hi) / 2, d, b);
    med := Median3(x, y, z);
    at := if med == x then lo else if med == y then hi else (lo + hi) / 2;
  }

  lemma PartedAlike(f: seq<nat>, e: seq<nat>, med: int, lo: int, hi: int, ltLo: int, unLo: int, gtHi: int)
    requires Parted(f, e, med, lo, hi, ltLo, unLo, unLo - 1, gtHi) && gtHi < ltLo
    ensures forall k :: lo <= k <= hi ==> Key(f, e, k) == med
  {
  }

  /** Splits a part by its byte `d`, unless this byte is the same everywhere. */
  method SplitByByte(ptr: array<nat>, block: array<byte>, nblock: nat, lo: nat, hi: nat, d: nat, ghost b: seq<byte>)
    returns (same: bool, n: int, m: int, ghost med: nat)
    requires nblock == |b| <= ptr.Length && Padded(block, b) && d < N_OVERSHOOT && Separate(ptr, block)
    requires lo <= hi < nblock && Shares(b, ptr[..nblock], lo, hi, d)
    modifies ptr
    ensures Shuffled(old(ptr[..nblock]), ptr[..nblock], lo, hi) && Shares(b, ptr[..nblock], lo, hi, d)
    ensures same ==> Shares(b, ptr[..nblock], lo, hi, d + 1)
    ensures !same ==> Arranged(ptr[..nblock], BytesAhead(b, d), med, lo, hi, n, m) && n + 1 < m
  {
    ghost var f0, e := ptr[..nblock], BytesAhead(b, d);
    assert Entries(f0, e);
    hide Shuffled, Key, Entries, Shares, Padded, BytesAhead;
    var pivot, at := PickByte(ptr, block, nblock, lo, hi, d, b);
    med := pivot;
    var ltLo, unLo, gtHi := Partition(ptr, block, nblock, d, pivot, lo, hi, b);
    SharesShuffled(b, f0, ptr[..nblock], lo, hi, d);
    n, m := 0, 0;
    if gtHi < ltLo {
      PartedAlike(ptr[..nblock], e, med, lo, hi, ltLo, unLo, gtHi);
      SharesMore(b, ptr[..nblock], lo, hi, d, lo, hi, med);
      return true, n, m, med;
    }
    same := false;
    n, m := Gather(ptr, nblock, lo, hi, ltLo, unLo, gtHi, e, med, f0);
    SharesShuffled(b, f0, ptr[..nblock], lo, hi, d);
    ghost var k := PivotStays(f0, ptr[..nblock], e, lo, hi, at);
    EndsSmaller(ptr[..nblock], e, med, lo, hi, n, m, k);
  }

  // ----- the stack

  datatype Piece = Piece(part: Part, d: nat)

  function Parts(stack: seq<Piece>): (parts: seq<Part>)
    ensures |parts| == |stack|
  {
    seq(|stack|, s requires 0 <= s < |stack| => stack[s].part)
  }

  lemma PartsConcat(a: seq<Piece>, more: seq<Piece>)
    ensures Parts(a + more) == Parts(a) + Parts(more)
  {
  }

  /** Every piece points to rotations that begin alike. */
  ghost predicate Alike(b: seq<byte>, f: seq<nat>, stack: seq<Piece>) {
    forall s :: 0 <= s < |stack| ==>
      stack[s].d <= MAIN_DEPTH_THRESH + 1 && Shares(b, f, stack[s].part.lo, stack[s].part.hi, stack[s].d)
  }

  /** All that is left to do is to sort the pieces on the stack. */
  ghost predicate Pieces(b: seq<byte>, f0: seq<nat>, f: seq<nat>, lo: nat, hi: int, stack: seq<Piece>) {
    && hi < |f| == |b| && Entries(f, Ranks(b)) && Shuffled(f0, f, lo, hi) && Alike(b, f, stack)
    && Ordered(f, Ranks(b), lo, hi, Parts(stack)) && Scattered(Parts(stack), lo, hi)
  }

  lemma PiecesStart(b: seq<byte>, f: seq<nat>, lo: nat, hi: int, d: nat)
    requires lo <= hi < |f| && Shares(b, f, lo, hi, d) && d <= MAIN_DEPTH_THRESH + 1
    ensures Pieces(b, f, f, lo, hi, [Piece(Part(lo, hi), d)])
  {
    var stack := [Piece(Part(lo, hi), d)];
    assert Parts(stack)[0] == Part(lo, hi);
    forall p, q | lo <= p < q <= hi ensures Together(Parts(stack), p, q) {
      assert Holds(Parts(stack)[0], p) && Holds(Parts(stack)[0], q);
    }
    ShuffledSame(f, lo, hi);
  }

  lemma PiecesEnd(b: seq<byte>, f0: seq<nat>, f: seq<nat>, lo: nat, hi: int)
    requires Pieces(b, f0, f, lo, hi, [])
    ensures Shuffled(f0, f, lo, hi) && SortedPart(f, Ranks(b), lo, hi)
  {
    forall p, q | lo <= p < q <= hi ensures Key(f, Ranks(b), p) <= Key(f, Ranks(b), q) {
      assert !Together(Parts([]), p, q);
    }
  }

  /** The pieces below are not touched when a piece is rearranged. */
  lemma RestAlike(b: seq<byte>, f: seq<nat>, g: seq<nat>, lo: nat, hi: int, rest: seq<Piece>, a: Piece)
    requires Alike(b, f, rest + [a]) && Scattered(Parts(rest + [a]), lo, hi) && Shuffled(f, g, a.part.lo, a.part.hi)
    requires Entries(g, b) && |g| == |b|
    ensures Alike(b, g, rest)
  {
    var all := rest + [a];
    assert all[|rest|] == a && Parts(all)[|rest|] == a.part;
    forall s | 0 <= s < |rest|
      ensures rest[s].d <= MAIN_DEPTH_THRESH + 1 && Shares(b, g, rest[s].part.lo, rest[s].part.hi, rest[s].d)
    {
      assert all[s] == rest[s] && Parts(all)[s] == rest[s].part;
      var x := rest[s].part;
      assert Shares(b, f, x.lo, x.hi, rest[s].d);
      forall k | x.lo <= k <= x.hi && 0 <= k < |f| ensures f[k] == g[k] { }
    }
  }

  /** A piece has been rearranged, and `more` of it is left to do. */
  lemma PieceReplaced(b: seq<byte>, f0: seq<nat>, f: seq<nat>, g: seq<nat>, lo: nat, hi: int, rest: seq<Piece>,
          a: Piece, more: seq<Piece>)
    requires Pieces(b, f0, f, lo, hi, rest + [a]) && Shuffled(f, g, a.part.lo, a.part.hi)
    requires Alike(b, g, more) && Scattered(Parts(more), a.part.lo, a.part.hi)
    requires forall p, q :: a.part.lo <= p < q <= a.part.hi ==>
      Together(Parts(more), p, q) || Key(g, Ranks(b), p) <= Key(g, Ranks(b), q)
    ensures Pieces(b, f0, g, lo, hi, rest + more)
  {
    var rk, x := Ranks(b), a.part;
    PartsConcat(rest, [a]);
    PartsConcat(rest, more);
    assert Parts([a]) == [x] && (Parts(rest) + [x])[|rest|] == x;
    EntriesShuffled(f, g, rk, x.lo, x.hi);
    RestAlike(b, f, g, lo, hi, rest, a);
    AlikeConcat(b, g, rest, more);
    ScatterMore(Parts(rest), x, Parts(more), lo, hi);
    forall p, q | x.lo <= p < q <= x.hi
      ensures Together(Parts(rest) + Parts(more), p, q) || Key(g, rk, p) <= Key(g, rk, q)
    {
      if Together(Parts(more), p, q) { TogetherMore(Parts(rest), Parts(more), p, q); }
    }
    hide Alike, Shares, Shuffled, Key, Ranks, Entries, Parts, Together;
    StillOrdered(f, g, rk, lo, hi, Parts(rest), x, Parts(more));
    ShuffledWider(f, g, x.lo, x.hi, lo, hi);
    ShuffledTransitive(f0, f, g, lo, hi);
  }

  lemma TogetherMore(rest: seq<Part>, more: seq<Part>, p: int, q: int)
    requires Together(more, p, q)
    ensures Together(rest + more, p, q)
  {
    var s :| 0 <= s < |more| && Holds(more[s], p) && Holds(more[s], q);
    assert (rest + more)[|rest| + s] == more[s];
  }

  lemma AlikeConcat(b: seq<byte>, g: seq<nat>, rest: seq<Piece>, more: seq<Piece>)
    requires Alike(b, g, rest) && Alike(b, g, more)
    ensures Alike(b, g, rest + more)
  {
  }

  lemma ScatterMore(rest: seq<Part>, a: Part, more: seq<Part>, lo: int, hi: int)
    requires Scattered(rest + [a], lo, hi) && Scattered(more, a.lo, a.hi)
    ensures Scattered(rest + more, lo, hi)
  {
    var all, both := rest + [a], rest + more;
    assert all[|rest|] == a;
    forall s | 0 <= s < |both| ensures lo <= both[s].lo <= both[s].hi + 1 && both[s].hi <= hi {
      if s < |rest| { assert both[s] == all[s]; } else { assert both[s] == more[s - |rest|]; }
    }
    forall s, t | 0 <= s < t < |both| ensures both[s].hi < both[t].lo || both[t].hi < both[s].lo {
      if s < |rest| {
        assert both[s] == all[s];
        if t < |rest| { assert both[t] == all[t]; } else { assert both[t] == more[t - |rest|]; }
      } else {
        assert both[s] == more[s - |rest|] && both[t] == more[t - |rest|];
      }
    }
  }

  // ----- the three thirds of a piece

  predicate Thirds(x: Piece, y: Piece, z: Piece, low: Piece, high: Piece, mid: Piece) {
    || (x == low && y == high && z == mid) || (x == low && y == mid && z == high)
    || (x == high && y == low && z == mid) || (x == high && y == mid && z == low)
    || (x == mid && y == low && z == high) || (x == mid && y == high && z == low)
  }

  lemma ThirdsScattered(x: Piece, y: Piece, z: Piece, a: Piece, n: int, m: int)
    requires a.part.lo - 1 <= n < m - 1 <= a.part.hi
    requires Thirds(x, y, z, Piece(Part(a.part.lo, n), a.d), Piece(Part(m, a.part.hi), a.d),
      Piece(Part(n + 1, m - 1), a.d + 1))
    ensures Scattered(Parts([x, y, z]), a.part.lo, a.part.hi)
    ensures Size(x.part) + Size(y.part) + Size(z.part) == Size(a.part)
  {
    assert Parts([x, y, z]) == [x.part, y.part, z.part];
  }

  predicate HoldsBoth(a: Part, p: int, q: int) {
    Holds(a, p) && Holds(a, q)
  }

  lemma HeldTogether(x: Piece, y: Piece, z: Piece, p: int, q: int)
    requires HoldsBoth(x.part, p, q) || HoldsBoth(y.part, p, q) || HoldsBoth(z.part, p, q)
    ensures Together(Parts([x, y, z]), p, q)
  {
    assert Parts([x, y, z]) == [x.part, y.part, z.part];
    assert Parts([x, y, z])[0] == x.part && Parts([x, y, z])[1] == y.part && Parts([x, y, z])[2] == z.part;
  }

  lemma ThirdsOrdered(b: seq<byte>, g: seq<nat>, x: Piece, y: Piece, z: Piece, a: Piece, n: int, m: int, med: int,
          p: nat, q: nat)
    requires Shares(b, g, a.part.lo, a.part.hi, a.d) && a.part.hi < |g|
    requires Arranged(g, BytesAhead(b, a.d), med, a.part.lo, a.part.hi, n, m) && 0 <= a.part.lo <= p < q <= a.part.hi
    requires Thirds(x, y, z, Piece(Part(a.part.lo, n), a.d), Piece(Part(m, a.part.hi), a.d),
      Piece(Part(n + 1, m - 1), a.d + 1))
    ensures Together(Parts([x, y, z]), p, q) || Key(g, Ranks(b), p) <= Key(g, Ranks(b), q)
  {
    var low, mid, high := Part(a.part.lo, n), Part(n + 1, m - 1), Part(m, a.part.hi);
    hide Shares, Ranks, BytesAhead, Key;
    if HoldsBoth(low, p, q) || HoldsBoth(mid, p, q) || HoldsBoth(high, p, q) {
      HeldTogether(x, y, z, p, q);
    } else {
      NextByteTells(b, g, a.part.lo, a.part.hi, a.d, p, q);
    }
  }

  lemma ThirdsAlike(b: seq<byte>, g: seq<nat>, x: Piece, y: Piece, z: Piece, a: Piece, n: int, m: int, med: int)
    requires Shares(b, g, a.part.lo, a.part.hi, a.d) && a.part.hi < |g| && 0 <= a.part.lo && a.d <= MAIN_DEPTH_THRESH
    requires Arranged(g, BytesAhead(b, a.d), med, a.part.lo, a.part.hi, n, m)
    requires Thirds(x, y, z, Piece(Part(a.part.lo, n), a.d), Piece(Part(m, a.part.hi), a.d),
      Piece(Part(n + 1, m - 1), a.d + 1))
    ensures Alike(b, g, [x, y, z])
  {
    SharesMore(b, g, a.part.lo, a.part.hi, a.d, n + 1, m - 1, med);
    SharesLess(b, g, a.part.lo, a.part.hi, a.d, a.part.lo, n);
    SharesLess(b, g, a.part.lo, a.part.hi, a.d, m, a.part.hi);
    hide Shares;
  }

  lemma SharesLess(b: seq<byte>, f: seq<nat>, lo: nat, hi: int, d: nat, lo': nat, hi': int)
    requires Shares(b, f, lo, hi, d) && lo <= lo' && hi' <= hi < |f|
    ensures Shares(b, f, lo', hi', d)
  {
  }

  /** The piece has been split into thirds, which are left to do. */
  lemma PieceSplit(b: seq<byte>, f0: seq<nat>, f: seq<nat>, g: seq<nat>, lo: nat, hi: int, rest: seq<Piece>, a: Piece,
                   x: Piece, y: Piece, z: Piece, n: int, m: int, med: int)
    requires Pieces(b, f0, f, lo, hi, rest + [a]) && Shuffled(f, g, a.part.lo, a.part.hi) && 0 <= a.part.lo
    requires a.part.hi < |g|
    requires Shares(b, g, a.part.lo, a.part.hi, a.d) && a.d <= MAIN_DEPTH_THRESH
    requires Arranged(g, BytesAhead(b, a.d), med, a.part.lo, a.part.hi, n, m) && n + 1 < m
    requires Thirds(x, y, z, Piece(Part(a.part.lo, n), a.d), Piece(Part(m, a.part.hi), a.d),
      Piece(Part(n + 1, m - 1), a.d + 1))
    ensures Pieces(b, f0, g, lo, hi, rest + [x, y, z])
    ensures Size(x.part) + Size(y.part) + Size(z.part) == Size(a.part)
  {
    ThirdsScattered(x, y, z, a, n, m);
    ThirdsAlike(b, g, x, y, z, a, n, m, med);
    forall p, q | a.part.lo <= p < q <= a.part.hi
      ensures Together(Parts([x, y, z]), p, q) || Key(g, Ranks(b), p) <= Key(g, Ranks(b), q)
    {
      ThirdsOrdered(b, g, x, y, z, a, n, m, med, p, q);
    }
    hide Pieces, Shuffled, Shares, Arranged, Thirds, Alike, Scattered, Together, Key;
    PieceReplaced(b, f0, f, g, lo, hi, rest, a, [x, y, z]);
  }

  /** The piece has been sorted. */
  lemma PieceSorted(b: seq<byte>, f0: seq<nat>, f: seq<nat>, g: seq<nat>, lo: nat, hi: int, rest: seq<Piece>, a: Piece)
    requires Pieces(b, f0, f, lo, hi, rest + [a]) && Shuffled(f, g, a.part.lo, a.part.hi)
    requires SortedPart(g, Ranks(b), a.part.lo, a.part.hi)
    ensures Pieces(b, f0, g, lo, hi, rest)
  {
    PieceReplaced(b, f0, f, g, lo, hi, rest, a, []);
    assert rest + [] == rest;
  }

  /** All rotations of the piece have one more byte in common. */
  lemma PieceDeeper(b: seq<byte>, f0: seq<nat>, f: seq<nat>, g: seq<nat>, lo: nat, hi: int, rest: seq<Piece>, a: Piece)
    requires Pieces(b, f0, f, lo, hi, rest + [a]) && Shuffled(f, g, a.part.lo, a.part.hi) && a.part.lo <= a.part.hi
    requires Shares(b, g, a.part.lo, a.part.hi, a.d + 1) && a.d <= MAIN_DEPTH_THRESH
    ensures Pieces(b, f0, g, lo, hi, rest + [Piece(a.part, a.d + 1)])
  {
    var more := [Piece(a.part, a.d + 1)];
    assert Parts(more) == [a.part];
    forall p, q | a.part.lo <= p < q <= a.part.hi ensures Together(Parts(more), p, q) {
      assert Holds(Parts(more)[0], p) && Holds(Parts(more)[0], q);
    }
    hide Pieces, Shuffled, Shares, Together, Key;
    PieceReplaced(b, f0, f, g, lo, hi, rest, a, more);
  }

  // ----- the depth of the stack

  /** One, two, three, six, nine, ...: two steps up the stack are a factor of three. */
  function Factor(k: nat): (w: nat)
    ensures w >= 1
  {
    if k == 0 then 1 else if k == 1 then 2 else 3 * Factor(k - 2)
  }

  lemma {:induction false} FactorStep(k: nat)
    ensures Factor(k) < Factor(k + 1) <= 2 * Factor(k)
  {
    if k == 1 { assert Factor(2) == 3 * Factor(0); }
    if k > 1 { FactorStep(k - 2); }
  }

  lemma {:induction false} FactorMonotone(j: nat, k: nat)
    requires j <= k
    ensures Factor(j) <= Factor(k)
  {
    if j < k {
      FactorStep(k - 1);
      FactorMonotone(j, k - 1);
    }
  }

  lemma FactorTwenty()
    ensures Factor(20) == 59049
  {
    assert Factor(4) == 9;
    assert Factor(8) == 81;
    assert Factor(12) == 729;
    assert Factor(16) == 6561;
  }

  /** The pieces shrink with their height in the stack. */
  ghost predicate Narrow(stack: seq<Piece>, total: int) {
    |stack| <= 23 && forall s :: 0 <= s < |stack| ==> Size(stack[s].part) * Factor(s) <= total
  }

  /** A piece that is still to be split is not high up. */
  lemma LowPiece(rest: seq<Piece>, a: Piece, total: int)
    requires Narrow(rest + [a], total) && total <= MOST_SORTED && Size(a.part) > MAIN_SMALL_THRESH
    ensures |rest| < 20
  {
    var k, w := |rest|, Factor(|rest|);
    assert (rest + [a])[k] == a;
    assert Size(a.part) * w >= 21 * w;
    if k >= 20 {
      FactorTwenty();
      FactorMonotone(20, k);
    }
  }

  lemma NarrowPop(rest: seq<Piece>, a: Piece, total: int)
    requires Narrow(rest + [a], total)
    ensures Narrow(rest, total)
  {
    forall s | 0 <= s < |rest| ensures Size(rest[s].part) * Factor(s) <= total {
      assert (rest + [a])[s] == rest[s];
    }
  }

  lemma NarrowAgain(rest: seq<Piece>, a: Piece, total: int, x: Piece)
    requires Narrow(rest + [a], total) && x.part == a.part
    ensures Narrow(rest + [x], total)
  {
    forall s | 0 <= s <= |rest| ensures Size((rest + [x])[s].part) * Factor(s) <= total {
      assert (rest + [a])[s].part == (rest + [x])[s].part;
    }
  }

  lemma Fewer(size: int, y: int, k: nat, w: nat, w': nat, total: int)
    requires size * w <= total && k * y <= size && y >= 0 && w' <= k * w
    ensures y * w' <= total
  {
    assert y * w' <= y * (k * w);
    assert y * (k * w) == (k * y) * w;
    assert (k * y) * w <= size * w;
  }

  lemma NarrowPush(rest: seq<Piece>, a: Piece, total: int, x: Piece, y: Piece, z: Piece)
    requires Narrow(rest + [a], total) && |rest| < 20
    requires Size(x.part) >= Size(y.part) >= Size(z.part) >= 0
    requires Size(x.part) + Size(y.part) + Size(z.part) <= Size(a.part)
    ensures Narrow(rest + [x, y, z], total)
  {
    var all, k := rest + [x, y, z], |rest|;
    assert (rest + [a])[k] == a;
    NarrowPop(rest, a, total);
    FactorStep(k);
    assert Factor(k + 2) == 3 * Factor(k);
    Fewer(Size(a.part), Size(x.part), 1, Factor(k), Factor(k), total);
    Fewer(Size(a.part), Size(y.part), 2, Factor(k), Factor(k + 1), total);
    Fewer(Size(a.part), Size(z.part), 3, Factor(k), Factor(k + 2), total);
    assert all[k] == x && all[k + 1] == y && all[k + 2] == z;
    hide Factor;
    forall s | 0 <= s < |all| ensures Size(all[s].part) * Factor(s) <= total {
      if s < k { assert all[s] == rest[s]; }
    }
  }

  // ----- the sort

  /** What is left to do: every step takes a piece away, makes it smaller or goes on
      to its next byte. */
  function Effort(stack: seq<Piece>): nat {
    if stack == [] then 0
    else Effort(stack[..|stack| - 1]) + EffortOf(stack[|stack| - 1])
  }

  function EffortOf(a: Piece): (w: nat)
    ensures w >= 1
  {
    if Size(a.part) > 0 && a.d <= MAIN_DEPTH_THRESH + 1 then 1 + Size(a.part) * (3 * (MAIN_DEPTH_THRESH + 2 - a.d))
      else 1
  }

  lemma EffortPush(rest: seq<Piece>, a: Piece)
    ensures Effort(rest + [a]) == Effort(rest) + EffortOf(a)
  {
    assert (rest + [a])[..|rest|] == rest;
  }

  lemma EffortDeeper(rest: seq<Piece>, a: Piece)
    requires Size(a.part) > 0 && a.d <= MAIN_DEPTH_THRESH
    ensures Effort(rest + [Piece(a.part, a.d + 1)]) < Effort(rest + [a])
  {
    EffortPush(rest, a);
    EffortPush(rest, Piece(a.part, a.d + 1));
  }

  lemma EffortSplit(rest: seq<Piece>, a: Piece, x: Piece, y: Piece, z: Piece, n: int, m: int)
    requires a.part.lo - 1 <= n < m - 1 <= a.part.hi && a.d <= MAIN_DEPTH_THRESH
    requires Thirds(x, y, z, Piece(Part(a.part.lo, n), a.d), Piece(Part(m, a.part.hi), a.d),
      Piece(Part(n + 1, m - 1), a.d + 1))
    ensures Effort(rest + [x, y, z]) < Effort(rest + [a])
  {
    hide EffortOf, Effort, Thirds;
    var r := 3 * (MAIN_DEPTH_THRESH + 2 - a.d);
    var low, high, mid := Piece(Part(a.part.lo, n), a.d), Piece(Part(m, a.part.hi), a.d),
      Piece(Part(n + 1, m - 1), a.d + 1);
    EffortSum(n - a.part.lo + 1, a.part.hi - m + 1, m - 1 - n, r);
    EffortIs(low, n - a.part.lo + 1, r);
    EffortIs(high, a.part.hi - m + 1, r);
    EffortIs(mid, m - 1 - n, r - 3);
    EffortIs(a, Size(a.part), r);
    ThirdsEffort(x, y, z, low, high, mid);
    assert rest + [x, y, z] == rest + [x] + [y] + [z];
    EffortPush(rest, x);
    EffortPush(rest + [x], y);
    EffortPush(rest + [x] + [y], z);
    EffortPush(rest, a);
  }

  lemma ThirdsEffort(x: Piece, y: Piece, z: Piece, low: Piece, high: Piece, mid: Piece)
    requires Thirds(x, y, z, low, high, mid)
    ensures EffortOf(x) + EffortOf(y) + EffortOf(z) == EffortOf(low) + EffortOf(high) + EffortOf(mid)
  {
    hide EffortOf;
  }

  lemma EffortIs(a: Piece, size: int, r: int)
    requires a.d <= MAIN_DEPTH_THRESH + 1 && Size(a.part) == size >= 0 && r == 3 * (MAIN_DEPTH_THRESH + 2 - a.d)
    ensures EffortOf(a) == 1 + size * r
  {
  }

  lemma EffortSum(low: nat, high: nat, mid: nat, r: nat)
    requires mid >= 1 && r >= 3
    ensures 3 + low * r + high * r + mid * (r - 3) < 1 + (low + high + mid) * r
  {
    assert (low + high + mid) * r == low * r + high * r + mid * r;
    assert mid * (r - 3) == mid * r - 3 * mid;
  }

  lemma TopPiece(b: seq<byte>, f0: seq<nat>, f: seq<nat>, lo: nat, hi: int, rest: seq<Piece>, a: Piece)
    requires Pieces(b, f0, f, lo, hi, rest + [a])
    ensures lo <= a.part.lo <= a.part.hi + 1 && a.part.hi <= hi < |f| == |b| && a.d <= MAIN_DEPTH_THRESH + 1
    ensures Shares(b, f, a.part.lo, a.part.hi, a.d) && multiset(f) == multiset(f0)
  {
    assert (rest + [a])[|rest|] == a && Parts(rest + [a])[|rest|] == a.part;
  }

  lemma NarrowStart(lo: nat, hi: int, d: nat)
    requires lo <= hi
    ensures Narrow([Piece(Part(lo, hi), d)], hi - lo + 1)
  {
    assert Factor(0) == 1;
  }

  /** Orders the thirds by size, the largest first. */
  method OrderThirds(low: Piece, high: Piece, mid: Piece) returns (x: Piece, y: Piece, z: Piece)
    ensures Thirds(x, y, z, low, high, mid)
    ensures Size(x.part) >= Size(y.part) >= Size(z.part)
  {
    x, y, z := low, high, mid;
    if Size(x.part) < Size(y.part) {
      x, y := y, x;
    }
    if Size(y.part) < Size(z.part) {
      y, z := z, y;
    }
    if Size(x.part) < Size(y.part) {
      x, y := y, x;
    }
  }

  lemma NarrowStack(stack: seq<Piece>, total: int)
    requires Narrow(stack, total)
    ensures |stack| <= 23
  {
  }

  lemma TopShuffled(b: seq<byte>, f0: seq<nat>, f: seq<nat>, g: seq<nat>, lo: nat, hi: int, rest: seq<Piece>, a: Piece)
    requires Pieces(b, f0, f, lo, hi, rest + [a]) && Shuffled(f, g, a.part.lo, a.part.hi)
    ensures Shuffled(f0, g, lo, hi)
  {
    TopPiece(b, f0, f, lo, hi, rest, a);
    ShuffledWider(f, g, a.part.lo, a.part.hi, lo, hi);
    ShuffledTransitive(f0, f, g, lo, hi);
  }

  /** Deals with the piece on top of the stack: a small or deep one is sorted, another
      one is split by its next byte. */
  method SortTop(ptr: array<nat>, block: array<byte>, quadrant: array<nat>, nblock: nat, ghost loSt: nat,
          ghost hiSt: int, stack: array<Piece>, sp0: nat, a: Piece, budget: int, ghost b: seq<byte>, ghost q: seq<nat>,
          ghost f0: seq<nat>)
    returns (left: int, sp: nat, stopped: bool)
    requires stack.Length == MAIN_STACK_SIZE && sp0 + 3 <= stack.Length
    requires Separate(stack, ptr) && Separate(stack, block) && Separate(stack, quadrant)
    requires Setting(ptr, block, quadrant, nblock, b, q) && nblock <= MOST_SORTED && loSt <= hiSt
    requires Pieces(b, f0, ptr[..nblock], loSt, hiSt, stack[..sp0] + [a]) && Narrow(stack[..sp0] + [a], hiSt - loSt + 1)
    modifies ptr, stack
    ensures sp <= stack.Length && (left != budget ==> Repetitive(b, multiset(f0)))
    ensures stopped ==> left < 0 && Shuffled(old(ptr[..nblock]), ptr[..nblock], a.part.lo, a.part.hi)
    ensures !stopped ==> Pieces(b, f0, ptr[..nblock], loSt, hiSt, stack[..sp]) && Narrow(stack[..sp], hiSt - loSt + 1)
    ensures !stopped ==> Effort(stack[..sp]) < Effort(old(stack[..sp0]) + [a])
  {
    hide Repetitive, Shuffled, SortedPart, Shares, Ranks, Describes, Repeated, Padded, Pieces, Narrow, Effort, EffortOf,
         Arranged, Thirds, BytesAhead;
    ghost var f, total, rest := ptr[..nblock], hiSt - loSt + 1, stack[..sp0];
    TopPiece(b, f0, f, loSt, hiSt, rest, a);
    var lo, hi, d := a.part.lo, a.part.hi, a.d;
    left, sp, stopped := budget, sp0, false;
    if hi - lo < MAIN_SMALL_THRESH || d > MAIN_DEPTH_THRESH {
      left := MainSimpleSort(ptr, block, quadrant, nblock, lo, hi, d, left, b, q);
      if left < 0 {
        stopped := true;
        return;
      }
      PieceSorted(b, f0, f, ptr[..nblock], loSt, hiSt, rest, a);
      NarrowPop(rest, a, total);
      EffortPush(rest, a);
      return;
    }
    var same, n, m;
    ghost var med;
    same, n, m, med := SplitByByte(ptr, block, nblock, lo, hi, d, b);
    if same {
      PieceDeeper(b, f0, f, ptr[..nblock], loSt, hiSt, rest, a);
      NarrowAgain(rest, a, total, Piece(a.part, d + 1));
      EffortDeeper(rest, a);
      stack[sp] := Piece(a.part, d + 1);
      sp := sp + 1;
      assert stack[..sp] == rest + [Piece(a.part, d + 1)];
      return;
    }
    var x, y, z := OrderThirds(Piece(Part(lo, n), d), Piece(Part(m, hi), d), Piece(Part(n + 1, m - 1), d + 1));
    ArrangedBounds(ptr[..nblock], BytesAhead(b, d), med, lo, hi, n, m);
    PieceSplit(b, f0, f, ptr[..nblock], loSt, hiSt, rest, a, x, y, z, n, m, med);
    LowPiece(rest, a, total);
    ThirdsScattered(x, y, z, a, n, m);
    ThirdsSizes(x, y, z, a, n, m);
    NarrowPush(rest, a, total, x, y, z);
    EffortSplit(rest, a, x, y, z, n, m);
    stack[sp], stack[sp + 1], stack[sp + 2] := x, y, z;
    sp := sp + 3;
    assert stack[..sp] == rest + [x, y, z];
  }

  lemma ArrangedBounds(f: seq<nat>, e: seq<nat>, med: int, lo: int, hi: int, n: int, m: int)
    requires Arranged(f, e, med, lo, hi, n, m)
    ensures lo - 1 <= n < m <= hi + 1
  {
  }

  lemma ThirdsSizes(x: Piece, y: Piece, z: Piece, a: Piece, n: int, m: int)
    requires a.part.lo - 1 <= n < m - 1 <= a.part.hi
    requires Thirds(x, y, z, Piece(Part(a.part.lo, n), a.d), Piece(Part(m, a.part.hi), a.d),
      Piece(Part(n + 1, m - 1), a.d + 1))
    ensures Size(x.part) >= 0 && Size(y.part) >= 0 && Size(z.part) >= 0
  {
  }

  /** Sorts the pointers from `loSt` to `hiSt`, unless too much work has been done. The
      largest piece is pushed first, so the stack never fills up. */
  method MainQSort3(ptr: array<nat>, block: array<byte>, quadrant: array<nat>, nblock: nat, loSt: nat, hiSt: int,
          dSt: nat, budget: int, ghost b: seq<byte>, ghost q: seq<nat>)
    returns (left: int)
    requires Setting(ptr, block, quadrant, nblock, b, q) && nblock <= MOST_SORTED
    requires loSt <= hiSt < nblock && dSt <= MAIN_DEPTH_THRESH && Shares(b, ptr[..nblock], loSt, hiSt, dSt)
    modifies ptr
    ensures Shuffled(old(ptr[..nblock]), ptr[..nblock], loSt, hiSt)
    ensures left >= 0 ==> SortedPart(ptr[..nblock], Ranks(b), loSt, hiSt)
    ensures left != budget ==> Repetitive(b, multiset(old(ptr[..nblock])))
  {
    hide Repetitive, Shuffled, SortedPart, Shares, Ranks, Describes, Repeated, Padded, Pieces, Narrow, Effort, Arranged,
         Thirds, BytesAhead;
    ghost var f0 := ptr[..nblock];
    left := budget;
    var stack := new Piece[MAIN_STACK_SIZE](_ => Piece(Part(0, 0), 0));
    var sp: nat := 0;
    stack[sp] := Piece(Part(loSt, hiSt), dSt);
    sp := sp + 1;
    assert stack[..sp] == [Piece(Part(loSt, hiSt), dSt)];
    PiecesStart(b, f0, loSt, hiSt, dSt);
    NarrowStart(loSt, hiSt, dSt);
    while sp > 0
      modifies ptr, stack
      invariant sp <= stack.Length && (left != budget ==> Repetitive(b, multiset(f0)))
      invariant Setting(ptr, block, quadrant, nblock, b, q) && Pieces(b, f0, ptr[..nblock], loSt, hiSt, stack[..sp])
      invariant Narrow(stack[..sp], hiSt - loSt + 1)
      decreases Effort(stack[..sp])
    {
      NarrowStack(stack[..sp], hiSt - loSt + 1);
      assert sp < MAIN_STACK_SIZE - 2;
      ghost var f, rest := ptr[..nblock], stack[..sp - 1];
      assert stack[..sp] == rest + [stack[sp - 1]];
      sp := sp - 1;
      var a, stopped := stack[sp], false;
      left, sp, stopped := SortTop(ptr, block, quadrant, nblock, loSt, hiSt, stack, sp, a, left, b, q, f0);
      if stopped {
        TopShuffled(b, f0, f, ptr[..nblock], loSt, hiSt, rest, a);
        return;
      }
    }
    assert stack[..sp] == [];
    PiecesEnd(b, f0, ptr[..nblock], loSt, hiSt);
  }
}
