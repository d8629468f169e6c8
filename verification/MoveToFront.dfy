/** Move-to-front lists and the bijective base-2 coding of zero runs: what the
    symbols of a block mean, and that decoding them undoes the encoding. */
module MoveToFront {
  import opened Bits
  import opened Wrappers

  const RUNA := 0
  const RUNB := 1

  /** The list after its entry `k` moved to the front. */
  function ToFront(list: seq<nat>, k: nat): (r: seq<nat>)
    requires k < |list|
    ensures |r| == |list|
  {
    [list[k]] + list[..k] + list[k + 1..]
  }

  function IndexOf(list: seq<nat>, x: nat): (k: nat)
    requires x in list
    ensures k < |list| && list[k] == x
  {
    if list[0] == x then 0 else 1 + IndexOf(list[1..], x)
  }

  lemma {:induction false} IndexFirst(list: seq<nat>, x: nat, k: nat)
    requires k < |list| && list[k] == x && x !in list[..k]
    ensures IndexOf(list, x) == k
  {
    if k > 0 {
      assert x != list[0] by { assert list[..k][0] == list[0]; }
      assert list[1..][..k - 1] == list[..k][1..];
      IndexFirst(list[1..], x, k - 1);
    }
  }

  lemma ToFrontIn(list: seq<nat>, k: nat, x: nat)
    requires k < |list| && x in list
    ensures x in ToFront(list, k)
  {
    var i := IndexOf(list, x);
    var r := ToFront(list, k);
    if i < k {
      assert r[i + 1] == x;
    } else if i == k {
      assert r[0] == x;
    } else {
      assert r[i] == x;
    }
  }

  /** All elements of `xs` are in the list. */
  ghost predicate Known(list: seq<nat>, xs: seq<nat>) {
    forall i :: 0 <= i < |xs| ==> xs[i] in list
  }

  lemma KnownToFront(list: seq<nat>, k: nat, xs: seq<nat>)
    requires k < |list| && Known(list, xs)
    ensures Known(ToFront(list, k), xs)
  {
    forall i | 0 <= i < |xs| ensures xs[i] in ToFront(list, k) {
      ToFrontIn(list, k, xs[i]);
    }
  }

  // ----- plain move-to-front coding (used for the selectors)

  function Encode(list: seq<nat>, xs: seq<nat>): (js: seq<nat>)
    requires Known(list, xs)
    ensures |js| == |xs|
    decreases |xs|
  {
    if xs == [] then []
    else
      var k := IndexOf(list, xs[0]);
      KnownToFront(list, k, xs);
      [k] + Encode(ToFront(list, k), xs[1..])
  }

  function Decode(list: seq<nat>, js: seq<nat>): (xs: seq<nat>)
    requires forall i :: 0 <= i < |js| ==> js[i] < |list|
    ensures |xs| == |js|
    decreases |js|
  {
    if js == [] then [] else [list[js[0]]] + Decode(ToFront(list, js[0]), js[1..])
  }

  lemma {:induction false} DecodeEncode(list: seq<nat>, xs: seq<nat>)
    requires Known(list, xs)
    ensures forall i :: 0 <= i < |xs| ==> Encode(list, xs)[i] < |list|
    ensures Decode(list, Encode(list, xs)) == xs
    decreases |xs|
  {
    if xs != [] {
      var k := IndexOf(list, xs[0]);
      KnownToFront(list, k, xs);
      DecodeEncode(ToFront(list, k), xs[1..]);
      assert Encode(list, xs)[1..] == Encode(ToFront(list, k), xs[1..]);
    }
  }

  // ----- runs of the front symbol

  /** The digits, RUNA for 1 and RUNB for 2, least significant first, of `n` in
      bijective base 2. */
  function RunCode(n: nat): (s: seq<nat>)
    ensures forall i :: 0 <= i < |s| ==> s[i] == RUNA || s[i] == RUNB
  {
    if n == 0 then [] else if n % 2 == 1 then [RUNA] + RunCode(n / 2) else [RUNB] + RunCode(n / 2 - 1)
  }

  /** The symbols for a column, when `z` front symbols are still to be coded. */
  function Symbols(list: seq<nat>, col: seq<nat>, z: nat): seq<nat>
    requires Known(list, col)
    decreases |col|
  {
    if col == [] then RunCode(z)
    else
      var k := IndexOf(list, col[0]);
      KnownToFront(list, k, col);
      if k == 0 then Symbols(list, col[1..], z + 1)
      else RunCode(z) + [k + 1] + Symbols(ToFront(list, k), col[1..], 0)
  }

  // ----- what the decoder does with a symbol

  const RUN_LIMIT := 0x20_0000

  /** The decoder between two symbols: the list, the column so far, and, when it
      is in a run (N > 0), the length of the run less 1 and the next digit's value. */
  datatype State = State(list: seq<nat>, col: seq<byte>, es: int, N: nat)

  /** What the decoder knows of the block: the byte of each list entry and how
      many bytes fit. */
  datatype Context = Context(bytes: seq<byte>, max: nat)

  function ByteOf(c: Context, x: nat): byte {
    if x < |c.bytes| then c.bytes[x] else 0
  }

  function Repeat<T>(x: T, n: nat): (s: seq<T>)
    ensures |s| == n
  {
    seq(n, i => x)
  }

  function Front(st: State): nat {
    if st.list == [] then 0 else st.list[0]
  }

  /** The end of a run. */
  function EndRun(c: Context, st: State): Result<State> {
    if st.N == 0 then Success(st)
    else if st.es + 1 > 0 && |st.col| + st.es + 1 > c.max then Failure(DataError)
    else Success(st.(col := st.col + Repeat(ByteOf(c, Front(st)), if st.es + 1 > 0 then st.es + 1 else 0), N := 0,
      es := 0))
  }

  /** A symbol that is not the end of the block. */
  function Feed(c: Context, st: State, sym: nat): Result<State> {
    if sym == RUNA || sym == RUNB then
      var st1 := if st.N == 0 then st.(es := -1, N := 1) else st;
      if st1.N >= RUN_LIMIT then Failure(DataError)
      else Success(st1.(es := st1.es + (sym + 1) * st1.N, N := 2 * st1.N))
    else
      var st1 :- EndRun(c, st);
      if |st1.col| >= c.max || sym - 1 >= |st1.list| then Failure(DataError)
      else
        var x := st1.list[sym - 1];
        Success(st1.(list := ToFront(st1.list, sym - 1), col := st1.col + [ByteOf(c, x)]))
  }

  function FeedAll(c: Context, st: State, syms: seq<nat>): Result<State>
    decreases |syms|
  {
    if syms == [] then Success(st)
    else
      var st1 :- Feed(c, st, syms[0]);
      FeedAll(c, st1, syms[1..])
  }

  lemma {:induction false} FeedConcat(c: Context, st: State, a: seq<nat>, b: seq<nat>)
    ensures FeedAll(c, st, a + b)
         == (var st1 :- FeedAll(c, st, a); FeedAll(c, st1, b))
    decreases |a|
  {
    if a == [] {
      assert a + b == b;
    } else {
      assert (a + b)[1..] == a[1..] + b;
      var r := Feed(c, st, a[0]);
      if r.Success? { FeedConcat(c, r.value, a[1..], b); }
    }
  }

  function Map(c: Context, col: seq<nat>): (s: seq<byte>)
    ensures |s| == |col|
  {
    seq(|col|, i requires 0 <= i < |col| => ByteOf(c, col[i]))
  }

  /** Reading the digits of `n` adds `n` times the current digit value. */
  lemma {:induction false} FeedRun(c: Context, st: State, n: nat)
    requires st.N > 0 && st.N * n < RUN_LIMIT
    ensures var r := FeedAll(c, st, RunCode(n));
      r.Success? && r.value.N > 0 && r.value == st.(es := st.es + st.N * n, N := r.value.N)
    decreases n
  {
    if n > 0 {
      var d := if n % 2 == 1 then 1 else 2;
      var m := if n % 2 == 1 then n / 2 else n / 2 - 1;
      assert n == 2 * m + d;
      DigitStep(st.N, n, m, d);
      var st1 := st.(es := st.es + d * st.N, N := 2 * st.N);
      assert Feed(c, st, RunCode(n)[0]) == Success(st1);
      assert RunCode(n)[1..] == RunCode(m);
      FeedRun(c, st1, m);
    }
  }

  lemma DigitStep(N: nat, n: nat, m: nat, d: nat)
    requires n == 2 * m + d && (d == 1 || d == 2) && N * n < RUN_LIMIT
    ensures N < RUN_LIMIT && 2 * N * m < RUN_LIMIT && d * N + 2 * N * m == N * n
  {
    assert N * n == 2 * (N * m) + N * d;
    assert 2 * N * m == 2 * (N * m);
  }

  lemma FeedRunFresh(c: Context, st: State, n: nat)
    requires st.N == 0 && st.es == 0 && n < RUN_LIMIT && |st.col| + n <= c.max
    ensures var r := FeedAll(c, st, RunCode(n));
      r.Success? && EndRun(c, r.value) == Success(st.(col := st.col + Repeat(ByteOf(c, Front(st)), n)))
  {
    if n == 0 {
      assert st.col + Repeat(ByteOf(c, Front(st)), 0) == st.col;
    } else {
      RunStarts(c, st, RunCode(n));
      hide Feed, FeedAll, RunCode;
      FeedRun(c, st.(es := -1, N := 1), n);
    }
  }

  lemma RunStarts(c: Context, st: State, code: seq<nat>)
    requires st.N == 0 && code != [] && (code[0] == RUNA || code[0] == RUNB)
    ensures FeedAll(c, st, code) == FeedAll(c, st.(es := -1, N := 1), code)
  {
  }

  /** A symbol that is not a run digit ends the run first. */
  lemma FeedEndsRun(c: Context, st: State, sym: nat)
    requires sym > 1 && EndRun(c, st).Success?
    ensures Feed(c, st, sym) == Feed(c, EndRun(c, st).value, sym)
  {
  }

  /** A run of `z` front symbols, and then list entry `k`. */
  lemma FeedRunAndEntry(c: Context, st: State, z: nat, k: nat)
    requires st.N == 0 && st.es == 0 && z < RUN_LIMIT && |st.col| + z < c.max && 1 <= k < |st.list|
    ensures FeedAll(c, st, RunCode(z) + [k + 1])
         == Success(State(ToFront(st.list, k),
                          st.col + Repeat(ByteOf(c, Front(st)), z) + [ByteOf(c, st.list[k])], 0, 0))
  {
    hide RunCode, Repeat, ByteOf, Front;
    FeedRunFresh(c, st, z);
    FeedConcat(c, st, RunCode(z), [k + 1]);
    FeedEndsRun(c, FeedAll(c, st, RunCode(z)).value, k + 1);
  }

  /** Two columns that lie behind each other. */
  lemma ColumnStep(c: Context, out: seq<byte>, f: nat, z: nat, col: seq<nat>)
    requires col != []
    ensures out + Repeat(ByteOf(c, f), z) + [ByteOf(c, col[0])] + Repeat(ByteOf(c, col[0]), 0) + Map(c, col[1..])
         == out + Repeat(ByteOf(c, f), z) + Map(c, col)
    ensures col[0] == f ==>
      out + Repeat(ByteOf(c, f), z + 1) + Map(c, col[1..]) == out + Repeat(ByteOf(c, f), z) + Map(c, col)
  {
    assert Map(c, col) == [ByteOf(c, col[0])] + Map(c, col[1..]);
    assert Repeat(ByteOf(c, f), z + 1) == Repeat(ByteOf(c, f), z) + [ByteOf(c, f)];
  }

  lemma PrefixToFront(list: seq<nat>, tail: seq<nat>, k: nat)
    requires k < |list|
    ensures ToFront(list + tail, k) == ToFront(list, k) + tail
    ensures (list + tail)[k] == list[k]
  {
  }

  /** Feeding the decoder the symbols of a column reproduces the column. The
      decoder's list may be longer than the encoder's. */
  lemma {:induction false} FeedSymbols(c: Context, st: State, list: seq<nat>, tail: seq<nat>, col: seq<nat>, z: nat)
    returns (last: State)
    requires Known(list, col) && st.list == list + tail && list != [] && st.N == 0 && st.es == 0
    requires |st.col| + z + |col| <= c.max < RUN_LIMIT
    ensures FeedAll(c, st, Symbols(list, col, z)).Success?
    ensures EndRun(c, FeedAll(c, st, Symbols(list, col, z)).value) == Success(last)
    ensures last.col == st.col + Repeat(ByteOf(c, list[0]), z) + Map(c, col)
    decreases |col|
  {
    assert Front(st) == list[0];
    hide Front, Feed, EndRun, RunCode, Repeat, Map, ByteOf, FeedAll;
    if col == [] {
      FeedRunFresh(c, st, z);
      last := st.(col := st.col + Repeat(ByteOf(c, list[0]), z));
      assert last.col + Map(c, col) == last.col;
    } else {
      var k := IndexOf(list, col[0]);
      KnownToFront(list, k, col);
      ColumnStep(c, st.col, list[0], z, col);
      if k == 0 {
        last := FeedSymbols(c, st, list, tail, col[1..], z + 1);
      } else {
        var st1 := FeedBehind(c, st, list, tail, col, z, k);
        last := FeedSymbols(c, st1, ToFront(list, k), tail, col[1..], 0);
      }
    }
  }

  lemma FeedBehind(c: Context, st: State, list: seq<nat>, tail: seq<nat>, col: seq<nat>, z: nat, k: nat)
    returns (st1: State)
    requires Known(list, col) && st.list == list + tail && col != [] && st.N == 0 && st.es == 0
    requires col[0] in list && k == IndexOf(list, col[0]) && k > 0 && Known(ToFront(list, k), col)
    requires |st.col| + z < c.max && z < RUN_LIMIT
    ensures FeedAll(c, st, Symbols(list, col, z)) == FeedAll(c, st1, Symbols(ToFront(list, k), col[1..], 0))
    ensures st1 == State(ToFront(list, k) + tail,
                         st.col + Repeat(ByteOf(c, list[0]), z) + [ByteOf(c, col[0])], 0, 0)
  {
    PrefixToFront(list, tail, k);
    FeedRunAndEntry(c, st, z, k);
    var head := RunCode(z) + [k + 1];
    st1 := State(ToFront(list + tail, k), st.col + Repeat(ByteOf(c, list[0]), z) + [ByteOf(c, col[0])], 0, 0);
    assert Front(st) == list[0];
    FeedConcat(c, st, head, Symbols(ToFront(list, k), col[1..], 0));
  }
}
