/** Building the tables that inflate decodes with, from code lengths. */
module InflateTable {
  import opened Bits
  import opened Wrappers
  import opened CountingSort
  import opened LowFirst
  import opened DeflateCode
  import opened DecodingTable

  const ENOUGH_LENS := 852
  const ENOUGH_DISTS := 592

  // ----- counting and sorting

  /** How many of the first `i` symbols have codes of `l` bits. */
  function CountTo(lens: seq<nat>, i: int, l: int): int {
    if 0 <= i <= |lens| && l >= 0 then |Select(lens, i, l)| else 0
  }

  lemma CountNext(lens: seq<nat>, i: nat)
    requires i < |lens|
    ensures forall l :: CountTo(lens, i + 1, l) == CountTo(lens, i, l) + (if l == lens[i] then 1 else 0)
    ensures forall l :: CountTo(lens, 0, l) == 0
  {
  }

  /** The code lengths of the symbols. */
  ghost predicate LensOf(lens: array<nat>, first: nat, codes: nat, l: seq<nat>)
    reads lens
  {
    first + codes <= lens.Length && l == lens[first..first + codes] && CodeLengths(l)
  }

  method CountLengths(lens: array<nat>, first: nat, codes: nat, count: array<int>, ghost l: seq<nat>)
    requires LensOf(lens, first, codes, l) && count.Length == MAXBITS + 1 && Separate(lens, count)
    modifies count
    ensures forall i :: 0 <= i <= MAXBITS ==> count[i] == CountTo(l, codes, i)
  {
    hide CountTo;
    for len := 0 to MAXBITS + 1
      invariant forall i :: 0 <= i < len ==> count[i] == 0
    {
      count[len] := 0;
    }
    CountNone(l);
    for sym := 0 to codes
      invariant LensOf(lens, first, codes, l) && forall i :: 0 <= i <= MAXBITS ==> count[i] == CountTo(l, sym, i)
    {
      CountNext(l, sym);
      assert lens[first + sym] == l[sym];
      count[lens[first + sym]] := count[lens[first + sym]] + 1;
    }
  }

  lemma CountNone(l: seq<nat>)
    ensures forall i :: CountTo(l, 0, i) == 0
  {
  }

  /** The longest and the shortest length that occur; the longest is 0 when none does. */
  method FindLengths(count: array<int>, ghost l: seq<nat>) returns (min: nat, max: nat)
    requires count.Length == MAXBITS + 1 && forall i :: 0 <= i <= MAXBITS ==> count[i] == CountTo(l, |l|, i)
    ensures max <= MAXBITS && (forall i :: max < i <= MAXBITS ==> CountTo(l, |l|, i) == 0)
    ensures max > 0 ==> CountTo(l, |l|, max) != 0 && 1 <= min <= max && CountTo(l, |l|, min) != 0
    ensures forall i :: 1 <= i < min && i <= max ==> CountTo(l, |l|, i) == 0
  {
    hide CountTo;
    max := MAXBITS;
    while max >= 1 && count[max] == 0
      invariant max <= MAXBITS && forall i :: max < i <= MAXBITS ==> count[i] == 0
    {
      max := max - 1;
    }
    min := 1;
    while min < max && count[min] == 0
      invariant 1 <= min && (max > 0 ==> min <= max) && forall i :: 1 <= i < min ==> i <= max ==> count[i] == 0
    {
      min := min + 1;
    }
  }

  lemma SymbolsEnd(l: seq<nat>, n: nat)
    requires n > 0 && CountTo(l, |l|, n) == 0
    ensures Symbols(l, n) == Symbols(l, n - 1)
  {
    hide Select;
    assert Select(l, |l|, n) == [];
  }

  lemma {:induction false} NoneLonger(l: seq<nat>, m: nat, n: nat)
    requires m <= n && forall i :: m < i <= n ==> CountTo(l, |l|, i) == 0
    ensures Symbols(l, n) == Symbols(l, m)
  {
    hide Symbols, CountTo;
    if m < n {
      NoneLonger(l, m, n - 1);
      assert CountTo(l, |l|, n) == 0;
      SymbolsEnd(l, n);
    }
  }

  lemma {:induction false} NoneShorter(l: seq<nat>, m: nat)
    requires forall i :: 1 <= i <= m ==> CountTo(l, |l|, i) == 0
    ensures Symbols(l, m) == []
  {
    if m > 0 {
      NoneShorter(l, m - 1);
      assert CountTo(l, |l|, m) == 0;
      SymbolsEnd(l, m);
    }
  }

  lemma SpaceTaken(l: seq<nat>, i: nat)
    requires 1 <= i <= MAXBITS
    ensures Frontier(l, |Symbols(l, i)|) == Frontier(l, |Symbols(l, i - 1)|) + CountTo(l, |l|, i) * Share(i)
    ensures Share(i - 1) == 2 * Share(i)
    ensures |Symbols(l, i - 1)| <= |Symbols(l, i)| <= |Sorted(l)|
  {
    hide Frontier, Symbols, Share, Count, CountTo;
    SymbolsCount(l, i);
    WithinSymbols(l, i);
    FrontierWithin(l, i, CountTo(l, |l|, i));
    SymbolsPrefix(l, i, MAXBITS);
    ShareTwice(i);
  }

  lemma LeftStep(left: int, count: int, p: int, taken: int, taken': int, total: int)
    requires left * (2 * p) == total - taken && taken' == taken + count * p
    ensures (2 * left - count) * p == total - taken'
  {
    assert (2 * left - count) * p == left * (2 * p) - count * p;
  }

  /** What the codes leave of the code space; negative when they need more than all of it. */
  method SpaceLeft(count: array<int>, ghost l: seq<nat>) returns (left: int)
    requires count.Length == MAXBITS + 1 && forall i :: 0 <= i <= MAXBITS ==> count[i] == CountTo(l, |l|, i)
    ensures left < 0 <==> Frontier(l, |Sorted(l)|) > SPACE
    ensures left >= 0 ==> left == SPACE - Frontier(l, |Sorted(l)|)
  {
    hide CountTo, Symbols, Frontier, Share, Sorted;
    left := 1;
    SpaceStart(l);
    for len := 1 to MAXBITS + 1
      invariant left >= 0 && left * Share(len - 1) == SPACE - Frontier(l, |Symbols(l, len - 1)|)
    {
      SpaceTaken(l, len);
      LeftStep(left, count[len], Share(len), Frontier(l, |Symbols(l, len - 1)|), Frontier(l, |Symbols(l, len)|), SPACE);
      left := 2 * left;
      left := left - count[len];
      if left < 0 {
        Negative(left, Share(len));
        FrontierMonotone(l, |Symbols(l, len)|, |Sorted(l)|);
        return;
      }
    }
    SpaceEnd(l);
  }

  lemma SpaceStart(l: seq<nat>)
    ensures Share(0) == SPACE && Frontier(l, |Symbols(l, 0)|) == 0
  {
    SpaceIs();
  }

  lemma SpaceEnd(l: seq<nat>)
    ensures Share(MAXBITS) == 1 && Sorted(l) == Symbols(l, MAXBITS)
  {
  }

  lemma Negative(x: int, p: nat)
    requires x < 0 && p >= 1
    ensures x * p < 0
  {
  }

  /** Sorts the symbols that have codes by length, symbols of the same length in order. */
  method SortSymbols(lens: array<nat>, first: nat, codes: nat, count: array<int>, work: array<nat>, ghost l: seq<nat>)
    requires LensOf(lens, first, codes, l) && count.Length == MAXBITS + 1 && codes <= work.Length
    requires Separate(lens, work) && Separate(work, count) && forall i :: 0 <= i <= MAXBITS ==>
      count[i] == CountTo(l, codes, i)
    modifies work
    ensures |Sorted(l)| <= codes && work[..|Sorted(l)|] == Sorted(l)
  {
    hide CountTo, Symbols, Place, Sorted;
    var offs := new int[MAXBITS + 1];
    offs[1] := 0;
    NoSymbols(l);
    for len := 1 to MAXBITS
      invariant count.Length == MAXBITS + 1 && forall i :: 1 <= i <= len ==> offs[i] == |Symbols(l, i - 1)|
    {
      offs[len + 1] := offs[len] + count[len];
      SymbolsCount(l, len);
    }
    CountNone(l);
    SortedSize(l);
    for sym := 0 to codes
      invariant LensOf(lens, first, codes, l) && offs.Length == MAXBITS + 1
      invariant forall i :: 1 <= i <= MAXBITS ==> offs[i] == |Symbols(l, i - 1)| + CountTo(l, sym, i)
      invariant forall s :: 0 <= s < sym && l[s] != 0 ==> Place(l, s) < codes && work[Place(l, s)] == s
    {
      CountNext(l, sym);
      assert lens[first + sym] == l[sym];
      if lens[first + sym] != 0 {
        PlaceIs(l, sym);
        work[offs[lens[first + sym]]] := sym;
        offs[lens[first + sym]] := offs[lens[first + sym]] + 1;
      }
    }
    forall k | 0 <= k < |Sorted(l)| ensures work[k] == Sorted(l)[k] {
      SortedAt(l, k);
    }
  }

  lemma NoSymbols(l: seq<nat>)
    ensures |Symbols(l, 0)| == 0
  {
  }

  lemma SymbolsCount(l: seq<nat>, len: nat)
    requires len >= 1
    ensures |Symbols(l, len)| == |Symbols(l, len - 1)| + CountTo(l, |l|, len)
  {
  }

  lemma PlaceIs(l: seq<nat>, s: nat)
    requires CodeLengths(l) && s < |l| && l[s] != 0
    ensures Place(l, s) == |Symbols(l, l[s] - 1)| + CountTo(l, s, l[s]) < |Sorted(l)|
    ensures forall r :: 0 <= r < |l| && l[r] != 0 && r != s ==> Place(l, r) != Place(l, s)
  {
    SymbolPlace(l, s);
    forall r | 0 <= r < |l| && l[r] != 0 && r != s ensures Place(l, r) != Place(l, s) {
      SymbolPlace(l, r);
    }
  }

  lemma SortedAt(l: seq<nat>, k: nat)
    requires k < |Sorted(l)|
    ensures var s := Sorted(l)[k]; s < |l| && l[s] != 0 && Place(l, s) == k
  {
    SymbolAt(l, MAXBITS, k);
  }

  lemma {:induction false} SymbolsBelow(l: seq<nat>, m: nat)
    ensures |Symbols(l, m)| + CountTo(l, |l|, 0) == CountBelow(l, |l|, m + 1)
  {
    CountBelowStep(l, |l|, m);
    if m > 0 { SymbolsBelow(l, m - 1); }
  }

  lemma SortedSize(l: seq<nat>)
    ensures |Sorted(l)| <= |l|
  {
    SymbolsBelow(l, MAXBITS);
  }

  // ----- entering one code

  /** The entry for the symbol `sym`, as the kind of code calls for. */
  method MakeEntry(kind: Kind, sym: nat, bits: nat) returns (here: Entry)
    requires InAlphabet(kind, sym)
    ensures here == SymbolEntry(kind, sym, bits)
  {
    var base, extra, firstMatch := [], [], 20;
    match kind {
      case Codes =>
      case Lens => base, extra, firstMatch := LBASE, LEXT, 257;
      case Dists => base, extra, firstMatch := DBASE, DEXT, 0;
    }
    if sym + 1 < firstMatch {
      here := Entry(0, bits, sym);
    } else if sym >= firstMatch {
      here := Entry(extra[sym - firstMatch], bits, base[sym - firstMatch]);
    } else {
      here := Entry(32 + 64, bits, 0);
    }
  }

  /** How far the entries of the current table have been set. */
  ghost predicate SetDownTo(t: seq<Entry>, u: seq<Entry>, next: nat, curr: nat, d: nat, h: nat, here: Entry,
          fill: nat) {
    && |u| == |t| && next + Pow2(curr) <= |t|
    && forall i :: 0 <= i < |t| ==>
      u[i] == if next <= i < next + Pow2(curr) && LowBits(i - next, d) == h && i - next >= fill then here else t[i]
  }

  lemma SetOneMore(t: seq<Entry>, u: seq<Entry>, next: nat, curr: nat, d: nat, h: nat, here: Entry, fill: nat)
    requires SetDownTo(t, u, next, curr, d, h, here, fill) && 0 < fill <= Pow2(curr) && LowBits(fill, d) == 0
    requires h < Pow2(d)
    ensures fill >= Pow2(d) && LowBits(fill - Pow2(d), d) == 0 && h + (fill - Pow2(d)) < Pow2(curr)
    ensures var i := next + h + (fill - Pow2(d));
      i < |u| && SetDownTo(t, u[i := here], next, curr, d, h, here, fill - Pow2(d))
  {
    LowMinus(fill, d);
    var f := fill - Pow2(d);
    LowPlus(f, h, d);
    hide LowBits, Pow2;
    var i := next + h + f;
    var u' := u[i := here];
    forall j | 0 <= j < |t|
      ensures u'[j] == if next <= j < next + Pow2(curr) && LowBits(j - next, d) == h && j - next >= f then here
        else t[j]
    {
      if next <= j < next + fill && LowBits(j - next, d) == h && j - next >= f {
        SameLowAt(h + f, j - next, d);
      }
    }
  }

  lemma SameLowAt(x: nat, y: nat, d: nat)
    requires LowBits(x, d) == LowBits(y, d) && -(Pow2(d) as int) < x - y < Pow2(d)
    ensures x == y
  {
    if x <= y { SameLow(x, y, d); } else { SameLow(y, x, d); }
  }

  /** Sets all entries of the current table whose index ends with `h`. */
  method Replicate(table: array<Entry>, start: nat, next: nat, h: nat, d: nat, curr: nat, here: Entry)
    requires start + next + Pow2(curr) <= table.Length && h < Pow2(d) && d <= curr
    modifies table
    ensures Replicated(old(table[start..]), table[start..], next, curr, d, h, here)
    ensures table[..start] == old(table[..start])
  {
    hide LowBits, Pow2, SetDownTo;
    ghost var t := table[start..];
    var incr := Pow2(d);
    var fill := Pow2(curr);
    LowOfPow2(curr, d);
    NothingSet(t, next, curr, d, h, here);
    while fill != 0
      invariant 0 <= fill <= Pow2(curr) && LowBits(fill, d) == 0 && table[..start] == old(table[..start])
      invariant SetDownTo(t, table[start..], next, curr, d, h, here, fill)
      decreases fill
    {
      ghost var u := table[start..];
      SetOneMore(t, u, next, curr, d, h, here, fill);
      fill := fill - incr;
      table[start + next + h + fill] := here;
      assert table[start..] == u[next + h + fill := here];
    }
    AllSet(t, table[start..], next, curr, d, h, here);
  }

  lemma NothingSet(t: seq<Entry>, next: nat, curr: nat, d: nat, h: nat, here: Entry)
    requires next + Pow2(curr) <= |t|
    ensures SetDownTo(t, t, next, curr, d, h, here, Pow2(curr))
  {
    hide LowBits, Pow2;
  }

  lemma AllSet(t: seq<Entry>, u: seq<Entry>, next: nat, curr: nat, d: nat, h: nat, here: Entry)
    requires SetDownTo(t, u, next, curr, d, h, here, 0)
    ensures Replicated(t, u, next, curr, d, h, here)
  {
    hide LowBits, Pow2;
  }

  // ----- the next code

  lemma OneMoreBit(c: seq<bool>, m: nat)
    requires 0 < m <= |c|
    ensures BitsOf(ToNat(c[..m]) + 1, m) == if c[m - 1] then BitsOf(ToNat(c[..m - 1]) + 1, m - 1) + [false]
      else c[..m - 1] + [true]
  {
    hide ToNat, BitsOf;
    assert c[..m] == c[..m - 1] + [c[m - 1]];
    ToNatSnoc(c[..m - 1], c[m - 1]);
    BitsOfToNat(c[..m - 1]);
    LastBitAdded(ToNat(c[..m - 1]), c[m - 1], m);
  }

  lemma LastBitAdded(x: nat, b: bool, m: nat)
    requires m > 0
    ensures BitsOf(2 * x + (if b then 1 else 0) + 1, m) == if b then BitsOf(x + 1, m - 1) + [false]
      else BitsOf(x, m - 1) + [true]
  {
    var v := 2 * x + (if b then 1 else 0) + 1;
    assert v / 2 == (if b then x + 1 else x) && (v % 2 == 1 <==> !b);
  }

  /** Backwards increment: the code is a binary number whose last bit is its highest. */
  method Increment(huff: nat, len: nat, ghost c: seq<bool>) returns (r: nat)
    requires 1 <= len == |c| && huff == Val(c)
    ensures r == Val(BitsOf(ToNat(c) + 1, len))
  {
    hide Pow2, Val, ToNat, BitsOf, HasBit;
    var incr := Pow2(len - 1);
    ghost var m: nat := len;
    ghost var all := BitsOf(ToNat(c) + 1, len);
    assert c[..len] == c && all == all + Zeros(0);
    while HasBit(huff, incr)
      invariant m <= len && incr == (if m == 0 then 0 else Pow2(m - 1))
      invariant all == BitsOf(ToNat(c[..m]) + 1, m) + Zeros(len - m)
      decreases m
    {
      BitSet(huff, incr, c, m);
      OneMoreBit(c, m);
      assert BitsOf(ToNat(c[..m - 1]) + 1, m - 1) + [false] + Zeros(len - m)
          == BitsOf(ToNat(c[..m - 1]) + 1, m - 1) + Zeros(len - (m - 1));
      HalfPower(m - 1);
      incr := incr / 2;
      m := m - 1;
    }
    if incr != 0 {
      BitSet(huff, incr, c, m);
      OneMoreBit(c, m);
      RemainderIsLow(huff, m - 1);
      ValSplit(c, m - 1);
      ValAppendZeros(c[..m - 1] + [true], len - m);
      ValAppendOne(c[..m - 1]);
      r := huff % incr;
      r := r + incr;
    } else {
      PowPositive(m);
      assert all == Zeros(len);
      ValZeros(len);
      r := 0;
    }
  }

  lemma PowPositive(m: nat)
    ensures m > 0 ==> Pow2(m - 1) != 0
    ensures BitsOf(ToNat([]) + 1, 0) == []
  {
  }

  lemma HalfPower(m: nat)
    ensures Pow2(m) / 2 == if m == 0 then 0 else Pow2(m - 1)
  {
  }

  lemma BitSet(huff: nat, incr: nat, c: seq<bool>, m: nat)
    requires huff == Val(c) && m <= |c| && incr == (if m == 0 then 0 else Pow2(m - 1))
    ensures HasBit(huff, incr) ==> m > 0 && c[m - 1]
    ensures incr != 0 && !HasBit(huff, incr) ==> m > 0 && !c[m - 1]
  {
    if m > 0 { ValHasBit(c, m - 1); }
  }

  lemma ValAppendOne(a: seq<bool>)
    ensures Val(a + [true]) == Val(a) + Pow2(|a|)
  {
    ValConcat(a, [true]);
    assert [true][1..] == [];
    assert Val([true]) == 1;
    ShiftIsTimes(1, |a|);
  }

  // ----- the size of a sub-table

  /** How many codes of `i` bits are at place `k` or later. */
  function Remaining(l: seq<nat>, k: nat, i: int): int {
    if i < 1 then 0
    else
      var a, b := |Symbols(l, i - 1)|, |Symbols(l, i)|;
      if k <= a then b - a else if k < b then b - k else 0
  }

  function Reach(l: seq<nat>, k: nat, i: int): nat {
    if i < 0 || |Symbols(l, i)| < k then k else |Symbols(l, i)|
  }

  lemma ReachStep(l: seq<nat>, k: nat, i: nat)
    requires 1 <= i <= MAXBITS
    ensures Frontier(l, Reach(l, k, i)) == Frontier(l, Reach(l, k, i - 1)) + Remaining(l, k, i) * Share(i)
    ensures Share(i - 1) == 2 * Share(i)
  {
    hide Frontier, Symbols, Share, CountTo;
    SpaceTaken(l, i);
    SymbolsCount(l, i);
    var a, b := |Symbols(l, i - 1)|, |Symbols(l, i)|;
    if a < k < b {
      WithinLength(l, i, k);
    } else if k <= a {
      SymbolsPrefix(l, i - 1, i);
    } else {
      SymbolsPrefix(l, i - 1, i);
    }
  }

  lemma WithinLength(l: seq<nat>, i: nat, k: nat)
    requires 1 <= i <= MAXBITS && |Symbols(l, i - 1)| <= k <= |Symbols(l, i)|
    ensures Frontier(l, |Symbols(l, i)|) == Frontier(l, k) + (|Symbols(l, i)| - k) * Share(i)
  {
    var a, b := |Symbols(l, i - 1)|, |Symbols(l, i)|;
    SymbolsCount(l, i);
    hide Frontier, Symbols, Share;
    FrontierWithin(l, i, k - a);
    FrontierWithin(l, i, b - a);
    DeflateCode.Distribute(k - a, b - k, Share(i));
  }

  ghost predicate Counted(count: array<int>, l: seq<nat>, k: nat)
    reads count
  {
    count.Length == MAXBITS + 1 && forall i :: 1 <= i <= MAXBITS ==> count[i] == Remaining(l, k, i)
  }

  lemma PowShare(c: nat, r: nat)
    requires r + c <= MAXBITS
    ensures Pow2(c) * Share(r + c) == Share(r)
  {
    hide Pow2;
    PowProduct(c, MAXBITS - r - c);
  }

  /** The sub-table for the codes that begin as that at place `k` does holds all of them. */
  ghost predicate Ample(l: seq<nat>, k: nat, root: nat, curr: nat, max: nat) {
    && LenAt(l, k) <= root + curr <= max <= MAXBITS && 1 <= curr
    && (root + curr == max || Frontier(l, |Symbols(l, root + curr)|) >= Frontier(l, k) + Share(root))
  }

  method SubTableSize(count: array<int>, len: nat, drop: nat, max: nat, ghost l: seq<nat>, ghost k: nat)
    returns (curr: nat)
    requires Counted(count, l, k) && k < |Sorted(l)| && len == LenAt(l, k) && drop < len <= max <= MAXBITS
    ensures Ample(l, k, drop, curr, max)
  {
    hide Frontier, Symbols, Share, LenAt, Sorted, Pow2, Remaining, Reach;
    curr := len - drop;
    var left: int := Pow2(curr);
    PowShare(curr, drop);
    ReachFirst(l, k);
    while curr + drop < max
      invariant len <= curr + drop <= max && left > 0
      invariant left * Share(drop + curr) == Share(drop) - (Frontier(l, Reach(l, k, drop + curr - 1)) - Frontier(l, k))
      decreases max - curr
    {
      ReachStep(l, k, drop + curr);
      ReachStep(l, k, drop + curr + 1);
      TakeAway(left, count[curr + drop], Share(drop + curr), Share(drop),
               Frontier(l, Reach(l, k, drop + curr - 1)) - Frontier(l, k),
               Frontier(l, Reach(l, k, drop + curr)) - Frontier(l, k));
      left := left - count[curr + drop];
      if left <= 0 {
        NotPositive(left, Share(drop + curr));
        ReachLater(l, k, drop + curr);
        break;
      }
      LeftStep(left, 0, Share(drop + curr + 1), Frontier(l, Reach(l, k, drop + curr)) - Frontier(l, k),
               Frontier(l, Reach(l, k, drop + curr)) - Frontier(l, k), Share(drop));
      curr := curr + 1;
      left := 2 * left;
    }
  }

  lemma TakeAway(left: int, count: int, p: int, total: int, taken: int, taken': int)
    requires left * p == total - taken && taken' == taken + count * p
    ensures (left - count) * p == total - taken'
  {
  }

  lemma NotPositive(x: int, p: nat)
    requires x <= 0
    ensures x * p <= 0
  {
  }

  lemma ReachFirst(l: seq<nat>, k: nat)
    requires k < |Sorted(l)|
    ensures Reach(l, k, LenAt(l, k) - 1) == k
  {
    LenRange(l, k);
  }

  lemma ReachLater(l: seq<nat>, k: nat, i: nat)
    requires k < |Sorted(l)| && LenAt(l, k) <= i
    ensures Reach(l, k, i) == |Symbols(l, i)|
  {
    LenRange(l, k);
    hide Symbols, LenAt;
    SymbolsPrefix(l, LenAt(l, k), i);
  }

  // ----- going on to the next code

  /** Incrementing carries past the first `r` bits only when the others become zeros. */
  lemma {:induction false} CarryOrStay(c: seq<bool>, r: nat)
    requires r <= |c|
    ensures var d := BitsOf(ToNat(c) + 1, |c|); d[..r] == c[..r] || d[r..] == Zeros(|c| - r)
    decreases |c| - r
  {
    hide BitsOf, ToNat, Zeros;
    var n := |c|;
    assert c[..n] == c;
    if r < n {
      OneMoreBit(c, n);
      if c[n - 1] {
        CarryOrStay(c[..n - 1], r);
        Carried(c, r, BitsOf(ToNat(c[..n - 1]) + 1, n - 1));
      } else {
        assert (c[..n - 1] + [true])[..r] == c[..r];
      }
    } else {
      var d := BitsOf(ToNat(c) + 1, n);
      assert d[r..] == [] == Zeros(0);
    }
  }

  lemma Carried(c: seq<bool>, r: nat, e: seq<bool>)
    requires r < |c| && |e| == |c| - 1 && (e[..r] == c[..|c| - 1][..r] || e[r..] == Zeros(|c| - 1 - r))
    ensures (e + [false])[..r] == c[..r] || (e + [false])[r..] == Zeros(|c| - r)
  {
    if e[r..] == Zeros(|c| - 1 - r) {
      assert (e + [false])[r..] == e[r..] + [false] == Zeros(|c| - r);
    } else {
      assert (e + [false])[..r] == e[..r] && c[..|c| - 1][..r] == c[..r];
    }
  }

  /** What comes after the code at place `k`, as a number read from its low end. */
  lemma NextHuff(l: seq<nat>, k: nat, r: nat)
    requires Fits(l) && k + 1 < |Sorted(l)|
    ensures LenAt(l, k) <= LenAt(l, k + 1) <= MAXBITS
    ensures Val(BitsOf(ToNat(CodeAt(l, k)) + 1, LenAt(l, k))) == Val(CodeAt(l, k + 1))
    ensures r <= LenAt(l, k + 1) ==>
      (r < LenAt(l, k) && CodeAt(l, k + 1)[..r] == CodeAt(l, k)[..r])
        || CodeAt(l, k + 1)[r..] == Zeros(LenAt(l, k + 1) - r)
  {
    hide LenAt, Sorted, CodeAt, Frontier, Val, Fits, BitsOf, ToNat;
    NextCodeIs(l, k);
    var c, n, m := CodeAt(l, k), LenAt(l, k), LenAt(l, k + 1);
    var d := BitsOf(ToNat(c) + 1, n);
    ValAppendZeros(d, m - n);
    if r <= m { NextPrefix(c, d, n, m, r); }
  }

  lemma NextCodeIs(l: seq<nat>, k: nat)
    requires Fits(l) && k + 1 < |Sorted(l)|
    ensures LenAt(l, k) <= LenAt(l, k + 1) <= MAXBITS
    ensures CodeAt(l, k + 1) == BitsOf(ToNat(CodeAt(l, k)) + 1, LenAt(l, k)) + Zeros(LenAt(l, k + 1) - LenAt(l, k))
  {
    hide LenAt, Sorted, CodeAt, Frontier, Fits;
    var x := CodeNumberAt(l, k);
    CodeFits(l, k, x);
    NextCode(l, k, x);
    ToNatBitsOf(x, LenAt(l, k));
  }

  lemma NextPrefix(c: seq<bool>, d: seq<bool>, n: nat, m: nat, r: nat)
    requires |c| == |d| == n <= m && r <= m && d == BitsOf(ToNat(c) + 1, n)
    ensures var e := d + Zeros(m - n); (r < n && e[..r] == c[..r]) || e[r..] == Zeros(m - r)
  {
    var e := d + Zeros(m - n);
    if r < n {
      CarryOrStay(c, r);
      assert e[..r] == d[..r] && e[r..] == d[r..] + Zeros(m - n);
      assert Zeros(n - r) + Zeros(m - n) == Zeros(m - r);
    }
  }

  /** The number after the last code is zero when the codes fill the code space. */
  lemma LastHuff(l: seq<nat>, k: nat)
    requires Fits(l) && k + 1 == |Sorted(l)|
    ensures LenAt(l, k) >= 1
    ensures Frontier(l, k + 1) == SPACE ==> Val(BitsOf(ToNat(CodeAt(l, k)) + 1, LenAt(l, k))) == 0
    ensures LenAt(l, k) == 1 && Frontier(l, k + 1) < SPACE ==>
      CodeAt(l, k) == [false] && Val(BitsOf(ToNat(CodeAt(l, k)) + 1, LenAt(l, k))) == 1
  {
    hide LenAt, Sorted, CodeAt, Val, Fits, Frontier, BitsOf, ToNat, ShiftLeft, Share;
    var x := CodeNumberAt(l, k);
    CodeFits(l, k, x);
    var n := LenAt(l, k);
    ToNatBitsOf(x, n);
    FrontierNext(l, k);
    ShiftAddOne(x, MAXBITS - n);
    SpaceIs();
    if Frontier(l, k + 1) == SPACE {
      LastOfAll(x, n);
    } else if n == 1 {
      OneBitCode(x);
    }
  }

  lemma LastOfAll(x: nat, n: nat)
    requires n <= MAXBITS && ShiftLeft(x + 1, MAXBITS - n) == SPACE
    ensures Val(BitsOf(x + 1, n)) == 0
  {
    hide Val, ShiftLeft;
    SpaceIs();
    ShiftPow(n, MAXBITS - n);
    ShiftSame(x + 1, Pow2(n), MAXBITS - n);
    PowBits(n);
    ValZeros(n);
  }

  lemma {:induction false} ShiftPow(n: nat, d: nat)
    ensures ShiftLeft(Pow2(n), d) == Pow2(n + d)
  {
    if d > 0 { ShiftPow(n, d - 1); }
  }

  lemma {:induction false} PowBits(n: nat)
    ensures BitsOf(Pow2(n), n) == Zeros(n)
  {
    if n > 0 {
      PowBits(n - 1);
      assert Zeros(n) == Zeros(n - 1) + [false];
    }
  }

  lemma OneBitCode(x: nat)
    requires x < Pow2(1) && ShiftLeft(x + 1, MAXBITS - 1) < Pow2(MAXBITS)
    ensures BitsOf(x, 1) == [false] && Val(BitsOf(x + 1, 1)) == 1
  {
    hide ShiftLeft, Pow2;
    ShiftPow(1, MAXBITS - 1);
    OneBit();
    assert x != 1;
  }

  lemma OneBit()
    ensures Pow2(1) == 2 && BitsOf(0, 1) == [false] && BitsOf(1, 1) == [true] && Val([true]) == 1
  {
    assert BitsOf(0, 1) == BitsOf(0, 0) + [false] && BitsOf(1, 1) == BitsOf(0, 0) + [true] == [true];
    assert [true][1..] == [];
  }

  // ----- the state of the loop

  /** No code is longer than `max`. */
  ghost predicate UpTo(l: seq<nat>, max: nat) {
    max <= MAXBITS && forall k :: 0 <= k < |Sorted(l)| ==> LenAt(l, k) <= max
  }

  /** The sub-table for the strings that begin with `lo` holds all of their codes. */
  ghost predicate Room(l: seq<nat>, root: nat, lo: seq<bool>, curr: nat, max: nat) {
    lo != [] ==>
      && root + curr <= max <= MAXBITS
      && (root + curr == max
          || Frontier(l, |Symbols(l, root + curr)|) >= ShiftLeft(ToNat(lo), MAXBITS - root) + Share(root))
  }

  /** The first `k` codes are in the table, and the next one belongs into the current
      part of it. */
  ghost predicate Filling(t: seq<Entry>, root: nat, kind: Kind, l: seq<nat>, k: nat, lo: seq<bool>, next: nat,
          curr: nat, max: nat) {
    && Fits(l) && k < |Sorted(l)| && UpTo(l, max)
    && Entered(t, root, kind, l, k, lo, next) && Current(t, root, lo, next, curr)
    && Belongs(l, k, root, lo, curr) && Room(l, root, lo, curr, max)
  }

  /** The frontier before a code that begins with `lo` is in the range of `lo`. */
  lemma PrefixFrontier(l: seq<nat>, k: nat, lo: seq<bool>)
    requires Fits(l) && k < |Sorted(l)| && lo <= CodeAt(l, k)
    ensures |lo| <= MAXBITS
    ensures ShiftLeft(ToNat(lo), MAXBITS - |lo|) <= Frontier(l, k) < ShiftLeft(ToNat(lo), MAXBITS - |lo|) + Share(|lo|)
  {
    hide LenAt, Sorted, CodeAt, Frontier, Fits, ShiftLeft, ToNat, BitsOf;
    var x := CodeNumberAt(l, k);
    CodeFits(l, k, x);
    var c := CodeAt(l, k);
    ToNatBitsOf(x, |c|);
    var v := c + Zeros(MAXBITS - |c|);
    ToNatAppendZeros(c, MAXBITS - |c|);
    assert lo <= v;
    BeginsWith(lo, v);
  }

  /** A code that begins with zeros after `lo` begins the range of `lo`. */
  lemma ZerosFrontier(l: seq<nat>, k: nat, root: nat)
    requires Fits(l) && k < |Sorted(l)| && root <= LenAt(l, k) && CodeAt(l, k)[root..] == Zeros(LenAt(l, k) - root)
    ensures root <= MAXBITS && Frontier(l, k) == ShiftLeft(ToNat(CodeAt(l, k)[..root]), MAXBITS - root)
  {
    hide LenAt, Sorted, CodeAt, Frontier, Fits, ShiftLeft, ToNat, BitsOf;
    var x := CodeNumberAt(l, k);
    CodeFits(l, k, x);
    var c := CodeAt(l, k);
    ToNatBitsOf(x, |c|);
    assert c == c[..root] + Zeros(|c| - root);
    ToNatAppendZeros(c[..root], |c| - root);
    ShiftTwice(ToNat(c[..root]), |c| - root, MAXBITS - |c|);
  }

  /** The next code belongs into the current table, unless it is longer than the root
      index and begins with other bits than those of the current sub-table. */
  lemma GoOn(l: seq<nat>, k: nat, root: nat, lo: seq<bool>, curr: nat, max: nat)
    requires Fits(l) && k + 1 < |Sorted(l)| && UpTo(l, max) && Belongs(l, k, root, lo, curr)
    requires Room(l, root, lo, curr, max)
    requires if lo == [] then curr == root && LenAt(l, k + 1) <= root
             else |lo| == root && (LenAt(l, k + 1) <= root || CodeAt(l, k + 1)[..root] == lo)
    ensures Belongs(l, k + 1, root, lo, curr)
  {
    hide Sorted, LenAt, CodeAt, Frontier, Fits, ShiftLeft, ToNat, Symbols, Share;
    LenOrder(l, k, k + 1);
    if lo != [] {
      PrefixFrontier(l, k + 1, lo);
      if LenAt(l, k + 1) > root + curr {
        LenRange(l, k + 1);
        SymbolsPrefix(l, root + curr, LenAt(l, k + 1) - 1);
        FrontierMonotone(l, |Symbols(l, root + curr)|, k + 1);
      }
    }
  }

  // ----- filling the tables

  ghost predicate WorkOf(work: array<nat>, l: seq<nat>, kind: Kind)
    reads work
  {
    |Sorted(l)| <= work.Length && work[..|Sorted(l)|] == Sorted(l) && Alphabet(kind, l)
  }

  lemma WorkAt(work: array<nat>, l: seq<nat>, kind: Kind, k: nat)
    requires WorkOf(work, l, kind) && k < |Sorted(l)|
    ensures k < work.Length && work[k] == Sorted(l)[k] < |l| && InAlphabet(kind, work[k]) && l[work[k]] == LenAt(l, k)
    ensures forall bits :: EntryAt(kind, l, k, bits) == SymbolEntry(kind, work[k], bits)
  {
    LenRange(l, k);
    hide LenAt, Sorted;
  }

  /** Enters the code at place `sym`. */
  method EnterOne(kind: Kind, work: array<nat>, sym: nat, len: nat, drop: nat, huff: nat, table: array<Entry>,
          start: nat, next: nat, curr: nat, ghost root: nat, ghost l: seq<nat>, ghost lo: seq<bool>, ghost max: nat)
    requires start <= table.Length && Filling(table[start..], root, kind, l, sym, lo, next, curr, max)
    requires WorkOf(work, l, kind) && Separate(work, table)
    requires len == LenAt(l, sym) && drop == Drop(root, lo) && huff == Val(CodeAt(l, sym))
    modifies table
    ensures Entered(table[start..], root, kind, l, sym + 1, lo, next) && Current(table[start..], root, lo, next, curr)
    ensures table[..start] == old(table[..start])
  {
    hide LenAt, Sorted, CodeAt, Val, Entered, EntryAt, Fits, UpTo, Room, Frontier, Pow2, LowBits, Replicated;
    ghost var t, c := table[start..], CodeAt(l, sym);
    WorkAt(work, l, kind, sym);
    ValSplit(c, drop);
    var here := MakeEntry(kind, work[sym], len - drop);
    Replicate(table, start, next, ShiftRight(huff, drop), len - drop, curr, here);
    EnterCode(t, table[start..], root, kind, l, sym, lo, next, curr);
  }

  predicate TooMuch(kind: Kind, used: nat) {
    (kind == Lens && used > ENOUGH_LENS) || (kind == Dists && used > ENOUGH_DISTS)
  }

  /** The room that the caller provides. Codes of the kind `Codes` are not longer than the
      root table's index, so that they need no more than the root table. */
  ghost predicate Provided(kind: Kind, room: int, root: nat, max: nat) {
    match kind
    case Codes => max <= root && Pow2(root) <= room
    case Lens => ENOUGH_LENS <= room
    case Dists => ENOUGH_DISTS <= room
  }

  /** The root bits that lead to the current sub-table; -1 when there is none. */
  function LowOf(lo: seq<bool>): int {
    if lo == [] then -1 else Val(lo)
  }

  /** The first `k` codes are in the table, and the next one, which is `c`, begins a new
      sub-table. */
  ghost predicate Boundary(t: seq<Entry>, root: nat, kind: Kind, l: seq<nat>, k: nat, lo: seq<bool>, next: nat,
          curr: nat, max: nat, c: seq<bool>)
  {
    && Fits(l) && k < |Sorted(l)| && UpTo(l, max)
    && Entered(t, root, kind, l, k, lo, next) && Current(t, root, lo, next, curr)
    && c == CodeAt(l, k) && root < |c| && c[root..] == Zeros(|c| - root)
  }

  lemma SubTableFilling(t: seq<Entry>, root: nat, kind: Kind, l: seq<nat>, k: nat, lo: seq<bool>, next: nat, curr: nat,
                        curr': nat, max: nat, c: seq<bool>)
    requires Boundary(t, root, kind, l, k, lo, next, curr, max, c)
    requires Ample(l, k, root, curr', max) && next + Pow2(curr) + Pow2(curr') <= |t|
    ensures root < |c| && Val(c[..root]) < |t|
    ensures Filling(t[Val(c[..root]) := Entry(curr', root, next + Pow2(curr))], root, kind, l, k, c[..root],
      next + Pow2(curr), curr', max)
  {
    hide LenAt, Sorted, CodeAt, Val, Entered, Fits, UpTo, Frontier, Pow2, Current, Belongs, Room, Ample;
    SubTableBelongs(t, root, kind, l, k, lo, next, curr, curr', max, c);
    NewSubTable(t, root, kind, l, k, lo, next, curr, curr', c);
  }

  lemma SubTableBelongs(t: seq<Entry>, root: nat, kind: Kind, l: seq<nat>, k: nat, lo: seq<bool>, next: nat, curr: nat,
                        curr': nat, max: nat, c: seq<bool>)
    requires Boundary(t, root, kind, l, k, lo, next, curr, max, c) && Ample(l, k, root, curr', max)
    ensures 1 <= curr' && root + curr' <= MAXBITS
    ensures Belongs(l, k, root, c[..root], curr') && Room(l, root, c[..root], curr', max)
  {
    hide LenAt, Sorted, CodeAt, Boundary, Fits, Frontier, Symbols, ShiftLeft, ToNat, Share;
    BoundaryFacts(t, root, kind, l, k, lo, next, curr, max, c);
    ZerosFrontier(l, k, root);
  }

  lemma CurrentRoot(t: seq<Entry>, root: nat, lo: seq<bool>, next: nat, curr: nat)
    requires Current(t, root, lo, next, curr)
    ensures 1 <= root <= MAXBITS && next + Pow2(curr) <= |t|
  {
  }

  /** Begins a sub-table for the codes that begin as the one at place `k` does. */
  method AddSubTable(kind: Kind, count: array<int>, len: nat, root: nat, huff: nat, table: array<Entry>, start: nat,
          next0: nat, curr0: nat, used0: nat, max: nat, ghost l: seq<nat>, ghost k: nat, ghost lo0: seq<bool>)
    returns (ok: bool, next: nat, curr: nat, used: nat, low: int, ghost lo: seq<bool>)
    requires start <= table.Length && Boundary(table[start..], root, kind, l, k, lo0, next0, curr0, max, CodeAt(l, k))
    requires Counted(count, l, k) && Separate(count, table) && len == LenAt(l, k) && huff == Val(CodeAt(l, k))
    requires used0 == next0 + Pow2(curr0) && Provided(kind, table.Length - start, root, max)
    modifies table
    ensures table[..start] == old(table[..start])
    ensures ok ==>
      Filling(table[start..], root, kind, l, k, lo, next, curr, max) && used == next + Pow2(curr) && low == LowOf(lo)
    ensures !ok ==> TooMuch(kind, used)
  {
    hide LenAt, Sorted, CodeAt, Val, Boundary, Pow2, Counted, Ample, Filling, LowBits;
    ghost var t, c := table[start..], CodeAt(l, k);
    BoundaryFacts(t, root, kind, l, k, lo0, next0, curr0, max, c);
    next := next0 + Pow2(curr0);
    curr := SubTableSize(count, len, root, max, l, k);
    used := used0 + Pow2(curr);
    low, lo := -1, c[..root];
    if TooMuch(kind, used) {
      return false, next, curr, used, low, lo;
    }
    ok := true;
    ValSplit(c, root);
    SubTableFilling(t, root, kind, l, k, lo0, next0, curr0, curr, max, c);
    low := LowBits(huff, root);
    table[start + low] := Entry(curr, root, next);
    assert table[start..] == t[low := Entry(curr, root, next)];
  }

  lemma BoundaryFacts(t: seq<Entry>, root: nat, kind: Kind, l: seq<nat>, k: nat, lo: seq<bool>, next: nat, curr: nat,
          max: nat, c: seq<bool>)
    requires Boundary(t, root, kind, l, k, lo, next, curr, max, c)
    ensures k < |Sorted(l)| && 1 <= root < LenAt(l, k) <= max <= MAXBITS && |c| == LenAt(l, k)
    ensures Fits(l) && c == CodeAt(l, k) && c[root..] == Zeros(|c| - root)
  {
    CurrentRoot(t, root, lo, next, curr);
    NotLonger(l, k, max);
  }

  lemma NotLonger(l: seq<nat>, k: nat, max: nat)
    requires UpTo(l, max) && k < |Sorted(l)|
    ensures LenAt(l, k) <= max <= MAXBITS
  {
  }

  lemma CountedNext(count: array<int>, l: seq<nat>, k: nat)
    requires Counted(count, l, k) && k < |Sorted(l)|
    ensures 1 <= LenAt(l, k) <= MAXBITS
    ensures forall i :: 1 <= i <= MAXBITS ==> Remaining(l, k + 1, i) == count[i] - if i == LenAt(l, k) then 1 else 0
  {
    hide Symbols, LenAt, Sorted;
    LenRange(l, k);
    var n := LenAt(l, k);
    forall i | 1 <= i <= MAXBITS ensures Remaining(l, k + 1, i) == count[i] - if i == n then 1 else 0 {
      if i < n { SymbolsPrefix(l, i, n - 1); }
      if n < i { SymbolsPrefix(l, n, i - 1); }
      SymbolsPrefix(l, i - 1, i);
    }
  }

  /** Whether there are more codes of the same length, and which length is next. */
  lemma LengthNext(l: seq<nat>, k: nat, max: nat)
    requires k < |Sorted(l)| && UpTo(l, max) && CountTo(l, |l|, max) != 0 && 1 <= max
    ensures 1 <= LenAt(l, k) <= max
    ensures Remaining(l, k + 1, LenAt(l, k)) != 0 ==> k + 1 < |Sorted(l)| && LenAt(l, k + 1) == LenAt(l, k)
    ensures Remaining(l, k + 1, LenAt(l, k)) == 0 && LenAt(l, k) == max ==> k + 1 == |Sorted(l)|
    ensures Remaining(l, k + 1, LenAt(l, k)) == 0 && LenAt(l, k) < max ==> k + 1 < |Sorted(l)|
  {
    hide Symbols, LenAt, CountTo;
    LenRange(l, k);
    var n := LenAt(l, k);
    SymbolsPrefix(l, n, MAXBITS);
    SymbolsCount(l, max);
    SymbolsPrefix(l, max - 1, max);
    SymbolsPrefix(l, max, MAXBITS);
    if Remaining(l, k + 1, n) != 0 {
      LenIs(l, k + 1, n);
    } else if n < max {
      SymbolsPrefix(l, n, max - 1);
    } else if k + 1 < |Sorted(l)| {
      LenRange(l, k + 1);
      if LenAt(l, k + 1) <= n { SymbolsPrefix(l, LenAt(l, k + 1), n); }
    }
  }

  /** The state at the start of each round of the loop. */
  ghost predicate Round(t: seq<Entry>, count: array<int>, kind: Kind, l: seq<nat>, root: nat, max: nat, sym: nat,
          len: nat, huff: nat, lo: seq<bool>, next: nat, curr: nat, used: nat)
    reads count
  {
    && Filling(t, root, kind, l, sym, lo, next, curr, max) && Counted(count, l, sym)
    && len == LenAt(l, sym) && huff == Val(CodeAt(l, sym)) && used == next + Pow2(curr)
  }

  /** Between entering a code and the next one: the next code belongs into the current
      table, or begins a new one. */
  lemma Onward(t: seq<Entry>, kind: Kind, l: seq<nat>, k: nat, root: nat, lo: seq<bool>, next: nat, curr: nat, max: nat)
    requires Fits(l) && k + 1 < |Sorted(l)| && UpTo(l, max) && Belongs(l, k, root, lo, curr)
    requires Room(l, root, lo, curr, max)
    requires Entered(t, root, kind, l, k + 1, lo, next) && Current(t, root, lo, next, curr)
    ensures if LenAt(l, k + 1) > root && LowBits(Val(CodeAt(l, k + 1)), root) != LowOf(lo)
      then Boundary(t, root, kind, l, k + 1, lo, next, curr, max, CodeAt(l, k + 1))
      else Filling(t, root, kind, l, k + 1, lo, next, curr, max)
  {
    hide LenAt, Sorted, CodeAt, Val, Entered, Fits, UpTo, Frontier, Pow2, Current, Belongs, Room, LowBits, LowOf, Zeros;
    OnwardCode(t, l, k, root, lo, next, curr);
    if !(LenAt(l, k + 1) > root && LowBits(Val(CodeAt(l, k + 1)), root) != LowOf(lo)) {
      GoOn(l, k, root, lo, curr, max);
    }
  }

  /** The root bits of the next code tell whether it begins a new sub-table. */
  lemma OnwardCode(t: seq<Entry>, l: seq<nat>, k: nat, root: nat, lo: seq<bool>, next: nat, curr: nat)
    requires Fits(l) && k + 1 < |Sorted(l)| && Belongs(l, k, root, lo, curr) && Current(t, root, lo, next, curr)
    ensures if lo == [] then curr == root else |lo| == root
    ensures LenAt(l, k + 1) > root && LowBits(Val(CodeAt(l, k + 1)), root) != LowOf(lo) ==>
      CodeAt(l, k + 1)[root..] == Zeros(LenAt(l, k + 1) - root)
    ensures LenAt(l, k + 1) > root && LowBits(Val(CodeAt(l, k + 1)), root) == LowOf(lo) ==>
      lo != [] && CodeAt(l, k + 1)[..root] == lo
  {
    hide LenAt, Sorted, CodeAt, Val, Fits, Current, Belongs, LowBits, Zeros;
    CurrentLow(t, root, lo, next, curr);
    NextHuff(l, k, root);
    BelongsLow(l, k, root, lo, curr);
    var c := CodeAt(l, k + 1);
    if LenAt(l, k + 1) > root {
      ValSplit(c, root);
      if LowBits(Val(c), root) == LowOf(lo) {
        ValInjective(c[..root], lo);
      }
    }
  }

  lemma CurrentLow(t: seq<Entry>, root: nat, lo: seq<bool>, next: nat, curr: nat)
    requires Current(t, root, lo, next, curr)
    ensures if lo == [] then curr == root else |lo| == root
    ensures lo != [] ==> LowOf(lo) == Val(lo)
  {
  }

  /** The code that was entered last begins with `lo`. */
  lemma BelongsLow(l: seq<nat>, k: nat, root: nat, lo: seq<bool>, curr: nat)
    requires Belongs(l, k, root, lo, curr) && (lo != [] ==> |lo| == root) && (lo == [] ==> curr == root)
    ensures lo == [] ==> LenAt(l, k) <= root
    ensures lo != [] ==> root <= LenAt(l, k) && CodeAt(l, k)[..root] == lo
  {
    hide LenAt, CodeAt;
  }

  /** All codes have been entered. */
  ghost predicate AllEntered(t: seq<Entry>, root: nat, kind: Kind, l: seq<nat>) {
    exists lo, next :: Entered(t, root, kind, l, |Sorted(l)|, lo, next)
  }

  /** Goes on to the next code after the code at place `k` has been entered. */
  method NextRound(kind: Kind, count: array<int>, len: nat, root: nat, huff: nat, table: array<Entry>, start: nat,
          next0: nat, curr0: nat, used0: nat, max: nat, low0: int, drop0: nat, ghost l: seq<nat>, ghost k: nat,
          ghost lo0: seq<bool>)
    returns (ok: bool, next: nat, curr: nat, used: nat, low: int, drop: nat, ghost lo: seq<bool>)
    requires start <= table.Length && Provided(kind, table.Length - start, root, max) && Separate(count, table)
    requires Fits(l) && k + 1 < |Sorted(l)| && UpTo(l, max) && Belongs(l, k, root, lo0, curr0)
    requires Room(l, root, lo0, curr0, max)
    requires Entered(table[start..], root, kind, l, k + 1, lo0, next0)
    requires Current(table[start..], root, lo0, next0, curr0)
    requires Counted(count, l, k + 1) && len == LenAt(l, k + 1) && huff == Val(CodeAt(l, k + 1))
    requires used0 == next0 + Pow2(curr0)
    requires low0 == LowOf(lo0) && drop0 == Drop(root, lo0)
    modifies table
    ensures table[..start] == old(table[..start]) && Counted(count, l, k + 1)
    ensures ok ==> Round(table[start..], count, kind, l, root, max, k + 1, len, huff, lo, next, curr, used)
    ensures ok ==> low == LowOf(lo) && drop == Drop(root, lo)
    ensures !ok ==> TooMuch(kind, used) && len > root
  {
    hide LenAt, Sorted, CodeAt, Val, Entered, Fits, UpTo, Pow2, Current, Belongs, Room, LowBits, Boundary, Filling,
         Counted;
    Onward(table[start..], kind, l, k, root, lo0, next0, curr0, max);
    ok, next, curr, used, low, drop, lo := true, next0, curr0, used0, low0, drop0, lo0;
    if len > root && LowBits(huff, root) != low {
      if drop == 0 {
        drop := root;
      }
      BoundaryFacts(table[start..], root, kind, l, k + 1, lo0, next0, curr0, max, CodeAt(l, k + 1));
      ok, next, curr, used, low, lo :=
        AddSubTable(kind, count, len, root, huff, table, start, next0, curr0, used0, max, l, k + 1, lo0);
      if ok { FillingDrop(table[start..], root, kind, l, k + 1, lo, next, curr, max, drop0, lo0); }
    }
  }

  lemma FillingDrop(t: seq<Entry>, root: nat, kind: Kind, l: seq<nat>, k: nat, lo: seq<bool>, next: nat, curr: nat,
          max: nat, drop0: nat, lo0: seq<bool>)
    requires Filling(t, root, kind, l, k, lo, next, curr, max) && LenAt(l, k) > root && drop0 == Drop(root, lo0)
    ensures (if drop0 == 0 then root else drop0) == Drop(root, lo)
  {
    hide LenAt, CodeAt, Sorted, Entered, Fits, UpTo, Room;
  }

  /** Between entering the code at place `k` and going on to the next one. */
  ghost predicate Between(t: seq<Entry>, count: array<int>, kind: Kind, l: seq<nat>, k: nat, root: nat, lo: seq<bool>,
          next: nat, curr: nat, max: nat)
    reads count
  {
    && Fits(l) && k < |Sorted(l)| && UpTo(l, max) && Belongs(l, k, root, lo, curr) && Room(l, root, lo, curr, max)
    && Entered(t, root, kind, l, k + 1, lo, next) && Current(t, root, lo, next, curr) && Counted(count, l, k + 1)
  }

  lemma RoundFacts(t: seq<Entry>, root: nat, kind: Kind, l: seq<nat>, k: nat, lo: seq<bool>, next: nat, curr: nat,
          max: nat)
    requires Filling(t, root, kind, l, k, lo, next, curr, max)
    ensures k < |Sorted(l)| && Fits(l) && UpTo(l, max) && Belongs(l, k, root, lo, curr) && Room(l, root, lo, curr, max)
    ensures Current(t, root, lo, next, curr)
  {
  }

  /** Enters the code at place `sym`, and finds what comes after it. */
  method EnterRound(kind: Kind, lens: array<nat>, first: nat, codes: nat, count: array<int>, work: array<nat>,
          table: array<Entry>, start: nat, sym: nat, len0: nat, huff0: nat, next: nat, curr: nat, drop: nat, max: nat,
          ghost root: nat, ghost l: seq<nat>, ghost lo: seq<bool>, ghost used: nat)
    returns (more: bool, len: nat, huff: nat)
    requires LensOf(lens, first, codes, l) && WorkOf(work, l, kind) && start <= table.Length && drop == Drop(root, lo)
    requires Round(table[start..], count, kind, l, root, max, sym, len0, huff0, lo, next, curr, used)
    requires 1 <= max && CountTo(l, codes, max) != 0
    requires Separate(count, table) && Separate(work, table) && Separate(lens, table) && Separate(count, work)
    requires Separate(count, lens)
    modifies table, count
    ensures table[..start] == old(table[..start])
    ensures Between(table[start..], count, kind, l, sym, root, lo, next, curr, max)
    ensures more ==> sym + 1 < |Sorted(l)| && len == LenAt(l, sym + 1) && huff == Val(CodeAt(l, sym + 1))
    ensures !more ==> sym + 1 == |Sorted(l)| && huff == Val(BitsOf(ToNat(CodeAt(l, sym)) + 1, LenAt(l, sym)))
  {
    hide LenAt, Sorted, CodeAt, Val, Entered, Fits, UpTo, Pow2, Current, Belongs, Room, Filling, WorkOf, CountTo,
         BitsOf, ToNat;
    RoundFacts(table[start..], root, kind, l, sym, lo, next, curr, max);
    CountedNext(count, l, sym);
    EnterOne(kind, work, sym, len0, drop, huff0, table, start, next, curr, root, l, lo, max);
    huff := Increment(huff0, len0, CodeAt(l, sym));
    count[len0] := count[len0] - 1;
    LengthNext(l, sym, max);
    more, len := true, len0;
    if count[len0] == 0 {
      if len0 == max {
        more := false;
        return;
      }
      WorkAt(work, l, kind, sym + 1);
      len := lens[first + work[sym + 1]];
    }
    NextHuff(l, sym, 0);
  }

  lemma BetweenParts(t: seq<Entry>, count: array<int>, kind: Kind, l: seq<nat>, k: nat, root: nat, lo: seq<bool>,
          next: nat, curr: nat, max: nat)
    requires Between(t, count, kind, l, k, root, lo, next, curr, max)
    ensures Fits(l) && UpTo(l, max) && Belongs(l, k, root, lo, curr) && Room(l, root, lo, curr, max)
    ensures Entered(t, root, kind, l, k + 1, lo, next) && Current(t, root, lo, next, curr) && Counted(count, l, k + 1)
    ensures |lo| <= MAXBITS && next + Pow2(curr) <= |t| && Pow2(root) <= next + Pow2(curr)
  {
  }

  lemma FirstRound(t: seq<Entry>, count: array<int>, kind: Kind, l: seq<nat>, root: nat, max: nat)
    requires Fits(l) && Sorted(l) != [] && UpTo(l, max) && Counted(count, l, 0) && LenAt(l, 0) <= root
    requires 1 <= root <= max
    requires Pow2(root) <= |t|
    ensures Round(t, count, kind, l, root, max, 0, LenAt(l, 0), 0, [], 0, root, Pow2(root))
  {
    hide LenAt, Sorted, CodeAt, Fits, UpTo, Counted, Belongs, Entered, Current, Val;
    NotLonger(l, 0, max);
    FirstCode0(l);
    FirstTable(t, l, root, kind);
  }

  /** The first code is all zeros. */
  lemma FirstCode0(l: seq<nat>)
    requires Sorted(l) != []
    ensures CodeAt(l, 0) == Zeros(LenAt(l, 0)) && Val(CodeAt(l, 0)) == 0
  {
    hide LenAt, Sorted, CodeAt;
    var x := CodeNumberAt(l, 0);
    ShiftNothing(MAXBITS - LenAt(l, 0));
    ShiftSame(x, 0, MAXBITS - LenAt(l, 0));
    ZeroCode(LenAt(l, 0));
    ValZeros(LenAt(l, 0));
  }

  lemma FirstTable(t: seq<Entry>, l: seq<nat>, root: nat, kind: Kind)
    requires LenAt(l, 0) <= root && 1 <= root <= MAXBITS && Pow2(root) <= |t|
    ensures Belongs(l, 0, root, [], root) && Current(t, root, [], 0, root) && Entered(t, root, kind, l, 0, [], 0)
  {
    hide LenAt, CodeAt;
  }

  lemma {:induction false} ZeroCode(n: nat)
    ensures BitsOf(0, n) == Zeros(n)
  {
    if n > 0 {
      ZeroCode(n - 1);
      assert Zeros(n) == Zeros(n - 1) + [false];
    }
  }

  /** When no code is longer than one bit and they leave space, there is just one. */
  lemma OnlyCode(l: seq<nat>, k: nat)
    requires k + 1 == |Sorted(l)| && UpTo(l, 1) && Frontier(l, k + 1) < SPACE
    ensures k == 0 && LenAt(l, 0) == 1
  {
    LenRange(l, 0);
    if k > 0 { TwoShortCodes(l, k + 1); }
  }

  /** Two codes of one bit take all of the code space. */
  lemma TwoShortCodes(l: seq<nat>, n: nat)
    requires 2 <= n <= |Sorted(l)| && UpTo(l, 1)
    ensures Frontier(l, n) >= SPACE
  {
    LenRange(l, 0);
    LenRange(l, 1);
    HalfSpace();
    hide LenAt, Sorted, Share;
    FrontierMonotone(l, 2, n);
    assert Frontier(l, 1) == Frontier(l, 0) + Share(LenAt(l, 0));
    assert Frontier(l, 2) == Frontier(l, 1) + Share(LenAt(l, 1));
  }

  lemma HalfSpace()
    ensures Share(1) == 0x4000
  {
    Pow2Values();
    assert Pow2(15) == 2 * Pow2(14);
  }

  /** Enters all codes. `ret` is 1 when there is not enough space. */
  method FillTables(kind: Kind, lens: array<nat>, first: nat, codes: nat, count: array<int>, work: array<nat>,
                    table: array<Entry>, start: nat, root: nat, min: nat, max: nat, ghost l: seq<nat>)
    returns (ret: int, used: nat, huff: nat, last: nat, next: nat)
    requires LensOf(lens, first, codes, l) && WorkOf(work, l, kind) && Fits(l) && UpTo(l, max) && Sorted(l) != []
    requires start <= table.Length && Provided(kind, table.Length - start, root, max) && 1 <= root <= max
    requires min == LenAt(l, 0) <= root
    requires Counted(count, l, 0) && CountTo(l, codes, max) != 0
    requires Separate(count, table) && Separate(work, table) && Separate(lens, table) && Separate(count, work)
    requires Separate(count, lens)
    modifies table, count
    ensures table[..start] == old(table[..start]) && (ret == 0 || (ret == 1 && TooMuch(kind, used)))
    ensures ret == 1 ==> TooMuch(kind, Pow2(root)) || root < max
    ensures ret == 0 ==> AllEntered(table[start..], root, kind, l) && start + used <= table.Length && Pow2(root) <= used
    ensures ret == 0 && Frontier(l, |Sorted(l)|) == SPACE ==> huff == 0
    ensures ret == 0 && Frontier(l, |Sorted(l)|) < SPACE && max == 1 ==>
      && huff == 1 && last == 1 && next == 0
      && CodeAt(l, 0) == [false] && |Sorted(l)| == 1 && Entered(table[start..], root, kind, l, 1, [], 0)
  {
    hide LenAt, Sorted, CodeAt, Val, Entered, Fits, UpTo, Pow2, Belongs, Room, LowBits, Filling, Counted, WorkOf,
         CountTo, Frontier, BitsOf, ToNat, Round, Between;
    huff, last, next := 0, 0, 0;
    var sym: nat, len: nat, curr: nat, drop: nat, low: int := 0, min, root, 0, -1;
    used := Pow2(root);
    if TooMuch(kind, used) {
      return 1, used, huff, last, next;
    }
    ghost var lo: seq<bool> := [];
    FirstRound(table[start..], count, kind, l, root, max);
    while true
      invariant table[..start] == old(table[..start]) && LensOf(lens, first, codes, l) && WorkOf(work, l, kind)
      invariant Round(table[start..], count, kind, l, root, max, sym, len, huff, lo, next, curr, used)
      invariant drop == Drop(root, lo) && low == LowOf(lo) && used == next + Pow2(curr)
      decreases |Sorted(l)| - sym
    {
      var more;
      RoundDrop(table[start..], count, kind, l, root, max, sym, len, huff, lo, next, curr, used);
      last := len - drop;
      more, len, huff :=
        EnterRound(kind, lens, first, codes, count, work, table, start, sym, len, huff, next, curr, drop, max, root, l,
          lo, used);
      BetweenParts(table[start..], count, kind, l, sym, root, lo, next, curr, max);
      sym := sym + 1;
      if !more {
        break;
      }
      var ok;
      ok, next, curr, used, low, drop, lo :=
        NextRound(kind, count, len, root, huff, table, start, next, curr, used, max, low, drop, l, sym - 1, lo);
      if !ok {
        LenUpTo(l, max, sym);
        return 1, used, huff, last, next;
      }
      RoundUsed(table[start..], count, kind, l, root, max, sym, len, huff, lo, next, curr, used);
    }
    ret := 0;
    LastHuff(l, sym - 1);
    if Frontier(l, |Sorted(l)|) < SPACE && max == 1 {
      OnlyCode(l, sym - 1);
      NoSubTable(table[start..], l, 0, root, lo, next, curr);
    }
  }

  lemma NoSubTable(t: seq<Entry>, l: seq<nat>, k: nat, root: nat, lo: seq<bool>, next: nat, curr: nat)
    requires Belongs(l, k, root, lo, curr) && Current(t, root, lo, next, curr) && LenAt(l, k) <= root
    ensures lo == [] && next == 0
  {
    hide LenAt, CodeAt;
  }

  lemma LenUpTo(l: seq<nat>, max: nat, k: nat)
    requires UpTo(l, max) && k < |Sorted(l)|
    ensures LenAt(l, k) <= max
  {
  }

  lemma RoundDrop(t: seq<Entry>, count: array<int>, kind: Kind, l: seq<nat>, root: nat, max: nat, sym: nat, len: nat,
          huff: nat, lo: seq<bool>, next: nat, curr: nat, used: nat)
    requires Round(t, count, kind, l, root, max, sym, len, huff, lo, next, curr, used)
    ensures Drop(root, lo) <= len == LenAt(l, sym)
  {
    hide LenAt, CodeAt, Sorted, Entered, Fits, UpTo, Room, Current;
  }

  lemma RoundUsed(t: seq<Entry>, count: array<int>, kind: Kind, l: seq<nat>, root: nat, max: nat, sym: nat, len: nat,
          huff: nat, lo: seq<bool>, next: nat, curr: nat, used: nat)
    requires Round(t, count, kind, l, root, max, sym, len, huff, lo, next, curr, used)
    ensures used == next + Pow2(curr) && sym < |Sorted(l)|
  {
  }

  // ----- the tables

  /** The string begins with the code of some symbol. */
  ghost predicate Coded(l: seq<nat>, v: seq<bool>) {
    exists s :: 0 <= s < |l| && l[s] > 0 && CodeOf(l, s) <= v
  }

  ghost predicate SymbolFound(t: seq<Entry>, root: nat, kind: Kind, l: seq<nat>, s: nat, v: seq<bool>) {
    s < |l| && InAlphabet(kind, s) && root <= |v| && Lookup(t, root, v) == SymbolEntry(kind, s, l[s])
  }

  ghost predicate Rejected(t: seq<Entry>, root: nat, v: seq<bool>) {
    root <= |v| && Lookup(t, root, v) == Entry(INVALID_OP, 1, 0)
  }

  /** The tables decode the code of `l`: a string that begins with the code of a symbol
      gives its entry with the length of the code, and every other string is rejected. */
  ghost predicate Decodes(t: seq<Entry>, root: nat, kind: Kind, l: seq<nat>) {
    && (forall s, v {:trigger SymbolFound(t, root, kind, l, s, v)} ::
          0 <= s < |l| && l[s] > 0 && |v| == MAXBITS && CodeOf(l, s) <= v ==> SymbolFound(t, root, kind, l, s, v))
    && (forall v {:trigger Rejected(t, root, v)} :: |v| == MAXBITS && !Coded(l, v) ==> Rejected(t, root, v))
  }

  /** An entry of the root table that leads to a sub-table is reached with all bits of the
      index, and the sub-table needs no more bits than there are in a code. */
  ghost predicate AtRoot(t: seq<Entry>, root: nat, v: seq<bool>) {
    root <= |v| && var e := At(t, Val(v[..root])); IsLink(e) ==> e.bits == root && root + e.op <= MAXBITS
  }

  /** What the tables say of a string depends on no more bits than are dropped. */
  ghost predicate Prefixed(t: seq<Entry>, root: nat, v: seq<bool>, w: seq<bool>) {
    root <= |v| == |w| && var n := Lookup(t, root, v).bits;
      n <= |v| && v[..n] == w[..n] ==> Lookup(t, root, w) == Lookup(t, root, v)
  }

  /** The tables can be read bit by bit. */
  ghost predicate Readable(t: seq<Entry>, root: nat) {
    && (forall v {:trigger AtRoot(t, root, v)} :: |v| == MAXBITS ==> AtRoot(t, root, v))
    && (forall v, w {:trigger Prefixed(t, root, v, w)} :: |v| == MAXBITS && |w| == MAXBITS ==> Prefixed(t, root, v, w))
  }

  lemma CompleteReadable(t: seq<Entry>, root: nat, kind: Kind, l: seq<nat>)
    requires AllEntered(t, root, kind, l) && Alphabet(kind, l) && CodeLengths(l) && 1 <= root <= MAXBITS
    requires Frontier(l, |Sorted(l)|) == SPACE
    ensures Readable(t, root)
  {
    hide Frontier, Sorted, AllEntered, AtRoot, Prefixed;
    SpaceIs();
    forall v: seq<bool> | |v| == MAXBITS ensures AtRoot(t, root, v) {
      CompleteAtRoot(t, root, kind, l, v);
    }
    forall v: seq<bool>, w: seq<bool> | |v| == MAXBITS && |w| == MAXBITS ensures Prefixed(t, root, v, w) {
      CompletePrefixed(t, root, kind, l, v, w);
    }
  }

  lemma CompleteAtRoot(t: seq<Entry>, root: nat, kind: Kind, l: seq<nat>, v: seq<bool>)
    requires AllEntered(t, root, kind, l) && 1 <= root <= MAXBITS && Frontier(l, |Sorted(l)|) == SPACE && |v| == MAXBITS
    ensures AtRoot(t, root, v)
  {
    SpaceIs();
    hide Frontier, Sorted, CodeAt, Entered, Found, Lookup, Val;
    var j := CodeFor(l, v, |Sorted(l)|);
    var lo, next :| Entered(t, root, kind, l, |Sorted(l)|, lo, next);
    EnteredAt(t, root, kind, l, |Sorted(l)|, lo, next, j, v);
  }

  lemma CompletePrefixed(t: seq<Entry>, root: nat, kind: Kind, l: seq<nat>, v: seq<bool>, w: seq<bool>)
    requires AllEntered(t, root, kind, l) && Alphabet(kind, l) && CodeLengths(l) && 1 <= root <= MAXBITS
    requires Frontier(l, |Sorted(l)|) == SPACE && |v| == MAXBITS && |w| == MAXBITS
    ensures Prefixed(t, root, v, w)
  {
    hide Frontier, Sorted, AllEntered, CodeOf, Lookup;
    AllCoded(l, v);
    var s :| 0 <= s < |l| && l[s] > 0 && CodeOf(l, s) <= v;
    PlaceFound(t, root, kind, l, s, v);
    var n := l[s];
    SymbolBits(kind, s, n);
    if n <= |v| && v[..n] == w[..n] {
      assert CodeOf(l, s) == v[..n] == w[..n];
      PlaceFound(t, root, kind, l, s, w);
    }
  }

  lemma SymbolBits(kind: Kind, s: nat, n: nat)
    requires InAlphabet(kind, s)
    ensures SymbolEntry(kind, s, n).bits == n
  {
  }

  /** Tables with two entries that are no links. */
  lemma ShortReadable(t: seq<Entry>)
    requires |t| >= 2 && !IsLink(t[0]) && !IsLink(t[1]) && t[0].bits == t[1].bits == 1
    ensures Readable(t, 1)
  {
    forall v: seq<bool> | |v| == MAXBITS ensures AtRoot(t, 1, v) {
      FirstBitIndex(v);
    }
    forall v: seq<bool>, w: seq<bool> | |v| == MAXBITS && |w| == MAXBITS ensures Prefixed(t, 1, v, w) {
      FirstBitIndex(v);
      FirstBitIndex(w);
    }
  }

  lemma FirstBitIndex(v: seq<bool>)
    requires |v| == MAXBITS
    ensures Val(v[..1]) == if v[0] then 1 else 0
  {
    assert v[..1] == [v[0]] && v[..1][1..] == [];
  }

  /** The lengths are refused: they need more than all of the code space, or leave some of
      it, unless there are no codes at all or, for `Lens` and `Dists`, a single one of one bit. */
  ghost predicate Refused(kind: Kind, l: seq<nat>) {
    var f := Frontier(l, |Sorted(l)|);
    f > SPACE || (f < SPACE && Sorted(l) != [] && !(kind != Codes && UpTo(l, 1)))
  }

  lemma PlaceFound(t: seq<Entry>, root: nat, kind: Kind, l: seq<nat>, s: nat, v: seq<bool>)
    requires AllEntered(t, root, kind, l) && Alphabet(kind, l) && CodeLengths(l) && 1 <= root <= MAXBITS
    requires s < |l| && l[s] > 0 && |v| == MAXBITS && CodeOf(l, s) <= v
    ensures SymbolFound(t, root, kind, l, s, v)
  {
    SymbolPlace(l, s);
    LenRange(l, Place(l, s));
    hide Symbols, LenAt, Place, CodeNumber, Lookup;
    var lo, next :| Entered(t, root, kind, l, |Sorted(l)|, lo, next);
    var j := Place(l, s);
    assert CodeAt(l, j) == CodeOf(l, s);
    EnteredAt(t, root, kind, l, |Sorted(l)|, lo, next, j, v);
  }

  lemma CodedBy(l: seq<nat>, j: nat, v: seq<bool>)
    requires j < |Sorted(l)| && CodeAt(l, j) <= v
    ensures Coded(l, v)
  {
    LenRange(l, j);
    hide Symbols, LenAt, CodeNumber;
    var s := Sorted(l)[j];
    assert CodeOf(l, s) <= v;
  }

  /** A complete code leaves no string without a symbol. */
  lemma AllCoded(l: seq<nat>, v: seq<bool>)
    requires Frontier(l, |Sorted(l)|) == SPACE && |v| == MAXBITS
    ensures Coded(l, v)
  {
    SpaceIs();
    hide Frontier, Symbols, LenAt, CodeAt, Coded;
    var j := CodeFor(l, v, |Sorted(l)|);
    CodedBy(l, j, v);
  }

  lemma CompleteDecodes(t: seq<Entry>, root: nat, kind: Kind, l: seq<nat>)
    requires AllEntered(t, root, kind, l) && Alphabet(kind, l) && CodeLengths(l) && 1 <= root <= MAXBITS
    requires Frontier(l, |Sorted(l)|) == SPACE
    ensures Decodes(t, root, kind, l)
  {
    hide Frontier, Sorted, AllEntered, SymbolFound, Coded, Rejected;
    forall s, v | 0 <= s < |l| && l[s] > 0 && |v| == MAXBITS && CodeOf(l, s) <= v
      ensures SymbolFound(t, root, kind, l, s, v)
    {
      PlaceFound(t, root, kind, l, s, v);
    }
    forall v: seq<bool> | |v| == MAXBITS ensures Coded(l, v) {
      AllCoded(l, v);
    }
  }

  /** The single code of one bit: the other half of the table has been marked. */
  lemma SingleDecodes(t: seq<Entry>, root: nat, kind: Kind, l: seq<nat>)
    requires Entered(t, root, kind, l, 1, [], 0) && Alphabet(kind, l) && CodeLengths(l) && root == 1 && |t| >= 2
    requires |Sorted(l)| == 1 && CodeAt(l, 0) == [false]
    ensures Decodes(t[1 := Entry(INVALID_OP, 1, 0)], root, kind, l)
  {
    var u := t[1 := Entry(INVALID_OP, 1, 0)];
    hide Sorted, AllEntered, Coded, Lookup, CodeAt, Frontier, Entered;
    SingleEntered(t, root, kind, l);
    forall s, v | 0 <= s < |l| && l[s] > 0 && |v| == MAXBITS && CodeOf(l, s) <= v
      ensures SymbolFound(u, root, kind, l, s, v)
    {
      PlaceFound(t, root, kind, l, s, v);
      OnlyPlace(l, s);
      OneBitLookup(t, u, v);
    }
    forall v | |v| == MAXBITS && !Coded(l, v) ensures Rejected(u, root, v) {
      if [false] <= v { CodedBy(l, 0, v); }
      OneBitLookup(t, u, v);
    }
  }

  lemma SingleEntered(t: seq<Entry>, root: nat, kind: Kind, l: seq<nat>)
    requires Entered(t, root, kind, l, 1, [], 0) && root == 1 && |t| >= 2 && |Sorted(l)| == 1 && CodeAt(l, 0) == [false]
    ensures AllEntered(t, root, kind, l) && !IsLink(t[0])
  {
    hide Entered, Sorted, CodeAt;
    var v := [false] + Zeros(MAXBITS - 1);
    EnteredAt(t, root, kind, l, 1, [], 0, 0, v);
    assert v[..1] == [false] && v[..1][1..] == [];
    assert Val(v[..1]) == 0;
  }

  lemma SingleReadable(t: seq<Entry>, root: nat, kind: Kind, l: seq<nat>)
    requires Entered(t, root, kind, l, 1, [], 0) && Alphabet(kind, l) && CodeLengths(l) && root == 1 && |t| >= 2
    requires |Sorted(l)| == 1 && CodeAt(l, 0) == [false]
    ensures Readable(t[1 := Entry(INVALID_OP, 1, 0)], root)
  {
    hide Sorted, Entered, CodeAt, LenAt, Readable, EntryAt;
    SingleEntered(t, root, kind, l);
    var v := [false] + Zeros(MAXBITS - 1);
    EnteredAt(t, root, kind, l, 1, [], 0, 0, v);
    FirstBitIndex(v);
    EntryNoLink(kind, l, 0, LenAt(l, 0));
    assert LenAt(l, 0) == |CodeAt(l, 0)| == 1;
    ShortReadable(t[1 := Entry(INVALID_OP, 1, 0)]);
  }

  lemma OnlyPlace(l: seq<nat>, s: nat)
    requires |Sorted(l)| == 1 && s < |l| && l[s] > 0 && CodeLengths(l)
    ensures CodeOf(l, s) == CodeAt(l, 0)
  {
    SymbolPlace(l, s);
    hide Symbols, CodeNumber;
  }

  lemma OneBitLookup(t: seq<Entry>, u: seq<Entry>, v: seq<bool>)
    requires |t| >= 2 && u == t[1 := Entry(INVALID_OP, 1, 0)] && |v| == MAXBITS
    ensures [false] <= v || Lookup(u, 1, v) == Entry(INVALID_OP, 1, 0)
    ensures [false] <= v && !IsLink(t[0]) ==> Lookup(u, 1, v) == Lookup(t, 1, v)
  {
    assert v[..1] == [v[0]] && v[..1][1..] == [];
    assert Val(v[..1]) == if v[0] then 1 else 0;
  }

  /** There are no codes: every string is rejected. */
  lemma NothingDecodes(t: seq<Entry>, kind: Kind, l: seq<nat>)
    requires |t| >= 2 && t[0] == t[1] == Entry(INVALID_OP, 1, 0) && Sorted(l) == [] && CodeLengths(l)
    ensures Decodes(t, 1, kind, l)
  {
    hide Sorted, CodeNumber;
    forall s: nat | s < |l| ensures l[s] == 0 {
      if l[s] > 0 { SymbolPlace(l, s); }
    }
    forall v: seq<bool> | |v| == MAXBITS ensures Rejected(t, 1, v) {
      assert v[..1] == [v[0]] && v[..1][1..] == [];
      assert Val(v[..1]) == if v[0] then 1 else 0;
    }
  }

  /** The shortest and the longest code. */
  lemma LengthsFound(l: seq<nat>, min: nat, max: nat)
    requires max <= MAXBITS && (forall i :: max < i <= MAXBITS ==> CountTo(l, |l|, i) == 0)
    requires max > 0 ==> CountTo(l, |l|, max) != 0 && 1 <= min <= max && CountTo(l, |l|, min) != 0
    requires forall i :: 1 <= i < min && i <= max ==> CountTo(l, |l|, i) == 0
    ensures UpTo(l, max)
    ensures max == 0 <==> Sorted(l) == []
    ensures max > 0 ==> LenAt(l, 0) == min && (max == 1 <==> UpTo(l, 1))
  {
    hide CountTo, Symbols, LenAt;
    NoneLonger(l, max, MAXBITS);
    forall k | 0 <= k < |Sorted(l)| ensures LenAt(l, k) <= max {
      LenRange(l, k);
      if LenAt(l, k) > max { SymbolsPrefix(l, max, LenAt(l, k) - 1); }
    }
    NoSymbols(l);
    if max > 0 {
      NoneShorter(l, min - 1);
      SymbolsCount(l, min);
      SymbolsPrefix(l, min, max);
      SymbolsPrefix(l, min - 1, min);
      LenIs(l, 0, min);
      SymbolsCount(l, max);
      SymbolsPrefix(l, max - 1, max);
      LenIs(l, |Symbols(l, max)| - 1, max);
    }
  }

  /** No code is longer than the index of the root table, and this table fits. */
  ghost predicate RootOnly(kind: Kind, bits: nat, l: seq<nat>) {
    !TooMuch(kind, Pow2(bits)) && forall s :: 0 <= s < |l| ==> l[s] <= bits
  }

  lemma RootEnough(kind: Kind, l: seq<nat>, bits: nat, root: nat, min: nat, max: nat)
    requires 1 <= min <= max && CountTo(l, |l|, max) != 0
    requires root == if bits > max then max else if bits < min then min else bits
    ensures RootOnly(kind, bits, l) ==> root == max && !TooMuch(kind, Pow2(root))
  {
    OneThatLong(l, max);
    if root <= bits { Pow2Monotone(root, bits); }
  }

  /** Builds the tables for the code lengths `l` of the symbols. `ret` is 0 when that
      succeeds, -1 when the lengths are refused, and 1 when there is not enough space. */
  method InflateTable(kind: Kind, lens: array<nat>, first: nat, codes: nat, table: array<Entry>, start: nat, bits: nat,
                      work: array<nat>, ghost l: seq<nat>)
    returns (ret: int, next: nat, root: nat)
    requires LensOf(lens, first, codes, l) && Alphabet(kind, l) && codes <= work.Length
    requires start <= table.Length && bits >= 1
    requires Separate(lens, work) && Separate(lens, table) && Separate(work, table)
    requires match kind
      case Codes => Pow2(bits) <= table.Length - start && forall s :: 0 <= s < |l| ==> l[s] <= bits
      case Lens => start + ENOUGH_LENS <= table.Length
      case Dists => start + ENOUGH_DISTS <= table.Length
    modifies table, work
    ensures table[..start] == old(table[..start])
    ensures ret == -1 <==> Refused(kind, l)
    ensures ret != -1 ==> ret == 0 || (ret == 1 && kind != Codes)
    ensures RootOnly(kind, bits, l) ==> ret != 1
    ensures ret == 0 ==> 1 <= root <= MAXBITS && start + Pow2(root) <= next <= table.Length
    ensures ret == 0 ==> Decodes(table[start..], root, kind, l)
    ensures ret == 0 ==> Readable(table[start..], root)
  {
    hide Readable, CountTo, Sorted, LenAt, UpTo, Frontier, Decodes, Counted, WorkOf, CodeLengths, Pow2, Remaining,
         Entered, AllEntered, CodeAt, RootOnly;
    var count := new int[MAXBITS + 1];
    CountLengths(lens, first, codes, count, l);
    var min, max := FindLengths(count, l);
    LengthsFound(l, min, max);
    root := bits;
    if root > max {
      root := max;
    }
    TwoEntries(bits);
    if max == 0 {
      table[start] := Entry(INVALID_OP, 1, 0);
      table[start + 1] := Entry(INVALID_OP, 1, 0);
      NothingDecodes(table[start..], kind, l);
      ShortReadable(table[start..]);
      NothingTaken(l);
      return 0, start + 2, 1;
    }
    if root < min {
      root := min;
    }
    var left := SpaceLeft(count, l);
    if left < 0 {
      return -1, start, root;
    }
    if left > 0 && (kind == Codes || max != 1) {
      return -1, start, root;
    }
    SortSymbols(lens, first, codes, count, work, l);
    CountedStart(count, l);
    EnoughProvided(kind, l, bits, root, min, max, table.Length - start);
    RootEnough(kind, l, bits, root, min, max);
    WorkSorted(work, l, kind);
    ret, next := FillAndMark(kind, lens, first, codes, count, work, table, start, root, min, max, l);
  }

  /** Enters all codes, and marks the other half of the table when there is just one code
      of one bit. */
  method FillAndMark(kind: Kind, lens: array<nat>, first: nat, codes: nat, count: array<int>, work: array<nat>,
                     table: array<Entry>, start: nat, root: nat, min: nat, max: nat, ghost l: seq<nat>)
    returns (ret: int, end: nat)
    requires LensOf(lens, first, codes, l) && WorkOf(work, l, kind) && Fits(l) && UpTo(l, max) && Sorted(l) != []
    requires start <= table.Length && Provided(kind, table.Length - start, root, max) && 1 <= root <= max
    requires min == LenAt(l, 0) <= root
    requires Counted(count, l, 0) && CountTo(l, codes, max) != 0
    requires Separate(count, table) && Separate(work, table) && Separate(lens, table) && Separate(count, work)
    requires Separate(count, lens)
    requires Frontier(l, |Sorted(l)|) < SPACE ==> max == 1
    modifies table, count
    ensures table[..start] == old(table[..start]) && (ret == 0 || (ret == 1 && kind != Codes))
    ensures ret == 1 ==> TooMuch(kind, Pow2(root)) || root < max
    ensures ret == 0 ==>
      1 <= root <= MAXBITS && start + Pow2(root) <= end <= table.Length && Decodes(table[start..], root, kind, l)
    ensures ret == 0 ==> Readable(table[start..], root)
  {
    hide Readable, CountTo, Sorted, LenAt, UpTo, Frontier, Decodes, Counted, CodeLengths, Pow2, Entered, AllEntered,
         CodeAt, WorkOf, Fits;
    NotLongerAny(l, max);
    FitsSpace(l);
    WorkAlphabet(work, l, kind);
    TwoEntries(root);
    var used, huff, last, next;
    ret, used, huff, last, next := FillTables(kind, lens, first, codes, count, work, table, start, root, min, max, l);
    end := start;
    if ret != 0 {
      return;
    }
    if huff != 0 {
      ghost var t := table[start..];
      table[start + next + huff] := Entry(INVALID_OP, last, 0);
      assert table[start..] == t[1 := Entry(INVALID_OP, 1, 0)];
      SingleDecodes(t, root, kind, l);
      SingleReadable(t, root, kind, l);
    } else {
      CompleteReadable(table[start..], root, kind, l);
      CompleteDecodes(table[start..], root, kind, l);
    }
    end := start + used;
  }

  lemma NotLongerAny(l: seq<nat>, max: nat)
    requires UpTo(l, max)
    ensures max <= MAXBITS
  {
  }

  lemma FitsSpace(l: seq<nat>)
    requires Fits(l)
    ensures Frontier(l, |Sorted(l)|) <= SPACE
  {
  }

  lemma WorkSorted(work: array<nat>, l: seq<nat>, kind: Kind)
    requires |Sorted(l)| <= work.Length && work[..|Sorted(l)|] == Sorted(l) && Alphabet(kind, l)
    ensures WorkOf(work, l, kind)
  {
  }

  lemma WorkAlphabet(work: array<nat>, l: seq<nat>, kind: Kind)
    requires WorkOf(work, l, kind)
    ensures Alphabet(kind, l)
  {
  }

  lemma TwoEntries(n: nat)
    requires n >= 1
    ensures Pow2(n) >= 2 == Pow2(1)
  {
  }

  lemma NothingTaken(l: seq<nat>)
    requires Sorted(l) == []
    ensures Frontier(l, |Sorted(l)|) == 0
  {
  }

  lemma CountedStart(count: array<int>, l: seq<nat>)
    requires count.Length == MAXBITS + 1 && forall i :: 0 <= i <= MAXBITS ==> count[i] == CountTo(l, |l|, i)
    ensures Counted(count, l, 0)
  {
    hide Symbols, CountTo;
    forall i | 1 <= i <= MAXBITS ensures count[i] == Remaining(l, 0, i) {
      SymbolsCount(l, i);
    }
  }

  lemma EnoughProvided(kind: Kind, l: seq<nat>, bits: nat, root: nat, min: nat, max: nat, room: int)
    requires UpTo(l, max) && 1 <= min <= max && CountTo(l, |l|, max) != 0 && CodeLengths(l)
    requires root == if bits > max then max else if bits < min then min else bits
    requires match kind
      case Codes => Pow2(bits) <= room && forall s :: 0 <= s < |l| ==> l[s] <= bits
      case Lens => ENOUGH_LENS <= room
      case Dists => ENOUGH_DISTS <= room
    ensures Provided(kind, room, root, max)
  {
    if kind == Codes {
      OneThatLong(l, max);
      Pow2Monotone(root, bits);
    }
  }

  lemma OneThatLong(l: seq<nat>, m: nat)
    requires CountTo(l, |l|, m) != 0
    ensures exists s :: 0 <= s < |l| && l[s] == m
  {
    SelectAt(l, |l|, m, 0);
  }
}
