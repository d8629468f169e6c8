/** The canonical Huffman codes of deflate (section 3.2.2 of RFC 1951), and the part of
    the code space that each code takes. A symbol of length 0 has no code. */
module DeflateCode {
  import opened Bits
  import opened CountingSort
  import opened LowFirst

  const MAXBITS := 15

  ghost predicate CodeLengths(lens: seq<nat>) {
    forall i :: 0 <= i < |lens| ==> lens[i] <= MAXBITS
  }

  /** The symbols with codes of 1 to `l` bits, by length and then by symbol. */
  function Symbols(lens: seq<nat>, l: nat): seq<nat> {
    if l == 0 then [] else Symbols(lens, l - 1) + Select(lens, |lens|, l)
  }

  function Sorted(lens: seq<nat>): seq<nat> {
    Symbols(lens, MAXBITS)
  }

  /** Where the symbol comes among the symbols with codes. */
  function Place(lens: seq<nat>, s: nat): nat
    requires s < |lens| && lens[s] > 0
  {
    |Symbols(lens, lens[s] - 1)| + Rank(lens, s)
  }

  // ----- the order of the symbols

  lemma {:induction false} SymbolsPrefix(lens: seq<nat>, l: nat, m: nat)
    requires l <= m
    ensures |Symbols(lens, l)| <= |Symbols(lens, m)|
    ensures Symbols(lens, m)[..|Symbols(lens, l)|] == Symbols(lens, l)
  {
    if l < m { SymbolsPrefix(lens, l, m - 1); }
  }

  lemma {:induction false} SymbolAt(lens: seq<nat>, l: nat, k: nat)
    requires k < |Symbols(lens, l)|
    ensures var s := Symbols(lens, l)[k]; s < |lens| && 1 <= lens[s] <= l && Place(lens, s) == k
    ensures var s := Symbols(lens, l)[k]; |Symbols(lens, lens[s] - 1)| <= k < |Symbols(lens, lens[s])|
  {
    var n := |Symbols(lens, l - 1)|;
    if k < n {
      SymbolAt(lens, l - 1, k);
    } else {
      SelectAt(lens, |lens|, l, k - n);
    }
  }

  lemma SymbolPlace(lens: seq<nat>, s: nat)
    requires s < |lens| && 1 <= lens[s] <= MAXBITS
    ensures Place(lens, s) < |Sorted(lens)| && Sorted(lens)[Place(lens, s)] == s
    ensures |Symbols(lens, lens[s] - 1)| <= Place(lens, s) < |Symbols(lens, lens[s])|
  {
    var l := lens[s];
    SelectRank(lens, s);
    SymbolsPrefix(lens, l, MAXBITS);
    var k := Place(lens, s);
    hide Select;
    assert Symbols(lens, l)[k] == s;
    assert Symbols(lens, MAXBITS)[..|Symbols(lens, l)|][k] == s;
  }

  /** The length of the code at place `k`. */
  function LenAt(lens: seq<nat>, k: int): nat {
    if 0 <= k < |Sorted(lens)| then
      SymbolAt(lens, MAXBITS, k);
      lens[Sorted(lens)[k]]
    else 0
  }

  lemma LenRange(lens: seq<nat>, k: nat)
    requires k < |Sorted(lens)|
    ensures 1 <= LenAt(lens, k) <= MAXBITS && Sorted(lens)[k] < |lens| && LenAt(lens, k) == lens[Sorted(lens)[k]]
    ensures |Symbols(lens, LenAt(lens, k) - 1)| <= k < |Symbols(lens, LenAt(lens, k))|
  {
    hide Symbols, Place;
    SymbolAt(lens, MAXBITS, k);
  }

  lemma LenIs(lens: seq<nat>, k: nat, l: nat)
    requires 1 <= l <= MAXBITS && |Symbols(lens, l - 1)| <= k < |Symbols(lens, l)|
    ensures k < |Sorted(lens)| && LenAt(lens, k) == l
  {
    hide Symbols, LenAt;
    SymbolsPrefix(lens, l, MAXBITS);
    LenRange(lens, k);
    var m := LenAt(lens, k);
    if m < l { SymbolsPrefix(lens, m, l - 1); }
    if l < m { SymbolsPrefix(lens, l, m - 1); }
  }

  /** Longer codes come later. */
  lemma LenOrder(lens: seq<nat>, j: nat, k: nat)
    requires j <= k < |Sorted(lens)|
    ensures LenAt(lens, j) <= LenAt(lens, k)
  {
    hide Symbols, LenAt, Sorted;
    LenRange(lens, j);
    LenRange(lens, k);
    if LenAt(lens, k) < LenAt(lens, j) { SymbolsPrefix(lens, LenAt(lens, k), LenAt(lens, j) - 1); }
  }

  // ----- the code space

  const SPACE := 0x8000 // 2 to the power MAXBITS

  /** What a code of `l` bits takes of the code space. */
  function Share(l: int): (s: nat)
    ensures s >= 1
  {
    if 0 <= l <= MAXBITS then Pow2(MAXBITS - l) else 1
  }

  /** What the first `k` codes take. */
  function Frontier(lens: seq<nat>, k: nat): nat {
    if k == 0 then 0 else Frontier(lens, k - 1) + Share(LenAt(lens, k - 1))
  }

  lemma {:induction false} FrontierMonotone(lens: seq<nat>, j: nat, k: nat)
    requires j <= k
    ensures Frontier(lens, j) <= Frontier(lens, k)
    ensures j < k ==> Frontier(lens, j) + Share(LenAt(lens, j)) <= Frontier(lens, k)
  {
    if j < k { FrontierMonotone(lens, j, k - 1); }
  }

  /** The number of the first code of `l` bits, counted as the RFC does. */
  function FirstCode(lens: seq<nat>, l: nat): nat {
    if l <= 1 then 0 else 2 * (FirstCode(lens, l - 1) + Count(lens, l - 1))
  }

  /** The code of a symbol. */
  function CodeNumber(lens: seq<nat>, s: nat): nat
    requires s < |lens|
  {
    FirstCode(lens, lens[s]) + Rank(lens, s)
  }

  lemma {:induction false} FrontierWithin(lens: seq<nat>, l: nat, i: nat)
    requires 1 <= l <= MAXBITS && i <= Count(lens, l)
    ensures Frontier(lens, |Symbols(lens, l - 1)| + i) == Frontier(lens, |Symbols(lens, l - 1)|) + i * Share(l)
  {
    if i > 0 {
      FrontierWithin(lens, l, i - 1);
      WithinSymbols(lens, l);
      LenIs(lens, |Symbols(lens, l - 1)| + i - 1, l);
      hide Symbols, LenAt, Share;
      Distribute(i - 1, 1, Share(l));
    }
  }

  lemma WithinSymbols(lens: seq<nat>, l: nat)
    requires l >= 1
    ensures |Symbols(lens, l)| == |Symbols(lens, l - 1)| + Count(lens, l)
  {
  }

  lemma {:induction false} FrontierFirst(lens: seq<nat>, l: nat)
    requires 1 <= l <= MAXBITS
    ensures Frontier(lens, |Symbols(lens, l - 1)|) == FirstCode(lens, l) * Share(l)
  {
    if l > 1 {
      hide Symbols, Frontier, Share;
      var p := Share(l);
      FrontierFirst(lens, l - 1);
      FrontierWithin(lens, l - 1, Count(lens, l - 1));
      ShareTwice(l);
      TwiceAs(FirstCode(lens, l - 1), Count(lens, l - 1), p);
    }
  }

  lemma ShareTwice(l: nat)
    requires 1 <= l <= MAXBITS
    ensures Share(l - 1) == 2 * Share(l)
  {
  }

  lemma TwiceAs(a: nat, c: nat, p: nat)
    ensures a * (2 * p) + c * (2 * p) == (2 * (a + c)) * p
  {
  }

  /** The codes follow each other in the code space: the code of a symbol is where its
      share begins. */
  lemma CodeFrontier(lens: seq<nat>, s: nat)
    requires s < |lens| && 1 <= lens[s] <= MAXBITS
    ensures Frontier(lens, Place(lens, s)) == CodeNumber(lens, s) * Share(lens[s])
  {
    hide Symbols, Select, Frontier, Share, FirstCode;
    var l := lens[s];
    SelectRank(lens, s);
    FrontierFirst(lens, l);
    FrontierWithin(lens, l, Rank(lens, s));
    Distribute(FirstCode(lens, l), Rank(lens, s), Share(l));
  }

  lemma Distribute(a: nat, b: nat, p: nat)
    ensures (a + b) * p == a * p + b * p
  {
  }

  // ----- codes as bit strings

  /** The lengths leave room for all codes. */
  ghost predicate Fits(lens: seq<nat>) {
    Frontier(lens, |Sorted(lens)|) <= SPACE
  }

  /** The code of a symbol, first bit first. */
  function CodeOf(lens: seq<nat>, s: nat): (c: seq<bool>)
    requires s < |lens|
    ensures |c| == lens[s]
  {
    BitsOf(CodeNumber(lens, s), lens[s])
  }

  /** The code at place `k`. */
  function CodeAt(lens: seq<nat>, k: int): (c: seq<bool>)
    ensures |c| == LenAt(lens, k)
  {
    if 0 <= k < |Sorted(lens)| then
      LenRange(lens, k);
      CodeOf(lens, Sorted(lens)[k])
    else []
  }

  lemma CodeNumberAt(lens: seq<nat>, k: nat) returns (c: nat)
    requires k < |Sorted(lens)|
    ensures 1 <= LenAt(lens, k) <= MAXBITS && CodeAt(lens, k) == BitsOf(c, LenAt(lens, k))
    ensures Frontier(lens, k) == ShiftLeft(c, MAXBITS - LenAt(lens, k))
    ensures Share(LenAt(lens, k)) == Pow2(MAXBITS - LenAt(lens, k))
  {
    hide Symbols, Frontier, CodeNumber;
    SymbolAt(lens, MAXBITS, k);
    LenRange(lens, k);
    var s := Sorted(lens)[k];
    CodeFrontier(lens, s);
    c := CodeNumber(lens, s);
    ShiftIsTimes(c, MAXBITS - lens[s]);
  }

  lemma SpaceIs()
    ensures SPACE == Pow2(MAXBITS)
  {
    Pow2Values();
  }

  lemma CodeFits(lens: seq<nat>, k: nat, c: nat)
    requires Fits(lens) && k < |Sorted(lens)| && 1 <= LenAt(lens, k) <= MAXBITS
    requires Frontier(lens, k) == ShiftLeft(c, MAXBITS - LenAt(lens, k))
    ensures c < Pow2(LenAt(lens, k)) && Frontier(lens, k + 1) <= SPACE
  {
    hide Symbols, Sorted, LenAt;
    var l := LenAt(lens, k);
    FrontierMonotone(lens, k + 1, |Sorted(lens)|);
    assert Frontier(lens, k + 1) == Frontier(lens, k) + Share(l);
    hide Frontier;
    SpaceIs();
    ShiftFits(c, l, MAXBITS - l);
  }

  lemma {:induction false} ShiftFits(c: nat, l: nat, d: nat)
    requires ShiftLeft(c, d) + Pow2(d) <= Pow2(l + d)
    ensures c < Pow2(l)
  {
    if d > 0 { ShiftFits(c, l, d - 1); }
  }

  /** The strings that begin with a code are those in its share of the code space. */
  lemma CodeRange(lens: seq<nat>, k: nat, v: seq<bool>)
    requires Fits(lens) && k < |Sorted(lens)| && |v| == MAXBITS
    ensures CodeAt(lens, k) <= v <==> Frontier(lens, k) <= ToNat(v) < Frontier(lens, k + 1)
  {
    hide Symbols, Sorted, LenAt, Frontier, ToNat, BitsOf, LowBits, Fits;
    var c := CodeNumberAt(lens, k);
    CodeFits(lens, k, c);
    var l := LenAt(lens, k);
    FrontierNext(lens, k);
    ToNatBitsOf(c, l);
    BeginsWith(BitsOf(c, l), v);
  }

  lemma FrontierNext(lens: seq<nat>, k: nat)
    ensures Frontier(lens, k + 1) == Frontier(lens, k) + Share(LenAt(lens, k))
  {
  }

  /** No string begins with two codes. */
  lemma CodesApart(lens: seq<nat>, j: nat, k: nat, v: seq<bool>)
    requires Fits(lens) && j < k < |Sorted(lens)| && |v| == MAXBITS && CodeAt(lens, j) <= v
    ensures !(CodeAt(lens, k) <= v)
  {
    hide Symbols, Sorted, LenAt, Frontier, CodeAt;
    CodeRange(lens, j, v);
    CodeRange(lens, k, v);
    FrontierMonotone(lens, j + 1, k);
  }

  /** Every string in the part of the code space that is taken begins with a code. */
  lemma {:induction false} CodeFor(lens: seq<nat>, v: seq<bool>, k: nat) returns (j: nat)
    requires Fits(lens) && k <= |Sorted(lens)| && |v| == MAXBITS && ToNat(v) < Frontier(lens, k)
    ensures j < k && CodeAt(lens, j) <= v
  {
    if ToNat(v) < Frontier(lens, k - 1) {
      j := CodeFor(lens, v, k - 1);
    } else {
      j := k - 1;
      CodeRange(lens, j, v);
    }
  }

  lemma {:induction false} ShiftSame(a: nat, b: nat, d: nat)
    requires ShiftLeft(a, d) == ShiftLeft(b, d)
    ensures a == b
  {
    if d > 0 { ShiftSame(a, b, d - 1); }
  }

  lemma {:induction false} ShiftTwice(a: nat, d: nat, e: nat)
    ensures ShiftLeft(ShiftLeft(a, d), e) == ShiftLeft(a, d + e)
  {
    if e > 0 { ShiftTwice(a, d, e - 1); }
  }

  lemma {:induction false} ShiftAddOne(a: nat, d: nat)
    ensures ShiftLeft(a + 1, d) == ShiftLeft(a, d) + Pow2(d)
  {
    if d > 0 { ShiftAddOne(a, d - 1); }
  }

  /** The next code: one more, and then zeros up to its length. */
  lemma NextCode(lens: seq<nat>, k: nat, c: nat)
    requires Fits(lens) && k + 1 < |Sorted(lens)|
    requires 1 <= LenAt(lens, k) <= MAXBITS && Frontier(lens, k) == ShiftLeft(c, MAXBITS - LenAt(lens, k))
    ensures LenAt(lens, k) <= LenAt(lens, k + 1) <= MAXBITS
    ensures CodeAt(lens, k + 1) == BitsOf(c + 1, LenAt(lens, k)) + Zeros(LenAt(lens, k + 1) - LenAt(lens, k))
  {
    LenOrder(lens, k, k + 1);
    var c' := CodeNumberAt(lens, k + 1);
    var l, m := LenAt(lens, k), LenAt(lens, k + 1);
    assert Frontier(lens, k + 1) == Frontier(lens, k) + Share(l);
    hide Symbols, Sorted, LenAt, Frontier, CodeAt;
    ShiftAddOne(c, MAXBITS - l);
    ShiftTwice(c + 1, m - l, MAXBITS - m);
    ShiftSame(c', ShiftLeft(c + 1, m - l), MAXBITS - m);
    ZerosAppended(c + 1, l, m - l);
  }
}
