/** The codes that deflate makes from code lengths, with their bits in the order they are
    sent; and the fixed codes. */
module GenCodes {
  import opened Bits
  import opened Wrappers
  import opened CountingSort
  import opened LowFirst
  import opened DeflateCode
  import opened DecodingTable
  import opened InflateTable
  import opened TreeTables
  import opened DeflateBits
  import opened DeflateOutput

  // ----- reversing

  lemma {:induction false} DigitsTop(x: nat, b: bool, m: nat)
    requires x < Pow2(m)
    ensures Digits(x + (if b then Pow2(m) else 0), m + 1) == Digits(x, m) + [b]
  {
    if m > 0 {
      DigitsTop(x / 2, b, m - 1);
      var y := x + (if b then Pow2(m) else 0);
      assert y % 2 == x % 2 && y / 2 == x / 2 + (if b then Pow2(m - 1) else 0);
    }
  }

  lemma {:induction false} FirstBit(b: bool, s: seq<bool>)
    ensures ToNat([b] + s) == ToNat(s) + (if b then Pow2(|s|) else 0)
    decreases |s|
  {
    if s == [] {
      assert [b] + s == [b];
      assert [b][..0] == [];
    } else {
      var m := |s| - 1;
      FirstBit(b, s[..m]);
      assert ([b] + s)[..m + 1] == [b] + s[..m];
    }
  }

  /** The digits of the reversed number are those of the number, highest first. */
  lemma {:induction false} Reversed(c: nat, n: nat)
    ensures Digits(ToNat(Digits(c, n)), n) == BitsOf(c, n)
  {
    if n > 0 {
      Reversed(c / 2, n - 1);
      var s := Digits(c / 2, n - 1);
      FirstBit(c % 2 == 1, s);
      DigitsTop(ToNat(s), c % 2 == 1, n - 1);
    }
  }

  lemma {:induction false} DigitsMore(c: nat, i: nat)
    ensures Digits(c, i + 1) == Digits(c, i) + [ShiftRight(c, i) % 2 == 1]
  {
    if i > 0 { DigitsMore(c / 2, i - 1); }
  }

  lemma {:induction false} ShiftMore(c: nat, i: nat)
    ensures ShiftRight(c, i + 1) == ShiftRight(c, i) / 2
  {
    if i > 0 { ShiftMore(c / 2, i - 1); }
  }

  /** Reverses the bits of a code. */
  method BiReverse(code0: nat, len0: nat) returns (r: nat)
    requires 1 <= len0
    ensures r < Pow2(len0) && Digits(r, len0) == BitsOf(code0, len0)
  {
    hide Digits, ToNat, ShiftRight, BitsOf;
    var res, code, len := 0, code0, len0;
    NoDigits(code0);
    while true
      invariant 1 <= len <= len0 && res == 2 * ToNat(Digits(code0, len0 - len)) && code == ShiftRight(code0, len0 - len)
      decreases len
    {
      DigitsMore(code0, len0 - len);
      ToNatSnoc(Digits(code0, len0 - len), code % 2 == 1);
      ShiftMore(code0, len0 - len);
      res := res + code % 2;
      code := code / 2;
      res := 2 * res;
      len := len - 1;
      if len == 0 {
        break;
      }
    }
    r := res / 2;
    Reversed(code0, len0);
  }

  lemma NoDigits(c: nat)
    ensures ToNat(Digits(c, 0)) == 0 && ShiftRight(c, 0) == c
  {
  }

  // ----- generating

  /** The codes fit into their words. */
  lemma NumberFits(lens: seq<nat>, s: nat)
    requires Fits(lens) && s < |lens| && 1 <= lens[s] <= MAXBITS
    ensures CodeNumber(lens, s) < Pow2(lens[s]) <= 0x8000
  {
    hide Symbols, Frontier, CodeNumber, ShiftLeft, Fits;
    SymbolPlace(lens, s);
    LenRange(lens, Place(lens, s));
    CodeFrontier(lens, s);
    ShiftIsTimes(CodeNumber(lens, s), MAXBITS - lens[s]);
    hide Place, LenAt, Sorted;
    CodeFits(lens, Place(lens, s), CodeNumber(lens, s));
    SpaceIs();
    Pow2Monotone(lens[s], MAXBITS);
  }

  lemma FirstFits(lens: seq<nat>, l: nat)
    requires Fits(lens) && 1 <= l <= MAXBITS
    ensures FirstCode(lens, l) <= 0x8000
  {
    hide Symbols, Frontier, Share, FirstCode;
    FrontierFirst(lens, l);
    SymbolsPrefix(lens, l - 1, MAXBITS);
    FrontierMonotone(lens, |Symbols(lens, l - 1)|, |Symbols(lens, MAXBITS)|);
    NoLess(FirstCode(lens, l), Share(l));
  }

  lemma NoLess(a: nat, p: nat)
    requires p >= 1
    ensures a <= a * p
  {
  }

  /** How many codes of each length there are. */
  ghost predicate Statistics(bl_count: array<nat>, lens: seq<nat>)
    reads bl_count
  {
    && bl_count.Length == MAXBITS + 1 && bl_count[0] == 0
    && forall l :: 1 <= l <= MAXBITS ==> bl_count[l] == Count(lens, l)
  }

  /** The code that the next symbol of each length gets, when `n` symbols have theirs. */
  ghost predicate NextCodes(next_code: array<nat>, lens: seq<nat>, n: nat)
    reads next_code
  {
    && next_code.Length == MAXBITS + 1 && n <= |lens|
    && forall l :: 1 <= l <= MAXBITS ==> next_code[l] == FirstCode(lens, l) + CountTo(lens, n, l)
  }

  method FirstCodes(bl_count: array<nat>, next_code: array<nat>, ghost lens: seq<nat>)
    requires Statistics(bl_count, lens) && Fits(lens) && next_code.Length == MAXBITS + 1 && next_code != bl_count
    modifies next_code
    ensures NextCodes(next_code, lens, 0)
  {
    hide Fits, CountTo, Count, FirstCode;
    var code := 0;
    for bits := 1 to MAXBITS + 1
      invariant Statistics(bl_count, lens)
      invariant code == if bits == 1 then 0 else FirstCode(lens, bits - 1)
      invariant forall l :: 1 <= l < bits ==> next_code[l] == FirstCode(lens, l)
    {
      FirstNext(lens, bits);
      FirstFits(lens, bits);
      code := (code + bl_count[bits - 1]) * 2;
      next_code[bits] := code % 0x1_0000;
    }
    CountNone(lens);
  }

  lemma FirstNext(lens: seq<nat>, l: nat)
    ensures FirstCode(lens, l) == if l <= 1 then 0 else 2 * (FirstCode(lens, l - 1) + Count(lens, l - 1))
  {
  }

  /** The symbols before `n` have the codes for their lengths. */
  ghost predicate Made(tree: seq<CtData>, lens: seq<nat>, n: nat) {
    && n <= |lens| <= |tree| && (forall s :: 0 <= s < |lens| ==> tree[s].len == lens[s])
    && forall s :: 0 <= s < n && lens[s] > 0 ==> Holds(tree[s], lens, s)
  }

  /** Gives every symbol that has a length its code. */
  method GenCodes(tree: array<CtData>, max_code: nat, bl_count: array<nat>, ghost lens: seq<nat>)
    requires |lens| == max_code + 1 && Made(tree[..], lens, 0) && CodeLengths(lens) && Fits(lens)
    requires Statistics(bl_count, lens) && Separate(tree, bl_count)
    modifies tree
    ensures Made(tree[..], lens, max_code + 1) && TreeOf(tree[..], lens)
  {
    hide Fits, CountTo, Count, FirstCode, CodeNumber, Digits, Pow2, Made, CodeOf;
    var next_code := new nat[MAXBITS + 1];
    FirstCodes(bl_count, next_code, lens);
    for n := 0 to max_code + 1
      invariant Made(tree[..], lens, n) && NextCodes(next_code, lens, n)
    {
      MadeLen(tree[..], lens, n);
      CountNext(lens, n);
      var len := tree[n].len;
      if len == 0 {
        NoCode(tree[..], lens, n);
        continue;
      }
      NumberFits(lens, n);
      NumberIs(lens, n);
      var code := BiReverse(next_code[len], len);
      next_code[len] := (next_code[len] + 1) % 0x1_0000;
      OneCode(tree[..], lens, n, code);
      tree[n] := CtData(code % 0x1_0000, len);
    }
    AllMade(tree[..], lens);
  }

  lemma MadeLen(tree: seq<CtData>, lens: seq<nat>, n: nat)
    requires Made(tree, lens, n) && n < |lens|
    ensures n < |tree| && tree[n].len == lens[n]
  {
  }

  lemma NoCode(tree: seq<CtData>, lens: seq<nat>, n: nat)
    requires Made(tree, lens, n) && n < |lens| && lens[n] == 0
    ensures Made(tree, lens, n + 1)
  {
    hide Holds;
  }

  lemma NumberIs(lens: seq<nat>, n: nat)
    requires n < |lens|
    ensures CodeNumber(lens, n) == FirstCode(lens, lens[n]) + CountTo(lens, n, lens[n])
    ensures CodeOf(lens, n) == BitsOf(CodeNumber(lens, n), lens[n])
  {
  }

  lemma OneCode(tree: seq<CtData>, lens: seq<nat>, n: nat, code: nat)
    requires Made(tree, lens, n) && n < |lens| && 1 <= lens[n] <= MAXBITS
    requires code < Pow2(lens[n]) && Digits(code, lens[n]) == CodeOf(lens, n)
    ensures code % 0x1_0000 == code && Made(tree[n := CtData(code, lens[n])], lens, n + 1)
  {
    hide Digits, CodeOf;
    Pow2Monotone(lens[n], MAXBITS);
    Pow2Values();
    hide Pow2;
    SmallWord(code);
    var u := tree[n := CtData(code, lens[n])];
    assert Holds(u[n], lens, n);
  }

  lemma AllMade(tree: seq<CtData>, lens: seq<nat>)
    requires Made(tree, lens, |lens|)
    ensures TreeOf(tree, lens)
  {
    hide Holds;
  }
}
