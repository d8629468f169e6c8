/** The fixed codes of deflate (section 3.2.6 of RFC 1951): deflate's trees for them, and that a
    block written with them fits behind the symbols that have been read. */
module FixedCodes {
  import opened Bits
  import opened Wrappers
  import opened CountingSort
  import opened Lz77
  import opened LowFirst
  import opened DeflateCode
  import opened DecodingTable
  import opened InflateTable
  import opened TreeTables
  import opened DeflateBits
  import opened DeflateOutput
  import opened GenCodes

  const L_CODES: nat := 286

  /** The lengths of the codes of literals and lengths. */
  function FixedLen(s: nat): nat {
    if s <= 143 then 8 else if s <= 255 then 9 else if s <= 279 then 7 else 8
  }

  function FixedLens(): (l: seq<nat>)
    ensures |l| == L_CODES + 2
  {
    seq(L_CODES + 2, (s: nat) => FixedLen(s))
  }

  function FixedDists(): (l: seq<nat>)
    ensures |l| == 32
  {
    seq(32, (s: nat) => 5)
  }

  // ----- the code space

  function Between(i: int, lo: int, hi: int): int {
    if i < lo then 0 else if i > hi then hi - lo else i - lo
  }

  /** How many of the first `i` symbols have codes of each length. */
  lemma {:induction false} FixedCount(i: nat, l: nat)
    requires i <= L_CODES + 2
    ensures CountTo(FixedLens(), i, l) ==
      if l == 7 then Between(i, 256, 280) else if l == 8 then Between(i, 0, 144) + Between(i, 280, 288)
      else if l == 9 then Between(i, 144, 256) else 0
  {
    hide CountTo;
    if i == 0 {
      CountNone(FixedLens());
    } else {
      FixedCount(i - 1, l);
      CountNext(FixedLens(), i - 1);
    }
  }

  lemma {:induction false} DistCount(i: nat, l: nat)
    requires i <= 32
    ensures CountTo(FixedDists(), i, l) == if l == 5 then i else 0
  {
    hide CountTo;
    if i == 0 {
      CountNone(FixedDists());
    } else {
      DistCount(i - 1, l);
      CountNext(FixedDists(), i - 1);
    }
  }

  /** What the codes of up to `l` bits take. */
  lemma SpaceNext(lens: seq<nat>, l: nat)
    requires 1 <= l <= MAXBITS
    ensures Frontier(lens, |Symbols(lens, l)|) == Frontier(lens, |Symbols(lens, l - 1)|) + Count(lens, l) * Share(l)
  {
    hide Symbols, Frontier, Share;
    WithinSymbols(lens, l);
    FrontierWithin(lens, l, Count(lens, l));
  }

  lemma NoneTaken(lens: seq<nat>)
    ensures Frontier(lens, |Symbols(lens, 0)|) == 0
  {
  }

  lemma CountIs(lens: seq<nat>, l: nat)
    ensures Count(lens, l) == CountTo(lens, |lens|, l)
  {
  }

  lemma Shares()
    ensures Share(5) == 1024 && Share(7) == 256 && Share(8) == 128 && Share(9) == 64
  {
    Pow2To13();
  }

  /** What the fixed codes of up to `l` bits take. */
  lemma {:induction false} FixedSpace(l: nat)
    requires l <= MAXBITS
    ensures Frontier(FixedLens(), |Symbols(FixedLens(), l)|) ==
      if l < 7 then 0 else if l == 7 then 24 * 256 else if l == 8 then 24 * 256 + 152 * 128 else SPACE
  {
    hide Symbols, Frontier, Share, Count, CountTo;
    var lens := FixedLens();
    if l == 0 {
      NoneTaken(lens);
    } else {
      FixedSpace(l - 1);
      SpaceNext(lens, l);
      CountIs(lens, l);
      FixedCount(L_CODES + 2, l);
      Shares();
    }
  }

  lemma {:induction false} DistSpace(l: nat)
    requires l <= MAXBITS
    ensures Frontier(FixedDists(), |Symbols(FixedDists(), l)|) == if l < 5 then 0 else SPACE
  {
    hide Symbols, Frontier, Share, Count, CountTo;
    var lens := FixedDists();
    if l == 0 {
      NoneTaken(lens);
    } else {
      DistSpace(l - 1);
      SpaceNext(lens, l);
      CountIs(lens, l);
      DistCount(32, l);
      Shares();
    }
  }

  /** The fixed codes fill the code space exactly. */
  lemma FixedFills()
    ensures Frontier(FixedLens(), |Sorted(FixedLens())|) == SPACE && CodeLengths(FixedLens()) && Fits(FixedLens())
    ensures Frontier(FixedDists(), |Sorted(FixedDists())|) == SPACE && CodeLengths(FixedDists()) && Fits(FixedDists())
  {
    hide Symbols, Frontier;
    FixedSpace(MAXBITS);
    DistSpace(MAXBITS);
  }

  // ----- the trees

  lemma DistNumber(n: nat)
    requires n < 32
    ensures CodeOf(FixedDists(), n) == BitsOf(n, 5)
  {
    hide CountTo, FirstCode;
    NumberIs(FixedDists(), n);
    DistCount(n, 5);
    FirstOfFive(5);
  }

  lemma {:induction false} FirstOfFive(l: nat)
    requires l <= 5
    ensures FirstCode(FixedDists(), l) == 0
  {
    hide Count, CountTo, FirstCode;
    FirstNext(FixedDists(), l);
    if l > 1 {
      FirstOfFive(l - 1);
      CountIs(FixedDists(), l - 1);
      DistCount(32, l - 1);
    }
  }

  /** The lengths that have been filled in, and their counts. */
  ghost predicate Counting(tree: array<CtData>, bl_count: array<nat>, n: int)
    reads tree, bl_count
  {
    && tree.Length == L_CODES + 2 && bl_count.Length == MAXBITS + 1 && 0 <= n <= L_CODES + 2
    && (forall s :: 0 <= s < n ==> tree[s].len == FixedLen(s))
    && forall l :: 0 <= l <= MAXBITS ==> bl_count[l] == CountTo(FixedLens(), n, l)
  }

  method SetLengths(tree: array<CtData>, bl_count: array<nat>, n0: nat, last: nat, len: nat) returns (n: nat)
    requires Counting(tree, bl_count, n0) && n0 <= last + 1 <= L_CODES + 2 && 1 <= len <= MAXBITS
    requires Separate(tree, bl_count) && forall s: nat :: n0 <= s <= last ==> FixedLen(s) == len
    modifies tree, bl_count
    ensures Counting(tree, bl_count, n) && n == last + 1
  {
    hide CountTo;
    n := n0;
    while n <= last
      invariant n0 <= n <= last + 1 && Counting(tree, bl_count, n)
    {
      CountNext(FixedLens(), n);
      tree[n] := tree[n].(len := len);
      n := n + 1;
      bl_count[len] := bl_count[len] + 1;
    }
  }

  /** The tree of the fixed codes of literals and lengths. */
  method InitLiterals(static_ltree: array<CtData>)
    requires static_ltree.Length == L_CODES + 2
    modifies static_ltree
    ensures TreeOf(static_ltree[..], FixedLens())
  {
    hide CountTo, Fits;
    var bl_count := new nat[MAXBITS + 1];
    for bits := 0 to MAXBITS + 1
      invariant forall l :: 0 <= l < bits ==> bl_count[l] == 0
    {
      bl_count[bits] := 0;
    }
    CountNone(FixedLens());
    var n := 0;
    n := SetLengths(static_ltree, bl_count, n, 143, 8);
    n := SetLengths(static_ltree, bl_count, n, 255, 9);
    n := SetLengths(static_ltree, bl_count, n, 279, 7);
    n := SetLengths(static_ltree, bl_count, n, 287, 8);
    CountedAll(static_ltree, bl_count);
    FixedFills();
    GenCodes.GenCodes(static_ltree, L_CODES + 1, bl_count, FixedLens());
  }

  lemma CountedAll(tree: array<CtData>, bl_count: array<nat>)
    requires Counting(tree, bl_count, L_CODES + 2)
    ensures Statistics(bl_count, FixedLens()) && Made(tree[..], FixedLens(), 0)
  {
    hide CountTo, Count;
    FixedCount(L_CODES + 2, 0);
    forall l | 1 <= l <= MAXBITS ensures bl_count[l] == Count(FixedLens(), l) {
      CountIs(FixedLens(), l);
    }
  }

  /** The tree of the fixed codes of distances. */
  method InitDistances(static_dtree: array<CtData>)
    requires static_dtree.Length == D_CODES
    modifies static_dtree
    ensures TreeOf(static_dtree[..], FixedDists())
  {
    hide CodeOf, Digits;
    for n := 0 to D_CODES
      invariant forall s :: 0 <= s < n ==> Holds(static_dtree[s], FixedDists(), s)
    {
      DistNumber(n);
      var code := BiReverse(n, 5);
      static_dtree[n] := CtData(code, 5);
      assert Holds(static_dtree[n], FixedDists(), n);
    }
  }

  // ----- in place

  /** Every token takes at most 31 bits. */
  lemma TokenSize(k: Coding, t: Token)
    requires k.Valid() && k.llens == FixedLens() && k.dlens == FixedDists() && Sendable(t, FARTHEST)
    ensures HasCodes(k, t) && |TokenBits(k, t)| <= 31
  {
    hide LengthTables, DistTables, Pow2, Digits;
    match t
    case Literal(b) => OctetBack(b);
    case Match(dist, len) =>
      LengthParts(k, len);
      LengthBase(k, k.LengthCode(len), len);
      CodeSize(k, LITERALS + 1 + k.LengthCode(len));
      DistParts(k, dist);
      DistBase(k, k.DistCode(dist), dist);
      DistSize(k, k.DistCode(dist));
  }

  lemma {:induction false} TokensSize(k: Coding, tokens: seq<Token>)
    requires k.Valid() && k.llens == FixedLens() && k.dlens == FixedDists() && AllSendable(tokens, FARTHEST)
    ensures |TokensBits(k, tokens)| <= 31 * |tokens|
    decreases |tokens|
  {
    hide TokenBits, Coding.Valid, Sendable;
    if tokens != [] {
      TokensSize(k, tokens[..|tokens| - 1]);
      TokenSize(k, tokens[|tokens| - 1]);
    }
  }

  /** With the fixed codes the bits of a block never reach the symbols that have not been read:
      there is always room for `n` bits more and a few, where `n` is the size of the buffer for
      symbols, which is never full. */
  lemma FixedInPlace(start: nat, n: nat, k: Coding, tokens: seq<Token>)
    requires k.Valid() && k.llens == FixedLens() && k.dlens == FixedDists() && AllSendable(tokens, FARTHEST)
    requires |tokens| < n && n >= 128 && start <= 7 + 3
    ensures InPlace(start, n, k, tokens) && Writable(k, tokens)
    ensures start + |BlockBits(k, tokens)| + 7 <= 8 * (4 * n)
    ensures forall j :: 0 <= j <= |tokens| ==> start + |TokensBits(k, tokens[..j])| + n - 3 <= 8 * (n + 3 * j)
  {
    hide TokensBits, Coding.Valid, Sendable, HasCodes;
    forall j | 0 <= j <= |tokens|
      ensures start + |TokensBits(k, tokens[..j])| + n - 3 <= 8 * (n + 3 * j) && Behind(start, n, k, tokens, j)
    {
      TokensSize(k, tokens[..j]);
    }
    forall i | 0 <= i < |tokens| ensures HasCodes(k, tokens[i]) {
      TokenSize(k, tokens[i]);
    }
    assert tokens[..|tokens|] == tokens;
    CodeSize(k, END_BLOCK);
  }
}
