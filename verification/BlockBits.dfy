/** The bits that the encoder writes for each part of a block, and the proof that
    the decoder reads the part back from them. */
module BlockBits {
  import opened Bits
  import opened Wrappers
  import opened BitStream
  import opened InUse
  import opened MoveToFront
  import opened Permutations
  import opened Huffman
  import opened BlockFormat

  // ----- numbers and marks

  lemma {:induction false} BitsOfSplit(v: nat, m: nat, k: nat)
    ensures BitsOf(v, m + k) == BitsOf(ShiftRight(v, k), m) + BitsOf(v, k)
  {
    if k > 0 {
      BitsOfSplit(v / 2, m, k - 1);
    }
  }

  lemma {:induction false} BitsOfLow(v: nat, n: nat)
    ensures BitsOf(LowBits(v, n), n) == BitsOf(v, n)
  {
    if n > 0 { BitsOfLow(v / 2, n - 1); }
  }

  lemma {:induction false} ShiftRightSplit(v: nat, n: nat, k: nat)
    ensures v < Pow2(n + k) ==> ShiftRight(v, k) < Pow2(n)
    ensures ShiftLeft(ShiftRight(v, k), k) + LowBits(v, k) == v
  {
    if k > 0 { ShiftRightSplit(v / 2, n, k - 1); }
  }

  lemma TopAndByte(v: nat, n: nat)
    requires v < Pow2(n + 8)
    ensures ShiftRight(v, 8) < Pow2(n) && LowBits(v, 8) < 256
    ensures 256 * ShiftRight(v, 8) + LowBits(v, 8) == v
    ensures BitsOf(v, n + 8) == BitsOf(ShiftRight(v, 8), n) + BitsOf(LowBits(v, 8), 8)
  {
    ShiftRightSplit(v, n, 8);
    BitsOfSplit(v, n, 8);
    BitsOfLow(v, 8);
    Pow2Values();
    ShiftLeft8(ShiftRight(v, 8));
  }

  lemma TakeBytesOf(v: nat, n: nat, rest: seq<bool>)
    requires v < Pow2(8 * n)
    ensures TakeBytes(BitsOf(v, 8 * n) + rest, n) == Ok(v, rest)
  {
    BytesOf(v, n, 8 * n, rest);
  }

  lemma {:induction false} BytesOf(v: nat, n: nat, m: nat, rest: seq<bool>)
    requires m == 8 * n && v < Pow2(m)
    ensures TakeBytes(BitsOf(v, m) + rest, n) == Ok(v, rest)
  {
    if n == 0 {
      assert BitsOf(v, 0) + rest == rest;
    } else {
      hide BitsOf, LowBits, ShiftRight, TakeBits, Pow2;
      var high, low := ShiftRight(v, 8), LowBits(v, 8);
      TopAndByte(v, m - 8);
      BytesOf(high, n - 1, m - 8, BitsOf(low, 8) + rest);
      LowByte(low, rest);
      ConcatAssociative(BitsOf(high, m - 8), BitsOf(low, 8), rest);
    }
  }

  lemma LowByte(low: nat, rest: seq<bool>)
    requires low < 256
    ensures TakeBits(BitsOf(low, 8) + rest, 8) == Ok(low, rest)
  {
    Pow2Values();
    TakeBitsOf(low, 8, rest);
  }

  /** The four bytes of a word are its 32 bits. */
  lemma WordBitsAre(u: word)
    ensures WordBits(u) == BitsOf(u, 32) && u < Pow2(32)
  {
    Pow2Values();
    BitsOfSplit(u, 24, 8);
    BitsOfSplit(ShiftRight(u, 8), 16, 8);
    BitsOfSplit(ShiftRight(u, 16), 8, 8);
    ShiftRightTwice(u, 8, 8);
    ShiftRightTwice(u, 16, 8);
    BitsOfLow(u, 8);
    BitsOfLow(ShiftRight(u, 8), 8);
    BitsOfLow(ShiftRight(u, 16), 8);
    BitsOfLow(ShiftRight(u, 24), 8);
  }

  lemma {:induction false} ShiftRightTwice(v: nat, j: nat, k: nat)
    ensures ShiftRight(ShiftRight(v, j), k) == ShiftRight(v, j + k)
    decreases j
  {
    if j > 0 { ShiftRightTwice(v / 2, j - 1, k); }
  }

  lemma TakeWord(u: word, rest: seq<bool>)
    ensures TakeBytes(WordBits(u) + rest, 4) == Ok(u, rest)
  {
    WordBitsAre(u);
    TakeBytesOf(u, 4, rest);
  }

  lemma {:induction false} ExpectMark(mark: seq<byte>, rest: seq<bool>, error: Error)
    ensures Expect(BytesToBits(mark) + rest, mark, error) == Ok((), rest)
    decreases |mark|
  {
    if mark == [] {
      assert BytesToBits(mark) + rest == rest;
    } else {
      ConcatAssociative(BitsOf(mark[0], 8), BytesToBits(mark[1..]), rest);
      Pow2Values();
      TakeBitsOf(mark[0], 8, BytesToBits(mark[1..]) + rest);
      ExpectMark(mark[1..], rest, error);
    }
  }

  // ----- the bytes in use

  lemma FirstBit(x: bool, s: seq<bool>, rest: seq<bool>)
    ensures TakeBits([x] + s + rest, 1) == Ok(if x then 1 else 0, s + rest)
  {
    assert [x] + s + rest == [x] + (s + rest);
    TakeOneBit([x] + (s + rest));
  }

  lemma {:induction false} FlagsBack(flags: seq<bool>, i: nat, rest: seq<bool>)
    requires i <= |flags|
    ensures DecodeFlags(flags[i..] + rest, |flags|, flags[..i]) == Ok(flags, rest)
    decreases |flags| - i
  {
    if i == |flags| {
      assert flags[i..] + rest == rest && flags[..i] == flags;
    } else {
      assert flags[i..] == [flags[i]] + flags[i + 1..];
      FirstBit(flags[i], flags[i + 1..], rest);
      assert flags[..i + 1] == flags[..i] + [flags[i]];
      FlagsBack(flags, i + 1, rest);
    }
  }

  function RowOf(inUse: UseMap, i: nat): (s: seq<bool>)
    requires i < 16
    ensures |s| == 16
  {
    inUse[16 * i..16 * i + 16]
  }

  function Used16(inUse: UseMap): (s: seq<bool>)
    ensures |s| == 16
  {
    seq(16, i requires 0 <= i < 16 => true in RowOf(inUse, i))
  }

  /** The rows of flags from row `i` on. */
  function RowBits(inUse: UseMap, i: nat): seq<bool>
    requires i <= 16
    decreases 16 - i
  {
    if i == 16 then [] else (if Used16(inUse)[i] then RowOf(inUse, i) else []) + RowBits(inUse, i + 1)
  }

  function MappingBits(inUse: UseMap): seq<bool> {
    Used16(inUse) + RowBits(inUse, 0)
  }

  lemma RowStep(inUse: UseMap, i: nat)
    requires i < 16
    ensures inUse[..16 * (i + 1)] == inUse[..16 * i] + RowOf(inUse, i)
    ensures !Used16(inUse)[i] ==> RowOf(inUse, i) == Zeros(16)
    ensures |inUse[..16 * i]| == 16 * i && |inUse[..16 * i]| / 16 == i
  {
    var row := RowOf(inUse, i);
    if !Used16(inUse)[i] {
      forall j | 0 <= j < 16 ensures !row[j] {}
    }
  }

  lemma {:induction false} InUseBack(inUse: UseMap, i: nat, rest: seq<bool>)
    requires i <= 16
    ensures DecodeInUse(RowBits(inUse, i) + rest, Used16(inUse), inUse[..16 * i]) == Ok(inUse, rest)
    decreases 16 - i
  {
    if i == 16 {
      assert RowBits(inUse, i) + rest == rest && inUse[..16 * i] == inUse;
    } else {
      var row := RowOf(inUse, i);
      RowStep(inUse, i);
      InUseBack(inUse, i + 1, rest);
      if Used16(inUse)[i] {
        ConcatAssociative(row, RowBits(inUse, i + 1), rest);
        assert row[0..] == row && row[..0] == [];
        FlagsBack(row, 0, RowBits(inUse, i + 1) + rest);
      } else {
        assert [] + RowBits(inUse, i + 1) == RowBits(inUse, i + 1);
      }
    }
  }

  lemma MappingBack(inUse: UseMap, rest: seq<bool>)
    ensures DecodeMapping(MappingBits(inUse) + rest) == Ok(inUse, rest)
  {
    var used16 := Used16(inUse);
    ConcatAssociative(used16, RowBits(inUse, 0), rest);
    assert used16[0..] == used16 && used16[..0] == [] && inUse[..16 * 0] == [];
    FlagsBack(used16, 0, RowBits(inUse, 0) + rest);
    InUseBack(inUse, 0, rest);
  }

  // ----- the selectors

  function UnaryBits(j: nat): seq<bool> {
    if j == 0 then [false] else [true] + UnaryBits(j - 1)
  }

  function SelectorBits(js: seq<nat>): seq<bool> {
    if js == [] then [] else UnaryBits(js[0]) + SelectorBits(js[1..])
  }

  lemma {:induction false} UnaryBack(nGroups: nat, i: nat, j: nat, rest: seq<bool>)
    requires i <= j < nGroups
    ensures DecodeUnary(UnaryBits(j - i) + rest, nGroups, i) == Ok(j, rest)
    decreases j - i
  {
    if i == j {
      TakeOneBit([false] + rest);
    } else {
      FirstBit(true, UnaryBits(j - i - 1), rest);
      UnaryBack(nGroups, i + 1, j, rest);
    }
  }

  lemma {:induction false} SelectorsBack(js: seq<nat>, nGroups: nat, i: nat, rest: seq<bool>)
    requires nGroups > 0 && i <= |js| <= MAX_SELECTORS && EachBelow(js, nGroups)
    ensures DecodeSelectors(SelectorBits(js[i..]) + rest, nGroups, |js|, js[..i]) == Ok(js, rest)
    decreases |js| - i
  {
    if i == |js| {
      assert js[i..] == [] && js[..i] == js && SelectorBits([]) + rest == rest;
    } else {
      assert js[i..][0] == js[i] && js[i..][1..] == js[i + 1..] && js[..i + 1] == js[..i] + [js[i]];
      ConcatAssociative(UnaryBits(js[i]), SelectorBits(js[i + 1..]), rest);
      UnaryBack(nGroups, 0, js[i], SelectorBits(js[i + 1..]) + rest);
      SelectorsBack(js, nGroups, i + 1, rest);
    }
  }

  // ----- the code lengths

  function LengthBits(curr: nat, len: nat): seq<bool>
    decreases if curr < len then len - curr else curr - len
  {
    if curr < len then [true, false] + LengthBits(curr + 1, len)
    else if curr > len then [true, true] + LengthBits(curr - 1, len)
    else [false]
  }

  function LengthsBits(curr: nat, lens: seq<nat>): seq<bool>
    decreases |lens|
  {
    if lens == [] then [] else LengthBits(curr, lens[0]) + LengthsBits(lens[0], lens[1..])
  }

  function TablesBits(lens: seq<seq<nat>>): seq<bool>
    requires forall t :: 0 <= t < |lens| ==> lens[t] != []
  {
    if lens == [] then []
    else BitsOf(lens[0][0], 5) + LengthsBits(lens[0][0], lens[0]) + TablesBits(lens[1..])
  }

  lemma TwoBits(x: bool, y: bool, s: seq<bool>, rest: seq<bool>)
    ensures TakeBits([x, y] + s + rest, 1) == Ok(if x then 1 else 0, [y] + s + rest)
    ensures TakeBits([y] + s + rest, 1) == Ok(if y then 1 else 0, s + rest)
  {
    assert [x, y] + s + rest == [x] + ([y] + s) + rest;
    FirstBit(x, [y] + s, rest);
    FirstBit(y, s, rest);
  }

  lemma {:induction false} LengthBack(curr: nat, len: nat, rest: seq<bool>)
    requires 1 <= curr <= LONGEST_CODE && 1 <= len <= LONGEST_CODE
    ensures DecodeLength(LengthBits(curr, len) + rest, curr) == Ok(len, rest)
    decreases if curr < len then len - curr else curr - len
  {
    if curr < len {
      TwoBits(true, false, LengthBits(curr + 1, len), rest);
      LengthBack(curr + 1, len, rest);
    } else if curr > len {
      TwoBits(true, true, LengthBits(curr - 1, len), rest);
      LengthBack(curr - 1, len, rest);
    } else {
      TakeOneBit([false] + rest);
    }
  }

  lemma {:induction false} LengthsBack(lens: seq<nat>, i: nat, curr: nat, rest: seq<bool>)
    requires Lengths(lens) && i <= |lens| && 1 <= curr <= LONGEST_CODE
    ensures DecodeLengths(LengthsBits(curr, lens[i..]) + rest, curr, |lens|, lens[..i]) == Ok(lens, rest)
    decreases |lens| - i
  {
    if i == |lens| {
      assert lens[i..] == [] && lens[..i] == lens && LengthsBits(curr, []) + rest == rest;
    } else {
      assert lens[i..][0] == lens[i] && lens[i..][1..] == lens[i + 1..] && lens[..i + 1] == lens[..i] + [lens[i]];
      ConcatAssociative(LengthBits(curr, lens[i]), LengthsBits(lens[i], lens[i + 1..]), rest);
      LengthBack(curr, lens[i], LengthsBits(lens[i], lens[i + 1..]) + rest);
      LengthsBack(lens, i + 1, lens[i], rest);
    }
  }

  lemma {:induction false} TablesBack(lens: seq<seq<nat>>, alphaSize: nat, i: nat, rest: seq<bool>)
    requires Tables(lens, alphaSize) && i <= |lens| && 1 <= alphaSize <= MAX_ALPHA_SIZE
    ensures DecodeLengthTables(TablesBits(lens[i..]) + rest, |lens|, alphaSize, lens[..i]) == Ok(lens, rest)
    decreases |lens| - i
  {
    if i == |lens| {
      assert lens[i..] == [] && lens[..i] == lens && TablesBits([]) + rest == rest;
    } else {
      var table, after := lens[i], TablesBits(lens[i + 1..]) + rest;
      assert lens[i..][0] == table && lens[i..][1..] == lens[i + 1..] && lens[..i + 1] == lens[..i] + [table];
      assert table[0..] == table && table[..0] == [];
      AssociateThree(BitsOf(table[0], 5), LengthsBits(table[0], table), TablesBits(lens[i + 1..]), rest);
      Pow2Values();
      TakeBitsOf(table[0], 5, LengthsBits(table[0], table) + after);
      LengthsBack(table, 0, table[0], after);
      TablesBack(lens, alphaSize, i + 1, rest);
    }
  }

  lemma AssociateThree(a: seq<bool>, b: seq<bool>, c: seq<bool>, d: seq<bool>)
    ensures a + b + c + d == a + (b + (c + d))
  {
  }

  function CodesBits(codes: Codes): seq<bool>
    requires Known(Iota(|codes.lens|), codes.selectors)
    requires forall t :: 0 <= t < |codes.lens| ==> codes.lens[t] != []
  {
    BitsOf(|codes.lens|, 3) + BitsOf(|codes.selectors|, 15)
    + SelectorBits(Encode(Iota(|codes.lens|), codes.selectors)) + TablesBits(codes.lens)
  }

  /** What the encoder chooses is within what the decoder accepts. */
  ghost predicate Sendable(codes: Codes, alphaSize: nat) {
    && 2 <= |codes.lens| <= 6 && 1 <= |codes.selectors| <= MAX_SELECTORS
    && 1 <= alphaSize <= MAX_ALPHA_SIZE && ValidCodes(codes, alphaSize)
    && forall t :: 0 <= t < |codes.lens| ==> Kraft(codes.lens[t])
  }

  lemma SelectorsKnown(codes: Codes, alphaSize: nat)
    requires ValidCodes(codes, alphaSize)
    ensures Known(Iota(|codes.lens|), codes.selectors)
  {
    forall i | 0 <= i < |codes.selectors| ensures codes.selectors[i] in Iota(|codes.lens|) {
      assert Iota(|codes.lens|)[codes.selectors[i]] == codes.selectors[i];
    }
  }

  lemma CodesSteps(nGroups: nat, nSelectors: nat, js: seq<nat>, lens: seq<seq<nat>>, alphaSize: nat, rest: seq<bool>)
    requires nGroups == |lens| && nSelectors == |js| <= MAX_SELECTORS && EachBelow(js, nGroups)
    requires 2 <= nGroups <= 6 && 1 <= nSelectors && 1 <= alphaSize <= MAX_ALPHA_SIZE && Tables(lens, alphaSize)
    ensures DecodeCodes(BitsOf(nGroups, 3) + BitsOf(nSelectors, 15) + SelectorBits(js) + TablesBits(lens) + rest,
      alphaSize)
         == Ok(Codes(Decode(Iota(nGroups), js), lens), rest)
  {
    var tables := TablesBits(lens) + rest;
    AssociateFour(BitsOf(nGroups, 3), BitsOf(nSelectors, 15), SelectorBits(js), TablesBits(lens), rest);
    Pow2Values();
    TakeBitsOf(nGroups, 3, BitsOf(nSelectors, 15) + (SelectorBits(js) + tables));
    TakeBitsOf(nSelectors, 15, SelectorBits(js) + tables);
    assert js[0..] == js && js[..0] == [] && lens[0..] == lens && lens[..0] == [];
    SelectorsBack(js, nGroups, 0, tables);
    TablesBack(lens, alphaSize, 0, rest);
    hide BitsOf, TakeBits, SelectorBits, TablesBits, DecodeSelectors, DecodeLengthTables, Decode, Tables, EachBelow;
  }

  lemma CodesBack(codes: Codes, alphaSize: nat, rest: seq<bool>)
    requires Sendable(codes, alphaSize)
    ensures Known(Iota(|codes.lens|), codes.selectors)
    ensures DecodeCodes(CodesBits(codes) + rest, alphaSize) == Ok(codes, rest)
  {
    SelectorsKnown(codes, alphaSize);
    DecodeEncode(Iota(|codes.lens|), codes.selectors);
    CodesSteps(|codes.lens|, |codes.selectors|, Encode(Iota(|codes.lens|), codes.selectors), codes.lens, alphaSize,
      rest);
  }

  lemma AssociateFour(a: seq<bool>, b: seq<bool>, c: seq<bool>, d: seq<bool>, e: seq<bool>)
    ensures a + b + c + d + e == a + (b + (c + (d + e)))
  {
  }
}
