/** A block as a whole: decoding what the encoder writes for a column gives the
    column back. */
module BlockRoundTrip {
  import opened Bits
  import opened Wrappers
  import opened BitStream
  import opened InUse
  import opened MoveToFront
  import opened MtfEncoder
  import opened Permutations
  import opened Huffman
  import opened BlockFormat
  import opened BlockBits

  // ----- the symbols

  /** Every symbol has a table that has a code for it. */
  ghost predicate Coverable(codes: Codes, alphaSize: nat, syms: seq<nat>) {
    && Sendable(codes, alphaSize) && |syms| <= GROUP_SIZE * |codes.selectors|
    && forall i :: 0 <= i < |syms| ==> syms[i] < alphaSize
  }

  function TableAt(codes: Codes, k: nat): (t: seq<nat>)
    requires EachBelow(codes.selectors, |codes.lens|) && k / 50 < |codes.selectors|
  {
    codes.lens[codes.selectors[k / 50]]
  }

  lemma TableFits(codes: Codes, alphaSize: nat, syms: seq<nat>, k: nat)
    requires Coverable(codes, alphaSize, syms) && k < |syms|
    ensures k / GROUP_SIZE < |codes.selectors|
    ensures Kraft(TableAt(codes, k)) && syms[k] < |TableAt(codes, k)| == alphaSize
  {
  }

  /** The codes of the symbols from number `k` on. */
  function DataBits(codes: Codes, alphaSize: nat, syms: seq<nat>, k: nat): seq<bool>
    requires Coverable(codes, alphaSize, syms) && k <= |syms|
    decreases |syms| - k
  {
    if k == |syms| then []
    else
      TableFits(codes, alphaSize, syms, k);
      CodeBits(TableAt(codes, k), syms[k]) + DataBits(codes, alphaSize, syms, k + 1)
  }

  lemma SymbolBack(codes: Codes, alphaSize: nat, syms: seq<nat>, k: nat, rest: seq<bool>)
    requires Coverable(codes, alphaSize, syms) && k < |syms|
    ensures DecodeSymbolAt(DataBits(codes, alphaSize, syms, k) + rest, codes, alphaSize, k)
         == Ok(syms[k], DataBits(codes, alphaSize, syms, k + 1) + rest)
  {
    TableFits(codes, alphaSize, syms, k);
    var after := DataBits(codes, alphaSize, syms, k + 1);
    ConcatAssociative(CodeBits(TableAt(codes, k), syms[k]), after, rest);
    DecodeCode(TableAt(codes, k), syms[k], after + rest);
  }

  /** Exactly the last symbol is the end mark. */
  ghost predicate Ended(syms: seq<nat>, alphaSize: nat) {
    && syms != [] && syms[|syms| - 1] == alphaSize - 1
    && forall i :: 0 <= i < |syms| - 1 ==> syms[i] != alphaSize - 1
  }

  lemma {:induction false} ColumnBack(codes: Codes, alphaSize: nat, syms: seq<nat>, k: nat, c: Context, st: State,
                                      last: State, rest: seq<bool>)
    requires Coverable(codes, alphaSize, syms) && Ended(syms, alphaSize) && k < |syms|
    requires FeedAll(c, st, syms[k..|syms| - 1]).Success?
    requires EndRun(c, FeedAll(c, st, syms[k..|syms| - 1]).value) == Success(last)
    ensures DecodeColumn(DataBits(codes, alphaSize, syms, k) + rest, codes, alphaSize, c, k, st) == Ok(last.col, rest)
    decreases |syms| - k
  {
    hide Feed, EndRun, DecodeSymbolAt;
    SymbolBack(codes, alphaSize, syms, k, rest);
    var left := syms[k..|syms| - 1];
    if k == |syms| - 1 {
      assert left == [];
      assert DataBits(codes, alphaSize, syms, k + 1) + rest == rest;
    } else {
      assert left[0] == syms[k] && left[1..] == syms[k + 1..|syms| - 1];
      ColumnBack(codes, alphaSize, syms, k + 1, c, Feed(c, st, syms[k]).value, last, rest);
    }
  }

  // ----- the column

  lemma {:induction false} SymbolsBelow(list: seq<nat>, col: seq<nat>, z: nat)
    requires Known(list, col) && list != []
    ensures EachBelow(Symbols(list, col, z), |list| + 1)
    decreases |col|
  {
    if col != [] {
      var k := IndexOf(list, col[0]);
      KnownToFront(list, k, col);
      if k == 0 {
        SymbolsBelow(list, col[1..], z + 1);
      } else {
        SymbolsBelow(ToFront(list, k), col[1..], 0);
      }
    }
  }

  lemma SymbolsEnded(inUse: UseMap, col: seq<byte>)
    requires AllUsed(inUse, col) && Used(inUse) != []
    ensures Ended(BlockSymbols(inUse, col), |Used(inUse)| + 2)
    ensures forall i :: 0 <= i < |BlockSymbols(inUse, col)| ==> BlockSymbols(inUse, col)[i] < |Used(inUse)| + 2
  {
    NumbersKnown(inUse, col);
    SymbolsBelow(Iota(|Used(inUse)|), Numbers(inUse, col), 0);
  }

  lemma MapNumbers(inUse: UseMap, col: seq<byte>, max: nat)
    requires AllUsed(inUse, col)
    ensures Map(Context(Used(inUse), max), Numbers(inUse, col)) == col
  {
    forall i | 0 <= i < |col| ensures Map(Context(Used(inUse), max), Numbers(inUse, col))[i] == col[i] {
      NumberOfUsed(inUse, col[i]);
    }
  }

  /** The decoder's run over the symbols of a column. */
  lemma SymbolsBack(inUse: UseMap, col: seq<byte>, level: nat) returns (last: State)
    requires AllUsed(inUse, col) && Used(inUse) != [] && 1 <= level <= 9 && |col| <= 100000 * level
    ensures var syms := BlockSymbols(inUse, col);
      var r := FeedAll(BlockContext(level, inUse), START, syms[..|syms| - 1]);
      r.Success? && EndRun(BlockContext(level, inUse), r.value) == Success(last) && last.col == col
  {
    var c, list, xs := BlockContext(level, inUse), Iota(|Used(inUse)|), Numbers(inUse, col);
    NumbersKnown(inUse, col);
    var syms := BlockSymbols(inUse, col);
    assert syms[..|syms| - 1] == Symbols(list, xs, 0);
    assert Iota(256) == list + Iota(256)[|list|..];
    MapNumbers(inUse, col, c.max);
    hide Symbols, FeedAll, EndRun, Map, Used;
    last := FeedSymbols(c, START, list, Iota(256)[|list|..], xs, 0);
    assert [] + Repeat(ByteOf(c, list[0]), 0) + Map(c, xs) == Map(c, xs);
  }

  lemma ColumnRead(codes: Codes, inUse: UseMap, col: seq<byte>, level: nat, rest: seq<bool>)
    requires AllUsed(inUse, col) && Used(inUse) != [] && 1 <= level <= 9 && |col| <= 100000 * level
    requires Coverable(codes, |Used(inUse)| + 2, BlockSymbols(inUse, col))
    ensures DecodeColumn(DataBits(codes, |Used(inUse)| + 2, BlockSymbols(inUse, col), 0) + rest, codes,
                         |Used(inUse)| + 2, BlockContext(level, inUse), 0, START)
         == Ok(col, rest)
  {
    var syms := BlockSymbols(inUse, col);
    SymbolsEnded(inUse, col);
    var last := SymbolsBack(inUse, col, level);
    assert syms[0..|syms| - 1] == syms[..|syms| - 1];
    ColumnBack(codes, |Used(inUse)| + 2, syms, 0, BlockContext(level, inUse), START, last, rest);
  }

  // ----- the block

  /** What the encoder writes a block from. */
  datatype Parts = Parts(crc: word, origPtr: nat, inUse: UseMap, codes: Codes, col: seq<byte>)

  ghost predicate Encodable(p: Parts, level: nat) {
    && 1 <= level <= 9 && p.col != [] && |p.col| <= 100000 * level && p.origPtr < |p.col|
    && AllUsed(p.inUse, p.col) && Used(p.inUse) != []
    && Coverable(p.codes, |Used(p.inUse)| + 2, BlockSymbols(p.inUse, p.col))
  }

  function ContentsBits(p: Parts, level: nat): seq<bool>
    requires Encodable(p, level)
  {
    SelectorsKnown(p.codes, |Used(p.inUse)| + 2);
    MappingBits(p.inUse) + CodesBits(p.codes)
    + DataBits(p.codes, |Used(p.inUse)| + 2, BlockSymbols(p.inUse, p.col), 0)
  }

  /** The block after its mark. */
  function BodyBits(p: Parts, level: nat): seq<bool>
    requires Encodable(p, level)
  {
    WordBits(p.crc) + [false] + BitsOf(p.origPtr, 24) + ContentsBits(p, level)
  }

  function SectionBits(p: Parts, level: nat): seq<bool>
    requires Encodable(p, level)
  {
    BytesToBits([0x31, 0x41, 0x59, 0x26, 0x53, 0x59]) + BodyBits(p, level)
  }

  lemma ContentsSteps(inUse: UseMap, codes: Codes, col: seq<byte>, data: seq<bool>, level: nat, rest: seq<bool>)
    requires Used(inUse) != [] && Sendable(codes, |Used(inUse)| + 2) && Known(Iota(|codes.lens|), codes.selectors)
    requires DecodeColumn(data + rest, codes, |Used(inUse)| + 2, BlockContext(level, inUse), 0, START) == Ok(col, rest)
    ensures DecodeContents(MappingBits(inUse) + CodesBits(codes) + data + rest, level) == Ok(col, rest)
  {
    AssociateThree(MappingBits(inUse), CodesBits(codes), data, rest);
    MappingBack(inUse, CodesBits(codes) + (data + rest));
    CodesBack(codes, |Used(inUse)| + 2, data + rest);
    hide Used, MappingBits, CodesBits, DecodeMapping, DecodeCodes, DecodeColumn, Known, Sendable;
  }

  lemma ContentsBack(p: Parts, level: nat, rest: seq<bool>)
    requires Encodable(p, level)
    ensures DecodeContents(ContentsBits(p, level) + rest, level) == Ok(p.col, rest)
  {
    hide Kraft, Lengths, Tables, EachBelow, Known, AllUsed, Used, BlockSymbols, DataBits, MappingBits, CodesBits,
         DecodeContents, DecodeColumn;
    SelectorsKnown(p.codes, |Used(p.inUse)| + 2);
    ColumnRead(p.codes, p.inUse, p.col, level, rest);
    ContentsSteps(p.inUse, p.codes, p.col, DataBits(p.codes, |Used(p.inUse)| + 2, BlockSymbols(p.inUse, p.col), 0),
                  level, rest);
  }

  lemma BodySteps(crc: word, origPtr: nat, contents: seq<bool>, col: seq<byte>, level: nat, rest: seq<bool>)
    requires DecodeContents(contents + rest, level) == Ok(col, rest)
    requires origPtr < |col| <= 100000 * level <= 900000
    ensures DecodeBlock(WordBits(crc) + [false] + BitsOf(origPtr, 24) + contents + rest, level)
         == Ok(Block(crc, origPtr, col), rest)
  {
    AssociateFour(WordBits(crc), [false], BitsOf(origPtr, 24), contents, rest);
    var after := BitsOf(origPtr, 24) + (contents + rest);
    TakeOneBit([false] + after);
    assert ([false] + after)[1..] == after;
    TakeWord(crc, [false] + after);
    Pow2Values();
    TakeBytesOf(origPtr, 3, contents + rest);
    hide WordBits, BitsOf, TakeBytes, TakeBits, DecodeContents;
  }

  lemma BodyBack(p: Parts, level: nat, rest: seq<bool>)
    requires Encodable(p, level)
    ensures DecodeBlock(BodyBits(p, level) + rest, level) == Ok(Block(p.crc, p.origPtr, p.col), rest)
  {
    ContentsBack(p, level, rest);
    BodySteps(p.crc, p.origPtr, ContentsBits(p, level), p.col, level, rest);
  }

  /** The marks are the digits of pi and of its square root, in decimal. */
  lemma BlockMarkIs()
    ensures [0x31] + BLOCK_MARK == [0x31, 0x41, 0x59, 0x26, 0x53, 0x59]
  {
  }

  lemma EndMarkIs()
    ensures [0x17] + END_MARK == [0x17, 0x72, 0x45, 0x38, 0x50, 0x90]
  {
  }

  lemma HeaderIs(level: nat)
    requires 1 <= level <= 9
    ensures HEADER + [0x30 + level] == [0x42, 0x5a, 0x68, 0x30 + level]
  {
  }

  lemma SectionSteps(body: seq<bool>, level: nat, rest: seq<bool>)
    ensures DecodeSection(BytesToBits([0x31, 0x41, 0x59, 0x26, 0x53, 0x59]) + body + rest, level)
         == DecodeBlock(body + rest, level)
  {
    BlockMarkIs();
    hide BytesToBits, TakeBits, Expect, DecodeBlock;
    MarkBack(0x31, BLOCK_MARK, body, rest);
  }

  /** Decoding a block gives back what it was written from. */
  lemma SectionBack(p: Parts, level: nat, rest: seq<bool>)
    requires Encodable(p, level)
    ensures DecodeSection(SectionBits(p, level) + rest, level) == Ok(Block(p.crc, p.origPtr, p.col), rest)
  {
    BodyBack(p, level, rest);
    SectionSteps(BodyBits(p, level), level, rest);
  }

  /** A section's first byte and the rest of its mark. */
  lemma MarkBack(first: byte, mark: seq<byte>, body: seq<bool>, rest: seq<bool>)
    ensures TakeBits(BytesToBits([first] + mark) + body + rest, 8) == Ok(first, BytesToBits(mark) + (body + rest))
    ensures Expect(BytesToBits(mark) + (body + rest), mark, DataError) == Ok((), body + rest)
  {
    assert ([first] + mark)[1..] == mark;
    AssociateThree(BitsOf(first, 8), BytesToBits(mark), body, rest);
    Pow2Values();
    TakeBitsOf(first, 8, BytesToBits(mark) + (body + rest));
    ExpectMark(mark, body + rest, DataError);
  }

  function EndBits(crc: word): seq<bool> {
    BytesToBits([0x17, 0x72, 0x45, 0x38, 0x50, 0x90]) + WordBits(crc)
  }

  lemma EndBack(crc: word, level: nat, rest: seq<bool>)
    ensures DecodeSection(EndBits(crc) + rest, level) == Ok(End(crc), rest)
  {
    var word := WordBits(crc);
    TakeWord(crc, rest);
    EndSteps(crc, word, level, rest);
  }

  lemma EndSteps(crc: word, word: seq<bool>, level: nat, rest: seq<bool>)
    requires TakeBytes(word + rest, 4) == Ok(crc, rest)
    ensures DecodeSection(BytesToBits([0x17, 0x72, 0x45, 0x38, 0x50, 0x90]) + word + rest, level)
         == Ok(End(crc), rest)
  {
    EndMarkIs();
    MarkBack(0x17, END_MARK, word, rest);
    hide BytesToBits, TakeBits, TakeBytes, Expect, DecodeBlock;
  }

  function HeaderBits(level: nat): seq<bool>
    requires 1 <= level <= 9
  {
    BytesToBits([0x42, 0x5a, 0x68, 0x30 + level])
  }

  lemma HeaderBack(level: nat, rest: seq<bool>)
    requires 1 <= level <= 9
    ensures DecodeHeader(HeaderBits(level) + rest) == Ok(level, rest)
  {
    hide BytesToBits, BitsOf, Expect, TakeBits;
    var digit: byte := 0x30 + level;
    HeaderIs(level);
    MarkThenByte(HEADER, digit, rest);
  }

  lemma MarkThenByte(mark: seq<byte>, c: byte, rest: seq<bool>)
    ensures Expect(BytesToBits(mark + [c]) + rest, mark, DataErrorMagic) == Ok((), BitsOf(c, 8) + rest)
    ensures TakeBits(BitsOf(c, 8) + rest, 8) == Ok(c, rest)
  {
    BytesToBitsConcat(mark, [c]);
    assert BytesToBits([c]) == BitsOf(c, 8) + [];
    assert BytesToBits(mark + [c]) == BytesToBits(mark) + BitsOf(c, 8);
    hide BytesToBits, BitsOf, Expect;
    ConcatAssociative(BytesToBits(mark), BitsOf(c, 8), rest);
    ExpectMark(mark, BitsOf(c, 8) + rest, DataErrorMagic);
    Pow2Values();
    TakeBitsOf(c, 8, rest);
  }
}
