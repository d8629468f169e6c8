/** The compressed stream, section by section: what the decoder makes of any bit
    string, what the encoder writes, and that the first undoes the second. */
module BlockFormat {
  import opened Bits
  import opened Wrappers
  import opened BitStream
  import opened InUse
  import opened MoveToFront
  import opened Permutations
  import opened Huffman

  const GROUP_SIZE := 50
  const MAX_SELECTORS := 18002

  // ----- numbers and marks

  /** A number of `n` bytes, high byte first. */
  function TakeBytes(bits: seq<bool>, n: nat): (p: Parse<nat>)
    ensures p.Ok? ==> |p.rest| <= |bits|
  {
    if n == 0 then Ok(0, bits)
    else
      var (high, bits1) :- TakeBytes(bits, n - 1);
      var (uc, bits2) :- TakeBits(bits1, 8);
      Ok(256 * high + uc, bits2)
  }

  /** The given bytes. */
  function Expect(bits: seq<bool>, mark: seq<byte>, error: Error): (p: Parse<()>)
    ensures p.Ok? ==> |p.rest| <= |bits|
    decreases |mark|
  {
    if mark == [] then Ok((), bits)
    else
      var (uc, bits1) :- TakeBits(bits, 8);
      if uc != mark[0] then Fail(error) else Expect(bits1, mark[1..], error)
  }

  const HEADER: seq<byte> := [0x42, 0x5a, 0x68]
  const BLOCK_MARK: seq<byte> := [0x41, 0x59, 0x26, 0x53, 0x59]
  const END_MARK: seq<byte> := [0x72, 0x45, 0x38, 0x50, 0x90]

  /** The stream header, which gives the block size. */
  function DecodeHeader(bits: seq<bool>): (p: Parse<nat>)
    ensures p.Ok? ==> 1 <= p.value <= 9
    ensures p.Ok? ==> |p.rest| <= |bits|
  {
    var (_, bits1) :- Expect(bits, HEADER, DataErrorMagic);
    var (level, bits2) :- TakeBits(bits1, 8);
    if level < 0x31 || level > 0x39 then Fail(DataErrorMagic) else Ok(level - 0x30, bits2)
  }

  // ----- the bytes in use

  /** `n - |acc|` single bits. */
  function DecodeFlags(bits: seq<bool>, n: nat, acc: seq<bool>): (p: Parse<seq<bool>>)
    requires |acc| <= n
    ensures p.Ok? ==> |p.value| == n
    ensures p.Ok? ==> |p.rest| <= |bits|
    decreases n - |acc|
  {
    if |acc| == n then Ok(acc, bits)
    else
      var (uc, bits1) :- TakeBits(bits, 1);
      DecodeFlags(bits1, n, acc + [uc == 1])
  }

  /** 16 flags for each 16 bytes that occur. */
  function DecodeInUse(bits: seq<bool>, used16: seq<bool>, acc: seq<bool>): (p: Parse<UseMap>)
    requires |used16| == 16 && |acc| <= 256 && |acc| % 16 == 0
    ensures p.Ok? ==> |p.rest| <= |bits|
    decreases 256 - |acc|
  {
    if |acc| == 256 then Ok(acc, bits)
    else if used16[|acc| / 16] then
      var (row, bits1) :- DecodeFlags(bits, 16, []);
      DecodeInUse(bits1, used16, acc + row)
    else DecodeInUse(bits, used16, acc + Zeros(16))
  }

  function DecodeMapping(bits: seq<bool>): (p: Parse<UseMap>)
    ensures p.Ok? ==> |p.rest| <= |bits|
  {
    var (used16, bits1) :- DecodeFlags(bits, 16, []);
    DecodeInUse(bits1, used16, [])
  }

  // ----- the selectors

  /** A number below `nGroups`, in unary. */
  function DecodeUnary(bits: seq<bool>, nGroups: nat, j: nat): (p: Parse<nat>)
    requires j < nGroups
    ensures p.Ok? ==> p.value < nGroups
    ensures p.Ok? ==> |p.rest| <= |bits|
    decreases nGroups - j
  {
    var (uc, bits1) :- TakeBits(bits, 1);
    if uc == 0 then Ok(j, bits1)
    else if j + 1 >= nGroups then Fail(DataError)
    else DecodeUnary(bits1, nGroups, j + 1)
  }

  ghost predicate EachBelow(s: seq<nat>, n: nat) {
    forall i :: 0 <= i < |s| ==> s[i] < n
  }

  /** The selectors, written one by one to an array of `MAX_SELECTORS` cells; their number is
      not compared with it. */
  function DecodeSelectors(bits: seq<bool>, nGroups: nat, n: nat, acc: seq<nat>): (p: Parse<seq<nat>>)
    requires nGroups > 0 && |acc| <= n && |acc| <= MAX_SELECTORS && EachBelow(acc, nGroups)
    ensures p.Ok? ==> |p.value| == n <= MAX_SELECTORS && EachBelow(p.value, nGroups)
    ensures p.Ok? ==> |p.rest| <= |bits|
    decreases n - |acc|
  {
    if |acc| == n then Ok(acc, bits)
    else
      var (j, bits1) :- DecodeUnary(bits, nGroups, 0);
      if |acc| == MAX_SELECTORS then Fail(SelectorsOverrun)
      else DecodeSelectors(bits1, nGroups, n, acc + [j])
  }

  // ----- the code lengths

  /** One length, as steps up and down from the one before. */
  function DecodeLength(bits: seq<bool>, curr: int): (p: Parse<nat>)
    ensures p.Ok? ==> 1 <= p.value <= LONGEST_CODE
    ensures p.Ok? ==> |p.rest| <= |bits|
    decreases |bits|
  {
    if curr < 1 || curr > LONGEST_CODE then Fail(DataError)
    else
      var (uc, bits1) :- TakeBits(bits, 1);
      if uc == 0 then Ok(curr, bits1)
      else
        var (down, bits2) :- TakeBits(bits1, 1);
        DecodeLength(bits2, if down == 0 then curr + 1 else curr - 1)
  }

  function DecodeLengths(bits: seq<bool>, curr: int, alphaSize: nat, acc: seq<nat>): (p: Parse<seq<nat>>)
    requires |acc| <= alphaSize && 1 <= alphaSize <= MAX_ALPHA_SIZE
    requires forall i :: 0 <= i < |acc| ==> 1 <= acc[i] <= LONGEST_CODE
    ensures p.Ok? ==> |p.value| == alphaSize && Lengths(p.value)
    ensures p.Ok? ==> |p.rest| <= |bits|
    decreases alphaSize - |acc|
  {
    if |acc| == alphaSize then Ok(acc, bits)
    else
      var (len, bits1) :- DecodeLength(bits, curr);
      DecodeLengths(bits1, len, alphaSize, acc + [len])
  }

  ghost predicate Tables(lens: seq<seq<nat>>, alphaSize: nat) {
    forall t :: 0 <= t < |lens| ==> |lens[t]| == alphaSize && Lengths(lens[t])
  }

  function DecodeLengthTables(bits: seq<bool>, nGroups: nat, alphaSize: nat,
          acc: seq<seq<nat>>): (p: Parse<seq<seq<nat>>>)
    requires |acc| <= nGroups && 1 <= alphaSize <= MAX_ALPHA_SIZE && Tables(acc, alphaSize)
    ensures p.Ok? ==> |p.value| == nGroups && Tables(p.value, alphaSize)
    ensures p.Ok? ==> |p.rest| <= |bits|
    decreases nGroups - |acc|
  {
    if |acc| == nGroups then Ok(acc, bits)
    else
      var (curr, bits1) :- TakeBits(bits, 5);
      var (lens, bits2) :- DecodeLengths(bits1, curr, alphaSize, []);
      DecodeLengthTables(bits2, nGroups, alphaSize, acc + [lens])
  }

  /** The codes of a block: for each group of symbols the table to use, and the
      code lengths of each table. */
  datatype Codes = Codes(selectors: seq<nat>, lens: seq<seq<nat>>)

  ghost predicate ValidCodes(codes: Codes, alphaSize: nat) {
    Tables(codes.lens, alphaSize) && EachBelow(codes.selectors, |codes.lens|)
  }

  function DecodeCodes(bits: seq<bool>, alphaSize: nat): (p: Parse<Codes>)
    requires 1 <= alphaSize <= MAX_ALPHA_SIZE
    ensures p.Ok? ==> ValidCodes(p.value, alphaSize)
    ensures p.Ok? ==> |p.rest| <= |bits|
  {
    var (nGroups, bits1) :- TakeBits(bits, 3);
    if nGroups < 2 || nGroups > 6 then Fail(DataError)
    else
      var (nSelectors, bits2) :- TakeBits(bits1, 15);
      if nSelectors < 1 then Fail(DataError)
      else
        var (selectorMtf, bits3) :- DecodeSelectors(bits2, nGroups, nSelectors, []);
        var (lens, bits4) :- DecodeLengthTables(bits3, nGroups, alphaSize, []);
        DecodeBelow(Iota(nGroups), selectorMtf, nGroups);
        Ok(Codes(Decode(Iota(nGroups), selectorMtf), lens), bits4)
  }

  lemma {:induction false} DecodeBelow(list: seq<nat>, js: seq<nat>, n: nat)
    requires |list| == n && EachBelow(list, n) && EachBelow(js, n)
    ensures EachBelow(Decode(list, js), n)
    decreases |js|
  {
    if js != [] {
      DecodeBelow(ToFront(list, js[0]), js[1..], n);
    }
  }

  // ----- the symbols

  /** Symbol `k` of the block is read with the table of its group. */
  function DecodeSymbolAt(bits: seq<bool>, codes: Codes, alphaSize: nat, k: nat): (p: Parse<nat>)
    requires ValidCodes(codes, alphaSize)
    ensures p.Ok? ==> k / GROUP_SIZE < |codes.selectors|
    ensures p.Ok? ==> |p.rest| <= |bits|
  {
    if k / GROUP_SIZE >= |codes.selectors| then Fail(DataError)
    else DecodeSymbol(codes.lens[codes.selectors[k / GROUP_SIZE]], bits)
  }

  /** The column, when `k` symbols have been read. */
  function DecodeColumn(bits: seq<bool>, codes: Codes, alphaSize: nat, c: Context, k: nat,
          st: State): (p: Parse<seq<byte>>)
    requires ValidCodes(codes, alphaSize)
    ensures p.Ok? ==> |p.rest| <= |bits|
    decreases GROUP_SIZE * |codes.selectors| - k, 1
  {
    var (sym, bits1) :- DecodeSymbolAt(bits, codes, alphaSize, k);
    DecodeAfter(bits1, codes, alphaSize, c, k, st, sym)
  }

  /** The column, when symbol `k` has been read and is still to be dealt with. */
  function DecodeAfter(bits: seq<bool>, codes: Codes, alphaSize: nat, c: Context, k: nat, st: State, sym: nat)
    : (p: Parse<seq<byte>>)
    requires ValidCodes(codes, alphaSize) && k / GROUP_SIZE < |codes.selectors|
    ensures p.Ok? ==> |p.rest| <= |bits|
    decreases GROUP_SIZE * |codes.selectors| - k, 0
  {
    if sym == alphaSize - 1 then
      match EndRun(c, st)
      case Success(last) => Ok(last.col, bits)
      case Failure(error) => Fail(error)
    else
      match Feed(c, st, sym)
      case Success(st1) => DecodeColumn(bits, codes, alphaSize, c, k + 1, st1)
      case Failure(error) => Fail(error)
  }

  // ----- sections

  datatype Section = Block(crc: nat, origPtr: nat, col: seq<byte>) | End(crc: nat)

  function BlockContext(level: nat, inUse: UseMap): Context {
    Context(Used(inUse), 100000 * level)
  }

  const START: State := State(Iota(256), [], 0, 0)

  lemma AlphaSize(inUse: UseMap)
    ensures |Used(inUse)| + 2 <= MAX_ALPHA_SIZE
  {
  }

  /** The part of a block that holds its bytes. */
  function DecodeContents(bits: seq<bool>, level: nat): (p: Parse<seq<byte>>)
    ensures p.Ok? ==> |p.rest| <= |bits|
  {
    var (inUse, bits1) :- DecodeMapping(bits);
    if Used(inUse) == [] then Fail(DataError)
    else
      AlphaSize(inUse);
      var alphaSize := |Used(inUse)| + 2;
      var (codes, bits2) :- DecodeCodes(bits1, alphaSize);
      DecodeColumn(bits2, codes, alphaSize, BlockContext(level, inUse), 0, START)
  }

  function DecodeBlock(bits: seq<bool>, level: nat): (p: Parse<Section>)
    ensures p.Ok? ==> p.value.Block? && p.value.origPtr < |p.value.col|
    ensures p.Ok? ==> |p.rest| <= |bits|
  {
    var (crc, bits1) :- TakeBytes(bits, 4);
    var (randomised, bits2) :- TakeBits(bits1, 1);
    if randomised == 1 then Fail(Randomised)
    else
      var (origPtr, bits3) :- TakeBytes(bits2, 3);
      if origPtr > 10 + 100000 * level then Fail(DataError)
      else
        var (col, bits4) :- DecodeContents(bits3, level);
        if origPtr >= |col| then Fail(DataError) else Ok(Block(crc, origPtr, col), bits4)
  }

  /** A block, or the end of the stream. */
  function DecodeSection(bits: seq<bool>, level: nat): (p: Parse<Section>)
    ensures p.Ok? && p.value.Block? ==> p.value.origPtr < |p.value.col|
    ensures p.Ok? ==> |p.rest| < |bits|
  {
    var (uc, bits1) :- TakeBits(bits, 8);
    if uc == 0x17 then
      var (_, bits2) :- Expect(bits1, END_MARK, DataError);
      var (crc, bits3) :- TakeBytes(bits2, 4);
      Ok(End(crc), bits3)
    else if uc != 0x31 then Fail(DataError)
    else
      var (_, bits2) :- Expect(bits1, BLOCK_MARK, DataError);
      DecodeBlock(bits2, level)
  }
}
