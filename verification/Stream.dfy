/** What a compressed stream stands for: its blocks in order, with every block's
    checksum and the combined one. */
module Stream {
  import opened Bits
  import opened Wrappers
  import opened Crc
  import opened RunLength
  import opened Rotations
  import opened BlockFormat
  import opened BlockOutput

  /** The sections of a stream from a block boundary on. */
  function DecodeBlocks(table: CrcTable, bits: seq<bool>, level: nat, combined: bv32): Result<seq<byte>>
    decreases |bits|, 0
  {
    match DecodeSection(bits, level)
    case Fail(error) => Failure(error)
    case Ok(End(crc), _) => if CrcWord(combined) == crc then Success([]) else Failure(DataError)
    case Ok(Block(crc, origPtr, col), rest) =>
      var data :- UnRle(Unsorted(col, origPtr));
      CheckBlock(table, BlockCrc(table, data), crc, data, rest, level, combined)
  }

  /** A block whose data is known, and the sections that follow it. */
  function CheckBlock(table: CrcTable, computed: bv32, stored: nat, data: seq<byte>, rest: seq<bool>, level: nat,
          combined: bv32)
    : Result<seq<byte>>
    decreases |rest|, 1
  {
    if CrcWord(computed) != stored then Failure(DataError)
    else Prepend(data, DecodeBlocks(table, rest, level, Combine(combined, computed)))
  }

  function DecodeStream(table: CrcTable, bits: seq<bool>): Result<seq<byte>> {
    match DecodeHeader(bits)
    case Fail(error) => Failure(error)
    case Ok(level, rest) => DecodeBlocks(table, rest, level, 0)
  }
}
