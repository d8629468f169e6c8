/** The 32-bit block checksum. The table is left open: the codec is right for any. */
module Crc {
  import opened Bits

  type CrcTable = bv8 -> bv32

  const CRC_INIT: bv32 := 0xffff_ffff

  function UpdateCrc(table: CrcTable, crc: bv32, ch: byte): bv32 {
    (crc << 8) ^ table(((crc >> 24) as bv8) ^ (ch as bv8))
  }

  /** The checksum after all of `data`, before it is finalised. */
  function CrcFrom(table: CrcTable, crc: bv32, data: seq<byte>): bv32
    decreases |data|
  {
    if data == [] then crc else CrcFrom(table, UpdateCrc(table, crc, data[0]), data[1..])
  }

  lemma {:induction false} CrcConcat(table: CrcTable, crc: bv32, a: seq<byte>, b: seq<byte>)
    ensures CrcFrom(table, crc, a + b) == CrcFrom(table, CrcFrom(table, crc, a), b)
    decreases |a|
  {
    if a == [] {
      assert a + b == b;
    } else {
      assert (a + b)[1..] == a[1..] + b;
      CrcConcat(table, UpdateCrc(table, crc, a[0]), a[1..], b);
    }
  }

  lemma CrcSnoc(table: CrcTable, crc: bv32, a: seq<byte>, c: byte)
    ensures CrcFrom(table, crc, a + [c]) == UpdateCrc(table, CrcFrom(table, crc, a), c)
  {
    CrcConcat(table, crc, a, [c]);
    assert [c][1..] == [];
  }

  lemma CrcNothing(table: CrcTable, crc: bv32)
    ensures CrcFrom(table, crc, []) == crc
  {
  }

  function FinaliseCrc(crc: bv32): bv32 {
    !crc
  }

  /** The checksum of a block. */
  function BlockCrc(table: CrcTable, data: seq<byte>): bv32 {
    FinaliseCrc(CrcFrom(table, CRC_INIT, data))
  }

  /** The checksum of a stream, after one more block. */
  function Combine(combined: bv32, block: bv32): bv32 {
    ((combined << 1) | (combined >> 31)) ^ block
  }

  function CrcWord(crc: bv32): word {
    crc as int
  }
}
