/** The decompressor: reads sections, puts blocks out a slice at a time and checks
    the checksums. */
module Decompressor {
  import opened Bits
  import opened Wrappers
  import opened BitStream
  import opened Crc
  import opened InUse
  import opened MoveToFront
  import opened CountingSort
  import opened Huffman
  import opened HuffmanTables
  import opened Rotations
  import opened RunLength
  import opened ByteCounts
  import opened InverseSort
  import opened BlockFormat
  import opened BlockReader
  import opened ColumnReader
  import opened BlockOutput
  import opened Stream

  // ----- one block

  /** The tables of a block that has been read. */
  datatype Loaded = Loaded(crc: nat, origPtr: nat, nblock: nat)

  /** The map, the codes and the symbols of a block, into `cells`. */
  method ReadContents(br: BitReader, level: nat, cells: array<nat>, unzftab: array<nat>)
    returns (r: Result<nat>, ghost col: seq<byte>)
    requires br.Valid() && cells != unzftab && unzftab.Length == 256 && cells.Length == 100000 * level
    modifies br, cells, unzftab
    ensures br.Valid()
    ensures r.Success? ==> DecodeContents(old(br.Remaining()), level) == Ok(col, br.Remaining())
    ensures r.Success? ==> Filled(cells, col) && Tallied(unzftab, col) && r.value == |col| <= cells.Length
    ensures r.Failure? ==> DecodeContents(old(br.Remaining()), level) == Fail(r.error)
  {
    hide DecodeMapping, DecodeCodes, DecodeColumn, Filled, Tallied, Tables;
    col := [];
    var inUse := ReadMapping(br);
    if inUse.Failure? {
      return Failure(inUse.error), col;
    }
    var seqToUnseq := MakeMapsD(inUse.value);
    if seqToUnseq == [] {
      return Failure(DataError), col;
    }
    AlphaSize(inUse.value);
    var alphaSize := |seqToUnseq| + 2;
    var codes := ReadCodes(br, alphaSize);
    if codes.Failure? {
      return Failure(codes.error), col;
    }
    var tables := BuildAllTables(codes.value.lens, alphaSize);
    var src := new SymbolSource(br, codes.value.selectors, tables, codes.value, alphaSize);
    r, col := ReadColumn(src, cells, unzftab, seqToUnseq, 100000 * level, BlockContext(level, inUse.value));
  }

  /** Reads a block after its mark and prepares its output. */
  method ReadBlock(br: BitReader, level: nat, small: bool, table: CrcTable)
    returns (r: Result<nat>, block: BlockOutput?)
    requires br.Valid() && 1 <= level <= 9
    modifies br
    ensures br.Valid()
    ensures r.Failure? ==> DecodeBlock(old(br.Remaining()), level) == Fail(r.error)
    ensures r.Success? ==> block != null && fresh(block) && fresh(block.tt) && fresh(block.ll16) && fresh(block.ll4)
    ensures r.Success? ==> fresh(block.cftab) && block.Valid() && block.small == small && block.table == table
    ensures r.Success? ==>
      DecodeBlock(old(br.Remaining()), level) == Ok(Block(r.value, block.orig, block.col), br.Remaining())
    ensures r.Success? ==>
      block.Pending() == UnRle(Unsorted(block.col, block.orig)) && block.calculatedBlockCRC == CRC_INIT
  {
    block := null;
    hide TakeBytes, DecodeContents;
    var crc := ReadBytes(br, 4);
    if crc.Failure? {
      return Failure(crc.error), null;
    }
    var randomised := br.GetBits(1);
    if randomised.Failure? {
      return Failure(randomised.error), null;
    }
    if randomised.value == 1 {
      return Failure(Randomised), null;
    }
    var origPtr := ReadBytes(br, 3);
    if origPtr.Failure? {
      return Failure(origPtr.error), null;
    }
    if origPtr.value > 10 + 100000 * level {
      return Failure(DataError), null;
    }
    var cells, unzftab := new nat[100000 * level], new nat[256];
    var nblock;
    ghost var col;
    nblock, col := ReadContents(br, level, cells, unzftab);
    if nblock.Failure? {
      return Failure(nblock.error), null;
    }
    if origPtr.value >= nblock.value {
      return Failure(DataError), null;
    }
    block := Load(cells, unzftab, nblock.value, origPtr.value, small, table, col);
    r := Success(crc.value);
  }

  /** Builds the tables for walking through a block. */
  method Load(cells: array<nat>, unzftab: array<nat>, nblock: nat, origPtr: nat, small: bool, table: CrcTable,
              ghost col: seq<byte>)
    returns (block: BlockOutput)
    requires cells != unzftab && Filled(cells, col) && Tallied(unzftab, col)
    requires origPtr < nblock == |col| && cells.Length <= MOST_ROWS
    modifies cells
    ensures fresh(block) && block.Valid() && block.small == small && block.table == table
    ensures block.col == col && block.orig == origPtr
    ensures block.tt == cells || fresh(block.tt)
    ensures block.ll16 == cells || fresh(block.ll16)
    ensures fresh(block.ll4) && fresh(block.cftab)
    ensures block.Pending() == UnRle(Unsorted(col, origPtr)) && block.calculatedBlockCRC == CRC_INIT
  {
    hide UnRle, Lower, Equal;
    var cftab := new nat[257];
    MakeCftab(unzftab, cftab, nblock, col);
    if small {
      var ll4 := new byte[(1 + cells.Length) / 2];
      block := new BlockOutput.Small(table, cells, ll4, cftab, nblock, origPtr, col);
    } else {
      block := new BlockOutput.Fast(table, cells, cftab, nblock, origPtr, col);
    }
  }

  // ----- the stream

  datatype Phase = Magic | BlockHeader | Output | Idle

  datatype Status = Running | StreamEnd | Bad(error: Error) | SequenceError

  class Decompressor {
    const table: CrcTable
    const small: bool
    const br: BitReader
    var phase: Phase
    var blockSize100k: nat
    var block: BlockOutput?
    var storedBlockCRC: nat
    var calculatedCombinedCRC: bv32
    ghost var Repr: set<object>

    ghost predicate Valid()
      reads this, br, Repr
      ensures Valid() ==> br.Valid()
    {
      && this !in Repr && br !in Repr && br.Valid()
      && (if phase == Magic then calculatedCombinedCRC == 0 else 1 <= blockSize100k <= 9)
      && (phase == Output ==>
        && block != null && Owned(block) && block.Valid()
        && block.small == small && block.table == table)
    }

    ghost predicate Owned(b: BlockOutput)
      reads this
    {
      {b, b.tt, b.ll16, b.ll4, b.cftab} <= Repr
    }

    /** The output that is still to come. */
    ghost function Pending(): Result<seq<byte>>
      requires Valid()
      reads this, br, Repr
    {
      match phase
      case Magic => DecodeStream(table, br.Remaining())
      case BlockHeader => DecodeBlocks(table, br.Remaining(), blockSize100k, calculatedCombinedCRC)
      case Output =>
        FinishBlock(table, block.calculatedBlockCRC, block.Pending(), storedBlockCRC, br.Remaining(), blockSize100k,
                    calculatedCombinedCRC)
      case Idle => Success([])
    }

    constructor (table: CrcTable, small: bool, input: seq<byte>)
      ensures Valid() && Pending() == DecodeStream(table, BytesToBits(input)) && fresh(br) && fresh(Repr)
      ensures phase == Magic
    {
      this.table, this.small := table, small;
      br := new BitReader(input);
      phase, blockSize100k, block, storedBlockCRC, calculatedCombinedCRC := Magic, 0, null, 0, 0;
      Repr := {};
    }

    /** Reads the stream header. */
    method ReadMagic() returns (r: Result<nat>)
      requires Valid() && phase == Magic
      modifies this`phase, this`blockSize100k, br
      ensures r.Success? ==> br.Valid() && |br.Remaining()| <= |old(br.Remaining())|
      ensures r.Success? ==> Valid() && phase == BlockHeader && Pending() == old(Pending())
      ensures r.Failure? ==> old(Pending()) == Failure(r.error)
    {
      hide DecodeBlocks, DecodeHeader;
      r := ReadHeader(br);
      if r.Success? {
        blockSize100k := r.value;
        phase := BlockHeader;
      }
    }

    /** Reads the next section: a block, or the end of the stream. */
    method ReadSection() returns (status: Status)
      requires Valid() && phase == BlockHeader
      modifies this, br
      ensures fresh(Repr - old(Repr))
      ensures status == Running ==> br.Valid() && |br.Remaining()| < |old(br.Remaining())|
      ensures status == Running ==> Valid() && phase == Output && Pending() == old(Pending())
      ensures status == StreamEnd ==> Valid() && phase == Idle && old(Pending()) == Success([])
      ensures status.Bad? ==> old(Pending()) == Failure(status.error)
      ensures !status.SequenceError?
    {
      hide DecodeBlocks, CheckBlock, DecodeSection, UnRle, FinaliseCrc, CrcFrom, Unsorted, FinishBlock, After, Prepend,
           Cumulated, Cycle, Walkable, Row, Held;
      BlocksStep(table, br.Remaining(), blockSize100k, calculatedCombinedCRC);
      var next := NextSection(br, blockSize100k, small, table);
      if next.Failure? {
        return Bad(next.error);
      }
      match next.value
      case EndOf(crc) =>
        if CrcWord(calculatedCombinedCRC) != crc {
          return Bad(DataError);
        }
        phase := Idle;
        status := StreamEnd;
      case BlockOf(crc, b) =>
        StartOutput(b, crc);
        status := Running;
    }

    /** Makes `b` the block that is put out. */
    method StartOutput(b: BlockOutput, crc: nat)
      requires br.Valid() && 1 <= blockSize100k <= 9 && b.Valid() && b.small == small && b.table == table
      requires this !in {b, b.tt, b.ll16, b.ll4, b.cftab} && br !in {b, b.tt, b.ll16, b.ll4, b.cftab}
      modifies this
      ensures Valid() && phase == Output && Repr == {b, b.tt, b.ll16, b.ll4, b.cftab}
      ensures br.Remaining() == old(br.Remaining())
      ensures Pending() == old(FinishBlock(table, b.calculatedBlockCRC, b.Pending(), crc, br.Remaining(), blockSize100k,
                                           calculatedCombinedCRC))
    {
      hide DecodeBlocks, CheckBlock, UnRle, Unsorted, After, Prepend, FinaliseCrc, CrcFrom, Cumulated, Cycle, Walkable,
           Row;
      block, storedBlockCRC, phase := b, crc, Output;
      Repr := {b, b.tt, b.ll16, b.ll4, b.cftab};
    }

    /** Puts out up to `avail` bytes. `Running` means that they have all been put
        out; the stream may still go on after them or not. */
    method Decompress(avail0: nat) returns (out: seq<byte>, status: Status)
      requires Valid()
      modifies this, br, Repr
      ensures fresh(Repr - old(Repr)) && |out| <= avail0
      ensures status == Running ==> Valid() && phase != Idle
      ensures status == Running ==> |out| == avail0 && old(Pending()) == Prepend(out, Pending())
      ensures status == StreamEnd ==> Valid() && phase == Idle && old(Pending()) == Success(out)
      ensures status.Bad? ==> old(Pending()) == Failure(status.error)
      ensures status == SequenceError <==> old(phase) == Idle
    {
      hide DecodeBlocks, DecodeStream, FinishBlock, Prepend, Pending, Owned;
      out := [];
      if phase == Idle {
        return out, SequenceError;
      }
      PrependTwice([], [], Pending());
      var avail: nat := avail0;
      while true
        invariant Valid() && phase != Idle && |out| + avail == avail0 && fresh(Repr - old(Repr))
        invariant old(Pending()) == Prepend(out, Pending())
        decreases |br.Remaining()|
      {
        if phase == Output {
          var more;
          ghost var before := Pending();
          more, status := OutputBlock(avail);
          PrependFailure(out, before);
          if status != Running {
            return;
          }
          PrependTwice(out, more, Pending());
          out, avail := out + more, avail - |more|;
          if phase == Output {
            return;
          }
        }
        PrependFailure(out, Pending());
        if phase == Magic {
          var level := ReadMagic();
          if level.Failure? {
            return out, Bad(level.error);
          }
        }
        status := ReadSection();
        if status != Running {
          return;
        }
      }
    }

    /** Puts out part of the current block. */
    method OutputBlock(avail: nat) returns (out: seq<byte>, status: Status)
      requires Valid() && phase == Output
      modifies this`phase, this`calculatedCombinedCRC, Repr
      ensures |out| <= avail
      ensures status == Running ==> (phase == Output || phase == BlockHeader) && br.Remaining() == old(br.Remaining())
      ensures status == Running ==> Valid() && old(Pending()) == Prepend(out, Pending())
      ensures status == Running && phase == Output ==> |out| == avail
      ensures status.Bad? ==> old(Pending()) == Failure(status.error)
      ensures status == Running || status.Bad?
    {
      hide DecodeBlocks, UnRle, Unsorted, After, Prepend, FinaliseCrc, CrcFrom, Cumulated, Cycle, Walkable, Row,
           CheckBlock, FinishBlock;
      ghost var crc := block.calculatedBlockCRC;
      PendingFails(block);
      FinishFails(table, crc, block.Pending(), storedBlockCRC, br.Remaining(), blockSize100k, calculatedCombinedCRC);
      var corrupt;
      if small {
        out, corrupt := block.OutputSmall(avail);
      } else {
        out, corrupt := block.OutputFast(avail);
      }
      if corrupt {
        return out, Bad(DataError);
      }
      FinishLess(table, crc, out, block.Pending(), storedBlockCRC, br.Remaining(), blockSize100k,
        calculatedCombinedCRC);
      PrependFailure(out, Pending());
      status := Running;
      if block.Done() {
        status := FinishOutput();
      }
    }

    /** Checks the checksum of a block that has been put out. */
    method FinishOutput() returns (status: Status)
      requires Valid() && phase == Output && block.Done()
      modifies this`phase, this`calculatedCombinedCRC
      ensures status == Running ==> Valid() && phase == BlockHeader && Pending() == old(Pending())
      ensures status == Bad(DataError) ==> old(Pending()) == Failure(DataError)
      ensures status == Running || status == Bad(DataError)
    {
      hide DecodeBlocks, Unsorted, FinaliseCrc, CrcFrom, Cumulated, Cycle, Walkable, Row, Combine, CrcWord;
      NothingLeft(table, block, storedBlockCRC, br.Remaining(), blockSize100k, calculatedCombinedCRC);
      var crc := FinaliseCrc(block.calculatedBlockCRC);
      if CrcWord(crc) != storedBlockCRC {
        return Bad(DataError);
      }
      calculatedCombinedCRC := Combine(calculatedCombinedCRC, crc);
      phase := BlockHeader;
      status := Running;
    }
  }

  lemma BlocksStep(table: CrcTable, bits: seq<bool>, level: nat, combined: bv32)
    ensures var p, r := DecodeSection(bits, level), DecodeBlocks(table, bits, level, combined);
      && (p.Fail? ==> r == Failure(p.error))
      && (p.Ok? && p.value.End? ==> r == if CrcWord(combined) == p.value.crc then Success([]) else Failure(DataError))
      && (p.Ok? && p.value.Block? ==>
            r == FinishBlock(table, CRC_INIT, UnRle(Unsorted(p.value.col, p.value.origPtr)), p.value.crc, p.rest, level,
              combined))
  {
    hide DecodeSection, UnRle, Unsorted, CheckBlock, CrcFrom, FinaliseCrc;
  }

  lemma PrependFailure(s: seq<byte>, r: Result<seq<byte>>)
    ensures r.Failure? ==> Prepend(s, r) == r
    ensures r == Success([]) ==> Prepend(s, r) == Success(s)
  {
    assert s + [] == s;
  }

  lemma PrependSuccess(s: seq<byte>, t: seq<byte>)
    ensures Prepend(s, Success(t)) == Success(s + t)
  {
  }

  lemma PendingFails(b: BlockOutput)
    requires b.orig < |b.col|
    ensures b.Pending().Failure? ==> b.Pending().error == DataError
  {
    if 1 <= b.nblock_used <= |b.col| + 1 { UnRleFails(b.Block()[b.nblock_used - 1..]); }
  }

  /** A block that is done has nothing left but its checksum. */
  lemma NothingLeft(table: CrcTable, b: BlockOutput, stored: nat, rest: seq<bool>, level: nat, combined: bv32)
    requires b.Valid() && b.Done()
    ensures var crc := FinaliseCrc(b.calculatedBlockCRC);
      FinishBlock(table, b.calculatedBlockCRC, b.Pending(), stored, rest, level, combined)
      == if CrcWord(crc) != stored then Failure(DataError) else DecodeBlocks(table, rest, level, Combine(combined, crc))
  {
    var block := b.Block();
    assert block[b.nblock_used - 1..] == [];
    assert b.Pending() == Success([]) by { RunOver(b.state_out_ch, After(block, b.nblock_used)); }
    CrcNothing(table, b.calculatedBlockCRC);
    hide DecodeBlocks, FinaliseCrc, CrcWord, Combine;
    PrependTwice([], [], DecodeBlocks(table, rest, level, Combine(combined, FinaliseCrc(b.calculatedBlockCRC))));
  }

  // ----- one section

  datatype Next = EndOf(crc: nat) | BlockOf(crc: nat, block: BlockOutput)

  method NextSection(br: BitReader, level: nat, small: bool, table: CrcTable) returns (r: Result<Next>)
    requires br.Valid() && 1 <= level <= 9
    modifies br
    ensures br.Valid()
    ensures r.Failure? ==> DecodeSection(old(br.Remaining()), level) == Fail(r.error)
    ensures r.Success? ==> |br.Remaining()| < |old(br.Remaining())|
    ensures r.Success? && r.value.EndOf? ==>
      DecodeSection(old(br.Remaining()), level) == Ok(End(r.value.crc), br.Remaining())
    ensures r.Success? && r.value.BlockOf? ==>
      var b := r.value.block;
      && fresh(b) && fresh(b.tt) && fresh(b.ll16) && fresh(b.ll4) && fresh(b.cftab)
      && b.Valid() && b.small == small && b.table == table
      && b.Pending() == UnRle(Unsorted(b.col, b.orig)) && b.calculatedBlockCRC == CRC_INIT
      && DecodeSection(old(br.Remaining()), level) == Ok(Block(r.value.crc, b.orig, b.col), br.Remaining())
  {
    hide Expect, TakeBytes, DecodeBlock, UnRle, Unsorted;
    var uc := br.GetBits(8);
    if uc.Failure? {
      return Failure(uc.error);
    }
    if uc.value == 0x17 {
      var mark := ReadMark(br, END_MARK, DataError);
      if mark.Failure? {
        return Failure(mark.error);
      }
      var crc := ReadBytes(br, 4);
      if crc.Failure? {
        return Failure(crc.error);
      }
      return Success(EndOf(crc.value));
    }
    if uc.value != 0x31 {
      return Failure(DataError);
    }
    var mark := ReadMark(br, BLOCK_MARK, DataError);
    if mark.Failure? {
      return Failure(mark.error);
    }
    var crc, b := ReadBlock(br, level, small, table);
    if crc.Failure? {
      return Failure(crc.error);
    }
    r := Success(BlockOf(crc.value, b));
  }

  /** A block of which some data has been put out, and the sections that follow. */
  function FinishBlock(table: CrcTable, crc: bv32, left: Result<seq<byte>>, stored: nat, rest: seq<bool>, level: nat,
                       combined: bv32): Result<seq<byte>>
  {
    var data :- left;
    CheckBlock(table, FinaliseCrc(CrcFrom(table, crc, data)), stored, data, rest, level, combined)
  }

  lemma FinishFails(table: CrcTable, crc: bv32, left: Result<seq<byte>>, stored: nat, rest: seq<bool>, level: nat,
                    combined: bv32)
    ensures left.Failure? ==> FinishBlock(table, crc, left, stored, rest, level, combined) == left
  {
  }

  /** Putting part of a block out. */
  lemma FinishLess(table: CrcTable, crc: bv32, out: seq<byte>, left: Result<seq<byte>>, stored: nat, rest: seq<bool>,
                   level: nat, combined: bv32)
    ensures FinishBlock(table, crc, Prepend(out, left), stored, rest, level, combined)
         == Prepend(out, FinishBlock(table, CrcFrom(table, crc, out), left, stored, rest, level, combined))
  {
    hide DecodeBlocks, CheckBlock, CrcFrom, FinaliseCrc;
    if left.Success? {
      CrcConcat(table, crc, out, left.value);
      CheckLess(table, FinaliseCrc(CrcFrom(table, crc, out + left.value)), stored, out, left.value, rest, level,
        combined);
    }
  }

  lemma CheckLess(table: CrcTable, computed: bv32, stored: nat, out: seq<byte>, data: seq<byte>, rest: seq<bool>,
                  level: nat, combined: bv32)
    ensures CheckBlock(table, computed, stored, out + data, rest, level, combined)
         == Prepend(out, CheckBlock(table, computed, stored, data, rest, level, combined))
  {
    var after := DecodeBlocks(table, rest, level, Combine(combined, computed));
    PrependTwice(out, data, after);
    hide DecodeBlocks, Combine;
  }
}
