/** Encoding one block: sorting its rotations, coding the last column and writing
    the section. */
module BlockEncoder {
  import opened Bits
  import opened BitStream
  import opened Wrappers
  import opened InUse
  import opened MoveToFront
  import opened MtfEncoder
  import opened Permutations
  import opened Rotations
  import opened Huffman
  import opened RunLength
  import opened Crc
  import opened BlockFormat
  import opened BlockBits
  import opened BlockRoundTrip
  import opened BlockWriter
  import opened QuickSort
  import opened BucketFlags
  import opened MainCompare
  import FallbackSort
  import MainSort

  /** Finds the row of the unrotated block. */
  method FindOrigin(ptr: array<nat>, nblock: nat) returns (origPtr: nat)
    requires 1 <= nblock <= ptr.Length && Permutation(ptr[..nblock], nblock)
    ensures origPtr < nblock && ptr[origPtr] == 0
  {
    ghost var at := IndexIn(ptr[..nblock], nblock, 0);
    assert ptr[at] == 0;
    origPtr := 0;
    while origPtr < nblock && ptr[origPtr] != 0
      invariant origPtr <= at
    {
      origPtr := origPtr + 1;
    }
  }

  /** Sorts the rotations of the block and finds the unrotated one. Small blocks, and those
      that would take the main sort too much work, are left to the fallback sort. */
  method BlockSort(block: array<byte>, nblock: nat, arr1: array<nat>, workFactor: int) returns (origPtr: nat)
    requires 1 <= nblock && nblock + N_OVERSHOOT <= block.Length && nblock <= arr1.Length && nblock <= MOST_SORTED
    requires Separate(arr1, block)
    modifies block, arr1
    ensures block[..nblock] == old(block[..nblock])
    ensures SortedRotations(block[..nblock], arr1[..nblock])
    ensures origPtr < nblock && arr1[origPtr] == 0
  {
    ghost var b := block[..nblock];
    var budget: int := -1;
    if nblock >= 10000 {
      var quadrant := new nat[nblock + N_OVERSHOOT];
      var wfact := if workFactor < 1 then 1 else if workFactor > 100 then 100 else workFactor;
      budget := nblock * ((wfact - 1) / 3);
      budget := MainSort.Sort(arr1, block, quadrant, nblock, budget);
    }
    if budget < 0 {
      var eclass, bhtab := new nat[nblock], new bv32[nblock / 32 + 3];
      FallbackSort.Sort(arr1, eclass, bhtab, block, nblock);
    }
    assert SortedRotations(b, arr1[..nblock]);
    origPtr := FindOrigin(arr1, nblock);
  }

  lemma ColumnUsed(inUse: UseMap, b: seq<byte>)
    requires UsesOf(inUse, b) && b != []
    ensures AllUsed(inUse, b) && Used(inUse) != []
  {
    NumberOfUsed(inUse, b[0]);
  }

  lemma OriginRotation(b: seq<byte>, ptr: seq<nat>, origPtr: nat)
    requires SortedRotations(b, ptr) && origPtr < |b| && ptr[origPtr] == 0
    ensures Pointers(b, ptr) && Unsorted(LastColumn(b, ptr), origPtr) == b
  {
    RotationZero(b);
    UnsortedSorted(b, ptr, origPtr);
  }

  /** Writes the contents of a sorted block. */
  method WriteContents(bw: BitWriter, arr1: array<nat>, block: seq<byte>, inUse: UseMap, level: nat,
          ghost ptr: seq<nat>, ghost crc: word, ghost origPtr: nat)
    returns (ghost p: Parts)
    requires bw.Valid() && 1 <= level <= 9 && 1 <= |block| <= 100000 * level && |block| < arr1.Length
    requires Pointers(block, ptr) && AllUsed(inUse, block) && Used(inUse) != [] && origPtr < |block|
    requires forall q :: 0 <= q < |ptr| ==> arr1[q] == ptr[q]
    modifies bw, arr1
    ensures bw.Valid() && bw.taken == old(bw.taken)
    ensures Encodable(p, level) && p.crc == crc && p.origPtr == origPtr && p.col == LastColumn(block, ptr)
    ensures bw.Bits() == old(bw.Bits()) + ContentsBits(p, level)
  {
    hide Used, Overlaid, Counted, BlockSymbols, MappingBits, CodesBits, DataBits, AllUsed, LastColumn, Kraft;
    AlphaSize(inUse);
    var mtfFreq := new nat[258];
    var nInUse, nMTF := GenerateMTFValues(arr1, block, inUse, mtfFreq, ptr);
    ghost var syms := BlockSymbols(inUse, LastColumn(block, ptr));
    SymbolsEnded(inUse, LastColumn(block, ptr));
    ghost var codes := SendMTFValues(bw, arr1, mtfFreq, inUse, nInUse, nMTF, syms);
    p := Parts(crc, origPtr, inUse, codes, LastColumn(block, ptr));
  }

  /** The mark, the checksum, the flag for randomised blocks and the origin. */
  function BlockHeaderBits(crc: word, origPtr: nat): seq<bool> {
    BytesToBits([0x31, 0x41, 0x59, 0x26, 0x53, 0x59]) + (WordBits(crc) + [false] + BitsOf(origPtr, 24))
  }

  method WriteBlockHeader(bw: BitWriter, crc: word, origPtr: nat)
    requires bw.Valid() && origPtr < 900000
    modifies bw
    ensures bw.Valid() && bw.taken == old(bw.taken) && bw.Bits() == old(bw.Bits()) + BlockHeaderBits(crc, origPtr)
  {
    BlockMarkIs();
    HeaderParts(bw.Bits(), BytesToBits([0x31] + BLOCK_MARK), WordBits(crc), BitsOf(origPtr, 24));
    hide BytesToBits, WordBits, BitsOf;
    PutBytes(bw, [0x31] + BLOCK_MARK);
    bw.PutUInt32(crc);
    PutBit(bw, false);
    OriginFits(origPtr);
    bw.Put(24, origPtr);
  }

  lemma HeaderParts(z: seq<bool>, a: seq<bool>, b: seq<bool>, d: seq<bool>)
    ensures z + a + b + [false] + d == z + (a + (b + [false] + d))
  {
  }

  lemma SectionNext(before: seq<bool>, p: Parts, level: nat)
    requires Encodable(p, level)
    ensures before + BlockHeaderBits(p.crc, p.origPtr) + ContentsBits(p, level) == before + SectionBits(p, level)
  {
    SectionParts(before, BytesToBits([0x31, 0x41, 0x59, 0x26, 0x53, 0x59]), WordBits(p.crc), BitsOf(p.origPtr, 24),
      ContentsBits(p, level));
  }

  lemma SectionParts(z: seq<bool>, a: seq<bool>, b: seq<bool>, d: seq<bool>, e: seq<bool>)
    ensures z + (a + (b + [false] + d)) + e == z + (a + (b + [false] + d + e))
  {
  }

  /** Encodes the first `nblock` bytes as a block. */
  method EncodeBlock(bw: BitWriter, block: array<byte>, nblock: nat, inUse: UseMap, blockCRC: bv32, level: nat,
          workFactor: int)
    returns (ghost p: Parts)
    requires bw.Valid() && 1 <= level <= 9 && 1 <= nblock <= 100000 * level && nblock + N_OVERSHOOT <= block.Length
    requires UsesOf(inUse, block[..nblock]) && Separate(bw, block)
    modifies bw, block
    ensures bw.Valid() && bw.taken == old(bw.taken) && block[..nblock] == old(block[..nblock])
    ensures Encodable(p, level) && p.crc == CrcWord(blockCRC) && Unsorted(p.col, p.origPtr) == block[..nblock]
    ensures bw.Bits() == old(bw.Bits()) + SectionBits(p, level)
  {
    hide Used, AllUsed, UsesOf, LastColumn, SortedRotations, Unsorted, Pointers, ContentsBits, BlockHeaderBits, CrcWord;
    ghost var b := block[..nblock];
    ColumnUsed(inUse, b);
    var arr1 := new nat[nblock + 1];
    var origPtr := BlockSort(block, nblock, arr1, workFactor);
    ghost var ptr, before := arr1[..nblock], bw.Bits();
    OriginRotation(b, ptr, origPtr);
    WriteBlockHeader(bw, CrcWord(blockCRC), origPtr);
    p := WriteContents(bw, arr1, block[..nblock], inUse, level, ptr, CrcWord(blockCRC), origPtr);
    SectionNext(before, p, level);
  }

  lemma OriginFits(origPtr: nat)
    requires origPtr < 900000
    ensures origPtr < Pow2(24)
  {
    Pow2Values();
  }
}
