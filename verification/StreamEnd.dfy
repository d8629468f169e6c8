/** When a compressed stream ends well: every block has the checksum that is stored for it, and
    the word behind the last block is the sum of these checksums, each turned to the left once
    for every block after it. */
module StreamEnd {
  import opened Bits
  import opened Wrappers
  import opened Crc
  import opened CrcLaws
  import opened RunLength
  import opened Rotations
  import opened BlockFormat
  import opened BlockOutput
  import opened Stream
  import opened StreamRoundTrip

  /** From a block boundary on the bits are these blocks, each with its checksum, and the end
      mark with `crc` behind it. */
  ghost predicate Sections(table: CrcTable, bits: seq<bool>, level: nat, blocks: seq<seq<byte>>, crc: nat)
    decreases |blocks|
  {
    var p := DecodeSection(bits, level);
    if blocks == [] then p.Ok? && p.value.End? && p.value.crc == crc
    else
      && p.Ok? && p.value.Block? && UnRle(Unsorted(p.value.col, p.value.origPtr)) == Success(blocks[0])
      && BlockCrc(table, blocks[0]) as int == p.value.crc && Sections(table, p.rest, level, blocks[1..], crc)
  }

  function Joined(blocks: seq<seq<byte>>): seq<byte> {
    if blocks == [] then [] else blocks[0] + Joined(blocks[1..])
  }

  function Checksums(table: CrcTable, blocks: seq<seq<byte>>): (r: seq<bv32>)
    ensures |r| == |blocks|
  {
    seq(|blocks|, i requires 0 <= i < |blocks| => BlockCrc(table, blocks[i]))
  }

  /** The stream is good: the word at its end is the combined checksum of its blocks. */
  ghost predicate EndsWell(table: CrcTable, before: seq<bv32>, blocks: seq<seq<byte>>, crc: nat) {
    exists combined: bv32 :: combined as int == crc && IsCombined(combined, before + Checksums(table, blocks))
  }

  lemma FirstChecksum(table: CrcTable, before: seq<bv32>, blocks: seq<seq<byte>>)
    requires blocks != []
    ensures before + Checksums(table, blocks)
         == before + [BlockCrc(table, blocks[0])] + Checksums(table, blocks[1..])
  {
  }

  /** What the decoder has computed from the blocks before is compared with the word. */
  lemma AtEnd(table: CrcTable, combined: bv32, before: seq<bv32>, crc: nat)
    requires IsCombined(combined, before)
    ensures CrcWord(combined) == crc <==> EndsWell(table, before, [], crc)
  {
    hide IsCombined;
    assert before + Checksums(table, []) == before;
    if word: bv32 :| word as int == crc && IsCombined(word, before) { CombinedOnce(word, combined, before); }
  }

  /** A stream that is decoded has blocks that end well. */
  lemma {:induction false} GoodEnd(table: CrcTable, bits: seq<bool>, level: nat, combined: bv32, before: seq<bv32>,
          data: seq<byte>)
    returns (blocks: seq<seq<byte>>, crc: nat)
    requires DecodeBlocks(table, bits, level, combined) == Success(data) && IsCombined(combined, before)
    ensures Sections(table, bits, level, blocks, crc) && data == Joined(blocks)
    ensures EndsWell(table, before, blocks, crc)
    decreases |bits|
  {
    hide IsCombined, DecodeSection, UnRle, Unsorted, BlockCrc, Combine;
    var p := DecodeSection(bits, level);
    if p.value.End? {
      blocks, crc := [], p.value.crc;
      AtEnd(table, combined, before, crc);
    } else {
      var first := UnRle(Unsorted(p.value.col, p.value.origPtr)).value;
      var c := BlockCrc(table, first);
      CombinedMore(combined, before, c);
      var later := DecodeBlocks(table, p.rest, level, Combine(combined, c)).value;
      blocks, crc := GoodEnd(table, p.rest, level, Combine(combined, c), before + [c], later);
      var rest := blocks;
      blocks := [first] + rest;
      assert blocks[1..] == rest;
      FirstChecksum(table, before, blocks);
    }
  }

  /** Blocks that end well are decoded. */
  lemma {:induction false} EndGood(table: CrcTable, bits: seq<bool>, level: nat, combined: bv32, before: seq<bv32>,
          blocks: seq<seq<byte>>, crc: nat)
    requires Sections(table, bits, level, blocks, crc) && EndsWell(table, before, blocks, crc)
    requires IsCombined(combined, before)
    ensures DecodeBlocks(table, bits, level, combined) == Success(Joined(blocks))
    decreases |blocks|
  {
    hide IsCombined, DecodeSection, UnRle, Unsorted, BlockCrc, Combine;
    var p := DecodeSection(bits, level);
    if blocks == [] {
      AtEnd(table, combined, before, crc);
    } else {
      var c := BlockCrc(table, blocks[0]);
      CombinedMore(combined, before, c);
      FirstChecksum(table, before, blocks);
      EndGood(table, p.rest, level, Combine(combined, c), before + [c], blocks[1..], crc);
    }
  }

  /** The sections of a stream are decoded exactly when they end well. */
  lemma DecodedExactly(table: CrcTable, bits: seq<bool>, level: nat, data: seq<byte>)
    ensures DecodeBlocks(table, bits, level, 0) == Success(data) <==>
      exists blocks, crc ::
        Sections(table, bits, level, blocks, crc) && EndsWell(table, [], blocks, crc) && data == Joined(blocks)
  {
    hide DecodeBlocks, Sections, EndsWell, IsCombined;
    CombinedNone();
    if DecodeBlocks(table, bits, level, 0) == Success(data) {
      var blocks, crc := GoodEnd(table, bits, level, 0, [], data);
    }
    if blocks, crc :|
      Sections(table, bits, level, blocks, crc) && EndsWell(table, [], blocks, crc) && data == Joined(blocks)
    {
      EndGood(table, bits, level, 0, [], blocks, crc);
    }
  }

  /** The word that the compressor sends is this one. */
  lemma {:induction false} SentCombined(table: CrcTable, sent: seq<Sent>)
    ensures IsCombined(SentCrc(table, sent), seq(|sent|, i requires 0 <= i < |sent| => BlockCrc(table, sent[i].data)))
    decreases |sent|
  {
    hide IsCombined, BlockCrc, Combine;
    var all := seq(|sent|, i requires 0 <= i < |sent| => BlockCrc(table, sent[i].data));
    if sent == [] {
      CombinedNone();
      assert all == [];
    } else {
      var m := |sent| - 1;
      var before := seq(|sent[..m]|, i requires 0 <= i < |sent[..m]| => BlockCrc(table, sent[..m][i].data));
      SentCombined(table, sent[..m]);
      CombinedMore(SentCrc(table, sent[..m]), before, BlockCrc(table, sent[m].data));
      assert all == before + [BlockCrc(table, sent[m].data)];
    }
  }
}
