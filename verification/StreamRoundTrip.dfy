/** A whole stream: the sections that the encoder has written, and what the
    decoder makes of them. */
module StreamRoundTrip {
  import opened Bits
  import opened Wrappers
  import opened BitStream
  import opened Crc
  import opened RunLength
  import opened Rotations
  import opened BlockFormat
  import opened BlockOutput
  import opened BlockBits
  import opened BlockRoundTrip
  import opened Stream

  /** A block that has been sent, and the data it stands for. */
  datatype Sent = Sent(p: Parts, data: seq<byte>)

  ghost predicate Good(table: CrcTable, s: Sent, level: nat) {
    && Encodable(s.p, level)
    && UnRle(Unsorted(s.p.col, s.p.origPtr)) == Success(s.data)
    && s.p.crc == CrcWord(BlockCrc(table, s.data))
  }

  ghost predicate AllGood(table: CrcTable, sent: seq<Sent>, level: nat) {
    forall i :: 0 <= i < |sent| ==> Good(table, sent[i], level)
  }

  /** The sections of the blocks. */
  ghost function SentBits(table: CrcTable, sent: seq<Sent>, level: nat): seq<bool>
    requires AllGood(table, sent, level)
  {
    if sent == [] then []
    else
      var n := |sent| - 1;
      SentBits(table, sent[..n], level) + SectionBits(sent[n].p, level)
  }

  function SentData(sent: seq<Sent>): seq<byte> {
    if sent == [] then [] else SentData(sent[..|sent| - 1]) + sent[|sent| - 1].data
  }

  /** The combined checksum of the blocks. */
  function SentCrc(table: CrcTable, sent: seq<Sent>): bv32 {
    if sent == [] then 0 else Combine(SentCrc(table, sent[..|sent| - 1]), BlockCrc(table, sent[|sent| - 1].data))
  }

  lemma OneMore(table: CrcTable, sent: seq<Sent>, s: Sent, level: nat)
    requires AllGood(table, sent, level) && Good(table, s, level)
    ensures AllGood(table, sent + [s], level)
    ensures SentBits(table, sent + [s], level) == SentBits(table, sent, level) + SectionBits(s.p, level)
  {
    hide Encodable, UnRle, Unsorted, BlockCrc, SectionBits;
    assert (sent + [s])[..|sent|] == sent;
  }

  lemma OneMoreData(table: CrcTable, sent: seq<Sent>, s: Sent)
    ensures SentData(sent + [s]) == SentData(sent) + s.data
    ensures SentCrc(table, sent + [s]) == Combine(SentCrc(table, sent), BlockCrc(table, s.data))
  {
    hide Combine, BlockCrc;
    assert (sent + [s])[..|sent|] == sent;
  }

  /** Decoding the sections of the blocks, and what follows them. */
  lemma {:induction false} BlocksBack(table: CrcTable, sent: seq<Sent>, level: nat, rest: seq<bool>)
    requires AllGood(table, sent, level)
    ensures DecodeBlocks(table, SentBits(table, sent, level) + rest, level, 0)
         == Prepend(SentData(sent), DecodeBlocks(table, rest, level, SentCrc(table, sent)))
    decreases |sent|
  {
    hide Encodable, UnRle, Unsorted, BlockCrc, Combine, SectionBits, DecodeBlocks, Prepend;
    if sent == [] {
      assert SentBits(table, sent, level) + rest == rest;
      PrependTwice([], [], DecodeBlocks(table, rest, level, 0));
    } else {
      var n := |sent| - 1;
      var s, before := sent[n], sent[..n];
      var section := SectionBits(s.p, level);
      ConcatAssociative(SentBits(table, before, level), section, rest);
      BlocksBack(table, before, level, section + rest);
      BlockBack(table, s, level, rest, SentCrc(table, before));
      PrependTwice(SentData(before), s.data, DecodeBlocks(table, rest, level, SentCrc(table, sent)));
    }
  }

  lemma BlockBack(table: CrcTable, s: Sent, level: nat, rest: seq<bool>, combined: bv32)
    requires Good(table, s, level)
    ensures DecodeBlocks(table, SectionBits(s.p, level) + rest, level, combined)
         == Prepend(s.data, DecodeBlocks(table, rest, level, Combine(combined, BlockCrc(table, s.data))))
  {
    SectionBack(s.p, level, rest);
    hide SectionBits, DecodeSection, UnRle, Unsorted, BlockCrc, Combine, CrcWord;
  }

  /** All bits of a stream. */
  ghost function StreamBits(table: CrcTable, sent: seq<Sent>, level: nat): seq<bool>
    requires 1 <= level <= 9 && AllGood(table, sent, level)
  {
    HeaderBits(level) + SentBits(table, sent, level) + EndBits(CrcWord(SentCrc(table, sent)))
  }

  lemma EndDecodes(table: CrcTable, level: nat, crc: bv32, rest: seq<bool>)
    ensures DecodeBlocks(table, EndBits(CrcWord(crc)) + rest, level, crc) == Success([])
  {
    EndBack(CrcWord(crc), level, rest);
    hide EndBits, DecodeSection, CrcWord;
  }

  /** The decoder gets the data of all blocks back, whatever follows the stream. */
  lemma StreamBack(table: CrcTable, sent: seq<Sent>, level: nat, rest: seq<bool>)
    requires 1 <= level <= 9 && AllGood(table, sent, level)
    ensures DecodeStream(table, StreamBits(table, sent, level) + rest) == Success(SentData(sent))
  {
    hide HeaderBits, DecodeHeader, SentBits, EndBits, DecodeBlocks, SentData, SentCrc, AllGood;
    var blocks, end := SentBits(table, sent, level), EndBits(CrcWord(SentCrc(table, sent)));
    AssociateThree(HeaderBits(level), blocks, end, rest);
    HeaderBack(level, blocks + (end + rest));
    BlocksBack(table, sent, level, end + rest);
    EndDecodes(table, level, SentCrc(table, sent), rest);
    assert SentData(sent) + [] == SentData(sent);
  }
}
