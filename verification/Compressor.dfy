/** The compressor: it takes input in, cuts it into blocks, and hands compressed
    bytes out, for any calls of its owner. */
module Compressor {
  import opened Bits
  import opened MainCompare
  import opened Wrappers
  import opened BitStream
  import opened Crc
  import opened InUse
  import opened MoveToFront
  import opened Rotations
  import opened RunLength
  import opened BlockFormat
  import opened BlockBits
  import opened BlockRoundTrip
  import opened BlockWriter
  import opened BlockEncoder
  import opened Stream
  import opened StreamRoundTrip

  datatype Mode = Idle | Running | Flushing | Finishing
  datatype Phase = Input | Output
  datatype Action = Run | Flush | Finish
  datatype Status = RunOk | FlushOk | FinishOk | StreamEnd | SequenceError | ParamError

  class Compressor {
    const level: nat
    const workFactor: nat
    const enc: RunEncoder
    const bw: BitWriter
    var mode: Mode
    var phase: Phase
    var blockNo: nat
    var combinedCRC: bv32
    var availInExpect: nat
    ghost var sent: seq<Sent>
    ghost var ended: bool

    /** What has been written is what the blocks that were sent call for. */
    ghost predicate Written()
      reads this`sent, this`ended, this`blockNo, this`phase, this`combinedCRC, bw
    {
      && 1 <= level <= 9 && AllGood(enc.table, sent, level) && combinedCRC == SentCrc(enc.table, sent)
      && if ended then Complete(BytesToBits(bw.taken + bw.zbits), StreamBits(enc.table, sent, level))
         else bw.Valid() && if Fresh() then bw.Bits() == [] && sent == []
           else Sections(enc.table, sent, level, bw.Bits())
    }

    /** No run is open. */
    predicate IsEmptyRL()
      reads enc
    {
      !(enc.state_in_ch < 256 && enc.state_in_len > 0)
    }

    ghost predicate Valid()
      reads this, bw, enc, enc.block
    {
      && Distinct() && Written() && blockNo >= 1
      && enc.block.Length == 100000 * level + N_OVERSHOOT && enc.nblockMAX == 100000 * level - 19
      && (phase == Input ==> enc.Valid() && enc.nblock < enc.nblockMAX && !ended)
      && (phase == Output ==> enc.Stored() && InRun(enc.state_in_ch, enc.state_in_len))
      && (ended ==> enc.state_in_ch == NO_CHAR && enc.state_in_len == 0 && phase == Output)
      && (mode == Idle ==> ended && bw.zbits == [])
      && (phase == Output && !ended && IsEmptyRL() ==> mode == Flushing)
      && (phase == Input ==> bw.zbits == [])
      && (ended ==> (mode == Finishing || mode == Idle) && availInExpect == 0)
    }

    /** Nothing has been written yet. */
    predicate Fresh()
      reads this`blockNo, this`phase
    {
      blockNo == 1 && phase == Input
    }

    ghost predicate Distinct()
      reads this
    {
      Separate(this, enc) && Separate(this, bw) && Separate(enc, bw) && Separate(enc.block, bw)
        && Separate(enc.block, this) && Separate(enc.block, enc)
    }

    /** All input that has been taken in. */
    ghost function Consumed(): seq<byte>
      reads this, enc
    {
      SentData(sent) + if phase == Input then enc.Data() else PendingRun(enc.state_in_ch, enc.state_in_len)
    }

    constructor (table: CrcTable, blockSize100k: nat, workFactor: nat)
      requires 1 <= blockSize100k <= 9 && workFactor <= 250
      ensures Valid() && fresh(enc) && fresh(enc.block) && fresh(bw) && enc.table == table && level == blockSize100k
      ensures Consumed() == [] && mode == Running && bw.taken == []
    {
      hide Complete, Sections, StreamBits, BytesToBits, Runs, UsesOf, CrcFrom;
      level := blockSize100k;
      this.workFactor := if workFactor == 0 then 30 else workFactor;
      enc := new RunEncoder(table, blockSize100k);
      bw := new BitWriter();
      mode, phase, blockNo, combinedCRC, availInExpect := Running, Input, 1, 0, 0;
      sent, ended := [], false;
    }

    /** The first block is preceded by the stream header. */
    method WriteHeader()
      requires Distinct() && phase == Input && blockNo >= 1 && Written() && !ended
      modifies this`phase, bw
      ensures phase == Output && Written() && bw.taken == old(bw.taken)
    {
      hide AllGood, SentCrc, Sections, Complete, StreamBits, BytesToBits;
      phase := Output;
      if blockNo == 1 {
        NothingSent(enc.table, level);
        PutBytes(bw, HEADER + [0x30 + level]);
      }
    }

    /** Encodes the block that has been collected. */
    method SendBlock(crc: bv32)
      requires Distinct() && enc.Stored() && 1 <= enc.nblock <= 100000 * level && 1 <= level <= 9
      requires enc.block.Length == 100000 * level + N_OVERSHOOT
      requires bw.Valid() && Sections(enc.table, sent, level, bw.Bits()) && crc == FinaliseCrc(enc.blockCRC)
      modifies this`sent, bw, enc.block
      ensures bw.Valid() && bw.taken == old(bw.taken) && enc.Stored() && Sections(enc.table, sent, level, bw.Bits())
      ensures SentData(sent) == old(SentData(sent)) + Expand(enc.pairs)
      ensures SentCrc(enc.table, sent) == Combine(old(SentCrc(enc.table, sent)), crc)
    {
      hide Sections, SentCrc, SentData, Combine, FinaliseCrc, Runs, UsesOf, Expand, Flatten, CrcFrom, SectionBits,
           Encodable, Unsorted, CrcWord;
      ghost var bits := bw.Bits();
      ghost var p := EncodeBlock(bw, enc.block, enc.nblock, enc.inUse, crc, level, workFactor);
      SectionsMore(enc.table, sent, level, bits, p, enc.pairs, crc, enc.blockCRC);
      sent := sent + [Sent(p, Expand(enc.pairs))];
    }

    /** Ends the stream. */
    method WriteTrailer()
      requires Distinct() && phase == Output && Written() && !ended && blockNo >= 1
      modifies this`ended, bw
      ensures ended && Written() && bw.taken == old(bw.taken)
    {
      hide Sections, AllGood, SentCrc, SentBits, CrcWord, EndBits, Complete, BytesToBits;
      SectionsSound(enc.table, sent, level, bw.Bits());
      PutTrailer(bw, CrcWord(combinedCRC));
      ended := true;
    }

    /** Sends what has been collected, if there is any. */
    method SendCollected()
      requires Distinct() && phase == Output && Written() && !ended && blockNo >= 1
      requires enc.Stored() && enc.nblock <= 100000 * level && enc.block.Length == 100000 * level + N_OVERSHOOT
      modifies this`sent, this`combinedCRC, bw, enc.block
      ensures Written() && enc.Stored() && bw.taken == old(bw.taken)
      ensures SentData(sent) == old(SentData(sent)) + Expand(enc.pairs)
    {
      hide Sections, AllGood, SentCrc, SentData, Combine, FinaliseCrc, Runs, UsesOf, Expand, Flatten, CrcFrom,
           BytesToBits, Complete;
      if enc.nblock > 0 {
        var crc := FinaliseCrc(enc.blockCRC);
        SendBlock(crc);
        combinedCRC := Combine(combinedCRC, crc);
        SectionsGood(enc.table, sent, level, bw.Bits());
      } else {
        NoPairs(enc.pairs, SentData(sent));
      }
    }

    /** Ends the block that has been collected, and the stream if `isLast`. */
    method CompressBlock(isLast: bool)
      requires Distinct() && Written() && phase == Input && blockNo >= 1 && !ended
      requires enc.Stored() && enc.nblock <= 100000 * level && enc.block.Length == 100000 * level + N_OVERSHOOT
      modifies this`phase, this`sent, this`combinedCRC, this`ended, bw, enc.block
      ensures Written() && phase == Output && ended == isLast && enc.Stored() && bw.taken == old(bw.taken)
      ensures SentData(sent) == old(SentData(sent)) + Expand(enc.pairs)
    {
      hide Sections, AllGood, SentCrc, SentData, Runs, UsesOf, Expand, Flatten, CrcFrom, BytesToBits, Complete, Fresh;
      WriteHeader();
      SendCollected();
      if isLast {
        WriteTrailer();
      }
    }

    /** Starts collecting the next block. */
    method PrepareNewBlock()
      requires Valid() && phase == Output && !ended && bw.zbits == []
      modifies this`phase, this`blockNo, enc
      ensures Valid() && phase == Input && Consumed() == old(Consumed())
      ensures enc.state_in_ch == old(enc.state_in_ch) && enc.state_in_len == old(enc.state_in_len)
    {
      hide Sections, AllGood, SentCrc, SentBits, Runs, UsesOf, Flatten, BytesToBits, Complete, CrcFrom;
      enc.PrepareNewBlock();
      blockNo := blockNo + 1;
      phase := Input;
    }

    /** Takes input in until the block is full, there is no more, or all that a flush
        or finish expects has been taken in. */
    method CopyInput(input: seq<byte>, used0: nat) returns (used: nat)
      requires Distinct() && enc.Valid() && used0 <= |input| && enc.nblock < enc.nblockMAX
      requires mode != Running ==> availInExpect == |input| - used0
      modifies this`availInExpect, enc, enc.block
      ensures enc.Valid() && enc.nblock <= enc.nblockMAX + 4 && used0 <= used <= |input|
      ensures enc.Data() == old(enc.Data()) + input[used0..used]
      ensures mode != Running ==> availInExpect == |input| - used
      ensures used == |input| || enc.nblock >= enc.nblockMAX
      ensures used > used0 || used == |input|
      ensures enc.nblock >= enc.nblockMAX ==> used > used0
      ensures used > used0 ==> !IsEmptyRL()
    {
      hide Runs, UsesOf, Flatten, Expand, CrcFrom, PendingRun, InRun;
      used := used0;
      ghost var data := enc.Data();
      assert data + [] == data;
      while enc.nblock < enc.nblockMAX && used < |input| && (mode == Running || availInExpect != 0)
        invariant enc.Valid() && used0 <= used <= |input| && enc.nblock <= enc.nblockMAX + 4
        invariant mode != Running ==> availInExpect == |input| - used
        invariant enc.nblock >= enc.nblockMAX ==> used > used0
        invariant used > used0 ==> !IsEmptyRL()
        invariant enc.Data() == data + input[used0..used]
        decreases |input| - used
      {
        DataMore(data, input, used0, used);
        enc.AddChar(input[used]);
        used := used + 1;
        if mode != Running {
          availInExpect := availInExpect - 1;
        }
      }
    }

    /** A block is being collected; it may be full. */
    ghost predicate Collecting()
      reads this, bw, enc, enc.block
    {
      && Distinct() && Written() && blockNo >= 1 && phase == Input && !ended
      && enc.block.Length == 100000 * level + N_OVERSHOOT && enc.nblockMAX == 100000 * level - 19
      && enc.Valid() && enc.nblock <= enc.nblockMAX + 4 && mode != Idle && bw.zbits == []
    }

    /** Ends a full block; a run that is open goes on in the next one. */
    method CutBlock()
      requires Collecting() && !IsEmptyRL()
      modifies this`phase, this`sent, this`combinedCRC, this`ended, bw, enc.block
      ensures Valid() && phase == Output && !ended && Consumed() == old(Consumed()) && bw.taken == old(bw.taken)
    {
      hide Sections, AllGood, SentCrc, SentBits, SentData, Runs, UsesOf, Flatten, Expand, BytesToBits, Complete,
           CrcFrom;
      ConcatAssociative(SentData(sent), Expand(enc.pairs), PendingRun(enc.state_in_ch, enc.state_in_len));
      CompressBlock(false);
    }

    /** Ends the block with the run that is open. */
    method FlushBlock()
      requires Collecting() && mode != Running && availInExpect == 0
      modifies this`phase, this`sent, this`combinedCRC, this`ended, bw, enc, enc.block
      ensures Valid() && phase == Output && ended == (mode == Finishing) && IsEmptyRL()
      ensures Consumed() == old(Consumed()) && bw.taken == old(bw.taken)
    {
      hide Sections, AllGood, SentCrc, SentBits, SentData, Runs, UsesOf, Flatten, Expand, BytesToBits, Complete,
           CrcFrom;
      ghost var before := Consumed();
      enc.FlushRL();
      CompressBlock(mode == Finishing);
      assert Consumed() == before + [];
    }

    /** Collects input, and ends the block when it is full or all input that is
        expected has been taken in. */
    method FillBlock(input: seq<byte>, used0: nat) returns (used: nat)
      requires Valid() && phase == Input && used0 <= |input| && (mode != Running ==> availInExpect == |input| - used0)
      modifies this`availInExpect, this`phase, this`sent, this`combinedCRC, this`ended, bw, enc, enc.block
      ensures Valid() && used0 <= used <= |input| && Consumed() == old(Consumed()) + input[used0..used]
      ensures bw.taken == old(bw.taken) && (mode != Running ==> availInExpect == |input| - used)
      ensures phase == Input ==> used == |input| && mode == Running
      ensures phase == Output && used == used0 ==> IsEmptyRL() && mode != Running
      ensures mode == Finishing && used == |input| ==> ended
      ensures used > used0 || used == |input|
    {
      hide Written, Runs, UsesOf, Flatten, Expand, CrcFrom, SentData;
      ghost var data, before := enc.Data(), SentData(sent);
      used := CopyInput(input, used0);
      ConcatAssociative(before, data, input[used0..used]);
      if mode != Running && availInExpect == 0 {
        FlushBlock();
      } else if enc.nblock >= enc.nblockMAX {
        CutBlock();
      }
    }

    /** A stream that has ended has handed something out. */
    lemma NeverEmpty()
      requires Valid()
      ensures ended && bw.zbits == [] ==> bw.taken != []
    {
      if ended && bw.zbits == [] {
        assert |StreamBits(enc.table, sent, level)| >= |HeaderBits(level)| == 32;
        assert bw.taken + bw.zbits == bw.taken;
      }
    }

    /** What is left to do for a call. */
    ghost function Rank(left: nat): int
      reads this, enc
    {
      4 * left + (if IsEmptyRL() then 0 else 2) + (if phase == Input then 1 else 0)
    }

    /** Alternates between handing compressed bytes out and taking input in, until
        there is no more room or nothing more to do. */
    method HandleCompress(input: seq<byte>, availOut0: nat) returns (used: nat, out: seq<byte>)
      requires Valid() && mode != Idle && (mode != Running ==> availInExpect == |input|)
      modifies this`availInExpect, this`phase, this`blockNo, this`sent, this`combinedCRC, this`ended, bw, enc, enc.block
      ensures Valid() && used <= |input| && |out| <= availOut0
      ensures Consumed() == old(Consumed()) + input[..used] && bw.taken == old(bw.taken) + out
      ensures mode != Running ==> availInExpect == |input| - used
      ensures bw.zbits == [] && mode == Finishing && IsEmptyRL() ==> ended
      ensures bw.zbits == [] && mode == Flushing ==> phase == Input
      ensures |out| < availOut0 ==> used == |input| && bw.zbits == [] && (mode != Running ==> IsEmptyRL())
    {
      hide Written, Runs, UsesOf, Flatten, Expand, CrcFrom, SentData, InRun;
      used, out := 0, [];
      var availOut: nat := availOut0;
      ghost var before := Consumed();
      assert before + input[..0] == before && bw.taken + [] == bw.taken;
      while true
        invariant Valid() && used <= |input| && |out| + availOut == availOut0 && mode != Idle
        invariant Consumed() == before + input[..used] && bw.taken == old(bw.taken) + out
        invariant mode != Running ==> availInExpect == |input| - used
        decreases Rank(|input| - used)
      {
        if phase == Output {
          var more, stop := HandOut(availOut);
          ConcatAssociative(old(bw.taken), out, more);
          out, availOut := out + more, availOut - |more|;
          if stop {
            return;
          }
        }
        ghost var used0 := used;
        used := FillBlock(input, used);
        InputMore(before, input, used0, used);
        if phase == Input {
          return;
        }
      }
    }

    /** Hands out compressed bytes. Stops when there is no more room or nothing more
        to do; otherwise the next block can be collected. */
    method HandOut(availOut: nat) returns (out: seq<byte>, stop: bool)
      requires Valid() && phase == Output && mode != Idle
      modifies this`phase, this`blockNo, bw`zbits, bw`taken, enc
      ensures Valid() && |out| <= availOut && bw.taken == old(bw.taken) + out
      ensures Consumed() == old(Consumed())
      ensures IsEmptyRL() == old(IsEmptyRL())
      ensures stop && bw.zbits == [] ==> phase == Input || (mode == Finishing && IsEmptyRL())
      ensures stop && |out| < availOut ==> bw.zbits == [] && mode != Running && availInExpect == 0 && IsEmptyRL()
      ensures !stop ==> phase == Input && !(mode != Running && availInExpect == 0 && IsEmptyRL())
    {
      hide Written, Runs, UsesOf, Flatten, Expand, CrcFrom, SentData;
      out := CopyOutput(availOut);
      if bw.zbits != [] {
        return out, true;
      }
      if mode == Finishing && availInExpect == 0 && IsEmptyRL() {
        return out, true;
      }
      PrepareNewBlock();
      stop := mode == Flushing && availInExpect == 0 && IsEmptyRL();
    }

    method CopyOutput(availOut: nat) returns (out: seq<byte>)
      requires Valid() && mode != Idle
      modifies bw`zbits, bw`taken
      ensures Valid() && |out| <= availOut && bw.taken == old(bw.taken) + out && (|out| < availOut ==> bw.zbits == [])
      ensures Consumed() == old(Consumed())
    {
      hide Sections, AllGood, Runs, UsesOf, Flatten, Expand, CrcFrom, SentData, SentCrc, SentBits, BytesToBits,
           Complete;
      out := bw.Copy(availOut);
    }

    /** Starts a flush or a finish. */
    method StartEnding(action: Action, availIn: nat)
      requires Valid() && mode == Running && action != Run
      modifies this`mode, this`availInExpect
      ensures Valid() && mode == (if action == Flush then Flushing else Finishing) && availInExpect == availIn
      ensures Consumed() == old(Consumed())
    {
      hide Written, Runs, UsesOf, Flatten, Expand, CrcFrom, SentData, InRun;
      availInExpect := availIn;
      mode := if action == Flush then Flushing else Finishing;
    }

    /** Ends a flush or a finish when all of it has been handed out. */
    method EndEnding() returns (status: Status)
      requires Valid() && (mode == Flushing || mode == Finishing)
      requires bw.zbits == [] && IsEmptyRL() ==> if mode == Flushing then phase == Input else ended
      modifies this`mode
      ensures Valid() && Consumed() == old(Consumed())
      ensures status == StreamEnd ==> mode == Idle && availInExpect == 0
      ensures status == FlushOk || status == FinishOk ==> availInExpect > 0 || !IsEmptyRL() || bw.zbits != []
      ensures status == RunOk ==> mode == Running && availInExpect == 0 && bw.zbits == [] && IsEmptyRL()
      ensures old(mode) == Finishing ==> status == StreamEnd || status == FinishOk
      ensures mode == Finishing ==> old(mode) == Finishing
      ensures old(mode) == Flushing ==> status == RunOk || status == FlushOk
    {
      hide Written, Runs, UsesOf, Flatten, Expand, CrcFrom, SentData, InRun;
      if availInExpect > 0 || !IsEmptyRL() || bw.zbits != [] {
        return if mode == Flushing then FlushOk else FinishOk;
      }
      if mode == Flushing {
        mode := Running;
        status := RunOk;
      } else {
        mode := Idle;
        status := StreamEnd;
      }
    }

    /** Goes on with a flush or a finish. */
    method GoOnEnding(input: seq<byte>, availOut: nat) returns (used: nat, out: seq<byte>, status: Status)
      requires Valid() && (mode == Flushing || mode == Finishing) && availInExpect == |input|
      modifies this, bw, enc, enc.block
      ensures Valid() && used <= |input| && |out| <= availOut
      ensures Consumed() == old(Consumed()) + input[..used] && bw.taken == old(bw.taken) + out
      ensures status == StreamEnd ==> mode == Idle && used == |input|
      ensures status == FlushOk || status == FinishOk ==> |out| == availOut
      ensures status == SequenceError <==> mode == Finishing && used == 0 && out == []
      ensures old(mode) == Finishing && old(bw.taken) == [] ==> status == StreamEnd || |out| == availOut
      ensures status == RunOk ==> mode == Running && used == |input| && bw.zbits == [] && IsEmptyRL()
      ensures status != ParamError
    {
      hide Written, Runs, UsesOf, Flatten, Expand, CrcFrom, SentData, InRun;
      used, out := HandleCompress(input, availOut);
      if mode == Finishing && used == 0 && out == [] {
        NeverEmpty();
        return used, out, SequenceError;
      }
      status := EndEnding();
    }

    /** One call of the owner: `used` bytes of the input have been taken in and `out`
        has been handed out. */
    method Compress(action: Action, input: seq<byte>, availOut: nat) returns (used: nat, out: seq<byte>, status: Status)
      requires Valid()
      modifies this, bw, enc, enc.block
      ensures Valid() && used <= |input| && |out| <= availOut
      ensures Consumed() == old(Consumed()) + input[..used] && bw.taken == old(bw.taken) + out
      ensures status == StreamEnd ==> mode == Idle && used == |input|
      ensures status == FlushOk || status == FinishOk ==> |out| == availOut
      ensures status == SequenceError <==>
        || old(mode) == Idle
        || (old(mode) == Flushing && action != Flush)
        || (old(mode) == Finishing && action != Finish)
        || (old(mode) != Running && old(availInExpect) != |input|) || (mode == Finishing && used == 0 && out == [])
      ensures status == ParamError <==> old(mode) == Running && action == Run && used == 0 && out == []
      ensures status == SequenceError || status == ParamError ==> used == 0 && out == []
      ensures old(mode) == Running && old(bw.taken) == [] && action == Finish ==>
        status == StreamEnd || |out| == availOut
      ensures status == RunOk ==>
        mode == Running && (action == Flush ==> used == |input| && bw.zbits == [] && IsEmptyRL())
    {
      hide Written, Runs, UsesOf, Flatten, Expand, CrcFrom, SentData, InRun;
      used, out := 0, [];
      assert Consumed() + input[..0] == Consumed() && bw.taken + [] == bw.taken;
      if mode == Idle {
        return 0, [], SequenceError;
      }
      if mode == Running {
        if action == Run {
          used, out := HandleCompress(input, availOut);
          status := if used > 0 || out != [] then RunOk else ParamError;
          return;
        }
        StartEnding(action, |input|);
      }
      if (mode == Flushing && action != Flush) || (mode == Finishing && action != Finish) || availInExpect != |input| {
        return 0, [], SequenceError;
      }
      used, out, status := GoOnEnding(input, availOut);
    }
  }

  /** When the compressor has ended the stream, decoding all that it handed out gives
      back all that it took in. */
  lemma StreamDecodes(c: Compressor)
    requires c.Valid() && c.mode == Idle
    ensures DecodeStream(c.enc.table, BytesToBits(c.bw.taken)) == Success(c.Consumed())
  {
    hide DecodeStream, SentData, SentCrc, AllGood, StreamBits, BytesToBits, Sections;
    var stream := StreamBits(c.enc.table, c.sent, c.level);
    assert c.bw.taken + c.bw.zbits == c.bw.taken;
    var k: nat :| k < 8 && BytesToBits(c.bw.taken) == stream + Zeros(k);
    StreamBack(c.enc.table, c.sent, c.level, Zeros(k));
    assert SentData(c.sent) + [] == SentData(c.sent);
  }

  lemma InputMore(before: seq<byte>, input: seq<byte>, i: nat, j: nat)
    requires i <= j <= |input|
    ensures before + input[..i] + input[i..j] == before + input[..j]
  {
    assert input[..j] == input[..i] + input[i..j];
  }

  lemma DataMore(data: seq<byte>, input: seq<byte>, i: nat, j: nat)
    requires i <= j < |input|
    ensures data + input[i..j] + [input[j]] == data + input[i..j + 1]
  {
  }

  /** The end mark, the combined checksum and the padding. */
  method PutTrailer(bw: BitWriter, crc: word)
    requires bw.Valid()
    modifies bw
    ensures Complete(BytesToBits(bw.taken + bw.zbits), old(bw.Bits()) + EndBits(crc)) && bw.taken == old(bw.taken)
  {
    TrailerBits(bw.Bits(), crc);
    hide BytesToBits, WordBits;
    PutBytes(bw, [0x17] + END_MARK);
    bw.PutUInt32(crc);
    bw.FinishWrite();
  }

  lemma NoPairs(ps: seq<Pair>, before: seq<byte>)
    requires Runs(ps) && |Flatten(ps)| == 0
    ensures before + Expand(ps) == before
  {
    if ps != [] { FlattenFirst(ps); }
  }

  lemma SectionsGood(table: CrcTable, sent: seq<Sent>, level: nat, bits: seq<bool>)
    requires Sections(table, sent, level, bits)
    ensures AllGood(table, sent, level)
  {
  }

  lemma SectionsSound(table: CrcTable, sent: seq<Sent>, level: nat, bits: seq<bool>)
    requires Sections(table, sent, level, bits)
    ensures AllGood(table, sent, level)
    ensures StreamBits(table, sent, level) == bits + EndBits(CrcWord(SentCrc(table, sent)))
  {
  }

  lemma TrailerBits(bits: seq<bool>, crc: word)
    ensures bits + BytesToBits([0x17] + END_MARK) + WordBits(crc) == bits + EndBits(crc)
  {
    EndMarkIs();
    ConcatAssociative(bits, BytesToBits([0x17] + END_MARK), WordBits(crc));
  }

  /** The header and the blocks. */
  ghost predicate Sections(table: CrcTable, sent: seq<Sent>, level: nat, bits: seq<bool>) {
    1 <= level <= 9 && AllGood(table, sent, level) && bits == HeaderBits(level) + SentBits(table, sent, level)
  }

  lemma NothingSent(table: CrcTable, level: nat)
    requires 1 <= level <= 9
    ensures AllGood(table, [], level) && SentCrc(table, []) == 0
    ensures Sections(table, [], level, [] + BytesToBits(HEADER + [0x30 + level]))
  {
    HeaderIs(level);
    assert [] + BytesToBits(HEADER + [0x30 + level]) == HeaderBits(level) == HeaderBits(level) + [];
  }

  lemma SectionsMore(table: CrcTable, sent: seq<Sent>, level: nat, bits: seq<bool>, p: Parts, pairs: seq<Pair>,
          crc: bv32, blockCRC: bv32)
    requires Sections(table, sent, level, bits)
    requires Encodable(p, level) && Runs(pairs) && Unsorted(p.col, p.origPtr) == Flatten(pairs) && p.crc == CrcWord(crc)
    requires crc == FinaliseCrc(blockCRC) && blockCRC == CrcFrom(table, CRC_INIT, Expand(pairs))
    ensures Sections(table, sent + [Sent(p, Expand(pairs))], level, bits + SectionBits(p, level))
    ensures SentData(sent + [Sent(p, Expand(pairs))]) == SentData(sent) + Expand(pairs)
    ensures SentCrc(table, sent + [Sent(p, Expand(pairs))]) == Combine(SentCrc(table, sent), crc)
  {
    hide Encodable, Runs, Unsorted, Flatten, CrcWord, FinaliseCrc, CrcFrom, Expand, Combine, SectionBits, SentBits,
         SentData, SentCrc, AllGood, HeaderBits, Good, BlockCrc;
    var s := Sent(p, Expand(pairs));
    BlockGood(table, p, pairs, crc, level, blockCRC);
    OneMore(table, sent, s, level);
    OneMoreData(table, sent, s);
    ConcatAssociative(HeaderBits(level), SentBits(table, sent, level), SectionBits(p, level));
  }

  lemma BlockGood(table: CrcTable, p: Parts, pairs: seq<Pair>, crc: bv32, level: nat, blockCRC: bv32)
    requires Encodable(p, level) && Runs(pairs) && Unsorted(p.col, p.origPtr) == Flatten(pairs) && p.crc == CrcWord(crc)
    requires crc == FinaliseCrc(blockCRC) && blockCRC == CrcFrom(table, CRC_INIT, Expand(pairs))
    ensures Good(table, Sent(p, Expand(pairs)), level) && BlockCrc(table, Expand(pairs)) == crc
  {
    UnRleFlatten(pairs);
    hide Encodable, Unsorted, Flatten, CrcWord, FinaliseCrc, CrcFrom, UnRle;
  }

  /** The bits of a stream, filled up to whole bytes. */
  ghost predicate Complete(bits: seq<bool>, stream: seq<bool>) {
    exists k: nat :: k < 8 && bits == stream + Zeros(k)
  }
}
