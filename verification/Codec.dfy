/** The codec: whatever calls compressed some data, and however its output is
    asked for, decompression gives the data back. */
module Codec {
  import opened Bits
  import opened Wrappers
  import opened Crc
  import opened BlockOutput
  import opened Stream
  import opened StreamRoundTrip
  import C = Compressor
  import D = Decompressor

  // ----- compressing

  /** One call of the compressor's owner. */
  datatype Call = Call(action: C.Action, input: seq<byte>, availOut: nat)

  /** Makes the calls one after the other. `taken` is the input that the compressor
      took in and `bytes` what it handed out; `ended` tells that the last call ended
      the stream. */
  method CompressCalls(table: CrcTable, level: nat, workFactor: nat, calls: seq<Call>)
    returns (taken: seq<byte>, bytes: seq<byte>, ended: bool)
    requires 1 <= level <= 9 && workFactor <= 250
    ensures ended ==> DecodeStream(table, BytesToBits(bytes)) == Success(taken)
  {
    hide C.Compressor.Valid, C.Compressor.Consumed, DecodeStream, BytesToBits;
    var c := new C.Compressor(table, level, workFactor);
    taken, bytes, ended := [], [], false;
    for i := 0 to |calls|
      invariant c.Valid() && fresh(c) && fresh(c.enc) && fresh(c.enc.block) && fresh(c.bw) && c.enc.table == table
      invariant c.Consumed() == taken && c.bw.taken == bytes && (ended ==> c.mode == C.Idle)
    {
      var used, out, status := c.Compress(calls[i].action, calls[i].input, calls[i].availOut);
      taken, bytes := taken + calls[i].input[..used], bytes + out;
      ended := status == C.StreamEnd;
    }
    if ended {
      C.StreamDecodes(c);
    }
  }

  /** One call that finishes: it ends the stream unless its room runs out. */
  method CompressOnce(table: CrcTable, level: nat, workFactor: nat, input: seq<byte>, room: nat)
    returns (bytes: seq<byte>, ended: bool)
    requires 1 <= level <= 9 && workFactor <= 250
    ensures |bytes| < room ==> ended
    ensures ended ==> DecodeStream(table, BytesToBits(bytes)) == Success(input)
  {
    hide C.Compressor.Valid, C.Compressor.Consumed, DecodeStream, BytesToBits;
    var c := new C.Compressor(table, level, workFactor);
    assert [] + input == input && input[..|input|] == input;
    var used, out, status := c.Compress(C.Finish, input, room);
    bytes, ended := out, status == C.StreamEnd;
    assert [] + bytes == bytes;
    if ended {
      C.StreamDecodes(c);
    }
  }

  // ----- decompressing

  function Total(slices: seq<nat>): nat {
    if slices == [] then 0 else Total(slices[..|slices| - 1]) + slices[|slices| - 1]
  }

  /** Asks for output slice by slice, until the stream ends or is found to be bad. */
  method DecompressSlices(table: CrcTable, small: bool, bytes: seq<byte>, slices: seq<nat>)
    returns (out: seq<byte>, status: D.Status)
    ensures status == D.StreamEnd ==> DecodeStream(table, BytesToBits(bytes)) == Success(out)
    ensures status.Bad? ==> DecodeStream(table, BytesToBits(bytes)) == Failure(status.error)
    ensures status == D.Running ==> |out| == Total(slices)
    ensures status == D.Running ==> exists left :: DecodeStream(table, BytesToBits(bytes)) == Prepend(out, left)
    ensures status != D.SequenceError
  {
    hide DecodeStream, BytesToBits, Prepend;
    var d := new D.Decompressor(table, small, bytes);
    out, status := [], D.Running;
    ghost var goal := d.Pending();
    PrependTwice([], [], goal);
    for i := 0 to |slices|
      invariant d.Valid() && fresh(d) && fresh(d.br) && fresh(d.Repr) && d.phase != D.Idle && status == D.Running
      invariant goal == Prepend(out, d.Pending()) && |out| == Total(slices[..i])
    {
      assert slices[..i + 1][..i] == slices[..i];
      ghost var before := d.Pending();
      var more;
      more, status := d.Decompress(slices[i]);
      D.PrependFailure(out, before);
      D.PrependSuccess(out, more);
      if status == D.Running { PrependTwice(out, more, d.Pending()); }
      out := out + more;
      if status != D.Running {
        return;
      }
    }
    assert slices[..|slices|] == slices;
  }

  // ----- the round trip

  lemma TotalEnough(data: seq<byte>, out: seq<byte>, left: Result<seq<byte>>)
    requires Success(data) == Prepend(out, left)
    ensures |out| <= |data| && out == data[..|out|]
  {
  }

  /** Whatever calls compress the data, with or without flushes and with whatever
      room for output, and whatever slices the decompressed data is asked for in, by
      either decoder: the data comes back, up to the room there is for it. */
  method RoundTrip(table: CrcTable, level: nat, workFactor: nat, calls: seq<Call>, small: bool, slices: seq<nat>)
    returns (taken: seq<byte>, ended: bool, out: seq<byte>, status: D.Status)
    requires 1 <= level <= 9 && workFactor <= 250
    ensures ended && Total(slices) > |taken| ==> status == D.StreamEnd && out == taken
    ensures ended && Total(slices) <= |taken| ==> Total(slices) <= |out| <= |taken| && out == taken[..|out|]
  {
    var bytes;
    taken, bytes, ended := CompressCalls(table, level, workFactor, calls);
    out, status := DecompressSlices(table, small, bytes, slices);
    if ended && status == D.Running {
      var left :| DecodeStream(table, BytesToBits(bytes)) == Prepend(out, left);
      TotalEnough(taken, out, left);
    }
  }
}
