/** The initial run-length stage: its meaning for the decoder, and the encoder
    that fills a block. */
module RunLength {
  import opened Bits
  import opened MainCompare
  import opened Wrappers
  import opened Crc
  import opened InUse
  import opened MoveToFront

  // ----- decoding

  /** How many of the first four bytes are equal to the first. */
  function RunAt(b: seq<byte>): (m: nat)
    requires b != []
    ensures 1 <= m <= 4 && m <= |b|
  {
    if |b| == 1 || b[1] != b[0] then 1
    else if |b| == 2 || b[2] != b[0] then 2
    else if |b| == 3 || b[3] != b[0] then 3
    else 4
  }

  /** The bytes that a block stands for; four equal bytes need a count. */
  function UnRle(b: seq<byte>): Result<seq<byte>>
    decreases |b|
  {
    if b == [] then Success([])
    else
      var m := RunAt(b);
      if m < 4 then
        var rest :- UnRle(b[m..]);
        Success(Repeat(b[0], m) + rest)
      else if |b| == 4 then Failure(DataError)
      else
        var rest :- UnRle(b[5..]);
        Success(Repeat(b[0], CountedRun(b[4])) + rest)
  }

  /** The length of a run of which the fifth byte is the count. */
  function CountedRun(c: byte): nat {
    var n: int := c;
    n + 4
  }

  // ----- encoding

  /** A run of 1 to 255 equal bytes. */
  datatype Pair = Pair(ch: byte, len: nat)

  ghost predicate Legal(p: Pair) {
    1 <= p.len <= 255
  }

  function Coded(p: Pair): (s: seq<byte>)
    requires Legal(p)
  {
    if p.len < 4 then Repeat(p.ch, p.len) else Repeat(p.ch, 4) + [p.len - 4]
  }

  /** Runs that can follow each other: a short run is not followed by one of the
      same byte. */
  ghost predicate Runs(ps: seq<Pair>) {
    && (forall i :: 0 <= i < |ps| ==> Legal(ps[i]))
    && forall i :: 0 < i < |ps| ==> Apart(ps, i)
  }

  ghost predicate Apart(ps: seq<Pair>, i: int)
    requires 0 < i < |ps|
  {
    ps[i - 1].len >= 4 || ps[i - 1].ch != ps[i].ch
  }

  function Flatten(ps: seq<Pair>): seq<byte>
    requires forall i :: 0 <= i < |ps| ==> Legal(ps[i])
  {
    if ps == [] then [] else Coded(ps[0]) + Flatten(ps[1..])
  }

  function Expand(ps: seq<Pair>): seq<byte> {
    if ps == [] then [] else Repeat(ps[0].ch, ps[0].len) + Expand(ps[1..])
  }

  lemma {:induction false} FlattenSnoc(ps: seq<Pair>, p: Pair)
    requires Legal(p) && forall i :: 0 <= i < |ps| ==> Legal(ps[i])
    ensures Flatten(ps + [p]) == Flatten(ps) + Coded(p)
    ensures Expand(ps + [p]) == Expand(ps) + Repeat(p.ch, p.len)
  {
    if ps == [] {
      assert [p][1..] == [];
      assert ps + [p] == [p];
    } else {
      assert (ps + [p])[1..] == ps[1..] + [p];
      FlattenSnoc(ps[1..], p);
      hide Coded, Repeat;
    }
  }

  lemma UnRlePair(p: Pair, rest: seq<byte>)
    requires Legal(p) && (p.len < 4 && rest != [] ==> rest[0] != p.ch)
    ensures UnRle(Coded(p) + rest)
         == (var r :- UnRle(rest); Success(Repeat(p.ch, p.len) + r))
  {
    assert p.len < 4 ==> Coded(p) == Repeat(p.ch, p.len);
    hide UnRle, RunAt;
    if p.len < 4 {
      UnRleShort(p.ch, p.len, rest);
    } else {
      var c: byte := p.len - 4;
      UnRleCounted(p.ch, c, rest);
      assert CountedRun(c) == p.len;
      assert Coded(p) == Repeat(p.ch, 4) + [c];
    }
  }

  lemma UnRleShort(ch: byte, m: nat, rest: seq<byte>)
    requires 1 <= m < 4 && (rest != [] ==> rest[0] != ch)
    ensures UnRle(Repeat(ch, m) + rest)
         == (var r :- UnRle(rest); Success(Repeat(ch, m) + r))
  {
    var b := Repeat(ch, m) + rest;
    assert RunAt(b) == m;
    assert b[m..] == rest;
  }

  lemma UnRleCounted(ch: byte, c: byte, rest: seq<byte>)
    ensures UnRle(Repeat(ch, 4) + [c] + rest)
         == (var r :- UnRle(rest); Success(Repeat(ch, CountedRun(c)) + r))
  {
    var b := Repeat(ch, 4) + [c] + rest;
    assert RunAt(b) == 4;
    assert b[4] == c && b[5..] == rest;
  }

  lemma FlattenFirst(ps: seq<Pair>)
    requires ps != [] && forall i :: 0 <= i < |ps| ==> Legal(ps[i])
    ensures Flatten(ps) != [] && Flatten(ps)[0] == ps[0].ch
  {
  }

  lemma RunsTail(ps: seq<Pair>)
    requires Runs(ps) && ps != []
    ensures Runs(ps[1..])
  {
    forall i | 0 < i < |ps[1..]| ensures Apart(ps[1..], i) {
      assert Apart(ps, i + 1);
    }
  }

  /** Decoding the coded runs gives the runs back. */
  lemma {:induction false} UnRleFlatten(ps: seq<Pair>)
    requires Runs(ps)
    ensures UnRle(Flatten(ps)) == Success(Expand(ps))
  {
    if ps != [] {
      if |ps| > 1 {
        FlattenFirst(ps[1..]);
        assert Apart(ps, 1);
      }
      RunsTail(ps);
      UnRlePair(ps[0], Flatten(ps[1..]));
      UnRleFlatten(ps[1..]);
    }
  }

  // ----- the encoder

  const NO_CHAR := 256

  class RunEncoder {
    const table: CrcTable
    const block: array<byte>
    const nblockMAX: nat
    var nblock: nat
    var state_in_ch: int
    var state_in_len: nat
    var inUse: UseMap
    var blockCRC: bv32
    ghost var pairs: seq<Pair>

    /** What the closed runs left in the block. */
    ghost predicate Stored()
      reads this, block
    {
      && Runs(pairs) && nblock == |Flatten(pairs)| <= block.Length
      && block[..nblock] == Flatten(pairs)
      && UsesOf(inUse, Flatten(pairs))
      && blockCRC == CrcFrom(table, CRC_INIT, Expand(pairs))
    }

    ghost predicate Valid()
      reads this, block
    {
      Stored() && Open(pairs, state_in_ch, state_in_len) && nblockMAX + 9 <= block.Length
    }

    /** The bytes of the current block, with the run that is still open. */
    ghost function Data(): seq<byte>
      reads this
    {
      Expand(pairs) + PendingRun(state_in_ch, state_in_len)
    }

    constructor (table: CrcTable, blockSize100k: nat)
      requires 1 <= blockSize100k <= 9
      ensures Valid() && Data() == [] && nblock == 0 && fresh(block) && this.table == table
      ensures nblockMAX == 100000 * blockSize100k - 19 && block.Length == 100000 * blockSize100k + N_OVERSHOOT
    {
      this.table := table;
      block := new byte[100000 * blockSize100k + N_OVERSHOOT];
      nblockMAX := 100000 * blockSize100k - 19;
      nblock := 0;
      state_in_ch := NO_CHAR;
      state_in_len := 0;
      inUse := seq(256, i => false);
      blockCRC := CRC_INIT;
      pairs := [];
    }

    /** Starts a new block; an open run is carried over. */
    method PrepareNewBlock()
      requires Stored() && InRun(state_in_ch, state_in_len) && nblockMAX + 9 <= block.Length
      modifies this
      ensures Valid() && nblock == 0 && pairs == []
      ensures state_in_ch == old(state_in_ch) && state_in_len == old(state_in_len)
    {
      nblock := 0;
      blockCRC := CRC_INIT;
      inUse := seq(256, i => false);
      pairs := [];
    }

    method InitRL()
      modifies this`state_in_ch, this`state_in_len
      ensures state_in_ch == NO_CHAR && state_in_len == 0
    {
      state_in_ch := NO_CHAR;
      state_in_len := 0;
    }

    /** Appends `n` times the byte `ch` to the block. */
    method AddBytes(ch: byte, n: nat)
      requires nblock + n <= block.Length
      modifies this`nblock, block
      ensures nblock == old(nblock) + n && block[..nblock] == old(block[..nblock]) + Repeat(ch, n)
    {
      for i := 0 to n
        invariant nblock == old(nblock) + i
        invariant block[..nblock] == old(block[..nblock]) + Repeat(ch, i)
      {
        block[nblock] := ch;
        nblock := nblock + 1;
      }
    }

    method UpdateCrcRun(ch: byte, n: nat)
      modifies this`blockCRC
      ensures blockCRC == CrcFrom(table, old(blockCRC), Repeat(ch, n))
    {
      hide UpdateCrc;
      for i := 0 to n
        invariant blockCRC == CrcFrom(table, old(blockCRC), Repeat(ch, i))
      {
        CrcSnoc(table, old(blockCRC), Repeat(ch, i), ch);
        assert Repeat(ch, i + 1) == Repeat(ch, i) + [ch];
        blockCRC := UpdateCrc(table, blockCRC, ch);
      }
    }

    /** Closes the open run: it is coded into the block. */
    method AddPairToBlock()
      requires Valid() && state_in_ch < 256 && nblock + 5 <= block.Length
      modifies this`nblock, this`inUse, this`blockCRC, this`pairs, block
      ensures Stored() && pairs == old(pairs) + [Pair(state_in_ch, state_in_len)]
      ensures nblock <= old(nblock) + 5
    {
      var ch: byte := state_in_ch;
      ghost var p := Pair(ch, state_in_len);
      PairAdded(table, pairs, p, inUse);
      hide Runs, UsesOf, Flatten, Expand, CrcFrom, Coded, Repeat;
      UpdateCrcRun(ch, state_in_len);
      inUse := inUse[ch := true];
      AddCoded(ch, state_in_len);
      pairs := pairs + [p];
    }

    /** The bytes of a run: up to three as they are, four or more as four and a
        count. */
    method AddCoded(ch: byte, len: nat)
      requires 1 <= len <= 255 && nblock + 5 <= block.Length
      modifies this`nblock, this`inUse, block
      ensures nblock <= old(nblock) + 5 && nblock == old(nblock) + |Coded(Pair(ch, len))|
      ensures inUse == if len < 4 then old(inUse) else old(inUse)[len - 4 := true]
      ensures block[..nblock] == old(block[..nblock]) + Coded(Pair(ch, len))
    {
      if len < 4 {
        AddBytes(ch, len);
      } else {
        inUse := inUse[len - 4 := true];
        AddBytes(ch, 4);
        block[nblock] := len - 4;
        nblock := nblock + 1;
        ConcatAssociative(old(block[..nblock]), Repeat(ch, 4), [len - 4]);
      }
    }

    /** Closes the open run, if there is one. */
    method FlushRL()
      requires Valid() && nblock + 5 <= block.Length
      modifies this, block
      ensures Stored() && state_in_ch == NO_CHAR && state_in_len == 0
      ensures Expand(pairs) == old(Data()) && nblock <= old(nblock) + 5
    {
      hide Runs, UsesOf, Flatten, Expand, CrcFrom;
      if state_in_ch < 256 {
        RunClosed(pairs, state_in_ch, state_in_len);
        AddPairToBlock();
      }
      InitRL();
    }

    /** Takes one byte of input in. */
    method AddChar(zchh: byte)
      requires Valid() && nblock < nblockMAX
      modifies this, block
      ensures Valid() && Data() == old(Data()) + [zchh] && nblock <= nblockMAX + 4
      ensures state_in_ch == zchh && state_in_len >= 1
    {
      hide Runs, UsesOf, Flatten, Expand, CrcFrom, Repeat;
      RunClosed(pairs, state_in_ch, state_in_len);
      RunGrows(Expand(pairs), state_in_ch, state_in_len, zchh);
      if zchh != state_in_ch && state_in_len == 1 {
        AddSingle();
        state_in_ch := zchh;
      } else if zchh != state_in_ch || state_in_len == 255 {
        if state_in_ch < 256 {
          AddPairToBlock();
        }
        state_in_ch := zchh;
        state_in_len := 1;
      } else {
        state_in_len := state_in_len + 1;
      }
    }

    /** The common case: the open run is a single byte. */
    method AddSingle()
      requires Valid() && state_in_len == 1 && nblock + 5 <= block.Length
      modifies this`nblock, this`inUse, this`blockCRC, this`pairs, block
      ensures Stored() && pairs == old(pairs) + [Pair(state_in_ch, 1)]
      ensures nblock <= old(nblock) + 5
    {
      hide Runs, UsesOf, Flatten, Expand, CrcFrom, Coded, Repeat;
      var ch: byte := state_in_ch;
      PairAdded(table, pairs, Pair(ch, 1), inUse);
      CrcSnoc(table, blockCRC, [], ch);
      CrcNothing(table, blockCRC);
      SingleCoded(ch);
      blockCRC := UpdateCrc(table, blockCRC, ch);
      inUse := inUse[ch := true];
      block[nblock] := ch;
      nblock := nblock + 1;
      pairs := pairs + [Pair(ch, 1)];
    }
  }

  lemma SingleCoded(ch: byte)
    ensures Repeat(ch, 1) == [ch] == [] + [ch] && Coded(Pair(ch, 1)) == [ch]
  {
  }

  lemma RunClosed(ps: seq<Pair>, ch: int, len: nat)
    requires Runs(ps) && Open(ps, ch, len)
    ensures 0 <= ch < 256 ==> Expand(ps + [Pair(ch, len)]) == Expand(ps) + PendingRun(ch, len)
  {
    if ch != NO_CHAR { FlattenSnoc(ps, Pair(ch, len)); }
  }

  lemma RunGrows(before: seq<byte>, ch: int, len: nat, z: byte)
    ensures ch == z ==> before + PendingRun(ch, len + 1) == before + PendingRun(ch, len) + [z]
    ensures PendingRun(z, 1) == [z] && before + PendingRun(NO_CHAR, len) == before
  {
    assert ch == z ==> Repeat(ch, len + 1) == Repeat(ch, len) + [ch];
  }

  /** The bytes in use after one more run. */
  function Uses(inUse: UseMap, p: Pair): UseMap
    requires Legal(p)
  {
    if p.len < 4 then inUse[p.ch := true] else inUse[p.ch := true][p.len - 4 := true]
  }

  /** What one more run does to the block's runs, uses and checksum. */
  lemma PairAdded(table: CrcTable, ps: seq<Pair>, p: Pair, inUse: UseMap)
    requires Runs(ps) && Legal(p) && (ps != [] ==> ps[|ps| - 1].len >= 4 || ps[|ps| - 1].ch != p.ch)
    requires UsesOf(inUse, Flatten(ps))
    ensures Runs(ps + [p])
    ensures Flatten(ps + [p]) == Flatten(ps) + Coded(p)
    ensures CrcFrom(table, CRC_INIT, Expand(ps + [p]))
         == CrcFrom(table, CrcFrom(table, CRC_INIT, Expand(ps)), Repeat(p.ch, p.len))
    ensures UsesOf(Uses(inUse, p), Flatten(ps + [p]))
  {
    RunsSnoc(ps, p);
    FlattenSnoc(ps, p);
    hide *;
    CrcConcat(table, CRC_INIT, Expand(ps), Repeat(p.ch, p.len));
    UsesAdded(inUse, Flatten(ps), p);
  }

  lemma RunsSnoc(ps: seq<Pair>, p: Pair)
    requires Runs(ps) && Legal(p) && (ps != [] ==> ps[|ps| - 1].len >= 4 || ps[|ps| - 1].ch != p.ch)
    ensures Runs(ps + [p])
  {
    var qs := ps + [p];
    forall i | 0 < i < |qs| ensures Apart(qs, i) {
      assert i < |ps| ==> Apart(ps, i);
    }
  }

  lemma UsesAdded(inUse: UseMap, s: seq<byte>, p: Pair)
    requires Legal(p) && UsesOf(inUse, s)
    ensures UsesOf(Uses(inUse, p), s + Coded(p))
  {
    assert Coded(p)[0] == p.ch;
    assert p.len >= 4 ==> Coded(p)[4] == p.len - 4;
    forall b: byte ensures Uses(inUse, p)[b] <==> b in s + Coded(p) {
      if b in Coded(p) { assert b == p.ch || (p.len >= 4 && b == p.len - 4); }
      assert b in s + Coded(p) <==> b in s || b in Coded(p);
    }
  }

  /** Exactly the bytes of the block are in use. */
  ghost predicate UsesOf(inUse: UseMap, s: seq<byte>) {
    forall b: byte :: inUse[b] <==> b in s
  }

  /** The open run, and that it may follow the closed ones. */
  ghost predicate Open(ps: seq<Pair>, ch: int, len: nat) {
    InRun(ch, len) && (ps != [] ==> ch != NO_CHAR && (ps[|ps| - 1].len >= 4 || ps[|ps| - 1].ch != ch))
  }

  ghost predicate InRun(ch: int, len: nat) {
    if ch == NO_CHAR then len == 0 else 0 <= ch < 256 && 1 <= len <= 255
  }

  function PendingRun(ch: int, len: nat): seq<byte> {
    if 0 <= ch < 256 then Repeat(ch, len) else []
  }
}
