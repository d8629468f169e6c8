/** Reading a block from the bit stream, part by part, as the format prescribes. */
module BlockReader {
  import opened Bits
  import opened Wrappers
  import opened BitStream
  import opened InUse
  import opened MoveToFront
  import opened Permutations
  import opened Huffman
  import opened HuffmanTables
  import opened BlockFormat

  // ----- numbers and marks

  method ReadBytes(br: BitReader, n: nat) returns (r: Result<nat>)
    requires br.Valid()
    modifies br
    ensures br.Valid() && Agrees(r, br.Remaining(), TakeBytes(old(br.Remaining()), n))
  {
    var v := 0;
    for i := 0 to n
      invariant br.Valid() && TakeBytes(old(br.Remaining()), i) == Ok(v, br.Remaining())
    {
      r := br.GetBits(8);
      if r.Failure? {
        BytesFail(old(br.Remaining()), i + 1, n);
        return;
      }
      v := 256 * v + r.value;
    }
    r := Success(v);
  }

  lemma {:induction false} BytesFail(bits: seq<bool>, i: nat, n: nat)
    requires i <= n && TakeBytes(bits, i).Fail?
    ensures TakeBytes(bits, n) == TakeBytes(bits, i)
  {
    if i < n { BytesFail(bits, i, n - 1); }
  }

  method ReadMark(br: BitReader, mark: seq<byte>, error: Error) returns (r: Result<()>)
    requires br.Valid()
    modifies br
    ensures br.Valid() && Agrees(r, br.Remaining(), Expect(old(br.Remaining()), mark, error))
  {
    for i := 0 to |mark|
      invariant br.Valid()
      invariant Expect(old(br.Remaining()), mark, error) == Expect(br.Remaining(), mark[i..], error)
    {
      assert mark[i..][1..] == mark[i + 1..];
      var uc := br.GetBits(8);
      if uc.Failure? {
        return Failure(uc.error);
      }
      if uc.value != mark[i] {
        return Failure(error);
      }
    }
    r := Success(());
  }

  method ReadHeader(br: BitReader) returns (r: Result<nat>)
    requires br.Valid()
    modifies br
    ensures br.Valid() && Agrees(r, br.Remaining(), DecodeHeader(old(br.Remaining())))
  {
    hide Expect;
    var magic := ReadMark(br, HEADER, DataErrorMagic);
    if magic.Failure? {
      return Failure(magic.error);
    }
    r := br.GetBits(8);
    if r.Failure? {
      return;
    }
    if r.value < 0x31 || r.value > 0x39 {
      return Failure(DataErrorMagic);
    }
    r := Success(r.value - 0x30);
  }

  // ----- the bytes in use

  method ReadFlags(br: BitReader, n: nat) returns (r: Result<seq<bool>>)
    requires br.Valid()
    modifies br
    ensures br.Valid() && Agrees(r, br.Remaining(), DecodeFlags(old(br.Remaining()), n, []))
    ensures r.Success? ==> |r.value| == n
  {
    var flags := [];
    for i := 0 to n
      invariant br.Valid() && |flags| == i
      invariant DecodeFlags(old(br.Remaining()), n, []) == DecodeFlags(br.Remaining(), n, flags)
    {
      var uc := br.GetBits(1);
      if uc.Failure? {
        return Failure(uc.error);
      }
      flags := flags + [uc.value == 1];
    }
    r := Success(flags);
  }

  method ReadMapping(br: BitReader) returns (r: Result<UseMap>)
    requires br.Valid()
    modifies br
    ensures br.Valid() && Agrees(r, br.Remaining(), DecodeMapping(old(br.Remaining())))
  {
    hide DecodeFlags;
    var inUse16 := ReadFlags(br, 16);
    if inUse16.Failure? {
      return Failure(inUse16.error);
    }
    ghost var rows := br.Remaining();
    var inUse := [];
    for i := 0 to 16
      invariant br.Valid() && |inUse| == 16 * i
      invariant DecodeInUse(rows, inUse16.value, []) == DecodeInUse(br.Remaining(), inUse16.value, inUse)
    {
      RowIndex(inUse, i);
      if inUse16.value[i] {
        var row := ReadFlags(br, 16);
        if row.Failure? {
          return Failure(row.error);
        }
        inUse := inUse + row.value;
      } else {
        inUse := inUse + Zeros(16);
      }
    }
    r := Success(inUse);
  }

  lemma RowIndex(inUse: seq<bool>, i: nat)
    requires |inUse| == 16 * i
    ensures |inUse| / 16 == i && |inUse| % 16 == 0
  {
  }

  // ----- the selectors

  method ReadUnary(br: BitReader, nGroups: nat) returns (r: Result<nat>)
    requires br.Valid() && nGroups > 0
    modifies br
    ensures br.Valid() && Agrees(r, br.Remaining(), DecodeUnary(old(br.Remaining()), nGroups, 0))
    ensures r.Success? ==> r.value < nGroups
  {
    var j := 0;
    while true
      invariant br.Valid() && j < nGroups
      invariant DecodeUnary(old(br.Remaining()), nGroups, 0) == DecodeUnary(br.Remaining(), nGroups, j)
      decreases nGroups - j
    {
      r := br.GetBits(1);
      if r.Failure? {
        return;
      }
      if r.value == 0 {
        return Success(j);
      }
      if j + 1 >= nGroups {
        return Failure(DataError);
      }
      j := j + 1;
    }
  }

  /** Reads the selectors into their array. */
  method ReadSelectors(br: BitReader, nGroups: nat, nSelectors: nat, selectorMtf: array<nat>) returns (r: Result<()>)
    requires br.Valid() && nGroups > 0 && selectorMtf.Length == MAX_SELECTORS && Separate(br, selectorMtf)
    modifies br, selectorMtf
    ensures br.Valid()
    ensures r.Success? ==> nSelectors <= MAX_SELECTORS && EachBelow(selectorMtf[..nSelectors], nGroups)
    ensures r.Success? ==>
      DecodeSelectors(old(br.Remaining()), nGroups, nSelectors, []) == Ok(selectorMtf[..nSelectors], br.Remaining())
    ensures r.Failure? ==> DecodeSelectors(old(br.Remaining()), nGroups, nSelectors, []) == Fail(r.error)
  {
    for i := 0 to nSelectors
      invariant br.Valid() && i <= MAX_SELECTORS && EachBelow(selectorMtf[..i], nGroups)
      invariant DecodeSelectors(old(br.Remaining()), nGroups, nSelectors, [])
             == DecodeSelectors(br.Remaining(), nGroups, nSelectors, selectorMtf[..i])
    {
      ghost var read := selectorMtf[..i];
      var j := ReadUnary(br, nGroups);
      if j.Failure? {
        return Failure(j.error);
      }
      if i == selectorMtf.Length {
        return Failure(SelectorsOverrun);
      }
      selectorMtf[i] := j.value;
      assert selectorMtf[..i + 1] == read + [j.value];
    }
    r := Success(());
  }

  /** Undoes the move-to-front coding of the selectors. */
  method UndoSelectorMtf(selectorMtf: array<nat>, selector: array<nat>, nSelectors: nat, nGroups: nat)
    requires nSelectors <= selectorMtf.Length && nSelectors <= selector.Length && selectorMtf != selector
    requires EachBelow(selectorMtf[..nSelectors], nGroups)
    modifies selector
    ensures selector[..nSelectors] == Decode(Iota(nGroups), selectorMtf[..nSelectors])
  {
    var pos := new nat[nGroups];
    for v := 0 to nGroups
      invariant forall k :: 0 <= k < v ==> pos[k] == k
    {
      pos[v] := v;
    }
    ghost var mtf := selectorMtf[..nSelectors];
    ghost var goal := Decode(Iota(nGroups), mtf);
    assert pos[..] == Iota(nGroups) && mtf[0..] == mtf && selector[..0] == [];
    for i := 0 to nSelectors
      modifies selector, pos
      invariant selectorMtf[..nSelectors] == mtf
      invariant selector[..i] + Decode(pos[..], mtf[i..]) == goal
    {
      assert mtf[i..][0] == selectorMtf[i] && mtf[i..][1..] == mtf[i + 1..];
      ghost var left, list, done := mtf[i + 1..], pos[..], selector[..i];
      var tmp := PosToFront(pos, selectorMtf[i]);
      ConcatAssociative(done, [tmp], Decode(ToFront(list, selectorMtf[i]), left));
      selector[i] := tmp;
      assert selector[..i + 1] == done + [tmp];
    }
    assert mtf[nSelectors..] == [] && selector[..nSelectors] + [] == selector[..nSelectors];
  }

  method PosToFront(pos: array<nat>, v0: nat) returns (tmp: nat)
    requires v0 < pos.Length
    modifies pos
    ensures tmp == old(pos[v0]) && pos[..] == ToFront(old(pos[..]), v0)
  {
    var v := v0;
    tmp := pos[v];
    while v > 0
      invariant 0 <= v <= v0
      invariant forall k :: 0 <= k < pos.Length ==> pos[k] == if v < k <= v0 then old(pos[k - 1]) else old(pos[k])
    {
      pos[v] := pos[v - 1];
      v := v - 1;
    }
    pos[0] := tmp;
  }

  // ----- the coding tables

  method ReadLength(br: BitReader, curr0: int) returns (r: Result<nat>)
    requires br.Valid()
    modifies br
    ensures br.Valid() && Agrees(r, br.Remaining(), DecodeLength(old(br.Remaining()), curr0))
    ensures r.Success? ==> 1 <= r.value <= LONGEST_CODE
  {
    var curr := curr0;
    while true
      invariant br.Valid()
      invariant DecodeLength(old(br.Remaining()), curr0) == DecodeLength(br.Remaining(), curr)
      decreases |br.Remaining()|
    {
      if curr < 1 || curr > LONGEST_CODE {
        return Failure(DataError);
      }
      r := br.GetBits(1);
      if r.Failure? {
        return;
      }
      if r.value == 0 {
        return Success(curr);
      }
      r := br.GetBits(1);
      if r.Failure? {
        return;
      }
      if r.value == 0 {
        curr := curr + 1;
      } else {
        curr := curr - 1;
      }
    }
  }

  method ReadLengths(br: BitReader, curr0: int, alphaSize: nat) returns (r: Result<seq<nat>>)
    requires br.Valid() && 1 <= alphaSize <= MAX_ALPHA_SIZE
    modifies br
    ensures br.Valid() && Agrees(r, br.Remaining(), DecodeLengths(old(br.Remaining()), curr0, alphaSize, []))
    ensures r.Success? ==> |r.value| == alphaSize && Lengths(r.value)
  {
    hide DecodeLength;
    var lens: seq<nat>, curr := [], curr0;
    for i := 0 to alphaSize
      invariant br.Valid() && |lens| == i && forall k :: 0 <= k < i ==> 1 <= lens[k] <= LONGEST_CODE
      invariant DecodeLengths(old(br.Remaining()), curr0, alphaSize, [])
             == DecodeLengths(br.Remaining(), curr, alphaSize, lens)
    {
      var len := ReadLength(br, curr);
      if len.Failure? {
        return Failure(len.error);
      }
      curr := len.value;
      lens := lens + [curr];
    }
    r := Success(lens);
  }

  method ReadTables(br: BitReader, nGroups: nat, alphaSize: nat) returns (r: Result<seq<seq<nat>>>)
    requires br.Valid() && 1 <= alphaSize <= MAX_ALPHA_SIZE
    modifies br
    ensures br.Valid() && Agrees(r, br.Remaining(), DecodeLengthTables(old(br.Remaining()), nGroups, alphaSize, []))
    ensures r.Success? ==> |r.value| == nGroups && Tables(r.value, alphaSize)
  {
    hide DecodeLengths, Lengths;
    var tables: seq<seq<nat>> := [];
    for t := 0 to nGroups
      invariant br.Valid() && |tables| == t && Tables(tables, alphaSize)
      invariant DecodeLengthTables(old(br.Remaining()), nGroups, alphaSize, [])
             == DecodeLengthTables(br.Remaining(), nGroups, alphaSize, tables)
    {
      var curr := br.GetBits(5);
      if curr.Failure? {
        return Failure(curr.error);
      }
      var lens := ReadLengths(br, curr.value, alphaSize);
      if lens.Failure? {
        return Failure(lens.error);
      }
      tables := tables + [lens.value];
    }
    r := Success(tables);
  }

  method ReadCodes(br: BitReader, alphaSize: nat) returns (r: Result<Codes>)
    requires br.Valid() && 1 <= alphaSize <= MAX_ALPHA_SIZE
    modifies br
    ensures br.Valid() && Agrees(r, br.Remaining(), DecodeCodes(old(br.Remaining()), alphaSize))
    ensures r.Success? ==> ValidCodes(r.value, alphaSize)
  {
    hide DecodeSelectors, DecodeLengthTables, Decode, Lengths;
    var nGroups := br.GetBits(3);
    if nGroups.Failure? {
      return Failure(nGroups.error);
    }
    if nGroups.value < 2 || nGroups.value > 6 {
      return Failure(DataError);
    }
    var nSelectors := br.GetBits(15);
    if nSelectors.Failure? {
      return Failure(nSelectors.error);
    }
    if nSelectors.value < 1 {
      return Failure(DataError);
    }
    var selectorMtf, selector := new nat[MAX_SELECTORS], new nat[MAX_SELECTORS];
    var read := ReadSelectors(br, nGroups.value, nSelectors.value, selectorMtf);
    if read.Failure? {
      return Failure(read.error);
    }
    UndoSelectorMtf(selectorMtf, selector, nSelectors.value, nGroups.value);
    DecodeBelow(Iota(nGroups.value), selectorMtf[..nSelectors.value], nGroups.value);
    var lens := ReadTables(br, nGroups.value, alphaSize);
    if lens.Failure? {
      return Failure(lens.error);
    }
    r := Success(Codes(selector[..nSelectors.value], lens.value));
  }
}
