/** Writing a block to the bit stream, part by part. */
module BlockWriter {
  import opened Bits
  import opened BitStream
  import opened CountingSort
  import opened InUse
  import opened MoveToFront
  import opened MtfEncoder
  import opened Permutations
  import opened Huffman
  import opened HuffmanTables
  import opened BlockFormat
  import opened BlockBits
  import opened BlockRoundTrip
  import opened TableChoice

  // ----- flags and marks

  lemma OneBit(x: bool)
    ensures BitsOf(if x then 1 else 0, 1) == [x] && Pow2(1) == 2
  {
    assert BitsOf(0, 0) == [] && BitsOf(1, 1) == BitsOf(0, 0) + [true] && BitsOf(0, 1) == BitsOf(0, 0) + [false];
  }

  method PutBit(bw: BitWriter, x: bool)
    requires bw.Valid()
    modifies bw
    ensures bw.Valid() && bw.taken == old(bw.taken) && bw.Bits() == old(bw.Bits()) + [x]
  {
    OneBit(x);
    bw.Put(1, if x then 1 else 0);
  }

  method PutFlags(bw: BitWriter, flags: seq<bool>)
    requires bw.Valid()
    modifies bw
    ensures bw.Valid() && bw.taken == old(bw.taken) && bw.Bits() == old(bw.Bits()) + flags
  {
    for i := 0 to |flags|
      invariant bw.Valid() && bw.taken == old(bw.taken) && bw.Bits() == old(bw.Bits()) + flags[..i]
    {
      PutBit(bw, flags[i]);
      assert flags[..i + 1] == flags[..i] + [flags[i]];
    }
    assert flags[..|flags|] == flags;
  }

  method PutBytes(bw: BitWriter, mark: seq<byte>)
    requires bw.Valid()
    modifies bw
    ensures bw.Valid() && bw.taken == old(bw.taken) && bw.Bits() == old(bw.Bits()) + BytesToBits(mark)
  {
    for i := 0 to |mark|
      invariant bw.Valid() && bw.taken == old(bw.taken) && bw.Bits() == old(bw.Bits()) + BytesToBits(mark[..i])
    {
      bw.PutUChar(mark[i]);
      ByteMore(old(bw.Bits()), mark, i);
    }
    assert mark[..|mark|] == mark;
  }

  lemma ByteMore(before: seq<bool>, mark: seq<byte>, i: nat)
    requires i < |mark|
    ensures before + BytesToBits(mark[..i]) + BitsOf(mark[i], 8) == before + BytesToBits(mark[..i + 1])
  {
    assert mark[..i + 1] == mark[..i] + [mark[i]];
    BytesToBitsConcat(mark[..i], [mark[i]]);
    assert BytesToBits([mark[i]]) == BitsOf(mark[i], 8) + [];
  }

  // ----- the bytes in use

  method FindRows(inUse: UseMap) returns (inUse16: seq<bool>)
    ensures inUse16 == Used16(inUse)
  {
    inUse16 := [];
    for i := 0 to 16
      invariant |inUse16| == i && forall k :: 0 <= k < i ==> inUse16[k] == Used16(inUse)[k]
    {
      var any := false;
      for j := 0 to 16
        invariant any <==> exists k :: 0 <= k < j && RowOf(inUse, i)[k]
      {
        assert RowOf(inUse, i)[j] == inUse[i * 16 + j];
        if inUse[i * 16 + j] { any := true; }
      }
      inUse16 := inUse16 + [any];
    }
  }

  method PutRows(bw: BitWriter, inUse: UseMap, inUse16: seq<bool>)
    requires bw.Valid() && inUse16 == Used16(inUse)
    modifies bw
    ensures bw.Valid() && bw.taken == old(bw.taken) && bw.Bits() == old(bw.Bits()) + RowBits(inUse, 0)
  {
    hide RowOf, Used16, RowBits;
    ghost var goal := bw.Bits() + RowBits(inUse, 0);
    for i := 0 to 16
      invariant bw.Valid() && bw.taken == old(bw.taken) && bw.Bits() + RowBits(inUse, i) == goal
    {
      RowNext(bw.Bits(), inUse, i);
      if inUse16[i] {
        PutFlags(bw, inUse[i * 16..i * 16 + 16]);
      }
    }
    NoRows(bw.Bits(), inUse);
  }

  lemma NoRows(bits: seq<bool>, inUse: UseMap)
    ensures bits + RowBits(inUse, 16) == bits
  {
  }

  lemma RowNext(before: seq<bool>, inUse: UseMap, i: nat)
    requires i < 16
    ensures RowOf(inUse, i) == inUse[i * 16..i * 16 + 16]
    ensures Used16(inUse)[i] ==> before + RowBits(inUse, i) == before + RowOf(inUse, i) + RowBits(inUse, i + 1)
    ensures !Used16(inUse)[i] ==> before + RowBits(inUse, i) == before + RowBits(inUse, i + 1)
  {
    ConcatAssociative(before, RowOf(inUse, i), RowBits(inUse, i + 1));
    assert [] + RowBits(inUse, i + 1) == RowBits(inUse, i + 1);
    hide RowOf, Used16;
  }

  method PutMapping(bw: BitWriter, inUse: UseMap)
    requires bw.Valid()
    modifies bw
    ensures bw.Valid() && bw.taken == old(bw.taken) && bw.Bits() == old(bw.Bits()) + MappingBits(inUse)
  {
    ConcatAssociative(bw.Bits(), Used16(inUse), RowBits(inUse, 0));
    hide RowOf, Used16, RowBits;
    var inUse16 := FindRows(inUse);
    PutFlags(bw, inUse16);
    PutRows(bw, inUse, inUse16);
  }

  // ----- the selectors

  /** Moves `x` to the front and tells where it was. */
  method PosToFront(pos: array<nat>, x: nat) returns (j: nat)
    requires x in pos[..]
    modifies pos
    ensures j == IndexOf(old(pos[..]), x) && pos[..] == ToFront(old(pos[..]), j)
  {
    ghost var list := pos[..];
    FirstIndex(list, x);
    ghost var goal := IndexOf(list, x);
    j := 0;
    var tmp := pos[j];
    while x != tmp
      invariant 0 <= j <= goal && tmp == list[j]
      invariant forall q :: 1 <= q <= j ==> pos[q] == list[q - 1]
      invariant forall q :: j < q < |list| ==> pos[q] == list[q]
      decreases goal - j
    {
      j := j + 1;
      var tmp2 := tmp;
      tmp := pos[j];
      pos[j] := tmp2;
    }
    pos[0] := tmp;
    assert pos[..] == ToFront(list, j);
  }

  /** Move-to-front codes of the selectors. */
  method SelectorMtf(selector: seq<nat>, nGroups: nat) returns (selectorMtf: seq<nat>)
    requires Known(Iota(nGroups), selector)
    ensures selectorMtf == Encode(Iota(nGroups), selector)
  {
    var pos := new nat[nGroups];
    for i := 0 to nGroups
      invariant forall k :: 0 <= k < i ==> pos[k] == k
    {
      pos[i] := i;
    }
    selectorMtf := [];
    ghost var goal := Encode(Iota(nGroups), selector);
    assert pos[..] == Iota(nGroups) && selector[0..] == selector;
    for i := 0 to |selector|
      invariant Known(pos[..], selector) && Known(pos[..], selector[i..])
      invariant selectorMtf + Encode(pos[..], selector[i..]) == goal
    {
      ghost var list := pos[..];
      EncodeNext(list, selector, i);
      var j := PosToFront(pos, selector[i]);
      ConcatAssociative(selectorMtf, [j], Encode(ToFront(list, j), selector[i + 1..]));
      selectorMtf := selectorMtf + [j];
    }
    assert selector[|selector|..] == [] && selectorMtf + [] == selectorMtf;
  }

  lemma EncodeNext(list: seq<nat>, xs: seq<nat>, i: nat)
    requires i < |xs| && Known(list, xs) && Known(list, xs[i..])
    ensures xs[i] in list
    ensures var k := IndexOf(list, xs[i]);
      && Known(ToFront(list, k), xs) && Known(ToFront(list, k), xs[i + 1..])
      && Encode(list, xs[i..]) == [k] + Encode(ToFront(list, k), xs[i + 1..])
  {
    var k := IndexOf(list, xs[i]);
    KnownToFront(list, k, xs);
    assert xs[i..][1..] == xs[i + 1..] && xs[i..][0] == xs[i];
  }

  /** `j` in unary. */
  method PutUnary(bw: BitWriter, j: nat)
    requires bw.Valid()
    modifies bw
    ensures bw.Valid() && bw.taken == old(bw.taken) && bw.Bits() == old(bw.Bits()) + UnaryBits(j)
  {
    ghost var goal := bw.Bits() + UnaryBits(j);
    for i := 0 to j
      invariant bw.Valid() && bw.taken == old(bw.taken) && bw.Bits() + UnaryBits(j - i) == goal
    {
      ConcatAssociative(bw.Bits(), [true], UnaryBits(j - i - 1));
      PutBit(bw, true);
    }
    PutBit(bw, false);
  }

  method PutSelectors(bw: BitWriter, selectorMtf: seq<nat>)
    requires bw.Valid()
    modifies bw
    ensures bw.Valid() && bw.taken == old(bw.taken) && bw.Bits() == old(bw.Bits()) + SelectorBits(selectorMtf)
  {
    hide UnaryBits;
    ghost var goal := bw.Bits() + SelectorBits(selectorMtf);
    assert selectorMtf[0..] == selectorMtf;
    for i := 0 to |selectorMtf|
      invariant bw.Valid() && bw.taken == old(bw.taken) && bw.Bits() + SelectorBits(selectorMtf[i..]) == goal
    {
      assert selectorMtf[i..][1..] == selectorMtf[i + 1..] && selectorMtf[i..][0] == selectorMtf[i];
      ConcatAssociative(bw.Bits(), UnaryBits(selectorMtf[i]), SelectorBits(selectorMtf[i + 1..]));
      PutUnary(bw, selectorMtf[i]);
    }
    assert selectorMtf[|selectorMtf|..] == [] && bw.Bits() + [] == bw.Bits();
  }

  // ----- the coding tables

  lemma TwoBitCodes()
    ensures BitsOf(2, 2) == [true, false] && BitsOf(3, 2) == [true, true] && Pow2(2) == 4
  {
    assert BitsOf(1, 1) == [] + [true];
  }

  lemma LengthStep(before: seq<bool>, curr: nat, len: nat)
    ensures curr < len ==> before + LengthBits(curr, len) == before + BitsOf(2, 2) + LengthBits(curr + 1, len)
    ensures curr > len ==> before + LengthBits(curr, len) == before + BitsOf(3, 2) + LengthBits(curr - 1, len)
    ensures curr == len ==> before + LengthBits(curr, len) == before + [false]
  {
    TwoBitCodes();
    if curr < len {
      ConcatAssociative(before, [true, false], LengthBits(curr + 1, len));
    } else if curr > len {
      ConcatAssociative(before, [true, true], LengthBits(curr - 1, len));
    }
  }

  /** One length, as steps from `curr0`. */
  method PutLength(bw: BitWriter, curr0: nat, len: nat)
    requires bw.Valid()
    modifies bw
    ensures bw.Valid() && bw.taken == old(bw.taken) && bw.Bits() == old(bw.Bits()) + LengthBits(curr0, len)
  {
    TwoBitCodes();
    hide LengthBits, BitsOf;
    ghost var goal := bw.Bits() + LengthBits(curr0, len);
    var curr := curr0;
    while curr < len
      invariant bw.Valid() && bw.taken == old(bw.taken) && bw.Bits() + LengthBits(curr, len) == goal
      invariant curr <= len || curr == curr0
    {
      LengthStep(bw.Bits(), curr, len);
      bw.Put(2, 2);
      curr := curr + 1;
    }
    while curr > len
      invariant curr >= len && bw.Valid() && bw.taken == old(bw.taken) && bw.Bits() + LengthBits(curr, len) == goal
    {
      LengthStep(bw.Bits(), curr, len);
      bw.Put(2, 3);
      curr := curr - 1;
    }
    LengthStep(bw.Bits(), curr, len);
    PutBit(bw, false);
  }

  method PutLengths(bw: BitWriter, lens: seq<nat>)
    requires bw.Valid() && lens != []
    modifies bw
    ensures bw.Valid() && bw.taken == old(bw.taken) && bw.Bits() == old(bw.Bits()) + LengthsBits(lens[0], lens)
  {
    hide LengthBits;
    ghost var goal := bw.Bits() + LengthsBits(lens[0], lens);
    var curr := lens[0];
    assert lens[0..] == lens;
    for i := 0 to |lens|
      invariant bw.Valid() && bw.taken == old(bw.taken) && bw.Bits() + LengthsBits(curr, lens[i..]) == goal
    {
      assert lens[i..][1..] == lens[i + 1..] && lens[i..][0] == lens[i];
      ConcatAssociative(bw.Bits(), LengthBits(curr, lens[i]), LengthsBits(lens[i], lens[i + 1..]));
      PutLength(bw, curr, lens[i]);
      curr := lens[i];
    }
    assert lens[|lens|..] == [] && bw.Bits() + [] == bw.Bits();
  }

  method PutTables(bw: BitWriter, lens: seq<seq<nat>>)
    requires bw.Valid() && forall t :: 0 <= t < |lens| ==> lens[t] != [] && lens[t][0] < 32
    modifies bw
    ensures bw.Valid() && bw.taken == old(bw.taken) && bw.Bits() == old(bw.Bits()) + TablesBits(lens)
  {
    hide LengthsBits, BitsOf;
    ghost var goal := bw.Bits() + TablesBits(lens);
    Pow2Values();
    assert lens[0..] == lens;
    for t := 0 to |lens|
      invariant bw.Valid() && bw.taken == old(bw.taken) && bw.Bits() + TablesBits(lens[t..]) == goal
    {
      assert lens[t..][1..] == lens[t + 1..] && lens[t..][0] == lens[t];
      TableNext(bw.Bits(), BitsOf(lens[t][0], 5), LengthsBits(lens[t][0], lens[t]), TablesBits(lens[t + 1..]));
      bw.Put(5, lens[t][0]);
      PutLengths(bw, lens[t]);
    }
    assert lens[|lens|..] == [] && bw.Bits() + [] == bw.Bits();
  }

  lemma TableNext(before: seq<bool>, a: seq<bool>, b: seq<bool>, c: seq<bool>)
    ensures before + (a + b + c) == before + a + b + c
  {
  }

  // ----- the codes

  /** The code numbers of every table. */
  ghost predicate AllCodes(code: seq<seq<nat>>, lens: seq<seq<nat>>) {
    && |code| == |lens|
    && forall t :: 0 <= t < |lens| ==> |code[t]| == |lens[t]| && forall v :: 0 <= v < |lens[t]| ==>
      code[t][v] == Code(lens[t], v)
  }

  /** The code numbers of one table. */
  method CodesOf(length: seq<nat>, alphaSize: nat) returns (codes: seq<nat>)
    requires Made(length, alphaSize) && 1 <= alphaSize <= MAX_ALPHA_SIZE
    ensures |codes| == alphaSize && forall v :: 0 <= v < alphaSize ==> codes[v] == Code(length, v)
  {
    var minLen, maxLen := 32, 0;
    for i := 0 to alphaSize
      invariant i > 0 ==> minLen == Shortest(length, i) && maxLen == Longest(length, i)
      invariant i == 0 ==> minLen == 32 && maxLen == 0
    {
      if length[i] > maxLen { maxLen := length[i]; }
      if length[i] < minLen { minLen := length[i]; }
    }
    ghost var at, at' := Attained(length, alphaSize);
    assert !(maxLen > LONGEST_SENT) && !(minLen < 1);
    var code := new int[alphaSize];
    AssignCodes(code, length, minLen, maxLen);
    codes := [];
    for v := 0 to alphaSize
      invariant |codes| == v && forall u :: 0 <= u < v ==> codes[u] == Code(length, u)
    {
      codes := codes + [code[v]];
    }
  }

  method AssignAll(lens: seq<seq<nat>>, alphaSize: nat) returns (code: seq<seq<nat>>)
    requires 1 <= alphaSize <= MAX_ALPHA_SIZE && forall t :: 0 <= t < |lens| ==> Made(lens[t], alphaSize)
    ensures AllCodes(code, lens)
  {
    hide Made;
    code := [];
    for t := 0 to |lens|
      invariant |code| == t
      invariant forall u ::
        0 <= u < t ==> |code[u]| == |lens[u]| && forall v :: 0 <= v < |lens[u]| ==> code[u][v] == Code(lens[u], v)
    {
      assert |lens[t]| == alphaSize by { MadeSize(lens[t], alphaSize); }
      var codes := CodesOf(lens[t], alphaSize);
      code := code + [codes];
    }
  }

  lemma MadeSize(lens: seq<nat>, alphaSize: nat)
    requires Made(lens, alphaSize)
    ensures |lens| == alphaSize
  {
  }

  /** The number of tables, the selectors and the tables. */
  method PutCodes(bw: BitWriter, codes: Codes, ghost alphaSize: nat)
    requires bw.Valid() && Sendable(codes, alphaSize) && Known(Iota(|codes.lens|), codes.selectors)
    modifies bw
    ensures bw.Valid() && bw.taken == old(bw.taken) && bw.Bits() == old(bw.Bits()) + CodesBits(codes)
  {
    hide Kraft, Known, Encode;
    var selectorMtf := SelectorMtf(codes.selectors, |codes.lens|);
    Pow2Values();
    CodesNext(bw.Bits(), BitsOf(|codes.lens|, 3), BitsOf(|codes.selectors|, 15), SelectorBits(selectorMtf),
      TablesBits(codes.lens));
    hide BitsOf, SelectorBits, TablesBits;
    bw.Put(3, |codes.lens|);
    bw.Put(15, |codes.selectors|);
    PutSelectors(bw, selectorMtf);
    PutTables(bw, codes.lens);
  }

  lemma CodesNext(before: seq<bool>, a: seq<bool>, b: seq<bool>, c: seq<bool>, d: seq<bool>)
    ensures before + (a + b + c + d) == before + a + b + c + d
  {
  }

  // ----- the symbols

  /** The codes of the symbols of one group. */
  method PutGroup(bw: BitWriter, arr1: array<nat>, lens: seq<nat>, code: seq<nat>, gs: nat, ge: nat, ghost codes: Codes,
                  ghost alphaSize: nat, ghost syms: seq<nat>)
    requires bw.Valid() && Overlaid(arr1, syms) && Coverable(codes, alphaSize, syms) && gs <= ge < |syms|
    requires |lens| == |code| == alphaSize && Kraft(lens) && forall v :: 0 <= v < alphaSize ==> code[v] == Code(lens, v)
    requires forall k :: gs <= k <= ge ==> k / GROUP_SIZE < |codes.selectors| && TableAt(codes, k) == lens
    modifies bw
    ensures bw.Valid() && bw.taken == old(bw.taken)
    ensures bw.Bits() + DataBits(codes, alphaSize, syms, ge + 1)
      == old(bw.Bits()) + DataBits(codes, alphaSize, syms, gs)
  {
    ghost var goal := bw.Bits() + DataBits(codes, alphaSize, syms, gs);
    hide Overlaid, DataBits, Code, Kraft;
    for i := gs to ge + 1
      invariant bw.Valid() && bw.taken == old(bw.taken) && bw.Bits() + DataBits(codes, alphaSize, syms, i) == goal
    {
      SymbolAt(arr1, syms, i);
      var v := GetHalf(arr1[i / 2], i);
      DataNext(bw.Bits(), codes, alphaSize, syms, i);
      CodeFits(lens, v);
      CodeShort(lens, v);
      bw.Put(lens[v], code[v]);
    }
  }

  lemma CodeShort(lens: seq<nat>, v: nat)
    requires Kraft(lens) && v < |lens|
    ensures lens[v] <= 24
  {
  }

  lemma SymbolAt(arr1: array<nat>, syms: seq<nat>, i: nat)
    requires Overlaid(arr1, syms) && i < |syms|
    ensures i / 2 < arr1.Length && GetHalf(arr1[i / 2], i) == syms[i]
  {
  }

  lemma DataNext(before: seq<bool>, codes: Codes, alphaSize: nat, syms: seq<nat>, i: nat)
    requires Coverable(codes, alphaSize, syms) && i < |syms|
    ensures i / GROUP_SIZE < |codes.selectors| && syms[i] < |TableAt(codes, i)| == alphaSize
    ensures before + DataBits(codes, alphaSize, syms, i)
         == before + BitsOf(Code(TableAt(codes, i), syms[i]), TableAt(codes, i)[syms[i]])
           + DataBits(codes, alphaSize, syms, i + 1)
  {
    TableFits(codes, alphaSize, syms, i);
    ConcatAssociative(before, CodeBits(TableAt(codes, i), syms[i]), DataBits(codes, alphaSize, syms, i + 1));
  }

  lemma GroupTable(codes: Codes, selCtr: nat, k: nat)
    requires EachBelow(codes.selectors, |codes.lens|) && selCtr < |codes.selectors|
    requires GROUP_SIZE * selCtr <= k < GROUP_SIZE * selCtr + GROUP_SIZE
    ensures k / GROUP_SIZE == selCtr && TableAt(codes, k) == codes.lens[codes.selectors[selCtr]]
  {
  }

  /** All symbols, group by group. */
  method PutData(bw: BitWriter, arr1: array<nat>, nMTF: nat, codes: Codes, code: seq<seq<nat>>, ghost alphaSize: nat,
                 ghost syms: seq<nat>)
    requires bw.Valid() && Overlaid(arr1, syms) && Coverable(codes, alphaSize, syms) && nMTF == |syms| >= 1
    requires |codes.selectors| == GroupCount(nMTF) && AllCodes(code, codes.lens)
    modifies bw
    ensures bw.Valid() && bw.taken == old(bw.taken)
    ensures bw.Bits() == old(bw.Bits()) + DataBits(codes, alphaSize, syms, 0)
  {
    ghost var goal := bw.Bits() + DataBits(codes, alphaSize, syms, 0);
    hide Overlaid, DataBits, Code, Kraft;
    var selCtr, gs := 0, 0;
    while gs < nMTF
      invariant bw.Valid() && bw.taken == old(bw.taken) && gs <= nMTF
      invariant bw.Bits() + DataBits(codes, alphaSize, syms, gs) == goal
      invariant if gs < nMTF then gs == GROUP_SIZE * selCtr else selCtr == |codes.selectors|
      decreases nMTF - gs
    {
      GroupNumbers(selCtr, nMTF);
      var ge := gs + GROUP_SIZE - 1;
      if ge >= nMTF {
        ge := nMTF - 1;
      }
      TableFits(codes, alphaSize, syms, gs);
      GroupTable(codes, selCtr, gs);
      forall k | gs <= k <= ge ensures k / GROUP_SIZE < |codes.selectors| && TableAt(codes, k) == TableAt(codes, gs) {
        GroupTable(codes, selCtr, k);
      }
      var t := codes.selectors[selCtr];
      PutGroup(bw, arr1, codes.lens[t], code[t], gs, ge, codes, alphaSize, syms);
      gs := ge + 1;
      selCtr := selCtr + 1;
    }
    assert selCtr == |codes.selectors|;
    NoData(bw.Bits(), codes, alphaSize, syms);
  }

  lemma NoData(bits: seq<bool>, codes: Codes, alphaSize: nat, syms: seq<nat>)
    requires Coverable(codes, alphaSize, syms)
    ensures bits + DataBits(codes, alphaSize, syms, |syms|) == bits
  {
  }

  // ----- the contents of a block

  /** Chooses the codes of a block and sends its map, its codes and its symbols. */
  method SendMTFValues(bw: BitWriter, arr1: array<nat>, mtfFreq: array<nat>, inUse: UseMap, nInUse: nat, nMTF: nat,
                       ghost syms: seq<nat>)
    returns (ghost codes: Codes)
    requires bw.Valid() && Overlaid(arr1, syms) && 1 <= nMTF == |syms| <= 900001
    requires 1 <= nInUse == |Used(inUse)| && nInUse + 2 <= mtfFreq.Length
    requires forall i :: 0 <= i < |syms| ==> syms[i] < nInUse + 2
    modifies bw
    ensures bw.Valid() && bw.taken == old(bw.taken)
    ensures Coverable(codes, nInUse + 2, syms) && Known(Iota(|codes.lens|), codes.selectors)
    ensures bw.Bits()
         == old(bw.Bits()) + (MappingBits(inUse) + CodesBits(codes) + DataBits(codes, nInUse + 2, syms, 0))
  {
    var alphaSize := nInUse + 2;
    AlphaSize(inUse);
    hide Used, Overlaid, Made, MappingBits, CodesBits, DataBits, Known, AllCodes;
    var chosen := ChooseTables(arr1, mtfFreq, nMTF, alphaSize, syms);
    codes := chosen;
    SelectorsKnown(codes, alphaSize);
    var code := AssignAll(chosen.lens, alphaSize);
    ContentsNext(bw.Bits(), MappingBits(inUse), CodesBits(codes), DataBits(codes, alphaSize, syms, 0));
    PutMapping(bw, inUse);
    PutCodes(bw, chosen, alphaSize);
    PutData(bw, arr1, nMTF, chosen, code, alphaSize, syms);
  }

  lemma ContentsNext(before: seq<bool>, a: seq<bool>, b: seq<bool>, c: seq<bool>)
    ensures before + (a + b + c) == before + a + b + c
  {
  }
}
