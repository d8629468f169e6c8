/** The selectors of a block and the arrays they are written to. The number of selectors is
    read from the stream and is up to 32767, and the arrays have 18002 cells. */
module SelectorRoom {
  import opened Bits
  import opened Wrappers
  import opened BitStream
  import opened MoveToFront
  import opened Permutations
  import opened Huffman
  import opened InUse
  import opened BlockFormat
  import opened BlockBits

  /** That many selectors are there to be read. */
  predicate Readable(bits: seq<bool>, nGroups: nat, k: nat)
    requires nGroups > 0
    decreases k
  {
    k == 0 || (DecodeUnary(bits, nGroups, 0).Ok? && Readable(DecodeUnary(bits, nGroups, 0).rest, nGroups, k - 1))
  }

  lemma {:induction false} UnaryErrors(bits: seq<bool>, nGroups: nat, j: nat)
    requires j < nGroups
    ensures DecodeUnary(bits, nGroups, j) != Fail(SelectorsOverrun)
    decreases nGroups - j
  {
    var p := TakeBits(bits, 1);
    if p.Ok? && p.value != 0 && j + 1 < nGroups { UnaryErrors(p.rest, nGroups, j + 1); }
  }

  /** Reading the selectors writes behind the array exactly when there are to be more of them
      than it has cells, and one more than it has cells can be read. */
  lemma {:induction false} OverrunExactly(bits: seq<bool>, nGroups: nat, n: nat, acc: seq<nat>)
    requires nGroups > 0 && |acc| <= n && |acc| <= MAX_SELECTORS && EachBelow(acc, nGroups)
    ensures DecodeSelectors(bits, nGroups, n, acc) == Fail(SelectorsOverrun)
      <==> n > MAX_SELECTORS && Readable(bits, nGroups, MAX_SELECTORS + 1 - |acc|)
    decreases n - |acc|
  {
    UnaryErrors(bits, nGroups, 0);
    var p := DecodeUnary(bits, nGroups, 0);
    if |acc| < n && p.Ok? {
      if |acc| == MAX_SELECTORS {
        assert Readable(p.rest, nGroups, 0);
      } else {
        OverrunExactly(p.rest, nGroups, n, acc + [p.value]);
      }
    }
  }

  lemma {:induction false} ZerosReadable(nGroups: nat, k: nat, more: seq<bool>)
    requires nGroups > 0
    ensures Readable(SelectorBits(seq(k, _ => 0)) + more, nGroups, k)
    decreases k
  {
    if k > 0 {
      var js, left := seq(k, _ => 0), seq(k - 1, _ => 0);
      assert js[1..] == left;
      ConcatAssociative(UnaryBits(0), SelectorBits(left), more);
      UnaryBack(nGroups, 0, 0, SelectorBits(left) + more);
      ZerosReadable(nGroups, k - 1, more);
    }
  }

  /** All selectors are written within the array, whatever the stream, if and only if their
      number is no more than it has cells. */
  lemma WithinArray(nGroups: nat, n: nat)
    requires nGroups > 0
    ensures (forall bits: seq<bool> :: DecodeSelectors(bits, nGroups, n, []) != Fail(SelectorsOverrun)) <==>
      n <= MAX_SELECTORS
  {
    forall bits: seq<bool>
      ensures n <= MAX_SELECTORS ==> DecodeSelectors(bits, nGroups, n, []) != Fail(SelectorsOverrun)
    {
      OverrunExactly(bits, nGroups, n, []);
    }
    var zeros := SelectorBits(seq(MAX_SELECTORS + 1, _ => 0)) + [];
    ZerosReadable(nGroups, MAX_SELECTORS + 1, []);
    OverrunExactly(zeros, nGroups, n, []);
  }

  /** A block that announces 18003 selectors: the last one is written behind the array. */
  lemma OverrunBlock(alphaSize: nat, rest: seq<bool>)
    requires 1 <= alphaSize <= MAX_ALPHA_SIZE
    ensures DecodeCodes(BitsOf(2, 3) + (BitsOf(18003, 15) + (SelectorBits(seq(18003, _ => 0)) + rest)), alphaSize)
      == Fail(SelectorsOverrun)
  {
    hide BitsOf, TakeBits, DecodeSelectors, DecodeLengthTables, Readable;
    var selectors := SelectorBits(seq(18003, _ => 0)) + rest;
    Pow2Values();
    TakeBitsOf(2, 3, BitsOf(18003, 15) + selectors);
    TakeBitsOf(18003, 15, selectors);
    ZerosReadable(2, 18003, rest);
    OverrunExactly(selectors, 2, 18003, []);
  }
}
