/** Canonical Huffman codes: the code numbers the encoder assigns, the tables
    the decoder builds from the same lengths, and the proof that reading a code
    back gives the symbol it was written for. */
module Huffman {
  import opened Bits
  import opened CountingSort
  import opened Wrappers
  import opened BitStream

  const MAX_ALPHA_SIZE := 258
  const MAX_CODE_LEN := 23
  const LONGEST_CODE := 20
  const CODE_SPACE := 0x10_0000 // 2 to the power LONGEST_CODE

  /** Code lengths the decoder accepts, for an alphabet it has room for. */
  ghost predicate Lengths(lens: seq<nat>) {
    && 1 <= |lens| <= MAX_ALPHA_SIZE
    && forall i :: 0 <= i < |lens| ==> 1 <= lens[i] <= LONGEST_CODE
  }

  /** The number of the first code of `len` bits. */
  function First(lens: seq<nat>, len: nat): nat
    decreases len, 0
  {
    if len == 0 then 0 else 2 * Past(lens, len - 1)
  }

  /** The number after the last code of `len` bits. */
  function Past(lens: seq<nat>, len: nat): nat
    decreases len, 1
  {
    First(lens, len) + Count(lens, len)
  }

  /** The code number of symbol `s`. */
  function Code(lens: seq<nat>, s: nat): nat
    requires s < |lens|
  {
    First(lens, lens[s]) + Rank(lens, s)
  }

  function CodeBits(lens: seq<nat>, s: nat): seq<bool>
    requires s < |lens|
  {
    BitsOf(Code(lens, s), lens[s])
  }

  /** The share of the code space taken by the codes of at most `len` bits of
      the symbols below `n`, in units of the longest code. */
  function Space(lens: seq<nat>, n: nat, len: nat): nat
    requires n <= |lens|
  {
    if n == 0 then 0
    else Space(lens, n - 1, len) + (if lens[n - 1] <= len <= LONGEST_CODE then Pow2(LONGEST_CODE - lens[n - 1]) else 0)
  }

  /** The lengths leave room for every code (the Kraft inequality). */
  ghost predicate Kraft(lens: seq<nat>) {
    Lengths(lens) && Space(lens, |lens|, LONGEST_CODE) <= CODE_SPACE
  }

  // ----- code numbers

  lemma {:induction false} ShiftLeftAdd(a: nat, b: nat, k: nat)
    ensures ShiftLeft(a + b, k) == ShiftLeft(a, k) + ShiftLeft(b, k)
    ensures ShiftLeft(2 * a, k) == ShiftLeft(a, k + 1)
    ensures ShiftLeft(1, k) == Pow2(k)
  {
    if k > 0 { ShiftLeftAdd(a, b, k - 1); }
  }

  lemma {:induction false} ShiftLeftOrder(a: nat, b: nat, k: nat)
    ensures a < b <==> ShiftLeft(a, k) < ShiftLeft(b, k)
  {
    if k > 0 { ShiftLeftOrder(a, b, k - 1); }
  }

  lemma {:induction false} ShiftPow2(l: nat, k: nat)
    ensures ShiftLeft(Pow2(l), k) == Pow2(l + k)
  {
    if k > 0 { ShiftPow2(l, k - 1); }
  }

  lemma {:induction false} SpaceStep(lens: seq<nat>, n: nat, len: nat)
    requires n <= |lens| && 1 <= len <= LONGEST_CODE
    ensures Space(lens, n, len)
         == Space(lens, n, len - 1) + ShiftLeft(|Select(lens, n, len)|, LONGEST_CODE - len)
  {
    var k := LONGEST_CODE - len;
    if n == 0 {
      ShiftLeftAdd(0, 0, k);
    } else {
      SpaceStep(lens, n - 1, len);
      ShiftLeftAdd(|Select(lens, n - 1, len)|, 1, k);
    }
  }

  lemma {:induction false} SpaceNone(lens: seq<nat>, n: nat)
    requires Lengths(lens) && n <= |lens|
    ensures Space(lens, n, 0) == 0 && Select(lens, n, 0) == []
  {
    if n > 0 { SpaceNone(lens, n - 1); }
  }

  /** The codes of at most `len` bits are the numbers below First + Count, and
      take exactly their share of the code space. */
  lemma {:induction false} SpaceOfCodes(lens: seq<nat>, len: nat)
    requires Lengths(lens) && len <= LONGEST_CODE
    ensures ShiftLeft(Past(lens, len), LONGEST_CODE - len) == Space(lens, |lens|, len)
  {
    var k := LONGEST_CODE - len;
    if len == 0 {
      SpaceNone(lens, |lens|);
      ShiftLeftAdd(0, 0, k);
    } else {
      SpaceOfCodes(lens, len - 1);
      SpaceStep(lens, |lens|, len);
      ShiftLeftAdd(First(lens, len), Count(lens, len), k);
      ShiftLeftAdd(Past(lens, len - 1), 0, k);
    }
  }

  lemma {:induction false} SpaceMonotone(lens: seq<nat>, n: nat, len: nat)
    requires n <= |lens| && len <= LONGEST_CODE
    ensures Space(lens, n, len) <= Space(lens, n, LONGEST_CODE)
  {
    if n > 0 { SpaceMonotone(lens, n - 1, len); }
  }

  lemma FitsFromShift(n: nat, len: nat)
    requires len <= LONGEST_CODE && ShiftLeft(n, LONGEST_CODE - len) <= CODE_SPACE
    ensures n <= Pow2(len)
  {
    Pow2Values();
    ShiftPow2(len, LONGEST_CODE - len);
    ShiftLeftOrder(Pow2(len), n, LONGEST_CODE - len);
  }

  lemma CodesFit(lens: seq<nat>, len: nat)
    requires Kraft(lens) && len <= LONGEST_CODE
    ensures Past(lens, len) <= Pow2(len)
  {
    SpaceOfCodes(lens, len);
    SpaceMonotone(lens, |lens|, len);
    FitsFromShift(Past(lens, len), len);
  }

  lemma CodeFits(lens: seq<nat>, s: nat)
    requires Kraft(lens) && s < |lens|
    ensures Code(lens, s) < Pow2(lens[s])
  {
    CodesFit(lens, lens[s]);
    SelectRank(lens, s);
  }

  /** Longer codes come after all extensions of shorter ones. */
  lemma {:induction false} FirstAfter(lens: seq<nat>, l: nat, m: nat)
    requires l < m
    ensures ShiftLeft(Past(lens, l), m - l) <= First(lens, m)
  {
    if l + 1 < m {
      FirstAfter(lens, l, m - 1);
    }
  }

  // ----- decoding

  /** The shortest and the longest of the first `n` lengths. */
  function Shortest(lens: seq<nat>, n: nat): nat
    requires 1 <= n <= |lens|
  {
    if n == 1 || lens[n - 1] < Shortest(lens, n - 1) then lens[n - 1] else Shortest(lens, n - 1)
  }

  function Longest(lens: seq<nat>, n: nat): nat
    requires 1 <= n <= |lens|
  {
    if n == 1 || lens[n - 1] > Longest(lens, n - 1) then lens[n - 1] else Longest(lens, n - 1)
  }

  function MinLen(lens: seq<nat>): nat
    requires lens != []
  {
    Shortest(lens, |lens|)
  }

  function MaxLen(lens: seq<nat>): nat
    requires lens != []
  {
    Longest(lens, |lens|)
  }

  lemma {:induction false} Between(lens: seq<nat>, n: nat, i: nat)
    requires i < n <= |lens|
    ensures Shortest(lens, n) <= lens[i] <= Longest(lens, n)
  {
    if i < n - 1 { Between(lens, n - 1, i); }
  }

  lemma {:induction false} Attained(lens: seq<nat>, n: nat) returns (i: nat, j: nat)
    requires 1 <= n <= |lens|
    ensures i < n && j < n && lens[i] == Shortest(lens, n) && lens[j] == Longest(lens, n)
  {
    if n == 1 {
      i, j := 0, 0;
    } else {
      i, j := Attained(lens, n - 1);
      i := if lens[n - 1] < Shortest(lens, n - 1) then n - 1 else i;
      j := if lens[n - 1] > Longest(lens, n - 1) then n - 1 else j;
    }
  }

  lemma LenRange(lens: seq<nat>)
    requires Lengths(lens)
    ensures 1 <= MinLen(lens) <= MaxLen(lens) <= LONGEST_CODE
  {
    var i, j := Attained(lens, |lens|);
    Between(lens, |lens|, i);
  }

  /** The number of codes shorter than `len` bits. */
  function Below(lens: seq<nat>, len: int): int {
    if len < 0 then 0 else |ByKey(lens, len)|
  }

  function Limit(lens: seq<nat>, len: int): int
    requires lens != []
  {
    if MinLen(lens) <= len <= MaxLen(lens) then Past(lens, len) - 1 else 0
  }

  function Base(lens: seq<nat>, len: int): int
    requires lens != []
  {
    if MinLen(lens) < len <= MaxLen(lens) then First(lens, len) - Below(lens, len) else Below(lens, len)
  }

  /** All symbols, by length and then by symbol. */
  function Perm(lens: seq<nat>): seq<nat>
    requires lens != []
  {
    ByKey(lens, MaxLen(lens) + 1)
  }

  lemma PermAt(lens: seq<nat>, s: nat)
    requires s < |lens|
    ensures Position(lens, s) < |Perm(lens)| && Perm(lens)[Position(lens, s)] == s
  {
    Between(lens, |lens|, s);
    ByKeyPosition(lens, MaxLen(lens) + 1, s);
  }

  /** Reading one symbol, of which `zn` bits have been read as `zvec`. */
  function DecodeFrom(lens: seq<nat>, zn: nat, zvec: nat, bits: seq<bool>): (p: Parse<nat>)
    requires Lengths(lens)
    ensures p.Ok? ==> |p.rest| <= |bits|
    decreases LONGEST_CODE + 1 - zn
  {
    if zn > LONGEST_CODE then Fail(DataError)
    else if zvec <= Limit(lens, zn) then
      var k := zvec - Base(lens, zn);
      if 0 <= k < |Perm(lens)| then Ok(Perm(lens)[k], bits) else Fail(DataError)
    else
      var (zj, bits1) :- TakeBits(bits, 1);
      DecodeFrom(lens, zn + 1, ShiftIn1(zvec, zj), bits1)
  }

  function ShiftIn1(v: nat, bit: nat): nat {
    2 * v + bit
  }

  function DecodeSymbol(lens: seq<nat>, bits: seq<bool>): (p: Parse<nat>)
    requires Lengths(lens)
    ensures p.Ok? ==> |p.rest| <= |bits|
  {
    var (zvec, bits1) :- TakeBits(bits, MinLen(lens));
    DecodeFrom(lens, MinLen(lens), zvec, bits1)
  }

  lemma {:induction false} NothingShorter(lens: seq<nat>, len: nat)
    requires lens != [] && len <= MinLen(lens)
    ensures First(lens, len) == 0 && ByKey(lens, len) == []
  {
    if len > 0 {
      NothingShorter(lens, len - 1);
      forall i | 0 <= i < |lens| ensures lens[i] != len - 1 { Between(lens, |lens|, i); }
      NoneSelected(lens, |lens|, len - 1);
    }
  }

  lemma {:induction false} NoneSelected(lens: seq<nat>, n: nat, len: nat)
    requires n <= |lens| && forall i :: 0 <= i < n ==> lens[i] != len
    ensures Select(lens, n, len) == []
  {
    if n > 0 { NoneSelected(lens, n - 1, len); }
  }

  /** The number formed by the first `zn` bits of the code of `s`. */
  function CodeTop(lens: seq<nat>, s: nat, zn: nat): nat
    requires s < |lens| && zn <= lens[s]
  {
    ShiftRight(Code(lens, s), lens[s] - zn)
  }

  /** The code of `s` from bit `zn` on, and what follows it. */
  function CodeTail(lens: seq<nat>, s: nat, zn: nat, rest: seq<bool>): seq<bool>
    requires s < |lens| && zn <= lens[s]
  {
    CodeBits(lens, s)[zn..] + rest
  }

  lemma LimitPassed(lens: seq<nat>, s: nat, zn: nat)
    requires s < |lens| && MinLen(lens) <= zn < lens[s]
    ensures CodeTop(lens, s, zn) > Limit(lens, zn)
  {
    Between(lens, |lens|, s);
    FirstAfter(lens, zn, lens[s]);
    ShiftOrder(Past(lens, zn), Code(lens, s), lens[s] - zn);
  }

  lemma {:induction false} ShiftOrder(a: nat, b: nat, k: nat)
    requires ShiftLeft(a, k) <= b
    ensures a <= ShiftRight(b, k)
  {
    if k > 0 {
      ShiftOrder(a, b / 2, k - 1);
    }
  }

  lemma ShiftRightStep(v: nat, k: nat)
    requires k > 0
    ensures ShiftRight(v, k - 1) == 2 * ShiftRight(v, k) + ShiftRight(v, k - 1) % 2
  {
    if k > 1 { ShiftRightStep(v / 2, k - 1); }
  }

  lemma DecodeMore(lens: seq<nat>, zn: nat, zvec: nat, bits: seq<bool>)
    requires Lengths(lens) && zn <= LONGEST_CODE && zvec > Limit(lens, zn) && bits != []
    ensures DecodeFrom(lens, zn, zvec, bits)
         == DecodeFrom(lens, zn + 1, ShiftIn1(zvec, if bits[0] then 1 else 0), bits[1..])
  {
    TakeOneBit(bits);
  }

  lemma CodePosition(lens: seq<nat>, s: nat)
    requires s < |lens|
    ensures Code(lens, s) <= Limit(lens, lens[s])
    ensures Code(lens, s) - Base(lens, lens[s]) == Position(lens, s)
  {
    SelectRank(lens, s);
    Between(lens, |lens|, s);
    NothingShorter(lens, MinLen(lens));
  }

  lemma DecodeDone(lens: seq<nat>, s: nat, bits: seq<bool>)
    requires Lengths(lens) && s < |lens|
    ensures DecodeFrom(lens, lens[s], Code(lens, s), bits) == Ok(s, bits)
  {
    CodePosition(lens, s);
    PermAt(lens, s);
  }

  lemma NextBit(lens: seq<nat>, s: nat, zn: nat, rest: seq<bool>)
    requires s < |lens| && zn < lens[s]
    ensures CodeTail(lens, s, zn, rest) != []
    ensures CodeTail(lens, s, zn, rest)[1..] == CodeTail(lens, s, zn + 1, rest)
    ensures CodeTop(lens, s, zn + 1)
         == ShiftIn1(CodeTop(lens, s, zn), if CodeTail(lens, s, zn, rest)[0] then 1 else 0)
  {
    BitAt(Code(lens, s), lens[s], zn);
    ShiftRightStep(Code(lens, s), lens[s] - zn);
  }

  /** Reading the code of `s` from its `zn`-th bit on. */
  lemma {:induction false} DecodeCodeFrom(lens: seq<nat>, s: nat, zn: nat, rest: seq<bool>)
    requires Lengths(lens) && s < |lens| && MinLen(lens) <= zn <= lens[s]
    ensures DecodeFrom(lens, zn, CodeTop(lens, s, zn), CodeTail(lens, s, zn, rest)) == Ok(s, rest)
    decreases lens[s] - zn
  {
    if zn == lens[s] {
      assert CodeTail(lens, s, zn, rest) == rest;
      DecodeDone(lens, s, rest);
    } else {
      LimitPassed(lens, s, zn);
      NextBit(lens, s, zn, rest);
      DecodeMore(lens, zn, CodeTop(lens, s, zn), CodeTail(lens, s, zn, rest));
      DecodeCodeFrom(lens, s, zn + 1, rest);
    }
  }

  lemma {:induction false} BitAt(v: nat, n: nat, k: nat)
    requires k < n
    ensures BitsOf(v, n)[k] == (ShiftRight(v, n - 1 - k) % 2 == 1)
    decreases n
  {
    if k < n - 1 {
      BitAt(v / 2, n - 1, k);
    }
  }

  lemma {:induction false} BitsPrefix(v: nat, n: nat, k: nat)
    requires k <= n
    ensures BitsOf(v, n)[..k] == BitsOf(ShiftRight(v, n - k), k)
  {
    if k < n {
      BitsPrefix(v / 2, n - 1, k);
    }
  }

  lemma {:induction false} ShiftRightFits(v: nat, n: nat, k: nat)
    requires v < Pow2(n) && k <= n
    ensures ShiftRight(v, n - k) < Pow2(k)
    decreases n
  {
    if k < n {
      ShiftRightFits(v / 2, n - 1, k);
    }
  }

  lemma TakeCode(v: nat, n: nat, k: nat, rest: seq<bool>)
    requires v < Pow2(n) && k <= n
    ensures TakeBits(BitsOf(v, n) + rest, k) == Ok(ShiftRight(v, n - k), BitsOf(v, n)[k..] + rest)
  {
    BitsPrefix(v, n, k);
    ShiftRightFits(v, n, k);
    ToNatBitsOf(ShiftRight(v, n - k), k);
    assert (BitsOf(v, n) + rest)[..k] == BitsOf(v, n)[..k];
    assert (BitsOf(v, n) + rest)[k..] == BitsOf(v, n)[k..] + rest;
  }

  /** A code that is read back gives its symbol and uses up exactly its bits. */
  lemma DecodeCode(lens: seq<nat>, s: nat, rest: seq<bool>)
    requires Kraft(lens) && s < |lens|
    ensures DecodeSymbol(lens, CodeBits(lens, s) + rest) == Ok(s, rest)
  {
    CodeFits(lens, s);
    Between(lens, |lens|, s);
    TakeCode(Code(lens, s), lens[s], MinLen(lens), rest);
    DecodeCodeFrom(lens, s, MinLen(lens), rest);
  }

  /** No code is the beginning of another. */
  lemma PrefixFree(lens: seq<nat>, s: nat, t: nat)
    requires Kraft(lens) && s < |lens| && t < |lens| && s != t
    ensures !(CodeBits(lens, s) <= CodeBits(lens, t))
  {
    var a, b := CodeBits(lens, s), CodeBits(lens, t);
    if a <= b {
      var tail := b[|a|..];
      assert a + tail == b + [];
      DecodeCode(lens, s, tail);
      DecodeCode(lens, t, []);
    }
  }
}
