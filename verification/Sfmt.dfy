/** The SFMT generator: the bulk fill of an array and the refill of the state in place follow
    one recurrence. */
module Sfmt {
  import opened Recurrence

  // ----- words of 128 bits

  /** Four words of 32 bits, the lowest first. */
  datatype W128 = W128(u0: bv32, u1: bv32, u2: bv32, u3: bv32)

  function Pair(high: bv32, low: bv32): bv64 {
    ((high as bv64) << 32) | (low as bv64)
  }

  function HighWord(w: bv64): bv32 {
    (w >> 32) as bv32
  }

  function LowWord(w: bv64): bv32 {
    (w & 0xffff_ffff) as bv32
  }

  /** The number that the four words are. */
  function Whole(x: W128): bv128 {
    Both(Pair(x.u3, x.u2), Pair(x.u1, x.u0))
  }

  /** A word of 64 bits, shifted by bytes. */
  function Up(w: bv64, bytes: bv8): bv64
    requires 0 < bytes < 8
  {
    if bytes == 1 then w << 8 else if bytes == 2 then w << 16 else if bytes == 3 then w << 24
    else if bytes == 4 then w << 32 else if bytes == 5 then w << 40 else if bytes == 6 then w << 48 else w << 56
  }

  function Down(w: bv64, bytes: bv8): bv64
    requires 0 < bytes < 8
  {
    if bytes == 1 then w >> 8 else if bytes == 2 then w >> 16 else if bytes == 3 then w >> 24
    else if bytes == 4 then w >> 32 else if bytes == 5 then w >> 40 else if bytes == 6 then w >> 48 else w >> 56
  }

  function Or(a: bv64, b: bv64): bv64 {
    a | b
  }

  /** Shifted to the left by bytes, with two words of 64 bits. */
  function LShift128(x: W128, shift: bv8): W128
    requires 0 < shift < 8
  {
    var th, tl := Pair(x.u3, x.u2), Pair(x.u1, x.u0);
    var oh := Or(Up(th, shift), Down(tl, 8 - shift));
    var ol := Up(tl, shift);
    W128(LowWord(ol), HighWord(ol), LowWord(oh), HighWord(oh))
  }

  /** Shifted to the right by bytes. */
  function RShift128(x: W128, shift: bv8): W128
    requires 0 < shift < 8
  {
    var th, tl := Pair(x.u3, x.u2), Pair(x.u1, x.u0);
    var oh := Down(th, shift);
    var ol := Or(Down(tl, shift), Up(th, 8 - shift));
    W128(LowWord(ol), HighWord(ol), LowWord(oh), HighWord(oh))
  }

  function Both(th: bv64, tl: bv64): bv128 {
    ((th as bv128) << 64) | (tl as bv128)
  }

  function UpBoth(w: bv128, bytes: bv8): bv128
    requires 0 < bytes < 8
  {
    if bytes == 1 then w << 8 else if bytes == 2 then w << 16 else if bytes == 3 then w << 24
    else if bytes == 4 then w << 32 else if bytes == 5 then w << 40 else if bytes == 6 then w << 48 else w << 56
  }

  function DownBoth(w: bv128, bytes: bv8): bv128
    requires 0 < bytes < 8
  {
    if bytes == 1 then w >> 8 else if bytes == 2 then w >> 16 else if bytes == 3 then w >> 24
    else if bytes == 4 then w >> 32 else if bytes == 5 then w >> 40 else if bytes == 6 then w >> 48 else w >> 56
  }

  lemma By1(th: bv64, tl: bv64)
    ensures Both(Or(Up(th, 1), Down(tl, 7)), Up(tl, 1)) == UpBoth(Both(th, tl), 1)
    ensures Both(Down(th, 1), Or(Down(tl, 1), Up(th, 7))) == DownBoth(Both(th, tl), 1)
  {
  }

  lemma By2(th: bv64, tl: bv64)
    ensures Both(Or(Up(th, 2), Down(tl, 6)), Up(tl, 2)) == UpBoth(Both(th, tl), 2)
    ensures Both(Down(th, 2), Or(Down(tl, 2), Up(th, 6))) == DownBoth(Both(th, tl), 2)
  {
  }

  lemma By3(th: bv64, tl: bv64)
    ensures Both(Or(Up(th, 3), Down(tl, 5)), Up(tl, 3)) == UpBoth(Both(th, tl), 3)
    ensures Both(Down(th, 3), Or(Down(tl, 3), Up(th, 5))) == DownBoth(Both(th, tl), 3)
  {
  }

  lemma By4(th: bv64, tl: bv64)
    ensures Both(Or(Up(th, 4), Down(tl, 4)), Up(tl, 4)) == UpBoth(Both(th, tl), 4)
    ensures Both(Down(th, 4), Or(Down(tl, 4), Up(th, 4))) == DownBoth(Both(th, tl), 4)
  {
  }

  lemma By5(th: bv64, tl: bv64)
    ensures Both(Or(Up(th, 5), Down(tl, 3)), Up(tl, 5)) == UpBoth(Both(th, tl), 5)
    ensures Both(Down(th, 5), Or(Down(tl, 5), Up(th, 3))) == DownBoth(Both(th, tl), 5)
  {
  }

  lemma By6(th: bv64, tl: bv64)
    ensures Both(Or(Up(th, 6), Down(tl, 2)), Up(tl, 6)) == UpBoth(Both(th, tl), 6)
    ensures Both(Down(th, 6), Or(Down(tl, 6), Up(th, 2))) == DownBoth(Both(th, tl), 6)
  {
  }

  lemma By7(th: bv64, tl: bv64)
    ensures Both(Or(Up(th, 7), Down(tl, 1)), Up(tl, 7)) == UpBoth(Both(th, tl), 7)
    ensures Both(Down(th, 7), Or(Down(tl, 7), Up(th, 1))) == DownBoth(Both(th, tl), 7)
  {
  }

  lemma UpDownWhole(th: bv64, tl: bv64, shift: bv8)
    requires 0 < shift < 8
    ensures Both(Or(Up(th, shift), Down(tl, 8 - shift)), Up(tl, shift)) == UpBoth(Both(th, tl), shift)
    ensures Both(Down(th, shift), Or(Down(tl, shift), Up(th, 8 - shift))) == DownBoth(Both(th, tl), shift)
  {
    hide Both, Up, Down, Or, UpBoth, DownBoth;
    if shift == 1 {
      By1(th, tl);
    } else if shift == 2 {
      By2(th, tl);
    } else if shift == 3 {
      By3(th, tl);
    } else if shift == 4 {
      By4(th, tl);
    } else if shift == 5 {
      By5(th, tl);
    } else if shift == 6 {
      By6(th, tl);
    } else if shift == 7 {
      By7(th, tl);
    }
  }

  lemma PairBack(w: bv64)
    ensures Pair(HighWord(w), LowWord(w)) == w
  {
  }

  lemma WholeOf(h: bv64, l: bv64)
    ensures Whole(W128(LowWord(l), HighWord(l), LowWord(h), HighWord(h))) == Both(h, l)
  {
    hide Pair, HighWord, LowWord, Both;
    PairBack(h);
    PairBack(l);
  }

  /** The shifts are those of the whole. */
  lemma ShiftsWhole(x: W128, shift: bv8)
    requires 0 < shift < 8
    ensures Whole(LShift128(x, shift)) == UpBoth(Whole(x), shift)
    ensures Whole(RShift128(x, shift)) == DownBoth(Whole(x), shift)
  {
    hide Pair, HighWord, LowWord, Up, Down, Or, UpBoth, DownBoth, Both;
    var th, tl := Pair(x.u3, x.u2), Pair(x.u1, x.u0);
    UpDownWhole(th, tl, shift);
    WholeOf(Or(Up(th, shift), Down(tl, 8 - shift)), Up(tl, shift));
    WholeOf(Down(th, shift), Or(Down(tl, shift), Up(th, 8 - shift)));
  }

  // ----- the recurrence

  /** The parameters of a generator. */
  datatype Params = Params(n: nat, pos1: nat, sl1: bv8, sl2: bv8, sr1: bv8, sr2: bv8,
                           msk1: bv32, msk2: bv32, msk3: bv32, msk4: bv32) {
    predicate Valid() {
      2 <= n && 0 < pos1 < n && sl1 < 32 && sr1 < 32 && 0 < sl2 < 8 && 0 < sr2 < 8
    }
  }

  function SumOf(a: bv32, x: bv32, b: bv32, y: bv32, d: bv32): bv32 {
    a ^ x ^ b ^ y ^ d
  }

  function Masked(b: bv32, s: bv8, msk: bv32): bv32
    requires s < 32
  {
    (b >> s) & msk
  }

  function Raised(d: bv32, s: bv8): bv32
    requires s < 32
  {
    d << s
  }

  function Mix(p: Params, a: bv32, x: bv32, b: bv32, msk: bv32, y: bv32, d: bv32): bv32
    requires p.Valid()
  {
    SumOf(a, x, Masked(b, p.sr1, msk), y, Raised(d, p.sl1))
  }

  /** The next word, from that `n` places before, that `pos1` places after it, and the last
      two. */
  function Next(p: Params, a: W128, b: W128, c: W128, d: W128): W128
    requires p.Valid()
  {
    var x, y := LShift128(a, p.sl2), RShift128(c, p.sr2);
    W128(Mix(p, a.u0, x.u0, b.u0, p.msk1, y.u0, d.u0), Mix(p, a.u1, x.u1, b.u1, p.msk2, y.u1, d.u1),
         Mix(p, a.u2, x.u2, b.u2, p.msk3, y.u2, d.u2), Mix(p, a.u3, x.u3, b.u3, p.msk4, y.u3, d.u3))
  }

  // ----- the recurrence, bit by bit

  /** Whether the number of bits that are set is odd. */
  predicate Odd(u: bool, v: bool, x: bool, y: bool, z: bool) {
    u != (v != (x != (y != z)))
  }

  predicate Bit(w: bv32, i: bv8) {
    i < 32 && (w >> i) & 1 == 1
  }

  /** The bit of a word `s` places above `i`. */
  predicate Above(w: bv32, i: bv8, s: bv8)
    requires i < 32 && s < 32
  {
    Bit(w, i + s)
  }

  /** The bit of a word `s` places below `i`. */
  predicate Below(w: bv32, i: bv8, s: bv8) {
    i >= s && Bit(w, i - s)
  }

  /** Word `j` of the four. */
  function Word(x: W128, j: bv8): bv32 {
    if j == 0 then x.u0 else if j == 1 then x.u1 else if j == 2 then x.u2 else x.u3
  }

  function Mask(p: Params, j: bv8): bv32 {
    if j == 0 then p.msk1 else if j == 1 then p.msk2 else if j == 2 then p.msk3 else p.msk4
  }

  /** In which of the words bit `k` is. */
  function WordOf(k: bv8): bv8 {
    k / 32
  }

  /** Where in its word bit `k` is. */
  function PlaceOf(k: bv8): (i: bv8)
    ensures i < 32
  {
    k % 32
  }

  /** Bit `k` of the number that the four words are, the lowest first; there are 128. */
  predicate BitAt(x: W128, k: bv8) {
    k < 128 && Bit(Word(x, WordOf(k)), PlaceOf(k))
  }

  predicate BytesAbove(x: W128, k: bv8, bytes: bv8)
    requires k < 128 && bytes < 8
  {
    BitAt(x, k + 8 * bytes)
  }

  predicate BytesBelow(x: W128, k: bv8, bytes: bv8)
    requires bytes < 8
  {
    k >= 8 * bytes && BitAt(x, k - 8 * bytes)
  }

  /** Bit `k` of the next word is the sum of five bits: that bit of `a`, the one `sl2` bytes
      below it in the whole of `a`, the one `sr1` places above it in the same word of `b` where
      the mask has a bit, the one `sr2` bytes above it in the whole of `c`, and the one `sl1`
      places below it in the same word of `d`. */
  predicate NextBit(p: Params, a: W128, b: W128, c: W128, d: W128, k: bv8)
    requires p.Valid() && k < 128
  {
    var j, i := WordOf(k), PlaceOf(k);
    Odd(BitAt(a, k), BytesBelow(a, k, p.sl2), Above(Word(b, j), i, p.sr1) && Bit(Mask(p, j), i),
        BytesAbove(c, k, p.sr2), Below(Word(d, j), i, p.sl1))
  }

  /** The word `e` is the one that follows. */
  ghost predicate Recurs(p: Params, a: W128, b: W128, c: W128, d: W128, e: W128)
    requires p.Valid()
  {
    forall k: bv8 :: k < 128 ==> BitAt(e, k) == NextBit(p, a, b, c, d, k)
  }

  lemma XorBit(a: bv32, x: bv32, b: bv32, y: bv32, d: bv32, i: bv8)
    requires i < 32
    ensures Bit(a ^ x ^ b ^ y ^ d, i) == Odd(Bit(a, i), Bit(x, i), Bit(b, i), Bit(y, i), Bit(d, i))
  {
  }

  lemma SumBit(a: bv32, x: bv32, b: bv32, y: bv32, d: bv32, i: bv8)
    requires i < 32
    ensures Bit(SumOf(a, x, b, y, d), i) == Odd(Bit(a, i), Bit(x, i), Bit(b, i), Bit(y, i), Bit(d, i))
  {
    hide Bit, Odd;
    XorBit(a, x, b, y, d, i);
  }

  lemma DownAndBit(b: bv32, msk: bv32, s: bv8, i: bv8)
    requires s < 32 && i < 32
    ensures Bit((b >> s) & msk, i) == (Bit(b, i + s) && Bit(msk, i))
  {
  }

  lemma MaskedBit(b: bv32, msk: bv32, s: bv8, i: bv8)
    requires s < 32 && i < 32
    ensures Bit(Masked(b, s, msk), i) == (Above(b, i, s) && Bit(msk, i))
  {
    hide Bit;
    DownAndBit(b, msk, s, i);
  }

  lemma LeftBit(d: bv32, s: bv8, i: bv8)
    requires s < 32 && i < 32
    ensures Bit(d << s, i) == (i >= s && Bit(d, i - s))
  {
  }

  lemma RaisedBit(d: bv32, s: bv8, i: bv8)
    requires s < 32 && i < 32
    ensures Bit(Raised(d, s), i) == Below(d, i, s)
  {
    hide Bit;
    LeftBit(d, s, i);
  }

  lemma MixBit(p: Params, a: bv32, x: bv32, b: bv32, msk: bv32, y: bv32, d: bv32, i: bv8)
    requires p.Valid() && i < 32
    ensures Bit(Mix(p, a, x, b, msk, y, d), i)
         == Odd(Bit(a, i), Bit(x, i), Above(b, i, p.sr1) && Bit(msk, i), Bit(y, i), Below(d, i, p.sl1))
  {
    hide Bit, Above, Below, Odd, SumOf, Masked, Raised;
    SumBit(a, x, Masked(b, p.sr1, msk), y, Raised(d, p.sl1), i);
    MaskedBit(b, msk, p.sr1, i);
    RaisedBit(d, p.sl1, i);
  }

  predicate WideBit(w: bv128, k: bv8) {
    k < 128 && (w >> k) & 1 == 1
  }

  lemma WholeBit(x: W128, k: bv8)
    ensures WideBit(Whole(x), k) == BitAt(x, k)
  {
  }

  lemma Move1(w: bv128, k: bv8)
    requires k < 128
    ensures WideBit(w << 8, k) == (k >= 8 && WideBit(w, k - 8))
    ensures WideBit(w >> 8, k) == WideBit(w, k + 8)
  {
  }

  lemma Move2(w: bv128, k: bv8)
    requires k < 128
    ensures WideBit(w << 16, k) == (k >= 16 && WideBit(w, k - 16))
    ensures WideBit(w >> 16, k) == WideBit(w, k + 16)
  {
  }

  lemma Move3(w: bv128, k: bv8)
    requires k < 128
    ensures WideBit(w << 24, k) == (k >= 24 && WideBit(w, k - 24))
    ensures WideBit(w >> 24, k) == WideBit(w, k + 24)
  {
  }

  lemma Move4(w: bv128, k: bv8)
    requires k < 128
    ensures WideBit(w << 32, k) == (k >= 32 && WideBit(w, k - 32))
    ensures WideBit(w >> 32, k) == WideBit(w, k + 32)
  {
  }

  lemma Move5(w: bv128, k: bv8)
    requires k < 128
    ensures WideBit(w << 40, k) == (k >= 40 && WideBit(w, k - 40))
    ensures WideBit(w >> 40, k) == WideBit(w, k + 40)
  {
  }

  lemma Move6(w: bv128, k: bv8)
    requires k < 128
    ensures WideBit(w << 48, k) == (k >= 48 && WideBit(w, k - 48))
    ensures WideBit(w >> 48, k) == WideBit(w, k + 48)
  {
  }

  lemma Move7(w: bv128, k: bv8)
    requires k < 128
    ensures WideBit(w << 56, k) == (k >= 56 && WideBit(w, k - 56))
    ensures WideBit(w >> 56, k) == WideBit(w, k + 56)
  {
  }

  lemma Moved1(w: bv128, k: bv8)
    requires k < 128
    ensures WideBit(UpBoth(w, 1), k) == (k >= 8 && WideBit(w, k - 8))
    ensures WideBit(DownBoth(w, 1), k) == WideBit(w, k + 8)
  {
    hide WideBit;
    Move1(w, k);
  }

  lemma Moved2(w: bv128, k: bv8)
    requires k < 128
    ensures WideBit(UpBoth(w, 2), k) == (k >= 16 && WideBit(w, k - 16))
    ensures WideBit(DownBoth(w, 2), k) == WideBit(w, k + 16)
  {
    hide WideBit;
    Move2(w, k);
  }

  lemma Moved3(w: bv128, k: bv8)
    requires k < 128
    ensures WideBit(UpBoth(w, 3), k) == (k >= 24 && WideBit(w, k - 24))
    ensures WideBit(DownBoth(w, 3), k) == WideBit(w, k + 24)
  {
    hide WideBit;
    Move3(w, k);
  }

  lemma Moved4(w: bv128, k: bv8)
    requires k < 128
    ensures WideBit(UpBoth(w, 4), k) == (k >= 32 && WideBit(w, k - 32))
    ensures WideBit(DownBoth(w, 4), k) == WideBit(w, k + 32)
  {
    hide WideBit;
    Move4(w, k);
  }

  lemma Moved5(w: bv128, k: bv8)
    requires k < 128
    ensures WideBit(UpBoth(w, 5), k) == (k >= 40 && WideBit(w, k - 40))
    ensures WideBit(DownBoth(w, 5), k) == WideBit(w, k + 40)
  {
    hide WideBit;
    Move5(w, k);
  }

  lemma Moved6(w: bv128, k: bv8)
    requires k < 128
    ensures WideBit(UpBoth(w, 6), k) == (k >= 48 && WideBit(w, k - 48))
    ensures WideBit(DownBoth(w, 6), k) == WideBit(w, k + 48)
  {
    hide WideBit;
    Move6(w, k);
  }

  lemma Moved7(w: bv128, k: bv8)
    requires k < 128
    ensures WideBit(UpBoth(w, 7), k) == (k >= 56 && WideBit(w, k - 56))
    ensures WideBit(DownBoth(w, 7), k) == WideBit(w, k + 56)
  {
    hide WideBit;
    Move7(w, k);
  }

  lemma ShiftBy1(x: W128, k: bv8)
    requires k < 128
    ensures BitAt(LShift128(x, 1), k) == BytesBelow(x, k, 1)
    ensures BitAt(RShift128(x, 1), k) == BytesAbove(x, k, 1)
  {
    hide LShift128, RShift128, Whole, BitAt, WideBit, UpBoth, DownBoth;
    ShiftsWhole(x, 1);
    Moved1(Whole(x), k);
    WholeBit(LShift128(x, 1), k);
    WholeBit(RShift128(x, 1), k);
    WholeBit(x, k - 8);
    WholeBit(x, k + 8);
  }

  lemma ShiftBy2(x: W128, k: bv8)
    requires k < 128
    ensures BitAt(LShift128(x, 2), k) == BytesBelow(x, k, 2)
    ensures BitAt(RShift128(x, 2), k) == BytesAbove(x, k, 2)
  {
    hide LShift128, RShift128, Whole, BitAt, WideBit, UpBoth, DownBoth;
    ShiftsWhole(x, 2);
    Moved2(Whole(x), k);
    WholeBit(LShift128(x, 2), k);
    WholeBit(RShift128(x, 2), k);
    WholeBit(x, k - 16);
    WholeBit(x, k + 16);
  }

  lemma ShiftBy3(x: W128, k: bv8)
    requires k < 128
    ensures BitAt(LShift128(x, 3), k) == BytesBelow(x, k, 3)
    ensures BitAt(RShift128(x, 3), k) == BytesAbove(x, k, 3)
  {
    hide LShift128, RShift128, Whole, BitAt, WideBit, UpBoth, DownBoth;
    ShiftsWhole(x, 3);
    Moved3(Whole(x), k);
    WholeBit(LShift128(x, 3), k);
    WholeBit(RShift128(x, 3), k);
    WholeBit(x, k - 24);
    WholeBit(x, k + 24);
  }

  lemma ShiftBy4(x: W128, k: bv8)
    requires k < 128
    ensures BitAt(LShift128(x, 4), k) == BytesBelow(x, k, 4)
    ensures BitAt(RShift128(x, 4), k) == BytesAbove(x, k, 4)
  {
    hide LShift128, RShift128, Whole, BitAt, WideBit, UpBoth, DownBoth;
    ShiftsWhole(x, 4);
    Moved4(Whole(x), k);
    WholeBit(LShift128(x, 4), k);
    WholeBit(RShift128(x, 4), k);
    WholeBit(x, k - 32);
    WholeBit(x, k + 32);
  }

  lemma ShiftBy5(x: W128, k: bv8)
    requires k < 128
    ensures BitAt(LShift128(x, 5), k) == BytesBelow(x, k, 5)
    ensures BitAt(RShift128(x, 5), k) == BytesAbove(x, k, 5)
  {
    hide LShift128, RShift128, Whole, BitAt, WideBit, UpBoth, DownBoth;
    ShiftsWhole(x, 5);
    Moved5(Whole(x), k);
    WholeBit(LShift128(x, 5), k);
    WholeBit(RShift128(x, 5), k);
    WholeBit(x, k - 40);
    WholeBit(x, k + 40);
  }

  lemma ShiftBy6(x: W128, k: bv8)
    requires k < 128
    ensures BitAt(LShift128(x, 6), k) == BytesBelow(x, k, 6)
    ensures BitAt(RShift128(x, 6), k) == BytesAbove(x, k, 6)
  {
    hide LShift128, RShift128, Whole, BitAt, WideBit, UpBoth, DownBoth;
    ShiftsWhole(x, 6);
    Moved6(Whole(x), k);
    WholeBit(LShift128(x, 6), k);
    WholeBit(RShift128(x, 6), k);
    WholeBit(x, k - 48);
    WholeBit(x, k + 48);
  }

  lemma ShiftBy7(x: W128, k: bv8)
    requires k < 128
    ensures BitAt(LShift128(x, 7), k) == BytesBelow(x, k, 7)
    ensures BitAt(RShift128(x, 7), k) == BytesAbove(x, k, 7)
  {
    hide LShift128, RShift128, Whole, BitAt, WideBit, UpBoth, DownBoth;
    ShiftsWhole(x, 7);
    Moved7(Whole(x), k);
    WholeBit(LShift128(x, 7), k);
    WholeBit(RShift128(x, 7), k);
    WholeBit(x, k - 56);
    WholeBit(x, k + 56);
  }

  /** The shifts by bytes move each bit of the whole. */
  lemma ShiftedBits(x: W128, shift: bv8, k: bv8)
    requires 0 < shift < 8 && k < 128
    ensures BitAt(LShift128(x, shift), k) == BytesBelow(x, k, shift)
    ensures BitAt(RShift128(x, shift), k) == BytesAbove(x, k, shift)
  {
    hide LShift128, RShift128, BitAt, BytesBelow, BytesAbove;
    if shift == 1 {
      ShiftBy1(x, k);
    } else if shift == 2 {
      ShiftBy2(x, k);
    } else if shift == 3 {
      ShiftBy3(x, k);
    } else if shift == 4 {
      ShiftBy4(x, k);
    } else if shift == 5 {
      ShiftBy5(x, k);
    } else if shift == 6 {
      ShiftBy6(x, k);
    } else {
      ShiftBy7(x, k);
    }
  }

  lemma WordOfNext(p: Params, a: W128, b: W128, c: W128, d: W128, j: bv8)
    requires p.Valid()
    ensures var x, y := LShift128(a, p.sl2), RShift128(c, p.sr2);
      Word(Next(p, a, b, c, d), j) == Mix(p, Word(a, j), Word(x, j), Word(b, j), Mask(p, j), Word(y, j), Word(d, j))
  {
    hide LShift128, RShift128, Mix;
  }

  lemma NextBitIs(p: Params, a: W128, b: W128, c: W128, d: W128, k: bv8)
    requires p.Valid() && k < 128
    ensures BitAt(Next(p, a, b, c, d), k) == NextBit(p, a, b, c, d, k)
  {
    hide LShift128, RShift128, Next, Mix, Bit, Word, Mask, Odd, WordOf, PlaceOf, BytesBelow, BytesAbove, Above, Below;
    var j, i := WordOf(k), PlaceOf(k);
    var x, y := LShift128(a, p.sl2), RShift128(c, p.sr2);
    ShiftedBits(a, p.sl2, k);
    ShiftedBits(c, p.sr2, k);
    WordOfNext(p, a, b, c, d, j);
    MixBit(p, Word(a, j), Word(x, j), Word(b, j), Mask(p, j), Word(y, j), Word(d, j), i);
  }

  /** What is computed, word by word, is the word that follows. */
  lemma NextRecurs(p: Params, a: W128, b: W128, c: W128, d: W128)
    requires p.Valid()
    ensures Recurs(p, a, b, c, d, Next(p, a, b, c, d))
  {
    hide Next, BitAt, NextBit;
    forall k: bv8 | k < 128 ensures BitAt(Next(p, a, b, c, d), k) == NextBit(p, a, b, c, d, k) {
      NextBitIs(p, a, b, c, d, k);
    }
  }

  /** What is in an array of four words. */
  ghost function Stored(r: array<bv32>): W128
    requires r.Length == 4
    reads r
  {
    W128(r[0], r[1], r[2], r[3])
  }

  /** The recurrence, word by word. The result may be written over `a`. */
  method DoRecursion(p: Params, r: array<bv32>, a: array<bv32>, b: array<bv32>, c: array<bv32>, d: array<bv32>)
    requires p.Valid() && r.Length == 4 && a.Length == 4 && b.Length == 4 && c.Length == 4 && d.Length == 4
    requires r != b && r != c && r != d
    modifies r
    ensures Stored(r) == old(Next(p, Stored(a), Stored(b), Stored(c), Stored(d)))
    ensures Recurs(p, old(Stored(a)), old(Stored(b)), old(Stored(c)), old(Stored(d)), Stored(r))
  {
    hide LShift128, RShift128, Mix, Recurs;
    NextRecurs(p, Stored(a), Stored(b), Stored(c), Stored(d));
    var x := LShift128(W128(a[0], a[1], a[2], a[3]), p.sl2);
    var y := RShift128(W128(c[0], c[1], c[2], c[3]), p.sr2);
    r[0] := Mix(p, a[0], x.u0, b[0], p.msk1, y.u0, d[0]);
    r[1] := Mix(p, a[1], x.u1, b[1], p.msk2, y.u1, d[1]);
    r[2] := Mix(p, a[2], x.u2, b[2], p.msk3, y.u2, d[2]);
    r[3] := Mix(p, a[3], x.u3, b[3], p.msk4, y.u3, d[3]);
  }

  function Rule(p: Params): (W128, W128, W128, W128) -> W128
    requires p.Valid()
  {
    (a, b, c, d) => Next(p, a, b, c, d)
  }

  /** Each word from place `n` on is the one that follows, bit by bit. */
  ghost predicate Generated(p: Params, s: seq<W128>) {
    p.Valid() && forall i :: p.n <= i < |s| ==> Recurs(p, s[i - p.n], s[i - p.n + p.pos1], s[i - 2], s[i - 1], s[i])
  }

  lemma MadeRecurs(p: Params, t: seq<W128>, i: nat)
    requires p.Valid() && Made(Shape(p.n, p.pos1), Rule(p), t, i)
    ensures p.n <= i < |t| && Recurs(p, t[i - p.n], t[i - p.n + p.pos1], t[i - 2], t[i - 1], t[i])
  {
    hide Next, Recurs;
    NextRecurs(p, t[i - p.n], t[i - p.n + p.pos1], t[i - 2], t[i - 1]);
  }

  lemma ExtendGenerated(p: Params, s: seq<W128>, t: seq<W128>, k: nat)
    requires p.Valid() && |s| == p.n && t == Extend(Shape(p.n, p.pos1), Rule(p), s, k)
    ensures Generated(p, t)
  {
    hide Next, Recurs, Rule, Made;
    var r := Shape(p.n, p.pos1);
    ExtendKeeps(r, Rule(p), s, k);
    ExtendIs(r, Rule(p), s, t, k);
    forall i | p.n <= i < |t| ensures Recurs(p, t[i - p.n], t[i - p.n + p.pos1], t[i - 2], t[i - 1], t[i]) {
      assert Made(r, Rule(p), t, i);
      MadeRecurs(p, t, i);
    }
  }

  lemma EndsWithLast(a: seq<W128>, b: seq<W128>)
    ensures Last(a + b, |b|) == b
  {
  }

  /** The bulk fill and the refill of the state, for the recurrence of SFMT: the words of the
      array follow those that were in the state, and those of the state follow the array. */
  method FillAndRefill(p: Params, state: array<W128>, a: array<W128>, size: nat)
    requires p.Valid() && state.Length == p.n && p.n <= size == a.Length && state != a
    modifies state, a
    ensures var s, r := old(state[..]), Shape(p.n, p.pos1);
      && s + a[..] == Extend(r, Rule(p), s, size)
      && state[..] == Last(Extend(r, Rule(p), s, size + p.n), p.n)
    ensures Generated(p, old(state[..]) + a[..] + state[..])
  {
    hide Next, Rule, Generated, Extend;
    ghost var s := state[..];
    var r := Shape(p.n, p.pos1);
    GenRandArray(r, Rule(p), state, a, size);
    SfmtGenRandAll(r, Rule(p), state);
    ghost var last := Last(Extend(r, Rule(p), s, size), p.n);
    ExtendTwice(r, Rule(p), s, size, p.n);
    LastOfTwo(Extend(r, Rule(p), s, size), Extend(r, Rule(p), last, p.n), p.n);
    EndsWithLast(s + a[..], Extend(r, Rule(p), last, p.n)[p.n..]);
    ExtendGenerated(p, s, Extend(r, Rule(p), s, size + p.n), size + p.n);
  }
}
