/** The bits that deflate puts out: sixteen at a time into the pending buffer, whose upper part
    holds the symbols of the block that is being written. */
module DeflateOutput {
  import opened Bits
  import opened RollingHash
  import opened Lz77
  import opened LowFirst
  import opened DeflateCode
  import opened DecodingTable
  import opened TreeTables
  import opened DeflateBits

  const BUF_SIZE: nat := 16

  /** A code with its bits in the order they are sent, and their number. */
  datatype CtData = CtData(code: nat, len: nat)

  /** The tree has the codes that belong to the lengths. */
  ghost predicate TreeOf(tree: seq<CtData>, lens: seq<nat>) {
    forall s :: 0 <= s < |lens| && lens[s] > 0 && s < |tree| ==> Holds(tree[s], lens, s)
  }

  ghost predicate Holds(d: CtData, lens: seq<nat>, s: int) {
    0 <= s < |lens| && d.len == lens[s] && d.code < Pow2(d.len) && Digits(d.code, d.len) == CodeOf(lens, s)
  }

  // ----- words

  /** The bits that are waiting and those that are sent fill one word and go on in the next. */
  lemma Filled(buf: nat, valid: nat, value: nat, length: nat)
    requires buf < Pow2(valid) && value < Pow2(length) && valid <= BUF_SIZE && length <= BUF_SIZE
    ensures var x := Or(ShiftLeft(value, valid), buf);
      if valid + length > BUF_SIZE then
        && Digits(buf, valid) + Digits(value, length)
          == Digits(x % 0x1_0000, BUF_SIZE) + Digits(ShiftRight(value, BUF_SIZE - valid), valid + length - BUF_SIZE)
        && ShiftRight(value, BUF_SIZE - valid) < Pow2(valid + length - BUF_SIZE)
      else
        && Digits(buf, valid) + Digits(value, length) == Digits(x % 0x1_0000, valid + length)
        && x % 0x1_0000 == x < Pow2(valid + length)
  {
    hide Or, ShiftLeft, ShiftRight, LowBits, Digits, Val, Pow2;
    var a, d := Digits(buf, valid), Digits(value, length);
    var s := a + d;
    ValDigits(buf, valid);
    ValDigits(value, length);
    ValConcat(a, d);
    OrDisjoint(value, buf, valid);
    DigitsVal(s);
    if valid + length > BUF_SIZE {
      ValSplit(s, BUF_SIZE);
      ValSplit(d, BUF_SIZE - valid);
      assert s[BUF_SIZE..] == d[BUF_SIZE - valid..] && s == s[..BUF_SIZE] + s[BUF_SIZE..];
      LowWordIs(Val(s));
      DigitsVal(s[..BUF_SIZE]);
      DigitsVal(s[BUF_SIZE..]);
    } else {
      Pow2Monotone(valid + length, BUF_SIZE);
      Pow2Values();
      SmallWord(Val(s));
    }
  }

  lemma LowWordIs(x: nat)
    ensures x % 0x1_0000 == LowBits(x, BUF_SIZE)
  {
    Pow2Values();
    RemainderIsLow(x, BUF_SIZE);
  }

  lemma SmallWord(x: nat)
    requires x < 0x1_0000
    ensures x % 0x1_0000 == x
  {
  }

  /** A word is its two bytes, the lower one first. */
  lemma TwoBytes(w: nat)
    requires w < 0x1_0000
    ensures Digits(w, BUF_SIZE) == Digits(w % 256, 8) + Digits(w / 256, 8) && w / 256 < 256
  {
    hide LowBits, ShiftRight, Digits, Val;
    Pow2Values();
    ValDigits(w, BUF_SIZE);
    var s := Digits(w, BUF_SIZE);
    ValSplit(s, 8);
    RemainderIsLow(w, 8);
    DivideIsShift(w, 8);
    DigitsVal(s[..8]);
    DigitsVal(s[8..]);
    assert s == s[..8] + s[8..];
  }

  lemma InBitsPush(s: seq<byte>, b: byte)
    ensures InBits(s + [b]) == InBits(s) + Digits(b, 8)
  {
    InBitsConcat(s, [b]);
    assert InBits([b]) == Digits(b, 8) + InBits([][0..]);
    assert [b][1..] == [];
    assert InBits([b]) == Digits(b, 8) + [];
  }

  lemma WordRange(w: nat, n: nat)
    requires w < Pow2(n) && n <= BUF_SIZE
    ensures w < 0x1_0000
  {
    Pow2Monotone(n, BUF_SIZE);
    Pow2Values();
  }

  lemma ByteRange(w: nat, n: nat)
    requires w < Pow2(n) && n <= 8
    ensures w < 256
  {
    Pow2Monotone(n, 8);
    Pow2Values();
  }

  lemma NoBits(s: seq<bool>)
    ensures s + Digits(0, 0) == s && 0 < Pow2(0)
  {
  }

  lemma NoZeros(s: seq<bool>)
    ensures s + Zeros(0) == s
  {
  }

  lemma NothingPending(s: seq<bool>)
    ensures InBits([]) + s == s
  {
  }

  /** The lowest byte of a number that has more bits. */
  lemma OneByte(x: nat, n: nat)
    requires x < Pow2(n) && n >= 8
    ensures Digits(x, n) == Digits(x % 256, 8) + Digits(x / 256, n - 8) && x / 256 < Pow2(n - 8)
  {
    hide LowBits, ShiftRight, Digits, Val;
    Pow2Values();
    ValDigits(x, n);
    var s := Digits(x, n);
    ValSplit(s, 8);
    RemainderIsLow(x, 8);
    DivideIsShift(x, 8);
    DigitsVal(s[..8]);
    DigitsVal(s[8..]);
    assert s == s[..8] + s[8..];
  }

  /** More digits than a number has are zeros. */
  lemma {:induction false} Padded(x: nat, m: nat, n: nat)
    requires x < Pow2(m)
    ensures Digits(x, m + n) == Digits(x, m) + Zeros(n)
  {
    if m > 0 {
      Padded(x / 2, m - 1, n);
    } else {
      ZeroDigits(n);
    }
  }

  lemma {:induction false} ZeroDigits(n: nat)
    ensures Digits(0, n) == Zeros(n)
  {
    if n > 0 {
      ZeroDigits(n - 1);
      assert Zeros(n) == [false] + Zeros(n - 1);
    }
  }

  class Output {
    const pending_buf: array<byte>
    const lit_bufsize: nat

    var pending: nat
    var bi_buf: nat
    var bi_valid: nat
    /** What has been put out. */
    var taken: seq<byte>

    ghost predicate Valid()
      reads this
    {
      pending <= pending_buf.Length && bi_valid <= BUF_SIZE && bi_buf < Pow2(bi_valid)
    }

    /** All bits that are pending. */
    ghost function Pending(): seq<bool>
      reads this, pending_buf
    {
      InBits(if pending <= pending_buf.Length then pending_buf[..pending] else []) + Digits(bi_buf, bi_valid)
    }

    /** All bits that have been sent. */
    ghost function Sent(): seq<bool>
      reads this, pending_buf
    {
      InBits(taken) + Pending()
    }

    constructor (pending_buf: array<byte>, lit_bufsize: nat)
      ensures Valid() && Sent() == Pending() == [] && pending == bi_valid == 0 && taken == []
      ensures this.pending_buf == pending_buf && this.lit_bufsize == lit_bufsize
    {
      this.pending_buf, this.lit_bufsize := pending_buf, lit_bufsize;
      pending, bi_buf, bi_valid, taken := 0, 0, 0, [];
    }

    lemma PendingSize()
      requires Valid()
      ensures |Pending()| == 8 * pending + bi_valid
    {
      InBitsSize(pending_buf[..pending]);
    }

    method PutByte(b: byte)
      requires pending < pending_buf.Length
      modifies this`pending, pending_buf
      ensures pending == old(pending) + 1 && pending_buf[..pending] == old(pending_buf[..pending]) + [b]
      ensures pending_buf[pending..] == old(pending_buf[pending + 1..])
    {
      pending_buf[pending] := b;
      pending := pending + 1;
    }

    method PutShort(w: nat)
      requires pending + 2 <= pending_buf.Length && w < 0x1_0000
      modifies this`pending, pending_buf
      ensures pending == old(pending) + 2
      ensures InBits(pending_buf[..pending]) == old(InBits(pending_buf[..pending])) + Digits(w, BUF_SIZE)
      ensures pending_buf[pending..] == old(pending_buf[pending + 2..])
    {
      hide Digits, InBits;
      TwoBytes(w);
      InBitsPush(pending_buf[..pending], w % 256);
      ghost var rest := pending_buf[pending + 1..];
      PutByte(w % 256);
      InBitsPush(pending_buf[..pending], w / 256);
      assert rest[1..] == old(pending_buf[pending + 2..]);
      PutByte(w / 256);
    }

    /** Sends a value with a number of bits. What is in the buffer from `limit` on is not touched
        if the bits end before it. */
    method SendBits(value: nat, length: nat, ghost limit: nat)
      requires Valid() && value < Pow2(length) && length <= BUF_SIZE
      requires |Pending()| + length <= 8 * limit && limit <= pending_buf.Length
      modifies this`pending, this`bi_buf, this`bi_valid, pending_buf
      ensures Valid() && Pending() == old(Pending()) + Digits(value, length)
      ensures pending_buf[limit..] == old(pending_buf[limit..])
    {
      hide Digits, InBits, Or, ShiftLeft, ShiftRight, Pow2;
      PendingSize();
      Filled(bi_buf, bi_valid, value, length);
      ghost var front := InBits(pending_buf[..pending]);
      ConcatAssociative(front, Digits(bi_buf, bi_valid), Digits(value, length));
      var x := Or(ShiftLeft(value, bi_valid), bi_buf) % 0x1_0000;
      if bi_valid > BUF_SIZE - length {
        ghost var high := pending_buf[pending + 2..];
        assert pending_buf[limit..] == high[limit - (pending + 2)..];
        PutShort(x);
        bi_buf := ShiftRight(value, BUF_SIZE - bi_valid);
        bi_valid := bi_valid + length - BUF_SIZE;
        ConcatAssociative(front, Digits(x, BUF_SIZE), Digits(bi_buf, bi_valid));
        assert pending_buf[limit..] == high[limit - pending..];
      } else {
        bi_buf := x;
        bi_valid := bi_valid + length;
      }
    }

    /** Sends the code of a symbol. */
    method SendCode(tree: seq<CtData>, s: nat, ghost lens: seq<nat>, ghost limit: nat)
      requires Valid() && TreeOf(tree, lens) && s < |tree| && HasCode(lens, s) && lens[s] <= MAXBITS
      requires |Pending()| + lens[s] <= 8 * limit && limit <= pending_buf.Length
      modifies this`pending, this`bi_buf, this`bi_valid, pending_buf
      ensures Valid() && Pending() == old(Pending()) + SymbolBits(lens, s)
      ensures pending_buf[limit..] == old(pending_buf[limit..])
    {
      hide Digits, Pow2, CodeOf, InBits;
      assert Holds(tree[s], lens, s);
      SendBits(tree[s].code, tree[s].len, limit);
    }

    /** Sends the extra bits of a length or a distance, if it has any. */
    method SendExtra(value: nat, extra: nat, ghost limit: nat)
      requires Valid() && value < Pow2(extra) && extra <= BUF_SIZE
      requires |Pending()| + extra <= 8 * limit && limit <= pending_buf.Length
      modifies this`pending, this`bi_buf, this`bi_valid, pending_buf
      ensures Valid() && Pending() == old(Pending()) + Digits(value, extra)
      ensures pending_buf[limit..] == old(pending_buf[limit..])
    {
      if extra != 0 {
        SendBits(value, extra, limit);
      } else {
        assert Pending() == Pending() + [];
      }
    }

    /** Sends the code of a length with its extra bits. */
    method SendLength(lc: nat, ltree: seq<CtData>, k: Coding, ghost limit: nat)
      requires Valid() && k.Valid() && TreeOf(ltree, k.llens) && |ltree| >= LITERALS + 1 + LENGTH_CODES && lc < 256
      requires HasCode(k.llens, LITERALS + 1 + k.LengthCode(lc + MIN_MATCH)) && limit <= pending_buf.Length
      requires |Pending()| + |LengthBits(k, lc + MIN_MATCH)| <= 8 * limit
      modifies this`pending, this`bi_buf, this`bi_valid, pending_buf
      ensures Valid() && Pending() == old(Pending()) + LengthBits(k, lc + MIN_MATCH)
      ensures pending_buf[limit..] == old(pending_buf[limit..])
    {
      hide TreeOf, Digits, CodeOf, Pow2, LengthTables, DistTables, InBits, Coding.Valid, SymbolBits, LengthExtraBits;
      hide LengthOfCode;
      ghost var len := lc + MIN_MATCH;
      LengthParts(k, len);
      var code := k.length_code[lc];
      LengthBase(k, code, len);
      CodeSize(k, LITERALS + 1 + code);
      ConcatAssociative(Pending(), SymbolBits(k.llens, LITERALS + 1 + code), LengthExtraBits(code, len));
      SendCode(ltree, LITERALS + 1 + code, k.llens, limit);
      var extra := EXTRA_LBITS[code];
      SendExtra(if extra != 0 then lc - k.base_length[code] else 0, extra, limit);
    }

    /** Sends the code of a distance with its extra bits. */
    method SendDistance(dist: nat, dtree: seq<CtData>, k: Coding, ghost limit: nat)
      requires Valid() && k.Valid() && TreeOf(dtree, k.dlens) && |dtree| >= D_CODES && 1 <= dist <= FARTHEST
      requires HasCode(k.dlens, k.DistCode(dist)) && limit <= pending_buf.Length
      requires |Pending()| + |DistanceBits(k, dist)| <= 8 * limit
      modifies this`pending, this`bi_buf, this`bi_valid, pending_buf
      ensures Valid() && Pending() == old(Pending()) + DistanceBits(k, dist)
      ensures pending_buf[limit..] == old(pending_buf[limit..])
    {
      hide TreeOf, Digits, CodeOf, Pow2, LengthTables, DistTables, InBits, Coding.Valid, SymbolBits, DistExtraBits;
      hide DistOfCode, DistIndex;
      DistParts(k, dist);
      var code := k.dist_code[DistIndex(dist - 1)];
      DistBase(k, code, dist);
      DistSize(k, code);
      ConcatAssociative(Pending(), SymbolBits(k.dlens, code), DistExtraBits(code, dist));
      SendCode(dtree, code, k.dlens, limit);
      var extra := EXTRA_DBITS[code];
      SendExtra(if extra != 0 then dist - 1 - k.base_dist[code] else 0, extra, limit);
    }

    /** Sends a literal or a match. */
    method SendToken(dist: nat, lc: nat, ltree: seq<CtData>, dtree: seq<CtData>, k: Coding, ghost t: Token,
            ghost limit: nat)
      requires Valid() && k.Valid() && TreeOf(ltree, k.llens) && |ltree| >= LITERALS + 1 + LENGTH_CODES && lc < 256
      requires TreeOf(dtree, k.dlens) && |dtree| >= D_CODES
      requires t == (if dist == 0 then Literal(Octet(lc)) else Match(dist, lc + MIN_MATCH))
      requires Sendable(t, FARTHEST) && HasCodes(k, t)
      requires |Pending()| + |TokenBits(k, t)| <= 8 * limit && limit <= pending_buf.Length
      modifies this`pending, this`bi_buf, this`bi_valid, pending_buf
      ensures Valid() && Pending() == old(Pending()) + TokenBits(k, t)
      ensures pending_buf[limit..] == old(pending_buf[limit..])
    {
      hide TreeOf, LengthBits, DistanceBits, LengthTables, DistTables, InBits, SymbolBits, LengthExtraBits;
      if dist == 0 {
        SmallMod(lc);
        OctetNat(lc);
        LiteralSize(k, lc);
        SendCode(ltree, lc, k.llens, limit);
      } else {
        MatchParts(k, dist, lc + MIN_MATCH);
        ConcatAssociative(Pending(), LengthBits(k, lc + MIN_MATCH), DistanceBits(k, dist));
        SendLength(lc, ltree, k, limit);
        SendDistance(dist, dtree, k, limit);
      }
    }

    /** Moves whole bytes out of the bit buffer. */
    method BiFlush()
      requires Valid() && |Pending()| <= 8 * pending_buf.Length
      modifies this`pending, this`bi_buf, this`bi_valid, pending_buf
      ensures Valid() && Pending() == old(Pending()) && bi_valid < 8
      ensures (old(bi_valid) < 8 ==> bi_valid == old(bi_valid))
    {
      hide Digits, InBits, ShiftRight, LowBits, Pow2;
      PendingSize();
      ghost var front := InBits(pending_buf[..pending]);
      if bi_valid == BUF_SIZE {
        WordRange(bi_buf, bi_valid);
        ConcatAssociative(front, Digits(bi_buf, BUF_SIZE), Digits(0, 0));
        NoBits(front + Digits(bi_buf, BUF_SIZE));
        PutShort(bi_buf);
        bi_buf, bi_valid := 0, 0;
      } else if bi_valid >= 8 {
        OneByte(bi_buf, bi_valid);
        ConcatAssociative(front, Digits(bi_buf % 256, 8), Digits(bi_buf / 256, bi_valid - 8));
        InBitsPush(pending_buf[..pending], bi_buf % 256);
        PutByte(bi_buf % 256);
        bi_buf := bi_buf / 256;
        bi_valid := bi_valid - 8;
      }
    }

    /** Moves all bits out of the bit buffer, with zeros up to the end of a byte. */
    method BiWindup()
      requires Valid() && |Pending()| + 7 <= 8 * pending_buf.Length
      modifies this`pending, this`bi_buf, this`bi_valid, pending_buf
      ensures Valid() && Pending() == old(Pending()) + Zeros((BUF_SIZE - old(bi_valid)) % 8) && bi_valid == 0
    {
      hide Digits, InBits, Pow2, Zeros;
      PendingSize();
      ghost var front := InBits(pending_buf[..pending]);
      ghost var bits := Digits(bi_buf, bi_valid);
      if bi_valid > 8 {
        Padded(bi_buf, bi_valid, BUF_SIZE - bi_valid);
        WordRange(bi_buf, bi_valid);
        ConcatAssociative(front, bits, Zeros(BUF_SIZE - bi_valid));
        PutShort(bi_buf);
      } else if bi_valid > 0 {
        Padded(bi_buf, bi_valid, 8 - bi_valid);
        ByteRange(bi_buf, bi_valid);
        ConcatAssociative(front, bits, Zeros(8 - bi_valid));
        InBitsPush(pending_buf[..pending], bi_buf);
        PutByte(bi_buf);
      } else {
        NoBits(front);
        NoZeros(front + bits);
      }
      bi_buf, bi_valid := 0, 0;
      NoBits(InBits(pending_buf[..pending]));
    }

    /** Puts out all that is pending but for less than a byte. */
    method FlushPending()
      requires Valid() && |Pending()| <= 8 * pending_buf.Length
      modifies this`pending, this`bi_buf, this`bi_valid, this`taken, pending_buf
      ensures Valid() && Sent() == old(Sent()) && pending == 0 && bi_valid < 8
      ensures old(bi_valid) == 0 ==> bi_valid == 0
    {
      hide Digits, InBits, Pow2;
      BiFlush();
      ghost var bits := Digits(bi_buf, bi_valid);
      InBitsConcat(taken, pending_buf[..pending]);
      ConcatAssociative(InBits(taken), InBits(pending_buf[..pending]), bits);
      NothingPending(bits);
      taken := taken + pending_buf[..pending];
      pending := 0;
      assert pending_buf[..pending] == [];
    }

    /** Reads the next symbol and sends it. */
    method SendSymbol(sx0: nat, ltree: seq<CtData>, dtree: seq<CtData>, k: Coding, ghost syms: seq<nat>,
            ghost before: seq<bool>) returns (sx: nat)
      requires Valid() && k.Valid() && TreeOf(ltree, k.llens) && |ltree| >= LITERALS + 1 + LENGTH_CODES
      requires TreeOf(dtree, k.dlens) && |dtree| >= D_CODES && |syms| % 3 == 0 && sx0 % 3 == 0 && sx0 + 3 <= |syms|
      requires lit_bufsize + |syms| <= pending_buf.Length && Writable(k, Tokens(syms))
      requires pending_buf[lit_bufsize + sx0..lit_bufsize + |syms|] == syms[sx0..]
      requires InPlace(|before|, lit_bufsize, k, Tokens(syms))
      requires Pending() == before + TokensBits(k, Tokens(syms[..sx0]))
      modifies this`pending, this`bi_buf, this`bi_valid, pending_buf
      ensures Valid() && sx == sx0 + 3 && Pending() == before + TokensBits(k, Tokens(syms[..sx]))
      ensures pending_buf[lit_bufsize + sx..] == old(pending_buf[lit_bufsize + sx..])
    {
      hide TreeOf, InBits, Writable, InPlace, TokensBits, TokenBits, Tokens, Coding.Valid, HasCodes, Digits, TokenOf;
      sx := sx0;
      OneMore(k, |before|, lit_bufsize, syms, sx, before);
      ghost var now := pending_buf[lit_bufsize + sx..lit_bufsize + |syms|];
      assert now[0] == syms[sx] && now[1] == syms[sx + 1] && now[2] == syms[sx + 2];
      var dist: nat := pending_buf[lit_bufsize + sx];
      sx := sx + 1;
      var high: nat := pending_buf[lit_bufsize + sx];
      dist := dist + 256 * high;
      sx := sx + 1;
      var lc := pending_buf[lit_bufsize + sx];
      sx := sx + 1;
      ghost var t := TokenOf(syms[sx0], syms[sx0 + 1], syms[sx0 + 2]);
      TokenIs(syms[sx0], syms[sx0 + 1], lc);
      SendToken(dist, lc, ltree, dtree, k, t, lit_bufsize + sx);
    }

    lemma UnreadIs(buf: seq<byte>, syms: seq<nat>, sx: nat, sym_next: nat)
      requires lit_bufsize + sym_next <= |buf| == pending_buf.Length && sx <= sym_next
      requires syms == buf[lit_bufsize..lit_bufsize + sym_next]
      requires pending_buf[lit_bufsize + sx..] == buf[lit_bufsize + sx..]
      ensures pending_buf[lit_bufsize + sx..lit_bufsize + sym_next] == syms[sx..]
    {
      assert pending_buf[lit_bufsize + sx..lit_bufsize + sym_next] == pending_buf[lit_bufsize + sx..][..sym_next - sx];
    }

    /** Sends the block whose symbols lie in the upper part of the pending buffer. Each symbol is
        read before the bits that are sent reach it. */
    method CompressBlock(sym_next: nat, ltree: seq<CtData>, dtree: seq<CtData>, k: Coding, ghost syms: seq<nat>)
      requires Valid() && k.Valid() && TreeOf(ltree, k.llens) && |ltree| >= LITERALS + 1 + LENGTH_CODES
      requires TreeOf(dtree, k.dlens) && |dtree| >= D_CODES
      requires sym_next % 3 == 0 && lit_bufsize + sym_next <= pending_buf.Length
      requires syms == pending_buf[lit_bufsize..lit_bufsize + sym_next] && Writable(k, Tokens(syms))
      requires InPlace(|Pending()|, lit_bufsize, k, Tokens(syms))
      requires |Pending()| + |BlockBits(k, Tokens(syms))| <= 8 * pending_buf.Length
      modifies this`pending, this`bi_buf, this`bi_valid, pending_buf
      ensures Valid() && Pending() == old(Pending()) + BlockBits(k, Tokens(syms))
    {
      hide TreeOf, LengthTables, DistTables, InBits, Writable, InPlace, TokensBits, TokenBits, Tokens, SymbolBits;
      hide Coding.Valid, BlockBits, HasCodes, Pow2, Digits, TokenOf;
      ghost var before := Pending();
      ghost var tokens := Tokens(syms);
      var sx := 0;
      NothingSent(k, before, syms);
      while sx < sym_next
        invariant sx % 3 == 0 && sx <= sym_next && Valid()
        invariant Pending() == before + TokensBits(k, Tokens(syms[..sx]))
        invariant pending_buf[lit_bufsize + sx..] == old(pending_buf[lit_bufsize + sx..])
      {
        UnreadIs(old(pending_buf[..]), syms, sx, sym_next);
        sx := SendSymbol(sx, ltree, dtree, k, syms, before);
      }
      assert syms[..sx] == syms;
      ConcatAssociative(before, TokensBits(k, tokens), SymbolBits(k.llens, END_BLOCK));
      EndSize(k, tokens);
      SendCode(ltree, END_BLOCK, k.llens, pending_buf.Length);
    }
  }

  function LengthBits(k: Coding, len: nat): seq<bool> {
    SymbolBits(k.llens, LITERALS + 1 + k.LengthCode(len)) + LengthExtraBits(k.LengthCode(len), len)
  }

  lemma MatchParts(k: Coding, dist: nat, len: nat)
    ensures TokenBits(k, Match(dist, len)) == LengthBits(k, len) + DistanceBits(k, dist)
  {
    hide SymbolBits, LengthExtraBits, DistanceBits;
    ConcatAssociative(SymbolBits(k.llens, LITERALS + 1 + k.LengthCode(len)), LengthExtraBits(k.LengthCode(len), len),
                      DistanceBits(k, dist));
  }

  lemma TokenIs(lo: nat, hi: nat, lc: nat)
    ensures var dist := lo + 256 * hi;
      TokenOf(lo, hi, lc) == if dist == 0 then Literal(Octet(lc)) else Match(dist, lc + MIN_MATCH)
  {
  }

  lemma LengthBase(k: Coding, c: nat, len: nat)
    requires k.Valid() && LengthOfCode(c, len)
    ensures c < LENGTH_CODES && c < |k.base_length| && EXTRA_LBITS[c] <= 5
    ensures (EXTRA_LBITS[c] != 0 ==> k.base_length[c] + MIN_MATCH == LBASE[c])
    ensures 0 <= len - LBASE[c] < Pow2(EXTRA_LBITS[c]) && (EXTRA_LBITS[c] == 0 ==> len == LBASE[c])
    ensures |LengthExtraBits(c, len)| == EXTRA_LBITS[c]
    ensures LengthExtraBits(c, len) == Digits(len - LBASE[c], EXTRA_LBITS[c])
  {
    hide DistTables;
  }

  lemma DistBase(k: Coding, c: nat, dist: nat)
    requires k.Valid() && DistOfCode(c, dist)
    ensures c < D_CODES && c < |k.base_dist| && EXTRA_DBITS[c] <= 13 && k.base_dist[c] + 1 == DBASE[c]
    ensures 0 <= dist - DBASE[c] < Pow2(EXTRA_DBITS[c]) && (EXTRA_DBITS[c] == 0 ==> dist == DBASE[c])
    ensures |DistExtraBits(c, dist)| == EXTRA_DBITS[c]
    ensures DistExtraBits(c, dist) == Digits(dist - DBASE[c], EXTRA_DBITS[c])
  {
    hide LengthTables;
  }

  lemma CodeSize(k: Coding, s: nat)
    requires k.Valid() && s < |k.llens|
    ensures |SymbolBits(k.llens, s)| == k.llens[s] <= MAXBITS
  {
  }

  lemma DistSize(k: Coding, s: nat)
    requires k.Valid() && s < |k.dlens|
    ensures |SymbolBits(k.dlens, s)| == k.dlens[s] <= MAXBITS
  {
  }

  lemma LiteralSize(k: Coding, lc: nat)
    requires k.Valid() && lc < 256
    ensures lc < |k.llens| && |SymbolBits(k.llens, lc)| == k.llens[lc] <= MAXBITS
  {
  }

  lemma EndSize(k: Coding, tokens: seq<Token>)
    requires k.Valid() && Writable(k, tokens)
    ensures HasCode(k.llens, END_BLOCK) && |SymbolBits(k.llens, END_BLOCK)| == k.llens[END_BLOCK] <= MAXBITS
    ensures BlockBits(k, tokens) == TokensBits(k, tokens) + SymbolBits(k.llens, END_BLOCK)
  {
  }

  // ----- in place

  /** Once `j` symbols have been sent, the bits end before the symbols that have not been
      read. */
  ghost predicate Behind(start: nat, n: nat, k: Coding, tokens: seq<Token>, j: int) {
    0 <= j <= |tokens| && start + |TokensBits(k, tokens[..j])| <= 8 * (n + 3 * j)
  }

  ghost predicate InPlace(start: nat, n: nat, k: Coding, tokens: seq<Token>) {
    forall j :: 0 <= j <= |tokens| ==> Behind(start, n, k, tokens, j)
  }

  lemma {:induction false} TokensPart(syms: seq<nat>, sx: nat)
    requires |syms| % 3 == 0 && sx % 3 == 0 && sx <= |syms|
    ensures |Tokens(syms)| == |syms| / 3 && Tokens(syms[..sx]) == Tokens(syms)[..sx / 3]
    decreases |syms|
  {
    if sx == |syms| {
      assert syms[..sx] == syms;
      if sx > 0 { TokensPart(syms[..sx - 3], 0); }
    } else {
      var m := |syms| - 3;
      TokensPart(syms[..m], sx);
      assert syms[..m][..sx] == syms[..sx];
    }
  }

  lemma NothingSent(k: Coding, before: seq<bool>, syms: seq<nat>)
    ensures before + TokensBits(k, Tokens(syms[..0])) == before
  {
  }

  /** The next symbol. */
  lemma OneMore(k: Coding, start: nat, n: nat, syms: seq<nat>, sx: nat, before: seq<bool>)
    requires |syms| % 3 == 0 && sx % 3 == 0 && sx + 3 <= |syms| && Writable(k, Tokens(syms))
    requires InPlace(start, n, k, Tokens(syms))
    ensures var t := TokenOf(syms[sx], syms[sx + 1], syms[sx + 2]);
      && Sendable(t, FARTHEST) && HasCodes(k, t)
      && TokensBits(k, Tokens(syms[..sx + 3])) == TokensBits(k, Tokens(syms[..sx])) + TokenBits(k, t)
      && start + |TokensBits(k, Tokens(syms[..sx + 3]))| <= 8 * (n + sx + 3)
      && before + TokensBits(k, Tokens(syms[..sx + 3]))
        == before + TokensBits(k, Tokens(syms[..sx])) + TokenBits(k, t)
  {
    hide TokenBits, HasCodes, TokenOf, Tokens, TokensBits, Sendable;
    var t := TokenOf(syms[sx], syms[sx + 1], syms[sx + 2]);
    NextToken(syms, sx);
    TokensPart(syms, sx + 3);
    assert Behind(start, n, k, Tokens(syms), (sx + 3) / 3);
    BitsPush(k, Tokens(syms[..sx]), t);
    ConcatAssociative(before, TokensBits(k, Tokens(syms[..sx])), TokenBits(k, t));
  }

  lemma NextToken(syms: seq<nat>, sx: nat)
    requires |syms| % 3 == 0 && sx % 3 == 0 && sx + 3 <= |syms|
    ensures var t := TokenOf(syms[sx], syms[sx + 1], syms[sx + 2]);
      Tokens(syms[..sx + 3]) == Tokens(syms[..sx]) + [t] && sx / 3 < |Tokens(syms)| && Tokens(syms)[sx / 3] == t
  {
    hide TokenOf, Tokens;
    TokensPart(syms, sx + 3);
    TokensPart(syms, sx);
    assert syms[..sx + 3] == syms[..sx] + [syms[sx], syms[sx + 1], syms[sx + 2]];
    TokensPush(syms[..sx], syms[sx], syms[sx + 1], syms[sx + 2]);
    assert Tokens(syms)[sx / 3] == Tokens(syms[..sx + 3])[sx / 3];
  }

  lemma BitsPush(k: Coding, tokens: seq<Token>, t: Token)
    ensures TokensBits(k, tokens + [t]) == TokensBits(k, tokens) + TokenBits(k, t)
  {
    assert (tokens + [t])[..|tokens|] == tokens;
  }
}
