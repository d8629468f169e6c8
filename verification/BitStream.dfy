/** Bit stream input and output, most significant bit first. */
module BitStream {
  import opened Bits
  import opened Wrappers

  /** The output side: at most 32 bits are held in `bsBuff`, left aligned, before
      whole bytes move to `zbits`. Of the ghost fields, `taken` is the bytes that
      were already handed over and `pending` the bits that `bsBuff` holds. */
  class BitWriter {
    var bsBuff: word
    var bsLive: int
    var zbits: seq<byte>
    ghost var taken: seq<byte>
    ghost var pending: seq<bool>

    ghost predicate Valid()
      reads this
    {
      Buffered(bsBuff, bsLive, pending)
    }

    /** Everything ever put. */
    ghost function Bits(): seq<bool>
      reads this
    {
      BytesToBits(taken + zbits) + pending
    }

    constructor ()
      ensures Valid() && Bits() == [] && bsLive == 0 && zbits == [] && taken == []
    {
      bsBuff, bsLive, zbits, taken, pending := 0, 0, [], [], [];
      new;
      ToNatZeros(32);
      assert [] + Zeros(32) == Zeros(32);
    }

    /** One byte leaves the left end of the buffer. When fewer than 8 bits were
        held, zero bits fill it up and `bsLive` becomes negative. */
    method FlushByte()
      requires Valid() && bsLive > 0
      modifies this
      ensures bsLive == old(bsLive) - 8 && taken == old(taken)
      ensures bsLive >= 0 ==> Valid() && Bits() == old(Bits())
      ensures bsLive < 0 ==> pending == [] && Bits() == old(Bits()) + Zeros(-bsLive)
    {
      ghost var p := PadByte(bsBuff, pending);
      ShiftOutByte(bsBuff, p);
      AppendByte(taken + zbits, ToNat(p[..8]), p);
      var c: byte := ShiftRight(bsBuff, 24);
      zbits := zbits + [c];
      bsBuff := Truncate(ShiftLeft(bsBuff, 8));
      bsLive := bsLive - 8;
      pending := p[8..];
      assert taken + zbits == old(taken + zbits) + [c];
    }

    /** Whole bytes leave the buffer, so that fewer than 8 bits stay. */
    method NeedW()
      requires Valid()
      modifies this
      ensures Valid() && Bits() == old(Bits()) && taken == old(taken)
      ensures bsLive < 8
    {
      while bsLive >= 8
        invariant Valid() && Bits() == old(Bits()) && taken == old(taken)
        decreases bsLive
      {
        FlushByte();
      }
    }

    /** Puts the low `n` bits of `v`. */
    method Put(n: nat, v: nat)
      requires Valid() && n <= 24 && v < Pow2(n)
      modifies this
      ensures Valid() && Bits() == old(Bits()) + BitsOf(v, n) && taken == old(taken)
    {
      NeedW();
      InsertBits(bsBuff, pending, v, n);
      ConcatAssociative(BytesToBits(taken + zbits), pending, BitsOf(v, n));
      bsBuff := Or(bsBuff, ShiftLeft(v, 32 - bsLive - n));
      bsLive := bsLive + n;
      pending := pending + BitsOf(v, n);
    }

    method PutUInt32(u: word)
      requires Valid()
      modifies this
      ensures Valid() && taken == old(taken)
      ensures Bits() == old(Bits()) + WordBits(u)
    {
      PutUChar(LowBits(ShiftRight(u, 24), 8));
      PutUChar(LowBits(ShiftRight(u, 16), 8));
      PutUChar(LowBits(ShiftRight(u, 8), 8));
      PutUChar(LowBits(u, 8));
      AppendFour(old(Bits()), BitsOf(LowBits(ShiftRight(u, 24), 8), 8), BitsOf(LowBits(ShiftRight(u, 16), 8), 8),
                 BitsOf(LowBits(ShiftRight(u, 8), 8), 8), BitsOf(LowBits(u, 8), 8));
    }

    method PutUChar(c: byte)
      requires Valid()
      modifies this
      ensures Valid() && Bits() == old(Bits()) + BitsOf(c, 8) && taken == old(taken)
    {
      Pow2Values();
      Put(8, c);
    }

    /** Ends the stream: a last partial byte is filled up with zero bits. */
    method FinishWrite()
      requires Valid()
      modifies this
      ensures taken == old(taken) && bsLive <= 0
      ensures exists k: nat :: k < 8 && BytesToBits(taken + zbits) == old(Bits()) + Zeros(k)
    {
      ghost var b, k: nat := Bits(), 0;
      while bsLive > 0
        invariant bsLive >= 0 ==> Valid() && Bits() == b && k == 0
        invariant bsLive < 0 ==> pending == [] && Bits() == b + Zeros(k)
        invariant taken == old(taken) && k < 8
        decreases bsLive
      {
        k := if bsLive < 8 then 8 - bsLive else 0;
        FlushByte();
      }
      EndOfBits(BytesToBits(taken + zbits), pending, b, k);
    }

    /** Up to `n` bytes are handed to the caller. */
    method Copy(n: nat) returns (out: seq<byte>)
      modifies this`zbits, this`taken
      ensures taken == old(taken) + out && out + zbits == old(zbits)
      ensures taken + zbits == old(taken + zbits)
      ensures |out| == if n < |old(zbits)| then n else |old(zbits)|
    {
      var k := if n < |zbits| then n else |zbits|;
      out := zbits[..k];
      taken := taken + out;
      zbits := zbits[k..];
      assert taken + zbits == old(taken + zbits);
    }
  }

  /** A left-aligned buffer: `pending`, and zero bits after it. */
  ghost predicate Buffered(buff: word, live: int, pending: seq<bool>) {
    live == |pending| <= 32 && buff == ToNat(pending + Zeros(32 - |pending|))
  }

  /** The bits of `v` that a 32-bit word keeps. */
  function Truncate(v: nat): word {
    Pow2Values();
    LowBits(v, 32)
  }

  lemma ShiftOutByte(buff: word, p: seq<bool>)
    requires |p| >= 8 && Buffered(buff, |p|, p)
    ensures ShiftRight(buff, 24) == ToNat(p[..8]) < 256
    ensures Buffered(Truncate(ShiftLeft(buff, 8)), |p| - 8, p[8..])
  {
    var head, tail := p[..8], p[8..] + Zeros(32 - |p|);
    Pow2Values();
    assert p + Zeros(32 - |p|) == head + tail;
    ToNatConcat(head, tail);
    ToNatAppendZeros(head + tail, 8);
    ConcatAssociative(head, tail, Zeros(8));
    ToNatConcat(head, tail + Zeros(8));
    assert tail + Zeros(8) == p[8..] + Zeros(32 - |p[8..]|);
  }

  lemma AppendByte(bytes: seq<byte>, c: byte, p: seq<bool>)
    requires |p| >= 8 && c == ToNat(p[..8])
    ensures BytesToBits(bytes + [c]) + p[8..] == BytesToBits(bytes) + p
  {
    BytesToBitsConcat(bytes, [c]);
    BitsOfToNat(p[..8]);
    assert BytesToBits([c]) == BitsOf(c, 8) + [];
    assert p == p[..8] + p[8..];
  }

  lemma PadByte(buff: word, p: seq<bool>) returns (q: seq<bool>)
    requires Buffered(buff, |p|, p)
    ensures q == p + Zeros(if |p| < 8 then 8 - |p| else 0)
    ensures Buffered(buff, |q|, q)
  {
    q := p + Zeros(if |p| < 8 then 8 - |p| else 0);
    assert q + Zeros(32 - |q|) == p + Zeros(32 - |p|);
  }

  lemma EndOfBits(bytes: seq<bool>, pending: seq<bool>, b: seq<bool>, k: nat)
    requires k < 8 && pending == [] && (bytes + pending == b + Zeros(k) || (k == 0 && bytes + pending == b))
    ensures exists k: nat :: k < 8 && bytes == b + Zeros(k)
  {
    assert bytes + pending == bytes;
    assert b + Zeros(0) == b;
  }

  lemma InsertBits(buff: word, p: seq<bool>, v: nat, n: nat)
    requires v < Pow2(n) && |p| + n <= 32 && Buffered(buff, |p|, p)
    ensures Or(buff, ShiftLeft(v, 32 - |p| - n)) < 0x1_0000_0000
    ensures Buffered(Or(buff, ShiftLeft(v, 32 - |p| - n)), |p| + n, p + BitsOf(v, n))
  {
    var y, k := BitsOf(v, n), 32 - |p| - n;
    assert ToNat(y + Zeros(k)) == ShiftLeft(v, k) by {
      ToNatBitsOf(v, n);
      ToNatAppendZeros(y, k);
    }
    OrConcat(p, y + Zeros(k));
    ConcatAssociative(p, y, Zeros(k));
    assert Pow2(32) == 0x1_0000_0000 by { Pow2Values(); }
  }

  /** The 32 bits of a word as it is written: four bytes, high byte first. */
  function WordBits(u: word): (s: seq<bool>)
    ensures |s| == 32
  {
    BitsOf(LowBits(ShiftRight(u, 24), 8), 8) + BitsOf(LowBits(ShiftRight(u, 16), 8), 8)
    + BitsOf(LowBits(ShiftRight(u, 8), 8), 8) + BitsOf(LowBits(u, 8), 8)
  }

  lemma AppendFour(s: seq<bool>, a: seq<bool>, b: seq<bool>, c: seq<bool>, d: seq<bool>)
    ensures s + a + b + c + d == s + (a + b + c + d)
  {
  }

  /** The input side: `bsBuff` holds at least the `bsLive` bits that were read
      from `input[..next]` and not yet consumed, right aligned; older bits stay
      above them until they fall off the left end of the word. */
  class BitReader {
    const input: seq<byte>
    var next: nat
    var bsBuff: word
    var bsLive: int

    ghost predicate Valid()
      reads this
    {
      next <= |input| && 0 <= bsLive <= 31
    }

    /** The bits that have not been consumed. */
    ghost function Remaining(): seq<bool>
      reads this
      requires Valid()
    {
      BitsOf(bsBuff, 32)[32 - bsLive..] + BytesToBits(input[next..])
    }

    constructor (input: seq<byte>)
      ensures Valid() && Remaining() == BytesToBits(input) && this.input == input
    {
      this.input := input;
      next, bsBuff, bsLive := 0, 0, 0;
    }

    /** Moves one byte of input into the buffer. */
    method Fill()
      requires Valid() && next < |input| && bsLive <= 23
      modifies this
      ensures Valid() && Remaining() == old(Remaining()) && bsLive == old(bsLive) + 8
      ensures next == old(next) + 1
    {
      ShiftIn(bsBuff, input[next]);
      Supply(BitsOf(bsBuff, 32), BitsOf(input[next], 8), bsLive, BytesToBits(input[next + 1..]));
      assert input[next..][1..] == input[next + 1..];
      bsBuff := Or(Truncate(ShiftLeft(bsBuff, 8)), input[next]);
      bsLive := bsLive + 8;
      next := next + 1;
    }

    /** Reads `n` bits as a number, when the input still holds that many. */
    method GetBits(n: nat) returns (r: Result<nat>)
      requires Valid() && 1 <= n <= 24
      modifies this
      ensures Valid() && Agrees(r, Remaining(), TakeBits(old(Remaining()), n))
    {
      while bsLive < n
        invariant Valid() && Remaining() == old(Remaining())
        decreases n - bsLive
      {
        if next == |input| {
          return Failure(UnexpectedEnd);
        }
        Fill();
      }
      Extract(bsBuff, bsLive, n);
      Consume(BitsOf(bsBuff, 32), bsLive, n, BytesToBits(input[next..]));
      r := Success(LowBits(ShiftRight(bsBuff, bsLive - n), n));
      bsLive := bsLive - n;
    }
  }

  /** Reading the first `n` bits of `bits` as a number. */
  function TakeBits(bits: seq<bool>, n: nat): (p: Parse<nat>)
    ensures p.Ok? ==> |p.rest| + n == |bits|
  {
    if n <= |bits| then Ok(ToNat(bits[..n]), bits[n..]) else Fail(UnexpectedEnd)
  }

  lemma TakeBitsOf(v: nat, n: nat, rest: seq<bool>)
    requires v < Pow2(n)
    ensures TakeBits(BitsOf(v, n) + rest, n) == Ok(v, rest)
  {
    ToNatBitsOf(v, n);
    assert (BitsOf(v, n) + rest)[..n] == BitsOf(v, n);
    assert (BitsOf(v, n) + rest)[n..] == rest;
  }

  lemma TakeOneBit(bits: seq<bool>)
    requires bits != []
    ensures TakeBits(bits, 1) == Ok(if bits[0] then 1 else 0, bits[1..])
  {
    assert bits[..1] == [] + [bits[0]];
    ToNatSnoc([], bits[0]);
  }

  lemma Supply(b: seq<bool>, c: seq<bool>, live: nat, rest: seq<bool>)
    requires |b| == 32 && |c| == 8 && live <= 23
    ensures (b[8..] + c)[32 - (live + 8)..] + rest == b[32 - live..] + (c + rest)
  {
  }

  lemma Consume(b: seq<bool>, live: nat, n: nat, rest: seq<bool>)
    requires n <= live <= |b|
    ensures (b[|b| - live..] + rest)[..n] == b[|b| - live..|b| - live + n]
    ensures (b[|b| - live..] + rest)[n..] == b[|b| - live + n..] + rest
  {
  }

  lemma ShiftIn(b: word, c: byte)
    ensures Or(Truncate(ShiftLeft(b, 8)), c) < 0x1_0000_0000
    ensures BitsOf(Or(Truncate(ShiftLeft(b, 8)), c), 32) == BitsOf(b, 32)[8..] + BitsOf(c, 8)
  {
    var s, t := BitsOf(b, 32), BitsOf(c, 8);
    var head, tail := s[..8], s[8..];
    Pow2Values();
    assert s == head + tail;
    ToNatBitsOf(b, 32);
    ToNatBitsOf(c, 8);
    ToNatAppendZeros(s, 8);
    ConcatAssociative(head, tail, Zeros(8));
    ToNatConcat(head, tail + Zeros(8));
    OrConcat(tail, t);
    BitsOfToNat(tail + t);
  }

  lemma Extract(b: word, live: nat, n: nat)
    requires n <= live <= 32
    ensures LowBits(ShiftRight(b, live - n), n) == ToNat(BitsOf(b, 32)[32 - live..32 - live + n])
  {
    var s := BitsOf(b, 32);
    var lo, mid, hi := s[..32 - live], s[32 - live..32 - live + n], s[32 - live + n..];
    Pow2Values();
    ToNatBitsOf(b, 32);
    assert s == (lo + mid) + hi;
    ToNatConcat(lo + mid, hi);
    ToNatConcat(lo, mid);
  }
}
