/** Machine words as natural numbers, and the bit strings they stand for.
    Bit strings are most significant bit first, as in the bzip2 stream. */
module Bits {

  type byte = b: int | 0 <= b < 256
  type word = w: int | 0 <= w < 0x1_0000_0000

  function Pow2(n: nat): (p: nat)
    ensures p >= 1
  {
    if n == 0 then 1 else 2 * Pow2(n - 1)
  }

  lemma {:induction false} Pow2Monotone(m: nat, n: nat)
    requires m <= n
    ensures Pow2(m) <= Pow2(n)
    ensures m < n ==> Pow2(m) < Pow2(n)
  {
    if m < n {
      Pow2Monotone(m, n - 1);
    }
  }

  lemma Pow2Values()
    ensures Pow2(1) == 2 && Pow2(2) == 4 && Pow2(3) == 8 && Pow2(4) == 16 && Pow2(5) == 32
    ensures Pow2(8) == 256 && Pow2(15) == 0x8000 && Pow2(16) == 0x1_0000 && Pow2(17) == 0x2_0000
    ensures Pow2(20) == 0x10_0000 && Pow2(21) == 0x20_0000 && Pow2(24) == 0x100_0000
    ensures Pow2(32) == 0x1_0000_0000
  {
    assert Pow2(4) == 16;
    assert Pow2(8) == 256;
    assert Pow2(12) == 4096;
    assert Pow2(16) == 0x1_0000;
    assert Pow2(20) == 0x10_0000;
    assert Pow2(24) == 0x100_0000;
    assert Pow2(28) == 0x1000_0000;
    assert Pow2(32) == 0x1_0000_0000;
  }

  // ----- bytes as numbers and as bits

  lemma OctetBack(c: bv8)
    ensures c as nat < 256 && (c as nat) as bv8 == c
  {
  }

  lemma OctetNat(n: nat)
    requires n < 256
    ensures (n as bv8) as nat == n
  {
    var c := OctetFor(n);
    OctetBack(c);
  }

  lemma NextOctet(c: bv8)
    requires c != 255
    ensures (c + 1) as nat == c as nat + 1
  {
  }

  lemma {:induction false} OctetFor(n: nat) returns (c: bv8)
    requires n < 256
    ensures c as nat == n
  {
    if n == 0 {
      c := 0;
    } else {
      c := OctetFor(n - 1);
      NextOctet(c);
      c := c + 1;
    }
  }

  /** The shift operators on unsigned words of unlimited width. */
  function ShiftLeft(v: nat, k: nat): nat {
    if k == 0 then v else 2 * ShiftLeft(v, k - 1)
  }

  function ShiftRight(v: nat, k: nat): nat {
    if k == 0 then v else ShiftRight(v / 2, k - 1)
  }

  /** The low `n` bits of `v`, the rest masked away. */
  function LowBits(v: nat, n: nat): (r: nat)
    ensures r < Pow2(n)
  {
    if n == 0 then 0 else 2 * LowBits(v / 2, n - 1) + v % 2
  }

  lemma ShiftLeft8(i: nat)
    ensures ShiftLeft(i, 8) == 256 * i
  {
    assert ShiftLeft(i, 1) == 2 * i;
    assert ShiftLeft(i, 2) == 4 * i;
    assert ShiftLeft(i, 4) == 16 * i;
    assert ShiftLeft(i, 6) == 64 * i;
  }

  /** Bitwise "or" of two words. */
  function Or(a: nat, b: nat): nat
    decreases a + b
  {
    if a == 0 && b == 0 then 0
    else 2 * Or(a / 2, b / 2) + (if a % 2 == 1 || b % 2 == 1 then 1 else 0)
  }

  /** The low `n` bits of `v`, most significant first. */
  function BitsOf(v: nat, n: nat): (s: seq<bool>)
    ensures |s| == n
  {
    if n == 0 then [] else BitsOf(v / 2, n - 1) + [v % 2 == 1]
  }

  /** The number whose binary digits, most significant first, are `s`. */
  function ToNat(s: seq<bool>): (v: nat)
    ensures v < Pow2(|s|)
  {
    if s == [] then 0
    else 2 * ToNat(s[..|s| - 1]) + (if s[|s| - 1] then 1 else 0)
  }

  function Zeros(n: nat): (s: seq<bool>)
    ensures |s| == n
  {
    seq(n, i => false)
  }

  lemma ToNatSnoc(s: seq<bool>, x: bool)
    ensures ToNat(s + [x]) == 2 * ToNat(s) + (if x then 1 else 0)
  {
    assert (s + [x])[..|s|] == s;
  }

  lemma {:induction false} ToNatBitsOf(v: nat, n: nat)
    ensures ToNat(BitsOf(v, n)) == LowBits(v, n)
    ensures v < Pow2(n) ==> LowBits(v, n) == v
  {
    if n > 0 {
      ToNatBitsOf(v / 2, n - 1);
      ToNatSnoc(BitsOf(v / 2, n - 1), v % 2 == 1);
    }
  }

  lemma {:induction false} BitsOfToNat(s: seq<bool>)
    ensures BitsOf(ToNat(s), |s|) == s
  {
    if s != [] {
      var t := s[..|s| - 1];
      BitsOfToNat(t);
      assert s == t + [s[|s| - 1]];
    }
  }

  lemma {:induction false} ToNatZeros(n: nat)
    ensures ToNat(Zeros(n)) == 0
  {
    if n > 0 {
      ToNatZeros(n - 1);
      assert Zeros(n)[..n - 1] == Zeros(n - 1);
    }
  }

  /** Joining two bit strings shifts the left one; the right one comes back
      under the mask and the left one under the shift. */
  lemma {:induction false} ToNatConcat(a: seq<bool>, b: seq<bool>)
    ensures ToNat(a + b) == ShiftLeft(ToNat(a), |b|) + ToNat(b)
    ensures ShiftRight(ToNat(a + b), |b|) == ToNat(a)
    ensures LowBits(ToNat(a + b), |b|) == ToNat(b)
  {
    if b == [] {
      assert a + b == a;
    } else {
      var n := |b| - 1;
      var b' := b[..n];
      ToNatConcat(a, b');
      assert a + b == (a + b') + [b[n]];
      ToNatSnoc(a + b', b[n]);
    }
  }

  lemma ToNatAppendZeros(s: seq<bool>, k: nat)
    ensures ToNat(s + Zeros(k)) == ShiftLeft(ToNat(s), k)
  {
    ToNatConcat(s, Zeros(k));
    ToNatZeros(k);
  }

  lemma {:induction false} OrZero(a: nat)
    ensures Or(a, 0) == a
  {
    if a > 0 { OrZero(a / 2); }
  }

  /** When the operands have no bit in common, "or" is addition. */
  lemma {:induction false} OrDisjoint(a: nat, b: nat, k: nat)
    requires b < Pow2(k)
    ensures Or(ShiftLeft(a, k), b) == ShiftLeft(a, k) + b
  {
    if k == 0 {
      OrZero(a);
    } else {
      OrDisjoint(a, b / 2, k - 1);
    }
  }

  /** "Or" fills zero bits in. */
  lemma OrConcat(p: seq<bool>, x: seq<bool>)
    ensures Or(ToNat(p + Zeros(|x|)), ToNat(x)) == ToNat(p + x)
  {
    ToNatAppendZeros(p, |x|);
    OrDisjoint(ToNat(p), ToNat(x), |x|);
    ToNatConcat(p, x);
  }

  /** All the bits of a byte string. */
  function BytesToBits(s: seq<byte>): (bits: seq<bool>)
    ensures |bits| == 8 * |s|
  {
    if s == [] then [] else BitsOf(s[0], 8) + BytesToBits(s[1..])
  }

  lemma {:induction false} BytesToBitsConcat(a: seq<byte>, b: seq<byte>)
    ensures BytesToBits(a + b) == BytesToBits(a) + BytesToBits(b)
  {
    if a == [] {
      assert a + b == b;
    } else {
      BytesToBitsConcat(a[1..], b);
      assert (a + b)[1..] == a[1..] + b;
      ConcatAssociative(BitsOf(a[0], 8), BytesToBits(a[1..]), BytesToBits(b));
    }
  }

  lemma ConcatAssociative<T>(a: seq<T>, b: seq<T>, c: seq<T>)
    ensures a + b + c == a + (b + c)
  {
  }
}
