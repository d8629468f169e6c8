/** Bit strings read from the low end of a number on, as deflate reads them. */
module LowFirst {
  import opened Bits

  /** The number whose binary digits, least significant first, are `s`. */
  function Val(s: seq<bool>): (v: nat)
    ensures v < Pow2(|s|)
  {
    if s == [] then 0 else (if s[0] then 1 else 0) + 2 * Val(s[1..])
  }

  /** The digits of a number, least significant first. */
  function Digits(v: nat, n: nat): (s: seq<bool>)
    ensures |s| == n
  {
    if n == 0 then [] else [v % 2 == 1] + Digits(v / 2, n - 1)
  }

  lemma {:induction false} ValDigits(v: nat, n: nat)
    ensures Val(Digits(v, n)) == LowBits(v, n)
    ensures v < Pow2(n) ==> LowBits(v, n) == v
  {
    if n > 0 {
      ValDigits(v / 2, n - 1);
      assert Digits(v, n)[1..] == Digits(v / 2, n - 1);
    }
  }

  lemma {:induction false} DigitsVal(s: seq<bool>)
    ensures Digits(Val(s), |s|) == s
  {
    if s != [] {
      DigitsVal(s[1..]);
      assert s == [s[0]] + s[1..];
    }
  }

  lemma ValInjective(a: seq<bool>, b: seq<bool>)
    requires |a| == |b| && Val(a) == Val(b)
    ensures a == b
  {
    DigitsVal(a);
    DigitsVal(b);
  }

  lemma {:induction false} ValZeros(n: nat)
    ensures Val(Zeros(n)) == 0
  {
    if n > 0 {
      assert Zeros(n)[1..] == Zeros(n - 1);
      ValZeros(n - 1);
    }
  }

  /** The low digits under a mask, the high digits under a shift. */
  lemma {:induction false} ValSplit(s: seq<bool>, k: nat)
    requires k <= |s|
    ensures LowBits(Val(s), k) == Val(s[..k]) && ShiftRight(Val(s), k) == Val(s[k..])
  {
    if k == 0 {
      assert s[..0] == [] && s[0..] == s;
    } else {
      ValSplit(s[1..], k - 1);
      assert s[..k][1..] == s[1..][..k - 1] && s[1..][k - 1..] == s[k..];
    }
  }

  lemma {:induction false} ValConcat(a: seq<bool>, b: seq<bool>)
    ensures Val(a + b) == Val(a) + ShiftLeft(Val(b), |a|)
    decreases |a|
  {
    if a == [] {
      assert a + b == b;
    } else {
      assert (a + b)[1..] == a[1..] + b;
      ValConcat(a[1..], b);
    }
  }

  lemma ValAppendZeros(s: seq<bool>, n: nat)
    ensures Val(s + Zeros(n)) == Val(s)
  {
    ValConcat(s, Zeros(n));
    ValZeros(n);
    ShiftNothing(|s|);
  }

  lemma {:induction false} ShiftNothing(k: nat)
    ensures ShiftLeft(0, k) == 0 && ShiftRight(0, k) == 0 && LowBits(0, k) == 0
  {
    if k > 0 { ShiftNothing(k - 1); }
  }

  lemma {:induction false} ShiftIsTimes(v: nat, k: nat)
    ensures ShiftLeft(v, k) == v * Pow2(k)
  {
    if k > 0 {
      ShiftIsTimes(v, k - 1);
      Regroup(v, Pow2(k - 1));
    }
  }

  lemma Regroup(v: nat, p: nat)
    ensures 2 * (v * p) == v * (2 * p)
  {
  }

  /** The numbers that become `c` when shifted are those of one range. */
  lemma {:induction false} ShiftRange(c: nat, v: nat, k: nat)
    ensures ShiftLeft(c, k) <= v < ShiftLeft(c, k) + Pow2(k) <==> ShiftRight(v, k) == c
    decreases k
  {
    if k > 0 { ShiftRange(c, v / 2, k - 1); }
  }

  /** A string begins with `a` just when its number lies in the range of `a`. */
  lemma BeginsWith(a: seq<bool>, s: seq<bool>)
    requires |a| <= |s|
    ensures var d := |s| - |a|; a <= s <==> ShiftLeft(ToNat(a), d) <= ToNat(s) < ShiftLeft(ToNat(a), d) + Pow2(d)
  {
    hide ShiftLeft, ToNat, Pow2;
    BeginsShift(a, s);
    ShiftRange(ToNat(a), ToNat(s), |s| - |a|);
  }

  lemma BeginsShift(a: seq<bool>, s: seq<bool>)
    requires |a| <= |s|
    ensures a <= s <==> ShiftRight(ToNat(s), |s| - |a|) == ToNat(a)
  {
    hide *;
    var k := |a|;
    assert s == s[..k] + s[k..];
    ToNatConcat(s[..k], s[k..]);
    BitsOfToNat(a);
    BitsOfToNat(s[..k]);
    assert a <= s <==> s[..k] == a;
  }

  lemma {:induction false} ZerosAppended(x: nat, n: nat, d: nat)
    ensures BitsOf(ShiftLeft(x, d), n + d) == BitsOf(x, n) + Zeros(d)
  {
    if d == 0 {
      assert BitsOf(x, n) + Zeros(0) == BitsOf(x, n);
    } else {
      ZerosAppended(x, n, d - 1);
      assert Zeros(d) == Zeros(d - 1) + [false];
    }
  }

  /** Numbers less than a power apart that agree below it are equal. */
  lemma {:induction false} SameLow(x: nat, y: nat, k: nat)
    requires LowBits(x, k) == LowBits(y, k) && x <= y < x + Pow2(k)
    ensures x == y
  {
    if k > 0 {
      SameLow(x / 2, y / 2, k - 1);
    }
  }

  lemma {:induction false} PowProduct(a: nat, b: nat)
    ensures Pow2(a) * Pow2(b) == Pow2(a + b)
  {
    if b > 0 {
      PowProduct(a, b - 1);
      Regroup(Pow2(a), Pow2(b - 1));
    }
  }

  // ----- powers of two as masks

  /** The bit of a word that a power of two stands for. */
  predicate HasBit(v: nat, incr: nat) {
    incr != 0 && v / incr % 2 == 1
  }

  lemma {:induction false} DivideIsShift(v: nat, k: nat)
    ensures v / Pow2(k) == ShiftRight(v, k)
  {
    if k > 0 {
      DivideIsShift(v / 2, k - 1);
      DivideTwice(v, Pow2(k - 1));
    }
  }

  lemma DivideTwice(v: nat, p: nat)
    requires p > 0
    ensures v / (2 * p) == v / 2 / p
    ensures v % (2 * p) == 2 * (v / 2 % p) + v % 2
  {
    var h := v / 2;
    var q, r := h / p, h % p;
    assert h == q * p + r;
    DoubleSum(v, h, q, r, p);
    Quotient(v, 2 * p, q, 2 * r + v % 2);
  }

  lemma DoubleSum(v: nat, h: nat, q: nat, r: nat, p: nat)
    requires h == q * p + r && v == 2 * h + v % 2
    ensures v == q * (2 * p) + (2 * r + v % 2)
  {
  }

  lemma Quotient(v: nat, d: nat, q: nat, r: nat)
    requires r < d && v == q * d + r
    ensures v / d == q && v % d == r
  {
    var x, y := v / d, v % d;
    assert v == x * d + y;
    LessTimes(x, q, d);
    LessTimes(q, x, d);
  }

  lemma LessTimes(a: nat, b: nat, d: nat)
    ensures a < b ==> a * d + d <= b * d
  {
    if a < b {
      assert (a + 1) * d <= b * d;
    }
  }

  lemma {:induction false} RemainderIsLow(v: nat, k: nat)
    ensures v % Pow2(k) == LowBits(v, k)
  {
    if k > 0 {
      RemainderIsLow(v / 2, k - 1);
      DivideTwice(v, Pow2(k - 1));
    }
  }

  lemma ValHasBit(s: seq<bool>, k: nat)
    requires k < |s|
    ensures HasBit(Val(s), Pow2(k)) == s[k]
  {
    hide ShiftRight, Pow2, Val;
    DivideIsShift(Val(s), k);
    ValSplit(s, k);
    ValFirst(s[k..]);
    PowNotZero(k);
  }

  lemma PowNotZero(k: nat)
    ensures Pow2(k) > 0
  {
  }

  lemma ValFirst(t: seq<bool>)
    requires t != []
    ensures Val(t) % 2 == 1 <==> t[0]
  {
  }

  lemma {:induction false} LowOfPow2(k: nat, d: nat)
    requires d <= k
    ensures LowBits(Pow2(k), d) == 0
  {
    if d > 0 { LowOfPow2(k - 1, d - 1); }
  }

  /** Multiples of a power of two. */
  lemma {:induction false} LowMinus(x: nat, d: nat)
    requires LowBits(x, d) == 0 && x > 0
    ensures x >= Pow2(d) && LowBits(x - Pow2(d), d) == 0
  {
    if d > 0 { LowMinus(x / 2, d - 1); }
  }

  lemma {:induction false} LowPlus(x: nat, h: nat, d: nat)
    requires LowBits(x, d) == 0 && h < Pow2(d)
    ensures LowBits(h + x, d) == h
  {
    if d > 0 { LowPlus(x / 2, h / 2, d - 1); }
  }

  // ----- bytes

  /** The bits of the bytes, those of each from the lowest on. */
  function InBits(s: seq<byte>): seq<bool> {
    if s == [] then [] else Digits(s[0], 8) + InBits(s[1..])
  }

  lemma {:induction false} InBitsSize(s: seq<byte>)
    ensures |InBits(s)| == 8 * |s|
    decreases |s|
  {
    if s != [] { InBitsSize(s[1..]); }
  }

  lemma {:induction false} InBitsConcat(a: seq<byte>, b: seq<byte>)
    ensures InBits(a + b) == InBits(a) + InBits(b)
    decreases |a|
  {
    if a == [] {
      assert a + b == b;
    } else {
      assert (a + b)[1..] == a[1..] + b;
      InBitsConcat(a[1..], b);
    }
  }
}
