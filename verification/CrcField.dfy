/** The field in which CRC-32 is computed: polynomials over GF(2) modulo the polynomial of
    section 8 of RFC 1952. A word holds the coefficients, that of the lowest power in its
    highest bit. */
module CrcField {

  /** The polynomial, but for its highest power. */
  const POLY: bv32 := 0xedb8_8320
  /** The polynomial 1. */
  const ONE: bv32 := 0x8000_0000
  const REST: bv32 := 0x7fff_ffff
  const X: bv32 := 0x4000_0000

  function Plus(a: bv32, b: bv32): bv32 {
    a ^ b
  }

  function Half(a: bv32): bv32 {
    a >> 1
  }

  function Double(a: bv32): bv32 {
    a << 1
  }

  predicate Odd(a: bv32) {
    a & 1 == 1
  }

  /** Times x. */
  function Times(a: bv32): bv32 {
    if Odd(a) then Plus(Half(a), POLY) else Half(a)
  }

  /** Times x to the power `n`. */
  function Shifted(a: bv32, n: nat): bv32 {
    if n == 0 then a else Times(Shifted(a, n - 1))
  }

  predicate Top(a: bv32) {
    a & ONE == ONE
  }

  /** `b`, if the coefficient of the lowest power of `a` is 1. */
  function Pick(a: bv32, b: bv32): bv32 {
    if Top(a) then b else 0
  }

  /** The sum, over the first `n` powers in `a`, of `b` times the power. */
  function Mul(a: bv32, b: bv32, n: nat): bv32
    decreases n
  {
    if n == 0 then 0 else Plus(Pick(a, b), Mul(Double(a), Times(b), n - 1))
  }

  function Product(a: bv32, b: bv32): bv32 {
    Mul(a, b, 32)
  }

  // ----- sums

  lemma Nothing(a: bv32)
    ensures Plus(a, 0) == a && Plus(0, a) == a && Plus(a, a) == 0
  {
  }

  lemma Swap(a: bv32, b: bv32)
    ensures Plus(a, b) == Plus(b, a)
  {
  }

  lemma Associate(a: bv32, b: bv32, c: bv32)
    ensures Plus(Plus(a, b), c) == Plus(a, Plus(b, c))
  {
  }

  lemma Regroup(a: bv32, b: bv32, c: bv32, d: bv32)
    ensures Plus(Plus(a, b), Plus(c, d)) == Plus(Plus(a, c), Plus(b, d))
  {
    hide Plus;
    Associate(a, b, Plus(c, d));
    Associate(b, c, d);
    Swap(b, c);
    Associate(c, b, d);
    Associate(a, c, Plus(b, d));
  }

  // ----- times x

  lemma HalfPlus(a: bv32, b: bv32)
    ensures Half(Plus(a, b)) == Plus(Half(a), Half(b))
  {
  }

  lemma OddPlus(a: bv32, b: bv32)
    ensures Odd(Plus(a, b)) <==> Odd(a) != Odd(b)
  {
  }

  lemma TimesPlus(a: bv32, b: bv32)
    ensures Times(Plus(a, b)) == Plus(Times(a), Times(b))
  {
    hide Plus, Half, Odd;
    var x, y := Half(a), Half(b);
    HalfPlus(a, b);
    OddPlus(a, b);
    Regroup(x, POLY, y, POLY);
    Nothing(POLY);
    Nothing(Plus(x, y));
    Associate(x, y, POLY);
    Associate(x, POLY, y);
    Swap(POLY, y);
  }

  lemma TimesZero(a: bv32)
    ensures Times(a) == 0 <==> a == 0
  {
  }

  lemma {:induction false} ShiftedPlus(a: bv32, b: bv32, n: nat)
    ensures Shifted(Plus(a, b), n) == Plus(Shifted(a, n), Shifted(b, n))
  {
    hide Plus, Times;
    if n > 0 {
      ShiftedPlus(a, b, n - 1);
      TimesPlus(Shifted(a, n - 1), Shifted(b, n - 1));
    }
  }

  lemma {:induction false} ShiftedZero(a: bv32, n: nat)
    ensures Shifted(a, n) == 0 <==> a == 0
  {
    hide Times;
    if n > 0 {
      ShiftedZero(a, n - 1);
      TimesZero(Shifted(a, n - 1));
    }
  }

  lemma {:induction false} ShiftedMore(a: bv32, m: nat, n: nat)
    ensures Shifted(Shifted(a, m), n) == Shifted(a, m + n)
  {
    hide Times;
    if n > 0 { ShiftedMore(a, m, n - 1); }
  }

  // ----- products

  lemma PickPlus(a: bv32, b: bv32, c: bv32)
    ensures Pick(a, Plus(b, c)) == Plus(Pick(a, b), Pick(a, c))
  {
  }

  lemma PickTimes(a: bv32, b: bv32)
    ensures Pick(a, Times(b)) == Times(Pick(a, b))
  {
    TimesZero(0);
  }

  lemma {:induction false} MulPlus(a: bv32, b: bv32, c: bv32, n: nat)
    ensures Mul(a, Plus(b, c), n) == Plus(Mul(a, b, n), Mul(a, c, n))
    decreases n
  {
    hide Times, Pick, Plus, Double;
    Nothing(0);
    if n > 0 {
      TimesPlus(b, c);
      PickPlus(a, b, c);
      MulPlus(Double(a), Times(b), Times(c), n - 1);
      Regroup(Pick(a, b), Mul(Double(a), Times(b), n - 1), Pick(a, c), Mul(Double(a), Times(c), n - 1));
    }
  }

  lemma {:induction false} MulTimes(a: bv32, b: bv32, n: nat)
    ensures Mul(a, Times(b), n) == Times(Mul(a, b, n))
    decreases n
  {
    hide Times, Pick, Plus, Double;
    TimesZero(0);
    if n > 0 {
      PickTimes(a, b);
      MulTimes(Double(a), Times(b), n - 1);
      TimesPlus(Pick(a, b), Mul(Double(a), Times(b), n - 1));
    }
  }

  lemma {:induction false} MulShifted(a: bv32, b: bv32, n: nat, m: nat)
    ensures Mul(a, Shifted(b, m), n) == Shifted(Mul(a, b, n), m)
    decreases m
  {
    hide Times, Mul;
    if m > 0 {
      MulShifted(a, b, n, m - 1);
      MulTimes(a, Shifted(b, m - 1), n);
    }
  }

  lemma {:induction false} MulMul(a: bv32, b: bv32, c: bv32, m: nat, n: nat)
    ensures Mul(a, Mul(b, c, n), m) == Mul(b, Mul(a, c, m), n)
    decreases n
  {
    hide Times, Pick, Plus, Double;
    if n == 0 {
      MulZero(a, m);
    } else {
      MulPlus(a, Pick(b, c), Mul(Double(b), Times(c), n - 1), m);
      MulMul(a, Double(b), Times(c), m, n - 1);
      MulTimes(a, c, m);
      MulPick(a, b, c, m);
    }
  }

  lemma {:induction false} MulZero(a: bv32, n: nat)
    ensures Mul(a, 0, n) == 0
    decreases n
  {
    TimesZero(0);
    if n > 0 { MulZero(Double(a), n - 1); }
  }

  lemma MulPick(a: bv32, b: bv32, c: bv32, m: nat)
    ensures Mul(a, Pick(b, c), m) == Pick(b, Mul(a, c, m))
  {
    hide Mul;
    MulZero(a, m);
  }

  // ----- 1 times

  function Right(a: bv32, k: nat): bv32
    decreases k
  {
    if k == 0 then a else Right(Half(a), k - 1)
  }

  /** The word is even, also when its half is taken up to `j - 1` times. */
  predicate Clear(a: bv32, j: nat)
    decreases j
  {
    j == 0 || (!Odd(a) && Clear(Half(a), j - 1))
  }

  lemma {:induction false} RightClear(a: bv32, k: nat, j: nat)
    requires k < j && Clear(a, j)
    ensures !Odd(Right(a, k))
    decreases k
  {
    hide Half, Odd;
    if k > 0 { RightClear(Half(a), k - 1, j - 1); }
  }

  /** The word with one bit is even until that bit is the lowest. */
  lemma OneClear(k: nat)
    requires k < 31
    ensures !Odd(Right(ONE, k))
  {
    assert Clear(0x80, 7);
    assert Clear(0x8000, 15);
    assert Clear(0x80_0000, 23);
    assert Clear(ONE, 31);
    RightClear(ONE, k, 31);
  }

  lemma {:induction false} RightNext(a: bv32, k: nat)
    ensures Right(a, k + 1) == Half(Right(a, k))
    decreases k
  {
    hide Half;
    if k > 0 { RightNext(Half(a), k - 1); }
  }

  lemma {:induction false} RightPlus(a: bv32, b: bv32, k: nat)
    ensures Right(Plus(a, b), k) == Plus(Right(a, k), Right(b, k))
    decreases k
  {
    hide Plus, Half, Double;
    if k > 0 {
      HalfPlus(a, b);
      RightPlus(Half(a), Half(b), k - 1);
    }
  }

  lemma OneTimes(k: nat)
    requires k < 31
    ensures Times(Right(ONE, k)) == Right(ONE, k + 1)
  {
    hide Half, Odd, Right;
    OneClear(k);
    RightNext(ONE, k);
  }

  lemma RightPick(a: bv32, k: nat)
    ensures Plus(Pick(a, Right(ONE, k)), Right(Double(a), k + 1)) == Right(a, k)
  {
    hide Plus, Half, Double;
    Parts(a);
    RightPlus(a & ONE, a & REST, k);
    ZeroRight(k);
  }

  lemma Parts(a: bv32)
    ensures a == Plus(a & ONE, a & REST) && (a & ONE == ONE || a & ONE == 0) && Half(Double(a)) == a & REST
  {
  }

  lemma {:induction false} ZeroRight(k: nat)
    ensures Right(0, k) == 0
    decreases k
  {
    if k > 0 { ZeroRight(k - 1); }
  }

  lemma {:induction false} MulOne(a: bv32, k: nat, n: nat)
    requires k + n == 32
    ensures Mul(a, Right(ONE, k), n) == Right(a, k)
    decreases n
  {
    hide Times, Pick, Plus, Double;
    if n == 0 {
      RightAll(a);
    } else {
      RightPick(a, k);
      MulOne(Double(a), k + 1, n - 1);
      if n > 1 { OneTimes(k); }
    }
  }

  lemma {:induction false} RightMore(a: bv32, j: nat, k: nat)
    ensures Right(Right(a, j), k) == Right(a, j + k)
    decreases j
  {
    hide Half;
    if j > 0 { RightMore(Half(a), j - 1, k); }
  }

  lemma RightFour(a: bv32)
    ensures Right(a, 4) == a >> 4
  {
    RightNext(a, 3);
    RightNext(a, 2);
    RightNext(a, 1);
    RightNext(a, 0);
  }

  lemma RightAll(a: bv32)
    ensures Right(a, 32) == 0
  {
    RightFour(a);
    RightFour(a >> 4);
    RightFour(a >> 8);
    RightFour(a >> 12);
    RightFour(a >> 16);
    RightFour(a >> 20);
    RightFour(a >> 24);
    RightFour(a >> 28);
    RightMore(a, 4, 4);
    RightMore(a, 8, 4);
    RightMore(a, 12, 4);
    RightMore(a, 16, 4);
    RightMore(a, 20, 4);
    RightMore(a, 24, 4);
    RightMore(a, 28, 4);
  }

  // ----- the laws of the field

  lemma ProductOne(a: bv32)
    ensures Product(a, ONE) == a && Product(ONE, a) == a
  {
    MulOne(a, 0, 32);
    ProductSwap(ONE, a);
  }

  lemma ProductSwap(a: bv32, b: bv32)
    ensures Product(a, b) == Product(b, a)
  {
    hide Mul;
    MulOne(a, 0, 32);
    MulOne(b, 0, 32);
    MulMul(a, b, ONE, 32, 32);
  }

  lemma ProductAssociates(a: bv32, b: bv32, c: bv32)
    ensures Product(Product(a, b), c) == Product(a, Product(b, c))
  {
    hide Mul;
    ProductSwap(Product(a, b), c);
    MulMul(c, a, b, 32, 32);
    ProductSwap(c, b);
  }

  lemma ProductPlus(a: bv32, b: bv32, c: bv32)
    ensures Product(a, Plus(b, c)) == Plus(Product(a, b), Product(a, c))
  {
    MulPlus(a, b, c, 32);
  }

  /** Times a power of x is the product with this power. */
  lemma ShiftedProduct(a: bv32, n: nat)
    ensures Shifted(a, n) == Product(Shifted(ONE, n), a)
  {
    hide Mul;
    ProductSwap(Shifted(ONE, n), a);
    MulShifted(a, ONE, 32, n);
    MulOne(a, 0, 32);
  }

  // ----- the product, bit by bit

  function Left(a: bv32, k: nat): bv32 {
    if k == 0 then a else Double(Left(a, k - 1))
  }

  predicate Meets(a: bv32, m: bv32) {
    a & m != 0
  }

  lemma MeetsHalf(a: bv32, m: bv32)
    ensures Meets(a, Half(m)) <==> Meets(Double(a), m)
  {
  }

  lemma {:induction false} MeetsRight(a: bv32, m: bv32, k: nat)
    ensures Meets(a, Right(m, k)) <==> Meets(Left(a, k), m)
    decreases k
  {
    hide Half, Meets, Double;
    if k > 0 {
      MeetsRight(a, Half(m), k - 1);
      MeetsHalf(Left(a, k - 1), m);
    }
  }

  function Less(a: bv32): bv32 {
    a - 1
  }

  lemma LessHalf(a: bv32)
    requires !Odd(a) && a != 0
    ensures Half(a) != 0 && Less(Half(a)) == Half(Less(a))
  {
  }

  lemma LessOne()
    ensures Less(ONE) == REST
  {
  }

  lemma {:induction false} BelowOne(k: nat)
    requires k < 32
    ensures Right(ONE, k) != 0 && Less(Right(ONE, k)) == Right(REST, k)
  {
    hide Half, Odd;
    LessOne();
    if k > 0 {
      BelowOne(k - 1);
      OneClear(k - 1);
      RightNext(ONE, k - 1);
      RightNext(REST, k - 1);
      LessHalf(Right(ONE, k - 1));
    }
  }

  lemma MeetsParts(a: bv32)
    ensures Meets(a, ONE) <==> Top(a)
    ensures Meets(a, REST) <==> Double(a) != 0
    ensures a != 0 ==> Meets(a, ONE) || Meets(a, REST)
    ensures Meets(a, 0xffff_ffff) <==> a != 0
  {
  }

  lemma LeftAll(a: bv32)
    ensures Left(a, 32) == 0
  {
    RightAll(0xffff_ffff);
    MeetsRight(a, 0xffff_ffff, 32);
    MeetsParts(Left(a, 32));
    assert !Meets(a, 0);
  }

  /** What the mask tells of the bits that are left. */
  lemma MaskTells(a: bv32, k: nat)
    requires k < 32
    ensures Meets(a, Right(ONE, k)) <==> Top(Left(a, k))
    ensures Meets(a, Less(Right(ONE, k))) <==> Left(a, k + 1) != 0
    ensures Left(a, k) != 0 ==> Meets(a, Right(ONE, k)) || Left(a, k + 1) != 0
  {
    hide Meets, Right, Double, Top, Less;
    MeetsRight(a, ONE, k);
    MeetsRight(a, REST, k);
    BelowOne(k);
    MeetsParts(Left(a, k));
  }

  lemma {:induction false} MulNone(b: bv32, n: nat)
    ensures Mul(0, b, n) == 0
    decreases n
  {
    if n > 0 {
      Nothing(0);
      NoBits();
      hide Plus, Pick, Times, Double;
      MulNone(Times(b), n - 1);
      PickNone(b);
    }
  }

  lemma NoBits()
    ensures Double(0) == 0
  {
  }

  lemma PickNone(b: bv32)
    ensures Pick(0, b) == 0
  {
  }

  /** The sum so far and what is still to be added. */
  ghost predicate Adding(a: bv32, b0: bv32, k: nat, b: bv32, p: bv32) {
    k < 32 && Left(a, k) != 0 && Plus(p, Mul(Left(a, k), b, 32 - k)) == Product(a, b0)
  }

  lemma AddingNext(a: bv32, b0: bv32, k: nat, b: bv32, p: bv32, q: bv32)
    requires Adding(a, b0, k, b, p) && q == Plus(p, Pick(Left(a, k), b))
    ensures Left(a, k + 1) == 0 ==> q == Product(a, b0)
    ensures Left(a, k + 1) != 0 ==> Adding(a, b0, k + 1, Times(b), q)
  {
    hide Plus, Pick, Times, Double;
    var rest := Mul(Left(a, k + 1), Times(b), 31 - k);
    Associate(p, Pick(Left(a, k), b), rest);
    if Left(a, k + 1) == 0 {
      MulNone(Times(b), 31 - k);
      Nothing(q);
    } else {
      LeftAll(a);
    }
  }

  lemma AddingStarts(a: bv32, b: bv32)
    requires a != 0
    ensures Adding(a, b, 0, b, 0)
  {
    hide Plus, Mul;
    Nothing(Mul(a, b, 32));
  }

  /** Multiplies modulo the polynomial. The first factor must not be zero: the loop ends with
      its last bit. */
  method Multmodp(a: bv32, b0: bv32) returns (p: bv32)
    requires a != 0
    ensures p == Product(a, b0)
  {
    hide Adding, Product, Meets, Pick, Right, Left, Half, Odd, Plus, Less, Top;
    var m, b := ONE, b0;
    p := 0;
    ghost var k := 0;
    AddingStarts(a, b);
    MaskStarts();
    while true
      invariant 0 <= k < 32 && Adding(a, b0, k, b, p) && m == Right(ONE, k)
      decreases 32 - k
    {
      MaskTells(a, k);
      AddingFacts(a, b0, k, b, p);
      AddingNext(a, b0, k, b, p, Plus(p, Pick(Left(a, k), b)));
      PickedIs(Left(a, k), b, p);
      if Meets(a, m) {
        p := Plus(p, b);
        if !Meets(a, Less(m)) {
          break;
        }
      }
      AddingFacts(a, b0, k + 1, Times(b), p);
      RightNext(ONE, k);
      m := Half(m);
      b := if Odd(b) then Plus(Half(b), POLY) else Half(b);
      k := k + 1;
    }
  }

  lemma MaskStarts()
    ensures Right(ONE, 0) == ONE
  {
  }

  lemma AddingFacts(a: bv32, b0: bv32, k: nat, b: bv32, p: bv32)
    requires Adding(a, b0, k, b, p)
    ensures Left(a, k) != 0 && k < 32
  {
  }

  lemma PickedIs(l: bv32, b: bv32, p: bv32)
    ensures Plus(p, Pick(l, b)) == if Top(l) then Plus(p, b) else p
  {
    Nothing(p);
  }
}
