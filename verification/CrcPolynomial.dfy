/** What CRC-32 is: the remainder of the message, as a polynomial over GF(2), times x to the
    power of 32, divided by the polynomial of the CRC (section 8 of RFC 1952). */
module CrcPolynomial {
  import opened CrcField
  import opened Crc32
  import opened CrcTables

  // ----- polynomials

  /** A polynomial: the coefficient of power `i` is at place `i`. */
  type Poly = seq<bool>

  function Sum(s: Poly, t: Poly): Poly
    decreases |s|
  {
    if s == [] then t else if t == [] then s else [s[0] != t[0]] + Sum(s[1..], t[1..])
  }

  function Times(s: Poly, t: Poly): Poly
    decreases |s|
  {
    if s == [] then [] else Sum(if s[0] then t else [], [false] + Times(s[1..], t))
  }

  function Constant(x: bool): bv32 {
    if x then ONE else 0
  }

  /** The element of the field that a polynomial is. */
  function Residue(s: Poly): bv32
    decreases |s|
  {
    if s == [] then 0 else Plus(Constant(s[0]), CrcField.Times(Residue(s[1..])))
  }

  lemma {:induction false} ResidueSum(s: Poly, t: Poly)
    ensures Residue(Sum(s, t)) == Plus(Residue(s), Residue(t))
    decreases |s|
  {
    hide Plus, CrcField.Times, Constant;
    Nothing(Residue(s));
    Nothing(Residue(t));
    if s != [] && t != [] {
      var x, y := CrcField.Times(Residue(s[1..])), CrcField.Times(Residue(t[1..]));
      assert Sum(s, t)[1..] == Sum(s[1..], t[1..]);
      ResidueSum(s[1..], t[1..]);
      TimesPlus(Residue(s[1..]), Residue(t[1..]));
      ConstantSum(s[0], t[0]);
      Regroup(Constant(s[0]), x, Constant(t[0]), y);
    }
  }

  lemma ConstantSum(x: bool, y: bool)
    ensures Constant(x != y) == Plus(Constant(x), Constant(y))
  {
    Nothing(ONE);
    Nothing(0);
  }

  /** The product in the field is that of the polynomials. */
  lemma {:induction false} ResidueProduct(s: Poly, t: Poly)
    ensures Residue(Times(s, t)) == Product(Residue(s), Residue(t))
    decreases |s|
  {
    hide Plus, CrcField.Times, Mul;
    var r := Residue(t);
    if s == [] {
      ProductSwap(0, r);
      MulZero(r, 32);
    } else {
      var q := Residue(s[1..]);
      var later := [false] + Times(s[1..], t);
      ResidueProduct(s[1..], t);
      ResidueSum(if s[0] then t else [], later);
      assert later[1..] == Times(s[1..], t);
      Nothing(CrcField.Times(Residue(Times(s[1..], t))));
      ProductSwap(Residue(s), r);
      ProductPlus(r, Constant(s[0]), CrcField.Times(q));
      MulTimes(r, q, 32);
      ProductSwap(q, r);
      ProductOne(r);
      MulZero(r, 32);
    }
  }

  lemma {:induction false} ResidueConcat(s: Poly, t: Poly)
    ensures Residue(s + t) == Plus(Residue(s), Shifted(Residue(t), |s|))
    decreases |s|
  {
    hide Plus, CrcField.Times, Constant;
    if s == [] {
      assert s + t == t;
      Nothing(Residue(t));
    } else {
      assert (s + t)[1..] == s[1..] + t;
      ResidueConcat(s[1..], t);
      TimesPlus(Residue(s[1..]), Shifted(Residue(t), |s| - 1));
      Associate(Constant(s[0]), CrcField.Times(Residue(s[1..])), Shifted(Residue(t), |s|));
    }
  }

  // ----- the coefficients of an element

  /** The first `n` coefficients. */
  function Coefs(a: bv32, n: nat): (s: Poly)
    ensures |s| == n
    decreases n
  {
    if n == 0 then [] else [Top(a)] + Coefs(Double(a), n - 1)
  }

  lemma {:induction false} ResidueCoefs(a: bv32, n: nat)
    ensures Residue(Coefs(a, n)) == Mul(a, ONE, n)
    decreases n
  {
    hide Plus, CrcField.Times, Double, Top;
    if n > 0 {
      assert Coefs(a, n)[1..] == Coefs(Double(a), n - 1);
      ResidueCoefs(Double(a), n - 1);
      MulTimes(Double(a), ONE, n - 1);
    }
  }

  /** Each element is the residue of its coefficients. */
  lemma ElementIs(a: bv32)
    ensures Residue(Coefs(a, 32)) == a
  {
    hide Mul;
    ResidueCoefs(a, 32);
    MulOne(a, 0, 32);
  }

  lemma {:induction false} CoefsConcat(a: bv32, m: nat, n: nat)
    ensures Coefs(a, m + n) == Coefs(a, m) + Coefs(Left(a, m), n)
    decreases m
  {
    hide Double, Top;
    if m == 0 {
      assert Coefs(a, 0) + Coefs(a, n) == Coefs(a, n);
    } else {
      CoefsConcat(Double(a), m - 1, n);
      LeftFirst(a, m - 1);
    }
  }

  lemma {:induction false} LeftFirst(a: bv32, k: nat)
    ensures Left(Double(a), k) == Left(a, k + 1)
  {
    hide Double;
    if k > 0 { LeftFirst(a, k - 1); }
  }

  lemma FourCoefs(a: bv32)
    ensures Coefs(a, 4) == [Top(a), Top(Double(a)), Top(Double(Double(a))), Top(Double(Double(Double(a))))]
  {
    hide Top, Double, Coefs;
    var b := Double(a);
    var c := Double(b);
    var d := Double(c);
    CoefsNext(a, 4);
    CoefsNext(b, 3);
    CoefsNext(c, 2);
    CoefsNext(d, 1);
    assert Coefs(Double(d), 0) == [];
  }

  lemma CoefsNext(a: bv32, n: nat)
    requires n > 0
    ensures Coefs(a, n) == [Top(a)] + Coefs(Double(a), n - 1)
  {
    hide Top, Double;
  }

  lemma LeftFour(a: bv32)
    ensures Left(a, 4) == a << 4
  {
    hide Double;
    assert Left(a, 1) == Double(a);
    assert Left(a, 3) == Double(Double(Double(a)));
    DoubleFour(a);
  }

  lemma DoubleFour(a: bv32)
    ensures Double(Double(Double(Double(a)))) == a << 4
  {
  }

  /** The polynomial of the CRC has these powers of x. */
  function CrcPoly(): Poly {
    seq(33, i => i in {0, 1, 2, 4, 5, 7, 8, 10, 11, 12, 16, 22, 23, 26, 32})
  }

  lemma NextFour(a: bv32, n: nat)
    requires n >= 4
    ensures Coefs(a, n) == Coefs(a, 4) + Coefs(a << 4, n - 4)
  {
    hide Double, Top, Coefs, Left;
    CoefsConcat(a, 4, n - 4);
    LeftFour(a);
  }

  lemma PolyCoefs()
    ensures Coefs(POLY, 32) == CrcPoly()[..32]
  {
    PolyNibbles();
    hide Coefs;
    NextFour(0xedb8_8320, 32);
    NextFour(0xdb88_3200, 28);
    NextFour(0xb883_2000, 24);
    NextFour(0x8832_0000, 20);
    NextFour(0x8320_0000, 16);
    NextFour(0x3200_0000, 12);
    NextFour(0x2000_0000, 8);
    NextFour(0x0000_0000, 4);
    assert Coefs(0, 0) == [] by { NoCoefs(); }
  }

  lemma NoCoefs()
    ensures Coefs(0, 0) == []
  {
  }

  lemma PolyNibbles()
    ensures Coefs(0xedb8_8320, 4) == [true, true, true, false]
    ensures Coefs(0xdb88_3200, 4) == [true, true, false, true]
    ensures Coefs(0xb883_2000, 4) == [true, false, true, true]
    ensures Coefs(0x8832_0000, 4) == [true, false, false, false]
    ensures Coefs(0x8320_0000, 4) == [true, false, false, false]
    ensures Coefs(0x3200_0000, 4) == [false, false, true, true]
    ensures Coefs(0x2000_0000, 4) == [false, false, true, false]
    ensures Coefs(0x0000_0000, 4) == [false, false, false, false]
  {
    FourCoefs(0xedb8_8320);
    FourCoefs(0xdb88_3200);
    FourCoefs(0xb883_2000);
    FourCoefs(0x8832_0000);
    FourCoefs(0x8320_0000);
    FourCoefs(0x3200_0000);
    FourCoefs(0x2000_0000);
    FourCoefs(0x0000_0000);
  }

  /** The polynomial of the CRC is zero in the field. */
  lemma PolyIsZero()
    ensures Residue(CrcPoly()) == 0
  {
    hide Plus, Residue, Coefs, Shifted;
    PolyCoefs();
    assert CrcPoly() == Coefs(POLY, 32) + [true];
    ResidueConcat(Coefs(POLY, 32), [true]);
    ElementIs(POLY);
    OnlyOne();
    HighestPower();
    Nothing(POLY);
  }

  lemma OnlyOne()
    ensures Residue([true]) == ONE
  {
    assert [true][1..] == [];
    TimesZero(0);
    Nothing(ONE);
  }

  lemma HighestPower()
    ensures Shifted(ONE, 32) == POLY
  {
    hide Shifted, Right, CrcField.Times;
    PowerOfOne(31);
    LowestBit();
    ShiftedMore(ONE, 31, 1);
    ShiftedOnce(1);
    assert CrcField.Times(1) == POLY by { TimesLowest(); }
  }

  lemma TimesLowest()
    ensures CrcField.Times(1) == POLY
  {
  }

  lemma LowestBit()
    ensures Right(ONE, 31) == 1
  {
    hide Right;
    RightMore(ONE, 8, 8);
    RightMore(ONE, 16, 8);
    RightMore(ONE, 24, 7);
    RightEight(ONE);
    RightEight(0x80_0000);
    RightEight(0x8000);
    RightSeven();
  }

  lemma RightSeven()
    ensures Right(0x80, 7) == 1
  {
    assert Right(0x8, 3) == 1;
    RightFour(0x80);
    RightMore(0x80, 4, 3);
  }

  lemma {:induction false} PowerOfOne(k: nat)
    requires k < 32
    ensures Shifted(ONE, k) == Right(ONE, k)
  {
    hide CrcField.Times, Right;
    if k == 0 {
      NoShift();
    } else {
      PowerOfOne(k - 1);
      OneTimes(k - 1);
    }
  }

  lemma NoShift()
    ensures Shifted(ONE, 0) == ONE == Right(ONE, 0)
  {
  }

  // ----- the message

  /** The bits of a byte: the lowest one has the highest power. */
  function ByteBits(b: octet): (s: Poly)
    ensures |s| == 8
  {
    Coefs((b as bv32) << 24, 8)
  }

  /** The message: the first bits have the highest powers. */
  function Message(buf: seq<octet>): Poly {
    if buf == [] then [] else ByteBits(buf[|buf| - 1]) + Message(buf[..|buf| - 1])
  }

  function Zeros(n: nat): (s: Poly)
    ensures |s| == n
  {
    seq(n, _ => false)
  }

  lemma {:induction false} ResidueZeros(n: nat)
    ensures Residue(Zeros(n)) == 0
  {
    if n > 0 {
      assert Zeros(n)[1..] == Zeros(n - 1);
      ResidueZeros(n - 1);
      TimesZero(0);
      Nothing(0);
    }
  }

  lemma ResidueTimesPower(s: Poly, n: nat)
    ensures Residue(Zeros(n) + s) == Shifted(Residue(s), n)
  {
    hide Plus;
    ResidueConcat(Zeros(n), s);
    ResidueZeros(n);
    Nothing(Shifted(Residue(s), n));
  }

  lemma {:induction false} MulShort(a: bv32, b: bv32, m: nat, n: nat)
    requires Left(a, m) == 0
    ensures Mul(a, b, m + n) == Mul(a, b, m)
    decreases m
  {
    hide Plus, Pick, CrcField.Times, Double;
    if m == 0 {
      MulNone(b, n);
    } else {
      LeftFirst(a, m - 1);
      MulShort(Double(a), CrcField.Times(b), m - 1, n);
    }
  }

  lemma ResidueByte(b: octet)
    ensures Shifted(Residue(ByteBits(b)), 24) == b as bv32
  {
    hide Mul, Shifted, Coefs, Left;
    var a := (b as bv32) << 24;
    ResidueCoefs(a, 8);
    ByteLeft(b);
    MulShort(a, ONE, 8, 24);
    MulOne(a, 0, 32);
    HighShifted(b as bv32);
  }

  lemma ByteLeft(b: octet)
    ensures Left((b as bv32) << 24, 8) == 0 && b as bv32 <= 0xff
  {
    var a := (b as bv32) << 24;
    LeftFour(a);
    LeftFour(a << 4);
    LeftMore(a, 4, 4);
  }

  lemma {:induction false} LeftMore(a: bv32, j: nat, k: nat)
    ensures Left(Left(a, j), k) == Left(a, j + k)
  {
    hide Double;
    if k > 0 { LeftMore(a, j, k - 1); }
  }

  /** The register after a message is the remainder of the message times x to the power of
      32. */
  lemma {:induction false} FoldIsRemainder(buf: seq<octet>)
    ensures Fold(0, buf) == Residue(Zeros(32) + Message(buf))
    decreases |buf|
  {
    hide Plus, Shifted, Residue, ByteBits;
    ResidueTimesPower(Message(buf), 32);
    if buf == [] {
      ResidueEmpty();
      ShiftedZero(0, 32);
    } else {
      var n := |buf| - 1;
      var front, b := buf[..n], buf[n];
      FoldIsRemainder(front);
      ResidueTimesPower(Message(front), 32);
      assert buf == front + [b];
      FoldConcat(0, front, [b]);
      assert [b][1..] == [];
      ResidueConcat(ByteBits(b), Message(front));
      ShiftedPlus(Residue(ByteBits(b)), Shifted(Residue(Message(front)), 8), 32);
      ShiftedMore(Residue(Message(front)), 8, 32);
      ShiftedMore(Residue(Message(front)), 32, 8);
      ResidueByte(b);
      ShiftedMore(Residue(ByteBits(b)), 24, 8);
      ShiftedPlus(Fold(0, front), b as bv32, 8);
      Swap(Shifted(b as bv32, 8), Shifted(Fold(0, front), 8));
    }
  }

  lemma ResidueEmpty()
    ensures Residue([]) == 0
  {
  }

  // ----- the checksum

  function Ones(n: nat): (s: Poly)
    ensures |s| == n
  {
    seq(n, _ => true)
  }

  lemma OnesCoefs()
    ensures Coefs(0xffff_ffff, 32) == Ones(32)
  {
    OnesNibbles();
    hide Coefs;
    NextFour(0xffff_ffff, 32);
    NextFour(0xffff_fff0, 28);
    NextFour(0xffff_ff00, 24);
    NextFour(0xffff_f000, 20);
    NextFour(0xffff_0000, 16);
    NextFour(0xfff0_0000, 12);
    NextFour(0xff00_0000, 8);
    NextFour(0xf000_0000, 4);
    assert Coefs(0, 0) == [] by { NoCoefs(); }
  }

  lemma OnesNibbles()
    ensures Coefs(0xffff_ffff, 4) == Coefs(0xffff_fff0, 4) == Coefs(0xffff_ff00, 4) == [true, true, true, true]
    ensures Coefs(0xffff_f000, 4) == Coefs(0xffff_0000, 4) == Coefs(0xfff0_0000, 4) == [true, true, true, true]
    ensures Coefs(0xff00_0000, 4) == Coefs(0xf000_0000, 4) == [true, true, true, true]
  {
    FourCoefs(0xffff_ffff);
    FourCoefs(0xffff_fff0);
    FourCoefs(0xffff_ff00);
    FourCoefs(0xffff_f000);
    FourCoefs(0xffff_0000);
    FourCoefs(0xfff0_0000);
    FourCoefs(0xff00_0000);
    FourCoefs(0xf000_0000);
  }

  lemma Complements(a: bv32)
    ensures !a == Invert(a) && !Invert(a) == a
  {
  }

  /** What is divided: the message times x to the power of 32, plus `start` times x to the power
      of the length of the message. */
  function Dividend(start: Poly, buf: seq<octet>): Poly {
    Sum(Zeros(32) + Message(buf), Zeros(8 * |buf|) + start)
  }

  /** The checksum that goes on from `crc`, complemented, is the remainder of the message, when
      the complement of `crc` is added to what comes first. */
  lemma CrcIsRemainder(crc: bv32, buf: seq<octet>)
    ensures !Crc(crc, buf) == Residue(Dividend(Coefs(!crc, 32), buf))
  {
    hide Plus, Residue, Fold, Shifted, Coefs, Message, Invert, Sum;
    var n, c := 8 * |buf|, Invert(crc);
    Complements(crc);
    Complements(Fold(c, buf));
    Nothing(c);
    Swap(0, c);
    FoldPlus(0, c, buf);
    FoldIsRemainder(buf);
    ElementIs(c);
    ResidueTimesPower(Coefs(c, 32), n);
    ResidueSum(Zeros(32) + Message(buf), Zeros(n) + Coefs(c, 32));
  }

  /** The checksum of a message, complemented, is the remainder of the message times x to the
      power of 32 with the 32 highest coefficients complemented. */
  lemma ChecksumIs(buf: seq<octet>)
    ensures !Crc(0, buf) == Residue(Dividend(Ones(32), buf))
  {
    hide Residue, Coefs, Dividend, Crc;
    CrcIsRemainder(0, buf);
    OnesCoefs();
  }
}
