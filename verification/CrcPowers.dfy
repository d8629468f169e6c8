/** The powers x, x squared, x to the fourth and so on: the squares come round after 32
    steps, so a table of 32 of them serves for every power. */
module CrcPowers {
  import opened Bits
  import opened CrcField

  // ----- squares

  function Square(a: bv32): bv32 {
    Product(a, a)
  }

  lemma SquarePlus(a: bv32, b: bv32)
    ensures Square(Plus(a, b)) == Plus(Square(a), Square(b))
  {
    hide Product, Plus;
    var c := Plus(a, b);
    ProductPlus(c, a, b);
    ProductSwap(c, a);
    ProductSwap(c, b);
    ProductPlus(a, a, b);
    ProductPlus(b, a, b);
    ProductSwap(a, b);
    Associate(Square(a), Product(a, b), Plus(Product(a, b), Square(b)));
    Associate(Product(a, b), Product(a, b), Square(b));
    Nothing(Product(a, b));
    Nothing(Square(b));
  }

  lemma SquareTimes(a: bv32)
    ensures Square(Times(a)) == Times(Times(Square(a)))
  {
    hide Mul, Times;
    MulTimes(Times(a), a, 32);
    ProductSwap(Times(a), a);
    MulTimes(a, a, 32);
  }

  lemma SquarePick(a: bv32, b: bv32)
    ensures Square(Pick(a, b)) == Pick(a, Square(b))
  {
    hide Mul;
    MulZero(0, 32);
  }

  /** The sum of the squares of the terms of `a`, the first of which has the square `k`. */
  function Terms(a: bv32, k: bv32, n: nat): bv32
    decreases n
  {
    if n == 0 then 0 else Plus(Pick(a, k), Terms(Double(a), Times(Times(k)), n - 1))
  }

  lemma {:induction false} SquareTerms(a: bv32, b: bv32, n: nat)
    ensures Square(Mul(a, b, n)) == Terms(a, Square(b), n)
    decreases n
  {
    hide Plus, Times, Pick, Square, Double;
    if n == 0 {
      SquareZero();
    } else {
      SquarePlus(Pick(a, b), Mul(Double(a), Times(b), n - 1));
      SquarePick(a, b);
      SquareTerms(Double(a), Times(b), n - 1);
      SquareTimes(b);
    }
  }

  lemma SquareZero()
    ensures Square(0) == 0
  {
    MulZero(0, 32);
  }

  /** Four terms, with their squares. */
  function Four(a: bv32, k0: bv32, k1: bv32, k2: bv32, k3: bv32): bv32 {
    Plus(Pick(a, k0), Plus(Pick(Double(a), k1), Plus(Pick(Double(Double(a)), k2), Pick(Double(Double(Double(a))), k3))))
  }

  function Up(a: bv32): bv32 {
    Double(Double(Double(Double(a))))
  }

  function UpAll(a: bv32): bv32 {
    Up(Up(Up(Up(a))))
  }

  predicate Next(k: bv32, l: bv32) {
    Times(Times(k)) == l
  }

  lemma FourTerms(a: bv32, k0: bv32, k1: bv32, k2: bv32, k3: bv32, k4: bv32, n: nat)
    requires n >= 4 && Next(k0, k1) && Next(k1, k2) && Next(k2, k3) && Next(k3, k4)
    ensures Terms(a, k0, n) == Plus(Four(a, k0, k1, k2, k3), Terms(Up(a), k4, n - 4))
  {
    hide Plus, Times, Pick, Double;
    var rest := Terms(Up(a), k4, n - 4);
    assert Terms(Double(Double(Double(a))), k3, n - 3) == Plus(Pick(Double(Double(Double(a))), k3), rest);
    assert Terms(Double(Double(a)), k2, n - 2)
      == Plus(Pick(Double(Double(a)), k2), Terms(Double(Double(Double(a))), k3, n - 3));
    assert Terms(Double(a), k1, n - 1) == Plus(Pick(Double(a), k1), Terms(Double(Double(a)), k2, n - 2));
    Associate(Pick(Double(Double(a)), k2), Pick(Double(Double(Double(a))), k3), rest);
    Associate(Pick(Double(a), k1), Plus(Pick(Double(Double(a)), k2), Pick(Double(Double(Double(a))), k3)), rest);
    Associate(Pick(a, k0), Plus(Pick(Double(a), k1),
      Plus(Pick(Double(Double(a)), k2), Pick(Double(Double(Double(a))), k3))), rest);
  }

  /** The squares of the powers of x below the sixteenth. */
  function LowTerms(a: bv32): bv32 {
    Plus(Four(a, 0x8000_0000, 0x2000_0000, 0x0800_0000, 0x0200_0000),
      Plus(Four(Up(a), 0x0080_0000, 0x0020_0000, 0x0008_0000, 0x0002_0000),
        Plus(Four(Up(Up(a)), 0x0000_8000, 0x0000_2000, 0x0000_0800, 0x0000_0200),
          Four(Up(Up(Up(a))), 0x0000_0080, 0x0000_0020, 0x0000_0008, 0x0000_0002))))
  }

  /** The squares of the powers from the sixteenth on, of a word that has been shifted. */
  function HighTerms(a: bv32): bv32 {
    Plus(Four(a, 0xedb8_8320, 0x3b6e_20c8, 0x0edb_8832, 0xee0e_612c),
      Plus(Four(Up(a), 0x3b83_984b, 0x9584_24a2, 0xc8d9_8a08, 0x3236_6282),
        Plus(Four(Up(Up(a)), 0xe135_1b80, 0x384d_46e0, 0x0e13_51b8, 0x0384_d46e),
          Four(Up(Up(Up(a))), 0xed59_b63b, 0xa032_af3e, 0xc5b4_28ef, 0xaa09_c88b))))
  }

  lemma SumFour(a: bv32, b: bv32, c: bv32, d: bv32, e: bv32)
    ensures Plus(a, Plus(b, Plus(c, Plus(d, e)))) == Plus(Plus(a, Plus(b, Plus(c, d))), e)
  {
    hide Plus;
    Associate(c, d, e);
    Associate(b, Plus(c, d), e);
    Associate(a, Plus(b, Plus(c, d)), e);
  }

  lemma Nexts()
    ensures Next(0x8000_0000, 0x2000_0000) && Next(0x2000_0000, 0x0800_0000) && Next(0x0800_0000, 0x0200_0000)
    ensures Next(0x0200_0000, 0x0080_0000)
    ensures Next(0x0080_0000, 0x0020_0000) && Next(0x0020_0000, 0x0008_0000) && Next(0x0008_0000, 0x0002_0000)
    ensures Next(0x0002_0000, 0x0000_8000)
    ensures Next(0x0000_8000, 0x0000_2000) && Next(0x0000_2000, 0x0000_0800) && Next(0x0000_0800, 0x0000_0200)
    ensures Next(0x0000_0200, 0x0000_0080)
    ensures Next(0x0000_0080, 0x0000_0020) && Next(0x0000_0020, 0x0000_0008) && Next(0x0000_0008, 0x0000_0002)
    ensures Next(0x0000_0002, 0xedb8_8320)
    ensures Next(0xedb8_8320, 0x3b6e_20c8) && Next(0x3b6e_20c8, 0x0edb_8832) && Next(0x0edb_8832, 0xee0e_612c)
    ensures Next(0xee0e_612c, 0x3b83_984b)
    ensures Next(0x3b83_984b, 0x9584_24a2) && Next(0x9584_24a2, 0xc8d9_8a08) && Next(0xc8d9_8a08, 0x3236_6282)
    ensures Next(0x3236_6282, 0xe135_1b80)
    ensures Next(0xe135_1b80, 0x384d_46e0) && Next(0x384d_46e0, 0x0e13_51b8) && Next(0x0e13_51b8, 0x0384_d46e)
    ensures Next(0x0384_d46e, 0xed59_b63b)
    ensures Next(0xed59_b63b, 0xa032_af3e) && Next(0xa032_af3e, 0xc5b4_28ef) && Next(0xc5b4_28ef, 0xaa09_c88b)
    ensures Next(0xaa09_c88b, 0xb1e6_b092)
  {
  }

  lemma LowHalf(a: bv32, n: nat)
    requires n >= 16
    ensures Terms(a, 0x8000_0000, n) == Plus(LowTerms(a), Terms(UpAll(a), 0xedb8_8320, n - 16))
  {
    hide Plus, Four, Next, Terms, Up;
    Nexts();
    FourTerms(a, 0x8000_0000, 0x2000_0000, 0x0800_0000, 0x0200_0000, 0x0080_0000, n);
    FourTerms(Up(a), 0x0080_0000, 0x0020_0000, 0x0008_0000, 0x0002_0000, 0x0000_8000, n - 4);
    FourTerms(Up(Up(a)), 0x0000_8000, 0x0000_2000, 0x0000_0800, 0x0000_0200, 0x0000_0080, n - 8);
    FourTerms(Up(Up(Up(a))), 0x0000_0080, 0x0000_0020, 0x0000_0008, 0x0000_0002, 0xedb8_8320, n - 12);
    SumFour(Four(a, 0x8000_0000, 0x2000_0000, 0x0800_0000, 0x0200_0000),
            Four(Up(a), 0x0080_0000, 0x0020_0000, 0x0008_0000, 0x0002_0000),
            Four(Up(Up(a)), 0x0000_8000, 0x0000_2000, 0x0000_0800, 0x0000_0200),
            Four(Up(Up(Up(a))), 0x0000_0080, 0x0000_0020, 0x0000_0008, 0x0000_0002),
            Terms(UpAll(a), 0xedb8_8320, n - 16));
  }

  lemma HighHalf(a: bv32, n: nat)
    requires n >= 16
    ensures Terms(a, 0xedb8_8320, n) == Plus(HighTerms(a), Terms(UpAll(a), 0xb1e6_b092, n - 16))
  {
    hide Plus, Four, Next, Terms, Up;
    Nexts();
    FourTerms(a, 0xedb8_8320, 0x3b6e_20c8, 0x0edb_8832, 0xee0e_612c, 0x3b83_984b, n);
    FourTerms(Up(a), 0x3b83_984b, 0x9584_24a2, 0xc8d9_8a08, 0x3236_6282, 0xe135_1b80, n - 4);
    FourTerms(Up(Up(a)), 0xe135_1b80, 0x384d_46e0, 0x0e13_51b8, 0x0384_d46e, 0xed59_b63b, n - 8);
    FourTerms(Up(Up(Up(a))), 0xed59_b63b, 0xa032_af3e, 0xc5b4_28ef, 0xaa09_c88b, 0xb1e6_b092, n - 12);
    SumFour(Four(a, 0xedb8_8320, 0x3b6e_20c8, 0x0edb_8832, 0xee0e_612c),
            Four(Up(a), 0x3b83_984b, 0x9584_24a2, 0xc8d9_8a08, 0x3236_6282),
            Four(Up(Up(a)), 0xe135_1b80, 0x384d_46e0, 0x0e13_51b8, 0x0384_d46e),
            Four(Up(Up(Up(a))), 0xed59_b63b, 0xa032_af3e, 0xc5b4_28ef, 0xaa09_c88b),
            Terms(UpAll(a), 0xb1e6_b092, n - 16));
  }

  lemma SquareIs(a: bv32)
    ensures Square(a) == Plus(LowTerms(a), HighTerms(UpAll(a)))
  {
    hide Plus, Mul, LowTerms, HighTerms;
    MulOne(a, 0, 32);
    SquareTerms(a, ONE, 32);
    MulOne(ONE, 0, 32);
    LowHalf(a, 32);
    HighHalf(UpAll(a), 16);
    Nothing(HighTerms(UpAll(a)));
  }

  // ----- the table of squares

  /** Entry `k` is x to the power of 2 to the power `k`. */
  const SQUARES: seq<bv32> := [
    0x4000_0000, 0x2000_0000, 0x0800_0000, 0x0080_0000,
    0x0000_8000, 0xedb8_8320, 0xb1e6_b092, 0xa06a_2517,
    0xed62_7dae, 0x88d1_4467, 0xd7bb_fe6a, 0xec44_7f11,
    0x8e7e_a170, 0x6427_800e, 0x4d47_bae0, 0x09fe_548f,
    0x8385_2d0f, 0x3036_2f1a, 0x7b5a_9cc3, 0x31fe_c169,
    0x9fec_022a, 0x6c8d_edc4, 0x15d6_874d, 0x5fde_7a4e,
    0xbad9_0e37, 0x2e4e_5eef, 0x4eab_a214, 0xa8a4_72c0,
    0x429a_969e, 0x148d_302a, 0xc40b_a6d0, 0xc4e2_2c3c,
    0x4000_0000
  ]

  function SquareOf(i: nat): bv32
    requires i <= 32
  {
    SQUARES[i]
  }

  lemma Evaluated(a: bv32, b: bv32)
    requires Plus(LowTerms(a), HighTerms(UpAll(a))) == b
    ensures Square(a) == b
  {
    hide Plus, LowTerms, HighTerms, Square;
    SquareIs(a);
  }

  lemma Squares0()
    ensures Square(0x4000_0000) == 0x2000_0000
    ensures Square(0x2000_0000) == 0x0800_0000
  {
    hide Square;
    Evaluated(0x4000_0000, 0x2000_0000);
    Evaluated(0x2000_0000, 0x0800_0000);
  }

  lemma Squares1()
    ensures Square(0x0800_0000) == 0x0080_0000
    ensures Square(0x0080_0000) == 0x0000_8000
  {
    hide Square;
    Evaluated(0x0800_0000, 0x0080_0000);
    Evaluated(0x0080_0000, 0x0000_8000);
  }

  lemma Squares2()
    ensures Square(0x0000_8000) == 0xedb8_8320
    ensures Square(0xedb8_8320) == 0xb1e6_b092
  {
    hide Square;
    Evaluated(0x0000_8000, 0xedb8_8320);
    Evaluated(0xedb8_8320, 0xb1e6_b092);
  }

  lemma Squares3()
    ensures Square(0xb1e6_b092) == 0xa06a_2517
    ensures Square(0xa06a_2517) == 0xed62_7dae
  {
    hide Square;
    Evaluated(0xb1e6_b092, 0xa06a_2517);
    Evaluated(0xa06a_2517, 0xed62_7dae);
  }

  lemma Squares4()
    ensures Square(0xed62_7dae) == 0x88d1_4467
    ensures Square(0x88d1_4467) == 0xd7bb_fe6a
  {
    hide Square;
    Evaluated(0xed62_7dae, 0x88d1_4467);
    Evaluated(0x88d1_4467, 0xd7bb_fe6a);
  }

  lemma Squares5()
    ensures Square(0xd7bb_fe6a) == 0xec44_7f11
    ensures Square(0xec44_7f11) == 0x8e7e_a170
  {
    hide Square;
    Evaluated(0xd7bb_fe6a, 0xec44_7f11);
    Evaluated(0xec44_7f11, 0x8e7e_a170);
  }

  lemma Squares6()
    ensures Square(0x8e7e_a170) == 0x6427_800e
    ensures Square(0x6427_800e) == 0x4d47_bae0
  {
    hide Square;
    Evaluated(0x8e7e_a170, 0x6427_800e);
    Evaluated(0x6427_800e, 0x4d47_bae0);
  }

  lemma Squares7()
    ensures Square(0x4d47_bae0) == 0x09fe_548f
    ensures Square(0x09fe_548f) == 0x8385_2d0f
  {
    hide Square;
    Evaluated(0x4d47_bae0, 0x09fe_548f);
    Evaluated(0x09fe_548f, 0x8385_2d0f);
  }

  lemma Squares8()
    ensures Square(0x8385_2d0f) == 0x3036_2f1a
    ensures Square(0x3036_2f1a) == 0x7b5a_9cc3
  {
    hide Square;
    Evaluated(0x8385_2d0f, 0x3036_2f1a);
    Evaluated(0x3036_2f1a, 0x7b5a_9cc3);
  }

  lemma Squares9()
    ensures Square(0x7b5a_9cc3) == 0x31fe_c169
    ensures Square(0x31fe_c169) == 0x9fec_022a
  {
    hide Square;
    Evaluated(0x7b5a_9cc3, 0x31fe_c169);
    Evaluated(0x31fe_c169, 0x9fec_022a);
  }

  lemma Squares10()
    ensures Square(0x9fec_022a) == 0x6c8d_edc4
    ensures Square(0x6c8d_edc4) == 0x15d6_874d
  {
    hide Square;
    Evaluated(0x9fec_022a, 0x6c8d_edc4);
    Evaluated(0x6c8d_edc4, 0x15d6_874d);
  }

  lemma Squares11()
    ensures Square(0x15d6_874d) == 0x5fde_7a4e
    ensures Square(0x5fde_7a4e) == 0xbad9_0e37
  {
    hide Square;
    Evaluated(0x15d6_874d, 0x5fde_7a4e);
    Evaluated(0x5fde_7a4e, 0xbad9_0e37);
  }

  lemma Squares12()
    ensures Square(0xbad9_0e37) == 0x2e4e_5eef
    ensures Square(0x2e4e_5eef) == 0x4eab_a214
  {
    hide Square;
    Evaluated(0xbad9_0e37, 0x2e4e_5eef);
    Evaluated(0x2e4e_5eef, 0x4eab_a214);
  }

  lemma Squares13()
    ensures Square(0x4eab_a214) == 0xa8a4_72c0
    ensures Square(0xa8a4_72c0) == 0x429a_969e
  {
    hide Square;
    Evaluated(0x4eab_a214, 0xa8a4_72c0);
    Evaluated(0xa8a4_72c0, 0x429a_969e);
  }

  lemma Squares14()
    ensures Square(0x429a_969e) == 0x148d_302a
    ensures Square(0x148d_302a) == 0xc40b_a6d0
  {
    hide Square;
    Evaluated(0x429a_969e, 0x148d_302a);
    Evaluated(0x148d_302a, 0xc40b_a6d0);
  }

  lemma Squares15()
    ensures Square(0xc40b_a6d0) == 0xc4e2_2c3c
    ensures Square(0xc4e2_2c3c) == 0x4000_0000
  {
    hide Square;
    Evaluated(0xc40b_a6d0, 0xc4e2_2c3c);
    Evaluated(0xc4e2_2c3c, 0x4000_0000);
  }

  lemma SquareOfNext(k: nat)
    requires k < 32
    ensures Square(SquareOf(k)) == SquareOf(k + 1)
  {
    hide Square;
    Squares0();
    Squares1();
    Squares2();
    Squares3();
    Squares4();
    Squares5();
    Squares6();
    Squares7();
    Squares8();
    Squares9();
    Squares10();
    Squares11();
    Squares12();
    Squares13();
    Squares14();
    Squares15();
  }

  lemma SquareShifted(n: nat)
    ensures Square(Shifted(ONE, n)) == Shifted(ONE, n + n)
  {
    hide Product;
    ShiftedProduct(Shifted(ONE, n), n);
    ShiftedMore(ONE, n, n);
  }

  /** What the table has for a power of 2; its index is taken modulo 32. */
  function Entry(k: nat): bv32 {
    SquareOf(k % 32)
  }

  lemma EntryCut(k: nat)
    ensures Entry(k) == Entry(k % 32)
  {
    hide SquareOf;
    assert k % 32 % 32 == k % 32;
  }

  lemma EntryNext(k: nat)
    ensures Square(Entry(k)) == Entry(k + 1)
  {
    hide Square, SquareOf;
    SquareOfNext(k % 32);
    RoundAgain();
    NextIndex(k);
  }

  lemma RoundAgain()
    ensures SquareOf(32) == SquareOf(0)
  {
  }

  lemma NextIndex(k: nat)
    ensures (k + 1) % 32 == if k % 32 == 31 then 0 else k % 32 + 1
  {
  }

  lemma FirstEntry()
    ensures Entry(0) == X
  {
  }

  /** The table serves for every power of 2, because it comes round. */
  lemma {:induction false} PowerSquares(k: nat)
    ensures Shifted(ONE, Pow2(k)) == Entry(k)
  {
    hide Square, Entry, Shifted;
    if k == 0 {
      FirstPower();
      FirstEntry();
    } else {
      PowerSquares(k - 1);
      SquareShifted(Pow2(k - 1));
      EntryNext(k - 1);
    }
  }

  lemma FirstPower()
    ensures Shifted(ONE, 1) == X
  {
    assert Shifted(ONE, 0) == ONE;
  }
}
