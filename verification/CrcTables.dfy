/** The tables of the CRC, and the bytes of a word. */
module CrcTables {
  import opened Bits
  import opened CrcField
  import opened CrcPowers
  import opened Crc32

  /** The number of braids, and of bytes in a word. */
  const N := 5
  const W := 8

  // ----- one byte and the rest of the register

  function LowByte(a: bv32): bv32 {
    a & 0xff
  }

  function Eighth(a: bv32): bv32 {
    a >> 8
  }

  lemma {:induction false} ClearShifted(a: bv32, n: nat)
    requires Clear(a, n)
    ensures Shifted(a, n) == Right(a, n)
    decreases n
  {
    hide Half, Odd;
    if n > 0 {
      ShiftedMore(a, 1, n - 1);
      ShiftedOnce(a);
      ClearShifted(Half(a), n - 1);
    }
  }

  lemma ShiftedOnce(a: bv32)
    ensures Shifted(a, 1) == Times(a)
  {
    assert Shifted(a, 0) == a;
  }

  function Upper(a: bv32): bv32 {
    a & 0xffff_ff00
  }

  lemma ByteParts(a: bv32)
    ensures a == Plus(Upper(a), LowByte(a)) && Eighth(Upper(a)) == Eighth(a)
  {
  }

  predicate LowNone(a: bv32) {
    a & 0xff == 0
  }

  lemma UpperClear(a: bv32)
    ensures Clear(Upper(a), 8)
  {
    hide Upper, Clear, Right, LowNone;
    UpperNone(a);
    FirstClear(Upper(a));
    NextClear(Upper(a));
    ClearMore(Upper(a), 4, 4);
  }

  lemma UpperNone(a: bv32)
    ensures LowNone(Upper(a))
  {
  }

  lemma FirstClear(a: bv32)
    requires LowNone(a)
    ensures Clear(a, 4)
  {
    hide Clear;
    assert a & 0xf == 0;
    ClearFour(a);
  }

  lemma NextClear(a: bv32)
    requires LowNone(a)
    ensures Clear(Right(a, 4), 4)
  {
    hide Clear, Right;
    RightFour(a);
    assert (a >> 4) & 0xf == 0;
    ClearFour(a >> 4);
  }

  lemma ClearFour(a: bv32)
    requires a & 0xf == 0
    ensures Clear(a, 4)
  {
    assert !Odd(a) && !Odd(Half(a)) && !Odd(Half(Half(a))) && !Odd(Half(Half(Half(a))));
  }

  lemma {:induction false} ClearMore(a: bv32, m: nat, n: nat)
    requires Clear(a, m) && Clear(Right(a, m), n)
    ensures Clear(a, m + n)
    decreases m
  {
    hide Half, Odd;
    if m > 0 { ClearMore(Half(a), m - 1, n); }
  }

  /** A register goes on by a byte as the rest of it and the entry for its low byte. */
  lemma ByteShifted(a: bv32)
    ensures Shifted(a, 8) == Plus(Eighth(a), Shifted(LowByte(a), 8))
  {
    hide Plus, Upper, LowByte, Eighth, Shifted, Right, Clear;
    ByteParts(a);
    ShiftedPlus(Upper(a), LowByte(a), 8);
    UpperClear(a);
    ClearShifted(Upper(a), 8);
    RightEight(Upper(a));
  }

  lemma RightEight(a: bv32)
    ensures Right(a, 8) == Eighth(a)
  {
    hide Right;
    FourFour(a);
    RightFour(a);
    RightFour(a >> 4);
    RightMore(a, 4, 4);
  }

  lemma FourFour(a: bv32)
    ensures (a >> 4) >> 4 == Eighth(a)
  {
  }

  // ----- the tables

  function OfNat(i: nat): bv32
    requires i < 256
  {
    i as bv32
  }

  /** The index of the low byte in a table. */
  function Index(a: bv32): (i: nat)
    ensures i < 256
  {
    LowIndex(LowByte(a));
    LowByte(a) as nat
  }

  lemma LowIndex(u: bv32)
    requires u <= 0xff
    ensures u as nat < 256
  {
  }

  lemma IndexTells(a: bv32)
    ensures OfNat(Index(a)) == LowByte(a)
  {
    BackFromNat(LowByte(a));
  }

  lemma BackFromNat(u: bv32)
    ensures (u as nat) as bv32 == u
  {
  }

  /** The table for a byte at a time. */
  ghost predicate ByteTable(table: array<bv32>)
    reads table
  {
    table.Length == 256 && forall i :: 0 <= i < 256 ==> table[i] == Shifted(OfNat(i), 8)
  }

  ghost predicate PowerTable(table: array<bv32>)
    reads table
  {
    table.Length == 32 && forall k :: 0 <= k < 32 ==> table[k] == Entry(k)
  }

  /** How far byte `k` of a word of `w` bytes is from where it counts `n` words later. */
  function Ahead(n: nat, w: nat, k: nat): nat {
    if k <= n * w then 8 * (n * w - k) else 0
  }

  /** Table `k` takes byte `k` of a word to where it counts one block later. */
  ghost predicate BraidTables(ltl: array2<bv32>, n: nat, w: nat)
    reads ltl
  {
    && ltl.Length0 == w && ltl.Length1 == 256
    && forall k, i :: 0 <= k < w && 0 <= i < 256 ==> ltl[k, i] == Shifted(OfNat(i), Ahead(n, w, k))
  }

  /** The table for a byte at a time, bit by bit. */
  method MakeCrcTable(crc_table: array<bv32>)
    requires crc_table.Length == 256
    modifies crc_table
    ensures ByteTable(crc_table)
  {
    hide Plus, Half, Odd;
    for i := 0 to 256
      invariant forall j :: 0 <= j < i ==> crc_table[j] == Shifted(OfNat(j), 8)
    {
      var p := OfNat(i);
      for j := 0 to 8
        invariant p == Shifted(OfNat(i), j)
      {
        p := if Odd(p) then Plus(Half(p), POLY) else Half(p);
      }
      crc_table[i] := p;
    }
  }

  /** The table of squares. */
  method MakePowers(x2n_table: array<bv32>)
    requires x2n_table.Length == 32
    modifies x2n_table
    ensures PowerTable(x2n_table)
  {
    hide Entry, Product, Shifted;
    FirstEntry();
    var p := X;
    x2n_table[0] := p;
    for n := 1 to 32
      invariant p == Entry(n - 1) && forall k :: 0 <= k < n ==> x2n_table[k] == Entry(k)
    {
      EntryNext(n - 1);
      PowerSquares(n - 1);
      PowerNotZero(Pow2(n - 1));
      p := Multmodp(p, p);
      x2n_table[n] := p;
    }
  }

  lemma PowerNotZero(n: nat)
    ensures Shifted(ONE, n) != 0
  {
    ShiftedZero(ONE, n);
  }

  // ----- powers of x

  lemma {:induction false} ShiftLeftHalf(n: nat, k: nat)
    ensures ShiftLeft(n, k) == ShiftLeft(n / 2, k + 1) + (n % 2) * Pow2(k)
  {
    if k > 0 { ShiftLeftHalf(n, k - 1); }
  }

  /** x to the power of `n` times 2 to the power `k`. The index of the table is cut to five
      bits; that does no harm for any `k`. */
  method X2nmodp(n0: nat, k0: nat, x2n_table: array<bv32>) returns (p: bv32)
    requires PowerTable(x2n_table)
    ensures p == Shifted(ONE, ShiftLeft(n0, k0))
  {
    hide Shifted, Product, Entry, ShiftLeft;
    p := ONE;
    var n, k := n0, k0;
    ProductOne(Shifted(ONE, ShiftLeft(n0, k0)));
    while n != 0
      invariant 0 <= n && 0 <= k && Product(Shifted(ONE, ShiftLeft(n, k)), p) == Shifted(ONE, ShiftLeft(n0, k0))
      decreases n
    {
      ShiftLeftHalf(n, k);
      if n % 2 == 1 {
        PowerSquares(k);
        EntryCut(k);
        PowerNotZero(Pow2(k));
        OneMore(ShiftLeft(n / 2, k + 1), Pow2(k), p);
        p := Multmodp(x2n_table[k % 32], p);
      }
      n := n / 2;
      k := k + 1;
    }
    NoneLeft(k, p);
  }

  lemma OneMore(m: nat, j: nat, p: bv32)
    ensures Product(Shifted(ONE, m + j), p) == Product(Shifted(ONE, m), Product(Shifted(ONE, j), p))
  {
    hide Shifted, Product;
    ShiftedMore(ONE, j, m);
    ShiftedProduct(Shifted(ONE, j), m);
    ProductAssociates(Shifted(ONE, m), Shifted(ONE, j), p);
  }

  lemma {:induction false} NoneLeft(k: nat, p: bv32)
    ensures ShiftLeft(0, k) == 0 && Product(Shifted(ONE, ShiftLeft(0, k)), p) == p
  {
    if k > 0 {
      NoneLeft(k - 1, p);
    } else {
      ProductOne(p);
      assert Shifted(ONE, 0) == ONE;
    }
  }

  // ----- the braid tables

  /** The tables for braids of `n` words of `w` bytes. */
  method Braid(ltl: array2<bv32>, n: nat, w: nat, x2n_table: array<bv32>)
    requires PowerTable(x2n_table) && ltl.Length0 == w && ltl.Length1 == 256 && n >= 1
    modifies ltl
    ensures BraidTables(ltl, n, w)
  {
    hide Shifted, Product, PowerTable;
    for k := 0 to w
      invariant forall j, i :: 0 <= j < k && 0 <= i < 256 ==> ltl[j, i] == Shifted(OfNat(i), Ahead(n, w, j))
    {
      LessThanBlock(n, w, k);
      var p := X2nmodp((n * w + 3 - k) * 8, 0, x2n_table);
      ltl[k, 0] := 0;
      ZeroByte(Ahead(n, w, k));
      for i := 1 to 256
        invariant forall j, l :: 0 <= j < k && 0 <= l < 256 ==> ltl[j, l] == Shifted(OfNat(l), Ahead(n, w, j))
        invariant forall l :: 0 <= l < i ==> ltl[k, l] == Shifted(OfNat(l), Ahead(n, w, k))
      {
        BraidEntry(i, n * w - k);
        ltl[k, i] := Multmodp(HighByte(i), p);
      }
    }
  }

  lemma LessThanBlock(n: nat, w: nat, k: nat)
    requires n >= 1 && k < w
    ensures k < n * w
  {
    assert (n - 1) * w >= 0;
  }

  lemma ZeroByte(n: nat)
    ensures Shifted(OfNat(0), n) == 0
  {
    ShiftedZero(0, n);
  }

  function HighByte(i: nat): bv32
    requires i < 256
  {
    OfNat(i) << 24
  }

  lemma BraidEntry(i: nat, m: nat)
    requires 0 < i < 256
    ensures HighByte(i) != 0
    ensures Product(HighByte(i), Shifted(ONE, ShiftLeft((m + 3) * 8, 0))) == Shifted(OfNat(i), 8 * m)
  {
    hide Shifted, Product;
    HighShifted(OfNat(i));
    NotZero(i);
    ShiftedMore(HighByte(i), 24, 8 * m);
    ProductSwap(HighByte(i), Shifted(ONE, (m + 3) * 8));
    ShiftedProduct(HighByte(i), (m + 3) * 8);
    assert ShiftLeft((m + 3) * 8, 0) == 24 + 8 * m;
  }

  lemma NotZero(i: nat)
    requires 0 < i < 256
    ensures OfNat(i) != 0 && OfNat(i) <= 0xff
  {
  }

  lemma HighShifted(b: bv32)
    requires b <= 0xff
    ensures Shifted(b << 24, 24) == b && (b != 0 ==> b << 24 != 0)
  {
    hide Shifted, Right, Clear;
    HighParts(b);
    ShiftedMore(b << 24, 8, 8);
    ShiftedMore(b << 24, 16, 8);
    EightClear(b << 24);
    EightClear(b << 16);
    EightClear(b << 8);
  }

  lemma EightClear(a: bv32)
    requires LowByte(a) == 0
    ensures Shifted(a, 8) == Eighth(a)
  {
    hide Shifted, Eighth, LowByte, Plus;
    ByteShifted(a);
    ShiftedZero(0, 8);
    Nothing(Eighth(a));
  }

  lemma HighParts(b: bv32)
    requires b <= 0xff
    ensures LowByte(b << 24) == 0 && LowByte(b << 16) == 0 && LowByte(b << 8) == 0
    ensures Eighth(b << 24) == b << 16 && Eighth(b << 16) == b << 8 && Eighth(b << 8) == b
    ensures b != 0 ==> b << 24 != 0
  {
  }
}
