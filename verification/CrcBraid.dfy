/** The CRC of a buffer in five braids of words. Each braid takes every fifth word and is
    blind to the others; the braids are brought together with the last block. */
module CrcBraid {
  import opened Bits
  import opened CrcField
  import opened Crc32
  import opened CrcTables

  const BLOCK := N * W

  // ----- words

  function LowOf(w: bv64): octet {
    (w & 0xff) as bv8
  }

  function Rest(w: bv64): bv64 {
    w >> 8
  }

  function RestAt(w: bv64, k: nat): bv64 {
    if k == 0 then w else Rest(RestAt(w, k - 1))
  }

  /** The bytes of a word, the lowest first. */
  function Bytes(w: bv64, n: nat): (s: seq<octet>)
    ensures |s| == n
  {
    if n == 0 then [] else [LowOf(w)] + Bytes(Rest(w), n - 1)
  }

  /** The word that begins at place `i`, with its lowest byte first. */
  function WordFrom(buf: seq<octet>, n: nat): bv64
    requires n <= |buf|
  {
    if n == 0 then 0 else Push(WordFrom(buf[1..], n - 1), buf[0])
  }

  /** A word whose low half has the register added. */
  function Mix(w: bv64, f: bv32): bv64 {
    w ^ (f as bv64)
  }

  function LowPart(d: bv64): bv32 {
    (d & 0xff) as bv32
  }

  /** One step of the register over a word. */
  function DataStep(d: bv64): bv64 {
    Mix(Rest(d), Shifted(LowPart(d), 8))
  }

  function DataSteps(d: bv64, k: nat): bv64 {
    if k == 0 then d else DataStep(DataSteps(d, k - 1))
  }

  lemma MixLow(w: bv64, f: bv32)
    ensures LowPart(Mix(w, f)) == LowByte(Plus(f, LowOf(w) as bv32))
    ensures Rest(Mix(w, f)) == Mix(Rest(w), Eighth(f)) && Eighth(Plus(f, LowOf(w) as bv32)) == Eighth(f)
  {
  }

  lemma MixTwice(w: bv64, f: bv32, g: bv32)
    ensures Mix(Mix(w, f), g) == Mix(w, Plus(f, g))
  {
  }

  /** Stepping over a mixed word is stepping over its first byte. */
  lemma MixStep(w: bv64, f: bv32)
    ensures DataStep(Mix(w, f)) == Mix(Rest(w), ByteStep(f, LowOf(w)))
  {
    hide Mix, LowPart, Rest, LowOf, LowByte, Plus, Eighth, Shifted;
    MixLow(w, f);
    ByteShifted(Plus(f, LowOf(w) as bv32));
    MixTwice(Rest(w), Eighth(f), Shifted(LowPart(Mix(w, f)), 8));
  }

  lemma {:induction false} RestFirst(w: bv64, k: nat)
    ensures RestAt(Rest(w), k) == RestAt(w, k + 1)
  {
    hide Rest;
    if k > 0 { RestFirst(w, k - 1); }
  }

  lemma {:induction false} BytesSnoc(w: bv64, k: nat)
    ensures Bytes(w, k + 1) == Bytes(w, k) + [LowOf(RestAt(w, k))]
    decreases k
  {
    hide Rest, LowOf;
    if k > 0 {
      BytesSnoc(Rest(w), k - 1);
      RestFirst(w, k - 1);
    }
  }

  lemma FoldSnoc(f: bv32, s: seq<octet>, b: octet)
    ensures Fold(f, s + [b]) == ByteStep(Fold(f, s), b)
  {
    hide ByteStep;
    FoldConcat(f, s, [b]);
    assert [b][1..] == [];
  }

  lemma {:induction false} MixSteps(w: bv64, f: bv32, k: nat)
    ensures DataSteps(Mix(w, f), k) == Mix(RestAt(w, k), Fold(f, Bytes(w, k)))
  {
    hide Mix, DataStep, ByteStep, Rest, LowOf, Bytes;
    if k == 0 {
      assert Bytes(w, 0) == [];
    } else {
      MixSteps(w, f, k - 1);
      BytesSnoc(w, k - 1);
      FoldSnoc(f, Bytes(w, k - 1), LowOf(RestAt(w, k - 1)));
      MixStep(RestAt(w, k - 1), Fold(f, Bytes(w, k - 1)));
    }
  }

  function LowHalf(d: bv64): bv32 {
    (d & 0xffff_ffff) as bv32
  }

  lemma HalfOfMix(f: bv32)
    ensures LowHalf(Mix(0, f)) == f
  {
  }

  lemma NothingMixed(d: bv64)
    ensures Mix(d, 0) == d
  {
  }

  lemma RestFour(w: bv64)
    ensures RestAt(w, 4) == w >> 32
  {
    assert RestAt(w, 1) == w >> 8;
    assert RestAt(w, 2) == w >> 16;
    assert RestAt(w, 3) == w >> 24;
  }

  lemma {:induction false} RestMore(w: bv64, j: nat, k: nat)
    ensures RestAt(RestAt(w, j), k) == RestAt(w, j + k)
  {
    hide Rest;
    if k > 0 { RestMore(w, j, k - 1); }
  }

  lemma NothingLeft(w: bv64)
    ensures RestAt(w, W) == 0
  {
    hide RestAt;
    RestFour(w);
    RestFour(w >> 32);
    RestMore(w, 4, 4);
    BothHalves(w);
  }

  lemma BothHalves(w: bv64)
    ensures (w >> 32) >> 32 == 0
  {
  }

  /** The register after a word is that after a word it has been added to. */
  lemma WordFold(w: bv64, c: bv32)
    ensures LowHalf(DataSteps(Mix(w, c), W)) == Fold(c, Bytes(w, W)) == Fold(0, Bytes(Mix(w, c), W))
  {
    hide Mix, DataSteps, Fold, Bytes, RestAt, LowHalf;
    var d := Mix(w, c);
    MixSteps(w, c, W);
    MixSteps(d, 0, W);
    NothingMixed(d);
    NothingLeft(w);
    NothingLeft(d);
    HalfOfMix(Fold(c, Bytes(w, W)));
    HalfOfMix(Fold(0, Bytes(d, W)));
  }

  lemma PartIndex(d: bv64)
    ensures LowByte(LowPart(d)) == LowPart(d) == LowOf(d) as bv32
  {
  }

  /** The register after a word that it has been added to. */
  method CrcWord(d: bv64, crc_table: array<bv32>, ghost w: bv64, ghost c: bv32) returns (crc: bv32)
    requires ByteTable(crc_table) && d == Mix(w, c)
    ensures crc == Fold(c, Bytes(w, W))
  {
    hide Mix, Rest, LowPart, LowByte, Index, Shifted, Fold, Bytes, LowHalf;
    var data := d;
    for k := 0 to W
      invariant data == DataSteps(d, k)
    {
      IndexTells(LowPart(data));
      PartIndex(data);
      data := Mix(Rest(data), crc_table[Index(LowPart(data))]);
    }
    WordFold(w, c);
    crc := LowHalf(data);
  }

  /** What a word adds to the register one block later. */
  method BraidWord(d: bv64, ltl: array2<bv32>, ghost w: bv64, ghost c: bv32) returns (crc: bv32)
    requires BraidTables(ltl, N, W) && d == Mix(w, c)
    ensures crc == Shifted(Fold(c, Bytes(w, W)), 8 * (BLOCK - W))
  {
    hide Mix, RestAt, Rest, LowPart, LowOf, LowByte, Index, Shifted, Plus, Fold, Bytes, ByteStep, Ahead, BraidTables;
    NoBytes(d);
    crc := TableAt(ltl, d, 0);
    BraidByte(d, 0, 0, crc);
    for k := 1 to W
      invariant crc == Shifted(Fold(0, Bytes(d, k)), Ahead(N, W, k))
    {
      var entry := TableAt(ltl, d, k);
      BraidByte(d, k, crc, entry);
      crc := Plus(crc, entry);
    }
    AheadAll();
    WordFold(w, c);
  }

  lemma AheadAll()
    ensures Ahead(N, W, W) == 8 * (BLOCK - W)
  {
  }

  method TableAt(ltl: array2<bv32>, d: bv64, k: nat) returns (crc: bv32)
    requires BraidTables(ltl, N, W) && k < W
    ensures crc == Shifted(LowOf(RestAt(d, k)) as bv32, Ahead(N, W, k))
  {
    hide RestAt, LowPart, LowOf, LowByte, Index, Shifted, Ahead;
    IndexTells(LowPart(RestAt(d, k)));
    PartIndex(RestAt(d, k));
    crc := ltl[k, Index(LowPart(RestAt(d, k)))];
  }

  lemma NoBytes(d: bv64)
    ensures Shifted(Fold(0, Bytes(d, 0)), Ahead(N, W, 0)) == 0
  {
    ShiftedZero(0, Ahead(N, W, 0));
  }

  lemma BraidByte(d: bv64, k: nat, crc: bv32, entry: bv32)
    requires k < W && crc == Shifted(Fold(0, Bytes(d, k)), Ahead(N, W, k))
    requires entry == Shifted(LowOf(RestAt(d, k)) as bv32, Ahead(N, W, k))
    ensures Plus(crc, entry) == Shifted(Fold(0, Bytes(d, k + 1)), Ahead(N, W, k + 1))
    ensures k == 0 ==> entry == Shifted(Fold(0, Bytes(d, 1)), Ahead(N, W, 1))
  {
    hide Shifted, Plus, Fold, Bytes, LowOf, RestAt;
    var f, b := Fold(0, Bytes(d, k)), LowOf(RestAt(d, k));
    BytesSnoc(d, k);
    FoldSnoc(0, Bytes(d, k), b);
    ShiftedPlus(f, b as bv32, Ahead(N, W, k));
    ShiftedMore(Plus(f, b as bv32), 8, Ahead(N, W, k + 1));
    if k == 0 {
      NoBytes(d);
      Nothing(entry);
    }
  }

  // ----- words in the buffer

  /** The bytes that a word of `n` bytes has. */
  function Mask(n: nat): bv64 {
    if n == 0 then 0 else (Mask(n - 1) << 8) | 0xff
  }

  predicate Within(x: bv64, m: bv64) {
    x & m == x
  }

  function Push(x: bv64, b: octet): bv64 {
    (x << 8) | (b as bv64)
  }

  lemma PushWithin(x: bv64, m: bv64, b: octet)
    requires Within(x, m)
    ensures Within(Push(x, b), (m << 8) | 0xff)
  {
  }

  lemma PushBack(x: bv64, b: octet)
    requires Within(x, 0x00ff_ffff_ffff_ffff)
    ensures Rest(Push(x, b)) == x && LowOf(Push(x, b)) == b
  {
  }

  lemma WithinMore(x: bv64, m: bv64)
    requires Within(x, m) && Within(m, 0x00ff_ffff_ffff_ffff)
    ensures Within(x, 0x00ff_ffff_ffff_ffff)
  {
  }

  lemma SevenBytes(n: nat)
    requires n < W
    ensures Within(Mask(n), 0x00ff_ffff_ffff_ffff)
  {
    assert Mask(1) == 0xff;
    assert Mask(2) == 0xffff;
    assert Mask(3) == 0xff_ffff;
    assert Mask(4) == 0xffff_ffff;
    assert Mask(5) == 0xff_ffff_ffff;
    assert Mask(6) == 0xffff_ffff_ffff;
    assert Mask(7) == 0xff_ffff_ffff_ffff;
  }

  lemma {:induction false} WordWithin(buf: seq<octet>, n: nat)
    requires n <= |buf|
    ensures Within(WordFrom(buf, n), Mask(n))
    decreases n
  {
    if n > 0 {
      WordWithin(buf[1..], n - 1);
      PushWithin(WordFrom(buf[1..], n - 1), Mask(n - 1), buf[0]);
    }
  }

  /** A word that is read from the buffer has the bytes that are there. */
  lemma {:induction false} WordBytes(buf: seq<octet>, n: nat)
    requires n <= |buf| && n <= W
    ensures Bytes(WordFrom(buf, n), n) == buf[..n]
    decreases n
  {
    hide Within, Rest, LowOf, Push;
    if n > 0 {
      var x := WordFrom(buf[1..], n - 1);
      WordWithin(buf[1..], n - 1);
      SevenBytes(n - 1);
      WithinMore(x, Mask(n - 1));
      PushBack(x, buf[0]);
      WordBytes(buf[1..], n - 1);
      assert buf[..n] == [buf[0]] + buf[1..][..n - 1];
    }
  }
}
