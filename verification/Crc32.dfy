/** CRC-32 as zlib computes it: one byte at a time, in five braids of words, and for two
    parts of a buffer together. */
module Crc32 {
  import opened Bits
  import opened Wrappers
  import opened CrcField
  import opened CrcPowers

  type octet = bv8

  // ----- one byte at a time

  function ByteStep(c: bv32, b: octet): bv32 {
    Shifted(Plus(c, b as bv32), 8)
  }

  /** The register after the bytes. */
  function Fold(c: bv32, buf: seq<octet>): bv32
    decreases |buf|
  {
    if buf == [] then c else Fold(ByteStep(c, buf[0]), buf[1..])
  }

  const ALL: bv32 := 0xffff_ffff

  function Invert(a: bv32): bv32 {
    Plus(a, ALL)
  }

  /** The checksum: the register is inverted before and after. */
  function Crc(crc: bv32, buf: seq<octet>): bv32 {
    Invert(Fold(Invert(crc), buf))
  }

  lemma {:induction false} FoldConcat(c: bv32, a: seq<octet>, b: seq<octet>)
    ensures Fold(c, a + b) == Fold(Fold(c, a), b)
    decreases |a|
  {
    if a == [] {
      assert a + b == b;
    } else {
      assert (a + b)[1..] == a[1..] + b;
      FoldConcat(ByteStep(c, a[0]), a[1..], b);
    }
  }

  /** The register is linear in what it began with. */
  lemma {:induction false} FoldPlus(c: bv32, d: bv32, buf: seq<octet>)
    ensures Fold(Plus(c, d), buf) == Plus(Fold(c, buf), Shifted(d, 8 * |buf|))
    decreases |buf|
  {
    hide Plus, Shifted;
    if buf == [] {
      ShiftedNone(d);
    } else {
      StepPlus(c, d, buf[0]);
      FoldPlus(ByteStep(c, buf[0]), Shifted(d, 8), buf[1..]);
      ShiftedMore(d, 8, 8 * |buf[1..]|);
    }
  }

  lemma ShiftedNone(d: bv32)
    ensures Shifted(d, 0) == d
  {
  }

  lemma StepPlus(c: bv32, d: bv32, b: octet)
    ensures ByteStep(Plus(c, d), b) == Plus(ByteStep(c, b), Shifted(d, 8))
  {
    hide Plus, Shifted;
    var e := b as bv32;
    Associate(c, d, e);
    Swap(d, e);
    Associate(c, e, d);
    ShiftedPlus(Plus(c, e), d, 8);
  }

  // ----- two parts

  /** The checksum of two parts, from those of the parts and the length of the second. */
  lemma CombineParts(a: seq<octet>, b: seq<octet>)
    ensures Crc(0, a + b) == Plus(Product(Shifted(ONE, 8 * |b|), Crc(0, a)), Crc(0, b))
  {
    hide Plus, Product, Shifted, Fold;
    var n, fa := 8 * |b|, Fold(ALL, a);
    Nothing(ALL);
    FoldConcat(ALL, a, b);
    Nothing(fa);
    FoldPlus(0, fa, b);
    FoldPlus(0, ALL, b);
    ShiftedPlus(fa, ALL, n);
    ShiftedProduct(Plus(fa, ALL), n);
    SumSix(Fold(0, b), Shifted(fa, n), Shifted(ALL, n), ALL);
  }

  lemma SumSix(f: bv32, x: bv32, y: bv32, o: bv32)
    ensures Plus(Plus(f, x), o) == Plus(Plus(x, y), Plus(Plus(f, y), o))
  {
    hide Plus;
    Swap(f, x);
    Associate(x, f, o);
    Associate(x, y, Plus(Plus(f, y), o));
    Swap(f, y);
    Associate(y, f, o);
    Associate(y, y, Plus(f, o));
    Nothing(y);
    Nothing(Plus(f, o));
  }
}
