/** The bit table that marks where the buckets of the fallback sort begin. */
module BucketFlags {
  import opened Bits

  // ----- one word

  /** The word with only bit `a` set. */
  function Mask(a: nat): bv32 {
    if a == 0 then 1 else Mask(a - 1) << 1
  }

  lemma MaskValues()
    ensures forall a :: 0 <= a < 31 ==> Mask(a) & 0x8000_0000 == 0
  {
    assert Mask(0) == 0x1 && Mask(1) == 0x2 && Mask(2) == 0x4 && Mask(3) == 0x8;
    assert Mask(4) == 0x10 && Mask(5) == 0x20 && Mask(6) == 0x40 && Mask(7) == 0x80;
    assert Mask(8) == 0x100 && Mask(9) == 0x200 && Mask(10) == 0x400 && Mask(11) == 0x800;
    assert Mask(12) == 0x1000 && Mask(13) == 0x2000 && Mask(14) == 0x4000 && Mask(15) == 0x8000;
    assert Mask(16) == 0x1_0000 && Mask(17) == 0x2_0000 && Mask(18) == 0x4_0000 && Mask(19) == 0x8_0000;
    assert Mask(20) == 0x10_0000 && Mask(21) == 0x20_0000 && Mask(22) == 0x40_0000 && Mask(23) == 0x80_0000;
    assert Mask(24) == 0x100_0000 && Mask(25) == 0x200_0000 && Mask(26) == 0x400_0000 && Mask(27) == 0x800_0000;
    assert Mask(28) == 0x1000_0000 && Mask(29) == 0x2000_0000 && Mask(30) == 0x4000_0000;
  }

  lemma ShiftAnd(x: bv32, y: bv32)
    ensures (x << 1) & (y << 1) == (x & y) << 1
  {
  }

  lemma ShiftKeeps(z: bv32)
    requires z & 0x8000_0000 == 0
    ensures z << 1 == 0 <==> z == 0
  {
  }

  lemma ShiftEven(x: bv32)
    ensures (x << 1) & 1 == 0 && 1 & (x << 1) == 0
  {
  }

  lemma AndTop(x: bv32, y: bv32)
    requires x & 0x8000_0000 == 0
    ensures (x & y) & 0x8000_0000 == 0
  {
  }

  lemma {:induction false} MaskDistinct(a: nat, b: nat)
    requires a < 32 && b < 32
    ensures Mask(a) & Mask(b) == 0 <==> a != b
  {
    if a > 0 && b > 0 {
      var x, y := Mask(a - 1), Mask(b - 1);
      MaskDistinct(a - 1, b - 1);
      ShiftAnd(x, y);
      MaskValues();
      AndTop(x, y);
      ShiftKeeps(x & y);
    } else if a > 0 {
      ShiftEven(Mask(a - 1));
    } else if b > 0 {
      ShiftEven(Mask(b - 1));
    }
  }

  /** The two words have a bit in common. */
  predicate Meets(x: bv32, y: bv32) {
    x & y != 0
  }

  lemma MeetsOr(w: bv32, x: bv32, y: bv32)
    ensures Meets(w | x, y) <==> Meets(w, y) || Meets(x, y)
  {
    assert (w | x) & y == (w & y) | (x & y);
  }

  lemma MeetsClear(w: bv32, x: bv32, y: bv32)
    ensures !Meets(x, y) ==> (Meets(w & !x, y) <==> Meets(w, y))
    ensures x == y ==> !Meets(w & !x, y)
  {
    assert x & y == 0 ==> (w & !x) & y == w & y;
  }

  lemma MasksMeet(a: nat, b: nat)
    requires a < 32 && b < 32
    ensures Meets(Mask(a), Mask(b)) <==> a == b
  {
    MaskDistinct(a, b);
  }

  predicate BitSet(w: bv32, a: nat) {
    Meets(w, Mask(a))
  }

  lemma MaskMeets(a: nat, b: nat) returns (x: bv32)
    requires a < 32 && b < 32
    ensures x == Mask(a) && (Meets(x, Mask(b)) <==> a == b)
  {
    MasksMeet(a, b);
    x := Mask(a);
  }

  lemma SetWord(w: bv32, x: bv32, a: nat, b: nat)
    requires a < 32 && b < 32 && x == Mask(a)
    ensures BitSet(w | x, b) <==> a == b || BitSet(w, b)
  {
    hide Mask, Meets;
    var y := MaskMeets(a, b);
    MeetsOr(w, x, Mask(b));
  }

  lemma ClearWord(w: bv32, x: bv32, a: nat, b: nat)
    requires a < 32 && b < 32 && x == Mask(a)
    ensures BitSet(w & !x, b) <==> a != b && BitSet(w, b)
  {
    hide Mask, Meets;
    var y := MaskMeets(a, b);
    if a == b {
      MeetsClear(w, Mask(b), Mask(b));
    } else {
      MeetsClear(w, x, Mask(b));
    }
  }

  lemma WholeWord(w: bv32, b: nat)
    requires b < 32
    ensures w == 0xffff_ffff ==> BitSet(w, b)
    ensures w == 0 ==> !BitSet(w, b)
  {
    hide Mask, Meets;
    var y := MaskMeets(b, b);
    MeetsAll(Mask(b));
  }

  lemma MeetsAll(x: bv32)
    ensures Meets(x, x) ==> Meets(0xffff_ffff, x)
    ensures !Meets(0, x)
  {
  }

  // ----- the table

  /** The table stands for the flags `h`. */
  ghost predicate Marks(bhtab: array<bv32>, h: seq<bool>)
    reads bhtab
  {
    |h| <= 32 * bhtab.Length && forall k :: 0 <= k < |h| ==> (BitSet(bhtab[k / 32], k % 32) <==> h[k])
  }

  method SetBH(bhtab: array<bv32>, k: nat, ghost h: seq<bool>)
    requires Marks(bhtab, h) && k < |h|
    modifies bhtab
    ensures Marks(bhtab, h[k := true])
  {
    hide BitSet, Mask;
    var w, mask := bhtab[k / 32], Mask(k % 32);
    ghost var old_w := w;
    forall b: nat | b < 32 ensures BitSet(w | mask, b) <==> k % 32 == b || BitSet(w, b) {
      SetWord(w, mask, k % 32, b);
    }
    bhtab[k / 32] := w | mask;
    forall q | 0 <= q < |h| ensures BitSet(bhtab[q / 32], q % 32) <==> h[k := true][q] {
      SameBit(k, q);
    }
  }

  method ClearBH(bhtab: array<bv32>, k: nat, ghost h: seq<bool>)
    requires Marks(bhtab, h) && k < |h|
    modifies bhtab
    ensures Marks(bhtab, h[k := false])
  {
    hide BitSet, Mask;
    var w, mask := bhtab[k / 32], Mask(k % 32);
    forall b: nat | b < 32 ensures BitSet(w & !mask, b) <==> k % 32 != b && BitSet(w, b) {
      ClearWord(w, mask, k % 32, b);
    }
    bhtab[k / 32] := w & !mask;
    forall q | 0 <= q < |h| ensures BitSet(bhtab[q / 32], q % 32) <==> h[k := false][q] {
      SameBit(k, q);
    }
  }

  lemma SameBit(k: nat, q: nat)
    ensures k / 32 == q / 32 && k % 32 == q % 32 ==> k == q
  {
  }

  // ----- searching

  /** The flags of `nblock` entries, and the sentinels after them: set and clear
      flags in turn. */
  ghost predicate Fenced(h: seq<bool>, nblock: nat) {
    |h| == nblock + 64 && forall i :: nblock <= i < |h| ==> (h[i] <==> (i - nblock) % 2 == 0)
  }

  ghost predicate AllSet(h: seq<bool>, i: int, j: int) {
    forall q :: i <= q < j && 0 <= q < |h| ==> h[q]
  }

  ghost predicate AllClear(h: seq<bool>, i: int, j: int) {
    forall q :: i <= q < j && 0 <= q < |h| ==> !h[q]
  }

  lemma SetWordMarks(bhtab: array<bv32>, h: seq<bool>, k: nat)
    requires Marks(bhtab, h) && k % 32 == 0 && k + 32 <= |h|
    ensures bhtab[k / 32] == 0xffff_ffff ==> AllSet(h, k, k + 32)
    ensures bhtab[k / 32] == 0 ==> AllClear(h, k, k + 32)
  {
    hide BitSet;
    forall q | k <= q < k + 32
      ensures bhtab[k / 32] == 0xffff_ffff ==> h[q]
      ensures bhtab[k / 32] == 0 ==> !h[q]
    {
      assert q / 32 == k / 32;
      WholeWord(bhtab[q / 32], q % 32);
    }
  }

  /** A word of equal flags ends before a flag that differs. */
  lemma StaysBefore(h: seq<bool>, k: nat, stop: nat)
    requires k <= stop < |h|
    ensures AllSet(h, k, k + 32) && !h[stop] ==> k + 32 <= stop
    ensures AllClear(h, k, k + 32) && h[stop] ==> k + 32 <= stop
  {
  }

  /** Flag `k` of the table. */
  predicate IsSetBH(bhtab: array<bv32>, k: nat)
    reads bhtab
  {
    k / 32 < bhtab.Length && BitSet(bhtab[k / 32], k % 32)
  }

  lemma TableFlags(bhtab: array<bv32>, h: seq<bool>)
    requires Marks(bhtab, h)
    ensures forall k: nat :: k < |h| ==> (IsSetBH(bhtab, k) <==> h[k])
  {
    forall k: nat | k < |h| ensures IsSetBH(bhtab, k) <==> h[k] {
      assert k / 32 < bhtab.Length;
    }
  }

  /** Skips whole words of set flags. */
  method SkipSetWords(bhtab: array<bv32>, k0: nat, nblock: nat, ghost h: seq<bool>) returns (k: nat)
    requires Marks(bhtab, h) && Fenced(h, nblock) && k0 <= nblock + 1 && k0 % 32 == 0
    ensures k0 <= k <= nblock + 1 && AllSet(h, k0, k)
  {
    hide BitSet;
    k := k0;
    while bhtab[k / 32] == 0xffff_ffff
      invariant k0 <= k <= nblock + 1 && AllSet(h, k0, k) && k % 32 == 0
      decreases nblock + 1 - k
    {
      SetWordMarks(bhtab, h, k);
      StaysBefore(h, k, nblock + 1);
      k := k + 32;
    }
  }

  /** The first clear flag from `k0` on. */
  method FindClear(bhtab: array<bv32>, k0: nat, nblock: nat, ghost h: seq<bool>) returns (k: nat)
    requires Marks(bhtab, h) && Fenced(h, nblock) && k0 <= nblock
    ensures k0 <= k <= nblock + 1 && AllSet(h, k0, k) && !h[k]
  {
    TableFlags(bhtab, h);
    hide IsSetBH, Marks;
    k := k0;
    while IsSetBH(bhtab, k) && k % 32 != 0
      invariant k0 <= k <= nblock + 1 && AllSet(h, k0, k)
      decreases nblock + 1 - k
    {
      k := k + 1;
    }
    if IsSetBH(bhtab, k) {
      k := SkipSetWords(bhtab, k, nblock, h);
      while IsSetBH(bhtab, k)
        invariant k0 <= k <= nblock + 1 && AllSet(h, k0, k)
        decreases nblock + 1 - k
      {
        k := k + 1;
      }
    }
  }

  /** Skips whole words of clear flags. */
  method SkipClearWords(bhtab: array<bv32>, k0: nat, nblock: nat, ghost h: seq<bool>) returns (k: nat)
    requires Marks(bhtab, h) && Fenced(h, nblock) && k0 <= nblock && k0 % 32 == 0
    ensures k0 <= k <= nblock && AllClear(h, k0, k)
  {
    hide BitSet;
    k := k0;
    while bhtab[k / 32] == 0
      invariant k0 <= k <= nblock && AllClear(h, k0, k) && k % 32 == 0
      decreases nblock - k
    {
      SetWordMarks(bhtab, h, k);
      StaysBefore(h, k, nblock);
      k := k + 32;
    }
  }

  /** The first set flag from `k0` on. */
  method FindSet(bhtab: array<bv32>, k0: nat, nblock: nat, ghost h: seq<bool>) returns (k: nat)
    requires Marks(bhtab, h) && Fenced(h, nblock) && k0 <= nblock
    ensures k0 <= k <= nblock && AllClear(h, k0, k) && h[k]
  {
    TableFlags(bhtab, h);
    hide IsSetBH, Marks;
    k := k0;
    while !IsSetBH(bhtab, k) && k % 32 != 0
      invariant k0 <= k <= nblock && AllClear(h, k0, k)
      decreases nblock - k
    {
      k := k + 1;
    }
    if !IsSetBH(bhtab, k) {
      k := SkipClearWords(bhtab, k, nblock, h);
      while !IsSetBH(bhtab, k)
        invariant k0 <= k <= nblock && AllClear(h, k0, k)
        decreases nblock - k
      {
        k := k + 1;
      }
    }
  }
}
