/** The checksum of a buffer, braided where there is enough of it, and of two buffers. */
module Crc32Z {
  import opened Bits
  import opened CrcField
  import opened Crc32
  import CrcPolynomial
  import opened CrcTables
  import opened CrcBraid

  // ----- what the braids stand for

  function Eights(len: int): nat {
    if len < 0 then 0 else 8 * len
  }

  /** What the registers of braids add in the end, the next one at a word with `len` bytes
      from its beginning to the end. */
  function Later(cs: seq<bv32>, len: int): bv32
    decreases |cs|
  {
    if cs == [] then 0 else Plus(Shifted(cs[0], Eights(len)), Later(cs[1..], len - W))
  }

  /** The register after the data, when the registers of the braids are as given. */
  function Pending(cs: seq<bv32>, data: seq<octet>): bv32 {
    Plus(Fold(0, data), Later(cs, |data|))
  }

  lemma {:induction false} LaterSnoc(cs: seq<bv32>, x: bv32, len: int)
    ensures Later(cs + [x], len) == Plus(Later(cs, len), Shifted(x, Eights(len - W * |cs|)))
    decreases |cs|
  {
    hide Plus, Shifted, Eights;
    if cs == [] {
      assert ([] + [x])[1..] == [];
      Nothing(Shifted(x, Eights(len)));
    } else {
      assert (cs + [x])[1..] == cs[1..] + [x];
      LaterSnoc(cs[1..], x, len - W);
      Associate(Shifted(cs[0], Eights(len)), Later(cs[1..], len - W), Shifted(x, Eights(len - W * |cs|)));
    }
  }

  lemma FoldFrom(c: bv32, data: seq<octet>)
    ensures Fold(c, data) == Plus(Fold(0, data), Shifted(c, 8 * |data|))
  {
    hide Plus, Fold, Shifted;
    Nothing(c);
    FoldPlus(0, c, data);
  }

  /** The next braid takes its word. */
  lemma NextWord(c: bv32, cs: seq<bv32>, word: seq<octet>, data: seq<octet>)
    requires |word| == W
    ensures Pending([c] + cs, word + data)
      == Plus(Plus(Fold(0, data), Shifted(Fold(c, word), 8 * |data|)), Later(cs, |data|))
  {
    hide Plus, Fold, Shifted;
    var all := word + data;
    assert ([c] + cs)[1..] == cs;
    assert Later([c] + cs, |all|) == Plus(Shifted(c, 8 * |all|), Later(cs, |data|));
    FoldFrom(c, all);
    Associate(Fold(0, all), Shifted(c, 8 * |all|), Later(cs, |data|));
    FoldConcat(c, word, data);
    FoldFrom(Fold(c, word), data);
  }

  /** A braid goes on: its next word is behind those of the others. */
  lemma BraidOn(c: bv32, cs: seq<bv32>, word: seq<octet>, data: seq<octet>)
    requires |word| == W && |data| >= W * |cs|
    ensures Pending([c] + cs, word + data) == Pending(cs + [Shifted(Fold(c, word), 8 * (W * |cs|))], data)
  {
    hide Plus, Fold, Shifted, Later;
    var f, n := Fold(c, word), W * |cs|;
    NextWord(c, cs, word, data);
    LaterSnoc(cs, Shifted(f, 8 * n), |data|);
    ShiftedMore(f, 8 * n, 8 * (|data| - n));
    assert 8 * n + 8 * (|data| - n) == 8 * |data|;
    LastTerm(Fold(0, data), Shifted(f, 8 * |data|), Later(cs, |data|));
  }

  lemma LastTerm(a: bv32, b: bv32, c: bv32)
    ensures Plus(Plus(a, b), c) == Plus(a, Plus(c, b))
  {
    hide Plus;
    Associate(a, b, c);
    Swap(b, c);
  }

  /** A braid is joined to the next one. */
  lemma BraidJoin(c: bv32, d: bv32, cs: seq<bv32>, word: seq<octet>, data: seq<octet>)
    requires |word| == W
    ensures Pending([c, d] + cs, word + data) == Pending([Plus(d, Fold(c, word))] + cs, data)
  {
    hide Plus, Fold, Shifted;
    var f := Fold(c, word);
    var n := 8 * |data|;
    assert [c, d] + cs == [c] + ([d] + cs);
    NextWord(c, [d] + cs, word, data);
    LaterFirst(d, cs, |data|);
    LaterFirst(Plus(d, f), cs, |data|);
    ShiftedPlus(d, f, n);
    Swap(Shifted(d, n), Shifted(f, n));
    Associate(Fold(0, data), Shifted(f, n), Plus(Shifted(d, n), Later(cs, |data| - W)));
    Associate(Shifted(f, n), Shifted(d, n), Later(cs, |data| - W));
  }

  lemma LaterFirst(d: bv32, cs: seq<bv32>, len: nat)
    ensures Later([d] + cs, len) == Plus(Shifted(d, 8 * len), Later(cs, len - W))
  {
    assert ([d] + cs)[1..] == cs;
  }

  /** The last word. */
  lemma BraidEnd(c: bv32, word: seq<octet>)
    requires |word| == W
    ensures Pending([c], word) == Fold(c, word)
  {
    hide Plus, Shifted;
    assert [c] + [] == [c] && word + [] == word;
    NextWord(c, [], word, []);
    Nothing(Fold(c, word));
    Nothing(Plus(0, Fold(c, word)));
    ShiftedNone(Fold(c, word));
  }

  /** At the beginning the first braid has the register and the others nothing. */
  lemma BraidsStart(c: bv32, data: seq<octet>)
    ensures Pending([c, 0, 0, 0, 0], data) == Fold(c, data)
  {
    hide Plus, Fold, Shifted;
    FoldFrom(c, data);
    assert [c, 0, 0, 0, 0] == [c] + [0, 0, 0, 0];
    LaterFirst(c, [0, 0, 0, 0], |data|);
    LaterZeros([0, 0, 0, 0], |data| - W);
    Nothing(Shifted(c, 8 * |data|));
  }

  lemma {:induction false} LaterZeros(cs: seq<bv32>, len: int)
    requires forall i :: 0 <= i < |cs| ==> cs[i] == 0
    ensures Later(cs, len) == 0
    decreases |cs|
  {
    hide Plus, Shifted;
    if cs != [] {
      ShiftedZero(0, Eights(len));
      LaterZeros(cs[1..], len - W);
      Nothing(0);
    }
  }

  function Word(data: seq<octet>, j: nat): seq<octet>
    requires W * (j + 1) <= |data|
  {
    data[W * j..W * (j + 1)]
  }

  /** The register of a braid after word `j` of a block. */
  function Turned(c: bv32, data: seq<octet>, j: nat): bv32
    requires W * (j + 1) <= |data|
  {
    Shifted(Fold(c, Word(data, j)), 8 * (BLOCK - W))
  }

  lemma WordOff(data: seq<octet>, j: nat)
    requires W * (j + 1) <= |data|
    ensures data[W * j..] == Word(data, j) + data[W * (j + 1)..]
  {
  }

  lemma TurnOne(data: seq<octet>, j: nat, c0: bv32, c1: bv32, c2: bv32, c3: bv32, c4: bv32)
    requires W * (j + 1) <= |data| && |data| - W * (j + 1) >= 4 * W
    ensures Pending([c0, c1, c2, c3, c4], data[W * j..])
      == Pending([c1, c2, c3, c4, Turned(c0, data, j)], data[W * (j + 1)..])
  {
    hide Pending, Fold, Shifted;
    WordOff(data, j);
    var cs := [c1, c2, c3, c4];
    assert [c0, c1, c2, c3, c4] == [c0] + cs;
    assert cs + [Turned(c0, data, j)] == [c1, c2, c3, c4, Turned(c0, data, j)];
    BraidOn(c0, cs, Word(data, j), data[W * (j + 1)..]);
  }

  /** All braids go on by a block. */
  lemma BlockOn(data: seq<octet>, c0: bv32, c1: bv32, c2: bv32, c3: bv32, c4: bv32)
    requires |data| >= 2 * BLOCK
    ensures Pending([c0, c1, c2, c3, c4], data)
      == Pending([Turned(c0, data, 0), Turned(c1, data, 1), Turned(c2, data, 2), Turned(c3, data, 3),
                  Turned(c4, data, 4)], data[BLOCK..])
  {
    hide Pending, Turned;
    var d0, d1, d2, d3 := Turned(c0, data, 0), Turned(c1, data, 1), Turned(c2, data, 2), Turned(c3, data, 3);
    assert data[W * 0..] == data;
    TurnOne(data, 0, c0, c1, c2, c3, c4);
    TurnOne(data, 1, c1, c2, c3, c4, d0);
    TurnOne(data, 2, c2, c3, c4, d0, d1);
    TurnOne(data, 3, c3, c4, d0, d1, d2);
    TurnOne(data, 4, c4, d0, d1, d2, d3);
  }

  lemma JoinOne(data: seq<octet>, j: nat, c: bv32, d: bv32, cs: seq<bv32>)
    requires W * (j + 1) <= |data|
    ensures Pending([c, d] + cs, data[W * j..]) == Pending([Plus(d, Fold(c, Word(data, j)))] + cs, data[W * (j + 1)..])
  {
    hide Pending, Fold, Plus;
    WordOff(data, j);
    BraidJoin(c, d, cs, Word(data, j), data[W * (j + 1)..]);
  }

  /** The last block brings the braids together. */
  lemma LastBlock(data: seq<octet>, c0: bv32, c1: bv32, c2: bv32, c3: bv32, c4: bv32, f0: bv32, f1: bv32, f2: bv32,
          f3: bv32, f4: bv32)
    requires |data| == BLOCK
    requires f0 == Fold(c0, Word(data, 0)) && f1 == Fold(Plus(c1, f0), Word(data, 1))
    requires f2 == Fold(Plus(c2, f1), Word(data, 2))
    requires f3 == Fold(Plus(c3, f2), Word(data, 3)) && f4 == Fold(Plus(c4, f3), Word(data, 4))
    ensures Pending([c0, c1, c2, c3, c4], data) == f4
  {
    hide Pending, Fold, Plus;
    assert data[W * 0..] == data;
    assert [c0, c1, c2, c3, c4] == [c0, c1] + [c2, c3, c4];
    JoinOne(data, 0, c0, c1, [c2, c3, c4]);
    var e1, e2, e3, e4 := Plus(c1, f0), Plus(c2, f1), Plus(c3, f2), Plus(c4, f3);
    assert [e1] + [c2, c3, c4] == [e1, c2] + [c3, c4];
    JoinOne(data, 1, e1, c2, [c3, c4]);
    assert [e2] + [c3, c4] == [e2, c3] + [c4];
    JoinOne(data, 2, e2, c3, [c4]);
    assert [e3] + [c4] == [e3, c4] + [];
    JoinOne(data, 3, e3, c4, []);
    assert [e4] + [] == [e4] && data[W * 4..] == Word(data, 4);
    BraidEnd(e4, Word(data, 4));
  }

  // ----- the checksum of a buffer

  /** One byte more. */
  method ByteOn(crc: bv32, b: octet, crc_table: array<bv32>) returns (next: bv32)
    requires ByteTable(crc_table)
    ensures next == ByteStep(crc, b)
  {
    hide Shifted, LowByte, Index, Plus, Eighth;
    var x := Plus(crc, b as bv32);
    IndexTells(x);
    ByteShifted(x);
    OverByte(crc, b);
    next := Plus(Eighth(crc), crc_table[Index(x)]);
  }

  lemma OverByte(crc: bv32, b: octet)
    ensures Eighth(Plus(crc, b as bv32)) == Eighth(crc)
  {
  }

  /** The word at place `i` with a register added. */
  method MixedWord(buf: seq<octet>, i: nat, c: bv32) returns (d: bv64, ghost w: bv64)
    requires i + W <= |buf|
    ensures d == Mix(w, c) && Bytes(w, W) == buf[i..i + W]
  {
    hide Mix, Bytes, WordFrom;
    w := WordFrom(buf[i..i + W], W);
    WordBytes(buf[i..i + W], W);
    assert buf[i..i + W][..W] == buf[i..i + W];
    d := Mix(WordFrom(buf[i..i + W], W), c);
  }

  /** One braid takes its word of the block at place `i`. */
  method TurnBraid(buf: seq<octet>, i: nat, j: nat, c: bv32, ltl: array2<bv32>, ghost data: seq<octet>)
    returns (d: bv32)
    requires BraidTables(ltl, N, W) && i + W * (j + 1) <= |buf| && W * (j + 1) <= |data|
    requires buf[i + W * j..i + W * (j + 1)] == Word(data, j)
    ensures d == Turned(c, data, j)
  {
    hide BraidTables, Mix, Bytes, Fold, Shifted;
    var word;
    ghost var w;
    word, w := MixedWord(buf, i + W * j, c);
    d := BraidWord(word, ltl, w, c);
  }

  /** One braid takes its word of the last block. */
  method JoinBraid(buf: seq<octet>, i: nat, j: nat, c: bv32, crc_table: array<bv32>, ghost data: seq<octet>)
    returns (d: bv32)
    requires ByteTable(crc_table) && i + W * (j + 1) <= |buf| && W * (j + 1) <= |data|
    requires buf[i + W * j..i + W * (j + 1)] == Word(data, j)
    ensures d == Fold(c, Word(data, j))
  {
    hide ByteTable, Mix, Bytes, Fold;
    var word;
    ghost var w;
    word, w := MixedWord(buf, i + W * j, c);
    d := CrcWord(word, crc_table, w, c);
  }

  /** `blks` blocks from place `i` on, in braids. */
  method Braided(buf: seq<octet>, i0: nat, blks0: nat, crc0: bv32, crc_table: array<bv32>, ltl: array2<bv32>)
    returns (crc: bv32)
    requires ByteTable(crc_table) && BraidTables(ltl, N, W) && blks0 >= 1 && i0 + BLOCK * blks0 <= |buf|
    ensures crc == Fold(crc0, buf[i0..i0 + BLOCK * blks0])
  {
    hide ByteTable, BraidTables, Fold, Turned, Pending;
    ghost var end := i0 + BLOCK * blks0;
    var i, blks := i0, blks0;
    var c0, c1, c2, c3, c4 := crc0, 0, 0, 0, 0;
    BraidsStart(crc0, buf[i0..end]);
    blks := blks - 1;
    while blks != 0
      invariant 0 <= blks && i0 <= i && i + BLOCK * (blks + 1) == end
      invariant Pending([c0, c1, c2, c3, c4], buf[i..end]) == Fold(crc0, buf[i0..end])
    {
      ghost var data := buf[i..end];
      BlockOn(data, c0, c1, c2, c3, c4);
      WordsOf(buf, i, end, data);
      c0 := TurnBraid(buf, i, 0, c0, ltl, data);
      c1 := TurnBraid(buf, i, 1, c1, ltl, data);
      c2 := TurnBraid(buf, i, 2, c2, ltl, data);
      c3 := TurnBraid(buf, i, 3, c3, ltl, data);
      c4 := TurnBraid(buf, i, 4, c4, ltl, data);
      assert data[BLOCK..] == buf[i + BLOCK..end];
      i := i + BLOCK;
      blks := blks - 1;
    }
    crc := JoinAll(buf, i, c0, c1, c2, c3, c4, crc_table);
  }

  lemma WordsOf(buf: seq<octet>, i: nat, end: nat, data: seq<octet>)
    requires i + BLOCK <= end <= |buf| && data == buf[i..end]
    ensures buf[i + W * 0..i + W * 1] == Word(data, 0) && buf[i + W * 1..i + W * 2] == Word(data, 1)
    ensures buf[i + W * 2..i + W * 3] == Word(data, 2) && buf[i + W * 3..i + W * 4] == Word(data, 3)
    ensures buf[i + W * 4..i + W * 5] == Word(data, 4)
  {
    SliceOf(buf, i, end, 0, W);
    SliceOf(buf, i, end, W, 2 * W);
    SliceOf(buf, i, end, 2 * W, 3 * W);
    SliceOf(buf, i, end, 3 * W, 4 * W);
    SliceOf(buf, i, end, 4 * W, 5 * W);
  }

  lemma SliceOf(buf: seq<octet>, i: nat, end: nat, a: nat, b: nat)
    requires a <= b && i + b <= end <= |buf|
    ensures buf[i..end][a..b] == buf[i + a..i + b]
  {
    var data := buf[i..end];
    var s, t := data[a..b], buf[i + a..i + b];
    forall k | 0 <= k < b - a ensures s[k] == t[k] {
      assert s[k] == data[a + k] == buf[i + (a + k)];
    }
  }

  /** The last block. */
  method JoinAll(buf: seq<octet>, i: nat, c0: bv32, c1: bv32, c2: bv32, c3: bv32, c4: bv32, crc_table: array<bv32>)
    returns (crc: bv32)
    requires ByteTable(crc_table) && i + BLOCK <= |buf|
    ensures crc == Pending([c0, c1, c2, c3, c4], buf[i..i + BLOCK])
  {
    hide ByteTable, Fold, Pending, Plus;
    ghost var data := buf[i..i + BLOCK];
    WordsOf(buf, i, i + BLOCK, data);
    var f0 := JoinBraid(buf, i, 0, c0, crc_table, data);
    var f1 := JoinBraid(buf, i, 1, Plus(c1, f0), crc_table, data);
    var f2 := JoinBraid(buf, i, 2, Plus(c2, f1), crc_table, data);
    var f3 := JoinBraid(buf, i, 3, Plus(c3, f2), crc_table, data);
    crc := JoinBraid(buf, i, 4, Plus(c4, f3), crc_table, data);
    LastBlock(data, c0, c1, c2, c3, c4, f0, f1, f2, f3, crc);
  }

  lemma FoldNext(c: bv32, buf: seq<octet>, i: nat)
    requires i < |buf|
    ensures Fold(c, buf[..i + 1]) == ByteStep(Fold(c, buf[..i]), buf[i])
  {
    hide ByteStep, Fold;
    assert buf[..i + 1] == buf[..i] + [buf[i]];
    FoldSnoc(c, buf[..i], buf[i]);
  }

  /** Bytes up to a word boundary; `addr` is where the buffer is. */
  method Align(buf: seq<octet>, addr: nat, c: bv32, crc_table: array<bv32>) returns (crc: bv32, i: nat)
    requires ByteTable(crc_table)
    ensures i <= |buf| && i < W && crc == Fold(c, buf[..i])
  {
    hide ByteTable, Fold, ByteStep;
    crc, i := c, 0;
    NoFold(c, buf);
    while i < |buf| && (addr + i) % W != 0
      invariant i <= |buf| && crc == Fold(c, buf[..i])
      invariant i < W && (i == 0 || addr % W != 0) && (addr % W + i <= W)
      decreases |buf| - i
    {
      Boundary(addr, i);
      FoldNext(c, buf, i);
      crc := ByteOn(crc, buf[i], crc_table);
      i := i + 1;
    }
  }

  lemma Boundary(addr: nat, i: nat)
    requires (addr + i) % W != 0 && addr % W + i <= W
    ensures addr % W + i < W
  {
  }

  lemma NoFold(c: bv32, buf: seq<octet>)
    ensures Fold(c, buf[..0]) == c
  {
  }

  /** The checksum of a buffer, from that of what came before it: complemented, it is the
      remainder of the message. */
  method Crc32z(crc0: bv32, buf: seq<octet>, addr: nat, crc_table: array<bv32>, ltl: array2<bv32>) returns (crc: bv32)
    requires ByteTable(crc_table) && BraidTables(ltl, N, W)
    ensures crc == Crc(crc0, buf)
    ensures !crc == CrcPolynomial.Residue(CrcPolynomial.Dividend(CrcPolynomial.Coefs(!crc0, 32), buf))
  {
    hide ByteTable, BraidTables, Fold, ByteStep, Plus, CrcPolynomial.Residue, CrcPolynomial.Dividend;
    hide CrcPolynomial.Coefs;
    CrcPolynomial.CrcIsRemainder(crc0, buf);
    var c := Invert(crc0);
    crc := c;
    var i := 0;
    NoFold(c, buf);
    if |buf| >= N * W + W - 1 {
      crc, i := Align(buf, addr, c, crc_table);
      var blks := (|buf| - i) / BLOCK;
      crc := Braided(buf, i, blks, crc, crc_table, ltl);
      FoldConcat(c, buf[..i], buf[i..i + BLOCK * blks]);
      assert buf[..i] + buf[i..i + BLOCK * blks] == buf[..i + BLOCK * blks];
      i := i + BLOCK * blks;
    }
    while |buf| - i >= 8
      invariant 0 <= i <= |buf| && crc == Fold(c, buf[..i])
      decreases |buf| - i
    {
      ghost var i0 := i;
      for k := 0 to 8
        invariant i == i0 + k && i <= |buf| - (8 - k) && crc == Fold(c, buf[..i])
      {
        FoldNext(c, buf, i);
        crc := ByteOn(crc, buf[i], crc_table);
        i := i + 1;
      }
    }
    while i < |buf|
      invariant 0 <= i <= |buf| && crc == Fold(c, buf[..i])
    {
      FoldNext(c, buf, i);
      crc := ByteOn(crc, buf[i], crc_table);
      i := i + 1;
    }
    assert buf[..|buf|] == buf;
    crc := Invert(crc);
  }

  // ----- two buffers

  /** The checksum of two buffers together, from their checksums and the length of the
      second. */
  method Crc32Combine(crc1: bv32, crc2: bv32, len2: nat, x2n_table: array<bv32>, ghost a: seq<octet>,
          ghost b: seq<octet>)
    returns (crc: bv32)
    requires PowerTable(x2n_table) && crc1 == Crc(0, a) && crc2 == Crc(0, b) && len2 == |b|
    ensures crc == Crc(0, a + b)
  {
    hide PowerTable, Crc, Shifted, Product, Plus;
    var p := X2nmodp(len2, 3, x2n_table);
    assert ShiftLeft(len2, 1) == 2 * len2;
    assert ShiftLeft(len2, 3) == 8 * len2;
    PowerNotZero(8 * len2);
    CombineParts(a, b);
    var q := Multmodp(p, crc1);
    crc := Plus(q, crc2);
  }
}
