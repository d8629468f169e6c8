/** The tables of deflate that give the code of a length and of a distance (section 3.2.5 of
    RFC 1951), as `tr_static_init` makes them; and that they are the counterpart of those that
    inflate decodes with. */
module TreeTables {
  import opened Bits
  import opened Lz77
  import opened DecodingTable

  const LENGTH_CODES: nat := 29
  const D_CODES: nat := 30
  const DIST_CODE_LEN: nat := 512

  const EXTRA_LBITS: seq<nat> :=
    [0, 0, 0, 0, 0, 0, 0, 0, 1, 1, 1, 1, 2, 2, 2, 2, 3, 3, 3, 3, 4, 4, 4, 4, 5, 5, 5, 5, 0]
  const EXTRA_DBITS: seq<nat> :=
    [0, 0, 0, 0, 1, 1, 2, 2, 3, 3, 4, 4, 5, 5, 6, 6, 7, 7, 8, 8, 9, 9, 10, 10, 11, 11, 12, 12, 13, 13]

  // ----- what inflate does with a code

  /** The lengths that inflate reads with code `c`. */
  ghost predicate LengthOfCode(c: int, len: int) {
    0 <= c < LENGTH_CODES && LBASE[c] <= len < LBASE[c] + Pow2(EXTRA_LBITS[c]) && LEXT[c] == 16 + EXTRA_LBITS[c]
  }

  /** The distances that inflate reads with code `c`. */
  ghost predicate DistOfCode(c: int, dist: int) {
    0 <= c < D_CODES && DBASE[c] <= dist < DBASE[c] + Pow2(EXTRA_DBITS[c]) && DEXT[c] == 16 + EXTRA_DBITS[c]
  }

  lemma Pow2To13()
    ensures Pow2(0) == 1 && Pow2(1) == 2 && Pow2(2) == 4 && Pow2(3) == 8 && Pow2(4) == 16 && Pow2(5) == 32
    ensures Pow2(6) == 64 && Pow2(7) == 128 && Pow2(8) == 256 && Pow2(9) == 512 && Pow2(10) == 1024
    ensures Pow2(11) == 2048 && Pow2(12) == 4096 && Pow2(13) == 8192
  {
    Pow2Values();
    assert Pow2(6) == 2 * Pow2(5) && Pow2(7) == 2 * Pow2(6);
    assert Pow2(9) == 2 * Pow2(8) && Pow2(10) == 2 * Pow2(9) && Pow2(11) == 2 * Pow2(10);
    assert Pow2(12) == 2 * Pow2(11) && Pow2(13) == 2 * Pow2(12);
  }

  function Power(n: nat): nat {
    if n == 0 then 1 else if n == 1 then 2 else if n == 2 then 4 else if n == 3 then 8 else if n == 4 then 16
    else if n == 5 then 32 else if n == 6 then 64 else if n == 7 then 128 else if n == 8 then 256
    else if n == 9 then 512 else if n == 10 then 1024 else if n == 11 then 2048 else if n == 12 then 4096
      else if n == 13 then 8192 else 0
  }

  lemma PowerIs(n: nat)
    requires n <= 13
    ensures Pow2(n) == Power(n)
  {
    Pow2To13();
    hide Pow2;
  }

  /** Where the lengths of code `c` begin, counted from the shortest; at the end all 256. */
  function LengthStart(c: nat): nat
    requires c < LENGTH_CODES
  {
    if c == LENGTH_CODES - 1 then 256 else LBASE[c] - MIN_MATCH
  }

  lemma LengthNext(c: nat)
    requires c < LENGTH_CODES - 1
    ensures LengthStart(c + 1) == LengthStart(c) + Pow2(EXTRA_LBITS[c])
  {
    hide Pow2;
    PowerIs(EXTRA_LBITS[c]);
  }

  lemma LengthExtra(c: nat)
    requires c < LENGTH_CODES - 1
    ensures LEXT[c] == 16 + EXTRA_LBITS[c]
  {
  }

  lemma LastLength()
    ensures LengthOfCode(LENGTH_CODES - 1, MAX_MATCH)
  {
    Pow2To13();
  }

  /** Where the distances of code `c` begin, counted from 1; at the end all 32768. */
  function DistStart(c: nat): nat
    requires c <= D_CODES
  {
    if c == D_CODES then 0x8000 else DBASE[c] - 1
  }

  lemma DistNext(c: nat)
    requires c < D_CODES
    ensures DistStart(c + 1) == DistStart(c) + Pow2(EXTRA_DBITS[c])
  {
    hide Pow2;
    PowerIs(EXTRA_DBITS[c]);
  }

  lemma DistExtra(c: nat)
    requires c < D_CODES
    ensures DEXT[c] == 16 + EXTRA_DBITS[c]
  {
  }

  lemma DistRuns(c: nat)
    requires 16 <= c < D_CODES
    ensures EXTRA_DBITS[c] >= 7 && Pow2(EXTRA_DBITS[c]) == 128 * Pow2(EXTRA_DBITS[c] - 7)
  {
    hide Pow2;
    SevenMore(EXTRA_DBITS[c]);
  }

  lemma SevenMore(n: nat)
    requires 7 <= n <= 13
    ensures Pow2(n) == 128 * Pow2(n - 7)
  {
    hide Pow2;
    PowerIs(n);
    PowerIs(n - 7);
  }

  // ----- the tables

  /** The code of each length, counted from the shortest, and the first length of each code. */
  ghost predicate LengthTables(length_code: seq<nat>, base_length: seq<nat>) {
    && |length_code| == 256 && |base_length| == LENGTH_CODES && length_code[MAX_MATCH - MIN_MATCH] == LENGTH_CODES - 1
    && (forall lc :: 0 <= lc < 256 ==> LengthOfCode(length_code[lc], lc + MIN_MATCH))
    && forall c :: 0 <= c < LENGTH_CODES - 1 ==> base_length[c] + MIN_MATCH == LBASE[c]
  }

  /** Where the code of a distance is, counted from 1. */
  function DistIndex(dist: nat): nat {
    if dist < 256 then dist else 256 + dist / 128
  }

  ghost predicate DistTables(dist_code: seq<nat>, base_dist: seq<nat>) {
    && |dist_code| == DIST_CODE_LEN && |base_dist| == D_CODES
    && (forall d :: 0 <= d < 0x8000 ==> DistOfCode(At2(dist_code, DistIndex(d)), d + 1))
    && forall c :: 0 <= c < D_CODES ==> base_dist[c] + 1 == DBASE[c]
  }

  function At2(s: seq<nat>, i: nat): int {
    if i < |s| then s[i] else -1
  }

  /** The codes up to `end` have been filled in. */
  ghost predicate LengthsTo(length_code: seq<nat>, end: nat) {
    end <= |length_code| == 256 && forall lc :: 0 <= lc < end ==> LengthOfCode(length_code[lc], lc + MIN_MATCH)
  }

  method InitLengths(length_code: array<nat>, base_length: array<nat>)
    requires length_code.Length == 256 && base_length.Length == LENGTH_CODES && length_code != base_length
    modifies length_code, base_length
    ensures LengthTables(length_code[..], base_length[..])
  {
    hide LengthOfCode, Pow2, LengthStart, LengthsTo;
    LengthBounds();
    NoLengths(length_code[..]);
    var length := 0;
    for code := 0 to LENGTH_CODES - 1
      invariant length == LengthStart(code) && LengthsTo(length_code[..], length)
      invariant forall c :: 0 <= c < code ==> base_length[c] + MIN_MATCH == LBASE[c]
    {
      base_length[code] := length;
      LengthNext(code);
      for n := 0 to Pow2(EXTRA_LBITS[code])
        modifies length_code
        invariant length == LengthStart(code) + n && LengthsTo(length_code[..], length)
      {
        OfLength(code, length);
        OneLength(length_code[..], code, length);
        length_code[length] := code;
        length := length + 1;
      }
    }
    assert length == 256;
    var last: nat := LENGTH_CODES - 1;
    ghost var t := length_code[..];
    AllLengths(t);
    length_code[length - 1] := last;
    assert length_code[..] == t[255 := last];
  }

  lemma LengthBounds()
    ensures LengthStart(0) == 0 && LengthStart(LENGTH_CODES - 1) == 256
    ensures forall c :: 0 <= c < LENGTH_CODES - 1 ==> LengthStart(c) + MIN_MATCH == LBASE[c]
  {
  }

  lemma NoLengths(t: seq<nat>)
    requires |t| == 256
    ensures LengthsTo(t, 0)
  {
  }

  lemma OneLength(t: seq<nat>, c: nat, lc: nat)
    requires LengthsTo(t, lc) && lc < 256 && LengthOfCode(c, lc + MIN_MATCH)
    ensures LengthsTo(t[lc := c], lc + 1)
  {
    hide LengthOfCode;
  }

  /** The longest length has a code of its own. */
  lemma AllLengths(t: seq<nat>)
    requires LengthsTo(t, 256)
    ensures var u := t[255 := LENGTH_CODES - 1]; forall lc :: 0 <= lc < 256 ==> LengthOfCode(u[lc], lc + MIN_MATCH)
  {
    LastLength();
    hide LengthOfCode;
  }

  lemma OfLength(c: nat, lc: nat)
    requires c < LENGTH_CODES - 1 && LengthStart(c) <= lc < LengthStart(c) + Pow2(EXTRA_LBITS[c])
    ensures LengthOfCode(c, lc + MIN_MATCH) && lc < 256
  {
    LengthNext(c);
    LengthExtra(c);
    LengthsEnd(c);
    hide Pow2;
  }

  lemma LengthsEnd(c: nat)
    requires c < LENGTH_CODES - 1
    ensures LengthStart(c) + Pow2(EXTRA_LBITS[c]) <= 256
  {
    Pow2To13();
  }

  /** The distances up to `end`, one by one below 256 and then in runs of 128. */
  ghost predicate DistsTo(dist_code: seq<nat>, end: nat) {
    && end <= 0x8000 && |dist_code| == DIST_CODE_LEN
    && forall d :: 0 <= d < end ==> DistOfCode(At2(dist_code, DistIndex(d)), d + 1)
  }

  method InitDists(dist_code: array<nat>, base_dist: array<nat>)
    requires dist_code.Length == DIST_CODE_LEN && base_dist.Length == D_CODES && dist_code != base_dist
    modifies dist_code, base_dist
    ensures DistTables(dist_code[..], base_dist[..])
  {
    hide DistOfCode, Pow2, DistsTo, DistStart;
    DistBounds();
    var dist := 0;
    NoDists(dist_code[..]);
    for code := 0 to 16
      invariant dist == DistStart(code) && DistsTo(dist_code[..], dist)
      invariant forall c :: 0 <= c < code ==> base_dist[c] + 1 == DBASE[c]
    {
      base_dist[code] := dist;
      DistNext(code);
      for n := 0 to Pow2(EXTRA_DBITS[code])
        modifies dist_code
        invariant dist == DistStart(code) + n && DistsTo(dist_code[..], dist)
      {
        DistEnds(code);
        OneDist(dist_code[..], code, dist);
        dist_code[dist] := code;
        dist := dist + 1;
      }
    }
    assert dist == 256;
    dist := dist / 128;
    dist := InitRuns(dist_code, base_dist, dist);
    assert dist == 256;
    AllDists(dist_code[..]);
  }

  lemma DistBounds()
    ensures DistStart(0) == 0 && DistStart(16) == 256 && DistStart(D_CODES) == 0x8000
    ensures forall c :: 0 <= c < D_CODES ==> DistStart(c) + 1 == DBASE[c]
  {
  }

  /** The codes from the sixteenth on, whose distances come in runs of 128. */
  method InitRuns(dist_code: array<nat>, base_dist: array<nat>, dist0: nat) returns (dist: nat)
    requires dist_code.Length == DIST_CODE_LEN && base_dist.Length == D_CODES && dist_code != base_dist
    requires dist0 == 2 && DistsTo(dist_code[..], 256)
    requires forall c :: 0 <= c < 16 ==> base_dist[c] + 1 == DBASE[c]
    modifies dist_code, base_dist
    ensures dist == 256 && DistsTo(dist_code[..], 0x8000)
    ensures forall c :: 0 <= c < D_CODES ==> base_dist[c] + 1 == DBASE[c]
  {
    hide DistOfCode, Pow2, DistsTo, DistStart;
    DistBounds();
    dist := dist0;
    for code := 16 to D_CODES
      invariant 128 * dist == DistStart(code) && DistsTo(dist_code[..], 128 * dist)
      invariant forall c :: 0 <= c < code ==> base_dist[c] + 1 == DBASE[c]
    {
      base_dist[code] := dist * 128;
      DistNext(code);
      DistRuns(code);
      for n := 0 to Pow2(EXTRA_DBITS[code] - 7)
        modifies dist_code
        invariant 128 * dist == DistStart(code) + 128 * n && DistsTo(dist_code[..], 128 * dist)
      {
        DistEnds(code);
        ManyDists(dist_code[..], code, dist);
        dist_code[256 + dist] := code;
        dist := dist + 1;
      }
    }
  }

  lemma NoDists(t: seq<nat>)
    requires |t| == DIST_CODE_LEN
    ensures DistsTo(t, 0)
  {
  }

  lemma AllDists(t: seq<nat>)
    requires DistsTo(t, 0x8000)
    ensures forall d :: 0 <= d < 0x8000 ==> DistOfCode(At2(t, DistIndex(d)), d + 1)
  {
    hide DistOfCode;
  }

  lemma DistEnds(c: nat)
    requires c < D_CODES
    ensures DistStart(c) + Pow2(EXTRA_DBITS[c]) <= if c < 16 then 256 else 0x8000
    ensures c >= 16 ==> DistStart(c) >= 256
  {
    Pow2To13();
  }

  lemma OfDist(c: nat, d: nat)
    requires c < D_CODES && DistStart(c) <= d < DistStart(c) + Pow2(EXTRA_DBITS[c])
    ensures DistOfCode(c, d + 1)
  {
    DistExtra(c);
    hide Pow2;
  }

  lemma OneDist(t: seq<nat>, c: nat, dist: nat)
    requires DistsTo(t, dist) && c < 16 && DistStart(c) <= dist < DistStart(c) + Pow2(EXTRA_DBITS[c]) && dist < 256
    ensures DistsTo(t[dist := c], dist + 1)
  {
    OfDist(c, dist);
    hide DistOfCode, Pow2;
    var u := t[dist := c];
    forall d | 0 <= d < dist + 1 ensures DistOfCode(At2(u, DistIndex(d)), d + 1) {
      assert d < dist ==> DistOfCode(At2(t, DistIndex(d)), d + 1);
    }
  }

  lemma ManyDists(t: seq<nat>, c: nat, dist: nat)
    requires DistsTo(t, 128 * dist) && 16 <= c < D_CODES && 2 <= dist < 256
    requires DistStart(c) <= 128 * dist && 128 * dist + 128 <= DistStart(c) + Pow2(EXTRA_DBITS[c])
    ensures DistsTo(t[256 + dist := c], 128 * (dist + 1))
  {
    hide DistOfCode, Pow2;
    var u := t[256 + dist := c];
    forall d | 0 <= d < 128 * (dist + 1) ensures DistOfCode(At2(u, DistIndex(d)), d + 1) {
      if d < 128 * dist {
        assert DistOfCode(At2(t, DistIndex(d)), d + 1);
      } else {
        OfDist(c, d);
        assert d / 128 == dist;
      }
    }
  }
}
