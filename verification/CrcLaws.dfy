/** What the checksum of a block tells of its bytes, for any table of a CRC, and the checksum of
    a stream, bit by bit. */
module CrcLaws {
  import opened Bits
  import opened Crc
  import opened CrcField

  // ----- the table

  /** What every table of a CRC is: linear, and with entries that their lowest bytes tell apart. */
  ghost predicate Regular(table: CrcTable) {
    && (forall x, y :: table(x ^ y) == Plus(table(x), table(y)))
    && forall x, y :: table(x) & 0xff == table(y) & 0xff ==> x == y
  }

  function Upper(crc: bv32): bv32 {
    crc << 8
  }

  /** The entry of the table that is taken. */
  function Index(crc: bv32, x: bv8): bv8 {
    ((crc >> 24) as bv8) ^ x
  }

  function Entry(table: CrcTable, x: bv8): bv32 {
    table(x)
  }

  lemma UpdateIs(table: CrcTable, crc: bv32, ch: byte)
    ensures UpdateCrc(table, crc, ch) == Plus(Upper(crc), Entry(table, Index(crc, ch as bv8)))
  {
  }

  lemma UpperSum(c: bv32, d: bv32)
    ensures Upper(Plus(c, d)) == Plus(Upper(c), Upper(d))
  {
  }

  lemma IndexSum(c: bv32, d: bv32, x: bv8)
    ensures Index(Plus(c, d), x) == Index(c, x) ^ Index(d, 0)
  {
  }

  lemma EntrySum(table: CrcTable, x: bv8, y: bv8, z: bv8)
    requires Regular(table) && z == x ^ y
    ensures Entry(table, z) == Plus(Entry(table, x), Entry(table, y))
  {
    hide Plus;
  }

  lemma UpdateLinear(table: CrcTable, c: bv32, d: bv32, ch: byte)
    requires Regular(table)
    ensures UpdateCrc(table, Plus(c, d), ch) == Plus(UpdateCrc(table, c, ch), UpdateCrc(table, d, 0))
  {
    hide Plus, Upper, Index, Entry, UpdateCrc, Regular;
    var x := ch as bv8;
    UpdateIs(table, Plus(c, d), ch);
    UpdateIs(table, c, ch);
    UpdateIs(table, d, 0);
    UpperSum(c, d);
    IndexSum(c, d, x);
    EntrySum(table, Index(c, x), Index(d, 0), Index(Plus(c, d), x));
    Regroup(Upper(c), Upper(d), Entry(table, Index(c, x)), Entry(table, Index(d, 0)));
  }

  function Zeros(n: nat): (r: seq<byte>)
    ensures |r| == n
  {
    seq(n, _ => 0)
  }

  /** The checksum is linear in what it began with. */
  lemma {:induction false} CrcLinear(table: CrcTable, c: bv32, d: bv32, data: seq<byte>)
    requires Regular(table)
    ensures CrcFrom(table, Plus(c, d), data) == Plus(CrcFrom(table, c, data), CrcFrom(table, d, Zeros(|data|)))
    decreases |data|
  {
    hide Regular, UpdateCrc, Plus;
    if data == [] {
      assert Zeros(0) == [];
    } else {
      UpdateLinear(table, c, d, data[0]);
      CrcLinear(table, UpdateCrc(table, c, data[0]), UpdateCrc(table, d, 0), data[1..]);
      assert Zeros(|data|)[1..] == Zeros(|data| - 1);
    }
  }

  lemma LowBytes(a: bv32, b: bv32, s: bv32, t: bv32)
    requires Plus(Upper(a), s) == Plus(Upper(b), t)
    ensures s & 0xff == t & 0xff && (s == t ==> Upper(a) == Upper(b))
  {
  }

  lemma EntryTells(table: CrcTable, x: bv8, y: bv8)
    requires Regular(table) && Entry(table, x) & 0xff == Entry(table, y) & 0xff
    ensures x == y
  {
    hide Plus;
  }

  lemma PartsTell(a: bv32, b: bv32, x: bv8, y: bv8)
    requires ((a >> 24) as bv8) ^ x == ((b >> 24) as bv8) ^ y && a << 8 == b << 8
    ensures x == y <==> a == b
  {
  }

  lemma BytesTell(a: bv32, b: bv32, x: bv8, y: bv8)
    requires Index(a, x) == Index(b, y) && Upper(a) == Upper(b)
    ensures x == y <==> a == b
  {
    PartsTell(a, b, x, y);
  }

  /** The same checksum comes from the same one before exactly if the byte is the same. */
  lemma UpdateTells(table: CrcTable, c: bv32, d: bv32, ch: byte, ch': byte)
    requires Regular(table) && UpdateCrc(table, c, ch) == UpdateCrc(table, d, ch')
    ensures c == d <==> ch == ch'
  {
    hide Plus, Upper, Index, Entry, UpdateCrc, Regular;
    var x, y := ch as bv8, ch' as bv8;
    UpdateIs(table, c, ch);
    UpdateIs(table, d, ch');
    LowBytes(c, d, Entry(table, Index(c, x)), Entry(table, Index(d, y)));
    EntryTells(table, Index(c, x), Index(d, y));
    BytesTell(c, d, x, y);
    OctetNat(ch);
    OctetNat(ch');
  }

  lemma {:induction false} CrcTells(table: CrcTable, c: bv32, d: bv32, data: seq<byte>)
    requires Regular(table) && c != d
    ensures CrcFrom(table, c, data) != CrcFrom(table, d, data)
    decreases |data|
  {
    hide Regular, UpdateCrc;
    if data != [] {
      if UpdateCrc(table, c, data[0]) == UpdateCrc(table, d, data[0]) { UpdateTells(table, c, d, data[0], data[0]); }
      CrcTells(table, UpdateCrc(table, c, data[0]), UpdateCrc(table, d, data[0]), data[1..]);
    }
  }

  /** A block in which one byte was changed has another checksum. */
  lemma OneByteTells(table: CrcTable, a: seq<byte>, x: byte, y: byte, b: seq<byte>)
    requires Regular(table) && x != y
    ensures BlockCrc(table, a + [x] + b) != BlockCrc(table, a + [y] + b)
  {
    hide Regular, UpdateCrc, CrcFrom;
    var c := CrcFrom(table, CRC_INIT, a);
    CrcSnoc(table, CRC_INIT, a, x);
    CrcSnoc(table, CRC_INIT, a, y);
    CrcConcat(table, CRC_INIT, a + [x], b);
    CrcConcat(table, CRC_INIT, a + [y], b);
    if UpdateCrc(table, c, x) == UpdateCrc(table, c, y) { UpdateTells(table, c, c, x, y); }
    CrcTells(table, UpdateCrc(table, c, x), UpdateCrc(table, c, y), b);
    NotTells(CrcFrom(table, UpdateCrc(table, c, x), b), CrcFrom(table, UpdateCrc(table, c, y), b));
  }

  lemma NotTells(a: bv32, b: bv32)
    requires a != b
    ensures !a != !b
  {
  }

  // ----- the combined checksum, bit by bit

  predicate BitAt(w: bv32, j: bv8) {
    j < 32 && (w >> j) & 1 == 1
  }

  /** Bit `j` of a word, the lowest first. */
  predicate Bit(w: bv32, j: int) {
    0 <= j < 32 && BitAt(w, j as bv8)
  }

  lemma OneLess(j: int)
    requires 0 < j < 32
    ensures (j - 1) as bv8 == (j as bv8) - 1 && 0 < j as bv8 < 32
  {
  }

  lemma TurnedAt(w: bv32, block: bv32, j: bv8)
    requires j < 32
    ensures BitAt(((w << 1) | (w >> 31)) ^ block, j) == (BitAt(w, if j == 0 then 31 else j - 1) != BitAt(block, j))
  {
  }

  lemma TurnedBit(w: bv32, block: bv32, j: int)
    requires 0 <= j < 32
    ensures Bit(Combine(w, block), j) == (Bit(w, (j + 31) % 32) != Bit(block, j))
  {
    hide BitAt;
    if j == 0 {
      TurnedAt(w, block, 0);
    } else {
      OneLess(j);
      TurnedAt(w, block, j as bv8);
    }
  }

  function Parity(s: seq<bool>): bool {
    s != [] && Parity(s[..|s| - 1]) != s[|s| - 1]
  }

  /** Bit `j` of the checksum of a stream: of each block the bit that has come to this place,
      having been turned once for each later block. */
  function Turned(blocks: seq<bv32>, j: int): (s: seq<bool>)
    ensures |s| == |blocks|
  {
    seq(|blocks|, i requires 0 <= i < |blocks| => Bit(blocks[i], (j - (|blocks| - 1 - i)) % 32))
  }

  /** The checksum of a stream is the sum of those of its blocks, each turned to the left as
      many times as there are blocks after it. */
  ghost predicate IsCombined(combined: bv32, blocks: seq<bv32>) {
    forall j :: 0 <= j < 32 ==> Bit(combined, j) == Parity(Turned(blocks, j))
  }

  lemma Modulo(x: int)
    ensures (x + 32) % 32 == x % 32
  {
  }

  lemma TurnedMore(blocks: seq<bv32>, block: bv32, j: int)
    requires 0 <= j < 32
    ensures Turned(blocks + [block], j) == Turned(blocks, (j + 31) % 32) + [Bit(block, j)]
  {
    hide Bit;
    var n := |blocks|;
    forall i | 0 <= i < n ensures Turned(blocks + [block], j)[i] == Turned(blocks, (j + 31) % 32)[i] {
      Modulo(j - 1 - (n - 1 - i));
    }
  }

  /** One block more. */
  lemma CombinedMore(combined: bv32, blocks: seq<bv32>, block: bv32)
    requires IsCombined(combined, blocks)
    ensures IsCombined(Combine(combined, block), blocks + [block])
  {
    hide Bit, Turned, Combine;
    forall j | 0 <= j < 32 ensures Bit(Combine(combined, block), j) == Parity(Turned(blocks + [block], j)) {
      TurnedBit(combined, block, j);
      TurnedMore(blocks, block, j);
      var s := Turned(blocks, (j + 31) % 32);
      assert (s + [Bit(block, j)])[..|s|] == s;
    }
  }

  lemma CombinedNone()
    ensures IsCombined(0, [])
  {
    forall j | 0 <= j < 32 ensures !Bit(0, j) {
      NoBit(j as bv8);
    }
  }

  lemma NoBit(j: bv8)
    ensures !BitAt(0, j)
  {
  }

  lemma FirstEight(a: bv32, b: bv32)
    requires BitAt(a, 0) == BitAt(b, 0) && BitAt(a, 1) == BitAt(b, 1) && BitAt(a, 2) == BitAt(b, 2)
    requires BitAt(a, 3) == BitAt(b, 3)
    requires BitAt(a, 4) == BitAt(b, 4) && BitAt(a, 5) == BitAt(b, 5) && BitAt(a, 6) == BitAt(b, 6)
    requires BitAt(a, 7) == BitAt(b, 7)
    ensures (a >> 0) & 0xff == (b >> 0) & 0xff
  {
  }

  lemma SecondEight(a: bv32, b: bv32)
    requires BitAt(a, 8) == BitAt(b, 8) && BitAt(a, 9) == BitAt(b, 9) && BitAt(a, 10) == BitAt(b, 10)
    requires BitAt(a, 11) == BitAt(b, 11)
    requires BitAt(a, 12) == BitAt(b, 12) && BitAt(a, 13) == BitAt(b, 13) && BitAt(a, 14) == BitAt(b, 14)
    requires BitAt(a, 15) == BitAt(b, 15)
    ensures (a >> 8) & 0xff == (b >> 8) & 0xff
  {
  }

  lemma ThirdEight(a: bv32, b: bv32)
    requires BitAt(a, 16) == BitAt(b, 16) && BitAt(a, 17) == BitAt(b, 17) && BitAt(a, 18) == BitAt(b, 18)
    requires BitAt(a, 19) == BitAt(b, 19)
    requires BitAt(a, 20) == BitAt(b, 20) && BitAt(a, 21) == BitAt(b, 21) && BitAt(a, 22) == BitAt(b, 22)
    requires BitAt(a, 23) == BitAt(b, 23)
    ensures (a >> 16) & 0xff == (b >> 16) & 0xff
  {
  }

  lemma LastEight(a: bv32, b: bv32)
    requires BitAt(a, 24) == BitAt(b, 24) && BitAt(a, 25) == BitAt(b, 25) && BitAt(a, 26) == BitAt(b, 26)
    requires BitAt(a, 27) == BitAt(b, 27)
    requires BitAt(a, 28) == BitAt(b, 28) && BitAt(a, 29) == BitAt(b, 29) && BitAt(a, 30) == BitAt(b, 30)
    requires BitAt(a, 31) == BitAt(b, 31)
    ensures (a >> 24) & 0xff == (b >> 24) & 0xff
  {
  }

  lemma FourBytes(a: bv32, b: bv32)
    requires (a >> 0) & 0xff == (b >> 0) & 0xff && (a >> 8) & 0xff == (b >> 8) & 0xff
    requires (a >> 16) & 0xff == (b >> 16) & 0xff && (a >> 24) & 0xff == (b >> 24) & 0xff
    ensures a == b
  {
  }

  lemma BitsTell(a: bv32, b: bv32)
    requires forall j :: 0 <= j < 32 ==> Bit(a, j) == Bit(b, j)
    ensures a == b
  {
    hide BitAt;
    assert Bit(a, 0) == Bit(b, 0) && Bit(a, 1) == Bit(b, 1) && Bit(a, 2) == Bit(b, 2) && Bit(a, 3) == Bit(b, 3);
    assert Bit(a, 4) == Bit(b, 4) && Bit(a, 5) == Bit(b, 5) && Bit(a, 6) == Bit(b, 6) && Bit(a, 7) == Bit(b, 7);
    FirstEight(a, b);
    assert Bit(a, 8) == Bit(b, 8) && Bit(a, 9) == Bit(b, 9) && Bit(a, 10) == Bit(b, 10) && Bit(a, 11) == Bit(b, 11);
    assert Bit(a, 12) == Bit(b, 12) && Bit(a, 13) == Bit(b, 13) && Bit(a, 14) == Bit(b, 14) && Bit(a, 15) == Bit(b, 15);
    SecondEight(a, b);
    assert Bit(a, 16) == Bit(b, 16) && Bit(a, 17) == Bit(b, 17) && Bit(a, 18) == Bit(b, 18) && Bit(a, 19) == Bit(b, 19);
    assert Bit(a, 20) == Bit(b, 20) && Bit(a, 21) == Bit(b, 21) && Bit(a, 22) == Bit(b, 22) && Bit(a, 23) == Bit(b, 23);
    ThirdEight(a, b);
    assert Bit(a, 24) == Bit(b, 24) && Bit(a, 25) == Bit(b, 25) && Bit(a, 26) == Bit(b, 26) && Bit(a, 27) == Bit(b, 27);
    assert Bit(a, 28) == Bit(b, 28) && Bit(a, 29) == Bit(b, 29) && Bit(a, 30) == Bit(b, 30) && Bit(a, 31) == Bit(b, 31);
    LastEight(a, b);
    FourBytes(a, b);
  }

  /** There is one such checksum. */
  lemma CombinedOnce(a: bv32, b: bv32, blocks: seq<bv32>)
    requires IsCombined(a, blocks) && IsCombined(b, blocks)
    ensures a == b
  {
    hide Bit, Turned;
    BitsTell(a, b);
  }
}
