/** The output side of the decoder: walking back through a block and expanding
    its runs, in either of the two ways the decoder can be configured for. */
module BlockOutput {
  import opened Bits
  import opened Wrappers
  import opened Crc
  import opened CountingSort
  import opened Rotations
  import opened ByteCounts
  import opened InverseSort
  import opened MoveToFront
  import opened RunLength

  // ----- what is still to come

  function Prepend(s: seq<byte>, r: Result<seq<byte>>): Result<seq<byte>> {
    if r.Success? then Success(s + r.value) else r
  }

  /** The output that remains when `u` bytes of the block have been read, the last
      of which is held back. */
  function After(b: seq<byte>, u: nat): Result<seq<byte>> {
    if 1 <= u <= |b| + 1 then UnRle(b[u - 1..]) else Failure(DataError)
  }

  lemma PrependTwice(s: seq<byte>, t: seq<byte>, r: Result<seq<byte>>)
    ensures Prepend(s, Prepend(t, r)) == Prepend(s + t, r)
    ensures Prepend([], r) == r
  {
    if r.Success? {
      assert s + (t + r.value) == s + t + r.value;
      assert [] + r.value == r.value;
    }
  }

  lemma {:induction false} UnRleFails(b: seq<byte>)
    ensures UnRle(b).Failure? ==> UnRle(b).error == DataError
    decreases |b|
  {
    if b != [] {
      var m := RunAt(b);
      if m < 4 { UnRleFails(b[m..]); } else if |b| > 4 { UnRleFails(b[5..]); }
    }
  }

  /** `m` equal bytes from the one that is held back on. */
  ghost predicate Run(b: seq<byte>, u: nat, m: nat) {
    1 <= u && u - 1 + m <= |b| && forall i :: u - 1 <= i < u - 1 + m ==> b[i] == b[u - 1]
  }

  /** A run of fewer than four bytes. */
  lemma AfterShort(b: seq<byte>, u: nat, m: nat)
    requires 1 <= m < 4 && Run(b, u, m)
    requires u - 1 + m == |b| || b[u - 1 + m] != b[u - 1]
    ensures After(b, u) == Prepend(Repeat(b[u - 1], m), After(b, u + m))
  {
    var c := b[u - 1..];
    assert RunAt(c) == m;
    assert c[m..] == b[u + m - 1..];
  }

  /** Four equal bytes and a count. */
  lemma AfterCounted(b: seq<byte>, u: nat, k1: byte)
    requires Run(b, u, 4) && (u + 3 < |b| ==> k1 == b[u + 3])
    ensures After(b, u) == Prepend(Repeat(b[u - 1], CountedRun(k1)), After(b, u + 5))
  {
    var c := b[u - 1..];
    assert RunAt(c) == 4;
    if u + 3 < |b| {
      assert c[4] == k1 && c[5..] == b[u + 5 - 1..];
    }
  }

  // ----- the decoder's state while it puts a block out

  class BlockOutput {
    const small: bool
    const table: CrcTable
    const tt: array<nat>
    const ll16: array<nat>
    const ll4: array<byte>
    const cftab: array<nat>
    const save_nblock: nat
    var tPos: nat
    var nblock_used: nat
    var k0: byte
    var state_out_ch: byte
    var state_out_len: nat
    var calculatedBlockCRC: bv32
    ghost const col: seq<byte>
    ghost const orig: nat
    ghost const cycle: set<nat>

    /** The tables stand for the column. */
    ghost predicate Tables()
      reads this, tt, ll16, ll4, cftab
    {
      && orig < |col| == save_nblock
      && if small then Cumulated(cftab, col) && Cycle(ll16, ll4, col, cycle) else Walkable(tt, col)
    }

    /** The walk has come to the row of the last byte that was read. */
    ghost predicate Walking()
      reads this
    {
      && orig < |col|
      && if small then tPos == Row(col, orig, nblock_used) && tPos in cycle
         else tPos == Row(col, orig, nblock_used + 1)
    }

    ghost predicate Reading()
      reads this, tt, ll16, ll4, cftab
    {
      Tables() && Walking()
    }

    ghost predicate Valid()
      reads this, tt, ll16, ll4, cftab
    {
      && Reading() && nblock_used >= 1 && Held(Block(), nblock_used, k0)
    }

    /** Links the rows of a block that has been read into `tt`, and reads its first
        byte. */
    constructor Fast(table: CrcTable, tt: array<nat>, cftab: array<nat>, nblock: nat, origPtr: nat,
            ghost col: seq<byte>)
      requires origPtr < nblock == |col| <= tt.Length && tt != cftab && Cumulated(cftab, col)
      requires forall r :: 0 <= r < nblock ==> tt[r] == col[r]
      modifies tt, cftab
      ensures Valid() && !small && this.tt == tt && this.cftab == cftab && this.table == table
      ensures fresh(ll16) && fresh(ll4)
      ensures this.col == col && orig == origPtr
      ensures Pending() == UnRle(Unsorted(col, origPtr)) && calculatedBlockCRC == CRC_INIT
    {
      small, this.table, this.tt, this.cftab, save_nblock := false, table, tt, cftab, nblock;
      ll16, ll4 := new nat[0], new byte[0];
      this.col, orig, cycle := col, origPtr, {};
      state_out_len, state_out_ch, calculatedBlockCRC, nblock_used, k0 := 0, 0, CRC_INIT, 0, 0;
      tPos := 0;
      new;
      hide UnRle;
      LinkRows(tt, cftab, nblock, col);
      FollowedIs(col, origPtr);
      SplitEntry(tt[origPtr], col[origPtr], Follow(col, origPtr));
      tPos := tt[origPtr] / 256;
      GetRow(col, origPtr, 0);
      hide After, Prepend, Repeat;
      ReadFirst();
    }

    /** Reads the first byte of the block ahead. */
    method ReadFirst()
      requires Reading() && nblock_used == 0 && state_out_len == 0
      modifies this`tPos, this`nblock_used, this`k0
      ensures Valid() && Pending() == UnRle(Block())
    {
      hide Cumulated, Cycle, Walkable, Row, Unsorted, UnRle, After, Prepend, Repeat;
      if small {
        k0 := GetSmall();
      } else {
        k0 := GetFast();
      }
      FirstPending(Block(), state_out_ch);
    }

    constructor Small(table: CrcTable, ll16: array<nat>, ll4: array<byte>, cftab: array<nat>, nblock: nat, origPtr: nat,
                      ghost col: seq<byte>)
      requires origPtr < nblock == |col| <= MOST_ROWS && Cumulated(cftab, col)
      requires ll16 != cftab && Packed(ll16, ll4, nblock)
      requires forall r :: 0 <= r < nblock ==> ll16[r] == col[r]
      modifies ll16, ll4
      ensures Valid() && small && this.ll16 == ll16 && this.ll4 == ll4 && this.cftab == cftab && this.table == table
      ensures fresh(tt)
      ensures this.col == col && orig == origPtr
      ensures Pending() == UnRle(Unsorted(col, origPtr)) && calculatedBlockCRC == CRC_INIT
    {
      hide Cumulated, Cycle, Row, Unsorted, UnRle, After, Prepend, Repeat;
      FirstRow(col, origPtr);
      ghost var turned := LinkCycle(ll16, ll4, cftab, nblock, origPtr, col);
      small, this.table, this.ll16, this.ll4, this.cftab, save_nblock := true, table, ll16, ll4, cftab, nblock;
      tt := new nat[0];
      this.col, orig, cycle := col, origPtr, turned;
      state_out_len, state_out_ch, calculatedBlockCRC, nblock_used, k0 := 0, 0, CRC_INIT, 0, 0;
      tPos := origPtr;
      new;
      ReadFirst();
    }

    /** The block that the column stands for. */
    ghost function Block(): (b: seq<byte>)
      requires orig < |col|
      reads this
      ensures |b| == |col|
    {
      Unsorted(col, orig)
    }

    /** The output of this block that is still to come. */
    ghost function Pending(): Result<seq<byte>>
      requires orig < |col|
      reads this
    {
      Prepend(Repeat(state_out_ch, state_out_len), After(Block(), nblock_used))
    }

    /** All of the block has been put out. */
    predicate Done()
      reads this
    {
      nblock_used == save_nblock + 1 && state_out_len == 0
    }

    /** Reads one byte of the block. Its bound check on `tPos` never fails. */
    method GetFast() returns (k: byte)
      requires Reading() && !small
      modifies this`tPos, this`nblock_used
      ensures Reading() && nblock_used == old(nblock_used) + 1
      ensures old(nblock_used) < save_nblock ==> k == Block()[old(nblock_used)]
    {
      GetRow(col, orig, nblock_used);
      assert tPos < save_nblock;
      FollowedIs(col, tPos);
      var entry := tt[tPos];
      SplitEntry(entry, col[tPos], Follow(col, tPos));
      k := entry % 256;
      tPos := entry / 256;
      nblock_used := nblock_used + 1;
    }

    method GetSmall() returns (k: byte)
      requires Reading() && small
      modifies this`tPos, this`nblock_used
      ensures Reading() && nblock_used == old(nblock_used) + 1
      ensures old(nblock_used) < save_nblock ==> k == Block()[old(nblock_used)]
    {
      hide Cumulated, Cycle, Walkable, Row, Unsorted, Follow, GetLL;
      GetRow(col, orig, nblock_used);
      CycleRow(ll16, ll4, col, cycle, tPos);
      k := IndexIntoF(tPos, cftab, col);
      tPos := GetLL(ll16, ll4, tPos);
      nblock_used := nblock_used + 1;
    }

    /** Puts out the byte of the open run, until `least` of it are left or there is
        no more room. */
    method PutRun(least: nat, avail0: nat) returns (out: seq<byte>, avail: nat)
      requires least <= state_out_len
      modifies this`state_out_len, this`calculatedBlockCRC
      ensures |out| + avail == avail0 && out == Repeat(state_out_ch, |out|)
      ensures least <= state_out_len == old(state_out_len) - |out| && (avail == 0 || state_out_len == least)
      ensures calculatedBlockCRC == CrcFrom(table, old(calculatedBlockCRC), out)
    {
      hide UpdateCrc, CrcFrom;
      CrcNothing(table, calculatedBlockCRC);
      out, avail := [], avail0;
      while avail != 0 && state_out_len != least
        invariant |out| + avail == avail0 && out == Repeat(state_out_ch, |out|)
        invariant least <= state_out_len == old(state_out_len) - |out|
        invariant calculatedBlockCRC == CrcFrom(table, old(calculatedBlockCRC), out)
        decreases avail
      {
        CrcSnoc(table, old(calculatedBlockCRC), out, state_out_ch);
        calculatedBlockCRC := UpdateCrc(table, calculatedBlockCRC, state_out_ch);
        out := out + [state_out_ch];
        state_out_len := state_out_len - 1;
        avail := avail - 1;
      }
    }

    // ----- fast mode

    /** Takes one more byte into a run that has `m` bytes already, unless it ends
        there. */
    method ExtendFast(m: nat, ghost u: nat) returns (ends: bool)
      requires Reading() && !small && 1 <= m < 4 && nblock_used == u + m - 1
      requires Run(Block(), u, m) && k0 == Block()[u - 1]
      modifies this`tPos, this`nblock_used, this`k0, this`state_out_len
      ensures Reading() && nblock_used == u + m && state_out_len == m
      ensures ends ==> Held(Block(), nblock_used, k0)
      ensures ends ==> After(Block(), u) == Prepend(Repeat(Block()[u - 1], m), After(Block(), nblock_used))
      ensures !ends ==> Run(Block(), u, m + 1) && k0 == Block()[u - 1]
    {
      hide Cumulated, Cycle, Walkable, Row, Unsorted, After, Prepend, Repeat, UnRle;
      state_out_len := m;
      var k1 := GetFast();
      if nblock_used == save_nblock + 1 {
        RunEnds(Block(), u, m, k0, k0);
        return true;
      }
      if k1 != k0 {
        RunEnds(Block(), u, m, k0, k1);
        k0 := k1;
        return true;
      }
      RunGoesOn(Block(), u, m, k0, k1);
      ends := false;
    }

    /** The count after four equal bytes, and the byte after it. */
    method ReadCountFast(ghost u: nat)
      requires Reading() && !small && nblock_used == u + 3 && Run(Block(), u, 4)
      modifies this`tPos, this`nblock_used, this`k0, this`state_out_len
      ensures Valid() && nblock_used == u + 5 && state_out_len >= 4
      ensures After(Block(), u) == Prepend(Repeat(Block()[u - 1], state_out_len), After(Block(), nblock_used))
    {
      hide Cumulated, Cycle, Walkable, Row, Unsorted, After, Prepend, Repeat, UnRle;
      var k1 := GetFast();
      state_out_len := CountedRun(k1);
      AfterCounted(Block(), u, k1);
      k0 := GetFast();
    }

    /** Reads one run. When it is found to be a single byte, `one` is returned and
        `state_out_len` is left as it was. */
    method StartRunFast() returns (one: bool)
      requires Valid() && !small && nblock_used <= save_nblock
      modifies this`tPos, this`nblock_used, this`k0, this`state_out_ch, this`state_out_len
      ensures Valid() && nblock_used > old(nblock_used) && (one || state_out_len >= 2)
      ensures After(Block(), old(nblock_used))
           == Prepend(Repeat(state_out_ch, if one then 1 else state_out_len), After(Block(), nblock_used))
    {
      hide Cumulated, Cycle, Walkable, Row, Unsorted, After, Prepend, Repeat, UnRle, Run;
      ghost var u := nblock_used;
      RunBegins(Block(), u, k0);
      state_out_ch := k0;
      var k1 := GetFast();
      if k1 != k0 {
        RunEnds(Block(), u, 1, k0, k1);
        k0 := k1;
        return true;
      }
      if nblock_used == save_nblock + 1 {
        RunEnds(Block(), u, 1, k0, k1);
        return true;
      }
      RunGoesOn(Block(), u, 1, k0, k1);
      one := false;
      var ends := ExtendFast(2, u);
      if !ends {
        ends := ExtendFast(3, u);
        if !ends {
          ReadCountFast(u);
        }
      }
    }

    /** Puts bytes out until there is no more room, the block ends, or it turns out
        to be corrupt. */
    method OutputFast(avail0: nat) returns (out: seq<byte>, corrupt: bool)
      requires Valid() && !small
      modifies this`tPos, this`nblock_used, this`k0, this`state_out_ch, this`state_out_len, this`calculatedBlockCRC
      ensures Valid() && |out| <= avail0
      ensures corrupt ==> old(Pending()).Failure?
      ensures !corrupt ==> old(Pending()) == Prepend(out, Pending()) && (|out| == avail0 || Done())
      ensures calculatedBlockCRC == CrcFrom(table, old(calculatedBlockCRC), out)
    {
      hide Cumulated, Cycle, Walkable, Row, Unsorted, After, Prepend, Repeat, UnRle, UpdateCrc, CrcFrom;
      out, corrupt := [], false;
      var avail, one := avail0, false;
      PrependTwice([], [], Pending());
      CrcNothing(table, calculatedBlockCRC);
      while true
        invariant Valid() && |out| + avail == avail0
        invariant old(Pending()) == Prepend(out, Open(one))
        invariant calculatedBlockCRC == CrcFrom(table, old(calculatedBlockCRC), out)
        decreases save_nblock + 1 - nblock_used
      {
        if one || state_out_len > 0 {
          var more, full;
          more, avail, full := FinishRunFast(one, avail);
          CrcConcat(table, old(calculatedBlockCRC), out, more);
          PrependTwice(out, more, if full then Pending() else After(Block(), nblock_used));
          out := out + more;
          if full {
            return;
          }
        } else {
          RunOver(state_out_ch, After(Block(), nblock_used));
        }
        if nblock_used > save_nblock + 1 {
          AfterEnd(Block(), nblock_used, out);
          return out, true;
        }
        if nblock_used == save_nblock + 1 {
          state_out_len := 0;
          RunOver(state_out_ch, After(Block(), nblock_used));
          return;
        }
        one := StartRunFast();
      }
    }

    /** The output that is still to come, when the open run may be a single byte
        that is not counted in `state_out_len`. */
    ghost function Open(one: bool): Result<seq<byte>>
      requires orig < |col|
      reads this
    {
      Prepend(Repeat(state_out_ch, if one then 1 else state_out_len), After(Block(), nblock_used))
    }

    /** Finishes the open run. Unless there is no more room, `state_out_len` is left
        as it was for the last byte. */
    method FinishRunFast(one: bool, avail0: nat) returns (out: seq<byte>, avail: nat, full: bool)
      requires orig < |col| && (one || state_out_len > 0)
      modifies this`state_out_len, this`calculatedBlockCRC
      ensures |out| + avail == avail0 && (full ==> avail == 0)
      ensures old(Open(one)) == Prepend(out, if full then Pending() else After(Block(), nblock_used))
      ensures calculatedBlockCRC == CrcFrom(table, old(calculatedBlockCRC), out)
    {
      hide Unsorted, After, Prepend, Repeat, UpdateCrc, CrcFrom;
      ghost var rest := After(Block(), nblock_used);
      out, avail := [], avail0;
      CrcNothing(table, calculatedBlockCRC);
      if !one {
        out, avail := PutRun(1, avail);
        RunPart(state_out_ch, |out|, state_out_len, rest);
        if avail == 0 {
          return out, avail, true;
        }
      } else if avail == 0 {
        state_out_len := 1;
        RunPart(state_out_ch, 0, 1, rest);
        return out, avail, true;
      } else {
        RunPart(state_out_ch, 0, 1, rest);
      }
      CrcSnoc(table, old(calculatedBlockCRC), out, state_out_ch);
      LastOfRun(out, state_out_ch, rest);
      out := out + [state_out_ch];
      calculatedBlockCRC := UpdateCrc(table, calculatedBlockCRC, state_out_ch);
      avail := avail - 1;
      full := false;
    }

    // ----- small mode

    /** Takes one more byte into a run that has `m` bytes already, unless it ends
        there. */
    method ExtendSmall(m: nat, ghost u: nat) returns (ends: bool)
      requires Reading() && small && 1 <= m < 4 && nblock_used == u + m - 1
      requires Run(Block(), u, m) && k0 == Block()[u - 1]
      modifies this`tPos, this`nblock_used, this`k0, this`state_out_len
      ensures Reading() && nblock_used == u + m && state_out_len == m
      ensures ends ==> Held(Block(), nblock_used, k0)
      ensures ends ==> After(Block(), u) == Prepend(Repeat(Block()[u - 1], m), After(Block(), nblock_used))
      ensures !ends ==> Run(Block(), u, m + 1) && k0 == Block()[u - 1]
    {
      hide Cumulated, Cycle, Walkable, Row, Unsorted, After, Prepend, Repeat, UnRle;
      state_out_len := m;
      var k1 := GetSmall();
      if nblock_used == save_nblock + 1 {
        RunEnds(Block(), u, m, k0, k0);
        return true;
      }
      if k1 != k0 {
        RunEnds(Block(), u, m, k0, k1);
        k0 := k1;
        return true;
      }
      RunGoesOn(Block(), u, m, k0, k1);
      ends := false;
    }

    /** The count after four equal bytes, and the byte after it. */
    method ReadCountSmall(ghost u: nat)
      requires Reading() && small && nblock_used == u + 3 && Run(Block(), u, 4)
      modifies this`tPos, this`nblock_used, this`k0, this`state_out_len
      ensures Valid() && nblock_used == u + 5 && state_out_len >= 4
      ensures After(Block(), u) == Prepend(Repeat(Block()[u - 1], state_out_len), After(Block(), nblock_used))
    {
      hide Cumulated, Cycle, Walkable, Row, Unsorted, After, Prepend, Repeat, UnRle;
      var k1 := GetSmall();
      state_out_len := CountedRun(k1);
      AfterCounted(Block(), u, k1);
      k0 := GetSmall();
    }

    /** Reads one run. */
    method StartRunSmall()
      requires Valid() && small && nblock_used <= save_nblock
      modifies this`tPos, this`nblock_used, this`k0, this`state_out_ch, this`state_out_len
      ensures Valid() && nblock_used > old(nblock_used) && state_out_len >= 1
      ensures After(Block(), old(nblock_used))
           == Prepend(Repeat(state_out_ch, state_out_len), After(Block(), nblock_used))
    {
      hide Cumulated, Cycle, Walkable, Row, Unsorted, After, Prepend, Repeat, UnRle, Run;
      ghost var u := nblock_used;
      RunBegins(Block(), u, k0);
      state_out_ch := k0;
      var ends := ExtendSmall(1, u);
      if !ends {
        ends := ExtendSmall(2, u);
        if !ends {
          ends := ExtendSmall(3, u);
          if !ends {
            ReadCountSmall(u);
          }
        }
      }
    }

    /** Puts bytes out until there is no more room, the block ends, or it turns out
        to be corrupt. */
    method OutputSmall(avail0: nat) returns (out: seq<byte>, corrupt: bool)
      requires Valid() && small
      modifies this`tPos, this`nblock_used, this`k0, this`state_out_ch, this`state_out_len, this`calculatedBlockCRC
      ensures Valid() && |out| <= avail0
      ensures corrupt ==> old(Pending()).Failure?
      ensures !corrupt ==> old(Pending()) == Prepend(out, Pending()) && (|out| == avail0 || Done())
      ensures calculatedBlockCRC == CrcFrom(table, old(calculatedBlockCRC), out)
    {
      hide Cumulated, Cycle, Walkable, Row, Unsorted, After, Prepend, Repeat, UnRle, UpdateCrc, CrcFrom;
      out, corrupt := [], false;
      var avail := avail0;
      PrependTwice([], [], Pending());
      CrcNothing(table, calculatedBlockCRC);
      while true
        invariant Valid() && |out| + avail == avail0
        invariant old(Pending()) == Prepend(out, Pending())
        invariant calculatedBlockCRC == CrcFrom(table, old(calculatedBlockCRC), out)
        decreases save_nblock + 1 - nblock_used
      {
        ghost var rest := After(Block(), nblock_used);
        var more;
        more, avail := PutRun(0, avail);
        CrcConcat(table, old(calculatedBlockCRC), out, more);
        RunPart(state_out_ch, |more|, state_out_len, rest);
        PrependTwice(out, more, Pending());
        out := out + more;
        if avail == 0 {
          return;
        }
        if nblock_used == save_nblock + 1 {
          return;
        }
        RunOver(state_out_ch, rest);
        if nblock_used > save_nblock + 1 {
          AfterEnd(Block(), nblock_used, out);
          return out, true;
        }
        StartRunSmall();
      }
    }
  }

  /** The first `k` bytes of a run are put out. */
  lemma RunPart(ch: byte, k: nat, left: nat, rest: Result<seq<byte>>)
    ensures Prepend(Repeat(ch, k + left), rest) == Prepend(Repeat(ch, k), Prepend(Repeat(ch, left), rest))
    ensures k == 0 ==> Prepend(Repeat(ch, left), rest) == Prepend([], Prepend(Repeat(ch, left), rest))
  {
    PrependTwice(Repeat(ch, k), Repeat(ch, left), rest);
    PrependTwice([], Repeat(ch, left), rest);
    assert Repeat(ch, k + left) == Repeat(ch, k) + Repeat(ch, left);
    assert [] + Repeat(ch, left) == Repeat(ch, left);
  }

  lemma LastOfRun(out: seq<byte>, ch: byte, rest: Result<seq<byte>>)
    ensures Prepend(out, Prepend(Repeat(ch, 1), rest)) == Prepend(out + [ch], rest)
  {
    assert Repeat(ch, 1) == [ch];
    PrependTwice(out, [ch], rest);
  }

  lemma RunOver(ch: byte, rest: Result<seq<byte>>)
    ensures Prepend(Repeat(ch, 0), rest) == rest
  {
    assert Repeat(ch, 0) == [];
    PrependTwice([], [], rest);
  }

  /** Reading past the end of the block shows that it is corrupt. */
  lemma AfterEnd(b: seq<byte>, u: nat, out: seq<byte>)
    requires u > |b| + 1
    ensures Prepend(out, After(b, u)).Failure?
  {
  }

  lemma RunBegins(b: seq<byte>, u: nat, k0: byte)
    requires Held(b, u, k0) && 1 <= u <= |b|
    ensures Run(b, u, 1) && k0 == b[u - 1]
  {
  }

  lemma RunGoesOn(b: seq<byte>, u: nat, m: nat, k0: byte, k1: byte)
    requires 1 <= u && u - 1 + m < |b| && Run(b, u, m) && k0 == b[u - 1] && k1 == b[u - 1 + m] == k0
    ensures Run(b, u, m + 1)
  {
  }

  /** A run ends at the end of the block or at a different byte. */
  lemma RunEnds(b: seq<byte>, u: nat, m: nat, k0: byte, k1: byte)
    requires 1 <= m < 4 && Run(b, u, m) && k0 == b[u - 1]
    requires u - 1 + m == |b| || (k1 != k0 && k1 == b[u - 1 + m])
    ensures After(b, u) == Prepend(Repeat(k0, m), After(b, u + m))
    ensures Held(b, u + m, k1)
  {
    AfterShort(b, u, m);
  }

  lemma FirstPending(b: seq<byte>, ch: byte)
    ensures Prepend(Repeat(ch, 0), After(b, 1)) == UnRle(b)
  {
    RunOver(ch, After(b, 1));
    assert b[0..] == b;
  }

  lemma CycleRow(ll16: array<nat>, ll4: array<byte>, col: seq<byte>, cycle: set<nat>, r: nat)
    requires Cycle(ll16, ll4, col, cycle) && r in cycle
    ensures r < |col| && r < ll16.Length && r / 2 < ll4.Length
    ensures GetLL(ll16, ll4, r) == Follow(col, r) && Follow(col, r) in cycle
  {
    assert Linked(ll16, ll4, col, r);
    FollowedIs(col, r);
  }

  lemma FirstRow(col: seq<byte>, orig: nat)
    requires orig < |col|
    ensures Row(col, orig, 0) == orig
  {
  }

  lemma GetRow(col: seq<byte>, orig: nat, u: nat)
    requires orig < |col|
    ensures Row(col, orig, u + 1) == Follow(col, Row(col, orig, u))
    ensures Row(col, orig, u + 2) == Follow(col, Row(col, orig, u + 1))
    ensures u < |col| ==> Unsorted(col, orig)[u] == col[Row(col, orig, u + 1)]
  {
  }

  lemma SplitEntry(entry: nat, c: byte, r: nat)
    requires entry == c + 256 * r
    ensures entry % 256 == c && entry / 256 == r
  {
  }

  /** The byte held back is the last one read, while there is one. */
  ghost predicate Held(b: seq<byte>, u: nat, k0: byte) {
    1 <= u <= |b| ==> k0 == b[u - 1]
  }
}
