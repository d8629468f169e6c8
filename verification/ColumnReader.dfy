/** Reading the symbols of a block into its column: Huffman codes, zero runs and
    the move-to-front list, all in place. */
module ColumnReader {
  import opened Bits
  import opened Wrappers
  import opened BitStream
  import opened CountingSort
  import opened InUse
  import opened MoveToFront
  import opened Permutations
  import opened SlidingList
  import opened Huffman
  import opened HuffmanTables
  import opened ByteCounts
  import opened InverseSort
  import opened BlockFormat

  // ----- symbols in groups of fifty

  ghost predicate AllTables(tables: seq<DecodeTables>, lens: seq<seq<nat>>) {
    |tables| == |lens| && forall t :: 0 <= t < |lens| ==> TablesFor(tables[t], lens[t])
  }

  method BuildAllTables(lens: seq<seq<nat>>, ghost alphaSize: nat) returns (tables: seq<DecodeTables>)
    requires Tables(lens, alphaSize)
    ensures AllTables(tables, lens)
  {
    hide TablesFor, Lengths;
    tables := [];
    for t := 0 to |lens|
      invariant |tables| == t && forall u :: 0 <= u < t ==> TablesFor(tables[u], lens[u])
    {
      var table := BuildTables(lens[t]);
      tables := tables + [table];
    }
  }

  /** The source of symbols: each group of fifty has its own table. */
  class SymbolSource {
    const br: BitReader
    const selector: seq<nat>
    const tables: seq<DecodeTables>
    var groupNo: int
    var groupPos: nat
    ghost const codes: Codes
    ghost const alphaSize: nat

    ghost predicate Valid()
      reads this, br
    {
      && br.Valid() && ValidCodes(codes, alphaSize)
      && selector == codes.selectors && AllTables(tables, codes.lens)
      && -1 <= groupNo < |selector| && groupPos < GROUP_SIZE
    }

    /** The number of symbols read so far. */
    ghost function Read(): int
      reads this
    {
      GROUP_SIZE * (groupNo + 1) - groupPos
    }

    constructor (br: BitReader, selector: seq<nat>, tables: seq<DecodeTables>, ghost codes: Codes, ghost alphaSize: nat)
      requires br.Valid() && ValidCodes(codes, alphaSize)
      requires selector == codes.selectors && AllTables(tables, codes.lens)
      ensures Valid() && Read() == 0 && this.br == br && this.codes == codes && this.alphaSize == alphaSize
    {
      this.br, this.selector, this.tables, this.codes, this.alphaSize := br, selector, tables, codes, alphaSize;
      groupNo, groupPos := -1, 0;
    }

    /** Reads the next symbol with the table of its group. */
    method Next() returns (r: Result<nat>)
      requires Valid() && Read() >= 0
      modifies this, br
      ensures Valid()
      ensures Agrees(r, br.Remaining(), DecodeSymbolAt(old(br.Remaining()), codes, alphaSize, old(Read())))
      ensures r.Success? ==> Read() == old(Read()) + 1 && r.value < alphaSize
    {
      hide TablesFor, Lengths, DecodeSymbol;
      GroupOf(groupNo, groupPos);
      if groupPos == 0 {
        if groupNo + 1 >= |selector| {
          return Failure(DataError);
        }
        groupNo := groupNo + 1;
        groupPos := GROUP_SIZE;
      }
      groupPos := groupPos - 1;
      ghost var lens := codes.lens[selector[groupNo]];
      SymbolBelow(lens, br.Remaining());
      r := ReadSymbol(br, tables[selector[groupNo]], lens);
    }
  }

  lemma GroupOf(groupNo: int, groupPos: nat)
    requires -1 <= groupNo && groupPos < GROUP_SIZE && GROUP_SIZE * (groupNo + 1) - groupPos >= 0
    ensures (GROUP_SIZE * (groupNo + 1) - groupPos) / GROUP_SIZE == if groupPos == 0 then groupNo + 1 else groupNo
    ensures groupPos > 0 ==> groupNo >= 0
  {
  }

  lemma SymbolBelow(lens: seq<nat>, bits: seq<bool>)
    requires Lengths(lens)
    ensures DecodeSymbol(lens, bits).Ok? ==> DecodeSymbol(lens, bits).value < |lens|
  {
    var p := TakeBits(bits, MinLen(lens));
    if p.Ok? { SymbolInRange(lens, MinLen(lens), p.value, p.rest); }
  }

  // ----- what one symbol does to the column that is decoded

  lemma AfterRunStart(bits: seq<bool>, codes: Codes, alphaSize: nat, c: Context, k: nat, st: State, sym: nat)
    requires ValidCodes(codes, alphaSize) && k / GROUP_SIZE < |codes.selectors|
    requires st.N == 0 && (sym == RUNA || sym == RUNB) && alphaSize >= 3
    ensures DecodeAfter(bits, codes, alphaSize, c, k, st, sym)
         == DecodeAfter(bits, codes, alphaSize, c, k, st.(es := -1, N := 1), sym)
  {
  }

  lemma AfterDigit(bits: seq<bool>, codes: Codes, alphaSize: nat, c: Context, k: nat, st: State, sym: nat)
    requires ValidCodes(codes, alphaSize) && k / GROUP_SIZE < |codes.selectors|
    requires st.N > 0 && (sym == RUNA || sym == RUNB) && alphaSize >= 3
    ensures DecodeAfter(bits, codes, alphaSize, c, k, st, sym)
         == if st.N >= RUN_LIMIT then Fail(DataError)
            else DecodeColumn(bits, codes, alphaSize, c, k + 1, st.(es := st.es + (sym + 1) * st.N, N := 2 * st.N))
  {
  }

  lemma AfterRunEnd(bits: seq<bool>, codes: Codes, alphaSize: nat, c: Context, k: nat, st: State, sym: nat)
    requires ValidCodes(codes, alphaSize) && k / GROUP_SIZE < |codes.selectors| && sym > 1
    ensures EndRun(c, st).Failure? ==> DecodeAfter(bits, codes, alphaSize, c, k, st, sym) == Fail(EndRun(c, st).error)
    ensures EndRun(c, st).Success? ==>
      DecodeAfter(bits, codes, alphaSize, c, k, st, sym)
      == DecodeAfter(bits, codes, alphaSize, c, k, EndRun(c, st).value, sym)
  {
  }

  lemma AfterEntry(bits: seq<bool>, codes: Codes, alphaSize: nat, c: Context, k: nat, st: State, sym: nat)
    requires ValidCodes(codes, alphaSize) && k / GROUP_SIZE < |codes.selectors|
    requires st.N == 0 && 1 < sym < alphaSize - 1 && sym - 1 < |st.list|
    ensures DecodeAfter(bits, codes, alphaSize, c, k, st, sym)
         == if |st.col| >= c.max then Fail(DataError)
            else DecodeColumn(bits, codes, alphaSize, c, k + 1,
                              st.(list := ToFront(st.list, sym - 1), col := st.col + [ByteOf(c, st.list[sym - 1])]))
  {
  }

  /** Reading one more symbol. */
  method NextSymbol(src: SymbolSource, ghost c: Context, ghost st: State) returns (r: Result<nat>)
    requires src.Valid() && src.Read() >= 0
    modifies src, src.br
    ensures src.Valid()
    ensures r.Success? ==> src.Read() == old(src.Read()) + 1 && r.value < src.alphaSize
    ensures r.Success? ==> old(src.Read()) / GROUP_SIZE < |src.codes.selectors|
    ensures r.Success? ==>
      DecodeColumn(old(src.br.Remaining()), src.codes, src.alphaSize, c, old(src.Read()), st)
      == DecodeAfter(src.br.Remaining(), src.codes, src.alphaSize, c, old(src.Read()), st, r.value)
    ensures r.Failure? ==>
      DecodeColumn(old(src.br.Remaining()), src.codes, src.alphaSize, c, old(src.Read()), st) == Fail(r.error)
  {
    hide DecodeSymbolAt, DecodeAfter, AllTables, Tables;
    r := src.Next();
  }

  /** Reads the digits of a run, and the symbol after it. */
  method ReadRun(src: SymbolSource, sym0: nat, ghost c: Context, ghost st: State)
    returns (r: Result<nat>, es: int, ghost N: nat)
    requires src.Valid() && src.Read() >= 1 && (src.Read() - 1) / GROUP_SIZE < |src.codes.selectors|
    requires st.N == 0 && (sym0 == RUNA || sym0 == RUNB) && src.alphaSize >= 3
    modifies src, src.br
    ensures src.Valid()
    ensures r.Success? ==> N > 0 && es >= 0 && 1 < r.value < src.alphaSize && src.Read() > old(src.Read())
    ensures r.Success? ==> (src.Read() - 1) / GROUP_SIZE < |src.codes.selectors|
    ensures r.Success? ==>
      old(DecodeAfter(src.br.Remaining(), src.codes, src.alphaSize, c, src.Read() - 1, st, sym0))
      == DecodeAfter(src.br.Remaining(), src.codes, src.alphaSize, c, src.Read() - 1, st.(es := es, N := N), r.value)
    ensures r.Failure? ==>
      old(DecodeAfter(src.br.Remaining(), src.codes, src.alphaSize, c, src.Read() - 1, st, sym0)) == Fail(r.error)
  {
    hide DecodeAfter, DecodeColumn, AllTables, Tables;
    es := -1;
    var n, nextSym: nat := 1, sym0;
    AfterRunStart(src.br.Remaining(), src.codes, src.alphaSize, c, src.Read() - 1, st, sym0);
    while true
      invariant src.Valid() && src.Read() >= 1 && (src.Read() - 1) / GROUP_SIZE < |src.codes.selectors|
      invariant src.Read() >= old(src.Read())
      invariant n >= 1 && es >= -1 && (nextSym == RUNA || nextSym == RUNB)
      invariant old(DecodeAfter(src.br.Remaining(), src.codes, src.alphaSize, c, src.Read() - 1, st, sym0))
        == DecodeAfter(src.br.Remaining(), src.codes, src.alphaSize, c, src.Read() - 1, st.(es := es, N := n), nextSym)
      decreases RUN_LIMIT - n
    {
      AfterDigit(src.br.Remaining(), src.codes, src.alphaSize, c, src.Read() - 1, st.(es := es, N := n), nextSym);
      if n >= RUN_LIMIT {
        return Failure(DataError), es, n;
      }
      es := if nextSym == RUNA then es + n else es + 2 * n;
      n := 2 * n;
      r := NextSymbol(src, c, st.(es := es, N := n));
      if r.Failure? {
        return r, es, n;
      }
      nextSym := r.value;
      if nextSym != RUNA && nextSym != RUNB {
        return r, es, n;
      }
    }
  }

  // ----- the column in memory

  /** How often byte `b` occurs. */
  function Occurs(col: seq<byte>, b: int): int {
    Equal(col, |col|, b)
  }

  lemma {:induction false} SelectPrefixOnly(keys: seq<nat>, more: seq<nat>, n: nat, key: nat)
    requires n <= |keys|
    ensures Select(keys + more, n, key) == Select(keys, n, key)
  {
    if n > 0 { SelectPrefixOnly(keys, more, n - 1, key); }
  }

  lemma OccursSnoc(col: seq<byte>, x: byte, b: int)
    ensures Occurs(col + [x], b) == Occurs(col, b) + (if b == x then 1 else 0)
  {
    if b >= 0 { SelectPrefixOnly(col, [x], |col|, b); }
  }

  lemma {:induction false} OccursRun(col: seq<byte>, x: byte, n: nat, b: int)
    ensures Occurs(col + Repeat(x, n), b) == Occurs(col, b) + (if b == x then n else 0)
  {
    if n == 0 {
      assert col + Repeat(x, 0) == col;
    } else {
      OccursRun(col, x, n - 1, b);
      assert col + Repeat(x, n) == col + Repeat(x, n - 1) + [x];
      OccursSnoc(col + Repeat(x, n - 1), x, b);
    }
  }

  ghost predicate Filled(cells: array<nat>, col: seq<byte>)
    reads cells
  {
    |col| <= cells.Length && forall i :: 0 <= i < |col| ==> cells[i] == col[i]
  }

  ghost predicate Tallied(unzftab: array<nat>, col: seq<byte>)
    reads unzftab
  {
    unzftab.Length == 256 && forall b :: 0 <= b < 256 ==> unzftab[b] == Occurs(col, b)
  }

  /** The first `n` entries of the list are numbers of bytes in use. */
  ghost predicate Front(list: seq<nat>, n: nat) {
    |list| == 256 && 1 <= n <= 256 && forall i :: 0 <= i < n ==> list[i] < n
  }

  lemma FrontMoved(list: seq<nat>, n: nat, k: nat)
    requires Front(list, n) && k < n
    ensures Front(ToFront(list, k), n)
  {
  }

  /** Appends a run, as far as there is room. */
  method PutRun(cells: array<nat>, unzftab: array<nat>, uc: byte, es0: nat, nblock0: nat, nblockMAX: nat,
          ghost col: seq<byte>)
    returns (r: Result<nat>)
    requires cells != unzftab && Filled(cells, col) && Tallied(unzftab, col)
    requires nblock0 == |col| <= nblockMAX <= cells.Length
    modifies cells, unzftab
    ensures r == if |col| + es0 > nblockMAX then Failure(DataError) else Success(|col| + es0)
    ensures r.Success? ==> Filled(cells, col + Repeat(uc, es0)) && Tallied(unzftab, col + Repeat(uc, es0))
  {
    hide Occurs;
    var nblock, es: int := nblock0, es0;
    unzftab[uc] := unzftab[uc] + es;
    while es > 0
      invariant 0 <= es && nblock + es == nblock0 + es0 && nblock0 <= nblock <= nblockMAX
      invariant forall i :: 0 <= i < |col| ==> cells[i] == col[i]
      invariant forall i :: |col| <= i < nblock ==> cells[i] == uc
      invariant forall b :: 0 <= b < 256 ==> unzftab[b] == Occurs(col, b) + (if b == uc then es0 else 0)
    {
      if nblock >= nblockMAX {
        return Failure(DataError);
      }
      cells[nblock] := uc;
      nblock := nblock + 1;
      es := es - 1;
    }
    forall b | 0 <= b < 256 ensures unzftab[b] == Occurs(col + Repeat(uc, es0), b) {
      OccursRun(col, uc, es0, b);
    }
    r := Success(nblock);
  }

  /** Appends one byte. */
  method PutByte(cells: array<nat>, unzftab: array<nat>, uc: byte, nblock: nat, ghost col: seq<byte>)
    requires cells != unzftab && Filled(cells, col) && Tallied(unzftab, col) && nblock == |col| < cells.Length
    modifies cells, unzftab
    ensures Filled(cells, col + [uc]) && Tallied(unzftab, col + [uc])
  {
    hide Occurs;
    unzftab[uc] := unzftab[uc] + 1;
    cells[nblock] := uc;
    forall b | 0 <= b < 256 ensures unzftab[b] == Occurs(col + [uc], b) {
      OccursSnoc(col, uc, b);
    }
  }

  /** What the decoder holds between two symbols, outside of a run. */
  ghost predicate Holding(cells: array<nat>, unzftab: array<nat>, mtf: MtfArray, c: Context, st: State)
    reads cells, unzftab, mtf, mtf.mtfa, mtf.mtfbase
  {
    && mtf.Valid() && mtf.list == st.list && Front(st.list, |c.bytes|) && st.N == 0 && st.es == 0
    && |st.col| <= c.max <= cells.Length && Filled(cells, st.col) && Tallied(unzftab, st.col)
  }

  /** A run of the byte in front. */
  method TakeRun(cells: array<nat>, unzftab: array<nat>, mtf: MtfArray, seqToUnseq: seq<byte>, es: int, nblock: nat,
                 nblockMAX: nat, ghost c: Context, ghost st: State, ghost N: nat)
    returns (r: Result<nat>, ghost st1: State)
    requires cells != unzftab && Holding(cells, unzftab, mtf, c, st)
    requires seqToUnseq == c.bytes && nblockMAX == c.max && nblock == |st.col| && es >= 0 && N > 0
    modifies cells, unzftab
    ensures r.Success? ==> EndRun(c, st.(es := es, N := N)) == Success(st1)
    ensures r.Success? ==> Holding(cells, unzftab, mtf, c, st1) && r.value == |st1.col|
    ensures r.Failure? ==> EndRun(c, st.(es := es, N := N)) == Failure(r.error)
  {
    hide Occurs;
    var front := mtf.Front();
    var uc := seqToUnseq[front];
    st1 := st.(col := st.col + Repeat(uc, es + 1));
    r := PutRun(cells, unzftab, uc, es + 1, nblock, nblockMAX, st.col);
  }

  /** An entry of the list. */
  method TakeEntry(cells: array<nat>, unzftab: array<nat>, mtf: MtfArray, seqToUnseq: seq<byte>, nn: nat, nblock: nat,
                   ghost c: Context, ghost st: State)
    returns (ghost st1: State)
    requires cells != unzftab && Holding(cells, unzftab, mtf, c, st)
    requires seqToUnseq == c.bytes && nblock == |st.col| < c.max && nn < |c.bytes|
    modifies cells, unzftab, mtf, mtf.mtfa, mtf.mtfbase
    ensures st1 == st.(list := ToFront(st.list, nn), col := st.col + [ByteOf(c, st.list[nn])])
    ensures Holding(cells, unzftab, mtf, c, st1)
  {
    hide Occurs, ToFront;
    FrontMoved(st.list, |c.bytes|, nn);
    var uc := mtf.MoveFront(nn);
    st1 := st.(list := ToFront(st.list, nn), col := st.col + [seqToUnseq[uc]]);
    PutByte(cells, unzftab, seqToUnseq[uc], nblock, st.col);
  }

  lemma AfterEnd(bits: seq<bool>, codes: Codes, alphaSize: nat, c: Context, k: nat, st: State)
    requires ValidCodes(codes, alphaSize) && k / GROUP_SIZE < |codes.selectors| && st.N == 0 && alphaSize > 0
    ensures DecodeAfter(bits, codes, alphaSize, c, k, st, alphaSize - 1) == Ok(st.col, bits)
  {
  }

  /** The decoder before symbol `sym`, the last one that was read, is dealt with:
      what it holds and what is left to read determine the column. */
  ghost predicate Decoding(src: SymbolSource, c: Context, st: State, sym: nat, goal: Parse<seq<byte>>)
    requires src.br.Valid()
    reads src, src.br
  {
    && ValidCodes(src.codes, src.alphaSize)
    && src.Read() >= 1 && (src.Read() - 1) / GROUP_SIZE < |src.codes.selectors| && sym < src.alphaSize
    && goal == DecodeAfter(src.br.Remaining(), src.codes, src.alphaSize, c, src.Read() - 1, st, sym)
  }

  method FetchSymbol(src: SymbolSource, ghost c: Context, ghost st: State, ghost goal: Parse<seq<byte>>)
    returns (r: Result<nat>)
    requires src.Valid() && src.Read() >= 0
    requires goal == DecodeColumn(src.br.Remaining(), src.codes, src.alphaSize, c, src.Read(), st)
    modifies src, src.br
    ensures src.Valid() && (r.Success? ==> src.Read() == old(src.Read()) + 1)
    ensures r.Success? ==> Decoding(src, c, st, r.value, goal)
    ensures r.Failure? ==> goal == Fail(r.error)
  {
    hide DecodeAfter, DecodeColumn, AllTables, Tables;
    r := NextSymbol(src, c, st);
  }

  /** One turn of the decoder's loop: a whole run or one entry of the list, and the
      next symbol. */
  method Step(src: SymbolSource, cells: array<nat>, unzftab: array<nat>, mtf: MtfArray, seqToUnseq: seq<byte>, sym: nat,
              nblock: nat, nblockMAX: nat, ghost c: Context, ghost st: State, ghost goal: Parse<seq<byte>>)
    returns (r: Result<(nat, nat)>, ghost st1: State)
    requires src.Valid() && cells != unzftab && Holding(cells, unzftab, mtf, c, st)
    requires seqToUnseq == c.bytes && src.alphaSize == |c.bytes| + 2 && nblockMAX == c.max && nblock == |st.col|
    requires Decoding(src, c, st, sym, goal) && sym != src.alphaSize - 1
    modifies src, src.br, cells, unzftab, mtf, mtf.mtfa, mtf.mtfbase
    ensures src.Valid()
    ensures r.Success? ==> Holding(cells, unzftab, mtf, c, st1) && r.value.1 == |st1.col|
    ensures r.Success? ==> Decoding(src, c, st1, r.value.0, goal) && src.Read() > old(src.Read())
    ensures r.Failure? ==> goal == Fail(r.error)
  {
    hide DecodeAfter, DecodeColumn, EndRun, Feed, AllTables, Tables, Filled, Tallied, Front;
    FrontLong(st.list, |c.bytes|);
    st1 := st;
    if sym == RUNA || sym == RUNB {
      var next, es;
      ghost var N;
      next, es, N := ReadRun(src, sym, c, st);
      if next.Failure? {
        return Failure(next.error), st1;
      }
      AfterRunEnd(src.br.Remaining(), src.codes, src.alphaSize, c, src.Read() - 1, st.(es := es, N := N), next.value);
      var n;
      n, st1 := TakeRun(cells, unzftab, mtf, seqToUnseq, es, nblock, nblockMAX, c, st, N);
      if n.Failure? {
        return Failure(n.error), st1;
      }
      r := Success((next.value, n.value));
    } else {
      AfterEntry(src.br.Remaining(), src.codes, src.alphaSize, c, src.Read() - 1, st, sym);
      if nblock >= nblockMAX {
        return Failure(DataError), st1;
      }
      st1 := TakeEntry(cells, unzftab, mtf, seqToUnseq, sym - 1, nblock, c, st);
      var next := FetchSymbol(src, c, st1, goal);
      if next.Failure? {
        return Failure(next.error), st1;
      }
      r := Success((next.value, nblock + 1));
    }
  }

  lemma FrontLong(list: seq<nat>, n: nat)
    requires Front(list, n)
    ensures |list| == 256 && 1 <= n <= 256
  {
  }

  /** Reads the column of a block and counts its bytes. */
  method ReadColumn(src: SymbolSource, cells: array<nat>, unzftab: array<nat>, seqToUnseq: seq<byte>, nblockMAX: nat,
                    ghost c: Context)
    returns (r: Result<nat>, ghost col: seq<byte>)
    requires src.Valid() && src.Read() == 0 && src.alphaSize == |c.bytes| + 2
    requires seqToUnseq == c.bytes && 1 <= |c.bytes| <= 256 && nblockMAX == c.max <= cells.Length
    requires cells != unzftab && unzftab.Length == 256
    modifies src, src.br, cells, unzftab
    ensures src.br.Valid()
    ensures r.Success? ==>
      DecodeColumn(old(src.br.Remaining()), src.codes, src.alphaSize, c, 0, START) == Ok(col, src.br.Remaining())
    ensures r.Success? ==> Filled(cells, col) && Tallied(unzftab, col) && r.value == |col| <= nblockMAX
    ensures r.Failure? ==>
      DecodeColumn(old(src.br.Remaining()), src.codes, src.alphaSize, c, 0, START) == Fail(r.error)
  {
    hide DecodeAfter, DecodeColumn, AllTables, Tables;
    ghost var goal := DecodeColumn(src.br.Remaining(), src.codes, src.alphaSize, c, 0, START);
    var EOB := |seqToUnseq| + 1;
    ghost var st := START;
    ClearTally(unzftab);
    var mtf := new MtfArray();
    col := [];
    var nblock := 0;
    var next := FetchSymbol(src, c, st, goal);
    if next.Failure? {
      return Failure(next.error), col;
    }
    var nextSym := next.value;
    while nextSym != EOB
      invariant src.Valid() && fresh(mtf) && fresh(mtf.mtfa) && fresh(mtf.mtfbase)
      invariant Holding(cells, unzftab, mtf, c, st) && nblock == |st.col|
      invariant Decoding(src, c, st, nextSym, goal)
      decreases GROUP_SIZE * |src.codes.selectors| - src.Read()
    {
      var step;
      step, st := Step(src, cells, unzftab, mtf, seqToUnseq, nextSym, nblock, nblockMAX, c, st, goal);
      if step.Failure? {
        return Failure(step.error), col;
      }
      nextSym, nblock := step.value.0, step.value.1;
    }
    AfterEnd(src.br.Remaining(), src.codes, src.alphaSize, c, src.Read() - 1, st);
    r, col := Success(nblock), st.col;
  }

  method ClearTally(unzftab: array<nat>)
    requires unzftab.Length == 256
    modifies unzftab
    ensures Tallied(unzftab, [])
  {
    for i := 0 to 256
      invariant forall b :: 0 <= b < i ==> unzftab[b] == 0
    {
      unzftab[i] := 0;
    }
  }
}
