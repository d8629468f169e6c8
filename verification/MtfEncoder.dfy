/** The encoder's move-to-front and run coding, in place. */
module MtfEncoder {
  import opened Bits
  import opened InUse
  import opened MoveToFront
  import opened Permutations
  import opened Rotations

  /** The array begins with `s`. */
  ghost predicate Holds(a: array<nat>, s: seq<nat>)
    reads a
  {
    |s| <= a.Length && forall k :: 0 <= k < |s| ==> a[k] == s[k]
  }

  /** Finds `x`, which is not in front, and moves it to the front. */
  method MoveUp(yy: array<nat>, x: nat, ghost list: seq<nat>) returns (j: nat)
    requires Holds(yy, list) && x in list && list[0] != x
    modifies yy
    ensures j == IndexOf(list, x) && Holds(yy, ToFront(list, j))
    ensures forall k :: |list| <= k < yy.Length ==> yy[k] == old(yy[k])
  {
    ghost var goal := IndexOf(list, x);
    FirstIndex(list, x);
    var rtmp := yy[1];
    yy[1] := yy[0];
    j := 1;
    while x != rtmp
      invariant 1 <= j <= goal && rtmp == list[j] && yy[0] == list[0]
      invariant forall q :: 1 <= q <= j ==> yy[q] == list[q - 1]
      invariant forall q :: j < q < |list| ==> yy[q] == list[q]
      invariant forall k :: |list| <= k < yy.Length ==> yy[k] == old(yy[k])
      decreases goal - j
    {
      j := j + 1;
      var rtmp2 := rtmp;
      rtmp := yy[j];
      yy[j] := rtmp2;
    }
    yy[0] := rtmp;
  }

  lemma {:induction false} FirstIndex(list: seq<nat>, x: nat)
    requires x in list
    ensures forall q :: 0 <= q < |list| && list[q] == x ==> IndexOf(list, x) <= q
    ensures list[0] != x ==> IndexOf(list, x) >= 1 && |list| > 1
  {
    if list[0] != x {
      FirstIndex(list[1..], x);
      forall q | 0 <= q < |list| && list[q] == x ensures IndexOf(list, x) <= q {
        assert list[1..][q - 1] == x;
      }
    }
  }

  // ----- 16-bit symbols laid over the 32-bit pointers

  /** Half `k` of the words: the low half of word `k/2` for even `k`. */
  function GetHalf(word: nat, k: nat): nat {
    if k % 2 == 0 then word % 0x1_0000 else word / 0x1_0000
  }

  function SetHalf(word: nat, k: nat, v: nat): nat
    requires v < 0x1_0000
  {
    if k % 2 == 0 then word - word % 0x1_0000 + v else word % 0x1_0000 + 0x1_0000 * v
  }

  lemma HalfSet(word: nat, k: nat, v: nat)
    requires v < 0x1_0000
    ensures GetHalf(SetHalf(word, k, v), k) == v
    ensures GetHalf(SetHalf(word, k, v), k + 1) == GetHalf(word, k + 1)
    ensures k > 0 ==> GetHalf(SetHalf(word, k, v), k - 1) == GetHalf(word, k - 1)
  {
  }

  /** The symbols `s` lie over the beginning of the words. */
  ghost predicate Overlaid(arr1: array<nat>, s: seq<nat>)
    reads arr1
  {
    |s| <= 2 * arr1.Length && forall k :: 0 <= k < |s| ==> GetHalf(arr1[k / 2], k) == s[k]
  }

  /** The frequencies, below `n`, of the symbols written so far. */
  ghost predicate Counted(freq: array<nat>, n: nat, s: seq<nat>)
    reads freq
  {
    n <= freq.Length && forall v :: 0 <= v < n ==> freq[v] == multiset(s)[v]
  }

  /** Writes one symbol and counts it. */
  method PutSymbol(arr1: array<nat>, freq: array<nat>, wr: nat, sym: nat, ghost n: nat, ghost syms: seq<nat>)
    requires arr1 != freq && wr == |syms| < 2 * arr1.Length && sym < n <= 0x1_0000
    requires Overlaid(arr1, syms) && Counted(freq, n, syms)
    modifies arr1, freq
    ensures Overlaid(arr1, syms + [sym]) && Counted(freq, n, syms + [sym])
    ensures forall q :: wr / 2 < q < arr1.Length ==> arr1[q] == old(arr1[q])
  {
    var w := arr1[wr / 2];
    HalfSet(w, wr, sym);
    arr1[wr / 2] := SetHalf(w, wr, sym);
    freq[sym] := freq[sym] + 1;
    OverlaidMore(arr1, syms, sym, w);
  }

  lemma OverlaidMore(arr1: array<nat>, syms: seq<nat>, sym: nat, w: nat)
    requires |syms| < 2 * arr1.Length && sym < 0x1_0000
    requires arr1[|syms| / 2] == SetHalf(w, |syms|, sym)
    requires forall k :: 0 <= k < |syms| && k / 2 != |syms| / 2 ==> GetHalf(arr1[k / 2], k) == syms[k]
    requires forall k :: 0 <= k < |syms| && k / 2 == |syms| / 2 ==> GetHalf(w, k) == syms[k]
    ensures Overlaid(arr1, syms + [sym])
  {
    HalfSet(w, |syms|, sym);
  }

  /** Writes the digits of a pending run. */
  method PutRun(arr1: array<nat>, freq: array<nat>, wr0: nat, zPend0: nat, ghost n: nat, ghost syms: seq<nat>)
    returns (wr: nat)
    requires arr1 != freq && wr0 == |syms| && wr0 + zPend0 <= arr1.Length && 2 <= n <= 0x1_0000
    requires zPend0 > 0 && Overlaid(arr1, syms) && Counted(freq, n, syms)
    modifies arr1, freq
    ensures wr == wr0 + |RunCode(zPend0)| <= wr0 + zPend0
    ensures Overlaid(arr1, syms + RunCode(zPend0)) && Counted(freq, n, syms + RunCode(zPend0))
    ensures forall q :: wr0 + zPend0 <= q < arr1.Length ==> arr1[q] == old(arr1[q])
  {
    hide RunCode, GetHalf, SetHalf;
    wr := wr0;
    var zPend := zPend0 - 1;
    ghost var s: seq<nat>, left: nat := syms, zPend0;
    while true
      invariant 0 <= zPend == left - 1 && wr == |s| && wr + left <= wr0 + zPend0 && wr0 <= wr
      invariant s + RunCode(left) == syms + RunCode(zPend0)
      invariant Overlaid(arr1, s) && Counted(freq, n, s)
      invariant forall q :: wr0 + zPend0 <= q < arr1.Length ==> arr1[q] == old(arr1[q])
      decreases zPend
    {
      var sym: nat := if zPend % 2 == 1 then RUNB else RUNA;
      RunCodeStep(s, left);
      PutSymbol(arr1, freq, wr, sym, n, s);
      s := s + [sym];
      wr := wr + 1;
      left := zPend / 2;
      if zPend < 2 {
        break;
      }
      zPend := (zPend - 2) / 2;
    }
    assert s == syms + RunCode(zPend0) by { assert RunCode(0) == [] by { RunCodeZero(); } assert s + [] == s; }
  }

  lemma RunCodeZero()
    ensures RunCode(0) == []
  {
  }

  lemma RunCodeStep(s: seq<nat>, n: nat)
    requires n >= 1
    ensures s + RunCode(n)
         == s + [if (n - 1) % 2 == 1 then RUNB else RUNA] + RunCode((n - 1) / 2)
  {
    var d: nat, m := if (n - 1) % 2 == 1 then RUNB else RUNA, (n - 1) / 2;
    RunCodeHead(n, m, d);
    hide RunCode;
    ConcatAssociative(s, [d], RunCode(m));
  }

  lemma RunCodeHead(n: nat, m: nat, d: nat)
    requires n >= 1 && m == (n - 1) / 2 && d == if (n - 1) % 2 == 1 then RUNB else RUNA
    ensures RunCode(n) == [d] + RunCode(m)
  {
  }

  // ----- the whole block

  function Numbers(inUse: UseMap, s: seq<byte>): (r: seq<nat>)
    ensures |r| == |s|
  {
    seq(|s|, i requires 0 <= i < |s| => Number(inUse, s[i]))
  }

  ghost predicate AllUsed(inUse: UseMap, s: seq<byte>) {
    forall i :: 0 <= i < |s| ==> inUse[s[i]]
  }

  lemma NumbersKnown(inUse: UseMap, s: seq<byte>)
    requires AllUsed(inUse, s)
    ensures Known(Iota(|Used(inUse)|), Numbers(inUse, s))
  {
    forall i | 0 <= i < |s| ensures Numbers(inUse, s)[i] in Iota(|Used(inUse)|) {
      NumberOfUsed(inUse, s[i]);
      assert Iota(|Used(inUse)|)[Number(inUse, s[i])] == Number(inUse, s[i]);
    }
  }

  /** The symbols of a block, up to and with its end mark. */
  function BlockSymbols(inUse: UseMap, column: seq<byte>): seq<nat>
    requires AllUsed(inUse, column)
  {
    NumbersKnown(inUse, column);
    Symbols(Iota(|Used(inUse)|), Numbers(inUse, column), 0) + [|Used(inUse)| + 1]
  }

  // ----- the encoder's loop over the block

  lemma SymbolsInFront(list: seq<nat>, col: seq<nat>, i: nat, z: nat)
    requires i < |col| && Known(list, col) && list != [] && list[0] == col[i]
    ensures Known(list, col[i..]) && Known(list, col[i + 1..])
    ensures Symbols(list, col[i..], z) == Symbols(list, col[i + 1..], z + 1)
  {
    assert col[i..][1..] == col[i + 1..];
  }

  lemma SymbolsBehind(list: seq<nat>, col: seq<nat>, i: nat, z: nat)
    requires i < |col| && Known(list, col) && list != [] && list[0] != col[i]
    ensures col[i] in list && Known(ToFront(list, IndexOf(list, col[i])), col)
    ensures Known(list, col[i..]) && Known(ToFront(list, IndexOf(list, col[i])), col[i + 1..])
    ensures Symbols(list, col[i..], z)
         == RunCode(z) + [IndexOf(list, col[i]) + 1] + Symbols(ToFront(list, IndexOf(list, col[i])), col[i + 1..], 0)
  {
    KnownToFront(list, IndexOf(list, col[i]), col);
    assert col[i..][1..] == col[i + 1..];
    FirstIndex(list, col[i]);
  }

  /** The state of the encoder before entry `i` of the column: what is written and
      what is pending together stand for all symbols of the column. */
  ghost predicate Coding(list: seq<nat>, syms: seq<nat>, col: seq<nat>, i: nat, z: nat, goal: seq<nat>) {
    && i <= |col| && Known(list, col) && list != []
    && syms + Symbols(list, col[i..], z) == goal
    && |syms| + z <= i
  }

  /** The list of the encoder is in `yy`, and its output over the pointers up to
      position `i`, all later pointers being intact. */
  ghost predicate Stored(arr1: array<nat>, freq: array<nat>, yy: array<nat>, list: seq<nat>, n: nat,
                         syms: seq<nat>, i: nat, ptr: seq<nat>)
    reads arr1, freq, yy
  {
    && |ptr| <= arr1.Length && |list| + 2 <= n <= 258
    && Holds(yy, list) && Overlaid(arr1, syms) && Counted(freq, n, syms)
    && forall q :: i <= q < |ptr| ==> arr1[q] == ptr[q]
  }

  /** Codes one entry that is not in front of the list. */
  method CodeEntry(arr1: array<nat>, freq: array<nat>, yy: array<nat>, wr0: nat, zPend: nat, x: nat,
                   ghost list: seq<nat>, ghost n: nat, ghost syms: seq<nat>, ghost i: nat, ghost ptr: seq<nat>)
    returns (wr: nat)
    requires arr1 != freq && arr1 != yy && freq != yy
    requires Stored(arr1, freq, yy, list, n, syms, i, ptr) && i < |ptr|
    requires wr0 == |syms| && wr0 + zPend <= i && x in list && list[0] != x
    modifies arr1, freq, yy
    ensures wr == wr0 + |RunCode(zPend)| + 1 <= i + 1
    ensures Stored(arr1, freq, yy, ToFront(list, IndexOf(list, x)), n,
                   syms + RunCode(zPend) + [IndexOf(list, x) + 1], i + 1, ptr)
  {
    hide Overlaid, Counted, ToFront, RunCode;
    wr := wr0;
    ghost var s := syms + RunCode(zPend);
    RunCodeZero();
    if zPend > 0 {
      wr := PutRun(arr1, freq, wr, zPend, n, syms);
    } else {
      assert s == syms;
    }
    var j := MoveUp(yy, x, list);
    PutSymbol(arr1, freq, wr, j + 1, n, s);
    wr := wr + 1;
  }

  /** What entry `i` of the column is, read through the pointer at `i`. */
  method ReadColumn(arr1: array<nat>, block: seq<byte>, inUse: UseMap, unseqToSeq: array<nat>, i: nat,
          ghost ptr: seq<nat>)
    returns (x: nat)
    requires Pointers(block, ptr) && AllUsed(inUse, block) && i < |ptr| <= arr1.Length && arr1[i] == ptr[i]
    requires unseqToSeq.Length == 256
    requires forall b :: 0 <= b < 256 && inUse[b] ==> unseqToSeq[b] == Number(inUse, b)
    ensures x == Numbers(inUse, LastColumn(block, ptr))[i]
  {
    var j: int := arr1[i];
    j := j - 1;
    if j < 0 {
      j := j + |block|;
    }
    x := unseqToSeq[block[j]];
  }

  /** One turn of the loop over the block. */
  method CodeNext(arr1: array<nat>, freq: array<nat>, yy: array<nat>, wr0: nat, zPend0: nat, x: nat,
          ghost col: seq<nat>, ghost goal: seq<nat>, ghost list0: seq<nat>, ghost n: nat, ghost syms0: seq<nat>,
          ghost i: nat, ghost ptr: seq<nat>)
    returns (wr: nat, zPend: nat, ghost list: seq<nat>, ghost syms: seq<nat>)
    requires arr1 != freq && arr1 != yy && freq != yy
    requires i < |col| == |ptr| && x == col[i] && wr0 == |syms0|
    requires Coding(list0, syms0, col, i, zPend0, goal)
    requires Stored(arr1, freq, yy, list0, n, syms0, i, ptr)
    modifies arr1, freq, yy
    ensures wr == |syms| && |list| == |list0| && Coding(list, syms, col, i + 1, zPend, goal)
    ensures Stored(arr1, freq, yy, list, n, syms, i + 1, ptr)
  {
    hide Symbols, RunCode, Overlaid, Counted;
    assert wr0 <= i;
    wr, zPend, list, syms := wr0, zPend0, list0, syms0;
    if yy[0] == x {
      SymbolsInFront(list, col, i, zPend);
      zPend := zPend + 1;
    } else {
      SymbolsBehind(list, col, i, zPend);
      wr := CodeEntry(arr1, freq, yy, wr, zPend, x, list, n, syms, i, ptr);
      var k := IndexOf(list, x);
      ConcatAssociative(syms, RunCode(zPend) + [k + 1], Symbols(ToFront(list, k), col[i + 1..], 0));
      assert syms + (RunCode(zPend) + [k + 1]) == syms + RunCode(zPend) + [k + 1];
      syms, list := syms + RunCode(zPend) + [k + 1], ToFront(list, k);
      zPend := 0;
    }
  }

  lemma CodingStarts(inUse: UseMap, block: seq<byte>, ptr: seq<nat>)
    requires Pointers(block, ptr) && AllUsed(inUse, block) && block != []
    ensures AllUsed(inUse, LastColumn(block, ptr)) && 1 <= |Used(inUse)| <= 256
    ensures var col, list := Numbers(inUse, LastColumn(block, ptr)), Iota(|Used(inUse)|);
      Known(list, col) && Coding(list, [], col, 0, 0, Symbols(list, col, 0))
  {
    NumbersKnown(inUse, LastColumn(block, ptr));
    var col, list := Numbers(inUse, LastColumn(block, ptr)), Iota(|Used(inUse)|);
    NumberOfUsed(inUse, block[0]);
    assert col[0..] == col;
    assert [] + Symbols(list, col, 0) == Symbols(list, col, 0);
  }

  lemma CodingEnds(list: seq<nat>, syms: seq<nat>, col: seq<nat>, z: nat, goal: seq<nat>)
    requires Coding(list, syms, col, |col|, z, goal)
    ensures syms + RunCode(z) == goal && |RunCode(z)| <= z
  {
    assert col[|col|..] == [];
    RunCodeShort(z);
  }

  lemma {:induction false} RunCodeShort(z: nat)
    ensures |RunCode(z)| <= z
  {
    if z > 0 { RunCodeShort(if z % 2 == 1 then z / 2 else z / 2 - 1); }
  }

  method GenerateMTFValues(arr1: array<nat>, block: seq<byte>, inUse: UseMap, freq: array<nat>, ghost ptr: seq<nat>)
    returns (nInUse: nat, nMTF: nat)
    requires arr1 != freq && freq.Length == 258
    requires 1 <= |block| < arr1.Length && Pointers(block, ptr) && AllUsed(inUse, block)
    requires forall q :: 0 <= q < |ptr| ==> arr1[q] == ptr[q]
    modifies arr1, freq
    ensures AllUsed(inUse, LastColumn(block, ptr)) && nInUse == |Used(inUse)|
    ensures nMTF == |BlockSymbols(inUse, LastColumn(block, ptr))| <= |block| + 1
    ensures Overlaid(arr1, BlockSymbols(inUse, LastColumn(block, ptr)))
    ensures Counted(freq, nInUse + 2, BlockSymbols(inUse, LastColumn(block, ptr)))
  {
    hide Symbols, RunCode, Numbers, LastColumn, Used, Number, AllUsed, Pointers, Overlaid, Counted, Holds, Known;
    var unseqToSeq, yy := new nat[256], new nat[256];
    nInUse := MakeMapsE(inUse, unseqToSeq);
    CodingStarts(inUse, block, ptr);
    var EOB := nInUse + 1;
    ClearCounts(freq, EOB + 1);
    FillList(yy, nInUse);
    ghost var goal := Symbols(Iota(nInUse), Numbers(inUse, LastColumn(block, ptr)), 0);
    var wr := CodeColumn(arr1, block, inUse, freq, unseqToSeq, yy, nInUse, ptr, goal);
    PutSymbol(arr1, freq, wr, EOB, nInUse + 2, goal);
    nMTF := wr + 1;
  }

  /** The loop over the block, and the run that is pending after it. */
  method CodeColumn(arr1: array<nat>, block: seq<byte>, inUse: UseMap, freq: array<nat>, unseqToSeq: array<nat>,
                    yy: array<nat>, nInUse: nat, ghost ptr: seq<nat>, ghost goal: seq<nat>)
    returns (wr: nat)
    requires arr1 != freq && arr1 != yy && freq != yy && arr1 != unseqToSeq && freq != unseqToSeq && yy != unseqToSeq
    requires 1 <= |block| < arr1.Length && Pointers(block, ptr) && AllUsed(inUse, block)
    requires forall q :: 0 <= q < |ptr| ==> arr1[q] == ptr[q]
    requires unseqToSeq.Length == 256 && nInUse == |Used(inUse)|
    requires forall b :: 0 <= b < 256 && inUse[b] ==> unseqToSeq[b] == Number(inUse, b)
    requires Holds(yy, Iota(nInUse)) && Counted(freq, nInUse + 2, []) && freq.Length == 258
    requires AllUsed(inUse, LastColumn(block, ptr)) && Known(Iota(nInUse), Numbers(inUse, LastColumn(block, ptr)))
    requires goal == Symbols(Iota(nInUse), Numbers(inUse, LastColumn(block, ptr)), 0)
    modifies arr1, freq, yy
    ensures wr == |goal| <= |block| && Overlaid(arr1, goal) && Counted(freq, nInUse + 2, goal)
  {
    hide Symbols, RunCode, Numbers, LastColumn, Used, Number, AllUsed, Coding, Counted;
    ghost var col := Numbers(inUse, LastColumn(block, ptr));
    ghost var list, syms: seq<nat>, n := Iota(nInUse), [], nInUse + 2;
    CodingStarts(inUse, block, ptr);
    var zPend := 0;
    wr := 0;
    for i := 0 to |block|
      invariant wr == |syms| && Coding(list, syms, col, i, zPend, goal) && |list| == nInUse
      invariant Stored(arr1, freq, yy, list, n, syms, i, ptr)
    {
      var x := ReadColumn(arr1, block, inUse, unseqToSeq, i, ptr);
      wr, zPend, list, syms := CodeNext(arr1, freq, yy, wr, zPend, x, col, goal, list, n, syms, i, ptr);
    }
    CodingEnds(list, syms, col, zPend, goal);
    CodingShort(list, syms, col, zPend, goal);
    RunCodeZero();
    if zPend > 0 {
      wr := PutRun(arr1, freq, wr, zPend, n, syms);
    } else {
      assert syms + [] == syms;
    }
  }

  lemma CodingShort(list: seq<nat>, syms: seq<nat>, col: seq<nat>, z: nat, goal: seq<nat>)
    requires Coding(list, syms, col, |col|, z, goal)
    ensures |syms| + z <= |col|
  {
  }

  method ClearCounts(freq: array<nat>, n: nat)
    requires n <= freq.Length
    modifies freq
    ensures Counted(freq, n, [])
  {
    for i := 0 to n
      invariant forall v :: 0 <= v < i ==> freq[v] == 0
    {
      freq[i] := 0;
    }
  }

  method FillList(yy: array<nat>, n: nat)
    requires n <= yy.Length
    modifies yy
    ensures Holds(yy, Iota(n))
  {
    for i := 0 to n
      invariant forall v :: 0 <= v < i ==> yy[v] == v
    {
      yy[i] := i;
    }
  }
}
