/** How the encoder chooses coding tables for the groups of fifty symbols of a
    block. Whatever it chooses can be sent; each group gets a table that codes it
    in the fewest bits. */
module TableChoice {
  import opened Bits
  import opened CountingSort
  import opened Huffman
  import opened HuffmanLengths
  import opened MtfEncoder
  import opened BlockFormat
  import opened BlockBits

  const LESSER_ICOST := 0
  const GREATER_ICOST := 15
  const N_ITERS := 4
  const LONGEST_SENT := 17

  function GroupsFor(nMTF: nat): (n: nat)
    ensures 2 <= n <= 6
  {
    if nMTF < 200 then 2 else if nMTF < 600 then 3 else if nMTF < 1200 then 4 else if nMTF < 2400 then 5 else 6
  }

  /** The number of groups of symbols. */
  function GroupCount(nMTF: nat): nat {
    (nMTF + (GROUP_SIZE - 1)) / GROUP_SIZE
  }

  // ----- costs

  function LengthOf(lens: seq<nat>, v: nat): nat {
    if v < |lens| then lens[v] else 0
  }

  /** The bits that a table takes to code the symbols from `i` to below `j`. */
  function Cost(lens: seq<nat>, syms: seq<nat>, i: nat, j: nat): nat
    requires i <= j <= |syms|
  {
    if j == i then 0 else Cost(lens, syms, i, j - 1) + LengthOf(lens, syms[j - 1])
  }

  ghost predicate Tabled(lens: seq<seq<nat>>, nGroups: nat, alphaSize: nat) {
    && |lens| == nGroups
    && forall t :: 0 <= t < nGroups ==> |lens[t]| == alphaSize && forall v :: 0 <= v < alphaSize ==>
      lens[t][v] <= LONGEST_CODE
  }

  lemma {:induction false} CostBound(lens: seq<nat>, syms: seq<nat>, i: nat, j: nat)
    requires i <= j <= |syms| && forall v :: 0 <= v < |lens| ==> lens[v] <= LONGEST_CODE
    ensures Cost(lens, syms, i, j) <= LONGEST_CODE * (j - i)
  {
    if i < j { CostBound(lens, syms, i, j - 1); }
  }

  /** The costs of one group with every table. */
  method GroupCosts(arr1: array<nat>, lens: seq<seq<nat>>, gs: nat, ge: nat, nGroups: nat, alphaSize: nat,
          ghost syms: seq<nat>)
    returns (cost: seq<nat>)
    requires Overlaid(arr1, syms) && gs <= ge < |syms| && Tabled(lens, nGroups, alphaSize)
    requires forall i :: 0 <= i < |syms| ==> syms[i] < alphaSize
    ensures |cost| == nGroups && forall t :: 0 <= t < nGroups ==> cost[t] == Cost(lens[t], syms, gs, ge + 1)
  {
    cost := seq(nGroups, t => 0);
    for i := gs to ge + 1
      invariant |cost| == nGroups && forall t :: 0 <= t < nGroups ==> cost[t] == Cost(lens[t], syms, gs, i)
    {
      var icv := GetHalf(arr1[i / 2], i);
      for t := 0 to nGroups
        invariant |cost| == nGroups && icv == syms[i]
        invariant forall u :: 0 <= u < t ==> cost[u] == Cost(lens[u], syms, gs, i + 1)
        invariant forall u :: t <= u < nGroups ==> cost[u] == Cost(lens[u], syms, gs, i)
      {
        cost := cost[t := cost[t] + lens[t][icv]];
      }
    }
  }

  /** Two lengths in one word. */
  function Packed(low: seq<nat>, high: seq<nat>, v: nat): nat {
    LengthOf(high, v) * 0x1_0000 + LengthOf(low, v)
  }

  /** The costs of a full group with two tables at once: the sums do not run into
      each other. */
  method PairCosts(arr1: array<nat>, low: seq<nat>, high: seq<nat>, gs: nat, ghost syms: seq<nat>)
    returns (c0: nat, c1: nat)
    requires Overlaid(arr1, syms) && gs + GROUP_SIZE <= |syms|
    requires forall v :: 0 <= v < |low| ==> low[v] <= LONGEST_CODE
    requires forall v :: 0 <= v < |high| ==> high[v] <= LONGEST_CODE
    ensures c0 == Cost(low, syms, gs, gs + GROUP_SIZE) && c1 == Cost(high, syms, gs, gs + GROUP_SIZE)
  {
    var cost := 0;
    for nn := 0 to GROUP_SIZE
      invariant cost == Cost(high, syms, gs, gs + nn) * 0x1_0000 + Cost(low, syms, gs, gs + nn)
    {
      var icv := GetHalf(arr1[(gs + nn) / 2], gs + nn);
      cost := cost + Packed(low, high, icv);
    }
    CostBound(low, syms, gs, gs + GROUP_SIZE);
    CostBound(high, syms, gs, gs + GROUP_SIZE);
    assert cost < 0x1_0000_0000;
    c0, c1 := cost % 0x1_0000, cost / 0x1_0000;
  }

  /** The same costs as `GroupCosts`, for a full group and six tables. */
  method GroupCostsPacked(arr1: array<nat>, lens: seq<seq<nat>>, gs: nat, alphaSize: nat, ghost syms: seq<nat>)
    returns (cost: seq<nat>)
    requires Overlaid(arr1, syms) && gs + GROUP_SIZE <= |syms| && Tabled(lens, 6, alphaSize)
    ensures |cost| == 6 && forall t :: 0 <= t < 6 ==> cost[t] == Cost(lens[t], syms, gs, gs + GROUP_SIZE)
  {
    var c0, c1 := PairCosts(arr1, lens[0], lens[1], gs, syms);
    var c2, c3 := PairCosts(arr1, lens[2], lens[3], gs, syms);
    var c4, c5 := PairCosts(arr1, lens[4], lens[5], gs, syms);
    cost := [c0, c1, c2, c3, c4, c5];
  }

  /** A table of least cost. */
  method Cheapest(cost: seq<nat>) returns (bt: nat)
    requires cost != [] && forall t :: 0 <= t < |cost| ==> cost[t] < 999999999
    ensures bt < |cost| && forall t :: 0 <= t < |cost| ==> cost[bt] <= cost[t]
  {
    var bc := 999999999;
    bt := 0;
    for t := 0 to |cost|
      invariant t == 0 ==> bc == 999999999
      invariant t > 0 ==> bt < |cost| && bc == cost[bt]
      invariant forall u :: 0 <= u < t ==> bc <= cost[u]
    {
      if cost[t] < bc {
        bc, bt := cost[t], t;
      }
    }
  }

  /** Where group `k` ends, when there are `n` symbols. */
  function GroupEnd(k: nat, n: nat): nat {
    if GROUP_SIZE * (k + 1) <= n then GROUP_SIZE * (k + 1) else n
  }

  /** Group `k` has been given a table that codes it in the fewest bits. */
  ghost predicate BestFor(lens: seq<seq<nat>>, syms: seq<nat>, k: nat, bt: nat) {
    && GROUP_SIZE * k < |syms| && bt < |lens|
    && forall t :: 0 <= t < |lens| ==>
         Cost(lens[bt], syms, GROUP_SIZE * k, GroupEnd(k, |syms|))
           <= Cost(lens[t], syms, GROUP_SIZE * k, GroupEnd(k, |syms|))
  }

  ghost predicate Best(lens: seq<seq<nat>>, syms: seq<nat>, selectors: seq<nat>) {
    forall k :: 0 <= k < |selectors| ==> BestFor(lens, syms, k, selectors[k])
  }

  /** The frequencies of the symbols coded with each table. */
  ghost predicate Frequencies(rfreq: seq<seq<nat>>, nGroups: nat, alphaSize: nat, n: nat) {
    |rfreq| == nGroups && forall t :: 0 <= t < nGroups ==> |rfreq[t]| == alphaSize && Sum(rfreq[t], alphaSize) <= n
  }

  /** How often `v` is among the first `n` symbols that table `t` codes, by groups of fifty. */
  function Uses(syms: seq<nat>, selectors: seq<nat>, t: nat, v: nat, n: nat): nat
    requires n <= |syms|
  {
    if n == 0 then 0
    else
      var k := (n - 1) / 50;
      Uses(syms, selectors, t, v, n - 1) + if k < |selectors| && selectors[k] == t && syms[n - 1] == v then 1 else 0
  }

  /** The frequencies of the symbols that table `t` codes. */
  function UsesOf(syms: seq<nat>, selectors: seq<nat>, t: nat, alphaSize: nat): (r: seq<nat>)
    ensures |r| == alphaSize
  {
    seq(alphaSize, v requires 0 <= v < alphaSize => Uses(syms, selectors, t, v, |syms|))
  }

  /** The first `n` symbols have been counted. */
  ghost predicate Counted(rfreq: seq<seq<nat>>, syms: seq<nat>, selectors: seq<nat>, nGroups: nat, alphaSize: nat,
          n: nat) {
    && n <= |syms| && |rfreq| == nGroups
    && (forall t :: 0 <= t < nGroups ==> |rfreq[t]| == alphaSize)
    && forall t, v :: 0 <= t < nGroups && 0 <= v < alphaSize ==> rfreq[t][v] == Uses(syms, selectors, t, v, n)
  }

  lemma CountOne(rfreq: seq<seq<nat>>, syms: seq<nat>, selectors: seq<nat>, nGroups: nat, alphaSize: nat, n: nat,
          bt: nat)
    requires Counted(rfreq, syms, selectors, nGroups, alphaSize, n) && n < |syms| && syms[n] < alphaSize
    requires bt < nGroups && n / 50 < |selectors| && selectors[n / 50] == bt && |rfreq[bt]| == alphaSize
    ensures Counted(rfreq[bt := rfreq[bt][syms[n] := rfreq[bt][syms[n]] + 1]], syms, selectors, nGroups, alphaSize,
                    n + 1)
  {
    var r := rfreq[bt := rfreq[bt][syms[n] := rfreq[bt][syms[n]] + 1]];
    forall t, v | 0 <= t < nGroups && 0 <= v < alphaSize ensures r[t][v] == Uses(syms, selectors, t, v, n + 1) {
      assert rfreq[t][v] == Uses(syms, selectors, t, v, n);
    }
  }

  /** A later selector changes nothing. */
  lemma {:induction false} UsesLonger(syms: seq<nat>, selectors: seq<nat>, bt: nat, t: nat, v: nat, n: nat)
    requires n <= |syms| && n <= 50 * |selectors|
    ensures Uses(syms, selectors + [bt], t, v, n) == Uses(syms, selectors, t, v, n)
  {
    if n > 0 { UsesLonger(syms, selectors, bt, t, v, n - 1); }
  }

  lemma CountedLonger(rfreq: seq<seq<nat>>, syms: seq<nat>, selectors: seq<nat>, nGroups: nat, alphaSize: nat, n: nat,
          bt: nat)
    requires Counted(rfreq, syms, selectors, nGroups, alphaSize, n) && n <= 50 * |selectors|
    ensures Counted(rfreq, syms, selectors + [bt], nGroups, alphaSize, n)
  {
    hide Uses;
    forall t, v | 0 <= t < nGroups && 0 <= v < alphaSize
      ensures rfreq[t][v] == Uses(syms, selectors + [bt], t, v, n)
    {
      UsesLonger(syms, selectors, bt, t, v, n);
    }
  }

  lemma CountedAll(rfreq: seq<seq<nat>>, syms: seq<nat>, selectors: seq<nat>, nGroups: nat, alphaSize: nat, t: nat)
    requires Counted(rfreq, syms, selectors, nGroups, alphaSize, |syms|) && t < nGroups && |rfreq[t]| == alphaSize
    ensures rfreq[t] == UsesOf(syms, selectors, t, alphaSize)
  {
    hide Uses;
  }

  lemma {:induction false} SumUpdate(freq: seq<nat>, v: nat, n: nat)
    requires v < |freq| && n <= |freq|
    ensures Sum(freq[v := freq[v] + 1], n) == Sum(freq, n) + (if v < n then 1 else 0)
  {
    if n > 0 { SumUpdate(freq, v, n - 1); }
  }

  lemma {:induction false} SumZeros(n: nat, m: nat)
    requires m <= n
    ensures Sum(seq(n, i => 0), m) == 0
  {
    if m > 0 { SumZeros(n, m - 1); }
  }

  /** Counts the symbols of one group for its table. */
  method CountGroup(arr1: array<nat>, rfreq0: seq<seq<nat>>, bt: nat, gs: nat, ge: nat, ghost nGroups: nat,
          ghost alphaSize: nat, ghost syms: seq<nat>, ghost selectors: seq<nat>)
    returns (rfreq: seq<seq<nat>>)
    requires Overlaid(arr1, syms) && gs <= ge < |syms| && bt < nGroups && Frequencies(rfreq0, nGroups, alphaSize, gs)
    requires forall i :: 0 <= i < |syms| ==> syms[i] < alphaSize
    requires Counted(rfreq0, syms, selectors, nGroups, alphaSize, gs) && selectors != []
    requires selectors[|selectors| - 1] == bt && 50 * |selectors| - 50 <= gs && ge < 50 * |selectors|
    ensures Frequencies(rfreq, nGroups, alphaSize, ge + 1)
    ensures Counted(rfreq, syms, selectors, nGroups, alphaSize, ge + 1)
  {
    hide Counted, Uses;
    rfreq := rfreq0;
    for i := gs to ge + 1
      invariant Frequencies(rfreq, nGroups, alphaSize, i) && Counted(rfreq, syms, selectors, nGroups, alphaSize, i)
    {
      var v := GetHalf(arr1[i / 2], i);
      SumUpdate(rfreq[bt], v, alphaSize);
      CountOne(rfreq, syms, selectors, nGroups, alphaSize, i, bt);
      rfreq := rfreq[bt := rfreq[bt][v := rfreq[bt][v] + 1]];
    }
  }

  /** The costs of a group, the quick way where that is possible. */
  method CostsOf(arr1: array<nat>, lens: seq<seq<nat>>, gs: nat, ge: nat, nGroups: nat, alphaSize: nat,
          ghost syms: seq<nat>)
    returns (cost: seq<nat>)
    requires Overlaid(arr1, syms) && gs <= ge < |syms| && Tabled(lens, nGroups, alphaSize)
    requires forall i :: 0 <= i < |syms| ==> syms[i] < alphaSize
    ensures |cost| == nGroups && forall t :: 0 <= t < nGroups ==> cost[t] == Cost(lens[t], syms, gs, ge + 1)
  {
    if nGroups == 6 && ge - gs + 1 == GROUP_SIZE {
      cost := GroupCostsPacked(arr1, lens, gs, alphaSize, syms);
    } else {
      cost := GroupCosts(arr1, lens, gs, ge, nGroups, alphaSize, syms);
    }
  }

  lemma GroupNumbers(k: nat, n: nat)
    requires GROUP_SIZE * k < n
    ensures GroupEnd(k, n) < n ==> GroupEnd(k, n) == GROUP_SIZE * (k + 1)
    ensures GroupEnd(k, n) == n ==> GroupCount(n) == k + 1
    ensures GROUP_SIZE * k < GroupEnd(k, n) <= GROUP_SIZE * k + GROUP_SIZE
  {
  }

  lemma SmallCosts(lens: seq<seq<nat>>, nGroups: nat, alphaSize: nat, syms: seq<nat>, i: nat, j: nat)
    requires Tabled(lens, nGroups, alphaSize) && i <= j <= |syms| && j - i <= GROUP_SIZE
    ensures forall t :: 0 <= t < nGroups ==> Cost(lens[t], syms, i, j) < 999999999
  {
    forall t | 0 <= t < nGroups ensures Cost(lens[t], syms, i, j) < 999999999 {
      CostBound(lens[t], syms, i, j);
    }
  }

  /** Gives every group the best of the tables. */
  method AssignGroups(arr1: array<nat>, lens: seq<seq<nat>>, nMTF: nat, nGroups: nat, alphaSize: nat,
          ghost syms: seq<nat>)
    returns (selectors: seq<nat>, rfreq: seq<seq<nat>>)
    requires Overlaid(arr1, syms) && nMTF == |syms| >= 1 && nGroups >= 1 && Tabled(lens, nGroups, alphaSize)
    requires forall i :: 0 <= i < |syms| ==> syms[i] < alphaSize
    ensures |selectors| == GroupCount(nMTF) && EachBelow(selectors, nGroups) && Best(lens, syms, selectors)
    ensures Frequencies(rfreq, nGroups, alphaSize, nMTF)
    ensures Counted(rfreq, syms, selectors, nGroups, alphaSize, nMTF)
  {
    hide Overlaid, Tabled, Cost, Frequencies, BestFor, Counted;
    rfreq := NoFrequencies(nGroups, alphaSize, syms);
    selectors := [];
    var gs := 0;
    while gs < nMTF
      invariant EachBelow(selectors, nGroups) && Best(lens, syms, selectors)
      invariant gs <= nMTF && Frequencies(rfreq, nGroups, alphaSize, gs)
      invariant Counted(rfreq, syms, selectors, nGroups, alphaSize, gs)
      invariant if gs < nMTF then gs == GROUP_SIZE * |selectors| else |selectors| == GroupCount(nMTF)
      decreases nMTF - gs
    {
      ghost var k := |selectors|;
      GroupNumbers(k, nMTF);
      var ge := gs + GROUP_SIZE - 1;
      if ge >= nMTF {
        ge := nMTF - 1;
      }
      assert ge + 1 == GroupEnd(k, nMTF);
      SmallCosts(lens, nGroups, alphaSize, syms, gs, ge + 1);
      var cost := CostsOf(arr1, lens, gs, ge, nGroups, alphaSize, syms);
      var bt := Cheapest(cost);
      BestFound(lens, syms, k, bt, cost, nGroups, alphaSize);
      CountedLonger(rfreq, syms, selectors, nGroups, alphaSize, gs, bt);
      selectors := selectors + [bt];
      rfreq := CountGroup(arr1, rfreq, bt, gs, ge, nGroups, alphaSize, syms, selectors);
      gs := ge + 1;
    }
  }

  lemma BestFound(lens: seq<seq<nat>>, syms: seq<nat>, k: nat, bt: nat, cost: seq<nat>, nGroups: nat, alphaSize: nat)
    requires Tabled(lens, nGroups, alphaSize) && GROUP_SIZE * k < |syms| && |cost| == nGroups && bt < nGroups
    requires forall t :: 0 <= t < nGroups ==> cost[t] == Cost(lens[t], syms, GROUP_SIZE * k, GroupEnd(k, |syms|))
    requires forall t :: 0 <= t < nGroups ==> cost[bt] <= cost[t]
    ensures BestFor(lens, syms, k, bt)
  {
  }

  method NoFrequencies(nGroups: nat, alphaSize: nat, ghost syms: seq<nat>) returns (rfreq: seq<seq<nat>>)
    ensures Frequencies(rfreq, nGroups, alphaSize, 0) && Counted(rfreq, syms, [], nGroups, alphaSize, 0)
  {
    SumZeros(alphaSize, alphaSize);
    rfreq := seq(nGroups, t => seq(alphaSize, v => 0));
  }

  /** The code lengths for the frequencies of each table. */
  method MakeLengths(rfreq: seq<seq<nat>>, nGroups: nat, alphaSize: nat, ghost n: nat) returns (lens: seq<seq<nat>>)
    requires Frequencies(rfreq, nGroups, alphaSize, n) && n <= FREQ_LIMIT && 2 <= alphaSize <= Huffman.MAX_ALPHA_SIZE
    ensures |lens| == nGroups && forall t :: 0 <= t < nGroups ==> Made(lens[t], alphaSize)
    ensures forall t :: 0 <= t < nGroups ==> HuffmanLengths.Cheapest(rfreq[t], LONGEST_SENT, lens[t])
  {
    hide Sum, Huffman.Space, HuffmanLengths.Cheapest;
    lens := [];
    for t := 0 to nGroups
      invariant |lens| == t && forall u :: 0 <= u < t ==> Made(lens[u], alphaSize)
      invariant forall u :: 0 <= u < t ==> HuffmanLengths.Cheapest(rfreq[u], LONGEST_SENT, lens[u])
    {
      var len := new nat[alphaSize];
      MakeCodeLengths(len, rfreq[t], LONGEST_SENT);
      lens := lens + [len[..]];
      assert len[..alphaSize] == len[..];
    }
  }

  /** Lengths that the encoder sends: no code is longer than 17 bits, and the codes
      fill the code space exactly. */
  ghost predicate Made(lens: seq<nat>, alphaSize: nat) {
    && |lens| == alphaSize && (forall v :: 0 <= v < alphaSize ==> 1 <= lens[v] <= LONGEST_SENT)
    && Huffman.Space(lens, alphaSize, LONGEST_CODE) == CODE_SPACE
  }

  lemma MadeKraft(lens: seq<nat>, alphaSize: nat)
    requires Made(lens, alphaSize) && 1 <= alphaSize <= Huffman.MAX_ALPHA_SIZE
    ensures Kraft(lens)
  {
  }

  // ----- the first tables

  /** One initial table: symbols `gs` to `ge` are taken to be cheap. */
  method InitialTable(gs: nat, ge: int, alphaSize: nat) returns (len: seq<nat>)
    ensures |len| == alphaSize
    ensures forall v :: 0 <= v < alphaSize ==> len[v] == if gs <= v <= ge then LESSER_ICOST else GREATER_ICOST
  {
    len := seq(alphaSize, v => if gs <= v <= ge then LESSER_ICOST else GREATER_ICOST);
  }

  /** The last symbol of a part with about `tFreq` occurrences, from `gs` on. */
  method PartEnd(mtfFreq: array<nat>, gs: nat, tFreq: int, alphaSize: nat) returns (ge: int, aFreq: nat)
    requires alphaSize <= mtfFreq.Length && gs <= alphaSize
    ensures gs - 1 <= ge < alphaSize || (gs == alphaSize && ge == gs - 1)
    ensures ge >= gs ==> mtfFreq[ge] <= aFreq
    ensures Sum(mtfFreq[..], ge + 1) == Sum(mtfFreq[..], gs) + aFreq && (aFreq >= tFreq || ge >= alphaSize - 1)
  {
    ge, aFreq := gs - 1, 0;
    while aFreq < tFreq && ge < alphaSize - 1
      invariant gs - 1 <= ge < alphaSize || (gs == alphaSize && ge == gs - 1)
      invariant ge >= gs ==> mtfFreq[ge] <= aFreq
      invariant Sum(mtfFreq[..], ge + 1) == Sum(mtfFreq[..], gs) + aFreq
      decreases alphaSize - ge
    {
      ge := ge + 1;
      aFreq := aFreq + mtfFreq[ge];
    }
  }

  /** Splits the alphabet into parts of about equal weight, one for each table. */
  method InitialTables(mtfFreq: array<nat>, nMTF: nat, nGroups: nat, alphaSize: nat)
    returns (lens: seq<seq<nat>>, ghost cuts: seq<nat>)
    requires alphaSize <= mtfFreq.Length && 1 <= nGroups
    ensures Tabled(lens, nGroups, alphaSize) && Split(lens, cuts, 0, nGroups, alphaSize)
    ensures Sum(mtfFreq[..], alphaSize) == nMTF ==> forall v :: cuts[0] <= v < alphaSize ==> mtfFreq[v] == 0
  {
    hide Sum, Split, Part;
    lens := seq(nGroups, t => seq(alphaSize, v => GREATER_ICOST));
    cuts := seq(nGroups + 1, t => 0);
    var nPart, remF: int, gs: int := nGroups, nMTF, 0;
    NoSum(mtfFreq[..]);
    SplitStarts(lens, cuts, nGroups, alphaSize);
    while nPart > 0
      invariant 0 <= nPart <= nGroups && 0 <= gs <= alphaSize && Tabled(lens, nGroups, alphaSize)
      invariant |cuts| == nGroups + 1 && Split(lens, cuts, nPart, nGroups, alphaSize) && cuts[nPart] == gs
      invariant remF == nMTF - Sum(mtfFreq[..], gs)
      invariant nPart == 0 ==> Sum(mtfFreq[..], gs) >= nMTF || gs == alphaSize
    {
      var tFreq := remF / nPart;
      var ge, aFreq := PartEnd(mtfFreq, gs, tFreq, alphaSize);
      if ge > gs && nPart != nGroups && nPart != 1 && (nGroups - nPart) % 2 == 1 {
        SumLast(mtfFreq[..], ge);
        aFreq := aFreq - mtfFreq[ge];
        ge := ge - 1;
      }
      var len := InitialTable(gs, ge, alphaSize);
      SplitOn(lens, cuts, nPart, nGroups, alphaSize, len, ge + 1);
      lens := lens[nPart - 1 := len];
      nPart := nPart - 1;
      gs := ge + 1;
      cuts := cuts[nPart := gs];
      remF := remF - aFreq;
    }
    if Sum(mtfFreq[..], alphaSize) == nMTF { NothingMore(mtfFreq[..], gs, alphaSize); }
  }

  /** From table `from` on the tables split the symbols into intervals, the last table having the
      first one: each is cheap in its own interval and dear elsewhere. */
  ghost predicate Split(lens: seq<seq<nat>>, cuts: seq<nat>, from: nat, nGroups: nat, alphaSize: nat) {
    && |lens| == nGroups && |cuts| == nGroups + 1 && cuts[nGroups] == 0
    && forall t :: from <= t < nGroups ==>
      cuts[t + 1] <= cuts[t] <= alphaSize && Part(lens[t], cuts[t + 1], cuts[t], alphaSize)
  }

  lemma SplitStarts(lens: seq<seq<nat>>, cuts: seq<nat>, nGroups: nat, alphaSize: nat)
    requires |lens| == nGroups && |cuts| == nGroups + 1 && cuts[nGroups] == 0
    ensures Split(lens, cuts, nGroups, nGroups, alphaSize)
  {
  }

  lemma SplitOn(lens: seq<seq<nat>>, cuts: seq<nat>, k: nat, nGroups: nat, alphaSize: nat, len: seq<nat>, end: nat)
    requires Split(lens, cuts, k, nGroups, alphaSize) && 0 < k <= nGroups && cuts[k] <= end <= alphaSize
    requires |len| == alphaSize && forall v :: 0 <= v < alphaSize ==>
      len[v] == if cuts[k] <= v <= end - 1 then LESSER_ICOST else GREATER_ICOST
    ensures Split(lens[k - 1 := len], cuts[k - 1 := end], k - 1, nGroups, alphaSize)
  {
  }

  ghost predicate Part(len: seq<nat>, start: nat, end: nat, alphaSize: nat) {
    |len| == alphaSize && forall v :: 0 <= v < alphaSize ==>
      len[v] == if start <= v < end then LESSER_ICOST else GREATER_ICOST
  }

  lemma NoSum(freq: seq<nat>)
    ensures Sum(freq, 0) == 0
  {
  }

  lemma SumLast(freq: seq<nat>, n: nat)
    requires n < |freq|
    ensures Sum(freq, n + 1) == Sum(freq, n) + freq[n]
  {
  }

  /** When the first symbols are all that there are, the others do not occur. */
  lemma {:induction false} NothingMore(freq: seq<nat>, m: nat, n: nat)
    requires m <= n <= |freq| && (m == n || Sum(freq, m) >= Sum(freq, n))
    ensures Sum(freq, m) <= Sum(freq, n) && forall v :: m <= v < n ==> freq[v] == 0
  {
    if m < n {
      SumGrows(freq, m, n - 1);
      NothingMore(freq, m, n - 1);
    }
  }

  lemma {:induction false} SumGrows(freq: seq<nat>, m: nat, n: nat)
    requires m <= n <= |freq|
    ensures Sum(freq, m) <= Sum(freq, n)
  {
    if m < n { SumGrows(freq, m, n - 1); }
  }

  // ----- the choice

  lemma MadeTabled(lens: seq<seq<nat>>, nGroups: nat, alphaSize: nat)
    requires |lens| == nGroups && forall t :: 0 <= t < nGroups ==> Made(lens[t], alphaSize)
    ensures Tabled(lens, nGroups, alphaSize)
  {
  }

  lemma ChoiceSendable(lens: seq<seq<nat>>, selectors: seq<nat>, nGroups: nat, alphaSize: nat, nMTF: nat)
    requires 2 <= nGroups <= 6 && 1 <= nMTF <= FREQ_LIMIT && 2 <= alphaSize <= Huffman.MAX_ALPHA_SIZE
    requires |lens| == nGroups && forall t :: 0 <= t < nGroups ==> Made(lens[t], alphaSize)
    requires |selectors| == GroupCount(nMTF) && EachBelow(selectors, nGroups)
    ensures Sendable(Codes(selectors, lens), alphaSize)
    ensures nMTF <= GROUP_SIZE * |selectors| < nMTF + GROUP_SIZE
  {
    forall t | 0 <= t < nGroups ensures |lens[t]| == alphaSize && Lengths(lens[t]) && Kraft(lens[t]) {
      MadeKraft(lens[t], alphaSize);
    }
  }

  /** Each table is a cheapest code for the symbols that it codes, with no code of more than 17
      bits. */
  ghost predicate CheapestFor(codes: Codes, syms: seq<nat>, alphaSize: nat) {
    forall t :: 0 <= t < |codes.lens| ==>
      HuffmanLengths.Cheapest(UsesOf(syms, codes.selectors, t, alphaSize), 17, codes.lens[t])
  }

  lemma MadeCheapest(rfreq: seq<seq<nat>>, lens: seq<seq<nat>>, selectors: seq<nat>, syms: seq<nat>, nGroups: nat,
          alphaSize: nat)
    requires Counted(rfreq, syms, selectors, nGroups, alphaSize, |syms|) && |lens| == nGroups
    requires forall t :: 0 <= t < nGroups ==> HuffmanLengths.Cheapest(rfreq[t], LONGEST_SENT, lens[t])
    ensures CheapestFor(Codes(selectors, lens), syms, alphaSize)
  {
    hide HuffmanLengths.Cheapest, Uses;
    forall t | 0 <= t < nGroups
      ensures HuffmanLengths.Cheapest(UsesOf(syms, selectors, t, alphaSize), 17, lens[t])
    {
      CountedAll(rfreq, syms, selectors, nGroups, alphaSize, t);
    }
  }

  lemma TabledSize(lens: seq<seq<nat>>, nGroups: nat, alphaSize: nat)
    requires Tabled(lens, nGroups, alphaSize)
    ensures |lens| == nGroups
  {
  }

  /** Improves the tables four times, and ends with the selectors of the last round
      and the lengths made from the frequencies they give. */
  method ChooseTables(arr1: array<nat>, mtfFreq: array<nat>, nMTF: nat, alphaSize: nat, ghost syms: seq<nat>)
    returns (codes: Codes)
    requires Overlaid(arr1, syms) && 1 <= nMTF == |syms| <= FREQ_LIMIT
    requires 2 <= alphaSize <= Huffman.MAX_ALPHA_SIZE && alphaSize <= mtfFreq.Length
    requires forall i :: 0 <= i < |syms| ==> syms[i] < alphaSize
    ensures Sendable(codes, alphaSize) && |codes.selectors| == GroupCount(nMTF)
    ensures nMTF <= GROUP_SIZE * |codes.selectors|
    ensures forall t :: 0 <= t < |codes.lens| ==> Made(codes.lens[t], alphaSize)
    ensures CheapestFor(codes, syms, alphaSize)
    ensures exists before :: |before| == |codes.lens| && Best(before, syms, codes.selectors)
  {
    hide Overlaid, Tabled, Frequencies, Best, Made, Counted, CheapestFor;
    var nGroups := GroupsFor(nMTF);
    var lens, _ := InitialTables(mtfFreq, nMTF, nGroups, alphaSize);
    var selectors: seq<nat>, rfreq := [], [];
    ghost var before := lens;
    for iter := 0 to N_ITERS
      invariant Tabled(lens, nGroups, alphaSize)
      invariant iter > 0 ==> |lens| == nGroups && forall t :: 0 <= t < nGroups ==> Made(lens[t], alphaSize)
      invariant iter > 0 ==> |selectors| == GroupCount(nMTF) && EachBelow(selectors, nGroups)
      invariant iter > 0 ==> CheapestFor(Codes(selectors, lens), syms, alphaSize)
      invariant iter > 0 ==> |before| == nGroups && Best(before, syms, selectors)
    {
      before := lens;
      TabledSize(lens, nGroups, alphaSize);
      selectors, rfreq := AssignGroups(arr1, lens, nMTF, nGroups, alphaSize, syms);
      lens := MakeLengths(rfreq, nGroups, alphaSize, nMTF);
      MadeTabled(lens, nGroups, alphaSize);
      MadeCheapest(rfreq, lens, selectors, syms, nGroups, alphaSize);
    }
    ChoiceSendable(lens, selectors, nGroups, alphaSize, nMTF);
    codes := Codes(selectors, lens);
  }
}
