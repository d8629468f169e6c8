/** The in-place builders of the code numbers and of the decoding tables, and
    the table-driven reading of one symbol. */
module HuffmanTables {
  import opened Bits
  import opened CountingSort
  import opened Wrappers
  import opened BitStream
  import opened Huffman

  /** Fills `code[i]` for every symbol, one length after the other. */
  method AssignCodes(code: array<int>, length: seq<nat>, minLen: nat, maxLen: nat)
    requires 1 <= |length| <= code.Length
    requires minLen == MinLen(length) && maxLen == MaxLen(length)
    modifies code
    ensures forall s :: 0 <= s < |length| ==> code[s] == Code(length, s)
  {
    hide *;
    CodesStart(code, length);
    var vec := 0;
    for n := minLen to maxLen + 1
      invariant vec == First(length, n) && CodesBelow(code, length, n)
    {
      vec := AssignCodesOf(code, length, n, vec);
      vec := 2 * vec;
      FirstNext(length, n);
    }
    CodesComplete(code, length);
  }

  lemma CodesStart(code: array<int>, lens: seq<nat>)
    requires 1 <= |lens| <= code.Length
    ensures MinLen(lens) <= MaxLen(lens)
    ensures First(lens, MinLen(lens)) == 0 && CodesBelow(code, lens, MinLen(lens))
  {
    NothingShorter(lens, MinLen(lens));
    LensBetween(lens);
  }

  lemma CodesComplete(code: array<int>, lens: seq<nat>)
    requires 1 <= |lens| <= code.Length && CodesBelow(code, lens, MaxLen(lens) + 1)
    ensures forall s :: 0 <= s < |lens| ==> code[s] == Code(lens, s)
  {
    LensBetween(lens);
  }

  ghost predicate CodesBelow(code: array<int>, lens: seq<nat>, n: nat)
    requires |lens| <= code.Length
    reads code
  {
    forall s :: 0 <= s < |lens| && lens[s] < n ==> code[s] == Code(lens, s)
  }

  /** Gives consecutive numbers to the symbols of one length. */
  method AssignCodesOf(code: array<int>, length: seq<nat>, n: nat, vec0: int) returns (vec: int)
    requires |length| <= code.Length && vec0 == First(length, n)
    modifies code
    requires CodesBelow(code, length, n)
    ensures vec == Past(length, n) && CodesBelow(code, length, n + 1)
  {
    hide First;
    vec := vec0;
    for i := 0 to |length|
      invariant vec == First(length, n) + |Select(length, i, n)|
      invariant CodesBelow(code, length, n)
      invariant forall s :: 0 <= s < i && length[s] == n ==> code[s] == Code(length, s)
    {
      if length[i] == n {
        code[i] := vec;
        vec := vec + 1;
      }
    }
  }

  lemma FirstNext(lens: seq<nat>, len: nat)
    ensures First(lens, len + 1) == 2 * Past(lens, len)
  {
  }

  lemma LensBetween(lens: seq<nat>)
    requires lens != []
    ensures forall s :: 0 <= s < |lens| ==> MinLen(lens) <= lens[s] <= MaxLen(lens)
    ensures MinLen(lens) <= MaxLen(lens)
  {
    forall s | 0 <= s < |lens| ensures MinLen(lens) <= lens[s] <= MaxLen(lens) {
      Between(lens, |lens|, s);
    }
    assert lens[0] == lens[0];
  }

  ghost predicate LimitTable(limit: array<int>, lens: seq<nat>)
    requires lens != [] && limit.Length == MAX_ALPHA_SIZE
    reads limit
  {
    forall z :: 0 <= z < MAX_CODE_LEN ==> limit[z] == Limit(lens, z)
  }

  ghost predicate BaseTable(base: array<int>, lens: seq<nat>)
    requires lens != [] && base.Length == MAX_ALPHA_SIZE
    reads base
  {
    forall z :: 0 <= z < MAX_CODE_LEN ==> base[z] == Base(lens, z)
  }

  /** `base[z]` is the number of codes shorter than `z`. */
  ghost predicate BelowTable(base: array<int>, lens: seq<nat>)
    requires lens != [] && base.Length == MAX_ALPHA_SIZE
    reads base
  {
    forall z :: 0 <= z < MAX_CODE_LEN ==> base[z] == Below(lens, z)
  }

  /** Fills the three decoding tables from the code lengths. */
  method CreateDecodeTables(limit: array<int>, base: array<int>, perm: array<nat>,
                            length: seq<nat>, minLen: nat, maxLen: nat)
    requires Lengths(length) && minLen == MinLen(length) && maxLen == MaxLen(length)
    requires limit != base && limit.Length == base.Length == perm.Length == MAX_ALPHA_SIZE
    modifies limit, base, perm
    ensures LimitTable(limit, length)
    ensures BaseTable(base, length)
    ensures Holds(perm, Perm(length))
  {
    hide *;
    TablesStart(length);
    FillPerm(perm, length, minLen, maxLen + 1);
    CountLengths(base, length);
    FillLimit(limit, base, length, minLen, maxLen);
    FinishBase(limit, base, length, minLen, maxLen);
  }

  lemma TablesStart(lens: seq<nat>)
    requires Lengths(lens)
    ensures lens != [] && |lens| <= MAX_ALPHA_SIZE
    ensures MinLen(lens) <= MaxLen(lens) && MaxLen(lens) + 1 < MAX_CODE_LEN
    ensures First(lens, MinLen(lens)) == 0 && ByKey(lens, MinLen(lens)) == []
    ensures Perm(lens) == ByKey(lens, MaxLen(lens) + 1)
  {
    LenRange(lens);
    NothingShorter(lens, MinLen(lens));
  }

  method FillLimit(limit: array<int>, base: array<int>, length: seq<nat>, minLen: nat, maxLen: nat)
    requires length != [] && minLen == MinLen(length) && maxLen == MaxLen(length)
    requires minLen <= maxLen && maxLen + 1 < MAX_CODE_LEN && First(length, minLen) == 0
    requires limit != base && limit.Length == base.Length == MAX_ALPHA_SIZE
    requires BelowTable(base, length)
    modifies limit
    ensures LimitTable(limit, length)
  {
    hide First, Past, Limit, Base, Below, ByKey, MinLen, MaxLen;
    LimitOutside(length);
    for i := 0 to MAX_CODE_LEN
      invariant forall z :: 0 <= z < i ==> limit[z] == 0
    {
      limit[i] := 0;
    }
    var vec := 0;
    for i := minLen to maxLen + 1
      invariant vec == First(length, i)
      invariant forall z :: 0 <= z < MAX_CODE_LEN ==> limit[z] == if z < i then Limit(length, z) else 0
    {
      LimitStep(length, i);
      vec := vec + (base[i + 1] - base[i]);
      limit[i] := vec - 1;
      vec := 2 * vec;
    }
  }

  method FinishBase(limit: array<int>, base: array<int>, length: seq<nat>, minLen: nat, maxLen: nat)
    requires length != [] && minLen == MinLen(length) && maxLen == MaxLen(length)
    requires minLen <= maxLen && maxLen + 1 < MAX_CODE_LEN
    requires limit != base && limit.Length == base.Length == MAX_ALPHA_SIZE
    requires LimitTable(limit, length)
    requires BelowTable(base, length)
    modifies base
    ensures BaseTable(base, length)
  {
    BaseOutside(length);
    hide First, Past, Limit, Base, Below, ByKey, MinLen, MaxLen;
    for i := minLen + 1 to maxLen + 1
      invariant forall z :: 0 <= z < MAX_CODE_LEN ==>
        base[z] == if z < i || z > maxLen then Base(length, z) else Below(length, z)
    {
      BaseStep(length, i);
      base[i] := 2 * (limit[i - 1] + 1) - base[i];
    }
  }

  lemma LimitOutside(lens: seq<nat>)
    requires lens != []
    ensures forall z :: !(MinLen(lens) <= z <= MaxLen(lens)) ==> Limit(lens, z) == 0
  {
  }

  lemma BaseStep(lens: seq<nat>, i: nat)
    requires lens != [] && MinLen(lens) < i <= MaxLen(lens)
    ensures 2 * (Limit(lens, i - 1) + 1) - Below(lens, i) == Base(lens, i)
  {
  }

  lemma BaseOutside(lens: seq<nat>)
    requires lens != []
    ensures forall z :: !(MinLen(lens) < z <= MaxLen(lens)) ==> Base(lens, z) == Below(lens, z)
  {
  }

  lemma LimitStep(lens: seq<nat>, i: nat)
    requires lens != [] && MinLen(lens) <= i <= MaxLen(lens)
    ensures First(lens, i) + (Below(lens, i + 1) - Below(lens, i)) == Past(lens, i)
    ensures Limit(lens, i) == Past(lens, i) - 1 && 2 * Past(lens, i) == First(lens, i + 1)
  {
  }

  /** The symbols sorted by length, from length `minLen` up to below `top`. */
  method FillPerm(perm: array<nat>, length: seq<nat>, minLen: nat, top: nat)
    requires |length| <= perm.Length
    requires minLen <= top && ByKey(length, minLen) == []
    modifies perm
    ensures Holds(perm, ByKey(length, top))
  {
    assert Holds(perm, []);
    hide *;
    var pp := 0;
    for i := minLen to top
      invariant pp == |ByKey(length, i)| && Holds(perm, ByKey(length, i))
    {
      pp := FillPermOf(perm, length, i, pp);
    }
  }

  /** The array begins with `s`. */
  ghost predicate Holds(a: array<nat>, s: seq<nat>)
    reads a
  {
    |s| <= a.Length && forall k :: 0 <= k < |s| ==> a[k] == s[k]
  }

  /** Appends the symbols of one length. */
  method FillPermOf(perm: array<nat>, length: seq<nat>, i: nat, pp0: nat) returns (pp: nat)
    requires |length| <= perm.Length
    requires pp0 == |ByKey(length, i)| && Holds(perm, ByKey(length, i))
    modifies perm
    ensures pp == |ByKey(length, i + 1)| && Holds(perm, ByKey(length, i + 1))
  {
    pp := pp0;
    ghost var below, all := ByKey(length, i), ByKey(length, i + 1);
    ByKeySize(length, i + 1);
    assert all == below + Select(length, |length|, i) && Selected(length, 0, i) == 0;
    hide *;
    for j := 0 to |length|
      invariant pp == pp0 + Selected(length, j, i) <= |all|
      invariant forall k :: 0 <= k < pp ==> perm[k] == all[k]
    {
      SelectMember(length, j, i, below, all);
      if length[j] == i {
        perm[pp] := j;
        pp := pp + 1;
      }
    }
    SelectedAll(length, i, below, all);
  }

  function Selected(lens: seq<nat>, n: int, len: int): int {
    if 0 <= n <= |lens| && len >= 0 then |Select(lens, n, len)| else 0
  }

  lemma SelectedAll(lens: seq<nat>, len: nat, below: seq<nat>, all: seq<nat>)
    requires all == below + Select(lens, |lens|, len)
    ensures |all| == |below| + Selected(lens, |lens|, len)
  {
  }

  /** Symbol `j` is the next one after the selected symbols below it. */
  lemma SelectMember(lens: seq<nat>, j: nat, len: nat, below: seq<nat>, all: seq<nat>)
    requires j < |lens| && all == below + Select(lens, |lens|, len)
    ensures lens[j] == len ==>
      && Selected(lens, j + 1, len) == Selected(lens, j, len) + 1
      && |below| + Selected(lens, j, len) < |all|
      && all[|below| + Selected(lens, j, len)] == j
    ensures lens[j] != len ==> Selected(lens, j + 1, len) == Selected(lens, j, len)
  {
    SelectPrefix(lens, j + 1, |lens|, len);
    assert lens[j] == len ==> Select(lens, j + 1, len)[Selected(lens, j, len)] == j;
  }

  /** Counts the codes of each length, then sums the counts up. */
  method CountLengths(base: array<int>, length: seq<nat>)
    requires Lengths(length) && base.Length == MAX_ALPHA_SIZE
    modifies base
    ensures BelowTable(base, length)
  {
    for i := 0 to MAX_CODE_LEN
      invariant forall z :: 0 <= z < i ==> base[z] == 0
    {
      base[i] := 0;
    }
    assert forall z :: OneShorter(length, 0, z) == 0;
    for i := 0 to |length|
      invariant forall z :: 0 <= z < MAX_CODE_LEN ==> base[z] == OneShorter(length, i, z)
    {
      base[length[i] + 1] := base[length[i] + 1] + 1;
    }
    SumUp(base, length);
  }

  method SumUp(base: array<int>, length: seq<nat>)
    requires length != [] && base.Length == MAX_ALPHA_SIZE
    requires forall z :: 0 <= z < MAX_CODE_LEN ==> base[z] == OneShorter(length, |length|, z)
    modifies base
    ensures BelowTable(base, length)
  {
    assert base[0] == Below(length, 0);
    hide Below, OneShorter;
    for i := 1 to MAX_CODE_LEN
      invariant forall z :: 0 <= z < i ==> base[z] == Below(length, z)
      invariant forall z :: i <= z < MAX_CODE_LEN ==> base[z] == OneShorter(length, |length|, z)
    {
      BelowStep(length, i);
      base[i] := base[i] + base[i - 1];
    }
  }

  lemma BelowStep(lens: seq<nat>, i: nat)
    requires i > 0
    ensures OneShorter(lens, |lens|, i) + Below(lens, i - 1) == Below(lens, i)
  {
  }

  /** How many of the first `n` symbols have a code of `z - 1` bits. */
  function OneShorter(lens: seq<nat>, n: nat, z: int): int
    requires n <= |lens|
  {
    if z <= 0 then 0 else |Select(lens, n, z - 1)|
  }

  /** The decoding tables of one code, as they stay once they are built. */
  datatype DecodeTables = DecodeTables(limit: seq<int>, base: seq<int>, perm: seq<nat>, minLen: nat)

  /** The tables are those that CreateDecodeTables builds. */
  ghost predicate TablesFor(t: DecodeTables, lens: seq<nat>) {
    && Lengths(lens) && t.minLen == MinLen(lens)
    && |t.limit| == |t.base| == |t.perm| == MAX_ALPHA_SIZE
    && (forall z :: 0 <= z < MAX_CODE_LEN ==> t.limit[z] == Limit(lens, z))
    && (forall z :: 0 <= z < MAX_CODE_LEN ==> t.base[z] == Base(lens, z))
    && |Perm(lens)| <= MAX_ALPHA_SIZE && forall k :: 0 <= k < |Perm(lens)| ==> t.perm[k] == Perm(lens)[k]
  }

  method BuildTables(length: seq<nat>) returns (t: DecodeTables)
    requires Lengths(length)
    ensures TablesFor(t, length)
  {
    var minLen, maxLen := 32, 0;
    for i := 0 to |length|
      invariant i > 0 ==> minLen == Shortest(length, i) && maxLen == Longest(length, i)
      invariant i == 0 ==> minLen == 32 && maxLen == 0
    {
      if length[i] > maxLen { maxLen := length[i]; }
      if length[i] < minLen { minLen := length[i]; }
    }
    var limit, base, perm := new int[MAX_ALPHA_SIZE], new int[MAX_ALPHA_SIZE], new nat[MAX_ALPHA_SIZE];
    CreateDecodeTables(limit, base, perm, length, minLen, maxLen);
    t := DecodeTables(limit[..], base[..], perm[..], minLen);
  }

  /** An index that passes the limit test is below the number of symbols, so that
      only filled entries of the permutation are ever read. */
  lemma IndexFilled(lens: seq<nat>, zn: nat, zvec: nat)
    requires Lengths(lens) && MinLen(lens) <= zn && zvec <= Limit(lens, zn)
    ensures zvec - Base(lens, zn) < |Perm(lens)|
  {
    if zn <= MaxLen(lens) {
      NothingShorter(lens, MinLen(lens));
      IndexOfCode(lens, zn);
    } else {
      assert Base(lens, zn) >= 0 && Limit(lens, zn) == 0;
      PermSome(lens);
    }
  }

  lemma IndexOfCode(lens: seq<nat>, zn: nat)
    requires lens != [] && MinLen(lens) <= zn <= MaxLen(lens)
    requires First(lens, MinLen(lens)) == 0 && ByKey(lens, MinLen(lens)) == []
    ensures Limit(lens, zn) - Base(lens, zn) < |Perm(lens)|
  {
    LimitMinusBase(lens, zn);
    BelowNext(lens, zn);
    hide *;
    PermSizes(lens, zn);
  }

  lemma LimitMinusBase(lens: seq<nat>, zn: nat)
    requires lens != [] && MinLen(lens) <= zn <= MaxLen(lens)
    requires First(lens, MinLen(lens)) == 0 && ByKey(lens, MinLen(lens)) == []
    ensures Limit(lens, zn) - Base(lens, zn) == Count(lens, zn) + Below(lens, zn) - 1
  {
    hide First, ByKey, Count, MinLen, MaxLen;
  }

  lemma BelowNext(lens: seq<nat>, zn: nat)
    ensures Below(lens, zn + 1) == Below(lens, zn) + Count(lens, zn)
  {
  }

  lemma PermSizes(lens: seq<nat>, zn: nat)
    requires lens != [] && zn <= MaxLen(lens)
    ensures Below(lens, zn + 1) <= |Perm(lens)|
  {
    ByKeyPrefix(lens, zn + 1, MaxLen(lens) + 1);
  }

  lemma PermSome(lens: seq<nat>)
    requires Lengths(lens)
    ensures |Perm(lens)| > 0
  {
    PermAt(lens, 0);
  }

  lemma SymbolInRange(lens: seq<nat>, zn: nat, zvec: nat, bits: seq<bool>)
    requires Lengths(lens)
    ensures DecodeFrom(lens, zn, zvec, bits).Ok? ==> DecodeFrom(lens, zn, zvec, bits).value < |lens|
    decreases LONGEST_CODE + 1 - zn
  {
    if zn <= LONGEST_CODE {
      if zvec <= Limit(lens, zn) {
        PermRange(lens, zvec - Base(lens, zn));
      } else if bits != [] {
        DecodeMore(lens, zn, zvec, bits);
        SymbolInRange(lens, zn + 1, ShiftIn1(zvec, if bits[0] then 1 else 0), bits[1..]);
      }
    }
  }

  lemma PermRange(lens: seq<nat>, k: int)
    requires lens != []
    ensures 0 <= k < |Perm(lens)| ==> Perm(lens)[k] < |lens|
  {
    if 0 <= k < |Perm(lens)| { ByKeyAt(lens, MaxLen(lens) + 1, k); }
  }

  /** The entry for code `zvec` of `zn` bits. */
  method LookUp(t: DecodeTables, ghost lens: seq<nat>, zn: nat, zvec: nat) returns (r: Result<nat>)
    requires TablesFor(t, lens) && MinLen(lens) <= zn <= LONGEST_CODE && zvec <= Limit(lens, zn)
    ensures forall bits :: DecodeFrom(lens, zn, zvec, bits)
                        == if r.Success? then Ok(r.value, bits) else Fail(r.error)
  {
    IndexFilled(lens, zn, zvec);
    var k := zvec - t.base[zn];
    if k < 0 || k >= MAX_ALPHA_SIZE {
      return Failure(DataError);
    }
    r := Success(t.perm[k]);
  }

  /** Reads one symbol with the tables. */
  method ReadSymbol(br: BitReader, t: DecodeTables, ghost lens: seq<nat>) returns (r: Result<nat>)
    requires br.Valid() && TablesFor(t, lens)
    modifies br
    ensures br.Valid() && Agrees(r, br.Remaining(), DecodeSymbol(lens, old(br.Remaining())))
  {
    LenRange(lens);
    var zn := t.minLen;
    r := br.GetBits(zn);
    if r.Failure? {
      return;
    }
    var zvec: nat := r.value;
    while zn <= LONGEST_CODE && zvec > t.limit[zn]
      invariant br.Valid() && t.minLen <= zn <= LONGEST_CODE + 1
      invariant DecodeFrom(lens, zn, zvec, br.Remaining()) == DecodeSymbol(lens, old(br.Remaining()))
      decreases LONGEST_CODE + 1 - zn
    {
      r := br.GetBits(1);
      if r.Failure? {
        return;
      }
      zn := zn + 1;
      zvec := ShiftIn1(zvec, r.value);
    }
    if zn > LONGEST_CODE {
      return Failure(DataError);
    }
    r := LookUp(t, lens, zn, zvec);
  }
}
