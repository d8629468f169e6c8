/** The two-level tables that inflate decodes with: what a table says of a string of
    bits, and how entering one code after the other makes it say the right thing. */
module DecodingTable {
  import opened Bits
  import opened LowFirst
  import opened DeflateCode

  datatype Entry = Entry(op: nat, bits: nat, val: nat)
  datatype Kind = Codes | Lens | Dists

  const LBASE: seq<nat> :=
    [3, 4, 5, 6, 7, 8, 9, 10, 11, 13, 15, 17, 19, 23, 27, 31,
     35, 43, 51, 59, 67, 83, 99, 115, 131, 163, 195, 227, 258, 0, 0]
  const LEXT: seq<nat> :=
    [16, 16, 16, 16, 16, 16, 16, 16, 17, 17, 17, 17, 18, 18, 18, 18,
     19, 19, 19, 19, 20, 20, 20, 20, 21, 21, 21, 21, 16, 199, 202]
  const DBASE: seq<nat> :=
    [1, 2, 3, 4, 5, 7, 9, 13, 17, 25, 33, 49, 65, 97, 129, 193,
     257, 385, 513, 769, 1025, 1537, 2049, 3073, 4097, 6145,
     8193, 12289, 16385, 24577, 0, 0]
  const DEXT: seq<nat> :=
    [16, 16, 16, 16, 17, 17, 18, 18, 19, 19, 20, 20, 21, 21, 22, 22,
     23, 23, 24, 24, 25, 25, 26, 26, 27, 27,
     28, 28, 29, 29, 64, 64]

  /** The symbols of each kind of code. */
  predicate InAlphabet(kind: Kind, sym: nat) {
    match kind
    case Codes => sym < 19
    case Lens => sym < 288
    case Dists => sym < 32
  }

  /** The entry for a symbol whose code leaves `bits` bits to be dropped. */
  function SymbolEntry(kind: Kind, sym: nat, bits: nat): Entry
    requires InAlphabet(kind, sym)
  {
    match kind
    case Codes => Entry(0, bits, sym)
    case Lens =>
      if sym < 256 then Entry(0, bits, sym)
      else if sym == 256 then Entry(32 + 64, bits, 0)
      else Entry(LEXT[sym - 257], bits, LBASE[sym - 257])
    case Dists => Entry(DEXT[sym], bits, DBASE[sym])
  }

  const INVALID_OP := 64

  /** An entry that leads to a sub-table. */
  predicate IsLink(e: Entry) {
    e.op != 0 && e.op < 16
  }

  lemma SymbolNoLink(kind: Kind, sym: nat, bits: nat)
    requires InAlphabet(kind, sym)
    ensures !IsLink(SymbolEntry(kind, sym, bits))
  {
  }

  function At(t: seq<Entry>, i: int): Entry {
    if 0 <= i < |t| then t[i] else Entry(INVALID_OP, 1, 0)
  }

  /** What the table says of the bits `v`, which are more than enough: the entry, with
      all bits that are to be dropped. */
  function Lookup(t: seq<Entry>, root: nat, v: seq<bool>): Entry
    requires root <= |v|
  {
    var e := At(t, Val(v[..root]));
    if IsLink(e) && e.bits + e.op <= |v| then
      var f := At(t, e.val + Val(v[e.bits..e.bits + e.op]));
      Entry(f.op, e.bits + f.bits, f.val)
    else e
  }

  /** The alphabet has a symbol for every code. */
  ghost predicate Alphabet(kind: Kind, lens: seq<nat>) {
    forall s :: 0 <= s < |lens| ==> InAlphabet(kind, s)
  }

  function EntryAt(kind: Kind, lens: seq<nat>, j: int, bits: nat): Entry {
    if 0 <= j < |Sorted(lens)| && InAlphabet(kind, Sorted(lens)[j]) then SymbolEntry(kind, Sorted(lens)[j], bits)
    else Entry(INVALID_OP, bits, 0)
  }

  lemma EntryNoLink(kind: Kind, lens: seq<nat>, j: int, bits: nat)
    ensures !IsLink(EntryAt(kind, lens, j, bits)) && EntryAt(kind, lens, j, bits).bits == bits
  {
    if 0 <= j < |Sorted(lens)| && InAlphabet(kind, Sorted(lens)[j]) { SymbolNoLink(kind, Sorted(lens)[j], bits); }
  }

  /** The string `v` that begins with the code at place `j` is found to do so. */
  ghost predicate Found(t: seq<Entry>, root: nat, kind: Kind, lens: seq<nat>, j: int, v: seq<bool>) {
    |v| == MAXBITS && root <= MAXBITS && Lookup(t, root, v) == EntryAt(kind, lens, j, LenAt(lens, j))
  }

  /** When a string leads to a sub-table, it is the current one, for strings that begin
      with `low`, or one that ends before `next`. */
  ghost predicate Settled(t: seq<Entry>, root: nat, low: seq<bool>, next: nat, v: seq<bool>) {
    && |v| == MAXBITS && root <= MAXBITS
    && var e := At(t, Val(v[..root]));
      IsLink(e) ==>
        && e.bits == root && root + e.op <= MAXBITS && Pow2(root) <= e.val
        && (low == v[..root] || e.val + Pow2(e.op) <= next)
  }

  /** The first `k` codes have been entered; the current table begins at `next`. */
  ghost predicate Entered(t: seq<Entry>, root: nat, kind: Kind, lens: seq<nat>, k: int, low: seq<bool>, next: nat) {
    forall j, v {:trigger Found(t, root, kind, lens, j, v)} :: 0 <= j < k && |v| == MAXBITS && CodeAt(lens, j) <= v ==>
      Found(t, root, kind, lens, j, v) && Settled(t, root, low, next, v)
  }

  /** The entries of the current table whose index ends with `h` have been set. */
  ghost predicate Replicated(t: seq<Entry>, u: seq<Entry>, next: nat, curr: nat, d: nat, h: nat, here: Entry) {
    && |u| == |t| && next + Pow2(curr) <= |t|
    && forall i :: 0 <= i < |t| ==> u[i] == if next <= i < next + Pow2(curr) && LowBits(i - next, d) == h then here
      else t[i]
  }

  /** The current table: the root table, or the sub-table that the strings that begin
      with `low` are led to. */
  ghost predicate Current(t: seq<Entry>, root: nat, low: seq<bool>, next: nat, curr: nat) {
    && 1 <= root <= MAXBITS && next + Pow2(curr) <= |t|
    && if low == [] then next == 0 && curr == root
       else
         && |low| == root && 1 <= curr && root + curr <= MAXBITS && next >= Pow2(root)
         && At(t, Val(low)) == Entry(curr, root, next)
  }

  lemma ReplicatedAt(t: seq<Entry>, u: seq<Entry>, next: nat, curr: nat, d: nat, c: seq<bool>, here: Entry,
          w: seq<bool>)
    requires Replicated(t, u, next, curr, d, Val(c), here) && |c| == d <= curr == |w|
    ensures At(u, next + Val(w)) == if c <= w then here else At(t, next + Val(w))
  {
    hide LowBits, Val, Pow2;
    ValSplit(w, d);
    if Val(w[..d]) == Val(c) { ValInjective(w[..d], c); }
    assert c <= w <==> w[..d] == c;
    assert u[next + Val(w)] == if LowBits(Val(w), d) == Val(c) then here else t[next + Val(w)];
  }

  lemma ReplicatedBefore(t: seq<Entry>, u: seq<Entry>, next: nat, curr: nat, d: nat, h: nat, here: Entry, i: int)
    requires Replicated(t, u, next, curr, d, h, here) && i < next
    ensures At(u, i) == At(t, i)
  {
  }

  // ----- entering a code

  lemma EnterRoot(t: seq<Entry>, u: seq<Entry>, root: nat, kind: Kind, lens: seq<nat>, k: nat, here: Entry, j: int,
          v: seq<bool>)
    requires Fits(lens) && k < |Sorted(lens)| && Entered(t, root, kind, lens, k, [], 0) && 1 <= root <= MAXBITS
    requires LenAt(lens, k) <= root && here == EntryAt(kind, lens, k, LenAt(lens, k))
    requires Replicated(t, u, 0, root, LenAt(lens, k), Val(CodeAt(lens, k)), here)
    requires 0 <= j <= k && |v| == MAXBITS && CodeAt(lens, j) <= v
    ensures Found(u, root, kind, lens, j, v) && Settled(u, root, [], 0, v)
  {
    hide Entered, Replicated, CodeAt, LenAt, EntryAt, Val, Fits;
    var c, w := CodeAt(lens, k), v[..root];
    EntryNoLink(kind, lens, k, LenAt(lens, k));
    ReplicatedAt(t, u, 0, root, LenAt(lens, k), c, here, w);
    assert c <= w <==> c <= v;
    if j < k {
      CodesApart(lens, j, k, v);
      EnteredAt(t, root, kind, lens, k, [], 0, j, v);
    }
  }

  lemma EnteredAt(t: seq<Entry>, root: nat, kind: Kind, lens: seq<nat>, k: int, low: seq<bool>, next: nat, j: int,
          v: seq<bool>)
    requires Entered(t, root, kind, lens, k, low, next) && 0 <= j < k && |v| == MAXBITS && CodeAt(lens, j) <= v
    ensures Found(t, root, kind, lens, j, v) && Settled(t, root, low, next, v)
  {
    assert Found(t, root, kind, lens, j, v);
  }

  /** The strings that begin with the code that has been entered into a sub-table. */
  lemma EnterSubNew(t: seq<Entry>, u: seq<Entry>, root: nat, kind: Kind, lens: seq<nat>, k: nat, low: seq<bool>,
          next: nat, curr: nat, here: Entry, v: seq<bool>)
    requires Current(t, root, low, next, curr) && low != [] && low <= CodeAt(lens, k)
    requires root < LenAt(lens, k) <= root + curr && here == EntryAt(kind, lens, k, LenAt(lens, k) - root)
    requires Replicated(t, u, next, curr, LenAt(lens, k) - root, Val(CodeAt(lens, k)[root..]), here)
    requires |v| == MAXBITS && CodeAt(lens, k) <= v
    ensures Found(u, root, kind, lens, k, v) && Settled(u, root, low, next, v)
  {
    hide Replicated, CodeAt, LenAt, Val, EntryAt;
    var c, d := CodeAt(lens, k), LenAt(lens, k) - root;
    RootBefore(t, root, low, next, curr, v);
    ReplicatedBefore(t, u, next, curr, d, Val(c[root..]), here, Val(v[..root]));
    assert v[..root] == c[..root] == low;
    ReplicatedAt(t, u, next, curr, d, c[root..], here, v[root..root + curr]);
    PrefixParts(c, v, root, curr);
    EntryParts(kind, lens, k, root, d);
  }

  /** The strings that begin with a code that had been entered before. */
  lemma EnterSubOld(t: seq<Entry>, u: seq<Entry>, root: nat, kind: Kind, lens: seq<nat>, k: nat, low: seq<bool>,
          next: nat, curr: nat, here: Entry, j: int, v: seq<bool>)
    requires Current(t, root, low, next, curr) && low != [] && low <= CodeAt(lens, k)
    requires root < LenAt(lens, k) <= root + curr
    requires Replicated(t, u, next, curr, LenAt(lens, k) - root, Val(CodeAt(lens, k)[root..]), here)
    requires |v| == MAXBITS && !(CodeAt(lens, k) <= v) && Found(t, root, kind, lens, j, v)
    requires Settled(t, root, low, next, v)
    ensures Found(u, root, kind, lens, j, v) && Settled(u, root, low, next, v)
  {
    hide Replicated, CodeAt, LenAt, Val, EntryAt;
    var c, d := CodeAt(lens, k), LenAt(lens, k) - root;
    RootBefore(t, root, low, next, curr, v);
    ReplicatedBefore(t, u, next, curr, d, Val(c[root..]), here, Val(v[..root]));
    var e := At(t, Val(v[..root]));
    if v[..root] == low {
      ReplicatedAt(t, u, next, curr, d, c[root..], here, v[root..root + curr]);
      PrefixParts(c, v, root, curr);
    } else if IsLink(e) {
      ReplicatedBefore(t, u, next, curr, d, Val(c[root..]), here, e.val + Val(v[root..root + e.op]));
    }
  }

  lemma EnterSub(t: seq<Entry>, u: seq<Entry>, root: nat, kind: Kind, lens: seq<nat>, k: nat, low: seq<bool>, next: nat,
          curr: nat, here: Entry, j: int, v: seq<bool>)
    requires Fits(lens) && k < |Sorted(lens)| && Entered(t, root, kind, lens, k, low, next)
    requires Current(t, root, low, next, curr) && low != [] && low <= CodeAt(lens, k)
    requires root < LenAt(lens, k) <= root + curr && here == EntryAt(kind, lens, k, LenAt(lens, k) - root)
    requires Replicated(t, u, next, curr, LenAt(lens, k) - root, Val(CodeAt(lens, k)[root..]), here)
    requires 0 <= j <= k && |v| == MAXBITS && CodeAt(lens, j) <= v
    ensures Found(u, root, kind, lens, j, v) && Settled(u, root, low, next, v)
  {
    hide Entered, Replicated, CodeAt, LenAt, Val, Fits, Current, Found, Settled;
    if j < k {
      CodesApart(lens, j, k, v);
      EnteredAt(t, root, kind, lens, k, low, next, j, v);
      EnterSubOld(t, u, root, kind, lens, k, low, next, curr, here, j, v);
    } else {
      EnterSubNew(t, u, root, kind, lens, k, low, next, curr, here, v);
    }
  }

  lemma EntryParts(kind: Kind, lens: seq<nat>, k: int, root: nat, d: nat)
    ensures var e := EntryAt(kind, lens, k, d); Entry(e.op, root + e.bits, e.val) == EntryAt(kind, lens, k, root + d)
  {
  }

  lemma RootBefore(t: seq<Entry>, root: nat, low: seq<bool>, next: nat, curr: nat, v: seq<bool>)
    requires Current(t, root, low, next, curr) && low != [] && |v| == MAXBITS
    ensures Val(v[..root]) < next
  {
  }

  lemma PrefixParts(c: seq<bool>, v: seq<bool>, root: nat, curr: nat)
    requires root <= |c| <= root + curr <= |v| && c[..root] == v[..root]
    ensures c <= v <==> c[root..] <= v[root..root + curr]
  {
    assert c == c[..root] + c[root..];
    if c[root..] <= v[root..root + curr] {
      assert v[..|c|] == v[..root] + v[root..|c|];
      assert v[root..|c|] == v[root..root + curr][..|c| - root];
    }
    if c <= v {
      assert v[root..root + curr][..|c| - root] == v[..|c|][root..];
    }
  }

  /** The number of bits that are dropped before the current table is indexed. */
  function Drop(root: nat, low: seq<bool>): nat {
    if low == [] then 0 else root
  }

  /** The code at place `k` goes into the current table. */
  ghost predicate Belongs(lens: seq<nat>, k: nat, root: nat, low: seq<bool>, curr: nat) {
    && low <= CodeAt(lens, k) && Drop(root, low) <= LenAt(lens, k) <= Drop(root, low) + curr
    && (low != [] ==> root < LenAt(lens, k))
  }

  /** Entering the next code. */
  lemma EnterCode(t: seq<Entry>, u: seq<Entry>, root: nat, kind: Kind, lens: seq<nat>, k: nat, low: seq<bool>,
          next: nat, curr: nat)
    requires Fits(lens) && k < |Sorted(lens)| && Entered(t, root, kind, lens, k, low, next)
    requires Current(t, root, low, next, curr)
    requires Belongs(lens, k, root, low, curr)
    requires var d := Drop(root, low);
      Replicated(t, u, next, curr, LenAt(lens, k) - d, Val(CodeAt(lens, k)[d..]),
        EntryAt(kind, lens, k, LenAt(lens, k) - d))
    ensures Entered(u, root, kind, lens, k + 1, low, next) && Current(u, root, low, next, curr)
  {
    hide Entered, CodeAt, LenAt, EntryAt, Val, Found, Settled, Fits, Replicated, Current, Sorted;
    var d := Drop(root, low);
    var h, here := Val(CodeAt(lens, k)[d..]), EntryAt(kind, lens, k, LenAt(lens, k) - d);
    forall j, v | 0 <= j < k + 1 && |v| == MAXBITS && CodeAt(lens, j) <= v
      ensures Found(u, root, kind, lens, j, v) && Settled(u, root, low, next, v)
    {
      EnterOne(t, u, root, kind, lens, k, low, next, curr, LenAt(lens, k) - d, h, here, j, v);
    }
    EnteredFrom(u, root, kind, lens, k + 1, low, next);
    StillCurrent(t, u, root, low, next, curr, LenAt(lens, k) - d, h, here);
  }

  lemma EnterOne(t: seq<Entry>, u: seq<Entry>, root: nat, kind: Kind, lens: seq<nat>, k: nat, low: seq<bool>, next: nat,
                 curr: nat, d: nat, h: nat, here: Entry, j: int, v: seq<bool>)
    requires Fits(lens) && k < |Sorted(lens)| && Entered(t, root, kind, lens, k, low, next)
    requires Current(t, root, low, next, curr)
    requires Belongs(lens, k, root, low, curr) && d == LenAt(lens, k) - Drop(root, low)
    requires h == Val(CodeAt(lens, k)[Drop(root, low)..]) && here == EntryAt(kind, lens, k, d)
    requires Replicated(t, u, next, curr, d, h, here)
    requires 0 <= j <= k && |v| == MAXBITS && CodeAt(lens, j) <= v
    ensures Found(u, root, kind, lens, j, v) && Settled(u, root, low, next, v)
  {
    hide Entered, CodeAt, LenAt, EntryAt, Val, Found, Settled, Fits, Replicated, Sorted;
    if low == [] {
      assert CodeAt(lens, k)[0..] == CodeAt(lens, k);
      EnterRoot(t, u, root, kind, lens, k, here, j, v);
    } else {
      EnterSub(t, u, root, kind, lens, k, low, next, curr, here, j, v);
    }
  }

  lemma StillCurrent(t: seq<Entry>, u: seq<Entry>, root: nat, low: seq<bool>, next: nat, curr: nat, d: nat, h: nat,
          here: Entry)
    requires Current(t, root, low, next, curr) && Replicated(t, u, next, curr, d, h, here)
    ensures Current(u, root, low, next, curr)
  {
    hide Replicated, LowBits;
    if low != [] {
      ReplicatedBefore(t, u, next, curr, d, h, here, Val(low));
    }
    ReplicatedSize(t, u, next, curr, d, h, here);
  }

  lemma EnteredFrom(t: seq<Entry>, root: nat, kind: Kind, lens: seq<nat>, k: int, low: seq<bool>, next: nat)
    requires forall j, v {:trigger Found(t, root, kind, lens, j, v)} ::
      0 <= j < k && |v| == MAXBITS && CodeAt(lens, j) <= v ==>
      Found(t, root, kind, lens, j, v) && Settled(t, root, low, next, v)
    ensures Entered(t, root, kind, lens, k, low, next)
  {
  }

  lemma ReplicatedSize(t: seq<Entry>, u: seq<Entry>, next: nat, curr: nat, d: nat, h: nat, here: Entry)
    requires Replicated(t, u, next, curr, d, h, here)
    ensures |u| == |t|
  {
  }

  // ----- a new sub-table

  /** Strings before `a` and then zeros do not begin with `a`. */
  lemma BeforeZeros(a: seq<bool>, n: nat, v: seq<bool>)
    requires |a| + n <= |v| && ToNat(v) < ShiftLeft(ToNat(a + Zeros(n)), |v| - |a| - n)
    ensures v[..|a|] != a
  {
    hide *;
    if v[..|a|] == a {
      ToNatAppendZeros(a, n);
      ShiftTwice(ToNat(a), n, |v| - |a| - n);
      assert a <= v;
      BeginsWith(a, v);
    }
  }

  /** The strings that begin with the first bits of the code at `k` come after all codes
      before, when the rest of this code are zeros. */
  lemma LowIsNew(lens: seq<nat>, k: nat, root: nat, c: seq<bool>, j: int, v: seq<bool>)
    requires Fits(lens) && 0 <= j < k < |Sorted(lens)| && |v| == MAXBITS && CodeAt(lens, j) <= v
    requires c == CodeAt(lens, k) && root <= |c| && root <= MAXBITS && c[root..] == Zeros(|c| - root)
    ensures v[..root] != c[..root]
  {
    hide LenAt, Sorted, Frontier, CodeAt, ShiftLeft, ToNat, BitsOf, LowBits, Pow2, Fits, Share;
    CodeRange(lens, j, v);
    FrontierMonotone(lens, j + 1, k);
    var x := CodeNumberAt(lens, k);
    CodeFits(lens, k, x);
    ToNatBitsOf(x, |c|);
    assert c == c[..root] + Zeros(|c| - root);
    BeforeZeros(c[..root], |c| - root, v);
  }

  /** A new sub-table is begun after the current one. */
  lemma NewSubTable(t: seq<Entry>, root: nat, kind: Kind, lens: seq<nat>, k: nat, low: seq<bool>, next: nat, curr: nat,
                    curr': nat, c: seq<bool>)
    requires Fits(lens) && k < |Sorted(lens)| && Entered(t, root, kind, lens, k, low, next)
    requires Current(t, root, low, next, curr)
    requires c == CodeAt(lens, k) && root < |c| && c[root..] == Zeros(|c| - root)
    requires 1 <= curr' && root + curr' <= MAXBITS && next + Pow2(curr) + Pow2(curr') <= |t|
    ensures var low' := c[..root]; var next' := next + Pow2(curr);
      && Val(low') < |t|
      && Entered(t[Val(low') := Entry(curr', root, next')], root, kind, lens, k, low', next')
      && Current(t[Val(low') := Entry(curr', root, next')], root, low', next', curr')
  {
    hide Entered, Current, Fits, Sorted, LenAt, CodeAt, Val;
    SubTableBegins(t, root, low, next, curr, c[..root], curr');
    NewEntered(t, root, kind, lens, k, low, next, curr, curr', c);
  }

  lemma NewEntered(t: seq<Entry>, root: nat, kind: Kind, lens: seq<nat>, k: nat, low: seq<bool>, next: nat, curr: nat,
                   curr': nat, c: seq<bool>)
    requires Fits(lens) && k < |Sorted(lens)| && Entered(t, root, kind, lens, k, low, next)
    requires Current(t, root, low, next, curr)
    requires c == CodeAt(lens, k) && root < |c| && root <= MAXBITS && c[root..] == Zeros(|c| - root)
    requires Val(c[..root]) < |t|
    ensures Entered(t[Val(c[..root]) := Entry(curr', root, next + Pow2(curr))], root, kind, lens, k, c[..root],
      next + Pow2(curr))
  {
    hide Entered, Current, Fits, Sorted, LenAt, CodeAt, Val, Found, Settled, Pow2;
    var u := t[Val(c[..root]) := Entry(curr', root, next + Pow2(curr))];
    forall j, v | 0 <= j < k && |v| == MAXBITS && CodeAt(lens, j) <= v
      ensures Found(u, root, kind, lens, j, v) && Settled(u, root, c[..root], next + Pow2(curr), v)
    {
      LowIsNew(lens, k, root, c, j, v);
      EnteredAt(t, root, kind, lens, k, low, next, j, v);
      NewSettled(t, root, kind, lens, low, next, curr, c[..root], Entry(curr', root, next + Pow2(curr)), j, v);
    }
    EnteredFrom(u, root, kind, lens, k, c[..root], next + Pow2(curr));
  }

  lemma SubTableBegins(t: seq<Entry>, root: nat, low: seq<bool>, next: nat, curr: nat, low': seq<bool>, curr': nat)
    requires Current(t, root, low, next, curr) && |low'| == root
    requires 1 <= curr' && root + curr' <= MAXBITS && next + Pow2(curr) + Pow2(curr') <= |t|
    ensures var next' := next + Pow2(curr);
      Val(low') < |t| && Current(t[Val(low') := Entry(curr', root, next')], root, low', next', curr')
  {
  }

  lemma NewSettled(t: seq<Entry>, root: nat, kind: Kind, lens: seq<nat>, low: seq<bool>, next: nat, curr: nat,
          low': seq<bool>, e: Entry, j: int, v: seq<bool>)
    requires Current(t, root, low, next, curr) && Found(t, root, kind, lens, j, v) && Settled(t, root, low, next, v)
    requires |low'| == root && v[..root] != low' && Val(low') < |t|
    ensures var u := t[Val(low') := e];
      Found(u, root, kind, lens, j, v) && Settled(u, root, low', next + Pow2(curr), v)
  {
    hide Val, LenAt, EntryAt;
    if Val(v[..root]) == Val(low') { ValInjective(v[..root], low'); }
    RootEntries(t, root, low, next, curr, low');
  }

  lemma RootEntries(t: seq<Entry>, root: nat, low: seq<bool>, next: nat, curr: nat, low': seq<bool>)
    requires Current(t, root, low, next, curr) && |low'| == root
    ensures Val(low') < Pow2(root) && (low != [] ==> Pow2(root) <= next)
  {
  }
}
