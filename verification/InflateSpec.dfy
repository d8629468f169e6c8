/** What a block of a deflate stream says, item by item: the next literal, match or end of
    block that a string of bits begins with (section 3.2.5 of RFC 1951). */
module InflateSpec {
  import opened Bits
  import opened RollingHash
  import opened Lz77
  import opened LowFirst
  import opened DeflateCode
  import opened DecodingTable
  import opened InflateTable

  // ----- codes

  /** As many bits as the longest code has, zeros where there are none. */
  function First(v: seq<bool>): (w: seq<bool>)
    ensures |w| == MAXBITS
  {
    (v + Zeros(MAXBITS))[..MAXBITS]
  }

  /** The entry that the bits lead to. */
  function CodeEntry(t: seq<Entry>, root: nat, v: seq<bool>): Entry
    requires root <= MAXBITS
  {
    Lookup(t, root, First(v))
  }

  /** What a table can say. */
  ghost predicate KnownEntry(kind: Kind, e: Entry) {
    1 <= e.bits <= MAXBITS && ((e.op == INVALID_OP && e.val == 0)
      || exists s :: InAlphabet(kind, s) && e == SymbolEntry(kind, s, e.bits))
  }

  ghost predicate KnownAt(kind: Kind, t: seq<Entry>, root: nat, v: seq<bool>) {
    root <= |v| && KnownEntry(kind, Lookup(t, root, v))
  }

  /** Tables as they are built for the codes of a block. */
  ghost predicate Usable(kind: Kind, t: seq<Entry>, root: nat) {
    && 1 <= root <= MAXBITS && Readable(t, root)
    && forall v {:trigger KnownAt(kind, t, root, v)} :: |v| == MAXBITS ==> KnownAt(kind, t, root, v)
  }

  /** The tables that are built are usable. */
  lemma BuiltUsable(kind: Kind, t: seq<Entry>, root: nat, l: seq<nat>)
    requires 1 <= root <= MAXBITS && Readable(t, root) && Decodes(t, root, kind, l) && CodeLengths(l)
    ensures Usable(kind, t, root)
  {
    hide Readable, Lookup, CodeOf;
    forall v: seq<bool> | |v| == MAXBITS ensures KnownAt(kind, t, root, v) {
      if Coded(l, v) {
        var s :| 0 <= s < |l| && l[s] > 0 && CodeOf(l, s) <= v;
        assert SymbolFound(t, root, kind, l, s, v);
        SymbolBits(kind, s, l[s]);
      } else {
        assert Rejected(t, root, v);
      }
    }
  }

  lemma EntryIs(kind: Kind, t: seq<Entry>, root: nat, v: seq<bool>)
    requires Usable(kind, t, root)
    ensures KnownEntry(kind, CodeEntry(t, root, v))
  {
    hide Lookup, KnownEntry, Readable, First;
    assert KnownAt(kind, t, root, First(v));
  }

  /** The operations of length entries. */
  lemma LengthOps(e: Entry)
    requires KnownEntry(Lens, e)
    ensures e.op == 0 || 16 <= e.op <= 21 || e.op == 96 || e.op == 64 || e.op == 199 || e.op == 202
    ensures e.op == 0 ==> e.val < 256
    ensures 16 <= e.op <= 21 ==> 3 <= e.val && e.val + Pow2(e.op - 16) - 1 <= MAX_MATCH
  {
    Pow2Values();
  }

  lemma DistanceOps(e: Entry)
    requires KnownEntry(Dists, e)
    ensures 16 <= e.op <= 29 || e.op == 64
    ensures e.op != 64 ==> 1 <= e.val
  {
  }

  // ----- items

  datatype Item = Data(t: Token) | EndOfBlock | BadLength | BadDistance

  datatype ReadResult = Read(item: Item, rest: seq<bool>) | Short

  datatype Tables = Tables(lcode: seq<Entry>, lenbits: nat, dcode: seq<Entry>, distbits: nat) {
    ghost predicate Valid() {
      Usable(Lens, lcode, lenbits) && Usable(Dists, dcode, distbits)
    }
  }

  /** A distance, after a length. */
  function ReadDistance(c: Tables, v: seq<bool>, len: nat): ReadResult
    requires c.distbits <= MAXBITS
  {
    var d := CodeEntry(c.dcode, c.distbits, v);
    if d.bits > |v| then Short
    else if d.op >= 32 || d.op < 16 then Read(BadDistance, v[d.bits..])
    else if d.bits + (d.op - 16) > |v| then Short
    else
      var w := v[d.bits..];
      Read(Data(Match(d.val + Val(w[..d.op - 16]), len)), w[d.op - 16..])
  }

  /** The first item. */
  function ReadItem(c: Tables, v: seq<bool>): ReadResult
    requires c.lenbits <= MAXBITS && c.distbits <= MAXBITS
  {
    var e := CodeEntry(c.lcode, c.lenbits, v);
    if e.bits > |v| then Short
    else
      var w := v[e.bits..];
      if e.op == 0 then Read(Data(Literal(Octet(e.val))), w)
      else if e.op == 96 then Read(EndOfBlock, w)
      else if e.op >= 32 || e.op < 16 then Read(BadLength, w)
      else if e.op - 16 > |w| then Short
      else ReadDistance(c, w[e.op - 16..], e.val + Val(w[..e.op - 16]))
  }

  // ----- steps

  datatype Mode = Len | Type | Bad

  /** After a step: what bits are left and what has been put out. `Starved` when the bits do
      not hold an item. */
  datatype Outcome = Now(mode: Mode, rest: seq<bool>, out: seq<octet>) | Starved

  /** How far back a match may begin. */
  function FarthestBack(wsize: nat, out: seq<octet>): nat {
    if |out| < wsize then |out| else wsize
  }

  function Apply(wsize: nat, item: Item, rest: seq<bool>, out: seq<octet>): Outcome {
    match item
    case EndOfBlock => Now(Type, rest, out)
    case BadLength => Now(Bad, rest, out)
    case BadDistance => Now(Bad, rest, out)
    case Data(t) => if t.Match? && t.dist > FarthestBack(wsize, out) then Now(Bad, rest, out)
      else Now(Len, rest, Put(out, t))
  }

  /** One item. */
  function Step(c: Tables, wsize: nat, v: seq<bool>, out: seq<octet>): Outcome
    requires c.lenbits <= MAXBITS && c.distbits <= MAXBITS
  {
    var r := ReadItem(c, v);
    if r.Short? then Starved else Apply(wsize, r.item, r.rest, out)
  }

  /** `k` items, or those before the block ends. */
  function Steps(c: Tables, wsize: nat, v: seq<bool>, out: seq<octet>, k: nat): Outcome
    requires c.lenbits <= MAXBITS && c.distbits <= MAXBITS
  {
    if k == 0 then Now(Len, v, out)
    else
      var o := Steps(c, wsize, v, out, k - 1);
      if o.Now? && o.mode == Len then Step(c, wsize, o.rest, o.out) else o
  }

  /** Nothing happens after the end of the block. */
  lemma {:induction false} StepsStay(c: Tables, wsize: nat, v: seq<bool>, out: seq<octet>, k: nat, j: nat)
    requires c.lenbits <= MAXBITS && c.distbits <= MAXBITS
    requires var o := Steps(c, wsize, v, out, k); o.Starved? || o.mode != Len
    ensures Steps(c, wsize, v, out, k + j) == Steps(c, wsize, v, out, k)
  {
    hide Step;
    if j > 0 { StepsStay(c, wsize, v, out, k, j - 1); }
  }

  /** However many items are read, a block ends in one way only. */
  lemma OneEnd(c: Tables, wsize: nat, v: seq<bool>, out: seq<octet>, j: nat, k: nat)
    requires c.lenbits <= MAXBITS && c.distbits <= MAXBITS
    requires var o := Steps(c, wsize, v, out, j); o.Starved? || o.mode != Len
    requires var o := Steps(c, wsize, v, out, k); o.Starved? || o.mode != Len
    ensures Steps(c, wsize, v, out, j) == Steps(c, wsize, v, out, k)
  {
    hide Step, Steps;
    if j <= k {
      StepsStay(c, wsize, v, out, j, k - j);
    } else {
      StepsStay(c, wsize, v, out, k, j - k);
    }
  }

  /** A match that begins too far back ends the block as bad. */
  lemma TooFarEnds(c: Tables, wsize: nat, v: seq<bool>, out: seq<octet>, k: nat)
    requires c.lenbits <= MAXBITS && c.distbits <= MAXBITS
    requires var o := Steps(c, wsize, v, out, k); o.Now? && o.mode == Len && TooFar(c, wsize, o.rest, o.out)
    ensures var o := Steps(c, wsize, v, out, k + 1); o.Now? && o.mode == Bad
  {
    hide ReadItem;
  }

  /** The match of the next item begins too far back. */
  ghost predicate TooFar(c: Tables, wsize: nat, v: seq<bool>, out: seq<octet>) {
    && c.lenbits <= MAXBITS && c.distbits <= MAXBITS && ReadItem(c, v).Read? && ReadItem(c, v).item.Data?
    && ReadItem(c, v).item.t.Match? && ReadItem(c, v).item.t.dist > FarthestBack(wsize, out)
  }

  // ----- reading a code bit by bit

  /** The first entry that is looked at. */
  function RootEntry(t: seq<Entry>, root: nat, v: seq<bool>): Entry
    requires root <= MAXBITS
  {
    At(t, Val(First(v)[..root]))
  }

  /** The entry that it leads to. */
  function SubEntry(t: seq<Entry>, e: Entry, v: seq<bool>): Entry
    requires e.bits + e.op <= MAXBITS
  {
    At(t, e.val + Val(First(v)[e.bits..e.bits + e.op]))
  }

  lemma RootLink(t: seq<Entry>, root: nat, v: seq<bool>)
    requires 1 <= root <= MAXBITS && Readable(t, root)
    ensures var e := RootEntry(t, root, v);
      && (IsLink(e) ==> e.bits == root && root + e.op <= MAXBITS)
      && CodeEntry(t, root, v) == if IsLink(e) then var f := SubEntry(t, e, v); Entry(f.op, e.bits + f.bits, f.val)
        else e
  {
    hide First, Val;
    assert AtRoot(t, root, First(v));
  }

  lemma SameFirst(b: seq<bool>, v: seq<bool>, n: nat)
    requires b <= v && n <= |b| && n <= MAXBITS
    ensures First(b)[..n] == First(v)[..n]
  {
  }

  lemma SameCode(t: seq<Entry>, root: nat, b: seq<bool>, v: seq<bool>, n: nat)
    requires 1 <= root <= MAXBITS && Readable(t, root) && b <= v && n <= |b| && n <= MAXBITS
    ensures CodeEntry(t, root, b).bits == n || CodeEntry(t, root, v).bits == n ==>
      CodeEntry(t, root, b) == CodeEntry(t, root, v)
  {
    hide First, Lookup;
    SameFirst(b, v, n);
    assert Prefixed(t, root, First(b), First(v));
    assert Prefixed(t, root, First(v), First(b));
  }

  lemma SameRoot(t: seq<Entry>, root: nat, b: seq<bool>, v: seq<bool>)
    requires root <= MAXBITS && b <= v && root <= |b|
    ensures RootEntry(t, root, b) == RootEntry(t, root, v)
  {
    SameFirst(b, v, root);
    hide First;
  }

  /** With some of the bits the first entry is the right one, or needs more bits than there
      are, and then the right one does so too. */
  lemma RootByBits(kind: Kind, t: seq<Entry>, root: nat, b: seq<bool>, v: seq<bool>)
    requires Usable(kind, t, root) && b <= v
    ensures var e, f := RootEntry(t, root, b), RootEntry(t, root, v);
      if e.bits <= |b| then e == f else f.bits > |b|
  {
    hide First, Lookup, RootEntry, SubEntry, Readable, KnownEntry;
    var e, f := RootEntry(t, root, b), RootEntry(t, root, v);
    RootLink(t, root, b);
    RootLink(t, root, v);
    EntryBits(kind, t, root, b);
    EntryBits(kind, t, root, v);
    if root <= |b| {
      SameRoot(t, root, b, v);
    } else {
      if e.bits <= |b| { SameCode(t, root, b, v, e.bits); }
      if f.bits <= |b| { SameCode(t, root, b, v, f.bits); }
    }
  }

  lemma EntryBits(kind: Kind, t: seq<Entry>, root: nat, v: seq<bool>)
    requires Usable(kind, t, root)
    ensures 1 <= CodeEntry(t, root, v).bits <= MAXBITS
  {
    hide First, Lookup;
    EntryIs(kind, t, root, v);
  }

  /** The same for the entry of the sub-table. */
  lemma SubByBits(kind: Kind, t: seq<Entry>, root: nat, b: seq<bool>, v: seq<bool>)
    requires Usable(kind, t, root) && b <= v && root <= |b| && IsLink(RootEntry(t, root, v))
    ensures var last := RootEntry(t, root, v);
      && last == RootEntry(t, root, b) && last.bits == root && root + last.op <= MAXBITS
      && var e, f := SubEntry(t, last, b), SubEntry(t, last, v);
        if root + e.bits <= |b| then e == f else root + f.bits > |b|
  {
    hide First, Lookup, RootEntry, SubEntry, Readable, KnownEntry;
    var last := RootEntry(t, root, v);
    SameRoot(t, root, b, v);
    RootLink(t, root, b);
    RootLink(t, root, v);
    EntryBits(kind, t, root, b);
    EntryBits(kind, t, root, v);
    var e, f := SubEntry(t, last, b), SubEntry(t, last, v);
    if root + e.bits <= |b| { SameCode(t, root, b, v, root + e.bits); }
    if root + f.bits <= |b| { SameCode(t, root, b, v, root + f.bits); }
  }
}
