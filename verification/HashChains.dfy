/** The hash chains of deflate: they lead to all strings that have the hash the chain is for,
    from the last one backwards. */
module HashChains {
  import opened RollingHash
  import opened Lz77

  /** The hash of the three bytes at `a`. */
  function HashAt(p: HashParams, data: seq<octet>, a: int): int {
    if p.Valid() && 0 <= a && a + 3 <= |data| then p.Hash(data[a], data[a + 1], data[a + 2]) as int else -1
  }

  /** A place in the chains: the last string before `lim` that was inserted and has the hash
      `h`, or none. Strings are inserted by their place in the input, chains have their places in
      the window, which begins at `base`; its first place cannot be told from none. */
  ghost predicate LeadsTo(p: HashParams, data: seq<octet>, base: int, ins: set<int>, e: int, h: int, lim: int) {
    && (e == 0 || (base + e in ins && 0 < e < lim && HashAt(p, data, base + e) == h))
    && forall a :: a in ins && base < a < base + lim && HashAt(p, data, a) == h ==> a <= base + e
  }

  function Slot(q: int, w: int): int
    requires w > 0
  {
    q % w
  }

  /** The chains over the strings in `ins`, which are before window position `lim`. The links
      of strings less than a window size back are as they were inserted. */
  ghost predicate Linked(p: HashParams, data: seq<octet>, base: int, lim: int, w: int, head: seq<nat>, prev: seq<nat>,
          ins: set<int>) {
    && p.Valid() && w > 0 && |head| == p.Size() && |prev| == w && 0 <= base
    && (forall a :: a in ins ==> 0 <= a < base + lim && a + 3 <= |data|)
    && (forall h :: 0 <= h < |head| ==> LeadsTo(p, data, base, ins, head[h], h, lim))
    && (forall a :: a in ins && a >= base && a - base + w >= lim ==>
      LeadsTo(p, data, base, ins, prev[Slot(a - base, w)], HashAt(p, data, a), a - base))
  }

  lemma SlotsApart(a: int, b: int, w: int)
    requires w > 0 && a < b && Slot(a, w) == Slot(b, w)
    ensures a + w <= b
  {
    var x, y := a / w, b / w;
    assert a == x * w + a % w && b == y * w + b % w;
    TimesLess(x, y, w);
    TimesLess(y, x, w);
  }

  lemma SlotDown(q: int, w: int)
    requires w > 0
    ensures Slot(q - w, w) == Slot(q, w)
  {
    var x := q / w;
    assert q - w == (x - 1) * w + q % w;
    Divided(q - w, w, x - 1, q % w);
  }

  lemma Divided(v: int, w: int, x: int, r: int)
    requires 0 <= r < w && v == x * w + r
    ensures v % w == r
  {
    var y := v / w;
    assert v == y * w + v % w;
    TimesLess(x, y, w);
    TimesLess(y, x, w);
  }

  lemma TimesLess(a: int, b: int, w: int)
    requires w > 0
    ensures a < b ==> a * w + w <= b * w
  {
    if a < b { assert (a + 1) * w <= b * w; }
  }

  /** Inserting the string at `x`, after all others. */
  lemma Inserted(p: HashParams, data: seq<octet>, base: int, w: int, head: seq<nat>, prev: seq<nat>, ins: set<int>,
          x: nat, h: nat)
    requires Linked(p, data, base, x, w, head, prev, ins) && base + x + 3 <= |data| && h == HashAt(p, data, base + x)
    ensures h < |head| && 0 <= Slot(x, w) < |prev|
    ensures Linked(p, data, base, x + 1, w, head[h := x], prev[Slot(x, w) := head[h]], ins + {base + x})
  {
    HashRange(p, data, base + x);
    var head', prev', ins' := head[h := x], prev[Slot(x, w) := head[h]], ins + {base + x};
    hide HashAt;
    forall g | 0 <= g < |head'| ensures LeadsTo(p, data, base, ins', head'[g], g, x + 1) {
      assert LeadsTo(p, data, base, ins, head[g], g, x);
    }
    forall a | a in ins' && a >= base && a - base + w >= x + 1
      ensures LeadsTo(p, data, base, ins', prev'[Slot(a - base, w)], HashAt(p, data, a), a - base)
    {
      if a == base + x {
        assert LeadsTo(p, data, base, ins, head[h], h, x);
      } else {
        if Slot(a - base, w) == Slot(x, w) { SlotsApart(a - base, x, w); }
        assert LeadsTo(p, data, base, ins, prev[Slot(a - base, w)], HashAt(p, data, a), a - base);
      }
    }
  }

  lemma HashRange(p: HashParams, data: seq<octet>, a: int)
    requires p.Valid() && 0 <= a && a + 3 <= |data|
    ensures 0 <= HashAt(p, data, a) < p.Size()
  {
    IndexFits(p, p.Update(data[a] as bv32, data[a + 1]), data[a + 2]);
  }

  /** More input, and a later position. */
  lemma LinkedOn(p: HashParams, data: seq<octet>, base: int, lim: int, w: int, head: seq<nat>, prev: seq<nat>,
          ins: set<int>, more: seq<octet>, lim': int)
    requires Linked(p, data, base, lim, w, head, prev, ins) && lim <= lim'
    ensures Linked(p, data + more, base, lim', w, head, prev, ins)
  {
    forall a | a in ins ensures HashAt(p, data + more, a) == HashAt(p, data, a) { }
    hide HashAt;
    forall h | 0 <= h < |head| ensures LeadsTo(p, data + more, base, ins, head[h], h, lim') {
      assert LeadsTo(p, data, base, ins, head[h], h, lim);
    }
    forall a | a in ins && a >= base && a - base + w >= lim'
      ensures LeadsTo(p, data + more, base, ins, prev[Slot(a - base, w)], HashAt(p, data + more, a), a - base)
    {
      assert LeadsTo(p, data, base, ins, prev[Slot(a - base, w)], HashAt(p, data, a), a - base);
    }
  }

  function Down(m: nat, w: nat): nat {
    if m >= w then m - w else 0
  }

  ghost predicate SlidDown(a: seq<nat>, b: seq<nat>, w: nat) {
    |a| == |b| && forall i :: 0 <= i < |a| ==> b[i] == Down(a[i], w)
  }

  /** The window is moved down by its size. */
  lemma LinkedDown(p: HashParams, data: seq<octet>, base: int, lim: int, w: nat, head: seq<nat>, prev: seq<nat>,
          ins: set<int>, head': seq<nat>, prev': seq<nat>)
    requires Linked(p, data, base, lim, w, head, prev, ins) && SlidDown(head, head', w) && SlidDown(prev, prev', w)
    ensures Linked(p, data, base + w, lim - w, w, head', prev', ins)
  {
    hide HashAt;
    forall h | 0 <= h < |head'| ensures LeadsTo(p, data, base + w, ins, head'[h], h, lim - w) {
      assert LeadsTo(p, data, base, ins, head[h], h, lim);
      DownLeads(p, data, base, ins, w, head[h], h, lim);
    }
    forall a | a in ins && a >= base + w && a - (base + w) + w >= lim - w
      ensures LeadsTo(p, data, base + w, ins, prev'[Slot(a - (base + w), w)], HashAt(p, data, a), a - (base + w))
    {
      var q := a - base;
      SlotDown(q, w);
      assert LeadsTo(p, data, base, ins, prev[Slot(q, w)], HashAt(p, data, a), q);
      DownLeads(p, data, base, ins, w, prev[Slot(q, w)], HashAt(p, data, a), q);
    }
  }

  lemma DownLeads(p: HashParams, data: seq<octet>, base: int, ins: set<int>, w: nat, e: nat, h: int, lim: int)
    requires LeadsTo(p, data, base, ins, e, h, lim)
    ensures LeadsTo(p, data, base + w, ins, Down(e, w), h, lim - w)
  {
    hide HashAt;
    if e > w { assert base + w + Down(e, w) == base + e; }
  }

  /** A candidate has the same third byte when its first two bytes and its hash are the same. */
  lemma ThirdByte(p: HashParams, data: seq<octet>, a: int, b: int)
    requires p.Valid() && 0 <= a && a + 3 <= |data| && 0 <= b && b + 3 <= |data|
    requires HashAt(p, data, a) == HashAt(p, data, b) && data[a] == data[b] && data[a + 1] == data[b + 1]
    ensures data[a + 2] == data[b + 2]
  {
    IndexTells(p.Hash(data[a], data[a + 1], data[a + 2]), p.Hash(data[b], data[b + 1], data[b + 2]));
    ThirdSame(p, data[a], data[a + 1], data[a + 2], data[b + 2]);
  }

  // ----- the rolling hash

  /** The hash is ready for the string at `a`: with its third byte it will be its hash. */
  ghost predicate Rolled(p: HashParams, data: seq<octet>, a: int, h: bv32) {
    p.Valid() && (0 <= a && a + 3 <= |data| ==> p.Update(h, data[a + 2]) == p.Hash(data[a], data[a + 1], data[a + 2]))
  }

  /** The hash is begun anew with the first two bytes, if there are three. */
  lemma RolledAnew(p: HashParams, data: seq<octet>, a: int, x: octet, y: octet)
    requires p.Valid() && (0 <= a && a + 3 <= |data| ==> x == data[a] && y == data[a + 1])
    ensures Rolled(p, data, a, p.Update(x as bv32, y))
  {
  }

  lemma RollOn(p: HashParams, data: seq<octet>, a: int)
    requires p.Valid() && 0 <= a && a + 3 <= |data|
    ensures Rolled(p, data, a + 1, p.Hash(data[a], data[a + 1], data[a + 2]))
  {
    if a + 4 <= |data| { Forget(p, data[a], data[a + 1], data[a + 2], data[a + 3]); }
  }

  /** The hash is completed by the third byte. */
  lemma Completed(p: HashParams, data: seq<octet>, a: int, g: bv32, c: octet)
    requires Rolled(p, data, a, g) && 0 <= a && a + 3 <= |data| && c == data[a + 2]
    ensures p.Update(g, c) == p.Hash(data[a], data[a + 1], data[a + 2]) && p.Update(g, c) as nat == HashAt(p, data, a)
  {
  }

  /** The table leads to the last string that has the hash. */
  lemma ChainHead(p: HashParams, data: seq<octet>, base: int, w: int, head: seq<nat>, prev: seq<nat>, ins: set<int>,
          x: nat)
    requires Linked(p, data, base, x, w, head, prev, ins) && base + x + 3 <= |data|
    ensures 0 <= HashAt(p, data, base + x) < |head| && 0 <= Slot(x, w) < |prev|
    ensures LeadsTo(p, data, base, ins, head[HashAt(p, data, base + x)], HashAt(p, data, base + x), x)
  {
    HashRange(p, data, base + x);
    hide HashAt;
  }
}
