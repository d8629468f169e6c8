/** The decoding loop of inflateBack: bit by bit, or fast where there is enough input and
    room; both do the same. */
module InflateBack {
  import opened Bits
  import opened Wrappers
  import opened RollingHash
  import opened Lz77
  import opened LowFirst
  import opened DeflateCode
  import opened DecodingTable
  import opened InflateTable
  import opened InflateSpec

  /** The end of a string. */
  ghost predicate Suffix(a: seq<bool>, b: seq<bool>) {
    |b| <= |a| && b == a[|a| - |b|..]
  }

  lemma SuffixDrop(a: seq<bool>, b: seq<bool>, n: nat)
    requires Suffix(a, b) && n <= |b|
    ensures Suffix(a, b[n..])
  {
  }

  /** The code for the entry `e`, which says what `here` says, has been dropped from `v`. */
  ghost predicate Passed(e: Entry, here: Entry, v: seq<bool>, rest: seq<bool>) {
    here.op == e.op && here.val == e.val && e.bits <= |v| && rest == v[e.bits..]
  }

  /** What the entry of a length or literal code tells of the item. */
  lemma ItemIs(c: Tables, v: seq<bool>, here: Entry, rest: seq<bool>)
    requires c.Valid() && Passed(CodeEntry(c.lcode, c.lenbits, v), here, v, rest)
    ensures here.op == 0 || 16 <= here.op <= 21 || here.op == 96 || here.op == 64 || here.op == 199 || here.op == 202
    ensures here.op == 0 ==> ReadItem(c, v) == Read(Data(Literal(Octet(here.val))), rest)
    ensures here.op == 96 ==> ReadItem(c, v) == Read(EndOfBlock, rest)
    ensures here.op == 64 || here.op == 199 || here.op == 202 ==> ReadItem(c, v) == Read(BadLength, rest)
    ensures 16 <= here.op <= 21 && here.op - 16 > |rest| ==> ReadItem(c, v) == Short
    ensures 16 <= here.op <= 21 && here.op - 16 <= |rest| ==>
      && ReadItem(c, v) == ReadDistance(c, rest[here.op - 16..], here.val + Val(rest[..here.op - 16]))
      && 3 <= here.val + Val(rest[..here.op - 16]) <= MAX_MATCH
  {
    hide CodeEntry, KnownEntry, Val;
    EntryIs(Lens, c.lcode, c.lenbits, v);
    LengthOps(CodeEntry(c.lcode, c.lenbits, v));
  }

  lemma DistanceIs(c: Tables, v: seq<bool>, len: nat, here: Entry, rest: seq<bool>)
    requires c.Valid() && Passed(CodeEntry(c.dcode, c.distbits, v), here, v, rest)
    ensures here.op == 64 || 16 <= here.op <= 29
    ensures here.op == 64 ==> ReadDistance(c, v, len) == Read(BadDistance, rest)
    ensures here.op != 64 && here.op - 16 > |rest| ==> ReadDistance(c, v, len) == Short
    ensures here.op != 64 && here.op - 16 <= |rest| ==>
      && ReadDistance(c, v, len) == Read(Data(Match(here.val + Val(rest[..here.op - 16]), len)), rest[here.op - 16..])
      && here.val >= 1
  {
    hide CodeEntry, KnownEntry, Val;
    EntryIs(Dists, c.dcode, c.distbits, v);
    DistanceOps(CodeEntry(c.dcode, c.distbits, v));
  }

  lemma SuffixTwice(a: seq<bool>, b: seq<bool>, d: seq<bool>)
    requires Suffix(a, b) && Suffix(b, d)
    ensures Suffix(a, d)
  {
  }

  lemma SuffixOfSum(a: seq<bool>, b: seq<bool>, v: seq<bool>)
    requires v == a + b
    ensures Suffix(v, b)
  {
  }

  lemma PassedSuffix(e: Entry, here: Entry, v: seq<bool>, rest: seq<bool>)
    requires Passed(e, here, v, rest)
    ensures Suffix(v, rest)
  {
  }

  lemma SuffixSame(a: seq<bool>, b: seq<bool>, d: seq<bool>)
    requires Suffix(a, b) && Suffix(a, d) && |b| == |d|
    ensures b == d
  {
  }

  /** Whether the fast loop notices a distance that is too far: it does so only if the state
      asks for it, and if the distance is more than twice as far as there are bytes. */
  predicate Caught(sane: bool, whave: nat, put: nat, dist: nat) {
    sane && dist > put + whave
  }

  class Inflater {
    const c: Tables
    const window: array<octet>
    const wsize: nat
    const input: seq<byte>
    /** How much input there is, each time there is none. */
    const chunk: nat -> nat
    const sane: bool

    var hold: nat
    var bits: nat
    var next: nat
    var have: nat
    var asked: nat
    var put: nat
    var left: nat
    var whave: nat
    var mode: Mode

    /** The bits in `hold`. */
    ghost var buf: seq<bool>
    /** All that has been put out. */
    ghost var out: seq<octet>

    /** The state before the first item, with the tables for its block. Of the input `avail`
        bytes have been given. */
    constructor (c: Tables, window: array<octet>, input: seq<byte>, avail: nat, chunk: nat -> nat, sane: bool)
      requires c.Valid() && window.Length > 0 && avail <= |input|
      ensures Ready() && mode == Len && out == [] && Remaining() == InBits(input)
      ensures this.c == c && this.window == window && this.input == input && wsize == window.Length
    {
      this.c, this.window, this.wsize := c, window, window.Length;
      this.input, this.chunk, this.sane := input, chunk, sane;
      hold, bits, next, have, asked := 0, 0, 0, avail, 0;
      put, left, whave, mode := 0, window.Length, 0, Len;
      buf, out := [], [];
      new;
      assert input[0..] == input;
    }

    // ----- the bits

    ghost predicate Reading()
      reads this`hold, this`bits, this`next, this`have, this`buf
    {
      hold == Val(buf) && bits == |buf| && next + have <= |input|
    }

    /** The last time that more input was asked for, there was none, or `starved`. */
    ghost predicate Dry(starved: bool)
      reads this`asked
    {
      asked > 0 && (chunk(asked - 1) == 0 || starved)
    }

    /** The bits that have not been read. */
    ghost function Remaining(): seq<bool>
      reads this`buf, this`next
    {
      buf + (if next <= |input| then InBits(input[next..]) else [])
    }

    lemma PeekIs(n: nat)
      requires Reading() && n <= MAXBITS
      ensures LowBits(hold, n) == Val(First(buf)[..n])
    {
      hide Val, LowBits;
      var padded := buf + Zeros(MAXBITS);
      ValAppendZeros(buf, MAXBITS);
      ValSplit(padded, n);
      assert First(buf)[..n] == padded[..n];
    }

    lemma PeekPart(m: nat, n: nat)
      requires Reading() && m + n <= MAXBITS
      ensures ShiftRight(LowBits(hold, m + n), m) == Val(First(buf)[m..m + n])
    {
      hide Val, LowBits, ShiftRight, First;
      PeekIs(m + n);
      ValSplit(First(buf)[..m + n], m);
      assert First(buf)[..m + n][m..] == First(buf)[m..m + n];
    }

    /** Takes the next byte into the bits. */
    method TakeByte()
      requires Reading() && have > 0
      modifies this`hold, this`bits, this`next, this`have, this`buf
      ensures Reading() && Remaining() == old(Remaining())
      ensures bits == old(bits) + 8 && have == old(have) - 1 && next == old(next) + 1 && old(buf) <= buf
    {
      hide Val, Digits, ShiftLeft;
      ghost var d := Digits(input[next], 8);
      ByteValue(input[next]);
      ValConcat(buf, d);
      assert input[next..] == [input[next]] + input[next + 1..];
      assert buf + InBits(input[next..]) == (buf + d) + InBits(input[next + 1..]);
      hold := hold + ShiftLeft(input[next], bits);
      bits := bits + 8;
      next := next + 1;
      have := have - 1;
      buf := buf + d;
    }

    lemma ByteValue(b: byte)
      ensures Val(Digits(b, 8)) == b
    {
      Pow2Values();
      ValDigits(b, 8);
    }

    /** Takes the next byte, and asks for more input if there is none. */
    method PullByte() returns (ok: bool)
      requires Reading()
      modifies this`hold, this`bits, this`next, this`have, this`buf, this`asked
      ensures Reading() && Remaining() == old(Remaining()) && old(buf) <= buf
      ensures ok ==> bits == old(bits) + 8 && next == old(next) + 1
      ensures !ok ==> bits == old(bits) && Dry(|Remaining()| == bits)
    {
      hide Val;
      if have == 0 {
        InBitsSize(input[next..]);
        have := if chunk(asked) <= |input| - next then chunk(asked) else |input| - next;
        asked := asked + 1;
        if have == 0 {
          return false;
        }
      }
      TakeByte();
      ok := true;
    }

    method Drop(n: nat)
      requires Reading() && n <= bits
      modifies this`hold, this`bits, this`buf
      ensures Reading() && bits == old(bits) - n && buf == old(buf)[n..] && Remaining() == old(Remaining())[n..]
    {
      hide Val, ShiftRight;
      ValSplit(buf, n);
      hold := ShiftRight(hold, n);
      bits := bits - n;
      assert (buf + InBits(input[next..]))[n..] == buf[n..] + InBits(input[next..]);
      buf := buf[n..];
    }

    lemma BufferFirst()
      requires Reading()
      ensures buf <= Remaining() && |Remaining()| >= bits
    {
    }

    /** Looks at the first entry for a code, until there are enough bits for it; bytes are only
        taken in as they are needed. */
    method ReadRootCode(t: seq<Entry>, root: nat, ghost kind: Kind, ghost v: seq<bool>) returns (ok: bool, here: Entry)
      requires Usable(kind, t, root) && Reading() && Remaining() == v && bits < 8
      modifies this`hold, this`bits, this`next, this`have, this`buf, this`asked
      ensures ok ==> Reading() && Remaining() == v && (bits < 8 || CodeEntry(t, root, v).bits > bits - 8)
      ensures ok ==> here.bits <= bits && here == RootEntry(t, root, v)
      ensures !ok ==> Dry(|v| < CodeEntry(t, root, v).bits)
    {
      hide Val, LowBits, ShiftRight, Usable, CodeEntry, RootEntry, SubEntry, Remaining, First;
      UsableParts(kind, t, root);
      RootLink(t, root, v);
      while true
        invariant Reading() && Remaining() == v && (bits < 8 || CodeEntry(t, root, v).bits > bits - 8)
        decreases |input| - next
      {
        PeekIs(root);
        here := At(t, LowBits(hold, root));
        RootIs(t, root);
        BufferFirst();
        RootByBits(kind, t, root, buf, v);
        if here.bits <= bits {
          break;
        }
        ok := PullByte();
        if !ok {
          if |v| == bits { BufferAll(v); }
          return;
        }
      }
      ok := true;
    }

    lemma BufferAll(v: seq<bool>)
      requires Reading() && Remaining() == v && |v| == bits
      ensures buf == v
    {
    }

    /** Reads one code. */
    method ReadCode(t: seq<Entry>, root: nat, ghost kind: Kind) returns (ok: bool, here: Entry)
      requires Usable(kind, t, root) && Reading() && bits < 8
      modifies this`hold, this`bits, this`next, this`have, this`buf, this`asked
      ensures ok ==>
        Reading() && bits < 8 && Passed(CodeEntry(t, root, old(Remaining())), here, old(Remaining()), Remaining())
      ensures !ok ==> Dry(|old(Remaining())| < CodeEntry(t, root, old(Remaining())).bits)
    {
      hide Val, LowBits, ShiftRight, Usable, CodeEntry, RootEntry, SubEntry, Remaining, First;
      ghost var v := Remaining();
      UsableParts(kind, t, root);
      RootLink(t, root, v);
      ok, here := ReadRootCode(t, root, kind, v);
      if !ok {
        return;
      }
      BufferFirst();
      if IsLink(here) {
        var last := here;
        ok, here := ReadSubCode(t, root, last, kind, v);
        if !ok {
          return;
        }
        BufferFirst();
        Drop(last.bits);
        DropTwice(v, last.bits, here.bits);
      }
      Drop(here.bits);
    }

    lemma DropTwice(v: seq<bool>, m: nat, n: nat)
      requires m + n <= |v|
      ensures v[m..][n..] == v[m + n..]
    {
    }

    /** Reads the rest of a code that has led to a sub-table; nothing is dropped. */
    method ReadSubCode(t: seq<Entry>, root: nat, last: Entry, ghost kind: Kind, ghost v: seq<bool>)
      returns (ok: bool, here: Entry)
      requires Usable(kind, t, root) && Reading() && Remaining() == v && last == RootEntry(t, root, v) && IsLink(last)
      requires root == last.bits <= bits && last.bits + last.op <= MAXBITS
      requires bits < 8 || CodeEntry(t, root, v).bits > bits - 8
      modifies this`hold, this`bits, this`next, this`have, this`buf, this`asked
      ensures ok ==> Reading() && Remaining() == v && (bits < 8 || CodeEntry(t, root, v).bits > bits - 8)
      ensures ok ==> last.bits + here.bits <= bits && here == SubEntry(t, last, v)
      ensures !ok ==> Dry(|v| < CodeEntry(t, root, v).bits)
    {
      hide Val, LowBits, ShiftRight, Usable, CodeEntry, RootEntry, SubEntry, Remaining, First;
      UsableParts(kind, t, root);
      RootLink(t, root, v);
      while true
        invariant Reading() && Remaining() == v && (bits < 8 || CodeEntry(t, root, v).bits > bits - 8) && root <= bits
        decreases |input| - next
      {
        BufferFirst();
        SubByBits(kind, t, root, buf, v);
        PeekPart(last.bits, last.op);
        here := At(t, last.val + ShiftRight(LowBits(hold, last.bits + last.op), last.bits));
        SubIs(t, last);
        if last.bits + here.bits <= bits {
          break;
        }
        ok := PullByte();
        if !ok {
          return;
        }
      }
      ok := true;
    }

    lemma UsableParts(kind: Kind, t: seq<Entry>, root: nat)
      requires Usable(kind, t, root)
      ensures 1 <= root <= MAXBITS && Readable(t, root)
    {
    }

    lemma RootIs(t: seq<Entry>, root: nat)
      requires root <= MAXBITS
      ensures At(t, Val(First(buf)[..root])) == RootEntry(t, root, buf)
    {
    }

    lemma SubIs(t: seq<Entry>, last: Entry)
      requires last.bits + last.op <= MAXBITS
      ensures At(t, last.val + Val(First(buf)[last.bits..last.bits + last.op])) == SubEntry(t, last, buf)
    {
    }

    /** Reads `n` bits as a number. */
    method ReadExtra(n: nat) returns (ok: bool, x: nat)
      requires Reading() && bits < 8 && n <= MAXBITS
      modifies this`hold, this`bits, this`next, this`have, this`buf, this`asked
      ensures ok ==> Reading() && bits < 8 && n <= |old(Remaining())| && x == Val(old(Remaining())[..n])
      ensures ok ==> Remaining() == old(Remaining())[n..]
      ensures !ok ==> Dry(|old(Remaining())| < n)
    {
      hide Val, LowBits, Remaining;
      ghost var v := Remaining();
      x := 0;
      if n != 0 {
        while bits < n
          invariant Reading() && Remaining() == v && (bits < 8 || n > bits - 8)
          decreases |input| - next
        {
          ok := PullByte();
          if !ok {
            return;
          }
        }
        TakeNumber(n);
        x := LowBits(hold, n);
        Drop(n);
      } else {
        NoNumber();
      }
      ok := true;
    }

    lemma TakeNumber(n: nat)
      requires Reading() && n <= bits
      ensures n <= |Remaining()| && LowBits(hold, n) == Val(Remaining()[..n])
    {
      hide LowBits, Val;
      ValSplit(buf, n);
      assert Remaining()[..n] == buf[..n];
    }

    lemma NoNumber()
      ensures Val(Remaining()[..0]) == 0 && Remaining()[0..] == Remaining()
    {
    }

    // ----- the window

    /** The window is filled round and round: up to `put` it has the last bytes, and behind it,
        if it has been full, those before them. */
    ghost predicate Windowed()
      reads this`put, this`left, this`whave, this`out, window
    {
      window.Length == wsize > 0 && put + left == wsize && whave <= wsize && Round(window[..], out, put, whave == wsize)
    }

    static ghost predicate Round(w: seq<octet>, o: seq<octet>, n: nat, full: bool) {
      && n <= |w| && n <= |o| && w[..n] == o[|o| - n..]
      && if full then |o| >= |w| && w[n..] == o[|o| - |w|..|o| - n] else |o| == n
    }

    /** Where the byte is that was put out `dist` bytes ago. */
    function Place(dist: nat): int
      reads this`put
    {
      if dist <= put then put - dist else put + wsize - dist
    }

    lemma PlaceHolds(dist: nat)
      requires Windowed() && 1 <= dist <= FarthestBack(wsize, out)
      ensures 0 <= Place(dist) < wsize && window[Place(dist)] == out[|out| - dist]
    {
      if dist <= put {
        assert window[..put][put - dist] == out[|out| - put..][put - dist];
      } else {
        assert window[put..][wsize - dist] == out[|out| - wsize..|out| - put][wsize - dist];
      }
    }

    lemma ReachIs()
      requires Windowed()
      ensures FarthestBack(wsize, out) == wsize - (if whave < wsize then left else 0)
    {
    }

    /** Makes room: a full window is handed over. */
    method Room()
      requires Windowed()
      modifies this`put, this`left, this`whave
      ensures Windowed() && left > 0
    {
      if left == 0 {
        assert window[..put] == window[..] && window[0..] == window[..];
        put := 0;
        left := wsize;
        whave := left;
        assert out[|out|..] == [] == window[..0];
      }
    }

    /** Puts out one byte. */
    method PutByte(b: octet)
      requires Windowed() && left > 0
      modifies this`put, this`left, this`out, window
      ensures Windowed() && out == old(out) + [b] && put == old(put) + 1 && left == old(left) - 1
    {
      hide Round;
      RoundOn(window[..], out, put, whave == wsize, b);
      window[put] := b;
      put := put + 1;
      left := left - 1;
      out := out + [b];
    }

    static lemma RoundOn(w: seq<octet>, o: seq<octet>, n: nat, full: bool, b: octet)
      requires Round(w, o, n, full) && n < |w|
      ensures Round(w[n := b], o + [b], n + 1, full)
    {
      NewFront(w, n, b);
      OneMore(o, n, b);
      if full { OneLess(o, |w|, n, b); }
    }

    static lemma NewFront(w: seq<octet>, n: nat, b: octet)
      requires n < |w|
      ensures w[n := b][..n + 1] == w[..n] + [b] && w[n := b][n + 1..] == w[n..][1..]
    {
    }

    static lemma OneMore(o: seq<octet>, n: nat, b: octet)
      requires n <= |o|
      ensures (o + [b])[|o| - n..] == o[|o| - n..] + [b]
    {
    }

    static lemma OneLess(o: seq<octet>, m: nat, n: nat, b: octet)
      requires n < m <= |o|
      ensures (o + [b])[|o| + 1 - m..|o| - n] == o[|o| - m..|o| - n][1..]
    {
    }

    // ----- bit by bit

    /** Copies from the window to the output, a stretch at a time: up to where the window ends,
        or where the bytes to copy end. */
    method CopyMatch(offset: nat, length0: nat)
      requires Windowed() && 1 <= offset <= FarthestBack(wsize, out) && length0 > 0
      modifies this`put, this`left, this`whave, this`out, window
      ensures Windowed() && out == CopyBack(old(out), offset, length0)
    {
      hide Windowed, CopyBack;
      ghost var goal := CopyBack(out, offset, length0);
      var length: nat := length0;
      while length != 0
        invariant Windowed() && 1 <= offset <= FarthestBack(wsize, out) && CopyBack(out, offset, length) == goal
        decreases length
      {
        Room();
        WindowSizes();
        var copy: nat := wsize - offset;
        var from: int;
        if copy < left {
          from := put + copy;
          copy := left - copy;
        } else {
          from := put - offset;
          copy := left;
        }
        if copy > length {
          copy := length;
        }
        length := length - copy;
        CopyStretch(offset, from, copy, length, goal);
      }
      NothingToCopy(out, offset);
    }

    lemma WindowSizes()
      requires Windowed()
      ensures window.Length == wsize > 0 && put + left == wsize && put <= |out|
      ensures FarthestBack(wsize, out) <= wsize
      ensures (FarthestBack(wsize, out) > put ==> FarthestBack(wsize, out) == wsize)
    {
    }

    /** Copies `copy` bytes; `rest` more are to be copied after them. */
    method CopyStretch(offset: nat, from0: int, copy: nat, ghost rest: nat, ghost goal: seq<octet>)
      requires Windowed() && 1 <= offset <= FarthestBack(wsize, out) && from0 == Place(offset) && copy <= left
      requires offset > put ==> copy <= offset - put
      requires CopyBack(out, offset, copy + rest) == goal
      modifies this`put, this`left, this`out, window
      ensures Windowed() && offset <= FarthestBack(wsize, out) && CopyBack(out, offset, rest) == goal
    {
      hide Windowed, CopyBack;
      WindowSizes();
      var from := from0;
      for k := 0 to copy
        invariant Windowed() && offset <= FarthestBack(wsize, out) && from == from0 + k && put == old(put) + k
        invariant left == old(left) - k
        invariant k < copy ==> from == Place(offset)
        invariant CopyBack(out, offset, copy - k + rest) == goal
      {
        CopyOne(from, offset, copy - k + rest);
        from := from + 1;
      }
    }

    lemma CopyNext(s: seq<octet>, dist: nat, n: nat)
      requires 1 <= dist <= |s| && n > 0
      ensures CopyBack(s, dist, n) == CopyBack(s + [s[|s| - dist]], dist, n - 1)
    {
    }

    lemma NothingToCopy(s: seq<octet>, dist: nat)
      ensures CopyBack(s, dist, 0) == s
    {
    }

    // ----- one step

    /** The state is what the outcome says. */
    ghost predicate Is(o: Outcome)
      reads this`mode, this`buf, this`next, this`out
    {
      o == Now(mode, Remaining(), out)
    }

    ghost predicate Ready()
      reads this`hold, this`bits, this`next, this`have, this`buf, this`put, this`left, this`whave, this`out, window
    {
      c.Valid() && Reading() && Windowed() && bits < 8
    }

    /** One round of the loop, taking in bytes as they are needed. Without success the bits do
        not hold the item, or there was no more input to be had. */
    method LenStep() returns (ok: bool)
      requires Ready() && mode == Len
      modifies this`hold, this`bits, this`next, this`have, this`buf, this`asked, this`put, this`left, this`whave,
               this`out, this`mode, window
      ensures ok ==> Ready() && Is(Step(c, wsize, old(Remaining()), old(out)))
      ensures c.lenbits <= MAXBITS && c.distbits <= MAXBITS
      ensures !ok ==> Dry(Step(c, wsize, old(Remaining()), old(out)) == Starved)
    {
      hide Tables.Valid, Windowed, Remaining, CodeEntry, ReadItem, ReadDistance, Val, Octet, Reading, CopyBack, Passed,
           Is, Step;
      hide Apply, FarthestBack;
      ghost var v := Remaining();
      TablesParts();
      var here;
      ok, here := ReadCode(c.lcode, c.lenbits, Lens);
      if !ok {
        CodeShort(v);
        StepShort(v, out);
        return;
      }
      ItemIs(c, v, here, Remaining());
      if here.op == 0 {
        Room();
        PutByte(Octet(here.val));
        LiteralIs(v, old(out), Octet(here.val));
        return;
      }
      if here.op / 32 % 2 == 1 {
        mode := Type;
        StopIs(v, out);
        return;
      }
      if here.op / 64 % 2 == 1 {
        mode := Bad;
        StopIs(v, out);
        return;
      }
      ok := LengthStep(here, v);
    }

    /** The rest of a match, after the code for its length. */
    method LengthStep(here: Entry, ghost v: seq<bool>) returns (ok: bool)
      requires Ready() && mode == Len && here.op < 32 && here.op / 16 % 2 == 1
      requires Passed(CodeEntry(c.lcode, c.lenbits, v), here, v, Remaining())
      modifies this`hold, this`bits, this`next, this`have, this`buf, this`asked, this`put, this`left, this`whave,
               this`out, this`mode, window
      ensures c.lenbits <= MAXBITS && c.distbits <= MAXBITS
      ensures ok ==> Ready() && Is(Step(c, wsize, v, old(out)))
      ensures !ok ==> Dry(Step(c, wsize, v, old(out)) == Starved)
    {
      hide Tables.Valid, Windowed, Remaining, CodeEntry, ReadItem, ReadDistance, Val, Reading, Passed, Is, Step, Apply;
      TablesParts();
      ItemIs(c, v, here, Remaining());
      ExtraOp(here.op);
      var x;
      ok, x := ReadExtra(here.op % 16);
      if !ok {
        StepShort(v, out);
        return;
      }
      ghost var w := Remaining();
      var length := here.val + x;
      ok := DistanceStep(length);
      if ok { DistanceStepIs(v, old(out), ReadDistance(c, w, length)); } else { StepShort(v, old(out)); }
    }

    /** When the bits do not hold the code, they do not hold the item. */
    lemma CodeShort(v: seq<bool>)
      requires c.lenbits <= MAXBITS && c.distbits <= MAXBITS
      ensures |v| < CodeEntry(c.lcode, c.lenbits, v).bits ==> ReadItem(c, v) == Short
    {
      hide CodeEntry;
    }

    lemma OffsetShort(v: seq<bool>, length: nat)
      requires c.distbits <= MAXBITS
      ensures |v| < CodeEntry(c.dcode, c.distbits, v).bits ==> ReadDistance(c, v, length) == Short
    {
      hide CodeEntry;
    }

    lemma StepShort(v: seq<bool>, o: seq<octet>)
      requires c.lenbits <= MAXBITS && c.distbits <= MAXBITS
      ensures ReadItem(c, v) == Short ==> Step(c, wsize, v, o) == Starved
    {
      hide ReadItem;
    }

    lemma LiteralIs(v: seq<bool>, o: seq<octet>, b: octet)
      requires c.lenbits <= MAXBITS && c.distbits <= MAXBITS
      requires ReadItem(c, v) == Read(Data(Literal(b)), Remaining()) && mode == Len && out == o + [b]
      ensures Is(Step(c, wsize, v, o))
    {
      hide ReadItem, Remaining;
    }

    lemma StopIs(v: seq<bool>, o: seq<octet>)
      requires c.lenbits <= MAXBITS && c.distbits <= MAXBITS && out == o
      requires ReadItem(c, v) == Read(if mode == Type then EndOfBlock else BadLength, Remaining()) && mode != Len
      ensures Is(Step(c, wsize, v, o))
    {
      hide ReadItem, Remaining;
    }

    lemma DistanceStepIs(v: seq<bool>, o: seq<octet>, r: ReadResult)
      requires c.lenbits <= MAXBITS && c.distbits <= MAXBITS && r.Read?
      requires ReadItem(c, v) == r && Is(Apply(wsize, r.item, r.rest, o))
      ensures Is(Step(c, wsize, v, o))
    {
      hide ReadItem, Remaining, Apply;
    }

    lemma TablesParts()
      requires c.Valid()
      ensures Usable(Lens, c.lcode, c.lenbits) && Usable(Dists, c.dcode, c.distbits)
      ensures c.lenbits <= MAXBITS && c.distbits <= MAXBITS
    {
    }

    /** The match at a distance, where 0 stands for one whose code is invalid. */
    static function OffsetItem(offset: nat, length: nat): Item {
      if offset == 0 then BadDistance else Data(Match(offset, length))
    }

    /** Reads a distance; it is 0 when the code for it is invalid. */
    method ReadOffset(ghost length: nat) returns (ok: bool, offset: nat)
      requires c.Valid() && Reading() && bits < 8
      modifies this`hold, this`bits, this`next, this`have, this`buf, this`asked
      ensures c.distbits <= MAXBITS
      ensures ok ==> Reading() && bits < 8
      ensures ok ==> ReadDistance(c, old(Remaining()), length) == Read(OffsetItem(offset, length), Remaining())
      ensures !ok ==> Dry(ReadDistance(c, old(Remaining()), length) == Short)
    {
      hide Tables.Valid, Remaining, CodeEntry, ReadDistance, Val, Reading, Passed;
      ghost var v := Remaining();
      TablesParts();
      offset := 0;
      var here;
      ok, here := ReadCode(c.dcode, c.distbits, Dists);
      if !ok {
        OffsetShort(v, length);
        return;
      }
      DistanceIs(c, v, length, here, Remaining());
      if here.op / 64 % 2 == 1 {
        return;
      }
      ExtraOp(here.op);
      var x;
      ok, x := ReadExtra(here.op % 16);
      offset := here.val + x;
    }

    /** The distance and the copy, after a length. */
    method DistanceStep(length: nat) returns (ok: bool)
      requires Ready() && mode == Len && 3 <= length
      modifies this`hold, this`bits, this`next, this`have, this`buf, this`asked, this`put, this`left, this`whave,
               this`out, this`mode, window
      ensures c.lenbits <= MAXBITS && c.distbits <= MAXBITS
      ensures ok ==> Ready() && ReadDistance(c, old(Remaining()), length).Read?
      ensures ok ==> var r := ReadDistance(c, old(Remaining()), length); Is(Apply(wsize, r.item, r.rest, old(out)))
      ensures !ok ==> Dry(ReadDistance(c, old(Remaining()), length) == Short) && out == old(out)
    {
      hide Tables.Valid, Windowed, Remaining, CodeEntry, ReadDistance, Val, Reading, CopyBack, Is, Apply, FarthestBack;
      ghost var v := Remaining();
      TablesParts();
      var offset;
      ok, offset := ReadOffset(length);
      if !ok {
        return;
      }
      if offset == 0 {
        mode := Bad;
        MatchIs(v, out, length, 0);
        return;
      }
      SlowReach(offset, length);
      MatchIs(v, old(out), length, offset);
    }

    /** Copies, unless the distance is too far. */
    method SlowReach(offset: nat, length: nat)
      requires Windowed() && mode == Len && 3 <= length && 1 <= offset
      modifies this`put, this`left, this`whave, this`out, this`mode, window
      ensures Windowed()
      ensures if offset > FarthestBack(wsize, old(out)) then mode == Bad && out == old(out)
        else mode == Len && out == CopyBack(old(out), offset, length)
    {
      hide Windowed, CopyBack, FarthestBack;
      ReachIs();
      if offset > wsize - (if whave < wsize then left else 0) {
        mode := Bad;
      } else {
        CopyMatch(offset, length);
      }
    }

    lemma FarIs(v: seq<bool>, o: seq<octet>, p: nat, r: ReadResult)
      requires c.lenbits <= MAXBITS && c.distbits <= MAXBITS && r.Read? && ReadItem(c, v) == r
      ensures Overlooked(v, o, p) <==> r.item.Data? && r.item.t.Match? && Missed(r.item.t.dist, o, p)
    {
    }

    lemma MatchIs(v: seq<bool>, o: seq<octet>, length: nat, offset: nat)
      requires c.distbits <= MAXBITS
      requires var r := ReadDistance(c, v, length);
        if offset == 0 then r == Read(BadDistance, Remaining()) && mode == Bad && out == o
        else
          && r == Read(Data(Match(offset, length)), Remaining())
          && if offset > FarthestBack(wsize, o) then mode == Bad && out == o
            else mode == Len && out == CopyBack(o, offset, length)
      ensures var r := ReadDistance(c, v, length); r.Read? && Is(Apply(wsize, r.item, r.rest, o))
    {
      hide ReadDistance, Remaining, CopyBack;
    }

    // ----- fast

    /** A distance that is too far, and is not noticed. */
    ghost predicate Missed(dist: nat, o: seq<octet>, p: nat)
      reads this`whave
    {
      dist > FarthestBack(wsize, o) && !Caught(sane, whave, p, dist)
    }

    /** The next item is a match with such a distance. */
    ghost predicate Overlooked(v: seq<bool>, o: seq<octet>, p: nat)
      reads this`whave
    {
      TooFar(c, wsize, v, o) && Missed(ReadItem(c, v).item.t.dist, o, p)
    }

    /** Reads one code, with enough bits for every code. */
    method FastCode(t: seq<Entry>, root: nat, ghost kind: Kind) returns (here: Entry)
      requires Usable(kind, t, root) && Reading() && (bits < 15 ==> have >= 2)
      modifies this`hold, this`bits, this`next, this`have, this`buf
      ensures Reading() && Passed(CodeEntry(t, root, old(Remaining())), here, old(Remaining()), Remaining())
      ensures have == old(have) - (if old(bits) < 15 then 2 else 0) && next + have == old(next + have)
      ensures bits + 15 >= old(bits) + (if old(bits) < 15 then 16 else 0)
      ensures |Remaining()| < |old(Remaining())|
    {
      hide Val, LowBits, Usable, CodeEntry, RootEntry, SubEntry, Remaining, First;
      ghost var v := Remaining();
      UsableParts(kind, t, root);
      RootLink(t, root, v);
      EntryBits(kind, t, root, v);
      if bits < 15 {
        TakeByte();
        TakeByte();
      }
      PeekIs(root);
      here := At(t, LowBits(hold, root));
      RootIs(t, root);
      BufferFirst();
      SameRoot(t, root, buf, v);
      Drop(here.bits);
      if IsLink(here) {
        var last := here;
        FastSub(t, root, last, v);
        here := At(t, last.val + LowBits(hold, last.op));
        Drop(here.bits);
        DropTwice(v, last.bits, here.bits);
      }
    }

    lemma FastSub(t: seq<Entry>, root: nat, last: Entry, v: seq<bool>)
      requires Reading() && root <= MAXBITS && root + last.op <= MAXBITS && last.bits == root && bits >= MAXBITS - root
      requires root <= |v| && Remaining() == v[root..]
      ensures At(t, last.val + LowBits(hold, last.op)) == SubEntry(t, last, v)
    {
      hide LowBits, Val;
      TakeNumber(last.op);
      FirstPart(v, root, last.op);
    }

    lemma FirstPart(v: seq<bool>, m: nat, n: nat)
      requires m + n <= |v| && m + n <= MAXBITS
      ensures First(v)[m..m + n] == v[m..][..n]
    {
      forall k | 0 <= k < n ensures First(v)[m..m + n][k] == v[m..][..n][k] {
        assert First(v)[m + k] == v[m + k];
      }
    }

    /** Copies one byte. */
    method CopyOne(from: int, ghost dist: nat, ghost n: nat)
      requires Windowed() && left > 0 && 1 <= dist <= FarthestBack(wsize, out) && from == Place(dist) && n > 0
      modifies this`put, this`left, this`out, window
      ensures Windowed() && put == old(put) + 1 && left == old(left) - 1 && dist <= FarthestBack(wsize, out)
      ensures CopyBack(out, dist, n - 1) == CopyBack(old(out), dist, n)
      ensures dist != old(put) + 1 ==> from + 1 == Place(dist)
      ensures dist == old(put) + 1 ==> Place(dist) == 0
    {
      hide Windowed, CopyBack;
      WindowSizes();
      PlaceHolds(dist);
      CopyNext(out, dist, n);
      PutByte(window[from]);
    }

    /** Copies `k` bytes of `n`. */
    method CopyBytes(from0: int, k: nat, ghost dist: nat, ghost n: nat)
      requires Windowed() && k <= left && 1 <= dist <= FarthestBack(wsize, out) && from0 == Place(dist) && k <= n
      requires dist <= put || k <= dist - put
      modifies this`put, this`left, this`out, window
      ensures Windowed() && put == old(put) + k && left == old(left) - k && dist <= FarthestBack(wsize, out)
      ensures CopyBack(out, dist, n - k) == CopyBack(old(out), dist, n)
      ensures k > 0 && dist > old(put) && k == dist - old(put) ==> Place(dist) == 0
      ensures dist <= old(put) || k < dist - old(put) ==> Place(dist) == from0 + k
    {
      hide Windowed, CopyBack;
      var from := from0;
      for i := 0 to k
        invariant Windowed() && put == old(put) + i && left == old(left) - i && dist <= FarthestBack(wsize, out)
        invariant CopyBack(out, dist, n - i) == CopyBack(old(out), dist, n) && from == from0 + i
        invariant i < k || dist <= old(put) || k < dist - old(put) ==> from == Place(dist)
        invariant i > 0 && dist > old(put) && i == dist - old(put) ==> Place(dist) == 0
      {
        CopyOne(from, dist, n - i);
        from := from + 1;
      }
    }

    /** Copies the rest, three bytes at a time. */
    method CopyRest(from0: int, len: nat, ghost dist: nat)
      requires Windowed() && len <= left && 1 <= dist <= FarthestBack(wsize, out) && (len > 0 ==> from0 == Place(dist))
      requires dist <= put || len <= dist - put
      modifies this`put, this`left, this`out, window
      ensures Windowed() && put == old(put) + len && left == old(left) - len && out == CopyBack(old(out), dist, len)
    {
      hide Windowed, CopyBack;
      var from, n: nat := from0, len;
      while n > 2
        invariant Windowed() && n <= len && put == old(put) + len - n && left == old(left) - (len - n)
        invariant 1 <= dist <= FarthestBack(wsize, out) && (dist <= put || n <= dist - put)
        invariant (n > 0 ==> from == Place(dist))
        invariant CopyBack(out, dist, n) == CopyBack(old(out), dist, len)
      {
        CopyBytes(from, 3, dist, n);
        from := from + 3;
        n := n - 3;
      }
      if n != 0 {
        CopyBytes(from, n, dist, n);
      }
      NothingToCopy(out, dist);
    }

    /** Copies a match: first what is at the end of the window, then from what has been put
        out. */
    method FastCopy(dist: nat, len: nat)
      requires Windowed() && len <= left && 1 <= dist <= FarthestBack(wsize, out)
      modifies this`put, this`left, this`out, window
      ensures Windowed() && put == old(put) + len && left == old(left) - len && out == CopyBack(old(out), dist, len)
    {
      hide Windowed, CopyBack;
      var n, from := len, 0;
      WindowSizes();
      if dist > put {
        var op := dist - put;
        from := wsize - op;
        if op < n {
          CopyBytes(from, op, dist, n);
          n := n - op;
          from := put - dist;
        }
      } else {
        from := put - dist;
      }
      CopyRest(from, n, dist);
    }

    /** Reads a distance, without looking at how much input there is; it is 0 when the code
        for it is invalid. */
    method FastOffset(ghost len: nat) returns (offset: nat)
      requires c.Valid() && Reading() && have >= 3 && (have >= 4 || bits >= 4)
      modifies this`hold, this`bits, this`next, this`have, this`buf
      ensures c.distbits <= MAXBITS
      ensures ReadDistance(c, old(Remaining()), len) == Read(OffsetItem(offset, len), Remaining())
      ensures Reading() && |Remaining()| < |old(Remaining())| && Suffix(old(Remaining()), Remaining())
      ensures next + have == old(next + have) && have <= old(have)
    {
      hide Tables.Valid, Remaining, CodeEntry, ReadDistance, Val, LowBits, Reading, Suffix, Passed;
      ghost var v := Remaining();
      TablesParts();
      offset := 0;
      var here := FastCode(c.dcode, c.distbits, Dists);
      DistanceIs(c, v, len, here, Remaining());
      ghost var w := Remaining();
      PassedSuffix(CodeEntry(c.dcode, c.distbits, v), here, v, w);
      if here.op / 16 % 2 == 1 {
        var op := here.op % 16;
        ExtraOp(here.op);
        var more := FastFar(op);
        offset := here.val + more;
        SuffixDrop(v, w, op);
      }
    }

    /** The extra bits of a distance; two bytes more are enough for them. */
    method FastFar(op: nat) returns (x: nat)
      requires Reading() && op <= 13 && (have >= 2 || (have >= 1 && bits >= 4 + 1))
      modifies this`hold, this`bits, this`next, this`have, this`buf
      ensures Reading() && op <= |old(Remaining())| && x == Val(old(Remaining())[..op])
      ensures Remaining() == old(Remaining())[op..]
      ensures next + have == old(next + have) && have <= old(have)
    {
      hide Remaining, Val, LowBits, Reading;
      if bits < op {
        TakeByte();
        if bits < op {
          TakeByte();
        }
      }
      TakeNumber(op);
      x := LowBits(hold, op);
      Drop(op);
    }

    /** A distance and the copy, without looking at how much input and room there is. */
    method FastDistance(len: nat) returns (far: bool)
      requires c.Valid() && Reading() && Windowed() && mode == Len && have >= 3 && (have >= 4 || bits >= 4)
      requires 3 <= len <= left
      modifies this`hold, this`bits, this`next, this`have, this`buf, this`put, this`left, this`out, this`mode, window
      ensures c.distbits <= MAXBITS && ReadDistance(c, old(Remaining()), len).Read?
      ensures far <==> var r := ReadDistance(c, old(Remaining()), len);
        r.item.Data? && r.item.t.Match? && Missed(r.item.t.dist, old(out), old(put))
      ensures !far ==> var r := ReadDistance(c, old(Remaining()), len);
        Reading() && Windowed() && Is(Apply(wsize, r.item, r.rest, old(out)))
      ensures !far ==> |Remaining()| < |old(Remaining())| && Suffix(old(Remaining()), Remaining())
      ensures next + have == old(next + have) && have <= old(have)
    {
      hide Tables.Valid, Windowed, Remaining, CodeEntry, ReadDistance, Val, LowBits, Reading, CopyBack, Is, Apply,
           Suffix, Passed, FarthestBack, Missed;
      ghost var v := Remaining();
      TablesParts();
      var dist := FastOffset(len);
      far := false;
      if dist != 0 {
        far := FastReach(dist, len);
        if !far { MatchIs(v, old(out), len, dist); }
      } else {
        mode := Bad;
        MatchIs(v, out, len, 0);
      }
    }

    /** Copies, if the distance is not too far. */
    method FastReach(dist: nat, len: nat) returns (far: bool)
      requires Windowed() && mode == Len && 3 <= len <= left && 1 <= dist
      modifies this`put, this`left, this`out, this`mode, window
      ensures far <==> Missed(dist, old(out), old(put))
      ensures !far ==> Windowed()
      ensures !far ==> if dist > FarthestBack(wsize, old(out)) then mode == Bad && out == old(out)
        else mode == Len && out == CopyBack(old(out), dist, len)
    {
      hide Windowed, CopyBack, FarthestBack;
      ReachIs();
      WindowSizes();
      far := false;
      if dist > put {
        var op := dist - put;
        if op > whave {
          if sane {
            mode := Bad;
            return;
          }
        }
        if dist > wsize - (if whave < wsize then left else 0) {
          return true;
        }
      }
      FastCopy(dist, len);
    }

    lemma ExtraOp(op: nat)
      requires op < 32 && op / 16 % 2 == 1
      ensures op >= 16 && op % 16 == op - 16
    {
    }

    /** The extra bits of a length; one byte more is enough for them. */
    method FastExtra(op: nat) returns (x: nat)
      requires Reading() && op <= 5 && have >= 4 && (have >= 5 || bits >= 1)
      modifies this`hold, this`bits, this`next, this`have, this`buf
      ensures Reading() && op <= |old(Remaining())| && x == Val(old(Remaining())[..op])
      ensures Remaining() == old(Remaining())[op..]
      ensures next + have == old(next + have) && have <= old(have) && have >= 3 && (have >= 4 || bits >= 4)
    {
      hide Remaining, Val, LowBits, Reading;
      NoNumber();
      x := 0;
      if op != 0 {
        if bits < op {
          TakeByte();
        }
        TakeNumber(op);
        x := LowBits(hold, op);
        Drop(op);
      }
    }

    /** The rest of a match, after the code for its length. */
    method FastLength(here: Entry, ghost v: seq<bool>) returns (far: bool)
      requires c.Valid() && Reading() && Windowed() && mode == Len && have >= 4 && (have >= 5 || bits >= 1)
      requires left >= MAX_MATCH
      requires Passed(CodeEntry(c.lcode, c.lenbits, v), here, v, Remaining()) && here.op / 16 % 2 == 1
      modifies this`hold, this`bits, this`next, this`have, this`buf, this`put, this`left, this`out, this`mode, window
      ensures far <==> Overlooked(v, old(out), old(put))
      ensures !far ==> Reading() && Windowed() && Is(Step(c, wsize, v, old(out)))
      ensures !far ==> |Remaining()| < |v| && Suffix(v, Remaining())
      ensures next + have == old(next + have) && have <= old(have)
    {
      hide Tables.Valid, Windowed, Remaining, CodeEntry, ReadItem, ReadDistance, Val, LowBits, Reading, CopyBack, Is,
           Step;
      hide Apply, Suffix, Passed, Overlooked, Missed, FarthestBack, TooFar;
      TablesParts();
      ItemIs(c, v, here, Remaining());
      PassedSuffix(CodeEntry(c.lcode, c.lenbits, v), here, v, Remaining());
      ghost var w := Remaining();
      var op := here.op % 16;
      ExtraOp(here.op);
      var more := FastExtra(op);
      var len := here.val + more;
      SuffixDrop(v, w, op);
      ghost var x := Remaining();
      far := FastDistance(len);
      FarIs(v, old(out), old(put), ReadDistance(c, x, len));
      if !far {
        DistanceStepIs(v, old(out), ReadDistance(c, x, len));
        SuffixTwice(v, x, Remaining());
        SuffixSize(v, x);
      }
    }

    lemma SuffixSize(v: seq<bool>, x: seq<bool>)
      requires Suffix(v, x)
      ensures |x| <= |v|
    {
    }

    /** One item, without looking at how much input and room there is. `far` when a match
        begins too far back and this is not noticed; what is copied then is not described. */
    method FastItem() returns (far: bool)
      requires c.Valid() && Reading() && Windowed() && mode == Len && have >= 6 && left >= MAX_MATCH
      modifies this`hold, this`bits, this`next, this`have, this`buf, this`put, this`left, this`out, this`mode, window
      ensures far <==> Overlooked(old(Remaining()), old(out), old(put))
      ensures !far ==> Reading() && Windowed() && Is(Step(c, wsize, old(Remaining()), old(out)))
      ensures !far ==> |Remaining()| < |old(Remaining())| && Suffix(old(Remaining()), Remaining())
      ensures next + have == old(next + have) && have <= old(have)
    {
      hide Tables.Valid, Windowed, Remaining, CodeEntry, ReadItem, ReadDistance, Val, LowBits, Octet, Reading, CopyBack,
           Is, Step, Apply, Suffix, Passed;
      ghost var v := Remaining();
      TablesParts();
      var here := FastCode(c.lcode, c.lenbits, Lens);
      ItemIs(c, v, here, Remaining());
      PassedSuffix(CodeEntry(c.lcode, c.lenbits, v), here, v, Remaining());
      far := false;
      if here.op == 0 {
        PutByte(Octet(here.val));
        LiteralIs(v, old(out), Octet(here.val));
      } else if here.op / 16 % 2 == 1 {
        far := FastLength(here, v);
      } else if here.op / 32 % 2 == 1 {
        mode := Type;
        StopIs(v, out);
      } else {
        mode := Bad;
        StopIs(v, out);
      }
    }

    // ----- the fast loop

    /** Gives back the bytes that are in the bits as a whole. */
    method GiveBack(ghost v: seq<bool>, ghost next0: nat, ghost buf0: seq<bool>)
      requires Reading() && Suffix(v, Remaining()) && next0 <= next && |buf0| < 8 && v == buf0 + InBits(input[next0..])
      modifies this`hold, this`bits, this`next, this`have, this`buf
      ensures Reading() && bits < 8 && Remaining() == old(Remaining())
    {
      hide Val, LowBits, Suffix;
      hide Reading, Remaining;
      ghost var rest := Remaining();
      var len := bits / 8;
      var m := bits - 8 * len;
      BackEnough(v, next0, buf0, len);
      BufferFirst();
      TakeNumber(m);
      ghost var kept := Remaining()[..m];
      KeptIs(v, next0, buf0, len, kept);
      next := next - len;
      have := have + len;
      bits := m;
      hold := LowBits(hold, m);
      buf := kept;
      PlacedBack(rest);
    }

    lemma PlacedBack(rest: seq<bool>)
      requires hold == Val(buf) && bits == |buf| && next + have <= |input| && rest == buf + InBits(input[next..])
      ensures Reading() && Remaining() == rest
    {
    }

    lemma BackEnough(v: seq<bool>, next0: nat, buf0: seq<bool>, len: nat)
      requires Reading() && Suffix(v, Remaining()) && next0 <= next && |buf0| < 8 && v == buf0 + InBits(input[next0..])
      requires 8 * len <= bits
      ensures next0 + len <= next && next + have <= |input|
    {
      InBitsSize(input[next0..]);
      InBitsSize(input[next..]);
    }

    lemma KeptIs(v: seq<bool>, next0: nat, buf0: seq<bool>, len: nat, kept: seq<bool>)
      requires Reading() && Suffix(v, Remaining()) && next0 + len <= next && v == buf0 + InBits(input[next0..])
      requires 8 * len <= bits <= |Remaining()| && kept == Remaining()[..bits - 8 * len]
      ensures kept + InBits(input[next - len..]) == Remaining()
    {
      hide Suffix, Val;
      var back, n := input[next - len..], bits - 8 * len;
      InBitsSize(back);
      InBitsSize(input[next..]);
      BytesBack(v, next0, buf0, next - len);
      SuffixDrop(v, Remaining(), n);
      SuffixSame(v, Remaining()[n..], InBits(back));
      assert Remaining() == Remaining()[..n] + Remaining()[n..];
    }

    lemma BytesBack(v: seq<bool>, next0: nat, buf0: seq<bool>, at: nat)
      requires next0 <= at <= |input| && v == buf0 + InBits(input[next0..])
      ensures Suffix(v, InBits(input[at..]))
    {
      hide Suffix;
      var front := input[next0..at];
      assert input[next0..] == front + input[at..];
      InBitsConcat(front, input[at..]);
      assert v == (buf0 + InBits(front)) + InBits(input[at..]);
      SuffixOfSum(buf0 + InBits(front), InBits(input[at..]), v);
    }

    /** Items as long as there are six bytes of input and room for the longest match. Unless a
        distance that is too far is not noticed, what has happened is some number of rounds of
        the loop. */
    method InflateFast() returns (far: bool, ghost k: nat)
      requires Ready() && mode == Len && have >= 6 && left >= MAX_MATCH
      modifies this`hold, this`bits, this`next, this`have, this`buf, this`put, this`left, this`out, this`mode, window
      ensures c.lenbits <= MAXBITS && c.distbits <= MAXBITS
      ensures !far ==> Ready() && k >= 1 && Is(Steps(c, wsize, old(Remaining()), old(out), k))
      ensures far ==> var o := Steps(c, wsize, old(Remaining()), old(out), k);
        o.Now? && o.mode == Len && TooFar(c, wsize, o.rest, o.out)
    {
      hide Tables.Valid, Windowed, Remaining, Reading, Is, Step, Steps, Suffix, TooFar;
      ghost var v, o, next0, buf0 := Remaining(), out, next, buf;
      TablesParts();
      k, far := 0, false;
      StepsNone(v, o);
      SuffixAll(v);
      RemainingIs();
      while true
        invariant Reading() && Windowed() && mode == Len && have >= 6 && left >= MAX_MATCH
        invariant Is(Steps(c, wsize, v, o, k)) && Suffix(v, Remaining())
        invariant next + have == old(next + have) && have <= old(have)
        decreases |Remaining()|
      {
        ghost var w := Remaining();
        StateIs(Steps(c, wsize, v, o, k));
        far := FastItem();
        if far {
          return;
        }
        StepsMore(v, o, k);
        SuffixTwice(v, w, Remaining());
        k := k + 1;
        if mode != Len || have < 6 || left < MAX_MATCH {
          break;
        }
      }
      ghost var rest := Remaining();
      StateIs(Steps(c, wsize, v, o, k));
      GiveBack(v, next0, buf0);
      IsAgain(Steps(c, wsize, v, o, k), rest);
    }

    lemma StepsNone(v: seq<bool>, o: seq<octet>)
      requires c.lenbits <= MAXBITS && c.distbits <= MAXBITS && mode == Len && v == Remaining() && o == out
      ensures Is(Steps(c, wsize, v, o, 0))
    {
      hide Remaining;
    }

    lemma StateIs(o: Outcome)
      requires Is(o)
      ensures o == Now(mode, Remaining(), out)
    {
    }

    lemma IsAgain(o: Outcome, rest: seq<bool>)
      requires o == Now(mode, rest, out) && rest == Remaining()
      ensures Is(o)
    {
      hide Remaining;
    }

    lemma StepsMore(v: seq<bool>, o: seq<octet>, k: nat)
      requires c.lenbits <= MAXBITS && c.distbits <= MAXBITS
      requires var s := Steps(c, wsize, v, o, k); s.Now? && s.mode == Len && Is(Step(c, wsize, s.rest, s.out))
      ensures Is(Steps(c, wsize, v, o, k + 1))
    {
      hide Is, Step;
    }

    lemma SuffixAll(v: seq<bool>)
      ensures Suffix(v, v)
    {
    }

    lemma RemainingIs()
      requires Reading()
      ensures next <= |input| && |buf| == bits && Remaining() == buf + InBits(input[next..])
    {
    }

    // ----- the loop

    /** The state for decoding a block: fast where there is enough input and room. Without
        success the bits do not hold the next item, or there was no more input to be had. */
    method LenMode() returns (ok: bool, far: bool, ghost k: nat)
      requires Ready() && mode == Len
      modifies this`hold, this`bits, this`next, this`have, this`buf, this`asked, this`put, this`left, this`whave,
               this`out, this`mode, window
      ensures c.lenbits <= MAXBITS && c.distbits <= MAXBITS
      ensures !ok ==> !far && Dry(Step(c, wsize, old(Remaining()), old(out)) == Starved)
      ensures ok && !far ==> Ready() && k >= 1 && Is(Steps(c, wsize, old(Remaining()), old(out), k))
      ensures ok && far ==> var o := Steps(c, wsize, old(Remaining()), old(out), k);
        o.Now? && o.mode == Len && TooFar(c, wsize, o.rest, o.out)
    {
      hide Tables.Valid, Remaining, Reading, Is, Step, Steps, TooFar;
      TablesParts();
      ok, far, k := true, false, 1;
      if have >= 6 && left >= MAX_MATCH {
        if whave < wsize {
          whave := wsize - left;
        }
        far, k := InflateFast();
      } else {
        ghost var v, o := Remaining(), out;
        StepsFirst(v, o);
        ok := LenStep();
      }
    }

    lemma StepsFirst(v: seq<bool>, o: seq<octet>)
      requires c.lenbits <= MAXBITS && c.distbits <= MAXBITS
      ensures Steps(c, wsize, v, o, 1) == Step(c, wsize, v, o)
    {
      hide Step;
      assert Steps(c, wsize, v, o, 0) == Now(Len, v, o);
    }

    // ----- a block

    /** A whole block, by either loop as input and room allow: what has happened is some number
        of items, one after the other. Without success the bits do not hold the next item, or
        there was no more input to be had. */
    method DecodeBlock() returns (ok: bool, far: bool, ghost k: nat)
      requires Ready() && mode == Len
      modifies this`hold, this`bits, this`next, this`have, this`buf, this`asked, this`put, this`left, this`whave,
               this`out, this`mode, window
      ensures c.lenbits <= MAXBITS && c.distbits <= MAXBITS
      ensures ok && !far ==> Ready() && mode != Len && Is(Steps(c, wsize, old(Remaining()), old(out), k))
      ensures ok && far ==> var o := Steps(c, wsize, old(Remaining()), old(out), k);
        o.Now? && o.mode == Len && TooFar(c, wsize, o.rest, o.out)
      ensures !ok ==> !far && Dry(Steps(c, wsize, old(Remaining()), old(out), k + 1) == Starved)
    {
      hide Tables.Valid, Remaining, Reading, Windowed, Is, Step, Steps, TooFar, Dry;
      ghost var v, o := Remaining(), out;
      TablesParts();
      StepsNone(v, o);
      ok, far, k := true, false, 0;
      while mode == Len
        invariant Ready() && ok && !far && Is(Steps(c, wsize, v, o, k))
        decreases |Remaining()|
      {
        ghost var w, x := Remaining(), out;
        StateIs(Steps(c, wsize, v, o, k));
        ghost var j;
        ok, far, j := LenMode();
        StepsSplit(v, o, k, 1);
        StepsFirst(w, x);
        if !ok {
          return;
        }
        StepsSplit(v, o, k, j);
        k := k + j;
        if far {
          return;
        }
        StateIs(Steps(c, wsize, w, x, j));
        StepsLess(w, x, j);
      }
    }

    lemma {:induction false} StepsSplit(v: seq<bool>, o: seq<octet>, j: nat, k: nat)
      requires c.lenbits <= MAXBITS && c.distbits <= MAXBITS
      requires Steps(c, wsize, v, o, j).Now? && Steps(c, wsize, v, o, j).mode == Len
      ensures var s := Steps(c, wsize, v, o, j); Steps(c, wsize, v, o, j + k) == Steps(c, wsize, s.rest, s.out, k)
    {
      hide Step;
      if k > 0 { StepsSplit(v, o, j, k - 1); }
    }

    /** Every item takes some bits. */
    lemma StepLess(v: seq<bool>, o: seq<octet>)
      requires c.Valid()
      ensures c.lenbits <= MAXBITS && c.distbits <= MAXBITS
      ensures Step(c, wsize, v, o).Now? ==> |Step(c, wsize, v, o).rest| < |v|
    {
      hide CodeEntry, Val, Usable;
      TablesParts();
      EntryBits(Lens, c.lcode, c.lenbits, v);
    }

    lemma {:induction false} StepsLess(v: seq<bool>, o: seq<octet>, k: nat)
      requires c.Valid() && k >= 1
      ensures c.lenbits <= MAXBITS && c.distbits <= MAXBITS
      ensures Steps(c, wsize, v, o, k).Now? ==> |Steps(c, wsize, v, o, k).rest| < |v|
    {
      hide Tables.Valid, Step;
      TablesParts();
      if k == 1 {
        StepsFirst(v, o);
        StepLess(v, o);
      } else {
        StepsLess(v, o, k - 1);
        var s := Steps(c, wsize, v, o, k - 1);
        if s.Now? { StepLess(s.rest, s.out); }
      }
    }

    /** With less than a byte of them in the buffer, the bits that are left determine all of the
        reading state. So after the fast loop it is what the slow one would have left. */
    lemma SameReading(next1: nat, buf1: seq<bool>, next2: nat, buf2: seq<bool>)
      requires next1 <= |input| && next2 <= |input| && |buf1| < 8 && |buf2| < 8
      requires buf1 + InBits(input[next1..]) == buf2 + InBits(input[next2..])
      ensures next1 == next2 && buf1 == buf2
    {
      InBitsSize(input[next1..]);
      InBitsSize(input[next2..]);
      assert buf1 == (buf1 + InBits(input[next1..]))[..|buf1|];
      assert buf2 == (buf2 + InBits(input[next2..]))[..|buf2|];
    }
  }

  /** With 300 bytes in a window that has never been full, the fast loop takes a distance of 310,
      which the slow one rejects. */
  lemma NotCaught(wsize: nat, out: seq<octet>)
    requires wsize == 0x8000 && |out| == 300
    ensures 310 > FarthestBack(wsize, out) && !Caught(true, 300, 300, 310) && !Caught(false, 300, 300, 310)
  {
  }
}
