/** The matcher of deflate: a sliding window over the input, hash chains over its strings,
    and the tokens that stand for the input read so far. */
module DeflateState {
  import opened Wrappers
  import opened RollingHash
  import opened HashChains
  import opened Lz77
  import opened Matching

  const MIN_LOOKAHEAD := MAX_MATCH + MIN_MATCH + 1
  const WIN_INIT := MAX_MATCH
  const TOO_FAR := 4096

  datatype Strategy = DefaultStrategy | Filtered | OnlyHuffman | Rle | Fixed

  function MatcherFor(strategy: Strategy, level: nat): Matcher {
    if strategy.OnlyHuffman? then HuffmanOnly
    else if strategy.Rle? then RunLengths
    else if level <= 3 then Fast
    else Slow
  }

  /** The efforts of the levels 1 to 9. */
  const CHAINS: seq<nat> := [4, 8, 32, 16, 32, 128, 256, 1024, 4096]
  const GOOD: seq<nat> := [4, 4, 4, 4, 8, 8, 8, 32, 32]
  const NICE: seq<nat> := [8, 16, 32, 16, 32, 128, 128, 258, 258]
  const LAZY: seq<nat> := [4, 5, 6, 4, 16, 16, 32, 128, 258]

  datatype Config = Config(good_length: nat, max_lazy: nat, nice_length: nat, max_chain: nat)

  /** How hard each level tries. */
  function Configuration(level: nat): Config
    requires 1 <= level <= 9
  {
    match level
    case 1 => Config(4, 4, 8, 4)
    case 2 => Config(4, 5, 16, 8)
    case 3 => Config(4, 6, 32, 32)
    case 4 => Config(4, 4, 16, 16)
    case 5 => Config(8, 16, 32, 32)
    case 6 => Config(8, 16, 128, 128)
    case 7 => Config(8, 32, 128, 256)
    case 8 => Config(32, 128, 258, 1024)
    case _ => Config(32, 258, 258, 4096)
  }

  lemma ConfigurationIs(level: nat)
    requires 1 <= level <= 9
    ensures Configuration(level) == Config(GOOD[level - 1], LAZY[level - 1], NICE[level - 1], CHAINS[level - 1])
    ensures CHAINS[level - 1] >= 4 && MIN_MATCH <= LAZY[level - 1] <= MAX_MATCH
  {
  }

  function WindowSize(bits: nat): nat
    requires 9 <= bits <= 15
  {
    if bits == 9 then 512 else 2 * WindowSize(bits - 1)
  }

  lemma WindowSizes(bits: nat)
    requires 9 <= bits <= 15
    ensures 512 <= WindowSize(bits) <= 0x8000
  {
    assert WindowSize(10) == 1024;
    assert WindowSize(12) == 4096;
    assert WindowSize(14) == 0x4000;
    if bits > 9 { assert WindowSize(bits) == 2 * WindowSize(bits - 1); }
  }

  lemma HashFits(mem_level: bv8)
    requires 1 <= mem_level <= 9
    ensures HashParams(mem_level + 7, (mem_level + 7 + 2) / 3).Valid()
  {
  }

  function HashFor(mem_level: bv8): (p: HashParams)
    requires 1 <= mem_level <= 9
    ensures p.Valid()
  {
    HashFits(mem_level);
    HashParams(mem_level + 7, (mem_level + 7 + 2) / 3)
  }

  /** How many symbols the buffer for them has room for. */
  function LitBufsize(mem_level: bv8): nat
    requires 1 <= mem_level <= 9
  {
    HashFits(mem_level);
    HashParams(mem_level + 7, (mem_level + 7 + 2) / 3).Size() / 2
  }

  lemma LitBufsizes(mem_level: bv8)
    requires 1 <= mem_level <= 9
    ensures LitBufsize(mem_level) >= 128
  {
    HashFits(mem_level);
    var p := HashParams(mem_level + 7, (mem_level + 7 + 2) / 3);
    BelowSize(p, 255);
  }

  /** What the caller asks for; a partial, a sync and a block flush end a block alike, a full
      flush also forgets what came before. */
  datatype Request = NoFlush | Flush | FullFlush | Finish

  datatype BlockState = NeedMore | BlockDone | FinishStarted | FinishDone

  /** How far the chains go when `str` is the next string to insert and the data ends at `end`:
      the last two bytes begin no string. */
  function Limit(str: nat, end: nat): nat {
    if str + 2 <= end then str else if end < 2 then 0 else end - 2
  }

  /** What had been read, what was there to be read in all, and what had been sent, at the time
      of a call. */
  datatype Start = Start(data: seq<octet>, all: seq<octet>, sent: seq<Token>)

  /** Places in the window, as places in the input. */
  function Places(base: int, seen: seq<nat>): (r: seq<int>)
    ensures |r| == |seen|
  {
    seq(|seen|, i requires 0 <= i < |seen| => base + seen[i])
  }

  class Deflater {
    const p: HashParams
    const matcher: Matcher
    const w_size: nat
    const max_chain_length: nat
    const max_lazy_match: nat
    const good_match: nat
    const nice_match: nat
    const filtered: bool
    const sym_end: nat
    /** Whether there is no room for output left, each time this is looked at. */
    const full: nat -> bool

    const window: array<octet>
    const prev: array<nat>
    const head: array<nat>
    const sym_buf: array<nat>

    var ins_h: bv32
    var block_start: int
    var match_length: nat
    var prev_match: int
    var match_available: bool
    var strstart: nat
    var match_start: int
    var lookahead: nat
    var prev_length: nat
    var insert: nat
    var sym_next: nat
    var high_water: nat
    var asked: nat

    /** The input that has not been read into the window. */
    var input: seq<octet>

    /** All input that has been read; the first byte of the window is at `base` in it. */
    ghost var data: seq<octet>
    var base: nat
    /** The strings that have been put into the hash chains, by their place in the input. */
    ghost var ins: set<int>
    /** The tokens of all blocks that have been sent. */
    var sent: seq<Token>
    /** Where the blocks ended that have been sent. */
    var cuts: seq<Cut>
    /** Where all that came before has been forgotten. */
    ghost var restarts: seq<Cut>
    /** Why the tokens were sent, those of the block that is being collected as well. */
    ghost var reasons: seq<Reason>
    /** The search at the string before the current one, when a match or a byte is put off. */
    ghost var last: Search
    /** How much input there was in all when a call asked for all of it to be sent. */
    ghost var stops: set<int>

    function MaxDist(): int {
      w_size - MIN_LOOKAHEAD
    }

    ghost function Low(): nat
      reads this`restarts
    {
      LowOf(restarts)
    }

    /** What never changes. */
    ghost predicate Shape() {
      && p.Valid() && 512 <= w_size <= 0x8000 && window.Length == 2 * w_size
      && prev.Length == w_size && head.Length == p.Size()
      && 3 <= sym_end <= sym_buf.Length && sym_end % 3 == 0 && max_chain_length >= 4
      && MIN_MATCH <= max_lazy_match <= MAX_MATCH
      && Separate(window, prev) && Separate(window, head) && Separate(window, sym_buf)
      && prev != head && prev != sym_buf && head != sym_buf
      && Separate(window, this) && Separate(prev, this) && Separate(head, this) && Separate(sym_buf, this)
    }

    /** The window holds the last part of the input that has been read, up to `end`. */
    ghost predicate Holds(end: nat)
      reads this`data, this`base, window
    {
      end <= window.Length && |data| == base + end && window[..end] == data[base..]
    }

    ghost predicate Buffered()
      reads this`strstart, this`lookahead, this`data, this`base, window
    {
      Holds(strstart + lookahead)
    }

    /** The chains hold strings up to the one before `lim`. */
    ghost predicate Chained(lim: int)
      reads this`data, this`base, this`ins, head, prev
    {
      Linked(p, data, base, lim, w_size, head[..], prev[..], ins)
    }

    /** The chains and the hash are ready for the string at `str`, where the data ends at
        `end`. The strings that are still to be inserted are the last ones before it, for which
        there was no third byte. The window begins where all was forgotten, or far enough back. */
    ghost predicate IndexedAt(str: nat, end: nat)
      reads this`data, this`base, this`ins, this`insert, this`ins_h, this`restarts, head, prev
    {
      && insert <= str && (insert > 0 ==> end < str + MIN_MATCH) && Chained(Limit(str - insert, end))
      && (base == Low() || MaxDist() <= str)
      && (matcher.Fast? || matcher.Slow? ==> Rolled(p, data, base + str, ins_h))
    }

    ghost predicate Indexed()
      reads this`strstart, this`lookahead, this`data, this`base, this`ins, this`insert, this`ins_h, this`restarts, head,
            prev
    {
      IndexedAt(strstart, strstart + lookahead)
    }

    /** How hard matches are looked for. */
    function Trying(): Effort {
      Effort(p, MaxDist(), max_chain_length, good_match, nice_match, max_lazy_match, filtered)
    }

    /** All tokens, those of the block that is being collected as well. */
    ghost function AllTokens(): seq<Token>
      reads this`sent, this`sym_next, sym_buf
    {
      sent + Tokens(sym_buf[..if sym_next <= sym_buf.Length then sym_next else 0])
    }

    /** Every token has its reason. */
    ghost predicate Accounted(pos: int)
      reads this`data, this`sym_next, this`sent, this`restarts, this`reasons, this`stops, sym_buf
    {
      Explained(matcher, Trying(), data, restarts, stops, AllTokens(), reasons, pos)
    }

    /** The strings that the tokens have made known. */
    ghost function KnownNow(): set<int>
      reads this`sym_next, this`sent, this`reasons, sym_buf
    {
      if |reasons| == |AllTokens()| then Known(matcher, Trying(), AllTokens(), reasons, |reasons|) else {}
    }

    /** They are in the hash chains. */
    ghost predicate Informed()
      reads this`ins, this`sym_next, this`sent, this`reasons, sym_buf
    {
      matcher.Fast? || matcher.Slow? ==> KnownNow() <= ins
    }

    lemma InformedPush(tokens: seq<Token>, why: seq<Reason>, t: Token, r: Reason)
      requires |tokens| == |why| && AllTokens() == tokens + [t] && reasons == why + [r]
      requires matcher.Fast? || matcher.Slow? ==>
        Known(matcher, Trying(), tokens, why, |why|) <= ins && InsertedBy(matcher, Trying(), t, r) <= ins
      ensures Informed()
    {
      hide InsertedBy, AllTokens, Trying;
      KnownPush(matcher, Trying(), tokens, why, [t], [r], |why|);
      assert (tokens + [t])[|why|] == t && (why + [r])[|why|] == r;
    }

    /** The tokens stand for the input before `pos`, those sent for the input before the
        block that is being collected. */
    ghost predicate Conserved(pos: int)
      reads this`data, this`base, this`block_start, this`sym_next, this`sent, this`cuts, this`restarts, this`reasons,
            this`stops, sym_buf
    {
      && sym_next <= sym_end <= sym_buf.Length && sym_next % 3 == 0
      && Covers(data, sent, Tokens(sym_buf[..sym_next]), base + block_start, pos, MaxDist())
      && CutsHold(data, sent, cuts) && InBlocks(sent, cuts, sym_end / 3)
      && Low() <= base && Earlier(restarts, |sent|) && Anew(data, sent + Tokens(sym_buf[..sym_next]), restarts)
      && Accounted(pos)
    }

    /** The token goes on from the others for this reason. */
    ghost predicate Justifies(t: Token, r: Reason)
      reads this`data, this`sym_next, this`sent, this`restarts, this`reasons, this`stops, sym_buf
    {
      && Sensible(matcher, Trying(), data, restarts, stops, KnownNow(), t, r)
      && (matcher.Slow? ==> Continues(Trying(), AllTokens(), reasons, r.here))
    }

    // ----- the hash chains

    /** The string at `str` can be inserted. */
    ghost predicate Ready(str: nat)
      reads this`data, this`base, this`ins, this`ins_h, head, prev
    {
      Chained(str) && Rolled(p, data, base + str, ins_h)
    }

    lemma WindowAt(i: nat, end: nat)
      requires Holds(end) && i + 3 <= end
      ensures i + 2 < window.Length && base + i + 3 <= |data|
      ensures window[i] == data[base + i] && window[i + 1] == data[base + i + 1] && window[i + 2] == data[base + i + 2]
    {
      var w, d := window[..end], data[base..];
      assert w[i] == d[i] && w[i + 1] == d[i + 1] && w[i + 2] == d[i + 2];
    }

    lemma ShapeTables()
      requires Shape()
      ensures p.Valid() && head.Length == p.Size() && prev.Length == w_size > 0 && head != prev
      ensures Separate(head, this) && Separate(prev, this)
    {
    }

    lemma ShapeSizes()
      requires Shape()
      ensures max_chain_length >= 4 && MaxDist() >= 250 && window.Length == 2 * w_size && max_lazy_match <= MAX_MATCH
      ensures 0 < sym_end <= sym_buf.Length
    {
    }

    lemma ShapeApart()
      requires Shape()
      ensures Separate(window, head) && Separate(window, prev) && Separate(window, sym_buf)
      ensures head != sym_buf && prev != sym_buf
    {
    }

    /** Puts the string at `str`, which has the hash `h`, in front of its chain. */
    method LinkIn(str: nat, h: nat) returns (hash_head: nat)
      requires Shape() && Chained(str) && base + str + 3 <= |data| && h == HashAt(p, data, base + str)
      modifies this`ins, head, prev
      ensures Chained(str + 1) && ins == old(ins) + {base + str}
      ensures LeadsTo(p, data, base, old(ins), hash_head, HashAt(p, data, base + str), str)
    {
      hide Linked, LeadsTo, HashAt, Shape, Slot;
      ShapeTables();
      ghost var h0, p0 := head[..], prev[..];
      ChainHead(p, data, base, w_size, h0, p0, ins, str);
      Inserted(p, data, base, w_size, h0, p0, ins, str, h);
      hash_head := head[h];
      prev[Slot(str, w_size)] := hash_head;
      head[h] := str;
      ins := ins + {base + str};
      assert head[..] == h0[h := str] && prev[..] == p0[Slot(str, w_size) := hash_head];
    }

    /** Inserts the string at `str`; `hash_head` is the last string with the same hash. */
    method InsertString(str: nat, ghost end: nat) returns (hash_head: nat)
      requires Shape() && Holds(end) && Ready(str) && str + 3 <= end
      modifies this`ins_h, this`ins, head, prev
      ensures Ready(str + 1) && ins == old(ins) + {base + str}
      ensures LeadsTo(p, data, base, old(ins), hash_head, HashAt(p, data, base + str), str)
    {
      hide Chained, LeadsTo, Shape, Holds, HashAt;
      ShapeTables();
      WindowAt(str, end);
      RollOn(p, data, base + str);
      Completed(p, data, base + str, ins_h, window[str + 2]);
      ins_h := p.Update(ins_h, window[str + 2]);
      hash_head := LinkIn(str, ins_h as nat);
    }

    // ----- filling the window

    /** Moves the hash table and the chains down by the size of the window. */
    method SlideHash()
      requires Shape()
      modifies head, prev
      ensures SlidDown(old(head[..]), head[..], w_size) && SlidDown(old(prev[..]), prev[..], w_size)
    {
      for n := head.Length downto 0
        invariant prev[..] == old(prev[..])
        invariant forall i :: 0 <= i < n ==> head[i] == old(head[i])
        invariant forall i :: n <= i < head.Length ==> head[i] == Down(old(head[i]), w_size)
      {
        var m := head[n];
        head[n] := if m >= w_size then m - w_size else 0;
      }
      ghost var h := head[..];
      for n := prev.Length downto 0
        invariant head[..] == h
        invariant forall i :: 0 <= i < n ==> prev[i] == old(prev[i])
        invariant forall i :: n <= i < prev.Length ==> prev[i] == Down(old(prev[i]), w_size)
      {
        var m := prev[n];
        prev[n] := if m >= w_size then m - w_size else 0;
      }
    }

    method MoveWindow(n: nat)
      requires n <= w_size && window.Length == 2 * w_size
      modifies window
      ensures window[..n] == old(window[w_size..w_size + n])
    {
      ghost var win := window[..];
      for i := 0 to n
        invariant forall k :: 0 <= k < i ==> window[k] == win[w_size + k]
        invariant forall k :: w_size <= k < window.Length ==> window[k] == win[k]
      {
        window[i] := window[w_size + i];
      }
    }

    /** Moves the chains down; the strings are then counted from a later start. */
    method SlideTables(ghost lim: int)
      requires Shape() && Chained(lim)
      modifies this`base, head, prev
      ensures base == old(base) + w_size && Chained(lim - w_size)
    {
      hide Linked;
      ghost var h, pr := head[..], prev[..];
      SlideHash();
      LinkedDown(p, data, base, lim, w_size, h, pr, ins, head[..], prev[..]);
      base := base + w_size;
    }

    lemma ChainedOn(lim: int, lim': int)
      requires Chained(lim) && lim <= lim'
      ensures Chained(lim')
    {
      hide Linked;
      assert data + [] == data;
      LinkedOn(p, data, base, lim, w_size, head[..], prev[..], ins, [], lim');
    }

    lemma SlideBuffer(win: seq<octet>)
      requires w_size <= |win| && strstart + lookahead == |win| - w_size && window.Length == 2 * w_size
      requires base >= w_size
      requires base <= |data| && win == data[base - w_size..] && strstart + lookahead <= window.Length
      requires window[..strstart + lookahead] == win[w_size..]
      ensures Buffered()
    {
      assert win[w_size..] == data[base..];
    }

    /** Moves the upper half of the window to the lower one. */
    method Slide(more: nat)
      requires Shape() && Buffered() && Indexed() && strstart >= w_size + MaxDist()
      requires more == window.Length - lookahead - strstart
      modifies this`strstart, this`block_start, this`match_start, this`insert, this`base, window, head, prev
      ensures Buffered() && Indexed() && strstart == old(strstart) - w_size && base == old(base) + w_size
      ensures insert == if old(insert) > strstart then strstart else old(insert)
      ensures block_start == old(block_start) - w_size && match_start == old(match_start) - w_size
    {
      hide Linked, Rolled, Shape, Holds, Chained;
      ShapeSizes();
      ShapeApart();
      BufferFits();
      ghost var lim, win := Limit(strstart - insert, strstart + lookahead), window[..strstart + lookahead];
      MoveWindow(w_size - more);
      match_start := match_start - w_size;
      strstart := strstart - w_size;
      block_start := block_start - w_size;
      if insert > strstart {
        insert := strstart;
      }
      SlideTables(lim);
      ChainedOn(lim - w_size, Limit(strstart - insert, strstart + lookahead));
      SlideBuffer(win);
    }

    /** Puts the first bytes of the input behind the first `e` of the window. */
    method CopyIn(e: nat, n: nat)
      requires e + n <= window.Length && n <= |input|
      modifies window
      ensures window[..e + n] == old(window[..e]) + input[..n]
    {
      ghost var win := window[..e];
      for i := 0 to n
        invariant window[..e + i] == win + input[..i]
      {
        ghost var w := window[..e + i];
        window[e + i] := input[i];
        assert window[..e + i + 1] == w + [input[i]] && input[..i + 1] == input[..i] + [input[i]];
      }
    }

    lemma HeldOn(win: seq<octet>, more: seq<octet>)
      requires base <= |data| && win == data[base..]
      ensures win + more == (data + more)[base..]
    {
    }

    /** Reads input into the window, as much as there is and at most `more` bytes. */
    method ReadInput(more: nat, ghost lim: int) returns (n: nat)
      requires Shape() && Buffered() && Chained(lim) && strstart + lookahead + more <= window.Length
      modifies this`lookahead, this`input, this`data, window
      ensures Buffered() && Chained(lim)
      ensures n == (if |old(input)| < more then |old(input)| else more) && lookahead == old(lookahead) + n
      ensures input == old(input)[n..] && data == old(data) + old(input)[..n]
    {
      hide Linked;
      n := if |input| < more then |input| else more;
      HeldOn(window[..strstart + lookahead], input[..n]);
      CopyIn(strstart + lookahead, n);
      LinkedOn(p, data, base, lim, w_size, head[..], prev[..], ins, input[..n], lim);
      lookahead := lookahead + n;
      data := data + input[..n];
      input := input[n..];
    }

    /** Inserts the strings for which there was no third byte, as far as there is now. */
    method InsertPending()
      requires Shape() && Buffered() && insert <= strstart && insert < MIN_MATCH && lookahead + insert >= MIN_MATCH
      requires Ready(strstart - insert)
      modifies this`ins_h, this`ins, this`insert, head, prev
      ensures insert < MIN_MATCH && insert <= strstart && (insert > 0 ==> lookahead < MIN_MATCH)
      ensures Ready(strstart - insert)
      ensures strstart - insert + 2 <= strstart + lookahead && insert <= old(insert) && old(ins) <= ins
    {
      hide Chained, Rolled, LeadsTo, HashAt, Ready;
      var str := strstart - insert;
      while insert != 0
        invariant insert <= old(insert) && insert <= strstart && insert < MIN_MATCH && old(ins) <= ins
        invariant str == strstart - insert && lookahead + insert >= MIN_MATCH
        invariant Buffered() && Ready(str)
      {
        var _ := InsertString(str, strstart + lookahead);
        str := str + 1;
        insert := insert - 1;
        if lookahead + insert < MIN_MATCH {
          break;
        }
      }
    }

    lemma HeldSize(end: nat)
      requires Holds(end)
      ensures |data| == base + end && end <= window.Length
    {
    }

    lemma BufferFits()
      requires Buffered()
      ensures strstart + lookahead <= window.Length && |data| == base + strstart + lookahead
      ensures window[..strstart + lookahead] == data[base..]
    {
    }

    /** Makes the hash ready for the current string, and inserts the strings before it for
        which there was no third byte. */
    method HashPending(ghost lim: nat)
      requires Shape() && Buffered() && Chained(lim) && insert <= strstart && insert < MIN_MATCH
      requires lim <= Limit(strstart - insert, strstart + lookahead) && (base == Low() || MaxDist() <= strstart)
      modifies this`ins_h, this`ins, this`insert, head, prev
      ensures Indexed() && insert < MIN_MATCH && insert <= old(insert) && old(ins) <= ins
    {
      hide Linked, HashAt, LeadsTo, Shape, Holds, Rolled;
      BufferFits();
      ShapeTables();
      if lookahead + insert >= MIN_MATCH {
        var str := strstart - insert;
        WindowAt(str, strstart + lookahead);
        RolledAnew(p, data, base + str, window[str], window[str + 1]);
        ChainedOn(lim, str);
        ins_h := window[str] as bv32;
        ins_h := p.Update(ins_h, window[str + 1]);
        InsertPending();
        if insert > 0 { NoThird(base + strstart); }
      } else {
        ChainedOn(lim, Limit(strstart - insert, strstart + lookahead));
        NoThird(base + strstart);
      }
    }

    lemma NoThird(a: int)
      requires p.Valid() && a + 3 > |data|
      ensures Rolled(p, data, a, ins_h)
    {
    }

    method Zero(from: nat, n: nat)
      requires from + n <= window.Length
      modifies window
      ensures window[..from] == old(window[..from])
    {
      for i := from to from + n
        invariant window[..from] == old(window[..from])
      {
        window[i] := 0;
      }
    }

    /** Clears the bytes behind the data that have never been written. */
    method ZeroAhead()
      requires Buffered() && high_water <= window.Length
      modifies this`high_water, window
      ensures Buffered() && high_water <= window.Length
    {
      if high_water < window.Length {
        var curr := strstart + lookahead;
        if high_water < curr {
          var init := window.Length - curr;
          if init > WIN_INIT {
            init := WIN_INIT;
          }
          Zero(curr, init);
          high_water := curr + init;
        } else if high_water < curr + WIN_INIT {
          var init := curr + WIN_INIT - high_water;
          if init > window.Length - high_water {
            init := window.Length - high_water;
          }
          ghost var w0 := window[..high_water];
          Zero(high_water, init);
          assert window[..curr] == w0[..curr];
          high_water := high_water + init;
        }
      }
    }

    /** The window and the chains are in order. */
    ghost predicate Filled()
      reads this`strstart, this`lookahead, this`data, this`base, this`ins, this`insert, this`ins_h, this`high_water,
            this`restarts, window, head, prev
    {
      Shape() && Buffered() && Indexed() && insert < MIN_MATCH && high_water <= window.Length
    }

    /** Makes room if the window is nearly full; returns the room there is. */
    method MakeRoom() returns (more: nat)
      requires Filled() && lookahead < MIN_LOOKAHEAD
      modifies this`strstart, this`block_start, this`match_start, this`insert, this`base, window, head, prev
      ensures Filled() && more == window.Length - lookahead - strstart && more >= 2
      ensures base + strstart == old(base + strstart) && base + block_start == old(base + block_start)
      ensures base + match_start == old(base + match_start)
      ensures strstart + MIN_LOOKAHEAD <= window.Length && base >= old(base)
      ensures insert <= old(insert) && (old(strstart) > 0 ==> strstart > 0)
    {
      hide Linked, Rolled;
      more := window.Length - lookahead - strstart;
      if strstart >= w_size + MaxDist() {
        Slide(more);
        more := more + w_size;
      }
    }

    /** Fills the window when there is not enough to look ahead. Afterwards there is, or all
        input has been read; what was said of places in the input still holds. */
    method FillWindow()
      requires Filled() && lookahead < MIN_LOOKAHEAD
      modifies this`strstart, this`block_start, this`match_start, this`insert, this`base, this`ins, this`lookahead,
               this`input, this`data, this`ins_h, this`high_water, window, head, prev
      ensures Filled() && (lookahead >= MIN_LOOKAHEAD || input == []) && strstart + MIN_LOOKAHEAD <= window.Length
      ensures base + strstart == old(base + strstart) && base + block_start == old(base + block_start)
      ensures base + match_start == old(base + match_start)
      ensures old(data) <= data && data + input == old(data + input) && lookahead >= old(lookahead)
      ensures insert <= old(insert) && (old(strstart) > 0 ==> strstart > 0) && base >= old(base) && old(ins) <= ins
    {
      hide Shape, Buffered, Indexed;
      while true
        invariant Filled() && lookahead < MIN_LOOKAHEAD
        invariant base + strstart == old(base + strstart) && base + block_start == old(base + block_start)
        invariant base + match_start == old(base + match_start)
        invariant old(data) <= data && data + input == old(data + input) && lookahead >= old(lookahead)
        invariant insert <= old(insert) && (old(strstart) > 0 ==> strstart > 0) && base >= old(base)
        invariant old(ins) <= ins
        decreases |input|
      {
        var more := MakeRoom();
        if input == [] {
          break;
        }
        ReadMore(more);
        if !(lookahead < MIN_LOOKAHEAD && input != []) {
          break;
        }
      }
      FilledBuffer();
      ZeroAhead();
    }

    lemma FilledBuffer()
      requires Filled()
      ensures Buffered() && high_water <= window.Length && Indexed() && insert < MIN_MATCH && Shape()
      ensures Separate(window, head) && Separate(window, prev)
    {
    }

    /** Reads input and makes the hash ready. */
    method ReadMore(more: nat)
      requires Filled() && lookahead < MIN_LOOKAHEAD && input != []
      requires more == window.Length - lookahead - strstart && more >= 2
      modifies this`lookahead, this`input, this`data, this`ins_h, this`ins, this`insert, window, head, prev
      ensures Filled() && old(data) <= data && data + input == old(data + input) && |input| < |old(input)|
      ensures lookahead >= old(lookahead) && insert <= old(insert) && old(ins) <= ins
    {
      hide Linked, Rolled;
      ghost var d, inp, lim := data, input, Limit(strstart - insert, strstart + lookahead);
      var n := ReadInput(more, lim);
      HashPending(lim);
      assert data + input == d + (inp[..n] + inp[n..]) == d + inp;
    }

    // ----- the longest match

    /** The window repeats `len` bytes from `m` at `s`. */
    ghost predicate Same(m: int, s: int, len: int)
      reads window
    {
      0 <= m < s && 0 <= len && s + len <= window.Length && forall j :: s <= j < s + len ==>
        window[j] == window[j - (s - m)]
    }

    /** A string with the same hash as the one at `s`. */
    ghost predicate Candidate(m: int, s: int)
      reads this`data, this`base, this`ins
    {
      base + m in ins && 0 < m < s && HashAt(p, data, base + m) == HashAt(p, data, base + s)
    }

    /** The string at `m` is not the same for more than `len` bytes, or `len` is the most. */
    ghost predicate NoLonger(m: int, s: int, len: int)
      reads window
    {
      len >= MAX_MATCH || !Same(m, s, len + 1)
    }

    /** The last candidate before the current string, if there is one. */
    ghost predicate Nearest(hash_head: nat)
      reads this`data, this`base, this`ins, this`strstart, this`lookahead
    {
      && (hash_head > 0 ==> Candidate(hash_head, strstart))
      && (lookahead >= MIN_MATCH ==> forall m: nat :: Candidate(m, strstart) ==> m <= hash_head)
    }

    /** The strings that have been looked at, from the nearest on: all candidates behind
        `rest`. */
    ghost predicate Looked(seen: seq<nat>, rest: int)
      reads this`data, this`base, this`ins, this`strstart
    {
      && (forall i, j :: 0 <= i < j < |seen| ==> seen[j] < seen[i])
      && (forall i :: 0 <= i < |seen| ==> Candidate(seen[i], strstart) && rest < seen[i])
      && forall m: nat :: Candidate(m, strstart) && m > rest ==> m in seen
    }

    /** None of them is longer. */
    ghost predicate Longest(seen: seq<nat>, s: int, len: int)
      reads window
    {
      forall i :: 0 <= i < |seen| ==> NoLonger(seen[i], s, len)
    }

    lemma LongestMore(seen: seq<nat>, cur: nat, len: nat, len': nat)
      requires Longest(seen, strstart, len) && len <= len' && NoLonger(cur, strstart, len')
      ensures Longest(seen + [cur], strstart, len')
    {
      var all := seen + [cur];
      forall i | 0 <= i < |all| ensures NoLonger(all[i], strstart, len') {
        assert i < |seen| ==> NoLonger(seen[i], strstart, len);
      }
    }

    /** One more of them is looked at, and the chain leads on to `next`. */
    lemma LookedMore(seen: seq<nat>, cur: nat, next: int)
      requires Looked(seen, cur) && Candidate(cur, strstart) && next < cur
      requires forall m: nat :: Candidate(m, strstart) && m < cur ==> m <= next
      ensures Looked(seen + [cur], next)
    {
      hide Candidate;
    }

    /** Those that are nearer than the match are not as long. */
    ghost predicate Closest(seen: seq<nat>, len: int)
      reads this`match_start, this`strstart, window
    {
      forall i :: 0 <= i < |seen| && seen[i] > match_start ==> NoLonger(seen[i], strstart, len)
    }

    lemma ClosestNow(seen: seq<nat>, cur: nat, len: int)
      requires Longest(seen, strstart, len) && match_start == cur
      ensures Closest(seen + [cur], len)
    {
      hide NoLonger;
      var all := seen + [cur];
      forall i | 0 <= i < |all| && all[i] > match_start ensures NoLonger(all[i], strstart, len) {
        assert all[i] == seen[i];
      }
    }

    lemma ClosestStill(seen: seq<nat>, cur: nat, len: int)
      requires Closest(seen, len) && cur <= match_start
      ensures Closest(seen + [cur], len)
    {
      hide NoLonger;
      var all := seen + [cur];
      forall i | 0 <= i < |all| && all[i] > match_start ensures NoLonger(all[i], strstart, len) {
        assert all[i] == seen[i];
      }
    }

    lemma ClosestLess(seen: seq<nat>, len: int, len': int)
      requires Closest(seen, len) && 0 <= len <= len'
      ensures Closest(seen, len')
    {
      hide NoLonger;
      forall i | 0 <= i < |seen| && seen[i] > match_start ensures NoLonger(seen[i], strstart, len') {
        NoLongerMore(seen[i], strstart, len, len');
      }
    }

    /** How many strings may be looked at. */
    function Tries(): nat
      reads this`prev_length
    {
      if prev_length >= good_match then max_chain_length / 4 else max_chain_length
    }

    /** How far two strings that begin with the same three bytes are the same. */
    method MatchLength(m: nat, s: nat) returns (len: nat)
      requires s + MIN_LOOKAHEAD <= window.Length && Same(m, s, 3)
      ensures 3 <= len <= MAX_MATCH && Same(m, s, len) && NoLonger(m, s, len)
    {
      len := 2;
      for block := 0 to 32
        invariant len == 2 + 8 * block && Same(m, s, len + 1)
      {
        for u := 0 to 8
          invariant len == 2 + 8 * block + u && Same(m, s, len + 1)
        {
          len := len + 1;
          if window[s + len] != window[m + len] {
            return;
          }
        }
        if len >= MAX_MATCH {
          return;
        }
      }
    }

    /** Whether the string at `cur` may be longer than the best so far, and if so for how long
        it is the same as the current one. The third byte is not looked at: it is the same
        because the hashes are. */
    method TryMatch(cur: nat, best_len: nat, scan_end1: octet, scan_end: octet) returns (len: nat)
      requires Shape() && Buffered() && Candidate(cur, strstart) && lookahead >= MIN_MATCH && 1 <= best_len <= MAX_MATCH
      requires strstart + MIN_LOOKAHEAD <= window.Length && strstart - cur <= MaxDist()
      requires scan_end1 == window[strstart + best_len - 1] && scan_end == window[strstart + best_len]
      ensures len == 0 || (3 <= len <= MAX_MATCH && Same(cur, strstart, len))
      ensures NoLonger(cur, strstart, if len > best_len then len else best_len)
    {
      hide Holds, HashAt, NoLonger;
      len := 0;
      if window[cur + best_len] == scan_end && window[cur + best_len - 1] == scan_end1
        && window[cur] == window[strstart] && window[cur + 1] == window[strstart + 1] {
        WindowAt(cur, strstart + lookahead);
        WindowAt(strstart, strstart + lookahead);
        ThirdByte(p, data, base + cur, base + strstart);
        len := MatchLength(cur, strstart);
        if len <= best_len { NoLongerMore(cur, strstart, len, best_len); }
      } else {
        Differs(cur, strstart, best_len);
      }
    }

    lemma NoLongerMore(m: int, s: int, len: int, len': int)
      requires NoLonger(m, s, len) && 0 <= len <= len'
      ensures NoLonger(m, s, len')
    {
    }

    lemma Differs(m: nat, s: nat, len: nat)
      requires m < s && s + len < window.Length && 1 <= len
      requires window[m] != window[s] || window[m + 1] != window[s + 1]
        || window[m + len - 1] != window[s + len - 1] || window[m + len] != window[s + len]
      ensures NoLonger(m, s, len)
    {
      hide NoLonger;
      DiffersAt(m, s, len, 0);
      DiffersAt(m, s, len, 1);
      DiffersAt(m, s, len, len - 1);
      DiffersAt(m, s, len, len);
    }

    lemma DiffersAt(m: nat, s: nat, len: nat, j: nat)
      requires m < s && s + len < window.Length && j <= len
      ensures window[m + j] != window[s + j] ==> NoLonger(m, s, len)
    {
    }

    /** Looks at one string of the chain. */
    method LookAt(cur: nat, best_len: nat, scan_end1: octet, scan_end: octet, ghost seen: seq<nat>, ghost second: nat)
      returns (best: nat, ghost second': nat)
      requires Shape() && Buffered() && Facing(seen, cur) && lookahead >= MIN_MATCH && 1 <= prev_length
      requires strstart + MIN_LOOKAHEAD <= window.Length && SoFarBest(seen, best_len, second)
      requires best_len <= MAX_MATCH
      requires scan_end1 == window[strstart + best_len - 1] && scan_end == window[strstart + best_len]
      requires best_len > prev_length ==> cur < match_start
      modifies this`match_start
      ensures best_len <= best <= MAX_MATCH && (best > best_len ==> second' == best_len && match_start == cur)
      ensures best == best_len ==> second' == second && match_start == old(match_start)
      ensures SoFarBest(seen + [cur], best, second')
    {
      hide Buffered, HashAt, Same, Shape, NoLonger, Longest, Closest, Looked;
      best, second' := best_len, second;
      var len := TryMatch(cur, best_len, scan_end1, scan_end);
      LongestMore(seen, cur, best_len, if len > best_len then len else best_len);
      if len > best_len {
        match_start := cur;
        best, second' := len, best_len;
        ClosestNow(seen, cur, best_len);
      } else if best_len > prev_length {
        ClosestStill(seen, cur, second);
      }
    }

    /** The strings nearer than the match, if there is one, are not longer than `second`. */
    ghost predicate Before(seen: seq<nat>, best: nat, second: nat)
      reads this`match_start, this`strstart, this`prev_length, window
    {
      best > prev_length ==> prev_length <= second < best && Closest(seen, second)
    }

    /** The next string in the chain of a candidate. */
    lemma Follow(cur: nat)
      requires Shape() && Chained(strstart + 1) && Candidate(cur, strstart) && strstart - cur <= MaxDist()
      ensures cur % w_size < prev.Length && prev[cur % w_size] < cur
      ensures prev[cur % w_size] > 0 ==> Candidate(prev[cur % w_size], strstart)
      ensures forall m: nat :: Candidate(m, strstart) && m < cur ==> m <= prev[cur % w_size]
    {
      hide HashAt;
      assert base + cur in ins;
      assert LeadsTo(p, data, base, ins, prev[..][Slot(cur, w_size)], HashAt(p, data, base + cur), cur);
    }

    /** A string that is the same in the window is the same in the data, as far as there is
        data. */
    lemma SameData(m: int, s: nat, len: nat, n: nat)
      requires Buffered() && Same(m, s, len) && n <= len && s + n <= strstart + lookahead
      ensures Repeats(data, base + m, base + s, n)
    {
      var w := window[..strstart + lookahead];
      forall j | base + s <= j < base + s + n ensures data[j] == data[j - (s - m)] {
        assert w[j - base] == data[base..][j - base] && w[j - base - (s - m)] == data[base..][j - base - (s - m)];
      }
    }

    /** The best match so far: none that is longer than the previous one, or the one at
        `match_start`. */
    ghost predicate Best(len: nat)
      reads this`match_start, this`strstart, this`prev_length, window
    {
      && prev_length <= len <= MAX_MATCH
      && (len > prev_length ==>
        3 <= len && Same(match_start, strstart, len) && 1 <= strstart - match_start <= MaxDist())
    }

    lemma ClosestEnd(seen: seq<nat>, best: nat, second: nat, length: nat)
      requires Before(seen, best, second) && prev_length < length <= best && (second == prev_length || second < length)
      ensures Closest(seen, length - 1)
    {
      hide Closest;
      ClosestLess(seen, second, length - 1);
    }

    lemma BestIs(seen: seq<nat>, best: nat, second: nat)
      requires SoFarBest(seen, best, second)
      ensures Best(best) && Longest(seen, strstart, best) && Before(seen, best, second)
    {
    }

    lemma NearestLooked(hash_head: nat)
      requires Nearest(hash_head) && lookahead >= MIN_MATCH && hash_head > 0 && strstart - hash_head <= MaxDist()
      ensures Facing([], hash_head)
    {
    }

    /** The candidate that is looked at next; those behind it have been looked at. */
    ghost predicate Facing(seen: seq<nat>, cur: nat)
      reads this`data, this`base, this`ins, this`strstart
    {
      Candidate(cur, strstart) && strstart - cur <= MaxDist() && Looked(seen, cur)
    }

    lemma Advance(seen: seq<nat>, cur: nat)
      requires Shape() && Chained(strstart + 1) && Facing(seen, cur)
      ensures w_size > 0 && cur % w_size < prev.Length && prev[cur % w_size] < cur
      ensures Looked(seen + [cur], prev[cur % w_size]) && Looked(seen + [cur], cur - 1)
      ensures prev[cur % w_size] > Bound() ==> Facing(seen + [cur], prev[cur % w_size])
    {
      hide Chained, Candidate, Looked;
      Follow(cur);
      LookedMore(seen, cur, prev[cur % w_size]);
      LookedMore(seen, cur, cur - 1);
    }

    /** What is known of the strings looked at so far. */
    ghost predicate SoFarBest(seen: seq<nat>, best: nat, second: nat)
      reads this`match_start, this`strstart, this`prev_length, window
    {
      Best(best) && Longest(seen, strstart, best) && Before(seen, best, second)
    }

    lemma FirstBest()
      requires prev_length <= MAX_MATCH
      ensures SoFarBest([], prev_length, prev_length)
    {
    }

    /** The farthest place that the chains are followed to. */
    function Bound(): nat
      reads this`strstart
    {
      if strstart > MaxDist() then strstart - MaxDist() else 0
    }

    /** Follows the chain for at most `tries` strings. */
    method FollowChain(hash_head: nat, tries: nat, nice: nat)
      returns (best_len: nat, ghost seen: seq<nat>, ghost rest: int, ghost second: nat)
      requires Shape() && Buffered() && Chained(strstart + 1) && Facing([], hash_head) && MIN_MATCH <= lookahead
      requires strstart + MIN_LOOKAHEAD <= window.Length && 1 <= prev_length <= MAX_MATCH && tries > 0
      modifies this`match_start
      ensures SoFarBest(seen, best_len, second) && prev_length <= best_len <= MAX_MATCH && Looked(seen, rest)
      ensures best_len > prev_length ==> rest < match_start && (second == prev_length || second < nice)
      ensures best_len >= nice || rest <= Bound() || |seen| == tries
    {
      hide Buffered, Chained, Shape, SoFarBest, Facing, Looked;
      seen := [];
      FirstBest();
      best_len, second := prev_length, prev_length;
      var chain_length := tries;
      var limit := if strstart > MaxDist() then strstart - MaxDist() else 0;
      var scan_end1, scan_end := window[strstart + best_len - 1], window[strstart + best_len];
      var cur: nat := hash_head;
      while true
        invariant SoFarBest(seen, best_len, second) && Facing(seen, cur) && prev_length <= best_len <= MAX_MATCH
        invariant chain_length > 0 && |seen| + chain_length == tries
        invariant scan_end1 == window[strstart + best_len - 1] && scan_end == window[strstart + best_len]
        invariant best_len > prev_length ==> cur < match_start && best_len < nice
        invariant second == prev_length || second < nice
        decreases chain_length
      {
        Advance(seen, cur);
        var best;
        best, second := LookAt(cur, best_len, scan_end1, scan_end, seen, second);
        seen := seen + [cur];
        if best > best_len {
          best_len := best;
          if best_len >= nice {
            rest := cur - 1;
            break;
          }
          scan_end1, scan_end := window[strstart + best_len - 1], window[strstart + best_len];
        }
        rest := prev[cur % w_size];
        cur := prev[cur % w_size];
        if cur <= limit {
          break;
        }
        chain_length := chain_length - 1;
        if chain_length == 0 {
          break;
        }
      }
    }

    /** The longest match at the current string that begins in the chain at `hash_head`; if it
        is not longer than the previous one, `match_start` is garbage. `seen` are the strings
        that were looked at, the candidates behind `rest`. */
    method LongestMatch(hash_head: nat) returns (length: nat, ghost seen: seq<nat>, ghost rest: int)
      requires Shape() && Buffered() && Chained(strstart + 1) && Nearest(hash_head) && hash_head > 0
      requires strstart - hash_head <= MaxDist() && MIN_MATCH <= lookahead && 1 <= prev_length <= MAX_MATCH
      requires strstart + MIN_LOOKAHEAD <= window.Length && Low() <= base
      modifies this`match_start
      ensures length <= lookahead && length <= MAX_MATCH && (length >= prev_length || length == lookahead)
      ensures length > prev_length ==> Found(data, base + strstart, strstart - match_start, length, MaxDist(), Low())
      ensures Looked(seen, rest) && (length < lookahead ==> Longest(seen, strstart, length))
      ensures length > prev_length ==> Closest(seen, length - 1) && rest < match_start
      ensures length >= nice_match || length >= lookahead || rest <= Bound() || |seen| == Tries()
    {
      hide Buffered, Chained, Shape, Longest, Looked, Closest, Found, Before, Nearest, SoFarBest, Facing, Best, Bound;
      ShapeSizes();
      NearestLooked(hash_head);
      var chain_length := max_chain_length;
      if prev_length >= good_match {
        chain_length := chain_length / 4;
      }
      var nice := nice_match;
      if nice > lookahead {
        nice := lookahead;
      }
      ghost var second;
      var best_len;
      best_len, seen, rest, second := FollowChain(hash_head, chain_length, nice);
      length := if best_len <= lookahead then best_len else lookahead;
      BestIs(seen, best_len, second);
      if length > prev_length {
        FoundIs(best_len, length);
        ClosestEnd(seen, best_len, second, length);
      }
    }

    lemma FoundIs(best_len: nat, length: nat)
      requires Buffered() && Best(best_len) && prev_length < length <= best_len && MIN_MATCH <= length <= lookahead
      requires Low() <= base
      ensures Found(data, base + strstart, strstart - match_start, length, MaxDist(), Low())
    {
      hide Holds, Repeats;
      SameData(match_start, strstart, best_len, length);
    }

    // ----- the symbol buffer

    method Tally(a: nat, b: nat, c: nat) returns (bflush: bool)
      requires Shape() && sym_next < sym_end && sym_next % 3 == 0
      modifies this`sym_next, sym_buf
      ensures sym_next == old(sym_next) + 3 <= sym_end && bflush == (sym_next == sym_end)
      ensures Tokens(sym_buf[..sym_next]) == old(Tokens(sym_buf[..sym_next])) + [TokenOf(a, b, c)]
    {
      ghost var t := sym_buf[..sym_next];
      sym_buf[sym_next] := a;
      sym_buf[sym_next + 1] := b;
      sym_buf[sym_next + 2] := c;
      sym_next := sym_next + 3;
      TokensPush(t, a, b, c);
      assert sym_buf[..sym_next] == t + [a, b, c];
      bflush := sym_next == sym_end;
    }

    lemma AllIs()
      requires sym_next <= sym_buf.Length
      ensures AllTokens() == sent + Tokens(sym_buf[..sym_next])
    {
    }

    lemma AccountedPush(pos: int, t: Token, r: Reason)
      requires Accounted(pos) && Justifies(t, r) && r.here.place == pos
      ensures Explained(matcher, Trying(), data, restarts, stops, AllTokens() + [t], reasons + [r], pos + Size(t))
    {
      hide Sensible, Explains, Known, Continues, AllTokens, Trying;
      AccountedSizes(pos);
      ExplainedPush(matcher, Trying(), data, restarts, stops, AllTokens(), reasons, pos, t, r);
    }

    lemma AccountedSizes(pos: int)
      requires Accounted(pos)
      ensures |AllTokens()| == |reasons| && KnownNow() == Known(matcher, Trying(), AllTokens(), reasons, |reasons|)
    {
    }

    method TallyLit(c: octet, ghost pos: int, ghost r: Reason) returns (bflush: bool)
      requires Shape() && Conserved(pos) && sym_next < sym_end && pos < |data| && data[pos] == c
      requires Justifies(Literal(c), r) && r.here.place == pos
      modifies this`sym_next, this`reasons, sym_buf
      ensures Conserved(pos + 1) && 0 < sym_next <= sym_end && bflush == (sym_next == sym_end)
      ensures AllTokens() == old(AllTokens()) + [Literal(c)] && reasons == old(reasons) + [r]
    {
      hide Tokens, CutsHold, Anew, Expand, AllReach, AllSendable, InBlocks, Explained, Trying, Justifies;
      AllIs();
      AccountedPush(pos, Literal(c), r);
      reasons := reasons + [r];
      ghost var t := Tokens(sym_buf[..sym_next]);
      LiteralToken(c);
      AnewPush(data, sent + t, restarts, pos, Literal(c));
      assert sent + t + [Literal(c)] == sent + (t + [Literal(c)]);
      bflush := Tally(0, 0, c as nat);
      CoversLiteral(data, sent, t, base + block_start, pos, MaxDist());
    }

    method TallyDist(dist: nat, length: nat, ghost pos: int, ghost r: Reason) returns (bflush: bool)
      requires Shape() && Conserved(pos) && sym_next < sym_end
      requires Justifies(Match(dist, length + MIN_MATCH), r) && r.here.place == pos
      requires Found(data, pos, dist, length + MIN_MATCH, MaxDist(), Low())
      modifies this`sym_next, this`reasons, sym_buf
      ensures Conserved(pos + length + MIN_MATCH) && 0 < sym_next <= sym_end && bflush == (sym_next == sym_end)
      ensures AllTokens() == old(AllTokens()) + [Match(dist, length + MIN_MATCH)] && reasons == old(reasons) + [r]
    {
      hide Tokens, CutsHold, Anew, Expand, AllReach, AllSendable, InBlocks, Explained, Trying, Justifies;
      ghost var t := Tokens(sym_buf[..sym_next]);
      ghost var m := Match(dist, length + MIN_MATCH);
      AllIs();
      AccountedPush(pos, m, r);
      reasons := reasons + [r];
      MatchToken(dist, length + MIN_MATCH);
      AnewPush(data, sent + t, restarts, pos, m);
      assert sent + t + [m] == sent + (t + [m]);
      bflush := Tally(dist % 256, dist / 256, length);
      CoversMatch(data, sent, t, base + block_start, pos, dist, length + MIN_MATCH, MaxDist(), Low());
    }

    lemma LowBase(pos: int)
      requires Conserved(pos)
      ensures Low() <= base
    {
    }

    // ----- blocks

    /** Sends the block: its tokens stand for the bytes from the start of the block to the
        current string, whatever the decoder has put out before. */
    method FlushBlockOnly()
      requires Shape() && Conserved(base + strstart)
      modifies this`block_start, this`sym_next, this`sent, this`cuts
      ensures Conserved(base + strstart) && sym_next == 0 && block_start == strstart
      ensures sent == old(sent) + old(Tokens(sym_buf[..sym_next]))
      ensures 0 <= old(base + block_start) <= base + strstart <= |data|
      ensures Expand(data[..old(base + block_start)], old(Tokens(sym_buf[..sym_next])))
        == data[..old(base + block_start)] + data[old(base + block_start)..base + strstart]
      ensures Expand([], sent) == data[..base + strstart] && cuts == old(cuts) + [Cut(|sent|, base + strstart)]
      ensures AllTokens() == old(AllTokens())
    {
      hide CutsHold, Expand, AllReach, AllSendable, Tokens, InBlocks, Anew, Explained;
      AllIs();
      var t := Tokens(sym_buf[..sym_next]);
      TokensCount(sym_buf[..sym_next]);
      CoversBlock(data, sent, t, base + block_start, base + strstart, MaxDist());
      CutsLater(data, [], sent, t, cuts);
      assert data + [] == data;
      sent := sent + t;
      CutNow(data, sent, cuts, base + strstart);
      OneBlock(old(sent), cuts, sym_end / 3, t, base + strstart);
      cuts := cuts + [Cut(|sent|, base + strstart)];
      sym_next := 0;
      block_start := strstart;
      NoTokens();
      assert sent + [] == sent;
    }

    lemma NoTokens()
      ensures Tokens([]) == []
    {
    }

    /** Whether the output is full. */
    method NoRoom() returns (r: bool)
      modifies this`asked
      ensures r == full(old(asked)) && asked == old(asked) + 1
    {
      r := full(asked);
      asked := asked + 1;
    }

    // ----- one step

    /** In order, with tokens for the input before `pos` and room for one more token. */
    ghost predicate Sound(pos: int)
      reads this`strstart, this`lookahead, this`data, this`base, this`ins, this`insert, this`ins_h, this`high_water,
            this`block_start, this`sym_next, this`sent, this`cuts, this`restarts, this`reasons, this`stops, window,
            head, prev, sym_buf
    {
      Filled() && Conserved(pos) && sym_next < sym_end && Informed()
    }

    /** No input is lost since `g`, and what was sent stays sent. */
    ghost predicate Onward(g: Start)
      reads this`data, this`input, this`sent
    {
      g.data <= data && data + input == g.all && g.sent <= sent
    }

    lemma OnwardSize(g: Start)
      requires Onward(g)
      ensures |data| <= |g.all|
    {
    }

    /** Fills the window; tokens and matches still stand for the same input. */
    method Refill(ghost pos: int, ghost g: Start)
      requires Sound(pos) && lookahead < MIN_LOOKAHEAD && Onward(g)
      modifies this`strstart, this`block_start, this`match_start, this`insert, this`base, this`ins, this`lookahead,
               this`input, this`data, this`ins_h, this`high_water, window, head, prev
      ensures Sound(pos) && (lookahead >= MIN_LOOKAHEAD || input == []) && strstart + MIN_LOOKAHEAD <= window.Length
      ensures base + strstart == old(base + strstart) && base + match_start == old(base + match_start)
      ensures old(data) <= data && Onward(g) && lookahead >= old(lookahead)
      ensures insert <= old(insert) && (old(strstart) > 0 ==> strstart > 0) && old(ins) <= ins
    {
      hide Shape, Buffered, Indexed, Covers, Tokens, CutsHold, InBlocks, Anew, Explained, Trying, Known;
      FilledApart();
      ghost var d := data;
      FillWindow();
      CutsLater(d, data[|d|..], sent, [], cuts);
      assert sent + [] == sent;
      AnewMore(d, data[|d|..], sent + Tokens(sym_buf[..sym_next]), restarts);
      ExplainedMore(matcher, Trying(), d, data[|d|..], restarts, [], stops, stops, AllTokens(), reasons, pos);
      assert restarts + [] == restarts;
      CoversMore(d, data[|d|..], sent, Tokens(sym_buf[..sym_next]), base + block_start, pos, MaxDist());
      assert data == d + data[|d|..];
    }

    lemma FilledApart()
      requires Filled()
      ensures head != sym_buf && prev != sym_buf && Separate(window, sym_buf)
    {
    }

    /** Inserts the current string; the result is the last string with the same hash, if there
        is one. */
    method Insert() returns (hash_head: nat)
      requires Filled() && (matcher.Fast? || matcher.Slow?)
      modifies this`ins_h, this`ins, head, prev
      ensures Shape() && Buffered() && IndexedAt(strstart + 1, strstart + lookahead)
      ensures hash_head > 0 ==> lookahead >= MIN_MATCH && insert == 0 && Chained(strstart + 1)
      ensures Nearest(hash_head)
      ensures ins == old(ins) + if lookahead >= MIN_MATCH then {base + strstart} else {}
    {
      hide Shape, Linked, HashAt;
      ShapeTables();
      ShapeApart();
      hash_head := 0;
      if lookahead >= MIN_MATCH {
        hash_head := InsertString(strstart, strstart + lookahead);
      } else {
        ChainedOn(Limit(strstart - insert, strstart + lookahead), Limit(strstart + 1 - insert, strstart + lookahead));
      }
    }

    /** The current string, of `n` bytes, is behind; the hash is ready for the next. */
    method StepTo(n: nat)
      requires Shape() && Buffered() && n <= lookahead && IndexedAt(strstart + n, strstart + lookahead)
      modifies this`strstart, this`lookahead
      ensures Shape() && Buffered() && Indexed() && strstart == old(strstart) + n && lookahead == old(lookahead) - n
    {
      hide Shape, Holds, IndexedAt;
      lookahead := lookahead - n;
      strstart := strstart + n;
    }

    /** Inserts the strings in a match, of which the first one is in the chains already. */
    method InsertMatched(ghost end: nat)
      requires Shape() && Holds(end) && IndexedAt(strstart + 1, end) && insert == 0 && match_length >= 2
      requires strstart + match_length + MIN_MATCH <= end && matcher.Fast?
      modifies this`strstart, this`match_length, this`ins_h, this`ins, head, prev
      ensures Holds(end) && IndexedAt(strstart, end) && strstart == old(strstart + match_length) && match_length == 0
      ensures old(ins) <= ins && forall a :: base + old(strstart) < a < base + strstart ==> a in ins
    {
      hide Shape, Linked, HashAt, LeadsTo, Rolled, Holds;
      ShapeTables();
      ShapeApart();
      match_length := match_length - 1;
      while true
        invariant old(ins) <= ins && forall a :: base + old(strstart) < a <= base + strstart ==> a in ins
        invariant Holds(end) && IndexedAt(strstart + 1, end) && match_length > 0
        invariant strstart + match_length + 1 == old(strstart + match_length)
        decreases match_length
      {
        strstart := strstart + 1;
        var _ := InsertString(strstart, end);
        match_length := match_length - 1;
        if match_length == 0 {
          break;
        }
      }
      strstart := strstart + 1;
    }

    /** Steps over a match without inserting its strings. */
    method SkipMatched(ghost end: nat)
      requires Shape() && Holds(end) && IndexedAt(strstart + 1, end) && insert == 0 && match_length >= 2
      requires matcher.Fast?
      requires strstart + match_length <= end && strstart + match_length + 2 <= window.Length
      requires strstart + MIN_MATCH <= end
      modifies this`strstart, this`match_length, this`ins_h
      ensures Holds(end) && IndexedAt(strstart, end) && strstart == old(strstart + match_length) && match_length == 0
    {
      hide Shape, Linked, Holds, Rolled;
      ShapeTables();
      ChainedOn(Limit(strstart + 1, end), Limit(strstart + match_length, end));
      strstart := strstart + match_length;
      match_length := 0;
      HeldSize(end);
      if strstart + MIN_MATCH <= end { WindowAt(strstart, end); }
      RolledAnew(p, data, base + strstart, window[strstart], window[strstart + 1]);
      ins_h := window[strstart] as bv32;
      ins_h := p.Update(ins_h, window[strstart + 1]);
    }

    /** Puts out the current byte and steps over it. */
    method LiteralStep(ghost r: Reason) returns (bflush: bool)
      requires Shape() && Buffered() && IndexedAt(strstart + 1, strstart + lookahead) && lookahead > 0
      requires Conserved(base + strstart) && sym_next < sym_end
      requires strstart < window.Length && r.here.place == base + strstart && Justifies(Literal(window[strstart]), r)
      modifies this`strstart, this`lookahead, this`sym_next, this`reasons, sym_buf
      ensures Shape() && Buffered() && Indexed() && Conserved(base + strstart) && strstart == old(strstart) + 1
      ensures 0 < sym_next <= sym_end && bflush == (sym_next == sym_end)
      ensures reasons == old(reasons) + [r] && AllTokens() == old(AllTokens()) + [Literal(old(window[strstart]))]
    {
      hide Shape, Holds, IndexedAt, Conserved, Justifies, AllTokens;
      ShapeApart();
      ByteAt(strstart, strstart + lookahead);
      bflush := TallyLit(window[strstart], base + strstart, r);
      StepTo(1);
    }

    lemma ByteAt(i: nat, end: nat)
      requires Holds(end) && i < end
      ensures i < window.Length && base + i < |data| && window[i] == data[base + i]
    {
      assert window[..end][i] == data[base..][i];
    }

    // ----- blocks of a run

    /** What each way of matching does for a caller: what has been said of the input holds
        for more of it; unless more input or more room is needed, all of it has been sent. */
    ghost predicate Answer(state: BlockState, flush: Request)
      reads this`sym_next, this`input, this`data, this`sent, this`cuts, this`restarts, this`asked, this`lookahead
    {
      && (state == NeedMore ==> (flush == NoFlush && input == []) || (asked > 0 && full(asked - 1)))
      && (state != NeedMore ==>
        input == [] && lookahead == 0 && flush != NoFlush && sym_next == 0 && Expand([], sent) == data)
      && (state == FinishStarted || state == FinishDone <==> flush == Finish && state != NeedMore)
      && (flush == Finish && state != NeedMore ==> cuts != [])
      && (state == BlockDone ==> flush == Flush || flush == FullFlush)
    }

    lemma Paused(flush: Request)
      requires (flush == NoFlush && input == []) || (asked > 0 && full(asked - 1))
      ensures Answer(NeedMore, flush)
    {
    }

    method FlushBlock(ghost g: Start) returns (stop: bool)
      requires Filled() && Conserved(base + strstart) && Informed() && Onward(g)
      modifies this`block_start, this`sym_next, this`sent, this`cuts, this`asked
      ensures Sound(base + strstart) && sym_next == 0 && Onward(g) && Expand([], sent) == data[..base + strstart]
      ensures cuts != [] && AllTokens() == old(AllTokens())
      ensures stop ==> asked > 0 && full(asked - 1)
    {
      hide Shape, Buffered, Indexed, Conserved, Expand, AllTokens, Known, Trying;
      FilledApart();
      FlushBlockOnly();
      stop := NoRoom();
      FilledSizes();
    }

    lemma SoundFilled(pos: int)
      requires Sound(pos)
      ensures Filled() && Conserved(pos) && sym_next < sym_end && Informed()
    {
    }

    lemma SoundApart(pos: int)
      requires Sound(pos)
      ensures head != sym_buf && prev != sym_buf && Separate(window, sym_buf)
    {
      SoundFilled(pos);
      FilledApart();
    }

    lemma FilledSizes()
      requires Filled()
      ensures sym_end > 0 && |data| == base + strstart + lookahead && strstart + lookahead <= window.Length
      ensures MaxDist() >= 250 && max_lazy_match <= MAX_MATCH && Shape() && Buffered() && Indexed()
    {
    }

    /** Ends the block after the last byte. */
    method EndBlock(flush: Request, ghost g: Start) returns (state: BlockState)
      requires Filled() && Conserved(base + strstart) && lookahead == 0 && input == [] && flush != NoFlush && Onward(g)
      requires Informed()
      modifies this`block_start, this`sym_next, this`sent, this`cuts, this`asked
      ensures Sound(base + strstart) && Answer(state, flush) && Onward(g)
    {
      hide Shape, Buffered, Indexed, Conserved, Expand, Tokens, Informed;
      FilledSizes();
      if flush == Finish {
        var stop := FlushBlock(g);
        return if stop then FinishStarted else FinishDone;
      }
      if sym_next != 0 {
        var stop := FlushBlock(g);
        if stop {
          return NeedMore;
        }
      } else {
        NothingLeft();
      }
      return BlockDone;
    }

    lemma NothingLeft()
      requires Conserved(base + strstart) && sym_next == 0
      ensures Expand([], sent) == data[..base + strstart]
    {
      assert Tokens(sym_buf[..0]) == [] && sent + [] == sent;
    }

    /** Ends the block after the last byte; `keep` strings are to be inserted later. At the end
        of the data the last two strings have not been inserted. */
    method LastBlock(keep: nat, flush: Request, ghost g: Start) returns (state: BlockState)
      requires Filled() && Conserved(base + strstart) && lookahead == 0 && input == [] && flush != NoFlush && Onward(g)
      requires keep <= strstart && keep < MIN_MATCH && Informed()
      modifies this`insert, this`block_start, this`sym_next, this`sent, this`cuts, this`asked
      ensures Sound(base + strstart) && Answer(state, flush) && Onward(g)
    {
      hide Shape, Holds, Conserved, Expand, Tokens, Linked, Rolled, KnownNow;
      ChainedOn(Limit(strstart - insert, strstart), Limit(strstart - keep, strstart));
      insert := keep;
      state := EndBlock(flush, g);
    }

    // ----- searching

    /** The window begins where all was forgotten, or as far back as a match may reach. */
    ghost predicate Far()
      reads this`base, this`strstart, this`restarts
    {
      base == Low() || MaxDist() <= strstart
    }

    lemma FilledFar()
      requires Filled()
      ensures Far()
    {
    }

    /** All input there is has been asked for. */
    ghost predicate AskedFor(flush: Request, g: Start)
      reads this`stops
    {
      flush != NoFlush ==> |g.all| in stops
    }

    lemma AllRead(flush: Request, g: Start)
      requires AskedFor(flush, g) && Onward(g) && input == [] && flush != NoFlush
      ensures |data| in stops
    {
      assert data + input == data;
    }

    /** There is enough input to look ahead, or a call has asked for all of it to be sent. */
    ghost predicate Sighted()
      reads this`lookahead, this`data, this`stops
    {
      lookahead >= MIN_LOOKAHEAD || |data| in stops
    }

    /** Strings that are repeated in the data are the same in the window. */
    lemma SameWindow(m: nat, s: nat, n: nat)
      requires Buffered() && Repeats(data, base + m, base + s, n) && s + n <= strstart + lookahead
      ensures Same(m, s, n)
    {
      var w, d := window[..strstart + lookahead], data[base..];
      forall j | s <= j < s + n ensures window[j] == window[j - (s - m)] {
        assert w[j] == d[j] && w[j - (s - m)] == d[j - (s - m)];
        assert data[base + j] == data[base + j - (s - m)];
      }
    }

    /** A known string in reach that is repeated for three bytes or more is a candidate. */
    lemma LongerCandidate(q: int, len: int)
      requires Buffered() && IndexedAt(strstart + 1, strstart + lookahead) && q in ins && len >= 2
      requires InReach(MaxDist(), restarts, q, base + strstart) && Longer(data, |data|, q, base + strstart, len)
      requires Shape() && Far()
      ensures q - base > Bound() && Candidate(q - base, strstart) && Same(q - base, strstart, len + 1)
      ensures lookahead >= MIN_MATCH && len < MAX_MATCH
    {
      hide Linked, Rolled, Holds;
      BufferFits();
      ReachBound(q);
      SameWindow(q - base, strstart, len + 1);
      var x := base + strstart;
      assert data[x] == data[q] && data[x + 1] == data[q + 1] && data[x + 2] == data[q + 2];
    }

    lemma ReachBound(q: int)
      requires InReach(MaxDist(), restarts, q, base + strstart) && Shape() && Far()
      ensures q - base > Bound()
    {
      ShapeSizes();
      if base == Low() && restarts != [] { assert !(q <= restarts[|restarts| - 1].bytes <= base + strstart); }
    }

    /** The search for which these strings were looked at. */
    ghost function SearchFor(seen: seq<nat>, length: int): Search
      reads this`base, this`strstart, this`data, this`prev_length, this`match_start
    {
      Search(base + strstart, |data|, Places(base, seen), prev_length, length, strstart - match_start)
    }

    /** What is known after a search. */
    ghost predicate Seen(seen: seq<nat>, rest: int, length: int)
      reads this`data, this`base, this`ins, this`strstart, this`lookahead, this`prev_length, this`match_start,
            this`restarts, window
    {
      && 2 <= length <= MAX_MATCH && Looked(seen, rest) && (length < lookahead ==> Longest(seen, strstart, length))
      && (length > prev_length ==> Closest(seen, length - 1) && rest < match_start)
      && (length > prev_length ==> Found(data, base + strstart, strstart - match_start, length, MaxDist(), Low()))
      && (length >= nice_match || length >= lookahead || rest <= Bound() || |seen| == Tries())
    }

    ghost predicate Searching()
      reads this`strstart, this`lookahead, this`data, this`base, this`ins, this`insert, this`ins_h, this`restarts,
            window, head, prev
    {
      Shape() && Buffered() && IndexedAt(strstart + 1, strstart + lookahead) && lookahead > 0 && Far()
    }

    lemma SeenThorough(seen: seq<nat>, rest: int, length: int)
      requires Searching() && Seen(seen, rest, length)
      ensures Thorough(Trying(), data, restarts, ins, SearchFor(seen, length))
    {
      hide Shape, Buffered, IndexedAt, Looked, Longest, Closest, Found, Candidate, InReach, Longer, Bound;
      var s := SearchFor(seen, length);
      SearchingFits();
      if length < nice_match && length < lookahead {
        forall q | q in ins && InReach(MaxDist(), restarts, q, base + strstart)
          ensures !Longer(data, s.end, q, s.place, length) || Passed(Trying(), s, q)
        {
          if Longer(data, s.end, q, s.place, length) {
            LongerCandidate(q, length);
            NotSeen(seen, rest, length, q - base);
            assert forall i :: 0 <= i < |seen| ==> s.near[i] == base + seen[i];
          }
        }
      }
    }

    lemma SearchingFits()
      requires Searching()
      ensures |data| == base + strstart + lookahead
    {
    }

    /** A candidate that is longer has not been looked at. */
    lemma NotSeen(seen: seq<nat>, rest: int, length: int, m: nat)
      requires Looked(seen, rest) && Longest(seen, strstart, length) && Candidate(m, strstart)
      requires Same(m, strstart, length + 1) && length < MAX_MATCH
      ensures m <= rest && forall i :: 0 <= i < |seen| ==> m < seen[i]
    {
      hide Same, Candidate, NoLonger;
      NotAmong(seen, length, m);
    }

    lemma NotAmong(seen: seq<nat>, length: int, m: nat)
      requires Longest(seen, strstart, length) && Same(m, strstart, length + 1) && length < MAX_MATCH
      ensures m !in seen
    {
      hide Same;
      forall i | 0 <= i < |seen| ensures seen[i] != m {
        assert NoLonger(seen[i], strstart, length);
      }
    }

    lemma SeenReal(seen: seq<nat>, rest: int, length: int)
      requires Searching() && Seen(seen, rest, length)
      ensures Real(Trying(), data, restarts, ins, SearchFor(seen, length))
    {
      hide Shape, Buffered, IndexedAt, Looked, Longest, Closest, Candidate, InReach, Longer, Bound, Repeats;
      var s := SearchFor(seen, length);
      if length > prev_length {
        forall q | q in ins && InReach(MaxDist(), restarts, q, base + strstart) && q > s.place - s.dist
          ensures !Longer(data, s.end, q, s.place, length - 1)
        {
          if Longer(data, s.end, q, s.place, length - 1) {
            LongerCandidate(q, length - 1);
            NotCloser(seen, rest, length, q - base);
          }
        }
      }
    }

    lemma NotCloser(seen: seq<nat>, rest: int, length: int, m: nat)
      requires Looked(seen, rest) && Closest(seen, length - 1) && Candidate(m, strstart) && rest < match_start
      requires m > match_start && length <= MAX_MATCH
      ensures !Same(m, strstart, length)
    {
      hide Same, Candidate;
      assert m in seen;
      var i :| 0 <= i < |seen| && seen[i] == m;
      assert NoLonger(seen[i], strstart, length - 1);
    }

    lemma SeenListed(seen: seq<nat>, rest: int, length: int)
      requires Searching() && Looked(seen, rest)
      ensures Listed(p, data, SearchFor(seen, length))
    {
      hide HashAt, Shape, IndexedAt;
      var s := SearchFor(seen, length);
      SearchingFits();
      forall i | 0 <= i < |s.near| ensures SameHash(p, data, s.near[i], s.place, s.end) {
        assert Candidate(seen[i], strstart);
        HashedThird(seen[i]);
      }
    }

    /** Only a string of three bytes has candidates. */
    lemma HashedThird(m: nat)
      requires Searching() && Candidate(m, strstart)
      ensures base + strstart + 3 <= |data|
    {
      hide Shape, Buffered;
      HashRange(p, data, base + m);
    }

    /** A search, by the places in the input. */
    lemma SeenSearched(seen: seq<nat>, rest: int, length: int)
      requires Searching() && Seen(seen, rest, length) && prev_length >= MIN_MATCH - 1
      ensures Searched(Trying(), data, restarts, ins, SearchFor(seen, length))
    {
      hide Shape, Buffered, IndexedAt, Looked, Longest, Closest, Found, Bound, Thorough, Real, Listed;
      SearchingFits();
      SeenThorough(seen, rest, length);
      SeenReal(seen, rest, length);
      SeenListed(seen, rest, length);
    }

    /** When there is no candidate in reach, nothing is found. */
    lemma NoneInReach(hash_head: nat)
      requires Searching() && prev_length >= MIN_MATCH - 1 && Nearest(hash_head)
      requires (hash_head == 0 || strstart - hash_head > MaxDist())
      ensures Searched(Trying(), data, restarts, ins, SearchFor([], 2))
    {
      hide Shape, Buffered, IndexedAt, Candidate, InReach, Longer;
      var s := SearchFor([], 2);
      SearchingFits();
      forall q | q in ins && InReach(MaxDist(), restarts, q, base + strstart)
        ensures !Longer(data, s.end, q, s.place, 2)
      {
        if Longer(data, s.end, q, s.place, 2) { LongerCandidate(q, 2); }
      }
    }

    // ----- greedy matching

    ghost predicate FastState()
      reads this`strstart, this`lookahead, this`data, this`base, this`ins, this`insert, this`ins_h, this`high_water,
            this`block_start, this`sym_next, this`sent, this`cuts, this`restarts, this`reasons, this`stops,
            this`match_length, this`prev_length, window, head, prev, sym_buf
    {
      matcher.Fast? && Sound(base + strstart) && match_length < MIN_MATCH && prev_length == MIN_MATCH - 1
    }

    /** Either there is enough input, or all of it has been read. */
    lemma SightedNow(flush: Request, g: Start)
      requires AskedFor(flush, g) && Onward(g)
      ensures lookahead >= MIN_LOOKAHEAD || (input == [] && flush != NoFlush) ==> Sighted()
      ensures lookahead > MAX_MATCH || (input == [] && flush != NoFlush) ==> RunSighted()
    {
      if input == [] && flush != NoFlush { AllRead(flush, g); }
    }

    lemma SightedEnd(s: Search)
      requires Sighted() && s.place == base + strstart && s.end == |data| == base + strstart + lookahead
      ensures Ended(s, stops)
    {
    }

    /** The longest match at the current string, and the search for it. */
    method SearchFrom(hash_head: nat) returns (length: nat, ghost s: Search)
      requires Searching() && Nearest(hash_head) && 0 < hash_head && strstart - hash_head <= MaxDist()
      requires lookahead >= MIN_MATCH && Chained(strstart + 1) && MIN_MATCH - 1 <= prev_length <= MAX_MATCH
      requires strstart + MIN_LOOKAHEAD <= window.Length && Low() <= base
      modifies this`match_start
      ensures 2 <= length <= MAX_MATCH && length <= lookahead && (length >= prev_length || length == lookahead)
      ensures length > prev_length ==> Found(data, base + strstart, strstart - match_start, length, MaxDist(), Low())
      ensures Searched(Trying(), data, restarts, ins, s)
      ensures s == Search(base + strstart, |data|, s.near, prev_length, length, strstart - match_start)
    {
      hide Searching, Nearest, Chained, Found, Searched, Looked, Longest, Closest, Seen, Bound, Tries;
      SearchingIs();
      ghost var seen, rest;
      length, seen, rest := LongestMatch(hash_head);
      SeenIs(seen, rest, length);
      SeenSearched(seen, rest, length);
      s := SearchFor(seen, length);
    }

    /** Looks for a match at the current string. */
    method FastSearch(hash_head: nat) returns (ghost s: Search)
      requires Searching() && Nearest(hash_head) && prev_length == MIN_MATCH - 1 && match_length < MIN_MATCH
      requires strstart + MIN_LOOKAHEAD <= window.Length && Low() <= base
      requires hash_head > 0 ==> lookahead >= MIN_MATCH && insert == 0 && Chained(strstart + 1)
      modifies this`match_length, this`match_start
      ensures Searched(Trying(), data, restarts, ins, s) && s.place == base + strstart && s.end == |data| && s.prev == 2
      ensures match_length < MIN_MATCH ==> s.len < MIN_MATCH
      ensures match_length >= MIN_MATCH ==>
        match_length <= lookahead && insert == 0 && s.len == match_length && s.dist == strstart - match_start >= 1
        && Found(data, base + strstart, strstart - match_start, match_length, MaxDist(), Low())
    {
      hide Searching, Nearest, Chained, Found, Searched;
      if hash_head != 0 && strstart - hash_head <= MaxDist() {
        match_length, s := SearchFrom(hash_head);
        if match_length >= MIN_MATCH { FoundBack(); }
      } else {
        NoneInReach(hash_head);
        s := SearchFor([], 2);
      }
    }

    lemma FoundBack()
      requires Found(data, base + strstart, strstart - match_start, match_length, MaxDist(), Low())
      ensures strstart - match_start >= 1
    {
    }

    lemma SearchingIs()
      requires Searching()
      ensures Shape() && Buffered()
    {
    }

    lemma SeenIs(seen: seq<nat>, rest: int, length: nat)
      requires Looked(seen, rest) && 2 <= length <= MAX_MATCH
      requires (length < lookahead ==> Longest(seen, strstart, length))
      requires length > prev_length ==> Closest(seen, length - 1) && rest < match_start
      requires length > prev_length ==> Found(data, base + strstart, strstart - match_start, length, MaxDist(), Low())
      requires length >= nice_match || length >= lookahead || rest <= Bound() || |seen| == Tries()
      ensures Seen(seen, rest, length)
    {
    }

    /** Puts out a match and steps over it, with or without inserting its strings. */
    method FastMatch(ghost r: Reason) returns (bflush: bool)
      requires Shape() && Buffered() && IndexedAt(strstart + 1, strstart + lookahead) && insert == 0 && matcher.Fast?
      requires Conserved(base + strstart) && sym_next < sym_end && strstart + MIN_LOOKAHEAD <= window.Length
      requires MIN_MATCH <= match_length <= lookahead
      requires Found(data, base + strstart, strstart - match_start, match_length, MaxDist(), Low())
      requires r.here.place == base + strstart && Justifies(Match(strstart - match_start, match_length), r)
      modifies this`strstart, this`lookahead, this`ins, this`ins_h, this`sym_next, this`reasons, this`match_length,
               head, prev, sym_buf
      ensures Shape() && Buffered() && Indexed() && Conserved(base + strstart)
      ensures strstart == old(strstart + match_length)
      ensures match_length == 0
      ensures 0 < sym_next <= sym_end && bflush == (sym_next == sym_end)
      ensures AllTokens() == old(AllTokens()) + [Match(old(strstart - match_start), old(match_length))]
      ensures reasons == old(reasons) + [r] && old(ins) <= ins
      ensures old(match_length <= max_lazy_match && lookahead >= match_length + MIN_MATCH) ==>
        forall a :: base + old(strstart) < a < base + strstart ==> a in ins
    {
      hide Shape, Holds, IndexedAt, Conserved, Repeats, Justifies, AllTokens;
      ShapeApart();
      ghost var end := strstart + lookahead;
      bflush := TallyDist(strstart - match_start, match_length - MIN_MATCH, base + strstart, r);
      lookahead := lookahead - match_length;
      if match_length <= max_lazy_match && lookahead >= MIN_MATCH {
        InsertMatched(end);
      } else {
        SkipMatched(end);
      }
    }

    /** A token for what was found. */
    lemma FastJustified(t: Token, s: Search)
      requires matcher.Fast? && Informed() && Sighted() && Searched(Trying(), data, restarts, ins, s)
      requires s.place == base + strstart && s.end == |data| == base + strstart + lookahead && s.prev == 2
      requires if t.Literal? then s.len < MIN_MATCH else t.len == s.len >= MIN_MATCH && t.dist == s.dist
      ensures Justifies(t, Reason(s, s))
    {
      hide Searched, AllTokens, KnownNow, Trying, Continues;
      SearchedLess(Trying(), data, restarts, ins, KnownNow(), s);
    }

    /** Inserts the current string and looks for a match. */
    method FastLook() returns (ghost s: Search)
      requires FastState() && lookahead > 0 && strstart + MIN_LOOKAHEAD <= window.Length
      modifies this`ins, this`ins_h, this`match_length, this`match_start, head, prev
      ensures Shape() && Buffered() && IndexedAt(strstart + 1, strstart + lookahead) && old(ins) <= ins
      ensures lookahead >= MIN_MATCH ==> base + strstart in ins
      ensures Searched(Trying(), data, restarts, ins, s) && s.place == base + strstart && s.end == |data| && s.prev == 2
      ensures match_length < MIN_MATCH ==> s.len < MIN_MATCH
      ensures match_length >= MIN_MATCH ==>
        match_length <= lookahead && insert == 0 && s.len == match_length && s.dist == strstart - match_start >= 1
        && Found(data, base + strstart, strstart - match_start, match_length, MaxDist(), Low())
    {
      hide Shape, Buffered, IndexedAt, Conserved, Chained, Found, Nearest, Far, Trying, Searched, Informed;
      FilledApart();
      FilledFar();
      LowBase(base + strstart);
      var hash_head := Insert();
      s := FastSearch(hash_head);
    }

    /** Emits a token for what was found, a match or a literal. */
    method FastPut(ghost s: Search) returns (bflush: bool)
      requires Shape() && Buffered() && IndexedAt(strstart + 1, strstart + lookahead) && matcher.Fast? && lookahead > 0
      requires Conserved(base + strstart) && sym_next < sym_end && strstart + MIN_LOOKAHEAD <= window.Length
      requires Informed() && Sighted() && Searched(Trying(), data, restarts, ins, s)
      requires s.place == base + strstart && s.end == |data| == base + strstart + lookahead && s.prev == 2
      requires lookahead >= MIN_MATCH ==> base + strstart in ins
      requires match_length < MIN_MATCH ==> s.len < MIN_MATCH
      requires match_length >= MIN_MATCH ==>
        match_length <= lookahead && insert == 0 && s.len == match_length && s.dist == strstart - match_start >= 1
        && Found(data, base + strstart, strstart - match_start, match_length, MaxDist(), Low())
      modifies this`strstart, this`lookahead, this`ins, this`ins_h, this`sym_next, this`reasons, this`match_length,
               head, prev, sym_buf
      ensures Shape() && Buffered() && Indexed() && Conserved(base + strstart) && strstart > old(strstart)
      ensures match_length < MIN_MATCH && Informed() && |AllTokens()| == |old(AllTokens())| + 1
      ensures 0 < sym_next <= sym_end && bflush == (sym_next == sym_end)
    {
      hide Shape, Buffered, IndexedAt, Conserved, Found, KnownNow, Trying, Searched, AllTokens, Sighted, Justifies;
      ghost var tokens, why, r := AllTokens(), reasons, Reason(s, s);
      KnownIs(base + strstart);
      if match_length >= MIN_MATCH {
        ghost var t := Match(strstart - match_start, match_length);
        FastJustified(t, s);
        bflush := FastMatch(r);
        FastInformed(tokens, why, t, r);
      } else {
        ghost var t := Literal(window[strstart]);
        FastJustified(t, s);
        bflush := LiteralStep(r);
        FastInformed(tokens, why, t, r);
      }
    }

    /** Emits a token for the current string, a match or a literal, and steps over it. */
    method FastStep() returns (bflush: bool)
      requires FastState() && lookahead > 0 && strstart + MIN_LOOKAHEAD <= window.Length && Sighted()
      modifies this`strstart, this`lookahead, this`ins, this`ins_h, this`sym_next, this`reasons, this`match_length,
               this`match_start, head, prev, sym_buf
      ensures Filled() && Conserved(base + strstart) && strstart > old(strstart) && match_length < MIN_MATCH
      ensures Informed() && |AllTokens()| == |old(AllTokens())| + 1
      ensures 0 < sym_next <= sym_end && bflush == (sym_next == sym_end)
    {
      hide Shape, Buffered, IndexedAt, Conserved, Found, KnownNow, Trying, Searched, AllTokens, Sighted;
      FilledApart();
      FilledSizes();
      ghost var s := FastLook();
      bflush := FastPut(s);
    }

    lemma KnownIs(pos: int)
      requires Conserved(pos) && Informed() && (matcher.Fast? || matcher.Slow?)
      ensures |AllTokens()| == |reasons| && Known(matcher, Trying(), AllTokens(), reasons, |reasons|) <= ins
    {
    }

    lemma FastInformed(tokens: seq<Token>, why: seq<Reason>, t: Token, r: Reason)
      requires matcher.Fast? && |tokens| == |why| && AllTokens() == tokens + [t] && reasons == why + [r]
      requires Known(matcher, Trying(), tokens, why, |why|) <= ins && (t.Match? ==> t.len >= MIN_MATCH)
      requires r.here.place + 3 <= r.here.end ==> r.here.place in ins
      requires t.Match? && t.len <= max_lazy_match && r.here.place + t.len + 3 <= r.here.end ==>
        forall a :: r.here.place < a < r.here.place + t.len ==> a in ins
      ensures Informed()
    {
      hide AllTokens, Known;
      InformedPush(tokens, why, t, r);
    }

    method FastRefill(ghost g: Start)
      requires FastState() && lookahead < MIN_LOOKAHEAD && Onward(g)
      modifies this`strstart, this`block_start, this`match_start, this`insert, this`base, this`ins, this`lookahead,
               this`input, this`data, this`ins_h, this`high_water, window, head, prev
      ensures FastState() && (lookahead >= MIN_LOOKAHEAD || input == []) && strstart + MIN_LOOKAHEAD <= window.Length
      ensures base + strstart == old(base + strstart) && Onward(g)
    {
      hide Sound, Onward;
      Refill(base + strstart, g);
    }

    /** One step, and the block if it is full. */
    method FastTake(ghost g: Start) returns (stop: bool)
      requires FastState() && Onward(g) && lookahead > 0 && strstart + MIN_LOOKAHEAD <= window.Length && Sighted()
      modifies this`strstart, this`lookahead, this`ins, this`ins_h, this`sym_next, this`reasons, this`match_length,
               this`match_start, this`block_start, this`sent, this`cuts, this`asked, head, prev, sym_buf
      ensures FastState() && Onward(g) && strstart > old(strstart) && (stop ==> asked > 0 && full(asked - 1))
    {
      hide Filled, Conserved, Onward, Shape, Buffered, Indexed, Expand, Informed, AllTokens, Sighted;
      stop := false;
      var bflush := FastStep();
      if bflush {
        stop := FlushBlock(g);
      }
    }

    lemma FastSizes()
      requires FastState()
      ensures |data| == base + strstart + lookahead && strstart + lookahead <= window.Length
    {
      hide Conserved, Shape, Indexed, Informed;
    }

    /** Ends the block after the last byte. */
    method FastEnd(flush: Request, ghost g: Start) returns (state: BlockState)
      requires FastState() && lookahead == 0 && input == [] && flush != NoFlush && Onward(g)
      modifies this`insert, this`block_start, this`sym_next, this`sent, this`cuts, this`asked
      ensures FastState() && Answer(state, flush) && Onward(g)
    {
      hide Filled, Conserved, Onward, Answer, Shape, Buffered, Indexed, Informed;
      SoundFilled(base + strstart);
      state := LastBlock(if strstart < MIN_MATCH - 1 then strstart else MIN_MATCH - 1, flush, g);
    }

    method DeflateFast(flush: Request, ghost g: Start) returns (state: BlockState)
      requires FastState() && Onward(g) && AskedFor(flush, g)
      modifies this`strstart, this`block_start, this`match_start, this`insert, this`base, this`ins, this`lookahead,
               this`input, this`data, this`ins_h, this`high_water, this`sym_next, this`reasons, this`match_length,
               this`sent, this`cuts, this`asked, window, head, prev, sym_buf
      ensures FastState() && Answer(state, flush) && Onward(g)
    {
      hide FastState, AskedFor, Onward, Answer, Sighted, RunSighted;
      while true
        invariant FastState() && Onward(g)
        decreases |g.all| - base - strstart
      {
        if lookahead < MIN_LOOKAHEAD {
          FastRefill(g);
          if lookahead < MIN_LOOKAHEAD && flush == NoFlush {
            Paused(flush);
            return NeedMore;
          }
          if lookahead == 0 {
            break;
          }
        }
        FastSizes();
        OnwardSize(g);
        SightedNow(flush, g);
        var stop := FastTake(g);
        if stop {
          Paused(flush);
          return NeedMore;
        }
      }
      state := FastEnd(flush, g);
    }

    // ----- lazy matching

    /** The place up to which the tokens stand for the input: when a match may be put off, the
        byte before the current string is still to be put out. */
    ghost function Done(): int
      reads this`base, this`strstart, this`match_available
    {
      base + strstart - (if match_available then 1 else 0)
    }

    /** The match that was found at the string before the current one, if there is one. */
    ghost predicate PutOff()
      reads this`data, this`base, this`strstart, this`insert, this`match_length, this`match_start, this`match_available,
            this`restarts
    {
      && MIN_MATCH - 1 <= match_length <= MAX_MATCH && (match_available ==> strstart > 0)
      && (match_length >= MIN_MATCH ==>
            match_available && insert == 0
              && Found(data, base + strstart - 1, strstart - 1 - match_start, match_length, MaxDist(), Low()))
    }

    /** The search at the string before the current one. */
    ghost predicate Awaited(s: Search)
      reads this`strstart, this`data, this`base, this`sym_next, this`sent, this`restarts, this`reasons, this`stops,
            sym_buf
    {
      && s.place == base + strstart - 1 && Ended(s, stops) && Searched(Trying(), data, restarts, KnownNow(), s)
      && Continues(Trying(), AllTokens(), reasons, s)
    }

    /** What is known of the string before the current one when it was put off: the search
        there, of which the match is kept. */
    ghost predicate Waiting()
      reads this`strstart, this`data, this`base, this`ins, this`sym_next, this`sent, this`restarts, this`reasons,
            this`stops, this`last, this`match_length, this`match_start, sym_buf
    {
      && Awaited(last) && Itself(last) <= ins && Kept(Trying(), last) == match_length
      && (match_length >= MIN_MATCH ==> last.dist == strstart - 1 - match_start)
    }

    ghost predicate SlowState()
      reads this`strstart, this`lookahead, this`data, this`base, this`ins, this`insert, this`ins_h, this`high_water,
            this`block_start, this`sym_next, this`sent, this`cuts, this`restarts, this`reasons, this`stops,
            this`last, this`match_length, this`match_start, this`match_available, window, head, prev, sym_buf
    {
      matcher.Slow? && Sound(Done()) && PutOff() && (match_available ==> Waiting())
    }

    /** All places behind `lo` up to the two others have been inserted. */
    ghost predicate Through(known: set<int>, lo: int, hi: int, most: int) {
      forall a :: lo < a <= hi && a <= most ==> a in known
    }

    lemma ThroughMore(was: set<int>, known: set<int>, lo: int, hi: int, most: int)
      requires Through(was, lo, hi - 1, most) && was <= known && (hi <= most ==> hi in known)
      ensures Through(known, lo, hi, most)
    {
    }

    /** Inserts strings until the end of a match, those that have a third byte. */
    method InsertUpTo(max_insert: nat, ghost end: nat)
      requires Shape() && Holds(end) && IndexedAt(strstart + 1, end) && insert == 0 && prev_length > 0
      requires max_insert + MIN_MATCH == end
      requires matcher.Slow?
      modifies this`strstart, this`prev_length, this`ins_h, this`ins, head, prev
      ensures Holds(end) && IndexedAt(strstart + 1, end) && strstart == old(strstart + prev_length) && prev_length == 0
      ensures old(ins) <= ins
      ensures forall a :: base + old(strstart) < a <= base + strstart && a <= base + max_insert ==> a in ins
    {
      hide Shape, Linked, HashAt, LeadsTo, Rolled, Holds, Through;
      ShapeTables();
      ShapeApart();
      HeldSize(end);
      ThroughNone(ins, base + strstart, base + max_insert);
      while true
        invariant old(ins) <= ins && Through(ins, base + old(strstart), base + strstart, base + max_insert)
        invariant Holds(end) && IndexedAt(strstart + 1, end) && prev_length > 0
        invariant strstart + prev_length == old(strstart + prev_length)
        decreases prev_length
      {
        ghost var was := ins;
        strstart := strstart + 1;
        if strstart <= max_insert {
          var _ := InsertString(strstart, end);
          ThroughMore(was, ins, base + old(strstart), base + strstart, base + max_insert);
        } else {
          ThroughMore(was, ins, base + old(strstart), base + strstart, base + max_insert);
          NoThird(base + strstart + 1);
        }
        prev_length := prev_length - 1;
        if prev_length == 0 {
          break;
        }
      }
      ThroughIs(ins, base + old(strstart), base + strstart, base + max_insert);
    }

    lemma ThroughNone(known: set<int>, lo: int, most: int)
      ensures Through(known, lo, lo, most)
    {
    }

    lemma ThroughIs(known: set<int>, lo: int, hi: int, most: int)
      requires Through(known, lo, hi, most)
      ensures forall a :: lo < a <= hi && a <= most ==> a in known
    {
    }

    /** Steps over the match that began before the current string. */
    method SlowPass(max_insert: nat, ghost end: nat)
      requires Shape() && Holds(end) && IndexedAt(strstart + 1, end) && insert == 0 && matcher.Slow?
      requires prev_length >= MIN_MATCH && max_insert + MIN_MATCH == end
      modifies this`strstart, this`ins, this`ins_h, this`prev_length, head, prev
      ensures Holds(end) && IndexedAt(strstart, end) && strstart == old(strstart) - 1 + old(prev_length)
      ensures old(ins) <= ins
      ensures forall a :: base + old(strstart) < a < base + strstart && a + 3 <= base + end ==> a in ins
    {
      hide Shape, Holds, IndexedAt;
      prev_length := prev_length - 2;
      InsertUpTo(max_insert, end);
      strstart := strstart + 1;
    }

    lemma MatchFits()
      requires Found(data, base + strstart - 1, strstart - 1 - prev_match, prev_length, MaxDist(), Low()) && Buffered()
      ensures strstart - 1 - prev_match >= 1 && MIN_MATCH <= prev_length <= MAX_MATCH
      ensures prev_length - 1 <= lookahead
    {
    }

    /** Puts out the match that was put off, and steps over it. */
    method SlowMatch(ghost r: Reason) returns (bflush: bool)
      requires Shape() && Buffered() && IndexedAt(strstart + 1, strstart + lookahead) && insert == 0
      requires matcher.Slow? && match_available
      requires strstart > 0 && Conserved(base + strstart - 1) && sym_next < sym_end
      requires Found(data, base + strstart - 1, strstart - 1 - prev_match, prev_length, MaxDist(), Low())
      requires r.here.place == base + strstart - 1 && Justifies(Match(strstart - 1 - prev_match, prev_length), r)
      modifies this`strstart, this`lookahead, this`ins, this`ins_h, this`sym_next, this`reasons, this`prev_length,
               this`match_length, this`match_available, head, prev, sym_buf
      ensures Shape() && Buffered() && Indexed() && Conserved(base + strstart) && strstart > old(strstart)
      ensures match_length == MIN_MATCH - 1 && !match_available && insert == 0
      ensures 0 < sym_next <= sym_end && bflush == (sym_next == sym_end)
      ensures AllTokens() == old(AllTokens()) + [Match(old(strstart - 1 - prev_match), old(prev_length))]
      ensures reasons == old(reasons) + [r] && old(ins) <= ins
      ensures forall a :: base + old(strstart) < a < base + old(strstart) - 1 + old(prev_length) && a + 3 <= |data| ==>
        a in ins
    {
      hide Shape, Holds, IndexedAt, Conserved, Justifies, AllTokens, Found;
      ShapeApart();
      BufferFits();
      MatchFits();
      ghost var end := strstart + lookahead;
      var max_insert := strstart + lookahead - MIN_MATCH;
      bflush := TallyDist(strstart - 1 - prev_match, prev_length - MIN_MATCH, base + strstart - 1, r);
      lookahead := lookahead - (prev_length - 1);
      SlowPass(max_insert, end);
      match_available := false;
      match_length := MIN_MATCH - 1;
    }

    /** Looks for a match at the current string, unless the previous one is good enough. What
        is no better than the previous match is of no use. */
    method SlowSearch(hash_head: nat) returns (ghost s: Search)
      requires Searching() && Nearest(hash_head) && strstart + MIN_LOOKAHEAD <= window.Length && Low() <= base
      requires MIN_MATCH - 1 <= match_length <= MAX_MATCH
      requires hash_head > 0 ==> lookahead >= MIN_MATCH && insert == 0 && Chained(strstart + 1)
      modifies this`prev_length, this`prev_match, this`match_length, this`match_start
      ensures prev_length == old(match_length) && prev_match == old(match_start)
      ensures MIN_MATCH - 1 <= match_length <= MAX_MATCH
      ensures match_length >= MIN_MATCH && !(prev_length >= MIN_MATCH && match_length <= prev_length) ==>
        insert == 0 && Found(data, base + strstart, strstart - match_start, match_length, MaxDist(), Low())
      ensures s.place == base + strstart && s.end == |data| && s.prev == prev_length
      ensures Kept(Trying(), s) == match_length && (match_length >= MIN_MATCH ==> s.dist == strstart - match_start)
      ensures if prev_length < max_lazy_match then Searched(Trying(), data, restarts, ins, s)
              else match_length == MIN_MATCH - 1
    {
      hide Searching, Nearest, Chained, Found, Searched;
      prev_length, prev_match := match_length, match_start;
      match_length := MIN_MATCH - 1;
      s := SearchFor([], MIN_MATCH - 1);
      if hash_head != 0 && prev_length < max_lazy_match && strstart - hash_head <= MaxDist() {
        match_length, s := SearchFrom(hash_head);
        if match_length <= 5 && (filtered || (match_length == MIN_MATCH && strstart - match_start > TOO_FAR)) {
          match_length := MIN_MATCH - 1;
        }
      } else if prev_length < max_lazy_match {
        NoneInReach(hash_head);
      }
    }

    /** Puts out the byte before the current string, which begins no better match. */
    method SlowLiteral(ghost r: Reason) returns (bflush: bool)
      requires Shape() && Buffered() && strstart > 0 && Conserved(base + strstart - 1) && sym_next < sym_end
      requires r.here.place == base + strstart - 1 && forall c :: Justifies(Literal(c), r)
      modifies this`sym_next, this`reasons, sym_buf
      ensures Conserved(base + strstart) && 0 < sym_next <= sym_end && bflush == (sym_next == sym_end)
      ensures exists c :: AllTokens() == old(AllTokens()) + [Literal(c)]
      ensures reasons == old(reasons) + [r]
    {
      hide Shape, Holds, Conserved, Justifies, AllTokens;
      BufferFits();
      ByteAt(strstart - 1, strstart + lookahead);
      assert Justifies(Literal(window[strstart - 1]), r);
      bflush := TallyLit(window[strstart - 1], base + strstart - 1, r);
    }

    /** The strings that a literal makes known are in the chains. */
    lemma LiteralInformed(tokens: seq<Token>, why: seq<Reason>, t: Token, r: Reason)
      requires |tokens| == |why| && AllTokens() == tokens + [t] && reasons == why + [r] && t.Literal?
      requires Known(matcher, Trying(), tokens, why, |why|) <= ins && Itself(r.here) <= ins
      ensures Informed()
    {
      hide AllTokens, Known;
      InformedPush(tokens, why, t, r);
    }

    /** Puts out the byte before the current string, and the block if it is full. */
    method SlowPut(ghost g: Start, ghost r: Reason)
      requires Shape() && Buffered() && strstart > 0 && Conserved(base + strstart - 1) && sym_next < sym_end
      requires Onward(g)
      requires matcher.Slow? && Informed() && Itself(r.here) <= ins
      requires r.here.place == base + strstart - 1 && forall c :: Justifies(Literal(c), r)
      requires r.next.prev == Kept(Trying(), r.here)
      modifies this`block_start, this`sym_next, this`reasons, this`sent, this`cuts, sym_buf
      ensures Conserved(base + strstart) && sym_next < sym_end && Onward(g)
      ensures Informed() && Continues(Trying(), AllTokens(), reasons, r.next)
    {
      hide Shape, Buffered, Conserved, Justifies, AllTokens, Known, KnownNow, Trying, Continues, Itself, Expand;
      ShapeSizes();
      ghost var tokens, why := AllTokens(), reasons;
      KnownIs(base + strstart - 1);
      var bflush := SlowLiteral(r);
      ghost var c :| AllTokens() == tokens + [Literal(c)];
      LiteralInformed(tokens, why, Literal(c), r);
      ContinuesOn(Trying(), tokens, why, Literal(c), r);
      if bflush {
        SlowFlush();
      }
    }

    /** Sends the block when it is full. */
    method SlowFlush()
      requires Shape() && Conserved(base + strstart) && Informed()
      modifies this`block_start, this`sym_next, this`sent, this`cuts
      ensures Conserved(base + strstart) && sym_next == 0 && old(sent) <= sent
      ensures Informed() && AllTokens() == old(AllTokens())
    {
      hide Conserved, AllTokens, Known, Trying, Expand;
      FlushBlockOnly();
    }

    /** Puts out the byte before the current string if there is one that was put off, and puts
        off the current one. */
    method SlowWait(ghost g: Start, ghost r: Reason) returns (stop: bool)
      requires Shape() && Buffered() && IndexedAt(strstart + 1, strstart + lookahead) && lookahead > 0 && Onward(g)
      requires Conserved(Done()) && sym_next < sym_end && (match_available ==> strstart > 0)
      requires matcher.Slow? && Informed()
      requires match_available ==>
        Itself(r.here) <= ins && r.here.place == base + strstart - 1 && r.next.prev == Kept(Trying(), r.here)
        && forall c :: Justifies(Literal(c), r)
      modifies this`strstart, this`lookahead, this`block_start, this`sym_next, this`reasons, this`sent, this`cuts,
               this`asked, this`match_available, sym_buf
      ensures Shape() && Buffered() && Indexed() && Conserved(base + strstart - 1) && sym_next < sym_end && Onward(g)
      ensures strstart == old(strstart) + 1 && match_available && (stop ==> asked > 0 && full(asked - 1))
      ensures Informed()
      ensures (old(match_available) || r.next.prev == 2 ==> Continues(Trying(), AllTokens(), reasons, r.next))
    {
      hide Shape, Holds, IndexedAt, Conserved, Justifies, AllTokens, KnownNow, Itself, Onward;
      ShapeApart();
      stop := false;
      if match_available {
        SlowPut(g, r);
        StepTo(1);
        stop := NoRoom();
      } else {
        match_available := true;
        StepTo(1);
      }
    }

    /** The strings in a match are in the chains. */
    lemma MatchInformed(tokens: seq<Token>, why: seq<Reason>, t: Token, r: Reason)
      requires |tokens| == |why| && AllTokens() == tokens + [t] && reasons == why + [r] && t.Match?
      requires Known(matcher, Trying(), tokens, why, |why|) <= ins && Itself(r.here) <= ins
      requires forall a :: r.here.place < a < r.here.place + t.len && a + 3 <= r.here.end ==> a in ins
      ensures Informed()
    {
      hide AllTokens, Known;
      InformedPush(tokens, why, t, r);
    }

    /** Puts out the match that was put off, and the block if it is full. */
    method SlowTake(ghost g: Start, ghost r: Reason) returns (stop: bool)
      requires Shape() && Buffered() && IndexedAt(strstart + 1, strstart + lookahead) && insert == 0
      requires matcher.Slow? && match_available
      requires strstart > 0 && Conserved(base + strstart - 1) && sym_next < sym_end && Onward(g)
      requires high_water <= window.Length
      requires Found(data, base + strstart - 1, strstart - 1 - prev_match, prev_length, MaxDist(), Low())
      requires r.here.place == base + strstart - 1 && Justifies(Match(strstart - 1 - prev_match, prev_length), r)
      requires Informed() && Itself(r.here) <= ins && r.here.end <= |data|
      requires base + strstart + 3 <= |data| ==> base + strstart in ins
      modifies this`strstart, this`lookahead, this`ins, this`ins_h, this`sym_next, this`reasons, this`prev_length,
               this`match_length, this`match_available, this`block_start, this`sent, this`cuts, this`asked, head, prev,
               sym_buf
      ensures SlowState() && Onward(g) && strstart > old(strstart) && (stop ==> asked > 0 && full(asked - 1))
      ensures !match_available
    {
      hide Shape, Buffered, IndexedAt, Conserved, Found, Onward, Justifies, AllTokens, Known, KnownNow, Trying, Itself;
      hide Waiting;
      PutOffBack();
      ghost var tokens, why, t := AllTokens(), reasons, Match(strstart - 1 - prev_match, prev_length);
      KnownIs(base + strstart - 1);
      var bflush := SlowMatch(r);
      MatchInformed(tokens, why, t, r);
      stop := false;
      if bflush {
        stop := FlushBlock(g);
      }
    }

    lemma PutOffBack()
      requires Found(data, base + strstart - 1, strstart - 1 - prev_match, prev_length, MaxDist(), Low())
      ensures strstart - 1 - prev_match >= 1
    {
    }

    /** Why the match that was put off is sent. */
    lemma SlowMatchJustified(r: Reason)
      requires matcher.Slow? && Informed() && Sighted() && Awaited(r.here) && Itself(r.here) <= ins && strstart > 0
      requires r.next.place == base + strstart && r.next.prev == prev_length && r.next.end == |data|
      requires |data| == base + strstart + lookahead
      requires prev_length < max_lazy_match ==> Searched(Trying(), data, restarts, ins, r.next)
      requires Kept(Trying(), r.here) == prev_length >= MIN_MATCH && r.here.dist == strstart - 1 - prev_match >= 0
      requires Kept(Trying(), r.next) <= prev_length
      ensures Justifies(Match(strstart - 1 - prev_match, prev_length), r)
    {
      hide Searched, KnownNow, AllTokens, Kept, Continues;
      MatchJustified(Trying(), data, restarts, stops, KnownNow(), ins, Match(strstart - 1 - prev_match, prev_length),
        r);
    }

    /** Why the byte that was put off is sent. */
    lemma SlowLiteralJustified(r: Reason)
      requires matcher.Slow? && Informed() && Sighted() && Awaited(r.here) && Itself(r.here) <= ins && strstart > 0
      requires r.next.place == base + strstart && r.next.prev == prev_length && r.next.end == |data|
      requires |data| == base + strstart + lookahead && Searched(Trying(), data, restarts, ins, r.next)
      requires Kept(Trying(), r.here) == prev_length
      requires prev_length < MIN_MATCH || Kept(Trying(), r.next) > prev_length
      ensures forall c :: Justifies(Literal(c), r)
    {
      hide Searched, KnownNow, AllTokens, Kept, Continues;
      forall c ensures Justifies(Literal(c), r) {
        LiteralJustified(Trying(), data, restarts, stops, KnownNow(), ins, Literal(c), r);
      }
    }

    lemma WaitingIs()
      requires Waiting()
      ensures Awaited(last) && Kept(Trying(), last) == match_length && last.end <= |data| && Itself(last) <= ins
      ensures Searched(Trying(), data, restarts, KnownNow(), last) && Ended(last, stops)
      ensures Continues(Trying(), AllTokens(), reasons, last)
      ensures match_length >= MIN_MATCH ==> last.dist == strstart - 1 - match_start
      ensures last.place == base + strstart - 1
    {
    }

    /** The current string is put off. */
    lemma WaitingNow(s: Search)
      requires last == s && s.place == base + strstart - 1 && Ended(s, stops) && matcher.Slow? && Informed()
      requires Searched(Trying(), data, restarts, ins, s) && Itself(s) <= ins && Kept(Trying(), s) == match_length
      requires match_length >= MIN_MATCH ==> s.dist == strstart - 1 - match_start
      requires Continues(Trying(), AllTokens(), reasons, s)
      ensures Waiting()
    {
      hide Searched, KnownNow, AllTokens, Kept, Continues, Ended;
      SearchedLess(Trying(), data, restarts, ins, KnownNow(), s);
    }

    /** Inserts the current string and looks for a better match than the previous one. */
    method SlowLook() returns (ghost s: Search)
      requires SlowState() && lookahead > 0 && strstart + MIN_LOOKAHEAD <= window.Length
      modifies this`ins, this`ins_h, this`prev_length, this`prev_match, this`match_length, this`match_start, head, prev
      ensures Shape() && Buffered() && IndexedAt(strstart + 1, strstart + lookahead)
      ensures old(ins) <= ins && Itself(s) <= ins && (base + strstart + 3 <= |data| ==> base + strstart in ins)
      ensures Informed()
      ensures prev_length == old(match_length) && prev_match == old(match_start)
      ensures MIN_MATCH - 1 <= match_length <= MAX_MATCH
      ensures match_length >= MIN_MATCH && !(prev_length >= MIN_MATCH && match_length <= prev_length) ==>
        insert == 0 && Found(data, base + strstart, strstart - match_start, match_length, MaxDist(), Low())
      ensures s.place == base + strstart && s.end == |data| && s.prev == prev_length
      ensures Kept(Trying(), s) == match_length && (match_length >= MIN_MATCH ==> s.dist == strstart - match_start)
      ensures if prev_length < max_lazy_match then Searched(Trying(), data, restarts, ins, s)
              else match_length == MIN_MATCH - 1
    {
      hide Shape, Buffered, IndexedAt, Conserved, Chained, Found, Nearest, Far, Trying, Searched, KnownNow, Waiting,
           Kept;
      FilledApart();
      FilledFar();
      FilledSizes();
      LowBase(Done());
      var hash_head := Insert();
      s := SlowSearch(hash_head);
    }

    /** Puts off the current string, for which there is no match before that is as long; the byte
        before it is put out if it was put off. */
    method SlowGoOn(ghost g: Start, ghost s: Search) returns (stop: bool)
      requires Shape() && Buffered() && IndexedAt(strstart + 1, strstart + lookahead) && lookahead > 0 && Onward(g)
      requires Conserved(Done()) && sym_next < sym_end && (match_available ==> strstart > 0) && insert < MIN_MATCH
      requires high_water <= window.Length && matcher.Slow? && Informed() && Sighted() && Itself(s) <= ins
      requires MIN_MATCH - 1 <= match_length <= MAX_MATCH && |data| == base + strstart + lookahead
      requires match_length >= MIN_MATCH ==>
        insert == 0 && Found(data, base + strstart, strstart - match_start, match_length, MaxDist(), Low())
      requires s.place == base + strstart && s.end == |data| && s.prev == prev_length
      requires Kept(Trying(), s) == match_length && (match_length >= MIN_MATCH ==> s.dist == strstart - match_start)
      requires Searched(Trying(), data, restarts, ins, s)
      requires if match_available then Awaited(last) && Itself(last) <= ins && Kept(Trying(), last) == prev_length
               else prev_length == MIN_MATCH - 1
      requires prev_length < MIN_MATCH || match_length > prev_length
      modifies this`strstart, this`lookahead, this`block_start, this`sym_next, this`reasons, this`last, this`sent,
               this`cuts, this`asked, this`match_available, sym_buf
      ensures SlowState() && Onward(g) && strstart > old(strstart) && (stop ==> asked > 0 && full(asked - 1))
    {
      hide Shape, Buffered, IndexedAt, Conserved, Found, Onward, Low, KnownNow, Trying, Searched, Informed;
      hide AllTokens, Sighted, Justifies, Waiting, Awaited, Kept, Continues, Ended, Itself;
      SightedEnd(s);
      if match_available { SlowLiteralJustified(Reason(last, s)); }
      AwaitedPlace();
      stop := SlowWait(g, Reason(last, s));
      last := s;
      WaitingNow(s);
    }

    lemma AwaitedPlace()
      ensures Awaited(last) ==> last.place == base + strstart - 1
    {
      hide Searched;
    }

    lemma SlowFacts()
      requires SlowState()
      ensures matcher.Slow? && Sound(Done()) && Conserved(Done()) && sym_next < sym_end && Informed()
      ensures insert < MIN_MATCH && high_water <= window.Length && |data| == base + strstart + lookahead
      ensures MIN_MATCH - 1 <= match_length <= MAX_MATCH && (match_available ==> strstart > 0)
      ensures MIN_MATCH <= max_lazy_match
      ensures match_length >= MIN_MATCH ==> match_available && insert == 0 && last.dist == strstart - 1 - match_start
      ensures match_length >= MIN_MATCH ==>
        Found(data, base + strstart - 1, strstart - 1 - match_start, match_length, MaxDist(), Low())
      ensures match_available ==> Awaited(last) && Kept(Trying(), last) == match_length && last.end <= |data|
      ensures match_available ==> Itself(last) <= ins && last.place == base + strstart - 1
    {
      hide Waiting, Found, Conserved, Informed, Indexed, Awaited, Kept, Itself, Trying;
      FilledSizes();
      if match_available { WaitingIs(); }
    }

    /** Puts out the previous match, or a byte, or puts off the first one. */
    method SlowStep(ghost g: Start) returns (stop: bool)
      requires SlowState() && lookahead > 0 && strstart + MIN_LOOKAHEAD <= window.Length && Onward(g) && Sighted()
      modifies this`strstart, this`lookahead, this`block_start, this`sym_next, this`reasons, this`last, this`sent,
               this`cuts, this`asked, this`match_available, this`ins, this`ins_h, this`match_length, this`match_start,
               this`prev_length, this`prev_match, head, prev, sym_buf
      ensures SlowState() && Onward(g) && strstart > old(strstart) && (stop ==> asked > 0 && full(asked - 1))
    {
      hide Shape, Buffered, IndexedAt, Conserved, Found, Onward, Chained, Low, KnownNow, Trying, Searched, SlowState;
      hide AllTokens, Sighted, Justifies, Waiting, Awaited, Kept, Continues, Ended, Itself, Informed;
      SlowFacts();
      SoundApart(Done());
      ghost var s := SlowLook();
      if prev_length >= MIN_MATCH && match_length <= prev_length {
        SightedEnd(s);
        PutOffBack();
        SlowMatchJustified(Reason(last, s));
        stop := SlowTake(g, Reason(last, s));
      } else {
        stop := SlowGoOn(g, s);
      }
    }

    lemma SlowSizes()
      requires SlowState()
      ensures |data| == base + strstart + lookahead && strstart + lookahead <= window.Length
    {
      hide Conserved, Shape, Indexed, Informed, Waiting, Found;
    }

    /** Puts out the last byte and ends the block. */
    method SlowEnd(flush: Request, ghost g: Start) returns (state: BlockState)
      requires SlowState() && lookahead == 0 && input == [] && flush != NoFlush && Onward(g)
      modifies this`match_available, this`reasons, this`insert, this`block_start, this`sym_next, this`sent, this`cuts,
               this`asked, sym_buf
      ensures SlowState() && Answer(state, flush) && Onward(g)
    {
      hide Filled, Conserved, Onward, Answer, Shape, Buffered, Indexed, Informed, Waiting, PutOff;
      StillSlow();
      LastLiteral();
      state := LastBlock(if strstart < MIN_MATCH - 1 then strstart else MIN_MATCH - 1, flush, g);
      NonePutOff();
    }

    lemma StillSlow()
      requires SlowState()
      ensures matcher.Slow?
    {
    }

    method DeflateSlow(flush: Request, ghost g: Start) returns (state: BlockState)
      requires SlowState() && Onward(g) && AskedFor(flush, g)
      modifies this`strstart, this`block_start, this`match_start, this`insert, this`base, this`ins, this`lookahead,
               this`input, this`data, this`ins_h, this`high_water, this`sym_next, this`reasons, this`last,
               this`match_length, this`sent, this`cuts, this`asked, this`match_available, this`prev_length,
               this`prev_match, window, head, prev, sym_buf
      ensures SlowState() && Answer(state, flush) && Onward(g)
    {
      hide SlowState, AskedFor, Onward, Answer, Sighted, RunSighted;
      while true
        invariant SlowState() && Onward(g)
        decreases |g.all| - base - strstart
      {
        if lookahead < MIN_LOOKAHEAD {
          SlowRefill(g);
          if lookahead < MIN_LOOKAHEAD && flush == NoFlush {
            Paused(flush);
            return NeedMore;
          }
          if lookahead == 0 {
            break;
          }
        }
        SlowSizes();
        OnwardSize(g);
        SightedNow(flush, g);
        var stop := SlowStep(g);
        if stop {
          Paused(flush);
          return NeedMore;
        }
      }
      state := SlowEnd(flush, g);
    }

    lemma NonePutOff()
      requires !match_available && MIN_MATCH - 1 <= match_length < MIN_MATCH
      ensures PutOff() && Done() == base + strstart
    {
    }

    method SlowRefill(ghost g: Start)
      requires SlowState() && lookahead < MIN_LOOKAHEAD && Onward(g)
      modifies this`strstart, this`block_start, this`match_start, this`insert, this`base, this`ins, this`lookahead,
               this`input, this`data, this`ins_h, this`high_water, window, head, prev
      ensures SlowState() && (lookahead >= MIN_LOOKAHEAD || input == []) && strstart + MIN_LOOKAHEAD <= window.Length
      ensures base + strstart == old(base + strstart) && Onward(g)
    {
      hide Sound, Onward, Informed, Waiting, AllTokens, KnownNow, Found, Searched, Kept, Trying, Continues, Ended,
           Itself;
      ghost var d := data;
      SoundApart(Done());
      if match_available { WaitingIs(); }
      Refill(Done(), g);
      if match_available { WaitingOn(d); }
      FoundOn(d, base + strstart - 1, strstart - 1 - match_start, match_length);
    }

    lemma FoundOn(d: seq<octet>, pos: int, dist: int, len: int)
      requires d <= data
      ensures Found(d, pos, dist, len, MaxDist(), Low()) ==> Found(data, pos, dist, len, MaxDist(), Low())
    {
    }

    /** There is more input while a string is put off. */
    lemma WaitingOn(d: seq<octet>)
      requires d <= data && last.place == base + strstart - 1 && Ended(last, stops) && Itself(last) <= ins
      requires Searched(Trying(), d, restarts, KnownNow(), last) && Kept(Trying(), last) == match_length
      requires match_length >= MIN_MATCH ==> last.dist == strstart - 1 - match_start
      requires Continues(Trying(), AllTokens(), reasons, last)
      ensures Waiting()
    {
      hide Searched, KnownNow, AllTokens, Kept, Continues, Ended;
      SearchedMore(Trying(), d, data[|d|..], restarts, [], KnownNow(), last);
      assert data == d + data[|d|..] && restarts + [] == restarts;
    }

    /** At the end of the data a byte that was put off is put out; no match can be left. */
    method LastLiteral()
      requires SlowState() && lookahead == 0
      modifies this`sym_next, this`reasons, this`match_available, sym_buf
      ensures Filled() && Conserved(base + strstart) && !match_available && MIN_MATCH - 1 <= match_length < MIN_MATCH
      ensures Informed()
    {
      hide Shape, Holds, Indexed, Conserved, AllTokens, Known, KnownNow, Trying, Waiting, Justifies, Itself, Kept;
      FilledSizes();
      FilledApart();
      if match_available {
        ghost var tokens, why, r := AllTokens(), reasons, Reason(last, last);
        KnownIs(Done());
        WaitingIs();
        LastJustified(r);
        var _ := SlowLiteral(r);
        ghost var c :| AllTokens() == tokens + [Literal(c)];
        LiteralInformed(tokens, why, Literal(c), r);
        match_available := false;
      }
    }

    /** Why the last byte is sent. */
    lemma LastJustified(r: Reason)
      requires matcher.Slow? && Waiting() && r.here == last && match_length < MIN_MATCH
      ensures forall c :: Justifies(Literal(c), r)
    {
      hide Searched, KnownNow, AllTokens, Kept, Continues, Ended;
    }

    // ----- no hash chains

    ghost predicate PlainState()
      reads this`strstart, this`lookahead, this`data, this`base, this`ins, this`insert, this`ins_h, this`high_water,
            this`block_start, this`sym_next, this`sent, this`cuts, this`restarts, this`reasons, this`stops, window,
            head, prev, sym_buf
    {
      (matcher.RunLengths? || matcher.HuffmanOnly?) && Sound(base + strstart)
    }

    method PlainRefill(ghost g: Start)
      requires PlainState() && lookahead < MIN_LOOKAHEAD && Onward(g)
      modifies this`strstart, this`block_start, this`match_start, this`insert, this`base, this`ins, this`lookahead,
               this`input, this`data, this`ins_h, this`high_water, window, head, prev
      ensures PlainState() && (lookahead >= MIN_LOOKAHEAD || input == []) && strstart + MIN_LOOKAHEAD <= window.Length
      ensures base + strstart == old(base + strstart) && Onward(g) && lookahead >= old(lookahead)
    {
      hide Sound, Onward;
      Refill(base + strstart, g);
    }

    /** Without a hash it is enough that the chains are short. */
    lemma PlainOn(n: nat)
      requires IndexedAt(strstart, strstart + lookahead) && (matcher.RunLengths? || matcher.HuffmanOnly?)
      ensures IndexedAt(strstart + n, strstart + lookahead)
    {
      hide Chained;
      ChainedOn(Limit(strstart - insert, strstart + lookahead), Limit(strstart + n - insert, strstart + lookahead));
    }

    /** How far the byte before the current string is repeated. */
    method RunAhead() returns (len: nat)
      requires strstart > 0 && strstart + MAX_MATCH < window.Length
      ensures len <= MAX_MATCH && (len >= MIN_MATCH ==> Same(strstart - 1, strstart, len))
      ensures NoLonger(strstart - 1, strstart, if len >= MIN_MATCH then len else MIN_MATCH - 1)
    {
      len := 0;
      var c := window[strstart - 1];
      DiffersAt(strstart - 1, strstart, 2, 0);
      DiffersAt(strstart - 1, strstart, 2, 1);
      DiffersAt(strstart - 1, strstart, 2, 2);
      if c == window[strstart] && c == window[strstart + 1] && c == window[strstart + 2] {
        len := 2;
        for block := 0 to 32
          invariant len == 2 + 8 * block && forall j :: strstart - 1 <= j <= strstart + len ==> window[j] == c
        {
          for u := 0 to 8
            invariant len == 2 + 8 * block + u && forall j :: strstart - 1 <= j <= strstart + len ==> window[j] == c
          {
            len := len + 1;
            if c != window[strstart + len] {
              DiffersAt(strstart - 1, strstart, len, len);
              return;
            }
          }
          if len >= MAX_MATCH {
            return;
          }
        }
      }
    }

    /** No run begins here that was read for more than `len` bytes. */
    lemma NoRun(len: nat)
      requires Shape() && Buffered() && Far()
      requires strstart > 0 && len < lookahead ==> NoLonger(strstart - 1, strstart, len)
      ensures !RunOn(data, restarts, |data|, base + strstart, len)
    {
      hide Same;
      BufferFits();
      ShapeSizes();
      var x := base + strstart;
      if strstart == 0 && restarts != [] { assert restarts[|restarts| - 1].bytes == x; }
      if RunOn(data, restarts, |data|, x, len) {
        if strstart > 0 { SameWindow(strstart - 1, strstart, len + 1); }
      }
    }

    /** The length of the run of the last byte that begins at the current string, if it is
        long enough for a match. */
    method FindRun()
      requires Shape() && Buffered() && strstart + MAX_MATCH < window.Length && Low() <= base && Far()
      modifies this`match_length
      ensures match_length >= MIN_MATCH ==>
        match_length <= lookahead && Found(data, base + strstart, 1, match_length, MaxDist(), Low())
      ensures !RunOn(data, restarts, |data|, base + strstart,
                     if match_length >= MIN_MATCH then match_length else MIN_MATCH - 1)
    {
      hide Shape, Holds, Same, Repeats, NoLonger, Far, RunOn;
      ShapeSizes();
      match_length := 0;
      if lookahead >= MIN_MATCH && strstart > 0 {
        match_length := RunAhead();
        ghost var len := match_length;
        if match_length > lookahead {
          match_length := lookahead;
        }
        if len >= MIN_MATCH { SameData(strstart - 1, strstart, len, match_length); }
      }
      NoRun(if match_length >= MIN_MATCH then match_length else MIN_MATCH - 1);
    }

    /** Enough input has been read to see a run, or a call has asked for all of it to be sent. */
    ghost predicate RunSighted()
      reads this`lookahead, this`data, this`stops
    {
      lookahead > MAX_MATCH || |data| in stops
    }

    /** What is known without a search. */
    ghost function Plainly(): Reason
      reads this`base, this`strstart, this`data
    {
      var s := Search(base + strstart, |data|, [], 2, 2, 0);
      Reason(s, s)
    }

    lemma RunJustified(t: Token)
      requires matcher.RunLengths? && RunSighted() && lookahead > 0 && |data| == base + strstart + lookahead
      requires t.Literal? ==> !RunOn(data, restarts, |data|, base + strstart, 2)
      requires t.Match? ==> t.dist == 1 && 3 <= t.len <= lookahead
      requires t.Match? ==> !RunOn(data, restarts, |data|, base + strstart, t.len)
      requires t.Match? ==> Found(data, base + strstart, 1, t.len, MaxDist(), Low())
      ensures Justifies(t, Plainly())
    {
      hide RunOn, KnownNow, Continues, AllTokens, Repeats;
    }

    /** Puts out the run. */
    method RunMatch() returns (bflush: bool)
      requires PlainState() && matcher.RunLengths? && MIN_MATCH <= match_length <= lookahead
      requires Found(data, base + strstart, 1, match_length, MaxDist(), Low())
      requires Justifies(Match(1, match_length), Plainly())
      modifies this`strstart, this`lookahead, this`sym_next, this`reasons, this`match_length, sym_buf
      ensures Filled() && Conserved(base + strstart) && strstart > old(strstart) && Informed()
      ensures 0 < sym_next <= sym_end && bflush == (sym_next == sym_end)
      ensures AllTokens() == old(AllTokens()) + [Match(1, old(match_length))]
    {
      hide Shape, Holds, IndexedAt, Conserved, Found, Justifies, AllTokens;
      FilledApart();
      bflush := TallyDist(1, match_length - MIN_MATCH, base + strstart, Plainly());
      PlainOn(match_length);
      StepTo(match_length);
      match_length := 0;
    }

    /** Puts out the current byte. */
    method PlainLiteral() returns (bflush: bool)
      requires PlainState() && lookahead > 0 && strstart < window.Length
      requires Justifies(Literal(window[strstart]), Plainly())
      modifies this`strstart, this`lookahead, this`sym_next, this`reasons, sym_buf
      ensures Filled() && Conserved(base + strstart) && strstart > old(strstart) && Informed()
      ensures 0 < sym_next <= sym_end && bflush == (sym_next == sym_end)
      ensures AllTokens() == old(AllTokens()) + [Literal(old(window[strstart]))]
    {
      hide Shape, Holds, IndexedAt, Conserved, Justifies, AllTokens;
      FilledApart();
      PlainOn(1);
      bflush := LiteralStep(Plainly());
    }

    /** Puts out a run of the last byte, or the current byte. */
    method RunStep() returns (bflush: bool)
      requires PlainState() && matcher.RunLengths? && lookahead > 0 && strstart + MAX_MATCH < window.Length
      requires RunSighted()
      modifies this`strstart, this`lookahead, this`sym_next, this`reasons, this`match_length, sym_buf
      ensures Filled() && Conserved(base + strstart) && strstart > old(strstart) && Informed()
      ensures 0 < sym_next <= sym_end && bflush == (sym_next == sym_end)
      ensures |AllTokens()| == |old(AllTokens())| + 1
    {
      hide Filled, Conserved, Found, RunOn, RunSighted, Justifies, AllTokens, Plainly, Informed, Far;
      SoundFilled(base + strstart);
      LowBase(base + strstart);
      FilledSizes();
      FilledFar();
      FindRun();
      if match_length >= MIN_MATCH {
        RunJustified(Match(1, match_length));
        bflush := RunMatch();
      } else {
        RunJustified(Literal(window[strstart]));
        bflush := PlainLiteral();
      }
    }

    /** One step, and the block if it is full. */
    method RunTake(ghost g: Start) returns (stop: bool)
      requires PlainState() && matcher.RunLengths? && Onward(g) && lookahead > 0 && strstart + MAX_MATCH < window.Length
      requires RunSighted()
      modifies this`strstart, this`lookahead, this`sym_next, this`reasons, this`match_length, this`block_start,
               this`sent, this`cuts, this`asked, sym_buf
      ensures PlainState() && Onward(g) && strstart > old(strstart) && (stop ==> asked > 0 && full(asked - 1))
    {
      hide Filled, Conserved, Onward, Shape, Buffered, Indexed, Expand, Informed, AllTokens;
      SoundFilled(base + strstart);
      stop := false;
      var bflush := RunStep();
      if bflush {
        stop := FlushBlock(g);
      }
    }

    lemma PlainSizes()
      requires PlainState()
      ensures |data| == base + strstart + lookahead && strstart + lookahead <= window.Length
    {
      hide Conserved, Shape, Indexed, Informed;
    }

    /** Ends the block after the last byte. */
    method PlainEnd(flush: Request, ghost g: Start) returns (state: BlockState)
      requires PlainState() && lookahead == 0 && input == [] && flush != NoFlush && Onward(g)
      modifies this`insert, this`block_start, this`sym_next, this`sent, this`cuts, this`asked
      ensures PlainState() && Answer(state, flush) && Onward(g)
    {
      hide Filled, Conserved, Onward, Answer, Shape, Buffered, Indexed, Informed;
      SoundFilled(base + strstart);
      state := LastBlock(0, flush, g);
    }

    method DeflateRle(flush: Request, ghost g: Start) returns (state: BlockState)
      requires PlainState() && Onward(g) && AskedFor(flush, g) && matcher.RunLengths?
      modifies this`strstart, this`block_start, this`match_start, this`insert, this`base, this`ins, this`lookahead,
               this`input, this`data, this`ins_h, this`high_water, this`sym_next, this`reasons, this`match_length,
               this`sent, this`cuts, this`asked, window, head, prev, sym_buf
      ensures PlainState() && Answer(state, flush) && Onward(g)
    {
      hide PlainState, AskedFor, Onward, Answer, Sighted, RunSighted;
      while true
        invariant PlainState() && Onward(g)
        decreases |g.all| - base - strstart
      {
        if lookahead <= MAX_MATCH {
          PlainRefill(g);
          if lookahead <= MAX_MATCH && flush == NoFlush {
            Paused(flush);
            return NeedMore;
          }
          if lookahead == 0 {
            break;
          }
        }
        PlainSizes();
        OnwardSize(g);
        SightedNow(flush, g);
        var stop := RunTake(g);
        if stop {
          Paused(flush);
          return NeedMore;
        }
      }
      state := PlainEnd(flush, g);
    }

    lemma LiteralsOnly(c: octet)
      requires matcher.HuffmanOnly?
      ensures Justifies(Literal(c), Plainly())
    {
    }

    /** One step, and the block if it is full. */
    method LiteralTake(ghost g: Start) returns (stop: bool)
      requires PlainState() && matcher.HuffmanOnly? && Onward(g) && lookahead > 0
      modifies this`strstart, this`lookahead, this`sym_next, this`reasons, this`match_length, this`block_start,
               this`sent, this`cuts, this`asked, sym_buf
      ensures PlainState() && Onward(g) && strstart > old(strstart) && (stop ==> asked > 0 && full(asked - 1))
    {
      hide Filled, Conserved, Onward, Shape, Buffered, Indexed, Expand, Informed, AllTokens;
      SoundFilled(base + strstart);
      FilledSizes();
      stop := false;
      match_length := 0;
      LiteralsOnly(window[strstart]);
      var bflush := PlainLiteral();
      if bflush {
        stop := FlushBlock(g);
      }
    }

    method DeflateHuff(flush: Request, ghost g: Start) returns (state: BlockState)
      requires PlainState() && Onward(g) && AskedFor(flush, g) && matcher.HuffmanOnly?
      modifies this`strstart, this`block_start, this`match_start, this`insert, this`base, this`ins, this`lookahead,
               this`input, this`data, this`ins_h, this`high_water, this`sym_next, this`reasons, this`match_length,
               this`sent, this`cuts, this`asked, window, head, prev, sym_buf
      ensures PlainState() && Answer(state, flush) && Onward(g)
    {
      hide PlainState, AskedFor, Onward, Answer;
      while true
        invariant PlainState() && Onward(g)
        decreases |g.all| - base - strstart
      {
        if lookahead == 0 {
          PlainRefill(g);
          if lookahead == 0 {
            if flush == NoFlush {
              Paused(flush);
              return NeedMore;
            }
            break;
          }
        }
        PlainSizes();
        OnwardSize(g);
        var stop := LiteralTake(g);
        if stop {
          Paused(flush);
          return NeedMore;
        }
      }
      state := PlainEnd(flush, g);
    }

    // ----- a run

    ghost predicate Valid()
      reads this`strstart, this`lookahead, this`data, this`base, this`ins, this`insert, this`ins_h, this`high_water,
            this`block_start, this`sym_next, this`sent, this`cuts, this`restarts, this`reasons, this`stops, this`last,
            this`match_length, this`match_start, this`match_available, this`prev_length, window, head, prev, sym_buf
    {
      if matcher.Fast? then FastState() else if matcher.Slow? then SlowState() else PlainState()
    }

    /** A stream with nothing read and nothing sent. */
    constructor (strategy: Strategy, level: nat, window_bits: nat, mem_level: bv8, full: nat -> bool)
      requires 1 <= level <= 9 && 8 <= window_bits <= 15 && 1 <= mem_level <= 9
      ensures Valid() && data == [] && input == [] && sent == [] && cuts == []
      ensures sym_end == 3 * (LitBufsize(mem_level) - 1)
      ensures this.full == full && w_size == WindowSize(if window_bits == 8 then 9 else window_bits)
      ensures matcher == MatcherFor(strategy, level) && filtered == strategy.Filtered? && p == HashFor(mem_level)
      ensures max_chain_length == CHAINS[level - 1] && good_match == GOOD[level - 1] && nice_match == NICE[level - 1]
      ensures max_lazy_match == LAZY[level - 1] && reasons == [] && stops == {} && restarts == []
      ensures fresh(window) && fresh(prev) && fresh(head) && fresh(sym_buf)
    {
      hide Valid, WindowSize, LitBufsize, HashFor, Configuration, MatcherFor;
      var params := HashFor(mem_level);
      var size := WindowSize(if window_bits == 8 then 9 else window_bits);
      WindowSizes(if window_bits == 8 then 9 else window_bits);
      var lit_bufsize := LitBufsize(mem_level);
      var c := Configuration(level);
      ConfigurationIs(level);
      p := params;
      w_size := size;
      matcher := MatcherFor(strategy, level);
      filtered := strategy.Filtered?;
      max_lazy_match, good_match, nice_match, max_chain_length := c.max_lazy, c.good_length, c.nice_length, c.max_chain;
      LitBufsizes(mem_level);
      sym_end := (lit_bufsize - 1) * 3;
      this.full := full;
      window := new octet[2 * size];
      prev := new nat[size];
      head := new nat[params.Size()](_ => 0);
      sym_buf := new nat[lit_bufsize * 3];
      ins_h, block_start, match_length, prev_match, match_available := 0, 0, MIN_MATCH - 1, 0, false;
      strstart, match_start, lookahead, prev_length, insert := 0, 0, 0, MIN_MATCH - 1, 0;
      sym_next, high_water, asked := 0, 0, 0;
      input, data, base, ins, sent, cuts, restarts := [], [], 0, {}, [], [], [];
      reasons, stops, last := [], {}, Search(0, 0, [], 2, 2, 0);
      new;
      assert Shape();
      Begun();
    }

    lemma Begun()
      requires Shape() && strstart == 0 && lookahead == 0 && insert == 0 && match_length == MIN_MATCH - 1
      requires prev_length == MIN_MATCH - 1
      requires block_start == 0 && sym_next == 0 && high_water == 0 && !match_available
      requires data == [] && base == 0 && ins == {} && sent == [] && cuts == [] && restarts == []
      requires reasons == []
      requires forall i :: 0 <= i < head.Length ==> head[i] == 0
      ensures Valid()
    {
      hide Shape, Rolled, HashAt;
      ShapeTables();
      ShapeSizes();
      NoThird(0);
      assert Tokens(sym_buf[..0]) == [];
      ThreeEach();
    }

    lemma ThreeEach()
      requires Shape()
      ensures sym_end <= sym_buf.Length
    {
    }

    lemma ValidFilled()
      requires Valid()
      ensures Filled()
    {
    }

    /** What has been sent by now. */
    lemma SoFar(g: Start)
      requires Valid() && Onward(g)
      ensures CutsHold(g.all, sent, cuts) && InBlocks(sent, cuts, sym_end / 3) && Expand([], sent) <= g.all
      ensures AllSendable(sent, MaxDist()) && AllReach([], sent) && Anew(g.all, sent, restarts)
    {
      hide Expand, Shape, Indexed, CutsHold, AllSendable, AllReach, Anew, Earlier, InBlocks, Explained, Waiting,
           KnownNow;
      CutsLater(data, input, sent, [], cuts);
      assert sent + [] == sent;
      ghost var t := Tokens(sym_buf[..sym_next]);
      AnewSent(data, sent, t, restarts);
      AnewMore(data, input, sent, restarts);
      ReachPart([], sent + t, 0, |sent|);
      assert (sent + t)[0..|sent|] == sent && (sent + t)[..0] == [];
      ExpandNone([]);
    }

    /** What has been sent has its reasons. */
    lemma SoFarExplained(g: Start)
      requires Valid() && Onward(g)
      ensures |sent| <= |reasons|
      ensures Explained(matcher, Trying(), g.all, restarts, stops, sent, reasons[..|sent|], |Expand([], sent)|)
    {
      hide Expand, Shape, Indexed, CutsHold, AllSendable, AllReach, Anew, Earlier, InBlocks, Explained, Waiting, Trying;
      SoFar(g);
      ghost var pos := if matcher.Slow? then Done() else base + strstart;
      ConservedNow(pos);
      ghost var all := AllTokens();
      AllIs();
      assert all[..|sent|] == sent;
      ExplainedSizes(matcher, Trying(), data, restarts, stops, all, reasons, pos);
      SentBack(sent);
      ExplainedFirst(matcher, Trying(), data, restarts, stops, all, reasons, pos, |sent|);
      PlacesAre(matcher, Trying(), data, restarts, stops, sent, reasons[..|sent|], PlaceOf(all, reasons, |sent|),
        |sent|);
      assert sent[..|sent|] == sent;
      ExplainedMore(matcher, Trying(), data, input, restarts, [], stops, stops, sent, reasons[..|sent|],
                    |Expand([], sent)|);
      assert restarts + [] == restarts;
    }

    lemma SentBack(tokens: seq<Token>)
      requires AllSendable(tokens, MaxDist())
      ensures forall i :: 0 <= i < |tokens| ==> tokens[i].Match? ==> tokens[i].dist >= 1
    {
      forall i | 0 <= i < |tokens| && tokens[i].Match? ensures tokens[i].dist >= 1 {
        assert Sendable(tokens[i], MaxDist());
      }
    }

    lemma ConservedNow(pos: int)
      requires Valid() && pos == if matcher.Slow? then Done() else base + strstart
      ensures sym_next <= sym_buf.Length && Accounted(pos)
    {
      hide Shape, Indexed, Covers, CutsHold, Anew, Explained, Waiting, KnownNow;
    }

    /** What an answer says of all input. */
    lemma Answered(state: BlockState, flush: Request, g: Start)
      requires Answer(state, flush) && Onward(g)
      ensures state != NeedMore ==> Expand([], sent) == g.all == data
      ensures state == NeedMore && flush != NoFlush ==> asked > 0 && full(asked - 1)
      ensures flush == Finish && state != NeedMore ==> cuts != []
    {
      hide Expand;
      assert data + [] == data;
    }

    /** Empty chains. */
    lemma Cleared()
      requires Shape() && 0 <= base && forall i :: 0 <= i < head.Length ==> head[i] == 0
      requires forall a :: a in ins ==> 0 <= a && a + 3 <= |data| && a < base
      ensures forall lim: nat :: Chained(lim)
    {
      forall lim: nat ensures Chained(lim) {
        forall h | 0 <= h < head.Length ensures LeadsTo(p, data, base, ins, head[..][h], h, lim) { }
      }
    }

    /** More input comes. */
    method Feed(more: seq<octet>)
      requires Valid()
      modifies this`input
      ensures Valid() && input == old(input) + more
    {
      hide Valid;
      input := input + more;
    }

    /** What holds of the tokens and the current string when all has been sent. */
    lemma AllSent()
      requires Valid() && lookahead == 0 && sym_next == 0 && Expand([], sent) == data
      ensures base + strstart == base + block_start == |data| && Conserved(base + strstart)
      ensures sym_next < sym_end && high_water <= window.Length && Low() <= base && Informed()
      ensures matcher.Fast? ==> match_length < MIN_MATCH && prev_length == MIN_MATCH - 1
      ensures matcher.Slow? ==> !match_available && MIN_MATCH - 1 <= match_length < MIN_MATCH
    {
      hide Expand, Shape, Indexed;
      assert Tokens(sym_buf[..0]) == [] && sent + [] == sent;
    }

    method ClearHash()
      requires Shape()
      modifies head
      ensures forall i :: 0 <= i < head.Length ==> head[i] == 0
    {
      for i := 0 to head.Length
        invariant forall k :: 0 <= k < i ==> head[k] == 0
      {
        head[i] := 0;
      }
    }

    /** Forgets the strings before the current one, and the window when there is nothing in it
        that is still to be sent. */
    method ForgetHistory(ghost g: Start)
      requires Valid() && Onward(g) && lookahead == 0 && sym_next == 0 && Expand([], sent) == data
      modifies this`strstart, this`block_start, this`insert, this`base, this`restarts, head
      ensures Valid() && Onward(g) && strstart == 0 && forall i :: 0 <= i < head.Length ==> head[i] == 0
      ensures restarts == old(restarts) + [Cut(|sent|, |data|)]
    {
      hide Expand, Shape, Indexed, Holds, Conserved, Valid;
      AllSent();
      ValidFilled();
      FilledSizes();
      FilledApart();
      ShapeTables();
      ShapeApart();
      StringsHere();
      ClearHash();
      if lookahead == 0 {
        StartWindow();
      }
      Restart();
      Forgotten();
    }

    lemma StringsHere()
      requires Filled()
      ensures forall a :: a in ins ==> 0 <= a && a + 3 <= |data|
    {
    }

    /** The state when nothing in the window is known and nothing is to be sent. */
    lemma Forgotten()
      requires Shape() && Buffered() && strstart == 0 && lookahead == 0 && insert == 0 && |data| == base == Low()
      requires forall a :: a in ins ==> 0 <= a && a + 3 <= |data|
      requires forall i :: 0 <= i < head.Length ==> head[i] == 0
      requires Conserved(base) && sym_next < sym_end && high_water <= window.Length && Informed()
      requires matcher.Fast? ==> match_length < MIN_MATCH && prev_length == MIN_MATCH - 1
      requires matcher.Slow? ==> !match_available && MIN_MATCH - 1 <= match_length < MIN_MATCH
      ensures Valid()
    {
      hide Shape, Holds, Chained, Rolled, Conserved, Expand;
      ShapeTables();
      ShapeApart();
      Cleared();
      NoThird(base);
    }

    /** What is sent from here on does not reach behind this place. */
    ghost method Restart()
      requires Conserved(base + strstart) && sym_next == 0 && strstart == 0 && |data| == base
      requires Expand([], sent) == data
      modifies this`restarts
      ensures Conserved(base + strstart) && restarts == old(restarts) + [Cut(|sent|, |data|)]
    {
      hide Expand, Covers, CutsHold, InBlocks, Anew, Explained, AllTokens;
      NoTokens();
      assert sent + [] == sent;
      AnewNow(data, sent, restarts, |data|);
      ExplainedMore(matcher, Trying(), data, [], restarts, [Cut(|sent|, |data|)], stops, stops, AllTokens(), reasons,
                    base + strstart);
      assert data + [] == data;
      restarts := restarts + [Cut(|sent|, |data|)];
    }

    /** Starts the window anew when nothing in it is still to be sent. */
    method StartWindow()
      requires lookahead == 0 && Conserved(base + strstart) && block_start == strstart && Buffered()
      modifies this`strstart, this`block_start, this`insert, this`base
      ensures strstart == 0 && insert == 0 && Conserved(base + strstart) && Buffered() && |data| == base
    {
      hide Covers, CutsHold;
      base := base + strstart;
      strstart := 0;
      block_start := 0;
      insert := 0;
    }

    /** All input there is is asked for. */
    ghost method Ask(flush: Request, g: Start)
      requires Valid() && Onward(g)
      modifies this`stops
      ensures Valid() && Onward(g) && AskedFor(flush, g)
      ensures stops == old(stops) + if flush == NoFlush then {} else {|g.all|}
    {
      hide Filled, Covers, CutsHold, InBlocks, Anew, Explained, AllTokens, KnownNow, Trying, Searched, Continues;
      ghost var was := stops;
      stops := stops + if flush == NoFlush then {} else {|g.all|};
      ExplainedMore(matcher, Trying(), data, [], restarts, [], was, stops, AllTokens(), reasons,
                    if matcher.Slow? then Done() else base + strstart);
      assert data + [] == data && restarts + [] == restarts;
    }

    /** Takes in input and sends blocks, as the level and the strategy ask for. */
    method Deflate(flush: Request, ghost g: Start) returns (state: BlockState)
      requires Valid() && Onward(g)
      modifies this`strstart, this`block_start, this`match_start, this`insert, this`base, this`ins, this`lookahead,
               this`input, this`data, this`ins_h, this`high_water, this`sym_next, this`reasons, this`last,
               this`match_length, this`sent, this`cuts, this`asked, this`match_available, this`prev_length,
               this`prev_match, this`restarts, this`stops, window, head, prev, sym_buf
      ensures Valid() && Answer(state, flush) && Onward(g)
      ensures stops == old(stops) + if flush == NoFlush then {} else {|g.all|}
      ensures restarts == old(restarts)
        + if state == BlockDone && flush == FullFlush then [Cut(|sent|, |data|)] else []
    {
      hide Sound, Onward, PutOff, Expand, AskedFor, Waiting;
      Ask(flush, g);
      if matcher.HuffmanOnly? {
        state := DeflateHuff(flush, g);
      } else if matcher.RunLengths? {
        state := DeflateRle(flush, g);
      } else if matcher.Fast? {
        state := DeflateFast(flush, g);
      } else {
        state := DeflateSlow(flush, g);
      }
      if state == BlockDone && flush == FullFlush {
        ForgetHistory(g);
      }
    }

    /** Any calls, one after the other: all input is kept, in the window or sent. */
    method Run(calls: seq<Call>, ghost g: Start) returns (state: BlockState)
      requires Valid() && Onward(g)
      modifies this`strstart, this`block_start, this`match_start, this`insert, this`base, this`ins, this`lookahead,
               this`input, this`data, this`ins_h, this`high_water, this`sym_next, this`reasons, this`last,
               this`match_length, this`sent, this`cuts, this`asked, this`match_available, this`prev_length,
               this`prev_match, this`restarts, this`stops, window, head, prev, sym_buf
      ensures Valid() && Onward(Start(g.data, g.all + Fed(calls), g.sent))
      ensures stops == old(stops) + StopsOf(|g.all|, calls)
      ensures calls != [] ==> Answer(state, calls[|calls| - 1].flush)
      ensures calls != [] && state == BlockDone && calls[|calls| - 1].flush == FullFlush ==>
        restarts != [] && restarts[|restarts| - 1] == Cut(|sent|, |data|)
    {
      hide Valid, Answer;
      state := NeedMore;
      ghost var now := g;
      for i := 0 to |calls|
        invariant Valid() && Onward(now) && now == Start(g.data, g.all + Fed(calls[..i]), g.sent)
        invariant stops == old(stops) + StopsOf(|g.all|, calls[..i])
        invariant i > 0 ==> Answer(state, calls[i - 1].flush)
        invariant i > 0 && state == BlockDone && calls[i - 1].flush == FullFlush ==>
          restarts != [] && restarts[|restarts| - 1] == Cut(|sent|, |data|)
      {
        Feed(calls[i].more);
        now := now.(all := now.all + calls[i].more);
        state := Deflate(calls[i].flush, now);
        FedPush(calls[..i], calls[i]);
        StopsPush(|g.all|, calls[..i], calls[i]);
        assert calls[..i] + [calls[i]] == calls[..i + 1];
      }
      assert calls[..|calls|] == calls;
    }
  }

  datatype Call = Call(more: seq<octet>, flush: Request)

  /** The input of all calls. */
  function Fed(calls: seq<Call>): seq<octet> {
    if calls == [] then [] else Fed(calls[..|calls| - 1]) + calls[|calls| - 1].more
  }

  lemma FedPush(calls: seq<Call>, c: Call)
    ensures Fed(calls + [c]) == Fed(calls) + c.more
  {
    assert (calls + [c])[..|calls|] == calls;
  }

  /** How far and how hard a level looks for matches. */
  function EffortFor(strategy: Strategy, level: nat, window_bits: nat, mem_level: bv8): Effort
    requires 1 <= level <= 9 && 8 <= window_bits <= 15 && 1 <= mem_level <= 9
  {
    Effort(HashFor(mem_level), WindowSize(if window_bits == 8 then 9 else window_bits) - 262, CHAINS[level - 1],
           GOOD[level - 1], NICE[level - 1], LAZY[level - 1], strategy == Filtered)
  }

  /** How much input there was, after `n` bytes before, at the calls that asked for all of it to be
      sent. */
  function StopsOf(n: nat, calls: seq<Call>): set<int> {
    if calls == [] then {}
    else StopsOf(n, calls[..|calls| - 1]) + if calls[|calls| - 1].flush == NoFlush then {} else {n + |Fed(calls)|}
  }

  lemma StopsPush(n: nat, calls: seq<Call>, c: Call)
    ensures StopsOf(n, calls + [c]) == StopsOf(n, calls) + if c.flush == NoFlush then {} else {n + |Fed(calls + [c])|}
  {
    assert (calls + [c])[..|calls|] == calls;
  }

  /** Nothing is lost and nothing is added: whatever the calls, the level, the strategy and the
      room for output, at the end of each block the tokens sent stand for exactly the input up
      to there, the distances and lengths can be expressed, and once a call says that a block
      or the stream is done the tokens stand for all input. A call stops early only when there
      is no room. And every token has its reason: with the Huffman strategy there are literals
      only, with the run-length strategy all runs are sent as matches, on levels 1 to 3 the match
      found at each place, on levels 4 to 9 the match found unless the next place has a longer
      one. */
  method Conservation(strategy: Strategy, level: nat, window_bits: nat, mem_level: bv8, full: nat -> bool,
          calls: seq<Call>)
    returns (d: Deflater, state: BlockState)
    requires 1 <= level <= 9 && 8 <= window_bits <= 15 && 1 <= mem_level <= 9
    ensures CutsHold(Fed(calls), d.sent, d.cuts) && InBlocks(d.sent, d.cuts, LitBufsize(mem_level) - 1)
    ensures Expand([], d.sent) <= Fed(calls)
    ensures AllReach([], d.sent) && Anew(Fed(calls), d.sent, d.restarts)
    ensures calls != [] && state == BlockDone && calls[|calls| - 1].flush == FullFlush ==>
      d.restarts != [] && d.restarts[|d.restarts| - 1] == Cut(|d.sent|, |Fed(calls)|)
    ensures AllSendable(d.sent, WindowSize(if window_bits == 8 then 9 else window_bits) - MIN_LOOKAHEAD)
    ensures calls != [] && state != NeedMore ==> Expand([], d.sent) == Fed(calls)
    ensures calls != [] && state != NeedMore && calls[|calls| - 1].flush == Finish ==> d.cuts != []
    ensures calls != [] && state == NeedMore && calls[|calls| - 1].flush != NoFlush ==> d.asked > 0 && full(d.asked - 1)
    ensures |d.sent| <= |d.reasons|
    ensures Explained(if strategy == OnlyHuffman then HuffmanOnly else if strategy == Rle then RunLengths
                      else if level <= 3 then Fast else Slow,
                      EffortFor(strategy, level, window_bits, mem_level),
                      Fed(calls), d.restarts, StopsOf(0, calls), d.sent, d.reasons[..|d.sent|], |Expand([], d.sent)|)
  {
    hide Expand, CutsHold, AllSendable, AllReach, InBlocks, Anew, Deflater.Valid, Explained;
    d := new Deflater(strategy, level, window_bits, mem_level, full);
    ghost var g := Start([], [], []);
    state := d.Run(calls, g);
    assert [] + Fed(calls) == Fed(calls);
    d.SoFar(Start([], Fed(calls), []));
    d.SoFarExplained(Start([], Fed(calls), []));
    assert d.stops == StopsOf(0, calls);
    assert d.Trying() == EffortFor(strategy, level, window_bits, mem_level);
    if calls != [] { d.Answered(state, calls[|calls| - 1].flush, Start([], Fed(calls), [])); }
  }
}
