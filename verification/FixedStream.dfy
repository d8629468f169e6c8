/** From input to input: what deflate sends, with the fixed codes, is what inflateBack reads. */
module FixedStream {
  import opened Bits
  import opened Wrappers
  import opened RollingHash
  import opened Lz77
  import opened LowFirst
  import opened DeflateCode
  import opened DecodingTable
  import opened InflateTable
  import opened InflateSpec
  import opened TreeTables
  import opened DeflateBits
  import opened DeflateOutput
  import opened FixedCodes
  import Matching
  import D = DeflateState
  import B = InflateBack

  // ----- tables and trees

  /** Deflate's side of the fixed codes. */
  class Trees {
    const static_ltree: array<CtData>
    const static_dtree: array<CtData>
    const k: Coding

    ghost predicate Valid()
      reads static_ltree, static_dtree
    {
      && static_ltree.Length == L_CODES + 2 && static_dtree.Length == D_CODES && FixedCoding(k)
      && TreeOf(static_ltree[..], FixedLens()) && TreeOf(static_dtree[..], FixedDists())
    }

    /** `tr_static_init` */
    constructor ()
      ensures Valid() && fresh(static_ltree) && fresh(static_dtree)
    {
      hide TreeOf, FixedCoding, FixedLens, FixedDists;
      var ltree, dtree := new CtData[L_CODES + 2], new CtData[D_CODES];
      InitLiterals(ltree);
      InitDistances(dtree);
      var coding := InitCoding();
      static_ltree, static_dtree, k := ltree, dtree, coding;
    }
  }

  method InitCoding() returns (k: Coding)
    ensures FixedCoding(k)
  {
    hide LengthTables, DistTables, CodeLengths;
    var length_code, base_length := new nat[256], new nat[LENGTH_CODES];
    var dist_code, base_dist := new nat[DIST_CODE_LEN], new nat[D_CODES];
    InitLengths(length_code, base_length);
    InitDists(dist_code, base_dist);
    FixedFills();
    k := Coding(FixedLens(), FixedDists(), length_code[..], base_length[..], dist_code[..], base_dist[..]);
  }

  ghost predicate FixedCoding(k: Coding) {
    k.Valid() && k.llens == FixedLens() && k.dlens == FixedDists()
  }

  lemma FixedTwo(k: Coding)
    requires FixedCoding(k)
    ensures k.Valid() && k.llens == FixedLens() && k.dlens == FixedDists()
  {
  }

  method SetLens(lens: array<nat>, sym0: nat, last: nat, len: nat) returns (sym: nat)
    requires sym0 <= last <= lens.Length
    modifies lens
    ensures sym == last && forall s :: sym0 <= s < last ==> lens[s] == len
    ensures lens[..sym0] == old(lens[..sym0]) && lens[last..] == old(lens[last..])
  {
    sym := sym0;
    while sym < last
      invariant sym0 <= sym <= last && forall s :: sym0 <= s < sym ==> lens[s] == len
      invariant lens[..sym0] == old(lens[..sym0]) && lens[last..] == old(lens[last..])
    {
      lens[sym] := len;
      sym := sym + 1;
    }
  }

  /** The lengths of the fixed codes of literals and lengths. */
  method LiteralLens(lens: array<nat>)
    requires lens.Length == 320
    modifies lens
    ensures lens[0..288] == FixedLens()
  {
    var sym := SetLens(lens, 0, 144, 8);
    ghost var a := lens[..144];
    sym := SetLens(lens, sym, 256, 9);
    assert lens[..144] == a;
    ghost var b := lens[..256];
    assert b[..144] == a;
    sym := SetLens(lens, sym, 280, 7);
    assert lens[..256] == b;
    ghost var d := lens[..280];
    assert d[..256] == b;
    sym := SetLens(lens, sym, 288, 8);
    assert lens[..280] == d;
    forall s | 0 <= s < 288 ensures lens[s] == FixedLen(s) {
      assert s < 280 ==> lens[s] == d[s];
      assert s < 256 ==> d[s] == b[s];
      assert s < 144 ==> b[s] == a[s];
    }
  }

  method DistLens(lens: array<nat>)
    requires lens.Length == 320
    modifies lens
    ensures lens[0..32] == FixedDists()
  {
    var sym := SetLens(lens, 0, 32, 5);
  }

  lemma FixedAlphabet()
    ensures Alphabet(Lens, FixedLens()) && Alphabet(Dists, FixedDists())
    ensures RootOnly(Lens, 9, FixedLens()) && RootOnly(Dists, 5, FixedDists())
    ensures !Refused(Lens, FixedLens()) && !Refused(Dists, FixedDists())
  {
    hide Frontier, Sorted;
    FixedFills();
    Pow2To13();
  }

  /** Inflate's side: the decoding tables. */
  method FixedTables(ghost k: Coding) returns (c: Tables)
    requires FixedCoding(k)
    ensures c.Valid() && Suited(c, k)
  {
    hide Decodes, Usable, Coding.Valid, FixedLens, FixedDists;
    FixedTwo(k);
    var lcode, lenbits := FixedLiterals();
    var dcode, distbits := FixedDistances();
    c := Tables(lcode, lenbits, dcode, distbits);
  }

  method FixedLiterals() returns (t: seq<Entry>, bits: nat)
    ensures 1 <= bits <= MAXBITS && Decodes(t, bits, Lens, FixedLens()) && Usable(Lens, t, bits)
  {
    hide Alphabet, RootOnly, Refused, Decodes, Readable, CodeLengths, Usable, FixedLens;
    FixedFills();
    FixedAlphabet();
    var lens, work, lenfix := new nat[320], new nat[288], new Entry[ENOUGH_LENS];
    LiteralLens(lens);
    var ret, next;
    ret, next, bits := InflateTable.InflateTable(Lens, lens, 0, 288, lenfix, 0, 9, work, FixedLens());
    assert lenfix[0..] == lenfix[..];
    BuiltUsable(Lens, lenfix[..], bits, FixedLens());
    t := lenfix[..];
  }

  method FixedDistances() returns (t: seq<Entry>, bits: nat)
    ensures 1 <= bits <= MAXBITS && Decodes(t, bits, Dists, FixedDists()) && Usable(Dists, t, bits)
  {
    hide Alphabet, RootOnly, Refused, Decodes, Readable, CodeLengths, Usable, FixedDists;
    FixedFills();
    FixedAlphabet();
    var lens, work, distfix := new nat[320], new nat[288], new Entry[ENOUGH_DISTS];
    DistLens(lens);
    var ret, next;
    ret, next, bits := InflateTable.InflateTable(Dists, lens, 0, 32, distfix, 0, 5, work, FixedDists());
    assert distfix[0..] == distfix[..];
    BuiltUsable(Dists, distfix[..], bits, FixedDists());
    t := distfix[..];
  }

  // ----- one block

  /** A block that deflate has sent is read as its tokens; without success there was no more
      input. */
  method ReadBack(inf: B.Inflater, ghost k: Coding, ghost tokens: seq<Token>, ghost rest: seq<bool>)
    returns (ok: bool, far: bool)
    requires inf.Ready() && inf.mode == Len && Suited(inf.c, k) && Writable(k, tokens)
    requires AllReach(inf.out, tokens) && AllSendable(tokens, inf.wsize)
    requires inf.Remaining() == BlockBits(k, tokens) + rest
    modifies inf, inf.window
    ensures !far && (!ok ==> inf.Dry(false))
    ensures ok ==> inf.Ready() && inf.mode == Type && inf.Remaining() == rest && inf.out == Expand(old(inf.out), tokens)
  {
    hide B.Inflater.Ready, Suited, Writable, AllReach, AllSendable, Steps, TooFar, Expand, BlockBits;
    ghost var v, o, n := inf.Remaining(), inf.out, |tokens| + 1;
    BlockBack(inf.c, k, inf.wsize, tokens, o, rest);
    ghost var j;
    ok, far, j := inf.DecodeBlock();
    if !ok {
      if Steps(inf.c, inf.wsize, v, o, j + 1).Starved? { OneEnd(inf.c, inf.wsize, v, o, j + 1, n); }
    } else if far {
      TooFarEnds(inf.c, inf.wsize, v, o, j);
      OneEnd(inf.c, inf.wsize, v, o, j + 1, n);
    } else {
      OneEnd(inf.c, inf.wsize, v, o, j, n);
    }
  }

  // ----- sending

  /** The three bytes of a symbol in the buffer. */
  function SymbolBytes(t: Token): (s: seq<byte>)
    requires Sendable(t, FARTHEST)
    ensures |s| == 3
  {
    match t
    case Literal(c) => OctetBack(c); [0, 0, c as nat]
    case Match(dist, len) => [dist % 256, dist / 256, len - MIN_MATCH]
  }

  function AllBytes(tokens: seq<Token>): (s: seq<byte>)
    requires AllSendable(tokens, FARTHEST)
    ensures |s| == 3 * |tokens|
  {
    if tokens == [] then [] else AllBytes(tokens[..|tokens| - 1]) + SymbolBytes(tokens[|tokens| - 1])
  }

  lemma {:induction false} BytesBack(tokens: seq<Token>)
    requires AllSendable(tokens, FARTHEST)
    ensures Tokens(AllBytes(tokens)) == tokens
  {
    hide SymbolBytes, TokenOf, Sendable;
    if tokens != [] {
      var m := |tokens| - 1;
      BytesBack(tokens[..m]);
      var b := SymbolBytes(tokens[m]);
      SymbolBack(tokens[m]);
      assert AllBytes(tokens) == AllBytes(tokens[..m]) + [b[0], b[1], b[2]];
      TokensPush(AllBytes(tokens[..m]), b[0], b[1], b[2]);
    }
  }

  lemma SymbolBack(t: Token)
    requires Sendable(t, FARTHEST)
    ensures var b := SymbolBytes(t); TokenOf(b[0], b[1], b[2]) == t
  {
    match t
    case Literal(c) => LiteralToken(c);
    case Match(dist, len) => MatchToken(dist, len);
  }

  method PutThree(out: Output, n: nat, at: nat, b: seq<byte>)
    requires n <= at && at + 3 <= out.pending_buf.Length && |b| == 3
    modifies out.pending_buf
    ensures out.pending_buf[n..at + 3] == old(out.pending_buf[n..at]) + b
  {
    out.pending_buf[at] := b[0];
    out.pending_buf[at + 1] := b[1];
    out.pending_buf[at + 2] := b[2];
  }

  /** The symbols of a block are put into the upper part of the pending buffer. */
  method LoadSymbols(out: Output, tokens: seq<Token>)
    requires AllSendable(tokens, FARTHEST) && out.lit_bufsize + 3 * |tokens| <= out.pending_buf.Length
    modifies out.pending_buf
    ensures out.pending_buf[out.lit_bufsize..out.lit_bufsize + 3 * |tokens|] == AllBytes(tokens)
  {
    var n := out.lit_bufsize;
    for i := 0 to |tokens|
      invariant out.pending_buf[n..n + 3 * i] == AllBytes(tokens[..i])
    {
      assert tokens[..i + 1][..i] == tokens[..i];
      PutThree(out, n, n + 3 * i, SymbolBytes(tokens[i]));
    }
    assert tokens[..|tokens|] == tokens;
  }

  /** The type of a block with the fixed codes, and whether it is the last one. */
  function Header(last: bool): seq<bool> {
    [last, true, false]
  }

  lemma HeaderDigits(last: bool)
    ensures Digits(2 + (if last then 1 else 0), 3) == Header(last) && 2 + (if last then 1 else 0) < Pow2(3)
    ensures Val(Header(last)) == 2 + (if last then 1 else 0)
  {
    Pow2Values();
    var x := 2 + (if last then 1 else 0);
    assert Digits(x / 4, 1) == [false] && Digits(x / 2, 2) == [true] + Digits(x / 4, 1);
    ValDigits(x, 3);
  }

  function FixedBits(k: Coding, tokens: seq<Token>, last: bool): seq<bool> {
    Header(last) + BlockBits(k, tokens)
  }

  /** Sends the header and the tokens of a block. */
  method PutBlock(out: Output, trees: Trees, tokens: seq<Token>, last: bool)
    requires out.Valid() && out.pending == 0 && out.bi_valid < 8 && trees.Valid()
    requires out.pending_buf.Length == 4 * out.lit_bufsize && out.lit_bufsize >= 128 && |tokens| < out.lit_bufsize
    requires AllSendable(tokens, FARTHEST)
    requires Separate(out.pending_buf, trees.static_ltree) && Separate(out.pending_buf, trees.static_dtree)
    modifies out`pending, out`bi_buf, out`bi_valid, out.pending_buf
    ensures out.Valid() && trees.Valid() && |out.Pending()| + 7 <= 8 * out.pending_buf.Length
    ensures out.Pending() == old(out.Pending()) + FixedBits(trees.k, tokens, last)
  {
    hide InBits, Digits, TreeOf, BlockBits, AllSendable, FixedCoding, Pow2, TokensBits, InPlace, Writable, Tokens,
         Header;
    hide AllBytes, FixedLens, FixedDists;
    LoadSymbols(out, tokens);
    BytesBack(tokens);
    PendingNone(out);
    HeaderDigits(last);
    FixedTwo(trees.k);
    out.PendingSize();
    FixedInPlace(out.bi_valid + 3, out.lit_bufsize, trees.k, tokens);
    ConcatAssociative(out.Pending(), Header(last), BlockBits(trees.k, tokens));
    ghost var upper := out.pending_buf[out.lit_bufsize..];
    out.SendBits(2 + (if last then 1 else 0), 3, out.lit_bufsize);
    assert out.pending_buf[out.lit_bufsize..out.lit_bufsize + 3 * |tokens|] == upper[..3 * |tokens|];
    out.CompressBlock(3 * |tokens|, trees.static_ltree[..], trees.static_dtree[..], trees.k, AllBytes(tokens));
  }

  /** Sends a block with the fixed codes, and puts it out. After the last block zeros fill up
      the byte. */
  method SendFixed(out: Output, trees: Trees, tokens: seq<Token>, last: bool) returns (ghost pad: seq<bool>)
    requires out.Valid() && out.pending == 0 && out.bi_valid < 8 && trees.Valid()
    requires out.pending_buf.Length == 4 * out.lit_bufsize && out.lit_bufsize >= 128 && |tokens| < out.lit_bufsize
    requires AllSendable(tokens, FARTHEST)
    requires Separate(out.pending_buf, trees.static_ltree) && Separate(out.pending_buf, trees.static_dtree)
    modifies out`pending, out`bi_buf, out`bi_valid, out`taken, out.pending_buf
    ensures out.Valid() && out.pending == 0 && out.bi_valid < 8 && trees.Valid()
    ensures out.Sent() == old(out.Sent()) + FixedBits(trees.k, tokens, last) + pad
    ensures if last then out.bi_valid == 0 else pad == []
    ensures |pad| < 8 && pad == Zeros(|pad|)
  {
    hide InBits, Digits, TreeOf, FixedBits, AllSendable, Pow2, Output.Pending, Zeros;
    ghost var taken, bits := InBits(out.taken), out.Pending();
    PutBlock(out, trees, tokens, last);
    out.PendingSize();
    pad := [];
    ConcatAssociative(taken, bits, FixedBits(trees.k, tokens, last));
    ConcatAssociative(taken, bits + FixedBits(trees.k, tokens, last), Zeros((BUF_SIZE - out.bi_valid) % 8));
    if last {
      pad := Zeros((BUF_SIZE - out.bi_valid) % 8);
      out.BiWindup();
      PendingLeast(out);
    }
    out.FlushPending();
  }

  lemma PendingLeast(out: Output)
    requires out.Valid()
    ensures |out.Pending()| <= 8 * out.pending_buf.Length + out.bi_valid
  {
    out.PendingSize();
  }

  lemma PendingNone(out: Output)
    requires out.Valid() && out.pending == 0
    ensures out.Pending() == Digits(out.bi_buf, out.bi_valid)
  {
  }

  // ----- a stream

  /** The tokens of block `i`. */
  function Block(sent: seq<Token>, cuts: seq<Cut>, i: int): seq<Token> {
    if 0 <= i < |cuts| && Begin(cuts, i).tokens <= cuts[i].tokens <= |sent| then
      sent[Begin(cuts, i).tokens..cuts[i].tokens]
    else []
  }

  /** The bits of the blocks from block `i` on. */
  function StreamFrom(k: Coding, sent: seq<Token>, cuts: seq<Cut>, i: nat): seq<bool>
    decreases |cuts| - i
  {
    if i >= |cuts| then []
    else FixedBits(k, Block(sent, cuts, i), i == |cuts| - 1) + StreamFrom(k, sent, cuts, i + 1)
  }

  /** What is known of the tokens that were sent. */
  ghost predicate Sent(data: seq<octet>, sent: seq<Token>, cuts: seq<Cut>, most: nat, maxDist: nat) {
    && CutsHold(data, sent, cuts) && InBlocks(sent, cuts, most) && AllReach([], sent) && AllSendable(sent, maxDist)
    && maxDist <= FARTHEST
  }

  lemma BlockOf(data: seq<octet>, sent: seq<Token>, cuts: seq<Cut>, most: nat, maxDist: nat, i: nat)
    requires Sent(data, sent, cuts, most, maxDist) && i < |cuts|
    ensures var b := Block(sent, cuts, i); |b| <= most && AllSendable(b, maxDist) && AllSendable(b, FARTHEST)
    ensures var a, b := Begin(cuts, i), Block(sent, cuts, i);
      && a.bytes <= |data| && cuts[i].bytes <= |data|
      && AllReach(data[..a.bytes], b) && Expand(data[..a.bytes], b) == data[..cuts[i].bytes]
  {
    hide Expand, AllReach;
    var a, b := Begin(cuts, i), cuts[i];
    SendableTo(sent[a.tokens..b.tokens], maxDist, FARTHEST);
    BeginHolds(data, sent, cuts, i);
    assert CutHolds(data, sent, b);
    BetweenCuts(data, sent, a, b);
    ReachPart([], sent, a.tokens, b.tokens);
  }

  lemma BeginHolds(data: seq<octet>, sent: seq<Token>, cuts: seq<Cut>, i: nat)
    requires CutsHold(data, sent, cuts) && i < |cuts|
    ensures CutHolds(data, sent, Begin(cuts, i)) && Begin(cuts, i).tokens <= cuts[i].tokens
  {
    if i > 0 { assert CutHolds(data, sent, cuts[i - 1]); }
  }

  /** Sends all blocks, each after the one before it. */
  method SendAll(out: Output, trees: Trees, sent: seq<Token>, cuts: seq<Cut>, ghost data: seq<octet>,
          ghost maxDist: nat)
    returns (ghost pad: seq<bool>)
    requires out.Valid() && out.pending == out.bi_valid == 0 && out.taken == [] && trees.Valid() && cuts != []
    requires out.pending_buf.Length == 4 * out.lit_bufsize && out.lit_bufsize >= 128
    requires Sent(data, sent, cuts, out.lit_bufsize - 1, maxDist)
    requires Separate(out.pending_buf, trees.static_ltree) && Separate(out.pending_buf, trees.static_dtree)
    modifies out`pending, out`bi_buf, out`bi_valid, out`taken, out.pending_buf
    ensures InBits(out.taken) == StreamFrom(trees.k, sent, cuts, 0) + pad && trees.Valid()
  {
    hide InBits, Digits, FixedBits, AllSendable, StreamFrom, Output.Pending, Output.Valid, Trees.Valid, Block, Sent;
    hide Output.Sent;
    ghost var all := StreamFrom(trees.k, sent, cuts, 0);
    pad := [];
    NothingYet(out, all);
    for i := 0 to |cuts|
      invariant out.Valid() && out.pending == 0 && out.bi_valid < 8 && trees.Valid()
      invariant out.Sent() + StreamFrom(trees.k, sent, cuts, i) == all + pad
      invariant i < |cuts| ==> pad == []
      invariant i == |cuts| ==> out.bi_valid == 0
    {
      BlockOf(data, sent, cuts, out.lit_bufsize - 1, maxDist, i);
      OneOff(trees.k, sent, cuts, i);
      ghost var before := out.Sent();
      pad := SendFixed(out, trees, Block(sent, cuts, i), i == |cuts| - 1);
      ghost var bits := FixedBits(trees.k, Block(sent, cuts, i), i == |cuts| - 1);
      GoingOn(before, bits, StreamFrom(trees.k, sent, cuts, i + 1), pad);
      if i == |cuts| - 1 { NothingAfter(trees.k, sent, cuts); }
    }
    NothingAfter(trees.k, sent, cuts);
    AllTaken(out);
  }

  lemma GoingOn(a: seq<bool>, b: seq<bool>, d: seq<bool>, pad: seq<bool>)
    ensures d == [] || pad == [] ==> a + b + pad + d == a + (b + d) + pad
  {
  }

  lemma OneOff(k: Coding, sent: seq<Token>, cuts: seq<Cut>, i: nat)
    requires i < |cuts|
    ensures StreamFrom(k, sent, cuts, i)
      == FixedBits(k, Block(sent, cuts, i), i == |cuts| - 1) + StreamFrom(k, sent, cuts, i + 1)
  {
  }

  lemma NothingAfter(k: Coding, sent: seq<Token>, cuts: seq<Cut>)
    ensures StreamFrom(k, sent, cuts, |cuts|) == []
  {
  }

  lemma NothingYet(out: Output, all: seq<bool>)
    requires out.Valid() && out.pending == out.bi_valid == 0 && out.taken == []
    ensures out.Sent() + all == all + []
  {
    NoBits([]);
    assert out.pending_buf[..0] == [];
  }

  lemma AllTaken(out: Output)
    requires out.Valid() && out.pending == out.bi_valid == 0
    ensures out.Sent() == InBits(out.taken)
  {
    assert out.pending_buf[..0] == [];
  }

  /** Reads the type of a block. */
  method ReadHeader(inf: B.Inflater) returns (ok: bool, x: nat)
    requires inf.Ready() && |inf.Remaining()| >= 3
    modifies inf`hold, inf`bits, inf`next, inf`have, inf`buf, inf`asked
    ensures ok ==> inf.Ready() && x == Val(old(inf.Remaining())[..3]) && inf.Remaining() == old(inf.Remaining())[3..]
    ensures !ok ==> inf.Dry(false)
  {
    hide B.Inflater.Windowed, B.Inflater.Remaining, Tables.Valid, Val;
    ok, x := inf.ReadExtra(3);
  }

  /** What comes next in the stream. */
  lemma BlockAhead(k: Coding, sent: seq<Token>, cuts: seq<Cut>, i: nat, pad: seq<bool>)
    requires i < |cuts|
    ensures var v, last := StreamFrom(k, sent, cuts, i) + pad, i == |cuts| - 1;
      && |v| >= 3 && Val(v[..3]) == 2 + (if last then 1 else 0)
      && v[3..] == BlockBits(k, Block(sent, cuts, i)) + (StreamFrom(k, sent, cuts, i + 1) + pad)
  {
    hide BlockBits, Block, Val, StreamFrom;
    OneOff(k, sent, cuts, i);
    var v, last := StreamFrom(k, sent, cuts, i) + pad, i == |cuts| - 1;
    HeaderDigits(last);
    assert v == Header(last) + (BlockBits(k, Block(sent, cuts, i)) + (StreamFrom(k, sent, cuts, i + 1) + pad));
    assert v[..3] == Header(last);
  }

  lemma FixedWritable(k: Coding, tokens: seq<Token>)
    requires FixedCoding(k) && AllSendable(tokens, FARTHEST)
    ensures Writable(k, tokens)
  {
    hide Coding.Valid, HasCodes, Sendable;
    forall i | 0 <= i < |tokens| ensures HasCodes(k, tokens[i]) {
      TokenSize(k, tokens[i]);
    }
  }

  lemma SendableTo(tokens: seq<Token>, m: nat, w: nat)
    requires AllSendable(tokens, m) && m <= w
    ensures AllSendable(tokens, w)
  {
    forall i | 0 <= i < |tokens| ensures Sendable(tokens[i], w) {
      assert Sendable(tokens[i], m);
    }
  }

  /** The stream has been read up to block `i`. */
  ghost predicate ReadUpTo(inf: B.Inflater, k: Coding, data: seq<octet>, sent: seq<Token>, cuts: seq<Cut>,
          pad: seq<bool>, i: nat)
    reads inf, inf.window
  {
    && inf.Ready() && Begin(cuts, i).bytes <= |data| && inf.out == data[..Begin(cuts, i).bytes]
    && inf.Remaining() == StreamFrom(k, sent, cuts, i) + pad
  }

  /** Reads one block. */
  method InflateNext(inf: B.Inflater, ghost k: Coding, ghost data: seq<octet>, ghost sent: seq<Token>,
          ghost cuts: seq<Cut>, ghost most: nat, ghost maxDist: nat, ghost pad: seq<bool>, ghost i: nat)
    returns (ok: bool, last: bool)
    requires ReadUpTo(inf, k, data, sent, cuts, pad, i) && Suited(inf.c, k) && FixedCoding(k) && i < |cuts|
    requires Sent(data, sent, cuts, most, maxDist) && maxDist <= inf.wsize
    modifies inf, inf.window
    ensures ok ==> ReadUpTo(inf, k, data, sent, cuts, pad, i + 1) && last == (i + 1 == |cuts|)
    ensures !ok ==> inf.Dry(false)
  {
    hide B.Inflater.Ready, Suited, StreamFrom, FixedBits, Sent, FixedCoding, Expand, AllReach, AllSendable, Block,
         Writable;
    hide B.Inflater.Remaining;
    last := false;
    BlockOf(data, sent, cuts, most, maxDist, i);
    ghost var block := Block(sent, cuts, i);
    ghost var rest := StreamFrom(k, sent, cuts, i + 1) + pad;
    BlockAhead(k, sent, cuts, i, pad);
    FixedWritable(k, block);
    var x;
    ok, x := ReadHeader(inf);
    if !ok {
      return;
    }
    last := x % 2 == 1;
    assert x / 2 == 1;
    inf.mode := Len;
    SendableTo(block, maxDist, inf.wsize);
    var far;
    ok, far := ReadBack(inf, k, block, rest);
  }

  /** Reads the blocks of a stream up to the last one. */
  method InflateAll(inf: B.Inflater, ghost k: Coding, ghost data: seq<octet>, ghost sent: seq<Token>,
          ghost cuts: seq<Cut>, ghost most: nat, ghost maxDist: nat, ghost pad: seq<bool>)
    returns (ok: bool)
    requires inf.Ready() && inf.out == [] && Suited(inf.c, k) && FixedCoding(k)
    requires Sent(data, sent, cuts, most, maxDist) && maxDist <= inf.wsize && cuts != []
    requires inf.Remaining() == StreamFrom(k, sent, cuts, 0) + pad
    modifies inf, inf.window
    ensures !ok ==> inf.Dry(false)
    ensures ok ==> cuts[|cuts| - 1].bytes <= |data| && inf.out == data[..cuts[|cuts| - 1].bytes]
  {
    hide B.Inflater.Ready, Suited, StreamFrom, Sent, FixedCoding, B.Inflater.Remaining;
    var last := false;
    ghost var i := 0;
    assert Begin(cuts, 0) == Cut(0, 0);
    while !last
      invariant i <= |cuts| && last == (i == |cuts|) && ReadUpTo(inf, k, data, sent, cuts, pad, i)
      decreases |cuts| - i
    {
      ok, last := InflateNext(inf, k, data, sent, cuts, most, maxDist, pad, i);
      if !ok {
        return;
      }
      i := i + 1;
    }
    ok := true;
  }

  lemma LastCut(data: seq<octet>, sent: seq<Token>, cuts: seq<Cut>, most: nat, maxDist: nat)
    requires Sent(data, sent, cuts, most, maxDist) && cuts != []
    ensures var b := cuts[|cuts| - 1].bytes; b <= |data| && data[..b] == Expand([], sent)
  {
    hide Expand;
    assert CutHolds(data, sent, cuts[|cuts| - 1]);
    assert sent[..|sent|] == sent;
  }

  lemma TreesCoding(trees: Trees)
    requires trees.Valid()
    ensures FixedCoding(trees.k)
  {
  }

  // ----- from input to input

  /** Whatever the input and the calls, the level and the strategy, and however the input of
      inflate is cut: when the stream has been finished and is sent with the fixed codes, inflate
      gives back exactly the input. Without success there was no more of its own input when it
      asked for some. */
  method RoundTrip(strategy: D.Strategy, level: nat, window_bits: nat, mem_level: bv8, full: nat -> bool,
          calls: seq<D.Call>, window: array<octet>, avail: nat, chunk: nat -> nat, sane: bool)
    returns (done: bool, ok: bool, inf: B.Inflater?)
    requires 1 <= level <= 9 && 8 <= window_bits <= 15 && 1 <= mem_level <= 9
    requires calls != [] && calls[|calls| - 1].flush == D.Finish
    requires D.WindowSize(if window_bits == 8 then 9 else window_bits) <= window.Length
    modifies window
    ensures done ==> inf != null && if ok then inf.out == D.Fed(calls) else inf.Dry(false)
    ensures !done ==> exists i: nat :: full(i)
  {
    hide D.Deflater.Valid, CutsHold, InBlocks, AllReach, AllSendable, Expand, StreamFrom, Trees.Valid, Suited, InBits;
    hide B.Inflater.Ready, B.Inflater.Remaining, Output.Valid, Output.Sent, Output.Pending, Tables.Valid;
    hide Matching.Explained, D.EffortFor, D.StopsOf;
    inf, done, ok := null, false, false;
    var d, state := D.Conservation(strategy, level, window_bits, mem_level, full, calls);
    if state == D.NeedMore {
      return;
    }
    done := true;
    var n := D.LitBufsize(mem_level);
    D.LitBufsizes(mem_level);
    var buf := new byte[4 * n];
    var out := new Output(buf, n);
    var trees := new Trees();
    ghost var data := D.Fed(calls);
    ghost var maxDist := D.WindowSize(if window_bits == 8 then 9 else window_bits) - D.MIN_LOOKAHEAD;
    ghost var pad := SendAll(out, trees, d.sent, d.cuts, data, maxDist);
    TreesCoding(trees);
    LastCut(data, d.sent, d.cuts, n - 1, maxDist);
    var c := FixedTables(trees.k);
    var given := if avail <= |out.taken| then avail else |out.taken|;
    inf := new B.Inflater(c, window, out.taken, given, chunk, sane);
    ok := InflateAll(inf, trees.k, data, d.sent, d.cuts, n - 1, maxDist, pad);
  }
}
