/** How deflate writes the tokens of a block as bits, with any two codes (section 3.2.5 of
    RFC 1951), and that inflate reads the same tokens from them. */
module DeflateBits {
  import opened Bits
  import opened RollingHash
  import opened Lz77
  import opened LowFirst
  import opened DeflateCode
  import opened DecodingTable
  import opened InflateTable
  import opened InflateSpec
  import opened TreeTables

  const LITERALS: nat := 256
  const END_BLOCK: nat := 256
  const FARTHEST: nat := 0x8000

  /** The lengths of the codes of a block, and the tables that give the code of a length and of
      a distance. */
  datatype Coding = Coding(llens: seq<nat>, dlens: seq<nat>, length_code: seq<nat>, base_length: seq<nat>,
                           dist_code: seq<nat>, base_dist: seq<nat>) {
    ghost predicate Valid() {
      && LengthTables(length_code, base_length) && DistTables(dist_code, base_dist)
      && |llens| >= LITERALS + 1 + LENGTH_CODES && |dlens| >= D_CODES
      && CodeLengths(llens) && CodeLengths(dlens)
    }

    function LengthCode(len: nat): nat {
      if MIN_MATCH <= len && len - MIN_MATCH < |length_code| then length_code[len - MIN_MATCH] else 0
    }

    function DistCode(dist: nat): nat {
      if dist >= 1 && DistIndex(dist - 1) < |dist_code| then dist_code[DistIndex(dist - 1)] else 0
    }
  }

  function SymbolBits(lens: seq<nat>, s: nat): seq<bool> {
    if s < |lens| then CodeOf(lens, s) else []
  }

  function LengthExtraBits(c: nat, len: nat): seq<bool> {
    if c < LENGTH_CODES && LBASE[c] <= len then Digits(len - LBASE[c], EXTRA_LBITS[c]) else []
  }

  function DistExtraBits(d: nat, dist: nat): seq<bool> {
    if d < D_CODES && DBASE[d] <= dist then Digits(dist - DBASE[d], EXTRA_DBITS[d]) else []
  }

  function DistanceBits(k: Coding, dist: nat): seq<bool> {
    SymbolBits(k.dlens, k.DistCode(dist)) + DistExtraBits(k.DistCode(dist), dist)
  }

  /** A literal is its code; a match is the code of its length with extra bits, and the code of
      its distance with extra bits. */
  function TokenBits(k: Coding, t: Token): seq<bool> {
    match t
    case Literal(b) => SymbolBits(k.llens, b as nat)
    case Match(dist, len) =>
      SymbolBits(k.llens, LITERALS + 1 + k.LengthCode(len))
      + (LengthExtraBits(k.LengthCode(len), len) + DistanceBits(k, dist))
  }

  function TokensBits(k: Coding, tokens: seq<Token>): seq<bool> {
    if tokens == [] then [] else TokensBits(k, tokens[..|tokens| - 1]) + TokenBits(k, tokens[|tokens| - 1])
  }

  /** All tokens, and the end of the block. */
  function BlockBits(k: Coding, tokens: seq<Token>): seq<bool> {
    TokensBits(k, tokens) + SymbolBits(k.llens, END_BLOCK)
  }

  /** The symbols that the token takes have codes. */
  predicate HasCodes(k: Coding, t: Token) {
    match t
    case Literal(b) => HasCode(k.llens, b as nat)
    case Match(dist, len) => HasCode(k.llens, LITERALS + 1 + k.LengthCode(len)) && HasCode(k.dlens, k.DistCode(dist))
  }

  predicate HasCode(lens: seq<nat>, s: nat) {
    s < |lens| && lens[s] > 0
  }

  /** The tokens can be written. */
  ghost predicate Writable(k: Coding, tokens: seq<Token>) {
    && (forall i :: 0 <= i < |tokens| ==> Sendable(tokens[i], FARTHEST) && HasCodes(k, tokens[i]))
    && HasCode(k.llens, END_BLOCK)
  }

  /** The tables of inflate are those for the codes. */
  ghost predicate Suited(c: Tables, k: Coding) {
    && k.Valid() && 1 <= c.lenbits <= MAXBITS && 1 <= c.distbits <= MAXBITS
    && Decodes(c.lcode, c.lenbits, Lens, k.llens) && Decodes(c.dcode, c.distbits, Dists, k.dlens)
  }

  // ----- reading back

  /** A code leads to the entry of its symbol, whatever follows. */
  lemma CodeBack(kind: Kind, t: seq<Entry>, root: nat, l: seq<nat>, s: nat, rest: seq<bool>)
    requires 1 <= root <= MAXBITS && Decodes(t, root, kind, l) && HasCode(l, s) && l[s] <= MAXBITS
    ensures InAlphabet(kind, s) && CodeEntry(t, root, SymbolBits(l, s) + rest) == SymbolEntry(kind, s, l[s])
    ensures |SymbolBits(l, s)| == l[s]
  {
    hide Lookup, CodeOf, Coded;
    var v := SymbolBits(l, s) + rest;
    assert First(v)[..l[s]] == CodeOf(l, s);
    assert SymbolFound(t, root, kind, l, s, First(v));
  }

  lemma {:induction false} SameToken(b: octet)
    ensures (b as nat) < 256 && Octet(b as nat) == b
  {
    OctetBack(b);
    SmallMod(b as nat);
  }

  lemma LengthParts(k: Coding, len: nat)
    requires k.Valid() && MIN_MATCH <= len <= MAX_MATCH
    ensures LengthOfCode(k.LengthCode(len), len) && len - MIN_MATCH < |k.length_code|
  {
    hide LengthOfCode, DistOfCode;
    assert LengthOfCode(k.length_code[len - MIN_MATCH], (len - MIN_MATCH) + MIN_MATCH);
  }

  lemma DistParts(k: Coding, dist: nat)
    requires k.Valid() && 1 <= dist <= FARTHEST
    ensures DistOfCode(k.DistCode(dist), dist) && DistIndex(dist - 1) < |k.dist_code|
  {
    hide LengthOfCode, DistOfCode;
    assert DistOfCode(At2(k.dist_code, DistIndex(dist - 1)), (dist - 1) + 1);
    IndexInside(dist - 1);
  }

  lemma IndexInside(d: nat)
    requires d < 0x8000
    ensures DistIndex(d) < DIST_CODE_LEN
  {
  }

  /** Extra bits are read as the number that was written. */
  lemma ExtraBack(x: nat, n: nat, rest: seq<bool>)
    requires x < Pow2(n)
    ensures var v := Digits(x, n) + rest; |v| >= n && Val(v[..n]) == x && v[n..] == rest
  {
    ValDigits(x, n);
    var v := Digits(x, n) + rest;
    assert v[..n] == Digits(x, n);
  }

  lemma DistanceBack(c: Tables, k: Coding, dist: nat, len: nat, rest: seq<bool>)
    requires Suited(c, k) && 1 <= dist <= FARTHEST && HasCode(k.dlens, k.DistCode(dist))
    ensures ReadDistance(c, DistanceBits(k, dist) + rest, len) == Read(Data(Match(dist, len)), rest)
  {
    hide CodeEntry, Decodes, Pow2, Val, Digits, CodeOf, LengthTables, DistTables;
    DistParts(k, dist);
    var d := k.DistCode(dist);
    var n := EXTRA_DBITS[d];
    var w := DistExtraBits(d, dist) + rest;
    CodeBack(Dists, c.dcode, c.distbits, k.dlens, d, w);
    ExtraBack(dist - DBASE[d], n, rest);
    var v := DistanceBits(k, dist) + rest;
    assert v == SymbolBits(k.dlens, d) + w;
    assert v[k.dlens[d]..] == w;
  }

  lemma TokenBack(c: Tables, k: Coding, t: Token, rest: seq<bool>)
    requires Suited(c, k) && Sendable(t, FARTHEST) && HasCodes(k, t)
    ensures ReadItem(c, TokenBits(k, t) + rest) == Read(Data(t), rest)
  {
    match t
    case Literal(b) => LiteralBack(c, k, b, rest);
    case Match(dist, len) => MatchBack(c, k, dist, len, rest);
  }

  lemma LiteralBack(c: Tables, k: Coding, b: octet, rest: seq<bool>)
    requires Suited(c, k) && HasCode(k.llens, b as nat)
    ensures ReadItem(c, SymbolBits(k.llens, b as nat) + rest) == Read(Data(Literal(b)), rest)
  {
    hide CodeEntry, Decodes, CodeOf, LengthTables, DistTables, ReadDistance;
    SameToken(b);
    var s := b as nat;
    CodeBack(Lens, c.lcode, c.lenbits, k.llens, s, rest);
    assert (SymbolBits(k.llens, s) + rest)[k.llens[s]..] == rest;
  }

  lemma MatchBack(c: Tables, k: Coding, dist: nat, len: nat, rest: seq<bool>)
    requires Suited(c, k) && Sendable(Match(dist, len), FARTHEST) && HasCodes(k, Match(dist, len))
    ensures ReadItem(c, TokenBits(k, Match(dist, len)) + rest) == Read(Data(Match(dist, len)), rest)
  {
    hide CodeEntry, Decodes, Pow2, Val, Digits, CodeOf, LengthTables, DistTables, ReadDistance, DistanceBits;
    LengthParts(k, len);
    var s := k.LengthCode(len);
    var n := EXTRA_LBITS[s];
    var x := DistanceBits(k, dist) + rest;
    var w := LengthExtraBits(s, len) + x;
    CodeBack(Lens, c.lcode, c.lenbits, k.llens, LITERALS + 1 + s, w);
    ExtraBack(len - LBASE[s], n, x);
    DistanceBack(c, k, dist, len, rest);
    var v := TokenBits(k, Match(dist, len)) + rest;
    assert v == SymbolBits(k.llens, LITERALS + 1 + s) + w;
    assert v[k.llens[LITERALS + 1 + s]..] == w;
  }

  lemma EndBack(c: Tables, k: Coding, rest: seq<bool>)
    requires Suited(c, k) && HasCode(k.llens, END_BLOCK)
    ensures ReadItem(c, SymbolBits(k.llens, END_BLOCK) + rest) == Read(EndOfBlock, rest)
  {
    hide CodeEntry, Decodes, CodeOf, LengthTables, DistTables, ReadDistance;
    CodeBack(Lens, c.lcode, c.lenbits, k.llens, END_BLOCK, rest);
    assert (SymbolBits(k.llens, END_BLOCK) + rest)[k.llens[END_BLOCK]..] == rest;
  }

  // ----- a block

  lemma {:induction false} TokensBack(c: Tables, k: Coding, wsize: nat, tokens: seq<Token>, out: seq<octet>,
          rest: seq<bool>)
    requires Suited(c, k) && Writable(k, tokens) && AllReach(out, tokens) && AllSendable(tokens, wsize)
    ensures Steps(c, wsize, TokensBits(k, tokens) + rest, out, |tokens|) == Now(Len, rest, Expand(out, tokens))
    decreases |tokens|
  {
    hide Suited, Reaches, HasCodes, TokenBits, Put, ReadItem;
    TablesRange(c, k);
    if tokens == [] {
      assert [] + rest == rest;
    } else {
      var m := |tokens| - 1;
      var init, t := tokens[..m], tokens[m];
      var w := TokenBits(k, t) + rest;
      assert TokensBits(k, tokens) + rest == TokensBits(k, init) + w;
      ReachInit(out, tokens);
      TokensBack(c, k, wsize, init, out, w);
      TokenBack(c, k, t, rest);
    }
  }

  lemma TablesRange(c: Tables, k: Coding)
    requires Suited(c, k)
    ensures c.lenbits <= MAXBITS && c.distbits <= MAXBITS
  {
  }

  lemma ReachInit(out: seq<octet>, tokens: seq<Token>)
    requires AllReach(out, tokens) && tokens != []
    ensures AllReach(out, tokens[..|tokens| - 1])
    ensures var m := |tokens| - 1; tokens[m].Match? ==> tokens[m].dist <= |Expand(out, tokens[..m])|
  {
    hide Expand;
    var m := |tokens| - 1;
    assert Reaches(out, tokens, m);
    forall i | 0 <= i < m ensures Reaches(out, tokens[..m], i) {
      assert Reaches(out, tokens, i);
      assert tokens[..m][..i] == tokens[..i];
    }
  }

  /** Inflate reads a block as the tokens that deflate wrote. What it puts out is what they
      stand for, and it stops behind the end of the block. */
  lemma BlockBack(c: Tables, k: Coding, wsize: nat, tokens: seq<Token>, out: seq<octet>, rest: seq<bool>)
    requires Suited(c, k) && Writable(k, tokens) && AllReach(out, tokens) && AllSendable(tokens, wsize)
    ensures c.lenbits <= MAXBITS && c.distbits <= MAXBITS
    ensures Steps(c, wsize, BlockBits(k, tokens) + rest, out, |tokens| + 1) == Now(Type, rest, Expand(out, tokens))
  {
    hide Suited, AllReach, AllSendable, ReadItem, Expand, TokensBits;
    TablesRange(c, k);
    var w := SymbolBits(k.llens, END_BLOCK) + rest;
    assert BlockBits(k, tokens) + rest == TokensBits(k, tokens) + w;
    TokensBack(c, k, wsize, tokens, out, w);
    EndBack(c, k, rest);
  }
}
