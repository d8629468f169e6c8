/** The tokens of deflate and what they stand for (section 3.2.3 of RFC 1951). */
module Lz77 {
  import Bits
  import opened RollingHash

  const MIN_MATCH := 3
  const MAX_MATCH := 258

  datatype Token = Literal(c: octet) | Match(dist: nat, len: nat)

  /** The string with `len` bytes more, each the one `dist` places back. */
  function CopyBack(s: seq<octet>, dist: nat, len: nat): (r: seq<octet>)
    decreases len
  {
    if len == 0 || dist == 0 || dist > |s| then s else CopyBack(s + [s[|s| - dist]], dist, len - 1)
  }

  /** What one token makes of what came before. */
  function Put(s: seq<octet>, t: Token): seq<octet> {
    match t
    case Literal(c) => s + [c]
    case Match(dist, len) => CopyBack(s, dist, len)
  }

  /** What the tokens make of what came before. */
  function Expand(s: seq<octet>, tokens: seq<Token>): seq<octet> {
    if tokens == [] then s else Put(Expand(s, tokens[..|tokens| - 1]), tokens[|tokens| - 1])
  }

  lemma ExpandNone(s: seq<octet>)
    ensures Expand(s, []) == s
  {
  }

  lemma ExpandPush(s: seq<octet>, tokens: seq<Token>, t: Token)
    ensures Expand(s, tokens + [t]) == Put(Expand(s, tokens), t)
  {
    assert (tokens + [t])[..|tokens|] == tokens;
  }

  lemma {:induction false} ExpandConcat(s: seq<octet>, a: seq<Token>, b: seq<Token>)
    ensures Expand(s, a + b) == Expand(Expand(s, a), b)
    decreases |b|
  {
    if b == [] {
      assert a + b == a;
    } else {
      var m := |b| - 1;
      assert a + b == (a + b[..m]) + [b[m]] && b == b[..m] + [b[m]];
      ExpandConcat(s, a, b[..m]);
      ExpandPush(s, a + b[..m], b[m]);
      ExpandPush(Expand(s, a), b[..m], b[m]);
    }
  }

  /** The same `len` bytes are at `a` and, later, at `b`; they may overlap. */
  ghost predicate Repeats(data: seq<octet>, a: int, b: int, len: int) {
    && 0 <= a < b && 0 <= len && b + len <= |data|
    && forall j :: b <= j < b + len ==> data[j] == data[j - (b - a)]
  }

  /** Copying a string that repeats gives the data back. */
  lemma {:induction false} CopyRepeat(data: seq<octet>, a: nat, b: nat, len: nat)
    requires Repeats(data, a, b, len)
    ensures CopyBack(data[..b], b - a, len) == data[..b + len]
    decreases len
  {
    if len > 0 {
      assert data[..b] + [data[a]] == data[..b + 1];
      CopyRepeat(data, a + 1, b + 1, len - 1);
    }
  }

  // ----- the symbol buffer

  function Octet(n: nat): octet {
    (n % 256) as bv8
  }

  /** The token that three bytes of the symbol buffer stand for. */
  function TokenOf(lo: nat, hi: nat, lc: nat): Token {
    if lo + 256 * hi == 0 then Literal(Octet(lc)) else Match(lo + 256 * hi, lc + MIN_MATCH)
  }

  function Tokens(buf: seq<nat>): seq<Token> {
    if |buf| < 3 then [] else Tokens(buf[..|buf| - 3]) + [TokenOf(buf[|buf| - 3], buf[|buf| - 2], buf[|buf| - 1])]
  }

  lemma {:induction false} TokensCount(buf: seq<nat>)
    ensures |Tokens(buf)| == |buf| / 3
  {
    if |buf| >= 3 { TokensCount(buf[..|buf| - 3]); }
  }

  lemma TokensPush(buf: seq<nat>, a: nat, b: nat, c: nat)
    ensures Tokens(buf + [a, b, c]) == Tokens(buf) + [TokenOf(a, b, c)]
  {
    var all := buf + [a, b, c];
    assert all[..|all| - 3] == buf;
  }

  lemma SmallMod(n: nat)
    requires n < 256
    ensures n % 256 == n
  {
  }

  lemma LiteralToken(c: octet)
    ensures c as nat < 256 && TokenOf(0, 0, c as nat) == Literal(c)
  {
    var n: nat := c as nat;
    Bits.OctetBack(c);
    SmallMod(n);
  }

  lemma MatchToken(dist: nat, len: nat)
    requires 1 <= dist < 0x1_0000 && MIN_MATCH <= len <= MAX_MATCH
    ensures TokenOf(dist % 256, dist / 256, len - MIN_MATCH) == Match(dist, len)
  {
  }

  /** What the deflate format can express, with distances no more than `maxDist`. */
  predicate Sendable(t: Token, maxDist: int) {
    t.Literal? || (1 <= t.dist <= maxDist && MIN_MATCH <= t.len <= MAX_MATCH)
  }

  ghost predicate AllSendable(tokens: seq<Token>, maxDist: int) {
    forall i :: 0 <= i < |tokens| ==> Sendable(tokens[i], maxDist)
  }

  /** A match does not reach behind what came before. */
  ghost predicate Reaches(s: seq<octet>, tokens: seq<Token>, i: int) {
    0 <= i < |tokens| && (tokens[i].Match? ==> tokens[i].dist <= |Expand(s, tokens[..i])|)
  }

  ghost predicate AllReach(s: seq<octet>, tokens: seq<Token>) {
    forall i :: 0 <= i < |tokens| ==> Reaches(s, tokens, i)
  }

  lemma ReachPush(s: seq<octet>, tokens: seq<Token>, t: Token)
    requires AllReach(s, tokens) && (t.Match? ==> t.dist <= |Expand(s, tokens)|)
    ensures AllReach(s, tokens + [t])
  {
    hide Expand;
    forall i | 0 <= i < |tokens| + 1 ensures Reaches(s, tokens + [t], i) {
      assert i < |tokens| ==> Reaches(s, tokens, i);
      assert (tokens + [t])[..i] == tokens[..i];
      assert tokens[..|tokens|] == tokens;
    }
  }

  /** Some tokens in a row, after what those before them stand for. */
  lemma ReachPart(s: seq<octet>, tokens: seq<Token>, a: nat, b: nat)
    requires AllReach(s, tokens) && a <= b <= |tokens|
    ensures AllReach(Expand(s, tokens[..a]), tokens[a..b])
  {
    forall i | 0 <= i < b - a ensures Reaches(Expand(s, tokens[..a]), tokens[a..b], i) {
      assert Reaches(s, tokens, a + i);
      ExpandConcat(s, tokens[..a], tokens[a..a + i]);
      assert tokens[..a] + tokens[a..a + i] == tokens[..a + i] && tokens[a..b][..i] == tokens[a..a + i];
    }
  }

  /** The tokens that were sent stand for the data before `start`, and with those of the block
      after them for the data before `pos`. */
  ghost predicate Covers(data: seq<octet>, sent: seq<Token>, block: seq<Token>, start: int, pos: int, maxDist: int) {
    && 0 <= start <= pos <= |data| && AllSendable(sent, maxDist) && AllSendable(block, maxDist)
    && AllReach([], sent + block)
    && Expand([], sent) == data[..start] && Expand([], sent + block) == data[..pos]
  }

  lemma CoversMore(data: seq<octet>, more: seq<octet>, sent: seq<Token>, block: seq<Token>, start: int, pos: int,
          maxDist: int)
    requires Covers(data, sent, block, start, pos, maxDist)
    ensures Covers(data + more, sent, block, start, pos, maxDist)
  {
    hide Expand, AllReach;
    assert (data + more)[..start] == data[..start] && (data + more)[..pos] == data[..pos];
  }

  /** A string that is found again `dist` places back, and not before `low`. */
  ghost predicate Found(data: seq<octet>, pos: int, dist: int, len: int, maxDist: int, low: int) {
    MIN_MATCH <= len <= MAX_MATCH && 1 <= dist <= maxDist && low <= pos - dist && Repeats(data, pos - dist, pos, len)
  }

  lemma CoversLiteral(data: seq<octet>, sent: seq<Token>, block: seq<Token>, start: int, pos: int, maxDist: int)
    requires Covers(data, sent, block, start, pos, maxDist) && pos < |data|
    ensures Covers(data, sent, block + [Literal(data[pos])], start, pos + 1, maxDist)
  {
    hide AllReach;
    ReachPush([], sent + block, Literal(data[pos]));
    ExpandPush([], sent + block, Literal(data[pos]));
    assert sent + (block + [Literal(data[pos])]) == sent + block + [Literal(data[pos])];
    assert data[..pos + 1] == data[..pos] + [data[pos]];
  }

  lemma CoversMatch(data: seq<octet>, sent: seq<Token>, block: seq<Token>, start: int, pos: int, dist: nat, len: nat,
          maxDist: int, low: int)
    requires Covers(data, sent, block, start, pos, maxDist) && Found(data, pos, dist, len, maxDist, low)
    ensures Covers(data, sent, block + [Match(dist, len)], start, pos + len, maxDist)
  {
    hide AllReach;
    ReachPush([], sent + block, Match(dist, len));
    ExpandPush([], sent + block, Match(dist, len));
    assert sent + (block + [Match(dist, len)]) == sent + block + [Match(dist, len)];
    CopyRepeat(data, pos - dist, pos, len);
  }

  /** The tokens of a block stand for the data of the block, whatever went before. */
  lemma CoversBlock(data: seq<octet>, sent: seq<Token>, block: seq<Token>, start: int, pos: int, maxDist: int)
    requires Covers(data, sent, block, start, pos, maxDist)
    ensures Expand(data[..start], block) == data[..start] + data[start..pos]
    ensures Covers(data, sent + block, [], pos, pos, maxDist)
  {
    hide AllReach;
    ExpandConcat([], sent, block);
    assert data[..start] + data[start..pos] == data[..pos];
    assert sent + block + [] == sent + block;
  }

  // ----- beginning anew

  lemma {:induction false} CopyShift(x: seq<octet>, y: seq<octet>, dist: nat, len: nat)
    requires dist <= |y|
    ensures CopyBack(x + y, dist, len) == x + CopyBack(y, dist, len)
    decreases len
  {
    if len > 0 && dist > 0 {
      var b := y[|y| - dist];
      assert (x + y)[|x + y| - dist] == b && x + y + [b] == x + (y + [b]);
      CopyShift(x, y + [b], dist, len - 1);
    }
  }

  /** Tokens that do not reach behind `y` make the same of it, whatever was before. */
  lemma {:induction false} ExpandShift(x: seq<octet>, y: seq<octet>, tokens: seq<Token>)
    requires AllReach(y, tokens)
    ensures Expand(x + y, tokens) == x + Expand(y, tokens)
    decreases |tokens|
  {
    if tokens != [] {
      var m := |tokens| - 1;
      var t, s := tokens[m], Expand(y, tokens[..m]);
      assert Reaches(y, tokens, m);
      ReachFirst(y, tokens);
      ExpandShift(x, y, tokens[..m]);
      match t
      case Literal(c) => assert x + s + [c] == x + (s + [c]);
      case Match(dist, len) => CopyShift(x, s, dist, len);
    }
  }

  lemma ReachFirst(s: seq<octet>, tokens: seq<Token>)
    requires AllReach(s, tokens) && tokens != []
    ensures AllReach(s, tokens[..|tokens| - 1])
  {
    hide Expand;
    var m := |tokens| - 1;
    forall i | 0 <= i < m ensures Reaches(s, tokens[..m], i) {
      assert Reaches(s, tokens, i);
      assert tokens[..m][..i] == tokens[..i];
    }
  }

  /** From the cut on no token reaches behind it. */
  ghost predicate Restarted(data: seq<octet>, all: seq<Token>, c: Cut) {
    && c.tokens <= |all| && c.bytes <= |data| && Expand([], all[..c.tokens]) == data[..c.bytes]
    && AllReach([], all[c.tokens..])
  }

  /** The last byte before which nothing is used any more. */
  function LowOf(cs: seq<Cut>): nat {
    if cs == [] then 0 else cs[|cs| - 1].bytes
  }

  /** This is so of all these cuts, the last of which is the latest. */
  ghost predicate Anew(data: seq<octet>, all: seq<Token>, cs: seq<Cut>) {
    forall i :: 0 <= i < |cs| ==> Restarted(data, all, cs[i]) && cs[i].bytes <= LowOf(cs)
  }

  /** So what comes after the cut can be decoded without what was before. */
  lemma FromHere(data: seq<octet>, all: seq<Token>, c: Cut)
    requires Restarted(data, all, c)
    ensures Expand([], all) == data[..c.bytes] + Expand([], all[c.tokens..])
  {
    var x := data[..c.bytes];
    assert x + [] == x && all == all[..c.tokens] + all[c.tokens..];
    ExpandConcat([], all[..c.tokens], all[c.tokens..]);
    ExpandShift(x, [], all[c.tokens..]);
  }

  ghost predicate Earlier(cs: seq<Cut>, n: nat) {
    forall i :: 0 <= i < |cs| ==> cs[i].tokens <= n
  }

  lemma AnewSent(data: seq<octet>, sent: seq<Token>, block: seq<Token>, cs: seq<Cut>)
    requires Anew(data, sent + block, cs) && Earlier(cs, |sent|)
    ensures Anew(data, sent, cs)
  {
    hide Expand, AllReach;
    forall i | 0 <= i < |cs| ensures Restarted(data, sent, cs[i]) && cs[i].bytes <= LowOf(cs) {
      var c := cs[i];
      assert Restarted(data, sent + block, c);
      assert (sent + block)[..c.tokens] == sent[..c.tokens];
      var tail := (sent + block)[c.tokens..];
      var n := |sent| - c.tokens;
      assert tail[0..n] == sent[c.tokens..] && tail[..0] == [];
      ReachPart([], tail, 0, n);
      ExpandNone([]);
    }
  }

  lemma AnewMore(data: seq<octet>, more: seq<octet>, all: seq<Token>, cs: seq<Cut>)
    requires Anew(data, all, cs)
    ensures Anew(data + more, all, cs)
  {
    hide Expand, AllReach;
    forall i | 0 <= i < |cs| ensures Restarted(data + more, all, cs[i]) && cs[i].bytes <= LowOf(cs) {
      assert Restarted(data, all, cs[i]);
      assert (data + more)[..cs[i].bytes] == data[..cs[i].bytes];
    }
  }

  lemma AnewPush(data: seq<octet>, all: seq<Token>, cs: seq<Cut>, pos: nat, t: Token)
    requires Anew(data, all, cs) && pos <= |data| && Expand([], all) == data[..pos]
    requires t.Match? ==> LowOf(cs) <= pos - t.dist
    ensures Anew(data, all + [t], cs)
  {
    hide Expand, AllReach;
    forall i | 0 <= i < |cs| ensures Restarted(data, all + [t], cs[i]) && cs[i].bytes <= LowOf(cs) {
      var c := cs[i];
      assert Restarted(data, all, c);
      FromHere(data, all, c);
      assert |Expand([], all[c.tokens..])| == pos - c.bytes;
      ReachPush([], all[c.tokens..], t);
      assert (all + [t])[c.tokens..] == all[c.tokens..] + [t] && (all + [t])[..c.tokens] == all[..c.tokens];
    }
  }

  /** One more cut, behind all tokens. */
  lemma AnewNow(data: seq<octet>, all: seq<Token>, cs: seq<Cut>, pos: nat)
    requires Anew(data, all, cs) && pos <= |data| && Expand([], all) == data[..pos] && LowOf(cs) <= pos
    ensures Anew(data, all, cs + [Cut(|all|, pos)])
  {
    hide Expand;
    var d := cs + [Cut(|all|, pos)];
    assert all[..|all|] == all && all[|all|..] == [];
    forall i | 0 <= i < |d| ensures Restarted(data, all, d[i]) && d[i].bytes <= LowOf(d) {
      assert i < |cs| ==> Restarted(data, all, cs[i]);
    }
  }

  // ----- the blocks of a run

  /** Where a block ended: the tokens sent by then, and the bytes of the input they stand for. */
  datatype Cut = Cut(tokens: nat, bytes: nat)

  /** At each cut the tokens sent so far stood for exactly the input up to it. */
  ghost predicate CutsHold(data: seq<octet>, sent: seq<Token>, cuts: seq<Cut>) {
    && (forall i :: 0 <= i < |cuts| ==> CutHolds(data, sent, cuts[i]))
    && forall i, j :: 0 <= i < j < |cuts| ==> cuts[i].tokens <= cuts[j].tokens && cuts[i].bytes <= cuts[j].bytes
  }

  /** Where block `i` begins. */
  function Begin(cuts: seq<Cut>, i: int): Cut {
    if 0 < i <= |cuts| then cuts[i - 1] else Cut(0, 0)
  }

  /** All tokens were sent in blocks of at most `most`. */
  ghost predicate InBlocks(sent: seq<Token>, cuts: seq<Cut>, most: nat) {
    && Begin(cuts, |cuts|).tokens == |sent|
    && forall i :: 0 <= i < |cuts| ==> cuts[i].tokens - Begin(cuts, i).tokens <= most
  }

  lemma OneBlock(sent: seq<Token>, cuts: seq<Cut>, most: nat, block: seq<Token>, pos: nat)
    requires InBlocks(sent, cuts, most) && |block| <= most
    ensures InBlocks(sent + block, cuts + [Cut(|sent + block|, pos)], most)
  {
    var all := cuts + [Cut(|sent + block|, pos)];
    forall i | 0 <= i < |all| ensures all[i].tokens - Begin(all, i).tokens <= most {
      assert Begin(all, i) == Begin(cuts, i);
    }
  }

  ghost predicate CutHolds(data: seq<octet>, sent: seq<Token>, c: Cut) {
    c.tokens <= |sent| && c.bytes <= |data| && Expand([], sent[..c.tokens]) == data[..c.bytes]
  }

  lemma CutsLater(data: seq<octet>, moreData: seq<octet>, sent: seq<Token>, moreSent: seq<Token>, cuts: seq<Cut>)
    requires CutsHold(data, sent, cuts)
    ensures CutsHold(data + moreData, sent + moreSent, cuts)
  {
    hide Expand;
    forall i | 0 <= i < |cuts| ensures CutHolds(data + moreData, sent + moreSent, cuts[i]) {
      assert CutHolds(data, sent, cuts[i]);
      assert (sent + moreSent)[..cuts[i].tokens] == sent[..cuts[i].tokens];
      assert (data + moreData)[..cuts[i].bytes] == data[..cuts[i].bytes];
    }
  }

  lemma CutNow(data: seq<octet>, sent: seq<Token>, cuts: seq<Cut>, pos: nat)
    requires CutsHold(data, sent, cuts) && pos <= |data| && Expand([], sent) == data[..pos]
    ensures CutsHold(data, sent, cuts + [Cut(|sent|, pos)])
  {
    hide Expand;
    assert sent[..|sent|] == sent;
    forall i | 0 <= i < |cuts| ensures cuts[i].tokens <= |sent| && cuts[i].bytes <= pos {
      assert CutHolds(data, sent, cuts[i]);
      ExpandGrows([], sent, cuts[i].tokens);
    }
  }

  /** More tokens stand for no fewer bytes. */
  lemma {:induction false} ExpandGrows(s: seq<octet>, tokens: seq<Token>, n: nat)
    requires n <= |tokens|
    ensures |Expand(s, tokens[..n])| <= |Expand(s, tokens)|
    decreases |tokens|
  {
    if n == |tokens| {
      assert tokens[..n] == tokens;
    } else {
      var m := |tokens| - 1;
      assert tokens[..m][..n] == tokens[..n];
      ExpandGrows(s, tokens[..m], n);
      PutGrows(Expand(s, tokens[..m]), tokens[m]);
    }
  }

  lemma PutGrows(s: seq<octet>, t: Token)
    ensures |s| <= |Put(s, t)|
  {
    if t.Match? { CopyGrows(s, t.dist, t.len); }
  }

  lemma {:induction false} CopyGrows(s: seq<octet>, dist: nat, len: nat)
    ensures |s| <= |CopyBack(s, dist, len)|
    decreases len
  {
    if !(len == 0 || dist == 0 || dist > |s|) { CopyGrows(s + [s[|s| - dist]], dist, len - 1); }
  }

  /** The tokens between two cuts stand for the bytes between them, whatever went before. */
  lemma BetweenCuts(data: seq<octet>, sent: seq<Token>, a: Cut, b: Cut)
    requires CutHolds(data, sent, a) && CutHolds(data, sent, b) && a.tokens <= b.tokens
    ensures Expand(data[..a.bytes], sent[a.tokens..b.tokens]) == data[..b.bytes]
  {
    ExpandConcat([], sent[..a.tokens], sent[a.tokens..b.tokens]);
    assert sent[..a.tokens] + sent[a.tokens..b.tokens] == sent[..b.tokens];
  }
}
