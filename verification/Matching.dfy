/** Why deflate sends a token: what was looked for at its place, and what was found. */
module Matching {
  import opened RollingHash
  import opened HashChains
  import opened Lz77

  /** The ways to find matches, as the level and the strategy select them. */
  datatype Matcher = Fast | Slow | RunLengths | HuffmanOnly

  /** How far and how hard to look. */
  datatype Effort = Effort(p: HashParams, maxDist: int, chain: nat, good: nat, nice: nat, lazy: nat, filtered: bool)

  /** A search at `place`, when the input had been read up to `end` and the match before was of
      length `prev`: the places in `near` were looked at, the nearest first, and the longest
      match is `dist` back, or there is none longer than `prev`. */
  datatype Search = Search(place: int, end: int, near: seq<int>, prev: int, len: int, dist: int)

  // ----- one search

  /** The string at `q` is repeated at `x` for more than `len` bytes that had been read. */
  ghost predicate Longer(data: seq<octet>, end: int, q: int, x: int, len: int) {
    len < MAX_MATCH && x + len < end && Repeats(data, q, x, len + 1)
  }

  /** How many strings are looked at. */
  function Tries(e: Effort, prev: int): nat {
    if prev >= e.good then e.chain / 4 else e.chain
  }

  /** What may be found at `x`: less than the greatest distance back, and not before a place
      where all was forgotten. */
  ghost predicate InReach(maxDist: int, restarts: seq<Cut>, q: int, x: int) {
    0 < q && x - maxDist < q < x && forall i :: 0 <= i < |restarts| ==> !(q <= restarts[i].bytes <= x)
  }

  /** The places that were looked at are different ones, with the hash of the string. */
  ghost predicate Listed(p: HashParams, data: seq<octet>, s: Search) {
    && (forall i, j :: 0 <= i < j < |s.near| ==> s.near[j] < s.near[i])
    && forall i :: 0 <= i < |s.near| ==> SameHash(p, data, s.near[i], s.place, s.end)
  }

  ghost predicate SameHash(p: HashParams, data: seq<octet>, q: int, x: int, end: int) {
    0 <= q < x && x + 3 <= end && HashAt(p, data, q) == HashAt(p, data, x)
  }

  /** As many strings as may be looked at are nearer than `q`. */
  ghost predicate Passed(e: Effort, s: Search, q: int) {
    |s.near| >= Tries(e, s.prev) && forall i :: 0 <= i < |s.near| ==> q < s.near[i]
  }

  /** No known string in reach is longer, unless enough others were nearer, or a match is long
      enough or goes on to the end. */
  ghost predicate Thorough(e: Effort, data: seq<octet>, restarts: seq<Cut>, known: set<int>, s: Search) {
    s.len < e.nice && s.place + s.len < s.end ==>
      forall q :: q in known && InReach(e.maxDist, restarts, q, s.place) ==>
        !Longer(data, s.end, q, s.place, s.len) || Passed(e, s, q)
  }

  /** What was found is a match, and the nearest one that is so long. */
  ghost predicate Real(e: Effort, data: seq<octet>, restarts: seq<Cut>, known: set<int>, s: Search) {
    s.len > s.prev ==>
      && MIN_MATCH <= s.len <= MAX_MATCH && 1 <= s.dist <= e.maxDist
      && Repeats(data, s.place - s.dist, s.place, s.len)
      && forall q :: q in known && InReach(e.maxDist, restarts, q, s.place) && q > s.place - s.dist ==>
           !Longer(data, s.end, q, s.place, s.len - 1)
  }

  ghost predicate Searched(e: Effort, data: seq<octet>, restarts: seq<Cut>, known: set<int>, s: Search) {
    && 0 <= s.place < s.end <= |data| && s.prev >= MIN_MATCH - 1 && s.len >= MIN_MATCH - 1
    && Listed(e.p, data, s) && Thorough(e, data, restarts, known, s) && Real(e, data, restarts, known, s)
  }

  /** Fewer strings were known. */
  lemma SearchedLess(e: Effort, data: seq<octet>, restarts: seq<Cut>, known: set<int>, less: set<int>, s: Search)
    requires Searched(e, data, restarts, known, s) && less <= known
    ensures Searched(e, data, restarts, less, s)
  {
    hide InReach, Longer, Passed, Listed, Repeats;
  }

  /** There is more input, and there are more places where all was forgotten. */
  lemma SearchedMore(e: Effort, data: seq<octet>, more: seq<octet>, restarts: seq<Cut>, cs: seq<Cut>, known: set<int>,
          s: Search)
    requires Searched(e, data, restarts, known, s)
    ensures Searched(e, data + more, restarts + cs, known, s)
  {
    hide Passed, Repeats;
    forall q, len | Longer(data + more, s.end, q, s.place, len) ensures Longer(data, s.end, q, s.place, len) {
      RepeatsLess(data, more, q, s.place, len + 1);
    }
    forall q | InReach(e.maxDist, restarts + cs, q, s.place) ensures InReach(e.maxDist, restarts, q, s.place) {
      ReachLess(e.maxDist, restarts, cs, q, s.place);
    }
    RepeatsMore(data, more, s.place - s.dist, s.place, s.len);
    ListedMore(e.p, data, more, s);
  }

  lemma RepeatsLess(data: seq<octet>, more: seq<octet>, a: int, b: int, len: int)
    requires b + len <= |data| && Repeats(data + more, a, b, len)
    ensures Repeats(data, a, b, len)
  {
    forall j | b <= j < b + len ensures data[j] == data[j - (b - a)] {
      assert (data + more)[j] == (data + more)[j - (b - a)];
    }
  }

  lemma RepeatsMore(data: seq<octet>, more: seq<octet>, a: int, b: int, len: int)
    ensures Repeats(data, a, b, len) ==> Repeats(data + more, a, b, len)
  {
  }

  lemma ReachLess(maxDist: int, restarts: seq<Cut>, cs: seq<Cut>, q: int, x: int)
    requires InReach(maxDist, restarts + cs, q, x)
    ensures InReach(maxDist, restarts, q, x)
  {
    forall i | 0 <= i < |restarts| ensures !(q <= restarts[i].bytes <= x) {
      assert (restarts + cs)[i] == restarts[i];
    }
  }

  lemma ListedMore(p: HashParams, data: seq<octet>, more: seq<octet>, s: Search)
    requires Listed(p, data, s) && s.end <= |data|
    ensures Listed(p, data + more, s)
  {
    forall i | 0 <= i < |s.near| ensures SameHash(p, data + more, s.near[i], s.place, s.end) {
      assert SameHash(p, data, s.near[i], s.place, s.end);
      HashMore(p, data, more, s.near[i]);
      HashMore(p, data, more, s.place);
    }
  }

  lemma HashMore(p: HashParams, data: seq<octet>, more: seq<octet>, a: int)
    requires a + 3 <= |data|
    ensures HashAt(p, data + more, a) == HashAt(p, data, a)
  {
  }

  // ----- one token

  /** Why a token was sent: the search at its place, and the one at the next place, to which the
      match was put off. */
  datatype Reason = Reason(here: Search, next: Search)

  function Size(t: Token): nat {
    if t.Literal? then 1 else t.len
  }

  /** Whether the string at `y`, in a token, is inserted: that at its place is, and with lazy
      matching all in a match; else all in a match that is not too long. The last ones before
      the end have no third byte. */
  predicate Inserts(m: Matcher, e: Effort, t: Token, r: Reason, y: int) {
    var x, n := r.here.place, Size(t);
    y + 3 <= r.here.end && (m.Slow? || y == x || (n <= e.lazy && x + n + 3 <= r.here.end))
  }

  /** The strings that are known after a token. */
  function InsertedBy(m: Matcher, e: Effort, t: Token, r: Reason): set<int> {
    set y | r.here.place <= y < r.here.place + Size(t) && Inserts(m, e, t, r, y)
  }

  /** The strings that the tokens before `i` have made known. */
  function Known(m: Matcher, e: Effort, tokens: seq<Token>, why: seq<Reason>, i: nat): set<int>
    requires i <= |tokens| && i <= |why|
  {
    if i == 0 then {} else Known(m, e, tokens, why, i - 1) + InsertedBy(m, e, tokens[i - 1], why[i - 1])
  }

  lemma {:induction false} KnownPush(m: Matcher, e: Effort, tokens: seq<Token>, why: seq<Reason>, t: seq<Token>,
          r: seq<Reason>, i: nat)
    requires i <= |tokens| && i <= |why|
    ensures Known(m, e, tokens + t, why + r, i) == Known(m, e, tokens, why, i)
  {
    hide InsertedBy;
    if i > 0 { KnownPush(m, e, tokens, why, t, r, i - 1); }
  }

  /** What is kept of a match: a short one is not worth its distance, and none that is short is
      when the data are filtered. */
  function Kept(e: Effort, s: Search): int {
    if s.len <= 5 && (e.filtered || (s.len == 3 && s.dist > 4096)) then 2 else s.len
  }

  /** There was enough input to look ahead, or a call had asked for all of it to be sent. */
  ghost predicate Ended(s: Search, stops: set<int>) {
    s.place + 262 <= s.end || s.end in stops
  }

  /** The byte before `x` is the same as those from `x` on, for more than `len` of them. */
  ghost predicate RunOn(data: seq<octet>, restarts: seq<Cut>, end: int, x: int, len: int) {
    x > 0 && (forall i :: 0 <= i < |restarts| ==> restarts[i].bytes != x) && Longer(data, end, x - 1, x, len)
  }

  /** The string at the place of the token, if it has three bytes. */
  function Itself(s: Search): set<int> {
    if s.place + 3 <= s.end then {s.place} else {}
  }

  /** The search at the next place, after a match was found here. */
  ghost predicate PutOffTo(e: Effort, data: seq<octet>, restarts: seq<Cut>, stops: set<int>, known: set<int>,
          r: Reason) {
    && r.next.place == r.here.place + 1 && r.next.prev == Kept(e, r.here) && Ended(r.next, stops)
    && Searched(e, data, restarts, known + Itself(r.here), r.next)
  }

  /** Run lengths: a run of the byte before is a match of distance 1, as long as can be; else
      there is a literal. */
  ghost predicate RunReason(data: seq<octet>, restarts: seq<Cut>, stops: set<int>, t: Token, s: Search) {
    && 0 <= s.place < s.end <= |data| && (s.place + 258 < s.end || s.end in stops)
    && if t.Literal? then !RunOn(data, restarts, s.end, s.place, 2)
       else
         && t.dist == 1 && 3 <= t.len <= 258 && s.place + t.len <= s.end && Repeats(data, s.place - 1, s.place, t.len)
         && !RunOn(data, restarts, s.end, s.place, t.len)
  }

  /** Greedy matching: the match that was found, or a literal if there is none. */
  ghost predicate FastReason(e: Effort, data: seq<octet>, restarts: seq<Cut>, stops: set<int>, known: set<int>,
          t: Token, s: Search) {
    && Ended(s, stops) && Searched(e, data, restarts, known, s) && s.prev == 2
    && if t.Literal? then s.len < 3 else s.len >= 3 && t.dist == s.dist && t.len == s.len
  }

  /** Lazy matching: the match that was found if the next place has no longer one, a literal
      if it has, or if there is no match here. */
  ghost predicate SlowReason(e: Effort, data: seq<octet>, restarts: seq<Cut>, stops: set<int>, known: set<int>,
          t: Token, r: Reason) {
    && Ended(r.here, stops) && Searched(e, data, restarts, known, r.here)
    && var kept := Kept(e, r.here);
    if t.Literal? then kept < 3 || (PutOffTo(e, data, restarts, stops, known, r) && Kept(e, r.next) > kept)
    else
      && kept >= 3 && t.dist == r.here.dist && t.len == kept
      && (kept >= e.lazy || (PutOffTo(e, data, restarts, stops, known, r) && Kept(e, r.next) <= kept))
  }

  ghost predicate Sensible(m: Matcher, e: Effort, data: seq<octet>, restarts: seq<Cut>, stops: set<int>,
          known: set<int>, t: Token, r: Reason) {
    match m
    case HuffmanOnly => t.Literal?
    case RunLengths => RunReason(data, restarts, stops, t, r.here)
    case Fast => FastReason(e, data, restarts, stops, known, t, r.here)
    case Slow => SlowReason(e, data, restarts, stops, known, t, r)
  }

  lemma MatchJustified(e: Effort, data: seq<octet>, restarts: seq<Cut>, stops: set<int>, known: set<int>,
          ins: set<int>, t: Token, r: Reason)
    requires Ended(r.here, stops) && Searched(e, data, restarts, known, r.here) && known + Itself(r.here) <= ins
    requires r.next.place == r.here.place + 1 && r.next.prev == Kept(e, r.here) && Ended(r.next, stops)
    requires Kept(e, r.here) < e.lazy ==> Searched(e, data, restarts, ins, r.next)
    requires t.Match? && t.dist == r.here.dist && t.len == Kept(e, r.here) >= 3 && Kept(e, r.next) <= Kept(e, r.here)
    ensures SlowReason(e, data, restarts, stops, known, t, r)
  {
    hide Searched, Ended, Kept;
    if Kept(e, r.here) < e.lazy { SearchedLess(e, data, restarts, ins, known + Itself(r.here), r.next); }
  }

  lemma LiteralJustified(e: Effort, data: seq<octet>, restarts: seq<Cut>, stops: set<int>, known: set<int>,
          ins: set<int>, t: Token, r: Reason)
    requires Ended(r.here, stops) && Searched(e, data, restarts, known, r.here) && known + Itself(r.here) <= ins
    requires r.next.place == r.here.place + 1 && r.next.prev == Kept(e, r.here) && Ended(r.next, stops)
    requires Searched(e, data, restarts, ins, r.next)
    requires t.Literal? && (Kept(e, r.here) < 3 || Kept(e, r.next) > Kept(e, r.here))
    ensures SlowReason(e, data, restarts, stops, known, t, r)
  {
    hide Searched, Ended, Kept;
    SearchedLess(e, data, restarts, ins, known + Itself(r.here), r.next);
  }

  lemma SensibleMore(m: Matcher, e: Effort, data: seq<octet>, more: seq<octet>, restarts: seq<Cut>, cs: seq<Cut>,
          stops: set<int>, stops': set<int>, known: set<int>, t: Token, r: Reason)
    requires Sensible(m, e, data, restarts, stops, known, t, r) && stops <= stops'
    ensures Sensible(m, e, data + more, restarts + cs, stops', known, t, r)
  {
    hide Searched, RunOn, Kept, Itself, Repeats;
    if m.Slow? || m.Fast? {
      if Searched(e, data, restarts, known, r.here) { SearchedMore(e, data, more, restarts, cs, known, r.here); }
      var all := known + Itself(r.here);
      if Searched(e, data, restarts, all, r.next) { SearchedMore(e, data, more, restarts, cs, all, r.next); }
    } else if m.RunLengths? {
      if r.here.end <= |data| { RunOnLess(data, more, restarts, cs, r.here.end, r.here.place); }
      if t.Match? { RepeatsMore(data, more, r.here.place - 1, r.here.place, t.len); }
    }
  }

  lemma RunOnLess(data: seq<octet>, more: seq<octet>, restarts: seq<Cut>, cs: seq<Cut>, end: int, x: int)
    requires end <= |data|
    ensures forall len :: RunOn(data + more, restarts + cs, end, x, len) ==> RunOn(data, restarts, end, x, len)
  {
    hide Repeats;
    forall len | RunOn(data + more, restarts + cs, end, x, len) ensures RunOn(data, restarts, end, x, len) {
      RepeatsLess(data, more, x - 1, x, len + 1);
      forall i | 0 <= i < |restarts| ensures restarts[i].bytes != x {
        assert (restarts + cs)[i] == restarts[i];
      }
    }
  }

  // ----- all tokens

  /** Where token `i` begins. */
  function PlaceOf(tokens: seq<Token>, why: seq<Reason>, i: int): int {
    if 0 < i <= |tokens| && i <= |why| then why[i - 1].here.place + Size(tokens[i - 1]) else 0
  }

  /** A search goes on from the one before, when the match there was put off; else there was no
      match before. */
  ghost predicate Continues(e: Effort, tokens: seq<Token>, why: seq<Reason>, s: Search) {
    || s.prev == 2
    || (|tokens| == |why| > 0 && tokens[|tokens| - 1].Literal? && s == why[|why| - 1].next
        && s.prev == Kept(e, why[|why| - 1].here))
  }

  ghost predicate Explains(m: Matcher, e: Effort, data: seq<octet>, restarts: seq<Cut>, stops: set<int>,
          tokens: seq<Token>, why: seq<Reason>, i: int) {
    && 0 <= i < |tokens| == |why| && why[i].here.place == PlaceOf(tokens, why, i)
    && Sensible(m, e, data, restarts, stops, Known(m, e, tokens, why, i), tokens[i], why[i])
    && (m.Slow? ==> Continues(e, tokens[..i], why[..i], why[i].here))
  }

  /** Every token has its reason, and they are for the input before `pos`. */
  ghost predicate Explained(m: Matcher, e: Effort, data: seq<octet>, restarts: seq<Cut>, stops: set<int>,
          tokens: seq<Token>, why: seq<Reason>, pos: int) {
    && |tokens| == |why| && PlaceOf(tokens, why, |tokens|) == pos
    && forall i :: 0 <= i < |tokens| ==> Explains(m, e, data, restarts, stops, tokens, why, i)
  }

  lemma ExplainsPush(m: Matcher, e: Effort, data: seq<octet>, restarts: seq<Cut>, stops: set<int>, tokens: seq<Token>,
          why: seq<Reason>, t: seq<Token>, r: seq<Reason>, i: nat)
    requires |tokens| == |why| && |t| == |r| && i < |tokens|
    ensures Explains(m, e, data, restarts, stops, tokens + t, why + r, i)
       <==> Explains(m, e, data, restarts, stops, tokens, why, i)
  {
    hide Sensible, Known, Continues;
    KnownPush(m, e, tokens, why, t, r, i);
    assert (tokens + t)[..i] == tokens[..i] && (why + r)[..i] == why[..i];
  }

  lemma ExplainedPush(m: Matcher, e: Effort, data: seq<octet>, restarts: seq<Cut>, stops: set<int>, tokens: seq<Token>,
          why: seq<Reason>, pos: int, t: Token, r: Reason)
    requires Explained(m, e, data, restarts, stops, tokens, why, pos) && r.here.place == pos
    requires Sensible(m, e, data, restarts, stops, Known(m, e, tokens, why, |tokens|), t, r)
    requires m.Slow? ==> Continues(e, tokens, why, r.here)
    ensures Explained(m, e, data, restarts, stops, tokens + [t], why + [r], pos + Size(t))
  {
    hide Sensible, Known, Continues, Explains;
    var n := |tokens|;
    forall i | 0 <= i < n + 1 ensures Explains(m, e, data, restarts, stops, tokens + [t], why + [r], i) {
      if i < n {
        ExplainsPush(m, e, data, restarts, stops, tokens, why, [t], [r], i);
      } else {
        ExplainsLast(m, e, data, restarts, stops, tokens, why, pos, t, r);
      }
    }
  }

  lemma ExplainsLast(m: Matcher, e: Effort, data: seq<octet>, restarts: seq<Cut>, stops: set<int>, tokens: seq<Token>,
          why: seq<Reason>, pos: int, t: Token, r: Reason)
    requires |tokens| == |why| && PlaceOf(tokens, why, |tokens|) == pos && r.here.place == pos
    requires Sensible(m, e, data, restarts, stops, Known(m, e, tokens, why, |tokens|), t, r)
    requires m.Slow? ==> Continues(e, tokens, why, r.here)
    ensures Explains(m, e, data, restarts, stops, tokens + [t], why + [r], |tokens|)
  {
    hide Sensible, Known, Continues;
    KnownPush(m, e, tokens, why, [t], [r], |tokens|);
    assert (tokens + [t])[..|tokens|] == tokens && (why + [r])[..|tokens|] == why;
  }

  /** The search that is put off goes on from the literal. */
  lemma ContinuesOn(e: Effort, tokens: seq<Token>, why: seq<Reason>, t: Token, r: Reason)
    requires |tokens| == |why| && t.Literal? && r.next.prev == Kept(e, r.here)
    ensures Continues(e, tokens + [t], why + [r], r.next)
  {
  }

  lemma ExplainedMore(m: Matcher, e: Effort, data: seq<octet>, more: seq<octet>, restarts: seq<Cut>, cs: seq<Cut>,
          stops: set<int>, stops': set<int>, tokens: seq<Token>, why: seq<Reason>, pos: int)
    requires Explained(m, e, data, restarts, stops, tokens, why, pos) && stops <= stops'
    ensures Explained(m, e, data + more, restarts + cs, stops', tokens, why, pos)
  {
    hide Sensible, Known, Continues;
    forall i | 0 <= i < |tokens| ensures Explains(m, e, data + more, restarts + cs, stops', tokens, why, i) {
      assert Explains(m, e, data, restarts, stops, tokens, why, i);
      SensibleMore(m, e, data, more, restarts, cs, stops, stops', Known(m, e, tokens, why, i), tokens[i], why[i]);
    }
  }

  /** The first tokens have their reasons. */
  lemma ExplainedFirst(m: Matcher, e: Effort, data: seq<octet>, restarts: seq<Cut>, stops: set<int>,
          tokens: seq<Token>, why: seq<Reason>, pos: int, n: nat)
    requires Explained(m, e, data, restarts, stops, tokens, why, pos) && n <= |tokens|
    ensures Explained(m, e, data, restarts, stops, tokens[..n], why[..n], PlaceOf(tokens, why, n))
  {
    hide Explains;
    assert tokens == tokens[..n] + tokens[n..] && why == why[..n] + why[n..];
    forall i | 0 <= i < n ensures Explains(m, e, data, restarts, stops, tokens[..n], why[..n], i) {
      ExplainsPush(m, e, data, restarts, stops, tokens[..n], why[..n], tokens[n..], why[n..], i);
    }
  }

  lemma ExplainedSizes(m: Matcher, e: Effort, data: seq<octet>, restarts: seq<Cut>, stops: set<int>,
          tokens: seq<Token>, why: seq<Reason>, pos: int)
    requires Explained(m, e, data, restarts, stops, tokens, why, pos)
    ensures |tokens| == |why|
  {
  }

  // ----- what this means for the data

  /** Run lengths: where the byte before is repeated at least three times, and `r` times as far as
      can be seen and sent, this is what is sent. */
  lemma {:induction false} RunSent(e: Effort, data: seq<octet>, restarts: seq<Cut>, stops: set<int>,
          tokens: seq<Token>, why: seq<Reason>, pos: int, i: nat, r: nat)
    requires Explained(RunLengths, e, data, restarts, stops, tokens, why, pos) && i < |tokens|
    requires var x, end := why[i].here.place, why[i].here.end;
      && x > 0 && (forall j :: 0 <= j < |restarts| ==> restarts[j].bytes != x)
      && 3 <= r <= 258 && x + r <= end && Repeats(data, x - 1, x, r)
      && (r == 258 || x + r == end || !Repeats(data, x - 1, x, r + 1))
    ensures tokens[i] == Match(1, r)
  {
    hide Known;
    assert Explains(RunLengths, e, data, restarts, stops, tokens, why, i);
    var x, t := why[i].here.place, tokens[i];
    if t.Literal? {
      FewerRepeat(data, x - 1, x, r, 3);
    } else {
      FewerRepeat(data, x - 1, x, r, if t.len < r then t.len + 1 else r);
      FewerRepeat(data, x - 1, x, t.len, if t.len > r then r + 1 else t.len);
    }
  }

  lemma FewerRepeat(data: seq<octet>, a: int, b: int, len: int, less: int)
    requires Repeats(data, a, b, len) && 0 <= less <= len
    ensures Repeats(data, a, b, less)
  {
  }

  /** Greedy matching: a literal is sent only where no known string in reach is repeated for three
      bytes, or enough others were nearer. */
  lemma {:induction false} NoneMissedFast(e: Effort, data: seq<octet>, restarts: seq<Cut>, stops: set<int>,
          tokens: seq<Token>, why: seq<Reason>, pos: int, i: nat, q: int)
    requires Explained(Fast, e, data, restarts, stops, tokens, why, pos) && i < |tokens| == |why| && e.nice >= 3
    requires q in Known(Fast, e, tokens, why, i) && InReach(e.maxDist, restarts, q, why[i].here.place)
    requires why[i].here.place + 3 <= why[i].here.end && Repeats(data, q, why[i].here.place, 3)
    ensures tokens[i].Match? || Passed(e, why[i].here, q)
  {
    hide Known, InReach, Passed;
    assert Explains(Fast, e, data, restarts, stops, tokens, why, i);
    var s := why[i].here;
    if tokens[i].Literal? { FewerRepeat(data, q, s.place, 3, s.len + 1); }
  }

  /** Lazy matching, not filtered: a literal is sent where a known string in reach, not too far back
      for a short match, is repeated for three bytes only if the next place has a longer match, or
      enough others were nearer. */
  lemma {:induction false} NoneMissedSlow(e: Effort, data: seq<octet>, restarts: seq<Cut>, stops: set<int>,
          tokens: seq<Token>, why: seq<Reason>, pos: int, i: nat, q: int)
    requires Explained(Slow, e, data, restarts, stops, tokens, why, pos) && i < |tokens| == |why|
    requires e.nice >= 4 && !e.filtered && tokens[i].Literal?
    requires q in Known(Slow, e, tokens, why, i) && InReach(e.maxDist, restarts, q, why[i].here.place)
    requires why[i].here.place + 3 <= why[i].here.end && Repeats(data, q, why[i].here.place, 3)
    requires q >= why[i].here.place - 4096
    ensures Passed(e, why[i].here, q) || Kept(e, why[i].next) > Kept(e, why[i].here) >= 3
  {
    hide Known, InReach, Passed, Explained, PutOffTo;
    var s := why[i].here;
    SlowAt(e, data, restarts, stops, tokens, why, pos, i);
    assert Longer(data, s.end, q, s.place, 2);
    assert Searched(e, data, restarts, Known(Slow, e, tokens, why, i), s);
  }

  /** The reason of a token, when matching is lazy: after a match that was put off there is a longer
      one. */
  lemma {:induction false} SlowAt(e: Effort, data: seq<octet>, restarts: seq<Cut>, stops: set<int>,
          tokens: seq<Token>, why: seq<Reason>, pos: int, i: nat)
    requires Explained(Slow, e, data, restarts, stops, tokens, why, pos) && i < |tokens| == |why|
    ensures SlowReason(e, data, restarts, stops, Known(Slow, e, tokens, why, i), tokens[i], why[i])
    ensures why[i].here.prev < 3 || Kept(e, why[i].here) > why[i].here.prev
  {
    hide Known, Searched, PutOffTo, Kept;
    assert Explains(Slow, e, data, restarts, stops, tokens, why, i);
    if i > 0 { assert Explains(Slow, e, data, restarts, stops, tokens, why, i - 1); }
  }

  // ----- places in the input

  lemma {:induction false} CopySize(s: seq<octet>, dist: nat, len: nat)
    requires 1 <= dist <= |s|
    ensures |CopyBack(s, dist, len)| == |s| + len
    decreases len
  {
    if len > 0 { CopySize(s + [s[|s| - dist]], dist, len - 1); }
  }

  /** The places in the reasons are those of the tokens in the input. */
  lemma {:induction false} PlacesAre(m: Matcher, e: Effort, data: seq<octet>, restarts: seq<Cut>, stops: set<int>,
          tokens: seq<Token>, why: seq<Reason>, pos: int, n: nat)
    requires Explained(m, e, data, restarts, stops, tokens, why, pos) && n <= |tokens|
    requires AllReach([], tokens) && forall i :: 0 <= i < |tokens| ==> tokens[i].Match? ==> tokens[i].dist >= 1
    ensures PlaceOf(tokens, why, n) == |Expand([], tokens[..n])|
    decreases n
  {
    hide Sensible, Known, Continues;
    if n > 0 {
      PlacesAre(m, e, data, restarts, stops, tokens, why, pos, n - 1);
      assert Explains(m, e, data, restarts, stops, tokens, why, n - 1);
      assert Reaches([], tokens, n - 1);
      assert tokens[..n] == tokens[..n - 1] + [tokens[n - 1]];
      ExpandPush([], tokens[..n - 1], tokens[n - 1]);
      if tokens[n - 1].Match? { CopySize(Expand([], tokens[..n - 1]), tokens[n - 1].dist, tokens[n - 1].len); }
    }
  }
}
