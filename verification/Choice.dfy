/**
 Why the compressor emits what it emits.  A search at one position of the input sees
 some earlier positions; each strategy promises something about the literal or match
 it chooses in terms of what was to be seen.  The log of a run has one choice for
 every token.
 */
module Choices {
  import opened Bits
  import opened Tokens

  datatype Strategy = DefaultStrategy | Filtered | HuffmanOnly | Rle | Fixed

  // The tuning parameters of one compression level.
  datatype Config = Config(good_match: nat, max_lazy: nat, nice_match: nat, max_chain: nat)

  const TOO_FAR := 4096

  // configuration_table
  function ConfigFor(level: nat): Config {
    if level == 0 then Config(0, 0, 0, 0)
    else if level == 1 then Config(4, 4, 8, 4)
    else if level == 2 then Config(4, 5, 16, 8)
    else if level == 3 then Config(4, 6, 32, 32)
    else if level == 4 then Config(4, 4, 16, 16)
    else if level == 5 then Config(8, 16, 32, 32)
    else if level == 6 then Config(8, 16, 128, 128)
    else if level == 7 then Config(8, 32, 128, 256)
    else if level == 8 then Config(32, 128, 258, 1024)
    else Config(32, 258, 258, 4096)
  }

  /** A higher level of the same function searches at least as hard. */
  lemma HigherSearchesMore(level: nat, higher: nat)
    requires (1 <= level <= higher <= 3) || (4 <= level <= higher <= 9)
    ensures var c, d := ConfigFor(level), ConfigFor(higher);
            && c.good_match <= d.good_match && c.max_lazy <= d.max_lazy && c.nice_match <= d.nice_match
            && c.max_chain <= d.max_chain && c.nice_match <= MAX_MATCH && d.max_chain >= 4
  {
  }

  // The function that compresses: deflate_stored, _huff, _rle, _fast or _slow.
  datatype Mode = Stored | Huff | Runs | Fast | Slow

  function ModeOf(level: nat, strategy: Strategy): Mode {
    if strategy == HuffmanOnly then Huff
    else if strategy == Rle then Runs
    else if level == 0 then Stored
    else if level <= 3 then Fast
    else Slow
  }

  // What is fixed for a run.
  datatype Rule = Rule(level: nat, strategy: Strategy, maxDist: nat) {
    function Mode(): Mode {
      ModeOf(level, strategy)
    }

    function Cfg(): Config {
      ConfigFor(level)
    }
  }

  /** What a search at pos has before it: nothing at or before `from` is within reach,
      `ahead` bytes have been read from pos on, the dictionary holds the strings at the
      positions `cands` within reach, and `all` says that the chain budget covers every
      one with the hash key of the string at pos. */
  datatype Seen = Seen(from: nat, pos: nat, ahead: nat, cands: set<nat>, all: bool)

  // A token, what there was to be seen at its first byte, and in deflate_slow at the next.
  datatype Choice = Choice(token: Token, at: Seen, next: Option<Seen>)

  // Where a reader may start: a position of the input and the block that begins there.
  datatype Cut = Cut(pos: nat, blocks: nat)

  // ----- what is promised of a choice

  // The n bytes at pos are no copy of the bytes at any of the positions qs.
  ghost predicate NoneRepeats(data: seq<byte>, pos: nat, qs: set<nat>, n: nat) {
    forall q :: q in qs && q <= pos ==> !Repeats(data, pos, pos - q, n)
  }

  // Those of the positions qs that lie less than d bytes back.
  ghost function Closer(qs: set<nat>, pos: nat, d: nat): set<nat> {
    set q | q in qs && pos < q + d
  }

  // No candidate continues for more than len bytes, if the search may go so far.
  ghost predicate Best(r: Rule, data: seq<byte>, s: Seen, len: nat) {
    s.all && len < Min(r.Cfg().nice_match, Min(s.ahead, MAX_MATCH)) ==> NoneRepeats(data, s.pos, s.cands, len + 1)
  }

  // A match of len bytes from d bytes back: none longer, and none as long is closer.
  ghost predicate Chosen(r: Rule, data: seq<byte>, s: Seen, d: nat, len: nat) {
    && Best(r, data, s, len)
    && NoneRepeats(data, s.pos, Closer(s.cands, s.pos, d), len)
  }

  // deflate_slow finds no match worth keeping: short ones are dropped by Z_FILTERED, and
  // those of MIN_MATCH bytes from too far back by all others.
  ghost predicate NothingKept(r: Rule, data: seq<byte>, s: Seen) {
    s.all ==>
      if r.strategy == Filtered then s.ahead >= 6 ==> NoneRepeats(data, s.pos, s.cands, 6)
      else
        && (s.ahead > MIN_MATCH ==> NoneRepeats(data, s.pos, s.cands, MIN_MATCH + 1))
        && (s.ahead >= MIN_MATCH ==> NoneRepeats(data, s.pos, Closer(s.cands, s.pos, TOO_FAR + 1), MIN_MATCH))
  }

  // A match at s.pos, short enough to look further, is given up for a longer one at the
  // next byte.
  ghost predicate GivenUp(r: Rule, data: seq<byte>, s: Seen, d: nat, len: nat, d': nat, len': nat) {
    && MIN_MATCH <= len < len' <= MAX_MATCH && len < r.Cfg().max_lazy && d' <= r.maxDist
    && Chosen(r, data, s, d, len) && Repeats(data, s.pos + 1, d', len')
  }

  ghost predicate Outdone(r: Rule, data: seq<byte>, s: Seen) {
    exists d, len, d', len' :: GivenUp(r, data, s, d, len, d', len')
  }

  // deflate_rle: the previous byte is repeated if it can be, and as often as it can be.
  ghost predicate RunChoice(data: seq<byte>, c: Choice) {
    var s := c.at;
    match c.token
    case Literal(_) => s.from < s.pos && s.ahead >= MIN_MATCH ==> !Repeats(data, s.pos, 1, MIN_MATCH)
    case Match(d, len) => d == 1 && (len < Min(s.ahead, MAX_MATCH) ==> !Repeats(data, s.pos, 1, len + 1))
  }

  // deflate_fast
  ghost predicate FastChoice(r: Rule, data: seq<byte>, c: Choice) {
    match c.token
    case Literal(_) => Best(r, data, c.at, MIN_MATCH - 1)
    case Match(d, len) => Chosen(r, data, c.at, d, len)
  }

  // deflate_slow: a match is emitted if it is the best here, and short enough to look
  // further, none is longer at the next byte.
  ghost predicate SlowChoice(r: Rule, data: seq<byte>, c: Choice) {
    match c.token
    case Literal(_) => NothingKept(r, data, c.at) || Outdone(r, data, c.at)
    case Match(d, len) =>
      && Chosen(r, data, c.at, d, len) && c.next.Some? && c.next.value.pos == c.at.pos + 1
      && (len < r.Cfg().max_lazy ==> Best(r, data, c.next.value, len))
  }

  ghost predicate Justified(r: Rule, data: seq<byte>, c: Choice) {
    match r.Mode()
    case Stored => false
    case Huff => c.token.Literal?
    case Runs => RunChoice(data, c)
    case Fast => FastChoice(r, data, c)
    case Slow => SlowChoice(r, data, c)
  }

  // ----- what there is to be seen

  // The string at q joins the dictionary while choice c is made and carried out.
  predicate Joins(r: Rule, c: Choice, q: nat) {
    var s := c.at;
    match r.Mode()
    case Fast =>
      || (q == s.pos && s.ahead >= MIN_MATCH)
      || (c.token.Match? && s.pos < q < s.pos + c.token.len <= s.pos + r.Cfg().max_lazy
          && c.token.len + MIN_MATCH <= s.ahead)
    case Slow =>
      || (q == s.pos && s.ahead >= MIN_MATCH)
      || (c.token.Match? && s.pos < q < s.pos + c.token.len
          && c.next.Some? && q + MIN_MATCH <= c.next.value.pos + c.next.value.ahead)
    case _ => false
  }

  // Candidates lie above this position.
  function Low(r: Rule, s: Seen): nat {
    if s.from + r.maxDist < s.pos then s.pos - r.maxDist else s.from
  }

  // The last cut up to s.pos is the one s goes back to.
  ghost predicate Since(cuts: seq<Cut>, s: Seen) {
    && s.from <= s.pos && (exists i :: 0 <= i < |cuts| && cuts[i].pos == s.from)
    && forall i :: 0 <= i < |cuts| && cuts[i].pos <= s.pos ==> cuts[i].pos <= s.from
  }

  lemma SinceLast(cuts: seq<Cut>, s: Seen)
    requires CutsOk(cuts) && s.from == Horizon(cuts) <= s.pos
    ensures Since(cuts, s)
  {
    assert cuts[|cuts| - 1].pos == s.from;
  }

  // Every string that has joined and is within reach is a candidate, and with so few that
  // even a quarter of the budget covers them none is left out.
  ghost predicate Sees(r: Rule, cuts: seq<Cut>, log: seq<Choice>, s: Seen) {
    && Since(cuts, s)
    && (forall i, q: nat :: 0 <= i < |log| && Joins(r, log[i], q) && Low(r, s) < q < s.pos ==> q in s.cands)
    && (|s.cands| <= r.Cfg().max_chain / 4 ==> s.all)
  }

  // The positions ps behind the last cut have what the choices of the log have joined.
  ghost predicate Recalled(r: Rule, log: seq<Choice>, from: nat, ps: set<nat>) {
    forall i, q: nat :: 0 <= i < |log| && Joins(r, log[i], q) && from < q ==> q in ps
  }

  lemma RecallMore(r: Rule, log: seq<Choice>, c: Choice, from: nat, ps: set<nat>, ps': set<nat>)
    requires Recalled(r, log, from, ps) && ps <= ps'
    requires forall q: nat :: Joins(r, c, q) && from < q ==> q in ps'
    ensures Recalled(r, log, from, ps') && Recalled(r, log + [c], from, ps')
  {
    hide Joins;
    var l := log + [c];
    forall i, q: nat | 0 <= i < |l| && Joins(r, l[i], q) && from < q ensures q in ps' {
      if i < |log| {
        assert l[i] == log[i];
      }
    }
  }

  // So a search sees them, if it goes back far enough.
  lemma RecalledSees(r: Rule, cuts: seq<Cut>, log: seq<Choice>, s: Seen, ps: set<nat>)
    requires Recalled(r, log, Horizon(cuts), ps) && CutsOk(cuts) && s.from == Horizon(cuts) <= s.pos
    requires forall q :: q in ps && Low(r, s) < q < s.pos ==> q in s.cands
    requires |s.cands| <= r.Cfg().max_chain / 4 ==> s.all
    ensures Sees(r, cuts, log, s)
  {
    hide Joins;
    SinceLast(cuts, s);
  }

  // What there was to be seen had been read.
  predicate Within(data: seq<byte>, s: Seen) {
    s.pos + s.ahead <= |data|
  }

  // Choice c is made at position p and carried out, after those of the log.
  ghost predicate Follows(r: Rule, data: seq<byte>, cuts: seq<Cut>, log: seq<Choice>, c: Choice) {
    && Justified(r, data, c) && Within(data, c.at) && Sees(r, cuts, log, c.at) && TokenLen(c.token) >= 1
    && (c.next.Some? ==> Within(data, c.next.value) && Sees(r, cuts, log, c.next.value))
    && (c.next.Some? ==> c.next.value.pos < c.at.pos + TokenLen(c.token))
  }

  // The log up to position n: each choice begins where the one before ends.
  ghost predicate Logged(r: Rule, data: seq<byte>, cuts: seq<Cut>, log: seq<Choice>, n: int) {
    if log == [] then n == 0
    else
      var k := |log| - 1;
      && log[k].at.pos + TokenLen(log[k].token) == n
      && Follows(r, data, cuts, log[..k], log[k])
      && Logged(r, data, cuts, log[..k], log[k].at.pos)
  }

  // More input does not change what was to be seen.
  lemma NoneRepeatsGrow(data: seq<byte>, data': seq<byte>, pos: nat, qs: set<nat>, n: nat)
    requires NoneRepeats(data, pos, qs, n) && data <= data' && pos + n <= |data|
    ensures NoneRepeats(data', pos, qs, n)
  {
    forall q | q in qs && q <= pos ensures !Repeats(data', pos, pos - q, n) {
      if Repeats(data', pos, pos - q, n) {
        assert Repeats(data, pos, pos - q, n);
      }
    }
  }

  lemma BestGrows(r: Rule, data: seq<byte>, data': seq<byte>, s: Seen, len: nat)
    requires Best(r, data, s, len) && data <= data' && Within(data, s)
    ensures Best(r, data', s, len)
  {
    hide NoneRepeats;
    if s.all && len < Min(r.Cfg().nice_match, Min(s.ahead, MAX_MATCH)) {
      NoneRepeatsGrow(data, data', s.pos, s.cands, len + 1);
    }
  }

  lemma ChosenGrows(r: Rule, data: seq<byte>, data': seq<byte>, s: Seen, d: nat, len: nat)
    requires Chosen(r, data, s, d, len) && data <= data' && Within(data, s) && s.pos + len <= |data|
    ensures Chosen(r, data', s, d, len)
  {
    hide NoneRepeats, Best;
    BestGrows(r, data, data', s, len);
    NoneRepeatsGrow(data, data', s.pos, Closer(s.cands, s.pos, d), len);
  }

  lemma NothingKeptGrows(r: Rule, data: seq<byte>, data': seq<byte>, s: Seen)
    requires NothingKept(r, data, s) && data <= data' && Within(data, s)
    ensures NothingKept(r, data', s)
  {
    hide NoneRepeats;
    if s.all && s.ahead >= 6 && r.strategy == Filtered {
      NoneRepeatsGrow(data, data', s.pos, s.cands, 6);
    }
    if s.all && s.ahead > MIN_MATCH && r.strategy != Filtered {
      NoneRepeatsGrow(data, data', s.pos, s.cands, MIN_MATCH + 1);
    }
    if s.all && s.ahead >= MIN_MATCH && r.strategy != Filtered {
      NoneRepeatsGrow(data, data', s.pos, Closer(s.cands, s.pos, TOO_FAR + 1), MIN_MATCH);
    }
  }

  // Fewer candidates, and longer copies, are found less often.
  lemma NoneRepeatsMore(data: seq<byte>, pos: nat, qs: set<nat>, n: nat, qs': set<nat>, n': nat)
    requires NoneRepeats(data, pos, qs, n) && qs' <= qs && n <= n'
    ensures NoneRepeats(data, pos, qs', n')
  {
    forall q | q in qs' && q <= pos ensures !Repeats(data, pos, pos - q, n') {
      RepeatsShorter(data, pos, pos - q, n', n);
    }
  }

  lemma BestMore(r: Rule, data: seq<byte>, s: Seen, len: nat, len': nat)
    requires Best(r, data, s, len) && len <= len'
    ensures Best(r, data, s, len')
  {
    hide NoneRepeats;
    if s.all && len' < Min(r.Cfg().nice_match, Min(s.ahead, MAX_MATCH)) {
      NoneRepeatsMore(data, s.pos, s.cands, len + 1, s.cands, len' + 1);
    }
  }

  // A short match is thrown away when filtering, and so is none at all.
  lemma DroppedShort(r: Rule, data: seq<byte>, s: Seen, len: nat)
    requires Best(r, data, s, len) && len <= 5 && r.strategy == Filtered && r.Cfg().nice_match >= 6
    ensures NothingKept(r, data, s)
  {
    hide NoneRepeats;
    BestMore(r, data, s, len, 5);
  }

  // A match of MIN_MATCH bytes is thrown away if it is too far back.
  lemma DroppedFar(r: Rule, data: seq<byte>, s: Seen, d: nat)
    requires Chosen(r, data, s, d, MIN_MATCH) && d > TOO_FAR
    requires r.strategy != Filtered && r.Cfg().nice_match >= 6
    ensures NothingKept(r, data, s)
  {
    hide NoneRepeats;
    NoneRepeatsMore(data, s.pos, Closer(s.cands, s.pos, d), MIN_MATCH, Closer(s.cands, s.pos, TOO_FAR + 1), MIN_MATCH);
  }

  lemma NoneToKeep(r: Rule, data: seq<byte>, s: Seen)
    requires Best(r, data, s, MIN_MATCH - 1) && r.Cfg().nice_match >= 6
    ensures NothingKept(r, data, s)
  {
    hide NoneRepeats;
    if r.strategy == Filtered {
      DroppedShort(r, data, s, MIN_MATCH - 1);
    } else if s.all && s.ahead >= MIN_MATCH {
      NoneRepeatsMore(data, s.pos, s.cands, MIN_MATCH, s.cands, MIN_MATCH + 1);
      NoneRepeatsMore(data, s.pos, s.cands, MIN_MATCH, Closer(s.cands, s.pos, TOO_FAR + 1), MIN_MATCH);
    }
  }

  lemma SlowGrows(r: Rule, data: seq<byte>, data': seq<byte>, c: Choice)
    requires SlowChoice(r, data, c) && data <= data' && Within(data, c.at)
    requires c.next.Some? ==> Within(data, c.next.value)
    requires c.at.pos + TokenLen(c.token) <= |data|
    ensures SlowChoice(r, data', c)
  {
    hide NoneRepeats, Best, Chosen, NothingKept, Repeats;
    match c.token
    case Literal(_) =>
      if NothingKept(r, data, c.at) {
        NothingKeptGrows(r, data, data', c.at);
      } else {
        OutdoneGrows(r, data, data', c.at);
      }
    case Match(d, len) =>
      ChosenGrows(r, data, data', c.at, d, len);
      if len < r.Cfg().max_lazy {
        BestGrows(r, data, data', c.next.value, len);
      }
  }

  lemma OutdoneGrows(r: Rule, data: seq<byte>, data': seq<byte>, s: Seen)
    requires Outdone(r, data, s) && data <= data' && Within(data, s)
    ensures Outdone(r, data', s)
  {
    hide Chosen;
    var d, len, d', len' :| GivenUp(r, data, s, d, len, d', len');
    ChosenGrows(r, data, data', s, d, len);
    RepeatsGrow(data, data', s.pos + 1, d', len');
    assert GivenUp(r, data', s, d, len, d', len');
  }

  lemma JustifiedGrows(r: Rule, data: seq<byte>, data': seq<byte>, c: Choice)
    requires Justified(r, data, c) && data <= data' && Within(data, c.at)
    requires c.next.Some? ==> Within(data, c.next.value)
    requires c.at.pos + TokenLen(c.token) <= |data|
    ensures Justified(r, data', c)
  {
    hide NoneRepeats, Best, Chosen, SlowChoice;
    match r.Mode()
    case Runs =>
    case Fast =>
      match c.token {
        case Literal(_) => BestGrows(r, data, data', c.at, MIN_MATCH - 1);
        case Match(d, len) => ChosenGrows(r, data, data', c.at, d, len);
      }
    case Slow => SlowGrows(r, data, data', c);
    case _ =>
  }

  lemma {:induction false} LoggedGrows(r: Rule, data: seq<byte>, data': seq<byte>, cuts: seq<Cut>, log: seq<Choice>,
                                       n: int)
    requires Logged(r, data, cuts, log, n) && data <= data' && n <= |data|
    ensures Logged(r, data', cuts, log, n)
    decreases |log|
  {
    hide Justified, Sees;
    if log != [] {
      var k := |log| - 1;
      JustifiedGrows(r, data, data', log[k]);
      LoggedGrows(r, data, data', cuts, log[..k], log[k].at.pos);
    }
  }

  lemma LoggedSnoc(r: Rule, data: seq<byte>, cuts: seq<Cut>, log: seq<Choice>, c: Choice)
    requires Logged(r, data, cuts, log, c.at.pos) && Follows(r, data, cuts, log, c)
    ensures Logged(r, data, cuts, log + [c], c.at.pos + TokenLen(c.token))
  {
    hide Follows;
    assert (log + [c])[..|log|] == log;
  }

  // A new cut lies behind everything that has been chosen.
  lemma {:induction false} LoggedCut(r: Rule, data: seq<byte>, cuts: seq<Cut>, log: seq<Choice>, n: int, cut: Cut)
    requires Logged(r, data, cuts, log, n) && n <= cut.pos
    ensures Logged(r, data, cuts + [cut], log, n)
    decreases |log|
  {
    hide Justified;
    if log != [] {
      var k := |log| - 1;
      LoggedCut(r, data, cuts, log[..k], log[k].at.pos, cut);
      SeesCut(r, cuts, log[..k], log[k].at, cut);
      if log[k].next.Some? {
        SeesCut(r, cuts, log[..k], log[k].next.value, cut);
      }
    }
  }

  lemma SeesCut(r: Rule, cuts: seq<Cut>, log: seq<Choice>, s: Seen, cut: Cut)
    requires Sees(r, cuts, log, s) && s.pos < cut.pos
    ensures Sees(r, cuts + [cut], log, s)
  {
    hide Joins, Low;
    var i :| 0 <= i < |cuts| && cuts[i].pos == s.from;
    assert (cuts + [cut])[i].pos == s.from;
  }

  // What has joined lies before the end of the log.
  lemma {:induction false} JoinedBefore(r: Rule, data: seq<byte>, cuts: seq<Cut>, log: seq<Choice>, n: int)
    requires Logged(r, data, cuts, log, n)
    ensures forall i, q: nat :: 0 <= i < |log| && Joins(r, log[i], q) ==> q < n
    decreases |log|
  {
    hide Justified, Sees;
    if log != [] {
      var k := |log| - 1;
      JoinedBefore(r, data, cuts, log[..k], log[k].at.pos);
      forall i, q: nat | 0 <= i < |log| && Joins(r, log[i], q) ensures q < n {
        if i < k {
          assert log[..k][i] == log[i];
        }
      }
    }
  }

  /** Entry i of the log is made where the tokens before it end, for its reason, with
      everything to be seen that the choices before it have joined. */
  lemma {:induction false} LoggedAt(r: Rule, data: seq<byte>, cuts: seq<Cut>, log: seq<Choice>, n: int, i: nat)
    requires Logged(r, data, cuts, log, n) && i < |log|
    ensures Follows(r, data, cuts, log[..i], log[i]) && log[i].at.pos == TotalLen(TokensOf(log)[..i])
    decreases |log|
  {
    hide Follows;
    var k := |log| - 1;
    assert TokensOf(log)[..k] == TokensOf(log[..k]);
    if i < k {
      LoggedAt(r, data, cuts, log[..k], log[k].at.pos, i);
      assert log[..k][..i] == log[..i] && TokensOf(log[..k])[..i] == TokensOf(log)[..i];
    } else {
      LoggedLength(r, data, cuts, log[..k], log[k].at.pos);
    }
  }

  lemma {:induction false} LoggedLength(r: Rule, data: seq<byte>, cuts: seq<Cut>, log: seq<Choice>, n: int)
    requires Logged(r, data, cuts, log, n)
    ensures n == TotalLen(TokensOf(log))
    decreases |log|
  {
    hide Follows;
    if log != [] {
      var k := |log| - 1;
      assert TokensOf(log)[..k] == TokensOf(log[..k]);
      LoggedLength(r, data, cuts, log[..k], log[k].at.pos);
    }
  }

  // The string at q is no match that deflate_slow would keep: with short matches filtered out
  // it continues for less than six bytes, otherwise for less than four, and for less than
  // three if it is not too far back.
  ghost predicate NotKept(r: Rule, data: seq<byte>, s: Seen, q: nat)
    requires q <= s.pos
  {
    if r.strategy == Filtered then s.ahead >= 6 ==> !Repeats(data, s.pos, s.pos - q, 6)
    else
      && (s.ahead > MIN_MATCH ==> !Repeats(data, s.pos, s.pos - q, MIN_MATCH + 1))
      && (s.ahead >= MIN_MATCH && s.pos - q <= TOO_FAR ==> !Repeats(data, s.pos, s.pos - q, MIN_MATCH))
  }

  /** No match is missed.  Let the string at q have joined the dictionary with token i, and
      token j be chosen later, within reach of q and of the chain budget.  If j is a literal of
      deflate_fast, the three bytes there are no copy of those at q; if of deflate_slow, they
      are no match to be kept (NotKept), unless a longer one has been found one byte on; if j
      is a match, the bytes at q match no further, and, if q is closer, not even as far. */
  lemma NothingMissed(r: Rule, data: seq<byte>, cuts: seq<Cut>, log: seq<Choice>, n: int, i: nat, j: nat, q: nat)
    requires Logged(r, data, cuts, log, n) && i < j < |log|
    requires Joins(r, log[i], q) && Low(r, log[j].at) < q && log[j].at.all
    ensures q < log[j].at.pos
    ensures var s, t := log[j].at, log[j].token;
            && (t.Literal? && s.ahead >= MIN_MATCH && r.Mode() == Fast ==> !Repeats(data, s.pos, s.pos - q, MIN_MATCH))
            && (t.Literal? && r.Mode() == Slow && !Outdone(r, data, s) ==> NotKept(r, data, s, q))
            && (t.Match? && t.len < Min(r.Cfg().nice_match, Min(s.ahead, MAX_MATCH)) ==>
                  !Repeats(data, s.pos, s.pos - q, t.len + 1))
            && (t.Match? && s.pos - q < t.dist ==> !Repeats(data, s.pos, s.pos - q, t.len))
  {
    hide Repeats, Outdone, Since, Justified;
    LoggedAt(r, data, cuts, log, n, j);
    Earlier(r, data, cuts, log, n, i, j, q);
    assert log[..j][i] == log[i];
    ChosenOver(r, data, log[j], q);
  }

  lemma ChosenOver(r: Rule, data: seq<byte>, c: Choice, q: nat)
    requires Justified(r, data, c) && (r.Mode() == Fast || r.Mode() == Slow)
    requires q in c.at.cands && q < c.at.pos && c.at.all
    ensures var s, t := c.at, c.token;
            && (t.Literal? && s.ahead >= MIN_MATCH && r.Mode() == Fast ==> !Repeats(data, s.pos, s.pos - q, MIN_MATCH))
            && (t.Literal? && r.Mode() == Slow && !Outdone(r, data, s) ==> NotKept(r, data, s, q))
            && (t.Match? && t.len < Min(r.Cfg().nice_match, Min(s.ahead, MAX_MATCH)) ==>
                  !Repeats(data, s.pos, s.pos - q, t.len + 1))
            && (t.Match? && s.pos - q < t.dist ==> !Repeats(data, s.pos, s.pos - q, t.len))
  {
    hide Repeats, Outdone;
    var s, t := c.at, c.token;
    if t.Match? {
      assert s.pos - q < t.dist ==> q in Closer(s.cands, s.pos, t.dist);
    } else {
      assert s.pos - q <= TOO_FAR ==> q in Closer(s.cands, s.pos, TOO_FAR + 1);
    }
  }

  lemma {:induction false} Earlier(r: Rule, data: seq<byte>, cuts: seq<Cut>, log: seq<Choice>, n: int, i: nat, j: nat,
                                   q: nat)
    requires Logged(r, data, cuts, log, n) && i < j < |log| && Joins(r, log[i], q)
    ensures q < log[j].at.pos
    decreases |log|
  {
    hide Follows;
    var k := |log| - 1;
    if j == k {
      JoinedBefore(r, data, cuts, log[..k], log[k].at.pos);
      assert log[..k][i] == log[i];
    } else {
      Earlier(r, data, cuts, log[..k], log[k].at.pos, i, j, q);
    }
  }

  // Choices from the given one on have been made with n bytes ahead, or, when flushing, with
  // all of the input.
  predicate Ample(log: seq<Choice>, from: nat, n: nat, total: nat, flushing: bool) {
    forall i :: from <= i < |log| ==>
      log[i].at.ahead >= n || (flushing && log[i].at.pos + log[i].at.ahead == total)
  }

  lemma AmpleNone(log: seq<Choice>, n: nat, total: nat, flushing: bool)
    ensures Ample(log, |log|, n, total, flushing) && Ample(log, |log| + 1, n, total, flushing)
  {
  }

  // One more choice, made at position p with so much ahead.
  predicate Added(log: seq<Choice>, log': seq<Choice>, p: nat, ahead: nat) {
    |log'| == |log| + 1 && log <= log' && log'[|log|].at.pos == p && log'[|log|].at.ahead == ahead
  }

  lemma AmpleMore(log: seq<Choice>, log': seq<Choice>, p: nat, ahead: nat, from: nat, n: nat, total: nat,
                  flushing: bool)
    requires Ample(log, from, n, total, flushing) && Added(log, log', p, ahead)
    requires |log| < from || ahead >= n || (flushing && p + ahead == total)
    ensures Ample(log', from, n, total, flushing) && |log'| == |log| + 1
  {
  }

  // ----- a run: blocks, tokens, cuts and log

  function TokensOf(log: seq<Choice>): (r: seq<Token>)
    ensures |r| == |log|
  {
    seq(|log|, i requires 0 <= i < |log| => log[i].token)
  }

  function AllTokens(bs: seq<Block>): seq<Token> {
    if bs == [] then [] else AllTokens(bs[..|bs| - 1]) + bs[|bs| - 1].tokens
  }

  // A reader that starts at the cut reads the rest of the data.
  ghost predicate Restartable(r: Rule, data: seq<byte>, bs: seq<Block>, ts: seq<Token>, at: int, n: int, cut: Cut) {
    && cut.pos <= at && cut.pos <= |data| && cut.blocks <= |bs|
    && Represents(data[cut.pos..], bs[cut.blocks..], ts, at - cut.pos, n - cut.pos, r.level == 0, r.maxDist)
  }

  // The cuts made so far, the first at the very start and none behind the last.
  ghost predicate CutsOk(cuts: seq<Cut>) {
    && cuts != [] && cuts[0] == Cut(0, 0)
    && forall i :: 0 <= i < |cuts| ==> cuts[i].pos <= cuts[|cuts| - 1].pos
  }

  // The log explains every token, except that deflate_stored tallies none.
  ghost predicate Explained(r: Rule, data: seq<byte>, bs: seq<Block>, ts: seq<Token>, n: int, cuts: seq<Cut>,
                            log: seq<Choice>) {
    if r.Mode() == Stored then log == []
    else TokensOf(log) == AllTokens(bs) + ts && Logged(r, data, cuts, log, n)
  }

  /** What is known of a run: from every cut on, flushed blocks and tallied tokens stand
      for the input, and there is a reason for every token. */
  ghost predicate Reported(r: Rule, data: seq<byte>, bs: seq<Block>, ts: seq<Token>, at: int, n: int, cuts: seq<Cut>,
                           log: seq<Choice>) {
    && CutsOk(cuts) && Represents(data, bs, ts, at, n, r.level == 0, r.maxDist)
    && (forall c :: c in cuts ==> Restartable(r, data, bs, ts, at, n, c))
    && Explained(r, data, bs, ts, n, cuts, log)
  }

  // What a step keeps, it keeps for every cut.
  lemma CutLiteral(r: Rule, data: seq<byte>, bs: seq<Block>, ts: seq<Token>, at: int, n: int, cut: Cut)
    requires Restartable(r, data, bs, ts, at, n, cut) && 0 <= n < |data|
    ensures Restartable(r, data, bs, ts + [Literal(data[n])], at, n + 1, cut)
  {
    hide Represents;
    BehindCut(r, data, bs, ts, at, n, cut);
    RepresentsLiteral(data[cut.pos..], bs[cut.blocks..], ts, at - cut.pos, n - cut.pos, r.level == 0, r.maxDist);
  }

  lemma BehindCut(r: Rule, data: seq<byte>, bs: seq<Block>, ts: seq<Token>, at: int, n: int, cut: Cut)
    requires Restartable(r, data, bs, ts, at, n, cut)
    ensures cut.pos <= at <= n <= |data|
  {
    hide Blocks, Decode;
  }

  lemma CutMatch(r: Rule, data: seq<byte>, bs: seq<Block>, ts: seq<Token>, at: int, n: int, cut: Cut, dist: nat,
                 len: nat)
    requires Restartable(r, data, bs, ts, at, n, cut) && 0 <= n && Repeats(data, n, dist, len)
    requires MIN_MATCH <= len <= MAX_MATCH && dist <= r.maxDist && cut.pos + dist <= n
    ensures Restartable(r, data, bs, ts + [Match(dist, len)], at, n + len, cut)
  {
    hide Represents;
    BehindCut(r, data, bs, ts, at, n, cut);
    RepresentsMatch(data[cut.pos..], bs[cut.blocks..], ts, at - cut.pos, n - cut.pos, r.level == 0, r.maxDist, dist,
                    len);
  }

  lemma CutGrows(r: Rule, data: seq<byte>, data': seq<byte>, bs: seq<Block>, ts: seq<Token>, at: int, n: int, cut: Cut)
    requires Restartable(r, data, bs, ts, at, n, cut) && data <= data'
    ensures Restartable(r, data', bs, ts, at, n, cut)
  {
    hide Represents;
    RepresentsGrow(data[cut.pos..], data'[cut.pos..], bs[cut.blocks..], ts, at - cut.pos, n - cut.pos, r.level == 0,
                   r.maxDist);
  }

  lemma CutEmpty(r: Rule, data: seq<byte>, bs: seq<Block>, ts: seq<Token>, at: int, n: int, cut: Cut, b: Block)
    requires Restartable(r, data, bs, ts, at, n, cut) && Empty(b)
    ensures Restartable(r, data, bs + [b], ts, at, n, cut)
  {
    hide Represents;
    assert (bs + [b])[cut.blocks..] == bs[cut.blocks..] + [b];
    RepresentsEmpty(data[cut.pos..], bs[cut.blocks..], ts, at - cut.pos, n - cut.pos, r.level == 0, r.maxDist, b);
  }

  // The block that stands for data[at..n'], from tokens that reach n' or as it is.
  ghost predicate MayFlush(r: Rule, data: seq<byte>, ts: seq<Token>, at: int, n: int, b: Block, n': int) {
    && 0 <= at <= n' <= |data| && b.tokens == ts && b.storedLen == n' - at
    && (b.buf.Some? ==> b.buf.value == data[at..n'])
    && (n == n' || (r.level == 0 && b.buf.Some?))
  }

  lemma CutFlush(r: Rule, data: seq<byte>, bs: seq<Block>, ts: seq<Token>, at: int, n: int, cut: Cut, b: Block,
                 n': int)
    requires Restartable(r, data, bs, ts, at, n, cut) && MayFlush(r, data, ts, at, n, b, n')
    ensures Restartable(r, data, bs + [b], [], n', n', cut)
  {
    hide Represents;
    var d, k := data[cut.pos..], bs[cut.blocks..];
    assert (bs + [b])[cut.blocks..] == k + [b];
    assert b.buf.Some? ==> data[at..n'] == d[at - cut.pos..n' - cut.pos];
    FlushEither(r, d, k, ts, at - cut.pos, n - cut.pos, b, n' - cut.pos);
  }

  lemma FlushEither(r: Rule, data: seq<byte>, bs: seq<Block>, ts: seq<Token>, at: int, n: int, b: Block, n': int)
    requires Represents(data, bs, ts, at, n, r.level == 0, r.maxDist) && MayFlush(r, data, ts, at, n, b, n')
    ensures Represents(data, bs + [b], [], n', n', r.level == 0, r.maxDist)
  {
    hide Represents;
    if n == n' {
      FlushedFaithful(data, bs, ts, at, n, r.level == 0, r.maxDist, b);
    } else {
      StoredFaithful(data, at, n', b);
    }
    RepresentsFlush(data, bs, ts, at, n, r.level == 0, r.maxDist, b);
  }

  // The last cut, which nothing may refer back across.
  function Horizon(cuts: seq<Cut>): nat {
    if cuts == [] then 0 else cuts[|cuts| - 1].pos
  }

  lemma ExplainedToken(r: Rule, data: seq<byte>, bs: seq<Block>, ts: seq<Token>, n: int, cuts: seq<Cut>,
                       log: seq<Choice>, c: Choice)
    requires Explained(r, data, bs, ts, n, cuts, log) && r.Mode() != Stored
    requires Follows(r, data, cuts, log, c) && c.at.pos == n
    ensures Explained(r, data, bs, ts + [c.token], n + TokenLen(c.token), cuts, log + [c])
  {
    hide Logged, Follows;
    LoggedSnoc(r, data, cuts, log, c);
    assert TokensOf(log + [c]) == TokensOf(log) + [c.token];
    assert AllTokens(bs) + ts + [c.token] == AllTokens(bs) + (ts + [c.token]);
  }

  /** A literal, for a reason. */
  lemma ReportedLiteral(r: Rule, data: seq<byte>, bs: seq<Block>, ts: seq<Token>, at: int, n: int, cuts: seq<Cut>,
                        log: seq<Choice>, c: Choice)
    requires Reported(r, data, bs, ts, at, n, cuts, log) && r.Mode() != Stored
    requires Follows(r, data, cuts, log, c) && c.at.pos == n < |data| && c.token == Literal(data[n])
    ensures Reported(r, data, bs, ts + [c.token], at, n + 1, cuts, log + [c])
  {
    hide Represents, Restartable, Explained, Follows, CutsOk;
    RepresentsLiteral(data, bs, ts, at, n, r.level == 0, r.maxDist);
    ExplainedToken(r, data, bs, ts, n, cuts, log, c);
    forall cut | cut in cuts ensures Restartable(r, data, bs, ts + [c.token], at, n + 1, cut) {
      CutLiteral(r, data, bs, ts, at, n, cut);
    }
  }

  /** A match, for a reason, that does not refer back across the last cut. */
  lemma ReportedMatch(r: Rule, data: seq<byte>, bs: seq<Block>, ts: seq<Token>, at: int, n: int, cuts: seq<Cut>,
                      log: seq<Choice>, c: Choice)
    requires Reported(r, data, bs, ts, at, n, cuts, log) && r.Mode() != Stored
    requires Follows(r, data, cuts, log, c) && c.at.pos == n && c.token.Match?
    requires Repeats(data, n, c.token.dist, c.token.len) && MIN_MATCH <= c.token.len <= MAX_MATCH
    requires c.token.dist <= r.maxDist && Horizon(cuts) + c.token.dist <= n
    ensures Reported(r, data, bs, ts + [c.token], at, n + c.token.len, cuts, log + [c])
  {
    hide Represents, Restartable, Explained, Follows, Repeats;
    RepresentsMatch(data, bs, ts, at, n, r.level == 0, r.maxDist, c.token.dist, c.token.len);
    ExplainedToken(r, data, bs, ts, n, cuts, log, c);
    forall cut | cut in cuts ensures Restartable(r, data, bs, ts + [c.token], at, n + c.token.len, cut) {
      CutMatch(r, data, bs, ts, at, n, cut, c.token.dist, c.token.len);
    }
  }

  lemma ReportedGrows(r: Rule, data: seq<byte>, data': seq<byte>, bs: seq<Block>, ts: seq<Token>, at: int, n: int,
                      cuts: seq<Cut>, log: seq<Choice>)
    requires Reported(r, data, bs, ts, at, n, cuts, log) && data <= data'
    ensures Reported(r, data', bs, ts, at, n, cuts, log)
  {
    hide Restartable, CutsOk, Logged, Blocks, Decode;
    RepresentsGrow(data, data', bs, ts, at, n, r.level == 0, r.maxDist);
    forall cut | cut in cuts ensures Restartable(r, data', bs, ts, at, n, cut) {
      CutGrows(r, data, data', bs, ts, at, n, cut);
    }
    if r.Mode() != Stored {
      LoggedGrows(r, data, data', cuts, log, n);
    }
  }

  lemma AllTokensSnoc(bs: seq<Block>, b: Block)
    ensures AllTokens(bs + [b]) == AllTokens(bs) + b.tokens
  {
    assert (bs + [b])[..|bs|] == bs;
  }

  lemma ReportedEmpty(r: Rule, data: seq<byte>, bs: seq<Block>, ts: seq<Token>, at: int, n: int, cuts: seq<Cut>,
                      log: seq<Choice>, b: Block)
    requires Reported(r, data, bs, ts, at, n, cuts, log) && Empty(b)
    ensures Reported(r, data, bs + [b], ts, at, n, cuts, log)
  {
    hide Restartable, CutsOk, Logged, Represents;
    RepresentsEmpty(data, bs, ts, at, n, r.level == 0, r.maxDist, b);
    AllTokensSnoc(bs, b);
    assert AllTokens(bs) + [] == AllTokens(bs);
    forall cut | cut in cuts ensures Restartable(r, data, bs + [b], ts, at, n, cut) {
      CutEmpty(r, data, bs, ts, at, n, cut, b);
    }
  }

  lemma ReportedFlush(r: Rule, data: seq<byte>, bs: seq<Block>, ts: seq<Token>, at: int, n: int, cuts: seq<Cut>,
                      log: seq<Choice>, b: Block, n': int)
    requires Reported(r, data, bs, ts, at, n, cuts, log) && MayFlush(r, data, ts, at, n, b, n')
    requires n == n' || r.Mode() == Stored
    ensures Reported(r, data, bs + [b], [], n', n', cuts, log)
  {
    hide Restartable, CutsOk, Logged, Represents, MayFlush;
    FlushEither(r, data, bs, ts, at, n, b, n');
    AllTokensSnoc(bs, b);
    TokensFlushed(r, data, ts, at, n, b, n');
    assert AllTokens(bs) + ts + [] == AllTokens(bs) + ts;
    forall cut | cut in cuts ensures Restartable(r, data, bs + [b], [], n', n', cut) {
      CutFlush(r, data, bs, ts, at, n, cut, b, n');
    }
  }

  lemma ReportedBounds(r: Rule, data: seq<byte>, bs: seq<Block>, ts: seq<Token>, at: int, n: int, cuts: seq<Cut>,
                       log: seq<Choice>)
    requires Reported(r, data, bs, ts, at, n, cuts, log)
    ensures 0 <= at <= n <= |data| && CutsOk(cuts) && Horizon(cuts) <= at
  {
    hide Blocks, Decode, Explained;
    assert Restartable(r, data, bs, ts, at, n, cuts[|cuts| - 1]);
  }

  lemma TokensFlushed(r: Rule, data: seq<byte>, ts: seq<Token>, at: int, n: int, b: Block, n': int)
    requires MayFlush(r, data, ts, at, n, b, n')
    ensures b.tokens == ts
  {
  }

  // Tokens that stand for nothing are none.
  lemma NoTokens(data: seq<byte>, bs: seq<Block>, ts: seq<Token>, n: int, level0: bool, maxDist: nat)
    requires Represents(data, bs, ts, n, n, level0, maxDist)
    ensures ts == []
  {
    hide Blocks, Decode;
    TokensCoverBlock(data, bs, ts, n, n, level0, maxDist);
    AtLeastOneEach(ts, maxDist);
  }

  lemma {:induction false} AtLeastOneEach(ts: seq<Token>, maxDist: nat)
    requires TokensOk(ts, maxDist)
    ensures TotalLen(ts) >= |ts|
    decreases |ts|
  {
    if ts != [] {
      AtLeastOneEach(ts[..|ts| - 1], maxDist);
    }
  }

  /** Where everything is in blocks, a reader may start, if nothing later refers back. */
  lemma ReportedCut(r: Rule, data: seq<byte>, bs: seq<Block>, ts: seq<Token>, cuts: seq<Cut>, log: seq<Choice>)
    requires Reported(r, data, bs, ts, |data|, |data|, cuts, log)
    ensures Reported(r, data, bs, ts, |data|, |data|, cuts + [Cut(|data|, |bs|)], log)
  {
    hide Restartable, Logged, Represents;
    var cut := Cut(|data|, |bs|);
    NoTokens(data, bs, ts, |data|, r.level == 0, r.maxDist);
    CutHere(r, data, bs, cut);
    if r.Mode() != Stored {
      LoggedCut(r, data, cuts, log, |data|, cut);
    }
    forall c | c in cuts ensures c.pos <= |data| {
      CutBehind(r, data, bs, ts, |data|, |data|, c);
    }
    assert forall c :: c in cuts + [cut] <==> c in cuts || c == cut;
  }

  // Nothing that has joined lies behind a cut made where everything is in blocks.
  lemma NothingRecalled(r: Rule, data: seq<byte>, bs: seq<Block>, ts: seq<Token>, cuts: seq<Cut>, log: seq<Choice>)
    requires Reported(r, data, bs, ts, |data|, |data|, cuts, log)
    ensures Recalled(r, log, |data|, {})
  {
    hide Represents, Restartable, CutsOk, Logged;
    if r.Mode() != Stored {
      JoinedBefore(r, data, cuts, log, |data|);
    }
  }

  lemma NothingReported(r: Rule)
    ensures Reported(r, [], [], [], 0, 0, [Cut(0, 0)], [])
  {
    CutHere(r, [], [], Cut(0, 0));
  }

  lemma CutBehind(r: Rule, data: seq<byte>, bs: seq<Block>, ts: seq<Token>, at: int, n: int, cut: Cut)
    requires Restartable(r, data, bs, ts, at, n, cut)
    ensures cut.pos <= |data|
  {
  }

  lemma CutHere(r: Rule, data: seq<byte>, bs: seq<Block>, cut: Cut)
    requires cut == Cut(|data|, |bs|)
    ensures Restartable(r, data, bs, [], |data|, |data|, cut)
  {
    assert data[|data|..] == [] && bs[|bs|..] == [];
  }

  /** Reading from a cut on gives the input from there on. */
  lemma RestartReads(r: Rule, data: seq<byte>, bs: seq<Block>, ts: seq<Token>, cuts: seq<Cut>, log: seq<Choice>,
                     cut: Cut, stored: seq<bool>)
    requires Reported(r, data, bs, ts, |data|, |data|, cuts, log) && cut in cuts
    ensures cut.pos <= |data| && cut.blocks <= |bs|
    ensures MayEncodeAll(bs[cut.blocks..], stored, r.level == 0) ==>
      DecodeBlocks(bs[cut.blocks..], stored) == Some(data[cut.pos..])
  {
    hide Represents, Explained, CutsOk;
    assert Restartable(r, data, bs, ts, |data|, |data|, cut);
    var d, k := data[cut.pos..], bs[cut.blocks..];
    if MayEncodeAll(k, stored, r.level == 0) {
      RepresentedBlocks(d, k, ts, |d|, r.level == 0, r.maxDist);
      DecodeFaithful(d, k, |d|, r.level == 0, stored);
      assert d[..|d|] == d;
    }
  }

  lemma RepresentedBlocks(data: seq<byte>, bs: seq<Block>, ts: seq<Token>, n: int, level0: bool, maxDist: nat)
    requires Represents(data, bs, ts, n, n, level0, maxDist)
    ensures Blocks(data, bs, n, level0)
  {
  }
}
