/** What every run of `constructor_string_parser` does: it accounts for all tokens, component by component,
    except behind an odd number of opening braces at the end. */
module ConstructorRuns {
  import opened CppString
  import opened PatternTokens
  import opened ConstructorSteps

  // Components and the delimiters between them.

  predicate FollowsHost(tokens: seq<Token>, last: nat, s: State, first: nat)
    requires last < |tokens|
  {
    || (s == PATHNAME && first == last && IsNonSpecialPatternChar(tokens, last, '/'))
    || (s == SEARCH && first == last + 1 && IsSearchPrefix(tokens, last))
    || (s == HASH && first == last + 1 && IsNonSpecialPatternChar(tokens, last, '#'))
  }

  /** A component that ends before token `last` is followed by one that begins at token `first`: between them
      is what delimits them, or the end. */
  predicate Follows(tokens: seq<Token>, from: State, last: nat, s: State, first: nat)
    requires last < |tokens|
  {
    if s == DONE then first == last == |tokens| - 1
    else
      match from
      case PROTOCOL =>
        && IsNonSpecialPatternChar(tokens, last, ':')
        && (if s == PATHNAME then first == last + 1
            else
              && (s == AUTHORITY || s == USERNAME || s == HOSTNAME)
              && (first == last + 1 || (first == last + 3 && NextIsAuthoritySlashes(tokens, last))))
      case USERNAME =>
        && first == last + 1
        && ((s == PASSWORD && IsNonSpecialPatternChar(tokens, last, ':'))
            || (s == HOSTNAME && IsNonSpecialPatternChar(tokens, last, '@')))
      case PASSWORD => s == HOSTNAME && first == last + 1 && IsNonSpecialPatternChar(tokens, last, '@')
      case HOSTNAME =>
        (s == PORT && first == last + 1 && IsNonSpecialPatternChar(tokens, last, ':'))
        || FollowsHost(tokens, last, s, first)
      case PORT => FollowsHost(tokens, last, s, first)
      case PATHNAME => s != PATHNAME && FollowsHost(tokens, last, s, first)
      case SEARCH => s == HASH && first == last + 1 && IsNonSpecialPatternChar(tokens, last, '#')
      case _ => false
  }

  /** How the first component begins. */
  predicate Begins(tokens: seq<Token>, s: State, first: nat)
    requires |tokens| > 0
  {
    match s
    case INIT => first == 0
    case PROTOCOL => first == 0
    case PATHNAME => first == 0
    case SEARCH => first == 1 && IsSearchPrefix(tokens, 0)
    case HASH => first == 1 && IsNonSpecialPatternChar(tokens, 0, '#')
    case _ => false
  }

  predicate IsSpan(tokens: seq<Token>, span: Span) {
    HasComponent(span.state) && span.first <= span.last < |tokens|
  }

  /** The spans follow one another from the first token on, up to a component of state `s` that begins at
      token `first`. */
  predicate IsChain(tokens: seq<Token>, spans: seq<Span>, s: State, first: nat)
    requires |tokens| > 0
  {
    if spans == [] then Begins(tokens, s, first)
    else
      var last := spans[|spans| - 1];
      && IsSpan(tokens, last)
      && IsChain(tokens, spans[..|spans| - 1], last.state, last.first)
      && Follows(tokens, last.state, last.last, s, first)
  }

  lemma ChainExtended(tokens: seq<Token>, spans: seq<Span>, span: Span, s: State, first: nat)
    requires |tokens| > 0 && IsChain(tokens, spans, span.state, span.first) && IsSpan(tokens, span)
    requires Follows(tokens, span.state, span.last, s, first)
    ensures IsChain(tokens, spans + [span], s, first)
  {
    hide Follows, IsSpan, Begins;
    assert (spans + [span])[..|spans|] == spans;
  }

  /** Later components come later, both in the input and in the order of the states. */
  lemma {:induction false} ChainIsOrdered(tokens: seq<Token>, spans: seq<Span>, s: State, first: nat, k: nat)
    requires |tokens| > 0 && IsChain(tokens, spans, s, first) && k < |spans|
    ensures IsSpan(tokens, spans[k]) && Rank(spans[k].state) < Rank(s) && spans[k].last <= first
  {
    var last := spans[|spans| - 1];
    FollowsOnward(tokens, last.state, last.last, s, first);
    hide Follows, Begins;
    if k < |spans| - 1 {
      ChainIsOrdered(tokens, spans[..|spans| - 1], last.state, last.first, k);
    }
  }

  lemma FollowsOnward(tokens: seq<Token>, from: State, last: nat, s: State, first: nat)
    requires last < |tokens| && HasComponent(from) && Follows(tokens, from, last, s, first)
    ensures Rank(from) < Rank(s) && last <= first <= last + 3
  {
  }

  /** A token belongs to a component, or to a delimiter of at most three tokens. */
  predicate IsAccountedFor(spans: seq<Span>, first: nat, i: nat) {
    || (exists k :: 0 <= k < |spans| && spans[k].first <= i < spans[k].last)
    || (exists k :: 0 <= k < |spans| && spans[k].last <= i < NextFirst(spans, first, k) <= spans[k].last + 3)
    || i == 0
  }

  function NextFirst(spans: seq<Span>, first: nat, k: nat): nat
    requires k < |spans|
  {
    if k + 1 < |spans| then spans[k + 1].first else first
  }

  lemma {:induction false} ChainAccountsForAll(tokens: seq<Token>, spans: seq<Span>, s: State, first: nat, i: nat)
    requires |tokens| > 0 && IsChain(tokens, spans, s, first) && i < first
    ensures IsAccountedFor(spans, first, i)
  {
    if spans != [] {
      var rest, last := spans[..|spans| - 1], spans[|spans| - 1];
      FollowsOnward(tokens, last.state, last.last, s, first);
      hide Follows, Begins;
      if i < last.first {
        ChainAccountsForAll(tokens, rest, last.state, last.first, i);
        if k :| 0 <= k < |rest| && rest[k].first <= i < rest[k].last {
          assert spans[k] == rest[k];
        } else if k :| 0 <= k < |rest| && rest[k].last <= i < NextFirst(rest, last.first, k) <= rest[k].last + 3 {
          assert spans[k] == rest[k] && NextFirst(spans, first, k) == NextFirst(rest, last.first, k);
        }
      } else if i < last.last {
        assert spans[|spans| - 1].first <= i < spans[|spans| - 1].last;
      } else {
        assert spans[|spans| - 1].last <= i < NextFirst(spans, first, |spans| - 1);
      }
    }
  }

  // Every round keeps that.

  predicate Chained(tokens: seq<Token>, c: Config)
    requires |tokens| > 0
  {
    IsChain(tokens, c.spans, c.state, c.start)
  }

  lemma InitialAuthority(tokens: seq<Token>, c: Config)
    requires |tokens| > 0 && Chained(tokens, c)
    ensures c.state == INIT ==> c.spans == [] && c.start == 0
    ensures c.state == PROTOCOL ==> c.spans == [] && c.start == 0
    ensures c.state == AUTHORITY ==>
      c.spans != [] && c.spans[|c.spans| - 1].state == PROTOCOL && c.spans[|c.spans| - 1].last < |tokens|
  {
  }

  lemma MoveFollows(tokens: seq<Token>, inputLength: nat, s: State, index: nat, brackets: nat, special: bool)
    requires IsTokenList(tokens, inputLength) && index < |tokens| - 1
    requires HasComponent(s)
    ensures match MoveAt(tokens, s, index, brackets, special)
      case Stay => true
      case Move(to, skip) => Follows(tokens, s, index, to, index + skip)
  {
  }

  /** Going back to the start of a component keeps what was before it. */
  lemma RewoundChain(tokens: seq<Token>, c: Config, to: State)
    requires |tokens| > 0 && Chained(tokens, c)
    requires (c.state == INIT && to == PROTOCOL) || (c.state == AUTHORITY && (to == USERNAME || to == HOSTNAME))
    ensures IsChain(tokens, c.spans + [], to, c.start)
  {
    assert c.spans + [] == c.spans;
  }

  lemma RewindingMoves(tokens: seq<Token>, s: State, index: nat, brackets: nat, special: bool)
    requires index < |tokens| && Rewinds(s)
    ensures match MoveAt(tokens, s, index, brackets, special)
      case Stay => true
      case Move(to, skip) =>
        skip == 0 && ((s == INIT && to == PROTOCOL) || (s == AUTHORITY && (to == USERNAME || to == HOSTNAME)))
  {
    hide IsNonSpecialPatternChar, MoveBehindHost;
  }

  lemma MovedKeepsChain(tokens: seq<Token>, inputLength: nat, c: Config)
    requires IsTokenList(tokens, inputLength) && InRange(tokens, c) && c.index < |tokens| - 1 && Chained(tokens, c)
    ensures Chained(tokens, Moved(tokens, c))
  {
    hide MoveAt, Follows, IsTokenList, IsChain;
    var move := MoveAt(tokens, c.state, c.index, c.brackets, c.special);
    if move == Stay {
    } else if HasComponent(c.state) {
      MoveFollows(tokens, inputLength, c.state, c.index, c.brackets, c.special);
      ChainExtended(tokens, c.spans, Span(c.state, c.start, c.index), move.to, c.index + move.skip);
    } else {
      MoveGoesForward(tokens, inputLength, c.state, c.index, c.brackets, c.special);
      RewindingMoves(tokens, c.state, c.index, c.brackets, c.special);
      RewoundChain(tokens, c, move.to);
    }
  }

  lemma AtEndKeepsChain(tokens: seq<Token>, inputLength: nat, c: Config)
    requires IsTokenList(tokens, inputLength) && InRange(tokens, c) && c.index == |tokens| - 1 && Chained(tokens, c)
    requires c.state != DONE
    ensures Chained(tokens, AtEnd(tokens, c))
  {
    InitialAuthority(tokens, c);
    assert c.spans + [] == c.spans;
    if HasComponent(c.state) {
      ChainExtended(tokens, c.spans, Span(c.state, c.start, c.index), DONE, c.index);
    }
  }

  lemma AtTokenKeepsChain(input: string, tokens: seq<Token>, oracle: SchemeOracle, c: Config)
    requires IsTokenList(tokens, |input|) && InRange(tokens, c) && c.index < |tokens| - 1 && Chained(tokens, c)
    ensures var next := AtToken(input, tokens, oracle, c);
      next.Some? ==> Chained(tokens, next.value)
  {
    hide IsTokenList, IsChain, Moved;
    MovedKeepsChain(tokens, |input|, c);
    MovedKeepsChain(tokens, |input|, c.(special := true));
    MovedKeepsChain(tokens, |input|, c.(special := false));
  }

  lemma RoundKeepsChain(input: string, tokens: seq<Token>, oracle: SchemeOracle, c: Config)
    requires IsTokenList(tokens, |input|) && InRange(tokens, c) && c.index < |tokens| && c.state != DONE
    requires Chained(tokens, c)
    ensures var next := Round(input, tokens, oracle, c); next.Some? ==> Chained(tokens, next.value)
  {
    hide AtToken, AtEnd, IsTokenList, IsChain;
    TheEnd(tokens, |input|, c.index);
    if tokens[c.index].kind == END {
      AtEndKeepsChain(tokens, |input|, c);
    } else {
      var d := if tokens[c.index].kind == OPEN then c.(depth := c.depth + 1, index := c.index + 1) else c;
      TheEnd(tokens, |input|, d.index);
      if d.depth == 0 {
        AtTokenKeepsChain(input, tokens, oracle, d);
      } else if tokens[d.index].kind == CLOSE {
        AtTokenKeepsChain(input, tokens, oracle, d.(depth := d.depth - 1));
      }
    }
  }

  // The protocol.

  /** The colon that ends the protocol, looked for from token `i` on: the first one outside of groups that a
      round comes to. The token behind an opening brace is passed over. */
  function FirstColon(tokens: seq<Token>, i: nat, depth: nat): (colon: Option<nat>)
    requires |tokens| > 0
    ensures colon.Some? ==> i <= colon.value < |tokens| && IsNonSpecialPatternChar(tokens, colon.value, ':')
    decreases |tokens| - i
  {
    if i >= |tokens| || tokens[i].kind == END then None
    else if tokens[i].kind == OPEN then
      FirstColon(tokens, i + 2, if i + 1 < |tokens| && tokens[i + 1].kind == CLOSE then depth else depth + 1)
    else if depth > 0 then FirstColon(tokens, i + 1, if tokens[i].kind == CLOSE then depth - 1 else depth)
    else if IsNonSpecialPatternChar(tokens, i, ':') then Some(i)
    else FirstColon(tokens, i + 1, 0)
  }

  function ProtocolColon(tokens: seq<Token>): Option<nat>
    requires |tokens| > 0
  {
    FirstColon(tokens, 0, 0)
  }

  /** The oracle's answer for the protocol, if there is one. */
  function ProtocolAnswer(input: string, tokens: seq<Token>, oracle: SchemeOracle): Option<bool>
    requires IsTokenList(tokens, |input|) && ProtocolColon(tokens).Some?
  {
    oracle(Source(input, tokens, Span(PROTOCOL, 0, ProtocolColon(tokens).value)))
  }

  predicate RejectsProtocol(input: string, tokens: seq<Token>, oracle: SchemeOracle)
    requires IsTokenList(tokens, |input|)
  {
    ProtocolColon(tokens).Some? && ProtocolAnswer(input, tokens, oracle) == None
  }

  /** The first component is the protocol, exactly when there is a colon to end it, and it is known whether it
      is special. */
  predicate HasProtocol(input: string, tokens: seq<Token>, oracle: SchemeOracle, special: bool, spans: seq<Span>)
    requires IsTokenList(tokens, |input|)
  {
    var colon := ProtocolColon(tokens);
    if colon.None? then !special && (spans != [] ==> spans[0].state != PROTOCOL)
    else
      && spans != [] && spans[0] == Span(PROTOCOL, 0, colon.value)
      && ProtocolAnswer(input, tokens, oracle) == Some(special)
  }

  /** Up to the end of the protocol, its colon is still ahead. */
  predicate KnowsProtocol(input: string, tokens: seq<Token>, oracle: SchemeOracle, c: Config)
    requires IsTokenList(tokens, |input|)
  {
    if c.state == INIT || c.state == PROTOCOL then
      && !c.special && FirstColon(tokens, c.index, c.depth) == ProtocolColon(tokens)
      && (c.state == PROTOCOL ==> ProtocolColon(tokens).Some?)
    else HasProtocol(input, tokens, oracle, c.special, c.spans)
  }

  /** The same at a token that is neither skipped nor the end. */
  predicate KnowsProtocolAt(input: string, tokens: seq<Token>, oracle: SchemeOracle, c: Config)
    requires IsTokenList(tokens, |input|)
  {
    if c.state == INIT || c.state == PROTOCOL then
      && !c.special
      && (if IsNonSpecialPatternChar(tokens, c.index, ':') then ProtocolColon(tokens) == Some(c.index) && c.depth == 0
          else FirstColon(tokens, c.index + 1, c.depth) == ProtocolColon(tokens))
      && (c.state == PROTOCOL ==> ProtocolColon(tokens).Some?)
    else HasProtocol(input, tokens, oracle, c.special, c.spans)
  }

  lemma MoreSpans(input: string, tokens: seq<Token>, oracle: SchemeOracle, special: bool, spans: seq<Span>,
                  more: seq<Span>)
    requires IsTokenList(tokens, |input|) && HasProtocol(input, tokens, oracle, special, spans)
    requires forall k | 0 <= k < |more| :: more[k].state != PROTOCOL
    ensures HasProtocol(input, tokens, oracle, special, spans + more)
  {
    hide IsTokenList, ProtocolAnswer, FirstColon;
  }

  lemma AtTokenKeepsProtocol(input: string, tokens: seq<Token>, oracle: SchemeOracle, c: Config)
    requires IsTokenList(tokens, |input|) && InRange(tokens, c) && c.index < |tokens| - 1
    requires Chained(tokens, c) && KnowsProtocolAt(input, tokens, oracle, c)
    ensures match AtToken(input, tokens, oracle, c)
      case None => RejectsProtocol(input, tokens, oracle)
      case Some(next) => KnowsProtocol(input, tokens, oracle, next)
  {
    InitialAuthority(tokens, c);
    MoveGoesForward(tokens, |input|, c.state, c.index, c.brackets, c.special);
    if c.state != INIT && c.state != PROTOCOL {
      MoreSpans(input, tokens, oracle, c.special, c.spans,
        if HasComponent(c.state) then [Span(c.state, c.start, c.index)] else []);
      hide MoveAt;
    }
    hide IsTokenList, IsChain, Source, IsNonSpecialPatternChar, IsSearchPrefix, NextIsAuthoritySlashes, MoveBehindHost,
      BracketAt, FirstColon;
  }

  lemma AtEndKeepsProtocol(input: string, tokens: seq<Token>, oracle: SchemeOracle, c: Config)
    requires IsTokenList(tokens, |input|) && InRange(tokens, c) && c.index == |tokens| - 1 && c.state != DONE
    requires Chained(tokens, c) && KnowsProtocol(input, tokens, oracle, c)
    ensures KnowsProtocol(input, tokens, oracle, AtEnd(tokens, c))
  {
    InitialAuthority(tokens, c);
    if c.state != INIT && c.state != PROTOCOL {
      MoreSpans(input, tokens, oracle, c.special, c.spans,
        if HasComponent(c.state) then [Span(c.state, c.start, c.index)] else []);
    }
    assert FirstColon(tokens, c.index, c.depth) == None;
    hide IsTokenList, IsChain, Source, IsNonSpecialPatternChar, IsSearchPrefix, FirstColon;
  }

  lemma RoundKeepsProtocol(input: string, tokens: seq<Token>, oracle: SchemeOracle, c: Config)
    requires IsTokenList(tokens, |input|) && InRange(tokens, c) && c.index < |tokens| && c.state != DONE
    requires Chained(tokens, c) && KnowsProtocol(input, tokens, oracle, c)
    ensures match Round(input, tokens, oracle, c)
      case None => RejectsProtocol(input, tokens, oracle)
      case Some(next) => KnowsProtocol(input, tokens, oracle, next)
  {
    hide AtToken, AtEnd, IsTokenList, IsChain, HasProtocol, RejectsProtocol;
    TheEnd(tokens, |input|, c.index);
    if tokens[c.index].kind == END {
      AtEndKeepsProtocol(input, tokens, oracle, c);
    } else {
      var d := if tokens[c.index].kind == OPEN then c.(depth := c.depth + 1, index := c.index + 1) else c;
      TheEnd(tokens, |input|, d.index);
      if d.depth == 0 {
        AtTokenKeepsProtocol(input, tokens, oracle, d);
      } else if tokens[d.index].kind == CLOSE {
        AtTokenKeepsProtocol(input, tokens, oracle, d.(depth := d.depth - 1));
      }
    }
  }

  // Braces that are open at the end.

  /** The number of opening braces directly before token `i`. */
  function OpensBefore(tokens: seq<Token>, i: nat): (n: nat)
    requires i <= |tokens|
    ensures n <= i
    ensures forall k | i - n <= k < i :: tokens[k].kind == OPEN
    ensures n < i ==> tokens[i - n - 1].kind != OPEN
  {
    if i == 0 || tokens[i - 1].kind != OPEN then 0 else 1 + OpensBefore(tokens, i - 1)
  }

  /** The number of opening braces directly before the end. */
  function OpenRun(tokens: seq<Token>): nat
    requires |tokens| > 0
  {
    OpensBefore(tokens, |tokens| - 1)
  }

  /** Within the braces at the end, rounds come to every other token only. */
  predicate IsAligned(tokens: seq<Token>, i: nat)
    requires |tokens| > 0
  {
    var brace := |tokens| - 1 - OpenRun(tokens);
    i <= brace || (i - brace) % 2 == 0
  }

  predicate Aligned(tokens: seq<Token>, c: Config)
    requires |tokens| > 0
  {
    && (c.state == DONE ==> OpenRun(tokens) % 2 == 0)
    && (c.state != DONE ==> c.start <= |tokens| - 1 - OpenRun(tokens) && IsAligned(tokens, c.index))
  }

  lemma MovedKeepsAligned(tokens: seq<Token>, inputLength: nat, c: Config)
    requires IsTokenList(tokens, inputLength) && InRange(tokens, c) && c.index < |tokens| - 1 && c.state != DONE
    requires c.start <= |tokens| - 1 - OpenRun(tokens) && tokens[c.index].kind != OPEN
    ensures Aligned(tokens, Moved(tokens, c))
  {
    hide MoveAt, IsTokenList, OpensBefore;
    MoveGoesForward(tokens, inputLength, c.state, c.index, c.brackets, c.special);
    var brace := |tokens| - 1 - OpenRun(tokens);
    assert c.index < brace;
    assert OpenRun(tokens) > 0 ==> tokens[brace].kind == OPEN;
  }

  lemma AtTokenKeepsAligned(input: string, tokens: seq<Token>, oracle: SchemeOracle, c: Config)
    requires IsTokenList(tokens, |input|) && InRange(tokens, c) && c.index < |tokens| - 1 && c.state != DONE
    requires c.start <= |tokens| - 1 - OpenRun(tokens)
    requires tokens[c.index].kind != OPEN
    ensures var next := AtToken(input, tokens, oracle, c);
      next.Some? ==> Aligned(tokens, next.value)
  {
    hide IsTokenList, Moved, Aligned, OpenRun;
    MovedKeepsAligned(tokens, |input|, c);
    MovedKeepsAligned(tokens, |input|, c.(special := true));
    MovedKeepsAligned(tokens, |input|, c.(special := false));
  }

  lemma AtEndKeepsAligned(tokens: seq<Token>, inputLength: nat, c: Config)
    requires IsTokenList(tokens, inputLength) && InRange(tokens, c) && c.index == |tokens| - 1 && c.state != DONE
    requires Chained(tokens, c) && Aligned(tokens, c)
    ensures Aligned(tokens, AtEnd(tokens, c))
  {
    hide OpensBefore;
    InitialAuthority(tokens, c);
    if c.state == INIT && |tokens| - 1 - OpenRun(tokens) == 0 && OpenRun(tokens) > 0 {
      assert tokens[0].kind == OPEN && IsSpelledWell(tokens[0]);
    }
  }

  lemma RoundKeepsAligned(input: string, tokens: seq<Token>, oracle: SchemeOracle, c: Config)
    requires IsTokenList(tokens, |input|) && InRange(tokens, c) && c.index < |tokens| && c.state != DONE
    requires Chained(tokens, c) && Aligned(tokens, c)
    ensures var next := Round(input, tokens, oracle, c); next.Some? ==> Aligned(tokens, next.value)
  {
    hide AtToken, AtEnd, IsTokenList, IsChain, OpensBefore;
    TheEnd(tokens, |input|, c.index);
    var brace := |tokens| - 1 - OpenRun(tokens);
    if tokens[c.index].kind == END {
      AtEndKeepsAligned(tokens, |input|, c);
    } else if tokens[c.index].kind == OPEN {
      var d := c.(depth := c.depth + 1, index := c.index + 1);
      TheEnd(tokens, |input|, d.index);
      if tokens[d.index].kind == CLOSE {
        AtTokenKeepsAligned(input, tokens, oracle, d.(depth := d.depth - 1));
      } else if c.index < brace {
        assert c.index != brace - 1;
      }
    } else {
      assert c.index < brace;
      AtTokenKeepsAligned(input, tokens, oracle, c);
      if c.depth > 0 {
        AtTokenKeepsAligned(input, tokens, oracle, c.(depth := c.depth - 1));
      }
    }
  }

  /** How a run ends. */
  predicate EndsWell(input: string, tokens: seq<Token>, oracle: SchemeOracle, c: Config)
    requires IsTokenList(tokens, |input|)
  {
    && InRange(tokens, c) && Chained(tokens, c) && HasProtocol(input, tokens, oracle, c.special, c.spans)
    && (c.state == DONE <==> OpenRun(tokens) % 2 == 0)
  }

  lemma {:induction false} RunFrom(input: string, tokens: seq<Token>, oracle: SchemeOracle, c: Config)
    requires IsTokenList(tokens, |input|) && InRange(tokens, c)
    requires Chained(tokens, c) && KnowsProtocol(input, tokens, oracle, c) && Aligned(tokens, c)
    ensures match Run(input, tokens, oracle, c)
      case None => RejectsProtocol(input, tokens, oracle)
      case Some(end) => EndsWell(input, tokens, oracle, end)
    decreases Rank(DONE) - Rank(c.state), |tokens| - c.index
  {
    hide Round, Run, IsTokenList, Chained, KnowsProtocol, Aligned, RejectsProtocol, EndsWell;
    if c.state == DONE || c.index == |tokens| {
      RunStops(input, tokens, oracle, c);
      StoppedWell(input, tokens, oracle, c);
    } else {
      var next := Round(input, tokens, oracle, c);
      RunGoesOn(input, tokens, oracle, c);
      RoundKeepsProtocol(input, tokens, oracle, c);
      if next.Some? {
        RoundGoesForward(input, tokens, oracle, c);
        RoundKeepsChain(input, tokens, oracle, c);
        RoundKeepsAligned(input, tokens, oracle, c);
        RunFrom(input, tokens, oracle, next.value);
      }
    }
  }

  lemma StoppedWell(input: string, tokens: seq<Token>, oracle: SchemeOracle, c: Config)
    requires IsTokenList(tokens, |input|) && InRange(tokens, c) && (c.state == DONE || c.index == |tokens|)
    requires Chained(tokens, c) && KnowsProtocol(input, tokens, oracle, c) && Aligned(tokens, c)
    ensures EndsWell(input, tokens, oracle, c)
  {
    hide OpensBefore;
    InitialAuthority(tokens, c);
  }

  lemma RunGoesOn(input: string, tokens: seq<Token>, oracle: SchemeOracle, c: Config)
    requires IsTokenList(tokens, |input|) && InRange(tokens, c) && c.state != DONE && c.index < |tokens|
    ensures var next := Round(input, tokens, oracle, c);
      && (next.Some? ==> GoesForward(tokens, c, next.value))
      && Run(input, tokens, oracle, c) == if next.None? then None else Run(input, tokens, oracle, next.value)
  {
    hide Round, IsTokenList;
    if Round(input, tokens, oracle, c).Some? {
      RoundGoesForward(input, tokens, oracle, c);
    }
  }

  lemma RunStops(input: string, tokens: seq<Token>, oracle: SchemeOracle, c: Config)
    requires IsTokenList(tokens, |input|) && InRange(tokens, c) && (c.state == DONE || c.index == |tokens|)
    ensures Run(input, tokens, oracle, c) == Some(c)
  {
  }

  /** Every run accounts for the tokens in a chain of components, the first of which ends at the first colon
      outside of groups if there is one. It gets to the end exactly when an even number of opening braces stand
      before it, and it fails exactly when the oracle rejects the protocol. */
  lemma RunsAccountForTokens(input: string, tokens: seq<Token>, oracle: SchemeOracle)
    requires IsTokenList(tokens, |input|)
    ensures Run(input, tokens, oracle, START).None? <==> RejectsProtocol(input, tokens, oracle)
    ensures var end := Run(input, tokens, oracle, START);
      end.Some? ==> EndsWell(input, tokens, oracle, end.value)
  {
    RunFrom(input, tokens, oracle, START);
  }

  // What is recorded of a run.

  type PatternInit = map<State, string>

  predicate SpansInRange(tokens: seq<Token>, spans: seq<Span>) {
    forall k | 0 <= k < |spans| :: spans[k].first <= spans[k].last < |tokens|
  }

  /** The components that were found. */
  function Found(input: string, tokens: seq<Token>, spans: seq<Span>): PatternInit
    requires IsTokenList(tokens, |input|) && SpansInRange(tokens, spans)
  {
    if spans == [] then map[]
    else
      var last := spans[|spans| - 1];
      Found(input, tokens, spans[..|spans| - 1])[last.state := Source(input, tokens, last)]
  }

  /** The last state with a component that was reached. */
  function Reached(s: State, spans: seq<Span>): State {
    if s == DONE && spans != [] then spans[|spans| - 1].state else s
  }

  /** With the defaults of the components that were skipped on the way to a state: behind a protocol an empty
      host, and for special schemes the path of one slash; behind a path an empty query. */
  function Filled(found: PatternInit, reached: State, special: bool): PatternInit {
    var host :=
      if PROTOCOL in found && Rank(reached) >= Rank(PATHNAME) && HOSTNAME !in found
      then found[HOSTNAME := ""] else found;
    var path :=
      if PROTOCOL in found && Rank(reached) >= Rank(SEARCH) && PATHNAME !in found
      then host[PATHNAME := if special then "/" else ""] else host;
    if (PROTOCOL in found || PATHNAME in found) && Rank(reached) >= Rank(HASH) && SEARCH !in found
    then path[SEARCH := ""] else path
  }

  /** A host comes with a port. */
  function WithPort(r: PatternInit): PatternInit {
    if HOSTNAME in r && PORT !in r then r[PORT := ""] else r
  }

  function Result(input: string, tokens: seq<Token>, c: Config): PatternInit
    requires IsTokenList(tokens, |input|) && SpansInRange(tokens, c.spans)
  {
    WithPort(Filled(Found(input, tokens, c.spans), Reached(c.state, c.spans), c.special))
  }

  /** Every span is recorded, as the part of the input between its delimiters, and nothing else is. */
  ghost predicate Records(found: PatternInit, input: string, tokens: seq<Token>, spans: seq<Span>)
    requires IsTokenList(tokens, |input|) && SpansInRange(tokens, spans)
  {
    && (forall k | 0 <= k < |spans| ::
          spans[k].state in found && found[spans[k].state] == Source(input, tokens, spans[k]))
    && (forall t | t in found :: exists k :: 0 <= k < |spans| && spans[k].state == t)
  }

  lemma SpanInRange(tokens: seq<Token>, spans: seq<Span>, last: Span)
    requires SpansInRange(tokens, spans) && last.first <= last.last < |tokens|
    ensures forall k | 0 <= k < |spans + [last]| ::
      var span := (spans + [last])[k];
      span == (if k < |spans| then spans[k] else last) && span.first <= span.last < |tokens|
  {
  }

  lemma RecordsExtended(found: PatternInit, input: string, tokens: seq<Token>, spans: seq<Span>, last: Span)
    requires IsTokenList(tokens, |input|) && SpansInRange(tokens, spans + [last]) && SpansInRange(tokens, spans)
    requires Records(found, input, tokens, spans) && last.first <= last.last < |tokens|
    requires forall k | 0 <= k < |spans| :: spans[k].state != last.state
    ensures Records(found[last.state := Source(input, tokens, last)], input, tokens, spans + [last])
  {
    SpanInRange(tokens, spans, last);
    hide IsTokenList, Source, SpansInRange;
    var more, after := spans + [last], found[last.state := Source(input, tokens, last)];
    forall k | 0 <= k < |more|
      ensures more[k].first <= more[k].last < |tokens|
      ensures more[k].state in after && after[more[k].state] == Source(input, tokens, more[k])
    {
      if k < |spans| {
        assert more[k] == spans[k];
      } else {
        assert more[k] == last;
      }
    }
    forall t | t in after
      ensures exists k :: 0 <= k < |more| && more[k].state == t
    {
      if t == last.state {
        assert more[|spans|].state == t;
      } else {
        var k :| 0 <= k < |spans| && spans[k].state == t;
        assert more[k].state == t;
      }
    }
  }

  lemma {:induction false} FoundAreSpans(input: string, tokens: seq<Token>, spans: seq<Span>, s: State, first: nat)
    requires IsTokenList(tokens, |input|) && SpansInRange(tokens, spans) && IsChain(tokens, spans, s, first)
    ensures Records(Found(input, tokens, spans), input, tokens, spans)
  {
    hide IsTokenList, Source, Follows, Begins, IsSpan;
    if spans != [] {
      var rest, last := spans[..|spans| - 1], spans[|spans| - 1];
      FoundAreSpans(input, tokens, rest, last.state, last.first);
      forall k | 0 <= k < |rest|
        ensures rest[k].state != last.state
      {
        ChainIsOrdered(tokens, rest, last.state, last.first, k);
      }
      assert spans == rest + [last];
      hide IsChain;
      RecordsExtended(Found(input, tokens, rest), input, tokens, rest, last);
    }
  }

  /** What must have been found before a state is reached. */
  predicate HasPrior(found: PatternInit, s: State) {
    && (forall t | t in found :: Rank(t) < Rank(s))
    && (Rank(AUTHORITY) <= Rank(s) <= Rank(PORT) ==> PROTOCOL in found)
    && (s == PORT ==> HOSTNAME in found)
  }

  lemma {:induction false} ChainHasPrior(input: string, tokens: seq<Token>, spans: seq<Span>, s: State, first: nat)
    requires IsTokenList(tokens, |input|) && SpansInRange(tokens, spans) && IsChain(tokens, spans, s, first)
    ensures HasPrior(Found(input, tokens, spans), s)
  {
    hide IsTokenList, Source;
    if spans != [] {
      var rest, last := spans[..|spans| - 1], spans[|spans| - 1];
      ChainHasPrior(input, tokens, rest, last.state, last.first);
      FollowsOnward(tokens, last.state, last.last, s, first);
      if Rank(AUTHORITY) <= Rank(s) <= Rank(PORT) {
        HostFollowsProtocol(tokens, last, s, first);
      }
      assert Found(input, tokens, spans) == Found(input, tokens, rest)[last.state := Source(input, tokens, last)];
      hide Found, IsChain, Follows, IsSpan;
    }
  }

  lemma HostFollowsProtocol(tokens: seq<Token>, last: Span, s: State, first: nat)
    requires IsSpan(tokens, last) && Follows(tokens, last.state, last.last, s, first)
    requires Rank(AUTHORITY) <= Rank(s) <= Rank(PORT)
    ensures Rank(last.state) <= Rank(HOSTNAME) && (s == PORT ==> last.state == HOSTNAME)
    ensures last.state != PROTOCOL ==> Rank(AUTHORITY) <= Rank(last.state)
  {
  }

  lemma FilledRecorded(found: PatternInit, s: State, value: string, special: bool)
    requires HasComponent(s) && HasPrior(found, s)
    ensures Filled(found, s, special)[s := value] == Filled(found[s := value], s, special)
  {
  }

  // A run that loses a component.

  predicate IsOtherText(t: Token) {
    t.kind == CHAR && t.value != "" && t.value[0] != ':'
  }

  lemma {:induction false} PassesOver(input: string, tokens: seq<Token>, oracle: SchemeOracle, c: Config, to: nat)
    requires IsTokenList(tokens, |input|) && InRange(tokens, c) && c.depth == 0
    requires c.state == INIT || c.state == PROTOCOL
    requires c.index <= to < |tokens| && forall k | c.index <= k < to :: IsOtherText(tokens[k])
    ensures Run(input, tokens, oracle, c) == Run(input, tokens, oracle, c.(index := to))
    decreases |tokens| - c.index
  {
    hide Run, IsTokenList;
    if c.index < to {
      assert IsOtherText(tokens[c.index]);
      RunGoesOn(input, tokens, oracle, c);
      PassesOver(input, tokens, oracle, c.(index := c.index + 1), to);
    }
  }

  predicate IsChar(t: Token, text: string) {
    t.kind == CHAR && t.value == text
  }

  lemma EntersProtocol(input: string, tokens: seq<Token>, oracle: SchemeOracle, n: nat)
    requires IsTokenList(tokens, |input|) && n < |tokens| - 1 && IsChar(tokens[n], ":")
    ensures Round(input, tokens, oracle, START.(index := n)) == Some(START.(state := PROTOCOL))
  {
    hide IsTokenList;
    assert START.spans + [] == START.spans;
  }

  lemma LeavesProtocol(input: string, tokens: seq<Token>, oracle: SchemeOracle, n: nat)
    requires IsTokenList(tokens, |input|) && n + 3 < |tokens|
    requires IsChar(tokens[n], ":") && IsChar(tokens[n + 1], "/") && IsChar(tokens[n + 2], "/")
    requires oracle(Source(input, tokens, Span(PROTOCOL, 0, n))).Some?
    ensures Round(input, tokens, oracle, START.(state := PROTOCOL, index := n)) ==
      Some(Config(AUTHORITY, n + 3, n + 3, 0, 0, oracle(Source(input, tokens, Span(PROTOCOL, 0, n))).value,
                  [Span(PROTOCOL, 0, n)]))
  {
    hide IsTokenList, Source;
    assert [] + [Span(PROTOCOL, 0, n)] == [Span(PROTOCOL, 0, n)];
  }

  lemma PassesBrace(input: string, tokens: seq<Token>, oracle: SchemeOracle, c: Config)
    requires IsTokenList(tokens, |input|) && InRange(tokens, c) && c.index == |tokens| - 2
    requires tokens[c.index].kind == OPEN
    ensures Round(input, tokens, oracle, c) == Some(c.(depth := c.depth + 1, index := |tokens|))
  {
    assert tokens[|tokens| - 1].kind == END;
  }

  /** The rounds up to the brace. */
  lemma RunsToBrace(input: string, tokens: seq<Token>, oracle: SchemeOracle, n: nat)
    requires IsTokenList(tokens, |input|) && n + 3 < |tokens|
    requires forall k | 0 <= k < n :: IsOtherText(tokens[k])
    requires IsChar(tokens[n], ":") && IsChar(tokens[n + 1], "/") && IsChar(tokens[n + 2], "/")
    requires oracle(Source(input, tokens, Span(PROTOCOL, 0, n))).Some?
    ensures Run(input, tokens, oracle, START) == Run(input, tokens, oracle,
      Config(AUTHORITY, n + 3, n + 3, 0, 0, oracle(Source(input, tokens, Span(PROTOCOL, 0, n))).value,
             [Span(PROTOCOL, 0, n)]))
  {
    hide Run, Round, IsTokenList, IsOtherText, Source, IsChar;
    PassesOver(input, tokens, oracle, START, n);
    EntersProtocol(input, tokens, oracle, n);
    RunGoesOn(input, tokens, oracle, START.(index := n));
    PassesOver(input, tokens, oracle, START.(state := PROTOCOL), n);
    LeavesProtocol(input, tokens, oracle, n);
    RunGoesOn(input, tokens, oracle, START.(state := PROTOCOL, index := n));
  }

  lemma OnlyProtocol(input: string, tokens: seq<Token>, c: Config, n: nat)
    requires IsTokenList(tokens, |input|) && n < |tokens| && c.state == AUTHORITY && c.spans == [Span(PROTOCOL, 0, n)]
    ensures Result(input, tokens, c) == map[PROTOCOL := Source(input, tokens, Span(PROTOCOL, 0, n))]
  {
    hide IsTokenList, Source;
    assert c.spans[..0] == [];
    assert Found(input, tokens, c.spans) == map[PROTOCOL := Source(input, tokens, Span(PROTOCOL, 0, n))];
  }

  /** A scheme, `://`, and an opening brace at the end: `https://{` for one. The run ends on the way to the
      host, and only the protocol is recorded. */
  lemma BraceLosesHost(input: string, tokens: seq<Token>, oracle: SchemeOracle, n: nat)
    requires IsTokenList(tokens, |input|) && |tokens| == n + 5
    requires forall k | 0 <= k < n :: IsOtherText(tokens[k])
    requires IsChar(tokens[n], ":") && IsChar(tokens[n + 1], "/") && IsChar(tokens[n + 2], "/")
    requires tokens[n + 3].kind == OPEN
    requires oracle(Source(input, tokens, Span(PROTOCOL, 0, n))).Some?
    ensures OpenRun(tokens) == 1
    ensures var end := Run(input, tokens, oracle, START);
      && end.Some? && end.value.state == AUTHORITY && end.value.spans == [Span(PROTOCOL, 0, n)]
      && Result(input, tokens, end.value) == map[PROTOCOL := Source(input, tokens, Span(PROTOCOL, 0, n))]
  {
    assert OpensBefore(tokens, n + 3) == 0;
    hide Run, Round, IsTokenList, IsOtherText, OpensBefore, Source, IsChar, Result;
    var c := Config(AUTHORITY, n + 3, n + 3, 0, 0, oracle(Source(input, tokens, Span(PROTOCOL, 0, n))).value,
                    [Span(PROTOCOL, 0, n)]);
    RunsToBrace(input, tokens, oracle, n);
    PassesBrace(input, tokens, oracle, c);
    RunGoesOn(input, tokens, oracle, c);
    RunStops(input, tokens, oracle, c.(depth := 1, index := |tokens|));
    OnlyProtocol(input, tokens, c.(depth := 1, index := |tokens|), n);
  }
}
