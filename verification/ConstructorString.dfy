/** `constructor_string_parser`: cuts a URL pattern into the patterns of its components, in place. */
module ConstructorString {
  import opened CppString
  import opened PatternTokens
  import opened ConstructorSteps
  import opened ConstructorRuns

  datatype Outcome = Continue | Finished | Failed

  datatype ParseResult = Components(components: PatternInit) | TypeError

  predicate IsTransition(from: State, to: State) {
    match from
    case INIT => to == PROTOCOL || to == PATHNAME || to == SEARCH || to == HASH
    case PROTOCOL => to == AUTHORITY || to == PATHNAME || to == DONE
    case AUTHORITY => to == USERNAME || to == HOSTNAME
    case USERNAME => to == PASSWORD || to == HOSTNAME || to == DONE
    case PASSWORD => to == HOSTNAME || to == DONE
    case HOSTNAME => to == PORT || to == PATHNAME || to == SEARCH || to == HASH || to == DONE
    case PORT => to == PATHNAME || to == SEARCH || to == HASH || to == DONE
    case PATHNAME => to == SEARCH || to == HASH || to == DONE
    case SEARCH => to == HASH || to == DONE
    case HASH => to == DONE
    case DONE => false
  }

  /** What has been found when a state is left, its own component included. */
  predicate IsReady(found: PatternInit, s: State) {
    && (HasComponent(s) ==> s in found)
    && (forall t | t in found :: Rank(t) <= Rank(s))
    && (Rank(AUTHORITY) <= Rank(s) <= Rank(PORT) ==> PROTOCOL in found)
    && (s == PORT ==> HOSTNAME in found)
  }

  class Parser {
    const input: string
    const tokenList: seq<Token>
    const matchesSpecialScheme: SchemeOracle
    var result: PatternInit
    var componentStart: nat
    var tokenIndex: nat
    var tokenIncrement: nat
    var groupDepth: nat
    var hostnameIpv6BracketDepth: nat
    var protocolMatchesASpecialSchemeFlag: bool
    var state: State
    ghost var spans: seq<Span>

    constructor (input: string, tokenList: seq<Token>, matchesSpecialScheme: SchemeOracle)
      requires IsTokenList(tokenList, |input|)
      ensures this.input == input && this.tokenList == tokenList && this.matchesSpecialScheme == matchesSpecialScheme
      ensures Valid() && Position() == START
    {
      this.input := input;
      this.tokenList := tokenList;
      this.matchesSpecialScheme := matchesSpecialScheme;
      result := map[];
      componentStart, tokenIndex, tokenIncrement := 0, 0, 1;
      groupDepth, hostnameIpv6BracketDepth := 0, 0;
      protocolMatchesASpecialSchemeFlag := false;
      state := INIT;
      spans := [];
    }

    ghost function Position(): Config
      reads this
    {
      Config(state, componentStart, tokenIndex, groupDepth, hostnameIpv6BracketDepth,
             protocolMatchesASpecialSchemeFlag, spans)
    }

    /** The position once the round has taken its step. */
    ghost function NextPosition(): Config
      reads this
    {
      Position().(index := tokenIndex + tokenIncrement)
    }

    /** The fields hold what was found and the defaults of what was skipped. */
    ghost predicate Recorded()
      reads this`result, this`spans, this`state, this`protocolMatchesASpecialSchemeFlag
    {
      && IsTokenList(tokenList, |input|) && SpansInRange(tokenList, spans)
      && result == Filled(Found(input, tokenList, spans), Reached(state, spans), protocolMatchesASpecialSchemeFlag)
    }

    ghost predicate Valid()
      reads this
    {
      Recorded() && InRange(tokenList, Position()) && Chained(tokenList, Position())
    }

    method Rewind()
      modifies this`tokenIndex, this`tokenIncrement
      ensures tokenIndex == componentStart && tokenIncrement == 0
    {
      tokenIndex := componentStart;
      tokenIncrement := 0;
    }

    method MakeComponentString() returns (component: string)
      requires IsTokenList(tokenList, |input|) && componentStart <= tokenIndex < |tokenList|
      ensures component == Source(input, tokenList, Span(state, componentStart, tokenIndex))
    {
      var endIndex := tokenList[tokenIndex].index;
      var start := SafeToken(tokenList, componentStart).index;
      component := Substr(input, start, endIndex - start);
    }

    /** Components that the pattern skips on the way to the new state get their defaults. */
    method FillSkipped(newState: State, ghost found: PatternInit)
      requires IsTransition(state, newState) && IsReady(found, state)
      requires result == Filled(found, state, protocolMatchesASpecialSchemeFlag)
      modifies this`result
      ensures result == Filled(found, if newState == DONE then state else newState, protocolMatchesASpecialSchemeFlag)
    {
      if state != INIT && newState != DONE {
        if (state == PROTOCOL || state == AUTHORITY || state == USERNAME || state == PASSWORD)
           && (newState == PORT || newState == PATHNAME || newState == SEARCH || newState == HASH)
           && HOSTNAME !in result {
          result := result[HOSTNAME := ""];
        }
      }
      if (state == PROTOCOL || state == AUTHORITY || state == USERNAME || state == PASSWORD
          || state == HOSTNAME || state == PORT)
         && (newState == SEARCH || newState == HASH) && PATHNAME !in result {
        result := result[PATHNAME := if protocolMatchesASpecialSchemeFlag then "/" else ""];
      }
      if (state == PROTOCOL || state == AUTHORITY || state == USERNAME || state == PASSWORD
          || state == HOSTNAME || state == PORT || state == PATHNAME)
         && newState == HASH && SEARCH !in result {
        result := result[SEARCH := ""];
      }
    }

    /** The component of the state that is left. */
    method RecordComponent()
      requires Recorded() && InRange(tokenList, Position()) && tokenIndex < |tokenList| && state != DONE
      requires HasPrior(Found(input, tokenList, spans), state)
      modifies this`result, this`spans
      ensures spans == old(spans) + if HasComponent(state) then [Span(state, componentStart, tokenIndex)] else []
      ensures SpansInRange(tokenList, spans) && IsReady(Found(input, tokenList, spans), state)
      ensures result == Filled(Found(input, tokenList, spans), state, protocolMatchesASpecialSchemeFlag)
    {
      hide IsTokenList, Filled, Source, Found, SpansInRange;
      ghost var found := Found(input, tokenList, spans);
      if state != INIT && state != AUTHORITY && state != DONE {
        var value := MakeComponentString();
        FilledRecorded(found, state, value, protocolMatchesASpecialSchemeFlag);
        SpanFound(input, tokenList, spans, Span(state, componentStart, tokenIndex));
        result := result[state := value];
        spans := spans + [Span(state, componentStart, tokenIndex)];
      } else {
        assert spans + [] == spans;
      }
    }

    /** Leaves a state: records its component, fills in what the pattern skipped, and starts the next
        component `skip` tokens further on. */
    method ChangeState(newState: State, skip: nat)
      requires Recorded() && InRange(tokenList, Position()) && tokenIndex + skip < |tokenList|
      requires IsTransition(state, newState) && HasPrior(Found(input, tokenList, spans), state)
      modifies this`result, this`state, this`tokenIndex, this`componentStart, this`tokenIncrement, this`spans
      ensures Recorded() && tokenIncrement == 0
      ensures Position() == Changed(old(Position()), newState, skip)
    {
      hide IsTokenList, Filled, Source, Found, SpansInRange, IsReady, HasPrior;
      RecordComponent();
      FillSkipped(newState, Found(input, tokenList, spans));
      state := newState;
      tokenIndex := tokenIndex + skip;
      componentStart := tokenIndex;
      tokenIncrement := 0;
    }

    /** The round in which the end token is reached. */
    method AtEnd()
      requires Valid() && tokenIndex == |tokenList| - 1 && state != DONE && tokenIncrement == 1
      modifies this
      ensures Recorded()
      ensures Position() == ConstructorSteps.AtEnd(tokenList, old(Position()))
    {
      hide IsTokenList, SpansInRange, Filled, Found, IsChain, HasPrior, IsSearchPrefix, IsNonSpecialPatternChar;
      AtEndGoesForward(tokenList, |input|, Position());
      ChainHasPrior(input, tokenList, spans, state, componentStart);
      if state == INIT {
        Rewind();
        if IsNonSpecialPatternChar(tokenList, tokenIndex, '#') {
          ChangeState(HASH, 1);
        } else if IsSearchPrefix(tokenList, tokenIndex) {
          ChangeState(SEARCH, 1);
        } else {
          ChangeState(PATHNAME, 0);
        }
        tokenIndex := tokenIndex + tokenIncrement;
        return;
      }
      if state == AUTHORITY {
        Rewind();
        ChangeState(HOSTNAME, 0);
        tokenIndex := tokenIndex + tokenIncrement;
        return;
      }
      ChangeState(DONE, 0);
    }

    /** The protocol ends at a colon; `//` behind it or a special scheme announce an authority. */
    method LeaveProtocol() returns (outcome: Outcome)
      requires Valid() && tokenIndex < |tokenList| - 1 && state == PROTOCOL && tokenIncrement == 1
      modifies this
      ensures outcome != Finished
      ensures match ConstructorSteps.AtToken(input, tokenList, matchesSpecialScheme, old(Position()))
        case None => outcome == Failed
        case Some(next) => outcome == Continue && Recorded() && NextPosition() == next
    {
      hide IsTokenList, SpansInRange, Filled, Found, IsChain, HasPrior, IsNonSpecialPatternChar, NextIsAuthoritySlashes;
      ChainHasPrior(input, tokenList, spans, state, componentStart);
      NothingFoundYet(tokenList, Position());
      MoveGoesForward(tokenList, |input|, state, tokenIndex, hostnameIpv6BracketDepth, true);
      MoveGoesForward(tokenList, |input|, state, tokenIndex, hostnameIpv6BracketDepth, false);
      if IsNonSpecialPatternChar(tokenList, tokenIndex, ':') {
        var protocolString := MakeComponentString();
        var matches := matchesSpecialScheme(protocolString);
        if matches.None? {
          return Failed;
        }
        if matches.value {
          protocolMatchesASpecialSchemeFlag := true;
          NothingFilled(input, tokenList);
        }
        var nextState, skip := PATHNAME, 1;
        if NextIsAuthoritySlashes(tokenList, tokenIndex) {
          nextState := AUTHORITY;
          skip := 3;
        } else if protocolMatchesASpecialSchemeFlag {
          nextState := AUTHORITY;
        }
        ChangeState(nextState, skip);
      }
      return Continue;
    }

    /** The end of a host or a port. */
    method ToPathSearchOrHash()
      requires Valid() && tokenIndex < |tokenList| - 1 && (state == HOSTNAME || state == PORT) && tokenIncrement == 1
      modifies this
      ensures Recorded()
      ensures match MoveBehindHost(tokenList, old(tokenIndex))
        case Stay => Position() == old(Position()) && tokenIncrement == 1
        case Move(to, skip) => Position() == Changed(old(Position()), to, skip) && tokenIncrement == 0
    {
      hide IsTokenList, SpansInRange, Filled, Found, IsChain, HasPrior, IsNonSpecialPatternChar, IsSearchPrefix;
      ChainHasPrior(input, tokenList, spans, state, componentStart);
      if IsNonSpecialPatternChar(tokenList, tokenIndex, '/') {
        ChangeState(PATHNAME, 0);
      } else if IsSearchPrefix(tokenList, tokenIndex) {
        ChangeState(SEARCH, 1);
      } else if IsNonSpecialPatternChar(tokenList, tokenIndex, '#') {
        ChangeState(HASH, 1);
      }
    }

    /** Before the protocol, and before the user name or the host. */
    method LeaveStart()
      requires Valid() && tokenIndex < |tokenList| - 1 && Rewinds(state) && tokenIncrement == 1
      modifies this
      ensures Recorded() && NextPosition() == Moved(tokenList, old(Position()))
    {
      hide IsTokenList, SpansInRange, Filled, Found, IsChain, HasPrior, IsNonSpecialPatternChar, IsSearchPrefix;
      ChainHasPrior(input, tokenList, spans, state, componentStart);
      if state == INIT {
        if IsNonSpecialPatternChar(tokenList, tokenIndex, ':') {
          Rewind();
          ChangeState(PROTOCOL, 0);
        }
      } else {
        if IsNonSpecialPatternChar(tokenList, tokenIndex, '@') {
          Rewind();
          ChangeState(USERNAME, 0);
        } else if IsNonSpecialPatternChar(tokenList, tokenIndex, '/') || IsSearchPrefix(tokenList, tokenIndex)
                  || IsNonSpecialPatternChar(tokenList, tokenIndex, '#') {
          Rewind();
          ChangeState(HOSTNAME, 0);
        }
      }
    }

    /** A colon within brackets belongs to an IPv6 address. */
    method LeaveHostname()
      requires Valid() && tokenIndex < |tokenList| - 1 && state == HOSTNAME && tokenIncrement == 1
      modifies this
      ensures Recorded() && NextPosition() == Moved(tokenList, old(Position()))
    {
      hide IsTokenList, SpansInRange, Filled, Found, IsChain, HasPrior, IsNonSpecialPatternChar, IsSearchPrefix;
      ChainHasPrior(input, tokenList, spans, state, componentStart);
      if IsNonSpecialPatternChar(tokenList, tokenIndex, '[') {
        hostnameIpv6BracketDepth := (hostnameIpv6BracketDepth + 1) % TWO_TO_64;
      } else if IsNonSpecialPatternChar(tokenList, tokenIndex, ']') {
        hostnameIpv6BracketDepth := (hostnameIpv6BracketDepth - 1) % TWO_TO_64;
      } else if IsNonSpecialPatternChar(tokenList, tokenIndex, ':') && hostnameIpv6BracketDepth == 0 {
        ChangeState(PORT, 1);
      } else {
        ToPathSearchOrHash();
      }
    }

    /** The steps of each state at a token that is neither skipped nor the end. */
    method AtToken() returns (outcome: Outcome)
      requires Valid() && tokenIndex < |tokenList| - 1 && state != DONE && tokenIncrement == 1
      modifies this
      ensures outcome != Finished
      ensures match ConstructorSteps.AtToken(input, tokenList, matchesSpecialScheme, old(Position()))
        case None => outcome == Failed
        case Some(next) => outcome == Continue && Recorded() && NextPosition() == next
    {
      hide IsTokenList, SpansInRange, Filled, Found, IsChain, HasPrior, IsNonSpecialPatternChar, IsSearchPrefix;
      if state == PROTOCOL {
        outcome := LeaveProtocol();
        return;
      }
      ChainHasPrior(input, tokenList, spans, state, componentStart);
      match state {
        case INIT =>
          LeaveStart();
        case AUTHORITY =>
          LeaveStart();
        case USERNAME =>
          if IsNonSpecialPatternChar(tokenList, tokenIndex, ':') {
            ChangeState(PASSWORD, 1);
          } else if IsNonSpecialPatternChar(tokenList, tokenIndex, '@') {
            ChangeState(HOSTNAME, 1);
          }
        case PASSWORD =>
          if IsNonSpecialPatternChar(tokenList, tokenIndex, '@') {
            ChangeState(HOSTNAME, 1);
          }
        case HOSTNAME =>
          LeaveHostname();
        case PORT =>
          ToPathSearchOrHash();
        case PATHNAME =>
          if IsSearchPrefix(tokenList, tokenIndex) {
            ChangeState(SEARCH, 1);
          } else if IsNonSpecialPatternChar(tokenList, tokenIndex, '#') {
            ChangeState(HASH, 1);
          }
        case SEARCH =>
          if IsNonSpecialPatternChar(tokenList, tokenIndex, '#') {
            ChangeState(HASH, 1);
          }
        case HASH =>
        case _ =>
      }
      return Continue;
    }

    /** One round of the loop. Behind an opening brace it goes on with the next token. */
    method Round() returns (outcome: Outcome)
      requires Valid() && tokenIndex < |tokenList| && state != DONE
      modifies this
      ensures match ConstructorSteps.Round(input, tokenList, matchesSpecialScheme, old(Position()))
        case None => outcome == Failed
        case Some(next) =>
          Recorded() && Position() == next && outcome == if state == DONE then Finished else Continue
    {
      hide IsTokenList, SpansInRange, Filled, Found, IsChain, Source, ConstructorSteps.AtToken, ConstructorSteps.AtEnd;
      hide ConstructorSteps.Round;
      RoundByCases(input, tokenList, matchesSpecialScheme, Position());
      TheEnd(tokenList, |input|, tokenIndex);
      tokenIncrement := 1;
      if tokenList[tokenIndex].kind == END {
        AtEnd();
        return if state == DONE then Finished else Continue;
      }
      if tokenList[tokenIndex].kind == OPEN {
        groupDepth := groupDepth + 1;
        tokenIndex := tokenIndex + tokenIncrement;
      }
      TheEnd(tokenList, |input|, tokenIndex);
      if groupDepth > 0 {
        if tokenList[tokenIndex].kind == CLOSE {
          groupDepth := groupDepth - 1;
        } else {
          tokenIndex := tokenIndex + tokenIncrement;
          return Continue;
        }
      }
      AtTokenGoesForward(input, tokenList, matchesSpecialScheme, Position());
      outcome := AtToken();
      if outcome == Continue {
        tokenIndex := tokenIndex + tokenIncrement;
      }
    }
  }

  /** `constructor_string_parser::parse` after tokenizing: the loop follows the rounds. */
  method Parse(input: string, tokens: seq<Token>, matchesSpecialScheme: SchemeOracle) returns (result: ParseResult)
    requires IsTokenList(tokens, |input|)
    ensures match Run(input, tokens, matchesSpecialScheme, START)
      case None => result == TypeError
      case Some(end) =>
        SpansInRange(tokens, end.spans) && result == Components(Result(input, tokens, end))
    ensures result == TypeError <==> RejectsProtocol(input, tokens, matchesSpecialScheme)
  {
    hide IsTokenList, SpansInRange, Filled, Found, Chained, Run, Round, RejectsProtocol;
    RunsAccountForTokens(input, tokens, matchesSpecialScheme);
    var parser := new Parser(input, tokens, matchesSpecialScheme);
    while parser.tokenIndex < |tokens|
      invariant fresh(parser) && parser.input == input && parser.tokenList == tokens
      invariant parser.matchesSpecialScheme == matchesSpecialScheme
      invariant parser.Valid() && parser.state != DONE
      invariant Run(input, tokens, matchesSpecialScheme, parser.Position()) ==
        Run(input, tokens, matchesSpecialScheme, START)
      decreases Rank(DONE) - Rank(parser.state), |tokens| - parser.tokenIndex
    {
      RunGoesOn(input, tokens, matchesSpecialScheme, parser.Position());
      RoundKeepsChain(input, tokens, matchesSpecialScheme, parser.Position());
      var outcome := parser.Round();
      if outcome == Failed {
        return TypeError;
      }
      if outcome == Finished {
        break;
      }
    }
    RunStops(input, tokens, matchesSpecialScheme, parser.Position());
    var components := parser.result;
    if HOSTNAME in components && PORT !in components {
      components := components[PORT := ""];
    }
    result := Components(components);
  }

  lemma SpanFound(input: string, tokens: seq<Token>, spans: seq<Span>, last: Span)
    requires IsTokenList(tokens, |input|) && SpansInRange(tokens, spans) && last.first <= last.last < |tokens|
    ensures SpansInRange(tokens, spans + [last])
    ensures Found(input, tokens, spans + [last]) ==
      Found(input, tokens, spans)[last.state := Source(input, tokens, last)]
  {
    assert (spans + [last])[..|spans|] == spans;
  }

  lemma NothingFoundYet(tokens: seq<Token>, c: Config)
    requires |tokens| > 0 && Chained(tokens, c) && c.state == PROTOCOL
    ensures c.spans == []
  {
  }

  lemma NothingFilled(input: string, tokens: seq<Token>)
    requires IsTokenList(tokens, |input|)
    ensures SpansInRange(tokens, [])
    ensures Filled(Found(input, tokens, []), PROTOCOL, true) == Filled(Found(input, tokens, []), PROTOCOL, false)
  {
  }
}
