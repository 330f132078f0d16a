/** What a URL pattern says of each component: the text that is cut off, or a default. */
module ConstructorDefaults {
  import opened CppString
  import opened PatternTokens
  import opened ConstructorSteps
  import opened ConstructorRuns
  import opened ConstructorCuts

  predicate IsCut(cuts: seq<Span>, s: State) {
    exists k :: 0 <= k < |cuts| && cuts[k].state == s
  }

  /** The components that a pattern skips on the way to a later one. */
  predicate IsSkipped(cuts: seq<Span>, s: State) {
    match s
    case HOSTNAME => IsCut(cuts, PROTOCOL) && (IsCut(cuts, PATHNAME) || IsCut(cuts, SEARCH) || IsCut(cuts, HASH))
    case PATHNAME => IsCut(cuts, PROTOCOL) && (IsCut(cuts, SEARCH) || IsCut(cuts, HASH))
    case SEARCH => (IsCut(cuts, PROTOCOL) || IsCut(cuts, PATHNAME)) && IsCut(cuts, HASH)
    case _ => false
  }

  /** The port of a host that names none is one of them. */
  predicate IsDefault(cuts: seq<Span>, s: State) {
    IsSkipped(cuts, s) || (s == PORT && (IsCut(cuts, HOSTNAME) || IsSkipped(cuts, HOSTNAME)))
  }

  /** Each component that is cut off is its part of the input; those that are skipped are empty, but for the slash of
      a path behind a special scheme; and there are no others. */
  predicate AreComponents(r: PatternInit, input: string, tokens: seq<Token>, cuts: seq<Span>, special: bool)
    requires IsTokenList(tokens, |input|) && SpansInRange(tokens, cuts)
  {
    && (forall k | 0 <= k < |cuts| :: cuts[k].state in r &&
          r[cuts[k].state] == input[tokens[cuts[k].first].index..tokens[cuts[k].last].index])
    && (forall s | !IsCut(cuts, s) ::
          && (s in r <==> IsDefault(cuts, s))
          && (s in r ==> r[s] == if s == PATHNAME && special then "/" else ""))
  }

  // Each component is recorded, and where none is there is a default.

  lemma FurthestCut(cuts: seq<Span>)
    requires cuts != [] && forall k | 0 <= k < |cuts| :: HasComponent(cuts[k].state)
    requires forall k | 0 <= k < |cuts| :: Rank(cuts[k].state) <= Rank(cuts[|cuts| - 1].state)
    ensures var furthest := Rank(cuts[|cuts| - 1].state);
      && (furthest >= Rank(PATHNAME) <==> IsCut(cuts, PATHNAME) || IsCut(cuts, SEARCH) || IsCut(cuts, HASH))
      && (furthest >= Rank(SEARCH) <==> IsCut(cuts, SEARCH) || IsCut(cuts, HASH))
      && (furthest >= Rank(HASH) <==> IsCut(cuts, HASH))
  {
    assert IsCut(cuts, cuts[|cuts| - 1].state);
  }

  lemma DefaultsOf(found: PatternInit, cuts: seq<Span>, reached: State, special: bool, s: State)
    requires forall t :: t in found <==> IsCut(cuts, t)
    requires Rank(reached) >= Rank(PATHNAME) <==> IsCut(cuts, PATHNAME) || IsCut(cuts, SEARCH) || IsCut(cuts, HASH)
    requires Rank(reached) >= Rank(SEARCH) <==> IsCut(cuts, SEARCH) || IsCut(cuts, HASH)
    requires Rank(reached) >= Rank(HASH) <==> IsCut(cuts, HASH)
    ensures var r := WithPort(Filled(found, reached, special));
      && (s in found ==> s in r && r[s] == found[s])
      && (s !in found ==>
            && (s in r <==> IsDefault(cuts, s))
            && (s in r ==> r[s] == if s == PATHNAME && special then "/" else ""))
  {
    hide IsCut;
  }

  lemma SpansOfChain(input: string, tokens: seq<Token>, c: Config)
    requires IsTokenList(tokens, |input|) && Chained(tokens, c) && c.state == DONE
    ensures c.spans != [] && SpansInRange(tokens, c.spans)
    ensures Records(Found(input, tokens, c.spans), input, tokens, c.spans)
    ensures forall k | 0 <= k < |c.spans| ::
      HasComponent(c.spans[k].state) && Rank(c.spans[k].state) <= Rank(c.spans[|c.spans| - 1].state)
  {
    hide IsTokenList, Records, Found, Follows;
    var spans := c.spans;
    var last := spans[|spans| - 1];
    forall k | 0 <= k < |spans|
      ensures IsSpan(tokens, spans[k]) && Rank(spans[k].state) <= Rank(last.state)
    {
      ChainIsOrdered(tokens, spans, c.state, c.start, k);
      if k < |spans| - 1 {
        assert spans[..|spans| - 1][k] == spans[k];
        ChainIsOrdered(tokens, spans[..|spans| - 1], last.state, last.first, k);
      }
    }
    FoundAreSpans(input, tokens, spans, c.state, c.start);
  }

  lemma FoundAreCut(found: PatternInit, input: string, tokens: seq<Token>, spans: seq<Span>)
    requires IsTokenList(tokens, |input|) && SpansInRange(tokens, spans) && Records(found, input, tokens, spans)
    ensures forall s :: s in found <==> IsCut(spans, s)
    ensures forall k | 0 <= k < |spans| ::
      && IsCut(spans, spans[k].state)
      && spans[k].state in found
      && found[spans[k].state] == input[tokens[spans[k].first].index..tokens[spans[k].last].index]
  {
    hide IsTokenList;
  }

  lemma ComponentsOfSpans(input: string, tokens: seq<Token>, c: Config)
    requires IsTokenList(tokens, |input|) && SpansInRange(tokens, c.spans) && c.state == DONE && c.spans != []
    requires Records(Found(input, tokens, c.spans), input, tokens, c.spans)
    requires forall k | 0 <= k < |c.spans| ::
      HasComponent(c.spans[k].state) && Rank(c.spans[k].state) <= Rank(c.spans[|c.spans| - 1].state)
    ensures AreComponents(Result(input, tokens, c), input, tokens, c.spans, c.special)
  {
    hide IsTokenList, SpansInRange, Found, Filled, WithPort, IsDefault;
    var found, spans := Found(input, tokens, c.spans), c.spans;
    FoundAreCut(found, input, tokens, spans);
    FurthestCut(spans);
    hide IsCut;
    var r := Result(input, tokens, c);
    assert r == WithPort(Filled(found, spans[|spans| - 1].state, c.special));
    hide Result, Records, Rank, HasComponent;
    forall s
      ensures s in found ==> s in r && r[s] == found[s]
      ensures s !in found ==>
        && (s in r <==> IsDefault(spans, s))
        && (s in r ==> r[s] == if s == PATHNAME && c.special then "/" else "")
    {
      DefaultsOf(found, spans, spans[|spans| - 1].state, c.special, s);
    }
  }

  /** A run that gets to the end finds what the pattern is cut into. */
  lemma RunsGiveComponents(input: string, tokens: seq<Token>, oracle: SchemeOracle, end: Config)
    requires IsTokenList(tokens, |input|)
    requires Run(input, tokens, oracle, START) == Some(end) && end.state == DONE
    ensures var special := IsSpecialPattern(input, tokens, oracle);
      && SpansInRange(tokens, end.spans) && end.spans == Cuts(tokens, special)
      && AreComponents(Result(input, tokens, end), input, tokens, end.spans, special)
  {
    hide Run, Cuts, AreComponents, RejectsProtocol, Chained, SpansInRange, Result;
    RunsAccountForTokens(input, tokens, oracle);
    RunsMakeTheCuts(input, tokens, oracle);
    SpansOfChain(input, tokens, end);
    ComponentsOfSpans(input, tokens, end);
  }
}
