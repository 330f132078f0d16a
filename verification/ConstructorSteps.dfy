/** What `constructor_string_parser` does with a list of tokens: the rounds of its loop on values, and what
    holds of every run of them. */
module ConstructorSteps {
  import opened CppString
  import opened PatternTokens

  datatype State =
    | INIT | PROTOCOL | AUTHORITY | USERNAME | PASSWORD | HOSTNAME | PORT | PATHNAME | SEARCH | HASH | DONE

  function Rank(s: State): nat {
    match s
    case INIT => 0
    case PROTOCOL => 1
    case AUTHORITY => 2
    case USERNAME => 3
    case PASSWORD => 4
    case HOSTNAME => 5
    case PORT => 6
    case PATHNAME => 7
    case SEARCH => 8
    case HASH => 9
    case DONE => 10
  }

  /** The states that a component belongs to. */
  predicate HasComponent(s: State) {
    s != INIT && s != AUTHORITY && s != DONE
  }

  /** The states that are left by going back to the start of the component. */
  predicate Rewinds(s: State) {
    s == INIT || s == AUTHORITY
  }

  const TWO_TO_64: int := 0x1_0000_0000_0000_0000

  /** The tokens that a component was found in: it begins at `first`, and `last` is the token behind it. */
  datatype Span = Span(state: State, first: nat, last: nat)

  /** The protocol component is compiled and matched by code outside this model: `None` when compiling
      fails, otherwise whether it matches a special scheme. */
  type SchemeOracle = string -> Option<bool>

  function SafeToken(tokens: seq<Token>, index: nat): Token
    requires |tokens| > 0
  {
    if index < |tokens| then tokens[index] else tokens[|tokens| - 1]
  }

  predicate IsNonSpecialPatternChar(tokens: seq<Token>, index: nat, c: char)
    requires |tokens| > 0
  {
    var token := SafeToken(tokens, index);
    && (token.value == "" || token.value[0] == c)
    && (token.kind == CHAR || token.kind == ESCAPED_CHAR || token.kind == INVALID_CHAR)
  }

  predicate IsSearchPrefix(tokens: seq<Token>, index: nat)
    requires index < |tokens|
  {
    IsNonSpecialPatternChar(tokens, index, '?') ||
    (&& tokens[index].value == "?"
     && (index == 0 ||
         var previous := SafeToken(tokens, index - 1).kind;
         !(previous == NAME || previous == REGEXP || previous == CLOSE || previous == ASTERISK)))
  }

  predicate NextIsAuthoritySlashes(tokens: seq<Token>, index: nat)
    requires |tokens| > 0
  {
    IsNonSpecialPatternChar(tokens, index + 1, '/') && IsNonSpecialPatternChar(tokens, index + 2, '/')
  }

  /** The part of the input that a span stands for. */
  function Source(input: string, tokens: seq<Token>, span: Span): string
    requires IsTokenList(tokens, |input|) && span.first <= span.last < |tokens|
  {
    input[tokens[span.first].index..tokens[span.last].index]
  }

  // One round.

  datatype Move = Stay | Move(to: State, skip: nat)

  /** The tokens at which a state is left, the state they lead to, and where its component starts. */
  function MoveAt(tokens: seq<Token>, s: State, index: nat, brackets: nat, special: bool): Move
    requires index < |tokens|
  {
    match s
    case INIT => if IsNonSpecialPatternChar(tokens, index, ':') then Move(PROTOCOL, 0) else Stay
    case PROTOCOL =>
      if !IsNonSpecialPatternChar(tokens, index, ':') then Stay
      else if NextIsAuthoritySlashes(tokens, index) then Move(AUTHORITY, 3)
      else if special then Move(AUTHORITY, 1)
      else Move(PATHNAME, 1)
    case AUTHORITY =>
      if IsNonSpecialPatternChar(tokens, index, '@') then Move(USERNAME, 0)
      else if MoveBehindHost(tokens, index) != Stay then Move(HOSTNAME, 0)
      else Stay
    case USERNAME =>
      if IsNonSpecialPatternChar(tokens, index, ':') then Move(PASSWORD, 1)
      else if IsNonSpecialPatternChar(tokens, index, '@') then Move(HOSTNAME, 1)
      else Stay
    case PASSWORD => if IsNonSpecialPatternChar(tokens, index, '@') then Move(HOSTNAME, 1) else Stay
    case HOSTNAME =>
      if BracketAt(tokens, index) != 0 then Stay
      else if IsNonSpecialPatternChar(tokens, index, ':') && brackets == 0 then Move(PORT, 1)
      else MoveBehindHost(tokens, index)
    case PORT => MoveBehindHost(tokens, index)
    case PATHNAME =>
      if IsSearchPrefix(tokens, index) then Move(SEARCH, 1)
      else if IsNonSpecialPatternChar(tokens, index, '#') then Move(HASH, 1)
      else Stay
    case SEARCH => if IsNonSpecialPatternChar(tokens, index, '#') then Move(HASH, 1) else Stay
    case HASH => Stay
    case DONE => Stay
  }

  function MoveBehindHost(tokens: seq<Token>, index: nat): Move
    requires index < |tokens|
  {
    if IsNonSpecialPatternChar(tokens, index, '/') then Move(PATHNAME, 0)
    else if IsSearchPrefix(tokens, index) then Move(SEARCH, 1)
    else if IsNonSpecialPatternChar(tokens, index, '#') then Move(HASH, 1)
    else Stay
  }

  /** 1 for a bracket that opens an IPv6 address, -1 for one that closes it. */
  function BracketAt(tokens: seq<Token>, index: nat): int
    requires index < |tokens|
  {
    if IsNonSpecialPatternChar(tokens, index, '[') then 1
    else if IsNonSpecialPatternChar(tokens, index, ']') then -1
    else 0
  }

  /** The parser between two rounds, and what it found. */
  datatype Config = Config(
    state: State, start: nat, index: nat, depth: nat, brackets: nat, special: bool, spans: seq<Span>)

  const START := Config(INIT, 0, 0, 0, 0, false, [])

  predicate InRange(tokens: seq<Token>, c: Config) {
    c.start < |tokens| && c.start <= c.index <= |tokens|
  }

  /** Another state; the component of the old one ends here. */
  function Changed(c: Config, to: State, skip: nat): Config {
    c.(state := to, start := c.index + skip, index := c.index + skip,
       spans := c.spans + if HasComponent(c.state) then [Span(c.state, c.start, c.index)] else [])
  }

  function AtEnd(tokens: seq<Token>, c: Config): Config
    requires InRange(tokens, c)
  {
    if c.state == INIT then
      var r := c.(index := c.start);
      if IsNonSpecialPatternChar(tokens, r.index, '#') then Changed(r, HASH, 1)
      else if IsSearchPrefix(tokens, r.index) then Changed(r, SEARCH, 1)
      else Changed(r, PATHNAME, 0)
    else if c.state == AUTHORITY then Changed(c.(index := c.start), HOSTNAME, 0)
    else Changed(c, DONE, 0)
  }

  function Moved(tokens: seq<Token>, c: Config): Config
    requires InRange(tokens, c) && c.index < |tokens|
  {
    match MoveAt(tokens, c.state, c.index, c.brackets, c.special)
    case Move(to, skip) => Changed(if Rewinds(c.state) then c.(index := c.start) else c, to, skip)
    case Stay =>
      c.(index := c.index + 1,
         brackets :=
           if c.state == HOSTNAME && BracketAt(tokens, c.index) != 0
           then (c.brackets + BracketAt(tokens, c.index)) % TWO_TO_64 else c.brackets)
  }

  /** The end of a protocol is where the oracle is asked. */
  function AtToken(input: string, tokens: seq<Token>, oracle: SchemeOracle, c: Config): Option<Config>
    requires IsTokenList(tokens, |input|) && InRange(tokens, c) && c.index < |tokens|
  {
    if c.state == PROTOCOL && IsNonSpecialPatternChar(tokens, c.index, ':') then
      var matches := oracle(Source(input, tokens, Span(PROTOCOL, c.start, c.index)));
      if matches.None? then None else Some(Moved(tokens, c.(special := c.special || matches.value)))
    else Some(Moved(tokens, c))
  }

  /** Behind an opening brace the round goes on with the next token. */
  function Round(input: string, tokens: seq<Token>, oracle: SchemeOracle, c: Config): Option<Config>
    requires IsTokenList(tokens, |input|) && InRange(tokens, c) && c.index < |tokens|
  {
    if tokens[c.index].kind == END then Some(AtEnd(tokens, c))
    else
      var d := if tokens[c.index].kind == OPEN then c.(depth := c.depth + 1, index := c.index + 1) else c;
      if d.depth == 0 then AtToken(input, tokens, oracle, d)
      else if tokens[d.index].kind == CLOSE then AtToken(input, tokens, oracle, d.(depth := d.depth - 1))
      else Some(d.(index := d.index + 1))
  }

  lemma MoveGoesForward(tokens: seq<Token>, inputLength: nat, s: State, index: nat, brackets: nat, special: bool)
    requires IsTokenList(tokens, inputLength) && index < |tokens| - 1
    ensures match MoveAt(tokens, s, index, brackets, special)
      case Stay => true
      case Move(to, skip) =>
        && Rank(s) < Rank(to) < Rank(DONE) && index + skip < |tokens|
        && (Rewinds(s) ==> skip == 0)
        && tokens[index].kind != OPEN
        && (forall k | index <= k < index + skip :: tokens[k].kind != OPEN)
  {
  }

  lemma AtEndGoesForward(tokens: seq<Token>, inputLength: nat, c: Config)
    requires IsTokenList(tokens, inputLength) && InRange(tokens, c) && c.index == |tokens| - 1 && c.state != DONE
    ensures InRange(tokens, AtEnd(tokens, c)) && AtEnd(tokens, c).index < |tokens|
    ensures Rank(c.state) < Rank(AtEnd(tokens, c).state)
  {
  }

  /** A round, case by case. */
  lemma RoundByCases(input: string, tokens: seq<Token>, oracle: SchemeOracle, c: Config)
    requires IsTokenList(tokens, |input|) && InRange(tokens, c) && c.index < |tokens|
    ensures var d := if tokens[c.index].kind == OPEN then c.(depth := c.depth + 1, index := c.index + 1) else c;
      Round(input, tokens, oracle, c) ==
        if tokens[c.index].kind == END then Some(AtEnd(tokens, c))
        else if d.depth == 0 then AtToken(input, tokens, oracle, d)
        else if tokens[d.index].kind == CLOSE then AtToken(input, tokens, oracle, d.(depth := d.depth - 1))
        else Some(d.(index := d.index + 1))
  {
  }

  predicate GoesForward(tokens: seq<Token>, c: Config, next: Config) {
    && InRange(tokens, next)
    && (Rank(c.state) < Rank(next.state) || (next.state == c.state && c.index < next.index))
  }

  lemma MovedGoesForward(tokens: seq<Token>, inputLength: nat, c: Config)
    requires IsTokenList(tokens, inputLength) && InRange(tokens, c) && c.index < |tokens| - 1
    ensures GoesForward(tokens, c, Moved(tokens, c))
    ensures c.state != DONE ==> Moved(tokens, c).state != DONE
  {
    hide MoveAt, IsTokenList, BracketAt, Rank;
    MoveGoesForward(tokens, inputLength, c.state, c.index, c.brackets, c.special);
  }

  lemma AtTokenGoesForward(input: string, tokens: seq<Token>, oracle: SchemeOracle, c: Config)
    requires IsTokenList(tokens, |input|) && InRange(tokens, c) && c.index < |tokens| - 1
    ensures var next := AtToken(input, tokens, oracle, c);
      next.Some? ==> GoesForward(tokens, c, next.value) && (c.state != DONE ==> next.value.state != DONE)
  {
    hide Moved, IsTokenList, IsNonSpecialPatternChar, Rank;
    MovedGoesForward(tokens, |input|, c);
    MovedGoesForward(tokens, |input|, c.(special := true));
    MovedGoesForward(tokens, |input|, c.(special := false));
  }

  /** A round reaches a later state, or leaves a token behind. */
  lemma RoundGoesForward(input: string, tokens: seq<Token>, oracle: SchemeOracle, c: Config)
    requires IsTokenList(tokens, |input|) && InRange(tokens, c) && c.index < |tokens| && c.state != DONE
    requires Round(input, tokens, oracle, c).Some?
    ensures GoesForward(tokens, c, Round(input, tokens, oracle, c).value)
  {
    hide AtToken, AtEnd, IsTokenList, Rank;
    TheEnd(tokens, |input|, c.index);
    if tokens[c.index].kind == END {
      AtEndGoesForward(tokens, |input|, c);
    } else {
      var d := if tokens[c.index].kind == OPEN then c.(depth := c.depth + 1, index := c.index + 1) else c;
      if d.depth == 0 {
        AtTokenGoesForward(input, tokens, oracle, d);
      } else if tokens[d.index].kind == CLOSE {
        TheEnd(tokens, |input|, d.index);
        AtTokenGoesForward(input, tokens, oracle, d.(depth := d.depth - 1));
      }
    }
  }

  lemma AtTokenStaysBeforeEnd(input: string, tokens: seq<Token>, oracle: SchemeOracle, c: Config)
    requires IsTokenList(tokens, |input|) && InRange(tokens, c) && c.index < |tokens| - 1
    ensures var next := AtToken(input, tokens, oracle, c);
      next.Some? ==> next.value.index < |tokens|
  {
    hide MoveAt, IsTokenList, IsNonSpecialPatternChar, BracketAt, Rank;
    MoveGoesForward(tokens, |input|, c.state, c.index, c.brackets, c.special);
    MoveGoesForward(tokens, |input|, c.state, c.index, c.brackets, true);
    MoveGoesForward(tokens, |input|, c.state, c.index, c.brackets, false);
  }

  /** The end token is passed over only by a round that begins at an opening brace directly before it. */
  lemma EndIsPassedBehindBrace(input: string, tokens: seq<Token>, oracle: SchemeOracle, c: Config)
    requires IsTokenList(tokens, |input|) && InRange(tokens, c) && c.index < |tokens| && c.state != DONE
    requires Round(input, tokens, oracle, c).Some?
    ensures Round(input, tokens, oracle, c).value.index == |tokens|
      <==> c.index == |tokens| - 2 && tokens[c.index].kind == OPEN
  {
    hide AtToken, AtEnd, IsTokenList;
    TheEnd(tokens, |input|, c.index);
    if tokens[c.index].kind == END {
      AtEndGoesForward(tokens, |input|, c);
    } else {
      var d := if tokens[c.index].kind == OPEN then c.(depth := c.depth + 1, index := c.index + 1) else c;
      TheEnd(tokens, |input|, d.index);
      if d.depth == 0 {
        AtTokenStaysBeforeEnd(input, tokens, oracle, d);
      } else if tokens[d.index].kind == CLOSE {
        AtTokenStaysBeforeEnd(input, tokens, oracle, d.(depth := d.depth - 1));
      }
    }
  }

  lemma TheEnd(tokens: seq<Token>, inputLength: nat, index: nat)
    requires IsTokenList(tokens, inputLength) && index < |tokens|
    ensures tokens[index].kind == END <==> index == |tokens| - 1
  {
  }

  /** The whole loop: `None` when the oracle fails. It ends although it goes back to the start of a component
      now and then, because it only does so on entering a later state. */
  function Run(input: string, tokens: seq<Token>, oracle: SchemeOracle, c: Config): Option<Config>
    requires IsTokenList(tokens, |input|) && InRange(tokens, c)
    decreases Rank(DONE) - Rank(c.state), |tokens| - c.index
  {
    if c.state == DONE || c.index == |tokens| then Some(c)
    else
      var next := Round(input, tokens, oracle, c);
      if next.None? then None
      else
        RoundGoesForward(input, tokens, oracle, c);
        Run(input, tokens, oracle, next.value)
  }
}
