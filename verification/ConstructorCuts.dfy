/** A URL pattern cut component by component, at the first delimiter of each, on kinds and values of tokens alone:
    what every run of `constructor_string_parser` finds. */
module ConstructorCuts {
  import opened CppString
  import opened PatternTokens
  import opened ConstructorSteps
  import opened ConstructorRuns

  // Delimiters.

  predicate IsCharOf(t: Token, c: char) {
    (t.kind == CHAR || t.kind == ESCAPED_CHAR || t.kind == INVALID_CHAR) && (t.value == "" || t.value[0] == c)
  }

  /** A question mark that is no modifier of a group before it. */
  predicate IsQuery(tokens: seq<Token>, i: nat)
    requires i < |tokens|
  {
    || IsCharOf(tokens[i], '?')
    || (tokens[i].value == "?" &&
        (i == 0 || (tokens[i - 1].kind != NAME && tokens[i - 1].kind != REGEXP && tokens[i - 1].kind != CLOSE
                    && tokens[i - 1].kind != ASTERISK)))
  }

  predicate EndsAuthority(tokens: seq<Token>, i: nat)
    requires i < |tokens|
  {
    IsCharOf(tokens[i], '/') || IsQuery(tokens, i) || IsCharOf(tokens[i], '#')
  }

  predicate IsBracket(t: Token) {
    IsCharOf(t, '[') || IsCharOf(t, ']')
  }

  /** What a component ends at. A colon within brackets belongs to the host. */
  predicate Delimits(tokens: seq<Token>, s: State, i: nat, brackets: nat)
    requires i < |tokens|
  {
    match s
    case INIT => IsCharOf(tokens[i], ':')
    case PROTOCOL => IsCharOf(tokens[i], ':')
    case AUTHORITY => IsCharOf(tokens[i], '@') || EndsAuthority(tokens, i)
    case USERNAME => IsCharOf(tokens[i], ':') || IsCharOf(tokens[i], '@')
    case PASSWORD => IsCharOf(tokens[i], '@')
    case HOSTNAME =>
      !IsBracket(tokens[i]) && ((IsCharOf(tokens[i], ':') && brackets == 0) || EndsAuthority(tokens, i))
    case PORT => EndsAuthority(tokens, i)
    case PATHNAME => IsQuery(tokens, i) || IsCharOf(tokens[i], '#')
    case SEARCH => IsCharOf(tokens[i], '#')
    case HASH => false
    case DONE => false
  }

  /** How many brackets are open behind a token of a host. */
  function BracketsBehind(t: Token, brackets: nat): nat {
    if IsCharOf(t, '[') then (brackets + 1) % TWO_TO_64
    else if IsCharOf(t, ']') then (brackets - 1) % TWO_TO_64
    else brackets
  }

  /** The first delimiter from token `i` on that stands outside of groups. The token behind an opening brace is
      passed over, unless it closes the group at once. */
  function FirstDelimiter(tokens: seq<Token>, s: State, i: nat, depth: nat, brackets: nat): (d: Option<nat>)
    ensures d.Some? ==> i <= d.value < |tokens| && tokens[d.value].kind != END
    decreases |tokens| - i
  {
    if i >= |tokens| || tokens[i].kind == END then None
    else if tokens[i].kind == OPEN then
      FirstDelimiter(tokens, s, i + 2, if i + 1 < |tokens| && tokens[i + 1].kind == CLOSE then depth else depth + 1,
                     brackets)
    else if depth > 0 then
      FirstDelimiter(tokens, s, i + 1, if tokens[i].kind == CLOSE then depth - 1 else depth, brackets)
    else if Delimits(tokens, s, i, brackets) then Some(i)
    else FirstDelimiter(tokens, s, i + 1, 0, if s == HOSTNAME then BracketsBehind(tokens[i], brackets) else brackets)
  }

  /** How many groups are still open at the end. */
  function OpenAtEnd(tokens: seq<Token>, i: nat, depth: nat): nat
    decreases |tokens| - i
  {
    if i >= |tokens| || tokens[i].kind == END then depth
    else if tokens[i].kind == OPEN then
      OpenAtEnd(tokens, i + 2, if i + 1 < |tokens| && tokens[i + 1].kind == CLOSE then depth else depth + 1)
    else OpenAtEnd(tokens, i + 1, if depth > 0 && tokens[i].kind == CLOSE then depth - 1 else depth)
  }

  // Cuts.

  predicate SlashesFollow(tokens: seq<Token>, i: nat) {
    i + 2 < |tokens| && IsCharOf(tokens[i + 1], '/') && IsCharOf(tokens[i + 2], '/')
  }

  /** The component behind a host, a port or a path that ends at token `last`. */
  function BehindAuthority(tokens: seq<Token>, last: nat): (State, nat)
    requires last < |tokens|
  {
    if IsCharOf(tokens[last], '/') then (PATHNAME, last)
    else if IsQuery(tokens, last) then (SEARCH, last + 1)
    else (HASH, last + 1)
  }

  /** The component behind another one that ends at token `last`, and where it begins. */
  function Behind(tokens: seq<Token>, s: State, last: nat, special: bool): (next: (State, nat))
    requires last < |tokens|
    ensures Rank(s) < Rank(HASH) ==> Rank(s) < Rank(next.0)
    ensures next.0 != INIT && next.0 != DONE
  {
    match s
    case PROTOCOL =>
      if SlashesFollow(tokens, last) then (AUTHORITY, last + 3)
      else if special then (AUTHORITY, last + 1)
      else (PATHNAME, last + 1)
    case USERNAME => if IsCharOf(tokens[last], ':') then (PASSWORD, last + 1) else (HOSTNAME, last + 1)
    case PASSWORD => (HOSTNAME, last + 1)
    case HOSTNAME => if IsCharOf(tokens[last], ':') then (PORT, last + 1) else BehindAuthority(tokens, last)
    case PORT => BehindAuthority(tokens, last)
    case PATHNAME => if IsQuery(tokens, last) then (SEARCH, last + 1) else (HASH, last + 1)
    case _ => (HASH, last + 1)
  }

  /** A component that begins at token `first`, with its first delimiter, and all that comes behind it. */
  function CutsFrom(tokens: seq<Token>, s: State, first: nat, delimiter: Option<nat>, special: bool): seq<Span>
    requires |tokens| > 0 && (delimiter.Some? ==> delimiter.value < |tokens|)
    decreases Rank(DONE) - Rank(s), 0
  {
    match delimiter
    case None => [Span(s, first, |tokens| - 1)]
    case Some(last) =>
      [Span(s, first, last)] +
      var next := Behind(tokens, s, last, special);
      if Rank(s) >= Rank(HASH) then []
      else if next.0 == AUTHORITY then
        AuthorityCuts(tokens, next.1, FirstDelimiter(tokens, AUTHORITY, next.1, 0, 0), OpenAtEnd(tokens, next.1, 0),
                      special)
      else CutsFrom(tokens, next.0, next.1, FirstDelimiter(tokens, next.0, next.1, 0, 0), special)
  }

  /** An authority begins with a user name exactly when an `@` comes before its end. */
  function AuthorityCuts(tokens: seq<Token>, first: nat, delimiter: Option<nat>, openAtEnd: nat,
                         special: bool): seq<Span>
    requires |tokens| > 0 && (delimiter.Some? ==> delimiter.value < |tokens|)
    decreases Rank(DONE) - Rank(AUTHORITY), 0
  {
    if delimiter.Some? && IsCharOf(tokens[delimiter.value], '@') then
      CutsFrom(tokens, USERNAME, first, FirstDelimiter(tokens, USERNAME, first, 0, 0), special)
    else
      var depth := if delimiter.Some? then 0 else openAtEnd;
      CutsFrom(tokens, HOSTNAME, first, FirstDelimiter(tokens, HOSTNAME, first, depth, 0), special)
  }

  /** All components: the first is a protocol exactly when there is a colon outside of groups. */
  function AllCuts(tokens: seq<Token>, delimiter: Option<nat>, openAtEnd: nat, special: bool): seq<Span>
    requires |tokens| > 0
  {
    if delimiter.Some? then CutsFrom(tokens, PROTOCOL, 0, FirstDelimiter(tokens, PROTOCOL, 0, 0, 0), special)
    else if IsCharOf(tokens[0], '#') then
      CutsFrom(tokens, HASH, 1, FirstDelimiter(tokens, HASH, 1, openAtEnd, 0), special)
    else if IsQuery(tokens, 0) then
      CutsFrom(tokens, SEARCH, 1, FirstDelimiter(tokens, SEARCH, 1, openAtEnd, 0), special)
    else CutsFrom(tokens, PATHNAME, 0, FirstDelimiter(tokens, PATHNAME, 0, openAtEnd, 0), special)
  }

  function Cuts(tokens: seq<Token>, special: bool): seq<Span>
    requires |tokens| > 0
  {
    AllCuts(tokens, FirstDelimiter(tokens, INIT, 0, 0, 0), OpenAtEnd(tokens, 0, 0), special)
  }

  // Every run makes these cuts.

  /** What is still to be cut. */
  function Ahead(tokens: seq<Token>, c: Config, special: bool): seq<Span>
    requires |tokens| > 0
  {
    var delimiter := FirstDelimiter(tokens, c.state, c.index, c.depth, c.brackets);
    match c.state
    case INIT => AllCuts(tokens, delimiter, OpenAtEnd(tokens, c.index, c.depth), special)
    case AUTHORITY => AuthorityCuts(tokens, c.start, delimiter, OpenAtEnd(tokens, c.index, c.depth), special)
    case DONE => []
    case _ => CutsFrom(tokens, c.state, c.start, delimiter, special)
  }

  /** What was cut and what is still to be cut are all cuts. */
  predicate IsOnCourse(tokens: seq<Token>, c: Config, special: bool)
    requires |tokens| > 0
  {
    && c.spans + Ahead(tokens, c, special) == Cuts(tokens, special)
    && (Rank(c.state) < Rank(HOSTNAME) ==> c.brackets == 0)
  }

  /** The table of moves acts at delimiters, and moves to what is behind them. */
  lemma MovesAtDelimiters(tokens: seq<Token>, inputLength: nat, s: State, i: nat, brackets: nat, special: bool)
    requires IsTokenList(tokens, inputLength) && i < |tokens| - 1 && s != DONE
    ensures var move := MoveAt(tokens, s, i, brackets, special);
      && (move == Stay <==> !Delimits(tokens, s, i, brackets))
      && (s == INIT && move != Stay ==> move == Move(PROTOCOL, 0))
      && (s == AUTHORITY && move != Stay ==>
            move == Move(if IsCharOf(tokens[i], '@') then USERNAME else HOSTNAME, 0))
      && (HasComponent(s) && move != Stay ==>
            var next := Behind(tokens, s, i, special);
            move.to == next.0 && i + move.skip == next.1 && Rank(s) < Rank(HASH))
  {
  }

  lemma BracketsAreCounted(tokens: seq<Token>, i: nat, brackets: nat)
    requires i < |tokens|
    ensures BracketsBehind(tokens[i], brackets) ==
      if BracketAt(tokens, i) != 0 then (brackets + BracketAt(tokens, i)) % TWO_TO_64 else brackets
  {
  }

  lemma NothingAdded(a: seq<Span>)
    ensures a + [] == a && [] + a == a
  {
  }

  lemma Assoc(a: seq<Span>, b: seq<Span>, c: seq<Span>)
    ensures (a + b) + c == a + (b + c)
  {
  }

  /** One token further. */
  lemma DelimiterFrom(tokens: seq<Token>, s: State, i: nat, brackets: nat)
    requires i < |tokens| && tokens[i].kind != END && tokens[i].kind != OPEN
    ensures FirstDelimiter(tokens, s, i, 0, brackets) ==
      if Delimits(tokens, s, i, brackets) then Some(i)
      else FirstDelimiter(tokens, s, i + 1, 0, if s == HOSTNAME then BracketsBehind(tokens[i], brackets) else brackets)
    ensures OpenAtEnd(tokens, i, 0) == OpenAtEnd(tokens, i + 1, 0)
  {
    hide Delimits, BracketsBehind;
  }

  /** At a delimiter, the component that ends is cut off. */
  lemma CutOff(tokens: seq<Token>, c: Config, next: Config, special: bool)
    requires |tokens| > 0 && c.index < |tokens| && HasComponent(c.state) && Rank(c.state) < Rank(HASH)
    requires FirstDelimiter(tokens, c.state, c.index, c.depth, c.brackets) == Some(c.index)
    requires c.state == PROTOCOL ==> c.special == special
    requires (next.state, next.start) == Behind(tokens, c.state, c.index, c.special)
    requires next.index == next.start && next.depth == 0 && (Rank(next.state) <= Rank(HOSTNAME) ==> next.brackets == 0)
    ensures Ahead(tokens, c, special) == [Span(c.state, c.start, c.index)] + Ahead(tokens, next, special)
  {
    assert Behind(tokens, c.state, c.index, c.special) == Behind(tokens, c.state, c.index, special);
    CutsBehind(tokens, c.state, c.start, c.index, special);
    hide Behind, CutsFrom, AuthorityCuts, FirstDelimiter, OpenAtEnd, Delimits, IsCharOf, IsQuery;
    OtherBrackets(tokens, next.state, next.start, 0, next.brackets);
  }

  lemma CutsBehind(tokens: seq<Token>, s: State, first: nat, last: nat, special: bool)
    requires last < |tokens| && Rank(s) < Rank(HASH)
    ensures var next := Behind(tokens, s, last, special);
      CutsFrom(tokens, s, first, Some(last), special) == [Span(s, first, last)] +
        if next.0 == AUTHORITY then
          AuthorityCuts(tokens, next.1, FirstDelimiter(tokens, AUTHORITY, next.1, 0, 0), OpenAtEnd(tokens, next.1, 0),
                        special)
        else CutsFrom(tokens, next.0, next.1, FirstDelimiter(tokens, next.0, next.1, 0, 0), special)
  {
    hide Behind, FirstDelimiter, OpenAtEnd;
  }

  lemma SameDelimits(tokens: seq<Token>, s: State, i: nat, brackets: nat)
    requires s != HOSTNAME
    ensures i < |tokens| ==> (Delimits(tokens, s, i, brackets) <==> Delimits(tokens, s, i, 0))
  {
  }

  /** Brackets matter in a host alone. */
  lemma {:induction false} OtherBrackets(tokens: seq<Token>, s: State, i: nat, depth: nat, brackets: nat)
    ensures s != HOSTNAME || brackets == 0 ==>
      FirstDelimiter(tokens, s, i, depth, brackets) == FirstDelimiter(tokens, s, i, depth, 0)
    decreases |tokens| - i
  {
    hide IsCharOf, IsQuery, EndsAuthority, IsBracket, BracketsBehind;
    if s != HOSTNAME {
      SameDelimits(tokens, s, i, brackets);
      hide Delimits;
    }
    if s != HOSTNAME && i < |tokens| && tokens[i].kind != END {
      if tokens[i].kind == OPEN {
        OtherBrackets(tokens, s, i + 2, if i + 1 < |tokens| && tokens[i + 1].kind == CLOSE then depth else depth + 1,
                      brackets);
      } else if depth > 0 {
        OtherBrackets(tokens, s, i + 1, if tokens[i].kind == CLOSE then depth - 1 else depth, brackets);
      } else {
        OtherBrackets(tokens, s, i + 1, 0, brackets);
      }
    }
  }

  lemma StayAhead(tokens: seq<Token>, c: Config, special: bool)
    requires |tokens| > 0 && c.index < |tokens| && tokens[c.index].kind != END && tokens[c.index].kind != OPEN
    requires c.depth == 0 && !Delimits(tokens, c.state, c.index, c.brackets)
    ensures var brackets := if c.state == HOSTNAME then BracketsBehind(tokens[c.index], c.brackets) else c.brackets;
      Ahead(tokens, c.(index := c.index + 1, brackets := brackets), special) == Ahead(tokens, c, special)
  {
    DelimiterFrom(tokens, c.state, c.index, c.brackets);
    hide FirstDelimiter, OpenAtEnd, Delimits, BracketsBehind, CutsFrom, AuthorityCuts, AllCuts;
  }

  lemma InitAhead(tokens: seq<Token>, c: Config, special: bool)
    requires |tokens| > 0 && c.index < |tokens| && tokens[c.index].kind != END && tokens[c.index].kind != OPEN
    requires c.state == INIT && c.depth == 0 && c.brackets == 0 && Delimits(tokens, INIT, c.index, 0)
    ensures Ahead(tokens, c.(state := PROTOCOL, start := 0, index := 0), special) == Ahead(tokens, c, special)
  {
    DelimiterFrom(tokens, c.state, c.index, c.brackets);
    hide FirstDelimiter, OpenAtEnd, Delimits, CutsFrom, AuthorityCuts;
  }

  lemma AuthorityAhead(tokens: seq<Token>, c: Config, to: State, special: bool)
    requires |tokens| > 0 && c.index < |tokens| && tokens[c.index].kind != END && tokens[c.index].kind != OPEN
    requires c.state == AUTHORITY && c.depth == 0 && c.brackets == 0 && Delimits(tokens, AUTHORITY, c.index, 0)
    requires to == if IsCharOf(tokens[c.index], '@') then USERNAME else HOSTNAME
    ensures Ahead(tokens, c.(state := to, index := c.start), special) == Ahead(tokens, c, special)
  {
    DelimiterFrom(tokens, c.state, c.index, c.brackets);
    hide FirstDelimiter, OpenAtEnd, Delimits, CutsFrom, AllCuts, IsCharOf;
  }

  /** What the lemmas below need of a position. */
  predicate IsOutside(tokens: seq<Token>, c: Config, special: bool) {
    && c.index < |tokens| && tokens[c.index].kind != END && tokens[c.index].kind != OPEN
    && c.depth == 0 && c.state != DONE && IsOnCourse(tokens, c, special)
  }

  lemma CourseIsKept(tokens: seq<Token>, c: Config, next: Config, cut: seq<Span>, special: bool)
    requires |tokens| > 0 && IsOnCourse(tokens, c, special) && next.spans == c.spans + cut
    requires Ahead(tokens, c, special) == cut + Ahead(tokens, next, special)
    requires Rank(next.state) < Rank(HOSTNAME) ==> next.brackets == 0
    ensures IsOnCourse(tokens, next, special)
  {
    hide Ahead, Cuts, Rank;
    Assoc(c.spans, cut, Ahead(tokens, next, special));
  }

  lemma CutIsKept(tokens: seq<Token>, c: Config, next: Config, special: bool)
    requires |tokens| > 0 && IsOnCourse(tokens, c, special) && next.state == DONE
    requires next.spans == c.spans + [Span(c.state, c.start, c.index)] && Ahead(tokens, next, special) == []
    requires Ahead(tokens, c, special) == [Span(c.state, c.start, c.index)]
    ensures IsOnCourse(tokens, next, special)
  {
    var cut := [Span(c.state, c.start, c.index)];
    NothingAdded(cut);
    hide Ahead, IsOnCourse;
    CourseIsKept(tokens, c, next, cut, special);
  }

  lemma StayStaysOnCourse(tokens: seq<Token>, c: Config, special: bool)
    requires IsOutside(tokens, c, special) && !Delimits(tokens, c.state, c.index, c.brackets) && c.start <= c.index
    requires MoveAt(tokens, c.state, c.index, c.brackets, c.special) == Stay
    ensures IsOnCourse(tokens, Moved(tokens, c), special)
  {
    StayAhead(tokens, c, special);
    StayMoves(tokens, c);
    hide MoveAt, Moved, Delimits, BracketsBehind, Cuts, Ahead;
  }

  lemma StayMoves(tokens: seq<Token>, c: Config)
    requires c.index < |tokens| && c.start <= c.index
    requires MoveAt(tokens, c.state, c.index, c.brackets, c.special) == Stay
    ensures var brackets := if c.state == HOSTNAME then BracketsBehind(tokens[c.index], c.brackets) else c.brackets;
      Moved(tokens, c) == c.(index := c.index + 1, brackets := brackets)
  {
    BracketsAreCounted(tokens, c.index, c.brackets);
    hide MoveAt, BracketsBehind, BracketAt;
  }

  lemma InitStaysOnCourse(tokens: seq<Token>, c: Config, special: bool)
    requires IsOutside(tokens, c, special) && Delimits(tokens, c.state, c.index, c.brackets)
    requires c.state == INIT && c.start == 0
    requires MoveAt(tokens, INIT, c.index, c.brackets, c.special) == Move(PROTOCOL, 0)
    ensures IsOnCourse(tokens, Moved(tokens, c), special)
  {
    InitAhead(tokens, c, special);
    NothingAdded(c.spans);
    hide MoveAt, Delimits, Cuts, Ahead;
    SameAhead(tokens, c.(state := PROTOCOL, start := 0, index := 0), Moved(tokens, c), special);
  }

  lemma AuthorityStaysOnCourse(tokens: seq<Token>, c: Config, special: bool)
    requires IsOutside(tokens, c, special) && Delimits(tokens, c.state, c.index, c.brackets) && c.start <= c.index
    requires c.state == AUTHORITY
    requires MoveAt(tokens, AUTHORITY, c.index, c.brackets, c.special) ==
      Move(if IsCharOf(tokens[c.index], '@') then USERNAME else HOSTNAME, 0)
    ensures IsOnCourse(tokens, Moved(tokens, c), special)
  {
    var to := if IsCharOf(tokens[c.index], '@') then USERNAME else HOSTNAME;
    AuthorityAhead(tokens, c, to, special);
    NoBracketsYet(tokens, c, special);
    hide MoveAt, Delimits, Ahead, IsCharOf, IsOnCourse;
    var next := Moved(tokens, c);
    NothingAdded(c.spans);
    SameAhead(tokens, c.(state := to, index := c.start), next, special);
    hide Moved;
    NothingAdded(Ahead(tokens, next, special));
    CourseIsKept(tokens, c, next, [], special);
  }

  lemma ComponentStaysOnCourse(tokens: seq<Token>, c: Config, move: Move, special: bool)
    requires IsOutside(tokens, c, special) && Delimits(tokens, c.state, c.index, c.brackets) && c.start <= c.index
    requires HasComponent(c.state) && Rank(c.state) < Rank(HASH) && (c.state == PROTOCOL ==> c.special == special)
    requires MoveAt(tokens, c.state, c.index, c.brackets, c.special) == move && move != Stay
    requires (move.to, c.index + move.skip) == Behind(tokens, c.state, c.index, c.special)
    ensures IsOnCourse(tokens, Moved(tokens, c), special)
  {
    hide Delimits, Behind, Cuts, Ahead, FirstDelimiter, OpenAtEnd, IsOnCourse, MoveAt;
    DelimiterFrom(tokens, c.state, c.index, c.brackets);
    NoBracketsBefore(tokens, c.state, c.index, c.special);
    NoBracketsYet(tokens, c, special);
    var next := Moved(tokens, c);
    var cut := [Span(c.state, c.start, c.index)];
    CutOff(tokens, c, next, special);
    assert next.spans == c.spans + cut;
    hide Moved;
    CourseIsKept(tokens, c, next, cut, special);
  }

  lemma NoBracketsBefore(tokens: seq<Token>, s: State, i: nat, special: bool)
    requires i < |tokens| && HasComponent(s)
    ensures Rank(Behind(tokens, s, i, special).0) <= Rank(HOSTNAME) ==> Rank(s) < Rank(HOSTNAME)
  {
  }

  lemma MovedStaysOnCourse(tokens: seq<Token>, inputLength: nat, c: Config, special: bool)
    requires IsTokenList(tokens, inputLength) && InRange(tokens, c) && c.index < |tokens| - 1
    requires c.state == PROTOCOL && Delimits(tokens, PROTOCOL, c.index, 0) ==> c.special == special
    requires c.state == INIT ==> c.start == 0
    requires IsOutside(tokens, c, special)
    ensures IsOnCourse(tokens, Moved(tokens, c), special)
  {
    hide IsTokenList, MoveAt, Delimits, Behind, IsCharOf, IsOnCourse, Moved;
    MovesAtDelimiters(tokens, inputLength, c.state, c.index, c.brackets, c.special);
    var move := MoveAt(tokens, c.state, c.index, c.brackets, c.special);
    if move == Stay {
      StayStaysOnCourse(tokens, c, special);
    } else if c.state == INIT {
      InitStaysOnCourse(tokens, c, special);
    } else if c.state == AUTHORITY {
      AuthorityStaysOnCourse(tokens, c, special);
    } else {
      NoBracketsYet(tokens, c, special);
      ComponentStaysOnCourse(tokens, c, move, special);
    }
  }

  lemma NoBracketsYet(tokens: seq<Token>, c: Config, special: bool)
    requires |tokens| > 0 && IsOnCourse(tokens, c, special)
    ensures Rank(c.state) < Rank(HOSTNAME) ==> c.brackets == 0
  {
  }

  lemma SameAhead(tokens: seq<Token>, c: Config, d: Config, special: bool)
    requires |tokens| > 0 && d.(spans := c.spans, special := c.special) == c
    ensures Ahead(tokens, c, special) == Ahead(tokens, d, special)
  {
  }

  /** The answer of the oracle for the protocol, if there is one. */
  predicate IsSpecialPattern(input: string, tokens: seq<Token>, oracle: SchemeOracle)
    requires IsTokenList(tokens, |input|)
  {
    ProtocolColon(tokens).Some? && ProtocolAnswer(input, tokens, oracle) == Some(true)
  }

  lemma AtTokenStaysOnCourse(input: string, tokens: seq<Token>, oracle: SchemeOracle, c: Config)
    requires IsTokenList(tokens, |input|) && InRange(tokens, c) && c.index < |tokens| - 1
    requires Chained(tokens, c) && KnowsProtocolAt(input, tokens, oracle, c)
    requires IsOutside(tokens, c, IsSpecialPattern(input, tokens, oracle))
    ensures var next := AtToken(input, tokens, oracle, c);
      next.Some? ==> IsOnCourse(tokens, next.value, IsSpecialPattern(input, tokens, oracle))
  {
    InitialAuthority(tokens, c);
    AtTokenMoves(input, tokens, oracle, c);
    var special := IsSpecialPattern(input, tokens, oracle);
    SpecialDoesNotMatter(tokens, c, special);
    hide IsTokenList, AtToken, Chained, KnowsProtocolAt, IsSpecialPattern, IsCharOf, Moved, IsOutside, IsOnCourse;
    if c.state == PROTOCOL && IsCharOf(tokens[c.index], ':') {
      MovedStaysOnCourse(tokens, |input|, c.(special := special), special);
    } else {
      MovedStaysOnCourse(tokens, |input|, c, special);
    }
  }

  /** The colon of the protocol is where it becomes known whether its scheme is special. */
  lemma AtTokenMoves(input: string, tokens: seq<Token>, oracle: SchemeOracle, c: Config)
    requires IsTokenList(tokens, |input|) && InRange(tokens, c) && c.index < |tokens|
    requires Chained(tokens, c) && KnowsProtocolAt(input, tokens, oracle, c)
    ensures var next, special := AtToken(input, tokens, oracle, c), IsSpecialPattern(input, tokens, oracle);
      next.Some? ==>
        next.value == Moved(tokens,
          if c.state == PROTOCOL && IsCharOf(tokens[c.index], ':') then c.(special := special) else c)
  {
    InitialAuthority(tokens, c);
    assert IsNonSpecialPatternChar(tokens, c.index, ':') <==> IsCharOf(tokens[c.index], ':');
    hide IsTokenList, IsChain, Source, IsNonSpecialPatternChar, IsCharOf, FirstColon, Moved;
  }

  lemma SpecialDoesNotMatter(tokens: seq<Token>, c: Config, special: bool)
    requires IsOutside(tokens, c, special)
    ensures IsOutside(tokens, c.(special := special), special)
  {
  }

  /** A closing brace moves nothing. */
  lemma CloseIsPassed(input: string, tokens: seq<Token>, oracle: SchemeOracle, c: Config)
    requires IsTokenList(tokens, |input|) && InRange(tokens, c) && c.index < |tokens| && tokens[c.index].kind == CLOSE
    ensures AtToken(input, tokens, oracle, c) == Some(c.(index := c.index + 1))
  {
    assert IsSpelledWell(tokens[c.index]);
  }

  lemma AheadByScan(tokens: seq<Token>, c: Config, d: Config, special: bool)
    requires |tokens| > 0 && c.state == d.state && c.start == d.start
    requires FirstDelimiter(tokens, c.state, c.index, c.depth, c.brackets) ==
      FirstDelimiter(tokens, d.state, d.index, d.depth, d.brackets)
    requires OpenAtEnd(tokens, c.index, c.depth) == OpenAtEnd(tokens, d.index, d.depth)
    ensures Ahead(tokens, c, special) == Ahead(tokens, d, special)
  {
    hide FirstDelimiter, OpenAtEnd, CutsFrom, AuthorityCuts, AllCuts;
  }

  lemma GroupIsScanned(tokens: seq<Token>, s: State, i: nat, depth: nat, brackets: nat)
    requires i < |tokens| && tokens[i].kind != END && (tokens[i].kind == OPEN || depth > 0)
    ensures var j := if tokens[i].kind == OPEN then i + 2 else i + 1;
      var d := if tokens[i].kind == OPEN then
          (if i + 1 < |tokens| && tokens[i + 1].kind == CLOSE then depth else depth + 1)
        else if tokens[i].kind == CLOSE then depth - 1 else depth;
      && FirstDelimiter(tokens, s, i, depth, brackets) == FirstDelimiter(tokens, s, j, d, brackets)
      && OpenAtEnd(tokens, i, depth) == OpenAtEnd(tokens, j, d)
  {
    hide Delimits, BracketsBehind;
  }

  /** Tokens of a group leave ahead what is. */
  lemma GroupIsPassed(tokens: seq<Token>, c: Config, next: Config, special: bool)
    requires |tokens| > 0 && c.index < |tokens| && tokens[c.index].kind != END
    requires tokens[c.index].kind == OPEN || c.depth > 0
    requires next == if tokens[c.index].kind == OPEN
      then c.(index := c.index + 2,
              depth := if c.index + 1 < |tokens| && tokens[c.index + 1].kind == CLOSE then c.depth else c.depth + 1)
      else c.(index := c.index + 1, depth := if tokens[c.index].kind == CLOSE then c.depth - 1 else c.depth)
    requires IsOnCourse(tokens, c, special)
    ensures IsOnCourse(tokens, next, special)
  {
    hide FirstDelimiter, OpenAtEnd, Ahead, Cuts;
    GroupIsScanned(tokens, c.state, c.index, c.depth, c.brackets);
    AheadByScan(tokens, c, next, special);
  }

  lemma NothingScannedAtEnd(tokens: seq<Token>, c: Config)
    requires c.index < |tokens| && tokens[c.index].kind == END
    ensures FirstDelimiter(tokens, c.state, c.index, c.depth, c.brackets) == None
    ensures OpenAtEnd(tokens, c.index, c.depth) == c.depth
  {
  }

  lemma PrefixesAgree(tokens: seq<Token>)
    requires |tokens| > 0
    ensures IsNonSpecialPatternChar(tokens, 0, '#') <==> IsCharOf(tokens[0], '#')
    ensures IsSearchPrefix(tokens, 0) <==> IsQuery(tokens, 0)
  {
  }

  /** At the end, from a state that goes back to its start. */
  lemma RewoundAtEnd(tokens: seq<Token>, c: Config, special: bool)
    requires InRange(tokens, c) && c.index < |tokens| && tokens[c.index].kind == END
    requires Rewinds(c.state) && c.brackets == 0 && (c.state == INIT ==> c.start == 0)
    ensures Ahead(tokens, AtEnd(tokens, c), special) == Ahead(tokens, c, special)
    ensures AtEnd(tokens, c).spans == c.spans && AtEnd(tokens, c).brackets == 0
  {
    NothingScannedAtEnd(tokens, c);
    PrefixesAgree(tokens);
    NothingAdded(c.spans);
    hide IsNonSpecialPatternChar, IsSearchPrefix, IsCharOf, IsQuery, OpenAtEnd, FirstDelimiter, CutsFrom;
  }

  lemma LastCut(tokens: seq<Token>, c: Config, special: bool)
    requires InRange(tokens, c) && c.index == |tokens| - 1 && tokens[c.index].kind == END && HasComponent(c.state)
    ensures Ahead(tokens, c, special) == [Span(c.state, c.start, c.index)]
    ensures var next := AtEnd(tokens, c);
      next.state == DONE && next.spans == c.spans + [Span(c.state, c.start, c.index)]
  {
    NothingScannedAtEnd(tokens, c);
    hide OpenAtEnd, FirstDelimiter, Behind;
  }

  lemma RewindStaysOnCourse(tokens: seq<Token>, c: Config, special: bool)
    requires InRange(tokens, c) && c.index < |tokens| && tokens[c.index].kind == END
    requires Rewinds(c.state) && (c.state == INIT ==> c.start == 0)
    requires IsOnCourse(tokens, c, special)
    ensures IsOnCourse(tokens, AtEnd(tokens, c), special)
  {
    hide AtEnd, Ahead, IsOnCourse;
    NoBracketsYet(tokens, c, special);
    RewoundAtEnd(tokens, c, special);
    var next := AtEnd(tokens, c);
    NothingAdded(c.spans);
    NothingAdded(Ahead(tokens, next, special));
    CourseIsKept(tokens, c, next, [], special);
  }

  lemma DoneStaysOnCourse(tokens: seq<Token>, c: Config, special: bool)
    requires InRange(tokens, c) && c.index == |tokens| - 1 && tokens[c.index].kind == END && HasComponent(c.state)
    requires IsOnCourse(tokens, c, special)
    ensures IsOnCourse(tokens, AtEnd(tokens, c), special)
  {
    hide AtEnd, Ahead, IsOnCourse;
    LastCut(tokens, c, special);
    NothingBehindDone(tokens, AtEnd(tokens, c), special);
    CutIsKept(tokens, c, AtEnd(tokens, c), special);
  }

  lemma EndStaysOnCourse(tokens: seq<Token>, inputLength: nat, c: Config, special: bool)
    requires IsTokenList(tokens, inputLength) && InRange(tokens, c) && c.index == |tokens| - 1 && c.state != DONE
    requires c.state == INIT ==> c.start == 0
    requires IsOnCourse(tokens, c, special)
    ensures IsOnCourse(tokens, AtEnd(tokens, c), special)
  {
    TheEnd(tokens, inputLength, c.index);
    hide IsTokenList, AtEnd, IsOnCourse;
    if Rewinds(c.state) {
      RewindStaysOnCourse(tokens, c, special);
    } else {
      DoneStaysOnCourse(tokens, c, special);
    }
  }

  lemma NothingBehindDone(tokens: seq<Token>, c: Config, special: bool)
    requires |tokens| > 0 && c.state == DONE
    ensures Ahead(tokens, c, special) == []
  {
  }

  lemma GroupRound(input: string, tokens: seq<Token>, oracle: SchemeOracle, c: Config)
    requires IsTokenList(tokens, |input|) && InRange(tokens, c) && c.index < |tokens| && tokens[c.index].kind != END
    requires tokens[c.index].kind == OPEN || c.depth > 0
    ensures Round(input, tokens, oracle, c) == Some(
      if tokens[c.index].kind == OPEN
      then c.(index := c.index + 2,
              depth := if c.index + 1 < |tokens| && tokens[c.index + 1].kind == CLOSE then c.depth else c.depth + 1)
      else c.(index := c.index + 1, depth := if tokens[c.index].kind == CLOSE then c.depth - 1 else c.depth))
  {
    TheEnd(tokens, |input|, c.index);
    hide AtToken, AtEnd, IsTokenList;
    var d := if tokens[c.index].kind == OPEN then c.(depth := c.depth + 1, index := c.index + 1) else c;
    if tokens[d.index].kind == CLOSE {
      CloseIsPassed(input, tokens, oracle, d.(depth := d.depth - 1));
    }
  }

  lemma RoundStaysOnCourse(input: string, tokens: seq<Token>, oracle: SchemeOracle, c: Config)
    requires IsTokenList(tokens, |input|) && InRange(tokens, c) && c.index < |tokens| && c.state != DONE
    requires Chained(tokens, c) && KnowsProtocol(input, tokens, oracle, c)
    requires IsOnCourse(tokens, c, IsSpecialPattern(input, tokens, oracle))
    ensures var next := Round(input, tokens, oracle, c);
      next.Some? ==> IsOnCourse(tokens, next.value, IsSpecialPattern(input, tokens, oracle))
  {
    hide Round, AtToken, AtEnd, IsTokenList, Chained, HasProtocol, IsOnCourse, IsSpecialPattern, ProtocolColon;
    hide KnowsProtocol, KnowsProtocolAt;
    InitialAuthority(tokens, c);
    TheEnd(tokens, |input|, c.index);
    var special := IsSpecialPattern(input, tokens, oracle);
    RoundByCases(input, tokens, oracle, c);
    if tokens[c.index].kind == END {
      EndStaysOnCourse(tokens, |input|, c, special);
    } else if tokens[c.index].kind == OPEN || c.depth > 0 {
      GroupRound(input, tokens, oracle, c);
      GroupIsPassed(tokens, c, Round(input, tokens, oracle, c).value, special);
    } else {
      KnowsProtocolHere(input, tokens, oracle, c);
      AtTokenStaysOnCourse(input, tokens, oracle, c);
    }
  }

  lemma KnowsProtocolHere(input: string, tokens: seq<Token>, oracle: SchemeOracle, c: Config)
    requires IsTokenList(tokens, |input|) && KnowsProtocol(input, tokens, oracle, c) && c.depth == 0
    requires c.index < |tokens| - 1 && tokens[c.index].kind != END && tokens[c.index].kind != OPEN
    ensures KnowsProtocolAt(input, tokens, oracle, c)
  {
    hide IsTokenList, HasProtocol, ProtocolColon;
  }

  lemma {:induction false} RunStaysOnCourse(input: string, tokens: seq<Token>, oracle: SchemeOracle, c: Config)
    requires IsTokenList(tokens, |input|) && InRange(tokens, c)
    requires Chained(tokens, c) && KnowsProtocol(input, tokens, oracle, c)
    requires IsOnCourse(tokens, c, IsSpecialPattern(input, tokens, oracle))
    ensures var end := Run(input, tokens, oracle, c);
      end.Some? ==>
        && (end.value.state == DONE || end.value.index == |tokens|)
        && IsOnCourse(tokens, end.value, IsSpecialPattern(input, tokens, oracle))
    decreases Rank(DONE) - Rank(c.state), |tokens| - c.index
  {
    hide Round, Run, IsTokenList, Chained, KnowsProtocol, RejectsProtocol, IsOnCourse, IsSpecialPattern;
    if c.state == DONE || c.index == |tokens| {
      RunStops(input, tokens, oracle, c);
    } else {
      var next := Round(input, tokens, oracle, c);
      RunGoesOn(input, tokens, oracle, c);
      RoundKeepsProtocol(input, tokens, oracle, c);
      if next.Some? {
        RoundGoesForward(input, tokens, oracle, c);
        RoundKeepsChain(input, tokens, oracle, c);
        RoundStaysOnCourse(input, tokens, oracle, c);
        RunStaysOnCourse(input, tokens, oracle, next.value);
      }
    }
  }

  /** The components of every run that gets to the end are the cuts: each ends at its first delimiter, and the next
      one is what the delimiter says. A run that passes over the end token has made the first of them. */
  lemma RunsMakeTheCuts(input: string, tokens: seq<Token>, oracle: SchemeOracle)
    requires IsTokenList(tokens, |input|)
    ensures var end, cuts := Run(input, tokens, oracle, START), Cuts(tokens, IsSpecialPattern(input, tokens, oracle));
      end.Some? ==> end.value.spans <= cuts && (end.value.state == DONE ==> end.value.spans == cuts)
  {
    var special := IsSpecialPattern(input, tokens, oracle);
    StartsOnCourse(tokens, special);
    RunStaysOnCourse(input, tokens, oracle, START);
    hide Cuts, Run, Ahead, IsTokenList, IsSpecialPattern;
    var end := Run(input, tokens, oracle, START);
    if end.Some? && end.value.state == DONE {
      NothingBehindDone(tokens, end.value, special);
      NothingAdded(end.value.spans);
    }
  }

  lemma StartsOnCourse(tokens: seq<Token>, special: bool)
    requires |tokens| > 0
    ensures IsOnCourse(tokens, START, special)
  {
    hide AllCuts, FirstDelimiter, OpenAtEnd;
    assert [] + Ahead(tokens, START, special) == Ahead(tokens, START, special);
  }
}
