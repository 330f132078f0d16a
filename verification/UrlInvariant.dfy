/** What every public setter keeps: the constraints that the WHATWG URL Standard puts on a URL record, and that no
    part of the record contains a delimiter. */
module UrlInvariant {
  import opened CppString
  import opened PercentEncode
  import opened PortParsing
  import opened UrlRecord
  import opened UrlSetters
  import opened UrlHosts
  import opened UrlSchemes
  import opened UrlApi
  import opened UrlInjective

  /** A URL has no credentials and no port without a host, and none at all if it is a file. */
  predicate CredentialsHaveHost(u: Url, t: SchemeType) {
    HasCredentials(u) || u.port.Some? ==> t != FILE && u.host.Some? && u.host.value != ""
  }

  /** A special URL has a host, which only in a file URL may be empty, and a path. */
  predicate SpecialHasHost(u: Url, t: SchemeType) {
    t != NOT_SPECIAL ==> !u.hasOpaquePath && u.path != "" && u.host.Some? && (t != FILE ==> u.host.value != "")
  }

  predicate PortIsNotDefault(u: Url, t: SchemeType) {
    u.port.Some? ==> u.port != DefaultPort(t)
  }

  predicate TypeIsOfProtocol(u: Url, t: SchemeType) {
    u.protocol != "" && GetSchemeType(u.protocol[..|u.protocol| - 1]) == t
  }

  predicate IsRight(s: State) {
    && CredentialsHaveHost(s.url, s.schemeType)
    && SpecialHasHost(s.url, s.schemeType)
    && PortIsNotDefault(s.url, s.schemeType)
    && TypeIsOfProtocol(s.url, s.schemeType)
    && CleanParts(s.url)
  }

  /** What the parser makes of a host is not empty and has no delimiters; what it makes of a path has none either,
      and is not empty in a special URL. */
  predicate ParsesWell(s: State, c: Call) {
    match c
    case HostOrHostname(_, input, parseHost) =>
      var parsed := parseHost(SplitHost(s.schemeType, input).host);
      parsed.Parsed? ==> parsed.host != "" && CleanHost(parsed.host)
    case Pathname(parsed) => Avoids(PathOf(parsed), {'?', '#'}) && (s.schemeType != NOT_SPECIAL ==> !parsed.Unwritten?)
    case _ => true
  }

  // Encoded text has no delimiters.

  lemma {:induction false} EncodedAvoids(table: Table, s: string, delimiters: set<char>)
    requires IsBytes(s) && delimiters <= {':', '@', '/', '?', '#'}
    requires forall c | c in delimiters :: BitAt(table, c)
    ensures Avoids(Encode(table, s), delimiters)
  {
    hide BitAt;
    if s != "" {
      EncodedAvoids(table, s[1..], delimiters);
      EncodedByteAvoids(table, s[0], delimiters);
    }
  }

  lemma EncodedByteAvoids(table: Table, c: char, delimiters: set<char>)
    requires c as int < 256 && delimiters <= {':', '@', '/', '?', '#'}
    requires forall d | d in delimiters :: BitAt(table, d)
    ensures Avoids(EncodeByte(table, c), delimiters)
  {
    hide BitAt, HexDigit;
  }

  lemma CredentialsAreClean(s: string)
    requires IsBytes(s)
    ensures Avoids(Encode(USERINFO, s), {':', '@', '/', '?', '#'})
    ensures Avoids(Encode(USERINFO, s), {'@', '/', '?', '#'})
  {
    hide BitAt, Encode;
    forall c | c in {':', '@', '/', '?', '#'}
      ensures BitAt(USERINFO, c)
    {
      UserinfoTableMeetsTheStandard(c);
    }
    EncodedAvoids(USERINFO, s, {':', '@', '/', '?', '#'});
  }

  lemma QueriesAreClean(t: SchemeType, s: string)
    requires IsBytes(s)
    ensures Avoids(Encode(QueryTable(t), s), {'#'})
  {
    hide BitAt, Encode;
    QueryTableMeetsTheStandard('#');
    SpecialQueryTableMeetsTheStandard('#');
    EncodedAvoids(QueryTable(t), s, {'#'});
  }

  // Each setter.

  lemma CredentialsKeepRight(s: State, input: string)
    requires IsRight(s) && IsBytes(input)
    ensures IsRight(After(s, Username(input))) && IsRight(After(s, Password(input)))
  {
    hide Encode, GetSchemeType;
    CredentialsAreClean(input);
  }

  lemma PortKeepsRight(s: State, input: string)
    requires IsRight(s)
    ensures IsRight(After(s, Port(input)))
  {
    hide FromChars, GetSchemeType, WithoutTabsAndNewlines;
    PortAfterIsRight(s.url, s.schemeType, input, s.valid);
  }

  /** A port is stored only where there may be one, in 16 bits, and if it is not the default. */
  lemma PortAfterIsRight(u: Url, t: SchemeType, input: string, valid: bool)
    requires u.port.Some? ==> u.port.value <= 0xFFFF && u.port != DefaultPort(t)
    ensures var port := PortAfter(u, t, input, valid);
      && (port.Some? ==> port.value <= 0xFFFF && port != DefaultPort(t))
      && (port.Some? ==> u.port.Some? || CanHaveCredentials(u, t))
  {
    hide DigitsValue, WithoutTabsAndNewlines;
  }

  lemma QueryKeepsRight(s: State, input: string)
    requires IsRight(s) && IsBytes(input)
    ensures IsRight(After(s, Search(input)))
  {
    hide Encode, GetSchemeType;
    if input != "" {
      StillBytes(WithoutQuestionMark(input));
      QueriesAreClean(s.schemeType, WithoutTabsAndNewlines(WithoutQuestionMark(input)));
    }
    StrippedStaysRight(s, s.url.(query := None));
  }

  lemma HashKeepsRight(s: State, input: string)
    requires IsRight(s) && IsBytes(input)
    ensures IsRight(After(s, Hash(input)))
  {
    hide Encode, GetSchemeType;
    StrippedStaysRight(s, s.url.(hash := None));
  }

  lemma {:induction false} StrippedIsPrefix(s: string)
    ensures WithoutTrailingSpaces(s) <= s
  {
    if s != "" && s[|s| - 1] == ' ' {
      StrippedIsPrefix(s[..|s| - 1]);
    }
  }

  lemma StrippedStaysRight(s: State, u: Url)
    requires IsRight(s) && IsRight(s.(url := u))
    ensures IsRight(s.(url := Stripped(u)))
  {
    hide GetSchemeType, WithoutTrailingSpaces;
    StrippedIsPrefix(u.path);
  }

  lemma PathKeepsRight(s: State, parsed: ParsedPath)
    requires IsRight(s) && Allowed(s, Pathname(parsed)) && ParsesWell(s, Pathname(parsed))
    ensures IsRight(After(s, Pathname(parsed)))
  {
    hide GetSchemeType;
  }

  lemma CleanHostHasNoAt(host: string)
    requires CleanHost(host)
    ensures !StartsWith(host, "@")
  {
    assert "@"[0] == '@';
  }

  lemma WithHostIsRight(s: State, host: string)
    requires IsRight(s) && !s.url.hasOpaquePath && CleanHost(host)
    requires host != "" || s.schemeType == FILE ||
             (s.schemeType == NOT_SPECIAL && !HasCredentials(s.url) && s.url.port.None?)
    ensures IsRight(s.(url := s.url.(host := Some(host))))
  {
    hide GetSchemeType;
    CleanHostHasNoAt(host);
  }

  lemma WithPortIsRight(s: State, input: string, valid: bool)
    requires IsRight(s)
    ensures IsRight(s.(url := s.url.(port := PortAfter(s.url, s.schemeType, input, valid))))
  {
    hide PortAfter, GetSchemeType;
    PortAfterIsRight(s.url, s.schemeType, input, valid);
  }

  lemma ValidDoesNotMatter(s: State, valid: bool)
    ensures IsRight(s) <==> IsRight(s.(valid := valid))
  {
  }

  lemma Unrefused(s: State, overrideHostname: bool, parts: HostInput)
    requires IsRight(s)
    ensures CleanHost("")
    ensures !RefusedAtOnce(s.url, s.schemeType, overrideHostname, parts) ==> !s.url.hasOpaquePath
    ensures s.url.host.None? ==> s.schemeType == NOT_SPECIAL && !HasCredentials(s.url) && s.url.port.None?
    ensures !RefusedAtOnce(s.url, s.schemeType, overrideHostname, parts) && parts.host == "" ==>
      s.schemeType == FILE || (s.schemeType == NOT_SPECIAL && !HasCredentials(s.url) && s.url.port.None?)
  {
  }

  lemma HostKeepsRight(s: State, overrideHostname: bool, input: string, parseHost: string -> HostParse)
    requires IsRight(s) && ParsesWell(s, HostOrHostname(overrideHostname, input, parseHost))
    ensures IsRight(After(s, HostOrHostname(overrideHostname, input, parseHost)))
  {
    hide IsRight, SplitHost, PortAfter, RefusedAtOnce, CleanHost;
    var u, t, parts := s.url, s.schemeType, SplitHost(s.schemeType, input);
    var parsed := parseHost(parts.host);
    Unrefused(s, overrideHostname, parts);
    var after := After(s, HostOrHostname(overrideHostname, input, parseHost));
    ValidDoesNotMatter(s.(url := after.url), after.valid);
    if RefusedAtOnce(u, t, overrideHostname, parts) {
    } else if parts.host == "" || (parsed.Refused? && u.host.None?) {
      WithHostIsRight(s, "");
    } else if parsed.Parsed? {
      WithHostIsRight(s, parsed.host);
      WithHostIsRight(s, if t == FILE then "" else parsed.host);
      if parts.port.Some? {
        WithPortIsRight(s.(url := u.(host := Some(parsed.host))), parts.port.value, s.valid || parsed.resetsValid);
      }
    }
  }

  lemma {:induction false} LowerIsClean(s: string)
    requires forall k | 0 <= k < |s| :: IsAlnumPlus(s[k])
    ensures Avoids(ToLower(s), {':', '?', '#'})
  {
    if s != "" {
      LowerIsClean(s[1..]);
    }
  }

  lemma NamedIsClean(input: string)
    requires NamedScheme(input).Some?
    ensures Avoids(ToLower(NamedScheme(input).value), {':', '?', '#'})
  {
    hide Avoids, ToLower, WithoutTabsAndNewlines;
    LowerIsClean(NamedScheme(input).value);
  }

  lemma ProtocolKeepsRight(s: State, input: string)
    requires IsRight(s)
    ensures IsRight(After(s, Protocol(input)))
  {
    hide GetSchemeType, ToLower, NamedScheme, Avoids, CleanHost;
    TypeAgrees(s.url, s.schemeType, input);
    if NamedScheme(input).Some? {
      NamedIsClean(input);
      NameBeforeColon(ToLower(NamedScheme(input).value));
    }
  }

  /** Every call keeps the constraints. */
  lemma CallKeepsRight(s: State, c: Call)
    requires IsRight(s) && Allowed(s, c) && ParsesWell(s, c)
    ensures IsRight(After(s, c))
  {
    hide After, IsRight;
    match c {
      case Protocol(input) => ProtocolKeepsRight(s, input);
      case Username(input) => CredentialsKeepRight(s, input);
      case Password(input) => CredentialsKeepRight(s, input);
      case HostOrHostname(overrideHostname, input, parseHost) => HostKeepsRight(s, overrideHostname, input, parseHost);
      case Port(input) => PortKeepsRight(s, input);
      case Pathname(parsed) => PathKeepsRight(s, parsed);
      case Search(input) => QueryKeepsRight(s, input);
      case Hash(input) => HashKeepsRight(s, input);
    }
  }

  // The setters that refuse: what they are given is set exactly where the URL stays right.

  /** Credentials can be set exactly where a URL may have them. */
  lemma CredentialsSetWhereRight(s: State, x: string)
    requires IsRight(s) && x != "" && Avoids(x, {':', '@', '/', '?', '#'})
    ensures CanHaveCredentials(s.url, s.schemeType) <==> IsRight(s.(url := s.url.(username := x)))
    ensures CanHaveCredentials(s.url, s.schemeType) <==> IsRight(s.(url := s.url.(password := x)))
  {
    hide GetSchemeType, CleanHost;
  }

  /** A port can be set exactly where a URL may have one. */
  lemma PortSetWhereRight(s: State, port: nat)
    requires IsRight(s) && port <= 0xFFFF && Some(port) != DefaultPort(s.schemeType)
    ensures CanHaveCredentials(s.url, s.schemeType) <==> IsRight(s.(url := s.url.(port := Some(port))))
  {
    hide GetSchemeType, Avoids, CleanHost;
  }

  /** A host without a name is set exactly where a URL may have one. */
  lemma EmptyHostSetWhereRight(s: State, overrideHostname: bool, parts: HostInput)
    requires IsRight(s) && parts.host == "" && parts.port.None?
    ensures !RefusedAtOnce(s.url, s.schemeType, overrideHostname, parts) <==>
      IsRight(s.(url := s.url.(host := Some(""))))
  {
    hide GetSchemeType;
    CleanHostHasNoAt("");
  }

  /** A scheme is set exactly where the URL is right with it, and both the old scheme and the new one are special, or
      neither is. */
  lemma SchemeSetWhereRight(s: State, input: string)
    requires IsRight(s) && NamedScheme(input).Some?
    ensures var scheme := ToLower(NamedScheme(input).value);
      var t := GetSchemeType(scheme);
      var u := s.url.(protocol := scheme + ":", port := if s.url.port == DefaultPort(t) then None else s.url.port);
      ProtocolAfter(s.url, s.schemeType, input) ==
        if (t == NOT_SPECIAL <==> s.schemeType == NOT_SPECIAL) && IsRight(State(u, t, s.valid)) then
          u.(port := if u.port == Some(0) && DefaultPort(t).None? then None else u.port)
        else s.url
  {
    var scheme := ToLower(NamedScheme(input).value);
    NamedIsClean(input);
    NameBeforeColon(scheme);
    hide GetSchemeType, ToLower, NamedScheme, Avoids, CleanHost;
    if GetSchemeType(scheme) == s.schemeType == FILE {
      SameFileScheme(s, scheme);
    }
  }

  lemma SameFileScheme(s: State, scheme: string)
    requires IsRight(s) && s.schemeType == GetSchemeType(scheme) == FILE
    ensures s.url.protocol == scheme + ":" && s.url.port.None?
  {
    hide GetSchemeType, Avoids, CleanHost;
    var protocol := s.url.protocol;
    SchemeTypeIsByName(scheme, FILE);
    SchemeTypeIsByName(protocol[..|protocol| - 1], FILE);
    assert protocol == protocol[..|protocol| - 1] + ":";
  }

  ghost predicate AllParseWell(s: State, calls: seq<Call>)
    requires Permitted(s, calls)
    decreases |calls|
  {
    calls == [] || (ParsesWell(s, calls[0]) && AllParseWell(After(s, calls[0]), calls[1..]))
  }

  /** And so does every run of calls. */
  lemma {:induction false} RunsKeepRight(s: State, calls: seq<Call>)
    requires IsRight(s) && Permitted(s, calls) && AllParseWell(s, calls)
    ensures IsRight(AfterAll(s, calls))
    decreases |calls|
  {
    hide After, IsRight, Allowed, Faithful, HasRoom, ParsesWell;
    if calls != [] {
      CallKeepsRight(s, calls[0]);
      RunsKeepRight(After(s, calls[0]), calls[1..]);
    }
  }

  /** So that two URLs that were reached by calls and read the same are the same. */
  lemma SameTextSameRecord(s: State, calls: seq<Call>, q: State, others: seq<Call>)
    requires IsRight(s) && Permitted(s, calls) && AllParseWell(s, calls)
    requires IsRight(q) && Permitted(q, others) && AllParseWell(q, others)
    requires var u, v := AfterAll(s, calls).url, AfterAll(q, others).url;
      !LooksMarked(u) && !LooksMarked(v) && Href(u) == Href(v)
    ensures var u, v := AfterAll(s, calls).url, AfterAll(q, others).url;
      u == v.(hasOpaquePath := u.hasOpaquePath)
  {
    hide Href, LooksMarked, CleanParts, AfterAll, Permitted, AllParseWell;
    RunsKeepRight(s, calls);
    RunsKeepRight(q, others);
    HrefInjective(AfterAll(s, calls).url, AfterAll(q, others).url);
  }
}
