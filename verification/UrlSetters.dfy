/** The public setters of `ada::url_aggregator`. What they leave behind is the serialization of a record again,
    except in two cases that come with a marker. */
module UrlSetters {
  import opened CppString
  import opened PercentEncode
  import opened PortParsing
  import opened UrlRecord
  import opened UrlLayout
  import opened UrlEdits
  import opened UrlValidate
  import opened UrlAggregator
  import opened UrlSession

  function WithoutTabsAndNewlines(s: string): string {
    if s == "" then ""
    else
      (if s[0] == '\t' || s[0] == '\n' || s[0] == '\r' then "" else [s[0]]) + WithoutTabsAndNewlines(s[1..])
  }

  function WithoutTrailingSpaces(s: string): string {
    if s != "" && s[|s| - 1] == ' ' then WithoutTrailingSpaces(s[..|s| - 1]) else s
  }

  lemma {:induction false} StillBytes(s: string)
    requires IsBytes(s)
    ensures IsBytes(WithoutTabsAndNewlines(s))
  {
    if s != "" {
      StillBytes(s[1..]);
    }
  }

  /** Only a URL with a host that is not empty, and that is not a file URL, has credentials or a port. */
  predicate CanHaveCredentials(u: Url, t: SchemeType) {
    t != FILE && u.host.Some? && (u.host.value != "" || HasCredentials(u))
  }

  /** The object holds the serialization of a record. */
  ghost predicate Serializes(a: Aggregator, u: Url)
    reads a
  {
    && a.Valid() && a.shape == SerializedShape(u) && a.buffer == Href(u)
    && Validate(a.buffer, a.components, a.hasOpaquePath)
  }

  lemma SerializedAgain(a: Aggregator, u: Url)
    requires a.Valid() && a.shape == SerializedShape(u)
    ensures Serializes(a, u)
  {
    CanonicalIsHref(a.shape);
    CanonicalIsChecked(a.shape);
  }

  method CannotHaveCredentialsOrPort(a: Aggregator) returns (cannot: bool)
    requires a.Valid() && a.shape.at == HasCredentials(a.shape.url)
    ensures cannot <==> !CanHaveCredentials(a.shape.url, a.schemeType)
  {
    HostLength(a.shape);
    return a.schemeType == FILE || a.components.hostStart == a.components.hostEnd;
  }

  lemma HostLength(s: Shape)
    requires Sound(s) && Fits(s)
    ensures var c := ComponentsOf(s);
      c.hostStart == c.hostEnd <==> !s.at && (s.url.host.Some? ==> s.url.host.value == "")
  {
    hide Layout, Pieces.Before;
    OffsetsSpelledOut(s);
    PiecesAt(s);
  }

  /** Encodes only what has to be encoded. */
  method EncodedUserinfo(input: string) returns (encoded: string)
    requires IsBytes(input)
    ensures encoded == Encode(USERINFO, input)
  {
    var index := EncodeIndex(USERINFO, input);
    EncodeAfterPrefix(USERINFO, input, index);
    if index == |input| {
      assert input[index..] == "" && input[..index] == input;
      EncodeNothing(USERINFO, "");
      return input;
    }
    return input[..index] + Encode(USERINFO, input[index..]);
  }

  method SetUsername(a: Aggregator, input: string) returns (done: bool)
    requires a.Valid() && Canonical(a.shape) && IsBytes(input)
    requires Fits(SerializedShape(a.shape.url.(username := Encode(USERINFO, input))))
    modifies a
    ensures a.schemeType == old(a.schemeType) && a.isValid == old(a.isValid)
    ensures done <==> CanHaveCredentials(old(a.shape.url), a.schemeType)
    ensures Serializes(a, if done then old(a.shape.url).(username := Encode(USERINFO, input)) else old(a.shape.url))
  {
    hide Encode, Text, Fits, Href, Validate, Sound, ComponentsOf;
    var cannot := CannotHaveCredentialsOrPort(a);
    if cannot {
      SerializedAgain(a, a.shape.url);
      return false;
    }
    ghost var u := a.shape.url.(username := Encode(USERINFO, input));
    HostsAreNotOpaque(a.shape);
    var encoded := EncodedUserinfo(input);
    a.UpdateBaseUsername(encoded);
    SerializedAgain(a, u);
    return true;
  }

  lemma HostsAreNotOpaque(s: Shape)
    requires Sound(s)
    ensures s.url.host.Some? ==> !s.url.hasOpaquePath && !NeedsMarker(s.url)
  {
  }

  method SetPassword(a: Aggregator, input: string) returns (done: bool)
    requires a.Valid() && Canonical(a.shape) && IsBytes(input)
    requires Fits(SerializedShape(a.shape.url.(password := Encode(USERINFO, input))))
    modifies a
    ensures a.schemeType == old(a.schemeType) && a.isValid == old(a.isValid)
    ensures done <==> CanHaveCredentials(old(a.shape.url), a.schemeType)
    ensures Serializes(a, if done then old(a.shape.url).(password := Encode(USERINFO, input)) else old(a.shape.url))
  {
    hide Encode, Text, Fits, Href, Validate, Sound, ComponentsOf;
    var cannot := CannotHaveCredentialsOrPort(a);
    if cannot {
      SerializedAgain(a, a.shape.url);
      return false;
    }
    ghost var u := a.shape.url.(password := Encode(USERINFO, input));
    HostsAreNotOpaque(a.shape);
    var encoded := EncodedUserinfo(input);
    a.UpdateBasePassword(encoded);
    SerializedAgain(a, u);
    return true;
  }

  lemma WithoutFirst(s: string, i: nat)
    requires i < |s|
    ensures WithoutTabsAndNewlines(s[i..]) ==
      (if s[i] == '\t' || s[i] == '\n' || s[i] == '\r' then "" else [s[i]]) + WithoutTabsAndNewlines(s[i + 1..])
  {
    assert s[i..][0] == s[i] && s[i..][1..] == s[i + 1..];
  }

  method RemoveTabsAndNewlines(input: string) returns (output: string)
    ensures output == WithoutTabsAndNewlines(input)
  {
    output := "";
    var i := 0;
    assert input[0..] == input && WithoutTabsAndNewlines(input[|input|..]) == "";
    hide WithoutTabsAndNewlines;
    while i < |input|
      invariant i <= |input| && output + WithoutTabsAndNewlines(input[i..]) == WithoutTabsAndNewlines(input)
    {
      WithoutFirst(input, i);
      if input[i] != '\t' && input[i] != '\n' && input[i] != '\r' {
        output := output + [input[i]];
      }
      i := i + 1;
    }
  }

  /** A port is read only from text that begins with a digit. */
  predicate ReadsPort(u: Url, t: SchemeType, input: string) {
    var trimmed := WithoutTabsAndNewlines(input);
    CanHaveCredentials(u, t) && trimmed != "" && IsDigit(trimmed[0])
  }

  /** What a port setter is given is accepted when it leaves no text to read, or a port that is read while
      the URL counts as valid. */
  predicate AcceptsPort(u: Url, t: SchemeType, input: string, valid: bool) {
    var trimmed := WithoutTabsAndNewlines(input);
    CanHaveCredentials(u, t) &&
    (trimmed == "" || (IsDigit(trimmed[0]) && valid && !FromChars(trimmed[..DigitRun(trimmed)]).OutOfRange?))
  }

  /** The port afterwards: text of tabs and newlines alone keeps it, no text at all removes it. */
  function PortAfter(u: Url, t: SchemeType, input: string, valid: bool): Option<nat> {
    var trimmed := WithoutTabsAndNewlines(input);
    if !AcceptsPort(u, t, input, valid) then u.port
    else if input == "" then None
    else if trimmed == "" then u.port
    else StoredPort(t, FromChars(trimmed[..DigitRun(trimmed)]))
  }

  lemma {:induction false} DigitsAreDigits(s: string)
    ensures DigitRun(s[..DigitRun(s)]) == DigitRun(s)
  {
    if s != "" && IsDigit(s[0]) {
      DigitsAreDigits(s[1..]);
      assert s[..DigitRun(s)][1..] == s[1..][..DigitRun(s[1..])];
    }
  }

  lemma SamePort(s: Shape)
    requires Sound(s) && (s.marker ==> s.url.port.None?)
    ensures SetPort(s, s.url.port) == s
    ensures s.url.port.Some? ==> s.url.port.value <= 0xFFFF
    ensures Canonical(s) && s.url.host.Some? ==>
      forall port: Option<nat> :: SetPort(s, port) == SerializedShape(s.url.(port := port))
  {
  }

  /** A marker in front of the path, left behind by an earlier step, stays where it is. A port is not
      taken while the URL counts as invalid, but then it counts as valid again. */
  method SetThePort(a: Aggregator, input: string) returns (done: bool)
    requires a.Valid() && a.shape.at == HasCredentials(a.shape.url)
    requires a.shape.marker ==> a.shape.url.port.None?
    requires forall port: nat | port <= 0xFFFF :: Fits(SetPort(a.shape, Some(port)))
    modifies a
    ensures a.schemeType == old(a.schemeType)
    ensures done <==> AcceptsPort(old(a.shape.url), a.schemeType, input, old(a.isValid))
    ensures a.Valid()
    ensures a.shape == SetPort(old(a.shape), PortAfter(old(a.shape.url), a.schemeType, input, old(a.isValid)))
    ensures a.isValid <==> old(a.isValid) || ReadsPort(old(a.shape.url), a.schemeType, input)
    ensures Canonical(old(a.shape)) ==> var u := old(a.shape.url);
      Serializes(a, u.(port := PortAfter(u, a.schemeType, input, old(a.isValid))))
  {
    hide Text, Fits, Href, Validate, Sound, ComponentsOf, FromChars, SetPort, Canonical;
    ghost var s := a.shape;
    ghost var after := PortAfter(s.url, a.schemeType, input, a.isValid);
    SamePort(s);
    PortSerialized(s, after, a);
    var cannot := CannotHaveCredentialsOrPort(a);
    if cannot {
      return false;
    }
    if input == "" {
      a.ClearPort();
      PortSerialized(s, after, a);
      return true;
    }
    var trimmed := RemoveTabsAndNewlines(input);
    if trimmed == "" {
      return true;
    }
    if !IsDigit(trimmed[0]) {
      return false;
    }
    var digits := trimmed[..DigitRun(trimmed)];
    DigitsAreDigits(trimmed);
    var previousPort := a.components.port;
    var consumed := a.ParsePort(digits, false);
    PortSerialized(s, after, a);
    if a.isValid {
      return true;
    }
    PortInComponents(a.shape);
    a.UpdateBasePort(previousPort);
    a.isValid := true;
    PortSerialized(s, after, a);
    return false;
  }

  lemma PortSerialized(s: Shape, port: Option<nat>, a: Aggregator)
    requires Sound(s)
    requires s.url.host.None? ==> port == s.url.port
    ensures Canonical(s) && a.Valid() && a.shape == SetPort(s, port) ==> Serializes(a, s.url.(port := port))
  {
    hide Text, Fits, Href, Validate, ComponentsOf;
    if Canonical(s) && a.Valid() && a.shape == SetPort(s, port) {
      SerializedAgain(a, s.url.(port := port));
    }
  }

  /** Without a query and a fragment, an opaque path has no spaces at its end. */
  function Stripped(u: Url): Url {
    if u.hasOpaquePath && u.query.None? && u.hash.None? then u.(path := WithoutTrailingSpaces(u.path)) else u
  }

  lemma StrippedPath(s: Shape)
    requires Sound(s) && Fits(s) && Canonical(s) && s.url.hasOpaquePath && s.url.query.None? && s.url.hash.None?
    ensures var c, path := ComponentsOf(s), WithoutTrailingSpaces(s.url.path);
      && c.pathnameStart <= |Text(s)| && Text(s)[c.pathnameStart..] == s.url.path
      && SetPathname(s, path) == SerializedShape(s.url.(path := path))
      && Sound(SetPathname(s, path)) && Fits(SetPathname(s, path))
      && MarkerFits(s, path) && !PutsMarkerBeforeSuffix(s, path)
  {
    hide Layout, Text, OffsetsOf;
    OffsetsOrdered(s);
    OffsetsSpelledOut(s);
    PiecesAt(s);
    PathReads(s);
    var path := WithoutTrailingSpaces(s.url.path);
    ShorterPath(s.url.path);
    PathEdited(s, path);
    assert Text(s)[ComponentsOf(s).pathnameStart..] ==
      Text(s)[ComponentsOf(s).pathnameStart..ComponentsOf(s).pathnameStart + |s.url.path|];
  }

  lemma {:induction false} ShorterPath(path: string)
    ensures |WithoutTrailingSpaces(path)| <= |path|
  {
    if path != "" && path[|path| - 1] == ' ' {
      ShorterPath(path[..|path| - 1]);
    }
  }

  method StripTrailingSpacesFromOpaquePath(a: Aggregator)
    requires a.Valid() && Canonical(a.shape)
    modifies a
    ensures a.schemeType == old(a.schemeType) && a.isValid == old(a.isValid)
    ensures a.Valid() && a.shape == SerializedShape(Stripped(old(a.shape.url)))
  {
    hide Text, Fits, Href, Validate, Sound, SetPathname, OffsetsOf;
    OptionalParts(a.shape);
    if !a.hasOpaquePath || a.components.hashStart != OMITTED || a.components.searchStart != OMITTED {
      return;
    }
    StrippedPath(a.shape);
    var path := a.buffer[a.components.pathnameStart..];
    ghost var start := path;
    while path != "" && path[|path| - 1] == ' '
      invariant WithoutTrailingSpaces(path) == WithoutTrailingSpaces(start)
      decreases |path|
    {
      path := path[..|path| - 1];
    }
    a.UpdateBasePathname(path);
  }

  lemma OptionalParts(s: Shape)
    requires Sound(s) && Fits(s)
    ensures ComponentsOf(s).searchStart == OMITTED <==> s.url.query.None?
    ensures ComponentsOf(s).hashStart == OMITTED <==> s.url.hash.None?
  {
    hide Layout;
    SuffixReads(s);
    OffsetsOrdered(s);
  }

  function QueryTable(t: SchemeType): Table {
    if t != NOT_SPECIAL then SPECIAL_QUERY else QUERY
  }

  function QueryAfter(u: Url, t: SchemeType, input: string): Url
    requires IsBytes(input)
  {
    if input == "" then Stripped(u.(query := None))
    else
      StillBytes(WithoutQuestionMark(input));
      u.(query := Some(Encode(QueryTable(t), WithoutTabsAndNewlines(WithoutQuestionMark(input)))))
  }

  method SetTheSearch(a: Aggregator, input: string)
    requires a.Valid() && Canonical(a.shape) && IsBytes(input)
    requires Fits(SerializedShape(QueryAfter(a.shape.url, a.schemeType, input)))
    modifies a
    ensures a.schemeType == old(a.schemeType) && a.isValid == old(a.isValid)
    ensures Serializes(a, QueryAfter(old(a.shape.url), a.schemeType, input))
  {
    hide Text, Fits, Href, Validate, Sound, ComponentsOf, Encode;
    ghost var u := a.shape.url;
    if input == "" {
      a.ClearSearch();
      StripTrailingSpacesFromOpaquePath(a);
      SerializedAgain(a, QueryAfter(u, a.schemeType, input));
      return;
    }
    StillBytes(WithoutQuestionMark(input));
    var newValue := if input[0] == '?' then input[1..] else input;
    newValue := RemoveTabsAndNewlines(newValue);
    var table := QueryTable(a.schemeType);
    a.UpdateBaseSearchEncoded(newValue, table);
    SerializedAgain(a, QueryAfter(u, a.schemeType, input));
  }

  function HashAfter(u: Url, input: string): Url
    requires IsBytes(input)
  {
    if input == "" then Stripped(u.(hash := None))
    else
      var value := if input[0] == '#' then input[1..] else input;
      StillBytes(value);
      u.(hash := Some(Encode(FRAGMENT, WithoutTabsAndNewlines(value))))
  }

  method SetTheHash(a: Aggregator, input: string)
    requires a.Valid() && Canonical(a.shape) && IsBytes(input)
    requires Fits(SerializedShape(HashAfter(a.shape.url, input)))
    modifies a
    ensures a.schemeType == old(a.schemeType) && a.isValid == old(a.isValid)
    ensures Serializes(a, HashAfter(old(a.shape.url), input))
  {
    hide Text, Fits, Href, Validate, Sound, ComponentsOf, Encode;
    ghost var u := a.shape.url;
    if input == "" {
      a.ClearHash();
      StripTrailingSpacesFromOpaquePath(a);
      SerializedAgain(a, HashAfter(u, input));
      return;
    }
    var newValue := if input[0] == '#' then input[1..] else input;
    StillBytes(newValue);
    newValue := RemoveTabsAndNewlines(newValue);
    a.UpdateUnencodedBaseHash(newValue);
    SerializedAgain(a, HashAfter(u, input));
  }

  /** What parsing a path leaves behind it: a plain path is appended to a buffer that ends with the path;
      any other one is set; and an empty one may be left empty. */
  datatype ParsedPath = Appended(path: string) | Written(path: string) | Unwritten

  function PathOf(p: ParsedPath): string {
    if p.Unwritten? then "" else p.path
  }

  predicate HasSuffix(u: Url) {
    u.query.Some? || u.hash.Some?
  }

  /** The setter loses the query and the fragment. */
  predicate LosesSuffix(u: Url, p: ParsedPath) {
    p.Written? && NeedsMarker(u.(path := p.path)) && HasSuffix(u)
  }

  lemma ClearedPath(s: Shape)
    requires Sound(s) && Canonical(s)
    ensures UrlEdits.ClearPathname(s) == SerializedShape(s.url.(path := ""))
  {
  }

  lemma WrittenPath(s: Shape, path: string)
    requires Sound(s) && Canonical(s) && s.url.path == "" && (path == "" || path[0] == '/')
    ensures Sound(SetPathname(s, path)) && SetPathname(s, path) == SerializedShape(s.url.(path := path))
    ensures PutsMarkerBeforeSuffix(s, path) <==> LosesSuffix(s.url, Written(path))
  {
  }

  lemma AppendedPath(s: Shape, path: string)
    requires Sound(s) && Fits(s) && Canonical(s) && s.url.path == "" && path != "" && path[0] == '/'
    requires !HasSuffix(s.url) && Fits(s.(url := s.url.(path := path)))
    ensures var t := s.(url := s.url.(path := path));
      Sound(t) && Text(t) == Text(s) + path && ComponentsOf(t) == ComponentsOf(s)
  {
    hide Text, OffsetsOf;
    assert AppendPathname(s, path) == s.(url := s.url.(path := path));
    AppendPathnameEffect(s, path);
    OptionalParts(s);
  }

  lemma SuffixLost(a: Aggregator, s: Shape, path: string)
    requires Sound(s) && Fits(s) && Canonical(s) && s.url.path == "" && PutsMarkerBeforeSuffix(s, path)
    requires a.buffer == Text(Garbled(s, path))
    requires a.components.pathnameStart == ComponentsOf(s).pathnameStart + 2
    requires a.components.hostEnd == ComponentsOf(s).hostEnd
    ensures LooksLikeDashDot(a.buffer, a.components)
    ensures a.buffer == Href(s.url.(path := path, query := None, hash := None))
    ensures a.buffer != Href(s.url.(path := path))
  {
    hide Layout, Text, OffsetsOf, Href, Decimal;
    var g, v := Garbled(s, path), s.url.(path := path);
    CanonicalIsHref(g);
    MarkerRead(g);
    OffsetsSpelledOut(s);
    OffsetsSpelledOut(g);
    PiecesAt(s);
    PiecesAt(g);
    AddTwo(a.components.hostEnd);
    ShorterHref(v);
  }

  lemma ShorterHref(u: Url)
    requires HasSuffix(u)
    ensures Href(u) != Href(u.(query := None, hash := None))
  {
    var v := u.(query := None, hash := None);
    assert AuthorityText(u) == AuthorityText(v);
    hide AuthorityText;
    assert |Href(u)| > |Href(v)|;
  }

  lemma PathInBuffer(s: Shape)
    requires Sound(s) && Fits(s)
    ensures var c := ComponentsOf(s);
      && c.pathnameStart <= QueryStart(Text(s), c) <= |Text(s)|
      && Text(s)[c.pathnameStart..QueryStart(Text(s), c)] == s.url.path
  {
    hide Layout, Text, OffsetsOf;
    PathEffect(s, s.url.path);
  }

  /** Setting a path: the record gets it, except that a path that needs a marker, in front of a query or a
      fragment, takes these away. */
  method SetThePathname(a: Aggregator, parsed: ParsedPath) returns (done: bool)
    requires a.Valid() && Canonical(a.shape)
    requires parsed.Unwritten? || (parsed.path != "" && parsed.path[0] == '/')
    requires parsed.Appended? ==> !HasSuffix(a.shape.url)
    requires forall marker :: Fits(Shape(a.shape.url.(path := ""), a.shape.at, marker))
    requires forall marker :: Fits(Shape(a.shape.url.(path := PathOf(parsed)), a.shape.at, marker))
    modifies a
    ensures a.schemeType == old(a.schemeType) && a.isValid == old(a.isValid)
    ensures done <==> !old(a.shape.url).hasOpaquePath
    ensures !done ==> Serializes(a, old(a.shape.url))
    ensures done ==> var u := old(a.shape.url); var v := u.(path := PathOf(parsed));
      if LosesSuffix(u, parsed) then a.buffer == Href(v.(query := None, hash := None)) && a.buffer != Href(v)
      else Serializes(a, v)
  {
    hide Text, Fits, Href, Validate, Sound, ComponentsOf, HasAuthority, LooksLikeDashDot, Garbled, Insert, Add32;
    ghost var u := a.shape.url;
    ghost var v := u.(path := PathOf(parsed));
    if a.hasOpaquePath {
      SerializedAgain(a, u);
      return false;
    }
    ClearedPath(a.shape);
    a.ClearPathname();
    ghost var s := a.shape;
    assert s == Shape(u.(path := ""), s.at, s.marker);
    match parsed {
      case Appended(path) =>
        assert Shape(u.(path := path), s.at, s.marker) == s.(url := s.url.(path := path));
        AppendedPath(s, path);
        a.buffer := a.buffer + path;
        a.shape := s.(url := s.url.(path := path));
      case Written(path) =>
        WrittenPath(s, path);
        assert SetPathname(s, path) == Shape(v, s.at, NeedsMarker(v));
        assert s.(marker := true) == Shape(u.(path := ""), s.at, true);
        a.UpdateBasePathname(path);
        if LosesSuffix(u, parsed) {
          SuffixLost(a, s, path);
        }
      case Unwritten =>
    }
    InsertMissingMarker(a, LosesSuffix(u, parsed));
    if !LosesSuffix(u, parsed) {
      SerializedAgain(a, v);
    }
    return true;
  }

  /** The end of the setter: a marker before two slashes, unless it is there. */
  method InsertMissingMarker(a: Aggregator, ghost lost: bool)
    requires lost ==> LooksLikeDashDot(a.buffer, a.components) && !a.hasOpaquePath
    requires !lost ==>
      && a.Valid() && Fits(a.shape.(marker := NeedsMarker(a.shape.url))) && a.shape.at == HasCredentials(a.shape.url)
      && (a.shape.marker ==> NeedsMarker(a.shape.url))
      && (NeedsMarker(a.shape.url) && !a.shape.marker ==> !HasSuffix(a.shape.url))
    modifies a
    ensures a.schemeType == old(a.schemeType) && a.isValid == old(a.isValid)
    ensures a.hasOpaquePath == old(a.hasOpaquePath)
    ensures lost ==> a.buffer == old(a.buffer)
    ensures !lost ==> a.Valid() && a.shape == SerializedShape(old(a.shape.url))
  {
    hide Text, Fits, Href, Sound, ComponentsOf, HasAuthority, LooksLikeDashDot, Insert, Add32;
    if !lost {
      AuthorityRead(a.shape);
      DashDotRead(a.shape);
      PathInBuffer(a.shape);
      PortNeedsHost(a.shape);
      OptionalParts(a.shape);
    }
    if !HasDashDot(a.buffer, a.components, a.hasOpaquePath) && !HasAuthority(a.buffer, a.components) {
      var path := a.buffer[a.components.pathnameStart..QueryStart(a.buffer, a.components)];
      if StartsWith(path, "//") && !a.hasOpaquePath {
        MarkerInserted(a.shape);
        a.buffer := Insert(a.buffer, a.components.pathnameStart, "/.");
        a.components := a.components.(pathnameStart := Add32(a.components.pathnameStart, 2));
        a.shape := a.shape.(marker := true);
      }
    }
  }

  /** `//r` set on `web:/p?q#h`. */
  lemma MarkerTakesSuffixAway()
    ensures var u, parsed := Url("web:", "", "", None, None, "/p", Some("q"), Some("h"), false), Written("//r");
      var v := u.(path := PathOf(parsed));
      && LosesSuffix(u, parsed)
      && Href(u) == "web:/p?q#h"
      && Href(v.(query := None, hash := None)) == "web:/.//r"
      && Href(v) == "web:/.//r?q#h"
  {
    assert "//" <= "//r" by { assert "//r"[..2] == "//"; }
    assert "/p"[1] == 'p' && !("//" <= "/p");
  }

  // Cleaning text.

  lemma {:induction false} RemovedInTurn(a: string, b: string)
    ensures WithoutTabsAndNewlines(a + b) == WithoutTabsAndNewlines(a) + WithoutTabsAndNewlines(b)
  {
    if a == "" {
      assert a + b == b;
    } else {
      assert (a + b)[1..] == a[1..] + b;
      RemovedInTurn(a[1..], b);
    }
  }

  /** Tabs and newlines go, and all else stays. */
  lemma TabsAndNewlinesGo(a: string, c: char, b: string)
    ensures WithoutTabsAndNewlines("") == ""
    ensures WithoutTabsAndNewlines(a + [c] + b) ==
      WithoutTabsAndNewlines(a) + (if c in "\t\n\r" then "" else [c]) + WithoutTabsAndNewlines(b)
  {
    RemovedInTurn(a + [c], b);
    RemovedInTurn(a, [c]);
  }

  lemma {:induction false} NothingToRemove(s: string)
    requires forall k | 0 <= k < |s| :: s[k] != '\t' && s[k] != '\n' && s[k] != '\r'
    ensures WithoutTabsAndNewlines(s) == s
  {
    if s != "" {
      NothingToRemove(s[1..]);
      assert s == [s[0]] + s[1..];
    }
  }

  /** Spaces at the end go, and all else stays. */
  lemma {:induction false} TrailingSpacesGo(s: string)
    ensures WithoutTrailingSpaces(s + " ") == WithoutTrailingSpaces(s)
    ensures s == "" || s[|s| - 1] != ' ' ==> WithoutTrailingSpaces(s) == s
  {
    assert (s + " ")[..|s|] == s;
  }

  /** An apostrophe is encoded in the query of a special URL alone; else the tables agree. */
  lemma ApostropheInSpecialQueries(t: SchemeType, c: char)
    requires c as int < 256
    ensures BitAt(QueryTable(t), c) <==> BitAt(QUERY, c) || (c == '\'' && t != NOT_SPECIAL)
  {
    hide BitAt;
    QueryTableMeetsTheStandard(c);
    SpecialQueryTableMeetsTheStandard(c);
  }

  /** The number that a text begins with is set as the port, if it is one; the default port of the scheme stands for no
      port. While the URL counts as invalid no port is set. */
  lemma NumberIsSet(u: Url, t: SchemeType, n: nat, rest: string, valid: bool)
    requires CanHaveCredentials(u, t)
    requires rest != "" ==> !IsDigit(rest[0])
    requires forall k | 0 <= k < |rest| :: rest[k] != '\t' && rest[k] != '\n' && rest[k] != '\r'
    ensures AcceptsPort(u, t, Decimal(n) + rest, valid) <==> valid && n <= 0xFFFF
    ensures ReadsPort(u, t, Decimal(n) + rest)
    ensures PortAfter(u, t, Decimal(n) + rest, valid) ==
      if !valid || n > 0xFFFF then u.port
      else if (t == HTTP && n == 80) || (t == HTTPS && n == 443) || (t == WS && n == 80)
              || (t == WSS && n == 443) || (t == FTP && n == 21)
      then None else Some(n)
  {
    hide Decimal, FromChars;
    var digits := Decimal(n);
    DecimalValue(n);
    assert IsDigit(digits[0]) && (digits + rest)[0] == digits[0];
    NothingToRemove(digits + rest);
    DigitRunOf(digits, rest);
    assert (digits + rest)[..|digits|] == digits && digits + "" == digits;
    FromCharsReadsDecimal(n, "");
    if n <= 0xFFFF {
      PortIsStored(t, n, "");
    }
  }

  /** A URL that has no host, only an empty one, or names a file takes no port, and text that is no number none either;
      no text at all takes the port away. */
  lemma NoNumberIsSet(u: Url, t: SchemeType, input: string, valid: bool)
    ensures t == FILE || u.host.None? || (u.host.value == "" && u.username == "" && u.password == "") ==>
      PortAfter(u, t, input, valid) == u.port && !AcceptsPort(u, t, input, valid) && !ReadsPort(u, t, input)
    ensures input != "" && input[0] !in "0123456789\t\n\r" ==>
      PortAfter(u, t, input, valid) == u.port && !AcceptsPort(u, t, input, valid) && !ReadsPort(u, t, input)
    ensures CanHaveCredentials(u, t) ==>
      PortAfter(u, t, "", valid) == None && AcceptsPort(u, t, "", valid) && !ReadsPort(u, t, "")
  {
    if input != "" && input[0] !in "0123456789\t\n\r" {
      TenDigits(input[0]);
      RemovedInTurn([input[0]], input[1..]);
      assert input == [input[0]] + input[1..];
    }
  }

  lemma TenDigits(c: char)
    ensures IsDigit(c) ==> c in "0123456789"
    ensures forall k | 0 <= k < 3 :: "\t\n\r"[k] in "0123456789\t\n\r"
  {
    var all := "0123456789\t\n\r";
    assert forall n | 0 <= n < 10 :: all[n] == "0123456789"[n] == '0' + n as char;
    assert all[10] == '\t' && all[11] == '\n' && all[12] == '\r';
    if IsDigit(c) {
      assert c == "0123456789"[c as int - '0' as int];
    }
  }

  /** A `#` or `?` in front of what is set is dropped, once. */
  lemma SetWithOrWithoutMark(u: Url, t: SchemeType, s: string)
    requires IsBytes(s) && s != ""
    ensures IsBytes(WithoutTabsAndNewlines(s)) && IsBytes("#" + s) && IsBytes("?" + s)
    ensures HashAfter(u, "#" + s) == u.(hash := Some(Encode(FRAGMENT, WithoutTabsAndNewlines(s))))
    ensures s[0] != '#' ==> HashAfter(u, s) == HashAfter(u, "#" + s)
    ensures QueryAfter(u, t, "?" + s) == u.(query := Some(Encode(QueryTable(t), WithoutTabsAndNewlines(s))))
    ensures s[0] != '?' ==> QueryAfter(u, t, s) == QueryAfter(u, t, "?" + s)
  {
    hide Encode, WithoutTabsAndNewlines;
    StillBytes(s);
    assert ("#" + s)[1..] == s && ("?" + s)[1..] == s && ("?" + s)[..1] == "?";
  }
}
