/** The checker that the parser asserts around its edits, and reading a record back. */
module UrlValidate {
  import opened CppString
  import opened DigitCount
  import opened Pieces
  import opened UrlRecord
  import opened PortParsing
  import opened UrlLayout
  import opened UrlEdits

  /** `url_components::check_offset_consistency` */
  predicate CheckOffsetConsistency(c: Components) {
    && c.protocolEnd != OMITTED
    && c.usernameEnd != OMITTED && c.protocolEnd <= c.usernameEnd
    && c.hostStart != OMITTED && c.usernameEnd <= c.hostStart
    && (c.port != OMITTED ==>
         && c.port <= 0xFFFF
         && Add32(c.hostStart, Trunc32(FastDigitCount(c.port) + 1)) >= c.hostStart)
    && c.pathnameStart != OMITTED
    && var index := if c.port != OMITTED then Add32(c.hostStart, Trunc32(FastDigitCount(c.port) + 1)) else c.hostStart;
    && index <= c.pathnameStart
    && (c.searchStart != OMITTED ==> c.pathnameStart <= c.searchStart)
    && (c.hashStart != OMITTED ==>
         (if c.searchStart != OMITTED then c.searchStart else c.pathnameStart) <= c.hashStart)
  }

  predicate InBuffer(buffer: string, c: Components) {
    && c.hostEnd != OMITTED
    && c.protocolEnd <= |buffer| && c.usernameEnd <= |buffer| && c.hostStart <= |buffer|
    && c.hostEnd <= |buffer| && c.pathnameStart <= |buffer|
    && (c.searchStart != OMITTED ==> c.searchStart <= |buffer|)
    && (c.hashStart != OMITTED ==> c.hashStart <= |buffer|)
  }

  predicate UsernameEndsWell(buffer: string, c: Components)
    requires InBuffer(buffer, c)
  {
    c.usernameEnd != |buffer| && c.usernameEnd > Add32(c.protocolEnd, 2) ==>
      buffer[c.usernameEnd] == ':' || buffer[c.usernameEnd] == '@'
  }

  predicate HostStartsWell(buffer: string, c: Components)
    requires InBuffer(buffer, c)
  {
    c.hostStart != |buffer| ==>
      if c.hostStart > c.usernameEnd then buffer[c.hostStart] == '@'
      else if c.hostStart == c.usernameEnd && c.hostEnd > c.hostStart then
        if c.hostStart == Add32(c.protocolEnd, 2) then
          CharAt(buffer, c.protocolEnd) == '/'
          && c.protocolEnd + 1 <= |buffer| && CharAt(buffer, c.protocolEnd + 1) == '/'
        else c.hostStart > c.protocolEnd ==> buffer[c.hostStart] == '@'
      else c.hostEnd == c.hostStart
  }

  predicate HostEndsWell(buffer: string, c: Components)
    requires InBuffer(buffer, c)
  {
    c.hostEnd != |buffer| && c.pathnameStart > c.hostEnd ==>
      if LooksLikeDashDot(buffer, c) then
        c.pathnameStart + 1 < |buffer| && buffer[c.pathnameStart..c.pathnameStart + 2] == "//"
      else buffer[c.hostEnd] == ':'
  }

  predicate PathStartsWell(buffer: string, c: Components, hasOpaquePath: bool)
    requires InBuffer(buffer, c)
  {
    c.pathnameStart != |buffer| && c.pathnameStart < c.searchStart
    && c.pathnameStart < c.hashStart && !hasOpaquePath ==>
      buffer[c.pathnameStart] == '/'
  }

  predicate SuffixStartsWell(buffer: string, c: Components)
    requires InBuffer(buffer, c)
  {
    && (c.searchStart != OMITTED ==> CharAt(buffer, c.searchStart) == '?')
    && (c.hashStart != OMITTED ==> CharAt(buffer, c.hashStart) == '#')
  }

  /** `url_aggregator::validate` of a valid URL. */
  predicate Validate(buffer: string, c: Components, hasOpaquePath: bool) {
    && CheckOffsetConsistency(c)
    && InBuffer(buffer, c)
    && (c.protocolEnd > 0 ==> buffer[c.protocolEnd - 1] == ':')
    && UsernameEndsWell(buffer, c)
    && HostStartsWell(buffer, c)
    && HostEndsWell(buffer, c)
    && PathStartsWell(buffer, c, hasOpaquePath)
    && SuffixStartsWell(buffer, c)
  }

  /** What the checker sees of the two bits of a shape. */
  predicate Checked(s: Shape) {
    && (HasCredentials(s.url) ==> s.at)
    && (MarkerSeen(s) ==> StartsWith(s.url.path, "//"))
  }

  lemma ConsistentOffsets(s: Shape)
    requires Sound(s) && Fits(s)
    ensures CheckOffsetConsistency(ComponentsOf(s)) && InBuffer(Text(s), ComponentsOf(s))
  {
    hide Before, Layout, OffsetsOf, Decimal, Add32, FastDigitCount, Text;
    OffsetsOrdered(s);
    OffsetsSpelledOut(s);
    PiecesAt(s);
    if s.url.port.Some? {
      FastDigitCountIsLength(s.url.port.value);
      WrapsNothing(FastDigitCount(s.url.port.value) + 1);
      NoWrap(ComponentsOf(s).hostStart, FastDigitCount(s.url.port.value) + 1);
    }
  }

  lemma ProtocolEndsWell(s: Shape)
    requires Sound(s) && Fits(s)
    ensures var c := ComponentsOf(s);
      0 < c.protocolEnd ==> c.protocolEnd <= |Text(s)| && Text(s)[c.protocolEnd - 1] == ':'
  {
    hide Before, Layout, Decimal;
    PiecesAt(s);
    ReadPiece(Layout(s), PROTOCOL);
    if s.url.protocol != "" {
      assert Text(s)[0..|s.url.protocol|][|s.url.protocol| - 1] == ':';
    }
  }

  /** With credentials, the checker sees an `@` or a `:` behind the user name and an `@` before the host. */
  lemma CredentialsEndWell(s: Shape)
    requires Sound(s) && Fits(s)
    requires HasCredentials(s.url) ==> s.at
    ensures InBuffer(Text(s), ComponentsOf(s))
    ensures UsernameEndsWell(Text(s), ComponentsOf(s)) && HostStartsWell(Text(s), ComponentsOf(s))
  {
    hide Before, Layout, Decimal, Add32, FastDigitCount, StartsWith;
    ConsistentOffsets(s);
    OffsetsOrdered(s);
    OffsetsSpelledOut(s);
    PiecesAt(s);
    NoWrap(ComponentsOf(s).protocolEnd, 2);
    if s.url.password != "" {
      PasswordEdited(s, "");
      assert Text(s)[ComponentsOf(s).usernameEnd..ComponentsOf(s).hostStart][0] == ':';
    }
    if s.url.host.Some? {
      AtRead(s);
      SlashesRead(s);
    }
  }

  lemma SlashesRead(s: Shape)
    requires Sound(s) && Fits(s) && s.url.host.Some?
    ensures var c := ComponentsOf(s);
      && c.protocolEnd + 2 <= |Text(s)|
      && Text(s)[c.protocolEnd] == '/' && Text(s)[c.protocolEnd + 1] == '/'
  {
    hide Before, Layout, Decimal;
    PiecesAt(s);
    OffsetsStepwise(Layout(s));
    ReadPiece(Layout(s), SLASHES);
    var start := |s.url.protocol|;
    assert Text(s)[start..start + 2][0] == '/' && Text(s)[start..start + 2][1] == '/';
  }

  lemma PathReads(s: Shape)
    requires Sound(s) && Fits(s)
    ensures var c := ComponentsOf(s);
      && c.pathnameStart + |s.url.path| <= |Text(s)|
      && Text(s)[c.pathnameStart..c.pathnameStart + |s.url.path|] == s.url.path
      && (s.url.path != "" ==> Text(s)[c.pathnameStart] == s.url.path[0])
      && (StartsWith(s.url.path, "//") ==> Text(s)[c.pathnameStart..c.pathnameStart + 2] == "//")
  {
    hide Before, Layout, Decimal;
    PathEdited(s, "");
    var start, path := OffsetsOf(s).pathnameStart, s.url.path;
    if StartsWith(path, "//") {
      SliceOfSlice(Text(s), start, start + |path|, 2);
      assert path[..2] == "//";
    }
  }

  /** With a marker, the checker sees two slashes at the start of the path. */
  lemma HostEndsAsExpected(s: Shape)
    requires Sound(s) && Fits(s)
    ensures InBuffer(Text(s), ComponentsOf(s))
    ensures HostEndsWell(Text(s), ComponentsOf(s)) <==> (MarkerSeen(s) ==> StartsWith(s.url.path, "//"))
  {
    hide Before, Layout, Decimal, Add32, FastDigitCount, LooksLikeDashDot;
    ConsistentOffsets(s);
    OffsetsOrdered(s);
    PiecesAt(s);
    OffsetsSpelledOut(s);
    DashDotRead(s);
    PathReads(s);
    if MarkerSeen(s) {
      SlashesAtPath(s);
    } else if s.url.port.Some? {
      PortEdited(s, None);
      PortReads(s);
    }
  }

  lemma PortReads(s: Shape)
    requires s.url.port.Some?
    ensures 0 <= OffsetsOf(s).hostEnd < |Text(s)|
    ensures Text(s)[OffsetsOf(s).hostEnd] == ':'
  {
    hide Before, Layout, Decimal;
    PiecesAt(s);
    ReadPiece(Layout(s), PORT);
  }

  lemma SuffixReads(s: Shape)
    requires Sound(s)
    ensures var o := OffsetsOf(s);
      && 0 <= o.searchStart <= o.hashStart <= |Text(s)|
      && (o.searchStart < |Text(s)| ==> Text(s)[o.searchStart] == '?' || Text(s)[o.searchStart] == '#')
      && (s.url.query.Some? ==> o.searchStart < |Text(s)| && Text(s)[o.searchStart] == '?')
      && (s.url.hash.Some? ==> o.hashStart < |Text(s)| && Text(s)[o.hashStart] == '#')
  {
    hide Before, Layout, Decimal;
    var ps := Layout(s);
    PiecesAt(s);
    OffsetsOrdered(s);
    ReadPiece(ps, SEARCH);
    ReadPiece(ps, HASH);
    FirstNonEmpty(ps, SEARCH);
  }

  lemma SlashesAtPath(s: Shape)
    requires Sound(s) && Fits(s) && MarkerSeen(s)
    ensures var start := ComponentsOf(s).pathnameStart;
      start + 1 < |Text(s)| && Text(s)[start..start + 2] == "//" ==> StartsWith(s.url.path, "//")
  {
    hide Before, Layout, Decimal;
    PathReads(s);
    OffsetsSpelledOut(s);
    SuffixReads(s);
    var start, path := ComponentsOf(s).pathnameStart, s.url.path;
    if start + 1 < |Text(s)| && Text(s)[start..start + 2] == "//" {
      assert Text(s)[start] == Text(s)[start..start + 2][0] == '/';
      assert Text(s)[start + 1] == Text(s)[start..start + 2][1] == '/';
      if |path| >= 2 {
        assert path[..2] == Text(s)[start..start + 2];
      }
    }
  }

  lemma PathAndSuffixStartWell(s: Shape)
    requires Sound(s) && Fits(s)
    ensures InBuffer(Text(s), ComponentsOf(s))
    ensures PathStartsWell(Text(s), ComponentsOf(s), s.url.hasOpaquePath)
    ensures SuffixStartsWell(Text(s), ComponentsOf(s))
  {
    hide Before, Layout, Decimal, Add32, FastDigitCount;
    ConsistentOffsets(s);
    PiecesAt(s);
    OffsetsSpelledOut(s);
    PathReads(s);
    SuffixReads(s);
  }

  /** Every buffer that holds a sound shape with the expected `@` and no stray marker passes the checker. */
  lemma CheckedValidates(s: Shape)
    requires Sound(s) && Fits(s) && Checked(s)
    ensures Validate(Text(s), ComponentsOf(s), s.url.hasOpaquePath)
  {
    hide Before, Layout, Decimal, Add32, FastDigitCount, OffsetsOf, ComponentsOf, Text, Sound, Fits;
    ConsistentOffsets(s);
    ProtocolEndsWell(s);
    CredentialsEndWell(s);
    HostEndsAsExpected(s);
    PathAndSuffixStartWell(s);
  }

  /** The checker misses nothing else: when the host is present, not empty and does not start with a
      colon, it accepts a buffer only if credentials are followed by an `@`. */
  lemma ValidatedIsChecked(s: Shape)
    requires Sound(s) && Fits(s)
    requires s.url.host.Some? ==> s.url.host.value != "" && s.url.host.value[0] != ':'
    requires Validate(Text(s), ComponentsOf(s), s.url.hasOpaquePath)
    ensures Checked(s)
  {
    hide Before, Layout, Decimal, Add32, FastDigitCount, OffsetsOf, Text, Fits;
    HostEndsAsExpected(s);
    if HasCredentials(s.url) && !s.at {
      HostReads(s);
    }
  }

  lemma HostReads(s: Shape)
    requires Sound(s) && Fits(s) && !s.at && s.url.host.Some? && s.url.host.value != ""
    ensures var c := ComponentsOf(s);
      && c.hostStart < |Text(s)| && Text(s)[c.hostStart] == s.url.host.value[0] != '@'
      && (s.url.password != "" ==> c.hostStart > c.usernameEnd)
      && (s.url.password == "" ==> c.hostStart == c.usernameEnd)
      && Add32(c.protocolEnd, 2) == c.usernameEnd - |s.url.username|
  {
    hide Before, Layout, Decimal, Add32;
    PiecesAt(s);
    OffsetsSpelledOut(s);
    OffsetsStepwise(Layout(s));
    NoWrap(ComponentsOf(s).protocolEnd, 2);
    ReadPiece(Layout(s), HOST);
  }

  /** The checker sees every delimiter: a buffer in which another byte stands in the place of one does not pass. Between
      user name and host it takes a colon for an `@`. */
  lemma DelimitersAreSeen(s: Shape, p: nat, x: char)
    requires Sound(s) && Fits(s) && p < |Text(s)|
    requires Validate(Text(s)[p := x], ComponentsOf(s), s.url.hasOpaquePath)
    ensures var c := ComponentsOf(s);
      && (p == c.protocolEnd - 1 ==> x == ':')
      && (p == c.usernameEnd && s.url.username != "" && s.url.host.Some? ==> x == ':' || x == '@')
      && (p == c.hostStart && c.usernameEnd < c.hostStart ==> x == '@')
      && (p == c.hostEnd && s.url.port.Some? ==> x == ':')
      && (p == c.pathnameStart && s.url.path != "" && !s.url.hasOpaquePath ==> x == '/')
      && (p == c.searchStart ==> x == '?')
      && (p == c.hashStart ==> x == '#')
  {
    hide Text, Layout, Decimal, OffsetsOf, Validate;
    ChecksOf(Text(s)[p := x], ComponentsOf(s), s.url.hasOpaquePath);
    OffsetsOrdered(s);
    DelimitersPlaced(s);
    if s.url.port.Some? {
      PortIsNoDot(s);
    }
  }

  lemma ChecksOf(buffer: string, c: Components, hasOpaquePath: bool)
    requires Validate(buffer, c, hasOpaquePath)
    ensures InBuffer(buffer, c)
    ensures c.protocolEnd > 0 ==> buffer[c.protocolEnd - 1] == ':'
    ensures UsernameEndsWell(buffer, c) && HostStartsWell(buffer, c) && HostEndsWell(buffer, c)
    ensures PathStartsWell(buffer, c, hasOpaquePath) && SuffixStartsWell(buffer, c)
  {
  }

  lemma DelimitersPlaced(s: Shape)
    requires Sound(s) && Fits(s)
    ensures var c := ComponentsOf(s);
      && (s.url.username != "" && s.url.host.Some? ==> Add32(c.protocolEnd, 2) < c.usernameEnd)
      && (s.url.path != "" ==> c.pathnameStart < c.searchStart && c.pathnameStart < c.hashStart)
  {
    hide Text, Layout, Decimal, OffsetsOf;
    OffsetsOrdered(s);
    OffsetsSpelledOut(s);
    PiecesAt(s);
  }

  lemma PortIsNoDot(s: Shape)
    requires Sound(s) && Fits(s) && s.url.port.Some?
    ensures var c := ComponentsOf(s);
      c.hostEnd + 1 < |Text(s)| && Text(s)[c.hostEnd + 1] != '.' && c.hostEnd + 2 <= c.pathnameStart
  {
    hide Before, Layout, Decimal, Concat, Offset;
    var ps := Layout(s);
    OffsetsSpelledOut(s);
    PiecesAt(s);
    FirstIsDigit(s.url.port.value);
    assert ps[PORT] == ":" + Decimal(s.url.port.value) && OffsetsOf(s).hostEnd == Offset(ps, PORT);
    hide OffsetsOf, WellFormed;
    ReadPiece(ps, PORT);
    SecondOf(Text(s), Offset(ps, PORT), Offset(ps, PORT + 1), ":", Decimal(s.url.port.value));
  }

  lemma FirstIsDigit(n: nat)
    ensures Decimal(n) != "" && Decimal(n)[0] != '.'
  {
    DecimalValue(n);
    assert IsDigit(Decimal(n)[0]);
  }

  lemma SecondOf(text: string, start: nat, end: nat, mark: string, rest: string)
    requires start <= end <= |text| && text[start..end] == mark + rest && |mark| == 1 && rest != ""
    ensures start + 1 < |text| && text[start + 1] == rest[0]
  {
    assert text[start..end][1] == rest[0];
  }
}
