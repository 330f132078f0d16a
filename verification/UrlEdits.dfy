/** What each edit of the flat buffer does to the shape it holds, and to the bytes and offsets. */
module UrlEdits {
  import opened CppString
  import opened Pieces
  import opened UrlRecord
  import opened UrlLayout
  import opened PortParsing

  /** The record once an authority is present: a missing host becomes the empty host. */
  function WithAuthority(u: Url): Url {
    if u.host.None? then u.(host := Some("")) else u
  }

  function AddSlashes(s: Shape): Shape {
    s.(url := WithAuthority(s.url))
  }

  function SetUsername(s: Shape, input: string): Shape {
    Shape(
      WithAuthority(s.url).(username := input),
      input != "" || (s.at && s.url.password != ""),
      s.marker)
  }

  /** The `@` is placed only if the user name just added is not as long as the host: the code
      compares the new start of the host with its old end. */
  function AppendUsername(s: Shape, input: string): Shape {
    var url := WithAuthority(s.url).(username := s.url.username + input);
    Shape(url, s.at || (input != "" && |input| != |url.host.value|), s.marker)
  }

  function ClearPassword(s: Shape): Shape {
    s.(url := s.url.(password := ""))
  }

  function SetPassword(s: Shape, input: string): Shape {
    var url := WithAuthority(s.url).(password := input);
    Shape(url, input != "" || (s.at && s.url.username != ""), s.marker)
  }

  function AppendPassword(s: Shape, input: string): Shape {
    var url := WithAuthority(s.url).(password := s.url.password + input);
    Shape(url, s.at || input != "", s.marker)
  }

  function SetHostname(s: Shape, input: string): Shape {
    Shape(s.url.(host := Some(input)), HasCredentials(s.url), s.marker)
  }

  function ClearHostname(s: Shape): Shape {
    if s.url.host.Some? then s.(url := s.url.(host := Some(""))) else s
  }

  function HostToBaseHost(s: Shape, input: string, schemeType: SchemeType): Shape {
    if input == "" && schemeType == NOT_SPECIAL then
      if s.url.host.Some? then ClearHostname(s)
      else if s.marker then AddSlashes(s).(marker := false)
      else s
    else SetHostname(s, input)
  }

  lemma PortNeedsHost(s: Shape)
    requires Sound(s)
    ensures s.url.port.Some? ==> s.url.host.Some?
  {
  }

  /** A port is written over everything between the host and the path, so it takes a marker along with
      the old port, but goes in front of a marker where there was no port. */
  function SetPort(s: Shape, port: Option<nat>): Shape {
    Shape(s.url.(port := port), s.at, MarkerSeen(s))
  }

  function SetPathname(s: Shape, input: string): Shape {
    Shape(
      s.url.(path := input),
      s.at,
      if s.url.port.Some? then s.marker
      else StartsWith(input, "//") && (s.marker || NeedsMarker(s.url.(path := input))))
  }

  /** The code puts a marker before a path that has a query or a fragment behind it; it then moves
      the offset of the path but not those of the query and the fragment. */
  predicate PutsMarkerBeforeSuffix(s: Shape, input: string) {
    && !s.marker
    && NeedsMarker(s.url.(path := input))
    && (s.url.query.Some? || s.url.hash.Some?)
  }

  /** With the marker put in, the old path still lies behind it. */
  predicate MarkerFits(s: Shape, input: string) {
    NeedsMarker(s.url.(path := input)) ==> Fits(s.(marker := true))
  }

  function AppendPathname(s: Shape, input: string): Shape {
    s.(url := s.url.(path := s.url.path + input))
  }

  function ClearPathname(s: Shape): Shape {
    s.(url := s.url.(path := ""), marker := s.marker && s.url.port.Some?)
  }

  function SetSearch(s: Shape, query: Option<string>): Shape {
    s.(url := s.url.(query := query))
  }

  function SetHash(s: Shape, hash: Option<string>): Shape {
    s.(url := s.url.(hash := hash))
  }

  function SetProtocol(s: Shape, protocol: string): Shape {
    s.(url := s.url.(protocol := protocol))
  }

  function AtText(at: bool): string {
    if at then "@" else ""
  }

  function MarkerText(marker: bool): string {
    if marker then "/." else ""
  }

  // Each edit below replaces one piece.

  lemma SlashesLayout(s: Shape)
    requires s.url.host.None?
    ensures Layout(AddSlashes(s)) == Layout(s)[SLASHES := "//"]
  {
    hide Decimal;
  }

  lemma ProtocolLayout(s: Shape, x: string)
    ensures Layout(SetProtocol(s, x)) == Layout(s)[PROTOCOL := x]
  {
    hide Decimal;
  }

  lemma UsernameLayout(s: Shape, x: string)
    ensures Layout(s.(url := s.url.(username := x))) == Layout(s)[USERNAME := x]
  {
    hide Decimal;
  }

  lemma PasswordLayout(s: Shape, x: string)
    ensures Layout(s.(url := s.url.(password := x))) == Layout(s)[PASSWORD := PasswordText(x)]
  {
    hide Decimal;
  }

  lemma AtLayout(s: Shape, at: bool)
    ensures Layout(s.(at := at)) == Layout(s)[AT := AtText(at)]
  {
    hide Decimal;
  }

  lemma HostLayout(s: Shape, x: string)
    requires s.url.host.Some?
    ensures Layout(s.(url := s.url.(host := Some(x)))) == Layout(s)[HOST := x]
  {
    hide Decimal;
  }

  lemma PortLayout(s: Shape, port: Option<nat>)
    ensures Layout(s.(url := s.url.(port := port))) == Layout(s)[PORT := PortText(port)]
  {
    hide Decimal;
  }

  lemma MarkerLayout(s: Shape, marker: bool)
    ensures Layout(s.(marker := marker)) == Layout(s)[MARKER := MarkerText(marker)]
  {
    hide Decimal;
  }

  lemma PathLayout(s: Shape, x: string)
    ensures Layout(s.(url := s.url.(path := x))) == Layout(s)[PATH := x]
  {
    hide Decimal;
  }

  lemma SearchLayout(s: Shape, query: Option<string>)
    ensures Layout(SetSearch(s, query)) == Layout(s)[SEARCH := SearchText(query)]
  {
    hide Decimal;
  }

  lemma HashLayout(s: Shape, hash: Option<string>)
    ensures Layout(SetHash(s, hash)) == Layout(s)[HASH := HashText(hash)]
  {
    hide Decimal;
  }

  // Edits of one piece: where the bytes change and how the offsets move.

  lemma SlashesEdited(s: Shape)
    requires s.url.host.None?
    ensures var o, t := OffsetsOf(s), AddSlashes(s);
      && 0 <= o.protocolEnd <= |Text(s)|
      && Text(t) == Insert(Text(s), o.protocolEnd, "//")
      && OffsetsOf(t) == Moved(o, SLASHES, 2)
  {
    hide Before, Layout, Decimal;
    SlashesLayout(s);
    PiecesAt(s);
    PieceEdited(s, AddSlashes(s), SLASHES, "//");
  }

  lemma ProtocolEdited(s: Shape, x: string)
    ensures var o, t := OffsetsOf(s), SetProtocol(s, x);
      && o.protocolEnd == |s.url.protocol| <= |Text(s)|
      && Text(t) == Splice(Text(s), 0, o.protocolEnd, x)
      && OffsetsOf(t) == Moved(o, PROTOCOL, |x| - |s.url.protocol|)
  {
    hide Before, Splice, Layout, Decimal;
    ProtocolLayout(s, x);
    PiecesAt(s);
    PieceEdited(s, SetProtocol(s, x), PROTOCOL, x);
    OffsetsStepwise(Layout(s));
  }

  lemma UsernameEdited(s: Shape, x: string)
    requires s.url.host.Some?
    ensures var o, t := OffsetsOf(s), s.(url := s.url.(username := x));
      && o.usernameEnd - (o.protocolEnd + 2) == |s.url.username|
      && 0 <= o.protocolEnd + 2 <= o.usernameEnd <= |Text(s)|
      && Text(s)[o.protocolEnd + 2..o.usernameEnd] == s.url.username
      && Text(t) == Splice(Text(s), o.protocolEnd + 2, o.usernameEnd, x)
      && OffsetsOf(t) == Moved(o, USERNAME, |x| - |s.url.username|)
  {
    hide Before, Splice, Layout, Decimal;
    var t := s.(url := s.url.(username := x));
    UsernameLayout(s, x);
    PiecesAt(s);
    PieceEdited(s, t, USERNAME, x);
    ReadPiece(Layout(s), SLASHES);
    ReadPiece(Layout(s), USERNAME);
  }

  lemma PasswordEdited(s: Shape, x: string)
    ensures var o, t := OffsetsOf(s), s.(url := s.url.(password := x));
      && o.hostStart - o.usernameEnd == |PasswordText(s.url.password)|
      && 0 <= o.usernameEnd <= o.hostStart <= |Text(s)|
      && Text(s)[o.usernameEnd..o.hostStart] == PasswordText(s.url.password)
      && Text(t) == Splice(Text(s), o.usernameEnd, o.hostStart, PasswordText(x))
      && OffsetsOf(t) == Moved(o, PASSWORD, |PasswordText(x)| - |PasswordText(s.url.password)|)
  {
    hide Before, Splice, Layout, Decimal;
    var t := s.(url := s.url.(password := x));
    PasswordLayout(s, x);
    PiecesAt(s);
    PieceEdited(s, t, PASSWORD, PasswordText(x));
    ReadPiece(Layout(s), PASSWORD);
  }

  lemma AtEdited(s: Shape, at: bool)
    ensures var o, t := OffsetsOf(s), s.(at := at);
      && 0 <= o.hostStart <= o.hostStart + (if s.at then 1 else 0) <= |Text(s)|
      && Text(t) == (if at && !s.at then Insert(Text(s), o.hostStart, "@")
                     else if s.at && !at then Erase(Text(s), o.hostStart, 1)
                     else Text(s))
      && OffsetsOf(t) == Moved(o, AT, (if at then 1 else 0) - (if s.at then 1 else 0))
  {
    hide Before, Layout, Decimal, Insert, Erase, Splice;
    if at == s.at {
      assert s.(at := at) == s;
      OffsetsOrdered(s);
      PiecesAt(s);
      PieceEdited(s, s, AT, AtText(at)) by {
        AtLayout(s, at);
      }
      return;
    }
    AtLayout(s, at);
    PiecesAt(s);
    PieceEdited(s, s.(at := at), AT, AtText(at));
    if at {
      InsertIsSplice(Text(s), OffsetsOf(s).hostStart, "@");
    } else {
      EraseIsSplice(Text(s), OffsetsOf(s).hostStart, 1);
    }
  }

  lemma HostEdited(s: Shape, x: string)
    requires s.url.host.Some?
    ensures var o, t := OffsetsOf(s), s.(url := s.url.(host := Some(x)));
      && o.hostEnd - o.hostStart == (if s.at then 1 else 0) + |s.url.host.value|
      && 0 <= o.hostStart && o.hostEnd <= |Text(s)|
      && Text(t) == Splice(Text(s), o.hostEnd - |s.url.host.value|, o.hostEnd, x)
      && OffsetsOf(t) == Moved(o, HOST, |x| - |s.url.host.value|)
  {
    hide Before, Splice, Layout, Decimal;
    var t := s.(url := s.url.(host := Some(x)));
    HostLayout(s, x);
    PiecesAt(s);
    PieceEdited(s, t, HOST, x);
    OffsetsStepwise(Layout(s));
  }

  /** The port alone, in front of a marker or not. */
  lemma PortPieceEdited(s: Shape, port: Option<nat>)
    ensures var o, t := OffsetsOf(s), s.(url := s.url.(port := port));
      && o.pathnameStart - o.hostEnd == |PortText(s.url.port)| + (if s.marker then 2 else 0)
      && 0 <= o.hostEnd <= o.pathnameStart <= |Text(s)|
      && Text(t) == Splice(Text(s), o.hostEnd, o.hostEnd + |PortText(s.url.port)|, PortText(port))
      && OffsetsOf(t) == Moved(o, PORT, |PortText(port)| - |PortText(s.url.port)|)
  {
    hide Before, Splice, Layout, Decimal;
    var t := s.(url := s.url.(port := port));
    OffsetsOrdered(s);
    PortLayout(s, port);
    PiecesAt(s);
    PieceEdited(s, t, PORT, PortText(port));
    OffsetsStepwise(Layout(s));
  }

  /** Where a new port ends the old text. */
  function PortEnd(s: Shape, o: Offsets): int {
    if s.url.port.Some? then o.pathnameStart else o.hostEnd
  }

  lemma PortEdited(s: Shape, port: Option<nat>)
    ensures var o, t := OffsetsOf(s), SetPort(s, port);
      var delta := |PortText(port)| - (PortEnd(s, o) - o.hostEnd);
      && 0 <= o.hostEnd <= PortEnd(s, o) <= o.pathnameStart <= |Text(s)|
      && Text(t) == Splice(Text(s), o.hostEnd, PortEnd(s, o), PortText(port))
      && OffsetsOf(t) == Moved(o, PORT, delta)
  {
    hide Before, Splice, Layout, Decimal, Text, OffsetsOf;
    var m := s.(marker := MarkerSeen(s));
    MarkerEdited(s, MarkerSeen(s));
    PortPieceEdited(s, port);
    PortPieceEdited(m, port);
    assert SetPort(s, port) == m.(url := m.url.(port := port));
    if s.marker && !m.marker {
      var o := OffsetsOf(s);
      EraseBehindSplice(Text(s), o.hostEnd, o.pathnameStart, PortText(port));
    }
  }

  lemma EraseBehindSplice(text: string, start: nat, end: nat, x: string)
    requires start + 2 <= end <= |text|
    ensures Splice(Erase(text, end - 2, 2), start, end - 2, x) == Splice(text, start, end, x)
  {
  }

  lemma MarkerEdited(s: Shape, marker: bool)
    ensures var o, t := OffsetsOf(s), s.(marker := marker);
      && (if s.marker then 2 else 0) <= o.pathnameStart <= |Text(s)|
      && (s.url.port.None? ==> o.pathnameStart == o.hostEnd + (if s.marker then 2 else 0))
      && Text(t) == (if marker && !s.marker then Insert(Text(s), o.pathnameStart, "/.")
                     else if s.marker && !marker then Erase(Text(s), o.pathnameStart - 2, 2)
                     else Text(s))
      && OffsetsOf(t) == Moved(o, MARKER, (if marker then 2 else 0) - (if s.marker then 2 else 0))
  {
    hide Before, Layout, Decimal;
    var t, x := s.(marker := marker), MarkerText(marker);
    MarkerLayout(s, marker);
    PiecesAt(s);
    PieceEdited(s, t, MARKER, x);
    OffsetsStepwise(Layout(s));
  }

  lemma PathEdited(s: Shape, x: string)
    ensures var o, t := OffsetsOf(s), s.(url := s.url.(path := x));
      && o.searchStart - o.pathnameStart == |s.url.path|
      && 0 <= o.pathnameStart <= o.searchStart <= |Text(s)|
      && Text(s)[o.pathnameStart..o.searchStart] == s.url.path
      && Text(t) == Splice(Text(s), o.pathnameStart, o.searchStart, x)
      && OffsetsOf(t) == Moved(o, PATH, |x| - |s.url.path|)
  {
    hide Before, Splice, Layout, Decimal;
    var t := s.(url := s.url.(path := x));
    PathLayout(s, x);
    PiecesAt(s);
    PieceEdited(s, t, PATH, x);
    ReadPiece(Layout(s), PATH);
  }

  lemma SearchEdited(s: Shape, query: Option<string>)
    ensures var o, t := OffsetsOf(s), SetSearch(s, query);
      && o.hashStart - o.searchStart == |SearchText(s.url.query)|
      && 0 <= o.searchStart <= o.hashStart <= |Text(s)|
      && Text(s)[o.searchStart..o.hashStart] == SearchText(s.url.query)
      && Text(t) == Splice(Text(s), o.searchStart, o.hashStart, SearchText(query))
      && OffsetsOf(t) == Moved(o, SEARCH, |SearchText(query)| - |SearchText(s.url.query)|)
  {
    hide Before, Splice, Layout, Decimal;
    var t := SetSearch(s, query);
    SearchLayout(s, query);
    PiecesAt(s);
    PieceEdited(s, t, SEARCH, SearchText(query));
    ReadPiece(Layout(s), SEARCH);
  }

  lemma HashEdited(s: Shape, hash: Option<string>)
    ensures var o, t := OffsetsOf(s), SetHash(s, hash);
      && |Text(s)| - o.hashStart == |HashText(s.url.hash)|
      && 0 <= o.hashStart <= |Text(s)|
      && Text(t) == Splice(Text(s), o.hashStart, |Text(s)|, HashText(hash))
      && OffsetsOf(t) == Moved(o, HASH, |HashText(hash)| - |HashText(s.url.hash)|)
  {
    hide Before, Splice, Layout, Decimal;
    var t := SetHash(s, hash);
    HashLayout(s, hash);
    PiecesAt(s);
    PieceEdited(s, t, HASH, HashText(hash));
    OffsetsStepwise(Layout(s));
    assert |Text(s)| == Offset(Layout(s), 11);
  }

  // Edits as the parser performs them, on one buffer and eight wrapped offsets.

  predicate SameOptionalParts(s: Shape, t: Shape) {
    && s.url.query.Some? == t.url.query.Some?
    && s.url.hash.Some? == t.url.hash.Some?
  }

  function PortOffset(s: Shape): uint32
    requires Sound(s)
  {
    if s.url.port.Some? then s.url.port.value else OMITTED
  }

  /** When every offset has grown by a true delta, adding the wrapped delta gives the new offset. */
  lemma ComponentsShifted(s: Shape, t: Shape, user: int, head: int, host: int, path: int, rest: int)
    requires Sound(s) && Fits(s) && Sound(t) && Fits(t)
    requires SameOptionalParts(s, t)
    requires var o := OffsetsOf(s);
      OffsetsOf(t) == Offsets(o.protocolEnd, o.usernameEnd + user, o.hostStart + head, o.hostEnd + host,
                              o.pathnameStart + path, o.searchStart + rest, o.hashStart + rest, o.total + rest)
    ensures ComponentsOf(t) ==
      Shift(ComponentsOf(s), Trunc32(user), Trunc32(head), Trunc32(host), Trunc32(path), Trunc32(rest))
        .(port := PortOffset(t))
  {
    hide Before, Layout, OffsetsOf, Add32, Trunc32, Sound;
    OffsetsOrdered(s);
    OffsetsOrdered(t);
    ShiftExact(user);
    ShiftExact(head);
    ShiftExact(host);
    ShiftExact(path);
    ShiftExact(rest);
  }

  lemma AddSlashesEffect(s: Shape)
    requires Sound(s) && Fits(s) && s.url.host.None? && !s.url.hasOpaquePath
    requires Fits(AddSlashes(s))
    ensures var c, t := ComponentsOf(s), AddSlashes(s);
      && Sound(t)
      && c.protocolEnd <= |Text(s)|
      && Text(t) == Insert(Text(s), c.protocolEnd, "//")
      && ComponentsOf(t) == Shift(c, 2, 2, 2, 2, 2)
  {
    hide Before, Layout, OffsetsOf, Insert, Add32;
    SlashesEdited(s);
    WrapsNothing(2);
    ComponentsShifted(s, AddSlashes(s), 2, 2, 2, 2, 2);
  }

  /** Adding the slashes cannot overflow when the edited URL, which has them too, still fits. */
  lemma AddSlashesFits(s: Shape, t: Shape)
    requires Sound(s) && Fits(s) && Fits(t)
    requires t.url == WithAuthority(s.url).(
      username := t.url.username, password := t.url.password, host := t.url.host)
    requires t.url.host.Some? && t.marker == s.marker
    ensures Fits(AddSlashes(s))
  {
    hide Before, Concat, Layout, OffsetsOf, Decimal;
    var a := AddSlashes(s);
    if s.url.host.None? {
      PiecesAt(a);
      PiecesAt(t);
      OffsetsOrdered(a);
      OffsetsOrdered(t);
      OffsetsSpelledOut(a);
      OffsetsSpelledOut(t);
    }
  }

  function AtGrowth(s: Shape, t: Shape): int {
    (if t.at then 1 else 0) - (if s.at then 1 else 0)
  }

  /** An `@` is added or removed where the host starts. */
  lemma AtBytes(m: Shape, at: bool)
    ensures 0 <= OffsetsOf(m).hostStart <= |Text(m)|
    ensures at == m.at ==> Text(m.(at := at)) == Text(m)
    ensures at && !m.at ==> Text(m.(at := at)) == Insert(Text(m), OffsetsOf(m).hostStart, "@")
    ensures !at && m.at ==> Text(m.(at := at)) == Erase(Text(m), OffsetsOf(m).hostStart, 1)
  {
    AtEdited(m, at);
  }

  // The user name.

  lemma UsernameOffsets(s: Shape, m: Shape, t: Shape)
    requires Sound(s) && Fits(s) && s.url.host.Some? && Sound(t) && Fits(t)
    requires m == s.(url := s.url.(username := m.url.username)) && t == m.(at := t.at)
    ensures var c, o, delta := ComponentsOf(s), OffsetsOf(m), |m.url.username| - |s.url.username|;
      var grown := delta + AtGrowth(s, t);
      && |m.url.username| < OMITTED
      && o.hostStart == c.hostStart + delta
      && 0 <= o.hostStart == Add32(c.hostStart, Trunc32(delta)) <= |Text(m)|
      && ComponentsOf(t) ==
           Shift(c, Trunc32(delta), Trunc32(delta), Trunc32(grown), Trunc32(grown), Trunc32(grown))
  {
    hide Before, Layout, OffsetsOf, Insert, Erase, Splice, Add32, Trunc32;
    var delta := |m.url.username| - |s.url.username|;
    UsernameEdited(s, m.url.username);
    AtEdited(m, t.at);
    OffsetsOrdered(s);
    OffsetsOrdered(m);
    OffsetsOrdered(t);
    ShiftExact(delta);
    ComponentsShifted(s, t, delta, delta, delta + AtGrowth(s, t), delta + AtGrowth(s, t), delta + AtGrowth(s, t));
  }

  lemma UsernameBytes(s: Shape, input: string)
    requires Sound(s) && Fits(s) && s.url.host.Some?
    requires Fits(SetUsername(s, input))
    ensures Sound(SetUsername(s, input))
    ensures var c, m := ComponentsOf(s), s.(url := s.url.(username := input));
      && |s.url.username| == c.usernameEnd - (c.protocolEnd + 2)
      && c.protocolEnd + 2 <= c.usernameEnd <= |Text(s)|
      && Text(m) == Splice(Text(s), c.protocolEnd + 2, c.usernameEnd, input)
  {
    hide Before, Layout, OffsetsOf, Splice;
    UsernameEdited(s, input);
  }

  lemma AppendUsernameBytes(s: Shape, input: string)
    requires Sound(s) && Fits(s) && s.url.host.Some?
    requires Fits(AppendUsername(s, input))
    ensures Sound(AppendUsername(s, input)) && Sound(s.(url := s.url.(username := s.url.username + input)))
    ensures var c, m := ComponentsOf(s), s.(url := s.url.(username := s.url.username + input));
      && c.usernameEnd <= |Text(s)|
      && Text(m) == Insert(Text(s), c.usernameEnd, input)
      && c.hostEnd == c.hostStart + (if s.at then 1 else 0) + |s.url.host.value|
  {
    hide Before, Layout, OffsetsOf, Splice;
    var o := OffsetsOf(s);
    UsernameEdited(s, s.url.username + input);
    HostEdited(s, "");
    SpliceKeepsPrefix(Text(s), o.protocolEnd + 2, o.usernameEnd, |s.url.username|, input);
    assert Splice(Text(s), o.usernameEnd, o.usernameEnd, input) == Insert(Text(s), o.usernameEnd, input) by {
      InsertIsSplice(Text(s), o.usernameEnd, input);
    }
  }

  // The password.

  lemma PasswordOffsets(s: Shape, m: Shape, t: Shape)
    requires Sound(s) && Fits(s) && s.url.host.Some? && Sound(t) && Fits(t)
    requires m == s.(url := s.url.(password := m.url.password)) && t == m.(at := t.at)
    ensures var c, o := ComponentsOf(s), OffsetsOf(m);
      var delta := |PasswordText(m.url.password)| - |PasswordText(s.url.password)|;
      var grown := delta + AtGrowth(s, t);
      && |m.url.password| < OMITTED
      && o.hostStart == c.hostStart + delta
      && 0 <= o.hostStart == Add32(c.hostStart, Trunc32(delta)) <= |Text(m)|
      && ComponentsOf(t) == Shift(c, 0, Trunc32(delta), Trunc32(grown), Trunc32(grown), Trunc32(grown))
  {
    hide Before, Layout, OffsetsOf, Insert, Erase, Splice, Add32, Trunc32;
    var delta := |PasswordText(m.url.password)| - |PasswordText(s.url.password)|;
    PasswordEdited(s, m.url.password);
    AtEdited(m, t.at);
    OffsetsOrdered(s);
    OffsetsOrdered(m);
    OffsetsOrdered(t);
    ShiftExact(delta);
    WrapsNothing(0);
    ComponentsShifted(s, t, 0, delta, delta + AtGrowth(s, t), delta + AtGrowth(s, t), delta + AtGrowth(s, t));
  }

  lemma PasswordBytes(s: Shape, input: string)
    requires Sound(s) && Fits(s)
    ensures var c, m := ComponentsOf(s), s.(url := s.url.(password := input));
      && c.hostStart - c.usernameEnd == |PasswordText(s.url.password)|
      && c.usernameEnd <= c.hostStart <= |Text(s)|
      && Text(s)[c.usernameEnd..c.hostStart] == PasswordText(s.url.password)
      && Text(m) == Splice(Text(s), c.usernameEnd, c.hostStart, PasswordText(input))
  {
    hide Before, Layout, OffsetsOf, Splice;
    PasswordEdited(s, input);
  }

  /** The colon of an old password serves the new one. */
  lemma PasswordKeepsColon(s: Shape, input: string)
    requires Sound(s) && Fits(s) && s.url.password != "" && input != ""
    ensures var c, m := ComponentsOf(s), s.(url := s.url.(password := input));
      c.usernameEnd + 1 <= c.hostStart <= |Text(s)| && Text(m) == Splice(Text(s), c.usernameEnd + 1, c.hostStart, input)
  {
    hide Before, Layout, OffsetsOf, Splice, Sound, Fits, Text, ComponentsOf;
    var c, text := ComponentsOf(s), Text(s);
    PasswordBytes(s, input);
    SliceOfSlice(text, c.usernameEnd, c.hostStart, 1);
    SpliceKeepsPrefix(text, c.usernameEnd, c.hostStart, 1, input);
  }

  /** A longer password keeps the old one and its colon. */
  lemma PasswordKeepsAll(s: Shape, input: string)
    requires Sound(s) && Fits(s) && s.url.password != ""
    ensures var c, m := ComponentsOf(s), s.(url := s.url.(password := s.url.password + input));
      c.hostStart <= |Text(s)| && Text(m) == Splice(Text(s), c.hostStart, c.hostStart, input)
  {
    hide Before, Layout, OffsetsOf, Splice, Sound, Fits, Text, ComponentsOf;
    var c, text, kept := ComponentsOf(s), Text(s), |PasswordText(s.url.password)|;
    PasswordBytes(s, s.url.password + input);
    assert PasswordText(s.url.password + input) == text[c.usernameEnd..c.usernameEnd + kept] + input;
    SpliceKeepsPrefix(text, c.usernameEnd, c.hostStart, kept, input);
  }

  /** The code's own steps lead to the new bytes and the wrapped change in length. */
  lemma PasswordRewritten(s: Shape, input: string)
    requires Sound(s) && Fits(s) && input != "" && |input| < OMITTED
    ensures var c, m, text := ComponentsOf(s), s.(url := s.url.(password := input)), Text(s);
      var delta := |PasswordText(input)| - |PasswordText(s.url.password)|;
      && c.usernameEnd <= c.hostStart <= |text|
      && (s.url.password != "" ==>
           var currentLength := Sub32(Sub32(c.hostStart, c.usernameEnd), 1);
           && c.usernameEnd + 1 <= |text|
           && c.usernameEnd + 1 <= |Erase(text, c.usernameEnd + 1, currentLength)|
           && Text(m) == Insert(Erase(text, c.usernameEnd + 1, currentLength), c.usernameEnd + 1, input)
           && Sub32(Trunc32(|input|), currentLength) == Trunc32(delta))
      && (s.url.password == "" ==>
           && c.usernameEnd + 1 <= |Insert(text, c.usernameEnd, ":")|
           && Text(m) == Insert(Insert(text, c.usernameEnd, ":"), c.usernameEnd + 1, input)
           && Add32(Trunc32(|input|), 1) == Trunc32(delta))
  {
    hide Add32, Sub32, Trunc32, Insert, Erase, Splice, Sound, Fits, Text, OffsetsOf;
    var c, text := ComponentsOf(s), Text(s);
    PasswordBytes(s, input);
    if s.url.password != "" {
      PasswordKeepsColon(s, input);
      var currentLength := c.hostStart - c.usernameEnd - 1;
      NoWrap(c.hostStart, c.usernameEnd);
      NoWrap(c.hostStart - c.usernameEnd, 1);
      WrapsNothing(currentLength);
      DeltaSum(|input|, currentLength);
      EraseThenInsert(text, c.usernameEnd + 1, currentLength, input);
    } else {
      DeltaStep(|input|);
      InsertTwice(text, c.usernameEnd, ":", input);
    }
  }

  lemma PasswordAppended(s: Shape, input: string)
    requires Sound(s) && Fits(s) && input != ""
    ensures var c, text := ComponentsOf(s), Text(s);
      var m := s.(url := s.url.(password := s.url.password + input));
      var delta := |PasswordText(m.url.password)| - |PasswordText(s.url.password)|;
      && c.usernameEnd <= c.hostStart <= |text|
      && (s.url.password != "" ==>
           && Text(m) == Insert(text, c.hostStart, input)
           && Trunc32(|input|) == Trunc32(delta))
      && (s.url.password == "" ==>
           && c.usernameEnd + 1 <= |Insert(text, c.usernameEnd, ":")|
           && Text(m) == Insert(Insert(text, c.usernameEnd, ":"), c.usernameEnd + 1, input)
           && Add32(Trunc32(|input|), 1) == Trunc32(delta))
  {
    hide Add32, Sub32, Trunc32, Insert, Erase, Splice, Sound, Fits, Text, OffsetsOf;
    var c, text, password := ComponentsOf(s), Text(s), s.url.password + input;
    PasswordBytes(s, password);
    if s.url.password != "" {
      PasswordKeepsAll(s, input);
      InsertIsSplice(text, c.hostStart, input);
    } else {
      assert password == input;
      DeltaStep(|input|);
      InsertTwice(text, c.usernameEnd, ":", input);
    }
  }

  lemma ClearPasswordEffect(s: Shape)
    requires Sound(s) && Fits(s) && s.url.password != ""
    ensures var c, t := ComponentsOf(s), ClearPassword(s);
      var diff := c.hostStart - c.usernameEnd;
      && Sound(t) && Fits(t)
      && 0 <= diff && c.hostStart <= |Text(s)|
      && Text(t) == Erase(Text(s), c.usernameEnd, diff)
      && ComponentsOf(t) == ShiftSearchAndHashBack(c.(
           hostStart := Sub32(c.hostStart, diff),
           hostEnd := Sub32(c.hostEnd, diff),
           pathnameStart := Sub32(c.pathnameStart, diff)), diff)
  {
    hide Before, Layout, OffsetsOf, Erase, Splice, Add32, Sub32, Trunc32;
    var o, t := OffsetsOf(s), ClearPassword(s);
    var diff := o.hostStart - o.usernameEnd;
    OffsetsOrdered(s);
    OffsetsOrdered(t);
    PasswordEdited(s, "");
    EraseIsSplice(Text(s), o.usernameEnd, diff);
    AddZero();
    WrapsNothing(0);
    WrapsNothing(diff);
    SubIsAdd(diff);
    ComponentsShifted(s, t, 0, -diff, -diff, -diff, -diff);
  }

  lemma SetPasswordSound(s: Shape, input: string)
    requires Sound(s) && s.url.host.Some?
    ensures Sound(SetPassword(s, input)) && Sound(s.(url := s.url.(password := input)))
    ensures Sound(AppendPassword(s, input)) && Sound(s.(url := s.url.(password := s.url.password + input)))
  {
  }

  lemma UsernameClearedFits(s: Shape)
    requires Sound(s) && Fits(s) && s.url.username == "" && s.url.host.Some?
    ensures Fits(SetUsername(s, ""))
  {
    hide Before, Layout, OffsetsOf;
    var t := SetUsername(s, "");
    assert t == s.(at := t.at);
    AtEdited(s, t.at);
    OffsetsOrdered(s);
    OffsetsOrdered(t);
  }

  // The host.

  lemma CredentialsSpan(s: Shape)
    requires Sound(s) && Fits(s) && s.url.host.Some?
    ensures ComponentsOf(s).protocolEnd + 2 <= ComponentsOf(s).hostStart
    ensures HasCredentials(s.url) <==> ComponentsOf(s).protocolEnd + 2 < ComponentsOf(s).hostStart
  {
    hide Before, Layout, OffsetsOf;
    PiecesAt(s);
    OffsetsSpelledOut(s);
  }

  lemma HostnameBytes(s: Shape, input: string)
    requires Sound(s) && Fits(s) && s.url.host.Some? && !StartsWith(input, "@")
    ensures var c, m, t := ComponentsOf(s), Shape(s.url.(host := Some(input)), false, s.marker), SetHostname(s, input);
      && Sound(t)
      && c.hostStart <= c.hostEnd <= |Text(s)|
      && Text(m) == Splice(Text(s), c.hostStart, c.hostEnd, input)
      && c.hostStart <= |Text(m)|
      && Text(t) == (if t.at then Insert(Text(m), c.hostStart, "@") else Text(m))
  {
    hide Before, Layout, OffsetsOf, Insert, Splice;
    var o, n := OffsetsOf(s), s.(at := false);
    var m, t := n.(url := s.url.(host := Some(input))), SetHostname(s, input);
    assert t == m.(at := t.at);
    AtEdited(s, false);
    HostEdited(s, "");
    HostEdited(n, input);
    AtEdited(m, t.at);
    if s.at {
      EraseWithin(Text(s), o.hostStart, o.hostEnd, input);
    }
  }

  lemma HostnameOffsets(s: Shape, input: string)
    requires Sound(s) && Fits(s) && s.url.host.Some? && Sound(SetHostname(s, input))
    requires Fits(SetHostname(s, input))
    ensures |input| < OMITTED
    ensures var c := ComponentsOf(s);
      var grown := |input| - (c.hostEnd - c.hostStart) + (if HasCredentials(s.url) then 1 else 0);
      ComponentsOf(SetHostname(s, input)) == Shift(c, 0, 0, Trunc32(grown), Trunc32(grown), Trunc32(grown))
  {
    hide Before, Layout, OffsetsOf, Add32, Trunc32, Splice, Insert, Erase;
    var o, n, t := OffsetsOf(s), s.(at := false), SetHostname(s, input);
    assert t == n.(url := s.url.(host := Some(input))).(at := t.at);
    AtEdited(s, false);
    HostEdited(s, "");
    HostEdited(n, input);
    AtEdited(n.(url := s.url.(host := Some(input))), t.at);
    OffsetsOrdered(t);
    WrapsNothing(0);
    var grown := |input| - (o.hostEnd - o.hostStart) + (if t.at then 1 else 0);
    ComponentsShifted(s, t, 0, 0, grown, grown, grown);
  }

  lemma ClearHostnameEffect(s: Shape)
    requires Sound(s) && Fits(s) && s.url.host.Some?
    ensures var c, t, length := ComponentsOf(s), ClearHostname(s), |s.url.host.value|;
      && Sound(t) && Fits(t)
      && c.hostEnd - c.hostStart == (if s.at then 1 else 0) + length
      && c.hostStart <= c.hostEnd <= |Text(s)|
      && Text(t) == Erase(Text(s), c.hostEnd - length, length)
      && ComponentsOf(t) == ShiftSearchAndHashBack(c.(
           hostEnd := c.hostEnd - length,
           pathnameStart := Sub32(c.pathnameStart, length)), length)
  {
    hide Before, Layout, OffsetsOf, Erase, Splice, Add32, Sub32, Trunc32;
    var o, t, length := OffsetsOf(s), ClearHostname(s), |s.url.host.value|;
    OffsetsOrdered(s);
    OffsetsOrdered(t);
    HostEdited(s, "");
    EraseIsSplice(Text(s), o.hostEnd - length, length);
    AddZero();
    WrapsNothing(0);
    WrapsNothing(length);
    SubIsAdd(length);
    NoWrap(o.hostEnd, length);
    ComponentsShifted(s, t, 0, 0, -length, -length, -length);
  }

  // The port.

  lemma PortEffect(s: Shape, port: Option<nat>)
    requires Sound(s) && Fits(s)
    requires Sound(SetPort(s, port)) && Fits(SetPort(s, port))
    ensures var c, t := ComponentsOf(s), SetPort(s, port);
      var end := if s.url.port.Some? then c.pathnameStart else c.hostEnd;
      var delta := |PortText(port)| - (end - c.hostEnd);
      && |PortText(port)| < OMITTED
      && c.hostEnd <= end <= c.pathnameStart <= |Text(s)|
      && Text(t) == Splice(Text(s), c.hostEnd, end, PortText(port))
      && ComponentsOf(t) == ShiftSearchAndHash(c.(
           pathnameStart := Add32(c.pathnameStart, Trunc32(delta)),
           port := PortOffset(t)), Trunc32(delta))
  {
    hide Before, Layout, OffsetsOf, Splice, Add32, Trunc32, Decimal;
    var t := SetPort(s, port);
    var delta := |PortText(port)| - (PortEnd(s, OffsetsOf(s)) - OffsetsOf(s).hostEnd);
    OffsetsOrdered(s);
    OffsetsOrdered(t);
    PortEdited(s, port);
    AddZero();
    WrapsNothing(0);
    ComponentsShifted(s, t, 0, 0, 0, delta, delta);
  }

  lemma ClearPortEffect(s: Shape)
    requires Sound(s) && Fits(s) && s.url.port.Some?
    ensures var c, t := ComponentsOf(s), SetPort(s, None);
      var length := c.pathnameStart - c.hostEnd;
      && Sound(t) && Fits(t)
      && 0 <= length && c.pathnameStart <= |Text(s)|
      && Text(t) == Erase(Text(s), c.hostEnd, length)
      && ComponentsOf(t) == ShiftSearchAndHashBack(c.(
           pathnameStart := Sub32(c.pathnameStart, length),
           port := OMITTED), length)
  {
    hide Before, Layout, OffsetsOf, Erase, Splice, Add32, Sub32, Trunc32, Decimal;
    var o := OffsetsOf(s);
    var length := o.pathnameStart - o.hostEnd;
    OffsetsOrdered(s);
    OffsetsOrdered(SetPort(s, None));
    PortEdited(s, None);
    PortEffect(s, None);
    EraseIsSplice(Text(s), o.hostEnd, length);
    WrapsNothing(length);
    SubIsAdd(length);
  }

  // The query.

  lemma ClearSearchFits(s: Shape)
    requires Sound(s) && Fits(s)
    ensures Fits(SetSearch(s, None)) && Fits(SetHash(s, None))
  {
    hide Before, Layout, OffsetsOf, Splice, Decimal;
    SearchEdited(s, None);
    HashEdited(s, None);
    OffsetsOrdered(s);
    OffsetsOrdered(SetSearch(s, None));
    OffsetsOrdered(SetHash(s, None));
  }

  /** Where the query starts, or would start. */
  function QueryStart(text: string, c: Components): int {
    if c.searchStart != OMITTED then c.searchStart else HashStart(text, c)
  }

  /** Where the fragment starts, or would start. */
  function HashStart(text: string, c: Components): int {
    if c.hashStart != OMITTED then c.hashStart else |text|
  }

  /** What replacing the query by another one, or by none, does to the buffer. */
  lemma SearchEffect(s: Shape, query: Option<string>)
    requires Sound(s) && Fits(s) && Fits(SetSearch(s, query))
    ensures Sound(SetSearch(s, query)) && |SearchText(query)| < OMITTED
    ensures var c, t, text := ComponentsOf(s), SetSearch(s, query), Text(s);
      var start, end := QueryStart(text, c), HashStart(text, c);
      && 0 <= start <= end <= |text|
      && start + |SearchText(query)| < OMITTED
      && (c.searchStart == OMITTED <==> s.url.query.None?)
      && (c.hashStart == OMITTED <==> s.url.hash.None?)
      && (s.url.query.None? ==> start == end)
      && (s.url.query.Some? ==> start < end && text[start] == '?')
      && Text(t) == Splice(text, start, end, SearchText(query))
      && ComponentsOf(t) == c.(
           searchStart := if query.Some? then start else OMITTED,
           hashStart := if s.url.hash.Some? then start + |SearchText(query)| else OMITTED)
  {
    hide Before, Layout, OffsetsOf, Splice, Decimal;
    OffsetsOrdered(s);
    OffsetsOrdered(SetSearch(s, query));
    SearchEdited(s, query);
    HashEdited(s, None);
    var o, text := OffsetsOf(s), Text(s);
    assert s.url.query.Some? ==> text[o.searchStart..o.hashStart][0] == '?';
  }

  /** Writing a query where there is none and nothing behind it. */
  lemma QueryAppended(text: string, query: string)
    ensures text + "?" + query == Splice(text, |text|, |text|, "?" + query)
  {
  }

  /** Writing over the last part of the text, keeping its question mark. */
  lemma QueryRewritten(text: string, start: nat, query: string)
    requires start < |text| && text[start] == '?'
    ensures text[..start + 1] + query == Splice(text, start, |text|, "?" + query)
  {
    assert text[..start + 1] == text[..start] + "?";
  }

  /** Taking the old query out of the middle and putting the new one in. */
  lemma QueryReplaced(text: string, start: nat, end: nat, query: string)
    requires start <= end <= |text|
    ensures var erased := Erase(text, start, end - start);
      && |erased| >= start
      && |Insert(erased, start, "?")| >= start + 1
      && Insert(Insert(erased, start, "?"), start + 1, query) == Splice(text, start, end, "?" + query)
    ensures start == end ==> Erase(text, start, 0) == text
  {
    var erased := Erase(text, start, end - start);
    InsertTwice(erased, start, "?", query);
    assert erased[..start] == text[..start] && erased[start..] == text[end..];
  }

  /** The code's own steps for writing a query, case by case. */
  lemma QueryWritten(s: Shape, query: string)
    requires Sound(s) && Fits(s) && Fits(SetSearch(s, Some(query)))
    ensures Sound(SetSearch(s, Some(query)))
    ensures |Text(s)| == Trunc32(|Text(s)|)
    ensures var c, t, text := ComponentsOf(s), SetSearch(s, Some(query)), Text(s);
      && (c.hashStart == OMITTED && c.searchStart == OMITTED ==>
           && Text(t) == text + "?" + query
           && ComponentsOf(t) == c.(searchStart := Trunc32(|text|)))
      && (c.hashStart == OMITTED && c.searchStart != OMITTED ==>
           && c.searchStart + 1 <= |text|
           && Text(t) == text[..c.searchStart + 1] + query
           && ComponentsOf(t) == c)
      && (c.hashStart != OMITTED ==>
           var start := if c.searchStart != OMITTED then c.searchStart else c.hashStart;
           && start <= c.hashStart <= |text|
           && (start == c.hashStart ==> Erase(text, start, 0) == text)
           && start <= |Erase(text, start, c.hashStart - start)|
           && start + 1 <= |Insert(Erase(text, start, c.hashStart - start), start, "?")|
           && Text(t) == Insert(Insert(Erase(text, start, c.hashStart - start), start, "?"), start + 1, query)
           && ComponentsOf(t) == c.(searchStart := start, hashStart := Add32(start, Trunc32(|query| + 1))))
  {
    hide Sound, Text, OffsetsOf, ComponentsOf, Add32, Trunc32, Splice, Insert, Erase;
    var c, text := ComponentsOf(s), Text(s);
    SearchEffect(s, Some(query));
    WrapsNothing(|query| + 1);
    WrapsNothing(|text|);
    if c.hashStart == OMITTED {
      if c.searchStart == OMITTED {
        QueryAppended(text, query);
      } else {
        QueryRewritten(text, c.searchStart, query);
      }
    } else {
      var start := QueryStart(text, c);
      QueryReplaced(text, start, c.hashStart, query);
      NoWrap(start, |query| + 1);
    }
  }

  // The fragment.

  lemma HashEffect(s: Shape, hash: Option<string>)
    requires Sound(s) && Fits(s) && Fits(SetHash(s, hash))
    ensures Sound(SetHash(s, hash))
    ensures var c, t, text := ComponentsOf(s), SetHash(s, hash), Text(s);
      var start := HashStart(text, c);
      && 0 <= start <= |text|
      && start < OMITTED
      && (c.hashStart == OMITTED <==> s.url.hash.None?)
      && Text(t) == text[..start] + HashText(hash)
      && ComponentsOf(t) == c.(hashStart := if hash.Some? then start else OMITTED)
  {
    hide Before, Layout, OffsetsOf, Decimal;
    OffsetsOrdered(s);
    OffsetsOrdered(SetHash(s, hash));
    HashEdited(s, hash);
  }

  // The path.

  lemma MarkerRemoved(s: Shape)
    requires Sound(s) && Fits(s) && MarkerSeen(s)
    ensures var c, t := ComponentsOf(s), s.(marker := false);
      && Sound(t) && Fits(t)
      && c.hostEnd + 2 == c.pathnameStart <= |Text(s)|
      && Text(t) == Erase(Text(s), c.hostEnd, 2)
      && ComponentsOf(t) == ShiftSearchAndHashBack(c.(
           pathnameStart := Sub32(c.pathnameStart, 2)), 2)
  {
    hide Before, Layout, OffsetsOf, Erase, Add32, Sub32, Trunc32, Decimal;
    var t := s.(marker := false);
    OffsetsOrdered(s);
    OffsetsOrdered(t);
    MarkerEdited(s, false);
    AddZero();
    WrapsNothing(0);
    WrapsNothing(2);
    SubIsAdd(2);
    ComponentsShifted(s, t, 0, 0, 0, -2, -2);
  }

  lemma PathEffect(s: Shape, path: string)
    requires Sound(s) && Fits(s)
    requires Sound(s.(url := s.url.(path := path))) && Fits(s.(url := s.url.(path := path)))
    ensures var c, t, text := ComponentsOf(s), s.(url := s.url.(path := path)), Text(s);
      var delta := |path| - |s.url.path|;
      && |path| < OMITTED
      && QueryStart(text, c) - c.pathnameStart == |s.url.path|
      && c.pathnameStart <= QueryStart(text, c) <= |text|
      && text[c.pathnameStart..QueryStart(text, c)] == s.url.path
      && Text(t) == Splice(text, c.pathnameStart, QueryStart(text, c), path)
      && ComponentsOf(t) == ShiftSearchAndHash(c, Trunc32(delta))
  {
    hide Before, Layout, OffsetsOf, Splice, Add32, Trunc32, Decimal;
    var t := s.(url := s.url.(path := path));
    OffsetsOrdered(s);
    OffsetsOrdered(t);
    PathEdited(s, path);
    SearchEdited(s, None);
    HashEdited(s, None);
    AddZero();
    WrapsNothing(0);
    ComponentsShifted(s, t, 0, 0, 0, 0, |path| - |s.url.path|);
  }

  lemma MarkerInserted(s: Shape)
    requires Sound(s) && Fits(s) && !s.marker && s.url.host.None? && !s.url.hasOpaquePath
    requires Fits(s.(marker := true))
    ensures var c, t := ComponentsOf(s), s.(marker := true);
      && Sound(t)
      && c.pathnameStart <= |Text(s)|
      && Text(t) == Insert(Text(s), c.pathnameStart, "/.")
      && |Text(t)| == |Text(s)| + 2
      && ComponentsOf(t) == ShiftSearchAndHash(c.(pathnameStart := Add32(c.pathnameStart, 2)), 2)
      && Add32(c.pathnameStart, 2) == c.pathnameStart + 2
      && (s.url.query.None? ==> c.searchStart == OMITTED)
      && (s.url.hash.None? ==> c.hashStart == OMITTED)
  {
    hide Before, Layout, OffsetsOf, Insert, Add32, Trunc32, Decimal;
    var t := s.(marker := true);
    OffsetsOrdered(s);
    OffsetsOrdered(t);
    MarkerEdited(s, true);
    AddZero();
    ShiftExact(2);
    WrapsNothing(0);
    WrapsNothing(2);
    ComponentsShifted(s, t, 0, 0, 0, 2, 2);
  }

  /** The path ends where the query starts. */
  lemma PathLength(s: Shape)
    requires Sound(s) && Fits(s)
    ensures Sub32(Trunc32(QueryStart(Text(s), ComponentsOf(s))), ComponentsOf(s).pathnameStart) == |s.url.path|
  {
    hide Before, Layout, Decimal, Splice;
    OffsetsOrdered(s);
    PathEdited(s, "");
    PiecesAt(s);
    SearchEdited(s, None);
    HashEdited(s, None);
  }

  lemma SetPathnameOffsets(s: Shape, input: string)
    requires Sound(s) && Fits(s)
    requires Sound(s.(url := s.url.(path := input))) && Fits(s.(url := s.url.(path := input)))
    ensures var c, t, text := ComponentsOf(s), s.(url := s.url.(path := input)), Text(s);
      var length := Sub32(Trunc32(QueryStart(text, c)), c.pathnameStart);
      && |input| < OMITTED
      && Add32(c.pathnameStart, length) == QueryStart(text, c)
      && c.pathnameStart <= QueryStart(text, c) <= |text|
      && Text(t) == Splice(text, c.pathnameStart, QueryStart(text, c), input)
      && ComponentsOf(t) == ShiftSearchAndHash(c, Trunc32(|input| - (QueryStart(text, c) - c.pathnameStart)))
  {
    hide Before, Layout, OffsetsOf, Splice, Add32, Sub32, Trunc32, Decimal, ComponentsOf;
    var c, text := ComponentsOf(s), Text(s);
    PathEffect(s, input);
    WrapsNothing(QueryStart(text, c));
    NoWrap(QueryStart(text, c), c.pathnameStart);
    NoWrap(c.pathnameStart, |s.url.path|);
  }

  /** What the code does when it puts in a marker and the offsets behind it are stale: the bytes it
      writes over end two bytes early, or, for a path shorter than that, wrap around. */
  lemma StaleSuffix(s: Shape, input: string)
    requires Sound(s) && Fits(s) && PutsMarkerBeforeSuffix(s, input)
    requires Fits(s.(marker := true)) && Fits(SetPathname(s, input))
    ensures var c, marked := ComponentsOf(s), Text(s.(marker := true));
      var start, end := c.pathnameStart + 2, QueryStart(Text(s), c);
      && |input| < OMITTED
      && start <= |marked| && 0 <= end <= |marked| && end < TWO_TO_32
      && (c.searchStart != OMITTED || c.hashStart != OMITTED)
      && Add32(start, Sub32(end, start)) == end
      && (end < start ==> |marked| - start + |input| < TWO_TO_32 - (start - end))
      && (start <= end ==> Splice(marked, start, end, input) != Text(SetPathname(s, input)))
      && (end < start ==> marked[..start] + input != Text(SetPathname(s, input)))
  {
    hide Before, Layout, OffsetsOf, Add32, Sub32, Trunc32, Decimal;
    var c, n, t := ComponentsOf(s), s.(marker := true), SetPathname(s, input);
    assert t == n.(url := n.url.(path := input));
    MarkerEdited(s, true);
    PathEffect(s, s.url.path);
    PathEdited(n, input);
    OffsetsOrdered(s);
    OffsetsOrdered(n);
    OffsetsOrdered(t);
    SearchEdited(s, None);
    HashEdited(s, None);
    var start, end := c.pathnameStart + 2, QueryStart(Text(s), c);
    WrapAround(start, end);
  }

  /** What the buffer spells then: the last two bytes of the old path stand behind the new one, or, when
      the old path was shorter, everything behind the new path is gone. */
  function Garbled(s: Shape, input: string): Shape {
    var n, path := s.(marker := true), s.url.path;
    if |path| >= 2 then n.(url := s.url.(path := input + path[|path| - 2..]))
    else n.(url := s.url.(path := input, query := None, hash := None))
  }

  lemma GarbledText(s: Shape, input: string)
    requires Sound(s) && Fits(s) && PutsMarkerBeforeSuffix(s, input) && Fits(s.(marker := true))
    ensures var c, marked := ComponentsOf(s), Text(s.(marker := true));
      var start, end := c.pathnameStart + 2, QueryStart(Text(s), c);
      && start <= |marked| && 0 <= end <= |marked|
      && (start <= end <==> |s.url.path| >= 2)
      && Text(Garbled(s, input)) == if start <= end then Splice(marked, start, end, input) else marked[..start] + input
  {
    hide Before, Layout, OffsetsOf, Add32, Decimal, Splice;
    var c, n, path := ComponentsOf(s), s.(marker := true), s.url.path;
    var start := c.pathnameStart + 2;
    MarkerEdited(s, true);
    OffsetsOrdered(s);
    OffsetsOrdered(n);
    PathEffect(s, path);
    PathEdited(n, "");
    if |path| >= 2 {
      PathEdited(n, input + path[|path| - 2..]);
      TailKept(Text(n), start, path, input);
    } else {
      SuffixDropped(n, input);
    }
  }

  lemma TailKept(text: string, start: nat, path: string, input: string)
    requires start + |path| <= |text| && text[start..start + |path|] == path && |path| >= 2
    ensures Splice(text, start, start + |path|, input + path[|path| - 2..]) ==
      Splice(text, start, start + |path| - 2, input)
  {
    assert path[|path| - 2..] == text[start + |path| - 2..start + |path|];
  }

  /** A text cut off at its path, with another path at the end. */
  lemma SuffixDropped(s: Shape, input: string)
    ensures var t := s.(url := s.url.(path := input, query := None, hash := None));
      && 0 <= OffsetsOf(s).pathnameStart <= |Text(s)|
      && Text(s)[..OffsetsOf(s).pathnameStart] + input == Text(t)
  {
    hide Layout, Decimal;
    var t := s.(url := s.url.(path := input, query := None, hash := None));
    var ps, qs := Layout(s), Layout(t);
    PiecesAt(s);
    PiecesAt(t);
    SamePieces(s, t);
    SameBefore(ps, qs, PATH);
    CutBefore(ps, PATH, 11);
    assert Before(qs, 9) == Before(qs, 8) + input;
    assert Before(qs, 11) == Before(qs, 9) + "" + "";
  }

  lemma SamePieces(s: Shape, t: Shape)
    requires t == s.(url := s.url.(path := t.url.path, query := t.url.query, hash := t.url.hash))
    ensures forall i | 0 <= i < PATH :: Layout(s)[i] == Layout(t)[i]
  {
    hide Decimal;
    forall i | 0 <= i < PATH
      ensures Layout(s)[i] == Layout(t)[i]
    {
      assert i == 0 || i == 1 || i == 2 || i == 3 || i == 4 || i == 5 || i == 6 || i == 7;
    }
  }

  lemma WrapAround(start: uint32, end: uint32)
    ensures Add32(start, Sub32(end, start)) == end
  {
  }

  lemma AppendPathnameEffect(s: Shape, input: string)
    requires Sound(s) && Fits(s)
    requires Sound(AppendPathname(s, input)) && Fits(AppendPathname(s, input))
    ensures var c, t, text := ComponentsOf(s), AppendPathname(s, input), Text(s);
      && QueryStart(text, c) <= |text| < OMITTED
      && 0 <= QueryStart(text, c)
      && Text(t) == Insert(text, QueryStart(text, c), input)
      && ComponentsOf(t) == ShiftSearchAndHash(c, Trunc32(|input|))
  {
    hide Before, Layout, OffsetsOf, Splice, Insert, Add32, Trunc32, Decimal, ComponentsOf;
    var c, text := ComponentsOf(s), Text(s);
    var end := QueryStart(text, c);
    PathEffect(s, s.url.path + input);
    SpliceKeepsPrefix(text, c.pathnameStart, end, |s.url.path|, input);
    InsertIsSplice(text, end, input);
  }

  /** The path is erased first and the marker, if there is one, in a second step. */
  lemma ClearPathnameEffect(s: Shape)
    requires Sound(s) && Fits(s)
    ensures var c, m, t, text := ComponentsOf(s), s.(url := s.url.(path := "")), ClearPathname(s), Text(s);
      && |text| < OMITTED
      && Sound(m) && Fits(m) && Sound(t) && Fits(t)
      && QueryStart(text, c) - c.pathnameStart == |s.url.path|
      && c.pathnameStart <= QueryStart(text, c) <= |text|
      && Text(m) == Erase(text, c.pathnameStart, |s.url.path|)
      && (MarkerSeen(s) ==>
           && c.hostEnd + 2 <= |Text(m)|
           && Text(t) == Erase(Text(m), c.hostEnd, 2)
           && ComponentsOf(t) == ShiftSearchAndHashBack(c.(
                pathnameStart := Sub32(c.pathnameStart, 2)), Add32(|s.url.path|, 2)))
      && (!MarkerSeen(s) ==>
           && t == m
           && ComponentsOf(t) == ShiftSearchAndHashBack(c, |s.url.path|))
      && ComponentsOf(m).hostEnd == c.hostEnd
      && ComponentsOf(m).pathnameStart == c.pathnameStart
  {
    hide Before, Layout, OffsetsOf, Splice, Erase, Add32, Sub32, Trunc32, Decimal;
    var c, m, t, length := ComponentsOf(s), s.(url := s.url.(path := "")), ClearPathname(s), |s.url.path|;
    OffsetsOrdered(s);
    OffsetsOrdered(m);
    PathEdited(s, "");
    PathEffect(s, "");
    EraseIsSplice(Text(s), c.pathnameStart, length);
    WrapsNothing(length);
    SubIsAdd(length);
    if MarkerSeen(s) {
      MarkerRemoved(m);
      BackTwice(c, length);
    }
  }

  /** Moving the optional parts back twice is moving them back by the sum, as long as no offset
      hits the value that stands for an absent part on the way. */
  lemma BackTwice(c: Components, length: uint32)
    requires c.searchStart != OMITTED ==> Sub32(c.searchStart, length) != OMITTED
    requires c.hashStart != OMITTED ==> Sub32(c.hashStart, length) != OMITTED
    ensures ShiftSearchAndHashBack(ShiftSearchAndHashBack(c, length).(pathnameStart := Sub32(c.pathnameStart, 2)), 2)
      == ShiftSearchAndHashBack(c.(pathnameStart := Sub32(c.pathnameStart, 2)), Add32(length, 2))
  {
    hide Add32, Sub32;
    SubTwice(length, 2);
  }

  lemma ClearPathnameCondition(s: Shape, buffer: string)
    requires Sound(s) && Fits(s)
    requires var m := s.(url := s.url.(path := ""));
      && Sound(m) && Fits(m) && buffer == Text(m)
      && ComponentsOf(m).hostEnd == ComponentsOf(s).hostEnd
      && ComponentsOf(m).pathnameStart == ComponentsOf(s).pathnameStart
    ensures LooksLikeDashDot(buffer, ComponentsOf(s)) <==> MarkerSeen(s)
  {
    hide Before, Layout, OffsetsOf, Add32, Sound, Fits, Text, ComponentsOf;
    DashDotRead(s.(url := s.url.(path := "")));
  }

  // The scheme.

  lemma ProtocolEffect(s: Shape, protocol: string)
    requires Sound(s) && Fits(s)
    requires Sound(SetProtocol(s, protocol)) && Fits(SetProtocol(s, protocol))
    ensures var c, t, delta := ComponentsOf(s), SetProtocol(s, protocol), |protocol| - |s.url.protocol|;
      && c.protocolEnd == |s.url.protocol| <= |Text(s)|
      && Text(t) == Splice(Text(s), 0, c.protocolEnd, protocol)
      && ComponentsOf(t) == Shift(c, Trunc32(delta), Trunc32(delta), Trunc32(delta), Trunc32(delta), Trunc32(delta))
           .(protocolEnd := |protocol|)
  {
    hide Before, Layout, OffsetsOf, Splice, Add32, Trunc32, Decimal;
    var t, delta := SetProtocol(s, protocol), |protocol| - |s.url.protocol|;
    OffsetsOrdered(s);
    OffsetsOrdered(t);
    ProtocolEdited(s, protocol);
    ShiftExact(delta);
  }

  lemma ProtocolIsFile(s: Shape)
    requires Sound(s)
    ensures Sound(SetProtocol(s, "file:"))
  {
  }
}
