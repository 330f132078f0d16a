/** How a URL lies in one flat buffer with eight 32-bit offsets.

    The delimiters that depend on several fields, the `@` before the host and the `/.` before the
    path, are kept as two bits of the shape of a buffer. A shape is canonical when both bits are
    what the serializer prints; the edits also pass through shapes that are not. */
module UrlLayout {
  import opened CppString
  import opened Pieces
  import opened UrlRecord

  datatype Shape = Shape(url: Url, at: bool, marker: bool)

  datatype Components = Components(
    protocolEnd: uint32,
    usernameEnd: uint32,
    hostStart: uint32,
    hostEnd: uint32,
    port: uint32,
    pathnameStart: uint32,
    searchStart: uint32,
    hashStart: uint32)

  predicate Sound(s: Shape) {
    && WellFormed(s.url)
    && (s.at ==> s.url.host.Some?)
    && (s.marker ==> !s.url.hasOpaquePath)
  }

  /** The marker is seen only when no port stands before it. */
  predicate MarkerSeen(s: Shape) {
    s.marker && s.url.port.None?
  }

  predicate Canonical(s: Shape) {
    && s.at == HasCredentials(s.url)
    && s.marker == NeedsMarker(s.url)
  }

  // The pieces of the buffer, in order.

  const PROTOCOL := 0
  const SLASHES := 1
  const USERNAME := 2
  const PASSWORD := 3
  const AT := 4
  const HOST := 5
  const PORT := 6
  const MARKER := 7
  const PATH := 8
  const SEARCH := 9
  const HASH := 10

  function Layout(s: Shape): (ps: seq<string>)
    ensures |ps| == 11
  {
    [ s.url.protocol,
      if s.url.host.Some? then "//" else "",
      s.url.username,
      PasswordText(s.url.password),
      if s.at then "@" else "",
      if s.url.host.Some? then s.url.host.value else "",
      PortText(s.url.port),
      if s.marker then "/." else "",
      s.url.path,
      SearchText(s.url.query),
      HashText(s.url.hash) ]
  }

  /** The whole buffer. */
  function Text(s: Shape): string {
    Concat(Layout(s))
  }

  /** 32 bits suffice for every offset, and none of them is the value that stands for an absent one. */
  predicate Fits(s: Shape) {
    |Text(s)| < OMITTED && |s.url.protocol| + 2 < OMITTED
  }

  /** The offsets as plain integers, whether or not the part they lead to is present. */
  datatype Offsets = Offsets(
    protocolEnd: int,
    usernameEnd: int,
    hostStart: int,
    hostEnd: int,
    pathnameStart: int,
    searchStart: int,
    hashStart: int,
    total: int)

  function OffsetsOf(s: Shape): Offsets {
    var ps := Layout(s);
    Offsets(
      Offset(ps, SLASHES),
      Offset(ps, PASSWORD),
      Offset(ps, AT),
      Offset(ps, PORT),
      Offset(ps, PATH),
      Offset(ps, SEARCH),
      Offset(ps, HASH),
      |Concat(ps)|)
  }

  function ComponentsOf(s: Shape): Components
    requires Sound(s) && Fits(s)
  {
    OffsetsOrdered(s);
    var o := OffsetsOf(s);
    Components(
      o.protocolEnd,
      o.usernameEnd,
      o.hostStart,
      o.hostEnd,
      if s.url.port.Some? then s.url.port.value else OMITTED,
      o.pathnameStart,
      if s.url.query.Some? then o.searchStart else OMITTED,
      if s.url.hash.Some? then o.hashStart else OMITTED)
  }

  lemma PortInComponents(s: Shape)
    requires Sound(s) && Fits(s)
    ensures ComponentsOf(s).port == if s.url.port.Some? then s.url.port.value else OMITTED
    ensures ComponentsOf(s).port == OMITTED <==> s.url.port.None?
  {
  }

  lemma OffsetsOrdered(s: Shape)
    ensures var o := OffsetsOf(s);
      && o.total == |Text(s)|
      && 0 <= o.protocolEnd <= o.usernameEnd <= o.hostStart <= o.hostEnd
      && o.hostEnd <= o.pathnameStart <= o.searchStart <= o.hashStart <= o.total
  {
    hide Before, Layout;
    var ps := Layout(s);
    OffsetGrows(ps, SLASHES, PASSWORD);
    OffsetGrows(ps, PASSWORD, AT);
    OffsetGrows(ps, AT, PORT);
    OffsetGrows(ps, PORT, PATH);
    OffsetGrows(ps, PATH, SEARCH);
    OffsetGrows(ps, SEARCH, HASH);
    OffsetGrows(ps, HASH, 11);
  }

  lemma Assoc(a: string, b: string, c: string)
    ensures (a + b) + c == a + (b + c)
  {
  }

  lemma AuthorityPieces(p: string, slashes: string, user: string, pass: string, at: string, host: string, port: string)
    ensures p + slashes + user + pass + at + host + port == p + (slashes + (user + pass + at) + host + port)
  {
    Assoc(p + slashes, user + pass, at);
    Assoc(p + slashes, user, pass);
    var c := user + pass + at;
    Assoc(p, slashes, c);
    Assoc(p, slashes + c, host);
    Assoc(p, slashes + c + host, port);
  }

  lemma BeforePath(ps: seq<string>)
    requires |ps| == 11
    ensures Before(ps, PATH) == ps[0] + ps[1] + ps[2] + ps[3] + ps[4] + ps[5] + ps[6] + ps[7]
  {
    assert Before(ps, 1) == ps[0];
    assert Before(ps, 3) == ps[0] + ps[1] + ps[2];
    assert Before(ps, 5) == ps[0] + ps[1] + ps[2] + ps[3] + ps[4];
    assert Before(ps, 7) == ps[0] + ps[1] + ps[2] + ps[3] + ps[4] + ps[5] + ps[6];
  }

  lemma CanonicalHead(s: Shape)
    requires Sound(s) && Canonical(s)
    ensures Before(Layout(s), PATH) == s.url.protocol + AuthorityText(s.url)
  {
    var ps := Layout(s);
    BeforePath(ps);
    if s.url.host.Some? {
      AuthorityPieces(s.url.protocol, "//", ps[USERNAME], ps[PASSWORD], ps[AT], ps[HOST], ps[PORT]);
      assert ps[USERNAME] + ps[PASSWORD] + ps[AT] ==
        if HasCredentials(s.url) then s.url.username + ps[PASSWORD] + "@" else "";
    }
  }

  /** The buffer of a canonical shape is the serialization of its record. */
  lemma CanonicalIsHref(s: Shape)
    requires Sound(s) && Canonical(s)
    ensures Text(s) == Href(s.url)
  {
    CanonicalHead(s);
    var ps := Layout(s);
    assert Before(ps, 10) == Before(ps, 8) + ps[8] + ps[9];
    assert Before(ps, 11) == Before(ps, 8) + ps[8] + ps[9] + ps[10];
  }

  /** The offsets, written out. */
  lemma OffsetsSpelledOut(s: Shape)
    ensures var o, ps := OffsetsOf(s), Layout(s);
      && o.protocolEnd == |s.url.protocol|
      && o.usernameEnd == o.protocolEnd + |ps[SLASHES]| + |s.url.username|
      && o.hostStart == o.usernameEnd + |ps[PASSWORD]|
      && o.hostEnd == o.hostStart + |ps[AT]| + |ps[HOST]|
      && o.pathnameStart == o.hostEnd + |ps[PORT]| + |ps[MARKER]|
      && o.searchStart == o.pathnameStart + |s.url.path|
      && o.hashStart == o.searchStart + |ps[SEARCH]|
      && o.total == o.hashStart + |ps[HASH]|
  {
    hide Before, Decimal, Layout;
    PiecesAt(s);
    OffsetsStepwise(Layout(s));
    assert |Text(s)| == Offset(Layout(s), 11);
  }

  /** A buffer whose bits are not what the serializer prints is not the serialization of its record. */
  lemma OnlyCanonicalIsHref(s: Shape)
    requires Sound(s)
    ensures Text(s) == Href(s.url) <==> Canonical(s)
  {
    hide Before, Decimal, Layout, Concat, OffsetsOf, Href;
    var t := Shape(s.url, HasCredentials(s.url), NeedsMarker(s.url));
    CanonicalIsHref(t);
    OffsetsOrdered(s);
    OffsetsOrdered(t);
    OffsetsSpelledOut(s);
    OffsetsSpelledOut(t);
    PiecesAt(s);
    PiecesAt(t);
  }

  lemma OffsetsStepwise(ps: seq<string>)
    ensures Offset(ps, 0) == 0
    ensures forall k {:trigger Offset(ps, k)} | 0 < k <= |ps| :: Offset(ps, k) == Offset(ps, k - 1) + |ps[k - 1]|
  {
  }

  /** What becomes of the offsets when piece `k` grows by `delta`. */
  function Moved(o: Offsets, k: nat, delta: int): Offsets {
    Offsets(
      o.protocolEnd + (if k < SLASHES then delta else 0),
      o.usernameEnd + (if k < PASSWORD then delta else 0),
      o.hostStart + (if k < AT then delta else 0),
      o.hostEnd + (if k < PORT then delta else 0),
      o.pathnameStart + (if k < PATH then delta else 0),
      o.searchStart + (if k < SEARCH then delta else 0),
      o.hashStart + (if k < HASH then delta else 0),
      o.total + delta)
  }

  /** Shapes that differ in one piece have buffers that differ by one splice. */
  lemma PieceEdited(s: Shape, t: Shape, k: nat, x: string)
    requires k < 11
    requires Layout(t) == Layout(s)[k := x]
    ensures OffsetsOf(t) == Moved(OffsetsOf(s), k, |x| - |Layout(s)[k]|)
    ensures Offset(Layout(s), k) + |Layout(s)[k]| <= |Text(s)|
    ensures Text(t) == Splice(Text(s), Offset(Layout(s), k), Offset(Layout(s), k) + |Layout(s)[k]|, x)
  {
    hide Before, Layout, Splice;
    EditText(Layout(s), k, x);
    EditOffsets(Layout(s), k, x);
    assert |Concat(Layout(t))| == Offset(Layout(t), 11) && |Concat(Layout(s))| == Offset(Layout(s), 11);
  }

  lemma PiecesAt(s: Shape)
    ensures Layout(s)[PROTOCOL] == s.url.protocol
    ensures Layout(s)[SLASHES] == if s.url.host.Some? then "//" else ""
    ensures Layout(s)[USERNAME] == s.url.username
    ensures Layout(s)[PASSWORD] == if s.url.password != "" then ":" + s.url.password else ""
    ensures Layout(s)[AT] == if s.at then "@" else ""
    ensures Layout(s)[HOST] == if s.url.host.Some? then s.url.host.value else ""
    ensures Layout(s)[PORT] == if s.url.port.Some? then ":" + Decimal(s.url.port.value) else ""
    ensures Layout(s)[MARKER] == if s.marker then "/." else ""
    ensures Layout(s)[PATH] == s.url.path
    ensures Layout(s)[SEARCH] == if s.url.query.Some? then "?" + s.url.query.value else ""
    ensures Layout(s)[HASH] == if s.url.hash.Some? then "#" + s.url.hash.value else ""
  {
  }

  /** The offsets of the optional parts follow every change of length before them. */
  function ShiftSearchAndHash(c: Components, diff: uint32): Components {
    c.(
      searchStart := if c.searchStart != OMITTED then Add32(c.searchStart, diff) else c.searchStart,
      hashStart := if c.hashStart != OMITTED then Add32(c.hashStart, diff) else c.hashStart)
  }

  function ShiftSearchAndHashBack(c: Components, diff: uint32): Components {
    c.(
      searchStart := if c.searchStart != OMITTED then Sub32(c.searchStart, diff) else c.searchStart,
      hashStart := if c.hashStart != OMITTED then Sub32(c.hashStart, diff) else c.hashStart)
  }

  /** The offsets after adding one wrapped delta to each. */
  function Shift(c: Components, user: uint32, head: uint32, host: uint32, path: uint32, rest: uint32): Components {
    ShiftSearchAndHash(c.(
      usernameEnd := Add32(c.usernameEnd, user),
      hostStart := Add32(c.hostStart, head),
      hostEnd := Add32(c.hostEnd, host),
      pathnameStart := Add32(c.pathnameStart, path)), rest)
  }

  // The questions the parser asks of the buffer and the offsets.

  predicate HasAuthority(buffer: string, c: Components) {
    && Add32(c.protocolEnd, 2) <= c.hostStart
    && c.protocolEnd + 2 <= |buffer|
    && buffer[c.protocolEnd..c.protocolEnd + 2] == "//"
  }

  predicate HasNonEmptyUsername(c: Components) {
    Add32(c.protocolEnd, 2) < c.usernameEnd
  }

  predicate HasNonEmptyPassword(c: Components) {
    Sub32(c.hostStart, c.usernameEnd) > 0
  }

  predicate HasPassword(buffer: string, c: Components) {
    && c.hostStart > c.usernameEnd
    && c.usernameEnd <= |buffer|
    && CharAt(buffer, c.usernameEnd) == ':'
  }

  lemma AuthorityRead(s: Shape)
    requires Sound(s) && Fits(s)
    ensures HasAuthority(Text(s), ComponentsOf(s)) <==> s.url.host.Some?
  {
    hide Before, Concat, Decimal, Layout, Add32;
    PiecesAt(s);
    OffsetsSpelledOut(s);
    NoWrap(ComponentsOf(s).protocolEnd, 2);
    ReadPiece(Layout(s), SLASHES);
  }

  lemma CredentialsRead(s: Shape)
    requires Sound(s) && Fits(s)
    ensures HasNonEmptyUsername(ComponentsOf(s)) <==> s.url.username != ""
    ensures HasNonEmptyPassword(ComponentsOf(s)) <==> s.url.password != ""
    ensures HasPassword(Text(s), ComponentsOf(s)) <==> s.url.password != ""
  {
    hide Before, Concat, Decimal, Layout, Add32, Sub32;
    PiecesAt(s);
    OffsetsSpelledOut(s);
    NoWrap(ComponentsOf(s).protocolEnd, 2);
    NoWrap(ComponentsOf(s).hostStart, ComponentsOf(s).usernameEnd);
    ReadPiece(Layout(s), PASSWORD);
  }

  /** The byte where the host starts is an `@` exactly when the shape has one there. */
  lemma AtRead(s: Shape)
    requires Sound(s) && s.url.host.Some?
    ensures 0 <= OffsetsOf(s).hostStart <= |Text(s)|
    ensures CharAt(Text(s), OffsetsOf(s).hostStart) == '@' <==> s.at
  {
    hide Before, Decimal, Layout;
    var ps := Layout(s);
    PiecesAt(s);
    FirstNonEmpty(ps, AT);
    if Offset(ps, AT) < |Text(s)| {
      var i :| AT <= i < |ps| && ps[i] != "" && Concat(ps)[Offset(ps, AT)] == ps[i][0] && AllEmpty(ps, AT, i);
      assert s.at ==> i == AT;
      assert i == HOST ==> ps[i][0] != '@';
      assert i == PATH ==> ps[i][0] == '/';
    } else {
      ReadPiece(ps, AT);
    }
  }

  /** `/.` stands between the end of the host and the start of the path. */
  predicate LooksLikeDashDot(buffer: string, c: Components) {
    && c.pathnameStart == Add32(c.hostEnd, 2)
    && c.hostEnd + 1 < |buffer|
    && buffer[c.hostEnd] == '/'
    && buffer[c.hostEnd + 1] == '.'
  }

  predicate HasDashDot(buffer: string, c: Components, hasOpaquePath: bool) {
    !hasOpaquePath && LooksLikeDashDot(buffer, c)
  }

  lemma DashDotRead(s: Shape)
    requires Sound(s) && Fits(s)
    ensures LooksLikeDashDot(Text(s), ComponentsOf(s)) <==> MarkerSeen(s)
    ensures HasDashDot(Text(s), ComponentsOf(s), s.url.hasOpaquePath) <==> MarkerSeen(s)
  {
    hide Before, Concat, Decimal, Layout, Add32, StartsWith;
    var ps := Layout(s);
    PiecesAt(s);
    OffsetsOrdered(s);
    OffsetsSpelledOut(s);
    OffsetsStepwise(ps);
    AddTwo(ComponentsOf(s).hostEnd);
    ReadPiece(ps, PORT);
    if MarkerSeen(s) {
      MarkerRead(s);
    }
  }

  lemma MarkerRead(s: Shape)
    requires MarkerSeen(s)
    ensures 0 <= OffsetsOf(s).hostEnd && OffsetsOf(s).hostEnd + 2 <= |Text(s)|
    ensures Text(s)[OffsetsOf(s).hostEnd..OffsetsOf(s).hostEnd + 2] == "/."
    ensures Text(s)[OffsetsOf(s).hostEnd] == '/' && Text(s)[OffsetsOf(s).hostEnd + 1] == '.'
  {
    hide Before, Concat, Decimal, Layout, StartsWith;
    var ps := Layout(s);
    PiecesAt(s);
    OffsetsStepwise(ps);
    ReadPiece(ps, MARKER);
    var at := Offset(ps, MARKER);
    assert Text(s)[at..at + 2][0] == '/' && Text(s)[at..at + 2][1] == '.';
  }

  lemma AddTwo(x: uint32)
    ensures Add32(x, 2) == if x + 2 < TWO_TO_32 then x + 2 else x + 2 - TWO_TO_32
  {
  }
}
