/** The setters of the host, `set_host` and `set_hostname`. Parsing a host is a parameter. */
module UrlHosts {
  import opened CppString
  import opened Pieces
  import opened PortParsing
  import opened UrlRecord
  import opened UrlLayout
  import opened UrlEdits
  import opened UrlValidate
  import opened UrlAggregator
  import opened UrlSession
  import opened UrlSetters
  import UrlReading

  // Where a host ends.

  /** `:`, `/`, `?`, and `\` in a special URL, end a host, except between brackets. */
  predicate EndsHost(special: bool, c: char) {
    c == ':' || c == '/' || c == '?' || (special && c == '\\')
  }

  /** The end of the host that is read from `i` on, byte by byte. */
  function HostEnd(special: bool, view: string, i: nat, insideBrackets: bool): (end: nat)
    requires i <= |view|
    ensures i <= end <= |view|
    decreases |view| - i
  {
    if i == |view| then i
    else if insideBrackets then HostEnd(special, view, i + 1, view[i] != ']')
    else if EndsHost(special, view[i]) then i
    else HostEnd(special, view, i + 1, view[i] == '[')
  }

  method FindNextHostDelimiter(special: bool, view: string, location: nat) returns (next: nat)
    requires location <= |view|
    ensures location <= next <= |view|
    ensures forall k | location <= k < next :: view[k] != '[' && !EndsHost(special, view[k])
    ensures next < |view| ==> view[next] == '[' || EndsHost(special, view[next])
  {
    next := location;
    while next < |view| && view[next] != '[' && !EndsHost(special, view[next])
      invariant location <= next <= |view|
      invariant forall k | location <= k < next :: view[k] != '[' && !EndsHost(special, view[k])
    {
      next := next + 1;
    }
  }

  method Find(view: string, c: char, location: nat) returns (next: nat)
    requires location <= |view|
    ensures location <= next <= |view|
    ensures forall k | location <= k < next :: view[k] != c
    ensures next < |view| ==> view[next] == c
  {
    next := location;
    while next < |view| && view[next] != c
      invariant location <= next <= |view|
      invariant forall k | location <= k < next :: view[k] != c
    {
      next := next + 1;
    }
  }

  lemma {:induction false} NoDelimiter(special: bool, view: string, i: nat, next: nat)
    requires i <= next <= |view|
    requires forall k | i <= k < next :: view[k] != '[' && !EndsHost(special, view[k])
    ensures HostEnd(special, view, i, false) == HostEnd(special, view, next, false)
    decreases next - i
  {
    if i < next {
      NoDelimiter(special, view, i + 1, next);
    }
  }

  lemma {:induction false} NoBracket(special: bool, view: string, i: nat, next: nat)
    requires i <= next <= |view|
    requires forall k | i <= k < next :: view[k] != ']'
    ensures HostEnd(special, view, i, true) == HostEnd(special, view, next, true)
    decreases next - i
  {
    if i < next {
      NoBracket(special, view, i + 1, next);
    }
  }

  /** Jumping from delimiter to delimiter finds the end that reading byte by byte does. */
  method GetHostDelimiterLocation(special: bool, view: string) returns (location: nat, foundColon: bool)
    ensures location == HostEnd(special, view, 0, false)
    ensures foundColon <==> location < |view| && view[location] == ':'
  {
    foundColon := false;
    location := FindNextHostDelimiter(special, view, 0);
    NoDelimiter(special, view, 0, location);
    while location < |view|
      invariant location <= |view|
      invariant HostEnd(special, view, location, false) == HostEnd(special, view, 0, false)
      invariant location < |view| ==> view[location] == '[' || EndsHost(special, view[location])
    {
      if view[location] == '[' {
        var opening := location;
        location := Find(view, ']', location);
        NoBracket(special, view, opening + 1, location);
        if location == |view| {
          return;
        }
      } else {
        foundColon := view[location] == ':';
        return;
      }
      var closing := location;
      location := FindNextHostDelimiter(special, view, location);
      NoDelimiter(special, view, closing, location);
    }
  }

  // What the setters are given, and what they make of it.

  /** The index of the first byte of `s` that is one of `marks`. */
  function FirstOf(s: string, marks: string): (i: nat)
    ensures i <= |s|
    ensures forall k | 0 <= k < i :: s[k] !in marks
    ensures i < |s| ==> s[i] in marks
  {
    if s == "" || s[0] in marks then 0 else 1 + FirstOf(s[1..], marks)
  }

  /** The host, and the text of the port where a colon ends the host. */
  datatype HostInput = HostInput(host: string, port: Option<string>)

  function Cleaned(input: string): string {
    WithoutTabsAndNewlines(input[..FirstOf(input, "#")])
  }

  function SplitHost(t: SchemeType, input: string): HostInput {
    var view := Cleaned(input);
    if t == FILE then HostInput(view[..FirstOf(view, "/\\?")], None)
    else
      var end := HostEnd(t != NOT_SPECIAL, view, 0, false);
      HostInput(view[..end], if end < |view| && view[end] == ':' then Some(view[end + 1..]) else None)
  }

  /** A parsed host, and whether parsing it made the URL count as valid again; or a refusal, before which
      another host may have been written. */
  datatype HostParse = Parsed(host: string, resetsValid: bool) | Refused(written: Option<string>)

  /** The setters that return without a look at the host. */
  predicate RefusedAtOnce(u: Url, t: SchemeType, overrideHostname: bool, parts: HostInput) {
    || u.hasOpaquePath
    || (t != FILE && parts.port.Some? && (parts.host == "" || overrideHostname))
    || (t != FILE && parts.port.None? && parts.host == "" &&
        (t != NOT_SPECIAL || HasCredentials(u) || u.port.Some?))
  }

  /** No host becomes an empty one only where a marker shows, and a file URL has no host `localhost`. */
  function HostAfter(u: Url, t: SchemeType, overrideHostname: bool, input: string, valid: bool,
                     parseHost: string -> HostParse): Url
  {
    var parts := SplitHost(t, input);
    if RefusedAtOnce(u, t, overrideHostname, parts) then u
    else if parts.host == "" then
      if u.host.Some? || (t != FILE && NeedsMarker(u)) then u.(host := Some("")) else u
    else
      match parseHost(parts.host)
      case Refused(_) => WithAuthority(u)
      case Parsed(host, resetsValid) =>
        if t == FILE then u.(host := Some(if host == "localhost" && !HasCredentials(u) then "" else host))
        else WithPort(u.(host := Some(host)), t, parts.port, valid || resetsValid)
  }

  function WithPort(u: Url, t: SchemeType, port: Option<string>, valid: bool): Url {
    if port.None? || port.value == "" then u else u.(port := PortAfter(u, t, port.value, valid))
  }

  /** After a refusal the URL counts as invalid until a port is read. */
  predicate ValidAfterPort(u: Url, t: SchemeType, port: Option<string>, valid: bool, parsed: HostParse) {
    match parsed
    case Refused(_) => false
    case Parsed(host, resetsValid) =>
      || valid
      || resetsValid
      || (port.Some? && port.value != "" && ReadsPort(u.(host := Some(host)), t, port.value))
  }

  predicate ValidAfter(u: Url, t: SchemeType, overrideHostname: bool, input: string, valid: bool,
                       parseHost: string -> HostParse)
  {
    var parts := SplitHost(t, input);
    if RefusedAtOnce(u, t, overrideHostname, parts) || parts.host == "" then valid
    else ValidAfterPort(u, t, parts.port, valid, parseHost(parts.host))
  }

  predicate SetsHost(u: Url, t: SchemeType, overrideHostname: bool, input: string, parseHost: string -> HostParse) {
    var parts := SplitHost(t, input);
    !RefusedAtOnce(u, t, overrideHostname, parts) && (parts.host == "" || parseHost(parts.host).Parsed?)
  }

  /** What the two setters accept. Both need a path that is not opaque and, if text for a host is given, that it
      parses. A file URL asks for nothing more. Elsewhere `set_hostname` takes no port, and no port comes without
      a host; and the host may be empty only in a URL that is not special and has no credentials and no port. */
  predicate IsAccepted(u: Url, t: SchemeType, overrideHostname: bool, host: string, port: Option<string>,
                       parseHost: string -> HostParse)
  {
    && !u.hasOpaquePath
    && (host == "" || parseHost(host).Parsed?)
    && (t == FILE ||
        match port
        case Some(_) => !overrideHostname && host != ""
        case None => host != "" || (t == NOT_SPECIAL && u.username == "" && u.password == "" && u.port.None?))
  }

  /** The name of this machine is no host of a file, unless its URL has credentials. */
  function FileHost(u: Url, host: string): string {
    if host == "localhost" && u.username == "" && u.password == "" then "" else host
  }

  lemma HostRules(u: Url, t: SchemeType, overrideHostname: bool, input: string, valid: bool,
                  parseHost: string -> HostParse)
    ensures var parts, v := SplitHost(t, input), HostAfter(u, t, overrideHostname, input, valid, parseHost);
      var done := SetsHost(u, t, overrideHostname, input, parseHost);
      && v.(host := u.host, port := u.port) == u
      && (overrideHostname ==> v.port == u.port)
      && (overrideHostname && t != FILE && parts.port.Some? ==> !done && v == u)
      && (done <==> IsAccepted(u, t, overrideHostname, parts.host, parts.port, parseHost))
      && (!done && !(parts.host != "" && parseHost(parts.host).Refused?) ==>
            v == u && !KeepsMarker(u, t, overrideHostname, input, parseHost))
      && (overrideHostname && t != FILE && parts.port.Some? ==>
            !KeepsMarker(u, t, overrideHostname, input, parseHost))
      && (done && parts.host != "" && t != FILE ==> v.host == Some(parseHost(parts.host).host))
      && (done && parts.host != "" && t == FILE ==> v.host == Some(FileHost(u, parseHost(parts.host).host)))
      && (done && parts.host == "" ==>
            v.host == if u.host.Some? || (t != FILE && StartsWith(u.path, "//")) then Some("") else None)
      && (!done || t == FILE || parts.port.None? || parts.port.value == "" ==> v.port == u.port)
  {
    hide SplitHost, PortAfter;
  }

  /** The marker is taken away only behind a host that was set without a port, in a URL that is no file. */
  predicate KeepsMarker(u: Url, t: SchemeType, overrideHostname: bool, input: string,
                        parseHost: string -> HostParse)
  {
    var parts := SplitHost(t, input);
    && NeedsMarker(u)
    && parts.host != ""
    && !RefusedAtOnce(u, t, overrideHostname, parts)
    && (t == FILE || parts.port.Some? || parseHost(parts.host).Refused?)
  }

  /** A setter that returns false has left the URL as it was, unless it gave a URL without a host an empty one. */
  lemma WhatRefusalChanges(u: Url, t: SchemeType, overrideHostname: bool, input: string, valid: bool,
                           parseHost: string -> HostParse)
    requires !SetsHost(u, t, overrideHostname, input, parseHost)
    ensures HostAfter(u, t, overrideHostname, input, valid, parseHost) == u
      <==> u.host.Some? || RefusedAtOnce(u, t, overrideHostname, SplitHost(t, input))
  {
  }

  /** A `[` on its own, which the parser refuses, set on a URL without a host: `web:/p` becomes `web:///p`. */
  lemma RefusedHostBecomesEmpty(parseHost: string -> HostParse, valid: bool)
    requires parseHost("[").Refused?
    ensures var u := Url("web:", "", "", None, None, "/p", None, None, false);
      var v := HostAfter(u, NOT_SPECIAL, false, "[", valid, parseHost);
      && !SetsHost(u, NOT_SPECIAL, false, "[", parseHost)
      && !KeepsMarker(u, NOT_SPECIAL, false, "[", parseHost)
      && !ValidAfter(u, NOT_SPECIAL, false, "[", valid, parseHost)
      && Href(u) == "web:/p" && Href(v) == "web:///p"
  {
    assert FirstOf("[", "#") == 1 && WithoutTabsAndNewlines("[") == "[" && "["[..1] == "[";
    assert HostEnd(false, "[", 0, false) == 1;
    assert "/p"[1] == 'p' && !("//" <= "/p");
  }

  /** 32-bit offsets suffice for the URL with a parsed host, and for each one written on the way. */
  predicate HostFits(s: Shape, r: HostParse) {
    match r
    case Parsed(host, _) =>
      && !StartsWith(host, "@")
      && Fits(SetHostname(s, host))
      && forall port: nat | port <= 0xFFFF :: Fits(SetPort(SetHostname(s, host), Some(port)))
    case Refused(written) =>
      written.Some? ==> !StartsWith(written.value, "@") && Fits(SetHostname(s, written.value))
  }

  /** 32-bit offsets suffice for an empty host and for the one that is parsed, if one is. */
  predicate HasRoomForHost(s: Shape, t: SchemeType, overrideHostname: bool, input: string,
                           parseHost: string -> HostParse)
  {
    var parts := SplitHost(t, input);
    Fits(AddSlashes(s)) &&
    (RefusedAtOnce(s.url, t, overrideHostname, parts) || parts.host == "" || HostFits(s, parseHost(parts.host)))
  }

  method GetHostname(a: Aggregator) returns (host: string)
    requires a.Valid()
    ensures host == if a.shape.url.host.Some? then a.shape.url.host.value else ""
  {
    hide Text, ComponentsOf, Sound, Fits;
    HostInBuffer(a.shape);
    var start := a.components.hostStart;
    if a.components.hostEnd > start && a.buffer[start] == '@' {
      start := start + 1;
    }
    return a.buffer[start..a.components.hostEnd];
  }

  lemma HostInBuffer(s: Shape)
    requires Sound(s) && Fits(s)
    ensures var c, text := ComponentsOf(s), Text(s);
      var start := if s.at then c.hostStart + 1 else c.hostStart;
      && c.hostStart <= start <= c.hostEnd <= |text|
      && text[start..c.hostEnd] == (if s.url.host.Some? then s.url.host.value else "")
      && (c.hostEnd > c.hostStart && text[c.hostStart] == '@' <==> s.at)
  {
    hide Layout, Text, OffsetsOf, HasAuthority;
    UrlReading.AuthorityReadsBack(s);
    OffsetsSpelledOut(s);
    PiecesAt(s);
  }

  method ParseHost(a: Aggregator, view: string, parseHost: string -> HostParse) returns (succeeded: bool)
    requires a.Valid() && !a.hasOpaquePath
    requires HostFits(a.shape, parseHost(view))
    modifies a
    ensures a.Valid() && a.schemeType == old(a.schemeType)
    ensures succeeded <==> parseHost(view).Parsed?
    ensures match parseHost(view)
      case Parsed(host, resetsValid) =>
        a.shape == SetHostname(old(a.shape), host) && a.isValid == (old(a.isValid) || resetsValid)
      case Refused(written) =>
        && a.shape == (if written.Some? then SetHostname(old(a.shape), written.value) else old(a.shape))
        && !a.isValid
  {
    hide Fits, Sound, Text, ComponentsOf;
    match parseHost(view) {
      case Parsed(host, resetsValid) =>
        a.UpdateBaseHostname(host);
        a.isValid := a.isValid || resetsValid;
        return true;
      case Refused(written) =>
        if written.Some? {
          a.UpdateBaseHostname(written.value);
        }
        a.isValid := false;
        return false;
    }
  }

  /** After a refusal the old host is written back; a missing one comes back empty. */
  method RestoreHost(a: Aggregator, previousHost: string, previousPort: uint32, ghost s: Shape)
    requires Sound(s) && Fits(s) && Canonical(s) && Fits(AddSlashes(s))
    requires previousHost == (if s.url.host.Some? then s.url.host.value else "")
    requires previousPort == ComponentsOf(s).port
    requires a.Valid() && !a.hasOpaquePath
    requires a.shape.url.(host := s.url.host) == s.url && a.shape.marker == s.marker
    modifies a
    ensures a.Valid() && a.shape == AddSlashes(s)
    ensures a.schemeType == old(a.schemeType) && a.isValid == old(a.isValid)
  {
    hide Fits, Text, ComponentsOf;
    PortInComponents(s);
    assert SetHostname(a.shape, previousHost) == AddSlashes(s);
    a.UpdateBaseHostname(previousHost);
    SamePort(a.shape);
    a.UpdateBasePort(previousPort);
  }

  /** The shape that the setters leave. */
  function HostShape(u: Url, v: Url, keepsMarker: bool): Shape {
    Shape(v, HasCredentials(u), keepsMarker || NeedsMarker(v))
  }

  method SetHostAndPort(a: Aggregator, host: string, port: string, parseHost: string -> HostParse)
    returns (done: bool)
    requires a.Valid() && Canonical(a.shape) && !a.hasOpaquePath && a.schemeType != FILE
    requires HostFits(a.shape, parseHost(host)) && Fits(AddSlashes(a.shape))
    modifies a
    ensures a.Valid() && a.schemeType == old(a.schemeType)
    ensures done <==> parseHost(host).Parsed?
    ensures a.isValid == ValidAfterPort(old(a.shape.url), a.schemeType, Some(port), old(a.isValid), parseHost(host))
    ensures match parseHost(host)
      case Refused(_) =>
        a.shape == HostShape(old(a.shape.url), WithAuthority(old(a.shape.url)), NeedsMarker(old(a.shape.url)))
      case Parsed(h, resetsValid) =>
        var u, valid := old(a.shape.url), old(a.isValid) || resetsValid;
        a.shape == HostShape(u, WithPort(u.(host := Some(h)), a.schemeType, Some(port), valid), NeedsMarker(u))
  {
    hide Fits, Text, ComponentsOf, PortAfter;
    ghost var s := a.shape;
    var previousHost := GetHostname(a);
    var previousPort := a.components.port;
    var succeeded := ParseHost(a, host, parseHost);
    if !succeeded {
      RestoreHost(a, previousHost, previousPort, s);
      return false;
    }
    if port != "" {
      var _ := SetThePort(a, port);
    }
    return true;
  }

  method SetHostAlone(a: Aggregator, host: string, parseHost: string -> HostParse) returns (done: bool)
    requires a.Valid() && Canonical(a.shape) && !a.hasOpaquePath && a.schemeType != FILE
    requires HostFits(a.shape, parseHost(host)) && Fits(AddSlashes(a.shape))
    modifies a
    ensures a.Valid() && a.schemeType == old(a.schemeType)
    ensures done <==> parseHost(host).Parsed?
    ensures match parseHost(host)
      case Refused(_) =>
        a.shape == HostShape(old(a.shape.url), WithAuthority(old(a.shape.url)), NeedsMarker(old(a.shape.url)))
      case Parsed(h, resetsValid) =>
        a.shape == HostShape(old(a.shape.url), old(a.shape.url).(host := Some(h)), false)
    ensures a.isValid == ValidAfterPort(old(a.shape.url), a.schemeType, None, old(a.isValid), parseHost(host))
  {
    hide Fits, Text, ComponentsOf, LooksLikeDashDot;
    ghost var s := a.shape;
    var previousHost := GetHostname(a);
    var previousPort := a.components.port;
    var succeeded := ParseHost(a, host, parseHost);
    if !succeeded {
      RestoreHost(a, previousHost, previousPort, s);
      return false;
    }
    DashDotRead(a.shape);
    PortNeedsHost(s);
    if HasDashDot(a.buffer, a.components, a.hasOpaquePath) {
      a.DeleteDashDot();
    }
    return true;
  }

  method ClearTheHost(a: Aggregator)
    requires a.Valid() && Canonical(a.shape) && !a.hasOpaquePath
    requires Fits(AddSlashes(a.shape))
    modifies a
    ensures a.Valid() && a.schemeType == old(a.schemeType) && a.isValid == old(a.isValid)
    ensures a.shape == HostShape(old(a.shape.url),
      if old(a.shape.url).host.Some? || NeedsMarker(old(a.shape.url)) then old(a.shape.url).(host := Some(""))
      else old(a.shape.url),
      false)
  {
    hide Fits, Text, ComponentsOf, LooksLikeDashDot, HasAuthority;
    AuthorityRead(a.shape);
    DashDotRead(a.shape);
    PortNeedsHost(a.shape);
    if HasAuthority(a.buffer, a.components) {
      a.ClearHostname();
    } else if HasDashDot(a.buffer, a.components, a.hasOpaquePath) {
      a.AddAuthoritySlashesIfNeeded();
      a.DeleteDashDot();
    }
  }

  /** No host: refused by a special URL, and by one with credentials or a port. */
  method SetEmptyHost(a: Aggregator) returns (done: bool)
    requires a.Valid() && Canonical(a.shape) && !a.hasOpaquePath
    requires Fits(AddSlashes(a.shape))
    modifies a
    ensures a.Valid() && a.schemeType == old(a.schemeType) && a.isValid == old(a.isValid)
    ensures var u := old(a.shape.url);
      && (done <==> a.schemeType == NOT_SPECIAL && !HasCredentials(u) && u.port.None?)
      && (!done ==> a.shape == old(a.shape))
      && (done ==>
            a.shape == HostShape(u, if u.host.Some? || NeedsMarker(u) then u.(host := Some("")) else u, false))
  {
    hide Fits, Text, ComponentsOf, HostShape, Canonical;
    CredentialsAndPortRead(a.shape);
    if a.schemeType != NOT_SPECIAL || HasNonEmptyUsername(a.components) || HasNonEmptyPassword(a.components)
       || HasPort(a.buffer, a.components) {
      return false;
    }
    ClearTheHost(a);
    return true;
  }

  method SetFileHost(a: Aggregator, host: string, parseHost: string -> HostParse) returns (done: bool)
    requires a.Valid() && Canonical(a.shape) && !a.hasOpaquePath && a.schemeType == FILE
    requires host != "" ==> HostFits(a.shape, parseHost(host)) && Fits(AddSlashes(a.shape))
    modifies a
    ensures a.Valid() && a.schemeType == old(a.schemeType)
    ensures done <==> host == "" || parseHost(host).Parsed?
    ensures host == "" ==>
      a.shape == UrlEdits.ClearHostname(old(a.shape)) && a.isValid == old(a.isValid)
    ensures host != "" ==> match parseHost(host)
      case Refused(_) =>
        a.shape == HostShape(old(a.shape.url), WithAuthority(old(a.shape.url)), NeedsMarker(old(a.shape.url)))
      case Parsed(h, resetsValid) =>
        var u := old(a.shape.url);
        a.shape == HostShape(u,
          u.(host := Some(if h == "localhost" && !HasCredentials(u) then "" else h)), NeedsMarker(u))
    ensures host != "" ==>
      a.isValid == ValidAfterPort(old(a.shape.url), a.schemeType, None, old(a.isValid), parseHost(host))
  {
    hide Fits, Text, ComponentsOf;
    ghost var s := a.shape;
    if host == "" {
      a.ClearHostname();
      return true;
    }
    var previousHost := GetHostname(a);
    var previousPort := a.components.port;
    var succeeded := ParseHost(a, host, parseHost);
    if !succeeded {
      RestoreHost(a, previousHost, previousPort, s);
      return false;
    }
    LocalhostRead(a.shape);
    if a.buffer[a.components.hostStart..a.components.hostEnd] == "localhost" {
      a.ClearHostname();
    }
    return true;
  }

  lemma LocalhostRead(s: Shape)
    requires Sound(s) && Fits(s) && s.url.host.Some?
    ensures var c := ComponentsOf(s);
      && c.hostStart <= c.hostEnd <= |Text(s)|
      && (Text(s)[c.hostStart..c.hostEnd] == "localhost" <==> !s.at && s.url.host.value == "localhost")
  {
    hide Layout, Text, OffsetsOf;
    HostInBuffer(s);
    if s.at {
      assert Text(s)[ComponentsOf(s).hostStart..ComponentsOf(s).hostEnd][0] == '@';
    }
  }

  predicate HasPort(buffer: string, c: Components) {
    HasAuthority(buffer, c) && c.pathnameStart != c.hostEnd
  }

  lemma CredentialsAndPortRead(s: Shape)
    requires Sound(s) && Fits(s) && Canonical(s)
    ensures HasNonEmptyUsername(ComponentsOf(s)) || HasNonEmptyPassword(ComponentsOf(s)) <==> HasCredentials(s.url)
    ensures HasPort(Text(s), ComponentsOf(s)) <==> s.url.port.Some?
  {
    hide Layout, Text, OffsetsOf, HasAuthority, Decimal;
    AuthorityRead(s);
    CredentialsRead(s);
    OffsetsSpelledOut(s);
    PiecesAt(s);
  }

  lemma CanonicalShape(s: Shape)
    requires Sound(s) && Canonical(s)
    ensures s == HostShape(s.url, s.url, false)
    ensures UrlEdits.ClearHostname(s) ==
      HostShape(s.url, if s.url.host.Some? then s.url.(host := Some("")) else s.url, false)
  {
  }

  lemma HostAfterKeeps(u: Url, t: SchemeType, overrideHostname: bool, input: string, valid: bool,
                       parseHost: string -> HostParse)
    ensures forall x: Url, now: bool {:trigger WithPort(x, t, None, now)} :: WithPort(x, t, None, now) == x
    ensures var v := HostAfter(u, t, overrideHostname, input, valid, parseHost);
      && HasCredentials(v) == HasCredentials(u)
      && v.hasOpaquePath == u.hasOpaquePath
      && (KeepsMarker(u, t, overrideHostname, input, parseHost) ==> v.host.Some?)
  {
  }

  lemma HostSerialized(s: Shape, v: Url, keepsMarker: bool, a: Aggregator)
    requires Sound(s) && Canonical(s)
    requires HasCredentials(v) == HasCredentials(s.url) && v.hasOpaquePath == s.url.hasOpaquePath
    requires keepsMarker ==> v.host.Some?
    ensures a.Valid() && a.shape == HostShape(s.url, v, keepsMarker) ==>
      (a.buffer == Href(v) <==> !keepsMarker) && (!keepsMarker ==> Serializes(a, v))
  {
    hide Text, Fits, Href, Validate, ComponentsOf;
    if a.Valid() && a.shape == HostShape(s.url, v, keepsMarker) {
      OnlyCanonicalIsHref(a.shape);
      if !keepsMarker {
        SerializedAgain(a, v);
      }
    }
  }

  /** The body of the two setters. */
  method WriteHost(a: Aggregator, overrideHostname: bool, input: string, parseHost: string -> HostParse)
    returns (done: bool)
    requires a.Valid() && Canonical(a.shape)
    requires HasRoomForHost(a.shape, a.schemeType, overrideHostname, input, parseHost)
    modifies a
    ensures done <==> SetsHost(old(a.shape.url), a.schemeType, overrideHostname, input, parseHost)
    ensures a.Valid()
    ensures var u := old(a.shape.url);
      var v := HostAfter(u, a.schemeType, overrideHostname, input, old(a.isValid), parseHost);
      var keepsMarker := KeepsMarker(u, a.schemeType, overrideHostname, input, parseHost);
      a.shape == HostShape(u, v, keepsMarker)
    ensures a.schemeType == old(a.schemeType)
    ensures a.isValid ==
      ValidAfter(old(a.shape.url), a.schemeType, overrideHostname, input, old(a.isValid), parseHost)
  {
    hide Fits, Text, ComponentsOf, Sound, Href, Validate, PortAfter, HostFits;
    hide HostEnd, FirstOf, WithoutTabsAndNewlines, Canonical, HasAuthority, HasCredentials, NeedsMarker, HostShape;
    hide WithPort, ValidAfterPort, WithAuthority, SerializedShape, Serializes, UrlEdits.ClearHostname;
    ghost var s := a.shape;
    ghost var v := HostAfter(s.url, a.schemeType, overrideHostname, input, a.isValid, parseHost);
    ghost var keepsMarker := KeepsMarker(s.url, a.schemeType, overrideHostname, input, parseHost);
    CanonicalShape(s);
    HostAfterKeeps(s.url, a.schemeType, overrideHostname, input, a.isValid, parseHost);
    if a.hasOpaquePath {
      return false;
    }
    var host := RemoveTabsAndNewlines(input[..FirstOf(input, "#")]);
    if a.schemeType == FILE {
      assert SplitHost(a.schemeType, input) == HostInput(host[..FirstOf(host, "/\\?")], None);
      hide SplitHost;
      done := SetFileHost(a, host[..FirstOf(host, "/\\?")], parseHost);
    } else {
      var location, foundColon := GetHostDelimiterLocation(a.schemeType != NOT_SPECIAL, host);
      var hostView := host[..location];
      assert SplitHost(a.schemeType, input) ==
        HostInput(hostView, if foundColon then Some(host[location + 1..]) else None);
      hide SplitHost;
      if foundColon {
        if hostView == "" || overrideHostname {
          return false;
        }
        done := SetHostAndPort(a, hostView, host[location + 1..], parseHost);
      } else if hostView != "" {
        done := SetHostAlone(a, hostView, parseHost);
      } else {
        done := SetEmptyHost(a);
      }
    }
  }

  /** Whatever the setters are given, the buffer is the serialization of the record with the new host,
      except that a marker may stay behind it. */
  method SetHostOrHostname(a: Aggregator, overrideHostname: bool, input: string, parseHost: string -> HostParse)
    returns (done: bool)
    requires a.Valid() && Canonical(a.shape)
    requires HasRoomForHost(a.shape, a.schemeType, overrideHostname, input, parseHost)
    modifies a
    ensures done <==> SetsHost(old(a.shape.url), a.schemeType, overrideHostname, input, parseHost)
    ensures a.shape.url.(host := old(a.shape.url.host), port := old(a.shape.url.port)) == old(a.shape.url)
    ensures overrideHostname ==> a.shape.url.port == old(a.shape.url.port)
    ensures var parts := SplitHost(a.schemeType, input);
      && (overrideHostname && a.schemeType != FILE && parts.port.Some? ==> !done && a.shape == old(a.shape))
      && (done <==> IsAccepted(old(a.shape.url), a.schemeType, overrideHostname, parts.host, parts.port, parseHost))
      && (!done && !(parts.host != "" && parseHost(parts.host).Refused?) ==> a.shape == old(a.shape))
      && (done && parts.host != "" && a.schemeType != FILE ==> a.shape.url.host == Some(parseHost(parts.host).host))
      && (!done || a.schemeType == FILE || parts.port.None? || parts.port.value == "" ==>
            a.shape.url.port == old(a.shape.url.port))
    ensures var u, host := old(a.shape.url), SplitHost(a.schemeType, input).host;
      && (done && host != "" && a.schemeType == FILE ==> a.shape.url.host == Some(FileHost(u, parseHost(host).host)))
      && (done && host == "" ==>
            a.shape.url.host ==
              if u.host.Some? || (a.schemeType != FILE && StartsWith(u.path, "//")) then Some("") else None)
    ensures a.Valid()
    ensures var u := old(a.shape.url);
      var v := HostAfter(u, a.schemeType, overrideHostname, input, old(a.isValid), parseHost);
      var keepsMarker := KeepsMarker(u, a.schemeType, overrideHostname, input, parseHost);
      && a.shape == HostShape(u, v, keepsMarker)
      && (a.buffer == Href(v) <==> !keepsMarker)
      && (!keepsMarker ==> Serializes(a, v))
    ensures a.schemeType == old(a.schemeType)
    ensures a.isValid ==
      ValidAfter(old(a.shape.url), a.schemeType, overrideHostname, input, old(a.isValid), parseHost)
  {
    hide Fits, Text, ComponentsOf, Sound, Href, Validate, HostFits, SplitHost, HostAfter, KeepsMarker, SetsHost;
    hide ValidAfter, RefusedAtOnce, IsAccepted, FileHost, Canonical, HasRoomForHost, Serializes;
    ghost var s, t, valid := a.shape, a.schemeType, a.isValid;
    ghost var v := HostAfter(s.url, t, overrideHostname, input, valid, parseHost);
    ghost var keepsMarker := KeepsMarker(s.url, t, overrideHostname, input, parseHost);
    CanonicalShape(s);
    HostAfterKeeps(s.url, t, overrideHostname, input, valid, parseHost);
    HostRules(s.url, t, overrideHostname, input, valid, parseHost);
    done := WriteHost(a, overrideHostname, input, parseHost);
    HostSerialized(s, v, keepsMarker, a);
  }

  // Where text is cut, byte by byte.

  predicate IsKept(c: char) {
    c != '#' && c != '\t' && c != '\n' && c != '\r'
  }

  predicate IsClean(s: string) {
    forall k | 0 <= k < |s| :: IsKept(s[k])
  }

  /** Nothing in the text ends a host or opens a bracket. */
  predicate IsBare(special: bool, s: string) {
    forall k | 0 <= k < |s| ::
      IsKept(s[k]) && s[k] != ':' && s[k] != '/' && s[k] != '?' && s[k] != '[' && (special ==> s[k] != '\\')
  }

  /** A host that ends only where the text does. */
  predicate IsPlain(host: string) {
    host != "" && !StartsWith(host, "@") && IsBare(false, host)
  }

  lemma NothingToClean(s: string)
    requires IsClean(s)
    ensures Cleaned(s) == s
  {
    NothingToRemove(s);
    assert FirstOf(s, "#") == |s| && s[..|s|] == s;
  }

  lemma {:induction false} FirstFound(a: string, marks: string, b: string)
    requires forall k | 0 <= k < |a| :: a[k] !in marks
    requires b == "" || b[0] in marks
    ensures FirstOf(a + b, marks) == |a|
  {
    if a == "" {
      assert a + b == b;
    } else {
      assert (a + b)[1..] == a[1..] + b;
      FirstFound(a[1..], marks, b);
    }
  }

  lemma CleanedBefore(a: string, b: string)
    requires '#' !in a && (b == "" || b[0] == '#')
    ensures Cleaned(a + b) == WithoutTabsAndNewlines(a)
  {
    hide WithoutTabsAndNewlines;
    FirstFound(a, "#", b);
    assert (a + b)[..|a|] == a;
  }

  lemma CleanedWithout(a: string, c: char, b: string)
    requires '#' !in a && (c == '\t' || c == '\n' || c == '\r')
    ensures Cleaned(a + [c] + b) == Cleaned(a + b)
  {
    var n := FirstOf(b, "#");
    var d, e := b[..n], b[n..];
    assert a + b == (a + d) + e && a + [c] + b == (a + [c] + d) + e;
    CleanedBefore(a + d, e);
    CleanedBefore(a + [c] + d, e);
    RemovedInTurn(a, d);
    RemovedInTurn(a + [c], d);
    RemovedInTurn(a, [c]);
    assert WithoutTabsAndNewlines([c]) == "";
    hide WithoutTabsAndNewlines;
    assert WithoutTabsAndNewlines(a) + "" == WithoutTabsAndNewlines(a);
  }

  /** A `#` and what is behind it, and every tab and newline, are not looked at. */
  lemma SplitIgnores(t: SchemeType, a: string, c: char, b: string)
    requires '#' !in a
    ensures SplitHost(t, a + "#" + b) == SplitHost(t, a)
    ensures c == '\t' || c == '\n' || c == '\r' ==> SplitHost(t, a + [c] + b) == SplitHost(t, a + b)
  {
    hide HostEnd, Cleaned;
    CleanedBefore(a, "");
    CleanedBefore(a, "#" + b);
    assert a + "" == a && a + "#" + b == a + ("#" + b);
    if c == '\t' || c == '\n' || c == '\r' {
      CleanedWithout(a, c, b);
    }
  }

  lemma BareEnds(special: bool, view: string, i: nat, a: string)
    requires IsBare(special, a) && i + |a| <= |view| && view[i..i + |a|] == a
    ensures HostEnd(special, view, i, false) == HostEnd(special, view, i + |a|, false)
  {
    forall k | i <= k < i + |a|
      ensures view[k] != '[' && !EndsHost(special, view[k])
    {
      assert view[k] == view[i..i + |a|][k - i];
    }
    NoDelimiter(special, view, i, i + |a|);
  }

  lemma BracketsEnd(special: bool, view: string, i: nat, b: string)
    requires ']' !in b && i + |b| + 2 <= |view| && view[i..i + |b| + 2] == "[" + b + "]"
    ensures HostEnd(special, view, i, false) == HostEnd(special, view, i + |b| + 2, false)
  {
    var text, j := "[" + b + "]", i + |b| + 1;
    assert forall k | i <= k <= j :: view[k] == view[i..j + 1][k - i];
    assert text[0] == '[' && text[|b| + 1] == ']' && forall k | 0 < k <= |b| :: text[k] == b[k - 1];
    NoBracket(special, view, i + 1, j);
  }

  lemma FourParts(a: string, b: string, c: string, d: string)
    ensures var s := a + b + c + d;
      && s[0..|a|] == a && s[|a|..|a| + |b|] == b && s[|a| + |b|..|a| + |b| + |c|] == c
      && s[|a| + |b| + |c|..] == d
  {
  }

  /** Text in brackets, if there is any, between text that is bare. */
  lemma HostEndsBehind(special: bool, a: string, b: Option<string>, c: string, rest: string)
    requires IsBare(special, a) && IsBare(special, c) && (b.Some? ==> ']' !in b.value)
    requires rest == "" || rest[0] == ':' || rest[0] == '/' || rest[0] == '?' || (special && rest[0] == '\\')
    ensures var host := a + (if b.Some? then "[" + b.value + "]" else "") + c;
      HostEnd(special, host + rest, 0, false) == |host|
  {
    hide HostEnd, IsBare;
    var text := if b.Some? then "[" + b.value + "]" else "";
    FourParts(a, text, c, rest);
    EndsBehindParts(special, a + text + c + rest, a, text, b, c, rest);
  }

  lemma EndsBehindParts(special: bool, view: string, a: string, text: string, b: Option<string>, c: string,
                        rest: string)
    requires IsBare(special, a) && IsBare(special, c)
    requires if b.Some? then text == "[" + b.value + "]" && ']' !in b.value else text == ""
    requires rest == "" || rest[0] == ':' || rest[0] == '/' || rest[0] == '?' || (special && rest[0] == '\\')
    requires |a| + |text| + |c| <= |view| && view[0..|a|] == a && view[|a|..|a| + |text|] == text
    requires view[|a| + |text|..|a| + |text| + |c|] == c && view[|a| + |text| + |c|..] == rest
    ensures HostEnd(special, view, 0, false) == |a| + |text| + |c|
  {
    hide HostEnd, IsBare;
    BareEnds(special, view, 0, a);
    if b.Some? {
      BracketsEnd(special, view, |a|, b.value);
    }
    BareEnds(special, view, |a| + |text|, c);
    StopsAt(special, view, |a| + |text| + |c|, rest);
  }

  lemma StopsAt(special: bool, view: string, i: nat, rest: string)
    requires i <= |view| && view[i..] == rest
    requires rest == "" || rest[0] == ':' || rest[0] == '/' || rest[0] == '?' || (special && rest[0] == '\\')
    ensures HostEnd(special, view, i, false) == i
  {
    assert rest != "" ==> view[i] == rest[0];
  }

  /** The host ends at the first colon, slash or question mark outside of brackets, in special URLs also at the first
      backslash; behind a colon is the port. */
  lemma HostIsCut(t: SchemeType, a: string, b: Option<string>, c: string, rest: string)
    requires t != FILE && IsBare(t != NOT_SPECIAL, a) && IsBare(t != NOT_SPECIAL, c)
    requires (b.Some? ==> ']' !in b.value && IsClean(b.value)) && IsClean(rest)
    ensures var host := a + (if b.Some? then "[" + b.value + "]" else "") + c;
      && SplitHost(t, host) == HostInput(host, None)
      && SplitHost(t, host + ":" + rest) == HostInput(host, Some(rest))
      && SplitHost(t, host + "/" + rest) == HostInput(host, None)
      && SplitHost(t, host + "?" + rest) == HostInput(host, None)
      && (t != NOT_SPECIAL ==> SplitHost(t, host + "\\" + rest) == HostInput(host, None))
  {
    HostIsClean(t, a, b, c);
    hide SplitHost, HostEnd, IsBare, IsClean;
    HostIsCutAt(t, a, b, c, "");
    HostIsCutAt(t, a, b, c, ":" + rest);
    HostIsCutAt(t, a, b, c, "/" + rest);
    HostIsCutAt(t, a, b, c, "?" + rest);
    if t != NOT_SPECIAL {
      HostIsCutAt(t, a, b, c, "\\" + rest);
    }
    Joined(a + (if b.Some? then "[" + b.value + "]" else "") + c, rest);
  }

  lemma Joined(host: string, rest: string)
    ensures host + "" == host && forall c: char :: host + [c] + rest == host + ([c] + rest)
    ensures (":" + rest)[1..] == rest
  {
  }

  lemma HostIsClean(t: SchemeType, a: string, b: Option<string>, c: string)
    requires IsBare(t != NOT_SPECIAL, a) && IsBare(t != NOT_SPECIAL, c) && (b.Some? ==> IsClean(b.value))
    ensures IsClean(a + (if b.Some? then "[" + b.value + "]" else "") + c)
    ensures forall rest: string :: IsClean(rest) ==>
      IsClean("") && IsClean(":" + rest) && IsClean("/" + rest) && IsClean("?" + rest) && IsClean("\\" + rest)
  {
  }

  lemma HostIsCutAt(t: SchemeType, a: string, b: Option<string>, c: string, rest: string)
    requires t != FILE && IsBare(t != NOT_SPECIAL, a) && IsBare(t != NOT_SPECIAL, c)
    requires (b.Some? ==> ']' !in b.value) && IsClean(rest)
    requires IsClean(a + (if b.Some? then "[" + b.value + "]" else "") + c)
    requires rest == "" || rest[0] == ':' || rest[0] == '/' || rest[0] == '?' || (t != NOT_SPECIAL && rest[0] == '\\')
    ensures var host := a + (if b.Some? then "[" + b.value + "]" else "") + c;
      SplitHost(t, host + rest) == HostInput(host, if rest != "" && rest[0] == ':' then Some(rest[1..]) else None)
  {
    hide SplitHost, HostEnd, IsBare, IsClean;
    HostEndsBehind(t != NOT_SPECIAL, a, b, c, rest);
    CutAt(t, a + (if b.Some? then "[" + b.value + "]" else "") + c, rest);
  }

  lemma CutAt(t: SchemeType, host: string, rest: string)
    requires t != FILE && IsClean(host) && IsClean(rest)
    requires HostEnd(t != NOT_SPECIAL, host + rest, 0, false) == |host|
    ensures SplitHost(t, host + rest) ==
      HostInput(host, if rest != "" && rest[0] == ':' then Some(rest[1..]) else None)
  {
    hide HostEnd;
    var view := host + rest;
    NothingToClean(view);
    assert view[..|view|] == view && view[..|host|] == host;
    assert rest != "" ==> view[|host|] == rest[0] && view[|host| + 1..] == rest[1..];
  }

  lemma FileCutAt(host: string, rest: string)
    requires IsClean(host) && IsClean(rest) && forall k | 0 <= k < |host| :: host[k] !in "/\\?"
    requires rest == "" || rest[0] in "/\\?"
    ensures SplitHost(FILE, host + rest) == HostInput(host, None)
  {
    hide HostEnd, FirstOf, WithoutTabsAndNewlines;
    var view := host + rest;
    NothingToClean(view);
    FirstFound(host, "/\\?", rest);
    assert view[..|view|] == view && view[..|host|] == host;
  }

  /** The host of a file URL ends at the first slash, backslash or question mark, and has no port. */
  lemma FileHostIsCut(host: string, rest: string)
    requires IsClean(host) && IsClean(rest) && forall k | 0 <= k < |host| :: host[k] !in "/\\?"
    ensures SplitHost(FILE, host) == HostInput(host, None)
    ensures SplitHost(FILE, host + "/" + rest) == SplitHost(FILE, host + "?" + rest) == HostInput(host, None)
    ensures SplitHost(FILE, host + "\\" + rest) == HostInput(host, None)
  {
    assert IsClean("/" + rest) && IsClean("?" + rest) && IsClean("\\" + rest);
    hide SplitHost, IsClean;
    FileCutAt(host, "");
    FileCutAt(host, "/" + rest);
    FileCutAt(host, "?" + rest);
    FileCutAt(host, "\\" + rest);
    Joined(host, rest);
  }

  lemma PlainHostSplits(host: string, port: nat)
    requires IsPlain(host)
    ensures SplitHost(NOT_SPECIAL, host + ":" + Decimal(port)) == HostInput(host, Some(Decimal(port)))
  {
    DecimalValue(port);
    assert IsClean(Decimal(port));
    hide SplitHost, Decimal, IsBare;
    HostIsCut(NOT_SPECIAL, host, None, "", Decimal(port));
    assert host + "" + "" == host;
  }

  /** A host and a port set on a URL without a host leave the marker of its path behind the port. */
  lemma PortBeforeMarker(host: string, port: nat, path: string, parseHost: string -> HostParse)
    requires IsPlain(host) && port <= 0xFFFF && StartsWith(path, "//")
    requires parseHost(host).Parsed? && parseHost(host).host == host
    ensures var u := Url("web:", "", "", None, None, path, None, None, false);
      var input := host + ":" + Decimal(port);
      var v := HostAfter(u, NOT_SPECIAL, false, input, true, parseHost);
      && v == u.(host := Some(host), port := Some(port))
      && KeepsMarker(u, NOT_SPECIAL, false, input, parseHost)
      && Text(HostShape(u, v, true)) == "web:" + "//" + host + (":" + Decimal(port)) + "/." + path
      && Href(v) == "web:" + "//" + host + (":" + Decimal(port)) + path
  {
    hide Decimal, PortAfter, SplitHost, Text, Href;
    var u := Url("web:", "", "", None, None, path, None, None, false);
    var v := u.(host := Some(host), port := Some(port));
    PlainHostSplits(host, port);
    NumberIsSet(u.(host := Some(host)), NOT_SPECIAL, port, "", true);
    assert Decimal(port) + "" == Decimal(port);
    MarkerBehindPort(host, port, path);
  }

  lemma MarkerBehindPort(host: string, port: nat, path: string)
    requires !StartsWith(host, "@") && port <= 0xFFFF && StartsWith(path, "//")
    ensures var u := Url("web:", "", "", None, None, path, None, None, false);
      var v := u.(host := Some(host), port := Some(port));
      && Text(HostShape(u, v, true)) == "web:" + "//" + host + (":" + Decimal(port)) + "/." + path
      && Href(v) == "web:" + "//" + host + (":" + Decimal(port)) + path
  {
    hide Decimal, Text, Href;
    var u := Url("web:", "", "", None, None, path, None, None, false);
    var v := u.(host := Some(host), port := Some(port));
    TextOfPieces(HostShape(u, v, true));
    TextOfPieces(HostShape(u, v, false));
    CanonicalIsHref(HostShape(u, v, false));
  }

  /** The bytes that are taken for the port include a marker behind it. */
  lemma PortBytes(s: Shape)
    requires Sound(s) && Fits(s)
    ensures var c := ComponentsOf(s);
      && c.hostEnd <= c.pathnameStart <= |Text(s)|
      && Text(s)[c.hostEnd..c.pathnameStart] == PortText(s.url.port) + MarkerText(s.marker)
  {
    hide Layout, Before, Concat, Decimal;
    PiecesAt(s);
    TwoPieces(Layout(s), PORT);
  }

  lemma TwoPieces(ps: seq<string>, k: nat)
    requires k + 1 < |ps|
    ensures Offset(ps, k) <= Offset(ps, k + 2) <= |Concat(ps)|
    ensures Concat(ps)[Offset(ps, k)..Offset(ps, k + 2)] == ps[k] + ps[k + 1]
  {
    hide Concat, Before;
    ReadPiece(ps, k);
    ReadPiece(ps, k + 1);
    TwoSlices(Concat(ps), Offset(ps, k), Offset(ps, k + 1), Offset(ps, k + 2));
  }

  lemma TwoSlices(s: string, from: nat, middle: nat, to: nat)
    requires from <= middle <= to <= |s|
    ensures s[from..to] == s[from..middle] + s[middle..to]
  {
  }
}
