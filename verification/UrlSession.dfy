/** Sequences of edits of one URL. */
module UrlSession {
  import opened CppString
  import opened PercentEncode
  import opened Pieces
  import opened UrlRecord
  import opened UrlLayout
  import opened UrlEdits
  import opened UrlValidate
  import opened UrlAggregator

  datatype Edit =
    | UpdateUsername(input: string)
    | AppendToUsername(input: string)
    | UpdatePassword(input: string)
    | AppendToPassword(input: string)
    | UpdateHostname(input: string)
    | ClearHost
    | UpdatePort(port: uint32)
    | ClearThePort
    | UpdatePathname(input: string)
    | AppendToPathname(input: string)
    | ClearPath
    | UpdateSearch(input: string)
    | UpdateSearchEncoded(input: string, table: Table)
    | ClearQuery
    | UpdateHash(input: string)
    | ClearFragment
    | SetFileProtocol

  /** What an edit is meant to do: the addressed field changes, and an edit of the authority turns a
      missing host into an empty one. */
  function Intended(u: Url, e: Edit): Url
    requires e.UpdateSearchEncoded? || e.UpdateHash? ==> IsBytes(e.input)
  {
    match e
    case UpdateUsername(input) => WithAuthority(u).(username := input)
    case AppendToUsername(input) => WithAuthority(u).(username := u.username + input)
    case UpdatePassword(input) => WithAuthority(u).(password := input)
    case AppendToPassword(input) => WithAuthority(u).(password := u.password + input)
    case UpdateHostname(input) => u.(host := Some(input))
    case ClearHost => if u.host.Some? then u.(host := Some("")) else u
    case UpdatePort(port) => u.(port := if port == OMITTED then None else Some(port))
    case ClearThePort => u.(port := None)
    case UpdatePathname(input) => u.(path := input)
    case AppendToPathname(input) => u.(path := u.path + input)
    case ClearPath => u.(path := "")
    case UpdateSearch(input) => u.(query := if input == "" then None else Some(WithoutQuestionMark(input)))
    case UpdateSearchEncoded(input, table) => u.(query := Some(Encode(table, input)))
    case ClearQuery => u.(query := None)
    case UpdateHash(input) => u.(hash := Some(Encode(FRAGMENT, input)))
    case ClearFragment => u.(hash := None)
    case SetFileProtocol => u.(protocol := "file:")
  }

  /** What an edit does to the shape of the buffer. */
  function Apply(s: Shape, e: Edit): Shape
    requires e.UpdateSearchEncoded? || e.UpdateHash? ==> IsBytes(e.input)
  {
    match e
    case UpdateUsername(input) => SetUsername(s, input)
    case AppendToUsername(input) => AppendUsername(s, input)
    case UpdatePassword(input) => SetPassword(s, input)
    case AppendToPassword(input) => AppendPassword(s, input)
    case UpdateHostname(input) => SetHostname(s, input)
    case ClearHost => ClearHostname(s)
    case UpdatePort(port) => SetPort(s, if port == OMITTED then None else Some(port))
    case ClearThePort => SetPort(s, None)
    case UpdatePathname(input) => SetPathname(s, input)
    case AppendToPathname(input) => AppendPathname(s, input)
    case ClearPath => ClearPathname(s)
    case UpdateSearch(input) => SetSearch(s, if input == "" then None else Some(WithoutQuestionMark(input)))
    case UpdateSearchEncoded(input, table) => SetSearch(s, Some(Encode(table, input)))
    case ClearQuery => SetSearch(s, None)
    case UpdateHash(input) => SetHash(s, Some(Encode(FRAGMENT, input)))
    case ClearFragment => SetHash(s, None)
    case SetFileProtocol => SetProtocol(s, "file:")
  }

  /** What the callers of an edit see to: the parts of the authority are not touched on an opaque path,
      a host does not start with `@`, a port needs a host, and a path starts with a slash. */
  predicate Allowed(u: Url, e: Edit) {
    match e
    case UpdateUsername(_) => !u.hasOpaquePath
    case AppendToUsername(_) => !u.hasOpaquePath
    case UpdatePassword(_) => !u.hasOpaquePath
    case AppendToPassword(_) => !u.hasOpaquePath
    case UpdateHostname(input) => !u.hasOpaquePath && !StartsWith(input, "@")
    case UpdatePort(port) => port != OMITTED ==> port <= 0xFFFF && u.host.Some?
    case UpdatePathname(input) => u.hasOpaquePath || input == "" || input[0] == '/'
    case AppendToPathname(input) => u.hasOpaquePath || u.path + input == "" || (u.path + input)[0] == '/'
    case UpdateSearchEncoded(input, _) => IsBytes(input)
    case UpdateHash(input) => IsBytes(input)
    case _ => true
  }

  /** Exactly when an edit of a serialized URL leaves a serialized URL. */
  predicate Faithful(u: Url, e: Edit) {
    match e
    case UpdateUsername(_) => !NeedsMarker(u)
    case AppendToUsername(input) =>
      !NeedsMarker(u) && (input == "" || HasCredentials(u) || |input| != |WithAuthority(u).host.value|)
    case UpdatePassword(_) => !NeedsMarker(u)
    case AppendToPassword(_) => !NeedsMarker(u)
    case UpdateHostname(_) => !NeedsMarker(u)
    case UpdatePathname(input) =>
      !NeedsMarker(u.(path := input)) || NeedsMarker(u) || (u.query.None? && u.hash.None?)
    case AppendToPathname(input) => NeedsMarker(u.(path := u.path + input)) == NeedsMarker(u)
    case _ => true
  }

  lemma ApplyIsIntended(s: Shape, e: Edit)
    requires Allowed(s.url, e)
    ensures Apply(s, e).url == Intended(s.url, e)
  {
  }

  /** An edit keeps the shape of a serialized URL exactly when it is faithful; the one failure that the
      shape does not show is the path that gets a marker in front of a query or fragment. */
  lemma ApplyKeepsCanonical(s: Shape, e: Edit)
    requires Sound(s) && Canonical(s) && Allowed(s.url, e)
    ensures Sound(Apply(s, e))
    ensures Canonical(Apply(s, e)) && !(e.UpdatePathname? && PutsMarkerBeforeSuffix(s, e.input))
      <==> Faithful(s.url, e)
  {
  }

  /** 32-bit offsets suffice for the edited buffer, and for the one with a marker on the way to it. */
  predicate HasRoom(s: Shape, e: Edit)
    requires Allowed(s.url, e)
  {
    Fits(Apply(s, e)) && (e.UpdatePathname? ==> MarkerFits(s, e.input))
  }

  /** One edit of a serialized URL leaves the serialization of the intended record exactly when it is
      faithful, and then passes the checker. */
  method Perform(a: Aggregator, e: Edit)
    requires a.Valid() && Canonical(a.shape)
    requires Allowed(a.shape.url, e) && HasRoom(a.shape, e)
    modifies a
    ensures a.shape == Apply(old(a.shape), e)
    ensures a.buffer == Href(Intended(old(a.shape.url), e)) <==> Faithful(old(a.shape.url), e)
    ensures Faithful(old(a.shape.url), e) ==>
      && a.Valid() && Canonical(a.shape)
      && Validate(a.buffer, a.components, a.hasOpaquePath)
  {
    hide Text, Fits, Sound, ComponentsOf, Href, Validate, Encode;
    ApplyIsIntended(a.shape, e);
    ApplyKeepsCanonical(a.shape, e);
    OnlyCanonicalIsHref(Apply(a.shape, e));
    CanonicalIsChecked(Apply(a.shape, e));
    PortNeedsNoMarker(a.shape);
    PortNeedsHost(a.shape);
    match e {
      case UpdateUsername(input) => a.UpdateBaseUsername(input);
      case AppendToUsername(input) => a.AppendBaseUsername(input);
      case UpdatePassword(input) => a.UpdateBasePassword(input);
      case AppendToPassword(input) => a.AppendBasePassword(input);
      case UpdateHostname(input) => a.UpdateBaseHostname(input);
      case ClearHost => a.ClearHostname();
      case UpdatePort(port) => a.UpdateBasePort(port);
      case ClearThePort => a.ClearPort();
      case UpdatePathname(input) => a.UpdateBasePathname(input);
      case AppendToPathname(input) => a.AppendBasePathname(input);
      case ClearPath => a.ClearPathname();
      case UpdateSearch(input) => a.UpdateBaseSearch(input);
      case UpdateSearchEncoded(input, table) => a.UpdateBaseSearchEncoded(input, table);
      case ClearQuery => a.ClearSearch();
      case UpdateHash(input) => a.UpdateUnencodedBaseHash(input);
      case ClearFragment => a.ClearHash();
      case SetFileProtocol => a.SetProtocolAsFile();
    }
  }

  lemma CanonicalIsChecked(s: Shape)
    requires Sound(s)
    ensures Canonical(s) && Fits(s) ==> Validate(Text(s), ComponentsOf(s), s.url.hasOpaquePath)
  {
    if Canonical(s) && Fits(s) {
      CheckedValidates(s);
    }
  }

  lemma PortNeedsNoMarker(s: Shape)
    requires Canonical(s)
    ensures s.url.host.Some? ==> !s.marker
  {
  }

  // Runs of edits.

  function SerializedShape(u: Url): Shape {
    Shape(u, HasCredentials(u), NeedsMarker(u))
  }

  /** Every edit of the run is allowed, faithful and within 32 bits. */
  predicate Permitted(u: Url, edits: seq<Edit>)
    decreases edits
  {
    edits == [] ||
    (&& Allowed(u, edits[0])
     && Faithful(u, edits[0])
     && HasRoom(SerializedShape(u), edits[0])
     && Permitted(Intended(u, edits[0]), edits[1..]))
  }

  function IntendedRun(u: Url, edits: seq<Edit>): Url
    requires Permitted(u, edits)
    decreases edits
  {
    if edits == [] then u else IntendedRun(Intended(u, edits[0]), edits[1..])
  }

  /** Whatever run of edits is performed, the buffer is the serialization of the record in which each
      edit changed the field it addresses, and the checker accepts it. */
  method Replay(a: Aggregator, edits: seq<Edit>)
    requires a.Valid() && Canonical(a.shape)
    requires Permitted(a.shape.url, edits)
    modifies a
    ensures a.Valid() && Canonical(a.shape)
    ensures a.shape.url == IntendedRun(old(a.shape.url), edits)
    ensures a.buffer == Href(IntendedRun(old(a.shape.url), edits))
    ensures Validate(a.buffer, a.components, a.hasOpaquePath)
  {
    hide Text, Fits, Sound, ComponentsOf, Href, Validate, Encode, Apply, Allowed, Faithful, HasRoom;
    for i := 0 to |edits|
      invariant a.Valid() && Canonical(a.shape)
      invariant Permitted(a.shape.url, edits[i..])
      invariant IntendedRun(a.shape.url, edits[i..]) == IntendedRun(old(a.shape.url), edits)
    {
      assert a.shape == SerializedShape(a.shape.url);
      assert edits[i..][1..] == edits[i + 1..];
      ApplyIsIntended(a.shape, edits[i]);
      Perform(a, edits[i]);
    }
    CanonicalIsHref(a.shape);
    CanonicalIsChecked(a.shape);
  }

  /** Whenever a serialized URL has a host, an `@` stands before it exactly when there are credentials,
      and a `:` behind the user name exactly when there is a password. */
  lemma CredentialDelimiters(s: Shape)
    requires Sound(s) && Fits(s) && Canonical(s)
    requires s.url.host.Some? && s.url.host.value != "" && s.url.host.value[0] != ':'
    ensures var c, text := ComponentsOf(s), Text(s);
      && c.hostStart < |text| && c.usernameEnd < |text|
      && (text[c.hostStart] == '@' <==> s.url.username != "" || s.url.password != "")
      && (text[c.usernameEnd] == ':' <==> s.url.password != "")
  {
    hide Before, Layout, OffsetsOf, Decimal, Text;
    OffsetsOrdered(s);
    AtRead(s);
    CredentialsRead(s);
    if !s.at {
      HostReads(s);
    } else if s.url.password == "" {
      PasswordBytes(s, "");
      AtBytes(s, false);
    }
  }

  // Three edits that are not faithful.

  lemma TextOfPieces(s: Shape)
    ensures var ps := Layout(s);
      Text(s) == ps[0] + ps[1] + ps[2] + ps[3] + ps[4] + ps[5] + ps[6] + ps[7] + ps[8] + ps[9] + ps[10]
  {
    hide Layout, Decimal;
    var ps := Layout(s);
    BeforePath(ps);
    assert Before(ps, 10) == Before(ps, 8) + ps[8] + ps[9];
    assert Before(ps, 11) == Before(ps, 8) + ps[8] + ps[9] + ps[10];
  }

  /** A first user name appended that is exactly as long as the host gets no `@` behind it. */
  lemma UserNameRunsIntoHost(user: string, host: string)
    requires |user| == |host| > 0 && host[0] != '@'
    ensures var u, e := Url("http:", "", "", Some(host), None, "/", None, None, false), AppendToUsername(user);
      && Allowed(u, e) && !Faithful(u, e)
      && Text(Apply(SerializedShape(u), e)) == "http:" + "//" + user + host + "/"
      && Href(Intended(u, e)) == "http:" + "//" + user + "@" + host + "/"
  {
    hide Text, Href;
    var u, e := Url("http:", "", "", Some(host), None, "/", None, None, false), AppendToUsername(user);
    PlainText(Apply(SerializedShape(u), e));
    PlainHref(Intended(u, e));
  }

  lemma PlainText(s: Shape)
    requires s.url.host.Some? && s.url.password == "" && s.url.port.None? && s.url.query.None? && s.url.hash.None?
    ensures Text(s) == s.url.protocol + "//" + s.url.username + (if s.at then "@" else "") + s.url.host.value
      + (if s.marker then "/." else "") + s.url.path
  {
    hide Text;
    TextOfPieces(s);
  }

  lemma PlainHref(u: Url)
    requires u.host.Some? && u.password == "" && u.port.None? && u.query.None? && u.hash.None?
    ensures Href(u) == u.protocol + "//" + u.username + (if u.username != "" then "@" else "") + u.host.value + u.path
  {
    var a := if u.username != "" then u.username + "@" else "";
    assert AuthorityText(u) == "//" + a + u.host.value;
    Assoc(u.protocol, "//" + a, u.host.value);
    Assoc(u.protocol, "//", a);
    Assoc(u.protocol + "//", u.username, "@");
  }

  /** The marker before a path stays behind when the URL gets an authority. */
  lemma MarkerStaysBehind(host: string, path: string)
    requires !StartsWith(host, "@") && StartsWith(path, "//")
    ensures var u, e := Url("web:", "", "", None, None, path, None, None, false), UpdateHostname(host);
      && Allowed(u, e) && !Faithful(u, e)
      && Text(Apply(SerializedShape(u), e)) == "web:" + "//" + host + "/." + path
      && Href(Intended(u, e)) == "web:" + "//" + host + path
  {
    hide Text, Href;
    var u, e := Url("web:", "", "", None, None, path, None, None, false), UpdateHostname(host);
    PlainText(Apply(SerializedShape(u), e));
    PlainHref(Intended(u, e));
  }

  /** A path that needs a marker is not written well in front of a query. */
  lemma MarkerBeforeQuery()
    ensures var u, e := Url("web:", "", "", None, None, "/p", Some("q"), None, false), UpdatePathname("//r");
      && Allowed(u, e) && !Faithful(u, e) && PutsMarkerBeforeSuffix(SerializedShape(u), e.input)
  {
    assert "//" <= "//r" by { assert "//r"[..2] == "//"; }
    assert "/p"[1] == 'p' && !("//" <= "/p");
  }
}
