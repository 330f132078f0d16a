/** Runs of calls of the public setters. */
module UrlApi {
  import opened CppString
  import opened PercentEncode
  import opened PortParsing
  import opened UrlRecord
  import opened UrlLayout
  import opened UrlEdits
  import opened UrlValidate
  import opened UrlAggregator
  import opened UrlSession
  import opened UrlSetters
  import opened UrlHosts
  import opened UrlSchemes

  /** A call of a setter; the path and the host that parsing makes of the input are parameters. */
  datatype Call =
    | Protocol(input: string)
    | Username(input: string)
    | Password(input: string)
    | HostOrHostname(overrideHostname: bool, input: string, parseHost: string -> HostParse)
    | Port(input: string)
    | Pathname(parsed: ParsedPath)
    | Search(input: string)
    | Hash(input: string)

  /** A record with the type of its scheme, and whether it counts as valid. */
  datatype State = State(url: Url, schemeType: SchemeType, valid: bool)

  /** The input is text in bytes, and a parsed path begins with a slash. */
  predicate Allowed(s: State, c: Call) {
    match c
    case Username(input) => IsBytes(input)
    case Password(input) => IsBytes(input)
    case Search(input) => IsBytes(input)
    case Hash(input) => IsBytes(input)
    case Pathname(parsed) =>
      && (parsed.Unwritten? || (parsed.path != "" && parsed.path[0] == '/'))
      && (parsed.Appended? ==> !HasSuffix(s.url))
    case _ => true
  }

  /** What a call makes of the record. */
  function After(s: State, c: Call): State
    requires Allowed(s, c)
  {
    var u, t := s.url, s.schemeType;
    match c
    case Protocol(input) => State(ProtocolAfter(u, t, input), TypeAfter(u, t, input), s.valid)
    case Username(input) =>
      if CanHaveCredentials(u, t) then s.(url := u.(username := Encode(USERINFO, input))) else s
    case Password(input) =>
      if CanHaveCredentials(u, t) then s.(url := u.(password := Encode(USERINFO, input))) else s
    case HostOrHostname(overrideHostname, input, parseHost) =>
      State(
        HostAfter(u, t, overrideHostname, input, s.valid, parseHost),
        t,
        ValidAfter(u, t, overrideHostname, input, s.valid, parseHost))
    case Port(input) => State(u.(port := PortAfter(u, t, input, s.valid)), t, s.valid || ReadsPort(u, t, input))
    case Pathname(parsed) => if u.hasOpaquePath then s else s.(url := u.(path := PathOf(parsed)))
    case Search(input) => s.(url := QueryAfter(u, t, input))
    case Hash(input) => s.(url := HashAfter(u, input))
  }

  /** Exactly when a call leaves the serialization of its record. */
  predicate Faithful(s: State, c: Call) {
    match c
    case HostOrHostname(overrideHostname, input, parseHost) =>
      !KeepsMarker(s.url, s.schemeType, overrideHostname, input, parseHost)
    case Pathname(parsed) => s.url.hasOpaquePath || !LosesSuffix(s.url, parsed)
    case _ => true
  }

  /** 32-bit offsets suffice for the buffer, and for each one on the way. */
  ghost predicate HasRoom(s: State, c: Call)
    requires Allowed(s, c)
  {
    var shape := SerializedShape(s.url);
    match c
    case HostOrHostname(overrideHostname, input, parseHost) =>
      HasRoomForHost(shape, s.schemeType, overrideHostname, input, parseHost)
    case Port(_) => forall port: nat | port <= 0xFFFF :: Fits(SetPort(shape, Some(port)))
    case Pathname(parsed) =>
      && (forall marker :: Fits(Shape(s.url.(path := ""), shape.at, marker)))
      && (forall marker :: Fits(Shape(s.url.(path := PathOf(parsed)), shape.at, marker)))
    case Protocol(input) => Fits(SetProtocol(shape, ProtocolAfter(s.url, s.schemeType, input).protocol))
    case Username(input) => Fits(SerializedShape(s.url.(username := Encode(USERINFO, input))))
    case Password(input) => Fits(SerializedShape(s.url.(password := Encode(USERINFO, input))))
    case _ => Fits(SerializedShape(After(s, c).url))
  }

  /** The object holds the serialization of the record of a state. */
  ghost predicate Holds(a: Aggregator, s: State)
    reads a
  {
    Serializes(a, s.url) && a.schemeType == s.schemeType && a.isValid == s.valid
  }

  /** Every call of a setter on a serialized URL leaves the serialization of the record it stands for exactly
      when it is faithful. */
  method Perform(a: Aggregator, c: Call, ghost s: State)
    requires Holds(a, s) && Allowed(s, c) && HasRoom(s, c)
    modifies a
    ensures a.buffer == Href(After(s, c).url) <==> Faithful(s, c)
    ensures Faithful(s, c) ==> Holds(a, After(s, c))
  {
    hide Text, Fits, Sound, ComponentsOf, Href, Validate, Encode, CanHaveCredentials;
    hide ProtocolAfter, TypeAfter, HostAfter, ValidAfter, KeepsMarker, PortAfter, ReadsPort, QueryAfter, HashAfter;
    hide LosesSuffix, HasRoomForHost;
    match c {
      case Protocol(input) => var _ := SetTheProtocol(a, input);
      case Username(input) => var _ := UrlSetters.SetUsername(a, input);
      case Password(input) => var _ := UrlSetters.SetPassword(a, input);
      case HostOrHostname(overrideHostname, input, parseHost) =>
        var _ := SetHostOrHostname(a, overrideHostname, input, parseHost);
      case Port(input) =>
        PortNeedsHost(a.shape);
        var _ := SetThePort(a, input);
      case Pathname(parsed) => var _ := SetThePathname(a, parsed);
      case Search(input) => SetTheSearch(a, input);
      case Hash(input) => SetTheHash(a, input);
    }
  }

  // Runs of calls.

  ghost predicate Permitted(s: State, calls: seq<Call>)
    decreases calls
  {
    calls == [] ||
    (&& Allowed(s, calls[0])
     && Faithful(s, calls[0])
     && HasRoom(s, calls[0])
     && Permitted(After(s, calls[0]), calls[1..]))
  }

  function AfterAll(s: State, calls: seq<Call>): State
    requires Permitted(s, calls)
    decreases calls
  {
    if calls == [] then s else AfterAll(After(s, calls[0]), calls[1..])
  }

  /** Whatever run of setters is called, the object holds the serialization of the record in which each
      call changed the field it addresses. */
  method Replay(a: Aggregator, calls: seq<Call>, ghost s: State)
    requires Holds(a, s) && Permitted(s, calls)
    modifies a
    ensures Holds(a, AfterAll(s, calls))
  {
    hide Holds, After, Allowed, Faithful, HasRoom;
    ghost var now := s;
    for i := 0 to |calls|
      invariant Holds(a, now) && Permitted(now, calls[i..])
      invariant AfterAll(now, calls[i..]) == AfterAll(s, calls)
    {
      assert calls[i..][1..] == calls[i + 1..];
      Perform(a, calls[i], now);
      now := After(now, calls[i]);
    }
  }
}
