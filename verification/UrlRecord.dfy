/** The plain form of a URL: the record `ada::url` and its serializer. */
module UrlRecord {
  import opened CppString

  /** `protocol` is the scheme followed by its colon. */
  datatype Url = Url(
    protocol: string,
    username: string,
    password: string,
    host: Option<string>,
    port: Option<nat>,
    path: string,
    query: Option<string>,
    hash: Option<string>,
    hasOpaquePath: bool)

  /** `std::to_string` of an unsigned number. */
  function Decimal(n: nat): (s: string)
    ensures |s| > 0
    ensures forall c | c in s :: '0' <= c <= '9'
  {
    if n < 10 then [Digit(n)] else Decimal(n / 10) + [Digit(n % 10)]
  }

  function Digit(n: nat): char
    requires n < 10
  {
    '0' + n as char
  }

  predicate HasCredentials(u: Url) {
    u.username != "" || u.password != ""
  }

  /** Section 4.5 of the WHATWG URL Standard: a host-less path that starts with two slashes is
      printed behind a `/.` so that it cannot be read as an authority. */
  predicate NeedsMarker(u: Url) {
    u.host.None? && !u.hasOpaquePath && StartsWith(u.path, "//")
  }

  function PasswordText(password: string): string {
    if password != "" then ":" + password else ""
  }

  function PortText(port: Option<nat>): string {
    if port.Some? then ":" + Decimal(port.value) else ""
  }

  function SearchText(query: Option<string>): string {
    if query.Some? then "?" + query.value else ""
  }

  function HashText(hash: Option<string>): string {
    if hash.Some? then "#" + hash.value else ""
  }

  /** What the serializer prints between the protocol and the path. */
  function AuthorityText(u: Url): string {
    if u.host.Some? then
      "//"
      + (if HasCredentials(u)
         then u.username + PasswordText(u.password) + "@"
         else "")
      + u.host.value
      + PortText(u.port)
    else if NeedsMarker(u) then "/."
    else ""
  }

  /** `url::get_href` */
  function Href(u: Url): string {
    u.protocol + AuthorityText(u) + u.path + SearchText(u.query) + HashText(u.hash)
  }

  /** What every record the parser builds satisfies. */
  predicate WellFormed(u: Url) {
    && (u.protocol != "" ==> u.protocol[|u.protocol| - 1] == ':')
    && (u.host.None? ==> !HasCredentials(u) && u.port.None?)
    && (u.host.Some? ==> !u.hasOpaquePath && !StartsWith(u.host.value, "@"))
    && (u.port.Some? ==> u.port.value <= 0xFFFF)
    && (!u.hasOpaquePath && u.path != "" ==> u.path[0] == '/')
  }
}
