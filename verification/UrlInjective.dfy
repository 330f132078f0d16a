/** Different records have different serializations, as long as no component contains the delimiters that
    the percent-encode sets keep out of it. */
module UrlInjective {
  import opened CppString
  import opened UrlRecord
  import opened PortParsing

  predicate Avoids(s: string, delimiters: set<char>) {
    forall k | 0 <= k < |s| :: s[k] !in delimiters
  }

  /** A host has no colon outside brackets. */
  predicate CleanHost(host: string) {
    && Avoids(host, {'/', '?', '#', '@'})
    && (Avoids(host, {':'}) || (host != "" && host[|host| - 1] == ']'))
  }

  /** No component contains a delimiter that would end it. */
  predicate CleanParts(u: Url) {
    && WellFormed(u)
    && u.protocol != "" && Avoids(u.protocol[..|u.protocol| - 1], {':', '?', '#'})
    && Avoids(u.username, {':', '@', '/', '?', '#'})
    && Avoids(u.password, {'@', '/', '?', '#'})
    && (u.host.Some? ==> CleanHost(u.host.value))
    && Avoids(u.path, {'?', '#'})
    && (u.hasOpaquePath ==> !StartsWith(u.path, "/"))
    && (u.query.Some? ==> Avoids(u.query.value, {'#'}))
  }

  /** The path of a host-less record reads like one behind a marker. */
  predicate LooksMarked(u: Url) {
    u.host.None? && StartsWith(u.path, "/.//")
  }

  predicate Clean(u: Url) {
    CleanParts(u) && !LooksMarked(u)
  }

  predicate StartsIn(s: string, delimiters: set<char>) {
    s != "" ==> s[0] in delimiters
  }

  /** A delimiter cannot come before the end of a text that avoids it. */
  lemma NotCutShort(a: string, b: string, c: string, d: string, delimiters: set<char>)
    requires a + b == c + d
    requires Avoids(c, delimiters) && StartsIn(b, delimiters)
    ensures |c| <= |a|
  {
    assert forall k | 0 <= k < |c| :: (a + b)[k] == c[k];
    assert b != "" ==> (a + b)[|a|] == b[0];
  }

  /** A text falls into what precedes the first delimiter and the rest in one way only. */
  lemma SplitUnique(a: string, b: string, c: string, d: string, delimiters: set<char>)
    requires a + b == c + d
    requires Avoids(a, delimiters) && Avoids(c, delimiters)
    requires StartsIn(b, delimiters) && StartsIn(d, delimiters)
    ensures a == c && b == d
  {
    NotCutShort(a, b, c, d, delimiters);
    NotCutShort(c, d, a, b, delimiters);
    assert a == (a + b)[..|a|] && c == (c + d)[..|c|];
    assert b == (a + b)[|a|..] && d == (c + d)[|c|..];
  }

  function CredentialText(u: Url): string {
    u.username + PasswordText(u.password)
  }

  /** What stands between the two slashes and the path. */
  function AuthorityBody(u: Url): string
    requires u.host.Some?
  {
    (if HasCredentials(u) then CredentialText(u) + "@" else "") + (u.host.value + PortText(u.port))
  }

  lemma HrefInParts(u: Url)
    ensures Href(u) == u.protocol + (AuthorityText(u) + u.path) + SearchText(u.query) + HashText(u.hash)
    ensures u.host.Some? ==> AuthorityText(u) == "//" + AuthorityBody(u)
  {
    assert u.protocol + AuthorityText(u) + u.path == u.protocol + (AuthorityText(u) + u.path);
  }

  lemma AvoidsConcat(a: string, b: string, delimiters: set<char>)
    ensures Avoids(a + b, delimiters) <==> Avoids(a, delimiters) && Avoids(b, delimiters)
  {
    if Avoids(a + b, delimiters) {
      assert forall k | 0 <= k < |a| :: a[k] == (a + b)[k];
      assert forall k | 0 <= k < |b| :: b[k] == (a + b)[|a| + k];
    }
  }

  lemma PortTextAvoids(u: Url)
    ensures Avoids(PortText(u.port), {'/', '?', '#', '@', ']'})
  {
    if u.port.Some? {
      DecimalValue(u.port.value);
      assert forall k | 0 <= k < |Decimal(u.port.value)| :: IsDigit(Decimal(u.port.value)[k]);
    }
  }

  lemma HostAndPortAvoid(u: Url)
    requires Clean(u) && u.host.Some?
    ensures Avoids(u.host.value + PortText(u.port), {'/', '?', '#', '@'})
  {
    PortTextAvoids(u);
    AvoidsConcat(u.host.value, PortText(u.port), {'/', '?', '#', '@'});
  }

  lemma CredentialsAvoid(u: Url)
    requires Clean(u)
    ensures Avoids(CredentialText(u), {'/', '?', '#', '@'})
  {
    AvoidsConcat(u.username, if u.password != "" then ":" + u.password else "", {'/', '?', '#', '@'});
  }

  lemma AvoidsWithoutAt(s: string)
    requires Avoids(s, {'/', '?', '#', '@'})
    ensures Avoids(s, {'/', '?', '#'}) && Avoids("@", {'/', '?', '#'})
  {
  }

  lemma AuthorityAvoids(u: Url)
    requires Clean(u) && u.host.Some?
    ensures Avoids(AuthorityBody(u), {'/', '?', '#'})
    ensures Avoids(u.host.value + PortText(u.port), {'/', '?', '#', '@'})
    ensures Avoids(CredentialText(u), {'/', '?', '#', '@'})
  {
    hide Clean, PortText, CredentialText;
    HostAndPortAvoid(u);
    CredentialsAvoid(u);
    AvoidsWithoutAt(u.host.value + PortText(u.port));
    AvoidsWithoutAt(CredentialText(u));
    AvoidsConcat(CredentialText(u), "@", {'/', '?', '#'});
    AvoidsConcat(if HasCredentials(u) then CredentialText(u) + "@" else "", u.host.value + PortText(u.port),
      {'/', '?', '#'});
  }

  lemma AuthorityTextAvoids(u: Url)
    requires Clean(u)
    ensures Avoids(AuthorityText(u), {'?', '#'})
  {
    hide AuthorityBody, Clean;
    HrefInParts(u);
    if u.host.Some? {
      hide AuthorityText;
      AuthorityAvoids(u);
      AvoidsConcat("//", AuthorityBody(u), {'?', '#'});
    }
  }

  lemma HeadAvoids(u: Url)
    requires Clean(u)
    ensures Avoids(u.protocol + (AuthorityText(u) + u.path), {'?', '#'})
  {
    hide AuthorityText, CleanHost, LooksMarked;
    AuthorityTextAvoids(u);
    assert u.protocol == u.protocol[..|u.protocol| - 1] + ":";
    AvoidsConcat(u.protocol[..|u.protocol| - 1], ":", {'?', '#'});
    AvoidsConcat(AuthorityText(u), u.path, {'?', '#'});
    AvoidsConcat(u.protocol, AuthorityText(u) + u.path, {'?', '#'});
  }

  /** Scheme, query and fragment can be read off, whatever the rest is. */
  lemma SameEnds(u: Url, v: Url)
    requires Clean(u) && Clean(v) && Href(u) == Href(v)
    ensures u.protocol == v.protocol && u.query == v.query && u.hash == v.hash
    ensures AuthorityText(u) + u.path == AuthorityText(v) + v.path
  {
    hide Href, WellFormed, AuthorityText;
    HrefInParts(u);
    HrefInParts(v);
    HeadAvoids(u);
    HeadAvoids(v);
    var a, b := u.protocol + (AuthorityText(u) + u.path), v.protocol + (AuthorityText(v) + v.path);
    AvoidsConcat(a, SearchText(u.query), {'#'});
    AvoidsConcat(b, SearchText(v.query), {'#'});
    SplitUnique(a + SearchText(u.query), HashText(u.hash), b + SearchText(v.query), HashText(v.hash), {'#'});
    assert u.hash == v.hash by {
      SomeText(u.hash, v.hash, "#");
    }
    SplitUnique(a, SearchText(u.query), b, SearchText(v.query), {'?'});
    assert u.query == v.query by {
      SomeText(u.query, v.query, "?");
    }
    SameProtocol(u, v);
  }

  lemma SomeText(x: Option<string>, y: Option<string>, mark: string)
    requires |mark| == 1
    requires (if x.Some? then mark + x.value else "") == (if y.Some? then mark + y.value else "")
    ensures x == y
  {
    if x.Some? && y.Some? {
      assert x.value == (mark + x.value)[1..] && y.value == (mark + y.value)[1..];
    }
  }

  lemma SameProtocol(u: Url, v: Url)
    requires Clean(u) && Clean(v)
    requires u.protocol + (AuthorityText(u) + u.path) == v.protocol + (AuthorityText(v) + v.path)
    ensures u.protocol == v.protocol
    ensures AuthorityText(u) + u.path == AuthorityText(v) + v.path
  {
    hide AuthorityText;
    var r, q := AuthorityText(u) + u.path, AuthorityText(v) + v.path;
    var a, b := u.protocol[..|u.protocol| - 1], v.protocol[..|v.protocol| - 1];
    assert u.protocol == a + ":" && v.protocol == b + ":";
    assert u.protocol + r == a + (":" + r) && v.protocol + q == b + (":" + q);
    SplitUnique(a, ":" + r, b, ":" + q, {':'});
    assert r == (":" + r)[1..] && q == (":" + q)[1..];
  }

  /** Two slashes announce a host; the marker keeps them from a path without one. */
  lemma HostAnnounced(u: Url)
    requires Clean(u)
    ensures StartsWith(AuthorityText(u) + u.path, "//") <==> u.host.Some?
    ensures u.host.None? && NeedsMarker(u) ==> StartsWith(AuthorityText(u) + u.path, "/.//")
    ensures u.host.None? && !NeedsMarker(u) ==> AuthorityText(u) + u.path == u.path
  {
    var r := AuthorityText(u) + u.path;
    if u.host.Some? {
      HrefInParts(u);
      assert r[..2] == "//";
    } else if NeedsMarker(u) {
      assert r == "/." + u.path;
      assert r[..4] == "/." + u.path[..2];
      assert r[1] == '.';
    } else {
      assert r == u.path;
    }
  }

  lemma SamePath(u: Url, v: Url)
    requires Clean(u) && Clean(v) && u.host.None? && v.host.None?
    requires AuthorityText(u) + u.path == AuthorityText(v) + v.path
    ensures u.path == v.path
  {
    HostAnnounced(u);
    HostAnnounced(v);
    if NeedsMarker(u) && NeedsMarker(v) {
      assert u.path == ("/." + u.path)[2..] && v.path == ("/." + v.path)[2..];
    }
  }

  lemma AvoidsFewer(s: string)
    requires Avoids(s, {'/', '?', '#'})
    ensures Avoids(s, {'/'})
  {
  }

  lemma Behind(mark: string, s: string, t: string)
    ensures (mark + s + t)[|mark|..] == s + t && (mark + s)[|mark|..] == s
  {
  }

  lemma SameAuthority(u: Url, v: Url)
    requires Clean(u) && Clean(v) && u.host.Some? && v.host.Some?
    requires AuthorityText(u) + u.path == AuthorityText(v) + v.path
    ensures u.path == v.path && AuthorityBody(u) == AuthorityBody(v)
  {
    hide AuthorityText, AuthorityBody;
    HrefInParts(u);
    HrefInParts(v);
    AuthorityAvoids(u);
    AuthorityAvoids(v);
    assert StartsIn(u.path, {'/'}) && StartsIn(v.path, {'/'});
    hide Clean, StartsIn;
    AvoidsFewer(AuthorityBody(u));
    AvoidsFewer(AuthorityBody(v));
    hide Avoids;
    Behind("//", AuthorityBody(u), u.path);
    Behind("//", AuthorityBody(v), v.path);
    SplitUnique(AuthorityBody(u), u.path, AuthorityBody(v), v.path, {'/'});
  }

  lemma BodyInTwo(u: Url)
    requires u.host.Some?
    ensures var host := u.host.value + PortText(u.port);
      AuthorityBody(u) ==
        (if HasCredentials(u) then CredentialText(u) else host) + (if HasCredentials(u) then "@" + host else "")
  {
    hide CredentialText, PortText;
  }

  lemma SameBodyParts(u: Url, v: Url)
    requires Clean(u) && Clean(v) && u.host.Some? && v.host.Some?
    requires AuthorityBody(u) == AuthorityBody(v)
    ensures u.host.value + PortText(u.port) == v.host.value + PortText(v.port)
    ensures CredentialText(u) == CredentialText(v)
  {
    AuthorityAvoids(u);
    AuthorityAvoids(v);
    BodyInTwo(u);
    BodyInTwo(v);
    hide Clean, AuthorityBody, PortText;
    var hu, hv := u.host.value + PortText(u.port), v.host.value + PortText(v.port);
    var a, b := if HasCredentials(u) then CredentialText(u) else hu, if HasCredentials(u) then "@" + hu else "";
    var c, d := if HasCredentials(v) then CredentialText(v) else hv, if HasCredentials(v) then "@" + hv else "";
    AvoidsAt(a);
    AvoidsAt(c);
    hide Avoids;
    SplitUnique(a, b, c, d, {'@'});
    Behind("@", hu, "");
    Behind("@", hv, "");
  }

  lemma AvoidsAt(s: string)
    requires Avoids(s, {'/', '?', '#', '@'})
    ensures Avoids(s, {'@'})
  {
  }

  lemma SameCredentials(u: Url, v: Url)
    requires Clean(u) && Clean(v) && u.host.Some? && v.host.Some?
    requires AuthorityBody(u) == AuthorityBody(v)
    ensures u.username == v.username && u.password == v.password
    ensures u.host.value + PortText(u.port) == v.host.value + PortText(v.port)
  {
    SameBodyParts(u, v);
    assert Avoids(u.username, {':'}) && Avoids(v.username, {':'});
    hide Clean, AuthorityBody, PortText, Avoids;
    SplitUnique(u.username, PasswordText(u.password), v.username, PasswordText(v.password), {':'});
    Behind(":", u.password, "");
    Behind(":", v.password, "");
  }

  /** Of two ways to cut a text into a host and a port, neither gives the longer host. */
  lemma HostNotLonger(h: string, p: string, k: string, q: string)
    requires h + p == k + q
    requires CleanHost(k) && StartsIn(p, {':'}) && Avoids(p, {']'})
    ensures |k| <= |h|
  {
    var s := h + p;
    assert forall i | 0 <= i < |k| :: s[i] == k[i];
    assert forall i | |h| <= i < |s| :: s[i] == p[i - |h|];
    assert p != "" ==> s[|h|] == ':';
  }

  lemma SameHost(u: Url, v: Url)
    requires Clean(u) && Clean(v) && u.host.Some? && v.host.Some?
    requires u.host.value + PortText(u.port) == v.host.value + PortText(v.port)
    ensures u.host == v.host && u.port == v.port
  {
    hide Decimal;
    var h, k, p, q := u.host.value, v.host.value, PortText(u.port), PortText(v.port);
    PortTextAvoids(u);
    PortTextAvoids(v);
    HostNotLonger(h, p, k, q);
    HostNotLonger(k, q, h, p);
    assert h == (h + p)[..|h|] && k == (k + q)[..|k|];
    assert p == (h + p)[|h|..] && q == (k + q)[|k|..];
    if u.port.Some? && v.port.Some? {
      assert Decimal(u.port.value) == p[1..] && Decimal(v.port.value) == q[1..];
      DecimalValue(u.port.value);
      DecimalValue(v.port.value);
    }
  }

  /** The serialization determines the record, and tells a missing query or fragment from an empty one. */
  lemma HrefInjective(u: Url, v: Url)
    requires Clean(u) && Clean(v) && Href(u) == Href(v)
    ensures u == v.(hasOpaquePath := u.hasOpaquePath)
  {
    hide Href, AuthorityText, AuthorityBody;
    SameEnds(u, v);
    HostAnnounced(u);
    HostAnnounced(v);
    if u.host.Some? {
      SameAuthority(u, v);
      SameCredentials(u, v);
      SameHost(u, v);
    } else {
      SamePath(u, v);
    }
  }

  /** A host-less path that begins like a marker shares its serialization with the path behind the marker. */
  lemma MarkerCollision(u: Url)
    requires CleanParts(u) && LooksMarked(u)
    ensures var v := u.(path := u.path[2..]); Clean(v) && v != u && Href(v) == Href(u)
  {
    var v := u.(path := u.path[2..]);
    assert "/.//"[..2] == "/." && "/.//"[2..] == "//";
    assert u.path[..4] == "/.//";
    assert u.path[1] == "/.//"[1] == '.' && u.path[2] == "/.//"[2] == '/' && u.path[3] == "/.//"[3] == '/';
    assert u.path == "/." + v.path;
    assert v.path[..2] == "//";
    Assoc4(u.protocol, v.path, SearchText(u.query), HashText(u.hash));
  }

  lemma Assoc4(protocol: string, path: string, query: string, hash: string)
    ensures protocol + "" + ("/." + path) + query + hash == protocol + "/." + path + query + hash
  {
    assert protocol + "" + ("/." + path) == protocol + "/." + path;
  }

  /** So the condition is exact: a record with clean parts shares its serialization with another one that is
      clean, in more than the flag for opaque paths, just when it looks marked. */
  lemma CollidesIffMarked(u: Url)
    requires CleanParts(u)
    ensures LooksMarked(u) <==> exists v: Url :: Clean(v) && Href(v) == Href(u) && v.path != u.path
  {
    hide Href, CleanParts;
    if LooksMarked(u) {
      MarkerCollision(u);
    } else {
      forall v: Url | Clean(v) && Href(v) == Href(u)
        ensures v.path == u.path
      {
        HrefInjective(u, v);
      }
    }
  }
}
