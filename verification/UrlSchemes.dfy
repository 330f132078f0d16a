/** The scheme of a URL: the type that belongs to it, and the setter that changes it. */
module UrlSchemes {
  import opened CppString
  import opened PortParsing
  import opened UrlRecord
  import opened UrlLayout
  import opened UrlEdits
  import opened UrlValidate
  import opened UrlAggregator
  import opened UrlSession
  import opened UrlSetters

  const SPECIAL_SCHEMES := ["http", " ", "https", "ws", "ftp", "wss", "file", " "]

  const SCHEME_TYPES := [HTTP, NOT_SPECIAL, HTTPS, WS, FTP, WSS, FILE]

  /** A scheme is compared with the one special scheme that its length and its first byte lead to. */
  function GetSchemeType(scheme: string): SchemeType {
    if scheme == "" then NOT_SPECIAL
    else
      var hashValue := (2 * |scheme| + scheme[0] as int) % 8;
      if hashValue < |SCHEME_TYPES| && SPECIAL_SCHEMES[hashValue] == scheme then SCHEME_TYPES[hashValue]
      else NOT_SPECIAL
  }

  function SchemeOf(t: SchemeType): string {
    match t
    case HTTP => "http"
    case NOT_SPECIAL => ""
    case HTTPS => "https"
    case WS => "ws"
    case FTP => "ftp"
    case WSS => "wss"
    case FILE => "file"
  }

  /** One comparison finds every special scheme, and nothing else. */
  lemma SchemeTypeIsByName(scheme: string, t: SchemeType)
    requires t != NOT_SPECIAL
    ensures GetSchemeType(scheme) == t <==> scheme == SchemeOf(t)
  {
    assert GetSchemeType("http") == HTTP && GetSchemeType("https") == HTTPS;
    assert GetSchemeType("ws") == WS && GetSchemeType("wss") == WSS;
    assert GetSchemeType("ftp") == FTP && GetSchemeType("file") == FILE;
  }

  // The setter.

  predicate IsAlpha(c: char) { 'a' <= c <= 'z' || 'A' <= c <= 'Z' }

  predicate IsAlnumPlus(c: char) { IsAlpha(c) || '0' <= c <= '9' || c == '+' || c == '-' || c == '.' }

  function ToLower(s: string): string {
    if s == "" then ""
    else [if 'A' <= s[0] <= 'Z' then s[0] + ('a' - 'A') else s[0]] + ToLower(s[1..])
  }

  /** How many bytes of a scheme the text starts with. */
  function SchemeRun(s: string): (n: nat)
    ensures n <= |s|
    ensures forall k | 0 <= k < n :: IsAlnumPlus(s[k])
    ensures n < |s| ==> !IsAlnumPlus(s[n])
  {
    if s == "" || !IsAlnumPlus(s[0]) then 0 else 1 + SchemeRun(s[1..])
  }

  /** The scheme that the text names, up to a colon or to its end. */
  function NamedScheme(input: string): Option<string> {
    var view := WithoutTabsAndNewlines(input);
    if view == "" || !IsAlpha(view[0]) then None
    else
      var n := SchemeRun(view);
      if n == |view| || view[n] == ':' then Some(view[..n]) else None
  }

  /** A special URL stays special and another one does not become special; a file URL has no credentials and no port;
      and a URL without a host stays a file URL. */
  predicate KeepsScheme(u: Url, t: SchemeType, newType: SchemeType) {
    || (t == NOT_SPECIAL) != (newType == NOT_SPECIAL)
    || (newType == FILE && (HasCredentials(u) || u.port.Some?))
    || (t == FILE && !HasCredentials(u) && (u.host.Some? ==> u.host.value == ""))
  }

  function ProtocolAfter(u: Url, t: SchemeType, input: string): Url {
    var scheme := NamedScheme(input);
    if scheme.None? then u
    else
      var newType := GetSchemeType(ToLower(scheme.value));
      if KeepsScheme(u, t, newType) then u
      else
        u.(
          protocol := ToLower(scheme.value) + ":",
          port := if u.port == Some(SpecialPort(newType)) then None else u.port)
  }

  function TypeAfter(u: Url, t: SchemeType, input: string): SchemeType {
    var scheme := NamedScheme(input);
    if scheme.None? || KeepsScheme(u, t, GetSchemeType(ToLower(scheme.value))) then t
    else GetSchemeType(ToLower(scheme.value))
  }

  /** The type of the scheme goes on agreeing with its name. */
  lemma TypeAgrees(u: Url, t: SchemeType, input: string)
    requires u.protocol != "" && GetSchemeType(u.protocol[..|u.protocol| - 1]) == t
    ensures var protocol := ProtocolAfter(u, t, input).protocol;
      protocol != "" && GetSchemeType(protocol[..|protocol| - 1]) == TypeAfter(u, t, input)
  {
    var scheme := NamedScheme(input);
    if scheme.Some? {
      NameBeforeColon(ToLower(scheme.value));
    }
    hide NamedScheme, ToLower, GetSchemeType, KeepsScheme;
  }

  lemma NameBeforeColon(name: string)
    ensures (name + ":")[..|name + ":"| - 1] == name
  {
  }

  /** A refusal is reported only for a special scheme in lower case. */
  predicate ReportsProtocol(u: Url, t: SchemeType, input: string) {
    var scheme, view := NamedScheme(input), WithoutTabsAndNewlines(input);
    if scheme.None? then view == ""
    else
      var newType := GetSchemeType(scheme.value);
      newType == NOT_SPECIAL || !KeepsScheme(u, t, newType)
  }

  lemma {:induction false} AlreadyLower(s: string)
    requires forall k | 0 <= k < |s| :: !('A' <= s[k] <= 'Z')
    ensures ToLower(s) == s
  {
    if s != "" {
      AlreadyLower(s[1..]);
      assert s == [s[0]] + s[1..];
    }
  }

  /** The record afterwards does not depend on which of its two ways the setter takes. */
  lemma SpecialSchemesAreLowerCase(scheme: string)
    requires GetSchemeType(scheme) != NOT_SPECIAL
    ensures ToLower(scheme) == scheme
  {
    SchemeTypeIsByName(scheme, GetSchemeType(scheme));
    AlreadyLower(scheme);
  }

  function DefaultPort(t: SchemeType): Option<nat> {
    if t == NOT_SPECIAL || t == FILE then None else Some(SpecialPort(t))
  }

  /** A scheme that is set, be it the one that is there, takes away its own default port and no other one, except
      port 0 where the scheme has no default port, because 0 stands for none. */
  lemma OnlyTheDefaultPortIsDropped(u: Url, t: SchemeType, input: string)
    requires NamedScheme(input).Some?
    requires !KeepsScheme(u, t, GetSchemeType(ToLower(NamedScheme(input).value)))
    ensures var newType := GetSchemeType(ToLower(NamedScheme(input).value));
      ProtocolAfter(u, t, input).port == (if u.port == DefaultPort(newType) then None else u.port)
      <==> !(u.port == Some(0) && DefaultPort(newType).None?)
  {
  }

  lemma NamesFoo()
    ensures NamedScheme("foo") == Some("foo") && ToLower("foo") == "foo" && GetSchemeType("foo") == NOT_SPECIAL
  {
    assert WithoutTabsAndNewlines("foo") == "foo" && SchemeRun("foo") == 3 && "foo"[..3] == "foo";
    AlreadyLower("foo");
  }

  /** `foo` set on `web://h:0/`, and set once more on `foo://h:0/`. */
  lemma PortZeroIsDropped()
    ensures var u := Url("web:", "", "", Some("h"), Some(0), "/", None, None, false);
      && Href(u) == "web://h:0/" && Href(u.(protocol := "foo:")) == "foo://h:0/"
      && Href(ProtocolAfter(u, NOT_SPECIAL, "foo")) == "foo://h/"
      && Href(ProtocolAfter(u.(protocol := "foo:"), NOT_SPECIAL, "foo")) == "foo://h/"
  {
    NamesFoo();
    hide NamedScheme, ToLower, GetSchemeType, Href;
    var u := Url("web:", "", "", Some("h"), Some(0), "/", None, None, false);
    assert ProtocolAfter(u, NOT_SPECIAL, "foo") == u.(protocol := "foo:", port := None);
    assert ProtocolAfter(u.(protocol := "foo:"), NOT_SPECIAL, "foo") == u.(protocol := "foo:", port := None);
    hide ProtocolAfter;
    ShortHref("web:");
    ShortHref("foo:");
  }

  lemma ShortHref(protocol: string)
    ensures var u := Url(protocol, "", "", Some("h"), Some(0), "/", None, None, false);
      Href(u) == protocol + "//h:0/" && Href(u.(port := None)) == protocol + "//h/"
  {
    assert Decimal(0) == "0";
  }

  lemma {:induction false} SchemeRunBeforeColon(s: string)
    ensures SchemeRun(s + ":") == SchemeRun(s)
  {
    if s != "" {
      assert (s + ":")[1..] == s[1..] + ":";
      if IsAlnumPlus(s[0]) {
        SchemeRunBeforeColon(s[1..]);
      }
    }
  }

  method SetScheme(a: Aggregator, newSchemeWithColon: string, newType: SchemeType)
    requires a.Valid() && newSchemeWithColon != "" && newSchemeWithColon[|newSchemeWithColon| - 1] == ':'
    requires Fits(SetProtocol(a.shape, newSchemeWithColon))
    modifies a
    ensures a.Valid() && a.shape == SetProtocol(old(a.shape), newSchemeWithColon)
    ensures a.schemeType == newType && a.isValid == old(a.isValid)
  {
    hide Add32, Sub32, Trunc32, Erase, Insert, Splice, Fits, Text, OffsetsOf, ComponentsOf;
    var size := |newSchemeWithColon|;
    ProtocolEffect(a.shape, newSchemeWithColon);
    ProtocolFits(a.shape, newSchemeWithColon);
    Difference(size, a.components.protocolEnd);
    EraseThenInsert(a.buffer, 0, a.components.protocolEnd, newSchemeWithColon);
    SpliceOfNothing(newSchemeWithColon);

    a.schemeType := newType;
    var newDifference := Sub32(size, a.components.protocolEnd);
    if a.buffer == "" {
      a.buffer := a.buffer + newSchemeWithColon;
    } else {
      a.buffer := Erase(a.buffer, 0, a.components.protocolEnd);
      a.buffer := Insert(a.buffer, 0, newSchemeWithColon);
    }
    a.components := a.components.(protocolEnd := size);
    a.components := a.components.(
      usernameEnd := Add32(a.components.usernameEnd, newDifference),
      hostStart := Add32(a.components.hostStart, newDifference),
      hostEnd := Add32(a.components.hostEnd, newDifference),
      pathnameStart := Add32(a.components.pathnameStart, newDifference));
    a.components := ShiftSearchAndHash(a.components, newDifference);
    a.shape := SetProtocol(a.shape, newSchemeWithColon);
  }

  lemma ProtocolFits(s: Shape, protocol: string)
    requires Fits(SetProtocol(s, protocol))
    ensures |protocol| + 2 < OMITTED
  {
  }

  /** The questions that decide whether the scheme stays. */
  method RefusesType(a: Aggregator, newType: SchemeType) returns (refuses: bool)
    requires a.Valid() && a.shape.at == HasCredentials(a.shape.url)
    ensures refuses <==> KeepsScheme(a.shape.url, a.schemeType, newType)
  {
    hide Text, Fits, Sound, ComponentsOf;
    CredentialsRead(a.shape);
    PortInComponents(a.shape);
    HostLength(a.shape);
    if (a.schemeType == NOT_SPECIAL) != (newType == NOT_SPECIAL) {
      return true;
    }
    var hasCredentials := HasNonEmptyUsername(a.components) || HasNonEmptyPassword(a.components);
    if (hasCredentials || a.components.port != OMITTED) && newType == FILE {
      return true;
    }
    return a.schemeType == FILE && a.components.hostStart == a.components.hostEnd;
  }

  method ParseSchemeWithColon(a: Aggregator, inputWithColon: string) returns (done: bool)
    requires a.Valid() && Canonical(a.shape)
    requires inputWithColon != "" && inputWithColon[|inputWithColon| - 1] == ':'
    requires var scheme := ToLower(inputWithColon[..|inputWithColon| - 1]);
      KeepsScheme(a.shape.url, a.schemeType, GetSchemeType(scheme)) || Fits(SetProtocol(a.shape, scheme + ":"))
    modifies a
    ensures a.Valid() && a.isValid == old(a.isValid)
    ensures var input := inputWithColon[..|inputWithColon| - 1];
      var newType := GetSchemeType(ToLower(input));
      var u, t := old(a.shape.url), old(a.schemeType);
      && (done <==> GetSchemeType(input) == NOT_SPECIAL || !KeepsScheme(u, t, GetSchemeType(input)))
      && if KeepsScheme(u, t, newType) then a.shape == old(a.shape) && a.schemeType == t
         else
           && a.schemeType == newType
           && a.shape == SerializedShape(u.(
                protocol := ToLower(input) + ":",
                port := if u.port == Some(SpecialPort(newType)) then None else u.port))
  {
    hide Text, Fits, Sound, ComponentsOf, ToLower, GetSchemeType, KeepsScheme;
    var input := inputWithColon[..|inputWithColon| - 1];
    assert inputWithColon == input + ":";
    var parsedType := GetSchemeType(input);
    if parsedType != NOT_SPECIAL {
      SpecialSchemesAreLowerCase(input);
      var refuses := RefusesType(a, parsedType);
      if refuses {
        return false;
      }
      SetScheme(a, inputWithColon, parsedType);
    } else {
      var lower := ToLower(input);
      var newType := GetSchemeType(lower);
      var refuses := RefusesType(a, newType);
      if refuses {
        return true;
      }
      SetScheme(a, lower + ":", newType);
    }
    PortInComponents(a.shape);
    PortNeedsHost(a.shape);
    if a.components.port == SpecialPort(a.schemeType) {
      a.ClearPort();
    }
    return true;
  }

  lemma SchemeNamed(input: string)
    ensures var view := WithoutTabsAndNewlines(input);
      if view == "" || !IsAlpha(view[0]) then NamedScheme(input) == None
      else
        var withColon := view + ":";
        var n := SchemeRun(withColon);
        && n < |withColon|
        && var scheme := withColon[..n + 1];
        && scheme != "" && scheme[|scheme| - 1] == withColon[n]
        && NamedScheme(input) == if withColon[n] == ':' then Some(scheme[..|scheme| - 1]) else None
  {
    hide WithoutTabsAndNewlines;
    var view := WithoutTabsAndNewlines(input);
    SchemeRunBeforeColon(view);
    var n := SchemeRun(view);
    assert (view + ":")[..n + 1][..n] == view[..n];
  }

  method SetTheProtocol(a: Aggregator, input: string) returns (done: bool)
    requires a.Valid() && Canonical(a.shape)
    requires Fits(SetProtocol(a.shape, ProtocolAfter(a.shape.url, a.schemeType, input).protocol))
    modifies a
    ensures done <==> ReportsProtocol(old(a.shape.url), old(a.schemeType), input)
    ensures Serializes(a, ProtocolAfter(old(a.shape.url), old(a.schemeType), input))
    ensures a.schemeType == TypeAfter(old(a.shape.url), old(a.schemeType), input) && a.isValid == old(a.isValid)
  {
    hide Text, Fits, Sound, ComponentsOf, ToLower, GetSchemeType, KeepsScheme, Href, Validate;
    hide SchemeRun, WithoutTabsAndNewlines, NamedScheme;
    ghost var u, t := a.shape.url, a.schemeType;
    SerializedAgain(a, u);
    SchemeNamed(input);
    var view := RemoveTabsAndNewlines(input);
    if view == "" {
      return true;
    }
    if !IsAlpha(view[0]) {
      return false;
    }
    view := view + ":";
    var pointer := SchemeRun(view);
    if pointer != |view| && view[pointer] == ':' {
      var colon := view[..pointer + 1];
      done := ParseSchemeWithColon(a, colon);
      SerializedAgain(a, ProtocolAfter(u, t, input));
      return;
    }
    return false;
  }

  // Letters and names.

  const LETTERS := "abcdefghijklmnopqrstuvwxyz"

  const CAPITALS := "ABCDEFGHIJKLMNOPQRSTUVWXYZ"

  lemma {:induction false} LowerAt(s: string, k: nat)
    requires k < |s|
    ensures |ToLower(s)| == |s|
    ensures ToLower(s)[k] == if 'A' <= s[k] <= 'Z' then s[k] + ('a' - 'A') else s[k]
  {
    if k > 0 {
      LowerAt(s[1..], k - 1);
    } else if |s| > 1 {
      LowerAt(s[1..], 0);
    }
  }

  /** Capitals become the small letters in their place of the alphabet, and all else stays. */
  lemma CapitalsBecomeSmall(s: string, k: nat)
    requires k < |s|
    ensures |ToLower(s)| == |s|
    ensures forall n | 0 <= n < 26 :: s[k] == CAPITALS[n] ==> ToLower(s)[k] == LETTERS[n]
    ensures s[k] !in CAPITALS ==> ToLower(s)[k] == s[k]
  {
    hide ToLower;
    LowerAt(s, k);
    CapitalLetters(s[k]);
    LettersAreInOrder();
  }

  lemma LettersAreInOrder()
    ensures forall n | 0 <= n < 26 :: CAPITALS[n] == 'A' + n as char && LETTERS[n] == 'a' + n as char
  {
  }

  lemma SmallLetters(c: char)
    ensures c in LETTERS <==> 'a' <= c <= 'z'
  {
    assert forall n | 0 <= n < 26 :: LETTERS[n] == 'a' + n as char;
    if 'a' <= c <= 'z' {
      assert c == LETTERS[c as int - 'a' as int];
    }
  }

  lemma CapitalLetters(c: char)
    ensures c in CAPITALS <==> 'A' <= c <= 'Z'
  {
    assert forall n | 0 <= n < 26 :: CAPITALS[n] == 'A' + n as char;
    if 'A' <= c <= 'Z' {
      assert c == CAPITALS[c as int - 'A' as int];
    }
  }

  lemma OtherSchemeChars(c: char)
    ensures c in "0123456789+-." <==> '0' <= c <= '9' || c == '+' || c == '-' || c == '.'
  {
    assert forall n | 0 <= n < 10 :: "0123456789+-."[n] == '0' + n as char;
    assert "0123456789+-."[10] == '+' && "0123456789+-."[11] == '-' && "0123456789+-."[12] == '.';
    if '0' <= c <= '9' {
      assert c == "0123456789+-."[c as int - '0' as int];
    }
  }

  lemma LettersAreAlpha(c: char)
    ensures IsAlpha(c) <==> c in LETTERS || c in CAPITALS
    ensures IsAlnumPlus(c) <==> c in LETTERS || c in CAPITALS || c in "0123456789+-."
  {
    SmallLetters(c);
    CapitalLetters(c);
    OtherSchemeChars(c);
  }

  /** The default ports, by the names of the schemes. */
  lemma DefaultPortsByName()
    ensures SpecialPort(GetSchemeType("http")) == SpecialPort(GetSchemeType("ws")) == 80
    ensures SpecialPort(GetSchemeType("https")) == SpecialPort(GetSchemeType("wss")) == 443
    ensures SpecialPort(GetSchemeType("ftp")) == 21
    ensures forall scheme: string :: scheme !in ["http", "ws", "https", "wss", "ftp"] ==>
      SpecialPort(GetSchemeType(scheme)) == 0 && DefaultPort(GetSchemeType(scheme)).None?
  {
    forall scheme: string, t | t != NOT_SPECIAL
      ensures GetSchemeType(scheme) == t <==> scheme == SchemeOf(t)
    {
      SchemeTypeIsByName(scheme, t);
    }
    hide GetSchemeType;
    assert GetSchemeType("http") == HTTP && GetSchemeType("ws") == WS && GetSchemeType("https") == HTTPS;
    assert GetSchemeType("wss") == WSS && GetSchemeType("ftp") == FTP;
    assert forall t :: DefaultPort(t).None? <==> t == NOT_SPECIAL || t == FILE;
  }

  lemma {:induction false} SchemeRunIs(a: string, b: string)
    requires forall k | 0 <= k < |a| :: IsAlnumPlus(a[k])
    requires b == "" || !IsAlnumPlus(b[0])
    ensures SchemeRun(a + b) == |a|
  {
    if a == "" {
      assert a + b == b;
    } else {
      assert (a + b)[1..] == a[1..] + b;
      SchemeRunIs(a[1..], b);
    }
  }

  lemma NamedBefore(a: string, b: string)
    requires a != "" && IsAlpha(a[0]) && WithoutTabsAndNewlines(a + b) == a + b
    requires forall k | 0 <= k < |a| :: IsAlnumPlus(a[k])
    requires b == "" || !IsAlnumPlus(b[0])
    ensures NamedScheme(a + b) == if b == "" || b[0] == ':' then Some(a) else None
  {
    hide WithoutTabsAndNewlines, SchemeRun;
    SchemeRunIs(a, b);
    assert (a + b)[..|a|] == a;
  }

  lemma CleanScheme(scheme: string, rest: string)
    requires forall k | 0 <= k < |scheme| :: IsAlnumPlus(scheme[k])
    requires WithoutTabsAndNewlines(rest) == rest
    ensures WithoutTabsAndNewlines(scheme + rest) == scheme + rest
    ensures WithoutTabsAndNewlines(scheme + (":" + rest)) == scheme + (":" + rest)
  {
    NothingToRemove(scheme);
    NothingToRemove(":");
    hide WithoutTabsAndNewlines;
    RemovedInTurn(":", rest);
    RemovedInTurn(scheme, ":" + rest);
    RemovedInTurn(scheme, rest);
  }

  /** A scheme is a letter and more letters, digits and `+-.`, up to a colon or the end. */
  lemma SchemeIsNamed(scheme: string, rest: string)
    requires scheme != "" && (scheme[0] in LETTERS || scheme[0] in CAPITALS)
    requires forall k | 0 <= k < |scheme| ::
      scheme[k] in LETTERS || scheme[k] in CAPITALS || scheme[k] in "0123456789+-."
    requires WithoutTabsAndNewlines(rest) == rest
    ensures NamedScheme(scheme) == NamedScheme(scheme + ":" + rest) == Some(scheme)
    ensures rest != "" && rest[0] != ':' &&
            rest[0] !in LETTERS && rest[0] !in CAPITALS && rest[0] !in "0123456789+-." ==>
      NamedScheme(scheme + rest) == None
  {
    forall k | 0 <= k < |scheme|
      ensures IsAlnumPlus(scheme[k]) && (k == 0 ==> IsAlpha(scheme[k]))
    {
      LettersAreAlpha(scheme[k]);
    }
    CleanScheme(scheme, rest);
    NothingToRemove("");
    CleanScheme(scheme, "");
    hide NamedScheme, WithoutTabsAndNewlines;
    assert scheme + "" == scheme && scheme + ":" + rest == scheme + (":" + rest);
    NamedBefore(scheme, "");
    NamedBefore(scheme, ":" + rest);
    if rest != "" {
      LettersAreAlpha(rest[0]);
      if !IsAlnumPlus(rest[0]) {
        NamedBefore(scheme, rest);
      }
    }
  }

  /** A special scheme is known in letters of either case. */
  lemma SpecialInEitherCase(scheme: string, t: SchemeType)
    requires t != NOT_SPECIAL
    ensures GetSchemeType(ToLower(scheme)) == t <==> ToLower(scheme) == SchemeOf(t)
    ensures ToLower("HTTPS") == "https" && ToLower("WsS") == "wss"
  {
    hide ToLower;
    SchemeTypeIsByName(ToLower(scheme), t);
    SpelledOut();
  }

  lemma SpelledOut()
    ensures ToLower("HTTPS") == "https" && ToLower("WsS") == "wss"
  {
  }
}
