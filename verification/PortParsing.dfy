/** The default ports of the special schemes, and reading a port from text. */
module PortParsing {
  import opened CppString
  import opened UrlRecord

  datatype SchemeType = HTTP | NOT_SPECIAL | HTTPS | WS | FTP | WSS | FILE

  /** `scheme::get_special_port`; 0 where there is no default port. */
  function SpecialPort(t: SchemeType): nat {
    match t
    case HTTP => 80
    case NOT_SPECIAL => 0
    case HTTPS => 443
    case WS => 80
    case FTP => 21
    case WSS => 443
    case FILE => 0
  }

  predicate IsDigit(c: char) { '0' <= c <= '9' }

  /** How many digits the text starts with. */
  function DigitRun(s: string): (n: nat)
    ensures n <= |s|
    ensures forall k | 0 <= k < n :: IsDigit(s[k])
    ensures n < |s| ==> !IsDigit(s[n])
  {
    if s == "" || !IsDigit(s[0]) then 0 else 1 + DigitRun(s[1..])
  }

  /** The number that a row of digits stands for. */
  function DigitsValue(s: string): nat
    requires forall k | 0 <= k < |s| :: IsDigit(s[k])
  {
    if s == "" then 0
    else
      assert IsDigit(s[|s| - 1]);
      10 * DigitsValue(s[..|s| - 1]) + (s[|s| - 1] as int - '0' as int)
  }

  datatype FromCharsResult = InvalidArgument | OutOfRange | Parsed(value: nat, consumed: nat)

  /** `std::from_chars` for an unsigned 16-bit number. */
  function FromChars(s: string): FromCharsResult {
    var n := DigitRun(s);
    if n == 0 then InvalidArgument
    else if DigitsValue(s[..n]) > 0xFFFF then OutOfRange
    else Parsed(DigitsValue(s[..n]), n)
  }

  lemma {:induction false} DecimalValue(n: nat)
    ensures forall k | 0 <= k < |Decimal(n)| :: IsDigit(Decimal(n)[k])
    ensures DigitsValue(Decimal(n)) == n
  {
    assert forall c | c in Decimal(n) :: IsDigit(c);
    if n >= 10 {
      DecimalValue(n / 10);
      var s := Decimal(n);
      assert s[..|s| - 1] == Decimal(n / 10);
    } else {
      assert Decimal(n)[..0] == "";
    }
  }

  lemma {:induction false} DigitRunOf(s: string, rest: string)
    requires forall k | 0 <= k < |s| :: IsDigit(s[k])
    requires rest != "" ==> !IsDigit(rest[0])
    ensures DigitRun(s + rest) == |s|
  {
    if s == "" {
      assert s + rest == rest;
    } else {
      assert (s + rest)[1..] == s[1..] + rest;
      DigitRunOf(s[1..], rest);
    }
  }

  /** Reading the digits that printing a number produces gives the number back, if it is a port. */
  lemma FromCharsReadsDecimal(n: nat, rest: string)
    requires rest != "" ==> !IsDigit(rest[0])
    ensures FromChars(Decimal(n) + rest) == if n <= 0xFFFF then Parsed(n, |Decimal(n)|) else OutOfRange
  {
    hide Decimal;
    var s := Decimal(n) + rest;
    DecimalValue(n);
    DigitRunOf(Decimal(n), rest);
    assert s[..|Decimal(n)|] == Decimal(n);
  }

  /** The port that a view leaves behind: a default port is not stored, except that 0 is stored where
      there is no default port. */
  function StoredPort(t: SchemeType, r: FromCharsResult): Option<nat>
    requires !r.OutOfRange?
  {
    var defaultPort := SpecialPort(t);
    var parsed := if r.Parsed? then r.value else 0;
    if r.Parsed? && ((defaultPort == 0 && parsed == 0) || defaultPort != parsed) then Some(parsed) else None
  }

  predicate TrailingContentIsValid(t: SchemeType, view: string, consumed: nat)
    requires consumed <= |view|
  {
    || consumed == |view|
    || view[consumed] == '/'
    || view[consumed] == '?'
    || (t != NOT_SPECIAL && view[consumed] == '\\')
  }

  /** Leading zeros change nothing. */
  lemma LeadingZero(s: string)
    requires s != "" && IsDigit(s[0])
    ensures FromChars("0" + s) == match FromChars(s)
      case Parsed(value, consumed) => Parsed(value, consumed + 1)
      case other => other
  {
    var n := DigitRun(s);
    assert ("0" + s)[1..] == s && DigitRun("0" + s) == n + 1;
    assert ("0" + s)[..n + 1] == "0" + s[..n];
    ZeroBefore(s[..n]);
  }

  lemma {:induction false} ZeroBefore(s: string)
    requires forall k | 0 <= k < |s| :: IsDigit(s[k])
    ensures DigitsValue("0" + s) == DigitsValue(s)
  {
    var t := "0" + s;
    assert forall k | 0 <= k < |t| :: IsDigit(t[k]);
    if s == "" {
      assert t[..0] == "";
    } else {
      assert t[..|t| - 1] == "0" + s[..|s| - 1];
      ZeroBefore(s[..|s| - 1]);
    }
  }

  /** What may stand behind the digits of a port: nothing, a path or a query, and in special URLs a backslash. */
  lemma WhatFollowsAPort(t: SchemeType, digits: string, rest: string)
    ensures TrailingContentIsValid(t, digits + rest, |digits|) <==>
      rest == "" || rest[0] == '/' || rest[0] == '?' || (rest[0] == '\\' && t != NOT_SPECIAL)
  {
    assert rest != "" ==> (digits + rest)[|digits|] == rest[0];
  }

  /** A port that is printed and read again is stored, unless it is the default port of the scheme. */
  lemma PortIsStored(t: SchemeType, port: nat, rest: string)
    requires port <= 0xFFFF && (rest != "" ==> !IsDigit(rest[0]))
    ensures FromChars(Decimal(port) + rest).Parsed?
    ensures StoredPort(t, FromChars(Decimal(port) + rest)) ==
      if (t == HTTP && port == 80) || (t == HTTPS && port == 443) || (t == WS && port == 80)
         || (t == WSS && port == 443) || (t == FTP && port == 21)
      then None else Some(port)
  {
    hide Decimal, FromChars;
    FromCharsReadsDecimal(port, rest);
  }
}
