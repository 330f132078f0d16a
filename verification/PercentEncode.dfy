/** Percent-encoding: the bit tables, the scan for the first byte to encode, encoding and decoding. */
module PercentEncode {
  predicate IsBytes(s: string) {
    forall k | 0 <= k < |s| :: s[k] as int < 256
  }

  // The tables of ada::character_sets, one number for every eight bytes.

  type Table = t: seq<int> | |t| == 32 && forall b | b in t :: 0 <= b < 256 witness UPPER_HALF + UPPER_HALF

  const UPPER_HALF: seq<int> :=
    [0xFF, 0xFF, 0xFF, 0xFF, 0xFF, 0xFF, 0xFF, 0xFF, 0xFF, 0xFF, 0xFF, 0xFF, 0xFF, 0xFF, 0xFF, 0xFF]

  const SPECIAL_QUERY: Table :=
    [0xFF, 0xFF, 0xFF, 0xFF, 0x8D, 0x00, 0x00, 0x50, 0x00, 0x00, 0x00, 0x00, 0x00, 0x00, 0x00, 0x80] + UPPER_HALF

  const QUERY: Table :=
    [0xFF, 0xFF, 0xFF, 0xFF, 0x0D, 0x00, 0x00, 0x50, 0x00, 0x00, 0x00, 0x00, 0x00, 0x00, 0x00, 0x80] + UPPER_HALF

  const FRAGMENT: Table :=
    [0xFF, 0xFF, 0xFF, 0xFF, 0x05, 0x00, 0x00, 0x50, 0x00, 0x00, 0x00, 0x00, 0x01, 0x00, 0x00, 0x80] + UPPER_HALF

  const USERINFO: Table :=
    [0xFF, 0xFF, 0xFF, 0xFF, 0x0D, 0x80, 0x00, 0xFC, 0x01, 0x00, 0x00, 0x78, 0x01, 0x00, 0x00, 0xB8] + UPPER_HALF

  const PATH: Table :=
    [0xFF, 0xFF, 0xFF, 0xFF, 0x0D, 0x00, 0x00, 0xD0, 0x00, 0x00, 0x00, 0x40, 0x01, 0x00, 0x00, 0xA8] + UPPER_HALF

  const WWW_FORM: Table :=
    [0xFF, 0xFF, 0xFF, 0xFF, 0xFE, 0x9B, 0x00, 0xFC, 0x01, 0x00, 0x00, 0x78, 0x01, 0x00, 0x00, 0xF8] + UPPER_HALF

  /** `1 << k` */
  function Bit(k: int): int
    requires 0 <= k < 8
  {
    if k == 0 then 1 else if k == 1 then 2 else if k == 2 then 4 else if k == 3 then 8
    else if k == 4 then 16 else if k == 5 then 32 else if k == 6 then 64 else 128
  }

  predicate BitAt(table: Table, c: char)
    requires c as int < 256
  {
    table[c as int / 8] / Bit(c as int % 8) % 2 == 1
  }

  // The percent-encode sets of section 1.3 of the WHATWG URL Standard.

  predicate InC0Set(c: char) { c <= '\U{1F}' || c > '~' }
  predicate InFragmentSet(c: char) { InC0Set(c) || c in " \"<>`" }
  predicate InQuerySet(c: char) { InC0Set(c) || c in " \"#<>" }
  predicate InPathSet(c: char) { InQuerySet(c) || c in "?^`{}" }
  predicate InUserinfoSet(c: char) { InPathSet(c) || c in "/:;=@[\\]|" }

  predicate IsAlphanumeric(c: char) {
    '0' <= c <= '9' || 'A' <= c <= 'Z' || 'a' <= c <= 'z'
  }

  /** Section 5.2 encodes with this set after turning spaces into pluses. */
  predicate InFormSet(c: char) {
    !IsAlphanumeric(c) && c !in "*-._ "
  }

  lemma QueryTableMeetsTheStandard(c: char)
    requires c as int < 256
    ensures BitAt(QUERY, c) <==> InQuerySet(c)
  {
  }

  lemma SpecialQueryTableMeetsTheStandard(c: char)
    requires c as int < 256
    ensures BitAt(SPECIAL_QUERY, c) <==> InQuerySet(c) || c == '\''
  {
  }

  lemma FragmentTableMeetsTheStandard(c: char)
    requires c as int < 256
    ensures BitAt(FRAGMENT, c) <==> InFragmentSet(c)
  {
  }

  lemma PathTableMeetsTheStandard(c: char)
    requires c as int < 256
    ensures BitAt(PATH, c) <==> InPathSet(c)
  {
  }

  lemma UserinfoTableMeetsTheStandard(c: char)
    requires c as int < 256
    ensures BitAt(USERINFO, c) <==> InUserinfoSet(c)
  {
  }

  lemma FormTableMeetsTheStandard(c: char)
    requires c as int < 256
    ensures BitAt(WWW_FORM, c) <==> InFormSet(c)
  {
  }

  // Encoding.

  function HexDigit(n: int): (c: char)
    requires 0 <= n < 16
    ensures IsHexDigit(c) && HexValue(c) == n
  {
    if n < 10 then '0' + n as char else 'A' + (n - 10) as char
  }

  predicate IsHexDigit(c: char) {
    '0' <= c <= '9' || 'A' <= c <= 'F' || 'a' <= c <= 'f'
  }

  function HexValue(c: char): (n: int)
    requires IsHexDigit(c)
    ensures 0 <= n < 16
  {
    if c <= '9' then c as int - '0' as int
    else if c <= 'F' then c as int - 'A' as int + 10
    else c as int - 'a' as int + 10
  }

  function EncodeByte(table: Table, c: char): string
    requires c as int < 256
  {
    if BitAt(table, c) then ['%', HexDigit(c as int / 16), HexDigit(c as int % 16)] else [c]
  }

  /** `unicode::percent_encode` */
  function Encode(table: Table, s: string): string
    requires IsBytes(s)
  {
    if s == "" then "" else EncodeByte(table, s[0]) + Encode(table, s[1..])
  }

  predicate NeedsNoEncoding(table: Table, s: string)
    requires IsBytes(s)
  {
    forall k | 0 <= k < |s| :: !BitAt(table, s[k])
  }

  /** A prefix that needs no encoding is copied, so only the remainder has to be encoded. */
  lemma {:induction false} EncodeAfterPrefix(table: Table, s: string, k: nat)
    requires IsBytes(s) && k <= |s|
    requires NeedsNoEncoding(table, s[..k])
    ensures IsBytes(s[k..])
    ensures Encode(table, s) == s[..k] + Encode(table, s[k..])
  {
    hide BitAt;
    if k == 0 {
      assert s[0..] == s && s[..0] == "";
      hide Encode, IsBytes, NeedsNoEncoding;
    } else {
      FirstIsCopied(table, s, k);
      EncodeAfterPrefix(table, s[1..], k - 1);
      hide Encode, IsBytes, NeedsNoEncoding;
      BehindFirst(s, k);
    }
  }

  lemma BehindFirst(s: string, k: nat)
    requires 0 < k <= |s|
    ensures s[1..][k - 1..] == s[k..] && s[..k] == [s[0]] + s[1..][..k - 1]
  {
  }

  lemma FirstIsCopied(table: Table, s: string, k: nat)
    requires IsBytes(s) && 0 < k <= |s| && NeedsNoEncoding(table, s[..k])
    ensures IsBytes(s[1..]) && NeedsNoEncoding(table, s[1..][..k - 1])
    ensures Encode(table, s) == [s[0]] + Encode(table, s[1..])
  {
    hide BitAt;
    assert s[..k][0] == s[0];
    assert s[..k][1..] == s[1..][..k - 1];
  }

  lemma EncodeNothing(table: Table, s: string)
    requires IsBytes(s) && NeedsNoEncoding(table, s)
    ensures Encode(table, s) == s
  {
    assert s[..|s|] == s;
    EncodeAfterPrefix(table, s, |s|);
    assert s[|s|..] == "";
  }

  /** `unicode::percent_encode_index`, eight bytes at a time: the first byte in the set. */
  method EncodeIndex(table: Table, input: string) returns (index: nat)
    requires IsBytes(input)
    ensures index <= |input|
    ensures NeedsNoEncoding(table, input[..index])
    ensures index < |input| ==> BitAt(table, input[index])
  {
    hide BitAt;
    var size := |input|;
    var i := 0;
    while i + 8 <= size
      invariant 0 <= i <= size
      invariant NeedsNoEncoding(table, input[..i])
    {
      var chunk := input[i..i + 8];
      for j := 0 to 8
        invariant NeedsNoEncoding(table, input[..i + j])
      {
        if BitAt(table, chunk[j]) {
          return i + j;
        }
      }
      i := i + 8;
    }
    while i < size
      invariant 0 <= i <= size
      invariant NeedsNoEncoding(table, input[..i])
    {
      if BitAt(table, input[i]) {
        return i;
      }
      i := i + 1;
    }
    return size;
  }

  /** `percent_encode<true>`: appends the encoded input when encoding is needed, and otherwise
      leaves `out` as it is. */
  method EncodeOnto(table: Table, input: string, out: string) returns (required: bool, result: string)
    requires IsBytes(input)
    ensures required <==> !NeedsNoEncoding(table, input)
    ensures result == if required then out + Encode(table, input) else out
  {
    var index := EncodeIndex(table, input);
    if index == |input| {
      assert input[..index] == input;
      return false, out;
    }
    return true, out + Encode(table, input);
  }

  /** How the setters use it: the raw input is appended when `out` was left as it is. */
  method AppendEncoded(table: Table, input: string, out: string) returns (result: string)
    requires IsBytes(input)
    ensures result == out + Encode(table, input)
  {
    var required, encoded := EncodeOnto(table, input, out);
    if required {
      return encoded;
    }
    EncodeNothing(table, input);
    return encoded + input;
  }

  /** The bytes that an encoded byte is made of are left alone. */
  predicate LeavesEscapesAlone(table: Table) {
    !BitAt(table, '%') && forall n | 0 <= n < 16 :: !BitAt(table, HexDigit(n))
  }

  lemma {:induction false} EncodedIsClean(table: Table, s: string)
    requires IsBytes(s) && LeavesEscapesAlone(table)
    ensures IsBytes(Encode(table, s))
    ensures NeedsNoEncoding(table, Encode(table, s))
  {
    hide BitAt;
    if s != "" {
      EncodedIsClean(table, s[1..]);
    }
  }

  /** Encoding twice is encoding once. */
  lemma EncodeIdempotent(table: Table, s: string)
    requires IsBytes(s) && LeavesEscapesAlone(table)
    ensures IsBytes(Encode(table, s))
    ensures Encode(table, Encode(table, s)) == Encode(table, s)
  {
    EncodedIsClean(table, s);
    EncodeNothing(table, Encode(table, s));
  }

  lemma UrlTablesLeaveEscapesAlone()
    ensures LeavesEscapesAlone(QUERY)
    ensures LeavesEscapesAlone(FRAGMENT)
    ensures LeavesEscapesAlone(PATH)
    ensures LeavesEscapesAlone(USERINFO)
  {
    hide BitAt;
    forall c | IsHexDigit(c) || c == '%'
      ensures !BitAt(QUERY, c) && !BitAt(FRAGMENT, c) && !BitAt(PATH, c) && !BitAt(USERINFO, c)
    {
      QueryTableMeetsTheStandard(c);
      FragmentTableMeetsTheStandard(c);
      PathTableMeetsTheStandard(c);
      UserinfoTableMeetsTheStandard(c);
    }
  }

  // Decoding, section 1.3 of the WHATWG URL Standard.

  predicate StartsWithEscape(s: string) {
    |s| >= 3 && s[0] == '%' && IsHexDigit(s[1]) && IsHexDigit(s[2])
  }

  function Decode(s: string): string {
    if s == "" then ""
    else if StartsWithEscape(s) then [(16 * HexValue(s[1]) + HexValue(s[2])) as char] + Decode(s[3..])
    else [s[0]] + Decode(s[1..])
  }

  lemma DecodeByte(table: Table, c: char, rest: string)
    requires c as int < 256
    requires BitAt(table, '%')
    ensures Decode(EncodeByte(table, c) + rest) == [c] + Decode(rest)
  {
    var s := EncodeByte(table, c) + rest;
    if BitAt(table, c) {
      assert s[3..] == rest;
      assert StartsWithEscape(s);
    } else {
      assert s[1..] == rest;
    }
  }

  /** A table that encodes the percent sign loses nothing. */
  lemma {:induction false} DecodeEncode(table: Table, s: string)
    requires IsBytes(s)
    requires BitAt(table, '%')
    ensures Decode(Encode(table, s)) == s
  {
    hide BitAt;
    if s != "" {
      DecodeEncode(table, s[1..]);
      DecodeByte(table, s[0], Encode(table, s[1..]));
    }
  }

  // What every spelling of a byte is read as.

  const LOWER_DIGITS := "0123456789abcdef"

  const UPPER_DIGITS := "0123456789ABCDEF"

  /** The digits stand for a number below 16, each in either case. */
  predicate SpellsDigit(c: char, n: nat) {
    n < 16 && (c == LOWER_DIGITS[n] || c == UPPER_DIGITS[n])
  }

  /** Two digits behind a percent sign. */
  predicate SpellsEscape(t: string, c: char) {
    |t| == 3 && t[0] == '%' && c as int < 256 && SpellsDigit(t[1], c as int / 16) && SpellsDigit(t[2], c as int % 16)
  }

  lemma DigitIsRead(c: char, n: nat)
    ensures SpellsDigit(c, n) <==> IsHexDigit(c) && HexValue(c) == n
  {
    assert forall k | 0 <= k < 10 :: LOWER_DIGITS[k] == UPPER_DIGITS[k] == '0' + k as char;
    assert forall k | 10 <= k < 16 :: LOWER_DIGITS[k] == 'a' + (k - 10) as char;
    assert forall k | 10 <= k < 16 :: UPPER_DIGITS[k] == 'A' + (k - 10) as char;
  }

  /** A byte that is encoded is written with upper-case digits. */
  lemma ByteIsWritten(table: Table, c: char, rest: string)
    requires c as int < 256 && IsBytes(rest)
    ensures IsBytes([c] + rest)
    ensures Encode(table, [c] + rest) ==
      (if BitAt(table, c) then ['%', UPPER_DIGITS[c as int / 16], UPPER_DIGITS[c as int % 16]] else [c])
      + Encode(table, rest)
  {
    hide BitAt;
    assert ([c] + rest)[1..] == rest;
    assert forall k | 0 <= k < 10 :: UPPER_DIGITS[k] == '0' + k as char;
    assert forall k | 10 <= k < 16 :: UPPER_DIGITS[k] == 'A' + (k - 10) as char;
  }

  /** Every byte is read from each of its spellings. */
  lemma EscapeIsRead(t: string, c: char, rest: string)
    requires SpellsEscape(t, c)
    ensures Decode(t + rest) == [c] + Decode(rest)
  {
    DigitIsRead(t[1], c as int / 16);
    DigitIsRead(t[2], c as int % 16);
    assert (t + rest)[3..] == rest;
  }

  /** Everything that is no escape is kept, a percent sign included. */
  lemma OtherBytesAreKept(c: char, rest: string)
    requires c != '%' || |rest| < 2 ||
             rest[0] !in LOWER_DIGITS + UPPER_DIGITS || rest[1] !in LOWER_DIGITS + UPPER_DIGITS
    ensures Decode([c] + rest) == [c] + Decode(rest)
  {
    var s := [c] + rest;
    if StartsWithEscape(s) {
      DigitIsRead(rest[0], HexValue(rest[0]));
      DigitIsRead(rest[1], HexValue(rest[1]));
    }
    assert s[1..] == rest;
  }
}
