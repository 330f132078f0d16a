/** Reading a record back from the flat buffer, and the offsets computed from the plain record. */
module UrlReading {
  import opened CppString
  import opened DigitCount
  import opened Pieces
  import opened UrlRecord
  import opened UrlLayout
  import opened UrlEdits

  /** The offsets lie in the buffer in the order of the parts they lead to. */
  predicate Readable(text: string, c: Components) {
    && c.protocolEnd <= c.usernameEnd <= c.hostStart <= c.hostEnd <= c.pathnameStart
    && c.pathnameStart <= QueryStart(text, c) <= HashStart(text, c) <= |text|
    && (HasAuthority(text, c) ==>
         && c.protocolEnd + 2 <= c.usernameEnd
         && (CharAt(text, c.hostStart) == '@' ==> c.hostStart < c.hostEnd))
    && (c.searchStart != OMITTED ==> c.searchStart < HashStart(text, c))
    && (c.hashStart != OMITTED ==> c.hashStart < |text|)
  }

  /** Each part is cut out of the buffer at its offsets, without its delimiters. */
  function ReadBack(text: string, c: Components, hasOpaquePath: bool): Url
    requires Readable(text, c)
  {
    var authority := HasAuthority(text, c);
    Url(
      text[..c.protocolEnd],
      if authority then text[c.protocolEnd + 2..c.usernameEnd] else "",
      if c.hostStart > c.usernameEnd then text[c.usernameEnd + 1..c.hostStart] else "",
      if authority
      then Some(text[(if CharAt(text, c.hostStart) == '@' then c.hostStart + 1 else c.hostStart)..c.hostEnd])
      else None,
      if c.port != OMITTED then Some(c.port) else None,
      text[c.pathnameStart..QueryStart(text, c)],
      if c.searchStart != OMITTED then Some(text[c.searchStart + 1..HashStart(text, c)]) else None,
      if c.hashStart != OMITTED then Some(text[c.hashStart + 1..]) else None,
      hasOpaquePath)
  }

  lemma SliceTail(s: string, start: nat, end: nat, mark: string, value: string)
    requires start <= end <= |s| && |mark| == 1 && s[start..end] == mark + value
    ensures start < end && s[start + 1..end] == value
  {
    assert s[start + 1..end] == s[start..end][1..];
  }

  lemma AuthorityReadsBack(s: Shape)
    requires Sound(s) && Fits(s)
    ensures var c, text := ComponentsOf(s), Text(s);
      && c.protocolEnd <= c.usernameEnd <= c.hostStart <= c.hostEnd <= c.pathnameStart <= |text|
      && text[..c.protocolEnd] == s.url.protocol
      && (HasAuthority(text, c) <==> s.url.host.Some?)
      && (s.url.host.Some? ==>
           && c.protocolEnd + 2 <= c.usernameEnd
           && text[c.protocolEnd + 2..c.usernameEnd] == s.url.username
           && (CharAt(text, c.hostStart) == '@' <==> s.at)
           && c.hostStart + (if s.at then 1 else 0) <= c.hostEnd
           && text[c.hostStart + (if s.at then 1 else 0)..c.hostEnd] == s.url.host.value)
      && text[c.usernameEnd..c.hostStart] ==
           PasswordText(s.url.password)
  {
    hide Before, Layout, Decimal, HasAuthority, Concat, Add32;
    var ps := Layout(s);
    AuthorityRead(s);
    OffsetsOrdered(s);
    PiecesAt(s);
    OffsetsStepwise(ps);
    ReadPiece(ps, PROTOCOL);
    ReadPiece(ps, USERNAME);
    ReadPiece(ps, PASSWORD);
    ReadPiece(ps, HOST);
    if s.url.host.Some? {
      AtRead(s);
    }
  }

  lemma SuffixStarts(s: Shape)
    requires Sound(s) && Fits(s)
    ensures var c, o, text := ComponentsOf(s), OffsetsOf(s), Text(s);
      && c.pathnameStart == o.pathnameStart <= o.searchStart <= o.hashStart <= o.total == |text|
      && QueryStart(text, c) == o.searchStart && HashStart(text, c) == o.hashStart
      && o.hashStart == Offset(Layout(s), HASH) && o.total == o.hashStart + |HashText(s.url.hash)|
      && (c.searchStart == OMITTED <==> s.url.query.None?)
      && (c.hashStart == OMITTED <==> s.url.hash.None?)
  {
    hide Before, Layout, Decimal, Offset;
    PiecesAt(s);
    OffsetsOrdered(s);
    OffsetsSpelledOut(s);
  }

  lemma ToTheEnd(text: string, start: nat)
    requires start <= |text|
    ensures text[start..|text|] == text[start..]
  {
  }

  lemma SuffixReadsBack(s: Shape)
    requires Sound(s) && Fits(s)
    ensures var c, text := ComponentsOf(s), Text(s);
      && c.pathnameStart <= QueryStart(text, c) <= HashStart(text, c) <= |text|
      && text[c.pathnameStart..QueryStart(text, c)] == s.url.path
      && text[QueryStart(text, c)..HashStart(text, c)] == SearchText(s.url.query)
      && text[HashStart(text, c)..] == HashText(s.url.hash)
      && (c.searchStart == OMITTED <==> s.url.query.None?)
      && (c.hashStart == OMITTED <==> s.url.hash.None?)
  {
    hide Before, Layout, Decimal, Offset, Concat;
    var o, ps := OffsetsOf(s), Layout(s);
    SuffixStarts(s);
    PiecesAt(s);
    assert o.pathnameStart == Offset(ps, PATH) && o.searchStart == Offset(ps, SEARCH);
    assert ps[SEARCH] == SearchText(s.url.query) && ps[HASH] == HashText(s.url.hash);
    hide QueryStart, HashStart, ComponentsOf, OffsetsOf, SearchText, HashText, Sound, Fits;
    ReadPiece(ps, PATH);
    ReadPiece(ps, SEARCH);
    ReadPiece(ps, HASH);
    ToTheEnd(Text(s), o.hashStart);
  }

  lemma QueryAndHashReadBack(s: Shape)
    requires Sound(s) && Fits(s)
    ensures var c, text := ComponentsOf(s), Text(s);
      && QueryStart(text, c) <= HashStart(text, c) <= |text|
      && (s.url.query.Some? ==>
            && QueryStart(text, c) == c.searchStart < HashStart(text, c)
            && text[c.searchStart + 1..HashStart(text, c)] == s.url.query.value)
      && (s.url.hash.Some? ==>
            HashStart(text, c) == c.hashStart < |text| && text[c.hashStart + 1..] == s.url.hash.value)
  {
    hide Before, Layout, Decimal, Text, OffsetsOf;
    var c, text := ComponentsOf(s), Text(s);
    SuffixReadsBack(s);
    if s.url.query.Some? {
      SliceTail(text, QueryStart(text, c), HashStart(text, c), "?", s.url.query.value);
    }
    if s.url.hash.Some? {
      assert text[HashStart(text, c)..|text|] == text[HashStart(text, c)..];
      SliceTail(text, HashStart(text, c), |text|, "#", s.url.hash.value);
      assert text[c.hashStart + 1..|text|] == text[c.hashStart + 1..];
    }
  }

  lemma PasswordReadsBack(s: Shape)
    requires Sound(s) && Fits(s)
    ensures var c, text := ComponentsOf(s), Text(s);
      && c.usernameEnd <= c.hostStart <= |text|
      && (c.hostStart > c.usernameEnd <==> s.url.password != "")
      && (c.hostStart > c.usernameEnd ==> text[c.usernameEnd + 1..c.hostStart] == s.url.password)
  {
    hide Before, Layout, Decimal, HasAuthority, Text, OffsetsOf, ComponentsOf;
    var c := ComponentsOf(s);
    AuthorityReadsBack(s);
    assert |Text(s)[c.usernameEnd..c.hostStart]| == c.hostStart - c.usernameEnd;
    if s.url.password != "" {
      SliceTail(Text(s), c.usernameEnd, c.hostStart, ":", s.url.password);
    }
  }

  lemma RecordIsReadable(s: Shape)
    requires Sound(s) && Fits(s)
    ensures Readable(Text(s), ComponentsOf(s))
  {
    hide Before, Layout, Decimal, HasAuthority, Text, OffsetsOf, QueryStart, HashStart, SearchText, HashText;
    hide ComponentsOf, Fits, PasswordText;
    AuthorityReadsBack(s);
    SuffixReadsBack(s);
    QueryAndHashReadBack(s);
  }

  lemma AuthorityFields(s: Shape)
    requires Sound(s) && Fits(s)
    ensures Readable(Text(s), ComponentsOf(s))
    ensures var r := ReadBack(Text(s), ComponentsOf(s), s.url.hasOpaquePath);
      && r.protocol == s.url.protocol
      && r.username == s.url.username
      && r.password == s.url.password
      && r.host == s.url.host
  {
    hide Before, Layout, Decimal, HasAuthority, Text, OffsetsOf, QueryStart, HashStart, Fits, ComponentsOf, Readable;
    hide PasswordText;
    RecordIsReadable(s);
    AuthorityReadsBack(s);
    PasswordReadsBack(s);
  }

  lemma SuffixFields(s: Shape)
    requires Sound(s) && Fits(s)
    ensures Readable(Text(s), ComponentsOf(s))
    ensures var r := ReadBack(Text(s), ComponentsOf(s), s.url.hasOpaquePath);
      && r.port == s.url.port
      && r.path == s.url.path
      && r.query == s.url.query
      && r.hash == s.url.hash
  {
    hide Before, Layout, Decimal, HasAuthority, Text, OffsetsOf, QueryStart, HashStart, Fits, ComponentsOf, Readable;
    hide SearchText, HashText;
    RecordIsReadable(s);
    PortInComponents(s);
    SuffixReadsBack(s);
    QueryAndHashReadBack(s);
  }

  /** The record is a function of what the object stores: every field reads back as it was written. */
  lemma ReadBackIsTheRecord(s: Shape)
    requires Sound(s) && Fits(s)
    ensures Readable(Text(s), ComponentsOf(s))
    ensures ReadBack(Text(s), ComponentsOf(s), s.url.hasOpaquePath) == s.url
  {
    hide Text, ComponentsOf, Fits, Sound, Readable;
    AuthorityFields(s);
    SuffixFields(s);
  }

  // The plain record computes offsets of its own.

  /** The getter `get_search`: a missing and an empty query both read as the empty text. */
  function GetSearch(u: Url): string {
    if u.query.Some? && u.query.value != "" then "?" + u.query.value else ""
  }

  lemma SearchRead(u: Url)
    ensures GetSearch(u) == "" <==> SearchText(u.query) == "" || SearchText(u.query) == "?"
    ensures GetSearch(u) != "" ==> GetSearch(u) == SearchText(u.query)
  {
  }

  lemma AuthorityLength(u: Url)
    ensures |AuthorityText(u)| ==
      if u.host.Some? then
        2 + (if HasCredentials(u) then |u.username| + (if u.password != "" then |u.password| + 1 else 0) + 1 else 0)
        + |u.host.value| + (if u.port.Some? then 1 + |Decimal(u.port.value)| else 0)
      else if NeedsMarker(u) then 2
      else 0
  {
    hide Decimal, StartsWith;
  }

  lemma HrefLength(u: Url)
    ensures |Href(u)| == |u.protocol| + |AuthorityText(u)| + |u.path| + |SearchText(u.query)| + |HashText(u.hash)|
  {
    hide AuthorityText;
  }

  /** The first half of `url::get_components`: everything up to the port. */
  method AuthorityComponents(u: Url) returns (out: Components, runningIndex: nat)
    requires |u.protocol| + |AuthorityText(u)| < OMITTED
    ensures out == Components(|u.protocol|, out.usernameEnd, out.hostStart, out.hostEnd, OMITTED, 0, OMITTED, OMITTED)
    ensures runningIndex + (if u.host.Some? && u.port.Some? then 1 + |Decimal(u.port.value)| else 0)
      == |u.protocol| + |AuthorityText(u)|
  {
    hide Decimal, Add32, Sub32, Trunc32, AuthorityText, StartsWith;
    AuthorityLength(u);
    WrapsNothing(|u.protocol|);
    out := Components(Trunc32(|u.protocol|), 0, 0, 0, OMITTED, 0, OMITTED, OMITTED);

    if u.host.Some? {
      NoWrap(out.protocolEnd, 2);
      out := out.(hostStart := Add32(out.protocolEnd, 2));
      if HasCredentials(u) {
        WrapsNothing(|u.username|);
        WrapsNothing(|u.password| + 1);
        NoWrap(out.hostStart, |u.username|);
        WrapsNothing(out.hostStart + |u.username|);
        out := out.(usernameEnd := Trunc32(out.hostStart + |u.username|));
        out := out.(hostStart := Add32(out.hostStart, Trunc32(|u.username|)));
        if u.password != "" {
          NoWrap(out.hostStart, |u.password| + 1);
          out := out.(hostStart := Add32(out.hostStart, Trunc32(|u.password| + 1)));
        }
        WrapsNothing(out.hostStart + |u.host.value|);
        out := out.(hostEnd := Trunc32(out.hostStart + |u.host.value|));
      } else {
        out := out.(usernameEnd := out.hostStart);
        WrapsNothing(out.hostStart + |u.host.value|);
        NoWrap(out.hostStart + |u.host.value|, 1);
        out := out.(hostEnd := Sub32(Trunc32(out.hostStart + |u.host.value|), 1));
      }
      NoWrap(out.hostEnd, 1);
      runningIndex := Add32(out.hostEnd, 1);
    } else {
      out := out.(hostStart := out.protocolEnd, hostEnd := out.protocolEnd);
      NoWrap(out.protocolEnd, 2);
      if !u.hasOpaquePath && StartsWith(u.path, "//") {
        runningIndex := Add32(out.protocolEnd, 2);
      } else {
        runningIndex := out.protocolEnd;
      }
    }
  }

  /** `url::get_components`. The offsets of path, query and fragment agree with the serialization; the
      end of the host follows a convention of its own. */
  method GetComponents(u: Url) returns (out: Components)
    requires WellFormed(u)
    requires |Href(u)| < OMITTED
    ensures out.protocolEnd == |u.protocol|
    ensures out.pathnameStart == |u.protocol| + |AuthorityText(u)|
    ensures out.searchStart == if u.query.Some? then out.pathnameStart + |u.path| else OMITTED
    ensures out.hashStart == if u.hash.Some? then out.pathnameStart + |u.path| + |SearchText(u.query)| else OMITTED
    ensures out.port == if u.port.Some? then u.port.value else OMITTED
  {
    hide Decimal, Add32, Sub32, Trunc32, FastDigitCount, AuthorityText, Href, StartsWith;
    HrefLength(u);
    var runningIndex: nat;
    out, runningIndex := AuthorityComponents(u);

    if u.port.Some? {
      FastDigitCountIsLength(u.port.value);
      out := out.(port := u.port.value);
      runningIndex := runningIndex + FastDigitCount(u.port.value) + 1;
    }
    WrapsNothing(runningIndex);
    out := out.(pathnameStart := Trunc32(runningIndex));
    runningIndex := runningIndex + |u.path|;

    if u.query.Some? {
      WrapsNothing(runningIndex);
      out := out.(searchStart := Trunc32(runningIndex));
      runningIndex := runningIndex + |GetSearch(u)|;
      if GetSearch(u) == "" {
        runningIndex := runningIndex + 1;
      }
    }
    if u.hash.Some? {
      WrapsNothing(runningIndex);
      out := out.(hashStart := Trunc32(runningIndex));
    }
  }

  /** Those offsets cut the serialization into the part before the path, the path, the query and the fragment. */
  lemma OffsetsCutHref(u: Url)
    ensures var text, path := Href(u), |u.protocol| + |AuthorityText(u)|;
      var query, hash := path + |u.path|, path + |u.path| + |SearchText(u.query)|;
      && hash <= |text|
      && text[..path] == u.protocol + AuthorityText(u)
      && text[path..query] == u.path
      && text[query..hash] == SearchText(u.query)
      && text[hash..] == HashText(u.hash)
  {
    hide AuthorityText;
  }

  /** For a canonical buffer these are the offsets that the flat form stores. */
  lemma PlainAndFlatOffsetsAgree(s: Shape)
    requires Sound(s) && Fits(s) && Canonical(s)
    ensures var c := ComponentsOf(s);
      && Text(s) == Href(s.url)
      && c.protocolEnd == |s.url.protocol|
      && c.pathnameStart == |s.url.protocol| + |AuthorityText(s.url)|
      && c.searchStart == (if s.url.query.Some? then c.pathnameStart + |s.url.path| else OMITTED)
      && c.hashStart == (
           if s.url.hash.Some? then c.pathnameStart + |s.url.path| + |SearchText(s.url.query)| else OMITTED)
  {
    hide Before, Layout, Decimal, AuthorityText;
    CanonicalIsHref(s);
    CanonicalHead(s);
    OffsetsSpelledOut(s);
    PiecesAt(s);
  }
}
