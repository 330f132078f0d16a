/** `ada::url_aggregator`: a URL edited in place inside its own serialization. */
module UrlAggregator {
  import opened CppString
  import opened UrlRecord
  import opened UrlLayout
  import opened UrlEdits
  import opened PercentEncode
  import opened PortParsing

  class Aggregator {
    var buffer: string
    var components: Components
    var hasOpaquePath: bool
    var schemeType: SchemeType
    var isValid: bool
    /** The shape that `buffer` and `components` spell out. */
    ghost var shape: Shape

    ghost predicate Valid()
      reads this
    {
      && Sound(shape)
      && Fits(shape)
      && buffer == Text(shape)
      && components == ComponentsOf(shape)
      && hasOpaquePath == shape.url.hasOpaquePath
    }

    /** Writes `input` over the bytes from `start` to `end` and returns the change in length as a
        wrapped 32-bit number. The second alternative is the one where `end` has fallen below
        `start` by unsigned wrap-around: everything behind `start` is lost. */
    method ReplaceAndResize(start: uint32, end: uint32, input: string) returns (newDifference: uint32)
      requires start <= |buffer|
      requires |input| < TWO_TO_32
      requires end <= |buffer| && (end < start ==> |buffer| - start + |input| < TWO_TO_32 - (start - end))
      modifies this`buffer
      ensures start <= end ==> buffer == Splice(old(buffer), start, end, input)
      ensures end < start ==> buffer == old(buffer)[..start] + input
      ensures newDifference == Trunc32(|input| - (end - start))
    {
      hide Trunc32, Sub32;
      var currentLength := Sub32(end, start);
      var inputSize := Trunc32(|input|);
      newDifference := Sub32(inputSize, currentLength);
      Difference(end, start);
      WrapsNothing(|input|);
      DeltaSum(|input|, end - start);

      if currentLength == 0 {
        buffer := Insert(buffer, start, input);
      } else if inputSize == currentLength {
        buffer := Replace(buffer, start, inputSize, input);
      } else if inputSize < currentLength {
        if start <= end {
          EraseThenOverwrite(buffer, start, end, input);
        }
        buffer := Erase(buffer, start, currentLength - inputSize);
        buffer := Replace(buffer, start, inputSize, input);
      } else {
        OverwriteThenInsert(buffer, start, end, input);
        buffer := Replace(buffer, start, currentLength, Substr(input, 0, currentLength));
        buffer := Insert(buffer, start + currentLength, Substr(input, currentLength, |input|));
      }
    }

    method AddAuthoritySlashesIfNeeded()
      requires Valid() && !hasOpaquePath
      requires Fits(AddSlashes(shape))
      modifies this`buffer, this`components, this`shape
      ensures Valid() && shape == AddSlashes(old(shape))
    {
      hide Add32, HasAuthority, Insert, Sound, Fits, Text, ComponentsOf;
      AuthorityRead(shape);
      if HasAuthority(buffer, components) {
        return;
      }
      AddSlashesEffect(shape);

      buffer := Insert(buffer, components.protocolEnd, "//");
      components := components.(
        usernameEnd := Add32(components.usernameEnd, 2),
        hostStart := Add32(components.hostStart, 2),
        hostEnd := Add32(components.hostEnd, 2),
        pathnameStart := Add32(components.pathnameStart, 2));
      components := ShiftSearchAndHash(components, 2);
      shape := AddSlashes(shape);
    }

    method UpdateBaseUsername(input: string)
      requires Valid() && !hasOpaquePath
      requires Fits(SetUsername(shape, input))
      modifies this`buffer, this`components, this`shape
      ensures Valid() && shape == SetUsername(old(shape), input)
    {
      hide Add32, Sub32, Trunc32, HasAuthority, HasNonEmptyPassword, Insert, Erase, Splice;
      hide Sound, Fits, Text, OffsetsOf;
      ghost var t := SetUsername(shape, input);
      AddSlashesFits(shape, t);
      AddAuthoritySlashesIfNeeded();
      ghost var m := shape.(url := shape.url.(username := input));
      UsernameBytes(shape, input);
      UsernameOffsets(shape, m, t);
      AtBytes(m, t.at);
      AtRead(shape);
      CredentialsRead(shape);
      NoWrap(components.protocolEnd, 2);
      DeltaStep(|input| - |shape.url.username|);

      var hasPassword := HasNonEmptyPassword(components);
      var hostStartsWithAt := |buffer| > components.hostStart && buffer[components.hostStart] == '@';
      var diff := ReplaceAndResize(Add32(components.protocolEnd, 2), components.usernameEnd, input);

      components := components.(
        usernameEnd := Add32(components.usernameEnd, diff),
        hostStart := Add32(components.hostStart, diff));

      if input != "" && !hostStartsWithAt {
        buffer := Insert(buffer, components.hostStart, "@");
        diff := Add32(diff, 1);
      } else if input == "" && hostStartsWithAt && !hasPassword {
        buffer := Erase(buffer, components.hostStart, 1);
        diff := Sub32(diff, 1);
      }

      components := components.(
        hostEnd := Add32(components.hostEnd, diff),
        pathnameStart := Add32(components.pathnameStart, diff));
      components := ShiftSearchAndHash(components, diff);
      shape := t;
    }

    method AppendBaseUsername(input: string)
      requires Valid() && !hasOpaquePath
      requires Fits(AppendUsername(shape, input))
      modifies this`buffer, this`components, this`shape
      ensures Valid() && shape == AppendUsername(old(shape), input)
    {
      hide Add32, Sub32, Trunc32, HasAuthority, Insert, Erase, Splice;
      hide Sound, Fits, Text, OffsetsOf;
      ghost var t := AppendUsername(shape, input);
      AddSlashesFits(shape, t);
      AddAuthoritySlashesIfNeeded();

      if input == "" {
        return;
      }
      ghost var m := shape.(url := shape.url.(username := shape.url.username + input));
      AppendUsernameBytes(shape, input);
      UsernameOffsets(shape, m, t);
      AtBytes(m, t.at);
      AtRead(m);
      WrapsNothing(|input|);
      DeltaStep(|input|);
      ShiftExact(|input|);

      var difference := Trunc32(|input|);
      buffer := Insert(buffer, components.usernameEnd, input);
      components := components.(
        usernameEnd := Add32(components.usernameEnd, difference),
        hostStart := Add32(components.hostStart, difference));

      if CharAt(buffer, components.hostStart) != '@' && components.hostStart != components.hostEnd {
        buffer := Insert(buffer, components.hostStart, "@");
        difference := Add32(difference, 1);
      }

      components := components.(
        hostEnd := Add32(components.hostEnd, difference),
        pathnameStart := Add32(components.pathnameStart, difference));
      components := ShiftSearchAndHash(components, difference);
      shape := t;
    }

    method ClearPassword()
      requires Valid()
      modifies this`buffer, this`components, this`shape
      ensures Valid() && shape == UrlEdits.ClearPassword(old(shape))
    {
      hide Add32, Sub32, Trunc32, HasPassword, Erase, Splice;
      hide Sound, Fits, Text, OffsetsOf;
      CredentialsRead(shape);
      if !HasPassword(buffer, components) {
        return;
      }
      ghost var t := UrlEdits.ClearPassword(shape);
      ClearPasswordEffect(shape);
      NoWrap(components.hostStart, components.usernameEnd);

      var diff := Sub32(components.hostStart, components.usernameEnd);
      buffer := Erase(buffer, components.usernameEnd, diff);
      components := components.(
        hostStart := Sub32(components.hostStart, diff),
        hostEnd := Sub32(components.hostEnd, diff),
        pathnameStart := Sub32(components.pathnameStart, diff));
      components := ShiftSearchAndHashBack(components, diff);
      shape := t;
    }

    method UpdateBasePassword(input: string)
      requires Valid() && !hasOpaquePath
      requires Fits(SetPassword(shape, input))
      modifies this`buffer, this`components, this`shape
      ensures Valid() && shape == SetPassword(old(shape), input)
    {
      hide Add32, Sub32, Trunc32, HasAuthority, HasPassword, HasNonEmptyUsername, Insert, Erase, Splice;
      hide Sound, Fits, Text, OffsetsOf, PasswordText;
      ghost var t := SetPassword(shape, input);
      AddSlashesFits(shape, t);
      AddAuthoritySlashesIfNeeded();

      if input == "" {
        ClearPassword();
        CredentialsRead(shape);
        if !HasNonEmptyUsername(components) {
          UsernameClearedFits(shape);
          UpdateBaseUsername("");
        }
        return;
      }

      ghost var m := shape.(url := shape.url.(password := input));
      CredentialsRead(shape);
      SetPasswordSound(shape, input);
      PasswordOffsets(shape, m, t);
      PasswordRewritten(shape, input);
      AtBytes(m, t.at);
      AtRead(m);
      AddZero();
      DeltaStep(|PasswordText(input)| - |PasswordText(shape.url.password)|);

      var passwordExists := HasPassword(buffer, components);
      var difference := Trunc32(|input|);

      if passwordExists {
        var currentLength := Sub32(Sub32(components.hostStart, components.usernameEnd), 1);
        buffer := Erase(buffer, components.usernameEnd + 1, currentLength);
        difference := Sub32(difference, currentLength);
      } else {
        buffer := Insert(buffer, components.usernameEnd, ":");
        difference := Add32(difference, 1);
      }

      buffer := Insert(buffer, components.usernameEnd + 1, input);
      components := components.(hostStart := Add32(components.hostStart, difference));

      if CharAt(buffer, components.hostStart) != '@' {
        buffer := Insert(buffer, components.hostStart, "@");
        difference := Add32(difference, 1);
      }

      components := components.(
        hostEnd := Add32(components.hostEnd, difference),
        pathnameStart := Add32(components.pathnameStart, difference));
      components := ShiftSearchAndHash(components, difference);
      shape := t;
    }

    method UpdateBaseHostname(input: string)
      requires Valid() && !hasOpaquePath && !StartsWith(input, "@")
      requires Fits(SetHostname(shape, input))
      modifies this`buffer, this`components, this`shape
      ensures Valid() && shape == SetHostname(old(shape), input)
    {
      hide Add32, Sub32, Trunc32, HasAuthority, Insert, Erase, Splice;
      hide Sound, Fits, Text, OffsetsOf;
      ghost var t := SetHostname(shape, input);
      AddSlashesFits(shape, t);
      AddAuthoritySlashesIfNeeded();
      HostnameBytes(shape, input);
      HostnameOffsets(shape, input);
      CredentialsSpan(shape);
      AddZero();
      NoWrap(components.protocolEnd, 2);

      var hasCredentials := Add32(components.protocolEnd, 2) < components.hostStart;
      var newDifference := ReplaceAndResize(components.hostStart, components.hostEnd, input);
      DeltaStep(|input| - (components.hostEnd - components.hostStart));

      if hasCredentials {
        buffer := Insert(buffer, components.hostStart, "@");
        newDifference := Add32(newDifference, 1);
      }
      components := components.(
        hostEnd := Add32(components.hostEnd, newDifference),
        pathnameStart := Add32(components.pathnameStart, newDifference));
      components := ShiftSearchAndHash(components, newDifference);
      shape := t;
    }

    method AppendBasePassword(input: string)
      requires Valid() && !hasOpaquePath
      requires Fits(AppendPassword(shape, input))
      modifies this`buffer, this`components, this`shape
      ensures Valid() && shape == AppendPassword(old(shape), input)
    {
      hide Add32, Sub32, Trunc32, HasAuthority, HasPassword, Insert, Erase, Splice;
      hide Sound, Fits, Text, OffsetsOf, PasswordText;
      ghost var t := AppendPassword(shape, input);
      AddSlashesFits(shape, t);
      AddAuthoritySlashesIfNeeded();

      if input == "" {
        return;
      }
      ghost var m := shape.(url := shape.url.(password := shape.url.password + input));
      CredentialsRead(shape);
      SetPasswordSound(shape, input);
      PasswordOffsets(shape, m, t);
      PasswordAppended(shape, input);
      AtBytes(m, t.at);
      AtRead(m);
      AddZero();
      DeltaStep(|PasswordText(m.url.password)| - |PasswordText(shape.url.password)|);

      var difference := Trunc32(|input|);
      if HasPassword(buffer, components) {
        buffer := Insert(buffer, components.hostStart, input);
      } else {
        difference := Add32(difference, 1);
        buffer := Insert(buffer, components.usernameEnd, ":");
        buffer := Insert(buffer, components.usernameEnd + 1, input);
      }
      components := components.(hostStart := Add32(components.hostStart, difference));

      if CharAt(buffer, components.hostStart) != '@' {
        buffer := Insert(buffer, components.hostStart, "@");
        difference := Add32(difference, 1);
      }

      components := components.(
        hostEnd := Add32(components.hostEnd, difference),
        pathnameStart := Add32(components.pathnameStart, difference));
      components := ShiftSearchAndHash(components, difference);
      shape := t;
    }

    method ClearHostname()
      requires Valid()
      modifies this`buffer, this`components, this`shape
      ensures Valid() && shape == UrlEdits.ClearHostname(old(shape))
    {
      hide Add32, Sub32, Trunc32, HasAuthority, Erase, Splice;
      hide Sound, Fits, Text, OffsetsOf;
      AuthorityRead(shape);
      if !HasAuthority(buffer, components) {
        return;
      }
      ClearHostnameEffect(shape);
      AtRead(shape);
      NoWrap(components.hostEnd, components.hostStart);

      var hostnameLength := Sub32(components.hostEnd, components.hostStart);
      var start := components.hostStart;
      if hostnameLength > 0 && buffer[start] == '@' {
        start := start + 1;
        hostnameLength := hostnameLength - 1;
      }
      buffer := Erase(buffer, start, hostnameLength);
      components := components.(
        hostEnd := start,
        pathnameStart := Sub32(components.pathnameStart, hostnameLength));
      components := ShiftSearchAndHashBack(components, hostnameLength);
      shape := UrlEdits.ClearHostname(shape);
    }

    /** `input` is the port, or the value that stands for none. */
    method UpdateBasePort(input: uint32)
      requires Valid()
      requires input != OMITTED ==> input <= 0xFFFF && shape.url.host.Some?
      requires input != OMITTED ==> Fits(SetPort(shape, Some(input)))
      modifies this`buffer, this`components, this`shape
      ensures Valid()
      ensures shape == SetPort(old(shape), if input == OMITTED then None else Some(input))
    {
      hide Add32, Sub32, Trunc32, Insert, Erase, Splice, Decimal;
      hide Fits, Text, OffsetsOf;
      if input == OMITTED {
        ClearPort();
        return;
      }
      PortEffect(shape, Some(input));

      var value := ":" + Decimal(input);
      var difference := Trunc32(|value|);
      NoWrap(components.pathnameStart, components.hostEnd);

      if components.port != OMITTED {
        var length := Sub32(components.pathnameStart, components.hostEnd);
        WrapsNothing(length);
        DeltaSum(|value|, length);
        EraseThenInsert(buffer, components.hostEnd, length, value);
        difference := Sub32(difference, length);
        buffer := Erase(buffer, components.hostEnd, length);
      } else {
        InsertIsSplice(buffer, components.hostEnd, value);
      }

      buffer := Insert(buffer, components.hostEnd, value);
      components := components.(pathnameStart := Add32(components.pathnameStart, difference));
      components := ShiftSearchAndHash(components, difference);
      components := components.(port := input);
      shape := SetPort(shape, Some(input));
    }

    method ClearPort()
      requires Valid()
      modifies this`buffer, this`components, this`shape
      ensures Valid() && shape == SetPort(old(shape), None)
    {
      hide Add32, Sub32, Trunc32, Erase, Splice, Decimal;
      hide Fits, Text, OffsetsOf;
      if components.port == OMITTED {
        return;
      }
      ClearPortEffect(shape);
      NoWrap(components.pathnameStart, components.hostEnd);

      var length := Sub32(components.pathnameStart, components.hostEnd);
      buffer := Erase(buffer, components.hostEnd, length);
      components := components.(pathnameStart := Sub32(components.pathnameStart, length));
      components := ShiftSearchAndHashBack(components, length);
      components := components.(port := OMITTED);
      shape := SetPort(shape, None);
    }

    method ClearSearch()
      requires Valid()
      modifies this`buffer, this`components, this`shape
      ensures Valid() && shape == SetSearch(old(shape), None)
    {
      hide Sound, Fits, Text, OffsetsOf, ComponentsOf;
      ClearSearchFits(shape);
      SearchEffect(shape, None);
      if components.searchStart == OMITTED {
        return;
      }

      if components.hashStart == OMITTED {
        buffer := buffer[..components.searchStart];
      } else {
        buffer := Erase(buffer, components.searchStart, components.hashStart - components.searchStart);
        components := components.(hashStart := components.searchStart);
      }
      components := components.(searchStart := OMITTED);
      shape := SetSearch(shape, None);
    }

    /** A leading question mark is dropped; an empty input removes the query. */
    method UpdateBaseSearch(input: string)
      requires Valid()
      requires input != "" ==> Fits(SetSearch(shape, Some(WithoutQuestionMark(input))))
      modifies this`buffer, this`components, this`shape
      ensures Valid()
      ensures shape == SetSearch(old(shape), if input == "" then None else Some(WithoutQuestionMark(input)))
    {
      hide Sound, Fits, Text, OffsetsOf, ComponentsOf, Add32, Trunc32, Insert, Erase;
      if input == "" {
        ClearSearch();
        return;
      }
      var query := input;
      if query[0] == '?' {
        query := query[1..];
      }
      assert query == WithoutQuestionMark(input);
      QueryWritten(shape, query);

      if components.hashStart == OMITTED {
        if components.searchStart == OMITTED {
          components := components.(searchStart := Trunc32(|buffer|));
          buffer := buffer + "?";
        } else {
          buffer := buffer[..components.searchStart + 1];
        }
        buffer := buffer + query;
      } else {
        if components.searchStart == OMITTED {
          components := components.(searchStart := components.hashStart);
        } else {
          buffer := Erase(buffer, components.searchStart, components.hashStart - components.searchStart);
          components := components.(hashStart := components.searchStart);
        }
        buffer := Insert(buffer, components.searchStart, "?");
        buffer := Insert(buffer, components.searchStart + 1, query);
        components := components.(hashStart := Add32(components.hashStart, Trunc32(|query| + 1)));
      }
      shape := SetSearch(shape, Some(query));
    }

    /** The query is percent-encoded on the way in. With a fragment behind it, only the part from
        the first byte that needs encoding is encoded. */
    method UpdateBaseSearchEncoded(input: string, table: Table)
      requires Valid() && IsBytes(input)
      requires Fits(SetSearch(shape, Some(Encode(table, input))))
      modifies this`buffer, this`components, this`shape
      ensures Valid() && shape == SetSearch(old(shape), Some(Encode(table, input)))
    {
      hide Sound, Fits, Text, OffsetsOf, ComponentsOf, Add32, Trunc32, Insert, Erase, BitAt, Encode, NeedsNoEncoding;
      ghost var query := Encode(table, input);
      QueryWritten(shape, query);

      if components.hashStart == OMITTED {
        if components.searchStart == OMITTED {
          components := components.(searchStart := Trunc32(|buffer|));
          buffer := buffer + "?";
        } else {
          buffer := buffer[..components.searchStart + 1];
        }
        buffer := AppendEncoded(table, input, buffer);
      } else {
        if components.searchStart == OMITTED {
          components := components.(searchStart := components.hashStart);
        } else {
          buffer := Erase(buffer, components.searchStart, components.hashStart - components.searchStart);
          components := components.(hashStart := components.searchStart);
        }
        buffer := Insert(buffer, components.searchStart, "?");
        var index := EncodeIndex(table, input);
        if index == |input| {
          assert input[..index] == input;
          EncodeNothing(table, input);
          buffer := Insert(buffer, components.searchStart + 1, input);
          components := components.(hashStart := Add32(components.hashStart, Trunc32(|input| + 1)));
        } else {
          var remainder := input[index..];
          EncodeAfterPrefix(table, input, index);
          var encoded := Encode(table, remainder);
          InsertInTwoParts(buffer, components.searchStart + 1, input[..index], encoded);
          buffer := Insert(buffer, components.searchStart + 1, input[..index]);
          buffer := Insert(buffer, components.searchStart + index + 1, encoded);
          components := components.(hashStart := Add32(components.hashStart, Trunc32(|encoded| + index + 1)));
        }
      }
      shape := SetSearch(shape, Some(query));
    }

    /** The fragment is percent-encoded on the way in. */
    method UpdateUnencodedBaseHash(input: string)
      requires Valid() && IsBytes(input)
      requires Fits(SetHash(shape, Some(Encode(FRAGMENT, input))))
      modifies this`buffer, this`components, this`shape
      ensures Valid() && shape == SetHash(old(shape), Some(Encode(FRAGMENT, input)))
    {
      hide Sound, Fits, Text, OffsetsOf, ComponentsOf, Trunc32, BitAt, Encode, NeedsNoEncoding;
      ghost var hash := Encode(FRAGMENT, input);
      HashEffect(shape, Some(hash));

      if components.hashStart != OMITTED {
        buffer := buffer[..components.hashStart];
      }
      WrapsNothing(|buffer|);
      components := components.(hashStart := Trunc32(|buffer|));
      buffer := buffer + "#";
      buffer := AppendEncoded(FRAGMENT, input, buffer);
      Assoc(old(buffer)[..components.hashStart], "#", hash);
      shape := SetHash(shape, Some(hash));
    }

    method ClearHash()
      requires Valid()
      modifies this`buffer, this`components, this`shape
      ensures Valid() && shape == SetHash(old(shape), None)
    {
      hide Sound, Fits, Text, OffsetsOf, ComponentsOf;
      ClearSearchFits(shape);
      HashEffect(shape, None);
      if components.hashStart == OMITTED {
        return;
      }
      buffer := buffer[..components.hashStart];
      components := components.(hashStart := OMITTED);
      shape := SetHash(shape, None);
    }

    /** Takes the two bytes out between the end of the host and the start of the path. */
    method DeleteDashDot()
      requires Valid() && MarkerSeen(shape)
      modifies this`buffer, this`components, this`shape
      ensures Valid() && shape == old(shape).(marker := false)
    {
      hide Add32, Sub32, Erase, Sound, Fits, Text, OffsetsOf, ComponentsOf;
      MarkerRemoved(shape);
      buffer := Erase(buffer, components.hostEnd, 2);
      components := components.(pathnameStart := Sub32(components.pathnameStart, 2));
      components := ShiftSearchAndHashBack(components, 2);
      shape := shape.(marker := false);
    }

    /** The length of the path, and, where the offsets are not those of the buffer, what is between them. */
    method GetPathnameLength() returns (length: uint32)
      ensures Valid() ==> length == |shape.url.path|
      ensures length == Sub32(Trunc32(QueryStart(buffer, components)), components.pathnameStart)
    {
      hide Sub32, Trunc32, Sound, Fits, Text, OffsetsOf, ComponentsOf;
      if Valid() {
        PathLength(shape);
      }
      var endingIndex := Trunc32(|buffer|);
      if components.searchStart != OMITTED {
        endingIndex := components.searchStart;
        WrapsNothing(components.searchStart);
      } else if components.hashStart != OMITTED {
        endingIndex := components.hashStart;
        WrapsNothing(components.hashStart);
      }
      length := Sub32(endingIndex, components.pathnameStart);
    }

    method AppendBasePathname(input: string)
      requires Valid()
      requires Sound(AppendPathname(shape, input)) && Fits(AppendPathname(shape, input))
      modifies this`buffer, this`components, this`shape
      ensures Valid() && shape == AppendPathname(old(shape), input)
    {
      hide Add32, Trunc32, Insert, Splice, Sound, Fits, Text, OffsetsOf, ComponentsOf;
      AppendPathnameEffect(shape, input);
      WrapsNothing(|buffer|);

      var endingIndex := Trunc32(|buffer|);
      if components.searchStart != OMITTED {
        endingIndex := components.searchStart;
      } else if components.hashStart != OMITTED {
        endingIndex := components.hashStart;
      }
      buffer := Insert(buffer, endingIndex, input);
      components := ShiftSearchAndHash(components, Trunc32(|input|));
      shape := AppendPathname(shape, input);
    }

    method ClearPathname()
      requires Valid()
      modifies this`buffer, this`components, this`shape
      ensures Valid() && shape == UrlEdits.ClearPathname(old(shape))
    {
      hide Add32, Sub32, Trunc32, Erase, LooksLikeDashDot, Sound, Fits, Text, OffsetsOf, ComponentsOf;
      ghost var s := shape;
      ghost var m := s.(url := s.url.(path := ""));
      ClearPathnameEffect(s);
      DashDotRead(m);
      WrapsNothing(|buffer|);
      NoWrap(QueryStart(buffer, components), components.pathnameStart);

      var endingIndex := Trunc32(|buffer|);
      if components.searchStart != OMITTED {
        endingIndex := components.searchStart;
      } else if components.hashStart != OMITTED {
        endingIndex := components.hashStart;
      }
      var pathnameLength := Sub32(endingIndex, components.pathnameStart);
      buffer := Erase(buffer, components.pathnameStart, pathnameLength);
      var difference := pathnameLength;
      ClearPathnameCondition(s, buffer);
      if LooksLikeDashDot(buffer, components) {
        components := components.(pathnameStart := Sub32(components.pathnameStart, 2));
        buffer := Erase(buffer, components.hostEnd, 2);
        difference := Add32(difference, 2);
      }
      components := ShiftSearchAndHashBack(components, difference);
      shape := UrlEdits.ClearPathname(s);
    }

    /** The buffer holds the record with the new path exactly when no marker had to be put before a
        path that has a query or a fragment behind it. */
    method UpdateBasePathname(input: string)
      requires Valid()
      requires Sound(SetPathname(shape, input)) && Fits(SetPathname(shape, input)) && MarkerFits(shape, input)
      modifies this`buffer, this`components, this`shape
      ensures shape == SetPathname(old(shape), input)
      ensures Valid() <==> !PutsMarkerBeforeSuffix(old(shape), input)
      ensures PutsMarkerBeforeSuffix(old(shape), input) ==>
        && buffer != Text(shape) && buffer == Text(Garbled(old(shape), input))
        && components.pathnameStart == old(components.pathnameStart) + 2
        && components.hostEnd == old(components.hostEnd) && components.protocolEnd == old(components.protocolEnd)
        && components.usernameEnd == old(components.usernameEnd) && components.hostStart == old(components.hostStart)
    {
      hide Add32, Sub32, Trunc32, HasAuthority, LooksLikeDashDot, Insert, Splice;
      hide Sound, Fits, Text, OffsetsOf, ComponentsOf, Garbled;
      ghost var t := SetPathname(shape, input);
      PortNeedsHost(shape);
      DashDotRead(shape);
      AuthorityRead(shape);

      var beginsWithDashdash := StartsWith(input, "//");
      if !beginsWithDashdash && HasDashDot(buffer, components, hasOpaquePath) {
        DeleteDashDot();
        DashDotRead(shape);
        AuthorityRead(shape);
      }

      ghost var s := shape;
      ghost var stale := PutsMarkerBeforeSuffix(s, input);
      if beginsWithDashdash && !hasOpaquePath && !HasAuthority(buffer, components)
         && !HasDashDot(buffer, components, hasOpaquePath) {
        MarkerInserted(s);
        buffer := Insert(buffer, components.pathnameStart, "/.");
        components := components.(pathnameStart := Add32(components.pathnameStart, 2));
        shape := s.(marker := true);
      }
      if stale {
        StaleSuffix(s, input);
        GarbledText(s, input);
        WrapsNothing(QueryStart(buffer, components));
      } else {
        assert t == shape.(url := shape.url.(path := input));
        assert components == ComponentsOf(shape);
        SetPathnameOffsets(shape, input);
      }

      var length := GetPathnameLength();
      var difference := ReplaceAndResize(components.pathnameStart, Add32(components.pathnameStart, length), input);
      components := ShiftSearchAndHash(components, difference);
      shape := t;
    }

    method SetProtocolAsFile()
      requires Valid()
      requires Fits(SetProtocol(shape, "file:"))
      modifies this`buffer, this`components, this`shape, this`schemeType
      ensures Valid() && shape == SetProtocol(old(shape), "file:") && schemeType == FILE
    {
      hide Add32, Sub32, Trunc32, Erase, Insert, Splice, Sound, Fits, Text, OffsetsOf, ComponentsOf;
      ProtocolIsFile(shape);
      ProtocolEffect(shape, "file:");
      Difference(5, components.protocolEnd);

      schemeType := FILE;
      var newDifference := Sub32(5, components.protocolEnd);
      EraseThenInsert(buffer, 0, components.protocolEnd, "file:");
      SpliceOfNothing("file:");
      if buffer == "" {
        buffer := buffer + "file:";
      } else {
        buffer := Erase(buffer, 0, components.protocolEnd);
        buffer := Insert(buffer, 0, "file:");
      }
      components := components.(protocolEnd := 5);
      components := components.(
        usernameEnd := Add32(components.usernameEnd, newDifference),
        hostStart := Add32(components.hostStart, newDifference),
        hostEnd := Add32(components.hostEnd, newDifference),
        pathnameStart := Add32(components.pathnameStart, newDifference));
      components := ShiftSearchAndHash(components, newDifference);
      shape := SetProtocol(shape, "file:");
    }

    /** Reads a port from the start of `view`. A sign or a number beyond 16 bits, and content behind the
        digits that may not follow a port, make the URL invalid and leave the port as it is. */
    method ParsePort(view: string, checkTrailingContent: bool) returns (consumed: nat)
      requires Valid() && shape.url.host.Some?
      requires forall port: nat | port <= 0xFFFF :: Fits(SetPort(shape, Some(port)))
      modifies this`buffer, this`components, this`shape, this`isValid
      ensures Valid()
      ensures var r := FromChars(view);
        if r.OutOfRange? || StartsWith(view, "-") then consumed == 0 && !isValid
        else
          && consumed == DigitRun(view)
          && isValid == (old(isValid) && (checkTrailingContent ==> TrailingContentIsValid(schemeType, view, consumed)))
      ensures isValid ==> shape == SetPort(old(shape), StoredPort(schemeType, FromChars(view)))
      ensures !isValid ==> shape == old(shape) && buffer == old(buffer)
    {
      hide Fits, Text, OffsetsOf, ComponentsOf, DigitsValue;
      if view != "" && view[0] == '-' {
        isValid := false;
        return 0;
      }
      var r := FromChars(view);
      if r.OutOfRange? {
        isValid := false;
        return 0;
      }
      var parsedPort := if r.Parsed? then r.value else 0;
      consumed := if r.Parsed? then r.consumed else 0;
      if checkTrailingContent {
        isValid := isValid && TrailingContentIsValid(schemeType, view, consumed);
      }
      if isValid {
        var defaultPort := SpecialPort(schemeType);
        var isPortValid := (defaultPort == 0 && parsedPort == 0) || defaultPort != parsedPort;
        if r.Parsed? && isPortValid {
          UpdateBasePort(parsedPort);
        } else {
          ClearPort();
        }
      }
    }

    /** An empty host of a URL that is neither special nor a file URL keeps a missing host missing,
        unless a marker shows that a host was there to lose. */
    method UpdateHostToBaseHost(input: string)
      requires Valid() && !hasOpaquePath && !StartsWith(input, "@")
      requires Fits(HostToBaseHost(shape, input, schemeType))
      requires Fits(AddSlashes(shape))
      modifies this`buffer, this`components, this`shape
      ensures Valid() && shape == HostToBaseHost(old(shape), input, schemeType)
    {
      hide Fits, Text, OffsetsOf, ComponentsOf, HasAuthority, LooksLikeDashDot;
      AuthorityRead(shape);
      DashDotRead(shape);
      if schemeType != FILE {
        if input == "" && schemeType == NOT_SPECIAL {
          if HasAuthority(buffer, components) {
            ClearHostname();
          } else if HasDashDot(buffer, components, hasOpaquePath) {
            AddAuthoritySlashesIfNeeded();
            DeleteDashDot();
          }
          return;
        }
      }
      UpdateBaseHostname(input);
    }
  }
}
