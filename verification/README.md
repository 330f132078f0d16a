# Verification of the URL core and of the reactive network code

This project models the parts of the repository whose correctness is hardest to see, in Dafny 4.11, and proves what they promise.
`dafny verify dfyconfig.toml` checks all of it.

- **The flat URL.** `ada::url_aggregator` keeps a URL as one string and eight 32-bit offsets, and edits it in place with wrapping deltas.
  Its specification is the plain record `ada::url` with its serializer. `UrlRecord` is the record, `UrlLayout` says how a record lies in the
  buffer, `UrlEdits` what an edit does to the layout, `UrlAggregator` holds the methods of the class, `UrlValidate` the shipped checker, and
  `UrlSession` runs of edits. `UrlSetters`, `UrlHosts` and `UrlSchemes` are the public setters above them, `UrlApi` runs of calls of these,
  and `UrlInvariant` what these keep. `CppString` and `Pieces` are the string operations and offsets below it; `UrlReading`, `UrlInjective`,
  `DigitCount` and `PortParsing` relate the two forms and their numbers.
- **Search parameters and percent-encoding.** `PercentEncode`, `SearchParams`, `SearchParamsSort`, `Unicode`: a parser and a printer that
  undo each other, the bit tables against the sets of the WHATWG URL Standard, and the hand-written UTF-8 to UTF-16 comparator.
- **URL patterns.** Both parsers over a list of tokens. `PatternPieces` says which text and groups the tokens spell, `PatternPrinting`
  spells them and reads them back, and `PatternParser` turns them into parts. `ConstructorSteps` has the rounds of the other parser on
  values, `ConstructorRuns` what holds of every run of them, `ConstructorCuts` where a pattern is cut, `ConstructorDefaults` what its
  components are, and `ConstructorString` the loop over its fields, with the matching of special schemes as an oracle. `PatternTokens` are
  the tokens.
- **Handlers of MQTT operations.** `MqttTable`: the completion table as a state machine over the steps of callers and the broker's thread,
  and the methods of the client, each of which takes one step of it.
- **Availability.** `Availability` and `Publisher`: the observer network with its depth-first cascade, and the publisher of a state.
- **Configuration.** `Config`: the order in which files are read, and which value wins.

Strings are Dafny strings; where bytes matter, members require characters below 256. Offsets are 32-bit numbers with explicit wrap-around.

## What the code does differently from what it is meant to do

- `set_pathname` with a path that needs a `/.` marker, in front of a query or fragment, loses both: `//r` set on `web:/p?q#h` leaves
  `web:/.//r`. The cause is `update_base_pathname`, which inserts the marker and moves only `pathname_start` (ada.h:7584-7591), so that the
  end of the old path is two bytes early. Its buffer is wrong exactly then.
- `set_host` with a host and a port, on a URL without a host whose path has a marker, takes the early return before the marker is removed
  (ada.cpp:14471-14477): `h:80` set on `web:/.//p` leaves `web://h:80/.//p`, and `get_port` then answers `80/.`.
- When the host parser refuses, `set_host` and `set_hostname` write the old host back; a missing one comes back empty, so `web:/p` becomes
  `web:///p` although the answer is false. A marker stays behind it. The URL also counts as invalid from then on, so the next `set_port`
  with a number is refused, once.
- `set_protocol` compares the port with 0 where the new scheme has no default port (ada.cpp:13996-14005), so port 0 is dropped:
  `foo` set on `web://h:0/`, or once more on `foo://h:0/`, leaves `foo://h/`.
- `append_base_username`, a private member, compares the *new* `host_start` with the *old* `host_end` (ada.h:7697-7698). A first user name
  whose length equals the host's is therefore not followed by `@`. The parser calls it while the host is still empty (ada.cpp:13202-13234),
  and then the `@` is placed.
- The private members `update_base_username`, `update_base_password`, `append_base_*` and `update_base_hostname` make an authority without
  removing a marker, and `append_base_pathname` neither adds nor removes it. The public setters of user name and password return before that.
- The branch of `constructor_string_parser::parse` for an opening brace goes on with the next token in the same round. After an odd number
  of opening braces directly before the end, the end token is passed over and the loop ends without the last component being recorded
  (ada.h:10306-10326): `https://{` loses its host.
- `AvailabilityPublisher::publish` reads the stored state and then hands the message over (AvailabilityPublisher.cpp:44-52), on two threads.
  A message that is overtaken by an update leaves an outdated payload; it does so exactly when the updates stored since it was read do not
  cancel out.
- A second `connect` before the first is acknowledged shares its identifier; `std::map::insert` keeps the first handler and the second is
  destroyed without a call (with assertions on, the program stops instead). An acknowledgement that overtakes its push is missed.
- An `AvailabilityObserver` that removes a subject stays connected to it, with a dangling entry. The model lets a removed subject not
  change any more.
- Configuration files that are no layer come after all layers, so their values win.

For the URL setters and edits, the constructor string parser, the handler table and the publisher, the exact condition under which the
code meets its purpose is proved for all inputs or runs, next to an input on which it does not.

## Model

| member | source | states |
|---|---|---|
| `UrlSession.Replay` | tools/ada-url/include/ada.h:7391-8012 | For every run of edits of user name, password, host, port, path, query and fragment that are allowed, faithful and within 32 bits: the buffer is the serialization of the record in which each edit changed just the field it addresses, and the shipped checker accepts it. |
| `UrlSession.Perform` | tools/ada-url/include/ada.h:7391-8012 | One edit of a serialized URL leaves the serialization of the intended record if and only if a condition on the record before it holds (`Faithful`); the condition is checkable before the call. Then the representation invariant and the checker hold afterwards. |
| `UrlSession.ApplyKeepsCanonical` | tools/ada-url/include/ada.h:7572-7718 | The edits keep the `@` and `/.` delimiters where the serializer prints them exactly when they are faithful: no marker in front of an edited authority, no first user name of the host's length, no marker newly needed in front of a query or fragment, no change of the marker by appending to a path. |
| `UrlSession.CredentialDelimiters` | tools/ada-url/include/ada.h:7638-7792 | After any faithful run, a URL with a non-empty host has `@` at `host_start` exactly when it has credentials, and `:` at `username_end` exactly when it has a password. |
| `UrlSession.UserNameRunsIntoHost` | tools/ada-url/include/ada.h:7697-7701 | A user name appended by the private member to a URL without credentials, as long as the host, gets no `@`: the new host start is compared with the old host end. |
| `UrlSession.MarkerStaysBehind` | tools/ada-url/include/ada.h:7435-7461 | Setting a host on a URL with a `/.` marker leaves the marker behind the host, unlike the serializer. |
| `UrlSession.MarkerBeforeQuery` | tools/ada-url/include/ada.h:7584-7601 | A path that needs a marker, set in front of a query: the case in which only `pathname_start` is moved. |
| `UrlApi.Replay` | tools/ada-url/src/ada.cpp:14107-14560 | For every run of public setters (protocol, user name, password, host, host name, port, path, query, fragment) whose calls are faithful and within 32 bits: the object holds the serialization of the record in which each call changed what it addresses, the type of the scheme and the validity flag included, and the checker accepts it. |
| `UrlApi.Perform` | tools/ada-url/src/ada.cpp:14107-14560 | One public setter leaves the serialization of its record if and only if a condition that is checkable before the call holds: only `set_pathname` and `set_host` or `set_hostname` can fail it. |
| `UrlInvariant.RunsKeepRight` | tools/ada-url/src/ada.cpp:14107-14560 | What the WHATWG URL Standard asks of a URL record holds after every run of public setters: credentials and a port only behind a host and in no file URL, a special URL has a path and a host that only a file URL may leave empty, no default port is stored, the type is that of the scheme, and no part contains a delimiter of it. |
| `UrlInvariant.SameTextSameRecord` | tools/ada-url/src/ada.cpp:14107-14560 | So two objects reached by calls of the setters whose texts are equal hold the same record, unless a path looks like one behind a marker. |
| `UrlInvariant.CallKeepsRight` | tools/ada-url/src/ada.cpp:14107-14560 | One call keeps these constraints. |
| `UrlInvariant.SchemeSetWhereRight` | tools/ada-url/src/ada.cpp:13915-14008 | `set_protocol` sets the scheme exactly where the URL with it meets the constraints and both schemes are special or neither is; otherwise the URL stays. |
| `UrlInvariant.CredentialsSetWhereRight` | tools/ada-url/src/ada.cpp:14134-14172 | User name and password can be set exactly where a URL that has them meets the constraints. |
| `UrlInvariant.PortSetWhereRight` | tools/ada-url/src/ada.cpp:14174-14215 | A port can be set exactly where a URL that has one meets the constraints. |
| `UrlInvariant.EmptyHostSetWhereRight` | tools/ada-url/src/ada.cpp:14486-14512 | No host is accepted exactly where a URL with an empty one meets the constraints. |
| `UrlSetters.SetUsername` | tools/ada-url/src/ada.cpp:14134-14152 | The user name is stored encoded exactly when the URL can have credentials, and otherwise nothing changes. |
| `UrlSetters.SetPassword` | tools/ada-url/src/ada.cpp:14154-14172 | The same for the password. |
| `UrlSetters.SetThePort` | tools/ada-url/src/ada.cpp:14174-14215 | Which text is accepted as a port, the port stored for it, and that a refused port leaves the URL as it was. While the URL counts as invalid every number is refused, once. |
| `UrlSetters.NumberIsSet` | tools/ada-url/src/ada.cpp:14174-14215 | A printed number, whatever follows it, is accepted exactly when it is at most 65535 and the URL counts as valid; then it is the port, unless it is 80 for `http` and `ws`, 443 for `https` and `wss`, or 21 for `ftp`. Otherwise the port stays. |
| `UrlSetters.NoNumberIsSet` | tools/ada-url/src/ada.cpp:14174-14215 | A file URL, one without a host, or with an empty one and no credentials, refuses every port; text that begins with no digit is refused; and no text removes the port. |
| `UrlSetters.SetThePathname` | tools/ada-url/src/ada.cpp:14217-14232 | The record gets the path, with its marker, except that a path that needs a marker in front of a query or fragment takes these away; then the buffer is the serialization without them and not the right one. |
| `UrlSetters.MarkerTakesSuffixAway` | tools/ada-url/src/ada.cpp:14217-14232 | `//r` set on `web:/p?q#h`: the setter takes the failing way, and leaves `web:/.//r` instead of `web:/.//r?q#h`. |
| `UrlSetters.SetTheSearch` | tools/ada-url/src/ada.cpp:14275-14295 | The query is stored encoded with the table for the type of the scheme, or removed together with the spaces at the end of an opaque path. |
| `UrlSetters.SetTheHash` | tools/ada-url/src/ada.cpp:14297-14315 | The fragment is stored encoded, or removed together with the spaces at the end of an opaque path. |
| `UrlSetters.SetWithOrWithoutMark` | tools/ada-url/src/ada.cpp:14275-14315 | A question mark in front of a query, and a number sign in front of a fragment, are dropped once. |
| `UrlSetters.ApostropheInSpecialQueries` | tools/ada-url/src/ada.cpp:14286-14290 | The tables for queries differ in the apostrophe alone, which is encoded in special URLs. |
| `UrlSetters.TabsAndNewlinesGo` | tools/ada-url/src/ada.cpp:11265-11270 | Tabs, line feeds and carriage returns go wherever they stand, and all else stays. |
| `UrlSetters.TrailingSpacesGo` | tools/ada-url/src/ada.cpp:11945-11957 | Spaces at the end go, and all else stays. |
| `UrlSetters.StripTrailingSpacesFromOpaquePath` | tools/ada-url/src/ada.cpp:11945-11957 | Only an opaque path without a query and a fragment loses its trailing spaces. |
| `UrlSetters.CannotHaveCredentialsOrPort` | tools/ada-url/include/ada.h:8029-8033 | The comparison of offsets answers whether the host is missing or empty and there are no credentials. |
| `UrlSetters.EncodedUserinfo` | tools/ada-url/src/ada.cpp:14141-14149 | The text that is copied or encoded only from the first byte that needs it is the encoded input. |
| `UrlHosts.SetHostOrHostname` | tools/ada-url/src/ada.cpp:14420-14545 | For every input and every result of parsing the host. Only host and port can change; `set_hostname` keeps the port, and refuses a colon behind the host with the URL unchanged. Exactly what each of the two accepts; the host that is stored, `localhost` in a file URL and no host at all included; that no port, an empty one or a refusal keeps the port; the validity flag; and that the buffer is the serialization if and only if no marker stays behind. |
| `UrlHosts.GetHostDelimiterLocation` | tools/ada-url/src/ada.cpp:11681-11759 | Jumping from delimiter to delimiter, and over brackets, finds the end of the host that reading it byte by byte does. |
| `UrlHosts.HostIsCut` | tools/ada-url/src/ada.cpp:14420-14460 | On literal text: the host ends at the first colon, slash or question mark outside of brackets, and in a special URL also at a backslash; the port is what is behind the colon. |
| `UrlHosts.FileHostIsCut` | tools/ada-url/src/ada.cpp:14517-14521 | The host of a file URL ends at the first slash, backslash or question mark, and has no port. |
| `UrlHosts.SplitIgnores` | tools/ada-url/src/ada.cpp:14431-14436 | A `#` and all behind it, and every tab and newline, make no difference. |
| `UrlHosts.WhatRefusalChanges` | tools/ada-url/src/ada.cpp:14463-14469 | A setter that answers false has left the URL as it was, except that one without a host got an empty host when parsing failed. |
| `UrlHosts.RefusedHostBecomesEmpty` | tools/ada-url/src/ada.cpp:14508-14512 | A refused host set on `web:/p`: the answer is false, the URL is `web:///p`, and it counts as invalid. |
| `UrlHosts.PortBeforeMarker` | tools/ada-url/src/ada.cpp:14471-14477 | `set_host` with a host and a port, on a URL without a host whose path needs a marker: the marker stays behind the port. |
| `UrlHosts.PortBytes` | tools/ada-url/src/ada.cpp:14608-14615 | The bytes that `get_port` returns, with the colon before them, are the port and a marker behind it. |
| `UrlHosts.GetHostname` | tools/ada-url/src/ada.cpp:14651-14664 | The bytes between the offsets, without an `@`, are the host. |
| `UrlSchemes.SetTheProtocol` | tools/ada-url/src/ada.cpp:14107-14132 | For every input the buffer is the serialization of the record with the new scheme, or of the old record where the scheme has to stay; the answer and the new type are stated. |
| `UrlSchemes.SchemeIsNamed` | tools/ada-url/src/ada.cpp:14107-14132 | A letter and more letters, digits, `+`, `-` and `.`, up to a colon or the end, are a scheme; any other character behind them refuses it. |
| `UrlSchemes.CapitalsBecomeSmall` | tools/ada-url/src/ada.cpp:10466-10490 | Each capital becomes the small letter in its place of the alphabet, and all else stays. |
| `UrlSchemes.SpecialInEitherCase` | tools/ada-url/src/ada.cpp:13960-13975 | A special scheme is known in letters of either case. |
| `UrlSchemes.DefaultPortsByName` | tools/ada-url/include/ada.h:6069-6075 | The default ports of `http` and `ws`, `https` and `wss`, and `ftp`, and that no other scheme has one. |
| `UrlSchemes.SetScheme` | tools/ada-url/src/ada.cpp:14041-14105 | The protocol is replaced and every offset moves by the wrapped difference. |
| `UrlSchemes.OnlyTheDefaultPortIsDropped` | tools/ada-url/src/ada.cpp:13996-14005 | Whenever a scheme is set, be it the same one, its own default port is dropped and no other, except port 0 where it has no default port. |
| `UrlSchemes.PortZeroIsDropped` | tools/ada-url/src/ada.cpp:13996-14005 | `foo` set on `web://h:0/`, and on `foo://h:0/`, leaves `foo://h/`. |
| `UrlSchemes.SchemeTypeIsByName` | tools/ada-url/include/ada.h:6101-6135 | The one comparison that the hash of a scheme leads to finds every special scheme and nothing else. |
| `UrlSchemes.TypeAgrees` | tools/ada-url/src/ada.cpp:13915-14008 | The type of the scheme goes on agreeing with its name. |
| `UrlLayout.CanonicalIsHref` | tools/ada-url/include/ada.h:6774-6804 | The buffer of a canonical shape is what the plain form serializes. |
| `UrlLayout.OnlyCanonicalIsHref` | tools/ada-url/include/ada.h:6774-6804 | A buffer equals the serialization of its record only if both delimiters are the serializer's. |
| `UrlReading.ReadBackIsTheRecord` | tools/ada-url/include/ada.h:4577-4605 | Abstraction function: every field of the record is read back from buffer and offsets alone, so an edit cannot disturb a field unnoticed. |
| `UrlLayout.AuthorityRead` | tools/ada-url/include/ada.h:8040-8048 | The probe for `//` answers whether the record has a host. |
| `UrlLayout.CredentialsRead` | tools/ada-url/include/ada.h:8080-8096 | The offset comparisons answer whether user name and password are non-empty. |
| `UrlLayout.AtRead` | tools/ada-url/include/ada.h:7656-7660 | The byte at `host_start` tells whether `@` was placed. |
| `UrlLayout.DashDotRead` | tools/ada-url/include/ada.h:8121-8157 | The probe for `/.` answers whether the marker is there. |
| `UrlAggregator.Aggregator.ReplaceAndResize` | tools/ada-url/include/ada.h:7414-7433 | All four branches are one splice; the wrapped result is the exact change of length modulo 2^32. When `end` has wrapped below `start`, everything behind `start` is lost. |
| `CppString.ShiftExact` | tools/ada-url/include/ada.h:7445-7459 | The wrapped 32-bit delta added to a later offset gives the exact new offset whenever that fits, for growth and shrinkage alike. |
| `UrlAggregator.Aggregator.AddAuthoritySlashesIfNeeded` | tools/ada-url/include/ada.h:8050-8074 | Inserts `//` and an empty host exactly when the record has none; every later offset moves. |
| `UrlAggregator.Aggregator.UpdateBaseUsername` | tools/ada-url/include/ada.h:7638-7674 | The buffer spells the record with the new user name, with `@` inserted and removed as needed; all other fields stay. |
| `UrlAggregator.Aggregator.AppendBaseUsername` | tools/ada-url/include/ada.h:7676-7718 | The user name grows; exactly when the `@` is placed, following the comparison in the code. |
| `UrlAggregator.Aggregator.ClearPassword` | tools/ada-url/include/ada.h:7720-7738 | Password and colon go, the `@` and all else stay. |
| `UrlAggregator.Aggregator.UpdateBasePassword` | tools/ada-url/include/ada.h:7740-7792 | The buffer spells the record with the new password, including the call back into the user name update that removes a lonely `@`. |
| `UrlAggregator.Aggregator.AppendBasePassword` | tools/ada-url/include/ada.h:7794-7844 | The password grows, with colon and `@` placed when they were missing. |
| `UrlAggregator.Aggregator.UpdateBaseHostname` | tools/ada-url/include/ada.h:7435-7461 | The host changes, a missing authority is made, and `@` stands before the host exactly when there are credentials. |
| `UrlAggregator.Aggregator.UpdateHostToBaseHost` | tools/ada-url/include/ada.h:8418-8438 | An empty host of a URL that is not special keeps a missing host missing. |
| `UrlAggregator.Aggregator.ClearHostname` | tools/ada-url/include/ada.h:7977-8012 | The host becomes empty; credentials, port and all else stay. |
| `UrlAggregator.Aggregator.UpdateBasePort` | tools/ada-url/include/ada.h:7846-7874 | The port text is written, replaced, or cleared, and all later offsets agree with it. A marker is overwritten along with an old port, but stays behind a port written where there was none. |
| `UrlAggregator.Aggregator.ClearPort` | tools/ada-url/include/ada.h:7876-7893 | The port and its colon go. |
| `UrlAggregator.Aggregator.ParsePort` | tools/ada-url/include/ada.h:8159-8196 | The number of bytes consumed, the validity flag, and the port stored, dropped as the scheme's default, or left alone, for every input, also behind a leftover marker. |
| `UrlAggregator.Aggregator.UpdateBaseSearch` | tools/ada-url/include/ada.h:7480-7517 | The query is written or removed, with its question mark, in front of the fragment. |
| `UrlAggregator.Aggregator.UpdateBaseSearchEncoded` | tools/ada-url/include/ada.h:7519-7570 | The split path (raw prefix, encoded remainder, moved fragment) leaves the record with the whole query encoded at once. |
| `UrlAggregator.Aggregator.ClearSearch` | tools/ada-url/include/ada.h:7900-7923 | The query and its question mark go; the fragment moves up. |
| `UrlAggregator.Aggregator.UpdateUnencodedBaseHash` | tools/ada-url/include/ada.h:7391-7412 | The fragment becomes the encoded input. |
| `UrlAggregator.Aggregator.ClearHash` | tools/ada-url/include/ada.h:7925-7940 | The fragment and its number sign go. |
| `UrlAggregator.Aggregator.DeleteDashDot` | tools/ada-url/src/ada.cpp:15304-15318 | The two bytes of a marker behind a port-less host go and later offsets move back. |
| `UrlAggregator.Aggregator.GetPathnameLength` | tools/ada-url/include/ada.h:7463-7478 | In every valid state the result is the length of the record's path, whatever follows it; with stale offsets it is the wrapped difference between them. |
| `UrlAggregator.Aggregator.UpdateBasePathname` | tools/ada-url/include/ada.h:7572-7603 | The representation invariant holds afterwards if and only if no marker had to be put in front of a query or fragment; in that failing case the buffer is never the right one, and the exact wrong text is stated. |
| `UrlAggregator.Aggregator.AppendBasePathname` | tools/ada-url/include/ada.h:7605-7636 | The path grows in place; the marker is left as it is. |
| `UrlAggregator.Aggregator.ClearPathname` | tools/ada-url/include/ada.h:7942-7975 | The path goes, together with a marker that no port hides. |
| `UrlAggregator.Aggregator.SetProtocolAsFile` | tools/ada-url/include/ada.h:8198-8226 | The protocol becomes `file:` and every offset moves by the wrapped difference. |
| `UrlEdits.StaleSuffix` | tools/ada-url/include/ada.h:7584-7601 | Why the failing path update never gives the right buffer: the old end of the path is two bytes early, or wraps. |
| `UrlEdits.GarbledText` | tools/ada-url/include/ada.h:7584-7601 | What the failing path update leaves: the marker and the new path, followed by the last two bytes of the old path and the query and fragment, or by nothing when the old path was shorter than two bytes. |
| `UrlEdits.ClearPathnameCondition` | tools/ada-url/include/ada.h:7953-7961 | The condition that decides whether the marker goes, in terms of the record. |
| `UrlValidate.CheckedValidates` | tools/ada-url/include/ada.h:8228-8396 | Everything the invariant allows with the expected `@` and no stray marker passes `validate()`, so its assertions hold in every reachable state. |
| `UrlValidate.ValidatedIsChecked` | tools/ada-url/include/ada.h:8228-8396 | Conversely `validate()` accepts only buffers whose credentials are followed by `@` and that have no stray marker, when the host is not empty and does not begin with a colon. |
| `UrlValidate.DelimitersAreSeen` | tools/ada-url/include/ada.h:8228-8396 | No other byte in the place of a delimiter passes: the colon of the protocol and of a port, the `@`, the slash of a path, the question mark and the number sign. |
| `UrlValidate.ConsistentOffsets` | tools/ada-url/include/ada.h:6856-6923 | The offsets of the invariant are ordered, inside the buffer, and pass the offset check. |
| `UrlReading.GetComponents` | tools/ada-url/include/ada.h:6636-6707 | The plain form computes the protocol, path, query and fragment offsets and the port that its serialization has. |
| `UrlReading.AuthorityComponents` | tools/ada-url/include/ada.h:6640-6690 | The running index behind the authority is exactly the length of the text printed so far. |
| `UrlReading.SearchRead` | tools/ada-url/src/ada.cpp:12651-12656 | The getter for the query gives the text that is printed, except that a question mark alone reads as nothing. |
| `UrlReading.OffsetsCutHref` | tools/ada-url/include/ada.h:6774-6804 | Those offsets cut the serialization into prefix, path, `?` query and `#` fragment. |
| `UrlReading.PlainAndFlatOffsetsAgree` | tools/ada-url/include/ada.h:6636-6707 | The flat form stores the same offsets as the plain form computes. |
| `UrlInjective.HrefInjective` | tools/ada-url/include/ada.h:6774-6804 | Equal serializations of records whose fields avoid their delimiters come from equal records; a missing query or fragment differs from an empty one. |
| `UrlInjective.MarkerCollision` | tools/ada-url/include/ada.h:6791-6796 | Every otherwise clean host-less record whose path starts with `/.//` shares its serialization with the record whose path drops the first two characters. |
| `UrlInjective.CollidesIffMarked` | tools/ada-url/include/ada.h:6774-6804 | So the condition is exact: a record whose parts avoid their delimiters shares its serialization with a clean record of another path exactly when it is host-less, not opaque, and its path starts with `/.//`. |
| `DigitCount.FastDigitCountIsLength` | tools/ada-url/include/ada.h:1567-1584 | The table lookup is the number of decimal digits, for every 32-bit number. |
| `DigitCount.Log2IsAt` | tools/ada-url/include/ada.h:1568-1570 | The index into the table is the binary logarithm. |
| `PortParsing.FromCharsReadsDecimal` | tools/ada-url/include/ada.h:8170-8185 | Reading the digits of a printed number gives that number back if it fits 16 bits, and is out of range otherwise. |
| `PortParsing.WhatFollowsAPort` | tools/ada-url/include/ada.h:8176-8181 | Behind the digits may come nothing, a slash, a question mark, and in special URLs a backslash. |
| `PortParsing.LeadingZero` | tools/ada-url/include/ada.h:8170-8185 | A zero in front changes nothing but the number of bytes consumed. |
| `PortParsing.DecimalValue` | tools/ada-url/include/ada.h:8170-8185 | The value of a printed number's digits is the number. |
| `PercentEncode.QueryTableMeetsTheStandard` | tools/ada-url/include/ada.h:662-727 | The bit table is the query percent-encode set of section 1.3 of the WHATWG URL Standard. |
| `PercentEncode.FragmentTableMeetsTheStandard` | tools/ada-url/include/ada.h:728-793 | The bit table is the fragment percent-encode set. |
| `PercentEncode.PathTableMeetsTheStandard` | tools/ada-url/include/ada.h:860-924 | The bit table is the path percent-encode set. |
| `PercentEncode.UserinfoTableMeetsTheStandard` | tools/ada-url/include/ada.h:794-859 | The bit table is the userinfo percent-encode set. |
| `PercentEncode.FormTableMeetsTheStandard` | tools/ada-url/include/ada.h:926-990 | The bit table is the application/x-www-form-urlencoded set, with the space left to its own rule. |
| `PercentEncode.SpecialQueryTableMeetsTheStandard` | tools/ada-url/include/ada.h:596-661 | The bit table is the special-query percent-encode set. |
| `PercentEncode.EncodeIndex` | tools/ada-url/include/ada.h:7292-7320 | The unrolled scan returns the first byte that is in the set, or the length. |
| `PercentEncode.EncodeOnto` | tools/ada-url/src/ada.cpp:10893-10943 | Appends the encoded input exactly when some byte needs encoding, and says so. |
| `PercentEncode.AppendEncoded` | tools/ada-url/include/ada.h:7391-7412 | How the setters use it: the result is always the encoded input appended. |
| `PercentEncode.EncodeAfterPrefix` | tools/ada-url/include/ada.h:7519-7570 | Encoding a text is copying any clean prefix and encoding the rest. |
| `PercentEncode.EncodeIdempotent` | tools/ada-url/include/ada.h:6516-6536 | Encoding twice is encoding once, for tables that leave escapes alone. |
| `PercentEncode.UrlTablesLeaveEscapesAlone` | tools/ada-url/include/ada.h:662-924 | The query, fragment, path and userinfo tables do. |
| `PercentEncode.DecodeEncode` | tools/ada-url/include/ada.h:926-990 | Decoding undoes encoding with a table that encodes the percent sign. |
| `PercentEncode.EscapeIsRead` | tools/ada-url/src/ada.cpp:10825-10861 | Every byte is decoded from each spelling of its two digits, in lower or upper case. |
| `PercentEncode.OtherBytesAreKept` | tools/ada-url/src/ada.cpp:10825-10861 | A percent sign that two such digits do not follow is kept, like every other byte. |
| `PercentEncode.ByteIsWritten` | tools/ada-url/src/ada.cpp:10893-10943 | A byte in the set is written as `%` and its two upper-case digits, and any other one as it is. |
| `SearchParams.UrlSearchParams.Initialize` | tools/ada-url/include/ada.h:8667-8705 | The parsing loop appends what section 5.1 of the WHATWG URL Standard says, after one leading question mark. |
| `SearchParams.UrlSearchParams.Reset` | tools/ada-url/include/ada.h:8662-8665 | The list is replaced by the parsed input. |
| `SearchParams.UrlSearchParams.ToString` | tools/ada-url/include/ada.h:8753-8772 | The printing loop is the serializer of section 5.2, encoding included. |
| `SearchParams.UrlSearchParams.Sort` | tools/ada-url/include/ada.h:8801-8876 | The list is ordered by UTF-16 code units of the keys, is a permutation, and equal keys keep their order. |
| `SearchParams.RoundTrip` | tools/ada-url/include/ada.h:8667-8772 | Parsing what was printed gives the list back, for every list of byte strings: empty keys, `+`, `&`, `=`, `%` and a leading `?` included. |
| `SearchParams.EveryWritingIsRead` | tools/ada-url/include/ada.h:8667-8705 | Not only what is printed: however the bytes of keys and values are written, as themselves, as `+` for a space, or as an escape in either case, the query reads as the list that it spells. |
| `SearchParams.ParseSplit` | tools/ada-url/include/ada.h:8690-8704 | A query is read piece by piece between its ampersands. |
| `SearchParams.PieceIsRead` | tools/ada-url/include/ada.h:8671-8689 | A piece is a key up to its first equals sign and a value behind it, or a key with an empty value. |
| `SearchParams.QuestionMarkIsDropped` | tools/ada-url/include/ada.h:8667-8671 | One question mark in front is no part of the query. |
| `SearchParams.ReserializeIdempotent` | tools/ada-url/include/ada.h:8667-8772 | Printing what was parsed from any query is a fixed point. |
| `SearchParams.FieldRoundTrip` | tools/ada-url/include/ada.h:8672-8689 | Percent-encoding with `+` for space is undone by the parser's steps. |
| `SearchParams.PairRoundTrip` | tools/ada-url/include/ada.h:8753-8772 | One printed pair parses to itself and contains no separator. |
| `SearchParamsSort.Utf16Less` | tools/ada-url/include/ada.h:8801-8876 | The lazy comparator stays in bounds, ends, and answers whether the left key's UTF-16 code units are lexicographically smaller, for all valid UTF-8 keys. |
| `SearchParamsSort.NextUnit` | tools/ada-url/include/ada.h:8810-8860 | One decoding step gives the next code unit and leaves the rest, a pending low surrogate included. |
| `SearchParamsSort.KeyOrder` | tools/ada-url/include/ada.h:8801-8876 | The comparator is a strict total order: its only ties are equal keys. |
| `Unicode.FirstDifferenceDecides` | tools/ada-url/include/ada.h:8801-8876 | What that order is on characters: the first one that differs decides, characters outside of the first plane come before U+E000 to U+FFFF, and a shorter key comes first. |
| `SearchParamsSort.StableSortUnique` | tools/ada-url/include/ada.h:8801-8876 | Order and stability determine the sorted list, so the result does not depend on the sorting algorithm. |
| `SearchParamsSort.StableSort` | tools/ada-url/include/ada.h:8801-8876 | A stable sort with that comparator exists and meets the three conditions. |
| `Unicode.Utf8Decodes` | tools/ada-url/include/ada.h:8810-8860 | Length and bits of an encoded scalar value are recovered from its bytes (section 3 of RFC 3629). |
| `Unicode.Utf16Decodes` | tools/ada-url/include/ada.h:8840-8852 | A character outside of the first plane is two surrogates that hold its twenty bits (section 2.1 of RFC 2781). |
| `Unicode.Utf16Injective` | tools/ada-url/include/ada.h:8801-8876 | Different texts have different UTF-16 code units (section 2.1 of RFC 2781). |
| `PatternParser.ParsePatternString` | tools/ada-url/include/ada.h:10088-10211 | For every encoder: it succeeds exactly when the tokens follow the syntax, no two groups have one name, and the encoder takes all of the text; and then the whole list of parts is one part for each piece that the tokens spell, in order: fixed text with its modifier, and groups with name or number, expression, modifier, prefix and suffix. With an encoder that changes nothing, the parts say all the literal text of the tokens. |
| `PatternParser.PartsAreUnique` | tools/ada-url/include/ada.h:9971-10084 | Pieces determine their parts: kind, value, modifier, name, prefix and suffix. |
| `PatternPrinting.SpelledPiecesAreRead` | tools/ada-url/include/ada.h:10088-10211 | Round trip: tokens that spell a list of pieces, each with the modifier that `convert_modifier_to_string` prints, are read as this list. |
| `PatternPrinting.WrongSyntax` | tools/ada-url/include/ada.h:10105-10205 | A round fails exactly at a closing brace, a modifier or an invalid character where a piece should begin, and at an opening brace that is not closed behind text with at most one group in it. |
| `PatternPrinting.OtherCharIsText` | tools/ada-url/include/ada.h:10119-10150 | A character other than that of the options in front of a group is text of its own. |
| `PatternParser.PartOfGroup` | tools/ada-url/include/ada.h:10023-10084 | A group without an expression matches a segment, `*` and `.*` match everything, and any other expression is kept; its name is the one spelled, or its number. |
| `PatternPieces.MergedStays` | tools/ada-url/include/ada.h:9946-9969 | Pieces in which nothing can be put together stay as they are. |
| `PatternPieces.PlainTextIsJoined` | tools/ada-url/include/ada.h:9946-9969 | Neighbouring pieces of plain text are one piece. |
| `PatternPieces.PiecesSayTheText` | tools/ada-url/include/ada.h:10105-10205 | The pieces say all the literal text of the tokens, in its order. |
| `PatternPieces.MergedKeepsAll` | tools/ada-url/include/ada.h:9946-9969 | Putting text that is not interrupted into one piece changes neither the text nor the groups. |
| `PatternParser.Step` | tools/ada-url/include/ada.h:10105-10205 | One round takes the tokens of one group, of one piece of text, or the end, and adds the parts of just these pieces; it fails only at wrong syntax, or at pieces that can be no parts. |
| `PatternParser.GroupInBraces` | tools/ada-url/include/ada.h:10163-10198 | Braces become one piece: a group with the text before it as its prefix and the text behind it as its suffix, or else text with the modifier. |
| `PatternParser.GroupOutsideBraces` | tools/ada-url/include/ada.h:10119-10150 | A group takes the character before it as its prefix exactly when that is the one of the options; otherwise the character is text before the group. |
| `PatternParser.Parser.TryConsumeToken` | tools/ada-url/include/ada.h:9900-9914 | Takes the token exactly when it is of the kind; the end token only when asked for. |
| `PatternParser.Parser.ConsumeText` | tools/ada-url/include/ada.h:9916-9934 | Takes the maximal run of text tokens, and returns their text. |
| `PatternParser.Parser.MaybeAddPartFromThePendingFixedValue` | tools/ada-url/include/ada.h:9946-9969 | Pending text, unless there is none, becomes the next part; it fails only when the encoder refuses the text. |
| `PatternParser.Parser.AddPart` | tools/ada-url/include/ada.h:9971-10084 | One more piece has been read: text goes on or is a part of its own, and a group ends the text before it and gets its part. A failure means that a name is taken or that some text is refused. |
| `PatternParser.Parser.AddMatchingPart` | tools/ada-url/include/ada.h:10023-10084 | The part added is that of the group: its wildcard kinds stand for exactly their expressions, and a group without a name is numbered and moves the number on. |
| `ConstructorString.Parse` | tools/ada-url/include/ada.h:10255-10502 | The loop over the fields of the parser ends, and its result is exactly what is recorded of the run of rounds on values; it is an error exactly when the oracle rejects the protocol. |
| `ConstructorCuts.RunsMakeTheCuts` | tools/ada-url/include/ada.h:10255-10502 | On kinds and values of tokens alone: the components of every run that gets to the end are the pattern cut at the first delimiter of each component outside of groups, for every state: a `?` that is no modifier of a group, `#`, `/`, `@`, and a colon outside of brackets; what follows is what the delimiter says. A run that passes over the end token has made the first of these cuts. |
| `ConstructorCuts.MovesAtDelimiters` | tools/ada-url/include/ada.h:10329-10489 | A state is left exactly at a delimiter of it, for the state that the delimiter announces. |
| `ConstructorDefaults.RunsGiveComponents` | tools/ada-url/include/ada.h:9593-9711 | What the result of such a run contains: each component that was cut off as its part of the input; an empty host, path, query or port, or the path `/` for a special scheme, exactly where a later component skipped it; and nothing else. |
| `ConstructorRuns.RunsAccountForTokens` | tools/ada-url/include/ada.h:10255-10502 | Every run accounts for all tokens: its components follow each other, with exactly their delimiters of 0, 1 or 3 tokens between them. It reaches the end if and only if the number of opening braces directly before the end token is even. The first component is a protocol if and only if there is a colon outside of groups, and it ends at the first one; the special flag is the answer of the oracle for it; and the run fails if and only if the oracle rejects it. |
| `ConstructorRuns.BraceLosesHost` | tools/ada-url/include/ada.h:10306-10326 | A scheme, `://` and an opening brace at the end, `https://{` for one: the run ends on the way to the host, and only the protocol is recorded. |
| `ConstructorRuns.ChainIsOrdered` | tools/ada-url/include/ada.h:9593-9711 | Components lie in the order of their states, each one before the next, in range of the tokens. |
| `ConstructorRuns.ChainAccountsForAll` | tools/ada-url/include/ada.h:9593-9711 | Every token before the component at hand belongs to an earlier component or to a delimiter of at most three tokens, or is the prefix at the very start. |
| `ConstructorRuns.FoundAreSpans` | tools/ada-url/include/ada.h:9693-9711 | What is recorded is each component as the input between its delimiters, and nothing else. |
| `ConstructorSteps.EndIsPassedBehindBrace` | tools/ada-url/include/ada.h:10306-10326 | The end token is passed over exactly in a round that begins at an opening brace directly before it. |
| `ConstructorSteps.RoundGoesForward` | tools/ada-url/include/ada.h:10266-10492 | Each round reaches a later state or leaves a token behind, which is why the loop ends although it rewinds. |
| `ConstructorSteps.MoveGoesForward` | tools/ada-url/include/ada.h:10329-10489 | A state is left only for a later one, and the 0, 1 or 3 tokens that are skipped are in range. |
| `ConstructorString.Parser.Round` | tools/ada-url/include/ada.h:10266-10492 | One round on the fields is one round on values: the next state, its start, the depths and the components. |
| `ConstructorString.Parser.AtToken` | tools/ada-url/include/ada.h:10329-10489 | In each state the state entered, the tokens skipped and the component recorded are those of the table of moves. |
| `ConstructorString.Parser.AtEnd` | tools/ada-url/include/ada.h:10270-10308 | At the end token: from the start the fragment, the query or the path begins, from the authority the host, and every other state is done. |
| `ConstructorString.Parser.LeaveProtocol` | tools/ada-url/include/ada.h:10339-10369 | A colon ends the protocol; the authority follows exactly behind `//` or for a scheme that the oracle calls special, and otherwise the path. |
| `ConstructorString.Parser.ChangeState` | tools/ada-url/include/ada.h:9593-9690 | The component that is left is recorded, what was skipped gets its defaults, and the next one starts: the fields hold what was found with its defaults. |
| `ConstructorString.Parser.FillSkipped` | tools/ada-url/include/ada.h:9640-9681 | The defaults after a change of state are those of all skipped components; the path is `/` exactly for a special scheme. |
| `ConstructorString.Parser.MakeComponentString` | tools/ada-url/include/ada.h:9693-9711 | The component is the input between two token positions, in range. |
| `MqttTable.EveryHandlerMeetsItsFate` | src/network/include/jarvisto/network/MqttAsyncClient.hpp:291-314 | Over all interleavings of callers and broker thread, with `OnConnect` answering `Connect`, `OnDisconnect` answering `Disconnect`, and a token the requests of its packet identifier: a handler is dropped exactly when at its push the handler of a request with a common answer was stored, handed out exactly when an event that answers its request came after its push, and otherwise stays in the table or awaits its push. |
| `MqttTable.PostedAtMostOnce` | src/network/include/jarvisto/network/MqttAsyncClient.hpp:130-254 | Every handler is posted at most once: with its error, or when handed out; and what takes it out is of its kind. |
| `MqttTable.RunsAreConsistent` | src/network/include/jarvisto/network/MqttAsyncClient.hpp:291-348 | In every reachable state reserved identifiers belong to connection handlers and all others to completion handlers, and the table holds just the stored operations; so the cast never fails. |
| `MqttTable.NoHandlerIsDropped` | src/network/include/jarvisto/network/MqttAsyncClient.hpp:304-314 | If identifiers are not reused while outstanding, no handler is dropped and each identifier is outstanding once. |
| `MqttTable.AnswersById` | src/network/include/jarvisto/network/MqttAsyncClient.hpp:317-348 | In every consistent state the identifier of an event leads to the one stored handler that waits for it, if there is one. |
| `MqttTable.AnyStepMayCome` | src/network/include/jarvisto/network/MqttAsyncClient.hpp:130-325 | The runs are not restricted: behind each may come any request, any event, and any push that is due. |
| `MqttTable.SecondConnectIsDropped` | src/network/include/jarvisto/network/MqttAsyncClient.hpp:130-155 | Two connects before an acknowledgement share the reserved identifier: the second handler is destroyed uncalled when assertions are compiled out. |
| `MqttTable.EarlyAcknowledgementIsMissed` | src/network/include/jarvisto/network/MqttAsyncClient.hpp:222-254 | An acknowledgement between the call of the client and the push leaves the handler in the table. |
| `MqttTable.StepMovesHandler` | src/network/include/jarvisto/network/MqttAsyncClient.hpp:291-314 | What one step of any thread does to one handler. |
| `MqttTable.MqttAsyncClient.PushHandler` | src/network/include/jarvisto/network/MqttAsyncClient.hpp:304-314 | A push is the machine's push: the handler is stored exactly when its identifier was free, and no stored one is overwritten. |
| `MqttTable.MqttAsyncClient.TakeHandler` | src/network/include/jarvisto/network/MqttAsyncClient.hpp:291-300 | Under the lock, an acknowledgement is the machine's. The handler handed out is one whose request the event answers, and its entry goes; if there is none, the event answers no request whose handler is stored. |
| `MqttTable.MqttAsyncClient.CallTaken` | src/network/include/jarvisto/network/MqttAsyncClient.hpp:298-302 | Behind the lock, the handler taken out is always called, that is, given to its executor: the cast never fails. |
| `MqttTable.MqttAsyncClient.Request` | src/network/include/jarvisto/network/MqttAsyncClient.hpp:130-254 | A caller's first step takes the machine's: a refused request posts its handler with the error, and an accepted one leaves a handler of its kind to be pushed under its identifier, the reserved ones for connections. |
| `MqttTable.NothingIsPostedTwice` | src/network/include/jarvisto/network/MqttAsyncClient.hpp:130-302 | In every reachable state the handlers given to their executors, by callers and by the broker's thread, are all different. |
| `Availability.Subject.Availability` | src/network/src/AvailabilitySubject.cpp:42-48 | The depth-first cascade ends by topological rank; afterwards every observer is told, everything is settled, and only observers of smaller rank changed. |
| `Availability.Subject.OnUpdate` | src/network/src/AvailabilityObserver.cpp:31-40 | What an observer does when told: the offline shortcut agrees with the full computation. |
| `Availability.Subject.UpdateAvailability` | src/network/src/AvailabilityObserver.cpp:53-68 | The loop with its break computes online exactly for a non-empty set that is all online. |
| `Availability.Subject.Add` | src/network/src/AvailabilityObserver.cpp:26-43 | An entry is made unless there is one, the observer is connected, and the network is settled again. |
| `Availability.Subject.Remove` | src/network/src/AvailabilityObserver.cpp:45-51 | The entry goes and the network is settled again, provided the subject will not change any more. |
| `Availability.ObserversAreRight` | src/network/src/AvailabilityObserver.cpp:27-68 | Between updates every entry is its subject's state, and an observer is online exactly when it observes something and all of it is online. |
| `Availability.StatesFollowFromLeaves` | src/network/src/AvailabilityObserver.cpp:27-68 | Between updates every state in the network is the one that follows from the plain subjects alone. |
| `Availability.Replay` | src/network/src/AvailabilityObserver.cpp:27-68 | For every run of updates of plain subjects: all states follow from the last ones. |
| `Availability.NewSubjectJoins` | src/network/src/AvailabilitySubject.cpp:19-22 | A new subject joins a settled network without disturbing it. |
| `Publisher.PublishedStateIsLatest` | src/network/src/AvailabilityPublisher.cpp:44-74 | Over all interleavings of broker thread and updates in which no update reads the state while the broker's thread holds a message: when both are done, the client is connected and the last message was delivered, the payload is the subject's latest state. |
| `Publisher.CurrentIffNotOvertaken` | src/network/src/AvailabilityPublisher.cpp:44-74 | Over all interleavings, reading the state and handing the message over being two steps: at rest, connected and delivered, the payload is the subject's state if and only if the updates stored since the last message was read cancel out, that is, they are even in number. |
| `Publisher.OvertakenMessageIsOutdated` | src/network/src/AvailabilityPublisher.cpp:44-52 | The run in which the broker's thread reads the state, an update is stored and published, and then the broker's thread hands over what it read. |
| `Publisher.RunsAreTracked` | src/network/src/MqttClient.cpp:84-97 | The invariant behind the exact condition: each message holds the state it was read from, counted by the updates stored since. |
| `Publisher.RunsAreFresh` | src/network/src/MqttClient.cpp:84-97 | The invariant behind the result without overlaps, which needs the flag to be set before the notification. |
| `Publisher.NotifyingFirstLosesUpdates` | src/network/src/MqttClient.cpp:399-411 | With the opposite order an update in between is lost, although nothing overlaps. |
| `Publisher.Replay` | src/network/src/AvailabilityPublisher.cpp:26-74 | Event by event, with successful publishes: a connected client has published the latest state. |
| `Publisher.AvailabilityPublisher.OnStateUpdate` | src/network/src/AvailabilityPublisher.cpp:54-64 | The state is stored, and published exactly when connected. |
| `Publisher.AvailabilityPublisher.OnPublisherConnect` | src/network/src/AvailabilityPublisher.cpp:66-74 | The stored state is published when the connection was accepted. |
| `Config.LessIsStrictWeakOrder` | src/core/src/Config.cpp:130-150 | The comparator is a strict weak order. |
| `Config.JsonFilesDoNotTie` | src/core/src/Config.cpp:130-150 | Among JSON files of one directory the comparator tells all names apart. |
| `Config.JsonSequenceIsUnique` | src/core/src/Config.cpp:113-155 | Any two sorted permutations of any two listings of the directory have the same sequence of JSON files. |
| `Config.SortedIsUnique` | src/core/src/Config.cpp:152-155 | A sorted sequence whose only ties are equal elements is determined by its elements. |
| `Config.LoadedValuesAreUnique` | src/core/src/Config.cpp:208-221 | The loaded configuration does not depend on the listing or the sort. |
| `Config.HighestLayerDecides` | src/core/src/Config.cpp:208-221 | The value of a key is that of the file that the comparator puts last among those defining it. |
| `Config.LastFileDecides` | src/core/src/Config.cpp:191-206 | In a sorted sequence the last file for a key decides it. |
| `Config.PlacesOfFiles` | src/core/src/Config.cpp:128-150 | For every setting of the environment: where it puts `default`, the environment, `local`, its `local-` variant, and all other files by name; the last win. |
| `Config.FirstDifferenceDecides` | src/core/src/Config.cpp:133-137 | File names compare by their first difference, and a shorter one comes first. |
| `Config.NamesAreCut` | src/core/src/Config.cpp:131-132 | A name is cut at its last dot; one that begins with its only dot has no extension. |
| `Config.JsonByName` | src/core/src/Config.cpp:208-221 | The files that are read are those with a name in front of `.json`. |
| `Config.KeyOfMember` | src/core/src/Config.cpp:161-167 | The key of a member is the names on the way to it, with dots between them. |
| `Config.Configuration.LoadConfigFile` | src/core/src/Config.cpp:191-206 | A file that does not open is skipped, one that cannot be understood is an error, and otherwise each key gets the value of its last entry. |
| `Config.Configuration.LoadFiles` | src/core/src/Config.cpp:208-221 | Fails exactly when some JSON file is not loadable; otherwise every key has its value from the last file that defines it. |
| `Config.Configuration.Load` | src/core/src/Config.cpp:208-221 | Without a directory nothing changes. |
| `Config.Configuration.GetAs` | src/core/src/Config.cpp:223-235 | The value exactly when the key is there with the wanted type; the two errors are told apart. |
| `Config.Configuration.Get` | src/core/src/Config.cpp:237-244 | Whatever files the values were loaded from, the value of a key is that of the last one that defines it, and the error comes exactly when none does. |

## Left out

- UrlSession.Replay: the edits are those of the members of one URL; `update_base_authority` reads the buffer at another URL's offset and is not part of the model.
- UrlSession.Perform: requires what callers see to: the parts of an authority are not edited on an opaque path, a port needs a host, a host does not begin with `@`, a path begins with a slash, and the text stays below 2^32 - 1 bytes.
- UrlSession.CredentialDelimiters: for hosts that do not begin with a colon, which no valid host does.
- UrlValidate.ValidatedIsChecked: for hosts that are not empty and do not begin with a colon; for an empty host the checker looks at the byte of a later part.
- UrlAggregator.Aggregator.ParsePort: `std::from_chars` is modelled by its documented result on unsigned 16-bit numbers.
- UrlReading.GetComponents: `host_end` and, without a host, `username_end` follow another convention than the flat form and are not related to it.
- UrlApi.Perform: parsing a host and preparing a path are parameters (ada.cpp:14332-14418, 15320-15480), of which only this is required: the host that parsing makes of the text at hand does not begin with `@` and leaves room for offsets below 2^32 - 1, a path begins with a slash and leaves that room too, and it is appended only to a buffer that ends with the path. `set_href` parses a whole URL and is not part of the model.
- UrlInvariant.RunsKeepRight: the host that parsing makes is not empty and contains no delimiter, and the path that is prepared contains none and begins with a slash in a special URL.
- UrlHosts.GetHostDelimiterLocation: the vector variants of the search for a delimiter (ada.cpp:11316-11479, 11506-11658) are one scan.
- UrlSchemes.SetTheProtocol: lower-casing eight bytes at a time (ada.cpp:10466-10490) is lower-casing each byte.
- PercentEncode.EncodeOnto: the lookup of hexadecimal digits in a table is their computation.
- SearchParamsSort.NextUnit: the two halves of the comparator's loop, one for each key, are one member; bit masks and shifts are remainders and multiples of powers of two.
- SearchParamsSort.StableSort: stands in for `std::ranges::stable_sort`; that any stable sort gives its result is proved.
- PatternPrinting.SpelledPiecesAreRead: each text, prefix and suffix is spelled in one token; runs of several are read by ConsumeText.
- PatternParser.ParsePatternString: tokens are given, and names in them are not empty.
- ConstructorString.Parse: tokens are given, as the tokenizer makes them (ada.cpp:16310-16560): one empty end token, positions that do not go backwards, braces that are spelled `{` and `}`. Whether a protocol is special comes from an oracle. The eight optional fields of the result are one map.
- MqttTable.EveryHandlerMeetsItsFate: an operation is modelled from the answer of the client library on; executors and the order of posted handlers are not.
- Availability.Subject.Availability: subjects and observers are one class with a flag; the rank stands for the absence of cycles.
- Availability.Subject.Remove: the lifetime of the connection after a removal is an assumption on which subjects may still change.
- Availability.Subject.Add: `add` captures an iterator into an `unordered_map` (AvailabilityObserver.cpp:29-33), which a later rehash invalidates; the model assumes that the entry is still reached through it.
- Publisher.PublishedStateIsLatest: for runs in which publishing does not overlap; CurrentIffNotOvertaken has the exact condition for all of them. Reads and writes of the stored state itself are atomic, which `AvailabilityState` in the program is not declared to be.
- Config.Configuration.LoadConfigFile: a file is its flattened list of JSON pointers and values; reading and parsing JSON are not modelled.
- Lookups of configuration values by prefix, in unspecified order, and the lookup that answers nothing instead of throwing.
- The translation of library error codes in the MQTT client: a plain switch.
- Parsing of URLs, hosts, addresses and international domain names, and the tokenizer of patterns (`tools/ada-url/src/ada.cpp`).
- `url_pattern` matching and the compilation of components: they depend on a regular expression provider that is not in the repository.
- Adding, reading and removing single search parameters: easy on their own.
- JSON and diagram printing, logging and development-time checks of the URL classes.
- HTTP requests, workers, signal handling, logging, environment and date code: thin layers over libraries.
- Discovery of the configuration directory.
- The topic of the publisher: a function-local static that the first instance fixes for all.
