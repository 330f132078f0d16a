/** `parse_pattern_string`: the parts of one component of a URL pattern. */
module PatternParser {
  import opened CppString
  import opened PatternPieces
  import opened PatternTokens
  import opened UrlRecord

  datatype PartType = FIXED_TEXT | REGEXP_PART | SEGMENT_WILDCARD | FULL_WILDCARD

  datatype Part = Part(kind: PartType, value: string, modifier: Modifier, name: string, prefix: string, suffix: string)

  datatype ParseResult = Parsed(parts: seq<Part>) | TypeError

  /** The text that a part stands for itself, without the group it may match. */
  function PartText(p: Part): string {
    if p.kind == FIXED_TEXT then p.value else p.prefix + p.suffix
  }

  function PartsText(ps: seq<Part>): string {
    if ps == [] then "" else PartsText(ps[..|ps| - 1]) + PartText(ps[|ps| - 1])
  }

  /** Matching groups can be told apart by their names. */
  predicate DistinctNames(ps: seq<Part>) {
    forall i, j | 0 <= i < j < |ps| && ps[i].kind != FIXED_TEXT && ps[j].kind != FIXED_TEXT :: ps[i].name != ps[j].name
  }

  type Encoder = string -> Option<string>

  ghost predicate IsIdentity(encode: Encoder) {
    forall s: string :: encode(s) == Some(s)
  }

  /** The regular expression that a group is written with: no expression stands for a segment. */
  function RegexpOfToken(token: Option<Token>, segmentWildcardRegexp: string): string {
    if token.None? then segmentWildcardRegexp else if token.value.kind == ASTERISK then ".*" else token.value.value
  }

  /** The regular expression that a part stands for. */
  function RegexpOfPart(p: Part, segmentWildcardRegexp: string): string {
    match p.kind
    case SEGMENT_WILDCARD => segmentWildcardRegexp
    case FULL_WILDCARD => ".*"
    case _ => p.value
  }

  /** The part stands for the group: it matches the same, and comes with the same text, encoded. */
  predicate IsPartOfGroup(p: Part, group: Group, number: nat, segmentWildcardRegexp: string, encode: Encoder) {
    && p.kind != FIXED_TEXT
    && RegexpOfPart(p, segmentWildcardRegexp) == RegexpOfToken(group.regexp, segmentWildcardRegexp)
    && (p.kind == SEGMENT_WILDCARD <==> RegexpOfToken(group.regexp, segmentWildcardRegexp) == segmentWildcardRegexp)
    && (p.kind == REGEXP_PART ==> p.value != ".*")
    && (p.kind != REGEXP_PART ==> p.value == "")
    && p.name == NameOf(group, number)
    && p.modifier == group.modifier
    && encode(group.prefix) == Some(p.prefix)
    && encode(group.suffix) == Some(p.suffix)
  }

  /** The part says what the piece says. */
  predicate IsPartOf(p: Part, piece: Piece, number: nat, segmentWildcardRegexp: string, encode: Encoder) {
    match piece
    case Text(text, modifier) =>
      p.kind == FIXED_TEXT && encode(text) == Some(p.value) && p.modifier == modifier
      && p.name == p.prefix == p.suffix == ""
    case Matching(group) => IsPartOfGroup(p, group, number, segmentWildcardRegexp, encode)
  }

  /** One part for every piece, in their order. */
  predicate AreParts(ps: seq<Part>, pieces: seq<Piece>, segmentWildcardRegexp: string, encode: Encoder) {
    && |ps| == |pieces|
    && forall k | 0 <= k < |ps| :: IsPartOf(ps[k], pieces[k], Unnamed(pieces, k), segmentWildcardRegexp, encode)
  }

  predicate Encodes(piece: Piece, encode: Encoder) {
    match piece
    case Text(text, _) => encode(text).Some?
    case Matching(group) => encode(group.prefix).Some? && encode(group.suffix).Some?
  }

  /** No two groups have one name, and the encoder takes all of the text. */
  predicate CanBeParts(pieces: seq<Piece>, encode: Encoder) {
    !NamesClash(pieces) && forall k | 0 <= k < |pieces| :: Encodes(pieces[k], encode)
  }

  /** The pieces leave no choice. */
  lemma PartsAreUnique(ps: seq<Part>, qs: seq<Part>, pieces: seq<Piece>, segmentWildcardRegexp: string, encode: Encoder)
    requires AreParts(ps, pieces, segmentWildcardRegexp, encode) && AreParts(qs, pieces, segmentWildcardRegexp, encode)
    ensures ps == qs
  {
    hide Unnamed, NameOf, RegexpOfToken;
    forall k | 0 <= k < |ps|
      ensures ps[k] == qs[k]
    {
      assert IsPartOf(ps[k], pieces[k], Unnamed(pieces, k), segmentWildcardRegexp, encode);
      assert IsPartOf(qs[k], pieces[k], Unnamed(pieces, k), segmentWildcardRegexp, encode);
    }
  }

  /** What a group is written with, and what its part is made of: without an expression the group matches a segment;
      `*`, or the expression for everything, matches everything; any other expression is kept. */
  lemma PartOfGroup(p: Part, g: Group, number: nat, segmentWildcardRegexp: string, encode: Encoder)
    requires IsPartOfGroup(p, g, number, segmentWildcardRegexp, encode) && segmentWildcardRegexp != ".*"
    ensures g.regexp.None? ==> p.kind == SEGMENT_WILDCARD && p.value == ""
    ensures g.regexp.Some? && g.regexp.value.kind == ASTERISK ==> p.kind == FULL_WILDCARD && p.value == ""
    ensures g.regexp.Some? && g.regexp.value.kind == REGEXP ==> var expression := g.regexp.value.value;
      if expression == segmentWildcardRegexp then p.kind == SEGMENT_WILDCARD && p.value == ""
      else if expression == ".*" then p.kind == FULL_WILDCARD && p.value == ""
      else p.kind == REGEXP_PART && p.value == expression
    ensures p.name == if g.name.Some? then g.name.value.value else Decimal(number)
  {
    hide Decimal;
  }

  // Parts added one at a time.

  lemma PartAdded(ps: seq<Part>, pieces: seq<Piece>, p: Part, piece: Piece, segmentWildcardRegexp: string,
                  encode: Encoder)
    requires AreParts(ps, pieces, segmentWildcardRegexp, encode)
    requires IsPartOf(p, piece, Unnamed(pieces, |pieces|), segmentWildcardRegexp, encode)
    ensures AreParts(ps + [p], pieces + [piece], segmentWildcardRegexp, encode)
  {
    hide IsPartOf, Unnamed;
    var more, parts := pieces + [piece], ps + [p];
    forall k | 0 <= k < |parts|
      ensures IsPartOf(parts[k], more[k], Unnamed(more, k), segmentWildcardRegexp, encode)
    {
      UnnamedInPrefix(pieces, [piece], k);
      assert k < |pieces| ==> parts[k] == ps[k] && more[k] == pieces[k];
    }
  }

  lemma NumberOfNext(pieces: seq<Piece>, piece: Piece)
    ensures Unnamed(pieces + [piece], |pieces + [piece]|) ==
      Unnamed(pieces, |pieces|) + if piece.Matching? && piece.group.name.None? then 1 else 0
  {
    UnnamedInPrefix(pieces, [piece], |pieces|);
  }

  lemma TextDoesNotClash(pieces: seq<Piece>, piece: Piece)
    requires !NamesClash(pieces) && piece.Text?
    ensures !NamesClash(pieces + [piece])
  {
    hide Unnamed, NameOf;
    NamesInPrefix(pieces, [piece]);
    var more := pieces + [piece];
    forall j, k | 0 <= j < k < |more| && more[j].Matching? && more[k].Matching?
      ensures GroupName(more, j) != GroupName(more, k)
    {
      assert GroupName(more, j) == GroupName(pieces, j) && GroupName(more, k) == GroupName(pieces, k);
    }
  }

  /** The name of a group is taken exactly when it clashes with that of an earlier group. */
  lemma TakenNamesClash(ps: seq<Part>, pieces: seq<Piece>, group: Group, segmentWildcardRegexp: string, encode: Encoder)
    requires AreParts(ps, pieces, segmentWildcardRegexp, encode) && !NamesClash(pieces)
    requires NameOf(group, Unnamed(pieces, |pieces|)) != ""
    ensures (exists k | 0 <= k < |ps| :: ps[k].name == NameOf(group, Unnamed(pieces, |pieces|)))
      <==> NamesClash(pieces + [Matching(group)])
  {
    hide Unnamed, NameOf;
    var more, name := pieces + [Matching(group)], NameOf(group, Unnamed(pieces, |pieces|));
    NamesInPrefix(pieces, [Matching(group)]);
    UnnamedInPrefix(pieces, [Matching(group)], |pieces|);
    assert GroupName(more, |pieces|) == name;
    forall k | 0 <= k < |ps|
      ensures ps[k].name == name <==> pieces[k].Matching? && GroupName(more, k) == name
    {
      assert IsPartOf(ps[k], pieces[k], Unnamed(pieces, k), segmentWildcardRegexp, encode);
      assert pieces[k].Matching? ==> GroupName(more, k) == GroupName(pieces, k);
    }
    forall j, k | 0 <= j < k < |pieces| && pieces[j].Matching? && pieces[k].Matching?
      ensures GroupName(more, j) != GroupName(more, k)
    {
      assert GroupName(pieces, j) != GroupName(pieces, k);
    }
    if j, k :| 0 <= j < k < |more| && more[j].Matching? && more[k].Matching?
              && GroupName(more, j) == GroupName(more, k) {
      assert k == |pieces| && ps[j].name == name;
    }
    if k :| 0 <= k < |ps| && ps[k].name == name {
      assert more[k].Matching? && GroupName(more, k) == GroupName(more, |pieces|);
    }
  }

  /** What cannot be parts cannot be made parts by adding to it. */
  lemma CannotBePartsOnward(pieces: seq<Piece>, more: seq<Piece>, encode: Encoder)
    requires !CanBeParts(pieces, encode) && pieces <= more
    ensures !CanBeParts(more, encode)
  {
    hide NamesClash, Encodes;
    var rest := more[|pieces|..];
    assert more == pieces + rest;
    NamesInPrefix(pieces, rest);
    if !NamesClash(pieces) {
      var k :| 0 <= k < |pieces| && !Encodes(pieces[k], encode);
      assert !Encodes(more[k], encode);
    }
  }

  lemma CannotBeEncoded(pieces: seq<Piece>, piece: Piece, encode: Encoder)
    requires !Encodes(piece, encode)
    ensures !CanBeParts(pieces + [piece], encode)
  {
    assert (pieces + [piece])[|pieces|] == piece;
  }

  class Parser {
    const tokens: seq<Token>
    const encode: Encoder
    const segmentWildcardRegexp: string
    var parts: seq<Part>
    var pendingFixedValue: string
    var index: nat
    var nextNumericName: nat

    constructor (tokens: seq<Token>, encode: Encoder, segmentWildcardRegexp: string)
      ensures this.tokens == tokens && this.encode == encode && this.segmentWildcardRegexp == segmentWildcardRegexp
      ensures index == 0 && Holds(NOTHING)
    {
      this.tokens := tokens;
      this.encode := encode;
      this.segmentWildcardRegexp := segmentWildcardRegexp;
      parts := [];
      pendingFixedValue := "";
      index := 0;
      nextNumericName := 0;
    }

    /** The end token has not been consumed. */
    predicate BeforeEnd()
      reads this
    {
      index < |tokens| && EndsOnce(tokens)
    }

    /** The fields stand for what has been read: the parts are those of the complete pieces. */
    ghost predicate Holds(r: Read)
      reads this`parts, this`pendingFixedValue, this`nextNumericName
    {
      && AreParts(parts, r.done, segmentWildcardRegexp, encode)
      && !NamesClash(r.done)
      && pendingFixedValue == r.pending
      && nextNumericName == Unnamed(r.done, |r.done|)
    }

    method TryConsumeToken(kind: TokenType) returns (token: Option<Token>)
      requires BeforeEnd()
      modifies this`index
      ensures token == At(tokens, old(index), kind) && index == old(index) + Size(token)
      ensures kind != END ==> BeforeEnd()
    {
      var nextToken := tokens[index];
      if nextToken.kind != kind {
        return None;
      }
      index := index + 1;
      return Some(nextToken);
    }

    method TryConsumeModifierToken() returns (token: Option<Token>)
      requires BeforeEnd()
      modifies this`index
      ensures BeforeEnd() && index == old(index) + Size(token)
      ensures token == ModifierAt(tokens, old(index))
    {
      token := TryConsumeToken(OTHER_MODIFIER);
      if token.Some? {
        return;
      }
      token := TryConsumeToken(ASTERISK);
    }

    method TryConsumeRegexpOrWildcardToken(nameToken: Option<Token>) returns (token: Option<Token>)
      requires BeforeEnd()
      modifies this`index
      ensures BeforeEnd() && index == old(index) + Size(token)
      ensures token == RegexpAt(tokens, old(index), nameToken)
    {
      token := TryConsumeToken(REGEXP);
      if nameToken.None? && token.None? {
        token := TryConsumeToken(ASTERISK);
      }
    }

    /** Takes all the text tokens that follow. */
    method ConsumeText() returns (result: string)
      requires BeforeEnd()
      modifies this`index
      ensures BeforeEnd() && old(index) <= index
      ensures index == BehindText(tokens, old(index)) && result == TextAt(tokens, old(index))
    {
      result := "";
      while true
        invariant BeforeEnd() && old(index) <= index
        invariant BehindText(tokens, index) == BehindText(tokens, old(index))
        invariant result + TextAt(tokens, index) == TextAt(tokens, old(index))
        decreases |tokens| - index
      {
        var token := TryConsumeToken(CHAR);
        if token.None? {
          token := TryConsumeToken(ESCAPED_CHAR);
        }
        if token.None? {
          break;
        }
        result := result + token.value.value;
      }
    }

    method ConsumeRequiredToken(kind: TokenType) returns (found: bool)
      requires BeforeEnd()
      modifies this`index
      ensures found <==> old(tokens[index].kind) == kind
      ensures index == if found then old(index) + 1 else old(index)
      ensures kind != END ==> BeforeEnd()
    {
      var token := TryConsumeToken(kind);
      return token.Some?;
    }

    /** Adds the part for text without a group. */
    method AddFixedPart(text: string, modifier: Modifier, ghost r: Read) returns (ok: bool)
      requires Holds(r)
      modifies this`parts
      ensures ok ==> Holds(r.(done := r.done + [Text(text, modifier)]))
      ensures !ok ==> !CanBeParts(r.done + [Text(text, modifier)], encode)
    {
      hide Unnamed, NamesClash, AreParts, CanBeParts;
      ghost var piece := Text(text, modifier);
      var encodedValue := encode(text);
      if encodedValue.None? {
        CannotBeEncoded(r.done, piece, encode);
        return false;
      }
      var part := Part(FIXED_TEXT, encodedValue.value, modifier, "", "", "");
      PartAdded(parts, r.done, part, piece, segmentWildcardRegexp, encode);
      NumberOfNext(r.done, piece);
      TextDoesNotClash(r.done, piece);
      parts := parts + [part];
      return true;
    }

    /** Turns the pending text into a fixed part. */
    method MaybeAddPartFromThePendingFixedValue(ghost r: Read) returns (ok: bool)
      requires Holds(r)
      modifies this`parts, this`pendingFixedValue
      ensures ok ==> Holds(Read(Flushed(r), ""))
      ensures !ok ==> !CanBeParts(Flushed(r), encode)
    {
      hide Unnamed, NamesClash, AreParts, CanBeParts;
      if pendingFixedValue == "" {
        assert r.done + [] == r.done;
        return true;
      }
      ok := AddFixedPart(pendingFixedValue, NoModifier, r);
      if ok {
        pendingFixedValue := "";
      }
    }

    /** Adds the part for one piece, or keeps plain text pending. A name that is taken is an error. */
    method AddPart(prefix: string, nameToken: Option<Token>, regexpOrWildcardToken: Option<Token>,
                   suffix: string, modifierToken: Option<Token>, ghost r: Read) returns (ok: bool)
      requires Holds(r) && (nameToken.Some? ==> nameToken.value.value != "")
      requires nameToken.None? && regexpOrWildcardToken.None? ==> suffix == ""
      modifies this`parts, this`pendingFixedValue, this`nextNumericName
      ensures var piece := PieceOf(prefix, nameToken, regexpOrWildcardToken, suffix, ModifierOf(modifierToken));
        && (ok ==> Holds(Add(r, piece)))
        && (!ok ==> !CanBeParts(Add(r, piece).done, encode) && Add(r, piece).pending == "")
    {
      hide Unnamed, NamesClash, AreParts, CanBeParts, ModifierOf;
      ghost var piece := PieceOf(prefix, nameToken, regexpOrWildcardToken, suffix, ModifierOf(modifierToken));
      var modifier := ModifierOf(modifierToken);
      if nameToken.None? && regexpOrWildcardToken.None? && modifier == NoModifier {
        pendingFixedValue := pendingFixedValue + prefix;
        return true;
      }
      ok := MaybeAddPartFromThePendingFixedValue(r);
      if !ok {
        CannotBePartsOnward(Flushed(r), Add(r, piece).done, encode);
        return false;
      }
      ghost var flushed := Read(Flushed(r), "");
      if nameToken.None? && regexpOrWildcardToken.None? {
        assert suffix == "";
        if prefix == "" {
          assert flushed.done + [] == flushed.done;
          return true;
        }
        ok := AddFixedPart(prefix, modifier, flushed);
        return;
      }
      ok := AddMatchingPart(prefix, nameToken, regexpOrWildcardToken, suffix, modifierToken, flushed);
    }

    /** The part of a group that matches something. */
    method AddMatchingPart(prefix: string, nameToken: Option<Token>, regexpOrWildcardToken: Option<Token>,
                           suffix: string, modifierToken: Option<Token>, ghost r: Read) returns (ok: bool)
      requires Holds(r) && (nameToken.Some? ==> nameToken.value.value != "")
      requires nameToken.Some? || regexpOrWildcardToken.Some?
      modifies this`parts, this`nextNumericName
      ensures var group := Group(nameToken, regexpOrWildcardToken, ModifierOf(modifierToken), prefix, suffix);
        && (ok ==> Holds(r.(done := r.done + [Matching(group)])))
        && (!ok ==> !CanBeParts(r.done + [Matching(group)], encode))
        && nextNumericName == old(nextNumericName) + if nameToken.None? then 1 else 0
    {
      hide Unnamed, NamesClash, AreParts, CanBeParts, ModifierOf, Decimal;
      ghost var group := Group(nameToken, regexpOrWildcardToken, ModifierOf(modifierToken), prefix, suffix);
      NumberOfNext(r.done, Matching(group));
      TakenNamesClash(parts, r.done, group, segmentWildcardRegexp, encode);
      var modifier := ModifierOf(modifierToken);
      var regexpValue := RegexpOfToken(regexpOrWildcardToken, segmentWildcardRegexp);
      var kind := REGEXP_PART;
      if regexpValue == segmentWildcardRegexp {
        kind := SEGMENT_WILDCARD;
        regexpValue := "";
      } else if regexpValue == ".*" {
        kind := FULL_WILDCARD;
        regexpValue := "";
      }
      var name := "";
      if nameToken.Some? {
        name := nameToken.value.value;
      } else if regexpOrWildcardToken.Some? {
        name := Decimal(nextNumericName);
        nextNumericName := nextNumericName + 1;
      }
      if exists k | 0 <= k < |parts| :: parts[k].name == name {
        NamesMakeNoParts(r.done + [Matching(group)], encode);
        return false;
      }
      var encodedPrefix := encode(prefix);
      if encodedPrefix.None? {
        CannotBeEncoded(r.done, Matching(group), encode);
        return false;
      }
      var encodedSuffix := encode(suffix);
      if encodedSuffix.None? {
        CannotBeEncoded(r.done, Matching(group), encode);
        return false;
      }
      var part := Part(kind, regexpValue, modifier, name, encodedPrefix.value, encodedSuffix.value);
      PartAdded(parts, r.done, part, Matching(group), segmentWildcardRegexp, encode);
      parts := parts + [part];
      return true;
    }
  }

  lemma NamesMakeNoParts(pieces: seq<Piece>, encode: Encoder)
    requires NamesClash(pieces)
    ensures !CanBeParts(pieces, encode)
  {
  }

  /** Names are not empty, as those of fixed parts are. */
  predicate NamesAreSpelled(tokens: seq<Token>) {
    forall k | 0 <= k < |tokens| :: IsSpelledWell(tokens[k])
  }

  /** What has been read behind the token at `i`: at the end, pending text becomes a piece. */
  function BehindRound(r: Read, tokens: seq<Token>, i: nat, pieces: seq<Piece>): Read
    requires i < |tokens|
  {
    if tokens[i].kind == END then Read(Flushed(r), "") else AddAll(r, pieces)
  }

  /** What a round did, against what the tokens spell: it adds the parts of its pieces; and it fails only at wrong
      syntax, or at pieces that can be no parts. */
  ghost predicate IsRound(ok: bool, parser: Parser, taken: Taken, after: Read)
    reads parser
  {
    if ok then taken.Taken? && parser.index == taken.next && parser.Holds(after)
    else taken.Taken? ==> !CanBeParts(after.done, parser.encode) && after.pending == ""
  }

  /** One round of the loop. */
  method Step(parser: Parser, optionsPrefix: string, ghost r: Read) returns (ok: bool)
    requires parser.BeforeEnd() && parser.Holds(r) && NamesAreSpelled(parser.tokens)
    modifies parser
    ensures var taken := Take(parser.tokens, old(parser.index), optionsPrefix);
      IsRound(ok, parser, taken,
              BehindRound(r, parser.tokens, old(parser.index), if taken.Taken? then taken.pieces else []))
  {
    hide ModifierOf, TakeBraces, RegexpAt, ModifierAt, WithPrefix, CanBeParts, AreParts, NamesClash, Unnamed, Flushed;
    ghost var tokens, start := parser.tokens, parser.index;
    var charToken := parser.TryConsumeToken(CHAR);
    var nameToken := parser.TryConsumeToken(NAME);
    var regexpOrWildcardToken := parser.TryConsumeRegexpOrWildcardToken(nameToken);

    if nameToken.Some? || regexpOrWildcardToken.Some? {
      ok := GroupOutsideBraces(parser, optionsPrefix, charToken, nameToken, regexpOrWildcardToken, r);
      return;
    }
    var fixedToken := charToken;
    if fixedToken.None? {
      fixedToken := parser.TryConsumeToken(ESCAPED_CHAR);
    }
    if fixedToken.Some? {
      parser.pendingFixedValue := parser.pendingFixedValue + fixedToken.value.value;
      AddedOne(r, Text(fixedToken.value.value, NoModifier));
      return true;
    }
    var openToken := parser.TryConsumeToken(OPEN);
    if openToken.Some? {
      ok := GroupInBraces(parser, r);
      return;
    }
    ok := parser.MaybeAddPartFromThePendingFixedValue(r);
    if !ok {
      return;
    }
    ok := parser.ConsumeRequiredToken(END);
  }

  /** A name or a regular expression, perhaps behind a character that may be its prefix. */
  method GroupOutsideBraces(parser: Parser, optionsPrefix: string, charToken: Option<Token>,
                            nameToken: Option<Token>, regexpOrWildcardToken: Option<Token>, ghost r: Read)
    returns (ok: bool)
    requires parser.BeforeEnd() && parser.Holds(r) && (nameToken.Some? ==> nameToken.value.value != "")
    requires nameToken.Some? || regexpOrWildcardToken.Some?
    modifies parser
    ensures parser.BeforeEnd()
    ensures var modifier := ModifierAt(parser.tokens, old(parser.index));
      var pieces :=
        WithPrefix(ValueOf(charToken), optionsPrefix, nameToken, regexpOrWildcardToken, ModifierOf(modifier));
      IsRound(ok, parser, Taken(pieces, old(parser.index) + Size(modifier)), AddAll(r, pieces))
  {
    hide ModifierOf, CanBeParts, AreParts, NamesClash, Unnamed;
    ghost var modifier := ModifierAt(parser.tokens, parser.index);
    WithPrefixAdded(r, ValueOf(charToken), optionsPrefix, nameToken, regexpOrWildcardToken, ModifierOf(modifier));
    var prefix := "";
    if charToken.Some? {
      prefix := charToken.value.value;
    }
    ghost var read := r;
    if prefix != "" && prefix != optionsPrefix {
      parser.pendingFixedValue := parser.pendingFixedValue + prefix;
      read := Add(r, Text(prefix, NoModifier));
      prefix := "";
    }
    ghost var group := Matching(Group(nameToken, regexpOrWildcardToken, ModifierOf(modifier), prefix, ""));
    AddBehindFlush(read, group);
    ok := parser.MaybeAddPartFromThePendingFixedValue(read);
    if !ok {
      CannotBePartsOnward(Flushed(read), Add(read, group).done, parser.encode);
      return;
    }
    var modifierToken := parser.TryConsumeModifierToken();
    ok := parser.AddPart(prefix, nameToken, regexpOrWildcardToken, "", modifierToken, Read(Flushed(read), ""));
  }

  lemma WithPrefixAdded(r: Read, text: string, optionsPrefix: string, name: Option<Token>, regexp: Option<Token>,
                        modifier: Modifier)
    ensures AddAll(r, WithPrefix(text, optionsPrefix, name, regexp, modifier)) ==
      if text != "" && text != optionsPrefix
      then Add(Add(r, Text(text, NoModifier)), Matching(Group(name, regexp, modifier, "", "")))
      else Add(r, Matching(Group(name, regexp, modifier, text, "")))
  {
    var group := Matching(Group(name, regexp, modifier, "", ""));
    AddedOne(r, Matching(Group(name, regexp, modifier, text, "")));
    AddedOne(Add(r, Text(text, NoModifier)), group);
    assert [Text(text, NoModifier), group][1..] == [group];
  }

  /** A group ends the text before it, whether or not that is a part already. */
  lemma AddBehindFlush(r: Read, p: Piece)
    requires p.Matching?
    ensures Add(Read(Flushed(r), ""), p) == Add(r, p) && Flushed(r) <= Add(r, p).done
  {
    assert Flushed(r) + [] == Flushed(r);
  }

  /** What stands in braces, behind the opening one. */
  method ReadBraces(parser: Parser)
    returns (closed: bool, prefix: string, nameToken: Option<Token>, regexpOrWildcardToken: Option<Token>,
             suffix: string, modifierToken: Option<Token>)
    requires parser.BeforeEnd() && NamesAreSpelled(parser.tokens)
    modifies parser`index
    ensures parser.BeforeEnd()
    ensures TakeBraces(parser.tokens, old(parser.index)) ==
      if closed
      then Taken([PieceOf(prefix, nameToken, regexpOrWildcardToken, suffix, ModifierOf(modifierToken))], parser.index)
      else SyntaxError
    ensures nameToken.None? && regexpOrWildcardToken.None? ==> suffix == ""
    ensures nameToken.Some? ==> nameToken.value.value != ""
  {
    hide ModifierOf, ModifierAt, RegexpAt;
    NothingBehindRun(parser.tokens, parser.index);
    prefix := parser.ConsumeText();
    nameToken := parser.TryConsumeToken(NAME);
    regexpOrWildcardToken := parser.TryConsumeRegexpOrWildcardToken(nameToken);
    suffix := parser.ConsumeText();
    modifierToken := None;
    closed := parser.ConsumeRequiredToken(CLOSE);
    if closed {
      modifierToken := parser.TryConsumeModifierToken();
    }
  }

  /** A group in braces. Without a name or a regular expression, all of its text is taken as the prefix, so
      there is no suffix. */
  method GroupInBraces(parser: Parser, ghost r: Read) returns (ok: bool)
    requires parser.BeforeEnd() && parser.Holds(r) && NamesAreSpelled(parser.tokens)
    modifies parser
    ensures parser.BeforeEnd()
    ensures var taken := TakeBraces(parser.tokens, old(parser.index));
      IsRound(ok, parser, taken, AddAll(r, if taken.Taken? then taken.pieces else []))
  {
    hide ModifierOf, TakeBraces, CanBeParts, AreParts, NamesClash, Unnamed, Add;
    var closed, prefix, nameToken, regexpOrWildcardToken, suffix, modifierToken := ReadBraces(parser);
    if !closed {
      return false;
    }
    AddedOne(r, PieceOf(prefix, nameToken, regexpOrWildcardToken, suffix, ModifierOf(modifierToken)));
    ok := parser.AddPart(prefix, nameToken, regexpOrWildcardToken, suffix, modifierToken, r);
  }

  // The whole list.

  /** What has been read and what is ahead make all the pieces. */
  ghost predicate IsAhead(tokens: seq<Token>, i: nat, r: Read, optionsPrefix: string)
    requires i <= |tokens| && EndsOnce(tokens)
  {
    var all, rest := PiecesFrom(tokens, 0, optionsPrefix), PiecesFrom(tokens, i, optionsPrefix);
    if rest.None? then all.None? else all.Some? && Merged(all.value) == Flushed(AddAll(r, rest.value))
  }

  lemma RoundStaysAhead(tokens: seq<Token>, i: nat, r: Read, optionsPrefix: string)
    requires i < |tokens| && EndsOnce(tokens) && IsAhead(tokens, i, r, optionsPrefix)
    ensures match Take(tokens, i, optionsPrefix)
      case SyntaxError => PiecesFrom(tokens, 0, optionsPrefix).None?
      case Taken(pieces, next) =>
        var after := BehindRound(r, tokens, i, pieces);
        && IsAhead(tokens, next, after, optionsPrefix)
        && (after.pending == "" && PiecesFrom(tokens, 0, optionsPrefix).Some? ==>
              after.done <= Merged(PiecesFrom(tokens, 0, optionsPrefix).value))
  {
    hide Take, Add, Merged;
    var taken := Take(tokens, i, optionsPrefix);
    if taken.Taken? && PiecesFrom(tokens, taken.next, optionsPrefix).Some? {
      var rest, after := PiecesFrom(tokens, taken.next, optionsPrefix).value, BehindRound(r, tokens, i, taken.pieces);
      if tokens[i].kind == END {
        EndTakesNothing(tokens, i, optionsPrefix);
        assert taken.pieces + rest == [];
        assert Flushed(r) + [] == Flushed(r);
      } else {
        AddedInTurn(r, taken.pieces, rest);
      }
      DoneGrows(after, rest);
    }
  }

  lemma EndTakesNothing(tokens: seq<Token>, i: nat, optionsPrefix: string)
    requires i < |tokens| && EndsOnce(tokens) && tokens[i].kind == END
    ensures Take(tokens, i, optionsPrefix) == Taken([], |tokens|)
  {
  }

  lemma AtStart(tokens: seq<Token>, inputLength: nat, optionsPrefix: string)
    requires IsTokenList(tokens, inputLength)
    ensures EndsOnce(tokens) && NamesAreSpelled(tokens) && IsAhead(tokens, 0, NOTHING, optionsPrefix)
  {
  }

  lemma AtTheEnd(tokens: seq<Token>, r: Read, optionsPrefix: string)
    requires EndsOnce(tokens) && IsAhead(tokens, |tokens|, r, optionsPrefix) && r.pending == ""
    ensures var all := PiecesFrom(tokens, 0, optionsPrefix); all.Some? && Merged(all.value) == r.done
  {
    hide Merged;
    assert r.done + [] == r.done;
  }

  lemma PartsEncoded(ps: seq<Part>, pieces: seq<Piece>, segmentWildcardRegexp: string, encode: Encoder)
    requires AreParts(ps, pieces, segmentWildcardRegexp, encode) && !NamesClash(pieces)
    ensures CanBeParts(pieces, encode) && DistinctNames(ps)
  {
    hide Unnamed, NameOf, RegexpOfToken, RegexpOfPart;
    forall k | 0 <= k < |pieces|
      ensures Encodes(pieces[k], encode)
      ensures ps[k].kind != FIXED_TEXT <==> pieces[k].Matching?
      ensures pieces[k].Matching? ==> ps[k].name == GroupName(pieces, k)
    {
      assert IsPartOf(ps[k], pieces[k], Unnamed(pieces, k), segmentWildcardRegexp, encode);
    }
  }

  lemma FewerParts(ps: seq<Part>, pieces: seq<Piece>, segmentWildcardRegexp: string, encode: Encoder)
    requires AreParts(ps, pieces, segmentWildcardRegexp, encode) && ps != []
    ensures AreParts(ps[..|ps| - 1], pieces[..|ps| - 1], segmentWildcardRegexp, encode)
  {
    hide IsPartOf, Unnamed;
    var last := |ps| - 1;
    var rest := pieces[..last];
    assert pieces == rest + [pieces[last]];
    forall k | 0 <= k < last
      ensures IsPartOf(ps[..last][k], rest[k], Unnamed(rest, k), segmentWildcardRegexp, encode)
    {
      UnnamedInPrefix(rest, [pieces[last]], k);
      assert IsPartOf(ps[k], pieces[k], Unnamed(pieces, k), segmentWildcardRegexp, encode);
    }
  }

  lemma PartSaysTheText(p: Part, piece: Piece, number: nat, segmentWildcardRegexp: string, encode: Encoder)
    requires IsPartOf(p, piece, number, segmentWildcardRegexp, encode) && IsIdentity(encode)
    ensures PartText(p) == PieceText(piece)
  {
    hide NameOf, RegexpOfToken, RegexpOfPart;
  }

  lemma {:induction false} PartsSayTheText(ps: seq<Part>, pieces: seq<Piece>, segmentWildcardRegexp: string,
                                           encode: Encoder)
    requires AreParts(ps, pieces, segmentWildcardRegexp, encode) && IsIdentity(encode)
    ensures PartsText(ps) == PiecesText(pieces)
  {
    hide IsPartOf, IsIdentity, Unnamed, PartText, PieceText;
    if ps != [] {
      var last := |ps| - 1;
      FewerParts(ps, pieces, segmentWildcardRegexp, encode);
      PartsSayTheText(ps[..last], pieces[..last], segmentWildcardRegexp, encode);
      PartSaysTheText(ps[last], pieces[last], Unnamed(pieces, last), segmentWildcardRegexp, encode);
    }
  }

  /** `parse_pattern_string` after tokenizing. It takes every token up to the end exactly once, and makes one part of
      each piece that the tokens spell, in order, unless the tokens break the syntax, two groups have one name, or
      the encoder refuses some of the text. */
  method ParsePatternString(tokens: seq<Token>, inputLength: nat, encode: Encoder,
                            segmentWildcardRegexp: string, optionsPrefix: string) returns (result: ParseResult)
    requires IsTokenList(tokens, inputLength)
    ensures var pieces := PiecesFrom(tokens, 0, optionsPrefix);
      && (result.Parsed? <==> pieces.Some? && CanBeParts(Merged(pieces.value), encode))
      && (result.Parsed? ==> AreParts(result.parts, Merged(pieces.value), segmentWildcardRegexp, encode))
    ensures result.Parsed? ==> DistinctNames(result.parts)
    ensures result.Parsed? && IsIdentity(encode) ==> PartsText(result.parts) == TextFrom(tokens, 0)
  {
    hide PartsText, DistinctNames, IsIdentity, Take, AreParts, CanBeParts, NamesClash, NamesAreSpelled, Unnamed, Merged,
      PiecesFrom, TextFrom, PiecesText, Flushed, AddAll, IsAhead;
    var parser := new Parser(tokens, encode, segmentWildcardRegexp);
    AtStart(tokens, inputLength, optionsPrefix);
    ghost var r := NOTHING;
    while parser.index < |tokens|
      invariant fresh(parser) && parser.tokens == tokens && parser.encode == encode
      invariant parser.segmentWildcardRegexp == segmentWildcardRegexp
      invariant parser.index <= |tokens| && EndsOnce(tokens)
      invariant parser.Holds(r) && IsAhead(tokens, parser.index, r, optionsPrefix)
      invariant parser.index == |tokens| ==> r.pending == ""
      decreases |tokens| - parser.index
    {
      RoundStaysAhead(tokens, parser.index, r, optionsPrefix);
      ghost var taken := Take(tokens, parser.index, optionsPrefix);
      ghost var after := BehindRound(r, tokens, parser.index, if taken.Taken? then taken.pieces else []);
      var ok := Step(parser, optionsPrefix, r);
      if !ok {
        ghost var all := PiecesFrom(tokens, 0, optionsPrefix);
        if taken.Taken? && all.Some? {
          CannotBePartsOnward(after.done, Merged(all.value), encode);
        }
        return TypeError;
      }
      r := after;
    }
    AtTheEnd(tokens, r, optionsPrefix);
    PartsEncoded(parser.parts, r.done, segmentWildcardRegexp, encode);
    result := Parsed(parser.parts);
    PiecesSayTheText(tokens, 0, optionsPrefix);
    MergedKeepsAll(PiecesFrom(tokens, 0, optionsPrefix).value);
    if IsIdentity(encode) {
      PartsSayTheText(parser.parts, r.done, segmentWildcardRegexp, encode);
    }
  }
}
