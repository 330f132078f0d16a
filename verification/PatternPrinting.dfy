/** Token lists that spell given pieces of a URL pattern: what is read from them are these pieces. */
module PatternPrinting {
  import opened CppString
  import opened PatternPieces
  import opened PatternTokens

  function One(b: bool): nat {
    if b then 1 else 0
  }

  /** `convert_modifier_to_string`, as the tokenizer reads it. */
  predicate IsModifier(t: Token, m: Modifier) {
    match m
    case NoModifier => false
    case Optional => t.kind == OTHER_MODIFIER && t.value == "?"
    case ZeroOrMore => t.kind == ASTERISK && t.value == "*"
    case OneOrMore => t.kind == OTHER_MODIFIER && t.value == "+"
  }

  predicate IsPlain(t: Token, text: string) {
    t.kind == ESCAPED_CHAR && t.value == text
  }

  /** What may stand behind a spelled piece. */
  predicate IsStart(t: Token) {
    t.kind == OPEN || t.kind == CHAR || t.kind == ESCAPED_CHAR || t.kind == END
  }

  /** A modifier, if there is one, and then another piece or the end. */
  predicate SpellsModifier(tokens: seq<Token>, i: nat, m: Modifier, next: nat) {
    && next == i + One(m != NoModifier) < |tokens|
    && (m != NoModifier ==> IsModifier(tokens[i], m))
    && IsStart(tokens[next])
  }

  /** `{` prefix name expression suffix `}` modifier, each but the braces only if there is one. */
  predicate SpellsBraced(tokens: seq<Token>, i: nat, prefix: string, name: Option<Token>, regexp: Option<Token>,
                         suffix: string, m: Modifier, next: nat)
  {
    var a := i + 1 + One(prefix != "");
    var b := a + One(name.Some?);
    var c := b + One(regexp.Some?);
    var d := c + One(suffix != "");
    && d + 1 < |tokens|
    && tokens[i].kind == OPEN
    && (prefix != "" ==> IsPlain(tokens[i + 1], prefix))
    && (name.Some? ==> tokens[a] == name.value)
    && (regexp.Some? ==> tokens[b] == regexp.value)
    && (suffix != "" ==> IsPlain(tokens[c], suffix))
    && tokens[d].kind == CLOSE
    && SpellsModifier(tokens, d + 1, m, next)
  }

  /** A character, and then a name, an expression and a modifier, without braces. */
  predicate SpellsBare(tokens: seq<Token>, i: nat, text: string, g: Group, next: nat) {
    var b := i + 1 + One(g.name.Some?);
    var c := b + One(g.regexp.Some?);
    && c < |tokens|
    && tokens[i].kind == CHAR && tokens[i].value == text
    && (g.name.Some? ==> tokens[i + 1] == g.name.value)
    && (g.regexp.Some? ==> tokens[b] == g.regexp.value)
    && SpellsModifier(tokens, c, g.modifier, next)
  }

  /** A group has a name or an expression, made of tokens of these kinds; a wildcard stands alone. */
  predicate IsGroup(g: Group) {
    && (g.name.Some? || g.regexp.Some?)
    && (g.name.Some? ==> g.name.value.kind == NAME)
    && (g.regexp.Some? ==> g.regexp.value.kind == REGEXP || (g.regexp.value.kind == ASTERISK && g.name.None?))
  }

  /** Text is an escaped character, or in braces with its modifier. A group is in braces with its text; behind the
      character that separates the segments, and with no text else, it needs none. */
  predicate SpellsPiece(tokens: seq<Token>, i: nat, p: Piece, next: nat, optionsPrefix: string) {
    match p
    case Text(text, NoModifier) =>
      text != "" && next == i + 1 < |tokens| && IsPlain(tokens[i], text) && IsStart(tokens[next])
    case Text(text, m) => SpellsBraced(tokens, i, text, None, None, "", m, next)
    case Matching(g) =>
      IsGroup(g) &&
      (|| SpellsBraced(tokens, i, g.prefix, g.name, g.regexp, g.suffix, g.modifier, next)
       || (g.prefix == optionsPrefix && g.suffix == "" && SpellsBare(tokens, i, g.prefix, g, next)))
  }

  ghost predicate SpellsPieces(tokens: seq<Token>, i: nat, ps: seq<Piece>, optionsPrefix: string)
    decreases |ps|
  {
    if ps == [] then i < |tokens| && tokens[i].kind == END
    else
      exists next :: i < next < |tokens| && SpellsPiece(tokens, i, ps[0], next, optionsPrefix)
        && SpellsPieces(tokens, next, ps[1..], optionsPrefix)
  }

  lemma ModifierIsRead(tokens: seq<Token>, i: nat, m: Modifier, next: nat)
    requires SpellsModifier(tokens, i, m, next)
    ensures ModifierOf(ModifierAt(tokens, i)) == m && i + Size(ModifierAt(tokens, i)) == next
    ensures tokens[i].kind != REGEXP && tokens[i].kind != NAME && !(m == NoModifier && tokens[i].kind == ASTERISK)
  {
  }

  lemma TextIsRead(tokens: seq<Token>, i: nat, text: string)
    requires EndsOnce(tokens) && i + One(text != "") < |tokens|
    requires text != "" ==> IsPlain(tokens[i], text)
    requires !IsText(tokens[i + One(text != "")])
    ensures BehindText(tokens, i) == i + One(text != "") && TextAt(tokens, i) == text
  {
    if text != "" {
      assert BehindText(tokens, i) == BehindText(tokens, i + 1) == i + 1;
      assert TextAt(tokens, i) == tokens[i].value + TextAt(tokens, i + 1) && TextAt(tokens, i + 1) == "";
    }
  }

  lemma GroupIsRead(tokens: seq<Token>, a: nat, name: Option<Token>, regexp: Option<Token>)
    requires a + One(name.Some?) + One(regexp.Some?) < |tokens|
    requires name.Some? ==> name.value.kind == NAME && tokens[a] == name.value
    requires regexp.Some? ==> tokens[a + One(name.Some?)] == regexp.value
    requires regexp.Some? ==> regexp.value.kind == REGEXP || (regexp.value.kind == ASTERISK && name.None?)
    requires IsText(tokens[a + One(name.Some?) + One(regexp.Some?)]) ||
             tokens[a + One(name.Some?) + One(regexp.Some?)].kind == CLOSE
    ensures At(tokens, a, NAME) == name && RegexpAt(tokens, a + One(name.Some?), name) == regexp
    ensures Size(name) == One(name.Some?) && Size(regexp) == One(regexp.Some?)
  {
  }

  lemma BracedIsRead(tokens: seq<Token>, i: nat, prefix: string, name: Option<Token>, regexp: Option<Token>,
                     suffix: string, m: Modifier, next: nat)
    requires EndsOnce(tokens) && SpellsBraced(tokens, i, prefix, name, regexp, suffix, m, next)
    requires name.Some? ==> name.value.kind == NAME
    requires regexp.Some? ==> regexp.value.kind == REGEXP || (regexp.value.kind == ASTERISK && name.None?)
    requires name.None? && regexp.None? ==> suffix == ""
    ensures TakeBraces(tokens, i + 1) == Taken([PieceOf(prefix, name, regexp, suffix, m)], next)
  {
    hide BehindText, TextAt, ModifierOf, ModifierAt, EndsOnce, SpellsModifier;
    var a := i + 1 + One(prefix != "");
    var b := a + One(name.Some?);
    var c := b + One(regexp.Some?);
    var d := c + One(suffix != "");
    GroupIsRead(tokens, a, name, regexp);
    TextIsRead(tokens, i + 1, prefix);
    TextIsRead(tokens, c, suffix);
    ModifierIsRead(tokens, d + 1, m, next);
    hide TakeBraces, IsPlain, At, RegexpAt, Size, PieceOf;
    PartsAreTaken(tokens, i + 1, prefix, name, regexp, suffix, m);
  }

  lemma PartsAreTaken(tokens: seq<Token>, i: nat, prefix: string, name: Option<Token>, regexp: Option<Token>,
                      suffix: string, m: Modifier)
    requires EndsOnce(tokens) && i < |tokens| && TextAt(tokens, i) == prefix
    requires var a := BehindText(tokens, i);
      && At(tokens, a, NAME) == name && a + Size(name) < |tokens|
      && RegexpAt(tokens, a + Size(name), name) == regexp && a + Size(name) + Size(regexp) < |tokens|
    requires var c := BehindText(tokens, i) + Size(name) + Size(regexp);
      && TextAt(tokens, c) == suffix && tokens[BehindText(tokens, c)].kind == CLOSE
      && BehindText(tokens, c) + 1 < |tokens| && ModifierOf(ModifierAt(tokens, BehindText(tokens, c) + 1)) == m
    ensures var d := BehindText(tokens, BehindText(tokens, i) + Size(name) + Size(regexp)) + 1;
      TakeBraces(tokens, i) == Taken([PieceOf(prefix, name, regexp, suffix, m)], d + Size(ModifierAt(tokens, d)))
  {
    hide BehindText, TextAt, ModifierOf, ModifierAt, RegexpAt, EndsOnce;
  }

  lemma BareIsRead(tokens: seq<Token>, i: nat, text: string, g: Group, next: nat, optionsPrefix: string)
    requires EndsOnce(tokens) && IsGroup(g) && SpellsBare(tokens, i, text, g, next)
    ensures Take(tokens, i, optionsPrefix) ==
      Taken(WithPrefix(text, optionsPrefix, g.name, g.regexp, g.modifier), next)
  {
    hide ModifierOf, ModifierAt, EndsOnce, SpellsModifier, TakeBraces, WithPrefix;
    ModifierIsRead(tokens, i + 1 + One(g.name.Some?) + One(g.regexp.Some?), g.modifier, next);
  }

  lemma PieceIsRead(tokens: seq<Token>, i: nat, p: Piece, next: nat, optionsPrefix: string)
    requires EndsOnce(tokens) && i < next < |tokens| && SpellsPiece(tokens, i, p, next, optionsPrefix)
    ensures Take(tokens, i, optionsPrefix) == Taken([p], next)
  {
    hide TakeBraces, EndsOnce, SpellsBraced, SpellsBare, ModifierAt, ModifierOf;
    match p {
      case Text(text, NoModifier) =>
      case Text(text, m) =>
        BracedIsRead(tokens, i, text, None, None, "", m, next);
        BracesAreTaken(tokens, i, text, None, None, "", m, next, optionsPrefix);
      case Matching(g) =>
        if SpellsBraced(tokens, i, g.prefix, g.name, g.regexp, g.suffix, g.modifier, next) {
          BracedIsRead(tokens, i, g.prefix, g.name, g.regexp, g.suffix, g.modifier, next);
          BracesAreTaken(tokens, i, g.prefix, g.name, g.regexp, g.suffix, g.modifier, next, optionsPrefix);
        } else {
          BareIsRead(tokens, i, g.prefix, g, next, optionsPrefix);
        }
    }
  }

  lemma BracesAreTaken(tokens: seq<Token>, i: nat, prefix: string, name: Option<Token>, regexp: Option<Token>,
                       suffix: string, m: Modifier, next: nat, optionsPrefix: string)
    requires EndsOnce(tokens) && SpellsBraced(tokens, i, prefix, name, regexp, suffix, m, next)
    ensures Take(tokens, i, optionsPrefix) == TakeBraces(tokens, i + 1)
  {
    hide TakeBraces, EndsOnce;
  }

  /** What is read from tokens that spell pieces are these pieces, to the end. */
  lemma {:induction false} SpelledPiecesAreRead(tokens: seq<Token>, i: nat, ps: seq<Piece>, optionsPrefix: string)
    requires EndsOnce(tokens) && SpellsPieces(tokens, i, ps, optionsPrefix)
    ensures i < |tokens| && PiecesFrom(tokens, i, optionsPrefix) == Some(ps)
    decreases |ps|
  {
    hide Take, EndsOnce, SpellsPiece;
    if ps == [] {
      EndIsRead(tokens, i, optionsPrefix);
    } else {
      var next :| i < next < |tokens| && SpellsPiece(tokens, i, ps[0], next, optionsPrefix)
        && SpellsPieces(tokens, next, ps[1..], optionsPrefix);
      PieceIsRead(tokens, i, ps[0], next, optionsPrefix);
      SpelledPiecesAreRead(tokens, next, ps[1..], optionsPrefix);
      assert [ps[0]] + ps[1..] == ps;
    }
  }

  lemma EndIsRead(tokens: seq<Token>, i: nat, optionsPrefix: string)
    requires EndsOnce(tokens) && i < |tokens| && tokens[i].kind == END
    ensures PiecesFrom(tokens, i, optionsPrefix) == Some([])
  {
    assert Take(tokens, i, optionsPrefix) == Taken([], |tokens|);
    assert PiecesFrom(tokens, |tokens|, optionsPrefix) == Some([]);
    var nothing: seq<Piece> := [];
    assert nothing + nothing == nothing;
  }

  /** A character in front of a group that is not the separator is text of its own. */
  lemma OtherCharIsText(tokens: seq<Token>, i: nat, text: string, g: Group, next: nat, optionsPrefix: string)
    requires EndsOnce(tokens) && IsGroup(g) && g.prefix == g.suffix == "" && SpellsBare(tokens, i, text, g, next)
    requires text != "" && text != optionsPrefix
    ensures Take(tokens, i, optionsPrefix) == Taken([Text(text, NoModifier), Matching(g)], next)
  {
    hide Take, SpellsBare, EndsOnce;
    BareIsRead(tokens, i, text, g, next, optionsPrefix);
  }

  // What is refused.

  predicate AreText(tokens: seq<Token>, i: nat, j: nat)
    requires j <= |tokens|
  {
    forall k | i <= k < j :: tokens[k].kind == CHAR || tokens[k].kind == ESCAPED_CHAR
  }

  /** Nothing, a name, an expression, a wildcard, or a name and an expression. */
  predicate IsGroupOrNothing(tokens: seq<Token>, a: nat, b: nat)
    requires b <= |tokens|
  {
    || a == b
    || (b == a + 1 && (tokens[a].kind == NAME || tokens[a].kind == REGEXP || tokens[a].kind == ASTERISK))
    || (b == a + 2 && tokens[a].kind == NAME && tokens[a + 1].kind == REGEXP)
  }

  /** Text, at most one group, text, and the closing brace. */
  predicate Closes(tokens: seq<Token>, i: nat, a: nat, b: nat, c: nat) {
    && i <= a <= b <= c < |tokens|
    && AreText(tokens, i, a)
    && IsGroupOrNothing(tokens, a, b)
    && AreText(tokens, b, c)
    && tokens[c].kind == CLOSE
  }

  ghost predicate CanClose(tokens: seq<Token>, i: nat) {
    exists a: nat, b: nat, c: nat :: Closes(tokens, i, a, b, c)
  }

  lemma {:induction false} EndOfText(tokens: seq<Token>, i: nat, j: nat)
    requires i <= j < |tokens| && EndsOnce(tokens) && AreText(tokens, i, j) && !IsText(tokens[j])
    ensures BehindText(tokens, i) == j
    decreases j - i
  {
    if i < j {
      EndOfText(tokens, i + 1, j);
    }
  }

  lemma {:induction false} TextUpTo(tokens: seq<Token>, i: nat)
    requires i < |tokens| && EndsOnce(tokens)
    ensures AreText(tokens, i, BehindText(tokens, i))
    decreases |tokens| - i
  {
    if IsText(tokens[i]) {
      TextUpTo(tokens, i + 1);
    }
  }

  lemma ClosedIsTaken(tokens: seq<Token>, i: nat, a: nat, b: nat, c: nat)
    requires i < |tokens| && EndsOnce(tokens) && Closes(tokens, i, a, b, c)
    ensures TakeBraces(tokens, i).Taken?
  {
    hide BehindText, EndsOnce;
    EndOfText(tokens, i, if a == b then c else a);
    EndOfText(tokens, if a == b then c else b, c);
  }

  lemma TakenIsClosed(tokens: seq<Token>, i: nat)
    requires i < |tokens| && EndsOnce(tokens) && TakeBraces(tokens, i).Taken?
    ensures CanClose(tokens, i)
  {
    hide BehindText, EndsOnce, AreText;
    var a := BehindText(tokens, i);
    var name := At(tokens, a, NAME);
    var b := a + Size(name) + Size(RegexpAt(tokens, a + Size(name), name));
    TextUpTo(tokens, i);
    TextUpTo(tokens, b);
    assert Closes(tokens, i, a, b, BehindText(tokens, b));
  }

  /** A round fails exactly at a closing brace, a modifier or an invalid character where a piece should begin, and at an
      opening brace that is not closed behind text with at most one group in it. */
  lemma WrongSyntax(tokens: seq<Token>, i: nat, optionsPrefix: string)
    requires i < |tokens| && EndsOnce(tokens)
    ensures Take(tokens, i, optionsPrefix).SyntaxError? <==>
      || tokens[i].kind == CLOSE || tokens[i].kind == OTHER_MODIFIER || tokens[i].kind == INVALID_CHAR
      || (tokens[i].kind == OPEN && !CanClose(tokens, i + 1))
  {
    hide TakeBraces, Closes, WithPrefix, ModifierAt;
    if tokens[i].kind == OPEN {
      if CanClose(tokens, i + 1) {
        var j := i + 1;
        var a: nat, b: nat, c: nat :| Closes(tokens, j, a, b, c);
        ClosedIsTaken(tokens, j, a, b, c);
      }
      if TakeBraces(tokens, i + 1).Taken? {
        TakenIsClosed(tokens, i + 1);
      }
    }
  }
}
