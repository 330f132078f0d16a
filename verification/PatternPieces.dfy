/** What the tokens of a URL pattern spell, independently of the parser that turns it into parts: pieces of text
    and matching groups. */
module PatternPieces {
  import opened CppString
  import opened PatternTokens
  import opened UrlRecord

  datatype Modifier = NoModifier | Optional | ZeroOrMore | OneOrMore

  /** A name, a regular expression or wildcard, or both, how often it may occur, and the text that comes with
      each occurrence. */
  datatype Group = Group(
    name: Option<Token>, regexp: Option<Token>, modifier: Modifier, prefix: string, suffix: string)

  datatype Piece = Text(text: string, modifier: Modifier) | Matching(group: Group)

  function ModifierOf(token: Option<Token>): Modifier {
    if token.None? then NoModifier
    else if token.value.value == "?" then Optional
    else if token.value.value == "*" then ZeroOrMore
    else if token.value.value == "+" then OneOrMore
    else NoModifier
  }

  predicate IsText(t: Token) {
    t.kind == CHAR || t.kind == ESCAPED_CHAR
  }

  predicate EndsOnce(tokens: seq<Token>) {
    && |tokens| > 0 && tokens[|tokens| - 1].kind == END
    && forall k | 0 <= k < |tokens| - 1 :: tokens[k].kind != END
  }

  /** A token of the kind, if there is one at the position. */
  function At(tokens: seq<Token>, i: nat, kind: TokenType): (t: Option<Token>)
    requires i < |tokens|
    ensures t.Some? && EndsOnce(tokens) && kind != END ==> i + 1 < |tokens|
  {
    if tokens[i].kind == kind then Some(tokens[i]) else None
  }

  function Size(t: Option<Token>): nat {
    if t.Some? then 1 else 0
  }

  function RegexpAt(tokens: seq<Token>, i: nat, name: Option<Token>): (t: Option<Token>)
    requires i < |tokens|
    ensures t.Some? && EndsOnce(tokens) ==> i + 1 < |tokens|
  {
    if At(tokens, i, REGEXP).Some? then At(tokens, i, REGEXP)
    else if name.None? then At(tokens, i, ASTERISK)
    else None
  }

  function ModifierAt(tokens: seq<Token>, i: nat): (t: Option<Token>)
    requires i < |tokens|
    ensures t.Some? && EndsOnce(tokens) ==> i + 1 < |tokens|
  {
    if At(tokens, i, OTHER_MODIFIER).Some? then At(tokens, i, OTHER_MODIFIER) else At(tokens, i, ASTERISK)
  }

  /** The first position from `i` on that holds no text. */
  function BehindText(tokens: seq<Token>, i: nat): (j: nat)
    requires i < |tokens| && EndsOnce(tokens)
    ensures i <= j < |tokens| && !IsText(tokens[j])
    decreases |tokens| - i
  {
    if IsText(tokens[i]) then BehindText(tokens, i + 1) else i
  }

  /** The text that stands at position `i`. */
  function TextAt(tokens: seq<Token>, i: nat): (text: string)
    requires i < |tokens| && EndsOnce(tokens)
    decreases |tokens| - i
  {
    if IsText(tokens[i]) then tokens[i].value + TextAt(tokens, i + 1) else ""
  }

  function PieceOf(prefix: string, name: Option<Token>, regexp: Option<Token>, suffix: string,
                   modifier: Modifier): Piece {
    if name.None? && regexp.None? then Text(prefix, modifier)
    else Matching(Group(name, regexp, modifier, prefix, suffix))
  }

  /** What one round takes: its pieces, and where the next round starts. */
  datatype Taken = Taken(pieces: seq<Piece>, next: nat) | SyntaxError

  /** What stands in braces: text, perhaps around a group. */
  function TakeBraces(tokens: seq<Token>, i: nat): (t: Taken)
    requires i < |tokens| && EndsOnce(tokens)
    ensures t.Taken? ==> i < t.next < |tokens|
  {
    var a := BehindText(tokens, i);
    var name := At(tokens, a, NAME);
    var regexp := RegexpAt(tokens, a + Size(name), name);
    var b := a + Size(name) + Size(regexp);
    var c := BehindText(tokens, b);
    if At(tokens, c, CLOSE).None? then SyntaxError
    else
      var modifier := ModifierAt(tokens, c + 1);
      Taken([PieceOf(TextAt(tokens, i), name, regexp, TextAt(tokens, b), ModifierOf(modifier))],
            c + 1 + Size(modifier))
  }

  function ValueOf(token: Option<Token>): string {
    if token.Some? then token.value.value else ""
  }

  /** The character before a group belongs to it only if it is the one that separates the segments. */
  function WithPrefix(text: string, optionsPrefix: string, name: Option<Token>, regexp: Option<Token>,
                      modifier: Modifier): seq<Piece> {
    if text == "" || text == optionsPrefix then [Matching(Group(name, regexp, modifier, text, ""))]
    else [Text(text, NoModifier), Matching(Group(name, regexp, modifier, "", ""))]
  }

  function Take(tokens: seq<Token>, i: nat, optionsPrefix: string): (t: Taken)
    requires i < |tokens| && EndsOnce(tokens)
    ensures t.Taken? ==> i < t.next <= |tokens| && (t.next == |tokens| <==> tokens[i].kind == END)
  {
    var before := At(tokens, i, CHAR);
    var name := At(tokens, i + Size(before), NAME);
    var regexp := RegexpAt(tokens, i + Size(before) + Size(name), name);
    var behind := i + Size(before) + Size(name) + Size(regexp);
    if name.Some? || regexp.Some? then
      var modifier := ModifierAt(tokens, behind);
      Taken(WithPrefix(ValueOf(before), optionsPrefix, name, regexp, ModifierOf(modifier)), behind + Size(modifier))
    else if IsText(tokens[i]) then Taken([Text(tokens[i].value, NoModifier)], i + 1)
    else if tokens[i].kind == OPEN then TakeBraces(tokens, i + 1)
    else if tokens[i].kind == END then Taken([], i + 1)
    else SyntaxError
  }

  /** All pieces from a position on, if the tokens follow the syntax. */
  function PiecesFrom(tokens: seq<Token>, i: nat, optionsPrefix: string): Option<seq<Piece>>
    requires i <= |tokens| && EndsOnce(tokens)
    decreases |tokens| - i
  {
    if i == |tokens| then Some([])
    else
      var taken := Take(tokens, i, optionsPrefix);
      if taken.SyntaxError? then None
      else
        var rest := PiecesFrom(tokens, taken.next, optionsPrefix);
        if rest.None? then None else Some(taken.pieces + rest.value)
  }

  // Names.

  /** The groups without a name among the first `k` pieces. */
  function Unnamed(ps: seq<Piece>, k: nat): nat
    requires k <= |ps|
  {
    if k == 0 then 0
    else Unnamed(ps, k - 1) + if ps[k - 1].Matching? && ps[k - 1].group.name.None? then 1 else 0
  }

  function NameOf(group: Group, number: nat): string {
    if group.name.Some? then group.name.value.value else Decimal(number)
  }

  /** Groups without a name are numbered in their order. */
  function GroupName(ps: seq<Piece>, k: nat): string
    requires k < |ps| && ps[k].Matching?
  {
    NameOf(ps[k].group, Unnamed(ps, k))
  }

  predicate NamesClash(ps: seq<Piece>) {
    exists j, k | 0 <= j < k < |ps| && ps[j].Matching? && ps[k].Matching? :: GroupName(ps, j) == GroupName(ps, k)
  }

  lemma {:induction false} UnnamedInPrefix(ps: seq<Piece>, more: seq<Piece>, k: nat)
    requires k <= |ps|
    ensures Unnamed(ps + more, k) == Unnamed(ps, k)
  {
    if k > 0 {
      UnnamedInPrefix(ps, more, k - 1);
    }
  }

  lemma NamesInPrefix(ps: seq<Piece>, more: seq<Piece>)
    ensures forall k | 0 <= k < |ps| && ps[k].Matching? :: GroupName(ps + more, k) == GroupName(ps, k)
    ensures NamesClash(ps) ==> NamesClash(ps + more)
  {
    hide Unnamed, NameOf;
    forall k | 0 <= k < |ps| && ps[k].Matching?
      ensures GroupName(ps + more, k) == GroupName(ps, k)
    {
      UnnamedInPrefix(ps, more, k);
    }
    if j, k :| 0 <= j < k < |ps| && ps[j].Matching? && ps[k].Matching? && GroupName(ps, j) == GroupName(ps, k) {
      assert GroupName(ps + more, j) == GroupName(ps + more, k);
    }
  }

  // Text that is put together.

  /** The pieces that are complete, and the text that more may be added to. */
  datatype Read = Read(done: seq<Piece>, pending: string)

  const NOTHING := Read([], "")

  function Flushed(r: Read): seq<Piece> {
    r.done + if r.pending == "" then [] else [Text(r.pending, NoModifier)]
  }

  /** Text without a modifier goes on; a group, and text with a modifier, end the text before. Empty text is
      no piece. */
  function Add(r: Read, p: Piece): Read {
    match p
    case Text(text, NoModifier) => r.(pending := r.pending + text)
    case Text(text, _) => Read(Flushed(r) + if text == "" then [] else [p], "")
    case Matching(_) => Read(Flushed(r) + [p], "")
  }

  function AddAll(r: Read, ps: seq<Piece>): Read
    decreases |ps|
  {
    if ps == [] then r else AddAll(Add(r, ps[0]), ps[1..])
  }

  /** The pieces, with the text that is not interrupted in one. */
  function Merged(ps: seq<Piece>): seq<Piece> {
    Flushed(AddAll(NOTHING, ps))
  }

  lemma {:induction false} AddedInTurn(r: Read, a: seq<Piece>, b: seq<Piece>)
    ensures AddAll(r, a + b) == AddAll(AddAll(r, a), b)
    decreases |a|
  {
    if a == [] {
      assert a + b == b;
    } else {
      assert (a + b)[1..] == a[1..] + b;
      AddedInTurn(Add(r, a[0]), a[1..], b);
    }
  }

  lemma AddedOne(r: Read, p: Piece)
    ensures AddAll(r, [p]) == Add(r, p)
  {
  }

  /** What is complete stays. */
  lemma {:induction false} DoneGrows(r: Read, ps: seq<Piece>)
    ensures r.done <= AddAll(r, ps).done <= Flushed(AddAll(r, ps))
    decreases |ps|
  {
    if ps != [] {
      assert r.done <= Add(r, ps[0]).done;
      DoneGrows(Add(r, ps[0]), ps[1..]);
    }
  }

  function PieceText(p: Piece): string {
    match p
    case Text(text, _) => text
    case Matching(g) => g.prefix + g.suffix
  }

  function PiecesText(ps: seq<Piece>): string {
    if ps == [] then "" else PiecesText(ps[..|ps| - 1]) + PieceText(ps[|ps| - 1])
  }

  function GroupsIn(ps: seq<Piece>): seq<Group> {
    if ps == [] then []
    else
      var last := ps[|ps| - 1];
      GroupsIn(ps[..|ps| - 1]) + if last.Matching? then [last.group] else []
  }

  lemma OnePieceMore(ps: seq<Piece>, p: Piece)
    ensures PiecesText(ps + [p]) == PiecesText(ps) + PieceText(p)
    ensures GroupsIn(ps + [p]) == GroupsIn(ps) + if p.Matching? then [p.group] else []
  {
    assert (ps + [p])[..|ps|] == ps;
  }

  lemma NoPieces()
    ensures PiecesText([]) == "" && GroupsIn([]) == []
  {
  }

  lemma {:induction false} PiecesConcat(a: seq<Piece>, b: seq<Piece>)
    ensures PiecesText(a + b) == PiecesText(a) + PiecesText(b)
    ensures GroupsIn(a + b) == GroupsIn(a) + GroupsIn(b)
    decreases |b|
  {
    hide PiecesText, GroupsIn, PieceText;
    if b == [] {
      assert a + b == a;
      NoPieces();
      assert GroupsIn(a) + [] == GroupsIn(a);
    } else {
      var rest, last := b[..|b| - 1], b[|b| - 1];
      PiecesConcat(a, rest);
      assert a + b == (a + rest) + [last] && b == rest + [last];
      OnePieceMore(a + rest, last);
      OnePieceMore(rest, last);
      assert GroupsIn(a + b) == GroupsIn(a) + GroupsIn(b);
    }
  }

  lemma OnePiece(p: Piece)
    ensures PiecesText([p]) == PieceText(p)
    ensures GroupsIn([p]) == if p.Matching? then [p.group] else []
  {
    OnePieceMore([], p);
    assert [] + [p] == [p];
  }

  lemma FlushedKeeps(r: Read)
    ensures PiecesText(Flushed(r)) == PiecesText(r.done) + r.pending
    ensures GroupsIn(Flushed(r)) == GroupsIn(r.done)
  {
    hide PiecesText, GroupsIn;
    OnePieceMore(r.done, Text(r.pending, NoModifier));
    assert r.done + [] == r.done;
  }

  lemma AddKeeps(r: Read, p: Piece)
    ensures PiecesText(Flushed(Add(r, p))) == PiecesText(Flushed(r)) + PieceText(p)
    ensures GroupsIn(Flushed(Add(r, p))) == GroupsIn(Flushed(r)) + if p.Matching? then [p.group] else []
  {
    FlushedKeeps(r);
    FlushedKeeps(Add(r, p));
    OnePieceMore(Flushed(r), p);
    hide PiecesText, GroupsIn, Flushed;
    assert Flushed(r) + [] == Flushed(r);
  }

  lemma {:induction false} AddAllKeeps(r: Read, ps: seq<Piece>)
    ensures PiecesText(Flushed(AddAll(r, ps))) == PiecesText(Flushed(r)) + PiecesText(ps)
    ensures GroupsIn(Flushed(AddAll(r, ps))) == GroupsIn(Flushed(r)) + GroupsIn(ps)
    decreases |ps|
  {
    hide PiecesText, GroupsIn, PieceText, Flushed, Add;
    if ps == [] {
      NoPieces();
      assert GroupsIn(Flushed(r)) + [] == GroupsIn(Flushed(r));
    } else {
      AddAllKeeps(Add(r, ps[0]), ps[1..]);
      assert ps == [ps[0]] + ps[1..];
      AddKeeps(r, ps[0]);
      PiecesConcat([ps[0]], ps[1..]);
      OnePiece(ps[0]);
      assert GroupsIn(Flushed(Add(r, ps[0]))) == GroupsIn(Flushed(r)) + GroupsIn([ps[0]]);
    }
  }

  /** Putting text together changes neither the text nor the groups. */
  lemma MergedKeepsAll(ps: seq<Piece>)
    ensures PiecesText(Merged(ps)) == PiecesText(ps)
    ensures GroupsIn(Merged(ps)) == GroupsIn(ps)
  {
    AddAllKeeps(NOTHING, ps);
    assert Flushed(NOTHING) == [];
  }

  /** No text is empty, and no two pieces of plain text are neighbours. */
  predicate IsMerged(ps: seq<Piece>) {
    && (forall k | 0 <= k < |ps| && ps[k].Text? :: ps[k].text != "")
    && (forall k | 0 <= k < |ps| - 1 && ps[k].Text? && ps[k + 1].Text? ::
          ps[k].modifier != NoModifier || ps[k + 1].modifier != NoModifier)
  }

  lemma {:induction false} MergedFrom(r: Read, ps: seq<Piece>)
    requires IsMerged(ps) && (r.pending != "" && ps != [] && ps[0].Text? ==> ps[0].modifier != NoModifier)
    ensures Flushed(AddAll(r, ps)) == Flushed(r) + ps
    decreases |ps|
  {
    if ps == [] {
      assert Flushed(r) + [] == Flushed(r);
    } else {
      var next := Add(r, ps[0]);
      assert forall k | 0 <= k < |ps| - 1 :: ps[1..][k] == ps[k + 1];
      assert r.done + [] == r.done && (ps[0].Text? ==> "" + ps[0].text == ps[0].text);
      assert Flushed(next) == Flushed(r) + [ps[0]];
      MergedFrom(next, ps[1..]);
      assert Flushed(r) + [ps[0]] + ps[1..] == Flushed(r) + ps;
    }
  }

  /** Pieces in which nothing can be put together stay as they are. */
  lemma MergedStays(ps: seq<Piece>)
    requires IsMerged(ps)
    ensures Merged(ps) == ps
  {
    MergedFrom(NOTHING, ps);
  }

  /** Neighbours that are plain text are put together. */
  lemma PlainTextIsJoined(a: seq<Piece>, s: string, t: string, b: seq<Piece>)
    ensures Merged(a + [Text(s, NoModifier), Text(t, NoModifier)] + b) == Merged(a + [Text(s + t, NoModifier)] + b)
  {
    var two, one := [Text(s, NoModifier), Text(t, NoModifier)], [Text(s + t, NoModifier)];
    var r := AddAll(NOTHING, a);
    AddedInTurn(NOTHING, a + two, b);
    AddedInTurn(NOTHING, a, two);
    AddedInTurn(NOTHING, a + one, b);
    AddedInTurn(NOTHING, a, one);
    AddedOne(r, one[0]);
    AddedOne(r, two[0]);
    AddedOne(Add(r, two[0]), two[1]);
    AddedInTurn(r, [two[0]], [two[1]]);
    assert two == [two[0]] + [two[1]];
    assert r.pending + s + t == r.pending + (s + t);
  }

  // The text of the tokens.

  function TokenText(t: Token): string {
    if IsText(t) then t.value else ""
  }

  /** The literal text among the tokens from position `i` on. */
  function TextFrom(tokens: seq<Token>, i: nat): string
    requires i <= |tokens|
    decreases |tokens| - i
  {
    if i == |tokens| then "" else TokenText(tokens[i]) + TextFrom(tokens, i + 1)
  }

  lemma {:induction false} TextOfRun(tokens: seq<Token>, i: nat)
    requires i < |tokens| && EndsOnce(tokens)
    ensures TextFrom(tokens, i) == TextAt(tokens, i) + TextFrom(tokens, BehindText(tokens, i))
    decreases |tokens| - i
  {
    if IsText(tokens[i]) {
      assert BehindText(tokens, i) == BehindText(tokens, i + 1);
      var value, run, rest := tokens[i].value, TextAt(tokens, i + 1), TextFrom(tokens, BehindText(tokens, i + 1));
      assert TextAt(tokens, i) == value + run && TextFrom(tokens, i) == value + TextFrom(tokens, i + 1);
      hide TextAt, TextFrom, BehindText;
      TextOfRun(tokens, i + 1);
      Regrouped(value, run, rest);
    }
  }

  lemma NoText(tokens: seq<Token>, i: nat, t: Option<Token>)
    requires i < |tokens| && (t.Some? ==> t.value == tokens[i] && !IsText(tokens[i]))
    ensures i + Size(t) <= |tokens| && TextFrom(tokens, i) == TextFrom(tokens, i + Size(t))
  {
  }

  lemma GroupsSayNothing(tokens: seq<Token>, i: nat)
    requires i < |tokens| && EndsOnce(tokens)
    ensures var name := At(tokens, i, NAME);
      TextFrom(tokens, i) == TextFrom(tokens, i + Size(name) + Size(RegexpAt(tokens, i + Size(name), name)))
  {
    hide TextFrom;
    var name := At(tokens, i, NAME);
    NoText(tokens, i, name);
    NoText(tokens, i + Size(name), RegexpAt(tokens, i + Size(name), name));
  }

  lemma ModifiersSayNothing(tokens: seq<Token>, i: nat)
    requires i < |tokens| && EndsOnce(tokens)
    ensures TextFrom(tokens, i) == TextFrom(tokens, i + Size(ModifierAt(tokens, i)))
  {
    hide TextFrom;
    NoText(tokens, i, ModifierAt(tokens, i));
  }

  lemma NothingBehindRun(tokens: seq<Token>, i: nat)
    requires i < |tokens| && EndsOnce(tokens)
    ensures TextAt(tokens, BehindText(tokens, i)) == ""
  {
  }

  lemma Regrouped(a: string, b: string, c: string)
    ensures a + (b + c) == (a + b) + c
  {
  }

  lemma PieceSays(prefix: string, name: Option<Token>, regexp: Option<Token>, suffix: string, modifier: Modifier)
    requires name.None? && regexp.None? ==> suffix == ""
    ensures PieceText(PieceOf(prefix, name, regexp, suffix, modifier)) == prefix + suffix
  {
  }

  lemma BracesSayTheText(tokens: seq<Token>, i: nat)
    requires i < |tokens| && EndsOnce(tokens)
    ensures match TakeBraces(tokens, i)
      case SyntaxError => true
      case Taken(pieces, next) => TextFrom(tokens, i) == PiecesText(pieces) + TextFrom(tokens, next)
  {
    hide TextFrom, TextAt, PiecesText, ModifierOf, BehindText, RegexpAt, ModifierAt;
    var a := BehindText(tokens, i);
    var name := At(tokens, a, NAME);
    var regexp := RegexpAt(tokens, a + Size(name), name);
    var b := a + Size(name) + Size(regexp);
    var c := BehindText(tokens, b);
    TextOfRun(tokens, i);
    GroupsSayNothing(tokens, a);
    TextOfRun(tokens, b);
    if At(tokens, c, CLOSE).Some? {
      NoText(tokens, c, At(tokens, c, CLOSE));
      ModifiersSayNothing(tokens, c + 1);
      OnePiece(TakeBraces(tokens, i).pieces[0]);
      NothingBehindRun(tokens, i);
      PieceSays(TextAt(tokens, i), name, regexp, TextAt(tokens, b), ModifierOf(ModifierAt(tokens, c + 1)));
      hide PieceText, PieceOf;
      Regrouped(TextAt(tokens, i), TextAt(tokens, b), TextFrom(tokens, c));
    }
  }

  lemma PrefixSaysTheText(text: string, optionsPrefix: string, name: Option<Token>, regexp: Option<Token>,
                          modifier: Modifier)
    ensures PiecesText(WithPrefix(text, optionsPrefix, name, regexp, modifier)) == text
  {
    hide PiecesText;
    var group := Matching(Group(name, regexp, modifier, "", ""));
    OnePiece(Matching(Group(name, regexp, modifier, text, "")));
    OnePiece(Text(text, NoModifier));
    OnePieceMore([Text(text, NoModifier)], group);
    assert [Text(text, NoModifier)] + [group] == [Text(text, NoModifier), group];
  }

  lemma BehindChar(tokens: seq<Token>, i: nat)
    requires i < |tokens|
    ensures var before := At(tokens, i, CHAR);
      i + Size(before) <= |tokens| && TextFrom(tokens, i) == ValueOf(before) + TextFrom(tokens, i + Size(before))
  {
  }

  lemma OneTextToken(tokens: seq<Token>, i: nat)
    requires i < |tokens|
    ensures IsText(tokens[i]) ==>
      TextFrom(tokens, i) == PiecesText([Text(tokens[i].value, NoModifier)]) + TextFrom(tokens, i + 1)
    ensures !IsText(tokens[i]) ==> TextFrom(tokens, i) == PiecesText([]) + TextFrom(tokens, i + 1)
  {
    OnePiece(Text(tokens[i].value, NoModifier));
  }

  lemma RoundSaysTheText(tokens: seq<Token>, i: nat, optionsPrefix: string)
    requires i < |tokens| && EndsOnce(tokens)
    ensures match Take(tokens, i, optionsPrefix)
      case SyntaxError => true
      case Taken(pieces, next) => TextFrom(tokens, i) == PiecesText(pieces) + TextFrom(tokens, next)
  {
    hide TextFrom, PiecesText, ModifierOf, TakeBraces, WithPrefix;
    var before := At(tokens, i, CHAR);
    var name := At(tokens, i + Size(before), NAME);
    var regexp := RegexpAt(tokens, i + Size(before) + Size(name), name);
    var behind := i + Size(before) + Size(name) + Size(regexp);
    OneTextToken(tokens, i);
    if name.Some? || regexp.Some? {
      BehindChar(tokens, i);
      GroupsSayNothing(tokens, i + Size(before));
      ModifiersSayNothing(tokens, behind);
      PrefixSaysTheText(ValueOf(before), optionsPrefix, name, regexp, ModifierOf(ModifierAt(tokens, behind)));
    } else if tokens[i].kind == OPEN {
      BracesSayTheText(tokens, i + 1);
      NoPieces();
    }
  }

  /** The pieces say all the literal text of the tokens, in its order. */
  lemma {:induction false} PiecesSayTheText(tokens: seq<Token>, i: nat, optionsPrefix: string)
    requires i <= |tokens| && EndsOnce(tokens)
    ensures match PiecesFrom(tokens, i, optionsPrefix)
      case None => true
      case Some(pieces) => PiecesText(pieces) == TextFrom(tokens, i)
    decreases |tokens| - i
  {
    hide Take;
    if i < |tokens| && Take(tokens, i, optionsPrefix).Taken? {
      var taken := Take(tokens, i, optionsPrefix);
      PiecesSayTheText(tokens, taken.next, optionsPrefix);
      RoundSaysTheText(tokens, i, optionsPrefix);
      if PiecesFrom(tokens, taken.next, optionsPrefix).Some? {
        PiecesConcat(taken.pieces, PiecesFrom(tokens, taken.next, optionsPrefix).value);
      }
    }
  }
}
