/** `ada::url_search_params`: a list of pairs read from a query, written as one, and sorted. */
module SearchParams {
  import opened CppString
  import opened PercentEncode
  import opened SearchParamsSort

  /** `find`: the first position of a character, or the length if there is none. */
  function Find(s: string, c: char): (n: nat)
    ensures n <= |s|
    ensures forall k | 0 <= k < n :: s[k] != c
    ensures n < |s| ==> s[n] == c
  {
    if s == "" || s[0] == c then 0 else 1 + Find(s[1..], c)
  }

  /** `std::ranges::replace` */
  function ReplaceAll(s: string, from: char, to: char): (r: string)
    ensures |r| == |s|
    ensures forall k | 0 <= k < |s| :: r[k] == if s[k] == from then to else s[k]
  {
    if s == "" then "" else [if s[0] == from then to else s[0]] + ReplaceAll(s[1..], from, to)
  }

  function DecodeField(s: string): string {
    Decode(ReplaceAll(s, '+', ' '))
  }

  function EncodeField(s: string): string
    requires IsBytes(s)
  {
    ReplaceAll(Encode(WWW_FORM, s), ' ', '+')
  }

  /** One piece of a query between ampersands. */
  function KeyValue(current: string): Pair {
    var equal := Find(current, '=');
    if equal == |current| then Pair(DecodeField(current), "")
    else Pair(DecodeField(current[..equal]), DecodeField(current[equal + 1..]))
  }

  /** Section 5.1 of the WHATWG URL Standard: split at ampersands and skip empty pieces. */
  function Parse(input: string): seq<Pair> {
    if input == "" then []
    else
      var n := Find(input, '&');
      if n == |input| then [KeyValue(input)]
      else (if n != 0 then [KeyValue(input[..n])] else []) + Parse(input[n + 1..])
  }

  predicate AllBytes(ps: seq<Pair>) {
    forall k | 0 <= k < |ps| :: IsBytes(ps[k].key) && IsBytes(ps[k].value)
  }

  function PairText(p: Pair): string
    requires IsBytes(p.key) && IsBytes(p.value)
  {
    EncodeField(p.key) + "=" + EncodeField(p.value)
  }

  /** Section 5.2 of the WHATWG URL Standard. */
  function Serialize(ps: seq<Pair>): string
    requires AllBytes(ps)
  {
    if ps == [] then ""
    else PairText(ps[0]) + (if |ps| == 1 then "" else "&" + Serialize(ps[1..]))
  }

  class UrlSearchParams {
    var params: seq<Pair>

    constructor ()
      ensures params == []
    {
      params := [];
    }

    method Reset(input: string)
      modifies this
      ensures params == Parse(WithoutQuestionMark(input))
    {
      params := [];
      Initialize(input);
    }

    method Initialize(input: string)
      modifies this
      ensures params == old(params) + Parse(WithoutQuestionMark(input))
    {
      var rest := input;
      if rest != "" && rest[0] == '?' {
        rest := rest[1..];
      }
      ghost var stripped := rest;
      assert stripped == WithoutQuestionMark(input);
      while rest != ""
        invariant params + Parse(rest) == old(params) + Parse(stripped)
        decreases |rest|
      {
        var ampersandIndex := Find(rest, '&');
        ghost var before := params;
        if ampersandIndex == |rest| {
          params := params + [KeyValue(rest)];
          return;
        } else if ampersandIndex != 0 {
          params := params + [KeyValue(rest[..ampersandIndex])];
        }
        ParseStep(before, rest, ampersandIndex);
        rest := rest[ampersandIndex + 1..];
      }
    }

    method ToString() returns (out: string)
      requires AllBytes(params)
      ensures out == Serialize(params)
    {
      hide Encode, PairText, Serialize, IsBytes, ReplaceAll;
      out := "";
      SerializeNothing();
      for i := 0 to |params|
        invariant out == Serialize(params[..i])
      {
        var key := Encode(WWW_FORM, params[i].key);
        var value := Encode(WWW_FORM, params[i].value);
        key := ReplaceAll(key, ' ', '+');
        value := ReplaceAll(value, ' ', '+');
        if i != 0 {
          out := out + "&";
        }
        out := out + key;
        out := out + "=";
        out := out + value;
        SerializeMore(params[..i], params[i]);
        PairAppended(Serialize(params[..i]) + (if i == 0 then "" else "&"), params[i]);
        assert params[..i + 1] == params[..i] + [params[i]];
      }
      assert params[..|params|] == params;
    }

    /** The pairs are put in the order of their keys' UTF-16 code units; pairs with equal keys keep theirs. */
    method Sort()
      requires ValidKeys(params)
      modifies this
      ensures ValidKeys(params) && Sorted(params)
      ensures multiset(params) == multiset(old(params))
      ensures SameForEveryKey(old(params), params)
    {
      params := StableSort(params);
    }
  }

  lemma ParseStep(before: seq<Pair>, rest: string, n: nat)
    requires n == Find(rest, '&') < |rest|
    ensures before + Parse(rest) ==
      (if n != 0 then before + [KeyValue(rest[..n])] else before) + Parse(rest[n + 1..])
  {
    hide KeyValue, Find;
    var tail := Parse(rest[n + 1..]);
    if n != 0 {
      var piece := KeyValue(rest[..n]);
      assert Parse(rest) == [piece] + tail;
      assert before + ([piece] + tail) == before + [piece] + tail;
    } else {
      assert Parse(rest) == [] + tail == tail;
    }
  }

  lemma SerializeNothing()
    ensures Serialize([]) == ""
  {
  }

  lemma PairAppended(out: string, p: Pair)
    requires IsBytes(p.key) && IsBytes(p.value)
    ensures out + EncodeField(p.key) + "=" + EncodeField(p.value) == out + PairText(p)
  {
    hide EncodeField;
  }

  lemma FirstKept(ps: seq<Pair>, p: Pair)
    requires ps != []
    ensures (ps + [p])[1..] == ps[1..] + [p] && (ps + [p])[0] == ps[0]
  {
  }

  lemma {:induction false} SerializeMore(ps: seq<Pair>, p: Pair)
    requires AllBytes(ps) && IsBytes(p.key) && IsBytes(p.value)
    ensures Serialize(ps + [p]) == Serialize(ps) + (if ps == [] then "" else "&") + PairText(p)
  {
    hide PairText, IsBytes;
    if ps == [] {
      assert ps + [p] == [p];
    } else {
      FirstKept(ps, p);
      SerializeMore(ps[1..], p);
      SerializeNothing();
      var first, rest := PairText(ps[0]), Serialize(ps[1..]);
      var last := (if |ps| == 1 then "" else "&") + PairText(p);
      assert Serialize(ps) == first + if |ps| == 1 then "" else "&" + rest;
      assert Serialize(ps + [p]) == first + ("&" + Serialize(ps[1..] + [p]));
      hide Serialize;
    }
  }

  // Writing and reading again.

  lemma {:induction false} FormEncodedAvoids(s: string)
    requires IsBytes(s)
    ensures forall k | 0 <= k < |Encode(WWW_FORM, s)| :: Encode(WWW_FORM, s)[k] !in "+&=?"
  {
    hide BitAt;
    if s != "" {
      FormEncodedAvoids(s[1..]);
      FormTableMeetsTheStandard(s[0]);
    }
  }

  lemma FieldAvoids(s: string)
    requires IsBytes(s)
    ensures forall k | 0 <= k < |EncodeField(s)| :: EncodeField(s)[k] !in "&=?"
  {
    FormEncodedAvoids(s);
  }

  /** Nothing is lost in a key or a value, whatever bytes it is made of. */
  lemma FieldRoundTrip(s: string)
    requires IsBytes(s)
    ensures DecodeField(EncodeField(s)) == s
  {
    hide BitAt, Encode, Decode;
    FormEncodedAvoids(s);
    assert ReplaceAll(EncodeField(s), '+', ' ') == Encode(WWW_FORM, s);
    FormTableMeetsTheStandard('%');
    DecodeEncode(WWW_FORM, s);
  }

  lemma FindFirst(a: string, c: char, b: string)
    requires forall k | 0 <= k < |a| :: a[k] != c
    ensures Find(a, c) == |a|
    ensures Find(a + [c] + b, c) == |a|
  {
    var s := a + [c] + b;
    assert s[|a|] == c;
    assert forall k | 0 <= k < |a| :: s[k] == a[k];
  }

  lemma PairRoundTrip(p: Pair)
    requires IsBytes(p.key) && IsBytes(p.value)
    ensures KeyValue(PairText(p)) == p
    ensures PairText(p) != "" && PairText(p)[0] != '?'
    ensures forall k | 0 <= k < |PairText(p)| :: PairText(p)[k] != '&'
  {
    hide EncodeField, DecodeField;
    var key, value := EncodeField(p.key), EncodeField(p.value);
    FieldAvoids(p.key);
    FieldAvoids(p.value);
    FieldRoundTrip(p.key);
    FieldRoundTrip(p.value);
    FindFirst(key, '=', value);
    var text := PairText(p);
    assert text[..|key|] == key && text[|key| + 1..] == value;
  }

  lemma ParsePiece(text: string, rest: string)
    requires text != "" && forall k | 0 <= k < |text| :: text[k] != '&'
    ensures Parse(text) == [KeyValue(text)]
    ensures Parse(text + "&" + rest) == [KeyValue(text)] + Parse(rest)
  {
    hide KeyValue, Find;
    FindFirst(text, '&', rest);
    var s := text + "&" + rest;
    assert s[..|text|] == text && s[|text| + 1..] == rest;
  }

  lemma {:induction false} ParseSerialize(ps: seq<Pair>)
    requires AllBytes(ps)
    ensures Parse(Serialize(ps)) == ps
    ensures !StartsWith(Serialize(ps), "?")
  {
    hide PairText, KeyValue, Parse;
    if ps == [] {
      assert Parse("") == [] by {
        ParseNothing();
      }
    } else {
      var text := PairText(ps[0]);
      PairRoundTrip(ps[0]);
      if |ps| == 1 {
        ParsePiece(text, "");
        assert Serialize(ps) == text;
      } else {
        var rest := Serialize(ps[1..]);
        ParseSerialize(ps[1..]);
        ParsePiece(text, rest);
        assert Serialize(ps) == text + ("&" + rest) == text + "&" + rest;
      }
      assert Serialize(ps)[0] == text[0];
    }
  }

  lemma ParseNothing()
    ensures Parse("") == []
  {
  }

  /** Reading back what was written gives the same list: empty keys, pluses, ampersands, equals signs,
      percent signs and leading question marks included. */
  lemma RoundTrip(ps: seq<Pair>)
    requires AllBytes(ps)
    ensures Parse(WithoutQuestionMark(Serialize(ps))) == ps
  {
    ParseSerialize(ps);
  }

  lemma {:induction false} DecodeBytes(s: string)
    requires IsBytes(s)
    ensures IsBytes(Decode(s))
    decreases |s|
  {
    if s != "" {
      if StartsWithEscape(s) {
        DecodeBytes(s[3..]);
      } else {
        DecodeBytes(s[1..]);
      }
    }
  }

  lemma {:induction false} ParsedAreBytes(input: string)
    requires IsBytes(input)
    ensures AllBytes(Parse(input))
    decreases |input|
  {
    hide Decode, KeyValue;
    if input != "" {
      var n := Find(input, '&');
      KeyValueBytes(input[..n]);
      if n < |input| {
        ParsedAreBytes(input[n + 1..]);
      } else {
        assert input[..n] == input;
      }
    }
  }

  lemma KeyValueBytes(current: string)
    requires IsBytes(current)
    ensures IsBytes(KeyValue(current).key) && IsBytes(KeyValue(current).value)
  {
    hide Decode;
    var equal := Find(current, '=');
    DecodeBytes(ReplaceAll(current, '+', ' '));
    DecodeBytes(ReplaceAll(current[..equal], '+', ' '));
    if equal < |current| {
      DecodeBytes(ReplaceAll(current[equal + 1..], '+', ' '));
    }
  }

  /** Writing what was read from any query settles the text: reading and writing once more changes nothing. */
  lemma ReserializeIdempotent(input: string)
    requires IsBytes(input)
    ensures AllBytes(Parse(input))
    ensures var once := Serialize(Parse(input));
      AllBytes(Parse(WithoutQuestionMark(once))) && Serialize(Parse(WithoutQuestionMark(once))) == once
  {
    ParsedAreBytes(input);
    RoundTrip(Parse(input));
  }

  // Reading what others wrote.

  lemma WithoutAmpersand(a: string)
    requires Find(a, '&') == |a|
    ensures Parse(a) == if a == "" then [] else [KeyValue(a)]
  {
    hide KeyValue;
  }

  /** Pieces between ampersands are read one by one. */
  lemma {:induction false} ParseSplit(a: string, b: string)
    ensures Parse(a + "&" + b) == Parse(a) + Parse(b)
    decreases |a|
  {
    hide KeyValue, Parse, Find;
    var s, n := a + "&" + b, Find(a, '&');
    if n == |a| {
      FindFirst(a, '&', b);
      assert s[..n] == a && s[n + 1..] == b;
      WithoutAmpersand(a);
      ParseStep([], s, n);
      assert [] + Parse(s) == Parse(s) && [] + [KeyValue(a)] == [KeyValue(a)];
    } else {
      var behind := a[n + 1..];
      FindFirst(a[..n], '&', behind + "&" + b);
      assert s == a[..n] + "&" + (behind + "&" + b);
      assert s[..n] == a[..n] && s[n + 1..] == behind + "&" + b;
      ParseSplit(behind, b);
      ParseStep([], s, n);
      ParseStep([], a, n);
      assert [] + Parse(s) == Parse(s) && [] + Parse(a) == Parse(a);
    }
  }

  /** One question mark in front is not part of the query. */
  lemma QuestionMarkIsDropped(s: string)
    ensures WithoutQuestionMark("?" + s) == s
    ensures (s == "" || s[0] != '?') ==> WithoutQuestionMark(s) == s
  {
    assert ("?" + s)[1..] == s && ("?" + s)[..1] == "?";
  }

  /** A piece is a key up to its first equals sign, and behind that a value, which may have more of them. */
  lemma PieceIsRead(key: string, value: string)
    requires '=' !in key
    ensures KeyValue(key) == Pair(DecodeField(key), "")
    ensures KeyValue(key + "=" + value) == Pair(DecodeField(key), DecodeField(value))
  {
    hide DecodeField;
    FindFirst(key, '=', value);
    var s := key + "=" + value;
    assert s[..|key|] == key && s[|key| + 1..] == value;
  }

  /** A byte is written as itself, as a plus for a space, or as an escape with digits of either case. */
  predicate SpellsByte(t: string, c: char) {
    || (t == [c] && c != '%' && c != '+')
    || (t == "+" && c == ' ')
    || SpellsEscape(t, c)
  }

  ghost predicate Spells(t: string, s: string)
    decreases |s|
  {
    if s == "" then t == ""
    else exists n :: 0 <= n <= |t| && SpellsByte(t[..n], s[0]) && Spells(t[n..], s[1..])
  }

  lemma ByteIsRead(t: string, c: char, rest: string)
    requires SpellsByte(t, c)
    ensures Decode(ReplaceAll(t, '+', ' ') + rest) == [c] + Decode(rest)
  {
    hide ReplaceAll;
    var r := ReplaceAll(t, '+', ' ');
    if SpellsEscape(t, c) {
      DigitIsRead(t[1], c as int / 16);
      DigitIsRead(t[2], c as int % 16);
      assert r == t;
      EscapeIsRead(t, c, rest);
    } else {
      assert r == [c];
      OtherBytesAreKept(c, rest);
    }
  }

  /** Keys and values are read from every spelling of their bytes. */
  lemma {:induction false} FieldIsRead(t: string, s: string)
    requires Spells(t, s)
    ensures DecodeField(t) == s
    decreases |s|
  {
    hide Decode, SpellsByte, ReplaceAll;
    if s == "" {
      NothingIsRead();
    } else {
      var n :| 0 <= n <= |t| && SpellsByte(t[..n], s[0]) && Spells(t[n..], s[1..]);
      FieldIsRead(t[n..], s[1..]);
      ByteIsRead(t[..n], s[0], ReplaceAll(t[n..], '+', ' '));
      ReplacedInTwo(t, n);
    }
  }

  lemma ReplacedInTwo(t: string, n: nat)
    requires n <= |t|
    ensures ReplaceAll(t, '+', ' ') == ReplaceAll(t[..n], '+', ' ') + ReplaceAll(t[n..], '+', ' ')
  {
    hide ReplaceAll;
  }

  lemma NothingIsRead()
    ensures DecodeField("") == ""
  {
  }

  /** A pair as text: its key and value, spelled in some way without separators in them. */
  datatype PairSpelling = PairSpelling(key: string, value: string)

  ghost predicate SpellsPair(t: PairSpelling, p: Pair) {
    && Spells(t.key, p.key) && '&' !in t.key && '=' !in t.key
    && Spells(t.value, p.value) && '&' !in t.value
  }

  function Written(ts: seq<PairSpelling>): string {
    if ts == [] then ""
    else if |ts| == 1 then ts[0].key + "=" + ts[0].value
    else ts[0].key + "=" + ts[0].value + "&" + Written(ts[1..])
  }

  /** However the pairs are spelled, they are read. */
  lemma {:induction false} EveryWritingIsRead(ts: seq<PairSpelling>, ps: seq<Pair>)
    requires |ts| == |ps| && forall k | 0 <= k < |ts| :: SpellsPair(ts[k], ps[k])
    ensures Parse(Written(ts)) == ps
    decreases |ts|
  {
    hide Parse, KeyValue, Spells, DecodeField;
    if ts == [] {
      ParseNothing();
    } else {
      var t := ts[0].key + "=" + ts[0].value;
      assert SpellsPair(ts[0], ps[0]);
      PieceIsRead(ts[0].key, ts[0].value);
      FieldIsRead(ts[0].key, ps[0].key);
      FieldIsRead(ts[0].value, ps[0].value);
      ParsePiece(t, "");
      if |ts| > 1 {
        EveryWritingIsRead(ts[1..], ps[1..]);
        ParseSplit(t, Written(ts[1..]));
      }
    }
  }
}
