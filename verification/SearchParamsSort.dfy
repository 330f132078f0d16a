/** The order in which `url_search_params::sort` puts its pairs. */
module SearchParamsSort {
  import opened Unicode

  /** A key is the UTF-8 encoding of some text. */
  ghost predicate ValidUtf8(key: string) {
    exists vs: seq<Scalar> :: key == Utf8All(vs)
  }

  ghost function ScalarsOf(key: string): (vs: seq<Scalar>)
    requires ValidUtf8(key)
    ensures key == Utf8All(vs)
  {
    var vs: seq<Scalar> :| key == Utf8All(vs);
    vs
  }

  ghost function Utf16Of(key: string): seq<int>
    requires ValidUtf8(key)
  {
    Utf16All(ScalarsOf(key))
  }

  /** The code units still to be compared: a low surrogate that is waiting, then the scalars from `a` on. */
  ghost function Remaining(vs: seq<Scalar>, a: nat, lowSurrogate: int): seq<int>
    requires a <= |vs|
  {
    (if lowSurrogate != 0 then [lowSurrogate] else []) + Utf16All(vs[a..])
  }

  /** A byte of the key as a number. */
  function ByteAt(key: string, i: nat): int
    requires i < |key|
  {
    key[i] as int
  }

  /** One half of the comparator's loop body: the next code unit of a key. Bit masks and shifts of the
      bytes are written as remainders and multiples of powers of two. */
  method NextUnit(key: string, i: nat, lowSurrogate: int, ghost vs: seq<Scalar>, ghost a: nat)
    returns (unit: int, next: nat, low: int, ghost b: nat)
    requires key == Utf8All(vs) && a <= |vs| && i == |Utf8All(vs[..a])|
    requires i < |key| || lowSurrogate != 0
    ensures a <= b <= |vs| && next == |Utf8All(vs[..b])| <= |key|
    ensures Remaining(vs, a, lowSurrogate) == [unit] + Remaining(vs, b, low)
    ensures i < next || (i == next && lowSurrogate != 0 && low == 0)
  {
    hide Utf8, Utf8All, Utf16All;
    low := 0;
    next := i;
    b := a;
    if lowSurrogate != 0 {
      unit := lowSurrogate;
      Utf8Prefix(vs, a);
      assert [lowSurrogate] + Utf16All(vs[a..]) == [unit] + ([] + Utf16All(vs[a..]));
    } else {
      KeyAt(vs, a);
      Utf8Decodes(vs[a]);
      b := a + 1;
      ghost var bytes := Bytes(vs[a]);
      var c := ByteAt(key, i);
      if c <= 0x7F {
        unit := c;
        next := i + 1;
      } else if c <= 0xDF {
        unit := (c % 0x20) * 0x40 + ByteAt(key, i + 1) % 0x40;
        next := i + 2;
      } else if c <= 0xEF {
        unit := (c % 0x10) * 0x1000 + (ByteAt(key, i + 1) % 0x40) * 0x40 + ByteAt(key, i + 2) % 0x40;
        next := i + 3;
      } else {
        unit := (c % 0x8) * 0x4_0000 + (ByteAt(key, i + 1) % 0x40) * 0x1000
          + (ByteAt(key, i + 2) % 0x40) * 0x40 + ByteAt(key, i + 3) % 0x40;
        next := i + 4;
        unit := unit - 0x1_0000;
        var highSurrogate := 0xD800 + unit / 0x400;
        low := 0xDC00 + unit % 0x400;
        unit := highSurrogate;
      }
      assert Utf16(vs[a]) == [unit] + (if low != 0 then [low] else []);
      assert Utf16(vs[a]) + Utf16All(vs[b..]) == [unit] + Remaining(vs, b, low);
      assert Remaining(vs, a, lowSurrogate) == Utf16All(vs[a..]);
    }
  }

  lemma Utf8Prefix(vs: seq<Scalar>, a: nat)
    requires a <= |vs|
    ensures |Utf8All(vs[..a])| <= |Utf8All(vs)|
    ensures |Utf8All(vs[..a])| == |Utf8All(vs)| <==> a == |vs|
  {
    hide Utf8;
    assert vs == vs[..a] + vs[a..];
    Utf8AllSplit(vs[..a], vs[a..]);
  }

  /** What lies in a key where scalar `a` starts. */
  lemma KeyAt(vs: seq<Scalar>, a: nat)
    requires a <= |vs| && |Utf8All(vs[..a])| < |Utf8All(vs)|
    ensures a < |vs|
    ensures var key, i, bytes := Utf8All(vs), |Utf8All(vs[..a])|, Utf8(vs[a]);
      && |Utf8All(vs[..a + 1])| == i + |bytes| <= |key|
      && forall k | 0 <= k < |bytes| :: key[i + k] == bytes[k]
    ensures Utf16All(vs[a..]) == Utf16(vs[a]) + Utf16All(vs[a + 1..])
  {
    hide Utf8, Utf8All;
    Utf8Prefix(vs, a);
    Utf8At(vs, a);
    assert vs[a..][1..] == vs[a + 1..];
  }

  /** The comparator that `sort` passes to the standard library: it decodes both keys side by side and
      compares their UTF-16 code units, keeping a low surrogate back for the next round. */
  method Utf16Less(lhs: string, rhs: string) returns (less: bool)
    requires ValidUtf8(lhs) && ValidUtf8(rhs)
    ensures less == LexLess(Utf16Of(lhs), Utf16Of(rhs))
  {
    hide Utf8, Utf8All, Utf16All;
    ghost var vs, ws := ScalarsOf(lhs), ScalarsOf(rhs);
    var i, j := 0, 0;
    var lowSurrogate1, lowSurrogate2 := 0, 0;
    ghost var a, b := 0, 0;
    AllRemaining(vs);
    AllRemaining(ws);
    while (i < |lhs| || lowSurrogate1 != 0) && (j < |rhs| || lowSurrogate2 != 0)
      invariant a <= |vs| && i == |Utf8All(vs[..a])| <= |lhs|
      invariant b <= |ws| && j == |Utf8All(ws[..b])| <= |rhs|
      invariant LexLess(Utf16All(vs), Utf16All(ws))
        <==> LexLess(Remaining(vs, a, lowSurrogate1), Remaining(ws, b, lowSurrogate2))
      decreases |lhs| - i, lowSurrogate1 != 0
    {
      ghost var r, q := Remaining(vs, a, lowSurrogate1), Remaining(ws, b, lowSurrogate2);
      var codeUnit1, codeUnit2;
      codeUnit1, i, lowSurrogate1, a := NextUnit(lhs, i, lowSurrogate1, vs, a);
      codeUnit2, j, lowSurrogate2, b := NextUnit(rhs, j, lowSurrogate2, ws, b);
      LexStep(codeUnit1, Remaining(vs, a, lowSurrogate1), codeUnit2, Remaining(ws, b, lowSurrogate2));
      if codeUnit1 != codeUnit2 {
        return codeUnit1 < codeUnit2;
      }
    }
    NothingRemains(vs, a, lowSurrogate1);
    NothingRemains(ws, b, lowSurrogate2);
    return j < |rhs| || lowSurrogate2 != 0;
  }

  lemma AllRemaining(vs: seq<Scalar>)
    ensures Utf8All(vs[..0]) == "" && Remaining(vs, 0, 0) == Utf16All(vs)
  {
    assert vs[..0] == [] && vs[0..] == vs;
  }

  /** No unit remains exactly when the key is used up and no surrogate is waiting. */
  lemma NothingRemains(vs: seq<Scalar>, a: nat, lowSurrogate: int)
    requires a <= |vs|
    ensures Remaining(vs, a, lowSurrogate) == [] <==> |Utf8All(vs[..a])| == |Utf8All(vs)| && lowSurrogate == 0
  {
    Utf8Prefix(vs, a);
  }

  lemma LexStep(x: int, a: seq<int>, y: int, b: seq<int>)
    ensures LexLess([x] + a, [y] + b) <==> x < y || (x == y && LexLess(a, b))
  {
    assert ([x] + a)[1..] == a && ([y] + b)[1..] == b;
  }

  // The order on keys.

  ghost predicate KeyLess(a: string, b: string)
    requires ValidUtf8(a) && ValidUtf8(b)
  {
    LexLess(Utf16Of(a), Utf16Of(b))
  }

  /** The comparator is a strict total order: it is transitive, and keys that it does not tell apart are equal. */
  lemma KeyOrder(a: string, b: string, c: string)
    requires ValidUtf8(a) && ValidUtf8(b) && ValidUtf8(c)
    ensures !KeyLess(a, a)
    ensures KeyLess(a, b) ==> !KeyLess(b, a)
    ensures KeyLess(a, b) && KeyLess(b, c) ==> KeyLess(a, c)
    ensures !KeyLess(a, b) && !KeyLess(b, a) ==> a == b
  {
    var x, y, z := Utf16Of(a), Utf16Of(b), Utf16Of(c);
    LexIrreflexive(x);
    LexTotal(x, y);
    if LexLess(x, y) {
      if LexLess(y, x) {
        LexTransitive(x, y, x);
      }
      if LexLess(y, z) {
        LexTransitive(x, y, z);
      }
    }
    if x == y {
      Utf16Injective(ScalarsOf(a), ScalarsOf(b));
    }
  }

  // Sorting pairs by key.

  datatype Pair = Pair(key: string, value: string)

  ghost predicate ValidKeys(ps: seq<Pair>) {
    forall k | 0 <= k < |ps| :: ValidUtf8(ps[k].key)
  }

  ghost predicate Sorted(ps: seq<Pair>)
    requires ValidKeys(ps)
  {
    forall i, j | 0 <= i < j < |ps| :: !KeyLess(ps[j].key, ps[i].key)
  }

  /** The pairs with one key, in their order. */
  function WithKey(ps: seq<Pair>, key: string): seq<Pair> {
    if ps == [] then []
    else (if ps[0].key == key then [ps[0]] else []) + WithKey(ps[1..], key)
  }

  ghost predicate SameForEveryKey(ps: seq<Pair>, qs: seq<Pair>) {
    forall key :: WithKey(ps, key) == WithKey(qs, key)
  }

  function FirstIf(p: Pair, key: string): seq<Pair> {
    if p.key == key then [p] else []
  }

  lemma WithKeyStep(p: Pair, ps: seq<Pair>, key: string)
    ensures WithKey([p] + ps, key) == FirstIf(p, key) + WithKey(ps, key)
  {
    assert ([p] + ps)[1..] == ps;
  }

  lemma {:induction false} WithKeySplit(ps: seq<Pair>, qs: seq<Pair>, key: string)
    ensures WithKey(ps + qs, key) == WithKey(ps, key) + WithKey(qs, key)
  {
    hide WithKey, FirstIf;
    if ps == [] {
      assert ps + qs == qs;
      assert WithKey(ps, key) == [] by {
        WithKeyEmpty(key);
      }
    } else {
      var p, rest := ps[0], ps[1..];
      WithKeySplit(rest, qs, key);
      WithKeyStep(p, rest, key);
      WithKeyStep(p, rest + qs, key);
      assert ps == [p] + rest && ps + qs == [p] + (rest + qs);
    }
  }

  lemma WithKeyEmpty(key: string)
    ensures WithKey([], key) == []
  {
  }

  lemma {:induction false} WithKeyMember(ps: seq<Pair>, key: string)
    ensures WithKey(ps, key) != [] <==> exists k :: 0 <= k < |ps| && ps[k].key == key
  {
    if ps != [] {
      WithKeyMember(ps[1..], key);
      assert forall k | 0 < k < |ps| :: ps[k] == ps[1..][k - 1];
    }
  }

  /** A key that occurs in a sorted list is not below its first key. */
  lemma FirstIsLeast(ps: seq<Pair>, key: string)
    requires ps != [] && ValidKeys(ps) && Sorted(ps) && WithKey(ps, key) != []
    ensures ValidUtf8(key) && !KeyLess(key, ps[0].key)
  {
    WithKeyMember(ps, key);
    var k :| 0 <= k < |ps| && ps[k].key == key;
    KeyOrder(key, key, key);
  }

  lemma BothEmpty(ps: seq<Pair>, qs: seq<Pair>)
    requires SameForEveryKey(ps, qs)
    ensures ps == [] <==> qs == []
  {
    assert ps != [] ==> WithKey(ps, ps[0].key) != [];
    assert qs != [] ==> WithKey(qs, qs[0].key) != [];
  }

  /** Sorting so that equal keys keep their order has only one result. */
  lemma {:induction false} StableSortUnique(ps: seq<Pair>, qs: seq<Pair>)
    requires ValidKeys(ps) && ValidKeys(qs) && Sorted(ps) && Sorted(qs)
    requires SameForEveryKey(ps, qs)
    ensures ps == qs
  {
    BothEmpty(ps, qs);
    if ps != [] {
      var x, y := ps[0].key, qs[0].key;
      assert WithKey(ps, x) != [] && WithKey(ps, x)[0] == ps[0] && WithKey(qs, x) == WithKey(ps, x);
      assert WithKey(qs, y) != [] && WithKey(qs, y)[0] == qs[0] && WithKey(ps, y) == WithKey(qs, y);
      FirstIsLeast(ps, y);
      FirstIsLeast(qs, x);
      KeyOrder(x, y, y);
      forall key ensures WithKey(ps[1..], key) == WithKey(qs[1..], key) {
        assert WithKey(ps, key) == WithKey(qs, key);
        TailWithKey(ps, key);
        TailWithKey(qs, key);
      }
      StableSortUnique(ps[1..], qs[1..]);
      assert ps == [ps[0]] + ps[1..] && qs == [qs[0]] + qs[1..];
    }
  }

  lemma TailWithKey(ps: seq<Pair>, key: string)
    requires ps != []
    ensures WithKey(ps[1..], key) == if ps[0].key == key then WithKey(ps, key)[1..] else WithKey(ps, key)
  {
  }

  /** Inserts behind the last pair whose key is not above the new one. */
  method InsertPair(ps: seq<Pair>, x: Pair) returns (qs: seq<Pair>)
    requires ValidKeys(ps) && ValidUtf8(x.key) && Sorted(ps)
    ensures ValidKeys(qs) && Sorted(qs)
    ensures multiset(qs) == multiset(ps + [x])
    ensures SameForEveryKey(ps + [x], qs)
  {
    hide LexLess, Utf16Of, ValidUtf8, WithKey;
    var n := |ps|;
    while n > 0
      invariant 0 <= n <= |ps|
      invariant forall k | n <= k < |ps| :: KeyLess(x.key, ps[k].key)
    {
      var less := Utf16Less(x.key, ps[n - 1].key);
      if !less {
        break;
      }
      n := n - 1;
    }
    qs := ps[..n] + [x] + ps[n..];
    InsertedMultiset(ps, x, n);
    InsertedSorted(ps, x, n);
    forall key ensures WithKey(ps + [x], key) == WithKey(qs, key) {
      InsertedWithKey(ps, x, n, key);
    }
  }

  lemma InsertedMultiset(ps: seq<Pair>, x: Pair, n: nat)
    requires n <= |ps|
    ensures multiset(ps[..n] + [x] + ps[n..]) == multiset(ps + [x])
  {
    assert ps == ps[..n] + ps[n..];
  }

  lemma InsertedSorted(ps: seq<Pair>, x: Pair, n: nat)
    requires ValidKeys(ps) && ValidUtf8(x.key) && Sorted(ps) && n <= |ps|
    requires forall k | n <= k < |ps| :: KeyLess(x.key, ps[k].key)
    requires n > 0 ==> !KeyLess(x.key, ps[n - 1].key)
    ensures ValidKeys(ps[..n] + [x] + ps[n..]) && Sorted(ps[..n] + [x] + ps[n..])
  {
    hide LexLess, Utf16Of, ValidUtf8;
    var qs := ps[..n] + [x] + ps[n..];
    assert forall k | 0 <= k < |qs| :: qs[k] == if k < n then ps[k] else if k == n then x else ps[k - 1];
    forall i, j | 0 <= i < j < |qs| ensures !KeyLess(qs[j].key, qs[i].key) {
      if j == n && i < n - 1 {
        KeyOrder(x.key, ps[i].key, ps[n - 1].key);
        KeyOrder(ps[i].key, ps[n - 1].key, x.key);
        KeyOrder(x.key, ps[i].key, ps[n - 1].key);
        NotBelow(x.key, ps[n - 1].key, ps[i].key);
      } else if i == n {
        KeyOrder(x.key, qs[j].key, x.key);
      }
    }
  }

  lemma NotBelow(a: string, b: string, c: string)
    requires ValidUtf8(a) && ValidUtf8(b) && ValidUtf8(c)
    requires !KeyLess(a, b) && !KeyLess(b, c)
    ensures !KeyLess(a, c)
  {
    hide LexLess, Utf16Of, ValidUtf8;
    KeyOrder(a, b, c);
    KeyOrder(b, a, c);
    KeyOrder(a, c, b);
    KeyOrder(b, c, a);
  }

  lemma InsertedWithKey(ps: seq<Pair>, x: Pair, n: nat, key: string)
    requires ValidKeys(ps) && ValidUtf8(x.key) && n <= |ps|
    requires forall k | n <= k < |ps| :: KeyLess(x.key, ps[k].key)
    ensures WithKey(ps + [x], key) == WithKey(ps[..n] + [x] + ps[n..], key)
  {
    hide LexLess, Utf16Of, ValidUtf8;
    assert ps + [x] == ps[..n] + (ps[n..] + [x]);
    assert ps[..n] + [x] + ps[n..] == ps[..n] + ([x] + ps[n..]);
    WithKeySplit(ps[..n], ps[n..] + [x], key);
    WithKeySplit(ps[..n], [x] + ps[n..], key);
    WithKeySplit(ps[n..], [x], key);
    WithKeySplit([x], ps[n..], key);
    if x.key == key {
      AboveHasNone(ps[n..], x.key);
    } else {
      assert WithKey([x], key) == [];
    }
  }

  lemma AboveHasNone(ps: seq<Pair>, key: string)
    requires ValidKeys(ps) && ValidUtf8(key)
    requires forall k | 0 <= k < |ps| :: KeyLess(key, ps[k].key)
    ensures WithKey(ps, key) == []
  {
    hide LexLess, Utf16Of, ValidUtf8;
    WithKeyMember(ps, key);
    KeyOrder(key, key, key);
  }

  /** A stable sort with the comparator above. */
  method StableSort(ps: seq<Pair>) returns (qs: seq<Pair>)
    requires ValidKeys(ps)
    ensures ValidKeys(qs) && Sorted(qs)
    ensures multiset(qs) == multiset(ps)
    ensures SameForEveryKey(ps, qs)
  {
    hide LexLess, Utf16Of, ValidUtf8, WithKey;
    qs := [];
    for n := 0 to |ps|
      invariant ValidKeys(qs) && Sorted(qs)
      invariant multiset(qs) == multiset(ps[..n])
      invariant SameForEveryKey(ps[..n], qs)
    {
      ghost var before := qs;
      qs := InsertPair(qs, ps[n]);
      assert ps[..n + 1] == ps[..n] + [ps[n]];
      forall key ensures WithKey(ps[..n + 1], key) == WithKey(qs, key) {
        WithKeySplit(ps[..n], [ps[n]], key);
        WithKeySplit(before, [ps[n]], key);
        assert WithKey(ps[..n], key) == WithKey(before, key);
        assert WithKey(before + [ps[n]], key) == WithKey(qs, key);
      }
    }
    assert ps[..|ps|] == ps;
  }
}
