/** UTF-8 (section 3 of RFC 3629) and UTF-16 (section 2.1 of RFC 2781) encodings of scalar values. */
module Unicode {

  type Scalar = v: int | 0 <= v <= 0x10FFFF && !(0xD800 <= v <= 0xDFFF)

  function Utf8(v: Scalar): (s: string)
    ensures s != ""
  {
    if v < 0x80 then [v as char]
    else if v < 0x800 then [(0xC0 + v / 0x40) as char, (0x80 + v % 0x40) as char]
    else if v < 0x1_0000 then
      [(0xE0 + v / 0x1000) as char, (0x80 + v / 0x40 % 0x40) as char, (0x80 + v % 0x40) as char]
    else
      [(0xF0 + v / 0x4_0000) as char, (0x80 + v / 0x1000 % 0x40) as char,
       (0x80 + v / 0x40 % 0x40) as char, (0x80 + v % 0x40) as char]
  }

  function Utf16(v: Scalar): (units: seq<int>)
    ensures units != []
  {
    if v < 0x1_0000 then [v]
    else [0xD800 + (v - 0x1_0000) / 0x400, 0xDC00 + (v - 0x1_0000) % 0x400]
  }

  function Utf8All(vs: seq<Scalar>): string {
    if vs == [] then "" else Utf8(vs[0]) + Utf8All(vs[1..])
  }

  function Utf16All(vs: seq<Scalar>): seq<int> {
    if vs == [] then [] else Utf16(vs[0]) + Utf16All(vs[1..])
  }

  /** Lexicographic order of code units. */
  predicate LexLess(a: seq<int>, b: seq<int>) {
    b != [] && (a == [] || a[0] < b[0] || (a[0] == b[0] && LexLess(a[1..], b[1..])))
  }

  lemma {:induction false} Utf8AllSplit(vs: seq<Scalar>, ws: seq<Scalar>)
    ensures Utf8All(vs + ws) == Utf8All(vs) + Utf8All(ws)
  {
    if vs == [] {
      assert vs + ws == ws;
    } else {
      assert (vs + ws)[1..] == vs[1..] + ws;
      Utf8AllSplit(vs[1..], ws);
    }
  }

  lemma Utf8AllOne(v: Scalar)
    ensures Utf8All([v]) == Utf8(v)
  {
    hide Utf8;
    assert [v][1..] == [];
    assert Utf8(v) + "" == Utf8(v);
  }

  lemma Utf8Next(vs: seq<Scalar>, a: nat)
    requires a < |vs|
    ensures Utf8All(vs[..a + 1]) == Utf8All(vs[..a]) + Utf8(vs[a])
  {
    hide Utf8All, Utf8;
    Utf8AllSplit(vs[..a], [vs[a]]);
    Utf8AllOne(vs[a]);
    assert vs[..a + 1] == vs[..a] + [vs[a]];
  }

  /** The encoding of a text ahead of scalar `a` is a prefix, followed by the encoding of that scalar. */
  lemma Utf8At(vs: seq<Scalar>, a: nat)
    requires a < |vs|
    ensures Utf8All(vs) == Utf8All(vs[..a]) + Utf8(vs[a]) + Utf8All(vs[a + 1..])
    ensures |Utf8All(vs[..a + 1])| == |Utf8All(vs[..a])| + |Utf8(vs[a])|
  {
    hide Utf8All, Utf8;
    Utf8Next(vs, a);
    Utf8AllSplit(vs[..a + 1], vs[a + 1..]);
    assert vs == vs[..a + 1] + vs[a + 1..];
  }

  /** A number is put together again from its groups of six bits. */
  lemma SixBitGroups(v: nat)
    ensures v == (v / 0x40) * 0x40 + v % 0x40
    ensures v == (v / 0x1000) * 0x1000 + (v / 0x40 % 0x40) * 0x40 + v % 0x40
    ensures v == (v / 0x4_0000) * 0x4_0000 + (v / 0x1000 % 0x40) * 0x1000 + (v / 0x40 % 0x40) * 0x40 + v % 0x40
  {
    assert v / 0x1000 == v / 0x40 / 0x40 && v / 0x4_0000 == v / 0x1000 / 0x40;
  }

  /** The bytes of an encoding as numbers. */
  function Bytes(v: Scalar): (bs: seq<int>)
    ensures |bs| == |Utf8(v)|
    ensures forall k | 0 <= k < |bs| :: bs[k] == Utf8(v)[k] as int && 0 <= bs[k] < 256
  {
    seq(|Utf8(v)|, k requires 0 <= k < |Utf8(v)| => Utf8(v)[k] as int)
  }

  /** The value that the bits of the bytes are put together to. */
  function Decoded(s: seq<int>): int
    requires 1 <= |s| <= 4
  {
    if |s| == 1 then s[0]
    else if |s| == 2 then (s[0] % 0x20) * 0x40 + s[1] % 0x40
    else if |s| == 3 then (s[0] % 0x10) * 0x1000 + (s[1] % 0x40) * 0x40 + s[2] % 0x40
    else (s[0] % 0x8) * 0x4_0000 + (s[1] % 0x40) * 0x1000 + (s[2] % 0x40) * 0x40 + s[3] % 0x40
  }

  lemma ShortDecodes(v: Scalar)
    requires v < 0x800
    ensures |Bytes(v)| <= 2 && Decoded(Bytes(v)) == v
  {
    if v >= 0x80 {
      SixBitGroups(v);
      LeadByte(v / 0x40, 0x20, 0xC0);
      TrailByte(v % 0x40);
    }
  }

  lemma LongDecodes(v: Scalar)
    requires 0x800 <= v < 0x1_0000
    ensures |Bytes(v)| == 3 && Decoded(Bytes(v)) == v
  {
    SixBitGroups(v);
    LeadByte(v / 0x1000, 0x10, 0xE0);
    TrailByte(v / 0x40 % 0x40);
    TrailByte(v % 0x40);
  }

  lemma LongestDecodes(v: Scalar)
    requires 0x1_0000 <= v
    ensures |Bytes(v)| == 4 && Decoded(Bytes(v)) == v
  {
    SixBitGroups(v);
    LeadByte(v / 0x4_0000, 0x8, 0xF0);
    TrailByte(v / 0x1000 % 0x40);
    TrailByte(v / 0x40 % 0x40);
    TrailByte(v % 0x40);
  }

  /** A character outside of the first plane is two surrogates, which hold twenty bits. */
  lemma Utf16Decodes(v: Scalar)
    ensures var units := Utf16(v);
      if v < 0x1_0000 then units == [v]
      else
        && |units| == 2 && 0xD800 <= units[0] <= 0xDBFF && 0xDC00 <= units[1] <= 0xDFFF
        && v == 0x1_0000 + (units[0] - 0xD800) * 0x400 + (units[1] - 0xDC00)
  {
  }

  /** What the first byte says about the length, and how the bits are put together again. */
  lemma Utf8Decodes(v: Scalar)
    ensures var s := Bytes(v);
      && 1 <= |s| <= 4
      && (s[0] <= 0x7F <==> |s| == 1)
      && (0x7F < s[0] <= 0xDF <==> |s| == 2)
      && (0xDF < s[0] <= 0xEF <==> |s| == 3)
      && (0xEF < s[0] <==> |s| == 4)
      && (|s| == 4 <==> v >= 0x1_0000)
      && Decoded(s) == v
  {
    hide Decoded;
    if v < 0x800 {
      ShortDecodes(v);
    } else if v < 0x1_0000 {
      LongDecodes(v);
    } else {
      LongestDecodes(v);
    }
  }

  lemma TrailByte(x: int)
    requires 0 <= x < 0x40
    ensures (0x80 + x) % 0x40 == x
  {
  }

  lemma LeadByte(x: int, size: int, base: int)
    requires (size == 0x20 && base == 0xC0) || (size == 0x10 && base == 0xE0) || (size == 0x8 && base == 0xF0)
    requires 0 <= x < size
    ensures (base + x) % size == x
  {
  }

  /** No code unit sequence is the start of two different scalars. */
  lemma Utf16Prefix(v: Scalar, w: Scalar, a: seq<int>, b: seq<int>)
    requires Utf16(v) + a == Utf16(w) + b
    ensures v == w && a == b
  {
    var u, t := Utf16(v), Utf16(w);
    assert (u + a)[0] == u[0] && (t + b)[0] == t[0];
    assert |u| == 2 ==> (u + a)[1] == u[1];
    assert |t| == 2 ==> (t + b)[1] == t[1];
    assert v == w;
    assert a == (u + a)[|u|..] && b == (t + b)[|t|..];
  }

  lemma {:induction false} Utf16Injective(vs: seq<Scalar>, ws: seq<Scalar>)
    requires Utf16All(vs) == Utf16All(ws)
    ensures vs == ws
  {
    if vs != [] && ws != [] {
      Utf16Prefix(vs[0], ws[0], Utf16All(vs[1..]), Utf16All(ws[1..]));
      Utf16Injective(vs[1..], ws[1..]);
      assert vs == [vs[0]] + vs[1..] && ws == [ws[0]] + ws[1..];
    }
  }

  // The order is strict and total.

  lemma {:induction false} LexIrreflexive(a: seq<int>)
    ensures !LexLess(a, a)
  {
    if a != [] {
      LexIrreflexive(a[1..]);
    }
  }

  lemma {:induction false} LexTransitive(a: seq<int>, b: seq<int>, c: seq<int>)
    requires LexLess(a, b) && LexLess(b, c)
    ensures LexLess(a, c)
  {
    if a != [] && a[0] == b[0] == c[0] {
      LexTransitive(a[1..], b[1..], c[1..]);
    }
  }

  lemma {:induction false} LexTotal(a: seq<int>, b: seq<int>)
    ensures a == b || LexLess(a, b) || LexLess(b, a)
  {
    if a != [] && b != [] && a[0] == b[0] {
      LexTotal(a[1..], b[1..]);
      assert a == [a[0]] + a[1..] && b == [b[0]] + b[1..];
    }
  }

  /** The order of characters by code units: those outside of the first plane come before its last characters. */
  predicate ComesFirst(v: Scalar, w: Scalar) {
    if v >= 0x1_0000 && 0xE000 <= w <= 0xFFFF then true
    else if w >= 0x1_0000 && 0xE000 <= v <= 0xFFFF then false
    else v < w
  }

  lemma UnitsDecide(v: Scalar, w: Scalar, a: seq<int>, b: seq<int>)
    requires v != w
    ensures LexLess(Utf16(v) + a, Utf16(w) + b) <==> ComesFirst(v, w)
  {
    Utf16Decodes(v);
    Utf16Decodes(w);
    var s, t := Utf16(v) + a, Utf16(w) + b;
    assert s[0] == Utf16(v)[0] && t[0] == Utf16(w)[0];
    if v >= 0x1_0000 && w >= 0x1_0000 {
      assert s[1..][0] == Utf16(v)[1] && t[1..][0] == Utf16(w)[1];
    }
  }

  /** The first character that differs decides between two texts, and the shorter one comes first. */
  lemma {:induction false} FirstDifferenceDecides(p: seq<Scalar>, v: Scalar, x: seq<Scalar>, w: Scalar, y: seq<Scalar>)
    requires v != w
    ensures LexLess(Utf16All(p + [v] + x), Utf16All(p + [w] + y)) <==> ComesFirst(v, w)
    ensures LexLess(Utf16All(p), Utf16All(p + [v] + x))
  {
    var s, t := p + [v] + x, p + [w] + y;
    if p == [] {
      assert s[1..] == x && t[1..] == y;
      UnitsDecide(v, w, Utf16All(x), Utf16All(y));
    } else {
      assert s[1..] == p[1..] + [v] + x && t[1..] == p[1..] + [w] + y;
      FirstDifferenceDecides(p[1..], v, x, w, y);
      hide Utf16, ComesFirst;
      SamePrefix(Utf16(p[0]), Utf16All(s[1..]), Utf16All(t[1..]));
      SamePrefix(Utf16(p[0]), Utf16All(p[1..]), Utf16All(s[1..]));
    }
  }

  lemma {:induction false} SamePrefix(p: seq<int>, a: seq<int>, b: seq<int>)
    ensures LexLess(p + a, p + b) <==> LexLess(a, b)
  {
    if p == [] {
      assert p + a == a && p + b == b;
    } else {
      assert (p + a)[1..] == p[1..] + a && (p + b)[1..] == p[1..] + b;
      SamePrefix(p[1..], a, b);
    }
  }
}
