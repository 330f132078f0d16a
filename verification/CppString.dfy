/** The parts of `std::string` and of `uint32_t` arithmetic that the parser relies on.
    A string is a sequence of bytes, written as characters below 256. */
module CppString {

  datatype Option<+T> = None | Some(value: T)

  const TWO_TO_32: int := 0x1_0000_0000

  type uint32 = x: int | 0 <= x < TWO_TO_32

  /** `url_components::omitted`, that is `uint32_t(-1)`. */
  const OMITTED: uint32 := 0xFFFF_FFFF

  /** Unsigned addition, wrapping around at 2^32. */
  function Add32(a: uint32, b: uint32): uint32 {
    (a + b) % TWO_TO_32
  }

  /** Unsigned subtraction, wrapping around at 2^32. */
  function Sub32(a: uint32, b: uint32): uint32 {
    (a - b) % TWO_TO_32
  }

  /** The conversion of a size to 32 bits. */
  function Trunc32(n: int): uint32 {
    n % TWO_TO_32
  }

  lemma WrapsNothing(n: int)
    ensures 0 <= n < TWO_TO_32 ==> Trunc32(n) == n
  {
  }

  lemma Difference(a: uint32, b: uint32)
    ensures Sub32(a, b) == if a >= b then a - b else a - b + TWO_TO_32
    ensures Sub32(a, b) == Trunc32(a - b)
  {
  }

  lemma NoWrap(a: uint32, b: uint32)
    ensures a + b < TWO_TO_32 ==> Add32(a, b) == a + b
    ensures a >= b ==> Sub32(a, b) == a - b
  {
  }

  /** A wrapped delta, added to an offset with wrapping, gives the true sum whenever that sum is a 32-bit number. */
  lemma ShiftExact(delta: int)
    ensures forall x: uint32 {:trigger Add32(x, Trunc32(delta))} ::
      0 <= x + delta < TWO_TO_32 ==> Add32(x, Trunc32(delta)) == x + delta
    ensures forall x: uint32 {:trigger Sub32(x, Trunc32(delta))} ::
      0 <= x - delta < TWO_TO_32 ==> Sub32(x, Trunc32(delta)) == x - delta
  {
  }

  /** A remainder is determined by its range and its distance to the dividend. */
  lemma RemainderIs(x: int, r: int, q: int)
    requires x == q * TWO_TO_32 + r
    requires 0 <= r < TWO_TO_32
    ensures x % TWO_TO_32 == r
  {
  }

  lemma AddZero()
    ensures forall x: uint32 {:trigger Add32(x, 0)} :: Add32(x, 0) == x
  {
  }

  /** Subtracting a wrapped delta is adding its opposite. */
  lemma SubIsAdd(delta: int)
    ensures forall x: uint32 {:trigger Sub32(x, Trunc32(delta))} ::
      Sub32(x, Trunc32(delta)) == Add32(x, Trunc32(-delta))
  {
    forall x: uint32 ensures Sub32(x, Trunc32(delta)) == Add32(x, Trunc32(-delta)) {
      DeltaSum(x, delta);
      DeltaSum(x, -delta);
    }
  }

  lemma SubTwice(a: uint32, b: uint32)
    ensures forall x: uint32 {:trigger Sub32(Sub32(x, a), b)} :: Sub32(Sub32(x, a), b) == Sub32(x, Add32(a, b))
  {
    hide Add32, Sub32, Trunc32;
    WrapsNothing(a);
    WrapsNothing(b);
    forall x: uint32 ensures Sub32(Sub32(x, a), b) == Sub32(x, Add32(a, b)) {
      WrapsNothing(x);
      DeltaSum(x, a);
      DeltaSum(x - a, b);
      DeltaSum(a, b);
      DeltaSum(x, a + b);
    }
  }

  /** A wrapped delta, incremented or decremented. */
  lemma DeltaStep(d: int)
    ensures Add32(Trunc32(d), 1) == Trunc32(d + 1)
    ensures Sub32(Trunc32(d), 1) == Trunc32(d - 1)
  {
    DeltaSum(d, 1);
  }

  /** Wrapped deltas add up like the integers they stand for. */
  lemma DeltaSum(d: int, e: int)
    ensures Add32(Trunc32(d), Trunc32(e)) == Trunc32(d + e)
    ensures Sub32(Trunc32(d), Trunc32(e)) == Trunc32(d - e)
  {
    var qd, qe := d / TWO_TO_32, e / TWO_TO_32;
    var sum, diff := Trunc32(d) + Trunc32(e), Trunc32(d) - Trunc32(e);
    RemainderIs(d + e, sum % TWO_TO_32, qd + qe + sum / TWO_TO_32);
    RemainderIs(d - e, diff % TWO_TO_32, qd - qe + diff / TWO_TO_32);
  }

  function Min(a: int, b: int): int {
    if a < b then a else b
  }

  /** `insert(pos, t)` */
  function Insert(s: string, pos: nat, t: string): string
    requires pos <= |s|
  {
    s[..pos] + t + s[pos..]
  }

  /** `erase(pos, count)`; the count is clamped to the end of the string. */
  function Erase(s: string, pos: nat, count: nat): string
    requires pos <= |s|
  {
    s[..pos] + s[Min(pos + count, |s|)..]
  }

  /** `replace(pos, count, t)`; the count is clamped to the end of the string. */
  function Replace(s: string, pos: nat, count: nat, t: string): string
    requires pos <= |s|
  {
    s[..pos] + t + s[Min(pos + count, |s|)..]
  }

  /** `substr(pos, count)`; the count is clamped to the end of the string. */
  function Substr(s: string, pos: nat, count: nat): string
    requires pos <= |s|
  {
    s[pos..Min(pos + count, |s|)]
  }

  predicate StartsWith(s: string, prefix: string) {
    prefix <= s
  }

  /** A query handed over with its question mark loses it. */
  function WithoutQuestionMark(input: string): string {
    if StartsWith(input, "?") then input[1..] else input
  }

  /** `operator[]` of a non-const string, which reads a terminating NUL one past the end. */
  function CharAt(s: string, i: nat): char
    requires i <= |s|
  {
    if i < |s| then s[i] else '\0'
  }

  /** The substring from `start` to `end` is taken out and `t` put in its place. */
  function Splice(s: string, start: nat, end: nat, t: string): string
    requires start <= end <= |s|
  {
    s[..start] + t + s[end..]
  }

  lemma SpliceMiddle(a: string, m: string, c: string, t: string)
    ensures Splice(a + m + c, |a|, |a| + |m|, t) == a + t + c
    ensures Splice(a + (m + c), |a|, |a| + |m|, t) == a + t + c
  {
    assert a + (m + c) == a + m + c;
  }

  lemma EraseThenOverwrite(s: string, start: nat, end: nat, t: string)
    requires start <= end <= |s| && |t| <= end - start
    ensures Replace(Erase(s, start, end - start - |t|), start, |t|, t) == Splice(s, start, end, t)
  {
    var erased := Erase(s, start, end - start - |t|);
    assert erased[..start] == s[..start];
    assert erased[start + |t|..] == s[end..];
  }

  lemma OverwriteThenInsert(s: string, start: nat, end: nat, t: string)
    requires start <= end <= |s| && end - start <= |t|
    ensures Insert(Replace(s, start, end - start, Substr(t, 0, end - start)), end, Substr(t, end - start, |t|))
      == Splice(s, start, end, t)
  {
    var overwritten := Replace(s, start, end - start, Substr(t, 0, end - start));
    assert overwritten[..end] == s[..start] + t[..end - start];
    assert overwritten[end..] == s[end..];
    assert t == t[..end - start] + t[end - start..];
  }

  // Edits of a string, all seen as splices.

  lemma EraseIsSplice(s: string, start: nat, count: nat)
    requires start + count <= |s|
    ensures Erase(s, start, count) == Splice(s, start, start + count, "")
  {
    assert s[..start] + "" == s[..start];
  }

  lemma EraseThenInsert(s: string, start: nat, count: nat, t: string)
    requires start + count <= |s|
    ensures start <= |Erase(s, start, count)|
    ensures Insert(Erase(s, start, count), start, t) == Splice(s, start, start + count, t)
  {
    var erased := Erase(s, start, count);
    assert erased[..start] == s[..start] && erased[start..] == s[start + count..];
  }

  lemma InsertTwice(s: string, start: nat, t: string, u: string)
    requires start <= |s|
    ensures start + |t| <= |Insert(s, start, t)|
    ensures Insert(Insert(s, start, t), start + |t|, u) == Splice(s, start, start, t + u)
  {
    var inserted := Insert(s, start, t);
    assert inserted[..start + |t|] == s[..start] + t && inserted[start + |t|..] == s[start..];
  }

  /** A splice that puts the first bytes back only replaces the others. */
  lemma SpliceKeepsPrefix(s: string, start: nat, end: nat, kept: nat, t: string)
    requires start <= start + kept <= end <= |s|
    ensures Splice(s, start, end, s[start..start + kept] + t) == Splice(s, start + kept, end, t)
  {
    assert s[..start + kept] == s[..start] + s[start..start + kept];
  }

  lemma SpliceOfNothing(t: string)
    ensures Splice("", 0, 0, t) == "" + t
  {
  }

  lemma InsertIsSplice(s: string, start: nat, t: string)
    requires start <= |s|
    ensures Insert(s, start, t) == Splice(s, start, start, t)
  {
  }

  /** Taking out the first byte of a stretch and then replacing the rest replaces the stretch. */
  lemma EraseWithin(s: string, start: nat, end: nat, t: string)
    requires start < end <= |s|
    ensures Splice(Erase(s, start, 1), start, end - 1, t) == Splice(s, start, end, t)
  {
    var erased := Erase(s, start, 1);
    assert erased[..start] == s[..start] && erased[end - 1..] == s[end..];
  }

  lemma SliceOfSlice(s: string, start: nat, end: nat, kept: nat)
    requires start + kept <= end <= |s|
    ensures s[start..end][..kept] == s[start..start + kept]
  {
  }

  lemma InsertInTwoParts(s: string, start: nat, t: string, u: string)
    requires start <= |s|
    ensures start + |t| <= |Insert(s, start, t)|
    ensures Insert(Insert(s, start, t), start + |t|, u) == Insert(s, start, t + u)
  {
    InsertTwice(s, start, t, u);
    InsertIsSplice(s, start, t + u);
  }
}
