/** `helpers::fast_digit_count`: the number of decimal digits from one table lookup and one addition. */
module DigitCount {
  import opened CppString
  import opened UrlRecord

  /** The position of the highest bit set. */
  function Log2(x: nat): (k: nat)
    requires x > 0
  {
    if x == 1 then 0 else 1 + Log2(x / 2)
  }

  /** `31 - leading_zeroes(z | 1)` */
  function IntLog2(z: uint32): nat {
    Log2(z - z % 2 + 1)
  }

  const POWERS: seq<int> :=
    [ 0x1, 0x2, 0x4, 0x8, 0x10, 0x20, 0x40, 0x80, 0x100, 0x200, 0x400, 0x800, 0x1000, 0x2000, 0x4000, 0x8000,
      0x1_0000, 0x2_0000, 0x4_0000, 0x8_0000, 0x10_0000, 0x20_0000, 0x40_0000, 0x80_0000,
      0x100_0000, 0x200_0000, 0x400_0000, 0x800_0000, 0x1000_0000, 0x2000_0000, 0x4000_0000, 0x8000_0000,
      0x1_0000_0000 ]

  const TABLE: seq<int> :=
    [ 4294967296, 8589934582, 8589934582, 8589934582, 12884901788, 12884901788, 12884901788, 17179868184,
      17179868184, 17179868184, 21474826480, 21474826480, 21474826480, 21474826480, 25769703776, 25769703776,
      25769703776, 30063771072, 30063771072, 30063771072, 34349738368, 34349738368, 34349738368, 34349738368,
      38554705664, 38554705664, 38554705664, 41949672960, 41949672960, 41949672960, 42949672960, 42949672960 ]

  function FastDigitCount(x: uint32): int {
    Log2InRange(x - x % 2 + 1);
    (x + TABLE[IntLog2(x)]) / TWO_TO_32
  }

  lemma PowersDouble(k: nat)
    requires k < 32
    ensures POWERS[k + 1] == 2 * POWERS[k] && POWERS[0] == 1
  {
  }

  lemma {:induction false} Log2IsAt(x: nat, k: nat)
    requires k < 32 && POWERS[k] <= x < POWERS[k + 1]
    ensures Log2(x) == k
  {
    if k > 0 {
      PowersDouble(k - 1);
      PowersDouble(k);
      Log2IsAt(x / 2, k - 1);
    }
  }

  lemma Log2InRange(x: nat)
    requires 0 < x < TWO_TO_32
    ensures Log2(x) < 32
    ensures POWERS[Log2(x)] <= x < POWERS[Log2(x) + 1]
  {
    var k := 0;
    while x >= POWERS[k + 1]
      invariant 0 <= k < 32 && POWERS[k] <= x
      decreases 32 - k
    {
      k := k + 1;
    }
    Log2IsAt(x, k);
  }

  /** The number of decimal digits by comparison. */
  function DigitsByComparison(x: nat): nat {
    if x < 10 then 1 else if x < 100 then 2 else if x < 1000 then 3 else if x < 10000 then 4
    else if x < 100000 then 5 else if x < 1000000 then 6 else if x < 10000000 then 7
    else if x < 100000000 then 8 else if x < 1000000000 then 9 else 10
  }

  lemma {:induction false} DecimalLength(x: nat)
    requires x < 10000000000
    ensures |Decimal(x)| == DigitsByComparison(x)
  {
    if x >= 10 {
      DecimalLength(x / 10);
    }
  }

  lemma TableAgrees(x: nat, k: nat)
    requires k < 32 && POWERS[k] <= x < POWERS[k + 1]
    ensures (x + TABLE[k]) / TWO_TO_32 == DigitsByComparison(x)
  {
    if k < 10 {
      SmallTableAgrees(x, k);
    } else if k < 20 {
      MiddleTableAgrees(x, k);
    } else {
      LargeTableAgrees(x, k);
    }
  }

  lemma SmallTableAgrees(x: nat, k: nat)
    requires k < 10 && POWERS[k] <= x < POWERS[k + 1]
    ensures (x + TABLE[k]) / TWO_TO_32 == DigitsByComparison(x)
  {
  }

  lemma MiddleTableAgrees(x: nat, k: nat)
    requires 10 <= k < 20 && POWERS[k] <= x < POWERS[k + 1]
    ensures (x + TABLE[k]) / TWO_TO_32 == DigitsByComparison(x)
  {
  }

  lemma LargeTableAgrees(x: nat, k: nat)
    requires 20 <= k < 32 && POWERS[k] <= x < POWERS[k + 1]
    ensures (x + TABLE[k]) / TWO_TO_32 == DigitsByComparison(x)
  {
  }

  /** Setting the lowest bit does not move the highest one. */
  lemma SameRange(x: nat, k: nat)
    requires 0 < x && k < 32
    requires POWERS[k] <= x - x % 2 + 1 < POWERS[k + 1]
    ensures POWERS[k] <= x < POWERS[k + 1]
  {
    if k > 0 {
      PowersDouble(k - 1);
    }
  }

  /** The table lookup counts the digits that printing the number produces. */
  lemma FastDigitCountIsLength(x: uint32)
    ensures FastDigitCount(x) == |Decimal(x)|
  {
    hide Decimal, Log2, DigitsByComparison;
    Log2InRange(x - x % 2 + 1);
    DecimalLength(x);
    if x == 0 {
      Log2IsAt(1, 0);
      TableAtZero();
    } else {
      SameRange(x, IntLog2(x));
      TableAgrees(x, IntLog2(x));
    }
  }

  lemma TableAtZero()
    ensures (0 + TABLE[0]) / TWO_TO_32 == DigitsByComparison(0)
  {
  }
}
