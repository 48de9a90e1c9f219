/** The tables of RFC 1951, section 3.2.5 and section 3.2.7, in closed form. */
module DeflateTables {
  import opened Sums
  import opened BitStream
  import opened LsbStream
  import opened DeflateBlocks
  import opened DeflateCodes

  /** Code length code lengths are sent for 16, 17, 18 and 0, then outwards from 8: 8, 7, 9, 6, 10 and so on. */
  lemma TransmissionOrder(k: nat)
    requires k < 19
    ensures |CODE_LENGTH_ORDER| == 19
    ensures k < 3 ==> CODE_LENGTH_ORDER[k] == 16 + k
    ensures k == 3 ==> CODE_LENGTH_ORDER[k] == 0
    ensures k >= 4 && k % 2 == 0 ==> CODE_LENGTH_ORDER[k] == 6 + k / 2
    ensures k >= 4 && k % 2 == 1 ==> CODE_LENGTH_ORDER[k] == 9 - (k - 1) / 2
  {
  }

  /** Eight lengths of their own, five groups of four symbols with one more extra bit each, and 258. */
  lemma {:induction false} LengthTable(i: nat)
    requires i < LENGTHS
    ensures i < 8 ==> LengthBase(i) == 3 + i && LengthExtra(i) == 0
    ensures 8 <= i < 28 ==> LengthExtra(i) == i / 4 - 1 && LengthBase(i) == 3 + (4 + i % 4) * Pow2(i / 4 - 1)
    ensures i == 28 ==> LengthBase(i) == 258 && LengthExtra(i) == 0
  {
    SmallPowers();
  }

  /** Four distances of their own, then pairs of symbols with one more extra bit each. */
  lemma {:induction false} DistanceTable(i: nat)
    requires i < DISTANCES
    ensures i < 4 ==> DistanceBase(i) == 1 + i && DistanceExtra(i) == 0
    ensures 4 <= i ==> DistanceExtra(i) == i / 2 - 1 && DistanceBase(i) == 1 + (2 + i % 2) * Pow2(i / 2 - 1)
  {
    SmallPowers();
  }

  /** A base that the value reaches and the next one exceeds is the one found. */
  lemma IndexIs(value: nat, bases: seq<nat>, i: nat)
    requires i < |bases| && bases[i] <= value && (i + 1 < |bases| ==> value < bases[i + 1])
    requires forall a, b :: 0 <= a < b < |bases| ==> bases[a] < bases[b]
    ensures IndexFor(value, bases) == i
  {
  }

  lemma LengthIndexIs(length: nat, i: nat)
    requires 3 <= length && i < LENGTHS && LengthBase(i) <= length && (i + 1 < LENGTHS ==> length < LengthBase(i + 1))
    ensures LengthIndex(length) == i
  {
    hide IndexFor;
    IndexIs(length, LENGTH_BASE, i);
  }

  lemma DistanceIndexIs(distance: nat, i: nat)
    requires 1 <= distance && i < DISTANCES && DistanceBase(i) <= distance && (i + 1 < DISTANCES ==> distance < DistanceBase(i + 1))
    ensures DistanceIndex(distance) == i
  {
    hide IndexFor;
    IndexIs(distance, DISTANCE_BASE, i);
  }

  /** A number between two powers of two, cut into its three leading bits (or two) and the rest. */
  lemma LeadingBits(n: nat, e: nat, lead: nat)
    requires lead * Pow2(e) <= n < 2 * lead * Pow2(e)
    ensures lead <= n / Pow2(e) < 2 * lead && n == n / Pow2(e) * Pow2(e) + n % Pow2(e)
  {
    QuotientWithin(n, Pow2(e), lead);
  }

  lemma QuotientWithin(n: nat, p: nat, lead: nat)
    requires p > 0 && lead * p <= n < 2 * lead * p
    ensures lead <= n / p < 2 * lead && n == n / p * p + n % p
  {
    var q, r := n / p, n % p;
    assert n == q * p + r;
    if q < lead {
      Product(q + 1, lead, p);
    }
    if q >= 2 * lead {
      Product(2 * lead, q, p);
    }
  }

  lemma Product(a: nat, b: nat, p: nat)
    requires a <= b
    ensures a * p <= b * p
  {
  }

  /** The symbol and extra bits that a length is written with; `e` is two less than the place of the leading bit of `length - 3`. */
  lemma LengthSymbols(length: nat, e: nat)
    requires 3 <= length <= 258 && (10 < length < 258 ==> 4 * Pow2(e) <= length - 3 < 8 * Pow2(e))
    ensures length <= 10 ==> LengthIndex(length) == length - 3
    ensures length == 258 ==> LengthIndex(length) == 28
    ensures 10 < length < 258 ==> LengthIndex(length) == 4 * e + (length - 3) / Pow2(e)
    ensures 10 < length < 258 ==> LengthExtra(LengthIndex(length)) == e && length - LengthBase(LengthIndex(length)) == (length - 3) % Pow2(e)
  {
    hide Pow2, LengthIndex, LengthBase, LengthExtra;
    if length <= 10 {
      ShortLength(length);
    } else if length == 258 {
      LengthTable(28);
      LengthIndexIs(length, 28);
    } else {
      LengthPlace(length, e);
      LengthIndexIs(length, 4 * e + (length - 3) / Pow2(e));
    }
  }

  lemma ShortLength(length: nat)
    requires 3 <= length <= 10
    ensures LengthIndex(length) == length - 3
  {
    hide LengthIndex;
    LengthIndexIs(length, length - 3);
  }

  lemma Exponent(e: nat, low: nat, high: nat)
    requires Pow2(low) < Pow2(e + 1) && Pow2(e) < Pow2(high)
    ensures low <= e < high
  {
    hide Pow2;
    if e < low { Pow2Monotone(e + 1, low); }
    if e >= high { Pow2Monotone(high, e); }
  }

  lemma LengthPlace(length: nat, e: nat)
    requires 10 < length < 258 && 4 * Pow2(e) <= length - 3 < 8 * Pow2(e)
    ensures Pow2(e) > 0
    ensures var i := 4 * e + (length - 3) / Pow2(e);
      i < 28 && LengthExtra(i) == e && length - LengthBase(i) == (length - 3) % Pow2(e) && LengthBase(i) <= length < LengthBase(i + 1)
  {
    hide LengthExtra, LengthBase, Pow2;
    LengthExponent(e, length - 3);
    LeadingBits(length - 3, e, 4);
    var q := (length - 3) / Pow2(e);
    var i := 4 * e + q;
    assert i / 4 == e + 1 && i % 4 == q - 4;
    LengthTable(i);
    LengthRange(i);
    LengthTable(28);
  }

  lemma LengthExponent(e: nat, n: nat)
    requires 8 <= n < 255 && 4 * Pow2(e) <= n < 8 * Pow2(e)
    ensures 1 <= e <= 5 && Pow2(e) > 0
  {
    SmallPowers();
    Exponent(e, 0, 6);
  }

  /** The symbol and extra bits that a distance is written with; `e` is one less than the place of the leading bit of `distance - 1`. */
  lemma DistanceSymbols(distance: nat, e: nat)
    requires 1 <= distance <= 32768 && (4 < distance ==> 2 * Pow2(e) <= distance - 1 < 4 * Pow2(e))
    ensures distance <= 4 ==> DistanceIndex(distance) == distance - 1
    ensures 4 < distance ==> DistanceIndex(distance) == 2 * e + (distance - 1) / Pow2(e)
    ensures 4 < distance ==> DistanceExtra(DistanceIndex(distance)) == e && distance - DistanceBase(DistanceIndex(distance)) == (distance - 1) % Pow2(e)
  {
    hide Pow2, DistanceIndex, DistanceBase, DistanceExtra;
    if distance <= 4 {
      ShortDistance(distance);
    } else {
      DistancePlace(distance, e);
      DistanceIndexIs(distance, 2 * e + (distance - 1) / Pow2(e));
    }
  }

  lemma ShortDistance(distance: nat)
    requires 1 <= distance <= 4
    ensures DistanceIndex(distance) == distance - 1
  {
    hide DistanceIndex;
    DistanceIndexIs(distance, distance - 1);
  }

  lemma DistancePlace(distance: nat, e: nat)
    requires 4 < distance <= 32768 && 2 * Pow2(e) <= distance - 1 < 4 * Pow2(e)
    ensures Pow2(e) > 0
    ensures var i := 2 * e + (distance - 1) / Pow2(e);
      i < DISTANCES && DistanceExtra(i) == e && distance - DistanceBase(i) == (distance - 1) % Pow2(e) && DistanceBase(i) <= distance
      && (i + 1 < DISTANCES ==> distance < DistanceBase(i + 1))
  {
    hide DistanceExtra, DistanceBase, Pow2;
    DistanceExponent(e, distance - 1);
    LeadingBits(distance - 1, e, 2);
    var q := (distance - 1) / Pow2(e);
    var i := 2 * e + q;
    assert i / 2 == e + 1 && i % 2 == q - 2;
    DistanceTable(i);
    DistanceRange(i);
  }

  lemma DistanceExponent(e: nat, n: nat)
    requires 4 <= n < 32768 && 2 * Pow2(e) <= n < 4 * Pow2(e)
    ensures 1 <= e <= 13 && Pow2(e) > 0
  {
    SmallPowers();
    Exponent(e, 0, 14);
  }
}
