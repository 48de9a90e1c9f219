/** The fixed Huffman codes of RFC 1951 section 3.2.6. */
module FixedCode {
  import opened Sums
  import opened Canonical
  import opened InflateTable
  import opened DeflateBlocks

  lemma {:induction false} CountRepeated(value: nat, n: nat, l: nat)
    ensures CountLen(Repeated(value, n), l) == if value == l then n else 0
  {
    if n > 0 {
      CountRepeated(value, n - 1, l);
      assert Repeated(value, n)[..n - 1] == Repeated(value, n - 1);
    }
  }

  lemma CountAppend(a: seq<nat>, b: seq<nat>, l: nat)
    ensures CountLen(a + b, l) == CountLen(a, l) + CountLen(b, l)
  {
    CountSplit(a + b, |a|, l);
    assert (a + b)[..|a|] == a && (a + b)[|a|..] == b;
  }

  function Min(a: nat, b: nat): nat { if a < b then a else b }

  function Past(i: nat, start: nat, size: nat): nat
  {
    if i < start then 0 else Min(i - start, size)
  }

  /** The first `i` literal lengths, run by run. */
  lemma LiteralPrefix(i: nat)
    requires i <= 288
    ensures FixedLiteral()[..i] == Repeated(8, Past(i, 0, 144)) + Repeated(9, Past(i, 144, 112)) + Repeated(7, Past(i, 256, 24)) + Repeated(8, Past(i, 280, 8))
  {
  }

  lemma LiteralCounts(i: nat, l: nat)
    requires i <= 288
    ensures CountLen(FixedLiteral()[..i], l) ==
            (if l == 8 then Past(i, 0, 144) + Past(i, 280, 8) else 0) + (if l == 9 then Past(i, 144, 112) else 0) + (if l == 7 then Past(i, 256, 24) else 0)
  {
    hide CountLen, Past;
    LiteralPrefix(i);
    var a, b, c, d := Repeated(8, Past(i, 0, 144)), Repeated(9, Past(i, 144, 112)), Repeated(7, Past(i, 256, 24)), Repeated(8, Past(i, 280, 8));
    CountAppend(a + b + c, d, l);
    CountAppend(a + b, c, l);
    CountAppend(a, b, l);
    CountRepeated(8, Past(i, 0, 144), l);
    CountRepeated(9, Past(i, 144, 112), l);
    CountRepeated(7, Past(i, 256, 24), l);
    CountRepeated(8, Past(i, 280, 8), l);
  }

  lemma LiteralCount(l: nat)
    ensures CountLen(FixedLiteral(), l) == if l == 7 then 24 else if l == 8 then 152 else if l == 9 then 112 else 0
  {
    hide CountLen;
    LiteralCounts(288, l);
    assert FixedLiteral()[..288] == FixedLiteral();
  }

  lemma {:induction false} LiteralFirst(l: nat)
    ensures First(FixedLiteral(), l) == if l <= 7 then 0 else if l == 8 then 48 else if l == 9 then 400 else Pow2(l)
  {
    hide CountLen, FixedLiteral;
    assert Pow2(9) == 512;
    if l > 1 {
      LiteralFirst(l - 1);
      LiteralCount(l - 1);
    }
  }

  lemma LiteralFits()
    ensures Fits(FixedLiteral(), 15)
  {
    hide CountLen, First, FixedLiteral;
    assert Pow2(7) == 128 && Pow2(8) == 256 && Pow2(9) == 512;
    forall l | 1 <= l <= 15 ensures Next(FixedLiteral(), l) <= Pow2(l) {
      LiteralFirst(l);
      LiteralCount(l);
    }
  }

  /** The code of each literal or length symbol. */
  lemma LiteralCode(symbol: nat)
    requires symbol < 288
    ensures Code(FixedLiteral(), symbol) ==
            if symbol < 144 then 0x30 + symbol else if symbol < 256 then 0x190 + (symbol - 144)
            else if symbol < 280 then symbol - 256 else 0xC0 + (symbol - 280)
  {
    hide CountLen, First;
    LiteralCounts(symbol, FixedLiteral()[symbol]);
    LiteralFirst(FixedLiteral()[symbol]);
  }

  lemma DistanceCounts(i: nat, l: nat)
    requires i <= 32
    ensures CountLen(FixedDistance()[..i], l) == if l == 5 then i else 0
  {
    CountRepeated(5, i, l);
    assert FixedDistance()[..i] == Repeated(5, i);
  }

  lemma {:induction false} DistanceFirst(l: nat)
    ensures First(FixedDistance(), l) == if l <= 5 then 0 else Pow2(l)
  {
    hide CountLen;
    assert Pow2(5) == 32;
    if l > 1 {
      DistanceFirst(l - 1);
      DistanceCounts(32, l - 1);
      assert FixedDistance()[..32] == FixedDistance();
    }
  }

  lemma DistanceFits()
    ensures Fits(FixedDistance(), 15)
  {
    hide CountLen, First;
    assert Pow2(5) == 32;
    assert FixedDistance()[..32] == FixedDistance();
    forall l | 1 <= l <= 15 ensures Next(FixedDistance(), l) <= Pow2(l) {
      DistanceFirst(l);
      DistanceCounts(32, l);
    }
  }

  lemma DistanceCode(symbol: nat)
    requires symbol < 32
    ensures Code(FixedDistance(), symbol) == symbol
  {
    hide CountLen, First;
    DistanceCounts(symbol, 5);
    DistanceFirst(5);
  }

  /** Both fixed codes are prefix codes of at most 15 bits. */
  lemma FixedCodes()
    ensures Codes(FixedLiteral()) && Codes(FixedDistance())
  {
    hide Fits;
    LiteralFits();
    DistanceFits();
  }
}
