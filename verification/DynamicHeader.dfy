/** The header of a dynamic DEFLATE block: two codes, sent as code lengths that are themselves coded. */
module DynamicHeader {
  import opened Seqs
  import opened Sums
  import opened BitStream
  import opened LsbStream
  import opened Canonical
  import opened InflateTable
  import opened Inflate
  import opened DeflateBlocks
  import opened DeflateCodes
  import opened DeflateSegments
  import opened RunCodedLengths

  const ORDER_INDEX: seq<nat> := [3, 17, 15, 13, 11, 9, 7, 5, 4, 6, 8, 10, 12, 14, 16, 18, 0, 1, 2]

  function Order(k: nat): (i: nat)
    requires k < 19
    ensures i < 19 && i == CODE_LENGTH_ORDER[k]
  {
    CODE_LENGTH_ORDER[k]
  }

  function OrderIndex(i: nat): (k: nat)
    requires i < 19
    ensures k < 19
  {
    ORDER_INDEX[i]
  }

  /** The transmission order is a permutation of the symbols. */
  lemma OrderInverse(k: nat)
    requires k < 19
    ensures OrderIndex(Order(k)) == k && Order(OrderIndex(k)) == k
  {
    OrderThere(k);
    OrderBack(k);
  }

  lemma OrderThere(k: nat)
    requires k < 19
    ensures OrderIndex(Order(k)) == k
  {
  }

  lemma OrderBack(i: nat)
    requires i < 19
    ensures Order(OrderIndex(i)) == i
  {
  }

  // ----- As bits -----

  ghost function PreBits(pre: seq<nat>, k: nat, count: nat): (b: seq<bool>)
    requires |pre| == 19 && k <= count <= 19
    ensures |b| == 3 * (count - k)
    decreases count - k
  {
    if k == count then [] else LsbBits(pre[Order(k)], 3) + PreBits(pre, k + 1, count)
  }

  ghost function LengthsBits(all: seq<nat>, k: nat, pre: seq<nat>): seq<bool>
    requires k <= |all|
    decreases |all| - k
  {
    if k == |all| then [] else Spelled(pre, all[k]) + LengthsBits(all, k + 1, pre)
  }

  ghost function DynamicBits(lit: seq<nat>, dist: seq<nat>, pre: seq<nat>, count: nat): seq<bool>
    requires |lit| >= 257 && |dist| >= 1 && |pre| == 19 && 4 <= count <= 19
  {
    LsbBits(4, 3) + AfterKind(|lit|, |dist|, pre, count, LengthsBits(lit + dist, 0, pre))
  }

  /** The counts of the two codes, the code length code and the coded lengths. */
  ghost function AfterKind(literals: nat, distances: nat, pre: seq<nat>, count: nat, lengths: seq<bool>): seq<bool>
    requires literals >= 257 && distances >= 1 && |pre| == 19 && 4 <= count <= 19
  {
    LsbBits(literals - 257, 5) + (LsbBits(distances - 1, 5) + (LsbBits(count - 4, 4) + (PreBits(pre, 0, count) + lengths)))
  }

  // ----- Reading back -----

  /** After the first `k` code length code lengths. */
  ghost predicate PreRead(pre: seq<nat>, k: nat, lens: seq<nat>)
    requires |pre| == 19
  {
    |lens| == 19 && forall i :: 0 <= i < 19 ==> lens[i] == if OrderIndex(i) < k then pre[i] else 0
  }

  lemma PreReadStep(pre: seq<nat>, k: nat, lens: seq<nat>)
    requires |pre| == 19 && k < 19 && PreRead(pre, k, lens)
    ensures |lens| == 19 && PreRead(pre, k + 1, lens[Order(k) := pre[Order(k)]])
  {
    hide OrderIndex, Order;
    OrderInverse(k);
    forall i | 0 <= i < 19 && OrderIndex(i) == k ensures i == Order(k) { OrderInverse(i); }
  }

  /** The trailing lengths that are not sent are zero. */
  ghost predicate Trimmed(pre: seq<nat>, count: nat)
    requires |pre| == 19
  {
    forall k :: count <= k < 19 ==> pre[Order(k)] == 0
  }

  lemma PreReadAll(pre: seq<nat>, count: nat, lens: seq<nat>)
    requires |pre| == 19 && count <= 19 && PreRead(pre, count, lens) && Trimmed(pre, count)
    ensures lens == pre
  {
    hide OrderIndex, Order;
    forall i | 0 <= i < 19 ensures lens[i] == pre[i] {
      OrderInverse(i);
      if OrderIndex(i) >= count {
        assert pre[Order(OrderIndex(i))] == 0;
      }
    }
  }

  lemma {:induction false} PreBack(s: seq<bool>, at: nat, pre: seq<nat>, k: nat, count: nat, lens: seq<nat>)
    requires |pre| == 19 && k <= count <= 19 && at <= |s| && PreRead(pre, k, lens) && Trimmed(pre, count) && Has(s, at, PreBits(pre, k, count))
    requires forall i :: 0 <= i < 19 ==> pre[i] < 8
    ensures |lens| == 19 && ParsePrecode(s, at, count, k, lens) == Got(pre, at + 3 * (count - k))
    decreases count - k
  {
    hide Has, ReadField, LsbBits, Trimmed, PreRead;
    if k == count {
      PreReadAll(pre, count, lens);
    } else {
      HasSplit(s, at, LsbBits(pre[Order(k)], 3), PreBits(pre, k + 1, count));
      Pow2Three();
      FieldBack(s, at, pre[Order(k)], 3);
      PreReadStep(pre, k, lens);
      PreBack(s, at + 3, pre, k + 1, count, lens[Order(k) := pre[Order(k)]]);
    }
  }

  lemma Pow2Three()
    ensures Pow2(3) == 8 && Pow2(4) == 16 && Pow2(5) == 32
  {
  }

  /** Lengths sent one by one read back in order. */
  lemma {:induction false} LengthsBack(s: seq<bool>, at: nat, all: seq<nat>, k: nat, pre: seq<nat>)
    requires k <= |all| && at <= |s| && Codes(pre) && Has(s, at, LengthsBits(all, k, pre))
    requires forall i :: 0 <= i < |all| ==> all[i] <= 15 && Coded(pre, all[i])
    ensures ParseLengths(s, at, pre, all[..k], |all|) == Got(all, at + |LengthsBits(all, k, pre)|)
    decreases |all| - k
  {
    hide Has, Codes, NextSym, Spelled;
    if k == |all| {
      assert all[..k] == all;
    } else {
      var word, rest := Spelled(pre, all[k]), LengthsBits(all, k + 1, pre);
      HasSplit(s, at, word, rest);
      WordBack(pre, s, at, all[k]);
      HasEnd(s, at, word);
      assert all[..k] + [all[k]] == all[..k + 1];
      LengthsBack(s, at + |word|, all, k + 1, pre);
    }
  }

  /** Two codes and a code length code that a header can announce. */
  ghost predicate Announceable(lit: seq<nat>, dist: seq<nat>, pre: seq<nat>, count: nat)
  {
    && 257 <= |lit| <= 288 && 1 <= |dist| <= 32 && |pre| == 19 && 4 <= count <= 19
    && Codes(lit) && Codes(dist) && Codes(pre) && Coded(lit, 256)
    && (forall i :: 0 <= i < 19 ==> pre[i] < 8) && Trimmed(pre, count)
  }

  /** The bits read as the lengths `all`, wherever they stand. */
  ghost predicate Deliver(lengths: seq<bool>, pre: seq<nat>, all: seq<nat>)
  {
    forall s, at: nat :: Has(s, at, lengths) ==> at <= |s| && ParseLengths(s, at, pre, [], |all|) == Got(all, at + |lengths|)
  }

  /** The codes that the encoder announces, their lengths sent one by one. */
  ghost predicate Announced(lit: seq<nat>, dist: seq<nat>, pre: seq<nat>, count: nat)
  {
    && |lit| <= 286 && |dist| <= 30 && Announceable(lit, dist, pre, count)
    && (forall i :: 0 <= i < |lit + dist| ==> (lit + dist)[i] <= 15 && Coded(pre, (lit + dist)[i]))
  }

  lemma SinglesDeliver(all: seq<nat>, pre: seq<nat>)
    requires Codes(pre) && forall i :: 0 <= i < |all| ==> all[i] <= 15 && Coded(pre, all[i])
    ensures Deliver(LengthsBits(all, 0, pre), pre, all)
  {
    hide Has, Codes, ParseLengths, LengthsBits;
    var lengths := LengthsBits(all, 0, pre);
    forall s, at: nat | Has(s, at, lengths) ensures at <= |s| && ParseLengths(s, at, pre, [], |all|) == Got(all, at + |lengths|) {
      HasEnd(s, at, lengths);
      assert all[..0] == [];
      LengthsBack(s, at, all, 0, pre);
    }
  }

  lemma ItemsDeliver(items: seq<Item>, all: seq<nat>, pre: seq<nat>)
    requires Codes(pre) && AllCoded(items, pre) && Expand(items, [], all)
    ensures Deliver(ItemsBits(items, pre), pre, all)
  {
    hide Has, Codes, ParseLengths, ItemsBits, Expand, AllCoded;
    var lengths := ItemsBits(items, pre);
    forall s, at: nat | Has(s, at, lengths) ensures at <= |s| && ParseLengths(s, at, pre, [], |all|) == Got(all, at + |lengths|) {
      HasEnd(s, at, lengths);
      ItemsBack(s, at, items, pre, [], all);
    }
  }

  lemma CodesBack(s: seq<bool>, at: nat, lit: seq<nat>, dist: seq<nat>, pre: seq<nat>, count: nat, lengths: seq<bool>, end: nat)
    requires Announceable(lit, dist, pre, count) && Deliver(lengths, pre, lit + dist) && Has(s, at, PreBits(pre, 0, count) + lengths)
    requires end == at + |PreBits(pre, 0, count) + lengths|
    ensures at <= |s| && ParseCodes(s, at, |lit|, |dist|, count) == Got(CodePair(lit, dist), end)
  {
    hide Has, Codes, ParsePrecode, ParseLengths, Trimmed, PreBits;
    HasSplit(s, at, PreBits(pre, 0, count), lengths);
    HasEnd(s, at, PreBits(pre, 0, count));
    var none := Repeated(0, 19);
    assert PreRead(pre, 0, none);
    PreBack(s, at, pre, 0, count, none);
    var all := lit + dist;
    assert all[..|lit|] == lit && all[|lit|..] == dist && all[256] == lit[256];
  }

  lemma CountsBack(s: seq<bool>, at: nat, x: nat, y: nat, z: nat, rest: seq<bool>)
    requires x < 32 && y < 32 && z < 16 && Has(s, at, LsbBits(x, 5) + (LsbBits(y, 5) + (LsbBits(z, 4) + rest)))
    ensures ReadField(s, at, 5) == Got(x, at + 5) && ReadField(s, at + 5, 5) == Got(y, at + 10)
    ensures ReadField(s, at + 10, 4) == Got(z, at + 14) && Has(s, at + 14, rest)
  {
    hide *;
    Pow2Three();
    HasSplit(s, at, LsbBits(x, 5), LsbBits(y, 5) + (LsbBits(z, 4) + rest));
    HasSplit(s, at + 5, LsbBits(y, 5), LsbBits(z, 4) + rest);
    HasSplit(s, at + 10, LsbBits(z, 4), rest);
    FieldBack(s, at, x, 5);
    FieldBack(s, at + 5, y, 5);
    FieldBack(s, at + 10, z, 4);
  }

  lemma DynamicBack(s: seq<bool>, at: nat, lit: seq<nat>, dist: seq<nat>, pre: seq<nat>, count: nat, lengths: seq<bool>, end: nat)
    requires Announceable(lit, dist, pre, count) && Deliver(lengths, pre, lit + dist)
    requires |lit| >= 257 && |dist| >= 1 && |pre| == 19 && 4 <= count <= 19
    requires Has(s, at, AfterKind(|lit|, |dist|, pre, count, lengths)) && end == at + |AfterKind(|lit|, |dist|, pre, count, lengths)|
    ensures at <= |s| && ParseDynamic(s, at) == Got(CodePair(lit, dist), end)
  {
    hide Has, ReadField, LsbBits, Announceable, ParseCodes, PreBits, Deliver;
    Sizes(lit, dist, pre, count);
    var codes := PreBits(pre, 0, count) + lengths;
    CountsBack(s, at, |lit| - 257, |dist| - 1, count - 4, codes);
    CodesBack(s, at + 14, lit, dist, pre, count, lengths, at + 14 + |codes|);
  }

  lemma Sizes(lit: seq<nat>, dist: seq<nat>, pre: seq<nat>, count: nat)
    requires Announceable(lit, dist, pre, count)
    ensures 257 <= |lit| <= 288 && 1 <= |dist| <= 32 && |pre| == 19 && 4 <= count <= 19
  {
  }

  /** The header makes the decoder read the tokens with the announced codes. */
  lemma DynamicOpensAt(s: seq<bool>, at: nat, final: bool, lit: seq<nat>, dist: seq<nat>, pre: seq<nat>, count: nat, lengths: seq<bool>)
    requires Announceable(lit, dist, pre, count) && Deliver(lengths, pre, lit + dist)
    requires |lit| >= 257 && |dist| >= 1 && |pre| == 19 && 4 <= count <= 19
    requires Has(s, at, LsbBits(if final then 5 else 4, 3) + AfterKind(|lit|, |dist|, pre, count, lengths))
    ensures var end := at + 3 + |AfterKind(|lit|, |dist|, pre, count, lengths)|;
      end <= |s| && ParseBlock(s, at) == FromOps(ParseOps(s, end, lit, dist, []), DynamicHuffman, final)
  {
    hide Has, ReadField, LsbBits, Announceable, AfterKind, ParseDynamic, ParseOps, ParseStored, Deliver;
    var rest := AfterKind(|lit|, |dist|, pre, count, lengths);
    HasSplit(s, at, LsbBits(if final then 5 else 4, 3), rest);
    HeaderBack(s, at, if final then 5 else 4);
    DynamicBack(s, at + 3, lit, dist, pre, count, lengths, at + 3 + |rest|);
    HasEnd(s, at + 3, rest);
  }

  lemma DynamicOpens(lit: seq<nat>, dist: seq<nat>, pre: seq<nat>, count: nat)
    requires Announced(lit, dist, pre, count)
    ensures |lit| >= 257 && |dist| >= 1 && |pre| == 19 && 4 <= count <= 19 && Opens(DynamicBits(lit, dist, pre, count), lit, dist, DynamicHuffman)
  {
    hide ParseBlock, ParseOps, Has, Announceable, AfterKind, Deliver, Coded, LengthsBits;
    Sizes(lit, dist, pre, count);
    SinglesDeliver(lit + dist, pre) by { AnnouncedPre(lit, dist, pre, count); }
    var head := DynamicBits(lit, dist, pre, count);
    forall s, at: nat | Has(s, at, head)
      ensures at + |head| <= |s| && ParseBlock(s, at) == FromOps(ParseOps(s, at + |head|, lit, dist, []), DynamicHuffman, false)
    {
      DynamicOpensAt(s, at, false, lit, dist, pre, count, LengthsBits(lit + dist, 0, pre));
    }
  }

  lemma AnnouncedPre(lit: seq<nat>, dist: seq<nat>, pre: seq<nat>, count: nat)
    requires Announceable(lit, dist, pre, count)
    ensures Codes(pre)
  {
  }

  // ----- Exactly the headers there are -----

  /** Bits `at..end` announce the two codes, the lengths being run-coded by `items`. */
  ghost predicate Header(s: seq<bool>, at: nat, end: nat, lit: seq<nat>, dist: seq<nat>, pre: seq<nat>, count: nat, items: seq<Item>)
  {
    && Announceable(lit, dist, pre, count) && AllCoded(items, pre) && Expand(items, [], lit + dist)
    && 257 <= |lit| && 1 <= |dist| && |pre| == 19 && 4 <= count <= 19
    && Has(s, at, AfterKind(|lit|, |dist|, pre, count, ItemsBits(items, pre)))
    && end == at + |AfterKind(|lit|, |dist|, pre, count, ItemsBits(items, pre))|
  }

  /** A header with run-coded lengths, of a final block or not, opens its block. */
  lemma RunCodedOpens(s: seq<bool>, at: nat, final: bool, end: nat, lit: seq<nat>, dist: seq<nat>, pre: seq<nat>, count: nat, items: seq<Item>)
    requires Has(s, at, LsbBits(if final then 5 else 4, 3)) && Header(s, at + 3, end, lit, dist, pre, count, items)
    ensures end <= |s| && ParseBlock(s, at) == FromOps(ParseOps(s, end, lit, dist, []), DynamicHuffman, final)
  {
    hide ParseBlock, ParseOps, Has, Announceable, AfterKind, Deliver, ItemsBits, AllCoded, Expand, LsbBits;
    ItemsDeliver(items, lit + dist, pre) by { AnnouncedPre(lit, dist, pre, count); }
    HasBoth(s, at, LsbBits(if final then 5 else 4, 3), AfterKind(|lit|, |dist|, pre, count, ItemsBits(items, pre)));
    DynamicOpensAt(s, at, final, lit, dist, pre, count, ItemsBits(items, pre));
  }

  /** The lengths still to be sent are zero so far. */
  ghost predicate Unsent(lens: seq<nat>, k: nat)
  {
    |lens| == 19 && (forall i :: 0 <= i < 19 ==> lens[i] < 8) && forall j :: k <= j < 19 ==> lens[Order(j)] == 0
  }

  lemma UnsentStep(lens: seq<nat>, k: nat, l: nat)
    requires Unsent(lens, k) && k < 19 && l < 8
    ensures Unsent(lens[Order(k) := l], k + 1)
    ensures forall j :: 0 <= j < k ==> lens[Order(k) := l][Order(j)] == lens[Order(j)]
  {
    hide Order, OrderIndex;
    OrderInverse(k);
    forall j | 0 <= j < 19 && Order(j) == Order(k) ensures j == k { OrderInverse(j); }
  }

  lemma {:induction false} PreOnly(s: seq<bool>, at: nat, count: nat, k: nat, lens: seq<nat>)
    requires k <= count <= 19 && at <= |s| && Unsent(lens, k) && ParsePrecode(s, at, count, k, lens).Got?
    ensures var r := ParsePrecode(s, at, count, k, lens);
      Unsent(r.value, count) && (forall j :: 0 <= j < k ==> r.value[Order(j)] == lens[Order(j)])
      && Has(s, at, PreBits(r.value, k, count)) && r.at == at + 3 * (count - k)
    decreases count - k
  {
    hide ReadField, LsbBits, Unsent;
    if k < count {
      hide Has;
      FieldOnly(s, at, 3);
      Pow2Three();
      var l := ReadField(s, at, 3);
      UnsentSize(lens, k);
      UnsentStep(lens, k, l.value);
      PreOnly(s, l.at, count, k + 1, lens[Order(k) := l.value]);
      var pre := ParsePrecode(s, at, count, k, lens).value;
      HasBoth(s, at, LsbBits(pre[Order(k)], 3), PreBits(pre, k + 1, count));
    }
  }

  lemma UnsentSize(lens: seq<nat>, k: nat)
    requires Unsent(lens, k)
    ensures |lens| == 19
  {
  }

  lemma CodesOnly(s: seq<bool>, at: nat, literals: nat, distances: nat, count: nat) returns (pre: seq<nat>, items: seq<Item>)
    requires at <= |s| && 257 <= literals <= 288 && 1 <= distances <= 32 && 4 <= count <= 19
    requires ParseCodes(s, at, literals, distances, count).Got?
    ensures var r := ParseCodes(s, at, literals, distances, count); var lit, dist := r.value.lit, r.value.dist;
      |lit| == literals && |dist| == distances && Announceable(lit, dist, pre, count) && AllCoded(items, pre) && Expand(items, [], lit + dist)
      && |pre| == 19 && Has(s, at, PreBits(pre, 0, count) + ItemsBits(items, pre)) && r.at == at + |PreBits(pre, 0, count) + ItemsBits(items, pre)|
  {
    hide Has, Codes, ParsePrecode, ParseLengths, PreBits, ItemsBits, AllCoded, Expand, Order;
    var p := ParsePrecode(s, at, count, 0, Repeated(0, 19));
    PreOnly(s, at, count, 0, Repeated(0, 19));
    pre := p.value;
    items := ItemsOnly(s, p.at, pre, [], literals + distances);
    var all := ParseLengths(s, p.at, pre, [], literals + distances).value;
    assert all == all[..literals] + all[literals..];
    HasBoth(s, at, PreBits(pre, 0, count), ItemsBits(items, pre));
  }

  lemma CountsOnly(s: seq<bool>, at: nat, rest: seq<bool>)
    requires ReadField(s, at, 5).Got? && ReadField(s, at + 5, 5).Got? && ReadField(s, at + 10, 4).Got? && Has(s, at + 14, rest)
    ensures Has(s, at, LsbBits(ReadField(s, at, 5).value, 5) + (LsbBits(ReadField(s, at + 5, 5).value, 5) + (LsbBits(ReadField(s, at + 10, 4).value, 4) + rest)))
  {
    hide *;
    var x, y, z := LsbBits(ReadField(s, at, 5).value, 5), LsbBits(ReadField(s, at + 5, 5).value, 5), LsbBits(ReadField(s, at + 10, 4).value, 4);
    FieldOnly(s, at, 5);
    FieldOnly(s, at + 5, 5);
    FieldOnly(s, at + 10, 4);
    HasBoth(s, at + 10, z, rest);
    HasBoth(s, at + 5, y, z + rest);
    HasBoth(s, at, x, y + (z + rest));
  }

  /** Whatever the parser accepts as a header is one. */
  lemma DynamicOnly(s: seq<bool>, at: nat) returns (pre: seq<nat>, count: nat, items: seq<Item>)
    requires at <= |s| && ParseDynamic(s, at).Got?
    ensures var r := ParseDynamic(s, at); Header(s, at, r.at, r.value.lit, r.value.dist, pre, count, items)
  {
    hide Has, ReadField, LsbBits, Announceable, ParseCodes, PreBits, ItemsBits, AllCoded, Expand, Codes;
    CountBounds(s, at);
    var x, y, z := ReadField(s, at, 5), ReadField(s, at + 5, 5), ReadField(s, at + 10, 4);
    count := z.value + 4;
    pre, items := CodesOnly(s, at + 14, x.value + 257, y.value + 1, count);
    CountsOnly(s, at, PreBits(pre, 0, count) + ItemsBits(items, pre));
  }

  /** A dynamic header gives two codes exactly when its bits announce them, whatever runs their lengths are sent in. */
  lemma DynamicExactly(s: seq<bool>, at: nat, end: nat, lit: seq<nat>, dist: seq<nat>)
    requires at <= |s|
    ensures ParseDynamic(s, at) == Got(CodePair(lit, dist), end) <==> exists pre, count: nat, items :: Header(s, at, end, lit, dist, pre, count, items)
  {
    hide ParseDynamic, Has, Announceable, AfterKind, ItemsBits, AllCoded, Expand;
    if ParseDynamic(s, at) == Got(CodePair(lit, dist), end) {
      var pre, count, items := DynamicOnly(s, at);
    }
    forall pre, count: nat, items | Header(s, at, end, lit, dist, pre, count, items)
      ensures ParseDynamic(s, at) == Got(CodePair(lit, dist), end)
    {
      ItemsDeliver(items, lit + dist, pre) by { AnnouncedPre(lit, dist, pre, count); }
      DynamicBack(s, at, lit, dist, pre, count, ItemsBits(items, pre), end);
    }
  }

  lemma FixedOpens()
    ensures Opens(LsbBits(2, 3), FixedLiteral(), FixedDistance(), FixedHuffman)
  {
    hide ParseOps, Has, LsbBits, ReadField;
    forall s, at: nat | Has(s, at, LsbBits(2, 3))
      ensures at + 3 <= |s| && ParseBlock(s, at) == FromOps(ParseOps(s, at + 3, FixedLiteral(), FixedDistance(), []), FixedHuffman, false)
    {
      HeaderBack(s, at, 2);
      HasEnd(s, at, LsbBits(2, 3));
    }
  }
}
