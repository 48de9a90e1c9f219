/** The run-coded lengths of a dynamic block header, RFC 1951 section 3.2.7: which bits stand for which lengths. */
module RunCodedLengths {
  import opened Seqs
  import opened Sums
  import opened BitStream
  import opened LsbStream
  import opened Canonical
  import opened InflateTable
  import opened DeflateBlocks
  import opened DeflateCodes

  /** One length; the length before it 3 to 6 times more; 3 to 10 zeros; 11 to 138 zeros. */
  datatype Item = One(length: nat) | Again(count: nat) | Gap(count: nat) | WideGap(count: nat)

  /** The item can follow these lengths. */
  predicate Follows(item: Item, done: seq<nat>)
  {
    match item
    case One(length) => length <= 15
    case Again(count) => 3 <= count <= 6 && done != []
    case Gap(count) => 3 <= count <= 10
    case WideGap(count) => 11 <= count <= 138
  }

  /** The lengths that the item adds. */
  function Added(item: Item, done: seq<nat>): (r: seq<nat>)
    requires Follows(item, done)
    ensures |r| >= 1
  {
    match item
    case One(length) => [length]
    case Again(count) => Repeated(done[|done| - 1], count)
    case Gap(count) => Repeated(0, count)
    case WideGap(count) => Repeated(0, count)
  }

  /** The items bring the lengths from `done` up to `all`. */
  ghost predicate Expand(items: seq<Item>, done: seq<nat>, all: seq<nat>)
  {
    if items == [] then done == all else Follows(items[0], done) && Expand(items[1..], done + Added(items[0], done), all)
  }

  function SymbolOf(item: Item): nat
  {
    match item
    case One(length) => length
    case Again(_) => 16
    case Gap(_) => 17
    case WideGap(_) => 18
  }

  function RepeatBits(item: Item): seq<bool>
  {
    match item
    case One(_) => []
    case Again(count) => LsbBits(if count < 3 then 0 else count - 3, 2)
    case Gap(count) => LsbBits(if count < 3 then 0 else count - 3, 3)
    case WideGap(count) => LsbBits(if count < 11 then 0 else count - 11, 7)
  }

  /** Each item is its symbol's code word and the bits of its count. */
  function ItemBits(item: Item, pre: seq<nat>): seq<bool>
  {
    Spelled(pre, SymbolOf(item)) + RepeatBits(item)
  }

  function ItemsBits(items: seq<Item>, pre: seq<nat>): seq<bool>
  {
    if items == [] then [] else ItemBits(items[0], pre) + ItemsBits(items[1..], pre)
  }

  ghost predicate AllCoded(items: seq<Item>, pre: seq<nat>)
  {
    forall i :: 0 <= i < |items| ==> Coded(pre, SymbolOf(items[i]))
  }

  // ----- Reading back -----

  lemma {:induction false} ExpandGrows(items: seq<Item>, done: seq<nat>, all: seq<nat>)
    requires Expand(items, done, all)
    ensures |done| <= |all| && (items != [] ==> |done| + |Added(items[0], done)| <= |all|)
  {
    if items != [] {
      ExpandGrows(items[1..], done + Added(items[0], done), all);
    }
  }

  lemma RepeatBack(s: seq<bool>, at: nat, lens: seq<nat>, total: nat, value: nat, base: nat, extra: nat, count: nat)
    requires 1 <= base <= count < base + Pow2(extra) && |lens| + count <= total && Has(s, at, LsbBits(count - base, extra))
    ensures at + extra <= |s| && ParseRepeat(s, at, lens, total, value, base, extra) == Got(lens + Repeated(value, count), at + extra)
  {
    hide Has, LsbBits, Pow2, ReadField, Repeated;
    FieldBack(s, at, count - base, extra);
    HasEnd(s, at, LsbBits(count - base, extra));
  }

  /** One step of the parser reads one item. */
  lemma ItemBack(s: seq<bool>, at: nat, item: Item, pre: seq<nat>, done: seq<nat>, total: nat)
    requires Codes(pre) && Coded(pre, SymbolOf(item)) && Follows(item, done) && |done| + |Added(item, done)| <= total
    requires Has(s, at, ItemBits(item, pre))
    ensures var next := at + |ItemBits(item, pre)|;
      at <= next <= |s| && ParseLengths(s, at, pre, done, total) == ParseLengths(s, next, pre, done + Added(item, done), total)
  {
    hide Has, Codes, NextSym, Spelled, LsbBits, ParseRepeat, Repeated, Pow2;
    var word, rest := Spelled(pre, SymbolOf(item)), RepeatBits(item);
    HasSplit(s, at, word, rest);
    WordBack(pre, s, at, SymbolOf(item));
    HasEnd(s, at + |word|, rest);
    SmallPowers();
    match item
    case One(length) =>
    case Again(count) => RepeatBack(s, at + |word|, done, total, done[|done| - 1], 3, 2, count);
    case Gap(count) => RepeatBack(s, at + |word|, done, total, 0, 3, 3, count);
    case WideGap(count) => RepeatBack(s, at + |word|, done, total, 0, 11, 7, count);
  }

  /** Every run-coded form of a list of lengths reads as that list, up to its last bit. */
  lemma {:induction false} ItemsBack(s: seq<bool>, at: nat, items: seq<Item>, pre: seq<nat>, done: seq<nat>, all: seq<nat>)
    requires at <= |s| && Codes(pre) && AllCoded(items, pre) && Expand(items, done, all) && Has(s, at, ItemsBits(items, pre))
    ensures |done| <= |all| && ParseLengths(s, at, pre, done, |all|) == Got(all, at + |ItemsBits(items, pre)|)
    decreases |items|
  {
    hide Has, Codes, NextSym, ItemBits, Added, Follows, ParseLengths;
    ExpandGrows(items, done, all);
    if items == [] {
      NothingLeft(s, at, pre, all);
    } else {
      var bits := ItemBits(items[0], pre);
      HasSplit(s, at, bits, ItemsBits(items[1..], pre));
      ItemBack(s, at, items[0], pre, done, |all|);
      ItemsBack(s, at + |bits|, items[1..], pre, done + Added(items[0], done), all);
    }
  }

  lemma NothingLeft(s: seq<bool>, at: nat, pre: seq<nat>, all: seq<nat>)
    requires at <= |s|
    ensures ParseLengths(s, at, pre, all, |all|) == Got(all, at)
  {
  }

  // ----- Nothing else is read -----

  lemma FieldOnly(s: seq<bool>, at: nat, n: nat)
    requires ReadField(s, at, n).Got?
    ensures Has(s, at, LsbBits(ReadField(s, at, n).value, n)) && ReadField(s, at, n).value < Pow2(n)
  {
    LsbOfValue(s[at..at + n]);
    LsbBound(s[at..at + n]);
  }

  lemma WordOnly(pre: seq<nat>, s: seq<bool>, at: nat)
    requires NextSym(pre, s, at).Got?
    ensures var symbol := NextSym(pre, s, at).value;
      Coded(pre, symbol) && Has(s, at, Spelled(pre, symbol)) && NextSym(pre, s, at).at == at + |Spelled(pre, symbol)|
  {
    hide Word;
    var i: nat :| Begins(pre, s, at, i) && NextSym(pre, s, at) == Got(i, at + pre[i]);
  }

  lemma RepeatOnly(s: seq<bool>, at: nat, lens: seq<nat>, total: nat, value: nat, base: nat, extra: nat) returns (count: nat)
    requires base >= 1 && ParseRepeat(s, at, lens, total, value, base, extra).Got?
    ensures base <= count < base + Pow2(extra) && |lens| + count <= total && Has(s, at, LsbBits(count - base, extra))
    ensures ParseRepeat(s, at, lens, total, value, base, extra) == Got(lens + Repeated(value, count), at + extra)
  {
    hide Has, LsbBits, Pow2, ReadField, Repeated;
    FieldOnly(s, at, extra);
    count := base + ReadField(s, at, extra).value;
  }

  /** One step of the parser read one item. */
  lemma ItemOnly(s: seq<bool>, at: nat, pre: seq<nat>, done: seq<nat>, total: nat) returns (item: Item)
    requires at <= |s| && |done| < total && ParseLengths(s, at, pre, done, total).Got?
    ensures Coded(pre, SymbolOf(item)) && Follows(item, done) && |done| + |Added(item, done)| <= total && Has(s, at, ItemBits(item, pre))
    ensures var next := at + |ItemBits(item, pre)|;
      next <= |s| && ParseLengths(s, at, pre, done, total) == ParseLengths(s, next, pre, done + Added(item, done), total)
  {
    hide Has, NextSym, Spelled, LsbBits, ParseRepeat, Repeated, Pow2;
    WordOnly(pre, s, at);
    SmallPowers();
    var symbol := NextSym(pre, s, at);
    if symbol.value <= 15 {
      item := One(symbol.value);
      assert ItemBits(item, pre) == Spelled(pre, symbol.value);
    } else {
      var count: nat;
      if symbol.value == 16 {
        count := RepeatOnly(s, symbol.at, done, total, done[|done| - 1], 3, 2);
        item := Again(count);
      } else if symbol.value == 17 {
        count := RepeatOnly(s, symbol.at, done, total, 0, 3, 3);
        item := Gap(count);
      } else {
        count := RepeatOnly(s, symbol.at, done, total, 0, 11, 7);
        item := WideGap(count);
      }
      HasBoth(s, at, Spelled(pre, SymbolOf(item)), RepeatBits(item));
    }
  }

  /** Whatever the parser reads is a run-coded form of the lengths it gives. */
  lemma {:induction false} ItemsOnly(s: seq<bool>, at: nat, pre: seq<nat>, done: seq<nat>, total: nat) returns (items: seq<Item>)
    requires at <= |s| && |done| <= total && ParseLengths(s, at, pre, done, total).Got?
    ensures AllCoded(items, pre) && Expand(items, done, ParseLengths(s, at, pre, done, total).value)
    ensures Has(s, at, ItemsBits(items, pre)) && ParseLengths(s, at, pre, done, total).at == at + |ItemsBits(items, pre)|
    decreases total - |done|
  {
    hide NextSym, ItemBits, Added, Follows, ParseLengths;
    if |done| == total {
      items := [];
      NothingLeft(s, at, pre, done);
    } else {
      hide Has;
      var item := ItemOnly(s, at, pre, done, total);
      var rest := ItemsOnly(s, at + |ItemBits(item, pre)|, pre, done + Added(item, done), total);
      items := [item] + rest;
      assert items[1..] == rest;
      HasBoth(s, at, ItemBits(item, pre), ItemsBits(rest, pre));
    }
  }
}
