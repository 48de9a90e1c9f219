/** Decoding a block at the largest level and then checking its length is decoding it at its own level. */
module BlockLevels {
  import opened Bytes
  import opened BitReading
  import opened Canonical
  import opened Options
  import opened Rle1
  import opened BlockCodec
  import opened SymbolStream
  import opened SymbolMap
  import opened CodeLengths
  import opened MoveToFront
  import opened Huffman
  import Bwt
  import Coding
  import Mtf

  // ----- One symbol -----

  /** What is decided about the block's length so far. */
  function Claimed(st: Mtf.State): nat
  {
    |st.out| + st.run
  }

  /** A symbol accepted under a small limit is accepted the same under a larger one. */
  lemma TakeLarger(st: Mtf.State, symbol: nat, small: nat, big: nat)
    requires st.list != [] && |st.out| <= small <= big && !Mtf.Take(st, symbol, small).Bad?
    ensures Mtf.Take(st, symbol, big) == Mtf.Take(st, symbol, small)
    ensures Mtf.Take(st, symbol, small).More? ==> |Mtf.Take(st, symbol, small).state.out| <= small
    ensures Mtf.Take(st, symbol, small).Done? ==> |Mtf.Take(st, symbol, small).block| <= small
  {
    hide MoveFront;
  }

  /** A symbol accepted under a large limit claims no fewer bytes, and is accepted under any limit that holds what it claims. */
  lemma TakeSmaller(st: Mtf.State, symbol: nat, small: nat, big: nat)
    requires st.list != [] && |st.out| <= small <= big && !Mtf.Take(st, symbol, big).Bad?
    ensures var o := Mtf.Take(st, symbol, big);
      var claimed := if o.More? then Claimed(o.state) else |o.block|;
      Claimed(st) <= claimed && (claimed <= small ==> Mtf.Take(st, symbol, small) == o)
  {
    hide MoveFront, BitStream.Shl;
  }

  // ----- All symbols -----

  lemma {:induction false} SymbolsLarger(s: seq<bool>, at: nat, tables: seq<seq<nat>>, selectors: seq<nat>, k: nat, st: Mtf.State, small: nat, big: nat)
    requires Selectable(tables, selectors) && st.list != [] && at <= |s| && |st.out| <= small <= big
    requires ParseSymbols(s, at, tables, selectors, k, st, small).Parsed?
    ensures ParseSymbols(s, at, tables, selectors, k, st, big) == ParseSymbols(s, at, tables, selectors, k, st, small)
    ensures |ParseSymbols(s, at, tables, selectors, k, st, small).value| <= small
    decreases |s| - at
  {
    hide NextSymbol, Longest, Mtf.Take, ParseSymbols;
    HasSelector(s, at, tables, selectors, k, st, small);
    SymbolStream.ParseStep(s, at, tables, selectors, k, st, small);
    SymbolStream.ParseStep(s, at, tables, selectors, k, st, big);
    var table := tables[selectors[k / Coding.GROUP_SIZE]];
    var symbol := NextSymbol(table, Longest(table), s, at);
    TakeLarger(st, symbol.value, small, big);
    var o := Mtf.Take(st, symbol.value, small);
    if o.More? {
      SymbolsLarger(s, symbol.at, tables, selectors, k + 1, o.state, small, big);
    }
  }

  /** A parse that succeeds had a selector. */
  lemma HasSelector(s: seq<bool>, at: nat, tables: seq<seq<nat>>, selectors: seq<nat>, k: nat, st: Mtf.State, size: nat)
    requires Selectable(tables, selectors) && st.list != [] && at <= |s| && ParseSymbols(s, at, tables, selectors, k, st, size).Parsed?
    ensures k / Coding.GROUP_SIZE < |selectors|
  {
  }

  lemma {:induction false} SymbolsClaim(s: seq<bool>, at: nat, tables: seq<seq<nat>>, selectors: seq<nat>, k: nat, st: Mtf.State, size: nat)
    requires Selectable(tables, selectors) && st.list != [] && at <= |s| && |st.out| <= size
    requires ParseSymbols(s, at, tables, selectors, k, st, size).Parsed?
    ensures Claimed(st) <= |ParseSymbols(s, at, tables, selectors, k, st, size).value|
    decreases |s| - at
  {
    hide NextSymbol, Longest, Mtf.Take, ParseSymbols;
    HasSelector(s, at, tables, selectors, k, st, size);
    SymbolStream.ParseStep(s, at, tables, selectors, k, st, size);
    var table := tables[selectors[k / Coding.GROUP_SIZE]];
    var symbol := NextSymbol(table, Longest(table), s, at);
    TakeSmaller(st, symbol.value, size, size);
    TakeLarger(st, symbol.value, size, size);
    var o := Mtf.Take(st, symbol.value, size);
    if o.More? {
      SymbolsClaim(s, symbol.at, tables, selectors, k + 1, o.state, size);
    }
  }

  lemma {:induction false} SymbolsSmaller(s: seq<bool>, at: nat, tables: seq<seq<nat>>, selectors: seq<nat>, k: nat, st: Mtf.State, small: nat, big: nat)
    requires Selectable(tables, selectors) && st.list != [] && at <= |s| && small <= big && |st.out| <= small
    requires ParseSymbols(s, at, tables, selectors, k, st, big).Parsed? && |ParseSymbols(s, at, tables, selectors, k, st, big).value| <= small
    ensures ParseSymbols(s, at, tables, selectors, k, st, small) == ParseSymbols(s, at, tables, selectors, k, st, big)
    decreases |s| - at
  {
    hide NextSymbol, Longest, Mtf.Take, ParseSymbols;
    HasSelector(s, at, tables, selectors, k, st, big);
    SymbolStream.ParseStep(s, at, tables, selectors, k, st, small);
    SymbolStream.ParseStep(s, at, tables, selectors, k, st, big);
    var table := tables[selectors[k / Coding.GROUP_SIZE]];
    var symbol := NextSymbol(table, Longest(table), s, at);
    var o := Mtf.Take(st, symbol.value, big);
    TakeSmaller(st, symbol.value, small, big);
    TakeLarger(st, symbol.value, big, big);
    if o.More? {
      SymbolsClaim(s, symbol.at, tables, selectors, k + 1, o.state, big);
      SymbolsSmaller(s, symbol.at, tables, selectors, k + 1, o.state, small, big);
    }
  }

  // ----- Headers and tables do not depend on the limit -----

  /** Two parses of a last column under different limits agree wherever the result fits the smaller one. */
  ghost predicate Agree(small: Parse<seq<Byte>>, big: Parse<seq<Byte>>, limit: nat)
  {
    && (small.Parsed? ==> big == small && |small.value| <= limit)
    && (big.Parsed? && |big.value| <= limit ==> small == big)
  }

  lemma TabledAgree(s: seq<bool>, at: nat, tables: nat, selectors: seq<nat>, alphabet: seq<Byte>, small: nat, big: nat)
    requires alphabet != [] && at <= |s| && MoveToFront.Known(Range(tables), selectors) && small <= big
    ensures Agree(ParseTabled(s, at, tables, selectors, alphabet, small), ParseTabled(s, at, tables, selectors, alphabet, big), small)
  {
    hide ParseSymbols, ParseTables;
    var lens := ParseTables(s, at, |alphabet| + 2, [], tables);
    if lens.Parsed? {
      TablesSized(s, at, |alphabet| + 2, [], tables);
      var st := Mtf.State(alphabet, [], 0, 0);
      if ParseSymbols(s, lens.at, lens.value, selectors, 0, st, small).Parsed? {
        SymbolsLarger(s, lens.at, lens.value, selectors, 0, st, small, big);
      }
      var p := ParseSymbols(s, lens.at, lens.value, selectors, 0, st, big);
      if p.Parsed? && |p.value| <= small {
        SymbolsSmaller(s, lens.at, lens.value, selectors, 0, st, small, big);
      }
    }
  }

  lemma CodedAgree(s: seq<bool>, at: nat, alphabet: seq<Byte>, small: nat, big: nat)
    requires alphabet != [] && small <= big
    ensures Agree(ParseCoded(s, at, alphabet, small), ParseCoded(s, at, alphabet, big), small)
  {
    hide ParseTabled, ParseSelectors;
    var tables := ReadBits(s, at, 3);
    if tables.Parsed? && 2 <= tables.value <= 6 {
      var count := ReadBits(s, tables.at, 15);
      if count.Parsed? && count.value != 0 {
        var selectors := ParseSelectors(s, count.at, Range(tables.value), [], count.value);
        if selectors.Parsed? {
          SelectorsKnown(s, count.at, Range(tables.value), [], count.value);
          TabledAgree(s, selectors.at, tables.value, selectors.value, alphabet, small, big);
        }
      }
    }
  }

  /** The output limit of a level never stops a block that fits the level. */
  lemma FinishAgrees(last: seq<Byte>, origin: nat, stored: nat, small: nat, big: nat, crc: Checksum)
    requires |last| <= small <= big && small % 5 == 0 && big % 5 == 0
    ensures Finish(last, origin, stored, small, crc) == Finish(last, origin, stored, big, crc)
    ensures Finish(last, origin, stored, small, crc).Ok? ==> Finish(last, origin, stored, small, crc).value.blockLen == |last|
  {
    hide Checked, Bwt.Walk, Limit, Plain;
    if last != [] && origin < |last| {
      var block := Bwt.Walk(last, Bwt.Links(last), origin, |last|);
      BlockExpands(block, small);
      BlockExpands(block, big);
    }
  }

  /**
   * The speculative decoder does not know the stream's level: it decodes at level 9 and the coordinator checks the length.
   * That accepts exactly the blocks that the stream's own level accepts, with the same result.
   */
  lemma LevelFree(s: seq<bool>, at: nat, level: nat, expected: Option<nat>, crc: Checksum)
    requires 1 <= level <= 9
    ensures var own, nine := ParseBlock(s, at, level, expected, crc), ParseBlock(s, at, 9, expected, crc);
      (own.Parsed? <==> nine.Parsed? && nine.value.blockLen <= Size(level)) && (own.Parsed? ==> own == nine)
  {
    hide ParseMap, ParseCoded, Finish, Alphabet, Agree;
    var stored := ReadBits(s, at, 32);
    if stored.Parsed? {
      var randomized := ReadBit(s, stored.at);
      if randomized.Parsed? {
        var origin := ReadBits(s, randomized.at, 24);
        if origin.Parsed? {
          var used := ParseMap(s, origin.at);
          if used.Parsed? && Alphabet(used.value) != [] {
            LastLevelFree(s, used.at, Alphabet(used.value), level, origin.value, stored.value, crc);
          }
        }
      }
    }
  }

  lemma LastLevelFree(s: seq<bool>, at: nat, alphabet: seq<Byte>, level: nat, origin: nat, stored: nat, crc: Checksum)
    requires 1 <= level <= 9 && alphabet != []
    ensures var own, nine := ParseCoded(s, at, alphabet, Size(level)), ParseCoded(s, at, alphabet, Size(9));
      && (own.Parsed? ==> nine == own && Finish(own.value, origin, stored, Size(level), crc) == Finish(own.value, origin, stored, Size(9), crc))
      && (nine.Parsed? && Finish(nine.value, origin, stored, Size(9), crc).Ok? ==>
            var d := Finish(nine.value, origin, stored, Size(9), crc).value;
            (own.Parsed? ==> d.blockLen <= Size(level)) && (d.blockLen <= Size(level) ==> own == nine))
  {
    hide ParseCoded, Finish;
    CodedAgree(s, at, alphabet, Size(level), Size(9));
    CodedAgree(s, at, alphabet, Size(9), Size(9));
    var own, nine := ParseCoded(s, at, alphabet, Size(level)), ParseCoded(s, at, alphabet, Size(9));
    if own.Parsed? {
      FinishAgrees(own.value, origin, stored, Size(level), Size(9), crc);
    }
    if nine.Parsed? {
      FinishAgrees(nine.value, origin, stored, Size(9), Size(9), crc);
    }
  }

  /** Naming the checksum that the block stores changes nothing. */
  lemma ExpectedStored(s: seq<bool>, at: nat, level: nat, crc: Checksum, stored: nat)
    requires ReadBits(s, at, 32).Parsed? && ReadBits(s, at, 32).value == stored
    ensures ParseBlock(s, at, level, Some(stored), crc) == ParseBlock(s, at, level, None, crc)
    ensures ParseBlock(s, at, level, None, crc).Parsed? ==> ParseBlock(s, at, level, None, crc).value.crc == stored
  {
    hide ParseMap, ParseCoded, Alphabet, Checked, Bwt.Walk, Limit;
  }
}
