/** Which symbols, and which bits, are the last column of a bzip2 block: in both directions. */
module SymbolForms {
  import opened Seqs
  import opened Bytes
  import opened Sums
  import opened BitStream
  import opened BitReading
  import opened Canonical
  import opened CodeLengths
  import opened MoveToFront
  import opened Mtf
  import opened SymbolStream
  import opened BlockForms
  import Coding

  // ----- Symbols and bytes -----

  /** The bytes that are still to come: a run of the front byte, then the end or a byte from further back. */
  ghost predicate Continues(list: seq<Byte>, run: nat, rest: seq<Byte>, symbols: seq<nat>)
    requires list != []
  {
    Within(rest, list) && if rest == [] then symbols == Run(run) + [|list| + 1]
    else var j := PositionOf(list, rest[0]); j > 0 && Within(rest[1..], MoveFront(list, j)) && symbols == Run(run) + [j + 1] + Symbols(rest[1..], MoveFront(list, j), 0)
  }

  /** Counting pending front bytes first. */
  lemma {:induction false} SymbolsAfterRun(list: seq<Byte>, run: nat, zeros: nat, rest: seq<Byte>)
    requires list != [] && Within(rest, list)
    ensures Within(Repeat(list[0], run) + rest, list) && Symbols(Repeat(list[0], run) + rest, list, zeros) == Symbols(rest, list, zeros + run)
    decreases run
  {
    var all := Repeat(list[0], run) + rest;
    forall i | 0 <= i < |all| ensures all[i] in list {
      if i >= run { assert all[i] == rest[i - run]; }
    }
    if run == 0 {
      assert all == rest;
    } else {
      hide Run;
      assert all[1..] == Repeat(list[0], run - 1) + rest;
      SymbolsAfterRun(list, run - 1, zeros + 1, rest);
    }
  }

  lemma ContinuesSymbols(list: seq<Byte>, run: nat, rest: seq<Byte>, symbols: seq<nat>)
    requires list != [] && Continues(list, run, rest, symbols)
    ensures Within(Repeat(list[0], run) + rest, list) && symbols == Symbols(Repeat(list[0], run) + rest, list, 0)
  {
    hide Run;
    SymbolsAfterRun(list, run, 0, rest);
  }

  /** One more digit of a run. */
  lemma RunDigit(list: seq<Byte>, digit: nat, run: nat, rest: seq<Byte>, symbols: seq<nat>)
    requires list != [] && digit < 2 && Continues(list, run, rest, symbols)
    ensures Continues(list, digit + 1 + 2 * run, rest, [digit] + symbols)
  {
    hide Symbols, PositionOf, MoveFront;
    var n := digit + 1 + 2 * run;
    RunUnfold(n, digit, run);
    hide Run;
    if rest == [] {
      Regroup([digit], Run(run), [|list| + 1]);
    } else {
      var j := PositionOf(list, rest[0]);
      Regroup([digit], Run(run) + [j + 1], Symbols(rest[1..], MoveFront(list, j), 0));
      Regroup([digit], Run(run), [j + 1]);
    }
  }

  lemma RunUnfold(n: nat, digit: nat, run: nat)
    requires n == digit + 1 + 2 * run && digit < 2
    ensures Run(n) == [digit] + Run(run)
  {
    assert digit == 0 ==> n % 2 == 1 && (n - 1) / 2 == run;
    assert digit == 1 ==> n % 2 == 0 && (n - 2) / 2 == run;
  }

  predicate Pending(st: State)
  {
    st.list != [] && (st.run == 0 <==> st.runBit == 0)
  }

  lemma RunGrows(st: State, digit: nat, m: nat)
    requires digit < 2
    ensures st.run + Shl(digit + 1, st.runBit) + Shl(m, st.runBit + 1) == st.run + Shl(digit + 1 + 2 * m, st.runBit)
  {
    hide Shl;
    ShlPlus(digit + 1, 2 * m, st.runBit);
    ShlDouble(m, st.runBit);
  }

  lemma DigitPositive(digit: nat, k: nat)
    ensures Shl(digit + 1, k) > 0
  {
    hide Pow2;
    ShlIsTimes(digit + 1, k);
    Large(digit + 1, Pow2(k));
  }

  lemma Large(a: nat, b: nat)
    requires a > 0 && b > 0
    ensures a * b > 0
  {
  }

  /** Only the last symbol is the end of the block. */
  ghost predicate EndsFirst(symbols: seq<nat>, eob: nat)
  {
    symbols != [] && forall i :: 0 <= i < |symbols| - 1 ==> symbols[i] != eob
  }

  /** Symbols that feed through to a block are, after the digits already read, the symbols of what is added to the output. */
  lemma {:induction false} FeedOnly(st: State, symbols: seq<nat>, size: nat) returns (m: nat, rest: seq<Byte>)
    requires Pending(st) && Distinct(st.list) && EndsFirst(symbols, |st.list| + 1) && Feed(st, symbols, size).Done? && |st.out| <= size
    ensures Feed(st, symbols, size).block == st.out + (Repeat(st.list[0], st.run + Shl(m, st.runBit)) + rest) && |Feed(st, symbols, size).block| <= size
    ensures Continues(st.list, m, rest, symbols)
    decreases |symbols|
  {
    hide Symbols, PositionOf, MoveFront, Distinct, Run, Shl, Continues, Take, Feed, Flushed, Within;
    var symbol, o, more := symbols[0], Take(st, symbols[0], size), symbols[1..];
    assert symbols == [symbol] + more;
    FeedFirst(st, symbols, size);
    if symbol <= 1 {
      TakeDigit(st, symbol, size);
      EndsLater(symbols, |st.list| + 1, symbol);
      var m', rest' := FeedOnly(o.state, more, size);
      m, rest := symbol + 1 + 2 * m', rest';
      RunGrows(st, symbol, m');
      RunDigit(st.list, symbol, m', rest, more);
    } else if symbol == |st.list| + 1 {
      TakeEnd(st, size);
      m, rest := 0, [];
      ContinuesEnd(st.list, symbols);
      FlushedRun(st, []);
    } else {
      TakeByte(st, symbol, size);
      EndsLater(symbols, |st.list| + 1, symbol);
      MovedDistinct(st.list, symbol - 1);
      PlaceOf(st.list, symbol - 1);
      var m', rest' := FeedOnly(o.state, more, size);
      ContinuesAt(o.state.list, m', rest', more);
      m, rest := 0, [st.list[symbol - 1]] + (Repeat(o.state.list[0], Shl(m', 0)) + rest');
      ContinuesByte(st.list, symbol - 1, rest, symbols);
      FlushedRun(st, rest);
      Regroup(Flushed(st), [st.list[symbol - 1]], Repeat(o.state.list[0], Shl(m', 0)) + rest');
    }
  }

  lemma FeedFirst(st: State, symbols: seq<nat>, size: nat)
    requires st.list != [] && symbols != [] && Feed(st, symbols, size).Done?
    ensures var o := Take(st, symbols[0], size);
      if o.More? then |symbols| > 1 && Feed(st, symbols, size) == Feed(o.state, symbols[1..], size) else o.Done? && Feed(st, symbols, size) == o
  {
    hide Take;
  }

  lemma TakeDigit(st: State, symbol: nat, size: nat)
    requires Pending(st) && symbol <= 1 && !Take(st, symbol, size).Bad?
    ensures var run := st.run + Shl(symbol + 1, st.runBit);
      Take(st, symbol, size) == More(State(st.list, st.out, run, st.runBit + 1)) && Pending(State(st.list, st.out, run, st.runBit + 1))
  {
    hide Shl;
    DigitPositive(symbol, st.runBit);
  }

  lemma TakeEnd(st: State, size: nat)
    requires Pending(st) && Take(st, |st.list| + 1, size).Done? && |st.out| <= size
    ensures Take(st, |st.list| + 1, size) == Done(Flushed(st)) && |Flushed(st)| <= size
  {
  }

  lemma TakeByte(st: State, symbol: nat, size: nat)
    requires Pending(st) && 2 <= symbol && symbol != |st.list| + 1 && !Take(st, symbol, size).Bad? && |st.out| <= size
    ensures 0 < symbol - 1 < |st.list|
    ensures var next := State(MoveFront(st.list, symbol - 1), Flushed(st) + [st.list[symbol - 1]], 0, 0);
      Take(st, symbol, size) == More(next) && Pending(next) && |next.out| <= size
  {
    hide Shl;
  }

  lemma FlushedRun(st: State, rest: seq<Byte>)
    requires st.list != []
    ensures st.out + (Repeat(st.list[0], st.run + Shl(0, st.runBit)) + rest) == Flushed(st) + rest
  {
    NoShift(st.runBit);
    assert st.out + (Repeat(st.list[0], st.run) + rest) == st.out + Repeat(st.list[0], st.run) + rest;
  }

  lemma EndsLater(symbols: seq<nat>, eob: nat, symbol: nat)
    requires EndsFirst(symbols, eob) && symbols[0] == symbol != eob && |symbols| > 1
    ensures EndsFirst(symbols[1..], eob)
  {
  }

  lemma NoShift(k: nat)
    ensures Shl(0, k) == 0
  {
    ShlIsTimes(0, k);
  }

  lemma ContinuesEnd(list: seq<Byte>, symbols: seq<nat>)
    requires list != [] && symbols[..] != [] && symbols == [|list| + 1]
    ensures Continues(list, 0, [], symbols)
  {
  }

  lemma ContinuesAt(list: seq<Byte>, m: nat, rest: seq<Byte>, symbols: seq<nat>)
    requires list != [] && Continues(list, m, rest, symbols)
    ensures Within(Repeat(list[0], Shl(m, 0)) + rest, list) && symbols == Symbols(Repeat(list[0], Shl(m, 0)) + rest, list, 0)
  {
    ContinuesSymbols(list, m, rest, symbols);
  }

  lemma ContinuesByte(list: seq<Byte>, j: nat, rest: seq<Byte>, symbols: seq<nat>)
    requires 0 < j < |list| && rest != [] && rest[0] == list[j] && PositionOf(list, list[j]) == j
    requires Within(rest[1..], MoveFront(list, j)) && symbols == [j + 1] + Symbols(rest[1..], MoveFront(list, j), 0)
    ensures Continues(list, 0, rest, symbols)
  {
    hide Symbols, PositionOf, MoveFront;
    Moved(list, j);
    forall i | 0 <= i < |rest| ensures rest[i] in list {
      if i > 0 { assert rest[i] == rest[1..][i - 1]; }
    }
    assert Run(0) + [j + 1] == [j + 1];
  }

  /** The decoder's accumulator gives a block exactly for the symbols of that block. */
  lemma FeedExactly(list: seq<Byte>, symbols: seq<nat>, size: nat, block: seq<Byte>)
    requires list != [] && Distinct(list) && size < 0x7FFF_FFFF && EndsFirst(symbols, |list| + 1)
    ensures Feed(State(list, [], 0, 0), symbols, size) == Done(block) <==> Within(block, list) && |block| <= size && symbols == Symbols(block, list, 0)
  {
    hide Feed, Symbols, Continues, Distinct, EndsFirst;
    if Feed(State(list, [], 0, 0), symbols, size) == Done(block) {
      var m, rest := FeedOnly(State(list, [], 0, 0), symbols, size);
      ContinuesAt(list, m, rest, symbols);
      assert 0 + Shl(m, 0) == Shl(m, 0);
      assert [] + (Repeat(list[0], Shl(m, 0)) + rest) == Repeat(list[0], Shl(m, 0)) + rest;
    }
    if Within(block, list) && |block| <= size && symbols == Symbols(block, list, 0) {
      assert block[0..] == block && block[..0] == [];
      SymbolsRoundTrip(list, block, 0, 0, size);
    }
  }

  // ----- Symbols and bits -----

  /** A code word read is there. */
  lemma SymbolOnly(s: seq<bool>, at: nat, table: seq<nat>)
    requires table != [] && NextSymbol(table, Longest(table), s, at).Parsed?
    ensures var p := NextSymbol(table, Longest(table), s, at); p.value < |table| && Has(s, at, Word(table, p.value)) && p.at == at + |Word(table, p.value)|
  {
    hide Word, Longest;
    var i: nat :| Begins(table, s, at, i) && NextSymbol(table, Longest(table), s, at) == Parsed(i, at + table[i]);
  }

  lemma CoveredMore(tables: seq<seq<nat>>, selectors: seq<nat>, before: seq<nat>, symbol: nat)
    requires Covered(tables, selectors, before) && |before| / Coding.GROUP_SIZE < |selectors|
    requires symbol < |tables[selectors[|before| / Coding.GROUP_SIZE]]|
    ensures Covered(tables, selectors, before + [symbol])
  {
  }

  /** Whatever is read as the symbols of a block is code words, fifty to a selector, that feed through to the block. */
  lemma {:induction false} WordsOnly(s: seq<bool>, at: nat, tables: seq<seq<nat>>, selectors: seq<nat>, before: seq<nat>, st: State, size: nat) returns (rest: seq<nat>)
    requires Selectable(tables, selectors) && st.list != [] && at <= |s| && Covered(tables, selectors, before)
    requires ParseSymbols(s, at, tables, selectors, |before|, st, size).Parsed?
    ensures EndsFirst(rest, |st.list| + 1) && Feed(st, rest, size) == Done(ParseSymbols(s, at, tables, selectors, |before|, st, size).value)
    ensures Covered(tables, selectors, before + rest) && Has(s, at, SymbolBits(tables, selectors, before + rest, |before|))
    ensures ParseSymbols(s, at, tables, selectors, |before|, st, size).at == at + |SymbolBits(tables, selectors, before + rest, |before|)|
    decreases |s| - at
  {
    hide SymbolBits, ParseSymbols, NextSymbol, Take, Feed, Word, Longest, Has, Covered;
    var k := |before|;
    assert k / Coding.GROUP_SIZE < |selectors| by { SelectorLeft(s, at, tables, selectors, k, st, size); }
    var table := tables[selectors[k / Coding.GROUP_SIZE]];
    SymbolStream.ParseStep(s, at, tables, selectors, k, st, size);
    SymbolOnly(s, at, table);
    var symbol := NextSymbol(table, Longest(table), s, at);
    CoveredMore(tables, selectors, before, symbol.value) by { assert symbol.value < |table|; }
    var o := Take(st, symbol.value, size);
    var tail: seq<nat> := [];
    if o.More? {
      tail := WordsOnly(s, symbol.at, tables, selectors, before + [symbol.value], o.state, size);
    }
    rest := [symbol.value] + tail;
    assert rest[0..] == rest && rest[1..] == tail;
    SymbolStream.FeedStep(st, rest, 0, size);
    Regroup(before, [symbol.value], tail);
    assert (before + rest)[k] == symbol.value;
    BitsStep(tables, selectors, before + rest, k);
    if o.Done? {
      assert before + rest == before + [symbol.value];
      NoBits(tables, selectors, before + rest);
      HasEmpty(s, symbol.at);
    }
    HasBoth(s, at, Word(table, symbol.value), SymbolBits(tables, selectors, before + rest, k + 1));
  }

  lemma HasEmpty(s: seq<bool>, at: nat)
    requires at <= |s|
    ensures Has(s, at, [])
  {
  }

  lemma SelectorLeft(s: seq<bool>, at: nat, tables: seq<seq<nat>>, selectors: seq<nat>, k: nat, st: State, size: nat)
    requires Selectable(tables, selectors) && st.list != [] && at <= |s| && ParseSymbols(s, at, tables, selectors, k, st, size).Parsed?
    ensures k / Coding.GROUP_SIZE < |selectors|
  {
  }

  /** Every symbol, with fifty to a selector, has a code word in the table selected for it. */
  ghost predicate Selected(tables: seq<seq<nat>>, selectors: seq<nat>, symbols: seq<nat>)
  {
    forall k :: 0 <= k < |symbols| ==> InTable(tables, selectors, symbols, k)
  }

  ghost predicate InTable(tables: seq<seq<nat>>, selectors: seq<nat>, symbols: seq<nat>, k: nat)
    requires k < |symbols|
  {
    k / 50 < |selectors| && selectors[k / 50] < |tables| && symbols[k] < |tables[selectors[k / 50]]|
  }

  /** The code words of the symbols from the `k`-th on. */
  ghost function Words(tables: seq<seq<nat>>, selectors: seq<nat>, symbols: seq<nat>, k: nat): seq<bool>
    requires Selected(tables, selectors, symbols) && k <= |symbols|
    decreases |symbols| - k
  {
    if k == |symbols| then [] else
      assert InTable(tables, selectors, symbols, k);
      Word(tables[selectors[k / 50]], symbols[k]) + Words(tables, selectors, symbols, k + 1)
  }

  lemma SelectedCovered(tables: seq<seq<nat>>, selectors: seq<nat>, symbols: seq<nat>)
    requires Selectable(tables, selectors)
    ensures Selected(tables, selectors, symbols) <==> Covered(tables, selectors, symbols)
  {
    if Covered(tables, selectors, symbols) {
      forall k | 0 <= k < |symbols| ensures InTable(tables, selectors, symbols, k) {
        assert k / Coding.GROUP_SIZE < |selectors|;
      }
    }
    if Selected(tables, selectors, symbols) {
      forall k | 0 <= k < |symbols| ensures k / Coding.GROUP_SIZE < |selectors| && symbols[k] < |tables[selectors[k / Coding.GROUP_SIZE]]| {
        assert InTable(tables, selectors, symbols, k);
      }
    }
  }

  lemma {:induction false} WordsAre(tables: seq<seq<nat>>, selectors: seq<nat>, symbols: seq<nat>, k: nat)
    requires Selected(tables, selectors, symbols) && Covered(tables, selectors, symbols) && k <= |symbols|
    ensures Words(tables, selectors, symbols, k) == SymbolBits(tables, selectors, symbols, k)
    decreases |symbols| - k
  {
    hide Word, Covered, Selected;
    if k < |symbols| {
      WordsAre(tables, selectors, symbols, k + 1);
    }
  }

  /** The last column `block` stands from `at` to `end`, in code words of its move-to-front symbols. */
  ghost predicate Column(s: seq<bool>, at: nat, end: nat, tables: seq<seq<nat>>, selectors: seq<nat>, list: seq<Byte>, block: seq<Byte>)
  {
    && Within(block, list) && Selected(tables, selectors, Symbols(block, list, 0))
    && Has(s, at, Words(tables, selectors, Symbols(block, list, 0), 0))
    && end == at + |Words(tables, selectors, Symbols(block, list, 0), 0)|
  }

  lemma ColumnExactly(s: seq<bool>, at: nat, end: nat, tables: seq<seq<nat>>, selectors: seq<nat>, list: seq<Byte>, size: nat, block: seq<Byte>)
    requires at <= |s| && list != [] && Distinct(list) && size < 0x7FFF_FFFF && Usable(tables, |list| + 2) && Selectable(tables, selectors)
    ensures ParseSymbols(s, at, tables, selectors, 0, State(list, [], 0, 0), size) == Parsed(block, end)
            <==> |block| <= size && Column(s, at, end, tables, selectors, list, block)
  {
    hide ParseSymbols, Feed, Symbols, SymbolBits, Distinct, Has, Covered, Selected, Words, EndsFirst, Usable, Within, Selectable;
    var st := State(list, [], 0, 0);
    if ParseSymbols(s, at, tables, selectors, 0, st, size) == Parsed(block, end) {
      NothingCovered(tables, selectors);
      var symbols := WordsOnly(s, at, tables, selectors, [], st, size);
      assert [] + symbols == symbols;
      FeedExactly(list, symbols, size, block);
      SelectedCovered(tables, selectors, symbols);
      WordsAre(tables, selectors, symbols, 0);
    }
    if |block| <= size && Column(s, at, end, tables, selectors, list, block) {
      var symbols := Symbols(block, list, 0);
      SymbolsEndOnce(block, list);
      SelectedCovered(tables, selectors, symbols);
      WordsAre(tables, selectors, symbols, 0);
      FeedExactly(list, symbols, size, block);
      assert symbols[0..] == symbols;
      SymbolsParse(s, at, tables, selectors, symbols, 0, st, size, block, SymbolBits(tables, selectors, symbols, 0));
    }
  }

  lemma NothingCovered(tables: seq<seq<nat>>, selectors: seq<nat>)
    requires Selectable(tables, selectors)
    ensures Covered(tables, selectors, [])
  {
  }

  lemma SymbolsEndOnce(block: seq<Byte>, list: seq<Byte>)
    requires list != [] && Within(block, list)
    ensures var symbols := Symbols(block, list, 0);
      EndsFirst(symbols, |list| + 1) && symbols[|symbols| - 1] == |list| + 1 && forall i :: 0 <= i < |symbols| - 1 ==> symbols[i] < |list| + 1
  {
    hide Symbols;
    assert block[0..] == block;
    SymbolsEnd(block, list, 0, 0);
  }
}
