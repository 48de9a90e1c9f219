/** The Huffman-coded symbols of a bzip2 block, from symbols to bits and from bits back to the block. */
module SymbolStream {
  import opened Bytes
  import opened Seqs
  import opened BitStream
  import opened BitReading
  import opened BitWriting
  import opened Canonical
  import opened Huffman
  import opened MoveToFront
  import opened CodeLengths
  import opened Buckets
  import opened SuffixOrder
  import Bwt
  import Coding
  import Mtf

  /** Every symbol has its group's selector, every selector its table, and every symbol its code. */
  ghost predicate Covered(tables: seq<seq<nat>>, selectors: seq<nat>, syms: seq<nat>)
  {
    && (forall i :: 0 <= i < |selectors| ==> selectors[i] < |tables|)
    && forall k :: 0 <= k < |syms| ==> k / Coding.GROUP_SIZE < |selectors| && syms[k] < |tables[selectors[k / Coding.GROUP_SIZE]]|
  }

  /** The code words of the symbols from the `k`th on. */
  function SymbolBits(tables: seq<seq<nat>>, selectors: seq<nat>, syms: seq<nat>, k: nat): seq<bool>
    requires Covered(tables, selectors, syms) && k <= |syms|
    decreases |syms| - k
  {
    if k == |syms| then []
    else Word(tables[selectors[k / Coding.GROUP_SIZE]], syms[k]) + SymbolBits(tables, selectors, syms, k + 1)
  }

  /** The greatest code length of a table. */
  function Longest(ls: seq<nat>): (l: nat)
    requires ls != []
    ensures l in ls && forall i :: 0 <= i < |ls| ==> ls[i] <= l
  {
    if |ls| == 1 then ls[0] else
      var l := Longest(ls[..|ls| - 1]);
      if ls[|ls| - 1] > l then ls[|ls| - 1] else l
  }

  /** Every selector names a table and no table is empty. */
  predicate Selectable(tables: seq<seq<nat>>, selectors: seq<nat>)
  {
    NoneEmpty(tables) && forall i :: 0 <= i < |selectors| ==> selectors[i] < |tables|
  }

  /** Decode symbols from the `k`th on, 50 to a selector, until the end-of-block symbol. */
  ghost function ParseSymbols(s: seq<bool>, at: nat, tables: seq<seq<nat>>, selectors: seq<nat>, k: nat, st: Mtf.State, size: nat): (p: Parse<seq<Byte>>)
    requires Selectable(tables, selectors) && st.list != [] && at <= |s|
    ensures p.Parsed? ==> at <= p.at <= |s|
    decreases |s| - at
  {
    if k / Coding.GROUP_SIZE >= |selectors| then Failed(InvalidBlock) else
      var table := tables[selectors[k / Coding.GROUP_SIZE]];
      var symbol := NextSymbol(table, Longest(table), s, at);
      if symbol.Failed? then Failed(symbol.error) else
        match Mtf.Take(st, symbol.value, size)
        case Bad(e) => Failed(e)
        case Done(block) => Parsed(block, symbol.at)
        case More(next) => ParseSymbols(s, symbol.at, tables, selectors, k + 1, next, size)
  }

  // ----- Round trip -----

  lemma ParseStep(s: seq<bool>, at: nat, tables: seq<seq<nat>>, selectors: seq<nat>, k: nat, st: Mtf.State, size: nat)
    requires Selectable(tables, selectors) && st.list != [] && at <= |s| && k / Coding.GROUP_SIZE < |selectors|
    ensures var table := tables[selectors[k / Coding.GROUP_SIZE]];
            var symbol := NextSymbol(table, Longest(table), s, at);
            ParseSymbols(s, at, tables, selectors, k, st, size) ==
            if symbol.Failed? then Failed(symbol.error) else
              match Mtf.Take(st, symbol.value, size)
              case Bad(e) => Failed(e)
              case Done(block) => Parsed(block, symbol.at)
              case More(next) => ParseSymbols(s, symbol.at, tables, selectors, k + 1, next, size)
  {
    hide NextSymbol, Mtf.Take, Longest;
  }

  lemma WordIsNext(s: seq<bool>, at: nat, table: seq<nat>, symbol: nat)
    requires Buildable(table) && symbol < |table| && Has(s, at, Word(table, symbol))
    ensures NextSymbol(table, Longest(table), s, at) == Parsed(symbol, at + |Word(table, symbol)|)
  {
    hide NextSymbol, Word;
    FitsWithin(table, Longest(table));
    NextSymbolIs(table, Longest(table), s, at, symbol);
  }

  lemma BitsStep(tables: seq<seq<nat>>, selectors: seq<nat>, syms: seq<nat>, k: nat)
    requires Covered(tables, selectors, syms) && k < |syms|
    ensures SymbolBits(tables, selectors, syms, k) ==
            Word(tables[selectors[k / Coding.GROUP_SIZE]], syms[k]) + SymbolBits(tables, selectors, syms, k + 1)
  {
  }

  lemma FeedStep(st: Mtf.State, syms: seq<nat>, k: nat, size: nat)
    requires st.list != [] && k < |syms|
    ensures var o := Mtf.Take(st, syms[k], size);
            Mtf.Feed(st, syms[k..], size) == if o.More? then Mtf.Feed(o.state, syms[k + 1..], size) else o
  {
    hide Mtf.Take;
    assert syms[k..][0] == syms[k] && syms[k..][1..] == syms[k + 1..];
  }

  /** Reading back the code words feeds exactly the symbols to the block decoder. */
  lemma {:induction false} SymbolsParse(s: seq<bool>, at: nat, tables: seq<seq<nat>>, selectors: seq<nat>, syms: seq<nat>, k: nat,
                                        st: Mtf.State, size: nat, block: seq<Byte>, bits: seq<bool>)
    requires Covered(tables, selectors, syms) && Usable(tables, |st.list| + 2) && st.list != [] && k < |syms|
    requires syms[|syms| - 1] == |st.list| + 1 && forall i :: 0 <= i < |syms| - 1 ==> syms[i] < |st.list| + 1
    requires Mtf.Feed(st, syms[k..], size) == Mtf.Done(block)
    requires bits == SymbolBits(tables, selectors, syms, k) && Has(s, at, bits)
    ensures Selectable(tables, selectors)
    ensures ParseSymbols(s, at, tables, selectors, k, st, size) == Parsed(block, at + |bits|)
    decreases |syms| - k
  {
    hide SymbolBits, ParseSymbols, NextSymbol, Mtf.Take, Mtf.Feed, Word, Longest, Fits;
    var table := tables[selectors[k / Coding.GROUP_SIZE]];
    BitsStep(tables, selectors, syms, k);
    var after := SymbolBits(tables, selectors, syms, k + 1);
    HasSplit(s, at, Word(table, syms[k]), after);
    WordIsNext(s, at, table, syms[k]);
    ParseStep(s, at, tables, selectors, k, st, size);
    FeedStep(st, syms, k, size);
    if k == |syms| - 1 {
      NoBits(tables, selectors, syms);
    } else {
      SymbolsParse(s, at + |Word(table, syms[k])|, tables, selectors, syms, k + 1, Mtf.Take(st, syms[k], size).state, size, block, after);
    }
  }

  lemma NoBits(tables: seq<seq<nat>>, selectors: seq<nat>, syms: seq<nat>)
    requires Covered(tables, selectors, syms)
    ensures SymbolBits(tables, selectors, syms, |syms|) == []
  {
  }

  // ----- The writer -----

  lemma SoundCovered(syms: seq<nat>, alpha: nat, c: Coding.GroupedCoding)
    requires Coding.Sound(syms, alpha, c)
    ensures Covered(c.lens, c.selectors, syms)
  {
    hide Buildable, Coding.Cost;
    forall k | 0 <= k < |syms| ensures k / Coding.GROUP_SIZE < |c.selectors| && syms[k] < |c.lens[c.selectors[k / Coding.GROUP_SIZE]]| {
      assert Coding.Cheapest(c.lens, Coding.Group(syms, k / Coding.GROUP_SIZE), c.selectors[k / Coding.GROUP_SIZE], |c.lens|);
    }
    forall i | 0 <= i < |c.selectors| ensures c.selectors[i] < |c.lens| {
      assert Coding.Cheapest(c.lens, Coding.Group(syms, i), c.selectors[i], |c.lens|);
    }
  }

  lemma CodeAt(syms: seq<nat>, alpha: nat, c: Coding.GroupedCoding, t: nat, symbol: nat)
    requires Coding.Sound(syms, alpha, c) && t < |c.lens| && symbol < alpha
    ensures t < |c.codes| && |c.codes[t]| == |c.lens[t]| == alpha && c.codes[t][symbol] == Code(c.lens[t], symbol) && c.lens[t][symbol] <= MAX_CODE_LEN
  {
    assert Buildable(c.lens[t]);
  }

  method WriteSymbols(w: BitWriter, syms: seq<nat>, c: Coding.GroupedCoding, ghost alpha: nat)
    requires w.Valid() && Coding.Sound(syms, alpha, c) && Covered(c.lens, c.selectors, syms)
    modifies w
    ensures w.Valid() && w.Written() == old(w.Written()) + SymbolBits(c.lens, c.selectors, syms, 0)
  {
    hide BitWriter.Written, SymbolBits, Coding.Sound, Code, BitsOf, Covered;
    GroupsFact(syms, alpha, c);
    ghost var whole := w.Written() + SymbolBits(c.lens, c.selectors, syms, 0);
    for group := 0 to |c.selectors|
      invariant w.Valid()
      invariant w.Written() + SymbolBits(c.lens, c.selectors, syms, if group < |c.selectors| then 50 * group else |syms|) == whole
    {
      var table := c.selectors[group];
      var start, end := group * Coding.GROUP_SIZE, Coding.GroupEnd(|syms|, group);
      for i := start to end
        invariant w.Valid() && w.Written() + SymbolBits(c.lens, c.selectors, syms, i) == whole
      {
        var symbol := syms[i];
        SymbolFact(syms, alpha, c, i);
        CodeAt(syms, alpha, c, table, symbol);
        BitsStep(c.lens, c.selectors, syms, i);
        Regroup(w.Written(), Word(c.lens[table], symbol), SymbolBits(c.lens, c.selectors, syms, i + 1));
        w.WriteBits(c.lens[table][symbol], c.codes[table][symbol]);
      }
    }
    NoBits(c.lens, c.selectors, syms);
  }

  lemma GroupsFact(syms: seq<nat>, alpha: nat, c: Coding.GroupedCoding)
    requires Coding.Sound(syms, alpha, c) && Covered(c.lens, c.selectors, syms)
    ensures |c.selectors| == Coding.Groups(|syms|) && forall g :: 0 <= g < |c.selectors| ==> c.selectors[g] < |c.lens|
  {
  }

  lemma SymbolFact(syms: seq<nat>, alpha: nat, c: Coding.GroupedCoding, i: nat)
    requires Coding.Sound(syms, alpha, c) && i < |syms|
    ensures syms[i] < alpha
  {
  }

  // ----- The reader -----

  /** `counts[b + 1]` is how often byte `b` occurs. */
  ghost predicate Counted(tt: seq<Byte>, counts: seq<nat>)
  {
    |counts| == 257 && counts[0] == 0 && forall b: nat :: b < 256 ==> counts[b + 1] == |Having(tt, b)|
  }

  lemma {:induction false} HavingRepeat(tt: seq<Byte>, b: Byte, n: nat, c: nat)
    ensures |Having(tt + Repeat(b, n), c)| == |Having(tt, c)| + if b == c then n else 0
  {
    if n == 0 {
      assert tt + Repeat(b, 0) == tt;
    } else {
      HavingRepeat(tt, b, n - 1, c);
      var before, after := tt + Repeat(b, n - 1), tt + Repeat(b, n);
      assert Having(after, c) == Having(before, c) + if b == c then {|before|} else {};
    }
  }

  lemma CountedRepeat(tt: seq<Byte>, counts: seq<nat>, b: Byte, n: nat)
    requires Counted(tt, counts)
    ensures Counted(tt + Repeat(b, n), counts[b + 1 := counts[b + 1] + n])
  {
    hide Having;
    forall c: nat | c < 256 ensures |Having(tt + Repeat(b, n), c)| == |Having(tt, c)| + if b == c then n else 0 {
      HavingRepeat(tt, b, n, c);
    }
  }

  lemma CountedPush(tt: seq<Byte>, counts: seq<nat>, b: Byte)
    requires Counted(tt, counts)
    ensures Counted(tt + [b], counts[b + 1 := counts[b + 1] + 1])
  {
    CountedRepeat(tt, counts, b, 1);
    assert tt + Repeat(b, 1) == tt + [b];
  }

  lemma LongestIs(lens: seq<seq<nat>>, tables: seq<Table>, t: nat)
    requires TablesFor(lens, tables) && t < |lens|
    ensures lens[t] != [] && tables[t].maxLen == Longest(lens[t])
  {
    hide Ranges, Entries, Fits;
    assert Decodes(lens[t], tables[t]);
  }

  /** One decoded symbol: the state moves as the specification says, in place. */
  method Step(mtf: array<Byte>, tt: seq<Byte>, counts: array<nat>, run: nat, runBit: nat, symbol: nat, size: nat)
    returns (o: Result<bool>, tt2: seq<Byte>, run2: nat, runBit2: nat)
    requires mtf.Length > 0 && counts.Length == 257 && Counted(tt, counts[..])
    modifies mtf, counts
    ensures match Mtf.Take(Mtf.State(old(mtf[..]), tt, run, runBit), symbol, size)
            case Bad(e) => o == Err(e)
            case Done(block) => o == Ok(true) && tt2 == block
            case More(st) => o == Ok(false) && st == Mtf.State(mtf[..], tt2, run2, runBit2)
    ensures o.Ok? ==> Counted(tt2, counts[..])
  {
    hide Counted, MoveFront;
    tt2, run2, runBit2 := tt, run, runBit;
    ghost var was := counts[..];
    if symbol <= 1 {
      run2 := run + Shl(symbol + 1, runBit);
      runBit2 := runBit + 1;
      if runBit2 >= 32 || run2 > size {
        return Err(BlockOverflow), tt2, run2, runBit2;
      }
      return Ok(false), tt2, run2, runBit2;
    }
    if run != 0 {
      var byte := mtf[0];
      if |tt| + run > size {
        return Err(BlockOverflow), tt2, run2, runBit2;
      }
      CountedRepeat(tt, was, byte, run);
      tt2 := tt + Repeat(byte, run);
      counts[byte + 1] := counts[byte + 1] + run;
      assert counts[..] == was[byte + 1 := was[byte + 1] + run];
      runBit2 := 0;
    }
    run2 := 0;
    if symbol == mtf.Length + 1 {
      return Ok(true), tt2, run2, runBit2;
    }
    var index := symbol - 1;
    if index >= mtf.Length || |tt2| == size {
      return Err(InvalidBlock), tt2, run2, runBit2;
    }
    var byte := mtf[index];
    MoveInPlace(mtf, index);
    ghost var mid := counts[..];
    CountedPush(tt2, mid, byte);
    tt2 := tt2 + [byte];
    counts[byte + 1] := counts[byte + 1] + 1;
    assert counts[..] == mid[byte + 1 := mid[byte + 1] + 1];
    o := Ok(false);
  }

  method ReadSymbols(bits: Bits, tables: seq<Table>, selectors: seq<nat>, alphabet: seq<Byte>, size: nat, ghost lens: seq<seq<nat>>)
    returns (r: Result<seq<Byte>>, counts: seq<nat>)
    requires bits.Valid() && TablesFor(lens, tables) && Selectable(lens, selectors) && alphabet != []
    modifies bits
    ensures bits.Valid()
    ensures Follows(r, bits.bit, ParseSymbols(bits.All(), old(bits.bit), lens, selectors, 0, Mtf.State(alphabet, [], 0, 0), size))
    ensures r.Ok? ==> Counted(r.value, counts)
  {
    hide ParseSymbols, NextSymbol, Decodes, Mtf.Take, Longest, Counted, Stream, TablesFor;
    var mtf := new Byte[|alphabet|](i requires 0 <= i < |alphabet| => alphabet[i]);
    assert mtf[..] == alphabet;
    var tally := new nat[257](_ => 0);
    CountedNothing(tally[..]);
    var tt: seq<Byte>, run: nat, runBit: nat := [], 0, 0;
    var selector, groupLeft, table := 0, 0, 0;
    ghost var s, k := bits.All(), 0;
    ghost var goal := ParseSymbols(s, bits.bit, lens, selectors, 0, Mtf.State(alphabet, [], 0, 0), size);
    counts := [];
    while true
      invariant bits.Valid() && mtf.Length == |alphabet| && Counted(tt, tally[..])
      invariant groupLeft <= 50 && k + groupLeft == 50 * selector && selector <= |selectors|
      invariant groupLeft > 0 ==> selector > 0 && table == selectors[selector - 1]
      invariant ParseSymbols(s, bits.bit, lens, selectors, k, Mtf.State(mtf[..], tt, run, runBit), size) == goal
      decreases |s| - bits.bit
    {
      if groupLeft == 0 {
        if selector >= |selectors| {
          NoSelector(s, bits.bit, lens, selectors, k, Mtf.State(mtf[..], tt, run, runBit), size);
          return Err(InvalidBlock), counts;
        }
        table := selectors[selector];
        selector := selector + 1;
        groupLeft := Coding.GROUP_SIZE;
      }
      assert k / 50 == selector - 1;
      ParseStep(s, bits.bit, lens, selectors, k, Mtf.State(mtf[..], tt, run, runBit), size);
      groupLeft := groupLeft - 1;
      TableFact(lens, tables, table);
      LongestIs(lens, tables, table);
      var symbol := Decode(tables[table], bits, lens[table]);
      if symbol.Err? {
        return Err(symbol.error), counts;
      }
      var done: Result<bool>;
      done, tt, run, runBit := Step(mtf, tt, tally, run, runBit, symbol.value, size);
      if done.Err? {
        return Err(done.error), counts;
      }
      if done.value {
        return Ok(tt), tally[..];
      }
      k := k + 1;
    }
  }

  lemma TableFact(lens: seq<seq<nat>>, tables: seq<Table>, t: nat)
    requires TablesFor(lens, tables) && t < |lens|
    ensures |tables| == |lens| && Decodes(lens[t], tables[t])
  {
  }

  lemma CountedNothing(counts: seq<nat>)
    requires |counts| == 257 && forall i :: 0 <= i < 257 ==> counts[i] == 0
    ensures Counted([], counts)
  {
    forall b: nat ensures Having([], b) == {} { }
  }

  lemma NoSelector(s: seq<bool>, at: nat, tables: seq<seq<nat>>, selectors: seq<nat>, k: nat, st: Mtf.State, size: nat)
    requires Selectable(tables, selectors) && st.list != [] && at <= |s| && k / Coding.GROUP_SIZE >= |selectors|
    ensures ParseSymbols(s, at, tables, selectors, k, st, size) == Failed(InvalidBlock)
  {
  }
}
