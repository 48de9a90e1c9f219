/** One bzip2 block: the encoder's bits and the decoder that inverts them. */
module BlockCodec {
  import opened Bytes
  import opened Seqs
  import opened Sums
  import opened BitStream
  import opened BitReading
  import opened BitWriting
  import opened Buckets
  import opened CodeLengths
  import opened MoveToFront
  import opened Options
  import opened Rle1
  import opened SymbolMap
  import opened SymbolStream
  import Bwt
  import Coding
  import Huffman
  import InducedSorting
  import Mtf

  const BLOCK_MAGIC: nat := 0x3141_5926_5359

  /** The checksum is a parameter: any function to 32 bits. */
  type Checksum = f: seq<Byte> -> nat | forall b :: f(b) < 0x1_0000_0000 witness (b: seq<Byte>) => 0

  // ----- The written form -----

  function Size(level: nat): nat
  {
    level * 100000
  }

  /** Coding tables, selectors and symbols. */
  function CodedBits(c: Coding.GroupedCoding, syms: seq<nat>): seq<bool>
    requires Known(Range(c.nGroups), c.selectors) && NoneEmpty(c.lens) && Covered(c.lens, c.selectors, syms)
  {
    BitsOf(c.nGroups, 3) + (BitsOf(|c.selectors|, 15) +
      (SelectorBits(Range(c.nGroups), c.selectors) + (TablesBits(c.lens) + SymbolBits(c.lens, c.selectors, syms, 0))))
  }

  /** Everything after the block magic. */
  function BodyBits(crc: nat, origin: nat, used: Flags, coded: seq<bool>): seq<bool>
  {
    BitsOf(crc, 32) + ([false] + (BitsOf(origin, 24) + (MapBits(used) + coded)))
  }

  // ----- The parsed form -----

  /** The plain bytes of a block, its stored checksum and the length of its run-length form. */
  datatype Decoded = Decoded(output: seq<Byte>, crc: nat, blockLen: nat)

  /** Undo the transform and the run lengths of a decoded last column. */
  ghost function Finish(last: seq<Byte>, origin: nat, stored: nat, size: nat, crc: Checksum): Result<Decoded>
  {
    if last == [] || origin >= |last| then Err(InvalidBlock) else
      var out := Checked(Bwt.Walk(last, Bwt.Links(last), origin, |last|), FRESH, [], Limit(size));
      if out.Err? then Err(out.error)
      else if crc(out.value) != stored then Err(CrcMismatch)
      else Ok(Decoded(out.value, stored, |last|))
  }

  /** Whatever the bits say, a selector names one of the tables. */
  lemma {:induction false} SelectorsKnown(s: seq<bool>, at: nat, list: seq<nat>, done: seq<nat>, count: nat)
    requires list != [] && at <= |s| && Known(list, done)
    ensures var p := ParseSelectors(s, at, list, done, count); p.Parsed? ==> Known(list, p.value)
    decreases count
  {
    hide ParseUnary;
    if count > 0 {
      var j := ParseUnary(s, at, 0, |list|);
      if j.Parsed? {
        Moved(list, j.value);
        hide MoveFront;
        SelectorsKnown(s, j.at, MoveFront(list, j.value), done + [list[j.value]], count - 1);
      }
    }
  }

  lemma {:induction false} TablesSized(s: seq<bool>, at: nat, alpha: nat, done: seq<seq<nat>>, count: nat)
    requires at <= |s| && forall i :: 0 <= i < |done| ==> |done[i]| == alpha
    ensures var p := ParseTables(s, at, alpha, done, count); p.Parsed? ==> forall i :: 0 <= i < |p.value| ==> |p.value[i]| == alpha
    decreases count
  {
    hide ParseTable, Buildable;
    if count > 0 {
      var t := ParseTable(s, at, alpha);
      if t.Parsed? && Buildable(t.value) {
        TablesSized(s, t.at, alpha, done + [t.value], count - 1);
      }
    }
  }

  ghost function ParseTabled(s: seq<bool>, at: nat, tables: nat, selectors: seq<nat>, alphabet: seq<Byte>, size: nat): (p: Parse<seq<Byte>>)
    requires alphabet != [] && at <= |s| && Known(Range(tables), selectors)
    ensures p.Parsed? ==> at <= p.at <= |s|
  {
    var lens := ParseTables(s, at, |alphabet| + 2, [], tables);
    if lens.Failed? then Failed(lens.error) else
      TablesSized(s, at, |alphabet| + 2, [], tables);
      ParseSymbols(s, lens.at, lens.value, selectors, 0, Mtf.State(alphabet, [], 0, 0), size)
  }

  ghost function ParseSelected(s: seq<bool>, at: nat, tables: nat, count: nat, alphabet: seq<Byte>, size: nat): (p: Parse<seq<Byte>>)
    requires alphabet != [] && at <= |s| && tables > 0
    ensures p.Parsed? ==> at <= p.at <= |s|
  {
    hide ParseTabled;
    var selectors := ParseSelectors(s, at, Range(tables), [], count);
    if selectors.Failed? then Failed(selectors.error) else
      SelectorsKnown(s, at, Range(tables), [], count);
      ParseTabled(s, selectors.at, tables, selectors.value, alphabet, size)
  }

  ghost function ParseCoded(s: seq<bool>, at: nat, alphabet: seq<Byte>, size: nat): (p: Parse<seq<Byte>>)
    requires alphabet != []
    ensures p.Parsed? ==> at <= p.at <= |s|
  {
    hide ParseSelected;
    var tables := ReadBits(s, at, 3);
    if tables.Failed? then Failed(tables.error)
    else if !(2 <= tables.value <= 6) then Failed(InvalidHuffman) else
      var count := ReadBits(s, tables.at, 15);
      if count.Failed? then Failed(count.error)
      else if count.value == 0 then Failed(InvalidBlock)
      else ParseSelected(s, count.at, tables.value, count.value, alphabet, size)
  }

  ghost function ParseBlock(s: seq<bool>, at: nat, level: nat, expected: Option<nat>, crc: Checksum): (p: Parse<Decoded>)
    ensures p.Parsed? ==> at <= p.at <= |s|
  {
    var stored := ReadBits(s, at, 32);
    if stored.Failed? then Failed(stored.error)
    else if expected.Some? && expected.value != stored.value then Failed(InvalidBlock) else
      var randomized := ReadBit(s, stored.at);
      if randomized.Failed? then Failed(randomized.error)
      else if randomized.value then Failed(RandomizedBlock) else
        var origin := ReadBits(s, randomized.at, 24);
        if origin.Failed? then Failed(origin.error) else
          var used := ParseMap(s, origin.at);
          if used.Failed? then Failed(used.error)
          else if Alphabet(used.value) == [] then Failed(InvalidBlock) else
            var last := ParseCoded(s, used.at, Alphabet(used.value), Size(level));
            if last.Failed? then Failed(last.error) else
              var done := Finish(last.value, origin.value, stored.value, Size(level), crc);
              if done.Err? then Failed(done.error) else Parsed(done.value, last.at)
  }

  // ----- Round trip -----

  lemma SelectableOf(c: Coding.GroupedCoding, syms: seq<nat>, alpha: nat)
    requires Coding.Sound(syms, alpha, c) && alpha >= 1
    ensures NoneEmpty(c.lens) && Known(Range(c.nGroups), c.selectors) && Covered(c.lens, c.selectors, syms)
    ensures Selectable(c.lens, c.selectors) && Usable(c.lens, alpha)
  {
    SoundCovered(syms, alpha, c);
    hide Buildable, Coding.Assigned;
    forall i | 0 <= i < |c.selectors| ensures c.selectors[i] in Range(c.nGroups) {
      assert Range(c.nGroups)[c.selectors[i]] == c.selectors[i];
    }
  }

  lemma TabledRoundTrip(s: seq<bool>, at: nat, c: Coding.GroupedCoding, last: seq<Byte>, alphabet: seq<Byte>, size: nat, tab: seq<bool>, sym: seq<bool>)
    requires alphabet != [] && Mtf.Within(last, alphabet) && |last| <= size <= 900000
    requires Coding.Sound(Mtf.Symbols(last, alphabet, 0), |alphabet| + 2, c) && Known(Range(c.nGroups), c.selectors)
    requires NoneEmpty(c.lens) && Covered(c.lens, c.selectors, Mtf.Symbols(last, alphabet, 0)) && |c.lens| == c.nGroups
    requires tab == TablesBits(c.lens) && sym == SymbolBits(c.lens, c.selectors, Mtf.Symbols(last, alphabet, 0), 0) && Has(s, at, tab + sym)
    ensures ParseTabled(s, at, c.nGroups, c.selectors, alphabet, size) == Parsed(last, at + |tab| + |sym|)
  {
    hide *;
    var syms := Mtf.Symbols(last, alphabet, 0);
    SelectableOf(c, syms, |alphabet| + 2);
    HasSplit(s, at, tab, sym);
    assert c.lens[0..] == c.lens && c.lens[..0] == [];
    HasFits(s, at, tab);
    TablesRoundTrip(s, at, c.lens, |alphabet| + 2, 0, tab);
    var st := Mtf.State(alphabet, [], 0, 0);
    assert last[0..] == last && last[..0] == [] && syms[0..] == syms;
    Mtf.SymbolsRoundTrip(alphabet, last, 0, 0, size);
    SymbolsShape(last, alphabet);
    SymbolsParse(s, at + |tab|, c.lens, c.selectors, syms, 0, st, size, last, sym);
    ParsedTabled(s, at, c.nGroups, c.selectors, alphabet, size, c.lens, at + |tab|);
  }

  lemma SymbolsShape(last: seq<Byte>, alphabet: seq<Byte>)
    requires Mtf.Within(last, alphabet) && alphabet != []
    ensures var s := Mtf.Symbols(last, alphabet, 0);
            s[|s| - 1] == |alphabet| + 1 && forall i :: 0 <= i < |s| - 1 ==> s[i] < |alphabet| + 1
  {
    hide Mtf.Symbols;
    assert last[0..] == last;
    Mtf.SymbolsEnd(last, alphabet, 0, 0);
  }

  lemma HasFits(s: seq<bool>, at: nat, b: seq<bool>)
    requires Has(s, at, b)
    ensures at + |b| <= |s|
  {
  }

  lemma ParsedTabled(s: seq<bool>, at: nat, tables: nat, selectors: seq<nat>, alphabet: seq<Byte>, size: nat, lens: seq<seq<nat>>, a: nat)
    requires alphabet != [] && at <= |s| && Known(Range(tables), selectors) && a <= |s| && Selectable(lens, selectors)
    requires ParseTables(s, at, |alphabet| + 2, [], tables) == Parsed(lens, a)
    ensures ParseTabled(s, at, tables, selectors, alphabet, size) ==
            ParseSymbols(s, a, lens, selectors, 0, Mtf.State(alphabet, [], 0, 0), size)
  {
    hide ParseTables, ParseSymbols;
  }

  lemma SelectedRoundTrip(s: seq<bool>, at: nat, c: Coding.GroupedCoding, last: seq<Byte>, alphabet: seq<Byte>, size: nat,
                          sel: seq<bool>, tab: seq<bool>, sym: seq<bool>)
    requires alphabet != [] && Mtf.Within(last, alphabet) && |last| <= size <= 900000
    requires Coding.Sound(Mtf.Symbols(last, alphabet, 0), |alphabet| + 2, c) && Known(Range(c.nGroups), c.selectors)
    requires NoneEmpty(c.lens) && Covered(c.lens, c.selectors, Mtf.Symbols(last, alphabet, 0)) && |c.lens| == c.nGroups >= 2
    requires sel == SelectorBits(Range(c.nGroups), c.selectors)
    requires tab == TablesBits(c.lens) && sym == SymbolBits(c.lens, c.selectors, Mtf.Symbols(last, alphabet, 0), 0) && Has(s, at, sel + (tab + sym))
    ensures at <= |s|
    ensures ParseSelected(s, at, c.nGroups, |c.selectors|, alphabet, size) == Parsed(last, at + |sel| + |tab| + |sym|)
  {
    hide *;
    HasSplit(s, at, sel, tab + sym);
    HasFits(s, at, sel);
    assert c.selectors[0..] == c.selectors && c.selectors[..0] == [];
    SelectorsRoundTrip(s, at, Range(c.nGroups), c.selectors, 0, sel);
    TabledRoundTrip(s, at + |sel|, c, last, alphabet, size, tab, sym);
    ParsedSelected(s, at, c.nGroups, c.selectors, alphabet, size, at + |sel|);
  }

  lemma ParsedSelected(s: seq<bool>, at: nat, tables: nat, selectors: seq<nat>, alphabet: seq<Byte>, size: nat, a: nat)
    requires alphabet != [] && at <= |s| && tables > 0 && Known(Range(tables), selectors) && a <= |s|
    requires ParseSelectors(s, at, Range(tables), [], |selectors|) == Parsed(selectors, a)
    ensures ParseSelected(s, at, tables, |selectors|, alphabet, size) == ParseTabled(s, a, tables, selectors, alphabet, size)
  {
    hide ParseSelectors, ParseTabled;
  }

  /** Parsing what was written for a block's last column gives the column back. */
  lemma CodedRoundTrip(s: seq<bool>, at: nat, c: Coding.GroupedCoding, last: seq<Byte>, alphabet: seq<Byte>, size: nat, bits: seq<bool>)
    requires alphabet != [] && Mtf.Within(last, alphabet) && |last| <= size <= 900000
    requires Coding.Sound(Mtf.Symbols(last, alphabet, 0), |alphabet| + 2, c)
    requires Known(Range(c.nGroups), c.selectors) && NoneEmpty(c.lens) && Covered(c.lens, c.selectors, Mtf.Symbols(last, alphabet, 0))
    requires bits == CodedBits(c, Mtf.Symbols(last, alphabet, 0)) && Has(s, at, bits)
    ensures ParseCoded(s, at, alphabet, size) == Parsed(last, at + |bits|)
  {
    hide *;
    var syms := Mtf.Symbols(last, alphabet, 0);
    CodingShape(c, syms, |alphabet| + 2);
    var sel := SelectorBits(Range(c.nGroups), c.selectors);
    var tab := TablesBits(c.lens);
    var sym := SymbolBits(c.lens, c.selectors, syms, 0);
    CodedUnfold(c, syms);
    HasSplit(s, at, BitsOf(c.nGroups, 3), BitsOf(|c.selectors|, 15) + (sel + (tab + sym)));
    HasSplit(s, at + 3, BitsOf(|c.selectors|, 15), sel + (tab + sym));
    FieldWidths();
    ReadBack(s, at, c.nGroups, 3);
    ReadBack(s, at + 3, |c.selectors|, 15);
    SelectedRoundTrip(s, at + 18, c, last, alphabet, size, sel, tab, sym);
    ParsedCoded(s, at, alphabet, size, c.nGroups, |c.selectors|);
  }

  lemma CodedUnfold(c: Coding.GroupedCoding, syms: seq<nat>)
    requires Known(Range(c.nGroups), c.selectors) && NoneEmpty(c.lens) && Covered(c.lens, c.selectors, syms)
    ensures CodedBits(c, syms) == BitsOf(c.nGroups, 3) + (BitsOf(|c.selectors|, 15) +
      (SelectorBits(Range(c.nGroups), c.selectors) + (TablesBits(c.lens) + SymbolBits(c.lens, c.selectors, syms, 0))))
  {
  }

  lemma FieldWidths()
    ensures Pow2(3) == 8 && Pow2(15) == 32768 && Pow2(1) == 2
  {
    assert Pow2(7) == 128;
    Pow2Add(7, 8);
    Pow2Values();
  }

  lemma CodingShape(c: Coding.GroupedCoding, syms: seq<nat>, alpha: nat)
    requires Coding.Sound(syms, alpha, c) && 1 <= |syms| <= 900001
    ensures 2 <= c.nGroups <= 6 && |c.lens| == c.nGroups && 1 <= |c.selectors| < 32768
  {
  }

  lemma ParsedCoded(s: seq<bool>, at: nat, alphabet: seq<Byte>, size: nat, n: nat, count: nat)
    requires alphabet != [] && 2 <= n <= 6 && count > 0 && at + 18 <= |s|
    requires ReadBits(s, at, 3) == Parsed(n, at + 3) && ReadBits(s, at + 3, 15) == Parsed(count, at + 18)
    ensures ParseCoded(s, at, alphabet, size) == ParseSelected(s, at + 18, n, count, alphabet, size)
  {
    hide ParseSelected, ReadBits;
  }

  lemma BodyUnfold(crc: nat, origin: nat, used: Flags, coded: seq<bool>)
    ensures BodyBits(crc, origin, used, coded) == BitsOf(crc, 32) + ([false] + (BitsOf(origin, 24) + (MapBits(used) + coded)))
  {
  }

  lemma ParsedBlock(s: seq<bool>, at: nat, level: nat, expected: Option<nat>, crc: Checksum, stored: nat, origin: nat, used: Flags, a: nat, last: seq<Byte>, b: nat)
    requires ReadBits(s, at, 32) == Parsed(stored, at + 32) && (expected.Some? ==> expected.value == stored)
    requires ReadBit(s, at + 32) == Parsed(false, at + 33) && ReadBits(s, at + 33, 24) == Parsed(origin, at + 57)
    requires ParseMap(s, at + 57) == Parsed(used, a) && Alphabet(used) != []
    requires ParseCoded(s, a, Alphabet(used), Size(level)) == Parsed(last, b)
    ensures ParseBlock(s, at, level, expected, crc) ==
            var done := Finish(last, origin, stored, Size(level), crc);
            if done.Err? then Failed(done.error) else Parsed(done.value, b)
  {
    hide ParseMap, ParseCoded, Finish;
  }

  /** Undoing the transform and the run lengths of a block's own last column gives the block's plain bytes. */
  lemma FinishInverts(block: seq<Byte>, rows: seq<nat>, last: seq<Byte>, origin: nat, size: nat, crc: Checksum)
    requires block != [] && Bwt.IsTransform(block, rows, last, origin) && |block| <= size && size % 5 == 0
    ensures Finish(last, origin, crc(Plain(block)), size, crc) == Ok(Decoded(Plain(block), crc(Plain(block)), |block|))
  {
    hide Bwt.IsTransform, Plain, Checked, Bwt.Walk, Bwt.IsLinks, Limit;
    Bwt.SameLength(block, rows, last, origin);
    Bwt.InverseOfTransform(block, rows, last, origin, Bwt.Links(last));
    BlockExpands(block, size);
  }

  /** Decoding an encoded block gives its plain bytes and stops exactly at its last bit. */
  lemma BlockRoundTrip(s: seq<bool>, at: nat, level: nat, expected: Option<nat>, crc: Checksum,
                       block: seq<Byte>, rows: seq<nat>, last: seq<Byte>, origin: nat, c: Coding.GroupedCoding, bits: seq<bool>)
    requires 1 <= level <= 9 && 0 < |block| <= Size(level) && Bwt.IsTransform(block, rows, last, origin)
    requires Mtf.Within(last, Alphabet(Seen(last)))
    requires var syms := Mtf.Symbols(last, Alphabet(Seen(last)), 0);
             Coding.Sound(syms, |Alphabet(Seen(last))| + 2, c)
             && Known(Range(c.nGroups), c.selectors) && NoneEmpty(c.lens) && Covered(c.lens, c.selectors, syms)
             && bits == BodyBits(crc(Plain(block)), origin, Seen(last), CodedBits(c, syms))
    requires Has(s, at, bits) && (expected.Some? ==> expected.value == crc(Plain(block)))
    ensures ParseBlock(s, at, level, expected, crc) ==
            Parsed(Decoded(Plain(block), crc(Plain(block)), |block|), at + |bits|)
  {
    hide *;
    var used := Seen(last);
    var alphabet, stored, size := Alphabet(used), crc(Plain(block)), Size(level);
    var coded := CodedBits(c, Mtf.Symbols(last, alphabet, 0));
    var map_ := MapBits(used);
    Bwt.SameLength(block, rows, last, origin);
    SizeFacts(level);
    BodyUnfold(stored, origin, used, coded);
    HasSplit(s, at, BitsOf(stored, 32), [false] + (BitsOf(origin, 24) + (map_ + coded)));
    HasSplit(s, at + 32, [false], BitsOf(origin, 24) + (map_ + coded));
    HasSplit(s, at + 33, BitsOf(origin, 24), map_ + coded);
    HasSplit(s, at + 57, map_, coded);
    Pow2Values();
    ReadBack(s, at, stored, 32);
    FlagBack(s, at + 32);
    ReadBack(s, at + 33, origin, 24);
    MapRoundTrip(s, at + 57, used);
    assert last[0] in alphabet by { InAlphabet(last); }
    CodedRoundTrip(s, at + 57 + |map_|, c, last, alphabet, size, coded);
    ParsedBlock(s, at, level, expected, crc, stored, origin, used, at + 57 + |map_|, last, at + |bits|);
    FinishInverts(block, rows, last, origin, size, crc);
  }

  lemma SizeFacts(level: nat)
    requires level <= 9
    ensures Size(level) % 5 == 0 && Size(level) <= 900000
  {
  }

  lemma InAlphabet(last: seq<Byte>)
    requires last != []
    ensures last[0] in Alphabet(Seen(last))
  {
  }

  lemma FlagBack(s: seq<bool>, at: nat)
    requires Has(s, at, [false])
    ensures ReadBit(s, at) == Parsed(false, at + 1)
  {
    assert s[at..at + 1][0] == s[at];
  }

  // ----- The encoder -----

  datatype EncodedBlock = EncodedBlock(bytes: seq<Byte>, bitLen: nat, crc: nat)

  /** Bits that decode, wherever they stand, to the plain bytes of `block`. */
  ghost predicate Encodes(bits: seq<bool>, level: nat, block: seq<Byte>, crc: Checksum)
  {
    forall s: seq<bool>, at: nat, expected: Option<nat> :: Has(s, at, bits) && (expected.Some? ==> expected.value == crc(Plain(block))) ==>
      ParseBlock(s, at, level, expected, crc) == Parsed(Decoded(Plain(block), crc(Plain(block)), |block|), at + |bits|)
  }

  lemma BodyEncodes(level: nat, crc: Checksum, block: seq<Byte>, rows: seq<nat>, last: seq<Byte>, origin: nat, c: Coding.GroupedCoding, bits: seq<bool>)
    requires 1 <= level <= 9 && 0 < |block| <= Size(level) && Bwt.IsTransform(block, rows, last, origin)
    requires Mtf.Within(last, Alphabet(Seen(last)))
    requires var syms := Mtf.Symbols(last, Alphabet(Seen(last)), 0);
             Coding.Sound(syms, |Alphabet(Seen(last))| + 2, c)
             && Known(Range(c.nGroups), c.selectors) && NoneEmpty(c.lens) && Covered(c.lens, c.selectors, syms)
             && bits == BodyBits(crc(Plain(block)), origin, Seen(last), CodedBits(c, syms))
    ensures Encodes(bits, level, block, crc)
  {
    hide ParseBlock, Has, Bwt.IsTransform, Coding.Sound, Alphabet, Plain, Seen, Mtf.Symbols, CodedBits, BodyBits, Covered;
    forall s: seq<bool>, at: nat, expected: Option<nat> | Has(s, at, bits) && (expected.Some? ==> expected.value == crc(Plain(block)))
      ensures ParseBlock(s, at, level, expected, crc) == Parsed(Decoded(Plain(block), crc(Plain(block)), |block|), at + |bits|)
    {
      BlockRoundTrip(s, at, level, expected, crc, block, rows, last, origin, c, bits);
    }
  }

  method WriteCoded(w: BitWriter, c: Coding.GroupedCoding, syms: seq<nat>, ghost alpha: nat)
    requires w.Valid() && Coding.Sound(syms, alpha, c)
    requires Known(Range(c.nGroups), c.selectors) && NoneEmpty(c.lens) && Covered(c.lens, c.selectors, syms)
    modifies w
    ensures w.Valid() && w.Written() == old(w.Written()) + CodedBits(c, syms)
  {
    hide BitWriter.Written, BitsOf, Coding.Sound, Covered, SelectorBits, TablesBits, SymbolBits, NoneEmpty, Known;
    SelectorsBound(c, syms, alpha);
    ghost var w0 := w.Written();
    ghost var sel, tab, sym := SelectorBits(Range(c.nGroups), c.selectors), TablesBits(c.lens), SymbolBits(c.lens, c.selectors, syms, 0);
    w.WriteBits(3, c.nGroups);
    w.WriteBits(15, |c.selectors|);
    WriteSelectors(w, c.selectors, c.nGroups);
    WriteTables(w, c.lens);
    WriteSymbols(w, syms, c, alpha);
    Regroup5(w0, BitsOf(c.nGroups, 3), BitsOf(|c.selectors|, 15), sel, tab, sym);
  }

  lemma SelectorsBound(c: Coding.GroupedCoding, syms: seq<nat>, alpha: nat)
    requires Coding.Sound(syms, alpha, c)
    ensures forall i :: 0 <= i < |c.selectors| ==> c.selectors[i] < c.nGroups
  {
    SoundCovered(syms, alpha, c);
  }

  /** Transform, code and write one block; the result decodes to the block's plain bytes. */
  method EncodeBlock(block: seq<Byte>, level: nat, ghost crc: Checksum, stored: nat) returns (e: EncodedBlock)
    requires 1 <= level <= 9 && 0 < |block| <= Size(level) && stored == crc(Plain(block))
    ensures e.crc == stored && e.bitLen <= 8 * |e.bytes| < e.bitLen + 8
    ensures exists body :: Stream(e.bytes)[..e.bitLen] == BitsOf(BLOCK_MAGIC, 48) + body && Encodes(body, level, block, crc)
  {
    hide Bwt.IsTransform, Coding.Sound, Alphabet, Plain, Seen, Mtf.Symbols, Encodes, Coding.Codable, Coding.GroupCount, BitsOf, Stream,
      Mtf.Within, Covered, Coding.Refined, BitWriter.Written, MapBits, CodedBits;
    BlockRoom(level, |block|);
    var last, origin, rows := Bwt.Transform(block);
    Bwt.SameLength(block, rows, last, origin);
    var inUse, syms := Mtf.Encode(last);
    var alpha := |inUse| + 2;
    SymbolsInAlphabet(last, inUse, syms);
    var coding, before := Coding.Build(syms, alpha);
    SelectableOf(coding, syms, alpha);
    var w := new BitWriter();
    w.WriteMagic(BLOCK_MAGIC);
    ghost var magic := w.Written();
    assert magic == BitsOf(BLOCK_MAGIC, 48);
    w.WriteU32(stored);
    w.WriteBit(0);
    w.WriteBits(24, origin);
    WriteSymbolMap(w, inUse);
    SeenAlphabet(Seen(last));
    WriteCoded(w, coding, syms, alpha);
    ghost var body := BodyBits(stored, origin, Seen(last), CodedBits(coding, syms));
    Regroup5(magic, BitsOf(stored, 32), [false], BitsOf(origin, 24), MapBits(Seen(last)), CodedBits(coding, syms));
    BodyEncodes(level, crc, block, rows, last, origin, coding, body);
    var bytes, bitLen := w.FinishBits();
    e := EncodedBlock(bytes, bitLen, stored);
  }

  lemma BlockRoom(level: nat, n: nat)
    requires 1 <= level <= 9 && 0 < n <= Size(level)
    ensures 2 * n + 1 <= InducedSorting.EMPTY && n < Pow2(24) && BLOCK_MAGIC < Pow2(48)
  {
    Pow2Values();
    Pow2Add(24, 24);
  }

  lemma SymbolsInAlphabet(last: seq<Byte>, inUse: seq<Byte>, syms: seq<nat>)
    requires last != [] && inUse == Alphabet(Seen(last)) && Mtf.Within(last, inUse) && syms == Mtf.Symbols(last, inUse, 0)
    ensures 1 <= |inUse| <= 256 && syms != [] && forall i :: 0 <= i < |syms| ==> syms[i] < |inUse| + 2
  {
    assert last[0] in inUse;
    hide Mtf.Symbols, Alphabet, Seen;
    SymbolsShape(last, inUse);
  }

  // ----- The decoder -----

  /** Turn the byte counts into the first slot of each byte. */
  method PrefixSums(counts: seq<nat>, ghost last: seq<Byte>) returns (starts: seq<nat>)
    requires Counted(last, counts)
    ensures |starts| == 257 && forall b: nat :: b < 256 ==> starts[b] == Start(last, b)
  {
    hide Having, Start;
    var a := new nat[257](i requires 0 <= i < |counts| => counts[i]);
    NothingBelow(last);
    for index := 1 to 257
      invariant forall b: nat :: b < index ==> a[b] == Start(last, b)
      invariant forall i :: index <= i < 257 ==> a[i] == counts[i]
    {
      EndIsStartPlusCount(last, index - 1);
      a[index] := a[index] + a[index - 1];
    }
    starts := a[..];
  }

  lemma NothingBelow(last: seq<Byte>)
    ensures Start(last, 0) == 0
  {
    assert Below(last, 0) == {};
  }

  /** One byte of the run-length form: a literal, or the count after four equal bytes. */
  method TailStep(byte: Byte, output: seq<Byte>, t: Tail, limit: nat) returns (fits: bool, output2: seq<Byte>, t2: Tail)
    requires t.Valid()
    ensures fits == if t.repeated == 4 then |output| + byte <= limit else |output| != limit
    ensures fits ==> output2 == output + Emit(t, byte) && t2 == After(t, byte)
  {
    fits, output2, t2 := true, output, t;
    if t.repeated == 4 {
      var extra := byte;
      if |output| + extra > limit {
        return false, output2, t2;
      }
      output2 := output + Repeat(t.previous.value, extra);
      t2 := Tail(None, 0);
    } else {
      if |output| == limit {
        return false, output2, t2;
      }
      output2 := output + [byte];
      t2 := if t.previous == Some(byte) then Tail(t.previous, t.repeated + 1) else Tail(Some(byte), 1);
    }
  }

  /** Follow the packed links from the origin and undo the run lengths on the way. */
  method Unwind(tt: array<nat>, origin: nat, limit: nat, ghost last: seq<Byte>, ghost links: seq<nat>) returns (r: Result<seq<Byte>>)
    requires origin < tt.Length == |last| == |links| && Bwt.IsLinks(last, links)
    requires forall x :: 0 <= x < tt.Length ==> tt[x] % 256 == last[x] && tt[x] / 256 == links[x]
    ensures r == Checked(Bwt.Walk(last, links, origin, |last|), FRESH, [], limit)
  {
    hide Checked, Bwt.Walk, Emit, After;
    var n := tt.Length;
    var position := tt[origin] / 256;
    var output: seq<Byte>, t := [], FRESH;
    ghost var at := origin;
    ghost var goal := Checked(Bwt.Walk(last, links, origin, n), FRESH, [], limit);
    for i := 0 to n
      invariant at < n && position == links[at] && t.Valid()
      invariant Checked(Bwt.Walk(last, links, at, n - i), t, output, limit) == goal
    {
      var entry := tt[position];
      var byte: Byte := entry % 256;
      WalkStep(last, links, at, n - i);
      CheckedStep(byte, Bwt.Walk(last, links, links[at], n - i - 1), t, output, limit);
      at := position;
      position := entry / 256;
      var fits: bool;
      fits, output, t := TailStep(byte, output, t, limit);
      if !fits {
        return Err(BlockOverflow);
      }
    }
    CheckedNothing(t, output, limit, last, links, at);
    r := Ok(output);
  }

  lemma WalkStep(last: seq<Byte>, links: seq<nat>, at: nat, k: nat)
    requires Bwt.IsLinks(last, links) && at < |last| && k > 0
    ensures Bwt.Walk(last, links, at, k) == [last[links[at]]] + Bwt.Walk(last, links, links[at], k - 1)
  {
  }

  lemma CheckedStep(byte: Byte, rest: seq<Byte>, t: Tail, out: seq<Byte>, limit: nat)
    requires t.Valid()
    ensures Checked([byte] + rest, t, out, limit) ==
            if t.repeated == 4 && |out| + byte > limit then Err(BlockOverflow)
            else if t.repeated != 4 && |out| == limit then Err(BlockOverflow)
            else Checked(rest, After(t, byte), out + Emit(t, byte), limit)
  {
    assert ([byte] + rest)[1..] == rest;
  }

  lemma CheckedNothing(t: Tail, out: seq<Byte>, limit: nat, last: seq<Byte>, links: seq<nat>, at: nat)
    requires t.Valid() && Bwt.IsLinks(last, links) && at < |last|
    ensures Checked(Bwt.Walk(last, links, at, 0), t, out, limit) == Ok(out)
  {
  }

  /** The inverse transform and run-length expansion of a decoded last column. */
  method Restore(last: seq<Byte>, counts: seq<nat>, origin: nat, stored: nat, size: nat, crc: Checksum) returns (r: Result<Decoded>)
    requires Counted(last, counts)
    ensures r == Finish(last, origin, stored, size, crc)
  {
    hide Bwt.Walk, Checked, Start, Having, Counted, Bwt.IsLinks;
    if |last| == 0 || origin >= |last| {
      return Err(InvalidBlock);
    }
    var starts := PrefixSums(counts, last);
    var tt := new nat[|last|](x requires 0 <= x < |last| => last[x]);
    var links := Bwt.Link(tt, starts, last);
    Bwt.LinksUnique(last, links, Bwt.Links(last));
    LinksLength(last, links);
    var output := Unwind(tt, origin, Limit(size), last, links);
    if output.Err? {
      return Err(output.error);
    }
    if crc(output.value) != stored {
      return Err(CrcMismatch);
    }
    r := Ok(Decoded(output.value, stored, |last|));
  }

  lemma LinksLength(last: seq<Byte>, links: seq<nat>)
    requires Bwt.IsLinks(last, links)
    ensures |links| == |last|
  {
  }

  method ReadCoded(bits: Bits, alphabet: seq<Byte>, size: nat) returns (r: Result<seq<Byte>>, counts: seq<nat>)
    requires bits.Valid() && 1 <= |alphabet| <= 256
    modifies bits
    ensures bits.Valid() && Follows(r, bits.bit, ParseCoded(bits.All(), old(bits.bit), alphabet, size))
    ensures r.Ok? ==> Counted(r.value, counts)
  {
    hide Stream, ReadBits, ParseSelectors, ParseTables, ParseSymbols, Counted, TablesFor;
    counts := [];
    var tableCount := bits.Read(3);
    if tableCount.Err? {
      return Err(tableCount.error), counts;
    }
    if !(2 <= tableCount.value <= 6) {
      return Err(InvalidHuffman), counts;
    }
    var selectorCount := bits.Read(15);
    if selectorCount.Err? {
      return Err(selectorCount.error), counts;
    }
    if selectorCount.value == 0 {
      return Err(InvalidBlock), counts;
    }
    ghost var at := bits.bit;
    var selectors := ReadSelectors(bits, tableCount.value, selectorCount.value);
    if selectors.Err? {
      return Err(selectors.error), counts;
    }
    SelectorsKnown(bits.All(), at, Range(tableCount.value), [], selectorCount.value);
    ghost var at2 := bits.bit;
    var tables, lens := ReadTables(bits, tableCount.value, |alphabet| + 2);
    if tables.Err? {
      return Err(tables.error), counts;
    }
    TablesSized(bits.All(), at2, |alphabet| + 2, [], tableCount.value);
    r, counts := ReadSymbols(bits, tables.value, selectors.value, alphabet, size, lens);
  }

  /** The decoder follows the specification on every input, errors included. */
  method DecodeBlock(bits: Bits, level: nat, expected: Option<nat>, crc: Checksum) returns (r: Result<Decoded>)
    requires bits.Valid()
    modifies bits
    ensures bits.Valid() && Follows(r, bits.bit, ParseBlock(bits.All(), old(bits.bit), level, expected, crc))
  {
    hide Stream, ReadBits, ParseMap, ParseCoded, Finish, Alphabet, Counted;
    var stored := bits.Read(32);
    if stored.Err? {
      return Err(stored.error);
    }
    if expected.Some? && expected.value != stored.value {
      return Err(InvalidBlock);
    }
    var randomized := bits.Bit();
    if randomized.Err? {
      return Err(randomized.error);
    }
    if randomized.value {
      return Err(RandomizedBlock);
    }
    var origin := bits.Read(24);
    if origin.Err? {
      return Err(origin.error);
    }
    var used := ReadSymbolMap(bits);
    if used.Err? {
      return Err(used.error);
    }
    var alphabet := List(used.value);
    if |alphabet| == 0 {
      return Err(InvalidBlock);
    }
    var last, counts := ReadCoded(bits, alphabet, Size(level));
    if last.Err? {
      return Err(last.error);
    }
    r := Restore(last.value, counts, origin.value, stored.value, Size(level), crc);
  }
}
