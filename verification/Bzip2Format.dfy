/** Which bits are bzip2 blocks and streams, and of which data: in both directions. */
module Bzip2Format {
  import opened Seqs
  import opened Bytes
  import opened Sums
  import opened BitStream
  import opened BitReading
  import opened CodeLengths
  import opened MoveToFront
  import opened SymbolMap
  import opened SymbolStream
  import opened BlockCodec
  import opened BlockForms
  import opened SymbolForms
  import Bwt
  import Bzip2Stream
  import Crc
  import Mtf
  import Options
  import Rle1
  import Scan

  // ----- The coded last column -----

  /** Code tables and the column they code. */
  ghost predicate Tabled(s: seq<bool>, at: nat, end: nat, selectors: seq<nat>, alphabet: seq<Byte>, tables: seq<SentTable>, lens: seq<seq<nat>>, last: seq<Byte>)
  {
    && TablesOf(tables, |alphabet| + 2, lens) && Has(s, at, AllTableBits(tables))
    && Column(s, at + |AllTableBits(tables)|, end, lens, selectors, alphabet, last)
  }

  lemma SentUsable(tables: seq<SentTable>, alpha: nat, lens: seq<seq<nat>>, selectors: seq<nat>)
    requires TablesOf(tables, alpha, lens) && Known(Range(|tables|), selectors)
    ensures Usable(lens, alpha) && Selectable(lens, selectors)
  {
    hide SentTable.Lengths, SentTable.Valid, Buildable;
    forall i | 0 <= i < |lens| ensures |lens[i]| == alpha && Buildable(lens[i]) && lens[i] != [] {
      assert TableOf(tables[i], alpha, lens[i]);
      SentSize(tables[i], alpha, lens[i]);
    }
  }

  lemma SentSize(t: SentTable, alpha: nat, lens: seq<nat>)
    requires TableOf(t, alpha, lens)
    ensures |lens| == alpha && Buildable(lens) && lens != []
  {
  }

  lemma AlphabetDistinct(used: Flags)
    ensures Distinct(Alphabet(used))
  {
  }

  lemma TabledRead(s: seq<bool>, at: nat, end: nat, selectors: seq<nat>, alphabet: seq<Byte>, tables: seq<SentTable>, lens: seq<seq<nat>>, last: seq<Byte>, size: nat)
    requires at <= |s| && alphabet != [] && Distinct(alphabet) && size < 0x7FFF_FFFF && |last| <= size && Known(Range(|tables|), selectors)
    requires Tabled(s, at, end, selectors, alphabet, tables, lens, last)
    ensures ParseTabled(s, at, |tables|, selectors, alphabet, size) == Parsed(last, end)
  {
    hide Has, TablesOf, AllTableBits, Column, ParseTables, ParseSymbols, Usable, Selectable, Known, Distinct;
    SentUsable(tables, |alphabet| + 2, lens, selectors);
    TablesBack(s, at, |alphabet| + 2, tables, lens, []);
    assert [] + lens == lens;
    HasEnd(s, at, AllTableBits(tables));
    ColumnExactly(s, at + |AllTableBits(tables)|, end, lens, selectors, alphabet, size, last);
    ParsedTabled(s, at, |tables|, selectors, alphabet, size, lens, at + |AllTableBits(tables)|);
  }

  lemma TabledOnly(s: seq<bool>, at: nat, count: nat, selectors: seq<nat>, alphabet: seq<Byte>, size: nat) returns (tables: seq<SentTable>, lens: seq<seq<nat>>)
    requires at <= |s| && alphabet != [] && Distinct(alphabet) && size < 0x7FFF_FFFF && Known(Range(count), selectors)
    requires ParseTabled(s, at, count, selectors, alphabet, size).Parsed?
    ensures |tables| == count && |ParseTabled(s, at, count, selectors, alphabet, size).value| <= size
    ensures Tabled(s, at, ParseTabled(s, at, count, selectors, alphabet, size).at, selectors, alphabet, tables, lens, ParseTabled(s, at, count, selectors, alphabet, size).value)
  {
    hide Has, TablesOf, AllTableBits, Column, ParseTables, ParseSymbols, Usable, Selectable, Known, Distinct;
    tables, lens := TablesOnly(s, at, |alphabet| + 2, [], count);
    assert [] + lens == lens;
    SentUsable(tables, |alphabet| + 2, lens, selectors);
    var p := ParseTabled(s, at, count, selectors, alphabet, size);
    var middle := at + |AllTableBits(tables)|;
    HasEnd(s, at, AllTableBits(tables));
    ParsedTabled(s, at, count, selectors, alphabet, size, lens, middle);
    ColumnExactly(s, middle, p.at, lens, selectors, alphabet, size, p.value);
  }

  /** The number of tables, the number of selectors and the selectors. */
  function SelectorHead(count: nat, selectors: seq<nat>): seq<bool>
    requires Known(Range(count), selectors)
  {
    BitsOf(count, 3) + (BitsOf(|selectors|, 15) + SelectorBits(Range(count), selectors))
  }

  /** Two to six tables, at least one selector, and the tables and column they select for. */
  ghost predicate Coded(s: seq<bool>, at: nat, end: nat, selectors: seq<nat>, alphabet: seq<Byte>, tables: seq<SentTable>, lens: seq<seq<nat>>, last: seq<Byte>)
  {
    && 2 <= |tables| <= 6 && 1 <= |selectors| < 32768 && Known(Range(|tables|), selectors)
    && Has(s, at, SelectorHead(|tables|, selectors))
    && Tabled(s, at + |SelectorHead(|tables|, selectors)|, end, selectors, alphabet, tables, lens, last)
  }

  lemma HeadBack(s: seq<bool>, at: nat, count: nat, selectors: seq<nat>)
    requires 2 <= count <= 6 && 1 <= |selectors| < 32768 && Known(Range(count), selectors) && Has(s, at, SelectorHead(count, selectors))
    ensures ReadBits(s, at, 3) == Parsed(count, at + 3) && ReadBits(s, at + 3, 15) == Parsed(|selectors|, at + 18)
    ensures at + |SelectorHead(count, selectors)| <= |s|
    ensures ParseSelectors(s, at + 18, Range(count), [], |selectors|) == Parsed(selectors, at + |SelectorHead(count, selectors)|)
  {
    hide Has, ReadBits, SelectorBits, ParseSelectors, BitsOf, Known, Range;
    HasEnd(s, at, SelectorHead(count, selectors));
    HasSplit(s, at, BitsOf(count, 3), BitsOf(|selectors|, 15) + SelectorBits(Range(count), selectors));
    HasSplit(s, at + 3, BitsOf(|selectors|, 15), SelectorBits(Range(count), selectors));
    FieldWidths();
    ReadBack(s, at, count, 3);
    ReadBack(s, at + 3, |selectors|, 15);
    assert selectors[0..] == selectors && selectors[..0] == [];
    RangeSize(count);
    SelectorsRoundTrip(s, at + 18, Range(count), selectors, 0, SelectorBits(Range(count), selectors));
  }

  lemma RangeSize(n: nat)
    requires n > 0
    ensures Range(n) != [] && Distinct(Range(n))
  {
  }

  lemma CodedRead(s: seq<bool>, at: nat, end: nat, selectors: seq<nat>, alphabet: seq<Byte>, tables: seq<SentTable>, lens: seq<seq<nat>>, last: seq<Byte>, size: nat)
    requires alphabet != [] && Distinct(alphabet) && size < 0x7FFF_FFFF && |last| <= size
    requires Coded(s, at, end, selectors, alphabet, tables, lens, last)
    ensures ParseCoded(s, at, alphabet, size) == Parsed(last, end)
  {
    hide Has, ReadBits, SelectorHead, ParseSelectors, Known, Range, Tabled, ParseTabled, Distinct;
    var n := |tables|;
    HeadBack(s, at, n, selectors);
    ParsedSelected(s, at + 18, n, selectors, alphabet, size, at + |SelectorHead(n, selectors)|);
    TabledRead(s, at + |SelectorHead(n, selectors)|, end, selectors, alphabet, tables, lens, last, size);
  }

  lemma SelectedParts(s: seq<bool>, at: nat, alphabet: seq<Byte>, size: nat)
    requires alphabet != [] && ParseCoded(s, at, alphabet, size).Parsed?
    ensures var n, c := ReadBits(s, at, 3), ReadBits(s, at + 3, 15);
      n.Parsed? && c.Parsed? && 2 <= n.value <= 6 && c.value >= 1 && at + 18 <= |s| && ParseCoded(s, at, alphabet, size) == ParseSelected(s, at + 18, n.value, c.value, alphabet, size)
  {
    hide ParseSelected;
  }

  lemma TabledParts(s: seq<bool>, at: nat, tables: nat, count: nat, alphabet: seq<Byte>, size: nat)
    requires alphabet != [] && at <= |s| && tables > 0 && ParseSelected(s, at, tables, count, alphabet, size).Parsed?
    ensures var selectors := ParseSelectors(s, at, Range(tables), [], count);
      selectors.Parsed? && Known(Range(tables), selectors.value)
      && ParseSelected(s, at, tables, count, alphabet, size) == ParseTabled(s, selectors.at, tables, selectors.value, alphabet, size)
  {
    hide ParseTabled, ParseSelectors;
    SelectorsKnown(s, at, Range(tables), [], count);
  }

  lemma CodedOnly(s: seq<bool>, at: nat, alphabet: seq<Byte>, size: nat) returns (selectors: seq<nat>, tables: seq<SentTable>, lens: seq<seq<nat>>)
    requires alphabet != [] && Distinct(alphabet) && size < 0x7FFF_FFFF && ParseCoded(s, at, alphabet, size).Parsed?
    ensures var p := ParseCoded(s, at, alphabet, size); |p.value| <= size && Coded(s, at, p.at, selectors, alphabet, tables, lens, p.value)
  {
    hide Has, ReadBits, SelectorBits, ParseSelectors, BitsOf, Known, Range, Tabled, ParseTabled, ParseCoded, ParseSelected, Distinct;
    SelectedParts(s, at, alphabet, size);
    var n, c := ReadBits(s, at, 3).value, ReadBits(s, at + 3, 15).value;
    TabledParts(s, at + 18, n, c, alphabet, size);
    RangeSize(n);
    selectors := SelectorsOnly(s, at + 18, Range(n), [], c);
    assert [] + selectors == selectors;
    FieldWidths();
    BitsOnly(s, at, 3);
    BitsOnly(s, at + 3, 15);
    HasBoth(s, at + 3, BitsOf(|selectors|, 15), SelectorBits(Range(n), selectors));
    HasBoth(s, at, BitsOf(n, 3), BitsOf(|selectors|, 15) + SelectorBits(Range(n), selectors));
    tables, lens := TabledOnly(s, at + |SelectorHead(n, selectors)|, n, selectors, alphabet, size);
  }

  // ----- Blocks -----

  /** What the bits of a block give besides its data. */
  datatype Parts = Parts(origin: nat, groups: seq<bool>, used: Flags, selectors: seq<nat>, tables: seq<SentTable>, lens: seq<seq<nat>>, last: seq<Byte>)

  /** The stored checksum, a zero bit, the origin and the map. */
  function FrontBits(stored: nat, p: Parts): seq<bool>
    requires |p.groups| == 16
  {
    BitsOf(stored, 32) + ([false] + (BitsOf(p.origin, 24) + MapForm(p.groups, p.used)))
  }

  /** Walking the sorted last column from the origin, and undoing the run lengths. */
  ghost function Untransformed(last: seq<Byte>, origin: nat): seq<Byte>
    requires origin < |last|
  {
    Rle1.Plain(Bwt.Walk(last, Bwt.Links(last), origin, |last|))
  }

  /** Bits `at..end` are a block of at most the level's size that gives `d`, and its checksum is that of its data. */
  ghost predicate Block(s: seq<bool>, at: nat, end: nat, level: nat, crc: Checksum, p: Parts, d: Decoded)
  {
    && Flagged(p.groups, p.used) && Alphabet(p.used) != [] && p.origin < |p.last| <= 100000 * level
    && d.crc < 0x1_0000_0000 && Has(s, at, FrontBits(d.crc, p))
    && Coded(s, at + |FrontBits(d.crc, p)|, end, p.selectors, Alphabet(p.used), p.tables, p.lens, p.last)
    && d.output == Untransformed(p.last, p.origin) && crc(d.output) == d.crc && d.blockLen == |p.last|
  }

  lemma FrontBack(s: seq<bool>, at: nat, stored: nat, p: Parts)
    requires stored < 0x1_0000_0000 && p.origin < 0x100_0000 && Flagged(p.groups, p.used) && Has(s, at, FrontBits(stored, p))
    ensures ReadBits(s, at, 32) == Parsed(stored, at + 32) && ReadBit(s, at + 32) == Parsed(false, at + 33)
    ensures ReadBits(s, at + 33, 24) == Parsed(p.origin, at + 57) && ParseMap(s, at + 57) == Parsed(p.used, at + |FrontBits(stored, p)|)
  {
    hide Has, ReadBits, ReadBit, BitsOf, MapForm, ParseMap, Pow2;
    var mapped := MapForm(p.groups, p.used);
    HasSplit(s, at, BitsOf(stored, 32), [false] + (BitsOf(p.origin, 24) + mapped));
    HasSplit(s, at + 32, [false], BitsOf(p.origin, 24) + mapped);
    HasSplit(s, at + 33, BitsOf(p.origin, 24), mapped);
    Pow2Values();
    ReadBack(s, at, stored, 32);
    BitOnly(s, at + 32, false);
    ReadBack(s, at + 33, p.origin, 24);
    MapBack(s, at + 57, p.groups, p.used);
  }

  /** Run lengths never overflow the decoder's limit, so only the origin and the checksum are checked. */
  lemma FinishIs(last: seq<Byte>, origin: nat, stored: nat, size: nat, crc: Checksum)
    requires |last| <= size && size % 5 == 0
    ensures Finish(last, origin, stored, size, crc).Ok? <==> origin < |last| && crc(Untransformed(last, origin)) == stored
    ensures Finish(last, origin, stored, size, crc).Ok? ==> Finish(last, origin, stored, size, crc).value == Decoded(Untransformed(last, origin), stored, |last|)
  {
    hide Rle1.Checked, Rle1.Plain, Bwt.Walk, Bwt.Links;
    if origin < |last| {
      Rle1.BlockExpands(Bwt.Walk(last, Bwt.Links(last), origin, |last|), size);
    }
  }

  lemma SizeFits(level: nat)
    requires 1 <= level <= 9
    ensures Size(level) == 100000 * level <= 900000 && Size(level) % 5 == 0
  {
  }

  lemma BlockRead(s: seq<bool>, at: nat, end: nat, level: nat, crc: Checksum, p: Parts, d: Decoded)
    requires 1 <= level <= 9 && Block(s, at, end, level, crc, p, d)
    ensures ParseBlock(s, at, level, Options.None, crc) == Parsed(d, end)
  {
    hide Has, ReadBits, ReadBit, FrontBits, ParseMap, Alphabet, Coded, ParseCoded, Finish, Untransformed, Size, Flagged;
    SizeFits(level);
    GroupsSize(p.groups, p.used);
    FrontBack(s, at, d.crc, p);
    AlphabetDistinct(p.used);
    CodedRead(s, at + |FrontBits(d.crc, p)|, end, p.selectors, Alphabet(p.used), p.tables, p.lens, p.last, Size(level));
    FinishIs(p.last, p.origin, d.crc, Size(level), crc);
  }

  /** What an accepted block went through. */
  lemma BlockParts(s: seq<bool>, at: nat, level: nat, crc: Checksum)
    requires ParseBlock(s, at, level, Options.None, crc).Parsed?
    ensures var stored, origin, used := ReadBits(s, at, 32), ReadBits(s, at + 33, 24), ParseMap(s, at + 57);
      && stored.Parsed? && ReadBit(s, at + 32) == Parsed(false, at + 33) && origin.Parsed? && used.Parsed? && Alphabet(used.value) != []
      && var last := ParseCoded(s, used.at, Alphabet(used.value), Size(level));
         last.Parsed? && Finish(last.value, origin.value, stored.value, Size(level), crc).Ok?
         && ParseBlock(s, at, level, Options.None, crc) == Parsed(Finish(last.value, origin.value, stored.value, Size(level), crc).value, last.at)
  {
    hide ParseMap, Alphabet, ParseCoded, Finish, Size;
  }

  lemma BlockOnly(s: seq<bool>, at: nat, level: nat, crc: Checksum) returns (p: Parts)
    requires 1 <= level <= 9 && ParseBlock(s, at, level, Options.None, crc).Parsed?
    ensures Block(s, at, ParseBlock(s, at, level, Options.None, crc).at, level, crc, p, ParseBlock(s, at, level, Options.None, crc).value)
  {
    hide Has, ReadBits, ReadBit, ParseMap, Alphabet, Coded, ParseCoded, Finish, Untransformed, Size, Flagged, ParseBlock, BitsOf, MapForm, Pow2;
    SizeFits(level);
    BlockParts(s, at, level, crc);
    var stored, origin, used := ReadBits(s, at, 32).value, ReadBits(s, at + 33, 24).value, ParseMap(s, at + 57);
    var last := ParseCoded(s, used.at, Alphabet(used.value), Size(level));
    var groups := MapOnly(s, at + 57);
    AlphabetDistinct(used.value);
    var selectors, tables, lens := CodedOnly(s, used.at, Alphabet(used.value), Size(level));
    FinishIs(last.value, origin, stored, Size(level), crc);
    p := Parts(origin, groups, used.value, selectors, tables, lens, last.value);
    BitsOnly(s, at, 32);
    BitOnly(s, at + 32, false);
    BitsOnly(s, at + 33, 24);
    Pow2Values();
    GroupsSize(groups, used.value);
    HasBoth(s, at + 33, BitsOf(origin, 24), MapForm(groups, used.value));
    HasBoth(s, at + 32, [false], BitsOf(origin, 24) + MapForm(groups, used.value));
    HasBoth(s, at, BitsOf(stored, 32), [false] + (BitsOf(origin, 24) + MapForm(groups, used.value)));
  }

  lemma GroupsSize(groups: seq<bool>, used: Flags)
    requires Flagged(groups, used)
    ensures |groups| == 16
  {
  }

  /** The block decoder accepts exactly the blocks there are, and gives their data. */
  lemma BlockExactly(s: seq<bool>, at: nat, end: nat, level: nat, crc: Checksum, d: Decoded)
    requires 1 <= level <= 9
    ensures ParseBlock(s, at, level, Options.None, crc) == Parsed(d, end) <==> exists p :: Block(s, at, end, level, crc, p, d)
  {
    hide ParseBlock, Block;
    if ParseBlock(s, at, level, Options.None, crc) == Parsed(d, end) {
      var p := BlockOnly(s, at, level, crc);
    }
    forall p | Block(s, at, end, level, crc, p, d) ensures ParseBlock(s, at, level, Options.None, crc) == Parsed(d, end) {
      BlockRead(s, at, end, level, crc, p, d);
    }
  }

  // ----- Streams -----

  /** A block of a stream: what it is made of, what it gives and where it ends. */
  datatype SentBlock = SentBlock(parts: Parts, decoded: Decoded, end: nat)

  /** Marked blocks, the end mark and the checksum that combines theirs. */
  ghost predicate Blocks(s: seq<bool>, at: nat, end: nat, level: nat, combined: nat, blocks: seq<SentBlock>)
    requires combined < 0x1_0000_0000
    decreases |blocks|
  {
    if blocks == [] then Has(s, at, BitsOf(0x1772_4538_5090, 48) + BitsOf(combined, 32)) && end == at + 80
    else
      && Has(s, at, BitsOf(0x3141_5926_5359, 48))
      && Block(s, at + 48, blocks[0].end, level, Bzip2Stream.CRC, blocks[0].parts, blocks[0].decoded)
      && Blocks(s, blocks[0].end, end, level, Crc.Combine(combined, blocks[0].decoded.crc), blocks[1..])
  }

  function Texts(blocks: seq<SentBlock>): seq<Byte>
  {
    if blocks == [] then [] else blocks[0].decoded.output + Texts(blocks[1..])
  }

  lemma BlocksRead(s: seq<bool>, at: nat, end: nat, level: nat, combined: nat, blocks: seq<SentBlock>, out: seq<Byte>)
    requires 1 <= level <= 9 && combined < 0x1_0000_0000 && Blocks(s, at, end, level, combined, blocks)
    ensures at <= end <= |s| && Bzip2Stream.ParseBlocks(s, at, level, combined, out) == Parsed(out + Texts(blocks), end)
    decreases |blocks|
  {
    hide Has, Block, ParseBlock, BitsOf, Crc.Combine, Bzip2Stream.CRC, Pow2, ReadBits;
    if blocks == [] {
      HasEnd(s, at, BitsOf(0x1772_4538_5090, 48) + BitsOf(combined, 32));
      Bzip2Stream.EndStep(s, at, level, combined, out);
      assert out + [] == out;
    } else {
      var b := blocks[0];
      HasEnd(s, at, BitsOf(0x3141_5926_5359, 48));
      MarkRead(s, at);
      BlockRead(s, at + 48, b.end, level, Bzip2Stream.CRC, b.parts, b.decoded);
      BlocksRead(s, b.end, end, level, Crc.Combine(combined, b.decoded.crc), blocks[1..], out + b.decoded.output);
      Regroup(out, b.decoded.output, Texts(blocks[1..]));
    }
  }

  lemma MarkRead(s: seq<bool>, at: nat)
    requires Has(s, at, BitsOf(0x3141_5926_5359, 48))
    ensures ReadBits(s, at, 48) == Parsed(BLOCK_MAGIC, at + 48)
  {
    hide Has, BitsOf, Pow2, ReadBits;
    Bzip2Stream.Magics();
    ReadBack(s, at, 0x3141_5926_5359, 48);
  }

  /** One step of the stream parser. */
  lemma BlocksStep(s: seq<bool>, at: nat, level: nat, combined: nat, out: seq<Byte>)
    requires at <= |s| && Bzip2Stream.ParseBlocks(s, at, level, combined, out).Parsed?
    ensures var mark := ReadBits(s, at, 48); var p := Bzip2Stream.ParseBlocks(s, at, level, combined, out);
      mark.Parsed? &&
      if mark.value == 0x3141_5926_5359 then
        var block := ParseBlock(s, at + 48, level, Options.None, Bzip2Stream.CRC);
        block.Parsed? && p == Bzip2Stream.ParseBlocks(s, block.at, level, Crc.Combine(combined, block.value.crc), out + block.value.output)
      else mark.value == 0x1772_4538_5090 && ReadBits(s, at + 48, 32) == Parsed(combined, at + 80) && p == Parsed(out, at + 80)
  {
    hide ParseBlock, Crc.Combine, Bzip2Stream.CRC;
  }

  lemma {:induction false} BlocksOnly(s: seq<bool>, at: nat, level: nat, combined: nat, out: seq<Byte>) returns (blocks: seq<SentBlock>)
    requires 1 <= level <= 9 && combined < 0x1_0000_0000 && at <= |s| && Bzip2Stream.ParseBlocks(s, at, level, combined, out).Parsed?
    ensures var p := Bzip2Stream.ParseBlocks(s, at, level, combined, out); Blocks(s, at, p.at, level, combined, blocks) && p.value == out + Texts(blocks)
    decreases |s| - at
  {
    hide Has, Block, ParseBlock, BitsOf, Crc.Combine, Bzip2Stream.CRC, Bzip2Stream.ParseBlocks, ReadBits, Pow2;
    BlocksStep(s, at, level, combined, out);
    BitsOnly(s, at, 48);
    if ReadBits(s, at, 48).value == 0x3141_5926_5359 {
      var block := ParseBlock(s, at + 48, level, Options.None, Bzip2Stream.CRC);
      var parts := BlockOnly(s, at + 48, level, Bzip2Stream.CRC);
      var rest := BlocksOnly(s, block.at, level, Crc.Combine(combined, block.value.crc), out + block.value.output);
      blocks := [SentBlock(parts, block.value, block.at)] + rest;
      assert blocks[1..] == rest;
      Regroup(out, block.value.output, Texts(rest));
    } else {
      blocks := [];
      BitsOnly(s, at + 48, 32);
      HasBoth(s, at, BitsOf(0x1772_4538_5090, 48), BitsOf(combined, 32));
      assert out + [] == out;
    }
  }

  /** A stream: its level, its blocks and where its checksum ends. */
  datatype SentStream = SentStream(level: nat, blocks: seq<SentBlock>, end: nat)

  /** Streams one after another, each from the next whole byte on: "BZh", the level's digit, and blocks. Bits up to a whole byte are free. */
  ghost predicate Streams(s: seq<bool>, at: nat, streams: seq<SentStream>)
    decreases |streams|
  {
    if streams == [] then at == |s| else
      var t, start := streams[0], (at + 7) / 8 * 8;
      && at < |s| && 1 <= t.level <= 9 && Has(s, start, Stream([0x42, 0x5A, 0x68, 0x30 + t.level]))
      && Blocks(s, start + 32, t.end, t.level, 0, t.blocks) && Streams(s, (t.end + 7) / 8 * 8, streams[1..])
  }

  function AllTexts(streams: seq<SentStream>): seq<Byte>
  {
    if streams == [] then [] else Texts(streams[0].blocks) + AllTexts(streams[1..])
  }

  lemma HeaderOnly(s: seq<bool>, at: nat)
    requires Bzip2Stream.ParseHeader(s, at).Parsed?
    ensures var level := Bzip2Stream.ParseHeader(s, at).value; 1 <= level <= 9 && Has(s, at, Stream([0x42, 0x5A, 0x68, 0x30 + level]))
  {
    hide BitsOf, ValueOf, Stream, Has;
    var level := Bzip2Stream.ParseHeader(s, at).value;
    Bzip2Stream.HeaderBits(level);
    EightBits(s, at, 0x42);
    EightBits(s, at + 8, 0x5A);
    EightBits(s, at + 16, 0x68);
    EightBits(s, at + 24, 0x30 + level);
    HasBoth(s, at, BitsOf(0x42, 8), BitsOf(0x5A, 8));
    HasBoth(s, at, BitsOf(0x42, 8) + BitsOf(0x5A, 8), BitsOf(0x68, 8));
    HasBoth(s, at, BitsOf(0x42, 8) + BitsOf(0x5A, 8) + BitsOf(0x68, 8), BitsOf(0x30 + level, 8));
  }

  lemma EightBits(s: seq<bool>, at: nat, v: nat)
    requires at + 8 <= |s| && ValueOf(s[at..at + 8]) == v
    ensures Has(s, at, BitsOf(v, 8))
  {
    BitsOfValue(s[at..at + 8]);
  }

  lemma StreamsStep(s: seq<bool>, at: nat, out: seq<Byte>, level: nat, blocks: seq<SentBlock>, end: nat)
    requires at < |s| && |s| % 8 == 0 && 1 <= level <= 9
    requires var start := (at + 7) / 8 * 8; Has(s, start, Stream([0x42, 0x5A, 0x68, 0x30 + level])) && Blocks(s, start + 32, end, level, 0, blocks)
    ensures end <= (end + 7) / 8 * 8 <= |s| && at < end
    ensures Bzip2Stream.ParseStreams(s, at, out) == Bzip2Stream.ParseStreams(s, (end + 7) / 8 * 8, out + Texts(blocks))
  {
    hide Has, Stream, Blocks, Bzip2Stream.ParseBlocks, Bzip2Stream.ParseHeader;
    var start := (at + 7) / 8 * 8;
    Bzip2Stream.HeaderParses(s, start, level);
    HasEnd(s, start, Stream(Bzip2Stream.Header(level)));
    BlocksRead(s, start + 32, end, level, 0, blocks, out);
    Bzip2Stream.AlignedWithin(end, |s|);
  }

  lemma {:induction false} StreamsRead(s: seq<bool>, at: nat, streams: seq<SentStream>, out: seq<Byte>)
    requires at <= |s| && |s| % 8 == 0 && Streams(s, at, streams)
    ensures Bzip2Stream.ParseStreams(s, at, out) == Parsed(out + AllTexts(streams), |s|)
    decreases |streams|
  {
    hide Has, Stream, Blocks, Bzip2Stream.ParseBlocks, Bzip2Stream.ParseHeader;
    if streams == [] {
      assert out + [] == out;
    } else {
      hide Bzip2Stream.ParseStreams;
      var t := streams[0];
      StreamsStep(s, at, out, t.level, t.blocks, t.end);
      StreamsRead(s, (t.end + 7) / 8 * 8, streams[1..], out + Texts(t.blocks));
      Regroup(out, Texts(t.blocks), AllTexts(streams[1..]));
    }
  }

  lemma StreamParts(s: seq<bool>, at: nat, out: seq<Byte>)
    requires at < |s| && |s| % 8 == 0 && Bzip2Stream.ParseStreams(s, at, out).Parsed?
    ensures var start := (at + 7) / 8 * 8; var header := Bzip2Stream.ParseHeader(s, start);
      header.Parsed? && header.at == start + 32 && Bzip2Stream.ParseBlocks(s, start + 32, header.value, 0, out).Parsed?
  {
    hide Bzip2Stream.ParseBlocks, Bzip2Stream.ParseHeader;
  }

  lemma {:induction false} StreamsOnly(s: seq<bool>, at: nat, out: seq<Byte>) returns (streams: seq<SentStream>)
    requires at <= |s| && |s| % 8 == 0 && Bzip2Stream.ParseStreams(s, at, out).Parsed?
    ensures Streams(s, at, streams) && Bzip2Stream.ParseStreams(s, at, out) == Parsed(out + AllTexts(streams), |s|)
    decreases |s| - at
  {
    hide Has, Stream, Blocks, Bzip2Stream.ParseBlocks, Bzip2Stream.ParseHeader;
    if at == |s| {
      streams := [];
      assert out + [] == out;
    } else {
      hide Bzip2Stream.ParseStreams;
      var start := (at + 7) / 8 * 8;
      StreamParts(s, at, out);
      HeaderOnly(s, start);
      var level := Bzip2Stream.ParseHeader(s, start).value;
      var blocks := BlocksOnly(s, start + 32, level, 0, out);
      var end := Bzip2Stream.ParseBlocks(s, start + 32, level, 0, out).at;
      StreamsStep(s, at, out, level, blocks, end);
      var rest := StreamsOnly(s, (end + 7) / 8 * 8, out + Texts(blocks));
      streams := [SentStream(level, blocks, end)] + rest;
      assert streams[1..] == rest;
      Regroup(out, Texts(blocks), AllTexts(rest));
    }
  }

  /** The serial decoder accepts exactly the inputs made of streams, and gives the data of all their blocks in order. */
  lemma StreamsExactly(data: seq<Byte>, text: seq<Byte>)
    ensures Bzip2Stream.ParseStreams(Stream(data), 0, []) == Parsed(text, 8 * |data|) <==>
            exists streams :: Streams(Stream(data), 0, streams) && text == AllTexts(streams)
  {
    hide Stream, Streams, Bzip2Stream.ParseStreams;
    var s := Stream(data);
    if Bzip2Stream.ParseStreams(s, 0, []) == Parsed(text, 8 * |data|) {
      var streams := StreamsOnly(s, 0, []);
      assert [] + AllTexts(streams) == AllTexts(streams);
    }
    forall streams | Streams(s, 0, streams) && text == AllTexts(streams) ensures Bzip2Stream.ParseStreams(s, 0, []) == Parsed(text, 8 * |data|) {
      StreamsRead(s, 0, streams, []);
      assert [] + AllTexts(streams) == AllTexts(streams);
    }
  }

  // ----- Marked positions -----

  /** A block mark with a checksum, a flag and an origin after it. */
  ghost predicate BlockStands(s: seq<bool>, c: Scan.BlockCandidate)
  {
    && c.expectedCrc < 0x1_0000_0000 && c.origPtr < 0x100_0000
    && Has(s, c.bitOffset, BitsOf(0x3141_5926_5359, 48) + (BitsOf(c.expectedCrc, 32) + ([c.randomized] + BitsOf(c.origPtr, 24))))
  }

  /** An end mark with a checksum after it. */
  ghost predicate EndStands(s: seq<bool>, c: Scan.EndCandidate)
  {
    c.expectedStreamCrc < 0x1_0000_0000 && Has(s, c.bitOffset, BitsOf(0x1772_4538_5090, 48) + BitsOf(c.expectedStreamCrc, 32))
  }

  lemma BlockAtExactly(s: seq<bool>, p: nat, c: Scan.BlockCandidate)
    ensures Scan.BlockAt(s, p) == Options.Some(c) <==> c.bitOffset == p && BlockStands(s, c)
  {
    hide Has, BitsOf, ReadBits, ReadBit, Pow2;
    Bzip2Stream.Magics();
    Pow2Values();
    var mark, crc, flag, origin := BitsOf(0x3141_5926_5359, 48), BitsOf(c.expectedCrc, 32), [c.randomized], BitsOf(c.origPtr, 24);
    if Scan.BlockAt(s, p) == Options.Some(c) {
      BitsOnly(s, p, 48);
      BitsOnly(s, p + 48, 32);
      BitOnly(s, p + 80, c.randomized);
      BitsOnly(s, p + 81, 24);
      HasBoth(s, p + 80, flag, origin);
      HasBoth(s, p + 48, crc, flag + origin);
      HasBoth(s, p, mark, crc + (flag + origin));
    }
    if c.bitOffset == p && BlockStands(s, c) {
      HasSplit(s, p, mark, crc + (flag + origin));
      HasSplit(s, p + 48, crc, flag + origin);
      HasSplit(s, p + 80, flag, origin);
      ReadBack(s, p, 0x3141_5926_5359, 48);
      ReadBack(s, p + 48, c.expectedCrc, 32);
      BitOnly(s, p + 80, c.randomized);
      ReadBack(s, p + 81, c.origPtr, 24);
    }
  }

  lemma EndAtExactly(s: seq<bool>, p: nat, c: Scan.EndCandidate)
    ensures Scan.EndAt(s, p) == Options.Some(c) <==> c.bitOffset == p && EndStands(s, c)
  {
    hide Has, BitsOf, ReadBits, Pow2;
    Bzip2Stream.Magics();
    Pow2Values();
    var mark, crc := BitsOf(0x1772_4538_5090, 48), BitsOf(c.expectedStreamCrc, 32);
    if Scan.EndAt(s, p) == Options.Some(c) {
      BitsOnly(s, p, 48);
      BitsOnly(s, p + 48, 32);
      HasBoth(s, p, mark, crc);
    }
    if c.bitOffset == p && EndStands(s, c) {
      HasSplit(s, p, mark, crc);
      ReadBack(s, p, 0x1772_4538_5090, 48);
      ReadBack(s, p + 48, c.expectedStreamCrc, 32);
    }
  }

  /** A scan lists exactly the marks in its range that have their fields in bounds. */
  lemma {:induction false} CandidatesExactly(s: seq<bool>, from: nat, stop: nat, b: Scan.BlockCandidate, e: Scan.EndCandidate)
    ensures b in Scan.BlocksIn(s, from, stop) <==> from <= b.bitOffset < stop && BlockStands(s, b)
    ensures e in Scan.EndsIn(s, from, stop) <==> from <= e.bitOffset < stop && EndStands(s, e)
    decreases stop
  {
    hide BlockStands, EndStands, Scan.BlockAt, Scan.EndAt;
    if stop > from {
      CandidatesExactly(s, from, stop - 1, b, e);
      BlockAtExactly(s, stop - 1, b);
      EndAtExactly(s, stop - 1, e);
    }
  }
}
