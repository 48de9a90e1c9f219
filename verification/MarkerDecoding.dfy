/** The bzip2 decoder with several threads: scan, prefetch, speculate, assemble; and the index it builds. */
module MarkerDecoding {
  import opened Bytes
  import opened Seqs
  import opened BitStream
  import opened BitReading
  import opened Options
  import opened Scan
  import opened SeekIndex
  import opened Assemble
  import opened BlockLevels
  import opened Bzip2Stream
  import BlockCodec
  import Bwt
  import Rle1
  import Sums
  import SymbolMap

  const MAX_ENCODED_BLOCK: nat := 900000
  const MAX_DECODED_BLOCK: nat := MAX_ENCODED_BLOCK / 5 * 259 + 4

  // ----- Counting markers -----

  /** How many positions of the input are marked. */
  ghost function MarkerCount(data: seq<Byte>): nat
  {
    |BlocksIn(Stream(data), 0, 8 * |data|)| + |EndsIn(Stream(data), 0, 8 * |data|)|
  }

  lemma {:induction false} FoundAscending(s: seq<bool>, start: nat, stop: nat)
    ensures forall i :: 0 <= i < |BlocksIn(s, start, stop)| ==> BlocksIn(s, start, stop)[i].bitOffset < stop
    ensures forall i :: 0 <= i < |EndsIn(s, start, stop)| ==> EndsIn(s, start, stop)[i].bitOffset < stop
    ensures forall i, j :: 0 <= i < j < |BlocksIn(s, start, stop)| ==> BlocksIn(s, start, stop)[i].bitOffset < BlocksIn(s, start, stop)[j].bitOffset
    ensures forall i, j :: 0 <= i < j < |EndsIn(s, start, stop)| ==> EndsIn(s, start, stop)[i].bitOffset < EndsIn(s, start, stop)[j].bitOffset
    decreases stop
  {
    hide ReadBits, ReadBit;
    if stop > start {
      FoundAscending(s, start, stop - 1);
    }
  }

  function BlockOffsets(bs: seq<BlockCandidate>): (r: seq<nat>)
    ensures |r| == |bs| && forall i :: 0 <= i < |r| ==> r[i] == bs[i].bitOffset
  {
    seq(|bs|, i requires 0 <= i < |bs| => bs[i].bitOffset)
  }

  function EndOffsets(es: seq<EndCandidate>): (r: seq<nat>)
    ensures |r| == |es| && forall i :: 0 <= i < |r| ==> r[i] == es[i].bitOffset
  {
    seq(|es|, i requires 0 <= i < |es| => es[i].bitOffset)
  }

  function MarkerOffsets(ms: seq<Marker>): (r: seq<nat>)
    ensures |r| == |ms| && forall i :: 0 <= i < |r| ==> r[i] == Offset(ms[i])
  {
    seq(|ms|, i requires 0 <= i < |ms| => Offset(ms[i]))
  }

  /** No position is both a block and an end, so no marker is dropped. */
  lemma CountMarkers(s: seq<bool>, n: nat, markers: seq<Marker>)
    requires Ascending(markers) && |markers| <= |BlocksIn(s, 0, n)| + |EndsIn(s, 0, n)|
    requires forall b :: b in BlocksIn(s, 0, n) ==> HasOffset(markers, b.bitOffset)
    requires forall e :: e in EndsIn(s, 0, n) ==> HasOffset(markers, e.bitOffset)
    ensures |markers| == |BlocksIn(s, 0, n)| + |EndsIn(s, 0, n)|
  {
    hide BlocksIn, EndsIn, Offset, HasOffset, Ascending;
    var blocks, ends := BlocksIn(s, 0, n), EndsIn(s, 0, n);
    var bs, es, ms := BlockOffsets(blocks), EndOffsets(ends), MarkerOffsets(markers);
    FoundAscending(s, 0, n);
    DistinctCount(bs);
    DistinctCount(es);
    MarkersDistinct(markers);
    Apart(s, n);
    forall p | p in Members(bs) ensures p in Members(ms) {
      var i :| 0 <= i < |bs| && bs[i] == p;
      assert blocks[i] in blocks;
      InMarkers(markers, p, blocks[i].bitOffset);
    }
    forall p | p in Members(es) ensures p in Members(ms) {
      var i :| 0 <= i < |es| && es[i] == p;
      assert ends[i] in ends;
      InMarkers(markers, p, ends[i].bitOffset);
    }
    BothWithin(Members(bs), Members(es), Members(ms));
  }

  lemma MarkersDistinct(markers: seq<Marker>)
    requires Ascending(markers)
    ensures |Members(MarkerOffsets(markers))| == |markers|
  {
    hide Offset;
    DistinctCount(MarkerOffsets(markers));
  }

  lemma BothWithin(b: set<nat>, e: set<nat>, m: set<nat>)
    requires b <= m && e <= m && b !! e
    ensures |b| + |e| <= |m|
  {
    SubsetSize(b + e, m);
  }

  lemma InMarkers(markers: seq<Marker>, p: nat, q: nat)
    requires p == q && HasOffset(markers, q)
    ensures p in Members(MarkerOffsets(markers))
  {
    var i :| 0 <= i < |markers| && Offset(markers[i]) == q;
    assert MarkerOffsets(markers)[i] == p;
  }

  lemma Apart(s: seq<bool>, n: nat)
    ensures Members(BlockOffsets(BlocksIn(s, 0, n))) !! Members(EndOffsets(EndsIn(s, 0, n)))
  {
    hide BlocksIn, EndsIn, Scan.BlockAt, Scan.EndAt;
    var bs, es := BlockOffsets(BlocksIn(s, 0, n)), EndOffsets(EndsIn(s, 0, n));
    BlocksFound(s, 0, n);
    EndsFound(s, 0, n);
    forall p | p in Members(bs) ensures p !in Members(es) {
      var i :| 0 <= i < |bs| && bs[i] == p;
      assert BlocksIn(s, 0, n)[i] in BlocksIn(s, 0, n);
      NotBoth(s, p);
      forall j | 0 <= j < |es| ensures es[j] != p {
        assert EndsIn(s, 0, n)[j] in EndsIn(s, 0, n);
      }
    }
  }

  lemma NotBoth(s: seq<bool>, p: nat)
    ensures Scan.BlockAt(s, p).None? || Scan.EndAt(s, p).None?
  {
    hide ValueOf;
    MagicsDiffer();
  }

  // ----- The first block -----

  datatype Prefetch = Nothing | Rejected | Fetched(crc: nat, candidate: Candidate)

  predicate StartsWithBlock(data: seq<Byte>)
  {
    |data| >= 10 && data[4..10] == [0x31, 0x41, 0x59, 0x26, 0x53, 0x59]
  }

  lemma MagicBytes(data: seq<Byte>, s: seq<bool>)
    requires StartsWithBlock(data) && s == Stream(data)
    ensures ReadBits(s, 32, 48) == Parsed(BlockCodec.BLOCK_MAGIC, 80)
  {
    hide Stream, ValueOf, BigEndian;
    StreamSlice(data, 4, 10);
    BigEndianIsStream(data[4..10]);
    MagicValue();
  }

  lemma MagicValue()
    ensures BigEndian([0x31, 0x41, 0x59, 0x26, 0x53, 0x59]) == BlockCodec.BLOCK_MAGIC
  {
    Push([], 0x31);
    Push([0x31], 0x41);
    Push([0x31, 0x41], 0x59);
    Push([0x31, 0x41, 0x59], 0x26);
    Push([0x31, 0x41, 0x59, 0x26], 0x53);
    Push([0x31, 0x41, 0x59, 0x26, 0x53], 0x59);
    assert [0x31 as Byte] == [] + [0x31] && [0x31, 0x41 as Byte] == [0x31] + [0x41] && [0x31, 0x41, 0x59 as Byte] == [0x31, 0x41] + [0x59];
    assert [0x31, 0x41, 0x59, 0x26 as Byte] == [0x31, 0x41, 0x59] + [0x26] && [0x31, 0x41, 0x59, 0x26, 0x53 as Byte] == [0x31, 0x41, 0x59, 0x26] + [0x53];
    assert [0x31, 0x41, 0x59, 0x26, 0x53, 0x59 as Byte] == [0x31, 0x41, 0x59, 0x26, 0x53] + [0x59];
  }

  lemma Push(bytes: seq<Byte>, b: Byte)
    ensures BigEndian(bytes + [b]) == 256 * BigEndian(bytes) + b
  {
    BigEndianPush(bytes, b);
    Eight(BigEndian(bytes));
  }

  /** Where the first block fails its speculative decode or its level, the serial decoder fails. */
  lemma FirstBlockFails(s: seq<bool>, level: nat, c: Option<Candidate>)
    requires ReadBits(s, 32, 48) == Parsed(BlockCodec.BLOCK_MAGIC, 80) && c == CandidateAt(s, 32, None) && 1 <= level <= 9
    requires c.None? || c.value.blockLen > BlockCodec.Size(level)
    ensures ParseBlocks(s, 32, level, 0, []).Failed?
  {
    hide CRC, BlockCodec.ParseBlock, ValueOf;
    var none: Option<nat> := None;
    LevelFree(s, 80, level, none, CRC);
  }

  /** Decode the first block ahead of the scan. */
  method PrefetchFirst(data: seq<Byte>) returns (r: Prefetch)
    ensures r.Rejected? ==> ParseStreams(Stream(data), 0, []).Failed?
    ensures r.Fetched? ==> StartsWithBlock(data) && CandidateAt(Stream(data), 32, None) == Some(r.candidate) && ReadBits(Stream(data), 80, 32) == Parsed(r.crc, 112)
  {
    hide Stream, ParseStreams, ParseBlocks, ParseHeader, CandidateAt, ParseHeaderAt, ValueOf;
    ghost var s := Stream(data);
    if !StartsWithBlock(data) {
      return Nothing;
    }
    StreamsStep(s, 0, []);
    HeaderIs(data, s, 0);
    MagicBytes(data, s);
    var level := ParseHeaderAt(data, 0);
    if level.None? {
      return Rejected;
    }
    HeaderLevel(data, 0);
    var c, crc := DecodeCandidate(data, 32, None);
    if c.None? || c.value.blockLen > BlockCodec.Size(level.value) {
      FirstBlockFails(s, level.value, c);
      return Rejected;
    }
    r := Fetched(crc, c.value);
  }

  /** A prefetched block has its marker, with the same checksum and the same decode. */
  lemma FetchedMarked(s: seq<bool>, c: Candidate, crc: nat)
    requires CandidateAt(s, 32, None) == Some(c) && ReadBits(s, 80, 32) == Parsed(crc, 112)
    ensures Scan.BlockAt(s, 32).Some? && Scan.BlockAt(s, 32).value.expectedCrc == crc && CandidateAt(s, 32, Some(crc)) == Some(c)
  {
    hide CRC, ValueOf, BlockCodec.ParseBlock;
    var none: Option<nat> := None;
    ParsedFields(s, 80, none);
    ExpectedStored(s, 80, 9, CRC, crc);
  }

  lemma ParsedFields(s: seq<bool>, at: nat, expected: Option<nat>)
    requires BlockCodec.ParseBlock(s, at, 9, expected, CRC).Parsed?
    ensures ReadBits(s, at, 32).Parsed? && ReadBit(s, at + 32).Parsed? && ReadBits(s, at + 33, 24).Parsed?
  {
    hide CRC, BlockCodec.ParseCoded, SymbolMap.Alphabet, SymbolMap.ParseMap, BlockCodec.Finish, ValueOf;
  }

  // ----- Speculation -----

  /** A job for every marked block but the prefetched one. */
  method RunCandidates(data: seq<Byte>, markers: seq<Marker>, prefetched: Option<Prefetched>) returns (values: map<nat, Option<Candidate>>)
    ensures forall j: nat :: j < |markers| && markers[j].Block? && (prefetched.None? || prefetched.value.index != j) ==>
              j in values && values[j] == CandidateOf(Stream(data), markers[j])
  {
    hide CandidateAt, Stream;
    values := map[];
    for k := 0 to |markers|
      invariant forall j: nat :: j < k && markers[j].Block? && (prefetched.None? || prefetched.value.index != j) ==>
                  j in values && values[j] == CandidateOf(Stream(data), markers[j])
    {
      if markers[k].Block? && (prefetched.None? || prefetched.value.index != k) {
        var value, _ := DecodeCandidate(data, markers[k].block.bitOffset, Some(markers[k].block.expectedCrc));
        values := values[k := value];
      }
    }
  }

  /** Scan for the markers of the input, unless there are too many of them. */
  method FindMarkers(data: seq<Byte>, threads: nat) returns (r: Option<seq<Marker>>)
    requires IsStreamHeader(data, 0)
    ensures r.Some? <==> MarkerCount(data) <= |data| / 16 + 64
    ensures r.Some? ==> Marks(Stream(data), r.value)
  {
    hide Stream, BlocksIn, EndsIn, HeadersIn, IsStreamHeader, HasOffset, Ascending, Marks;
    var scan := ScanWithPool(data, if threads <= 1 then None else Some(threads));
    var markers := CollectMarkers(scan.value);
    ghost var s := Stream(data);
    CountMarkers(s, 8 * |data|, markers);
    if |markers| > |data| / 16 + 64 {
      return None;
    }
    ScannedMarks(s, 8 * |data|, markers);
    r := Some(markers);
  }

  /** The marker of a prefetched block, which the scan cannot have missed. */
  method PlacePrefetched(data: seq<Byte>, markers: seq<Marker>, fetched: Prefetch) returns (r: Option<Prefetched>, early: seq<Byte>)
    requires Marks(Stream(data), markers) && !fetched.Rejected?
    requires fetched.Fetched? ==> CandidateAt(Stream(data), 32, None) == Some(fetched.candidate) && ReadBits(Stream(data), 80, 32) == Parsed(fetched.crc, 112)
    ensures r.Some? <==> fetched.Fetched?
    ensures Early(Stream(data), markers, r, early) && early == if fetched.Fetched? then fetched.candidate.output else []
  {
    hide Stream, CandidateAt, Scan.BlockAt, Scan.EndAt, Marks, HasOffset;
    ghost var s := Stream(data);
    if fetched.Nothing? {
      NothingEarly(s, markers, []);
      return None, [];
    }
    MarksAscend(s, markers);
    FetchedMarked(s, fetched.candidate, fetched.crc);
    MarkThere(s, markers, 32);
    var at := MarkerAt(markers, 32);
    MarkerThere(s, markers, at.value);
    NotBoth(s, 32);
    CandidateIs(s, markers[at.value]);
    r := Some(Prefetched(at.value, fetched.candidate.(output := [])));
    early := fetched.candidate.output;
  }

  lemma MarkThere(s: seq<bool>, markers: seq<Marker>, p: nat)
    requires Marks(s, markers) && Scan.BlockAt(s, p).Some?
    ensures HasOffset(markers, p)
  {
    assert Marked(s, p);
  }

  // ----- Decoding -----

  /** What the serial decoder makes of the input. */
  ghost function SerialText(data: seq<Byte>): Option<seq<Byte>>
  {
    match ParseStreams(Stream(data), 0, [])
    case Parsed(text, _) => Some(text)
    case Failed(_) => None
  }

  /** The serial decoder accepts the input, and the input is not empty and has no more marked positions than the cap. */
  ghost predicate Decodable(data: seq<Byte>)
  {
    SerialText(data).Some? && data != [] && MarkerCount(data) <= |data| / 16 + 64
  }

  lemma SerialIs(data: seq<Byte>)
    ensures var p := ParseStreams(Stream(data), 0, []); if p.Parsed? then SerialText(data) == Some(p.value) else SerialText(data) == None
  {
    hide ParseStreams, Stream;
  }

  lemma HeaderFirst(data: seq<Byte>)
    requires data != [] && SerialText(data).Some?
    ensures IsStreamHeader(data, 0)
  {
    hide Stream, ParseStreams, ParseBlocks, ParseHeader, SerialText;
    SerialIs(data);
    StreamsStep(Stream(data), 0, []);
    HeaderIs(data, Stream(data), 0);
  }

  /**
   * Scan, speculate and assemble, with a block decoded ahead if there is one. It succeeds exactly when the serial
   * decoder does and the input is not empty and within the marker cap; then it has the serial decoder's bytes and an
   * index that describes them.
   */
  method DecodeIndexed(data: seq<Byte>, threads: nat, fetched: Prefetch, blake3: Digest) returns (r: Option<Assembled>)
    requires !fetched.Rejected? && (threads <= 1 ==> fetched.Nothing?)
    requires fetched.Fetched? ==> CandidateAt(Stream(data), 32, None) == Some(fetched.candidate) && ReadBits(Stream(data), 80, 32) == Parsed(fetched.crc, 112)
    ensures r.Some? <==> Decodable(data)
    ensures r.Some? ==> SerialText(data) == Some(r.value.sink) && Indexed(data, r.value.index, r.value.sink)
    ensures r.Some? ==> r.value.index.sourceHash == blake3(data)
  {
    hide Stream, ParseStreams, SerialText, MarkerCount, Marks, CandidateAt, Early, Indexed, Candidates.Valid, IsStreamHeader, CandidateOf;
    SerialIs(data);
    if !IsStreamHeader(data, 0) {
      if data != [] && SerialText(data).Some? {
        HeaderFirst(data);
      }
      return None;
    }
    HeaderInBounds(data, 0);
    var markers := FindMarkers(data, threads);
    if markers.None? {
      return None;
    }
    MarksAscend(Stream(data), markers.value);
    var prefetched, early := PlacePrefetched(data, markers.value, fetched);
    var values: map<nat, Option<Candidate>> := map[];
    if threads > 1 {
      values := RunCandidates(data, markers.value, prefetched);
    }
    var candidates := new Candidates(data, markers.value, threads <= 1, values, prefetched);
    r := AssembleAll(candidates, early, blake3);
  }

  /**
   * Decompression with any number of threads: the serial decoder's bytes whenever it succeeds. With one thread it
   * succeeds on everything the serial decoder accepts; with more it also needs a non-empty input within the marker cap.
   */
  method DecompressToSink(data: seq<Byte>, resolvedThreads: nat, memoryLimit: nat, blake3: Digest) returns (r: Option<seq<Byte>>)
    requires resolvedThreads >= 1
    ensures r.Some? <==> memoryLimit >= 46620004 && if resolvedThreads == 1 then SerialText(data).Some? else Decodable(data)
    ensures r.Some? ==> r == SerialText(data)
  {
    hide Stream, ParseStreams, SerialText, MarkerCount, CandidateAt, Indexed;
    SerialIs(data);
    if memoryLimit < MAX_DECODED_BLOCK {
      return None;
    }
    if resolvedThreads == 1 {
      var serial := DecodeSerial(data);
      return if serial.Ok? then Some(serial.value) else None;
    }
    var fetched := PrefetchFirst(data);
    if fetched.Rejected? {
      return None;
    }
    var all := DecodeIndexed(data, resolvedThreads, fetched, blake3);
    r := if all.Some? then Some(all.value.sink) else None;
  }

  /** The one input that the serial decoder accepts and several threads refuse for its size: nothing at all. */
  lemma EmptyInput()
    ensures SerialText([]) == Some([]) && !Decodable([])
  {
    hide ParseStreams;
    SerialIs([]);
    ParseNoStreams(Stream([]), []);
  }

  // ----- Building the index -----

  /** An index of a source below 4 GiB has fields that fit their widths. */
  lemma IndexWide(index: Index, data: seq<Byte>, text: seq<Byte>, levels: seq<nat>, parts: seq<seq<Byte>>)
    requires Describes(index, data, text, levels, parts) && |data| < 0x1_0000_0000 && |index.sourceHash| == 32
    ensures Wide(index)
  {
    hide Describes, BlockRow, StreamRow, Stream, Flat;
    var s := Stream(data);
    DescribesMeans(index, data, text, levels, parts);
    WideRows(index, s, levels, parts);
  }

  lemma DescribesMeans(index: Index, data: seq<Byte>, text: seq<Byte>, levels: seq<nat>, parts: seq<seq<Byte>>)
    requires Describes(index, data, text, levels, parts)
    ensures index.sourceLen == |data| && index.decodedLen == |Flat(parts)| && BlocksBefore(index.streams, |index.streams|) == |index.blocks|
    ensures BlockRows(Stream(data), index.blocks, levels, parts) && StreamRows(Stream(data), index.streams, index.blocks, levels, parts)
  {
    hide Stream, Flat, BlockRows, StreamRows;
  }

  /** Blocks take at least a bit each. */
  lemma {:induction false} BlocksFit(s: seq<bool>, blocks: seq<BlockIndex>, levels: seq<nat>, parts: seq<seq<Byte>>, i: nat)
    requires BlockRows(s, blocks, levels, parts) && i < |blocks|
    ensures i <= blocks[i].startBit < |s|
  {
    hide BlockRows;
    RowFacts(s, blocks, levels, parts, i);
    if i > 0 {
      BlocksFit(s, blocks, levels, parts, i - 1);
    }
  }

  /** A block's part of the text is at most the largest decoded block. */
  lemma PartBound(s: seq<bool>, blocks: seq<BlockIndex>, levels: seq<nat>, parts: seq<seq<Byte>>, i: nat)
    requires BlockRows(s, blocks, levels, parts) && i < |blocks|
    ensures |parts| == |blocks| && |parts[i]| <= MAX_DECODED_BLOCK && blocks[i].expectedCrc < 0x1_0000_0000
  {
    hide Flat, DecodesTo;
    assert BlockRow(s, blocks, levels, parts, i);
    hide BlockRows;
    DecodesBound(s, blocks[i], levels[i], parts[i]);
  }

  lemma DecodesBound(s: seq<bool>, b: BlockIndex, level: nat, part: seq<Byte>)
    requires DecodesTo(s, b, level, part)
    ensures |part| <= MAX_DECODED_BLOCK && b.expectedCrc < 0x1_0000_0000
  {
    hide CRC, BlockCodec.ParseBlock, ValueOf;
    OutputBound(s, b.startBit + 48, level, b.expectedCrc);
  }

  lemma OutputBound(s: seq<bool>, at: nat, level: nat, crc: nat)
    requires 1 <= level <= 9 && BlockCodec.ParseBlock(s, at, level, Some(crc), CRC).Parsed?
    ensures |BlockCodec.ParseBlock(s, at, level, Some(crc), CRC).value.output| <= MAX_DECODED_BLOCK && crc < 0x1_0000_0000
  {
    hide CRC, BlockCodec.ParseCoded, SymbolMap.Alphabet, SymbolMap.ParseMap, BlockCodec.Finish, ValueOf;
    var stored := ReadBits(s, at, 32);
    ValueBound(s[at..at + 32]);
    Sums.Pow2Values();
    var origin := ReadBits(s, at + 33, 24);
    var used := SymbolMap.ParseMap(s, at + 57);
    var last := BlockCodec.ParseCoded(s, used.at, SymbolMap.Alphabet(used.value), BlockCodec.Size(level));
    FinishBound(last.value, origin.value, stored.value, BlockCodec.Size(level), CRC);
    LimitBound(level);
  }

  lemma FinishBound(last: seq<Byte>, origin: nat, stored: nat, size: nat, crc: BlockCodec.Checksum)
    requires BlockCodec.Finish(last, origin, stored, size, crc).Ok?
    ensures |BlockCodec.Finish(last, origin, stored, size, crc).value.output| <= Rle1.Limit(size)
  {
    hide CRC, BlockCodec.Finish, Bwt.Walk, Bwt.Links, Rle1.Limit, Rle1.Checked;
    FinishUnfold(last, origin, stored, size, crc);
    CheckedBound(Bwt.Walk(last, Bwt.Links(last), origin, |last|), Rle1.FRESH, [], Rle1.Limit(size));
  }

  lemma LimitBound(level: nat)
    requires 1 <= level <= 9
    ensures Rle1.Limit(BlockCodec.Size(level)) <= MAX_DECODED_BLOCK
  {
  }

  lemma {:induction false} CheckedBound(bytes: seq<Byte>, t: Rle1.Tail, out: seq<Byte>, limit: nat)
    requires t.Valid() && |out| <= limit && Rle1.Checked(bytes, t, out, limit).Ok?
    ensures |Rle1.Checked(bytes, t, out, limit).value| <= limit
    decreases bytes
  {
    hide Rle1.After;
    if bytes != [] {
      CheckedBound(bytes[1..], Rle1.After(t, bytes[0]), out + Rle1.Emit(t, bytes[0]), limit);
    }
  }

  lemma {:induction false} FlatBound(s: seq<bool>, blocks: seq<BlockIndex>, levels: seq<nat>, parts: seq<seq<Byte>>, i: nat)
    requires BlockRows(s, blocks, levels, parts) && i <= |blocks|
    ensures |parts| == |blocks| && |Flat(parts[..i])| <= i * MAX_DECODED_BLOCK
  {
    hide BlockRows, Flat;
    SameSize(s, blocks, levels, parts);
    if i == 0 {
      FlatNothing();
      assert parts[..0] == [];
    } else {
      FlatBound(s, blocks, levels, parts, i - 1);
      FlatPrefix(parts, i - 1);
      PartBound(s, blocks, levels, parts, i - 1);
      assert i * MAX_DECODED_BLOCK == (i - 1) * MAX_DECODED_BLOCK + MAX_DECODED_BLOCK;
    }
  }

  lemma SameSize(s: seq<bool>, blocks: seq<BlockIndex>, levels: seq<nat>, parts: seq<seq<Byte>>)
    requires BlockRows(s, blocks, levels, parts)
    ensures |blocks| == |levels| == |parts|
  {
  }

  /** Streams take at least a bit each, in order. */
  lemma {:induction false} StreamsFit(s: seq<bool>, streams: seq<StreamIndex>, blocks: seq<BlockIndex>, levels: seq<nat>, parts: seq<seq<Byte>>, k: nat)
    requires StreamRows(s, streams, blocks, levels, parts) && k < |streams|
    ensures k <= streams[k].eosBit < |s|
  {
    hide Flat, Placed;
    assert StreamRow(s, streams, blocks, levels, parts, k);
    PlacedWithin(s, streams[k]);
    if k > 0 {
      StreamsFit(s, streams, blocks, levels, parts, k - 1);
    }
  }

  /** Positions, counts and lengths are all below `bound`. */
  predicate Below(bound: nat, t: StreamIndex)
  {
    t.headerByte < bound && t.level <= 9 && t.firstBlock < bound && t.blockCount < bound && t.decodedStart < bound && t.decodedLen < bound
    && t.eosBit < bound && t.expectedStreamCrc < 0x1_0000_0000
  }

  lemma StreamBelow(s: seq<bool>, streams: seq<StreamIndex>, blocks: seq<BlockIndex>, levels: seq<nat>, parts: seq<seq<Byte>>, k: nat, bound: nat)
    requires StreamRows(s, streams, blocks, levels, parts) && k < |streams| && |s| < bound && |blocks| < bound && |Flat(parts)| < bound
    ensures Below(bound, streams[k])
  {
    hide Flat, Placed;
    assert StreamRow(s, streams, blocks, levels, parts, k);
    hide StreamRows;
    var t := streams[k];
    PlacedWithin(s, t);
    FlatGrows(parts, t.firstBlock + t.blockCount, |parts|);
    assert parts[..|parts|] == parts;
  }

  lemma BlockBelow(s: seq<bool>, blocks: seq<BlockIndex>, levels: seq<nat>, parts: seq<seq<Byte>>, i: nat, bound: nat)
    requires BlockRows(s, blocks, levels, parts) && i < |blocks| && |s| < bound && |Flat(parts)| < bound
    ensures var b := blocks[i]; b.startBit < bound && b.endBit < bound && b.decodedStart < bound && b.decodedLen < bound && b.expectedCrc < 0x1_0000_0000
  {
    hide *;
    RowFacts(s, blocks, levels, parts, i);
    PartBound(s, blocks, levels, parts, i);
    FlatGrows(parts, i + 1, |parts|);
    assert parts[..|parts|] == parts;
  }

  lemma WideRows(index: Index, s: seq<bool>, levels: seq<nat>, parts: seq<seq<Byte>>)
    requires BlockRows(s, index.blocks, levels, parts) && StreamRows(s, index.streams, index.blocks, levels, parts)
    requires BlocksBefore(index.streams, |index.streams|) == |index.blocks| && |index.sourceHash| == 32
    requires |s| == 8 * index.sourceLen < 0x8_0000_0000 && index.decodedLen == |Flat(parts)|
    ensures Wide(index)
  {
    hide Flat, BlockRow, StreamRow, BlockRows, StreamRows;
    var bound := 0x1_0000_0000_0000_0000;
    var n, m := |index.blocks|, |index.streams|;
    if n > 0 {
      BlocksFit(s, index.blocks, levels, parts, n - 1);
    }
    if m > 0 {
      StreamsFit(s, index.streams, index.blocks, levels, parts, m - 1);
    }
    SameSize(s, index.blocks, levels, parts);
    FlatBound(s, index.blocks, levels, parts, n);
    assert parts[..n] == parts;
    TextBound(n);
    StreamsInOrder(s, index.streams, index.blocks, levels, parts, m);
    forall k | 0 <= k < m ensures StreamWide(index.streams[k]) {
      StreamBelow(s, index.streams, index.blocks, levels, parts, k, bound);
    }
    forall i | 0 <= i < n ensures BlockWide(index.blocks[i]) {
      BlockBelow(s, index.blocks, levels, parts, i, bound);
    }
  }

  lemma TextBound(n: nat)
    requires n <= 0x8_0000_0000
    ensures n * MAX_DECODED_BLOCK < 0x1_0000_0000_0000_0000
  {
    assert n * MAX_DECODED_BLOCK <= 0x8_0000_0000 * MAX_DECODED_BLOCK;
  }

  /** Decode an input and keep the index that describes it: consistent, so it can be saved and loaded again unchanged. */
  method BuildIndex(data: seq<Byte>, threads: nat, memoryLimit: nat, blake3: Digest) returns (r: Option<Index>)
    ensures r.Some? <==> memoryLimit >= 46620004 && Decodable(data)
    ensures r.Some? ==> Indexed(data, r.value, SerialText(data).value) && Consistent(r.value) && r.value.sourceLen == |data| && r.value.sourceHash == blake3(data)
    ensures r.Some? && |data| < 0x1_0000_0000 ==> Wide(r.value)
  {
    hide SerialText, Decodable, Indexed, Consistent, Wide;
    if memoryLimit < MAX_DECODED_BLOCK {
      return None;
    }
    var all := DecodeIndexed(data, threads, Nothing, blake3);
    if all.None? {
      return None;
    }
    IndexedGood(all.value.index, data, all.value.sink);
    r := Some(all.value.index);
  }

  lemma IndexedGood(index: Index, data: seq<Byte>, text: seq<Byte>)
    requires Indexed(data, index, text) && |index.sourceHash| == 32
    ensures Consistent(index) && index.sourceLen == |data| && (|data| < 0x1_0000_0000 ==> Wide(index))
  {
    hide Stream, Describes, Consistent, Wide;
    var levels: seq<nat>, parts: seq<seq<Byte>> :| Describes(index, data, text, levels, parts);
    DescribesConsistent(index, data, text, levels, parts);
    DescribesMeans(index, data, text, levels, parts);
    if |data| < 0x1_0000_0000 {
      IndexWide(index, data, text, levels, parts);
    }
  }

  /** The index that decoding builds survives its file form. */
  method BuildSaveLoad(data: seq<Byte>, threads: nat, memoryLimit: nat, blake3: Digest) returns (r: Option<Index>)
    requires |data| < 0x1_0000_0000
    ensures r.Some? <==> memoryLimit >= 46620004 && Decodable(data)
    ensures r.Some? ==> Indexed(data, r.value, SerialText(data).value)
  {
    hide Indexed, SerialText, Decodable, Consistent, Wide;
    var index := BuildIndex(data, threads, memoryLimit, blake3);
    if index.None? {
      return None;
    }
    r := SaveAndLoad(index.value, data, blake3);
  }
}
