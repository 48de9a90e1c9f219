/** The marker-based bzip2 decoder: speculative blocks assembled into streams and an index, and its agreement with the serial decoder. */
module Assemble {
  import opened Bytes
  import opened BitStream
  import opened BitReading
  import opened Options
  import opened OrderedDelivery
  import opened Scan
  import opened SeekIndex
  import opened BlockLevels
  import opened Bzip2Stream
  import BlockCodec
  import Bwt
  import Crc
  import Rle1
  import Sums
  import SymbolMap

  // ----- Markers -----

  datatype Marker = Block(block: BlockCandidate) | End(end: EndCandidate)

  function Offset(m: Marker): nat
  {
    match m
    case Block(b) => b.bitOffset
    case End(e) => e.bitOffset
  }

  /** The marker is really there. */
  predicate Truthful(s: seq<bool>, m: Marker)
  {
    match m
    case Block(b) => Scan.BlockAt(s, b.bitOffset) == Some(b)
    case End(e) => Scan.EndAt(s, e.bitOffset) == Some(e)
  }

  ghost predicate Ascending(ms: seq<Marker>)
  {
    forall i, j :: 0 <= i < j < |ms| ==> Offset(ms[i]) < Offset(ms[j])
  }

  predicate Marked(s: seq<bool>, p: nat)
  {
    Scan.BlockAt(s, p).Some? || Scan.EndAt(s, p).Some?
  }

  ghost predicate AllTruthful(s: seq<bool>, ms: seq<Marker>)
  {
    forall i :: 0 <= i < |ms| ==> Truthful(s, ms[i])
  }

  /** In order, every marker is there, and every marked position has one. */
  ghost predicate Marks(s: seq<bool>, ms: seq<Marker>)
  {
    Ascending(ms) && AllTruthful(s, ms) && forall p: nat :: Marked(s, p) ==> HasOffset(ms, p)
  }

  ghost predicate HasOffset(ms: seq<Marker>, p: nat)
  {
    exists i :: 0 <= i < |ms| && Offset(ms[i]) == p
  }

  lemma {:induction false} BlocksFound(s: seq<bool>, start: nat, stop: nat)
    ensures forall b :: b in BlocksIn(s, start, stop) ==> Scan.BlockAt(s, b.bitOffset) == Some(b)
    ensures forall p: nat :: start <= p < stop && Scan.BlockAt(s, p).Some? ==> Scan.BlockAt(s, p).value in BlocksIn(s, start, stop)
    decreases stop
  {
    hide ReadBits, ReadBit;
    if stop > start {
      BlocksFound(s, start, stop - 1);
    }
  }

  lemma {:induction false} EndsFound(s: seq<bool>, start: nat, stop: nat)
    ensures forall e :: e in EndsIn(s, start, stop) ==> Scan.EndAt(s, e.bitOffset) == Some(e)
    ensures forall p: nat :: start <= p < stop && Scan.EndAt(s, p).Some? ==> Scan.EndAt(s, p).value in EndsIn(s, start, stop)
    decreases stop
  {
    hide ReadBits, ReadBit;
    if stop > start {
      EndsFound(s, start, stop - 1);
    }
  }

  ghost predicate InOrder(ms: seq<Marker>)
  {
    forall i, j :: 0 <= i < j < |ms| ==> Offset(ms[i]) <= Offset(ms[j])
  }

  /** Insert into a sorted list of markers. */
  method InsertSorted(ms: seq<Marker>, m: Marker) returns (r: seq<Marker>)
    requires InOrder(ms)
    ensures InOrder(r) && |r| == |ms| + 1 && forall x :: x in r <==> x in ms || x == m
  {
    hide Offset, InOrder;
    var k: nat := |ms|;
    while k > 0 && Offset(ms[k - 1]) > Offset(m)
      invariant k <= |ms| && forall i :: k <= i < |ms| ==> Offset(ms[i]) > Offset(m)
    {
      k := k - 1;
    }
    r := ms[..k] + [m] + ms[k..];
    Inserted(ms, m, k);
    InsertedMembers(ms, m, k);
  }

  lemma InsertedMembers(ms: seq<Marker>, m: Marker, k: nat)
    requires k <= |ms|
    ensures forall x :: x in ms[..k] + [m] + ms[k..] <==> x in ms || x == m
  {
    assert ms == ms[..k] + ms[k..];
  }

  lemma Inserted(ms: seq<Marker>, m: Marker, k: nat)
    requires InOrder(ms) && k <= |ms| && (k > 0 ==> Offset(ms[k - 1]) <= Offset(m)) && forall i :: k <= i < |ms| ==> Offset(ms[i]) > Offset(m)
    ensures InOrder(ms[..k] + [m] + ms[k..])
  {
    hide Offset;
    var r := ms[..k] + [m] + ms[k..];
    assert forall i :: 0 <= i < |r| ==> r[i] == if i < k then ms[i] else if i == k then m else ms[i - 1];
  }

  /** Blocks and ends together in order of position, one marker for a position. */
  method CollectMarkers(scan: ScanResult) returns (markers: seq<Marker>)
    ensures Ascending(markers) && |markers| <= |scan.blocks| + |scan.ends|
    ensures forall m :: m in markers ==> (m.Block? && m.block in scan.blocks) || (m.End? && m.end in scan.ends)
    ensures forall b :: b in scan.blocks ==> HasOffset(markers, b.bitOffset)
    ensures forall e :: e in scan.ends ==> HasOffset(markers, e.bitOffset)
  {
    var sorted: seq<Marker> := [];
    for i := 0 to |scan.blocks|
      invariant |sorted| == i && InOrder(sorted)
      invariant forall m :: m in sorted <==> m.Block? && m.block in scan.blocks[..i]
    {
      sorted := InsertSorted(sorted, Block(scan.blocks[i]));
      assert scan.blocks[..i + 1] == scan.blocks[..i] + [scan.blocks[i]];
    }
    assert scan.blocks[..|scan.blocks|] == scan.blocks;
    for i := 0 to |scan.ends|
      invariant |sorted| == |scan.blocks| + i && InOrder(sorted)
      invariant forall m :: m in sorted <==> (m.Block? && m.block in scan.blocks) || (m.End? && m.end in scan.ends[..i])
    {
      sorted := InsertSorted(sorted, End(scan.ends[i]));
      assert scan.ends[..i + 1] == scan.ends[..i] + [scan.ends[i]];
    }
    assert scan.ends[..|scan.ends|] == scan.ends;
    markers := Dedup(sorted);
    forall b | b in scan.blocks ensures HasOffset(markers, b.bitOffset) {
      assert Block(b) in sorted;
    }
    forall e | e in scan.ends ensures HasOffset(markers, e.bitOffset) {
      assert End(e) in sorted;
    }
  }

  method Dedup(sorted: seq<Marker>) returns (r: seq<Marker>)
    requires InOrder(sorted)
    ensures Ascending(r) && |r| <= |sorted| && forall m :: m in r ==> m in sorted
    ensures forall m :: m in sorted ==> HasOffset(r, Offset(m))
  {
    r := [];
    for i := 0 to |sorted|
      invariant Ascending(r) && |r| <= i && (forall m :: m in r ==> m in sorted)
      invariant i > 0 ==> r != [] && Offset(r[|r| - 1]) == Offset(sorted[i - 1])
      invariant forall k :: 0 <= k < i ==> HasOffset(r, Offset(sorted[k]))
    {
      ghost var was := r;
      if i == 0 || Offset(sorted[i]) != Offset(sorted[i - 1]) {
        r := r + [sorted[i]];
        Extended(was, sorted[i]);
        assert r[|r| - 1] == sorted[i];
      } else {
        assert Offset(r[|r| - 1]) == Offset(sorted[i]);
      }
    }
  }

  lemma Extended(ms: seq<Marker>, m: Marker)
    ensures forall p: nat :: HasOffset(ms, p) ==> HasOffset(ms + [m], p)
  {
    forall p: nat | HasOffset(ms, p) ensures HasOffset(ms + [m], p) {
      var i :| 0 <= i < |ms| && Offset(ms[i]) == p;
      assert (ms + [m])[i] == ms[i];
    }
  }

  /** The markers of a scanned input are exactly its marked positions. */
  lemma ScannedMarks(s: seq<bool>, n: nat, markers: seq<Marker>)
    requires |s| == n && Ascending(markers)
    requires forall m :: m in markers ==> (m.Block? && m.block in BlocksIn(s, 0, n)) || (m.End? && m.end in EndsIn(s, 0, n))
    requires forall b :: b in BlocksIn(s, 0, n) ==> HasOffset(markers, b.bitOffset)
    requires forall e :: e in EndsIn(s, 0, n) ==> HasOffset(markers, e.bitOffset)
    ensures Marks(s, markers)
  {
    BlocksFound(s, 0, n);
    EndsFound(s, 0, n);
    forall p: nat | Marked(s, p) ensures HasOffset(markers, p) {
      MarkedWithin(s, p);
      if Scan.BlockAt(s, p).Some? {
        assert Scan.BlockAt(s, p).value in BlocksIn(s, 0, n);
      } else {
        assert Scan.EndAt(s, p).value in EndsIn(s, 0, n);
      }
    }
    hide Scan.BlockAt, Scan.EndAt, BlocksIn, EndsIn;
    forall i | 0 <= i < |markers| ensures Truthful(s, markers[i]) {
      assert markers[i] in markers;
    }
  }

  lemma MarkedWithin(s: seq<bool>, p: nat)
    requires Marked(s, p)
    ensures p < |s|
    ensures Scan.BlockAt(s, p).Some? ==> Scan.BlockAt(s, p).value.bitOffset == p
    ensures Scan.EndAt(s, p).Some? ==> Scan.EndAt(s, p).value.bitOffset == p
  {
    hide ValueOf;
  }

  /** Binary search for a position. */
  method MarkerAt(markers: seq<Marker>, p: nat) returns (r: Option<nat>)
    requires Ascending(markers)
    ensures r.Some? ==> r.value < |markers| && Offset(markers[r.value]) == p
    ensures r.None? ==> !HasOffset(markers, p)
  {
    var low, high := 0, |markers|;
    while low < high
      invariant low <= high <= |markers|
      invariant forall i :: 0 <= i < low ==> Offset(markers[i]) < p
      invariant forall i :: high <= i < |markers| ==> Offset(markers[i]) > p
    {
      var mid := (low + high) / 2;
      if Offset(markers[mid]) == p {
        return Some(mid);
      } else if Offset(markers[mid]) < p {
        low := mid + 1;
      } else {
        high := mid;
      }
    }
    r := None;
  }

  // ----- Candidates -----

  /** A block decoded without knowing its stream. */
  datatype Candidate = Candidate(output: seq<Byte>, decodedLen: nat, endBit: nat, blockLen: nat)

  ghost function CandidateAt(s: seq<bool>, start: nat, expected: Option<nat>): Option<Candidate>
  {
    var magic := ReadBits(s, start, 48);
    if magic.Failed? || magic.value != BlockCodec.BLOCK_MAGIC then None else
      var d := BlockCodec.ParseBlock(s, start + 48, 9, expected, CRC);
      if d.Failed? then None else Some(Candidate(d.value.output, |d.value.output|, d.at, d.value.blockLen))
  }

  method DecodeCandidate(data: seq<Byte>, start: nat, expected: Option<nat>) returns (r: Option<Candidate>, storedCrc: nat)
    ensures r == CandidateAt(Stream(data), start, expected)
    ensures r.Some? ==> ReadBits(Stream(data), start + 48, 32) == Parsed(storedCrc, start + 80)
  {
    hide CRC, Stream, BlockCodec.ParseBlock, ValueOf;
    storedCrc := 0;
    if start > 8 * |data| {
      return None, 0;
    }
    var bits := new Bits(data, start);
    var magic := bits.Magic();
    if magic.Err? || magic.value != BlockCodec.BLOCK_MAGIC {
      return None, 0;
    }
    var d := BlockCodec.DecodeBlock(bits, 9, expected, CRC);
    if d.Err? {
      return None, 0;
    }
    StoredIs(Stream(data), start + 48, 9, expected);
    storedCrc := d.value.crc;
    r := Some(Candidate(d.value.output, |d.value.output|, bits.bit, d.value.blockLen));
  }

  lemma StoredIs(s: seq<bool>, at: nat, level: nat, expected: Option<nat>)
    requires BlockCodec.ParseBlock(s, at, level, expected, CRC).Parsed?
    ensures ReadBits(s, at, 32) == Parsed(BlockCodec.ParseBlock(s, at, level, expected, CRC).value.crc, at + 32)
  {
    hide CRC, BlockCodec.ParseCoded, SymbolMap.Alphabet, SymbolMap.ParseMap, BlockCodec.Finish, ValueOf;
    var origin := ReadBits(s, at + 33, 24);
    var used := SymbolMap.ParseMap(s, at + 57);
    var last := BlockCodec.ParseCoded(s, used.at, SymbolMap.Alphabet(used.value), BlockCodec.Size(level));
    FinishStored(last.value, origin.value, ReadBits(s, at, 32).value, BlockCodec.Size(level));
  }

  lemma FinishStored(last: seq<Byte>, origin: nat, stored: nat, size: nat)
    requires BlockCodec.Finish(last, origin, stored, size, CRC).Ok?
    ensures BlockCodec.Finish(last, origin, stored, size, CRC).value.crc == stored
  {
    hide Bwt.Walk, Rle1.Limit, Rle1.Checked;
  }

  // ----- One marker at a time -----

  /** Where nothing is marked the serial decoder fails too. */
  lemma Unmarked(s: seq<bool>, p: nat, level: nat, combined: nat, text: seq<Byte>)
    requires p <= |s| && !Marked(s, p)
    ensures ParseBlocks(s, p, level, combined, text).Failed?
  {
    hide CRC, BlockCodec.ParseCoded, SymbolMap.Alphabet, BlockCodec.Finish, SymbolMap.ParseMap, ValueOf, Crc.Combine;
    MagicsDiffer();
  }

  lemma MagicsDiffer()
    ensures BlockCodec.BLOCK_MAGIC != Bzip2Stream.END_MAGIC
  {
  }

  lemma EndMarker(s: seq<bool>, p: nat, level: nat, combined: nat, text: seq<Byte>, e: EndCandidate)
    requires p <= |s| && Scan.EndAt(s, p) == Some(e)
    ensures p + 80 <= |s| && e.bitOffset == p
    ensures ParseBlocks(s, p, level, combined, text) == if e.expectedStreamCrc != combined then Failed(CrcMismatch) else Parsed(text, p + 80)
  {
    hide CRC, BlockCodec.ParseBlock, ValueOf, Crc.Combine;
    MagicsDiffer();
  }

  /** The speculative decode of a marked block, checked against the level, is what the serial decoder does there. */
  lemma BlockMarker(s: seq<bool>, p: nat, level: nat, combined: nat, text: seq<Byte>, b: BlockCandidate, c: Option<Candidate>)
    requires p <= |s| && Scan.BlockAt(s, p) == Some(b) && c == CandidateAt(s, p, Some(b.expectedCrc)) && 1 <= level <= 9
    ensures c.None? || c.value.blockLen > BlockCodec.Size(level) ==> ParseBlocks(s, p, level, combined, text).Failed?
    ensures c.Some? && c.value.blockLen <= BlockCodec.Size(level) ==>
      p < c.value.endBit <= |s| && c.value.decodedLen == |c.value.output| > 0 &&
      ParseBlocks(s, p, level, combined, text) == ParseBlocks(s, c.value.endBit, level, Crc.Combine(combined, b.expectedCrc), text + c.value.output) &&
      (forall start, len, stream :: DecodesTo(s, BlockIndex(p, c.value.endBit, start, len, b.expectedCrc, stream), level, c.value.output))
  {
    hide CRC, BlockCodec.ParseBlock, ValueOf, Crc.Combine;
    var none: Option<nat> := None;
    ExpectedStored(s, p + 48, 9, CRC, b.expectedCrc);
    ExpectedStored(s, p + 48, level, CRC, b.expectedCrc);
    LevelFree(s, p + 48, level, none, CRC);
    if c.Some? {
      NotEmpty(s, p + 48, 9, Some(b.expectedCrc));
    }
  }

  /** A block decodes to at least one byte. */
  lemma NotEmpty(s: seq<bool>, at: nat, level: nat, expected: Option<nat>)
    requires BlockCodec.ParseBlock(s, at, level, expected, CRC).Parsed?
    ensures |BlockCodec.ParseBlock(s, at, level, expected, CRC).value.output| > 0
  {
    hide CRC, BlockCodec.ParseCoded, SymbolMap.Alphabet, SymbolMap.ParseMap, BlockCodec.Finish;
    var stored := ReadBits(s, at, 32);
    var origin := ReadBits(s, at + 33, 24);
    var used := SymbolMap.ParseMap(s, at + 57);
    var last := BlockCodec.ParseCoded(s, used.at, SymbolMap.Alphabet(used.value), BlockCodec.Size(level));
    FinishNotEmpty(last.value, origin.value, stored.value, BlockCodec.Size(level));
  }

  lemma FinishNotEmpty(last: seq<Byte>, origin: nat, stored: nat, size: nat)
    requires BlockCodec.Finish(last, origin, stored, size, CRC).Ok?
    ensures |BlockCodec.Finish(last, origin, stored, size, CRC).value.output| > 0
  {
    hide CRC, BlockCodec.Finish, Bwt.Walk, Rle1.Limit, Rle1.Checked;
    FinishUnfold(last, origin, stored, size, CRC);
    CheckedFirst(Bwt.Walk(last, Bwt.Links(last), origin, |last|), Rle1.Limit(size));
  }

  lemma FinishUnfold(last: seq<Byte>, origin: nat, stored: nat, size: nat, crc: BlockCodec.Checksum)
    requires BlockCodec.Finish(last, origin, stored, size, crc).Ok?
    ensures last != [] && origin < |last|
    ensures var out := Rle1.Checked(Bwt.Walk(last, Bwt.Links(last), origin, |last|), Rle1.FRESH, [], Rle1.Limit(size));
      out.Ok? && BlockCodec.Finish(last, origin, stored, size, crc).value.output == out.value
  {
    hide Bwt.Walk, Rle1.Limit, Rle1.Checked, Bwt.Links;
  }

  lemma CheckedFirst(bytes: seq<Byte>, limit: nat)
    requires bytes != [] && Rle1.Checked(bytes, Rle1.FRESH, [], limit).Ok?
    ensures |Rle1.Checked(bytes, Rle1.FRESH, [], limit).value| > 0
  {
    var t := Rle1.After(Rle1.FRESH, bytes[0]);
    var out := Rle1.Emit(Rle1.FRESH, bytes[0]);
    assert [] + out == out;
    hide Rle1.Checked;
    CheckedUnfold(bytes, limit);
    CheckedGrows(bytes[1..], t, out, limit);
  }

  lemma CheckedUnfold(bytes: seq<Byte>, limit: nat)
    requires bytes != [] && Rle1.Checked(bytes, Rle1.FRESH, [], limit).Ok?
    ensures Rle1.Checked(bytes, Rle1.FRESH, [], limit) == Rle1.Checked(bytes[1..], Rle1.After(Rle1.FRESH, bytes[0]), [] + Rle1.Emit(Rle1.FRESH, bytes[0]), limit)
    ensures |Rle1.Emit(Rle1.FRESH, bytes[0])| == 1
  {
  }

  lemma {:induction false} CheckedGrows(bytes: seq<Byte>, t: Rle1.Tail, out: seq<Byte>, limit: nat)
    requires t.Valid() && Rle1.Checked(bytes, t, out, limit).Ok?
    ensures |Rle1.Checked(bytes, t, out, limit).value| >= |out|
    decreases bytes
  {
    hide Rle1.Emit, Rle1.After;
    if bytes != [] {
      CheckedGrows(bytes[1..], Rle1.After(t, bytes[0]), out + Rle1.Emit(t, bytes[0]), limit);
    }
  }

  // ----- The records built so far -----

  datatype Built = Built(sink: seq<Byte>, streams: seq<StreamIndex>, blocks: seq<BlockIndex>, decodedOffset: nat)

  datatype Trace = Trace(text: seq<Byte>, levels: seq<nat>, parts: seq<seq<Byte>>)

  /** The records describe the text decoded so far; the last ones belong to a stream of this level that is still open. */
  ghost predicate Open(s: seq<bool>, b: Built, t: Trace, level: nat, at: nat)
  {
    && Flat(t.parts) == t.text && b.decodedOffset == |t.text|
    && BlockRows(s, b.blocks, t.levels, t.parts) && StreamRows(s, b.streams, b.blocks, t.levels, t.parts)
    && BlocksBefore(b.streams, |b.streams|) <= |b.blocks| && (b.blocks != [] ==> b.blocks[|b.blocks| - 1].endBit <= at)
    && forall j :: BlocksBefore(b.streams, |b.streams|) <= j < |b.blocks| ==> b.blocks[j].stream == |b.streams| && t.levels[j] == level
  }

  /** The last stream's end marker is over before this position. */
  predicate EndsBefore(streams: seq<StreamIndex>, at: nat)
  {
    streams != [] ==> streams[|streams| - 1].eosBit + 80 <= at
  }

  ghost predicate Closed(s: seq<bool>, b: Built, t: Trace, at: nat)
  {
    Open(s, b, t, 0, at) && BlocksBefore(b.streams, |b.streams|) == |b.blocks| && EndsBefore(b.streams, at)
  }

  function WithBlock(b: Built, sink: seq<Byte>, row: BlockIndex): Built
  {
    Built(sink, b.streams, b.blocks + [row], b.decodedOffset + row.decodedLen)
  }

  function WithPart(t: Trace, level: nat, part: seq<Byte>): Trace
  {
    Trace(t.text + part, t.levels + [level], t.parts + [part])
  }

  lemma OpenPush(s: seq<bool>, b: Built, t: Trace, level: nat, at: nat, sink: seq<Byte>, row: BlockIndex, part: seq<Byte>)
    requires Open(s, b, t, level, at) && DecodesTo(s, row, level, part) && at <= row.startBit < row.endBit <= |s|
    requires row.decodedStart == b.decodedOffset && row.decodedLen == |part| > 0 && row.stream == |b.streams|
    ensures Open(s, WithBlock(b, sink, row), WithPart(t, level, part), level, row.endBit)
  {
    hide DecodesTo, Flat, BlockRow, StreamRow;
    FlatPush(t.parts, part);
    var blocks, levels, parts := b.blocks + [row], t.levels + [level], t.parts + [part];
    forall i | 0 <= i < |blocks| ensures BlockRow(s, blocks, levels, parts, i) {
      RowKept(s, b.blocks, t.levels, t.parts, row, level, part, i);
    }
    forall k | 0 <= k < |b.streams| ensures StreamRow(s, b.streams, blocks, levels, parts, k) {
      StreamKept(s, b.streams, b.blocks, t.levels, t.parts, row, level, part, k);
    }
  }

  lemma RowKept(s: seq<bool>, blocks: seq<BlockIndex>, levels: seq<nat>, parts: seq<seq<Byte>>, row: BlockIndex, level: nat, part: seq<Byte>, i: nat)
    requires BlockRows(s, blocks, levels, parts) && i <= |blocks|
    requires DecodesTo(s, row, level, part) && row.startBit < row.endBit <= |s| && row.decodedStart == |Flat(parts)| && row.decodedLen == |part| > 0
    requires blocks != [] ==> blocks[|blocks| - 1].endBit <= row.startBit
    ensures BlockRow(s, blocks + [row], levels + [level], parts + [part], i)
  {
    hide DecodesTo, Flat;
    if i < |blocks| {
      assert BlockRow(s, blocks, levels, parts, i);
      assert (parts + [part])[..i] == parts[..i];
    } else {
      assert (parts + [part])[..i] == parts;
      if i > 0 {
        assert BlockRow(s, blocks, levels, parts, i - 1);
      }
    }
  }

  lemma StreamKept(s: seq<bool>, streams: seq<StreamIndex>, blocks: seq<BlockIndex>, levels: seq<nat>, parts: seq<seq<Byte>>, row: BlockIndex, level: nat, part: seq<Byte>, k: nat)
    requires StreamRows(s, streams, blocks, levels, parts) && k < |streams|
    ensures StreamRow(s, streams, blocks + [row], levels + [level], parts + [part], k)
  {
    hide Flat, Placed;
    assert StreamRow(s, streams, blocks, levels, parts, k);
    var t := streams[k];
    assert (parts + [part])[..t.firstBlock] == parts[..t.firstBlock];
    assert (parts + [part])[..t.firstBlock + t.blockCount] == parts[..t.firstBlock + t.blockCount];
  }

  function WithStream(b: Built, row: StreamIndex): Built
  {
    b.(streams := b.streams + [row])
  }

  lemma OpenClose(s: seq<bool>, b: Built, t: Trace, level: nat, at: nat, row: StreamIndex, more: nat)
    requires Open(s, b, t, level, at) && at <= more && EndsBefore(b.streams, 8 * row.headerByte) && row.eosBit + 80 <= more && 1 <= level <= 9 && row.level == level && Placed(s, row)
    requires row.firstBlock == BlocksBefore(b.streams, |b.streams|) && row.firstBlock + row.blockCount == |b.blocks|
    requires |t.parts| == |b.blocks| && row.decodedStart == |Flat(t.parts[..row.firstBlock])| && row.decodedStart + row.decodedLen == b.decodedOffset
    ensures Closed(s, WithStream(b, row), t, more)
  {
    hide DecodesTo, Flat, BlockRow, Placed;
    var streams := b.streams + [row];
    assert t.parts[..|b.blocks|] == t.parts;
    forall k | 0 <= k < |streams| ensures StreamRow(s, streams, b.blocks, t.levels, t.parts, k) {
      if k < |b.streams| {
        assert StreamRow(s, b.streams, b.blocks, t.levels, t.parts, k);
      }
    }
  }

  // ----- Taking candidates -----

  /** The decode of a marker. */
  ghost function CandidateOf(s: seq<bool>, m: Marker): Option<Candidate>
  {
    match m
    case Block(b) => CandidateAt(s, b.bitOffset, Some(b.expectedCrc))
    case End(_) => None
  }

  /** The first block, decoded before the scan; its output is already with the sink. */
  datatype Prefetched = Prefetched(index: nat, candidate: Candidate)

  class Candidates {
    const data: seq<Byte>
    const markers: seq<Marker>
    /** With a single thread, candidates are decoded when they are taken. */
    const serial: bool
    const results: OrderedResults<Option<Candidate>>
    var prefetched: Option<Prefetched>
    /** The bit position before which candidates may be gone. */
    ghost var bound: nat

    /** Every marked block from the bound on is available. */
    ghost predicate Valid()
      reads this, results
    {
      && results.Valid() && Ascending(markers)
      && (serial ==> prefetched.None?)
      && (!serial ==> forall j: nat :: j < |markers| && Offset(markers[j]) >= bound && !Awaited(j) ==> Holds(j))
    }

    ghost predicate Awaited(j: nat)
      reads this
    {
      prefetched.Some? && prefetched.value.index == j
    }

    ghost predicate Holds(j: nat)
      reads this, results
      requires j < |markers|
    {
      markers[j].Block? ==> j in results.Values() && results.Values()[j] == CandidateOf(Stream(data), markers[j])
    }

    constructor (data: seq<Byte>, markers: seq<Marker>, serial: bool, values: map<nat, Option<Candidate>>, prefetched: Option<Prefetched>)
      requires Ascending(markers) && (serial ==> prefetched.None?)
      requires !serial ==> forall j: nat :: j < |markers| && markers[j].Block? && (prefetched.None? || prefetched.value.index != j) ==>
            j in values && values[j] == CandidateOf(Stream(data), markers[j])
      ensures Valid() && bound == 0 && this.data == data && this.markers == markers && this.prefetched == prefetched && fresh(results)
    {
      this.data, this.markers, this.serial, this.prefetched := data, markers, serial, prefetched;
      results := new OrderedResults(values);
      bound := 0;
    }

    method Take(i: nat) returns (r: Option<Candidate>)
      requires Valid() && i < |markers| && markers[i].Block? && Offset(markers[i]) >= bound
      modifies this, results
      ensures Valid() && bound == Offset(markers[i]) + 1
      ensures if old(Awaited(i)) then r == Some(old(prefetched).value.candidate) && prefetched == None
              else r == CandidateOf(Stream(data), markers[i]) && prefetched == old(prefetched)
    {
      hide OrderedResults.Values, CandidateAt, Stream, Offset;
      ghost var was := Offset(markers[i]);
      if prefetched.Some? && prefetched.value.index == i {
        r := Some(prefetched.value.candidate);
        prefetched := None;
        bound := was + 1;
        return;
      }
      assert !serial ==> Holds(i);
      bound := was + 1;
      if serial {
        var found, _ := DecodeCandidate(data, markers[i].block.bitOffset, Some(markers[i].block.expectedCrc));
        return found;
      }
      var taken := results.Take(i);
      r := taken.value;
    }

    method DiscardBefore(key: nat)
      requires Valid() && key < |markers| && bound <= Offset(markers[key])
      modifies this, results
      ensures Valid() && bound == Offset(markers[key])
      ensures prefetched == if old(prefetched).Some? && old(prefetched).value.index < key then None else old(prefetched)
    {
      hide OrderedResults.Values, CandidateOf, Stream, Offset;
      bound := Offset(markers[key]);
      if prefetched.Some? && prefetched.value.index < key {
        prefetched := None;
      }
      if !serial {
        results.DiscardBefore(key);
      }
    }
  }

  // ----- Assembling -----

  /** The sink has the text so far, or the early output of a first block not yet taken. */
  ghost predicate SinkHas(sink: seq<Byte>, text: seq<Byte>, prefetched: Option<Prefetched>, early: seq<Byte>)
  {
    if prefetched.Some? then text == [] && sink == early else sink == text
  }

  /** A prefetched candidate is the decode of the marker at bit 32, with its output taken out. */
  ghost predicate Early(s: seq<bool>, markers: seq<Marker>, prefetched: Option<Prefetched>, early: seq<Byte>)
  {
    prefetched.Some? ==>
      var p := prefetched.value;
      p.index < |markers| && markers[p.index].Block? && Offset(markers[p.index]) == 32 &&
      var c := CandidateOf(s, markers[p.index]);
      c.Some? && p.candidate == c.value.(output := []) && early == c.value.output
  }

  function StreamHeader(currentBit: nat, firstBlock: nat, blocks: seq<BlockIndex>, nextHeader: nat): nat
  {
    if firstBlock < |blocks| then (if blocks[firstBlock].startBit >= 32 then (blocks[firstBlock].startBit - 32) / 8 else 0)
    else
      var candidate := (if currentBit >= 32 then currentBit - 32 else 0) / 8;
      if candidate < nextHeader then candidate else nextHeader
  }

  /** Taking the marker's candidate, checking it against the level, and sending its bytes to the sink. */
  method TakeBlock(candidates: Candidates, i: nat, level: nat, ghost early: seq<Byte>, ghost text: seq<Byte>, sink: seq<Byte>)
      returns (r: Option<Candidate>, sink': seq<Byte>, ghost part: seq<Byte>)
    requires candidates.Valid() && i < |candidates.markers| && candidates.markers[i].Block? && Offset(candidates.markers[i]) >= candidates.bound
    requires Early(Stream(candidates.data), candidates.markers, candidates.prefetched, early) && SinkHas(sink, text, candidates.prefetched, early)
    requires candidates.prefetched.Some? ==> candidates.prefetched.value.index == i
    modifies candidates, candidates.results
    ensures candidates.Valid() && candidates.prefetched == None && candidates.bound == Offset(candidates.markers[i]) + 1
    ensures var c := CandidateOf(Stream(candidates.data), candidates.markers[i]);
      if c.None? || c.value.blockLen > BlockCodec.Size(level) then r == None
      else r.Some? && part == c.value.output && r.value.(output := part) == c.value && sink' == text + part
  {
    hide CandidateOf, Stream, Candidates.Valid;
    ghost var c := CandidateOf(Stream(candidates.data), candidates.markers[i]);
    r := candidates.Take(i);
    sink', part := sink, [];
    if r.None? || r.value.blockLen > BlockCodec.Size(level) {
      return None, sink', part;
    }
    part := c.value.output;
    sink' := sink + r.value.output;
    assert [] + part == part && sink + [] == sink;
  }

  /** Where the assembly of one stream stands. */
  ghost predicate Underway(s: seq<bool>, headerByte: nat, level: nat, start: Trace, first: nat, built: Built, t: Trace, currentBit: nat, combined: nat)
  {
    && 8 * headerByte + 32 <= currentBit <= |s| && Open(s, built, t, level, currentBit) && EndsBefore(built.streams, 8 * headerByte) && first == BlocksBefore(built.streams, |built.streams|)
    && |start.parts| == first <= |t.parts| && t.parts[..first] == start.parts && Flat(start.parts) == start.text
    && ParseBlocks(s, currentBit, level, combined, t.text) == ParseBlocks(s, 8 * headerByte + 32, level, 0, start.text)
    && (if first < |built.blocks| then built.blocks[first].startBit else currentBit) == 8 * headerByte + 32
  }

  lemma UnderwayStart(s: seq<bool>, headerByte: nat, level: nat, built: Built, t: Trace)
    requires Closed(s, built, t, 8 * headerByte) && 8 * headerByte + 32 <= |s|
    ensures Underway(s, headerByte, level, t, |built.blocks|, built, t, 8 * headerByte + 32, 0)
  {
    hide Flat, DecodesTo, BlockRow, StreamRow, ParseBlocks;
    assert t.parts[..|t.parts|] == t.parts;
  }

  /** Committing a decoded block. */
  lemma UnderwayBlock(s: seq<bool>, headerByte: nat, level: nat, start: Trace, first: nat, built: Built, t: Trace, currentBit: nat, combined: nat,
                      b: BlockCandidate, c: Candidate, sink: seq<Byte>)
    requires Underway(s, headerByte, level, start, first, built, t, currentBit, combined) && Scan.BlockAt(s, currentBit) == Some(b) && 1 <= level <= 9
    requires CandidateAt(s, currentBit, Some(b.expectedCrc)) == Some(c) && c.blockLen <= BlockCodec.Size(level)
    ensures currentBit < c.endBit <= |s|
    ensures var row := BlockIndex(currentBit, c.endBit, built.decodedOffset, c.decodedLen, b.expectedCrc, |built.streams|);
      Underway(s, headerByte, level, start, first, WithBlock(built, sink, row), WithPart(t, level, c.output), c.endBit, Crc.Combine(combined, b.expectedCrc))
  {
    hide Flat, DecodesTo, BlockRow, StreamRow, ParseBlocks, Scan.BlockAt, CandidateAt, Crc.Combine, BlockRows, StreamRows;
    BlockMarker(s, currentBit, level, combined, t.text, b, Some(c));
    var row := BlockIndex(currentBit, c.endBit, built.decodedOffset, c.decodedLen, b.expectedCrc, |built.streams|);
    OpenPush(s, built, t, level, currentBit, sink, row, c.output);
    RowsSize(s, built, t, level, currentBit);
    assert (t.parts + [c.output])[..first] == t.parts[..first];
  }

  lemma RowsSize(s: seq<bool>, built: Built, t: Trace, level: nat, at: nat)
    requires Open(s, built, t, level, at)
    ensures |t.parts| == |built.blocks| == |t.levels|
  {
  }

  /** Closing the stream at its end marker. */
  lemma UnderwayEnd(s: seq<bool>, headerByte: nat, level: nat, start: Trace, first: nat, built: Built, t: Trace, currentBit: nat, combined: nat, e: EndCandidate, next: nat)
    requires Underway(s, headerByte, level, start, first, built, t, currentBit, combined) && Scan.EndAt(s, currentBit) == Some(e) && 1 <= level <= 9
    requires ParseHeader(s, 8 * headerByte) == Parsed(level, 8 * headerByte + 32)
    requires e.expectedStreamCrc == combined && next == (currentBit + 87) / 8 && first <= |built.blocks| && |start.text| <= built.decodedOffset
    ensures ParseBlocks(s, 8 * headerByte + 32, level, 0, start.text) == Parsed(t.text, currentBit + 80)
    ensures var row := StreamIndex(StreamHeader(currentBit, first, built.blocks, next), level, first, |built.blocks| - first, |start.text|, built.decodedOffset - |start.text|, currentBit, e.expectedStreamCrc);
      row.headerByte == headerByte && Closed(s, WithStream(built, row), t, 8 * next) && 8 * next == Aligned(currentBit + 80) && headerByte < next
  {
    hide Flat, DecodesTo, BlockRow, StreamRow, ParseBlocks, ParseHeader, Placed, Scan.EndAt, BlockRows, StreamRows;
    EndMarker(s, currentBit, level, combined, t.text, e);
    var row := StreamIndex(StreamHeader(currentBit, first, built.blocks, next), level, first, |built.blocks| - first, |start.text|, built.decodedOffset - |start.text|, currentBit, e.expectedStreamCrc);
    RowsSize(s, built, t, level, currentBit);
    NextByte(currentBit + 80, next);
    EndPlaced(s, row, e);
    OpenClose(s, built, t, level, currentBit, row, 8 * next);
  }

  lemma EndPlaced(s: seq<bool>, row: StreamIndex, e: EndCandidate)
    requires ParseHeader(s, 8 * row.headerByte) == Parsed(row.level, 8 * row.headerByte + 32) && 8 * row.headerByte + 32 <= row.eosBit
    requires Scan.EndAt(s, row.eosBit) == Some(e) && row.expectedStreamCrc == e.expectedStreamCrc
    ensures Placed(s, row)
  {
    hide ParseHeader, ValueOf;
  }

  lemma NextByte(at: nat, next: nat)
    requires next == (at + 7) / 8
    ensures 8 * next == Aligned(at)
  {
  }

  lemma TextGrows(s: seq<bool>, headerByte: nat, level: nat, start: Trace, first: nat, built: Built, t: Trace, currentBit: nat, combined: nat)
    requires Underway(s, headerByte, level, start, first, built, t, currentBit, combined)
    ensures first <= |built.blocks| && |start.text| <= built.decodedOffset
  {
    hide Flat, DecodesTo, BlockRow, StreamRow, ParseBlocks, BlockRows, StreamRows;
    FlatGrows(t.parts, first, |t.parts|);
    assert t.parts[..|t.parts|] == t.parts;
  }

  lemma MarkerThere(s: seq<bool>, markers: seq<Marker>, i: nat)
    requires Marks(s, markers) && i < |markers|
    ensures match markers[i] case Block(b) => Scan.BlockAt(s, Offset(markers[i])) == Some(b) case End(e) => Scan.EndAt(s, Offset(markers[i])) == Some(e)
  {
    assert Truthful(s, markers[i]);
  }

  lemma MarkerMissing(s: seq<bool>, markers: seq<Marker>, p: nat, level: nat, combined: nat, text: seq<Byte>)
    requires Marks(s, markers) && !HasOffset(markers, p) && p <= |s|
    ensures ParseBlocks(s, p, level, combined, text).Failed?
  {
    Unmarked(s, p, level, combined, text);
  }

  lemma SameMarker(markers: seq<Marker>, i: nat, j: nat)
    requires Ascending(markers) && i < |markers| && j < |markers| && Offset(markers[i]) == Offset(markers[j])
    ensures i == j
  {
  }

  lemma MarksAscend(s: seq<bool>, markers: seq<Marker>)
    requires Marks(s, markers)
    ensures Ascending(markers)
  {
  }

  /** The prefetched block is the one at bit 32, where the first stream's blocks start. */
  lemma EarlyMarker(s: seq<bool>, markers: seq<Marker>, prefetched: Option<Prefetched>, early: seq<Byte>, i: nat, currentBit: nat)
    requires Early(s, markers, prefetched, early) && Ascending(markers) && i < |markers| && Offset(markers[i]) == currentBit
    requires prefetched.Some? ==> currentBit == 32
    ensures prefetched.Some? ==> prefetched.value.index == i
  {
    hide CandidateOf;
    if prefetched.Some? {
      SameMarker(markers, i, prefetched.value.index);
    }
  }

  lemma CandidateIs(s: seq<bool>, m: Marker)
    requires m.Block?
    ensures CandidateOf(s, m) == CandidateAt(s, Offset(m), Some(m.block.expectedCrc))
  {
  }

  lemma EndTaken(s: seq<bool>, markers: seq<Marker>, prefetched: Option<Prefetched>, early: seq<Byte>, i: nat)
    requires Early(s, markers, prefetched, early) && i < |markers| && markers[i].End?
    requires prefetched.Some? ==> prefetched.value.index == i
    ensures prefetched == None
  {
  }

  lemma UnderwayMeans(s: seq<bool>, headerByte: nat, level: nat, start: Trace, first: nat, built: Built, t: Trace, currentBit: nat, combined: nat)
    requires Underway(s, headerByte, level, start, first, built, t, currentBit, combined)
    ensures 8 * headerByte + 32 <= currentBit <= |s| && |start.text| == |Flat(start.parts)|
    ensures ParseBlocks(s, currentBit, level, combined, t.text) == ParseBlocks(s, 8 * headerByte + 32, level, 0, start.text)
  {
    hide Flat, DecodesTo, BlockRow, StreamRow, ParseBlocks, BlockRows, StreamRows;
  }

  lemma OffsetLength(s: seq<bool>, built: Built, t: Trace, at: nat)
    requires Closed(s, built, t, at)
    ensures built.decodedOffset == |t.text|
  {
  }

  lemma NothingEarly(s: seq<bool>, markers: seq<Marker>, early: seq<Byte>)
    ensures Early(s, markers, None, early)
  {
  }

  /** Take, check and commit one block, and find the marker where it ends. */
  method AssembleBlock(candidates: Candidates, i: nat, headerByte: nat, level: nat, ghost start: Trace, first: nat, built: Built, ghost t: Trace,
                       currentBit: nat, combined: nat, ghost early: seq<Byte>)
      returns (ok: bool, i': nat, currentBit': nat, combined': nat, built': Built, ghost t': Trace)
    requires Marks(Stream(candidates.data), candidates.markers) && 1 <= level <= 9 && candidates.Valid()
    requires i < |candidates.markers| && candidates.markers[i].Block? && Offset(candidates.markers[i]) == currentBit && candidates.bound <= currentBit
    requires Early(Stream(candidates.data), candidates.markers, candidates.prefetched, early) && SinkHas(built.sink, t.text, candidates.prefetched, early)
    requires candidates.prefetched.Some? ==> candidates.prefetched.value.index == i
    requires Underway(Stream(candidates.data), headerByte, level, start, first, built, t, currentBit, combined)
    modifies candidates, candidates.results
    ensures !ok ==> ParseBlocks(Stream(candidates.data), 8 * headerByte + 32, level, 0, start.text).Failed?
    ensures ok ==> candidates.Valid() && i' < |candidates.markers| && Offset(candidates.markers[i']) == currentBit' && candidates.bound <= currentBit'
    ensures ok ==> currentBit < currentBit' <= |Stream(candidates.data)| && candidates.prefetched == None && built'.sink == t'.text
    ensures ok ==> Underway(Stream(candidates.data), headerByte, level, start, first, built', t', currentBit', combined')
    ensures 8 * headerByte + 32 <= |Stream(candidates.data)|
  {
    hide Stream, ParseBlocks, Marks, Underway, Early, Offset, Candidates.Valid, HasOffset, CandidateAt, CandidateOf, Scan.BlockAt, Crc.Combine, BlockCodec.Size;
    ghost var s := Stream(candidates.data);
    var b := candidates.markers[i].block;
    MarksAscend(s, candidates.markers);
    MarkerThere(s, candidates.markers, i);
    UnderwayMeans(s, headerByte, level, start, first, built, t, currentBit, combined);
    CandidateIs(s, candidates.markers[i]);
    i', currentBit', combined', built', t' := i, currentBit, combined, built, t;
    var c, sink, part := TakeBlock(candidates, i, level, early, t.text, built.sink);
    if c.None? {
      BlockMarker(s, currentBit, level, combined, t.text, b, CandidateAt(s, currentBit, Some(b.expectedCrc)));
      ok := false;
      return;
    }
    currentBit' := c.value.endBit;
    combined' := Crc.Combine(combined, b.expectedCrc);
    t' := WithPart(t, level, part);
    built' := WithBlock(built, sink, BlockIndex(currentBit, c.value.endBit, built.decodedOffset, c.value.decodedLen, b.expectedCrc, |built.streams|));
    UnderwayBlock(s, headerByte, level, start, first, built, t, currentBit, combined, b, c.value.(output := part), sink);
    var end := MarkerAt(candidates.markers, currentBit');
    if end.None? {
      UnderwayMeans(s, headerByte, level, start, first, built', t', currentBit', combined');
      MarkerMissing(s, candidates.markers, currentBit', level, combined', t'.text);
      ok := false;
      return;
    }
    candidates.DiscardBefore(end.value);
    i', ok := end.value, true;
  }

  /** One stream, from the bit after its header to the byte after its end marker. */
  method AssembleStream(candidates: Candidates, headerByte: nat, level: nat, built: Built, ghost t: Trace, ghost early: seq<Byte>)
      returns (ok: bool, next: nat, built': Built, ghost t': Trace)
    requires Marks(Stream(candidates.data), candidates.markers) && 1 <= level <= 9 && 8 * headerByte + 32 <= 8 * |candidates.data|
    requires candidates.Valid() && candidates.bound <= 8 * headerByte + 32
    requires Early(Stream(candidates.data), candidates.markers, candidates.prefetched, early) && SinkHas(built.sink, t.text, candidates.prefetched, early)
    requires candidates.prefetched.Some? ==> headerByte == 0
    requires ParseHeader(Stream(candidates.data), 8 * headerByte) == Parsed(level, 8 * headerByte + 32)
    requires Closed(Stream(candidates.data), built, t, 8 * headerByte)
    modifies candidates, candidates.results
    ensures var p := ParseBlocks(Stream(candidates.data), 8 * headerByte + 32, level, 0, t.text);
      (ok <==> p.Parsed?) &&
      (ok ==> p.value == t'.text && 8 * next == Aligned(p.at) && Closed(Stream(candidates.data), built', t', 8 * next) && built'.sink == t'.text)
    ensures ok ==> headerByte < next && candidates.prefetched == None && candidates.Valid() && candidates.bound <= 8 * next
    ensures ok ==> built'.streams != [] && built'.streams[|built'.streams| - 1].headerByte == headerByte
  {
    hide Stream, ParseBlocks, ParseHeader, Marks, Closed, Underway, Early, Offset, Candidates.Valid, HasOffset, CandidateAt, Scan.BlockAt, Scan.EndAt, Aligned, StreamHeader;
    ghost var s := Stream(candidates.data);
    var markers := candidates.markers;
    MarksAscend(s, markers);
    var currentBit: nat, combined: nat := 8 * headerByte + 32, 0;
    var first := |built.blocks|;
    UnderwayStart(s, headerByte, level, built, t);
    OffsetLength(s, built, t, 8 * headerByte);
    built', t', next := built, t, 0;
    var at := MarkerAt(markers, currentBit);
    if at.None? {
      MarkerMissing(s, markers, currentBit, level, 0, t.text);
      return false, next, built', t';
    }
    var i: nat := at.value;
    EarlyMarker(s, markers, candidates.prefetched, early, i, currentBit);
    while true
      invariant i < |markers| && Offset(markers[i]) == currentBit && candidates.Valid() && candidates.bound <= currentBit
      invariant Early(s, markers, candidates.prefetched, early) && SinkHas(built'.sink, t'.text, candidates.prefetched, early)
      invariant candidates.prefetched.Some? ==> candidates.prefetched.value.index == i
      invariant Underway(s, headerByte, level, t, first, built', t', currentBit, combined)
      decreases |s| - currentBit
    {
      MarkerThere(s, markers, i);
      UnderwayMeans(s, headerByte, level, t, first, built', t', currentBit, combined);
      match markers[i]
      case End(e) =>
        EndMarker(s, currentBit, level, combined, t'.text, e);
        if e.expectedStreamCrc != combined {
          return false, next, built', t';
        }
        next := (currentBit + 87) / 8;
        TextGrows(s, headerByte, level, t, first, built', t', currentBit, combined);
        UnderwayEnd(s, headerByte, level, t, first, built', t', currentBit, combined, e, next);
        EndTaken(s, markers, candidates.prefetched, early, i);
        built' := WithStream(built', StreamIndex(StreamHeader(currentBit, first, built'.blocks, next), level, first, |built'.blocks| - first,
                                                 built.decodedOffset, built'.decodedOffset - built.decodedOffset, currentBit, e.expectedStreamCrc));
        return true, next, built', t';
      case Block(_) =>
        var done: bool;
        done, i, currentBit, combined, built', t' := AssembleBlock(candidates, i, headerByte, level, t, first, built', t', currentBit, combined, early);
        if !done {
          return false, next, built', t';
        }
        NothingEarly(s, markers, early);
    }
  }

  // ----- Headers -----

  /** The level that a stream header names. */
  function ParseHeaderAt(data: seq<Byte>, offset: nat): Option<nat>
  {
    if offset + 4 > |data| || data[offset] != 0x42 || data[offset + 1] != 0x5A || data[offset + 2] != 0x68 then None
    else if 0x31 <= data[offset + 3] <= 0x39 then Some(data[offset + 3] - 0x30) else None
  }

  lemma ByteValue(data: seq<Byte>, s: seq<bool>, k: nat, p: nat)
    requires s == Stream(data) && k < |data| && p == 8 * k
    ensures p + 8 <= |s| && ValueOf(s[p..p + 8]) == data[k]
  {
    hide Stream, ValueOf, BitsOf;
    StreamSlice(data, k, k + 1);
    assert data[k..k + 1] == [data[k]];
    StreamPush([], data[k]);
    assert [] + [data[k]] == [data[k]] && Stream([]) + BitsOf(data[k], 8) == BitsOf(data[k], 8);
    Sums.Pow2Values();
    ValueOfBits(data[k], 8);
    assert 8 * (k + 1) == p + 8;
  }

  lemma HeaderIs(data: seq<Byte>, s: seq<bool>, offset: nat)
    requires s == Stream(data)
    ensures var h := ParseHeader(s, 8 * offset);
      if ParseHeaderAt(data, offset).None? then h.Failed? else h == Parsed(ParseHeaderAt(data, offset).value, 8 * offset + 32)
  {
    hide Stream, ValueOf;
    if offset + 4 <= |data| {
      ByteValue(data, s, offset, 8 * offset);
      ByteValue(data, s, offset + 1, 8 * offset + 8);
      ByteValue(data, s, offset + 2, 8 * offset + 16);
      ByteValue(data, s, offset + 3, 8 * offset + 24);
    }
  }

  // ----- All streams -----

  /** The index of a decoded input. */
  ghost predicate Indexed(data: seq<Byte>, index: Index, text: seq<Byte>)
  {
    exists levels: seq<nat>, parts: seq<seq<Byte>> :: Describes(index, data, text, levels, parts)
  }

  lemma StreamBits(data: seq<Byte>, s: seq<bool>)
    requires s == Stream(data)
    ensures |s| == 8 * |data| && |s| % 8 == 0
  {
  }

  lemma ClosedStart(s: seq<bool>)
    ensures Closed(s, Built([], [], [], 0), Trace([], [], []), 0)
  {
  }

  lemma ClosedSink(s: seq<bool>, b: Built, t: Trace, at: nat, sink: seq<Byte>)
    requires Closed(s, b, t, at)
    ensures Closed(s, b.(sink := sink), t, at)
  {
    hide Flat, BlockRows, StreamRows;
  }

  lemma ClosedDescribes(data: seq<Byte>, s: seq<bool>, b: Built, t: Trace, at: nat, hash: seq<Byte>)
    requires s == Stream(data) && Closed(s, b, t, at)
    ensures Indexed(data, Index(|data|, hash, b.decodedOffset, b.streams, b.blocks), t.text)
  {
    hide Flat, BlockRows, StreamRows, Stream;
    assert Describes(Index(|data|, hash, b.decodedOffset, b.streams, b.blocks), data, t.text, t.levels, t.parts);
  }

  /** One step of the serial specification at a byte boundary. */
  lemma StreamsStep(s: seq<bool>, headerByte: nat, text: seq<Byte>)
    requires |s| % 8 == 0 && 8 * headerByte < |s|
    ensures var h := ParseHeader(s, 8 * headerByte);
      if h.Failed? then ParseStreams(s, 8 * headerByte, text).Failed? else
        var p := ParseBlocks(s, 8 * headerByte + 32, h.value, 0, text);
        if p.Failed? then ParseStreams(s, 8 * headerByte, text).Failed?
        else Aligned(p.at) <= |s| && ParseStreams(s, 8 * headerByte, text) == ParseStreams(s, Aligned(p.at), p.value)
  {
    hide ParseHeader, ParseBlocks, Aligned, ParseStreams;
    AlignedUnique(8 * headerByte, 8 * headerByte);
    ParseStreamsUnfold(s, 8 * headerByte, text);
  }

  /** The text of the whole input with its index, or nothing. */
  datatype Assembled = Assembled(index: Index, sink: seq<Byte>)

  /** The header at a byte boundary and the stream after it. */
  method NextStream(candidates: Candidates, headerByte: nat, built: Built, ghost t: Trace, ghost early: seq<Byte>)
      returns (ok: bool, next: nat, built': Built, ghost t': Trace)
    requires Marks(Stream(candidates.data), candidates.markers) && headerByte < |candidates.data|
    requires candidates.Valid() && candidates.bound <= 8 * headerByte + 32
    requires Early(Stream(candidates.data), candidates.markers, candidates.prefetched, early) && SinkHas(built.sink, t.text, candidates.prefetched, early)
    requires candidates.prefetched.Some? ==> headerByte == 0
    requires Closed(Stream(candidates.data), built, t, 8 * headerByte)
    modifies candidates, candidates.results
    ensures !ok ==> ParseStreams(Stream(candidates.data), 8 * headerByte, t.text).Failed?
    ensures ok ==> headerByte < next <= |candidates.data| && candidates.prefetched == None && candidates.Valid() && candidates.bound <= 8 * next
    ensures ok ==> Closed(Stream(candidates.data), built', t', 8 * next) && built'.sink == t'.text
    ensures ok ==> ParseStreams(Stream(candidates.data), 8 * headerByte, t.text) == ParseStreams(Stream(candidates.data), 8 * next, t'.text)
  {
    hide Stream, ParseBlocks, ParseHeader, ParseStreams, Marks, Closed, Early, SinkHas, Candidates.Valid, ParseHeaderAt, Aligned;
    ghost var s := Stream(candidates.data);
    StreamsStep(s, headerByte, t.text);
    HeaderIs(candidates.data, s, headerByte);
    var level := ParseHeaderAt(candidates.data, headerByte);
    ok, next, built', t' := false, 0, built, t;
    if level.None? {
      return;
    }
    HeaderLevel(candidates.data, headerByte);
    ok, next, built', t' := AssembleStream(candidates, headerByte, level.value, built, t, early);
  }

  method AssembleAll(candidates: Candidates, early: seq<Byte>, blake3: Digest) returns (r: Option<Assembled>)
    requires Marks(Stream(candidates.data), candidates.markers) && candidates.Valid() && candidates.bound == 0
    requires Early(Stream(candidates.data), candidates.markers, candidates.prefetched, early) && (candidates.prefetched.None? ==> early == [])
    requires candidates.prefetched.Some? ==> candidates.data != []
    modifies candidates, candidates.results
    ensures var p := ParseStreams(Stream(candidates.data), 0, []);
      (r.Some? <==> p.Parsed?) && (r.Some? ==> r.value.sink == p.value && Indexed(candidates.data, r.value.index, p.value))
    ensures r.Some? ==> r.value.index.sourceHash == blake3(candidates.data)
  {
    hide Stream, ParseStreams, Marks, Closed, Early, Candidates.Valid, Indexed;
    ghost var s := Stream(candidates.data);
    var data := candidates.data;
    var built := Built(early, [], [], 0);
    ghost var t := Trace([], [], []);
    StreamBits(data, s);
    ClosedStart(s);
    ClosedSink(s, Built([], [], [], 0), t, 0, early);
    var headerByte: nat := 0;
    while headerByte < |data|
      invariant candidates.Valid() && candidates.bound <= 8 * headerByte + 32 && headerByte <= |data|
      invariant Early(s, candidates.markers, candidates.prefetched, early) && SinkHas(built.sink, t.text, candidates.prefetched, early)
      invariant candidates.prefetched.Some? ==> headerByte == 0
      invariant Closed(s, built, t, 8 * headerByte)
      invariant ParseStreams(s, 8 * headerByte, t.text) == ParseStreams(s, 0, [])
      decreases |data| - headerByte
    {
      var ok, next;
      ok, next, built, t := NextStream(candidates, headerByte, built, t, early);
      if !ok {
        return None;
      }
      NothingEarly(s, candidates.markers, early);
      headerByte := next;
    }
    ParseNoStreams(s, t.text);
    ClosedDescribes(data, s, built, t, 8 * headerByte, blake3(data));
    r := Some(Assembled(Index(|data|, blake3(data), built.decodedOffset, built.streams, built.blocks), built.sink));
  }

  lemma HeaderLevel(data: seq<Byte>, offset: nat)
    requires ParseHeaderAt(data, offset).Some?
    ensures 1 <= ParseHeaderAt(data, offset).value <= 9 && offset + 4 <= |data|
  {
  }
}
