/** Finding every bit position of a bzip2 input where a block or an end of stream may start. */
module Scan {
  import opened Bytes
  import opened Seqs
  import opened Sums
  import opened BitStream
  import opened BitReading
  import opened Options
  import BlockCodec
  import Bzip2Stream
  import MatchFinder

  const BLOCK_MAGIC: nat := BlockCodec.BLOCK_MAGIC
  const END_MAGIC: nat := Bzip2Stream.END_MAGIC
  const SCAN_CHUNK: nat := 1048576

  datatype StreamHeaderCandidate = StreamHeaderCandidate(byteOffset: nat, level: nat)

  datatype BlockCandidate = BlockCandidate(bitOffset: nat, expectedCrc: nat, randomized: bool, origPtr: nat)

  datatype EndCandidate = EndCandidate(bitOffset: nat, expectedStreamCrc: nat)

  datatype ScanResult = ScanResult(streams: seq<StreamHeaderCandidate>, blocks: seq<BlockCandidate>, ends: seq<EndCandidate>)
  {
    function Append(more: ScanResult): ScanResult
    {
      ScanResult(streams + more.streams, blocks + more.blocks, ends + more.ends)
    }
  }

  // ----- What there is to find -----

  predicate IsStreamHeader(data: seq<Byte>, offset: nat)
  {
    offset + 4 <= |data| && data[offset] == 0x42 && data[offset + 1] == 0x5A && data[offset + 2] == 0x68 && 0x31 <= data[offset + 3] <= 0x39
  }

  /** The block magic with all of its trailing fields in bounds. */
  function BlockAt(s: seq<bool>, p: nat): Option<BlockCandidate>
  {
    var magic, crc, randomized, origin := ReadBits(s, p, 48), ReadBits(s, p + 48, 32), ReadBit(s, p + 80), ReadBits(s, p + 81, 24);
    if magic.Parsed? && magic.value == BLOCK_MAGIC && crc.Parsed? && randomized.Parsed? && origin.Parsed?
    then Some(BlockCandidate(p, crc.value, randomized.value, origin.value)) else None
  }

  /** The end magic with its checksum in bounds. */
  function EndAt(s: seq<bool>, p: nat): Option<EndCandidate>
  {
    var magic, crc := ReadBits(s, p, 48), ReadBits(s, p + 48, 32);
    if magic.Parsed? && magic.value == END_MAGIC && crc.Parsed? then Some(EndCandidate(p, crc.value)) else None
  }

  function HeadersIn(data: seq<Byte>, from: nat, stop: nat): seq<StreamHeaderCandidate>
  {
    if stop <= from then [] else HeadersIn(data, from, stop - 1) + if IsStreamHeader(data, stop - 1) then [StreamHeaderCandidate(stop - 1, data[stop - 1 + 3] - 0x30)] else []
  }

  function BlocksIn(s: seq<bool>, from: nat, stop: nat): seq<BlockCandidate>
  {
    if stop <= from then [] else
      var b := BlockAt(s, stop - 1);
      BlocksIn(s, from, stop - 1) + if b.Some? then [b.value] else []
  }

  function EndsIn(s: seq<bool>, from: nat, stop: nat): seq<EndCandidate>
  {
    if stop <= from then [] else
      var e := EndAt(s, stop - 1);
      EndsIn(s, from, stop - 1) + if e.Some? then [e.value] else []
  }

  /** Every candidate in a range of bytes, in order. */
  function Candidates(data: seq<Byte>, from: nat, stop: nat): ScanResult
  {
    ScanResult(HeadersIn(data, from, stop), BlocksIn(Stream(data), 8 * from, 8 * stop), EndsIn(Stream(data), 8 * from, 8 * stop))
  }

  lemma {:induction false} HeadersJoin(data: seq<Byte>, a: nat, b: nat, c: nat)
    requires a <= b <= c
    ensures HeadersIn(data, a, b) + HeadersIn(data, b, c) == HeadersIn(data, a, c)
    decreases c
  {
    hide IsStreamHeader;
    if b < c {
      HeadersJoin(data, a, b, c - 1);
    }
  }

  lemma {:induction false} BlocksJoin(s: seq<bool>, a: nat, b: nat, c: nat)
    requires a <= b <= c
    ensures BlocksIn(s, a, b) + BlocksIn(s, b, c) == BlocksIn(s, a, c)
    ensures EndsIn(s, a, b) + EndsIn(s, b, c) == EndsIn(s, a, c)
    decreases c
  {
    hide BlockAt, EndAt;
    if b < c {
      BlocksJoin(s, a, b, c - 1);
    }
  }

  /** Scanning two adjacent ranges is scanning their union. */
  lemma CandidatesJoin(data: seq<Byte>, a: nat, b: nat, c: nat)
    requires a <= b <= c
    ensures Candidates(data, a, b).Append(Candidates(data, b, c)) == Candidates(data, a, c)
  {
    hide HeadersIn, BlocksIn, EndsIn, Stream;
    HeadersJoin(data, a, b, c);
    BlocksJoin(Stream(data), 8 * a, 8 * b, 8 * c);
  }

  // ----- The rolling window -----

  /** The input followed by seven zero bytes. */
  function Padded(data: seq<Byte>): (p: seq<Byte>)
    ensures |p| == |data| + 7
  {
    data + [0, 0, 0, 0, 0, 0, 0]
  }

  function ByteAt(data: seq<Byte>, offset: nat): Byte
  {
    if offset < |data| then data[offset] else 0
  }

  /** Seven bytes from `b` on, as a 56-bit number. */
  ghost predicate IsWindow(data: seq<Byte>, b: nat, window: nat)
  {
    b <= |data| && window == ValueOf(Stream(Padded(data)[b..b + 7]))
  }

  method FirstWindow(data: seq<Byte>, start: nat) returns (window: nat)
    requires start <= |data|
    ensures IsWindow(data, start, window)
  {
    hide Stream, ValueOf, Shl, Padded, ByteAt;
    var bytes: seq<Byte> := [];
    window := 0;
    for k := 0 to 7
      invariant bytes == Padded(data)[start..start + k] && window == BigEndian(bytes)
    {
      PaddedPush(data, start, k);
      BigEndianPush(bytes, ByteAt(data, start + k));
      window := Shl(window, 8) + ByteAt(data, start + k);
      bytes := bytes + [ByteAt(data, start + k)];
    }
    BigEndianIsStream(bytes);
  }

  lemma PaddedPush(data: seq<Byte>, start: nat, k: nat)
    requires start + k < |data| + 7
    ensures Padded(data)[start..start + k + 1] == Padded(data)[start..start + k] + [ByteAt(data, start + k)]
  {
    var p := Padded(data);
    assert p[start + k] == ByteAt(data, start + k);
    hide *;
  }

  lemma BigEndianPush(bytes: seq<Byte>, b: Byte)
    ensures BigEndian(bytes + [b]) == Shl(BigEndian(bytes), 8) + b
  {
    hide Shl;
    assert (bytes + [b])[..|bytes|] == bytes;
  }

  /** Shifting in the next byte and masking to 56 bits moves the window by one byte. */
  lemma WindowMoves(data: seq<Byte>, b: nat, window: nat)
    requires IsWindow(data, b, window) && b < |data|
    ensures IsWindow(data, b + 1, Low(Shl(window, 8), 56) + ByteAt(data, b + 7))
  {
    hide Stream, ValueOf, Shl, Low, BitsOf, Pow2, Shr;
    var here, next := Padded(data)[b..b + 7], Padded(data)[b + 1..b + 8];
    var last := ByteAt(data, b + 7);
    assert next == here[1..7] + [last];
    StreamPush(here[1..7], last);
    StreamSlice(here, 1, 7);
    SliceValue(Stream(here), 8, 56);
    ShiftNone(Low(window, 48));
    LowShl(window, 8, 48);
    ValueAppend(Stream(here[1..7]), BitsOf(last, 8));
    Pow2Values();
    ValueOfBits(last, 8);
  }

  lemma ShiftNone(v: nat)
    ensures Shr(v, 0) == v
  {
  }

  /** The marker under a shift is the 48 bits at that position. */
  lemma MarkerValue(data: seq<Byte>, b: nat, window: nat, shift: nat)
    requires IsWindow(data, b, window) && b < |data| && shift < 8
    ensures 8 * b + shift + 48 <= |Stream(Padded(data))|
    ensures Low(Shr(window, 8 - shift), 48) == ValueOf(Stream(Padded(data))[8 * b + shift..8 * b + shift + 48])
    ensures 8 * b + shift + 48 <= |Stream(data)| ==> ReadBits(Stream(data), 8 * b + shift, 48) == Parsed(Low(Shr(window, 8 - shift), 48), 8 * b + shift + 48)
  {
    hide Stream, ValueOf, Shl, Low, Shr;
    var all, part := Stream(Padded(data)), Stream(Padded(data)[b..b + 7]);
    StreamSlice(Padded(data), b, b + 7);
    Nested(all, part, 8 * b, 8 * (b + 7), shift, shift + 48, 8 * b + shift, 8 * b + shift + 48);
    SliceValue(part, shift, shift + 48);
    assert Padded(data)[..|data|] == data;
    StreamPrefix(Padded(data), |data|);
    if 8 * b + shift + 48 <= |Stream(data)| {
      assert all[..8 * |data|][8 * b + shift..8 * b + shift + 48] == all[8 * b + shift..8 * b + shift + 48];
    }
  }

  // ----- Prefix tables -----

  /** For every byte, the shifts at which the magic could start inside it. */
  ghost predicate IsPrefixTable(magic: nat, table: seq<seq<bool>>)
  {
    |table| == 256 && forall byte :: 0 <= byte < 256 ==> IsPrefixEntry(magic, byte, table[byte])
  }

  ghost predicate IsPrefixEntry(magic: nat, byte: nat, entry: seq<bool>)
  {
    |entry| == 8 && forall shift :: 0 <= shift < 8 ==> PrefixShift(magic, byte, shift, entry[shift])
  }

  ghost predicate PrefixShift(magic: nat, byte: nat, shift: nat, possible: bool)
    requires shift < 8
  {
    possible <==> Low(byte, 8 - shift) == Shr(magic, 40 + shift)
  }

  method PrefixTable(magic: nat) returns (table: seq<seq<bool>>)
    ensures IsPrefixTable(magic, table)
  {
    hide Low, Shr;
    table := [];
    for byte := 0 to 256
      invariant |table| == byte && forall b :: 0 <= b < byte ==> IsPrefixEntry(magic, b, table[b])
    {
      var entry := [];
      for shift := 0 to 8
        invariant |entry| == shift && forall k :: 0 <= k < shift ==> PrefixShift(magic, byte, k, entry[k])
      {
        entry := entry + [Low(byte, 8 - shift) == Shr(magic, 40 + shift)];
      }
      table := table + [entry];
    }
  }

  /** Where the magic stands, its table lists the shift. */
  lemma PrefixFinds(data: seq<Byte>, b: nat, window: nat, shift: nat, magic: nat, table: seq<seq<bool>>)
    requires IsWindow(data, b, window) && shift < 8 && IsPrefixTable(magic, table) && magic < Pow2(48)
    requires Low(Shr(window, 8 - shift), 48) == magic
    ensures Shr(window, 48) < 256 && |table[Shr(window, 48)]| == 8 && table[Shr(window, 48)][shift]
  {
    hide Stream, ValueOf, Shl, Low, Shr, Pow2;
    var part := Stream(Padded(data)[b..b + 7]);
    TopByte(part);
    var byte := Shr(window, 48);
    SliceValue(part, shift, shift + 48);
    var marker := part[shift..shift + 48];
    SliceValue(marker, 0, 8 - shift);
    SliceValue(part[0..8], shift, 8);
    ShiftNone(ValueOf(part[0..8]));
    assert marker[0..8 - shift] == part[0..8][shift..8];
    MagicTop(magic, shift);
    assert 48 - (8 - shift) == 40 + shift && 8 - shift - 0 == 8 - shift;
    assert IsPrefixEntry(magic, byte, table[byte]);
    assert PrefixShift(magic, byte, shift, table[byte][shift]);
  }

  lemma TopByte(part: seq<bool>)
    requires |part| == 56
    ensures Shr(ValueOf(part), 48) == ValueOf(part[0..8]) < 256
  {
    hide ValueOf, Low, Shr, Pow2;
    SliceValue(part, 0, 8);
    ValueBound(part);
    LowFits(ValueOf(part), 56);
    ValueBound(part[0..8]);
    Pow2Values();
  }

  lemma MagicTop(magic: nat, shift: nat)
    requires magic < Pow2(48) && shift < 8
    ensures Low(Shr(magic, 40 + shift), 8 - shift) == Shr(magic, 40 + shift)
  {
    hide ValueOf, Low, Shr, Pow2, BitsOf;
    ValueOfBits(magic, 48);
    var b := BitsOf(magic, 48);
    SliceValue(b, 0, 8 - shift);
    assert 48 - (8 - shift) == 40 + shift;
    LowFits(magic, 48);
    assert 48 - 0 == 48;
  }

  // ----- Scanning -----

  method ParseBlock(data: seq<Byte>, bitOffset: nat) returns (r: Option<BlockCandidate>)
    ensures ReadBits(Stream(data), bitOffset, 48).Parsed? && ReadBits(Stream(data), bitOffset, 48).value == BLOCK_MAGIC ==> r == BlockAt(Stream(data), bitOffset)
    ensures ReadBits(Stream(data), bitOffset, 48).Failed? ==> r == None
  {
    hide Stream, ValueOf;
    if bitOffset + 48 > 8 * |data| {
      return None;
    }
    var reader := new Bits(data, bitOffset + 48);
    var crc := reader.Read(32);
    if crc.Err? {
      return None;
    }
    var randomized := reader.Bit();
    if randomized.Err? {
      return None;
    }
    var origin := reader.Read(24);
    if origin.Err? {
      return None;
    }
    r := Some(BlockCandidate(bitOffset, crc.value, randomized.value, origin.value));
  }

  method ParseEnd(data: seq<Byte>, bitOffset: nat) returns (r: Option<EndCandidate>)
    ensures ReadBits(Stream(data), bitOffset, 48).Parsed? && ReadBits(Stream(data), bitOffset, 48).value == END_MAGIC ==> r == EndAt(Stream(data), bitOffset)
    ensures ReadBits(Stream(data), bitOffset, 48).Failed? ==> r == None
  {
    hide Stream, ValueOf;
    if bitOffset + 48 > 8 * |data| {
      return None;
    }
    var reader := new Bits(data, bitOffset + 48);
    var crc := reader.Read(32);
    if crc.Err? {
      return None;
    }
    r := Some(EndCandidate(bitOffset, crc.value));
  }

  /** The found blocks and ends are those before a bit position. */
  ghost predicate Found(s: seq<bool>, from: nat, stop: nat, blocks: seq<BlockCandidate>, ends: seq<EndCandidate>)
  {
    blocks == BlocksIn(s, from, stop) && ends == EndsIn(s, from, stop)
  }

  lemma FoundStep(s: seq<bool>, from: nat, stop: nat, blocks: seq<BlockCandidate>, ends: seq<EndCandidate>)
    requires Found(s, from, stop, blocks, ends) && from <= stop
    ensures Found(s, from, stop + 1, blocks + (if BlockAt(s, stop).Some? then [BlockAt(s, stop).value] else []), ends + (if EndAt(s, stop).Some? then [EndAt(s, stop).value] else []))
  {
    hide BlockAt, EndAt;
  }

  /** A position whose shift neither table lists holds no candidate. */
  lemma NotListed(data: seq<Byte>, b: nat, window: nat, shift: nat, blockTable: seq<seq<bool>>, endTable: seq<seq<bool>>)
    requires IsWindow(data, b, window) && b < |data| && shift < 8 && IsPrefixTable(BLOCK_MAGIC, blockTable) && IsPrefixTable(END_MAGIC, endTable)
    ensures Shr(window, 48) < 256 && |blockTable[Shr(window, 48)]| == |endTable[Shr(window, 48)]| == 8
    ensures !blockTable[Shr(window, 48)][shift] && !endTable[Shr(window, 48)][shift] ==>
      BlockAt(Stream(data), 8 * b + shift) == None && EndAt(Stream(data), 8 * b + shift) == None
  {
    hide Stream, ValueOf, Shl, Low, Shr, Pow2, IsPrefixTable;
    Bzip2Stream.Magics();
    TopByte(Stream(Padded(data)[b..b + 7]));
    EntrySize(BLOCK_MAGIC, blockTable, Shr(window, 48));
    EntrySize(END_MAGIC, endTable, Shr(window, 48));
    MarkerValue(data, b, window, shift);
    if Low(Shr(window, 8 - shift), 48) == BLOCK_MAGIC {
      PrefixFinds(data, b, window, shift, BLOCK_MAGIC, blockTable);
    }
    if Low(Shr(window, 8 - shift), 48) == END_MAGIC {
      PrefixFinds(data, b, window, shift, END_MAGIC, endTable);
    }
  }

  lemma EntrySize(magic: nat, table: seq<seq<bool>>, byte: nat)
    requires IsPrefixTable(magic, table) && byte < 256
    ensures |table| == 256 && |table[byte]| == 8
  {
    assert IsPrefixEntry(magic, byte, table[byte]);
  }

  /** No shift from `next` up to `shift` is listed. */
  ghost predicate Unlisted(shifts: seq<bool>, next: nat, shift: nat)
  {
    |shifts| == 8 && shift <= 8 && forall k :: next <= k < shift ==> !shifts[k]
  }

  lemma {:induction false} SkipUnlisted(data: seq<Byte>, b: nat, window: nat, from: nat, next: nat, shift: nat, blockTable: seq<seq<bool>>, endTable: seq<seq<bool>>,
                                        shifts: seq<bool>, blocks: seq<BlockCandidate>, ends: seq<EndCandidate>)
    requires IsWindow(data, b, window) && b < |data| && next <= shift <= 8 && IsPrefixTable(BLOCK_MAGIC, blockTable) && IsPrefixTable(END_MAGIC, endTable)
    requires Shr(window, 48) < 256 && Either(blockTable, endTable, Shr(window, 48), shifts) && Unlisted(shifts, next, shift)
    requires Found(Stream(data), from, 8 * b + next, blocks, ends) && from <= 8 * b
    ensures Found(Stream(data), from, 8 * b + shift, blocks, ends)
    decreases shift
  {
    hide Stream, IsWindow, IsPrefixTable, Shr, BlockAt, EndAt, Found;
    if next < shift {
      SkipUnlisted(data, b, window, from, next, shift - 1, blockTable, endTable, shifts, blocks, ends);
      NotListed(data, b, window, shift - 1, blockTable, endTable);
      FoundStep(Stream(data), from, 8 * b + (shift - 1), blocks, ends);
      assert blocks + [] == blocks && ends + [] == ends;
    }
  }

  ghost predicate Either(blockTable: seq<seq<bool>>, endTable: seq<seq<bool>>, byte: nat, shifts: seq<bool>)
  {
    && |blockTable| == |endTable| == 256 && byte < 256 && |blockTable[byte]| == |endTable[byte]| == |shifts| == 8
    && forall k :: 0 <= k < 8 ==> shifts[k] == (blockTable[byte][k] || endTable[byte][k])
  }

  /** Test every listed shift of one byte, lowest first. */
  method ScanByte(data: seq<Byte>, b: nat, window: nat, ghost from: nat, blockTable: seq<seq<bool>>, endTable: seq<seq<bool>>,
                  blocks: seq<BlockCandidate>, ends: seq<EndCandidate>) returns (blocks': seq<BlockCandidate>, ends': seq<EndCandidate>)
    requires IsWindow(data, b, window) && b < |data| && from <= 8 * b && IsPrefixTable(BLOCK_MAGIC, blockTable) && IsPrefixTable(END_MAGIC, endTable)
    requires Found(Stream(data), from, 8 * b, blocks, ends)
    ensures Found(Stream(data), from, 8 * b + 8, blocks', ends')
  {
    hide Stream, IsWindow, IsPrefixTable, Shr, Low, BlockAt, EndAt, Found, ValueOf, MatchFinder.TrailingZeros;
    NotListed(data, b, window, 0, blockTable, endTable);
    TableSizes(blockTable, endTable);
    var top := Shr(window, 48);
    ghost var listed := seq(8, k requires 0 <= k < 8 => blockTable[top][k] || endTable[top][k]);
    var shifts := seq(8, k requires 0 <= k < 8 => blockTable[top][k] || endTable[top][k]);
    blocks', ends' := blocks, ends;
    ghost var next := 0;
    while MatchFinder.TrailingZeros(shifts) < 8
      invariant |shifts| == 8 && next <= 8 && Found(Stream(data), from, 8 * b + next, blocks', ends')
      invariant forall k :: 0 <= k < 8 ==> shifts[k] == (k >= next && listed[k])
      decreases 8 - next
    {
      var shift := MatchFinder.TrailingZeros(shifts);
      Lowest(shifts);
      SkipUnlisted(data, b, window, from, next, shift, blockTable, endTable, listed, blocks', ends');
      shifts := shifts[shift := false];
      var marker := Low(Shr(window, 8 - shift), 48);
      var bitOffset := 8 * b + shift;
      MarkerValue(data, b, window, shift);
      FoundStep(Stream(data), from, bitOffset, blocks', ends');
      TestMarker(Stream(data), bitOffset, marker);
      if marker == BLOCK_MAGIC {
        var block := ParseBlock(data, bitOffset);
        if block.Some? {
          blocks' := blocks' + [block.value];
        }
      } else if marker == END_MAGIC {
        var end := ParseEnd(data, bitOffset);
        if end.Some? {
          ends' := ends' + [end.value];
        }
      }
      KeepAll(blocks', ends');
      next := shift + 1;
    }
    Lowest(shifts);
    SkipUnlisted(data, b, window, from, next, 8, blockTable, endTable, listed, blocks', ends');
  }

  lemma KeepAll(blocks: seq<BlockCandidate>, ends: seq<EndCandidate>)
    ensures blocks + [] == blocks && ends + [] == ends
  {
  }

  lemma Lowest(shifts: seq<bool>)
    requires |shifts| == 8
    ensures var t := MatchFinder.TrailingZeros(shifts); t <= 8 && (t < 8 ==> shifts[t]) && forall k :: 0 <= k < t ==> !shifts[k]
  {
  }

  lemma TableSizes(blockTable: seq<seq<bool>>, endTable: seq<seq<bool>>)
    requires IsPrefixTable(BLOCK_MAGIC, blockTable) && IsPrefixTable(END_MAGIC, endTable)
    ensures |blockTable| == |endTable| == 256
  {
  }

  /** Only the magic's own kind of candidate can stand at a marker. */
  lemma TestMarker(s: seq<bool>, p: nat, marker: nat)
    requires p + 48 <= |s| ==> ReadBits(s, p, 48) == Parsed(marker, p + 48)
    ensures marker != BLOCK_MAGIC ==> BlockAt(s, p) == None
    ensures marker != END_MAGIC ==> EndAt(s, p) == None
    ensures p + 48 > |s| ==> BlockAt(s, p) == None && EndAt(s, p) == None
  {
    hide ValueOf;
  }

  method ScanHeaders(data: seq<Byte>, start: nat, end: nat) returns (streams: seq<StreamHeaderCandidate>)
    ensures streams == HeadersIn(data, start, end)
  {
    hide IsStreamHeader;
    streams := [];
    if start >= end {
      return;
    }
    for offset := start to end
      invariant streams == HeadersIn(data, start, offset)
    {
      if IsStreamHeader(data, offset) {
        HeaderInBounds(data, offset);
        streams := streams + [StreamHeaderCandidate(offset, data[offset + 3] - 0x30)];
      }
    }
  }

  lemma HeaderInBounds(data: seq<Byte>, offset: nat)
    requires IsStreamHeader(data, offset)
    ensures offset + 3 < |data| && data[offset + 3] >= 0x30
  {
  }

  /** The scan reports exactly the candidates of its range, in order; the zero padding adds none. */
  method ScanRange(data: seq<Byte>, start: nat, end: nat) returns (r: ScanResult)
    requires end <= |data|
    ensures r == if start >= end then ScanResult([], [], []) else Candidates(data, start, end)
  {
    hide Stream, IsWindow, IsPrefixTable, Shl, Low, BlockAt, EndAt, Found;
    var streams := ScanHeaders(data, start, end);
    if |data| < 7 || start >= end {
      if start < end {
        TooShort(data, 8 * start, 8 * end);
      } else {
        assert streams == [];
      }
      return ScanResult(streams, [], []);
    }
    var blockTable := PrefixTable(BLOCK_MAGIC);
    var endTable := PrefixTable(END_MAGIC);
    var window: nat := FirstWindow(data, start);
    var blocks: seq<BlockCandidate>, ends: seq<EndCandidate> := [], [];
    FoundNothing(Stream(data), 8 * start);
    for b := start to end
      invariant IsWindow(data, b, window) && Found(Stream(data), 8 * start, 8 * b, blocks, ends)
    {
      blocks, ends := ScanByte(data, b, window, 8 * start, blockTable, endTable, blocks, ends);
      WindowMoves(data, b, window);
      window := Low(Shl(window, 8), 56) + ByteAt(data, b + 7);
    }
    FoundAll(Stream(data), 8 * start, 8 * end, blocks, ends);
    r := ScanResult(streams, blocks, ends);
  }

  lemma FoundNothing(s: seq<bool>, p: nat)
    ensures Found(s, p, p, [], [])
  {
  }

  lemma FoundAll(s: seq<bool>, from: nat, stop: nat, blocks: seq<BlockCandidate>, ends: seq<EndCandidate>)
    requires Found(s, from, stop, blocks, ends)
    ensures blocks == BlocksIn(s, from, stop) && ends == EndsIn(s, from, stop)
  {
  }

  lemma {:induction false} TooShort(data: seq<Byte>, from: nat, stop: nat)
    requires |data| < 7
    ensures BlocksIn(Stream(data), from, stop) == [] && EndsIn(Stream(data), from, stop) == []
    decreases stop
  {
    hide Stream;
    if stop > from {
      TooShort(data, from, stop - 1);
    }
  }

  /** Chunks scanned in waves of workers and appended in order give the whole scan. */
  method ScanWithPool(data: seq<Byte>, workers: Option<nat>) returns (r: Option<ScanResult>)
    ensures r == if IsStreamHeader(data, 0) then Some(Candidates(data, 0, |data|)) else None
  {
    hide Candidates, ScanResult.Append, IsStreamHeader;
    if !IsStreamHeader(data, 0) {
      return None;
    }
    HeaderInBounds(data, 0);
    if workers.None? || |data| <= SCAN_CHUNK {
      var whole := ScanRange(data, 0, |data|);
      return Some(whole);
    }
    var chunks := (|data| + SCAN_CHUNK - 1) / SCAN_CHUNK;
    var wave := if workers.value < 1 then 1 else workers.value;
    var result := ScanResult([], [], []);
    NothingScanned(data);
    var first := 0;
    while first < chunks
      invariant first <= chunks && result == Candidates(data, 0, ChunkStart(data, first))
    {
      var end := if first + wave < chunks then first + wave else chunks;
      var partial := ScanWave(data, first, end);
      for k := 0 to |partial|
        invariant result == Candidates(data, 0, ChunkStart(data, first + k))
      {
        ChunkOrder(data, first + k);
        CandidatesJoin(data, 0, ChunkStart(data, first + k), ChunkStart(data, first + k + 1));
        result := result.Append(partial[k]);
      }
      first := end;
    }
    ChunksCover(data, chunks);
    r := Some(result);
  }

  function ChunkStart(data: seq<Byte>, chunk: nat): nat
  {
    if chunk * SCAN_CHUNK < |data| then chunk * SCAN_CHUNK else |data|
  }

  lemma ChunkOrder(data: seq<Byte>, chunk: nat)
    ensures ChunkStart(data, chunk) <= ChunkStart(data, chunk + 1) <= |data|
  {
    assert (chunk + 1) * SCAN_CHUNK == chunk * SCAN_CHUNK + SCAN_CHUNK;
  }

  lemma ChunksCover(data: seq<Byte>, chunks: nat)
    requires chunks == (|data| + SCAN_CHUNK - 1) / SCAN_CHUNK
    ensures ChunkStart(data, chunks) == |data|
  {
  }

  lemma NothingScanned(data: seq<Byte>)
    ensures ScanResult([], [], []) == Candidates(data, 0, ChunkStart(data, 0))
  {
  }

  /** One wave: a worker for each chunk, results in chunk order. */
  method ScanWave(data: seq<Byte>, first: nat, end: nat) returns (partial: seq<ScanResult>)
    requires first <= end && forall c :: first <= c < end ==> c * SCAN_CHUNK < |data|
    ensures |partial| == end - first
    ensures forall k :: 0 <= k < |partial| ==> partial[k] == Candidates(data, ChunkStart(data, first + k), ChunkStart(data, first + k + 1))
  {
    hide Candidates;
    partial := [];
    for chunk := first to end
      invariant |partial| == chunk - first
      invariant forall k :: 0 <= k < |partial| ==> partial[k] == Candidates(data, ChunkStart(data, first + k), ChunkStart(data, first + k + 1))
    {
      ChunkOrder(data, chunk);
      var stop := if (chunk + 1) * SCAN_CHUNK < |data| then (chunk + 1) * SCAN_CHUNK else |data|;
      var part := ScanRange(data, chunk * SCAN_CHUNK, stop);
      partial := partial + [part];
    }
  }
}
