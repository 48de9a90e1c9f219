/** The index of a bzip2 input: what its records mean, when it is consistent, and its file form. */
module SeekIndex {
  import opened Bytes
  import opened Seqs
  import opened Sums
  import opened BitStream
  import opened BitReading
  import opened Options
  import LsbStream
  import BlockCodec
  import Bzip2Stream

  datatype BlockIndex = BlockIndex(startBit: nat, endBit: nat, decodedStart: nat, decodedLen: nat, expectedCrc: nat, stream: nat)

  datatype StreamIndex = StreamIndex(headerByte: nat, level: nat, firstBlock: nat, blockCount: nat, decodedStart: nat, decodedLen: nat, eosBit: nat, expectedStreamCrc: nat)

  datatype Index = Index(sourceLen: nat, sourceHash: seq<Byte>, decodedLen: nat, streams: seq<StreamIndex>, blocks: seq<BlockIndex>)

  // ----- What the records mean -----

  function Flat(parts: seq<seq<Byte>>): seq<Byte>
  {
    if parts == [] then [] else Flat(parts[..|parts| - 1]) + parts[|parts| - 1]
  }

  /** Decoding the block between its two bit positions, at its stream's level, gives its part of the text. */
  ghost predicate DecodesTo(s: seq<bool>, b: BlockIndex, level: nat, part: seq<Byte>)
  {
    var magic := ReadBits(s, b.startBit, 48);
    magic.Parsed? && magic.value == BlockCodec.BLOCK_MAGIC && 1 <= level <= 9 &&
    var d := BlockCodec.ParseBlock(s, b.startBit + 48, level, Some(b.expectedCrc), Bzip2Stream.CRC);
    d.Parsed? && d.at == b.endBit && d.value.output == part
  }

  /** Block `i` is in order, in range, and covers the next part of the text. */
  ghost predicate BlockRow(s: seq<bool>, blocks: seq<BlockIndex>, levels: seq<nat>, parts: seq<seq<Byte>>, i: nat)
    requires |blocks| == |levels| == |parts| && i < |blocks|
  {
    var b := blocks[i];
    && DecodesTo(s, b, levels[i], parts[i]) && b.startBit < b.endBit <= |s|
    && b.decodedStart == |Flat(parts[..i])| && b.decodedLen == |parts[i]| > 0
    && (i > 0 ==> blocks[i - 1].startBit < blocks[i - 1].endBit <= b.startBit)
  }

  ghost predicate BlockRows(s: seq<bool>, blocks: seq<BlockIndex>, levels: seq<nat>, parts: seq<seq<Byte>>)
  {
    |blocks| == |levels| == |parts| && forall i :: 0 <= i < |blocks| ==> BlockRow(s, blocks, levels, parts, i)
  }

  /** The stream's header and its end marker stand where its record says. */
  ghost predicate Placed(s: seq<bool>, t: StreamIndex)
  {
    && Bzip2Stream.ParseHeader(s, 8 * t.headerByte) == Parsed(t.level, 8 * t.headerByte + 32) && 8 * t.headerByte + 32 <= t.eosBit
    && ReadBits(s, t.eosBit, 48) == Parsed(Bzip2Stream.END_MAGIC, t.eosBit + 48)
    && ReadBits(s, t.eosBit + 48, 32) == Parsed(t.expectedStreamCrc, t.eosBit + 80)
  }

  lemma PlacedWithin(s: seq<bool>, t: StreamIndex)
    requires Placed(s, t)
    ensures 8 * t.headerByte + 32 <= t.eosBit && t.eosBit + 80 <= |s| && t.expectedStreamCrc < 0x1_0000_0000
  {
    ValueBound(s[t.eosBit + 48..t.eosBit + 48 + 32]);
    Pow2Values();
  }

  /** The first block after the first `k` streams. */
  function BlocksBefore(streams: seq<StreamIndex>, k: nat): nat
    requires k <= |streams|
  {
    if k == 0 then 0 else streams[k - 1].firstBlock + streams[k - 1].blockCount
  }

  /** Stream `k` covers the next blocks, all of them its own. */
  ghost predicate StreamRow(s: seq<bool>, streams: seq<StreamIndex>, blocks: seq<BlockIndex>, levels: seq<nat>, parts: seq<seq<Byte>>, k: nat)
    requires |blocks| == |levels| == |parts| && k < |streams|
  {
    var t := streams[k];
    var end := t.firstBlock + t.blockCount;
    && 1 <= t.level <= 9 && t.firstBlock == BlocksBefore(streams, k) && end <= |blocks| && Placed(s, t)
    && (k > 0 ==> streams[k - 1].eosBit + 80 <= 8 * t.headerByte)
    && t.decodedStart == |Flat(parts[..t.firstBlock])| && t.decodedStart + t.decodedLen == |Flat(parts[..end])|
    && forall j :: t.firstBlock <= j < end ==> blocks[j].stream == k && levels[j] == t.level
  }

  ghost predicate StreamRows(s: seq<bool>, streams: seq<StreamIndex>, blocks: seq<BlockIndex>, levels: seq<nat>, parts: seq<seq<Byte>>)
  {
    |blocks| == |levels| == |parts| && forall k :: 0 <= k < |streams| ==> StreamRow(s, streams, blocks, levels, parts, k)
  }

  /** The index describes this source and this decoded text. */
  ghost predicate Describes(index: Index, data: seq<Byte>, text: seq<Byte>, levels: seq<nat>, parts: seq<seq<Byte>>)
  {
    && index.sourceLen == |data| && index.decodedLen == |text| && Flat(parts) == text
    && BlockRows(Stream(data), index.blocks, levels, parts)
    && StreamRows(Stream(data), index.streams, index.blocks, levels, parts)
    && BlocksBefore(index.streams, |index.streams|) == |index.blocks|
  }

  lemma FlatPush(parts: seq<seq<Byte>>, part: seq<Byte>)
    ensures Flat(parts + [part]) == Flat(parts) + part
  {
    assert (parts + [part])[..|parts|] == parts;
  }

  lemma FlatPrefix(parts: seq<seq<Byte>>, i: nat)
    requires i < |parts|
    ensures Flat(parts[..i + 1]) == Flat(parts[..i]) + parts[i]
  {
    assert parts[..i + 1][..i] == parts[..i];
  }

  lemma {:induction false} FlatGrows(parts: seq<seq<Byte>>, i: nat, j: nat)
    requires i <= j <= |parts|
    ensures |Flat(parts[..i])| <= |Flat(parts[..j])| && Flat(parts[..j])[..|Flat(parts[..i])|] == Flat(parts[..i])
    decreases j
  {
    if i < j {
      FlatGrows(parts, i, j - 1);
      FlatPrefix(parts, j - 1);
    }
  }

  // ----- Consistency, as checked after loading -----

  /** Block records tile the decoded text in order. */
  predicate BlockFits(index: Index, i: nat)
    requires i < |index.blocks|
  {
    var b := index.blocks[i];
    && b.decodedStart == (if i == 0 then 0 else index.blocks[i - 1].decodedStart + index.blocks[i - 1].decodedLen) && b.decodedLen > 0
    && b.startBit < b.endBit <= 8 * index.sourceLen && b.stream < |index.streams|
    && (i > 0 ==> index.blocks[i - 1].startBit < b.startBit)
  }

  /** Stream records tile the blocks and the decoded text in order. */
  predicate StreamFits(index: Index, k: nat)
    requires k < |index.streams|
  {
    var t := index.streams[k];
    && 1 <= t.level <= 9 && t.firstBlock == BlocksBefore(index.streams, k) && t.eosBit <= 8 * index.sourceLen
    && t.decodedStart == (if k == 0 then 0 else index.streams[k - 1].decodedStart + index.streams[k - 1].decodedLen)
    && t.firstBlock + t.blockCount <= |index.blocks|
    && forall j :: t.firstBlock <= j < t.firstBlock + t.blockCount ==> index.blocks[j].stream == k
  }

  function DecodedBefore(index: Index, i: nat): nat
    requires i <= |index.blocks|
  {
    if i == 0 then 0 else index.blocks[i - 1].decodedStart + index.blocks[i - 1].decodedLen
  }

  function StreamsDecoded(index: Index, k: nat): nat
    requires k <= |index.streams|
  {
    if k == 0 then 0 else index.streams[k - 1].decodedStart + index.streams[k - 1].decodedLen
  }

  ghost predicate Consistent(index: Index)
  {
    && (forall i :: 0 <= i < |index.blocks| ==> BlockFits(index, i)) && DecodedBefore(index, |index.blocks|) == index.decodedLen
    && (forall k :: 0 <= k < |index.streams| ==> StreamFits(index, k))
    && BlocksBefore(index.streams, |index.streams|) == |index.blocks| && StreamsDecoded(index, |index.streams|) == index.decodedLen
  }

  method Validate(index: Index) returns (ok: bool)
    ensures ok <==> Consistent(index)
  {
    var decoded := 0;
    for i := 0 to |index.blocks|
      invariant decoded == DecodedBefore(index, i) && forall j :: 0 <= j < i ==> BlockFits(index, j)
    {
      var b := index.blocks[i];
      if b.decodedStart != decoded || b.decodedLen == 0 || b.startBit >= b.endBit || b.endBit > 8 * index.sourceLen || b.stream >= |index.streams| {
        assert !BlockFits(index, i);
        return false;
      }
      decoded := decoded + b.decodedLen;
      if i > 0 && index.blocks[i - 1].startBit >= b.startBit {
        assert !BlockFits(index, i);
        return false;
      }
    }
    if decoded != index.decodedLen {
      return false;
    }
    var firstBlock, streamDecoded := 0, 0;
    for k := 0 to |index.streams|
      invariant firstBlock == BlocksBefore(index.streams, k) && streamDecoded == StreamsDecoded(index, k)
      invariant forall j :: 0 <= j < k ==> StreamFits(index, j)
    {
      var t := index.streams[k];
      if !(1 <= t.level <= 9) || t.firstBlock != firstBlock || t.decodedStart != streamDecoded || t.eosBit > 8 * index.sourceLen {
        assert !StreamFits(index, k);
        return false;
      }
      var end := t.firstBlock + t.blockCount;
      if end > |index.blocks| {
        assert !StreamFits(index, k);
        return false;
      }
      for j := t.firstBlock to end
        invariant forall i :: t.firstBlock <= i < j ==> index.blocks[i].stream == k
      {
        if index.blocks[j].stream != k {
          assert !StreamFits(index, k);
          return false;
        }
      }
      firstBlock := end;
      streamDecoded := streamDecoded + t.decodedLen;
    }
    ok := firstBlock == |index.blocks| && streamDecoded == index.decodedLen;
  }

  /** An index that describes its source passes the checks. */
  lemma DescribesConsistent(index: Index, data: seq<Byte>, text: seq<Byte>, levels: seq<nat>, parts: seq<seq<Byte>>)
    requires Describes(index, data, text, levels, parts)
    ensures Consistent(index)
  {
    hide DecodesTo, Stream, Flat, Placed, StreamRow, BlockRow;
    StreamsInOrder(Stream(data), index.streams, index.blocks, levels, parts, |index.streams|);
    forall i | 0 <= i < |index.blocks| ensures BlockFits(index, i) && index.blocks[i].decodedStart + index.blocks[i].decodedLen == |Flat(parts[..i + 1])| {
      RowFits(index, Stream(data), levels, parts, i);
    }
    forall k | 0 <= k < |index.streams| ensures StreamFits(index, k) && index.streams[k].decodedStart + index.streams[k].decodedLen == |Flat(parts[..BlocksBefore(index.streams, k + 1)])| {
      StreamRowFits(index, Stream(data), levels, parts, k);
    }
    assert parts[..|parts|] == parts;
    FlatNothing();
    assert parts[..0] == [];
  }

  lemma FlatNothing()
    ensures Flat([]) == []
  {
  }

  /** Every block belongs to one of the streams. */
  lemma {:induction false} StreamsInOrder(s: seq<bool>, streams: seq<StreamIndex>, blocks: seq<BlockIndex>, levels: seq<nat>, parts: seq<seq<Byte>>, k: nat)
    requires StreamRows(s, streams, blocks, levels, parts) && k <= |streams|
    ensures BlocksBefore(streams, k) <= |blocks| && forall j :: 0 <= j < BlocksBefore(streams, k) ==> blocks[j].stream < k && levels[j] == streams[blocks[j].stream].level
  {
    hide Flat, Placed;
    if k > 0 {
      StreamsInOrder(s, streams, blocks, levels, parts, k - 1);
      assert StreamRow(s, streams, blocks, levels, parts, k - 1);
    }
  }

  lemma RowFacts(s: seq<bool>, blocks: seq<BlockIndex>, levels: seq<nat>, parts: seq<seq<Byte>>, i: nat)
    requires BlockRows(s, blocks, levels, parts) && i < |blocks|
    ensures |blocks| == |levels| == |parts| && blocks[i].startBit < blocks[i].endBit <= |s|
    ensures blocks[i].decodedStart == |Flat(parts[..i])| && blocks[i].decodedLen == |parts[i]| > 0
    ensures i > 0 ==> blocks[i - 1].startBit < blocks[i - 1].endBit <= blocks[i].startBit
    ensures blocks[i].decodedStart + blocks[i].decodedLen == |Flat(parts[..i + 1])|
  {
    hide DecodesTo, Flat;
    assert BlockRow(s, blocks, levels, parts, i);
    hide BlockRows;
    FlatPrefix(parts, i);
  }

  lemma RowFollows(s: seq<bool>, blocks: seq<BlockIndex>, levels: seq<nat>, parts: seq<seq<Byte>>, h: nat, i: nat)
    requires BlockRows(s, blocks, levels, parts) && h + 1 == i < |blocks|
    ensures blocks[i].decodedStart == blocks[h].decodedStart + blocks[h].decodedLen
  {
    hide *;
    RowFacts(s, blocks, levels, parts, h);
    RowFacts(s, blocks, levels, parts, i);
  }

  lemma StartsAfter(s: seq<bool>, blocks: seq<BlockIndex>, levels: seq<nat>, parts: seq<seq<Byte>>, i: nat)
    requires BlockRows(s, blocks, levels, parts) && i < |blocks|
    ensures blocks[i].decodedStart == if i == 0 then 0 else blocks[i - 1].decodedStart + blocks[i - 1].decodedLen
  {
    hide *;
    if i == 0 {
      RowFacts(s, blocks, levels, parts, i);
      RowFirst(parts, i);
    } else {
      RowFollows(s, blocks, levels, parts, i - 1, i);
    }
  }

  lemma RowFits(index: Index, s: seq<bool>, levels: seq<nat>, parts: seq<seq<Byte>>, i: nat)
    requires BlockRows(s, index.blocks, levels, parts) && i < |index.blocks| && |s| == 8 * index.sourceLen
    requires index.blocks[i].stream < |index.streams|
    ensures BlockFits(index, i) && |parts| == |index.blocks| && index.blocks[i].decodedStart + index.blocks[i].decodedLen == |Flat(parts[..i + 1])|
  {
    hide DecodesTo, Flat, BlockRow, BlockRows;
    RowFacts(s, index.blocks, levels, parts, i);
    StartsAfter(s, index.blocks, levels, parts, i);
  }

  lemma RowFirst(parts: seq<seq<Byte>>, i: nat)
    requires i == 0
    ensures |Flat(parts[..i])| == 0
  {
    assert parts[..0] == [];
  }

  lemma StreamRowFits(index: Index, s: seq<bool>, levels: seq<nat>, parts: seq<seq<Byte>>, k: nat)
    requires StreamRows(s, index.streams, index.blocks, levels, parts) && k < |index.streams| && |s| == 8 * index.sourceLen
    ensures StreamFits(index, k) && BlocksBefore(index.streams, k + 1) <= |parts|
    ensures index.streams[k].decodedStart + index.streams[k].decodedLen == |Flat(parts[..BlocksBefore(index.streams, k + 1)])|
  {
    hide Flat, Placed;
    assert StreamRow(s, index.streams, index.blocks, levels, parts, k);
    PlacedWithin(s, index.streams[k]);
    if k > 0 {
      assert StreamRow(s, index.streams, index.blocks, levels, parts, k - 1);
    } else {
      FlatNothing();
      assert parts[..0] == [];
    }
  }

  // ----- The file form -----

  /** `k` bytes, lowest first. */
  function LeBytes(n: nat, k: nat): (b: seq<Byte>)
    ensures |b| == k
  {
    if k == 0 then [] else [n % 256] + LeBytes(n / 256, k - 1)
  }

  lemma {:induction false} LeBack(n: nat, k: nat)
    requires n < Pow2(8 * k)
    ensures LsbStream.LittleEndian(LeBytes(n, k)) == n
  {
    hide Pow2, Shl;
    if k > 0 {
      Pow2Add(8, 8 * (k - 1));
      assert 8 + 8 * (k - 1) == 8 * k;
      Pow2Values();
      DivBound(n, Pow2(8 * (k - 1)));
      LeBack(n / 256, k - 1);
      assert LeBytes(n, k)[1..] == LeBytes(n / 256, k - 1);
      Eight(n / 256);
    } else {
      BelowOne(n, 8 * k);
    }
  }

  lemma BelowOne(n: nat, zero: nat)
    requires zero == 0 && n < Pow2(zero)
    ensures n == 0
  {
  }

  lemma DivBound(n: nat, p: nat)
    requires n < 256 * p
    ensures n / 256 < p
  {
  }

  lemma Eight(v: nat)
    ensures Shl(v, 8) == 256 * v
  {
    ShlIsTimes(v, 8);
    Pow2Values();
  }

  function ReadLe(data: seq<Byte>, at: nat, k: nat): (r: Option<nat>)
  {
    if at + k > |data| then None else Some(LsbStream.LittleEndian(data[at..at + k]))
  }

  lemma FieldBack(data: seq<Byte>, at: nat, n: nat, k: nat)
    requires n < Pow2(8 * k) && Has(data, at, LeBytes(n, k))
    ensures ReadLe(data, at, k) == Some(n)
  {
    LeBack(n, k);
  }

  const MAGIC: seq<Byte> := [0x46, 0x42, 0x5A, 0x32, 0x49, 0x44, 0x58, 0]
  const VERSION: nat := 1

  type Digest = f: seq<Byte> -> seq<Byte> | forall b :: |f(b)| == 32 witness (b: seq<Byte>) => seq(32, _ => 0)

  predicate Wide64(n: nat) { n < 0x1_0000_0000_0000_0000 }

  predicate Wide32(n: nat) { n < 0x1_0000_0000 }

  predicate StreamWide(t: StreamIndex)
  {
    Wide64(t.headerByte) && t.level < 256 && Wide64(t.firstBlock) && Wide64(t.blockCount) && Wide64(t.decodedStart) && Wide64(t.decodedLen)
    && Wide64(t.eosBit) && Wide32(t.expectedStreamCrc)
  }

  predicate BlockWide(b: BlockIndex)
  {
    Wide64(b.startBit) && Wide64(b.endBit) && Wide64(b.decodedStart) && Wide64(b.decodedLen) && Wide32(b.expectedCrc) && Wide64(b.stream)
  }

  /** Every field fits its width. */
  ghost predicate Wide(index: Index)
  {
    && Wide64(index.sourceLen) && |index.sourceHash| == 32 && Wide64(index.decodedLen) && Wide64(|index.streams|) && Wide64(|index.blocks|)
    && (forall k :: 0 <= k < |index.streams| ==> StreamWide(index.streams[k]))
    && forall i :: 0 <= i < |index.blocks| ==> BlockWide(index.blocks[i])
  }

  function StreamBytes(t: StreamIndex): (b: seq<Byte>)
    requires t.level < 256
    ensures |b| == 53
  {
    LeBytes(t.headerByte, 8) + (LeBytes(t.level, 1) + (LeBytes(t.firstBlock, 8) + (LeBytes(t.blockCount, 8) + (LeBytes(t.decodedStart, 8)
      + (LeBytes(t.decodedLen, 8) + (LeBytes(t.eosBit, 8) + LeBytes(t.expectedStreamCrc, 4)))))))
  }

  function BlockBytes(b: BlockIndex): (r: seq<Byte>)
    ensures |r| == 44
  {
    LeBytes(b.startBit, 8) + (LeBytes(b.endBit, 8) + (LeBytes(b.decodedStart, 8) + (LeBytes(b.decodedLen, 8) + (LeBytes(b.expectedCrc, 4) + LeBytes(b.stream, 8)))))
  }

  function StreamsBytes(streams: seq<StreamIndex>, k: nat): (b: seq<Byte>)
    requires k <= |streams| && forall i :: 0 <= i < |streams| ==> streams[i].level < 256
    ensures |b| == 53 * (|streams| - k)
    decreases |streams| - k
  {
    if k == |streams| then [] else StreamBytes(streams[k]) + StreamsBytes(streams, k + 1)
  }

  function BlocksBytes(blocks: seq<BlockIndex>, k: nat): (b: seq<Byte>)
    requires k <= |blocks|
    ensures |b| == 44 * (|blocks| - k)
    decreases |blocks| - k
  {
    if k == |blocks| then [] else BlockBytes(blocks[k]) + BlocksBytes(blocks, k + 1)
  }

  ghost predicate Levelled(streams: seq<StreamIndex>)
  {
    forall i :: 0 <= i < |streams| ==> streams[i].level < 256
  }

  ghost function HeadBytes(index: Index): seq<Byte>
  {
    MAGIC + (LeBytes(VERSION, 4) + (LeBytes(index.sourceLen, 8) + (index.sourceHash + (LeBytes(index.decodedLen, 8) + (LeBytes(|index.streams|, 8) + LeBytes(|index.blocks|, 8))))))
  }

  /** Everything before the checksum. */
  ghost function PayloadBytes(index: Index): seq<Byte>
    requires Levelled(index.streams)
  {
    HeadBytes(index) + (StreamsBytes(index.streams, 0) + BlocksBytes(index.blocks, 0))
  }

  method ToBytes(index: Index, blake3: Digest) returns (out: seq<Byte>)
    requires Levelled(index.streams)
    ensures out == PayloadBytes(index) + blake3(PayloadBytes(index))
  {
    hide HeadBytes, StreamsBytes, BlocksBytes;
    out := WriteHead(index);
    ghost var head := out;
    out := WriteStreams(out, index.streams);
    out := WriteBlocks(out, index.blocks);
    Regroup(head, StreamsBytes(index.streams, 0), BlocksBytes(index.blocks, 0));
    out := out + blake3(out);
  }

  method WriteHead(index: Index) returns (out: seq<Byte>)
    ensures out == HeadBytes(index)
  {
    hide LeBytes;
    out := MAGIC;
    out := out + LeBytes(VERSION, 4);
    out := out + LeBytes(index.sourceLen, 8);
    out := out + index.sourceHash;
    out := out + LeBytes(index.decodedLen, 8);
    out := out + LeBytes(|index.streams|, 8);
    out := out + LeBytes(|index.blocks|, 8);
    Regroup7(MAGIC, LeBytes(VERSION, 4), LeBytes(index.sourceLen, 8), index.sourceHash, LeBytes(index.decodedLen, 8), LeBytes(|index.streams|, 8), LeBytes(|index.blocks|, 8));
  }

  method WriteStreams(out: seq<Byte>, streams: seq<StreamIndex>) returns (r: seq<Byte>)
    requires Levelled(streams)
    ensures r == out + StreamsBytes(streams, 0)
  {
    hide LeBytes, StreamBytes;
    r := out;
    for k := 0 to |streams|
      invariant r + StreamsBytes(streams, k) == out + StreamsBytes(streams, 0)
    {
      Regroup(r, StreamBytes(streams[k]), StreamsBytes(streams, k + 1));
      r := r + StreamBytes(streams[k]);
    }
    assert r + [] == r;
  }

  method WriteBlocks(out: seq<Byte>, blocks: seq<BlockIndex>) returns (r: seq<Byte>)
    ensures r == out + BlocksBytes(blocks, 0)
  {
    hide LeBytes, BlockBytes;
    r := out;
    for k := 0 to |blocks|
      invariant r + BlocksBytes(blocks, k) == out + BlocksBytes(blocks, 0)
    {
      Regroup(r, BlockBytes(blocks[k]), BlocksBytes(blocks, k + 1));
      r := r + BlockBytes(blocks[k]);
    }
    assert r + [] == r;
  }

  lemma Regroup7<T>(a: seq<T>, b: seq<T>, c: seq<T>, d: seq<T>, e: seq<T>, f: seq<T>, g: seq<T>)
    ensures a + (b + (c + (d + (e + (f + g))))) == (((((a + b) + c) + d) + e) + f) + g
  {
    Regroup5(a, b, c, d, e, f + g);
    Regroup(a + b + c + d + e, f, g);
  }

  // ----- Reading it back -----

  function StreamAt(data: seq<Byte>, at: nat): StreamIndex
    requires at + 53 <= |data|
  {
    StreamIndex(ReadLe(data, at, 8).value, ReadLe(data, at + 8, 1).value, ReadLe(data, at + 9, 8).value, ReadLe(data, at + 17, 8).value,
                ReadLe(data, at + 25, 8).value, ReadLe(data, at + 33, 8).value, ReadLe(data, at + 41, 8).value, ReadLe(data, at + 49, 4).value)
  }

  function BlockAt(data: seq<Byte>, at: nat): BlockIndex
    requires at + 44 <= |data|
  {
    BlockIndex(ReadLe(data, at, 8).value, ReadLe(data, at + 8, 8).value, ReadLe(data, at + 16, 8).value, ReadLe(data, at + 24, 8).value,
               ReadLe(data, at + 32, 4).value, ReadLe(data, at + 36, 8).value)
  }

  function StreamsAt(data: seq<Byte>, at: nat, count: nat): (r: seq<StreamIndex>)
    requires at + 53 * count <= |data|
    ensures |r| == count && forall k :: 0 <= k < count ==> r[k] == StreamAt(data, at + 53 * k)
  {
    seq(count, k requires 0 <= k < count => StreamAt(data, at + 53 * k))
  }

  function BlocksAt(data: seq<Byte>, at: nat, count: nat): (r: seq<BlockIndex>)
    requires at + 44 * count <= |data|
    ensures |r| == count && forall k :: 0 <= k < count ==> r[k] == BlockAt(data, at + 44 * k)
  {
    seq(count, k requires 0 <= k < count => BlockAt(data, at + 44 * k))
  }

  class IndexReader {
    const data: seq<Byte>
    var pos: nat

    constructor (data: seq<Byte>)
      ensures this.data == data && pos == 0
    {
      this.data, pos := data, 0;
    }

    method Take(count: nat) returns (r: Option<seq<Byte>>)
      modifies this
      ensures r == if old(pos) + count > |data| then None else Some(data[old(pos)..old(pos) + count])
      ensures pos == if r.Some? then old(pos) + count else old(pos)
    {
      if pos + count > |data| {
        return None;
      }
      r := Some(data[pos..pos + count]);
      pos := pos + count;
    }

    method Number(count: nat) returns (r: Option<nat>)
      modifies this
      ensures r == ReadLe(data, old(pos), count)
      ensures pos == if r.Some? then old(pos) + count else old(pos)
    {
      var bytes := Take(count);
      if bytes.None? {
        return None;
      }
      r := Some(LsbStream.LittleEndian(bytes.value));
    }

    method ReadStream() returns (t: StreamIndex)
      requires pos + 53 <= |data|
      modifies this
      ensures t == StreamAt(data, old(pos)) && pos == old(pos) + 53
    {
      hide ReadLe;
      ghost var at := pos;
      Within(at, 53);
      var header := Number(8);
      var level := Number(1);
      var first := Number(8);
      var count := Number(8);
      var start := Number(8);
      var len := Number(8);
      var eos := Number(8);
      var crc := Number(4);
      t := StreamIndex(header.value, level.value, first.value, count.value, start.value, len.value, eos.value, crc.value);
    }

    method ReadBlock() returns (b: BlockIndex)
      requires pos + 44 <= |data|
      modifies this
      ensures b == BlockAt(data, old(pos)) && pos == old(pos) + 44
    {
      hide ReadLe;
      ghost var at := pos;
      Within(at, 44);
      var start := Number(8);
      var end := Number(8);
      var decodedStart := Number(8);
      var len := Number(8);
      var crc := Number(4);
      var stream := Number(8);
      b := BlockIndex(start.value, end.value, decodedStart.value, len.value, crc.value, stream.value);
    }

    lemma Within(at: nat, n: nat)
      requires at + n <= |data|
      ensures forall p: nat, k: nat :: p + k <= at + n ==> ReadLe(data, p, k).Some?
    {
    }
  }

  /** The index in a payload, for a source with this length and hash. */
  ghost function IndexIn(payload: seq<Byte>, sourceLen: nat, sourceHash: seq<Byte>): Option<Index>
  {
    if |payload| < 76 || payload[..8] != MAGIC || ReadLe(payload, 8, 4) != Some(VERSION) || ReadLe(payload, 12, 8) != Some(sourceLen)
       || payload[20..52] != sourceHash then None
    else
      var streams, blocks := ReadLe(payload, 60, 8).value, ReadLe(payload, 68, 8).value;
      if |payload| != 76 + streams * 53 + blocks * 44 then None
      else Some(Index(sourceLen, sourceHash, ReadLe(payload, 52, 8).value,
                      StreamsAt(payload, 76, streams), BlocksAt(payload, 76 + 53 * streams, blocks)))
  }

  /** A file is accepted exactly when its checksum is right, it belongs to the source, and its records are consistent. */
  method FromBytes(encoded: seq<Byte>, source: seq<Byte>, blake3: Digest) returns (r: Option<Index>)
    ensures r.Some? <==> |encoded| >= 32 && blake3(encoded[..|encoded| - 32]) == encoded[|encoded| - 32..]
                         && IndexIn(encoded[..|encoded| - 32], |source|, blake3(source)).Some?
                         && Consistent(IndexIn(encoded[..|encoded| - 32], |source|, blake3(source)).value)
    ensures r.Some? ==> r == IndexIn(encoded[..|encoded| - 32], |source|, blake3(source))
  {
    hide ReadLe, StreamsAt, BlocksAt, Consistent;
    if |encoded| < 32 {
      return None;
    }
    var payload, checksum := encoded[..|encoded| - 32], encoded[|encoded| - 32..];
    if blake3(payload) != checksum {
      return None;
    }
    var index := ReadPayload(payload, |source|, blake3(source));
    if index.None? {
      return None;
    }
    var ok := Validate(index.value);
    r := if ok then index else None;
  }

  method ReadPayload(payload: seq<Byte>, sourceLen: nat, sourceHash: seq<Byte>) returns (r: Option<Index>)
    requires |sourceHash| == 32
    ensures r == IndexIn(payload, sourceLen, sourceHash)
  {
    hide ReadLe, StreamsAt, BlocksAt;
    Whole(payload);
    var reader := new IndexReader(payload);
    var magic := reader.Take(8);
    if magic.None? || magic.value != MAGIC {
      return None;
    }
    var version := reader.Number(4);
    if version != Some(VERSION) {
      return None;
    }
    var length := reader.Number(8);
    if length.None? {
      return None;
    }
    var hash := reader.Take(32);
    if hash.None? {
      return None;
    }
    var decodedLen := reader.Number(8);
    if decodedLen.None? {
      return None;
    }
    var streamCount := reader.Number(8);
    if streamCount.None? {
      return None;
    }
    var blockCount := reader.Number(8);
    if blockCount.None? {
      return None;
    }
    if length.value != sourceLen || hash.value != sourceHash {
      return None;
    }
    if |payload| - reader.pos != streamCount.value * 53 + blockCount.value * 44 {
      return None;
    }
    var streams, blocks := ReadRows(reader, streamCount.value, blockCount.value);
    r := Some(Index(sourceLen, hash.value, decodedLen.value, streams, blocks));
  }

  lemma Whole(payload: seq<Byte>)
    ensures |payload| >= 8 ==> payload[0..8] == payload[..8]
    ensures forall p: nat, k: nat {:trigger ReadLe(payload, p, k)} :: ReadLe(payload, p, k).Some? <==> p + k <= |payload|
  {
  }

  method ReadRows(reader: IndexReader, streamCount: nat, blockCount: nat) returns (streams: seq<StreamIndex>, blocks: seq<BlockIndex>)
    requires |reader.data| == reader.pos + streamCount * 53 + blockCount * 44
    modifies reader
    ensures streams == StreamsAt(reader.data, old(reader.pos), streamCount)
    ensures blocks == BlocksAt(reader.data, old(reader.pos) + 53 * streamCount, blockCount)
  {
    hide StreamAt, BlockAt;
    ghost var at := reader.pos;
    streams, blocks := [], [];
    for k := 0 to streamCount
      invariant reader.pos == at + 53 * k && |streams| == k && forall i :: 0 <= i < k ==> streams[i] == StreamAt(reader.data, at + 53 * i)
    {
      var t := reader.ReadStream();
      streams := streams + [t];
    }
    for k := 0 to blockCount
      invariant reader.pos == at + 53 * streamCount + 44 * k && |blocks| == k
      invariant forall i :: 0 <= i < k ==> blocks[i] == BlockAt(reader.data, at + 53 * streamCount + 44 * i)
    {
      var b := reader.ReadBlock();
      blocks := blocks + [b];
    }
  }

  // ----- Round trip -----

  lemma Widths()
    ensures Pow2(8 * 1) == 0x100 && Pow2(8 * 4) == 0x1_0000_0000 && Pow2(8 * 8) == 0x1_0000_0000_0000_0000
  {
    Pow2Values();
    hide Pow2;
    Pow2Add(32, 32);
  }

  lemma StreamBack(data: seq<Byte>, at: nat, t: StreamIndex)
    requires StreamWide(t) && Has(data, at, StreamBytes(t))
    ensures at + 53 <= |data| && StreamAt(data, at) == t
  {
    hide Has, LeBytes, ReadLe, Pow2;
    Widths();
    HasEnd(data, at, StreamBytes(t));
    var h := LeBytes(t.expectedStreamCrc, 4);
    var g := LeBytes(t.eosBit, 8) + h;
    var f := LeBytes(t.decodedLen, 8) + g;
    var e := LeBytes(t.decodedStart, 8) + f;
    var d := LeBytes(t.blockCount, 8) + e;
    var c := LeBytes(t.firstBlock, 8) + d;
    HasSplit(data, at, LeBytes(t.headerByte, 8), LeBytes(t.level, 1) + c);
    HasSplit(data, at + 8, LeBytes(t.level, 1), c);
    HasSplit(data, at + 9, LeBytes(t.firstBlock, 8), d);
    HasSplit(data, at + 17, LeBytes(t.blockCount, 8), e);
    HasSplit(data, at + 25, LeBytes(t.decodedStart, 8), f);
    HasSplit(data, at + 33, LeBytes(t.decodedLen, 8), g);
    HasSplit(data, at + 41, LeBytes(t.eosBit, 8), h);
    FieldBack(data, at, t.headerByte, 8);
    FieldBack(data, at + 8, t.level, 1);
    FieldBack(data, at + 9, t.firstBlock, 8);
    FieldBack(data, at + 17, t.blockCount, 8);
    FieldBack(data, at + 25, t.decodedStart, 8);
    FieldBack(data, at + 33, t.decodedLen, 8);
    FieldBack(data, at + 41, t.eosBit, 8);
    FieldBack(data, at + 49, t.expectedStreamCrc, 4);
  }

  lemma BlockBack(data: seq<Byte>, at: nat, b: BlockIndex)
    requires BlockWide(b) && Has(data, at, BlockBytes(b))
    ensures at + 44 <= |data| && BlockAt(data, at) == b
  {
    hide Has, LeBytes, ReadLe, Pow2;
    Widths();
    HasEnd(data, at, BlockBytes(b));
    var f := LeBytes(b.expectedCrc, 4) + LeBytes(b.stream, 8);
    var e := LeBytes(b.decodedLen, 8) + f;
    var d := LeBytes(b.decodedStart, 8) + e;
    HasSplit(data, at, LeBytes(b.startBit, 8), LeBytes(b.endBit, 8) + d);
    HasSplit(data, at + 8, LeBytes(b.endBit, 8), d);
    HasSplit(data, at + 16, LeBytes(b.decodedStart, 8), e);
    HasSplit(data, at + 24, LeBytes(b.decodedLen, 8), f);
    HasSplit(data, at + 32, LeBytes(b.expectedCrc, 4), LeBytes(b.stream, 8));
    FieldBack(data, at, b.startBit, 8);
    FieldBack(data, at + 8, b.endBit, 8);
    FieldBack(data, at + 16, b.decodedStart, 8);
    FieldBack(data, at + 24, b.decodedLen, 8);
    FieldBack(data, at + 32, b.expectedCrc, 4);
    FieldBack(data, at + 36, b.stream, 8);
  }

  lemma {:induction false} StreamsBack(data: seq<Byte>, at: nat, streams: seq<StreamIndex>, k: nat)
    requires k <= |streams| && Levelled(streams) && (forall i :: 0 <= i < |streams| ==> StreamWide(streams[i]))
    requires Has(data, at, StreamsBytes(streams, k))
    ensures at + 53 * (|streams| - k) <= |data| && forall i :: k <= i < |streams| ==> StreamAt(data, at + 53 * (i - k)) == streams[i]
    decreases |streams| - k
  {
    hide Has, StreamAt, StreamBytes, StreamWide;
    HasEnd(data, at, StreamsBytes(streams, k));
    if k < |streams| {
      HasSplit(data, at, StreamBytes(streams[k]), StreamsBytes(streams, k + 1));
      StreamBack(data, at, streams[k]);
      StreamsBack(data, at + 53, streams, k + 1);
      forall i | k <= i < |streams| ensures StreamAt(data, at + 53 * (i - k)) == streams[i] {
        assert at + 53 * (i - k) == at + 53 + 53 * (i - (k + 1));
      }
    }
  }

  lemma {:induction false} BlocksBack(data: seq<Byte>, at: nat, blocks: seq<BlockIndex>, k: nat)
    requires k <= |blocks| && (forall i :: 0 <= i < |blocks| ==> BlockWide(blocks[i])) && Has(data, at, BlocksBytes(blocks, k))
    ensures at + 44 * (|blocks| - k) <= |data| && forall i :: k <= i < |blocks| ==> BlockAt(data, at + 44 * (i - k)) == blocks[i]
    decreases |blocks| - k
  {
    hide Has, BlockAt, BlockBytes, BlockWide;
    HasEnd(data, at, BlocksBytes(blocks, k));
    if k < |blocks| {
      HasSplit(data, at, BlockBytes(blocks[k]), BlocksBytes(blocks, k + 1));
      BlockBack(data, at, blocks[k]);
      BlocksBack(data, at + 44, blocks, k + 1);
      forall i | k <= i < |blocks| ensures BlockAt(data, at + 44 * (i - k)) == blocks[i] {
        assert at + 44 * (i - k) == at + 44 + 44 * (i - (k + 1));
      }
    }
  }

  lemma HeadBack(data: seq<Byte>, index: Index)
    requires Wide(index) && Has(data, 0, HeadBytes(index))
    ensures |data| >= 76 && data[..8] == MAGIC && ReadLe(data, 8, 4) == Some(VERSION) && ReadLe(data, 12, 8) == Some(index.sourceLen)
    ensures data[20..52] == index.sourceHash && ReadLe(data, 52, 8) == Some(index.decodedLen)
    ensures ReadLe(data, 60, 8) == Some(|index.streams|) && ReadLe(data, 68, 8) == Some(|index.blocks|)
  {
    hide Has, LeBytes, ReadLe, Pow2;
    Widths();
    HasEnd(data, 0, HeadBytes(index));
    var f := LeBytes(|index.streams|, 8) + LeBytes(|index.blocks|, 8);
    var e := LeBytes(index.decodedLen, 8) + f;
    var d := index.sourceHash + e;
    var c := LeBytes(index.sourceLen, 8) + d;
    HasSplit(data, 0, MAGIC, LeBytes(VERSION, 4) + c);
    HasSplit(data, 8, LeBytes(VERSION, 4), c);
    HasSplit(data, 12, LeBytes(index.sourceLen, 8), d);
    HasSplit(data, 20, index.sourceHash, e);
    HasSplit(data, 52, LeBytes(index.decodedLen, 8), f);
    HasSplit(data, 60, LeBytes(|index.streams|, 8), LeBytes(|index.blocks|, 8));
    HasSlice(data, 0, MAGIC);
    HasSlice(data, 20, index.sourceHash);
    assert data[0..8] == data[..8];
    FieldBack(data, 8, VERSION, 4);
    FieldBack(data, 12, index.sourceLen, 8);
    FieldBack(data, 52, index.decodedLen, 8);
    FieldBack(data, 60, |index.streams|, 8);
    FieldBack(data, 68, |index.blocks|, 8);
  }

  lemma WideLevelled(index: Index)
    requires Wide(index)
    ensures Levelled(index.streams)
  {
    forall i | 0 <= i < |index.streams| ensures index.streams[i].level < 256 {
      assert StreamWide(index.streams[i]);
    }
  }

  /** What is written is read back. */
  lemma PayloadBack(index: Index)
    requires Wide(index)
    ensures Levelled(index.streams) && IndexIn(PayloadBytes(index), index.sourceLen, index.sourceHash) == Some(index)
  {
    hide Has, ReadLe, StreamAt, BlockAt, HeadBytes, StreamsBytes, BlocksBytes;
    WideLevelled(index);
    var data, head, streams, blocks := PayloadBytes(index), HeadBytes(index), StreamsBytes(index.streams, 0), BlocksBytes(index.blocks, 0);
    HeadSize(index);
    HasJoin([], head, streams + blocks, data);
    HasJoin(head, streams, blocks, data) by { Regroup(head, streams, blocks); }
    Regroup(head, streams, blocks);
    HasJoin(head + streams, blocks, [], data);
    HeadBack(data, index);
    StreamsBack(data, 76, index.streams, 0);
    BlocksBack(data, 76 + 53 * |index.streams|, index.blocks, 0);
    assert StreamsAt(data, 76, |index.streams|) == index.streams;
    assert BlocksAt(data, 76 + 53 * |index.streams|, |index.blocks|) == index.blocks;
  }

  lemma HeadSize(index: Index)
    requires |index.sourceHash| == 32
    ensures |HeadBytes(index)| == 76
  {
    hide LeBytes;
  }

  /** A consistent index of a source survives saving and loading. */
  method SaveAndLoad(index: Index, source: seq<Byte>, blake3: Digest) returns (r: Option<Index>)
    requires Wide(index) && Consistent(index) && index.sourceLen == |source| && index.sourceHash == blake3(source)
    ensures r == Some(index)
  {
    hide Wide, Consistent, IndexIn, PayloadBytes;
    PayloadBack(index);
    var encoded := ToBytes(index, blake3);
    assert encoded[..|encoded| - 32] == PayloadBytes(index) && encoded[|encoded| - 32..] == blake3(PayloadBytes(index));
    r := FromBytes(encoded, source, blake3);
  }
}
