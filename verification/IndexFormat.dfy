/** Which indexes are consistent, and which bytes are index files: in both directions. */
module IndexFormat {
  import opened Bytes
  import opened Seqs
  import opened Sums
  import opened BitStream
  import opened Options
  import opened SeekIndex
  import LsbStream

  // ----- Tilings -----

  function Decoded(blocks: seq<BlockIndex>, i: nat): nat
    requires i <= |blocks|
  {
    if i == 0 then 0 else Decoded(blocks, i - 1) + blocks[i - 1].decodedLen
  }

  function StreamDecoded(streams: seq<StreamIndex>, k: nat): nat
    requires k <= |streams|
  {
    if k == 0 then 0 else StreamDecoded(streams, k - 1) + streams[k - 1].decodedLen
  }

  function Counted(streams: seq<StreamIndex>, k: nat): nat
    requires k <= |streams|
  {
    if k == 0 then 0 else Counted(streams, k - 1) + streams[k - 1].blockCount
  }

  /** A block lies in the source, starts where the ones before it end in the text, and is one of its stream's blocks. */
  ghost predicate BlockTiles(index: Index, i: nat)
    requires i < |index.blocks|
  {
    var b := index.blocks[i];
    && b.decodedLen > 0 && b.decodedStart == Decoded(index.blocks, i) && b.startBit < b.endBit <= 8 * index.sourceLen
    && b.stream < |index.streams| && index.streams[b.stream].firstBlock <= i < index.streams[b.stream].firstBlock + index.streams[b.stream].blockCount
  }

  ghost predicate StreamTiles(index: Index, k: nat)
    requires k < |index.streams|
  {
    var t := index.streams[k];
    1 <= t.level <= 9 && t.eosBit <= 8 * index.sourceLen && t.decodedStart == StreamDecoded(index.streams, k) && t.firstBlock == Counted(index.streams, k)
  }

  /** Blocks tile the text in the order of the source, streams tile the text and the blocks. */
  ghost predicate Tiles(index: Index)
  {
    && (forall i :: 0 <= i < |index.blocks| ==> BlockTiles(index, i)) && (forall k :: 0 <= k < |index.streams| ==> StreamTiles(index, k))
    && (forall i, j :: 0 <= i < j < |index.blocks| ==> index.blocks[i].startBit < index.blocks[j].startBit)
    && Decoded(index.blocks, |index.blocks|) == StreamDecoded(index.streams, |index.streams|) == index.decodedLen
    && Counted(index.streams, |index.streams|) == |index.blocks|
  }

  lemma {:induction false} CountsGrow(streams: seq<StreamIndex>, j: nat, k: nat)
    requires j <= k <= |streams|
    ensures Counted(streams, j) <= Counted(streams, k)
    decreases k
  {
    if j < k {
      CountsGrow(streams, j, k - 1);
    }
  }

  /** Every block is in one stream's range. */
  lemma {:induction false} OwnerOf(streams: seq<StreamIndex>, i: nat, k: nat) returns (m: nat)
    requires k <= |streams| && i < Counted(streams, k)
    ensures m < k && Counted(streams, m) <= i < Counted(streams, m) + streams[m].blockCount
    decreases k
  {
    if i < Counted(streams, k - 1) {
      m := OwnerOf(streams, i, k - 1);
    } else {
      m := k - 1;
    }
  }

  lemma {:induction false} OneOwner(streams: seq<StreamIndex>, i: nat, k: nat, m: nat)
    requires k < |streams| && Counted(streams, k) <= i < Counted(streams, k) + streams[k].blockCount
    requires m < |streams| && Counted(streams, m) <= i < Counted(streams, m) + streams[m].blockCount
    ensures k == m
  {
    if k < m { CountsGrow(streams, k + 1, m); }
    if m < k { CountsGrow(streams, m + 1, k); }
  }

  /** Up to stream `k`, the checks one after another are the sums. */
  lemma {:induction false} StreamsUpTo(index: Index, k: nat)
    requires k <= |index.streams| && (forall j :: 0 <= j < k ==> StreamFits(index, j) || StreamTiles(index, j))
    ensures BlocksBefore(index.streams, k) == Counted(index.streams, k) && StreamsDecoded(index, k) == StreamDecoded(index.streams, k)
    decreases k
  {
    if k > 0 {
      StreamsUpTo(index, k - 1);
      assert StreamFits(index, k - 1) || StreamTiles(index, k - 1);
    }
  }

  lemma {:induction false} BlocksUpTo(index: Index, i: nat)
    requires i <= |index.blocks| && (forall j :: 0 <= j < i ==> BlockFits(index, j) || BlockTiles(index, j))
    ensures DecodedBefore(index, i) == Decoded(index.blocks, i)
    decreases i
  {
    if i > 0 {
      BlocksUpTo(index, i - 1);
      assert BlockFits(index, i - 1) || BlockTiles(index, i - 1);
    }
  }

  lemma {:induction false} StartsRise(index: Index, i: nat, j: nat)
    requires i < j < |index.blocks| && forall h :: 0 <= h < |index.blocks| ==> BlockFits(index, h)
    ensures index.blocks[i].startBit < index.blocks[j].startBit
    decreases j
  {
    assert BlockFits(index, j);
    if i < j - 1 {
      StartsRise(index, i, j - 1);
    }
  }

  lemma FitsTile(index: Index)
    requires Consistent(index)
    ensures Tiles(index)
  {
    hide BlockFits, StreamFits, BlockTiles, StreamTiles;
    forall k | 0 <= k < |index.streams| ensures StreamTiles(index, k) && index.streams[k].firstBlock == Counted(index.streams, k) {
      StreamsUpTo(index, k);
      StreamFitTiles(index, k);
    }
    StreamsUpTo(index, |index.streams|);
    forall i | 0 <= i < |index.blocks| ensures BlockTiles(index, i) {
      BlocksUpTo(index, i);
      var m := OwnerOf(index.streams, i, |index.streams|);
      BlockFitTiles(index, i, m);
    }
    BlocksUpTo(index, |index.blocks|);
    forall i, j | 0 <= i < j < |index.blocks| ensures index.blocks[i].startBit < index.blocks[j].startBit {
      StartsRise(index, i, j);
    }
  }

  lemma StreamFitTiles(index: Index, k: nat)
    requires k < |index.streams| && StreamFits(index, k)
    requires BlocksBefore(index.streams, k) == Counted(index.streams, k) && StreamsDecoded(index, k) == StreamDecoded(index.streams, k)
    ensures StreamTiles(index, k) && index.streams[k].firstBlock == Counted(index.streams, k)
  {
  }

  lemma BlockFitTiles(index: Index, i: nat, m: nat)
    requires i < |index.blocks| && m < |index.streams| && BlockFits(index, i) && StreamFits(index, m) && DecodedBefore(index, i) == Decoded(index.blocks, i)
    requires index.streams[m].firstBlock <= i < index.streams[m].firstBlock + index.streams[m].blockCount
    ensures BlockTiles(index, i)
  {
  }

  lemma TilesFit(index: Index)
    requires Tiles(index)
    ensures Consistent(index)
  {
    hide BlockFits, StreamFits;
    forall k | 0 <= k < |index.streams| ensures StreamFits(index, k) {
      StreamsUpTo(index, k);
      CountsGrow(index.streams, k + 1, |index.streams|);
      forall j | index.streams[k].firstBlock <= j < index.streams[k].firstBlock + index.streams[k].blockCount ensures j < |index.blocks| && index.blocks[j].stream == k {
        assert StreamTiles(index, k) && BlockTiles(index, j);
        assert StreamTiles(index, index.blocks[j].stream);
        OneOwner(index.streams, j, k, index.blocks[j].stream);
      }
      StreamTileFits(index, k);
    }
    StreamsUpTo(index, |index.streams|);
    forall i | 0 <= i < |index.blocks| ensures BlockFits(index, i) {
      BlocksUpTo(index, i);
      BlockTileFits(index, i);
    }
    BlocksUpTo(index, |index.blocks|);
  }

  lemma StreamTileFits(index: Index, k: nat)
    requires k < |index.streams| && StreamTiles(index, k) && Counted(index.streams, k + 1) <= |index.blocks|
    requires BlocksBefore(index.streams, k) == Counted(index.streams, k) && StreamsDecoded(index, k) == StreamDecoded(index.streams, k)
    requires forall j :: index.streams[k].firstBlock <= j < index.streams[k].firstBlock + index.streams[k].blockCount ==> j < |index.blocks| && index.blocks[j].stream == k
    ensures StreamFits(index, k)
  {
  }

  lemma BlockTileFits(index: Index, i: nat)
    requires i < |index.blocks| && BlockTiles(index, i) && DecodedBefore(index, i) == Decoded(index.blocks, i)
    requires i > 0 ==> index.blocks[i - 1].startBit < index.blocks[i].startBit
    ensures BlockFits(index, i)
  {
  }

  /** The checks after loading accept exactly the indexes whose records tile. */
  lemma ConsistentExactly(index: Index)
    ensures Consistent(index) <==> Tiles(index)
  {
    hide Consistent, Tiles;
    if Consistent(index) { FitsTile(index); }
    if Tiles(index) { TilesFit(index); }
  }

  // ----- Files -----

  lemma {:induction false} LeValue(b: seq<Byte>)
    ensures LeBytes(LsbStream.LittleEndian(b), |b|) == b && LsbStream.LittleEndian(b) < Pow2(8 * |b|)
  {
    hide Pow2, Shl;
    if b == [] {
      Pow2Positive();
    } else {
      LeValue(b[1..]);
      var v := LsbStream.LittleEndian(b[1..]);
      Eight(v);
      assert (b[0] + 256 * v) / 256 == v && (b[0] + 256 * v) % 256 == b[0];
      assert 8 * |b| == 8 + 8 * (|b| - 1);
      Pow2Add(8, 8 * (|b| - 1));
      Pow2Values();
      ByteAbove(b[0], v, Pow2(8 * (|b| - 1)));
    }
  }

  lemma Pow2Positive()
    ensures Pow2(0) == 1
  {
  }

  lemma ByteAbove(b: Byte, v: nat, p: nat)
    requires v < p
    ensures b + 256 * v < 256 * p
  {
  }

  /** A number read is there, and fits its width. */
  lemma NumberOnly(data: seq<Byte>, at: nat, k: nat)
    requires ReadLe(data, at, k).Some?
    ensures Has(data, at, LeBytes(ReadLe(data, at, k).value, k)) && ReadLe(data, at, k).value < Pow2(8 * k)
  {
    hide LeBytes, LsbStream.LittleEndian, Pow2;
    LeValue(data[at..at + k]);
  }

  lemma NumberIn(data: seq<Byte>, at: nat, k: nat)
    requires at + k <= |data|
    ensures ReadLe(data, at, k).Some?
  {
  }

  lemma StreamOnly(data: seq<Byte>, at: nat)
    requires at + 53 <= |data|
    ensures StreamWide(StreamAt(data, at)) && Has(data, at, StreamBytes(StreamAt(data, at)))
  {
    hide Has, LeBytes, ReadLe, Pow2;
    Widths();
    forall p: nat, k: nat | p + k <= at + 53 ensures ReadLe(data, p, k).Some? { NumberIn(data, p, k); }
    NumberOnly(data, at, 8);
    NumberOnly(data, at + 8, 1);
    NumberOnly(data, at + 9, 8);
    NumberOnly(data, at + 17, 8);
    NumberOnly(data, at + 25, 8);
    NumberOnly(data, at + 33, 8);
    NumberOnly(data, at + 41, 8);
    NumberOnly(data, at + 49, 4);
    var t := StreamAt(data, at);
    var h := LeBytes(t.expectedStreamCrc, 4);
    var g := LeBytes(t.eosBit, 8) + h;
    var f := LeBytes(t.decodedLen, 8) + g;
    var e := LeBytes(t.decodedStart, 8) + f;
    var d := LeBytes(t.blockCount, 8) + e;
    var c := LeBytes(t.firstBlock, 8) + d;
    HasBoth(data, at + 41, LeBytes(t.eosBit, 8), h);
    HasBoth(data, at + 33, LeBytes(t.decodedLen, 8), g);
    HasBoth(data, at + 25, LeBytes(t.decodedStart, 8), f);
    HasBoth(data, at + 17, LeBytes(t.blockCount, 8), e);
    HasBoth(data, at + 9, LeBytes(t.firstBlock, 8), d);
    HasBoth(data, at + 8, LeBytes(t.level, 1), c);
    HasBoth(data, at, LeBytes(t.headerByte, 8), LeBytes(t.level, 1) + c);
  }

  lemma BlockOnly(data: seq<Byte>, at: nat)
    requires at + 44 <= |data|
    ensures BlockWide(BlockAt(data, at)) && Has(data, at, BlockBytes(BlockAt(data, at)))
  {
    hide Has, LeBytes, ReadLe, Pow2;
    Widths();
    forall p: nat, k: nat | p + k <= at + 44 ensures ReadLe(data, p, k).Some? { NumberIn(data, p, k); }
    NumberOnly(data, at, 8);
    NumberOnly(data, at + 8, 8);
    NumberOnly(data, at + 16, 8);
    NumberOnly(data, at + 24, 8);
    NumberOnly(data, at + 32, 4);
    NumberOnly(data, at + 36, 8);
    var b := BlockAt(data, at);
    var f := LeBytes(b.expectedCrc, 4) + LeBytes(b.stream, 8);
    var e := LeBytes(b.decodedLen, 8) + f;
    var d := LeBytes(b.decodedStart, 8) + e;
    HasBoth(data, at + 32, LeBytes(b.expectedCrc, 4), LeBytes(b.stream, 8));
    HasBoth(data, at + 24, LeBytes(b.decodedLen, 8), f);
    HasBoth(data, at + 16, LeBytes(b.decodedStart, 8), e);
    HasBoth(data, at + 8, LeBytes(b.endBit, 8), d);
    HasBoth(data, at, LeBytes(b.startBit, 8), LeBytes(b.endBit, 8) + d);
  }

  lemma {:induction false} StreamsOnly(data: seq<Byte>, at: nat, streams: seq<StreamIndex>, k: nat)
    requires k <= |streams| && at + 53 * (|streams| - k) <= |data| && Levelled(streams)
    requires forall i :: k <= i < |streams| ==> streams[i] == StreamAt(data, at + 53 * (i - k))
    ensures Has(data, at, StreamsBytes(streams, k))
    decreases |streams| - k
  {
    hide StreamAt, StreamBytes;
    if k < |streams| {
      StreamOnly(data, at);
      forall i | k + 1 <= i < |streams| ensures streams[i] == StreamAt(data, at + 53 + 53 * (i - (k + 1))) {
        assert at + 53 * (i - k) == at + 53 + 53 * (i - (k + 1));
      }
      StreamsOnly(data, at + 53, streams, k + 1);
      hide Has;
      HasBoth(data, at, StreamBytes(streams[k]), StreamsBytes(streams, k + 1));
    }
  }

  lemma {:induction false} BlocksOnly(data: seq<Byte>, at: nat, blocks: seq<BlockIndex>, k: nat)
    requires k <= |blocks| && at + 44 * (|blocks| - k) <= |data|
    requires forall i :: k <= i < |blocks| ==> blocks[i] == BlockAt(data, at + 44 * (i - k))
    ensures Has(data, at, BlocksBytes(blocks, k))
    decreases |blocks| - k
  {
    hide BlockAt, BlockBytes;
    if k < |blocks| {
      BlockOnly(data, at);
      forall i | k + 1 <= i < |blocks| ensures blocks[i] == BlockAt(data, at + 44 + 44 * (i - (k + 1))) {
        assert at + 44 * (i - k) == at + 44 + 44 * (i - (k + 1));
      }
      BlocksOnly(data, at + 44, blocks, k + 1);
      hide Has;
      HasBoth(data, at, BlockBytes(blocks[k]), BlocksBytes(blocks, k + 1));
    }
  }

  /** "FBZ2IDX", a zero byte and version 1 begin every file. */
  lemma FirstBytes(index: Index)
    ensures HeadBytes(index)[..12] == [0x46, 0x42, 0x5A, 0x32, 0x49, 0x44, 0x58, 0, 1, 0, 0, 0]
  {
    hide LeBytes;
    VersionBytes();
    var rest := LeBytes(index.sourceLen, 8) + (index.sourceHash + (LeBytes(index.decodedLen, 8) + (LeBytes(|index.streams|, 8) + LeBytes(|index.blocks|, 8))));
    Regroup(MAGIC, LeBytes(VERSION, 4), rest);
    assert (MAGIC + LeBytes(VERSION, 4) + rest)[..12] == MAGIC + LeBytes(VERSION, 4);
  }

  lemma VersionBytes()
    ensures LeBytes(VERSION, 4) == [1, 0, 0, 0]
  {
    assert LeBytes(1, 4) == [1] + LeBytes(0, 3);
    assert LeBytes(0, 3) == [0] + LeBytes(0, 2);
    assert LeBytes(0, 2) == [0] + LeBytes(0, 1);
  }

  /** Positions of the fields before the records. */
  lemma HeadOnly(payload: seq<Byte>, index: Index)
    requires |payload| >= 76 && |index.sourceHash| == 32
    requires payload[..8] == MAGIC && ReadLe(payload, 8, 4) == Some(VERSION) && ReadLe(payload, 12, 8) == Some(index.sourceLen) && payload[20..52] == index.sourceHash
    requires ReadLe(payload, 52, 8) == Some(index.decodedLen) && ReadLe(payload, 60, 8) == Some(|index.streams|) && ReadLe(payload, 68, 8) == Some(|index.blocks|)
    ensures Has(payload, 0, HeadBytes(index)) && Wide64(index.sourceLen) && Wide64(index.decodedLen) && Wide64(|index.streams|) && Wide64(|index.blocks|)
  {
    hide LeBytes, ReadLe, Pow2;
    Widths();
    assert payload[0..8] == payload[..8];
    NumberOnly(payload, 8, 4);
    NumberOnly(payload, 12, 8);
    NumberOnly(payload, 52, 8);
    NumberOnly(payload, 60, 8);
    NumberOnly(payload, 68, 8);
    HasSlices(payload);
    hide Has;
    var f := LeBytes(|index.streams|, 8) + LeBytes(|index.blocks|, 8);
    var e := LeBytes(index.decodedLen, 8) + f;
    var d := index.sourceHash + e;
    var c := LeBytes(index.sourceLen, 8) + d;
    HasBoth(payload, 60, LeBytes(|index.streams|, 8), LeBytes(|index.blocks|, 8));
    HasBoth(payload, 52, LeBytes(index.decodedLen, 8), f);
    HasBoth(payload, 20, index.sourceHash, e);
    HasBoth(payload, 12, LeBytes(index.sourceLen, 8), d);
    HasBoth(payload, 8, LeBytes(VERSION, 4), c);
    HasBoth(payload, 0, MAGIC, LeBytes(VERSION, 4) + c);
  }

  lemma HasSlices(payload: seq<Byte>)
    requires |payload| >= 76
    ensures Has(payload, 0, payload[..8]) && Has(payload, 20, payload[20..52])
  {
    assert payload[0..8] == payload[..8];
  }

  /** What is accepted as a payload is the payload of the index it gives. */
  lemma PayloadOnly(payload: seq<Byte>, sourceLen: nat, sourceHash: seq<Byte>)
    requires |sourceHash| == 32 && IndexIn(payload, sourceLen, sourceHash).Some?
    ensures var index := IndexIn(payload, sourceLen, sourceHash).value;
      Wide(index) && Levelled(index.streams) && payload == PayloadBytes(index) && index.sourceLen == sourceLen && index.sourceHash == sourceHash
  {
    hide ReadLe, HeadBytes, StreamsBytes, BlocksBytes, StreamAt, BlockAt;
    var index := IndexIn(payload, sourceLen, sourceHash).value;
    var m, n := |index.streams|, |index.blocks|;
    NumberIn(payload, 52, 8);
    NumberIn(payload, 60, 8);
    NumberIn(payload, 68, 8);
    HeadOnly(payload, index);
    forall k | 0 <= k < m ensures StreamWide(index.streams[k]) && index.streams[k].level < 256 { StreamOnly(payload, 76 + 53 * k); }
    forall i | 0 <= i < n ensures BlockWide(index.blocks[i]) { BlockOnly(payload, 76 + 53 * m + 44 * i); }
    StreamsOnly(payload, 76, index.streams, 0);
    BlocksOnly(payload, 76 + 53 * m, index.blocks, 0);
    HeadSize(index);
    Joined(payload, HeadBytes(index), StreamsBytes(index.streams, 0), BlocksBytes(index.blocks, 0), 76, 76 + 53 * m);
  }

  lemma HeadSize(index: Index)
    requires |index.sourceHash| == 32
    ensures |HeadBytes(index)| == 76
  {
    hide LeBytes;
  }

  lemma Joined(data: seq<Byte>, a: seq<Byte>, b: seq<Byte>, c: seq<Byte>, i: nat, j: nat)
    requires Has(data, 0, a) && Has(data, i, b) && Has(data, j, c) && i == |a| && j == i + |b| && |data| == j + |c|
    ensures data == a + (b + c)
  {
    HasBoth(data, i, b, c);
    HasBoth(data, 0, a, b + c);
    assert data[0..|data|] == data;
  }

  /** Reading accepts exactly the payloads written for indexes of the source whose fields fit their widths. */
  lemma PayloadExactly(payload: seq<Byte>, sourceLen: nat, sourceHash: seq<Byte>, index: Index)
    requires |sourceHash| == 32
    ensures IndexIn(payload, sourceLen, sourceHash) == Some(index) <==>
            Wide(index) && Levelled(index.streams) && payload == PayloadBytes(index) && index.sourceLen == sourceLen && index.sourceHash == sourceHash
  {
    hide IndexIn, Wide, PayloadBytes;
    if IndexIn(payload, sourceLen, sourceHash) == Some(index) {
      PayloadOnly(payload, sourceLen, sourceHash);
    }
    if Wide(index) && Levelled(index.streams) && payload == PayloadBytes(index) && index.sourceLen == sourceLen && index.sourceHash == sourceHash {
      PayloadBack(index);
    }
  }
}
