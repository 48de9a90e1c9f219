/** Which bytes are LZ4 frames, and of which data: every flag of the descriptor, in both directions. */
module Lz4Format {
  import opened Bytes
  import opened Seqs
  import opened Sums
  import opened Options
  import opened Lz4Block
  import opened Lz4Frame

  // ----- Numbers -----

  function Le32(n: nat): (b: seq<Byte>)
    requires n < 0x1_0000_0000
    ensures |b| == 4
  {
    [n % 256, n / 0x100 % 256, n / 0x1_0000 % 256, n / 0x100_0000]
  }

  lemma Le32Back(data: seq<Byte>, at: nat, n: nat)
    requires n < 0x1_0000_0000 && Has(data, at, Le32(n))
    ensures Read32(data, at) == Some(n)
  {
    var b := data[at..at + 4];
    assert b[0] == data[at] && b[1] == data[at + 1] && b[2] == data[at + 2] && b[3] == data[at + 3];
    assert n == n % 0x100 + 0x100 * (n / 0x100);
    assert n / 0x100 == n / 0x100 % 0x100 + 0x100 * (n / 0x1_0000);
    assert n / 0x1_0000 == n / 0x1_0000 % 0x100 + 0x100 * (n / 0x100_0000);
  }

  lemma Le32Only(data: seq<Byte>, at: nat)
    requires Read32(data, at).Some?
    ensures Read32(data, at).value < 0x1_0000_0000 && Has(data, at, Le32(Read32(data, at).value)) && at + 4 <= |data|
  {
    FourDigits(data[at], data[at + 1], data[at + 2], data[at + 3]);
    assert data[at..at + 4] == Le32(Read32(data, at).value);
  }

  lemma {:induction false} FourDigits(a: Byte, b: Byte, c: Byte, d: Byte)
    ensures var n := a as int + 0x100 * b as int + 0x1_0000 * c as int + 0x100_0000 * d as int;
      n < 0x1_0000_0000 && n % 256 == a as int && n / 0x100 % 256 == b as int && n / 0x1_0000 % 256 == c as int && n / 0x100_0000 == d as int
  {
    var n := a as int + 0x100 * b as int + 0x1_0000 * c as int + 0x100_0000 * d as int;
    assert n / 0x100 == b as int + 0x100 * c as int + 0x1_0000 * d as int;
    assert n / 0x1_0000 == c as int + 0x100 * d as int;
    assert n / 0x100_0000 == d as int;
  }

  function Le64(n: nat): (b: seq<Byte>)
    requires n < 0x1_0000_0000_0000_0000
    ensures |b| == 8
  {
    Le32(n % 0x1_0000_0000) + Le32(n / 0x1_0000_0000)
  }

  lemma Le64Back(data: seq<Byte>, at: nat, n: nat)
    requires n < 0x1_0000_0000_0000_0000 && Has(data, at, Le64(n))
    ensures Read64(data, at) == Some(n)
  {
    hide Has, Read32, Le32;
    var low, high := n % 0x1_0000_0000, n / 0x1_0000_0000;
    HasSplit(data, at, Le32(low), Le32(high));
    Le32Back(data, at, low);
    Le32Back(data, at + 4, high);
  }

  lemma Le64Only(data: seq<Byte>, at: nat)
    requires Read64(data, at).Some?
    ensures Read64(data, at).value < 0x1_0000_0000_0000_0000 && Has(data, at, Le64(Read64(data, at).value)) && at + 8 <= |data|
  {
    hide Has, Read32, Le32;
    Le32Only(data, at);
    Le32Only(data, at + 4);
    var low, high := Read32(data, at).value, Read32(data, at + 4).value;
    assert (low + 0x1_0000_0000 * high) % 0x1_0000_0000 == low && (low + 0x1_0000_0000 * high) / 0x1_0000_0000 == high;
    HasBoth(data, at, Le32(low), Le32(high));
  }

  // ----- The frame descriptor -----

  datatype Flags = Flags(independent: bool, blockChecksums: bool, contentSize: Option<nat>, contentChecksum: bool, sizeCode: nat)

  predicate Possible(f: Flags)
  {
    4 <= f.sizeCode <= 7 && (f.contentSize.Some? ==> f.contentSize.value < 0x1_0000_0000_0000_0000)
  }

  /** Blocks hold at most 64 KiB, 256 KiB, 1 MiB or 4 MiB. */
  function Largest(f: Flags): (n: nat)
    requires Possible(f)
    ensures 65536 <= n <= 4194304
  {
    hide Pow2;
    LargestValues();
    Pow2(8 + 2 * f.sizeCode)
  }

  lemma LargestValues()
    ensures Pow2(16) == 65536 && Pow2(18) == 262144 && Pow2(20) == 1048576 && Pow2(22) == 4194304
  {
    Pow2Values();
    assert Pow2(17) == 2 * Pow2(16) && Pow2(19) == 2 * Pow2(18) && Pow2(21) == 2 * Pow2(20);
  }

  function Mark(b: bool, weight: nat): nat
  {
    if b then weight else 0
  }

  /** Version 1 in the two high bits, then block mode, block checksums, content size and content checksum. */
  function FlagByte(f: Flags): Byte
  {
    64 + Mark(f.independent, 32) + Mark(f.blockChecksums, 16) + Mark(f.contentSize.Some?, 8) + Mark(f.contentChecksum, 4)
  }

  function FirstBytes(f: Flags): (b: seq<Byte>)
    requires Possible(f)
    ensures |b| == 2
  {
    [FlagByte(f), 16 * f.sizeCode]
  }

  function SizeBytes(f: Flags): seq<Byte>
    requires Possible(f)
  {
    if f.contentSize.Some? then Le64(f.contentSize.value) else []
  }

  function DescriptorBytes(f: Flags): (d: seq<Byte>)
    requires Possible(f)
  {
    FirstBytes(f) + SizeBytes(f)
  }

  /** The second byte of the descriptor's hash. */
  function CheckByte(d: seq<Byte>, xxh: Hash): Byte
  {
    Hash32(xxh, d) / 256 % 256
  }

  /** The magic number, the descriptor and its check byte. */
  function HeaderBytes(f: Flags, xxh: Hash): seq<Byte>
    requires Possible(f)
  {
    [0x04, 0x22, 0x4D, 0x18] + (DescriptorBytes(f) + [CheckByte(DescriptorBytes(f), xxh)])
  }

  function HeaderFor(f: Flags, start: nat): FrameHeader
    requires Possible(f)
  {
    FrameHeader(start + 7 + (if f.contentSize.Some? then 8 else 0), Largest(f), f.independent, f.blockChecksums, f.contentChecksum, f.contentSize)
  }

  lemma MagicBytes()
    ensures Le32(FRAME_MAGIC) == [0x04, 0x22, 0x4D, 0x18]
  {
  }

  lemma FlagBits(f: Flags)
    ensures var b := FlagByte(f) as int;
      b / 64 == 1 && b / 32 % 2 == Mark(f.independent, 1) && b / 16 % 2 == Mark(f.blockChecksums, 1) && b / 8 % 2 == Mark(f.contentSize.Some?, 1)
      && b / 4 % 2 == Mark(f.contentChecksum, 1) && b / 2 % 2 == 0 && b % 2 == 0
  {
  }

  lemma {:induction false} FlagBitsOnly(b: Byte, f: Flags)
    requires b / 64 == 1 && b / 2 % 2 == 0 && b % 2 == 0
    requires f.independent == (b / 32 % 2 == 1) && f.blockChecksums == (b / 16 % 2 == 1) && f.contentSize.Some? == (b / 8 % 2 == 1) && f.contentChecksum == (b / 4 % 2 == 1)
    ensures FlagByte(f) == b
  {
    Digits(b);
  }

  lemma Digits(b: Byte)
    ensures var n := b as int; n == 64 * (n / 64) + 32 * (n / 32 % 2) + 16 * (n / 16 % 2) + 8 * (n / 8 % 2) + 4 * (n / 4 % 2) + 2 * (n / 2 % 2) + n % 2
  {
    LowDigits(b);
    LowDigits(b as int / 8);
    Eighths(b);
  }

  lemma LowDigits(n: nat)
    ensures n == 8 * (n / 8) + 4 * (n / 4 % 2) + 2 * (n / 2 % 2) + n % 2
  {
    OneDigit(n);
    OneDigit(n / 2);
    OneDigit(n / 4);
    Halves(n);
  }

  lemma OneDigit(n: nat)
    ensures n == 2 * (n / 2) + n % 2
  {
  }

  lemma Halves(n: nat)
    ensures n / 2 / 2 == n / 4 && n / 4 / 2 == n / 8
  {
  }

  lemma Eighths(n: nat)
    ensures n / 8 / 2 == n / 16 && n / 8 / 4 == n / 32 && n / 8 / 8 == n / 64
  {
  }

  lemma LargestIs(f: Flags)
    requires Possible(f)
    ensures MaxBlockSize(f.sizeCode) == Some(Largest(f))
  {
    hide Pow2;
    LargestValues();
  }

  /** The header of any frame reads back as its flags. */
  lemma HeaderBack(data: seq<Byte>, at: nat, f: Flags, xxh: Hash)
    requires Possible(f) && Has(data, at, HeaderBytes(f, xxh))
    ensures Read32(data, at) == Some(FRAME_MAGIC) && HeaderAt(data, at, xxh) == Some(HeaderFor(f, at))
    ensures HeaderFor(f, at).blocksStart == at + |HeaderBytes(f, xxh)| <= |data|
  {
    hide Has, Read32, Read64, Le32, Le64, FlagByte, Largest, MaxBlockSize, CheckByte, Hash32;
    var d, check := DescriptorBytes(f), CheckByte(DescriptorBytes(f), xxh);
    MagicBytes();
    HasSplit(data, at, Le32(FRAME_MAGIC), d + [check]);
    Le32Back(data, at, FRAME_MAGIC);
    HasSplit(data, at + 4, d, [check]);
    HasSlice(data, at + 4, d);
    HasSlice(data, at + 4 + |d|, [check]);
    HasSplit(data, at + 4, FirstBytes(f), SizeBytes(f));
    HasSlice(data, at + 4, FirstBytes(f));
    assert data[at + 4..at + 6][0] == data[at + 4] && data[at + 4..at + 6][1] == data[at + 5];
    assert data[at + 4 + |d|..at + 5 + |d|][0] == data[at + 4 + |d|];
    FlagBits(f);
    LargestIs(f);
    if f.contentSize.Some? {
      Le64Back(data, at + 6, f.contentSize.value);
    }
    CheckIs(d, xxh);
  }

  lemma CheckIs(d: seq<Byte>, xxh: Hash)
    ensures CheckByte(d, xxh) as int == Hash32(xxh, d) / 256 % 256
  {
  }

  function FlagsAt(data: seq<Byte>, at: nat, header: FrameHeader): Flags
    requires at + 5 < |data|
  {
    Flags(header.independent, header.blockChecksums, header.contentSize, header.contentChecksum, data[at + 5] as int / 16)
  }

  /** Whatever is accepted as a header is the header of its flags. */
  lemma HeaderOnly(data: seq<Byte>, at: nat, xxh: Hash) returns (f: Flags)
    requires Read32(data, at) == Some(FRAME_MAGIC) && HeaderAt(data, at, xxh).Some?
    ensures Possible(f) && Has(data, at, HeaderBytes(f, xxh)) && HeaderAt(data, at, xxh) == Some(HeaderFor(f, at))
  {
    hide Has, Read32, Read64, Le32, Le64, FlagByte, Largest, CheckByte, Hash32, MaxBlockSize;
    var header := HeaderAt(data, at, xxh).value;
    f := FlagsAt(data, at, header);
    var position := at + 6 + if f.contentSize.Some? then 8 else 0;
    SizeCodeOnly(data[at + 5]);
    if f.contentSize.Some? {
      Le64Only(data, at + 6);
    }
    LargestIs(f);
    FlagBitsOnly(data[at + 4], f);
    MagicBytes();
    Le32Only(data, at);
    var d := DescriptorBytes(f);
    assert data[at + 4..at + 6] == FirstBytes(f);
    HasPart(data, at + 4, at + 6);
    if f.contentSize.Some? {
      HasBoth(data, at + 4, FirstBytes(f), SizeBytes(f));
    } else {
      assert FirstBytes(f) + SizeBytes(f) == FirstBytes(f);
    }
    HasSlice(data, at + 4, d);
    CheckIs(d, xxh);
    assert data[position..position + 1] == [CheckByte(d, xxh)];
    HasPart(data, position, position + 1);
    HasBoth(data, at + 4, d, [CheckByte(d, xxh)]);
    HasBoth(data, at, Le32(FRAME_MAGIC), d + [CheckByte(d, xxh)]);
  }

  lemma HasPart<T>(data: seq<T>, i: nat, j: nat)
    requires i <= j <= |data|
    ensures Has(data, i, data[i..j])
  {
  }

  lemma SizeCodeOnly(bd: Byte)
    requires bd % 16 == 0 && bd / 128 == 0 && MaxBlockSize(bd / 16 % 8).Some?
    ensures 4 <= bd / 16 <= 7 && bd / 16 % 8 == bd / 16 && bd as int == 16 * (bd as int / 16)
  {
  }

  // ----- Blocks -----

  /** A block as written, and the data it stands for. */
  datatype FrameBlock = FrameBlock(bytes: seq<Byte>, stored: bool, plain: seq<Byte>)

  function BlockWord(b: FrameBlock): (n: nat)
    requires |b.bytes| < 0x8000_0000
    ensures n < 0x1_0000_0000
  {
    |b.bytes| + Mark(b.stored, 0x8000_0000)
  }

  /** Its size, the high bit set if it is stored; its bytes; and their hash if the frame has block checksums. */
  function WrittenBlock(b: FrameBlock, f: Flags, xxh: Hash): seq<Byte>
    requires |b.bytes| < 0x8000_0000
  {
    Le32(BlockWord(b)) + (b.bytes + if f.blockChecksums then Le32(Hash32(xxh, b.bytes)) else [])
  }

  /** The block stands for its data, with the frame's data before it as history if the frame is linked. */
  ghost predicate Stands(b: FrameBlock, f: Flags, before: seq<Byte>)
    requires Possible(f)
  {
    && 1 <= |b.bytes| <= Largest(f)
    && if b.stored then b.plain == b.bytes else Decompressed(b.bytes, 0, if f.independent then [] else before, [], Largest(f)) == Some(b.plain)
  }

  ghost predicate AllStand(blocks: seq<FrameBlock>, f: Flags, before: seq<Byte>)
    requires Possible(f)
  {
    blocks == [] || (Stands(blocks[0], f, before) && AllStand(blocks[1..], f, before + blocks[0].plain))
  }

  function Plains(blocks: seq<FrameBlock>): seq<Byte>
  {
    if blocks == [] then [] else blocks[0].plain + Plains(blocks[1..])
  }

  ghost predicate Sized(blocks: seq<FrameBlock>)
  {
    forall i :: 0 <= i < |blocks| ==> |blocks[i].bytes| < 0x8000_0000
  }

  ghost function WrittenBlocks(blocks: seq<FrameBlock>, f: Flags, xxh: Hash): seq<Byte>
    requires Sized(blocks)
    decreases |blocks|
  {
    if blocks == [] then Le32(0) else WrittenBlock(blocks[0], f, xxh) + WrittenBlocks(blocks[1..], f, xxh)
  }

  /** What is reported of each block: where its bytes are and where its data goes. */
  ghost function Infos(blocks: seq<FrameBlock>, f: Flags, frame: nat, at: nat, decoded: nat): seq<BlockInfo>
    decreases |blocks|
  {
    if blocks == [] then [] else
      var b := blocks[0];
      [BlockInfo(frame, at + 4, at + 4 + |b.bytes|, decoded, |b.plain|, b.stored)]
      + Infos(blocks[1..], f, frame, at + 4 + |b.bytes| + Mark(f.blockChecksums, 4), decoded + |b.plain|)
  }

  function LayoutOf(b: FrameBlock, f: Flags, at: nat, xxh: Hash): BlockLayout
  {
    BlockLayout(at + 4, at + 4 + |b.bytes|, b.stored, if f.blockChecksums then Some(Hash32(xxh, b.bytes)) else None)
  }

  lemma WordParts(b: FrameBlock)
    requires 1 <= |b.bytes| < 0x8000_0000
    ensures BlockWord(b) != 0 && BlockWord(b) / 0x8000_0000 == Mark(b.stored, 1) && BlockWord(b) % 0x8000_0000 == |b.bytes|
  {
  }

  /** A written block reads back as its layout and decodes to its data. */
  lemma BlockBack(data: seq<Byte>, at: nat, b: FrameBlock, f: Flags, start: nat, before: seq<Byte>, xxh: Hash)
    requires Possible(f) && Stands(b, f, before) && |b.bytes| < 0x8000_0000 && Has(data, at, WrittenBlock(b, f, xxh))
    ensures at + |WrittenBlock(b, f, xxh)| <= |data|
    ensures NextBlock(data, at, HeaderFor(f, start)) == Block(LayoutOf(b, f, at, xxh), at + |WrittenBlock(b, f, xxh)|)
    ensures Within(data, LayoutOf(b, f, at, xxh))
    ensures BlockBytes(data, LayoutOf(b, f, at, xxh), if f.independent then [] else before, Largest(f), xxh) == Some(b.plain)
  {
    hide Has, Read32, Le32, Decompressed, Largest, Hash32, BlockWord;
    var check := if f.blockChecksums then Le32(Hash32(xxh, b.bytes)) else [];
    HasEnd(data, at, WrittenBlock(b, f, xxh));
    HasSplit(data, at, Le32(BlockWord(b)), b.bytes + check);
    HasSplit(data, at + 4, b.bytes, check);
    Le32Back(data, at, BlockWord(b));
    HasSlice(data, at + 4, b.bytes);
    WordParts(b);
    if f.blockChecksums {
      Le32Back(data, at + 4 + |b.bytes|, Hash32(xxh, b.bytes));
    }
  }

  /** Whatever is accepted as a block is a written block. */
  lemma BlockOnly(data: seq<Byte>, at: nat, f: Flags, start: nat, before: seq<Byte>, xxh: Hash) returns (b: FrameBlock)
    requires Possible(f) && NextBlock(data, at, HeaderFor(f, start)).Block?
    requires BlockBytes(data, NextBlock(data, at, HeaderFor(f, start)).layout, if f.independent then [] else before, Largest(f), xxh).Some?
    ensures Stands(b, f, before) && |b.bytes| < 0x8000_0000 && Has(data, at, WrittenBlock(b, f, xxh))
    ensures NextBlock(data, at, HeaderFor(f, start)) == Block(LayoutOf(b, f, at, xxh), at + |WrittenBlock(b, f, xxh)|)
    ensures BlockBytes(data, LayoutOf(b, f, at, xxh), if f.independent then [] else before, Largest(f), xxh) == Some(b.plain)
  {
    hide Has, Read32, Le32, Decompressed, Largest, Hash32;
    var next := NextBlock(data, at, HeaderFor(f, start));
    var layout := next.layout;
    var bytes := data[layout.start..layout.end];
    b := FrameBlock(bytes, layout.stored, BlockBytes(data, layout, if f.independent then [] else before, Largest(f), xxh).value);
    Le32Only(data, at);
    HasPart(data, layout.start, layout.end);
    assert BlockWord(b) == Read32(data, at).value;
    if f.blockChecksums {
      Le32Only(data, layout.end);
      HasBoth(data, at + 4, bytes, Le32(Hash32(xxh, bytes)));
      HasBoth(data, at, Le32(BlockWord(b)), bytes + Le32(Hash32(xxh, bytes)));
    } else {
      assert bytes + [] == bytes;
      HasBoth(data, at, Le32(BlockWord(b)), bytes);
    }
  }

  /** What a frame's blocks add to the output and to the report. */
  ghost function Grown(out: Output, blocks: seq<FrameBlock>, f: Flags, at: nat): Output
  {
    Output(out.frameNumber, out.base, out.content + Plains(blocks), out.blocks + Infos(blocks, f, out.frameNumber, at, |out.base| + |out.content|))
  }

  lemma GrownStep(out: Output, blocks: seq<FrameBlock>, f: Flags, at: nat, next: nat, xxh: Hash)
    requires blocks != [] && |blocks[0].bytes| < 0x8000_0000 && next == at + |WrittenBlock(blocks[0], f, xxh)|
    ensures Grown(out.Push(LayoutOf(blocks[0], f, at, xxh), blocks[0].plain), blocks[1..], f, next) == Grown(out, blocks, f, at)
  {
    hide Le32;
    Regroup(out.content, blocks[0].plain, Plains(blocks[1..]));
    var decoded := |out.base| + |out.content|;
    Regroup(out.blocks, [BlockInfo(out.frameNumber, at + 4, at + 4 + |blocks[0].bytes|, decoded, |blocks[0].plain|, blocks[0].stored)],
            Infos(blocks[1..], f, out.frameNumber, next, decoded + |blocks[0].plain|));
  }

  lemma GrownNothing(out: Output, f: Flags, at: nat)
    ensures Grown(out, [], f, at) == out
  {
    assert out.content + [] == out.content && out.blocks + [] == out.blocks;
  }

  /** Where a frame's blocks are read, and what comes of it. */
  ghost function BlocksAt(data: seq<Byte>, at: nat, f: Flags, start: nat, xxh: Hash, out: Output): Blocks
    requires Possible(f)
  {
    BlocksFrom(data, at, HeaderFor(f, start), xxh, out)
  }

  lemma BlocksEnd(data: seq<Byte>, at: nat, f: Flags, start: nat, xxh: Hash, out: Output)
    requires Possible(f) && Has(data, at, Le32(0))
    ensures at + 4 <= |data| && BlocksAt(data, at, f, start, xxh, out) == Blocks(out, at + 4)
  {
    hide Has, Read32, Le32, Largest;
    HasEnd(data, at, Le32(0));
    Le32Back(data, at, 0);
  }

  lemma BlocksMore(data: seq<Byte>, at: nat, f: Flags, start: nat, xxh: Hash, out: Output, layout: BlockLayout, next: nat, plain: seq<Byte>)
    requires Possible(f) && NextBlock(data, at, HeaderFor(f, start)) == Block(layout, next)
    requires Within(data, layout) && BlockBytes(data, layout, if f.independent then [] else out.content, Largest(f), xxh) == Some(plain)
    ensures BlocksAt(data, at, f, start, xxh, out) == BlocksAt(data, next, f, start, xxh, out.Push(layout, plain))
  {
    hide NextBlock, BlockBytes, Largest;
  }

  /** A frame's blocks decode to their data, in the order written. */
  lemma {:induction false} BlocksBack(data: seq<Byte>, at: nat, blocks: seq<FrameBlock>, f: Flags, start: nat, xxh: Hash, out: Output)
    requires Possible(f) && Sized(blocks) && AllStand(blocks, f, out.content) && Has(data, at, WrittenBlocks(blocks, f, xxh))
    ensures BlocksAt(data, at, f, start, xxh, out) == Blocks(Grown(out, blocks, f, at), at + |WrittenBlocks(blocks, f, xxh)|)
    decreases |blocks|
  {
    hide Has, Le32, BlocksAt, WrittenBlock, Stands, Grown, BlockBytes, NextBlock, LayoutOf, Possible, HeaderFor;
    if blocks == [] {
      BlocksEnd(data, at, f, start, xxh, out);
      GrownNothing(out, f, at);
    } else {
      var b := blocks[0];
      var next, pushed := at + |WrittenBlock(b, f, xxh)|, out.Push(LayoutOf(b, f, at, xxh), b.plain);
      HasSplit(data, at, WrittenBlock(b, f, xxh), WrittenBlocks(blocks[1..], f, xxh));
      BlockBack(data, at, b, f, start, out.content, xxh);
      BlocksMore(data, at, f, start, xxh, out, LayoutOf(b, f, at, xxh), next, b.plain);
      BlocksBack(data, next, blocks[1..], f, start, xxh, pushed);
      GrownStep(out, blocks, f, at, next, xxh);
    }
  }

  lemma EndOnly(data: seq<Byte>, at: nat, header: FrameHeader)
    requires NextBlock(data, at, header).End?
    ensures Has(data, at, Le32(0)) && NextBlock(data, at, header) == End(at + 4)
  {
    hide Has, Read32, Le32;
    Le32Only(data, at);
  }

  lemma LastBlock(data: seq<Byte>, at: nat, f: Flags, start: nat, xxh: Hash, out: Output) returns (ended: bool)
    requires Possible(f) && BlocksAt(data, at, f, start, xxh, out).Blocks?
    ensures ended ==> NextBlock(data, at, HeaderFor(f, start)).End? && BlocksAt(data, at, f, start, xxh, out) == Blocks(out, NextBlock(data, at, HeaderFor(f, start)).at)
    ensures !ended ==> NextBlock(data, at, HeaderFor(f, start)).Block?
    ensures !ended ==> BlockBytes(data, NextBlock(data, at, HeaderFor(f, start)).layout, if f.independent then [] else out.content, Largest(f), xxh).Some?
  {
    hide NextBlock, BlockBytes, Largest;
    ended := NextBlock(data, at, HeaderFor(f, start)).End?;
  }

  /** Whatever is accepted as a frame's blocks is written blocks and the end mark. */
  lemma {:induction false} BlocksOnly(data: seq<Byte>, at: nat, f: Flags, start: nat, xxh: Hash, out: Output) returns (blocks: seq<FrameBlock>)
    requires Possible(f) && BlocksAt(data, at, f, start, xxh, out).Blocks?
    ensures Sized(blocks) && AllStand(blocks, f, out.content) && Has(data, at, WrittenBlocks(blocks, f, xxh))
    ensures BlocksAt(data, at, f, start, xxh, out) == Blocks(Grown(out, blocks, f, at), at + |WrittenBlocks(blocks, f, xxh)|)
    decreases |data| - at
  {
    hide Has, Le32, BlocksAt, WrittenBlock, Stands, Grown, BlockBytes, NextBlock, LayoutOf, Possible, HeaderFor;
    var ended := LastBlock(data, at, f, start, xxh, out);
    if ended {
      blocks := [];
      EndOnly(data, at, HeaderFor(f, start));
      GrownNothing(out, f, at);
    } else {
      var b := BlockOnly(data, at, f, start, out.content, xxh);
      var next, pushed := at + |WrittenBlock(b, f, xxh)|, out.Push(LayoutOf(b, f, at, xxh), b.plain);
      BlocksMore(data, at, f, start, xxh, out, LayoutOf(b, f, at, xxh), next, b.plain);
      var rest := BlocksOnly(data, next, f, start, xxh, pushed);
      blocks := [b] + rest;
      assert blocks[1..] == rest;
      HasBoth(data, at, WrittenBlock(b, f, xxh), WrittenBlocks(rest, f, xxh));
      GrownStep(out, blocks, f, at, next, xxh);
    }
  }

  // ----- Frames -----

  /** A frame, or skippable bytes under one of sixteen magic numbers. */
  datatype Part = Frame(flags: Flags, blocks: seq<FrameBlock>) | Skipped(kind: nat, payload: seq<Byte>)

  /** A frame's blocks stand for their data, and a declared size is the size of all of it. */
  ghost predicate Sound(p: Part)
  {
    match p
    case Frame(f, blocks) =>
      Possible(f) && Sized(blocks) && AllStand(blocks, f, []) && (f.contentSize.Some? ==> f.contentSize.value == |Plains(blocks)|)
    case Skipped(kind, payload) => kind < 16 && |payload| < 0x1_0000_0000
  }

  function TrailerBytes(f: Flags, content: seq<Byte>, xxh: Hash): seq<Byte>
  {
    if f.contentChecksum then Le32(Hash32(xxh, content)) else []
  }

  ghost function PartBytes(p: Part, xxh: Hash): seq<Byte>
    requires Sound(p)
  {
    match p
    case Frame(f, blocks) => HeaderBytes(f, xxh) + (WrittenBlocks(blocks, f, xxh) + TrailerBytes(f, Plains(blocks), xxh))
    case Skipped(kind, payload) => SkippedBytes(kind, payload)
  }

  function SkippedBytes(kind: nat, payload: seq<Byte>): seq<Byte>
    requires kind < 16 && |payload| < 0x1_0000_0000
  {
    [0x50 + kind, 0x2A, 0x4D, 0x18] + (Le32(|payload|) + payload)
  }

  /** The report with the part added: a frame's data after the data so far, and where everything is. */
  ghost function WithPart(p: Part, at: nat, xxh: Hash, r: Report): Report
    requires Sound(p)
  {
    match p
    case Frame(f, blocks) =>
      Report(r.output + Plains(blocks),
             r.frames + [FrameInfo(at, at + |PartBytes(p, xxh)|, |r.output|, |Plains(blocks)|, HeaderFor(f, at), |r.blocks|, |blocks|)],
             r.blocks + Infos(blocks, f, |r.frames|, at + |HeaderBytes(f, xxh)|, |r.output|))
    case Skipped(_, _) => r
  }

  lemma {:induction false} InfosCount(blocks: seq<FrameBlock>, f: Flags, frame: nat, at: nat, decoded: nat)
    ensures |Infos(blocks, f, frame, at, decoded)| == |blocks|
    decreases |blocks|
  {
    if blocks != [] {
      InfosCount(blocks[1..], f, frame, at + 4 + |blocks[0].bytes| + Mark(f.blockChecksums, 4), decoded + |blocks[0].plain|);
    }
  }

  /** What the two readers of a frame give, put together. */
  lemma FrameIs(data: seq<Byte>, at: nat, f: Flags, blocks: seq<FrameBlock>, xxh: Hash, r: Report, end: nat)
    requires Sound(Frame(f, blocks)) && HeaderAt(data, at, xxh) == Some(HeaderFor(f, at)) && HeaderFor(f, at).blocksStart == at + |HeaderBytes(f, xxh)|
    requires var out := Output(|r.frames|, r.output, [], r.blocks); var from := at + |HeaderBytes(f, xxh)|;
      BlocksAt(data, from, f, at, xxh, out) == Blocks(Grown(out, blocks, f, from), end)
    requires TrailerAt(data, end, HeaderFor(f, at), Plains(blocks), xxh) == Some(at + |PartBytes(Frame(f, blocks), xxh)|)
    ensures FrameAt(data, at, xxh, r) == Some((WithPart(Frame(f, blocks), at, xxh, r), at + |PartBytes(Frame(f, blocks), xxh)|))
  {
    hide HeaderAt, BlocksFrom, TrailerAt, HeaderFor, HeaderBytes, Possible, AllStand, Sized, PartBytes, Infos;
    InfosCount(blocks, f, |r.frames|, at + |HeaderBytes(f, xxh)|, |r.output|);
    assert [] + Plains(blocks) == Plains(blocks);
  }

  lemma TrailerBack(data: seq<Byte>, at: nat, f: Flags, start: nat, content: seq<Byte>, xxh: Hash)
    requires Possible(f) && (f.contentSize.Some? ==> f.contentSize.value == |content|) && Has(data, at, TrailerBytes(f, content, xxh))
    ensures TrailerAt(data, at, HeaderFor(f, start), content, xxh) == Some(at + |TrailerBytes(f, content, xxh)|)
  {
    hide Has, Read32, Le32, Largest;
    if f.contentChecksum {
      Le32Back(data, at, Hash32(xxh, content));
    }
  }

  lemma FrameBack(data: seq<Byte>, at: nat, f: Flags, blocks: seq<FrameBlock>, xxh: Hash, r: Report)
    requires Sound(Frame(f, blocks)) && Has(data, at, PartBytes(Frame(f, blocks), xxh))
    ensures Read32(data, at) == Some(FRAME_MAGIC)
    ensures FrameAt(data, at, xxh, r) == Some((WithPart(Frame(f, blocks), at, xxh, r), at + |PartBytes(Frame(f, blocks), xxh)|))
  {
    hide Has, HeaderBytes, WrittenBlocks, TrailerBytes, BlocksAt, Grown, Read32, HeaderAt, HeaderFor, FrameAt, WithPart, TrailerAt, Possible, AllStand, Sized;
    var head, body, tail := HeaderBytes(f, xxh), WrittenBlocks(blocks, f, xxh), TrailerBytes(f, Plains(blocks), xxh);
    HasSplit(data, at, head, body + tail);
    HasSplit(data, at + |head|, body, tail);
    HeaderBack(data, at, f, xxh);
    BlocksBack(data, at + |head|, blocks, f, at, xxh, Output(|r.frames|, r.output, [], r.blocks));
    TrailerBack(data, at + |head| + |body|, f, at, Plains(blocks), xxh);
    FrameIs(data, at, f, blocks, xxh, r, at + |head| + |body|);
  }

  lemma TrailerOnly(data: seq<Byte>, at: nat, f: Flags, start: nat, content: seq<Byte>, xxh: Hash)
    requires Possible(f) && at <= |data| && TrailerAt(data, at, HeaderFor(f, start), content, xxh).Some?
    ensures (f.contentSize.Some? ==> f.contentSize.value == |content|) && Has(data, at, TrailerBytes(f, content, xxh))
    ensures TrailerAt(data, at, HeaderFor(f, start), content, xxh) == Some(at + |TrailerBytes(f, content, xxh)|)
  {
    hide Read32, Le32, Largest;
    if f.contentChecksum {
      hide Has;
      Le32Only(data, at);
    }
  }

  /** What an accepted frame consists of. */
  lemma FrameParts(data: seq<Byte>, at: nat, f: Flags, xxh: Hash, r: Report)
    requires Possible(f) && HeaderAt(data, at, xxh) == Some(HeaderFor(f, at)) && FrameAt(data, at, xxh, r).Some?
    ensures var blocks := BlocksAt(data, HeaderFor(f, at).blocksStart, f, at, xxh, Output(|r.frames|, r.output, [], r.blocks));
      blocks.Blocks? && blocks.at <= |data| && TrailerAt(data, blocks.at, HeaderFor(f, at), blocks.output.content, xxh).Some?
  {
    hide HeaderAt, BlocksFrom, TrailerAt, HeaderFor, Possible;
  }

  /** Whatever is accepted as a frame is one. */
  lemma FrameOnly(data: seq<Byte>, at: nat, xxh: Hash, r: Report) returns (p: Part)
    requires Read32(data, at) == Some(FRAME_MAGIC) && FrameAt(data, at, xxh, r).Some?
    ensures Sound(p) && p.Frame? && Has(data, at, PartBytes(p, xxh))
    ensures FrameAt(data, at, xxh, r) == Some((WithPart(p, at, xxh, r), at + |PartBytes(p, xxh)|))
  {
    hide Has, HeaderBytes, WrittenBlocks, TrailerBytes, BlocksAt, Read32, HeaderAt, HeaderFor, WithPart, TrailerAt, Possible, AllStand, Sized, BlocksFrom, Infos;
    assert HeaderAt(data, at, xxh).Some?;
    hide FrameAt;
    var f := HeaderOnly(data, at, xxh);
    FrameParts(data, at, f, xxh, r);
    var head, out := HeaderBytes(f, xxh), Output(|r.frames|, r.output, [], r.blocks);
    HeaderBack(data, at, f, xxh);
    var blocks := BlocksOnly(data, at + |head|, f, at, xxh, out);
    var body, tail := WrittenBlocks(blocks, f, xxh), TrailerBytes(f, Plains(blocks), xxh);
    assert [] + Plains(blocks) == Plains(blocks);
    TrailerOnly(data, at + |head| + |body|, f, at, Plains(blocks), xxh);
    HasBoth(data, at + |head|, body, tail);
    HasBoth(data, at, head, body + tail);
    p := Frame(f, blocks);
    FrameIs(data, at, f, blocks, xxh, r, at + |head| + |body|);
  }

  lemma SkippedBack(data: seq<Byte>, at: nat, kind: nat, payload: seq<Byte>)
    requires kind < 16 && |payload| < 0x1_0000_0000 && Has(data, at, SkippedBytes(kind, payload))
    ensures Read32(data, at) == Some(0x184D_2A50 + kind) && SkippedAt(data, at) == Some(at + |SkippedBytes(kind, payload)|)
  {
    hide Has, Read32;
    SkipMagic(kind);
    HasSplit(data, at, Le32(0x184D_2A50 + kind), Le32(|payload|) + payload);
    HasSplit(data, at + 4, Le32(|payload|), payload);
    HasEnd(data, at + 8, payload);
    hide Le32;
    Le32Back(data, at, 0x184D_2A50 + kind);
    Le32Back(data, at + 4, |payload|);
  }

  lemma SkipMagic(kind: nat)
    requires kind < 16
    ensures Le32(0x184D_2A50 + kind) == [0x50 + kind, 0x2A, 0x4D, 0x18]
  {
  }

  lemma SkippedOnly(data: seq<Byte>, at: nat, kind: nat) returns (payload: seq<Byte>)
    requires kind < 16 && Read32(data, at) == Some(0x184D_2A50 + kind) && SkippedAt(data, at).Some?
    ensures |payload| < 0x1_0000_0000 && Has(data, at, SkippedBytes(kind, payload)) && SkippedAt(data, at) == Some(at + |SkippedBytes(kind, payload)|)
  {
    hide Has, Read32, Le32;
    SkipMagic(kind);
    Le32Only(data, at);
    Le32Only(data, at + 4);
    var end := SkippedAt(data, at).value;
    payload := data[at + 8..end];
    HasPart(data, at + 8, end);
    HasBoth(data, at + 4, Le32(|payload|), payload);
    HasBoth(data, at, Le32(0x184D_2A50 + kind), Le32(|payload|) + payload);
  }

  // ----- Whole inputs -----

  ghost predicate AllSound(parts: seq<Part>)
  {
    forall i :: 0 <= i < |parts| ==> Sound(parts[i])
  }

  ghost function PartsBytes(parts: seq<Part>, xxh: Hash): seq<Byte>
    requires AllSound(parts)
  {
    if parts == [] then [] else
      assert Sound(parts[0]);
      PartBytes(parts[0], xxh) + PartsBytes(parts[1..], xxh)
  }

  /** The report of the parts, from position `at` on. */
  ghost function Told(parts: seq<Part>, at: nat, xxh: Hash, r: Report): Report
    requires AllSound(parts)
    decreases |parts|
  {
    if parts == [] then r else
      assert Sound(parts[0]);
      Told(parts[1..], at + |PartBytes(parts[0], xxh)|, xxh, WithPart(parts[0], at, xxh, r))
  }

  lemma FramesStep(data: seq<Byte>, at: nat, p: Part, xxh: Hash, r: Report)
    requires Sound(p) && Has(data, at, PartBytes(p, xxh))
    ensures at < at + |PartBytes(p, xxh)| <= |data|
    ensures FramesFrom(data, at, xxh, r) == FramesFrom(data, at + |PartBytes(p, xxh)|, xxh, WithPart(p, at, xxh, r))
  {
    hide Has, FrameAt, Read32, SkippedAt, HeaderBytes, WrittenBlocks, TrailerBytes, HeaderFor, Possible, AllStand, Sized, SkippedBytes, Infos;
    HasEnd(data, at, PartBytes(p, xxh));
    match p
    case Frame(f, blocks) => FrameBack(data, at, f, blocks, xxh, r);
    case Skipped(kind, payload) => SkippedBack(data, at, kind, payload);
  }

  lemma ToldStep(parts: seq<Part>, at: nat, xxh: Hash, r: Report)
    requires AllSound(parts) && parts != []
    ensures Sound(parts[0]) && AllSound(parts[1..]) && PartsBytes(parts, xxh) == PartBytes(parts[0], xxh) + PartsBytes(parts[1..], xxh)
    ensures Told(parts, at, xxh, r) == Told(parts[1..], at + |PartBytes(parts[0], xxh)|, xxh, WithPart(parts[0], at, xxh, r))
  {
    hide Sound, PartBytes, WithPart;
  }

  lemma FramesEnd(data: seq<Byte>, xxh: Hash, r: Report)
    ensures FramesFrom(data, |data|, xxh, r) == if r.frames == [] then None else Some(r)
  {
  }

  lemma ToldNothing(xxh: Hash, at: nat, r: Report)
    ensures PartsBytes([], xxh) == [] && Told([], at, xxh, r) == r
  {
  }

  /** Concatenated frames and skippable parts give the report they tell. */
  lemma {:induction false} PartsBack(data: seq<Byte>, at: nat, parts: seq<Part>, xxh: Hash, r: Report)
    requires AllSound(parts) && Has(data, at, PartsBytes(parts, xxh)) && |data| == at + |PartsBytes(parts, xxh)|
    ensures FramesFrom(data, at, xxh, r) == if Told(parts, at, xxh, r).frames == [] then None else Some(Told(parts, at, xxh, r))
    decreases |parts|
  {
    hide Has, Sound, PartBytes, WithPart, Told, PartsBytes, AllSound, FramesFrom;
    if parts == [] {
      ToldNothing(xxh, at, r);
      FramesEnd(data, xxh, r);
    } else {
      var p := parts[0];
      ToldStep(parts, at, xxh, r);
      HasSplit(data, at, PartBytes(p, xxh), PartsBytes(parts[1..], xxh));
      FramesStep(data, at, p, xxh, r);
      PartsBack(data, at + |PartBytes(p, xxh)|, parts[1..], xxh, WithPart(p, at, xxh, r));
    }
  }

  lemma PartOnly(data: seq<Byte>, at: nat, xxh: Hash, r: Report) returns (p: Part)
    requires at < |data| && FramesFrom(data, at, xxh, r).Some?
    ensures Sound(p) && Has(data, at, PartBytes(p, xxh))
  {
    hide Has, FrameAt, Read32, SkippedAt, HeaderBytes, WrittenBlocks, TrailerBytes, HeaderFor, Possible, AllStand, Sized, SkippedBytes, Infos, WithPart;
    var magic := Read32(data, at).value;
    if Skippable(magic) {
      var payload := SkippedOnly(data, at, magic - 0x184D_2A50);
      p := Skipped(magic - 0x184D_2A50, payload);
    } else {
      p := FrameOnly(data, at, xxh, r);
    }
  }

  lemma {:induction false} PartsOnly(data: seq<Byte>, at: nat, xxh: Hash, r: Report) returns (parts: seq<Part>)
    requires at <= |data| && FramesFrom(data, at, xxh, r).Some?
    ensures AllSound(parts) && Has(data, at, PartsBytes(parts, xxh)) && |data| == at + |PartsBytes(parts, xxh)|
    decreases |data| - at
  {
    hide Has, Sound, PartBytes, WithPart, FramesFrom;
    if at == |data| {
      parts := [];
      NothingHas(data);
    } else {
      var p := PartOnly(data, at, xxh, r);
      FramesStep(data, at, p, xxh, r);
      var rest := PartsOnly(data, at + |PartBytes(p, xxh)|, xxh, WithPart(p, at, xxh, r));
      parts := [p] + rest;
      assert parts[1..] == rest;
      HasBoth(data, at, PartBytes(p, xxh), PartsBytes(rest, xxh));
    }
  }

  lemma NothingHas<T>(data: seq<T>)
    ensures Has(data, |data|, [])
  {
  }

  /** The decoder accepts exactly the concatenations of frames and skippable parts, with a frame at least, and reports what they tell. */
  lemma FramesExactly(data: seq<Byte>, xxh: Hash, report: Report)
    ensures FramesFrom(data, 0, xxh, Report([], [], [])) == Some(report) <==>
            exists parts :: AllSound(parts) && data == PartsBytes(parts, xxh) && report == Told(parts, 0, xxh, Report([], [], [])) && report.frames != []
  {
    hide FramesFrom, Told, AllSound, PartsBytes;
    var empty := Report([], [], []);
    if FramesFrom(data, 0, xxh, empty) == Some(report) {
      var parts := PartsOnly(data, 0, xxh, empty);
      HasSlice(data, 0, PartsBytes(parts, xxh));
      assert data[0..|data|] == data;
      PartsBack(data, 0, parts, xxh, empty);
    }
    forall parts | AllSound(parts) && data == PartsBytes(parts, xxh) && report == Told(parts, 0, xxh, empty) && report.frames != []
      ensures FramesFrom(data, 0, xxh, empty) == Some(report)
    {
      HasJoin([], data, [], data) by { assert [] + data + [] == data; }
      PartsBack(data, 0, parts, xxh, empty);
    }
  }
}
