/** The bzip2 stream: what a compressed stream is, and the serial decoder. */
module Bzip2Stream {
  import opened Bytes
  import opened Seqs
  import opened Sums
  import opened BitStream
  import opened BitReading
  import opened Options
  import opened Rle1
  import opened BlockCodec
  import Crc

  const END_MAGIC: nat := 0x1772_4538_5090

  const CRC: Checksum := b => Crc.Bz2Crc32(b)

  // ----- The written form -----

  function Header(level: nat): (h: seq<Byte>)
    requires level <= 9
    ensures |h| == 4
  {
    [0x42, 0x5A, 0x68, 0x30 + level]
  }

  function Concat(chunks: seq<seq<bool>>): seq<bool>
  {
    if chunks == [] then [] else Concat(chunks[..|chunks| - 1]) + chunks[|chunks| - 1]
  }

  /** The magic and a body that decodes to the plain bytes of a run-length coded block. */
  ghost predicate IsBlock(chunk: seq<bool>, level: nat, block: seq<Byte>)
  {
    exists body :: chunk == BitsOf(BLOCK_MAGIC, 48) + body && Encodes(body, level, block, CRC)
  }

  function Combined(blocks: seq<seq<Byte>>): (v: nat)
    ensures v < 0x1_0000_0000
  {
    if blocks == [] then 0 else Crc.Combine(Combined(blocks[..|blocks| - 1]), CRC(Plain(blocks[|blocks| - 1])))
  }

  function PlainAll(blocks: seq<seq<Byte>>): seq<Byte>
  {
    if blocks == [] then [] else PlainAll(blocks[..|blocks| - 1]) + Plain(blocks[|blocks| - 1])
  }

  function Trailer(combined: nat): (b: seq<bool>)
    ensures |b| == 80
  {
    BitsOf(END_MAGIC, 48) + BitsOf(combined, 32)
  }

  ghost predicate AreBlocks(chunks: seq<seq<bool>>, level: nat, blocks: seq<seq<Byte>>)
  {
    |chunks| == |blocks| && forall i :: 0 <= i < |chunks| ==> IsBlock(chunks[i], level, blocks[i])
  }

  /** A header, blocks that decode to `plain`, their combined checksum, and zero bits up to a whole byte. */
  ghost predicate IsStream(bits: seq<bool>, level: nat, plain: seq<Byte>, chunks: seq<seq<bool>>, blocks: seq<seq<Byte>>, pad: nat)
  {
    && 1 <= level <= 9 && AreBlocks(chunks, level, blocks) && PlainAll(blocks) == plain
    && pad < 8 && |bits| % 8 == 0
    && bits == Stream(Header(level)) + (Concat(chunks) + (Trailer(Combined(blocks)) + Zeros(pad)))
  }

  // ----- The parsed form -----

  /** The blocks of one stream up to its end marker and checksum. */
  ghost function ParseBlocks(s: seq<bool>, at: nat, level: nat, combined: nat, out: seq<Byte>): (p: Parse<seq<Byte>>)
    requires at <= |s|
    ensures p.Parsed? ==> at <= p.at <= |s|
    decreases |s| - at
  {
    var magic := ReadBits(s, at, 48);
    if magic.Failed? then Failed(magic.error)
    else if magic.value == BLOCK_MAGIC then
      var block := ParseBlock(s, magic.at, level, None, CRC);
      if block.Failed? then Failed(block.error)
      else ParseBlocks(s, block.at, level, Crc.Combine(combined, block.value.crc), out + block.value.output)
    else if magic.value == END_MAGIC then
      var stored := ReadBits(s, magic.at, 32);
      if stored.Failed? then Failed(stored.error)
      else if stored.value != combined then Failed(CrcMismatch)
      else Parsed(out, stored.at)
    else Failed(InvalidMagic)
  }

  function Aligned(at: nat): (a: nat)
    ensures a % 8 == 0 && at <= a < at + 8
  {
    (at + 7) / 8 * 8
  }

  lemma AlignedWithin(at: nat, n: nat)
    requires at <= n && n % 8 == 0
    ensures Aligned(at) <= n && (at % 8 == 0 ==> Aligned(at) == at)
  {
  }

  lemma AlignedUnique(at: nat, a: nat)
    requires at <= a < at + 8 && a % 8 == 0
    ensures Aligned(at) == a
  {
  }

  /** The level named by a header. */
  function ParseHeader(s: seq<bool>, at: nat): (p: Parse<nat>)
    ensures p.Parsed? ==> p.at == at + 32 <= |s| && 1 <= p.value <= 9
  {
    if at + 32 > |s| then Failed(Truncated)
    else if ValueOf(s[at..at + 8]) != 0x42 || ValueOf(s[at + 8..at + 16]) != 0x5A || ValueOf(s[at + 16..at + 24]) != 0x68 then Failed(InvalidMagic)
    else
      var level := ValueOf(s[at + 24..at + 32]);
      if 0x31 <= level <= 0x39 then Parsed(level - 0x30, at + 32) else Failed(InvalidLevel)
  }

  /** Streams one after another, each starting at a whole byte, until the input is used up. */
  ghost function ParseStreams(s: seq<bool>, at: nat, out: seq<Byte>): (p: Parse<seq<Byte>>)
    requires at <= |s| && |s| % 8 == 0
    decreases |s| - at
  {
    hide ParseHeader, ParseBlocks, Aligned;
    if at == |s| then Parsed(out, at) else
      AlignedWithin(at, |s|);
      var header := ParseHeader(s, Aligned(at));
      if header.Failed? then Failed(header.error) else
        var blocks := ParseBlocks(s, header.at, header.value, 0, out);
        if blocks.Failed? then Failed(blocks.error) else
          AlignedWithin(blocks.at, |s|);
          ParseStreams(s, Aligned(blocks.at), blocks.value)
  }

  // ----- Round trip -----

  lemma {:induction false} ConcatFront(chunks: seq<seq<bool>>)
    requires chunks != []
    ensures Concat(chunks) == chunks[0] + Concat(chunks[1..])
  {
    var n := |chunks| - 1;
    if n == 0 {
      assert chunks[..0] == [] && chunks[1..] == [];
    } else {
      ConcatFront(chunks[..n]);
      assert chunks[..n][1..] == chunks[1..][..n - 1];
    }
  }

  lemma PushBlock(blocks: seq<seq<Byte>>, block: seq<Byte>)
    ensures Combined(blocks + [block]) == Crc.Combine(Combined(blocks), CRC(Plain(block)))
    ensures PlainAll(blocks + [block]) == PlainAll(blocks) + Plain(block)
  {
    assert (blocks + [block])[..|blocks|] == blocks;
  }

  lemma PushChunk(chunks: seq<seq<bool>>, chunk: seq<bool>)
    ensures Concat(chunks + [chunk]) == Concat(chunks) + chunk
  {
    assert (chunks + [chunk])[..|chunks|] == chunks;
  }

  lemma Magics()
    ensures BLOCK_MAGIC < Pow2(48) && END_MAGIC < Pow2(48)
  {
    Pow2Values();
    Pow2Add(24, 24);
  }

  lemma BlockStep(s: seq<bool>, at: nat, level: nat, combined: nat, out: seq<Byte>, chunk: seq<bool>, block: seq<Byte>)
    requires IsBlock(chunk, level, block) && Has(s, at, chunk)
    ensures at + |chunk| <= |s|
    ensures ParseBlocks(s, at, level, combined, out) ==
            ParseBlocks(s, at + |chunk|, level, Crc.Combine(combined, CRC(Plain(block))), out + Plain(block))
  {
    hide ParseBlock, Plain, BitsOf, Pow2, CRC;
    var body :| chunk == BitsOf(BLOCK_MAGIC, 48) + body && Encodes(body, level, block, CRC);
    HasSplit(s, at, BitsOf(BLOCK_MAGIC, 48), body);
    Magics();
    ReadBack(s, at, BLOCK_MAGIC, 48);
    var none: Option<nat> := None;
    assert ParseBlock(s, at + 48, level, none, CRC) == Parsed(Decoded(Plain(block), CRC(Plain(block)), |block|), at + 48 + |body|);
  }

  lemma EndStep(s: seq<bool>, at: nat, level: nat, combined: nat, out: seq<Byte>)
    requires Has(s, at, Trailer(combined)) && combined < 0x1_0000_0000
    ensures ParseBlocks(s, at, level, combined, out) == Parsed(out, at + 80)
  {
    hide BitsOf, Pow2;
    HasSplit(s, at, BitsOf(END_MAGIC, 48), BitsOf(combined, 32));
    Magics();
    Pow2Values();
    ReadBack(s, at, END_MAGIC, 48);
    ReadBack(s, at + 48, combined, 32);
  }

  lemma {:induction false} BlocksParse(s: seq<bool>, at: nat, level: nat, out: seq<Byte>, chunks: seq<seq<bool>>, blocks: seq<seq<Byte>>, i: nat, rest: seq<bool>)
    requires AreBlocks(chunks, level, blocks) && i <= |chunks|
    requires rest == Concat(chunks[i..]) + Trailer(Combined(blocks)) && Has(s, at, rest)
    ensures ParseBlocks(s, at, level, Combined(blocks[..i]), out + PlainAll(blocks[..i])) == Parsed(out + PlainAll(blocks), at + |rest|)
    decreases |chunks| - i
  {
    hide ParseBlocks, Concat, IsBlock, Combined, PlainAll, Plain, Trailer, CRC;
    if i == |chunks| {
      assert blocks[..i] == blocks && chunks[i..] == [];
      NoChunks();
      assert [] + Trailer(Combined(blocks)) == Trailer(Combined(blocks));
      EndStep(s, at, level, Combined(blocks), out + PlainAll(blocks));
    } else {
      ConcatFront(chunks[i..]);
      assert chunks[i..][0] == chunks[i] && chunks[i..][1..] == chunks[i + 1..];
      var after := Concat(chunks[i + 1..]) + Trailer(Combined(blocks));
      Regroup(chunks[i], Concat(chunks[i + 1..]), Trailer(Combined(blocks)));
      HasSplit(s, at, chunks[i], after);
      BlockStep(s, at, level, Combined(blocks[..i]), out + PlainAll(blocks[..i]), chunks[i], blocks[i]);
      PushBlock(blocks[..i], blocks[i]);
      assert blocks[..i] + [blocks[i]] == blocks[..i + 1];
      Regroup(out, PlainAll(blocks[..i]), Plain(blocks[i]));
      BlocksParse(s, at + |chunks[i]|, level, out, chunks, blocks, i + 1, after);
    }
  }

  lemma NoChunks()
    ensures Concat([]) == []
  {
  }

  lemma HeaderBits(level: nat)
    requires level <= 9
    ensures Stream(Header(level)) == ((BitsOf(0x42, 8) + BitsOf(0x5A, 8)) + BitsOf(0x68, 8)) + BitsOf(0x30 + level, 8)
  {
    hide BitsOf;
    StreamPush([], 0x42);
    StreamPush([0x42], 0x5A);
    StreamPush([0x42, 0x5A], 0x68);
    StreamPush([0x42, 0x5A, 0x68], 0x30 + level);
    assert [] + [0x42 as Byte] == [0x42] && [0x42 as Byte] + [0x5A] == [0x42, 0x5A] && [0x42 as Byte, 0x5A] + [0x68] == [0x42, 0x5A, 0x68];
    assert [0x42 as Byte, 0x5A, 0x68] + [0x30 + level] == Header(level);
    assert Stream([]) + BitsOf(0x42, 8) == BitsOf(0x42, 8);
  }

  lemma HeaderParses(s: seq<bool>, at: nat, level: nat)
    requires 1 <= level <= 9 && Has(s, at, Stream(Header(level)))
    ensures ParseHeader(s, at) == Parsed(level, at + 32)
  {
    hide BitsOf, ValueOf, Stream;
    HeaderBits(level);
    var a, b, c, d := BitsOf(0x42, 8), BitsOf(0x5A, 8), BitsOf(0x68, 8), BitsOf(0x30 + level, 8);
    HasSplit(s, at, (a + b) + c, d);
    HasSplit(s, at, a + b, c);
    HasSplit(s, at, a, b);
    assert Pow2(8) == 256;
    ValueOfBits(0x42, 8);
    ValueOfBits(0x5A, 8);
    ValueOfBits(0x68, 8);
    ValueOfBits(0x30 + level, 8);
  }

  /** A compressed stream in place of any prefix of the input adds its plain bytes and nothing else. */
  lemma StreamStep(s: seq<bool>, at: nat, out: seq<Byte>, bits: seq<bool>, level: nat, plain: seq<Byte>, chunks: seq<seq<bool>>, blocks: seq<seq<Byte>>, pad: nat)
    requires |s| % 8 == 0 && at % 8 == 0 && Has(s, at, bits) && IsStream(bits, level, plain, chunks, blocks, pad)
    ensures at + |bits| <= |s| && ParseStreams(s, at, out) == ParseStreams(s, at + |bits|, out + plain)
  {
    hide Stream, Concat, Trailer, Combined, PlainAll, ParseHeader, ParseBlocks, AreBlocks, Header, ParseStreams, Aligned;
    var head, middle, tail := Stream(Header(level)), Concat(chunks), Trailer(Combined(blocks));
    HasSplit(s, at, head, middle + (tail + Zeros(pad)));
    Regroup(middle, tail, Zeros(pad));
    HasSplit(s, at + 32, middle + tail, Zeros(pad));
    HeaderParses(s, at, level);
    assert chunks[0..] == chunks && blocks[..0] == [];
    NoBlocks();
    assert out + [] == out;
    BlocksParse(s, at + 32, level, out, chunks, blocks, 0, middle + tail);
    AlignedUnique(at + 32 + |middle + tail|, at + |bits|);
    ParseStreamsStep(s, at, out, level, at + 32 + |middle + tail|, out + plain);
  }

  lemma NoBlocks()
    ensures Combined([]) == 0 && PlainAll([]) == []
  {
  }

  lemma ParseStreamsStep(s: seq<bool>, at: nat, out: seq<Byte>, level: nat, a: nat, value: seq<Byte>)
    requires |s| % 8 == 0 && at < |s| && at % 8 == 0 && a <= |s|
    requires ParseHeader(s, at) == Parsed(level, at + 32) && ParseBlocks(s, at + 32, level, 0, out) == Parsed(value, a)
    ensures Aligned(a) <= |s| && ParseStreams(s, at, out) == ParseStreams(s, Aligned(a), value)
  {
    hide ParseHeader, ParseBlocks, Aligned;
    AlignedWithin(at, |s|);
    AlignedWithin(a, |s|);
  }

  /** Decoding a compressed stream gives its plain bytes. */
  lemma StreamRoundTrip(data: seq<Byte>, level: nat, plain: seq<Byte>, chunks: seq<seq<bool>>, blocks: seq<seq<Byte>>, pad: nat)
    requires IsStream(Stream(data), level, plain, chunks, blocks, pad)
    ensures ParseStreams(Stream(data), 0, []) == Parsed(plain, |Stream(data)|)
  {
    hide ParseStreams, Stream, IsStream;
    var s := Stream(data);
    assert s[0..0 + |s|] == s;
    StreamStep(s, 0, [], s, level, plain, chunks, blocks, pad);
    assert [] + plain == plain;
    ParseNoStreams(s, plain);
  }

  lemma ParseNoStreams(s: seq<bool>, out: seq<Byte>)
    requires |s| % 8 == 0
    ensures ParseStreams(s, |s|, out) == Parsed(out, |s|)
  {
  }

  // ----- The serial decoder -----

  method ReadHeader(bits: Bits) returns (r: Result<nat>)
    requires bits.Valid()
    modifies bits
    ensures bits.Valid() && Follows(r, bits.bit, ParseHeader(bits.All(), old(bits.bit)))
  {
    hide Stream, ValueOf;
    var remaining := bits.Remaining();
    if remaining < 32 {
      return Err(Truncated);
    }
    var b := bits.Read(8);
    if b.value != 0x42 {
      return Err(InvalidMagic);
    }
    var z := bits.Read(8);
    if z.value != 0x5A {
      return Err(InvalidMagic);
    }
    var h := bits.Read(8);
    if h.value != 0x68 {
      return Err(InvalidMagic);
    }
    var level := bits.Read(8);
    if !(0x31 <= level.value <= 0x39) {
      return Err(InvalidLevel);
    }
    r := Ok(level.value - 0x30);
  }

  method DecodeBlocks(bits: Bits, level: nat, output: seq<Byte>) returns (r: Result<seq<Byte>>)
    requires bits.Valid()
    modifies bits
    ensures bits.Valid() && Follows(r, bits.bit, ParseBlocks(bits.All(), old(bits.bit), level, 0, output))
  {
    hide Stream, ParseBlock, ReadBits, Crc.Combine;
    var out, combined := output, 0;
    while true
      invariant bits.Valid()
      invariant ParseBlocks(bits.All(), bits.bit, level, combined, out) == ParseBlocks(bits.All(), old(bits.bit), level, 0, output)
      decreases |bits.All()| - bits.bit
    {
      var magic := bits.Magic();
      if magic.Err? {
        return Err(magic.error);
      }
      if magic.value == BLOCK_MAGIC {
        var block := DecodeBlock(bits, level, None, CRC);
        if block.Err? {
          return Err(block.error);
        }
        out := out + block.value.output;
        combined := Crc.Combine(combined, block.value.crc);
      } else if magic.value == END_MAGIC {
        var stored := bits.Read(32);
        if stored.Err? {
          return Err(stored.error);
        }
        if stored.value != combined {
          return Err(CrcMismatch);
        }
        return Ok(out);
      } else {
        return Err(InvalidMagic);
      }
    }
  }

  /** The serial decoder follows the specification on every input. */
  method DecodeSerial(data: seq<Byte>) returns (r: Result<seq<Byte>>)
    ensures match ParseStreams(Stream(data), 0, [])
            case Parsed(plain, _) => r == Ok(plain)
            case Failed(e) => r == Err(e)
  {
    hide Stream, ParseHeader, ParseBlocks, Aligned, ParseStreams;
    var bits := new Bits(data, 0);
    var output := [];
    var remaining := bits.Remaining();
    while remaining != 0
      invariant bits.Valid() && bits.data == data && remaining == |bits.All()| - bits.bit
      invariant ParseStreams(bits.All(), bits.bit, output) == ParseStreams(bits.All(), 0, [])
      decreases remaining
    {
      ghost var at := bits.bit;
      ParseStreamsUnfold(bits.All(), at, output);
      bits.AlignByte();
      AlignedUnique(at, bits.bit);
      var level := ReadHeader(bits);
      if level.Err? {
        return Err(level.error);
      }
      var blocks := DecodeBlocks(bits, level.value, output);
      if blocks.Err? {
        return Err(blocks.error);
      }
      output := blocks.value;
      ghost var end := bits.bit;
      bits.AlignByte();
      AlignedUnique(end, bits.bit);
      remaining := bits.Remaining();
    }
    ParseNoStreams(bits.All(), output);
    r := Ok(output);
  }

  lemma ParseStreamsUnfold(s: seq<bool>, at: nat, out: seq<Byte>)
    requires at < |s| && |s| % 8 == 0
    ensures Aligned(at) <= |s|
    ensures var header := ParseHeader(s, Aligned(at));
            ParseStreams(s, at, out) ==
            if header.Failed? then Failed(header.error) else
              var blocks := ParseBlocks(s, header.at, header.value, 0, out);
              if blocks.Failed? then Failed(blocks.error) else
                (AlignedWithin(blocks.at, |s|); ParseStreams(s, Aligned(blocks.at), blocks.value))
  {
    hide ParseHeader, ParseBlocks, Aligned;
    AlignedWithin(at, |s|);
  }
}
