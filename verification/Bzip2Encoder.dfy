/** The streaming bzip2 encoder: runs, blocks, worker pool, bit stream. */
module Bzip2Encoder {
  import opened Bytes
  import opened Seqs
  import opened Sums
  import opened BitStream
  import opened BitReading
  import opened BitWriting
  import opened Options
  import opened Rle1
  import opened BlockCodec
  import opened Bzip2Stream
  import opened Streaming
  import Crc

  function BlockLimit(level: nat): nat
    requires 1 <= level
  {
    Size(level) - 19
  }

  function Reservation(level: nat): nat
    requires 1 <= level
  {
    BlockLimit(level) * 32
  }

  /** A worker's result carries the bits and the checksum of its block. */
  ghost predicate Delivers(e: EncodedBlock, chunk: seq<bool>, block: seq<Byte>)
  {
    e.bitLen <= 8 * |e.bytes| && Stream(e.bytes)[..e.bitLen] == chunk && e.crc == CRC(Plain(block))
  }

  ghost predicate Queue(pending: seq<Job<EncodedBlock>>, chunks: seq<seq<bool>>, blocks: seq<seq<Byte>>)
  {
    |pending| == |chunks| == |blocks| && forall j :: 0 <= j < |pending| ==> Delivers(pending[j].value, chunks[j], blocks[j])
  }

  /** The blocks already in the bit stream and the blocks with the workers. */
  datatype Ledger = Ledger(doneChunks: seq<seq<bool>>, doneBlocks: seq<seq<Byte>>, waitChunks: seq<seq<bool>>, waitBlocks: seq<seq<Byte>>)
  {
    /** The bits so far and the running checksum are those of the finished blocks. */
    ghost predicate Sent(level: nat, bits: seq<bool>, combined: nat)
    {
      && 1 <= level <= 9 && AreBlocks(doneChunks, level, doneBlocks)
      && bits == Stream(Header(level)) + Concat(doneChunks) && combined == Combined(doneBlocks)
    }

    ghost predicate Waits(level: nat, pending: seq<Job<EncodedBlock>>)
    {
      AreBlocks(waitChunks, level, waitBlocks) && Queue(pending, waitChunks, waitBlocks)
    }

    function Blocks(): seq<seq<Byte>>
    {
      doneBlocks + waitBlocks
    }

    function Next(): Ledger
      requires waitChunks != [] && waitBlocks != []
    {
      Ledger(doneChunks + [waitChunks[0]], doneBlocks + [waitBlocks[0]], waitChunks[1..], waitBlocks[1..])
    }

    function Add(chunk: seq<bool>, block: seq<Byte>): Ledger
    {
      this.(waitChunks := waitChunks + [chunk], waitBlocks := waitBlocks + [block])
    }
  }

  lemma LedgerNext(l: Ledger, level: nat, bits: seq<bool>, combined: nat, pending: seq<Job<EncodedBlock>>)
    requires l.Sent(level, bits, combined) && l.Waits(level, pending) && pending != []
    ensures l.waitChunks != [] && l.waitBlocks != []
    ensures var e := pending[0].value;
            e.bitLen <= 8 * |e.bytes| && Stream(e.bytes)[..e.bitLen] == l.waitChunks[0] &&
            l.Next().Sent(level, bits + l.waitChunks[0], Crc.Combine(combined, e.crc))
    ensures l.Next().Waits(level, pending[1..]) && l.Next().Blocks() == l.Blocks()
  {
    hide CRC, Queue, AreBlocks, Concat, Combined, Stream, Header;
    FirstDelivers(pending, l.waitChunks, l.waitBlocks);
    Shift(level, l.doneChunks, l.doneBlocks, l.waitChunks, l.waitBlocks);
    Regroup(Stream(Header(level)), Concat(l.doneChunks), l.waitChunks[0]);
  }

  lemma LedgerAdd(l: Ledger, level: nat, pending: seq<Job<EncodedBlock>>, job: Job<EncodedBlock>, chunk: seq<bool>, block: seq<Byte>)
    requires l.Waits(level, pending) && IsBlock(chunk, level, block) && Delivers(job.value, chunk, block)
    ensures l.Add(chunk, block).Waits(level, pending + [job])
    ensures PlainAll(l.Add(chunk, block).Blocks()) == PlainAll(l.Blocks()) + Plain(block)
  {
    hide CRC, IsBlock, Delivers, Plain, PlainAll, Queue, AreBlocks;
    AddBlock(l.waitChunks, level, l.waitBlocks, chunk, block);
    AddJob(pending, l.waitChunks, l.waitBlocks, job, chunk, block);
    PushBlock(l.Blocks(), block);
    assert l.Add(chunk, block).Blocks() == l.Blocks() + [block];
  }

  lemma AddBlock(chunks: seq<seq<bool>>, level: nat, blocks: seq<seq<Byte>>, chunk: seq<bool>, block: seq<Byte>)
    requires AreBlocks(chunks, level, blocks) && IsBlock(chunk, level, block)
    ensures AreBlocks(chunks + [chunk], level, blocks + [block])
  {
    hide CRC, IsBlock;
  }

  lemma AddJob(pending: seq<Job<EncodedBlock>>, chunks: seq<seq<bool>>, blocks: seq<seq<Byte>>, job: Job<EncodedBlock>, chunk: seq<bool>, block: seq<Byte>)
    requires Queue(pending, chunks, blocks) && Delivers(job.value, chunk, block)
    ensures Queue(pending + [job], chunks + [chunk], blocks + [block])
  {
    hide CRC, Delivers;
  }

  lemma SentAfterAdd(l: Ledger, level: nat, bits: seq<bool>, combined: nat, chunk: seq<bool>, block: seq<Byte>)
    requires l.Sent(level, bits, combined)
    ensures l.Add(chunk, block).Sent(level, bits, combined)
  {
  }

  class Encoder {
    const level: nat
    const bits: BitWriter
    const pipeline: StreamingOrdered<EncodedBlock>
    const runs: Splitter
    var output: seq<Byte>
    var block: seq<Byte>
    var crcState: Crc.Word
    var combined: nat
    /** The groups in the open block. */
    ghost var groups: seq<Group>
    ghost var ledger: Ledger

    ghost predicate Sent()
      reads this, bits
    {
      bits.Valid() && ledger.Sent(level, Stream(output) + bits.Written(), combined)
    }

    ghost predicate Queued()
      reads this, pipeline
    {
      && pipeline.Valid() && 1 <= level <= 9 && pipeline.maxActive > 0 && Reservation(level) <= pipeline.memoryLimit
      && ledger.Waits(level, pipeline.Pending())
    }

    ghost predicate Open()
      reads this
    {
      && 1 <= level <= 9 && Chain(groups) && block == Rle(groups) && |block| <= BlockLimit(level)
      && crcState == Crc.Run(Crc.Ones(), Raw(groups))
    }

    /** The open run cannot run into the last group of the open block. */
    ghost predicate Following()
      reads this, runs
    {
      runs.Valid() && (groups != [] ==> runs.len > 0 && MayFollow(groups[|groups| - 1], Group(runs.byte, runs.len)))
    }

    ghost predicate Valid()
      reads this, bits, pipeline, runs
    {
      Sent() && Queued() && Open() && Following()
    }

    /** Every byte accepted so far: in blocks, in the open block, or in the open run. */
    ghost function Input(): seq<Byte>
      reads this, runs
    {
      PlainAll(ledger.Blocks()) + Raw(groups) + Repeat(runs.byte, runs.len)
    }

    constructor (level: nat, threads: nat, memoryLimit: nat)
      requires 1 <= level <= 9 && Reservation(level) <= memoryLimit
      ensures Valid() && Input() == [] && this.level == level
      ensures fresh(bits) && fresh(pipeline) && fresh(runs)
    {
      this.level := level;
      bits := new BitWriter();
      pipeline := new StreamingOrdered(threads, memoryLimit);
      runs := new Splitter();
      output, block, crcState, combined := [], [], Crc.Ones(), 0;
      groups, ledger := [], Ledger([], [], [], []);
      new;
      Begin();
    }

    /** Write the stream header. */
    method Begin()
      requires 1 <= level <= 9 && Reservation(level) <= pipeline.memoryLimit && pipeline.maxActive > 0 && ledger == Ledger([], [], [], [])
      requires bits.Valid() && bits.Written() == [] && pipeline.Valid() && pipeline.Pending() == [] && runs.Valid() && runs.len == 0
      requires output == [] && block == [] && crcState == Crc.Ones() && combined == 0 && groups == []
      modifies this`output, bits
      ensures Valid() && Input() == []
    {
      hide Crc.Ones, Crc.Run, Stream, Header, BitWriter.Written, Ledger.Sent, Ledger.Waits, Ledger.Blocks, PlainAll, Raw, Rle, Open, Input, Queued;
      WriteHeader();
      EmptyLedger(level, Stream(output) + bits.Written());
      StartsQueued();
      StartsOpen();
    }

    lemma StartsOpen()
      requires 1 <= level <= 9 && groups == [] && block == [] && crcState == Crc.Ones() && runs.len == 0 && ledger == Ledger([], [], [], [])
      ensures Open() && Input() == []
    {
      hide CRC, Crc.Ones, Crc.Run;
      NothingRun();
      NoBlocks();
    }

    lemma StartsQueued()
      requires pipeline.Valid() && 1 <= level <= 9 && pipeline.maxActive > 0 && Reservation(level) <= pipeline.memoryLimit
      requires pipeline.Pending() == [] && ledger == Ledger([], [], [], [])
      ensures Queued()
    {
      hide CRC, Reservation, StreamingOrdered.Valid, StreamingOrdered.Pending;
    }

    method WriteHeader()
      requires bits.Valid() && bits.Written() == [] && output == [] && 1 <= level <= 9
      modifies this`output, bits
      ensures bits.Valid() && Stream(output) + bits.Written() == Stream(Header(level))
    {
      hide CRC, BitWriter.Written, Stream, BitsOf;
      HeaderBits(level);
      bits.WriteU8(0x42);
      bits.WriteU8(0x5A);
      bits.WriteU8(0x68);
      bits.WriteU8(0x30 + level);
      StreamNothing();
      assert [] + BitsOf(0x42, 8) == BitsOf(0x42, 8);
      assert Stream([]) + Stream(Header(level)) == Stream(Header(level));
      DrainBits();
    }

    /** Hand the whole bytes to the sink. */
    method DrainBits()
      requires bits.Valid()
      modifies this`output, bits
      ensures bits.Valid() && Stream(output) + bits.Written() == old(Stream(output) + bits.Written())
    {
      hide CRC, BitWriter.Written, Stream;
      var bytes := bits.Drain();
      StreamAppend(output, bytes);
      Regroup(Stream(output), Stream(bytes), bits.Written());
      output := output + bytes;
    }

    /** Take the next result in submission order and append its bits. */
    method CommitNext()
      requires Sent() && Queued() && pipeline.Pending() != []
      modifies this`output, this`combined, this`ledger, bits, pipeline
      ensures Sent() && Queued() && |pipeline.Pending()| == |old(pipeline.Pending())| - 1
      ensures ledger.Blocks() == old(ledger.Blocks())
    {
      hide CRC, BitWriter.Written, BitWriter.Valid, Stream, Ledger.Sent, Ledger.Waits, Ledger.Next, Ledger.Blocks, StreamingOrdered.Valid,
        StreamingOrdered.Pending, Reservation;
      LedgerNext(ledger, level, Stream(output) + bits.Written(), combined, pipeline.Pending());
      var answer := pipeline.TakeNext();
      var e := answer.value;
      AppendChunk(e.bytes, e.bitLen, ledger.waitChunks[0]);
      combined := Crc.Combine(combined, e.crc);
      ledger := ledger.Next();
    }

    method AppendChunk(bytes: seq<Byte>, bitLen: nat, ghost chunk: seq<bool>)
      requires bits.Valid() && bitLen <= 8 * |bytes| && Stream(bytes)[..bitLen] == chunk
      modifies this`output, bits
      ensures bits.Valid() && Stream(output) + bits.Written() == old(Stream(output) + bits.Written()) + chunk
    {
      hide CRC, BitWriter.Written, Stream;
      Regroup(Stream(output), bits.Written(), chunk);
      bits.WriteBuffer(bytes, bitLen);
      DrainBits();
    }

    /** The bits and the checksum of the open block. */
    method EncodeOpen() returns (e: EncodedBlock, ghost chunk: seq<bool>)
      requires Sent() && Open() && |block| > 0
      ensures IsBlock(chunk, level, block) && Delivers(e, chunk, block) && Plain(block) == Raw(groups)
    {
      hide CRC, BitWriter.Written, BitWriter.Valid, Stream, Ledger.Sent, Encodes, IsBlock, BitsOf, Crc.Ones, Crc.Run, Crc.Value, Plain;
      BlockChecksum(groups);
      e := EncodeBlock(block, level, CRC, Crc.Value(crcState));
      ghost var body :| Stream(e.bytes)[..e.bitLen] == BitsOf(BLOCK_MAGIC, 48) + body && Encodes(body, level, block, CRC);
      chunk := BitsOf(BLOCK_MAGIC, 48) + body;
      AssembleBlock(chunk, body, level, block);
    }

    /** Close the open block and give it to a worker, first taking results until there is room. */
    method SubmitBlock()
      requires Sent() && Queued() && Open()
      modifies this`output, this`combined, this`ledger, this`block, this`crcState, this`groups, bits, pipeline
      ensures Sent() && Queued() && Open() && groups == []
      ensures PlainAll(ledger.Blocks()) == old(PlainAll(ledger.Blocks()) + Raw(groups))
    {
      hide CRC, BitWriter.Written, BitWriter.Valid, Stream, Ledger.Sent, Ledger.Waits, Ledger.Blocks, PlainAll, Encodes, IsBlock, Delivers,
        StreamingOrdered.Valid, StreamingOrdered.Pending, StreamingOrdered.CanSubmit, BitsOf, Crc.Ones, Crc.Run, Crc.Value, Plain, Reservation;
      if |block| == 0 {
        if groups != [] {
          NonEmptyBlock(groups);
        }
        return;
      }
      TakeUntilRoom();
      var rle := block;
      var e, chunk := EncodeOpen();
      LedgerAdd(ledger, level, pipeline.Pending(), Job(Reservation(level), e), chunk, rle);
      SentAfterAdd(ledger, level, Stream(output) + bits.Written(), combined, chunk, rle);
      var refused := pipeline.Submit(Reservation(level), e);
      ledger := ledger.Add(chunk, rle);
      block, crcState, groups := [], Crc.Ones(), [];
      NothingRun();
    }

    /** Take results in order until the pipeline has room for a block. */
    method TakeUntilRoom()
      requires Sent() && Queued()
      modifies this`output, this`combined, this`ledger, bits, pipeline
      ensures Sent() && Queued() && pipeline.CanSubmit(Reservation(level)) && ledger.Blocks() == old(ledger.Blocks())
    {
      hide CRC, BitWriter.Written, BitWriter.Valid, Stream, Ledger.Sent, Ledger.Waits, Ledger.Blocks, StreamingOrdered.Valid,
        StreamingOrdered.Pending, StreamingOrdered.CanSubmit, Reservation;
      while !pipeline.CanSubmit(Reservation(level))
        invariant Sent() && Queued() && ledger.Blocks() == old(ledger.Blocks())
        decreases |pipeline.Pending()|
      {
        if pipeline.Pending() == [] {
          pipeline.IdleAdmits(Reservation(level));
        }
        CommitNext();
      }
    }

    /** Append a closed group to the open block, starting a new block if it does not fit. */
    method CommitGroup(group: Group)
      requires Sent() && Queued() && Open() && Rle1.Sound(group) && (groups != [] ==> MayFollow(groups[|groups| - 1], group))
      modifies this`output, this`combined, this`ledger, this`block, this`crcState, this`groups, bits, pipeline
      ensures Sent() && Queued() && Open() && groups != [] && groups[|groups| - 1] == group
      ensures PlainAll(ledger.Blocks()) + Raw(groups) == old(PlainAll(ledger.Blocks()) + Raw(groups)) + Repeat(group.byte, group.rawLen)
    {
      hide CRC, BitWriter.Written, BitWriter.Valid, Stream, Ledger.Sent, Ledger.Waits, Ledger.Blocks, PlainAll, StreamingOrdered.Valid,
        StreamingOrdered.Pending, Crc.Ones, Crc.Run, Encoded, Plain, Raw, Rle;
      ghost var plain := PlainAll(ledger.Blocks()) + Raw(groups);
      if |block| + EncodedLen(group) > BlockLimit(level) {
        SubmitBlock();
        NothingRun();
        assert PlainAll(ledger.Blocks()) + [] == PlainAll(ledger.Blocks());
      }
      PushGroup(groups, group);
      Regroup(PlainAll(ledger.Blocks()), Raw(groups), Repeat(group.byte, group.rawLen));
      Crc.RunAppend(Crc.Ones(), Raw(groups), Repeat(group.byte, group.rawLen));
      block := block + Encoded(group);
      crcState := Crc.PushRepeat(crcState, group.byte, group.rawLen);
      groups := groups + [group];
    }

    method WriteByte(byte: Byte)
      requires Valid()
      modifies this`output, this`combined, this`ledger, this`block, this`crcState, this`groups, bits, pipeline, runs
      ensures Valid() && Input() == old(Input()) + [byte] && runs.len > 0
    {
      hide CRC, Sent, Queued, Open, PlainAll, Raw, Ledger.Blocks;
      ghost var before, b, n := PlainAll(ledger.Blocks()) + Raw(groups), runs.byte, runs.len;
      var group := runs.Push(byte);
      if group.Some? {
        assert Sent() && Queued() && Open();
        CommitGroup(group.value);
        assert before + Repeat(b, n) + [byte] == PlainAll(ledger.Blocks()) + Raw(groups) + Repeat(byte, 1);
      } else {
        LongerRun(before, b, n, byte);
      }
    }

    /** Any split of the input into writes is accepted. */
    method Write(bytes: seq<Byte>)
      requires Valid()
      modifies this`output, this`combined, this`ledger, this`block, this`crcState, this`groups, bits, pipeline, runs
      ensures Valid() && Input() == old(Input()) + bytes
    {
      hide CRC, Valid, Input;
      for i := 0 to |bytes|
        invariant Valid() && Input() == old(Input()) + bytes[..i]
      {
        assert bytes[..i] + [bytes[i]] == bytes[..i + 1];
        WriteByte(bytes[i]);
      }
      assert bytes[..|bytes|] == bytes;
    }

    method Flush()
      requires Valid()
      modifies this`output, bits
      ensures Valid() && Input() == old(Input())
    {
      hide CRC, BitWriter.Written, BitWriter.Valid, Stream, Ledger.Sent, Ledger.Waits, Chain, StreamingOrdered.Valid, StreamingOrdered.Pending;
      DrainBits();
    }

    /** Close the run and the block, collect every result, and end the stream. */
    method Finish() returns (ghost pad: nat)
      requires Valid()
      modifies this`output, this`combined, this`ledger, this`block, this`crcState, this`groups, bits, pipeline, runs
      ensures IsStream(Stream(output), level, old(Input()), ledger.doneChunks, ledger.doneBlocks, pad)
    {
      hide CRC, Sent, Queued, Open, PlainAll, Raw, Ledger.Blocks;
      ghost var input := Input();
      var group := runs.Take();
      if group.Some? {
        assert Sent() && Queued() && Open();
        CommitGroup(group.value);
      } else {
        assert PlainAll(ledger.Blocks()) + Raw(groups) + Repeat(runs.byte, 0) == PlainAll(ledger.Blocks()) + Raw(groups);
      }
      assert Sent() && Queued() && Open() && PlainAll(ledger.Blocks()) + Raw(groups) == input;
      SubmitBlock();
      pad := EndStream(input);
    }

    method EndStream(ghost input: seq<Byte>) returns (ghost pad: nat)
      requires Sent() && Queued() && PlainAll(ledger.Blocks()) == input
      modifies this`output, this`combined, this`ledger, bits, pipeline
      ensures IsStream(Stream(output), level, input, ledger.doneChunks, ledger.doneBlocks, pad)
    {
      hide CRC, BitWriter.Written, Stream, BitsOf, StreamingOrdered.Valid, StreamingOrdered.Pending, PlainAll, Ledger.Sent, Ledger.Waits,
        Ledger.Blocks, Reservation, Combined, Concat, IsStream;
      TakeAll();
      DoneIsAll(ledger, level, pipeline.Pending());
      ghost var head := Stream(output) + bits.Written();
      SentShape(ledger, level, head, combined);
      pad := WriteTrailer(head);
      Streamed(Stream(output), level, ledger, head, combined, pad, input);
    }

    /** The end marker, the combined checksum and the padding. */
    method WriteTrailer(ghost head: seq<bool>) returns (ghost pad: nat)
      requires bits.Valid() && head == Stream(output) + bits.Written()
      modifies this`output, bits
      ensures pad < 8 && Stream(output) == ((head + BitsOf(END_MAGIC, 48)) + BitsOf(combined, 32)) + Zeros(pad)
    {
      hide CRC, BitWriter.Written, Stream, BitsOf;
      Magics();
      Regroup(Stream(output), bits.Written(), BitsOf(END_MAGIC, 48));
      bits.WriteMagic(END_MAGIC);
      Regroup(Stream(output), bits.Written(), BitsOf(combined, 32));
      bits.WriteU32(combined);
      pad := (8 - bits.nbits) % 8;
      ghost var written := bits.Written();
      var trailing := bits.Finish();
      StreamAppend(output, trailing);
      Regroup(Stream(output), written, Zeros(pad));
      output := output + trailing;
    }

    method TakeAll()
      requires Sent() && Queued()
      modifies this`output, this`combined, this`ledger, bits, pipeline
      ensures Sent() && Queued() && pipeline.Pending() == [] && ledger.Blocks() == old(ledger.Blocks())
    {
      hide CRC, BitWriter.Written, BitWriter.Valid, Stream, Ledger.Sent, Ledger.Waits, Ledger.Blocks, Reservation;
      while pipeline.HasPending()
        invariant Sent() && Queued() && ledger.Blocks() == old(ledger.Blocks())
        decreases |pipeline.Pending()|
      {
        CommitNext();
      }
    }
  }

  lemma FirstDelivers(pending: seq<Job<EncodedBlock>>, chunks: seq<seq<bool>>, blocks: seq<seq<Byte>>)
    requires pending != [] && Queue(pending, chunks, blocks)
    ensures |pending| == |chunks| == |blocks|
    ensures var e := pending[0].value;
            e.bitLen <= 8 * |e.bytes| && Stream(e.bytes)[..e.bitLen] == chunks[0] && e.crc == CRC(Plain(blocks[0]))
    ensures Queue(pending[1..], chunks[1..], blocks[1..])
  {
    hide CRC, Stream, Plain, CRC;
    assert Delivers(pending[0].value, chunks[0], blocks[0]);
  }

  /** The first waiting block moves to the end of the finished ones. */
  lemma Shift(level: nat, doneChunks: seq<seq<bool>>, doneBlocks: seq<seq<Byte>>, waitChunks: seq<seq<bool>>, waitBlocks: seq<seq<Byte>>)
    requires AreBlocks(doneChunks, level, doneBlocks) && AreBlocks(waitChunks, level, waitBlocks) && |waitChunks| == |waitBlocks| > 0
    ensures AreBlocks(doneChunks + [waitChunks[0]], level, doneBlocks + [waitBlocks[0]])
    ensures AreBlocks(waitChunks[1..], level, waitBlocks[1..])
    ensures Concat(doneChunks + [waitChunks[0]]) == Concat(doneChunks) + waitChunks[0]
    ensures Combined(doneBlocks + [waitBlocks[0]]) == Crc.Combine(Combined(doneBlocks), CRC(Plain(waitBlocks[0])))
    ensures (doneBlocks + [waitBlocks[0]]) + waitBlocks[1..] == doneBlocks + waitBlocks
  {
    hide CRC, IsBlock, Concat, Combined, Plain, CRC;
    PushChunk(doneChunks, waitChunks[0]);
    PushBlock(doneBlocks, waitBlocks[0]);
  }

  lemma StreamNothing()
    ensures Stream([]) == []
  {
  }

  lemma NonEmptyBlock(groups: seq<Group>)
    requires Chain(groups) && groups != []
    ensures Rle(groups) != []
  {
    assert |Encoded(groups[|groups| - 1])| >= 1;
  }

  /** The running checksum of the groups is the checksum of what their block expands to. */
  lemma BlockChecksum(groups: seq<Group>)
    requires Chain(groups)
    ensures Plain(Rle(groups)) == Raw(groups) && Crc.Value(Crc.Run(Crc.Ones(), Raw(groups))) == CRC(Plain(Rle(groups)))
  {
    ExpandChain(groups);
  }

  lemma AssembleBlock(chunk: seq<bool>, body: seq<bool>, level: nat, block: seq<Byte>)
    requires chunk == BitsOf(BLOCK_MAGIC, 48) + body && Encodes(body, level, block, CRC)
    ensures IsBlock(chunk, level, block)
  {
  }

  lemma PushGroup(groups: seq<Group>, group: Group)
    requires Chain(groups) && Rle1.Sound(group) && (groups != [] ==> MayFollow(groups[|groups| - 1], group))
    ensures Chain(groups + [group])
    ensures Rle(groups + [group]) == Rle(groups) + Encoded(group)
    ensures Raw(groups + [group]) == Raw(groups) + Repeat(group.byte, group.rawLen)
  {
    hide CRC, Encoded, Rle, Raw;
    assert Chain(groups + [group]) by {
      assert forall i, j :: 0 <= i && j == i + 1 < |groups| ==> MayFollow(groups[i], groups[j]);
    }
    assert (groups + [group])[..|groups|] == groups;
    LastGroup(groups + [group]);
  }

  lemma LastGroup(gs: seq<Group>)
    requires gs != [] && forall i :: 0 <= i < |gs| ==> Rle1.Sound(gs[i])
    ensures Rle(gs) == Rle(gs[..|gs| - 1]) + Encoded(gs[|gs| - 1])
    ensures Raw(gs) == Raw(gs[..|gs| - 1]) + Repeat(gs[|gs| - 1].byte, gs[|gs| - 1].rawLen)
  {
    hide CRC, Encoded;
  }

  lemma LongerRun(before: seq<Byte>, b: Byte, n: nat, byte: Byte)
    requires n > 0 ==> b == byte
    ensures before + Repeat(b, n) + [byte] == before + Repeat(byte, n + 1)
  {
  }

  lemma DoneIsAll(l: Ledger, level: nat, pending: seq<Job<EncodedBlock>>)
    requires l.Waits(level, pending) && pending == []
    ensures l.Blocks() == l.doneBlocks
  {
  }

  lemma SentShape(l: Ledger, level: nat, head: seq<bool>, combined: nat)
    requires l.Sent(level, head, combined)
    ensures 1 <= level <= 9 && AreBlocks(l.doneChunks, level, l.doneBlocks)
    ensures head == Stream(Header(level)) + Concat(l.doneChunks) && combined == Combined(l.doneBlocks) < 0x1_0000_0000
  {
  }

  lemma Streamed(bits: seq<bool>, level: nat, l: Ledger, head: seq<bool>, combined: nat, pad: nat, plain: seq<Byte>)
    requires l.Sent(level, head, combined) && pad < 8 && |bits| % 8 == 0 && PlainAll(l.doneBlocks) == plain
    requires bits == ((head + BitsOf(END_MAGIC, 48)) + BitsOf(combined, 32)) + Zeros(pad)
    ensures IsStream(bits, level, plain, l.doneChunks, l.doneBlocks, pad)
  {
    hide CRC, BitsOf, Stream, Concat, Combined, AreBlocks, PlainAll, Header;
    SentShape(l, level, head, combined);
    Regroup(head, BitsOf(END_MAGIC, 48), BitsOf(combined, 32));
    Regroup(head, Trailer(combined), Zeros(pad));
    Regroup(Stream(Header(level)), Concat(l.doneChunks), Trailer(combined) + Zeros(pad));
  }

  datatype Compressed = Rejected | Bytes(bytes: seq<Byte>)

  /** Compress in one call. Too small a memory limit is refused; every other result decodes to the input. */
  method Compress(data: seq<Byte>, level: nat, threads: nat, memoryLimit: nat) returns (r: Compressed)
    requires 1 <= level <= 9
    ensures r.Rejected? <==> memoryLimit < 32 * (100000 * level - 19)
    ensures r.Bytes? ==> ParseStreams(Stream(r.bytes), 0, []) == Parsed(data, 8 * |r.bytes|)
  {
    hide CRC, ParseStreams, Stream, IsStream, Encoder.Valid, Encoder.Input;
    if Reservation(level) > memoryLimit {
      return Rejected;
    }
    var encoder := new Encoder(level, threads, memoryLimit);
    encoder.Write(data);
    assert [] + data == data;
    ghost var pad := encoder.Finish();
    StreamRoundTrip(encoder.output, level, data, encoder.ledger.doneChunks, encoder.ledger.doneBlocks, pad);
    r := Bytes(encoder.output);
  }

  /** Compressing and then decoding serially gives the data back. */
  method RoundTrip(data: seq<Byte>, level: nat, threads: nat, memoryLimit: nat) returns (r: Result<seq<Byte>>)
    requires 1 <= level <= 9 && memoryLimit >= 32 * (100000 * level - 19)
    ensures r == Ok(data)
  {
    hide CRC, ParseStreams, Stream;
    var compressed := Compress(data, level, threads, memoryLimit);
    r := DecodeSerial(compressed.bytes);
  }

  lemma EmptyLedger(level: nat, bits: seq<bool>)
    requires 1 <= level <= 9 && bits == Stream(Header(level))
    ensures var l := Ledger([], [], [], []); l.Sent(level, bits, 0) && l.Waits(level, []) && PlainAll(l.Blocks()) == []
  {
    hide CRC, Stream;
    NoChunks();
    NoBlocks();
    assert Stream(Header(level)) + [] == Stream(Header(level));
  }

  lemma NothingRun()
    ensures Crc.Run(Crc.Ones(), []) == Crc.Ones() && Rle([]) == [] && Raw([]) == []
  {
  }
}
