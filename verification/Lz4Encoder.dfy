/** The streaming LZ4 frame encoder, and the round trip through the frame decoder. */
module Lz4Encoder {
  import opened Bytes
  import opened Seqs
  import opened Options
  import opened Streaming
  import opened Lz4Block
  import opened Lz4Encode
  import opened Lz4Frame
  import opened Lz4Format
  import MatchFinder

  const TARGET_BLOCK_SIZE: nat := 4194304
  const MIN_BLOCK_SIZE: nat := 65536

  /** A worker's result. */
  datatype Encoded = Encoded(bytes: seq<Byte>, inputLen: nat, stored: bool)

  /** The block decodes to `plain`, within any maximum that holds it. */
  ghost predicate Holds(b: Encoded, plain: seq<Byte>)
  {
    && 1 <= |b.bytes| <= |plain| <= TARGET_BLOCK_SIZE && b.inputLen == |plain|
    && if b.stored then b.bytes == plain else forall max: nat :: max >= |plain| ==> Decompressed(b.bytes, 0, [], [], max) == Some(plain)
  }

  /** Compressed only if that is shorter. */
  method EncodeBlock(input: seq<Byte>, level: nat) returns (b: Encoded)
    requires 1 <= |input| <= TARGET_BLOCK_SIZE && 1 <= level <= 9
    ensures Holds(b, input) && (!b.stored ==> |b.bytes| < |input|)
  {
    hide Decompressed, AllBytes;
    var encoded, sequences, last := CompressBlock(input, level);
    if |encoded| < |input| {
      LastNotEmpty(last);
      b := Encoded(encoded, |input|, false);
    } else {
      b := Encoded(input, |input|, true);
    }
  }

  // ----- Frame bytes -----

  function DescriptorCode(blockSize: nat): nat
  {
    if 64000 <= blockSize <= 65536 then 4 else if 65537 <= blockSize <= 262144 then 5 else if 262145 <= blockSize <= 1048576 then 6 else 7
  }

  /** Version 1, independent blocks, content checksum; then the block size code. */
  function Descriptor(blockSize: nat): (d: seq<Byte>)
    ensures |d| == 2
  {
    [0x64, DescriptorCode(blockSize) * 16]
  }

  function FrameStart(blockSize: nat, xxh: Hash): (b: seq<Byte>)
    ensures |b| == 7
  {
    Le32(FRAME_MAGIC) + Descriptor(blockSize) + [Hash32(xxh, Descriptor(blockSize)) / 256 % 256]
  }

  predicate BlockSize(size: nat)
  {
    size == 65536 || size == 262144 || size == 1048576 || size == 4194304
  }

  function EncodedBytes(b: Encoded): seq<Byte>
    requires |b.bytes| <= TARGET_BLOCK_SIZE
  {
    Le32(|b.bytes| + if b.stored then 0x8000_0000 else 0) + b.bytes
  }

  ghost predicate AllHold(blocks: seq<Encoded>, plains: seq<seq<Byte>>, max: nat)
  {
    |blocks| == |plains| && forall i :: 0 <= i < |blocks| ==> Holds(blocks[i], plains[i]) && |plains[i]| <= max
  }

  function Flat(parts: seq<seq<Byte>>): seq<Byte>
  {
    if parts == [] then [] else Flat(parts[..|parts| - 1]) + parts[|parts| - 1]
  }

  ghost predicate AllSmall(blocks: seq<Encoded>)
  {
    forall i :: 0 <= i < |blocks| ==> |blocks[i].bytes| <= TARGET_BLOCK_SIZE
  }

  /** The blocks from the `k`-th on. */
  ghost function Body(blocks: seq<Encoded>, k: nat): seq<Byte>
    requires k <= |blocks| && AllSmall(blocks)
    decreases |blocks| - k
  {
    if k == |blocks| then [] else EncodedBytes(blocks[k]) + Body(blocks, k + 1)
  }

  lemma FlatStep(plains: seq<seq<Byte>>, k: nat)
    requires k < |plains|
    ensures Flat(plains[..k + 1]) == Flat(plains[..k]) + plains[k]
  {
    assert plains[..k + 1][..k] == plains[..k];
  }

  lemma {:induction false} BodyPush(blocks: seq<Encoded>, b: Encoded, k: nat)
    requires k <= |blocks| && AllSmall(blocks) && |b.bytes| <= TARGET_BLOCK_SIZE
    ensures AllSmall(blocks + [b])
    ensures Body(blocks + [b], k) == Body(blocks, k) + EncodedBytes(b)
    decreases |blocks| - k
  {
    hide EncodedBytes;
    if k == |blocks| {
      assert Body(blocks + [b], k + 1) == [];
    } else {
      BodyPush(blocks, b, k + 1);
      Regroup(EncodedBytes(blocks[k]), Body(blocks, k + 1), EncodedBytes(b));
    }
  }

  function FrameEnd(content: seq<Byte>, xxh: Hash): seq<Byte>
  {
    Le32(0) + Le32(Hash32(xxh, content))
  }

  // ----- The frame that is written -----

  /** Independent blocks, no block checksums, no declared size, a content checksum. */
  function FlagsFor(blockSize: nat): Flags
  {
    Flags(true, false, None, true, DescriptorCode(blockSize))
  }

  lemma FlagsPossible(blockSize: nat)
    requires BlockSize(blockSize)
    ensures Possible(FlagsFor(blockSize)) && Largest(FlagsFor(blockSize)) == blockSize
  {
    hide Largest;
    LargestIs(FlagsFor(blockSize));
  }

  lemma StartIsHeader(blockSize: nat, xxh: Hash)
    requires BlockSize(blockSize) && Possible(FlagsFor(blockSize))
    ensures FrameStart(blockSize, xxh) == HeaderBytes(FlagsFor(blockSize), xxh)
  {
    hide Le32, Hash32;
    MagicBytes();
    var f := FlagsFor(blockSize);
    assert DescriptorBytes(f) == Descriptor(blockSize);
    CheckIs(Descriptor(blockSize), xxh);
    Regroup(Le32(FRAME_MAGIC), Descriptor(blockSize), [CheckByte(Descriptor(blockSize), xxh)]);
  }

  /** Each block with the data it holds. */
  function Paired(blocks: seq<Encoded>, plains: seq<seq<Byte>>): seq<FrameBlock>
    requires |blocks| == |plains|
  {
    seq(|blocks|, i requires 0 <= i < |blocks| => FrameBlock(blocks[i].bytes, blocks[i].stored, plains[i]))
  }

  lemma HeldStands(b: Encoded, plain: seq<Byte>, f: Flags, before: seq<Byte>, xxh: Hash)
    requires Possible(f) && f.independent && !f.blockChecksums && Holds(b, plain) && |plain| <= Largest(f)
    ensures var p := FrameBlock(b.bytes, b.stored, plain);
      |b.bytes| <= TARGET_BLOCK_SIZE && Stands(p, f, before) && WrittenBlock(p, f, xxh) == EncodedBytes(b)
  {
    hide Decompressed, Largest, Le32;
    assert b.bytes + [] == b.bytes;
  }

  /** The written blocks are blocks of the frame. */
  lemma {:induction false} BodyStands(blocks: seq<Encoded>, plains: seq<seq<Byte>>, k: nat, f: Flags, before: seq<Byte>, xxh: Hash)
    requires Possible(f) && f.independent && !f.blockChecksums && AllHold(blocks, plains, Largest(f)) && AllSmall(blocks) && k <= |blocks|
    ensures var rest := Paired(blocks, plains)[k..];
      Sized(rest) && AllStand(rest, f, before) && WrittenBlocks(rest, f, xxh) == Body(blocks, k) + Le32(0) && Flat(plains) == Flat(plains[..k]) + Plains(rest)
    decreases |blocks| - k
  {
    hide Holds, Stands, WrittenBlock, EncodedBytes, Le32, Largest, Possible, Flat;
    var all := Paired(blocks, plains);
    if k == |blocks| {
      assert plains[..k] == plains && all[k..] == [];
    } else {
      var b := all[k];
      assert all[k..][1..] == all[k + 1..] && all[k..][0] == b;
      HeldStands(blocks[k], plains[k], f, before, xxh);
      BodyStands(blocks, plains, k + 1, f, before + b.plain, xxh);
      FlatStep(plains, k);
      Regroup(Flat(plains[..k]), plains[k], Plains(all[k + 1..]));
      Regroup(EncodedBytes(blocks[k]), Body(blocks, k + 1), Le32(0));
    }
  }

  /** A whole frame decodes to its content, and nothing is left. */
  lemma FrameDecodes(data: seq<Byte>, blockSize: nat, blocks: seq<Encoded>, plains: seq<seq<Byte>>, xxh: Hash)
    requires BlockSize(blockSize) && AllHold(blocks, plains, blockSize) && AllSmall(blocks)
    requires data == FrameStart(blockSize, xxh) + Body(blocks, 0) + FrameEnd(Flat(plains), xxh)
    ensures var r := FramesFrom(data, 0, xxh, Report([], [], [])); r.Some? && r.value.output == Flat(plains) && |r.value.frames| == 1
  {
    hide Has, FramesFrom, HeaderBytes, FrameStart, Body, Le32, Largest, Possible, Holds, AllSmall, AllStand, Sized, Flat, FlagsFor, Infos, HeaderFor, Hash32, WrittenBlocks, Plains;
    var f, paired := FlagsFor(blockSize), Paired(blocks, plains);
    FlagsPossible(blockSize);
    StartIsHeader(blockSize, xxh);
    FlagsAre(blockSize);
    BodyStands(blocks, plains, 0, f, [], xxh);
    assert paired[0..] == paired && plains[..0] == [];
    FlatNothing();
    assert [] + Plains(paired) == Plains(paired);
    var p := Frame(f, paired);
    Regroup(Body(blocks, 0), Le32(0), Le32(Hash32(xxh, Flat(plains))));
    Regroup(FrameStart(blockSize, xxh), Body(blocks, 0), FrameEnd(Flat(plains), xxh));
    assert data == PartBytes(p, xxh);
    HasJoin([], data, [], data) by { assert [] + data + [] == data; }
    FramesStep(data, 0, p, xxh, Report([], [], []));
    EndOfData(data, xxh, WithPart(p, 0, xxh, Report([], [], [])));
  }

  lemma FlagsAre(blockSize: nat)
    ensures var f := FlagsFor(blockSize); f.independent && !f.blockChecksums && f.contentSize.None? && f.contentChecksum
  {
  }

  lemma FlatNothing()
    ensures Flat([]) == []
  {
  }

  lemma EndOfData(data: seq<Byte>, xxh: Hash, r: Report)
    requires r.frames != []
    ensures FramesFrom(data, |data|, xxh, r) == Some(r)
  {
  }

  // ----- The encoder -----

  function Reservation(blockSize: nat): nat
  {
    blockSize * 6 + 65536 * 4
  }

  /** The largest of the block sizes whose reservation fits, if any does. */
  method SelectedBlockSize(memoryLimit: nat) returns (r: Option<nat>)
    ensures r.Some? <==> Reservation(MIN_BLOCK_SIZE) <= memoryLimit
    ensures r.Some? ==> BlockSize(r.value) && Reservation(r.value) <= memoryLimit
    ensures r.Some? && r.value < TARGET_BLOCK_SIZE ==> Reservation(4 * r.value) > memoryLimit
  {
    var size := TARGET_BLOCK_SIZE;
    while size > MIN_BLOCK_SIZE && Reservation(size) > memoryLimit
      invariant size >= 0 && BlockSize(size) && (size < TARGET_BLOCK_SIZE ==> Reservation(4 * size) > memoryLimit)
    {
      size := size / 4;
    }
    r := if Reservation(size) > memoryLimit then None else Some(size);
  }

  /** Finished blocks, and the blocks with the workers. */
  datatype Ledger = Ledger(done: seq<Encoded>, donePlains: seq<seq<Byte>>, waiting: seq<seq<Byte>>)
  {
    ghost predicate Sent(blockSize: nat, xxh: Hash, output: seq<Byte>)
    {
      AllHold(done, donePlains, blockSize) && AllSmall(done) && output == FrameStart(blockSize, xxh) + Body(done, 0)
    }

    ghost predicate Waits(blockSize: nat, pending: seq<Job<Encoded>>)
    {
      |pending| == |waiting| && forall i :: 0 <= i < |pending| ==> Holds(pending[i].value, waiting[i]) && |waiting[i]| <= blockSize
    }

    ghost function Plain(): seq<Byte>
    {
      Flat(donePlains + waiting)
    }

    function Next(b: Encoded): Ledger
      requires waiting != []
    {
      Ledger(done + [b], donePlains + [waiting[0]], waiting[1..])
    }
  }

  lemma LedgerNext(l: Ledger, blockSize: nat, xxh: Hash, output: seq<Byte>, pending: seq<Job<Encoded>>)
    requires l.Sent(blockSize, xxh, output) && l.Waits(blockSize, pending) && pending != []
    ensures l.waiting != [] && |pending[0].value.bytes| <= TARGET_BLOCK_SIZE
    ensures var b := pending[0].value;
      l.Next(b).Sent(blockSize, xxh, output + EncodedBytes(b)) && l.Next(b).Waits(blockSize, pending[1..]) && l.Next(b).Plain() == l.Plain()
      && b.inputLen == |l.waiting[0]|
  {
    hide EncodedBytes, FrameStart, Flat, Decompressed;
    var b := pending[0].value;
    assert Holds(b, l.waiting[0]);
    BodyPush(l.done, b, 0);
    Regroup(FrameStart(blockSize, xxh), Body(l.done, 0), EncodedBytes(b));
    assert l.donePlains + l.waiting == (l.donePlains + [l.waiting[0]]) + l.waiting[1..];
  }

  lemma LedgerAdd(l: Ledger, blockSize: nat, pending: seq<Job<Encoded>>, job: Job<Encoded>, plain: seq<Byte>)
    requires l.Waits(blockSize, pending) && Holds(job.value, plain) && |plain| <= blockSize
    ensures var m := l.(waiting := l.waiting + [plain]); m.Waits(blockSize, pending + [job]) && m.Plain() == l.Plain() + plain
  {
    hide Holds;
    var all := l.donePlains + l.waiting;
    assert l.donePlains + (l.waiting + [plain]) == all + [plain];
    assert (all + [plain])[..|all|] == all;
  }

  class Encoder {
    const xxh: Hash
    const level: nat
    const blockSize: nat
    const reservation: nat
    const pipeline: StreamingOrdered<Encoded>
    var output: seq<Byte>
    var buffer: seq<Byte>
    /** The bytes fed to the content hash. */
    var hashed: seq<Byte>
    var blocks: nat
    ghost var ledger: Ledger

    ghost predicate Sent()
      reads this
    {
      BlockSize(blockSize) && 1 <= level <= 9 && ledger.Sent(blockSize, xxh, output) && blocks == |ledger.done|
    }

    ghost predicate Queued()
      reads this, pipeline
    {
      && pipeline.Valid() && pipeline.maxActive > 0 && reservation <= pipeline.memoryLimit
      && ledger.Waits(blockSize, pipeline.Pending())
    }

    ghost predicate Valid()
      reads this, pipeline
    {
      Sent() && Queued() && |buffer| <= blockSize && hashed == ledger.Plain() + buffer
    }

    constructor (level: nat, threads: nat, memoryLimit: nat, blockSize: nat, xxh: Hash)
      requires 1 <= level <= 9 && BlockSize(blockSize) && Reservation(blockSize) <= memoryLimit
      ensures Valid() && hashed == [] && |buffer| < this.blockSize && this.xxh == xxh && fresh(pipeline)
    {
      this.xxh, this.level, this.blockSize := xxh, level, blockSize;
      reservation := Reservation(blockSize);
      var room := memoryLimit / Reservation(blockSize);
      var most := if room < 1 then 1 else room;
      pipeline := new StreamingOrdered(if threads < most then threads else most, memoryLimit);
      output := FrameStart(blockSize, xxh);
      buffer, hashed, blocks, ledger := [], [], 0, Ledger([], [], []);
      new;
      hide FrameStart;
      assert FrameStart(blockSize, xxh) + [] == FrameStart(blockSize, xxh);
      assert ledger.donePlains + ledger.waiting == [];
    }

    method CommitNext()
      requires Valid() && pipeline.Pending() != []
      modifies this`output, this`blocks, this`ledger, pipeline
      ensures Valid() && |pipeline.Pending()| == |old(pipeline.Pending())| - 1 && ledger.Plain() == old(ledger.Plain())
    {
      hide StreamingOrdered.Valid, StreamingOrdered.Pending, Ledger.Sent, Ledger.Waits, Ledger.Plain, Le32, BlockSize;
      LedgerNext(ledger, blockSize, xxh, output, pipeline.Pending());
      var answer := pipeline.TakeNext();
      var block := answer.value;
      var size := |block.bytes| + if block.stored then 0x8000_0000 else 0;
      Regroup(output, Le32(size), block.bytes);
      output := output + Le32(size);
      output := output + block.bytes;
      blocks := blocks + 1;
      ledger := ledger.Next(block);
    }

    method SubmitBuffer()
      requires Valid()
      modifies this`output, this`buffer, this`blocks, this`ledger, pipeline
      ensures Valid() && buffer == []
    {
      hide StreamingOrdered.Valid, StreamingOrdered.Pending, StreamingOrdered.CanSubmit, Ledger.Sent, Ledger.Waits, Ledger.Plain, Holds;
      if buffer == [] {
        return;
      }
      while !pipeline.CanSubmit(reservation)
        invariant Valid() && buffer == old(buffer)
        decreases |pipeline.Pending()|
      {
        if pipeline.Pending() == [] {
          pipeline.IdleAdmits(reservation);
        }
        CommitNext();
      }
      var block := EncodeBlock(buffer, level);
      LedgerAdd(ledger, blockSize, pipeline.Pending(), Job(reservation, block), buffer);
      WaitingSent(ledger, blockSize, xxh, output, buffer);
      var refused := pipeline.Submit(reservation, block);
      ledger := ledger.(waiting := ledger.waiting + [buffer]);
      buffer := [];
      assert ledger.Plain() + [] == ledger.Plain();
    }

    /** Any split of the input into writes is accepted. */
    method Write(bytes: seq<Byte>)
      requires Valid() && |buffer| < blockSize
      modifies this`output, this`buffer, this`blocks, this`hashed, this`ledger, pipeline
      ensures Valid() && |buffer| < blockSize && hashed == old(hashed) + bytes
    {
      hide Sent, Queued, Ledger.Plain;
      var rest := bytes;
      while rest != []
        invariant Valid() && |buffer| < blockSize && |rest| <= |bytes| && rest == bytes[|bytes| - |rest|..]
        invariant hashed == old(hashed) + bytes[..|bytes| - |rest|]
        decreases |rest|
      {
        var take := if |rest| < blockSize - |buffer| then |rest| else blockSize - |buffer|;
        assert bytes[..|bytes| - |rest|] + rest[..take] == bytes[..|bytes| - |rest[take..]|];
        Regroup(old(hashed), bytes[..|bytes| - |rest|], rest[..take]);
        Grow(rest[..take]);
        rest := rest[take..];
        if |buffer| == blockSize {
          SubmitBuffer();
        }
      }
      assert bytes[..|bytes|] == bytes;
    }

    method Grow(bytes: seq<Byte>)
      requires Valid() && |buffer| + |bytes| <= blockSize
      modifies this`buffer, this`hashed
      ensures Valid() && hashed == old(hashed) + bytes && buffer == old(buffer) + bytes
    {
      hide StreamingOrdered.Valid, StreamingOrdered.Pending, Ledger.Sent, Ledger.Waits, Ledger.Plain;
      Regroup(ledger.Plain(), buffer, bytes);
      buffer := buffer + bytes;
      hashed := hashed + bytes;
    }

    method Flush()
      requires Valid()
      modifies this`output, this`buffer, this`blocks, this`ledger, pipeline
      ensures Valid() && buffer == [] && ledger.waiting == []
    {
      hide StreamingOrdered.Valid, Ledger.Sent, Ledger.Plain;
      SubmitBuffer();
      while pipeline.HasPending()
        invariant Valid() && buffer == []
        decreases |pipeline.Pending()|
      {
        PendingNow();
        CommitNext();
      }
      NothingWaits();
    }

    lemma PendingNow()
      requires pipeline.Valid() && pipeline.HasPending()
      ensures pipeline.Pending() != []
    {
    }

    lemma NothingWaits()
      requires Queued() && !pipeline.HasPending()
      ensures ledger.waiting == []
    {
    }

    /** Flush, then the end mark and the content hash. */
    method Finish()
      requires Valid()
      modifies this`output, this`buffer, this`blocks, this`ledger, pipeline
      ensures var r := FramesFrom(output, 0, xxh, Report([], [], [])); r.Some? && r.value.output == old(hashed) && |r.value.frames| == 1
    {
      hide StreamingOrdered.Valid, StreamingOrdered.Pending, Ledger.Waits, FramesFrom, Le32, Flat, Body, FrameStart, AllHold;
      Flush();
      ghost var body := output;
      output := output + Le32(0);
      output := output + Le32(Hash32(xxh, hashed));
      Regroup(body, Le32(0), Le32(Hash32(xxh, hashed)));
      assert ledger.donePlains + [] == ledger.donePlains && ledger.Plain() + [] == ledger.Plain();
      FrameDecodes(output, blockSize, ledger.done, ledger.donePlains, xxh);
    }
  }

  lemma WaitingSent(l: Ledger, blockSize: nat, xxh: Hash, output: seq<Byte>, plain: seq<Byte>)
    requires l.Sent(blockSize, xxh, output)
    ensures l.(waiting := l.waiting + [plain]).Sent(blockSize, xxh, output)
  {
    hide Body, AllHold, AllSmall;
  }

  method Compress(data: seq<Byte>, level: nat, threads: nat, memoryLimit: nat, xxh: Hash) returns (r: Option<seq<Byte>>)
    requires 1 <= level <= 9
    ensures r.Some? <==> memoryLimit >= 655360
    ensures r.Some? ==> var report := FramesFrom(r.value, 0, xxh, Report([], [], [])); report.Some? && report.value.output == data
  {
    hide Encoder.Valid, FramesFrom;
    var size := SelectedBlockSize(memoryLimit);
    if size.None? {
      return None;
    }
    var encoder := new Encoder(level, threads, memoryLimit, size.value, xxh);
    encoder.Write(data);
    assert [] + data == data;
    encoder.Finish();
    r := Some(encoder.output);
  }

  /** Compressing and decompressing with any numbers of threads gives the data back. */
  method RoundTrip(data: seq<Byte>, level: nat, threads: nat, memoryLimit: nat, xxh: Hash, decoderThreads: nat, decoderMemory: nat) returns (r: Option<Report>)
    requires 1 <= level <= 9 && memoryLimit >= 655360
    ensures r.Some? && r.value.output == data
  {
    hide FramesFrom;
    var compressed := Compress(data, level, threads, memoryLimit, xxh);
    r := Decompress(compressed.value, xxh, decoderThreads, decoderMemory);
  }
}
