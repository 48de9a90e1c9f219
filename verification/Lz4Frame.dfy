/** LZ4 frames: what their bytes mean, and the decoder that reads independent blocks in batches and linked blocks in order. */
module Lz4Frame {
  import opened Bytes
  import opened Seqs
  import opened Options
  import opened OrderedDelivery
  import opened Lz4Block

  const FRAME_MAGIC: nat := 0x184D_2204
  const LEGACY_MAGIC: nat := 0x184C_2102
  const SKIPPABLE_MAGIC_START: nat := 0x184D_2A50
  const SKIPPABLE_MAGIC_END: nat := 0x184D_2A5F
  const WINDOW_SIZE: nat := 65536
  const MIN_PARALLEL_INPUT: nat := 1048576
  const MAX_BATCH_BLOCKS: nat := 64

  /** The 32-bit content hash, whatever it computes. */
  type Hash = seq<Byte> -> nat

  function Hash32(xxh: Hash, bytes: seq<Byte>): (h: nat)
    ensures h < 0x1_0000_0000
  {
    xxh(bytes) % 0x1_0000_0000
  }

  // ----- Meaning -----

  function Read32(data: seq<Byte>, at: nat): (r: Option<nat>)
    ensures r.Some? ==> at + 4 <= |data|
  {
    if at + 4 > |data| then None
    else Some(data[at] as int + 0x100 * data[at + 1] as int + 0x1_0000 * data[at + 2] as int + 0x100_0000 * data[at + 3] as int)
  }

  datatype FrameHeader = FrameHeader(blocksStart: nat, maxBlockSize: nat, independent: bool, blockChecksums: bool, contentChecksum: bool, contentSize: Option<nat>)

  function Read64(data: seq<Byte>, at: nat): Option<nat>
  {
    var low, high := Read32(data, at), Read32(data, at + 4);
    if low.None? || high.None? then None else Some(low.value + 0x1_0000_0000 * high.value)
  }

  function MaxBlockSize(code: nat): Option<nat>
  {
    if code == 4 then Some(65536) else if code == 5 then Some(262144) else if code == 6 then Some(1048576)
    else if code == 7 then Some(4194304) else None
  }

  /** The frame descriptor: version, flags, block size, optional content size, header checksum. */
  function HeaderAt(data: seq<Byte>, start: nat, xxh: Hash): (r: Option<FrameHeader>)
    ensures r.Some? ==> start < r.value.blocksStart <= |data| && r.value.maxBlockSize >= 65536
  {
    if start + 5 >= |data| then None else
      var flg, bd := data[start + 4] as int, data[start + 5] as int;
      if flg / 64 != 1 || flg / 2 % 2 != 0 || bd % 16 != 0 || bd / 128 != 0 then None else
        var max := MaxBlockSize(bd / 16 % 8);
        var hasSize := flg / 8 % 2 == 1;
        var size := if hasSize then Read64(data, start + 6) else None;
        var position := if hasSize then start + 14 else start + 6;
        if max.None? || (hasSize && size.None?) || flg % 2 != 0 || position >= |data| then None
        else if Hash32(xxh, data[start + 4..position]) / 256 % 256 != data[position] as int then None
        else Some(FrameHeader(position + 1, max.value, flg / 32 % 2 == 1, flg / 16 % 2 == 1, flg / 4 % 2 == 1, size))
  }

  datatype BlockLayout = BlockLayout(start: nat, end: nat, stored: bool, checksum: Option<nat>)

  datatype Next = End(at: nat) | Block(layout: BlockLayout, at: nat) | Invalid

  function NextBlock(data: seq<Byte>, at: nat, frame: FrameHeader): (r: Next)
    ensures r.End? ==> at < r.at <= |data|
    ensures r.Block? ==> at < r.at <= |data| && at + 4 == r.layout.start < r.layout.end <= r.at && r.layout.end <= r.layout.start + frame.maxBlockSize
  {
    var value := Read32(data, at);
    if value.None? then Invalid
    else if value.value == 0 then End(at + 4) else
      var stored, size := value.value / 0x8000_0000 == 1, value.value % 0x8000_0000;
      var start, end := at + 4, at + 4 + size;
      if size == 0 || size > frame.maxBlockSize || end > |data| then Invalid
      else if !frame.blockChecksums then Block(BlockLayout(start, end, stored, None), end) else
        var checksum := Read32(data, end);
        if checksum.None? then Invalid else Block(BlockLayout(start, end, stored, checksum), end + 4)
  }

  predicate Within(data: seq<Byte>, b: BlockLayout)
  {
    b.start <= b.end <= |data|
  }

  /** The bytes of one block, given the history it may reach into. */
  function BlockBytes(data: seq<Byte>, b: BlockLayout, dict: seq<Byte>, max: nat, xxh: Hash): Option<seq<Byte>>
    requires Within(data, b)
  {
    var encoded := data[b.start..b.end];
    if b.checksum.Some? && Hash32(xxh, encoded) != b.checksum.value then None
    else if b.stored then Some(encoded)
    else Decompressed(encoded, 0, dict, [], max)
  }

  datatype BlockInfo = BlockInfo(frame: nat, compressedStart: nat, compressedEnd: nat, decodedStart: nat, decodedLen: nat, stored: bool)

  /** What a frame has produced so far, and the blocks reported. */
  datatype Output = Output(frameNumber: nat, base: seq<Byte>, content: seq<Byte>, blocks: seq<BlockInfo>)
  {
    function Push(b: BlockLayout, bytes: seq<Byte>): Output
    {
      this.(content := content + bytes,
            blocks := blocks + [BlockInfo(frameNumber, b.start, b.end, |base| + |content|, |bytes|, b.stored)])
    }

    /** Independent blocks have no history; a linked block has the whole frame so far. */
    function History(frame: FrameHeader): seq<Byte>
    {
      if frame.independent then [] else content
    }
  }

  datatype Blocks = Blocks(output: Output, at: nat) | Failed

  function BlocksFrom(data: seq<Byte>, at: nat, frame: FrameHeader, xxh: Hash, out: Output): (r: Blocks)
    ensures r.Blocks? ==> at < r.at <= |data| && r.output.base == out.base && r.output.frameNumber == out.frameNumber
    decreases |data| - at
  {
    match NextBlock(data, at, frame)
    case Invalid => Failed
    case End(end) => Blocks(out, end)
    case Block(b, next) =>
      var bytes := BlockBytes(data, b, out.History(frame), frame.maxBlockSize, xxh);
      if bytes.None? then Failed else BlocksFrom(data, next, frame, xxh, out.Push(b, bytes.value))
  }

  datatype FrameInfo = FrameInfo(start: nat, end: nat, decodedStart: nat, decodedLen: nat, header: FrameHeader, firstBlock: nat, blockCount: nat)

  datatype Report = Report(output: seq<Byte>, frames: seq<FrameInfo>, blocks: seq<BlockInfo>)

  /** The size and the checksum that follow a frame's blocks agree with its content. */
  function TrailerAt(data: seq<Byte>, at: nat, header: FrameHeader, content: seq<Byte>, xxh: Hash): (r: Option<nat>)
    ensures r.Some? ==> at <= r.value
  {
    if header.contentSize.Some? && |content| != header.contentSize.value then None
    else if !header.contentChecksum then Some(at) else
      var expected := Read32(data, at);
      if expected.None? || Hash32(xxh, content) != expected.value then None else Some(at + 4)
  }

  /** A finished frame and the report with it added. */
  function FrameAt(data: seq<Byte>, at: nat, xxh: Hash, r: Report): (f: Option<(Report, nat)>)
    ensures f.Some? ==> at < f.value.1
  {
    var header := HeaderAt(data, at, xxh);
    if header.None? then None else
      var blocks := BlocksFrom(data, header.value.blocksStart, header.value, xxh, Output(|r.frames|, r.output, [], r.blocks));
      if blocks.Failed? then None else
        var end := TrailerAt(data, blocks.at, header.value, blocks.output.content, xxh);
        if end.None? then None else Some((AddFrame(r, at, end.value, header.value, blocks.output), end.value))
  }

  function AddFrame(r: Report, at: nat, end: nat, header: FrameHeader, out: Output): Report
  {
    Report(r.output + out.content,
           r.frames + [FrameInfo(at, end, |r.output|, |out.content|, header, |r.blocks|, if |out.blocks| >= |r.blocks| then |out.blocks| - |r.blocks| else 0)],
           out.blocks)
  }

  function SkippedAt(data: seq<Byte>, at: nat): (r: Option<nat>)
    ensures r.Some? ==> at < r.value <= |data|
  {
    var length := Read32(data, at + 4);
    if length.None? || at + 8 + length.value > |data| then None else Some(at + 8 + length.value)
  }

  predicate Skippable(magic: nat)
  {
    SKIPPABLE_MAGIC_START <= magic <= SKIPPABLE_MAGIC_END
  }

  /** Frames and skippable frames up to the end of the input; at least one frame. */
  function FramesFrom(data: seq<Byte>, at: nat, xxh: Hash, r: Report): Option<Report>
    decreases |data| - at
  {
    if at >= |data| then (if r.frames == [] then None else Some(r)) else
      var magic := Read32(data, at);
      if magic.None? then None
      else if Skippable(magic.value) then
        var next := SkippedAt(data, at);
        if next.None? then None else FramesFrom(data, next.value, xxh, r)
      else if magic.value != FRAME_MAGIC then None else
        var frame := FrameAt(data, at, xxh, r);
        if frame.None? then None else FramesFrom(data, frame.value.1, xxh, frame.value.0)
  }

  // ----- Committing -----

  class FrameCommitter {
    const data: seq<Byte>
    const decodedBase: nat
    const frameNumber: nat
    var output: seq<Byte>
    /** The bytes fed to the content hash. */
    var hashed: seq<Byte>
    var decoded: nat
    var blocks: seq<BlockInfo>
    ghost const base: seq<Byte>

    ghost predicate Valid()
      reads this
    {
      output == base + hashed && decoded == |hashed| && decodedBase == |base|
    }

    ghost function View(): Output
      reads this
    {
      Output(frameNumber, base, hashed, blocks)
    }

    constructor (data: seq<Byte>, frameNumber: nat, output: seq<Byte>, blocks: seq<BlockInfo>)
      ensures Valid() && View() == Output(frameNumber, output, [], blocks) && this.data == data
    {
      this.data, this.frameNumber, this.output, this.blocks := data, frameNumber, output, blocks;
      decodedBase, hashed, decoded := |output|, [], 0;
      base := output;
    }

    method Commit(layout: BlockLayout, bytes: seq<Byte>)
      requires Valid()
      modifies this
      ensures Valid() && View() == old(View()).Push(layout, bytes)
    {
      Regroup(base, hashed, bytes);
      output := output + bytes;
      hashed := hashed + bytes;
      blocks := blocks + [BlockInfo(frameNumber, layout.start, layout.end, decodedBase + decoded, |bytes|, layout.stored)];
      decoded := decoded + |bytes|;
    }
  }

  method DecodeLayoutBlock(data: seq<Byte>, b: BlockLayout, dict: seq<Byte>, max: nat, xxh: Hash) returns (r: Option<seq<Byte>>)
    requires Within(data, b)
    ensures r == BlockBytes(data, b, dict, max, xxh)
  {
    var encoded := data[b.start..b.end];
    if b.checksum.Some? && Hash32(xxh, encoded) != b.checksum.value {
      return None;
    }
    if b.stored {
      return Some(encoded);
    }
    r := DecompressBlock(encoded, dict, max);
  }

  // ----- Linked blocks -----

  /** The last 64 KiB of everything so far. */
  ghost predicate IsWindow(history: seq<Byte>, content: seq<Byte>)
  {
    |history| == (if |content| < WINDOW_SIZE then |content| else WINDOW_SIZE) && history == content[|content| - |history|..]
  }

  function UpdateHistory(history: seq<Byte>, bytes: seq<Byte>): (r: seq<Byte>)
    requires |history| <= WINDOW_SIZE
    ensures |r| <= WINDOW_SIZE
  {
    if |bytes| >= WINDOW_SIZE then bytes[|bytes| - WINDOW_SIZE..]
    else
      var excess := if |history| + |bytes| > WINDOW_SIZE then |history| + |bytes| - WINDOW_SIZE else 0;
      history[excess..] + bytes
  }

  /** Updating the rolling window keeps it the last 64 KiB. */
  lemma WindowRolls(history: seq<Byte>, content: seq<Byte>, bytes: seq<Byte>)
    requires IsWindow(history, content)
    ensures IsWindow(UpdateHistory(history, bytes), content + bytes)
  {
    if |bytes| >= WINDOW_SIZE {
      LongTail(content, bytes, WINDOW_SIZE);
    } else {
      ShortTail(history, content, bytes, if |history| + |bytes| > WINDOW_SIZE then |history| + |bytes| - WINDOW_SIZE else 0);
    }
  }

  lemma LongTail(content: seq<Byte>, bytes: seq<Byte>, w: nat)
    requires w <= |bytes|
    ensures (content + bytes)[|content + bytes| - w..] == bytes[|bytes| - w..]
  {
  }

  lemma ShortTail(history: seq<Byte>, content: seq<Byte>, bytes: seq<Byte>, excess: nat)
    requires |history| <= |content| && history == content[|content| - |history|..] && excess <= |history|
    ensures history[excess..] + bytes == (content + bytes)[|content| - |history| + excess..]
  {
  }

  /** The window gives a linked block the same bytes as the whole frame before it. */
  lemma WindowDecodes(data: seq<Byte>, b: BlockLayout, history: seq<Byte>, content: seq<Byte>, max: nat, xxh: Hash)
    requires Within(data, b) && IsWindow(history, content)
    ensures BlockBytes(data, b, history, max, xxh) == BlockBytes(data, b, content, max, xxh)
  {
    hide Decompressed;
    if |content| >= WINDOW_SIZE {
      var before := content[..|content| - |history|];
      assert content == before + history;
      WindowSuffices(data[b.start..b.end], 0, before, history, [], max);
    } else {
      assert history == content;
    }
  }

  method DecodeLinked(data: seq<Byte>, frame: FrameHeader, position: nat, xxh: Hash, committer: FrameCommitter) returns (r: Option<nat>)
    requires committer.Valid() && !frame.independent && committer.View().content == []
    modifies committer
    ensures var spec := BlocksFrom(data, position, frame, xxh, old(committer.View()));
      if spec.Failed? then r == None else r == Some(spec.at) && committer.Valid() && committer.View() == spec.output
  {
    hide BlockBytes, NextBlock, IsWindow;
    ghost var start := committer.View();
    var history: seq<Byte>, at := [], position;
    EmptyWindow();
    while true
      invariant committer.Valid() && IsWindow(history, committer.View().content) && |history| <= WINDOW_SIZE
      invariant BlocksFrom(data, at, frame, xxh, committer.View()) == BlocksFrom(data, position, frame, xxh, start)
      decreases |data| - at
    {
      var next := NextBlock(data, at, frame);
      match next
      case Invalid => return None;
      case End(end) => return Some(end);
      case Block(b, after) =>
        WindowDecodes(data, b, history, committer.View().content, frame.maxBlockSize, xxh);
        var bytes := DecodeLayoutBlock(data, b, history, frame.maxBlockSize, xxh);
        if bytes.None? {
          return None;
        }
        WindowRolls(history, committer.View().content, bytes.value);
        history := UpdateHistory(history, bytes.value);
        committer.Commit(b, bytes.value);
        at := after;
    }
  }

  lemma EmptyWindow()
    ensures IsWindow([], [])
  {
  }

  // ----- Independent blocks in batches -----

  /** The layouts of consecutive blocks from `at` to `end`. */
  ghost predicate Consecutive(data: seq<Byte>, frame: FrameHeader, at: nat, batch: seq<BlockLayout>, end: nat)
    decreases |batch|
  {
    if batch == [] then at == end else
      var next := NextBlock(data, at, frame);
      next.Block? && next.layout == batch[0] && Consecutive(data, frame, next.at, batch[1..], end)
  }

  lemma {:induction false} ConsecutivePush(data: seq<Byte>, frame: FrameHeader, at: nat, batch: seq<BlockLayout>, end: nat)
    requires Consecutive(data, frame, at, batch, end) && NextBlock(data, end, frame).Block?
    ensures Consecutive(data, frame, at, batch + [NextBlock(data, end, frame).layout], NextBlock(data, end, frame).at)
    decreases |batch|
  {
    hide NextBlock;
    var next := NextBlock(data, end, frame);
    var more := batch + [next.layout];
    if batch == [] {
      assert more[1..] == [];
    } else {
      ConsecutivePush(data, frame, NextBlock(data, at, frame).at, batch[1..], end);
      assert more[1..] == batch[1..] + [next.layout];
    }
  }

  lemma {:induction false} ConsecutiveWithin(data: seq<Byte>, frame: FrameHeader, at: nat, batch: seq<BlockLayout>, end: nat)
    requires Consecutive(data, frame, at, batch, end)
    ensures at <= end && forall k :: 0 <= k < |batch| ==> Within(data, batch[k])
    decreases |batch|
  {
    if batch != [] {
      var next := NextBlock(data, at, frame);
      ConsecutiveWithin(data, frame, next.at, batch[1..], end);
      forall k | 0 <= k < |batch| ensures Within(data, batch[k]) {
        if k > 0 {
          assert batch[k] == batch[1..][k - 1];
        }
      }
    }
  }

  /** Blocks committed one after another, until one fails. */
  ghost function CommitFrom(data: seq<Byte>, batch: seq<BlockLayout>, k: nat, frame: FrameHeader, xxh: Hash, out: Output): Option<Output>
    requires k <= |batch| && forall i :: 0 <= i < |batch| ==> Within(data, batch[i])
    decreases |batch| - k
  {
    if k == |batch| then Some(out) else
      var bytes := BlockBytes(data, batch[k], [], frame.maxBlockSize, xxh);
      if bytes.None? then None else CommitFrom(data, batch, k + 1, frame, xxh, out.Push(batch[k], bytes.value))
  }

  /** Parsing a batch first and decoding it afterwards is decoding block by block. */
  lemma {:induction false} BatchIsSerial(data: seq<Byte>, frame: FrameHeader, xxh: Hash, batch: seq<BlockLayout>, k: nat, at: nat, end: nat, out: Output)
    requires frame.independent && k <= |batch| && (forall i :: 0 <= i < |batch| ==> Within(data, batch[i])) && Consecutive(data, frame, at, batch[k..], end)
    ensures BlocksFrom(data, at, frame, xxh, out) ==
            var done := CommitFrom(data, batch, k, frame, xxh, out); if done.None? then Failed else BlocksFrom(data, end, frame, xxh, done.value)
    decreases |batch| - k
  {
    hide NextBlock, BlockBytes;
    if k < |batch| {
      var next := NextBlock(data, at, frame);
      assert batch[k..][1..] == batch[k + 1..] && batch[k..][0] == batch[k];
      var bytes := BlockBytes(data, batch[k], [], frame.maxBlockSize, xxh);
      if bytes.Some? {
        BatchIsSerial(data, frame, xxh, batch, k + 1, next.at, end, out.Push(batch[k], bytes.value));
      }
    }
  }

  function Work(b: BlockLayout, frame: FrameHeader): nat
    requires b.start <= b.end
  {
    if !b.stored then frame.maxBlockSize else if b.checksum.Some? then b.end - b.start else 0
  }

  datatype Stop = Full | Ended | ParseError

  /** Collect the next blocks until there is work enough for every thread, or the frame ends, or it is malformed. */
  method CollectBatch(data: seq<Byte>, frame: FrameHeader, position: nat, threads: nat) returns (batch: seq<BlockLayout>, work: nat, at: nat, stop: Stop)
    requires threads >= 2
    ensures stop == Full ==> Consecutive(data, frame, position, batch, at) && position < at <= |data|
    ensures stop == Ended ==> exists end :: Consecutive(data, frame, position, batch, end) && NextBlock(data, end, frame) == End(at)
    ensures stop == ParseError ==> Consecutive(data, frame, position, batch, at) && NextBlock(data, at, frame) == Invalid
  {
    hide NextBlock;
    batch, work, at := [], 0, position;
    while |batch| < MAX_BATCH_BLOCKS && (|batch| < threads || work < MIN_PARALLEL_INPUT)
      invariant Consecutive(data, frame, position, batch, at) && at >= position && (batch != [] ==> position < at <= |data|)
      decreases |data| - at
    {
      hide Consecutive;
      var next := NextBlock(data, at, frame);
      match next
      case Block(b, after) =>
        ConsecutivePush(data, frame, position, batch, at);
        work := work + Work(b, frame);
        batch := batch + [b];
        at := after;
      case End(end) =>
        at := end;
        return batch, work, at, Ended;
      case Invalid => return batch, work, at, ParseError;
    }
    stop := Full;
  }

  method CommitSerially(data: seq<Byte>, batch: seq<BlockLayout>, frame: FrameHeader, xxh: Hash, committer: FrameCommitter) returns (ok: bool)
    requires committer.Valid() && forall i :: 0 <= i < |batch| ==> Within(data, batch[i])
    modifies committer
    ensures var spec := CommitFrom(data, batch, 0, frame, xxh, old(committer.View())); ok <==> spec.Some?
    ensures ok ==> committer.Valid() && committer.View() == CommitFrom(data, batch, 0, frame, xxh, old(committer.View())).value
  {
    hide BlockBytes;
    ghost var start := committer.View();
    for k := 0 to |batch|
      invariant committer.Valid() && CommitFrom(data, batch, k, frame, xxh, committer.View()) == CommitFrom(data, batch, 0, frame, xxh, start)
    {
      var bytes := DecodeLayoutBlock(data, batch[k], [], frame.maxBlockSize, xxh);
      if bytes.None? {
        return false;
      }
      committer.Commit(batch[k], bytes.value);
    }
    ok := true;
  }

  /** Each key has the value of its block. */
  ghost predicate ValuesOf(data: seq<Byte>, batch: seq<BlockLayout>, key: nat, frame: FrameHeader, xxh: Hash, values: map<nat, Option<seq<Byte>>>)
    requires forall i :: 0 <= i < |batch| ==> Within(data, batch[i])
  {
    forall j: nat :: key <= j < |batch| ==> j in values && values[j] == BlockBytes(data, batch[j], [], frame.maxBlockSize, xxh)
  }

  method RunJobs(data: seq<Byte>, batch: seq<BlockLayout>, frame: FrameHeader, xxh: Hash) returns (values: map<nat, Option<seq<Byte>>>)
    requires forall i :: 0 <= i < |batch| ==> Within(data, batch[i])
    ensures ValuesOf(data, batch, 0, frame, xxh, values)
  {
    hide BlockBytes;
    values := map[];
    for k := 0 to |batch|
      invariant forall j: nat :: j < k ==> j in values && values[j] == BlockBytes(data, batch[j], [], frame.maxBlockSize, xxh)
    {
      var value := DecodeLayoutBlock(data, batch[k], [], frame.maxBlockSize, xxh);
      values := values[k := value];
    }
  }

  /** Workers finish in any order; results are taken, and committed, in order. */
  method CommitParallel(data: seq<Byte>, batch: seq<BlockLayout>, frame: FrameHeader, xxh: Hash, committer: FrameCommitter) returns (ok: bool)
    requires committer.Valid() && forall i :: 0 <= i < |batch| ==> Within(data, batch[i])
    modifies committer
    ensures var spec := CommitFrom(data, batch, 0, frame, xxh, old(committer.View())); ok <==> spec.Some?
    ensures ok ==> committer.Valid() && committer.View() == CommitFrom(data, batch, 0, frame, xxh, old(committer.View())).value
  {
    hide BlockBytes, OrderedResults.Values;
    ghost var start := committer.View();
    var values := RunJobs(data, batch, frame, xxh);
    var results := new OrderedResults(values);
    for key := 0 to |batch|
      invariant fresh(results) && results.Valid() && committer.Valid() && ValuesOf(data, batch, key, frame, xxh, results.Values())
      invariant CommitFrom(data, batch, key, frame, xxh, committer.View()) == CommitFrom(data, batch, 0, frame, xxh, start)
    {
      var bytes := results.Take(key);
      if bytes.value.None? {
        return false;
      }
      committer.Commit(batch[key], bytes.value.value);
    }
    ok := true;
  }

  /** Whatever the batching, an independent frame decodes as if block by block. */
  method DecodeIndependent(data: seq<Byte>, frame: FrameHeader, position: nat, xxh: Hash, threads: nat, memoryLimit: nat, committer: FrameCommitter) returns (r: Option<nat>)
    requires committer.Valid() && frame.independent && frame.maxBlockSize > 0
    modifies committer
    ensures var spec := BlocksFrom(data, position, frame, xxh, old(committer.View()));
      if spec.Failed? then r == None else r == Some(spec.at) && committer.Valid() && committer.View() == spec.output
  {
    hide BlockBytes, NextBlock, Consecutive;
    ghost var start := committer.View();
    var at := position;
    if threads <= 1 || memoryLimit / frame.maxBlockSize < 2 {
      while true
        invariant committer.Valid() && BlocksFrom(data, at, frame, xxh, committer.View()) == BlocksFrom(data, position, frame, xxh, start)
        decreases |data| - at
      {
        var next := NextBlock(data, at, frame);
        match next
        case Invalid => return None;
        case End(end) => return Some(end);
        case Block(b, after) =>
          var bytes := DecodeLayoutBlock(data, b, [], frame.maxBlockSize, xxh);
          if bytes.None? {
            return None;
          }
          committer.Commit(b, bytes.value);
          at := after;
      }
    }
    while true
      invariant committer.Valid() && BlocksFrom(data, at, frame, xxh, committer.View()) == BlocksFrom(data, position, frame, xxh, start)
      decreases |data| - at
    {
      hide CommitFrom;
      var batch, work, after, stop := CollectBatch(data, frame, at, threads);
      ghost var end := after;
      if stop == Ended {
        end :| Consecutive(data, frame, at, batch, end) && NextBlock(data, end, frame) == End(after);
      }
      ConsecutiveWithin(data, frame, at, batch, end);
      assert batch[0..] == batch;
      BatchIsSerial(data, frame, xxh, batch, 0, at, end, committer.View());
      var parallel := |batch| >= 2 && work >= MIN_PARALLEL_INPUT && exists k :: 0 <= k < |batch| && (!batch[k].stored || batch[k].checksum.Some?);
      var ok: bool;
      if parallel {
        ok := CommitParallel(data, batch, frame, xxh, committer);
      } else {
        ok := CommitSerially(data, batch, frame, xxh, committer);
      }
      if !ok || stop == ParseError {
        return None;
      }
      if stop == Ended {
        return Some(after);
      }
      at := after;
    }
  }

  // ----- Whole inputs -----

  method DecodeFrame(data: seq<Byte>, at: nat, xxh: Hash, threads: nat, memoryLimit: nat, report: Report) returns (r: Option<(Report, nat)>)
    ensures r == FrameAt(data, at, xxh, report)
  {
    hide BlocksFrom, HeaderAt;
    var header := HeaderAt(data, at, xxh);
    if header.None? {
      return None;
    }
    var committer := new FrameCommitter(data, |report.frames|, report.output, report.blocks);
    var end: Option<nat>;
    if header.value.independent {
      end := DecodeIndependent(data, header.value, header.value.blocksStart, xxh, threads, memoryLimit, committer);
    } else {
      end := DecodeLinked(data, header.value, header.value.blocksStart, xxh, committer);
    }
    if end.None? {
      return None;
    }
    var after := TrailerAt(data, end.value, header.value, committer.hashed, xxh);
    if after.None? {
      return None;
    }
    var blockCount := if |committer.blocks| >= |report.blocks| then |committer.blocks| - |report.blocks| else 0;
    r := Some((Report(committer.output,
                      report.frames + [FrameInfo(at, after.value, |report.output|, committer.decoded, header.value, |report.blocks|, blockCount)],
                      committer.blocks), after.value));
  }

  /** Every frame, independent or linked, decoded serially or in batches by any number of threads: the same report. */
  method Decompress(data: seq<Byte>, xxh: Hash, threads: nat, memoryLimit: nat) returns (r: Option<Report>)
    ensures r == FramesFrom(data, 0, xxh, Report([], [], []))
  {
    hide FrameAt, Read32, SkippedAt;
    var report, at := Report([], [], []), 0;
    while at < |data|
      invariant FramesFrom(data, at, xxh, report) == FramesFrom(data, 0, xxh, Report([], [], []))
      decreases |data| - at
    {
      var magic := Read32(data, at);
      if magic.None? {
        return None;
      }
      if Skippable(magic.value) {
        var next := SkippedAt(data, at);
        if next.None? {
          return None;
        }
        at := next.value;
        continue;
      }
      if magic.value == LEGACY_MAGIC || magic.value != FRAME_MAGIC {
        return None;
      }
      var frame := DecodeFrame(data, at, xxh, threads, memoryLimit, report);
      if frame.None? {
        return None;
      }
      report, at := frame.value.0, frame.value.1;
    }
    r := if report.frames == [] then None else Some(report);
  }
}
