/** The streaming DEFLATE encoder: segments that share a dictionary, worker pool, final block. */
module DeflateEncoder {
  import opened Bytes
  import opened Seqs
  import opened Sums
  import opened BitStream
  import opened LsbStream
  import opened Inflate
  import opened DeflateBlocks
  import opened DeflateSegments
  import opened DeflateEncode
  import opened Streaming
  import InflateTable
  import DynamicHeader
  import Options
  import Tokenize
  import MatchFinder
  import SerialInflate
  import ParallelInflate

  const TARGET_SEGMENT_SIZE: nat := 1048576
  const MIN_SEGMENT_SIZE: nat := 65536

  // ----- Stored segments -----

  /** Header, padding, length, complement, bytes. */
  method WriteStored(output: BitWriter, header: nat, chunk: seq<Byte>)
    requires output.Valid() && output.bits == 0 && header < 2 && |chunk| <= 65535
    modifies output
    ensures output.Valid() && output.bits == 0 && output.Written() == old(output.Written()) + StoredBits(header, 0, chunk)
  {
    hide BitWriter.Valid, BitWriter.Written, LsbBits, Packed, Zeros, PadOf, Pow2;
    DynamicHeader.Pow2Three();
    ghost var start := output.Written();
    WriterPad(output, |start|);
    output.WriteBits(header, 3);
    WriterPad(output, |start| + 3);
    StartsByte(|start|);
    output.AlignZero();
    output.WriteAligned(Le16(|chunk|));
    output.WriteAligned(Le16(65535 - |chunk|));
    output.WriteAligned(chunk);
    Regroup5(start, LsbBits(header, 3), Zeros(PadOf(3)), Packed(Le16(|chunk|)), Packed(Le16(65535 - |chunk|)), Packed(chunk));
  }

  lemma StartsByte(n: nat)
    requires PadOf(n) == 0
    ensures n % 8 == 0 && PadOf(n + 3) == PadOf(3)
  {
    PadShift(n, 3);
  }

  method EncodeStored(bytes: seq<Byte>, ghost out: seq<nat>) returns (r: seq<Byte>)
    ensures Encodes(Packed(r), out, bytes)
  {
    hide BitWriter.Valid, BitWriter.Written, Packed, Encodes, StoredBits;
    var output := new BitWriter();
    EncodesNothing(out);
    var start := 0;
    while start < |bytes|
      invariant start <= |bytes| && fresh(output) && output.Valid() && output.bits == 0
      invariant Encodes(output.Written(), out, bytes[..start])
    {
      var stop := if |bytes| - start <= 65535 then |bytes| else start + 65535;
      var chunk := bytes[start..stop];
      StoredEncodes(chunk, out + bytes[..start]);
      EncodesBoth(output.Written(), StoredBits(0, 0, chunk), out, bytes[..start], chunk);
      assert bytes[..start] + chunk == bytes[..stop];
      WriteStored(output, 0, chunk);
      start := stop;
    }
    assert bytes[..start] == bytes;
    NoPadding(output.Written());
    r := output.FinishAligned();
  }

  method FinalBlock() returns (r: seq<Byte>)
    ensures IsFinalBlock(r)
  {
    hide BitWriter.Valid, BitWriter.Written, LsbBits, Packed, Pow2, StoredBits;
    var output := new BitWriter();
    WriteStored(output, 1, []);
    assert [] + StoredBits(1, 0, []) == StoredBits(1, 0, []);
    NoPadding(output.Written());
    r := output.FinishAligned();
  }

  // ----- Segments -----

  /** What a worker hands back; the checksum is carried as the bytes it covers. */
  datatype Segment = Segment(encoded: seq<Byte>, inputLen: nat, hashed: seq<Byte>)

  ghost predicate Delivers(segment: Segment, history: seq<nat>, plain: seq<Byte>)
  {
    Encodes(Packed(segment.encoded), history, plain) && segment.hashed == plain && segment.inputLen == |plain|
  }

  lemma {:induction false} TokensBound(out: seq<nat>, tokens: seq<Op>)
    requires Run(out, tokens).Some? && forall i :: 0 <= i < |tokens| ==> Tokenize.IsToken(tokens[i])
    ensures |Run(out, tokens).value| >= |out| + |tokens|
  {
    if tokens != [] {
      assert Tokenize.IsToken(tokens[|tokens| - 1]);
      TokensBound(out, tokens[..|tokens| - 1]);
    }
  }

  /** Whichever form is shortest, it encodes the bytes after the prefix. */
  method EncodeSegment(buffer: seq<Byte>, prefix: nat, level: nat) returns (segment: Segment)
    requires prefix <= |buffer| < MatchFinder.NONE && 1 <= level <= 9
    ensures Delivers(segment, buffer[..prefix], buffer[prefix..])
    ensures exists stored :: Encodes(Packed(stored), buffer[..prefix], buffer[prefix..]) && |segment.encoded| <= |stored|
  {
    hide Run, Encodes, Packed;
    var plain := buffer[prefix..];
    ghost var out: seq<nat> := buffer[..prefix];
    var tokens := Tokenize.Tokens(buffer, prefix, level);
    assert out + plain == buffer;
    TokensBound(out, tokens);
    var fixed := EncodeFixed(tokens, out, plain);
    var dynamic := EncodeDynamic(tokens, out, plain);
    var stored := EncodeStored(plain, out);
    var encoded := if |dynamic| < |fixed| then dynamic else fixed;
    encoded := if |encoded| < |stored| then encoded else stored;
    segment := Segment(encoded, |plain|, plain);
  }

  // ----- Serial compression -----

  /** `tail` is what `all` ends with. */
  predicate Ends(all: seq<Byte>, tail: seq<Byte>)
  {
    |tail| <= |all| && all[|all| - |tail|..] == tail
  }

  /** The last bytes of the input so far. */
  function Kept(previous: seq<Byte>, chunk: seq<Byte>): (r: seq<Byte>)
    ensures |r| == Min(|previous| + |chunk|, if |chunk| >= WINDOW then WINDOW else Min(|previous| + |chunk|, WINDOW))
  {
    if |chunk| >= WINDOW then chunk[|chunk| - WINDOW..]
    else
      var both := previous + chunk;
      if |both| > WINDOW then both[|both| - WINDOW..] else both
  }

  lemma KeptEnds(all: seq<Byte>, previous: seq<Byte>, chunk: seq<Byte>)
    requires Ends(all, previous)
    ensures Ends(all + chunk, Kept(previous, chunk))
  {
    var both := previous + chunk;
    assert (all + chunk)[|all| - |previous|..] == all[|all| - |previous|..] + chunk;
  }

  /** A segment made with a dictionary continues everything that ends with the dictionary. */
  lemma SegmentContinues(output: seq<Byte>, done: seq<Byte>, previous: seq<Byte>, segment: Segment, plain: seq<Byte>)
    requires Encodes(Packed(output), [], done) && Ends(done, previous) && Delivers(segment, previous, plain)
    ensures Encodes(Packed(output + segment.encoded), [], done + plain)
  {
    hide Encodes, Packed;
    var before := done[..|done| - |previous|];
    EncodesAfter(Packed(segment.encoded), before, previous, plain);
    assert before + previous == done;
    assert [] + done == done;
    EncodesBoth(Packed(output), Packed(segment.encoded), [], done, plain);
    PackedAppend(output, segment.encoded);
  }

  datatype Compressed = Compressed(bytes: seq<Byte>, inputLen: nat, hashed: seq<Byte>)

  /** The stream decodes to the input, and its checksum is taken over the input. */
  ghost predicate CompressedOf(r: Compressed, data: seq<Byte>)
  {
    && r.hashed == data && r.inputLen == |data|
    && forall base: nat :: var o := ParallelInflate.Inflated(r.bytes, 0, base); o.Finished? && o.out == data && o.end == 8 * |r.bytes|
  }

  lemma WholeStream(body: seq<Byte>, last: seq<Byte>, data: seq<Byte>)
    requires Encodes(Packed(body), [], data) && IsFinalBlock(last)
    ensures CompressedOf(Compressed(body + last, |data|, data), data)
  {
    hide Encodes, IsFinalBlock, Packed, ParserOf, Decode;
    forall base: nat ensures var o := ParallelInflate.Inflated(body + last, 0, base); o.Finished? && o.out == data && o.end == 8 * |body + last| {
      StreamDecodes(body, last, data, base);
    }
  }

  /** What the serial compressor has done after the first `start` bytes. */
  ghost predicate Serially(data: seq<Byte>, start: nat, output: seq<Byte>, hashed: seq<Byte>, previous: seq<Byte>)
  {
    && start <= |data| && |previous| <= WINDOW && Ends(data[..start], previous)
    && hashed == data[..start] && Encodes(Packed(output), [], data[..start])
  }

  lemma SeriallyStep(data: seq<Byte>, start: nat, stop: nat, output: seq<Byte>, hashed: seq<Byte>, previous: seq<Byte>, segment: Segment)
    requires start <= stop <= |data| && Serially(data, start, output, hashed, previous) && Delivers(segment, previous, data[start..stop])
    ensures Serially(data, stop, output + segment.encoded, hashed + segment.hashed, Kept(previous, data[start..stop]))
  {
    hide Encodes, Packed, Ends, Kept;
    var chunk := data[start..stop];
    SegmentContinues(output, data[..start], previous, segment, chunk);
    KeptEnds(data[..start], previous, chunk);
    assert data[..start] + chunk == data[..stop];
  }

  lemma SeriallyStart(data: seq<Byte>)
    ensures Serially(data, 0, [], [], [])
  {
    hide Encodes;
    EncodesNothing([]);
    EmptyPacked();
    assert data[..0] == [];
  }

  lemma SeriallyEnd(data: seq<Byte>, output: seq<Byte>, hashed: seq<Byte>, previous: seq<Byte>, last: seq<Byte>)
    requires Serially(data, |data|, output, hashed, previous) && IsFinalBlock(last)
    ensures CompressedOf(Compressed(output + last, |data|, hashed), data)
  {
    hide Encodes, Packed, Ends, CompressedOf, IsFinalBlock;
    assert data[..|data|] == data;
    WholeStream(output, last, data);
  }

  method SerialSegment(previous: seq<Byte>, chunk: seq<Byte>, level: nat) returns (segment: Segment)
    requires 1 <= level <= 9 && |previous| <= WINDOW && |chunk| <= TARGET_SEGMENT_SIZE
    ensures Delivers(segment, previous, chunk)
  {
    hide Delivers;
    var buffer := previous + chunk;
    segment := EncodeSegment(buffer, |previous|, level);
    assert buffer[..|previous|] == previous && buffer[|previous|..] == chunk;
  }

  method CompressBytesSerial(data: seq<Byte>, level: nat) returns (r: Compressed)
    requires 1 <= level <= 9
    ensures CompressedOf(r, data)
  {
    hide Serially, Delivers, IsFinalBlock, CompressedOf, Kept;
    var output: seq<Byte>, hashed: seq<Byte>, previous: seq<Byte> := [], [], [];
    SeriallyStart(data);
    var start := 0;
    while start < |data|
      invariant start <= |data| && |previous| <= WINDOW && Serially(data, start, output, hashed, previous)
    {
      var stop := Min(start + TARGET_SEGMENT_SIZE, |data|);
      var chunk := data[start..stop];
      var segment := SerialSegment(previous, chunk, level);
      SeriallyStep(data, start, stop, output, hashed, previous, segment);
      output := output + segment.encoded;
      hashed := hashed + segment.hashed;
      previous := Kept(previous, chunk);
      assert |previous| <= WINDOW by { SeriallyWindow(data, stop, output, hashed, previous); }
      start := stop;
    }
    var last := FinalBlock();
    SeriallyEnd(data, output, hashed, previous, last);
    r := Compressed(output + last, |data|, hashed);
  }

  lemma SeriallyWindow(data: seq<Byte>, start: nat, output: seq<Byte>, hashed: seq<Byte>, previous: seq<Byte>)
    requires Serially(data, start, output, hashed, previous)
    ensures |previous| <= WINDOW
  {
  }

  lemma EmptyPacked()
    ensures Packed([]) == []
  {
  }

  // ----- Memory -----

  function Reservation(segmentSize: nat): nat
  {
    (segmentSize + WINDOW) * 6 + 65536 * 8
  }

  /** The largest of the halved segment sizes whose reservation fits, if any does. */
  method SegmentSize(memoryLimit: nat) returns (r: Options.Option<nat>)
    ensures r.Some? <==> Reservation(MIN_SEGMENT_SIZE) <= memoryLimit
    ensures r.Some? ==> MIN_SEGMENT_SIZE <= r.value <= TARGET_SEGMENT_SIZE && Reservation(r.value) <= memoryLimit
    ensures r.Some? && r.value < TARGET_SEGMENT_SIZE ==> Reservation(2 * r.value) > memoryLimit
  {
    var size := TARGET_SEGMENT_SIZE;
    while size > MIN_SEGMENT_SIZE && Reservation(size) > memoryLimit
      invariant size in {1048576, 524288, 262144, 131072, 65536}
      invariant size < TARGET_SEGMENT_SIZE ==> Reservation(2 * size) > memoryLimit
    {
      size := size / 2;
    }
    r := if Reservation(size) > memoryLimit then Options.None else Options.Some(size);
  }

  // ----- The streaming encoder -----

  function Flat(parts: seq<seq<Byte>>): seq<Byte>
  {
    if parts == [] then [] else parts[0] + Flat(parts[1..])
  }

  /** The jobs with the workers continue, in order, what came before them. */
  ghost predicate Awaits(pending: seq<Job<Segment>>, history: seq<Byte>, waiting: seq<seq<Byte>>)
    decreases |pending|
  {
    && |pending| == |waiting|
    && (pending != [] ==> Delivers(pending[0].value, history, waiting[0]) && Awaits(pending[1..], history + waiting[0], waiting[1..]))
  }

  lemma {:induction false} AwaitsAdd(pending: seq<Job<Segment>>, history: seq<Byte>, waiting: seq<seq<Byte>>, job: Job<Segment>, plain: seq<Byte>)
    requires Awaits(pending, history, waiting) && Delivers(job.value, history + Flat(waiting), plain)
    ensures Awaits(pending + [job], history, waiting + [plain]) && Flat(waiting + [plain]) == Flat(waiting) + plain
    decreases |pending|
  {
    hide Delivers;
    if pending == [] {
      assert history + Flat(waiting) == history;
      assert [plain][1..] == [] && [job][1..] == [];
      assert pending + [job] == [job] && waiting + [plain] == [plain];
      assert plain + [] == plain;
    } else {
      Regroup(history, waiting[0], Flat(waiting[1..]));
      Regroup(waiting[0], Flat(waiting[1..]), plain);
      AwaitsAdd(pending[1..], history + waiting[0], waiting[1..], job, plain);
      assert (pending + [job])[1..] == pending[1..] + [job] && (waiting + [plain])[1..] == waiting[1..] + [plain];
    }
  }

  /** Sharing a dictionary is enough: a worker sees only the last bytes before its segment. */
  lemma DeliversAfter(segment: Segment, history: seq<Byte>, tail: seq<Byte>, plain: seq<Byte>)
    requires Delivers(segment, tail, plain) && Ends(history, tail)
    ensures Delivers(segment, history, plain)
  {
    hide Encodes, Packed;
    var before := history[..|history| - |tail|];
    EncodesAfter(Packed(segment.encoded), before, tail, plain);
    assert before + tail == history;
  }

  class Encoder {
    const level: nat
    const segmentSize: nat
    const reservation: nat
    const pipeline: StreamingOrdered<Segment>
    var output: seq<Byte>
    var buffer: seq<Byte>
    var prefixLen: nat
    var hashed: seq<Byte>
    var inputLen: nat
    var outputLen: nat
    /** The plain bytes of each segment with the workers. */
    ghost var waiting: seq<seq<Byte>>

    ghost predicate Sent()
      reads this
    {
      Encodes(Packed(output), [], hashed) && inputLen == |hashed| && outputLen == |output|
    }

    ghost predicate Queued()
      reads this, pipeline
    {
      && pipeline.Valid() && pipeline.maxActive > 0 && reservation <= pipeline.memoryLimit
      && Awaits(pipeline.Pending(), hashed, waiting)
    }

    ghost predicate Filling()
      reads this
    {
      && 1 <= level <= 9 && MIN_SEGMENT_SIZE <= segmentSize <= TARGET_SEGMENT_SIZE
      && prefixLen <= WINDOW && prefixLen <= |buffer| && |buffer| - prefixLen <= segmentSize
      && Ends(hashed + Flat(waiting), buffer[..prefixLen])
    }

    ghost predicate Valid()
      reads this, pipeline
    {
      Sent() && Queued() && Filling()
    }

    /** Every byte accepted so far. */
    ghost function Input(): seq<Byte>
      reads this
    {
      if prefixLen <= |buffer| then hashed + Flat(waiting) + buffer[prefixLen..] else []
    }

    constructor (level: nat, threads: nat, memoryLimit: nat, segmentSize: nat)
      requires 1 <= level <= 9 && MIN_SEGMENT_SIZE <= segmentSize <= TARGET_SEGMENT_SIZE && Reservation(segmentSize) <= memoryLimit
      ensures Valid() && Input() == [] && |buffer| - prefixLen < this.segmentSize && fresh(pipeline)
    {
      this.level, this.segmentSize := level, segmentSize;
      reservation := Reservation(segmentSize);
      var room := memoryLimit / Reservation(segmentSize);
      pipeline := new StreamingOrdered(Min(threads, if room < 1 then 1 else room), memoryLimit);
      output, buffer, prefixLen, hashed, inputLen, outputLen, waiting := [], [], 0, [], 0, 0, [];
      new;
      hide Encodes, Packed;
      EmptyPacked();
      EncodesNothing([]);
    }

    /** Take the next segment in submission order. */
    method CommitNext()
      requires Valid() && pipeline.Pending() != []
      modifies this`output, this`hashed, this`inputLen, this`outputLen, this`waiting, pipeline
      ensures Valid() && |pipeline.Pending()| == |old(pipeline.Pending())| - 1
      ensures hashed + Flat(waiting) == old(hashed + Flat(waiting))
    {
      hide Encodes, Packed, StreamingOrdered.Valid, StreamingOrdered.Pending, Ends;
      ghost var plain := waiting[0];
      assert Delivers(pipeline.Pending()[0].value, hashed, plain);
      var answer := pipeline.TakeNext();
      var segment := answer.value;
      EndsItself(hashed);
      SegmentContinues(output, hashed, hashed, segment, plain);
      Regroup(hashed, plain, Flat(waiting[1..]));
      output := output + segment.encoded;
      hashed := hashed + segment.hashed;
      inputLen := inputLen + segment.inputLen;
      outputLen := outputLen + |segment.encoded|;
      waiting := waiting[1..];
    }

    /** Hand the buffer to a worker; its last bytes become the next segment's dictionary. */
    method SubmitBuffer()
      requires Valid()
      modifies this`output, this`buffer, this`prefixLen, this`hashed, this`inputLen, this`outputLen, this`waiting, pipeline
      ensures Valid() && Input() == old(Input()) && |buffer| == prefixLen
    {
      hide Encodes, Packed, StreamingOrdered.Valid, StreamingOrdered.Pending, StreamingOrdered.CanSubmit, Ends, Flat, Delivers, Awaits;
      if |buffer| == prefixLen {
        return;
      }
      TakeUntilRoom();
      ghost var plain := buffer[prefixLen..];
      var keep := Min(|buffer|, WINDOW);
      var segment := EncodeSegment(buffer, prefixLen, level);
      SubmitLedger(pipeline.Pending(), hashed, waiting, Job(reservation, segment), buffer, prefixLen, keep);
      var next := buffer[|buffer| - keep..];
      SubmitSegment(segment, plain, next, keep);
    }

    method SubmitSegment(segment: Segment, ghost plain: seq<Byte>, next: seq<Byte>, keep: nat)
      requires Valid() && pipeline.CanSubmit(reservation) && |next| == keep <= WINDOW && prefixLen <= |buffer| && plain == buffer[prefixLen..]
      requires Awaits(pipeline.Pending() + [Job(reservation, segment)], hashed, waiting + [plain]) && Ends(hashed + Flat(waiting + [plain]), next)
      requires hashed + Flat(waiting + [plain]) == hashed + Flat(waiting) + plain
      modifies this`buffer, this`prefixLen, this`waiting, pipeline
      ensures Valid() && Input() == old(Input()) && |buffer| == prefixLen
    {
      hide Encodes, Packed, StreamingOrdered.Valid, StreamingOrdered.Pending, StreamingOrdered.CanSubmit, Ends, Flat, Delivers, Awaits;
      var refused := pipeline.Submit(reservation, segment);
      waiting := waiting + [plain];
      buffer, prefixLen := next, keep;
      assert buffer[prefixLen..] == [] && buffer[..prefixLen] == buffer;
    }

    /** Take segments in order until the pipeline has room for another. */
    method TakeUntilRoom()
      requires Valid()
      modifies this`output, this`hashed, this`inputLen, this`outputLen, this`waiting, pipeline
      ensures Valid() && pipeline.CanSubmit(reservation) && hashed + Flat(waiting) == old(hashed + Flat(waiting))
    {
      hide Encodes, Packed, StreamingOrdered.Valid, StreamingOrdered.Pending, StreamingOrdered.CanSubmit, Ends, Flat, Awaits;
      while !pipeline.CanSubmit(reservation)
        invariant Valid() && hashed + Flat(waiting) == old(hashed + Flat(waiting))
        decreases |pipeline.Pending()|
      {
        if pipeline.Pending() == [] {
          pipeline.IdleAdmits(reservation);
        }
        CommitNext();
      }
    }

    /** Any split of the input into writes is accepted. */
    method Write(bytes: seq<Byte>)
      requires Valid() && |buffer| - prefixLen < segmentSize
      modifies this`output, this`buffer, this`prefixLen, this`hashed, this`inputLen, this`outputLen, this`waiting, pipeline
      ensures Valid() && |buffer| - prefixLen < segmentSize && Input() == old(Input()) + bytes
    {
      hide Valid, Input;
      PrefixWithin();
      var rest := bytes;
      while rest != []
        invariant Valid() && prefixLen <= |buffer| && |buffer| - prefixLen < segmentSize
        invariant |rest| <= |bytes| && rest == bytes[|bytes| - |rest|..]
        invariant Input() == old(Input()) + bytes[..|bytes| - |rest|]
        decreases |rest|
      {
        var used := |buffer| - prefixLen;
        var take := Min(|rest|, segmentSize - used);
        assert bytes[..|bytes| - |rest|] + rest[..take] == bytes[..|bytes| - |rest[take..]|];
        Regroup(old(Input()), bytes[..|bytes| - |rest|], rest[..take]);
        Grow(rest[..take]);
        rest := rest[take..];
        if |buffer| - prefixLen == segmentSize {
          SubmitBuffer();
        }
      }
      assert bytes[..|bytes|] == bytes;
    }

    lemma PrefixWithin()
      requires Valid()
      ensures prefixLen <= |buffer|
    {
    }

    method Grow(bytes: seq<Byte>)
      requires Valid() && |buffer| - prefixLen + |bytes| <= segmentSize
      modifies this`buffer
      ensures Valid() && Input() == old(Input()) + bytes && buffer == old(buffer) + bytes && prefixLen <= |buffer|
    {
      hide Encodes, Packed, StreamingOrdered.Valid, StreamingOrdered.Pending, Ends, Flat, Awaits;
      Regroup(hashed + Flat(waiting), buffer[prefixLen..], bytes);
      assert (buffer + bytes)[..prefixLen] == buffer[..prefixLen];
      assert (buffer + bytes)[prefixLen..] == buffer[prefixLen..] + bytes;
      buffer := buffer + bytes;
    }

    /** Submit what is buffered and collect every segment. */
    method Flush()
      requires Valid()
      modifies this`output, this`buffer, this`prefixLen, this`hashed, this`inputLen, this`outputLen, this`waiting, pipeline
      ensures Valid() && Input() == old(Input()) && |buffer| == prefixLen && hashed == Input()
    {
      hide Encodes, Packed, StreamingOrdered.Valid, Ends, Flat, Awaits;
      SubmitBuffer();
      ghost var all := hashed + Flat(waiting);
      while pipeline.HasPending()
        invariant Valid() && hashed + Flat(waiting) == all && |buffer| == prefixLen
        decreases |pipeline.Pending()|
      {
        PendingNow();
        CommitNext();
      }
      NothingWaits();
      assert buffer[prefixLen..] == [];
    }

    lemma PendingNow()
      requires pipeline.Valid() && pipeline.HasPending()
      ensures pipeline.Pending() != []
    {
    }

    lemma NothingWaits()
      requires Queued() && !pipeline.HasPending()
      ensures waiting == [] && Flat(waiting) == []
    {
    }

    /** Flush and close the stream with an empty final block. */
    method Finish() returns (r: Compressed)
      requires Valid()
      modifies this`output, this`buffer, this`prefixLen, this`hashed, this`inputLen, this`outputLen, this`waiting, pipeline
      ensures CompressedOf(r, old(Input())) && outputLen == |r.bytes|
    {
      hide Encodes, Packed, StreamingOrdered.Valid, Ends, Flat, Awaits, IsFinalBlock, CompressedOf;
      Flush();
      var last := FinalBlock();
      WholeStream(output, last, hashed);
      output := output + last;
      outputLen := outputLen + |last|;
      r := Compressed(output, inputLen, hashed);
    }
  }

  lemma EndsItself(all: seq<Byte>)
    ensures Ends(all, all)
  {
    assert all[0..] == all;
  }

  lemma SubmitLedger(pending: seq<Job<Segment>>, hashed: seq<Byte>, waiting: seq<seq<Byte>>, job: Job<Segment>, buffer: seq<Byte>, prefix: nat, keep: nat)
    requires prefix <= |buffer| && keep <= |buffer| && Awaits(pending, hashed, waiting) && Ends(hashed + Flat(waiting), buffer[..prefix])
    requires Delivers(job.value, buffer[..prefix], buffer[prefix..])
    ensures var plain := buffer[prefix..];
      Awaits(pending + [job], hashed, waiting + [plain]) && Ends(hashed + Flat(waiting + [plain]), buffer[|buffer| - keep..])
      && hashed + Flat(waiting + [plain]) == hashed + Flat(waiting) + plain
  {
    hide *;
    var plain, history := buffer[prefix..], hashed + Flat(waiting);
    DeliversAfter(job.value, history, buffer[..prefix], plain);
    AwaitsAdd(pending, hashed, waiting, job, plain);
    Regroup(hashed, Flat(waiting), plain);
    NextDictionary(history, buffer, prefix, keep);
  }

  /** The last bytes of the buffer are the last bytes of everything before the next segment. */
  lemma NextDictionary(history: seq<Byte>, buffer: seq<Byte>, prefix: nat, keep: nat)
    requires prefix <= |buffer| && keep <= |buffer| && Ends(history, buffer[..prefix])
    ensures Ends(history + buffer[prefix..], buffer[|buffer| - keep..])
  {
    var all := history + buffer[prefix..];
    assert all[|history| - prefix..] == history[|history| - prefix..] + buffer[prefix..];
    assert buffer[..prefix] + buffer[prefix..] == buffer;
    assert all[|all| - keep..] == all[|history| - prefix..][|buffer| - keep..];
  }

  /** Compress any input, written in one piece, with any number of workers that the limit allows. */
  method Compress(data: seq<Byte>, level: nat, threads: nat, memoryLimit: nat) returns (r: Options.Option<Compressed>)
    requires 1 <= level <= 9
    ensures r.Some? <==> memoryLimit >= 1114112
    ensures r.Some? ==> CompressedOf(r.value, data)
  {
    hide CompressedOf, Encoder.Valid, Encoder.Input;
    var size := SegmentSize(memoryLimit);
    if size.None? {
      return Options.None;
    }
    var encoder := new Encoder(level, threads, memoryLimit, size.value);
    encoder.Write(data);
    assert [] + data == data;
    var c := encoder.Finish();
    r := Options.Some(c);
  }

  /** Both decoders give the data back: the serial one always, the parallel one whenever it succeeds. */
  method RoundTrip(data: seq<Byte>, level: nat, threads: nat, memoryLimit: nat, find: ParallelInflate.Finder) returns (serial: Options.Option<SerialInflate.Report>, parallel: Options.Option<SerialInflate.Report>)
    requires 1 <= level <= 9 && memoryLimit >= 1114112
    ensures serial.Some? && serial.value.output == data && serial.value.hashed == data
    ensures parallel.Some? ==> parallel.value.output == data && parallel.value.hashed == data
  {
    hide CompressedOf, ParserOf, Decode, Proper, SerialInflate.Bounded;
    var c := Compress(data, level, threads, memoryLimit);
    var bytes := c.value.bytes;
    ghost var o := ParallelInflate.Inflated(bytes, 0, 0);
    assert o.Finished? && o.out == data by { OfData(c.value, data); }
    ParserGood(bytes);
    ParallelInflate.ParserBounded(bytes);
    serial := SerialInflate.DecompressSerial(bytes, 0, 0, ParserOf(bytes), 8 * |bytes|);
    parallel := ParallelInflate.DecompressStream(bytes, 0, |bytes|, 0, memoryLimit, threads, find);
    assert bytes[..|bytes|] == bytes;
  }

  lemma OfData(c: Compressed, data: seq<Byte>)
    requires CompressedOf(c, data)
    ensures var o := ParallelInflate.Inflated(c.bytes, 0, 0); o.Finished? && o.out == data && o.end == 8 * |c.bytes|
  {
    hide ParallelInflate.Inflated;
  }
}
