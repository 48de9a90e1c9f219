/** The speculative parallel DEFLATE decoder: candidate chunks, a coordinator, and staged resolution. */
module ParallelInflate {
  import opened Bytes
  import opened Inflate
  import opened MarkerOutputs
  import opened Options
  import opened OrderedDelivery
  import opened Resolution
  import opened SegmentChain
  import opened Segments
  import opened Seqs
  import opened SerialInflate
  import DeflateBlocks
  import Streaming

  const MIN_PARALLEL_INPUT: nat := 16777216
  const PARALLEL_JOB_MEMORY: nat := 16842752

  // ----- Candidates -----

  datatype GzipJob = GzipJob(searchStart: nat, searchEnd: nat, stopBit: nat, outputLimit: nat)

  /** Any proposal of a block boundary from a search position on; its quality does not matter. */
  type Finder = f: (nat, nat) -> Option<nat> | forall a: nat, b: nat :: f(a, b).Some? ==> a <= f(a, b).value < b witness (a, b) => None

  /** Try proposals until one of them decodes. */
  method RunGzipJob(data: seq<Byte>, job: GzipJob, find: Finder, ghost parse: Parser, ghost n: nat) returns (r: Option<Segment>)
    requires Proper(parse, n) && parse == DeflateBlocks.ParserOf(data)
    ensures r.Some? ==> Shaped(r.value) && HonestFor(parse, n, r.value, job.stopBit, job.outputLimit)
  {
    hide DeflateBlocks.ParserOf, Chunk, Decoded, HonestFor, Shaped;
    var search := job.searchStart;
    while true
      decreases job.searchEnd - search
    {
      var start := find(search, job.searchEnd);
      if start.None? {
        return None;
      }
      r := DecodeSegment(data, start.value, job.stopBit, Unknown, job.outputLimit, parse, n);
      if r.Some? {
        HonestCandidate(parse, n, r.value, start.value, job.stopBit, job.outputLimit);
        return;
      }
      search := start.value + 1;
    }
  }

  lemma HonestCandidate(parse: Parser, n: nat, segment: Segment, start: nat, stop: nat, limit: nat)
    requires Proper(parse, n)
    requires Decoded(Some(segment), Chunk(parse, n, start, stop, BeforeOf(Unknown), |BeforeOf(Unknown)| + limit, |BeforeOf(Unknown)|, []), start, BeforeOf(Unknown))
    ensures Shaped(segment) && HonestFor(parse, n, segment, stop, limit) && segment.start == start && start < segment.end && (!segment.final ==> segment.end <= n)
  {
    hide Chunk;
  }

  // ----- Chunks awaiting resolution -----

  ghost predicate AllSound(queue: seq<Task>)
  {
    forall i :: 0 <= i < |queue| ==> Sound(queue[i])
  }

  ghost predicate AllResolve(queue: seq<Task>)
    requires AllSound(queue)
  {
    forall i :: 0 <= i < |queue| ==> PlainOf(queue[i]).Some?
  }

  ghost function QueuePlain(queue: seq<Task>): seq<Byte>
    requires AllSound(queue) && AllResolve(queue)
  {
    if queue == [] then [] else PlainOf(queue[0]).value + QueuePlain(queue[1..])
  }

  ghost function QueueBlocks(queue: seq<Task>, offset: nat): seq<Info>
    requires AllSound(queue) && AllResolve(queue)
  {
    if queue == [] then [] else Shifted(queue[0].segment.blocks, offset) + QueueBlocks(queue[1..], offset + |PlainOf(queue[0]).value|)
  }

  lemma {:induction false} QueuePush(queue: seq<Task>, t: Task, offset: nat)
    requires AllSound(queue) && AllResolve(queue) && Sound(t) && PlainOf(t).Some?
    ensures AllSound(queue + [t]) && AllResolve(queue + [t])
    ensures QueuePlain(queue + [t]) == QueuePlain(queue) + PlainOf(t).value
    ensures QueueBlocks(queue + [t], offset) == QueueBlocks(queue, offset) + Shifted(t.segment.blocks, offset + |QueuePlain(queue)|)
    decreases queue
  {
    hide PlainOf, Sound, Shifted;
    if queue == [] {
      assert (queue + [t])[1..] == [];
    } else {
      assert (queue + [t])[1..] == queue[1..] + [t];
      var first, next := PlainOf(queue[0]).value, offset + |PlainOf(queue[0]).value|;
      QueuePush(queue[1..], t, next);
      Regroup(first, QueuePlain(queue[1..]), PlainOf(t).value);
      var placed := Shifted(t.segment.blocks, next + |QueuePlain(queue[1..])|);
      Regroup(Shifted(queue[0].segment.blocks, offset), QueueBlocks(queue[1..], next), placed);
    }
  }

  // ----- The coordinator -----

  /** The bytes and blocks committed and queued are those of the serial decoder up to `nextStart`, if every queued chunk resolves. */
  ghost predicate InStep(parse: Parser, n: nat, start: nat, base: nat, output: seq<Byte>, blocks: seq<Info>, queue: seq<Task>,
                         predecessor: seq<Byte>, nextStart: nat, final: bool)
    requires Proper(parse, n) && AllSound(queue)
  {
    AllResolve(queue) ==>
      var plain := output + QueuePlain(queue);
      && predecessor == TailBytes(plain)
      && Reaches(parse, n, Decode(parse, n, start, [], base, []), plain, base, blocks + QueueBlocks(queue, base + |output|), nextStart, final)
  }

  /** Accepting a candidate that starts exactly where the last chunk ended. */
  lemma AcceptStep(parse: Parser, n: nat, start: nat, base: nat, output: seq<Byte>, blocks: seq<Info>, queue: seq<Task>, t: Task, window: Option<seq<Byte>>)
    requires Proper(parse, n) && AllSound(queue) && Sound(t) && Honest(parse, n, t.segment)
    requires InStep(parse, n, start, base, output, blocks, queue, t.predecessor, t.segment.start, false)
    requires PlainOf(t).Some? ==> window == Some(TailBytes(t.predecessor + PlainOf(t).value))
    ensures AllSound(queue + [t])
    ensures PlainOf(t).None? ==> !AllResolve(queue + [t])
    ensures window.Some? ==> InStep(parse, n, start, base, output, blocks, queue + [t], window.value, t.segment.end, t.segment.final)
  {
    hide PlainOf, Sound, Honest, Reaches, Shifted;
    assert (queue + [t])[|queue|] == t;
    assert forall i :: 0 <= i < |queue| ==> (queue + [t])[i] == queue[i];
    if AllResolve(queue + [t]) {
      assert PlainOf((queue + [t])[|queue|]).Some?;
      forall i | 0 <= i < |queue| ensures PlainOf(queue[i]).Some? {
        assert PlainOf((queue + [t])[i]).Some?;
      }
      QueuePush(queue, t, base + |output|);
      var plain := output + QueuePlain(queue);
      var infos := blocks + QueueBlocks(queue, base + |output|);
      ChunkContinues(parse, n, Decode(parse, n, start, [], base, []), plain, base, infos, t);
      assert plain + PlainOf(t).value == output + QueuePlain(queue + [t]);
      assert infos + Shifted(t.segment.blocks, base + |plain|) == blocks + QueueBlocks(queue + [t], base + |output|);
      TailTail(plain, PlainOf(t).value);
    }
  }

  /** Committing the chunk at the head of the queue. */
  lemma CommitStep(parse: Parser, n: nat, start: nat, base: nat, output: seq<Byte>, blocks: seq<Info>, queue: seq<Task>,
                   predecessor: seq<Byte>, nextStart: nat, final: bool)
    requires Proper(parse, n) && queue != [] && AllSound(queue) && PlainOf(queue[0]).Some?
    requires InStep(parse, n, start, base, output, blocks, queue, predecessor, nextStart, final)
    ensures InStep(parse, n, start, base, output + PlainOf(queue[0]).value, blocks + Shifted(queue[0].segment.blocks, base + |output|),
                   queue[1..], predecessor, nextStart, final)
  {
    hide PlainOf, Sound, Reaches, Shifted, QueuePlain, QueueBlocks;
    if AllResolve(queue[1..]) {
      forall i | 0 <= i < |queue| ensures PlainOf(queue[i]).Some? {
        if i > 0 {
          assert queue[i] == queue[1..][i - 1];
        }
      }
      var first := PlainOf(queue[0]).value;
      QueueFront(queue, base + |output|);
      Regroup(output, first, QueuePlain(queue[1..]));
      assert base + |output| + |first| == base + |output + first|;
      Regroup(blocks, Shifted(queue[0].segment.blocks, base + |output|), QueueBlocks(queue[1..], base + |output + first|));
    }
  }

  // ----- Whether the stream decodes -----

  /** The stream decodes exactly if all queued chunks resolve and the chain goes on after them. */
  ghost predicate Course(parse: Parser, n: nat, grid: Grid, goal: bool, key: nat, output: seq<Byte>, queue: seq<Task>, nextStart: nat, final: bool)
    requires Proper(parse, n) && AllSound(queue)
  {
    goal <==> AllResolve(queue) && GoesOn(parse, n, grid, key, nextStart, output + QueuePlain(queue), final)
  }

  /** A chunk taken up where the last one ended leaves that as it was, and decides it if it does not resolve. */
  lemma AcceptCourse(parse: Parser, n: nat, start: nat, base: nat, output: seq<Byte>, blocks: seq<Info>, queue: seq<Task>, t: Task, grid: Grid, goal: bool, key: nat)
    requires Proper(parse, n) && AllSound(queue) && Sound(t) && grid.HasJob(key) && HonestFor(parse, n, t.segment, grid.Stop(key), PARALLEL_OUTPUT_LIMIT)
    requires InStep(parse, n, start, base, output, blocks, queue, t.predecessor, t.segment.start, false)
    requires Course(parse, n, grid, goal, key, output, queue, t.segment.start, false)
    ensures AllSound(queue + [t]) && Course(parse, n, grid, goal, key + 1, output, queue + [t], t.segment.end, t.segment.final)
    ensures PlainOf(t).None? ==> !goal
  {
    hide PlainOf, Sound, HonestFor, Reaches, Shifted, Fits, Grid.HasJob, Grid.Stop;
    PushSound(queue, t);
    if AllResolve(queue) {
      TaskGoesOn(parse, n, grid, key, output + QueuePlain(queue), t);
      if PlainOf(t).Some? {
        QueuePush(queue, t, 0);
        assert output + QueuePlain(queue) + PlainOf(t).value == output + QueuePlain(queue + [t]);
      }
    }
  }

  lemma PushSound(queue: seq<Task>, t: Task)
    requires AllSound(queue) && Sound(t)
    ensures AllSound(queue + [t]) && (AllResolve(queue + [t]) <==> AllResolve(queue) && PlainOf(t).Some?)
  {
    hide PlainOf, Sound;
    var more := queue + [t];
    assert more[|queue|] == t && forall i :: 0 <= i < |queue| ==> more[i] == queue[i];
    if AllResolve(more) {
      assert PlainOf(more[|queue|]).Some?;
      forall i | 0 <= i < |queue| ensures PlainOf(queue[i]).Some? { assert PlainOf(more[i]).Some?; }
    }
  }

  /** Committing the oldest chunk leaves it as it was, and decides it if the chunk does not resolve. */
  lemma CommitCourse(parse: Parser, n: nat, output: seq<Byte>, queue: seq<Task>, grid: Grid, goal: bool, key: nat, nextStart: nat, final: bool)
    requires Proper(parse, n) && queue != [] && AllSound(queue) && Course(parse, n, grid, goal, key, output, queue, nextStart, final)
    ensures PlainOf(queue[0]).None? ==> !goal
    ensures PlainOf(queue[0]).Some? ==> AllSound(queue[1..]) && Course(parse, n, grid, goal, key, output + PlainOf(queue[0]).value, queue[1..], nextStart, final)
  {
    hide PlainOf, Sound, QueuePlain, GoesOn;
    if PlainOf(queue[0]).Some? {
      RestResolve(queue);
      if AllResolve(queue) {
        QueueFront(queue, 0);
        Regroup(output, PlainOf(queue[0]).value, QueuePlain(queue[1..]));
      }
    }
  }

  lemma RestResolve(queue: seq<Task>)
    requires queue != [] && AllSound(queue) && PlainOf(queue[0]).Some?
    ensures AllSound(queue[1..]) && (AllResolve(queue) <==> AllResolve(queue[1..]))
  {
    hide PlainOf, Sound;
    if AllResolve(queue[1..]) {
      forall i | 0 <= i < |queue| ensures PlainOf(queue[i]).Some? {
        if i > 0 {
          assert queue[i] == queue[1..][i - 1];
        }
      }
    }
  }

  /** With nothing queued, a chunk that cannot be decoded decides it. */
  lemma FailCourse(parse: Parser, n: nat, output: seq<Byte>, grid: Grid, goal: bool, key: nat, at: nat)
    requires Proper(parse, n) && Course(parse, n, grid, goal, key, output, [], at, false)
    requires Chunk(parse, n, at, grid.Stop(key), Markers(), WINDOW + PARALLEL_OUTPUT_LIMIT, WINDOW, []).SegmentFailed?
    ensures !goal
  {
    hide Chunk, Fits;
    NoChunk(parse, n, grid, key, at, output);
    assert output + [] == output;
  }

  lemma QueueFront(queue: seq<Task>, offset: nat)
    requires queue != [] && AllSound(queue) && AllResolve(queue)
    ensures AllSound(queue[1..]) && AllResolve(queue[1..])
    ensures QueuePlain(queue) == PlainOf(queue[0]).value + QueuePlain(queue[1..])
    ensures QueueBlocks(queue, offset) ==
            Shifted(queue[0].segment.blocks, offset) + QueueBlocks(queue[1..], offset + |PlainOf(queue[0]).value|)
  {
    hide PlainOf, Sound, Shifted;
  }

  /** The stage works on the queued chunks, numbered from `first`. */
  ghost predicate StageHolds(values: map<nat, Option<Resolved>>, queue: seq<Task>, first: nat)
    requires AllSound(queue)
  {
    && (forall k :: k in values <==> first <= k < first + |queue|)
    && forall k :: first <= k < first + |queue| ==> k in values && Resolves(values[k], queue[k - first])
  }

  lemma StageHead(values: map<nat, Option<Resolved>>, queue: seq<Task>, first: nat)
    requires queue != [] && AllSound(queue) && StageHolds(values, queue, first)
    ensures first in values && Sound(queue[0]) && Resolves(values[first], queue[0])
    ensures AllSound(queue[1..]) && StageHolds(Streaming.Without(values, first), queue[1..], first + 1)
  {
    hide Resolves, Sound;
    var rest := queue[1..];
    forall k: nat | first + 1 <= k < first + |queue| ensures Resolves(values[k], rest[k - (first + 1)]) {
      assert rest[k - (first + 1)] == queue[k - first];
    }
  }

  lemma StagePush(values: map<nat, Option<Resolved>>, queue: seq<Task>, first: nat, value: Option<Resolved>, t: Task)
    requires AllSound(queue) && StageHolds(values, queue, first) && Sound(t) && Resolves(value, t)
    ensures first + |queue| !in values && AllSound(queue + [t])
    ensures StageHolds(values[first + |queue| := value], queue + [t], first)
  {
    hide Resolves, Sound;
  }

  lemma FirstInStep(parse: Parser, n: nat, start: nat, base: nat, plain: seq<Byte>, blocks: seq<Info>, end: nat, final: bool)
    requires Proper(parse, n) && Reaches(parse, n, Decode(parse, n, start, [], base, []), plain, base, blocks, end, final)
    ensures InStep(parse, n, start, base, plain, blocks, [], TailBytes(plain), end, final)
  {
    hide Reaches;
    assert plain + [] == plain && blocks + [] == blocks;
  }

  class Coordinator {
    const base: nat
    const committer: SegmentCommitter
    const stage: OrderedResults<Option<Resolved>>
    var predecessor: seq<Byte>
    var nextStart: nat
    var finalBlock: bool
    var resolveSequence: nat
    var nextResolve: nat
    var outstanding: nat
    /** The chunks handed to the stage and not yet committed. */
    ghost var queue: seq<Task>

    ghost predicate Staged()
      reads this, stage
    {
      && stage.Valid() && outstanding == |queue| && resolveSequence == nextResolve + outstanding
      && AllSound(queue) && StageHolds(stage.Values(), queue, nextResolve)
    }

    /** Whether the stream decodes is decided by what is still to come. */
    ghost predicate OnCourse(parse: Parser, n: nat, grid: Grid, goal: bool, key: nat)
      requires Proper(parse, n)
      reads this, stage, committer
    {
      AllSound(queue) && Course(parse, n, grid, goal, key, committer.output, queue, nextStart, finalBlock)
    }

    ghost predicate Valid(parse: Parser, n: nat, start: nat)
      requires Proper(parse, n)
      reads this, stage, committer
    {
      && Staged() && committer.Valid() && committer.decodedBase == base && |predecessor| <= WINDOW
      && InStep(parse, n, start, base, committer.output, committer.blocks, queue, predecessor, nextStart, finalBlock)
    }

    constructor (base: nat)
      ensures Staged() && queue == [] && predecessor == [] && this.base == base && !finalBlock
      ensures committer.Valid() && committer.decodedBase == base && committer.output == [] && committer.blocks == []
      ensures fresh(committer) && fresh(stage)
    {
      this.base := base;
      committer := new SegmentCommitter(base);
      stage := new OrderedResults(map[]);
      predecessor, nextStart, finalBlock, resolveSequence, nextResolve, outstanding, queue := [], 0, false, 0, 0, 0, [];
    }

    /** Commit the chunk at the start of the stream, which has no history. */
    method Begin(ghost parse: Parser, ghost n: nat, ghost start: nat, segment: Segment, ghost stop: nat, ghost limit: nat, ghost grid: Grid) returns (ok: bool)
      requires Proper(parse, n) && Staged() && queue == [] && predecessor == [] && committer.Valid() && committer.decodedBase == base
      requires committer.output == [] && committer.blocks == [] && segment.marked == []
      requires Decoded(Some(segment), Chunk(parse, n, start, stop, [], limit, 0, []), start, [])
      modifies this`predecessor, this`nextStart, this`finalBlock, committer
      ensures ok && Valid(parse, n, start) && outstanding == 0 && (!finalBlock ==> nextStart <= n)
      ensures OnCourse(parse, n, grid, GoesOn(parse, n, grid, 1, segment.end, Chunk(parse, n, start, stop, [], limit, 0, []).out, segment.final), 1)
    {
      hide GoesOn, Course, Chunk, Decoded, Proper, Reaches, Shifted, Resolves, PlainOf, Sound, InStep, StageHolds, AllSound, TailBytes, OrderedResults.Values, OrderedResults.Valid,
        SegmentCommitter.Valid;
      ghost var t := Task(segment, []);
      FirstStep(parse, n, start, base, segment, stop, limit);
      var window := NextWindow(segment, []);
      var resolved := ResolveSegment(segment, []);
      ResolvedShape(resolved, t);
      if window.None? || resolved.None? {
        return false;
      }
      FirstInStep(parse, n, start, base, PlainOf(t).value, Shifted(segment.blocks, base), segment.end, segment.final);
      FirstCourse(parse, n, start, segment, stop, limit, grid);
      committer.Commit(resolved.value, PlainOf(t).value);
      assert [] + PlainOf(t).value == PlainOf(t).value && [] + Shifted(segment.blocks, base) == Shifted(segment.blocks, base);
      predecessor, nextStart, finalBlock := window.value, segment.end, segment.final;
      ok := true;
    }

    /** Take a candidate that starts exactly at `nextStart`; its resolution is left to the stage. */
    method Accept(ghost parse: Parser, ghost n: nat, ghost start: nat, segment: Segment, ghost grid: Grid, ghost goal: bool, ghost key: nat) returns (ok: bool)
      requires Proper(parse, n) && Valid(parse, n, start) && !finalBlock && segment.start == nextStart
      requires Shaped(segment) && grid.HasJob(key) && HonestFor(parse, n, segment, grid.Stop(key), PARALLEL_OUTPUT_LIMIT) && OnCourse(parse, n, grid, goal, key)
      modifies this`predecessor, this`nextStart, this`finalBlock, this`resolveSequence, this`outstanding, this`queue, stage
      ensures ok ==> Valid(parse, n, start) && outstanding == old(outstanding) + 1 && nextStart == segment.end && finalBlock == segment.final
      ensures if ok then OnCourse(parse, n, grid, goal, key + 1) else !goal
    {
      hide Resolves, PlainOf, Sound, InStep, HonestFor, Course, StageHolds, OrderedResults.Values, AllSound, Grid.HasJob, Grid.Stop;
      ghost var t := Task(segment, predecessor);
      TaskSound(t);
      nextStart, finalBlock := segment.end, segment.final;
      var window := NextWindow(segment, predecessor);
      AcceptCourse(parse, n, start, base, committer.output, committer.blocks, queue, t, grid, goal, key);
      assert Honest(parse, n, segment);
      AcceptStep(parse, n, start, base, committer.output, committer.blocks, queue, t, window);
      if window.None? {
        return false;
      }
      var resolved := ResolveSegment(segment, predecessor);
      StagePush(stage.Values(), queue, nextResolve, resolved, t);
      stage.Spawn(resolveSequence, resolved);
      predecessor := window.value;
      resolveSequence := resolveSequence + 1;
      outstanding := outstanding + 1;
      queue := queue + [t];
      ok := true;
    }

    /** Decode the next chunk here and now and commit it; nothing may be queued. */
    method FallBack(data: seq<Byte>, stop: nat, ghost parse: Parser, ghost n: nat, ghost start: nat, ghost grid: Grid, ghost goal: bool, ghost key: nat) returns (ok: bool)
      requires Proper(parse, n) && parse == DeflateBlocks.ParserOf(data) && Valid(parse, n, start) && !finalBlock && outstanding == 0
      requires grid.HasJob(key) && stop == grid.Stop(key) && OnCourse(parse, n, grid, goal, key)
      modifies this`predecessor, this`nextStart, this`finalBlock, committer
      ensures ok ==> Valid(parse, n, start) && outstanding == 0 && nextStart > old(nextStart) && (!finalBlock ==> nextStart <= n)
      ensures if ok then OnCourse(parse, n, grid, goal, key + 1) else !goal
    {
      hide Resolves, PlainOf, Sound, InStep, HonestFor, Course, Known, Meaning, Chunk, BeforeOf, Decoded, Shifted, DeflateBlocks.ParserOf, Grid.HasJob, Grid.Stop;
      var segment := DecodeSegment(data, nextStart, stop, Unknown, PARALLEL_OUTPUT_LIMIT, parse, n);
      if segment.None? {
        NotDecoded(parse, n, nextStart, stop, PARALLEL_OUTPUT_LIMIT);
        assert queue == [];
        FailCourse(parse, n, committer.output, grid, goal, key, nextStart);
        return false;
      }
      HonestCandidate(parse, n, segment.value, nextStart, stop, PARALLEL_OUTPUT_LIMIT);
      ghost var t := Task(segment.value, predecessor);
      TaskSound(t);
      var window := NextWindow(segment.value, predecessor);
      AcceptCourse(parse, n, start, base, committer.output, committer.blocks, queue, t, grid, goal, key);
      assert Honest(parse, n, segment.value);
      AcceptStep(parse, n, start, base, committer.output, committer.blocks, queue, t, window);
      assert queue + [t] == [t];
      var resolved := ResolveSegment(segment.value, predecessor);
      ResolvedShape(resolved, t);
      if window.None? || resolved.None? {
        return false;
      }
      CommitStep(parse, n, start, base, committer.output, committer.blocks, [t], window.value, segment.value.end, segment.value.final);
      CommitCourse(parse, n, committer.output, [t], grid, goal, key + 1, segment.value.end, segment.value.final);
      assert [t][1..] == [];
      committer.Commit(resolved.value, PlainOf(t).value);
      predecessor, nextStart, finalBlock := window.value, segment.value.end, segment.value.final;
      ok := true;
    }

    method Drain(ghost parse: Parser, ghost n: nat, ghost start: nat, ghost grid: Grid, ghost goal: bool, ghost key: nat) returns (ok: bool)
      requires Proper(parse, n) && Valid(parse, n, start) && OnCourse(parse, n, grid, goal, key)
      modifies this`nextResolve, this`outstanding, this`queue, stage, committer
      ensures ok ==> Valid(parse, n, start) && outstanding == 0
      ensures if ok then OnCourse(parse, n, grid, goal, key) else !goal
    {
      hide Valid, OnCourse;
      while outstanding != 0
        invariant Valid(parse, n, start) && OnCourse(parse, n, grid, goal, key)
      {
        ok := CommitOldest(parse, n, start, grid, goal, key);
        if !ok {
          return;
        }
      }
      ok := true;
    }

    /** Wait for the oldest queued chunk and write it out. */
    method CommitOldest(ghost parse: Parser, ghost n: nat, ghost start: nat, ghost grid: Grid, ghost goal: bool, ghost key: nat) returns (ok: bool)
      requires Proper(parse, n) && Valid(parse, n, start) && outstanding != 0 && OnCourse(parse, n, grid, goal, key)
      modifies this`nextResolve, this`outstanding, this`queue, stage, committer
      ensures ok ==> Valid(parse, n, start) && outstanding == old(outstanding) - 1
      ensures if ok then OnCourse(parse, n, grid, goal, key) else !goal
    {
      hide Resolves, PlainOf, Sound, InStep, Course, Shifted, StageHolds, OrderedResults.Values;
      StageHead(stage.Values(), queue, nextResolve);
      var result := stage.Take(nextResolve);
      ResolvedShape(result.value, queue[0]);
      CommitCourse(parse, n, committer.output, queue, grid, goal, key, nextStart, finalBlock);
      if result.value.None? {
        return false;
      }
      CommitStep(parse, n, start, base, committer.output, committer.blocks, queue, predecessor, nextStart, finalBlock);
      committer.Commit(result.value.value, PlainOf(queue[0]).value);
      nextResolve := nextResolve + 1;
      outstanding := outstanding - 1;
      queue := queue[1..];
      ok := true;
    }
  }

  lemma NotDecoded(parse: Parser, n: nat, at: nat, stop: nat, limit: nat)
    requires Proper(parse, n)
    requires Decoded(None, Chunk(parse, n, at, stop, BeforeOf(Unknown), |BeforeOf(Unknown)| + limit, |BeforeOf(Unknown)|, []), at, BeforeOf(Unknown))
    ensures Chunk(parse, n, at, stop, Markers(), WINDOW + limit, WINDOW, []).SegmentFailed?
  {
    hide Chunk;
  }

  lemma TaskSound(t: Task)
    requires Shaped(t.segment) && |t.predecessor| <= WINDOW
    ensures Sound(t)
  {
  }

  method NextWindow(segment: Segment, predecessor: seq<Byte>) returns (r: Option<seq<Byte>>)
    requires Sound(Task(segment, predecessor))
    ensures r.Some? ==> |r.value| <= WINDOW
    ensures PlainOf(Task(segment, predecessor)).Some? ==> r == Some(TailBytes(predecessor + PlainOf(Task(segment, predecessor)).value))
  {
    r := SuccessorWindow(segment, predecessor);
  }

  lemma FirstStep(parse: Parser, n: nat, start: nat, base: nat, segment: Segment, stop: nat, limit: nat)
    requires Proper(parse, n) && segment.marked == []
    requires Decoded(Some(segment), Chunk(parse, n, start, stop, [], limit, 0, []), start, [])
    ensures var t := Task(segment, []);
            Sound(t) && PlainOf(t).Some? && Resolve(segment.marked, []).Some?
            && PlainOf(t).value == Resolve(segment.marked, []).value + segment.clean[segment.cleanStart..]
            && Reaches(parse, n, Decode(parse, n, start, [], base, []), PlainOf(t).value, base, Shifted(segment.blocks, base), segment.end, segment.final)
            && (!segment.final ==> segment.end <= n)
  {
    hide Chunk, Reaches;
    assert Shifted([], base) == [];
    FirstChunk(parse, n, start, stop, [], limit, [], base);
    assert Resolve(segment.marked, []).value == [];
    assert [] + segment.clean[segment.cleanStart..] == [] + SymbolsOf(segment);
    assert PlainOf(Task(segment, [])).value == Chunk(parse, n, start, stop, [], limit, 0, []).out;
  }

  lemma FirstCourse(parse: Parser, n: nat, start: nat, segment: Segment, stop: nat, limit: nat, grid: Grid)
    requires Proper(parse, n) && segment.marked == []
    requires Decoded(Some(segment), Chunk(parse, n, start, stop, [], limit, 0, []), start, [])
    ensures var c := Chunk(parse, n, start, stop, [], limit, 0, []); var t := Task(segment, []);
      c.Stopped? && Sound(t) && PlainOf(t).Some? && AllSound([])
      && Course(parse, n, grid, GoesOn(parse, n, grid, 1, segment.end, c.out, segment.final), 1, PlainOf(t).value, [], segment.end, segment.final)
  {
    hide Chunk, GoesOn;
    var t := Task(segment, []);
    assert [] + SymbolsOf(segment) == SymbolsOf(segment) == segment.clean[segment.cleanStart..];
    assert Resolve(segment.marked, []).value == [];
    assert PlainOf(t).value + [] == PlainOf(t).value == Chunk(parse, n, start, stop, [], limit, 0, []).out;
  }

  lemma ResolvedShape(r: Option<Resolved>, t: Task)
    requires Sound(t) && Resolves(r, t)
    ensures r.Some? <==> PlainOf(t).Some?
    ensures r.Some? ==> r.value.cleanStart <= |r.value.clean| && r.value.marked + r.value.clean[r.value.cleanStart..] == PlainOf(t).value
    ensures r.Some? ==> r.value.blocks == t.segment.blocks && r.value.hashed == PlainOf(t).value
  {
  }

  // ----- The whole stream -----

  /** The candidates from key `from` on: one for each job, and each an honest chunk up to the job's stop. */
  ghost predicate AllHonest(parse: Parser, n: nat, grid: Grid, from: nat, values: map<nat, Option<Segment>>)
    requires Proper(parse, n)
  {
    && (forall key: nat :: key >= from ==> (key in values <==> grid.HasJob(key)))
    && forall key: nat :: key in values && values[key].Some? ==> HonestAt(parse, n, grid, key, values[key].value)
  }

  ghost predicate HonestAt(parse: Parser, n: nat, grid: Grid, key: nat, segment: Segment)
    requires Proper(parse, n)
  {
    && Shaped(segment) && HonestFor(parse, n, segment, grid.Stop(key), PARALLEL_OUTPUT_LIMIT)
    && segment.start < segment.end && (!segment.final ==> segment.end <= n)
  }

  lemma HonestEnd(parse: Parser, n: nat, segment: Segment, stop: nat, limit: nat)
    requires Proper(parse, n) && HonestFor(parse, n, segment, stop, limit)
    ensures segment.start < segment.end && (!segment.final ==> segment.end <= n)
  {
    hide Chunk;
  }

  /** One job for each further grid point; whatever its candidate is, it is an honest chunk. */
  method RunJobs(data: seq<Byte>, startByte: nat, endByte: nat, find: Finder, ghost parse: Parser, ghost n: nat)
    returns (values: map<nat, Option<Segment>>)
    requires Proper(parse, n) && parse == DeflateBlocks.ParserOf(data)
    ensures AllHonest(parse, n, Grid(startByte, endByte), 1, values)
  {
    hide HonestFor, Shaped, HonestAt, DeflateBlocks.ParserOf;
    values := map[];
    var key, point := 1, startByte + PARALLEL_GRID;
    while point < endByte
      invariant key >= 1 && point == startByte + key * PARALLEL_GRID
      invariant forall k: nat :: k >= 1 ==> (k in values <==> k < key)
      invariant forall k: nat :: 1 <= k < key ==> Grid(startByte, endByte).HasJob(k)
      invariant forall k: nat :: k in values && values[k].Some? ==> HonestAt(parse, n, Grid(startByte, endByte), k, values[k].value)
      decreases endByte - point
    {
      var job := GzipJob(point * 8, Min(point + 2 * PARALLEL_GRID, endByte) * 8, Min(point + PARALLEL_GRID, endByte) * 8, PARALLEL_OUTPUT_LIMIT);
      var candidate := RunGzipJob(data, job, find, parse, n);
      if candidate.Some? {
        HonestEnd(parse, n, candidate.value, job.stopBit, job.outputLimit);
        SameStop(startByte, endByte, key, point);
        IsHonest(parse, n, Grid(startByte, endByte), key, candidate.value);
      }
      values := values[key := candidate];
      key := key + 1;
      point := point + PARALLEL_GRID;
    }
    NoMoreJobs(startByte, endByte, key);
  }

  lemma IsHonest(parse: Parser, n: nat, grid: Grid, key: nat, segment: Segment)
    requires Proper(parse, n) && Shaped(segment) && HonestFor(parse, n, segment, grid.Stop(key), PARALLEL_OUTPUT_LIMIT)
    requires segment.start < segment.end && (!segment.final ==> segment.end <= n)
    ensures HonestAt(parse, n, grid, key, segment)
  {
  }

  lemma SameStop(startByte: nat, endByte: nat, key: nat, point: nat)
    requires point == startByte + key * PARALLEL_GRID
    ensures Grid(startByte, endByte).Stop(key) == Min(point + PARALLEL_GRID, endByte) * 8
  {
  }

  lemma NoMoreJobs(startByte: nat, endByte: nat, key: nat)
    requires startByte + key * PARALLEL_GRID >= endByte
    ensures forall k: nat :: k >= key ==> !Grid(startByte, endByte).HasJob(k)
  {
  }

  /** A report with the serial decoder's bytes, hash and blocks, ending in the same byte. */
  ghost predicate Agrees(r: Report, o: Outcome)
  {
    o.Finished? && r.output == o.out && r.hashed == o.out && r.blocks == o.infos && r.end == Aligned(o.end)
  }

  /** The parallel decoder succeeds exactly if the chunks after the first chain up, and has then decoded what the serial decoder decodes. */
  method DecompressParallel(data: seq<Byte>, startByte: nat, endByte: nat, decodedBase: nat, threads: nat, initial: Segment,
                            find: Finder, ghost parse: Parser, ghost n: nat, ghost stop: nat, ghost limit: nat) returns (r: Option<Report>)
    requires Proper(parse, n) && parse == DeflateBlocks.ParserOf(data) && initial.marked == []
    requires Decoded(Some(initial), Chunk(parse, n, startByte * 8, stop, [], limit, 0, []), startByte * 8, [])
    ensures r.Some? ==> Agrees(r.value, Decode(parse, n, startByte * 8, [], decodedBase, []))
    ensures Chunk(parse, n, startByte * 8, stop, [], limit, 0, []).Stopped?
    ensures r.Some? <==> GoesOn(parse, n, Grid(startByte, endByte), 1, initial.end, Chunk(parse, n, startByte * 8, stop, [], limit, 0, []).out, initial.final)
  {
    hide DeflateBlocks.ParserOf, Coordinator.Staged, InStep, HonestFor, Shaped, Chunk, Proper, OrderedResults.Values, SegmentCommitter.Valid, GoesOn, Fits,
      Coordinator.OnCourse, Coordinator.Valid, Grid.HasJob, HonestAt, AllHonest, Agrees;
    ghost var grid := Grid(startByte, endByte);
    ghost var start := startByte * 8;
    ghost var goal := GoesOn(parse, n, grid, 1, initial.end, Chunk(parse, n, start, stop, [], limit, 0, []).out, initial.final);
    var values := RunJobs(data, startByte, endByte, find, parse, n);
    var primary := new OrderedResults(values);
    var c := new Coordinator(decodedBase);
    var key: nat := 1;
    var ok := c.Begin(parse, n, start, initial, stop, limit, grid);
    hide Decoded;
    while !c.finalBlock
      invariant c.Valid(parse, n, start) && (!c.finalBlock ==> c.nextStart <= n) && c.OnCourse(parse, n, grid, goal, key)
      invariant primary.Valid() && AllHonest(parse, n, grid, key, primary.Values())
      invariant fresh(primary) && fresh(c) && fresh(c.stage) && fresh(c.committer)
      decreases if c.finalBlock then 0 else n - c.nextStart + 1
    {
      var estimatedStop := Min(startByte + (key + 1) * PARALLEL_GRID, endByte) * 8;
      ghost var candidates := primary.Values();
      var speculative := primary.Take(key);
      CandidatesLeft(parse, n, grid, key, candidates);
      if speculative.None? {
        NoJob(c, parse, n, grid, goal, key);
        return None;
      }
      if !(speculative.value.Some? && speculative.value.value.start == c.nextStart) {
        ok := c.Drain(parse, n, start, grid, goal, key);
        if !ok {
          return None;
        }
        ok := c.FallBack(data, estimatedStop, parse, n, start, grid, goal, key);
        if !ok {
          return None;
        }
      } else {
        HonestParts(parse, n, grid, key, speculative.value.value);
        ok := c.Accept(parse, n, start, speculative.value.value, grid, goal, key);
        if !ok {
          return None;
        }
        if c.outstanding >= threads {
          ok := c.CommitOldest(parse, n, start, grid, goal, key + 1);
          if !ok {
            return None;
          }
        }
      }
      key := key + 1;
    }
    ok := c.Drain(parse, n, start, grid, goal, key);
    if !ok {
      return None;
    }
    FinalCourse(c, parse, n, start, grid, goal, key);
    FinalAgrees(parse, n, start, c);
    r := Some(Report(c.committer.output, c.committer.hashed, c.committer.blocks, c.nextStart));
  }

  lemma CandidatesLeft(parse: Parser, n: nat, grid: Grid, key: nat, values: map<nat, Option<Segment>>)
    requires Proper(parse, n) && AllHonest(parse, n, grid, key, values)
    ensures key in values <==> grid.HasJob(key)
    ensures key in values && values[key].Some? ==> HonestAt(parse, n, grid, key, values[key].value)
    ensures AllHonest(parse, n, grid, key + 1, Streaming.Without(values, key))
  {
    hide HonestAt, Grid.HasJob;
  }

  lemma HonestParts(parse: Parser, n: nat, grid: Grid, key: nat, segment: Segment)
    requires Proper(parse, n) && HonestAt(parse, n, grid, key, segment)
    ensures Shaped(segment) && HonestFor(parse, n, segment, grid.Stop(key), PARALLEL_OUTPUT_LIMIT)
    ensures segment.start < segment.end && (!segment.final ==> segment.end <= n)
  {
  }

  lemma NoJob(c: Coordinator, parse: Parser, n: nat, grid: Grid, goal: bool, key: nat)
    requires Proper(parse, n) && c.OnCourse(parse, n, grid, goal, key) && !c.finalBlock && !grid.HasJob(key)
    ensures !goal
  {
    hide Fits, Grid.HasJob;
  }

  lemma FinalCourse(c: Coordinator, parse: Parser, n: nat, start: nat, grid: Grid, goal: bool, key: nat)
    requires Proper(parse, n) && c.Valid(parse, n, start) && c.OnCourse(parse, n, grid, goal, key) && c.finalBlock && c.outstanding == 0
    ensures goal
  {
    hide Fits, InStep;
  }

  lemma FinalAgrees(parse: Parser, n: nat, start: nat, c: Coordinator)
    requires Proper(parse, n) && c.Valid(parse, n, start) && c.finalBlock && c.outstanding == 0
    ensures Agrees(Report(c.committer.output, c.committer.hashed, c.committer.blocks, c.nextStart), Decode(parse, n, start, [], c.base, []))
  {
    assert c.committer.output + [] == c.committer.output;
    assert c.committer.blocks + [] == c.committer.blocks;
  }

  /** What the bytes from `startByte` on decode to, block after block, by RFC 1951. */
  ghost function Inflated(data: seq<Byte>, startByte: nat, decodedBase: nat): Outcome
  {
    DeflateBlocks.ParserGood(data);
    Decode(DeflateBlocks.ParserOf(data), 8 * |data|, startByte * 8, [], decodedBase, [])
  }

  /** The sizes of the chunks that the coordinator would decode one by one, for a stream with this report. */
  function SizesOf(startByte: nat, endByte: nat, infos: seq<Info>): seq<nat>
  {
    ChunkSizes(Grid(startByte, endByte), infos, 0, 0)
  }

  /**
   * When a stream that decodes is decoded by this input size, budget and number of threads: serially, always;
   * in parallel, unless a chunk after the first is too large. A first chunk that is too large is left to the serial decoder.
   */
  predicate Manageable(startByte: nat, endByte: nat, memoryLimit: nat, resolvedThreads: nat, infos: seq<Info>)
  {
    || endByte - startByte < 16 * 1024 * 1024 || memoryLimit < 16 * 1024 * 1024 + 64 * 1024 || resolvedThreads == 1
    || (SizesOf(startByte, endByte, infos) != [] && SizesOf(startByte, endByte, infos)[0] > 8 * 1024 * 1024)
    || forall i :: 0 <= i < |SizesOf(startByte, endByte, infos)| ==> SizesOf(startByte, endByte, infos)[i] <= 8 * 1024 * 1024
  }

  /**
   * Small inputs, tight budgets and streams whose first chunk fails are decoded serially; all others in parallel.
   * Either way a success has the serial decoder's bytes, hash, blocks and end byte, and there is one exactly for
   * the streams that decode and are manageable, whatever the candidates and the order of their results.
   */
  method DecompressStream(whole: seq<Byte>, startByte: nat, endByte: nat, decodedBase: nat, memoryLimit: nat, resolvedThreads: nat, find: Finder)
    returns (r: Option<Report>)
    ensures r.Some? ==> startByte <= endByte <= |whole| && Agrees(r.value.(end := Aligned(r.value.end)), Inflated(whole[..endByte], startByte, decodedBase))
    ensures r.Some? <==> startByte <= endByte <= |whole| && Inflated(whole[..endByte], startByte, decodedBase).Finished?
                         && Manageable(startByte, endByte, memoryLimit, resolvedThreads, Inflated(whole[..endByte], startByte, decodedBase).infos)
  {
    hide Proper, Bounded, Decoded, Chunk, DeflateBlocks.ParserOf, Decode, GoesOn, ChunkSizes, Inflated;
    if endByte > |whole| || startByte > endByte {
      return None;
    }
    var data := whole[..endByte];
    ghost var parse, n := DeflateBlocks.ParserOf(data), 8 * |data|;
    DeflateBlocks.ParserGood(data);
    ParserBounded(data);
    InflatedIs(data, startByte, decodedBase);
    var threads := if endByte - startByte < MIN_PARALLEL_INPUT || memoryLimit < PARALLEL_JOB_MEMORY then 1 else resolvedThreads;
    if threads == 1 {
      r := DecompressSerial(data, startByte * 8, decodedBase, parse, n);
      return;
    }
    var stop := Min(startByte + PARALLEL_GRID, endByte) * 8;
    var initial := DecodeSegment(data, startByte * 8, stop, Empty, PARALLEL_OUTPUT_LIMIT, parse, n);
    ChainOfAll(parse, n, startByte, endByte, decodedBase);
    FirstDecoded(parse, n, startByte * 8, stop, PARALLEL_OUTPUT_LIMIT, initial);
    if initial.None? {
      r := DecompressSerial(data, startByte * 8, decodedBase, parse, n);
      return;
    }
    r := DecompressParallel(data, startByte, endByte, decodedBase, threads, initial.value, find, parse, n, stop, PARALLEL_OUTPUT_LIMIT);
  }

  lemma FirstDecoded(parse: Parser, n: nat, at: nat, stop: nat, limit: nat, r: Option<Segment>)
    requires Proper(parse, n) && Decoded(r, Chunk(parse, n, at, stop, BeforeOf(Empty), |BeforeOf(Empty)| + limit, |BeforeOf(Empty)|, []), at, BeforeOf(Empty))
    ensures r.Some? <==> Chunk(parse, n, at, stop, [], limit, 0, []).Stopped?
    ensures r.Some? ==> r.value.end == Chunk(parse, n, at, stop, [], limit, 0, []).end && r.value.final == Chunk(parse, n, at, stop, [], limit, 0, []).final
  {
    hide Chunk;
  }

  lemma InflatedIs(data: seq<Byte>, startByte: nat, decodedBase: nat)
    ensures Proper(DeflateBlocks.ParserOf(data), 8 * |data|)
    ensures Inflated(data, startByte, decodedBase) == Decode(DeflateBlocks.ParserOf(data), 8 * |data|, startByte * 8, [], decodedBase, [])
  {
    DeflateBlocks.ParserGood(data);
  }

  /** The first chunk and the chain after it, in terms of the serial decoder's report. */
  lemma ChainOfAll(parse: Parser, n: nat, startByte: nat, endByte: nat, base: nat)
    requires Proper(parse, n) && n == 8 * endByte
    ensures var c := Chunk(parse, n, startByte * 8, Min(startByte + PARALLEL_GRID, endByte) * 8, [], PARALLEL_OUTPUT_LIMIT, 0, []);
      var o := Decode(parse, n, startByte * 8, [], base, []);
      && (o.Finished? ==> SizesOf(startByte, endByte, o.infos) != [] && (c.Stopped? <==> SizesOf(startByte, endByte, o.infos)[0] <= PARALLEL_OUTPUT_LIMIT))
      && (c.Stopped? ==> (GoesOn(parse, n, Grid(startByte, endByte), 1, c.end, c.out, c.final)
                          <==> o.Finished? && AllWithin(SizesOf(startByte, endByte, o.infos))))
  {
    hide Chunk, Decode, GoesOn, Fits;
    var grid := Grid(startByte, endByte);
    assert grid.Stop(0) == Min(startByte + PARALLEL_GRID, endByte) * 8;
    ChunkGoesOn(parse, n, grid, 0, startByte * 8, [], 0, []);
    FitsExactly(parse, n, grid, 0, startByte * 8, [], 0, base);
    if Decode(parse, n, startByte * 8, [], base, []).Finished? {
      FirstFits(parse, n, grid, 0, startByte * 8, [], 0, base, []);
    }
  }

  lemma ParserBounded(data: seq<Byte>)
    ensures Bounded(DeflateBlocks.ParserOf(data))
  {
    DeflateBlocks.ParserGood(data);
  }
}
