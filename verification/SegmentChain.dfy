/** When chunk after chunk of a DEFLATE stream can be decoded within a limit, whatever is known of the bytes before each. */
module SegmentChain {
  import opened Bytes
  import opened Inflate
  import opened Options
  import opened Resolution
  import opened Segments

  const PARALLEL_GRID: nat := 524288
  const PARALLEL_OUTPUT_LIMIT: nat := 8388608

  /** The byte range of a stream, cut at every grid step; chunk `key` looks for its end from the next grid point on. */
  datatype Grid = Grid(startByte: nat, endByte: nat)
  {
    function Stop(key: nat): nat
    {
      Min(startByte + (key + 1) * PARALLEL_GRID, endByte) * 8
    }

    predicate HasJob(key: nat)
    {
      key >= 1 && startByte + key * PARALLEL_GRID < endByte
    }
  }

  predicate Ends(grid: Grid, key: nat, end: nat, kind: BlockKind)
  {
    end >= grid.Stop(key) && kind == DynamicHuffman
  }

  /** The blocks from `at` on succeed after the true output, and no chunk adds more than the limit; the current one began at `origin`. */
  ghost predicate Fits(parse: Parser, n: nat, grid: Grid, key: nat, at: nat, out: seq<nat>, origin: nat)
    requires Proper(parse, n)
    decreases n - at
  {
    var b := parse(at);
    var r := Run(out, b.ops);
    && r.Some? && b.ending.Complete? && |r.value| <= origin + PARALLEL_OUTPUT_LIMIT
    && (b.ending.final
        || if Ends(grid, key, b.ending.end, b.ending.kind) then grid.HasJob(key + 1) && Fits(parse, n, grid, key + 1, b.ending.end, r.value, |r.value|)
           else Fits(parse, n, grid, key, b.ending.end, r.value, origin))
  }

  ghost predicate GoesOn(parse: Parser, n: nat, grid: Grid, key: nat, at: nat, out: seq<nat>, final: bool)
    requires Proper(parse, n)
  {
    final || (grid.HasJob(key) && Fits(parse, n, grid, key, at, out, |out|))
  }

  // ----- Chunks -----

  /** A limit on every step is a limit on the result. */
  lemma {:induction false} CappedIs(out: seq<nat>, ops: seq<Op>, cap: nat)
    requires |out| <= cap
    ensures RunCapped(out, ops, cap) == if Run(out, ops).Some? && |Run(out, ops).value| <= cap then Run(out, ops) else None
  {
    hide Step;
    if ops != [] {
      CappedIs(out, ops[..|ops| - 1], cap);
    }
  }

  /** Decoding a chunk after the true output is a step of the chain. */
  lemma {:induction false} ChunkGoesOn(parse: Parser, n: nat, grid: Grid, key: nat, at: nat, out: seq<nat>, origin: nat, infos: seq<Info>)
    requires Proper(parse, n) && origin <= |out| <= origin + PARALLEL_OUTPUT_LIMIT
    ensures var c := Chunk(parse, n, at, grid.Stop(key), out, origin + PARALLEL_OUTPUT_LIMIT, origin, infos);
      Fits(parse, n, grid, key, at, out, origin) <==> c.Stopped? && GoesOn(parse, n, grid, key + 1, c.end, c.out, c.final)
    decreases n - at
  {
    hide Run, RunCapped, Grid.Stop, Grid.HasJob;
    var b := parse(at);
    CappedIs(out, b.ops, origin + PARALLEL_OUTPUT_LIMIT);
    var r := RunCapped(out, b.ops, origin + PARALLEL_OUTPUT_LIMIT);
    if r.Some? && b.ending.Complete? && !b.ending.final && !Ends(grid, key, b.ending.end, b.ending.kind) {
      var info := Info(b.ending.kind, b.ending.final, at, b.ending.end, |out| - origin, |r.value| - |out|);
      ChunkGoesOn(parse, n, grid, key, b.ending.end, r.value, origin, infos + [info]);
    }
  }

  /** So is decoding it after markers, if none of them dangles. */
  lemma {:induction false} MarkedGoesOn(parse: Parser, n: nat, grid: Grid, key: nat, at: nat, history: seq<nat>, x: seq<nat>, y: seq<nat>, infos: seq<Info>) returns (z: seq<nat>)
    requires Proper(parse, n) && StandsFor(history, x, y) && history <= y && |x| <= WINDOW + PARALLEL_OUTPUT_LIMIT && |x| >= WINDOW
    ensures var c := Chunk(parse, n, at, grid.Stop(key), x, WINDOW + PARALLEL_OUTPUT_LIMIT, WINDOW, infos);
      && (c.Stopped? && !Dangling(history, c.out) ==> history <= z && StandsFor(history, c.out, z))
      && (Fits(parse, n, grid, key, at, y, |history|) <==> c.Stopped? && !Dangling(history, c.out) && GoesOn(parse, n, grid, key + 1, c.end, z, c.final))
    decreases n - at
  {
    hide StandsFor, Dangling, Run, RunCapped, Grid.Stop, Grid.HasJob;
    SameGrowth(history, x, y);
    var b := parse(at);
    var cap := WINDOW + PARALLEL_OUTPUT_LIMIT;
    var c := Chunk(parse, n, at, grid.Stop(key), x, cap, WINDOW, infos);
    CappedIs(x, b.ops, cap);
    CopiesPositive(parse, n, at);
    RunExactly(history, x, y, b.ops);
    z := y;
    if Run(y, b.ops).Some? {
      var x1, y1 := Run(x, b.ops).value, Run(y, b.ops).value;
      SameGrowth(history, x1, y1);
      if b.ending.Complete? && |x1| <= cap {
        if b.ending.final || Ends(grid, key, b.ending.end, b.ending.kind) {
          z := y1;
        } else {
          var info := Info(b.ending.kind, b.ending.final, at, b.ending.end, |x| - WINDOW, |x1| - |x|);
          z := MarkedGoesOn(parse, n, grid, key, b.ending.end, history, x1, y1, infos + [info]);
        }
      }
    } else if c.Stopped? {
      DanglesOn(history, Run(x, b.ops).value, c.out) by { ChunkAppends(parse, n, at, grid.Stop(key), x, cap, infos); }
    }
  }

  lemma CopiesPositive(parse: Parser, n: nat, at: nat)
    requires Proper(parse, n)
    ensures forall i :: 0 <= i < |parse(at).ops| && parse(at).ops[i].Copy? ==> parse(at).ops[i].length >= 1
  {
  }

  lemma ChunkAppends(parse: Parser, n: nat, at: nat, stop: nat, x: seq<nat>, cap: nat, infos: seq<Info>)
    requires Proper(parse, n) && WINDOW <= |x| && Chunk(parse, n, at, stop, x, cap, WINDOW, infos).Stopped?
    ensures Run(x, parse(at).ops).Some? && Run(x, parse(at).ops).value <= Chunk(parse, n, at, stop, x, cap, WINDOW, infos).out
  {
    hide Run, RunCapped;
  }

  /** A task's symbols resolve exactly when none of its markers dangles. */
  lemma ResolvesExactly(t: Task, plain: seq<Byte>)
    requires Sound(t) && t.predecessor == Tail(plain)
    ensures PlainOf(t).Some? <==> !Dangling(plain, After(t))
  {
    hide Known, Meaning;
    if PlainOf(t).Some? {
      NoDangling(t, plain);
    } else {
      var i :| 0 <= i < |t.segment.marked| && !Known(t.predecessor, t.segment.marked[i]);
      TailMeans(plain, t.segment.marked[i]);
      assert After(t)[WINDOW + i] == t.segment.marked[i];
    }
  }

  /** A speculative chunk that starts where the decoder stands is a step of the chain exactly if it resolves. */
  lemma TaskGoesOn(parse: Parser, n: nat, grid: Grid, key: nat, plain: seq<Byte>, t: Task)
    requires Proper(parse, n) && Sound(t) && t.predecessor == Tail(plain) && HonestFor(parse, n, t.segment, grid.Stop(key), PARALLEL_OUTPUT_LIMIT)
    ensures Fits(parse, n, grid, key, t.segment.start, plain, |plain|)
            <==> PlainOf(t).Some? && GoesOn(parse, n, grid, key + 1, t.segment.end, plain + PlainOf(t).value, t.segment.final)
  {
    hide StandsFor, Dangling, Chunk, Known, Meaning, Fits, PlainOf, Resolve;
    MarkersStandFor(plain);
    var z := MarkedGoesOn(parse, n, grid, key, t.segment.start, plain, Markers(), plain, []);
    ResolvesExactly(t, plain);
    if PlainOf(t).Some? {
      PlainStands(t, plain, z);
    }
  }

  /** A chunk that cannot be decoded after markers is not a step of any chain. */
  lemma NoChunk(parse: Parser, n: nat, grid: Grid, key: nat, at: nat, plain: seq<Byte>)
    requires Proper(parse, n) && Chunk(parse, n, at, grid.Stop(key), Markers(), WINDOW + PARALLEL_OUTPUT_LIMIT, WINDOW, []).SegmentFailed?
    ensures !Fits(parse, n, grid, key, at, plain, |plain|)
  {
    hide StandsFor, Dangling, Chunk, Known, Meaning, Fits;
    MarkersStandFor(plain);
    var z := MarkedGoesOn(parse, n, grid, key, at, plain, Markers(), plain, []);
  }

  // ----- In terms of the blocks reported -----

  /** How much each chunk adds: a chunk ends with the first dynamic block that reaches its stop, or with the last block. */
  function ChunkSizes(grid: Grid, infos: seq<Info>, key: nat, sum: nat): (sizes: seq<nat>)
    ensures infos != [] ==> |sizes| >= 1 && sizes[0] >= sum
    decreases |infos|
  {
    if infos == [] then [] else
      var i := infos[0];
      if i.final then [sum + i.decodedLen]
      else if Ends(grid, key, i.end, i.kind) then [sum + i.decodedLen] + ChunkSizes(grid, infos[1..], key + 1, 0)
      else var rest := ChunkSizes(grid, infos[1..], key, sum + i.decodedLen);
        if rest == [] then [sum + i.decodedLen] else rest
  }

  predicate AllWithin(sizes: seq<nat>)
  {
    forall i :: 0 <= i < |sizes| ==> sizes[i] <= PARALLEL_OUTPUT_LIMIT
  }

  /** What decoding from here reports. */
  ghost function Reported(parse: Parser, n: nat, at: nat, out: seq<nat>, base: nat): seq<Info>
    requires Proper(parse, n)
  {
    var o := Decode(parse, n, at, out, base, []);
    if o.Finished? then o.infos else []
  }

  /** Reports made earlier are only carried along. */
  lemma {:induction false} DecodeCarries(parse: Parser, n: nat, at: nat, out: seq<nat>, base: nat, infos: seq<Info>)
    requires Proper(parse, n)
    ensures var o, p := Decode(parse, n, at, out, base, infos), Decode(parse, n, at, out, base, []);
      (o.Finished? <==> p.Finished?) && (p.Finished? ==> o == Finished(p.out, infos + p.infos, p.end) && p.infos != [])
    decreases n - at
  {
    hide Run;
    var b := parse(at);
    var r := Run(out, b.ops);
    if r.Some? && b.ending.Complete? {
      var info := Info(b.ending.kind, b.ending.final, at, b.ending.end, base + |out|, |r.value| - |out|);
      assert [] + [info] == [info];
      if !b.ending.final {
        DecodeCarries(parse, n, b.ending.end, r.value, base, infos + [info]);
        DecodeCarries(parse, n, b.ending.end, r.value, base, [info]);
        var p := Decode(parse, n, b.ending.end, r.value, base, []);
        if p.Finished? {
          assert infos + [info] + p.infos == infos + ([info] + p.infos);
        }
      }
    }
  }

  /** One block of a report and the rest. */
  lemma ReportedStep(parse: Parser, n: nat, at: nat, out: seq<nat>, base: nat)
    requires Proper(parse, n)
    ensures var b := parse(at); var r := Run(out, b.ops); var o := Decode(parse, n, at, out, base, []);
      && (o.Finished? <==> r.Some? && b.ending.Complete? && (b.ending.final || Decode(parse, n, b.ending.end, r.value, base, []).Finished?))
      && (o.Finished? ==>
            var info := Info(b.ending.kind, b.ending.final, at, b.ending.end, base + |out|, |r.value| - |out|);
            o.infos == [info] + (if b.ending.final then [] else Reported(parse, n, b.ending.end, r.value, base))
            && (!b.ending.final ==> Reported(parse, n, b.ending.end, r.value, base) != []))
  {
    hide Run;
    var b := parse(at);
    var r := Run(out, b.ops);
    if r.Some? && b.ending.Complete? && !b.ending.final {
      var info := Info(b.ending.kind, b.ending.final, at, b.ending.end, base + |out|, |r.value| - |out|);
      assert [] + [info] == [info];
      DecodeCarries(parse, n, b.ending.end, r.value, base, [info]);
    }
  }

  /** Where decoding goes on, the grid still has a job. */
  lemma JobThere(parse: Parser, n: nat, grid: Grid, key: nat, at: nat, out: seq<nat>, base: nat)
    requires Proper(parse, n) && n == 8 * grid.endByte && grid.Stop(key) <= at && Decode(parse, n, at, out, base, []).Finished?
    ensures grid.HasJob(key + 1)
  {
  }

  /** The chain holds together exactly when the serial decoder finishes and no chunk of its report exceeds the limit. */
  lemma {:induction false} FitsExactly(parse: Parser, n: nat, grid: Grid, key: nat, at: nat, out: seq<nat>, origin: nat, base: nat)
    requires Proper(parse, n) && n == 8 * grid.endByte && origin <= |out|
    ensures Fits(parse, n, grid, key, at, out, origin)
            <==> Decode(parse, n, at, out, base, []).Finished? && AllWithin(ChunkSizes(grid, Reported(parse, n, at, out, base), key, |out| - origin))
    decreases n - at
  {
    hide Run, Decode, Grid.Stop, Grid.HasJob;
    ReportedStep(parse, n, at, out, base);
    var b := parse(at);
    var r := Run(out, b.ops);
    if r.Some? && b.ending.Complete? {
      var sum := |r.value| - origin;
      if b.ending.final {
        assert ChunkSizes(grid, Reported(parse, n, at, out, base), key, |out| - origin) == [sum];
      } else if Decode(parse, n, b.ending.end, r.value, base, []).Finished? {
        var rest := Reported(parse, n, b.ending.end, r.value, base);
        assert Reported(parse, n, at, out, base)[1..] == rest;
        if Ends(grid, key, b.ending.end, b.ending.kind) {
          JobThere(parse, n, grid, key, b.ending.end, r.value, base);
          FitsExactly(parse, n, grid, key + 1, b.ending.end, r.value, |r.value|, base);
          SizesFirst(sum, ChunkSizes(grid, rest, key + 1, 0));
        } else {
          FitsExactly(parse, n, grid, key, b.ending.end, r.value, origin, base);
        }
      } else if Ends(grid, key, b.ending.end, b.ending.kind) {
        FitsExactly(parse, n, grid, key + 1, b.ending.end, r.value, |r.value|, base);
      } else {
        FitsExactly(parse, n, grid, key, b.ending.end, r.value, origin, base);
      }
    }
  }

  lemma SizesFirst(first: nat, rest: seq<nat>)
    ensures AllWithin([first] + rest) <==> first <= PARALLEL_OUTPUT_LIMIT && AllWithin(rest)
  {
    var all := [first] + rest;
    assert all[0] == first && all[1..] == rest;
    if AllWithin(all) {
      forall i | 0 <= i < |rest| ensures rest[i] <= PARALLEL_OUTPUT_LIMIT { assert rest[i] == all[i + 1]; }
    }
  }

  /** A first chunk can be decoded exactly when it is within the limit, if the stream decodes at all. */
  lemma {:induction false} FirstFits(parse: Parser, n: nat, grid: Grid, key: nat, at: nat, out: seq<nat>, origin: nat, base: nat, infos: seq<Info>)
    requires Proper(parse, n) && origin <= |out| <= origin + PARALLEL_OUTPUT_LIMIT && Decode(parse, n, at, out, base, []).Finished?
    ensures Reported(parse, n, at, out, base) != []
    ensures Chunk(parse, n, at, grid.Stop(key), out, origin + PARALLEL_OUTPUT_LIMIT, origin, infos).Stopped?
            <==> ChunkSizes(grid, Reported(parse, n, at, out, base), key, |out| - origin)[0] <= PARALLEL_OUTPUT_LIMIT
    decreases n - at
  {
    hide Run, RunCapped, Decode, Grid.Stop;
    ReportedStep(parse, n, at, out, base);
    var b := parse(at);
    var r := Run(out, b.ops);
    CappedIs(out, b.ops, origin + PARALLEL_OUTPUT_LIMIT);
    if !b.ending.final {
      var rest := Reported(parse, n, b.ending.end, r.value, base);
      assert Reported(parse, n, at, out, base)[1..] == rest;
      if !Ends(grid, key, b.ending.end, b.ending.kind) && |r.value| <= origin + PARALLEL_OUTPUT_LIMIT {
        FirstFits(parse, n, grid, key, b.ending.end, r.value, origin, base, infos + [Info(b.ending.kind, b.ending.final, at, b.ending.end, |out| - origin, |r.value| - |out|)]);
      }
    }
  }
}
