/** Chunks of a DEFLATE stream decoded on their own, and their resolution against the bytes before them. */
module Segments {
  import opened Bytes
  import opened Inflate
  import opened MarkerOutputs
  import opened Options
  import DeflateBlocks
  import InflateReader
  import LsbStream

  // ----- What a chunk is -----

  datatype SegmentOutcome = Stopped(out: seq<nat>, infos: seq<Info>, end: nat, final: bool) | SegmentFailed

  function Aligned(at: nat): (a: nat)
    ensures a % 8 == 0 && at <= a < at + 8
  {
    (at + 7) / 8 * 8
  }

  /** Blocks up to the final one, or up to a dynamic one that ends at or after `stop`. */
  ghost function Chunk(parse: Parser, n: nat, at: nat, stop: nat, out: seq<nat>, cap: nat, origin: nat, infos: seq<Info>): (o: SegmentOutcome)
    requires Proper(parse, n) && origin <= |out|
    ensures o.Stopped? ==> out <= o.out && at < o.end && (!o.final ==> o.end <= n)
    decreases n - at
  {
    var b := parse(at);
    var r := RunCapped(out, b.ops, cap);
    if r.None? || b.ending.Broken? then SegmentFailed else
      var e := b.ending;
      var more := infos + [Info(e.kind, e.final, at, e.end, |out| - origin, |r.value| - |out|)];
      if e.final then Stopped(r.value, more, Aligned(e.end), true)
      else if e.end >= stop && e.kind == DynamicHuffman then Stopped(r.value, more, e.end, false)
      else Chunk(parse, n, e.end, stop, r.value, cap, origin, more)
  }

  function Shifted(infos: seq<Info>, offset: nat): (s: seq<Info>)
    ensures |s| == |infos|
    ensures forall i :: 0 <= i < |infos| ==> s[i] == infos[i].(decodedStart := infos[i].decodedStart + offset)
  {
    seq(|infos|, i requires 0 <= i < |infos| => infos[i].(decodedStart := infos[i].decodedStart + offset))
  }

  /** Where the serial decoder stands after a chunk: finished, or about to decode on. */
  ghost predicate Reaches(parse: Parser, n: nat, o: Outcome, out: seq<nat>, base: nat, infos: seq<Info>, end: nat, final: bool)
    requires Proper(parse, n)
  {
    if final then o.Finished? && o.out == out && o.infos == infos && Aligned(o.end) == end
    else o == Decode(parse, n, end, out, base, infos)
  }

  lemma ShiftPush(infos: seq<Info>, info: Info, offset: nat)
    ensures Shifted(infos + [info], offset) == Shifted(infos, offset) + [info.(decodedStart := info.decodedStart + offset)]
  {
  }

  /**
   * Decoding a chunk after markers and then reading the markers is decoding it after the true history;
   * if the chunk dangles, the serial decoder fails within it.
   */
  lemma {:induction false} ChunkSimulates(parse: Parser, n: nat, at: nat, stop: nat, history: seq<nat>, x: seq<nat>, y: seq<nat>, cap: nat,
                                          infos: seq<Info>, base: nat, pre: seq<Info>) returns (z: seq<nat>)
    requires Proper(parse, n) && StandsFor(history, x, y)
    requires Chunk(parse, n, at, stop, x, cap, WINDOW, infos).Stopped?
    ensures var c := Chunk(parse, n, at, stop, x, cap, WINDOW, infos);
            var o := Decode(parse, n, at, y, base, pre + Shifted(infos, base + |history|));
            if Dangling(history, c.out) then o == Failed
            else y <= z && StandsFor(history, c.out, z) && Reaches(parse, n, o, z, base, pre + Shifted(c.infos, base + |history|), c.end, c.final)
    decreases n - at
  {
    hide StandsFor, Dangling, Run, RunCapped, Shifted;
    SameGrowth(history, x, y);
    var b := parse(at);
    var c := Chunk(parse, n, at, stop, x, cap, WINDOW, infos);
    var r := RunCapped(x, b.ops, cap);
    var e := b.ending;
    var off := base + |history|;
    RunSimulates(history, x, y, b.ops);
    z := [];
    if Run(y, b.ops).None? {
      DanglesOn(history, r.value, c.out);
    } else {
      var y1 := Run(y, b.ops).value;
      SameGrowth(history, r.value, y1);
      var info := Info(e.kind, e.final, at, e.end, |x| - WINDOW, |r.value| - |x|);
      ShiftPush(infos, info, off);
      assert pre + (Shifted(infos, off) + [info.(decodedStart := info.decodedStart + off)])
          == (pre + Shifted(infos, off)) + [Info(e.kind, e.final, at, e.end, base + |y|, |y1| - |y|)];
      if e.final || (e.end >= stop && e.kind == DynamicHuffman) {
        NotDangling(history, r.value, y1);
        z := y1;
      } else {
        z := ChunkSimulates(parse, n, e.end, stop, history, r.value, y1, cap, infos + [info], base, pre);
      }
    }
  }

  lemma SameGrowth(history: seq<nat>, x: seq<nat>, y: seq<nat>)
    requires StandsFor(history, x, y)
    ensures |x| >= WINDOW && |x| - WINDOW + |history| == |y|
  {
  }

  /** With an empty history a chunk is the serial decoder itself. */
  lemma {:induction false} FirstChunk(parse: Parser, n: nat, at: nat, stop: nat, y: seq<nat>, cap: nat, infos: seq<Info>, base: nat)
    requires Proper(parse, n) && Chunk(parse, n, at, stop, y, cap, 0, infos).Stopped?
    ensures var c := Chunk(parse, n, at, stop, y, cap, 0, infos);
            Reaches(parse, n, Decode(parse, n, at, y, base, Shifted(infos, base)), c.out, base, Shifted(c.infos, base), c.end, c.final)
    decreases n - at
  {
    hide Run, RunCapped, Shifted;
    var b := parse(at);
    var r := RunCapped(y, b.ops, cap);
    var e := b.ending;
    var info := Info(e.kind, e.final, at, e.end, |y|, |r.value| - |y|);
    ShiftPush(infos, info, base);
    if !(e.final || (e.end >= stop && e.kind == DynamicHuffman)) {
      FirstChunk(parse, n, e.end, stop, r.value, cap, infos + [info], base);
    }
  }

  // ----- Decoding a chunk -----

  datatype Segment = Segment(start: nat, end: nat, marked: seq<nat>, clean: seq<Byte>, cleanStart: nat, blocks: seq<Info>, final: bool)

  ghost predicate Shaped(s: Segment)
  {
    s.cleanStart <= |s.clean| && forall i :: 0 <= i < |s.marked| ==> IsSymbol(s.marked[i])
  }

  ghost function SymbolsOf(s: Segment): seq<nat>
    requires Shaped(s)
  {
    s.marked + s.clean[s.cleanStart..]
  }

  method Apply(op: Op, out: MarkerOutput) returns (ok: bool)
    requires out.Valid()
    modifies out`marked, out`clean
    ensures out.Valid() && ok == StepCapped(old(out.Whole()), op, out.Cap()).Some?
    ensures ok ==> out.Whole() == StepCapped(old(out.Whole()), op, out.Cap()).value
  {
    match op
    case Literal(b) => ok := out.Emit(b);
    case Raw(bytes) => ok := out.ExtendBytes(bytes);
    case Copy(d, l) => ok := out.Copy(d, l);
  }

  method ApplyAll(ops: seq<Op>, out: MarkerOutput) returns (ok: bool)
    requires out.Valid()
    modifies out`marked, out`clean
    ensures out.Valid() && ok == RunCapped(old(out.Whole()), ops, out.Cap()).Some?
    ensures ok ==> out.Whole() == RunCapped(old(out.Whole()), ops, out.Cap()).value
  {
    hide StepCapped, MarkerOutput.Valid, MarkerOutput.Whole;
    ghost var start := out.Whole();
    assert ops[..0] == [];
    for i := 0 to |ops|
      invariant out.Valid() && RunCapped(start, ops[..i], out.Cap()) == Some(out.Whole())
    {
      RunCappedStep(start, ops, i, out.Cap());
      ok := Apply(ops[i], out);
      if !ok {
        RunCappedFails(start, ops, i + 1, out.Cap());
        return;
      }
    }
    assert ops[..|ops|] == ops;
    ok := true;
  }

  lemma RunCappedStep(out: seq<nat>, ops: seq<Op>, i: nat, cap: nat)
    requires i < |ops|
    ensures RunCapped(out, ops[..i + 1], cap) ==
            var before := RunCapped(out, ops[..i], cap); if before.None? then None else StepCapped(before.value, ops[i], cap)
  {
    assert ops[..i + 1][..i] == ops[..i];
  }

  lemma {:induction false} RunCappedFails(out: seq<nat>, ops: seq<Op>, i: nat, cap: nat)
    requires i <= |ops| && RunCapped(out, ops[..i], cap).None?
    ensures RunCapped(out, ops, cap).None?
    decreases |ops|
  {
    if i < |ops| {
      var n := |ops| - 1;
      assert ops[..n][..i] == ops[..i];
      RunCappedFails(out, ops[..n], i, cap);
    } else {
      assert ops[..i] == ops;
    }
  }

  /** A chunk as its specification describes it, or nothing where the specification fails. */
  ghost predicate Decoded(r: Option<Segment>, o: SegmentOutcome, start: nat, before: seq<nat>)
  {
    match o
    case SegmentFailed => r == None
    case Stopped(out, infos, end, final) =>
      r.Some? && Shaped(r.value) && r.value.start == start && r.value.end == end && r.value.final == final
      && r.value.blocks == infos && before + SymbolsOf(r.value) == out
  }

  ghost function BeforeOf(history: InitialHistory): seq<nat>
  {
    if history.Unknown? then Markers() else []
  }

  lemma ChunkStep(parse: Parser, n: nat, at: nat, stop: nat, out: seq<nat>, cap: nat, origin: nat, infos: seq<Info>)
    requires Proper(parse, n) && origin <= |out|
    ensures var b := parse(at);
            var r := RunCapped(out, b.ops, cap);
            Chunk(parse, n, at, stop, out, cap, origin, infos) ==
            if r.None? || b.ending.Broken? then SegmentFailed else
              var e := b.ending;
              var more := infos + [Info(e.kind, e.final, at, e.end, |out| - origin, |r.value| - |out|)];
              if e.final then Stopped(r.value, more, Aligned(e.end), true)
              else if e.end >= stop && e.kind == DynamicHuffman then Stopped(r.value, more, e.end, false)
              else Chunk(parse, n, e.end, stop, r.value, cap, origin, more)
  {
    hide RunCapped;
  }

  lemma ParserAt(data: seq<Byte>, at: nat)
    ensures DeflateBlocks.ParserOf(data)(at) == DeflateBlocks.ParseBlock(LsbStream.Packed(data), at)
  {
  }

  /** One block into a chunk's output. */
  method DecodeBlock(data: seq<Byte>, bit: nat, out: MarkerOutput, ghost parse: Parser) returns (info: Option<Info>)
    requires out.Valid() && parse == DeflateBlocks.ParserOf(data)
    modifies out`marked, out`clean
    ensures out.Valid()
    ensures var b := parse(bit);
            var r := RunCapped(old(out.Whole()), b.ops, out.Cap());
            if r.None? || b.ending.Broken? then info == None
            else out.Whole() == r.value && info == Some(Info(b.ending.kind, b.ending.final, bit, b.ending.end,
                   |old(out.Whole())| - |out.Before()|, |r.value| - |old(out.Whole())|))
  {
    hide MarkerOutput.Valid, MarkerOutput.Whole, MarkerOutput.Symbols, RunCapped, MarkerOutput.Cap, MarkerOutput.Before, DeflateBlocks.ParseBlock, DeflateBlocks.ParserOf;
    WholeLength(out);
    var decodedStart := out.Len();
    var block := InflateReader.ReadBlock(data, bit);
    ParserAt(data, bit);
    var ok := ApplyAll(block.ops, out);
    if !ok {
      return None;
    }
    match block.ending
    case Broken => return None;
    case Complete(kind, final, end) =>
      WholeLength(out);
      var decodedEnd := out.Len();
      info := Some(Info(kind, final, bit, end, decodedStart, decodedEnd - decodedStart));
  }

  /** A chunk is decoded exactly when its specification stops within the limit. */
  method DecodeSegment(data: seq<Byte>, start: nat, stop: nat, history: InitialHistory, limit: nat, ghost parse: Parser, ghost n: nat)
    returns (r: Option<Segment>)
    requires Proper(parse, n) && parse == DeflateBlocks.ParserOf(data)
    ensures Decoded(r, Chunk(parse, n, start, stop, BeforeOf(history), |BeforeOf(history)| + limit, |BeforeOf(history)|, []), start, BeforeOf(history))
    ensures r.Some? && history.Empty? ==> r.value.marked == []
  {
    hide MarkerOutput.Valid, MarkerOutput.Whole, MarkerOutput.Symbols, RunCapped, Chunk, BeforeOf, MarkerOutput.Before, DeflateBlocks.ParserOf;
    var out := new MarkerOutput(history, limit);
    ghost var before := BeforeOf(history);
    StartsEmpty(out);
    ghost var goal := Chunk(parse, n, start, stop, before, |before| + limit, |before|, []);
    var bit, blocks: seq<Info> := start, [];
    while true
      invariant out.Valid() && out.history == history && out.limit == limit && out.Before() == before && |before| <= |out.Whole()|
      invariant goal == Chunk(parse, n, bit, stop, out.Whole(), |before| + limit, |before|, blocks)
      decreases n - bit
    {
      ChunkStep(parse, n, bit, stop, out.Whole(), |before| + limit, |before|, blocks);
      var info := DecodeBlock(data, bit, out, parse);
      if info.None? {
        return None;
      }
      out.TryClean();
      blocks := blocks + [info.value];
      bit := info.value.end;
      WholeLength(out);
      if info.value.final || (bit >= stop && info.value.kind == DynamicHuffman) {
        WholeShape(out);
        return Some(Segment(start, if info.value.final then Aligned(bit) else bit, out.marked, out.clean, out.cleanStart, blocks, info.value.final));
      }
    }
  }

  lemma StartsEmpty(out: MarkerOutput)
    requires out.Valid() && out.Symbols() == []
    ensures out.Whole() == out.Before() == BeforeOf(out.history)
  {
  }

  lemma WholeLength(out: MarkerOutput)
    requires out.Valid()
    ensures |out.Whole()| == |out.Before()| + |out.Symbols()| && out.Cap() == |out.Before()| + out.limit
  {
  }

  lemma WholeShape(out: MarkerOutput)
    requires out.Valid()
    ensures out.cleanStart <= |out.clean| && (forall i :: 0 <= i < |out.marked| ==> IsSymbol(out.marked[i]))
    ensures out.Whole() == out.Before() + (out.marked + out.clean[out.cleanStart..])
    ensures out.history.Empty? ==> out.marked == []
  {
  }
}
