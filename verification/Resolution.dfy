/** Reading a chunk's markers once the bytes before it are known, and committing chunks in order. */
module Resolution {
  import opened Bytes
  import opened Inflate
  import opened Options
  import opened Segments

  /** The last `WINDOW` elements, or all of them. */
  function Tail(out: seq<nat>): (t: seq<nat>)
    ensures |t| == Min(|out|, WINDOW)
  {
    out[|out| - Min(|out|, WINDOW)..]
  }

  function TailBytes(out: seq<Byte>): (t: seq<Byte>)
    ensures |t| == Min(|out|, WINDOW) && t == Tail(out)
  {
    out[|out| - Min(|out|, WINDOW)..]
  }

  predicate Symbolic(symbols: seq<nat>)
  {
    forall i :: 0 <= i < |symbols| ==> IsSymbol(symbols[i])
  }

  /** The bytes a chunk's symbols stand for, if none of them dangles. */
  function Resolve(symbols: seq<nat>, predecessor: seq<Byte>): (r: Option<seq<Byte>>)
    requires Symbolic(symbols) && |predecessor| <= WINDOW
    ensures r.Some? <==> forall i :: 0 <= i < |symbols| ==> Known(predecessor, symbols[i])
    ensures r.Some? ==> |r.value| == |symbols| && forall i :: 0 <= i < |symbols| ==> r.value[i] == Meaning(predecessor, symbols[i])
  {
    if forall i :: 0 <= i < |symbols| ==> Known(predecessor, symbols[i]) then
      Some(seq(|symbols|, i requires 0 <= i < |symbols| => MeaningByte(predecessor, symbols[i])))
    else None
  }

  function MeaningByte(predecessor: seq<Byte>, sym: nat): (b: Byte)
    requires IsSymbol(sym) && Known(predecessor, sym)
    ensures b == Meaning(predecessor, sym)
  {
    if sym < 256 then sym else predecessor[|predecessor| + sym - 2 * WINDOW]
  }

  /** A window holds all that markers can mean. */
  lemma TailMeans(history: seq<nat>, sym: nat)
    requires IsSymbol(sym)
    ensures Known(history, sym) <==> Known(Tail(history), sym)
    ensures Known(history, sym) ==> Meaning(history, sym) == Meaning(Tail(history), sym)
  {
  }

  /** With a full window and many symbols a lookup table replaces the case distinction. */
  method ResolveByTable(symbols: seq<nat>, predecessor: seq<Byte>) returns (r: seq<Byte>)
    requires Symbolic(symbols) && |predecessor| == WINDOW
    ensures Resolve(symbols, predecessor) == Some(r)
  {
    var lookup := new Byte[65536](_ => 0);
    forall value | 0 <= value < 256 {
      lookup[value] := value;
    }
    forall i | WINDOW <= i < 65536 {
      lookup[i] := predecessor[i - WINDOW];
    }
    r := [];
    for i := 0 to |symbols|
      invariant |r| == i && forall j :: 0 <= j < i ==> r[j] == Meaning(predecessor, symbols[j])
      invariant forall v :: 0 <= v < 256 ==> lookup[v] == v
      invariant forall v :: WINDOW <= v < 65536 ==> lookup[v] == predecessor[v - WINDOW]
    {
      r := r + [lookup[symbols[i]]];
    }
    assert Resolve(symbols, predecessor).value == r;
  }

  method ResolveSymbols(symbols: seq<nat>, predecessor: seq<Byte>) returns (r: Option<seq<Byte>>)
    requires Symbolic(symbols) && |predecessor| <= WINDOW
    ensures r == Resolve(symbols, predecessor)
  {
    if |predecessor| == WINDOW && |symbols| >= 128 * 1024 {
      var table := ResolveByTable(symbols, predecessor);
      return Some(table);
    }
    var resolved: seq<Byte> := [];
    var missing := WINDOW - |predecessor|;
    for i := 0 to |symbols|
      invariant |resolved| == i
      invariant forall j :: 0 <= j < i ==> Known(predecessor, symbols[j]) && resolved[j] == Meaning(predecessor, symbols[j])
    {
      var symbol := symbols[i];
      if symbol <= 255 {
        resolved := resolved + [symbol];
      } else {
        var index := symbol - WINDOW;
        if index < missing {
          return None;
        }
        resolved := resolved + [predecessor[index - missing]];
      }
    }
    r := Some(resolved);
    assert Resolve(symbols, predecessor).value == resolved;
  }

  // ----- The next window -----

  lemma TailTail(out: seq<nat>, more: seq<nat>)
    ensures Tail(out + more) == Tail(Tail(out) + more)
  {
  }

  lemma ResolveSlice(symbols: seq<nat>, predecessor: seq<Byte>, k: nat)
    requires Symbolic(symbols) && |predecessor| <= WINDOW && k <= |symbols| && Resolve(symbols, predecessor).Some?
    ensures Symbolic(symbols[k..]) && Resolve(symbols[k..], predecessor) == Some(Resolve(symbols, predecessor).value[k..])
  {
    var part := symbols[k..];
    assert forall i :: 0 <= i < |part| ==> Known(predecessor, part[i]) by {
      assert forall i :: 0 <= i < |part| ==> part[i] == symbols[i + k];
    }
    assert Resolve(part, predecessor).value == Resolve(symbols, predecessor).value[k..];
  }

  /** The window after a chunk, from as few of its symbols as possible. */
  method SuccessorWindow(segment: Segment, predecessor: seq<Byte>) returns (r: Option<seq<Byte>>)
    requires Shaped(segment) && |predecessor| <= WINDOW
    ensures r.Some? ==> |r.value| <= WINDOW
    ensures Resolve(segment.marked, predecessor).Some? ==>
              r == Some(TailBytes(predecessor + (Resolve(segment.marked, predecessor).value + segment.clean[segment.cleanStart..])))
  {
    var clean := segment.clean[segment.cleanStart..];
    if |clean| >= WINDOW {
      ShortTail(predecessor, segment, clean);
      return Some(clean[|clean| - WINDOW..]);
    }
    var markedCount := Min(WINDOW - |clean|, |segment.marked|);
    var suffix := segment.marked[|segment.marked| - markedCount..];
    assert forall i :: 0 <= i < |suffix| ==> suffix[i] == segment.marked[i + (|segment.marked| - markedCount)];
    var marked := ResolveSymbols(suffix, predecessor);
    if Resolve(segment.marked, predecessor).Some? {
      ResolveSlice(segment.marked, predecessor, |segment.marked| - markedCount);
    }
    if marked.None? {
      return None;
    }
    var room := if WINDOW >= |marked.value| + |clean| then WINDOW - (|marked.value| + |clean|) else 0;
    var keep := Min(room, |predecessor|);
    r := Some(predecessor[|predecessor| - keep..] + marked.value + clean);
    if Resolve(segment.marked, predecessor).Some? {
      AssembledTail(predecessor, Resolve(segment.marked, predecessor).value, clean, markedCount, keep);
    }
  }

  lemma AssembledTail(predecessor: seq<Byte>, marked: seq<Byte>, clean: seq<Byte>, count: nat, keep: nat)
    requires |predecessor| <= WINDOW && |clean| < WINDOW && count == Min(WINDOW - |clean|, |marked|)
    requires keep == Min(WINDOW - (count + |clean|), |predecessor|)
    ensures predecessor[|predecessor| - keep..] + marked[|marked| - count..] + clean == TailBytes(predecessor + (marked + clean))
  {
  }

  lemma ShortTail(predecessor: seq<Byte>, segment: Segment, clean: seq<Byte>)
    requires Shaped(segment) && |predecessor| <= WINDOW <= |clean|
    ensures Resolve(segment.marked, predecessor).Some? ==>
              TailBytes(predecessor + (Resolve(segment.marked, predecessor).value + clean)) == clean[|clean| - WINDOW..]
  {
    hide Known, Meaning;
    if Resolve(segment.marked, predecessor).Some? {
      var all := predecessor + (Resolve(segment.marked, predecessor).value + clean);
      assert all[|all| - WINDOW..] == clean[|clean| - WINDOW..];
    }
  }

  // ----- Resolved chunks -----

  datatype Resolved = Resolved(marked: seq<Byte>, clean: seq<Byte>, cleanStart: nat, blocks: seq<Info>, end: nat, hashed: seq<Byte>)

  /** A chunk and the window before it. */
  datatype Task = Task(segment: Segment, predecessor: seq<Byte>)

  ghost predicate Sound(t: Task)
  {
    Shaped(t.segment) && |t.predecessor| <= WINDOW
  }

  /** The plain bytes of a chunk. */
  ghost function PlainOf(t: Task): Option<seq<Byte>>
    requires Sound(t)
  {
    var r := Resolve(t.segment.marked, t.predecessor);
    if r.None? then None else Some(r.value + t.segment.clean[t.segment.cleanStart..])
  }

  ghost predicate Resolves(r: Option<Resolved>, t: Task)
    requires Sound(t)
  {
    match PlainOf(t)
    case None => r == None
    case Some(plain) =>
      r.Some? && r.value.cleanStart <= |r.value.clean| && r.value.marked + r.value.clean[r.value.cleanStart..] == plain
      && r.value.blocks == t.segment.blocks && r.value.end == t.segment.end && r.value.hashed == plain
  }

  method ResolveSegment(segment: Segment, predecessor: seq<Byte>) returns (r: Option<Resolved>)
    requires Sound(Task(segment, predecessor))
    ensures Resolves(r, Task(segment, predecessor))
  {
    var marked := ResolveSymbols(segment.marked, predecessor);
    if marked.None? {
      return None;
    }
    var hashed := marked.value + segment.clean[segment.cleanStart..];
    r := Some(Resolved(marked.value, segment.clean, segment.cleanStart, segment.blocks, segment.end, hashed));
  }

  /** Writes chunks to the output in order, placing their blocks after everything before. */
  class SegmentCommitter {
    const decodedBase: nat
    var decoded: nat
    var output: seq<Byte>
    var hashed: seq<Byte>
    var blocks: seq<Info>

    ghost predicate Valid()
      reads this
    {
      decoded == |output| && hashed == output
    }

    constructor (decodedBase: nat)
      ensures Valid() && output == [] && blocks == [] && this.decodedBase == decodedBase
    {
      this.decodedBase := decodedBase;
      decoded, output, hashed, blocks := 0, [], [], [];
    }

    method Commit(segment: Resolved, ghost plain: seq<Byte>)
      requires Valid() && segment.cleanStart <= |segment.clean| && segment.hashed == plain
      requires segment.marked + segment.clean[segment.cleanStart..] == plain
      modifies this
      ensures Valid() && output == old(output) + plain
      ensures blocks == old(blocks) + Shifted(segment.blocks, decodedBase + |old(output)|)
    {
      output := output + segment.marked;
      output := output + segment.clean[segment.cleanStart..];
      assert output == old(output) + plain;
      hashed := hashed + segment.hashed;
      blocks := blocks + Shifted(segment.blocks, decodedBase + decoded);
      decoded := decoded + |segment.marked| + |segment.clean| - segment.cleanStart;
    }
  }

  // ----- One chunk after another -----

  /** The chunk is what decoding from its start bit gives, for some stop bit and limit. */
  ghost predicate Honest(parse: Parser, n: nat, segment: Segment)
    requires Proper(parse, n)
  {
    exists stop, limit: nat :: HonestFor(parse, n, segment, stop, limit)
  }

  ghost predicate HonestFor(parse: Parser, n: nat, segment: Segment, stop: nat, limit: nat)
    requires Proper(parse, n)
  {
    Decoded(Some(segment), Chunk(parse, n, segment.start, stop, Markers(), WINDOW + limit, WINDOW, []), segment.start, Markers())
  }

  /**
   * A chunk that starts where the serial decoder stands, resolved against its window,
   * takes the serial decoder to the chunk's end with exactly the resolved bytes and blocks.
   */
  lemma ChunkContinues(parse: Parser, n: nat, o: Outcome, plain: seq<Byte>, base: nat, infos: seq<Info>, t: Task)
    requires Proper(parse, n) && Sound(t) && Honest(parse, n, t.segment) && t.predecessor == Tail(plain)
    requires Reaches(parse, n, o, plain, base, infos, t.segment.start, false) && PlainOf(t).Some?
    ensures Reaches(parse, n, o, plain + PlainOf(t).value, base, infos + Shifted(t.segment.blocks, base + |plain|), t.segment.end, t.segment.final)
  {
    hide StandsFor, Dangling, Chunk, Known, Meaning;
    var seg := t.segment;
    var stop, limit: nat :| HonestFor(parse, n, seg, stop, limit);
    MarkersStandFor(plain);
    assert infos + Shifted([], base + |plain|) == infos;
    var z := ChunkSimulates(parse, n, seg.start, stop, plain, Markers(), plain, WINDOW + limit, [], base, infos);
    NoDangling(t, plain);
    PlainStands(t, plain, z);
  }

  /** The chunk's symbols after the markers. */
  ghost function After(t: Task): seq<nat>
    requires Sound(t)
  {
    Markers() + SymbolsOf(t.segment)
  }

  lemma SymbolAt(t: Task, plain: seq<Byte>, j: nat)
    requires Sound(t) && t.predecessor == Tail(plain) && PlainOf(t).Some? && j < |SymbolsOf(t.segment)| == |PlainOf(t).value|
    ensures IsSymbol(SymbolsOf(t.segment)[j]) && Known(plain, SymbolsOf(t.segment)[j])
    ensures PlainOf(t).value[j] == Meaning(plain, SymbolsOf(t.segment)[j])
  {
    TailMeans(plain, SymbolsOf(t.segment)[j]);
  }

  lemma NoDangling(t: Task, plain: seq<Byte>)
    requires Sound(t) && t.predecessor == Tail(plain) && PlainOf(t).Some?
    ensures !Dangling(plain, After(t))
  {
    hide Known, Meaning;
    forall j | WINDOW <= j < |After(t)| ensures Known(plain, After(t)[j]) {
      SymbolAt(t, plain, j - WINDOW);
    }
  }

  lemma PlainStands(t: Task, plain: seq<Byte>, z: seq<nat>)
    requires Sound(t) && t.predecessor == Tail(plain) && PlainOf(t).Some? && StandsFor(plain, After(t), z) && plain <= z
    ensures z == plain + PlainOf(t).value
  {
    hide Known, Meaning;
    forall k | |plain| <= k < |z| ensures z[k] == PlainOf(t).value[k - |plain|] {
      var j := k - |plain| + WINDOW;
      assert PlaceStandsFor(plain, After(t), z, j);
      SymbolAt(t, plain, j - WINDOW);
    }
  }
}
