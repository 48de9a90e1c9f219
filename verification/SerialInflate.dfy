/** The serial DEFLATE decoder: an emitter that flushes in chunks and keeps only the history it needs. */
module SerialInflate {
  import opened Bytes
  import opened History
  import opened Inflate
  import opened MarkerOutputs
  import opened Options
  import opened Segments
  import DeflateBlocks
  import InflateReader

  const OUTPUT_CHUNK: nat := 65536
  const HISTORY_COMPACT: nat := 1048576

  class Emitter {
    /** The sink, and a hash of everything written to it. */
    var output: seq<Byte>
    var hashed: seq<Byte>
    /** History followed by bytes not yet written. */
    var buffer: seq<Byte>
    var historyLen: nat
    var memberDecoded: nat
    const decodedBase: nat
    /** The longest the buffer has been. */
    ghost var peak: nat

    /** Everything decoded so far. */
    ghost function Decoded(): seq<Byte>
      reads this
      requires historyLen <= |buffer|
    {
      output + buffer[historyLen..]
    }

    /** The buffer is the tail of everything decoded, at least a window of it if there is one. */
    ghost predicate Valid()
      reads this
    {
      && historyLen <= |buffer| && hashed == output && memberDecoded == |Decoded()|
      && |buffer| <= |Decoded()| && buffer == Decoded()[|Decoded()| - |buffer|..]
      && |buffer| >= Min(|Decoded()|, WINDOW)
      && peak <= HISTORY_COMPACT + 2 * OUTPUT_CHUNK
    }

    /** Between operations less than a chunk is pending and the history is compact. */
    ghost predicate Settled()
      reads this
    {
      Valid() && |buffer| - historyLen < OUTPUT_CHUNK && historyLen < HISTORY_COMPACT
    }

    constructor (decodedBase: nat)
      ensures Settled() && Decoded() == [] && this.decodedBase == decodedBase
    {
      output, hashed, buffer, historyLen, memberDecoded, peak := [], [], [], 0, 0, 0;
      this.decodedBase := decodedBase;
    }

    /** Write the pending bytes and drop history beyond a window once the buffer is long. */
    method FlushPending()
      requires Valid() && |buffer| <= HISTORY_COMPACT + 2 * OUTPUT_CHUNK
      modifies this
      ensures Valid() && Decoded() == old(Decoded()) == output && historyLen == |buffer|
      ensures old(historyLen) < HISTORY_COMPACT ==> Settled()
    {
      var pending := buffer[historyLen..];
      if |pending| == 0 {
        assert Decoded() == output;
        return;
      }
      ghost var all := Decoded();
      output := output + pending;
      hashed := hashed + pending;
      historyLen := |buffer|;
      assert buffer[historyLen..] == [] && Decoded() == all;
      if |buffer| >= HISTORY_COMPACT {
        var keep := Min(|buffer|, WINDOW);
        buffer := buffer[|buffer| - keep..];
        historyLen := keep;
        assert Decoded() == all;
        assert buffer == all[|all| - keep..];
      }
    }

    method Push(bytes: seq<Byte>)
      requires Settled() && |bytes| <= OUTPUT_CHUNK
      modifies this`buffer, this`memberDecoded, this`peak
      ensures Valid() && Decoded() == old(Decoded()) + bytes && |buffer| == |old(buffer)| + |bytes|
    {
      hide Step, Run;
      Pushed(output, buffer, historyLen, Decoded(), bytes);
      ghost var all := Decoded() + bytes;
      buffer := buffer + bytes;
      memberDecoded := memberDecoded + |bytes|;
      if |buffer| > peak { peak := |buffer|; }
      assert Decoded() == all;
    }

    /** Append decoded bytes and flush if a chunk has gathered. */
    method Append(bytes: seq<Byte>)
      requires Settled() && |bytes| <= OUTPUT_CHUNK
      modifies this
      ensures Settled() && Decoded() == old(Decoded()) + bytes
    {
      Push(bytes);
      hide Valid, Decoded;
      if |buffer| - historyLen >= OUTPUT_CHUNK {
        FlushPending();
      }
    }

    method EmitByte(byte: Byte)
      requires Settled()
      modifies this
      ensures Settled() && Decoded() == old(Decoded()) + [byte]
    {
      Append([byte]);
    }

    /** A match is copied from the buffer alone. */
    method CopyMatch(distance: nat, length: nat) returns (ok: bool)
      requires Settled() && length <= OUTPUT_CHUNK
      modifies this
      ensures Settled() && ok == Step(old(Decoded()), Copy(distance, length)).Some?
      ensures Decoded() == if ok then Step(old(Decoded()), Copy(distance, length)).value else old(Decoded())
    {
      hide Extend;
      var available := Min(memberDecoded, WINDOW);
      if distance == 0 || distance > available {
        return false;
      }
      ghost var all := Decoded();
      ghost var before := all[..|all| - |buffer|];
      assert all == before + buffer;
      var extended := ExtendClean(buffer, distance, length);
      ExtendSuffix<nat>(before, buffer, distance, length);
      var more := extended[|buffer|..];
      assert extended == buffer + more;
      assert before + extended == all + more;
      Append(more);
      ok := true;
    }

    method Finish()
      requires Settled()
      modifies this
      ensures Settled() && output == old(Decoded()) && hashed == output
    {
      FlushPending();
    }
  }

  lemma Pushed(output: seq<Byte>, buffer: seq<Byte>, k: nat, all: seq<Byte>, bytes: seq<Byte>)
    requires k <= |buffer| <= |all| && buffer == all[|all| - |buffer|..]
    ensures output + (buffer + bytes)[k..] == (output + buffer[k..]) + bytes
    ensures buffer + bytes == (all + bytes)[|all + bytes| - |buffer + bytes|..]
  {
  }

  /** DEFLATE bounds every operation: a stored block has at most 65535 bytes, a match at most 258. */
  ghost predicate Bounded(parse: Parser)
  {
    forall at: nat, i :: 0 <= i < |parse(at).ops| ==> Growth(parse(at).ops[i]) <= OUTPUT_CHUNK
  }

  method Apply(op: Op, out: Emitter) returns (ok: bool)
    requires out.Settled() && Growth(op) <= OUTPUT_CHUNK
    modifies out
    ensures out.Settled() && ok == Step(old(out.Decoded()), op).Some?
    ensures ok ==> out.Decoded() == Step(old(out.Decoded()), op).value
  {
    match op
    case Literal(b) => out.EmitByte(b); ok := true;
    case Raw(bytes) => out.Append(bytes); ok := true;
    case Copy(d, l) => ok := out.CopyMatch(d, l);
  }

  lemma RunStep(out: seq<nat>, ops: seq<Op>, i: nat)
    requires i < |ops|
    ensures Run(out, ops[..i + 1]) == var before := Run(out, ops[..i]); if before.None? then None else Step(before.value, ops[i])
  {
    assert ops[..i + 1][..i] == ops[..i];
  }

  lemma {:induction false} RunFails(out: seq<nat>, ops: seq<Op>, i: nat)
    requires i <= |ops| && Run(out, ops[..i]).None?
    ensures Run(out, ops).None?
    decreases |ops|
  {
    if i < |ops| {
      var n := |ops| - 1;
      assert ops[..n][..i] == ops[..i];
      RunFails(out, ops[..n], i);
    } else {
      assert ops[..i] == ops;
    }
  }

  method ApplyAll(ops: seq<Op>, out: Emitter) returns (ok: bool)
    requires out.Settled() && forall i :: 0 <= i < |ops| ==> Growth(ops[i]) <= OUTPUT_CHUNK
    modifies out
    ensures out.Settled() && ok == Run(old(out.Decoded()), ops).Some?
    ensures ok ==> out.Decoded() == Run(old(out.Decoded()), ops).value
  {
    hide Step, Emitter.Settled, Emitter.Valid, Emitter.Decoded;
    DecodedDefined(out);
    ghost var start := out.Decoded();
    assert ops[..0] == [];
    for i := 0 to |ops|
      invariant out.Settled() && out.historyLen <= |out.buffer| && Run(start, ops[..i]) == Some(out.Decoded())
    {
      RunStep(start, ops, i);
      ok := Apply(ops[i], out);
      DecodedDefined(out);
      if !ok {
        RunFails(start, ops, i + 1);
        return;
      }
    }
    assert ops[..|ops|] == ops;
    ok := true;
  }

  lemma DecodedDefined(out: Emitter)
    requires out.Settled()
    ensures out.historyLen <= |out.buffer| && out.memberDecoded == |out.Decoded()|
  {
  }

  datatype Report = Report(output: seq<Byte>, hashed: seq<Byte>, blocks: seq<Info>, end: nat)

  /** What a decoder reports is what the serial specification says. */
  ghost predicate Reports(r: Option<Report>, o: Outcome)
  {
    match o
    case Failed => r == None
    case Finished(out, infos, end) => r.Some? && r.value.output == out && r.value.hashed == out && r.value.blocks == infos && r.value.end == end
  }

  method DecompressSerial(data: seq<Byte>, start: nat, decodedBase: nat, ghost parse: Parser, ghost n: nat) returns (r: Option<Report>)
    requires Proper(parse, n) && Bounded(parse) && parse == DeflateBlocks.ParserOf(data)
    ensures Reports(r, Decode(parse, n, start, [], decodedBase, []))
  {
    hide Run, Emitter.Settled, Emitter.Valid, Emitter.Decoded, DeflateBlocks.ParseBlock, DeflateBlocks.ParserOf;
    var out := new Emitter(decodedBase);
    var bit, blocks: seq<Info> := start, [];
    DecodedDefined(out);
    while true
      invariant out.Settled() && out.historyLen <= |out.buffer|
      invariant Decode(parse, n, start, [], decodedBase, []) == Decode(parse, n, bit, out.Decoded(), decodedBase, blocks)
      decreases n - bit
    {
      DecodedDefined(out);
      var decodedStart := decodedBase + out.memberDecoded;
      var block := InflateReader.ReadBlock(data, bit);
      ParserAt(data, bit);
      var ok := ApplyAll(block.ops, out);
      if !ok {
        return None;
      }
      match block.ending
      case Broken => return None;
      case Complete(kind, final, end) =>
        DecodedDefined(out);
        blocks := blocks + [Info(kind, final, bit, end, decodedStart, decodedBase + out.memberDecoded - decodedStart)];
        bit := end;
        if final {
          out.Finish();
          return Some(Report(out.output, out.hashed, blocks, bit));
        }
    }
  }
}
