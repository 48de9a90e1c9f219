/** What DEFLATE blocks do to an output with a 32 KiB window, whatever bits encode them. */
module Inflate {
  import opened Bytes
  import opened History
  import opened Options

  const WINDOW: nat := 32768

  /** One output operation of a block. */
  datatype Op = Literal(byte: Byte) | Raw(bytes: seq<Byte>) | Copy(distance: nat, length: nat)

  function Growth(op: Op): nat
  {
    match op
    case Literal(_) => 1
    case Raw(bytes) => |bytes|
    case Copy(_, length) => length
  }

  function Min(a: nat, b: nat): nat { if a < b then a else b }

  /** A copy may not reach before the output or beyond the window. */
  function Step(out: seq<nat>, op: Op): (r: Option<seq<nat>>)
    ensures r.Some? ==> |r.value| == |out| + Growth(op) && out <= r.value
  {
    match op
    case Literal(b) => Some(out + [b])
    case Raw(bytes) => Some(out + bytes)
    case Copy(d, l) => if d == 0 || d > Min(|out|, WINDOW) then None else Some(Extend(out, d, l))
  }

  /** As `Step`, within a limit on the length of the output. */
  function StepCapped(out: seq<nat>, op: Op, cap: nat): (r: Option<seq<nat>>)
    ensures r.Some? ==> Step(out, op) == r && |r.value| <= cap
  {
    if |out| + Growth(op) > cap then None else Step(out, op)
  }

  function Run(out: seq<nat>, ops: seq<Op>): (r: Option<seq<nat>>)
    ensures r.Some? ==> out <= r.value
  {
    if ops == [] then Some(out) else
      var before := Run(out, ops[..|ops| - 1]);
      if before.None? then None else Step(before.value, ops[|ops| - 1])
  }

  function RunCapped(out: seq<nat>, ops: seq<Op>, cap: nat): (r: Option<seq<nat>>)
    ensures r.Some? ==> Run(out, ops) == r
  {
    if ops == [] then Some(out) else
      var before := RunCapped(out, ops[..|ops| - 1], cap);
      if before.None? then None else StepCapped(before.value, ops[|ops| - 1], cap)
  }

  // ----- Blocks -----

  datatype BlockKind = StoredBlock | FixedHuffman | DynamicHuffman

  /** How a block's bits end: properly at a bit position, or in an error after the operations before it. */
  datatype Ending = Complete(kind: BlockKind, final: bool, end: nat) | Broken

  datatype BlockParse = BlockParse(ops: seq<Op>, ending: Ending)

  /** A deterministic block parser: what the bits from a position on mean. */
  type Parser = nat -> BlockParse

  /** Blocks consume bits of an input of `n` bits and copies are not empty. */
  ghost predicate Proper(parse: Parser, n: nat)
  {
    forall at: nat ::
      && (parse(at).ending.Complete? ==> at < parse(at).ending.end <= n)
      && forall i :: 0 <= i < |parse(at).ops| && parse(at).ops[i].Copy? ==> parse(at).ops[i].length >= 1
  }

  /** A block as reported: its bits and the bytes it decodes to. */
  datatype Info = Info(kind: BlockKind, final: bool, start: nat, end: nat, decodedStart: nat, decodedLen: nat)

  datatype Outcome = Finished(out: seq<nat>, infos: seq<Info>, end: nat) | Failed

  /** The serial decoder: block after block into one output that `base` decoded bytes precede. */
  ghost function Decode(parse: Parser, n: nat, at: nat, out: seq<nat>, base: nat, infos: seq<Info>): Outcome
    requires Proper(parse, n)
    decreases n - at
  {
    var b := parse(at);
    var r := Run(out, b.ops);
    if r.None? || b.ending.Broken? then Failed else
      var info := Info(b.ending.kind, b.ending.final, at, b.ending.end, base + |out|, |r.value| - |out|);
      if b.ending.final then Finished(r.value, infos + [info], b.ending.end)
      else Decode(parse, n, b.ending.end, r.value, base, infos + [info])
  }

  // ----- Unknown history -----

  /** Stand-ins for the window before an unknown position. */
  function Markers(): (m: seq<nat>)
    ensures |m| == WINDOW && forall i :: 0 <= i < WINDOW ==> m[i] == WINDOW + i
  {
    seq(WINDOW, i => WINDOW + i)
  }

  predicate IsSymbol(sym: nat)
  {
    sym < 256 || WINDOW <= sym < 2 * WINDOW
  }

  /** A byte, or a marker for a byte that the history before has. */
  predicate Known(history: seq<nat>, sym: nat)
  {
    sym < 256 || 2 * WINDOW <= sym + |history|
  }

  function Meaning(history: seq<nat>, sym: nat): nat
    requires IsSymbol(sym) && Known(history, sym)
  {
    if sym < 256 then sym else history[|history| + sym - 2 * WINDOW]
  }

  /** Output `x` after markers stands, place by place, for output `y` after `history`. */
  ghost predicate StandsFor(history: seq<nat>, x: seq<nat>, y: seq<nat>)
  {
    && |x| >= WINDOW && |x| - WINDOW == |y| - |history|
    && forall j :: 0 <= j < |x| ==> PlaceStandsFor(history, x, y, j)
  }

  ghost predicate PlaceStandsFor(history: seq<nat>, x: seq<nat>, y: seq<nat>, j: nat)
    requires j < |x| && |x| - WINDOW == |y| - |history|
  {
    IsSymbol(x[j]) && if j + |history| < WINDOW then !Known(history, x[j])
                      else Known(history, x[j]) && y[j + |history| - WINDOW] == Meaning(history, x[j])
  }

  /** Some output symbol refers to history that is not there. */
  ghost predicate Dangling(history: seq<nat>, x: seq<nat>)
  {
    exists j :: WINDOW <= j < |x| && !Known(history, x[j])
  }

  lemma MarkersStandFor(history: seq<nat>)
    requires forall i :: 0 <= i < |history| ==> history[i] < 256
    ensures StandsFor(history, Markers(), history)
  {
    forall j | 0 <= j < WINDOW ensures PlaceStandsFor(history, Markers(), history, j) { }
  }

  lemma PushStandsFor(history: seq<nat>, x: seq<nat>, y: seq<nat>, a: nat, b: nat)
    requires StandsFor(history, x, y) && IsSymbol(a) && Known(history, a) && b == Meaning(history, a)
    ensures StandsFor(history, x + [a], y + [b])
  {
    forall j | 0 <= j < |x| + 1 ensures PlaceStandsFor(history, x + [a], y + [b], j) {
      if j < |x| {
        assert PlaceStandsFor(history, x, y, j);
      }
    }
  }

  lemma {:induction false} RawStandsFor(history: seq<nat>, x: seq<nat>, y: seq<nat>, bytes: seq<Byte>)
    requires StandsFor(history, x, y)
    ensures StandsFor(history, x + bytes, y + bytes)
  {
    if bytes == [] {
      assert x + bytes == x && y + bytes == y;
    } else {
      var n := |bytes| - 1;
      RawStandsFor(history, x, y, bytes[..n]);
      PushStandsFor(history, x + bytes[..n], y + bytes[..n], bytes[n], bytes[n]);
      assert x + bytes[..n] + [bytes[n]] == x + bytes && y + bytes[..n] + [bytes[n]] == y + bytes;
    }
  }

  lemma {:induction false} CopyStandsFor(history: seq<nat>, x: seq<nat>, y: seq<nat>, d: nat, l: nat)
    requires StandsFor(history, x, y) && 1 <= d <= |x| && d <= |y|
    ensures StandsFor(history, Extend(x, d, l), Extend(y, d, l))
    decreases l
  {
    hide StandsFor;
    if l > 0 {
      SourceStandsFor(history, x, y, d);
      PushStandsFor(history, x, y, x[|x| - d], y[|y| - d]);
      CopyStandsFor(history, x + [x[|x| - d]], y + [y[|y| - d]], d, l - 1);
    }
  }

  lemma SourceStandsFor(history: seq<nat>, x: seq<nat>, y: seq<nat>, d: nat)
    requires StandsFor(history, x, y) && 1 <= d <= |x| && d <= |y|
    ensures IsSymbol(x[|x| - d]) && Known(history, x[|x| - d]) && y[|y| - d] == Meaning(history, x[|x| - d])
  {
    assert PlaceStandsFor(history, x, y, |x| - d);
  }

  /** A copy from before the available history leaves a dangling marker. */
  lemma CopyDangles(history: seq<nat>, x: seq<nat>, y: seq<nat>, d: nat, l: nat)
    requires StandsFor(history, x, y) && |y| < d <= WINDOW && l >= 1
    ensures d <= |x| && Dangling(history, Extend(x, d, l))
  {
    assert PlaceStandsFor(history, x, y, |x| - d);
    ExtendContinues(x, d, l);
    var r := Extend(x, d, l);
    assert r[|x|] == r[|x| - d] == x[|x| - d];
  }

  lemma DanglesOn(history: seq<nat>, x: seq<nat>, r: seq<nat>)
    requires Dangling(history, x) && x <= r
    ensures Dangling(history, r)
  {
    var j :| WINDOW <= j < |x| && !Known(history, x[j]);
    assert r[j] == x[j];
  }

  lemma NotDangling(history: seq<nat>, x: seq<nat>, y: seq<nat>)
    requires StandsFor(history, x, y)
    ensures !Dangling(history, x)
  {
    forall j | WINDOW <= j < |x| ensures Known(history, x[j]) {
      assert PlaceStandsFor(history, x, y, j);
    }
  }

  lemma StepSimulates(history: seq<nat>, x: seq<nat>, y: seq<nat>, op: Op)
    requires StandsFor(history, x, y) && (op.Copy? ==> op.length >= 1) && Step(x, op).Some?
    ensures if Step(y, op).Some? then StandsFor(history, Step(x, op).value, Step(y, op).value) else Dangling(history, Step(x, op).value)
  {
    hide StandsFor, Dangling;
    LongEnough(history, x, y);
    match op
    case Literal(b) => PushStandsFor(history, x, y, b, b);
    case Raw(bytes) => RawStandsFor(history, x, y, bytes);
    case Copy(d, l) =>
      if d <= |y| {
        CopyStandsFor(history, x, y, d, l);
      } else {
        CopyDangles(history, x, y, d, l);
      }
  }

  lemma LongEnough(history: seq<nat>, x: seq<nat>, y: seq<nat>)
    requires StandsFor(history, x, y)
    ensures |x| >= WINDOW
  {
  }

  /** With unknown history no operation fails that would succeed with the true one. */
  lemma StepPossible(history: seq<nat>, x: seq<nat>, y: seq<nat>, op: Op)
    requires StandsFor(history, x, y) && Step(y, op).Some?
    ensures Step(x, op).Some?
  {
  }

  /** Running operations after markers, then reading the markers, is running them after the true history. */
  lemma {:induction false} RunSimulates(history: seq<nat>, x: seq<nat>, y: seq<nat>, ops: seq<Op>)
    requires StandsFor(history, x, y) && (forall i :: 0 <= i < |ops| && ops[i].Copy? ==> ops[i].length >= 1) && Run(x, ops).Some?
    ensures if Run(y, ops).Some? then StandsFor(history, Run(x, ops).value, Run(y, ops).value) else Dangling(history, Run(x, ops).value)
  {
    hide StandsFor, Dangling, Step;
    if ops != [] {
      var n := |ops| - 1;
      RunSimulates(history, x, y, ops[..n]);
      if Run(y, ops[..n]).Some? {
        StepSimulates(history, Run(x, ops[..n]).value, Run(y, ops[..n]).value, ops[n]);
      } else {
        DanglesOn(history, Run(x, ops[..n]).value, Run(x, ops).value);
      }
    }
  }

  lemma {:induction false} RunPossible(history: seq<nat>, x: seq<nat>, y: seq<nat>, ops: seq<Op>)
    requires StandsFor(history, x, y) && (forall i :: 0 <= i < |ops| && ops[i].Copy? ==> ops[i].length >= 1) && Run(y, ops).Some?
    ensures Run(x, ops).Some?
  {
    hide StandsFor, Dangling, Step;
    if ops != [] {
      var n := |ops| - 1;
      RunPossible(history, x, y, ops[..n]);
      RunSimulates(history, x, y, ops[..n]);
      StepPossible(history, Run(x, ops[..n]).value, Run(y, ops[..n]).value, ops[n]);
    }
  }

  /** The true history lets operations succeed exactly when they succeed after markers and leave none that it cannot resolve. */
  lemma RunExactly(history: seq<nat>, x: seq<nat>, y: seq<nat>, ops: seq<Op>)
    requires StandsFor(history, x, y) && (forall i :: 0 <= i < |ops| && ops[i].Copy? ==> ops[i].length >= 1)
    ensures Run(y, ops).Some? <==> Run(x, ops).Some? && !Dangling(history, Run(x, ops).value)
    ensures Run(y, ops).Some? ==> StandsFor(history, Run(x, ops).value, Run(y, ops).value)
  {
    hide StandsFor, Run;
    if Run(x, ops).Some? {
      RunSimulates(history, x, y, ops);
      if Run(y, ops).Some? {
        NoneDangle(history, Run(x, ops).value, Run(y, ops).value);
      }
    } else if Run(y, ops).Some? {
      RunPossible(history, x, y, ops);
    }
  }

  lemma NoneDangle(history: seq<nat>, x: seq<nat>, y: seq<nat>)
    requires StandsFor(history, x, y)
    ensures !Dangling(history, x)
  {
    forall j | WINDOW <= j < |x| ensures Known(history, x[j]) {
      assert PlaceStandsFor(history, x, y, j);
    }
  }
}
