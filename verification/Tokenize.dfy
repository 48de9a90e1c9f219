/** Splitting input into literals and matches, lazily at the higher levels. */
module Tokenize {
  import opened Bytes
  import opened History
  import opened Inflate
  import opened MatchFinder
  import Options

  const MAX_MATCH: nat := 258

  /** A literal, or a match within DEFLATE's ranges. */
  predicate IsToken(op: Op)
  {
    op.Literal? || (op.Copy? && 3 <= op.length <= 258 && 1 <= op.distance <= 32768)
  }

  ghost predicate AreTokens(ops: seq<Op>)
  {
    forall i :: 0 <= i < |ops| ==> IsToken(ops[i])
  }

  function ChainDepth(level: nat): (d: nat)
    requires 1 <= level <= 9
    ensures d >= 4
  {
    match level
    case 1 => 4
    case 2 => 8
    case 3 => 16
    case 4 => 32
    case 5 => 48
    case 6 => 64
    case 7 => 96
    case 8 => 192
    case _ => 384
  }

  /** A match between equal stretches reproduces the bytes that follow. */
  lemma MatchReproduces(bytes: seq<Byte>, position: nat, length: nat, distance: nat)
    requires position + length <= |bytes| && 1 <= distance <= position && Agree(bytes, position - distance, position, length)
    ensures Extend<nat>(bytes[..position], distance, length) == bytes[..position + length]
  {
    hide Extend;
    var out: seq<nat>, r: seq<nat> := bytes[..position], bytes[..position + length];
    assert r[..position] == out;
    forall i {:trigger r[i]} | position <= i < position + length ensures r[i] == r[i - distance] {
      var k := i - position;
      assert bytes[position..position + length][k] == bytes[position - distance..position - distance + length][k];
    }
    ContinuesIsExtend(out, distance, r);
  }

  lemma PushOp(out: seq<nat>, ops: seq<Op>, op: Op)
    ensures Run(out, ops + [op]) == if Run(out, ops).None? then Run(out, ops) else Step(Run(out, ops).value, op)
  {
    assert (ops + [op])[..|ops|] == ops;
  }

  /** Appending a literal for the byte at `position`. */
  lemma PushLiteral(bytes: seq<Byte>, prefix: nat, tokens: seq<Op>, position: nat)
    requires prefix <= position < |bytes| && AreTokens(tokens) && Run(bytes[..prefix], tokens) == Options.Some(bytes[..position])
    ensures AreTokens(tokens + [Literal(bytes[position])])
    ensures Run(bytes[..prefix], tokens + [Literal(bytes[position])]) == Options.Some(bytes[..position + 1])
  {
    hide Run;
    PushOp(bytes[..prefix], tokens, Literal(bytes[position]));
    assert bytes[..position] + [bytes[position]] == bytes[..position + 1];
  }

  /** Appending a match found at `position`. */
  lemma PushMatch(bytes: seq<Byte>, prefix: nat, tokens: seq<Op>, position: nat, length: nat, distance: nat)
    requires prefix <= position && position + length <= |bytes| && 3 <= length <= MAX_MATCH && 1 <= distance <= position && distance <= WINDOW
    requires Agree(bytes, position - distance, position, length)
    requires AreTokens(tokens) && Run(bytes[..prefix], tokens) == Options.Some(bytes[..position])
    ensures AreTokens(tokens + [Copy(distance, length)])
    ensures Run(bytes[..prefix], tokens + [Copy(distance, length)]) == Options.Some(bytes[..position + length])
  {
    hide Run, Extend, Agree;
    PushOp(bytes[..prefix], tokens, Copy(distance, length));
    MatchReproduces(bytes, position, length, distance);
  }

  /** The tokens reproduce the input after its prefix, and every match stays within DEFLATE's ranges. */
  method Tokens(bytes: seq<Byte>, prefix: nat, level: nat) returns (tokens: seq<Op>)
    requires prefix <= |bytes| < NONE && 1 <= level <= 9
    ensures AreTokens(tokens) && Run(bytes[..prefix], tokens) == Options.Some(bytes)
  {
    hide Run, Agree, HashChain.Valid, AreTokens;
    tokens := [];
    NoTokens(bytes[..prefix]);
    var maxChain := ChainDepth(level);
    var finder := new HashChain(bytes, WINDOW, maxChain);
    var dictionaryStart := if prefix >= WINDOW then prefix - WINDOW else 0;
    for p := dictionaryStart to prefix
      invariant finder.Valid() && finder.bound <= p && finder.bytes == bytes && finder.window == WINDOW
      invariant fresh(finder) && fresh(finder.head) && fresh(finder.previous)
    {
      finder.Insert(p);
    }
    var position := prefix;
    while position < |bytes|
      invariant prefix <= position <= |bytes| && finder.Valid() && finder.bound <= position && finder.bytes == bytes && finder.window == WINDOW
      invariant fresh(finder) && fresh(finder.head) && fresh(finder.previous)
      invariant AreTokens(tokens) && Run(bytes[..prefix], tokens) == Options.Some(bytes[..position])
    {
      var length, distance := finder.BestMatch(position, MAX_MATCH, 3, maxChain);
      finder.Insert(position);
      if length == 0 {
        PushLiteral(bytes, prefix, tokens, position);
        tokens := tokens + [Literal(bytes[position])];
        position := position + 1;
      } else {
        if level >= 4 && position + 1 < |bytes| {
          var nextLength, _ := finder.BestMatch(position + 1, MAX_MATCH, 3, maxChain / 2);
          if nextLength > length + 1 {
            PushLiteral(bytes, prefix, tokens, position);
            tokens := tokens + [Literal(bytes[position])];
            position := position + 1;
            continue;
          }
        }
        PushMatch(bytes, prefix, tokens, position, length, distance);
        tokens := tokens + [Copy(distance, length)];
        var end := position + length;
        position := position + 1;
        while position < end
          invariant position <= end && finder.Valid() && finder.bound <= position && finder.bytes == bytes && finder.window == WINDOW
          invariant fresh(finder) && fresh(finder.head) && fresh(finder.previous)
        {
          finder.Insert(position);
          position := position + 1;
        }
      }
    }
    assert bytes[..|bytes|] == bytes;
  }

  lemma NoTokens(out: seq<nat>)
    ensures Run(out, []) == Options.Some(out) && AreTokens([])
  {
  }

  /** Tokens run the same after a longer output with the same tail. */
  lemma {:induction false} RunAfter(before: seq<nat>, out: seq<nat>, ops: seq<Op>)
    requires Run(out, ops).Some?
    ensures Run(before + out, ops) == Options.Some(before + Run(out, ops).value)
  {
    if ops == [] {
    } else {
      var n := |ops| - 1;
      RunAfter(before, out, ops[..n]);
      StepAfter(before, Run(out, ops[..n]).value, ops[n]);
    }
  }

  lemma StepAfter(before: seq<nat>, out: seq<nat>, op: Op)
    requires Step(out, op).Some?
    ensures Step(before + out, op) == Options.Some(before + Step(out, op).value)
  {
    hide Extend;
    match op
    case Literal(b) => assert before + out + [b] == before + (out + [b]);
    case Raw(bytes) => assert before + out + bytes == before + (out + bytes);
    case Copy(d, l) => ExtendSuffix(before, out, d, l);
  }
}
