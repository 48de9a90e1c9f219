/** Which bits are DEFLATE blocks, and of which data, by RFC 1951: in both directions. */
module DeflateFormat {
  import opened Bytes
  import opened Seqs
  import opened Sums
  import opened BitStream
  import opened LsbStream
  import opened Canonical
  import opened History
  import opened InflateTable
  import opened Inflate
  import opened DeflateBlocks
  import opened DeflateCodes
  import opened DeflateSegments
  import opened DynamicHeader
  import opened RunCodedLengths
  import FixedCode
  import ParallelInflate
  import Options

  // ----- Operations and the data they tell -----

  /** The data from `at` on begins with what the operation says; a match repeats, byte by byte, what stands `distance` before. */
  ghost predicate OpTells(op: Op, at: nat, text: seq<nat>)
    requires at + Growth(op) <= |text|
  {
    match op
    case Literal(b) => text[at] == b
    case Raw(bytes) => text[at..at + |bytes|] == bytes
    case Copy(d, l) => 1 <= d <= at && d <= 32768 && Repeats(text, at, at + l, d)
  }

  /** Everything from `from` to `end` is what stands `distance` before it. */
  ghost predicate Repeats(text: seq<nat>, from: nat, end: nat, distance: nat)
    requires distance <= from <= end <= |text|
  {
    forall i {:trigger text[i]} :: from <= i < end ==> text[i] == text[i - distance]
  }

  /** The operations, one after another, tell the data from `from` to `end`. */
  ghost predicate OpsTell(ops: seq<Op>, from: nat, end: nat, text: seq<nat>)
    requires end <= |text|
  {
    if ops == [] then from == end else
      var op := ops[|ops| - 1];
      from + Growth(op) <= end && OpTells(op, end - Growth(op), text) && OpsTell(ops[..|ops| - 1], from, end - Growth(op), text)
  }

  lemma StepTells(op: Op, from: nat, end: nat, text: seq<nat>)
    requires end <= |text| && from + Growth(op) == end
    ensures Step(text[..from], op) == Options.Some(text[..end]) <==> OpTells(op, from, text)
  {
    hide Step, OpTells;
    match op
    case Literal(b) => LiteralTells(b, from, end, text);
    case Raw(bytes) => RawTells(bytes, from, end, text);
    case Copy(d, l) => MatchTells(d, l, from, end, text);
  }

  lemma LiteralTells(b: Byte, from: nat, end: nat, text: seq<nat>)
    requires end <= |text| && from + 1 == end
    ensures Step(text[..from], Literal(b)) == Options.Some(text[..end]) <==> OpTells(Literal(b), from, text)
  {
    assert text[..end] == text[..from] + [text[from]];
    SameEnd(text[..from], [b as nat], [text[from]]);
  }

  lemma RawTells(bytes: seq<Byte>, from: nat, end: nat, text: seq<nat>)
    requires end <= |text| && from + |bytes| == end
    ensures Step(text[..from], Raw(bytes)) == Options.Some(text[..end]) <==> OpTells(Raw(bytes), from, text)
  {
    assert text[..end] == text[..from] + text[from..end];
    SameEnd(text[..from], bytes, text[from..end]);
  }

  lemma MatchTells(d: nat, l: nat, from: nat, end: nat, text: seq<nat>)
    requires end <= |text| && from + l == end
    ensures Step(text[..from], Copy(d, l)) == Options.Some(text[..end]) <==> OpTells(Copy(d, l), from, text)
  {
    hide Extend, Repeats;
    if 1 <= d <= from && d <= 32768 {
      CopyTells(d, l, from, end, text);
    }
  }

  lemma SameEnd(a: seq<nat>, b: seq<nat>, c: seq<nat>)
    ensures a + b == a + c <==> b == c
  {
    if a + b == a + c {
      assert (a + b)[|a|..] == b && (a + c)[|a|..] == c;
    }
  }

  lemma CopyTells(d: nat, l: nat, from: nat, end: nat, text: seq<nat>)
    requires 1 <= d <= from && from + l == end <= |text|
    ensures Extend<nat>(text[..from], d, l) == text[..end] <==> Repeats(text, from, end, d)
  {
    hide Extend;
    var out, r := text[..from], text[..end];
    if Repeats(text, from, end, d) {
      assert r[..from] == out;
      forall i {:trigger r[i]} | from <= i < end ensures r[i] == r[i - d] {
        assert text[i] == text[i - d];
      }
      ContinuesIsExtend(out, d, r);
    }
    if Extend<nat>(out, d, l) == r {
      ExtendContinues(out, d, l);
      forall i {:trigger text[i]} | from <= i < end ensures text[i] == text[i - d] {
        assert r[i] == r[i - d];
      }
    }
  }

  /** Running a block's operations gives exactly the data they tell. */
  lemma {:induction false} RunTells(ops: seq<Op>, from: nat, end: nat, text: seq<nat>)
    requires from <= end <= |text|
    ensures Run(text[..from], ops) == Options.Some(text[..end]) <==> OpsTell(ops, from, end, text)
    decreases |ops|
  {
    hide Step, OpTells;
    if ops == [] {
      assert |text[..from]| == from && |text[..end]| == end;
    } else {
      var n := |ops| - 1;
      var op, before := ops[n], Run(text[..from], ops[..n]);
      if from + Growth(op) <= end {
        var mid := end - Growth(op);
        RunTells(ops[..n], from, mid, text);
        StepTells(op, mid, end, text);
        if Run(text[..from], ops) == Options.Some(text[..end]) {
          LastStep(before, op, text, mid, end);
        }
      }
    }
  }

  lemma LastStep(before: Options.Option<seq<nat>>, op: Op, text: seq<nat>, mid: nat, end: nat)
    requires end <= |text| && mid + Growth(op) == end && before.Some? && Step(before.value, op) == Options.Some(text[..end])
    ensures before.value == text[..mid]
  {
    hide Step;
    assert text[..end][..mid] == text[..mid];
  }

  // ----- Symbols -----

  /** A literal, or a length symbol and a distance symbol with their extra bits. */
  datatype Token = Plain(byte: Byte) | Match(length: nat, lengthExtra: nat, distance: nat, distanceExtra: nat)

  predicate Sensible(t: Token)
  {
    t.Match? ==> t.length < LENGTHS && t.distance < DISTANCES && t.lengthExtra < Pow2(LengthExtra(t.length)) && t.distanceExtra < Pow2(DistanceExtra(t.distance))
  }

  function OpOf(t: Token): Op
    requires Sensible(t)
  {
    match t
    case Plain(byte) => Literal(byte)
    case Match(l, le, d, de) => Copy(DistanceBase(d) + de, LengthBase(l) + le)
  }

  predicate Written(t: Token, lit: seq<nat>, dist: seq<nat>)
  {
    match t
    case Plain(byte) => Coded(lit, byte)
    case Match(l, _, d, _) => Coded(lit, 257 + l) && Coded(dist, d)
  }

  function WrittenBits(t: Token, lit: seq<nat>, dist: seq<nat>): seq<bool>
    requires Sensible(t)
  {
    match t
    case Plain(byte) => Spelled(lit, byte)
    case Match(l, le, d, de) => Spelled(lit, 257 + l) + (LsbBits(le, LengthExtra(l)) + (Spelled(dist, d) + LsbBits(de, DistanceExtra(d))))
  }

  /** Tokens and the end-of-block symbol stand from `at` to `end`, and `ops` are their operations. */
  ghost predicate Tokens(s: seq<bool>, at: nat, end: nat, lit: seq<nat>, dist: seq<nat>, tokens: seq<Token>, ops: seq<Op>)
    decreases |tokens|
  {
    if tokens == [] then ops == [] && Coded(lit, 256) && Has(s, at, Spelled(lit, 256)) && end == at + |Spelled(lit, 256)|
    else
      && ops != [] && Sensible(tokens[0]) && Written(tokens[0], lit, dist) && ops[0] == OpOf(tokens[0])
      && Has(s, at, WrittenBits(tokens[0], lit, dist)) && Tokens(s, at + |WrittenBits(tokens[0], lit, dist)|, end, lit, dist, tokens[1..], ops[1..])
  }

  lemma MatchBits(s: seq<bool>, at: nat, t: Token, lit: seq<nat>, dist: seq<nat>)
    requires t.Match? && Sensible(t) && Written(t, lit, dist) && Codes(lit) && Codes(dist) && Has(s, at, WrittenBits(t, lit, dist))
    ensures var symbol := 257 + t.length;
      NextSym(lit, s, at) == Got(symbol, at + |Spelled(lit, symbol)|)
      && ParseMatch(s, at + |Spelled(lit, symbol)|, symbol, dist) == Got(OpOf(t), at + |WrittenBits(t, lit, dist)|)
  {
    hide Spelled, Codes, Coded, NextSym, LsbBits, Has, ParseMatch, OpOf, Sensible, LengthExtra, DistanceExtra;
    KnownSymbols(t);
    var a, b := Spelled(lit, 257 + t.length), LsbBits(t.lengthExtra, LengthExtra(t.length));
    var c, e := Spelled(dist, t.distance), LsbBits(t.distanceExtra, DistanceExtra(t.distance));
    assert WrittenBits(t, lit, dist) == a + (b + (c + e));
    hide WrittenBits;
    Four(s, at, a, b, c, e);
    MatchOf(s, at, t, lit, dist, a, b, c, e);
  }

  lemma MatchOf(s: seq<bool>, at: nat, t: Token, lit: seq<nat>, dist: seq<nat>, a: seq<bool>, b: seq<bool>, c: seq<bool>, e: seq<bool>)
    requires t.Match? && Sensible(t) && Codes(lit) && Codes(dist) && Coded(lit, 257 + t.length) && Coded(dist, t.distance)
    requires a == Spelled(lit, 257 + t.length) && b == LsbBits(t.lengthExtra, LengthExtra(t.length))
    requires c == Spelled(dist, t.distance) && e == LsbBits(t.distanceExtra, DistanceExtra(t.distance))
    requires Has(s, at, a) && Has(s, at + |a|, b) && Has(s, at + |a| + |b|, c) && Has(s, at + |a| + |b| + |c|, e)
    ensures NextSym(lit, s, at) == Got(257 + t.length, at + |a|)
    ensures t.length < LENGTHS && ParseMatch(s, at + |a|, 257 + t.length, dist) == Got(OpOf(t), at + |a| + |b| + |c| + |e|)
  {
    hide *;
    KnownSymbols(t);
    WordBack(lit, s, at, 257 + t.length);
    LengthBits(s, at + |a|, t, b);
    DistanceBits(s, at + |a| + |b|, t, dist, c, e);
    MatchParsed(s, at + |a|, t, dist, at + |a| + |b|, at + |a| + |b| + |c|, at + |a| + |b| + |c| + |e|);
  }

  lemma KnownSymbols(t: Token)
    requires t.Match? && Sensible(t)
    ensures t.length < LENGTHS && t.distance < DISTANCES
  {
  }

  lemma LengthBits(s: seq<bool>, at: nat, t: Token, b: seq<bool>)
    requires t.Match? && Sensible(t) && b == LsbBits(t.lengthExtra, LengthExtra(t.length)) && Has(s, at, b)
    ensures t.length < LENGTHS && ReadField(s, at, LengthExtra(t.length)) == Got(t.lengthExtra, at + |b|)
  {
    hide LengthExtra, DistanceExtra, Pow2, ReadField, LsbBits, Has;
    FieldBack(s, at, t.lengthExtra, LengthExtra(t.length));
  }

  lemma DistanceBits(s: seq<bool>, at: nat, t: Token, dist: seq<nat>, c: seq<bool>, e: seq<bool>)
    requires t.Match? && Sensible(t) && Codes(dist) && Coded(dist, t.distance)
    requires c == Spelled(dist, t.distance) && e == LsbBits(t.distanceExtra, DistanceExtra(t.distance)) && Has(s, at, c) && Has(s, at + |c|, e)
    ensures t.distance < DISTANCES && NextSym(dist, s, at) == Got(t.distance, at + |c|)
    ensures ReadField(s, at + |c|, DistanceExtra(t.distance)) == Got(t.distanceExtra, at + |c| + |e|)
  {
    hide Spelled, Codes, LengthExtra, DistanceExtra, Pow2, NextSym, ReadField, LsbBits, Has;
    WordBack(dist, s, at, t.distance);
    FieldBack(s, at + |c|, t.distanceExtra, DistanceExtra(t.distance));
  }

  lemma Four(s: seq<bool>, at: nat, a: seq<bool>, b: seq<bool>, c: seq<bool>, e: seq<bool>)
    requires Has(s, at, a + (b + (c + e)))
    ensures Has(s, at, a) && Has(s, at + |a|, b) && Has(s, at + |a| + |b|, c) && Has(s, at + |a| + |b| + |c|, e)
  {
    hide *;
    HasSplit(s, at, a, b + (c + e));
    HasSplit(s, at + |a|, b, c + e);
    HasSplit(s, at + |a| + |b|, c, e);
  }

  lemma MatchParsed(s: seq<bool>, at: nat, t: Token, dist: seq<nat>, afterLength: nat, afterSymbol: nat, end: nat)
    requires t.Match? && Sensible(t) && ReadField(s, at, LengthExtra(t.length)) == Got(t.lengthExtra, afterLength)
    requires NextSym(dist, s, afterLength) == Got(t.distance, afterSymbol) && ReadField(s, afterSymbol, DistanceExtra(t.distance)) == Got(t.distanceExtra, end)
    ensures ParseMatch(s, at, 257 + t.length, dist) == Got(OpOf(t), end)
  {
    hide LengthBase, LengthExtra, DistanceBase, DistanceExtra, Pow2, NextSym, ReadField;
  }

  lemma MatchOnly(s: seq<bool>, at: nat, lit: seq<nat>, dist: seq<nat>) returns (t: Token)
    requires NextSym(lit, s, at).Got? && 257 <= NextSym(lit, s, at).value <= 285
    requires ParseMatch(s, NextSym(lit, s, at).at, NextSym(lit, s, at).value, dist).Got?
    ensures t.Match? && Sensible(t) && Written(t, lit, dist) && Has(s, at, WrittenBits(t, lit, dist)) && 257 + t.length == NextSym(lit, s, at).value
    ensures ParseMatch(s, NextSym(lit, s, at).at, NextSym(lit, s, at).value, dist) == Got(OpOf(t), at + |WrittenBits(t, lit, dist)|)
  {
    hide Word, LengthBase, LengthExtra, DistanceBase, DistanceExtra, Pow2, NextSym, ReadField, LsbBits, Has;
    var symbol := NextSym(lit, s, at);
    var l := symbol.value - 257;
    var lengthExtra := ReadField(s, symbol.at, LengthExtra(l));
    var d := NextSym(dist, s, lengthExtra.at);
    var distanceExtra := ReadField(s, d.at, DistanceExtra(d.value));
    t := Match(l, lengthExtra.value, d.value, distanceExtra.value);
    WordOnly(lit, s, at);
    FieldOnly(s, symbol.at, LengthExtra(l));
    WordOnly(dist, s, lengthExtra.at);
    FieldOnly(s, d.at, DistanceExtra(d.value));
    var a, b := Spelled(lit, 257 + l), LsbBits(lengthExtra.value, LengthExtra(l));
    var c, e := Spelled(dist, d.value), LsbBits(distanceExtra.value, DistanceExtra(d.value));
    HasBoth(s, lengthExtra.at, c, e);
    HasBoth(s, symbol.at, b, c + e);
    HasBoth(s, at, a, b + (c + e));
  }

  /** Reading a token appends its operation. */
  lemma TokenRead(s: seq<bool>, at: nat, t: Token, lit: seq<nat>, dist: seq<nat>, ops: seq<Op>)
    requires Sensible(t) && Written(t, lit, dist) && Codes(lit) && Codes(dist) && Has(s, at, WrittenBits(t, lit, dist))
    ensures at < at + |WrittenBits(t, lit, dist)| <= |s|
    ensures ParseOps(s, at, lit, dist, ops) == ParseOps(s, at + |WrittenBits(t, lit, dist)|, lit, dist, ops + [OpOf(t)])
  {
    hide Word, Codes, NextSym, ParseMatch, LengthBase, LengthExtra, DistanceBase, DistanceExtra, Pow2, Has;
    HasEnd(s, at, WrittenBits(t, lit, dist));
    match t
    case Plain(byte) => WordBack(lit, s, at, byte);
    case Match(_, _, _, _) =>
      WordBackAt(lit, s, at, 257 + t.length, WrittenBits(t, lit, dist)[|Spelled(lit, 257 + t.length)|..]) by {
        assert WrittenBits(t, lit, dist) == Spelled(lit, 257 + t.length) + WrittenBits(t, lit, dist)[|Spelled(lit, 257 + t.length)|..];
      }
      MatchBits(s, at, t, lit, dist);
  }

  lemma WordBackAt(ls: seq<nat>, s: seq<bool>, at: nat, symbol: nat, rest: seq<bool>)
    requires Codes(ls) && Coded(ls, symbol) && Has(s, at, Spelled(ls, symbol) + rest)
    ensures |Spelled(ls, symbol)| >= 1
  {
    hide Codes, Spelled, Has;
    HasSplit(s, at, Spelled(ls, symbol), rest);
    WordBack(ls, s, at, symbol);
  }

  /** Written tokens read back. */
  lemma {:induction false} TokensRead(s: seq<bool>, at: nat, end: nat, lit: seq<nat>, dist: seq<nat>, tokens: seq<Token>, ops: seq<Op>, before: seq<Op>)
    requires Codes(lit) && Codes(dist) && Tokens(s, at, end, lit, dist, tokens, ops)
    ensures at <= |s| && ParseOps(s, at, lit, dist, before) == OpsDone(before + ops, end)
    decreases |tokens|
  {
    hide Has, Codes, Written, WrittenBits, OpOf, Sensible, Spelled, ParseOps;
    if tokens == [] {
      EndBack(s, at, lit, dist, before) by { assert before + [] == before; }
      WordBack(lit, s, at, 256);
      assert before + ops == before;
    } else {
      var bits := WrittenBits(tokens[0], lit, dist);
      TokenRead(s, at, tokens[0], lit, dist, before);
      TokensRead(s, at + |bits|, end, lit, dist, tokens[1..], ops[1..], before + [ops[0]]);
      assert before + [ops[0]] + ops[1..] == before + ops;
    }
  }

  /** Whatever is read up to an end-of-block symbol is tokens. */
  lemma {:induction false} TokensOnly(s: seq<bool>, at: nat, lit: seq<nat>, dist: seq<nat>, before: seq<Op>) returns (tokens: seq<Token>)
    requires at <= |s| && Codes(lit) && Codes(dist) && ParseOps(s, at, lit, dist, before).OpsDone?
    ensures var r := ParseOps(s, at, lit, dist, before); before <= r.ops && Tokens(s, at, r.at, lit, dist, tokens, r.ops[|before|..])
    decreases |s| - at
  {
    hide Has, Codes, WrittenBits, OpOf, Sensible, NextSym, ParseMatch, Spelled;
    var symbol, r := NextSym(lit, s, at), ParseOps(s, at, lit, dist, before);
    WordOnly(lit, s, at);
    if symbol.value == 256 {
      tokens := [];
      assert r.ops[|before|..] == [];
    } else {
      var t: Token;
      if symbol.value < 256 {
        t := Plain(symbol.value);
        PlainBits(t, lit, dist);
      } else {
        t := MatchOnly(s, at, lit, dist);
      }
      var next := at + |WrittenBits(t, lit, dist)|;
      TokenRead(s, at, t, lit, dist, before);
      hide ParseOps;
      var rest := TokensOnly(s, next, lit, dist, before + [OpOf(t)]);
      tokens := [t] + rest;
      assert tokens[1..] == rest;
      assert r.ops[|before|..][1..] == r.ops[|before| + 1..];
    }
  }

  lemma PlainBits(t: Token, lit: seq<nat>, dist: seq<nat>)
    requires t.Plain?
    ensures Sensible(t) && WrittenBits(t, lit, dist) == Spelled(lit, t.byte)
  {
  }

  // ----- Stored blocks -----

  /** From the next byte on: the length, its complement and the bytes. */
  ghost predicate StoredForm(s: seq<bool>, at: nat, end: nat, chunk: seq<Byte>)
  {
    && |chunk| <= 65535
    && Has(s, Aligned(at), LsbBits(|chunk|, 16) + (LsbBits(65535 - |chunk|, 16) + Packed(chunk)))
    && end == Aligned(at) + 32 + 8 * |chunk|
  }

  lemma StoredRead(s: seq<bool>, at: nat, end: nat, chunk: seq<Byte>)
    requires StoredForm(s, at, end, chunk)
    ensures ParseStored(s, at) == Got(chunk, end)
  {
    hide Packed, LsbBits, ReadField, Has, BytesAt, Pow2, ParseStored;
    var n, p := |chunk|, Aligned(at);
    HasSplit(s, p, LsbBits(n, 16), LsbBits(65535 - n, 16) + Packed(chunk));
    HasSplit(s, p + 16, LsbBits(65535 - n, 16), Packed(chunk));
    Pow2Values();
    FieldBack(s, p, n, 16);
    FieldBack(s, p + 16, 65535 - n, 16);
    ChunkBack(s, p + 32, chunk);
    StoredParsed(s, at, p, n, chunk);
  }

  lemma {:induction false} BytesOnly(s: seq<bool>, at: nat, n: nat)
    requires at + 8 * n <= |s|
    ensures Has(s, at, Packed(BytesAt(s, at, n)))
    decreases n
  {
    hide LsbBits, LsbValue;
    var b := BytesAt(s, at, n);
    if n > 0 {
      var place := at + 8 * (n - 1);
      BytesOnly(s, at, n - 1);
      assert b[..n - 1] == BytesAt(s, at, n - 1);
      BytesAtIndex(s, at, n, n - 1);
      LsbOfValue(s[place..place + 8]);
      hide Packed, Has;
      HasPlace(s, place, 8);
      PackedLast(b);
      HasBoth(s, at, Packed(b[..n - 1]), s[place..place + 8]);
    }
  }

  lemma HasPlace(s: seq<bool>, at: nat, n: nat)
    requires at + n <= |s|
    ensures Has(s, at, s[at..at + n])
  {
  }

  lemma PackedLast(b: seq<Byte>)
    requires b != []
    ensures Packed(b) == Packed(b[..|b| - 1]) + LsbBits(b[|b| - 1], 8)
  {
  }

  lemma Three(s: seq<bool>, at: nat, a: seq<bool>, b: seq<bool>, c: seq<bool>)
    requires Has(s, at, a) && Has(s, at + |a|, b) && Has(s, at + |a| + |b|, c)
    ensures Has(s, at, a + (b + c))
  {
    hide *;
    HasBoth(s, at + |a|, b, c);
    HasBoth(s, at, a, b + c);
  }

  lemma StoredFields(s: seq<bool>, at: nat)
    requires ParseStored(s, at).Got?
    ensures var p := Aligned(at); var length, complement := ReadField(s, p, 16), ReadField(s, p + 16, 16);
      && length.Got? && complement.Got? && length.value <= 65535 && complement.value == 65535 - length.value && p + 32 + 8 * length.value <= |s|
      && ParseStored(s, at) == Got(BytesAt(s, p + 32, length.value), p + 32 + 8 * length.value)
  {
    hide ReadField, BytesAt;
    SixteenBits(s, Aligned(at));
  }

  lemma StoredOnly(s: seq<bool>, at: nat)
    requires ParseStored(s, at).Got?
    ensures StoredForm(s, at, ParseStored(s, at).at, ParseStored(s, at).value)
  {
    hide Packed, LsbBits, ReadField, Has, BytesAt, ParseStored, Pow2, Aligned;
    StoredFields(s, at);
    var p := Aligned(at);
    var n := ReadField(s, p, 16).value;
    FieldOnly(s, p, 16);
    FieldOnly(s, p + 16, 16);
    BytesOnly(s, p + 32, n);
    Three(s, p, LsbBits(n, 16), LsbBits(65535 - n, 16), Packed(BytesAt(s, p + 32, n)));
  }

  // ----- Blocks -----

  /** A block stands from `at` to `end`: its last-block bit, its kind, and what the kind asks for. */
  ghost predicate Block(s: seq<bool>, at: nat, end: nat, kind: BlockKind, final: bool, ops: seq<Op>)
  {
    match kind
    case StoredBlock => Has(s, at, LsbBits(if final then 1 else 0, 3)) && |ops| == 1 && ops[0].Raw? && StoredForm(s, at + 3, end, ops[0].bytes)
    case FixedHuffman => Has(s, at, LsbBits(if final then 3 else 2, 3)) && Fixed(s, at + 3, end, ops)
    case DynamicHuffman => Has(s, at, LsbBits(if final then 5 else 4, 3)) && AnyDynamic(s, at + 3, end, ops)
  }

  ghost predicate Fixed(s: seq<bool>, at: nat, end: nat, ops: seq<Op>)
  {
    exists tokens :: Tokens(s, at, end, FixedLiteral(), FixedDistance(), tokens, ops)
  }

  ghost predicate AnyDynamic(s: seq<bool>, at: nat, end: nat, ops: seq<Op>)
  {
    exists lit, dist, mid :: Dynamic(s, at, end, lit, dist, mid, ops)
  }

  ghost predicate Dynamic(s: seq<bool>, at: nat, end: nat, lit: seq<nat>, dist: seq<nat>, mid: nat, ops: seq<Op>)
  {
    && (exists pre, count: nat, items :: Header(s, at, mid, lit, dist, pre, count, items))
    && exists tokens :: Tokens(s, mid, end, lit, dist, tokens, ops)
  }

  lemma KindBits(s: seq<bool>, at: nat, kind: nat, final: bool)
    requires kind < 4 && Has(s, at, LsbBits(2 * kind + (if final then 1 else 0), 3))
    ensures ReadField(s, at, 1) == Got(if final then 1 else 0, at + 1) && ReadField(s, at + 1, 2) == Got(kind, at + 3) && at + 3 <= |s|
  {
    hide Has, ReadField, LsbBits;
    HeaderBack(s, at, 2 * kind + if final then 1 else 0);
    HasEnd(s, at, LsbBits(2 * kind + (if final then 1 else 0), 3));
  }

  lemma KindOnly(s: seq<bool>, at: nat)
    requires ReadField(s, at, 1).Got? && ReadField(s, at + 1, 2).Got?
    ensures var final, kind := ReadField(s, at, 1).value, ReadField(s, at + 1, 2).value;
      final < 2 && kind < 4 && Has(s, at, LsbBits(2 * kind + final, 3))
  {
    hide Has, ReadField, LsbBits;
    FieldOnly(s, at, 1);
    FieldOnly(s, at + 1, 2);
    SmallPowers();
    var final, kind := ReadField(s, at, 1).value, ReadField(s, at + 1, 2).value;
    HasBoth(s, at, LsbBits(final, 1), LsbBits(kind, 2));
    LsbJoin(final, 1, kind, 2);
    ShlIsTimes(kind, 1);
  }

  lemma BlockRead(s: seq<bool>, at: nat, end: nat, kind: BlockKind, final: bool, ops: seq<Op>)
    requires Block(s, at, end, kind, final, ops)
    ensures ParseBlock(s, at) == BlockParse(ops, Complete(kind, final, end))
  {
    hide Has, ReadField, LsbBits, ParseOps, ParseDynamic, ParseStored, Tokens, StoredForm, FixedLiteral, FixedDistance, Codes, Dynamic;
    match kind
    case StoredBlock =>
      KindBits(s, at, 0, final);
      StoredRead(s, at + 3, end, ops[0].bytes);
      assert ops == [Raw(ops[0].bytes)];
    case FixedHuffman =>
      KindBits(s, at, 1, final);
      FixedCode.FixedCodes();
      var tokens :| Tokens(s, at + 3, end, FixedLiteral(), FixedDistance(), tokens, ops);
      TokensRead(s, at + 3, end, FixedLiteral(), FixedDistance(), tokens, ops, []);
      assert [] + ops == ops;
    case DynamicHuffman =>
      KindBits(s, at, 2, final);
      var lit, dist, mid :| Dynamic(s, at + 3, end, lit, dist, mid, ops);
      DynamicRead(s, at + 3, end, lit, dist, mid, ops);
  }

  lemma DynamicRead(s: seq<bool>, at: nat, end: nat, lit: seq<nat>, dist: seq<nat>, mid: nat, ops: seq<Op>)
    requires at <= |s| && Dynamic(s, at, end, lit, dist, mid, ops)
    ensures ParseDynamic(s, at) == Got(CodePair(lit, dist), mid) && ParseOps(s, mid, lit, dist, []) == OpsDone(ops, end)
  {
    hide ParseDynamic, ParseOps, Header, Tokens, Codes;
    DynamicExactly(s, at, mid, lit, dist);
    var tokens :| Tokens(s, mid, end, lit, dist, tokens, ops);
    TokensRead(s, mid, end, lit, dist, tokens, ops, []);
    assert [] + ops == ops;
  }

  lemma DynamicFormOnly(s: seq<bool>, at: nat)
    requires at <= |s| && ParseDynamic(s, at).Got?
    requires ParseOps(s, ParseDynamic(s, at).at, ParseDynamic(s, at).value.lit, ParseDynamic(s, at).value.dist, []).OpsDone?
    ensures var c := ParseDynamic(s, at); var r := ParseOps(s, c.at, c.value.lit, c.value.dist, []);
      Dynamic(s, at, r.at, c.value.lit, c.value.dist, c.at, r.ops)
  {
    hide ParseDynamic, ParseOps, Header, Tokens, Codes;
    var c := ParseDynamic(s, at);
    var lit, dist := c.value.lit, c.value.dist;
    assert c == Got(CodePair(lit, dist), c.at);
    DynamicExactly(s, at, c.at, lit, dist);
    var tokens := TokensOnly(s, c.at, lit, dist, []);
    var ops := ParseOps(s, c.at, lit, dist, []).ops;
    assert ops[0..] == ops;
  }

  lemma FixedFormOnly(s: seq<bool>, at: nat) returns (tokens: seq<Token>)
    requires at <= |s| && ParseOps(s, at, FixedLiteral(), FixedDistance(), []).OpsDone?
    ensures var r := ParseOps(s, at, FixedLiteral(), FixedDistance(), []); Tokens(s, at, r.at, FixedLiteral(), FixedDistance(), tokens, r.ops)
  {
    hide ParseOps, Tokens, Codes, FixedLiteral, FixedDistance;
    FixedCode.FixedCodes();
    tokens := TokensOnly(s, at, FixedLiteral(), FixedDistance(), []);
    var ops := ParseOps(s, at, FixedLiteral(), FixedDistance(), []).ops;
    assert ops[0..] == ops;
  }

  /** Whatever is parsed to its end is a block. */
  lemma BlockOnly(s: seq<bool>, at: nat, end: nat, kind: BlockKind, final: bool, ops: seq<Op>)
    requires ParseBlock(s, at) == BlockParse(ops, Complete(kind, final, end))
    ensures Block(s, at, end, kind, final, ops)
  {
    hide Has, LsbBits, ParseOps, ParseDynamic, ParseStored, Tokens, StoredForm, FixedLiteral, FixedDistance, Codes, Dynamic, ReadField;
    KindOnly(s, at);
    var k := ReadField(s, at + 1, 2);
    if k.value == 0 {
      StoredOnly(s, k.at);
    } else if k.value == 1 {
      var tokens := FixedFormOnly(s, k.at);
    } else {
      DynamicFormOnly(s, k.at);
    }
  }

  /** The parser of blocks reads exactly the blocks there are: stored, fixed and dynamic ones. */
  lemma BlockExactly(s: seq<bool>, at: nat, end: nat, kind: BlockKind, final: bool, ops: seq<Op>)
    ensures ParseBlock(s, at) == BlockParse(ops, Complete(kind, final, end)) <==> Block(s, at, end, kind, final, ops)
  {
    hide ParseBlock, Block;
    if ParseBlock(s, at) == BlockParse(ops, Complete(kind, final, end)) {
      BlockOnly(s, at, end, kind, final, ops);
    }
    if Block(s, at, end, kind, final, ops) {
      BlockRead(s, at, end, kind, final, ops);
    }
  }

  // ----- Streams -----

  /** A block, and how much of the data is told when it ends. */
  datatype Formed = Formed(kind: BlockKind, end: nat, ops: seq<Op>, told: nat)

  /** Blocks follow one another from `at` to `end`, the last one and no other marked as last, and tell the data from `from` on. */
  ghost predicate Chain(s: seq<bool>, at: nat, end: nat, blocks: seq<Formed>, from: nat, text: seq<nat>)
    decreases |blocks|
  {
    && blocks != [] && Block(s, at, blocks[0].end, blocks[0].kind, |blocks| == 1, blocks[0].ops)
    && from <= blocks[0].told <= |text| && OpsTell(blocks[0].ops, from, blocks[0].told, text)
    && if |blocks| == 1 then blocks[0].end == end && blocks[0].told == |text| else Chain(s, blocks[0].end, end, blocks[1..], blocks[0].told, text)
  }

  /** What is reported of the blocks. */
  function Infos(blocks: seq<Formed>, at: nat, from: nat, base: nat): seq<Info>
    decreases |blocks|
  {
    if blocks == [] then [] else
      var b := blocks[0];
      [Info(b.kind, |blocks| == 1, at, b.end, base + from, if b.told >= from then b.told - from else 0)] + Infos(blocks[1..], b.end, b.told, base)
  }

  /** Decoding the blocks of a buffer. */
  ghost function DecodeAt(data: seq<Byte>, at: nat, out: seq<nat>, base: nat, infos: seq<Info>): Outcome
  {
    ParserGood(data);
    Decode(ParserOf(data), 8 * |data|, at, out, base, infos)
  }

  lemma DecodeStep(data: seq<Byte>, at: nat, out: seq<nat>, base: nat, infos: seq<Info>)
    ensures var b := ParseBlock(Packed(data), at); var r := Run(out, b.ops);
      DecodeAt(data, at, out, base, infos) ==
        if r.None? || b.ending.Broken? then Failed else
          var more := infos + [Info(b.ending.kind, b.ending.final, at, b.ending.end, base + |out|, |r.value| - |out|)];
          if b.ending.final then Finished(r.value, more, b.ending.end) else DecodeAt(data, b.ending.end, r.value, base, more)
  {
    hide ParseBlock, Run;
    ParserGood(data);
    assert ParserOf(data)(at) == ParseBlock(Packed(data), at);
  }

  lemma {:induction false} ChainRead(data: seq<Byte>, at: nat, end: nat, blocks: seq<Formed>, from: nat, text: seq<nat>, base: nat, infos: seq<Info>)
    requires from <= |text| && Chain(Packed(data), at, end, blocks, from, text)
    ensures DecodeAt(data, at, text[..from], base, infos) == Finished(text, infos + Infos(blocks, at, from, base), end)
    decreases |blocks|
  {
    hide ParseBlock, Run, Block, OpsTell, Packed, DecodeAt;
    var b := blocks[0];
    BlockRead(Packed(data), at, b.end, b.kind, |blocks| == 1, b.ops);
    RunTells(b.ops, from, b.told, text);
    DecodeStep(data, at, text[..from], base, infos);
    var info := Info(b.kind, |blocks| == 1, at, b.end, base + from, b.told - from);
    if |blocks| == 1 {
      assert text[..b.told] == text && blocks[1..] == [];
    } else {
      ChainRead(data, b.end, end, blocks[1..], b.told, text, base, infos + [info]);
      Regroup(infos, [info], Infos(blocks[1..], b.end, b.told, base));
    }
  }

  lemma {:induction false} DecodeAppends(data: seq<Byte>, at: nat, out: seq<nat>, base: nat, infos: seq<Info>)
    requires DecodeAt(data, at, out, base, infos).Finished?
    ensures out <= DecodeAt(data, at, out, base, infos).out
    decreases if at <= 8 * |data| then 8 * |data| - at else 0
  {
    hide ParseBlock, Run, DecodeAt, Packed;
    DecodeStep(data, at, out, base, infos);
    BlockGood(Packed(data), at);
    var b := ParseBlock(Packed(data), at);
    var r := Run(out, b.ops);
    if !b.ending.final {
      DecodeAppends(data, b.ending.end, r.value, base, infos + [Info(b.ending.kind, b.ending.final, at, b.ending.end, base + |out|, |r.value| - |out|)]);
    }
  }

  /** Whatever decodes is a chain of blocks. */
  lemma {:induction false} ChainOnly(data: seq<Byte>, at: nat, out: seq<nat>, base: nat, infos: seq<Info>) returns (blocks: seq<Formed>)
    requires DecodeAt(data, at, out, base, infos).Finished?
    ensures var o := DecodeAt(data, at, out, base, infos);
      out <= o.out && Chain(Packed(data), at, o.end, blocks, |out|, o.out) && o.infos == infos + Infos(blocks, at, |out|, base)
    decreases if at <= 8 * |data| then 8 * |data| - at else 0
  {
    hide ParseBlock, Run, DecodeAt, Packed, Block, OpsTell;
    var o := DecodeAt(data, at, out, base, infos);
    DecodeAppends(data, at, out, base, infos);
    DecodeStep(data, at, out, base, infos);
    BlockGood(Packed(data), at);
    var b := ParseBlock(Packed(data), at);
    var r, e := Run(out, b.ops), b.ending;
    var first := Formed(e.kind, e.end, b.ops, |r.value|);
    var info := Info(e.kind, e.final, at, e.end, base + |out|, |r.value| - |out|);
    BlockOnly(Packed(data), at, e.end, e.kind, e.final, b.ops);
    var rest: seq<Formed> := [];
    if !e.final {
      DecodeAppends(data, e.end, r.value, base, infos + [info]);
      rest := ChainOnly(data, e.end, r.value, base, infos + [info]);
      Regroup(infos, [info], Infos(rest, e.end, |r.value|, base));
    }
    blocks := [first] + rest;
    assert blocks[1..] == rest;
    Parts(out, r.value, o.out);
    RunTells(b.ops, |out|, |r.value|, o.out);
  }

  lemma Parts(out: seq<nat>, r: seq<nat>, text: seq<nat>)
    requires out <= r <= text
    ensures text[..|out|] == out && text[..|r|] == r
  {
  }

  /** A stream whose blocks are told and reported like this. */
  ghost predicate Stands(data: seq<Byte>, at: nat, end: nat, blocks: seq<Formed>, base: nat, text: seq<nat>, infos: seq<Info>)
  {
    Chain(Packed(data), at, end, blocks, 0, text) && infos == Infos(blocks, at, 0, base)
  }

  /** The serial decoder's specification: exactly the chains of blocks decode, to the data they tell, and the blocks are reported as they are. */
  lemma StreamExactly(data: seq<Byte>, startByte: nat, base: nat, text: seq<nat>, infos: seq<Info>, end: nat)
    ensures ParallelInflate.Inflated(data, startByte, base) == Finished(text, infos, end) <==>
            exists blocks :: Stands(data, startByte * 8, end, blocks, base, text, infos)
  {
    var at := startByte * 8;
    assert ParallelInflate.Inflated(data, startByte, base) == DecodeAt(data, at, [], base, []);
    hide DecodeAt, Chain, Infos, Packed, ParallelInflate.Inflated;
    if DecodeAt(data, at, [], base, []) == Finished(text, infos, end) {
      var blocks := ChainOnly(data, at, [], base, []);
      assert [] + Infos(blocks, at, 0, base) == Infos(blocks, at, 0, base);
      assert Stands(data, at, end, blocks, base, text, infos);
    }
    forall blocks | Stands(data, at, end, blocks, base, text, infos)
      ensures DecodeAt(data, at, [], base, []) == Finished(text, infos, end)
    {
      ChainRead(data, at, end, blocks, 0, text, base, []);
      assert text[..0] == [] && [] + infos == infos;
    }
  }
}
