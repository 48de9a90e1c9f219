/** DEFLATE blocks from tokens: fixed, dynamic and stored, whichever is shortest. */
module DeflateEncode {
  import opened Bytes
  import opened Seqs
  import opened Sums
  import opened BitStream
  import opened LsbStream
  import opened Canonical
  import opened InflateTable
  import opened Inflate
  import opened DeflateBlocks
  import opened DeflateCodes
  import opened DeflateSegments
  import opened DynamicHeader
  import opened HuffmanLengths
  import FixedCode
  import Options
  import Tokenize
  import MatchFinder

  // ----- Symbols -----

  lemma SymbolsOf(length: nat, distance: nat)
    requires 3 <= length && 1 <= distance
    ensures |LENGTH_BASE| == |LENGTH_EXTRA| > 0 && |DISTANCE_BASE| == |DISTANCE_EXTRA| > 0
    ensures LENGTH_BASE[0] <= length && DISTANCE_BASE[0] <= distance
    ensures IndexFor(length, LENGTH_BASE) == LengthIndex(length) && IndexFor(distance, DISTANCE_BASE) == DistanceIndex(distance)
  {
    hide IndexFor;
  }

  method LengthSymbol(length: nat) returns (symbol: nat, extra: nat, bits: nat)
    requires 3 <= length <= 258
    ensures symbol == LengthIndex(length) && extra == length - LengthBase(symbol) && bits == LengthExtra(symbol) && extra < Pow2(bits)
  {
    hide IndexFor, Pow2;
    SymbolsOf(length, 1);
    LengthFits(length);
    symbol, extra, bits := SymbolFor(length, LENGTH_BASE, LENGTH_EXTRA);
  }

  method DistanceSymbol(distance: nat) returns (symbol: nat, extra: nat, bits: nat)
    requires 1 <= distance <= 32768
    ensures symbol == DistanceIndex(distance) && extra == distance - DistanceBase(symbol) && bits == DistanceExtra(symbol) && extra < Pow2(bits)
  {
    hide IndexFor, Pow2;
    SymbolsOf(3, distance);
    DistanceFits(distance);
    symbol, extra, bits := SymbolFor(distance, DISTANCE_BASE, DISTANCE_EXTRA);
  }

  // ----- Symbol statistics -----

  function LiteralSymbol(op: Op): (s: nat)
    requires Tokenize.IsToken(op)
    ensures s < 286 && s != 256
  {
    if op.Literal? then op.byte else 257 + LengthIndex(op.length)
  }

  function LiteralUses(ops: seq<Op>, symbol: nat): (n: nat)
    requires forall i :: 0 <= i < |ops| ==> Tokenize.IsToken(ops[i])
    ensures n <= |ops|
  {
    if ops == [] then 0 else LiteralUses(ops[..|ops| - 1], symbol) + if LiteralSymbol(ops[|ops| - 1]) == symbol then 1 else 0
  }

  function DistanceUses(ops: seq<Op>, symbol: nat): (n: nat)
    requires forall i :: 0 <= i < |ops| ==> Tokenize.IsToken(ops[i])
    ensures n <= |ops|
  {
    if ops == [] then 0 else
      var op := ops[|ops| - 1];
      assert Tokenize.IsToken(op);
      DistanceUses(ops[..|ops| - 1], symbol) + if op.Copy? && DistanceIndex(op.distance) == symbol then 1 else 0
  }

  lemma {:induction false} UsesPositive(ops: seq<Op>, i: nat)
    requires i < |ops| && forall j :: 0 <= j < |ops| ==> Tokenize.IsToken(ops[j])
    ensures LiteralUses(ops, LiteralSymbol(ops[i])) >= 1
    ensures ops[i].Copy? ==> DistanceUses(ops, DistanceIndex(ops[i].distance)) >= 1
  {
    hide LiteralSymbol, DistanceIndex;
    var n := |ops| - 1;
    if i < n {
      UsesPositive(ops[..n], i);
      assert ops[..n][i] == ops[i];
    }
  }

  /** How often each symbol occurs among the first `k` tokens. */
  ghost predicate Tallied(tokens: seq<Op>, k: nat, literals: seq<nat>, distances: seq<nat>)
    requires Tokenize.AreTokens(tokens) && k <= |tokens|
  {
    && |literals| == 286 && |distances| == 30
    && (forall s :: 0 <= s < 286 ==> literals[s] == LiteralUses(tokens[..k], s))
    && (forall s :: 0 <= s < 30 ==> distances[s] == DistanceUses(tokens[..k], s))
  }

  lemma TallyStep(tokens: seq<Op>, k: nat, literals: seq<nat>, distances: seq<nat>)
    requires Tokenize.AreTokens(tokens) && k < |tokens| && Tallied(tokens, k, literals, distances)
    ensures |literals| == 286 && |distances| == 30
    ensures var s := LiteralSymbol(tokens[k]); var more := literals[s := literals[s] + 1];
      if tokens[k].Literal? then Tallied(tokens, k + 1, more, distances)
      else var d := DistanceIndex(tokens[k].distance); Tallied(tokens, k + 1, more, distances[d := distances[d] + 1])
  {
    hide LengthIndex, DistanceIndex;
    assert tokens[..k + 1][..k] == tokens[..k] && tokens[..k + 1][k] == tokens[k];
  }

  /** The counts, raised where fewer than two symbols occur so that a code exists. */
  ghost predicate Frequent(tokens: seq<Op>, literals: seq<nat>, distances: seq<nat>)
    requires Tokenize.AreTokens(tokens)
  {
    && |literals| == 286 && |distances| == 30 && |Active(literals)| >= 2 && |Active(distances)| >= 2
    && (forall s :: 0 <= s < 286 ==> RaisedFrom(LiteralUses(tokens, s) + (if s == 256 then 1 else 0), literals[s]))
    && (forall s :: 0 <= s < 30 ==> RaisedFrom(DistanceUses(tokens, s), distances[s]))
  }

  predicate RaisedFrom(count: nat, frequency: nat)
  {
    frequency == count || (count == 0 && frequency == 1)
  }

  method Frequencies(tokens: seq<Op>) returns (literals: seq<nat>, distances: seq<nat>)
    requires Tokenize.AreTokens(tokens)
    ensures Frequent(tokens, literals, distances)
  {
    hide LiteralUses, DistanceUses, LengthIndex, DistanceIndex, LengthBase, LengthExtra, DistanceBase, DistanceExtra;
    literals, distances := seq(286, _ => 0), seq(30, _ => 0);
    NoUses(tokens);
    for i := 0 to |tokens|
      invariant Tallied(tokens, i, literals, distances)
    {
      hide Tallied;
      TallyStep(tokens, i, literals, distances);
      assert Tokenize.IsToken(tokens[i]);
      match tokens[i]
      case Literal(byte) => literals := literals[byte := literals[byte] + 1];
      case Copy(distance, length) =>
        var lengthSymbol, _, _ := LengthSymbol(length);
        var distanceSymbol, _, _ := DistanceSymbol(distance);
        literals := literals[257 + lengthSymbol := literals[257 + lengthSymbol] + 1];
        distances := distances[distanceSymbol := distances[distanceSymbol] + 1];
    }
    assert tokens[..|tokens|] == tokens;
    NoEndSymbol(tokens);
    literals := literals[256 := literals[256] + 1];
    literals := EnsureTwo(literals);
    distances := EnsureTwo(distances);
  }

  lemma NoUses(tokens: seq<Op>)
    requires Tokenize.AreTokens(tokens)
    ensures Tallied(tokens, 0, seq(286, _ => 0), seq(30, _ => 0))
  {
    assert tokens[..0] == [];
  }

  lemma {:induction false} NoEndSymbol(ops: seq<Op>)
    requires forall i :: 0 <= i < |ops| ==> Tokenize.IsToken(ops[i])
    ensures LiteralUses(ops, 256) == 0
  {
    if ops != [] {
      NoEndSymbol(ops[..|ops| - 1]);
    }
  }

  // ----- Codes for the statistics -----

  lemma LeastValues()
    ensures Least(8) == 55 && Least(16) == 2584
  {
    assert Least(4) == 8 && Least(5) == 13;
    assert Least(6) == 21 && Least(7) == 34;
    assert Least(8) == 55 && Least(9) == 89;
    assert Least(10) == 144 && Least(11) == 233;
    assert Least(12) == 377 && Least(13) == 610;
    assert Least(14) == 987 && Least(15) == 1597;
  }

  /** A complete code is a prefix code of at most 15 bits that covers every symbol that occurs. */
  lemma CompleteCodes(frequencies: seq<nat>, lens: seq<nat>, max: nat)
    requires CompleteCode(frequencies, lens, max) && 1 <= max <= 15
    ensures |lens| == |frequencies| && Codes(lens) && Fits(lens, max)
    ensures forall s :: 0 <= s < |lens| ==> lens[s] <= max && (frequencies[s] != 0 <==> Coded(lens, s))
  {
    hide Mass, Pow2, Fits;
    FitsByMass(lens, max);
    FitsBeyond(lens, max, 15);
  }

  /** Lengths of zero at the end of a code can be left off. */
  ghost predicate ZeroFrom(ls: seq<nat>, n: nat)
  {
    n <= |ls| && forall i :: n <= i < |ls| ==> ls[i] == 0
  }

  lemma TrimmedCount(ls: seq<nat>, n: nat, l: nat)
    requires ZeroFrom(ls, n) && l >= 1
    ensures CountLen(ls[..n], l) == CountLen(ls, l)
  {
    hide CountLen;
    CountSplit(ls, n, l);
    NoneLonger(ls[n..], l);
  }

  lemma {:induction false} TrimmedFirst(ls: seq<nat>, n: nat, l: nat)
    requires ZeroFrom(ls, n)
    ensures First(ls[..n], l) == First(ls, l)
  {
    hide CountLen;
    if l > 1 {
      TrimmedFirst(ls, n, l - 1);
      TrimmedCount(ls, n, l - 1);
    }
  }

  lemma TrimmedCodes(ls: seq<nat>, n: nat)
    requires ZeroFrom(ls, n) && Codes(ls)
    ensures Codes(ls[..n])
    ensures forall i :: 0 <= i < |ls| ==> (Coded(ls, i) ==> Coded(ls[..n], i) && Spelled(ls[..n], i) == Spelled(ls, i))
  {
    hide CountLen, First, Pow2;
    forall l | l >= 1 ensures CountLen(ls[..n], l) == CountLen(ls, l) && First(ls[..n], l) == First(ls, l) {
      TrimmedCount(ls, n, l);
      TrimmedFirst(ls, n, l);
    }
    forall i | 0 <= i < |ls| && Coded(ls, i) ensures Coded(ls[..n], i) && Spelled(ls[..n], i) == Spelled(ls, i) {
      hide BitsOf;
      assert ls[..n][..i] == ls[..i];
    }
  }

  /** The position after the last non-zero length. */
  method UsedLength(ls: seq<nat>, least: nat) returns (n: nat)
    requires least <= |ls|
    ensures least <= n && ZeroFrom(ls, n) && (n > least ==> ls[n - 1] != 0)
  {
    n := |ls|;
    while n > least && ls[n - 1] == 0
      invariant least <= n && ZeroFrom(ls, n)
    {
      n := n - 1;
    }
  }

  // ----- Writing tokens -----

  method WriteCode(output: BitWriter, symbol: nat, codes: seq<nat>, ls: seq<nat>)
    requires output.Valid() && CodesOf(ls, codes) && Coded(ls, symbol) && ls[symbol] <= 15
    modifies output
    ensures output.Valid() && output.Written() == old(output.Written()) + Spelled(ls, symbol)
  {
    hide BitWriter.Valid, BitWriter.Written, Word;
    CodesSize(ls, codes);
    CodeIsWord(ls, codes, symbol);
    output.WriteBits(codes[symbol], ls[symbol]);
  }

  lemma CodesSize(ls: seq<nat>, codes: seq<nat>)
    requires CodesOf(ls, codes)
    ensures |codes| == |ls|
  {
  }

  method WriteFixedSymbol(output: BitWriter, symbol: nat)
    requires output.Valid() && symbol < 288
    modifies output
    ensures output.Valid() && output.Written() == old(output.Written()) + Spelled(FixedLiteral(), symbol)
  {
    hide BitWriter.Valid, BitWriter.Written, Word;
    var code := FixedSymbol(symbol);
    output.WriteBits(code.0, code.1);
  }

  method WriteMatch(output: BitWriter, length: nat, distance: nat)
    requires output.Valid() && 3 <= length <= 258 && 1 <= distance <= 32768
    modifies output
    ensures output.Valid() && output.Written() == old(output.Written()) + CopyBits(distance, length, FixedLiteral(), FixedDistance())
  {
    hide BitWriter.Valid, BitWriter.Written, Word, LengthIndex, DistanceIndex, LengthBase, DistanceBase, LengthExtra, DistanceExtra, Pow2, FixedLiteral, FixedDistance, LsbBits;
    var start := output.Written();
    var lengthIndex, lengthExtra, lengthBits := LengthSymbol(length);
    WriteFixedSymbol(output, 257 + lengthIndex);
    output.WriteBits(lengthExtra, lengthBits);
    var distanceSymbol, distanceExtra, distanceBits := DistanceSymbol(distance);
    output.WriteBits(FixedDistanceSymbol(distanceSymbol), 5);
    output.WriteBits(distanceExtra, distanceBits);
    Regroup4(start, Spelled(FixedLiteral(), 257 + lengthIndex), LsbBits(lengthExtra, lengthBits), Spelled(FixedDistance(), distanceSymbol), LsbBits(distanceExtra, distanceBits));
  }

  lemma Regroup4<T>(z: seq<T>, a: seq<T>, b: seq<T>, c: seq<T>, d: seq<T>)
    ensures z + (a + (b + (c + d))) == (((z + a) + b) + c) + d
  {
    Regroup(z, a, b + (c + d));
    Regroup(z + a, b, c + d);
    Regroup(z + a + b, c, d);
  }

  /** Three zero bits, padding, and the lengths of an empty stored block. */
  method SyncBoundary(output: BitWriter)
    requires output.Valid()
    modifies output
    ensures output.Valid() && output.bits == 0
    ensures output.Written() == old(output.Written()) + StoredBits(0, |old(output.Written())|, [])
  {
    hide BitWriter.Valid, BitWriter.Written, LsbBits, Packed, Zeros, PadOf, Pow2;
    ghost var start := output.Written();
    Pow2Three();
    output.WriteBits(0, 3);
    WriterPad(output, |start| + 3);
    output.AlignZero();
    output.WriteAligned([0, 0, 255, 255]);
    EmptyStored();
    Regroup3Bits(start, LsbBits(0, 3), Zeros(PadOf(|start| + 3)), Packed([0, 0, 255, 255]));
  }

  /** The writer's fill level is the length written, modulo eight. */
  lemma WriterPad(output: BitWriter, n: nat)
    requires output.Valid() && n == |output.Written()|
    ensures output.bits < 8 && (8 - output.bits) % 8 == PadOf(n)
  {
    SumMod(8 * |output.bytes|, output.bits);
  }

  lemma EmptyStored()
    ensures Packed([0, 0, 255, 255]) == Packed(Le16(0)) + (Packed(Le16(65535)) + Packed([]))
  {
    hide Packed;
    assert [0, 0, 255, 255] == Le16(0) + (Le16(65535) + []);
    PackedAppend(Le16(0), Le16(65535) + []);
    PackedAppend(Le16(65535), []);
  }

  lemma Regroup3Bits<T>(z: seq<T>, a: seq<T>, b: seq<T>, c: seq<T>)
    ensures z + (a + (b + c)) == ((z + a) + b) + c
  {
    Regroup(z, a, b + c);
    Regroup(z + a, b, c);
  }

  /** Tokens written so far and tokens still to come. */
  ghost predicate Progress(start: seq<bool>, written: seq<bool>, tokens: seq<Op>, k: nat, lit: seq<nat>, dist: seq<nat>)
    requires Tokenize.AreTokens(tokens) && k <= |tokens|
  {
    written + TokensBits(tokens, k, lit, dist) == start + TokensBits(tokens, 0, lit, dist)
  }

  lemma ProgressStep(start: seq<bool>, written: seq<bool>, tokens: seq<Op>, k: nat, lit: seq<nat>, dist: seq<nat>)
    requires Tokenize.AreTokens(tokens) && k < |tokens| && Progress(start, written, tokens, k, lit, dist)
    ensures Progress(start, written + TokenBits(tokens[k], lit, dist), tokens, k + 1, lit, dist)
  {
    hide TokenBits;
    Regroup(written, TokenBits(tokens[k], lit, dist), TokensBits(tokens, k + 1, lit, dist));
  }

  lemma ProgressEnd(start: seq<bool>, written: seq<bool>, tokens: seq<Op>, lit: seq<nat>, dist: seq<nat>)
    requires Tokenize.AreTokens(tokens) && Progress(start, written, tokens, |tokens|, lit, dist)
    ensures written + Spelled(lit, 256) == start + TokensBits(tokens, 0, lit, dist)
  {
  }

  lemma ProgressStart(start: seq<bool>, tokens: seq<Op>, lit: seq<nat>, dist: seq<nat>)
    requires Tokenize.AreTokens(tokens)
    ensures Progress(start, start, tokens, 0, lit, dist)
  {
  }

  // ----- Blocks -----

  method EncodeFixed(tokens: seq<Op>, ghost out: seq<nat>, ghost plain: seq<nat>) returns (r: seq<Byte>)
    requires Tokenize.AreTokens(tokens) && Run(out, tokens) == Options.Some(out + plain)
    ensures Encodes(Packed(r), out, plain)
  {
    hide BitWriter.Valid, BitWriter.Written, LsbBits, Packed, Run, Encodes, Spelled, FixedLiteral, FixedDistance, TokensBits, Progress, Pow2, CopyBits, StoredBits;
    var output := new BitWriter();
    output.WriteBits(2, 3) by { Pow2Three(); }
    ghost var head := LsbBits(2, 3);
    assert [] + head == head;
    ghost var lit, dist := FixedLiteral(), FixedDistance();
    ProgressStart(head, tokens, lit, dist);
    for k := 0 to |tokens|
      invariant fresh(output) && output.Valid() && Progress(head, output.Written(), tokens, k, lit, dist)
    {
      ProgressStep(head, output.Written(), tokens, k, lit, dist);
      assert Tokenize.IsToken(tokens[k]);
      match tokens[k]
      case Literal(byte) => WriteFixedSymbol(output, byte);
      case Copy(distance, length) => WriteMatch(output, length, distance);
    }
    ProgressEnd(head, output.Written(), tokens, lit, dist);
    WriteFixedSymbol(output, 256);
    SyncBoundary(output);
    NoPadding(output.Written());
    r := output.FinishAligned();
    FixedEncodes(tokens, out, plain);
  }

  lemma NoPadding(written: seq<bool>)
    ensures written + Zeros((8 - 0) % 8) == written
  {
  }

  lemma FixedEncodes(tokens: seq<Op>, out: seq<nat>, plain: seq<nat>)
    requires Tokenize.AreTokens(tokens) && Run(out, tokens) == Options.Some(out + plain)
    ensures Encodes(SegmentBits(LsbBits(2, 3), tokens, FixedLiteral(), FixedDistance()), out, plain)
  {
    hide Run, Encodes, SegmentBits, LsbBits, Opens, Codes;
    FixedOpens();
    FixedCode.FixedCodes();
    assert CoversAll(tokens, FixedLiteral(), FixedDistance()) by {
      forall i | 0 <= i < |tokens| ensures Covers(tokens[i], FixedLiteral(), FixedDistance()) {
        hide LengthIndex, DistanceIndex;
        assert Tokenize.IsToken(tokens[i]);
      }
    }
    SegmentEncodes(LsbBits(2, 3), tokens, FixedLiteral(), FixedDistance(), FixedHuffman, out, plain);
  }

  // ----- Dynamic blocks -----

  /** How often each code length occurs; every length that occurs is counted. */
  method LengthFrequencies(all: seq<nat>) returns (r: seq<nat>)
    requires |all| <= 65535 && forall i :: 0 <= i < |all| ==> all[i] <= 15
    ensures |r| == 19 && |Active(r)| >= 2 && forall s :: 0 <= s < 19 ==> r[s] <= 65536
    ensures forall i :: 0 <= i < |all| ==> r[all[i]] >= 1
  {
    r := seq(19, _ => 0);
    for i := 0 to |all|
      invariant |r| == 19 && forall s :: 0 <= s < 19 ==> r[s] <= i
      invariant forall j :: 0 <= j < i ==> r[all[j]] >= 1
    {
      r := r[all[i] := r[all[i]] + 1];
    }
    r := EnsureTwo(r);
  }

  /** How many code length code lengths are sent. */
  method PreCount(pre: seq<nat>) returns (count: nat)
    requires |pre| == 19
    ensures 4 <= count <= 19 && DynamicHeader.Trimmed(pre, count)
  {
    hide Order;
    count := 19;
    while count > 4 && pre[Order(count - 1)] == 0
      invariant 4 <= count <= 19 && DynamicHeader.Trimmed(pre, count)
    {
      count := count - 1;
    }
  }

  ghost predicate PreProgress(start: seq<bool>, written: seq<bool>, pre: seq<nat>, k: nat, count: nat)
    requires |pre| == 19 && k <= count <= 19
  {
    written + PreBits(pre, k, count) == start + PreBits(pre, 0, count)
  }

  method WritePre(output: BitWriter, pre: seq<nat>, count: nat)
    requires output.Valid() && |pre| == 19 && count <= 19 && forall i :: 0 <= i < 19 ==> pre[i] < 8
    modifies output
    ensures output.Valid() && output.Written() == old(output.Written()) + PreBits(pre, 0, count)
  {
    hide BitWriter.Valid, BitWriter.Written, LsbBits, Order, Pow2;
    Pow2Three();
    ghost var start := output.Written();
    for k := 0 to count
      invariant output.Valid() && PreProgress(start, output.Written(), pre, k, count)
    {
      Regroup(output.Written(), LsbBits(pre[Order(k)], 3), PreBits(pre, k + 1, count));
      output.WriteBits(pre[Order(k)], 3);
    }
  }

  ghost predicate LengthsProgress(start: seq<bool>, written: seq<bool>, all: seq<nat>, k: nat, pre: seq<nat>)
    requires k <= |all|
  {
    written + LengthsBits(all, k, pre) == start + LengthsBits(all, 0, pre)
  }

  method WriteLengths(output: BitWriter, all: seq<nat>, codes: seq<nat>, pre: seq<nat>)
    requires output.Valid() && CodesOf(pre, codes) && forall i :: 0 <= i < |all| ==> Coded(pre, all[i]) && pre[all[i]] <= 15
    modifies output
    ensures output.Valid() && output.Written() == old(output.Written()) + LengthsBits(all, 0, pre)
  {
    hide BitWriter.Valid, BitWriter.Written, Spelled, CodesOf;
    ghost var start := output.Written();
    for k := 0 to |all|
      invariant output.Valid() && LengthsProgress(start, output.Written(), all, k, pre)
    {
      Regroup(output.Written(), Spelled(pre, all[k]), LengthsBits(all, k + 1, pre));
      WriteCode(output, all[k], codes, pre);
    }
  }

  /** Full code tables behind the trimmed codes that the block announces. */
  ghost predicate Behind(ls: seq<nat>, trimmed: seq<nat>)
  {
    && (forall i :: 0 <= i < |ls| ==> ls[i] <= 15)
    && forall i :: 0 <= i < |ls| ==> (Coded(ls, i) ==> Coded(trimmed, i) && Spelled(trimmed, i) == Spelled(ls, i))
  }

  lemma BehindCode(ls: seq<nat>, trimmed: seq<nat>, symbol: nat)
    requires Behind(ls, trimmed) && Coded(ls, symbol)
    ensures Spelled(trimmed, symbol) == Spelled(ls, symbol) && ls[symbol] <= 15
  {
  }

  method WriteToken(output: BitWriter, op: Op, lit: seq<nat>, litCodes: seq<nat>, dist: seq<nat>, distCodes: seq<nat>, ghost l: seq<nat>, ghost d: seq<nat>)
    requires output.Valid() && Tokenize.IsToken(op) && Covers(op, lit, dist)
    requires CodesOf(lit, litCodes) && CodesOf(dist, distCodes) && Behind(lit, l) && Behind(dist, d)
    modifies output
    ensures output.Valid() && output.Written() == old(output.Written()) + TokenBits(op, l, d)
  {
    hide BitWriter.Valid, BitWriter.Written, LengthIndex, DistanceIndex, LengthBase, DistanceBase, LengthExtra, DistanceExtra, Pow2, LsbBits, CodesOf, Spelled, Behind;
    match op
    case Literal(byte) =>
      BehindCode(lit, l, byte);
      WriteCode(output, byte, litCodes, lit);
    case Copy(distance, length) =>
      ghost var start := output.Written();
      var lengthSymbol, lengthExtra, lengthBits := LengthSymbol(length);
      BehindCode(lit, l, 257 + lengthSymbol);
      WriteCode(output, 257 + lengthSymbol, litCodes, lit);
      output.WriteBits(lengthExtra, lengthBits);
      var distanceSymbol, distanceExtra, distanceBits := DistanceSymbol(distance);
      BehindCode(dist, d, distanceSymbol);
      WriteCode(output, distanceSymbol, distCodes, dist);
      output.WriteBits(distanceExtra, distanceBits);
      Regroup4(start, Spelled(l, 257 + lengthSymbol), LsbBits(lengthExtra, lengthBits), Spelled(d, distanceSymbol), LsbBits(distanceExtra, distanceBits));
  }

  /** Everything a dynamic block needs: its two codes in full and as announced, and the code for their lengths. */
  datatype Dynamic = Dynamic(lit: seq<nat>, dist: seq<nat>, literals: nat, distances: nat, pre: seq<nat>, count: nat)
  {
    ghost predicate Fit(tokens: seq<Op>)
      requires Tokenize.AreTokens(tokens)
    {
      && literals <= |lit| && distances <= |dist|
      && Announced(lit[..literals], dist[..distances], pre, count)
      && Behind(lit, lit[..literals]) && Behind(dist, dist[..distances])
      && CoversAll(tokens, lit, dist) && Fits(lit, 15) && Fits(dist, 15) && Fits(pre, 7) && Short(pre, 7)
    }
  }

  ghost predicate Short(ls: seq<nat>, max: nat)
  {
    forall i :: 0 <= i < |ls| ==> ls[i] <= max
  }

  lemma TokensCovered(tokens: seq<Op>, literals: seq<nat>, distances: seq<nat>, lit: seq<nat>, dist: seq<nat>)
    requires Tokenize.AreTokens(tokens) && Frequent(tokens, literals, distances) && |lit| == 286 && |dist| == 30
    requires forall s :: 0 <= s < 286 ==> (literals[s] != 0 ==> Coded(lit, s))
    requires forall s :: 0 <= s < 30 ==> (distances[s] != 0 ==> Coded(dist, s))
    ensures CoversAll(tokens, lit, dist)
  {
    hide LiteralUses, DistanceUses, LengthIndex, DistanceIndex;
    forall i | 0 <= i < |tokens| ensures Covers(tokens[i], lit, dist) {
      assert Tokenize.IsToken(tokens[i]);
      UsesPositive(tokens, i);
      var s := LiteralSymbol(tokens[i]);
      assert RaisedFrom(LiteralUses(tokens, s) + (if s == 256 then 1 else 0), literals[s]);
      if tokens[i].Copy? {
        var d := DistanceIndex(tokens[i].distance);
        assert RaisedFrom(DistanceUses(tokens, d), distances[d]);
      }
    }
    assert RaisedFrom(LiteralUses(tokens, 256) + 1, literals[256]);
  }

  lemma FrequenciesSmall(tokens: seq<Op>, literals: seq<nat>, distances: seq<nat>)
    requires Tokenize.AreTokens(tokens) && Frequent(tokens, literals, distances) && |tokens| < 0xFFFF_FFFF
    ensures |literals| == 286 && |distances| == 30 && |Active(literals)| >= 2 && |Active(distances)| >= 2
    ensures forall s :: 0 <= s < 286 ==> literals[s] < 0x1_0000_0000
    ensures forall s :: 0 <= s < 30 ==> distances[s] < 0x1_0000_0000
  {
    hide Active;
    forall s | 0 <= s < 286 ensures literals[s] < 0x1_0000_0000 {
      assert RaisedFrom(LiteralUses(tokens, s) + (if s == 256 then 1 else 0), literals[s]);
    }
    forall s | 0 <= s < 30 ensures distances[s] < 0x1_0000_0000 {
      assert RaisedFrom(DistanceUses(tokens, s), distances[s]);
    }
  }

  lemma TrimmedBehind(ls: seq<nat>, n: nat)
    requires ZeroFrom(ls, n) && Codes(ls)
    ensures Behind(ls, ls[..n]) && Codes(ls[..n])
  {
    hide Fits, Spelled;
    TrimmedCodes(ls, n);
  }

  lemma AnnouncedIs(lit: seq<nat>, dist: seq<nat>, pre: seq<nat>, count: nat)
    requires 257 <= |lit| <= 286 && 1 <= |dist| <= 30 && |pre| == 19 && 4 <= count <= 19
    requires Codes(lit) && Codes(dist) && Codes(pre) && Coded(lit, 256) && Short(pre, 7) && DynamicHeader.Trimmed(pre, count)
    requires forall i :: 0 <= i < |lit + dist| ==> Coded(pre, (lit + dist)[i])
    ensures Announced(lit, dist, pre, count)
  {
    hide Fits, DynamicHeader.Trimmed;
  }

  /** Choose the codes of a dynamic block. */
  method ChooseCodes(tokens: seq<Op>) returns (c: Dynamic)
    requires Tokenize.AreTokens(tokens) && |tokens| < 0xFFFF_FFFF
    ensures c.Fit(tokens)
  {
    hide Frequent, Active, CompleteCode, Codes, Fits, Least, DynamicHeader.Trimmed, Covers, Spelled;
    var literalFrequencies, distanceFrequencies := Frequencies(tokens);
    FrequenciesSmall(tokens, literalFrequencies, distanceFrequencies);
    LeastValues();
    var lit := HuffmanLengths.HuffmanLengths(literalFrequencies, 15);
    var dist := HuffmanLengths.HuffmanLengths(distanceFrequencies, 15);
    CompleteCodes(literalFrequencies, lit, 15);
    CompleteCodes(distanceFrequencies, dist, 15);
    TokensCovered(tokens, literalFrequencies, distanceFrequencies, lit, dist);
    var literals := UsedLength(lit, 257);
    var distances := UsedLength(dist, 1);
    TrimmedBehind(lit, literals);
    TrimmedBehind(dist, distances);
    var all := lit[..literals] + dist[..distances];
    var frequencies := LengthFrequencies(all);
    var pre := HuffmanLengths.HuffmanLengths(frequencies, 7);
    CompleteCodes(frequencies, pre, 7);
    var count := PreCount(pre);
    AnnouncedIs(lit[..literals], dist[..distances], pre, count);
    c := Dynamic(lit, dist, literals, distances, pre, count);
  }

  method WriteHeader(output: BitWriter, c: Dynamic, codes: seq<nat>)
    requires output.Valid() && c.literals <= |c.lit| && c.distances <= |c.dist| && CodesOf(c.pre, codes) && Short(c.pre, 7)
    requires Announced(c.lit[..c.literals], c.dist[..c.distances], c.pre, c.count)
    modifies output
    ensures output.Valid() && 257 <= c.literals && 1 <= c.distances && |c.pre| == 19 && 4 <= c.count <= 19
    ensures output.Written() == old(output.Written()) + DynamicBits(c.lit[..c.literals], c.dist[..c.distances], c.pre, c.count)
  {
    hide BitWriter.Valid, BitWriter.Written, LsbBits, Pow2, CodesOf, PreBits, LengthsBits, Codes, DynamicHeader.Trimmed;
    Pow2Three();
    ghost var start := output.Written();
    ghost var lit, dist := c.lit[..c.literals], c.dist[..c.distances];
    var all := c.lit[..c.literals] + c.dist[..c.distances];
    output.WriteBits(4, 3);
    output.WriteBits(c.literals - 257, 5);
    output.WriteBits(c.distances - 1, 5);
    output.WriteBits(c.count - 4, 4);
    WritePre(output, c.pre, c.count);
    WriteLengths(output, all, codes, c.pre);
    RegroupHeader(start, LsbBits(4, 3), LsbBits(c.literals - 257, 5), LsbBits(c.distances - 1, 5), LsbBits(c.count - 4, 4), PreBits(c.pre, 0, c.count), LengthsBits(all, 0, c.pre));
  }

  lemma RegroupHeader<T>(z: seq<T>, a: seq<T>, b: seq<T>, c: seq<T>, d: seq<T>, e: seq<T>, f: seq<T>)
    ensures z + (a + (b + (c + (d + (e + f))))) == (((((z + a) + b) + c) + d) + e) + f
  {
    Regroup(z, a, b + (c + (d + (e + f))));
    Regroup5(z + a, b, c, d, e, f);
  }

  lemma DynamicEncodes(c: Dynamic, tokens: seq<Op>, out: seq<nat>, plain: seq<nat>)
    requires Tokenize.AreTokens(tokens) && c.Fit(tokens) && Run(out, tokens) == Options.Some(out + plain)
    ensures c.literals <= |c.lit| && c.distances <= |c.dist| && 257 <= c.literals && 1 <= c.distances && |c.pre| == 19 && 4 <= c.count <= 19
    ensures var lit, dist := c.lit[..c.literals], c.dist[..c.distances];
      Encodes(SegmentBits(DynamicBits(lit, dist, c.pre, c.count), tokens, lit, dist), out, plain)
  {
    hide Run, Encodes, SegmentBits, DynamicBits, Opens, Codes, Spelled, Fits, DynamicHeader.Trimmed, LengthIndex, DistanceIndex;
    var lit, dist := c.lit[..c.literals], c.dist[..c.distances];
    DynamicOpens(lit, dist, c.pre, c.count);
    forall i | 0 <= i < |tokens| ensures Covers(tokens[i], lit, dist) {
      assert Tokenize.IsToken(tokens[i]) && Covers(tokens[i], c.lit, c.dist);
    }
    SegmentEncodes(DynamicBits(lit, dist, c.pre, c.count), tokens, lit, dist, DynamicHuffman, out, plain);
  }

  method EncodeDynamic(tokens: seq<Op>, ghost out: seq<nat>, ghost plain: seq<nat>) returns (r: seq<Byte>)
    requires Tokenize.AreTokens(tokens) && Run(out, tokens) == Options.Some(out + plain) && |tokens| < 0xFFFF_FFFF
    ensures Encodes(Packed(r), out, plain)
  {
    hide BitWriter.Valid, BitWriter.Written, Packed, Run, Encodes, Spelled, TokensBits, Progress, StoredBits, DynamicBits, CodesOf, Fits, Announced, Behind, Short, TokenBits, Covers;
    var c := ChooseCodes(tokens);
    DynamicEncodes(c, tokens, out, plain);
    var litCodes, distCodes, preCodes := CodeTables(c, tokens);
    var output := new BitWriter();
    ghost var lit, dist := c.lit[..c.literals], c.dist[..c.distances];
    WriteHeader(output, c, preCodes);
    ghost var head := DynamicBits(lit, dist, c.pre, c.count);
    assert [] + head == head;
    ProgressStart(head, tokens, lit, dist);
    for k := 0 to |tokens|
      invariant fresh(output) && output.Valid() && Progress(head, output.Written(), tokens, k, lit, dist)
    {
      assert Tokenize.IsToken(tokens[k]) && Covers(tokens[k], c.lit, c.dist);
      ProgressStep(head, output.Written(), tokens, k, lit, dist);
      WriteToken(output, tokens[k], c.lit, litCodes, c.dist, distCodes, lit, dist);
    }
    ProgressEnd(head, output.Written(), tokens, lit, dist);
    BehindCode(c.lit, lit, 256);
    WriteCode(output, 256, litCodes, c.lit);
    SyncBoundary(output);
    NoPadding(output.Written());
    r := output.FinishAligned();
  }

  method CodeTables(c: Dynamic, ghost tokens: seq<Op>) returns (litCodes: seq<nat>, distCodes: seq<nat>, preCodes: seq<nat>)
    requires Tokenize.AreTokens(tokens) && c.Fit(tokens)
    ensures CodesOf(c.lit, litCodes) && CodesOf(c.dist, distCodes) && CodesOf(c.pre, preCodes)
  {
    hide CodesOf, Fits, Announced, Spelled, Covers;
    litCodes := HuffmanCodes(c.lit, 15);
    distCodes := HuffmanCodes(c.dist, 15);
    preCodes := HuffmanCodes(c.pre, 7);
  }
}
