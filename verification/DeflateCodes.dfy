/** The DEFLATE encoder's codes, and why reading what it writes gives the tokens back. */
module DeflateCodes {
  import opened Bytes
  import opened Seqs
  import opened Sums
  import opened BitStream
  import opened LsbStream
  import opened Canonical
  import opened InflateTable
  import opened Inflate
  import opened DeflateBlocks
  import FixedCode
  import Huffman
  import Tokenize

  // ----- Symbols of lengths and distances -----

  /** The last base that the value reaches. */
  function IndexFor(value: nat, bases: seq<nat>): (i: nat)
    requires bases != [] && bases[0] <= value
    ensures i < |bases| && bases[i] <= value && forall j :: i < j < |bases| ==> value < bases[j]
  {
    var n := |bases| - 1;
    if value >= bases[n] then n else IndexFor(value, bases[..n])
  }

  method SymbolFor(value: nat, bases: seq<nat>, extras: seq<nat>) returns (index: nat, extra: nat, bits: nat)
    requires |bases| == |extras| > 0 && bases[0] <= value
    ensures index == IndexFor(value, bases) && extra == value - bases[index] && bits == extras[index]
  {
    index := |bases| - 1;
    while value < bases[index]
      invariant 0 <= index < |bases| && forall j :: index < j < |bases| ==> value < bases[j]
      decreases index
    {
      index := index - 1;
    }
    extra, bits := value - bases[index], extras[index];
  }

  function LengthIndex(length: nat): (i: nat)
    requires length >= 3
    ensures i < LENGTHS && LengthBase(i) <= length
  {
    IndexFor(length, LENGTH_BASE)
  }

  function DistanceIndex(distance: nat): (i: nat)
    requires distance >= 1
    ensures i < DISTANCES && DistanceBase(i) <= distance
  {
    IndexFor(distance, DISTANCE_BASE)
  }

  lemma LengthReach(i: nat)
    requires i < LENGTHS - 1
    ensures LengthBase(i + 1) <= LengthBase(i) + Pow2(LengthExtra(i))
  {
    SmallPowers();
  }

  lemma DistanceReach(i: nat)
    requires i < DISTANCES
    ensures (if i < 29 then DistanceBase(i + 1) else 32769) <= DistanceBase(i) + Pow2(DistanceExtra(i))
  {
    SmallPowers();
  }

  /** The rest of a length over its base fits in the symbol's extra bits. */
  lemma LengthFits(length: nat)
    requires 3 <= length <= 258
    ensures var i := LengthIndex(length); length - LengthBase(i) < Pow2(LengthExtra(i))
  {
    hide Pow2, LengthExtra;
    var i := LengthIndex(length);
    if i < LENGTHS - 1 {
      LengthReach(i);
      assert length < LENGTH_BASE[i + 1];
    }
  }

  lemma DistanceFits(distance: nat)
    requires 1 <= distance <= 32768
    ensures var i := DistanceIndex(distance); distance - DistanceBase(i) < Pow2(DistanceExtra(i))
  {
    hide Pow2, DistanceExtra;
    var i := DistanceIndex(distance);
    DistanceReach(i);
    if i < 29 {
      assert distance < DISTANCE_BASE[i + 1];
    }
  }

  // ----- Tokens as bits -----

  /** The symbol has a code word. */
  predicate Coded(ls: seq<nat>, symbol: nat)
  {
    symbol < |ls| && ls[symbol] >= 1
  }

  function Spelled(ls: seq<nat>, symbol: nat): seq<bool>
  {
    if symbol < |ls| then Word(ls, symbol) else []
  }

  function CopyBits(distance: nat, length: nat, lit: seq<nat>, dist: seq<nat>): seq<bool>
    requires length >= 3 && distance >= 1
  {
    var l, d := LengthIndex(length), DistanceIndex(distance);
    Spelled(lit, 257 + l) + (LsbBits(length - LengthBase(l), LengthExtra(l)) + (Spelled(dist, d) + LsbBits(distance - DistanceBase(d), DistanceExtra(d))))
  }

  function TokenBits(op: Op, lit: seq<nat>, dist: seq<nat>): seq<bool>
    requires Tokenize.IsToken(op)
  {
    if op.Literal? then Spelled(lit, op.byte) else CopyBits(op.distance, op.length, lit, dist)
  }

  /** The tokens from the `k`-th on, and the end-of-block symbol. */
  ghost function TokensBits(ops: seq<Op>, k: nat, lit: seq<nat>, dist: seq<nat>): seq<bool>
    requires k <= |ops| && Tokenize.AreTokens(ops)
    decreases |ops| - k
  {
    if k == |ops| then Spelled(lit, 256) else TokenBits(ops[k], lit, dist) + TokensBits(ops, k + 1, lit, dist)
  }

  /** Both codes have a word for every symbol the token needs. */
  predicate Covers(op: Op, lit: seq<nat>, dist: seq<nat>)
    requires Tokenize.IsToken(op)
  {
    if op.Literal? then Coded(lit, op.byte) else Coded(lit, 257 + LengthIndex(op.length)) && Coded(dist, DistanceIndex(op.distance))
  }

  ghost predicate CoversAll(ops: seq<Op>, lit: seq<nat>, dist: seq<nat>)
    requires Tokenize.AreTokens(ops)
  {
    Coded(lit, 256) && forall i :: 0 <= i < |ops| ==> Covers(ops[i], lit, dist)
  }

  // ----- Reading back -----

  /** A written code word reads as its symbol. */
  lemma WordBack(ls: seq<nat>, s: seq<bool>, at: nat, symbol: nat)
    requires Codes(ls) && Coded(ls, symbol) && Has(s, at, Spelled(ls, symbol))
    ensures |Spelled(ls, symbol)| == ls[symbol] && NextSym(ls, s, at) == Got(symbol, at + ls[symbol])
  {
    hide Word, Fits;
    NextSymIs(ls, s, at, symbol);
  }

  lemma CopyBack(s: seq<bool>, at: nat, distance: nat, length: nat, lit: seq<nat>, dist: seq<nat>, after: nat)
    requires 3 <= length <= 258 && 1 <= distance <= 32768 && Codes(lit) && Codes(dist)
    requires Covers(Copy(distance, length), lit, dist) && Has(s, at, CopyBits(distance, length, lit, dist))
    requires after == at + |CopyBits(distance, length, lit, dist)|
    ensures var symbol := 257 + LengthIndex(length);
      symbol < |lit| && NextSym(lit, s, at) == Got(symbol, at + lit[symbol]) && ParseMatch(s, at + lit[symbol], symbol, dist) == Got(Copy(distance, length), after)
  {
    hide Word, Codes, LengthBase, LengthExtra, DistanceBase, DistanceExtra, LengthIndex, DistanceIndex, Pow2, NextSym, ReadField, LsbBits, Has;
    var l, d := LengthIndex(length), DistanceIndex(distance);
    var a, b := Spelled(lit, 257 + l), LsbBits(length - LengthBase(l), LengthExtra(l));
    var c, e := Spelled(dist, d), LsbBits(distance - DistanceBase(d), DistanceExtra(d));
    HasSplit(s, at, a, b + (c + e));
    HasSplit(s, at + |a|, b, c + e);
    HasSplit(s, at + |a| + |b|, c, e);
    WordBack(lit, s, at, 257 + l);
    LengthFits(length);
    FieldBack(s, at + |a|, length - LengthBase(l), LengthExtra(l));
    WordBack(dist, s, at + |a| + |b|, d);
    DistanceFits(distance);
    FieldBack(s, at + |a| + |b| + |c|, distance - DistanceBase(d), DistanceExtra(d));
  }

  /** Reading one written token appends it. */
  lemma TokenBack(s: seq<bool>, at: nat, op: Op, lit: seq<nat>, dist: seq<nat>, ops: seq<Op>)
    requires Tokenize.IsToken(op) && Codes(lit) && Codes(dist) && Covers(op, lit, dist)
    requires Has(s, at, TokenBits(op, lit, dist))
    ensures at <= at + |TokenBits(op, lit, dist)| <= |s|
    ensures ParseOps(s, at, lit, dist, ops) == ParseOps(s, at + |TokenBits(op, lit, dist)|, lit, dist, ops + [op])
  {
    hide Word, Codes, LengthIndex, DistanceIndex, NextSym, CopyBits, ParseMatch;
    match op
    case Literal(b) => WordBack(lit, s, at, b);
    case Copy(distance, length) => CopyBack(s, at, distance, length, lit, dist, at + |TokenBits(op, lit, dist)|);
  }

  lemma EndBack(s: seq<bool>, at: nat, lit: seq<nat>, dist: seq<nat>, ops: seq<Op>)
    requires Codes(lit) && Coded(lit, 256) && Has(s, at, Spelled(lit, 256))
    ensures at <= |s| && ParseOps(s, at, lit, dist, ops) == OpsDone(ops, at + lit[256])
  {
    hide Word, Codes, NextSym, ParseMatch;
    WordBack(lit, s, at, 256);
  }

  /** Reading the written tokens gives the tokens, and stops after the end-of-block symbol. */
  lemma {:induction false} TokensBack(s: seq<bool>, at: nat, ops: seq<Op>, k: nat, lit: seq<nat>, dist: seq<nat>)
    requires k <= |ops| && Tokenize.AreTokens(ops) && Codes(lit) && Codes(dist) && CoversAll(ops, lit, dist)
    requires Has(s, at, TokensBits(ops, k, lit, dist))
    ensures at <= |s| && ParseOps(s, at, lit, dist, ops[..k]) == OpsDone(ops, at + |TokensBits(ops, k, lit, dist)|)
    decreases |ops| - k
  {
    hide Word, Codes, Covers, TokenBits, ParseOps;
    if k == |ops| {
      EndBack(s, at, lit, dist, ops);
      assert ops[..k] == ops;
    } else {
      var bits := TokenBits(ops[k], lit, dist);
      HasSplit(s, at, bits, TokensBits(ops, k + 1, lit, dist));
      TokensBack(s, at + |bits|, ops, k + 1, lit, dist);
      assert ops[..k] + [ops[k]] == ops[..k + 1];
      assert Tokenize.IsToken(ops[k]) && Covers(ops[k], lit, dist);
      TokenBack(s, at, ops[k], lit, dist, ops[..k]);
    }
  }

  // ----- Code tables -----

  /** The codes as written, first bit lowest. */
  ghost predicate CodesOf(ls: seq<nat>, codes: seq<nat>)
  {
    |codes| == |ls| && forall i :: 0 <= i < |ls| ==> codes[i] == if ls[i] == 0 then 0 else Reversed(Code(ls, i), ls[i])
  }

  /** The counts of each length within the first `k` symbols. */
  ghost predicate Counted(ls: seq<nat>, k: nat, counts: seq<nat>, max: nat)
    requires k <= |ls|
  {
    |counts| == max + 1 && counts[0] == 0 && forall l :: 1 <= l <= max ==> counts[l] == CountLen(ls[..k], l)
  }

  lemma CountedStep(ls: seq<nat>, k: nat, counts: seq<nat>, max: nat)
    requires k < |ls| && Counted(ls, k, counts, max) && ls[k] <= max
    ensures |counts| == max + 1 && Counted(ls, k + 1, if ls[k] == 0 then counts else counts[ls[k] := counts[ls[k]] + 1], max)
  {
    hide CountLen;
    forall l ensures CountLen(ls[..k + 1], l) == CountLen(ls[..k], l) + if ls[k] == l then 1 else 0 {
      CountStep(ls, k, l);
    }
  }

  /** The next unassigned code of each length after the first `k` symbols. */
  ghost predicate NextFree(ls: seq<nat>, k: nat, next: seq<nat>, max: nat)
    requires k <= |ls|
  {
    |next| == max + 1 && forall l :: 1 <= l <= max ==> next[l] == First(ls, l) + CountLen(ls[..k], l)
  }

  lemma NextFreeStep(ls: seq<nat>, k: nat, next: seq<nat>, max: nat)
    requires k < |ls| && NextFree(ls, k, next, max) && 1 <= ls[k] <= max
    ensures |next| == max + 1 && next[ls[k]] == Code(ls, k) && NextFree(ls, k + 1, next[ls[k] := next[ls[k]] + 1], max)
  {
    hide CountLen, First;
    forall l ensures CountLen(ls[..k + 1], l) == CountLen(ls[..k], l) + if ls[k] == l then 1 else 0 {
      CountStep(ls, k, l);
    }
  }

  lemma NextFreeSkip(ls: seq<nat>, k: nat, next: seq<nat>, max: nat)
    requires k < |ls| && NextFree(ls, k, next, max) && ls[k] == 0
    ensures NextFree(ls, k + 1, next, max)
  {
    hide CountLen, First;
    forall l | 1 <= l ensures CountLen(ls[..k + 1], l) == CountLen(ls[..k], l) {
      CountStep(ls, k, l);
    }
  }

  /** First codes fit sixteen bits, so the encoder's 16-bit arithmetic is exact. */
  lemma FirstBound(ls: seq<nat>, max: nat, l: nat)
    requires Fits(ls, max) && 1 <= l <= max <= 15
    ensures First(ls, l) <= 32768
  {
    hide CountLen, First;
    Huffman.FirstUnfold(ls, l);
    Pow2Monotone(l, 15);
    assert Pow2(15) == 32768;
    if l >= 2 {
      assert Next(ls, l - 1) <= Pow2(l - 1);
      Pow2Step(l - 1);
    }
  }

  method FirstCodes(ls: seq<nat>, max: nat) returns (next: seq<nat>)
    requires 1 <= max <= 15 && Fits(ls, max) && forall i :: 0 <= i < |ls| ==> ls[i] <= max
    ensures NextFree(ls, 0, next, max)
  {
    hide CountLen, First, Fits;
    var counts: seq<nat> := seq(max + 1, _ => 0);
    assert ls[..0] == [];
    NoCounts();
    for i := 0 to |ls|
      invariant Counted(ls, i, counts, max)
    {
      hide Counted;
      CountedStep(ls, i, counts, max);
      if ls[i] != 0 {
        counts := counts[ls[i] := counts[ls[i]] + 1];
      }
    }
    assert ls[..|ls|] == ls;
    next := seq(max + 1, _ => 0);
    var code := 0;
    for bits := 1 to max + 1
      invariant |next| == max + 1 && code == if bits == 1 then 0 else First(ls, bits - 1)
      invariant forall l :: 1 <= l < bits ==> next[l] == First(ls, l)
    {
      Huffman.FirstUnfold(ls, bits);
      code := (code + counts[bits - 1]) * 2;
      FirstBound(ls, max, bits);
      assert code <= 0xFFFF;
      next := next[bits := code];
    }
  }

  lemma NoCounts()
    ensures forall l :: CountLen([], l) == 0
  {
  }

  method HuffmanCodes(ls: seq<nat>, max: nat) returns (codes: seq<nat>)
    requires 1 <= max <= 15 && Fits(ls, max) && forall i :: 0 <= i < |ls| ==> ls[i] <= max
    ensures CodesOf(ls, codes)
  {
    hide NextFree, Fits, Reversed, Code;
    var next := FirstCodes(ls, max);
    codes := [];
    for i := 0 to |ls|
      invariant NextFree(ls, i, next, max) && |codes| == i
      invariant forall j :: 0 <= j < i ==> codes[j] == if ls[j] == 0 then 0 else Reversed(Code(ls, j), ls[j])
    {
      var length := ls[i];
      if length == 0 {
        NextFreeSkip(ls, i, next, max);
        codes := codes + [0];
      } else {
        NextFreeStep(ls, i, next, max);
        var code := next[length];
        next := next[length := next[length] + 1];
        codes := codes + [ReverseLowBits(code, length)];
      }
    }
  }

  /** Writing a code writes its word. */
  lemma CodeIsWord(ls: seq<nat>, codes: seq<nat>, symbol: nat)
    requires CodesOf(ls, codes) && symbol < |ls| && ls[symbol] >= 1
    ensures codes[symbol] < Pow2(ls[symbol]) && LsbBits(codes[symbol], ls[symbol]) == Word(ls, symbol)
  {
    hide Code, BitsOf, LsbBits, Pow2;
    WordUnfold(ls, symbol);
  }

  /** The fixed code's word of a literal or length symbol, and its size. */
  function FixedSymbol(symbol: nat): (r: (nat, nat))
    requires symbol < 288
    ensures r.0 < Pow2(r.1) && r.1 == FixedLiteral()[symbol] && LsbBits(r.0, r.1) == Word(FixedLiteral(), symbol)
  {
    FixedCode.LiteralCode(symbol);
    hide Code, Pow2, LsbBits, BitsOf;
    WordUnfold(FixedLiteral(), symbol);
    if symbol <= 143 then (ReverseLowBits(0x30 + symbol, 8), 8)
    else if symbol <= 255 then (ReverseLowBits(0x190 + (symbol - 144), 9), 9)
    else if symbol <= 279 then (ReverseLowBits(symbol - 256, 7), 7)
    else (ReverseLowBits(0xC0 + (symbol - 280), 8), 8)
  }

  function FixedDistanceSymbol(symbol: nat): (r: nat)
    requires symbol < 32
    ensures r < Pow2(5) && LsbBits(r, 5) == Word(FixedDistance(), symbol)
  {
    FixedCode.DistanceCode(symbol);
    hide Code, Pow2, LsbBits, BitsOf;
    WordUnfold(FixedDistance(), symbol);
    ReverseLowBits(symbol, 5)
  }
}
