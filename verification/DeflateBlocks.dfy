/** DEFLATE blocks as RFC 1951 section 3.2 lays them out: what their bits mean, and the decoder that reads them. */
module DeflateBlocks {
  import opened Bytes
  import opened Seqs
  import opened Sums
  import opened BitStream
  import opened LsbStream
  import opened InflateTable
  import opened Inflate
  import Canonical

  const LENGTH_BASE: seq<nat> := [3, 4, 5, 6, 7, 8, 9, 10, 11, 13, 15, 17, 19, 23, 27, 31, 35, 43, 51, 59, 67, 83, 99, 115, 131, 163, 195, 227, 258]
  const LENGTH_EXTRA: seq<nat> := [0, 0, 0, 0, 0, 0, 0, 0, 1, 1, 1, 1, 2, 2, 2, 2, 3, 3, 3, 3, 4, 4, 4, 4, 5, 5, 5, 5, 0]
  const DISTANCE_BASE: seq<nat> := [1, 2, 3, 4, 5, 7, 9, 13, 17, 25, 33, 49, 65, 97, 129, 193, 257, 385, 513, 769, 1025, 1537, 2049, 3073, 4097, 6145, 8193, 12289, 16385, 24577]
  const DISTANCE_EXTRA: seq<nat> := [0, 0, 0, 0, 1, 1, 2, 2, 3, 3, 4, 4, 5, 5, 6, 6, 7, 7, 8, 8, 9, 9, 10, 10, 11, 11, 12, 12, 13, 13]
  const CODE_LENGTH_ORDER: seq<nat> := [16, 17, 18, 0, 8, 7, 9, 6, 10, 5, 11, 4, 12, 3, 13, 2, 14, 1, 15]

  const LENGTHS: nat := 29
  const DISTANCES: nat := 30

  function LengthBase(i: nat): nat requires i < LENGTHS { LENGTH_BASE[i] }

  function LengthExtra(i: nat): (e: nat)
    requires i < LENGTHS
    ensures e <= 5
  {
    LENGTH_EXTRA[i]
  }

  function DistanceBase(i: nat): nat requires i < DISTANCES { DISTANCE_BASE[i] }

  function DistanceExtra(i: nat): (e: nat)
    requires i < DISTANCES
    ensures e <= 13
  {
    DISTANCE_EXTRA[i]
  }

  // ----- Specification -----

  datatype OpsResult = OpsDone(ops: seq<Op>, at: nat) | OpsBad(ops: seq<Op>)

  lemma SmallPowers()
    ensures Pow2(0) == 1 && Pow2(1) == 2 && Pow2(2) == 4 && Pow2(3) == 8 && Pow2(4) == 16 && Pow2(5) == 32 && Pow2(6) == 64
    ensures Pow2(7) == 128 && Pow2(8) == 256 && Pow2(9) == 512 && Pow2(10) == 1024 && Pow2(11) == 2048 && Pow2(12) == 4096 && Pow2(13) == 8192
  {
    assert Pow2(5) == 32 && Pow2(10) == 1024;
  }

  /** Extra bits never reach the next symbol's base. */
  lemma LengthRange(i: nat)
    requires i < LENGTHS
    ensures 3 <= LengthBase(i) && LengthBase(i) + Pow2(LengthExtra(i)) <= 259
    ensures i < 27 ==> LengthBase(i) + Pow2(LengthExtra(i)) <= LengthBase(i + 1)
  {
    SmallPowers();
  }

  lemma DistanceRange(i: nat)
    requires i < DISTANCES
    ensures 1 <= DistanceBase(i) && DistanceBase(i) + Pow2(DistanceExtra(i)) <= 32769
    ensures i < 29 ==> DistanceBase(i) + Pow2(DistanceExtra(i)) <= DistanceBase(i + 1)
  {
    SmallPowers();
  }

  lemma FieldBound(s: seq<bool>, at: nat, count: nat)
    ensures ReadField(s, at, count).Got? ==> ReadField(s, at, count).value < Pow2(count)
  {
    if ReadField(s, at, count).Got? {
      LsbBound(s[at..at + count]);
    }
  }

  /** A match: length symbol with its extra bits, then distance symbol with its. */
  ghost function ParseMatch(s: seq<bool>, at: nat, symbol: nat, dist: seq<nat>): (r: Read<Op>)
    requires 257 <= symbol <= 285
    ensures r.Got? ==> r.value.Copy? && at < r.at <= |s|
  {
    var lengthExtra := ReadField(s, at, LengthExtra(symbol - 257));
    if lengthExtra.Bad? then Bad else
      var d := NextSym(dist, s, lengthExtra.at);
      if d.Bad? || d.value >= DISTANCES then Bad else
        var distanceExtra := ReadField(s, d.at, DistanceExtra(d.value));
        if distanceExtra.Bad? then Bad else
          Got(Copy(DistanceBase(d.value) + distanceExtra.value, LengthBase(symbol - 257) + lengthExtra.value), distanceExtra.at)
  }

  /** Every match has length 3..258 and distance 1..32768. */
  lemma MatchRange(s: seq<bool>, at: nat, symbol: nat, dist: seq<nat>)
    requires 257 <= symbol <= 285
    ensures var r := ParseMatch(s, at, symbol, dist); r.Got? ==> 3 <= r.value.length <= 258 && 1 <= r.value.distance <= 32768
  {
    hide NextSym, Pow2, ReadField, LengthBase, LengthExtra, DistanceBase, DistanceExtra;
    var i := symbol - 257;
    LengthOf(i, s, at);
    var lengthExtra := ReadField(s, at, LengthExtra(i));
    if lengthExtra.Got? {
      var d := NextSym(dist, s, lengthExtra.at);
      if d.Got? && d.value < DISTANCES {
        DistanceOf(d.value, s, d.at);
      }
    }
  }

  lemma LengthOf(i: nat, s: seq<bool>, at: nat)
    requires i < LENGTHS
    ensures ReadField(s, at, LengthExtra(i)).Got? ==> 3 <= LengthBase(i) + ReadField(s, at, LengthExtra(i)).value <= 258
  {
    hide Pow2, ReadField, LengthBase, LengthExtra, DistanceBase, DistanceExtra;
    LengthRange(i);
    FieldBound(s, at, LengthExtra(i));
  }

  lemma DistanceOf(i: nat, s: seq<bool>, at: nat)
    requires i < DISTANCES
    ensures ReadField(s, at, DistanceExtra(i)).Got? ==> 1 <= DistanceBase(i) + ReadField(s, at, DistanceExtra(i)).value <= 32768
  {
    hide Pow2, ReadField, LengthBase, LengthExtra, DistanceBase, DistanceExtra;
    DistanceRange(i);
    FieldBound(s, at, DistanceExtra(i));
  }

  /** Literals and matches up to the end-of-block symbol. */
  ghost function ParseOps(s: seq<bool>, at: nat, lit: seq<nat>, dist: seq<nat>, ops: seq<Op>): (r: OpsResult)
    requires at <= |s|
    ensures r.OpsDone? ==> at < r.at <= |s|
    ensures ops <= r.ops
    decreases |s| - at
  {
    var symbol := NextSym(lit, s, at);
    if symbol.Bad? then OpsBad(ops)
    else if symbol.value < 256 then ParseOps(s, symbol.at, lit, dist, ops + [Literal(symbol.value)])
    else if symbol.value == 256 then OpsDone(ops, symbol.at)
    else if symbol.value > 285 then OpsBad(ops) else
      var m := ParseMatch(s, symbol.at, symbol.value, dist);
      if m.Bad? then OpsBad(ops) else ParseOps(s, m.at, lit, dist, ops + [m.value])
  }

  /** The code length code's own lengths, in their transmission order. */
  function ParsePrecode(s: seq<bool>, at: nat, count: nat, k: nat, lens: seq<nat>): (r: Read<seq<nat>>)
    requires k <= count <= 19 && |lens| == 19 && at <= |s|
    ensures r.Got? ==> |r.value| == 19 && at <= r.at <= |s|
    decreases count - k
  {
    if k == count then Got(lens, at) else
      var l := ReadField(s, at, 3);
      if l.Bad? then Bad else ParsePrecode(s, l.at, count, k + 1, lens[CODE_LENGTH_ORDER[k] := l.value])
  }

  function Repeated(value: nat, count: nat): (r: seq<nat>)
    ensures |r| == count && forall i :: 0 <= i < count ==> r[i] == value
  {
    seq(count, i => value)
  }

  /** One length, or a repeat of `value` whose count has `extra` bits over `base`. */
  function ParseRepeat(s: seq<bool>, at: nat, lens: seq<nat>, total: nat, value: nat, base: nat, extra: nat): (r: Read<seq<nat>>)
    requires base >= 1
    ensures r.Got? ==> |lens| < |r.value| <= total && at <= r.at <= |s|
  {
    var n := ReadField(s, at, extra);
    if n.Bad? || |lens| + base + n.value > total then Bad else Got(lens + Repeated(value, base + n.value), n.at)
  }

  ghost function ParseLengths(s: seq<bool>, at: nat, code: seq<nat>, lens: seq<nat>, total: nat): (r: Read<seq<nat>>)
    requires at <= |s| && |lens| <= total
    ensures r.Got? ==> |r.value| == total && at <= r.at <= |s|
    decreases total - |lens|
  {
    if |lens| == total then Got(lens, at) else
      var symbol := NextSym(code, s, at);
      if symbol.Bad? then Bad
      else if symbol.value <= 15 then ParseLengths(s, symbol.at, code, lens + [symbol.value], total)
      else
        var more :=
          if symbol.value == 16 then (if lens == [] then Bad else ParseRepeat(s, symbol.at, lens, total, lens[|lens| - 1], 3, 2))
          else if symbol.value == 17 then ParseRepeat(s, symbol.at, lens, total, 0, 3, 3)
          else if symbol.value == 18 then ParseRepeat(s, symbol.at, lens, total, 0, 11, 7)
          else Bad;
        if more.Bad? then Bad else ParseLengths(s, more.at, code, more.value, total)
  }

  /** The two codes of a dynamic block. */
  datatype CodePair = CodePair(lit: seq<nat>, dist: seq<nat>)

  ghost function ParseDynamic(s: seq<bool>, at: nat): (r: Read<CodePair>)
    requires at <= |s|
    ensures r.Got? ==> at <= r.at <= |s| && Codes(r.value.lit) && Codes(r.value.dist) && |r.value.lit| <= 288 && |r.value.dist| <= 32
  {
    var literalCount := ReadField(s, at, 5);
    if literalCount.Bad? then Bad else
      var distanceCount := ReadField(s, literalCount.at, 5);
      if distanceCount.Bad? then Bad else
        var codeCount := ReadField(s, distanceCount.at, 4);
        if codeCount.Bad? then Bad else
          CountBounds(s, at);
          ParseCodes(s, codeCount.at, literalCount.value + 257, distanceCount.value + 1, codeCount.value + 4)
  }

  lemma CountBounds(s: seq<bool>, at: nat)
    ensures ReadField(s, at, 5).Got? ==> ReadField(s, at, 5).value < 32
    ensures ReadField(s, at + 5, 5).Got? ==> ReadField(s, at + 5, 5).value < 32
    ensures ReadField(s, at + 10, 4).Got? ==> ReadField(s, at + 10, 4).value < 16
  {
    assert Pow2(5) == 32 && Pow2(4) == 16;
    if at + 5 <= |s| { LsbBound(s[at..at + 5]); }
    if at + 10 <= |s| { LsbBound(s[at + 5..at + 5 + 5]); }
    if at + 14 <= |s| { LsbBound(s[at + 10..at + 10 + 4]); }
  }

  ghost function ParseCodes(s: seq<bool>, at: nat, literals: nat, distances: nat, codes: nat): (r: Read<CodePair>)
    requires at <= |s| && 257 <= literals <= 288 && 1 <= distances <= 32 && codes <= 19
    ensures r.Got? ==> at <= r.at <= |s| && Codes(r.value.lit) && Codes(r.value.dist) && |r.value.lit| == literals && |r.value.dist| == distances
  {
    var pre := ParsePrecode(s, at, codes, 0, Repeated(0, 19));
    if pre.Bad? || !Codes(pre.value) then Bad else
      var all := ParseLengths(s, pre.at, pre.value, [], literals + distances);
      if all.Bad? || all.value[256] == 0 || !Codes(all.value[..literals]) || !Codes(all.value[literals..]) then Bad
      else Got(CodePair(all.value[..literals], all.value[literals..]), all.at)
  }

  function FixedLiteral(): (ls: seq<nat>)
    ensures |ls| == 288 && forall i :: 0 <= i < 288 ==> ls[i] == if i < 144 then 8 else if i < 256 then 9 else if i < 280 then 7 else 8
  {
    seq(288, i => if i < 144 then 8 else if i < 256 then 9 else if i < 280 then 7 else 8)
  }

  function FixedDistance(): (ls: seq<nat>)
    ensures |ls| == 32 && forall i :: 0 <= i < 32 ==> ls[i] == 5
  {
    seq(32, i => 5)
  }

  function Aligned(at: nat): (a: nat)
    ensures a % 8 == 0 && at <= a < at + 8
  {
    (at + 7) / 8 * 8
  }

  function ByteAt(s: seq<bool>, at: nat): Byte
    requires at + 8 <= |s|
  {
    LsbBound(s[at..at + 8]);
    Pow2Values();
    LsbValue(s[at..at + 8])
  }

  function BytesAt(s: seq<bool>, at: nat, n: nat): (b: seq<Byte>)
    requires at + 8 * n <= |s|
    ensures |b| == n
  {
    seq(n, i requires 0 <= i < n => ByteAt(s, at + 8 * i))
  }

  /** A stored block: its length, the complement, and the bytes. */
  function ParseStored(s: seq<bool>, at: nat): (r: Read<seq<Byte>>)
    ensures r.Got? ==> at < r.at <= |s| && |r.value| <= 65535
  {
    var length := ReadField(s, Aligned(at), 16);
    if length.Bad? then Bad else
      var complement := ReadField(s, length.at, 16);
      SixteenBits(s, Aligned(at));
      if complement.Bad? || complement.value != 65535 - length.value || complement.at + 8 * length.value > |s| then Bad
      else Got(BytesAt(s, complement.at, length.value), complement.at + 8 * length.value)
  }

  lemma SixteenBits(s: seq<bool>, at: nat)
    ensures ReadField(s, at, 16).Got? ==> ReadField(s, at, 16).value <= 65535
  {
    Pow2Values();
    if at + 16 <= |s| {
      LsbBound(s[at..at + 16]);
    }
  }

  ghost function FromOps(r: OpsResult, kind: BlockKind, final: bool): BlockParse
  {
    match r
    case OpsDone(ops, end) => BlockParse(ops, Complete(kind, final, end))
    case OpsBad(ops) => BlockParse(ops, Broken)
  }

  /** What the bits of a block mean. */
  ghost function ParseBlock(s: seq<bool>, at: nat): BlockParse
  {
    var final := ReadField(s, at, 1);
    if final.Bad? then BlockParse([], Broken) else
      var kind := ReadField(s, final.at, 2);
      if kind.Bad? then BlockParse([], Broken)
      else if kind.value == 0 then
        var stored := ParseStored(s, kind.at);
        if stored.Bad? then BlockParse([], Broken) else BlockParse([Raw(stored.value)], Complete(StoredBlock, final.value != 0, stored.at))
      else if kind.value == 1 then FromOps(ParseOps(s, kind.at, FixedLiteral(), FixedDistance(), []), FixedHuffman, final.value != 0)
      else if kind.value == 2 then
        var codes := ParseDynamic(s, kind.at);
        if codes.Bad? then BlockParse([], Broken)
        else FromOps(ParseOps(s, codes.at, codes.value.lit, codes.value.dist, []), DynamicHuffman, final.value != 0)
      else BlockParse([], Broken)
  }

  /** The block parser of a byte buffer. */
  ghost function ParserOf(data: seq<Byte>): Parser
  {
    (at: nat) => ParseBlock(Packed(data), at)
  }

  ghost predicate GoodOps(ops: seq<Op>)
  {
    forall i :: 0 <= i < |ops| ==> (ops[i].Copy? ==> 3 <= ops[i].length <= 258 && 1 <= ops[i].distance <= 32768) && Growth(ops[i]) <= 65536
  }

  lemma {:induction false} OpsGood(s: seq<bool>, at: nat, lit: seq<nat>, dist: seq<nat>, ops: seq<Op>)
    requires at <= |s| && GoodOps(ops)
    ensures GoodOps(ParseOps(s, at, lit, dist, ops).ops)
    decreases |s| - at
  {
    hide NextSym, ParseMatch;
    var symbol := NextSym(lit, s, at);
    if symbol.Got? && symbol.value < 256 {
      OpsGood(s, symbol.at, lit, dist, ops + [Literal(symbol.value)]);
    } else if symbol.Got? && 256 < symbol.value <= 285 {
      var m := ParseMatch(s, symbol.at, symbol.value, dist);
      if m.Got? {
        MatchRange(s, symbol.at, symbol.value, dist);
        OpsGood(s, m.at, lit, dist, ops + [m.value]);
      }
    }
  }

  /** Every block consumes bits, and its operations are bounded as DEFLATE promises. */
  lemma BlockGood(s: seq<bool>, at: nat)
    ensures GoodOps(ParseBlock(s, at).ops)
    ensures ParseBlock(s, at).ending.Complete? ==> at < ParseBlock(s, at).ending.end <= |s|
  {
    hide ParseOps, ParseDynamic, ParseStored;
    var final := ReadField(s, at, 1);
    if final.Got? {
      var kind := ReadField(s, final.at, 2);
      if kind.Got? {
        OpsGood(s, kind.at, FixedLiteral(), FixedDistance(), []);
        var codes := ParseDynamic(s, kind.at);
        if codes.Got? {
          OpsGood(s, codes.at, codes.value.lit, codes.value.dist, []);
        }
      }
    }
  }

  lemma ParserGood(data: seq<Byte>)
    ensures Proper(ParserOf(data), 8 * |data|)
    ensures forall at: nat, i :: 0 <= i < |ParserOf(data)(at).ops| ==> Growth(ParserOf(data)(at).ops[i]) <= 65536
  {
    hide ParseBlock;
    var parse := ParserOf(data);
    forall at: nat
      ensures parse(at).ending.Complete? ==> at < parse(at).ending.end <= 8 * |data|
      ensures GoodOps(parse(at).ops)
    {
      BlockGood(Packed(data), at);
    }
  }
}
