/** The DEFLATE block reader: it yields exactly the operations that the bits specify. */
module InflateReader {
  import opened Bytes
  import opened Seqs
  import opened Sums
  import opened BitStream
  import opened LsbStream
  import opened InflateTable
  import opened Inflate
  import opened DeflateBlocks
  import Canonical
  import FixedCode

  /** What the block reader is called with: the cursor is inside the input. */
  ghost predicate Inside(bits: Bits)
    reads bits
  {
    bits.bit <= |bits.All()|
  }

  method ReadMatch(bits: Bits, symbol: nat, distance: Table, ghost dist: seq<nat>) returns (r: Read<Op>)
    requires Inside(bits) && 257 <= symbol <= 285 && Decodes(dist, distance)
    modifies bits
    ensures r == ParseMatch(bits.All(), old(bits.bit), symbol, dist)
    ensures r.Got? ==> bits.bit == r.at
  {
    hide Decodes, NextSym, Packed, LsbValue, LengthBase, LengthExtra, DistanceBase, DistanceExtra;
    NoField(bits.All(), bits.bit);
    var lengthIndex := symbol - 257;
    var lengthExtra := bits.Read(LengthExtra(lengthIndex));
    if lengthExtra.Bad? {
      return Bad;
    }
    var d := DecodeSymbol(distance, bits, dist);
    if d.Bad? {
      return Bad;
    }
    if d.value >= DISTANCES {
      return Bad;
    }
    NoField(bits.All(), bits.bit);
    var distanceExtra := bits.Read(DistanceExtra(d.value));
    if distanceExtra.Bad? {
      return Bad;
    }
    r := Got(Copy(DistanceBase(d.value) + distanceExtra.value, LengthBase(lengthIndex) + lengthExtra.value), bits.bit);
  }

  lemma NoField(s: seq<bool>, at: nat)
    requires at <= |s|
    ensures ReadField(s, at, 0) == Got(0, at)
  {
  }

  /** Decode symbols into operations until the end of the block. */
  method ReadOps(bits: Bits, literal: Table, distance: Table, ghost lit: seq<nat>, ghost dist: seq<nat>) returns (ops: seq<Op>, ok: bool)
    requires Inside(bits) && Decodes(lit, literal) && Decodes(dist, distance)
    modifies bits
    ensures match ParseOps(bits.All(), old(bits.bit), lit, dist, [])
            case OpsDone(o, at) => ok && ops == o && bits.bit == at
            case OpsBad(o) => !ok && ops == o
  {
    hide Decodes, NextSym, Packed, ParseMatch;
    ops := [];
    while true
      invariant Inside(bits)
      invariant ParseOps(bits.All(), bits.bit, lit, dist, ops) == ParseOps(bits.All(), old(bits.bit), lit, dist, [])
      decreases |bits.All()| - bits.bit
    {
      var symbol := DecodeSymbol(literal, bits, lit);
      if symbol.Bad? {
        return ops, false;
      }
      if symbol.value < 256 {
        ops := ops + [Literal(symbol.value)];
      } else if symbol.value == 256 {
        return ops, true;
      } else if symbol.value <= 285 {
        var m := ReadMatch(bits, symbol.value, distance, dist);
        if m.Bad? {
          return ops, false;
        }
        ops := ops + [m.value];
      } else {
        return ops, false;
      }
    }
  }

  method ReadPrecode(bits: Bits, count: nat) returns (r: Read<seq<nat>>)
    requires Inside(bits) && count <= 19
    modifies bits
    ensures r == ParsePrecode(bits.All(), old(bits.bit), count, 0, Repeated(0, 19))
    ensures r.Got? ==> bits.bit == r.at
  {
    hide Packed, LsbValue;
    var lens: seq<nat> := Repeated(0, 19);
    for k := 0 to count
      invariant Inside(bits) && |lens| == 19
      invariant ParsePrecode(bits.All(), bits.bit, count, k, lens) == ParsePrecode(bits.All(), old(bits.bit), count, 0, Repeated(0, 19))
    {
      var l := bits.Read(3);
      if l.Bad? {
        return Bad;
      }
      lens := lens[CODE_LENGTH_ORDER[k] := l.value];
    }
    r := Got(lens, bits.bit);
  }

  method ReadRepeat(bits: Bits, lens: seq<nat>, total: nat, value: nat, base: nat, extra: nat) returns (r: Read<seq<nat>>)
    requires Inside(bits) && 1 <= extra <= 7 && base >= 1
    modifies bits
    ensures r == ParseRepeat(bits.All(), old(bits.bit), lens, total, value, base, extra)
    ensures r.Got? ==> bits.bit == r.at
  {
    hide Packed, LsbValue;
    var n := bits.Read(extra);
    if n.Bad? {
      return Bad;
    }
    var count := n.value + base;
    if |lens| + count > total {
      return Bad;
    }
    r := Got(lens + Repeated(value, count), bits.bit);
  }

  method ReadLengths(bits: Bits, table: Table, total: nat, ghost code: seq<nat>) returns (r: Read<seq<nat>>)
    requires Inside(bits) && Decodes(code, table)
    modifies bits
    ensures r == ParseLengths(bits.All(), old(bits.bit), code, [], total)
    ensures r.Got? ==> bits.bit == r.at
  {
    hide Decodes, NextSym, Packed, ParseRepeat;
    var lengths: seq<nat> := [];
    while |lengths| < total
      invariant Inside(bits) && |lengths| <= total
      invariant ParseLengths(bits.All(), bits.bit, code, lengths, total) == ParseLengths(bits.All(), old(bits.bit), code, [], total)
      decreases total - |lengths|
    {
      var symbol := DecodeSymbol(table, bits, code);
      if symbol.Bad? {
        return Bad;
      }
      if symbol.value <= 15 {
        lengths := lengths + [symbol.value];
      } else {
        var more: Read<seq<nat>>;
        if symbol.value == 16 {
          if |lengths| == 0 {
            return Bad;
          }
          more := ReadRepeat(bits, lengths, total, lengths[|lengths| - 1], 3, 2);
        } else if symbol.value == 17 {
          more := ReadRepeat(bits, lengths, total, 0, 3, 3);
        } else if symbol.value == 18 {
          more := ReadRepeat(bits, lengths, total, 0, 11, 7);
        } else {
          return Bad;
        }
        if more.Bad? {
          return Bad;
        }
        lengths := more.value;
      }
    }
    r := Got(lengths, bits.bit);
  }

  datatype Tables = Tables(literal: Table, distance: Table) | NoTables

  method ReadDynamic(bits: Bits) returns (t: Tables, ghost codes: CodePair)
    requires Inside(bits)
    modifies bits
    ensures match ParseDynamic(bits.All(), old(bits.bit))
            case Bad => t == NoTables
            case Got(pair, at) => t.Tables? && codes == pair && Decodes(pair.lit, t.literal) && Decodes(pair.dist, t.distance) && bits.bit == at
  {
    hide Packed, LsbValue, Codes, Decodes, ParsePrecode, ParseLengths;
    codes := CodePair([], []);
    ghost var at := bits.bit;
    CountBounds(bits.All(), at);
    var literalCount := bits.Read(5);
    if literalCount.Bad? {
      return NoTables, codes;
    }
    var distanceCount := bits.Read(5);
    if distanceCount.Bad? {
      return NoTables, codes;
    }
    var codeCount := bits.Read(4);
    if codeCount.Bad? {
      return NoTables, codes;
    }
    t, codes := ReadCodes(bits, literalCount.value + 257, distanceCount.value + 1, codeCount.value + 4);
  }

  method ReadCodes(bits: Bits, literals: nat, distances: nat, count: nat) returns (t: Tables, ghost codes: CodePair)
    requires Inside(bits) && 257 <= literals <= 288 && 1 <= distances <= 32 && count <= 19
    modifies bits
    ensures match ParseCodes(bits.All(), old(bits.bit), literals, distances, count)
            case Bad => t == NoTables
            case Got(pair, at) => t.Tables? && codes == pair && Decodes(pair.lit, t.literal) && Decodes(pair.dist, t.distance) && bits.bit == at
  {
    hide Packed, LsbValue, Codes, Decodes, ParsePrecode, ParseLengths;
    codes := CodePair([], []);
    var pre := ReadPrecode(bits, count);
    if pre.Bad? {
      return NoTables, codes;
    }
    var codeTable := New(pre.value);
    if codeTable.Invalid? {
      return NoTables, codes;
    }
    var lengths := ReadLengths(bits, codeTable.table, literals + distances, pre.value);
    if lengths.Bad? {
      return NoTables, codes;
    }
    if lengths.value[256] == 0 {
      return NoTables, codes;
    }
    var literal := New(lengths.value[..literals]);
    if literal.Invalid? {
      return NoTables, codes;
    }
    var distance := New(lengths.value[literals..]);
    if distance.Invalid? {
      return NoTables, codes;
    }
    t := Tables(literal.table, distance.table);
    codes := CodePair(lengths.value[..literals], lengths.value[literals..]);
  }

  method ReadStored(bits: Bits) returns (r: Read<seq<Byte>>)
    requires Inside(bits)
    modifies bits
    ensures r == ParseStored(bits.All(), old(bits.bit))
    ensures r.Got? ==> bits.bit == r.at
  {
    hide Packed, LsbValue, BytesAt;
    SixteenBits(bits.All(), DeflateBlocks.Aligned(bits.bit));
    bits.AlignByte();
    var length := bits.Read(16);
    if length.Bad? {
      return Bad;
    }
    var complement := bits.Read(16);
    if complement.Bad? {
      return Bad;
    }
    if complement.value != 65535 - length.value {
      return Bad;
    }
    ghost var at := bits.bit;
    r := bits.ReadAlignedBytes(length.value);
    if r.Got? {
      BytesAtIsSlice(bits.data, at / 8, length.value);
    }
  }

  lemma BytesAtIsSlice(data: seq<Byte>, start: nat, n: nat)
    requires start + n <= |data|
    ensures BytesAt(Packed(data), 8 * start, n) == data[start..start + n]
  {
    hide Packed, LsbValue;
    var b := BytesAt(Packed(data), 8 * start, n);
    forall i | 0 <= i < n ensures b[i] == data[start + i] {
      ByteIs(data, start + i, 8 * start + 8 * i);
    }
  }

  lemma ByteIs(data: seq<Byte>, i: nat, at: nat)
    requires i < |data| && at == 8 * i
    ensures ByteAt(Packed(data), at) == data[i]
  {
    hide Packed, LsbValue, LsbBits;
    PackedSlice(data, i, i + 1);
    assert data[i..i + 1] == [data[i]];
    OneByte(data[i]);
    Pow2Values();
    ValueOfLsb(data[i], 8);
  }

  /** One block's operations and how it ends, read bit by bit. */
  method ReadBlock(data: seq<Byte>, at: nat) returns (b: BlockParse)
    ensures b == ParseBlock(Packed(data), at)
  {
    hide Packed, LsbValue, Codes, Decodes, ParseOps, ParseDynamic, ParseStored;
    var bits := new Bits(data, at);
    if at > 8 * |data| {
      assert |Packed(data)| == 8 * |data|;
      return BlockParse([], Broken);
    }
    var final := bits.Read(1);
    if final.Bad? {
      return BlockParse([], Broken);
    }
    var kind := bits.Read(2);
    if kind.Bad? {
      return BlockParse([], Broken);
    }
    if kind.value == 0 {
      var stored := ReadStored(bits);
      if stored.Bad? {
        return BlockParse([], Broken);
      }
      b := BlockParse([Raw(stored.value)], Complete(StoredBlock, final.value != 0, bits.bit));
    } else if kind.value == 1 {
      FixedCode.FixedCodes();
      var literal := New(FixedLiteral());
      var distance := New(FixedDistance());
      var ops, ok := ReadOps(bits, literal.table, distance.table, FixedLiteral(), FixedDistance());
      b := BlockParse(ops, if ok then Complete(FixedHuffman, final.value != 0, bits.bit) else Broken);
    } else if kind.value == 2 {
      var t, codes := ReadDynamic(bits);
      if t.NoTables? {
        return BlockParse([], Broken);
      }
      var ops, ok := ReadOps(bits, t.literal, t.distance, codes.lit, codes.dist);
      b := BlockParse(ops, if ok then Complete(DynamicHuffman, final.value != 0, bits.bit) else Broken);
    } else {
      b := BlockParse([], Broken);
    }
  }
}
