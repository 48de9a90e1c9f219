/** The bzip2 decoder's bit cursor. */
module BitReading {
  import opened Seqs
  import opened Bytes
  import opened Sums
  import opened BitStream

  datatype Error =
    | Truncated | InvalidMagic | InvalidLevel | InvalidHuffman | InvalidBlock
    | RandomizedBlock | BlockOverflow | CrcMismatch

  datatype Result<T> = Ok(value: T) | Err(error: Error)

  /** What parsing from a position yields: a value and the position after it, or an error. */
  datatype Parse<T> = Parsed(value: T, at: nat) | Failed(error: Error)

  /** A method's result and final cursor are those of a parse. */
  predicate Follows<T(==)>(r: Result<T>, bit: nat, p: Parse<T>)
  {
    match p
    case Parsed(v, at) => r == Ok(v) && bit == at
    case Failed(e) => r == Err(e)
  }

  /** The next `count` bits as a number. */
  function ReadBits(s: seq<bool>, at: nat, count: nat): (p: Parse<nat>)
    ensures p.Parsed? ==> p.at == at + count <= |s|
  {
    if at + count > |s| then Failed(Truncated) else Parsed(ValueOf(s[at..at + count]), at + count)
  }

  function ReadBit(s: seq<bool>, at: nat): (p: Parse<bool>)
    ensures p.Parsed? ==> p.at == at + 1 <= |s|
  {
    if at >= |s| then Failed(Truncated) else Parsed(s[at], at + 1)
  }

  /** A field written with `BitsOf` is read back. */
  lemma ReadBack(s: seq<bool>, at: nat, v: nat, n: nat)
    requires Has(s, at, BitsOf(v, n)) && v < Pow2(n)
    ensures ReadBits(s, at, n) == Parsed(v, at + n)
  {
    ValueOfBits(v, n);
  }

  function BigEndian(bytes: seq<Byte>): nat
  {
    if bytes == [] then 0 else Shl(BigEndian(bytes[..|bytes| - 1]), 8) + bytes[|bytes| - 1]
  }

  lemma {:induction false} BigEndianIsStream(bytes: seq<Byte>)
    ensures BigEndian(bytes) == ValueOf(Stream(bytes))
  {
    if bytes != [] {
      var n := |bytes| - 1;
      BigEndianIsStream(bytes[..n]);
      ValueAppend(Stream(bytes[..n]), BitsOf(bytes[n], 8));
      assert Pow2(8) == 256;
      ValueOfBits(bytes[n], 8);
    }
  }

  lemma Doubled(v: nat)
    ensures 2 * v / 2 == v && 2 * v % 2 == 0
  {
  }

  lemma {:induction false} LowShl(v: nat, n: nat, m: nat)
    ensures Low(Shl(v, n), n + m) == Shl(Low(v, m), n)
    decreases n
  {
    if n > 0 {
      LowShl(v, n - 1, m);
      Doubled(Shl(v, n - 1));
      assert n + m - 1 == n - 1 + m;
    }
  }

  lemma {:induction false} ShrShl(v: nat, n: nat, m: nat)
    ensures Shr(Shl(v, n), n + m) == Shr(v, m)
    decreases n
  {
    if n > 0 {
      ShrShl(v, n - 1, m);
      Doubled(Shl(v, n - 1));
      assert n + m - 1 == n - 1 + m;
    }
  }

  /** Shifting the high bits out of a 64-bit word and then down reads a slice. */
  lemma WordSlice(b: seq<bool>, offset: nat, count: nat)
    requires |b| == 64 && offset + count <= 64
    ensures Shr(Low(Shl(ValueOf(b), offset), 64), 64 - count) == ValueOf(b[offset..offset + count])
  {
    hide *;
    LowShl(ValueOf(b), offset, 64 - offset);
    ShrShl(Low(ValueOf(b), 64 - offset), offset, 64 - offset - count);
    assert offset + (64 - offset) == 64 && offset + (64 - offset - count) == 64 - count;
    SliceValue(b, offset, offset + count);
  }

  class Bits {
    const data: seq<Byte>
    var bit: nat

    ghost predicate Valid()
      reads this
    {
      bit <= 8 * |data|
    }

    ghost function All(): seq<bool>
    {
      Stream(data)
    }

    constructor (data: seq<Byte>, bit: nat)
      requires bit <= 8 * |data|
      ensures this.data == data && this.bit == bit && Valid()
    {
      this.data, this.bit := data, bit;
    }

    method Remaining() returns (n: nat)
      requires Valid()
      ensures n == |All()| - bit
    {
      n := 8 * |data| - bit;
    }

    method Peek(count: nat) returns (r: Result<nat>)
      requires Valid() && 1 <= count <= 32
      ensures Follows(r, bit + count, ReadBits(All(), bit, count))
    {
      hide Stream, ValueOf, Shl, Shr, Low, BigEndian;
      if count > 8 * |data| - bit {
        return Err(Truncated);
      }
      var byte, offset := bit / 8, bit % 8;
      ghost var whole := All();
      if byte + 8 <= |data| {
        ghost var part := Stream(data[byte..byte + 8]);
        StreamSlice(data, byte, byte + 8);
        Nested(whole, part, 8 * byte, 8 * (byte + 8), offset, offset + count, bit, bit + count);
        WordSlice(part, offset, count);
        BigEndianIsStream(data[byte..byte + 8]);
        var word := BigEndian(data[byte..byte + 8]);
        return Ok(Shr(Low(Shl(word, offset), 64), 64 - count));
      }
      var stop := (bit + count + 7) / 8;
      var word := Gather(data[byte..stop]);
      ghost var part := Stream(data[byte..stop]);
      StreamSlice(data, byte, stop);
      Nested(whole, part, 8 * byte, 8 * stop, offset, offset + count, bit, bit + count);
      SliceValue(part, offset, offset + count);
      BigEndianIsStream(data[byte..stop]);
      var available := (stop - byte) * 8;
      r := Ok(Low(Shr(word, available - offset - count), count));
    }

    method Read(count: nat) returns (r: Result<nat>)
      requires Valid() && count <= 32
      modifies this
      ensures Valid() && Follows(r, bit, ReadBits(All(), old(bit), count))
    {
      if count == 0 {
        return Ok(0);
      }
      r := Peek(count);
      if r.Ok? {
        bit := bit + count;
      }
    }

    method Bit() returns (r: Result<bool>)
      requires Valid()
      modifies this
      ensures Valid() && Follows(r, bit, ReadBit(All(), old(bit)))
    {
      var v := Read(1);
      if v.Err? {
        return Err(v.error);
      }
      OneBit(All(), old(bit));
      r := Ok(v.value != 0);
    }

    method Skip(count: nat)
      requires bit + count <= 8 * |data|
      modifies this
      ensures Valid() && bit == old(bit) + count
    {
      bit := bit + count;
    }

    /** A 48-bit magic, read in halves. */
    method Magic() returns (r: Result<nat>)
      requires Valid()
      modifies this
      ensures Valid() && Follows(r, bit, ReadBits(All(), old(bit), 48))
    {
      hide ValueOf, Shl, Stream;
      var high := Read(24);
      if high.Err? {
        return Err(high.error);
      }
      var low := Read(24);
      if low.Err? {
        return Err(low.error);
      }
      ghost var at := old(bit);
      assert All()[at..at + 24] + All()[at + 24..at + 48] == All()[at..at + 48];
      ValueAppend(All()[at..at + 24], All()[at + 24..at + 48]);
      r := Ok(Shl(high.value, 24) + low.value);
    }

    method AlignByte()
      requires Valid()
      modifies this
      ensures Valid() && old(bit) <= bit < old(bit) + 8 && bit % 8 == 0
    {
      bit := (bit + 7) / 8 * 8;
    }
  }

  lemma OneBit(s: seq<bool>, at: nat)
    requires at < |s|
    ensures ValueOf(s[at..at + 1]) == if s[at] then 1 else 0
  {
    assert s[at..at + 1] == [s[at]] && [s[at]][..0] == [];
  }

  method Gather(bytes: seq<Byte>) returns (word: nat)
    ensures word == BigEndian(bytes)
  {
    word := 0;
    for i := 0 to |bytes|
      invariant word == BigEndian(bytes[..i])
    {
      assert bytes[..i + 1][..i] == bytes[..i];
      word := Shl(word, 8) + bytes[i];
    }
    assert bytes[..|bytes|] == bytes;
  }
}
