/** The bzip2 encoder's bit writer. */
module BitWriting {
  import opened Bytes
  import opened Sums
  import opened BitStream

  class BitWriter {
    var out: seq<Byte>
    var acc: nat
    var nbits: nat

    /** Between calls fewer than eight bits are pending and the accumulator holds nothing else. */
    ghost predicate Valid()
      reads this
    {
      nbits < 8 && acc < Pow2(nbits)
    }

    /** Everything written and not yet drained. */
    ghost function Written(): (b: seq<bool>)
      reads this
      ensures |b| == 8 * |out| + nbits
    {
      Stream(out) + BitsOf(acc, nbits)
    }

    constructor ()
      ensures Valid() && Written() == []
    {
      out, acc, nbits := [], 0, 0;
    }

    method WriteBits(n: nat, val: nat)
      requires Valid() && n <= 32
      modifies this
      ensures Valid() && Written() == old(Written()) + BitsOf(val, n)
    {
      hide BitsOf, Pow2, Stream, Shl, Shr, Low;
      var low := Low(val, n);
      LowFits(val, n);
      ghost var goal := Written() + BitsOf(val, n);
      BitsLow(val, n);
      BitsJoin(acc, nbits, low, n);
      Pow2Monotone(nbits + n, 64);
      LowFits(Shl(acc, n), 64);
      acc := Low(Shl(acc, n), 64) + low;
      nbits := nbits + n;
      while nbits >= 8
        invariant Stream(out) + BitsOf(acc, nbits) == goal
      {
        nbits := nbits - 8;
        BitsSplit(acc, 8, nbits);
        var byte: Byte := LowByte(Shr(acc, nbits));
        StreamPush(out, byte);
        out := out + [byte];
      }
      BitsLow(acc, nbits);
      LowFits(acc, nbits);
      acc := Low(acc, nbits);
    }

    method WriteBit(bit: nat)
      requires Valid() && bit < 2
      modifies this
      ensures Valid() && Written() == old(Written()) + [bit == 1]
    {
      WriteBits(1, bit);
      assert BitsOf(bit, 1) == [] + [bit == 1];
    }

    /** A 48-bit block or end-of-stream magic. */
    method WriteMagic(magic: nat)
      requires Valid() && magic < Pow2(48)
      modifies this
      ensures Valid() && Written() == old(Written()) + BitsOf(magic, 48)
    {
      hide BitsOf, Written;
      MagicHalves(magic);
      WriteBits(24, Shr(magic, 24));
      WriteBits(24, Low(magic, 24));
    }

    method WriteU8(byte: Byte)
      requires Valid()
      modifies this
      ensures Valid() && Written() == old(Written()) + BitsOf(byte, 8)
    {
      WriteBits(8, byte);
    }

    method WriteU32(val: nat)
      requires Valid()
      modifies this
      ensures Valid() && Written() == old(Written()) + BitsOf(val, 32)
    {
      WriteBits(32, val);
    }

    /** Take the whole bytes, leaving the partial one pending. */
    method Drain() returns (bytes: seq<Byte>)
      requires Valid()
      modifies this
      ensures Valid() && old(Written()) == Stream(bytes) + Written() && out == []
    {
      bytes := out;
      out := [];
    }

    /** Append the first `bitLen` bits of a buffer. */
    method WriteBuffer(bytes: seq<Byte>, bitLen: nat)
      requires Valid() && bitLen <= 8 * |bytes|
      modifies this
      ensures Valid() && Written() == old(Written()) + Stream(bytes)[..bitLen]
    {
      hide BitsOf, Written, Stream, Shr;
      var full := bitLen / 8;
      assert bytes[..0] == [];
      for i := 0 to full
        invariant Valid() && Written() == old(Written()) + Stream(bytes[..i])
      {
        WriteU8(bytes[i]);
        assert bytes[..i] + [bytes[i]] == bytes[..i + 1];
        StreamPush(bytes[..i], bytes[i]);
      }
      var trailing := bitLen % 8;
      if trailing != 0 {
        WriteBits(trailing, Shr(bytes[full], 8 - trailing));
        Trailing(bytes, full, trailing);
      } else {
        StreamPrefix(bytes, full);
      }
    }

    /** The padded bytes together with the exact bit length. */
    method FinishBits() returns (bytes: seq<Byte>, bitLen: nat)
      requires Valid()
      ensures bitLen == |Written()| && bitLen <= 8 * |bytes| < bitLen + 8
      ensures Stream(bytes)[..bitLen] == Written()
    {
      bytes, bitLen := out, |out| * 8 + nbits;
      if nbits > 0 {
        var byte: Byte := LowByte(Shl(acc, 8 - nbits));
        BitsJoin(acc, nbits, 0, 8 - nbits);
        StreamPush(out, byte);
        bytes := bytes + [byte];
      }
    }

    /** Pad the last byte with zero bits. */
    method Finish() returns (bytes: seq<Byte>)
      requires Valid()
      modifies this
      ensures Stream(bytes) == old(Written()) + Zeros((8 - old(nbits)) % 8)
    {
      if nbits > 0 {
        BitsOfZero(8 - nbits);
        WriteBits(8 - nbits, 0);
      }
      bytes := out;
    }
  }

  /** Truncation to eight bits. */
  function LowByte(v: nat): (byte: Byte)
    ensures BitsOf(byte, 8) == BitsOf(v, 8)
  {
    BitsLow(v, 8);
    LowFits(v, 8);
    assert Pow2(8) == 256;
    Low(v, 8)
  }

  lemma MagicHalves(magic: nat)
    requires magic < Pow2(48)
    ensures BitsOf(magic, 48) == BitsOf(Shr(magic, 24), 24) + BitsOf(Low(magic, 24), 24)
  {
    hide *;
    BitsSplit(magic, 24, 24);
    BitsLow(magic, 24);
  }

  /** The bits of the whole bytes and of the top of the next one. */
  lemma Trailing(bytes: seq<Byte>, full: nat, trailing: nat)
    requires full < |bytes| && trailing < 8
    ensures Stream(bytes)[..8 * full + trailing] == Stream(bytes[..full]) + BitsOf(Shr(bytes[full], 8 - trailing), trailing)
  {
    hide Stream, BitsOf, Shr;
    BitsSplit(bytes[full], trailing, 8 - trailing);
    StreamPush(bytes[..full], bytes[full]);
    assert bytes[..full] + [bytes[full]] == bytes[..full + 1];
    StreamPrefix(bytes, full + 1);
    assert Stream(bytes)[..8 * (full + 1)][..8 * full + trailing] == Stream(bytes)[..8 * full + trailing];
  }
}
