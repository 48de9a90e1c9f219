/** Bit strings, least significant bit first, as DEFLATE packs its fields, with the encoder's writer and the decoder's cursor. */
module LsbStream {
  import opened Bytes
  import opened Seqs
  import opened Sums
  import opened Options
  import opened BitStream
  import Canonical

  /** The low `n` bits of `v`, least significant first. */
  function LsbBits(v: nat, n: nat): (b: seq<bool>)
    ensures |b| == n
  {
    if n == 0 then [] else [v % 2 == 1] + LsbBits(v / 2, n - 1)
  }

  function LsbValue(b: seq<bool>): nat
  {
    if b == [] then 0 else (if b[0] then 1 else 0) + 2 * LsbValue(b[1..])
  }

  /** A byte buffer read as bits, each byte from its least significant bit. */
  function Packed(bytes: seq<Byte>): (b: seq<bool>)
    ensures |b| == 8 * |bytes|
  {
    if bytes == [] then [] else Packed(bytes[..|bytes| - 1]) + LsbBits(bytes[|bytes| - 1], 8)
  }

  // ----- Values and bits -----

  lemma {:induction false} LsbBound(b: seq<bool>)
    ensures LsbValue(b) < Pow2(|b|)
  {
    if b != [] {
      LsbBound(b[1..]);
    }
  }

  lemma {:induction false} LsbOfValue(b: seq<bool>)
    ensures LsbBits(LsbValue(b), |b|) == b
  {
    if b != [] {
      LsbOfValue(b[1..]);
      HalfAndBit(if b[0] then 1 else 0, LsbValue(b[1..]));
    }
  }

  lemma HalfAndBit(bit: nat, v: nat)
    requires bit < 2
    ensures (bit + 2 * v) / 2 == v && (bit + 2 * v) % 2 == bit
  {
  }

  lemma {:induction false} ValueOfLsb(v: nat, n: nat)
    requires v < Pow2(n)
    ensures LsbValue(LsbBits(v, n)) == v
  {
    if n > 0 {
      ValueOfLsb(v / 2, n - 1);
      assert LsbBits(v, n)[1..] == LsbBits(v / 2, n - 1);
    }
  }

  lemma {:induction false} LsbAppend(a: seq<bool>, b: seq<bool>)
    ensures LsbValue(a + b) == LsbValue(a) + Shl(LsbValue(b), |a|)
  {
    if a == [] {
      assert a + b == b;
    } else {
      LsbAppend(a[1..], b);
      assert (a + b)[1..] == a[1..] + b && (a + b)[0] == a[0];
    }
  }

  /** Cutting a field at bit `m` splits its bits. */
  lemma {:induction false} LsbSplit(v: nat, m: nat, n: nat)
    ensures LsbBits(v, m + n) == LsbBits(v, m) + LsbBits(Shr(v, m), n)
  {
    if m > 0 {
      LsbSplit(v / 2, m - 1, n);
      assert m + n - 1 == m - 1 + n;
    }
  }

  lemma {:induction false} LsbLow(v: nat, n: nat)
    ensures LsbBits(Low(v, n), n) == LsbBits(v, n)
  {
    if n > 0 {
      LsbLow(v / 2, n - 1);
      HalfAndBit(v % 2, Low(v / 2, n - 1));
    }
  }

  /** A field placed above another one reads as the two fields in order. */
  lemma LsbJoin(v: nat, m: nat, w: nat, n: nat)
    requires v < Pow2(m) && w < Pow2(n)
    ensures v + Shl(w, m) < Pow2(m + n)
    ensures LsbBits(v + Shl(w, m), m + n) == LsbBits(v, m) + LsbBits(w, n)
  {
    hide *;
    ValueOfLsb(v, m);
    ValueOfLsb(w, n);
    var both := LsbBits(v, m) + LsbBits(w, n);
    LsbAppend(LsbBits(v, m), LsbBits(w, n));
    LsbBound(both);
    LsbOfValue(both);
  }

  lemma ShiftDown(q: nat, r: nat, n: nat)
    requires r < Pow2(n)
    ensures Shr(r + Shl(q, n), n) == q && Low(r + Shl(q, n), n) == r
  {
    ShiftBack(q, r, n);
  }

  /** Shifting a word down and masking it reads a slice. */
  lemma LsbSlice(b: seq<bool>, i: nat, j: nat)
    requires i <= j <= |b|
    ensures LsbValue(b[i..j]) == Low(Shr(LsbValue(b), i), j - i)
  {
    hide *;
    var head, mid, tail := b[..i], b[i..j], b[j..];
    Cut(b, i, j);
    Regroup(head, mid, tail);
    LsbAppend(head, mid + tail);
    LsbAppend(mid, tail);
    LsbBound(head);
    LsbBound(mid);
    ShiftDown(LsbValue(mid + tail), LsbValue(head), |head|);
    ShiftDown(LsbValue(tail), LsbValue(mid), |mid|);
  }

  lemma {:induction false} LsbZeros(n: nat)
    ensures LsbBits(0, n) == Zeros(n) && LsbValue(Zeros(n)) == 0
  {
    if n > 0 {
      LsbZeros(n - 1);
      assert Zeros(n) == [false] + Zeros(n - 1);
    }
  }

  // ----- Buffers -----

  lemma {:induction false} PackedAppend(a: seq<Byte>, b: seq<Byte>)
    ensures Packed(a + b) == Packed(a) + Packed(b)
  {
    if b == [] {
      assert a + b == a;
    } else {
      PackedAppend(a, b[..|b| - 1]);
      assert (a + b)[..|a + b| - 1] == a + b[..|b| - 1];
    }
  }

  lemma PackedPush(a: seq<Byte>, b: Byte)
    ensures Packed(a + [b]) == Packed(a) + LsbBits(b, 8)
  {
  }

  lemma PackedParts(bytes: seq<Byte>, a: seq<Byte>, b: seq<Byte>, c: seq<Byte>)
    requires bytes == a + b + c
    ensures Packed(bytes) == Packed(a) + Packed(b) + Packed(c)
  {
    hide Packed;
    PackedAppend(a, b);
    PackedAppend(a + b, c);
  }

  /** Bits `[8i, 8j)` of a buffer are the bits of its bytes `[i, j)`. */
  lemma PackedSlice(bytes: seq<Byte>, i: nat, j: nat)
    requires i <= j <= |bytes|
    ensures Packed(bytes)[8 * i..8 * j] == Packed(bytes[i..j])
  {
    hide Packed;
    Cut(bytes, i, j);
    PackedParts(bytes, bytes[..i], bytes[i..j], bytes[j..]);
    Middle(Packed(bytes), Packed(bytes[..i]), Packed(bytes[i..j]), Packed(bytes[j..]), 8 * i, 8 * j);
  }

  function LittleEndian(bytes: seq<Byte>): nat
  {
    if bytes == [] then 0 else bytes[0] + Shl(LittleEndian(bytes[1..]), 8)
  }

  lemma {:induction false} LittleEndianIsPacked(bytes: seq<Byte>)
    ensures LittleEndian(bytes) == LsbValue(Packed(bytes))
  {
    if bytes == [] {
    } else {
      LittleEndianIsPacked(bytes[1..]);
      assert bytes == [bytes[0]] + bytes[1..];
      PackedAppend([bytes[0]], bytes[1..]);
      OneByte(bytes[0]);
      LsbAppend(LsbBits(bytes[0], 8), Packed(bytes[1..]));
      assert Pow2(8) == 256;
      ValueOfLsb(bytes[0], 8);
    }
  }

  lemma OneByte(b: Byte)
    ensures Packed([b]) == LsbBits(b, 8)
  {
    assert Packed([b]) == Packed([]) + LsbBits(b, 8);
  }

  // ----- The encoder's writer -----

  class BitWriter {
    var bytes: seq<Byte>
    var pending: nat
    var bits: nat

    ghost predicate Valid()
      reads this
    {
      bits < 8 && pending < Pow2(bits)
    }

    ghost function Written(): (b: seq<bool>)
      reads this
      ensures |b| == 8 * |bytes| + bits
    {
      Packed(bytes) + LsbBits(pending, bits)
    }

    constructor ()
      ensures Valid() && Written() == []
    {
      bytes, pending, bits := [], 0, 0;
    }

    /** The value's bits are disjoint from the pending ones, so `|=` is addition. */
    method WriteBits(value: nat, count: nat)
      requires Valid() && count <= 24 && value < Pow2(count)
      modifies this
      ensures Valid() && Written() == old(Written()) + LsbBits(value, count)
    {
      hide LsbBits, Pow2, Packed, Shl, Shr;
      ghost var goal := Written() + LsbBits(value, count);
      LsbJoin(pending, bits, value, count);
      pending := pending + Shl(value, bits);
      bits := bits + count;
      while bits >= 8
        invariant pending < Pow2(bits)
        invariant Packed(bytes) + LsbBits(pending, bits) == goal
      {
        LsbSplit(pending, 8, bits - 8);
        LsbLow(pending, 8);
        LowByte(pending);
        ShrBound(pending, 8, bits - 8);
        var byte: Byte := Low(pending, 8);
        PackedPush(bytes, byte);
        Regroup(Packed(bytes), LsbBits(byte, 8), LsbBits(Shr(pending, 8), bits - 8));
        bytes := bytes + [byte];
        pending := Shr(pending, 8);
        bits := bits - 8;
      }
    }

    /** Zero bits up to the next byte. */
    method AlignZero()
      requires Valid()
      modifies this
      ensures Valid() && bits == 0 && Written() == old(Written()) + Zeros((8 - old(bits)) % 8)
    {
      hide Packed, LsbBits, Pow2;
      if bits != 0 {
        ByteOfBits(pending, bits);
        PackedPush(bytes, pending);
        Regroup(Packed(bytes), LsbBits(pending, bits), Zeros(8 - bits));
        bytes := bytes + [pending];
        pending := 0;
        bits := 0;
      }
      NoBits(pending);
    }

    method WriteAligned(more: seq<Byte>)
      requires Valid() && bits == 0
      modifies this
      ensures Valid() && bits == 0 && Written() == old(Written()) + Packed(more)
    {
      PackedAppend(bytes, more);
      bytes := bytes + more;
    }

    method FinishAligned() returns (r: seq<Byte>)
      requires Valid()
      modifies this
      ensures Packed(r) == old(Written()) + Zeros((8 - old(bits)) % 8)
    {
      AlignZero();
      r := bytes;
    }
  }

  /** Fewer than eight bits padded with zeros are a byte. */
  lemma ByteOfBits(v: nat, n: nat)
    requires n <= 8 && v < Pow2(n)
    ensures v < 256 && LsbBits(v, 8) == LsbBits(v, n) + Zeros(8 - n)
  {
    hide LsbBits, Shl, Pow2;
    LsbJoin(v, n, 0, 8 - n) by { PowPositive(8 - n); }
    LsbZeros(8 - n);
    Canonical.ShlOne(n);
    Pow2Monotone(n, 8);
    Pow2Values();
  }

  lemma PowPositive(n: nat)
    ensures 0 < Pow2(n)
  {
  }

  lemma NoBits(v: nat)
    ensures LsbBits(v, 0) == [] && Pow2(0) == 1
  {
  }

  lemma LowByte(v: nat)
    ensures Low(v, 8) < 256
  {
    LowFits(v, 8);
    Pow2Values();
  }

  lemma {:induction false} ShrBound(v: nat, m: nat, n: nat)
    requires v < Pow2(m + n)
    ensures Shr(v, m) < Pow2(n)
  {
    if m > 0 {
      ShrBound(v / 2, m - 1, n);
    }
  }
}
