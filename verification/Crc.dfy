/** The bzip2 checksum, byte by byte, and its combination over the blocks of a stream. */
module Crc {
  import opened Bytes
  import opened BitStream
  import opened Sums

  /** A 32-bit word, most significant bit first. */
  type Word = w: seq<bool> | |w| == 32 witness Zeros(32)

  function Xor(a: seq<bool>, b: seq<bool>): (c: seq<bool>)
    requires |a| == |b|
    ensures |c| == |a| && forall i :: 0 <= i < |a| ==> c[i] == (a[i] != b[i])
  {
    seq(|a|, i requires 0 <= i < |a| => a[i] != b[i])
  }

  function ShiftLeft(w: Word): Word
  {
    w[1..] + [false]
  }

  /** Eight polynomial steps turn a byte at the top of a word into its table entry. */
  function Shifted(crc: Word, n: nat): Word
    decreases n
  {
    if n == 0 then crc
    else Shifted(if crc[0] then Xor(ShiftLeft(crc), BitsOf(0x04c1_1db7, 32)) else ShiftLeft(crc), n - 1)
  }

  /** `(state << 8) ^ TABLE[(state >> 24) ^ byte]` */
  function Step(state: Word, byte: Byte): Word
  {
    Xor(state[8..] + Zeros(8), Shifted(Xor(state[..8], BitsOf(byte, 8)) + Zeros(24), 8))
  }

  function Run(state: Word, data: seq<Byte>): Word
  {
    if data == [] then state else Step(Run(state, data[..|data| - 1]), data[|data| - 1])
  }

  function Ones(): Word
  {
    seq(32, i => true)
  }

  /** `!state` */
  function Value(state: Word): (v: nat)
    ensures v < 0x1_0000_0000
  {
    var w: Word := Xor(state, Ones());
    ValueBound(w);
    Pow2Values();
    ValueOf(w)
  }

  /** The checksum of a whole block. */
  function Bz2Crc32(data: seq<Byte>): (v: nat)
    ensures v < 0x1_0000_0000
  {
    Value(Run(Ones(), data))
  }

  /** Rotate the stream's value left by one and add the block's without carry. */
  function Combine(stream: nat, block: nat): (v: nat)
    ensures v < 0x1_0000_0000
  {
    var s: Word := BitsOf(stream, 32);
    var w: Word := Xor(s[1..] + s[..1], BitsOf(block, 32));
    ValueBound(w);
    Pow2Values();
    ValueOf(w)
  }

  lemma {:induction false} RunAppend(state: Word, a: seq<Byte>, b: seq<Byte>)
    ensures Run(state, a + b) == Run(Run(state, a), b)
  {
    hide Step;
    if b == [] {
      assert a + b == a;
    } else {
      RunAppend(state, a, b[..|b| - 1]);
      assert (a + b)[..|a + b| - 1] == a + b[..|b| - 1];
    }
  }

  /** A run of equal bytes is hashed one at a time. */
  method PushRepeat(state: Word, byte: Byte, count: nat) returns (after: Word)
    ensures after == Run(state, Repeat(byte, count))
  {
    hide Step;
    after := state;
    for i := 0 to count
      invariant after == Run(state, Repeat(byte, i))
    {
      assert Repeat(byte, i + 1)[..i] == Repeat(byte, i);
      after := Step(after, byte);
    }
  }
}
