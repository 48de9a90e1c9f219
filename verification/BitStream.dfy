/** Bit strings, most significant bit first: the common meaning of the writer's and the reader's buffers. */
module BitStream {
  import opened Seqs
  import opened Bytes
  import opened Sums

  function Shl(v: nat, n: nat): nat { if n == 0 then v else 2 * Shl(v, n - 1) }

  function Shr(v: nat, n: nat): nat { if n == 0 then v else Shr(v / 2, n - 1) }

  /** `v & ((1 << n) - 1)` */
  function Low(v: nat, n: nat): nat { if n == 0 then 0 else 2 * Low(v / 2, n - 1) + v % 2 }

  /** The low `n` bits of `v`. */
  function BitsOf(v: nat, n: nat): (b: seq<bool>)
    ensures |b| == n
  {
    if n == 0 then [] else BitsOf(v / 2, n - 1) + [v % 2 == 1]
  }

  function ValueOf(b: seq<bool>): nat
  {
    if b == [] then 0 else 2 * ValueOf(b[..|b| - 1]) + if b[|b| - 1] then 1 else 0
  }

  /** A byte buffer read as bits. */
  function Stream(bytes: seq<Byte>): (b: seq<bool>)
    ensures |b| == 8 * |bytes|
  {
    if bytes == [] then [] else Stream(bytes[..|bytes| - 1]) + BitsOf(bytes[|bytes| - 1], 8)
  }

  function Zeros(n: nat): (b: seq<bool>)
    ensures |b| == n && forall i :: 0 <= i < n ==> !b[i]
  {
    seq(n, i => false)
  }

  // ----- Shifts -----

  lemma {:induction false} ShlIsTimes(v: nat, n: nat)
    ensures Shl(v, n) == v * Pow2(n)
  {
    if n > 0 {
      ShlIsTimes(v, n - 1);
      DoubleProduct(v, Pow2(n - 1));
    }
  }

  lemma DoubleProduct(v: nat, p: nat)
    ensures v * (2 * p) == 2 * (v * p)
  {
  }

  lemma {:induction false} ShiftBack(q: nat, r: nat, n: nat)
    requires r < Pow2(n)
    ensures Shr(Shl(q, n) + r, n) == q && Low(Shl(q, n) + r, n) == r
  {
    if n > 0 {
      ShiftBack(q, r / 2, n - 1);
    }
  }

  lemma {:induction false} LowFits(v: nat, n: nat)
    ensures Low(v, n) < Pow2(n) && (v < Pow2(n) ==> Low(v, n) == v && Shr(v, n) == 0)
  {
    if n > 0 {
      LowFits(v / 2, n - 1);
    }
  }

  // ----- Values and bits -----

  lemma {:induction false} ValueBound(b: seq<bool>)
    ensures ValueOf(b) < Pow2(|b|)
  {
    if b != [] {
      ValueBound(b[..|b| - 1]);
    }
  }

  lemma {:induction false} BitsOfValue(b: seq<bool>)
    ensures BitsOf(ValueOf(b), |b|) == b
  {
    if b != [] {
      BitsOfValue(b[..|b| - 1]);
      var v, low := ValueOf(b[..|b| - 1]), if b[|b| - 1] then 1 else 0;
      assert (2 * v + low) / 2 == v && (2 * v + low) % 2 == low;
    }
  }

  lemma {:induction false} ValueOfBits(v: nat, n: nat)
    requires v < Pow2(n)
    ensures ValueOf(BitsOf(v, n)) == v
  {
    if n > 0 {
      ValueOfBits(v / 2, n - 1);
      assert BitsOf(v, n)[..n - 1] == BitsOf(v / 2, n - 1);
    }
  }

  lemma {:induction false} ValueAppend(a: seq<bool>, b: seq<bool>)
    ensures ValueOf(a + b) == Shl(ValueOf(a), |b|) + ValueOf(b)
  {
    hide Pow2;
    if b == [] {
      assert a + b == a;
    } else {
      var n := |b| - 1;
      ValueAppend(a, b[..n]);
      assert (a + b)[..|a + b| - 1] == a + b[..n];
    }
  }

  /** Equal lengths and equal values mean equal bits. */
  lemma SameValue(a: seq<bool>, b: seq<bool>)
    requires |a| == |b| && ValueOf(a) == ValueOf(b)
    ensures a == b
  {
    BitsOfValue(a);
    BitsOfValue(b);
  }

  /** A field placed below another one reads as the two fields side by side. */
  lemma BitsJoin(v: nat, m: nat, w: nat, n: nat)
    requires v < Pow2(m) && w < Pow2(n)
    ensures Shl(v, n) + w < Pow2(m + n)
    ensures BitsOf(Shl(v, n) + w, m + n) == BitsOf(v, m) + BitsOf(w, n)
  {
    hide *;
    ValueOfBits(v, m);
    ValueOfBits(w, n);
    var both := BitsOf(v, m) + BitsOf(w, n);
    ValueAppend(BitsOf(v, m), BitsOf(w, n));
    ValueBound(both);
    BitsOfValue(both);
  }

  /** Cutting a field at bit `n` splits its bits. */
  lemma {:induction false} BitsSplit(v: nat, m: nat, n: nat)
    ensures BitsOf(v, m + n) == BitsOf(Shr(v, n), m) + BitsOf(v, n)
  {
    if n > 0 {
      BitsSplit(v / 2, m, n - 1);
      assert m + n - 1 == m + (n - 1);
    }
  }

  /** Only the low `n` bits matter. */
  lemma {:induction false} BitsLow(v: nat, n: nat)
    ensures BitsOf(Low(v, n), n) == BitsOf(v, n)
  {
    if n > 0 {
      BitsLow(v / 2, n - 1);
    }
  }

  lemma {:induction false} BitsOfZero(n: nat)
    ensures BitsOf(0, n) == Zeros(n)
  {
    if n > 0 {
      BitsOfZero(n - 1);
    }
  }

  // ----- Buffers -----

  lemma {:induction false} StreamAppend(a: seq<Byte>, b: seq<Byte>)
    ensures Stream(a + b) == Stream(a) + Stream(b)
  {
    if b == [] {
      assert a + b == a;
    } else {
      StreamAppend(a, b[..|b| - 1]);
      assert (a + b)[..|a + b| - 1] == a + b[..|b| - 1];
    }
  }

  lemma StreamPush(a: seq<Byte>, b: Byte)
    ensures Stream(a + [b]) == Stream(a) + BitsOf(b, 8)
  {
  }

  /** Bits `[8i, 8j)` of a buffer are the bits of its bytes `[i, j)`. */
  lemma StreamSlice(bytes: seq<Byte>, i: nat, j: nat)
    requires i <= j <= |bytes|
    ensures Stream(bytes)[8 * i..8 * j] == Stream(bytes[i..j])
  {
    hide Stream;
    Cut(bytes, i, j);
    StreamParts(bytes, bytes[..i], bytes[i..j], bytes[j..]);
    Middle(Stream(bytes), Stream(bytes[..i]), Stream(bytes[i..j]), Stream(bytes[j..]), 8 * i, 8 * j);
  }

  lemma StreamParts(bytes: seq<Byte>, a: seq<Byte>, b: seq<Byte>, c: seq<Byte>)
    requires bytes == a + b + c
    ensures Stream(bytes) == Stream(a) + Stream(b) + Stream(c)
  {
    hide Stream;
    StreamAppend(a, b);
    StreamAppend(a + b, c);
  }

  lemma StreamPrefix(bytes: seq<Byte>, i: nat)
    requires i <= |bytes|
    ensures Stream(bytes)[..8 * i] == Stream(bytes[..i])
  {
    hide Stream;
    StreamSlice(bytes, 0, i);
    assert bytes[0..i] == bytes[..i];
  }

  /** Shifting a word down and masking it reads a slice; so does masking it and shifting it down. */
  lemma SliceValue(b: seq<bool>, i: nat, j: nat)
    requires i <= j <= |b|
    ensures ValueOf(b[i..j]) == Low(Shr(ValueOf(b), |b| - j), j - i)
    ensures ValueOf(b[i..j]) == Shr(Low(ValueOf(b), |b| - i), |b| - j)
  {
    hide *;
    var head, mid, tail := b[..i], b[i..j], b[j..];
    assert b == (head + mid) + tail && b == head + (mid + tail);
    ValueAppend(head + mid, tail);
    ValueAppend(head, mid);
    ValueAppend(head, mid + tail);
    ValueAppend(mid, tail);
    ValueBound(tail);
    ValueBound(mid);
    ValueBound(mid + tail);
    ShiftBack(ValueOf(head + mid), ValueOf(tail), |tail|);
    ShiftBack(ValueOf(head), ValueOf(mid), |mid|);
    ShiftBack(ValueOf(head), ValueOf(mid + tail), |mid + tail|);
    ShiftBack(ValueOf(mid), ValueOf(tail), |tail|);
  }
}
