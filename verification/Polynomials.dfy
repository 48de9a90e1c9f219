/** The bzip2 checksum as arithmetic: division of polynomials over the field of two elements, and numbers. */
module Polynomials {
  import opened Bytes
  import opened Seqs
  import opened Sums
  import opened BitStream
  import opened Crc

  // ----- Polynomials, highest coefficient first -----

  function Scaled(bit: bool, p: seq<bool>): (r: seq<bool>)
    ensures |r| == |p| && forall i :: 0 <= i < |p| ==> r[i] == (bit && p[i])
  {
    if bit then p else Zeros(|p|)
  }

  /** The sum of the copies of `g` that the coefficients of `q` select, each shifted to its place. */
  function Times(q: seq<bool>, g: seq<bool>): (p: seq<bool>)
    requires g != []
    ensures |p| == |q| + |g| - 1
  {
    if q == [] then Zeros(|g| - 1) else Xor(Scaled(q[0], g) + Zeros(|q| - 1), [false] + Times(q[1..], g))
  }

  /** Dividing `p` by `g` leaves `r`, with `q` as the quotient. */
  ghost predicate Divides(p: seq<bool>, g: seq<bool>, q: seq<bool>, r: seq<bool>)
    requires g != []
  {
    |p| == |q| + |r| && |r| == |g| - 1 && p == Xor(Times(q, g), Zeros(|q|) + r)
  }

  ghost predicate Remainder(p: seq<bool>, g: seq<bool>, r: seq<bool>)
    requires g != []
  {
    exists q :: Divides(p, g, q, r)
  }

  lemma FirstCoefficient(p: seq<bool>, g: seq<bool>, q: seq<bool>, r: seq<bool>)
    requires g != [] && g[0] && q != [] && Divides(p, g, q, r)
    ensures q[0] == p[0] && Divides(Xor(p, Scaled(p[0], g) + Zeros(|p| - |g|))[1..], g, q[1..], r)
  {
    var rest := Times(q[1..], g);
    assert Times(q, g) == Xor(Scaled(q[0], g) + Zeros(|q| - 1), [false] + rest);
    var p1 := Xor(p, Scaled(p[0], g) + Zeros(|p| - |g|));
    forall i | 0 <= i < |p| - 1 ensures p1[1..][i] == Xor(rest, Zeros(|q| - 1) + r)[i] {
      assert p[i + 1] == (Times(q, g)[i + 1] != (Zeros(|q|) + r)[i + 1]);
    }
  }

  /** A polynomial leaves one remainder. */
  lemma {:induction false} RemainderUnique(p: seq<bool>, g: seq<bool>, q: seq<bool>, r: seq<bool>, q': seq<bool>, r': seq<bool>)
    requires g != [] && g[0] && Divides(p, g, q, r) && Divides(p, g, q', r')
    ensures q == q' && r == r'
    decreases |q|
  {
    if q == [] {
      assert q' == [];
      forall i | 0 <= i < |r| ensures r[i] == r'[i] {
        assert p[i] == (Zeros(|r|)[i] != (Zeros(0) + r)[i]) && p[i] == (Zeros(|r|)[i] != (Zeros(0) + r')[i]);
      }
    } else {
      hide Times;
      FirstCoefficient(p, g, q, r);
      FirstCoefficient(p, g, q', r');
      RemainderUnique(Xor(p, Scaled(p[0], g) + Zeros(|p| - |g|))[1..], g, q[1..], r, q'[1..], r');
      assert q == [q[0]] + q[1..] && q' == [q'[0]] + q'[1..];
    }
  }

  // ----- The generator -----

  const GENERATOR_TERMS: set<nat> := {32, 26, 23, 22, 16, 12, 11, 10, 8, 7, 5, 4, 2, 1, 0}

  /** The generator polynomial of IEEE 802.3. */
  function Generator(): (g: seq<bool>)
    ensures |g| == 33 && g[0]
  {
    seq(33, i requires 0 <= i < 33 => 32 - i in GENERATOR_TERMS)
  }

  lemma {:induction false} ZeroBits(n: nat)
    ensures BitsOf(0, n) == Zeros(n)
  {
    if n > 0 {
      ZeroBits(n - 1);
    }
  }

  lemma NextBit(v: nat, bit: nat, n: nat)
    requires bit < 2
    ensures BitsOf(2 * v + bit, n + 1) == BitsOf(v, n) + [bit == 1]
  {
    assert (2 * v + bit) / 2 == v;
  }

  lemma NextDigit(v: nat, a: nat, b: nat, c: nat, d: nat, n: nat)
    requires a < 2 && b < 2 && c < 2 && d < 2
    ensures BitsOf(16 * v + 8 * a + 4 * b + 2 * c + d, n + 4) == BitsOf(v, n) + [a == 1, b == 1, c == 1, d == 1]
  {
    hide BitsOf;
    NextBit(v, a, n);
    NextBit(2 * v + a, b, n + 1);
    NextBit(4 * v + 2 * a + b, c, n + 2);
    NextBit(8 * v + 4 * a + 2 * b + c, d, n + 3);
  }

  /** The low coefficients are the constant of the checksum. */
  lemma GeneratorBits()
    ensures Generator()[1..] == BitsOf(0x04c1_1db7, 32)
  {
    hide BitsOf;
    ZeroBits(0);
    NextDigit(0, 0, 0, 0, 0, 0);
    NextDigit(0, 0, 1, 0, 0, 4);
    NextDigit(0x4, 1, 1, 0, 0, 8);
    NextDigit(0x4c, 0, 0, 0, 1, 12);
    NextDigit(0x4c1, 0, 0, 0, 1, 16);
    NextDigit(0x4c11, 1, 1, 0, 1, 20);
    NextDigit(0x4_c11d, 1, 0, 1, 1, 24);
    NextDigit(0x4c_11db, 0, 1, 1, 1, 28);
  }

  // ----- The checksum is a remainder -----

  /** One bit of input enters at the top of the register. */
  function BitStep(state: Word, bit: bool): Word
  {
    var shifted := ShiftLeft(state);
    if state[0] != bit then Xor(shifted, BitsOf(0x04c1_1db7, 32)) else shifted
  }

  function BitSteps(state: Word, bits: seq<bool>): Word
    decreases |bits|
  {
    if bits == [] then state else BitSteps(BitStep(state, bits[0]), bits[1..])
  }

  /** What a register and the input to come stand for together. */
  function Standing(state: Word, bits: seq<bool>): (p: seq<bool>)
    ensures |p| == |bits| + 32
  {
    Xor(state + Zeros(|bits|), bits + Zeros(32))
  }

  lemma StandingStep(state: Word, bits: seq<bool>)
    requires bits != []
    ensures var p := Standing(state, bits);
      p[0] == (state[0] != bits[0]) && p == Xor(Scaled(p[0], Generator()) + Zeros(|bits| - 1), [false] + Standing(BitStep(state, bits[0]), bits[1..]))
  {
    hide BitsOf;
    GeneratorBits();
    var p, next := Standing(state, bits), Standing(BitStep(state, bits[0]), bits[1..]);
    var cut := Xor(Scaled(p[0], Generator()) + Zeros(|bits| - 1), [false] + next);
    forall i | 0 <= i < |p| ensures p[i] == cut[i] {
      if 0 < i <= 32 {
        assert Generator()[i] == BitsOf(0x04c1_1db7, 32)[i - 1];
      }
    }
  }

  /** Feeding bits to the register divides by the generator. */
  lemma {:induction false} StepsDivide(state: Word, bits: seq<bool>) returns (q: seq<bool>)
    ensures |q| == |bits| && Divides(Standing(state, bits), Generator(), q, BitSteps(state, bits))
    decreases |bits|
  {
    if bits == [] {
      q := [];
      assert Standing(state, bits) == Xor(Times(q, Generator()), Zeros(0) + BitSteps(state, bits));
    } else {
      hide Times, BitStep, Generator, Standing;
      var p, next, r := Standing(state, bits), Standing(BitStep(state, bits[0]), bits[1..]), BitSteps(state, bits);
      var rest := StepsDivide(BitStep(state, bits[0]), bits[1..]);
      q := [p[0]] + rest;
      StandingStep(state, bits);
      OneMore(p, Generator(), q, rest, next, r);
    }
  }

  lemma {:induction false} OneMore(p: seq<bool>, g: seq<bool>, q: seq<bool>, rest: seq<bool>, next: seq<bool>, r: seq<bool>)
    requires g != [] && |p| == |q| + |g| - 1 && p != [] && q == [p[0]] + rest && Divides(next, g, rest, r)
    requires |p| == |next| + 1 && p == Xor(Scaled(p[0], g) + Zeros(|q| - 1), [false] + next)
    ensures Divides(p, g, q, r)
  {
    assert q[1..] == rest;
    hide Times;
    TimesFirst(q, g);
    var high, low := Scaled(p[0], g) + Zeros(|q| - 1), Times(rest, g);
    forall i | 0 <= i < |p| ensures p[i] == Xor(Times(q, g), Zeros(|q|) + r)[i] {
      if i > 0 {
        assert next[i - 1] == (low[i - 1] != (Zeros(|rest|) + r)[i - 1]);
        assert ([false] + next)[i] == next[i - 1] && ([false] + low)[i] == low[i - 1];
        assert (Zeros(|q|) + r)[i] == (Zeros(|rest|) + r)[i - 1];
      }
    }
  }

  lemma TimesFirst(q: seq<bool>, g: seq<bool>)
    requires g != [] && q != []
    ensures Times(q, g) == Xor(Scaled(q[0], g) + Zeros(|q| - 1), [false] + Times(q[1..], g))
  {
  }

  /** One step of the table's construction. */
  function Once(w: Word): Word
  {
    if w[0] then Xor(ShiftLeft(w), BitsOf(0x04c1_1db7, 32)) else ShiftLeft(w)
  }

  lemma OnceApart(a: Word, low: seq<bool>, n: nat)
    requires |low| + n == 32 && n > 0
    ensures Once(Xor(a, Zeros(n) + low)) == Xor(Once(a), Zeros(n - 1) + (low + [false]))
  {
    hide BitsOf;
    var w: Word := Xor(a, Zeros(n) + low);
    var below: Word := Zeros(n - 1) + (low + [false]);
    assert w[0] == a[0];
    forall i | 0 <= i < 32 ensures ShiftLeft(w)[i] == (ShiftLeft(a)[i] != below[i]) {
      if i < 31 {
        assert w[i + 1] == (a[i + 1] != (Zeros(n) + low)[i + 1]);
      }
    }
  }

  /** The low bits only move up while the high ones are reduced. */
  lemma {:induction false} ShiftedApart(a: Word, low: seq<bool>, n: nat)
    requires |low| + n == 32
    ensures Shifted(Xor(a, Zeros(n) + low), n) == Xor(Shifted(a, n), low + Zeros(n))
    decreases n
  {
    hide BitsOf, ShiftLeft;
    if n == 0 {
      assert Xor(a, Zeros(n) + low) == Xor(a, low + Zeros(0));
    } else {
      OnceApart(a, low, n);
      ShiftedOnce(a, n);
      ShiftedOnce(Xor(a, Zeros(n) + low), n);
      hide Once, Shifted;
      ShiftedApart(Once(a), low + [false], n - 1);
      assert low + [false] + Zeros(n - 1) == low + Zeros(n);
    }
  }

  lemma ShiftedOnce(w: Word, n: nat)
    requires n > 0
    ensures Shifted(w, n) == Shifted(Once(w), n - 1)
  {
    hide BitsOf, ShiftLeft;
  }

  /** Bits added at the top of the register before shifting enter one by one. */
  lemma {:induction false} ShiftedSteps(state: Word, bits: seq<bool>)
    requires |bits| <= 32
    ensures Shifted(Xor(state, bits + Zeros(32 - |bits|)), |bits|) == BitSteps(state, bits)
    decreases |bits|
  {
    hide BitsOf;
    var w: Word := Xor(state, bits + Zeros(32 - |bits|));
    if bits == [] {
      assert w == state;
    } else {
      ShiftedOnce(w, |bits|);
      assert Once(w) == Xor(BitStep(state, bits[0]), bits[1..] + Zeros(32 - |bits[1..]|));
      ShiftedSteps(BitStep(state, bits[0]), bits[1..]);
    }
  }

  /** The table update takes the eight bits of the byte. */
  lemma StepIsBits(state: Word, byte: Byte)
    ensures Step(state, byte) == BitSteps(state, BitsOf(byte, 8))
  {
    hide Shifted, BitsOf, BitSteps;
    var bits := BitsOf(byte, 8);
    var top: Word := Xor(state[..8], bits) + Zeros(24);
    var all: Word := Xor(state, bits + Zeros(24));
    ShiftedApart(top, state[8..], 8);
    assert all == Xor(top, Zeros(8) + state[8..]);
    ShiftedSteps(state, bits);
    assert Step(state, byte) == Xor(Shifted(top, 8), state[8..] + Zeros(8));
  }

  lemma {:induction false} StepsAppend(state: Word, a: seq<bool>, b: seq<bool>)
    ensures BitSteps(state, a + b) == BitSteps(BitSteps(state, a), b)
    decreases |a|
  {
    hide BitStep;
    if a == [] {
      assert a + b == b;
    } else {
      StepsAppend(BitStep(state, a[0]), a[1..], b);
      assert (a + b)[1..] == a[1..] + b;
    }
  }

  lemma {:induction false} RunIsBits(state: Word, data: seq<Byte>)
    ensures Run(state, data) == BitSteps(state, Stream(data))
  {
    hide Step, BitStep;
    if data != [] {
      var n := |data| - 1;
      RunIsBits(state, data[..n]);
      StepIsBits(Run(state, data[..n]), data[n]);
      StepsAppend(state, Stream(data[..n]), BitsOf(data[n], 8));
    }
  }

  /** The first 32 coefficients complemented. */
  function Complemented(p: seq<bool>): (r: seq<bool>)
    requires |p| >= 32
    ensures |r| == |p| && forall i :: 0 <= i < |p| ==> r[i] == (if i < 32 then !p[i] else p[i])
  {
    Xor(p, Ones() + Zeros(|p| - 32))
  }

  /** The checksum of bytes is the complement of what is left when the generator divides their bits and 32 zeros, the first 32 complemented. */
  lemma ChecksumIsRemainder(data: seq<Byte>, r: Word)
    ensures Remainder(Complemented(Stream(data) + Zeros(32)), Generator(), r) <==> BitsOf(Bz2Crc32(data), 32) == Xor(r, Ones())
  {
    hide Stream, Run, Times, BitsOf, ValueOf, BitSteps, Divides, Generator;
    var bits, p := Stream(data), Complemented(Stream(data) + Zeros(32));
    var left := Run(Ones(), data);
    RunIsBits(Ones(), data);
    assert p == Standing(Ones(), bits);
    var q := StepsDivide(Ones(), bits);
    BitsOfValue(Xor(left, Ones()));
    forall q' | Divides(p, Generator(), q', r) ensures r == left {
      RemainderUnique(p, Generator(), q, left, q', r);
    }
    assert BitsOf(Bz2Crc32(data), 32) == Xor(left, Ones());
    XorBack(left, r);
  }

  lemma XorBack(a: Word, b: Word)
    ensures Xor(a, Ones()) == Xor(b, Ones()) <==> a == b
  {
    if Xor(a, Ones()) == Xor(b, Ones()) {
      forall i | 0 <= i < 32 ensures a[i] == b[i] {
        assert Xor(a, Ones())[i] == Xor(b, Ones())[i];
      }
    }
  }

  // ----- The checksum of a stream -----

  function Bit(v: nat, i: nat): (b: nat)
    ensures b < 2
  {
    v / Pow2(i) % 2
  }

  lemma {:induction false} BitPlace(v: nat, n: nat, i: nat)
    requires i < n
    ensures BitsOf(v, n)[n - 1 - i] <==> Bit(v, i) == 1
    decreases n
  {
    if i > 0 {
      BitPlace(v / 2, n - 1, i - 1);
      HalfFirst(v, Pow2(i - 1));
    }
  }

  lemma HalfFirst(v: nat, p: nat)
    requires p > 0
    ensures v / 2 / p == v / (2 * p)
  {
    var q, r := v / (2 * p), v % (2 * p);
    assert v == 2 * (p * q) + r;
    assert v / 2 == p * q + r / 2 && r / 2 < p;
    QuotientIs(v / 2, p, q, r / 2);
  }

  lemma QuotientIs(n: nat, p: nat, q: nat, r: nat)
    requires n == p * q + r && r < p
    ensures n / p == q
  {
    if n / p < q { Larger(n / p + 1, q, p); }
    if n / p > q { Larger(q + 1, n / p, p); }
  }

  lemma Larger(a: nat, b: nat, p: nat)
    requires a <= b
    ensures p * a <= p * b
  {
  }

  /** A block's checksum enters as it is, after the stream's is rotated left by one; the two are added bit by bit, without carry. */
  lemma CombineBits(stream: nat, block: nat, i: nat)
    requires stream < 0x1_0000_0000 && block < 0x1_0000_0000 && i < 32
    ensures Combine(stream, 0) == 2 * stream % 0x1_0000_0000 + stream / 0x8000_0000
    ensures Combine(0, block) == block
    ensures Bit(Combine(stream, block), i) == (Bit(Combine(stream, 0), i) + Bit(block, i)) % 2
  {
    hide Combine, Bit, BitsOf;
    Rotated(stream);
    Unrotated(block);
    CombinedPlace(stream, block, 31 - i);
    BitPlace(Combine(stream, block), 32, i);
    BitPlace(Combine(stream, 0), 32, i);
    BitPlace(block, 32, i);
  }

  lemma CombinedPlace(stream: nat, block: nat, i: nat)
    requires i < 32
    ensures BitsOf(Combine(stream, block), 32)[i] == (BitsOf(Combine(stream, 0), 32)[i] != BitsOf(block, 32)[i])
  {
    hide Combine, BitsOf;
    CombinedWord(stream, block);
    CombinedWord(stream, 0);
    ZeroBits(32);
  }

  /** The combined value as a word. */
  lemma CombinedWord(stream: nat, block: nat)
    ensures var s := BitsOf(stream, 32); BitsOf(Combine(stream, block), 32) == Xor(s[1..] + s[..1], BitsOf(block, 32))
  {
    hide BitsOf, ValueOf;
    var s := BitsOf(stream, 32);
    BitsOfValue(Xor(s[1..] + s[..1], BitsOf(block, 32)));
  }

  lemma Rotated(stream: nat)
    requires stream < 0x1_0000_0000
    ensures Combine(stream, 0) == 2 * stream % 0x1_0000_0000 + stream / 0x8000_0000
  {
    hide BitsOf, ValueOf, Shl, Pow2;
    var s := BitsOf(stream, 32);
    Pow2Values();
    ValueOfBits(stream, 32);
    ZeroBits(32);
    assert Xor(s[1..] + s[..1], BitsOf(0, 32)) == s[1..] + s[..1];
    assert s == s[..1] + s[1..];
    ValueAppend(s[..1], s[1..]);
    ValueAppend(s[1..], s[..1]);
    OneBit(s[0]);
    assert s[..1] == [s[0]];
    ShlIsTimes(ValueOf(s[..1]), 31);
    ShlIsTimes(ValueOf(s[1..]), 1);
    assert Pow2(31) == 0x8000_0000 && Pow2(1) == 2 by { Halves(); }
    ValueBound(s[1..]);
  }

  lemma Halves()
    ensures Pow2(31) == 0x8000_0000 && Pow2(1) == 2
  {
    Pow2Values();
    assert Pow2(32) == 2 * Pow2(31);
  }

  lemma OneBit(bit: bool)
    ensures ValueOf([bit]) == if bit then 1 else 0
  {
    assert [bit][..0] == [];
  }

  lemma Unrotated(block: nat)
    requires block < 0x1_0000_0000
    ensures Combine(0, block) == block
  {
    hide BitsOf, ValueOf, Pow2;
    ZeroBits(32);
    var zeros := Zeros(32);
    assert Xor(zeros[1..] + zeros[..1], BitsOf(block, 32)) == BitsOf(block, 32);
    Pow2Values();
    ValueOfBits(block, 32);
  }
}
