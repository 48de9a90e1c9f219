/** Canonical prefix codes: codes in order of length, then of symbol. A length of zero means no code. */
module Canonical {
  import opened Sums
  import opened BitStream
  import opened BitReading
  import PackageMerge

  /** How many symbols have length `l`. */
  function CountLen(ls: seq<nat>, l: nat): (c: nat)
    ensures c <= |ls|
  {
    if ls == [] then 0 else CountLen(ls[..|ls| - 1], l) + if ls[|ls| - 1] == l then 1 else 0
  }

  /** The smallest code of length `l`. */
  function First(ls: seq<nat>, l: nat): nat
  {
    if l <= 1 then 0 else 2 * (First(ls, l - 1) + CountLen(ls, l - 1))
  }

  function Next(ls: seq<nat>, l: nat): nat
  {
    First(ls, l) + CountLen(ls, l)
  }

  /** No length has more codes than fit. */
  ghost predicate Fits(ls: seq<nat>, max: nat)
  {
    forall l :: 1 <= l <= max ==> Next(ls, l) <= Pow2(l)
  }

  function Code(ls: seq<nat>, i: nat): nat
    requires i < |ls|
  {
    First(ls, ls[i]) + CountLen(ls[..i], ls[i])
  }

  function Word(ls: seq<nat>, i: nat): (w: seq<bool>)
    requires i < |ls|
    ensures |w| == ls[i]
  {
    BitsOf(Code(ls, i), ls[i])
  }

  /** The bits at `at` begin with the code word of symbol `i`. */
  ghost predicate Begins(ls: seq<nat>, s: seq<bool>, at: nat, i: nat)
  {
    i < |ls| && ls[i] >= 1 && at + ls[i] <= |s| && s[at..at + ls[i]] == Word(ls, i)
  }

  /** Prefix decoding: the symbol whose code word comes next. */
  ghost function NextSymbol(ls: seq<nat>, max: nat, s: seq<bool>, at: nat): (p: Parse<nat>)
    ensures p.Parsed? ==> p.value < |ls| && at < p.at <= |s|
  {
    if i: nat :| Begins(ls, s, at, i) then Parsed(i, at + ls[i])
    else Failed(if at + max > |s| then Truncated else InvalidHuffman)
  }

  // ----- Counting -----

  lemma {:induction false} CountSplit(ls: seq<nat>, i: nat, l: nat)
    requires i <= |ls|
    ensures CountLen(ls[..i], l) + CountLen(ls[i..], l) == CountLen(ls, l)
    decreases |ls|
  {
    if i == |ls| {
      assert ls[..i] == ls;
    } else {
      var n := |ls| - 1;
      CountSplit(ls[..n], i, l);
      assert ls[..n][..i] == ls[..i] && ls[..n][i..] == ls[i..][..n - i];
    }
  }

  lemma CountStep(ls: seq<nat>, i: nat, l: nat)
    requires i < |ls|
    ensures CountLen(ls[..i + 1], l) == CountLen(ls[..i], l) + if ls[i] == l then 1 else 0
  {
    assert ls[..i + 1][..i] == ls[..i];
  }

  lemma CountBefore(ls: seq<nat>, i: nat, j: nat)
    requires i < j <= |ls|
    ensures CountLen(ls[..i], ls[i]) < CountLen(ls[..j], ls[i])
  {
    CountStep(ls, i, ls[i]);
    CountSplit(ls[..j], i + 1, ls[i]);
    assert ls[..j][..i + 1] == ls[..i + 1];
  }

  lemma CodeRange(ls: seq<nat>, i: nat)
    requires i < |ls|
    ensures First(ls, ls[i]) <= Code(ls, i) < Next(ls, ls[i])
  {
    CountBefore(ls, i, |ls|);
    assert ls[..|ls|] == ls;
  }

  // ----- The code is prefix-free -----

  lemma {:induction false} FirstGap(ls: seq<nat>, l: nat, k: nat)
    requires l >= 1 && k >= 1
    ensures Shl(Next(ls, l), k) <= First(ls, l + k)
    decreases k
  {
    hide CountLen;
    if k > 1 {
      FirstGap(ls, l, k - 1);
      assert l + k - 1 == l + (k - 1);
    }
  }

  /** A value of which the top bits exceed every code of their length is not cut short. */
  lemma {:induction false} ShrAtLeast(v: nat, w: nat, k: nat)
    ensures Shl(v, k) <= w <==> v <= Shr(w, k)
    decreases k
  {
    if k > 0 {
      ShrAtLeast(v, w / 2, k - 1);
    }
  }

  /** The top bits of a longer code are no code. */
  lemma TopBits(ls: seq<nat>, i: nat, j: nat)
    requires i < |ls| && j < |ls| && 1 <= ls[i] < ls[j]
    ensures Shr(Code(ls, j), ls[j] - ls[i]) >= Next(ls, ls[i]) > Code(ls, i)
  {
    hide *;
    var k := ls[j] - ls[i];
    FirstGap(ls, ls[i], k);
    assert ls[i] + k == ls[j];
    CodeRange(ls, i);
    CodeRange(ls, j);
    ShrAtLeast(Next(ls, ls[i]), Code(ls, j), k);
  }

  lemma CodeFits(ls: seq<nat>, max: nat, i: nat)
    requires Fits(ls, max) && i < |ls| && 1 <= ls[i] <= max
    ensures Code(ls, i) < Pow2(ls[i])
  {
    CodeRange(ls, i);
  }

  lemma WordValue(ls: seq<nat>, max: nat, i: nat, k: nat)
    requires Fits(ls, max) && i < |ls| && 1 <= ls[i] <= max && k <= ls[i]
    ensures ValueOf(Word(ls, i)[..k]) == Shr(Code(ls, i), ls[i] - k)
  {
    hide *;
    CodeFits(ls, max, i);
    ValueOfBits(Code(ls, i), ls[i]);
    WordUnfold(ls, i);
    SliceValue(Word(ls, i), 0, k);
    LowFits(Code(ls, i), ls[i]);
    assert Word(ls, i)[0..k] == Word(ls, i)[..k];
  }

  lemma WordUnfold(ls: seq<nat>, i: nat)
    requires i < |ls|
    ensures Word(ls, i) == BitsOf(Code(ls, i), ls[i])
  {
  }

  /** No code word is a prefix of another. */
  lemma PrefixFree(ls: seq<nat>, max: nat, i: nat, j: nat)
    requires Fits(ls, max) && i < |ls| && j < |ls| && i != j && 1 <= ls[i] <= ls[j] <= max
    ensures Word(ls, j)[..ls[i]] != Word(ls, i)
  {
    hide *;
    WordValue(ls, max, j, ls[i]);
    WordValue(ls, max, i, ls[i]);
    assert Word(ls, i)[..ls[i]] == Word(ls, i);
    ShrNothing(Code(ls, i));
    if ls[i] < ls[j] {
      TopBits(ls, i, j);
    } else {
      ShrNothing(Code(ls, j));
      if i < j {
        CodesAscend(ls, i, j);
      } else {
        CodesAscend(ls, j, i);
      }
    }
  }

  lemma ShrNothing(v: nat)
    ensures Shr(v, 0) == v
  {
  }

  lemma CodesAscend(ls: seq<nat>, i: nat, j: nat)
    requires i < j < |ls| && ls[i] == ls[j]
    ensures Code(ls, i) < Code(ls, j)
  {
    CountBefore(ls, i, j);
  }

  /** At most one code word comes next, so decoding is determined. */
  lemma BeginsUnique(ls: seq<nat>, max: nat, s: seq<bool>, at: nat, i: nat, j: nat)
    requires Fits(ls, max) && Begins(ls, s, at, i) && Begins(ls, s, at, j) && ls[i] <= max && ls[j] <= max
    ensures i == j
  {
    hide Fits, Word;
    if i != j {
      if ls[i] <= ls[j] {
        assert s[at..at + ls[j]][..ls[i]] == s[at..at + ls[i]];
        PrefixFree(ls, max, i, j);
      } else {
        assert s[at..at + ls[i]][..ls[j]] == s[at..at + ls[j]];
        PrefixFree(ls, max, j, i);
      }
    }
  }

  /** Decoding what a code word begins gives its symbol. */
  lemma NextSymbolIs(ls: seq<nat>, max: nat, s: seq<bool>, at: nat, i: nat)
    requires Fits(ls, max) && (forall k :: 0 <= k < |ls| ==> ls[k] <= max) && Begins(ls, s, at, i)
    ensures NextSymbol(ls, max, s, at) == Parsed(i, at + ls[i])
  {
    hide Fits, Word;
    var j: nat :| Begins(ls, s, at, j) && NextSymbol(ls, max, s, at) == Parsed(j, at + ls[j]);
    BeginsUnique(ls, max, s, at, i, j);
  }

  // ----- Kraft's inequality -----

  /** Shares of the symbols with lengths 1..l, in units of 2^-max. */
  function Mass(ls: seq<nat>, l: nat, max: nat): nat
    requires l <= max
  {
    if ls == [] then 0
    else Mass(ls[..|ls| - 1], l, max) + if 1 <= ls[|ls| - 1] <= l then Pow2(max - ls[|ls| - 1]) else 0
  }

  lemma {:induction false} ShlPlus(a: nat, b: nat, k: nat)
    ensures Shl(a + b, k) == Shl(a, k) + Shl(b, k)
  {
    if k > 0 {
      ShlPlus(a, b, k - 1);
    }
  }

  lemma {:induction false} ShlOne(k: nat)
    ensures Shl(1, k) == Pow2(k) && Shl(0, k) == 0
  {
    if k > 0 {
      ShlOne(k - 1);
    }
  }

  lemma {:induction false} MassStep(ls: seq<nat>, l: nat, max: nat)
    requires 1 <= l <= max
    ensures Mass(ls, l, max) == Mass(ls, l - 1, max) + Shl(CountLen(ls, l), max - l)
  {
    hide Shl, Pow2;
    ShlOne(max - l);
    if ls != [] {
      MassStep(ls[..|ls| - 1], l, max);
      ShlPlus(CountLen(ls[..|ls| - 1], l), 1, max - l);
    }
  }

  lemma {:induction false} MassIsNext(ls: seq<nat>, l: nat, max: nat)
    requires l <= max
    ensures l >= 1 ==> Mass(ls, l, max) == Shl(Next(ls, l), max - l)
    ensures l == 0 ==> Mass(ls, l, max) == 0
  {
    hide CountLen;
    if l == 0 {
      MassNothing(ls, max);
    } else {
      MassIsNext(ls, l - 1, max);
      MassStep(ls, l, max);
      ShlPlus(First(ls, l), CountLen(ls, l), max - l);
      if l == 1 {
        ShlOne(max - 1);
      } else {
        ShlPlus(Next(ls, l - 1), Next(ls, l - 1), max - l);
      }
    }
  }

  lemma {:induction false} MassNothing(ls: seq<nat>, max: nat)
    ensures Mass(ls, 0, max) == 0
  {
    if ls != [] {
      MassNothing(ls[..|ls| - 1], max);
    }
  }

  lemma {:induction false} MassMonotone(ls: seq<nat>, l: nat, max: nat)
    requires l <= max
    ensures Mass(ls, l, max) <= Mass(ls, max, max)
  {
    if ls != [] {
      MassMonotone(ls[..|ls| - 1], l, max);
    }
  }

  lemma {:induction false} MassIsKraft(ls: seq<nat>, max: nat)
    requires forall i :: 0 <= i < |ls| ==> 1 <= ls[i] <= max
    ensures Mass(ls, max, max) == PackageMerge.Kraft(ls, max)
  {
    if ls != [] {
      var n := |ls| - 1;
      MassIsKraft(ls[..n], max);
      assert PackageMerge.Shares(ls, max)[..n] == PackageMerge.Shares(ls[..n], max);
    } else {
      assert PackageMerge.Shares(ls, max) == [];
    }
  }

  lemma ShlAtMost(v: nat, l: nat, max: nat)
    requires l <= max
    ensures Shl(v, max - l) <= Pow2(max) <==> v <= Pow2(l)
  {
    ShlIsTimes(v, max - l);
    Pow2Add(l, max - l);
    assert l + (max - l) == max;
    Cancel(v, Pow2(l), Pow2(max - l));
  }

  lemma Cancel(a: nat, b: nat, p: nat)
    requires p >= 1
    ensures a * p <= b * p <==> a <= b
  {
    if a <= b {
      assert (b - a) * p >= 0;
    } else {
      assert (a - b) * p >= 1;
    }
  }

  /** A code whose shares do not exceed the whole fits at every length. */
  lemma FitsByMass(ls: seq<nat>, max: nat)
    requires Mass(ls, max, max) <= Pow2(max)
    ensures Fits(ls, max)
  {
    hide Next, Mass, Pow2, Shl;
    forall l | 1 <= l <= max ensures Next(ls, l) <= Pow2(l) {
      MassIsNext(ls, l, max);
      MassMonotone(ls, l, max);
      ShlAtMost(Next(ls, l), l, max);
    }
  }

  /** The codes of every length fit exactly when the lengths satisfy Kraft's inequality. */
  lemma FitsIsKraft(ls: seq<nat>, max: nat)
    requires max >= 1 && forall i :: 0 <= i < |ls| ==> 1 <= ls[i] <= max
    ensures Fits(ls, max) <==> PackageMerge.Kraft(ls, max) <= Pow2(max)
  {
    hide Next, Mass, PackageMerge.Kraft, Pow2, Shl;
    MassIsKraft(ls, max);
    MassIsNext(ls, max, max);
    ShlAtMost(Next(ls, max), max, max);
    if PackageMerge.Kraft(ls, max) <= Pow2(max) {
      FitsByMass(ls, max);
    }
  }

  /** A code that fits within `max` bits fits within any larger limit. */
  lemma {:induction false} FitsBeyond(ls: seq<nat>, max: nat, more: nat)
    requires 1 <= max <= more && Fits(ls, max) && forall i :: 0 <= i < |ls| ==> ls[i] <= max
    ensures Fits(ls, more)
    decreases more
  {
    hide CountLen;
    if max < more {
      FitsBeyond(ls, max, more - 1);
      NoneLonger(ls, more);
      assert Next(ls, more - 1) <= Pow2(more - 1);
    }
  }

  lemma {:induction false} NoneLonger(ls: seq<nat>, l: nat)
    requires forall i :: 0 <= i < |ls| ==> ls[i] != l
    ensures CountLen(ls, l) == 0
  {
    if ls != [] {
      NoneLonger(ls[..|ls| - 1], l);
    }
  }
}
