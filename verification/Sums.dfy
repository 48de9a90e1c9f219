/** Powers of two and finite sums. */
module Sums {
  function Pow2(n: nat): (p: nat)
    ensures p >= 1
  {
    if n == 0 then 1 else 2 * Pow2(n - 1)
  }

  lemma {:induction false} Pow2Add(a: nat, b: nat)
    ensures Pow2(a + b) == Pow2(a) * Pow2(b)
  {
    if b > 0 {
      Pow2Add(a, b - 1);
      assert Pow2(a + b) == 2 * Pow2(a + (b - 1)) && Pow2(b) == 2 * Pow2(b - 1);
      hide Pow2;
      DoubleSecond(Pow2(a), Pow2(b - 1));
    }
  }

  lemma DoubleSecond(x: nat, y: nat)
    ensures 2 * (x * y) == x * (2 * y)
  {
  }

  lemma {:induction false} Pow2Monotone(a: nat, b: nat)
    requires a <= b
    ensures Pow2(a) <= Pow2(b)
  {
    if a < b {
      Pow2Monotone(a, b - 1);
    }
  }

  lemma Pow2Values()
    ensures Pow2(8) == 0x100 && Pow2(16) == 0x1_0000 && Pow2(24) == 0x100_0000 && Pow2(32) == 0x1_0000_0000
  {
    assert Pow2(8) == 256;
    hide Pow2;
    Pow2Add(8, 8);
    Pow2Add(8, 16);
    Pow2Add(16, 16);
  }

  function Sum(xs: seq<nat>): nat
  {
    if xs == [] then 0 else Sum(xs[..|xs| - 1]) + xs[|xs| - 1]
  }

  lemma {:induction false} SumAppend(xs: seq<nat>, ys: seq<nat>)
    ensures Sum(xs + ys) == Sum(xs) + Sum(ys)
  {
    if ys == [] {
      assert xs + ys == xs;
    } else {
      SumAppend(xs, ys[..|ys| - 1]);
      assert (xs + ys)[..|xs + ys| - 1] == xs + ys[..|ys| - 1];
    }
  }

  lemma {:induction false} SumPlus(xs: seq<nat>, ys: seq<nat>, zs: seq<nat>)
    requires |xs| == |ys| == |zs| && forall i :: 0 <= i < |zs| ==> zs[i] == xs[i] + ys[i]
    ensures Sum(zs) == Sum(xs) + Sum(ys)
  {
    if zs != [] {
      var n := |zs| - 1;
      SumPlus(xs[..n], ys[..n], zs[..n]);
    }
  }

  lemma {:induction false} SumLeq(xs: seq<nat>, ys: seq<nat>)
    requires |xs| == |ys| && forall i :: 0 <= i < |xs| ==> xs[i] <= ys[i]
    ensures Sum(xs) <= Sum(ys)
  {
    if xs != [] {
      var n := |xs| - 1;
      SumLeq(xs[..n], ys[..n]);
    }
  }

  lemma {:induction false} SumScaled(xs: seq<nat>, k: nat, zs: seq<nat>)
    requires |xs| == |zs| && forall i :: 0 <= i < |zs| ==> zs[i] == k * xs[i]
    ensures Sum(zs) == k * Sum(xs)
  {
    if zs != [] {
      var n := |zs| - 1;
      SumScaled(xs[..n], k, zs[..n]);
      assert k * (Sum(xs[..n]) + xs[n]) == k * Sum(xs[..n]) + k * xs[n];
    }
  }

  lemma {:induction false} SumConstant(xs: seq<nat>, c: nat)
    requires forall i :: 0 <= i < |xs| ==> xs[i] == c
    ensures Sum(xs) == |xs| * c
  {
    if xs != [] {
      SumConstant(xs[..|xs| - 1], c);
      assert |xs| * c == (|xs| - 1) * c + c;
    }
  }

  lemma {:induction false} SumAtLeast(xs: seq<nat>, i: nat)
    requires i < |xs|
    ensures Sum(xs) >= xs[i]
  {
    var n := |xs| - 1;
    if i < n {
      SumAtLeast(xs[..n], i);
    }
  }

  lemma {:induction false} SumAtLeastTwo(xs: seq<nat>, i: nat, j: nat)
    requires i < j < |xs|
    ensures Sum(xs) >= xs[i] + xs[j]
  {
    var n := |xs| - 1;
    if j < n {
      SumAtLeastTwo(xs[..n], i, j);
    } else {
      SumAtLeast(xs[..n], i);
    }
  }

  lemma Quotient(q: nat, r: nat, d: nat)
    requires r < d
    ensures (q * d + r) / d == q && (q * d + r) % d == r
  {
    var x := q * d + r;
    Unique(q, r, x / d, x % d, d);
  }

  lemma Unique(q: nat, r: nat, k: nat, m: nat, d: nat)
    requires r < d && m < d && q * d + r == k * d + m
    ensures q == k && r == m
  {
    if q < k {
      Smaller(q, r, k, d);
    }
    if k < q {
      Smaller(k, m, q, d);
    }
  }

  lemma Smaller(q: nat, r: nat, k: nat, d: nat)
    requires r < d && q < k
    ensures q * d + r < k * d
  {
    assert (q + 1) * d <= k * d;
  }
}
