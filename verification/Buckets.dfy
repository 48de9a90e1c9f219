/** Bucket boundaries of a suffix array under construction: value by value, L-types before S-types. */
module Buckets {
  ghost function Below(s: seq<nat>, c: nat): set<int> { set j: int | 0 <= j < |s| && s[j] < c }

  ghost function Having(s: seq<nat>, c: nat): set<int> { set j: int | 0 <= j < |s| && s[j] == c }

  ghost function OfType(s: seq<nat>, t: seq<bool>, c: nat, ty: bool): set<int>
    requires |s| == |t|
  {
    set j: int | 0 <= j < |s| && s[j] == c && t[j] == ty
  }

  /** First slot of bucket `c`. */
  ghost function Start(s: seq<nat>, c: nat): nat { |Below(s, c)| }

  /** First S-type slot of bucket `c`. */
  ghost function Mid(s: seq<nat>, t: seq<bool>, c: nat): nat
    requires |s| == |t|
  {
    Start(s, c) + |OfType(s, t, c, false)|
  }

  /** One past the last slot of bucket `c`. */
  ghost function End(s: seq<nat>, c: nat): nat { Start(s, c + 1) }

  lemma EndIsStartPlusCount(s: seq<nat>, c: nat)
    ensures End(s, c) == Start(s, c) + |Having(s, c)|
  {
    assert Below(s, c + 1) == Below(s, c) + Having(s, c);
    assert Below(s, c) !! Having(s, c);
  }

  lemma EndIsMidPlusS(s: seq<nat>, t: seq<bool>, c: nat)
    requires |s| == |t|
    ensures End(s, c) == Mid(s, t, c) + |OfType(s, t, c, true)|
  {
    EndIsStartPlusCount(s, c);
    assert Having(s, c) == OfType(s, t, c, false) + OfType(s, t, c, true);
    assert OfType(s, t, c, false) !! OfType(s, t, c, true);
  }

  lemma Ordered(s: seq<nat>, t: seq<bool>, c: nat, d: nat)
    requires |s| == |t| && c < d
    ensures Start(s, c) <= Mid(s, t, c) <= End(s, c) <= Start(s, d) <= Mid(s, t, d) <= End(s, d) <= |s|
  {
    EndIsMidPlusS(s, t, c);
    EndIsMidPlusS(s, t, d);
    Larger(Below(s, c + 1), Below(s, d));
    Larger(Below(s, d + 1), Upto(|s|));
  }

  ghost function Upto(n: nat): (u: set<int>)
    ensures forall j :: j in u <==> 0 <= j < n
    ensures |u| == n
  {
    if n == 0 then {} else Upto(n - 1) + {n - 1}
  }

  lemma Larger<T>(a: set<T>, b: set<T>)
    requires a <= b
    ensures |a| <= |b|
    ensures |a| == |b| ==> a == b
  {
    assert b == a + (b - a);
    assert |b| == |a| + |b - a|;
  }

  /** An injection of 0..n into itself, given as a sequence, hits everything. */
  lemma InjectionIsSurjection(f: seq<int>, n: nat)
    requires |f| == n
    requires forall p :: 0 <= p < n ==> 0 <= f[p] < n
    requires forall p, q :: 0 <= p < q < n ==> f[p] != f[q]
    ensures forall x :: 0 <= x < n ==> x in f
  {
    ImageSize(f, n);
    Larger(set p | 0 <= p < n :: f[p], Upto(n));
    forall x | 0 <= x < n ensures x in f {
      assert x in Upto(n);
    }
  }

  lemma {:induction false} ImageSize(f: seq<int>, m: nat)
    requires m <= |f|
    requires forall p, q :: 0 <= p < q < m ==> f[p] != f[q]
    ensures |set p | 0 <= p < m :: f[p]| == m
  {
    var image := set p | 0 <= p < m :: f[p];
    if m > 0 {
      ImageSize(f, m - 1);
      var rest := set p | 0 <= p < m - 1 :: f[p];
      assert image == rest + {f[m - 1]};
      assert f[m - 1] !in rest;
    } else {
      assert image == {};
    }
  }
}
