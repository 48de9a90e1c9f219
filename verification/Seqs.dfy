/** Parts and rearrangements of sequences. */
module Seqs {
  /** The elements `b` stand at position `at`. */
  ghost predicate Has<T>(s: seq<T>, at: nat, b: seq<T>)
  {
    at + |b| <= |s| && s[at..at + |b|] == b
  }

  lemma HasSplit<T>(s: seq<T>, at: nat, a: seq<T>, b: seq<T>)
    requires Has(s, at, a + b)
    ensures Has(s, at, a) && Has(s, at + |a|, b)
  {
    assert s[at..at + |a|] == s[at..at + |a + b|][..|a|];
    assert s[at + |a|..at + |a| + |b|] == s[at..at + |a + b|][|a|..];
  }

  lemma HasBoth<T>(s: seq<T>, at: nat, a: seq<T>, b: seq<T>)
    requires Has(s, at, a) && Has(s, at + |a|, b)
    ensures Has(s, at, a + b)
  {
    assert s[at..at + |a + b|] == s[at..at + |a|] + s[at + |a|..at + |a| + |b|];
  }

  lemma HasSlice<T>(s: seq<T>, at: nat, b: seq<T>)
    requires Has(s, at, b)
    ensures at + |b| <= |s| && s[at..at + |b|] == b
  {
  }

  lemma HasEnd<T>(s: seq<T>, at: nat, b: seq<T>)
    requires Has(s, at, b)
    ensures at + |b| <= |s|
  {
  }

  lemma HasJoin<T>(a: seq<T>, b: seq<T>, c: seq<T>, s: seq<T>)
    requires s == a + b + c
    ensures Has(s, |a|, b)
  {
  }

  lemma Cut<T>(whole: seq<T>, i: nat, j: nat)
    requires i <= j <= |whole|
    ensures whole == whole[..i] + whole[i..j] + whole[j..]
  {
  }

  lemma Middle<T>(whole: seq<T>, a: seq<T>, b: seq<T>, c: seq<T>, i: nat, j: nat)
    requires whole == a + b + c && |a| == i && i + |b| == j
    ensures whole[i..j] == b
  {
  }

  /** A slice of a slice. */
  lemma Nested<T>(whole: seq<T>, part: seq<T>, i: nat, j: nat, a: nat, b: nat, x: nat, y: nat)
    requires i <= j <= |whole| && a <= b <= j - i && x == i + a && y == i + b && part == whole[i..j]
    ensures part[a..b] == whole[x..y]
  {
    forall k | 0 <= k < b - a ensures part[a..b][k] == whole[x..y][k] {
      assert part[a..b][k] == part[a + k] == whole[i + (a + k)];
    }
  }

  lemma Regroup<T>(a: seq<T>, b: seq<T>, c: seq<T>)
    ensures a + (b + c) == (a + b) + c
  {
  }

  lemma Regroup3<T>(a: seq<T>, b: seq<T>, c: T, d: seq<T>)
    ensures a + (b + [c] + d) == ((a + b) + [c]) + d
  {
  }

  lemma Regroup5<T>(z: seq<T>, a: seq<T>, b: seq<T>, c: seq<T>, d: seq<T>, e: seq<T>)
    ensures z + (a + (b + (c + (d + e)))) == ((((z + a) + b) + c) + d) + e
  {
    Regroup(z, a, b + (c + (d + e)));
    Regroup(z + a, b, c + (d + e));
    Regroup(z + a + b, c, d + e);
    Regroup(z + a + b + c, d, e);
  }

  // ----- Elements -----

  ghost function Members<T(!new)>(xs: seq<T>): set<T>
  {
    set x | x in xs
  }

  lemma {:induction false} DistinctCount<T(!new)>(xs: seq<T>)
    requires forall i, j :: 0 <= i < j < |xs| ==> xs[i] != xs[j]
    ensures |Members(xs)| == |xs|
  {
    if xs != [] {
      var n := |xs| - 1;
      DistinctCount(xs[..n]);
      assert xs[n] !in Members(xs[..n]);
      assert xs == xs[..n] + [xs[n]];
      assert Members(xs) == Members(xs[..n]) + {xs[n]};
    }
  }

  lemma {:induction false} SubsetSize<T>(a: set<T>, b: set<T>)
    requires a <= b
    ensures |a| <= |b|
  {
    if a != {} {
      var x :| x in a;
      SubsetSize(a - {x}, b - {x});
    }
  }
}
