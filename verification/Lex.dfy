/** Lexicographic order on integer sequences: the order in which suffixes and rotations are sorted. */
module Lex {
  predicate Less(a: seq<int>, b: seq<int>)
  {
    b != [] && (a == [] || a[0] < b[0] || (a[0] == b[0] && Less(a[1..], b[1..])))
  }

  lemma {:induction false} Irreflexive(a: seq<int>)
    ensures !Less(a, a)
  {
    if a != [] {
      Irreflexive(a[1..]);
    }
  }

  lemma {:induction false} Transitive(a: seq<int>, b: seq<int>, c: seq<int>)
    requires Less(a, b) && Less(b, c)
    ensures Less(a, c)
  {
    if a != [] && a[0] == b[0] && b[0] == c[0] {
      Transitive(a[1..], b[1..], c[1..]);
    }
  }

  lemma {:induction false} Trichotomy(a: seq<int>, b: seq<int>)
    ensures a == b || Less(a, b) || Less(b, a)
  {
    if a != [] && b != [] && a[0] == b[0] {
      Trichotomy(a[1..], b[1..]);
      if a[1..] == b[1..] {
        assert a == [a[0]] + a[1..];
      }
    }
  }

  lemma Asymmetric(a: seq<int>, b: seq<int>)
    requires Less(a, b)
    ensures !Less(b, a)
  {
    if Less(b, a) {
      Transitive(a, b, a);
      Irreflexive(a);
    }
  }

  /** "Not greater" composes with "less". */
  lemma NotGreaterThenLess(a: seq<int>, b: seq<int>, c: seq<int>)
    requires !Less(b, a) && Less(b, c)
    ensures Less(a, c)
  {
    Trichotomy(a, b);
    if Less(a, b) {
      Transitive(a, b, c);
    }
  }

  lemma NotGreaterTransitive(a: seq<int>, b: seq<int>, c: seq<int>)
    requires !Less(b, a) && !Less(c, b)
    ensures !Less(c, a)
  {
    if Less(c, a) {
      Trichotomy(b, c);
      if Less(b, c) {
        Transitive(b, c, a);
      }
    }
  }

  lemma Cons(x: int, a: seq<int>, y: int, b: seq<int>)
    ensures Less([x] + a, [y] + b) <==> x < y || (x == y && Less(a, b))
  {
    assert ([x] + a)[1..] == a && ([y] + b)[1..] == b;
  }

  /** Truncating two sequences at the same length cannot reverse their order. */
  lemma {:induction false} Prefixes(a: seq<int>, b: seq<int>, m: nat)
    requires m <= |a| && m <= |b|
    requires Less(a[..m], b[..m])
    ensures Less(a, b)
  {
    if m > 0 && a[0] == b[0] {
      assert a[..m][1..] == a[1..][..m - 1] && b[..m][1..] == b[1..][..m - 1];
      Prefixes(a[1..], b[1..], m - 1);
    }
  }
}
