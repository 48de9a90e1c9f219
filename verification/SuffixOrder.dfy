/** Suffix types, LMS positions and the sort keys behind induced sorting. */
module SuffixOrder {
  import Lex

  /** `s` ends with a smallest value 0 that occurs nowhere else. */
  ghost predicate Sentinel(s: seq<nat>)
  {
    s != [] && s[|s| - 1] == 0 && forall i :: 0 <= i < |s| - 1 ==> s[i] > 0
  }

  ghost function Suffix(s: seq<nat>, i: nat): seq<int>
    requires i <= |s|
  {
    s[i..]
  }

  ghost predicate SufLess(s: seq<nat>, i: nat, j: nat)
    requires i < |s| && j < |s|
  {
    Lex.Less(Suffix(s, i), Suffix(s, j))
  }

  /** `sa` lists every position of `s` once, suffixes in strictly increasing order. */
  ghost predicate IsSuffixArray(s: seq<nat>, sa: seq<nat>)
  {
    && |sa| == |s|
    && (forall x :: 0 <= x < |sa| ==> sa[x] < |s|)
    && (forall p :: 0 <= p < |s| ==> p in sa)
    && (forall x, y :: 0 <= x < y < |sa| ==> SufLess(s, sa[x], sa[y]))
  }

  /** The recurrence that `classify` evaluates from the right; `true` is S-type. */
  ghost predicate Types(s: seq<nat>, t: seq<bool>)
  {
    && s != []
    && |t| == |s|
    && t[|s| - 1]
    && forall i :: 0 <= i < |s| - 1 ==> TypeRule(s, t, i)
  }

  predicate TypeRule(s: seq<nat>, t: seq<bool>, i: nat)
    requires |s| == |t| && i + 1 < |s|
  {
    t[i] <==> s[i] < s[i + 1] || (s[i] == s[i + 1] && t[i + 1])
  }

  predicate IsLms(t: seq<bool>, i: nat)
    requires i < |t|
  {
    i > 0 && t[i] && !t[i - 1]
  }

  lemma SufStep(s: seq<nat>, i: nat, j: nat)
    requires Sentinel(s) && i < |s| && j < |s| && i != j
    ensures SufLess(s, i, j) <==> s[i] < s[j] || (s[i] == s[j] && i + 1 < |s| && j + 1 < |s| && SufLess(s, i + 1, j + 1))
  {
    assert Suffix(s, i) == [s[i]] + s[i + 1..] && Suffix(s, j) == [s[j]] + s[j + 1..];
    Lex.Cons(s[i], s[i + 1..], s[j], s[j + 1..]);
  }

  lemma SufTotal(s: seq<nat>, i: nat, j: nat)
    requires i < |s| && j < |s| && i != j
    ensures SufLess(s, i, j) || SufLess(s, j, i)
  {
    Lex.Trichotomy(Suffix(s, i), Suffix(s, j));
    assert |Suffix(s, i)| != |Suffix(s, j)|;
  }

  /** S-type means smaller than the next suffix, which is what the classification is for. */
  lemma {:induction false} TypeMeaning(s: seq<nat>, t: seq<bool>, i: nat)
    requires Sentinel(s) && Types(s, t) && i < |s| - 1
    ensures t[i] <==> SufLess(s, i, i + 1)
    ensures !t[i] <==> SufLess(s, i + 1, i)
    decreases |s| - i
  {
    assert TypeRule(s, t, i);
    SufStep(s, i, i + 1);
    SufStep(s, i + 1, i);
    if s[i] == s[i + 1] {
      assert i + 1 < |s| - 1;
      TypeMeaning(s, t, i + 1);
    }
  }

  /** Among suffixes with the same first value every L-type precedes every S-type. */
  lemma {:induction false} LBeforeS(s: seq<nat>, t: seq<bool>, i: nat, j: nat)
    requires Sentinel(s) && Types(s, t) && i < |s| && j < |s|
    requires s[i] == s[j] && !t[i] && t[j]
    ensures SufLess(s, i, j)
    decreases |s| - i
  {
    SufStep(s, i, j);
    assert i < |s| - 1 && j < |s| - 1 && TypeRule(s, t, i) && TypeRule(s, t, j);
    if s[i + 1] == s[j + 1] {
      LBeforeS(s, t, i + 1, j + 1);
    } else {
      SufStep(s, i + 1, j + 1);
    }
  }

  // ----- Sort keys -----
  //
  // A key spells out values and types up to the next LMS position, whose place among the LMS
  // positions is given by `rank`. With `rank` the first value alone, keys order LMS substrings
  // (first pass); with `rank` the true order of the LMS suffixes, keys order suffixes (second pass).

  function Head(s: seq<nat>, t: seq<bool>, i: nat): int
    requires i < |s| == |t|
  {
    2 * s[i] + if t[i] then 1 else 0
  }

  ghost function SeedKey(s: seq<nat>, t: seq<bool>, rank: seq<nat>, i: nat): (k: seq<int>)
    requires |s| == |t| == |rank| && i < |s|
    ensures k != [] && k[0] == Head(s, t, i)
    decreases |s| - i, 1
  {
    if IsLms(t, i) then [Head(s, t, i), rank[i]] else Key(s, t, rank, i)
  }

  ghost function Key(s: seq<nat>, t: seq<bool>, rank: seq<nat>, i: nat): (k: seq<int>)
    requires |s| == |t| == |rank| && i < |s|
    ensures k != [] && k[0] == Head(s, t, i)
    decreases |s| - i, 0
  {
    [Head(s, t, i)] + KeyTail(s, t, rank, i)
  }

  ghost function KeyTail(s: seq<nat>, t: seq<bool>, rank: seq<nat>, i: nat): seq<int>
    requires |s| == |t| == |rank| && i < |s|
    decreases |s| - i - 1, 2
  {
    if i + 1 == |s| then [] else if t[i] then Key(s, t, rank, i + 1) else SeedKey(s, t, rank, i + 1)
  }

  lemma KeyStep(s: seq<nat>, t: seq<bool>, rank: seq<nat>, i: nat, j: nat)
    requires |s| == |t| == |rank| && i < |s| && j < |s|
    ensures Lex.Less(Key(s, t, rank, i), Key(s, t, rank, j)) <==>
            Head(s, t, i) < Head(s, t, j) || (Head(s, t, i) == Head(s, t, j) && Lex.Less(KeyTail(s, t, rank, i), KeyTail(s, t, rank, j)))
  {
    Lex.Cons(Head(s, t, i), KeyTail(s, t, rank, i), Head(s, t, j), KeyTail(s, t, rank, j));
  }

  lemma HeadsDecide(s: seq<nat>, t: seq<bool>, rank: seq<nat>, i: nat, j: nat)
    requires |s| == |t| == |rank| && i < |s| && j < |s|
    requires Head(s, t, i) < Head(s, t, j)
    ensures Lex.Less(Key(s, t, rank, i), Key(s, t, rank, j)) && !Lex.Less(Key(s, t, rank, j), Key(s, t, rank, i))
    ensures Lex.Less(SeedKey(s, t, rank, i), SeedKey(s, t, rank, j)) && !Lex.Less(SeedKey(s, t, rank, j), SeedKey(s, t, rank, i))
  {
  }

  /** First pass: when the keys of two positions differ they order the suffixes correctly. */
  lemma {:induction false} KeyLessIsSufLess(s: seq<nat>, t: seq<bool>, i: nat, j: nat)
    requires Sentinel(s) && Types(s, t) && i < |s| && j < |s|
    requires Lex.Less(Key(s, t, s, i), Key(s, t, s, j))
    ensures SufLess(s, i, j)
    decreases |s| - i, 0
  {
    if i == j {
      Lex.Irreflexive(Key(s, t, s, i));
    }
    KeyStep(s, t, s, i, j);
    SufStep(s, i, j);
    if s[i] == s[j] {
      if t[i] != t[j] {
        LBeforeS(s, t, i, j);
      } else if t[i] {
        KeyLessIsSufLess(s, t, i + 1, j + 1);
      } else {
        SeedKeyLessIsSufLess(s, t, i + 1, j + 1);
      }
    }
  }

  lemma {:induction false} SeedKeyLessIsSufLess(s: seq<nat>, t: seq<bool>, i: nat, j: nat)
    requires Sentinel(s) && Types(s, t) && i < |s| && j < |s|
    requires (t[i] ==> IsLms(t, i)) && (t[j] ==> IsLms(t, j))
    requires Lex.Less(SeedKey(s, t, s, i), SeedKey(s, t, s, j))
    ensures SufLess(s, i, j)
    decreases |s| - i, 1
  {
    if s[i] != s[j] {
      SufStep(s, i, j);
    } else if !IsLms(t, i) && !IsLms(t, j) {
      KeyLessIsSufLess(s, t, i, j);
    } else if IsLms(t, i) && IsLms(t, j) {
      Lex.Irreflexive([Head(s, t, i), s[i]]);
    } else {
      LBeforeS(s, t, i, j);
    }
  }

  /** The ranks of LMS positions agree with the order of their suffixes. */
  ghost predicate RankSorted(s: seq<nat>, t: seq<bool>, rank: seq<nat>)
  {
    && |s| == |t| == |rank|
    && forall a, b :: 0 <= a < |s| && 0 <= b < |s| && IsLms(t, a) && IsLms(t, b) && SufLess(s, a, b) ==> rank[a] < rank[b]
  }

  /** Second pass: keys built on the true LMS order are as fine as the suffix order. */
  lemma {:induction false} SufLessIsKeyLess(s: seq<nat>, t: seq<bool>, rank: seq<nat>, i: nat, j: nat)
    requires Sentinel(s) && Types(s, t) && RankSorted(s, t, rank) && i < |s| && j < |s| && i != j
    requires SufLess(s, i, j)
    ensures Lex.Less(Key(s, t, rank, i), Key(s, t, rank, j))
    decreases |s| - i
  {
    KeyStep(s, t, rank, i, j);
    SufStep(s, i, j);
    if s[i] == s[j] {
      if t[i] != t[j] {
        if t[i] {
          LBeforeS(s, t, j, i);
          Lex.Asymmetric(Suffix(s, i), Suffix(s, j));
        }
      } else {
        SufLessIsKeyLess(s, t, rank, i + 1, j + 1);
        SufStep(s, i + 1, j + 1);
      }
    }
  }
}
