/** Naming sorted LMS substrings so that the reduced string sorts like the LMS suffixes. */
module Naming {
  import opened SuffixOrder
  import opened Buckets
  import Lex

  /** All LMS positions, ascending. */
  ghost predicate LmsList(t: seq<bool>, l: seq<nat>)
  {
    && (forall x :: 0 <= x < |l| ==> l[x] < |t| && IsLms(t, l[x]))
    && (forall x, y :: 0 <= x < y < |l| ==> l[x] < l[y])
    && (forall p :: 0 <= p < |t| && IsLms(t, p) ==> p in l)
  }

  /** All LMS positions, once each, in the order of their first-pass keys. */
  ghost predicate LmsByKey(s: seq<nat>, t: seq<bool>, l: seq<nat>)
    requires |s| == |t|
  {
    && (forall x :: 0 <= x < |l| ==> l[x] < |s| && IsLms(t, l[x]))
    && (forall x, y :: 0 <= x < y < |l| ==> l[x] != l[y] && !Lex.Less(Key(s, t, s, l[y]), Key(s, t, s, l[x])))
    && (forall p :: 0 <= p < |s| && IsLms(t, p) ==> p in l)
  }

  lemma SameLength(a: seq<nat>, b: seq<nat>)
    requires forall x, y :: 0 <= x < y < |a| ==> a[x] != a[y]
    requires forall x, y :: 0 <= x < y < |b| ==> b[x] != b[y]
    requires forall p :: p in a <==> p in b
    ensures |a| == |b|
  {
    ImageSize(a, |a|);
    ImageSize(b, |b|);
    var xs, ys := set p | 0 <= p < |a| :: a[p] as int, set p | 0 <= p < |b| :: b[p] as int;
    assert forall v: nat :: v in xs <==> v in a;
    assert forall v: nat :: v in ys <==> v in b;
    assert xs == ys;
  }

  /** LMS positions are never adjacent, so halving a list of them loses at least half the length. */
  lemma {:induction false} LmsSparse(t: seq<bool>, l: seq<nat>, x: nat)
    requires LmsList(t, l) && x < |l|
    ensures l[x] >= 2 * x + 1
  {
    if x > 0 {
      LmsSparse(t, l, x - 1);
      assert !(l[x] == l[x - 1] + 1);
    }
  }

  /** From `p` and `q` the string runs alike, values and types, until both meet an LMS position. */
  predicate BodiesEqual(s: seq<nat>, t: seq<bool>, p: nat, q: nat)
    requires |s| == |t|
    decreases |s| - p
  {
    && p + 1 < |s| && q + 1 < |s|
    && s[p] == s[q] && t[p] == t[q]
    && IsLms(t, p + 1) == IsLms(t, q + 1)
    && (IsLms(t, p + 1) || BodiesEqual(s, t, p + 1, q + 1))
  }

  /** What `lms_substr_eq` decides: the value at the closing LMS position is not compared. */
  predicate SubstrEq(s: seq<nat>, t: seq<bool>, p: nat, q: nat)
    requires |s| == |t|
  {
    if p + 1 == |s| || q + 1 == |s| then p == q else BodiesEqual(s, t, p, q)
  }

  lemma {:induction false} BodiesEqualTransitive(s: seq<nat>, t: seq<bool>, p: nat, q: nat, r: nat)
    requires |s| == |t| && BodiesEqual(s, t, p, q) && BodiesEqual(s, t, r, q)
    ensures BodiesEqual(s, t, p, r) && BodiesEqual(s, t, r, p)
    decreases |s| - p
  {
    if !IsLms(t, p + 1) {
      BodiesEqualTransitive(s, t, p + 1, q + 1, r + 1);
    }
  }

  lemma SubstrEqTransitive(s: seq<nat>, t: seq<bool>, p: nat, q: nat, r: nat)
    requires |s| == |t| && SubstrEq(s, t, p, q) && SubstrEq(s, t, r, q)
    ensures SubstrEq(s, t, p, r) && SubstrEq(s, t, r, p)
  {
    if p + 1 != |s| && q + 1 != |s| {
      BodiesEqualTransitive(s, t, p, q, r);
    }
  }

  lemma KeyEqStep(s: seq<nat>, t: seq<bool>, p: nat, q: nat)
    requires |s| == |t| && p < |s| && q < |s| && Key(s, t, s, p) == Key(s, t, s, q)
    ensures s[p] == s[q] && t[p] == t[q] && KeyTail(s, t, s, p) == KeyTail(s, t, s, q)
  {
    assert Key(s, t, s, p)[0] == Head(s, t, p) && Key(s, t, s, q)[0] == Head(s, t, q);
    assert Key(s, t, s, p)[1..] == KeyTail(s, t, s, p) && Key(s, t, s, q)[1..] == KeyTail(s, t, s, q);
  }

  /** Equal first-pass keys mean equal bodies. */
  lemma {:induction false} KeyEqBody(s: seq<nat>, t: seq<bool>, p: nat, q: nat)
    requires Sentinel(s) && Types(s, t) && p + 1 < |s| && q + 1 < |s|
    requires Key(s, t, s, p) == Key(s, t, s, q)
    ensures BodiesEqual(s, t, p, q)
    decreases |s| - p
  {
    KeyEqStep(s, t, p, q);
    assert TypeRule(s, t, p) && TypeRule(s, t, q);
    if t[p] {
      KeyEqBody(s, t, p + 1, q + 1);
    } else {
      assert SeedKey(s, t, s, p + 1)[0] == SeedKey(s, t, s, q + 1)[0];
      assert Head(s, t, p + 1) == Head(s, t, q + 1);
      if !t[p + 1] {
        KeyEqBody(s, t, p + 1, q + 1);
      }
    }
  }

  function NextLms(t: seq<bool>, p: nat): (q: nat)
    requires p + 1 < |t|
    ensures p < q < |t| && (q + 1 == |t| || IsLms(t, q))
    ensures forall r :: p < r < q ==> !IsLms(t, r)
    decreases |t| - p
  {
    if p + 2 == |t| || IsLms(t, p + 1) then p + 1 else NextLms(t, p + 1)
  }

  /** A tie between bodies is decided by what follows them. */
  lemma {:induction false} BodyThenRest(s: seq<nat>, t: seq<bool>, p: nat, q: nat)
    requires Sentinel(s) && |s| == |t| && p != q && BodiesEqual(s, t, p, q)
    requires SufLess(s, NextLms(t, p), NextLms(t, q))
    ensures SufLess(s, p, q)
    decreases |s| - p
  {
    SufStep(s, p, q);
    if !IsLms(t, p + 1) {
      BodyThenRest(s, t, p + 1, q + 1);
    }
  }

  // ----- Names -----

  lemma SameKeySameBody(s: seq<nat>, t: seq<bool>, p: nat, q: nat)
    requires Sentinel(s) && Types(s, t) && p < |s| && q < |s|
    requires Key(s, t, s, p) == Key(s, t, s, q)
    ensures SubstrEq(s, t, p, q)
  {
    if p + 1 < |s| && q + 1 < |s| {
      KeyEqBody(s, t, p, q);
    } else {
      assert Key(s, t, s, p)[0] == Head(s, t, p) && Key(s, t, s, q)[0] == Head(s, t, q);
    }
  }

  /** Names count up from 0 along the sorted list; `g` starts the group of the last one. */
  ghost predicate Numbered(nm: seq<nat>, name: nat, g: nat)
  {
    && (nm == [] ==> name == 0)
    && (nm != [] ==> g < |nm| && nm[|nm| - 1] + 1 == name && nm[0] == 0)
    && (forall x :: 0 <= x < |nm| ==> nm[x] < name && nm[x] <= x && name - nm[x] <= |nm| - x)
    && (forall x, y :: 0 <= x < y < |nm| ==> nm[x] <= nm[y])
    && (forall x :: g <= x < |nm| ==> nm[x] + 1 == name)
  }

  /** Equal names mean equal bodies and increasing names mean increasing keys. */
  ghost predicate NameRule(s: seq<nat>, t: seq<bool>, l: seq<nat>, nm: seq<nat>, x: nat, y: nat)
    requires |s| == |t| && x < |nm| <= |l| && y < |nm| && l[x] < |s| && l[y] < |s|
  {
    && (nm[x] == nm[y] ==> SubstrEq(s, t, l[x], l[y]))
    && (nm[x] < nm[y] ==> Lex.Less(Key(s, t, s, l[x]), Key(s, t, s, l[y])))
  }

  /** `nm[x]` is the name of the x-th sorted LMS position. */
  ghost predicate Named(s: seq<nat>, t: seq<bool>, l: seq<nat>, nm: seq<nat>, name: nat, g: nat)
    requires |s| == |t| && |nm| <= |l| && forall x :: 0 <= x < |l| ==> l[x] < |s|
  {
    Numbered(nm, name, g) && forall x, y :: 0 <= x < |nm| && 0 <= y < |nm| ==> NameRule(s, t, l, nm, x, y)
  }

  /** A position that does not match the current group comes strictly after everything before it. */
  lemma FreshIsGreater(s: seq<nat>, t: seq<bool>, l: seq<nat>, y: nat, g: nat, x: nat)
    requires Sentinel(s) && Types(s, t) && LmsByKey(s, t, l) && x < y < |l| && g < y
    requires SubstrEq(s, t, l[g], l[y - 1]) && !SubstrEq(s, t, l[y], l[g])
    ensures Lex.Less(Key(s, t, s, l[x]), Key(s, t, s, l[y]))
  {
    var kx, kc, ky := Key(s, t, s, l[x]), Key(s, t, s, l[y - 1]), Key(s, t, s, l[y]);
    Lex.Trichotomy(kc, ky);
    if kc == ky {
      SameKeySameBody(s, t, l[y], l[y - 1]);
      SubstrEqTransitive(s, t, l[y], l[y - 1], l[g]);
    }
    if x < y - 1 {
      Lex.NotGreaterThenLess(kx, kc, ky);
    }
  }

  lemma NameFresh(s: seq<nat>, t: seq<bool>, l: seq<nat>, nm: seq<nat>, name: nat, g: nat)
    requires Sentinel(s) && Types(s, t) && LmsByKey(s, t, l) && |nm| < |l| && Named(s, t, l, nm, name, g)
    requires nm != [] ==> !SubstrEq(s, t, l[|nm|], l[g])
    ensures Named(s, t, l, nm + [name], name + 1, |nm|)
  {
    hide SubstrEq, Key, Lex.Less, TypeRule, Sentinel;
    var nm1 := nm + [name];
    SameKeySameBody(s, t, l[|nm|], l[|nm|]);
    if nm != [] {
      assert NameRule(s, t, l, nm, g, |nm| - 1);
    }
    forall x, y | 0 <= x < |nm1| && 0 <= y < |nm1| ensures NameRule(s, t, l, nm1, x, y) {
      if x < |nm| && y < |nm| {
        assert NameRule(s, t, l, nm, x, y);
      } else if x < |nm| {
        FreshIsGreater(s, t, l, |nm|, g, x);
      }
    }
  }

  /** A position that matches the current group belongs to it and comes after all earlier groups. */
  lemma SameGroup(s: seq<nat>, t: seq<bool>, l: seq<nat>, nm: seq<nat>, name: nat, g: nat, x: nat)
    requires Sentinel(s) && Types(s, t) && LmsByKey(s, t, l) && x < |nm| < |l| && Named(s, t, l, nm, name, g)
    requires SubstrEq(s, t, l[|nm|], l[g])
    ensures nm[x] + 1 == name ==> SubstrEq(s, t, l[x], l[|nm|]) && SubstrEq(s, t, l[|nm|], l[x])
    ensures nm[x] + 1 < name ==> Lex.Less(Key(s, t, s, l[x]), Key(s, t, s, l[|nm|]))
  {
    if nm[x] + 1 == name {
      assert NameRule(s, t, l, nm, x, g);
      SubstrEqTransitive(s, t, l[x], l[g], l[|nm|]);
    } else {
      assert NameRule(s, t, l, nm, x, |nm| - 1);
      var kx, kc, ky := Key(s, t, s, l[x]), Key(s, t, s, l[|nm| - 1]), Key(s, t, s, l[|nm|]);
      Lex.Trichotomy(kc, ky);
      if Lex.Less(kc, ky) {
        Lex.Transitive(kx, kc, ky);
      }
    }
  }

  lemma NameAgain(s: seq<nat>, t: seq<bool>, l: seq<nat>, nm: seq<nat>, name: nat, g: nat)
    requires Sentinel(s) && Types(s, t) && LmsByKey(s, t, l) && 0 < |nm| < |l| && Named(s, t, l, nm, name, g)
    requires SubstrEq(s, t, l[|nm|], l[g])
    ensures Named(s, t, l, nm + [name - 1], name, g)
  {
    var nm1 := nm + [name - 1];
    SameKeySameBody(s, t, l[|nm|], l[|nm|]);
    forall x, y | 0 <= x < |nm1| && 0 <= y < |nm1| ensures NameRule(s, t, l, nm1, x, y) {
      if x < |nm| && y < |nm| {
        assert NameRule(s, t, l, nm, x, y);
      } else if x < |nm| {
        SameGroup(s, t, l, nm, name, g, x);
      } else if y < |nm| {
        SameGroup(s, t, l, nm, name, g, y);
      }
    }
  }

  lemma NamedEmpty(s: seq<nat>, t: seq<bool>, l: seq<nat>)
    requires |s| == |t| && forall x :: 0 <= x < |l| ==> l[x] < |s|
    ensures Named(s, t, l, [], 0, 0)
  {
  }

  lemma NameNext(s: seq<nat>, t: seq<bool>, l: seq<nat>, nm: seq<nat>, name: nat, g: nat, isNew: bool)
    requires Sentinel(s) && Types(s, t) && LmsByKey(s, t, l) && |nm| < |l| && Named(s, t, l, nm, name, g)
    requires isNew == (nm == [] || !SubstrEq(s, t, l[|nm|], l[g]))
    ensures isNew ==> Named(s, t, l, nm + [name], name + 1, |nm|)
    ensures !isNew ==> name > 0 && Named(s, t, l, nm + [name - 1], name, g)
  {
    if isNew {
      NameFresh(s, t, l, nm, name, g);
    } else {
      NameAgain(s, t, l, nm, name, g);
    }
  }

  /** The reduced string: names of the LMS positions, by position. */
  ghost predicate Reduced(s: seq<nat>, t: seq<bool>, lmsPos: seq<nat>, r: seq<nat>)
    requires |s| == |t|
  {
    && |r| == |lmsPos|
    && (forall x :: 0 <= x < |lmsPos| ==> lmsPos[x] < |s|)
    && (forall x, y :: 0 <= x < |r| && 0 <= y < |r| && r[x] == r[y] ==> SubstrEq(s, t, lmsPos[x], lmsPos[y]))
    && (forall x, y :: 0 <= x < |r| && 0 <= y < |r| && r[x] < r[y] ==> Lex.Less(Key(s, t, s, lmsPos[x]), Key(s, t, s, lmsPos[y])))
  }

  /** Sorting suffixes of the reduced string sorts the LMS suffixes; equal names fall through. */
  lemma {:induction false} ReducedOrder(s: seq<nat>, t: seq<bool>, lmsPos: seq<nat>, r: seq<nat>, a: nat, b: nat)
    requires Sentinel(s) && Types(s, t) && LmsList(t, lmsPos) && Reduced(s, t, lmsPos, r) && Sentinel(r)
    requires a < |r| && b < |r| && a != b && SufLess(r, a, b)
    ensures SufLess(s, lmsPos[a], lmsPos[b])
    decreases |r| - a
  {
    SufStep(r, a, b);
    var p, q := lmsPos[a], lmsPos[b];
    if r[a] < r[b] {
      KeyLessIsSufLess(s, t, p, q);
    } else {
      assert SubstrEq(s, t, p, q);
      NextInList(s, t, lmsPos, a);
      NextInList(s, t, lmsPos, b);
      ReducedOrder(s, t, lmsPos, r, a + 1, b + 1);
      BodyThenRest(s, t, p, q);
    }
  }

  lemma NextInList(s: seq<nat>, t: seq<bool>, lmsPos: seq<nat>, a: nat)
    requires Sentinel(s) && Types(s, t) && LmsList(t, lmsPos) && a + 1 < |lmsPos|
    ensures lmsPos[a] + 1 < |t| && lmsPos[a + 1] == NextLms(t, lmsPos[a])
  {
    var p := lmsPos[a];
    assert p < lmsPos[a + 1];
    var q := NextLms(t, p);
    assert TypeRule(s, t, |s| - 2);
    assert q in lmsPos;
    var x :| 0 <= x < |lmsPos| && lmsPos[x] == q;
    assert x > a;
    assert !(p < lmsPos[a + 1] < q);
  }

  // ----- The reduced string and the ranks it yields -----

  lemma SentinelFirst(s: seq<nat>, t: seq<bool>, l: seq<nat>)
    requires Sentinel(s) && Types(s, t) && |s| > 1 && LmsByKey(s, t, l)
    ensures l != [] && l[0] == |s| - 1
  {
    assert TypeRule(s, t, |s| - 2);
    assert IsLms(t, |s| - 1);
    assert |s| - 1 in l;
    var x :| 0 <= x < |l| && l[x] == |s| - 1;
    if x > 0 {
      HeadsDecide(s, t, s, |s| - 1, l[0]);
    }
  }

  lemma ReducedPair(s: seq<nat>, t: seq<bool>, l: seq<nat>, nm: seq<nat>, name: nat, g: nat, lmsPos: seq<nat>, r: seq<nat>, i: nat, j: nat)
    requires |s| == |t| && LmsByKey(s, t, l) && LmsList(t, lmsPos) && i < |r| && j < |r|
    requires |nm| == |l| && Named(s, t, l, nm, name, g) && |r| == |lmsPos|
    requires forall i, x :: 0 <= i < |r| && 0 <= x < |l| && lmsPos[i] == l[x] ==> r[i] == nm[x]
    ensures r[i] < name
    ensures r[i] == r[j] ==> SubstrEq(s, t, lmsPos[i], lmsPos[j])
    ensures r[i] < r[j] ==> Lex.Less(Key(s, t, s, lmsPos[i]), Key(s, t, s, lmsPos[j]))
    ensures name == |l| && i != j ==> r[i] != r[j]
  {
    assert lmsPos[i] in l && lmsPos[j] in l;
    var x :| 0 <= x < |l| && l[x] == lmsPos[i];
    var y :| 0 <= y < |l| && l[y] == lmsPos[j];
    assert NameRule(s, t, l, nm, x, y);
  }

  /** Reading the names in position order gives a string that `sais` can sort. */
  lemma ReducedFromNames(s: seq<nat>, t: seq<bool>, l: seq<nat>, nm: seq<nat>, name: nat, g: nat, lmsPos: seq<nat>, r: seq<nat>)
    requires Sentinel(s) && Types(s, t) && |s| > 1 && LmsByKey(s, t, l) && LmsList(t, lmsPos)
    requires |nm| == |l| && Named(s, t, l, nm, name, g) && |r| == |lmsPos|
    requires forall i, x :: 0 <= i < |r| && 0 <= x < |l| && lmsPos[i] == l[x] ==> r[i] == nm[x]
    ensures Reduced(s, t, lmsPos, r) && Sentinel(r)
    ensures |r| == |l| && forall i :: 0 <= i < |r| ==> r[i] < name
    ensures name == |l| ==> forall i, j :: 0 <= i < j < |r| ==> r[i] != r[j]
  {
    SameLength(l, lmsPos);
    SentinelFirst(s, t, l);
    forall i, j | 0 <= i < |r| && 0 <= j < |r|
      ensures r[i] < name
      ensures r[i] == r[j] ==> SubstrEq(s, t, lmsPos[i], lmsPos[j])
      ensures r[i] < r[j] ==> Lex.Less(Key(s, t, s, lmsPos[i]), Key(s, t, s, lmsPos[j]))
      ensures name == |l| && i != j ==> r[i] != r[j]
    {
      ReducedPair(s, t, l, nm, name, g, lmsPos, r, i, j);
    }
    assert l[0] in lmsPos;
    SentinelReduced(s, t, lmsPos, r);
  }

  /** The sentinel's name is 0 and nobody else's. */
  lemma SentinelReduced(s: seq<nat>, t: seq<bool>, lmsPos: seq<nat>, r: seq<nat>)
    requires Sentinel(s) && Types(s, t) && LmsList(t, lmsPos) && Reduced(s, t, lmsPos, r) && |s| - 1 in lmsPos
    requires forall i :: 0 <= i < |r| && lmsPos[i] == |s| - 1 ==> r[i] == 0
    ensures Sentinel(r)
  {
    var last := |r| - 1;
    var x :| 0 <= x < |r| && lmsPos[x] == |s| - 1;
    assert lmsPos[last] < |s|;
    assert x == last;
    forall i | 0 <= i < last ensures r[i] > 0 {
      assert lmsPos[i] < lmsPos[last];
      assert !SubstrEq(s, t, lmsPos[i], lmsPos[last]);
    }
  }

  /** `sub` lists the LMS positions (by index into `lmsPos`); `rank` inverts it. */
  ghost predicate Ranked(t: seq<bool>, lmsPos: seq<nat>, sub: seq<nat>, rank: seq<nat>)
  {
    && |rank| == |t| && |sub| == |lmsPos|
    && (forall i :: 0 <= i < |sub| ==> sub[i] < |lmsPos|)
    && (forall i :: 0 <= i < |sub| ==> lmsPos[sub[i]] < |t| && rank[lmsPos[sub[i]]] == i)
    && (forall p :: 0 <= p < |t| && IsLms(t, p) ==> rank[p] < |sub| && lmsPos[sub[rank[p]]] == p)
  }

  ghost function RankAt(lmsPos: seq<nat>, sub: seq<nat>, p: nat): (i: nat)
    requires forall j :: 0 <= j < |sub| ==> sub[j] < |lmsPos|
    ensures (exists j :: 0 <= j < |sub| && lmsPos[sub[j]] == p) ==> i < |sub| && lmsPos[sub[i]] == p
  {
    if exists j :: 0 <= j < |sub| && lmsPos[sub[j]] == p
    then var j: nat :| j < |sub| && lmsPos[sub[j]] == p; j
    else 0
  }

  ghost function Ranks(n: nat, lmsPos: seq<nat>, sub: seq<nat>): (rank: seq<nat>)
    requires forall j :: 0 <= j < |sub| ==> sub[j] < |lmsPos|
    ensures |rank| == n && forall p :: 0 <= p < n ==> rank[p] == RankAt(lmsPos, sub, p)
  {
    seq(n, p requires 0 <= p < n => RankAt(lmsPos, sub, p))
  }

  /** The suffix array of the reduced string ranks the LMS suffixes of the original. */
  lemma RanksWork(s: seq<nat>, t: seq<bool>, lmsPos: seq<nat>, r: seq<nat>, sub: seq<nat>)
    requires Sentinel(s) && Types(s, t) && LmsList(t, lmsPos) && Reduced(s, t, lmsPos, r) && Sentinel(r) && IsSuffixArray(r, sub)
    ensures Ranked(t, lmsPos, sub, Ranks(|s|, lmsPos, sub)) && RankSorted(s, t, Ranks(|s|, lmsPos, sub))
  {
    var rank := Ranks(|s|, lmsPos, sub);
    forall i, j | 0 <= i < j < |sub| ensures lmsPos[sub[i]] != lmsPos[sub[j]] && SufLess(s, lmsPos[sub[i]], lmsPos[sub[j]]) {
      assert SufLess(r, sub[i], sub[j]);
      if sub[i] == sub[j] {
        Lex.Irreflexive(Suffix(r, sub[i]));
      }
      ReducedOrder(s, t, lmsPos, r, sub[i], sub[j]);
    }
    forall i | 0 <= i < |sub| ensures rank[lmsPos[sub[i]]] == i { }
    forall p | 0 <= p < |s| && IsLms(t, p) ensures rank[p] < |sub| && lmsPos[sub[rank[p]]] == p {
      assert p in lmsPos;
      var a :| 0 <= a < |lmsPos| && lmsPos[a] == p;
      assert a in sub;
    }
    forall a, b | 0 <= a < |s| && 0 <= b < |s| && IsLms(t, a) && IsLms(t, b) && SufLess(s, a, b) ensures rank[a] < rank[b] {
      if rank[a] == rank[b] {
        Lex.Irreflexive(Suffix(s, a));
      } else if rank[b] < rank[a] {
        assert SufLess(s, lmsPos[sub[rank[b]]], lmsPos[sub[rank[a]]]);
        Lex.Asymmetric(Suffix(s, a), Suffix(s, b));
      }
    }
  }
}
