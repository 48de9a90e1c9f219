/** SA-IS on arrays: two rounds of induced sorting around a recursive call on the reduced string. */
module SaIs {
  import opened SuffixOrder
  import opened Buckets
  import opened InducedSorting
  import opened Naming
  import Lex

  method Classify(s: seq<nat>) returns (types: seq<bool>)
    requires s != []
    ensures Types(s, types)
    ensures Sentinel(s) ==> forall i :: 0 <= i < |s| - 1 ==> (types[i] <==> SufLess(s, i, i + 1)) && (!types[i] <==> SufLess(s, i + 1, i))
  {
    var n := |s|;
    var t := new bool[n](_ => false);
    t[n - 1] := true;
    var i := n - 1;
    while i > 0
      invariant 0 <= i < n
      invariant t[n - 1]
      invariant forall j {:trigger t[j]} :: i <= j < n - 1 ==> (t[j] <==> s[j] < s[j + 1] || (s[j] == s[j + 1] && t[j + 1]))
    {
      i := i - 1;
      t[i] := s[i] < s[i + 1] || (s[i] == s[i + 1] && t[i + 1]);
    }
    types := t[..];
    forall j | 0 <= j < n - 1 ensures TypeRule(s, types, j) {
      assert types[j] == t[j] && types[j + 1] == t[j + 1];
    }
    hide SufLess;
    if Sentinel(s) {
      forall i | 0 <= i < n - 1 ensures (types[i] <==> SufLess(s, i, i + 1)) && (!types[i] <==> SufLess(s, i + 1, i)) {
        TypeMeaning(s, types, i);
      }
    }
  }

  ghost predicate CountsOf(s: seq<nat>, counts: seq<nat>)
  {
    forall c :: 0 <= c < |counts| ==> counts[c] == |Having(s, c)|
  }

  lemma HavingStep(s: seq<nat>, i: nat)
    requires i < |s|
    ensures forall c: nat :: |Having(s[..i + 1], c)| == |Having(s[..i], c)| + if s[i] == c then 1 else 0
  {
    forall c: nat ensures |Having(s[..i + 1], c)| == |Having(s[..i], c)| + if s[i] == c then 1 else 0 {
      assert Having(s[..i + 1], c) == Having(s[..i], c) + if s[i] == c then {i} else {};
    }
  }

  method Counts(s: seq<nat>, k: nat) returns (counts: seq<nat>)
    requires forall i :: 0 <= i < |s| ==> s[i] < k
    ensures |counts| == k && CountsOf(s, counts)
  {
    var a := new nat[k](_ => 0);
    assert forall c: nat :: Having(s[..0], c) == {};
    for i := 0 to |s|
      invariant forall c :: 0 <= c < k ==> a[c] == |Having(s[..i], c)|
    {
      HavingStep(s, i);
      a[s[i]] := a[s[i]] + 1;
    }
    assert s[..|s|] == s;
    counts := a[..];
  }

  method BucketStarts(ghost s: seq<nat>, counts: seq<nat>) returns (starts: seq<nat>)
    requires CountsOf(s, counts)
    ensures |starts| == |counts| && forall c :: 0 <= c < |counts| ==> starts[c] == Start(s, c)
  {
    starts := [];
    var sum := 0;
    assert Below(s, 0) == {};
    for c := 0 to |counts|
      invariant |starts| == c && sum == Start(s, c)
      invariant forall d :: 0 <= d < c ==> starts[d] == Start(s, d)
    {
      EndIsStartPlusCount(s, c);
      starts := starts + [sum];
      sum := sum + counts[c];
    }
  }

  method BucketEnds(ghost s: seq<nat>, counts: seq<nat>) returns (ends: seq<nat>)
    requires CountsOf(s, counts)
    ensures |ends| == |counts| && forall c :: 0 <= c < |counts| ==> ends[c] == End(s, c)
  {
    ends := [];
    var sum := 0;
    assert Below(s, 0) == {};
    for c := 0 to |counts|
      invariant |ends| == c && sum == Start(s, c)
      invariant forall d :: 0 <= d < c ==> ends[d] == End(s, d)
    {
      EndIsStartPlusCount(s, c);
      sum := sum + counts[c];
      ends := ends + [sum];
    }
  }

  lemma NoSeeds(s: seq<nat>, t: seq<bool>, rank: seq<nat>, sa: seq<nat>, pos: seq<int>, bk: seq<nat>)
    requires |s| == |t| == |rank| == |pos| == |sa|
    requires forall x :: 0 <= x < |sa| ==> sa[x] == EMPTY
    requires forall p :: 0 <= p < |pos| ==> pos[p] == -1
    requires forall c :: 0 <= c < |bk| ==> bk[c] == End(s, c)
    ensures Seeded(s, t, rank, sa, pos, bk)
  {
    forall c | 0 <= c < |bk| ensures Placed(s, t, pos, c, true) == {} { }
  }

  /** Put LMS position `p` at the current end of its bucket. */
  method SeedOne(s: seq<nat>, ghost types: seq<bool>, ghost rank: seq<nat>, sa: array<nat>, ghost pos: seq<int>, bucket: seq<nat>, p: nat)
    returns (ends: seq<nat>, ghost placed: seq<int>)
    requires sa.Length == |s| <= EMPTY && Seeded(s, types, rank, sa[..], pos, bucket)
    requires p < |s| && IsLms(types, p) && pos[p] < 0 && s[p] < |bucket|
    requires forall q :: 0 <= q < |s| && pos[q] >= 0 && s[q] == s[p] ==> rank[p] <= rank[q]
    modifies sa
    ensures |ends| == |bucket| && Seeded(s, types, rank, sa[..], placed, ends)
    ensures |placed| == |pos| && placed[p] >= 0 && forall q :: 0 <= q < |s| && q != p ==> placed[q] == pos[q]
  {
    var c := s[p];
    SeedRoom(s, types, rank, sa[..], pos, bucket, p);
    var x: nat := bucket[c] - 1;
    ghost var before := sa[..];
    PlaceSeed(s, types, rank, before, pos, bucket, p, x);
    ends := bucket[c := x];
    sa[x] := p;
    assert sa[..] == before[x := p];
    placed := pos[p := x];
  }

  /** First pass: the LMS positions go to their buckets in arbitrary order. */
  method SeedSubstrings(s: seq<nat>, sa: array<nat>, types: seq<bool>, counts: seq<nat>) returns (ghost pos: seq<int>, ghost ends: seq<nat>)
    requires Input(s, types, |counts|) && CountsOf(s, counts) && sa.Length == |s|
    requires forall x :: 0 <= x < sa.Length ==> sa[x] == EMPTY
    modifies sa
    ensures |ends| == |counts| && Seeded(s, types, s, sa[..], pos, ends)
    ensures forall p :: 0 <= p < |s| && IsLms(types, p) ==> pos[p] >= 0
  {
    var bucket := BucketEnds(s, counts);
    pos := seq(|s|, _ => -1);
    NoSeeds(s, types, s, sa[..], pos, bucket);
    hide Seeded, CountsOf, Input, IsLms, SeededFrom;
    var i: nat := |s|;
    NoneFrom(types, pos, i);
    while i > 1
      invariant i <= |s| && |bucket| == |counts| && Seeded(s, types, s, sa[..], pos, bucket) && SeededFrom(types, pos, i)
    {
      i := i - 1;
      FromBefore(types, pos, i);
      if IsLms(types, i) {
        InputBelow(s, types, |counts|, i);
        ghost var was := pos;
        bucket, pos := SeedOne(s, types, s, sa, pos, bucket, i);
        FromSeed(types, was, pos, i);
      } else {
        FromSkip(types, pos, i);
      }
    }
    ends := bucket;
    FromAll(types, pos, i);
  }

  /** LMS positions from `i` on are placed, and nothing before `i`. */
  ghost predicate SeededFrom(types: seq<bool>, pos: seq<int>, i: nat)
  {
    && |types| == |pos| && (forall p {:trigger pos[p]} :: 0 <= p < i && p < |pos| ==> pos[p] == -1)
    && forall p {:trigger pos[p]} :: i <= p < |pos| && IsLms(types, p) ==> pos[p] >= 0
  }

  lemma NoneFrom(types: seq<bool>, pos: seq<int>, i: nat)
    requires |types| == |pos| == i && forall p :: 0 <= p < |pos| ==> pos[p] == -1
    ensures SeededFrom(types, pos, i)
  {
  }

  lemma FromBefore(types: seq<bool>, pos: seq<int>, i: nat)
    requires SeededFrom(types, pos, i + 1) && i < |pos|
    ensures pos[i] == -1 && |types| == |pos|
  {
  }

  lemma FromSeed(types: seq<bool>, pos: seq<int>, placed: seq<int>, i: nat)
    requires SeededFrom(types, pos, i + 1) && i < |pos| == |placed| && placed[i] >= 0
    requires forall q :: 0 <= q < |pos| && q != i ==> placed[q] == pos[q]
    ensures SeededFrom(types, placed, i)
  {
  }

  lemma FromSkip(types: seq<bool>, pos: seq<int>, i: nat)
    requires SeededFrom(types, pos, i + 1) && i < |pos| == |types| && !IsLms(types, i)
    ensures SeededFrom(types, pos, i)
  {
  }

  lemma FromAll(types: seq<bool>, pos: seq<int>, i: nat)
    requires SeededFrom(types, pos, i) && i <= 1
    ensures |types| == |pos| && forall p :: 0 <= p < |pos| && IsLms(types, p) ==> pos[p] >= 0
  {
  }

  lemma InputBelow(s: seq<nat>, types: seq<bool>, k: nat, i: nat)
    requires Input(s, types, k) && i < |s|
    ensures s[i] < k && |s| <= EMPTY && |types| == |s|
  {
  }

  /** The left-to-right scan, from the bucket starts: every L-type follows its successor into its bucket. */
  method InduceL(s: seq<nat>, sa: array<nat>, types: seq<bool>, starts: seq<nat>, ghost keys: seq<seq<int>>, ghost seeds: seq<int>)
    returns (ghost pos: seq<int>, ghost tops: seq<nat>)
    requires Input(s, types, |starts|) && sa.Length == |s|
    requires InvL(s, types, keys, sa[..], seeds, starts, 0)
    modifies sa
    ensures |tops| == |starts| && InvL(s, types, keys, sa[..], pos, tops, |s|)
  {
    hide InvL, Input;
    var bucket: seq<nat> := starts;
    ghost var cur := sa[..];
    pos := seeds;
    for i := 0 to |s|
      invariant sa[..] == cur
      invariant |bucket| == |starts| && InvL(s, types, keys, cur, pos, bucket, i)
    {
      EntryL(s, types, keys, cur, pos, bucket, i);
      var p := sa[i];
      if p != EMPTY && p > 0 && !types[p - 1] {
        var j: nat := p - 1;
        var x := bucket[s[j]];
        PlaceL(s, types, keys, cur, pos, bucket, i, j, x);
        sa[x] := j;
        bucket := bucket[s[j] := x + 1];
        cur, pos := cur[x := j], pos[j := x];
      }
    }
    tops := bucket;
  }

  /** The right-to-left scan, from the bucket ends: S-types overwrite the seeds. */
  method InduceS(s: seq<nat>, sa: array<nat>, types: seq<bool>, ends: seq<nat>, ghost rank: seq<nat>, ghost pos0: seq<int>, ghost stale: set<int>)
    requires Input(s, types, |ends|) && sa.Length == |s| == |rank|
    requires InvS(s, types, Keys(s, types, rank), sa[..], pos0, stale, ends, |s|)
    modifies sa
    ensures SortedByKey(s, types, rank, sa[..])
  {
    hide InvS, SortedByKey, Keys;
    var bucket: seq<nat> := ends;
    ghost var cur, pos := sa[..], pos0;
    ghost var keys := Keys(s, types, rank);
    var i: nat := |s|;
    while i > 0
      invariant 0 <= i <= |s| && sa[..] == cur
      invariant |bucket| == |ends| && InvS(s, types, keys, cur, pos, stale, bucket, i)
    {
      i := i - 1;
      EntryS(s, types, keys, cur, pos, stale, bucket, i);
      var p := sa[i];
      if p != EMPTY && p > 0 && types[p - 1] {
        var j: nat := p - 1;
        var x: nat := bucket[s[j]] - 1;
        PlaceS(s, types, keys, cur, pos, stale, bucket, i, j, x);
        bucket := bucket[s[j] := x];
        sa[x] := j;
        cur, pos := cur[x := j], pos[j := x];
      }
    }
    Finish(s, types, rank, cur, pos, stale, bucket);
  }

  /** L-types left to right, then S-types right to left. */
  method Induce(s: seq<nat>, sa: array<nat>, types: seq<bool>, counts: seq<nat>, ghost rank: seq<nat>, ghost seeds: seq<int>, ghost ends: seq<nat>)
    requires Input(s, types, |counts|) && CountsOf(s, counts) && sa.Length == |s| > 1 && |rank| == |s|
    requires |ends| == |counts| && Seeded(s, types, rank, sa[..], seeds, ends)
    requires forall p :: 0 <= p < |s| && IsLms(types, p) ==> seeds[p] >= 0
    modifies sa
    ensures SortedByKey(s, types, rank, sa[..])
  {
    var bucket := BucketStarts(s, counts);
    StartL(s, types, rank, sa[..], seeds, ends, bucket);
    ghost var pos, tops := InduceL(s, sa, types, bucket, SeedKeys(s, types, rank), seeds);
    bucket := BucketEnds(s, counts);
    StartS(s, types, rank, sa[..], pos, tops, bucket);
    InduceS(s, sa, types, bucket, rank, Unseed(types, pos), LmsSet(types));
  }

  /** The comparison loop: true once both positions reach an LMS position, before its value is compared. */
  method LmsSubstrEq(s: seq<nat>, types: seq<bool>, p: nat, q: nat) returns (eq: bool)
    requires Sentinel(s) && Types(s, types) && p < |s| && q < |s|
    ensures eq == SubstrEq(s, types, p, q)
  {
    var n := |s|;
    if p == n - 1 || q == n - 1 { return p == q; }
    assert TypeRule(s, types, n - 2);
    var d := 0;
    while true
      invariant p + d <= n && q + d <= n
      invariant BodiesEqual(s, types, p, q) <==>
                p + d < n && q + d < n && (d > 0 ==> IsLms(types, p + d) == IsLms(types, q + d)) &&
                ((d > 0 && IsLms(types, p + d)) || BodiesEqual(s, types, p + d, q + d))
      decreases n - d
    {
      if p + d >= n || q + d >= n { return false; }
      var pLms := d > 0 && IsLms(types, p + d);
      var qLms := d > 0 && IsLms(types, q + d);
      if pLms && qLms { return true; }
      if pLms != qLms { return false; }
      if s[p + d] != s[q + d] || types[p + d] != types[q + d] { return false; }
      d := d + 1;
    }
  }

  /** The LMS entries of the array, in array order. */
  method SortedLms(s: seq<nat>, types: seq<bool>, sa: seq<nat>) returns (l: seq<nat>)
    requires |s| == |types| && |s| <= EMPTY && SortedByKey(s, types, s, sa)
    ensures LmsByKey(s, types, l)
  {
    hide Lex.Less, Key;
    l := [];
    ghost var at: seq<nat> := [];
    for i := 0 to |sa|
      invariant |at| == |l|
      invariant forall x :: 0 <= x < |l| ==> at[x] < i && l[x] == sa[at[x]] && IsLms(types, l[x])
      invariant forall x, y :: 0 <= x < y < |l| ==> at[x] < at[y]
      invariant forall j :: 0 <= j < i && IsLms(types, sa[j]) ==> sa[j] in l
    {
      var p := sa[i];
      if p != EMPTY && p > 0 && IsLms(types, p) {
        l := l + [p];
        at := at + [i];
      }
    }
    forall p | 0 <= p < |s| && IsLms(types, p) ensures p in l {
      assert p in sa;
    }
  }

  /** The LMS positions in increasing order. */
  method LmsPositions(types: seq<bool>) returns (l: seq<nat>)
    ensures LmsList(types, l)
  {
    l := [];
    if types == [] { return; }
    for i := 1 to |types|
      invariant forall x :: 0 <= x < |l| ==> l[x] < i && IsLms(types, l[x])
      invariant forall x, y :: 0 <= x < y < |l| ==> l[x] < l[y]
      invariant forall p :: 0 <= p < i && IsLms(types, p) ==> p in l
    {
      if IsLms(types, i) {
        l := l + [i];
      }
    }
  }

  /** Two LMS positions never share a slot of the halved name table. */
  lemma HalvesDiffer(s: seq<nat>, t: seq<bool>, l: seq<nat>) returns (half: seq<nat>)
    requires |s| == |t| && LmsByKey(s, t, l)
    ensures |half| == |l| && forall x :: 0 <= x < |l| ==> half[x] == l[x] / 2 <= |s| / 2
    ensures forall x, y :: 0 <= x < y < |l| ==> half[x] != half[y]
  {
    half := seq(|l|, x requires 0 <= x < |l| => l[x] / 2);
  }

  /** A sorted LMS position either opens a group, taking the next name, or joins the group of `prev`. */
  method NameOne(s: seq<nat>, types: seq<bool>, ghost l: seq<nat>, p: nat, prev: nat, name: nat, ghost nm: seq<nat>, ghost g: nat)
    returns (group: nat, names: nat, ghost g1: nat)
    requires Sentinel(s) && Types(s, types) && LmsByKey(s, types, l) && |nm| < |l| && p == l[|nm|]
    requires Named(s, types, l, nm, name, g) && (name > 0 ==> nm != [] && g < |l| && prev == l[g])
    ensures names > 0 && Named(s, types, l, nm + [(names - 1) as nat], names, g1) && g1 < |l| && group == l[g1]
  {
    var isNew := name == 0;
    if name > 0 {
      var eq := LmsSubstrEq(s, types, p, prev);
      isNew := !eq;
    }
    NameNext(s, types, l, nm, name, g, isNew);
    if isNew {
      g1, names, group := |nm|, name + 1, p;
    } else {
      g1, names, group := g, name, prev;
    }
  }

  /** Number the sorted LMS positions; entry `p / 2` of the table is the name of `p`. */
  method Name(s: seq<nat>, types: seq<bool>, l: seq<nat>) returns (names: seq<nat>, name: nat, ghost nm: seq<nat>, ghost g: nat)
    requires Sentinel(s) && Types(s, types) && LmsByKey(s, types, l) && |s| <= EMPTY
    ensures |nm| == |l| && Named(s, types, l, nm, name, g)
    ensures |names| == |s| / 2 + 1 && forall x :: 0 <= x < |l| ==> names[l[x] / 2] == nm[x]
  {
    hide NameRule, Numbered, TypeRule, SubstrEq;
    var table := new nat[|s| / 2 + 1](_ => EMPTY);
    ghost var half := HalvesDiffer(s, types, l);
    name, nm, g := 0, [], 0;
    NamedEmpty(s, types, l);
    var prev: nat := 0;
    for x := 0 to |l|
      invariant |nm| == x && Named(s, types, l, nm, name, g) && (name > 0 ==> nm != [] && g < |l| && prev == l[g])
      invariant forall y :: 0 <= y < x ==> table[half[y]] == nm[y]
    {
      prev, name, g := NameOne(s, types, l, l[x], prev, name, nm, g);
      var v: nat := name - 1;
      nm := nm + [v];
      table[l[x] / 2] := v;
    }
    names := table[..];
  }

  /** Second pass: the LMS positions go to their buckets in their true order. */
  method SeedSuffixes(s: seq<nat>, sa: array<nat>, types: seq<bool>, counts: seq<nat>, lmsPos: seq<nat>, sub: seq<nat>, ghost rank: seq<nat>)
    returns (ghost pos: seq<int>, ghost ends: seq<nat>)
    requires Input(s, types, |counts|) && CountsOf(s, counts) && sa.Length == |s|
    requires LmsList(types, lmsPos) && Ranked(types, lmsPos, sub, rank)
    requires forall x :: 0 <= x < sa.Length ==> sa[x] == EMPTY
    modifies sa
    ensures |ends| == |counts| && Seeded(s, types, rank, sa[..], pos, ends)
    ensures forall p :: 0 <= p < |s| && IsLms(types, p) ==> pos[p] >= 0
  {
    var bucket := BucketEnds(s, counts);
    pos := seq(|s|, _ => -1);
    NoSeeds(s, types, rank, sa[..], pos, bucket);
    hide Seeded;
    var i: nat := |sub|;
    while i > 0
      invariant 0 <= i <= |sub| && |pos| == |s|
      invariant |bucket| == |counts| && Seeded(s, types, rank, sa[..], pos, bucket)
      invariant forall p :: 0 <= p < |s| && IsLms(types, p) ==> (pos[p] >= 0 <==> rank[p] >= i)
    {
      i := i - 1;
      var p := lmsPos[sub[i]];
      assert rank[p] == i && forall q :: 0 <= q < |s| && IsLms(types, q) && rank[q] == i ==> q == p;
      bucket, pos := SeedOne(s, types, rank, sa, pos, bucket, p);
    }
    ends := bucket;
  }

  /** The names in position order. */
  method ReadNames(names: seq<nat>, lmsPos: seq<nat>) returns (reduced: seq<nat>)
    requires forall i :: 0 <= i < |lmsPos| ==> lmsPos[i] / 2 < |names|
    ensures |reduced| == |lmsPos| && forall i :: 0 <= i < |lmsPos| ==> reduced[i] == names[lmsPos[i] / 2]
  {
    reduced := seq(|lmsPos|, i requires 0 <= i < |lmsPos| => names[lmsPos[i] / 2]);
  }

  /** With all names distinct the suffix array is the inverse permutation. */
  method InvertNames(reduced: seq<nat>) returns (sub: seq<nat>)
    requires Sentinel(reduced)
    requires forall i :: 0 <= i < |reduced| ==> reduced[i] < |reduced|
    requires forall i, j :: 0 <= i < j < |reduced| ==> reduced[i] != reduced[j]
    ensures IsSuffixArray(reduced, sub)
  {
    var a := new nat[|reduced|](_ => 0);
    for i := 0 to |reduced|
      invariant forall j :: 0 <= j < i ==> a[reduced[j]] == j
    {
      a[reduced[i]] := i;
    }
    sub := a[..];
    InjectionIsSurjection(reduced, |reduced|);
    forall c | 0 <= c < |sub| ensures sub[c] < |reduced| && reduced[sub[c]] == c {
      assert c in reduced;
    }
    forall p | 0 <= p < |reduced| ensures p in sub {
      assert sub[reduced[p]] == p;
    }
    forall c, d | 0 <= c < d < |sub| ensures SufLess(reduced, sub[c], sub[d]) {
      SufStep(reduced, sub[c], sub[d]);
    }
  }

  /** Keys that follow the suffix order sort exactly like the suffixes. */
  lemma SortedIsSuffixArray(s: seq<nat>, t: seq<bool>, rank: seq<nat>, sa: seq<nat>)
    requires Sentinel(s) && Types(s, t) && RankSorted(s, t, rank) && SortedByKey(s, t, rank, sa)
    ensures IsSuffixArray(s, sa)
  {
    forall x, y | 0 <= x < y < |sa| ensures SufLess(s, sa[x], sa[y]) {
      SufTotal(s, sa[x], sa[y]);
      if SufLess(s, sa[y], sa[x]) {
        SufLessIsKeyLess(s, t, rank, sa[y], sa[x]);
      }
    }
  }

  /** Name the sorted LMS substrings and sort the LMS suffixes through the reduced string. */
  method SortLmsSuffixes(s: seq<nat>, types: seq<bool>, sa: seq<nat>) returns (lmsPos: seq<nat>, subSa: seq<nat>, ghost rank: seq<nat>)
    requires Sentinel(s) && Types(s, types) && 1 < |s| <= EMPTY && SortedByKey(s, types, s, sa)
    ensures LmsList(types, lmsPos) && Ranked(types, lmsPos, subSa, rank) && RankSorted(s, types, rank)
    decreases |s|, 0
  {
    var lmsSorted := SortedLms(s, types, sa);
    var names, name;
    ghost var nm, g;
    names, name, nm, g := Name(s, types, lmsSorted);
    lmsPos := LmsPositions(types);
    var reduced := ReadNames(names, lmsPos);
    ReducedFromNames(s, types, lmsSorted, nm, name, g, lmsPos, reduced);
    LmsSparse(types, lmsPos, |lmsPos| - 1);
    if name < |lmsSorted| {
      subSa := Sais(reduced, name);
    } else {
      subSa := InvertNames(reduced);
    }
    RanksWork(s, types, lmsPos, reduced, subSa);
    rank := Ranks(|s|, lmsPos, subSa);
  }

  /** Suffix array of any string that ends in a unique smallest 0, all of whose values are below `k`. */
  method Sais(s: seq<nat>, k: nat) returns (suffixes: seq<nat>)
    requires Sentinel(s) && |s| <= EMPTY && forall i :: 0 <= i < |s| ==> s[i] < k
    ensures IsSuffixArray(s, suffixes)
    decreases |s|, 1
  {
    var n := |s|;
    if n == 1 { return [0]; }
    var sa := new nat[n](_ => EMPTY);
    var types := Classify(s);
    var counts := Counts(s, k);

    ghost var seeds, ends := SeedSubstrings(s, sa, types, counts);
    Induce(s, sa, types, counts, s, seeds, ends);

    var lmsPos, subSa;
    ghost var rank;
    lmsPos, subSa, rank := SortLmsSuffixes(s, types, sa[..]);

    forall i | 0 <= i < n { sa[i] := EMPTY; }
    seeds, ends := SeedSuffixes(s, sa, types, counts, lmsPos, subSa, rank);
    Induce(s, sa, types, counts, rank, seeds, ends);
    SortedIsSuffixArray(s, types, rank, sa[..]);
    suffixes := sa[..];
  }
}
