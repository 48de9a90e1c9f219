/** The Burrows-Wheeler transform of a block and the decoder's linked inverse. */
module Bwt {
  import opened Bytes
  import opened SuffixOrder
  import opened Buckets
  import InducedSorting
  import SaIs
  import Lex

  function Rotation(block: seq<int>, p: nat): (r: seq<int>)
    requires p <= |block|
    ensures |r| == |block|
  {
    block[p..] + block[..p]
  }

  function Pred(n: nat, p: nat): (q: nat)
    requires p < n
    ensures q < n
  {
    if p == 0 then n - 1 else p - 1
  }

  ghost predicate Permutation(f: seq<nat>, n: nat)
  {
    |f| == n && (forall i :: 0 <= i < n ==> f[i] < n) && forall i, j :: 0 <= i < j < n ==> f[i] != f[j]
  }

  /** `rows` sorts the rotations; equal rotations may stand in any order. */
  ghost predicate SortsRotations(block: seq<int>, rows: seq<nat>)
  {
    && Permutation(rows, |block|)
    && forall i, j :: 0 <= i < j < |rows| ==> !Lex.Less(Rotation(block, rows[j]), Rotation(block, rows[i]))
  }

  /** `last` is the last column of the rotation matrix and `origin` the row of the block itself. */
  ghost predicate IsTransform(block: seq<Byte>, rows: seq<nat>, last: seq<Byte>, origin: nat)
  {
    && SortsRotations(block, rows)
    && |last| == |rows| && (forall i :: 0 <= i < |last| ==> last[i] == block[Pred(|block|, rows[i])])
    && origin < |rows| && rows[origin] == 0
  }

  // ----- The transform -----

  function Shift(b: seq<Byte>): (s: seq<nat>)
    ensures |s| == |b| && forall i :: 0 <= i < |b| ==> s[i] == b[i] as nat + 1
  {
    seq(|b|, i requires 0 <= i < |b| => b[i] as nat + 1)
  }

  lemma {:induction false} ShiftLess(a: seq<int>, b: seq<int>, a1: seq<int>, b1: seq<int>)
    requires |a1| == |a| && |b1| == |b|
    requires forall i :: 0 <= i < |a| ==> a1[i] == a[i] + 1
    requires forall i :: 0 <= i < |b| ==> b1[i] == b[i] + 1
    ensures Lex.Less(a1, b1) <==> Lex.Less(a, b)
  {
    if a != [] && b != [] && a[0] == b[0] {
      ShiftLess(a[1..], b[1..], a1[1..], b1[1..]);
    }
  }

  /** The order of the doubled block's suffixes never contradicts the order of the rotations. */
  lemma SuffixesSortRotations(block: seq<Byte>, doubled: seq<nat>, p: nat, q: nat)
    requires doubled == Shift(block) + Shift(block) + [0]
    requires p < |block| && q < |block| && SufLess(doubled, p, q)
    ensures !Lex.Less(Rotation(block, q), Rotation(block, p))
  {
    var n := |block|;
    if Lex.Less(Rotation(block, q), Rotation(block, p)) {
      ShiftLess(Rotation(block, q), Rotation(block, p), Suffix(doubled, q)[..n], Suffix(doubled, p)[..n]);
      Lex.Prefixes(Suffix(doubled, q), Suffix(doubled, p), n);
      Lex.Asymmetric(Suffix(doubled, p), Suffix(doubled, q));
    }
  }

  /** The suffixes that start in the first copy, with the byte before each and the row of the block. */
  method KeepRows(block: seq<Byte>, sa: seq<nat>) returns (last: seq<Byte>, origin: nat, ghost rows: seq<nat>, ghost at: seq<nat>)
    requires block != []
    ensures |rows| == |at| == |last|
    ensures forall x :: 0 <= x < |rows| ==> rows[x] < |block| && at[x] < |sa| && rows[x] == sa[at[x]]
    ensures forall x :: 0 <= x < |rows| ==> last[x] == block[Pred(|block|, rows[x])]
    ensures forall x, y :: 0 <= x < y < |rows| ==> at[x] < at[y]
    ensures forall j :: 0 <= j < |sa| && sa[j] < |block| ==> sa[j] in rows
    ensures 0 in rows ==> origin < |rows| && rows[origin] == 0
  {
    var n := |block|;
    last, origin, rows, at := [], 0, [], [];
    for i := 0 to |sa|
      invariant |rows| == |at| == |last|
      invariant forall x :: 0 <= x < |rows| ==> rows[x] < n && at[x] < i && rows[x] == sa[at[x]]
      invariant forall x :: 0 <= x < |rows| ==> last[x] == block[Pred(n, rows[x])]
      invariant forall x, y :: 0 <= x < y < |rows| ==> at[x] < at[y]
      invariant forall j :: 0 <= j < i && sa[j] < n ==> sa[j] in rows
      invariant 0 in rows ==> origin < |rows| && rows[origin] == 0
    {
      var p := sa[i];
      if p < n {
        if p == 0 { origin := |last|; }
        last := last + [block[Before(n, p)]];
        rows, at := rows + [p], at + [i];
      }
    }
  }

  /** `(p + n - 1) % n` */
  function Before(n: nat, p: nat): (q: nat)
    requires p < n
    ensures q == Pred(n, p)
  {
    assert p > 0 ==> (p + n - 1) % n == ((p - 1) + n) % n == p - 1;
    (p + n - 1) % n
  }

  /** Sort the doubled block's suffixes and keep those that start in the first copy. */
  method Transform(block: seq<Byte>) returns (last: seq<Byte>, origin: nat, ghost rows: seq<nat>)
    requires 0 < |block| && 2 * |block| + 1 <= InducedSorting.EMPTY
    ensures IsTransform(block, rows, last, origin)
  {
    if |block| == 1 {
      rows := [0];
      return [block[0]], 0, rows;
    }
    var doubled := Shift(block) + Shift(block) + [0];
    var sa := SaIs.Sais(doubled, 257);
    ghost var at;
    last, origin, rows, at := KeepRows(block, sa);
    RowsSorted(block, doubled, sa, rows, at);
  }

  lemma RowsSorted(block: seq<Byte>, doubled: seq<nat>, sa: seq<nat>, rows: seq<nat>, at: seq<nat>)
    requires block != [] && doubled == Shift(block) + Shift(block) + [0] && IsSuffixArray(doubled, sa)
    requires |rows| == |at|
    requires forall x :: 0 <= x < |rows| ==> rows[x] < |block| && at[x] < |sa| && rows[x] == sa[at[x]]
    requires forall x, y :: 0 <= x < y < |rows| ==> at[x] < at[y]
    requires forall j :: 0 <= j < |sa| && sa[j] < |block| ==> sa[j] in rows
    ensures SortsRotations(block, rows) && 0 in rows
  {
    forall p | 0 <= p < |block| ensures p in rows {
      assert p in sa;
    }
    forall x, y | 0 <= x < y < |rows| ensures rows[x] != rows[y] && !Lex.Less(Rotation(block, rows[y]), Rotation(block, rows[x])) {
      assert SufLess(doubled, sa[at[x]], sa[at[y]]);
      Lex.Irreflexive(Suffix(doubled, rows[x]));
      SuffixesSortRotations(block, doubled, rows[x], rows[y]);
    }
    AllListed(rows, |block|);
  }

  lemma AllListed(f: seq<nat>, n: nat)
    requires forall i :: 0 <= i < |f| ==> f[i] < n
    requires forall i, j :: 0 <= i < j < |f| ==> f[i] != f[j]
    requires forall p :: 0 <= p < n ==> p in f
    ensures |f| == n
  {
    ImageSize(f, |f|);
    var image := set i | 0 <= i < |f| :: f[i] as int;
    assert forall p: nat :: p in image <==> p in f;
    assert image == Upto(n);
  }

  // ----- The inverse -----

  /** The stable sort of the last column: slot `x` of the first column comes from `links[x]`. */
  ghost predicate IsLinks(last: seq<Byte>, links: seq<nat>)
  {
    && Permutation(links, |last|)
    && forall x, y :: 0 <= x < y < |links| ==> last[links[x]] < last[links[y]] || (last[links[x]] == last[links[y]] && links[x] < links[y])
  }

  /** Two sorted enumerations of the same values agree everywhere, ties included. */
  lemma SortedAgree(values: seq<seq<int>>, f: seq<nat>, g: seq<nat>, r: nat)
    requires Permutation(f, |values|) && Permutation(g, |values|) && r < |values|
    requires forall i, j :: 0 <= i < j < |f| ==> !Lex.Less(values[f[j]], values[f[i]])
    requires forall i, j :: 0 <= i < j < |g| ==> !Lex.Less(values[g[j]], values[g[i]])
    ensures values[f[r]] == values[g[r]]
  {
    Lex.Trichotomy(values[f[r]], values[g[r]]);
    if Lex.Less(values[f[r]], values[g[r]]) {
      SortedNotLess(values, f, g, r);
    }
    if Lex.Less(values[g[r]], values[f[r]]) {
      SortedNotLess(values, g, f, r);
    }
  }

  lemma SortedNotLess(values: seq<seq<int>>, f: seq<nat>, g: seq<nat>, r: nat)
    requires Permutation(f, |values|) && Permutation(g, |values|) && r < |values|
    requires forall i, j :: 0 <= i < j < |f| ==> !Lex.Less(values[f[j]], values[f[i]])
    requires forall i, j :: 0 <= i < j < |g| ==> !Lex.Less(values[g[j]], values[g[i]])
    ensures !Lex.Less(values[f[r]], values[g[r]])
  {
    if Lex.Less(values[f[r]], values[g[r]]) {
      var low, early := set i | 0 <= i < r + 1 :: f[i] as int, set i | 0 <= i < r :: g[i] as int;
      ImageSize(f, r + 1);
      ImageSize(g, r);
      if low <= early {
        Larger(low, early);
      }
      var x :| x in low && x !in early;
      var i :| 0 <= i < r + 1 && f[i] as int == x;
      InjectionIsSurjection(g, |values|);
      assert f[i] in g;
      var j :| 0 <= j < |g| && g[j] == f[i];
      assert j >= r;
      Lex.Irreflexive(values[g[r]]);
      Lex.Irreflexive(values[f[r]]);
      Lex.NotGreaterTransitive(values[g[r]], values[g[j]], values[f[r]]);
    }
  }

  /** One step along the links is one left rotation of the text. */
  lemma LinkRotates(block: seq<Byte>, rows: seq<nat>, last: seq<Byte>, origin: nat, links: seq<nat>, r: nat)
    requires IsTransform(block, rows, last, origin) && IsLinks(last, links) && r < |rows|
    ensures Rotation(block, rows[links[r]]) == Rotation(block, rows[r])[1..] + Rotation(block, rows[r])[..1]
    ensures last[links[r]] == Rotation(block, rows[r])[0]
  {
    var n := |block|;
    var values := seq(n, p requires 0 <= p < n => Rotation(block, p));
    var g := seq(n, i requires 0 <= i < n => Pred(n, rows[links[i]]));
    forall i, j | 0 <= i < j < n ensures g[i] != g[j] && !Lex.Less(values[g[j]], values[g[i]]) {
      LinksSort(block, rows, last, origin, links, i, j);
    }
    SortedAgree(values, rows, g, r);
    assert Rotation(block, rows[r]) == Rotation(block, Pred(n, rows[links[r]]));
    PredRotation(block, rows[links[r]]);
    var a := Rotation(block, rows[links[r]]);
    assert a == a[..n - 1] + [a[n - 1]];
  }

  /** Read through the links, the right rotations of the rows are sorted too. */
  lemma LinksSort(block: seq<Byte>, rows: seq<nat>, last: seq<Byte>, origin: nat, links: seq<nat>, i: nat, j: nat)
    requires IsTransform(block, rows, last, origin) && IsLinks(last, links) && i < j < |rows|
    ensures Pred(|block|, rows[links[i]]) != Pred(|block|, rows[links[j]])
    ensures !Lex.Less(Rotation(block, Pred(|block|, rows[links[j]])), Rotation(block, Pred(|block|, rows[links[i]])))
  {
    var n := |block|;
    assert rows[links[i]] != rows[links[j]];
    PredRotation(block, rows[links[i]]);
    PredRotation(block, rows[links[j]]);
    var a, b := Rotation(block, rows[links[i]]), Rotation(block, rows[links[j]]);
    Lex.Cons(last[links[j]], b[..n - 1], last[links[i]], a[..n - 1]);
    if last[links[i]] == last[links[j]] && Lex.Less(b[..n - 1], a[..n - 1]) {
      Lex.Prefixes(b, a, n - 1);
    }
  }

  lemma PredRotation(block: seq<int>, p: nat)
    requires p < |block|
    ensures Rotation(block, Pred(|block|, p)) == [block[Pred(|block|, p)]] + Rotation(block, p)[..|block| - 1]
    ensures Rotation(block, p)[|block| - 1] == block[Pred(|block|, p)]
  {
  }

  /** Bytes met on a walk of `k` steps from `at`: step to the linked slot, emit its byte. */
  function Walk(last: seq<Byte>, links: seq<nat>, at: nat, k: nat): (out: seq<Byte>)
    requires |links| == |last| && at < |links| && forall i :: 0 <= i < |links| ==> links[i] < |links|
    ensures |out| == k
    decreases k
  {
    if k == 0 then [] else [last[links[at]]] + Walk(last, links, links[at], k - 1)
  }

  lemma {:induction false} WalkSpells(block: seq<Byte>, rows: seq<nat>, last: seq<Byte>, origin: nat, links: seq<nat>, at: nat, p: nat)
    requires IsTransform(block, rows, last, origin) && IsLinks(last, links)
    requires at < |rows| && p <= |block| && Rotation(block, rows[at]) == Rotation(block, p)
    ensures Walk(last, links, at, |block| - p) == block[p..]
    decreases |block| - p
  {
    hide Lex.Less, Rotation, IsTransform;
    if p < |block| {
      SameLength(block, rows, last, origin);
      LinkRotates(block, rows, last, origin, links, at);
      RotateOnce(block, p);
      WalkSpells(block, rows, last, origin, links, links[at], p + 1);
      assert block[p..] == [block[p]] + block[p + 1..];
    }
  }

  lemma SameLength(block: seq<Byte>, rows: seq<nat>, last: seq<Byte>, origin: nat)
    requires IsTransform(block, rows, last, origin)
    ensures |rows| == |last| == |block| && origin < |rows| && rows[origin] == 0
  {
  }

  lemma RotateOnce(block: seq<int>, p: nat)
    requires p < |block|
    ensures Rotation(block, p)[1..] + Rotation(block, p)[..1] == Rotation(block, p + 1)
    ensures Rotation(block, p)[0] == block[p]
  {
  }

  /** The inverse recovers every block, periodic ones included, from any admissible origin. */
  lemma InverseOfTransform(block: seq<Byte>, rows: seq<nat>, last: seq<Byte>, origin: nat, links: seq<nat>)
    requires IsTransform(block, rows, last, origin) && IsLinks(last, links)
    ensures Walk(last, links, origin, |block|) == block
  {
    hide Lex.Less, Rotation, IsTransform, Walk;
    SameLength(block, rows, last, origin);
    WalkSpells(block, rows, last, origin, links, origin, 0);
    assert block[0..] == block;
  }

  // ----- The counting sort that builds the links -----

  /** Slot of the first column that row `i` of the last column is sent to. */
  ghost function Target(last: seq<Byte>, i: nat): nat
    requires i < |last|
  {
    Start(last, last[i]) + |Having(last[..i], last[i])|
  }

  lemma TargetOrder(last: seq<Byte>, i: nat, j: nat)
    requires i < |last| && j < |last| && (last[i] < last[j] || (last[i] == last[j] && i < j))
    ensures Target(last, i) < Target(last, j)
  {
    if last[i] == last[j] {
      assert i in Having(last[..j], last[j]) && i !in Having(last[..i], last[i]);
      Larger(Having(last[..i], last[i]), Having(last[..j], last[j]));
    } else {
      TargetInBucket(last, i);
      Larger(Below(last, last[i] as nat + 1), Below(last, last[j]));
    }
  }

  lemma TargetInBucket(last: seq<Byte>, i: nat)
    requires i < |last|
    ensures Target(last, i) < End(last, last[i]) <= |last|
  {
    EndIsStartPlusCount(last, last[i]);
    assert i in Having(last, last[i]) && i !in Having(last[..i], last[i]);
    Larger(Having(last[..i], last[i]), Having(last, last[i]));
    Larger(Below(last, last[i] as nat + 1), Upto(|last|));
  }

  lemma TargetsInvert(last: seq<Byte>, links: seq<nat>)
    requires |links| == |last|
    requires forall i :: 0 <= i < |last| ==> Target(last, i) < |last| && links[Target(last, i)] == i
    ensures IsLinks(last, links)
  {
    forall x | 0 <= x < |links| ensures links[x] < |last| && Target(last, links[x]) == x {
      LinksHit(last, links, x);
    }
    forall x, y | 0 <= x < y < |links|
      ensures links[x] != links[y]
      ensures last[links[x]] < last[links[y]] || (last[links[x]] == last[links[y]] && links[x] < links[y])
    {
      var i, j := links[x], links[y];
      if last[j] < last[i] || (last[i] == last[j] && j < i) {
        TargetOrder(last, j, i);
      }
    }
  }

  /** `entry | index << 8` on an entry whose upper bits are still clear. */
  function SetLink(entry: nat, index: nat): (packed: nat)
    requires entry < 256
    ensures packed % 256 == entry && packed / 256 == index
  {
    entry + 256 * index
  }

  /** Rows below `index` have written their links; other slots still hold plain bytes. */
  ghost predicate LinkInv(last: seq<Byte>, tt: seq<nat>, counts: seq<nat>, links: seq<nat>, index: nat)
  {
    && index <= |last| == |tt| == |links| && |counts| >= 256
    && (forall b :: 0 <= b < 256 ==> counts[b] == Start(last, b) + |Having(last[..index], b)|)
    && (forall x :: 0 <= x < |tt| ==> tt[x] % 256 == last[x])
    && (forall i :: 0 <= i < index ==> Placed(last, tt, links, i))
    && (forall x :: 0 <= x < |tt| && tt[x] != last[x] ==> links[x] < index && Target(last, links[x]) == x)
  }

  ghost predicate Placed(last: seq<Byte>, tt: seq<nat>, links: seq<nat>, i: nat)
    requires i < |last| == |tt| == |links|
  {
    var x := Target(last, i);
    x < |tt| && links[x] == i && tt[x] / 256 == i
  }

  lemma LinkStep(last: seq<Byte>, tt: seq<nat>, counts: seq<nat>, links: seq<nat>, index: nat)
    requires LinkInv(last, tt, counts, links, index) && index < |last|
    ensures var target := counts[last[index]]; target < |tt| && tt[target] == last[target]
    ensures var b, target := last[index], counts[last[index]];
            LinkInv(last, tt[target := SetLink(last[target], index)], counts[b := target + 1], links[target := index], index + 1)
  {
    var target := counts[last[index]];
    assert target == Target(last, index);
    TargetInBucket(last, index);
    if tt[target] != last[target] {
      TargetsDiffer(last, links[target], index);
    }
    SaIs.HavingStep(last, index);
    forall i | 0 <= i < index ensures Target(last, i) != target && Placed(last, tt, links, i) {
      TargetsDiffer(last, i, index);
    }
  }

  /** One pass over `tt`: each row writes its index into the upper bits of its target slot. */
  method Link(tt: array<nat>, starts: seq<nat>, ghost last: seq<Byte>) returns (ghost links: seq<nat>)
    requires tt.Length == |last| && forall x :: 0 <= x < tt.Length ==> tt[x] == last[x]
    requires |starts| >= 256 && forall b :: 0 <= b < 256 ==> starts[b] == Start(last, b)
    modifies tt
    ensures IsLinks(last, links)
    ensures forall x :: 0 <= x < tt.Length ==> tt[x] % 256 == last[x] && tt[x] / 256 == links[x]
  {
    var counts: seq<nat> := starts;
    links := seq(|last|, _ => 0);
    ghost var cur := tt[..];
    assert forall b: nat :: Having(last[..0], b) == {};
    for index := 0 to tt.Length
      invariant tt[..] == cur && LinkInv(last, cur, counts, links, index)
    {
      LinkStep(last, cur, counts, links, index);
      var byte := tt[index] % 256;
      var target: nat := counts[byte];
      tt[target] := SetLink(tt[target], index);
      counts := counts[byte := target + 1];
      cur, links := cur[target := SetLink(last[target], index)], links[target := index];
    }
    forall i | 0 <= i < |last| ensures Target(last, i) < |last| && links[Target(last, i)] == i {
      assert Placed(last, cur, links, i);
    }
    TargetsInvert(last, links);
    forall x | 0 <= x < tt.Length ensures tt[x] % 256 == last[x] && tt[x] / 256 == links[x] {
      LinksHit(last, links, x);
      assert Placed(last, cur, links, links[x]);
    }
  }

  lemma LinksHit(last: seq<Byte>, links: seq<nat>, x: nat)
    requires |links| == |last| && x < |links|
    requires forall i :: 0 <= i < |last| ==> Target(last, i) < |last| && links[Target(last, i)] == i
    ensures links[x] < |last| && Target(last, links[x]) == x
  {
    var targets := seq(|last|, i requires 0 <= i < |last| => Target(last, i) as int);
    forall i, j | 0 <= i < j < |last| ensures targets[i] != targets[j] {
      TargetsDiffer(last, i, j);
    }
    InjectionIsSurjection(targets, |last|);
    assert x in targets;
    var i :| 0 <= i < |targets| && targets[i] == x;
  }

  lemma TargetsDiffer(last: seq<Byte>, i: nat, j: nat)
    requires i < |last| && j < |last| && i != j
    ensures Target(last, i) != Target(last, j)
  {
    if last[i] < last[j] || (last[i] == last[j] && i < j) {
      TargetOrder(last, i, j);
    } else {
      TargetOrder(last, j, i);
    }
  }

  lemma TargetHit(last: seq<Byte>, x: nat)
    requires x < |last|
    ensures exists i :: 0 <= i < |last| && Target(last, i) == x
  {
    var targets := seq(|last|, i requires 0 <= i < |last| => Target(last, i) as int);
    forall i | 0 <= i < |last| ensures targets[i] < |last| {
      TargetInBucket(last, i);
    }
    forall i, j | 0 <= i < j < |last| ensures targets[i] != targets[j] {
      TargetsDiffer(last, i, j);
    }
    InjectionIsSurjection(targets, |last|);
    assert x in targets;
    var i :| 0 <= i < |targets| && targets[i] == x;
  }

  ghost function LinkAt(last: seq<Byte>, x: nat): (i: nat)
    requires x < |last|
    ensures i < |last| && Target(last, i) == x
  {
    TargetHit(last, x);
    var i: nat :| i < |last| && Target(last, i) == x;
    i
  }

  /** Every last column has its links, so the decoder's walk is defined for arbitrary input. */
  ghost function Links(last: seq<Byte>): (links: seq<nat>)
    ensures IsLinks(last, links)
  {
    var links := seq(|last|, x requires 0 <= x < |last| => LinkAt(last, x));
    LinksOfTargets(last, links);
    links
  }

  lemma LinksOfTargets(last: seq<Byte>, links: seq<nat>)
    requires |links| == |last| && forall x :: 0 <= x < |links| ==> links[x] < |last| && Target(last, links[x]) == x
    ensures IsLinks(last, links)
  {
    forall i | 0 <= i < |last| ensures Target(last, i) < |last| && links[Target(last, i)] == i {
      TargetInBucket(last, i);
      var x := Target(last, i);
      if links[x] != i {
        TargetsDiffer(last, links[x], i);
      }
    }
    TargetsInvert(last, links);
  }

  /** The stable order is unique. */
  lemma LinksUnique(last: seq<Byte>, a: seq<nat>, b: seq<nat>)
    requires IsLinks(last, a) && IsLinks(last, b)
    ensures a == b
  {
    var values := seq(|last|, i requires 0 <= i < |last| => [last[i] as int, i as int]);
    forall i, j | 0 <= i < j < |last| ensures !Lex.Less(values[a[j]], values[a[i]]) && !Lex.Less(values[b[j]], values[b[i]]) {
      PairsOrdered(last[a[i]], a[i], last[a[j]], a[j]);
      PairsOrdered(last[b[i]], b[i], last[b[j]], b[j]);
    }
    forall r | 0 <= r < |last| ensures a[r] == b[r] {
      SortedAgree(values, a, b, r);
      assert values[a[r]][1] == a[r] && values[b[r]][1] == b[r];
    }
  }

  lemma PairsOrdered(x: int, i: int, y: int, j: int)
    requires x < y || (x == y && i < j)
    ensures !Lex.Less([y, j], [x, i])
  {
    assert [y, j][1..] == [j] && [x, i][1..] == [i];
  }
}
