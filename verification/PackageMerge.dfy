/** Package-merge: length-limited prefix code lengths, complete and of least cost. */
module PackageMerge {
  import opened Sums

  /** A coin is a symbol at some denomination or a package of two coins of the next smaller one. */
  datatype Coin = Leaf(sym: nat, value: nat) | Package(left: Coin, right: Coin)

  function Weight(c: Coin): nat
  {
    match c
    case Leaf(_, w) => w
    case Package(l, r) => Weight(l) + Weight(r)
  }

  /** How often a symbol's coins occur in `c`. */
  function Count(c: Coin, sym: nat): nat
  {
    match c
    case Leaf(s, _) => if s == sym then 1 else 0
    case Package(l, r) => Count(l, sym) + Count(r, sym)
  }

  /** Sum of a measure, such as weight or the count of one symbol, over a list of coins. */
  function Total(f: Coin -> nat, cs: seq<Coin>): nat
  {
    if cs == [] then 0 else f(cs[0]) + Total(f, cs[1..])
  }

  function CountOf(sym: nat): Coin -> nat
  {
    c => Count(c, sym)
  }

  ghost predicate Additive(f: Coin -> nat)
  {
    forall l, r :: f(Package(l, r)) == f(l) + f(r)
  }

  predicate Sorted(cs: seq<Coin>)
  {
    forall i, j :: 0 <= i < j < |cs| ==> Weight(cs[i]) <= Weight(cs[j])
  }

  // ----- One round: pair up, then merge back with the leaves -----

  function Packages(level: seq<Coin>): (ps: seq<Coin>)
    ensures |ps| == |level| / 2
    ensures forall i :: 0 <= i < |ps| ==> ps[i] == Package(level[2 * i], level[2 * i + 1])
  {
    seq(|level| / 2, i requires 0 <= i < |level| / 2 => Package(level[2 * i], level[2 * i + 1]))
  }

  /** Ties go to the leaf. */
  predicate LeafFirst(leaves: seq<Coin>, ps: seq<Coin>)
  {
    leaves != [] && (ps == [] || Weight(leaves[0]) <= Weight(ps[0]))
  }

  function Merge(leaves: seq<Coin>, ps: seq<Coin>): (m: seq<Coin>)
    ensures |m| == |leaves| + |ps|
  {
    if leaves == [] && ps == [] then []
    else if LeafFirst(leaves, ps) then [leaves[0]] + Merge(leaves[1..], ps)
    else [ps[0]] + Merge(leaves, ps[1..])
  }

  /** How many of the first `k` merged coins are leaves. */
  function Leaves(leaves: seq<Coin>, ps: seq<Coin>, k: nat): (a: nat)
    requires k <= |leaves| + |ps|
    ensures a <= |leaves| && a <= k <= a + |ps|
    decreases k
  {
    if k == 0 then 0
    else if LeafFirst(leaves, ps) then 1 + Leaves(leaves[1..], ps, k - 1)
    else Leaves(leaves, ps[1..], k - 1)
  }

  function Level(leaves: seq<Coin>, t: nat): seq<Coin>
  {
    if t == 0 then leaves else Merge(leaves, Packages(Level(leaves, t - 1)))
  }

  lemma {:induction false} MergeSorted(leaves: seq<Coin>, ps: seq<Coin>)
    requires Sorted(leaves) && Sorted(ps)
    ensures Sorted(Merge(leaves, ps))
    ensures forall i :: 0 <= i < |leaves| + |ps| ==> Merge(leaves, ps)[i] in leaves || Merge(leaves, ps)[i] in ps
    decreases |leaves| + |ps|
  {
    hide Weight;
    if LeafFirst(leaves, ps) {
      MergeSorted(leaves[1..], ps);
    } else if ps != [] {
      MergeSorted(leaves, ps[1..]);
    }
  }

  lemma PackagesSorted(level: seq<Coin>)
    requires Sorted(level)
    ensures Sorted(Packages(level))
  {
    var ps := Packages(level);
    forall i, j | 0 <= i < j < |ps| ensures Weight(ps[i]) <= Weight(ps[j]) {
      assert Weight(level[2 * i]) <= Weight(level[2 * j]) && Weight(level[2 * i + 1]) <= Weight(level[2 * j + 1]);
    }
  }

  lemma {:induction false} LevelSorted(leaves: seq<Coin>, t: nat)
    requires Sorted(leaves)
    ensures Sorted(Level(leaves, t))
  {
    if t > 0 {
      LevelSorted(leaves, t - 1);
      PackagesSorted(Level(leaves, t - 1));
      MergeSorted(leaves, Packages(Level(leaves, t - 1)));
    }
  }

  lemma TotalStep(f: Coin -> nat, cs: seq<Coin>, k: nat)
    requires 0 < k <= |cs|
    ensures Total(f, cs[..k]) == f(cs[0]) + Total(f, cs[1..][..k - 1])
  {
    assert cs[..k][1..] == cs[1..][..k - 1];
  }

  lemma {:induction false} TotalLast(f: Coin -> nat, cs: seq<Coin>, k: nat)
    requires 0 < k <= |cs|
    ensures Total(f, cs[..k]) == Total(f, cs[..k - 1]) + f(cs[k - 1])
    decreases k
  {
    TotalStep(f, cs, k);
    if k > 1 {
      TotalStep(f, cs, k - 1);
      TotalLast(f, cs[1..], k - 1);
    }
  }

  /** The first `k` merged coins are the first leaves and the first packages. */
  lemma {:induction false} MergePrefix(f: Coin -> nat, leaves: seq<Coin>, ps: seq<Coin>, k: nat)
    requires k <= |leaves| + |ps|
    ensures var a := Leaves(leaves, ps, k);
            Total(f, Merge(leaves, ps)[..k]) == Total(f, leaves[..a]) + Total(f, ps[..k - a])
    decreases k
  {
    hide Merge, Total, LeafFirst, Leaves;
    var m, a := Merge(leaves, ps), Leaves(leaves, ps, k);
    LeavesStep(leaves, ps, k);
    if k == 0 {
      TotalNothing(f, m[..0]);
      TotalNothing(f, leaves[..0]);
      TotalNothing(f, ps[..0]);
    } else {
      TotalStep(f, m, k);
      MergeHead(leaves, ps);
      if LeafFirst(leaves, ps) {
        MergePrefix(f, leaves[1..], ps, k - 1);
        TotalStep(f, leaves, a);
      } else {
        MergePrefix(f, leaves, ps[1..], k - 1);
        TotalStep(f, ps, k - a);
      }
    }
  }

  lemma LeavesStep(leaves: seq<Coin>, ps: seq<Coin>, k: nat)
    requires k <= |leaves| + |ps|
    ensures k == 0 ==> Leaves(leaves, ps, k) == 0
    ensures k > 0 && LeafFirst(leaves, ps) ==> leaves != [] && Leaves(leaves, ps, k) == 1 + Leaves(leaves[1..], ps, k - 1) <= |leaves|
    ensures k > 0 && !LeafFirst(leaves, ps) ==> ps != [] && Leaves(leaves, ps, k) == Leaves(leaves, ps[1..], k - 1) && k - Leaves(leaves, ps, k) >= 1
  {
    hide Weight;
  }

  lemma TotalNothing(f: Coin -> nat, cs: seq<Coin>)
    requires cs == []
    ensures Total(f, cs) == 0
  {
  }

  /** No choice of `a` leaves and `q` packages is cheaper than the first `a + q` merged coins. */
  lemma MergeHead(leaves: seq<Coin>, ps: seq<Coin>)
    requires |leaves| + |ps| > 0
    ensures LeafFirst(leaves, ps) ==> Merge(leaves, ps)[0] == leaves[0] && Merge(leaves, ps)[1..] == Merge(leaves[1..], ps)
    ensures !LeafFirst(leaves, ps) ==> ps != [] && Merge(leaves, ps)[0] == ps[0] && Merge(leaves, ps)[1..] == Merge(leaves, ps[1..])
  {
    hide Weight;
  }

  lemma NothingTotal(a: seq<Coin>, b: seq<Coin>, c: seq<Coin>)
    requires |a| == |b| == |c| == 0
    ensures Total(Weight, a) == Total(Weight, b) == Total(Weight, c) == 0
  {
  }

  lemma {:induction false} MergeCheapest(leaves: seq<Coin>, ps: seq<Coin>, a: nat, q: nat)
    requires Sorted(leaves) && Sorted(ps) && a <= |leaves| && q <= |ps|
    ensures Total(Weight, Merge(leaves, ps)[..a + q]) <= Total(Weight, leaves[..a]) + Total(Weight, ps[..q])
    decreases |leaves| + |ps|
  {
    hide Weight, Merge, Total;
    var m := Merge(leaves, ps);
    if a + q == 0 {
      NothingTotal(leaves[..a], ps[..q], m[..a + q]);
    } else {
      TotalStep(Weight, m, a + q);
      MergeHead(leaves, ps);
      if LeafFirst(leaves, ps) {
        if a > 0 {
          MergeCheapest(leaves[1..], ps, a - 1, q);
          TotalStep(Weight, leaves, a);
        } else {
          MergeCheapest(leaves[1..], ps, 0, q - 1);
          TotalLast(Weight, ps, q);
        }
      } else {
        if q > 0 {
          MergeCheapest(leaves, ps[1..], a, q - 1);
          TotalStep(Weight, ps, q);
        } else {
          MergeCheapest(leaves, ps[1..], a - 1, 0);
          TotalLast(Weight, leaves, a);
        }
      }
    }
  }

  lemma {:induction false} PackagesTotal(f: Coin -> nat, level: seq<Coin>, q: nat)
    requires Additive(f) && 2 * q <= |level|
    ensures Total(f, Packages(level)[..q]) == Total(f, level[..2 * q])
    decreases q
  {
    if q > 0 {
      TotalLast(f, Packages(level), q);
      TotalLast(f, level, 2 * q);
      TotalLast(f, level, 2 * q - 1);
      PackagesTotal(f, level, q - 1);
    }
  }

  // ----- What the selected prefix contains, level by level -----

  /** Leaves among the first `k` coins of level `t`. */
  function Taken(leaves: seq<Coin>, t: nat, k: nat): (a: nat)
    requires k <= |Level(leaves, t)|
    ensures a <= |leaves| && a <= k
  {
    if t == 0 then k else Leaves(leaves, Packages(Level(leaves, t - 1)), k)
  }

  /** Coins of level `t - 1` inside the packages among the first `k` coins of level `t`. */
  function Below(leaves: seq<Coin>, t: nat, k: nat): (j: nat)
    requires 0 < t && k <= |Level(leaves, t)|
    ensures j <= |Level(leaves, t - 1)|
  {
    2 * (k - Taken(leaves, t, k))
  }

  /** On how many levels the leaf of rank `r` is among the selected coins: its code length. */
  function Length(leaves: seq<Coin>, t: nat, k: nat, r: nat): (l: nat)
    requires k <= |Level(leaves, t)|
    ensures l <= t + 1
  {
    (if r < Taken(leaves, t, k) then 1 else 0) + if t == 0 then 0 else Length(leaves, t - 1, Below(leaves, t, k), r)
  }

  /** A selected package is at least as heavy as any leaf inside it, so that leaf itself was selected first. */
  lemma TakenMonotone(leaves: seq<Coin>, t: nat, k: nat)
    requires Sorted(leaves) && 0 < t && k <= |Level(leaves, t)|
    ensures Taken(leaves, t - 1, Below(leaves, t, k)) <= Taken(leaves, t, k)
  {
    hide Weight, Merge, Leaves;
    var level := Level(leaves, t - 1);
    var a := Taken(leaves, t, k);
    var q := k - a;
    if a < Taken(leaves, t - 1, 2 * q) {
      LeafInPrefix(leaves, t - 1, 2 * q, a);
      LevelSorted(leaves, t - 1);
      PackagesSorted(level);
      LeafSkipped(leaves, Packages(level), k);
      PackageHeavier(level, q);
    }
  }

  lemma PackageHeavier(level: seq<Coin>, q: nat)
    requires 0 < 2 * q <= |level|
    ensures Weight(level[2 * q - 1]) <= Weight(Packages(level)[q - 1])
  {
    assert Packages(level)[q - 1] == Package(level[2 * (q - 1)], level[2 * (q - 1) + 1]);
  }

  /** Rank `r` is among the leaves taken, so some coin of the prefix is at least as heavy. */
  lemma LeafInPrefix(leaves: seq<Coin>, t: nat, k: nat, r: nat)
    requires Sorted(leaves) && k <= |Level(leaves, t)| && r < Taken(leaves, t, k)
    ensures 0 < k && Weight(leaves[r]) <= Weight(Level(leaves, t)[k - 1])
  {
    if t > 0 {
      LevelSorted(leaves, t - 1);
      PackagesSorted(Level(leaves, t - 1));
      LeafNotAfter(leaves, Packages(Level(leaves, t - 1)), k, r);
    }
  }

  lemma {:induction false} LeafNotAfter(leaves: seq<Coin>, ps: seq<Coin>, k: nat, r: nat)
    requires Sorted(leaves) && Sorted(ps) && k <= |leaves| + |ps| && r < Leaves(leaves, ps, k)
    ensures Weight(leaves[r]) <= Weight(Merge(leaves, ps)[k - 1])
    decreases k
  {
    var m := Merge(leaves, ps);
    if LeafFirst(leaves, ps) {
      assert m[1..] == Merge(leaves[1..], ps);
      if r > 0 {
        LeafNotAfter(leaves[1..], ps, k - 1, r - 1);
      } else {
        MergeSorted(leaves, ps);
        assert Weight(m[0]) <= Weight(m[k - 1]);
      }
    } else {
      assert m[1..] == Merge(leaves, ps[1..]);
      LeafNotAfter(leaves, ps[1..], k - 1, r);
    }
  }

  /** A package enters the prefix only after every leaf that is not heavier. */
  lemma {:induction false} LeafSkipped(leaves: seq<Coin>, ps: seq<Coin>, k: nat)
    requires Sorted(leaves) && Sorted(ps) && k <= |leaves| + |ps|
    ensures var a := Leaves(leaves, ps, k);
            k - a > 0 && a < |leaves| ==> Weight(leaves[a]) > Weight(ps[k - a - 1])
    decreases k
  {
    var a := Leaves(leaves, ps, k);
    if k > 0 {
      if LeafFirst(leaves, ps) {
        LeafSkipped(leaves[1..], ps, k - 1);
      } else {
        LeafSkipped(leaves, ps[1..], k - 1);
        if k - a == 1 && a < |leaves| {
          assert leaves != [] && Weight(leaves[0]) > Weight(ps[0]);
          assert Weight(leaves[0]) <= Weight(leaves[a]);
        }
      }
    }
  }

  // ----- Completeness: the Kraft sum is exactly one -----

  lemma {:induction false} LengthZero(leaves: seq<Coin>, t: nat, k: nat, r: nat)
    requires Sorted(leaves) && k <= |Level(leaves, t)| && r >= Taken(leaves, t, k)
    ensures Length(leaves, t, k, r) == 0
  {
    if t > 0 {
      TakenMonotone(leaves, t, k);
      LengthZero(leaves, t - 1, Below(leaves, t, k), r);
    }
  }

  /** Value, in coins of level 0, of the leaves of rank `r` inside the selected coins. */
  function Value(leaves: seq<Coin>, t: nat, k: nat, r: nat): nat
    requires k <= |Level(leaves, t)|
  {
    (if r < Taken(leaves, t, k) then Pow2(t) else 0) + if t == 0 then 0 else Value(leaves, t - 1, Below(leaves, t, k), r)
  }

  /** A symbol's selected coins are the `l` largest denominations, which sum to the complement of 2^-l. */
  lemma {:induction false} ValueOfLength(leaves: seq<Coin>, t: nat, k: nat, r: nat)
    requires Sorted(leaves) && k <= |Level(leaves, t)|
    ensures Value(leaves, t, k, r) + Pow2(t + 1 - Length(leaves, t, k, r)) == Pow2(t + 1)
  {
    hide Merge, Packages, Weight, Leaves, Level, Taken;
    if r >= Taken(leaves, t, k) {
      LengthZero(leaves, t, k, r);
    }
    if t > 0 {
      ValueOfLength(leaves, t - 1, Below(leaves, t, k), r);
    }
  }

  function Values(leaves: seq<Coin>, t: nat, k: nat): (vs: seq<nat>)
    requires k <= |Level(leaves, t)|
    ensures |vs| == |leaves| && forall r :: 0 <= r < |leaves| ==> vs[r] == Value(leaves, t, k, r)
  {
    seq(|leaves|, r requires 0 <= r < |leaves| => Value(leaves, t, k, r))
  }

  /** `v` for the first `a` of `n` entries, then 0. */
  function Firsts(n: nat, a: nat, v: nat): (xs: seq<nat>)
    ensures |xs| == n && forall r :: 0 <= r < n ==> xs[r] == if r < a then v else 0
  {
    seq(n, r => if r < a then v else 0 as nat)
  }

  lemma SumBelow(xs: seq<nat>, a: nat, v: nat)
    requires a <= |xs| && forall r :: 0 <= r < |xs| ==> xs[r] == if r < a then v else 0
    ensures Sum(xs) == a * v
  {
    assert xs == xs[..a] + xs[a..];
    SumAppend(xs[..a], xs[a..]);
    SumConstant(xs[..a], v);
    SumConstant(xs[a..], 0);
  }

  lemma Distribute(a: nat, b: nat, p: nat)
    ensures a * (2 * p) + (2 * b) * p == (a + b) * (2 * p)
  {
  }

  /** Nothing is lost in packaging: `k` coins of level `t` are worth `k * 2^t`. */
  lemma {:induction false} ValuesSum(leaves: seq<Coin>, t: nat, k: nat)
    requires k <= |Level(leaves, t)|
    ensures Sum(Values(leaves, t, k)) == k * Pow2(t)
  {
    hide Merge, Packages, Weight, Leaves, Level, Sum;
    var a := Taken(leaves, t, k);
    var here := Firsts(|leaves|, a, Pow2(t));
    SumBelow(here, a, Pow2(t));
    if t == 0 {
      assert here == Values(leaves, t, k);
    } else {
      ValuesSum(leaves, t - 1, Below(leaves, t, k));
      SumPlus(here, Values(leaves, t - 1, Below(leaves, t, k)), Values(leaves, t, k));
      Distribute(a, k - a, Pow2(t - 1));
    }
  }

  function Lengths(leaves: seq<Coin>, t: nat, k: nat): (ls: seq<nat>)
    requires k <= |Level(leaves, t)|
    ensures |ls| == |leaves| && forall r :: 0 <= r < |leaves| ==> ls[r] == Length(leaves, t, k, r) <= t + 1
  {
    seq(|leaves|, r requires 0 <= r < |leaves| => Length(leaves, t, k, r))
  }

  /** Kraft sum in units of 2^-limit. */
  function Kraft(ls: seq<nat>, limit: nat): nat
    requires forall i :: 0 <= i < |ls| ==> ls[i] <= limit
  {
    Sum(Shares(ls, limit))
  }

  function Shares(ls: seq<nat>, limit: nat): (ss: seq<nat>)
    requires forall i :: 0 <= i < |ls| ==> ls[i] <= limit
    ensures |ss| == |ls| && forall i :: 0 <= i < |ls| ==> ss[i] == Pow2(limit - ls[i])
  {
    seq(|ls|, i requires 0 <= i < |ls| => Pow2(limit - ls[i]))
  }

  lemma KraftIsOne(leaves: seq<Coin>, t: nat)
    requires Sorted(leaves) && |leaves| >= 2 && 2 * |leaves| - 2 <= |Level(leaves, t)|
    ensures Kraft(Lengths(leaves, t, 2 * |leaves| - 2), t + 1) == Pow2(t + 1)
  {
    hide Merge, Packages, Weight, Leaves, Level, Taken, Sum, Value, Length;
    var k := 2 * |leaves| - 2;
    var vs, ss := Values(leaves, t, k), Shares(Lengths(leaves, t, k), t + 1);
    var all := Firsts(|leaves|, |leaves|, Pow2(t + 1));
    forall r | 0 <= r < |leaves| ensures all[r] == vs[r] + ss[r] {
      ValueOfLength(leaves, t, k, r);
    }
    SumPlus(vs, ss, all);
    ValuesSum(leaves, t, k);
    SumConstant(all, Pow2(t + 1));
    Distribute(0, |leaves| - 1, Pow2(t));
    Distribute(|leaves| - 1, 1, Pow2(t));
  }

  lemma KraftSum(ls: seq<nat>, limit: nat)
    requires forall i :: 0 <= i < |ls| ==> ls[i] <= limit
    ensures Kraft(ls, limit) == Sum(Shares(ls, limit))
  {
  }

  /** A complete code over at least two symbols leaves no symbol without a code. */
  lemma KraftPositive(ls: seq<nat>, limit: nat, r: nat)
    requires |ls| >= 2 && r < |ls| && (forall i :: 0 <= i < |ls| ==> ls[i] <= limit) && Kraft(ls, limit) == Pow2(limit)
    ensures ls[r] >= 1
  {
    hide *;
    var ss := Shares(ls, limit);
    assert Sum(ss) == Pow2(limit) by { KraftSum(ls, limit); }
    if ls[r] == 0 {
      assert ss[r] == Pow2(limit);
      if r == 0 {
        SumAtLeastTwo(ss, 0, 1);
      } else {
        SumAtLeastTwo(ss, 0, r);
      }
      assert false;
    }
  }

  // ----- Optimality -----

  function Times(a: nat, b: nat): nat { a * b }

  lemma TimesPlus(a: nat, b: nat, c: nat)
    ensures Times(a, b + c) == Times(a, b) + Times(a, c)
  {
  }

  /** What a code with lengths `c`, truncated to levels 0..t, is worth per symbol. */
  function Worth(t: nat, c: nat): nat
    requires c <= t + 1
  {
    Pow2(t + 1) - (Pow2Monotone(t + 1 - c, t + 1); Pow2(t + 1 - c))
  }

  function Worths(t: nat, cs: seq<nat>): (ws: seq<nat>)
    requires forall r :: 0 <= r < |cs| ==> cs[r] <= t + 1
    ensures |ws| == |cs| && forall r :: 0 <= r < |cs| ==> ws[r] == Worth(t, cs[r])
  {
    seq(|cs|, r requires 0 <= r < |cs| => Worth(t, cs[r]))
  }

  function Products(leaves: seq<Coin>, cs: seq<nat>): (ps: seq<nat>)
    requires |cs| == |leaves|
    ensures |ps| == |cs| && forall r :: 0 <= r < |cs| ==> ps[r] == Times(Weight(leaves[r]), cs[r])
  {
    seq(|cs|, r requires 0 <= r < |cs| => Times(Weight(leaves[r]), cs[r]))
  }

  lemma TimesOne(a: nat)
    ensures Times(a, 1) == a && Times(a, 0) == 0
  {
  }

  /** The `a` lightest leaves weigh no more than any `a` leaves. */
  lemma {:induction false} LightestLeaves(leaves: seq<Coin>, picked: seq<nat>)
    requires Sorted(leaves) && |picked| == |leaves| && forall r :: 0 <= r < |picked| ==> picked[r] <= 1
    ensures Sum(picked) <= |leaves|
    ensures Total(Weight, leaves[..Sum(picked)]) <= Sum(Products(leaves, picked))
  {
    hide Weight, Times, Total, Sum, Products;
    if leaves == [] {
      NoLeaves(picked);
    } else {
      var n := |leaves| - 1;
      var a := Sum(picked[..n]);
      LightestLeaves(leaves[..n], picked[..n]);
      LastPicked(leaves, picked, n);
      assert leaves[..n][..a] == leaves[..a];
      if picked[n] == 1 {
        hide Sorted;
        TotalLast(Weight, leaves, a + 1);
        SortedAt(leaves, a, n);
      }
    }
  }

  lemma NoLeaves(picked: seq<nat>)
    requires picked == []
    ensures Sum(picked) == 0 && Total(Weight, []) == 0
  {
  }

  lemma LastPicked(leaves: seq<Coin>, picked: seq<nat>, n: nat)
    requires |picked| == |leaves| == n + 1 && picked[n] <= 1
    ensures Sum(picked) == Sum(picked[..n]) + picked[n]
    ensures Sum(Products(leaves, picked)) == Sum(Products(leaves[..n], picked[..n])) + if picked[n] == 1 then Weight(leaves[n]) else 0
  {
    hide Weight, Times;
    assert Products(leaves, picked)[..n] == Products(leaves[..n], picked[..n]);
    TimesOne(Weight(leaves[n]));
  }

  lemma SortedAt(leaves: seq<Coin>, a: nat, n: nat)
    requires Sorted(leaves) && a <= n < |leaves|
    ensures Weight(leaves[a]) <= Weight(leaves[n])
  {
    hide Weight;
  }

  function Picked(cs: seq<nat>): (ps: seq<nat>)
    ensures |ps| == |cs| && forall r :: 0 <= r < |cs| ==> ps[r] == if cs[r] >= 1 then 1 else 0
  {
    seq(|cs|, r requires 0 <= r < |cs| => if cs[r] >= 1 then 1 else 0 as nat)
  }

  function Rest(cs: seq<nat>): (rs: seq<nat>)
    ensures |rs| == |cs| && forall r :: 0 <= r < |cs| ==> rs[r] == if cs[r] >= 1 then cs[r] - 1 else 0
  {
    seq(|cs|, r requires 0 <= r < |cs| => if cs[r] >= 1 then (cs[r] - 1) as nat else 0)
  }

  function Scaled(k: nat, xs: seq<nat>): (zs: seq<nat>)
    ensures |zs| == |xs| && forall r :: 0 <= r < |xs| ==> zs[r] == Times(k, xs[r])
  {
    seq(|xs|, r requires 0 <= r < |xs| => Times(k, xs[r]))
  }

  /** A code's coins at the top level and its coins below, in value and in weight. */
  lemma WorthSplit(leaves: seq<Coin>, t: nat, cs: seq<nat>)
    requires 0 < t && |cs| == |leaves| && forall r :: 0 <= r < |cs| ==> cs[r] <= t + 1
    ensures Sum(Worths(t, cs)) == Times(Pow2(t), Sum(Picked(cs))) + Sum(Worths(t - 1, Rest(cs)))
    ensures Sum(Products(leaves, cs)) == Sum(Products(leaves, Picked(cs))) + Sum(Products(leaves, Rest(cs)))
  {
    hide *;
    var top := Scaled(Pow2(t), Picked(cs));
    ScaledSum(Pow2(t), Picked(cs));
    forall r | 0 <= r < |cs| ensures Worths(t, cs)[r] == top[r] + Worths(t - 1, Rest(cs))[r] {
      WorthStep(t, cs[r]);
    }
    SumPlus(top, Worths(t - 1, Rest(cs)), Worths(t, cs));
    forall r | 0 <= r < |cs| ensures Products(leaves, cs)[r] == Products(leaves, Picked(cs))[r] + Products(leaves, Rest(cs))[r] {
      TimesPlus(Weight(leaves[r]), Picked(cs)[r], Rest(cs)[r]);
    }
    SumPlus(Products(leaves, Picked(cs)), Products(leaves, Rest(cs)), Products(leaves, cs));
  }

  lemma WorthStep(t: nat, c: nat)
    requires 0 < t && c <= t + 1
    ensures var p := if c >= 1 then 1 else 0; Worth(t, c) == Times(Pow2(t), p) + Worth(t - 1, c - p)
  {
  }

  lemma ScaledSum(k: nat, xs: seq<nat>)
    ensures Sum(Scaled(k, xs)) == Times(k, Sum(xs))
  {
    SumScaled(xs, k, Scaled(k, xs));
  }

  lemma {:induction false} TotalMonotone(f: Coin -> nat, cs: seq<Coin>, j: nat, k: nat)
    requires j <= k <= |cs|
    ensures Total(f, cs[..j]) <= Total(f, cs[..k])
    decreases k
  {
    if j < k {
      TotalMonotone(f, cs, j, k - 1);
      TotalLast(f, cs, k);
    }
  }

  lemma BottomWorth(cs: seq<nat>, k: nat)
    requires forall r :: 0 <= r < |cs| ==> cs[r] <= 1
    ensures Worths(0, cs) == cs && Times(k, Pow2(0)) == k
  {
    assert Pow2(1) == 2 && Pow2(0) == 1;
  }

  lemma BottomIsLeaves(leaves: seq<Coin>)
    ensures Level(leaves, 0) == leaves
  {
  }

  lemma BottomLevel(leaves: seq<Coin>, cs: seq<nat>, k: nat)
    requires Sorted(leaves) && |cs| == |leaves| && (forall r :: 0 <= r < |cs| ==> cs[r] <= 1)
    requires Sum(Worths(0, cs)) >= Times(k, Pow2(0))
    ensures k <= |Level(leaves, 0)| && Total(Weight, Level(leaves, 0)[..k]) <= Sum(Products(leaves, cs))
  {
    hide *;
    BottomWorth(cs, k);
    BottomIsLeaves(leaves);
    LightestLeaves(leaves, cs);
    TotalMonotone(Weight, leaves, k, Sum(cs));
  }

  /** Coins worth `k` coins of level `t` weigh at least as much as the first `k` coins of that level. */
  lemma {:induction false} LowerBound(leaves: seq<Coin>, t: nat, cs: seq<nat>, k: nat)
    requires Sorted(leaves) && |cs| == |leaves| && forall r :: 0 <= r < |cs| ==> cs[r] <= t + 1
    requires Sum(Worths(t, cs)) >= Times(k, Pow2(t))
    ensures k <= |Level(leaves, t)| && Total(Weight, Level(leaves, t)[..k]) <= Sum(Products(leaves, cs))
    decreases t
  {
    hide *;
    if t == 0 {
      BottomLevel(leaves, cs, k);
      return;
    }
    var level := Level(leaves, t - 1);
    var b := Sum(Picked(cs));
    WorthSplit(leaves, t, cs);
    LightestLeaves(leaves, Picked(cs));
    LevelSorted(leaves, t - 1);
    if k > b {
      HalfUnits(t, k - b, b, Sum(Worths(t - 1, Rest(cs))));
      LowerBound(leaves, t - 1, Rest(cs), 2 * (k - b));
    }
    CombineLevels(leaves, level, b, k, Sum(Products(leaves, Picked(cs))), Sum(Products(leaves, Rest(cs))));
    LevelUnfold(leaves, t);
  }

  lemma LevelUnfold(leaves: seq<Coin>, t: nat)
    requires t > 0
    ensures Level(leaves, t) == Merge(leaves, Packages(Level(leaves, t - 1)))
  {
  }

  /** Bounds for some leaves and for the coins inside some packages bound the merged prefix. */
  lemma CombineLevels(leaves: seq<Coin>, level: seq<Coin>, b: nat, k: nat, x: nat, y: nat)
    requires Sorted(leaves) && Sorted(level) && b <= |leaves| && Total(Weight, leaves[..b]) <= x
    requires k > b ==> 2 * (k - b) <= |level| && Total(Weight, level[..2 * (k - b)]) <= y
    ensures k <= |Merge(leaves, Packages(level))| && Total(Weight, Merge(leaves, Packages(level))[..k]) <= x + y
  {
    hide Total, Merge, Weight;
    var ps := Packages(level);
    PackagesSorted(level);
    if k > b {
      WeightAdditive();
      PackagesTotal(Weight, level, k - b);
      MergeCheapest(leaves, ps, b, k - b);
    } else {
      MergeCheapest(leaves, ps, b, 0);
      TotalEmpty(Weight);
      TotalMonotone(Weight, Merge(leaves, ps), k, b);
    }
  }

  lemma TotalEmpty(f: Coin -> nat)
    ensures Total(f, []) == 0
  {
  }

  lemma WeightAdditive()
    ensures Additive(Weight)
  {
  }

  lemma HalfUnits(t: nat, q: nat, b: nat, below: nat)
    requires t > 0 && Times(Pow2(t), b) + below >= Times(b + q, Pow2(t))
    ensures below >= Times(2 * q, Pow2(t - 1))
  {
    var p := Pow2(t - 1);
    assert (2 * p) * b + below >= (b + q) * (2 * p) == (2 * p) * b + 2 * q * p;
  }

  // ----- The sorted order of the symbols -----

  /** Symbols 0..m by weight, ties by index: what `sort_by_key(|i| (weights[i], i))` leaves behind. */
  predicate Ascending(weights: seq<nat>, order: seq<nat>)
  {
    && (forall r :: 0 <= r < |order| ==> order[r] < |weights|)
    && forall r, s :: 0 <= r < s < |order| ==>
         weights[order[r]] < weights[order[s]] || (weights[order[r]] == weights[order[s]] && order[r] < order[s])
  }

  function Insert(weights: seq<nat>, i: nat, order: seq<nat>): (o: seq<nat>)
    requires Ascending(weights, order) && i < |weights| && forall r :: 0 <= r < |order| ==> order[r] < i
    ensures |o| == |order| + 1 && (forall x :: x in o <==> x == i || x in order)
    ensures Ascending(weights, o)
  {
    if order == [] || weights[i] < weights[order[0]] then
      AscendingFront(weights, i, order);
      [i] + order
    else
      var rest := Insert(weights, i, order[1..]);
      assert forall s :: 0 <= s < |rest| ==> rest[s] in rest;
      assert forall s :: 0 <= s < |rest| ==> rest[s] == i || rest[s] in order[1..];
      AscendingFront(weights, order[0], rest);
      [order[0]] + rest
  }

  lemma AscendingFront(weights: seq<nat>, x: nat, rest: seq<nat>)
    requires x < |weights| && Ascending(weights, rest)
    requires forall s :: 0 <= s < |rest| ==> weights[x] < weights[rest[s]] || (weights[x] == weights[rest[s]] && x < rest[s])
    ensures Ascending(weights, [x] + rest)
  {
  }

  function Sort(weights: seq<nat>, n: nat): (order: seq<nat>)
    requires n <= |weights|
    ensures Ascending(weights, order) && |order| == n && forall r :: 0 <= r < n ==> order[r] < n
    ensures forall i :: 0 <= i < n ==> i in order
  {
    if n == 0 then [] else
      var order := Insert(weights, n - 1, Sort(weights, n - 1));
      assert forall r :: 0 <= r < n ==> order[r] in order;
      order
  }

  ghost function At(xs: seq<nat>, order: seq<nat>): (ys: seq<nat>)
    requires forall r :: 0 <= r < |order| ==> order[r] < |xs|
    ensures |ys| == |order| && forall r :: 0 <= r < |order| ==> ys[r] == xs[order[r]]
  {
    seq(|order|, r requires 0 <= r < |order| => xs[order[r]])
  }

  lemma {:induction false} SumAtInsert(weights: seq<nat>, i: nat, order: seq<nat>, xs: seq<nat>)
    requires Ascending(weights, order) && i < |weights| == |xs| && forall r :: 0 <= r < |order| ==> order[r] < i
    ensures Sum(At(xs, Insert(weights, i, order))) == Sum(At(xs, order)) + xs[i]
  {
    hide Sum, At, Insert;
    InsertUnfold(weights, i, order);
    if order == [] || weights[i] < weights[order[0]] {
      SumAtCons(xs, i, order);
    } else {
      SumAtInsert(weights, i, order[1..], xs);
      SumAtCons(xs, order[0], Insert(weights, i, order[1..]));
      SumAtCons(xs, order[0], order[1..]);
      assert order == [order[0]] + order[1..];
    }
  }

  lemma InsertUnfold(weights: seq<nat>, i: nat, order: seq<nat>)
    requires Ascending(weights, order) && i < |weights| && forall r :: 0 <= r < |order| ==> order[r] < i
    ensures Insert(weights, i, order) ==
            if order == [] || weights[i] < weights[order[0]] then [i] + order
            else [order[0]] + Insert(weights, i, order[1..])
  {
  }

  lemma SumAtCons(xs: seq<nat>, i: nat, order: seq<nat>)
    requires i < |xs| && forall r :: 0 <= r < |order| ==> order[r] < |xs|
    ensures forall r :: 0 <= r < |order| + 1 ==> ([i] + order)[r] < |xs|
    ensures Sum(At(xs, [i] + order)) == xs[i] + Sum(At(xs, order))
  {
    hide Sum;
    assert At(xs, [i] + order) == [xs[i]] + At(xs, order);
    SumAppend([xs[i]], At(xs, order));
    SumOne(xs[i]);
  }

  lemma SumOne(x: nat)
    ensures Sum([x]) == x
  {
  }

  /** Summing in sorted order is summing. */
  lemma {:induction false} SumAtSort(weights: seq<nat>, n: nat, xs: seq<nat>)
    requires n <= |weights| == |xs|
    ensures Sum(At(xs, Sort(weights, n))) == Sum(xs[..n])
  {
    hide *;
    if n > 0 {
      SumAtSort(weights, n - 1, xs);
      SumAtInsert(weights, n - 1, Sort(weights, n - 1), xs);
      SortUnfold(weights, n);
      SumLast(xs, n);
    } else {
      assert At(xs, Sort(weights, 0)) == xs[..0];
    }
  }

  lemma SortUnfold(weights: seq<nat>, n: nat)
    requires 0 < n <= |weights|
    ensures Sort(weights, n) == Insert(weights, n - 1, Sort(weights, n - 1))
  {
  }

  lemma SumLast(xs: seq<nat>, n: nat)
    requires 0 < n <= |xs|
    ensures Sum(xs[..n]) == Sum(xs[..n - 1]) + xs[n - 1]
  {
    assert xs[..n][..n - 1] == xs[..n - 1];
  }

  function LeafList(weights: seq<nat>, order: seq<nat>): (leaves: seq<Coin>)
    requires Ascending(weights, order)
    ensures |leaves| == |order| && forall r :: 0 <= r < |order| ==> leaves[r] == Leaf(order[r], weights[order[r]])
    ensures Sorted(leaves)
  {
    seq(|order|, r requires 0 <= r < |order| => Leaf(order[r], weights[order[r]]))
  }

  // ----- Counting a symbol's coins -----

  lemma {:induction false} CountLeaves(weights: seq<nat>, order: seq<nat>, a: nat, r: nat)
    requires Ascending(weights, order) && a <= |order| && r < |order|
    ensures Total(CountOf(order[r]), LeafList(weights, order)[..a]) == if r < a then 1 else 0
    decreases a
  {
    if a > 0 {
      CountLeaves(weights, order, a - 1, r);
      TotalLast(CountOf(order[r]), LeafList(weights, order), a);
    }
  }

  lemma {:induction false} CountIsLength(weights: seq<nat>, order: seq<nat>, t: nat, k: nat, r: nat)
    requires Ascending(weights, order) && r < |order| && k <= |Level(LeafList(weights, order), t)|
    ensures Total(CountOf(order[r]), Level(LeafList(weights, order), t)[..k]) == Length(LeafList(weights, order), t, k, r)
    decreases t
  {
    hide Total, Merge, Count, CountOf;
    var leaves, f := LeafList(weights, order), CountOf(order[r]);
    CountLeaves(weights, order, Taken(leaves, t, k), r);
    if t > 0 {
      CountAdditive(order[r]);
      SelectedAbove(leaves, t, k, f);
      CountIsLength(weights, order, t - 1, Below(leaves, t, k), r);
    }
  }

  lemma CountAdditive(sym: nat)
    ensures Additive(CountOf(sym))
  {
  }

  // ----- The result -----

  /** Total encoded size: each symbol's weight times its code length. */
  function Size(weights: seq<nat>, lens: seq<nat>): nat
    requires |lens| == |weights|
  {
    Sum(Sizes(weights, lens))
  }

  function Sizes(weights: seq<nat>, lens: seq<nat>): (ss: seq<nat>)
    requires |lens| == |weights|
    ensures |ss| == |lens| && forall i :: 0 <= i < |lens| ==> ss[i] == Times(weights[i], lens[i])
  {
    seq(|lens|, i requires 0 <= i < |lens| => Times(weights[i], lens[i]))
  }

  /** Every symbol has a code of at most `limit` bits and the code is complete. */
  ghost predicate Complete(lens: seq<nat>, limit: nat)
  {
    (forall i :: 0 <= i < |lens| ==> 1 <= lens[i] <= limit) && Kraft(lens, limit) == Pow2(limit)
  }

  ghost predicate Optimal(weights: seq<nat>, lens: seq<nat>, limit: nat)
    requires |lens| == |weights|
  {
    forall other: seq<nat> :: |other| == |weights| && (forall i :: 0 <= i < |other| ==> other[i] <= limit) && Kraft(other, limit) <= Pow2(limit)
      ==> Size(weights, lens) <= Size(weights, other)
  }

  /** The leaves of rank below `a`, summed through the products. */
  lemma {:induction false} FirstLeaves(leaves: seq<Coin>, a: nat, ps: seq<nat>)
    requires a <= |leaves| == |ps|
    requires forall r :: 0 <= r < |ps| ==> ps[r] == if r < a then Weight(leaves[r]) else 0
    ensures Sum(ps) == Total(Weight, leaves[..a])
  {
    hide Weight;
    if a < |ps| {
      assert ps == ps[..a] + ps[a..];
      SumAppend(ps[..a], ps[a..]);
      SumConstant(ps[a..], 0);
      FirstLeaves(leaves[..a], a, ps[..a]);
      assert leaves[..a][..a] == leaves[..a];
    } else if a > 0 {
      FirstLeaves(leaves[..a - 1], a - 1, ps[..a - 1]);
      assert leaves[..a - 1][..a - 1] == leaves[..a - 1];
      TotalLast(Weight, leaves, a);
    }
  }

  /** The selected coins weigh exactly what the code they describe costs. */
  lemma {:induction false} SelectedCost(leaves: seq<Coin>, t: nat, k: nat)
    requires Sorted(leaves) && k <= |Level(leaves, t)|
    ensures Total(Weight, Level(leaves, t)[..k]) == Sum(Products(leaves, Lengths(leaves, t, k)))
    decreases t
  {
    hide *;
    var a := Taken(leaves, t, k);
    var firsts := Products(leaves, Firsts(|leaves|, a, 1));
    forall r | 0 <= r < |leaves| ensures firsts[r] == if r < a then Weight(leaves[r]) else 0 {
      TimesOne(Weight(leaves[r]));
    }
    FirstLeaves(leaves, a, firsts);
    if t == 0 {
      Bottom(leaves, k);
    } else {
      var level := Level(leaves, t - 1);
      var below := Lengths(leaves, t - 1, Below(leaves, t, k));
      SelectedAbove(leaves, t, k, Weight) by { WeightAdditive(); }
      SelectedCost(leaves, t - 1, Below(leaves, t, k));
      forall r | 0 <= r < |leaves| ensures Products(leaves, Lengths(leaves, t, k))[r] == firsts[r] + Products(leaves, below)[r] {
        LengthUnfold(leaves, t, k, r);
        TimesPlus(Weight(leaves[r]), Firsts(|leaves|, a, 1)[r], below[r]);
      }
      SumPlus(firsts, Products(leaves, below), Products(leaves, Lengths(leaves, t, k)));
    }
  }

  lemma Bottom(leaves: seq<Coin>, k: nat)
    requires k <= |Level(leaves, 0)|
    ensures Level(leaves, 0) == leaves && Taken(leaves, 0, k) == k && Firsts(|leaves|, k, 1) == Lengths(leaves, 0, k)
  {
  }

  lemma LengthUnfold(leaves: seq<Coin>, t: nat, k: nat, r: nat)
    requires t > 0 && k <= |Level(leaves, t)|
    ensures Length(leaves, t, k, r) == (if r < Taken(leaves, t, k) then 1 else 0) + Length(leaves, t - 1, Below(leaves, t, k), r)
  {
  }

  /** Any additive measure of the prefix splits into its leaves and the coins one level down. */
  lemma SelectedAbove(leaves: seq<Coin>, t: nat, k: nat, f: Coin -> nat)
    requires t > 0 && k <= |Level(leaves, t)| && Additive(f)
    ensures Total(f, Level(leaves, t)[..k]) ==
            Total(f, leaves[..Taken(leaves, t, k)]) + Total(f, Level(leaves, t - 1)[..Below(leaves, t, k)])
  {
    hide Total, Merge;
    MergePrefix(f, leaves, Packages(Level(leaves, t - 1)), k);
    PackagesTotal(f, Level(leaves, t - 1), k - Taken(leaves, t, k));
  }

  /** Worth and share of a code add up to the whole, so a small Kraft sum means enough worth. */
  lemma WorthFromKraft(t: nat, cs: seq<nat>)
    requires |cs| >= 1 && (forall r :: 0 <= r < |cs| ==> cs[r] <= t + 1) && Kraft(cs, t + 1) <= Pow2(t + 1)
    ensures Sum(Worths(t, cs)) >= Times(2 * |cs| - 2, Pow2(t))
  {
    var all := Firsts(|cs|, |cs|, Pow2(t + 1));
    hide Sum;
    forall r | 0 <= r < |cs| ensures all[r] == Worths(t, cs)[r] + Shares(cs, t + 1)[r] { }
    SumPlus(Worths(t, cs), Shares(cs, t + 1), all);
    SumConstant(all, Pow2(t + 1));
    Distribute(0, |cs| - 1, Pow2(t));
    Distribute(|cs| - 1, 1, Pow2(t));
  }

  /** With 2^limit at least the number of symbols the last level has the 2m - 2 coins the method takes. */
  lemma EnoughCoins(leaves: seq<Coin>, limit: nat)
    requires Sorted(leaves) && |leaves| >= 1 && limit >= 1 && Pow2(limit) >= |leaves|
    ensures 2 * |leaves| - 2 <= |Level(leaves, limit - 1)|
  {
    var flat := Firsts(|leaves|, |leaves|, limit);
    SumConstant(Shares(flat, limit), 1);
    WorthFromKraft(limit - 1, flat);
    LowerBound(leaves, limit - 1, flat, 2 * |leaves| - 2);
  }

  lemma SharesAt(lens: seq<nat>, order: seq<nat>, limit: nat)
    requires forall i :: 0 <= i < |lens| ==> lens[i] <= limit
    requires forall r :: 0 <= r < |order| ==> order[r] < |lens|
    ensures forall r :: 0 <= r < |order| ==> At(lens, order)[r] <= limit
    ensures At(Shares(lens, limit), order) == Shares(At(lens, order), limit)
  {
    hide Pow2;
  }

  lemma SumAtWholeSort(weights: seq<nat>, xs: seq<nat>)
    requires |weights| == |xs|
    ensures Sum(At(xs, Sort(weights, |weights|))) == Sum(xs)
  {
    SumAtSort(weights, |weights|, xs);
    assert xs[..|weights|] == xs;
  }

  /** Sums over a code do not depend on whether symbols are listed by index or by weight. */
  lemma KraftAtSort(weights: seq<nat>, lens: seq<nat>, limit: nat)
    requires |lens| == |weights| && forall i :: 0 <= i < |lens| ==> lens[i] <= limit
    ensures Kraft(At(lens, Sort(weights, |weights|)), limit) == Kraft(lens, limit)
  {
    hide *;
    var order := Sort(weights, |weights|);
    SumAtWholeSort(weights, Shares(lens, limit));
    SharesAt(lens, order, limit);
    KraftSum(lens, limit);
    KraftSum(At(lens, order), limit);
  }

  lemma SizeAtSort(weights: seq<nat>, lens: seq<nat>)
    requires |lens| == |weights|
    ensures var order := Sort(weights, |weights|);
            Sum(Products(LeafList(weights, order), At(lens, order))) == Size(weights, lens)
  {
    hide Sum, Times;
    var order := Sort(weights, |weights|);
    SumAtWholeSort(weights, Sizes(weights, lens));
    assert At(Sizes(weights, lens), order) == Products(LeafList(weights, order), At(lens, order));
  }

  /** The cheapest 2m - 2 coins of the last level. */
  function Chosen(weights: seq<nat>, limit: nat): seq<Coin>
    requires limit >= 1
  {
    Prefix(Level(LeafList(weights, Sort(weights, |weights|)), limit - 1), 2 * |weights|)
  }

  /** `take(m2 - 2)` */
  function Prefix(cs: seq<Coin>, m2: nat): seq<Coin>
  {
    if 2 <= m2 <= |cs| + 2 then cs[..m2 - 2] else cs
  }

  lemma ChosenIsPrefix(weights: seq<nat>, limit: nat)
    requires |weights| >= 2 && limit >= 1 && Pow2(limit) >= |weights|
    ensures var last := Level(LeafList(weights, Sort(weights, |weights|)), limit - 1);
            2 * |weights| - 2 <= |last| && Chosen(weights, limit) == last[..2 * |weights| - 2]
  {
    hide Level, Pow2;
    EnoughCoins(LeafList(weights, Sort(weights, |weights|)), limit);
  }

  /** The code lengths the selection describes: how many chosen coins carry each symbol. */
  ghost predicate FromSelection(weights: seq<nat>, limit: nat, lens: seq<nat>)
    requires limit >= 1
  {
    |lens| == |weights| && forall i :: 0 <= i < |weights| ==> lens[i] == Total(CountOf(i), Chosen(weights, limit))
  }

  lemma SelectionByRank(weights: seq<nat>, limit: nat, lens: seq<nat>)
    requires |weights| >= 2 && limit >= 1 && Pow2(limit) >= |weights| && FromSelection(weights, limit, lens)
    ensures var leaves := LeafList(weights, Sort(weights, |weights|));
            2 * |weights| - 2 <= |Level(leaves, limit - 1)| &&
            At(lens, Sort(weights, |weights|)) == Lengths(leaves, limit - 1, 2 * |weights| - 2)
    ensures forall i :: 0 <= i < |lens| ==> lens[i] <= limit
  {
    hide Level, Length, Total, Pow2, Chosen, CountOf, Sort;
    var order := Sort(weights, |weights|);
    var leaves := LeafList(weights, order);
    ChosenIsPrefix(weights, limit);
    forall r | 0 <= r < |weights| ensures lens[order[r]] == Length(leaves, limit - 1, 2 * |weights| - 2, r) {
      CountIsLength(weights, order, limit - 1, 2 * |weights| - 2, r);
    }
    forall i | 0 <= i < |weights| ensures lens[i] <= limit {
      assert i in order;
      var r :| 0 <= r < |weights| && order[r] == i;
    }
  }

  /** Counting each symbol's coins among the cheapest 2m - 2 gives a complete code. */
  lemma SelectionIsComplete(weights: seq<nat>, limit: nat, lens: seq<nat>)
    requires |weights| >= 2 && limit >= 1 && Pow2(limit) >= |weights| && FromSelection(weights, limit, lens)
    ensures Complete(lens, limit)
  {
    hide Level, Lengths, Sort, LeafList, Kraft, Pow2, At;
    SelectionByRank(weights, limit, lens);
    KraftIsOne(LeafList(weights, Sort(weights, |weights|)), limit - 1);
    KraftAtSort(weights, lens, limit);
    forall i | 0 <= i < |lens| ensures lens[i] >= 1 {
      KraftPositive(lens, limit, i);
    }
  }

  lemma SelectionBeats(weights: seq<nat>, limit: nat, lens: seq<nat>, other: seq<nat>)
    requires |weights| >= 2 && limit >= 1 && Pow2(limit) >= |weights| && FromSelection(weights, limit, lens)
    requires |other| == |weights| && (forall i :: 0 <= i < |other| ==> other[i] <= limit) && Kraft(other, limit) <= Pow2(limit)
    ensures Size(weights, lens) <= Size(weights, other)
  {
    hide *;
    var order := Sort(weights, |weights|);
    var leaves := LeafList(weights, order);
    SelectionByRank(weights, limit, lens);
    KraftAtSort(weights, other, limit);
    WorthFromKraft(limit - 1, At(other, order));
    LowerBound(leaves, limit - 1, At(other, order), 2 * |weights| - 2);
    SelectedCost(leaves, limit - 1, 2 * |weights| - 2);
    assert |lens| == |weights| by { SelectionLength(weights, limit, lens); }
    SizeAtSort(weights, lens);
    SizeAtSort(weights, other);
  }

  lemma SelectionLength(weights: seq<nat>, limit: nat, lens: seq<nat>)
    requires limit >= 1 && FromSelection(weights, limit, lens)
    ensures |lens| == |weights|
  {
  }

  /** Counting each symbol's coins among the cheapest 2m - 2 gives a code of least size. */
  lemma SelectionIsOptimal(weights: seq<nat>, limit: nat, lens: seq<nat>)
    requires |weights| >= 2 && limit >= 1 && Pow2(limit) >= |weights| && FromSelection(weights, limit, lens)
    ensures Optimal(weights, lens, limit)
  {
    forall other: seq<nat> | |other| == |weights| && (forall i :: 0 <= i < |other| ==> other[i] <= limit) && Kraft(other, limit) <= Pow2(limit)
      ensures Size(weights, lens) <= Size(weights, other)
    {
      SelectionBeats(weights, limit, lens, other);
    }
  }

  // ----- The arena -----

  /** Marks a leaf in the `left` column. */
  const NONE: nat := 0xFFFF_FFFF

  /** Parallel columns, one row per coin; a leaf keeps its symbol in `right`. */
  datatype Arena = Arena(weight: seq<nat>, left: seq<nat>, right: seq<nat>)

  ghost predicate Holds(arena: Arena, coins: seq<Coin>)
  {
    && |arena.weight| == |arena.left| == |arena.right| == |coins|
    && forall i :: 0 <= i < |coins| ==> Row(arena, coins, i)
  }

  ghost predicate Row(arena: Arena, coins: seq<Coin>, i: nat)
    requires i < |coins| && |arena.weight| == |arena.left| == |arena.right| == |coins|
  {
    && arena.weight[i] == Weight(coins[i])
    && match coins[i]
       case Leaf(sym, _) => arena.left[i] == NONE && arena.right[i] == sym
       case Package(l, r) => (arena.left[i] < |coins| && arena.right[i] < |coins| && arena.left[i] != NONE
                              && coins[arena.left[i]] == l && coins[arena.right[i]] == r)
  }

  ghost predicate Ids(ids: seq<nat>, coins: seq<Coin>)
  {
    forall i :: 0 <= i < |ids| ==> ids[i] < |coins|
  }

  ghost function Deref(coins: seq<Coin>, ids: seq<nat>): (cs: seq<Coin>)
    requires Ids(ids, coins)
    ensures |cs| == |ids| && forall i :: 0 <= i < |ids| ==> cs[i] == coins[ids[i]]
  {
    seq(|ids|, i requires 0 <= i < |ids| => coins[ids[i]])
  }

  lemma HoldsPush(arena: Arena, coins: seq<Coin>, c: Coin, w: nat, l: nat, r: nat)
    requires Holds(arena, coins) && w == Weight(c)
    requires match c
             case Leaf(sym, _) => l == NONE && r == sym
             case Package(cl, cr) => l < |coins| && r < |coins| && l != NONE && coins[l] == cl && coins[r] == cr
    ensures Holds(Arena(arena.weight + [w], arena.left + [l], arena.right + [r]), coins + [c])
  {
    hide Weight;
    var a, cs := Arena(arena.weight + [w], arena.left + [l], arena.right + [r]), coins + [c];
    forall i | 0 <= i < |cs| ensures Row(a, cs, i) {
      if i < |coins| {
        assert Row(arena, coins, i);
      }
    }
  }

  /** The original coins, ascending by weight. */
  method Leafs(weights: seq<nat>, order: seq<nat>) returns (arena: Arena, leaves: seq<nat>, ghost coins: seq<Coin>)
    requires Ascending(weights, order)
    ensures Holds(arena, coins) && |coins| == |order|
    ensures Ids(leaves, coins) && Deref(coins, leaves) == LeafList(weights, order)
    ensures forall i :: 0 <= i < |leaves| ==> leaves[i] == i
  {
    arena, leaves, coins := Arena([], [], []), [], [];
    for k := 0 to |order|
      invariant Holds(arena, coins) && |leaves| == |coins| == k
      invariant forall i :: 0 <= i < k ==> leaves[i] == i && coins[i] == Leaf(order[i], weights[order[i]])
    {
      var sym := order[k];
      HoldsPush(arena, coins, Leaf(sym, weights[sym]), weights[sym], NONE, sym);
      arena := Arena(arena.weight + [weights[sym]], arena.left + [NONE], arena.right + [sym]);
      coins := coins + [Leaf(sym, weights[sym])];
      leaves := leaves + [|arena.weight| - 1];
    }
    assert Deref(coins, leaves) == LeafList(weights, order);
  }

  /** Pair up the coins of a level in order; an odd one out is dropped. */
  method Pair(arena0: Arena, level: seq<nat>, ghost coins0: seq<Coin>, ghost m: nat)
    returns (arena: Arena, packaged: seq<nat>, ghost coins: seq<Coin>)
    requires Holds(arena0, coins0) && Ids(level, coins0) && |coins0| <= NONE - |level| / 2
    requires forall i :: 0 <= i < |coins0| ==> Symbols(coins0[i], m)
    ensures forall i :: 0 <= i < |coins| ==> Symbols(coins[i], m)
    ensures Holds(arena, coins) && |coins| == |coins0| + |level| / 2 && coins0 <= coins
    ensures Ids(packaged, coins) && Deref(coins, packaged) == Packages(Deref(coins0, level))
  {
    arena, packaged, coins := arena0, [], coins0;
    var i := 0;
    while i + 1 < |level|
      invariant 0 <= i <= |level| && i == 2 * |packaged|
      invariant Holds(arena, coins) && |coins| == |coins0| + |packaged| && coins0 <= coins
      invariant Ids(packaged, coins) && forall j :: 0 <= j < |coins| ==> Symbols(coins[j], m)
      invariant forall j :: 0 <= j < |packaged| ==> coins[packaged[j]] == Package(coins0[level[2 * j]], coins0[level[2 * j + 1]])
    {
      hide Weight;
      var a, b := level[i], level[i + 1];
      ghost var c := Package(coins[a], coins[b]);
      assert Row(arena, coins, a) && Row(arena, coins, b);
      WeightOfPackage(coins[a], coins[b]);
      HoldsPush(arena, coins, c, arena.weight[a] + arena.weight[b], a, b);
      arena := Arena(arena.weight + [arena.weight[a] + arena.weight[b]], arena.left + [a], arena.right + [b]);
      coins := coins + [c];
      packaged := packaged + [|arena.weight| - 1];
      i := i + 2;
    }
    assert Deref(coins, packaged) == Packages(Deref(coins0, level));
  }

  lemma WeightOfPackage(l: Coin, r: Coin)
    ensures Weight(Package(l, r)) == Weight(l) + Weight(r)
  {
  }

  /** Merge the fresh packages back in with the original coins. */
  method MergeBack(arena: Arena, leaves: seq<nat>, packaged: seq<nat>, ghost coins: seq<Coin>) returns (merged: seq<nat>)
    requires Holds(arena, coins) && Ids(leaves, coins) && Ids(packaged, coins)
    ensures Ids(merged, coins) && Deref(coins, merged) == Merge(Deref(coins, leaves), Deref(coins, packaged))
  {
    ghost var ls, ps := Deref(coins, leaves), Deref(coins, packaged);
    merged := [];
    var x, y := 0, 0;
    assert ls[0..] == ls && ps[0..] == ps;
    while x < |leaves| || y < |packaged|
      invariant 0 <= x <= |leaves| && 0 <= y <= |packaged|
      invariant Ids(merged, coins) && Deref(coins, merged) + Merge(ls[x..], ps[y..]) == Merge(ls, ps)
      decreases |leaves| - x + |packaged| - y
    {
      hide Weight, Merge;
      assert x < |leaves| ==> Row(arena, coins, leaves[x]);
      assert y < |packaged| ==> Row(arena, coins, packaged[y]);
      var takeLeaf := y >= |packaged| || (x < |leaves| && arena.weight[leaves[x]] <= arena.weight[packaged[y]]);
      MergeStep(ls, ps, x, y);
      ghost var was := merged;
      if takeLeaf {
        merged := merged + [leaves[x]];
        DerefPush(coins, was, leaves[x]);
        MoveOver(Deref(coins, was), ls[x], Merge(ls[x + 1..], ps[y..]));
        x := x + 1;
      } else {
        merged := merged + [packaged[y]];
        DerefPush(coins, was, packaged[y]);
        MoveOver(Deref(coins, was), ps[y], Merge(ls[x..], ps[y + 1..]));
        y := y + 1;
      }
    }
    assert Deref(coins, merged) + [] == Deref(coins, merged);
  }

  lemma MoveOver(done: seq<Coin>, c: Coin, rest: seq<Coin>)
    ensures done + ([c] + rest) == (done + [c]) + rest
  {
  }

  lemma DerefPush(coins: seq<Coin>, ids: seq<nat>, id: nat)
    requires Ids(ids, coins) && id < |coins|
    ensures Ids(ids + [id], coins) && Deref(coins, ids + [id]) == Deref(coins, ids) + [coins[id]]
  {
  }

  lemma MergeStep(ls: seq<Coin>, ps: seq<Coin>, x: nat, y: nat)
    requires x <= |ls| && y <= |ps| && (x < |ls| || y < |ps|)
    ensures y >= |ps| || (x < |ls| && Weight(ls[x]) <= Weight(ps[y]))
            ==> x < |ls| && Merge(ls[x..], ps[y..]) == [ls[x]] + Merge(ls[x + 1..], ps[y..])
    ensures !(y >= |ps| || (x < |ls| && Weight(ls[x]) <= Weight(ps[y])))
            ==> y < |ps| && Merge(ls[x..], ps[y..]) == [ps[y]] + Merge(ls[x..], ps[y + 1..])
  {
    hide Weight;
    assert x < |ls| ==> ls[x..][1..] == ls[x + 1..];
    assert y < |ps| ==> ps[y..][1..] == ps[y + 1..];
  }

  function Nodes(c: Coin): nat
  {
    match c
    case Leaf(_, _) => 1
    case Package(l, r) => 1 + Nodes(l) + Nodes(r)
  }

  /** The coins counted so far and the coins still on the stack together make up `done`. */
  ghost predicate Tallied(lens: seq<nat>, stack: seq<Coin>, done: seq<Coin>)
  {
    forall i :: 0 <= i < |lens| ==> TalliedAt(lens, stack, done, i)
  }

  ghost predicate TalliedAt(lens: seq<nat>, stack: seq<Coin>, done: seq<Coin>, i: nat)
    requires i < |lens|
  {
    lens[i] + Total(CountOf(i), stack) == Total(CountOf(i), done)
  }

  lemma {:induction false} TotalPush(f: Coin -> nat, cs: seq<Coin>, c: Coin)
    ensures Total(f, cs + [c]) == Total(f, cs) + f(c)
  {
    TotalLast(f, cs + [c], |cs| + 1);
    assert (cs + [c])[..|cs|] == cs && (cs + [c])[..|cs| + 1] == cs + [c];
  }

  lemma TalliedPush(lens: seq<nat>, stack: seq<Coin>, done: seq<Coin>, c: Coin)
    requires Tallied(lens, stack, done)
    ensures Tallied(lens, stack + [c], done + [c])
  {
    hide Total, CountOf;
    forall i | 0 <= i < |lens| ensures TalliedAt(lens, stack + [c], done + [c], i) {
      assert TalliedAt(lens, stack, done, i);
      TotalPush(CountOf(i), stack, c);
      TotalPush(CountOf(i), done, c);
    }
  }

  lemma TalliedLeaf(lens: seq<nat>, stack: seq<Coin>, done: seq<Coin>, sym: nat, w: nat)
    requires Tallied(lens, stack + [Leaf(sym, w)], done) && sym < |lens|
    ensures Tallied(lens[sym := lens[sym] + 1], stack, done)
  {
    var after := lens[sym := lens[sym] + 1];
    forall i | 0 <= i < |lens| ensures TalliedAt(after, stack, done, i) {
      assert TalliedAt(lens, stack + [Leaf(sym, w)], done, i);
      TotalPush(CountOf(i), stack, Leaf(sym, w));
    }
  }

  lemma TalliedPackage(lens: seq<nat>, stack: seq<Coin>, done: seq<Coin>, l: Coin, r: Coin)
    requires Tallied(lens, stack + [Package(l, r)], done)
    ensures Tallied(lens, stack + [l] + [r], done)
  {
    forall i | 0 <= i < |lens| ensures TalliedAt(lens, stack + [l] + [r], done, i) {
      assert TalliedAt(lens, stack + [Package(l, r)], done, i);
      TotalPush(CountOf(i), stack, Package(l, r));
      TotalPush(CountOf(i), stack, l);
      TotalPush(CountOf(i), stack + [l], r);
    }
  }

  /** Every leaf inside `c` names a symbol below `m`. */
  predicate Symbols(c: Coin, m: nat)
  {
    match c
    case Leaf(sym, _) => sym < m
    case Package(l, r) => Symbols(l, m) && Symbols(r, m)
  }

  /** Take the coin at `node` apart with an explicit stack and count its leaves. */
  method CountNode(arena: Arena, node: nat, lens: array<nat>, ghost coins: seq<Coin>, ghost done: seq<Coin>)
    requires Holds(arena, coins) && node < |coins|
    requires forall i :: 0 <= i < |coins| ==> Symbols(coins[i], lens.Length)
    requires Tallied(lens[..], [], done)
    modifies lens
    ensures Tallied(lens[..], [], done + [coins[node]])
  {
    var stack: seq<nat> := [node];
    ghost var cs, goal := [coins[node]], done + [coins[node]];
    TalliedPush(lens[..], [], done, coins[node]);
    assert [] + [coins[node]] == cs;
    while |stack| > 0
      invariant Ids(stack, coins) && cs == Deref(coins, stack)
      invariant Tallied(lens[..], cs, goal)
      decreases Total(Nodes, cs)
    {
      hide Total, Nodes, Tallied, Weight;
      var nd := stack[|stack| - 1];
      stack := stack[..|stack| - 1];
      ghost var rest := Deref(coins, stack);
      assert cs == rest + [coins[nd]];
      TotalPush(Nodes, rest, coins[nd]);
      NodesUnfold(coins[nd]);
      assert Row(arena, coins, nd) && Symbols(coins[nd], lens.Length);
      if arena.left[nd] == NONE {
        TalliedLeaf(lens[..], rest, goal, coins[nd].sym, coins[nd].value);
        ghost var was := lens[..];
        lens[arena.right[nd]] := lens[arena.right[nd]] + 1;
        assert lens[..] == was[coins[nd].sym := was[coins[nd].sym] + 1];
        cs := rest;
      } else {
        TalliedPackage(lens[..], rest, goal, coins[nd].left, coins[nd].right);
        TotalPush(Nodes, rest, coins[nd].left);
        TotalPush(Nodes, rest + [coins[nd].left], coins[nd].right);
        stack := stack + [arena.left[nd]];
        stack := stack + [arena.right[nd]];
        cs := rest + [coins[nd].left] + [coins[nd].right];
        assert cs == Deref(coins, stack);
      }
    }
  }

  lemma NodesUnfold(c: Coin)
    ensures Nodes(c) == if c.Leaf? then 1 else 1 + Nodes(c.left) + Nodes(c.right)
  {
  }

  /** The levels, each merged from the leaves and the packages of the one before. */
  method LastLevel(arena0: Arena, leaves: seq<nat>, limit: nat, ghost coins0: seq<Coin>, ghost m: nat)
    returns (arena: Arena, level: seq<nat>, ghost coins: seq<Coin>)
    requires Holds(arena0, coins0) && Ids(leaves, coins0) && |leaves| == |coins0| && limit >= 1
    requires |leaves| * limit <= NONE
    requires forall i :: 0 <= i < |coins0| ==> Symbols(coins0[i], m)
    ensures Holds(arena, coins) && Ids(level, coins)
    ensures forall i :: 0 <= i < |coins| ==> Symbols(coins[i], m)
    ensures Deref(coins, level) == Level(Deref(coins0, leaves), limit - 1)
  {
    arena, level, coins := arena0, leaves, coins0;
    ghost var ls := Deref(coins0, leaves);
    for t := 1 to limit
      invariant Holds(arena, coins) && Ids(level, coins) && coins0 <= coins
      invariant |coins| <= |leaves| * t && |level| <= 2 * |leaves|
      invariant forall i :: 0 <= i < |coins| ==> Symbols(coins[i], m)
      invariant Deref(coins, level) == Level(ls, t - 1)
    {
      hide Weight, Merge, Holds, Symbols, Level;
      ArenaFits(|leaves|, t, limit);
      LevelNext(ls, t);
      arena, level, coins := NextLevel(arena, leaves, level, coins0, coins, m);
    }
  }

  lemma LevelNext(ls: seq<Coin>, t: nat)
    requires t >= 1
    ensures Level(ls, t) == Merge(ls, Packages(Level(ls, t - 1)))
  {
  }

  /** One level: pair up the one before and merge the leaves back in. */
  method NextLevel(arena0: Arena, leaves: seq<nat>, level0: seq<nat>, ghost coinsOfLeaves: seq<Coin>, ghost coins0: seq<Coin>, ghost m: nat)
    returns (arena: Arena, level: seq<nat>, ghost coins: seq<Coin>)
    requires Holds(arena0, coins0) && Ids(level0, coins0) && Ids(leaves, coinsOfLeaves) && coinsOfLeaves <= coins0
    requires |coins0| + |leaves| <= NONE && |level0| <= 2 * |leaves| && forall i :: 0 <= i < |coins0| ==> Symbols(coins0[i], m)
    ensures Holds(arena, coins) && Ids(level, coins) && coinsOfLeaves <= coins
    ensures |coins| <= |coins0| + |leaves| && |level| <= 2 * |leaves| && forall i :: 0 <= i < |coins| ==> Symbols(coins[i], m)
    ensures Deref(coins, level) == Merge(Deref(coinsOfLeaves, leaves), Packages(Deref(coins0, level0)))
  {
    hide Weight, Merge, Holds, Symbols;
    var packaged: seq<nat>;
    arena, packaged, coins := Pair(arena0, level0, coins0, m);
    SameLeaves(coinsOfLeaves, coins, leaves);
    level := MergeBack(arena, leaves, packaged, coins);
    assert |Deref(coins, level)| == |leaves| + |packaged|;
  }

  lemma SameLeaves(some: seq<Coin>, more: seq<Coin>, leaves: seq<nat>)
    requires Ids(leaves, some) && some <= more
    ensures Ids(leaves, more) && Deref(more, leaves) == Deref(some, leaves)
  {
  }

  lemma ArenaFits(n: nat, t: nat, limit: nat)
    requires t < limit && n * limit <= NONE
    ensures n * t + n == n * (t + 1) <= NONE
  {
    assert n * (t + 1) <= n * limit;
  }

  /**
   * Code lengths of at most `limit` bits that are complete and of least total size.
   * The arena has at most `|weights| * limit` rows, whose numbers must fit below the 32-bit leaf mark.
   */
  method PackageMerge(weights: seq<nat>, limit: nat) returns (lens: seq<nat>)
    requires |weights| >= 2 && limit >= 1 && Pow2(limit) >= |weights| && |weights| * limit <= NONE
    ensures |lens| == |weights| && Complete(lens, limit) && Optimal(weights, lens, limit)
  {
    hide Level, Sort, Total, CountOf, Holds, Tallied, Pow2, Complete, Optimal;
    var m := |weights|;
    var order := Sort(weights, m);
    var arena, leaves, coins := Leafs(weights, order);
    LeafSymbols(weights, order, leaves, coins);
    var level: seq<nat>;
    arena, level, coins := LastLevel(arena, leaves, limit, coins, m);
    ChosenIsPrefix(weights, limit);
    var counts := new nat[m](_ => 0);
    ghost var chosen := Chosen(weights, limit);
    TalliedNothing(counts[..]);
    assert Deref(coins, level)[..0] == [];
    for k := 0 to 2 * m - 2
      invariant Tallied(counts[..], [], chosen[..k])
    {
      assert chosen[..k] + [coins[level[k]]] == chosen[..k + 1];
      CountNode(arena, level[k], counts, coins, chosen[..k]);
    }
    lens := counts[..];
    assert chosen[..2 * m - 2] == chosen;
    TalliedIsSelection(weights, limit, lens);
    SelectionIsComplete(weights, limit, lens);
    SelectionIsOptimal(weights, limit, lens);
  }

  lemma LeafSymbols(weights: seq<nat>, order: seq<nat>, leaves: seq<nat>, coins: seq<Coin>)
    requires Ascending(weights, order) && Ids(leaves, coins) && Deref(coins, leaves) == LeafList(weights, order)
    requires |coins| == |order| && forall i :: 0 <= i < |leaves| ==> leaves[i] == i
    ensures forall i :: 0 <= i < |coins| ==> Symbols(coins[i], |weights|)
  {
    forall i | 0 <= i < |coins| ensures Symbols(coins[i], |weights|) {
      assert Deref(coins, leaves)[i] == coins[i] == Leaf(order[i], weights[order[i]]);
    }
  }

  lemma TalliedNothing(lens: seq<nat>)
    requires forall i :: 0 <= i < |lens| ==> lens[i] == 0
    ensures Tallied(lens, [], [])
  {
  }

  lemma TalliedIsSelection(weights: seq<nat>, limit: nat, lens: seq<nat>)
    requires limit >= 1 && |lens| == |weights| && Tallied(lens, [], Chosen(weights, limit))
    ensures FromSelection(weights, limit, lens)
  {
    forall i | 0 <= i < |weights| ensures lens[i] == Total(CountOf(i), Chosen(weights, limit)) {
      assert TalliedAt(lens, [], Chosen(weights, limit), i);
    }
  }
}
