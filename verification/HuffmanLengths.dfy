/** Huffman code lengths with a limit: greedy merging, retried on halved frequencies until shallow enough. */
module HuffmanLengths {
  import opened Seqs
  import opened Sums
  import opened BitStream
  import opened Canonical

  datatype Tree = Leaf(sym: nat, frequency: nat) | Node(left: Tree, right: Tree)

  function Weight(t: Tree): nat
  {
    match t
    case Leaf(_, f) => f
    case Node(l, r) => Weight(l) + Weight(r)
  }

  function Max(a: nat, b: nat): nat { if a < b then b else a }

  function Height(t: Tree): nat
  {
    match t
    case Leaf(_, _) => 0
    case Node(l, r) => 1 + Max(Height(l), Height(r))
  }

  function Syms(t: Tree): set<nat>
  {
    match t
    case Leaf(s, _) => {s}
    case Node(l, r) => Syms(l) + Syms(r)
  }

  ghost predicate Distinct(t: Tree)
  {
    match t
    case Leaf(_, _) => true
    case Node(l, r) => Distinct(l) && Distinct(r) && Syms(l) !! Syms(r)
  }

  /** The heavier child. */
  function ChildMax(t: Tree): nat
  {
    match t
    case Leaf(_, _) => 0
    case Node(l, r) => Max(Weight(l), Weight(r))
  }

  /** The least weight of a greedily merged tree of height `h`: Fibonacci numbers. */
  function Least(h: nat): (w: nat)
    ensures w >= 1
  {
    if h == 0 then 1 else if h == 1 then 2 else Least(h - 1) + Least(h - 2)
  }

  /** Every subtree is at least as heavy as its height demands. */
  ghost predicate Heavy(t: Tree)
  {
    Weight(t) >= Least(Height(t)) && (t.Node? ==> Heavy(t.left) && Heavy(t.right))
  }

  // ----- The forest while merging -----

  ghost predicate Forest(forest: seq<Tree>, active: set<nat>)
  {
    && (forall t :: t in forest ==> Distinct(t) && Heavy(t) && Syms(t) <= active)
    && (forall a, b :: a in forest && b in forest ==> Weight(a) >= ChildMax(b))
    && (forall i, j :: 0 <= i < j < |forest| ==> Syms(forest[i]) !! Syms(forest[j]))
    && (forall s :: s in active ==> exists t :: t in forest && s in Syms(t))
  }

  function Remove<T>(xs: seq<T>, k: nat): (r: seq<T>)
    requires k < |xs|
    ensures |r| == |xs| - 1
  {
    xs[..k] + xs[k + 1..]
  }

  lemma RemoveMembers<T>(xs: seq<T>, k: nat)
    requires k < |xs|
    ensures forall x :: x in xs <==> x == xs[k] || x in Remove(xs, k)
  {
    forall x | x in xs ensures x == xs[k] || x in Remove(xs, k) {
      var i :| 0 <= i < |xs| && xs[i] == x;
      if i < k {
        assert Remove(xs, k)[i] == x;
      } else if i > k {
        assert Remove(xs, k)[i - 1] == x;
      }
    }
    forall x | x in Remove(xs, k) ensures x in xs {
      var i :| 0 <= i < |Remove(xs, k)| && Remove(xs, k)[i] == x;
      assert x == if i < k then xs[i] else xs[i + 1];
    }
  }

  lemma RemoveDisjoint(forest: seq<Tree>, k: nat)
    requires k < |forest| && forall i, j :: 0 <= i < j < |forest| ==> Syms(forest[i]) !! Syms(forest[j])
    ensures forall i, j :: 0 <= i < j < |forest| - 1 ==> Syms(Remove(forest, k)[i]) !! Syms(Remove(forest, k)[j])
    ensures forall i :: 0 <= i < |forest| - 1 ==> Syms(Remove(forest, k)[i]) !! Syms(forest[k])
  {
    hide Syms;
    var r := Remove(forest, k);
    assert forall i :: 0 <= i < |r| ==> r[i] == forest[if i < k then i else i + 1];
  }

  /** Each child of the taller tree is no heavier than the other tree, so the weights add up like Fibonacci numbers. */
  lemma MergedHeavy(l: Tree, r: Tree)
    requires Heavy(l) && Heavy(r) && Weight(l) >= ChildMax(r) && Weight(r) >= ChildMax(l)
    ensures Heavy(Node(l, r))
  {
    hide Heavy, Least, ChildMax;
    HeavyUnfold(Node(l, r));
    if Height(l) >= Height(r) {
      OtherHeavy(l, r);
    } else {
      OtherHeavy(r, l);
    }
  }

  lemma HeavyUnfold(t: Tree)
    ensures Heavy(t) <==> Weight(t) >= Least(Height(t)) && (t.Node? ==> Heavy(t.left) && Heavy(t.right))
  {
  }

  lemma LeastStep(h: nat)
    requires h >= 1
    ensures Least(h + 1) == Least(h) + Least(h - 1)
  {
  }

  lemma OtherHeavy(tall: Tree, other: Tree)
    requires Heavy(tall) && Heavy(other) && Height(tall) >= Height(other) && Weight(other) >= ChildMax(tall)
    ensures Weight(tall) + Weight(other) >= Least(1 + Height(tall))
  {
    hide Heavy, Least;
    HeavyUnfold(tall);
    HeavyUnfold(other);
    match tall
    case Leaf(_, _) =>
      assert Height(other) == 0;
      LeastSmall();
    case Node(a, b) =>
      HeavyUnfold(a);
      HeavyUnfold(b);
      LeastStep(Height(tall));
  }

  lemma LeastSmall()
    ensures Least(0) == 1 && Least(1) == 2
  {
  }

  /** Merging the two lightest trees keeps the forest's invariants. */
  lemma MergeForest(forest: seq<Tree>, active: set<nat>, i: nat, rest: seq<Tree>, j: nat)
    requires Forest(forest, active) && i < |forest| && rest == Remove(forest, i) && j < |rest|
    requires forall t :: t in forest ==> Weight(forest[i]) <= Weight(t)
    requires forall t :: t in rest ==> Weight(rest[j]) <= Weight(t)
    ensures Forest(Remove(rest, j) + [Node(forest[i], rest[j])], active)
  {
    var l, r := forest[i], rest[j];
    var last := Remove(rest, j);
    var merged := last + [Node(l, r)];
    RemoveMembers(forest, i);
    RemoveMembers(rest, j);
    RemoveDisjoint(forest, i);
    RemoveDisjoint(rest, j);
    assert l in forest && r in rest && r in forest;
    MergedHeavy(l, r);
    assert Syms(rest[j]) !! Syms(forest[i]);
    forall x, y | 0 <= x < y < |merged| ensures Syms(merged[x]) !! Syms(merged[y]) {
      if y == |last| {
        assert last[x] in rest;
        var k :| 0 <= k < |rest| && rest[k] == last[x];
        assert Syms(last[x]) !! Syms(rest[j]) && Syms(rest[k]) !! Syms(forest[i]);
      }
    }
    MergedMembers(last, l, r);
    forall s | s in active ensures exists t :: t in merged && s in Syms(t) {
      var t :| t in forest && s in Syms(t);
      if t == l || t == r {
        assert s in Syms(Node(l, r));
      } else {
        assert t in merged;
      }
    }
    forall a, b | a in merged && b in merged ensures Weight(a) >= ChildMax(b) {
      if b == Node(l, r) && b !in last {
        assert a in last || a == Node(l, r);
      }
    }
  }

  lemma MergedMembers(last: seq<Tree>, l: Tree, r: Tree)
    ensures forall t :: t in last + [Node(l, r)] <==> t in last || t == Node(l, r)
  {
  }

  function Weights(forest: seq<Tree>): (ws: seq<nat>)
    ensures |ws| == |forest| && forall i :: 0 <= i < |forest| ==> ws[i] == Weight(forest[i])
  {
    seq(|forest|, i requires 0 <= i < |forest| => Weight(forest[i]))
  }

  lemma SumRemove(xs: seq<nat>, k: nat)
    requires k < |xs|
    ensures Sum(Remove(xs, k)) + xs[k] == Sum(xs)
  {
    hide Sum;
    var a, b := xs[..k], xs[k + 1..];
    assert xs[..k + 1] == a + [xs[k]];
    assert xs == xs[..k + 1] + b;
    SumAppend(xs[..k + 1], b);
    SumAppend(a, [xs[k]]);
    SumAppend(a, b);
    SumSingle(xs[k]);
  }

  lemma SumSingle(x: nat)
    ensures Sum([x]) == x
  {
    assert [x][..0] == [];
  }

  /** Merging two trees loses no weight. */
  lemma MergeWeights(forest: seq<Tree>, i: nat, rest: seq<Tree>, j: nat)
    requires i < |forest| && rest == Remove(forest, i) && j < |rest|
    ensures Sum(Weights(Remove(rest, j) + [Node(forest[i], rest[j])])) == Sum(Weights(forest))
  {
    hide Sum;
    SumRemove(Weights(forest), i);
    SumRemove(Weights(rest), j);
    assert Weights(rest) == Remove(Weights(forest), i);
    assert Weights(Remove(rest, j)) == Remove(Weights(rest), j);
    var w := Weight(Node(forest[i], rest[j]));
    assert Weights(Remove(rest, j) + [Node(forest[i], rest[j])]) == Weights(Remove(rest, j)) + [w];
    SumAppend(Weights(Remove(rest, j)), [w]);
    SumSingle(w);
  }

  // ----- The arena of nodes -----

  datatype Children = NoChildren | Pair(left: nat, right: nat)

  /** Nodes below `n` are symbols; later ones join two earlier ones. */
  ghost predicate Linked(children: seq<Children>, trees: seq<Tree>, scaled: seq<nat>)
  {
    && |children| == |trees| >= |scaled|
    && (forall k :: 0 <= k < |scaled| ==> trees[k] == Leaf(k, scaled[k]))
    && forall k :: |scaled| <= k < |trees| ==> Joins(children, trees, k)
  }

  ghost predicate Joins(children: seq<Children>, trees: seq<Tree>, k: nat)
    requires k < |children| == |trees|
  {
    children[k].Pair? && children[k].left < k && children[k].right < k
    && trees[k] == Node(trees[children[k].left], trees[children[k].right])
  }

  /** Heap entries are weights and node numbers of the forest's trees. */
  ghost predicate HeapOf(heap: seq<(nat, nat)>, trees: seq<Tree>, forest: seq<Tree>)
  {
    |heap| == |forest| && forall i :: 0 <= i < |heap| ==> heap[i].1 < |trees| && trees[heap[i].1] == forest[i] && heap[i].0 == Weight(forest[i])
  }

  predicate Before(a: (nat, nat), b: (nat, nat))
  {
    a.0 < b.0 || (a.0 == b.0 && a.1 <= b.1)
  }

  /** The entry the binary heap pops: least by frequency, then by node. */
  method PopMin(heap: seq<(nat, nat)>) returns (k: nat)
    requires heap != []
    ensures k < |heap| && forall i :: 0 <= i < |heap| ==> Before(heap[k], heap[i])
  {
    k := 0;
    for i := 1 to |heap|
      invariant k < i && forall j :: 0 <= j < i ==> Before(heap[k], heap[j])
    {
      if !Before(heap[k], heap[i]) {
        k := i;
      }
    }
  }

  ghost function Active(scaled: seq<nat>): set<nat>
  {
    set s: nat | s < |scaled| && scaled[s] != 0
  }

  ghost predicate Merging(heap: seq<(nat, nat)>, children: seq<Children>, trees: seq<Tree>, forest: seq<Tree>, scaled: seq<nat>)
  {
    && Linked(children, trees, scaled) && HeapOf(heap, trees, forest) && Forest(forest, Active(scaled))
    && Sum(Weights(forest)) == Sum(scaled)
  }

  lemma LightestFirst(heap: seq<(nat, nat)>, trees: seq<Tree>, forest: seq<Tree>, k: nat)
    requires HeapOf(heap, trees, forest) && k < |heap| && forall i :: 0 <= i < |heap| ==> Before(heap[k], heap[i])
    ensures |forest| == |heap| && forall t :: t in forest ==> Weight(forest[k]) <= Weight(t)
    ensures HeapOf(Remove(heap, k), trees, Remove(forest, k))
    ensures heap[k].1 < |trees| && trees[heap[k].1] == forest[k] && heap[k].0 == Weight(forest[k])
  {
    hide Weight;
    forall t | t in forest ensures Weight(forest[k]) <= Weight(t) {
      var i :| 0 <= i < |forest| && forest[i] == t;
      assert Before(heap[k], heap[i]);
    }
  }

  lemma HeapGrows(heap: seq<(nat, nat)>, trees: seq<Tree>, forest: seq<Tree>, t: Tree)
    requires HeapOf(heap, trees, forest)
    ensures HeapOf(heap + [(Weight(t), |trees|)], trees + [t], forest + [t])
  {
    hide Weight;
  }

  lemma LinkedGrows(children: seq<Children>, trees: seq<Tree>, scaled: seq<nat>, left: nat, right: nat)
    requires Linked(children, trees, scaled) && left < |trees| && right < |trees|
    ensures Linked(children + [Pair(left, right)], trees + [Node(trees[left], trees[right])], scaled)
  {
    var c, t := children + [Pair(left, right)], trees + [Node(trees[left], trees[right])];
    forall k | |scaled| <= k < |t| ensures Joins(c, t, k) {
      if k < |trees| {
        assert Joins(children, trees, k);
      }
    }
  }

  /** One leaf for each symbol below `n` that occurs. */
  ghost predicate Leafy(forest: seq<Tree>, scaled: seq<nat>, n: nat)
    requires n <= |scaled|
  {
    && (forall i :: 0 <= i < |forest| ==> forest[i].Leaf? && forest[i].sym < n && forest[i].frequency == scaled[forest[i].sym] != 0)
    && (forall i, j :: 0 <= i < j < |forest| ==> forest[i].sym != forest[j].sym)
    && (forall s: nat :: s < n && scaled[s] != 0 ==> Leaf(s, scaled[s]) in forest)
    && Sum(Weights(forest)) == Sum(scaled[..n]) && |forest| == |set s: nat | s < n && scaled[s] != 0|
  }

  lemma LeafyNone(scaled: seq<nat>)
    ensures Leafy([], scaled, 0)
  {
    SumOfNone();
  }

  lemma LeafySkip(forest: seq<Tree>, scaled: seq<nat>, n: nat)
    requires n < |scaled| && Leafy(forest, scaled, n) && scaled[n] == 0
    ensures Leafy(forest, scaled, n + 1)
  {
    hide Sum;
    assert scaled[..n + 1] == scaled[..n] + [scaled[n]];
    SumAppend(scaled[..n], [scaled[n]]);
    SumSingle(scaled[n]);
    assert (set s: nat | s < n + 1 && scaled[s] != 0) == (set s: nat | s < n && scaled[s] != 0);
  }

  lemma LeafyAdd(forest: seq<Tree>, scaled: seq<nat>, n: nat)
    requires n < |scaled| && Leafy(forest, scaled, n) && scaled[n] != 0
    ensures Leafy(forest + [Leaf(n, scaled[n])], scaled, n + 1)
  {
    hide Sum;
    var more := forest + [Leaf(n, scaled[n])];
    assert scaled[..n + 1] == scaled[..n] + [scaled[n]];
    SumAppend(scaled[..n], [scaled[n]]);
    SumSingle(scaled[n]);
    assert Weights(more) == Weights(forest) + [scaled[n]];
    SumAppend(Weights(forest), [scaled[n]]);
    assert (set s: nat | s < n + 1 && scaled[s] != 0) == (set s: nat | s < n && scaled[s] != 0) + {n};
  }

  /** The leaves of the symbols that occur. */
  method Leaves(scaled: seq<nat>) returns (heap: seq<(nat, nat)>, children: seq<Children>, ghost trees: seq<Tree>, ghost forest: seq<Tree>)
    ensures Merging(heap, children, trees, forest, scaled) && |heap| == |Active(scaled)|
  {
    hide Sum, Forest;
    children := seq(|scaled|, _ => NoChildren);
    trees := seq(|scaled|, k requires 0 <= k < |scaled| => Leaf(k, scaled[k]));
    heap, forest := [], [];
    LeafyNone(scaled);
    for symbol := 0 to |scaled|
      invariant HeapOf(heap, trees, forest) && Leafy(forest, scaled, symbol)
    {
      hide Leafy;
      if scaled[symbol] != 0 {
        LeafyAdd(forest, scaled, symbol);
        heap := heap + [(scaled[symbol], symbol)];
        forest := forest + [Leaf(symbol, scaled[symbol])];
      } else {
        LeafySkip(forest, scaled, symbol);
      }
    }
    assert scaled[..|scaled|] == scaled;
    LeafForest(forest, scaled);
  }

  lemma SumOfNone()
    ensures Sum(Weights([])) == 0 && Sum([]) == 0
  {
    assert Weights([]) == [];
  }

  lemma LeafForest(forest: seq<Tree>, scaled: seq<nat>)
    requires Leafy(forest, scaled, |scaled|)
    ensures Forest(forest, Active(scaled))
  {
    hide *;
    LeavesHeavy(forest, scaled);
    LeavesDisjoint(forest, scaled);
    LeavesCover(forest, scaled);
    ForestIs(forest, Active(scaled));
  }

  lemma ForestIs(forest: seq<Tree>, active: set<nat>)
    requires forall t :: t in forest ==> Distinct(t) && Heavy(t) && ChildMax(t) == 0 && Syms(t) <= active
    requires forall i, j :: 0 <= i < j < |forest| ==> Syms(forest[i]) !! Syms(forest[j])
    requires forall s :: s in active ==> exists t :: t in forest && s in Syms(t)
    ensures Forest(forest, active)
  {
    hide Heavy, Distinct, Syms, ChildMax, Weight;
  }

  lemma LeavesHeavy(forest: seq<Tree>, scaled: seq<nat>)
    requires Leafy(forest, scaled, |scaled|)
    ensures forall t :: t in forest ==> Distinct(t) && Heavy(t) && ChildMax(t) == 0 && Syms(t) <= Active(scaled)
  {
    forall t | t in forest ensures Distinct(t) && Heavy(t) && ChildMax(t) == 0 && Syms(t) <= Active(scaled) {
      hide Sum, Weights, Heavy, Distinct, Syms, ChildMax, Weight;
      var i :| 0 <= i < |forest| && forest[i] == t;
      OneLeaf(t);
    }
  }

  lemma LeavesDisjoint(forest: seq<Tree>, scaled: seq<nat>)
    requires Leafy(forest, scaled, |scaled|)
    ensures forall i, j :: 0 <= i < j < |forest| ==> Syms(forest[i]) !! Syms(forest[j])
  {
    forall i, j | 0 <= i < j < |forest| ensures Syms(forest[i]) !! Syms(forest[j]) {
      hide Sum, Weights, Heavy, Distinct, Syms, ChildMax, Weight;
      OneLeaf(forest[i]);
      OneLeaf(forest[j]);
    }
  }

  lemma LeavesCover(forest: seq<Tree>, scaled: seq<nat>)
    requires Leafy(forest, scaled, |scaled|)
    ensures forall s :: s in Active(scaled) ==> exists t :: t in forest && s in Syms(t)
  {
    forall s | s in Active(scaled) ensures exists t :: t in forest && s in Syms(t) {
      hide Sum, Weights, Heavy, Distinct, Syms, ChildMax, Weight;
      OneLeaf(Leaf(s, scaled[s]));
      assert Leaf(s, scaled[s]) in forest;
    }
  }

  lemma OneLeaf(t: Tree)
    requires t.Leaf? && t.frequency != 0
    ensures Distinct(t) && Heavy(t) && ChildMax(t) == 0 && Syms(t) == {t.sym}
  {
  }

  /** Merge the two lightest nodes until one is left. */
  method Merge(scaled: seq<nat>) returns (children: seq<Children>, root: nat, ghost trees: seq<Tree>)
    requires |Active(scaled)| >= 2
    ensures Linked(children, trees, scaled) && root < |trees| && trees[root].Node?
    ensures Forest([trees[root]], Active(scaled)) && Weight(trees[root]) == Sum(scaled)
  {
    hide Forest, Sum, Weight, HeapOf, Linked;
    var heap: seq<(nat, nat)>;
    ghost var forest: seq<Tree>;
    heap, children, trees, forest := Leaves(scaled);
    ghost var merged := false;
    while |heap| > 1
      invariant |heap| >= 1 && Merging(heap, children, trees, forest, scaled)
      invariant if merged then |forest| >= 1 && forest[|forest| - 1].Node? else |heap| >= 2
    {
      var i := PopMin(heap);
      LightestFirst(heap, trees, forest, i);
      var left := heap[i];
      heap := Remove(heap, i);
      ghost var rest := Remove(forest, i);
      var j := PopMin(heap);
      LightestFirst(heap, trees, rest, j);
      var right := heap[j];
      Sizes(heap, trees, rest);
      PoppedTree(forest, i, rest, j, trees, left, right, heap);
      MergeForest(forest, Active(scaled), i, rest, j);
      MergeWeights(forest, i, rest, j);
      heap := Remove(heap, j);
      var node := |children|;
      LinkedSize(children, trees, scaled);
      LinkedGrows(children, trees, scaled, left.1, right.1);
      HeapGrows(heap, trees, Remove(rest, j), Node(trees[left.1], trees[right.1]));
      children := children + [Pair(left.1, right.1)];
      heap := heap + [(left.0 + right.0, node)];
      forest := Remove(rest, j) + [Node(forest[i], rest[j])];
      trees := trees + [Node(trees[left.1], trees[right.1])];
      merged := true;
    }
    root := heap[0].1;
    LastTree(heap, trees, forest);
  }

  lemma Sizes(heap: seq<(nat, nat)>, trees: seq<Tree>, forest: seq<Tree>)
    requires HeapOf(heap, trees, forest)
    ensures |heap| == |forest|
  {
  }

  lemma LinkedSize(children: seq<Children>, trees: seq<Tree>, scaled: seq<nat>)
    requires Linked(children, trees, scaled)
    ensures |children| == |trees|
  {
  }

  lemma PoppedTree(forest: seq<Tree>, i: nat, rest: seq<Tree>, j: nat, trees: seq<Tree>, left: (nat, nat), right: (nat, nat), heap: seq<(nat, nat)>)
    requires i < |forest| && rest == Remove(forest, i) && j < |rest| && HeapOf(heap, trees, rest) && j < |heap| && right == heap[j]
    requires left.1 < |trees| && trees[left.1] == forest[i] && left.0 == Weight(forest[i])
    ensures right.1 < |trees| && trees[right.1] == rest[j] && left.0 + right.0 == Weight(Node(forest[i], rest[j]))
  {
  }

  lemma LastTree(heap: seq<(nat, nat)>, trees: seq<Tree>, forest: seq<Tree>)
    requires HeapOf(heap, trees, forest) && |heap| == 1
    ensures heap[0].1 < |trees| && forest == [trees[heap[0].1]] && Sum(Weights(forest)) == Weight(trees[heap[0].1])
  {
    hide Sum, Weight;
    assert Weights(forest) == [Weight(forest[0])];
    SumSingle(Weight(forest[0]));
  }

  // ----- Depths -----

  /** Every leaf's length is its depth, at least one. */
  function Lay(t: Tree, depth: nat, lens: seq<nat>): (r: seq<nat>)
    ensures |r| == |lens|
  {
    match t
    case Leaf(s, _) => if s < |lens| then lens[s := Max(depth, 1)] else lens
    case Node(l, r) => Lay(l, depth + 1, Lay(r, depth + 1, lens))
  }

  ghost predicate Within(t: Tree, n: nat)
  {
    forall s :: s in Syms(t) ==> s < n
  }

  lemma WithinNode(t: Tree, n: nat)
    requires Within(t, n) && t.Node?
    ensures Within(t.left, n) && Within(t.right, n)
  {
    assert forall s :: s in Syms(t) <==> s in Syms(t.left) || s in Syms(t.right);
  }

  /** Leaves get lengths between one and the height; everything else is untouched. */
  lemma {:induction false} LayRange(t: Tree, depth: nat, lens: seq<nat>)
    requires Within(t, |lens|)
    ensures forall s :: 0 <= s < |lens| ==>
      if s in Syms(t) then 1 <= Lay(t, depth, lens)[s] <= Max(depth + Height(t), 1) else Lay(t, depth, lens)[s] == lens[s]
  {
    if t.Node? {
      WithinNode(t, |lens|);
      LayRange(t.right, depth + 1, lens);
      LayRange(t.left, depth + 1, Lay(t.right, depth + 1, lens));
    }
  }

  /** Some leaf lies at the full height. */
  lemma {:induction false} LayDeepest(t: Tree, depth: nat, lens: seq<nat>) returns (s: nat)
    requires Within(t, |lens|) && Distinct(t)
    ensures s in Syms(t) && Lay(t, depth, lens)[s] == Max(depth + Height(t), 1)
  {
    if t.Leaf? {
      s := t.sym;
    } else {
      WithinNode(t, |lens|);
      var mid := Lay(t.right, depth + 1, lens);
      if Height(t.left) >= Height(t.right) {
        s := LayDeepest(t.left, depth + 1, mid);
      } else {
        s := LayDeepest(t.right, depth + 1, lens);
        LayRange(t.left, depth + 1, mid);
      }
    }
  }

  lemma {:induction false} MassUpdate(lens: seq<nat>, s: nat, value: nat, max: nat)
    requires s < |lens| && lens[s] == 0 && 1 <= value <= max
    ensures Mass(lens[s := value], max, max) == Mass(lens, max, max) + Pow2(max - value)
  {
    var n := |lens| - 1;
    assert lens[s := value][..n] == if s < n then lens[..n][s := value] else lens[..n];
    if s < n {
      MassUpdate(lens[..n], s, value, max);
    }
  }

  /** No symbol of the tree has a length yet. */
  ghost predicate Unlaid(t: Tree, lens: seq<nat>)
    requires Within(t, |lens|)
  {
    forall s :: s in Syms(t) ==> lens[s] == 0
  }

  lemma UnlaidParts(t: Tree, depth: nat, lens: seq<nat>)
    requires t.Node? && Within(t, |lens|) && Distinct(t) && Unlaid(t, lens)
    ensures Within(t.left, |lens|) && Within(t.right, |lens|) && Unlaid(t.right, lens) && Unlaid(t.left, Lay(t.right, depth + 1, lens))
  {
    hide Lay;
    assert forall s :: s in Syms(t) <==> s in Syms(t.left) || s in Syms(t.right);
    LayRange(t.right, depth + 1, lens);
  }

  /** The leaves below a node share its part of the code space exactly. */
  lemma {:induction false} LayMass(t: Tree, depth: nat, lens: seq<nat>, max: nat)
    requires Within(t, |lens|) && Distinct(t) && depth + Height(t) <= max && (depth >= 1 || t.Node?) && Unlaid(t, lens)
    ensures Mass(Lay(t, depth, lens), max, max) == Mass(lens, max, max) + Pow2(max - depth)
  {
    hide Within, Unlaid, Mass, Syms;
    match t
    case Leaf(_, _) => LeafMass(t, depth, lens, max);
    case Node(l, r) =>
      UnlaidParts(t, depth, lens);
      LayMass(r, depth + 1, lens, max);
      LayMass(l, depth + 1, Lay(r, depth + 1, lens), max);
      assert max - depth == max - (depth + 1) + 1;
  }

  lemma LeafMass(t: Tree, depth: nat, lens: seq<nat>, max: nat)
    requires t.Leaf? && Within(t, |lens|) && 1 <= depth <= max && Unlaid(t, lens)
    ensures Mass(Lay(t, depth, lens), max, max) == Mass(lens, max, max) + Pow2(max - depth)
  {
    hide Mass, Pow2;
    assert t.sym in Syms(t);
    MassUpdate(lens, t.sym, depth, max);
  }

  // ----- The traversal's stack -----

  function Size(t: Tree): (n: nat)
    ensures n >= 1
  {
    match t
    case Leaf(_, _) => 1
    case Node(l, r) => 1 + Size(l) + Size(r)
  }

  /** The lengths once everything on the stack has been visited. */
  ghost function LayAll(stack: seq<(nat, nat)>, trees: seq<Tree>, lens: seq<nat>): (r: seq<nat>)
    requires OnTrees(stack, trees)
    decreases |stack|
  {
    if stack == [] then lens else
      var n := |stack| - 1;
      LayAll(stack[..n], trees, Lay(trees[stack[n].0], stack[n].1, lens))
  }

  ghost function Pending(stack: seq<(nat, nat)>, trees: seq<Tree>): nat
    requires OnTrees(stack, trees)
  {
    if stack == [] then 0 else Pending(stack[..|stack| - 1], trees) + Size(trees[stack[|stack| - 1].0])
  }

  ghost predicate OnTrees(stack: seq<(nat, nat)>, trees: seq<Tree>)
  {
    forall i :: 0 <= i < |stack| ==> stack[i].0 < |trees|
  }

  /** No entry lies deeper than the tree allows. */
  ghost predicate Shallow(stack: seq<(nat, nat)>, trees: seq<Tree>, bound: nat)
    requires OnTrees(stack, trees)
  {
    forall i :: 0 <= i < |stack| ==> stack[i].1 + Height(trees[stack[i].0]) <= bound
  }

  lemma VisitLeaf(stack: seq<(nat, nat)>, trees: seq<Tree>, lens: seq<nat>, rest: seq<(nat, nat)>, top: (nat, nat))
    requires OnTrees(stack, trees) && stack == rest + [top] && top.0 < |trees| && trees[top.0].Leaf? && trees[top.0].sym < |lens|
    ensures OnTrees(rest, trees) && Pending(rest, trees) < Pending(stack, trees)
    ensures LayAll(rest, trees, lens[trees[top.0].sym := Max(top.1, 1)]) == LayAll(stack, trees, lens)
  {
    assert stack[..|stack| - 1] == rest;
    assert forall i :: 0 <= i < |rest| ==> rest[i] == stack[i];
  }

  lemma VisitNode(stack: seq<(nat, nat)>, trees: seq<Tree>, lens: seq<nat>, rest: seq<(nat, nat)>, top: (nat, nat), left: nat, right: nat)
    requires OnTrees(stack, trees) && stack == rest + [top] && top.0 < |trees|
    requires left < |trees| && right < |trees| && trees[top.0] == Node(trees[left], trees[right])
    ensures var more := rest + [(left, top.1 + 1)] + [(right, top.1 + 1)];
      OnTrees(more, trees) && Pending(more, trees) < Pending(stack, trees) && LayAll(more, trees, lens) == LayAll(stack, trees, lens)
  {
    var l, r := (left, top.1 + 1), (right, top.1 + 1);
    assert stack[..|stack| - 1] == rest;
    var one := rest + [l];
    var more := one + [r];
    assert forall i :: 0 <= i < |rest| ==> rest[i] == stack[i];
    assert one[..|one| - 1] == rest && more[..|more| - 1] == one;
    assert OnTrees(one, trees);
    Push(one, r, trees, lens);
    Push(rest, l, trees, Lay(trees[right], top.1 + 1, lens));
    Push(rest, top, trees, lens);
  }

  lemma Push(rest: seq<(nat, nat)>, top: (nat, nat), trees: seq<Tree>, lens: seq<nat>)
    requires OnTrees(rest, trees) && top.0 < |trees|
    ensures OnTrees(rest + [top], trees) && Pending(rest + [top], trees) == Pending(rest, trees) + Size(trees[top.0])
    ensures LayAll(rest + [top], trees, lens) == LayAll(rest, trees, Lay(trees[top.0], top.1, lens))
  {
    assert (rest + [top])[..|rest|] == rest;
  }

  lemma LinkedLeaf(children: seq<Children>, trees: seq<Tree>, scaled: seq<nat>, k: nat)
    requires Linked(children, trees, scaled) && k < |trees|
    ensures |children| == |trees|
    ensures if k < |scaled| then trees[k].Leaf? && trees[k].sym == k else Joins(children, trees, k)
  {
  }

  /** Walk the tree with an explicit stack, writing each symbol's depth; depths stay within a byte. */
  method Depths(children: seq<Children>, root: nat, ghost trees: seq<Tree>, ghost scaled: seq<nat>, n: nat) returns (lens: seq<nat>)
    requires n == |scaled| && Linked(children, trees, scaled) && root < |trees| && Height(trees[root]) <= 255
    ensures lens == Lay(trees[root], 0, seq(n, _ => 0))
  {
    hide Linked, LayAll, Pending, Lay, Height;
    lens := seq(n, _ => 0);
    var stack: seq<(nat, nat)> := [(root, 0)];
    Push([], (root, 0), trees, lens);
    assert [] + [(root, 0)] == stack;
    Emptied(trees, Lay(trees[root], 0, lens));
    while stack != []
      invariant OnTrees(stack, trees) && Shallow(stack, trees, 255) && |lens| == n
      invariant LayAll(stack, trees, lens) == Lay(trees[root], 0, seq(n, _ => 0))
      decreases Pending(stack, trees)
    {
      var top := stack[|stack| - 1];
      var rest := stack[..|stack| - 1];
      var node, depth := top.0, top.1;
      LinkedLeaf(children, trees, scaled, node);
      assert stack == rest + [top];
      if node < n {
        VisitLeaf(stack, trees, lens, rest, top);
        lens := lens[node := Max(depth, 1)];
        stack := rest;
      } else {
        var left, right := children[node].left, children[node].right;
        VisitNode(stack, trees, lens, rest, top, left, right);
        Lower(trees[node]);
        stack := rest + [(left, depth + 1)] + [(right, depth + 1)];
      }
    }
    Emptied(trees, lens);
  }

  lemma Lower(t: Tree)
    ensures t.Node? ==> Height(t.left) + 1 <= Height(t) && Height(t.right) + 1 <= Height(t)
  {
  }

  lemma Emptied(trees: seq<Tree>, lens: seq<nat>)
    ensures LayAll([], trees, lens) == lens
  {
  }

  // ----- Retrying -----

  lemma {:induction false} LeastMonotone(a: nat, b: nat)
    requires a <= b
    ensures Least(a) <= Least(b)
    decreases b
  {
    if a < b {
      LeastMonotone(a, b - 1);
    }
  }

  lemma {:induction false} LeastGrows(k: nat)
    ensures Least(2 * k) >= Pow2(k)
  {
    if k > 0 {
      LeastGrows(k - 1);
      LeastMonotone(2 * k - 2, 2 * k - 1);
    }
  }

  function Halved(scaled: seq<nat>): (r: seq<nat>)
    ensures |r| == |scaled| && forall i :: 0 <= i < |r| ==> r[i] == (scaled[i] + 1) / 2
  {
    seq(|scaled|, i requires 0 <= i < |scaled| => (scaled[i] + 1) / 2)
  }

  lemma {:induction false} HalvedLess(scaled: seq<nat>)
    ensures Sum(Halved(scaled)) <= Sum(scaled)
    ensures Sum(Halved(scaled)) == Sum(scaled) ==> Sum(scaled) <= |scaled|
  {
    if scaled != [] {
      var n := |scaled| - 1;
      HalvedLess(scaled[..n]);
      assert Halved(scaled)[..n] == Halved(scaled[..n]);
    }
  }

  /** Lengths exactly for the symbols that occur, within the limit, filling the code space. */
  ghost predicate CompleteCode(frequencies: seq<nat>, lens: seq<nat>, max: nat)
  {
    && |lens| == |frequencies|
    && (forall s :: 0 <= s < |lens| ==> lens[s] <= max && (lens[s] >= 1 <==> frequencies[s] != 0))
    && Mass(lens, max, max) == Pow2(max)
  }

  /** The merged tree of a frequency list. */
  ghost predicate Merged(root: Tree, scaled: seq<nat>)
  {
    Forest([root], Active(scaled)) && Weight(root) == Sum(scaled) && root.Node?
  }

  lemma MergedTree(root: Tree, scaled: seq<nat>)
    requires Merged(root, scaled)
    ensures Distinct(root) && Syms(root) == Active(scaled) && Within(root, |scaled|) && Least(Height(root)) <= Sum(scaled)
  {
    hide Distinct, Syms, Sum, Least, Weight;
    assert [root][0] == root;
    assert forall t :: t in [root] ==> t == root;
    HeavyUnfold(root);
  }

  /** A frequency total that fits in 48 bits keeps the tree below 97 levels. */
  lemma DepthBound(root: Tree, scaled: seq<nat>)
    requires Merged(root, scaled) && Sum(scaled) < Pow2(48)
    ensures Height(root) <= 255
  {
    hide Sum, Pow2, Least, Height, Merged;
    MergedTree(root, scaled);
    if Height(root) > 255 {
      LeastGrows(48);
      LeastMonotone(96, Height(root));
    }
  }

  lemma LaidOut(root: Tree, scaled: seq<nat>, frequencies: seq<nat>, lens: seq<nat>, max: nat)
    requires Merged(root, scaled) && Active(frequencies) == Active(scaled) && |frequencies| == |scaled| && max >= 1
    requires lens == Lay(root, 0, seq(|scaled|, _ => 0))
    ensures (forall s :: 0 <= s < |lens| ==> lens[s] <= max) ==> CompleteCode(frequencies, lens, max)
    ensures (exists s :: 0 <= s < |lens| && lens[s] > max) ==> Sum(scaled) >= Least(max + 1)
  {
    hide Sum, Pow2, Least, Height, Merged, Lay, Syms, Mass, Distinct, Within;
    MergedTree(root, scaled);
    var none: seq<nat> := seq(|scaled|, _ => 0);
    LayRange(root, 0, none);
    if forall s :: 0 <= s < |lens| ==> lens[s] <= max {
      WithinUnfold(root, |scaled|);
      var deepest := LayDeepest(root, 0, none);
      assert lens[deepest] <= max;
      MergedNode(root, scaled);
      assert Unlaid(root, none);
      LayMass(root, 0, none, max);
      NoMass(none, max);
      forall s | 0 <= s < |lens| ensures lens[s] <= max && (lens[s] >= 1 <==> frequencies[s] != 0) {
        assert s in Active(scaled) <==> scaled[s] != 0;
        assert s in Active(frequencies) <==> frequencies[s] != 0;
      }
    } else {
      LeastMonotone(max + 1, Height(root));
    }
  }

  lemma MergedNode(root: Tree, scaled: seq<nat>)
    requires Merged(root, scaled)
    ensures root.Node?
  {
  }

  lemma WithinUnfold(t: Tree, n: nat)
    requires Within(t, n)
    ensures forall s :: s in Syms(t) ==> s < n
  {
  }

  lemma {:induction false} NoMass(lens: seq<nat>, max: nat)
    requires forall i :: 0 <= i < |lens| ==> lens[i] == 0
    ensures Mass(lens, max, max) == 0
  {
    if lens != [] {
      NoMass(lens[..|lens| - 1], max);
    }
  }

  method Shorter(lens: seq<nat>, max: nat) returns (ok: bool)
    ensures ok <==> forall s :: 0 <= s < |lens| ==> lens[s] <= max
  {
    for i := 0 to |lens|
      invariant forall s :: 0 <= s < i ==> lens[s] <= max
    {
      if lens[i] > max {
        return false;
      }
    }
    ok := true;
  }

  /**
   * A complete prefix code within the limit. A tree too deep for its limit is heavier, by the Fibonacci bound,
   * than all-ones frequencies can be, so halving the frequencies ends.
   */
  method HuffmanLengths(frequencies: seq<nat>, maxBits: nat) returns (lens: seq<nat>)
    requires |Active(frequencies)| >= 2 && 1 <= maxBits && |frequencies| < Least(maxBits + 1)
    requires |frequencies| <= 65535 && forall s :: 0 <= s < |frequencies| ==> frequencies[s] < 0x1_0000_0000
    ensures CompleteCode(frequencies, lens, maxBits)
  {
    hide Active, Least, Sum, Linked, Forest, Weight, Pow2, CompleteCode, Lay;
    var scaled := frequencies;
    SumSmall(frequencies);
    while true
      invariant |scaled| == |frequencies| && Active(scaled) == Active(frequencies) && Sum(scaled) < Pow2(48)
      decreases Sum(scaled)
    {
      var children, root, trees := Merge(scaled);
      MergeIs(trees[root], scaled);
      DepthBound(trees[root], scaled);
      lens := Depths(children, root, trees, scaled, |scaled|);
      LaidOut(trees[root], scaled, frequencies, lens, maxBits);
      var ok := Shorter(lens, maxBits);
      if ok {
        return;
      }
      HalvedLess(scaled);
      HalvedActive(scaled);
      scaled := Halved(scaled);
    }
  }

  lemma MergeIs(root: Tree, scaled: seq<nat>)
    requires root.Node? && Forest([root], Active(scaled)) && Weight(root) == Sum(scaled)
    ensures Merged(root, scaled)
  {
  }

  lemma HalvedActive(scaled: seq<nat>)
    ensures Active(Halved(scaled)) == Active(scaled)
  {
  }

  lemma SumSmall(frequencies: seq<nat>)
    requires |frequencies| <= 65535 && forall s :: 0 <= s < |frequencies| ==> frequencies[s] < 0x1_0000_0000
    ensures Sum(frequencies) < Pow2(48)
  {
    hide Sum;
    var top: seq<nat> := seq(|frequencies|, _ => 0xFFFF_FFFF);
    SumLeq(frequencies, top);
    SumConstant(top, 0xFFFF_FFFF);
    assert |top| * 0xFFFF_FFFF <= 65535 * 0xFFFF_FFFF;
    Pow2Values();
    hide Pow2;
    Pow2Add(16, 32);
  }

  /** At least two symbols get codes, so a one-symbol alphabet still yields a complete code. */
  method EnsureTwo(frequencies: seq<nat>) returns (r: seq<nat>)
    requires |frequencies| >= 2
    ensures |r| == |frequencies| && |Active(r)| >= 2
    ensures forall s :: 0 <= s < |r| ==> r[s] == frequencies[s] || (frequencies[s] == 0 && r[s] == 1)
    ensures |Active(frequencies)| >= 2 ==> r == frequencies
  {
    var active: seq<nat> := [];
    for symbol := 0 to |frequencies|
      invariant forall i :: 0 <= i < |active| ==> active[i] < symbol && frequencies[active[i]] != 0
      invariant forall s :: 0 <= s < symbol && frequencies[s] != 0 ==> s in active
      invariant forall i, j :: 0 <= i < j < |active| ==> active[i] != active[j]
    {
      if frequencies[symbol] != 0 {
        active := active + [symbol];
      }
    }
    assert Active(frequencies) == Members(active);
    DistinctCount(active);
    if |active| >= 2 {
      return frequencies;
    }
    if active == [] {
      r := frequencies[0 := 1][1 := 1];
      TwoActive(r, 0, 1);
    } else {
      var other := if active[0] == 0 then 1 else 0;
      r := frequencies[other := 1];
      TwoActive(r, other, active[0]);
    }
  }

  lemma TwoActive(r: seq<nat>, a: nat, b: nat)
    requires a < |r| && b < |r| && a != b && r[a] != 0 && r[b] != 0
    ensures |Active(r)| >= 2
  {
    assert {a, b} <= Active(r);
    SubsetSize({a, b}, Active(r));
  }
}
