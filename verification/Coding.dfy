/** The grouped Huffman coding of a bzip2 block: several tables and a choice of table for every 50 symbols. */
module Coding {
  import opened Seqs
  import opened Sums
  import opened BitStream
  import opened BitReading
  import opened BitWriting
  import opened Canonical
  import CodeLengths
  import Huffman
  import PackageMerge

  /** The encoder's cap; the decoder accepts 20. */
  const MAX_CODE_LEN: nat := 17
  const GROUP_SIZE: nat := 50
  const N_ITERS: nat := 4

  datatype GroupedCoding = GroupedCoding(nGroups: nat, selectors: seq<nat>, lens: seq<seq<nat>>, codes: seq<seq<nat>>)

  function GroupCount(nSyms: nat): (n: nat)
    ensures 2 <= n <= 6
  {
    if nSyms <= 199 then 2 else if nSyms <= 599 then 3 else if nSyms <= 1199 then 4 else if nSyms <= 2399 then 5 else 6
  }

  // ----- Canonical codes -----

  /** Codes handed out by length and then by symbol are the canonical ones. */
  method CanonicalCodes(lens: seq<nat>) returns (codes: seq<nat>)
    requires lens != [] && forall i :: 0 <= i < |lens| ==> lens[i] >= 1
    ensures |codes| == |lens| && forall i :: 0 <= i < |lens| ==> codes[i] == Code(lens, i)
  {
    hide CountLen, First, Code;
    var min, max := Huffman.Extremes(lens);
    Huffman.NoneShorter(lens, min);
    var a := new nat[|lens|](_ => 0);
    var next := 0;
    for l := min to max + 1
      invariant next == First(lens, l)
      invariant forall i :: 0 <= i < |lens| && lens[i] < l ==> a[i] == Code(lens, i)
    {
      ghost var start := next;
      NoneInNothing(lens, l);
      for i := 0 to |lens|
        invariant next == start + CountLen(lens[..i], l)
        invariant forall j :: 0 <= j < |lens| && (lens[j] < l || (lens[j] == l && j < i)) ==> a[j] == Code(lens, j)
      {
        CountStep(lens, i, l);
        if lens[i] == l {
          CodeUnfold(lens, i);
          a[i] := next;
          next := next + 1;
        }
      }
      assert lens[..|lens|] == lens;
      Huffman.FirstUnfold(lens, l + 1);
      next := next * 2;
    }
    codes := a[..];
  }

  lemma NoneInNothing(lens: seq<nat>, l: nat)
    ensures CountLen(lens[..0], l) == 0
  {
  }

  lemma CodeUnfold(lens: seq<nat>, i: nat)
    requires i < |lens|
    ensures Code(lens, i) == First(lens, lens[i]) + CountLen(lens[..i], lens[i])
  {
  }

  // ----- Choosing a table for each group -----

  function Lens(len: seq<nat>, syms: seq<nat>): (ls: seq<nat>)
    requires forall i :: 0 <= i < |syms| ==> syms[i] < |len|
    ensures |ls| == |syms| && forall i :: 0 <= i < |syms| ==> ls[i] == len[syms[i]]
  {
    seq(|syms|, i requires 0 <= i < |syms| => len[syms[i]])
  }

  /** Bits to code `syms` with code lengths `len`. */
  function Cost(len: seq<nat>, syms: seq<nat>): nat
    requires forall i :: 0 <= i < |syms| ==> syms[i] < |len|
  {
    Sum(Lens(len, syms))
  }

  function Groups(n: nat): nat
  {
    (n + GROUP_SIZE - 1) / GROUP_SIZE
  }

  function GroupEnd(n: nat, g: nat): (e: nat)
    requires g < Groups(n)
    ensures GROUP_SIZE * g < e <= n
  {
    if GROUP_SIZE * g + GROUP_SIZE < n then GROUP_SIZE * g + GROUP_SIZE else n
  }

  function Group(syms: seq<nat>, g: nat): seq<nat>
    requires g < Groups(|syms|)
  {
    syms[GROUP_SIZE * g..GroupEnd(|syms|, g)]
  }

  ghost predicate Codable(syms: seq<nat>, lens: seq<seq<nat>>, alpha: nat)
  {
    && (forall i :: 0 <= i < |syms| ==> syms[i] < alpha)
    && forall t :: 0 <= t < |lens| ==> |lens[t]| == alpha && forall s :: 0 <= s < alpha ==> lens[t][s] <= 255
  }

  /** Table `best` codes the group in fewest bits, the first such table if several do. */
  ghost predicate Cheapest(lens: seq<seq<nat>>, group: seq<nat>, best: nat, among: nat)
    requires among <= |lens| && forall t, i :: 0 <= t < |lens| && 0 <= i < |group| ==> group[i] < |lens[t]|
  {
    best < among && forall t :: 0 <= t < among ==>
      Cost(lens[best], group) <= Cost(lens[t], group) && (t < best ==> Cost(lens[best], group) < Cost(lens[t], group))
  }

  lemma {:induction false} CostBound(len: seq<nat>, syms: seq<nat>)
    requires forall i :: 0 <= i < |syms| ==> syms[i] < |len| && len[syms[i]] <= 255
    ensures Cost(len, syms) <= 255 * |syms|
  {
    var all := seq<nat>(|syms|, _ => 255);
    SumLeq(Lens(len, syms), all);
    SumConstant(all, 255);
  }

  const U64_MAX: nat := 0xFFFF_FFFF_FFFF_FFFF

  method CostOf(len: seq<nat>, syms: seq<nat>) returns (cost: nat)
    requires forall i :: 0 <= i < |syms| ==> syms[i] < |len|
    ensures cost == Cost(len, syms)
  {
    cost := 0;
    for i := 0 to |syms|
      invariant cost == Sum(Lens(len, syms)[..i])
    {
      assert Lens(len, syms)[..i + 1][..i] == Lens(len, syms)[..i];
      cost := cost + len[syms[i]];
    }
    assert Lens(len, syms)[..|syms|] == Lens(len, syms);
  }

  method BestTable(lens: seq<seq<nat>>, group: seq<nat>, ghost alpha: nat) returns (best: nat)
    requires lens != [] && |group| <= GROUP_SIZE && Codable(group, lens, alpha)
    ensures Cheapest(lens, group, best, |lens|)
  {
    hide Cost;
    best := 0;
    var bestCost := U64_MAX;
    for t := 0 to |lens|
      invariant t == 0 ==> best == 0 && bestCost == U64_MAX
      invariant t > 0 ==> Cheapest(lens, group, best, t) && bestCost == Cost(lens[best], group)
    {
      var cost := CostOf(lens[t], group);
      CostBound(lens[t], group);
      if cost < bestCost {
        bestCost := cost;
        best := t;
      }
    }
  }

  /** Each group of symbols uses the table that codes it in fewest bits. */
  ghost predicate Assigned(syms: seq<nat>, lens: seq<seq<nat>>, selectors: seq<nat>)
    requires forall t, i :: 0 <= t < |lens| && 0 <= i < |syms| ==> syms[i] < |lens[t]|
  {
    |selectors| == Groups(|syms|) && forall g :: 0 <= g < |selectors| ==> Cheapest(lens, Group(syms, g), selectors[g], |lens|)
  }

  method AssignSelectors(syms: seq<nat>, lens: seq<seq<nat>>, ghost alpha: nat) returns (selectors: seq<nat>)
    requires lens != [] && Codable(syms, lens, alpha)
    ensures Assigned(syms, lens, selectors)
  {
    hide Cheapest;
    selectors := [];
    var start := 0;
    while start < |syms|
      invariant (start == |syms| && |selectors| == Groups(|syms|)) || start == GROUP_SIZE * |selectors| < |syms|
      invariant |selectors| <= Groups(|syms|)
      invariant forall g :: 0 <= g < |selectors| ==> Cheapest(lens, Group(syms, g), selectors[g], |lens|)
      decreases |syms| - start
    {
      var end := if start + GROUP_SIZE < |syms| then start + GROUP_SIZE else |syms|;
      var best := BestTable(lens, syms[start..end], alpha);
      assert syms[start..end] == Group(syms, |selectors|);
      selectors := selectors + [best];
      start := end;
    }
  }

  /** Bits spent on each group. */
  function GroupCosts(syms: seq<nat>, lens: seq<seq<nat>>, selectors: seq<nat>): (cs: seq<nat>)
    requires forall t, i :: 0 <= t < |lens| && 0 <= i < |syms| ==> syms[i] < |lens[t]|
    requires |selectors| == Groups(|syms|) && forall g :: 0 <= g < |selectors| ==> selectors[g] < |lens|
    ensures |cs| == |selectors| && forall g :: 0 <= g < |cs| ==> cs[g] == Cost(lens[selectors[g]], Group(syms, g))
  {
    seq(|selectors|, g requires 0 <= g < |selectors| => Cost(lens[selectors[g]], Group(syms, g)))
  }

  /** For fixed code lengths no other choice of tables codes the block in fewer bits. */
  lemma AssignedIsLeast(syms: seq<nat>, lens: seq<seq<nat>>, selectors: seq<nat>, other: seq<nat>)
    requires forall t, i :: 0 <= t < |lens| && 0 <= i < |syms| ==> syms[i] < |lens[t]|
    requires Assigned(syms, lens, selectors)
    requires |other| == Groups(|syms|) && forall g :: 0 <= g < |other| ==> other[g] < |lens|
    ensures forall g :: 0 <= g < |selectors| ==> selectors[g] < |lens|
    ensures Sum(GroupCosts(syms, lens, selectors)) <= Sum(GroupCosts(syms, lens, other))
  {
    hide Cost, Sum;
    forall g | 0 <= g < |selectors| ensures GroupCosts(syms, lens, selectors)[g] <= GroupCosts(syms, lens, other)[g] {
      assert Cheapest(lens, Group(syms, g), selectors[g], |lens|);
    }
    SumLeq(GroupCosts(syms, lens, selectors), GroupCosts(syms, lens, other));
  }

  // ----- Refinement -----

  /** How many of the first `n` symbols are `s` and use table `t`. */
  function Frequency(syms: seq<nat>, selectors: seq<nat>, t: nat, s: nat, n: nat): nat
    requires n <= |syms| && |selectors| == Groups(|syms|)
  {
    if n == 0 then 0
    else Frequency(syms, selectors, t, s, n - 1) + if selectors[(n - 1) / GROUP_SIZE] == t && syms[n - 1] == s then 1 else 0
  }

  /** A symbol that does not occur still gets weight 1, as it still needs a code. */
  function Weights(syms: seq<nat>, selectors: seq<nat>, t: nat, alpha: nat): (ws: seq<nat>)
    requires |selectors| == Groups(|syms|)
    ensures |ws| == alpha
    ensures forall s :: 0 <= s < alpha ==>
              ws[s] == if Frequency(syms, selectors, t, s, |syms|) < 1 then 1 else Frequency(syms, selectors, t, s, |syms|)
  {
    seq(alpha, s requires 0 <= s < alpha =>
      if Frequency(syms, selectors, t, s, |syms|) < 1 then 1 else Frequency(syms, selectors, t, s, |syms|))
  }

  method CountFrequencies(syms: seq<nat>, selectors: seq<nat>, nGroups: nat, alpha: nat) returns (rfreq: array2<nat>)
    requires |selectors| == Groups(|syms|) && (forall g :: 0 <= g < |selectors| ==> selectors[g] < nGroups)
    requires forall i :: 0 <= i < |syms| ==> syms[i] < alpha
    ensures rfreq.Length0 == nGroups && rfreq.Length1 == alpha && fresh(rfreq)
    ensures forall t, s :: 0 <= t < nGroups && 0 <= s < alpha ==> rfreq[t, s] == Frequency(syms, selectors, t, s, |syms|)
  {
    rfreq := new nat[nGroups, alpha]((t, s) => 0);
    for g := 0 to |selectors|
      invariant forall t, s :: 0 <= t < nGroups && 0 <= s < alpha ==>
                  rfreq[t, s] == Frequency(syms, selectors, t, s, if g < |selectors| then GROUP_SIZE * g else |syms|)
    {
      var start, end, table := GROUP_SIZE * g, GroupEnd(|syms|, g), selectors[g];
      for i := start to end
        invariant forall t, s :: 0 <= t < nGroups && 0 <= s < alpha ==> rfreq[t, s] == Frequency(syms, selectors, t, s, i)
      {
        rfreq[table, syms[i]] := rfreq[table, syms[i]] + 1;
      }
    }
  }

  method TableWeights(rfreq: array2<nat>, t: nat) returns (weights: seq<nat>)
    requires t < rfreq.Length0
    ensures |weights| == rfreq.Length1
    ensures forall s :: 0 <= s < |weights| ==> weights[s] == if rfreq[t, s] < 1 then 1 else rfreq[t, s]
  {
    weights := [];
    for s := 0 to rfreq.Length1
      invariant |weights| == s
      invariant forall i :: 0 <= i < s ==> weights[i] == if rfreq[t, i] < 1 then 1 else rfreq[t, i]
    {
      weights := weights + [if rfreq[t, s] < 1 then 1 else rfreq[t, s]];
    }
  }

  /** Complete codes within the cap, each the cheapest for the symbols that `selectors` gives its table. */
  ghost predicate Refined(syms: seq<nat>, selectors: seq<nat>, lens: seq<seq<nat>>, alpha: nat)
    requires |selectors| == Groups(|syms|)
  {
    forall t :: 0 <= t < |lens| ==>
      |lens[t]| == alpha && PackageMerge.Complete(lens[t], 17)
      && PackageMerge.Optimal(Weights(syms, selectors, t, alpha), lens[t], 17)
  }

  method Refine(syms: seq<nat>, alpha: nat, current: seq<seq<nat>>) returns (lens: seq<seq<nat>>, ghost selectors: seq<nat>)
    requires 3 <= alpha <= 258 && |current| >= 1 && Codable(syms, current, alpha)
    ensures |lens| == |current| && Codable(syms, lens, alpha)
    ensures |selectors| == Groups(|syms|) && Refined(syms, selectors, lens, alpha)
  {
    hide PackageMerge.Complete, PackageMerge.Optimal, Cheapest, Frequency, Pow2;
    var chosen := AssignSelectors(syms, current, alpha);
    AssignedWithin(syms, current, chosen);
    selectors := chosen;
    var rfreq := CountFrequencies(syms, chosen, |current|, alpha);
    lens := [];
    CapRoom();
    for t := 0 to |current|
      invariant |lens| == t && Refined(syms, chosen, lens, alpha)
      invariant forall u, s :: 0 <= u < |current| && 0 <= s < alpha ==> rfreq[u, s] == Frequency(syms, chosen, u, s, |syms|)
    {
      var weights := TableWeights(rfreq, t);
      assert weights == Weights(syms, chosen, t, alpha);
      var len := PackageMerge.PackageMerge(weights, MAX_CODE_LEN);
      lens := lens + [len];
    }
    RefinedCodable(syms, chosen, lens, alpha);
  }

  lemma CapRoom()
    ensures Pow2(MAX_CODE_LEN) >= 258
  {
    Pow2Monotone(16, 17);
    Pow2Values();
  }

  lemma AssignedWithin(syms: seq<nat>, lens: seq<seq<nat>>, selectors: seq<nat>)
    requires forall t, i :: 0 <= t < |lens| && 0 <= i < |syms| ==> syms[i] < |lens[t]|
    requires Assigned(syms, lens, selectors)
    ensures forall g :: 0 <= g < |selectors| ==> selectors[g] < |lens|
  {
  }

  lemma RefinedCodable(syms: seq<nat>, selectors: seq<nat>, lens: seq<seq<nat>>, alpha: nat)
    requires |selectors| == Groups(|syms|) && Refined(syms, selectors, lens, alpha)
    requires forall i :: 0 <= i < |syms| ==> syms[i] < alpha
    ensures Codable(syms, lens, alpha)
    ensures forall t :: 0 <= t < |lens| ==> forall s :: 0 <= s < alpha ==> 1 <= lens[t][s] <= 17
  {
  }

  // ----- The whole coding -----

  /** What a block's coding promises: decodable tables, canonical codes, and the cheapest table everywhere. */
  ghost predicate Sound(syms: seq<nat>, alpha: nat, c: GroupedCoding)
  {
    && 2 <= c.nGroups <= 6 && |c.lens| == |c.codes| == c.nGroups
    && (forall i :: 0 <= i < |syms| ==> syms[i] < alpha)
    && CodeLengths.Usable(c.lens, alpha)
    && (forall t :: 0 <= t < |c.lens| ==> |c.codes[t]| == alpha && forall s :: 0 <= s < alpha ==> c.codes[t][s] == Code(c.lens[t], s))
    && Assigned(syms, c.lens, c.selectors)
  }

  /** A complete code within the encoder's cap is one the decoder builds. */
  lemma CompleteBuildable(len: seq<nat>)
    requires len != [] && PackageMerge.Complete(len, MAX_CODE_LEN)
    ensures CodeLengths.Buildable(len)
  {
    hide Fits, PackageMerge.Kraft, Pow2;
    FitsIsKraft(len, MAX_CODE_LEN);
    FitsBeyond(len, MAX_CODE_LEN, Huffman.MAX_CODE_LEN);
  }

  // ----- The seed -----

  lemma SumPush(xs: seq<nat>, i: nat, j: nat)
    requires i <= j < |xs|
    ensures Sum(xs[i..j + 1]) == Sum(xs[i..j]) + xs[j]
    ensures Sum(xs[j..]) == xs[j] + Sum(xs[j + 1..])
  {
    assert xs[i..j + 1][..j - i] == xs[i..j];
    assert xs[j..] == [xs[j]] + xs[j + 1..];
    SumAppend([xs[j]], xs[j + 1..]);
    PackageMerge.SumOne(xs[j]);
  }

  lemma SumCut(xs: seq<nat>, i: nat, j: nat)
    requires i <= j <= |xs|
    ensures Sum(xs[i..]) == Sum(xs[i..j]) + Sum(xs[j..])
  {
    assert xs[i..] == xs[i..j] + xs[j..];
    SumAppend(xs[i..j], xs[j..]);
  }

  /** Lengths favouring the symbols `gs..=ge`. */
  function Favour(alpha: nat, gs: int, ge: int): (len: seq<nat>)
    ensures |len| == alpha && forall v :: 0 <= v < alpha ==> len[v] == if gs <= v <= ge then 1 else 15
  {
    seq(alpha, v => if gs <= v <= ge then 1 else 15)
  }

  function Unset(alpha: nat): (len: seq<nat>)
    ensures |len| == alpha && forall v :: 0 <= v < alpha ==> len[v] == 0
  {
    seq(alpha, v => 0)
  }

  /** Extend a slice of the alphabet until it holds its share of the symbols; its last value may go back. */
  method Slice(freq: seq<nat>, gs: nat, target: nat, giveBack: bool) returns (ge: int, acc: nat)
    requires gs <= |freq|
    ensures gs - 1 <= ge < |freq| && acc == Sum(freq[gs..ge + 1])
  {
    ge, acc := gs - 1, 0;
    assert freq[gs..gs] == [];
    while acc < target && ge < |freq| - 1
      invariant gs - 1 <= ge < |freq| && acc == Sum(freq[gs..ge + 1])
    {
      ge := ge + 1;
      SumPush(freq, gs, ge);
      acc := acc + freq[ge];
    }
    if ge > gs && giveBack {
      SumPush(freq, gs, ge);
      acc := acc - freq[ge];
      ge := ge - 1;
    }
  }

  /** Seed the tables by splitting the alphabet into runs of about equal frequency. */
  method InitialLengths(syms: seq<nat>, alpha: nat, nGroups: nat) returns (lens: seq<seq<nat>>)
    requires forall i :: 0 <= i < |syms| ==> syms[i] < alpha
    ensures |lens| == nGroups && Codable(syms, lens, alpha)
  {
    hide Sum;
    var a := new nat[alpha](_ => 0);
    SumConstant(a[..], 0);
    for i := 0 to |syms|
      invariant Sum(a[..]) == i
    {
      ghost var was := a[..];
      a[syms[i]] := a[syms[i]] + 1;
      assert a[..] == was[syms[i] := was[syms[i]] + 1];
      SumUpdate(was, syms[i]);
    }
    var freq := a[..];
    lens := seq(nGroups, _ => Unset(alpha));
    var remaining, gs, part := |syms|, 0, nGroups;
    assert freq[0..] == freq;
    while part > 0
      invariant part <= nGroups && |lens| == nGroups && gs <= alpha
      invariant remaining == Sum(freq[gs..])
      invariant forall t :: 0 <= t < nGroups ==> |lens[t]| == alpha && forall v :: 0 <= v < alpha ==> lens[t][v] <= 15
    {
      var ge, acc := Slice(freq, gs, remaining / part, part != nGroups && part != 1 && (nGroups - part) % 2 == 1);
      lens := lens[part - 1 := Favour(alpha, gs, ge)];
      part := part - 1;
      SumCut(freq, gs, ge + 1);
      gs := ge + 1;
      remaining := remaining - acc;
    }
  }

  lemma SumUpdate(xs: seq<nat>, k: nat)
    requires k < |xs|
    ensures Sum(xs[k := xs[k] + 1]) == Sum(xs) + 1
  {
    var ys := xs[k := xs[k] + 1];
    SumCut(xs, 0, k);
    SumCut(ys, 0, k);
    SumPush(xs, k, k);
    SumPush(ys, k, k);
    assert xs[0..] == xs && ys[0..] == ys && ys[0..k] == xs[0..k] && ys[k + 1..] == xs[k + 1..];
  }

  /** Seed the tables, refine them against the symbols, and assign the selectors once more. */
  method Build(syms: seq<nat>, alpha: nat) returns (c: GroupedCoding, ghost before: seq<nat>)
    requires syms != [] && 3 <= alpha <= 258 && forall i :: 0 <= i < |syms| ==> syms[i] < alpha
    ensures Sound(syms, alpha, c) && c.nGroups == GroupCount(|syms|)
    ensures |before| == Groups(|syms|) && Refined(syms, before, c.lens, alpha)
  {
    hide PackageMerge.Complete, PackageMerge.Optimal, Cheapest, Pow2, Code, Refined;
    var nGroups := GroupCount(|syms|);
    var lens := InitialLengths(syms, alpha, nGroups);
    before := seq(Groups(|syms|), _ => 0);
    for pass := 0 to N_ITERS
      invariant |lens| == nGroups && Codable(syms, lens, alpha)
      invariant |before| == Groups(|syms|) && (pass > 0 ==> Refined(syms, before, lens, alpha))
    {
      lens, before := Refine(syms, alpha, lens);
    }
    var selectors := AssignSelectors(syms, lens, alpha);
    RefinedUsable(syms, before, lens, alpha);
    var codes: seq<seq<nat>> := [];
    for t := 0 to nGroups
      invariant |codes| == t
      invariant forall u :: 0 <= u < t ==> |codes[u]| == alpha && forall s :: 0 <= s < alpha ==> codes[u][s] == Code(lens[u], s)
    {
      var code := CanonicalCodes(lens[t]);
      codes := codes + [code];
    }
    c := GroupedCoding(nGroups, selectors, lens, codes);
  }

  lemma RefinedUsable(syms: seq<nat>, selectors: seq<nat>, lens: seq<seq<nat>>, alpha: nat)
    requires |selectors| == Groups(|syms|) && Refined(syms, selectors, lens, alpha) && alpha > 0
    ensures CodeLengths.Usable(lens, alpha)
  {
    hide PackageMerge.Complete, PackageMerge.Optimal, CodeLengths.Buildable;
    forall t | 0 <= t < |lens| ensures CodeLengths.Buildable(lens[t]) {
      CompleteBuildable(lens[t]);
    }
  }
}
