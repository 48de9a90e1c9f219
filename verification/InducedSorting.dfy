/** What the scans of induced sorting keep, one slot at a time. */
module InducedSorting {
  import opened SuffixOrder
  import opened Buckets
  import Lex

  /** Sentinel for "no entry yet" in a suffix array under construction. */
  const EMPTY: nat := 0xFFFF_FFFF

  ghost predicate Input(s: seq<nat>, t: seq<bool>, k: nat)
  {
    Sentinel(s) && Types(s, t) && |s| <= EMPTY && forall i :: 0 <= i < |s| ==> s[i] < k
  }

  /** `pos` gives each position its slot in `sa`, or -1. Slots may also hold left-over seeds from `stale`. */
  ghost predicate Slots(sa: seq<nat>, pos: seq<int>, stale: set<int>)
  {
    && |sa| == |pos|
    && (forall p :: 0 <= p < |pos| && pos[p] >= 0 ==> pos[p] < |sa| && sa[pos[p]] == p)
    && (forall x :: 0 <= x < |sa| && sa[x] != EMPTY ==> sa[x] < |sa| && (pos[sa[x]] == x || sa[x] in stale))
  }

  ghost predicate AllLms(t: seq<bool>, stale: set<int>)
  {
    forall p {:trigger IsLms(t, p)} :: 0 <= p < |t| && p in stale ==> IsLms(t, p)
  }

  ghost function Placed(s: seq<nat>, t: seq<bool>, pos: seq<int>, c: nat, ty: bool): set<int>
    requires |s| == |t| == |pos|
  {
    set p: int | 0 <= p < |s| && s[p] == c && t[p] == ty && pos[p] >= 0
  }

  lemma PlacedIsSmaller(s: seq<nat>, t: seq<bool>, pos: seq<int>, j: nat)
    requires |s| == |t| == |pos| && j < |s| && pos[j] < 0
    ensures |Placed(s, t, pos, s[j], t[j])| < |OfType(s, t, s[j], t[j])|
  {
    Larger(Placed(s, t, pos, s[j], t[j]), OfType(s, t, s[j], t[j]));
    assert j in OfType(s, t, s[j], t[j]) && j !in Placed(s, t, pos, s[j], t[j]);
  }

  lemma PlacedGrows(s: seq<nat>, t: seq<bool>, pos: seq<int>, j: nat, x: nat, c: nat, ty: bool)
    requires |s| == |t| == |pos| && j < |s| && pos[j] < 0
    ensures |Placed(s, t, pos[j := x], c, ty)| == |Placed(s, t, pos, c, ty)| + if s[j] == c && t[j] == ty then 1 else 0
  {
    var before, after := Placed(s, t, pos, c, ty), Placed(s, t, pos[j := x], c, ty);
    if s[j] == c && t[j] == ty {
      assert after == before + {j};
    } else {
      assert after == before;
    }
  }

  /** Placed positions stand in non-decreasing order of their keys. */
  ghost predicate SortedBy(keys: seq<seq<int>>, pos: seq<int>)
    requires |keys| == |pos|
  {
    forall p, q :: 0 <= p < |pos| && 0 <= q < |pos| && 0 <= pos[p] < pos[q] ==> !Lex.Less(keys[q], keys[p])
  }

  lemma PlaceSlots(sa: seq<nat>, pos: seq<int>, stale: set<int>, j: nat, x: nat)
    requires Slots(sa, pos, stale) && j < |sa| <= EMPTY && x < |sa|
    requires pos[j] < 0 && forall q :: 0 <= q < |pos| ==> pos[q] != x
    ensures Slots(sa[x := j], pos[j := x], stale)
  {
  }

  lemma PlaceSorted(keys: seq<seq<int>>, pos: seq<int>, j: nat, x: nat)
    requires |keys| == |pos| && j < |pos| && pos[j] < 0
    requires SortedBy(keys, pos)
    requires forall q :: 0 <= q < |pos| && 0 <= pos[q] < x ==> !Lex.Less(keys[j], keys[q])
    requires forall q :: 0 <= q < |pos| && x < pos[q] ==> !Lex.Less(keys[q], keys[j])
    ensures SortedBy(keys, pos[j := x])
  {
  }

  /**
   * What a scan for positions of type `ty` needs of its keys: value and type decide first, and two
   * positions that agree on both compare like their successors.
   */
  ghost predicate KeysFor(s: seq<nat>, t: seq<bool>, keys: seq<seq<int>>, ty: bool)
    requires |s| == |t|
  {
    && |keys| == |s|
    && (forall p, q :: 0 <= p < |s| && 0 <= q < |s| ==> HeadRule(s, t, keys, p, q))
    && (forall p, q :: 0 <= p < |s| - 1 && 0 <= q < |s| - 1 && t[p] == ty ==> TailRule(s, t, keys, p, q))
  }

  ghost predicate HeadRule(s: seq<nat>, t: seq<bool>, keys: seq<seq<int>>, p: nat, q: nat)
    requires |s| == |t| == |keys| && p < |s| && q < |s|
  {
    Head(s, t, p) < Head(s, t, q) ==> !Lex.Less(keys[q], keys[p])
  }

  ghost predicate TailRule(s: seq<nat>, t: seq<bool>, keys: seq<seq<int>>, p: nat, q: nat)
    requires |s| == |t| == |keys| && p + 1 < |s| && q + 1 < |s|
  {
    Head(s, t, p) == Head(s, t, q) && Lex.Less(keys[q], keys[p]) ==> Lex.Less(keys[q + 1], keys[p + 1])
  }

  // ----- Left-to-right scan: L-types -----

  /** Where the placed positions sit while L-types are being placed from the bucket starts. */
  ghost predicate RegionsL(s: seq<nat>, t: seq<bool>, pos: seq<int>, bk: seq<nat>)
    requires |s| == |t| == |pos|
  {
    && (forall p :: 0 <= p < |s| && pos[p] >= 0 ==> s[p] < |bk|)
    && (forall p :: 0 <= p < |s| && pos[p] >= 0 && !t[p] ==> Start(s, s[p]) <= pos[p] < bk[s[p]])
    && (forall p :: 0 <= p < |s| && pos[p] >= 0 && t[p] ==> IsLms(t, p) && Mid(s, t, s[p]) <= pos[p] < End(s, s[p]))
    && (forall c :: 0 <= c < |bk| ==> bk[c] == Start(s, c) + |Placed(s, t, pos, c, false)|)
  }

  /** Everything left of slot `i` has been scanned, and nothing else has induced anything. */
  ghost predicate ScannedL(s: seq<nat>, t: seq<bool>, pos: seq<int>, i: nat)
    requires |s| == |t| == |pos|
  {
    && (forall p :: 0 <= p < |s| && IsLms(t, p) ==> pos[p] >= 0)
    && (forall p {:trigger t[p]} :: 0 <= p < |s| - 1 && !t[p] && pos[p] >= 0 ==> 0 <= pos[p + 1] < i)
    && (forall p {:trigger t[p]} :: 0 <= p < |s| - 1 && !t[p] && 0 <= pos[p + 1] < i ==> pos[p] >= 0)
  }

  ghost predicate InvL(s: seq<nat>, t: seq<bool>, keys: seq<seq<int>>, sa: seq<nat>, pos: seq<int>, bk: seq<nat>, i: nat)
  {
    && |s| == |t| == |pos|
    && KeysFor(s, t, keys, false)
    && Slots(sa, pos, {})
    && RegionsL(s, t, pos, bk)
    && ScannedL(s, t, pos, i)
    && SortedBy(keys, pos)
  }

  /** A free slot for `j` lies strictly between the scan and the S-types of the bucket. */
  lemma FreeSlotL(s: seq<nat>, t: seq<bool>, keys: seq<seq<int>>, sa: seq<nat>, pos: seq<int>, bk: seq<nat>, i: nat, j: nat)
    requires Input(s, t, |bk|) && InvL(s, t, keys, sa, pos, bk, i)
    requires i < |s| && j + 1 < |s| && sa[i] == j + 1 && !t[j]
    ensures pos[j] < 0 && pos[j + 1] == i
    ensures i < bk[s[j]] < Mid(s, t, s[j]) <= |s|
  {
    var c := s[j];
    assert pos[j + 1] == i;
    assert TypeRule(s, t, j);
    PlacedIsSmaller(s, t, pos, j);
    Ordered(s, t, c, c + 1);
    if s[j] > s[j + 1] {
      Ordered(s, t, s[j + 1], c);
      if !t[j + 1] { PlacedFits(s, t, pos, s[j + 1], false); }
    }
  }

  lemma PlacedFits(s: seq<nat>, t: seq<bool>, pos: seq<int>, c: nat, ty: bool)
    requires |s| == |t| == |pos|
    ensures |Placed(s, t, pos, c, ty)| <= |OfType(s, t, c, ty)|
  {
    Larger(Placed(s, t, pos, c, ty), OfType(s, t, c, ty));
  }

  /** Bucket and type alone put `q` on the right side of the next free L slot of bucket `s[j]`. */
  lemma SidesL(s: seq<nat>, t: seq<bool>, pos: seq<int>, bk: seq<nat>, j: nat, q: nat)
    requires |s| == |t| == |pos| && RegionsL(s, t, pos, bk)
    requires j < |s| && !t[j] && s[j] < |bk| && bk[s[j]] < Mid(s, t, s[j]) && q < |s| && pos[q] >= 0
    ensures Head(s, t, q) < Head(s, t, j) ==> pos[q] < bk[s[j]]
    ensures Head(s, t, q) > Head(s, t, j) ==> pos[q] > bk[s[j]]
    ensures Head(s, t, q) == Head(s, t, j) ==> pos[q] < bk[s[j]]
  {
    PlacedFits(s, t, pos, s[j], false);
    PlacedFits(s, t, pos, s[q], false);
    if s[q] < s[j] {
      Ordered(s, t, s[q], s[j]);
    } else if s[j] < s[q] {
      Ordered(s, t, s[j], s[q]);
    }
  }

  /** The new L-type belongs after everything placed before its slot and before everything after it. */
  lemma OrderL(s: seq<nat>, t: seq<bool>, keys: seq<seq<int>>, pos: seq<int>, bk: seq<nat>, j: nat, q: nat)
    requires |s| == |t| == |pos| && RegionsL(s, t, pos, bk) && KeysFor(s, t, keys, false) && SortedBy(keys, pos)
    requires j + 1 < |s| && !t[j] && s[j] < |bk| && bk[s[j]] < Mid(s, t, s[j])
    requires q < |s| && pos[q] >= 0 && t[|s| - 1]
    requires !t[q] && q + 1 < |s| ==> 0 <= pos[q + 1] < pos[j + 1]
    ensures pos[q] < bk[s[j]] ==> !Lex.Less(keys[j], keys[q])
    ensures pos[q] > bk[s[j]] ==> !Lex.Less(keys[q], keys[j])
    ensures pos[q] != bk[s[j]]
  {
    hide RegionsL, Lex.Less, Mid;
    SidesL(s, t, pos, bk, j, q);
    assert HeadRule(s, t, keys, j, q) && HeadRule(s, t, keys, q, j);
    if Head(s, t, q) == Head(s, t, j) {
      assert TailRule(s, t, keys, q, j) && !Lex.Less(keys[j + 1], keys[q + 1]);
    }
  }

  lemma PlaceRegionsL(s: seq<nat>, t: seq<bool>, pos: seq<int>, bk: seq<nat>, j: nat, x: nat)
    requires |s| == |t| == |pos| && RegionsL(s, t, pos, bk)
    requires j < |s| && pos[j] < 0 && !t[j] && s[j] < |bk| && x == bk[s[j]]
    ensures RegionsL(s, t, pos[j := x], bk[s[j] := x + 1])
  {
    var pos1, bk1 := pos[j := x], bk[s[j] := x + 1];
    forall d | 0 <= d < |bk| ensures bk1[d] == Start(s, d) + |Placed(s, t, pos1, d, false)| {
      PlacedGrows(s, t, pos, j, x, d, false);
    }
  }

  lemma PlaceScannedL(s: seq<nat>, t: seq<bool>, sa: seq<nat>, pos: seq<int>, i: nat, j: nat, x: nat)
    requires |s| == |t| == |pos| && Slots(sa, pos, {}) && ScannedL(s, t, pos, i)
    requires j + 1 < |s| && pos[j] < 0 && pos[j + 1] == i < x && !t[j]
    ensures ScannedL(s, t, pos[j := x], i + 1)
  {
    var pos1 := pos[j := x];
    forall p | 0 <= p < |s| - 1 && !t[p] && 0 <= pos1[p + 1] < i + 1 ensures pos1[p] >= 0 {
      if pos[p + 1] == i {
        assert p + 1 == j + 1;
      }
    }
  }

  lemma FitsL(s: seq<nat>, t: seq<bool>, keys: seq<seq<int>>, pos: seq<int>, bk: seq<nat>, i: nat, j: nat)
    requires |s| == |t| == |pos| && RegionsL(s, t, pos, bk) && KeysFor(s, t, keys, false) && SortedBy(keys, pos) && ScannedL(s, t, pos, i)
    requires j + 1 < |s| && !t[j] && s[j] < |bk| && bk[s[j]] < Mid(s, t, s[j]) && pos[j + 1] == i && t[|s| - 1]
    ensures forall q :: 0 <= q < |pos| ==> pos[q] != bk[s[j]]
    ensures forall q :: 0 <= q < |pos| && 0 <= pos[q] < bk[s[j]] ==> !Lex.Less(keys[j], keys[q])
    ensures forall q :: 0 <= q < |pos| && bk[s[j]] < pos[q] ==> !Lex.Less(keys[q], keys[j])
  {
    forall q | 0 <= q < |pos| && pos[q] >= 0
      ensures pos[q] != bk[s[j]]
      ensures pos[q] < bk[s[j]] ==> !Lex.Less(keys[j], keys[q])
      ensures pos[q] > bk[s[j]] ==> !Lex.Less(keys[q], keys[j])
    {
      OrderL(s, t, keys, pos, bk, j, q);
    }
  }

  /** Placing the L-type predecessor of the scanned entry keeps the invariant. */
  lemma PlaceL(s: seq<nat>, t: seq<bool>, keys: seq<seq<int>>, sa: seq<nat>, pos: seq<int>, bk: seq<nat>, i: nat, j: nat, x: nat)
    requires Input(s, t, |bk|) && InvL(s, t, keys, sa, pos, bk, i)
    requires i < |s| && j + 1 < |s| && sa[i] == j + 1 && !t[j] && x == bk[s[j]]
    ensures x < |s| && InvL(s, t, keys, sa[x := j], pos[j := x], bk[s[j] := x + 1], i + 1)
  {
    hide RegionsL, ScannedL, HeadRule, TailRule, TypeRule, Sentinel;
    FreeSlotL(s, t, keys, sa, pos, bk, i, j);
    assert Slots(sa[x := j], pos[j := x], {}) && SortedBy(keys, pos[j := x]) by {
      FitsL(s, t, keys, pos, bk, i, j);
      PlaceSlots(sa, pos, {}, j, x);
      PlaceSorted(keys, pos, j, x);
    }
    PlaceRegionsL(s, t, pos, bk, j, x);
    PlaceScannedL(s, t, sa, pos, i, j, x);
  }

  /** At the end of the scan every L-type has been placed. */
  lemma {:induction false} AllLPlaced(s: seq<nat>, t: seq<bool>, pos: seq<int>, p: nat)
    requires Sentinel(s) && Types(s, t) && |pos| == |s| && ScannedL(s, t, pos, |s|)
    requires p < |s| && (t[p] ==> IsLms(t, p))
    requires forall q :: 0 <= q < |s| ==> pos[q] < |s|
    ensures pos[p] >= 0
    decreases |s| - p
  {
    if !t[p] {
      AllLPlaced(s, t, pos, p + 1);
    }
  }

  lemma SkipL(s: seq<nat>, t: seq<bool>, sa: seq<nat>, pos: seq<int>, i: nat)
    requires |s| == |t| == |pos| && |s| <= EMPTY && Slots(sa, pos, {}) && ScannedL(s, t, pos, i) && i < |s|
    requires sa[i] == EMPTY || sa[i] == 0 || (sa[i] < |s| ==> t[sa[i] - 1])
    ensures ScannedL(s, t, pos, i + 1)
  {
    forall p | 0 <= p < |s| - 1 && !t[p] && 0 <= pos[p + 1] < i + 1 ensures pos[p] >= 0 {
      if pos[p + 1] == i {
        assert false;
      }
    }
  }

  // ----- Right-to-left scan: S-types -----

  /** Where positions sit while S-types are placed from the bucket ends; the sentinel keeps slot 0. */
  ghost predicate RegionsS(s: seq<nat>, t: seq<bool>, pos: seq<int>, bk: seq<nat>)
    requires |s| == |t| == |pos|
  {
    && (forall p :: 0 <= p < |s| && pos[p] >= 0 ==> s[p] < |bk|)
    && (forall p :: 0 <= p < |s| && pos[p] >= 0 && !t[p] ==> Start(s, s[p]) <= pos[p] < Mid(s, t, s[p]))
    && (forall p :: 0 <= p < |s| && pos[p] >= 0 && t[p] && s[p] > 0 ==> bk[s[p]] <= pos[p] < End(s, s[p]))
    && (forall c :: 0 < c < |bk| ==> bk[c] + |Placed(s, t, pos, c, true)| == End(s, c))
  }

  /** Slots from `hi` on have been scanned; L-types and the sentinel were in place from the start. */
  ghost predicate ScannedS(s: seq<nat>, t: seq<bool>, pos: seq<int>, hi: nat)
    requires |s| == |t| == |pos|
  {
    && s != [] && pos[|s| - 1] == 0
    && (forall p :: 0 <= p < |s| && !t[p] ==> pos[p] >= 0)
    && (forall p {:trigger t[p]} :: 0 <= p < |s| - 1 && t[p] && pos[p] >= 0 ==> hi <= pos[p + 1])
    && (forall p {:trigger t[p]} :: 0 <= p < |s| - 1 && t[p] && hi <= pos[p + 1] ==> pos[p] >= 0)
  }

  ghost predicate InvS(s: seq<nat>, t: seq<bool>, keys: seq<seq<int>>, sa: seq<nat>, pos: seq<int>, stale: set<int>, bk: seq<nat>, hi: nat)
  {
    && |s| == |t| == |pos|
    && KeysFor(s, t, keys, true)
    && Slots(sa, pos, stale)
    && AllLms(t, stale)
    && RegionsS(s, t, pos, bk)
    && ScannedS(s, t, pos, hi)
    && SortedBy(keys, pos)
  }

  /** A free slot for `j` lies between the L-types of its bucket and the scan. */
  lemma FreeSlotS(s: seq<nat>, t: seq<bool>, sa: seq<nat>, pos: seq<int>, stale: set<int>, bk: seq<nat>, i: nat, j: nat)
    requires Input(s, t, |bk|) && |pos| == |s|
    requires Slots(sa, pos, stale) && AllLms(t, stale) && RegionsS(s, t, pos, bk) && ScannedS(s, t, pos, i + 1)
    requires i < |s| && j + 1 < |s| && sa[i] == j + 1 && t[j]
    ensures pos[j] < 0 && pos[j + 1] == i && s[j] > 0
    ensures Mid(s, t, s[j]) < bk[s[j]] <= i
  {
    assert !IsLms(t, j + 1);
    assert pos[j + 1] == i;
    assert pos[j] < 0;
    SlotBoundsS(s, t, pos, bk, j);
  }

  lemma SlotBoundsS(s: seq<nat>, t: seq<bool>, pos: seq<int>, bk: seq<nat>, j: nat)
    requires Input(s, t, |bk|) && |pos| == |s| && RegionsS(s, t, pos, bk)
    requires j + 1 < |s| && t[j] && pos[j] < 0 && pos[j + 1] >= 0
    ensures Mid(s, t, s[j]) < bk[s[j]] <= pos[j + 1]
  {
    PlacedIsSmaller(s, t, pos, j);
    EndIsMidPlusS(s, t, s[j]);
    assert TypeRule(s, t, j);
    if s[j] < s[j + 1] {
      Ordered(s, t, s[j], s[j + 1]);
      SeedsFit(s, t, pos, bk, s[j]);
      SeedsFit(s, t, pos, bk, s[j + 1]);
    }
  }

  lemma SentinelBucket(s: seq<nat>, t: seq<bool>)
    requires Sentinel(s) && |s| == |t|
    ensures Start(s, 0) == 0 && End(s, 0) == 1
  {
    assert Below(s, 0) == {};
    assert Below(s, 1) == {|s| - 1};
  }

  /** Bucket and type alone put `q` on the right side of a gap slot of bucket `s[j]`. */
  lemma SidesS(s: seq<nat>, t: seq<bool>, pos: seq<int>, bk: seq<nat>, j: nat, q: nat)
    requires Input(s, t, |bk|) && |pos| == |s| && RegionsS(s, t, pos, bk) && pos[|s| - 1] == 0
    requires j < |s| && t[j] && s[j] > 0 && Mid(s, t, s[j]) < bk[s[j]] && q < |s| && pos[q] >= 0
    ensures Head(s, t, q) < Head(s, t, j) ==> pos[q] < bk[s[j]] - 1
    ensures Head(s, t, q) > Head(s, t, j) ==> pos[q] > bk[s[j]] - 1
    ensures Head(s, t, q) == Head(s, t, j) ==> pos[q] >= bk[s[j]]
  {
    SentinelBucket(s, t);
    Ordered(s, t, 0, s[j]);
    SeedsFit(s, t, pos, bk, s[j]);
    if s[q] > 0 {
      SeedsFit(s, t, pos, bk, s[q]);
    }
    if s[q] < s[j] {
      Ordered(s, t, s[q], s[j]);
    } else if s[j] < s[q] {
      Ordered(s, t, s[j], s[q]);
    }
  }

  /** The new S-type belongs after everything before its slot and before everything placed after it. */
  lemma OrderS(s: seq<nat>, t: seq<bool>, keys: seq<seq<int>>, pos: seq<int>, bk: seq<nat>, j: nat, q: nat)
    requires Input(s, t, |bk|) && |pos| == |s| && RegionsS(s, t, pos, bk) && pos[|s| - 1] == 0
    requires KeysFor(s, t, keys, true) && SortedBy(keys, pos)
    requires j + 1 < |s| && t[j] && pos[j] < 0 && s[j] > 0 && Mid(s, t, s[j]) < bk[s[j]]
    requires q < |s| && pos[q] >= 0 && (t[q] && q + 1 < |s| ==> 0 <= pos[j + 1] < pos[q + 1])
    ensures pos[q] < bk[s[j]] - 1 ==> !Lex.Less(keys[j], keys[q])
    ensures pos[q] > bk[s[j]] - 1 ==> !Lex.Less(keys[q], keys[j])
    ensures pos[q] != bk[s[j]] - 1
  {
    hide RegionsS, Lex.Less, Mid, TypeRule;
    SidesS(s, t, pos, bk, j, q);
    assert HeadRule(s, t, keys, j, q) && HeadRule(s, t, keys, q, j);
    if Head(s, t, q) == Head(s, t, j) {
      assert TailRule(s, t, keys, j, q) && !Lex.Less(keys[q + 1], keys[j + 1]);
    }
  }

  lemma FitsS(s: seq<nat>, t: seq<bool>, keys: seq<seq<int>>, pos: seq<int>, bk: seq<nat>, i: nat, j: nat)
    requires Input(s, t, |bk|) && |pos| == |s| && RegionsS(s, t, pos, bk) && ScannedS(s, t, pos, i + 1)
    requires KeysFor(s, t, keys, true) && SortedBy(keys, pos)
    requires j + 1 < |s| && t[j] && pos[j] < 0 && s[j] > 0 && Mid(s, t, s[j]) < bk[s[j]] && pos[j + 1] == i
    ensures forall q :: 0 <= q < |pos| ==> pos[q] != bk[s[j]] - 1
    ensures forall q :: 0 <= q < |pos| && 0 <= pos[q] < bk[s[j]] - 1 ==> !Lex.Less(keys[j], keys[q])
    ensures forall q :: 0 <= q < |pos| && bk[s[j]] - 1 < pos[q] ==> !Lex.Less(keys[q], keys[j])
  {
    forall q | 0 <= q < |pos| && pos[q] >= 0
      ensures pos[q] != bk[s[j]] - 1
      ensures pos[q] < bk[s[j]] - 1 ==> !Lex.Less(keys[j], keys[q])
      ensures pos[q] > bk[s[j]] - 1 ==> !Lex.Less(keys[q], keys[j])
    {
      OrderS(s, t, keys, pos, bk, j, q);
    }
  }

  lemma PlaceRegionsS(s: seq<nat>, t: seq<bool>, pos: seq<int>, bk: seq<nat>, j: nat, x: nat)
    requires |s| == |t| == |pos| && RegionsS(s, t, pos, bk)
    requires j < |s| && pos[j] < 0 && t[j] && 0 < s[j] < |bk| && bk[s[j]] == x + 1
    ensures RegionsS(s, t, pos[j := x], bk[s[j] := x])
  {
    var pos1, bk1 := pos[j := x], bk[s[j] := x];
    forall d | 0 < d < |bk| ensures bk1[d] + |Placed(s, t, pos1, d, true)| == End(s, d) {
      PlacedGrows(s, t, pos, j, x, d, true);
    }
  }

  lemma PlaceScannedS(s: seq<nat>, t: seq<bool>, sa: seq<nat>, pos: seq<int>, stale: set<int>, i: nat, j: nat, x: nat)
    requires |s| == |t| == |pos| && Slots(sa, pos, stale) && ScannedS(s, t, pos, i + 1)
    requires j + 1 < |s| && pos[j] < 0 && x < pos[j + 1] == i && t[j]
    ensures ScannedS(s, t, pos[j := x], i)
  {
    var pos1 := pos[j := x];
    forall p | 0 <= p < |s| - 1 && t[p] && i <= pos1[p + 1] ensures pos1[p] >= 0 {
      if pos[p + 1] == i {
        assert p + 1 == j + 1;
      }
    }
  }

  /** Placing the S-type predecessor of the scanned entry keeps the invariant. */
  lemma PlaceS(s: seq<nat>, t: seq<bool>, keys: seq<seq<int>>, sa: seq<nat>, pos: seq<int>, stale: set<int>, bk: seq<nat>, i: nat, j: nat, x: nat)
    requires Input(s, t, |bk|) && InvS(s, t, keys, sa, pos, stale, bk, i + 1)
    requires i < |s| && j + 1 < |s| && sa[i] == j + 1 && t[j] && x + 1 == bk[s[j]]
    ensures x < |s| && InvS(s, t, keys, sa[x := j], pos[j := x], stale, bk[s[j] := x], i)
  {
    FreeSlotS(s, t, sa, pos, stale, bk, i, j);
    PlaceRegionsS(s, t, pos, bk, j, x);
    assert Slots(sa[x := j], pos[j := x], stale) && SortedBy(keys, pos[j := x]) by {
      FitsS(s, t, keys, pos, bk, i, j);
      PlaceSlots(sa, pos, stale, j, x);
      PlaceSorted(keys, pos, j, x);
    }
    PlaceScannedS(s, t, sa, pos, stale, i, j, x);
  }

  /** Left-over seeds are LMS, so their predecessors are L-types and the scan passes over them. */
  lemma SkipS(s: seq<nat>, t: seq<bool>, sa: seq<nat>, pos: seq<int>, stale: set<int>, i: nat)
    requires |s| == |t| == |pos| && |s| <= EMPTY && Slots(sa, pos, stale) && AllLms(t, stale) && ScannedS(s, t, pos, i + 1) && i < |s|
    requires sa[i] == EMPTY || sa[i] == 0 || (sa[i] < |s| ==> !t[sa[i] - 1])
    ensures ScannedS(s, t, pos, i)
  {
    forall p | 0 <= p < |s| - 1 && t[p] && i <= pos[p + 1] ensures pos[p] >= 0 {
      if pos[p + 1] == i {
        assert false;
      }
    }
  }

  lemma {:induction false} AllPlaced(s: seq<nat>, t: seq<bool>, pos: seq<int>, p: nat)
    requires Sentinel(s) && Types(s, t) && |pos| == |s| && ScannedS(s, t, pos, 0)
    requires p < |s|
    ensures pos[p] >= 0
    decreases |s| - p
  {
    if p < |s| - 1 {
      AllPlaced(s, t, pos, p + 1);
    }
  }

  // ----- Seeding -----

  /** Only LMS positions are in the array, each at the end of its bucket, ordered by rank. */
  ghost predicate Seeded(s: seq<nat>, t: seq<bool>, rank: seq<nat>, sa: seq<nat>, pos: seq<int>, bk: seq<nat>)
  {
    && |s| == |t| == |rank| == |pos|
    && Slots(sa, pos, {})
    && (forall p :: 0 <= p < |s| && pos[p] >= 0 ==> IsLms(t, p) && s[p] < |bk| && bk[s[p]] <= pos[p] < End(s, s[p]))
    && (forall c :: 0 <= c < |bk| ==> bk[c] + |Placed(s, t, pos, c, true)| == End(s, c))
    && (forall p, q :: 0 <= p < |s| && 0 <= q < |s| && s[p] == s[q] && 0 <= pos[p] < pos[q] ==> rank[p] <= rank[q])
  }

  lemma SeedsFit(s: seq<nat>, t: seq<bool>, pos: seq<int>, bk: seq<nat>, c: nat)
    requires |s| == |t| == |pos| && c < |bk| && bk[c] + |Placed(s, t, pos, c, true)| == End(s, c)
    ensures Mid(s, t, c) <= bk[c] <= End(s, c) <= |s|
  {
    PlacedFits(s, t, pos, c, true);
    EndIsMidPlusS(s, t, c);
    Ordered(s, t, c, c + 1);
  }

  lemma PlaceSeed(s: seq<nat>, t: seq<bool>, rank: seq<nat>, sa: seq<nat>, pos: seq<int>, bk: seq<nat>, p: nat, x: nat)
    requires |s| <= EMPTY && Seeded(s, t, rank, sa, pos, bk)
    requires p < |s| && IsLms(t, p) && pos[p] < 0 && s[p] < |bk| && x + 1 == bk[s[p]]
    requires forall q :: 0 <= q < |s| && pos[q] >= 0 && s[q] == s[p] ==> rank[p] <= rank[q]
    ensures x < |s| && Seeded(s, t, rank, sa[x := p], pos[p := x], bk[s[p] := x])
  {
    SeedRoom(s, t, rank, sa, pos, bk, p);
    SeedsFit(s, t, pos, bk, s[p]);
    forall q | 0 <= q < |s| && pos[q] >= 0 ensures pos[q] != x {
      SeedsFit(s, t, pos, bk, s[q]);
      if s[q] < s[p] {
        Ordered(s, t, s[q], s[p]);
      } else if s[q] > s[p] {
        Ordered(s, t, s[p], s[q]);
      }
    }
    PlaceSlots(sa, pos, {}, p, x);
    forall d | 0 <= d < |bk| ensures bk[s[p] := x][d] + |Placed(s, t, pos[p := x], d, true)| == End(s, d) {
      PlacedGrows(s, t, pos, p, x, d, true);
    }
  }

  /** There is always room for one more seed. */
  lemma SeedRoom(s: seq<nat>, t: seq<bool>, rank: seq<nat>, sa: seq<nat>, pos: seq<int>, bk: seq<nat>, p: nat)
    requires Seeded(s, t, rank, sa, pos, bk)
    requires p < |s| && IsLms(t, p) && pos[p] < 0 && s[p] < |bk|
    ensures bk[s[p]] > Mid(s, t, s[p])
  {
    PlacedIsSmaller(s, t, pos, p);
    EndIsMidPlusS(s, t, s[p]);
  }

  // ----- What the loops read off the invariants -----

  lemma EntryL(s: seq<nat>, t: seq<bool>, keys: seq<seq<int>>, sa: seq<nat>, pos: seq<int>, bk: seq<nat>, i: nat)
    requires Input(s, t, |bk|) && InvL(s, t, keys, sa, pos, bk, i) && i < |s|
    ensures |sa| == |pos| == |t| == |s| && (sa[i] == EMPTY || sa[i] < |s|)
    ensures sa[i] == EMPTY || sa[i] == 0 || t[sa[i] - 1] ==> InvL(s, t, keys, sa, pos, bk, i + 1)
    ensures 0 < sa[i] < |s| ==> s[sa[i] - 1] < |bk|
  {
    if sa[i] == EMPTY || sa[i] == 0 || t[sa[i] - 1] {
      SkipL(s, t, sa, pos, i);
    }
  }

  lemma EntryS(s: seq<nat>, t: seq<bool>, keys: seq<seq<int>>, sa: seq<nat>, pos: seq<int>, stale: set<int>, bk: seq<nat>, i: nat)
    requires Input(s, t, |bk|) && InvS(s, t, keys, sa, pos, stale, bk, i + 1) && i < |s|
    ensures |sa| == |pos| == |t| == |s| && (sa[i] == EMPTY || sa[i] < |s|)
    ensures sa[i] == EMPTY || sa[i] == 0 || !t[sa[i] - 1] ==> InvS(s, t, keys, sa, pos, stale, bk, i)
    ensures 0 < sa[i] < |s| ==> s[sa[i] - 1] < |bk|
    ensures 0 < sa[i] < |s| && t[sa[i] - 1] ==> bk[s[sa[i] - 1]] > 0
  {
    if sa[i] == EMPTY || sa[i] == 0 || !t[sa[i] - 1] {
      SkipS(s, t, sa, pos, stale, i);
    } else {
      FreeSlotS(s, t, sa, pos, stale, bk, i, sa[i] - 1);
    }
  }

  // ----- From seeds to the sorted array -----

  ghost function SeedKeys(s: seq<nat>, t: seq<bool>, rank: seq<nat>): (keys: seq<seq<int>>)
    requires |s| == |t| == |rank|
    ensures |keys| == |s| && forall i :: 0 <= i < |s| ==> keys[i] == SeedKey(s, t, rank, i)
  {
    seq(|s|, i requires 0 <= i < |s| => SeedKey(s, t, rank, i))
  }

  ghost function Keys(s: seq<nat>, t: seq<bool>, rank: seq<nat>): (keys: seq<seq<int>>)
    requires |s| == |t| == |rank|
    ensures |keys| == |s| && forall i :: 0 <= i < |s| ==> keys[i] == Key(s, t, rank, i)
  {
    seq(|s|, i requires 0 <= i < |s| => Key(s, t, rank, i))
  }

  lemma SeedKeysWork(s: seq<nat>, t: seq<bool>, rank: seq<nat>)
    requires |s| == |t| == |rank|
    ensures KeysFor(s, t, SeedKeys(s, t, rank), false)
  {
    var keys := SeedKeys(s, t, rank);
    forall p, q | 0 <= p < |s| && 0 <= q < |s| ensures HeadRule(s, t, keys, p, q) {
      if Head(s, t, p) < Head(s, t, q) {
        HeadsDecide(s, t, rank, p, q);
      }
    }
    forall p, q | 0 <= p < |s| - 1 && 0 <= q < |s| - 1 && t[p] == false ensures TailRule(s, t, keys, p, q) {
      if Head(s, t, p) == Head(s, t, q) {
        KeyStep(s, t, rank, q, p);
      }
    }
  }

  lemma KeysWork(s: seq<nat>, t: seq<bool>, rank: seq<nat>)
    requires |s| == |t| == |rank|
    ensures KeysFor(s, t, Keys(s, t, rank), true)
  {
    var keys := Keys(s, t, rank);
    forall p, q | 0 <= p < |s| && 0 <= q < |s| ensures HeadRule(s, t, keys, p, q) {
      if Head(s, t, p) < Head(s, t, q) {
        HeadsDecide(s, t, rank, p, q);
      }
    }
    forall p, q | 0 <= p < |s| - 1 && 0 <= q < |s| - 1 && t[p] == true ensures TailRule(s, t, keys, p, q) {
      if Head(s, t, p) == Head(s, t, q) {
        KeyStep(s, t, rank, q, p);
      }
    }
  }

  lemma SeedsSorted(s: seq<nat>, t: seq<bool>, rank: seq<nat>, sa: seq<nat>, pos: seq<int>, bk: seq<nat>, p: nat, q: nat)
    requires Seeded(s, t, rank, sa, pos, bk)
    requires p < |s| && q < |s| && 0 <= pos[p] < pos[q]
    ensures !Lex.Less(SeedKey(s, t, rank, q), SeedKey(s, t, rank, p))
  {
    SeedsFit(s, t, pos, bk, s[p]);
    SeedsFit(s, t, pos, bk, s[q]);
    if s[q] < s[p] {
      Ordered(s, t, s[q], s[p]);
    } else if s[p] < s[q] {
      HeadsDecide(s, t, rank, p, q);
    } else {
      Lex.Cons(Head(s, t, q), [rank[q]], Head(s, t, p), [rank[p]]);
      assert SeedKey(s, t, rank, q) == [Head(s, t, q)] + [rank[q]] && SeedKey(s, t, rank, p) == [Head(s, t, p)] + [rank[p]];
      assert !Lex.Less([rank[q] as int], [rank[p] as int]);
    }
  }

  lemma StartL(s: seq<nat>, t: seq<bool>, rank: seq<nat>, sa: seq<nat>, pos: seq<int>, ends: seq<nat>, bk: seq<nat>)
    requires Input(s, t, |bk|) && Seeded(s, t, rank, sa, pos, ends) && |ends| == |bk|
    requires forall p :: 0 <= p < |s| && IsLms(t, p) ==> pos[p] >= 0
    requires forall c :: 0 <= c < |bk| ==> bk[c] == Start(s, c)
    ensures InvL(s, t, SeedKeys(s, t, rank), sa, pos, bk, 0)
  {
    SeedKeysWork(s, t, rank);
    forall p, q | 0 <= p < |s| && 0 <= q < |s| && 0 <= pos[p] < pos[q]
      ensures !Lex.Less(SeedKeys(s, t, rank)[q], SeedKeys(s, t, rank)[p])
    {
      SeedsSorted(s, t, rank, sa, pos, ends, p, q);
    }
    forall c | 0 <= c < |bk| ensures Placed(s, t, pos, c, false) == {} && Mid(s, t, c) <= ends[c] {
      SeedsFit(s, t, pos, ends, c);
    }
  }

  /** Positions as the second scan sees them: the seeds other than the sentinel count as unplaced. */
  ghost function Unseed(t: seq<bool>, pos: seq<int>): (u: seq<int>)
    requires |t| == |pos|
    ensures |u| == |pos| && forall p :: 0 <= p < |pos| ==> u[p] == if t[p] && p < |pos| - 1 then -1 else pos[p]
  {
    seq(|pos|, p requires 0 <= p < |pos| => if t[p] && p < |pos| - 1 then -1 else pos[p])
  }

  ghost function LmsSet(t: seq<bool>): set<int>
  {
    set p: int | 0 <= p < |t| && IsLms(t, p)
  }

  lemma StartS(s: seq<nat>, t: seq<bool>, rank: seq<nat>, sa: seq<nat>, pos: seq<int>, bkL: seq<nat>, bk: seq<nat>)
    requires Input(s, t, |bk|) && |bkL| == |bk| && |s| == |rank| && |s| > 1
    requires InvL(s, t, SeedKeys(s, t, rank), sa, pos, bkL, |s|)
    requires forall c :: 0 <= c < |bk| ==> bk[c] == End(s, c)
    ensures InvS(s, t, Keys(s, t, rank), sa, Unseed(t, pos), LmsSet(t), bk, |s|)
  {
    KeysWork(s, t, rank);
    StartScannedS(s, t, pos);
    StartRegionsS(s, t, pos, Unseed(t, pos), bkL, bk);
    StartSlotsS(s, t, sa, pos);
    forall p | 0 <= p < |s| && !t[p] ensures SeedKey(s, t, rank, p) == Key(s, t, rank, p) {
    }
    StartSortedS(s, t, SeedKeys(s, t, rank), Keys(s, t, rank), pos);
  }

  lemma StartSortedS(s: seq<nat>, t: seq<bool>, seedKeys: seq<seq<int>>, keys: seq<seq<int>>, pos: seq<int>)
    requires Sentinel(s) && |s| == |t| == |pos| == |seedKeys| && t[|s| - 1]
    requires KeysFor(s, t, keys, true) && SortedBy(seedKeys, pos)
    requires forall p :: 0 <= p < |s| && !t[p] ==> keys[p] == seedKeys[p]
    requires pos[|s| - 1] == 0
    ensures SortedBy(keys, Unseed(t, pos))
  {
    var u := Unseed(t, pos);
    forall p, q | 0 <= p < |s| && 0 <= q < |s| && 0 <= u[p] < u[q] ensures !Lex.Less(keys[q], keys[p]) {
      if p == |s| - 1 {
        assert HeadRule(s, t, keys, p, q);
      }
    }
  }

  lemma StartSlotsS(s: seq<nat>, t: seq<bool>, sa: seq<nat>, pos: seq<int>)
    requires |s| == |t| == |pos| && Slots(sa, pos, {}) && ScannedS(s, t, Unseed(t, pos), |s|)
    requires forall p :: 0 <= p < |s| && pos[p] >= 0 && t[p] ==> IsLms(t, p)
    ensures Slots(sa, Unseed(t, pos), LmsSet(t)) && AllLms(t, LmsSet(t))
  {
  }

  lemma StartScannedS(s: seq<nat>, t: seq<bool>, pos: seq<int>)
    requires Sentinel(s) && Types(s, t) && |s| == |pos| && |s| > 1 && ScannedL(s, t, pos, |s|)
    requires forall q :: 0 <= q < |s| ==> pos[q] < |s|
    requires pos[|s| - 1] >= 0 ==> Mid(s, t, 0) <= pos[|s| - 1] < End(s, 0)
    ensures ScannedS(s, t, Unseed(t, pos), |s|)
  {
    SentinelBucket(s, t);
    assert TypeRule(s, t, |s| - 2);
    assert IsLms(t, |s| - 1);
    forall p | 0 <= p < |s| && !t[p] ensures Unseed(t, pos)[p] >= 0 {
      AllLPlaced(s, t, pos, p);
    }
  }

  lemma StartRegionsS(s: seq<nat>, t: seq<bool>, pos: seq<int>, u: seq<int>, bkL: seq<nat>, bk: seq<nat>)
    requires Sentinel(s) && |s| == |t| == |pos| == |u| && RegionsL(s, t, pos, bkL) && |bkL| == |bk|
    requires forall c :: 0 <= c < |bk| ==> bk[c] == End(s, c)
    requires forall p :: 0 <= p < |s| && u[p] >= 0 ==> pos[p] == u[p] && (t[p] ==> p == |s| - 1)
    ensures RegionsS(s, t, u, bk)
  {
    forall c | 0 < c < |bk| ensures bk[c] + |Placed(s, t, u, c, true)| == End(s, c) {
      assert Placed(s, t, u, c, true) == {};
    }
    forall p | 0 <= p < |s| && u[p] >= 0
      ensures s[p] < |bk|
      ensures !t[p] ==> Start(s, s[p]) <= u[p] < Mid(s, t, s[p])
      ensures !(t[p] && s[p] > 0)
    {
      PlacedFits(s, t, pos, s[p], false);
    }
  }

  /** `sa` lists every position once, in non-decreasing order of the keys. */
  ghost predicate SortedByKey(s: seq<nat>, t: seq<bool>, rank: seq<nat>, sa: seq<nat>)
    requires |s| == |t| == |rank|
  {
    && |sa| == |s|
    && (forall x :: 0 <= x < |sa| ==> sa[x] < |s|)
    && (forall p :: 0 <= p < |s| ==> p in sa)
    && (forall x, y :: 0 <= x < y < |sa| ==> sa[x] != sa[y] && !Lex.Less(Key(s, t, rank, sa[y]), Key(s, t, rank, sa[x])))
  }

  lemma Finish(s: seq<nat>, t: seq<bool>, rank: seq<nat>, sa: seq<nat>, pos: seq<int>, stale: set<int>, bk: seq<nat>)
    requires Input(s, t, |bk|) && |s| == |rank| && InvS(s, t, Keys(s, t, rank), sa, pos, stale, bk, 0)
    ensures SortedByKey(s, t, rank, sa)
  {
    forall p | 0 <= p < |s| ensures pos[p] >= 0 && p in sa {
      AllPlaced(s, t, pos, p);
      assert sa[pos[p]] == p;
    }
    InjectionIsSurjection(pos, |s|);
    forall x | 0 <= x < |sa| ensures sa[x] < |s| && pos[sa[x]] == x {
      assert x in pos;
    }
  }
}
