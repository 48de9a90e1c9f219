/** Move-to-front lists, and the bzip2 selector list coded through one. */
module MoveToFront {
  import opened Seqs
  import opened BitStream
  import opened BitReading
  import opened BitWriting

  function MoveFront<T>(list: seq<T>, j: nat): (moved: seq<T>)
    requires j < |list|
    ensures |moved| == |list|
  {
    [list[j]] + list[..j] + list[j + 1..]
  }

  /** First position of `v`. */
  function PositionOf<T(==)>(list: seq<T>, v: T): (j: nat)
    requires v in list
    ensures j < |list| && list[j] == v && v !in list[..j]
  {
    if list[0] == v then 0 else
      var j := PositionOf(list[1..], v);
      assert list[..j + 1] == [list[0]] + list[1..][..j];
      j + 1
  }

  lemma Moved<T>(list: seq<T>, j: nat)
    requires j < |list|
    ensures forall x :: x in MoveFront(list, j) <==> x in list
  {
    var m := MoveFront(list, j);
    assert m[0] == list[j] && (forall k :: 0 <= k < j ==> m[k + 1] == list[k]) && forall k :: j < k < |list| ==> m[k] == list[k];
    forall x | x in list ensures x in m {
      var k :| 0 <= k < |list| && list[k] == x;
      assert if k == j then m[0] == x else if k < j then m[k + 1] == x else m[k] == x;
    }
  }

  method Position<T(==)>(list: array<T>, v: T) returns (j: nat)
    requires v in list[..]
    ensures j == PositionOf(list[..], v)
  {
    j := 0;
    while list[j] != v
      invariant j < list.Length && v in list[j..] && v !in list[..j]
      decreases list.Length - j
    {
      assert list[j..] == [list[j]] + list[j + 1..];
      j := j + 1;
    }
    PositionUnique(list[..], v, j);
  }

  lemma {:induction false} PositionUnique<T>(list: seq<T>, v: T, j: nat)
    requires j < |list| && list[j] == v && v !in list[..j]
    ensures PositionOf(list, v) == j
  {
    if j > 0 {
      assert list[..j][0] == list[0] && list[..j][1..] == list[1..][..j - 1];
      PositionUnique(list[1..], v, j - 1);
    }
  }

  /** `copy_within(0..j, 1)` and then the moved value at the front. */
  method MoveInPlace<T>(list: array<T>, j: nat)
    requires j < list.Length
    modifies list
    ensures list[..] == MoveFront(old(list[..]), j)
  {
    var v := list[j];
    forall k | 1 <= k <= j {
      list[k] := list[k - 1];
    }
    list[0] := v;
  }

  // ----- Selectors -----

  /** `j` ones and a zero. */
  function Unary(j: nat): (b: seq<bool>)
    ensures |b| == j + 1
  {
    if j == 0 then [false] else [true] + Unary(j - 1)
  }

  /** Every selector is a table the list holds. */
  predicate Known(list: seq<nat>, selectors: seq<nat>)
  {
    forall i :: 0 <= i < |selectors| ==> selectors[i] in list
  }

  function SelectorBits(list: seq<nat>, selectors: seq<nat>): seq<bool>
    requires Known(list, selectors)
    decreases selectors
  {
    if selectors == [] then [] else
      var j := PositionOf(list, selectors[0]);
      Moved(list, j);
      Unary(j) + SelectorBits(MoveFront(list, j), selectors[1..])
  }

  /** Count ones up to a zero; `n` or more are an error. */
  function ParseUnary(s: seq<bool>, at: nat, index: nat, n: nat): (p: Parse<nat>)
    ensures p.Parsed? && index < n ==> p.value < n && at < p.at <= |s|
    decreases n - index
  {
    var b := ReadBit(s, at);
    if b.Failed? then Failed(b.error)
    else if !b.value then Parsed(index, b.at)
    else if index + 1 >= n then Failed(InvalidBlock)
    else ParseUnary(s, b.at, index + 1, n)
  }

  function ParseSelectors(s: seq<bool>, at: nat, list: seq<nat>, done: seq<nat>, count: nat): (p: Parse<seq<nat>>)
    requires list != [] && at <= |s|
    ensures p.Parsed? ==> |p.value| == |done| + count && at <= p.at <= |s|
    decreases count
  {
    if count == 0 then Parsed(done, at) else
      var j := ParseUnary(s, at, 0, |list|);
      if j.Failed? then Failed(j.error)
      else ParseSelectors(s, j.at, MoveFront(list, j.value), done + [list[j.value]], count - 1)
  }

  lemma {:induction false} UnaryRoundTrip(s: seq<bool>, at: nat, j: nat, index: nat, n: nat)
    requires Has(s, at, Unary(j)) && index + j < n
    ensures ParseUnary(s, at, index, n) == Parsed(index + j, at + j + 1)
    decreases j
  {
    if j == 0 {
      assert s[at..at + 1][0] == s[at];
    } else {
      HasSplit(s, at, [true], Unary(j - 1));
      assert s[at..at + 1][0] == s[at];
      UnaryRoundTrip(s, at + 1, j - 1, index + 1, n);
    }
  }

  lemma SelectorStep(list: seq<nat>, selectors: seq<nat>, k: nat)
    requires k < |selectors| && Known(list, selectors)
    ensures var j := PositionOf(list, selectors[k]);
            Known(MoveFront(list, j), selectors) &&
            SelectorBits(list, selectors[k..]) == Unary(j) + SelectorBits(MoveFront(list, j), selectors[k + 1..])
  {
    hide Unary;
    assert selectors[k..][0] == selectors[k] && selectors[k..][1..] == selectors[k + 1..];
    Moved(list, PositionOf(list, selectors[k]));
  }

  lemma ParseStep(s: seq<bool>, at: nat, list: seq<nat>, done: seq<nat>, count: nat)
    requires list != [] && at <= |s| && count > 0
    ensures var j := ParseUnary(s, at, 0, |list|);
            ParseSelectors(s, at, list, done, count) ==
            if j.Failed? then Failed(j.error)
            else ParseSelectors(s, j.at, MoveFront(list, j.value), done + [list[j.value]], count - 1)
  {
  }

  lemma ParseNothing(s: seq<bool>, at: nat, list: seq<nat>, done: seq<nat>)
    requires list != [] && at <= |s|
    ensures ParseSelectors(s, at, list, done, 0) == Parsed(done, at)
  {
  }

  /** Writing a selector list and parsing it gives it back. */
  lemma {:induction false} SelectorsRoundTrip(s: seq<bool>, at: nat, list: seq<nat>, selectors: seq<nat>, k: nat, bits: seq<bool>)
    requires list != [] && Known(list, selectors) && k <= |selectors| && bits == SelectorBits(list, selectors[k..]) && Has(s, at, bits)
    ensures ParseSelectors(s, at, list, selectors[..k], |selectors| - k) == Parsed(selectors, at + |bits|)
    decreases |selectors| - k
  {
    hide ParseUnary, SelectorBits, PositionOf, MoveFront, ParseSelectors, Unary;
    if k == |selectors| {
      assert selectors[..k] == selectors && selectors[k..] == [];
      ParseNothing(s, at, list, selectors);
      NoSelectors(list);
    } else {
      var j := PositionOf(list, selectors[k]);
      SelectorStep(list, selectors, k);
      var after := SelectorBits(MoveFront(list, j), selectors[k + 1..]);
      HasSplit(s, at, Unary(j), after);
      UnaryRoundTrip(s, at, j, 0, |list|);
      ParseStep(s, at, list, selectors[..k], |selectors| - k);
      SelectorsRoundTrip(s, at + j + 1, MoveFront(list, j), selectors, k + 1, after);
      assert selectors[..k] + [list[j]] == selectors[..k + 1];
    }
  }

  function Range(n: nat): (r: seq<nat>)
    ensures |r| == n && forall i :: 0 <= i < n ==> r[i] == i
  {
    seq(n, i => i)
  }

  lemma NoSelectors(list: seq<nat>)
    ensures SelectorBits(list, []) == []
  {
  }

  method WriteUnary(w: BitWriter, j: nat)
    requires w.Valid()
    modifies w
    ensures w.Valid() && w.Written() == old(w.Written()) + Unary(j)
  {
    hide BitWriter.Written;
    ghost var whole := w.Written() + Unary(j);
    for i := 0 to j
      invariant w.Valid() && w.Written() + Unary(j - i) == whole
    {
      ghost var was := w.Written();
      w.WriteBit(1);
      assert was + ([true] + Unary(j - i - 1)) == was + [true] + Unary(j - i - 1);
    }
    w.WriteBit(0);
  }

  method WriteSelectors(w: BitWriter, selectors: seq<nat>, tables: nat)
    requires w.Valid() && forall i :: 0 <= i < |selectors| ==> selectors[i] < tables
    modifies w
    ensures w.Valid() && Known(Range(tables), selectors)
    ensures w.Written() == old(w.Written()) + SelectorBits(Range(tables), selectors)
  {
    hide BitWriter.Written, Unary, SelectorBits, PositionOf, MoveFront;
    var pos := new nat[tables](i => i);
    assert pos[..] == Range(tables);
    assert forall i :: 0 <= i < |selectors| ==> selectors[i] == pos[..][selectors[i]];
    ghost var whole := w.Written() + SelectorBits(Range(tables), selectors);
    assert selectors[0..] == selectors;
    for k := 0 to |selectors|
      invariant w.Valid() && Known(pos[..], selectors)
      invariant w.Written() + SelectorBits(pos[..], selectors[k..]) == whole
    {
      ghost var list, was := pos[..], w.Written();
      var j := Position(pos, selectors[k]);
      WriteUnary(w, j);
      MoveInPlace(pos, j);
      SelectorStep(list, selectors, k);
      Regroup(was, Unary(j), SelectorBits(pos[..], selectors[k + 1..]));
    }
    NoSelectors(pos[..]);
  }

  method ReadUnary(bits: Bits, n: nat) returns (r: Result<nat>)
    requires bits.Valid() && n > 0
    modifies bits
    ensures bits.Valid() && Follows(r, bits.bit, ParseUnary(bits.All(), old(bits.bit), 0, n))
  {
    var index := 0;
    while true
      invariant bits.Valid() && index < n
      invariant ParseUnary(bits.All(), bits.bit, index, n) == ParseUnary(bits.All(), old(bits.bit), 0, n)
      decreases n - index
    {
      var b := bits.Bit();
      if b.Err? {
        return Err(b.error);
      }
      if !b.value {
        return Ok(index);
      }
      index := index + 1;
      if index >= n {
        return Err(InvalidBlock);
      }
    }
  }

  method ReadSelectors(bits: Bits, tables: nat, count: nat) returns (r: Result<seq<nat>>)
    requires bits.Valid() && tables > 0
    modifies bits
    ensures bits.Valid() && Follows(r, bits.bit, ParseSelectors(bits.All(), old(bits.bit), Range(tables), [], count))
  {
    hide ParseUnary, MoveFront;
    var pos := new nat[tables](i => i);
    assert pos[..] == Range(tables);
    var selectors := [];
    for k := 0 to count
      invariant bits.Valid()
      invariant ParseSelectors(bits.All(), bits.bit, pos[..], selectors, count - k) ==
                ParseSelectors(bits.All(), old(bits.bit), Range(tables), [], count)
    {
      hide ParseSelectors;
      ghost var at := bits.bit;
      ParseStep(bits.All(), at, pos[..], selectors, count - k);
      var j := ReadUnary(bits, tables);
      if j.Err? {
        return Err(j.error);
      }
      selectors := selectors + [pos[j.value]];
      MoveInPlace(pos, j.value);
    }
    r := Ok(selectors);
  }
}
