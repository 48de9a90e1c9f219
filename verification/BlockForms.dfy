/** Which bits are the tables of a bzip2 block: the map of used bytes, the selectors and the code lengths, in both directions. */
module BlockForms {
  import opened Seqs
  import opened Bytes
  import opened Sums
  import opened BitStream
  import opened BitReading
  import opened Canonical
  import opened Huffman
  import opened CodeLengths
  import opened MoveToFront
  import opened SymbolMap

  // ----- Fields -----

  lemma BitsOnly(s: seq<bool>, at: nat, n: nat)
    requires ReadBits(s, at, n).Parsed?
    ensures Has(s, at, BitsOf(ReadBits(s, at, n).value, n)) && ReadBits(s, at, n).value < Pow2(n)
  {
    BitsOfValue(s[at..at + n]);
    ValueBound(s[at..at + n]);
  }

  lemma BitOnly(s: seq<bool>, at: nat, b: bool)
    ensures Has(s, at, [b]) <==> ReadBit(s, at) == Parsed(b, at + 1)
  {
    if at < |s| {
      assert s[at..at + 1] == [s[at]];
    }
  }

  // ----- The map of used bytes -----

  /** A group without its flag has no used bytes; a flagged one may have none either. */
  ghost predicate Flagged(groups: seq<bool>, used: Flags)
  {
    |groups| == 16 && forall g :: 0 <= g < 16 && !groups[g] ==> Chunk(used, g) == Zeros(16)
  }

  function FlaggedBits(groups: seq<bool>, used: Flags, g: nat): seq<bool>
    requires |groups| == 16 && g <= 16
    decreases 16 - g
  {
    if g == 16 then [] else (if groups[g] then Chunk(used, g) else []) + FlaggedBits(groups, used, g + 1)
  }

  lemma UsedNext(used: Flags, g: nat)
    requires g < 16
    ensures used[..16 * (g + 1)] == used[..16 * g] + Chunk(used, g)
  {
  }

  lemma {:induction false} ChunksBack(s: seq<bool>, at: nat, groups: seq<bool>, used: Flags, g: nat)
    requires g <= 16 && at <= |s| && Flagged(groups, used) && Has(s, at, FlaggedBits(groups, used, g))
    ensures ParseChunks(s, at, groups, g, used[..16 * g]) == Parsed(used, at + |FlaggedBits(groups, used, g)|)
    decreases 16 - g
  {
    hide Has;
    if g == 16 {
      assert used[..256] == used;
    } else {
      var here := if groups[g] then Chunk(used, g) else [];
      HasSplit(s, at, here, FlaggedBits(groups, used, g + 1));
      hide FlaggedBits;
      HasSlice(s, at, here);
      UsedNext(used, g);
      ChunksBack(s, at + |here|, groups, used, g + 1);
    }
  }

  lemma {:induction false} ChunksOnly(s: seq<bool>, at: nat, groups: seq<bool>, g: nat, done: seq<bool>)
    requires |groups| == 16 && g <= 16 && |done| == 16 * g && at <= |s| && ParseChunks(s, at, groups, g, done).Parsed?
    ensures var p := ParseChunks(s, at, groups, g, done);
      done <= p.value && Has(s, at, FlaggedBits(groups, p.value, g)) && p.at == at + |FlaggedBits(groups, p.value, g)|
      && forall h :: g <= h < 16 && !groups[h] ==> Chunk(p.value, h) == Zeros(16)
    decreases 16 - g
  {
    var p := ParseChunks(s, at, groups, g, done);
    if g < 16 {
      var here := if groups[g] then s[at..at + 16] else Zeros(16);
      var next := if groups[g] then at + 16 else at;
      ChunksOnly(s, next, groups, g + 1, done + here);
      assert Chunk(p.value, g) == p.value[..16 * (g + 1)][16 * g..] == here;
      HasBoth(s, at, if groups[g] then here else [], FlaggedBits(groups, p.value, g + 1));
    }
  }

  /** The bits of a map, from which of its groups are flagged. */
  function MapForm(groups: seq<bool>, used: Flags): seq<bool>
    requires |groups| == 16
  {
    groups + FlaggedBits(groups, used, 0)
  }

  lemma MapBack(s: seq<bool>, at: nat, groups: seq<bool>, used: Flags)
    requires Flagged(groups, used) && Has(s, at, MapForm(groups, used))
    ensures ParseMap(s, at) == Parsed(used, at + |MapForm(groups, used)|)
  {
    hide FlaggedBits, ParseChunks;
    HasSplit(s, at, groups, FlaggedBits(groups, used, 0));
    assert used[..0] == [];
    ChunksBack(s, at + 16, groups, used, 0);
  }

  lemma MapOnly(s: seq<bool>, at: nat) returns (groups: seq<bool>)
    requires ParseMap(s, at).Parsed?
    ensures Flagged(groups, ParseMap(s, at).value)
    ensures Has(s, at, MapForm(groups, ParseMap(s, at).value)) && ParseMap(s, at).at == at + |MapForm(groups, ParseMap(s, at).value)|
  {
    hide FlaggedBits, ParseChunks;
    groups := s[at..at + 16];
    ChunksOnly(s, at + 16, groups, 0, []);
    HasBoth(s, at, groups, FlaggedBits(groups, ParseMap(s, at).value, 0));
  }

  // ----- Code lengths -----

  /** Steps of one up or down from `current`, never leaving 1 to 20. */
  predicate Stays(current: int, walk: seq<bool>)
    decreases |walk|
  {
    1 <= current <= 20 && (walk == [] || Stays(Stepped(current, walk[0]), walk[1..]))
  }

  function Stepped(current: int, down: bool): int
  {
    if down then current - 1 else current + 1
  }

  function Arrives(current: int, walk: seq<bool>): (length: nat)
    requires Stays(current, walk)
    ensures 1 <= length <= 20
    decreases |walk|
  {
    if walk == [] then current else Arrives(Stepped(current, walk[0]), walk[1..])
  }

  /** Two bits a step, a one and the direction, and a zero to stop. */
  function WalkBits(walk: seq<bool>): seq<bool>
  {
    if walk == [] then [false] else [true] + ([walk[0]] + WalkBits(walk[1..]))
  }

  lemma {:induction false} WalkBack(s: seq<bool>, at: nat, current: int, walk: seq<bool>)
    requires Stays(current, walk) && Has(s, at, WalkBits(walk))
    ensures ParseLength(s, at, current) == Parsed(Arrives(current, walk), at + |WalkBits(walk)|)
    decreases |walk|
  {
    hide Has;
    if walk == [] {
      BitOnly(s, at, false);
    } else {
      HasSplit(s, at, [true], [walk[0]] + WalkBits(walk[1..]));
      HasSplit(s, at + 1, [walk[0]], WalkBits(walk[1..]));
      BitOnly(s, at, true);
      BitOnly(s, at + 1, walk[0]);
      WalkBack(s, at + 2, Stepped(current, walk[0]), walk[1..]);
    }
  }

  lemma {:induction false} WalkOnly(s: seq<bool>, at: nat, current: int) returns (walk: seq<bool>)
    requires ParseLength(s, at, current).Parsed?
    ensures Stays(current, walk) && Arrives(current, walk) == ParseLength(s, at, current).value
    ensures Has(s, at, WalkBits(walk)) && ParseLength(s, at, current).at == at + |WalkBits(walk)|
    decreases |s| - at
  {
    hide Has;
    BitOnly(s, at, s[at]);
    if !s[at] {
      walk := [];
    } else {
      BitOnly(s, at + 1, s[at + 1]);
      var rest := WalkOnly(s, at + 2, Stepped(current, s[at + 1]));
      walk := [s[at + 1]] + rest;
      assert walk[1..] == rest;
      HasBoth(s, at + 1, [s[at + 1]], WalkBits(rest));
      HasBoth(s, at, [true], [s[at + 1]] + WalkBits(rest));
    }
  }

  /** The lengths of a table, each walked to from the one before. */
  predicate AllStay(current: int, walks: seq<seq<bool>>)
    decreases |walks|
  {
    walks == [] || (Stays(current, walks[0]) && AllStay(Arrives(current, walks[0]), walks[1..]))
  }

  function LengthsOf(current: int, walks: seq<seq<bool>>): (lens: seq<nat>)
    requires AllStay(current, walks)
    ensures |lens| == |walks|
    decreases |walks|
  {
    if walks == [] then [] else
      var l := Arrives(current, walks[0]);
      [l] + LengthsOf(l, walks[1..])
  }

  function WalksBits(walks: seq<seq<bool>>): seq<bool>
  {
    if walks == [] then [] else WalkBits(walks[0]) + WalksBits(walks[1..])
  }

  lemma {:induction false} WalksBack(s: seq<bool>, at: nat, current: int, walks: seq<seq<bool>>, done: seq<nat>)
    requires at <= |s| && AllStay(current, walks) && Has(s, at, WalksBits(walks))
    ensures ParseLengths(s, at, current, done, |walks|) == Parsed(done + LengthsOf(current, walks), at + |WalksBits(walks)|)
    decreases |walks|
  {
    hide Has, ParseLength, Stays, Arrives, WalkBits, ParseLengths;
    if walks == [] {
      ParseNoLengths(s, at, current, done);
      assert done + [] == done;
    } else {
      var l := Arrives(current, walks[0]);
      HasSplit(s, at, WalkBits(walks[0]), WalksBits(walks[1..]));
      HasEnd(s, at, WalkBits(walks[0]));
      WalkBack(s, at, current, walks[0]);
      ParseLengthStep(s, at, current, done, |walks|);
      WalksBack(s, at + |WalkBits(walks[0])|, l, walks[1..], done + [l]);
      Regroup(done, [l], LengthsOf(l, walks[1..]));
    }
  }

  lemma {:induction false} WalksOnly(s: seq<bool>, at: nat, current: int, done: seq<nat>, count: nat) returns (walks: seq<seq<bool>>)
    requires at <= |s| && ParseLengths(s, at, current, done, count).Parsed?
    ensures |walks| == count && AllStay(current, walks) && ParseLengths(s, at, current, done, count).value == done + LengthsOf(current, walks)
    ensures Has(s, at, WalksBits(walks)) && ParseLengths(s, at, current, done, count).at == at + |WalksBits(walks)|
    decreases count
  {
    hide ParseLength, Stays, Arrives, WalkBits, ParseLengths;
    if count == 0 {
      walks := [];
      ParseNoLengths(s, at, current, done);
      assert done + [] == done;
    } else {
      hide Has;
      ParseLengthStep(s, at, current, done, count);
      var l := ParseLength(s, at, current);
      var walk := WalkOnly(s, at, current);
      var rest := WalksOnly(s, l.at, l.value, done + [l.value], count - 1);
      walks := [walk] + rest;
      assert walks[1..] == rest;
      HasBoth(s, at, WalkBits(walk), WalksBits(rest));
      Regroup(done, [l.value], LengthsOf(l.value, rest));
    }
  }

  /** A table as sent: where the walks start, in five bits, and the walks. */
  datatype SentTable = SentTable(start: nat, walks: seq<seq<bool>>)
  {
    predicate Valid(alpha: nat) { start < 32 && |walks| == alpha && AllStay(start, walks) }

    function Lengths(): (lens: seq<nat>)
      requires AllStay(start, walks)
      ensures |lens| == |walks|
    {
      LengthsOf(start, walks)
    }

    function Bits(): seq<bool> { BitsOf(start, 5) + WalksBits(walks) }
  }

  lemma TableBack(s: seq<bool>, at: nat, t: SentTable, alpha: nat)
    requires t.Valid(alpha) && Has(s, at, t.Bits())
    ensures ParseTable(s, at, alpha) == Parsed(t.Lengths(), at + |t.Bits()|) && at + |t.Bits()| <= |s|
  {
    hide Has, AllStay, LengthsOf, WalksBits, ParseLengths, ReadBits, BitsOf;
    HasEnd(s, at, t.Bits());
    HasSplit(s, at, BitsOf(t.start, 5), WalksBits(t.walks));
    assert Pow2(5) == 32;
    ReadBack(s, at, t.start, 5);
    WalksBack(s, at + 5, t.start, t.walks, []);
    assert [] + t.Lengths() == t.Lengths();
  }

  lemma TableOnly(s: seq<bool>, at: nat, alpha: nat) returns (t: SentTable)
    requires ParseTable(s, at, alpha).Parsed?
    ensures t.Valid(alpha) && Has(s, at, t.Bits()) && ParseTable(s, at, alpha) == Parsed(t.Lengths(), at + |t.Bits()|)
  {
    hide Has, AllStay, LengthsOf, WalksBits, ParseLengths, ReadBits, BitsOf;
    var first := ReadBits(s, at, 5);
    BitsOnly(s, at, 5);
    assert Pow2(5) == 32;
    var walks := WalksOnly(s, first.at, first.value, [], alpha);
    t := SentTable(first.value, walks);
    assert [] + t.Lengths() == t.Lengths();
    HasBoth(s, at, BitsOf(t.start, 5), WalksBits(walks));
  }

  /** Tables that the decoder can build, one after another, with the code lengths `lens`. */
  ghost predicate TablesOf(tables: seq<SentTable>, alpha: nat, lens: seq<seq<nat>>)
  {
    && |tables| == |lens|
    && forall i :: 0 <= i < |tables| ==> TableOf(tables[i], alpha, lens[i])
  }

  ghost predicate TableOf(t: SentTable, alpha: nat, lens: seq<nat>)
  {
    t.Valid(alpha) && lens == t.Lengths() && Buildable(lens)
  }

  function AllTableBits(tables: seq<SentTable>): seq<bool>
  {
    if tables == [] then [] else tables[0].Bits() + AllTableBits(tables[1..])
  }

  lemma ParseTablesStep(s: seq<bool>, at: nat, alpha: nat, done: seq<seq<nat>>, count: nat)
    requires at <= |s| && count > 0
    ensures var t := ParseTable(s, at, alpha);
      ParseTables(s, at, alpha, done, count) ==
        if t.Failed? then Failed(t.error) else if !Buildable(t.value) then Failed(InvalidHuffman) else ParseTables(s, t.at, alpha, done + [t.value], count - 1)
  {
    hide ParseTable, Buildable;
  }

  lemma ParseNoTables(s: seq<bool>, at: nat, alpha: nat, done: seq<seq<nat>>)
    requires at <= |s|
    ensures ParseTables(s, at, alpha, done, 0) == Parsed(done, at)
  {
  }

  lemma {:induction false} TablesBack(s: seq<bool>, at: nat, alpha: nat, tables: seq<SentTable>, lens: seq<seq<nat>>, done: seq<seq<nat>>)
    requires at <= |s| && TablesOf(tables, alpha, lens) && Has(s, at, AllTableBits(tables))
    ensures ParseTables(s, at, alpha, done, |tables|) == Parsed(done + lens, at + |AllTableBits(tables)|)
    decreases |tables|
  {
    hide Has, TableOf, ParseTable, ParseTables, SentTable.Bits;
    if tables == [] {
      ParseNoTables(s, at, alpha, done);
      assert done + lens == done;
    } else {
      HasSplit(s, at, tables[0].Bits(), AllTableBits(tables[1..]));
      TableRead(s, at, tables[0], alpha, lens[0]);
      ParseTablesStep(s, at, alpha, done, |tables|);
      TablesBack(s, at + |tables[0].Bits()|, alpha, tables[1..], lens[1..], done + [lens[0]]);
      assert done + [lens[0]] + lens[1..] == done + lens;
    }
  }

  lemma TableRead(s: seq<bool>, at: nat, t: SentTable, alpha: nat, lens: seq<nat>)
    requires TableOf(t, alpha, lens) && Has(s, at, t.Bits())
    ensures ParseTable(s, at, alpha) == Parsed(lens, at + |t.Bits()|) && at + |t.Bits()| <= |s| && Buildable(lens)
  {
    hide Buildable, SentTable.Bits, SentTable.Valid, SentTable.Lengths;
    TableBack(s, at, t, alpha);
  }

  lemma {:induction false} TablesOnly(s: seq<bool>, at: nat, alpha: nat, done: seq<seq<nat>>, count: nat) returns (tables: seq<SentTable>, lens: seq<seq<nat>>)
    requires at <= |s| && ParseTables(s, at, alpha, done, count).Parsed?
    ensures |tables| == count && TablesOf(tables, alpha, lens) && ParseTables(s, at, alpha, done, count).value == done + lens
    ensures Has(s, at, AllTableBits(tables)) && ParseTables(s, at, alpha, done, count).at == at + |AllTableBits(tables)|
    decreases count
  {
    hide ParseTable, ParseTables, SentTable.Bits, SentTable.Lengths, SentTable.Valid, Buildable;
    if count == 0 {
      tables, lens := [], [];
      ParseNoTables(s, at, alpha, done);
      assert done + [] == done;
    } else {
      hide Has;
      ParseTablesStep(s, at, alpha, done, count);
      var first := ParseTable(s, at, alpha);
      var t := TableOnly(s, at, alpha);
      var rest, more := TablesOnly(s, first.at, alpha, done + [first.value], count - 1);
      tables, lens := [t] + rest, [first.value] + more;
      assert tables[1..] == rest;
      HasBoth(s, at, t.Bits(), AllTableBits(rest));
      Regroup(done, [first.value], more);
    }
  }

  // ----- Selectors -----

  ghost predicate Distinct<T(!new)>(list: seq<T>)
  {
    forall i, j :: 0 <= i < j < |list| ==> list[i] != list[j]
  }

  lemma MovedDistinct<T(!new)>(list: seq<T>, j: nat)
    requires j < |list| && Distinct(list)
    ensures Distinct(MoveFront(list, j))
  {
    var m := MoveFront(list, j);
    forall a, b | 0 <= a < b < |m| ensures m[a] != m[b] {
      var x, y := if a == 0 then j else if a <= j then a - 1 else a, if b <= j then b - 1 else b;
      assert m[a] == list[x] && m[b] == list[y] && x != y;
    }
  }

  lemma PlaceOf<T(!new)>(list: seq<T>, j: nat)
    requires j < |list| && Distinct(list)
    ensures PositionOf(list, list[j]) == j
  {
    PositionUnique(list, list[j], j);
  }

  lemma {:induction false} UnaryOnly(s: seq<bool>, at: nat, index: nat, n: nat)
    requires index < n && ParseUnary(s, at, index, n).Parsed?
    ensures var p := ParseUnary(s, at, index, n);
      index <= p.value < n && Has(s, at, Unary(p.value - index)) && p.at == at + |Unary(p.value - index)|
    decreases n - index
  {
    hide Has;
    BitOnly(s, at, s[at]);
    if s[at] {
      UnaryOnly(s, at + 1, index + 1, n);
      HasBoth(s, at, [true], Unary(ParseUnary(s, at, index, n).value - index - 1));
    }
  }

  /** Whatever is read as selectors names tables of the list, each by its place in it when last moved. */
  lemma {:induction false} SelectorsOnly(s: seq<bool>, at: nat, list: seq<nat>, done: seq<nat>, count: nat) returns (selectors: seq<nat>)
    requires at <= |s| && list != [] && Distinct(list) && ParseSelectors(s, at, list, done, count).Parsed?
    ensures |selectors| == count && Known(list, selectors) && ParseSelectors(s, at, list, done, count).value == done + selectors
    ensures Has(s, at, SelectorBits(list, selectors)) && ParseSelectors(s, at, list, done, count).at == at + |SelectorBits(list, selectors)|
    decreases count
  {
    hide ParseUnary, PositionOf, MoveFront, ParseSelectors, Unary, Distinct;
    if count == 0 {
      selectors := [];
      ParseNothing(s, at, list, done);
      assert done + [] == done;
    } else {
      hide Has, SelectorBits;
      ParseStep(s, at, list, done, count);
      var j := ParseUnary(s, at, 0, |list|);
      UnaryOnly(s, at, 0, |list|);
      MovedDistinct(list, j.value);
      PlaceOf(list, j.value);
      Moved(list, j.value);
      var rest := SelectorsOnly(s, j.at, MoveFront(list, j.value), done + [list[j.value]], count - 1);
      selectors := [list[j.value]] + rest;
      assert selectors[0..] == selectors && selectors[1..] == rest;
      SelectorStep(list, selectors, 0);
      HasBoth(s, at, Unary(j.value), SelectorBits(MoveFront(list, j.value), rest));
      Regroup(done, [list[j.value]], rest);
    }
  }
}
