/** The code length tables of a bzip2 block: each length is walked to from the one before. */
module CodeLengths {
  import opened Seqs
  import opened Sums
  import opened BitStream
  import opened BitReading
  import opened BitWriting
  import opened Canonical
  import opened Huffman
  import opened MoveToFront

  // ----- Written form -----

  /** One up is `10`, one down is `11`, and `0` ends the walk. */
  function Steps(current: nat, target: nat): (b: seq<bool>)
    decreases if current < target then target - current else current - target
  {
    if current < target then [true, false] + Steps(current + 1, target)
    else if current > target then [true, true] + Steps(current - 1, target)
    else [false]
  }

  function LengthBits(current: nat, lens: seq<nat>): seq<bool>
    decreases lens
  {
    if lens == [] then [] else Steps(current, lens[0]) + LengthBits(lens[0], lens[1..])
  }

  function TableBits(lens: seq<nat>): seq<bool>
    requires lens != []
  {
    BitsOf(lens[0], 5) + LengthBits(lens[0], lens)
  }

  predicate NoneEmpty(tables: seq<seq<nat>>)
  {
    forall i :: 0 <= i < |tables| ==> tables[i] != []
  }

  function TablesBits(tables: seq<seq<nat>>): seq<bool>
    requires NoneEmpty(tables)
  {
    if tables == [] then [] else TableBits(tables[0]) + TablesBits(tables[1..])
  }

  // ----- Parsed form -----

  function ParseLength(s: seq<bool>, at: nat, current: int): (p: Parse<nat>)
    ensures p.Parsed? ==> at < p.at <= |s| && 1 <= p.value <= MAX_CODE_LEN
    decreases |s| - at
  {
    if !(1 <= current <= MAX_CODE_LEN) then Failed(InvalidHuffman) else
      var more := ReadBit(s, at);
      if more.Failed? then Failed(more.error)
      else if !more.value then Parsed(current, more.at) else
        var down := ReadBit(s, more.at);
        if down.Failed? then Failed(down.error)
        else ParseLength(s, down.at, current + if down.value then -1 else 1)
  }

  function ParseLengths(s: seq<bool>, at: nat, current: int, done: seq<nat>, count: nat): (p: Parse<seq<nat>>)
    requires at <= |s|
    ensures p.Parsed? ==> |p.value| == |done| + count && at <= p.at <= |s|
    decreases count
  {
    if count == 0 then Parsed(done, at) else
      var l := ParseLength(s, at, current);
      if l.Failed? then Failed(l.error)
      else ParseLengths(s, l.at, l.value, done + [l.value], count - 1)
  }

  function ParseTable(s: seq<bool>, at: nat, alpha: nat): (p: Parse<seq<nat>>)
    ensures p.Parsed? ==> |p.value| == alpha && at <= p.at <= |s|
  {
    var first := ReadBits(s, at, 5);
    if first.Failed? then Failed(first.error)
    else ParseLengths(s, first.at, first.value, [], alpha)
  }

  /** What the table builder accepts. */
  ghost predicate Buildable(lens: seq<nat>)
  {
    lens != [] && (forall i :: 0 <= i < |lens| ==> 1 <= lens[i] <= MAX_CODE_LEN) && Fits(lens, MAX_CODE_LEN)
  }

  ghost function ParseTables(s: seq<bool>, at: nat, alpha: nat, done: seq<seq<nat>>, count: nat): (p: Parse<seq<seq<nat>>>)
    requires at <= |s|
    ensures p.Parsed? ==> |p.value| == |done| + count && at <= p.at <= |s|
    decreases count
  {
    if count == 0 then Parsed(done, at) else
      var t := ParseTable(s, at, alpha);
      if t.Failed? then Failed(t.error)
      else if !Buildable(t.value) then Failed(InvalidHuffman)
      else ParseTables(s, t.at, alpha, done + [t.value], count - 1)
  }

  // ----- Round trip -----

  lemma {:induction false} StepsRoundTrip(s: seq<bool>, at: nat, current: nat, target: nat)
    requires 1 <= current <= MAX_CODE_LEN && 1 <= target <= MAX_CODE_LEN && Has(s, at, Steps(current, target))
    ensures ParseLength(s, at, current) == Parsed(target, at + |Steps(current, target)|)
    decreases if current < target then target - current else current - target
  {
    if current == target {
      assert s[at..at + 1][0] == s[at];
    } else {
      var down := current > target;
      var next := if down then current - 1 else current + 1;
      HasSplit(s, at, [true, down], Steps(next, target));
      assert s[at..at + 2][0] == s[at] && s[at..at + 2][1] == s[at + 1];
      StepsRoundTrip(s, at + 2, next, target);
    }
  }

  lemma LengthStep(current: nat, lens: seq<nat>, k: nat)
    requires k < |lens|
    ensures LengthBits(current, lens[k..]) == Steps(current, lens[k]) + LengthBits(lens[k], lens[k + 1..])
  {
    hide Steps;
    assert lens[k..][0] == lens[k] && lens[k..][1..] == lens[k + 1..];
  }

  lemma NoLengths(current: nat)
    ensures LengthBits(current, []) == []
  {
  }

  lemma ParseLengthStep(s: seq<bool>, at: nat, current: int, done: seq<nat>, count: nat)
    requires at <= |s| && count > 0
    ensures var l := ParseLength(s, at, current);
            ParseLengths(s, at, current, done, count) ==
            if l.Failed? then Failed(l.error) else ParseLengths(s, l.at, l.value, done + [l.value], count - 1)
  {
    hide ParseLength;
  }

  lemma ParseNoLengths(s: seq<bool>, at: nat, current: int, done: seq<nat>)
    requires at <= |s|
    ensures ParseLengths(s, at, current, done, 0) == Parsed(done, at)
  {
  }

  predicate InRange(lens: seq<nat>)
  {
    forall i :: 0 <= i < |lens| ==> 1 <= lens[i] <= MAX_CODE_LEN
  }

  lemma {:induction false} LengthsRoundTrip(s: seq<bool>, at: nat, current: nat, lens: seq<nat>, k: nat, bits: seq<bool>)
    requires InRange(lens) && 1 <= current <= MAX_CODE_LEN && k <= |lens|
    requires bits == LengthBits(current, lens[k..]) && Has(s, at, bits)
    ensures ParseLengths(s, at, current, lens[..k], |lens| - k) == Parsed(lens, at + |bits|)
    decreases |lens| - k
  {
    hide Steps, LengthBits, ParseLength, ParseLengths;
    if k == |lens| {
      assert lens[..k] == lens && lens[k..] == [];
      NoLengths(current);
      ParseNoLengths(s, at, current, lens);
    } else {
      LengthStep(current, lens, k);
      var after := LengthBits(lens[k], lens[k + 1..]);
      HasSplit(s, at, Steps(current, lens[k]), after);
      StepsRoundTrip(s, at, current, lens[k]);
      ParseLengthStep(s, at, current, lens[..k], |lens| - k);
      assert lens[..k] + [lens[k]] == lens[..k + 1];
      LengthsRoundTrip(s, at + |Steps(current, lens[k])|, lens[k], lens, k + 1, after);
    }
  }

  lemma TableRoundTrip(s: seq<bool>, at: nat, lens: seq<nat>)
    requires InRange(lens) && lens != [] && Has(s, at, TableBits(lens))
    ensures ParseTable(s, at, |lens|) == Parsed(lens, at + |TableBits(lens)|)
  {
    hide LengthBits, BitsOf, ParseLengths;
    HasSplit(s, at, BitsOf(lens[0], 5), LengthBits(lens[0], lens));
    assert Pow2(5) == 32;
    ReadBack(s, at, lens[0], 5);
    assert lens[0..] == lens && lens[..0] == [];
    LengthsRoundTrip(s, at + 5, lens[0], lens, 0, LengthBits(lens[0], lens));
  }

  lemma TablesStep(tables: seq<seq<nat>>, k: nat)
    requires k < |tables| && NoneEmpty(tables)
    ensures TablesBits(tables[k..]) == TableBits(tables[k]) + TablesBits(tables[k + 1..])
  {
    hide TableBits;
    assert tables[k..][0] == tables[k] && tables[k..][1..] == tables[k + 1..];
  }

  lemma NoTables()
    ensures TablesBits([]) == []
  {
  }

  lemma ParseTablesStep(s: seq<bool>, at: nat, alpha: nat, done: seq<seq<nat>>, count: nat)
    requires at <= |s| && count > 0
    ensures var t := ParseTable(s, at, alpha);
            ParseTables(s, at, alpha, done, count) ==
            if t.Failed? then Failed(t.error) else if !Buildable(t.value) then Failed(InvalidHuffman)
            else ParseTables(s, t.at, alpha, done + [t.value], count - 1)
  {
    hide ParseTable, Buildable;
  }

  lemma ParseNoTables(s: seq<bool>, at: nat, alpha: nat, done: seq<seq<nat>>)
    requires at <= |s|
    ensures ParseTables(s, at, alpha, done, 0) == Parsed(done, at)
  {
  }

  /** Tables of `alpha` lengths each that a decoder can build. */
  ghost predicate Usable(tables: seq<seq<nat>>, alpha: nat)
  {
    forall i :: 0 <= i < |tables| ==> |tables[i]| == alpha && Buildable(tables[i])
  }

  lemma {:induction false} TablesRoundTrip(s: seq<bool>, at: nat, tables: seq<seq<nat>>, alpha: nat, k: nat, bits: seq<bool>)
    requires Usable(tables, alpha) && k <= |tables| && bits == TablesBits(tables[k..]) && Has(s, at, bits)
    ensures ParseTables(s, at, alpha, tables[..k], |tables| - k) == Parsed(tables, at + |bits|)
    decreases |tables| - k
  {
    hide TableBits, TablesBits, ParseTable, ParseTables, Fits;
    if k == |tables| {
      assert tables[..k] == tables && tables[k..] == [];
      NoTables();
      ParseNoTables(s, at, alpha, tables);
    } else {
      TablesStep(tables, k);
      var after := TablesBits(tables[k + 1..]);
      HasSplit(s, at, TableBits(tables[k]), after);
      TableRoundTrip(s, at, tables[k]);
      ParseTablesStep(s, at, alpha, tables[..k], |tables| - k);
      assert tables[..k] + [tables[k]] == tables[..k + 1];
      TablesRoundTrip(s, at + |TableBits(tables[k])|, tables, alpha, k + 1, after);
    }
  }

  // ----- The writer -----

  method WriteLength(w: BitWriter, current: nat, target: nat)
    requires w.Valid()
    modifies w
    ensures w.Valid() && w.Written() == old(w.Written()) + Steps(current, target)
  {
    hide BitWriter.Written, BitsOf;
    ghost var whole := w.Written() + Steps(current, target);
    TwoBits();
    var curr := current;
    while curr < target
      invariant w.Valid() && (curr <= target || curr == current) && w.Written() + Steps(curr, target) == whole
    {
      Regroup(w.Written(), [true, false], Steps(curr + 1, target));
      w.WriteBits(2, 2);
      curr := curr + 1;
    }
    while curr > target
      invariant w.Valid() && curr >= target && w.Written() + Steps(curr, target) == whole
    {
      Regroup(w.Written(), [true, true], Steps(curr - 1, target));
      w.WriteBits(2, 3);
      curr := curr - 1;
    }
    w.WriteBit(0);
  }

  lemma TwoBits()
    ensures BitsOf(2, 2) == [true, false] && BitsOf(3, 2) == [true, true]
  {
  }

  method WriteTable(w: BitWriter, table: seq<nat>)
    requires w.Valid() && table != []
    modifies w
    ensures w.Valid() && w.Written() == old(w.Written()) + TableBits(table)
  {
    hide BitWriter.Written, BitsOf, Steps, LengthBits;
    var curr := table[0];
    ghost var whole := w.Written() + TableBits(table);
    Regroup(w.Written(), BitsOf(curr, 5), LengthBits(curr, table));
    w.WriteBits(5, curr);
    assert table[0..] == table;
    for k := 0 to |table|
      invariant w.Valid() && w.Written() + LengthBits(curr, table[k..]) == whole
    {
      LengthStep(curr, table, k);
      Regroup(w.Written(), Steps(curr, table[k]), LengthBits(table[k], table[k + 1..]));
      WriteLength(w, curr, table[k]);
      curr := table[k];
    }
    assert table[|table|..] == [];
    NoLengths(curr);
  }

  method WriteTables(w: BitWriter, tables: seq<seq<nat>>)
    requires w.Valid() && NoneEmpty(tables)
    modifies w
    ensures w.Valid() && w.Written() == old(w.Written()) + TablesBits(tables)
  {
    hide BitWriter.Written, TableBits, TablesBits;
    ghost var whole := w.Written() + TablesBits(tables);
    assert tables[0..] == tables;
    for k := 0 to |tables|
      invariant w.Valid() && w.Written() + TablesBits(tables[k..]) == whole
    {
      TablesStep(tables, k);
      Regroup(w.Written(), TableBits(tables[k]), TablesBits(tables[k + 1..]));
      WriteTable(w, tables[k]);
    }
    NoTables();
  }

  // ----- The reader -----

  method ReadLength(bits: Bits, start: int) returns (r: Result<nat>)
    requires bits.Valid()
    modifies bits
    ensures bits.Valid() && Follows(r, bits.bit, ParseLength(bits.All(), old(bits.bit), start))
  {
    var current := start;
    while true
      invariant bits.Valid()
      invariant ParseLength(bits.All(), bits.bit, current) == ParseLength(bits.All(), old(bits.bit), start)
      decreases |bits.All()| - bits.bit
    {
      if !(1 <= current <= MAX_CODE_LEN) {
        return Err(InvalidHuffman);
      }
      var more := bits.Bit();
      if more.Err? {
        return Err(more.error);
      }
      if !more.value {
        return Ok(current);
      }
      var down := bits.Bit();
      if down.Err? {
        return Err(down.error);
      }
      current := current + if down.value then -1 else 1;
    }
  }

  method ReadTable(bits: Bits, alpha: nat) returns (r: Result<seq<nat>>)
    requires bits.Valid()
    modifies bits
    ensures bits.Valid() && Follows(r, bits.bit, ParseTable(bits.All(), old(bits.bit), alpha))
  {
    hide ParseLength, ParseLengths, ReadBits;
    var first := bits.Read(5);
    if first.Err? {
      return Err(first.error);
    }
    var current := first.value;
    var lengths := [];
    ghost var start := bits.bit;
    for k := 0 to alpha
      invariant bits.Valid()
      invariant ParseLengths(bits.All(), bits.bit, current, lengths, alpha - k) == ParseTable(bits.All(), old(bits.bit), alpha)
    {
      ParseLengthStep(bits.All(), bits.bit, current, lengths, alpha - k);
      var length := ReadLength(bits, current);
      if length.Err? {
        return Err(length.error);
      }
      lengths := lengths + [length.value];
      current := length.value;
    }
    ParseNoLengths(bits.All(), bits.bit, current, lengths);
    r := Ok(lengths);
  }

  /** Every table decodes the code of its lengths, up to its longest length. */
  ghost predicate TablesFor(lens: seq<seq<nat>>, tables: seq<Table>)
  {
    |tables| == |lens| && forall i :: 0 <= i < |tables| ==> Decodes(lens[i], tables[i]) && tables[i].maxLen in lens[i]
  }

  method ReadTables(bits: Bits, count: nat, alpha: nat) returns (r: Result<seq<Table>>, ghost lens: seq<seq<nat>>)
    requires bits.Valid() && alpha < 65536
    modifies bits
    ensures bits.Valid()
    ensures match ParseTables(bits.All(), old(bits.bit), alpha, [], count)
            case Parsed(ls, at) => r.Ok? && lens == ls && TablesFor(ls, r.value) && bits.bit == at
            case Failed(e) => r == Err(e)
  {
    hide ParseTable, ParseTables, Decodes, Fits;
    var tables := [];
    lens := [];
    for k := 0 to count
      invariant bits.Valid() && TablesFor(lens, tables)
      invariant ParseTables(bits.All(), bits.bit, alpha, lens, count - k) == ParseTables(bits.All(), old(bits.bit), alpha, [], count)
    {
      ParseTablesStep(bits.All(), bits.bit, alpha, lens, count - k);
      var lengths := ReadTable(bits, alpha);
      if lengths.Err? {
        return Err(lengths.error), lens;
      }
      var table := Build(lengths.value);
      if table.Err? {
        return Err(table.error), lens;
      }
      tables := tables + [table.value];
      lens := lens + [lengths.value];
    }
    ParseNoTables(bits.All(), bits.bit, alpha, lens);
    r := Ok(tables);
  }
}
