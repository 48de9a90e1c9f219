/** The first run-length stage: groups of equal bytes, and the decoder's expansion of them. */
module Rle1 {
  import opened Bytes
  import opened BitReading
  import opened Options

  /** Four literals plus 255 extra. */
  const MAX_RUN: nat := 259

  datatype Group = Group(byte: Byte, rawLen: nat)

  predicate Sound(g: Group)
  {
    1 <= g.rawLen <= 259
  }

  function EncodedLen(g: Group): nat
  {
    if g.rawLen >= 4 then 5 else g.rawLen
  }

  function Encoded(g: Group): (e: seq<Byte>)
    requires Sound(g)
    ensures |e| == EncodedLen(g)
  {
    if g.rawLen >= 4 then [g.byte, g.byte, g.byte, g.byte, g.rawLen - 4] else Repeat(g.byte, g.rawLen)
  }

  /** Neighbouring groups of the same byte are possible only where a run was cut at its longest. */
  predicate MayFollow(g: Group, h: Group)
  {
    g.byte != h.byte || g.rawLen == 259
  }

  ghost predicate Chain(gs: seq<Group>)
  {
    (forall i :: 0 <= i < |gs| ==> Sound(gs[i])) && forall i, j :: 0 <= i && j == i + 1 < |gs| ==> MayFollow(gs[i], gs[j])
  }

  function Rle(gs: seq<Group>): seq<Byte>
    requires forall i :: 0 <= i < |gs| ==> Sound(gs[i])
  {
    if gs == [] then [] else Rle(gs[..|gs| - 1]) + Encoded(gs[|gs| - 1])
  }

  function Raw(gs: seq<Group>): seq<Byte>
  {
    if gs == [] then [] else Raw(gs[..|gs| - 1]) + Repeat(gs[|gs| - 1].byte, gs[|gs| - 1].rawLen)
  }

  // ----- Expansion -----

  /** The byte last seen and how often in a row; after four the next byte is a count. */
  datatype Tail = Tail(previous: Option<Byte>, repeated: nat)
  {
    predicate Valid() { repeated <= 4 && (repeated > 0 ==> previous.Some?) }
  }

  const FRESH: Tail := Tail(None, 0)

  function Emit(t: Tail, byte: Byte): seq<Byte>
    requires t.Valid()
  {
    if t.repeated == 4 then Repeat(t.previous.value, byte) else [byte]
  }

  function After(t: Tail, byte: Byte): (u: Tail)
    requires t.Valid()
    ensures u.Valid()
  {
    if t.repeated == 4 then FRESH
    else if t.previous == Some(byte) then Tail(t.previous, t.repeated + 1)
    else Tail(Some(byte), 1)
  }

  function Expand(bytes: seq<Byte>, t: Tail): seq<Byte>
    requires t.Valid()
    decreases bytes
  {
    if bytes == [] then [] else Emit(t, bytes[0]) + Expand(bytes[1..], After(t, bytes[0]))
  }

  /** The plain bytes of a block. */
  function Plain(block: seq<Byte>): seq<Byte>
  {
    Expand(block, FRESH)
  }

  /** The state after a whole sequence. */
  function Final(bytes: seq<Byte>, t: Tail): (u: Tail)
    requires t.Valid()
    ensures u.Valid()
    decreases bytes
  {
    if bytes == [] then t else Final(bytes[1..], After(t, bytes[0]))
  }

  /** Expansion as the decoder runs it, with its output limit. */
  function Checked(bytes: seq<Byte>, t: Tail, out: seq<Byte>, limit: nat): Result<seq<Byte>>
    requires t.Valid()
    decreases bytes
  {
    if bytes == [] then Ok(out)
    else if t.repeated == 4 && |out| + bytes[0] > limit then Err(BlockOverflow)
    else if t.repeated != 4 && |out| == limit then Err(BlockOverflow)
    else Checked(bytes[1..], After(t, bytes[0]), out + Emit(t, bytes[0]), limit)
  }

  lemma {:induction false} ExpandAppend(a: seq<Byte>, b: seq<Byte>, t: Tail)
    requires t.Valid()
    ensures Expand(a + b, t) == Expand(a, t) + Expand(b, Final(a, t))
    ensures Final(a + b, t) == Final(b, Final(a, t))
    decreases a
  {
    hide Emit, After;
    if a == [] {
      assert a + b == b;
    } else {
      assert (a + b)[1..] == a[1..] + b;
      ExpandAppend(a[1..], b, After(t, a[0]));
    }
  }

  /** A group expands to its run unless the bytes before it run into it. */
  lemma ExpandGroup(g: Group, t: Tail)
    requires Sound(g) && t.Valid() && t.repeated < 4 && t.previous != Some(g.byte)
    ensures Expand(Encoded(g), t) == Repeat(g.byte, g.rawLen)
    ensures Final(Encoded(g), t) == if g.rawLen >= 4 then FRESH else Tail(Some(g.byte), g.rawLen)
  {
    var b := g.byte;
    if g.rawLen >= 4 {
      var e := Encoded(g);
      assert e[1..] == [b, b, b, g.rawLen - 4] && e[1..][1..] == [b, b, g.rawLen - 4];
      assert e[1..][1..][1..] == [b, g.rawLen - 4] && e[1..][1..][1..][1..] == [g.rawLen - 4];
      assert [g.rawLen - 4][1..] == [];
      FourAndCount(b, g.rawLen - 4, t);
      assert [b, b, b, b] + Repeat(b, g.rawLen - 4) == Repeat(b, g.rawLen);
    } else {
      Few(b, g.rawLen, t);
    }
  }

  lemma FourAndCount(b: Byte, extra: Byte, t: Tail)
    requires t.Valid() && t.repeated < 4 && t.previous != Some(b)
    ensures Expand([b, b, b, b, extra], t) == [b, b, b, b] + Repeat(b, extra)
    ensures Final([b, b, b, b, extra], t) == FRESH
  {
    hide Expand, Final;
    ExpandNothing(t);
    ExpandPush([], b, t);
    ExpandPush([b], b, t);
    ExpandPush([b, b], b, t);
    ExpandPush([b, b, b], b, t);
    ExpandPush([b, b, b, b], extra, t);
    assert [] + [b] == [b] && [b] + [b] == [b, b] && [b, b] + [b] == [b, b, b];
    assert [b, b, b] + [b] == [b, b, b, b] && [b, b, b, b] + [extra] == [b, b, b, b, extra];
  }

  lemma Few(b: Byte, n: nat, t: Tail)
    requires t.Valid() && t.repeated < 4 && t.previous != Some(b) && 1 <= n <= 3
    ensures Expand(Repeat(b, n), t) == Repeat(b, n) && Final(Repeat(b, n), t) == Tail(Some(b), n)
  {
    hide Expand, Final;
    ExpandNothing(t);
    ExpandPush([], b, t);
    ExpandPush([b], b, t);
    ExpandPush([b, b], b, t);
    assert [] + [b] == [b] == Repeat(b, 1) && [b] + [b] == [b, b] == Repeat(b, 2) && [b, b] + [b] == [b, b, b] == Repeat(b, 3);
  }

  lemma ExpandPush(a: seq<Byte>, b: Byte, t: Tail)
    requires t.Valid()
    ensures Expand(a + [b], t) == Expand(a, t) + Emit(Final(a, t), b)
    ensures Final(a + [b], t) == After(Final(a, t), b)
  {
    hide Emit, After;
    ExpandAppend(a, [b], t);
    ExpandOne(b, Final(a, t));
  }

  lemma ExpandOne(b: Byte, t: Tail)
    requires t.Valid()
    ensures Expand([b], t) == Emit(t, b) && Final([b], t) == After(t, b)
  {
    assert [b][1..] == [];
    assert Emit(t, b) + [] == Emit(t, b);
  }

  /** The state in which a chain of groups leaves the decoder. */
  ghost predicate Left(gs: seq<Group>, t: Tail)
  {
    if gs == [] then t == FRESH else
      var g := gs[|gs| - 1];
      t == if g.rawLen >= 4 then FRESH else Tail(Some(g.byte), g.rawLen)
  }

  /** Expanding the groups of a block gives its plain bytes. */
  lemma ExpandChain(gs: seq<Group>)
    requires Chain(gs)
    ensures Plain(Rle(gs)) == Raw(gs) && Left(gs, Final(Rle(gs), FRESH))
  {
    hide Left, Rle, Raw, Plain, Final;
    forall i, j | 0 <= i && j == i + 1 < |gs| ensures MayMeet(gs[i], gs[j]) {
      assert MayFollow(gs[i], gs[j]);
    }
    ExpandGroups(gs);
  }

  /** A run that has its count is over, whatever follows it. */
  predicate MayMeet(g: Group, h: Group)
  {
    g.byte != h.byte || g.rawLen >= 4
  }

  ghost predicate Grouped(gs: seq<Group>)
  {
    (forall i :: 0 <= i < |gs| ==> Sound(gs[i])) && forall i, j :: 0 <= i && j == i + 1 < |gs| ==> MayMeet(gs[i], gs[j])
  }

  lemma {:induction false} ExpandGroups(gs: seq<Group>)
    requires Grouped(gs)
    ensures Plain(Rle(gs)) == Raw(gs) && Left(gs, Final(Rle(gs), FRESH))
  {
    hide Expand, Final, Encoded;
    if gs == [] {
      ExpandNothing(FRESH);
    } else {
      var n := |gs| - 1;
      ExpandGroups(gs[..n]);
      assert n > 0 ==> MayMeet(gs[n - 1], gs[n]);
      var t := Final(Rle(gs[..n]), FRESH);
      ExpandAppend(Rle(gs[..n]), Encoded(gs[n]), FRESH);
      ExpandGroup(gs[n], t);
    }
  }

  lemma ExpandNothing(t: Tail)
    requires t.Valid()
    ensures Expand([], t) == [] && Final([], t) == t
  {
  }

  /** Four equal bytes whose count is missing at the end of a block. */
  function Quad(open: Option<Byte>): seq<Byte>
  {
    if open.Some? then Repeat(open.value, 4) else []
  }

  /** The groups and the open run of a block, and where they leave the decoder. */
  ghost predicate Cut(block: seq<Byte>, gs: seq<Group>, open: Option<Byte>)
  {
    && Grouped(gs) && block == Rle(gs) + Quad(open)
    && if open.None? then Left(gs, Final(block, FRESH))
       else Final(block, FRESH) == Tail(open, 4) && (gs != [] ==> MayMeet(gs[|gs| - 1], Group(open.value, 4)))
  }

  lemma GroupedPush(gs: seq<Group>, g: Group)
    requires Grouped(gs) && Sound(g) && (gs != [] ==> MayMeet(gs[|gs| - 1], g))
    ensures Grouped(gs + [g]) && Rle(gs + [g]) == Rle(gs) + Encoded(g) && Raw(gs + [g]) == Raw(gs) + Repeat(g.byte, g.rawLen)
    ensures Left(gs + [g], if g.rawLen >= 4 then FRESH else Tail(Some(g.byte), g.rawLen))
  {
    hide Rle, Raw, Encoded, Grouped;
    GroupedWith(gs, g);
    PushedGroup(gs, g);
  }

  lemma GroupedWith(gs: seq<Group>, g: Group)
    requires Grouped(gs) && Sound(g) && (gs != [] ==> MayMeet(gs[|gs| - 1], g))
    ensures Grouped(gs + [g]) && forall i :: 0 <= i < |gs + [g]| ==> Sound((gs + [g])[i])
  {
    hide MayMeet, Sound;
    var more := gs + [g];
    forall i | 0 <= i < |more| ensures Sound(more[i]) {
      if i < |gs| {
        assert Sound(gs[i]);
      }
    }
    forall i, j | 0 <= i && j == i + 1 < |more| ensures MayMeet(more[i], more[j]) {
      if j < |gs| {
        assert MayMeet(gs[i], gs[j]);
      }
    }
  }

  lemma GroupedSound(gs: seq<Group>)
    requires Grouped(gs)
    ensures forall i :: 0 <= i < |gs| ==> Sound(gs[i])
  {
  }

  lemma PushedGroup(gs: seq<Group>, g: Group)
    requires forall i :: 0 <= i < |gs + [g]| ==> Sound((gs + [g])[i])
    ensures (forall i :: 0 <= i < |gs| ==> Sound(gs[i])) && Sound(g)
    ensures Rle(gs + [g]) == Rle(gs) + Encoded(g) && Raw(gs + [g]) == Raw(gs) + Repeat(g.byte, g.rawLen)
  {
    hide Encoded, Sound;
    var more := gs + [g];
    assert more[..|gs|] == gs && more[|gs|] == g;
    forall i | 0 <= i < |gs| ensures Sound(gs[i]) { assert Sound(more[i]); }
  }

  lemma GroupedPop(gs: seq<Group>)
    requires Grouped(gs) && gs != []
    ensures var n := |gs| - 1; Grouped(gs[..n]) && Sound(gs[n]) && (n > 0 ==> MayMeet(gs[n - 1], gs[n]))
    ensures var n := |gs| - 1; Rle(gs) == Rle(gs[..n]) + Encoded(gs[n]) && Raw(gs) == Raw(gs[..n]) + Repeat(gs[n].byte, gs[n].rawLen)
  {
    hide Encoded;
  }

  /** The missing count comes. */
  lemma CutCounted(block: seq<Byte>, gs: seq<Group>, open: Option<Byte>, b: Byte)
    requires Cut(block, gs, open) && open.Some?
    ensures var more := gs + [Group(open.value, 4 + b)];
      Cut(block + [b], more, None) && Raw(more) + [] == Raw(gs) + Quad(open) + Emit(Final(block, FRESH), b)
  {
    hide Rle, Raw, Grouped, Expand, Final;
    ExpandPush(block, b, FRESH);
    GroupedPush(gs, Group(open.value, 4 + b));
    CountedRun(open.value, b);
    GroupedSound(gs);
    assert Rle(gs) + Quad(open) + [b] == Rle(gs) + (Quad(open) + [b]);
  }

  lemma CountedRun(q: Byte, b: Byte)
    ensures Encoded(Group(q, 4 + b)) == Repeat(q, 4) + [b] && Repeat(q, 4) + Repeat(q, b) == Repeat(q, 4 + b)
  {
  }

  /** A run grows; at four its count is due. */
  lemma CutLonger(block: seq<Byte>, gs: seq<Group>, b: Byte) returns (more: seq<Group>, open: Option<Byte>)
    requires Cut(block, gs, None) && gs != [] && gs[|gs| - 1].byte == b && gs[|gs| - 1].rawLen < 4
    ensures Cut(block + [b], more, open) && Raw(more) + Quad(open) == Raw(gs) + Emit(Final(block, FRESH), b)
  {
    hide Rle, Raw, Grouped, Expand, Final;
    ExpandPush(block, b, FRESH);
    var n, len := |gs| - 1, gs[|gs| - 1].rawLen;
    GroupedPop(gs);
    RunLonger(b, len);
    assert gs[n] == Group(b, len);
    if len == 3 {
      more, open := gs[..n], Some(b);
    } else {
      GroupedPush(gs[..n], Group(b, len + 1));
      more, open := gs[..n] + [Group(b, len + 1)], None;
    }
  }

  lemma RunLonger(b: Byte, len: nat)
    requires 1 <= len < 4
    ensures Encoded(Group(b, len)) == Repeat(b, len) && Repeat(b, len) + [b] == Repeat(b, len + 1)
  {
  }

  /** A new group starts. */
  lemma CutNew(block: seq<Byte>, gs: seq<Group>, b: Byte)
    requires Cut(block, gs, None) && (gs != [] ==> gs[|gs| - 1].byte != b || gs[|gs| - 1].rawLen >= 4)
    ensures var more := gs + [Group(b, 1)];
      Cut(block + [b], more, None) && Raw(more) + [] == Raw(gs) + Emit(Final(block, FRESH), b)
  {
    hide Rle, Raw, Grouped, Expand, Final;
    ExpandPush(block, b, FRESH);
    GroupedPush(gs, Group(b, 1));
    assert Encoded(Group(b, 1)) == [b] == Repeat(b, 1);
  }

  /** One more byte: it counts an open run, lengthens the last group, opens a run or starts a group. */
  lemma CutMore(block: seq<Byte>, gs: seq<Group>, open: Option<Byte>, b: Byte) returns (gs': seq<Group>, open': Option<Byte>)
    requires Cut(block, gs, open)
    ensures Cut(block + [b], gs', open') && Raw(gs') + Quad(open') == Raw(gs) + Quad(open) + Emit(Final(block, FRESH), b)
  {
    hide Cut, Raw, Emit, Final;
    assert Raw(gs) + [] == Raw(gs);
    if open.Some? {
      CutCounted(block, gs, open, b);
      gs', open' := gs + [Group(open.value, 4 + b)], None;
    } else if gs != [] && gs[|gs| - 1].byte == b && gs[|gs| - 1].rawLen < 4 {
      gs', open' := CutLonger(block, gs, b);
    } else {
      CutNew(block, gs, b);
      gs', open' := gs + [Group(b, 1)], None;
    }
  }

  /** Every byte string is groups and perhaps an open run, and expands to what they stand for. */
  lemma ExpandAll(block: seq<Byte>) returns (gs: seq<Group>, open: Option<Byte>)
    ensures Grouped(gs) && block == Rle(gs) + Quad(open) && (open.Some? && gs != [] ==> MayMeet(gs[|gs| - 1], Group(open.value, 4)))
    ensures Plain(block) == Raw(gs) + Quad(open)
  {
    gs, open := CutAll(block);
  }

  lemma {:induction false} CutAll(block: seq<Byte>) returns (gs: seq<Group>, open: Option<Byte>)
    ensures Cut(block, gs, open) && Plain(block) == Raw(gs) + Quad(open)
  {
    if block == [] {
      gs, open := [], None;
    } else {
      hide Cut, Raw, Quad, Expand, Emit, Final;
      var n := |block| - 1;
      var before, was := CutAll(block[..n]);
      gs, open := CutMore(block[..n], before, was, block[n]);
      assert block == block[..n] + [block[n]];
      ExpandPush(block[..n], block[n], FRESH);
    }
  }

  // ----- The output limit -----

  /** The most that `n` bytes can expand to. */
  function Most(n: nat): nat
  {
    n / 5 * 259 + n % 5
  }

  lemma MostGrows(n: nat, r: nat)
    requires r <= 4
    ensures Most(n) + r <= Most(n + r) && Most(r) == r && Most(n + 5) == Most(n) + 259
  {
    assert (n + 5) / 5 == n / 5 + 1 && (n + 5) % 5 == n % 5;
    if n % 5 + r >= 5 {
      assert (n + r) / 5 == n / 5 + 1 && (n + r) % 5 == n % 5 + r - 5;
    } else {
      assert (n + r) / 5 == n / 5 && (n + r) % 5 == n % 5 + r;
    }
  }

  lemma {:induction false} MostMonotone(m: nat, n: nat)
    requires m <= n
    ensures Most(m) <= Most(n)
    decreases n - m
  {
    if m < n {
      MostGrows(n - 1, 1);
      MostMonotone(m, n - 1);
    }
  }

  /** With `t.repeated` bytes of a group already out, what is still to come stays under the bound. */
  lemma {:induction false} ExpandBound(bytes: seq<Byte>, t: Tail)
    requires t.Valid()
    ensures t.repeated + |Expand(bytes, t)| <= Most(|bytes| + t.repeated)
    decreases bytes
  {
    hide Most;
    if bytes == [] {
      MostGrows(0, t.repeated);
    } else {
      var u := After(t, bytes[0]);
      ExpandBound(bytes[1..], u);
      if t.repeated == 4 {
        MostGrows(|bytes| - 1, 0);
      } else if t.previous == Some(bytes[0]) {
        assert |bytes| - 1 + u.repeated == |bytes| + t.repeated;
      } else {
        MostGrows(|bytes|, t.repeated);
      }
    }
  }

  /** `block_size / 5 * 259 + 4` */
  function Limit(size: nat): nat
  {
    size / 5 * 259 + 4
  }

  /** Expansion never reaches the decoder's limit. */
  lemma {:induction false} NeverOverflows(bytes: seq<Byte>, t: Tail, out: seq<Byte>, limit: nat)
    requires t.Valid() && |out| + |Expand(bytes, t)| <= limit
    ensures Checked(bytes, t, out, limit) == Ok(out + Expand(bytes, t))
    decreases bytes
  {
    if bytes == [] {
      assert out + [] == out;
    } else {
      var more := Emit(t, bytes[0]);
      assert Expand(bytes, t) == more + Expand(bytes[1..], After(t, bytes[0]));
      NeverOverflows(bytes[1..], After(t, bytes[0]), out + more, limit);
      assert out + more + Expand(bytes[1..], After(t, bytes[0])) == out + (more + Expand(bytes[1..], After(t, bytes[0])));
    }
  }

  /** A block within the block size expands in full. */
  lemma BlockExpands(block: seq<Byte>, size: nat)
    requires |block| <= size && size % 5 == 0
    ensures Checked(block, FRESH, [], Limit(size)) == Ok(Plain(block))
  {
    ExpandBound(block, FRESH);
    MostMonotone(|block|, size);
    NeverOverflows(block, FRESH, [], Limit(size));
    assert [] + Expand(block, FRESH) == Expand(block, FRESH);
  }

  // ----- The splitter -----

  class Splitter {
    var byte: Byte
    var len: nat

    predicate Valid()
      reads this
    {
      len <= MAX_RUN
    }

    constructor ()
      ensures Valid() && len == 0
    {
      byte, len := 0, 0;
    }

    method Take() returns (done: Option<Group>)
      requires Valid()
      modifies this`len
      ensures Valid() && len == 0
      ensures done == if old(len) == 0 then None else Some(Group(byte, old(len)))
    {
      if len == 0 {
        return None;
      }
      done := Some(Group(byte, len));
      len := 0;
    }

    /** A byte either lengthens the open run or closes it and opens the next. */
    method Push(b: Byte) returns (done: Option<Group>)
      requires Valid()
      modifies this
      ensures Valid() && len >= 1 && byte == b
      ensures done == None ==> len == old(len) + 1 && (old(len) > 0 ==> byte == old(byte))
      ensures done.Some? ==> len == 1 && old(len) > 0 && done.value == Group(old(byte), old(len)) && MayFollow(done.value, Group(byte, len))
    {
      if len > 0 && b == byte && len < MAX_RUN {
        len := len + 1;
        return None;
      }
      done := Take();
      byte := b;
      len := 1;
    }
  }
}
