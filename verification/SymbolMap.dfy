/** Which byte values a block uses: sixteen group bits, then sixteen bits for each used group. */
module SymbolMap {
  import opened Seqs
  import opened Bytes
  import opened Sums
  import opened BitStream
  import opened BitReading
  import opened BitWriting
  import Canonical

  /** A flag for each of the 256 byte values. */
  type Flags = f: seq<bool> | |f| == 256 witness Zeros(256)

  function Chunk(used: Flags, g: nat): (c: seq<bool>)
    requires g < 16
    ensures |c| == 16
  {
    used[16 * g..16 * g + 16]
  }

  function Groups(used: Flags): (m: seq<bool>)
    ensures |m| == 16 && forall g :: 0 <= g < 16 ==> m[g] == (true in Chunk(used, g))
  {
    seq(16, g requires 0 <= g < 16 => true in Chunk(used, g))
  }

  function ChunkBits(used: Flags, g: nat): seq<bool>
    requires g <= 16
    decreases 16 - g
  {
    if g == 16 then [] else (if true in Chunk(used, g) then Chunk(used, g) else []) + ChunkBits(used, g + 1)
  }

  function MapBits(used: Flags): seq<bool>
  {
    Groups(used) + ChunkBits(used, 0)
  }

  // ----- Parsed form -----

  function ParseChunks(s: seq<bool>, at: nat, groups: seq<bool>, g: nat, done: seq<bool>): (p: Parse<Flags>)
    requires |groups| == 16 && g <= 16 && |done| == 16 * g && at <= |s|
    ensures p.Parsed? ==> at <= p.at <= |s|
    decreases 16 - g
  {
    if g == 16 then Parsed(done, at)
    else if !groups[g] then ParseChunks(s, at, groups, g + 1, done + Zeros(16))
    else if at + 16 > |s| then Failed(Truncated)
    else ParseChunks(s, at + 16, groups, g + 1, done + s[at..at + 16])
  }

  function ParseMap(s: seq<bool>, at: nat): (p: Parse<Flags>)
    ensures p.Parsed? ==> at <= p.at <= |s|
  {
    if at + 16 > |s| then Failed(Truncated)
    else ParseChunks(s, at + 16, s[at..at + 16], 0, [])
  }

  lemma ChunkNext(used: Flags, g: nat)
    requires g < 16
    ensures used[..16 * (g + 1)] == used[..16 * g] + Chunk(used, g)
    ensures true !in Chunk(used, g) ==> Chunk(used, g) == Zeros(16)
  {
    var c := Chunk(used, g);
    if true !in c {
      forall i | 0 <= i < 16 ensures c[i] == Zeros(16)[i] {
        assert c[i] in c;
      }
    }
  }

  lemma {:induction false} ChunksRoundTrip(s: seq<bool>, at: nat, used: Flags, g: nat, bits: seq<bool>)
    requires g <= 16 && bits == ChunkBits(used, g) && Has(s, at, bits)
    ensures ParseChunks(s, at, Groups(used), g, used[..16 * g]) == Parsed(used, at + |bits|)
    decreases 16 - g
  {
    if g == 16 {
      assert used[..256] == used;
    } else {
      var here := if true in Chunk(used, g) then Chunk(used, g) else [];
      var after := ChunkBits(used, g + 1);
      assert bits == here + after;
      HasSplit(s, at, here, after);
      ChunkNext(used, g);
      ChunksRoundTrip(s, at + |here|, used, g + 1, after);
    }
  }

  /** Writing the map and parsing it gives it back. */
  lemma MapRoundTrip(s: seq<bool>, at: nat, used: Flags)
    requires Has(s, at, MapBits(used))
    ensures ParseMap(s, at) == Parsed(used, at + |MapBits(used)|)
  {
    hide Groups, ChunkBits, ParseChunks;
    HasSplit(s, at, Groups(used), ChunkBits(used, 0));
    ChunksRoundTrip(s, at + 16, used, 0, ChunkBits(used, 0));
    assert used[..16 * 0] == [];
  }

  // ----- The alphabet -----

  function AlphabetBelow(used: Flags, n: nat): (a: seq<Byte>)
    requires n <= 256
    ensures |a| <= n && forall b: nat :: b in a <==> b < n && used[b]
    ensures forall i, j :: 0 <= i < j < |a| ==> a[i] < a[j]
  {
    if n == 0 then [] else
      var below := AlphabetBelow(used, n - 1);
      assert forall i :: 0 <= i < |below| ==> below[i] in below;
      below + if used[n - 1] then [n - 1] else []
  }

  /** The used byte values, ascending. */
  function Alphabet(used: Flags): (a: seq<Byte>)
    ensures |a| <= 256 && forall b: nat :: b in a <==> b < 256 && used[b]
    ensures forall i, j :: 0 <= i < j < |a| ==> a[i] < a[j]
  {
    AlphabetBelow(used, 256)
  }

  function Seen(block: seq<Byte>): (used: Flags)
    ensures forall b: nat :: b < 256 ==> used[b] == (b in block)
  {
    seq(256, b requires 0 <= b < 256 => b in block)
  }

  /** Listing the used values loses nothing. */
  lemma SeenAlphabet(used: Flags)
    ensures Seen(Alphabet(used)) == used
  {
  }

  method Flag(block: seq<Byte>) returns (used: Flags)
    ensures used == Seen(block)
  {
    var seen := new bool[256](_ => false);
    for i := 0 to |block|
      invariant forall b: nat :: b < 256 ==> seen[b] == (b in block[..i])
    {
      assert block[..i + 1] == block[..i] + [block[i]];
      seen[block[i]] := true;
    }
    assert block[..|block|] == block;
    used := seen[..];
    assert used == Seen(block);
  }

  method List(used: Flags) returns (values: seq<Byte>)
    ensures values == Alphabet(used)
  {
    values := [];
    for value := 0 to 256
      invariant values == AlphabetBelow(used, value)
    {
      if used[value] {
        values := values + [value];
      }
    }
  }

  method InUse(block: seq<Byte>) returns (values: seq<Byte>)
    ensures values == Alphabet(Seen(block))
  {
    var seen := Flag(block);
    values := List(seen);
  }

  // ----- Bit masks -----

  /** `v & (1 << k) != 0` */
  function TestBit(v: nat, k: nat): bool
  {
    Shr(v, k) % 2 == 1
  }

  lemma TestBitOf(b: seq<bool>, i: nat)
    requires i < |b|
    ensures TestBit(ValueOf(b), |b| - 1 - i) == b[i]
  {
    SliceValue(b, 0, i + 1);
    assert b[0..i + 1][..i] == b[..i] && b[0..i + 1][i] == b[i];
    ValueBound(b);
    LowFits(ValueOf(b), |b|);
  }

  /** Set bit `15 - i` for every true entry; the bits are clear before, so `|=` is addition. */
  method Pack(flags: seq<bool>) returns (mask: nat)
    requires |flags| == 16
    ensures mask == ValueOf(flags)
  {
    hide Shl, Pow2, ValueOf;
    mask := 0;
    ValueOfNone();
    Canonical.ShlOne(16);
    for i := 0 to 16
      invariant mask == Shl(ValueOf(flags[..i]), 16 - i)
    {
      ValuePush(flags[..i], flags[i]);
      assert flags[..i + 1] == flags[..i] + [flags[i]];
      PackStep(ValueOf(flags[..i]), flags[i], 15 - i);
      if flags[i] {
        mask := mask + Pow2(15 - i);
      }
    }
    assert flags[..16] == flags;
    ShlNothing(ValueOf(flags));
  }

  lemma ValueOfNone()
    ensures ValueOf([]) == 0
  {
  }

  lemma ShlNothing(v: nat)
    ensures Shl(v, 0) == v
  {
  }

  lemma ValuePush(b: seq<bool>, last: bool)
    ensures ValueOf(b + [last]) == 2 * ValueOf(b) + if last then 1 else 0
  {
    assert (b + [last])[..|b|] == b;
  }

  lemma PackStep(v: nat, bit: bool, k: nat)
    ensures Shl(2 * v + if bit then 1 else 0, k) == Shl(v, k + 1) + if bit then Pow2(k) else 0
  {
    hide Pow2;
    Canonical.ShlPlus(2 * v, if bit then 1 else 0, k);
    Canonical.ShlPlus(v, v, k);
    Canonical.ShlOne(k);
  }

  // ----- The writer -----

  method WriteSymbolMap(w: BitWriter, inUse: seq<Byte>)
    requires w.Valid()
    modifies w
    ensures w.Valid() && w.Written() == old(w.Written()) + MapBits(Seen(inUse))
  {
    hide BitWriter.Written, BitsOf, ValueOf, Groups, ChunkBits, Shr;
    var used := Flag(inUse);
    var any := new bool[16](g requires 0 <= g < 16 => true in Chunk(used, g));
    assert any[..] == Groups(used);
    var groups := Pack(any[..]);
    BitsOfValue(Groups(used));
    ghost var whole := w.Written() + MapBits(used);
    Regroup(w.Written(), Groups(used), ChunkBits(used, 0));
    w.WriteBits(16, groups);
    for index := 0 to 16
      invariant w.Valid() && w.Written() + ChunkBits(used, index) == whole
    {
      TestBitOf(Groups(used), index);
      ChunkStep(used, index);
      if TestBit(groups, 15 - index) {
        Regroup(w.Written(), Chunk(used, index), ChunkBits(used, index + 1));
        var bits := Pack(Chunk(used, index));
        BitsOfValue(Chunk(used, index));
        w.WriteBits(16, bits);
      }
    }
    NoChunks(used);
  }

  lemma ChunkStep(used: Flags, g: nat)
    requires g < 16
    ensures ChunkBits(used, g) == if Groups(used)[g] then Chunk(used, g) + ChunkBits(used, g + 1) else ChunkBits(used, g + 1)
  {
  }

  lemma NoChunks(used: Flags)
    ensures ChunkBits(used, 16) == []
  {
  }

  // ----- The reader -----

  /** Unpack one group's mask into its sixteen flags. */
  method Unpack(used: array<bool>, group: nat, values: nat, ghost chunk: seq<bool>)
    requires used.Length == 256 && group < 16 && |chunk| == 16 && values == ValueOf(chunk)
    modifies used
    ensures used[..] == old(used[..])[..16 * group] + chunk + old(used[..])[16 * group + 16..]
  {
    hide ValueOf, TestBit;
    for value := 0 to 16
      invariant forall i :: 0 <= i < 256 ==> used[i] == if 16 * group <= i < 16 * group + value then chunk[i - 16 * group] else old(used[i])
    {
      TestBitOf(chunk, value);
      used[group * 16 + value] := TestBit(values, 15 - value);
    }
  }

  method ReadSymbolMap(bits: Bits) returns (r: Result<Flags>)
    requires bits.Valid()
    modifies bits
    ensures bits.Valid() && Follows(r, bits.bit, ParseMap(bits.All(), old(bits.bit)))
  {
    hide ValueOf, Stream, TestBit, ParseChunks;
    var used := new bool[256](_ => false);
    ghost var s, at := bits.All(), bits.bit;
    var groups := bits.Read(16);
    if groups.Err? {
      return Err(groups.error);
    }
    ghost var mask, done := s[at..at + 16], [];
    assert used[..] == [] + Zeros(256);
    for group := 0 to 16
      invariant bits.Valid() && |done| == 16 * group && used[..] == done + Zeros(256 - 16 * group)
      invariant ParseChunks(s, bits.bit, mask, group, done) == ParseMap(s, at)
    {
      hide ParseMap;
      TestBitOf(mask, group);
      ParseChunkStep(s, bits.bit, mask, group, done);
      if TestBit(groups.value, 15 - group) {
        ghost var from := bits.bit;
        var values := bits.Read(16);
        if values.Err? {
          return Err(values.error);
        }
        ghost var chunk := s[from..from + 16];
        Unpack(used, group, values.value, chunk);
        Filled(done, chunk, group);
        done := done + chunk;
      } else {
        Filled(done, Zeros(16), group);
        done := done + Zeros(16);
      }
    }
    ParseNoChunks(s, bits.bit, mask, done);
    assert used[..] == done;
    r := Ok(used[..]);
  }

  lemma Filled(done: seq<bool>, chunk: seq<bool>, group: nat)
    requires group < 16 && |done| == 16 * group && |chunk| == 16
    ensures var was := done + Zeros(256 - 16 * group);
            was[..16 * group] + chunk + was[16 * group + 16..] == (done + chunk) + Zeros(256 - 16 * (group + 1))
    ensures chunk == Zeros(16) ==> done + Zeros(256 - 16 * group) == (done + chunk) + Zeros(256 - 16 * (group + 1))
  {
  }

  lemma ParseChunkStep(s: seq<bool>, at: nat, groups: seq<bool>, g: nat, done: seq<bool>)
    requires |groups| == 16 && g < 16 && |done| == 16 * g && at <= |s|
    ensures ParseChunks(s, at, groups, g, done) ==
            if !groups[g] then ParseChunks(s, at, groups, g + 1, done + Zeros(16))
            else if at + 16 > |s| then Failed(Truncated)
            else ParseChunks(s, at + 16, groups, g + 1, done + s[at..at + 16])
  {
  }

  lemma ParseNoChunks(s: seq<bool>, at: nat, groups: seq<bool>, done: Flags)
    requires |groups| == 16 && at <= |s|
    ensures ParseChunks(s, at, groups, 16, done) == Parsed(done, at)
  {
  }
}
