/** Byte-aligned runs of DEFLATE blocks: wherever they stand, they decode to the bytes they were made from. */
module DeflateSegments {
  import opened Bytes
  import opened Seqs
  import opened Sums
  import opened BitStream
  import opened LsbStream
  import opened InflateTable
  import opened Inflate
  import opened DeflateBlocks
  import opened DeflateCodes
  import Options
  import Tokenize
  import SerialInflate

  // ----- Runs of blocks -----

  /** Decoding from `at` to `end` meets only whole, non-final blocks and turns `out` into `result`. */
  ghost predicate Passes(s: seq<bool>, at: nat, end: nat, out: seq<nat>, result: seq<nat>)
    decreases end - at
  {
    if at >= end then at == end && out == result else
      var b := ParseBlock(s, at);
      && b.ending.Complete? && !b.ending.final && at < b.ending.end <= end && Run(out, b.ops).Some?
      && Passes(s, b.ending.end, end, Run(out, b.ops).value, result)
  }

  /** Wherever these bits stand on a byte boundary, they append `plain` to `out`. */
  ghost predicate Encodes(bits: seq<bool>, out: seq<nat>, plain: seq<nat>)
  {
    |bits| % 8 == 0 && forall s, at: nat :: at % 8 == 0 && Has(s, at, bits) ==> Passes(s, at, at + |bits|, out, out + plain)
  }

  lemma {:induction false} PassesOn(s: seq<bool>, a: nat, b: nat, c: nat, x: seq<nat>, y: seq<nat>, z: seq<nat>)
    requires Passes(s, a, b, x, y) && Passes(s, b, c, y, z) && a <= b <= c
    ensures Passes(s, a, c, x, z)
    decreases b - a
  {
    hide ParseBlock, Run;
    if a < b {
      var p := ParseBlock(s, a);
      PassesOn(s, p.ending.end, b, c, Run(x, p.ops).value, y, z);
    }
  }

  /** Joining encodings joins what they encode. */
  lemma EncodesBoth(a: seq<bool>, b: seq<bool>, out: seq<nat>, p: seq<nat>, q: seq<nat>)
    requires Encodes(a, out, p) && Encodes(b, out + p, q)
    ensures Encodes(a + b, out, p + q)
  {
    hide Has, Passes;
    assert |a + b| % 8 == 0 by { hide Encodes; EncodesSize(a, out, p); EncodesSize(b, out + p, q); SumMod(|a|, |b|); }
    forall s, at: nat | at % 8 == 0 && Has(s, at, a + b) ensures Passes(s, at, at + |a + b|, out, out + (p + q)) {
      hide Encodes;
      BothPass(s, at, a, b, out, p, q);
    }
  }

  lemma EncodesSize(a: seq<bool>, out: seq<nat>, p: seq<nat>)
    requires Encodes(a, out, p)
    ensures |a| % 8 == 0
  {
  }

  lemma EncodesAt(s: seq<bool>, at: nat, bits: seq<bool>, out: seq<nat>, plain: seq<nat>)
    requires Encodes(bits, out, plain) && at % 8 == 0 && Has(s, at, bits)
    ensures Passes(s, at, at + |bits|, out, out + plain)
  {
    hide Has, Passes;
  }

  lemma BothPass(s: seq<bool>, at: nat, a: seq<bool>, b: seq<bool>, out: seq<nat>, p: seq<nat>, q: seq<nat>)
    requires Encodes(a, out, p) && Encodes(b, out + p, q) && at % 8 == 0 && Has(s, at, a + b)
    ensures Passes(s, at, at + |a + b|, out, out + (p + q))
  {
    hide Encodes, Has, Passes;
    Regroup(out, p, q);
    HasSplit(s, at, a, b);
    EncodesAt(s, at, a, out, p);
    EncodesSize(a, out, p);
    SumMod(at, |a|);
    EncodesAt(s, at + |a|, b, out + p, q);
    PassesOn(s, at, at + |a|, at + |a| + |b|, out, out + p, out + p + q);
  }

  lemma SumMod(a: nat, b: nat)
    requires a % 8 == 0
    ensures (a + b) % 8 == b % 8
  {
    Quotient(a / 8 + b / 8, b % 8, 8);
  }

  lemma EncodesNothing(out: seq<nat>)
    ensures Encodes([], out, [])
  {
    assert out + [] == out;
  }

  lemma {:induction false} PassesAfter(s: seq<bool>, at: nat, end: nat, before: seq<nat>, out: seq<nat>, result: seq<nat>)
    requires Passes(s, at, end, out, result)
    ensures Passes(s, at, end, before + out, before + result)
    decreases end - at
  {
    hide ParseBlock, Run;
    if at < end {
      var b := ParseBlock(s, at);
      Tokenize.RunAfter(before, out, b.ops);
      PassesAfter(s, b.ending.end, end, before, Run(out, b.ops).value, result);
    }
  }

  /** More history before the dictionary changes nothing. */
  lemma EncodesAfter(bits: seq<bool>, before: seq<nat>, out: seq<nat>, plain: seq<nat>)
    requires Encodes(bits, out, plain)
    ensures Encodes(bits, before + out, plain)
  {
    hide Has, Passes;
    Regroup(before, out, plain);
    EncodesSize(bits, out, plain);
    forall s, at: nat | at % 8 == 0 && Has(s, at, bits) ensures Passes(s, at, at + |bits|, before + out, before + out + plain) {
      hide Encodes;
      EncodesAt(s, at, bits, out, plain);
      PassesAfter(s, at, at + |bits|, before, out, out + plain);
    }
  }

  // ----- Stored blocks -----

  lemma HeaderBack(s: seq<bool>, at: nat, h: nat)
    requires h < 8 && Has(s, at, LsbBits(h, 3))
    ensures ReadField(s, at, 1) == Got(h % 2, at + 1) && ReadField(s, at + 1, 2) == Got(h / 2, at + 3)
  {
    hide Has, ReadField, LsbBits;
    LsbSplit(h, 1, 2);
    assert Shr(h, 1) == h / 2;
    HasSplit(s, at, LsbBits(h, 1), LsbBits(h / 2, 2));
    assert LsbBits(h, 1) == LsbBits(h % 2, 1) by { LsbLow(h, 1); }
    FieldBack(s, at, h % 2, 1);
    FieldBack(s, at + 1, h / 2, 2);
  }

  function PadOf(n: nat): (p: nat)
    ensures p < 8 && (n + p) % 8 == 0 && n + p == Aligned(n)
  {
    (8 - n % 8) % 8
  }

  /** A 16-bit field, low byte first. */
  function Le16(n: nat): (b: seq<Byte>)
    requires n <= 65535
    ensures Packed(b) == LsbBits(n, 16) && |b| == 2
  {
    var lo: Byte, hi: Byte := n % 256, n / 256;
    Le16Bits(lo, hi);
    [lo, hi]
  }

  lemma Le16Bits(lo: Byte, hi: Byte)
    ensures Packed([lo, hi]) == LsbBits(lo + 256 * hi, 16)
  {
    hide Packed, LsbBits, Shl, Pow2;
    Pow2Values();
    OneByte(lo);
    PackedPush([lo], hi);
    assert [lo] + [hi] == [lo, hi];
    LsbJoin(lo, 8, hi, 8);
    ShlIsTimes(hi, 8);
  }

  /** A stored block that starts `at` bits into a byte. */
  ghost function StoredBits(header: nat, at: nat, chunk: seq<Byte>): seq<bool>
    requires |chunk| <= 65535
  {
    LsbBits(header, 3) + (Zeros(PadOf(at + 3)) + (Packed(Le16(|chunk|)) + (Packed(Le16(65535 - |chunk|)) + Packed(chunk))))
  }

  lemma ByteBack(s: seq<bool>, at: nat, chunk: seq<Byte>, i: nat)
    requires Has(s, at, Packed(chunk)) && i < |chunk|
    ensures at + 8 * i + 8 <= |s| && LsbValue(s[at + 8 * i..at + 8 * i + 8]) == chunk[i]
  {
    hide Packed, LsbValue, LsbBits, Pow2, Has;
    var p := Packed(chunk);
    HasSlice(s, at, p);
    ByteOf(chunk, i);
    NestedByte(s, p, at, i);
  }

  lemma NestedByte(s: seq<bool>, p: seq<bool>, at: nat, i: nat)
    requires at + |p| <= |s| && p == s[at..at + |p|] && 8 * i + 8 <= |p|
    ensures p[8 * i..8 * i + 8] == s[at + 8 * i..at + 8 * i + 8]
  {
    Nested(s, p, at, at + |p|, 8 * i, 8 * i + 8, at + 8 * i, at + 8 * i + 8);
  }

  lemma ByteOf(chunk: seq<Byte>, i: nat)
    requires i < |chunk|
    ensures LsbValue(Packed(chunk)[8 * i..8 * i + 8]) == chunk[i]
  {
    hide Packed, LsbValue, LsbBits, Pow2;
    PackedSlice(chunk, i, i + 1);
    assert chunk[i..i + 1] == [chunk[i]];
    OneByte(chunk[i]);
    Pow2Values();
    ValueOfLsb(chunk[i], 8);
  }

  lemma ChunkBack(s: seq<bool>, at: nat, chunk: seq<Byte>)
    requires Has(s, at, Packed(chunk))
    ensures at + 8 * |chunk| <= |s| && BytesAt(s, at, |chunk|) == chunk
  {
    hide *;
    HasEnd(s, at, Packed(chunk));
    var b := BytesAt(s, at, |chunk|);
    forall i | 0 <= i < |chunk| ensures b[i] == chunk[i] {
      ByteBack(s, at, chunk, i);
      BytesAtIndex(s, at, |chunk|, i);
    }
  }

  lemma BytesAtIndex(s: seq<bool>, at: nat, n: nat, i: nat)
    requires at + 8 * n <= |s| && i < n
    ensures BytesAt(s, at, n)[i] == LsbValue(s[at + 8 * i..at + 8 * i + 8])
  {
    hide LsbValue;
  }

  lemma StoredBack(s: seq<bool>, at: nat, header: nat, chunk: seq<Byte>)
    requires header < 2 && |chunk| <= 65535 && Has(s, at, StoredBits(header, at, chunk))
    ensures ParseBlock(s, at) == BlockParse([Raw(chunk)], Complete(StoredBlock, header == 1, at + |StoredBits(header, at, chunk)|))
  {
    hide Packed, LsbBits, ReadField, Has, BytesAt, Pow2, ParseOps, ParseDynamic;
    var n := |chunk|;
    var length, complement := Packed(Le16(n)), Packed(Le16(65535 - n));
    var p := at + 3 + PadOf(at + 3);
    HasSplit(s, at, LsbBits(header, 3), Zeros(PadOf(at + 3)) + (length + (complement + Packed(chunk))));
    HeaderBack(s, at, header);
    HasSplit(s, at + 3, Zeros(PadOf(at + 3)), length + (complement + Packed(chunk)));
    HasSplit(s, p, length, complement + Packed(chunk));
    HasSplit(s, p + 16, complement, Packed(chunk));
    Pow2Values();
    FieldBack(s, p, n, 16);
    FieldBack(s, p + 16, 65535 - n, 16);
    ChunkBack(s, p + 32, chunk);
    HasEnd(s, p + 32, Packed(chunk));
    StoredParsed(s, at + 3, p, n, chunk);
  }

  lemma StoredParsed(s: seq<bool>, at: nat, p: nat, n: nat, chunk: seq<Byte>)
    requires p == Aligned(at) && n == |chunk| <= 65535 && p + 32 + 8 * n <= |s| && BytesAt(s, p + 32, n) == chunk
    requires ReadField(s, p, 16) == Got(n, p + 16) && ReadField(s, p + 16, 16) == Got(65535 - n, p + 32)
    ensures ParseStored(s, at) == Got(chunk, p + 32 + 8 * n)
  {
    hide ReadField, BytesAt;
  }

  lemma StoredSize(header: nat, at: nat, chunk: seq<Byte>)
    requires |chunk| <= 65535
    ensures (at + |StoredBits(header, at, chunk)|) % 8 == 0 && |StoredBits(header, at, chunk)| > 0
  {
    hide Packed, LsbBits;
    assert at + |StoredBits(header, at, chunk)| == (at + 3 + PadOf(at + 3)) + 8 * (4 + |chunk|);
  }

  /** A non-final stored block appends its bytes. */
  lemma StoredPasses(s: seq<bool>, at: nat, chunk: seq<Byte>, out: seq<nat>)
    requires |chunk| <= 65535 && Has(s, at, StoredBits(0, at, chunk))
    ensures Passes(s, at, at + |StoredBits(0, at, chunk)|, out, out + chunk)
  {
    hide StoredBits, ParseBlock;
    StoredBack(s, at, 0, chunk);
    StoredSize(0, at, chunk);
    var b := ParseBlock(s, at);
    SingleOp(out, chunk);
    OneBlock(s, at, at + |StoredBits(0, at, chunk)|, out, out + chunk);
  }

  lemma SingleOp(out: seq<nat>, chunk: seq<Byte>)
    ensures Run(out, [Raw(chunk)]) == Options.Some(out + chunk)
  {
    assert [Raw(chunk)][..0] == [];
  }

  lemma OneBlock(s: seq<bool>, at: nat, end: nat, out: seq<nat>, result: seq<nat>)
    requires at < end
    requires var b := ParseBlock(s, at); b.ending.Complete? && !b.ending.final && b.ending.end == end && Run(out, b.ops) == Options.Some(result)
    ensures Passes(s, at, end, out, result)
  {
    hide ParseBlock, Run;
  }

  lemma PadShift(at: nat, k: nat)
    requires at % 8 == 0
    ensures PadOf(at + k) == PadOf(k)
  {
    hide Aligned;
    SumMod(at, k);
  }

  /** Whole bytes before a stored block do not change its bits. */
  lemma StoredMoved(header: nat, at: nat, k: nat, chunk: seq<Byte>)
    requires at % 8 == 0 && |chunk| <= 65535
    ensures StoredBits(header, at + k, chunk) == StoredBits(header, k, chunk)
  {
    hide PadOf, LsbBits, Packed;
    PadShift(at, k + 3);
    assert at + (k + 3) == at + k + 3;
  }

  /** A stored block on a byte boundary encodes its bytes. */
  lemma StoredEncodes(chunk: seq<Byte>, out: seq<nat>)
    requires |chunk| <= 65535
    ensures Encodes(StoredBits(0, 0, chunk), out, chunk)
  {
    hide Passes, Has, StoredBits;
    StoredSize(0, 0, chunk);
    forall s, at: nat | at % 8 == 0 && Has(s, at, StoredBits(0, 0, chunk)) ensures Passes(s, at, at + |StoredBits(0, 0, chunk)|, out, out + chunk) {
      StoredMoved(0, at, 0, chunk);
      StoredPasses(s, at, chunk, out);
    }
  }

  // ----- Compressed blocks -----

  /** What must come before the tokens for them to be read with these codes. */
  ghost predicate Opens(head: seq<bool>, lit: seq<nat>, dist: seq<nat>, kind: BlockKind)
  {
    forall s, at: nat :: Has(s, at, head) ==> at + |head| <= |s| && ParseBlock(s, at) == FromOps(ParseOps(s, at + |head|, lit, dist, []), kind, false)
  }

  /** A compressed block followed by the empty stored block that aligns it. */
  ghost function SegmentBits(head: seq<bool>, tokens: seq<Op>, lit: seq<nat>, dist: seq<nat>): seq<bool>
    requires Tokenize.AreTokens(tokens)
  {
    var body := head + TokensBits(tokens, 0, lit, dist);
    body + StoredBits(0, |body|, [])
  }

  lemma CompressedPasses(s: seq<bool>, at: nat, head: seq<bool>, tokens: seq<Op>, lit: seq<nat>, dist: seq<nat>, kind: BlockKind, out: seq<nat>, result: seq<nat>)
    requires Tokenize.AreTokens(tokens) && Codes(lit) && Codes(dist) && CoversAll(tokens, lit, dist)
    requires Opens(head, lit, dist, kind) && Has(s, at, head + TokensBits(tokens, 0, lit, dist)) && Run(out, tokens) == Options.Some(result)
    ensures Passes(s, at, at + |head + TokensBits(tokens, 0, lit, dist)|, out, result)
  {
    hide Codes, CoversAll, ParseBlock, ParseOps, Run, TokensBits, Has;
    HasSplit(s, at, head, TokensBits(tokens, 0, lit, dist));
    TokensBack(s, at + |head|, tokens, 0, lit, dist);
    assert tokens[..0] == [];
    assert Coded(lit, 256) by { CoversEnd(tokens, lit, dist); }
    EndPresent(tokens, 0, lit, dist);
    OneBlock(s, at, at + |head + TokensBits(tokens, 0, lit, dist)|, out, result);
  }

  lemma CoversEnd(tokens: seq<Op>, lit: seq<nat>, dist: seq<nat>)
    requires Tokenize.AreTokens(tokens) && CoversAll(tokens, lit, dist)
    ensures Coded(lit, 256)
  {
  }

  lemma {:induction false} EndPresent(tokens: seq<Op>, k: nat, lit: seq<nat>, dist: seq<nat>)
    requires k <= |tokens| && Tokenize.AreTokens(tokens) && Coded(lit, 256)
    ensures |TokensBits(tokens, k, lit, dist)| >= 1
    decreases |tokens| - k
  {
    hide TokenBits;
    if k < |tokens| {
      EndPresent(tokens, k + 1, lit, dist);
    }
  }

  /** A compressed block with its alignment encodes what its tokens produce. */
  lemma SegmentEncodes(head: seq<bool>, tokens: seq<Op>, lit: seq<nat>, dist: seq<nat>, kind: BlockKind, out: seq<nat>, plain: seq<nat>)
    requires Tokenize.AreTokens(tokens) && Codes(lit) && Codes(dist) && CoversAll(tokens, lit, dist)
    requires Opens(head, lit, dist, kind) && Run(out, tokens) == Options.Some(out + plain)
    ensures Encodes(SegmentBits(head, tokens, lit, dist), out, plain)
  {
    hide Codes, CoversAll, Run, TokensBits, Has, Passes, Opens, StoredBits;
    var body := head + TokensBits(tokens, 0, lit, dist);
    var sync := StoredBits(0, |body|, []);
    var bits := SegmentBits(head, tokens, lit, dist);
    StoredSize(0, |body|, []);
    forall s, at: nat | at % 8 == 0 && Has(s, at, bits) ensures Passes(s, at, at + |bits|, out, out + plain) {
      HasSplit(s, at, body, sync);
      CompressedPasses(s, at, head, tokens, lit, dist, kind, out, out + plain);
      SyncPasses(s, at, |body|, out + plain);
      PassesOn(s, at, at + |body|, at + |body| + |sync|, out, out + plain, out + plain);
    }
  }

  lemma SyncPasses(s: seq<bool>, at: nat, k: nat, out: seq<nat>)
    requires at % 8 == 0 && Has(s, at + k, StoredBits(0, k, []))
    ensures Passes(s, at + k, at + k + |StoredBits(0, k, [])|, out, out)
  {
    hide Has, Passes, StoredBits;
    StoredMoved(0, at, k, []);
    StoredPasses(s, at + k, [], out);
    assert out + [] == out;
  }

  // ----- Whole streams -----

  /** Decoding a stream goes through a run of blocks. */
  lemma {:induction false} DecodePasses(data: seq<Byte>, at: nat, end: nat, out: seq<nat>, result: seq<nat>, base: nat, infos: seq<Info>) returns (more: seq<Info>)
    requires Passes(Packed(data), at, end, out, result) && Proper(ParserOf(data), 8 * |data|)
    ensures Decode(ParserOf(data), 8 * |data|, at, out, base, infos) == Decode(ParserOf(data), 8 * |data|, end, result, base, more)
    decreases end - at
  {
    hide ParseBlock, Run, Packed, Proper;
    if at < end {
      var b := ParseBlock(Packed(data), at);
      assert ParserOf(data)(at) == b;
      var r := Run(out, b.ops).value;
      more := DecodePasses(data, b.ending.end, end, r, result, base, infos + [Info(b.ending.kind, false, at, b.ending.end, base + |out|, |r| - |out|)]);
    } else {
      more := infos;
    }
  }

  /** The empty final block that ends every stream. */
  ghost predicate IsFinalBlock(bytes: seq<Byte>)
  {
    Packed(bytes) == StoredBits(1, 0, [])
  }

  /** Segments that encode `plain` from an empty history, closed by a final block, are a DEFLATE stream of `plain`. */
  lemma StreamDecodes(body: seq<Byte>, last: seq<Byte>, plain: seq<nat>, base: nat)
    requires Encodes(Packed(body), [], plain) && IsFinalBlock(last)
    ensures var data := body + last;
      Proper(ParserOf(data), 8 * |data|) &&
      var o := Decode(ParserOf(data), 8 * |data|, 0, [], base, []);
      o.Finished? && o.out == plain && o.end == 8 * |data|
  {
    hide ParseBlock, Packed, Passes, Has, StoredBits, Run, Proper;
    var data := body + last;
    ParserGood(data);
    PackedAppend(body, last);
    HasJoin([], Packed(body), Packed(last), Packed(data));
    HasJoin(Packed(body), Packed(last), [], Packed(data));
    assert [] + plain == plain;
    var infos := DecodePasses(data, 0, 8 * |body|, [], plain, base, []);
    PadShift(8 * |body|, 3);
    StoredMoved(1, 8 * |body|, 0, []);
    StoredBack(Packed(data), 8 * |body|, 1, []);
    SingleOp(plain, []);
    assert plain + [] == plain;
    assert ParserOf(data)(8 * |body|) == ParseBlock(Packed(data), 8 * |body|);
  }

}
