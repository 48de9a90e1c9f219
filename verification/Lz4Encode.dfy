/** LZ4 block compression: the fast single-candidate search and the hash-chain search. */
module Lz4Encode {
  import opened Bytes
  import opened Seqs
  import opened Sums
  import opened History
  import opened Options
  import opened Lz4Block
  import opened MatchFinder
  import Tokenize

  const WINDOW_SIZE: nat := 65535

  function ChainDepth(level: nat): (d: nat)
    requires 1 <= level <= 9
    ensures d >= 1
  {
    if level <= 6 then 1 else if level == 7 then 4 else if level == 8 then 16 else 64
  }

  // ----- Sequences as bytes -----

  function LengthBytes(length: nat): (b: seq<Byte>)
    ensures |b| >= 1
  {
    if length >= 255 then [255] + LengthBytes(length - 255) else [length]
  }

  /** A length's nibble and the bytes that extend it. */
  function Nibble(length: nat): (n: nat)
    ensures n <= 15
  {
    if length < 15 then length else 15
  }

  function Extension(length: nat): seq<Byte>
  {
    if length >= 15 then LengthBytes(length - 15) else []
  }

  function OffsetBytes(distance: nat): (b: seq<Byte>)
    requires distance <= 65535
    ensures |b| == 2
  {
    [distance % 256, distance / 256]
  }

  function Token(literals: nat, matched: nat): (t: Byte)
    ensures t / 16 == Nibble(literals) && t % 16 == Nibble(matched)
  {
    Nibble(literals) * 16 + Nibble(matched)
  }

  function SequenceBytes(literals: seq<Byte>, distance: nat, length: nat): seq<Byte>
    requires distance <= 65535 && length >= 4
  {
    [Token(|literals|, length - 4)] + (Extension(|literals|) + (literals + (OffsetBytes(distance) + Extension(length - 4))))
  }

  /** Literals, then a match `distance` back. */
  datatype Sequence = Sequence(literals: seq<Byte>, distance: nat, length: nat)

  predicate InRange(s: Sequence)
  {
    1 <= s.distance <= 65535 && s.length >= 4
  }

  ghost function AllBytes(sequences: seq<Sequence>): seq<Byte>
    requires forall i :: 0 <= i < |sequences| ==> InRange(sequences[i])
  {
    if sequences == [] then [] else
      var n := |sequences| - 1;
      assert InRange(sequences[n]);
      AllBytes(sequences[..n]) + SequenceBytes(sequences[n].literals, sequences[n].distance, sequences[n].length)
  }

  /**
   * The end of block conditions: the last five bytes are literals, and the last match starts at least twelve bytes
   * before the end of the block. A block without matches is all literals.
   */
  ghost predicate WellFormed(output: seq<Byte>, sequences: seq<Sequence>, last: seq<Byte>)
  {
    && (forall i :: 0 <= i < |sequences| ==> InRange(sequences[i])) && output == AllBytes(sequences) + LastBytes(last)
    && (sequences != [] ==> |last| >= 5 && |last| + sequences[|sequences| - 1].length >= 12)
  }

  function LastBytes(literals: seq<Byte>): seq<Byte>
  {
    [Token(|literals|, 0)] + (Extension(|literals|) + literals)
  }

  // ----- Reading back -----

  lemma {:induction false} ExtendedBack(input: seq<Byte>, at: nat, base: nat, length: nat)
    requires Has(input, at, LengthBytes(length))
    ensures Extended(input, at, base) == Some(Span(base + length, at + |LengthBytes(length)|))
    decreases length
  {
    if length >= 255 {
      HasSplit(input, at, [255 as Byte], LengthBytes(length - 255));
      HasFirst(input, at, 255);
      ExtendedBack(input, at + 1, base + 255, length - 255);
    } else {
      HasFirst(input, at, length);
    }
  }

  lemma HasFirst(input: seq<Byte>, at: nat, b: Byte)
    requires Has(input, at, [b])
    ensures at < |input| && input[at] == b
  {
    assert input[at..at + 1][0] == b;
  }

  lemma LengthBack(input: seq<Byte>, at: nat, length: nat)
    requires Has(input, at, Extension(length))
    ensures LengthAt(input, at, Nibble(length)) == Some(Span(length, at + |Extension(length)|))
  {
    hide Has, LengthBytes;
    if length >= 15 {
      ExtendedBack(input, at, 15, length - 15);
    }
  }

  lemma OffsetBack(input: seq<Byte>, at: nat, distance: nat)
    requires distance <= 65535 && Has(input, at, OffsetBytes(distance))
    ensures at + 2 <= |input| && input[at] as int + 256 * input[at + 1] as int == distance
  {
    assert input[at..at + 2][0] == input[at] && input[at..at + 2][1] == input[at + 1];
  }

  lemma MatchBack(input: seq<Byte>, token: Byte, end: nat, distance: nat, length: nat, dict: seq<Byte>, out: seq<Byte>, copied: seq<Byte>, max: nat)
    requires 1 <= distance <= 65535 && length >= 4 && token % 16 == Nibble(length - 4) && |out| + length <= max
    requires Has(input, end, OffsetBytes(distance) + Extension(length - 4)) && Copied(dict, out, distance, length) == Some(copied)
    ensures MatchAt(input, token, end, dict, out, max) == More(copied, end + 2 + |Extension(length - 4)|)
    ensures end + 2 + |Extension(length - 4)| <= |input|
  {
    hide Has, Extension, OffsetBytes, LengthAt, Nibble, Copied;
    HasSplit(input, end, OffsetBytes(distance), Extension(length - 4));
    OffsetBack(input, end, distance);
    LengthBack(input, end + 2, length - 4);
    HasEnd(input, end + 2, Extension(length - 4));
  }

  /** Where a sequence's token, length and literals stand. */
  lemma LiteralsBack(input: seq<Byte>, at: nat, token: Byte, literals: seq<Byte>, rest: seq<Byte>, start: nat)
    requires token / 16 == Nibble(|literals|) && start == at + 1 + |Extension(|literals|)|
    requires Has(input, at, [token] + (Extension(|literals|) + (literals + rest)))
    ensures at < |input| && input[at] == token && LengthAt(input, at + 1, token / 16) == Some(Span(|literals|, start))
    ensures start + |literals| <= |input| && input[start..start + |literals|] == literals && Has(input, start + |literals|, rest)
  {
    hide Has, Extension, LengthAt, Nibble;
    HasSplit(input, at, [token], Extension(|literals|) + (literals + rest));
    HasSplit(input, at + 1, Extension(|literals|), literals + rest);
    HasSplit(input, start, literals, rest);
    HasFirst(input, at, token);
    LengthBack(input, at + 1, |literals|);
    HasSlice(input, start, literals);
  }

  /** A written sequence, with more after it, reads as its literals and its match. */
  lemma SequenceBack(input: seq<Byte>, at: nat, literals: seq<Byte>, distance: nat, length: nat, dict: seq<Byte>, out: seq<Byte>, copied: seq<Byte>, max: nat, after: nat)
    requires 1 <= distance <= 65535 && length >= 4 && Has(input, at, SequenceBytes(literals, distance, length))
    requires after == at + |SequenceBytes(literals, distance, length)|
    requires Copied(dict, out + literals, distance, length) == Some(copied) && |out| + |literals| + length <= max
    ensures at < |input| && after <= |input| && SequenceAt(input, at, dict, out, max) == More(copied, after)
  {
    hide Has, Extension, Token, OffsetBytes, Copied, LengthAt, MatchAt, Nibble, SequenceAt;
    var token, rest := Token(|literals|, length - 4), OffsetBytes(distance) + Extension(length - 4);
    var start := at + 1 + |Extension(|literals|)|;
    LiteralsBack(input, at, token, literals, rest, start);
    var end := start + |literals|;
    MatchBack(input, token, end, distance, length, dict, out + literals, copied, max);
    SequenceIs(input, at, start, end, dict, out, max);
  }

  lemma SequenceIs(input: seq<Byte>, at: nat, start: nat, end: nat, dict: seq<Byte>, out: seq<Byte>, max: nat)
    requires at < |input| && start <= end < |input| && |out| + (end - start) <= max
    requires LengthAt(input, at + 1, input[at] / 16) == Some(Span(end - start, start))
    ensures SequenceAt(input, at, dict, out, max) == MatchAt(input, input[at], end, dict, out + input[start..end], max)
  {
    hide LengthAt, MatchAt;
  }

  lemma CopiedAlone(out: seq<Byte>, distance: nat, length: nat)
    requires 1 <= distance <= |out|
    ensures Copied([], out, distance, length) == Some(Extend<Byte>(out, distance, length))
  {
    hide Extend;
    assert [] + out == out;
  }

  /** The last literals end the block. */
  lemma LastBack(input: seq<Byte>, at: nat, token: Byte, literals: seq<Byte>, dict: seq<Byte>, out: seq<Byte>, max: nat)
    requires token / 16 == Nibble(|literals|) && |out| + |literals| <= max
    requires Has(input, at, [token] + (Extension(|literals|) + literals)) && |input| == at + |[token] + (Extension(|literals|) + literals)|
    ensures at < |input| && SequenceAt(input, at, dict, out, max) == Stop(out + literals)
  {
    hide Has, Extension, LengthAt, MatchAt, Nibble;
    var start := at + 1 + |Extension(|literals|)|;
    assert literals + [] == literals;
    LiteralsBack(input, at, token, literals, [], start);
  }

  // ----- What has been written -----

  /** Whatever sequences follow, the decoder arrives after these bytes with `done` decoded. */
  ghost predicate Leads(output: seq<Byte>, done: seq<Byte>, max: nat)
  {
    forall rest: seq<Byte> :: rest != [] ==> LeadsBefore(output, rest, done, max)
  }

  ghost predicate LeadsBefore(output: seq<Byte>, rest: seq<Byte>, done: seq<Byte>, max: nat)
  {
    Decompressed(output + rest, 0, [], [], max) == Decompressed(output + rest, |output|, [], done, max)
  }

  lemma LeadsNothing(max: nat)
    ensures Leads([], [], max)
  {
    forall rest: seq<Byte> | rest != [] ensures LeadsBefore([], rest, [], max) {
      hide Decompressed;
    }
  }

  /** One more sequence, matching an earlier stretch of the input, extends what is decoded. */
  lemma LeadsStep(input: seq<Byte>, output: seq<Byte>, anchor: nat, position: nat, distance: nat, length: nat, max: nat)
    requires anchor <= position && position + length <= |input| <= max && length >= 4 && Leads(output, input[..anchor], max)
    requires 1 <= distance <= position && distance <= 65535 && Agree(input, position - distance, position, length)
    ensures Leads(output + SequenceBytes(input[anchor..position], distance, length), input[..position + length], max)
  {
    var bytes := SequenceBytes(input[anchor..position], distance, length);
    var more, done := output + bytes, input[..position + length];
    forall rest: seq<Byte> | rest != [] ensures LeadsBefore(more, rest, done, max) {
      hide SequenceBytes, Agree, LeadsBefore;
      assert LeadsBefore(output, bytes + rest, input[..anchor], max);
      hide Leads;
      LeadsThrough(input, output, anchor, position, distance, length, max, bytes, rest);
    }
  }

  lemma LeadsThrough(input: seq<Byte>, output: seq<Byte>, anchor: nat, position: nat, distance: nat, length: nat, max: nat, bytes: seq<Byte>, rest: seq<Byte>)
    requires anchor <= position && position + length <= |input| <= max && length >= 4
    requires 1 <= distance <= position && distance <= 65535 && Agree(input, position - distance, position, length)
    requires bytes == SequenceBytes(input[anchor..position], distance, length) && LeadsBefore(output, bytes + rest, input[..anchor], max)
    ensures LeadsBefore(output + bytes, rest, input[..position + length], max)
  {
    hide SequenceBytes, Agree, Decompressed, SequenceAt, Has, Extend, Copied;
    var literals, whole := input[anchor..position], output + (bytes + rest);
    assert input[..anchor] + literals == input[..position];
    ReproducesBytes(input, position, length, distance);
    Regroup(output, bytes, rest);
    HasJoin(output, bytes, rest, whole);
    CopiedAlone(input[..position], distance, length);
    SequenceBack(whole, |output|, literals, distance, length, [], input[..anchor], input[..position + length], max, |output + bytes|);
    DecompressedMore(whole, |output|, [], input[..anchor], max, input[..position + length], |output + bytes|);
  }

  lemma ReproducesBytes(input: seq<Byte>, position: nat, length: nat, distance: nat)
    requires position + length <= |input| && 1 <= distance <= position && Agree(input, position - distance, position, length)
    ensures Extend<Byte>(input[..position], distance, length) == input[..position + length]
  {
    hide Extend;
    var out, r := input[..position], input[..position + length];
    assert r[..position] == out;
    forall i {:trigger r[i]} | position <= i < position + length ensures r[i] == r[i - distance] {
      var k := i - position;
      assert input[position..position + length][k] == input[position - distance..position - distance + length][k];
    }
    ContinuesIsExtend(out, distance, r);
  }

  lemma DecompressedMore(input: seq<Byte>, at: nat, dict: seq<Byte>, out: seq<Byte>, max: nat, o: seq<Byte>, next: nat)
    requires at < |input| && SequenceAt(input, at, dict, out, max) == More(o, next)
    ensures Decompressed(input, at, dict, out, max) == Decompressed(input, next, dict, o, max)
  {
    hide SequenceAt;
  }

  /** Ending with the remaining literals gives a block of the whole input. */
  lemma LeadsEnd(input: seq<Byte>, output: seq<Byte>, anchor: nat, max: nat)
    requires anchor <= |input| <= max && Leads(output, input[..anchor], max)
    ensures Decompressed(output + LastBytes(input[anchor..]), 0, [], [], max) == Some(input)
  {
    hide SequenceAt, Extension, Token, Nibble;
    var last := LastBytes(input[anchor..]);
    assert LeadsBefore(output, last, input[..anchor], max);
    assert output + last == output + last + [];
    HasJoin(output, last, [], output + last);
    LastBack(output + last, |output|, Token(|input[anchor..]|, 0), input[anchor..], [], input[..anchor], max) by { TokenParts(|input[anchor..]|, 0); }
    assert input[..anchor] + input[anchor..] == input;
  }

  lemma TokenParts(literals: nat, matched: nat)
    ensures Token(literals, matched) / 16 == Nibble(literals) && Token(literals, matched) % 16 == Nibble(matched)
  {
  }

  lemma LastNotEmpty(literals: seq<Byte>)
    ensures |LastBytes(literals)| >= 1
  {
  }

  // ----- Writing -----

  method WriteLength(output: seq<Byte>, length: nat) returns (r: seq<Byte>)
    ensures r == output + LengthBytes(length)
  {
    r := output;
    var rest := length;
    while rest >= 255
      invariant r + LengthBytes(rest) == output + LengthBytes(length)
    {
      Regroup(r, [255 as Byte], LengthBytes(rest - 255));
      r := r + [255];
      rest := rest - 255;
    }
    r := r + [rest];
  }

  method WriteSequence(output: seq<Byte>, literals: seq<Byte>, distance: nat, length: nat) returns (r: seq<Byte>)
    requires distance <= 65535 && length >= 4
    ensures r == output + SequenceBytes(literals, distance, length)
  {
    hide LengthBytes, OffsetBytes;
    var base := length - 4;
    r := output + [Token(|literals|, base)];
    if |literals| >= 15 {
      r := WriteLength(r, |literals| - 15);
    }
    r := r + literals;
    r := r + OffsetBytes(distance);
    if base >= 15 {
      r := WriteLength(r, base - 15);
    }
    Regroup5(output, [Token(|literals|, base)], Extension(|literals|), literals, OffsetBytes(distance), Extension(base));
    Emptiness(output + [Token(|literals|, base)]);
    Emptiness(output + [Token(|literals|, base)] + Extension(|literals|) + literals + OffsetBytes(distance));
  }

  lemma Emptiness(s: seq<Byte>)
    ensures s + [] == s
  {
  }

  method WriteLastLiterals(output: seq<Byte>, literals: seq<Byte>) returns (r: seq<Byte>)
    ensures r == output + LastBytes(literals)
  {
    hide LengthBytes;
    r := output + [Token(|literals|, 0)];
    if |literals| >= 15 {
      r := WriteLength(r, |literals| - 15);
    }
    r := r + literals;
    Emptiness(output + [Token(|literals|, 0)]);
    Regroup(output + [Token(|literals|, 0)], Extension(|literals|), literals);
    Regroup(output, [Token(|literals|, 0)], Extension(|literals|) + literals);
  }

  // ----- Searching -----

  /** A match grows backwards while the bytes before it agree. */
  method ExtendBack(input: seq<Byte>, position: nat, candidate: nat, length: nat, anchor: nat) returns (start: nat, longer: nat)
    requires candidate < position && anchor <= position && Agree(input, candidate, position, length)
    ensures anchor <= start <= position && start + longer == position + length && longer >= length && position - candidate <= start
    ensures Agree(input, start - (position - candidate), start, longer)
  {
    start, longer := position, length;
    var from := candidate;
    while start > anchor && from > 0 && input[start - 1] == input[from - 1]
      invariant anchor <= start <= position && start + longer == position + length && start - from == position - candidate && from >= 0
      invariant Agree(input, from, start, longer)
    {
      AgreeBack(input, from, start, longer);
      start, from, longer := start - 1, from - 1, longer + 1;
    }
  }

  lemma AgreeBack(input: seq<Byte>, left: nat, right: nat, length: nat)
    requires left > 0 && right > 0 && Agree(input, left, right, length) && input[left - 1] == input[right - 1]
    ensures Agree(input, left - 1, right - 1, length + 1)
  {
    assert input[left - 1..left + length] == [input[left - 1]] + input[left..left + length];
    assert input[right - 1..right + length] == [input[right - 1]] + input[right..right + length];
  }

  /** Four agreeing bytes make a match of at least four. */
  lemma AtLeastFour(input: seq<Byte>, left: nat, right: nat, length: nat)
    requires Agree(input, left, right, 4) && left + length < |input| && right + length < |input| && input[left + length] != input[right + length]
    ensures length >= 4
  {
    if length < 4 {
      AgreeAt(input, left, right, length);
    }
  }

  lemma AgreeAt(input: seq<Byte>, left: nat, right: nat, k: nat)
    requires Agree(input, left, right, 4) && k < 4
    ensures input[left + k] == input[right + k]
  {
    assert input[left..left + 4][k] == input[right..right + 4][k];
  }

  /** The block so far: sequences for the input before the anchor. */
  ghost predicate Emitted(input: seq<Byte>, output: seq<Byte>, anchor: nat, sequences: seq<Sequence>)
  {
    && anchor <= |input| && Leads(output, input[..anchor], |input|)
    && (forall i :: 0 <= i < |sequences| ==> InRange(sequences[i])) && output == AllBytes(sequences)
    && (sequences != [] ==> anchor + 5 <= |input| && anchor + 12 <= |input| + sequences[|sequences| - 1].length)
  }

  lemma EmittedNothing(input: seq<Byte>)
    ensures Emitted(input, [], 0, [])
  {
    LeadsNothing(|input|);
    assert input[..0] == [];
  }

  /** A match that leaves five bytes and starts twelve before the end keeps the block well formed. */
  lemma EmittedStep(input: seq<Byte>, output: seq<Byte>, anchor: nat, sequences: seq<Sequence>, start: nat, distance: nat, length: nat)
    requires Emitted(input, output, anchor, sequences) && anchor <= start && start + length + 5 <= |input| && start + 12 <= |input| && length >= 4
    requires 1 <= distance <= start && distance <= 65535 && Agree(input, start - distance, start, length)
    ensures Emitted(input, output + SequenceBytes(input[anchor..start], distance, length), start + length,
                    sequences + [Sequence(input[anchor..start], distance, length)])
  {
    hide SequenceBytes, Agree, Leads;
    LeadsStep(input, output, anchor, start, distance, length, |input|);
    var more := sequences + [Sequence(input[anchor..start], distance, length)];
    assert more[..|sequences|] == sequences;
  }

  /** The remaining literals complete the block. */
  lemma EmittedEnd(input: seq<Byte>, output: seq<Byte>, anchor: nat, sequences: seq<Sequence>)
    requires Emitted(input, output, anchor, sequences)
    ensures anchor <= |input|
    ensures Compresses(output + LastBytes(input[anchor..]), input, sequences, input[anchor..])
  {
    hide Leads, LastBytes, Decompressed, AllBytes;
    var block := output + LastBytes(input[anchor..]);
    LeadsEnd(input, output, anchor, |input|);
    forall max: nat | max >= |input| ensures Decompressed(block, 0, [], [], max) == Some(input) {
      LargerMaximum(block, 0, [], [], |input|, max);
    }
  }

  /** A well-formed block that decodes to the input within any maximum that holds it. */
  ghost predicate Compresses(output: seq<Byte>, input: seq<Byte>, sequences: seq<Sequence>, last: seq<Byte>)
  {
    WellFormed(output, sequences, last) && forall max: nat :: max >= |input| ==> Decompressed(output, 0, [], [], max) == Some(input)
  }

  method CompressBlockFast(input: seq<Byte>) returns (output: seq<Byte>, ghost sequences: seq<Sequence>, ghost last: seq<Byte>)
    requires |input| < NONE
    ensures Compresses(output, input, sequences, last)
  {
    hide Emitted, Compresses, LastBytes, Agree, SequenceBytes, LatestMatch.Valid;
    output, sequences := [], [];
    var finder := new LatestMatch(input, WINDOW_SIZE);
    var anchor: nat, position: nat := 0, 0;
    EmittedNothing(input);
    while position + 12 <= |input|
      invariant anchor <= position && finder.Valid() && finder.bound <= position && finder.bytes == input && finder.window == WINDOW_SIZE
      invariant fresh(finder) && fresh(finder.head) && anchor <= |input| && Emitted(input, output, anchor, sequences)
      decreases |input| - position
    {
      var maxLength := |input| - position - 5;
      var found := finder.InsertAndFind(position);
      if found.None? {
        position := position + 1 + (position - anchor) / 64;
        continue;
      }
      var candidate := found.value;
      var distance := position - candidate;
      var length := MatchLength(input, position, candidate, maxLength);
      LongEnough(input, candidate, position, length, maxLength);
      var start, longer := ExtendBack(input, position, candidate, length, anchor);
      EmittedStep(input, output, anchor, sequences, start, distance, longer);
      sequences := sequences + [Sequence(input[anchor..start], distance, longer)];
      output := WriteSequence(output, input[anchor..start], distance, longer);
      var end := start + longer;
      finder.Insert(end - 2);
      position := end;
      anchor := end;
    }
    EmittedEnd(input, output, anchor, sequences);
    last := input[anchor..];
    output := WriteLastLiterals(output, input[anchor..]);
  }

  /** The match found is at least four bytes and leaves five for the last literals. */
  lemma LongEnough(input: seq<Byte>, left: nat, right: nat, length: nat, limit: nat)
    requires Agree(input, left, right, 4) && Agree(input, right, left, length) && left < right && limit >= 4 && right + limit <= |input|
    requires length < limit ==> input[right + length] != input[left + length]
    ensures length >= 4 && Agree(input, left, right, length)
  {
    if length < limit {
      AtLeastFour(input, left, right, length);
    }
  }

  method CompressBlockHigh(input: seq<Byte>, level: nat) returns (output: seq<Byte>, ghost sequences: seq<Sequence>, ghost last: seq<Byte>)
    requires |input| < NONE && 1 <= level <= 9
    ensures Compresses(output, input, sequences, last)
  {
    hide Emitted, Compresses, LastBytes, Agree, SequenceBytes, HashChain.Valid;
    output, sequences := [], [];
    var maxChain := ChainDepth(level);
    var finder := new HashChain(input, WINDOW_SIZE, maxChain);
    var anchor: nat, position: nat := 0, 0;
    EmittedNothing(input);
    while position + 12 <= |input|
      invariant anchor <= position && finder.Valid() && finder.bound <= position && finder.bytes == input && finder.window == WINDOW_SIZE
      invariant fresh(finder) && fresh(finder.head) && fresh(finder.previous) && anchor <= |input| && Emitted(input, output, anchor, sequences)
      decreases |input| - position
    {
      var maxLength := |input| - position - 5;
      var length, distance := finder.BestMatch(position, maxLength, 4, maxChain);
      if length == 0 {
        finder.Insert(position);
        position := position + 1;
        continue;
      }
      var start, longer := ExtendBack(input, position, position - distance, length, anchor);
      EmittedStep(input, output, anchor, sequences, start, distance, longer);
      sequences := sequences + [Sequence(input[anchor..start], distance, longer)];
      output := WriteSequence(output, input[anchor..start], distance, longer);
      var end := start + longer;
      finder.Insert(end - 2);
      position := end;
      anchor := end;
    }
    EmittedEnd(input, output, anchor, sequences);
    last := input[anchor..];
    output := WriteLastLiterals(output, input[anchor..]);
  }

  method CompressBlock(input: seq<Byte>, level: nat) returns (output: seq<Byte>, ghost sequences: seq<Sequence>, ghost last: seq<Byte>)
    requires |input| < NONE && 1 <= level <= 9
    ensures Compresses(output, input, sequences, last)
  {
    if level <= 6 {
      output, sequences, last := CompressBlockFast(input);
    } else {
      output, sequences, last := CompressBlockHigh(input, level);
    }
  }
}
