/** Which bytes are LZ4 blocks, and of which data: sequences of literals and matches, in both directions. */
module Lz4Sequences {
  import opened Bytes
  import opened Seqs
  import opened History
  import opened Options
  import opened Lz4Block
  import opened Lz4Encode

  /** How a block ends: with literals, under a token whose low half is free, or right after a match, or at once. */
  datatype Ending = Nothing | Last(literals: seq<Byte>, spare: nat)

  function EndingBytes(end: Ending): seq<Byte>
    requires end.Last? ==> end.spare < 16
  {
    match end
    case Nothing => []
    case Last(literals, spare) => [LastToken(|literals|, spare)] + (Extension(|literals|) + literals)
  }

  function LastToken(literals: nat, spare: nat): (t: Byte)
    requires spare < 16
    ensures t / 16 == Nibble(literals) && t % 16 == spare
  {
    16 * Nibble(literals) + spare
  }

  ghost predicate Legal(sequences: seq<Sequence>, end: Ending)
  {
    (forall i :: 0 <= i < |sequences| ==> InRange(sequences[i])) && (end.Last? ==> end.spare < 16)
  }

  ghost function BlockOf(sequences: seq<Sequence>, end: Ending): seq<Byte>
    requires Legal(sequences, end)
    decreases |sequences|
  {
    if sequences == [] then EndingBytes(end) else
      assert InRange(sequences[0]);
      SequenceBytes(sequences[0].literals, sequences[0].distance, sequences[0].length) + BlockOf(sequences[1..], end)
  }

  /** Every byte of a match is the byte `distance` before it, in the block's own data or in the history before that. */
  ghost predicate Repeats(dict: seq<Byte>, text: seq<Byte>, from: nat, length: nat, distance: nat)
    requires from + length <= |text|
  {
    1 <= distance <= |dict| + from && forall i {:trigger text[i]} :: from <= i < from + length ==> text[i] == (dict + text)[|dict| + i - distance]
  }

  /** The text from `at` on is what the sequences and the ending say. */
  ghost predicate Tells(sequences: seq<Sequence>, end: Ending, dict: seq<Byte>, at: nat, text: seq<Byte>)
    decreases |sequences|
  {
    if sequences == [] then at <= |text| && text[at..] == (if end.Last? then end.literals else []) else
      var s := sequences[0];
      var from := at + |s.literals|;
      && from + s.length <= |text| && text[at..from] == s.literals && Repeats(dict, text, from, s.length, s.distance)
      && Tells(sequences[1..], end, dict, from + s.length, text)
  }

  // ----- Copies -----

  lemma CopyIs(dict: seq<Byte>, text: seq<Byte>, from: nat, length: nat, distance: nat)
    requires from + length <= |text| && Repeats(dict, text, from, length, distance)
    ensures Copied(dict, text[..from], distance, length) == Some(text[..from + length])
  {
    hide Extend;
    var out, r := dict + text[..from], dict + text[..from + length];
    assert r[..|out|] == out;
    forall i {:trigger r[i]} | |out| <= i < |r| ensures r[i] == r[i - distance] {
      assert r[i] == text[i - |dict|] && r[i - distance] == (dict + text)[i - distance];
    }
    ContinuesIsExtend(out, distance, r);
    assert r[|dict|..] == text[..from + length];
  }

  lemma CopyOnly(dict: seq<Byte>, out: seq<Byte>, distance: nat, length: nat, text: seq<Byte>)
    requires Copied(dict, out, distance, length).Some? && Copied(dict, out, distance, length).value <= text
    ensures |out| + length <= |text| && text[..|out|] == out && Repeats(dict, text, |out|, length, distance)
  {
    hide Extend;
    var whole, r := dict + out, Extend<Byte>(dict + out, distance, length);
    var copied := r[|dict|..];
    assert whole <= r && r[..|dict|] == dict;
    assert r == dict + copied;
    ExtendContinues(whole, distance, length);
    assert copied[..|out|] == out;
    forall i {:trigger text[i]} | |out| <= i < |out| + length ensures text[i] == (dict + text)[|dict| + i - distance] {
      assert r[|dict| + i] == r[|dict| + i - distance];
      assert (dict + text)[|dict| + i - distance] == (dict + copied)[|dict| + i - distance];
    }
  }

  // ----- Reading a block -----

  lemma TellsStep(sequences: seq<Sequence>, end: Ending, dict: seq<Byte>, at: nat, text: seq<Byte>)
    requires sequences != [] && Tells(sequences, end, dict, at, text)
    ensures var s := sequences[0]; var from := at + |s.literals|;
      from + s.length <= |text| && text[..at] + s.literals == text[..from] && Repeats(dict, text, from, s.length, s.distance)
      && Tells(sequences[1..], end, dict, from + s.length, text)
  {
    hide Repeats;
    var s := sequences[0];
    var from := at + |s.literals|;
    assert text[..at] + text[at..from] == text[..from];
  }

  /** A block of sequences decodes, with the history, to the data they tell. */
  lemma {:induction false} BlockReads(input: seq<Byte>, place: nat, sequences: seq<Sequence>, end: Ending, dict: seq<Byte>, at: nat, text: seq<Byte>, max: nat)
    requires Legal(sequences, end) && Tells(sequences, end, dict, at, text) && |text| <= max
    requires Has(input, place, BlockOf(sequences, end)) && |input| == place + |BlockOf(sequences, end)|
    ensures at <= |text| && Decompressed(input, place, dict, text[..at], max) == Some(text)
    decreases |sequences|
  {
    hide Has, SequenceAt, Copied, Repeats, SequenceBytes, Extension, LastToken, Nibble;
    if sequences == [] {
      assert text == text[..at] + text[at..];
      match end
      case Nothing => assert text[..at] == text;
      case Last(literals, spare) => LastBack(input, place, LastToken(|literals|, spare), literals, dict, text[..at], max);
    } else {
      hide Decompressed, Tells;
      assert InRange(sequences[0]);
      TellsStep(sequences, end, dict, at, text);
      var s := sequences[0];
      var from, bytes := at + |s.literals|, SequenceBytes(s.literals, s.distance, s.length);
      HasSplit(input, place, bytes, BlockOf(sequences[1..], end));
      CopyIs(dict, text, from, s.length, s.distance);
      SequenceBack(input, place, s.literals, s.distance, s.length, dict, text[..at], text[..from + s.length], max, place + |bytes|);
      DecompressedMore(input, place, dict, text[..at], max, text[..from + s.length], place + |bytes|);
      BlockReads(input, place + |bytes|, sequences[1..], end, dict, from + s.length, text, max);
    }
  }

  // ----- Nothing else is read -----

  lemma HasOne<T>(input: seq<T>, at: nat, b: T)
    requires at < |input| && input[at] == b
    ensures Has(input, at, [b])
  {
  }

  lemma {:induction false} ExtendedOnly(input: seq<Byte>, at: nat, base: nat)
    requires Extended(input, at, base).Some?
    ensures var r := Extended(input, at, base).value; Has(input, at, LengthBytes(r.value - base)) && r.at == at + |LengthBytes(r.value - base)|
    decreases |input| - at
  {
    HasOne(input, at, input[at]);
    if input[at] == 255 {
      ExtendedOnly(input, at + 1, base + 255);
      var r := Extended(input, at, base).value;
      hide Has;
      HasBoth(input, at, [255 as Byte], LengthBytes(r.value - base - 255));
    }
  }

  lemma LengthOnly(input: seq<Byte>, at: nat, initial: nat)
    requires at <= |input| && initial < 16 && LengthAt(input, at, initial).Some?
    ensures var r := LengthAt(input, at, initial).value;
      initial == Nibble(r.value) && Has(input, at, Extension(r.value)) && r.at == at + |Extension(r.value)| <= |input|
  {
    hide LengthBytes;
    if initial == 15 {
      ExtendedOnly(input, at, 15);
    }
  }

  /** What the reader of a match has read. */
  lemma MatchOnly(input: seq<Byte>, token: Byte, end: nat, dict: seq<Byte>, out: seq<Byte>, max: nat) returns (distance: nat, length: nat)
    requires MatchAt(input, token, end, dict, out, max).More?
    ensures 1 <= distance <= 65535 && length >= 4 && token % 16 == Nibble(length - 4) && Copied(dict, out, distance, length).Some?
    ensures MatchAt(input, token, end, dict, out, max) == More(Copied(dict, out, distance, length).value, end + 2 + |Extension(length - 4)|)
    ensures Has(input, end, OffsetBytes(distance) + Extension(length - 4)) && end + 2 + |Extension(length - 4)| <= |input|
  {
    hide LengthAt, Extension, Nibble, Extend;
    distance := input[end] as int + 256 * input[end + 1] as int;
    var extra := LengthAt(input, end + 2, token % 16);
    LengthOnly(input, end + 2, token % 16);
    length := extra.value.value + 4;
    assert input[end..end + 2] == OffsetBytes(distance);
    HasBoth(input, end, OffsetBytes(distance), Extension(length - 4));
  }

  /** What the reader of literals has read. */
  lemma LiteralsOnly(input: seq<Byte>, at: nat, start: nat, end: nat, rest: seq<Byte>)
    requires at < |input| && start <= end && LengthAt(input, at + 1, input[at] / 16) == Some(Span(end - start, start))
    requires end <= |input| && Has(input, end, rest)
    ensures input[at] / 16 == Nibble(end - start) && Has(input, at, [input[at]] + (Extension(end - start) + (input[start..end] + rest)))
    ensures end + |rest| == at + |[input[at]] + (Extension(end - start) + (input[start..end] + rest))|
  {
    hide LengthAt, Extension, Nibble;
    LengthOnly(input, at + 1, input[at] / 16);
    var literals := input[start..end];
    HasSame(input, start, end);
    HasOne(input, at, input[at]);
    hide Has;
    HasBoth(input, start, literals, rest);
    HasBoth(input, at + 1, Extension(end - start), literals + rest);
    HasBoth(input, at, [input[at]], Extension(end - start) + (literals + rest));
  }

  lemma HasSame<T>(input: seq<T>, i: nat, j: nat)
    requires i <= j <= |input|
    ensures Has(input, i, input[i..j])
  {
  }

  /** One step of the decoder read one sequence. */
  lemma SequenceOnly(input: seq<Byte>, at: nat, dict: seq<Byte>, out: seq<Byte>, text: seq<Byte>, max: nat) returns (s: Sequence)
    requires at < |input| && SequenceAt(input, at, dict, out, max).More? && out <= text && SequenceAt(input, at, dict, out, max).out <= text
    ensures InRange(s) && Has(input, at, SequenceBytes(s.literals, s.distance, s.length))
    ensures SequenceAt(input, at, dict, out, max).at == at + |SequenceBytes(s.literals, s.distance, s.length)| <= |input|
    ensures var from := |out| + |s.literals|;
      from + s.length <= |text| && text[|out|..from] == s.literals && Repeats(dict, text, from, s.length, s.distance)
      && SequenceAt(input, at, dict, out, max).out == text[..from + s.length]
  {
    hide LengthAt, MatchAt, Has, Extension, Nibble, Copied, Repeats, OffsetBytes;
    var token, literals := input[at], LengthAt(input, at + 1, input[at] / 16);
    var start, end := literals.value.at, literals.value.at + literals.value.value;
    LengthOnly(input, at + 1, token / 16);
    var mid := out + input[start..end];
    var distance, length := MatchOnly(input, token, end, dict, mid, max);
    s := Sequence(input[start..end], distance, length);
    LiteralsOnly(input, at, start, end, OffsetBytes(distance) + Extension(length - 4));
    CopyOnly(dict, mid, distance, length, text);
    TokenIs(token, end - start, length - 4);
    Prefixes(out, s.literals, text, SequenceAt(input, at, dict, out, max).out);
  }

  lemma TokenIs(token: Byte, literals: nat, matched: nat)
    requires token / 16 == Nibble(literals) && token % 16 == Nibble(matched)
    ensures token == Token(literals, matched)
  {
  }

  lemma Prefixes(out: seq<Byte>, literals: seq<Byte>, text: seq<Byte>, done: seq<Byte>)
    requires |out| + |literals| <= |text| && text[..|out| + |literals|] == out + literals && done <= text
    ensures text[|out|..|out| + |literals|] == literals && done == text[..|done|]
  {
    assert text[|out|..|out| + |literals|] == text[..|out| + |literals|][|out|..];
  }

  /** Decoding only appends. */
  lemma {:induction false} DecodingAppends(input: seq<Byte>, at: nat, dict: seq<Byte>, out: seq<Byte>, max: nat)
    requires Decompressed(input, at, dict, out, max).Some?
    ensures out <= Decompressed(input, at, dict, out, max).value
    decreases |input| - at
  {
    hide SequenceAt;
    if at < |input| {
      StepAppends(input, at, dict, out, max);
      match SequenceAt(input, at, dict, out, max)
      case More(o, next) => DecodingAppends(input, next, dict, o, max);
      case _ =>
    }
  }

  lemma StepAppends(input: seq<Byte>, at: nat, dict: seq<Byte>, out: seq<Byte>, max: nat)
    requires at < |input| && !SequenceAt(input, at, dict, out, max).Error?
    ensures out <= SequenceAt(input, at, dict, out, max).out
  {
    hide LengthAt, Extend;
    var literals := LengthAt(input, at + 1, input[at] / 16);
    var start, end := literals.value.at, literals.value.at + literals.value.value;
    var mid := out + input[start..end];
    assert out <= mid;
    if SequenceAt(input, at, dict, out, max).More? {
      CopyAppends(input, input[at], end, dict, mid, max);
    }
  }

  lemma CopyAppends(input: seq<Byte>, token: Byte, end: nat, dict: seq<Byte>, out: seq<Byte>, max: nat)
    requires MatchAt(input, token, end, dict, out, max).More?
    ensures out <= MatchAt(input, token, end, dict, out, max).out
  {
    hide LengthAt, Extend;
    var distance, length := MatchOnly(input, token, end, dict, out, max);
    var r := Extend<Byte>(dict + out, distance, length);
    assert dict + out <= r;
    assert r[|dict|..][..|out|] == out;
  }

  /** The decoder stopped at literals that end the input. */
  lemma LastOnly(input: seq<Byte>, at: nat, dict: seq<Byte>, out: seq<Byte>, max: nat) returns (end: Ending)
    requires at < |input| && SequenceAt(input, at, dict, out, max).Stop?
    ensures end.Last? && end.spare < 16 && SequenceAt(input, at, dict, out, max).out == out + end.literals
    ensures Has(input, at, EndingBytes(end)) && |input| == at + |EndingBytes(end)|
  {
    hide LengthAt, MatchAt, Extension, Nibble, Has;
    var token, literals := input[at], LengthAt(input, at + 1, input[at] / 16);
    var start, stop := literals.value.at, literals.value.at + literals.value.value;
    LengthOnly(input, at + 1, token / 16);
    end := Last(input[start..stop], token % 16);
    HasNothing(input, stop);
    LiteralsOnly(input, at, start, stop, []);
    assert input[start..stop] + [] == input[start..stop];
    assert LastToken(|input[start..stop]|, token % 16) == token;
  }

  lemma HasNothing<T>(input: seq<T>, at: nat)
    requires at <= |input|
    ensures Has(input, at, [])
  {
  }

  /** Whatever the decoder accepts is a block of sequences that tell the data it gives. */
  lemma {:induction false} BlockOnly(input: seq<Byte>, at: nat, dict: seq<Byte>, out: seq<Byte>, max: nat) returns (sequences: seq<Sequence>, end: Ending)
    requires at <= |input| && Decompressed(input, at, dict, out, max).Some?
    ensures Legal(sequences, end) && Has(input, at, BlockOf(sequences, end)) && |input| == at + |BlockOf(sequences, end)|
    ensures Tells(sequences, end, dict, |out|, Decompressed(input, at, dict, out, max).value)
    decreases |input| - at
  {
    hide SequenceAt, SequenceBytes, Repeats, EndingBytes;
    var text := Decompressed(input, at, dict, out, max).value;
    DecodingAppends(input, at, dict, out, max);
    if at == |input| {
      sequences, end := [], Nothing;
      NoEnding(input);
    } else if SequenceAt(input, at, dict, out, max).Stop? {
      sequences := [];
      end := LastOnly(input, at, dict, out, max);
    } else {
      var step := SequenceAt(input, at, dict, out, max);
      DecodingAppends(input, step.at, dict, step.out, max);
      var s := SequenceOnly(input, at, dict, out, text, max);
      var rest: seq<Sequence>;
      rest, end := BlockOnly(input, step.at, dict, step.out, max);
      sequences := [s] + rest;
      assert sequences[1..] == rest;
      hide Has;
      HasBoth(input, at, SequenceBytes(s.literals, s.distance, s.length), BlockOf(rest, end));
    }
  }

  lemma NoEnding(input: seq<Byte>)
    ensures Has(input, |input|, EndingBytes(Nothing)) && EndingBytes(Nothing) == []
  {
  }

  /** The decoder accepts exactly the blocks of sequences that reach no further back than the history, and gives what they tell. */
  lemma BlockExactly(input: seq<Byte>, dict: seq<Byte>, max: nat, text: seq<Byte>)
    ensures Decompressed(input, 0, dict, [], max) == Some(text) <==>
            |text| <= max && exists sequences, end :: Legal(sequences, end) && input == BlockOf(sequences, end) && Tells(sequences, end, dict, 0, text)
  {
    hide Decompressed, BlockOf, Tells, Legal;
    if Decompressed(input, 0, dict, [], max) == Some(text) {
      WithinMaximum(input, 0, dict, [], max);
      var sequences, end := BlockOnly(input, 0, dict, [], max);
      HasSlice(input, 0, BlockOf(sequences, end));
      assert input[0..|input|] == input;
    }
    forall sequences, end | |text| <= max && Legal(sequences, end) && input == BlockOf(sequences, end) && Tells(sequences, end, dict, 0, text)
      ensures Decompressed(input, 0, dict, [], max) == Some(text)
    {
      HasJoin([], input, [], input) by { assert [] + input + [] == input; }
      BlockReads(input, 0, sequences, end, dict, 0, text, max);
      assert text[..0] == [];
    }
  }
}
