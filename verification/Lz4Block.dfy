/** LZ4 blocks: what their bytes mean, with the history a linked block may reach into, and the decoder that reads them. */
module Lz4Block {
  import opened Bytes
  import opened Seqs
  import opened History
  import opened Options

  /** A value read and the position after it. */
  datatype Span = Span(value: nat, at: nat)

  // ----- Meaning -----

  /** The bytes that extend a length: 255 goes on, anything less ends it. */
  function Extended(input: seq<Byte>, at: nat, length: nat): (r: Option<Span>)
    ensures r.Some? ==> at < r.value.at <= |input| && length <= r.value.value
    decreases |input| - at
  {
    if at >= |input| then None
    else if input[at] != 255 then Some(Span(length + input[at], at + 1))
    else Extended(input, at + 1, length + 255)
  }

  function LengthAt(input: seq<Byte>, at: nat, initial: nat): (r: Option<Span>)
    ensures r.Some? ==> at <= r.value.at
  {
    if initial != 15 then Some(Span(initial, at)) else Extended(input, at, 15)
  }

  /** A match may reach through the output into the dictionary, not beyond. */
  function Copied(dict: seq<Byte>, out: seq<Byte>, offset: nat, length: nat): (r: Option<seq<Byte>>)
    ensures r.Some? ==> |r.value| == |out| + length
  {
    if offset == 0 || offset > |dict| + |out| then None else Some(Extend<Byte>(dict + out, offset, length)[|dict|..])
  }

  datatype Step = Stop(out: seq<Byte>) | More(out: seq<Byte>, at: nat) | Error

  function MatchAt(input: seq<Byte>, token: Byte, end: nat, dict: seq<Byte>, out: seq<Byte>, max: nat): (r: Step)
    ensures !r.Stop? && (r.More? ==> end < r.at)
  {
    if end + 2 > |input| then Error else
      var offset := input[end] as int + 256 * input[end + 1] as int;
      var extra := LengthAt(input, end + 2, token % 16);
      if extra.None? then Error else
        var length := extra.value.value + 4;
        if |out| + length > max then Error else
          var copied := Copied(dict, out, offset, length);
          if copied.None? then Error else More(copied.value, extra.value.at)
  }

  /** One sequence: literals, then a match unless the input ends there. */
  function SequenceAt(input: seq<Byte>, at: nat, dict: seq<Byte>, out: seq<Byte>, max: nat): (r: Step)
    requires at < |input|
    ensures r.More? ==> at < r.at
  {
    var token := input[at];
    var literals := LengthAt(input, at + 1, token / 16);
    if literals.None? then Error else
      var start, end := literals.value.at, literals.value.at + literals.value.value;
      if end > |input| || |out| + literals.value.value > max then Error
      else if end == |input| then Stop(out + input[start..end])
      else MatchAt(input, token, end, dict, out + input[start..end], max)
  }

  function Decompressed(input: seq<Byte>, at: nat, dict: seq<Byte>, out: seq<Byte>, max: nat): Option<seq<Byte>>
    decreases |input| - at
  {
    if at >= |input| then Some(out) else
      match SequenceAt(input, at, dict, out, max)
      case Stop(o) => Some(o)
      case More(o, next) => Decompressed(input, next, dict, o, max)
      case Error => None
  }

  // ----- A window is enough -----

  lemma CopiedAfter(before: seq<Byte>, dict: seq<Byte>, out: seq<Byte>, offset: nat, length: nat)
    requires offset <= |dict|
    ensures Copied(before + dict, out, offset, length) == Copied(dict, out, offset, length)
  {
    hide Extend;
    if offset != 0 {
      ExtendSuffix<Byte>(before, dict + out, offset, length);
      Regroup(before, dict, out);
      var e := Extend<Byte>(dict + out, offset, length);
      assert (before + e)[|before + dict|..] == e[|dict|..];
    }
  }

  lemma SequenceAfter(input: seq<Byte>, at: nat, before: seq<Byte>, dict: seq<Byte>, out: seq<Byte>, max: nat)
    requires at < |input| && |dict| >= 65535
    ensures SequenceAt(input, at, before + dict, out, max) == SequenceAt(input, at, dict, out, max)
  {
    hide LengthAt, Copied;
    var token := input[at];
    var literals := LengthAt(input, at + 1, token / 16);
    if literals.Some? {
      var start, end := literals.value.at, literals.value.at + literals.value.value;
      if end + 2 <= |input| {
        var offset := input[end] as int + 256 * input[end + 1] as int;
        var extra := LengthAt(input, end + 2, token % 16);
        if extra.Some? {
          CopiedAfter(before, dict, out + input[start..end], offset, extra.value.value + 4);
        }
      }
    }
  }

  /** Offsets have sixteen bits, so a block decodes the same with its last 65535 or more bytes of history as with all of it. */
  lemma {:induction false} WindowSuffices(input: seq<Byte>, at: nat, before: seq<Byte>, dict: seq<Byte>, out: seq<Byte>, max: nat)
    requires |dict| >= 65535
    ensures Decompressed(input, at, before + dict, out, max) == Decompressed(input, at, dict, out, max)
    decreases |input| - at
  {
    hide SequenceAt;
    if at < |input| {
      SequenceAfter(input, at, before, dict, out, max);
      match SequenceAt(input, at, dict, out, max)
      case More(o, next) => WindowSuffices(input, next, before, dict, o, max);
      case _ =>
    }
  }

  /** A decoded block keeps within its maximum. */
  lemma {:induction false} WithinMaximum(input: seq<Byte>, at: nat, dict: seq<Byte>, out: seq<Byte>, max: nat)
    requires |out| <= max
    ensures Decompressed(input, at, dict, out, max).Some? ==> |Decompressed(input, at, dict, out, max).value| <= max
    decreases |input| - at
  {
    hide LengthAt, Copied;
    if at < |input| {
      match SequenceAt(input, at, dict, out, max)
      case More(o, next) => WithinMaximum(input, next, dict, o, max);
      case _ =>
    }
  }

  /** A larger maximum changes nothing for a block that decodes. */
  lemma {:induction false} LargerMaximum(input: seq<Byte>, at: nat, dict: seq<Byte>, out: seq<Byte>, max: nat, more: nat)
    requires max <= more && Decompressed(input, at, dict, out, max).Some?
    ensures Decompressed(input, at, dict, out, more) == Decompressed(input, at, dict, out, max)
    decreases |input| - at
  {
    hide LengthAt, Copied;
    if at < |input| {
      match SequenceAt(input, at, dict, out, max)
      case More(o, next) => LargerMaximum(input, next, dict, o, max, more);
      case _ =>
    }
  }

  // ----- The decoder -----

  method ReadLength(input: seq<Byte>, position: nat, initial: nat) returns (r: Option<Span>)
    ensures r == LengthAt(input, position, initial)
  {
    if initial != 15 {
      return Some(Span(initial, position));
    }
    var length: nat, at: nat := initial, position;
    while true
      invariant Extended(input, at, length) == Extended(input, position, 15)
      decreases |input| - at
    {
      if at >= |input| {
        return None;
      }
      var extra := input[at];
      at := at + 1;
      length := length + extra;
      if extra != 255 {
        return Some(Span(length, at));
      }
    }
  }

  /** Take what the dictionary has first, then copy within the output. */
  method CopyMatch(output: seq<Byte>, dict: seq<Byte>, offset: nat, length: nat) returns (r: Option<seq<Byte>>)
    ensures r == Copied(dict, output, offset, length)
  {
    hide Extend;
    if offset == 0 || offset > |dict| + |output| {
      return None;
    }
    var needed := if offset > |output| then offset - |output| else 0;
    var out, rest := output, length;
    if needed != 0 {
      var start := |dict| - needed;
      var take := if length < needed then length else needed;
      FromDictionary(dict, output, offset, take);
      out := output + dict[start..start + take];
      rest := length - take;
      ExtendSplit<Byte>(dict + output, offset, take, length);
    }
    if rest != 0 {
      ExtendSuffix<Byte>(dict, out, offset, rest);
      out := ExtendMatch(out, offset, rest);
    } else {
      NoMore(dict + out, offset);
    }
    assert (dict + out)[|dict|..] == out;
    r := Some(out);
  }

  lemma NoMore(all: seq<Byte>, offset: nat)
    requires 1 <= offset <= |all|
    ensures Extend<Byte>(all, offset, 0) == all
  {
  }

  lemma FromDictionary(dict: seq<Byte>, out: seq<Byte>, offset: nat, take: nat)
    requires |out| < offset <= |dict| + |out| && take <= offset - |out|
    ensures var start := |dict| - (offset - |out|); Extend<Byte>(dict + out, offset, take) == dict + (out + dict[start..start + take])
  {
    hide Extend;
    var start := |dict| - (offset - |out|);
    ExtendShort<Byte>(dict + out, offset, take);
    assert (dict + out)[|dict + out| - offset..|dict + out| - offset + take] == dict[start..start + take];
    Regroup(dict, out, dict[start..start + take]);
  }

  method DecompressBlock(input: seq<Byte>, dict: seq<Byte>, max: nat) returns (r: Option<seq<Byte>>)
    ensures r == Decompressed(input, 0, dict, [], max)
  {
    hide LengthAt, Copied;
    var output: seq<Byte>, position := [], 0;
    while position < |input|
      invariant Decompressed(input, position, dict, output, max) == Decompressed(input, 0, dict, [], max)
      decreases |input| - position
    {
      var token := input[position];
      var literals := ReadLength(input, position + 1, token / 16);
      if literals.None? {
        return None;
      }
      var start, end := literals.value.at, literals.value.at + literals.value.value;
      if end > |input| {
        return None;
      }
      if |output| + literals.value.value > max {
        return None;
      }
      ghost var before := output;
      output := output + input[start..end];
      if end == |input| {
        break;
      }
      if end + 2 > |input| {
        return None;
      }
      var offset := input[end] as int + 256 * input[end + 1] as int;
      var extra := ReadLength(input, end + 2, token % 16);
      if extra.None? {
        return None;
      }
      var length := extra.value.value + 4;
      if |output| + length > max {
        return None;
      }
      var copied := CopyMatch(output, dict, offset, length);
      if copied.None? {
        return None;
      }
      assert SequenceAt(input, position, dict, before, max) == More(copied.value, extra.value.at);
      output, position := copied.value, extra.value.at;
    }
    r := Some(output);
  }
}
