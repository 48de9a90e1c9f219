/** Random access to the decoded text of a bzip2 input through its index, with a cache of decoded blocks. */
module IndexedReading {
  import opened Bytes
  import opened BitStream
  import opened BitReading
  import opened Options
  import opened SeekIndex
  import BlockCodec
  import Bzip2Stream
  import MarkerDecoding
  import Seqs

  // ----- The cache -----

  ghost predicate NoDuplicates(order: seq<nat>)
  {
    forall i, j :: 0 <= i < j < |order| ==> order[i] != order[j]
  }

  /** The bytes held, entry by entry in the order of use. */
  function Held(order: seq<nat>, entries: map<nat, seq<Byte>>): nat
    requires forall k :: k in order ==> k in entries
  {
    if order == [] then 0 else |entries[order[0]]| + Held(order[1..], entries)
  }

  lemma {:induction false} HeldSame(order: seq<nat>, a: map<nat, seq<Byte>>, b: map<nat, seq<Byte>>)
    requires forall k :: k in order ==> k in a && k in b && a[k] == b[k]
    ensures Held(order, a) == Held(order, b)
  {
    if order != [] {
      HeldSame(order[1..], a, b);
    }
  }

  lemma {:induction false} HeldPush(order: seq<nat>, k: nat, entries: map<nat, seq<Byte>>)
    requires k in entries && forall i :: i in order ==> i in entries
    ensures Held(order + [k], entries) == Held(order, entries) + |entries[k]|
  {
    if order == [] {
      assert ([] + [k])[1..] == [];
    } else {
      HeldPush(order[1..], k, entries);
      assert (order + [k])[1..] == order[1..] + [k];
    }
  }

  function Dropped(order: seq<nat>, number: nat): (r: seq<nat>)
    ensures forall k :: k in r <==> k in order && k != number
  {
    if order == [] then [] else (if order[0] == number then [] else [order[0]]) + Dropped(order[1..], number)
  }

  lemma RestDistinct(order: seq<nat>)
    requires NoDuplicates(order) && order != []
    ensures NoDuplicates(order[1..]) && order[0] !in order[1..]
  {
  }

  lemma FrontDistinct(first: nat, rest: seq<nat>)
    requires NoDuplicates(rest) && first !in rest
    ensures NoDuplicates([first] + rest)
  {
  }

  lemma {:induction false} DroppedDistinct(order: seq<nat>, number: nat)
    requires NoDuplicates(order)
    ensures NoDuplicates(Dropped(order, number))
  {
    hide NoDuplicates;
    if order == [] {
      NoneDistinct();
    } else {
      RestDistinct(order);
      DroppedDistinct(order[1..], number);
      var rest := Dropped(order[1..], number);
      if order[0] == number {
        assert Dropped(order, number) == [] + rest == rest;
      } else {
        FrontDistinct(order[0], rest);
      }
    }
  }

  lemma NoneDistinct()
    ensures NoDuplicates([])
  {
  }

  lemma {:induction false} DroppedAbsent(order: seq<nat>, number: nat)
    requires number !in order
    ensures Dropped(order, number) == order
  {
    if order != [] {
      DroppedAbsent(order[1..], number);
      assert order == [order[0]] + order[1..];
    }
  }

  lemma HeldFront(first: nat, rest: seq<nat>, entries: map<nat, seq<Byte>>)
    requires first in entries && forall k :: k in rest ==> k in entries
    ensures Held([first] + rest, entries) == |entries[first]| + Held(rest, entries)
  {
    assert ([first] + rest)[1..] == rest;
  }

  /** Dropping a key takes its bytes out of the count. */
  lemma {:induction false} DroppedHeld(order: seq<nat>, number: nat, entries: map<nat, seq<Byte>>)
    requires NoDuplicates(order) && number in order && forall k :: k in order ==> k in entries
    ensures Held(Dropped(order, number), entries) + |entries[number]| == Held(order, entries)
  {
    hide NoDuplicates;
    RestDistinct(order);
    var rest := order[1..];
    if order[0] == number {
      DroppedAbsent(rest, number);
      assert Dropped(order, number) == [] + rest == rest;
    } else {
      DroppedHeld(rest, number, entries);
      HeldFront(order[0], Dropped(rest, number), entries);
    }
  }

  /** The order lists each key once, and the byte count is exact. */
  ghost predicate Kept(order: seq<nat>, entries: map<nat, seq<Byte>>, bytes: nat)
  {
    NoDuplicates(order) && (forall k :: k in entries <==> k in order) && bytes == Held(order, entries)
  }

  function Without(entries: map<nat, seq<Byte>>, key: nat): (r: map<nat, seq<Byte>>)
    ensures forall k :: k in r <==> k in entries && k != key
    ensures forall k :: k in r ==> r[k] == entries[k]
  {
    map k | k in entries && k != key :: entries[k]
  }

  lemma KeptEvict(order: seq<nat>, entries: map<nat, seq<Byte>>, bytes: nat)
    requires Kept(order, entries, bytes) && order != []
    ensures order[0] in entries && |entries[order[0]]| <= bytes
    ensures Kept(order[1..], Without(entries, order[0]), bytes - |entries[order[0]]|)
  {
    assert order[0] !in order[1..];
    HeldSame(order[1..], entries, Without(entries, order[0]));
  }

  lemma KeptInsert(order: seq<nat>, entries: map<nat, seq<Byte>>, bytes: nat, number: nat, data: seq<Byte>)
    requires Kept(order, entries, bytes) && number !in entries
    ensures Kept(order + [number], entries[number := data], bytes + |data|)
  {
    HeldSame(order, entries, entries[number := data]);
    HeldPush(order, number, entries[number := data]);
  }

  lemma BackDistinct(order: seq<nat>, last: nat)
    requires NoDuplicates(order) && last !in order
    ensures NoDuplicates(order + [last])
  {
  }

  lemma KeptTouch(order: seq<nat>, entries: map<nat, seq<Byte>>, bytes: nat, number: nat)
    requires Kept(order, entries, bytes) && number in entries
    ensures Kept(Dropped(order, number) + [number], entries, bytes)
  {
    hide NoDuplicates;
    DroppedDistinct(order, number);
    DroppedHeld(order, number, entries);
    BackDistinct(Dropped(order, number), number);
    HeldPush(Dropped(order, number), number, entries);
  }

  class BlockCache {
    const limit: nat
    var entries: map<nat, seq<Byte>>
    var order: seq<nat>
    var bytes: nat

    /** The order lists each key once; the byte count is exact and within the limit. */
    ghost predicate Valid()
      reads this
    {
      Kept(order, entries, bytes) && bytes <= limit
    }

    constructor (limit: nat)
      ensures Valid() && entries == map[] && this.limit == limit
    {
      this.limit, entries, order, bytes := limit, map[], [], 0;
    }

    /** A hit moves its entry to the recent end. */
    method Get(number: nat) returns (r: Option<seq<Byte>>)
      requires Valid()
      modifies this`order
      ensures Valid() && r == if number in entries then Some(entries[number]) else None
    {
      if number !in entries {
        return None;
      }
      hide Kept, Dropped;
      KeptTouch(order, entries, bytes, number);
      order := Dropped(order, number) + [number];
      r := Some(entries[number]);
    }

    /** Evict the least recently used entries until the new one fits; one that never fits is not kept. */
    method Insert(number: nat, data: seq<Byte>)
      requires Valid() && number !in entries
      modifies this
      ensures Valid() && (number in entries <==> |data| <= limit) && (number in entries ==> entries[number] == data)
      ensures forall k :: k in entries && k != number ==> k in old(entries) && entries[k] == old(entries)[k]
    {
      hide Kept, Without;
      if |data| > limit {
        return;
      }
      while bytes + |data| > limit
        invariant Valid() && number !in entries
        invariant forall k :: k in entries ==> k in old(entries) && entries[k] == old(entries)[k]
        decreases |order|
      {
        if order == [] {
          KeptNothing(entries, bytes);
          break;
        }
        KeptEvict(order, entries, bytes);
        var oldest := order[0];
        bytes := bytes - |entries[oldest]|;
        order := order[1..];
        entries := Without(entries, oldest);
      }
      KeptInsert(order, entries, bytes, number, data);
      bytes := bytes + |data|;
      order := order + [number];
      entries := entries[number := data];
    }
  }

  lemma KeptNothing(entries: map<nat, seq<Byte>>, bytes: nat)
    requires Kept([], entries, bytes)
    ensures bytes == 0
  {
  }

  // ----- Blocks of the text -----

  lemma Decodes(s: seq<bool>, b: BlockIndex, level: nat, at: nat, d: BlockCodec.Decoded)
    requires 1 <= level <= 9 && at == b.startBit + 48 && ReadBits(s, b.startBit, 48) == Parsed(BlockCodec.BLOCK_MAGIC, at)
    requires BlockCodec.ParseBlock(s, at, level, Some(b.expectedCrc), Bzip2Stream.CRC) == Parsed(d, b.endBit)
    ensures DecodesTo(s, b, level, d.output)
  {
    hide BlockCodec.ParseBlock, ReadBits, Bzip2Stream.CRC;
  }

  lemma DecodesHere(s: seq<bool>, b: BlockIndex, level: nat, part: seq<Byte>, at: nat)
    requires DecodesTo(s, b, level, part) && at == b.startBit + 48
    ensures 1 <= level <= 9 && at <= |s| && ReadBits(s, b.startBit, 48) == Parsed(BlockCodec.BLOCK_MAGIC, at)
    ensures var d := BlockCodec.ParseBlock(s, at, level, Some(b.expectedCrc), Bzip2Stream.CRC);
      d.Parsed? && d.at == b.endBit && d.value.output == part
  {
    hide BlockCodec.ParseBlock, ReadBits, Bzip2Stream.CRC;
  }

  /** Decode one block between exact positions at its level. */
  method DecodeBlockAt(data: seq<Byte>, b: BlockIndex, level: nat, ghost part: seq<Byte>) returns (r: Option<seq<Byte>>)
    ensures r.Some? ==> DecodesTo(Stream(data), b, level, r.value)
    ensures DecodesTo(Stream(data), b, level, part) && b.startBit < b.endBit ==> r == Some(part)
  {
    hide Stream, BlockCodec.ParseBlock, ReadBits, DecodesTo, Bzip2Stream.CRC;
    ghost var s, at := Stream(data), b.startBit + 48;
    if DecodesTo(s, b, level, part) {
      DecodesHere(s, b, level, part, at);
    }
    if !(1 <= level <= 9) || b.endBit <= b.startBit || b.startBit > 8 * |data| {
      return None;
    }
    var bits := new Bits(data, b.startBit);
    var magic := bits.Magic();
    if magic.Err? || magic.value != BlockCodec.BLOCK_MAGIC {
      return None;
    }
    r := ReadBlockBody(bits, b.endBit, level, b.expectedCrc);
    if r.Some? {
      Decodes(s, b, level, at, BlockCodec.ParseBlock(s, at, level, Some(b.expectedCrc), Bzip2Stream.CRC).value);
    }
  }

  /** The block after its magic, which must end exactly at the given bit. */
  method ReadBlockBody(bits: Bits, endBit: nat, level: nat, crc: nat) returns (r: Option<seq<Byte>>)
    requires bits.Valid()
    modifies bits
    ensures var d := BlockCodec.ParseBlock(bits.All(), old(bits.bit), level, Some(crc), Bzip2Stream.CRC);
      if d.Parsed? && d.at == endBit then r == Some(d.value.output) else r == None
  {
    hide Stream, BlockCodec.ParseBlock;
    var d := BlockCodec.DecodeBlock(bits, level, Some(crc), Bzip2Stream.CRC);
    if d.Err? || bits.bit != endBit {
      return None;
    }
    r := Some(d.value.output);
  }

  /** Part `i` is the slice of the text that its record names. */
  lemma PartIsSlice(s: seq<bool>, blocks: seq<BlockIndex>, levels: seq<nat>, parts: seq<seq<Byte>>, text: seq<Byte>, i: nat)
    requires BlockRows(s, blocks, levels, parts) && Flat(parts) == text && i < |blocks|
    ensures |parts| == |blocks| && blocks[i].decodedLen == |parts[i]| > 0 && blocks[i].decodedStart + |parts[i]| <= |text|
    ensures parts[i] == text[blocks[i].decodedStart..blocks[i].decodedStart + |parts[i]|]
  {
    hide BlockRows;
    RowFacts(s, blocks, levels, parts, i);
    FlatPrefix(parts, i);
    FlatGrows(parts, i + 1, |parts|);
    hide Flat;
    assert parts[..|parts|] == parts;
    var before, upTo := Flat(parts[..i]), Flat(parts[..i + 1]);
    assert upTo == before + parts[i] && text[..|upTo|] == upTo;
    assert upTo[|before|..] == parts[i];
  }

  /** Ends of blocks ascend. */
  lemma {:induction false} EndsAscend(s: seq<bool>, blocks: seq<BlockIndex>, levels: seq<nat>, parts: seq<seq<Byte>>, i: nat, j: nat)
    requires BlockRows(s, blocks, levels, parts) && i < j < |blocks|
    ensures blocks[i].decodedStart + blocks[i].decodedLen <= blocks[j].decodedStart
    decreases j
  {
    hide BlockRows;
    RowFollows(s, blocks, levels, parts, j - 1, j);
    if i < j - 1 {
      EndsAscend(s, blocks, levels, parts, i, j - 1);
      RowFacts(s, blocks, levels, parts, j - 1);
    }
  }

  // ----- The reader -----

  datatype Whence = Start | Current | End

  function Min(a: nat, b: nat): nat { if a < b then a else b }

  /** Everything the index says about the source. */
  datatype View = View(text: seq<Byte>, levels: seq<nat>, parts: seq<seq<Byte>>)

  class IndexedReader {
    const data: seq<Byte>
    const index: Index
    const cache: BlockCache
    var position: nat
    ghost const view: View

    ghost predicate Valid()
      reads this, cache
    {
      && Describes(index, data, view.text, view.levels, view.parts) && position <= |view.text|
      && cache.Valid() && Faithful(cache.entries)
    }

    /** Whatever the cache holds are parts of the text. */
    ghost predicate Faithful(entries: map<nat, seq<Byte>>)
    {
      forall k :: k in entries ==> k < |view.parts| && entries[k] == view.parts[k]
    }

    constructor (data: seq<Byte>, index: Index, cacheLimit: nat, ghost view: View)
      requires Describes(index, data, view.text, view.levels, view.parts)
      ensures Valid() && position == 0 && this.view == view && fresh(cache)
    {
      hide Describes;
      this.data, this.index, this.view := data, index, view;
      cache := new BlockCache(cacheLimit);
      position := 0;
    }

    lemma Meaning()
      requires Valid()
      ensures index.decodedLen == |view.text| && Flat(view.parts) == view.text
      ensures BlockRows(Stream(data), index.blocks, view.levels, view.parts) && |index.blocks| == |view.parts| == |view.levels|
      ensures forall i :: 0 <= i < |index.blocks| ==> index.blocks[i].stream < |index.streams| && view.levels[i] == index.streams[index.blocks[i].stream].level
    {
      hide BlockRow, StreamRow, Flat, Stream;
      StreamsInOrder(Stream(data), index.streams, index.blocks, view.levels, view.parts, |index.streams|);
    }

    /** The first block that ends after the position. */
    method BlockNumber(at: nat) returns (r: Option<nat>)
      requires Valid()
      ensures r.Some? <==> at < |view.text|
      ensures r.Some? ==> r.value < |index.blocks| && index.blocks[r.value].decodedStart <= at < index.blocks[r.value].decodedStart + index.blocks[r.value].decodedLen
    {
      hide Valid, Stream, BlockRows, Flat;
      Meaning();
      ghost var s := Stream(data);
      var low: nat, high: nat := 0, |index.blocks|;
      while low < high
        invariant low <= high <= |index.blocks|
        invariant low > 0 ==> index.blocks[low - 1].decodedStart + index.blocks[low - 1].decodedLen <= at
        invariant high < |index.blocks| ==> index.blocks[high].decodedStart + index.blocks[high].decodedLen > at
      {
        var mid := (low + high) / 2;
        if index.blocks[mid].decodedStart + index.blocks[mid].decodedLen <= at {
          low := mid + 1;
        } else {
          high := mid;
        }
      }
      Located(s, index.blocks, view.levels, view.parts, view.text, low, at);
      r := if low < |index.blocks| then Some(low) else None;
    }

    /** Bytes of one block from the position on, from the cache or decoded anew. */
    method ReadBlockPart(number: nat, wanted: nat) returns (r: Option<seq<Byte>>)
      requires Valid() && number < |index.blocks|
      requires index.blocks[number].decodedStart <= position < index.blocks[number].decodedStart + index.blocks[number].decodedLen
      modifies cache
      ensures Valid()
      ensures var end := Min(position + wanted, index.blocks[number].decodedStart + index.blocks[number].decodedLen);
        end <= |view.text| && r == Some(view.text[position..end])
    {
      hide Stream, BlockRows, Flat, Describes, DecodesTo, BlockCache.Valid;
      Meaning();
      var b := index.blocks[number];
      ghost var part := view.parts[number];
      PartIsSlice(Stream(data), index.blocks, view.levels, view.parts, view.text, number);
      var offset := position - b.decodedStart;
      SliceOfPart(view.text, part, b.decodedStart, position, offset, Min(wanted, |part| - offset));
      var cached := cache.Get(number);
      if cached.Some? {
        var count := Min(wanted, |cached.value| - offset);
        return Some(cached.value[offset..offset + count]);
      }
      RowDecodes(Stream(data), index.blocks, view.levels, view.parts, number);
      var decoded := DecodeBlockAt(data, b, index.streams[b.stream].level, part);
      if decoded.None? || |decoded.value| != b.decodedLen {
        return None;
      }
      var count := Min(wanted, |decoded.value| - offset);
      r := Some(decoded.value[offset..offset + count]);
      cache.Insert(number, decoded.value);
    }

    /** The requested slice of the text, however blocks and cache cut it. */
    method Read(requested: nat) returns (r: Option<seq<Byte>>)
      requires Valid()
      modifies this`position, cache
      ensures Valid() && r == Some(view.text[old(position)..Min(old(position) + requested, |view.text|)])
      ensures position == Min(old(position) + requested, |view.text|)
    {
      hide Valid, Stream, BlockRows, Flat;
      Meaning();
      PositionWithin();
      var output: seq<Byte>, left: nat := [], requested;
      while left > 0 && position < index.decodedLen
        invariant Valid() && old(position) <= position <= |view.text| && position + left == old(position) + requested
        invariant output == view.text[old(position)..position]
        decreases left
      {
        var number := BlockNumber(position);
        if number.None? {
          return None;
        }
        var bytes := ReadBlockPart(number.value, left);
        if bytes.None? || |bytes.value| == 0 {
          return None;
        }
        assert view.text[old(position)..position] + view.text[position..position + |bytes.value|] == view.text[old(position)..position + |bytes.value|];
        Advance(|bytes.value|);
        output := output + bytes.value;
        left := left - |bytes.value|;
      }
      r := Some(output);
    }

    method Advance(count: nat)
      requires Valid() && position + count <= |view.text|
      modifies this`position
      ensures Valid() && position == old(position) + count
    {
      hide Describes;
      position := position + count;
    }

    lemma PositionWithin()
      requires Valid()
      ensures position <= |view.text|
    {
    }

    /** Any position within the text, counted from its start, its end or here; anywhere else is refused. */
    method Seek(whence: Whence, offset: int) returns (r: Option<nat>)
      requires Valid()
      modifies this`position
      ensures Valid() && position == if r.Some? then r.value else old(position)
      ensures whence.Start? ==> r == if 0 <= offset <= |view.text| then Some(offset) else None
      ensures whence.Current? ==> r == if 0 <= old(position) + offset <= |view.text| then Some(old(position) + offset) else None
      ensures whence.End? ==> r == if 0 <= |view.text| + offset <= |view.text| then Some(|view.text| + offset) else None
    {
      hide Describes;
      LengthIs();
      var next := match whence case Start => offset case Current => position + offset case End => index.decodedLen + offset;
      if !(0 <= next <= index.decodedLen) {
        return None;
      }
      position := next;
      r := Some(position);
    }

    lemma LengthIs()
      requires Valid()
      ensures index.decodedLen == |view.text|
    {
      hide BlockRows, StreamRows, Flat;
    }
  }

  lemma Located(s: seq<bool>, blocks: seq<BlockIndex>, levels: seq<nat>, parts: seq<seq<Byte>>, text: seq<Byte>, low: nat, at: nat)
    requires BlockRows(s, blocks, levels, parts) && Flat(parts) == text && low <= |blocks|
    requires low > 0 ==> blocks[low - 1].decodedStart + blocks[low - 1].decodedLen <= at
    requires low < |blocks| ==> blocks[low].decodedStart + blocks[low].decodedLen > at
    ensures low < |blocks| <==> at < |text|
    ensures low < |blocks| ==> blocks[low].decodedStart <= at
  {
    hide BlockRows;
    if low < |blocks| {
      PartIsSlice(s, blocks, levels, parts, text, low);
      if low > 0 {
        RowFollows(s, blocks, levels, parts, low - 1, low);
      } else {
        StartsAfter(s, blocks, levels, parts, low);
      }
    } else {
      TextEnds(s, blocks, levels, parts, text);
    }
  }

  lemma TextEnds(s: seq<bool>, blocks: seq<BlockIndex>, levels: seq<nat>, parts: seq<seq<Byte>>, text: seq<Byte>)
    requires BlockRows(s, blocks, levels, parts) && Flat(parts) == text
    ensures |text| == if blocks == [] then 0 else blocks[|blocks| - 1].decodedStart + blocks[|blocks| - 1].decodedLen
  {
    MarkerDecoding.SameSize(s, blocks, levels, parts);
    hide BlockRows;
    if blocks != [] {
      RowFacts(s, blocks, levels, parts, |blocks| - 1);
      assert parts[..|parts|] == parts;
    }
  }

  lemma RowDecodes(s: seq<bool>, blocks: seq<BlockIndex>, levels: seq<nat>, parts: seq<seq<Byte>>, i: nat)
    requires BlockRows(s, blocks, levels, parts) && i < |blocks|
    ensures |parts| == |blocks| == |levels| && DecodesTo(s, blocks[i], levels[i], parts[i]) && blocks[i].startBit < blocks[i].endBit
  {
    hide DecodesTo, Flat;
    assert BlockRow(s, blocks, levels, parts, i);
  }

  lemma SliceOfPart(text: seq<Byte>, part: seq<Byte>, start: nat, position: nat, offset: nat, count: nat)
    requires start + |part| <= |text| && part == text[start..start + |part|] && position == start + offset && offset + count <= |part|
    ensures part[offset..offset + count] == text[position..position + count]
  {
    Seqs.Nested(text, part, start, start + |part|, offset, offset + count, position, position + count);
  }

  // ----- Sequences of requests -----

  datatype Request = SeekTo(whence: Whence, offset: int) | ReadNext(count: nat)

  datatype Reply = Position(at: Option<nat>) | Content(bytes: seq<Byte>)

  function Sought(length: nat, position: nat, whence: Whence, offset: int): Option<nat>
  {
    var next := match whence case Start => offset case Current => position + offset case End => length + offset;
    if 0 <= next <= length then Some(next) else None
  }

  /** What a request answers on the bare text, and where it leaves the position. */
  function Answer(text: seq<Byte>, position: nat, request: Request): (r: (Reply, nat))
    requires position <= |text|
    ensures r.1 <= |text|
  {
    match request
    case SeekTo(whence, offset) =>
      var next := Sought(|text|, position, whence, offset);
      (Position(next), if next.Some? then next.value else position)
    case ReadNext(count) =>
      var end := Min(position + count, |text|);
      (Content(text[position..end]), end)
  }

  function Replies(text: seq<Byte>, position: nat, requests: seq<Request>): (r: seq<Reply>)
    requires position <= |text|
    decreases requests
  {
    if requests == [] then [] else
      var a := Answer(text, position, requests[0]);
      [a.0] + Replies(text, a.1, requests[1..])
  }

  // ----- What the answers are -----

  /** Whatever the position, the last `n` bytes are a seek from the end away. */
  lemma SeekFromEnd(text: seq<Byte>, position: nat, n: int)
    requires position <= |text| && 0 <= n <= |text|
    ensures Replies(text, position, [SeekTo(End, -n), ReadNext(n)]) == [Position(Some(|text| - n)), Content(text[|text| - n..])]
  {
    TwoReplies(text, position, SeekTo(End, -n), ReadNext(n));
    assert text[|text| - n..] == text[|text| - n..|text|];
  }

  /** Whatever the position, the bytes from `at` on are a seek from the start away. */
  lemma SeekFromStart(text: seq<Byte>, position: nat, at: nat, count: nat)
    requires position <= |text| && at <= |text|
    ensures Replies(text, position, [SeekTo(Start, at), ReadNext(count)])
         == [Position(Some(at)), Content(if count <= |text| - at then text[at..at + count] else text[at..])]
  {
    TwoReplies(text, position, SeekTo(Start, at), ReadNext(count));
    assert text[at..] == text[at..|text|];
  }

  /** Seeking back over what was read reads it again. */
  lemma SeekBack(text: seq<Byte>, position: nat, count: int)
    requires 0 <= count && position + count <= |text|
    ensures var part := Content(text[position..position + count]);
      Replies(text, position, [ReadNext(count), SeekTo(Current, -count), ReadNext(count)]) == [part, Position(Some(position)), part]
  {
    hide Answer, Replies;
    var here, back := ReadNext(count), SeekTo(Current, -count);
    ReadAnswer(text, position, count);
    BackAnswer(text, position, count);
    FirstReply(text, position, [here, back, here]);
    assert [here, back, here][1..] == [back, here];
    TwoReplies(text, position + count, back, here);
  }

  lemma ReadAnswer(text: seq<Byte>, position: nat, count: nat)
    requires position <= |text|
    ensures var end := Min(position + count, |text|); Answer(text, position, ReadNext(count)) == (Content(text[position..end]), end)
  {
  }

  lemma BackAnswer(text: seq<Byte>, position: nat, count: int)
    requires 0 <= count && position + count <= |text|
    ensures Answer(text, position + count, SeekTo(Current, -count)) == (Position(Some(position)), position)
  {
  }

  /** A target outside the text is refused, and nothing moves. */
  lemma SeekOutside(text: seq<Byte>, position: nat, whence: Whence, offset: int, more: seq<Request>)
    requires position <= |text|
    requires whence.Start? ==> offset < 0 || offset > |text|
    requires whence.Current? ==> position + offset < 0 || position + offset > |text|
    requires whence.End? ==> |text| + offset < 0 || offset > 0
    ensures Replies(text, position, [SeekTo(whence, offset)] + more) == [Position(None)] + Replies(text, position, more)
  {
    FirstReply(text, position, [SeekTo(whence, offset)] + more);
    assert ([SeekTo(whence, offset)] + more)[1..] == more;
  }

  function Reads(counts: seq<nat>): seq<Request>
  {
    if counts == [] then [] else [ReadNext(counts[0])] + Reads(counts[1..])
  }

  function Joined(replies: seq<Reply>): seq<Byte>
  {
    if replies == [] then [] else (if replies[0].Content? then replies[0].bytes else []) + Joined(replies[1..])
  }

  function Total(counts: seq<nat>): nat
  {
    if counts == [] then 0 else counts[0] + Total(counts[1..])
  }

  /** However a stretch is cut into reads, they give the stretch. */
  lemma {:induction false} ReadsJoin(text: seq<Byte>, position: nat, counts: seq<nat>)
    requires position <= |text|
    ensures Joined(Replies(text, position, Reads(counts))) == text[position..Min(position + Total(counts), |text|)]
    decreases |counts|
  {
    hide Answer;
    if counts != [] {
      hide Replies;
      var next, all := Min(position + counts[0], |text|), Min(position + Total(counts), |text|);
      ReadAnswer(text, position, counts[0]);
      FirstReply(text, position, Reads(counts));
      assert Reads(counts)[1..] == Reads(counts[1..]);
      ReadsJoin(text, next, counts[1..]);
      assert Min(next + Total(counts[1..]), |text|) == all;
      assert text[position..next] + text[next..all] == text[position..all];
    }
  }

  lemma FirstReply(text: seq<Byte>, position: nat, requests: seq<Request>)
    requires position <= |text| && requests != []
    ensures var a := Answer(text, position, requests[0]); var r := Replies(text, position, requests);
      r == [a.0] + Replies(text, a.1, requests[1..]) && r[0] == a.0 && r[1..] == Replies(text, a.1, requests[1..])
  {
    hide Answer;
  }

  lemma TwoReplies(text: seq<Byte>, position: nat, first: Request, second: Request)
    requires position <= |text|
    ensures var a := Answer(text, position, first); Replies(text, position, [first, second]) == [a.0, Answer(text, a.1, second).0]
  {
    hide Answer;
    var a := Answer(text, position, first);
    FirstReply(text, position, [first, second]);
    assert [first, second][1..] == [second];
    FirstReply(text, a.1, [second]);
    NoReplies(text, Answer(text, a.1, second).1);
  }

  method ServeOne(reader: IndexedReader, request: Request) returns (reply: Reply)
    requires reader.Valid()
    modifies reader`position, reader.cache
    ensures reader.Valid() && old(reader.position) <= |reader.view.text| && (reply, reader.position) == Answer(reader.view.text, old(reader.position), request)
  {
    hide IndexedReader.Valid;
    reader.PositionWithin();
    match request
    case SeekTo(whence, offset) =>
      var at := reader.Seek(whence, offset);
      reply := Position(at);
    case ReadNext(count) =>
      var bytes := reader.Read(count);
      reply := Content(bytes.value);
  }

  /** Every sequence of seeks and reads is answered as on the bare text. */
  method Serve(reader: IndexedReader, requests: seq<Request>) returns (replies: seq<Reply>)
    requires reader.Valid()
    modifies reader`position, reader.cache
    ensures reader.Valid() && old(reader.position) <= |reader.view.text| && replies == Replies(reader.view.text, old(reader.position), requests)
  {
    hide IndexedReader.Valid, Answer, Replies;
    reader.PositionWithin();
    NoReplies(reader.view.text, reader.position);
    replies := [];
    assert requests[0..] == requests;
    assert [] + Replies(reader.view.text, reader.position, requests) == Replies(reader.view.text, reader.position, requests);
    var k: nat := 0;
    while k < |requests|
      decreases |requests| - k
      invariant reader.Valid() && k <= |requests| && reader.position <= |reader.view.text|
      invariant replies + Replies(reader.view.text, reader.position, requests[k..]) == Replies(reader.view.text, old(reader.position), requests)
    {
      ghost var was := reader.position;
      NextReply(reader.view.text, was, requests, k);
      var reply := ServeOne(reader, requests[k]);
      replies := replies + [reply];
      k := k + 1;
      reader.PositionWithin();
    }
    assert requests[k..] == [];
    NoReplies(reader.view.text, reader.position);
    assert replies + [] == replies;
  }

  lemma NoReplies(text: seq<Byte>, position: nat)
    requires position <= |text|
    ensures Replies(text, position, []) == []
  {
  }

  lemma NextReply(text: seq<Byte>, position: nat, requests: seq<Request>, k: nat)
    requires position <= |text| && k < |requests|
    ensures var a := Answer(text, position, requests[k]);
      Replies(text, position, requests[k..]) == [a.0] + Replies(text, a.1, requests[k + 1..])
  {
    hide Answer;
    assert requests[k..][1..] == requests[k + 1..];
  }

  /** From the compressed bytes to the answers: build the index, open a reader on it, serve the requests. */
  method ServeCompressed(data: seq<Byte>, threads: nat, memoryLimit: nat, cacheLimit: nat, blake3: Digest, requests: seq<Request>) returns (r: Option<seq<Reply>>)
    ensures r.Some? <==> memoryLimit >= 46620004 && MarkerDecoding.Decodable(data)
    ensures r.Some? ==> MarkerDecoding.SerialText(data).Some? && r.value == Replies(MarkerDecoding.SerialText(data).value, 0, requests)
  {
    hide MarkerDecoding.SerialText, MarkerDecoding.MarkerCount, Describes, Consistent, IndexedReader.Valid, Replies;
    var index := MarkerDecoding.BuildIndex(data, threads, memoryLimit, blake3);
    if index.None? {
      return None;
    }
    ghost var text := MarkerDecoding.SerialText(data).value;
    ghost var levels: seq<nat>, parts: seq<seq<Byte>> :| Describes(index.value, data, text, levels, parts);
    var reader := new IndexedReader(data, index.value, cacheLimit, View(text, levels, parts));
    var replies := Serve(reader, requests);
    r := Some(replies);
  }
}
