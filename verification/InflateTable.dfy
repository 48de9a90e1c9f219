/** The DEFLATE decoder's bit cursor and its full-width Huffman tables. */
module InflateTable {
  import opened Bytes
  import opened Seqs
  import opened Sums
  import opened BitStream
  import opened LsbStream
  import opened Canonical
  import Huffman

  /** What reading from a position yields: a value and the position after it, or an error. */
  datatype Read<T> = Got(value: T, at: nat) | Bad

  function ReadField(s: seq<bool>, at: nat, count: nat): (r: Read<nat>)
    ensures r.Got? ==> r.at == at + count <= |s|
  {
    if at + count > |s| then Bad else Got(LsbValue(s[at..at + count]), at + count)
  }

  lemma FieldBack(s: seq<bool>, at: nat, v: nat, n: nat)
    requires Has(s, at, LsbBits(v, n)) && v < Pow2(n)
    ensures ReadField(s, at, n) == Got(v, at + n)
  {
    ValueOfLsb(v, n);
  }

  class Bits {
    const data: seq<Byte>
    var bit: nat

    ghost function All(): seq<bool>
    {
      Packed(data)
    }

    constructor (data: seq<Byte>, bit: nat)
      ensures this.data == data && this.bit == bit
    {
      this.data, this.bit := data, bit;
    }

    method Peek(count: nat) returns (r: Read<nat>)
      requires count <= 24
      ensures r == ReadField(All(), bit, count)
    {
      hide Packed, LsbValue, Low, Shr, LittleEndian;
      if bit + count > 8 * |data| {
        return Bad;
      }
      var byte, shift := bit / 8, bit % 8;
      var stop := if |data| - byte >= 8 then byte + 8 else |data|;
      var word := LittleEndian(data[byte..stop]);
      LittleEndianIsPacked(data[byte..stop]);
      ghost var part := Packed(data[byte..stop]);
      PackedSlice(data, byte, stop);
      Nested(All(), part, 8 * byte, 8 * stop, shift, shift + count, bit, bit + count);
      LsbSlice(part, shift, shift + count);
      r := Got(Low(Shr(word, shift), count), bit + count);
    }

    method Read(count: nat) returns (r: Read<nat>)
      requires count <= 24
      modifies this
      ensures r == ReadField(All(), old(bit), count) || (count == 0 && r == Got(0, old(bit)))
      ensures r.Got? ==> bit == r.at
      ensures r.Bad? ==> bit == old(bit)
    {
      if count == 0 {
        return Got(0, bit);
      }
      r := Peek(count);
      if r.Got? {
        bit := r.at;
      }
    }

    method AlignByte()
      modifies this
      ensures bit == (old(bit) + 7) / 8 * 8
    {
      bit := (bit + 7) / 8 * 8;
    }

    method ReadAlignedBytes(count: nat) returns (r: Read<seq<Byte>>)
      modifies this
      ensures r == if old(bit) % 8 != 0 || old(bit) / 8 + count > |data| then Bad
                   else Got(data[old(bit) / 8..old(bit) / 8 + count], old(bit) + 8 * count)
      ensures r.Got? ==> bit == r.at
    {
      if bit % 8 != 0 {
        return Bad;
      }
      var start := bit / 8;
      if start + count > |data| {
        return Bad;
      }
      bit := (start + count) * 8;
      r := Got(data[start..start + count], bit);
    }
  }

  // ----- Tables -----

  const MAX_CODE_BITS: nat := 15
  const UNUSED: nat := 65535

  datatype Table = Table(table: seq<nat>, maxBits: nat)

  /** The symbol whose code word comes next, if one does. */
  ghost function NextSym(ls: seq<nat>, s: seq<bool>, at: nat): (r: Read<nat>)
    ensures r.Got? ==> r.value < |ls| && at < r.at <= |s|
  {
    if i: nat :| Begins(ls, s, at, i) then Got(i, at + ls[i]) else Bad
  }

  lemma NextSymIs(ls: seq<nat>, s: seq<bool>, at: nat, i: nat)
    requires Fits(ls, MAX_CODE_BITS) && (forall k :: 0 <= k < |ls| ==> ls[k] <= MAX_CODE_BITS) && Begins(ls, s, at, i)
    ensures NextSym(ls, s, at) == Got(i, at + ls[i])
  {
    hide Fits, Word;
    var j: nat :| Begins(ls, s, at, j) && NextSym(ls, s, at) == Got(j, at + ls[j]);
    BeginsUnique(ls, MAX_CODE_BITS, s, at, i, j);
  }

  /** An entry names the symbol, among the first `k`, whose code word the index begins with. */
  ghost predicate EntryRight(ls: seq<nat>, k: nat, entry: nat, p: nat, width: nat)
    requires k <= |ls|
  {
    if entry == UNUSED then forall i :: 0 <= i < k ==> !Begins(ls, LsbBits(p, width), 0, i)
    else
      var sym := entry % 512;
      sym < k && entry / 512 == ls[sym] && Begins(ls, LsbBits(p, width), 0, sym)
  }

  ghost predicate Entries(ls: seq<nat>, k: nat, table: seq<nat>, width: nat)
    requires k <= |ls|
  {
    |table| == Pow2(width) && forall p :: 0 <= p < |table| ==> EntryRight(ls, k, table[p], p, width)
  }

  ghost predicate Codes(ls: seq<nat>)
  {
    (forall i :: 0 <= i < |ls| ==> ls[i] <= MAX_CODE_BITS) && Fits(ls, MAX_CODE_BITS)
  }

  ghost predicate Decodes(ls: seq<nat>, t: Table)
  {
    && Codes(ls) && t.maxBits <= MAX_CODE_BITS && (forall i :: 0 <= i < |ls| ==> ls[i] <= t.maxBits)
    && (t.maxBits > 0 ==> Entries(ls, |ls|, t.table, t.maxBits))
  }

  function PackEntry(length: nat, symbol: nat): (e: nat)
    requires symbol < 512 && length <= MAX_CODE_BITS
    ensures e / 512 == length && e % 512 == symbol && e != UNUSED
  {
    length * 512 + symbol
  }

  // ----- Building -----

  method CountLengths(ls: seq<nat>) returns (counts: seq<nat>, maxBits: nat, ok: bool)
    ensures ok <==> forall i :: 0 <= i < |ls| ==> ls[i] <= MAX_CODE_BITS
    ensures ok ==> |counts| == MAX_CODE_BITS + 1 && counts[0] == 0 && forall l :: 1 <= l <= MAX_CODE_BITS ==> counts[l] == CountLen(ls, l)
    ensures ok ==> maxBits <= MAX_CODE_BITS && forall i :: 0 <= i < |ls| ==> ls[i] <= maxBits
  {
    var a := new nat[MAX_CODE_BITS + 1](_ => 0);
    maxBits := 0;
    for i := 0 to |ls|
      invariant maxBits <= MAX_CODE_BITS && forall j :: 0 <= j < i ==> ls[j] <= maxBits
      invariant a[0] == 0 && forall l :: 1 <= l <= MAX_CODE_BITS ==> a[l] == CountLen(ls[..i], l)
    {
      var length := ls[i];
      if length > MAX_CODE_BITS {
        return [], 0, false;
      }
      forall l | 1 <= l <= MAX_CODE_BITS ensures CountLen(ls[..i + 1], l) == CountLen(ls[..i], l) + if ls[i] == l then 1 else 0 {
        CountStep(ls, i, l);
      }
      hide CountLen;
      if length != 0 {
        a[length] := a[length] + 1;
        maxBits := if length > maxBits then length else maxBits;
      }
    }
    assert ls[..|ls|] == ls;
    counts, ok := a[..], true;
  }

  /** Codes still free at each length; running out means too many codes. */
  method CheckRemaining(ls: seq<nat>, counts: seq<nat>) returns (ok: bool)
    requires |counts| == MAX_CODE_BITS + 1 && forall l :: 1 <= l <= MAX_CODE_BITS ==> counts[l] == CountLen(ls, l)
    ensures ok <==> Fits(ls, MAX_CODE_BITS)
  {
    hide CountLen, First, Pow2;
    var remaining: int := 1;
    Pow2Zero();
    for l := 1 to MAX_CODE_BITS + 1
      invariant remaining == Pow2(l - 1) - (if l == 1 then 0 else Next(ls, l - 1)) >= 0
      invariant forall k :: 1 <= k < l ==> Next(ls, k) <= Pow2(k)
    {
      Huffman.FirstUnfold(ls, l);
      Pow2Step(l - 1);
      remaining := remaining * 2 - counts[l];
      assert remaining == Pow2(l) - Next(ls, l);
      if remaining < 0 {
        return false;
      }
    }
    ok := true;
  }

  lemma Pow2Zero()
    ensures Pow2(0) == 1
  {
  }

  lemma Pow2Step(k: nat)
    ensures Pow2(k + 1) == 2 * Pow2(k)
  {
  }

  method NextCodes(ls: seq<nat>, counts: seq<nat>) returns (next: seq<nat>)
    requires |counts| == MAX_CODE_BITS + 1 && counts[0] == 0 && forall l :: 1 <= l <= MAX_CODE_BITS ==> counts[l] == CountLen(ls, l)
    ensures |next| == MAX_CODE_BITS + 1 && forall l :: 1 <= l <= MAX_CODE_BITS ==> next[l] == First(ls, l)
  {
    hide CountLen, First;
    var a := new nat[MAX_CODE_BITS + 1](_ => 0);
    var code := 0;
    for bits := 1 to MAX_CODE_BITS + 1
      invariant code == if bits == 1 then 0 else First(ls, bits - 1)
      invariant forall l :: 1 <= l < bits ==> a[l] == First(ls, l)
    {
      Huffman.FirstUnfold(ls, bits);
      code := (code + counts[bits - 1]) * 2;
      a[bits] := code;
    }
    next := a[..];
  }

  // ----- Filling -----

  /** The bits of a code, first bit first, as a number read least significant bit first. */
  function Reversed(code: nat, length: nat): (r: nat)
    ensures r < Pow2(length) && LsbBits(r, length) == BitsOf(code, length)
  {
    LsbBound(BitsOf(code, length));
    LsbOfValue(BitsOf(code, length));
    LsbValue(BitsOf(code, length))
  }

  /** `value.reverse_bits() >> (16 - count)` */
  function ReverseLowBits(value: nat, count: nat): (r: nat)
    requires count <= 16
    ensures r == Reversed(value, count)
  {
    ReverseTop(value, count);
    Shr(Reversed(value, 16), 16 - count)
  }

  lemma ReverseTop(value: nat, count: nat)
    requires count <= 16
    ensures Shr(Reversed(value, 16), 16 - count) == Reversed(value, count)
  {
    hide Shr, BitsOf, LsbBits, LsbValue;
    BitsSplit(value, 16 - count, count);
    var high, low := BitsOf(Shr(value, count), 16 - count), BitsOf(value, count);
    LsbAppend(high, low);
    LsbBound(high);
    ShiftDown(LsbValue(low), LsbValue(high), 16 - count);
    assert 16 - count + count == 16;
  }

  /** The index begins with a code exactly when its low bits are the reversed code. */
  lemma BeginsLow(ls: seq<nat>, k: nat, p: nat, width: nat)
    requires k < |ls| && 1 <= ls[k] <= width && p < Pow2(width)
    ensures Begins(ls, LsbBits(p, width), 0, k) <==> Low(p, ls[k]) == Reversed(Code(ls, k), ls[k])
  {
    hide Code, BitsOf, LsbBits, Low, Shr;
    var l := ls[k];
    LsbSplit(p, l, width - l);
    assert l + (width - l) == width;
    LsbLow(p, l);
    LowFits(p, l);
    var r := Reversed(Code(ls, k), l);
    assert LsbBits(p, width)[0..0 + l] == LsbBits(Low(p, l), l);
    ValueOfLsb(Low(p, l), l);
    ValueOfLsb(r, l);
  }

  lemma {:induction false} Parts(p: nat, l: nat)
    ensures p == Low(p, l) + Shl(Shr(p, l), l)
  {
    if l > 0 {
      Parts(p / 2, l - 1);
    }
  }

  /** Entries after the first `done` suffixes of symbol `k` have been written. */
  ghost predicate Filling(was: seq<nat>, now: seq<nat>, reversed: nat, l: nat, packed: nat, done: nat)
  {
    |now| == |was| && forall p :: 0 <= p < |was| ==> now[p] == if Low(p, l) == reversed && Shr(p, l) < done then packed else was[p]
  }

  lemma FillingStep(was: seq<nat>, now: seq<nat>, reversed: nat, l: nat, packed: nat, done: nat)
    requires Filling(was, now, reversed, l, packed, done) && reversed < Pow2(l) && reversed + Shl(done, l) < |was|
    ensures Filling(was, now[reversed + Shl(done, l) := packed], reversed, l, packed, done + 1)
  {
    hide Low, Shr, Shl;
    var q := reversed + Shl(done, l);
    ShiftDown(done, reversed, l);
    forall p | 0 <= p < |was| ensures now[q := packed][p] == if Low(p, l) == reversed && Shr(p, l) < done + 1 then packed else was[p] {
      Parts(p, l);
    }
  }

  lemma SuffixFits(reversed: nat, l: nat, suffix: nat, width: nat)
    requires l <= width && reversed < Pow2(l) && suffix < Pow2(width - l)
    ensures reversed + Shl(suffix, l) < Pow2(width)
  {
    hide Pow2, Shl;
    LsbJoin(reversed, l, suffix, width - l);
    assert l + (width - l) == width;
  }

  /** Once all suffixes are written, symbol `k` is entered. */
  lemma Filled(ls: seq<nat>, k: nat, was: seq<nat>, now: seq<nat>, width: nat)
    requires k < |ls| <= 512 && 1 <= ls[k] <= width <= MAX_CODE_BITS && Codes(ls) && Entries(ls, k, was, width)
    requires Filling(was, now, Reversed(Code(ls, k), ls[k]), ls[k], PackEntry(ls[k], k), Pow2(width - ls[k]))
    ensures Entries(ls, k + 1, now, width)
  {
    hide Low, Shr, Code, Begins, Pow2, LsbBits, Fits;
    forall p | 0 <= p < |now| ensures EntryRight(ls, k + 1, now[p], p, width) {
      BeginsLow(ls, k, p, width);
      assert ls[k] + (width - ls[k]) == width;
      ShrBound(p, ls[k], width - ls[k]);
      assert EntryRight(ls, k, was[p], p, width);
      if !Begins(ls, LsbBits(p, width), 0, k) {
        NotEntered(ls, k, was[p], p, width);
      }
    }
  }

  lemma NotEntered(ls: seq<nat>, k: nat, entry: nat, p: nat, width: nat)
    requires k < |ls| && EntryRight(ls, k, entry, p, width) && !Begins(ls, LsbBits(p, width), 0, k)
    ensures EntryRight(ls, k + 1, entry, p, width)
  {
    hide Begins;
  }

  lemma Skipped(ls: seq<nat>, k: nat, table: seq<nat>, width: nat)
    requires k < |ls| && ls[k] == 0 && Entries(ls, k, table, width)
    ensures Entries(ls, k + 1, table, width)
  {
    forall p | 0 <= p < |table| ensures EntryRight(ls, k + 1, table[p], p, width) {
      NotEntered(ls, k, table[p], p, width);
    }
  }

  /** The next unassigned code of each length after the first `k` symbols. */
  ghost predicate Assigned(ls: seq<nat>, k: nat, codes: seq<nat>)
    requires k <= |ls|
  {
    |codes| == MAX_CODE_BITS + 1 && forall l :: 1 <= l <= MAX_CODE_BITS ==> codes[l] == First(ls, l) + CountLen(ls[..k], l)
  }

  lemma AssignedStep(ls: seq<nat>, k: nat, codes: seq<nat>)
    requires k < |ls| && Assigned(ls, k, codes) && ls[k] <= MAX_CODE_BITS
    ensures |codes| == MAX_CODE_BITS + 1
    ensures ls[k] == 0 ==> Assigned(ls, k + 1, codes)
    ensures ls[k] != 0 ==> codes[ls[k]] == Code(ls, k) && Assigned(ls, k + 1, codes[ls[k] := codes[ls[k]] + 1])
  {
    hide First, CountLen;
    forall l ensures CountLen(ls[..k + 1], l) == CountLen(ls[..k], l) + if ls[k] == l then 1 else 0 {
      CountStep(ls, k, l);
    }
  }

  method FillTable(ls: seq<nat>, next: seq<nat>, maxBits: nat) returns (table: seq<nat>)
    requires Codes(ls) && |ls| <= 512 && 1 <= maxBits <= MAX_CODE_BITS && forall i :: 0 <= i < |ls| ==> ls[i] <= maxBits
    requires |next| == MAX_CODE_BITS + 1 && forall l :: 1 <= l <= MAX_CODE_BITS ==> next[l] == First(ls, l)
    ensures Entries(ls, |ls|, table, maxBits)
  {
    hide Codes, First, Shl, Shr, Low, Pow2, Code, EntryRight, Reversed;
    var a := new nat[Pow2(maxBits)](_ => UNUSED);
    var codes: seq<nat> := next;
    assert ls[..0] == [];
    NothingEntered(ls, a[..], maxBits);
    for symbol := 0 to |ls|
      invariant Assigned(ls, symbol, codes)
      invariant Entries(ls, symbol, a[..], maxBits) && a.Length == Pow2(maxBits)
    {
      hide Assigned, Entries;
      var length := ls[symbol];
      CodesBound(ls, symbol);
      AssignedStep(ls, symbol, codes);
      ghost var was := a[..];
      if length == 0 {
        Skipped(ls, symbol, was, maxBits);
      } else {
        var canonical: nat := codes[length];
        codes := codes[length := codes[length] + 1];
        var reversed := ReverseLowBits(canonical, length);
        FillSymbol(a, reversed, length, PackEntry(length, symbol), maxBits);
        Filled(ls, symbol, was, a[..], maxBits);
      }
    }
    table := a[..];
  }

  lemma CodesBound(ls: seq<nat>, k: nat)
    requires Codes(ls) && k < |ls|
    ensures ls[k] <= MAX_CODE_BITS
  {
  }

  lemma NothingEntered(ls: seq<nat>, table: seq<nat>, width: nat)
    requires |table| == Pow2(width) && forall p :: 0 <= p < |table| ==> table[p] == UNUSED
    ensures Entries(ls, 0, table, width)
  {
  }

  method FillSymbol(a: array<nat>, reversed: nat, length: nat, packed: nat, maxBits: nat)
    requires length <= maxBits && reversed < Pow2(length) && a.Length == Pow2(maxBits)
    modifies a
    ensures Filling(old(a[..]), a[..], reversed, length, packed, Pow2(maxBits - length))
  {
    hide Shl, Shr, Low, Pow2;
    ghost var was := a[..];
    assert Filling(was, a[..], reversed, length, packed, 0);
    for suffix := 0 to Pow2(maxBits - length)
      invariant Filling(was, a[..], reversed, length, packed, suffix)
    {
      hide Filling;
      SuffixFits(reversed, length, suffix, maxBits);
      ghost var cur := a[..];
      FillingStep(was, cur, reversed, length, packed, suffix) by { FillingLength(was, cur, reversed, length, packed, suffix); }
      a[reversed + Shl(suffix, length)] := packed;
      assert a[..] == cur[reversed + Shl(suffix, length) := packed];
    }
  }

  lemma FillingLength(was: seq<nat>, now: seq<nat>, reversed: nat, l: nat, packed: nat, done: nat)
    requires Filling(was, now, reversed, l, packed, done)
    ensures |now| == |was|
  {
  }

  datatype Built = Built(table: Table) | Invalid

  /** A table is built exactly when the lengths describe a prefix code of at most 15 bits. */
  method New(ls: seq<nat>) returns (r: Built)
    requires |ls| <= 512
    ensures r.Built? <==> Codes(ls)
    ensures r.Built? ==> Decodes(ls, r.table)
  {
    hide Entries, First, CountLen, Fits;
    var counts, maxBits, ok := CountLengths(ls);
    if !ok {
      return Invalid;
    }
    if maxBits == 0 {
      NoCodes(ls);
      return Built(Table([], 0));
    }
    ok := CheckRemaining(ls, counts);
    if !ok {
      return Invalid;
    }
    var next := NextCodes(ls, counts);
    var table := FillTable(ls, next, maxBits);
    r := Built(Table(table, maxBits));
  }

  lemma NoCodes(ls: seq<nat>)
    requires forall i :: 0 <= i < |ls| ==> ls[i] <= 0
    ensures Codes(ls)
  {
    hide First, CountLen, Pow2;
    forall l | 1 <= l <= MAX_CODE_BITS ensures Next(ls, l) <= Pow2(l) {
      NoFirst(ls, l);
      NoneLonger(ls, l);
    }
  }

  lemma {:induction false} NoFirst(ls: seq<nat>, l: nat)
    requires forall i :: 0 <= i < |ls| ==> ls[i] <= 0
    ensures First(ls, l) == 0
  {
    if l > 1 {
      NoFirst(ls, l - 1);
      NoneLonger(ls, l - 1);
    }
  }

  // ----- Decoding -----

  /** A short tail is looked up as if zero bits followed. */
  lemma PaddedIndex(s: seq<bool>, at: nat, peek: nat, width: nat)
    requires peek <= width && at + peek <= |s|
    ensures LsbBits(LsbValue(s[at..at + peek]), width) == s[at..at + peek] + Zeros(width - peek)
    ensures LsbValue(s[at..at + peek]) < Pow2(width)
  {
    hide LsbBits, LsbValue, Pow2;
    var b := s[at..at + peek];
    LsbAppend(b, Zeros(width - peek));
    LsbZeros(width - peek);
    Canonical.ShlOne(peek);
    LsbOfValue(b + Zeros(width - peek));
    LsbBound(b + Zeros(width - peek));
  }

  lemma PaddedBegins(ls: seq<nat>, s: seq<bool>, at: nat, peek: nat, width: nat, i: nat)
    requires peek <= width && at + peek <= |s| && i < |ls| && ls[i] <= width && (peek == width || at + peek == |s|)
    ensures Begins(ls, s, at, i) ==> Begins(ls, s[at..at + peek] + Zeros(width - peek), 0, i)
    ensures Begins(ls, s[at..at + peek] + Zeros(width - peek), 0, i) && at + ls[i] <= |s| ==> Begins(ls, s, at, i)
  {
    hide Word;
    if at + ls[i] <= |s| {
      var padded := s[at..at + peek] + Zeros(width - peek);
      assert padded[0..0 + ls[i]] == s[at..at + ls[i]];
    }
  }

  /** What the table entry for the bits ahead means. */
  lemma EntryMeans(ls: seq<nat>, t: Table, s: seq<bool>, at: nat, peek: nat, index: nat)
    requires Decodes(ls, t) && t.maxBits > 0 && at <= |s| && peek == (if at + t.maxBits <= |s| then t.maxBits else |s| - at)
    requires index == LsbValue(s[at..at + peek])
    ensures index < |t.table|
    ensures t.table[index] == UNUSED ==> NextSym(ls, s, at) == Bad
    ensures t.table[index] != UNUSED ==>
              NextSym(ls, s, at) == if at + t.table[index] / 512 > |s| then Bad else Got(t.table[index] % 512, at + t.table[index] / 512)
  {
    hide Begins, Fits, LsbValue, Pow2, LsbBits;
    PaddedIndex(s, at, peek, t.maxBits);
    var padded := s[at..at + peek] + Zeros(t.maxBits - peek);
    assert EntryRight(ls, |ls|, t.table[index], index, t.maxBits);
    forall i: nat ensures Begins(ls, s, at, i) ==> i < |ls| && Begins(ls, padded, 0, i) {
      if Begins(ls, s, at, i) {
        BeginsRange(ls, s, at, i);
        PaddedBegins(ls, s, at, peek, t.maxBits, i);
      }
    }
    if t.table[index] != UNUSED {
      var sym := t.table[index] % 512;
      PaddedBegins(ls, s, at, peek, t.maxBits, sym);
      if at + ls[sym] <= |s| {
        NextSymIs(ls, s, at, sym);
      } else {
        forall i: nat ensures !Begins(ls, s, at, i) {
          if Begins(ls, s, at, i) {
            BeginsRange(ls, s, at, i);
            BeginsUnique(ls, MAX_CODE_BITS, padded, 0, i, sym);
          }
        }
      }
    }
  }

  lemma BeginsRange(ls: seq<nat>, s: seq<bool>, at: nat, i: nat)
    requires Begins(ls, s, at, i)
    ensures i < |ls| && at + ls[i] <= |s| && ls[i] >= 1
  {
  }

  lemma EmptyCode(ls: seq<nat>, t: Table, s: seq<bool>, at: nat)
    requires Decodes(ls, t) && t.maxBits == 0
    ensures NextSym(ls, s, at) == Bad
  {
  }

  lemma PastTheEnd(ls: seq<nat>, s: seq<bool>, at: nat)
    requires at >= |s|
    ensures NextSym(ls, s, at) == Bad
  {
  }

  /** The table decodes exactly the prefix code of its lengths, to the last bit of the input. */
  method DecodeSymbol(t: Table, bits: Bits, ghost ls: seq<nat>) returns (r: Read<nat>)
    requires Decodes(ls, t)
    modifies bits
    ensures r == NextSym(ls, bits.All(), old(bits.bit))
    ensures bits.bit == if r.Got? then r.at else old(bits.bit)
  {
    hide Decodes, NextSym, Packed, LsbValue;
    if t.maxBits == 0 {
      EmptyCode(ls, t, bits.All(), bits.bit);
      return Bad;
    }
    WidthBound(ls, t);
    var remaining := if 8 * |bits.data| >= bits.bit then 8 * |bits.data| - bits.bit else 0;
    var peekBits := if t.maxBits < remaining then t.maxBits else remaining;
    if bits.bit > 8 * |bits.data| {
      PastTheEnd(ls, bits.All(), bits.bit);
      return Bad;
    }
    var index := bits.Peek(peekBits);
    EntryMeans(ls, t, bits.All(), bits.bit, peekBits, index.value);
    var packed := t.table[index.value];
    if packed == UNUSED {
      return Bad;
    }
    var length := packed / 512;
    if length > remaining {
      return Bad;
    }
    bits.bit := bits.bit + length;
    r := Got(packed % 512, bits.bit);
  }

  lemma WidthBound(ls: seq<nat>, t: Table)
    requires Decodes(ls, t)
    ensures t.maxBits <= MAX_CODE_BITS
  {
  }
}
