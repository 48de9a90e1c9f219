/** The bzip2 decoder's Huffman tables: a 12-bit lookup with a canonical fallback. */
module Huffman {
  import opened Sums
  import opened BitStream
  import opened BitReading
  import opened Canonical

  const MAX_CODE_LEN: nat := 20
  const LUT_BITS: nat := 12
  const LUT_SIZE: nat := 4096

  datatype Table = Table(minLen: nat, maxLen: nat, limit: seq<int>, base: seq<int>, symbols: seq<nat>, lut: seq<nat>)

  // ----- Symbols in canonical order -----

  /** The symbols of length `l`, ascending. */
  function OfLength(ls: seq<nat>, l: nat): (o: seq<nat>)
    ensures |o| == CountLen(ls, l)
  {
    if ls == [] then [] else OfLength(ls[..|ls| - 1], l) + if ls[|ls| - 1] == l then [|ls| - 1] else []
  }

  /** The symbols shorter than `l`, by length and then by symbol. */
  function ByLength(ls: seq<nat>, l: nat): (o: seq<nat>)
    ensures |o| == Shorter(ls, l)
  {
    if l == 0 then [] else ByLength(ls, l - 1) + OfLength(ls, l - 1)
  }

  function Shorter(ls: seq<nat>, l: nat): nat
  {
    if l == 0 then 0 else Shorter(ls, l - 1) + CountLen(ls, l - 1)
  }

  lemma {:induction false} OfLengthAt(ls: seq<nat>, l: nat, r: nat)
    requires r < CountLen(ls, l)
    ensures var i := OfLength(ls, l)[r]; i < |ls| && ls[i] == l && CountLen(ls[..i], l) == r
  {
    var n := |ls| - 1;
    if r < CountLen(ls[..n], l) {
      OfLengthAt(ls[..n], l, r);
      var i := OfLength(ls, l)[r];
      assert ls[..n][..i] == ls[..i];
    }
  }

  lemma {:induction false} ByLengthAt(ls: seq<nat>, l: nat, r: nat, top: nat)
    requires l < top && r < CountLen(ls, l)
    ensures Shorter(ls, l) + r < |ByLength(ls, top)| && ByLength(ls, top)[Shorter(ls, l) + r] == OfLength(ls, l)[r]
    decreases top
  {
    hide OfLength, CountLen;
    if l < top - 1 {
      ByLengthAt(ls, l, r, top - 1);
    }
  }

  lemma {:induction false} NoneShorter(ls: seq<nat>, l: nat)
    requires forall i :: 0 <= i < |ls| ==> ls[i] >= l
    ensures ByLength(ls, l) == [] && Shorter(ls, l) == 0 && First(ls, l) == 0
    decreases l
  {
    if l > 0 {
      NoneShorter(ls, l - 1);
      NoneLonger(ls, l - 1);
      if l > 1 {
        assert First(ls, l) == 2 * (First(ls, l - 1) + CountLen(ls, l - 1));
      }
    }
  }

  // ----- What a table holds -----

  ghost predicate Bounds(ls: seq<nat>, t: Table)
  {
    && ls != [] && 1 <= t.minLen <= t.maxLen <= MAX_CODE_LEN
    && (forall i :: 0 <= i < |ls| ==> t.minLen <= ls[i] <= t.maxLen)
    && Fits(ls, MAX_CODE_LEN)
  }

  /** Code `c` of length `l` is the symbol at `c - base[l]`, if `c` is at most `limit[l]`. */
  ghost predicate Ranges(ls: seq<nat>, t: Table)
  {
    && |t.limit| == |t.base| == MAX_CODE_LEN + 1 && t.maxLen <= MAX_CODE_LEN
    && (forall l :: t.minLen <= l <= t.maxLen ==> t.limit[l] == Next(ls, l) - 1)
    && (forall l :: t.minLen <= l <= t.maxLen ==> t.base[l] == First(ls, l) - Shorter(ls, l))
    && t.symbols == ByLength(ls, t.maxLen + 1)
  }

  /** A lookup entry names the symbol whose code the index begins with, if one of the first `k` symbols does. */
  ghost predicate Entries(ls: seq<nat>, k: nat, lut: seq<nat>)
    requires k <= |ls|
  {
    |lut| == LUT_SIZE && forall p :: 0 <= p < LUT_SIZE ==> EntryRight(ls, k, lut[p], p)
  }

  ghost predicate EntryRight(ls: seq<nat>, k: nat, entry: nat, p: nat)
    requires k <= |ls|
  {
    if entry / 65536 == 0 then entry == 0 && forall i :: 0 <= i < k && ls[i] <= LUT_BITS ==> !Leads(ls, i, p)
    else
      var sym := entry % 65536;
      sym < k && entry / 65536 == ls[sym] <= LUT_BITS && Leads(ls, sym, p)
  }

  /** The 12-bit index `p` begins with the code of symbol `i`. */
  ghost predicate Leads(ls: seq<nat>, i: nat, p: nat)
    requires i < |ls| && ls[i] <= LUT_BITS
  {
    Shr(p, LUT_BITS - ls[i]) == Code(ls, i)
  }

  ghost predicate Decodes(ls: seq<nat>, t: Table)
  {
    Bounds(ls, t) && Ranges(ls, t) && Entries(ls, |ls|, t.lut)
  }

  // ----- Building -----

  method Extremes(ls: seq<nat>) returns (min: nat, max: nat)
    requires ls != []
    ensures forall i :: 0 <= i < |ls| ==> min <= ls[i] <= max
    ensures min in ls && max in ls
  {
    min, max := ls[0], ls[0];
    for i := 1 to |ls|
      invariant forall j :: 0 <= j < i ==> min <= ls[j] <= max
      invariant min in ls && max in ls
    {
      if ls[i] < min { min := ls[i]; }
      if ls[i] > max { max := ls[i]; }
    }
  }

  method Counts(ls: seq<nat>) returns (counts: seq<nat>)
    requires forall i :: 0 <= i < |ls| ==> ls[i] <= MAX_CODE_LEN
    ensures |counts| == MAX_CODE_LEN + 1 && forall l :: 0 <= l <= MAX_CODE_LEN ==> counts[l] == CountLen(ls, l)
  {
    var a := new nat[MAX_CODE_LEN + 1](_ => 0);
    for i := 0 to |ls|
      invariant forall l :: 0 <= l <= MAX_CODE_LEN ==> a[l] == CountLen(ls[..i], l)
    {
      forall l | 0 <= l <= MAX_CODE_LEN ensures CountLen(ls[..i + 1], l) == CountLen(ls[..i], l) + if ls[i] == l then 1 else 0 {
        CountStep(ls, i, l);
      }
      a[ls[i]] := a[ls[i]] + 1;
    }
    assert ls[..|ls|] == ls;
    counts := a[..];
  }

  /** The first code of each length; none if some length has too many codes. */
  method NextCodes(ls: seq<nat>, counts: seq<nat>) returns (r: Result<seq<nat>>)
    requires |counts| == MAX_CODE_LEN + 1 && forall l :: 0 <= l <= MAX_CODE_LEN ==> counts[l] == CountLen(ls, l)
    requires counts[0] == 0
    ensures r.Ok? <==> Fits(ls, MAX_CODE_LEN)
    ensures r.Err? ==> r.error == InvalidHuffman
    ensures r.Ok? ==> |r.value| == MAX_CODE_LEN + 1 && forall l :: 1 <= l <= MAX_CODE_LEN ==> r.value[l] == First(ls, l)
  {
    hide First, CountLen, Pow2;
    var next := new nat[MAX_CODE_LEN + 1](_ => 0);
    var code := 0;
    FirstUnfold(ls, 0);
    for length := 1 to MAX_CODE_LEN + 1
      invariant code == First(ls, length - 1)
      invariant forall l :: 1 <= l < length ==> next[l] == First(ls, l)
      invariant forall l :: 1 <= l < length ==> Next(ls, l) <= Pow2(l)
    {
      FirstUnfold(ls, length);
      code := (code + counts[length - 1]) * 2;
      next[length] := code;
      if code + counts[length] > Pow2(length) {
        assert Next(ls, length) > Pow2(length);
        return Err(InvalidHuffman);
      }
    }
    r := Ok(next[..]);
  }

  lemma FirstUnfold(ls: seq<nat>, l: nat)
    ensures First(ls, l) == if l <= 1 then 0 else 2 * (First(ls, l - 1) + CountLen(ls, l - 1))
  {
  }

  function Entry(length: nat, symbol: nat): (e: nat)
    requires symbol < 65536 && length >= 1
    ensures e / 65536 == length && e % 65536 == symbol
  {
    length * 65536 + symbol
  }

  /** The lookup indices that begin with a code are one interval. */
  lemma Interval(c: nat, k: nat, p: nat)
    ensures Shl(c, k) <= p < Shl(c + 1, k) <==> Shr(p, k) == c
  {
    ShrAtLeast(c, p, k);
    ShrAtLeast(c + 1, p, k);
  }

  lemma {:induction false} ShrShr(p: nat, a: nat, b: nat)
    ensures Shr(Shr(p, a), b) == Shr(p, a + b)
    decreases a
  {
    if a > 0 {
      ShrShr(p / 2, a - 1, b);
      assert a + b - 1 == a - 1 + b;
    }
  }

  lemma IntervalInLut(ls: seq<nat>, i: nat)
    requires Fits(ls, MAX_CODE_LEN) && i < |ls| && 1 <= ls[i] <= LUT_BITS
    ensures Shl(Code(ls, i), LUT_BITS - ls[i]) + Pow2(LUT_BITS - ls[i]) == Shl(Code(ls, i) + 1, LUT_BITS - ls[i]) <= LUT_SIZE
  {
    hide Code, Shl, Fits, Canonical.First;
    var k := LUT_BITS - ls[i];
    CodeFits(ls, MAX_CODE_LEN, i);
    ShlPlus(Code(ls, i), 1, k);
    ShlOne(k);
    ShlAtMost(Code(ls, i) + 1, ls[i], LUT_BITS);
    assert Pow2(LUT_BITS) == 4096;
  }

  /** Entering symbol `k` keeps every entry right. */
  lemma LutStep(ls: seq<nat>, k: nat, entry: nat, p: nat)
    requires k < |ls| < 65536 && (forall i :: 0 <= i < |ls| ==> ls[i] >= 1) && EntryRight(ls, k, entry, p)
    ensures ls[k] <= LUT_BITS && Leads(ls, k, p) ==> EntryRight(ls, k + 1, Entry(ls[k], k), p)
    ensures ls[k] <= LUT_BITS && !Leads(ls, k, p) ==> EntryRight(ls, k + 1, entry, p)
    ensures ls[k] > LUT_BITS ==> EntryRight(ls, k + 1, entry, p)
  {
    hide Leads;
  }

  lemma LeadsInterval(ls: seq<nat>, k: nat, p: nat)
    requires Fits(ls, MAX_CODE_LEN) && k < |ls| && 1 <= ls[k] <= LUT_BITS
    ensures Leads(ls, k, p) <==> Shl(Code(ls, k), LUT_BITS - ls[k]) <= p < Shl(Code(ls, k), LUT_BITS - ls[k]) + Pow2(LUT_BITS - ls[k])
  {
    hide Shl, Shr, Pow2, Code, Fits;
    Interval(Code(ls, k), LUT_BITS - ls[k], p);
    IntervalInLut(ls, k);
  }

  /** Filling the interval of symbol `k` enters it. */
  lemma LutFilled(ls: seq<nat>, k: nat, lut: seq<nat>, after: seq<nat>)
    requires Fits(ls, MAX_CODE_LEN) && k < |ls| < 65536 && (forall i :: 0 <= i < |ls| ==> ls[i] >= 1) && ls[k] <= LUT_BITS
    requires Entries(ls, k, lut) && |after| == LUT_SIZE
    requires var start := Shl(Code(ls, k), LUT_BITS - ls[k]);
             var fill := Pow2(LUT_BITS - ls[k]);
             forall p :: 0 <= p < LUT_SIZE ==> after[p] == if start <= p < start + fill then Entry(ls[k], k) else lut[p]
    ensures Entries(ls, k + 1, after)
  {
    hide Shl, Shr, Pow2, Code, Fits, EntryRight, Leads;
    forall p | 0 <= p < LUT_SIZE ensures EntryRight(ls, k + 1, after[p], p) {
      LeadsInterval(ls, k, p);
      LutStep(ls, k, lut[p], p);
    }
  }

  lemma LutSkipped(ls: seq<nat>, k: nat, lut: seq<nat>)
    requires k < |ls| < 65536 && (forall i :: 0 <= i < |ls| ==> ls[i] >= 1) && ls[k] > LUT_BITS && Entries(ls, k, lut)
    ensures Entries(ls, k + 1, lut)
  {
    hide EntryRight;
    forall p | 0 <= p < LUT_SIZE ensures EntryRight(ls, k + 1, lut[p], p) {
      LutStep(ls, k, lut[p], p);
    }
  }

  /** `codes[l]` is the next unassigned code of length `l` after the first `k` symbols. */
  ghost predicate Assigned(ls: seq<nat>, k: nat, codes: seq<nat>)
    requires k <= |ls|
  {
    |codes| == MAX_CODE_LEN + 1 && forall l :: 1 <= l <= MAX_CODE_LEN ==> codes[l] == First(ls, l) + CountLen(ls[..k], l)
  }

  lemma AssignedStep(ls: seq<nat>, k: nat, codes: seq<nat>)
    requires k < |ls| && Assigned(ls, k, codes) && 1 <= ls[k] <= MAX_CODE_LEN
    ensures codes[ls[k]] == Code(ls, k) && Assigned(ls, k + 1, codes[ls[k] := codes[ls[k]] + 1])
  {
    hide First, CountLen;
    forall l ensures CountLen(ls[..k + 1], l) == CountLen(ls[..k], l) + if ls[k] == l then 1 else 0 {
      CountStep(ls, k, l);
    }
  }

  method FillLut(ls: seq<nat>, next: seq<nat>) returns (lut: seq<nat>)
    requires Fits(ls, MAX_CODE_LEN) && |ls| < 65536 && forall i :: 0 <= i < |ls| ==> 1 <= ls[i] <= MAX_CODE_LEN
    requires |next| == MAX_CODE_LEN + 1 && forall l :: 1 <= l <= MAX_CODE_LEN ==> next[l] == First(ls, l)
    ensures Entries(ls, |ls|, lut)
  {
    hide Fits, First, Shl, Pow2, Code;
    var a := new nat[LUT_SIZE](_ => 0);
    var codes: seq<nat> := next;
    assert ls[..0] == [];
    for symbol := 0 to |ls|
      invariant Assigned(ls, symbol, codes)
      invariant Entries(ls, symbol, a[..])
    {
      hide Assigned, Entries;
      var length := ls[symbol];
      AssignedStep(ls, symbol, codes);
      ShapeOf(ls, symbol, codes);
      var canonical: nat := codes[length];
      codes := codes[length := codes[length] + 1];
      ghost var was := a[..];
      if length <= LUT_BITS {
        var fill := Pow2(LUT_BITS - length);
        var start := Shl(canonical, LUT_BITS - length);
        IntervalInLut(ls, symbol);
        forall p | start <= p < start + fill {
          a[p] := Entry(length, symbol);
        }
        LutFilled(ls, symbol, was, a[..]);
      } else {
        LutSkipped(ls, symbol, was);
      }
    }
    lut := a[..];
  }

  lemma ShapeOf(ls: seq<nat>, k: nat, codes: seq<nat>)
    requires k <= |ls| && Assigned(ls, k, codes)
    ensures |codes| == MAX_CODE_LEN + 1
  {
  }

  method SymbolsOfLength(ls: seq<nat>, length: nat) returns (o: seq<nat>)
    ensures o == OfLength(ls, length)
  {
    o := [];
    for symbol := 0 to |ls|
      invariant o == OfLength(ls[..symbol], length)
    {
      assert ls[..symbol + 1][..symbol] == ls[..symbol];
      if ls[symbol] == length {
        o := o + [symbol];
      }
    }
    assert ls[..|ls|] == ls;
  }

  method Symbols(ls: seq<nat>, minLen: nat, maxLen: nat) returns (symbols: seq<nat>)
    requires minLen <= maxLen && forall i :: 0 <= i < |ls| ==> ls[i] >= minLen
    ensures symbols == ByLength(ls, maxLen + 1)
  {
    hide OfLength;
    NoneShorter(ls, minLen);
    symbols := [];
    for length := minLen to maxLen + 1
      invariant symbols == ByLength(ls, length)
    {
      var more := SymbolsOfLength(ls, length);
      symbols := symbols + more;
    }
  }

  method Limits(ls: seq<nat>, counts: seq<nat>, minLen: nat, maxLen: nat) returns (limit: seq<int>)
    requires 1 <= minLen <= maxLen <= MAX_CODE_LEN && forall i :: 0 <= i < |ls| ==> ls[i] >= minLen
    requires |counts| == MAX_CODE_LEN + 1 && forall l :: 0 <= l <= MAX_CODE_LEN ==> counts[l] == CountLen(ls, l)
    ensures |limit| == MAX_CODE_LEN + 1 && forall l :: minLen <= l <= maxLen ==> limit[l] == Next(ls, l) - 1
  {
    hide CountLen, First;
    NoneShorter(ls, minLen);
    var a: array<int> := new int[MAX_CODE_LEN + 1](_ => 0);
    var value: int := 0;
    for length := minLen to maxLen + 1
      invariant value == First(ls, length)
      invariant forall l :: minLen <= l < length ==> a[l] == Next(ls, l) - 1
    {
      FirstUnfold(ls, length + 1);
      value := value + counts[length];
      a[length] := value - 1;
      value := value * 2;
    }
    limit := a[..];
  }

  /** How many symbols are one bit shorter than `l`. */
  function Prior(ls: seq<nat>, l: nat): nat
  {
    if l == 0 then 0 else CountLen(ls, l - 1)
  }

  /** How many symbols are shorter than each length, by counting and prefix sums. */
  method ShorterCounts(ls: seq<nat>) returns (base: seq<int>)
    requires forall i :: 0 <= i < |ls| ==> 1 <= ls[i] <= MAX_CODE_LEN
    ensures |base| == MAX_CODE_LEN + 1 && forall l :: 0 <= l <= MAX_CODE_LEN ==> base[l] == Shorter(ls, l)
  {
    var a: array<int> := new int[MAX_CODE_LEN + 1](_ => 0);
    for i := 0 to |ls|
      invariant forall l :: 0 <= l <= MAX_CODE_LEN ==> a[l] == Prior(ls[..i], l)
    {
      forall l | 0 <= l <= MAX_CODE_LEN ensures Prior(ls[..i + 1], l) == Prior(ls[..i], l) + if ls[i] + 1 == l then 1 else 0 {
        if l > 0 {
          CountStep(ls, i, l - 1);
        }
      }
      hide Prior, CountLen, Shorter;
      if ls[i] != MAX_CODE_LEN {
        a[ls[i] + 1] := a[ls[i] + 1] + 1;
      }
    }
    assert ls[..|ls|] == ls;
    ShorterUnfold(ls, 0);
    for index := 1 to MAX_CODE_LEN + 1
      invariant forall l :: 0 <= l < index ==> a[l] == Shorter(ls, l)
      invariant forall l :: index <= l <= MAX_CODE_LEN ==> a[l] == Prior(ls, l)
    {
      hide Prior, CountLen, Shorter;
      ShorterUnfold(ls, index);
      a[index] := a[index] + a[index - 1];
    }
    base := a[..];
  }

  lemma ShorterUnfold(ls: seq<nat>, l: nat)
    ensures Shorter(ls, l) == Prior(ls, l) + if l == 0 then 0 else Shorter(ls, l - 1)
  {
  }

  method Bases(ls: seq<nat>, limit: seq<int>, minLen: nat, maxLen: nat) returns (base: seq<int>)
    requires 1 <= minLen <= maxLen <= MAX_CODE_LEN && forall i :: 0 <= i < |ls| ==> minLen <= ls[i] <= maxLen
    requires |limit| == MAX_CODE_LEN + 1 && forall l :: minLen <= l <= maxLen ==> limit[l] == Next(ls, l) - 1
    ensures |base| == MAX_CODE_LEN + 1 && forall l :: minLen <= l <= maxLen ==> base[l] == First(ls, l) - Shorter(ls, l)
  {
    hide CountLen, Shorter, First;
    NoneShorter(ls, minLen);
    base := ShorterCounts(ls);
    for length := minLen + 1 to maxLen + 1
      invariant |base| == MAX_CODE_LEN + 1
      invariant forall l :: minLen <= l < length ==> base[l] == First(ls, l) - Shorter(ls, l)
      invariant forall l :: length <= l <= maxLen ==> base[l] == Shorter(ls, l)
    {
      FirstUnfold(ls, length);
      base := base[length := (limit[length - 1] + 1) * 2 - base[length]];
    }
  }

  /** A table is built exactly when the lengths are in 1..20 and describe a prefix code. */
  method Build(ls: seq<nat>) returns (r: Result<Table>)
    requires |ls| < 65536
    ensures r.Ok? <==> ls != [] && (forall i :: 0 <= i < |ls| ==> 1 <= ls[i] <= MAX_CODE_LEN) && Fits(ls, MAX_CODE_LEN)
    ensures r.Err? ==> r.error == InvalidHuffman
    ensures r.Ok? ==> Decodes(ls, r.value)
    ensures r.Ok? ==> r.value.minLen in ls && r.value.maxLen in ls
  {
    hide Fits, Entries, ByLength, First, Shorter;
    if ls == [] {
      return Err(InvalidHuffman);
    }
    var min, max := Extremes(ls);
    if min == 0 || max > MAX_CODE_LEN {
      return Err(InvalidHuffman);
    }
    var counts := Counts(ls);
    NoneLonger(ls, 0);
    var next := NextCodes(ls, counts);
    if next.Err? {
      return Err(next.error);
    }
    var lut := FillLut(ls, next.value);
    var symbols := Symbols(ls, min, max);
    var limit := Limits(ls, counts, min, max);
    var base := Bases(ls, limit, min, max);
    r := Ok(Table(min, max, limit, base, symbols, lut));
  }

  // ----- Decoding -----

  /** Whether a code word comes next is a matter of its bits' value. */
  lemma BeginsByValue(ls: seq<nat>, max: nat, s: seq<bool>, at: nat, i: nat)
    requires Fits(ls, max) && i < |ls| && 1 <= ls[i] <= max && at + ls[i] <= |s|
    ensures Begins(ls, s, at, i) <==> ValueOf(s[at..at + ls[i]]) == Code(ls, i)
  {
    hide Code, BitsOf, ValueOf, Fits;
    CodeFits(ls, max, i);
    ValueOfBits(Code(ls, i), ls[i]);
    if ValueOf(s[at..at + ls[i]]) == Code(ls, i) {
      SameValue(s[at..at + ls[i]], Word(ls, i));
    }
  }

  /** A lookup entry names the next symbol. */
  lemma LookedUp(ls: seq<nat>, t: Table, s: seq<bool>, at: nat, p: nat)
    requires Decodes(ls, t) && at + LUT_BITS <= |s| && p == ValueOf(s[at..at + LUT_BITS]) && p < LUT_SIZE && t.lut[p] / 65536 != 0
    ensures var sym, length := t.lut[p] % 65536, t.lut[p] / 65536;
            length <= LUT_BITS && NextSymbol(ls, t.maxLen, s, at) == Parsed(sym, at + length)
  {
    hide Shr, Code, NextSymbol, Fits, ValueOf, Low, Shl, Pow2;
    assert EntryRight(ls, |ls|, t.lut[p], p);
    var sym := t.lut[p] % 65536;
    assert Leads(ls, sym, p);
    hide EntryRight;
    SliceValue(s[at..at + LUT_BITS], 0, ls[sym]);
    LowFits(p, LUT_BITS) by { ValueBound(s[at..at + LUT_BITS]); }
    assert s[at..at + LUT_BITS][0..ls[sym]] == s[at..at + ls[sym]];
    ValueBound(s[at..at + LUT_BITS]);
    BeginsByValue(ls, MAX_CODE_LEN, s, at, sym);
    FitsWithin(ls, t.maxLen);
    NextSymbolIs(ls, t.maxLen, s, at, sym);
  }

  lemma FitsWithin(ls: seq<nat>, max: nat)
    requires Fits(ls, MAX_CODE_LEN) && max <= MAX_CODE_LEN
    ensures Fits(ls, max)
  {
  }

  /** No symbol of length up to `length` comes next, and `code` is past all their codes. */
  ghost predicate Searching(ls: seq<nat>, s: seq<bool>, at: nat, length: nat, code: nat)
  {
    && 1 <= length && at + length <= |s| && code == ValueOf(s[at..at + length]) && code >= First(ls, length)
    && forall i :: 0 <= i < |ls| && ls[i] < length ==> !Begins(ls, s, at, i)
  }

  lemma SearchStarts(ls: seq<nat>, t: Table, s: seq<bool>, at: nat)
    requires Decodes(ls, t) && at + t.minLen <= |s|
    ensures Searching(ls, s, at, t.minLen, ValueOf(s[at..at + t.minLen]))
  {
    NoneShorter(ls, t.minLen);
  }

  /** At or below the limit the code is a symbol's and the table names it. */
  lemma SearchEnds(ls: seq<nat>, t: Table, s: seq<bool>, at: nat, length: nat, code: nat)
    requires Decodes(ls, t) && t.minLen <= length <= t.maxLen && Searching(ls, s, at, length, code) && code <= t.limit[length]
    ensures 0 <= code - t.base[length] < |t.symbols|
    ensures NextSymbol(ls, t.maxLen, s, at) == Parsed(t.symbols[code - t.base[length]], at + length)
  {
    hide ValueOf, NextSymbol, Entries, First, Fits, CountLen, OfLength, ByLength, Word;
    var r := code - First(ls, length);
    OfLengthAt(ls, length, r);
    ByLengthAt(ls, length, r, t.maxLen + 1);
    var i := OfLength(ls, length)[r];
    BeginsByValue(ls, MAX_CODE_LEN, s, at, i);
    FitsWithin(ls, t.maxLen);
    NextSymbolIs(ls, t.maxLen, s, at, i);
  }

  /** Past the limit no symbol of this length comes next. */
  lemma SearchPasses(ls: seq<nat>, t: Table, s: seq<bool>, at: nat, length: nat, code: nat)
    requires Decodes(ls, t) && t.minLen <= length <= t.maxLen && Searching(ls, s, at, length, code) && code > t.limit[length]
    ensures forall i :: 0 <= i < |ls| && ls[i] <= length ==> !Begins(ls, s, at, i)
    ensures length < t.maxLen && at + length < |s| ==> Searching(ls, s, at, length + 1, 2 * code + if s[at + length] then 1 else 0)
    ensures length == t.maxLen || at + length >= |s| ==>
              NextSymbol(ls, t.maxLen, s, at) == Failed(if length == t.maxLen then InvalidHuffman else Truncated)
  {
    hide ValueOf, Entries, Fits, CountLen, Word, ByLength;
    forall i | 0 <= i < |ls| && ls[i] <= length ensures !Begins(ls, s, at, i) {
      if ls[i] == length {
        CodeRange(ls, i);
        BeginsByValue(ls, MAX_CODE_LEN, s, at, i);
      }
    }
    if length < t.maxLen && at + length < |s| {
      ValueStep(s, at, length);
      assert First(ls, length + 1) == 2 * Next(ls, length);
    }
  }

  lemma ValueStep(s: seq<bool>, at: nat, length: nat)
    requires at + length < |s|
    ensures ValueOf(s[at..at + length + 1]) == 2 * ValueOf(s[at..at + length]) + if s[at + length] then 1 else 0
  {
    assert s[at..at + length + 1][..length] == s[at..at + length];
  }

  /** Too few bits even for the shortest code. */
  lemma TooShort(ls: seq<nat>, t: Table, s: seq<bool>, at: nat)
    requires Decodes(ls, t) && at + t.minLen > |s|
    ensures NextSymbol(ls, t.maxLen, s, at) == Failed(Truncated)
  {
  }

  lemma TableShape(ls: seq<nat>, t: Table)
    requires Decodes(ls, t)
    ensures |t.lut| == LUT_SIZE && |t.limit| == |t.base| == MAX_CODE_LEN + 1 && 1 <= t.minLen <= t.maxLen <= MAX_CODE_LEN
  {
  }

  lemma PeekIndex(s: seq<bool>, at: nat)
    requires at + LUT_BITS <= |s|
    ensures ValueOf(s[at..at + LUT_BITS]) < LUT_SIZE
  {
    ValueBound(s[at..at + LUT_BITS]);
    assert Pow2(12) == 4096;
  }

  /** The fallback: lengthen the code bit by bit until it is within the limit of its length. */
  method Lengthen(t: Table, bits: Bits, ghost ls: seq<nat>) returns (r: Result<nat>)
    requires Decodes(ls, t) && bits.Valid()
    modifies bits
    ensures bits.Valid() && Follows(r, bits.bit, NextSymbol(ls, t.maxLen, bits.All(), old(bits.bit)))
  {
    hide Decodes, NextSymbol, Searching, ValueOf, Stream;
    ghost var s, at := bits.All(), bits.bit;
    TableShape(ls, t);
    var length := t.minLen;
    var first := bits.Read(length);
    if first.Err? {
      TooShort(ls, t, s, at);
      return Err(first.error);
    }
    var code: nat := first.value;
    SearchStarts(ls, t, s, at);
    while true
      invariant t.minLen <= length <= t.maxLen
      invariant bits.Valid() && bits.bit == at + length
      invariant Searching(ls, s, at, length, code)
      decreases t.maxLen - length
    {
      if code <= t.limit[length] {
        SearchEnds(ls, t, s, at, length, code);
        var index := code - t.base[length];
        return Ok(t.symbols[index]);
      }
      SearchPasses(ls, t, s, at, length, code);
      if length == t.maxLen {
        return Err(InvalidHuffman);
      }
      var bit := bits.Read(1);
      if bit.Err? {
        return Err(bit.error);
      }
      OneBit(s, at + length);
      length := length + 1;
      code := code * 2 + bit.value;
    }
  }

  /** The table decodes exactly the prefix code that the lengths describe. */
  method Decode(t: Table, bits: Bits, ghost ls: seq<nat>) returns (r: Result<nat>)
    requires Decodes(ls, t) && bits.Valid()
    modifies bits
    ensures bits.Valid() && Follows(r, bits.bit, NextSymbol(ls, t.maxLen, bits.All(), old(bits.bit)))
  {
    hide Decodes, NextSymbol, ValueOf, Stream;
    ghost var s, at := bits.All(), bits.bit;
    var remaining := bits.Remaining();
    if remaining >= LUT_BITS {
      var index := bits.Peek(LUT_BITS);
      PeekIndex(s, at);
      TableShape(ls, t);
      var entry := t.lut[index.value];
      var length := entry / 65536;
      if length != 0 {
        LookedUp(ls, t, s, at, index.value);
        bits.Skip(length);
        return Ok(entry % 65536);
      }
    }
    r := Lengthen(t, bits, ls);
  }
}
