/** Move-to-front with zero runs: the symbols of a bzip2 block and the decoder's run accumulator. */
module Mtf {
  import opened Seqs
  import opened Bytes
  import opened Sums
  import opened BitStream
  import opened BitReading
  import opened MoveToFront
  import Canonical
  import SymbolMap

  const RUNA: nat := 0
  const RUNB: nat := 1

  // ----- The symbol stream -----

  /** A run of `n` front positions in bijective base two, least digit first. */
  function Run(n: nat): (r: seq<nat>)
    ensures |r| <= n && forall i :: 0 <= i < |r| ==> r[i] <= 1
  {
    if n == 0 then [] else if n % 2 == 1 then [RUNA] + Run((n - 1) / 2) else [RUNB] + Run((n - 2) / 2)
  }

  predicate Within(block: seq<Byte>, list: seq<Byte>)
  {
    forall i :: 0 <= i < |block| ==> block[i] in list
  }

  /** The symbols for `block` when `zeros` front positions are still pending. */
  function Symbols(block: seq<Byte>, list: seq<Byte>, zeros: nat): (s: seq<nat>)
    requires Within(block, list)
    ensures 1 <= |s| <= |block| + zeros + 1
    decreases block
  {
    if block == [] then Run(zeros) + [|list| + 1] else
      var j := PositionOf(list, block[0]);
      if j == 0 then Symbols(block[1..], list, zeros + 1) else
        Moved(list, j);
        Run(zeros) + [j + 1] + Symbols(block[1..], MoveFront(list, j), 0)
  }

  // ----- The decoder's step -----

  datatype State = State(list: seq<Byte>, out: seq<Byte>, run: nat, runBit: nat)

  datatype Outcome = More(state: State) | Done(block: seq<Byte>) | Bad(error: Error)

  /** Write out a pending run of the front byte. */
  function Flushed(st: State): (out: seq<Byte>)
    requires st.list != []
  {
    if st.run == 0 then st.out else st.out + Repeat(st.list[0], st.run)
  }

  function Take(st: State, symbol: nat, size: nat): (o: Outcome)
    requires st.list != []
    ensures o.More? ==> |o.state.list| == |st.list|
    ensures o.Done? ==> symbol == |st.list| + 1
    ensures o.More? ==> symbol != |st.list| + 1
  {
    if symbol <= 1 then
      var run := st.run + Shl(symbol + 1, st.runBit);
      if st.runBit + 1 >= 32 || run > size then Bad(BlockOverflow)
      else More(State(st.list, st.out, run, st.runBit + 1))
    else if st.run != 0 && |st.out| + st.run > size then Bad(BlockOverflow)
    else
      var out := Flushed(st);
      var runBit := if st.run != 0 then 0 else st.runBit;
      if symbol == |st.list| + 1 then Done(out)
      else if symbol - 1 >= |st.list| || |out| == size then Bad(InvalidBlock)
      else More(State(MoveFront(st.list, symbol - 1), out + [st.list[symbol - 1]], 0, runBit))
  }

  function Feed(st: State, symbols: seq<nat>, size: nat): Outcome
    requires st.list != []
    decreases symbols
  {
    if symbols == [] then More(st) else
      var o := Take(st, symbols[0], size);
      if o.More? then Feed(o.state, symbols[1..], size) else o
  }

  // ----- Round trip -----

  lemma ShlDouble(m: nat, k: nat)
    ensures Shl(2 * m, k) == Shl(m, k + 1)
  {
    hide Pow2;
    Canonical.ShlPlus(m, m, k);
  }

  lemma DigitValue(n: nat, digit: nat, k: nat)
    requires n > 0 && digit == (if n % 2 == 1 then 1 else 2)
    ensures Shl(n, k) == Shl(digit, k) + Shl((n - digit) / 2, k + 1) && Shl(digit, k) >= Pow2(k)
  {
    hide Shl, Pow2;
    var m := (n - digit) / 2;
    assert n == digit + 2 * m;
    Canonical.ShlPlus(digit, 2 * m, k);
    ShlDouble(m, k);
    Canonical.ShlOne(k);
    Canonical.ShlPlus(1, 1, k);
  }

  lemma FewDigits(k: nat, size: nat)
    requires size < 0x7FFF_FFFF && Pow2(k) <= size + 1
    ensures k < 32
  {
    hide Pow2;
    if k >= 32 {
      Pow2Monotone(32, k);
      Pow2Values();
    }
  }

  /** Feeding the digits of `n` adds `n` at the current digit's worth. */
  lemma {:induction false} FeedRun(st: State, n: nat, rest: seq<nat>, size: nat)
    requires st.list != [] && size < 0x7FFF_FFFF && st.run + Shl(n, st.runBit) <= size && Pow2(st.runBit) <= st.run + 1
    ensures Feed(st, Run(n) + rest, size) == Feed(State(st.list, st.out, st.run + Shl(n, st.runBit), st.runBit + |Run(n)|), rest, size)
    decreases n
  {
    hide Shl, Pow2, Feed, Run;
    RunUnfold(n, rest);
    if n == 0 {
      Canonical.ShlOne(st.runBit);
    } else {
      var digit := if n % 2 == 1 then 1 else 2;
      var m := (n - digit) / 2;
      DigitValue(n, digit, st.runBit);
      var next := State(st.list, st.out, st.run + Shl(digit, st.runBit), st.runBit + 1);
      Pow2Step(st.runBit);
      FewDigits(st.runBit + 1, size);
      FeedStep(st, digit - 1, Run(m) + rest, size);
      FeedRun(next, m, rest, size);
    }
  }

  lemma RunUnfold(n: nat, rest: seq<nat>)
    ensures n == 0 ==> Run(n) == [] && Run(n) + rest == rest
    ensures n > 0 ==>
              var digit := if n % 2 == 1 then 1 else 2;
              Run(n) + rest == [digit - 1] + (Run((n - digit) / 2) + rest) && |Run(n)| == 1 + |Run((n - digit) / 2)|
  {
    hide Run;
    RunStep(n);
    if n > 0 {
      var digit := if n % 2 == 1 then 1 else 2;
      Regroup([digit - 1], Run((n - digit) / 2), rest);
    }
  }

  lemma RunStep(n: nat)
    ensures Run(n) == if n == 0 then [] else if n % 2 == 1 then [0] + Run((n - 1) / 2) else [1] + Run((n - 2) / 2)
  {
  }

  lemma Pow2Step(k: nat)
    ensures Pow2(k + 1) == 2 * Pow2(k)
  {
  }

  lemma FeedStep(st: State, symbol: nat, rest: seq<nat>, size: nat)
    requires st.list != []
    ensures var o := Take(st, symbol, size);
            Feed(st, [symbol] + rest, size) == if o.More? then Feed(o.state, rest, size) else o
  {
    hide Take;
    assert ([symbol] + rest)[1..] == rest;
  }

  /** A run and the symbol that ends it, fed to a decoder with no run pending. */
  lemma FeedRunAnd(list: seq<Byte>, out: seq<Byte>, zeros: nat, symbol: nat, rest: seq<nat>, size: nat)
    requires list != [] && size < 0x7FFF_FFFF && |out| + zeros <= size && symbol >= 2
    ensures var st := State(list, out, 0, 0);
            var o := Take(State(list, out, zeros, |Run(zeros)|), symbol, size);
            Feed(st, Run(zeros) + ([symbol] + rest), size) == if o.More? then Feed(o.state, rest, size) else o
  {
    hide Take, Feed;
    ShlNothing(zeros);
    FeedRun(State(list, out, 0, 0), zeros, [symbol] + rest, size);
    FeedStep(State(list, out, zeros, |Run(zeros)|), symbol, rest, size);
  }

  lemma ShlNothing(v: nat)
    ensures Shl(v, 0) == v
  {
  }

  /** Decoding the symbols of a block gives the block back: the last `zeros` bytes before `i` are still pending. */
  lemma {:induction false} SymbolsRoundTrip(list: seq<Byte>, block: seq<Byte>, i: nat, zeros: nat, size: nat)
    requires list != [] && zeros <= i <= |block| <= size < 0x7FFF_FFFF && Within(block[i..], list)
    requires forall k :: i - zeros <= k < i ==> block[k] == list[0]
    ensures Feed(State(list, block[..i - zeros], 0, 0), Symbols(block[i..], list, zeros), size) == Done(block)
    decreases |block| - i
  {
    hide Feed, Symbols, Take, Run, PositionOf, MoveFront;
    var out := block[..i - zeros];
    if i == |block| {
      assert block[i..] == [];
      LastSymbols(list, zeros);
      assert [|list| + 1] + [] == [|list| + 1];
      FeedRunAnd(list, out, zeros, |list| + 1, [], size);
      TakeLast(list, block, zeros, size);
    } else {
      SymbolStep(block, list, zeros, i);
      var j := PositionOf(list, block[i]);
      if j == 0 {
        SymbolsRoundTrip(list, block, i + 1, zeros + 1, size);
      } else {
        var after := Symbols(block[i + 1..], MoveFront(list, j), 0);
        Regroup(Run(zeros), [j + 1], after);
        FeedRunAnd(list, out, zeros, j + 1, after, size);
        TakeMoves(list, block, i, zeros, j, size);
        SymbolsRoundTrip(MoveFront(list, j), block, i + 1, 0, size);
      }
    }
  }

  lemma TakeLast(list: seq<Byte>, block: seq<Byte>, zeros: nat, size: nat)
    requires list != [] && zeros <= |block| <= size && forall k :: |block| - zeros <= k < |block| ==> block[k] == list[0]
    ensures Take(State(list, block[..|block| - zeros], zeros, |Run(zeros)|), |list| + 1, size) == Done(block)
  {
    var out := block[..|block| - zeros];
    assert out + Repeat(list[0], zeros) == block;
    assert zeros == 0 ==> out == block;
  }

  lemma TakeMoves(list: seq<Byte>, block: seq<Byte>, i: nat, zeros: nat, j: nat, size: nat)
    requires zeros <= i < |block| <= size && 0 < j < |list| && list[j] == block[i]
    requires forall k :: i - zeros <= k < i ==> block[k] == list[0]
    ensures Take(State(list, block[..i - zeros], zeros, |Run(zeros)|), j + 1, size) == More(State(MoveFront(list, j), block[..i + 1], 0, 0))
  {
    var out := block[..i - zeros];
    assert out + Repeat(list[0], zeros) == block[..i];
    assert zeros == 0 ==> out == block[..i];
    assert block[..i] + [list[j]] == block[..i + 1];
  }

  /** The end-of-block symbol comes last and nowhere else. */
  ghost predicate EndsOnce(s: seq<nat>, eob: nat)
  {
    s != [] && s[|s| - 1] == eob && forall i :: 0 <= i < |s| - 1 ==> s[i] < eob
  }

  lemma EndsOncePrefix(a: seq<nat>, s: seq<nat>, eob: nat)
    requires EndsOnce(s, eob) && forall i :: 0 <= i < |a| ==> a[i] < eob
    ensures EndsOnce(a + s, eob)
  {
  }

  lemma {:induction false} SymbolsEnd(block: seq<Byte>, list: seq<Byte>, zeros: nat, i: nat)
    requires i <= |block| && Within(block[i..], list) && list != []
    ensures EndsOnce(Symbols(block[i..], list, zeros), |list| + 1)
    decreases |block| - i
  {
    hide Symbols, PositionOf, MoveFront, EndsOnce, Run;
    if i == |block| {
      assert block[i..] == [];
      LastSymbols(list, zeros);
      EndsHere(|list| + 1);
      EndsOncePrefix(Run(zeros), [|list| + 1], |list| + 1);
    } else {
      SymbolStep(block, list, zeros, i);
      var j := PositionOf(list, block[i]);
      if j == 0 {
        SymbolsEnd(block, list, zeros + 1, i + 1);
      } else {
        SymbolsEnd(block, MoveFront(list, j), 0, i + 1);
        EndsOncePrefix(Run(zeros) + [j + 1], Symbols(block[i + 1..], MoveFront(list, j), 0), |list| + 1);
      }
    }
  }

  lemma EndsHere(eob: nat)
    ensures EndsOnce([eob], eob)
  {
  }

  lemma LastSymbols(list: seq<Byte>, zeros: nat)
    ensures Symbols([], list, zeros) == Run(zeros) + [|list| + 1]
  {
  }

  lemma SymbolStep(block: seq<Byte>, list: seq<Byte>, zeros: nat, i: nat)
    requires i < |block| && Within(block[i..], list)
    ensures block[i] in list && Within(block[i + 1..], list)
    ensures var j := PositionOf(list, block[i]);
            Within(block[i + 1..], MoveFront(list, j)) &&
            Symbols(block[i..], list, zeros) ==
            if j == 0 then Symbols(block[i + 1..], list, zeros + 1)
            else Run(zeros) + [j + 1] + Symbols(block[i + 1..], MoveFront(list, j), 0)
  {
    hide Run;
    assert block[i..][0] == block[i] && block[i..][1..] == block[i + 1..];
    var j := PositionOf(list, block[i]);
    Moved(list, j);
    var tail := block[i + 1..];
    forall k | 0 <= k < |tail| ensures tail[k] in list {
      assert tail[k] == block[i..][k + 1];
    }
  }

  // ----- The encoder -----

  method FlushZeroRun(syms: seq<nat>, zeros: nat) returns (more: seq<nat>)
    ensures more == syms + Run(zeros)
  {
    more := syms;
    var n := zeros;
    assert syms + Run(zeros) == more + Run(n);
    while n > 0
      invariant more + Run(n) == syms + Run(zeros)
    {
      ghost var was := more;
      if n % 2 == 1 {
        Regroup(was, [RUNA], Run((n - 1) / 2));
        more := more + [RUNA];
        n := (n - 1) / 2;
      } else {
        Regroup(was, [RUNB], Run((n - 2) / 2));
        more := more + [RUNB];
        n := (n - 2) / 2;
      }
    }
  }

  lemma UsedWithin(block: seq<Byte>)
    ensures Within(block, SymbolMap.Alphabet(SymbolMap.Seen(block)))
  {
    forall i | 0 <= i < |block| ensures block[i] in SymbolMap.Alphabet(SymbolMap.Seen(block)) {
      assert block[i] in block;
    }
  }

  method Encode(block: seq<Byte>) returns (inUse: seq<Byte>, syms: seq<nat>)
    ensures inUse == SymbolMap.Alphabet(SymbolMap.Seen(block))
    ensures Within(block, inUse) && syms == Symbols(block, inUse, 0)
  {
    hide Run, Symbols, PositionOf, MoveFront, Within, SymbolMap.Alphabet, SymbolMap.Seen;
    inUse := SymbolMap.InUse(block);
    UsedWithin(block);
    var list := inUse;
    var mtf := new Byte[|list|](i requires 0 <= i < |list| => list[i]);
    assert mtf[..] == inUse;
    var zeros := 0;
    syms := [];
    assert block[0..] == block;
    ghost var whole := Symbols(block, inUse, 0);
    for i := 0 to |block|
      invariant Within(block[i..], mtf[..])
      invariant syms + Symbols(block[i..], mtf[..], zeros) == whole
      invariant mtf.Length == |inUse|
    {
      SymbolStep(block, mtf[..], zeros, i);
      ghost var list := mtf[..];
      var idx := Position(mtf, block[i]);
      if idx == 0 {
        zeros := zeros + 1;
      } else {
        ghost var was := syms;
        syms := FlushZeroRun(syms, zeros);
        MoveInPlace(mtf, idx);
        Regroup3(was, Run(zeros), idx + 1, Symbols(block[i + 1..], MoveFront(list, idx), 0));
        zeros := 0;
        syms := syms + [idx + 1];
      }
    }
    assert block[|block|..] == [];
    LastSymbols(mtf[..], zeros);
    Regroup(syms, Run(zeros), [|inUse| + 1]);
    syms := FlushZeroRun(syms, zeros);
    syms := syms + [|inUse| + 1];
  }

}
