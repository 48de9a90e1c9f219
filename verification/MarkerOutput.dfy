/** The output of a chunk decoded without its predecessor: 16-bit markers until a whole window is known bytes. */
module MarkerOutputs {
  import opened Bytes
  import opened History
  import opened Inflate

  datatype InitialHistory = Empty | Unknown

  class MarkerOutput {
    var marked: seq<nat>
    var clean: seq<Byte>
    var cleanStart: nat
    const history: InitialHistory
    const limit: nat
    var cleanMode: bool

    ghost predicate Valid()
      reads this
    {
      && cleanStart <= |clean| && |marked| + (|clean| - cleanStart) <= limit
      && (forall i :: 0 <= i < |marked| ==> IsSymbol(marked[i]))
      && (!cleanMode ==> clean == [] && cleanStart == 0 && history.Unknown?)
      && (cleanMode && history.Empty? ==> marked == [] && cleanStart == 0)
      && (cleanMode && history.Unknown? ==>
            cleanStart == WINDOW <= |marked| && WINDOW <= |clean| && clean[..WINDOW] == marked[|marked| - WINDOW..])
    }

    /** What the chunk has decoded to. */
    ghost function Symbols(): seq<nat>
      reads this
      requires Valid()
    {
      marked + clean[cleanStart..]
    }

    /** What stands before the chunk. */
    ghost function Before(): seq<nat>
    {
      if history.Unknown? then Markers() else []
    }

    ghost function Whole(): seq<nat>
      reads this
      requires Valid()
    {
      Before() + Symbols()
    }

    ghost function Cap(): nat
    {
      |Before()| + limit
    }

    constructor (history: InitialHistory, limit: nat)
      ensures Valid() && this.history == history && this.limit == limit && Symbols() == []
    {
      marked, clean, cleanStart := [], [], 0;
      this.history, this.limit := history, limit;
      cleanMode := history.Empty?;
    }

    method Len() returns (n: nat)
      requires Valid()
      ensures n == |Symbols()|
    {
      n := |marked| + (|clean| - cleanStart);
    }

    method EnsureCapacity(additional: nat) returns (ok: bool)
      requires Valid()
      ensures ok == (|Symbols()| + additional <= limit)
    {
      var len := Len();
      ok := additional <= limit - len;
    }

    /** Once a whole window of plain bytes has been decoded, go on with bytes. */
    method TryClean()
      requires Valid()
      modifies this
      ensures Valid() && Whole() == old(Whole())
    {
      if cleanMode || |marked| < WINDOW {
        return;
      }
      var suffix := marked[|marked| - WINDOW..];
      if exists i :: 0 <= i < |suffix| && suffix[i] > 255 {
        return;
      }
      assert forall i :: 0 <= i < |suffix| ==> suffix[i] < 256;
      clean := suffix;
      cleanStart := WINDOW;
      cleanMode := true;
    }

    method Emit(byte: Byte) returns (ok: bool)
      requires Valid()
      modifies this`marked, this`clean
      ensures Valid() && ok == StepCapped(old(Whole()), Literal(byte), Cap()).Some?
      ensures Whole() == if ok then StepCapped(old(Whole()), Literal(byte), Cap()).value else old(Whole())
    {
      ok := ExtendBytes([byte]);
    }

    method ExtendBytes(bytes: seq<Byte>) returns (ok: bool)
      requires Valid()
      modifies this`marked, this`clean
      ensures Valid() && ok == StepCapped(old(Whole()), Raw(bytes), Cap()).Some?
      ensures Whole() == if ok then StepCapped(old(Whole()), Raw(bytes), Cap()).value else old(Whole())
    {
      ok := EnsureCapacity(|bytes|);
      if !ok {
        return;
      }
      if cleanMode {
        Push(Before(), marked, clean, bytes, cleanStart);
        clean := clean + bytes;
      } else {
        assert clean[cleanStart..] == [];
        assert Before() + (marked + bytes + []) == (Before() + (marked + [])) + bytes;
        marked := marked + bytes;
      }
    }

    /** A copy reaches into the chunk, into the unknown window before it, or both. */
    method Copy(distance: nat, length: nat) returns (ok: bool)
      requires Valid()
      modifies this`marked, this`clean
      ensures Valid() && ok == StepCapped(old(Whole()), Inflate.Copy(distance, length), Cap()).Some?
      ensures Whole() == if ok then StepCapped(old(Whole()), Inflate.Copy(distance, length), Cap()).value else old(Whole())
    {
      ok := EnsureCapacity(length);
      if !ok {
        return;
      }
      if cleanMode {
        ok := CopyClean(distance, length);
      } else {
        ok := CopyMarked(distance, length);
      }
    }

    method CopyClean(distance: nat, length: nat) returns (ok: bool)
      requires Valid() && cleanMode && |Symbols()| + length <= limit
      modifies this`clean
      ensures Valid() && ok == StepCapped(old(Whole()), Inflate.Copy(distance, length), Cap()).Some?
      ensures Whole() == if ok then StepCapped(old(Whole()), Inflate.Copy(distance, length), Cap()).value else old(Whole())
    {
      hide Extend;
      var available := Min(|clean|, WINDOW);
      ghost var a, was := Before() + marked[..|marked| - cleanStart], clean;
      CleanTail(Before(), marked, clean, cleanStart);
      if distance == 0 || distance > available {
        return false;
      }
      clean := ExtendClean(clean, distance, length);
      ExtendSuffix<nat>(a, was, distance, length);
      SamePrefix(was, clean, cleanStart);
      CleanTail(Before(), marked, clean, cleanStart);
      ok := true;
    }

    method CopyMarked(distance: nat, length: nat) returns (ok: bool)
      requires Valid() && !cleanMode && |Symbols()| + length <= limit
      modifies this`marked
      ensures Valid() && ok == StepCapped(old(Whole()), Inflate.Copy(distance, length), Cap()).Some?
      ensures Whole() == if ok then StepCapped(old(Whole()), Inflate.Copy(distance, length), Cap()).value else old(Whole())
    {
      hide Extend;
      // A chunk with an empty history is always in byte mode, so the whole unknown window is within reach here.
      var available := WINDOW;
      assert Whole() == Markers() + marked by {
        assert marked + clean[cleanStart..] == marked;
      }
      if distance == 0 || distance > available {
        return false;
      }
      var appendStart, copied := |marked|, 0;
      ghost var was := marked;
      ExtendNothing(Markers() + was, distance);
      if distance > appendStart {
        var fromWindow := Min(distance - appendStart, length);
        var first := WINDOW + appendStart - distance;
        marked := marked + seq(fromWindow, offset requires 0 <= offset < fromWindow => WINDOW + first + offset);
        copied := fromWindow;
        WindowPart(was, marked, distance, fromWindow);
      }
      if copied < length {
        ghost var mid := marked;
        marked := ExtendMatch(marked, distance, length - copied);
        ExtendSuffix(Markers(), mid, distance, length - copied);
        ExtendSplit(Markers() + was, distance, copied, length);
        ExtendSymbols(mid, distance, length - copied);
      }
      assert Whole() == Markers() + marked by {
        assert marked + clean[cleanStart..] == marked;
      }
      ok := true;
    }
  }

  lemma Push(before: seq<nat>, marked: seq<nat>, clean: seq<Byte>, bytes: seq<Byte>, k: nat)
    requires k <= |clean|
    ensures before + (marked + (clean + bytes)[k..]) == (before + (marked + clean[k..])) + bytes
    ensures (clean + bytes)[..k] == clean[..k]
  {
    assert (clean + bytes)[k..] == clean[k..] + bytes;
  }

  lemma ExtendNothing(out: seq<nat>, distance: nat)
    requires 1 <= distance <= |out|
    ensures Extend(out, distance, 0) == out
  {
  }

  /** In byte mode the bytes alone are the tail of everything decoded. */
  lemma CleanTail(before: seq<nat>, marked: seq<nat>, clean: seq<Byte>, k: nat)
    requires k <= |clean| && k <= |marked| && clean[..k] == marked[|marked| - k..]
    ensures before + (marked + clean[k..]) == (before + marked[..|marked| - k]) + clean
  {
    assert marked == marked[..|marked| - k] + clean[..k];
    assert clean == clean[..k] + clean[k..];
  }

  lemma SamePrefix<T>(was: seq<T>, now: seq<T>, k: nat)
    requires was <= now && k <= |was|
    ensures now[..k] == was[..k]
  {
  }

  /** A byte copy stays bytes. */
  method ExtendClean(clean: seq<Byte>, distance: nat, length: nat) returns (r: seq<Byte>)
    requires 1 <= distance <= |clean|
    ensures |r| == |clean| + length && clean <= r && r == Extend<nat>(clean, distance, length)
  {
    r := ExtendMatch(clean, distance, length);
    SameExtend(clean, distance, length);
  }

  lemma {:induction false} SameExtend(clean: seq<Byte>, distance: nat, length: nat)
    requires 1 <= distance <= |clean|
    ensures Extend<Byte>(clean, distance, length) == Extend<nat>(clean, distance, length)
    decreases length
  {
    if length > 0 {
      SameExtend(clean + [clean[|clean| - distance]], distance, length - 1);
    }
  }

  /** The markers a copy takes from the window are the window's. */
  lemma WindowPart(marked: seq<nat>, after: seq<nat>, distance: nat, k: nat)
    requires |marked| < distance <= WINDOW && k <= distance - |marked|
    requires |after| == |marked| + k && after[..|marked|] == marked
    requires forall i {:trigger after[i]} :: |marked| <= i < |marked| + k ==> after[i] == WINDOW + (WINDOW + |marked| - distance) + (i - |marked|)
    ensures Markers() + after == Extend(Markers() + marked, distance, k)
    ensures forall i :: |marked| <= i < |after| ==> IsSymbol(after[i])
  {
    var w := Markers() + marked;
    ExtendShort(w, distance, k);
    assert Markers() + after == w + w[|w| - distance..|w| - distance + k];
  }

  lemma {:induction false} ExtendSymbols(out: seq<nat>, distance: nat, length: nat)
    requires 1 <= distance <= |out| && forall i :: 0 <= i < |out| ==> IsSymbol(out[i])
    ensures forall i :: 0 <= i < |out| + length ==> IsSymbol(Extend(out, distance, length)[i])
    decreases length
  {
    if length > 0 {
      ExtendSymbols(out + [out[|out| - distance]], distance, length - 1);
    }
  }
}
