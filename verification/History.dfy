/** Overlapping copies from a decoder's own output. */
module History {
  import opened Sums

  /** One element at a time, each from `distance` back. */
  function Extend<T>(out: seq<T>, distance: nat, length: nat): (r: seq<T>)
    requires 1 <= distance <= |out|
    ensures |r| == |out| + length && out <= r
    decreases length
  {
    if length == 0 then out
    else Extend(out + [out[|out| - distance]], distance, length - 1)
  }

  /** `r` continues `out` with period `distance`. */
  ghost predicate Continues<T(!new)>(out: seq<T>, distance: nat, r: seq<T>)
    requires 1 <= distance <= |out|
  {
    |out| <= |r| && r[..|out|] == out && forall i {:trigger r[i]} :: |out| <= i < |r| ==> r[i] == r[i - distance]
  }

  lemma {:induction false} ExtendContinues<T(!new)>(out: seq<T>, distance: nat, length: nat)
    requires 1 <= distance <= |out|
    ensures Continues(out, distance, Extend(out, distance, length))
    decreases length
  {
    if length > 0 {
      var next := out + [out[|out| - distance]];
      var r := Extend(next, distance, length - 1);
      ExtendContinues(next, distance, length - 1);
      assert r[..|next|] == next && r[..|out|] == next[..|out|];
      assert r[|out|] == next[|out|] && r[|out| - distance] == next[|out| - distance];
    }
  }

  lemma {:induction false} ContinuesAgree<T(!new)>(out: seq<T>, distance: nat, a: seq<T>, b: seq<T>, i: nat)
    requires 1 <= distance <= |out| && Continues(out, distance, a) && Continues(out, distance, b) && i < |a| && i < |b|
    ensures a[i] == b[i]
    decreases i
  {
    if i < |out| {
      assert a[i] == a[..|out|][i] && b[i] == b[..|out|][i];
    } else {
      ContinuesAgree(out, distance, a, b, i - distance);
    }
  }

  /** A sequence with that period is the one-at-a-time copy. */
  lemma ContinuesIsExtend<T(!new)>(out: seq<T>, distance: nat, r: seq<T>)
    requires 1 <= distance <= |out| && Continues(out, distance, r)
    ensures r == Extend(out, distance, |r| - |out|)
  {
    var e := Extend(out, distance, |r| - |out|);
    ExtendContinues(out, distance, |r| - |out|);
    forall i | 0 <= i < |r| ensures r[i] == e[i] {
      ContinuesAgree(out, distance, r, e, i);
    }
  }

  /** The doubling copy of a short period. */
  method Doubling<T(0, !new)>(output: seq<T>, distance: nat, length: nat) returns (r: seq<T>)
    requires 1 <= distance <= |output| && length > 2 * distance
    ensures r == Extend(output, distance, length)
  {
    hide Extend, Continues;
    var original := |output|;
    var a := new T[original + length](i requires 0 <= i < original + length => if i < original then output[i] else output[original - distance]);
    forall i | original <= i < original + distance {
      a[i] := a[i - distance];
    }
    var copied := distance;
    DoubledStart(output, distance, a[..]);
    while copied < length
      invariant distance <= copied <= length && (copied % distance == 0 || copied == length)
      invariant Doubled(output, distance, a[..], copied)
    {
      hide Doubled;
      var count := if copied < length - copied then copied else length - copied;
      ModShift(copied, copied, distance);
      ghost var was := a[..];
      forall i | original + copied <= i < original + copied + count {
        a[i] := a[i - copied];
      }
      DoubledStep(output, distance, was, a[..], copied, count);
      copied := copied + count;
    }
    r := a[..];
    PeriodOfMod(output, distance, r);
    ContinuesIsExtend(output, distance, r);
  }

  /** The first `copied` elements after `output` repeat its last `distance`. */
  ghost predicate Doubled<T(!new)>(output: seq<T>, distance: nat, cur: seq<T>, copied: nat)
    requires 1 <= distance <= |output|
  {
    && |output| + copied <= |cur| && cur[..|output|] == output
    && forall t :: 0 <= t < copied ==> RepeatsAt(output, distance, cur, t)
  }

  ghost predicate RepeatsAt<T(!new)>(output: seq<T>, distance: nat, cur: seq<T>, t: nat)
    requires 1 <= distance <= |output| && |output| + t < |cur|
  {
    0 <= t % distance < distance && cur[|output| + t] == output[|output| - distance + t % distance]
  }

  lemma DoubledStart<T(!new)>(output: seq<T>, distance: nat, cur: seq<T>)
    requires 1 <= distance <= |output| && |output| + distance <= |cur| && cur[..|output|] == output
    requires forall i {:trigger cur[i]} :: |output| <= i < |output| + distance ==> cur[i] == output[i - distance]
    ensures Doubled(output, distance, cur, distance) && distance % distance == 0
  {
    forall t | 0 <= t < distance ensures RepeatsAt(output, distance, cur, t) { SmallMod(t, distance); }
    ModShift(0, distance, distance);
  }

  lemma DoubledStep<T(!new)>(output: seq<T>, distance: nat, cur: seq<T>, after: seq<T>, copied: nat, count: nat)
    requires 1 <= distance <= |output| && Doubled(output, distance, cur, copied) && copied % distance == 0 && count <= copied
    requires |after| == |cur| >= |output| + copied + count
    requires forall i :: 0 <= i < |cur| && !(|output| + copied <= i < |output| + copied + count) ==> after[i] == cur[i]
    requires forall i {:trigger after[i]} :: |output| + copied <= i < |output| + copied + count ==> after[i] == cur[i - copied]
    ensures Doubled(output, distance, after, copied + count)
  {
    assert forall i :: 0 <= i < |output| ==> after[i] == cur[..|output|][i];
    forall t | 0 <= t < copied + count ensures RepeatsAt(output, distance, after, t) {
      if t < copied {
        assert RepeatsAt(output, distance, cur, t);
      } else {
        assert RepeatsAt(output, distance, cur, t - copied);
        ModShift(copied, t - copied, distance);
        assert after[|output| + t] == cur[|output| + t - copied];
      }
    }
  }

  lemma SmallMod(t: nat, d: nat)
    requires t < d
    ensures t % d == t
  {
  }

  lemma ModShift(c: nat, t: nat, d: nat)
    requires d > 0 && c % d == 0
    ensures (c + t) % d == t % d
  {
    var q, k, r := c / d, t / d, t % d;
    assert c + t == (q + k) * d + r;
    Quotient(q + k, r, d);
  }

  lemma PeriodOfMod<T(!new)>(output: seq<T>, distance: nat, r: seq<T>)
    requires 1 <= distance <= |output| <= |r| && Doubled(output, distance, r, |r| - |output|)
    ensures Continues(output, distance, r)
  {
    forall i {:trigger r[i]} | |output| <= i < |r| ensures r[i] == r[i - distance] {
      var t := i - |output|;
      assert RepeatsAt(output, distance, r, t);
      if t < distance {
        SmallMod(t, distance);
        assert r[i - distance] == r[..|output|][i - distance];
      } else {
        ModShift(distance, t - distance, distance);
        assert RepeatsAt(output, distance, r, t - distance);
      }
    }
  }

  /** A copy is two shorter ones in a row. */
  lemma {:induction false} ExtendSplit<T>(out: seq<T>, distance: nat, k: nat, length: nat)
    requires 1 <= distance <= |out| && k <= length
    ensures Extend(out, distance, length) == Extend(Extend(out, distance, k), distance, length - k)
    decreases k
  {
    if k > 0 {
      ExtendSplit(out + [out[|out| - distance]], distance, k - 1, length - 1);
    }
  }

  /** Up to the distance a copy is a slice. */
  lemma ExtendShort<T(!new)>(out: seq<T>, distance: nat, k: nat)
    requires 1 <= distance <= |out| && k <= distance
    ensures Extend(out, distance, k) == out + out[|out| - distance..|out| - distance + k]
  {
    hide Extend;
    var r := out + out[|out| - distance..|out| - distance + k];
    assert r[..|out|] == out;
    ContinuesIsExtend(out, distance, r);
  }

  /** Elements before the reach of a copy do not matter. */
  lemma {:induction false} ExtendSuffix<T>(a: seq<T>, out: seq<T>, distance: nat, length: nat)
    requires 1 <= distance <= |out|
    ensures Extend(a + out, distance, length) == a + Extend(out, distance, length)
    decreases length
  {
    if length > 0 {
      var next := out + [out[|out| - distance]];
      assert (a + out) + [(a + out)[|a + out| - distance]] == a + next;
      ExtendSuffix(a, next, distance, length - 1);
    }
  }

  /** The four ways to append a match are all the one-at-a-time copy. */
  method ExtendMatch<T(0, !new)>(output: seq<T>, distance: nat, length: nat) returns (r: seq<T>)
    requires 1 <= distance <= |output|
    ensures r == Extend(output, distance, length)
  {
    hide Extend;
    var original := |output|;
    if distance >= length {
      ExtendShort(output, distance, length);
      r := output + output[original - distance..original - distance + length];
    } else if distance == 1 {
      ExtendLast(output, length);
      r := output + seq(length, _ => output[original - 1]);
    } else if length <= distance * 2 {
      ExtendShort(output, distance, distance);
      ExtendSplit(output, distance, distance, length);
      r := output + output[original - distance..original];
      ExtendShort(r, distance, length - distance);
      r := r + r[original..original + length - distance];
    } else {
      r := Doubling(output, distance, length);
    }
  }

  lemma ExtendLast<T(!new)>(out: seq<T>, length: nat)
    requires out != []
    ensures Extend(out, 1, length) == out + seq(length, _ => out[|out| - 1])
  {
    hide Extend;
    var r := out + seq(length, _ => out[|out| - 1]);
    assert r[..|out|] == out;
    forall i {:trigger r[i]} | |out| <= i < |r| ensures r[i] == r[i - 1] { }
    ContinuesIsExtend(out, 1, r);
  }
}
