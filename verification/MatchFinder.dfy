/** Finding earlier occurrences of the bytes at a position. */
module MatchFinder {
  import opened Bytes
  import opened BitStream
  import opened LsbStream
  import opened Options
  import opened Sums

  const HASH_SIZE: nat := 65536
  /** No position. */
  const NONE: nat := 0xFFFF_FFFF

  /** The bytes at the two places agree for `length` bytes. */
  ghost predicate Agree(bytes: seq<Byte>, left: nat, right: nat, length: nat)
  {
    left + length <= |bytes| && right + length <= |bytes| && bytes[left..left + length] == bytes[right..right + length]
  }

  // ----- Comparing words -----

  function TrailingZeros(b: seq<bool>): (n: nat)
    ensures n <= |b| && (n < |b| ==> b[n]) && forall i :: 0 <= i < n ==> !b[i]
  {
    if b == [] || b[0] then 0 else 1 + TrailingZeros(b[1..])
  }

  /** Exclusive or of two 64-bit words, least significant bit first. */
  function XorBits(a: nat, b: nat): (x: seq<bool>)
    ensures |x| == 64 && forall i :: 0 <= i < 64 ==> x[i] == (LsbBits(a, 64)[i] != LsbBits(b, 64)[i])
  {
    seq(64, i requires 0 <= i < 64 => LsbBits(a, 64)[i] != LsbBits(b, 64)[i])
  }

  lemma WordBits(bytes: seq<Byte>)
    requires |bytes| == 8
    ensures LsbBits(LittleEndian(bytes), 64) == Packed(bytes)
  {
    LittleEndianIsPacked(bytes);
    LsbOfValue(Packed(bytes));
  }

  lemma ByteBits(bytes: seq<Byte>, i: nat)
    requires i < |bytes|
    ensures Packed(bytes)[8 * i..8 * i + 8] == LsbBits(bytes[i], 8)
  {
    PackedSlice(bytes, i, i + 1);
    assert bytes[i..i + 1] == [bytes[i]];
    OneByte(bytes[i]);
  }

  lemma SameBits(a: Byte, b: Byte)
    requires LsbBits(a, 8) == LsbBits(b, 8)
    ensures a == b
  {
    Pow2Values();
    ValueOfLsb(a, 8);
    ValueOfLsb(b, 8);
  }

  /** The first differing bit of two words lies in their first differing byte. */
  lemma FirstDifference(a: seq<Byte>, b: seq<Byte>)
    requires |a| == |b| == 8
    ensures var t := TrailingZeros(XorBits(LittleEndian(a), LittleEndian(b)));
            (t == 64 <==> a == b) && (forall k :: 0 <= k < t / 8 ==> a[k] == b[k]) && (t < 64 ==> a[t / 8] != b[t / 8])
  {
    hide LsbBits, Packed, LittleEndian, TrailingZeros, XorBits;
    WordBits(a);
    WordBits(b);
    var x := XorBits(LittleEndian(a), LittleEndian(b));
    var t := TrailingZeros(x);
    assert forall i :: 0 <= i < t ==> !x[i];
    forall k | 0 <= k < t / 8 ensures a[k] == b[k] {
      EqualByte(a, b, t, k);
    }
    if t < 64 {
      DifferentByte(a, b, t);
    }
  }

  lemma DifferentByte(a: seq<Byte>, b: seq<Byte>, t: nat)
    requires |a| == |b| == 8 && t < 64 && Packed(a)[t] != Packed(b)[t]
    ensures a[t / 8] != b[t / 8]
  {
    hide LsbBits, Packed;
    ByteBits(a, t / 8);
    ByteBits(b, t / 8);
    assert Packed(a)[t] == Packed(a)[8 * (t / 8)..8 * (t / 8) + 8][t % 8];
    assert Packed(b)[t] == Packed(b)[8 * (t / 8)..8 * (t / 8) + 8][t % 8];
  }

  lemma EqualByte(a: seq<Byte>, b: seq<Byte>, t: nat, k: nat)
    requires |a| == |b| == 8 && t <= 64 && k < t / 8 && forall i :: 0 <= i < t ==> Packed(a)[i] == Packed(b)[i]
    ensures a[k] == b[k]
  {
    hide LsbBits, Packed;
    ByteBits(a, k);
    ByteBits(b, k);
    assert Packed(a)[8 * k..8 * k + 8] == Packed(b)[8 * k..8 * k + 8];
    SameBits(a[k], b[k]);
  }

  /** How far two places agree, eight bytes at a time and then byte by byte. */
  method MatchLength(bytes: seq<Byte>, left: nat, right: nat, limit: nat) returns (length: nat)
    requires left + limit <= |bytes| && right + limit <= |bytes|
    ensures length <= limit && Agree(bytes, left, right, length)
    ensures length < limit ==> bytes[left + length] != bytes[right + length]
  {
    hide LittleEndian, XorBits, TrailingZeros, Agree;
    length := 0;
    AgreeNothing(bytes, left, right);
    while length + 8 <= limit
      invariant length <= limit && Agree(bytes, left, right, length)
    {
      var a, b := bytes[left + length..left + length + 8], bytes[right + length..right + length + 8];
      FirstDifference(a, b);
      ZerosBound(LittleEndian(a), LittleEndian(b));
      var zeros := TrailingZeros(XorBits(LittleEndian(a), LittleEndian(b)));
      AgreeWord(bytes, left, right, length, a, b, zeros / 8);
      if zeros < 64 {
        return length + zeros / 8;
      }
      length := length + 8;
    }
    while length < limit && bytes[left + length] == bytes[right + length]
      invariant length <= limit && Agree(bytes, left, right, length)
    {
      AgreePush(bytes, left, right, length);
      length := length + 1;
    }
  }

  lemma AgreeNothing(bytes: seq<Byte>, left: nat, right: nat)
    requires left <= |bytes| && right <= |bytes|
    ensures Agree(bytes, left, right, 0)
  {
  }

  lemma ZerosBound(a: nat, b: nat)
    ensures TrailingZeros(XorBits(a, b)) <= 64
  {
  }

  lemma AgreeWord(bytes: seq<Byte>, left: nat, right: nat, length: nat, a: seq<Byte>, b: seq<Byte>, k: nat)
    requires Agree(bytes, left, right, length) && left + length + 8 <= |bytes| && right + length + 8 <= |bytes| && k <= 8
    requires a == bytes[left + length..left + length + 8] && b == bytes[right + length..right + length + 8]
    requires forall i :: 0 <= i < k ==> a[i] == b[i]
    ensures Agree(bytes, left, right, length + k)
    ensures k < 8 && a[k] != b[k] ==> bytes[left + (length + k)] != bytes[right + (length + k)]
  {
    assert a[..k] == b[..k];
    assert bytes[left..left + (length + k)] == bytes[left..left + length] + a[..k];
    assert bytes[right..right + (length + k)] == bytes[right..right + length] + b[..k];
  }

  lemma AgreePush(bytes: seq<Byte>, left: nat, right: nat, length: nat)
    requires Agree(bytes, left, right, length) && left + length < |bytes| && right + length < |bytes| && bytes[left + length] == bytes[right + length]
    ensures Agree(bytes, left, right, length + 1)
  {
    assert bytes[left..left + (length + 1)] == bytes[left..left + length] + [bytes[left + length]];
    assert bytes[right..right + (length + 1)] == bytes[right..right + length] + [bytes[right + length]];
  }

  // ----- The chain of positions with the same hash -----

  /** The low 32 bits of a product, shifted down to 16. */
  function Hash32(value: nat, factor: nat): (h: nat)
    ensures h < HASH_SIZE
  {
    var product := value * factor % 0x1_0000_0000;
    assert product / 65536 < 65536;
    product / 65536
  }

  class HashChain {
    const bytes: seq<Byte>
    const head: array<nat>
    const previous: array<nat>
    const chained: bool
    const window: nat
    /** Positions below this have been passed; insertions move it up. */
    ghost var bound: nat

    /** Every stored position is before the bound and every link goes down. */
    ghost predicate Valid()
      reads this, head, previous
    {
      && head.Length == HASH_SIZE && |bytes| < NONE && head != previous
      && (chained ==> previous.Length == |bytes|)
      && (forall h :: 0 <= h < HASH_SIZE ==> head[h] == NONE || Stored(head[h]))
      && (chained ==> forall p :: 0 <= p < |bytes| ==> previous[p] == NONE || previous[p] < p)
    }

    ghost predicate Stored(p: nat)
      reads this
    {
      p < bound && p + 2 < |bytes|
    }

    constructor (bytes: seq<Byte>, window: nat, maxChain: nat)
      requires |bytes| < NONE
      ensures Valid() && bound == 0 && this.bytes == bytes && this.window == window
      ensures fresh(head) && fresh(previous)
    {
      this.bytes, this.window := bytes, window;
      head := new nat[HASH_SIZE](_ => NONE);
      chained := maxChain > 1;
      previous := new nat[if maxChain > 1 then |bytes| else 0](_ => NONE);
      bound := 0;
    }

    function Hash(position: nat): (h: nat)
      requires position + 2 < |bytes|
      ensures h < HASH_SIZE
    {
      Hash32(bytes[position] as int * 65536 + bytes[position + 1] as int * 256 + bytes[position + 2] as int, 0x1e35_a7bd)
    }

    /** Positions are inserted in increasing order, so chains descend. */
    method Insert(position: nat)
      requires Valid() && bound <= position
      modifies this`bound, head, previous
      ensures Valid() && bound == position + 1
    {
      hide Hash32;
      bound := position + 1;
      if position + 2 >= |bytes| {
        return;
      }
      var slot := Hash(position);
      if chained {
        previous[position] := head[slot];
      }
      head[slot] := position;
    }

    /** The longest match found along the chain; it is a real match within the window, however the chain ran. */
    method BestMatch(position: nat, maxLength: nat, minLength: nat, maxChain: nat) returns (length: nat, distance: nat)
      requires Valid() && bound <= position
      ensures length == 0 || (3 <= minLength <= length <= maxLength && position + length <= |bytes|
                              && 1 <= distance <= window && distance <= position && Agree(bytes, position - distance, position, length))
    {
      hide Hash32, Agree;
      if position + minLength > |bytes| || minLength < 3 {
        return 0, 0;
      }
      var candidate := head[Hash(position)];
      var minimum := if position >= window then position - window else 0;
      var limit := if |bytes| - position < maxLength then |bytes| - position else maxLength;
      var bestLength, bestDistance, searched := minLength - 1, 0, 0;
      while candidate != NONE && candidate >= minimum && searched < maxChain
        invariant candidate == NONE || (candidate < position && candidate < |bytes|)
        invariant bestLength >= minLength - 1 && searched <= maxChain
        invariant bestLength >= minLength ==>
                    bestLength <= limit && 1 <= bestDistance <= window && bestDistance <= position
                    && Agree(bytes, position - bestDistance, position, bestLength)
        decreases maxChain - searched
      {
        var d := position - candidate;
        if bytes[candidate] == bytes[position] && At(candidate + bestLength) == At(position + bestLength) {
          var l := MatchLength(bytes, candidate, position, limit);
          if l > bestLength {
            bestLength := l;
            bestDistance := d;
            if l == limit {
              break;
            }
          }
        }
        searched := searched + 1;
        if searched >= maxChain {
          break;
        }
        candidate := if chained then previous[candidate] else NONE;
      }
      if bestLength >= minLength {
        return bestLength, bestDistance;
      }
      return 0, 0;
    }

    function At(i: nat): Option<Byte>
    {
      if i < |bytes| then Some(bytes[i]) else None
    }
  }

  // ----- The latest position with the same hash -----

  class LatestMatch {
    const bytes: seq<Byte>
    const head: array<nat>
    const window: nat
    ghost var bound: nat

    ghost predicate Valid()
      reads this, head
    {
      head.Length == HASH_SIZE && |bytes| < NONE && forall h :: 0 <= h < HASH_SIZE ==> head[h] == NONE || (head[h] < bound && head[h] + 4 <= |bytes|)
    }

    constructor (bytes: seq<Byte>, window: nat)
      requires |bytes| < NONE
      ensures Valid() && bound == 0 && this.bytes == bytes && this.window == window && fresh(head)
    {
      this.bytes, this.window := bytes, window;
      head := new nat[HASH_SIZE](_ => NONE);
      bound := 0;
    }

    function Hash(position: nat): (h: nat)
      requires position + 4 <= |bytes|
      ensures h < HASH_SIZE
    {
      Hash32(LittleEndian(bytes[position..position + 4]), 0x9e37_79b1)
    }

    method InsertAndFind(position: nat) returns (candidate: Option<nat>)
      requires Valid() && bound <= position
      modifies this`bound, head
      ensures Valid() && bound == position + 1
      ensures candidate.Some? ==> candidate.value < position <= candidate.value + window && Agree(bytes, candidate.value, position, 4)
    {
      hide Hash32;
      if position + 4 > |bytes| {
        bound := position + 1;
        return None;
      }
      var slot := Hash(position);
      var found := head[slot];
      head[slot] := position;
      bound := position + 1;
      if found == NONE {
        return None;
      }
      if position - found <= window && bytes[found..found + 4] == bytes[position..position + 4] {
        return Some(found);
      }
      return None;
    }

    method Insert(position: nat)
      requires Valid() && bound <= position
      modifies this`bound, head
      ensures Valid() && bound == position + 1
    {
      hide Hash32;
      bound := position + 1;
      if position + 4 <= |bytes| {
        head[Hash(position)] := position;
      }
    }
  }
}
