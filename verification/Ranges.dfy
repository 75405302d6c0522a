/** Redis-style signed index ranges (`Value::clamp_range` and the slices taken with it). */
module Ranges {
  import opened Base

  /** The position an index denotes in a sequence of length `len`: negative indices count from the end. */
  function Position(len: nat, index: int): int {
    if index < 0 then len + index else index
  }

  /** `i` lies in the half-open range, when there is one. */
  predicate InRange(range: Option<(nat, nat)>, i: int) {
    range.Some? && range.value.0 <= i < range.value.1
  }

  /**
   * Clamps inclusive signed indices to a half-open range of valid positions;
   * None when nothing is selected. The positions selected are exactly those
   * between the two denoted positions, whatever the magnitudes.
   */
  function ClampRange(len: nat, start: int, stop: int): (range: Option<(nat, nat)>)
    ensures range.Some? ==> range.value.0 < range.value.1 <= len
    ensures forall i :: 0 <= i < len ==>
      (InRange(range, i) <==> Position(len, start) <= i <= Position(len, stop))
  {
    if len == 0 then None else
      var from := if start < 0 then Max(len + start, 0) else Min(start, len);
      var to := if stop < 0 then Max(len + stop, -1) else Min(stop, len - 1);
      if from > to || from >= len then None else Some((from, to + 1))
  }

  /** A machine word whose signed values run from -max-1 to max. */
  predicate FitsWord(max: nat, x: int) {
    -1 - max <= x <= max
  }

  /** Every intermediate value of the clamp stays inside the signed word, on 32-bit and 64-bit targets alike. */
  lemma ClampNeverOverflows(max: nat, len: nat, start: int, stop: int)
    requires len <= max && FitsWord(max, start) && FitsWord(max, stop)
    ensures start < 0 ==> FitsWord(max, len + start)
    ensures stop < 0 ==> FitsWord(max, len + stop)
    ensures len > 0 ==> FitsWord(max, len - 1)
    ensures ClampRange(len, start, stop).Some? ==> ClampRange(len, start, stop).value.1 <= max
  {
  }

  /** The elements an inclusive signed range selects (LRANGE, GETRANGE, ZRANGE). */
  function Slice<T>(s: seq<T>, start: int, stop: int): seq<T> {
    match ClampRange(|s|, start, stop)
    case None => []
    case Some((from, end)) => s[from..end]
  }

  /** The elements at positions `from` to `to`, one by one and without clamping. */
  function Between<T>(s: seq<T>, from: int, to: int): seq<T> {
    if s == [] then []
    else
      var i := |s| - 1;
      Between(s[..i], from, to) + if from <= i <= to then [s[i]] else []
  }

  lemma {:induction false} BetweenNone<T>(s: seq<T>, from: int, to: int)
    requires Min(to + 1, |s|) <= Max(from, 0)
    ensures Between(s, from, to) == []
  {
    if s != [] {
      BetweenNone(s[..|s| - 1], from, to);
    }
  }

  lemma {:induction false} BetweenStretch<T>(s: seq<T>, from: int, to: int, a: nat, b: nat)
    requires a == Max(from, 0) && b == Min(to + 1, |s|) && a < b
    ensures Between(s, from, to) == s[a..b]
  {
    var i := |s| - 1;
    var init := s[..i];
    if b <= i {
      BetweenStretch(init, from, to, a, b);
      assert init[a..b] == s[a..b];
    } else if a == i {
      BetweenNone(init, from, to);
    } else {
      BetweenStretch(init, from, to, a, i);
      assert s[a..b] == init[a..i] + [s[i]];
    }
  }

  /** Clamping, by positions. */
  lemma ClampPositions(len: nat, start: int, stop: int)
    ensures
      var a, b := Max(Position(len, start), 0), Min(Position(len, stop) + 1, len);
      ClampRange(len, start, stop) == if a < b then Some((a, b)) else None
  {
  }

  /** A slice is the elements between the two denoted positions, in order. */
  lemma SliceSelects<T>(s: seq<T>, start: int, stop: int)
    ensures Slice(s, start, stop) == Between(s, Position(|s|, start), Position(|s|, stop))
  {
    var from, to := Position(|s|, start), Position(|s|, stop);
    ClampPositions(|s|, start, stop);
    if Max(from, 0) < Min(to + 1, |s|) {
      BetweenStretch(s, from, to, Max(from, 0), Min(to + 1, |s|));
    } else {
      BetweenNone(s, from, to);
    }
  }

  /** A range of one position. */
  lemma SliceOne<T>(s: seq<T>, i: nat)
    ensures Slice(s, i, i) == if i < |s| then [s[i]] else []
  {
    assert i < |s| ==> s[i..i + 1] == [s[i]];
  }

  /** Mirrored indices select the mirrored positions. */
  lemma MirroredRange(n: nat, start: int, stop: int)
    ensures var fwd, bwd := ClampRange(n, start, stop), ClampRange(n, -stop - 1, -start - 1);
      match fwd
      case None => bwd.None?
      case Some((a, b)) => bwd == Some((n - b, n - a))
  {
    var fwd, bwd := ClampRange(n, start, stop), ClampRange(n, -stop - 1, -start - 1);
    assert forall i :: 0 <= i < n ==> InRange(fwd, i) == InRange(bwd, n - 1 - i);
    if fwd.Some? {
      assert InRange(fwd, fwd.value.0) && InRange(fwd, fwd.value.1 - 1);
    }
    if bwd.Some? {
      assert InRange(bwd, bwd.value.0) && InRange(bwd, bwd.value.1 - 1);
    }
  }

  /**
   * Ranges read from the far end: slicing the reversed sequence is reversing
   * the slice taken with mirrored indices. Mirroring is bitwise complement, so
   * it never leaves the word.
   */
  lemma RangeDuality<T>(max: nat, s: seq<T>, start: int, stop: int)
    requires |s| <= max && FitsWord(max, start) && FitsWord(max, stop)
    ensures FitsWord(max, -stop - 1) && FitsWord(max, -start - 1)
    ensures Slice(Reverse(s), start, stop) == Reverse(Slice(s, -stop - 1, -start - 1))
  {
    MirroredRange(|s|, start, stop);
    match ClampRange(|s|, start, stop)
    case None =>
    case Some((a, b)) => ReverseSlice(s, a, b);
  }

  lemma ReverseSlice<T>(s: seq<T>, a: nat, b: nat)
    requires a <= b <= |s|
    ensures Reverse(s)[a..b] == Reverse(s[|s| - b..|s| - a])
  {
  }
}
