/** List values: pushes, pops, LSET, LREM and LTRIM over a double-ended queue of strings. */
module Lists {
  import opened Base
  import opened Ranges

  // ---------------------------------------------------------------- LREM

  /** How often `v` occurs in `s`. */
  function Occurs(s: seq<string>, v: string): nat {
    if s == [] then 0 else (if s[0] == v then 1 else 0) + Occurs(s[1..], v)
  }

  /** `s` without any occurrence of `v`, the rest in order. */
  function Without(s: seq<string>, v: string): seq<string> {
    if s == [] then [] else (if s[0] == v then [] else [s[0]]) + Without(s[1..], v)
  }

  /** `s` without its first `n` occurrences of `v`. */
  function RemoveFirst(s: seq<string>, n: nat, v: string): seq<string> {
    if s == [] || n == 0 then s
    else if s[0] == v then RemoveFirst(s[1..], n - 1, v)
    else [s[0]] + RemoveFirst(s[1..], n, v)
  }

  /** What LREM leaves: a positive count removes from the head, a negative one from the tail, zero everywhere. */
  function LRem(s: seq<string>, count: int, v: string): seq<string> {
    if count > 0 then RemoveFirst(s, count, v)
    else if count < 0 then Reverse(RemoveFirst(Reverse(s), -count, v))
    else Without(s, v)
  }

  /** How many occurrences LREM removes. */
  function LRemCount(s: seq<string>, count: int, v: string): nat {
    if count == 0 then Occurs(s, v)
    else if count > 0 then Min(count, Occurs(s, v))
    else Min(-count, Occurs(s, v))
  }

  lemma {:induction false} OccursConcat(a: seq<string>, b: seq<string>, v: string)
    ensures Occurs(a + b, v) == Occurs(a, v) + Occurs(b, v)
    ensures Without(a + b, v) == Without(a, v) + Without(b, v)
  {
    if a == [] {
      assert a + b == b;
    } else {
      assert (a + b)[1..] == a[1..] + b;
      OccursConcat(a[1..], b, v);
    }
  }

  lemma {:induction false} OccursReverse(s: seq<string>, v: string)
    ensures Occurs(Reverse(s), v) == Occurs(s, v)
    ensures Without(Reverse(s), v) == Reverse(Without(s, v))
  {
    if s == [] {
    } else {
      var x := [s[0]];
      assert s == x + s[1..];
      ReverseConcat(x, s[1..]);
      assert Reverse(x) == x;
      OccursReverse(s[1..], v);
      OccursConcat(Reverse(s[1..]), x, v);
      var head := if s[0] == v then [] else x;
      assert Without(x, v) == head;
      assert Reverse(head) == head;
      ReverseConcat(head, Without(s[1..], v));
    }
  }

  lemma {:induction false} NoOccurrence(s: seq<string>, v: string)
    ensures Occurs(s, v) == 0 <==> v !in s
    ensures Occurs(s, v) == 0 ==> Without(s, v) == s
    ensures |Without(s, v)| == |s| - Occurs(s, v)
    ensures Occurs(Without(s, v), v) == 0
  {
    if s != [] {
      var rest := Without(s[1..], v);
      NoOccurrence(s[1..], v);
      assert s == [s[0]] + s[1..];
      assert ([s[0]] + rest)[1..] == rest && [] + rest == rest;
    }
  }

  /** Removing from the head clears a prefix holding the right number of matches, wherever its end is put. */
  lemma {:induction false} RemovesPrefix(s: seq<string>, n: nat, v: string, p: nat)
    requires p <= |s| && Occurs(s[..p], v) == Min(n, Occurs(s, v))
    ensures RemoveFirst(s, n, v) == Without(s[..p], v) + s[p..]
  {
    if s == [] || n == 0 {
      NoOccurrence(s[..p], v);
    } else if p == 0 {
      NoOccurrence(s, v);
      RemovesPrefix(s[1..], n, v, 0);
      assert s == [s[0]] + s[1..];
    } else {
      assert s[..p][0] == s[0] && s[..p][1..] == s[1..][..p - 1];
      assert s[1..][p - 1..] == s[p..];
      RemovesPrefix(s[1..], if s[0] == v then n - 1 else n, v, p - 1);
    }
  }

  /** The same from the tail: a suffix holding the right number of matches is cleared. */
  lemma RemovesSuffix(s: seq<string>, count: int, v: string, p: nat)
    requires p <= |s| && count < 0 && Occurs(s[p..], v) == Min(-count, Occurs(s, v))
    ensures LRem(s, count, v) == s[..p] + Without(s[p..], v)
  {
    var r, q := Reverse(s), |s| - p;
    var front, tail := s[..p], s[p..];
    assert r[..q] == Reverse(tail) && r[q..] == Reverse(front);
    OccursReverse(s, v);
    OccursReverse(tail, v);
    RemovesPrefix(r, -count, v, q);
    assert RemoveFirst(r, -count, v) == Reverse(Without(tail, v)) + Reverse(front);
    ReverseConcat(Reverse(Without(tail, v)), Reverse(front));
    ReverseTwice(Without(tail, v));
    ReverseTwice(front);
  }

  /** Some prefix of `s` holds exactly min(n, all) matches. */
  lemma {:induction false} PrefixWithMatches(s: seq<string>, n: nat, v: string) returns (p: nat)
    ensures p <= |s| && Occurs(s[..p], v) == Min(n, Occurs(s, v))
  {
    if s == [] || n == 0 {
      p := 0;
    } else {
      var q := PrefixWithMatches(s[1..], if s[0] == v then n - 1 else n, v);
      p := q + 1;
      assert s[..p][1..] == s[1..][..q];
    }
  }

  lemma SuffixWithMatches(s: seq<string>, n: nat, v: string) returns (p: nat)
    ensures p <= |s| && Occurs(s[p..], v) == Min(n, Occurs(s, v))
  {
    var q := PrefixWithMatches(Reverse(s), n, v);
    p := |s| - q;
    assert Reverse(s)[..q] == Reverse(s[p..]);
    OccursReverse(s, v);
    OccursReverse(s[p..], v);
  }

  /** Clearing one side of a split drops that side's matches and nothing else. */
  lemma OthersKept(s: seq<string>, p: nat, v: string)
    requires p <= |s|
    ensures |Without(s[..p], v) + s[p..]| == |s| - Occurs(s[..p], v)
    ensures |s[..p] + Without(s[p..], v)| == |s| - Occurs(s[p..], v)
    ensures Without(Without(s[..p], v) + s[p..], v) == Without(s, v) == Without(s[..p] + Without(s[p..], v), v)
  {
    var a, b := s[..p], s[p..];
    assert a + b == s;
    OccursConcat(a, b, v);
    NoOccurrence(a, v);
    NoOccurrence(b, v);
    NoOccurrence(Without(a, v), v);
    NoOccurrence(Without(b, v), v);
    OccursConcat(Without(a, v), b, v);
    OccursConcat(a, Without(b, v), v);
  }

  /**
   * LREM is exact: it removes min(|count|, matches) occurrences (all of them
   * for count 0), touches only a prefix (count > 0) or a suffix (count < 0),
   * and keeps every other element in order.
   */
  lemma LRemExact(s: seq<string>, count: int, v: string) returns (p: nat)
    ensures p <= |s|
    ensures |LRem(s, count, v)| == |s| - LRemCount(s, count, v)
    ensures Without(LRem(s, count, v), v) == Without(s, v)
    ensures count > 0 ==>
      LRem(s, count, v) == Without(s[..p], v) + s[p..] && Occurs(s[..p], v) == LRemCount(s, count, v)
    ensures count < 0 ==>
      LRem(s, count, v) == s[..p] + Without(s[p..], v) && Occurs(s[p..], v) == LRemCount(s, count, v)
    ensures count == 0 ==> v !in LRem(s, count, v)
  {
    NoOccurrence(s, v);
    p := 0;
    if count > 0 {
      p := PrefixWithMatches(s, count, v);
      RemovesPrefix(s, count, v, p);
      OthersKept(s, p, v);
    } else if count < 0 {
      p := SuffixWithMatches(s, -count, v);
      RemovesSuffix(s, count, v, p);
      OthersKept(s, p, v);
    } else {
      NoOccurrence(Without(s, v), v);
    }
  }

  /** `i` is the last match before position `q`. */
  predicate LastMatch(s: seq<string>, v: string, i: nat, q: nat) {
    i < q <= |s| && s[i] == v && v !in s[i + 1..q]
  }

  /** Where the stretch searched for match number `k` (from the end) stops. */
  function Bound(s: seq<string>, indices: seq<nat>, k: nat): nat
    requires k <= |indices|
  {
    if k == 0 then |s| else indices[k - 1]
  }

  /** The indices list matches from the end backwards, skipping none. */
  predicate TailMatches(s: seq<string>, v: string, indices: seq<nat>) {
    forall k :: 0 <= k < |indices| ==> LastMatch(s, v, indices[k], Bound(s, indices, k))
  }

  /** Clearing from a match on: the match goes, the match-free stretch up to `q` stays. */
  lemma SkipToMatch(s: seq<string>, i: nat, q: nat, v: string)
    requires LastMatch(s, v, i, q)
    ensures Without(s[i..], v) == s[i + 1..q] + Without(s[q..], v)
    ensures Occurs(s[i..], v) == 1 + Occurs(s[q..], v)
  {
    var gap := s[i + 1..q];
    assert s[i..][1..] == gap + s[q..];
    OccursConcat(gap, s[q..], v);
    NoOccurrence(gap, v);
  }

  /** Deleting position `i` turns "cleared from q on" into "cleared from i on". */
  lemma DeleteMatch(s: seq<string>, i: nat, q: nat, v: string)
    requires LastMatch(s, v, i, q)
    ensures var t := s[..q] + Without(s[q..], v);
      t[..i] + t[i + 1..] == s[..i] + Without(s[i..], v)
  {
    SkipToMatch(s, i, q, v);
    var w := Without(s[q..], v);
    var t := s[..q] + w;
    assert t[..i] == s[..i];
    assert t[i + 1..] == s[i + 1..q] + w;
  }

  /** Recording the next match from the end keeps the list free of gaps. */
  lemma ExtendMatches(s: seq<string>, v: string, indices: seq<nat>, i: nat)
    requires TailMatches(s, v, indices) && LastMatch(s, v, i, Bound(s, indices, |indices|))
    ensures TailMatches(s, v, indices + [i])
  {
    var more := indices + [i];
    forall k | 0 <= k < |more|
      ensures LastMatch(s, v, more[k], Bound(s, more, k))
    {
      assert Bound(s, more, k) == Bound(s, indices, k);
      if k < |indices| {
        assert LastMatch(s, v, indices[k], Bound(s, indices, k));
      }
    }
  }

  /** A suffix holds no more matches than the whole, and all of them when nothing before it matches. */
  lemma SuffixMatches(s: seq<string>, q: nat, v: string)
    requires q <= |s|
    ensures Occurs(s[q..], v) <= Occurs(s, v)
    ensures v !in s[..q] ==> Occurs(s[q..], v) == Occurs(s, v)
  {
    assert s == s[..q] + s[q..];
    OccursConcat(s[..q], s[q..], v);
    NoOccurrence(s[..q], v);
  }

  /** One element of a pass that removes the first `n` matches. */
  lemma PassElement(s: seq<string>, i: nat, n: nat, v: string)
    requires i < |s|
    ensures
      var rest := s[i + 1..];
      if n > 0 && s[i] == v then
        RemoveFirst(s[i..], n, v) == RemoveFirst(rest, n - 1, v) && Occurs(s[i..], v) == 1 + Occurs(rest, v)
      else
        && RemoveFirst(s[i..], n, v) == [s[i]] + RemoveFirst(rest, n, v)
        && (n > 0 ==> Occurs(s[i..], v) == Occurs(rest, v))
  {
    assert s[i..][0] == s[i] && s[i..][1..] == s[i + 1..];
    assert s[i..] == [s[i]] + s[i + 1..];
  }

  /** The element is none, and is passed by. */
  lemma NoMatch(s: seq<string>, v: string, indices: seq<nat>, at: nat, q: nat)
    requires Searched(s, v, indices, q, at + 1) && s[at] != v
    ensures Searched(s, v, indices, q, at)
  {
    OneEarlier(s, at, q);
  }

  /** Having come to the front, the search has found all. */
  lemma AllSearched(s: seq<string>, v: string, indices: seq<nat>, q: nat)
    requires Searched(s, v, indices, q, 0)
    ensures |indices| == Occurs(s, v)
  {
    assert s[0..q] == s[..q];
    SuffixMatches(s, q, v);
  }

  lemma Kept(kept: seq<string>, x: string, rest: seq<string>)
    ensures (kept + [x]) + rest == kept + ([x] + rest)
  {
  }

  lemma OneEarlier(s: seq<string>, at: nat, q: nat)
    requires at < q <= |s|
    ensures s[at..q] == [s[at]] + s[at + 1..q]
  {
  }

  /** The search from the end back to `from` has recorded all matches there, the last one recorded at `q`. */
  predicate Searched(s: seq<string>, v: string, indices: seq<nat>, q: nat, from: int) {
    && TailMatches(s, v, indices) && q == Bound(s, indices, |indices|)
    && 0 <= from <= q <= |s| && v !in s[from..q] && Occurs(s[q..], v) == |indices|
  }

  /** Recording a match found while walking backwards from the end. */
  lemma MatchFound(s: seq<string>, v: string, indices: seq<nat>, at: nat, q: nat)
    requires Searched(s, v, indices, q, at + 1) && s[at] == v
    ensures Searched(s, v, indices + [at], at, at) && |indices| + 1 <= Occurs(s, v)
  {
    assert s[at..at] == [];
    SkipToMatch(s, at, q, v);
    ExtendMatches(s, v, indices, at);
    SuffixMatches(s, at, v);
  }

  // ------------------------------------------------- other list operations

  /** LPUSH: the last value pushed ends up at the head. */
  function PushFront(s: seq<string>, values: seq<string>): seq<string> {
    Reverse(values) + s
  }

  /** The position LINDEX and LSET address, when it is a valid one. */
  function IndexOf(len: nat, index: int): (i: Option<nat>)
    ensures i.Some? <==> 0 <= Position(len, index) < len
    ensures i.Some? ==> i.value == Position(len, index)
  {
    var i := if index < 0 then len + index else index;
    if i < 0 || i >= len then None else Some(i)
  }

  /** A list value, updated in place. */
  class ListValue {
    var items: seq<string>

    constructor ()
      ensures items == []
    {
      items := [];
    }

    method LPush(values: seq<string>) returns (len: nat)
      modifies this
      ensures items == PushFront(old(items), values) && len == |items|
    {
      for i := 0 to |values|
        invariant items == Reverse(values[..i]) + old(items)
      {
        items := [values[i]] + items;
        assert values[..i + 1] == values[..i] + [values[i]];
        ReverseConcat(values[..i], [values[i]]);
      }
      assert values[..|values|] == values;
      len := |items|;
    }

    method RPush(values: seq<string>) returns (len: nat)
      modifies this
      ensures items == old(items) + values && len == |items|
    {
      for i := 0 to |values|
        invariant items == old(items) + values[..i]
      {
        items := items + [values[i]];
      }
      len := |items|;
    }

    method LPop(count: nat) returns (popped: seq<string>)
      modifies this
      ensures popped + items == old(items)
      ensures |popped| == Min(count, |old(items)|)
    {
      popped := [];
      for i := 0 to Min(count, |items|)
        invariant popped + items == old(items) && |popped| == i
      {
        popped, items := popped + [items[0]], items[1..];
      }
    }

    method RPop(count: nat) returns (popped: seq<string>)
      modifies this
      ensures items + Reverse(popped) == old(items)
      ensures |popped| == Min(count, |old(items)|)
    {
      popped := [];
      for i := 0 to Min(count, |items|)
        invariant items + Reverse(popped) == old(items) && |popped| == i
      {
        var last := items[|items| - 1];
        ReverseConcat(popped, [last]);
        popped, items := popped + [last], items[..|items| - 1];
      }
    }

    method LSet(index: int, value: string) returns (ok: bool)
      modifies this
      ensures ok <==> IndexOf(|old(items)|, index).Some?
      ensures items == if ok then old(items)[IndexOf(|old(items)|, index).value := value] else old(items)
    {
      var i := if index < 0 then |items| + index else index;
      if i < 0 || i >= |items| {
        return false;
      }
      items := items[i := value];
      return true;
    }

    /** LREM, as the code does it: a filtering pass for count >= 0, deletion by descending index for count < 0. */
    method LRemove(count: int, value: string) returns (removed: nat)
      modifies this
      ensures items == LRem(old(items), count, value)
      ensures removed == LRemCount(old(items), count, value)
    {
      ghost var s := items;
      if count > 0 {
        removed := RetainPastFirst(count, value);
      } else if count < 0 {
        removed := RemoveAtIndices(count, value);
      } else {
        var originalLen := |items|;
        RetainOthers(value);
        NoOccurrence(s, value);
        removed := originalLen - |items|;
      }
    }

    /** Collects the last matches, then deletes them in place from the highest index down. */
    method RemoveAtIndices(count: int, value: string) returns (removed: nat)
      requires count < 0
      modifies this
      ensures items == LRem(old(items), count, value)
      ensures removed == Min(-count, Occurs(old(items), value))
    {
      ghost var s := items;
      var indices := LastIndices(items, -count, value);
      removed := 0;
      ghost var q := |s|;
      for k := 0 to |indices|
        invariant removed == k && q == Bound(s, indices, k)
        invariant q <= |s| && items == s[..q] + Without(s[q..], value)
      {
        var idx := indices[k];
        assert LastMatch(s, value, idx, q);
        DeleteMatch(s, idx, q, value);
        items := items[..idx] + items[idx + 1..];
        removed := removed + 1;
        q := idx;
      }
      RemovesSuffix(s, count, value, q);
    }

    /** The retain pass: drops matches until `count` of them are gone. */
    method RetainPastFirst(count: nat, value: string) returns (removed: nat)
      modifies this
      ensures items == RemoveFirst(old(items), count, value)
      ensures removed == Min(count, Occurs(old(items), value))
    {
      var s, kept := items, [];
      removed := 0;
      for i := 0 to |s|
        invariant removed <= count
        invariant kept + RemoveFirst(s[i..], count - removed, value) == RemoveFirst(s, count, value)
        invariant removed + Min(count - removed, Occurs(s[i..], value)) == Min(count, Occurs(s, value))
      {
        PassElement(s, i, count - removed, value);
        if removed < count && s[i] == value {
          removed := removed + 1;
        } else {
          Kept(kept, s[i], RemoveFirst(s[i + 1..], count - removed, value));
          kept := kept + [s[i]];
        }
      }
      items := kept;
    }

    /** The retain pass without a count: every match goes. */
    method RetainOthers(value: string)
      modifies this
      ensures items == Without(old(items), value)
    {
      var s, kept := items, [];
      for i := 0 to |s|
        invariant kept + Without(s[i..], value) == Without(s, value)
      {
        assert s[i..][1..] == s[i + 1..];
        if s[i] != value {
          Kept(kept, s[i], Without(s[i + 1..], value));
          kept := kept + [s[i]];
        }
      }
      items := kept;
    }

    /** The positions of the last `count` matches in `s`, in descending order. */
    static method LastIndices(s: seq<string>, count: nat, value: string) returns (indices: seq<nat>)
      requires count > 0
      ensures TailMatches(s, value, indices)
      ensures |indices| == Min(count, Occurs(s, value))
      ensures var q := Bound(s, indices, |indices|); q <= |s| && Occurs(s[q..], value) == |indices|
    {
      indices := [];
      ghost var q: nat := |s|;
      for i := 0 to |s|
        invariant |indices| < count && Searched(s, value, indices, q, |s| - i)
      {
        var at := |s| - 1 - i;
        if s[at] == value {
          MatchFound(s, value, indices, at, q);
          indices := indices + [at];
          q := at;
          if |indices| == count {
            return;
          }
        } else {
          NoMatch(s, value, indices, at, q);
        }
      }
      AllSearched(s, value, indices, q);
    }

    method LTrim(start: int, stop: int)
      modifies this
      ensures items == Slice(old(items), start, stop)
    {
      match ClampRange(|items|, start, stop)
      case Some((from, end)) =>
        items := items[..end];
        items := items[from..];
      case None =>
        items := [];
    }

    method LRange(start: int, stop: int) returns (range: seq<string>)
      ensures range == Between(items, Position(|items|, start), Position(|items|, stop))
    {
      SliceSelects(items, start, stop);
      match ClampRange(|items|, start, stop)
      case Some((from, end)) => return items[from..end];
      case None => return [];
    }
  }
}
