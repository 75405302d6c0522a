/**
 * Sorted sets: a member -> score map kept in step with an ordered index on
 * (score, member). Scores are any totally ordered numbers; `int` stands for
 * the ordered floats of the code.
 */
module SortedSets {
  import opened Base
  import opened Ranges

  type Score = int
  type Pair = (Score, string)

  // --------------------------------------------------------------- ordering

  /** Lexicographic order on strings, by character. */
  predicate StringLess(a: string, b: string) {
    if b == [] then false
    else if a == [] then true
    else a[0] < b[0] || (a[0] == b[0] && StringLess(a[1..], b[1..]))
  }

  /** Ascending (score, member) order; ties break by member. */
  predicate Less(a: Pair, b: Pair) {
    a.0 < b.0 || (a.0 == b.0 && StringLess(a.1, b.1))
  }

  lemma {:induction false} StringLessTotal(a: string, b: string)
    ensures a == b || StringLess(a, b) || StringLess(b, a)
    ensures !(StringLess(a, b) && StringLess(b, a))
    ensures !StringLess(a, a)
  {
    if a != [] {
      StringLessTotal(a[1..], a[1..]);
    }
    if a != [] && b != [] {
      StringLessTotal(a[1..], b[1..]);
      assert a == [a[0]] + a[1..] && b == [b[0]] + b[1..];
    }
  }

  lemma {:induction false} StringLessTransitive(a: string, b: string, c: string)
    requires StringLess(a, b) && StringLess(b, c)
    ensures StringLess(a, c)
  {
    if a != [] && a[0] == b[0] == c[0] {
      StringLessTransitive(a[1..], b[1..], c[1..]);
    }
  }

  lemma LessTotal(a: Pair, b: Pair)
    ensures a == b || Less(a, b) || Less(b, a)
    ensures !(Less(a, b) && Less(b, a))
    ensures !Less(a, a)
  {
    StringLessTotal(a.1, b.1);
  }

  lemma LessTransitive(a: Pair, b: Pair, c: Pair)
    requires Less(a, b) && Less(b, c)
    ensures Less(a, c)
  {
    if a.0 == b.0 == c.0 {
      StringLessTransitive(a.1, b.1, c.1);
    }
  }

  // -------------------------------------------------------- the ordered index

  /** Strictly ascending: sorted and free of duplicates. */
  predicate Ascending(order: seq<Pair>) {
    forall i, j :: 0 <= i < j < |order| ==> Less(order[i], order[j])
  }

  /** The two structures hold the same associations. */
  ghost predicate InSync(scores: map<string, Score>, order: seq<Pair>) {
    && Ascending(order)
    && (forall p: Pair :: p in order <==> p.1 in scores && scores[p.1] == p.0)
  }

  /** An ascending sequence is determined by its elements. */
  lemma {:induction false} AscendingUnique(a: seq<Pair>, b: seq<Pair>)
    requires Ascending(a) && Ascending(b)
    requires forall p: Pair :: p in a <==> p in b
    ensures a == b
  {
    assert |b| > 0 ==> b[0] in b;
    if a != [] {
      assert a[0] in b;
      var i :| 0 <= i < |b| && b[i] == a[0];
      assert b[0] in a;
      var j :| 0 <= j < |a| && a[j] == b[0];
      LessTotal(a[0], b[0]);
      assert a[0] == b[0];
      forall p: Pair ensures p in a[1..] <==> p in b[1..] {
        LessTotal(p, p);
        assert p in a <==> p == a[0] || p in a[1..];
        assert p in b <==> p == b[0] || p in b[1..];
      }
      AscendingUnique(a[1..], b[1..]);
    }
  }

  /** So an index in step with its scores is a function of them. */
  lemma IndexDetermined(scores: map<string, Score>, a: seq<Pair>, b: seq<Pair>)
    requires InSync(scores, a) && InSync(scores, b)
    ensures a == b
  {
    AscendingUnique(a, b);
  }

  /** An index in step with its scores has one pair per member. */
  lemma {:induction false} IndexSize(scores: map<string, Score>, order: seq<Pair>)
    requires InSync(scores, order)
    ensures |order| == |scores|
  {
    assert forall m :: m in scores ==> (scores[m], m) in order;
    if order == [] {
      assert scores.Keys == {};
    } else {
      var p := order[0];
      assert p in order;
      var rest := scores - {p.1};
      forall q: Pair ensures q in order[1..] <==> q.1 in rest && rest[q.1] == q.0 {
        LessTotal(p, q);
        assert q in order <==> q == p || q in order[1..];
      }
      IndexSize(rest, order[1..]);
      assert scores.Keys == rest.Keys + {p.1};
      assert |scores.Keys| == |rest.Keys| + 1;
    }
  }

  /** Ordered insertion, as the tree does it; an element already present stays alone. */
  function InsertOrdered(order: seq<Pair>, p: Pair): seq<Pair> {
    if order == [] || Less(p, order[0]) then [p] + order
    else if order[0] == p then order
    else [order[0]] + InsertOrdered(order[1..], p)
  }

  function RemoveOrdered(order: seq<Pair>, p: Pair): seq<Pair> {
    if order == [] then []
    else if order[0] == p then order[1..]
    else [order[0]] + RemoveOrdered(order[1..], p)
  }

  lemma {:induction false} InsertOrderedCorrect(order: seq<Pair>, p: Pair)
    requires Ascending(order)
    ensures Ascending(InsertOrdered(order, p))
    ensures forall q: Pair :: q in InsertOrdered(order, p) <==> q == p || q in order
  {
    if order != [] && !Less(p, order[0]) && order[0] != p {
      LessTotal(p, order[0]);
      var rest := InsertOrdered(order[1..], p);
      InsertOrderedCorrect(order[1..], p);
      forall i | 0 <= i < |rest| ensures Less(order[0], rest[i]) {
        assert rest[i] in rest;
      }
      assert order == [order[0]] + order[1..];
    } else if order != [] && order[0] != p {
      forall i | 0 <= i < |order| ensures Less(p, order[i]) {
        if i > 0 { LessTransitive(p, order[0], order[i]); }
      }
    }
  }

  lemma {:induction false} RemoveOrderedCorrect(order: seq<Pair>, p: Pair)
    requires Ascending(order)
    ensures Ascending(RemoveOrdered(order, p))
    ensures forall q: Pair :: q in RemoveOrdered(order, p) <==> q != p && q in order
  {
    if order != [] {
      assert order == [order[0]] + order[1..];
      if order[0] == p {
        forall q: Pair ensures q in order[1..] ==> q != p {
          LessTotal(p, q);
        }
      } else {
        var rest := RemoveOrdered(order[1..], p);
        RemoveOrderedCorrect(order[1..], p);
        forall i | 0 <= i < |rest| ensures Less(order[0], rest[i]) {
          assert rest[i] in rest;
        }
      }
    }
  }

  // ------------------------------------------------------- ranks and ranges

  /** The position of a member in the index, if it has one. */
  function Rank(order: seq<Pair>, m: string): (r: Option<nat>)
    ensures r.Some? ==> r.value < |order| && order[r.value].1 == m
    ensures r.None? ==> forall i :: 0 <= i < |order| ==> order[i].1 != m
  {
    if order == [] then None
    else if order[0].1 == m then Some(0)
    else match Rank(order[1..], m)
      case None => None
      case Some(r) => Some(r + 1)
  }

  /** The members of a stretch of the index (replies without scores). */
  function Members(order: seq<Pair>): (ms: seq<string>)
    ensures |ms| == |order|
    ensures forall i :: 0 <= i < |order| ==> ms[i] == order[i].1
  {
    seq(|order|, i requires 0 <= i < |order| => order[i].1)
  }

  function ZRange(order: seq<Pair>, start: int, stop: int): seq<string> {
    Members(Slice(order, start, stop))
  }

  function ZRevRange(order: seq<Pair>, start: int, stop: int): seq<string> {
    Members(Slice(Reverse(order), start, stop))
  }

  /** The pairs with scores from `min` to `max`, in order (ZRANGEBYSCORE filters the whole index). */
  function ByScore(order: seq<Pair>, min: Score, max: Score): seq<Pair> {
    if order == [] then []
    else (if min <= order[0].0 <= max then [order[0]] else []) + ByScore(order[1..], min, max)
  }

  /** How many pairs of the index come before `p`. */
  function CountLess(order: seq<Pair>, p: Pair): nat {
    if order == [] then 0 else (if Less(order[0], p) then 1 else 0) + CountLess(order[1..], p)
  }

  /** In an ascending index, exactly the first `r` pairs come before the one at position `r`. */
  lemma {:induction false} CountLessIsPosition(order: seq<Pair>, r: nat)
    requires Ascending(order) && r < |order|
    ensures CountLess(order, order[r]) == r
  {
    var p := order[r];
    if r > 0 {
      assert order[1..][r - 1] == p;
      CountLessIsPosition(order[1..], r - 1);
    } else {
      NoneLess(order, p);
    }
  }

  lemma {:induction false} NoneLess(order: seq<Pair>, p: Pair)
    requires forall i :: 0 <= i < |order| ==> order[i] == p || Less(p, order[i])
    ensures CountLess(order, p) == 0
  {
    if order != [] {
      LessTotal(p, order[0]);
      NoneLess(order[1..], p);
    }
  }

  /** Rank and selection are inverse: a member has rank `r` exactly when the range at `r` is that member. */
  lemma RankSelect(scores: map<string, Score>, order: seq<Pair>, m: string, r: nat)
    requires InSync(scores, order)
    ensures Rank(order, m) == Some(r) <==> ZRange(order, r, r) == [m]
  {
    RankFinds(scores, order, m);
    SliceOne(order, r);
    if ZRange(order, r, r) == [m] {
      assert r < |order| && order[r].1 == ZRange(order, r, r)[0];
    }
  }

  /** Rank counts the smaller pairs, and the ranks from either end add up to len - 1. */
  lemma RankCounts(scores: map<string, Score>, order: seq<Pair>, m: string)
    requires InSync(scores, order) && m in scores
    ensures Rank(order, m) == Some(CountLess(order, (scores[m], m)))
    ensures
      var rev := |scores| - 1 - Rank(order, m).value;
      0 <= rev && ZRevRange(order, rev, rev) == [m]
  {
    IndexSize(scores, order);
    RankFinds(scores, order, m);
    var i := Rank(order, m).value;
    CountLessIsPosition(order, i);
    SliceOne(Reverse(order), |order| - 1 - i);
  }

  /** The rank of a member is the position of its pair, and only of its pair. */
  lemma RankFinds(scores: map<string, Score>, order: seq<Pair>, m: string)
    requires InSync(scores, order)
    ensures Rank(order, m).Some? <==> m in scores
    ensures m in scores ==> order[Rank(order, m).value] == (scores[m], m)
    ensures forall i :: 0 <= i < |order| && order[i].1 == m ==> Rank(order, m) == Some(i)
  {
    if m in scores {
      assert (scores[m], m) in order;
      var r := Rank(order, m).value;
      assert order[r] in order;
      forall i | 0 <= i < |order| && order[i].1 == m ensures i == r {
        assert order[i] in order;
        LessTotal(order[i], order[r]);
      }
    } else {
      forall i | 0 <= i < |order| ensures order[i].1 != m {
        assert order[i] in order;
      }
    }
  }

  /** ZREVRANGE is ZRANGE with mirrored indices, reversed. */
  lemma ZRevRangeDual(max: nat, order: seq<Pair>, start: int, stop: int)
    requires |order| <= max && FitsWord(max, start) && FitsWord(max, stop)
    ensures ZRevRange(order, start, stop) == Reverse(ZRange(order, -stop - 1, -start - 1))
  {
    RangeDuality(max, order, start, stop);
    assert Members(Reverse(Slice(order, -stop - 1, -start - 1))) == Reverse(ZRange(order, -stop - 1, -start - 1));
  }

  lemma {:induction false} ByScoreConcat(a: seq<Pair>, b: seq<Pair>, min: Score, max: Score)
    ensures ByScore(a + b, min, max) == ByScore(a, min, max) + ByScore(b, min, max)
  {
    if a == [] {
      assert a + b == b;
    } else {
      assert (a + b)[1..] == a[1..] + b;
      ByScoreConcat(a[1..], b, min, max);
    }
  }

  lemma {:induction false} ByScoreUniform(s: seq<Pair>, min: Score, max: Score, inside: bool)
    requires forall i :: 0 <= i < |s| ==> (min <= s[i].0 <= max) == inside
    ensures ByScore(s, min, max) == if inside then s else []
  {
    if s != [] {
      ByScoreUniform(s[1..], min, max, inside);
      assert s == [s[0]] + s[1..];
    }
  }

  /** Below a bound, or also on it. */
  predicate Under(score: Score, bound: Score, orEqual: bool) {
    score < bound || (orEqual && score == bound)
  }

  /** Where the pairs scoring under a bound stop. */
  function StopsAt(order: seq<Pair>, bound: Score, orEqual: bool): (at: nat)
    requires Ascending(order)
    ensures at <= |order|
    ensures forall i :: 0 <= i < |order| ==> (i < at <==> Under(order[i].0, bound, orEqual))
  {
    if order == [] then 0
    else if !Under(order[0].0, bound, orEqual) then
      assert forall i :: 0 < i < |order| ==> Less(order[0], order[i]);
      0
    else
      var rest := StopsAt(order[1..], bound, orEqual);
      assert forall i :: 0 < i < |order| ==> order[i] == order[1..][i - 1];
      rest + 1
  }

  lemma ByScoreSlice(order: seq<Pair>, lo: nat, hi: nat, min: Score, max: Score, inside: bool)
    requires lo <= hi <= |order| && forall i :: lo <= i < hi ==> (min <= order[i].0 <= max) == inside
    ensures ByScore(order[lo..hi], min, max) == if inside then order[lo..hi] else []
  {
    assert forall i :: 0 <= i < hi - lo ==> order[lo..hi][i] == order[lo + i];
    ByScoreUniform(order[lo..hi], min, max, inside);
  }

  lemma ByScoreThree(a: seq<Pair>, b: seq<Pair>, c: seq<Pair>, min: Score, max: Score)
    ensures ByScore((a + b) + c, min, max) == (ByScore(a, min, max) + ByScore(b, min, max)) + ByScore(c, min, max)
  {
    ByScoreConcat(a + b, c, min, max);
    ByScoreConcat(a, b, min, max);
  }

  /** Filtering keeps exactly a stretch outside of which nothing qualifies. */
  lemma ByScoreStretch(order: seq<Pair>, from: nat, end: nat, min: Score, max: Score)
    requires from <= end <= |order|
    requires forall i :: 0 <= i < |order| ==> (from <= i < end <==> min <= order[i].0 <= max)
    ensures ByScore(order, min, max) == order[from..end]
  {
    var a, b, c := order[0..from], order[from..end], order[end..|order|];
    assert order == (a + b) + c;
    ByScoreThree(a, b, c, min, max);
    ByScoreSlice(order, 0, from, min, max, false);
    ByScoreSlice(order, from, end, min, max, true);
    ByScoreSlice(order, end, |order|, min, max, false);
  }

  /** A score range is a contiguous stretch of the index, empty when the bounds are crossed. */
  lemma ByScoreContiguous(order: seq<Pair>, min: Score, max: Score)
    requires Ascending(order)
    ensures
      var from, end := StopsAt(order, min, false), StopsAt(order, max, true);
      ByScore(order, min, max) == if from < end then order[from..end] else []
  {
    var from, end := StopsAt(order, min, false), StopsAt(order, max, true);
    ByScoreStretch(order, from, Max(from, end), min, max);
  }

  // ------------------------------------------------------------ value level

  /** Successive insertions: a later score for a member replaces an earlier one. */
  function InsertAll(scores: map<string, Score>, pairs: seq<(string, Score)>): map<string, Score> {
    if pairs == [] then scores
    else var p := pairs[|pairs| - 1]; InsertAll(scores, pairs[..|pairs| - 1])[p.0 := p.1]
  }

  /** Removing one more member: the map shrinks by one exactly when the member is still there. */
  lemma DropOne<V>(m: map<string, V>, members: seq<string>, i: nat)
    requires i < |members|
    ensures
      var now, next := m - Elements(members[..i]), m - Elements(members[..i + 1]);
      && next == now - {members[i]}
      && |next| == if members[i] in now then |now| - 1 else |now|
  {
    var now, next := m - Elements(members[..i]), m - Elements(members[..i + 1]);
    assert Elements(members[..i + 1]) == Elements(members[..i]) + {members[i]};
    assert next == now - {members[i]};
    assert next.Keys == now.Keys - {members[i]};
    if members[i] in now {
      assert now.Keys == next.Keys + {members[i]};
    } else {
      assert now.Keys == next.Keys;
    }
  }

  // ------------------------------------------------------------------ class

  /** The two structures, updated together. */
  class SortedSet {
    var scores: map<string, Score>
    var order: seq<Pair>

    ghost predicate Valid()
      reads this
    {
      InSync(scores, order)
    }

    constructor ()
      ensures Valid() && scores == map[]
    {
      scores, order := map[], [];
    }

    /** ZADD of one member. Valid() with the new scores fixes the new index (see IndexDetermined). */
    method Insert(member: string, score: Score) returns (isNew: bool)
      requires Valid()
      modifies this
      ensures Valid() && scores == old(scores)[member := score]
      ensures isNew <==> member !in old(scores)
    {
      var previous := Lookup(scores, member);
      scores := scores[member := score];
      match previous
      case Some(was) =>
        if was != score {
          RemoveOrderedCorrect(order, (was, member));
          order := RemoveOrdered(order, (was, member));
          InsertOrderedCorrect(order, (score, member));
          order := InsertOrdered(order, (score, member));
        }
        isNew := false;
      case None =>
        InsertOrderedCorrect(order, (score, member));
        order := InsertOrdered(order, (score, member));
        isNew := true;
    }

    /** ZREM of one member. */
    method Remove(member: string) returns (removed: bool)
      requires Valid()
      modifies this
      ensures Valid() && scores == old(scores) - {member}
      ensures removed <==> member in old(scores)
    {
      match Lookup(scores, member)
      case Some(score) =>
        scores := scores - {member};
        RemoveOrderedCorrect(order, (score, member));
        order := RemoveOrdered(order, (score, member));
        removed := true;
      case None =>
        removed := false;
    }

    /** ZADD: inserts in the order given and counts the members that were new. */
    method ZAdd(pairs: seq<(string, Score)>) returns (added: nat)
      requires Valid()
      modifies this
      ensures Valid() && scores == InsertAll(old(scores), pairs)
      ensures added == |scores| - |old(scores)|
    {
      added := 0;
      for i := 0 to |pairs|
        invariant Valid() && scores == InsertAll(old(scores), pairs[..i])
        invariant added == |scores| - |old(scores)|
      {
        assert pairs[..i + 1][..i] == pairs[..i];
        ghost var before := scores;
        var isNew := Insert(pairs[i].0, pairs[i].1);
        assert scores.Keys == before.Keys + {pairs[i].0};
        if isNew {
          added := added + 1;
        }
      }
      assert pairs[..|pairs|] == pairs;
    }

    /** ZREM: removes members one by one and counts those that were present. */
    method ZRem(members: seq<string>) returns (removed: nat)
      requires Valid()
      modifies this
      ensures Valid() && scores == old(scores) - Elements(members)
      ensures removed == |old(scores)| - |scores|
    {
      removed := 0;
      ghost var before := scores;
      for i := 0 to |members|
        invariant Valid() && removed == |before| - |scores|
        invariant scores == before - Elements(members[..i])
      {
        DropOne(before, members, i);
        var gone := Remove(members[i]);
        if gone {
          removed := removed + 1;
        }
      }
      assert members[..|members|] == members;
    }

    /** ZRANK: scans the index for the member's pair. */
    method ZRank(member: string) returns (r: Option<nat>)
      requires Valid()
      ensures r == Rank(order, member)
    {
      match Lookup(scores, member)
      case None =>
        RankFinds(scores, order, member);
        r := None;
      case Some(score) =>
        RankFinds(scores, order, member);
        ghost var at := Rank(order, member).value;
        for i := 0 to |order|
          invariant i <= at
        {
          if order[i] == (score, member) {
            return Some(i);
          }
        }
    }

    /** ZREVRANK: counts from the highest score. */
    method ZRevRank(member: string) returns (r: Option<nat>)
      requires Valid()
      ensures r.Some? <==> member in scores
      ensures r.Some? ==> ZRevRange(order, r.value, r.value) == [member]
      ensures r.Some? ==> Rank(order, member).Some? && Rank(order, member).value + r.value == |scores| - 1
    {
      RankFinds(scores, order, member);
      var rank := ZRank(member);
      match rank
      case None => r := None;
      case Some(k) =>
        RankCounts(scores, order, member);
        r := Some(|scores| - 1 - k);
    }

    /** ZCOUNT: counts the pairs in the score range; as many as ZRANGEBYSCORE returns. */
    method ZCount(min: Score, max: Score) returns (count: nat)
      requires Valid()
      ensures count == |ByScore(order, min, max)|
    {
      count := 0;
      for i := 0 to |order|
        invariant count + |ByScore(order[i..], min, max)| == |ByScore(order, min, max)|
      {
        assert order[i..][1..] == order[i + 1..];
        if min <= order[i].0 <= max {
          count := count + 1;
        }
      }
    }
  }
}
