/**
 * What the operations on values mean, said of elements, positions and bytes,
 * and not in the terms the operations are defined by.
 */
module Meanings {
  import opened Base
  import opened Ranges
  import opened Lists
  import opened SortedSets
  import opened Strings
  import opened Values

  // ------------------------------------------------------------------ order

  /** The first position at which two strings differ, or where the shorter ends. */
  predicate FirstDifference(a: string, b: string, i: nat) {
    i <= |a| && i <= |b| && a[..i] == b[..i] && (i < |a| && i < |b| ==> a[i] != b[i])
  }

  /** Strings are ordered as in a dictionary: by the first character that differs, a prefix first. */
  lemma {:induction false} StringOrder(a: string, b: string) returns (i: nat)
    ensures FirstDifference(a, b, i) && i <= Min(|a|, |b|)
    ensures StringLess(a, b) <==> if i < |a| && i < |b| then a[i] < b[i] else |a| < |b|
  {
    if a == [] || b == [] || a[0] != b[0] {
      i := 0;
    } else {
      var j := StringOrder(a[1..], b[1..]);
      i := j + 1;
      assert a[..i] == [a[0]] + a[1..][..j] && b[..i] == [b[0]] + b[1..][..j];
    }
  }

  // ------------------------------------------------------------------ lists

  /** A list of one element: it is a match and goes, or is none and stays. Lists.OccursConcat has the rest. */
  lemma OneElement(x: string, v: string)
    ensures Without([x], v) == if x == v then [] else [x]
    ensures Occurs([x], v) == if x == v then 1 else 0
    ensures Without([], v) == [] && Occurs([], v) == 0
  {
    assert [x][1..] == [];
  }

  /** LPUSH and RPUSH: the old list is all there, in order, behind or before the pushed values. */
  lemma PushMeans(s: seq<string>, vs: seq<string>)
    ensures
      var r := Mutate(Value.List(s), LPush(vs));
      && r.Ok? && r.value.value.List? && r.value.answer == Count(|s| + |vs|)
      && var l := r.value.value.items;
         |l| == |s| + |vs| && l[|vs|..] == s && forall i :: 0 <= i < |vs| ==> l[i] == vs[|vs| - 1 - i]
    ensures
      var r := Mutate(Value.List(s), RPush(vs));
      && r.Ok? && r.value.value.List? && r.value.answer == Count(|s| + |vs|)
      && var l := r.value.value.items;
         |l| == |s| + |vs| && l[..|s|] == s && forall i :: 0 <= i < |vs| ==> l[|s| + i] == vs[i]
  {
  }

  /** LPOP and RPOP: as many as asked for and there are, from the head in order, or from the tail backwards. */
  lemma PopMeans(s: seq<string>, count: nat)
    ensures
      var r, k := Mutate(Value.List(s), LPop(count)), if count <= |s| then count else |s|;
      r == Ok(Mutated(Value.List(s[k..]), Popped(s[..k])))
    ensures
      var r, k := Mutate(Value.List(s), RPop(count)), if count <= |s| then count else |s|;
      && r.Ok? && r.value.value == Value.List(s[..|s| - k]) && r.value.answer.Popped?
      && var popped := r.value.answer.items;
         |popped| == k && forall i :: 0 <= i < k ==> popped[i] == s[|s| - 1 - i]
  {
  }

  /** LSET: one position changes, counted from the end if negative; outside the list it is an error. */
  lemma SetMeans(s: seq<string>, index: int, item: string)
    ensures
      var r, i := Mutate(Value.List(s), LSet(index, item)), if index < 0 then |s| + index else index;
      if 0 <= i < |s| then
        && r.Ok? && r.value.value.List? && r.value.answer == Done
        && var l := r.value.value.items;
           |l| == |s| && l[i] == item && forall j :: 0 <= j < |s| && j != i ==> l[j] == s[j]
      else r == Err(IndexOutOfRange)
  {
  }

  /** LTRIM: what stays are the elements between the two positions, each end included. */
  lemma TrimMeans(s: seq<string>, start: int, stop: int)
    ensures
      var from := if start < 0 then |s| + start else start;
      var to := if stop < 0 then |s| + stop else stop;
      Mutate(Value.List(s), LTrim(start, stop)) == Ok(Mutated(Value.List(Between(s, from, to)), Done))
  {
    SliceSelects(s, start, stop);
  }

  /**
   * LREM: how many matches go, and from where. A positive count clears a
   * prefix, a negative one a suffix, zero the whole list, of as many matches
   * as the count says and there are; all else stays in order.
   */
  lemma RemMeans(s: seq<string>, count: int, v: string) returns (p: nat)
    ensures p <= |s|
    ensures
      var r := Mutate(Value.List(s), LRem(count, v));
      && r.Ok? && r.value.value.List?
      && var l := r.value.value.items;
         var all := Occurs(s, v);
         if count > 0 then
           var n := if count <= all then count else all;
           r.value.answer == Count(n) && Occurs(s[..p], v) == n && l == Without(s[..p], v) + s[p..]
         else if count < 0 then
           var n := if -count <= all then -count else all;
           r.value.answer == Count(n) && Occurs(s[p..], v) == n && l == s[..p] + Without(s[p..], v)
         else
           r.value.answer == Count(all) && l == Without(s, v) && v !in l
  {
    p := LRemExact(s, count, v);
  }

  // ---------------------------------------------- sets, hashes, sorted sets

  /** SADD and SREM: who is in afterwards; the answer is by how much the set has changed. */
  lemma SetMembersMean(s: set<string>, ms: seq<string>)
    ensures
      var r := Mutate(Value.Set(s), SAdd(ms));
      && r.Ok? && r.value.value.Set?
      && var t := r.value.value.members;
         (forall x :: x in t <==> x in s || x in ms) && r.value.answer == Count(|t - s|)
    ensures
      var r := Mutate(Value.Set(s), SRem(ms));
      && r.Ok? && r.value.value.Set?
      && var t := r.value.value.members;
         (forall x :: x in t <==> x in s && x !in ms) && r.value.answer == Count(|s - t|)
  {
    var t := s + Elements(ms);
    assert t == s + (t - s);
    var u := s - Elements(ms);
    assert s == u + (s - u);
  }

  /** The last of the listed pairs for a member. */
  predicate LastListed(pairs: seq<(string, Score)>, m: string, i: nat) {
    i < |pairs| && pairs[i].0 == m && forall j :: i < j < |pairs| ==> pairs[j].0 != m
  }

  /** ZADD: a listed member has the score listed last for it, any other the score it had. */
  lemma {:induction false} InsertedScore(scores: map<string, Score>, pairs: seq<(string, Score)>, m: string)
    ensures forall i: nat :: LastListed(pairs, m, i) ==> Lookup(InsertAll(scores, pairs), m) == Some(pairs[i].1)
    ensures Unlisted(pairs, m) ==> Lookup(InsertAll(scores, pairs), m) == Lookup(scores, m)
  {
    if pairs != [] {
      InsertedScore(scores, pairs[..|pairs| - 1], m);
      LastIsLast(pairs, m);
    }
  }

  /** The last pair, if it is for the member, is the last listed; if not, the others decide. */
  lemma LastIsLast(pairs: seq<(string, Score)>, m: string)
    requires pairs != []
    ensures
      var n, init := |pairs| - 1, pairs[..|pairs| - 1];
      if pairs[n].0 == m then forall i: nat :: LastListed(pairs, m, i) ==> i == n
      else
        && (forall i: nat :: LastListed(pairs, m, i) ==> LastListed(init, m, i) && pairs[i] == init[i])
        && (Unlisted(pairs, m) ==> Unlisted(init, m))
  {
    var n, init := |pairs| - 1, pairs[..|pairs| - 1];
    forall i: nat | LastListed(pairs, m, i) && pairs[n].0 != m ensures LastListed(init, m, i) && pairs[i] == init[i] {
      assert i < n;
    }
  }

  predicate Unlisted(pairs: seq<(string, Score)>, m: string) {
    forall i :: 0 <= i < |pairs| ==> pairs[i].0 != m
  }

  lemma AddScoresMeans(scores: map<string, Score>, pairs: seq<(string, Score)>)
    ensures
      var r := Mutate(Value.ZSet(scores), ZAdd(pairs));
      && r.Ok? && r.value.value.ZSet?
      && var t := r.value.value.scores;
         && (forall m, i: nat :: LastListed(pairs, m, i) ==> Lookup(t, m) == Some(pairs[i].1))
         && (forall m :: Unlisted(pairs, m) ==> Lookup(t, m) == Lookup(scores, m))
         && r.value.answer == Count(|t| - |scores|)
  {
    forall m
      ensures forall i: nat :: LastListed(pairs, m, i) ==> Lookup(InsertAll(scores, pairs), m) == Some(pairs[i].1)
      ensures Unlisted(pairs, m) ==> Lookup(InsertAll(scores, pairs), m) == Lookup(scores, m)
    {
      InsertedScore(scores, pairs, m);
    }
  }

  /** ZREM: listed members are gone, the others keep their scores. */
  lemma RemoveScoresMeans(scores: map<string, Score>, ms: seq<string>)
    ensures
      var r := Mutate(Value.ZSet(scores), ZRem(ms));
      && r.Ok? && r.value.value.ZSet?
      && var t := r.value.value.scores;
         && (forall m :: Lookup(t, m) == if m in ms then None else Lookup(scores, m))
         && r.value.answer == Count(|scores| - |t|)
  {
  }

  /** HSET and HDEL, field by field. */
  lemma FieldsMean(fields: map<string, string>, f: string, text: string, fs: seq<string>)
    ensures
      var r := Mutate(Value.Hash(fields), HSet(f, text));
      && r.Ok? && r.value.value.Hash?
      && var t := r.value.value.fields;
         && (forall g :: Lookup(t, g) == if g == f then Some(text) else Lookup(fields, g))
         && r.value.answer == Count(if f in fields then 0 else 1)
    ensures
      var r := Mutate(Value.Hash(fields), HDel(fs));
      && r.Ok? && r.value.value.Hash?
      && var t := r.value.value.fields;
         && (forall g :: Lookup(t, g) == if g in fs then None else Lookup(fields, g))
         && r.value.answer == Count(|fields| - |t|)
  {
  }

  /** The kind of value an operation works on. */
  predicate FitsKind(v: Value, m: Mutation) {
    match m
    case SAdd(_) => v.Set?
    case SRem(_) => v.Set?
    case ZAdd(_) => v.ZSet?
    case ZRem(_) => v.ZSet?
    case HSet(_, _) => v.Hash?
    case HDel(_) => v.Hash?
    case _ => v.List?
  }

  /** Any other kind is an error; so is an LSET outside the list, and nothing else. */
  lemma ErrorsMean(v: Value, m: Mutation)
    ensures Mutate(v, m) == Err(TypeError.WrongType) <==> !FitsKind(v, m)
    ensures Mutate(v, m).Err? && FitsKind(v, m) ==>
      m.LSet? && Mutate(v, m) == Err(IndexOutOfRange) && (m.index >= |v.items| || m.index < -|v.items|)
  {
  }

  // ---------------------------------------------------------------- strings

  /** SETRANGE, byte by byte. */
  lemma OverwriteMeans(s: bytes, offset: nat, patch: bytes)
    ensures PatchedAt(s, offset, patch, Overwrite(s, offset, patch))
  {
  }

  // ---------------------------------------------------------------- numbers

  function Pow10(n: nat): nat {
    if n == 0 then 1 else 10 * Pow10(n - 1)
  }

  predicate AllDigits(ds: bytes) {
    forall i :: 0 <= i < |ds| ==> ZERO <= ds[i] < ZERO + 10
  }

  /** The value of a decimal, digit by digit from the left, each times its power of ten. */
  function PlaceValue(ds: bytes): int {
    if ds == [] then 0 else (ds[0] - ZERO) * Pow10(|ds| - 1) + PlaceValue(ds[1..])
  }

  lemma {:induction false} PlaceValueSnoc(ds: bytes, d: byte)
    ensures PlaceValue(ds + [d]) == 10 * PlaceValue(ds) + (d - ZERO)
  {
    if ds == [] {
      assert ([] + [d])[1..] == [] && Pow10(0) == 1;
    } else {
      var a: int := ds[0] - ZERO;
      assert (ds + [d])[1..] == ds[1..] + [d];
      PlaceValueSnoc(ds[1..], d);
      assert Pow10(|ds|) == 10 * Pow10(|ds| - 1);
      TimesTen(a, Pow10(|ds| - 1));
    }
  }

  lemma TimesTen(a: int, p: int)
    ensures a * (10 * p) == 10 * (a * p)
  {
  }

  /** Digits, leading zeros allowed, are read at their place value; anything else is refused. */
  lemma {:induction false} DigitsMean(ds: bytes)
    ensures ParseDigits(ds).Some? <==> AllDigits(ds)
    ensures ParseDigits(ds).Some? ==> ParseDigits(ds).value == PlaceValue(ds)
  {
    if ds != [] {
      var init, d := ds[..|ds| - 1], ds[|ds| - 1];
      DigitsMean(init);
      PlaceValueSnoc(init, d);
      assert ds == init + [d];
    }
  }

  /** `s` is a decimal for `x`: a sign or none, then digits and nothing else. */
  ghost predicate Denotes(s: bytes, x: int) {
    && s != []
    && var ds := if s[0] == PLUS || s[0] == MINUS then s[1..] else s;
       && ds != [] && AllDigits(ds)
       && x == if s[0] == MINUS then -PlaceValue(ds) else PlaceValue(ds)
  }

  /** A string is read as a number exactly if it is a decimal for one in the signed 64-bit range. */
  lemma ParseMeans(s: bytes, x: i64)
    ensures ParseInt(s) == Some(x) <==> Denotes(s, x)
  {
    if s != [] {
      var ds := if s[0] == PLUS || s[0] == MINUS then s[1..] else s;
      DigitsMean(ds);
    }
  }

  /** A number is written without a plus sign or leading zeros. */
  lemma {:induction false} DigitsCanonical(n: nat)
    ensures Digits(n)[0] == ZERO ==> n == 0 && |Digits(n)| == 1
  {
    if n >= 10 {
      DigitsCanonical(n / 10);
      assert Digits(n)[0] == Digits(n / 10)[0];
    }
  }

  /** INCRBY: the number in the string plus the increment, if that stays in range; an empty string counts from 0. */
  lemma IncrementMeans(s: bytes, x: i64, d: i64)
    requires Denotes(s, x) || (s == [] && x == 0)
    ensures Increment(s, d) == if I64_MIN <= x + d <= I64_MAX then Some(x + d) else None
  {
    if s != [] {
      ParseMeans(s, x);
    }
  }

  /** Anything else is refused: what is no decimal, or for a number out of range. */
  lemma IncrementRefuses(s: bytes, d: i64)
    requires s != [] && forall x: int :: Denotes(s, x) ==> !(I64_MIN <= x <= I64_MAX)
    ensures Increment(s, d) == None
  {
    if ParseInt(s).Some? {
      ParseMeans(s, ParseInt(s).value);
    }
  }

  /** In particular of what an earlier increment has stored. */
  lemma IncrementStored(x: i64, d: i64)
    ensures Increment(FormatInt(x), d) == if I64_MIN <= x + d <= I64_MAX then Some(x + d) else None
    ensures Denotes(FormatInt(x), x)
  {
    FormatParses(x);
    ParseMeans(FormatInt(x), x);
    IncrementMeans(FormatInt(x), x, d);
  }
}
