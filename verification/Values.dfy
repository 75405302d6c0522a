/** Values and the collection mutations that live commands and log entries share. */
module Values {
  import opened Base
  import opened Ranges
  import opened Lists
  import opened SortedSets
  import opened Strings

  datatype TypeError = WrongType | IndexOutOfRange | StringTooLarge

  /**
   * A stored value. A sorted set is given by its scores alone: its index is
   * a function of them (SortedSets.IndexDetermined).
   */
  datatype Value =
    | Str(bytes: bytes)
    | List(items: seq<string>)
    | Set(members: set<string>)
    | ZSet(scores: map<string, Score>)
    | Hash(fields: map<string, string>)

  /** Empty collections are what a snapshot drops; an empty string is a value like any other. */
  predicate IsEmptyCollection(v: Value) {
    match v
    case Str(_) => false
    case List(items) => items == []
    case Set(members) => members == {}
    case ZSet(scores) => scores == map[]
    case Hash(fields) => fields == map[]
  }

  /** The in-place operations on collections. */
  datatype Mutation =
    | LPush(values: seq<string>)
    | RPush(values: seq<string>)
    | LPop(count: nat)
    | RPop(count: nat)
    | LSet(index: int, item: string)
    | LRem(occurrences: int, item: string)
    | LTrim(start: int, stop: int)
    | SAdd(members: seq<string>)
    | SRem(members: seq<string>)
    | ZAdd(pairs: seq<(string, Score)>)
    | ZRem(members: seq<string>)
    | HSet(field: string, text: string)
    | HDel(fieldNames: seq<string>)

  /** What an operation tells its caller. */
  datatype Answer = Count(n: int) | Popped(items: seq<string>) | Done

  datatype Mutated = Mutated(value: Value, answer: Answer)

  /** Operations that create a missing key (`or_insert_with`); the others need it to exist. */
  predicate Creates(m: Mutation) {
    m.LPush? || m.RPush? || m.SAdd? || m.ZAdd? || m.HSet?
  }

  /** A creating operation given nothing to add leaves the database alone. */
  predicate HasArguments(m: Mutation) {
    match m
    case LPush(values) => values != []
    case RPush(values) => values != []
    case SAdd(members) => members != []
    case ZAdd(pairs) => pairs != []
    case _ => true
  }

  /** The empty collection a creating operation starts from. */
  function Default(m: Mutation): Value
    requires Creates(m)
  {
    match m
    case SAdd(_) => Value.Set({})
    case ZAdd(_) => Value.ZSet(map[])
    case HSet(_, _) => Value.Hash(map[])
    case _ => Value.List([])
  }

  function Mutate(v: Value, m: Mutation): Result<Mutated, TypeError> {
    if m.SAdd? || m.SRem? then
      if !v.Set? then Err(WrongType)
      else
        var ms := if m.SAdd? then v.members + Elements(m.members) else v.members - Elements(m.members);
        Ok(Mutated(Value.Set(ms), Count(if m.SAdd? then |ms| - |v.members| else |v.members| - |ms|)))
    else if m.ZAdd? || m.ZRem? then
      if !v.ZSet? then Err(WrongType)
      else
        var scores := if m.ZAdd? then InsertAll(v.scores, m.pairs) else v.scores - Elements(m.members);
        Ok(Mutated(Value.ZSet(scores), Count(if m.ZAdd? then |scores| - |v.scores| else |v.scores| - |scores|)))
    else if m.HSet? then
      if !v.Hash? then Err(WrongType)
      else Ok(Mutated(Value.Hash(v.fields[m.field := m.text]), Count(if m.field in v.fields then 0 else 1)))
    else if m.HDel? then
      if !v.Hash? then Err(WrongType)
      else
        var fields := v.fields - Elements(m.fieldNames);
        Ok(Mutated(Value.Hash(fields), Count(|v.fields| - |fields|)))
    else if !v.List? then Err(WrongType)
    else MutateList(v.items, m)
  }

  function MutateList(items: seq<string>, m: Mutation): Result<Mutated, TypeError>
    requires m.LPush? || m.RPush? || m.LPop? || m.RPop? || m.LSet? || m.LRem? || m.LTrim?
  {
    match m
    case LPush(values) => var l := PushFront(items, values); Ok(Mutated(Value.List(l), Count(|l|)))
    case RPush(values) => var l := items + values; Ok(Mutated(Value.List(l), Count(|l|)))
    case LPop(count) =>
      var k := Min(count, |items|);
      Ok(Mutated(Value.List(items[k..]), Popped(items[..k])))
    case RPop(count) =>
      var k := |items| - Min(count, |items|);
      Ok(Mutated(Value.List(items[..k]), Popped(Reverse(items[k..]))))
    case LSet(index, item) => (
      match IndexOf(|items|, index)
      case None => Err(IndexOutOfRange)
      case Some(i) => Ok(Mutated(Value.List(items[i := item]), Done)))
    case LRem(count, item) =>
      var l := Lists.LRem(items, count, item);
      Ok(Mutated(Value.List(l), Count(LRemCount(items, count, item))))
    case LTrim(start, stop) => Ok(Mutated(Value.List(Slice(items, start, stop)), Done))
  }

  /** A command is logged unless its answer shows it changed nothing (ZADD, HSET, LSET and LTRIM always are). */
  predicate Logged(m: Mutation, a: Answer) {
    match m
    case LPop(_) => a.Popped? && a.items != []
    case RPop(_) => a.Popped? && a.items != []
    case LRem(_, _) => a.Count? && a.n > 0
    case SAdd(_) => a.Count? && a.n > 0
    case SRem(_) => a.Count? && a.n > 0
    case ZRem(_) => a.Count? && a.n > 0
    case HDel(_) => a.Count? && a.n > 0
    case _ => true
  }

  lemma RestrictedSize<V>(m: map<string, V>, xs: set<string>)
    ensures |m - xs| <= |m|
    ensures |m - xs| == |m| ==> m - xs == m
  {
    assert (m - xs).Keys == m.Keys - xs;
    SubsetSize(m.Keys - xs, m.Keys);
  }

  /** What goes unlogged changes nothing. */
  lemma UnloggedIsNoOp(v: Value, m: Mutation)
    requires Mutate(v, m).Ok?
    ensures !Logged(m, Mutate(v, m).value.answer) ==> Mutate(v, m).value.value == v
  {
    if m.SAdd? || m.SRem? {
      UnloggedOnSet(v.members, m);
    } else if m.ZAdd? || m.ZRem? {
      UnloggedOnSortedSet(v.scores, m);
    } else if m.HSet? || m.HDel? {
      UnloggedOnHash(v.fields, m);
    } else {
      UnloggedOnList(v.items, m);
    }
  }

  lemma UnloggedOnSortedSet(scores: map<string, Score>, m: Mutation)
    requires m.ZAdd? || m.ZRem?
    ensures var r := Mutate(Value.ZSet(scores), m);
      !Logged(m, r.value.answer) ==> r.value.value == Value.ZSet(scores)
  {
    if m.ZRem? {
      RestrictedSize(scores, Elements(m.members));
    }
  }

  lemma UnloggedOnHash(fields: map<string, string>, m: Mutation)
    requires m.HSet? || m.HDel?
    ensures var r := Mutate(Value.Hash(fields), m);
      !Logged(m, r.value.answer) ==> r.value.value == Value.Hash(fields)
  {
    if m.HDel? {
      RestrictedSize(fields, Elements(m.fieldNames));
    }
  }

  lemma UnloggedOnSet(members: set<string>, m: Mutation)
    requires m.SAdd? || m.SRem?
    ensures var r := Mutate(Value.Set(members), m);
      !Logged(m, r.value.answer) ==> r.value.value == Value.Set(members)
  {
    if m.SAdd? {
      SubsetSize(members, members + Elements(m.members));
    } else {
      SubsetSize(members - Elements(m.members), members);
    }
  }

  lemma UnloggedOnList(items: seq<string>, m: Mutation)
    requires m.LPush? || m.RPush? || m.LPop? || m.RPop? || m.LSet? || m.LRem? || m.LTrim?
    requires MutateList(items, m).Ok?
    ensures var r := MutateList(items, m);
      !Logged(m, r.value.answer) ==> r.value.value == Value.List(items)
  {
    if m.LRem? && LRemCount(items, m.occurrences, m.item) == 0 {
      LRemNothing(items, m.occurrences, m.item);
    }
  }

  lemma LRemNothing(s: seq<string>, count: int, v: string)
    requires LRemCount(s, count, v) == 0
    ensures Lists.LRem(s, count, v) == s
  {
    NoOccurrence(s, v);
    if count > 0 {
      RemovesPrefix(s, count, v, 0);
    } else if count < 0 {
      RemovesSuffix(s, count, v, |s|);
    }
  }

  /** Something is inserted. */
  lemma InsertedThere(pairs: seq<(string, Score)>)
    requires pairs != []
    ensures InsertAll(map[], pairs) != map[]
  {
    assert pairs[|pairs| - 1].0 in InsertAll(map[], pairs);
  }

  lemma ElementsThere(members: seq<string>)
    requires members != []
    ensures {} + Elements(members) != {} && |{} + Elements(members)| > 0
  {
    assert members[0] in {} + Elements(members);
  }

  /** A creating operation with arguments succeeds on the fresh collection, is logged, and leaves it non-empty. */
  lemma CreatorOnFresh(m: Mutation)
    requires Creates(m) && HasArguments(m)
    ensures
      var r := Mutate(Default(m), m);
      r.Ok? && Logged(m, r.value.answer) && !r.value.value.Str? && !IsEmptyCollection(r.value.value)
  {
    match m
    case SAdd(members) => ElementsThere(members);
    case ZAdd(pairs) => InsertedThere(pairs);
    case HSet(field, text) => assert field in (map[])[field := text];
    case _ =>
  }

  /** Any other operation on an empty collection leaves it as it was. */
  lemma UpdaterOnEmpty(v: Value, m: Mutation)
    requires IsEmptyCollection(v) && !Creates(m) && Mutate(v, m).Ok?
    ensures Mutate(v, m).value.value == v
  {
    if m.LRem? {
      LRemNothing(v.items, m.occurrences, m.item);
    } else if m.SRem? || m.ZRem? || m.HDel? {
      UpdaterOnEmptyTable(v, m);
    }
  }

  lemma UpdaterOnEmptyTable(v: Value, m: Mutation)
    requires IsEmptyCollection(v) && (m.SRem? || m.ZRem? || m.HDel?) && Mutate(v, m).Ok?
    ensures Mutate(v, m).value.value == v
  {
  }
}
