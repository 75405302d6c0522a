/**
 * The collection operations as the code carries them out: on an object that
 * they update in place. What they leave and answer is what Values.Mutate says.
 */
module InPlace {
  import opened Base
  import opened Lists
  import opened SortedSets
  import opened Collections
  import opened Values
  import Snapshots

  /** Any operation on any value, through the object of its kind. */
  method Perform(v: Value, m: Mutation) returns (r: Result<Mutated, TypeError>)
    ensures r == Mutate(v, m)
  {
    match m {
      case SAdd(_) => r := OnSet(v, m);
      case SRem(_) => r := OnSet(v, m);
      case ZAdd(_) => r := OnSortedSet(v, m);
      case ZRem(_) => r := OnSortedSet(v, m);
      case HSet(_, _) => r := OnHash(v, m);
      case HDel(_) => r := OnHash(v, m);
      case _ => r := OnList(v, m);
    }
  }

  method OnList(v: Value, m: Mutation) returns (r: Result<Mutated, TypeError>)
    requires m.LPush? || m.RPush? || m.LPop? || m.RPop? || m.LSet? || m.LRem? || m.LTrim?
    ensures r == Mutate(v, m)
  {
    if !v.List? {
      return Err(WrongType);
    }
    var list := new ListValue();
    list.items := v.items;
    var answer := Done;
    match m {
      case LPush(values) =>
        var len := list.LPush(values);
        answer := Count(len);
      case RPush(values) =>
        var len := list.RPush(values);
        answer := Count(len);
      case LPop(count) =>
        var popped := list.LPop(count);
        SplitFront(v.items, popped, list.items);
        answer := Popped(popped);
      case RPop(count) =>
        var popped := list.RPop(count);
        SplitBack(v.items, list.items, popped);
        answer := Popped(popped);
      case LSet(index, item) =>
        var ok := list.LSet(index, item);
        if !ok {
          return Err(IndexOutOfRange);
        }
      case LRem(count, item) =>
        var removed := list.LRemove(count, item);
        answer := Count(removed);
      case LTrim(start, stop) =>
        list.LTrim(start, stop);
    }
    r := Ok(Mutated(Value.List(list.items), answer));
  }

  /** What an LPOP takes and leaves, by position. */
  lemma SplitFront(s: seq<string>, popped: seq<string>, left: seq<string>)
    requires popped + left == s
    ensures popped == s[..|popped|] && left == s[|popped|..]
  {
  }

  /** And an RPOP. */
  lemma SplitBack(s: seq<string>, left: seq<string>, popped: seq<string>)
    requires left + Reverse(popped) == s
    ensures left == s[..|s| - |popped|] && popped == Reverse(s[|s| - |popped|..])
  {
    assert s[|s| - |popped|..] == Reverse(popped);
    ReverseTwice(popped);
  }

  method OnSet(v: Value, m: Mutation) returns (r: Result<Mutated, TypeError>)
    requires m.SAdd? || m.SRem?
    ensures r == Mutate(v, m)
  {
    if !v.Set? {
      return Err(WrongType);
    }
    var members := new SetValue();
    members.members := v.members;
    var n;
    if m.SAdd? {
      n := members.SAdd(m.members);
    } else {
      n := members.SRem(m.members);
    }
    r := Ok(Mutated(Value.Set(members.members), Count(n)));
  }

  /** The object with the given scores; its index follows from them. */
  method Indexed(scores: map<string, Score>) returns (zset: SortedSet)
    ensures fresh(zset) && zset.Valid() && zset.scores == scores
  {
    zset := new SortedSet();
    var pairs := Snapshots.PairsInOrder(scores);
    var _ := zset.ZAdd(pairs);
  }

  method OnSortedSet(v: Value, m: Mutation) returns (r: Result<Mutated, TypeError>)
    requires m.ZAdd? || m.ZRem?
    ensures r == Mutate(v, m)
  {
    if !v.ZSet? {
      return Err(WrongType);
    }
    match m {
      case ZAdd(pairs) => r := AddPairs(v.scores, pairs);
      case ZRem(members) => r := RemoveMembers(v.scores, members);
    }
  }

  method AddPairs(scores: map<string, Score>, pairs: seq<(string, Score)>) returns (r: Result<Mutated, TypeError>)
    ensures r == Mutate(Value.ZSet(scores), ZAdd(pairs))
  {
    var zset := Indexed(scores);
    var added := zset.ZAdd(pairs);
    r := Ok(Mutated(Value.ZSet(zset.scores), Count(added)));
  }

  method RemoveMembers(scores: map<string, Score>, members: seq<string>) returns (r: Result<Mutated, TypeError>)
    ensures r == Mutate(Value.ZSet(scores), ZRem(members))
  {
    var zset := Indexed(scores);
    var removed := zset.ZRem(members);
    r := Ok(Mutated(Value.ZSet(zset.scores), Count(removed)));
  }

  method OnHash(v: Value, m: Mutation) returns (r: Result<Mutated, TypeError>)
    requires m.HSet? || m.HDel?
    ensures r == Mutate(v, m)
  {
    if !v.Hash? {
      return Err(WrongType);
    }
    match m {
      case HSet(field, text) => r := SetField(v.fields, field, text);
      case HDel(names) => r := DropFields(v.fields, names);
    }
  }

  method SetField(fields: map<string, string>, field: string, text: string) returns (r: Result<Mutated, TypeError>)
    ensures r == Mutate(Value.Hash(fields), HSet(field, text))
  {
    var hash := new HashValue();
    hash.fields := fields;
    var isNew := hash.HSet(field, text);
    assert hash.fields.Keys == fields.Keys + {field};
    r := Ok(Mutated(Value.Hash(hash.fields), Count(isNew)));
  }

  method DropFields(fields: map<string, string>, names: seq<string>) returns (r: Result<Mutated, TypeError>)
    ensures r == Mutate(Value.Hash(fields), HDel(names))
  {
    var hash := new HashValue();
    hash.fields := fields;
    var deleted := hash.HDel(names);
    r := Ok(Mutated(Value.Hash(hash.fields), Count(deleted)));
  }
}
