/**
 * Snapshots: the entries that rebuild what is visible, how many of them there
 * are, and why compaction never grows a log.
 */
module Snapshots {
  import opened Base
  import opened SortedSets
  import opened Values
  import opened Log

  // -------------------------------------------------------------- potential

  /** Entries needed to rebuild a value: one, or one per field of a hash; none for an empty collection. */
  function ValueWeight(v: Value): nat {
    match v
    case Str(_) => 1
    case Hash(fields) => |fields|
    case _ => if IsEmptyCollection(v) then 0 else 1
  }

  /** The deadline of a string travels inside its entry; any other costs an entry of its own. */
  function Weight(c: Cell): nat {
    (if c.value.Some? then ValueWeight(c.value.value) else 0)
    + (if c.ttl.Some? && (c.value.None? || !c.value.value.Str?) then 1 else 0)
  }

  /** The total weight of a set of keys. */
  ghost function TotalOver(st: State, keys: set<Key>): nat {
    if keys == {} then 0
    else
      var k :| k in keys;
      Weight(At(st, k)) + TotalOver(st, keys - {k})
  }

  ghost function Total(st: State): nat {
    TotalOver(st, st.data.Keys + st.ttl.Keys)
  }

  /** The total does not depend on the order in which keys are visited. */
  lemma {:induction false} TotalSplit(st: State, keys: set<Key>, k: Key)
    requires k in keys
    ensures TotalOver(st, keys) == Weight(At(st, k)) + TotalOver(st, keys - {k})
  {
    var j :| j in keys && TotalOver(st, keys) == Weight(At(st, j)) + TotalOver(st, keys - {j});
    if j != k {
      TotalSplit(st, keys - {j}, k);
      TotalSplit(st, keys - {k}, j);
      assert keys - {j} - {k} == keys - {k} - {j};
    }
  }

  /** Keys that weigh nothing may be left out. */
  lemma {:induction false} TotalOfSubset(st: State, keys: set<Key>, more: set<Key>)
    requires keys <= more && forall k :: k in more - keys ==> Weight(At(st, k)) == 0
    ensures TotalOver(st, more) == TotalOver(st, keys)
    decreases |more - keys|
  {
    if more - keys != {} {
      var k :| k in more - keys;
      TotalSplit(st, more, k);
      assert (more - {k}) - keys < more - keys;
      SubsetSize((more - {k}) - keys, more - keys);
      TotalOfSubset(st, keys, more - {k});
    } else {
      assert more == keys + (more - keys);
    }
  }

  /** Pointwise lighter is lighter in total. */
  lemma {:induction false} TotalMonotone(a: State, b: State, keys: set<Key>)
    requires forall k :: k in keys ==> Weight(At(a, k)) <= Weight(At(b, k))
    ensures TotalOver(a, keys) <= TotalOver(b, keys)
    decreases |keys|
  {
    if k :| k in keys {
      TotalSplit(a, keys, k);
      TotalSplit(b, keys, k);
      assert keys == (keys - {k}) + {k};
      TotalMonotone(a, b, keys - {k});
    }
  }

  /** The total, taken over any set of keys that covers the state. */
  lemma TotalOnCover(st: State, keys: set<Key>)
    requires st.data.Keys + st.ttl.Keys <= keys
    ensures Total(st) == TotalOver(st, keys)
  {
    TotalOfSubset(st, st.data.Keys + st.ttl.Keys, keys);
  }

  lemma LighterTotal(a: State, b: State)
    requires forall k :: Weight(At(a, k)) <= Weight(At(b, k))
    ensures Total(a) <= Total(b)
  {
    var keys := a.data.Keys + a.ttl.Keys + b.data.Keys + b.ttl.Keys;
    TotalOnCover(a, keys);
    TotalOnCover(b, keys);
    TotalMonotone(a, b, keys);
  }

  /** Replacing one key shifts the total by that key's difference. */
  lemma TotalPut(st: State, k: Key, c: Cell)
    ensures Total(Put(st, k, c)) == Total(st) - Weight(At(st, k)) + Weight(c)
  {
    var r := Put(st, k, c);
    var keys := st.data.Keys + st.ttl.Keys + r.data.Keys + r.ttl.Keys + {k};
    TotalOnCover(st, keys);
    TotalOnCover(r, keys);
    TotalSplit(st, keys, k);
    TotalSplit(r, keys, k);
    TotalMonotone(r, st, keys - {k});
    TotalMonotone(st, r, keys - {k});
  }

  // ------------------------------------------------- one entry, one unit more

  lemma FieldCount(m: map<string, string>, f: string, t: string)
    ensures |m[f := t]| <= |m| + 1
    ensures m[f := t] != map[]
  {
    assert m[f := t].Keys == m.Keys + {f};
    assert f in m[f := t];
  }

  /** No mutation adds more than one unit of weight. */
  lemma MutationWeight(v: Value, m: Mutation)
    requires Mutate(v, m).Ok?
    ensures !v.Str? && !Mutate(v, m).value.value.Str?
    ensures ValueWeight(Mutate(v, m).value.value) <= ValueWeight(v) + 1
  {
    if m.HSet? {
      FieldCount(v.fields, m.field, m.text);
    } else if m.HDel? {
      RestrictedSize(v.fields, Elements(m.fieldNames));
    }
  }

  /** Nor does an entry, on the key it names. */
  lemma CellWeight(c: Cell, e: WalEntry)
    requires !e.Del? && ApplyToCell(c, e).Ok?
    ensures Weight(ApplyToCell(c, e).value) <= Weight(c) + 1
  {
    if e.Mutation? && (c.value.Some? || Creates(e.mutation)) {
      MutationWeight(if c.value.Some? then c.value.value else Default(e.mutation), e.mutation);
    }
  }

  lemma EntryWeight(st: State, e: WalEntry)
    requires Apply(st, e).Ok?
    ensures Total(Apply(st, e).value) <= Total(st) + 1
  {
    if e.Del? {
      LighterTotal(Apply(st, e).value, st);
    } else {
      CellWeight(At(st, e.key), e);
      TotalPut(st, e.key, ApplyToCell(At(st, e.key), e).value);
    }
  }

  /** A state weighs no more than any log that replays to it. */
  lemma {:induction false} LogOutweighsState(log: seq<WalEntry>)
    requires Replay(log).Ok?
    ensures Total(Replay(log).value) <= |log|
  {
    if log != [] {
      LogOutweighsState(log[..|log| - 1]);
      EntryWeight(Replay(log[..|log| - 1]).value, log[|log| - 1]);
    }
  }

  // -------------------------------------------------------------- snapshots

  /** What one snapshot entry carries, whatever the order it lists members in. */
  datatype Unit =
    | Whole(key: Key, value: Value, ttl: Option<nat>)
    | Field(key: Key, field: string, text: string)
    | Deadline(key: Key, at: nat)
    | Other

  function UnitOf(e: WalEntry): Unit {
    match e
    case Set(key, value, expiry) => Whole(key, Value.Str(value), expiry)
    case Expire(key, at) => Deadline(key, at)
    case Mutation(key, m) => (
      match m
      case RPush(items) => Whole(key, Value.List(items), None)
      case SAdd(members) => Whole(key, Value.Set(Elements(members)), None)
      case ZAdd(pairs) => Whole(key, Value.ZSet(InsertAll(map[], pairs)), None)
      case HSet(f, t) => Field(key, f, t)
      case _ => Other)
    case _ => Other
  }

  /** No member is listed twice. */
  predicate Tidy(e: WalEntry) {
    if !e.Mutation? then true
    else match e.mutation
      case SAdd(members) => |Elements(members)| == |members|
      case ZAdd(pairs) => |InsertAll(map[], pairs)| == |pairs|
      case _ => true
  }

  predicate AllTidy(entries: seq<WalEntry>) {
    forall e :: e in entries ==> Tidy(e)
  }

  function Units(entries: seq<WalEntry>): set<Unit> {
    set e | e in entries :: UnitOf(e)
  }

  lemma UnitsOne(e: WalEntry)
    ensures Units([e]) == {UnitOf(e)}
  {
    assert e in [e];
  }

  lemma UnitsConcat(a: seq<WalEntry>, b: seq<WalEntry>)
    ensures Units(a + b) == Units(a) + Units(b)
  {
  }

  /** The units a value takes; the deadline of a string is part of its one unit. */
  function ValueUnits(key: Key, v: Value, ttl: Option<nat>): set<Unit> {
    match v
    case Str(_) => {Whole(key, v, ttl)}
    case Hash(fields) => set f | f in fields :: Field(key, f, fields[f])
    case _ => {Whole(key, v, None)}
  }

  function DeadlineUnits(key: Key, v: Value, ttl: Option<nat>): set<Unit> {
    if ttl.Some? && !v.Str? then {Deadline(key, ttl.value)} else {}
  }

  /** The units that make up a key. */
  function Needed(key: Key, c: Cell): set<Unit> {
    if c.value.None? then {}
    else ValueUnits(key, c.value.value, c.ttl) + DeadlineUnits(key, c.value.value, c.ttl)
  }

  function NeededBy(st: State, keys: set<Key>): set<Unit> {
    set k, u | k in keys && u in Needed(k, At(st, k)) :: u
  }

  /**
   * What `snapshot_entries` promises: replayed into an empty database the
   * entries give exactly what is visible, deadlines included; they carry the
   * units that make it up, and no others, listing no member twice; and there
   * are as many of them as it weighs. Database.SnapshotEntries produces such entries for every iteration
   * order of the tables.
   */
  ghost predicate IsSnapshot(st: State, now: nat, entries: seq<WalEntry>) {
    var shown := Visible(st, now);
    && Replay(entries) == Ok(shown)
    && Units(entries) == NeededBy(shown, shown.data.Keys) && AllTidy(entries)
    && |entries| == Total(shown)
  }

  /** Compaction never grows a log: the snapshot of what a log replays to is no longer than the log. */
  lemma CompactionNeverGrows(log: seq<WalEntry>, now: nat, entries: seq<WalEntry>)
    requires Replay(log).Ok? && IsSnapshot(Replay(log).value, now, entries)
    ensures |entries| <= |log|
  {
    var st := Replay(log).value;
    LogOutweighsState(log);
    LighterTotal(Visible(st, now), st);
  }

  /** A compacted log is minimal: no log replaying to the same visible state is shorter. */
  lemma SnapshotIsMinimal(st: State, now: nat, entries: seq<WalEntry>, other: seq<WalEntry>)
    requires IsSnapshot(st, now, entries)
    requires Replay(other).Ok? && Visible(Replay(other).value, now) == Visible(st, now)
    ensures |entries| <= |other|
  {
    LogOutweighsState(other);
    LighterTotal(Visible(st, now), Replay(other).value);
  }

  // ------------------------------------------------------ the same entries

  /** The same entry, up to the order in which it lists members. */
  predicate Rearranged(a: WalEntry, b: WalEntry) {
    a == b || (
      && a.Mutation? && b.Mutation? && a.key == b.key
      && ((a.mutation.SAdd? && b.mutation.SAdd? && multiset(a.mutation.members) == multiset(b.mutation.members))
          || (a.mutation.ZAdd? && b.mutation.ZAdd? && multiset(a.mutation.pairs) == multiset(b.mutation.pairs))))
  }

  lemma {:induction false} DistinctElements(s: seq<string>)
    ensures |Elements(s)| <= |s|
    ensures |Elements(s)| == |s| ==> multiset(s) == multiset(Elements(s))
  {
    if s != [] {
      var init, x := s[..|s| - 1], s[|s| - 1];
      DistinctElements(init);
      assert s == init + [x];
      assert Elements(s) == Elements(init) + {x};
    }
  }

  /** The pairs of a sorted set. */
  function Items(scores: map<string, Score>): set<(string, Score)> {
    set m | m in scores :: (m, scores[m])
  }

  lemma {:induction false} DistinctPairs(pairs: seq<(string, Score)>)
    ensures |InsertAll(map[], pairs)| <= |pairs|
    ensures |InsertAll(map[], pairs)| == |pairs| ==> multiset(pairs) == multiset(Items(InsertAll(map[], pairs)))
  {
    if pairs != [] {
      var init, p := pairs[..|pairs| - 1], pairs[|pairs| - 1];
      var before, scores := InsertAll(map[], init), InsertAll(map[], pairs);
      DistinctPairs(init);
      assert pairs == init + [p];
      assert scores.Keys == before.Keys + {p.0};
      if |scores| == |pairs| {
        assert p.0 !in before;
        assert Items(scores) == Items(before) + {p};
      }
    }
  }

  /** Tidy entries with the same unit are the same entry. */
  lemma SameUnit(a: WalEntry, b: WalEntry)
    requires Tidy(a) && Tidy(b) && UnitOf(a) == UnitOf(b) && !UnitOf(a).Other?
    ensures Rearranged(a, b)
  {
    if a.Mutation? {
      match a.mutation
      case SAdd(members) =>
        DistinctElements(members);
        DistinctElements(b.mutation.members);
      case ZAdd(pairs) =>
        DistinctPairs(pairs);
        DistinctPairs(b.mutation.pairs);
      case _ =>
    }
  }

  /** The units a visible key takes are as many as it weighs, and are its own. */
  lemma NeededSize(key: Key, c: Cell)
    requires c.value.Some? && !IsEmptyCollection(c.value.value)
    ensures |Needed(key, c)| == Weight(c)
    ensures forall u :: u in Needed(key, c) ==> !u.Other? && u.key == key
  {
    if c.value.value.Hash? {
      FieldSize(key, c.value.value.fields);
    }
    assert ValueUnits(key, c.value.value, c.ttl) !! DeadlineUnits(key, c.value.value, c.ttl);
  }

  lemma {:induction false} FieldSize(key: Key, fields: map<string, string>)
    ensures |ValueUnits(key, Value.Hash(fields), None)| == |fields|
    decreases |fields|
  {
    if f :| f in fields {
      var rest := fields - {f};
      assert fields.Keys == rest.Keys + {f};
      FieldSize(key, rest);
      assert ValueUnits(key, Value.Hash(fields), None)
        == ValueUnits(key, Value.Hash(rest), None) + {Field(key, f, fields[f])};
    }
  }

  lemma {:induction false} NeededBySize(st: State, keys: set<Key>)
    requires forall k :: k in keys ==> At(st, k).value.Some? && !IsEmptyCollection(At(st, k).value.value)
    ensures |NeededBy(st, keys)| == TotalOver(st, keys)
    ensures forall u :: u in NeededBy(st, keys) ==> !u.Other? && u.key in keys
  {
    if k :| k in keys {
      var rest := keys - {k};
      assert keys == rest + {k};
      NeededBySize(st, rest);
      NeededSize(k, At(st, k));
      TotalSplit(st, keys, k);
      NeededByOneMore(st, rest, k);
      Apart(NeededBy(st, rest), Needed(k, At(st, k)), rest, k);
    }
  }

  /** The units of one key more. */
  lemma NeededByOneMore(st: State, keys: set<Key>, k: Key)
    ensures NeededBy(st, keys + {k}) == NeededBy(st, keys) + Needed(k, At(st, k))
  {
  }

  /** Units of different keys are different. */
  lemma Apart(us: set<Unit>, more: set<Unit>, keys: set<Key>, k: Key)
    requires k !in keys && (forall u :: u in us ==> !u.Other? && u.key in keys)
    requires forall u :: u in more ==> !u.Other? && u.key == k
    ensures |us + more| == |us| + |more|
    ensures forall u :: u in us + more ==> !u.Other? && u.key in keys + {k}
  {
    assert us !! more;
  }

  /** The units of the entries, one for each. */
  function UnitList(entries: seq<WalEntry>): (us: seq<Unit>)
    ensures |us| == |entries| && forall i :: 0 <= i < |entries| ==> us[i] == UnitOf(entries[i])
  {
    seq(|entries|, i requires 0 <= i < |entries| => UnitOf(entries[i]))
  }

  lemma {:induction false} DistinctUnits(us: seq<Unit>)
    ensures |Elements(us)| <= |us|
    ensures |Elements(us)| == |us| ==> multiset(us) == multiset(Elements(us))
  {
    if us != [] {
      var init, u := us[..|us| - 1], us[|us| - 1];
      DistinctUnits(init);
      assert us == init + [u];
      assert Elements(us) == Elements(init) + {u};
    }
  }

  lemma ListsUnits(entries: seq<WalEntry>)
    ensures Elements(UnitList(entries)) == Units(entries)
    ensures forall e :: e in entries ==> UnitOf(e) in Units(entries)
  {
    var us := UnitList(entries);
    forall u | u in Units(entries) ensures u in us {
      var e :| e in entries && UnitOf(e) == u;
      var i :| 0 <= i < |entries| && entries[i] == e;
      assert us[i] == u;
    }
    forall u | u in us ensures u in Units(entries) {
      var i :| 0 <= i < |us| && us[i] == u;
      assert entries[i] in entries;
    }
  }

  /** The weight of what is visible is the number of units it takes. */
  lemma VisibleUnits(st: State, now: nat)
    ensures
      var shown := Visible(st, now);
      var needed := NeededBy(shown, shown.data.Keys);
      |needed| == Total(shown) && forall u :: u in needed ==> !u.Other?
  {
    var shown := Visible(st, now);
    forall k
      ensures k in shown.data ==> !IsEmptyCollection(shown.data[k])
      ensures k in shown.ttl ==> k in shown.data
    {
      assert At(shown, k) == VisibleCell(At(st, k), now);
    }
    assert shown.data.Keys + shown.ttl.Keys == shown.data.Keys;
    NeededBySize(shown, shown.data.Keys);
  }

  /** The entries of a snapshot carry different units, all of them accounted for. */
  lemma SnapshotUnits(st: State, now: nat, entries: seq<WalEntry>)
    requires IsSnapshot(st, now, entries)
    ensures |Units(entries)| == |entries| && multiset(UnitList(entries)) == multiset(Units(entries))
    ensures forall e :: e in entries ==> !UnitOf(e).Other?
  {
    VisibleUnits(st, now);
    ListsUnits(entries);
    DistinctUnits(UnitList(entries));
  }

  /**
   * Snapshotting a rebuilt database gives the same entries up to order: their
   * units are the same multiset, each unit once, and entries with the same
   * unit differ at most in the order in which they list members.
   */
  lemma SnapshotTwice(st: State, now: nat, entries: seq<WalEntry>, again: seq<WalEntry>)
    requires IsSnapshot(st, now, entries)
    requires IsSnapshot(Replay(entries).value, now, again)
    ensures Replay(again) == Replay(entries)
    ensures multiset(UnitList(again)) == multiset(UnitList(entries)) == multiset(Units(entries))
    ensures forall e, f :: e in entries && f in again && UnitOf(e) == UnitOf(f) ==> Rearranged(e, f)
  {
    SameState(Visible(Visible(st, now), now), Visible(st, now));
    SnapshotUnits(st, now, entries);
    SnapshotUnits(Replay(entries).value, now, again);
    forall e, f | e in entries && f in again && UnitOf(e) == UnitOf(f) ensures Rearranged(e, f) {
      SameUnit(e, f);
    }
  }

  // ------------------------------------------------------ entries for a key

  /** A state restricted to some keys. */
  function Only(st: State, keys: set<Key>): (r: State)
    ensures forall k :: At(r, k) == if k in keys then At(st, k) else ABSENT
  {
    State(map k | k in st.data && k in keys :: st.data[k], map k | k in st.ttl && k in keys :: st.ttl[k])
  }

  /** The entries for a value under a key, to be replayed where the key is missing. */
  method ValueEntries(key: Key, v: Value, expiry: Option<nat>, ghost base: State) returns (block: seq<WalEntry>)
    requires At(base, key) == ABSENT && !IsEmptyCollection(v)
    ensures ReplayFrom(base, block) == Ok(Put(base, key, Cell(Some(v), expiry)))
    ensures Units(block) == Needed(key, Cell(Some(v), expiry)) && AllTidy(block)
    ensures |block| == Weight(Cell(Some(v), expiry))
  {
    match v {
      case Str(bytes) =>
        block := [WalEntry.Set(key, bytes, expiry)];
        UnitsOne(block[0]);
        ReplayAppend(base, [], block[0]);
      case _ =>
        block := CollectionEntries(key, v, base);
        block := PushExpire(block, key, v, expiry, base);
    }
  }

  /** The entries that create a collection, without its deadline. */
  method CollectionEntries(key: Key, v: Value, ghost base: State) returns (block: seq<WalEntry>)
    requires At(base, key) == ABSENT && !v.Str? && !IsEmptyCollection(v)
    ensures ReplayFrom(base, block) == Ok(Put(base, key, Cell(Some(v), None)))
    ensures Units(block) == ValueUnits(key, v, None) && AllTidy(block) && |block| == ValueWeight(v)
  {
    match v {
      case Hash(fields) =>
        block := FieldEntries(key, fields, base);
      case List(items) =>
        block := CreatingEntry(key, RPush(items), base);
      case Set(members) =>
        var ms := SetInOrder(members);
        block := CreatingEntry(key, SAdd(ms), base);
      case ZSet(scores) =>
        var pairs := PairsInOrder(scores);
        block := CreatingEntry(key, ZAdd(pairs), base);
    }
  }

  /** The operations snapshots create lists, sets and sorted sets with. */
  predicate CreatesWhole(m: Mutation) {
    m.RPush? || m.SAdd? || m.ZAdd?
  }

  /** The collection such an operation makes of a missing key. */
  function Built(m: Mutation): Value
    requires CreatesWhole(m)
  {
    match m
    case RPush(items) => Value.List(items)
    case SAdd(members) => Value.Set(Elements(members))
    case ZAdd(pairs) => Value.ZSet(InsertAll(map[], pairs))
  }

  lemma Builds(key: Key, m: Mutation)
    requires CreatesWhole(m)
    ensures ApplyToCell(ABSENT, WalEntry.Mutation(key, m)) == Ok(Cell(Some(Built(m)), None))
    ensures UnitOf(WalEntry.Mutation(key, m)) == Whole(key, Built(m), None)
  {
    match m
    case RPush(items) => assert [] + items == items;
    case SAdd(members) => assert {} + Elements(members) == Elements(members);
    case ZAdd(_) =>
  }

  /** The one entry that creates a collection. */
  method CreatingEntry(key: Key, m: Mutation, ghost base: State) returns (block: seq<WalEntry>)
    requires At(base, key) == ABSENT && CreatesWhole(m) && Tidy(WalEntry.Mutation(key, m))
    ensures ReplayFrom(base, block) == Ok(Put(base, key, Cell(Some(Built(m)), None)))
    ensures |block| == 1 && Units(block) == {Whole(key, Built(m), None)} && AllTidy(block)
  {
    block := [WalEntry.Mutation(key, m)];
    Builds(key, m);
    UnitsOne(block[0]);
    assert [] + block == block;
    ReplayAppend(base, [], block[0]);
  }

  /** The deadline follows the entries that create its key. */
  method PushExpire(block: seq<WalEntry>, key: Key, ghost v: Value, expiry: Option<nat>, ghost base: State)
    returns (r: seq<WalEntry>)
    requires !v.Str? && ReplayFrom(base, block) == Ok(Put(base, key, Cell(Some(v), None))) && AllTidy(block)
    ensures ReplayFrom(base, r) == Ok(Put(base, key, Cell(Some(v), expiry)))
    ensures |r| == |block| + if expiry.Some? then 1 else 0
    ensures Units(r) == Units(block) + DeadlineUnits(key, v, expiry) && AllTidy(r)
  {
    r := block;
    match expiry {
      case None =>
      case Some(at) =>
        r := r + [WalEntry.Expire(key, at)];
        ExpireReplayed(block, key, v, at, base);
        ExpireUnits(block, key, at);
    }
  }

  lemma ExpireReplayed(block: seq<WalEntry>, key: Key, v: Value, at: nat, base: State)
    requires ReplayFrom(base, block) == Ok(Put(base, key, Cell(Some(v), None)))
    ensures ReplayFrom(base, block + [WalEntry.Expire(key, at)]) == Ok(Put(base, key, Cell(Some(v), Some(at))))
  {
    ReplayAppend(base, block, WalEntry.Expire(key, at));
    PutTwice(base, key, Cell(Some(v), None), Cell(Some(v), Some(at)));
  }

  lemma ExpireUnits(block: seq<WalEntry>, key: Key, at: nat)
    requires AllTidy(block)
    ensures Units(block + [WalEntry.Expire(key, at)]) == Units(block) + {Deadline(key, at)}
    ensures AllTidy(block + [WalEntry.Expire(key, at)])
  {
    UnitsOne(WalEntry.Expire(key, at));
    UnitsConcat(block, [WalEntry.Expire(key, at)]);
  }

  lemma PutTwice(st: State, key: Key, c: Cell, d: Cell)
    ensures Put(Put(st, key, c), key, d) == Put(st, key, d)
  {
    SameState(Put(Put(st, key, c), key, d), Put(st, key, d));
  }

  /** The members of a set, in some order. */
  method SetInOrder(members: set<string>) returns (ms: seq<string>)
    ensures Elements(ms) == members && |ms| == |members|
  {
    ms := [];
    var rest := members;
    while rest != {}
      invariant rest <= members && Elements(ms) == members - rest && |ms| == |members| - |rest|
    {
      var m :| m in rest;
      assert Elements(ms + [m]) == Elements(ms) + {m};
      ms, rest := ms + [m], rest - {m};
    }
  }

  /** The (member, score) pairs of a sorted set, in some order (ascending, say). */
  method PairsInOrder(scores: map<string, Score>) returns (pairs: seq<(string, Score)>)
    ensures InsertAll(map[], pairs) == scores && |pairs| == |scores|
  {
    pairs := [];
    var rest := scores.Keys;
    while rest != {}
      invariant rest <= scores.Keys && InsertAll(map[], pairs) == scores - rest
      invariant |pairs| == |scores| - |rest|
    {
      var m :| m in rest;
      assert (pairs + [(m, scores[m])])[..|pairs|] == pairs;
      pairs, rest := pairs + [(m, scores[m])], rest - {m};
    }
  }

  /** A hash with some fields restored; with none yet, the key is still missing. */
  function Restored(done: map<string, string>): Cell {
    if done == map[] then ABSENT else Cell(Some(Value.Hash(done)), None)
  }

  /** The entries so far restore all fields but `rest`. */
  ghost predicate RestoresAllBut(base: State, block: seq<WalEntry>, key: Key, fields: map<string, string>,
    rest: set<string>)
  {
    && |block| == |fields - rest| && AllTidy(block)
    && Units(block) == ValueUnits(key, Value.Hash(fields - rest), None)
    && ReplayFrom(base, block) == Ok(Put(base, key, Restored(fields - rest)))
  }

  lemma RestoreNone(base: State, key: Key, fields: map<string, string>)
    requires At(base, key) == ABSENT
    ensures RestoresAllBut(base, [], key, fields, fields.Keys)
  {
    assert fields - fields.Keys == map[];
    SameState(base, Put(base, key, ABSENT));
  }

  lemma RestoreAll(base: State, block: seq<WalEntry>, key: Key, fields: map<string, string>)
    requires fields != map[] && RestoresAllBut(base, block, key, fields, {})
    ensures ReplayFrom(base, block) == Ok(Put(base, key, Cell(Some(Value.Hash(fields)), None)))
    ensures |block| == |fields| && Units(block) == ValueUnits(key, Value.Hash(fields), None) && AllTidy(block)
  {
    assert fields - {} == fields;
  }

  lemma RestoreField(base: State, block: seq<WalEntry>, key: Key, fields: map<string, string>, rest: set<string>,
    f: string)
    requires RestoresAllBut(base, block, key, fields, rest) && f in rest && rest <= fields.Keys
    ensures RestoresAllBut(base, block + [WalEntry.Mutation(key, HSet(f, fields[f]))], key, fields, rest - {f})
  {
    var e, done, more := WalEntry.Mutation(key, HSet(f, fields[f])), fields - rest, fields - (rest - {f});
    assert more == done[f := fields[f]];
    assert more.Keys == done.Keys + {f};
    assert f in more;
    UnitsConcat(block, [e]);
    FieldUnits(key, done, f, fields[f]);
    ReplayAppend(base, block, e);
    ApplyField(done, key, f, fields[f]);
    ApplyAtKey(base, key, Restored(done), e, Restored(more));
  }

  lemma FieldUnits(key: Key, done: map<string, string>, f: string, t: string)
    requires f !in done
    ensures ValueUnits(key, Value.Hash(done[f := t]), None)
      == ValueUnits(key, Value.Hash(done), None) + Units([WalEntry.Mutation(key, HSet(f, t))])
  {
    var more := done[f := t];
    assert WalEntry.Mutation(key, HSet(f, t)) in [WalEntry.Mutation(key, HSet(f, t))];
    assert f in more;
    assert forall g :: g in done ==> g in more && more[g] == done[g];
  }

  lemma ApplyField(done: map<string, string>, key: Key, f: string, t: string)
    ensures ApplyToCell(Restored(done), WalEntry.Mutation(key, HSet(f, t))) == Ok(Restored(done[f := t]))
  {
    assert f in done[f := t];
  }

  lemma ApplyAtKey(base: State, key: Key, c: Cell, e: WalEntry, d: Cell)
    requires !e.Del? && e.key == key && ApplyToCell(c, e) == Ok(d)
    ensures Apply(Put(base, key, c), e) == Ok(Put(base, key, d))
  {
    PutTwice(base, key, c, d);
  }

  /** One entry per field of a hash, in some order. */
  method FieldEntries(key: Key, fields: map<string, string>, ghost base: State) returns (block: seq<WalEntry>)
    requires fields != map[] && At(base, key) == ABSENT
    ensures ReplayFrom(base, block) == Ok(Put(base, key, Cell(Some(Value.Hash(fields)), None)))
    ensures |block| == |fields| && Units(block) == ValueUnits(key, Value.Hash(fields), None) && AllTidy(block)
  {
    block := [];
    var rest := fields.Keys;
    RestoreNone(base, key, fields);
    while rest != {}
      invariant rest <= fields.Keys
      invariant RestoresAllBut(base, block, key, fields, rest)
    {
      var f :| f in rest;
      RestoreField(base, block, key, fields, rest, f);
      block := block + [WalEntry.Mutation(key, HSet(f, fields[f]))];
      rest := rest - {f};
    }
    RestoreAll(base, block, key, fields);
  }

  /** The entries cover the keys done, exactly. */
  ghost predicate Covers(shown: State, done: set<Key>, entries: seq<WalEntry>) {
    && Replay(entries) == Ok(Only(shown, done))
    && Units(entries) == NeededBy(shown, done) && AllTidy(entries)
    && |entries| == TotalOver(shown, done)
  }

  /** The block of one key more, behind those of the keys done. */
  lemma OneKeyMore(shown: State, done: set<Key>, key: Key, entries: seq<WalEntry>, block: seq<WalEntry>)
    requires key !in done && Covers(shown, done, entries)
    requires ReplayFrom(Only(shown, done), block) == Ok(Put(Only(shown, done), key, At(shown, key)))
    requires Units(block) == Needed(key, At(shown, key)) && AllTidy(block) && |block| == Weight(At(shown, key))
    ensures Covers(shown, done + {key}, entries + block)
  {
    ReplayConcat(EMPTY, entries, block);
    OnlyOneMore(shown, done, key);
    TotalSplit(shown, done + {key}, key);
    assert done + {key} - {key} == done;
    UnitsConcat(entries, block);
    NeededByOneMore(shown, done, key);
  }

  lemma OnlyOneMore(shown: State, done: set<Key>, key: Key)
    ensures Put(Only(shown, done), key, At(shown, key)) == Only(shown, done + {key})
  {
    SameState(Put(Only(shown, done), key, At(shown, key)), Only(shown, done + {key}));
  }

  lemma CoversNothing(shown: State)
    ensures Covers(shown, {}, [])
  {
    SameState(Only(shown, {}), EMPTY);
  }

  /** Once all keys of the data table are done, nothing visible is missing. */
  lemma CoversAll(st: State, now: nat, entries: seq<WalEntry>)
    requires Covers(Visible(st, now), st.data.Keys, entries)
    ensures IsSnapshot(st, now, entries)
  {
    var shown := Visible(st, now);
    assert forall k :: k !in st.data ==> At(shown, k) == ABSENT;
    SameState(Only(shown, st.data.Keys), shown);
    forall k ensures k in shown.data ==> k in st.data {
      assert k !in st.data ==> At(shown, k) == ABSENT;
    }
    assert forall k :: k in st.data && k !in shown.data ==> Needed(k, At(shown, k)) == {};
    assert NeededBy(shown, st.data.Keys) == NeededBy(shown, shown.data.Keys);
    forall k ensures k in shown.ttl ==> k in st.data {
      assert k !in st.data ==> At(shown, k) == ABSENT;
    }
    TotalOnCover(shown, st.data.Keys);
  }
}
