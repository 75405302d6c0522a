/**
 * The database object: two shared tables and the log counters, updated in
 * place by the commands, the sweep, compaction and startup replay. Every
 * method is held to the cell-wise specification of Keyspace and Log.
 */
module Database {
  import opened Base
  import opened Strings
  import opened Values
  import opened Log
  import opened Keyspace
  import opened Snapshots
  import Effects
  import InPlace
  import opened Writer
  import opened Compaction

  /** States that differ in one key only. */
  lemma OneKeyChanged(a: State, b: State, key: Key, c: Cell)
    requires At(b, key) == c && forall j :: j != key ==> At(b, j) == At(a, j)
    ensures b == Put(a, key, c)
  {
    SameState(b, Put(a, key, c));
  }

  /** Deleting the next of a list of keys: it counts if it is there and has not been deleted before. */
  lemma DeleteOneMore(st: State, keys: seq<Key>, i: nat)
    requires i < |keys|
    ensures
      var done, next, d := Elements(keys[..i]), Elements(keys[..i + 1]), Keyspace.Delete(st, Elements(keys[..i]));
      && Keyspace.Delete(st, next) == Put(d, keys[i], DeleteCell(At(d, keys[i])))
      && |next * st.data.Keys| == |done * st.data.Keys| + if keys[i] in d.data then 1 else 0
  {
    var done, key := Elements(keys[..i]), keys[i];
    var d := Keyspace.Delete(st, done);
    assert Elements(keys[..i + 1]) == done + {key};
    DeleteOne(st, done, key);
    CountOneMore(st.data.Keys, done, key);
  }

  lemma DeleteOne(st: State, done: set<Key>, key: Key)
    ensures var d := Keyspace.Delete(st, done);
      Keyspace.Delete(st, done + {key}) == Put(d, key, DeleteCell(At(d, key)))
  {
    var d := Keyspace.Delete(st, done);
    SameState(Keyspace.Delete(st, done + {key}), Put(d, key, DeleteCell(At(d, key))));
  }

  lemma CountOneMore(present: set<Key>, done: set<Key>, key: Key)
    ensures |(done + {key}) * present| == |done * present| + if key in present - done then 1 else 0
  {
    if key in present - done {
      assert (done + {key}) * present == done * present + {key};
    } else {
      assert (done + {key}) * present == done * present;
    }
  }

  /** Lazy deletion of one key more. */
  lemma LapseOneMore(st: State, done: set<Key>, key: Key, now: nat)
    ensures
      var d := Keyspace.Delete(st, done * ExpiredKeys(st, now));
      && Keyspace.Delete(st, (done + {key}) * ExpiredKeys(st, now)) == Put(d, key, Lapse(At(d, key), now))
      && (At(d, key).value.Some? && !Expired(At(d, key), now)
          <==> At(st, key).value.Some? && !Expired(At(st, key), now))
  {
    var d := Keyspace.Delete(st, done * ExpiredKeys(st, now));
    assert key in ExpiredKeys(st, now) <==> Expired(At(st, key), now);
    SameState(Keyspace.Delete(st, (done + {key}) * ExpiredKeys(st, now)), Put(d, key, Lapse(At(d, key), now)));
  }

  /** A creating operation, on what lazy expiry leaves of its key. */
  lemma ExecCreating(st: State, now: nat, key: Key, m: Values.Mutation)
    requires Creates(m)
    ensures
      var c := Lapse(At(st, key), now);
      var o := if HasArguments(m) then MutateCell(c, key, c.value.GetOr(Default(m)), m)
        else Outcome(c, NoArgumentsReply(c, m), None);
      Exec(st, now, Command.Mutation(key, m)) == Effect(Put(st, key, o.cell), o.reply, o.entry)
  {
  }

  class RedisWasmDb {
    var data: map<Key, Value>
    var expiries: map<Key, nat>
    var walLen: nat
    var threshold: nat
    var lastCompactLen: nat
    var inFlight: Option<InFlight>

    constructor ()
      ensures View() == Db(EMPTY, 0, DEFAULT_COMPACTION_THRESHOLD, 0, None)
    {
      data, expiries := map[], map[];
      walLen, threshold, lastCompactLen, inFlight := 0, DEFAULT_COMPACTION_THRESHOLD, 0, None;
    }

    /** The keyspace. */
    function Live(): State
      reads this
    {
      State(data, expiries)
    }

    /** The keyspace and the counters. */
    function View(): Db
      reads this
    {
      Db(Live(), walLen, threshold, lastCompactLen, inFlight)
    }

    predicate IsExpired(key: Key, now: nat)
      reads this
    {
      key in expiries && now >= expiries[key]
    }

    // ------------------------------------------------------------- deletion

    /** Removes a value and, only along with it, its deadline. */
    method DeleteKey(key: Key) returns (removed: bool)
      modifies this`data, this`expiries
      ensures Live() == Put(old(Live()), key, DeleteCell(At(old(Live()), key)))
      ensures removed <==> key in old(data)
    {
      ghost var before := Live();
      removed := key in data;
      if removed {
        data := data - {key};
        expiries := expiries - {key};
      }
      OneKeyChanged(before, Live(), key, DeleteCell(At(before, key)));
    }

    /** Deletes keys and counts those that were there; a deadline goes along with its value. */
    method Delete(keys: seq<Key>) returns (count: nat)
      modifies this`data, this`expiries
      ensures Live() == Keyspace.Delete(old(Live()), Elements(keys))
      ensures count == |Elements(keys) * old(data).Keys|
    {
      count := 0;
      ghost var before := Live();
      SameState(before, Keyspace.Delete(before, {}));
      for i := 0 to |keys|
        invariant Live() == Keyspace.Delete(before, Elements(keys[..i]))
        invariant count == |Elements(keys[..i]) * before.data.Keys|
      {
        DeleteOneMore(before, keys, i);
        var removed := DeleteKey(keys[i]);
        if removed {
          count := count + 1;
        }
      }
      assert keys[..|keys|] == keys;
    }

    /** Lazy expiry, as most commands begin. */
    method DeleteIfExpired(key: Key, now: nat) returns (wasExpired: bool)
      modifies this`data, this`expiries
      ensures wasExpired <==> Expired(At(old(Live()), key), now)
      ensures Live() == Put(old(Live()), key, Lapse(At(old(Live()), key), now))
    {
      wasExpired := IsExpired(key, now);
      ghost var before := Live();
      if wasExpired {
        var _ := Delete([key]);
        assert key in Elements([key]) && forall j :: j in Elements([key]) ==> j == key;
      }
      OneKeyChanged(before, Live(), key, Lapse(At(before, key), now));
    }

    // -------------------------------------------------------------- commands

    method Set(now: nat, key: Key, value: bytes) returns (reply: Reply, entry: Option<WalEntry>)
      modifies this`data, this`expiries
      ensures Effect(Live(), reply, entry) == Exec(old(Live()), now, Command.Set(key, value))
    {
      ghost var before := Live();
      expiries := expiries - {key};
      data := data[key := Value.Str(value)];
      OneKeyChanged(before, Live(), key, Cell(Some(Value.Str(value)), None));
      reply, entry := Answered(Done), Some(WalEntry.Set(key, value, None));
    }

    method Del(now: nat, keys: seq<Key>) returns (reply: Reply, entry: Option<WalEntry>)
      modifies this`data, this`expiries
      ensures Effect(Live(), reply, entry) == Exec(old(Live()), now, Command.Del(keys))
    {
      ghost var present := Elements(keys) * data.Keys;
      var count := Delete(keys);
      assert count == 0 <==> present == {};
      reply := Answered(Answer.Count(count));
      entry := if count > 0 then Some(WalEntry.Del(keys)) else None;
    }

    /** The string under a key, created empty if missing; None for another kind of value. */
    method StringEntry(key: Key) returns (s: Option<bytes>)
      modifies this`data
      ensures var v := StringOrNew(At(old(Live()), key));
        && s == (if v.Str? then Some(v.bytes) else None)
        && Live() == Put(old(Live()), key, At(old(Live()), key).(value := Some(v)))
    {
      ghost var before := Live();
      if key !in data {
        data := data[key := Value.Str([])];
      }
      OneKeyChanged(before, Live(), key, At(before, key).(value := Some(StringOrNew(At(before, key)))));
      match data[key]
      case Str(bytes) => s := Some(bytes);
      case _ => s := None;
    }

    /** Stores a changed string and logs it whole, with its deadline. */
    method StoreString(key: Key, updated: bytes, n: int) returns (reply: Reply, entry: Option<WalEntry>)
      modifies this`data
      ensures var o := Store(key, At(old(Live()), key), updated, n);
        Effect(Live(), reply, entry) == Effect(Put(old(Live()), key, o.cell), o.reply, o.entry)
    {
      ghost var before := Live();
      data := data[key := Value.Str(updated)];
      OneKeyChanged(before, Live(), key, At(before, key).(value := Some(Value.Str(updated))));
      reply, entry := Answered(Answer.Count(n)), Some(WalEntry.Set(key, updated, Lookup(expiries, key)));
    }

    method Append(now: nat, key: Key, suffix: bytes) returns (reply: Reply, entry: Option<WalEntry>)
      modifies this`data, this`expiries
      ensures Effect(Live(), reply, entry) == Exec(old(Live()), now, Command.Append(key, suffix))
    {
      ghost var before := Live();
      var _ := DeleteIfExpired(key, now);
      var s := StringEntry(key);
      match s {
        case None =>
          reply, entry := Failed(DbError.WrongType), None;
        case Some(bytes) =>
          var value := new StringValue(bytes);
          var len := value.Append(suffix);
          match len {
            case None => reply, entry := Failed(DbError.StringTooLarge), None;
            case Some(n) => reply, entry := StoreString(key, value.value, n);
          }
      }
      OneKeyChanged(before, Live(), key, ExecAppend(At(before, key), now, key, suffix).cell);
    }

    method SetRange(now: nat, key: Key, offset: nat, patch: bytes) returns (reply: Reply, entry: Option<WalEntry>)
      modifies this`data, this`expiries
      ensures Effect(Live(), reply, entry) == Exec(old(Live()), now, Command.SetRange(key, offset, patch))
    {
      ghost var before := Live();
      var _ := DeleteIfExpired(key, now);
      if patch == [] {
        if key !in data {
          reply := Answered(Answer.Count(0));
        } else {
          match data[key]
          case Str(bytes) => reply := Answered(Answer.Count(|bytes|));
          case _ => reply := Failed(DbError.WrongType);
        }
        entry := None;
      } else {
        var s := StringEntry(key);
        match s {
          case None =>
            reply, entry := Failed(DbError.WrongType), None;
          case Some(bytes) =>
            var value := new StringValue(bytes);
            var len := value.SetRange(offset, patch);
            match len {
              case None => reply, entry := Failed(DbError.StringTooLarge), None;
              case Some(n) => reply, entry := StoreString(key, value.value, n);
            }
        }
      }
      OneKeyChanged(before, Live(), key, ExecSetRange(At(before, key), now, key, offset, patch).cell);
    }

    method IncrBy(now: nat, key: Key, delta: i64) returns (reply: Reply, entry: Option<WalEntry>)
      modifies this`data, this`expiries
      ensures Effect(Live(), reply, entry) == Exec(old(Live()), now, Command.IncrBy(key, delta))
    {
      ghost var before := Live();
      var _ := DeleteIfExpired(key, now);
      var s := StringEntry(key);
      match s {
        case None =>
          reply, entry := Failed(DbError.WrongType), None;
        case Some(bytes) =>
          match Increment(bytes, delta) {
            case None =>
              reply, entry := Failed(DbError.NotAnInteger), None;
            case Some(n) =>
              reply, entry := StoreString(key, FormatInt(n), n);
          }
      }
      OneKeyChanged(before, Live(), key, ExecIncrBy(At(before, key), now, key, delta).cell);
    }

    /** LPUSH, RPUSH, SADD, ZADD, HSET: they create a missing key. */
    method Add(now: nat, key: Key, m: Values.Mutation) returns (reply: Reply, entry: Option<WalEntry>)
      requires Creates(m)
      modifies this`data, this`expiries
      ensures Effect(Live(), reply, entry) == Exec(old(Live()), now, Command.Mutation(key, m))
    {
      ghost var before := Live();
      var _ := DeleteIfExpired(key, now);
      ghost var c := At(Live(), key);
      ExecCreating(before, now, key, m);
      if !HasArguments(m) {
        reply, entry := NoArgumentsReply(At(Live(), key), m), None;
      } else {
        var v := if key in data then data[key] else Default(m);
        reply, entry := MutateInPlace(key, v, m);
        PutTwice(before, key, c, MutateCell(c, key, v, m).cell);
      }
    }

    /** LPOP, RPOP, LSET, LREM, LTRIM, SREM, ZREM, HDEL: they need the key. */
    method Change(now: nat, key: Key, m: Values.Mutation) returns (reply: Reply, entry: Option<WalEntry>)
      requires !Creates(m)
      modifies this`data, this`expiries
      ensures Effect(Live(), reply, entry) == Exec(old(Live()), now, Command.Mutation(key, m))
    {
      ghost var before := Live();
      var lapsed := DeleteIfExpired(key, now);
      ghost var c := At(Live(), key);
      if lapsed {
        reply, entry := LapsedReply(m), None;
      } else if key !in data {
        reply, entry := Failed(KeyNotFound), None;
      } else {
        ghost var v := data[key];
        reply, entry := MutateInPlace(key, data[key], m);
        PutTwice(before, key, c, MutateCell(c, key, v, m).cell);
      }
    }

    /** The key's value, or the fresh one inserted for it, is changed in place; the entry is made if it changed. */
    method MutateInPlace(key: Key, v: Value, m: Values.Mutation) returns (reply: Reply, entry: Option<WalEntry>)
      modifies this`data
      ensures var o := MutateCell(At(old(Live()), key), key, v, m);
        Effect(Live(), reply, entry) == Effect(Put(old(Live()), key, o.cell), o.reply, o.entry)
    {
      var r := InPlace.Perform(v, m);
      reply, entry := StoreResult(key, v, m, r);
    }

    /** What an operation left, or what it failed on, is under the key; the entry is made if it changed something. */
    method StoreResult(key: Key, v: Value, m: Values.Mutation, r: Result<Mutated, TypeError>)
      returns (reply: Reply, entry: Option<WalEntry>)
      modifies this`data
      ensures var o := Conclude(At(old(Live()), key), key, v, m, r);
        Effect(Live(), reply, entry) == Effect(Put(old(Live()), key, o.cell), o.reply, o.entry)
    {
      ghost var before := Live();
      data := data[key := v];
      match r {
        case Err(e) =>
          reply, entry := Failed(AsDbError(e)), None;
        case Ok(done) =>
          data := data[key := done.value];
          reply := Answered(done.answer);
          entry := if Logged(m, done.answer) then Some(WalEntry.Mutation(key, m)) else None;
      }
      OneKeyChanged(before, Live(), key, Conclude(At(before, key), key, v, m, r).cell);
    }

    /** PEXPIRE; EXPIRE passes its seconds in milliseconds, saturating. */
    method SetDeadline(now: nat, key: Key, milliseconds: nat) returns (reply: Reply, entry: Option<WalEntry>)
      modifies this`expiries
      ensures var o := ExecExpire(At(old(Live()), key), now, key, milliseconds);
        Effect(Live(), reply, entry) == Effect(Put(old(Live()), key, o.cell), o.reply, o.entry)
    {
      ghost var before := Live();
      if key !in data || IsExpired(key, now) {
        reply, entry := Bool(false), None;
      } else {
        var at := Min(now + milliseconds, U64_MAX);
        expiries := expiries[key := at];
        reply, entry := Bool(true), Some(WalEntry.Expire(key, at));
      }
      OneKeyChanged(before, Live(), key, ExecExpire(At(before, key), now, key, milliseconds).cell);
    }

    method Persist(now: nat, key: Key) returns (reply: Reply, entry: Option<WalEntry>)
      modifies this`expiries
      ensures Effect(Live(), reply, entry) == Exec(old(Live()), now, Command.Persist(key))
    {
      ghost var before := Live();
      if key !in data || IsExpired(key, now) || key !in expiries {
        reply, entry := Bool(false), None;
      } else {
        expiries := expiries - {key};
        reply, entry := Bool(true), Some(WalEntry.Persist(key));
      }
      OneKeyChanged(before, Live(), key, ExecPersist(At(before, key), now, key).cell);
    }

    /** EXISTS: deletes lapsed keys it meets and counts the others that are there. Reads of one key do as it does. */
    method Exists(now: nat, keys: seq<Key>) returns (count: nat)
      modifies this`data, this`expiries
      ensures Live() == Exec(old(Live()), now, Read(Elements(keys))).state
      ensures count == CountVisible(old(Live()), now, keys)
    {
      count := 0;
      ghost var before := Live();
      SameState(before, Keyspace.Delete(before, {}));
      assert Elements(keys[..0]) * ExpiredKeys(before, now) == {};
      for i := 0 to |keys|
        invariant Live() == Keyspace.Delete(before, Elements(keys[..i]) * ExpiredKeys(before, now))
        invariant count == CountVisible(before, now, keys[..i])
      {
        assert keys[..i + 1][..i] == keys[..i];
        assert Elements(keys[..i + 1]) == Elements(keys[..i]) + {keys[i]};
        LapseOneMore(before, Elements(keys[..i]), keys[i], now);
        var lapsed := DeleteIfExpired(keys[i], now);
        if !lapsed && keys[i] in data {
          count := count + 1;
        }
      }
      assert keys[..|keys|] == keys;
    }

    /** What reads of several keys do to the keyspace. */
    method Touch(now: nat, touched: set<Key>)
      modifies this`data, this`expiries
      ensures Live() == Exec(old(Live()), now, Read(touched)).state
    {
      ghost var before := Live();
      ghost var done: set<Key> := {};
      var rest := touched;
      SameState(before, Keyspace.Delete(before, {}));
      assert {} * ExpiredKeys(before, now) == {};
      while rest != {}
        invariant rest !! done && rest + done == touched
        invariant Live() == Keyspace.Delete(before, done * ExpiredKeys(before, now))
      {
        var key :| key in rest;
        LapseOneMore(before, done, key, now);
        var _ := DeleteIfExpired(key, now);
        rest, done := rest - {key}, done + {key};
      }
      assert done == touched;
    }

    // ----------------------------------------------------------------- sweep

    /** `remove_key_if_expired`: the callback of the sweep. */
    method RemoveKeyIfExpired(key: Key, now: nat)
      modifies this`data
      ensures data == if old(IsExpired(key, now)) then old(data) - {key} else old(data)
    {
      if IsExpired(key, now) {
        data := data - {key};
      }
    }

    /** One pass: the expired keys are collected, then value and deadline removed one key at a time. */
    method Sweep(now: nat)
      modifies this`data, this`expiries
      ensures Live() == Exec(old(Live()), now, Command.Sweep).state
    {
      ghost var gone := ExpiredKeys(Live(), now);
      var expired := set k | k in expiries && expiries[k] <= now;
      while expired != {}
        invariant expired <= gone
        invariant expired == ExpiredKeys(Live(), now)
        invariant data == old(data) - (gone - expired)
        invariant expiries == old(expiries) - (gone - expired)
      {
        var key :| key in expired;
        RemoveKeyIfExpired(key, now);
        if key in expiries && expiries[key] <= now {
          expiries := expiries - {key};
        }
        assert gone - (expired - {key}) == (gone - expired) + {key};
        expired := expired - {key};
      }
      assert gone - {} == gone;
    }

    // -------------------------------------------------------------- snapshot

    /**
     * `snapshot_entries`: the tables, sets and hashes are visited in an
     * arbitrary order. Whatever the order, the entries rebuild exactly what
     * is visible, in as many entries as it weighs.
     */
    method SnapshotEntries(now: nat) returns (entries: seq<WalEntry>)
      ensures IsSnapshot(Live(), now, entries)
    {
      entries := [];
      ghost var shown := Visible(Live(), now);
      ghost var done: set<Key> := {};
      var rest := data.Keys;
      CoversNothing(shown);
      while rest != {}
        invariant rest !! done && rest + done == data.Keys
        invariant Covers(shown, done, entries)
      {
        var key :| key in rest;
        var block := KeyEntries(key, now, Only(shown, done));
        OneKeyMore(shown, done, key, entries, block);
        entries, rest, done := entries + block, rest - {key}, done + {key};
      }
      CoversAll(Live(), now, entries);
    }

    /** The entries for one key, to be replayed where the key is missing: none unless it is visible. */
    method KeyEntries(key: Key, now: nat, ghost base: State) returns (block: seq<WalEntry>)
      requires key in data && At(base, key) == ABSENT
      ensures ReplayFrom(base, block) == Ok(Put(base, key, VisibleCell(At(Live(), key), now)))
      ensures Units(block) == Needed(key, VisibleCell(At(Live(), key), now)) && AllTidy(block)
      ensures |block| == Weight(VisibleCell(At(Live(), key), now))
    {
      if IsExpired(key, now) || IsEmptyCollection(data[key]) {
        SameState(base, Put(base, key, ABSENT));
        block := [];
      } else {
        block := ValueEntries(key, data[key], Lookup(expiries, key), base);
      }
    }

    // ------------------------------------------------------------ compaction

    /** `compact` up to the point where it waits: snapshot, counter swapped, rewrite queued. */
    method BeginCompact(now: nat, id: nat, automatic: bool) returns (sent: seq<WalCommand>)
      modifies this`walLen, this`inFlight
      ensures CompactSends(old(View()), now, sent)
      ensures View() == AfterCompact(old(View()), sent, automatic)
    {
      if inFlight.Some? {
        return [];
      }
      var entries := SnapshotEntries(now);
      var prevLen := walLen;
      walLen := |entries|;
      inFlight := Some(InFlight(prevLen, |entries|, automatic));
      sent := [Rewrite(entries, id)];
    }

    /** The rest of `compact`, once the writer has replied. */
    method FinishCompact(ok: bool)
      requires inFlight.Some?
      modifies this`walLen, this`lastCompactLen, this`inFlight
      ensures View() == Finish(old(View()), ok)
    {
      var f := inFlight.value;
      if ok {
        lastCompactLen := f.snapshotLen;
      } else if f.prevLen > f.snapshotLen {
        walLen := walLen + (f.prevLen - f.snapshotLen);
      }
      inFlight := None;
    }

    method CompactIfNeeded(now: nat, id: nat) returns (sent: seq<WalCommand>)
      modifies this`walLen, this`inFlight
      ensures if old(Due(View())) then CompactSends(old(View()), now, sent) else sent == []
      ensures View() == AfterCompact(old(View()), sent, true)
    {
      if threshold == 0 {
        return [];
      }
      if walLen >= threshold && walLen >= lastCompactLen * 2 {
        sent := BeginCompact(now, id, true);
      } else {
        sent := [];
      }
    }

    /** Queues an append, counts it, and compacts if that is now due. */
    method WriteWal(now: nat, id: nat, entry: WalEntry) returns (sent: seq<WalCommand>)
      modifies this`walLen, this`inFlight
      ensures WriteSends(old(View()), now, entry, sent)
      ensures View() == AfterWrite(old(View()), sent)
    {
      walLen := walLen + 1;
      var more := CompactIfNeeded(now, id);
      sent := [WalCommand.Append(entry)] + more;
      assert sent[1..] == more;
    }

    /**
     * A command, log write and all. What it sends to the writer and what it
     * leaves are those of the system model.
     */
    method Execute(now: nat, id: nat, cmd: Command) returns (reply: Reply, sent: seq<WalCommand>)
      modifies this`data, this`expiries, this`walLen, this`inFlight
      ensures reply == Exec(old(Live()), now, cmd).reply
      ensures CommandSends(old(View()), now, cmd, sent)
      ensures View() == AfterCommand(old(View()), now, cmd, sent)
    {
      ghost var before := View();
      var entry: Option<WalEntry>;
      reply, entry := Dispatch(now, cmd);
      assert View() == before.(live := Exec(before.live, now, cmd).state);
      match entry {
        case None => sent := [];
        case Some(e) => sent := WriteWal(now, id, e);
      }
    }

    method Dispatch(now: nat, cmd: Command) returns (reply: Reply, entry: Option<WalEntry>)
      modifies this`data, this`expiries
      ensures Effect(Live(), reply, entry) == Exec(old(Live()), now, cmd)
    {
      match cmd {
        case Set(key, value) => reply, entry := Set(now, key, value);
        case Append(key, suffix) => reply, entry := Append(now, key, suffix);
        case SetRange(key, offset, patch) => reply, entry := SetRange(now, key, offset, patch);
        case IncrBy(key, delta) => reply, entry := IncrBy(now, key, delta);
        case Mutation(key, m) =>
          if Creates(m) {
            reply, entry := Add(now, key, m);
          } else {
            reply, entry := Change(now, key, m);
          }
        case Expire(key, seconds) => reply, entry := SetDeadline(now, key, Min(1000 * seconds, U64_MAX));
        case PExpire(key, milliseconds) => reply, entry := SetDeadline(now, key, milliseconds);
        case Persist(key) => reply, entry := Persist(now, key);
        case Del(keys) => reply, entry := Del(now, keys);
        case Read(touched) =>
          Touch(now, touched);
          reply, entry := Answered(Done), None;
        case Sweep =>
          Sweep(now);
          reply, entry := Answered(Done), None;
      }
    }

    // ---------------------------------------------------------------- replay

    /** `apply_entry`, on the tables. An error leaves them as they are. */
    method ApplyEntry(e: WalEntry) returns (error: Option<TypeError>)
      modifies this`data, this`expiries
      ensures match Apply(old(Live()), e)
        case Ok(st) => error.None? && Live() == st
        case Err(t) => error == Some(t) && Live() == old(Live())
    {
      error := None;
      ghost var before := Live();
      match e {
        case Set(key, value, expiry) =>
          data := data[key := Value.Str(value)];
          expiries := expiries - {key};
          if expiry.Some? {
            expiries := expiries[key := expiry.value];
          }
          OneKeyChanged(before, Live(), key, Cell(Some(Value.Str(value)), expiry));
        case Del(keys) =>
          RemoveAll(keys);
        case Expire(key, at) =>
          expiries := expiries[key := at];
          OneKeyChanged(before, Live(), key, At(before, key).(ttl := Some(at)));
        case Persist(key) =>
          expiries := expiries - {key};
          OneKeyChanged(before, Live(), key, At(before, key).(ttl := None));
        case Mutation(key, m) =>
          error := ApplyMutation(key, m);
      }
    }

    /** A replayed collection operation: creating ones insert a missing key, others pass it by. */
    method ApplyMutation(key: Key, m: Values.Mutation) returns (error: Option<TypeError>)
      modifies this`data
      ensures match ApplyToCell(At(old(Live()), key), WalEntry.Mutation(key, m))
        case Ok(c) => error.None? && Live() == Put(old(Live()), key, c)
        case Err(t) => error == Some(t) && Live() == old(Live())
    {
      ghost var before := Live();
      error := None;
      if key !in data && !Creates(m) {
        OneKeyChanged(before, Live(), key, At(before, key));
        return;
      }
      var r := InPlace.Perform(if key in data then data[key] else Default(m), m);
      match r {
        case Err(t) =>
          error := Some(t);
        case Ok(done) =>
          data := data[key := done.value];
          OneKeyChanged(before, Live(), key, At(before, key).(value := Some(done.value)));
      }
    }

    /** A replayed DEL clears every listed key, value or not. */
    method RemoveAll(keys: seq<Key>)
      modifies this`data, this`expiries
      ensures data == old(data) - Elements(keys) && expiries == old(expiries) - Elements(keys)
    {
      ghost var before := Live();
      for i := 0 to |keys|
        invariant data == before.data - Elements(keys[..i]) && expiries == before.ttl - Elements(keys[..i])
      {
        assert Elements(keys[..i + 1]) == Elements(keys[..i]) + {keys[i]};
        data := data - {keys[i]};
        expiries := expiries - {keys[i]};
      }
      assert keys[..|keys|] == keys;
    }

    /** Startup replay: entry by entry, counting, until the end or the first error. */
    method Replay(log: seq<WalEntry>) returns (count: nat, error: Option<TypeError>)
      modifies this`data, this`expiries
      ensures match ReplayFrom(old(Live()), log)
        case Ok(st) => error.None? && Live() == st && count == |log|
        case Err(t) => error == Some(t) && count < |log| && ReplayFrom(old(Live()), log[..count]) == Ok(Live())
    {
      count := 0;
      ghost var before := Live();
      while count < |log|
        invariant count <= |log|
        invariant ReplayFrom(before, log[..count]) == Ok(Live())
      {
        ReplayNext(before, log, count);
        error := ApplyEntry(log[count]);
        if error.Some? {
          FailsThroughout(before, log, count + 1);
          return;
        }
        count := count + 1;
      }
      assert log[..count] == log;
      error := None;
    }
  }

  /** Opening a database over a stored log: replayed, and counted as the log so far. */
  method OpenDatabase(log: seq<WalEntry>) returns (db: RedisWasmDb, error: Option<TypeError>)
    ensures fresh(db)
    ensures match Replay(log)
      case Ok(st) => error.None? && db.View() == Db(st, |log|, DEFAULT_COMPACTION_THRESHOLD, 0, None)
      case Err(t) => error == Some(t)
  {
    db := new RedisWasmDb();
    var count;
    count, error := db.Replay(log);
    if error.None? {
      db.walLen := count;
    }
  }

  /** Replay of one entry more. */
  lemma ReplayNext(st: State, log: seq<WalEntry>, n: nat)
    requires n < |log|
    ensures ReplayFrom(st, log[..n + 1]) ==
      match ReplayFrom(st, log[..n]) case Err(error) => Err(error) case Ok(s) => Apply(s, log[n])
  {
    assert log[..n + 1] == log[..n] + [log[n]];
    ReplayAppend(st, log[..n], log[n]);
  }

  /** Replay that fails on a prefix fails on the whole log. */
  lemma FailsThroughout(st: State, log: seq<WalEntry>, n: nat)
    requires n <= |log| && ReplayFrom(st, log[..n]).Err?
    ensures ReplayFrom(st, log) == ReplayFrom(st, log[..n])
  {
    assert log == log[..n] + log[n..];
    ReplayConcat(st, log[..n], log[n..]);
  }

  /** How many of the listed keys (with repetitions) hold an unexpired value. */
  function CountVisible(st: State, now: nat, keys: seq<Key>): nat {
    if keys == [] then 0
    else
      var c := At(st, keys[|keys| - 1]);
      CountVisible(st, now, keys[..|keys| - 1]) + if c.value.Some? && !Expired(c, now) then 1 else 0
  }

  /** That is: the number of positions in the list at which a key alive stands. */
  lemma {:induction false} CountsAlive(st: State, now: nat, keys: seq<Key>)
    ensures CountVisible(st, now, keys) == |set i | 0 <= i < |keys| && Effects.Alive(st, keys[i], now)|
  {
    if keys != [] {
      var n, init := |keys| - 1, keys[..|keys| - 1];
      CountsAlive(st, now, init);
      var before := set i | 0 <= i < n && Effects.Alive(st, init[i], now);
      var all := set i | 0 <= i < |keys| && Effects.Alive(st, keys[i], now);
      assert all == before + if Effects.Alive(st, keys[n], now) then {n} else {};
    }
  }
}
