/**
 * What each command does to the keyspace, as a client sees it: which value is
 * there, until when, what is answered, and what replay makes of the entry
 * logged; said of the tables and the clock, and not in the terms the commands
 * are defined by.
 */
module Effects {
  import opened Base
  import opened Strings
  import opened Values
  import opened Log
  import opened Keyspace
  import opened Meanings

  // -------------------------------------------------------------- visibility

  /** There is a value under the key, and no deadline that has been reached. */
  predicate Alive(st: State, k: Key, now: nat) {
    k in st.data && (k in st.ttl ==> now < st.ttl[k])
  }

  /** The key has this value and this deadline. */
  predicate Has(st: State, k: Key, v: Value, ttl: Option<nat>) {
    && k in st.data && st.data[k] == v
    && if ttl.Some? then k in st.ttl && st.ttl[k] == ttl.value else k !in st.ttl
  }

  /** Nothing about the other keys has changed. */
  ghost predicate OthersKept(before: State, after: State, k: Key) {
    forall j :: j != k ==>
      && (j in after.data <==> j in before.data) && (j in after.ttl <==> j in before.ttl)
      && (j in before.data ==> after.data[j] == before.data[j])
      && (j in before.ttl ==> after.ttl[j] == before.ttl[j])
  }

  /** A string, or a collection with something in it. */
  predicate IsSomething(v: Value) {
    match v
    case Str(_) => true
    case List(items) => |items| > 0
    case Set(members) => |members| > 0
    case ZSet(scores) => |scores| > 0
    case Hash(fields) => |fields| > 0
  }

  /** A key is visible exactly while it is alive with something in it, with its value and deadline as they are. */
  lemma VisibleExactly(st: State, k: Key, t: nat)
    ensures k in Visible(st, t).data <==> Alive(st, k, t) && IsSomething(st.data[k])
    ensures k in Visible(st, t).data ==> Has(Visible(st, t), k, st.data[k], Lookup(st.ttl, k))
  {
    assert At(Visible(st, t), k) == VisibleCell(At(st, k), t);
  }

  /** The key is seen with this value and deadline at every time, or up to the deadline. */
  ghost predicate SeenUntil(st: State, k: Key, v: Value, ttl: Option<nat>) {
    && Has(st, k, v, ttl)
    && forall t: nat :: k in Visible(st, t).data <==> IsSomething(v) && (ttl.Some? ==> t < ttl.value)
  }

  lemma HasIsSeen(st: State, k: Key, v: Value, ttl: Option<nat>)
    requires Has(st, k, v, ttl)
    ensures SeenUntil(st, k, v, ttl)
  {
    forall t: nat ensures k in Visible(st, t).data <==> IsSomething(v) && (ttl.Some? ==> t < ttl.value) {
      VisibleExactly(st, k, t);
    }
  }

  /** The entry logged, replayed onto any state, leaves this under the key. */
  ghost predicate ReplaysTo(entry: Option<WalEntry>, k: Key, v: Value, ttl: Option<nat>) {
    entry.Some? && forall st :: Apply(st, entry.value).Ok? && SeenUntil(Apply(st, entry.value).value, k, v, ttl)
  }

  lemma SetReplays(k: Key, value: bytes, ttl: Option<nat>)
    ensures ReplaysTo(Some(WalEntry.Set(k, value, ttl)), k, Value.Str(value), ttl)
  {
    forall st
      ensures Apply(st, WalEntry.Set(k, value, ttl)).Ok?
      ensures SeenUntil(Apply(st, WalEntry.Set(k, value, ttl)).value, k, Value.Str(value), ttl)
    {
      HasIsSeen(Apply(st, WalEntry.Set(k, value, ttl)).value, k, Value.Str(value), ttl);
    }
  }

  // ---------------------------------------------------------------- SET, DEL

  /**
   * SET: whatever was there, the key has the value and no deadline, so it is
   * seen at every time; and replaying the entry onto any state does the same.
   */
  lemma SetMeans(st: State, now: nat, k: Key, value: bytes)
    ensures
      var e := Exec(st, now, Command.Set(k, value));
      && e.reply == Answered(Done) && OthersKept(st, e.state, k)
      && SeenUntil(e.state, k, Value.Str(value), None)
      && ReplaysTo(e.entry, k, Value.Str(value), None)
  {
    HasIsSeen(Exec(st, now, Command.Set(k, value)).state, k, Value.Str(value), None);
    SetReplays(k, value, None);
  }

  /** DEL: listed keys are gone, and with them their deadlines; the answer counts those that had a value. */
  lemma DelMeans(st: State, now: nat, keys: seq<Key>)
    ensures
      var e := Exec(st, now, Command.Del(keys));
      && (forall k :: k in e.state.data <==> k in st.data && k !in keys)
      && (forall k :: k in e.state.data ==> e.state.data[k] == st.data[k])
      && (forall k :: k in e.state.ttl <==> k in st.ttl && !(k in keys && k in st.data))
      && (forall k :: k in e.state.ttl ==> e.state.ttl[k] == st.ttl[k])
      && e.reply == Answered(Count(|set k | k in st.data && k in keys|))
      && (e.entry == if exists k :: k in st.data && k in keys then Some(WalEntry.Del(keys)) else None)
  {
    var found := set k | k in st.data && k in keys;
    assert Elements(keys) * st.data.Keys == found;
    if k :| k in st.data && k in keys {
      assert k in found;
    }
  }

  /** And replaying its entry leaves nothing of the listed keys, and the others as they are. */
  lemma DelReplays(st: State, keys: seq<Key>)
    ensures
      var r := Apply(st, WalEntry.Del(keys));
      && r.Ok?
      && (forall k :: k in keys ==> k !in r.value.data && k !in r.value.ttl)
      && (forall k :: k !in keys ==> At(r.value, k) == At(st, k))
  {
  }

  // ------------------------------------------------------------- deadlines

  /** EXPIRE and PEXPIRE: a key alive gets the deadline, and is seen exactly until then; so says the entry. */
  ghost predicate GivesDeadline(st: State, e: Effect, k: Key, at: nat) {
    && e.reply == Bool(true) && e.entry == Some(WalEntry.Expire(k, at)) && OthersKept(st, e.state, k)
    && k in st.data && SeenUntil(e.state, k, st.data[k], Some(at))
  }

  /** No reply but false, nothing logged, nothing changed. */
  predicate Refuses(st: State, e: Effect) {
    e == Effect(st, Bool(false), None)
  }

  /**
   * EXPIRE by seconds: seen at t exactly if t is less than now + 1000 s, or
   * than the largest timestamp if that is out of range. A key that is not
   * alive is refused.
   */
  lemma ExpireMeans(st: State, now: nat, k: Key, seconds: nat)
    ensures
      var e := Exec(st, now, Command.Expire(k, seconds));
      if !Alive(st, k, now) then Refuses(st, e)
      else GivesDeadline(st, e, k, if now + 1000 * seconds <= U64_MAX then now + 1000 * seconds else U64_MAX)
  {
    var e := Exec(st, now, Command.Expire(k, seconds));
    if Alive(st, k, now) {
      var at := if now + 1000 * seconds <= U64_MAX then now + 1000 * seconds else U64_MAX;
      HasIsSeen(e.state, k, st.data[k], Some(at));
    } else {
      SameState(e.state, st);
    }
  }

  /** PEXPIRE by milliseconds likewise. */
  lemma PExpireMeans(st: State, now: nat, k: Key, milliseconds: nat)
    ensures
      var e := Exec(st, now, Command.PExpire(k, milliseconds));
      if !Alive(st, k, now) then Refuses(st, e)
      else GivesDeadline(st, e, k, if now + milliseconds <= U64_MAX then now + milliseconds else U64_MAX)
  {
    var e := Exec(st, now, Command.PExpire(k, milliseconds));
    if Alive(st, k, now) {
      var at := if now + milliseconds <= U64_MAX then now + milliseconds else U64_MAX;
      HasIsSeen(e.state, k, st.data[k], Some(at));
    } else {
      SameState(e.state, st);
    }
  }

  /** PERSIST: a key alive with a deadline keeps its value, and is seen from then on at every time. */
  lemma PersistMeans(st: State, now: nat, k: Key)
    ensures
      var e := Exec(st, now, Command.Persist(k));
      if Alive(st, k, now) && k in st.ttl then
        && e.reply == Bool(true) && e.entry == Some(WalEntry.Persist(k)) && OthersKept(st, e.state, k)
        && SeenUntil(e.state, k, st.data[k], None)
      else Refuses(st, e)
  {
    var e := Exec(st, now, Command.Persist(k));
    if Alive(st, k, now) && k in st.ttl {
      HasIsSeen(e.state, k, st.data[k], None);
    } else {
      SameState(e.state, st);
    }
  }

  /** Replayed, these entries set or remove the deadline and leave the value. */
  lemma DeadlinesReplay(st: State, k: Key, at: nat)
    ensures
      var r := Apply(st, WalEntry.Expire(k, at));
      && r.Ok? && OthersKept(st, r.value, k) && Lookup(r.value.data, k) == Lookup(st.data, k)
      && Lookup(r.value.ttl, k) == Some(at)
    ensures
      var r := Apply(st, WalEntry.Persist(k));
      && r.Ok? && OthersKept(st, r.value, k) && Lookup(r.value.data, k) == Lookup(st.data, k)
      && Lookup(r.value.ttl, k) == None
  {
  }

  // ----------------------------------------------------- reads and the sweep

  /** A read: of the keys it touches the lapsed ones lose their values, and with them their deadlines. */
  lemma ReadMeans(st: State, now: nat, touched: set<Key>)
    ensures
      var e := Exec(st, now, Read(touched));
      && e.entry == None
      && (forall k :: k in e.state.data <==> k in st.data && (k in touched ==> Alive(st, k, now)))
      && (forall k :: k in e.state.data ==> e.state.data[k] == st.data[k])
      && (forall k :: k in e.state.ttl <==> k in st.ttl && (k in touched && k in st.data ==> Alive(st, k, now)))
      && (forall k :: k in e.state.ttl ==> e.state.ttl[k] == st.ttl[k])
  {
  }

  /** A sweep: whatever has a reached deadline is gone, value and deadline, and nothing else. */
  lemma SweepMeans(st: State, now: nat)
    ensures
      var e := Exec(st, now, Sweep);
      && e.entry == None
      && (forall k :: k in e.state.data <==> k in st.data && Alive(st, k, now))
      && (forall k :: k in e.state.data ==> e.state.data[k] == st.data[k])
      && (forall k :: k in e.state.ttl <==> k in st.ttl && now < st.ttl[k])
      && (forall k :: k in e.state.ttl ==> e.state.ttl[k] == st.ttl[k])
  {
  }

  // ------------------------------------------------------- string commands

  /** A string is stored: with the deadline the key has if it is alive, else without; and is logged whole. */
  ghost predicate Stores(st: State, now: nat, e: Effect, k: Key, value: bytes, n: int) {
    var ttl := if Alive(st, k, now) then Lookup(st.ttl, k) else None;
    && e.reply == Answered(Count(n)) && OthersKept(st, e.state, k)
    && SeenUntil(e.state, k, Value.Str(value), ttl)
    && ReplaysTo(e.entry, k, Value.Str(value), ttl)
  }

  /** An error: nothing is logged, and a key alive is left as it was. */
  ghost predicate Errs(st: State, now: nat, e: Effect, k: Key, error: DbError) {
    && e.reply == Failed(error) && e.entry == None && OthersKept(st, e.state, k)
    && (Alive(st, k, now) ==> Has(e.state, k, st.data[k], Lookup(st.ttl, k)))
  }

  /** The key is not there, neither value nor deadline. */
  predicate NotThere(st: State, k: Key) {
    k !in st.data && k !in st.ttl
  }

  /** The bytes a string command starts from: none for a key not alive. */
  predicate StartsFrom(st: State, now: nat, k: Key, s: bytes) {
    if Alive(st, k, now) then st.data[k] == Value.Str(s) else s == []
  }

  /** A lapsed key goes before the command looks at it. */
  lemma LapseMeans(st: State, now: nat, k: Key)
    requires Owned(At(st, k))
    ensures Lapse(At(st, k), now) == if Alive(st, k, now) then At(st, k) else ABSENT
  {
  }

  lemma StoreMeans(st: State, now: nat, e: Effect, k: Key, value: bytes, n: int)
    requires Owned(At(st, k))
    requires
      var c := Lapse(At(st, k), now);
      var o := Store(k, c, value, n);
      e == Effect(Put(st, k, o.cell), o.reply, o.entry)
    ensures Stores(st, now, e, k, value, n)
  {
    LapseMeans(st, now, k);
    var ttl := if Alive(st, k, now) then Lookup(st.ttl, k) else None;
    assert At(e.state, k) == Cell(Some(Value.Str(value)), ttl);
    HasIsSeen(e.state, k, Value.Str(value), ttl);
    SetReplays(k, value, ttl);
    assert e.entry == Some(WalEntry.Set(k, value, ttl));
  }

  /** 512 MiB. */
  const LARGEST: int := 512 * 1024 * 1024

  /**
   * APPEND: the suffix goes behind the old bytes. Over the size cap it is an
   * error; on a key not alive that leaves an empty string.
   */
  lemma AppendMeans(st: State, now: nat, k: Key, s: bytes, suffix: bytes)
    requires Owned(At(st, k)) && StartsFrom(st, now, k, s)
    ensures
      var e := Exec(st, now, Command.Append(k, suffix));
      if |s| + |suffix| <= LARGEST then Stores(st, now, e, k, s + suffix, |s| + |suffix|)
      else Errs(st, now, e, k, DbError.StringTooLarge) && (!Alive(st, k, now) ==> Has(e.state, k, Value.Str([]), None))
  {
    var e := Exec(st, now, Command.Append(k, suffix));
    LapseMeans(st, now, k);
    if |s| + |suffix| <= LARGEST {
      StoreMeans(st, now, e, k, s + suffix, |s| + |suffix|);
    }
  }

  /** SETRANGE: the patch is written over the old bytes. An empty patch changes nothing and answers the length. */
  lemma SetRangeMeans(st: State, now: nat, k: Key, s: bytes, offset: nat, patch: bytes)
    requires Owned(At(st, k)) && StartsFrom(st, now, k, s)
    ensures
      var e := Exec(st, now, Command.SetRange(k, offset, patch));
      if patch == [] then
        && e.reply == Answered(Count(|s|)) && e.entry == None && OthersKept(st, e.state, k)
        && if Alive(st, k, now) then Has(e.state, k, st.data[k], Lookup(st.ttl, k)) else NotThere(e.state, k)
      else if offset + |patch| <= LARGEST then
        exists r: bytes :: PatchedAt(s, offset, patch, r) && Stores(st, now, e, k, r, |r|)
      else Errs(st, now, e, k, DbError.StringTooLarge) && (!Alive(st, k, now) ==> Has(e.state, k, Value.Str([]), None))
  {
    var e := Exec(st, now, Command.SetRange(k, offset, patch));
    LapseMeans(st, now, k);
    if patch != [] && offset + |patch| <= LARGEST {
      var r := Overwrite(s, offset, patch);
      OverwriteMeans(s, offset, patch);
      StoreMeans(st, now, e, k, r, |r|);
    }
  }

  /**
   * INCRBY: the number in the string, 0 for an empty one or a key not alive,
   * plus the increment is answered and stored, as a decimal for it; out of
   * range it is an error.
   */
  lemma IncrByMeans(st: State, now: nat, k: Key, s: bytes, x: i64, d: i64)
    requires Owned(At(st, k)) && StartsFrom(st, now, k, s) && (Denotes(s, x) || (s == [] && x == 0))
    ensures
      var e := Exec(st, now, Command.IncrBy(k, d));
      if I64_MIN <= x + d <= I64_MAX then
        exists r: bytes :: Denotes(r, x + d) && r[0] != PLUS && Stores(st, now, e, k, r, x + d)
      else Errs(st, now, e, k, DbError.NotAnInteger)
  {
    var e := Exec(st, now, Command.IncrBy(k, d));
    LapseMeans(st, now, k);
    IncrementMeans(s, x, d);
    if I64_MIN <= x + d <= I64_MAX {
      var r := FormatInt(x + d);
      IncrementStored(x + d, 0);
      StoreMeans(st, now, e, k, r, x + d);
      assert Denotes(r, x + d) && r[0] != PLUS && Stores(st, now, e, k, r, x + d);
    }
  }

  /** What is no decimal for a 64-bit number cannot be counted up. */
  lemma IncrByRefuses(st: State, now: nat, k: Key, s: bytes, d: i64)
    requires Owned(At(st, k)) && Alive(st, k, now) && st.data[k] == Value.Str(s) && s != []
    requires forall x: int :: Denotes(s, x) ==> !(I64_MIN <= x <= I64_MAX)
    ensures Errs(st, now, Exec(st, now, Command.IncrBy(k, d)), k, DbError.NotAnInteger)
  {
    LapseMeans(st, now, k);
    IncrementRefuses(s, d);
  }

  /** On a collection string commands are errors that change nothing. */
  lemma StringsOnly(st: State, now: nat, k: Key, cmd: Command)
    requires Owned(At(st, k)) && Alive(st, k, now) && !st.data[k].Str?
    requires (cmd.Append? || cmd.SetRange? || cmd.IncrBy?) && cmd.key == k
    ensures Errs(st, now, Exec(st, now, cmd), k, DbError.WrongType)
  {
    LapseMeans(st, now, k);
  }

  // ------------------------------------------------- commands on collections

  /** LPUSH, RPUSH, SADD, ZADD and HSET: they make a missing key. */
  predicate Makes(m: Mutation) {
    m.LPush? || m.RPush? || m.SAdd? || m.ZAdd? || m.HSet?
  }

  /** They have nothing to add. */
  predicate AddsNothing(m: Mutation) {
    match m
    case LPush(vs) => |vs| == 0
    case RPush(vs) => |vs| == 0
    case SAdd(ms) => |ms| == 0
    case ZAdd(ps) => |ps| == 0
    case _ => false
  }

  /** The empty collection of the kind an operation makes. */
  predicate IsEmptyFor(v: Value, m: Mutation) {
    FitsKind(v, m) && !IsSomething(v)
  }

  /** What goes into the log: pushes, LSET, LTRIM, ZADD and HSET always, the others if they have changed something. */
  predicate IsLogged(m: Mutation, a: Answer) {
    match m
    case LPush(_) => true
    case RPush(_) => true
    case LSet(_, _) => true
    case LTrim(_, _) => true
    case ZAdd(_) => true
    case HSet(_, _) => true
    case LPop(_) => a.Popped? && |a.items| > 0
    case RPop(_) => a.Popped? && |a.items| > 0
    case _ => a.Count? && a.n > 0
  }

  /** The operation on a value: its result is stored under a deadline, its answer given, and the entry made if due. */
  ghost predicate Operates(st: State, e: Effect, k: Key, m: Mutation, v: Value, ttl: Option<nat>) {
    OthersKept(st, e.state, k)
    && match Mutate(v, m)
       case Ok(r) =>
         && Has(e.state, k, r.value, ttl) && e.reply == Answered(r.answer)
         && e.entry == if IsLogged(m, r.answer) then Some(WalEntry.Mutation(k, m)) else None
       case Err(error) =>
         && Has(e.state, k, v, ttl) && e.entry == None
         && e.reply == Failed(if error.WrongType? then DbError.WrongType else DbError.IndexOutOfRange)
  }

  /** On a key alive an operation works on its value and keeps its deadline. */
  lemma OperateOnAlive(st: State, now: nat, k: Key, m: Mutation)
    requires Alive(st, k, now) && !AddsNothing(m)
    ensures Operates(st, Exec(st, now, Command.Mutation(k, m)), k, m, st.data[k], Lookup(st.ttl, k))
  {
    var v := st.data[k];
    assert ExecMutation(At(st, k), now, k, m) == MutateCell(At(st, k), k, v, m);
    Operated(st, k, At(st, k), m, v);
  }

  lemma Operated(st: State, k: Key, c: Cell, m: Mutation, v: Value)
    ensures
      var o := MutateCell(c, k, v, m);
      Operates(st, Effect(Put(st, k, o.cell), o.reply, o.entry), k, m, v, c.ttl)
  {
    var r := Mutate(v, m);
    match r
    case Ok(done) =>
      LoggedMeans(v, m);
      PutHas(st, k, done.value, c.ttl);
    case Err(error) =>
      ErrorsMean(v, m);
      PutHas(st, k, v, c.ttl);
  }

  lemma LoggedMeans(v: Value, m: Mutation)
    requires Mutate(v, m).Ok?
    ensures Logged(m, Mutate(v, m).value.answer) <==> IsLogged(m, Mutate(v, m).value.answer)
  {
  }

  /** On a key not alive a making operation works on an empty collection of its kind, without a deadline. */
  lemma MakeOnDead(st: State, now: nat, k: Key, m: Mutation) returns (v: Value)
    requires Owned(At(st, k)) && !Alive(st, k, now) && Makes(m) && !AddsNothing(m)
    ensures IsEmptyFor(v, m) && Operates(st, Exec(st, now, Command.Mutation(k, m)), k, m, v, None)
  {
    v := Default(m);
    DefaultIsEmpty(m);
    ExecMake(st, now, k, m);
    Operated(st, k, ABSENT, m, v);
  }

  lemma DefaultIsEmpty(m: Mutation)
    requires Makes(m)
    ensures IsEmptyFor(Default(m), m)
  {
  }

  lemma ExecMake(st: State, now: nat, k: Key, m: Mutation)
    requires Owned(At(st, k)) && !Alive(st, k, now) && Makes(m) && !AddsNothing(m)
    ensures
      var o := MutateCell(ABSENT, k, Default(m), m);
      Exec(st, now, Command.Mutation(k, m)) == Effect(Put(st, k, o.cell), o.reply, o.entry)
  {
    LapseMeans(st, now, k);
    assert ExecMutation(At(st, k), now, k, m) == MutateCell(ABSENT, k, Default(m), m);
  }

  /** Given nothing to add: the length of a list, or 0; another kind of value is an error. Nothing else happens. */
  lemma AddNothingMeans(st: State, now: nat, k: Key, m: Mutation)
    requires Owned(At(st, k)) && AddsNothing(m)
    ensures
      var e := Exec(st, now, Command.Mutation(k, m));
      && e.entry == None && OthersKept(st, e.state, k)
      && if !Alive(st, k, now) then NotThere(e.state, k) && e.reply == Answered(Count(0))
         else
           && Has(e.state, k, st.data[k], Lookup(st.ttl, k))
           && (e.reply == if !FitsKind(st.data[k], m) then Failed(DbError.WrongType)
               else if m.LPush? || m.RPush? then Answered(Count(|st.data[k].items|))
               else Answered(Count(0)))
  {
    LapseMeans(st, now, k);
  }

  /**
   * The other operations need the key. A missing one is an error; on a lapsed
   * one, which goes, pops answer nothing, LTRIM is done, LSET is an error, and
   * the rest have removed 0.
   */
  lemma ChangeOnDead(st: State, now: nat, k: Key, m: Mutation)
    requires Owned(At(st, k)) && !Alive(st, k, now) && !Makes(m)
    ensures
      var e := Exec(st, now, Command.Mutation(k, m));
      && e.entry == None && OthersKept(st, e.state, k) && NotThere(e.state, k)
      && (e.reply == if k !in st.data then Failed(KeyNotFound)
          else if m.LPop? || m.RPop? then Answered(Popped([]))
          else if m.LTrim? then Answered(Done)
          else if m.LSet? then Failed(KeyNotFound)
          else Answered(Count(0)))
  {
  }

  /** The operation's result is under the key, under the deadline the table has; its error is the replay's. */
  ghost predicate Replayed(st: State, r: Result<State, TypeError>, k: Key, done: Result<Mutated, TypeError>) {
    match done
    case Ok(d) => r.Ok? && OthersKept(st, r.value, k) && Has(r.value, k, d.value, Lookup(st.ttl, k))
    case Err(error) => r == Err(error)
  }

  lemma ReplayedFrom(st: State, k: Key, m: Mutation, v: Value)
    requires if k in st.data then v == st.data[k] else Creates(m) && v == Default(m)
    ensures Replayed(st, Apply(st, WalEntry.Mutation(k, m)), k, Mutate(v, m))
  {
    var r := Mutate(v, m);
    assert ApplyToCell(At(st, k), WalEntry.Mutation(k, m)) == Replaced(At(st, k), r);
    if r.Ok? {
      PutHas(st, k, r.value.value, Lookup(st.ttl, k));
    }
  }

  lemma PutHas(st: State, k: Key, v: Value, ttl: Option<nat>)
    ensures
      var r := Put(st, k, Cell(Some(v), ttl));
      OthersKept(st, r, k) && Has(r, k, v, ttl)
  {
  }

  /** Replayed: on a value there, the operation; on a missing one, likewise on an empty collection, or nothing. */
  lemma MutationReplays(st: State, k: Key, m: Mutation) returns (v: Value)
    ensures
      var r := Apply(st, WalEntry.Mutation(k, m));
      if k in st.data || Makes(m) then
        && (if k in st.data then v == st.data[k] else IsEmptyFor(v, m))
        && Replayed(st, r, k, Mutate(v, m))
      else r == Ok(st)
  {
    if k in st.data {
      v := st.data[k];
      ReplayedFrom(st, k, m, v);
    } else if Makes(m) {
      v := Default(m);
      DefaultIsEmpty(m);
      ReplayedFrom(st, k, m, v);
    } else {
      v := Value.Str([]);
      SameState(Put(st, k, At(st, k)), st);
    }
  }
}
