/** The live database: what each command does to the keyspace, answers, and logs. */
module Keyspace {
  import opened Base
  import opened Values
  import opened Strings
  import opened Log

  datatype Command =
    | Set(key: Key, value: bytes)
    | Append(key: Key, suffix: bytes)
    | SetRange(key: Key, offset: nat, patch: bytes)
    | IncrBy(key: Key, delta: i64)
    | Mutation(key: Key, mutation: Values.Mutation)
    | Expire(key: Key, seconds: nat)
    | PExpire(key: Key, milliseconds: nat)
    | Persist(key: Key)
    | Del(keys: seq<Key>)
    | Read(touched: set<Key>)   // any read: lapsed keys among those it touches are deleted
    | Sweep                     // one pass of the background cleaner

  datatype DbError = KeyNotFound | WrongType | IndexOutOfRange | StringTooLarge | NotAnInteger

  datatype Reply = Answered(answer: Answer) | Bool(b: bool) | Failed(error: DbError)

  /** The effect of a command on its key, its reply, and the entry it appends to the log, if any. */
  datatype Outcome = Outcome(cell: Cell, reply: Reply, entry: Option<WalEntry>)

  function AsDbError(e: TypeError): DbError {
    match e
    case WrongType => DbError.WrongType
    case IndexOutOfRange => DbError.IndexOutOfRange
    case StringTooLarge => DbError.StringTooLarge
  }

  // -------------------------------------------------------------- one key

  /** DEL on one key: the deadline goes only along with a value. */
  function DeleteCell(c: Cell): Cell {
    if c.value.Some? then ABSENT else c
  }

  /** Lazy expiry: a command that meets a lapsed key deletes it first. */
  function Lapse(c: Cell, now: nat): Cell {
    if Expired(c, now) then DeleteCell(c) else c
  }

  /** The value `or_insert_with(new_empty_string)` yields. */
  function StringOrNew(c: Cell): Value {
    c.value.GetOr(Value.Str([]))
  }

  /** Deadlines saturate: an absurd duration means "never", not a time in the past. */
  function Deadline(now: nat, milliseconds: nat): nat {
    Min(now + milliseconds, U64_MAX)
  }

  /** A string command leaves `updated` under the key, keeps its deadline, and logs the whole string. */
  function Store(key: Key, c: Cell, updated: bytes, n: int): Outcome {
    Outcome(c.(value := Some(Value.Str(updated))), Answered(Count(n)), Some(WalEntry.Set(key, updated, c.ttl)))
  }

  /** A command that fails after `or_insert_with` has run: the value it started from stays behind. */
  function FailAfterInsert(c: Cell, v: Value, error: DbError): Outcome {
    Outcome(c.(value := Some(v)), Failed(error), None)
  }

  function ExecAppend(c: Cell, now: nat, key: Key, suffix: bytes): Outcome {
    var c, v := Lapse(c, now), StringOrNew(Lapse(c, now));
    if !v.Str? then FailAfterInsert(c, v, DbError.WrongType)
    else if !AppendFits(v.bytes, suffix) then FailAfterInsert(c, v, DbError.StringTooLarge)
    else Store(key, c, v.bytes + suffix, |v.bytes + suffix|)
  }

  function ExecSetRange(c: Cell, now: nat, key: Key, offset: nat, patch: bytes): Outcome {
    var c, v := Lapse(c, now), StringOrNew(Lapse(c, now));
    if patch == [] then
      Outcome(c, if v.Str? then Answered(Count(|v.bytes|)) else Failed(DbError.WrongType), None)
    else if !v.Str? then FailAfterInsert(c, v, DbError.WrongType)
    else if !RangeFits(offset, patch) then FailAfterInsert(c, v, DbError.StringTooLarge)
    else
      var updated := Overwrite(v.bytes, offset, patch);
      Store(key, c, updated, |updated|)
  }

  function ExecIncrBy(c: Cell, now: nat, key: Key, delta: i64): Outcome {
    var c, v := Lapse(c, now), StringOrNew(Lapse(c, now));
    if !v.Str? then FailAfterInsert(c, v, DbError.WrongType)
    else match Increment(v.bytes, delta)
      case None => FailAfterInsert(c, v, DbError.NotAnInteger)
      case Some(n) => Store(key, c, FormatInt(n), n)
  }

  /** What an operation on a list, set, sorted set or hash answers when the key has lapsed. */
  function LapsedReply(m: Mutation): Reply {
    match m
    case LPop(_) => Answered(Popped([]))
    case RPop(_) => Answered(Popped([]))
    case LSet(_, _) => Failed(KeyNotFound)
    case LTrim(_, _) => Answered(Done)
    case _ => Answered(Count(0))
  }

  /** With nothing to add: a push reports the length, SADD and ZADD report 0; another kind of value is an error. */
  function NoArgumentsReply(c: Cell, m: Mutation): Reply {
    match c.value
    case None => Answered(Count(0))
    case Some(v) =>
      match m
      case SAdd(_) => if v.Set? then Answered(Count(0)) else Failed(DbError.WrongType)
      case ZAdd(_) => if v.ZSet? then Answered(Count(0)) else Failed(DbError.WrongType)
      case _ => if v.List? then Answered(Count(|v.items|)) else Failed(DbError.WrongType)
  }

  /** Storing the result of an operation, and the entry if it changed something. */
  function Conclude(c: Cell, key: Key, v: Value, m: Mutation, r: Result<Mutated, TypeError>): Outcome {
    match r
    case Err(e) => FailAfterInsert(c, v, AsDbError(e))
    case Ok(done) =>
      Outcome(c.(value := Some(done.value)), Answered(done.answer),
        if Logged(m, done.answer) then Some(WalEntry.Mutation(key, m)) else None)
  }

  /** The operation on value `v` of a key. */
  function MutateCell(c: Cell, key: Key, v: Value, m: Mutation): Outcome {
    Conclude(c, key, v, m, Mutate(v, m))
  }

  function ExecMutation(c: Cell, now: nat, key: Key, m: Mutation): Outcome {
    if !Creates(m) && Expired(c, now) then Outcome(DeleteCell(c), LapsedReply(m), None)
    else
      var c := Lapse(c, now);
      if !HasArguments(m) then Outcome(c, NoArgumentsReply(c, m), None)
      else if c.value.None? && !Creates(m) then Outcome(c, Failed(KeyNotFound), None)
      else
        MutateCell(c, key, if c.value.Some? then c.value.value else Default(m), m)
  }

  function ExecExpire(c: Cell, now: nat, key: Key, milliseconds: nat): Outcome {
    if c.value.None? || Expired(c, now) then Outcome(c, Bool(false), None)
    else
      var at := Deadline(now, milliseconds);
      Outcome(c.(ttl := Some(at)), Bool(true), Some(WalEntry.Expire(key, at)))
  }

  function ExecPersist(c: Cell, now: nat, key: Key): Outcome {
    if c.value.None? || Expired(c, now) || c.ttl.None? then Outcome(c, Bool(false), None)
    else Outcome(c.(ttl := None), Bool(true), Some(WalEntry.Persist(key)))
  }

  predicate OneKey(cmd: Command) {
    !cmd.Del? && !cmd.Read? && !cmd.Sweep?
  }

  /** A single-key command on what the database holds about its key. */
  function ExecCell(c: Cell, now: nat, cmd: Command): Outcome
    requires OneKey(cmd)
  {
    match cmd
    case Set(key, value) =>
      Outcome(Cell(Some(Value.Str(value)), None), Answered(Done), Some(WalEntry.Set(key, value, None)))
    case Append(key, suffix) => ExecAppend(c, now, key, suffix)
    case SetRange(key, offset, patch) => ExecSetRange(c, now, key, offset, patch)
    case IncrBy(key, delta) => ExecIncrBy(c, now, key, delta)
    case Mutation(key, m) => ExecMutation(c, now, key, m)
    case Expire(key, seconds) => ExecExpire(c, now, key, Min(1000 * seconds, U64_MAX))
    case PExpire(key, milliseconds) => ExecExpire(c, now, key, milliseconds)
    case Persist(key) => ExecPersist(c, now, key)
  }

  /** Nothing left to see, now or later: lapsed, or not there at all. */
  predicate Dead(c: Cell, now: nat) {
    Expired(c, now) || c == ABSENT
  }

  /** APPEND or SETRANGE over the size cap on a missing key: the empty string it starts from stays, unlogged. */
  predicate LeavesUnlogged(live: Cell, now: nat, cmd: Command) {
    && Dead(live, now)
    && ((cmd.Append? && !AppendFits([], cmd.suffix))
        || (cmd.SetRange? && cmd.patch != [] && !RangeFits(cmd.offset, cmd.patch)))
  }

  // ------------------------------------------------------- the whole keyspace

  /** The keys whose deadline has been reached. */
  function ExpiredKeys(st: State, now: nat): set<Key> {
    set k | k in st.ttl && st.ttl[k] <= now
  }

  /** DEL and lazy expiry, over a set of keys. */
  function Delete(st: State, keys: set<Key>): (r: State)
    ensures forall k :: At(r, k) == if k in keys then DeleteCell(At(st, k)) else At(st, k)
  {
    State(st.data - keys, st.ttl - (keys * st.data.Keys))
  }

  datatype Effect = Effect(state: State, reply: Reply, entry: Option<WalEntry>)

  /** One command: the new keyspace, the reply, and the entry appended. */
  function Exec(st: State, now: nat, cmd: Command): Effect {
    match cmd
    case Del(keys) =>
      var present := Elements(keys) * st.data.Keys;
      Effect(Delete(st, Elements(keys)), Answered(Count(|present|)),
        if present != {} then Some(WalEntry.Del(keys)) else None)
    case Read(touched) => Effect(Delete(st, touched * ExpiredKeys(st, now)), Answered(Done), None)
    case Sweep =>
      var gone := ExpiredKeys(st, now);
      Effect(State(st.data - gone, st.ttl - gone), Answered(Done), None)
    case _ =>
      var o := ExecCell(At(st, cmd.key), now, cmd);
      Effect(Put(st, cmd.key, o.cell), o.reply, o.entry)
  }

  /** What a command does to one key, seen from that key. */
  function CellAfter(c: Cell, now: nat, cmd: Command, k: Key): Cell {
    match cmd
    case Del(keys) => if k in keys then DeleteCell(c) else c
    case Read(touched) => if k in touched then Lapse(c, now) else c
    case Sweep => if Expired(c, now) then ABSENT else c
    case _ => if k == cmd.key then ExecCell(c, now, cmd).cell else c
  }

  lemma ExecPointwise(st: State, now: nat, cmd: Command, k: Key)
    ensures At(Exec(st, now, cmd).state, k) == CellAfter(At(st, k), now, cmd, k)
  {
  }

  // ----------------------------------------------------------- no orphan TTLs

  /** A deadline belongs to a value. */
  predicate Owned(c: Cell) {
    c.ttl.Some? ==> c.value.Some?
  }

  ghost predicate NoOrphans(st: State) {
    forall k :: Owned(At(st, k))
  }

  /** Every command keeps every deadline owned. */
  lemma ExecKeepsOwned(c: Cell, now: nat, cmd: Command, k: Key)
    requires Owned(c)
    ensures Owned(CellAfter(c, now, cmd, k))
  {
  }

  /** A timed command. */
  datatype Timed = Timed(at: nat, cmd: Command)

  /** The keyspace after a run. */
  function RunState(st: State, run: seq<Timed>): State {
    if run == [] then st
    else
      var last := run[|run| - 1];
      Exec(RunState(st, run[..|run| - 1]), last.at, last.cmd).state
  }

  /** Over every run from the empty database, the expiry table has keys of the data table only. */
  lemma {:induction false} NoOrphanTtls(run: seq<Timed>)
    ensures NoOrphans(RunState(EMPTY, run))
    ensures RunState(EMPTY, run).ttl.Keys <= RunState(EMPTY, run).data.Keys
  {
    if run != [] {
      var st, last := RunState(EMPTY, run[..|run| - 1]), run[|run| - 1];
      NoOrphanTtls(run[..|run| - 1]);
      StepKeepsOwned(st, last.at, last.cmd);
    }
    OwnedSubset(RunState(EMPTY, run));
  }

  lemma StepKeepsOwned(st: State, now: nat, cmd: Command)
    requires NoOrphans(st)
    ensures NoOrphans(Exec(st, now, cmd).state)
  {
    forall k ensures Owned(At(Exec(st, now, cmd).state, k)) {
      ExecPointwise(st, now, cmd, k);
      ExecKeepsOwned(At(st, k), now, cmd, k);
    }
  }

  lemma OwnedSubset(st: State)
    ensures NoOrphans(st) <==> st.ttl.Keys <= st.data.Keys
  {
    assert forall k :: k in st.ttl && k !in st.data ==> !Owned(At(st, k));
    if st.ttl.Keys <= st.data.Keys {
      forall k ensures Owned(At(st, k)) {}
    }
  }
}
