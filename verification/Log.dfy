/** The write-ahead log: its entries, the database state they act on, and replay. */
module Log {
  import opened Base
  import opened Values
  import opened Strings

  type Key = string

  // ------------------------------------------------------------------ state

  /** The two shared tables: values, and expiry timestamps in milliseconds. */
  datatype State = State(data: map<Key, Value>, ttl: map<Key, nat>)

  const EMPTY: State := State(map[], map[])

  /** Everything the database holds about one key. */
  datatype Cell = Cell(value: Option<Value>, ttl: Option<nat>)

  const ABSENT: Cell := Cell(None, None)

  function At(st: State, k: Key): Cell {
    Cell(Lookup(st.data, k), Lookup(st.ttl, k))
  }

  function PutIn<V>(m: map<Key, V>, k: Key, v: Option<V>): map<Key, V> {
    if v.Some? then m[k := v.value] else m - {k}
  }

  /** The state with one key replaced. */
  function Put(st: State, k: Key, c: Cell): (r: State)
    ensures At(r, k) == c
    ensures forall j :: j != k ==> At(r, j) == At(st, j)
  {
    State(PutIn(st.data, k, c.value), PutIn(st.ttl, k, c.ttl))
  }

  /** States are equal when they hold the same about every key. */
  lemma SameState(a: State, b: State)
    requires forall k :: At(a, k) == At(b, k)
    ensures a == b
  {
    forall k ensures (k in a.data <==> k in b.data) && (k in a.ttl <==> k in b.ttl) {
      assert At(a, k) == At(b, k);
    }
    forall k ensures k in a.data ==> a.data[k] == b.data[k] {
      assert At(a, k) == At(b, k);
    }
    forall k ensures k in a.ttl ==> a.ttl[k] == b.ttl[k] {
      assert At(a, k) == At(b, k);
    }
    assert a.data == b.data;
    assert a.ttl == b.ttl;
  }

  // ---------------------------------------------------------------- entries

  datatype WalEntry =
    | Set(key: Key, value: bytes, expiry: Option<nat>)
    | Del(keys: seq<Key>)
    | Expire(key: Key, expiryMs: nat)
    | Persist(key: Key)
    | Mutation(key: Key, mutation: Values.Mutation)

  /** What an entry does to the key it names. */
  function ApplyToCell(c: Cell, e: WalEntry): Result<Cell, TypeError>
    requires !e.Del?
  {
    match e
    case Set(_, value, expiry) => Ok(Cell(Some(Value.Str(value)), expiry))
    case Expire(_, expiryMs) => Ok(c.(ttl := Some(expiryMs)))
    case Persist(_) => Ok(c.(ttl := None))
    case Mutation(_, m) =>
      if c.value.None? && !Creates(m) then Ok(c)
      else
        Replaced(c, Mutate(if c.value.Some? then c.value.value else Default(m), m))
  }

  /** A replayed operation's result, under the deadline the key has. */
  function Replaced(c: Cell, r: Result<Mutated, TypeError>): Result<Cell, TypeError> {
    match r
    case Err(error) => Err(error)
    case Ok(done) => Ok(c.(value := Some(done.value)))
  }

  /** `WalReplayer::apply_entry`. */
  function Apply(st: State, e: WalEntry): Result<State, TypeError> {
    if e.Del? then Ok(State(st.data - Elements(e.keys), st.ttl - Elements(e.keys)))
    else match ApplyToCell(At(st, e.key), e)
      case Err(error) => Err(error)
      case Ok(c) => Ok(Put(st, e.key, c))
  }

  /** Replay of a log from a state, entry by entry, stopping at the first error. */
  function ReplayFrom(st: State, log: seq<WalEntry>): Result<State, TypeError> {
    if log == [] then Ok(st)
    else match ReplayFrom(st, log[..|log| - 1])
      case Err(error) => Err(error)
      case Ok(s) => Apply(s, log[|log| - 1])
  }

  /** Startup: replay into an empty database. */
  function Replay(log: seq<WalEntry>): Result<State, TypeError> {
    ReplayFrom(EMPTY, log)
  }

  lemma ReplayAppend(st: State, log: seq<WalEntry>, e: WalEntry)
    ensures ReplayFrom(st, log + [e]) ==
      match ReplayFrom(st, log) case Err(error) => Err(error) case Ok(s) => Apply(s, e)
  {
    assert (log + [e])[..|log|] == log;
  }

  lemma {:induction false} ReplayConcat(st: State, a: seq<WalEntry>, b: seq<WalEntry>)
    ensures ReplayFrom(st, a + b) ==
      match ReplayFrom(st, a) case Err(error) => Err(error) case Ok(s) => ReplayFrom(s, b)
  {
    if b == [] {
      assert a + b == a;
    } else {
      var n := |b| - 1;
      assert a + b == (a + b[..n]) + [b[n]];
      ReplayAppend(st, a + b[..n], b[n]);
      ReplayConcat(st, a, b[..n]);
    }
  }

  // ------------------------------------------------------------- visibility

  /** The deadline has been reached. */
  predicate Expired(c: Cell, now: nat) {
    c.ttl.Some? && c.ttl.value <= now
  }

  /** What a client or a snapshot can see of a key: live strings and non-empty collections, with their deadlines. */
  function VisibleCell(c: Cell, now: nat): Cell {
    if Expired(c, now) || c.value.None? || IsEmptyCollection(c.value.value) then ABSENT else c
  }

  function Visible(st: State, now: nat): (r: State)
    ensures forall k :: At(r, k) == VisibleCell(At(st, k), now)
  {
    var shown := set k | k in st.data && VisibleCell(At(st, k), now) != ABSENT;
    State(map k | k in shown :: st.data[k], map k | k in shown && k in st.ttl :: st.ttl[k])
  }
}
