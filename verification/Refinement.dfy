/**
 * Replay against execution. Two interpreters change the same tables: the
 * commands, which delete lapsed keys silently, and the replayer, which never
 * looks at the clock. Agreement is what relates their states; a step keeps it
 * exactly when it is not one of three hazards.
 */
module Refinement {
  import opened Base
  import opened Strings
  import opened Values
  import opened Log
  import opened Keyspace
  import opened Snapshots

  // -------------------------------------------------------------- agreement

  /**
   * A live key and its replayed counterpart. Either both are dead, or they
   * have the same deadline and the same value, except that a live empty
   * collection may be missing on the replayed side.
   */
  predicate Agrees(live: Cell, replayed: Cell, now: nat) {
    if Dead(live, now) then Dead(replayed, now)
    else
      && live.ttl == replayed.ttl
      && (live.value == replayed.value
          || (replayed.value.None? && live.value.Some? && IsEmptyCollection(live.value.value)))
  }

  ghost predicate Agreement(live: State, replayed: State, now: nat) {
    forall k :: Agrees(At(live, k), At(replayed, k), now)
  }

  /** Agreement at `now` means the same view at every later time, deadlines included. */
  lemma AgreementShows(live: State, replayed: State, now: nat, later: nat)
    requires Agreement(live, replayed, now) && now <= later
    ensures Agreement(live, replayed, later)
    ensures Visible(live, later) == Visible(replayed, later)
  {
    forall k
      ensures Agrees(At(live, k), At(replayed, k), later)
      ensures At(Visible(live, later), k) == At(Visible(replayed, later), k)
    {
      assert Agrees(At(live, k), At(replayed, k), now);
    }
    SameState(Visible(live, later), Visible(replayed, later));
  }

  /** Every state agrees with itself: where a session starts. */
  lemma AgreementStarts(st: State, now: nat)
    ensures Agreement(st, st, now)
  {
  }

  // ---------------------------------------------------------------- hazards

  /** The log still holds a lapsed incarnation of the key: replay would add to it, under its past deadline. */
  predicate RevivesLapsed(replayed: Cell, now: nat, cmd: Command) {
    && cmd.Mutation? && Creates(cmd.mutation) && HasArguments(cmd.mutation)
    && Expired(replayed, now)
  }

  /** An unexpired empty collection with a deadline: the snapshot drops both, the live database keeps both. */
  predicate DropsDeadline(live: Cell, now: nat) {
    !Expired(live, now) && live.ttl.Some? && live.value.Some? && IsEmptyCollection(live.value.value)
  }

  /** The commands after which live and replayed states part. */
  predicate Hazard(live: State, replayed: State, now: nat, cmd: Command) {
    && OneKey(cmd)
    && (RevivesLapsed(At(replayed, cmd.key), now, cmd) || LeavesUnlogged(At(live, cmd.key), now, cmd))
  }

  ghost predicate CompactionHazard(live: State, now: nat) {
    exists k :: DropsDeadline(At(live, k), now)
  }

  // ---------------------------------------------------------------- one step

  /** What replay makes of the entry a command appends, if it appends one. */
  function ReplayedCell(replayed: Cell, entry: Option<WalEntry>): Result<Cell, TypeError>
    requires entry.Some? ==> !entry.value.Del?
  {
    match entry
    case None => Ok(replayed)
    case Some(e) => ApplyToCell(replayed, e)
  }

  predicate CellKept(live: Cell, replayed: Result<Cell, TypeError>, now: nat) {
    replayed.Ok? && Agrees(live, replayed.value, now)
  }

  /** The collection a creating operation makes of a missing key. */
  function FreshValue(m: Mutation): (v: Value)
    requires Creates(m) && HasArguments(m)
    ensures !v.Str? && !IsEmptyCollection(v)
  {
    CreatorOnFresh(m);
    Mutate(Default(m), m).value.value
  }

  /** On a dead key a creating operation starts afresh, without deadline, and is logged. */
  lemma ExecOnDead(c: Cell, now: nat, key: Key, m: Mutation)
    requires Owned(c) && Dead(c, now) && Creates(m) && HasArguments(m)
    ensures
      var o := ExecMutation(c, now, key, m);
      o.cell == Cell(Some(FreshValue(m)), None) && o.entry == Some(WalEntry.Mutation(key, m))
  {
    CreatorOnFresh(m);
    assert Lapse(c, now) == ABSENT;
  }

  /** The replayer creates a missing key just so, but under whatever deadline the table holds. */
  lemma ApplyOnMissing(c: Cell, key: Key, m: Mutation)
    requires c.value.None? && Creates(m) && HasArguments(m)
    ensures ApplyToCell(c, WalEntry.Mutation(key, m)) == Ok(c.(value := Some(FreshValue(m))))
  {
    CreatorOnFresh(m);
  }

  /** The replayer never touches a deadline when it applies a collection operation. */
  lemma ApplyKeepsTtl(c: Cell, key: Key, m: Mutation)
    ensures
      var r := ApplyToCell(c, WalEntry.Mutation(key, m));
      r.Ok? ==> r.value.ttl == c.ttl
  {
  }

  /** Adding to a dead key: both sides start afresh, unless the replayed one still has its past deadline. */
  lemma CreateOnDead(live: Cell, replayed: Cell, now: nat, key: Key, m: Mutation)
    requires Agrees(live, replayed, now) && Owned(live) && Dead(live, now)
    requires Creates(m) && HasArguments(m)
    ensures
      var o := ExecMutation(live, now, key, m);
      CellKept(o.cell, ReplayedCell(replayed, o.entry), now) <==> !Expired(replayed, now)
  {
    ExecOnDead(live, now, key, m);
    ApplyOnMissing(ABSENT, key, m);
    ApplyKeepsTtl(replayed, key, m);
  }

  /** The same result on both sides: what is logged is replayed, and what is not changed nothing. */
  lemma ConcludeSame(live: Cell, now: nat, key: Key, v: Value, m: Mutation, r: Result<Mutated, TypeError>)
    requires live.value == Some(v) && !Expired(live, now)
    requires r.Ok? && !Logged(m, r.value.answer) ==> r.value.value == v
    ensures
      var o := Conclude(live, key, v, m, r);
      match o.entry
      case None => Agrees(o.cell, live, now)
      case Some(e) => e == WalEntry.Mutation(key, m) && CellKept(o.cell, Replaced(live, r), now)
  {
  }

  /** The same operation on the same value does the same on both sides. */
  lemma MutateSame(live: Cell, now: nat, key: Key, v: Value, m: Mutation)
    requires live.value == Some(v) && !Expired(live, now)
    ensures
      var o := MutateCell(live, key, v, m);
      CellKept(o.cell, ReplayedCell(live, o.entry), now)
  {
    var r := Mutate(v, m);
    if r.Ok? {
      UnloggedIsNoOp(v, m);
    }
    ConcludeSame(live, now, key, v, m, r);
    assert ApplyToCell(live, WalEntry.Mutation(key, m)) == Replaced(live, r);
  }

  /** A failed operation leaves the empty collection, and nothing in the log. */
  lemma ConcludeError(live: Cell, now: nat, key: Key, v: Value, m: Mutation, error: TypeError)
    requires live.value == Some(v) && IsEmptyCollection(v) && !Expired(live, now)
    ensures
      var o := Conclude(live, key, v, m, Err(error));
      CellKept(o.cell, ReplayedCell(live.(value := None), o.entry), now)
  {
  }

  /** An empty collection of another kind than an operation creates is an error to it. */
  lemma WrongKind(v: Value, m: Mutation)
    requires IsEmptyCollection(v) && Creates(m) && v != Default(m)
    ensures Mutate(v, m) == Err(TypeError.WrongType)
  {
  }

  /** An empty collection missing on the replayed side is created anew. */
  lemma CreateMissing(live: Cell, now: nat, key: Key, v: Value, m: Mutation)
    requires live.value == Some(v) && IsEmptyCollection(v) && !Expired(live, now)
    requires Creates(m) && HasArguments(m)
    ensures
      var o := MutateCell(live, key, v, m);
      CellKept(o.cell, ReplayedCell(live.(value := None), o.entry), now)
  {
    if v == Default(m) {
      ApplyOnMissing(live.(value := None), key, m);
      CreatedBoth(live, now, key, v, m, Mutate(v, m));
    } else {
      WrongKind(v, m);
      ConcludeError(live, now, key, v, m, TypeError.WrongType);
    }
  }

  lemma CreatedBoth(live: Cell, now: nat, key: Key, v: Value, m: Mutation, r: Result<Mutated, TypeError>)
    requires Creates(m) && HasArguments(m) && v == Default(m) && r == Mutate(v, m) && !Expired(live, now)
    ensures
      var o := Conclude(live, key, v, m, r);
      o.entry == Some(WalEntry.Mutation(key, m)) && o.cell == live.(value := Some(FreshValue(m)))
      && Agrees(o.cell, o.cell, now)
  {
    CreatorOnFresh(m);
  }

  /** Other operations pass a missing key by; they leave the live empty collection empty. */
  lemma ChangeMissing(live: Cell, now: nat, key: Key, v: Value, m: Mutation)
    requires live.value == Some(v) && IsEmptyCollection(v) && !Expired(live, now) && !Creates(m)
    ensures
      var o := MutateCell(live, key, v, m);
      CellKept(o.cell, ReplayedCell(live.(value := None), o.entry), now)
  {
    var r := Mutate(v, m);
    match r
    case Err(error) => ConcludeError(live, now, key, v, m, error);
    case Ok(done) =>
      UpdaterOnEmpty(v, m);
      ConcludeUnchanged(live, now, key, v, m, r);
  }

  lemma ConcludeUnchanged(live: Cell, now: nat, key: Key, v: Value, m: Mutation, r: Result<Mutated, TypeError>)
    requires live.value == Some(v) && IsEmptyCollection(v) && !Expired(live, now) && !Creates(m)
    requires r.Ok? && r.value.value == v
    ensures
      var o := Conclude(live, key, v, m, r);
      CellKept(o.cell, ReplayedCell(live.(value := None), o.entry), now)
  {
    assert ApplyToCell(live.(value := None), WalEntry.Mutation(key, m)) == Ok(live.(value := None));
  }

  /** Changing a live value keeps agreement. */
  lemma MutateAlive(live: Cell, replayed: Cell, now: nat, key: Key, m: Mutation)
    requires Agrees(live, replayed, now) && Owned(live) && !Dead(live, now) && HasArguments(m)
    ensures
      var o := ExecMutation(live, now, key, m);
      CellKept(o.cell, ReplayedCell(replayed, o.entry), now)
  {
    var v := live.value.value;
    assert ExecMutation(live, now, key, m) == MutateCell(live, key, v, m);
    if replayed.value.Some? {
      assert replayed == live;
      MutateSame(live, now, key, v, m);
    } else {
      assert replayed == live.(value := None);
      if Creates(m) {
        CreateMissing(live, now, key, v, m);
      } else {
        ChangeMissing(live, now, key, v, m);
      }
    }
  }

  /** Collection operations keep agreement unless they revive a lapsed key. */
  lemma MutationStep(live: Cell, replayed: Cell, now: nat, key: Key, m: Mutation)
    requires Agrees(live, replayed, now) && Owned(live)
    ensures
      var o := ExecMutation(live, now, key, m);
      CellKept(o.cell, ReplayedCell(replayed, o.entry), now)
      <==> !(Creates(m) && HasArguments(m) && Expired(replayed, now))
  {
    if !HasArguments(m) || (Dead(live, now) && !Creates(m)) {
      var o := ExecMutation(live, now, key, m);
      assert o.entry.None? && o.cell == Lapse(live, now);
    } else if Dead(live, now) {
      CreateOnDead(live, replayed, now, key, m);
    } else {
      MutateAlive(live, replayed, now, key, m);
    }
  }

  /** Commands on one key keep agreement on that key exactly when they are not hazards. */
  lemma CellStep(live: Cell, replayed: Cell, now: nat, cmd: Command)
    requires OneKey(cmd) && Agrees(live, replayed, now) && Owned(live)
    ensures
      var o := ExecCell(live, now, cmd);
      CellKept(o.cell, ReplayedCell(replayed, o.entry), now)
      <==> !RevivesLapsed(replayed, now, cmd) && !LeavesUnlogged(live, now, cmd)
  {
    match cmd
    case Mutation(key, m) => MutationStep(live, replayed, now, key, m);
    case _ =>
  }

  /** The replayed side of a step: the appended entry applied, or nothing. */
  function ReplayedAfter(replayed: State, entry: Option<WalEntry>): Result<State, TypeError> {
    match entry
    case None => Ok(replayed)
    case Some(e) => Apply(replayed, e)
  }

  ghost predicate Kept(live: State, replayed: Result<State, TypeError>, now: nat) {
    replayed.Ok? && Agreement(live, replayed.value, now)
  }

  /**
   * Every command, appended entry and all, keeps the two interpreters in
   * agreement if and only if it is not a hazard. In particular replay of the
   * entry does not fail.
   */
  lemma StepExact(live: State, replayed: State, now: nat, cmd: Command)
    requires Agreement(live, replayed, now) && NoOrphans(live)
    ensures
      var e := Exec(live, now, cmd);
      Kept(e.state, ReplayedAfter(replayed, e.entry), now) <==> !Hazard(live, replayed, now, cmd)
  {
    if OneKey(cmd) {
      OneKeyExact(live, replayed, now, cmd);
    } else {
      ManyKeysKept(live, replayed, now, cmd);
    }
  }

  lemma OneKeyExact(live: State, replayed: State, now: nat, cmd: Command)
    requires OneKey(cmd) && Agreement(live, replayed, now) && NoOrphans(live)
    ensures
      var o := ExecCell(At(live, cmd.key), now, cmd);
      Kept(Put(live, cmd.key, o.cell), ReplayedAfter(replayed, o.entry), now) <==> !Hazard(live, replayed, now, cmd)
  {
    var l, r := At(live, cmd.key), At(replayed, cmd.key);
    assert Agrees(l, r, now) && Owned(l);
    CellStep(l, r, now, cmd);
    var o := ExecCell(l, now, cmd);
    OneKeyKept(live, replayed, now, cmd.key, o.cell, o.entry);
  }

  lemma ManyKeysKept(live: State, replayed: State, now: nat, cmd: Command)
    requires !OneKey(cmd) && Agreement(live, replayed, now) && NoOrphans(live)
    ensures var e := Exec(live, now, cmd);
      Kept(e.state, ReplayedAfter(replayed, e.entry), now)
  {
    var e := Exec(live, now, cmd);
    forall k ensures Agrees(At(e.state, k), At(ReplayedAfter(replayed, e.entry).value, k), now) {
      ManyKeysStep(live, replayed, now, cmd, k);
    }
  }

  /** Deletions, lazy or not, and sweeps: a key whose value goes was dead on both sides, or its removal is logged. */
  lemma ManyKeysStep(live: State, replayed: State, now: nat, cmd: Command, k: Key)
    requires !OneKey(cmd) && Agreement(live, replayed, now) && NoOrphans(live)
    ensures
      var e := Exec(live, now, cmd);
      var after := ReplayedAfter(replayed, e.entry);
      after.Ok? && Agrees(At(e.state, k), At(after.value, k), now)
  {
    var c := At(live, k);
    assert Agrees(c, At(replayed, k), now) && Owned(c);
    ExecPointwise(live, now, cmd, k);
    match cmd
    case Del(keys) => DelStep(live, replayed, now, keys, k);
    case _ =>
  }

  lemma DelStep(live: State, replayed: State, now: nat, keys: seq<Key>, k: Key)
    requires Agrees(At(live, k), At(replayed, k), now) && Owned(At(live, k))
    ensures
      var e := Exec(live, now, Command.Del(keys));
      var after := ReplayedAfter(replayed, e.entry);
      after.Ok? && Agrees(At(e.state, k), At(after.value, k), now)
  {
    var e := Exec(live, now, Command.Del(keys));
    if k in keys {
      assert k in Elements(keys);
      if e.entry.None? {
        assert k !in Elements(keys) * live.data.Keys;
      }
    }
  }

  /** Changing one key on both sides keeps agreement exactly when it does on that key. */
  lemma OneKeyKept(live: State, replayed: State, now: nat, key: Key, c: Cell, entry: Option<WalEntry>)
    requires Agreement(live, replayed, now)
    requires entry.Some? ==> !entry.value.Del? && entry.value.key == key
    ensures
      Kept(Put(live, key, c), ReplayedAfter(replayed, entry), now)
      <==> CellKept(c, ReplayedCell(At(replayed, key), entry), now)
  {
    var l, after := Put(live, key, c), ReplayedAfter(replayed, entry);
    var r := ReplayedCell(At(replayed, key), entry);
    if r.Ok? {
      assert At(after.value, key) == r.value && At(l, key) == c;
      forall k | k != key ensures Agrees(At(l, k), At(after.value, k), now) {
        assert Agrees(At(live, k), At(replayed, k), now);
      }
    }
  }

  /** Compaction keeps agreement exactly when no unexpired empty collection has a deadline. */
  lemma CompactionExact(live: State, now: nat)
    requires NoOrphans(live)
    ensures Agreement(live, Visible(live, now), now) <==> !CompactionHazard(live, now)
  {
    forall k
      ensures Agrees(At(live, k), At(Visible(live, now), k), now) <==> !DropsDeadline(At(live, k), now)
    {
      assert Owned(At(live, k));
    }
  }

  // -------------------------------------------------------------------- runs

  /** A command, or a compaction that replaces the log by the given entries. */
  datatype Event = Do(at: nat, cmd: Command) | Compact(at: nat, entries: seq<WalEntry>)

  /** The live database and its log, written synchronously. */
  datatype Session = Session(live: State, log: seq<WalEntry>, now: nat)

  function Next(s: Session, ev: Event): Session {
    match ev
    case Do(at, cmd) =>
      var e := Exec(s.live, at, cmd);
      Session(e.state, s.log + (if e.entry.Some? then [e.entry.value] else []), at)
    case Compact(at, entries) => Session(s.live, entries, at)
  }

  /** Time does not run backwards, and a compaction writes a snapshot of the live state. */
  ghost predicate Possible(s: Session, ev: Event) {
    s.now <= ev.at && (ev.Compact? ==> IsSnapshot(s.live, ev.at, ev.entries))
  }

  /** The step is none of the three hazards. */
  ghost predicate Safe(s: Session, ev: Event)
    requires Replay(s.log).Ok?
  {
    match ev
    case Do(at, cmd) => !Hazard(s.live, Replay(s.log).value, at, cmd)
    case Compact(at, _) => !CompactionHazard(s.live, at)
  }

  /** The log replays, to a state that agrees with the live one. */
  ghost predicate Faithful(s: Session) {
    && NoOrphans(s.live)
    && Kept(s.live, Replay(s.log), s.now)
  }

  /** A session over a log whose replay left no orphan deadlines; the empty log is the fresh database. */
  ghost predicate Resumable(log: seq<WalEntry>) {
    Replay(log).Ok? && NoOrphans(Replay(log).value)
  }

  /** A freshly compacted log can always be resumed. */
  lemma SnapshotResumable(st: State, now: nat, entries: seq<WalEntry>)
    requires IsSnapshot(st, now, entries)
    ensures Resumable(entries)
  {
    forall k ensures Owned(At(Visible(st, now), k)) {
      assert At(Visible(st, now), k) == VisibleCell(At(st, k), now);
    }
  }

  function Resume(log: seq<WalEntry>, now: nat): Session
    requires Replay(log).Ok?
  {
    Session(Replay(log).value, log, now)
  }

  function After(s: Session, run: seq<Event>): Session {
    if run == [] then s else Next(After(s, run[..|run| - 1]), run[|run| - 1])
  }

  /** Every step of the run is possible where it happens. */
  ghost predicate PossibleRun(s: Session, run: seq<Event>) {
    run == [] || (
      var init := run[..|run| - 1];
      PossibleRun(s, init) && Possible(After(s, init), run[|run| - 1]))
  }

  /** No step of the run is a hazard. */
  ghost predicate SafeRun(s: Session, run: seq<Event>) {
    run == [] || (
      var init := run[..|run| - 1];
      SafeRun(s, init) && (Replay(After(s, init).log).Ok? ==> Safe(After(s, init), run[|run| - 1])))
  }

  /** The session is faithful after every step of the run. */
  ghost predicate AlwaysFaithful(s: Session, run: seq<Event>) {
    Faithful(After(s, run)) && (run == [] || AlwaysFaithful(s, run[..|run| - 1]))
  }

  /** One step keeps a session faithful if and only if it is safe. */
  lemma NextExact(s: Session, ev: Event)
    requires Faithful(s) && Possible(s, ev)
    ensures Faithful(Next(s, ev)) <==> Safe(s, ev)
    ensures NoOrphans(Next(s, ev).live)
  {
    var r := Replay(s.log).value;
    AgreementShows(s.live, r, s.now, ev.at);
    match ev
    case Do(at, cmd) =>
      var e := Exec(s.live, at, cmd);
      StepKeepsOwned(s.live, at, cmd);
      StepExact(s.live, r, at, cmd);
      if e.entry.Some? {
        ReplayAppend(EMPTY, s.log, e.entry.value);
      } else {
        assert s.log + [] == s.log;
      }
    case Compact(at, entries) =>
      CompactionExact(s.live, at);
  }

  /** A run is safe if and only if the session stays faithful all along. */
  lemma {:induction false} SafeRunsExact(s: Session, run: seq<Event>)
    requires Faithful(s) && PossibleRun(s, run)
    ensures SafeRun(s, run) <==> AlwaysFaithful(s, run)
  {
    if run != [] {
      var init := run[..|run| - 1];
      SafeRunsExact(s, init);
      if Faithful(After(s, init)) {
        NextExact(After(s, init), run[|run| - 1]);
      }
    }
  }

  /**
   * Replay refines execution: over every safe run of commands, lapses, sweeps
   * and compactions, from the empty database or a resumed log, replaying the
   * accumulated log never fails and shows what the live database shows, at
   * that and every later time, with the same absolute deadlines.
   */
  lemma ReplayRefinesExecution(log: seq<WalEntry>, start: nat, run: seq<Event>, later: nat)
    requires Resumable(log)
    requires var s := Resume(log, start); PossibleRun(s, run) && SafeRun(s, run)
    requires After(Resume(log, start), run).now <= later
    ensures
      var s := After(Resume(log, start), run);
      Replay(s.log).Ok? && Visible(Replay(s.log).value, later) == Visible(s.live, later)
  {
    var s := Resume(log, start);
    AgreementStarts(s.live, start);
    SafeRunsExact(s, run);
    var t := After(s, run);
    AgreementShows(t.live, Replay(t.log).value, t.now, later);
  }

  // --------------------------------------------------- hazards do diverge

  /** The views differ at the current time, or replay fails. */
  ghost predicate Diverged(s: Session) {
    Replay(s.log).Err? || Visible(Replay(s.log).value, s.now) != Visible(s.live, s.now)
  }

  /**
   * The hazards are no artefact of the invariant. From a faithful session, an
   * unsafe command makes what replay shows differ at once (or fail), and an
   * unsafe compaction makes it differ after one more command.
   */
  lemma UnsafeDiverges(s: Session, ev: Event) returns (next: Event)
    requires Faithful(s) && Possible(s, ev) && !Safe(s, ev)
    ensures ev.Do? ==> Diverged(Next(s, ev))
    ensures ev.Compact? ==> next.Do? && Possible(Next(s, ev), next) && Diverged(Next(Next(s, ev), next))
  {
    match ev
    case Do(at, cmd) =>
      next := ev;
      UnsafeCommandShows(s, at, cmd);
    case Compact(at, entries) =>
      var k :| DropsDeadline(At(s.live, k), at);
      var m := Refill(At(s.live, k).value.value);
      RefillFits(At(s.live, k).value.value);
      next := Do(at, Command.Mutation(k, m));
      LostDeadlineShows(Next(s, ev), k, m);
  }

  /** An operation that adds an element to a collection of the given kind. */
  function Refill(v: Value): Mutation {
    match v
    case Set(_) => SAdd(["x"])
    case ZSet(_) => ZAdd([("x", 0)])
    case Hash(_) => HSet("x", "x")
    case _ => RPush(["x"])
  }

  lemma RefillFits(v: Value)
    requires IsEmptyCollection(v)
    ensures Creates(Refill(v)) && HasArguments(Refill(v)) && v == Default(Refill(v))
  {
  }

  lemma UnsafeCommandShows(s: Session, at: nat, cmd: Command)
    requires Faithful(s) && Possible(s, Do(at, cmd)) && !Safe(s, Do(at, cmd))
    ensures Diverged(Next(s, Do(at, cmd)))
  {
    var r := Replay(s.log).value;
    AgreementShows(s.live, r, s.now, at);
    assert Agrees(At(s.live, cmd.key), At(r, cmd.key), at) && Owned(At(s.live, cmd.key));
    if RevivesLapsed(At(r, cmd.key), at, cmd) {
      RevivalShows(s, at, cmd.key, cmd.mutation);
    } else {
      ResidueShows(s, at, cmd);
    }
  }

  /** A session after a creating operation on a dead key. */
  lemma NextOnDead(s: Session, at: nat, key: Key, m: Mutation)
    requires Owned(At(s.live, key)) && Dead(At(s.live, key), at) && Creates(m) && HasArguments(m)
    ensures Next(s, Do(at, Command.Mutation(key, m)))
      == Session(Put(s.live, key, Cell(Some(FreshValue(m)), None)), s.log + [WalEntry.Mutation(key, m)], at)
  {
    ExecOnDead(At(s.live, key), at, key, m);
  }

  /** A revived key is visible live, and under its past deadline after replay. */
  lemma RevivalShows(s: Session, at: nat, key: Key, m: Mutation)
    requires Replay(s.log).Ok? && Agrees(At(s.live, key), At(Replay(s.log).value, key), at) && Owned(At(s.live, key))
    requires Creates(m) && HasArguments(m) && Expired(At(Replay(s.log).value, key), at)
    ensures Diverged(Next(s, Do(at, Command.Mutation(key, m))))
  {
    var r, e := Replay(s.log).value, WalEntry.Mutation(key, m);
    NextOnDead(s, at, key, m);
    ReplayAppend(EMPTY, s.log, e);
    ApplyKeepsTtl(At(r, key), key, m);
    if Apply(r, e).Ok? {
      LooksDifferent(Put(s.live, key, Cell(Some(FreshValue(m)), None)), Apply(r, e).value, at, key);
    }
  }

  /** A key that looks different makes the views different. */
  lemma LooksDifferent(a: State, b: State, now: nat, key: Key)
    requires VisibleCell(At(a, key), now) != VisibleCell(At(b, key), now)
    ensures Visible(a, now) != Visible(b, now)
  {
    assert At(Visible(a, now), key) != At(Visible(b, now), key);
  }

  /** The empty string left behind is visible live, and unknown to the log. */
  lemma ResidueShows(s: Session, at: nat, cmd: Command)
    requires Replay(s.log).Ok? && (cmd.Append? || cmd.SetRange?) && LeavesUnlogged(At(s.live, cmd.key), at, cmd)
    requires Agrees(At(s.live, cmd.key), At(Replay(s.log).value, cmd.key), at) && Owned(At(s.live, cmd.key))
    ensures Diverged(Next(s, Do(at, cmd)))
  {
    var t, r := Next(s, Do(at, cmd)), Replay(s.log).value;
    assert Lapse(At(s.live, cmd.key), at) == ABSENT;
    assert At(t.live, cmd.key) == Cell(Some(Value.Str([])), None) && t.log == s.log;
    LooksDifferent(t.live, r, at, cmd.key);
  }

  /** After an unsafe compaction, adding an element makes the missing deadline visible. */
  lemma LostDeadlineShows(s: Session, k: Key, m: Mutation)
    requires DropsDeadline(At(s.live, k), s.now)
    requires Creates(m) && HasArguments(m) && At(s.live, k).value.value == Default(m)
    requires Replay(s.log) == Ok(Visible(s.live, s.now))
    ensures Diverged(Next(s, Do(s.now, Command.Mutation(k, m))))
  {
    var c := At(s.live, k);
    var cmd, entry := Command.Mutation(k, m), WalEntry.Mutation(k, m);
    ExecOnEmpty(c, s.now, k, m);
    ApplyOnMissing(ABSENT, k, m);
    ReplayAppend(EMPTY, s.log, entry);
    var live := Exec(s.live, s.now, cmd).state;
    assert Next(s, Do(s.now, cmd)) == Session(live, s.log + [entry], s.now);
    DeadlineDiffers(live, Apply(Visible(s.live, s.now), entry).value, s.now, k, FreshValue(m), c.ttl);
  }

  /** Two states holding the same value under different deadlines, neither reached, look different. */
  lemma DeadlineDiffers(a: State, b: State, now: nat, k: Key, v: Value, ttl: Option<nat>)
    requires !IsEmptyCollection(v) && ttl.Some? && ttl.value > now
    requires At(a, k) == Cell(Some(v), ttl) && At(b, k) == Cell(Some(v), None)
    ensures Visible(b, now) != Visible(a, now)
  {
    LooksDifferent(a, b, now, k);
  }

  /** On an empty collection of its kind a creating operation does as on a missing key, but keeps the deadline. */
  lemma ExecOnEmpty(c: Cell, now: nat, key: Key, m: Mutation)
    requires Creates(m) && HasArguments(m) && c.value == Some(Default(m)) && !Expired(c, now)
    ensures
      var o := ExecMutation(c, now, key, m);
      o.cell == c.(value := Some(FreshValue(m))) && o.entry == Some(WalEntry.Mutation(key, m))
  {
    CreatorOnFresh(m);
  }

  // ------------------------------------------------------- concrete failures

  const PUSH_A: Mutation := RPush(["a"])
  const PUSH_B: Mutation := RPush(["b"])
  const LAPSED_LOG: seq<WalEntry> := [WalEntry.Mutation("k", PUSH_A), WalEntry.Expire("k", 5)]

  lemma LapsedLogReplays()
    ensures Replay(LAPSED_LOG).Ok? && At(Replay(LAPSED_LOG).value, "k") == Cell(Some(Value.List(["a"])), Some(5))
    ensures forall k :: k != "k" ==> At(Replay(LAPSED_LOG).value, k) == ABSENT
  {
    assert [] + ["a"] == ["a"];
    ReplayAppend(EMPTY, [], LAPSED_LOG[0]);
    ReplayAppend(EMPTY, [] + [LAPSED_LOG[0]], LAPSED_LOG[1]);
    assert LAPSED_LOG == [] + [LAPSED_LOG[0]] + [LAPSED_LOG[1]];
  }

  const HELD: Cell := Cell(Some(Value.List(["a"])), Some(5))

  /** RPUSH and PEXPIRE: a list of one element, with a deadline. */
  lemma HeldRun()
    ensures
      var s := Next(Next(Resume([], 0), Do(0, Command.Mutation("k", PUSH_A))), Do(0, Command.PExpire("k", 5)));
      s.log == LAPSED_LOG && s.now == 0 && At(s.live, "k") == HELD && forall k :: k != "k" ==> At(s.live, k) == ABSENT
  {
    assert [] + ["a"] == ["a"];
    var s := Next(Resume([], 0), Do(0, Command.Mutation("k", PUSH_A)));
    assert At(s.live, "k") == HELD.(ttl := None);
  }

  /** A read after the deadline: the key is gone but the log still has it. */
  lemma LapsedRun(s: Session)
    requires s.log == LAPSED_LOG && s.now == 0 && At(s.live, "k") == HELD
    requires forall k :: k != "k" ==> At(s.live, k) == ABSENT
    ensures Next(s, Do(9, Command.Read({"k"}))) == Session(EMPTY, LAPSED_LOG, 9)
  {
    assert "k" in ExpiredKeys(s.live, 9);
    SameState(Next(s, Do(9, Command.Read({"k"}))).live, EMPTY);
  }

  /** Revival: after that, another RPUSH. The live database has a list; replay shows nothing. */
  lemma RevivalExample()
    ensures
      var push, expire := Do(0, Command.Mutation("k", PUSH_A)), Do(0, Command.PExpire("k", 5));
      var read := Do(9, Command.Read({"k"}));
      var again := Do(9, Command.Mutation("k", PUSH_B));
      Diverged(Next(Next(Next(Next(Resume([], 0), push), expire), read), again))
  {
    HeldRun();
    LapsedRun(Next(Next(Resume([], 0), Do(0, Command.Mutation("k", PUSH_A))), Do(0, Command.PExpire("k", 5))));
    LapsedLogReplays();
    UnsafeCommandShows(Session(EMPTY, LAPSED_LOG, 9), 9, Command.Mutation("k", PUSH_B));
  }

  /** Unlogged residue: an APPEND over the size cap on a missing key answers an error, yet the key now exists. */
  lemma ResidueExample(suffix: bytes)
    requires |suffix| == MAX_STRING_SIZE + 1
    ensures
      var s := Next(Resume([], 0), Do(0, Command.Append("k", suffix)));
      Exec(EMPTY, 0, Command.Append("k", suffix)).reply == Failed(DbError.StringTooLarge) && Diverged(s)
  {
    var s := Next(Resume([], 0), Do(0, Command.Append("k", suffix)));
    assert At(Visible(s.live, 0), "k") == Cell(Some(Value.Str([])), None);
    assert s.log == [];
    assert At(Visible(EMPTY, 0), "k") == ABSENT;
  }

  /** An LPOP that empties the list leaves it there, deadline and all. */
  lemma EmptiedRun(s: Session)
    requires At(s.live, "k") == HELD && forall k :: k != "k" ==> At(s.live, k) == ABSENT
    ensures
      var t := Next(s, Do(0, Command.Mutation("k", LPop(1))));
      At(t.live, "k") == Cell(Some(Value.List([])), Some(5)) && forall k :: k != "k" ==> At(t.live, k) == ABSENT
  {
    ExecPointwise(s.live, 0, Command.Mutation("k", LPop(1)), "k");
    assert ["a"][1..] == [];
  }

  /** Dropped deadline: after that, a compaction and RPUSH. The live database has a deadline; replay has none. */
  lemma DroppedDeadlineExample()
    ensures
      var push, expire := Do(0, Command.Mutation("k", PUSH_A)), Do(0, Command.PExpire("k", 5));
      var pop := Do(0, Command.Mutation("k", LPop(1)));
      var s, compact := Next(Next(Next(Resume([], 0), push), expire), pop), Compact(0, []);
      Possible(s, compact) && Diverged(Next(Next(s, compact), push))
  {
    HeldRun();
    var held := Next(Next(Resume([], 0), Do(0, Command.Mutation("k", PUSH_A))), Do(0, Command.PExpire("k", 5)));
    EmptiedRun(held);
    var s := Next(held, Do(0, Command.Mutation("k", LPop(1))));
    SameState(Visible(s.live, 0), EMPTY);
    LostDeadlineShows(Next(s, Compact(0, [])), "k", PUSH_A);
  }
}
