/**
 * Expiry is invisible: lapsed keys may be deleted by a read, by a command, by
 * a sweep, or not yet at all; no later logical state depends on which.
 */
module Expiry {
  import opened Base
  import opened Values
  import opened Log
  import opened Keyspace

  /** What is logically there: unexpired values (empty collections included) with their deadlines. */
  function LogicalCell(c: Cell, now: nat): Cell {
    if Expired(c, now) || c.value.None? then ABSENT else c
  }

  ghost predicate SameLogically(a: State, b: State, now: nat) {
    forall k :: LogicalCell(At(a, k), now) == LogicalCell(At(b, k), now)
  }

  /** Once equal, logically equal at every later time. */
  lemma SameLater(a: State, b: State, now: nat, later: nat)
    requires SameLogically(a, b, now) && now <= later
    ensures SameLogically(a, b, later)
  {
    forall k ensures LogicalCell(At(a, k), later) == LogicalCell(At(b, k), later) {
      assert LogicalCell(At(a, k), now) == LogicalCell(At(b, k), now);
    }
  }

  /** A command first deletes its key if that has lapsed, or else overwrites it or leaves it alone. */
  lemma ExecSeesLogical(c: Cell, now: nat, cmd: Command)
    requires Owned(c) && OneKey(cmd)
    ensures
      var o, p := ExecCell(c, now, cmd), ExecCell(LogicalCell(c, now), now, cmd);
      LogicalCell(o.cell, now) == LogicalCell(p.cell, now) && o.entry == p.entry
  {
    assert LogicalCell(c, now) == Lapse(c, now);
  }

  /**
   * Each command's effect on the logical state depends on the logical state
   * only, and so does what a single-key command logs. Without orphan
   * deadlines: a deletion clears a deadline only along with a value.
   */
  lemma StepSeesLogical(a: State, b: State, now: nat, cmd: Command)
    requires NoOrphans(a) && NoOrphans(b) && SameLogically(a, b, now)
    ensures SameLogically(Exec(a, now, cmd).state, Exec(b, now, cmd).state, now)
    ensures OneKey(cmd) ==> Exec(a, now, cmd).entry == Exec(b, now, cmd).entry
  {
    forall k
      ensures LogicalCell(At(Exec(a, now, cmd).state, k), now) == LogicalCell(At(Exec(b, now, cmd).state, k), now)
    {
      assert LogicalCell(At(a, k), now) == LogicalCell(At(b, k), now) && Owned(At(a, k)) && Owned(At(b, k));
      ExecPointwise(a, now, cmd, k);
      ExecPointwise(b, now, cmd, k);
      CellSeesLogical(At(a, k), At(b, k), now, cmd, k);
    }
    if OneKey(cmd) {
      assert LogicalCell(At(a, cmd.key), now) == LogicalCell(At(b, cmd.key), now);
      assert Owned(At(a, cmd.key)) && Owned(At(b, cmd.key));
      ExecSeesLogical(At(a, cmd.key), now, cmd);
      ExecSeesLogical(At(b, cmd.key), now, cmd);
    }
  }

  lemma CellSeesLogical(a: Cell, b: Cell, now: nat, cmd: Command, k: Key)
    requires Owned(a) && Owned(b) && LogicalCell(a, now) == LogicalCell(b, now)
    ensures LogicalCell(CellAfter(a, now, cmd, k), now) == LogicalCell(CellAfter(b, now, cmd, k), now)
  {
    if OneKey(cmd) && k == cmd.key {
      ExecSeesLogical(a, now, cmd);
      ExecSeesLogical(b, now, cmd);
    }
  }

  /** Reads and sweeps change nothing logically. */
  lemma CleanupIsInvisible(st: State, now: nat, cmd: Command)
    requires NoOrphans(st) && (cmd.Read? || cmd.Sweep?)
    ensures SameLogically(Exec(st, now, cmd).state, st, now)
  {
    forall k ensures LogicalCell(At(Exec(st, now, cmd).state, k), now) == LogicalCell(At(st, k), now) {
      ExecPointwise(st, now, cmd, k);
      assert Owned(At(st, k));
    }
  }

  /** A run in which time does not run backwards. */
  ghost predicate Timely(run: seq<Timed>) {
    forall i, j :: 0 <= i < j < |run| ==> run[i].at <= run[j].at
  }

  /** The commands of a run other than reads and sweeps. */
  function Stripped(run: seq<Timed>): seq<Timed> {
    if run == [] then []
    else
      var last := run[|run| - 1];
      Stripped(run[..|run| - 1]) + if last.cmd.Read? || last.cmd.Sweep? then [] else [last]
  }

  /**
   * Whatever reads and sweeps are interleaved with a run, at whatever points,
   * the logical state afterwards is that of the run without them.
   */
  lemma {:induction false} CleanupNeverMatters(run: seq<Timed>, now: nat)
    requires Timely(run) && (run != [] ==> run[|run| - 1].at <= now)
    ensures SameLogically(RunState(EMPTY, run), RunState(EMPTY, Stripped(run)), now)
  {
    if run != [] {
      var init, last := run[..|run| - 1], run[|run| - 1];
      var t := last.at;
      CleanupNeverMatters(init, t);
      var a, b := RunState(EMPTY, init), RunState(EMPTY, Stripped(init));
      NoOrphanTtls(init);
      NoOrphanTtls(Stripped(init));
      if last.cmd.Read? || last.cmd.Sweep? {
        assert Stripped(run) == Stripped(init);
        CleanupIsInvisible(a, t, last.cmd);
        forall k ensures LogicalCell(At(RunState(EMPTY, run), k), t) == LogicalCell(At(b, k), t) {
          assert LogicalCell(At(a, k), t) == LogicalCell(At(b, k), t);
        }
      } else {
        assert Stripped(run)[..|Stripped(run)| - 1] == Stripped(init);
        StepSeesLogical(a, b, t, last.cmd);
      }
      SameLater(RunState(EMPTY, run), RunState(EMPTY, Stripped(run)), t, now);
    }
  }

  /** Two interleavings of cleanup with the same commands end in the same logical state. */
  lemma CleanupOrderIrrelevant(a: seq<Timed>, b: seq<Timed>, now: nat)
    requires Timely(a) && Timely(b) && Stripped(a) == Stripped(b)
    requires (a != [] ==> a[|a| - 1].at <= now) && (b != [] ==> b[|b| - 1].at <= now)
    ensures SameLogically(RunState(EMPTY, a), RunState(EMPTY, b), now)
  {
    CleanupNeverMatters(a, now);
    CleanupNeverMatters(b, now);
    forall k ensures LogicalCell(At(RunState(EMPTY, a), k), now) == LogicalCell(At(RunState(EMPTY, b), k), now) {
      assert LogicalCell(At(RunState(EMPTY, a), k), now) == LogicalCell(At(RunState(EMPTY, Stripped(a)), k), now);
    }
  }

  /** Of the listed keys, those whose deadline has been reached and whose value nothing has deleted yet. */
  function LapsedAmong(st: State, now: nat, keys: seq<Key>): set<Key> {
    Elements(keys) * ExpiredKeys(st, now)
  }

  /** Of the listed keys, those that are logically there. */
  function UnexpiredAmong(st: State, now: nat, keys: seq<Key>): set<Key> {
    Elements(keys) * st.data.Keys - ExpiredKeys(st, now)
  }

  /** What DEL finds. */
  function Found(st: State, keys: seq<Key>): set<Key> {
    Elements(keys) * st.data.Keys
  }

  /** DEL answers how many keys it finds, and is logged if it finds any. */
  lemma DelOutcome(st: State, now: nat, keys: seq<Key>)
    ensures
      var e := Exec(st, now, Command.Del(keys));
      && e.reply == Answered(Count(|Found(st, keys)|))
      && e.entry == if Found(st, keys) != {} then Some(WalEntry.Del(keys)) else None
  {
  }

  /** It finds the unexpired keys, which the logical state fixes, and the lapsed ones, which it does not. */
  lemma DelFinds(st: State, now: nat, keys: seq<Key>)
    requires NoOrphans(st)
    ensures Found(st, keys) == UnexpiredAmong(st, now, keys) + LapsedAmong(st, now, keys)
    ensures |Found(st, keys)| == |UnexpiredAmong(st, now, keys)| + |LapsedAmong(st, now, keys)|
  {
    OwnedSubset(st);
  }

  lemma SameUnexpired(a: State, b: State, now: nat, keys: seq<Key>)
    requires NoOrphans(a) && NoOrphans(b) && SameLogically(a, b, now)
    ensures UnexpiredAmong(a, now, keys) == UnexpiredAmong(b, now, keys)
  {
    forall k ensures k in a.data && k !in ExpiredKeys(a, now) <==> k in b.data && k !in ExpiredKeys(b, now) {
      assert LogicalCell(At(a, k), now) == LogicalCell(At(b, k), now);
      assert k in ExpiredKeys(a, now) <==> Expired(At(a, k), now);
      assert k in ExpiredKeys(b, now) <==> Expired(At(b, k), now);
    }
  }

  /** Two finds with a part in common. */
  lemma CompareFound(a: set<Key>, b: set<Key>, common: set<Key>, restA: set<Key>, restB: set<Key>)
    requires a == common + restA && |a| == |common| + |restA|
    requires b == common + restB && |b| == |common| + |restB|
    ensures |a| == |b| <==> |restA| == |restB|
    ensures (a == {} <==> b == {}) <==> common != {} || (restA == {} <==> restB == {})
  {
  }

  /**
   * The reply and the log entry of DEL are not invisible. On logically equal
   * states the replies agree exactly when equally many of the listed keys have
   * lapsed and not been cleaned up; the entries agree exactly when a listed
   * key is there or such keys are found in both states or in neither.
   */
  lemma DelReplyExact(a: State, b: State, now: nat, keys: seq<Key>)
    requires NoOrphans(a) && NoOrphans(b) && SameLogically(a, b, now)
    ensures Exec(a, now, Command.Del(keys)).reply == Exec(b, now, Command.Del(keys)).reply
      <==> |LapsedAmong(a, now, keys)| == |LapsedAmong(b, now, keys)|
    ensures Exec(a, now, Command.Del(keys)).entry == Exec(b, now, Command.Del(keys)).entry
      <==> UnexpiredAmong(a, now, keys) != {} || (LapsedAmong(a, now, keys) == {} <==> LapsedAmong(b, now, keys) == {})
  {
    SameUnexpired(a, b, now, keys);
    DelFinds(a, now, keys);
    DelFinds(b, now, keys);
    DelOutcome(a, now, keys);
    DelOutcome(b, now, keys);
    CompareFound(Found(a, keys), Found(b, keys), UnexpiredAmong(a, now, keys),
      LapsedAmong(a, now, keys), LapsedAmong(b, now, keys));
  }

  // ------------------------------------------------------ orphans do matter

  /** The logical state by itself: nothing lapsed, no deadline without a value. */
  function Logical(st: State, now: nat): (r: State)
    ensures forall k :: At(r, k) == LogicalCell(At(st, k), now)
  {
    var there := set k | k in st.data && !Expired(At(st, k), now);
    State(map k | k in there :: st.data[k], map k | k in there && k in st.ttl :: st.ttl[k])
  }

  lemma LogicalIsSame(st: State, now: nat)
    ensures NoOrphans(Logical(st, now)) && SameLogically(st, Logical(st, now), now)
  {
    forall k
      ensures Owned(At(Logical(st, now), k))
      ensures LogicalCell(At(st, k), now) == LogicalCell(At(Logical(st, now), k), now)
    {
      assert At(Logical(st, now), k) == LogicalCell(At(st, k), now);
    }
  }

  /** Whatever deadline stands without a value, a push takes it on: it does not do what it does on the logical state. */
  lemma OrphanShows(st: State, now: nat, k: Key)
    requires !Owned(At(st, k))
    ensures
      var push := Command.Mutation(k, RPush(["x"]));
      !SameLogically(Exec(st, now, push).state, Exec(Logical(st, now), now, push).state, now)
  {
    var push := Command.Mutation(k, RPush(["x"]));
    assert [] + ["x"] == ["x"];
    assert At(Logical(st, now), k) == LogicalCell(At(st, k), now) == ABSENT;
    ExecPointwise(st, now, push, k);
    ExecPointwise(Logical(st, now), now, push, k);
    assert LogicalCell(At(Exec(st, now, push).state, k), now)
      != LogicalCell(At(Exec(Logical(st, now), now, push).state, k), now);
  }

  /** Every command does on the state what it does on the logical state alone. */
  ghost predicate SeesLogical(st: State, now: nat) {
    forall cmd :: SameLogically(Exec(st, now, cmd).state, Exec(Logical(st, now), now, cmd).state, now)
  }

  /** Commands see no more than the logical state if and only if every deadline has a value. */
  lemma OrphansMatterExactly(st: State, now: nat)
    ensures SeesLogical(st, now) <==> NoOrphans(st)
  {
    LogicalIsSame(st, now);
    if NoOrphans(st) {
      forall cmd ensures SameLogically(Exec(st, now, cmd).state, Exec(Logical(st, now), now, cmd).state, now) {
        StepSeesLogical(st, Logical(st, now), now, cmd);
      }
    } else {
      var k :| !Owned(At(st, k));
      OrphanShows(st, now, k);
    }
  }

  // ------------------------------------------------------- failed commands

  /**
   * A command that answers an error logs nothing and leaves the logical state
   * as it was, except exactly an APPEND or SETRANGE over the size cap on a key
   * that is not there: that one leaves an empty string behind.
   */
  lemma ErrorsChangeNothing(c: Cell, now: nat, cmd: Command)
    requires Owned(c) && OneKey(cmd) && ExecCell(c, now, cmd).reply.Failed?
    ensures ExecCell(c, now, cmd).entry.None?
    ensures LogicalCell(ExecCell(c, now, cmd).cell, now) == LogicalCell(c, now) <==> !LeavesUnlogged(c, now, cmd)
    ensures LeavesUnlogged(c, now, cmd) ==> ExecCell(c, now, cmd).reply == Failed(DbError.StringTooLarge)
  {
    if cmd.Mutation? && Creates(cmd.mutation) && HasArguments(cmd.mutation) {
      CreatorOnFresh(cmd.mutation);
    }
  }
}
