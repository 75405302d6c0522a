/**
 * The converse of durability: from any durable system, an unsafe step leads
 * to a flush that is acknowledged Ok over a log that does not replay to what
 * was live when the flush was asked for.
 */
module Honesty {
  import opened Base
  import opened Values
  import opened Log
  import opened Keyspace
  import opened Snapshots
  import Refinement
  import opened Writer
  import opened Compaction
  import opened System

  // -------------------------------------------------------------------- runs

  /** The events can happen, and none is a hazard. */
  ghost predicate SafelyRuns(s: Sys, evs: seq<Event>) {
    EnabledRun(s, evs) && SafeRun(s, evs)
  }

  /** Safe events that lead from one state to another. */
  ghost predicate Reaches(s: Sys, evs: seq<Event>, t: Sys) {
    SafelyRuns(s, evs) && After(s, evs) == t
  }

  /** One event more. */
  lemma OneMore(s: Sys, evs: seq<Event>, m: Sys, ev: Event)
    requires Reaches(s, evs, m) && Enabled(m, ev) && Safe(m, ev)
    ensures Reaches(s, evs + [ev], Next(m, ev))
  {
    assert (evs + [ev])[..|evs + [ev]| - 1] == evs;
  }

  /** What the writer has taken has taken effect, and `rest` is queued; nothing else has changed. */
  ghost predicate Worked(s: Sys, ts: seq<Taken>, t: Sys, rest: seq<WalCommand>) {
    && t.disk == Process(s.disk, ts) && t.queue == rest
    && t.db == s.db && t.now == s.now && t.promised == s.promised
  }

  /** Any outcome of a front of the queue can happen. */
  lemma {:induction false} WorksHappen(s: Sys, before: seq<Event>, m: Sys, ts: seq<Taken>, rest: seq<WalCommand>)
    returns (evs: seq<Event>, t: Sys)
    requires Reaches(s, before, m) && m.queue == Commands(ts) + rest
    ensures Reaches(s, evs, t) && Worked(m, ts, t, rest)
    decreases |ts|
  {
    if ts == [] {
      evs, t := before, m;
      assert Commands(ts) + rest == rest;
    } else {
      var init, last := ts[..|ts| - 1], ts[|ts| - 1];
      assert ts == init + [last];
      assert Commands(ts) + rest == Commands(init) + ([last.cmd] + rest);
      evs, t := WorksHappen(s, before, m, init, [last.cmd] + rest);
      WorkTakes(m, init, t, last, rest);
      OneMore(s, evs, t, Work(last.ok));
      evs, t := evs + [Work(last.ok)], Next(t, Work(last.ok));
    }
  }

  lemma WorkTakes(s: Sys, ts: seq<Taken>, m: Sys, t: Taken, rest: seq<WalCommand>)
    requires Worked(s, ts, m, [t.cmd] + rest)
    ensures Enabled(m, Work(t.ok)) && Safe(m, Work(t.ok)) && Worked(s, ts + [t], Next(m, Work(t.ok)), rest)
  {
    ProcessSnoc(s.disk, ts, t);
    assert ([t.cmd] + rest)[1..] == rest;
  }

  // ------------------------------------------------------------------- flush

  /** An id no flush has had. */
  lemma FreshId(ids: set<nat>) returns (id: nat)
    ensures id !in ids
  {
    id := 0;
    var seen: set<nat> := {};
    while id in ids
      invariant seen <= ids && forall i :: i in seen ==> i < id
      decreases ids - seen
    {
      seen := seen + {id};
      id := id + 1;
    }
  }

  /**
   * A flush asked for now, after which the queue is drained with given
   * outcomes: it is acknowledged Ok if these leave no append lost, over the
   * log they lead to, and has promised the state live now.
   */
  lemma FlushDrains(s: Sys, before: seq<Event>, m: Sys, ts: seq<Taken>) returns (evs: seq<Event>, f: Flush)
    requires Reaches(s, before, m) && Commands(ts) == m.queue && !Process(m.disk, ts).failed
    ensures SafelyRuns(s, evs) && f in After(s, evs).flushed
    ensures f.ok && f.stored == Process(m.disk, ts).stored
    ensures f.id !in m.promised && f.id in After(s, evs).promised
    ensures After(s, evs).promised[f.id] == Promise(m.db.live, m.now)
  {
    var id := FreshId(m.promised.Keys);
    var ask := AskFlush(m.now, id);
    OneMore(s, before, m, ask);
    var asked := Next(m, ask);
    var t;
    evs, t := WorksHappen(s, before + [ask], asked, ts, [WalCommand.Flush(id)]);
    FlushAcked(t, id);
    OneMore(s, evs, t, Work(true));
    evs := evs + [Work(true)];
    f := FlushAck(id, !t.disk.failed, t.disk.stored);
  }

  lemma FlushAcked(m: Sys, id: nat)
    requires m.queue == [WalCommand.Flush(id)]
    ensures
      var t := Next(m, Work(true));
      FlushAck(id, !m.disk.failed, m.disk.stored) in t.flushed && t.promised == m.promised
  {
    var f := FlushAck(id, !m.disk.failed, m.disk.stored);
    assert Next(m, Work(true)).flushed == m.flushed + [f];
  }

  /** A flush acknowledged Ok whose stored log fails to replay, or shows something else than when it was asked for. */
  ghost predicate Lies(s: Sys, f: Flush) {
    && f in s.flushed && f.ok && f.id in s.promised
    && var p := s.promised[f.id];
       Replay(f.stored).Err? || Visible(Replay(f.stored).value, p.at) != Visible(p.live, p.at)
  }

  /** A database, and a log the queue may leave, that look different: a flush asked for now may lie. */
  lemma DivergedLies(s: Sys, before: seq<Event>, m: Sys, ts: seq<Taken>) returns (evs: seq<Event>, f: Flush)
    requires Reaches(s, before, m) && Commands(ts) == m.queue && !Process(m.disk, ts).failed
    requires Refinement.Diverged(Refinement.Session(m.db.live, Process(m.disk, ts).stored, m.now))
    ensures SafelyRuns(s, evs) && f.id !in m.promised && Lies(After(s, evs), f)
  {
    evs, f := FlushDrains(s, before, m, ts);
  }

  // ------------------------------------------------------------ unsafe steps

  /** The outcome of what a command sends in which its append commits and its compaction does not. */
  function AppendOnly(sent: seq<WalCommand>): (ts: seq<Taken>)
    ensures Commands(ts) == sent
  {
    seq(|sent|, i requires 0 <= i < |sent| => Taken(sent[i], i == 0))
  }

  /** A rewrite that fails changes nothing but the replies. */
  lemma AppendOnlyLeaves(d: Disk, entry: Option<WalEntry>, sent: seq<WalCommand>)
    requires if entry.None? then sent == []
      else 0 < |sent| <= 2 && sent[0] == WalCommand.Append(entry.value) && (|sent| == 2 ==> sent[1].Rewrite?)
    ensures
      var r := Process(d, AppendOnly(sent));
      r.failed == d.failed && r.stored == d.stored + if entry.Some? then [entry.value] else []
  {
    if |sent| == 2 {
      assert AppendOnly(sent) == [Taken(sent[0], true), Taken(sent[1], false)];
      ProcessTwo(d, Taken(sent[0], true), Taken(sent[1], false));
    } else if |sent| == 1 {
      assert AppendOnly(sent) == [] + [Taken(sent[0], true)];
      ProcessSnoc(d, [], Taken(sent[0], true));
    }
  }

  lemma ProcessTwo(d: Disk, a: Taken, b: Taken)
    ensures Process(d, [a, b]) == Take(Take(d, a), b)
  {
    ProcessSnoc(d, [], a);
    assert [] + [a] == [a] && [a] + [b] == [a, b];
    ProcessSnoc(d, [a], b);
  }

  /** An outcome of the queue over which a command is a hazard, and does harm. */
  lemma HarmfulOutcome(s: Sys, at: nat, cmd: Command) returns (ts: seq<Taken>)
    requires Durable(s) && s.now <= at && !SafeCommand(s, at, cmd)
    ensures Commands(ts) == s.queue && !Process(s.disk, ts).failed
    ensures
      var session := Refinement.Session(s.db.live, Process(s.disk, ts).stored, s.now);
      Refinement.Diverged(Refinement.Next(session, Refinement.Do(at, cmd)))
  {
    ts :| Commands(ts) == s.queue
      && var d := Process(s.disk, ts);
         !d.failed && Replay(d.stored).Ok? && Refinement.Hazard(s.db.live, Replay(d.stored).value, at, cmd);
    var d := Process(s.disk, ts);
    assert Coherent(d, s.db.live, s.now);
    Refinement.UnsafeCommandShows(Refinement.Session(s.db.live, d.stored, s.now), at, cmd);
  }

  /** The log when what a command sends commits, but for its rewrite. */
  lemma OutcomeWithAppend(s: Sys, entry: Option<WalEntry>, sent: seq<WalCommand>, ts: seq<Taken>)
    requires Commands(ts) == s.queue
    requires if entry.None? then sent == []
      else 0 < |sent| <= 2 && sent[0] == WalCommand.Append(entry.value) && (|sent| == 2 ==> sent[1].Rewrite?)
    ensures
      var all, d := ts + AppendOnly(sent), Process(s.disk, ts);
      && Commands(all) == s.queue + sent && Process(s.disk, all).failed == d.failed
      && Process(s.disk, all).stored == d.stored + if entry.Some? then [entry.value] else []
  {
    AppendOnlyLeaves(Process(s.disk, ts), entry, sent);
    ProcessConcat(s.disk, ts, AppendOnly(sent));
    assert Commands(ts + AppendOnly(sent)) == s.queue + sent;
  }

  /** What a command sends, by what it logs. */
  lemma SentShape(db: Db, at: nat, cmd: Command, sent: seq<WalCommand>)
    requires CommandSends(db, at, cmd, sent)
    ensures
      var entry := Exec(db.live, at, cmd).entry;
      if entry.None? then sent == []
      else 0 < |sent| <= 2 && sent[0] == WalCommand.Append(entry.value) && (|sent| == 2 ==> sent[1].Rewrite?)
  {
  }

  /** The database after a command, and the log when its append commits, are those of the synchronous session. */
  lemma CommandOutcome(s: Sys, at: nat, cmd: Command, sent: seq<WalCommand>, ts: seq<Taken>)
    requires CommandSends(s.db, at, cmd, sent) && Commands(ts) == s.queue
    ensures
      var t, all := Next(s, Run(at, cmd, sent)), ts + AppendOnly(sent);
      var session := Refinement.Session(s.db.live, Process(s.disk, ts).stored, s.now);
      && Commands(all) == t.queue && Process(t.disk, all).failed == Process(s.disk, ts).failed
      && Refinement.Next(session, Refinement.Do(at, cmd))
        == Refinement.Session(t.db.live, Process(t.disk, all).stored, t.now)
  {
    SentShape(s.db, at, cmd, sent);
    OutcomeWithAppend(s, Exec(s.db.live, at, cmd).entry, sent, ts);
    RunLive(s, at, cmd, sent);
  }

  /** What a command leaves live does not depend on what it sends. */
  lemma RunLive(s: Sys, at: nat, cmd: Command, sent: seq<WalCommand>)
    ensures
      var t := Next(s, Run(at, cmd, sent));
      t.db.live == Exec(s.db.live, at, cmd).state && t.disk == s.disk && t.queue == s.queue + sent && t.now == at
  {
  }

  /** A command that is a hazard over some log the queue may lead to: a flush right behind it may lie. */
  lemma UnsafeCommandLies(s: Sys, at: nat, cmd: Command, sent: seq<WalCommand>) returns (evs: seq<Event>, f: Flush)
    requires Durable(s) && Enabled(s, Run(at, cmd, sent)) && !SafeCommand(s, at, cmd)
    ensures SafelyRuns(Next(s, Run(at, cmd, sent)), evs) && f.id !in s.promised
    ensures Lies(After(Next(s, Run(at, cmd, sent)), evs), f)
  {
    var ts := HarmfulOutcome(s, at, cmd);
    CommandOutcome(s, at, cmd, sent, ts);
    var t := Next(s, Run(at, cmd, sent));
    evs, f := DivergedLies(t, [], t, ts + AppendOnly(sent));
  }

  /** The command that makes a dropped deadline show. */
  lemma RefillEnabled(s: Sys, k: Key, m: Mutation)
    requires Refinement.DropsDeadline(At(s.db.live, k), s.now) && s.db.inFlight.Some?
    requires Creates(m) && HasArguments(m) && At(s.db.live, k).value.value == Default(m)
    ensures
      var entry := WalEntry.Mutation(k, m);
      && Exec(s.db.live, s.now, Command.Mutation(k, m)).entry == Some(entry)
      && Enabled(s, Run(s.now, Command.Mutation(k, m), [WalCommand.Append(entry)]))
  {
    Refinement.ExecOnEmpty(At(s.db.live, k), s.now, k, m);
    assert [WalCommand.Append(WalEntry.Mutation(k, m))][1..] == [];
  }

  /** A committed rewrite, and an append behind it. */
  lemma RewriteThenAppend(d: Disk, entries: seq<WalEntry>, id: nat, entry: WalEntry)
    ensures
      var r := Process(d, [Taken(Rewrite(entries, id), true), Taken(WalCommand.Append(entry), true)]);
      !r.failed && r.stored == entries + [entry]
  {
    ProcessTwo(d, Taken(Rewrite(entries, id), true), Taken(WalCommand.Append(entry), true));
  }

  /** What a further append leaves when the rewrite before it commits. */
  lemma RefillOutcome(s: Sys, before: seq<WalCommand>, entries: seq<WalEntry>, id: nat, k: Key, m: Mutation)
    returns (ts: seq<Taken>)
    requires s.queue == before + [Rewrite(entries, id)]
    requires Exec(s.db.live, s.now, Command.Mutation(k, m)).entry == Some(WalEntry.Mutation(k, m))
    ensures
      var t := Next(s, Run(s.now, Command.Mutation(k, m), [WalCommand.Append(WalEntry.Mutation(k, m))]));
      var session := Refinement.Session(s.db.live, entries, s.now);
      && Commands(ts) == t.queue && !Process(t.disk, ts).failed
      && Refinement.Next(session, Refinement.Do(s.now, Command.Mutation(k, m)))
        == Refinement.Session(t.db.live, Process(t.disk, ts).stored, t.now)
  {
    var entry := WalEntry.Mutation(k, m);
    var done := SomeOutcome(before);
    var committed := [Taken(Rewrite(entries, id), true), Taken(WalCommand.Append(entry), true)];
    ts := done + committed;
    RewriteThenAppend(Process(s.disk, done), entries, id, entry);
    ProcessConcat(s.disk, done, committed);
    assert Commands(ts) == s.queue + [WalCommand.Append(entry)];
  }

  /** The element added is no hazard itself: no log the queue may lead to has the key under a reached deadline. */
  lemma RefillSafe(s: Sys, before: seq<WalCommand>, entries: seq<WalEntry>, id: nat, k: Key, m: Mutation)
    requires s.queue == before + [Rewrite(entries, id)] && IsSnapshot(s.db.live, s.now, entries)
    requires CoherentAfter(s.disk, before, s.db.live, s.now) && Refinement.DropsDeadline(At(s.db.live, k), s.now)
    ensures SafeCommand(s, s.now, Command.Mutation(k, m))
  {
    forall ts: seq<Taken>
      | Commands(ts) == s.queue && !Process(s.disk, ts).failed && Replay(Process(s.disk, ts).stored).Ok?
      ensures !Expired(At(Replay(Process(s.disk, ts).stored).value, k), s.now)
    {
      RefillUnexpired(s, before, entries, id, k, ts);
    }
  }

  lemma RefillUnexpired(s: Sys, before: seq<WalCommand>, entries: seq<WalEntry>, id: nat, k: Key, ts: seq<Taken>)
    requires s.queue == before + [Rewrite(entries, id)] && IsSnapshot(s.db.live, s.now, entries)
    requires CoherentAfter(s.disk, before, s.db.live, s.now) && Refinement.DropsDeadline(At(s.db.live, k), s.now)
    requires Commands(ts) == s.queue && !Process(s.disk, ts).failed && Replay(Process(s.disk, ts).stored).Ok?
    ensures !Expired(At(Replay(Process(s.disk, ts).stored).value, k), s.now)
  {
    var init, last := SplitLast(s.disk, before, Rewrite(entries, id), ts);
    if last.ok {
      SnapshotDrops(s.db.live, s.now, entries, k);
    } else {
      assert Coherent(Process(s.disk, init), s.db.live, s.now);
      CoherentUnexpired(Process(s.disk, init), s.db.live, s.now, k);
    }
  }

  /** A key that a snapshot drops is not in it. */
  lemma SnapshotDrops(live: State, now: nat, entries: seq<WalEntry>, k: Key)
    requires IsSnapshot(live, now, entries) && Refinement.DropsDeadline(At(live, k), now)
    ensures Replay(entries).Ok? && At(Replay(entries).value, k) == ABSENT
  {
    assert At(Visible(live, now), k) == VisibleCell(At(live, k), now);
  }

  /** The outcome of the last command, and what it does. */
  lemma SplitLast(d: Disk, before: seq<WalCommand>, cmd: WalCommand, ts: seq<Taken>)
    returns (init: seq<Taken>, last: Taken)
    requires Commands(ts) == before + [cmd]
    ensures Commands(init) == before && last.cmd == cmd && Process(d, ts) == Take(Process(d, init), last)
  {
    init, last := ts[..|before|], ts[|before|];
    assert Commands(ts)[|before|] == cmd;
    assert ts == init + [last] && Commands(init) == before;
    ProcessSnoc(d, init, last);
  }

  /** Where the log agrees with an unexpired key, that key is unexpired in the log. */
  lemma CoherentUnexpired(d: Disk, live: State, now: nat, k: Key)
    requires Coherent(d, live, now) && !d.failed && Refinement.DropsDeadline(At(live, k), now)
    ensures !Expired(At(Replay(d.stored).value, k), now)
  {
    assert Refinement.Agrees(At(live, k), At(Replay(d.stored).value, k), now);
  }

  /** Behind an unsafe compaction, still in flight, an element added and a flush: the flush may lie. */
  lemma UnsafeCompactionLies(s: Sys, before: seq<WalCommand>, entries: seq<WalEntry>, id: nat)
    returns (evs: seq<Event>, f: Flush)
    requires s.queue == before + [Rewrite(entries, id)] && s.db.inFlight.Some?
    requires IsSnapshot(s.db.live, s.now, entries) && Refinement.CompactionHazard(s.db.live, s.now)
    requires CoherentAfter(s.disk, before, s.db.live, s.now)
    ensures SafelyRuns(s, evs) && f.id !in s.promised && Lies(After(s, evs), f)
  {
    var k :| Refinement.DropsDeadline(At(s.db.live, k), s.now);
    var m := Refinement.Refill(At(s.db.live, k).value.value);
    Refinement.RefillFits(At(s.db.live, k).value.value);
    RefillEnabled(s, k, m);
    RefillSafe(s, before, entries, id, k, m);
    var ts := RefillOutcome(s, before, entries, id, k, m);
    Refinement.LostDeadlineShows(Refinement.Session(s.db.live, entries, s.now), k, m);
    var ev := Run(s.now, Command.Mutation(k, m), [WalCommand.Append(WalEntry.Mutation(k, m))]);
    OneMore(s, [], s, ev);
    evs, f := DivergedLies(s, [] + [ev], Next(s, ev), ts);
  }

  /** Whatever safely follows, no flush lies. */
  ghost predicate Trusted(s: Sys) {
    forall evs, f :: SafelyRuns(s, evs) ==> !Lies(After(s, evs), f)
  }

  lemma {:induction false} DurableRun(s: Sys, evs: seq<Event>)
    requires Durable(s) && SafelyRuns(s, evs)
    ensures Durable(After(s, evs))
  {
    if evs != [] {
      DurableRun(s, evs[..|evs| - 1]);
      DurableStep(After(s, evs[..|evs| - 1]), evs[|evs| - 1]);
    }
  }

  lemma DurableTrusted(s: Sys)
    requires Durable(s)
    ensures Trusted(s)
  {
    forall evs, f | SafelyRuns(s, evs) ensures !Lies(After(s, evs), f) {
      DurableRun(s, evs);
      NoLie(After(s, evs), f);
    }
  }

  lemma NoLie(t: Sys, f: Flush)
    requires Durable(t)
    ensures !Lies(t, f)
  {
    if f in t.flushed && f.ok && f.id in t.promised {
      var p := t.promised[f.id];
      Refinement.AgreementShows(p.live, Replay(f.stored).value, p.at, p.at);
    }
  }

  /** A compaction behind an append. */
  lemma AutoCompactionSent(s: Sys, at: nat, cmd: Command, sent: seq<WalCommand>)
    requires CommandSends(s.db, at, cmd, sent) && |sent| > 1
    ensures
      var e, t := Exec(s.db.live, at, cmd), Next(s, Run(at, cmd, sent));
      && e.entry.Some? && sent[0] == WalCommand.Append(e.entry.value) && sent[1].Rewrite?
      && IsSnapshot(e.state, at, sent[1].entries)
      && t.db.inFlight.Some? && t.queue == (s.queue + [sent[0]]) + [Rewrite(sent[1].entries, sent[1].id)]
  {
    var e := Exec(s.db.live, at, cmd);
    WriteSent(s.db.(live := e.state), at, e.entry.value, sent);
    assert s.queue + sent == (s.queue + [sent[0]]) + [sent[1]];
  }

  /** A write that sends more than its append sends a rewrite behind it, and has it in flight. */
  lemma WriteSent(db: Db, at: nat, entry: WalEntry, sent: seq<WalCommand>)
    requires WriteSends(db, at, entry, sent) && |sent| > 1
    ensures sent == [WalCommand.Append(entry)] + [sent[1]] && sent[1].Rewrite?
    ensures IsSnapshot(db.live, at, sent[1].entries) && AfterWrite(db, sent).inFlight.Some?
  {
  }

  /** A safe command whose compaction is not. */
  lemma UnsafeAutoCompactionLies(s: Sys, at: nat, cmd: Command, sent: seq<WalCommand>)
    returns (evs: seq<Event>, f: Flush)
    requires Durable(s) && Enabled(s, Run(at, cmd, sent)) && SafeCommand(s, at, cmd)
    requires |sent| > 1 && Refinement.CompactionHazard(Exec(s.db.live, at, cmd).state, at)
    ensures
      var t := Next(s, Run(at, cmd, sent));
      SafelyRuns(t, evs) && f.id !in s.promised && Lies(After(t, evs), f)
  {
    var t := Next(s, Run(at, cmd, sent));
    RunLive(s, at, cmd, sent);
    AutoCompactionSent(s, at, cmd, sent);
    CoherentCommand(s, at, cmd);
    evs, f := UnsafeCompactionLies(t, s.queue + [sent[0]], sent[1].entries, sent[1].id);
  }

  /** A compaction asked for that is not safe. */
  lemma UnsafeAskedCompactionLies(s: Sys, at: nat, sent: seq<WalCommand>) returns (evs: seq<Event>, f: Flush)
    requires Durable(s) && Enabled(s, AskCompact(at, sent)) && sent != []
    requires Refinement.CompactionHazard(s.db.live, at)
    ensures
      var t := Next(s, AskCompact(at, sent));
      SafelyRuns(t, evs) && f.id !in s.promised && Lies(After(t, evs), f)
  {
    assert sent == [sent[0]];
    CoherentLater(s.disk, s.queue, s.db.live, s.now, at);
    evs, f := UnsafeCompactionLies(Next(s, AskCompact(at, sent)), s.queue, sent[0].entries, sent[0].id);
  }

  /**
   * Unsafe steps do break promises: they can be followed by safe events, a
   * flush request among them, after which that flush has been acknowledged Ok
   * over a stored log that fails to replay or shows something else.
   */
  lemma UnsafeStepLies(s: Sys, ev: Event) returns (evs: seq<Event>, f: Flush)
    requires Durable(s) && Enabled(s, ev) && !Safe(s, ev)
    ensures SafelyRuns(Next(s, ev), evs) && f.id !in s.promised && Lies(After(Next(s, ev), evs), f)
  {
    match ev
    case Run(at, cmd, sent) =>
      if !SafeCommand(s, at, cmd) {
        evs, f := UnsafeCommandLies(s, at, cmd, sent);
      } else {
        evs, f := UnsafeAutoCompactionLies(s, at, cmd, sent);
      }
    case AskCompact(at, sent) =>
      evs, f := UnsafeAskedCompactionLies(s, at, sent);
  }

  /**
   * What safety is worth, in terms of what callers see: after a step of a
   * durable system, flushes may be trusted through every safe continuation if
   * and only if the step was safe.
   */
  lemma TrustedExactly(s: Sys, ev: Event)
    requires Durable(s) && Enabled(s, ev)
    ensures Trusted(Next(s, ev)) <==> Safe(s, ev)
  {
    if Safe(s, ev) {
      DurableStep(s, ev);
      DurableTrusted(Next(s, ev));
    } else {
      var evs, f := UnsafeStepLies(s, ev);
    }
  }

  /**
   * A flush that lies, in the words of System.FlushIsDurable: at the one event
   * that asked for it the database showed something else than its stored log
   * replays to.
   */
  lemma LieShows(s: Sys, evs: seq<Event>, f: Flush) returns (i: nat)
    requires EnabledRun(s, evs) && f.id !in s.promised && Lies(After(s, evs), f)
    ensures i < |evs| && evs[i].AskFlush? && evs[i].id == f.id
    ensures
      var asked := After(s, evs[..i]);
      Replay(f.stored).Err? || Visible(Replay(f.stored).value, evs[i].at) != Visible(asked.db.live, evs[i].at)
  {
    i := FlushWasAsked(s, evs, f.id);
    PromiseRecorded(s, evs, i);
  }
}
