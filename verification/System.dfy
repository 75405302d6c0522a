/**
 * The database, its background writer and the stored log together: commands,
 * compactions, flushes, storage that fails when it likes, and replies handled
 * late. What a flush acknowledged Ok promises, over every run.
 */
module System {
  import opened Base
  import opened Log
  import opened Keyspace
  import opened Snapshots
  import opened Refinement
  import opened Writer
  import opened Compaction

  /** The live state at the time a flush was asked for. */
  datatype Promise = Promise(live: State, at: nat)

  /** A flush acknowledged, and the stored log at that moment. */
  datatype Flush = FlushAck(id: nat, ok: bool, stored: seq<WalEntry>)

  /**
   * `reply` is the outcome of the rewrite in flight, once known and until
   * handled. `promised` and `flushed` record flushes; `appended`, `autoCost`
   * and `credit` count appends, entries written by automatic compactions, and
   * the inherited entries as long as no rewrite has replaced them.
   */
  datatype Sys = Sys(
    db: Db, now: nat, queue: seq<WalCommand>, disk: Disk, reply: Option<bool>,
    promised: map<nat, Promise>, flushed: seq<Flush>, appended: nat, autoCost: nat, credit: nat)

  datatype Event =
    | Run(at: nat, cmd: Command, sent: seq<WalCommand>)
    | AskCompact(at: nat, sent: seq<WalCommand>)
    | AskFlush(at: nat, id: nat)
    | Work(ok: bool)            // the writer takes the next command
    | Handle                    // a waiting compaction sees its reply
    | SetThreshold(threshold: nat)

  /** Startup over a stored log. */
  function Start(log: seq<WalEntry>, now: nat): Sys
    requires Replay(log).Ok?
  {
    var db := Db(Replay(log).value, |log|, DEFAULT_COMPACTION_THRESHOLD, 0, None);
    Sys(db, now, [], Started(log), None, map[], [], 0, 0, |log|)
  }

  ghost predicate Enabled(s: Sys, ev: Event) {
    match ev
    case Run(at, cmd, sent) => s.now <= at && CommandSends(s.db, at, cmd, sent)
    case AskCompact(at, sent) => s.now <= at && CompactSends(s.db, at, sent)
    case AskFlush(at, id) => s.now <= at && id !in s.promised
    case Work(_) => s.queue != []
    case Handle => s.reply.Some? && s.db.inFlight.Some?
    case SetThreshold(_) => true
  }

  /** The writer takes the command at the head of the queue. */
  function AfterWork(s: Sys, ok: bool): Sys
    requires s.queue != []
  {
    var cmd := s.queue[0];
    var written := cmd.Rewrite? && ok && s.db.inFlight.Some? && s.db.inFlight.value.automatic;
    s.(queue := s.queue[1..], disk := Take(s.disk, Taken(cmd, ok)),
       reply := if cmd.Rewrite? then Some(ok) else s.reply,
       flushed := if cmd.Flush? then s.flushed + [FlushAck(cmd.id, !s.disk.failed, s.disk.stored)] else s.flushed,
       autoCost := s.autoCost + if written then |cmd.entries| else 0)
  }

  function Next(s: Sys, ev: Event): Sys {
    match ev
    case Run(at, cmd, sent) =>
      s.(db := AfterCommand(s.db, at, cmd, sent), now := at, queue := s.queue + sent,
         appended := s.appended + if sent == [] then 0 else 1)
    case AskCompact(at, sent) => s.(db := AfterCompact(s.db, sent, false), now := at, queue := s.queue + sent)
    case AskFlush(at, id) =>
      s.(now := at, queue := s.queue + [WalCommand.Flush(id)], promised := s.promised[id := Promise(s.db.live, at)])
    case Work(ok) => if s.queue == [] then s else AfterWork(s, ok)
    case Handle =>
      if s.reply.None? || s.db.inFlight.None? then s
      else s.(db := Finish(s.db, s.reply.value), reply := None, credit := if s.reply.value then 0 else s.credit)
    case SetThreshold(n) => s.(db := s.db.(threshold := n))
  }

  // ------------------------------------------------------------- durability

  /** If no append is lost, the stored log replays to a state in agreement with the live one. */
  ghost predicate Coherent(d: Disk, live: State, now: nat) {
    !d.failed ==> Kept(live, Replay(d.stored), now)
  }

  /** ... and this whatever happens to the commands still queued. */
  ghost predicate CoherentAfter(d: Disk, queue: seq<WalCommand>, live: State, now: nat) {
    forall ts: seq<Taken> :: Commands(ts) == queue ==> Coherent(Process(d, ts), live, now)
  }

  /** A command is safe if it is no hazard over any log the queue may still lead to. */
  ghost predicate SafeCommand(s: Sys, at: nat, cmd: Command) {
    forall ts: seq<Taken> :: Commands(ts) == s.queue ==>
      var r := Replay(Process(s.disk, ts).stored);
      !Process(s.disk, ts).failed && r.Ok? ==> !Hazard(s.db.live, r.value, at, cmd)
  }

  ghost predicate Safe(s: Sys, ev: Event) {
    match ev
    case Run(at, cmd, sent) =>
      SafeCommand(s, at, cmd) && (|sent| > 1 ==> !CompactionHazard(Exec(s.db.live, at, cmd).state, at))
    case AskCompact(at, sent) => sent != [] ==> !CompactionHazard(s.db.live, at)
    case _ => true
  }

  /** Every flush waiting or acknowledged was asked for, and what it promises holds or will. */
  ghost predicate PromisesKept(s: Sys) {
    && (forall i :: 0 <= i < |s.queue| && s.queue[i].Flush? ==>
        s.queue[i].id in s.promised
        && var p := s.promised[s.queue[i].id]; CoherentAfter(s.disk, s.queue[..i], p.live, p.at))
    && (forall f :: f in s.flushed ==>
        f.id in s.promised
        && var p := s.promised[f.id]; f.ok ==> Kept(p.live, Replay(f.stored), p.at))
  }

  ghost predicate Durable(s: Sys) {
    && NoOrphans(s.db.live)
    && CoherentAfter(s.disk, s.queue, s.db.live, s.now)
    && PromisesKept(s)
  }

  /** One more queued command: every outcome of the longer queue extends one of the shorter. */
  lemma CoherentSnoc(d: Disk, queue: seq<WalCommand>, cmd: WalCommand, live: State, now: nat)
    requires forall ts: seq<Taken>, ok :: Commands(ts) == queue ==>
      Coherent(Take(Process(d, ts), Taken(cmd, ok)), live, now)
    ensures CoherentAfter(d, queue + [cmd], live, now)
  {
    forall ts: seq<Taken> | Commands(ts) == queue + [cmd] ensures Coherent(Process(d, ts), live, now) {
      var init, t := ts[..|queue|], ts[|queue|];
      assert Commands(init) == queue && t == Taken(cmd, t.ok) by { assert Commands(ts)[|queue|] == cmd; }
      assert ts == init + [t];
      ProcessSnoc(d, init, t);
      assert Coherent(Take(Process(d, init), Taken(cmd, t.ok)), live, now);
    }
  }

  /** A flush or a count changes nothing in the log. */
  lemma CoherentIdle(d: Disk, queue: seq<WalCommand>, cmd: WalCommand, live: State, now: nat)
    requires CoherentAfter(d, queue, live, now) && (cmd.Flush? || cmd.Count?)
    ensures CoherentAfter(d, queue + [cmd], live, now)
  {
    forall ts: seq<Taken>, ok | Commands(ts) == queue
      ensures Coherent(Take(Process(d, ts), Taken(cmd, ok)), live, now)
    {
      assert Coherent(Process(d, ts), live, now);
    }
    CoherentSnoc(d, queue, cmd, live, now);
  }

  /** A rewrite by a snapshot, whether it succeeds or leaves the old log. */
  lemma CoherentRewrite(d: Disk, queue: seq<WalCommand>, entries: seq<WalEntry>, id: nat, live: State, now: nat)
    requires CoherentAfter(d, queue, live, now) && NoOrphans(live)
    requires IsSnapshot(live, now, entries) && !CompactionHazard(live, now)
    ensures CoherentAfter(d, queue + [Rewrite(entries, id)], live, now)
  {
    CompactionExact(live, now);
    forall ts: seq<Taken>, ok | Commands(ts) == queue
      ensures Coherent(Take(Process(d, ts), Taken(Rewrite(entries, id), ok)), live, now)
    {
      assert Coherent(Process(d, ts), live, now);
    }
    CoherentSnoc(d, queue, Rewrite(entries, id), live, now);
  }

  /** A safe command, with the append it queues, if any. */
  lemma CoherentCommand(s: Sys, at: nat, cmd: Command)
    requires Durable(s) && s.now <= at && SafeCommand(s, at, cmd)
    ensures
      var e := Exec(s.db.live, at, cmd);
      CoherentAfter(s.disk, s.queue + (if e.entry.Some? then [WalCommand.Append(e.entry.value)] else []), e.state, at)
  {
    var e := Exec(s.db.live, at, cmd);
    forall ts: seq<Taken> | Commands(ts) == s.queue
      ensures var d := Process(s.disk, ts);
        && (!d.failed ==> Replay(d.stored).Ok? && Kept(e.state, ReplayedAfter(Replay(d.stored).value, e.entry), at))
    {
      var d := Process(s.disk, ts);
      assert Coherent(d, s.db.live, s.now);
      if !d.failed {
        AgreementShows(s.db.live, Replay(d.stored).value, s.now, at);
        StepExact(s.db.live, Replay(d.stored).value, at, cmd);
      }
    }
    match e.entry
    case None =>
      assert s.queue + [] == s.queue;
    case Some(entry) =>
      forall ts: seq<Taken>, ok | Commands(ts) == s.queue
        ensures Coherent(Take(Process(s.disk, ts), Taken(WalCommand.Append(entry), ok)), e.state, at)
      {
        ReplayAppend(EMPTY, Process(s.disk, ts).stored, entry);
      }
      CoherentSnoc(s.disk, s.queue, WalCommand.Append(entry), e.state, at);
  }

  /** Taking the head of the queue picks one of its outcomes. */
  lemma CoherentWork(d: Disk, queue: seq<WalCommand>, ok: bool, live: State, now: nat)
    requires queue != [] && CoherentAfter(d, queue, live, now)
    ensures CoherentAfter(Take(d, Taken(queue[0], ok)), queue[1..], live, now)
  {
    var t := Taken(queue[0], ok);
    forall ts: seq<Taken> | Commands(ts) == queue[1..] ensures Coherent(Process(Take(d, t), ts), live, now) {
      ProcessHead(d, t, ts);
      assert Commands([t] + ts) == queue;
    }
  }

  /** Time passing. */
  lemma CoherentLater(d: Disk, queue: seq<WalCommand>, live: State, now: nat, later: nat)
    requires CoherentAfter(d, queue, live, now) && now <= later
    ensures CoherentAfter(d, queue, live, later)
  {
    forall ts: seq<Taken> | Commands(ts) == queue ensures Coherent(Process(d, ts), live, later) {
      assert Coherent(Process(d, ts), live, now);
      if !Process(d, ts).failed {
        AgreementShows(live, Replay(Process(d, ts).stored).value, now, later);
      }
    }
  }

  /** Commands that are not flushes may be queued behind the promises. */
  lemma PromisesBehind(s: Sys, t: Sys, sent: seq<WalCommand>)
    requires PromisesKept(s) && t.queue == s.queue + sent && t.disk == s.disk
    requires t.promised == s.promised && t.flushed == s.flushed
    requires forall c :: c in sent ==> !c.Flush?
    ensures PromisesKept(t)
  {
    assert forall i :: 0 <= i < |sent| ==> !sent[i].Flush?;
    assert forall i :: |s.queue| <= i < |t.queue| ==> t.queue[i] == sent[i - |s.queue|];
    forall i | 0 <= i < |s.queue| && t.queue[i].Flush?
      ensures t.queue[i].id in t.promised
      ensures var p := t.promised[t.queue[i].id]; CoherentAfter(t.disk, t.queue[..i], p.live, p.at)
    {
      assert t.queue[..i] == s.queue[..i];
    }
  }

  /** What a command sends, its append first, then perhaps a safe compaction. */
  lemma CoherentSend(d: Disk, queue: seq<WalCommand>, entry: Option<WalEntry>, sent: seq<WalCommand>, db: Db, now: nat)
    requires NoOrphans(db.live)
    requires if entry.Some? then WriteSends(db, now, entry.value, sent) else sent == []
    requires CoherentAfter(d, queue + (if entry.Some? then [WalCommand.Append(entry.value)] else []), db.live, now)
    requires |sent| > 1 ==> !CompactionHazard(db.live, now)
    ensures CoherentAfter(d, queue + sent, db.live, now)
    ensures forall c :: c in sent ==> !c.Flush?
  {
    if |sent| > 1 {
      assert sent == [sent[0]] + [sent[1]];
      assert queue + sent == (queue + [sent[0]]) + [sent[1]];
      CoherentRewrite(d, queue + [sent[0]], sent[1].entries, sent[1].id, db.live, now);
    } else {
      assert entry.Some? ==> sent == [WalCommand.Append(entry.value)];
    }
  }

  lemma RunStep(s: Sys, at: nat, cmd: Command, sent: seq<WalCommand>)
    requires Durable(s) && Enabled(s, Run(at, cmd, sent)) && Safe(s, Run(at, cmd, sent))
    ensures Durable(Next(s, Run(at, cmd, sent)))
  {
    var e := Exec(s.db.live, at, cmd);
    StepKeepsOwned(s.db.live, at, cmd);
    CoherentCommand(s, at, cmd);
    CoherentSend(s.disk, s.queue, e.entry, sent, s.db.(live := e.state), at);
    PromisesBehind(s, Next(s, Run(at, cmd, sent)), sent);
  }

  lemma CompactStep(s: Sys, at: nat, sent: seq<WalCommand>)
    requires Durable(s) && Enabled(s, AskCompact(at, sent)) && Safe(s, AskCompact(at, sent))
    ensures Durable(Next(s, AskCompact(at, sent)))
  {
    var t := Next(s, AskCompact(at, sent));
    CoherentLater(s.disk, s.queue, s.db.live, s.now, at);
    PromisesBehind(s, t, sent);
    if sent != [] {
      assert sent == [sent[0]];
      CoherentRewrite(s.disk, s.queue, sent[0].entries, sent[0].id, s.db.live, at);
    } else {
      assert s.queue + sent == s.queue;
    }
  }

  lemma FlushStep(s: Sys, at: nat, id: nat)
    requires Durable(s) && Enabled(s, AskFlush(at, id))
    ensures Durable(Next(s, AskFlush(at, id)))
  {
    var t := Next(s, AskFlush(at, id));
    CoherentLater(s.disk, s.queue, s.db.live, s.now, at);
    CoherentIdle(s.disk, s.queue, WalCommand.Flush(id), s.db.live, at);
    forall i | 0 <= i < |t.queue| && t.queue[i].Flush?
      ensures t.queue[i].id in t.promised
      ensures var p := t.promised[t.queue[i].id]; CoherentAfter(t.disk, t.queue[..i], p.live, p.at)
    {
      assert t.queue[..i] == s.queue[..i];
      if i == |s.queue| {
        assert s.queue[..i] == s.queue;
      }
    }
  }

  lemma WorkStep(s: Sys, ok: bool)
    requires Durable(s) && Enabled(s, Work(ok))
    ensures Durable(Next(s, Work(ok)))
  {
    var t, cmd := Next(s, Work(ok)), s.queue[0];
    CoherentWork(s.disk, s.queue, ok, s.db.live, s.now);
    forall i | 0 <= i < |t.queue| && t.queue[i].Flush?
      ensures t.queue[i].id in t.promised
      ensures var p := t.promised[t.queue[i].id]; CoherentAfter(t.disk, t.queue[..i], p.live, p.at)
    {
      assert t.queue[i] == s.queue[i + 1];
      var p := s.promised[s.queue[i + 1].id];
      assert s.queue[..i + 1][1..] == t.queue[..i];
      CoherentWork(s.disk, s.queue[..i + 1], ok, p.live, p.at);
    }
    if cmd.Flush? {
      var p := s.promised[cmd.id];
      assert s.queue[..0] == [] && Commands([]) == [];
      assert CoherentAfter(s.disk, [], p.live, p.at);
      assert Coherent(Process(s.disk, []), p.live, p.at);
    }
  }

  /** Every safe step keeps every promise. */
  lemma DurableStep(s: Sys, ev: Event)
    requires Durable(s) && Enabled(s, ev) && Safe(s, ev)
    ensures Durable(Next(s, ev))
  {
    match ev
    case Run(at, cmd, sent) => RunStep(s, at, cmd, sent);
    case AskCompact(at, sent) => CompactStep(s, at, sent);
    case AskFlush(at, id) => FlushStep(s, at, id);
    case Work(ok) => WorkStep(s, ok);
    case Handle =>
    case SetThreshold(_) =>
  }

  /** Some outcome of the queued commands. */
  lemma {:induction false} SomeOutcome(queue: seq<WalCommand>) returns (ts: seq<Taken>)
    ensures Commands(ts) == queue
  {
    ts := seq(|queue|, i requires 0 <= i < |queue| => Taken(queue[i], false));
  }

  /** A compaction of a live state with a doomed deadline, once committed, is no longer coherent with it. */
  lemma UnsafeRewriteBreaks(d: Disk, queue: seq<WalCommand>, entries: seq<WalEntry>, id: nat, live: State, now: nat)
    requires NoOrphans(live) && IsSnapshot(live, now, entries) && CompactionHazard(live, now)
    ensures !CoherentAfter(d, queue + [Rewrite(entries, id)], live, now)
  {
    var ts := SomeOutcome(queue);
    var t := Taken(Rewrite(entries, id), true);
    ProcessSnoc(d, ts, t);
    CompactionExact(live, now);
    assert Commands(ts + [t]) == queue + [Rewrite(entries, id)];
    assert !Coherent(Process(d, ts + [t]), live, now);
  }

  /** An outcome that is not coherent stays so behind a rewrite that fails. */
  lemma BrokenBehindRewrite(d: Disk, queue: seq<WalCommand>, entries: seq<WalEntry>, id: nat, live: State, now: nat)
    requires !CoherentAfter(d, queue, live, now)
    ensures !CoherentAfter(d, queue + [Rewrite(entries, id)], live, now)
  {
    var ts :| Commands(ts) == queue && !Coherent(Process(d, ts), live, now);
    var t := Taken(Rewrite(entries, id), false);
    ProcessSnoc(d, ts, t);
    assert Commands(ts + [t]) == queue + [Rewrite(entries, id)];
    assert !Coherent(Process(d, ts + [t]), live, now);
  }

  /** One outcome that is not coherent is enough. */
  lemma Witness(d: Disk, queue: seq<WalCommand>, ts: seq<Taken>, live: State, now: nat)
    requires Commands(ts) == queue && !Coherent(Process(d, ts), live, now)
    ensures !CoherentAfter(d, queue, live, now)
  {
  }

  /** An append that commits, and does not keep up with the live state. */
  lemma BrokenAppend(d: Disk, entry: WalEntry, live: State, now: nat)
    requires !d.failed && Replay(d.stored).Ok?
    requires !Kept(live, Apply(Replay(d.stored).value, entry), now)
    ensures !Coherent(Take(d, Taken(WalCommand.Append(entry), true)), live, now)
  {
    ReplayAppend(EMPTY, d.stored, entry);
  }

  /** One outcome without losses over which the appended entry does not keep up with the live state. */
  lemma BrokenOutcome(d: Disk, queue: seq<WalCommand>, ts: seq<Taken>, entry: Option<WalEntry>, live: State, now: nat)
    requires Commands(ts) == queue && !Process(d, ts).failed && Replay(Process(d, ts).stored).Ok?
    requires !Kept(live, ReplayedAfter(Replay(Process(d, ts).stored).value, entry), now)
    ensures !CoherentAfter(d, queue + (if entry.Some? then [WalCommand.Append(entry.value)] else []), live, now)
  {
    match entry
    case None =>
      assert queue + [] == queue;
      Witness(d, queue, ts, live, now);
    case Some(e) =>
      var t := Taken(WalCommand.Append(e), true);
      BrokenAppend(Process(d, ts), e, live, now);
      ProcessSnoc(d, ts, t);
      assert Commands(ts + [t]) == queue + [WalCommand.Append(e)];
      Witness(d, queue + [WalCommand.Append(e)], ts + [t], live, now);
  }

  /** A command that is a hazard over some possible log breaks coherence with that log. */
  lemma UnsafeCommandBreaks(s: Sys, at: nat, cmd: Command)
    requires Durable(s) && s.now <= at && !SafeCommand(s, at, cmd)
    ensures
      var e := Exec(s.db.live, at, cmd);
      !CoherentAfter(s.disk, s.queue + (if e.entry.Some? then [WalCommand.Append(e.entry.value)] else []), e.state, at)
  {
    var e := Exec(s.db.live, at, cmd);
    var ts: seq<Taken> :| Commands(ts) == s.queue
      && var d := Process(s.disk, ts);
         !d.failed && Replay(d.stored).Ok? && Hazard(s.db.live, Replay(d.stored).value, at, cmd);
    var d := Process(s.disk, ts);
    assert Coherent(d, s.db.live, s.now);
    AgreementShows(s.db.live, Replay(d.stored).value, s.now, at);
    StepExact(s.db.live, Replay(d.stored).value, at, cmd);
    BrokenOutcome(s.disk, s.queue, ts, e.entry, e.state, at);
  }

  /**
   * A step keeps the system durable if and only if it is safe: an unsafe one
   * leaves, for some outcome of what is queued, a log that no longer agrees
   * with the live state although no append was lost.
   */
  lemma DurableStepExact(s: Sys, ev: Event)
    requires Durable(s) && Enabled(s, ev)
    ensures Durable(Next(s, ev)) <==> Safe(s, ev)
  {
    if Safe(s, ev) {
      DurableStep(s, ev);
    } else {
      match ev
      case Run(at, cmd, sent) => UnsafeRunBreaks(s, at, cmd, sent);
      case AskCompact(at, sent) =>
        assert sent == [sent[0]];
        UnsafeRewriteBreaks(s.disk, s.queue, sent[0].entries, sent[0].id, s.db.live, at);
      case _ =>
    }
  }

  lemma UnsafeRunBreaks(s: Sys, at: nat, cmd: Command, sent: seq<WalCommand>)
    requires Durable(s) && Enabled(s, Run(at, cmd, sent)) && !Safe(s, Run(at, cmd, sent))
    ensures !Durable(Next(s, Run(at, cmd, sent)))
  {
    var e := Exec(s.db.live, at, cmd);
    StepKeepsOwned(s.db.live, at, cmd);
    if !SafeCommand(s, at, cmd) {
      UnsafeCommandBreaks(s, at, cmd);
    }
    UnsafeSendBreaks(s.disk, s.queue, e.entry, sent, s.db.(live := e.state), at);
  }

  /** What a command sends breaks coherence if its append does, or if its compaction is unsafe. */
  lemma UnsafeSendBreaks(d: Disk, queue: seq<WalCommand>, entry: Option<WalEntry>, sent: seq<WalCommand>, db: Db,
    now: nat)
    requires NoOrphans(db.live)
    requires if entry.Some? then WriteSends(db, now, entry.value, sent) else sent == []
    requires !CoherentAfter(d, queue + (if entry.Some? then [WalCommand.Append(entry.value)] else []), db.live, now)
      || (|sent| > 1 && CompactionHazard(db.live, now))
    ensures !CoherentAfter(d, queue + sent, db.live, now)
  {
    if |sent| > 1 {
      var first := queue + [sent[0]];
      assert queue + sent == first + [sent[1]];
      if CompactionHazard(db.live, now) {
        UnsafeRewriteBreaks(d, first, sent[1].entries, sent[1].id, db.live, now);
      } else {
        BrokenBehindRewrite(d, first, sent[1].entries, sent[1].id, db.live, now);
      }
    } else {
      assert entry.Some? ==> sent == [WalCommand.Append(entry.value)];
    }
  }

  // -------------------------------------------------------------------- runs

  function After(s: Sys, evs: seq<Event>): Sys {
    if evs == [] then s else Next(After(s, evs[..|evs| - 1]), evs[|evs| - 1])
  }

  /** Every event is enabled where it happens. */
  ghost predicate EnabledRun(s: Sys, evs: seq<Event>) {
    evs == [] || (
      var init := evs[..|evs| - 1];
      EnabledRun(s, init) && Enabled(After(s, init), evs[|evs| - 1]))
  }

  /** No event is a hazard. */
  ghost predicate SafeRun(s: Sys, evs: seq<Event>) {
    evs == [] || (
      var init := evs[..|evs| - 1];
      SafeRun(s, init) && Safe(After(s, init), evs[|evs| - 1]))
  }

  lemma StartDurable(log: seq<WalEntry>, now: nat)
    requires Resumable(log)
    ensures Durable(Start(log, now))
  {
    var s := Start(log, now);
    AgreementStarts(s.db.live, now);
    forall ts: seq<Taken> | Commands(ts) == [] ensures Coherent(Process(s.disk, ts), s.db.live, now) {
      assert ts == [];
    }
  }

  lemma {:induction false} RunsDurable(log: seq<WalEntry>, start: nat, evs: seq<Event>)
    requires Resumable(log) && EnabledRun(Start(log, start), evs) && SafeRun(Start(log, start), evs)
    ensures Durable(After(Start(log, start), evs))
  {
    if evs == [] {
      StartDurable(log, start);
    } else {
      var init, last := evs[..|evs| - 1], evs[|evs| - 1];
      RunsDurable(log, start, init);
      DurableStep(After(Start(log, start), init), last);
    }
  }

  /** No event changes a promise already made; asking for a flush makes one, of the live state. */
  lemma NextKeepsPromises(s: Sys, ev: Event, id: nat)
    requires Enabled(s, ev)
    ensures id in s.promised ==> id in Next(s, ev).promised && Next(s, ev).promised[id] == s.promised[id]
    ensures id !in s.promised && id in Next(s, ev).promised ==> ev.AskFlush? && ev.id == id
    ensures ev.AskFlush? ==> ev.id !in s.promised && ev.id in Next(s, ev).promised
    ensures ev.AskFlush? ==> Next(s, ev).promised[ev.id] == Promise(s.db.live, ev.at)
  {
  }

  /** A promise is the live state when the flush is asked for, and never changes. */
  lemma {:induction false} PromiseRecorded(s: Sys, evs: seq<Event>, i: nat)
    requires EnabledRun(s, evs) && i < |evs| && evs[i].AskFlush?
    ensures var t := After(s, evs);
      evs[i].id in t.promised && t.promised[evs[i].id] == Promise(After(s, evs[..i]).db.live, evs[i].at)
  {
    var init, last := evs[..|evs| - 1], evs[|evs| - 1];
    var m := After(s, init);
    assert After(s, evs) == Next(m, last);
    if i < |init| {
      assert init[..i] == evs[..i] && init[i] == evs[i];
      PromiseRecorded(s, init, i);
      NextKeepsPromises(m, last, evs[i].id);
    } else {
      NextKeepsPromises(m, last, last.id);
    }
  }

  /** A promise was made by one flush request, and only one. */
  lemma {:induction false} FlushWasAsked(s: Sys, evs: seq<Event>, id: nat) returns (i: nat)
    requires EnabledRun(s, evs) && id !in s.promised && id in After(s, evs).promised
    ensures i < |evs| && evs[i].AskFlush? && evs[i].id == id
    ensures forall j :: 0 <= j < |evs| && evs[j].AskFlush? && evs[j].id == id ==> j == i
  {
    var init, last := evs[..|evs| - 1], evs[|evs| - 1];
    var m := After(s, init);
    NextKeepsPromises(m, last, id);
    if id in m.promised {
      i := FlushWasAsked(s, init, id);
      assert init[i] == evs[i];
      forall j | 0 <= j < |evs| && evs[j].AskFlush? && evs[j].id == id ensures j == i {
        assert j < |init| ==> init[j] == evs[j];
      }
    } else {
      i := |init|;
      NotAsked(s, init, id);
      forall j | 0 <= j < |init| && evs[j].AskFlush? ensures evs[j].id != id {
        assert init[j] == evs[j];
      }
    }
  }

  /** No promise, no request. */
  lemma NotAsked(s: Sys, evs: seq<Event>, id: nat)
    requires EnabledRun(s, evs) && id !in After(s, evs).promised
    ensures forall j :: 0 <= j < |evs| && evs[j].AskFlush? ==> evs[j].id != id
  {
    forall j | 0 <= j < |evs| && evs[j].AskFlush? ensures evs[j].id != id {
      PromiseRecorded(s, evs, j);
    }
  }

  /**
   * End-to-end durability. In any safe run from the empty database or a
   * resumed log, interleaving commands, compactions, writer steps, failed
   * batches and failed rewrites: once a flush has been acknowledged Ok,
   * replaying the log as stored at that moment shows what the live database
   * showed when the flush was asked for (event i, the only one with its id),
   * at that and every later time.
   */
  lemma FlushIsDurable(log: seq<WalEntry>, start: nat, evs: seq<Event>, f: Flush) returns (i: nat)
    requires Resumable(log) && EnabledRun(Start(log, start), evs) && SafeRun(Start(log, start), evs)
    requires f in After(Start(log, start), evs).flushed && f.ok
    ensures i < |evs| && evs[i].AskFlush? && evs[i].id == f.id
    ensures forall j :: 0 <= j < |evs| && evs[j].AskFlush? && evs[j].id == f.id ==> j == i
    ensures Replay(f.stored).Ok?
    ensures
      var asked := After(Start(log, start), evs[..i]);
      forall later :: evs[i].at <= later ==>
        Visible(Replay(f.stored).value, later) == Visible(asked.db.live, later)
  {
    RunsDurable(log, start, evs);
    i := FlushWasAsked(Start(log, start), evs, f.id);
    PromiseRecorded(Start(log, start), evs, i);
    var p := After(Start(log, start), evs).promised[f.id];
    forall later | p.at <= later ensures Visible(Replay(f.stored).value, later) == Visible(p.live, later) {
      AgreementShows(p.live, Replay(f.stored).value, p.at, later);
    }
  }

  // ------------------------------------------------- the writer in the system

  /** What an event sends to the writer. */
  function Sent(ev: Event): seq<WalCommand> {
    match ev
    case Run(_, _, sent) => sent
    case AskCompact(_, sent) => sent
    case AskFlush(_, id) => [WalCommand.Flush(id)]
    case _ => []
  }

  function AllSent(evs: seq<Event>): seq<WalCommand> {
    if evs == [] then [] else AllSent(evs[..|evs| - 1]) + Sent(evs[|evs| - 1])
  }

  /**
   * The system's disk is that of commands taken one at a time in the order
   * sent, the rest still queued: what the batching loop of Writer.RunWriter
   * produces for every timing of arrivals.
   */
  lemma {:induction false} DiskFollowsQueue(log: seq<WalEntry>, start: nat, evs: seq<Event>) returns (ts: seq<Taken>)
    requires Replay(log).Ok? && EnabledRun(Start(log, start), evs)
    ensures Follows(After(Start(log, start), evs), log, ts, AllSent(evs))
  {
    if evs == [] {
      ts := [];
    } else {
      var init, last := evs[..|evs| - 1], evs[|evs| - 1];
      ts := DiskFollowsQueue(log, start, init);
      ts := FollowsStep(After(Start(log, start), init), last, log, ts, AllSent(init));
    }
  }

  /** Of everything sent, `ts` has been taken and the queue has the rest. */
  predicate Follows(s: Sys, log: seq<WalEntry>, ts: seq<Taken>, sent: seq<WalCommand>) {
    s.disk == Process(Started(log), ts) && Commands(ts) + s.queue == sent
  }

  lemma FollowsStep(s: Sys, ev: Event, log: seq<WalEntry>, ts: seq<Taken>, sent: seq<WalCommand>)
    returns (more: seq<Taken>)
    requires Enabled(s, ev) && Follows(s, log, ts, sent)
    ensures Follows(Next(s, ev), log, more, sent + Sent(ev))
  {
    more := ts;
    if ev.Work? {
      more := ts + [Taken(s.queue[0], ev.ok)];
      HeadTaken(s, ev.ok, log, ts, sent);
      assert sent + [] == sent;
    } else {
      SentBehind(s, ev);
      QueuedFollows(s, Next(s, ev), log, ts, sent, Sent(ev));
    }
  }

  lemma QueuedFollows(s: Sys, t: Sys, log: seq<WalEntry>, ts: seq<Taken>, sent: seq<WalCommand>,
    queued: seq<WalCommand>)
    requires Follows(s, log, ts, sent) && t.disk == s.disk && t.queue == s.queue + queued
    ensures Follows(t, log, ts, sent + queued)
  {
    assert Commands(ts) + (s.queue + queued) == sent + queued;
  }

  lemma HeadTaken(s: Sys, ok: bool, log: seq<WalEntry>, ts: seq<Taken>, sent: seq<WalCommand>)
    requires s.queue != [] && Follows(s, log, ts, sent)
    ensures Follows(AfterWork(s, ok), log, ts + [Taken(s.queue[0], ok)], sent)
  {
    var t := Taken(s.queue[0], ok);
    ProcessSnoc(Started(log), ts, t);
    MoveHead(Commands(ts), s.queue);
    assert Commands(ts + [t]) == Commands(ts) + [s.queue[0]];
    WorkLeaves(s, ok);
  }

  lemma MoveHead(done: seq<WalCommand>, queue: seq<WalCommand>)
    requires queue != []
    ensures (done + [queue[0]]) + queue[1..] == done + queue
  {
  }

  lemma WorkLeaves(s: Sys, ok: bool)
    requires s.queue != []
    ensures AfterWork(s, ok).disk == Take(s.disk, Taken(s.queue[0], ok)) && AfterWork(s, ok).queue == s.queue[1..]
  {
  }

  /** Only the writer touches the disk; everything else goes to the end of the queue. */
  lemma SentBehind(s: Sys, ev: Event)
    requires Enabled(s, ev) && !ev.Work?
    ensures Next(s, ev).disk == s.disk && Next(s, ev).queue == s.queue + Sent(ev)
  {
  }
}
