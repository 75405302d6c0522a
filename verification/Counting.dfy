/**
 * The entry counter and the price of compaction. Once everything has settled
 * the counter is too high by what failed rewrites by longer snapshots have
 * added, which is nothing as long as snapshots fit; then, too, automatic
 * compactions write at most twice as many entries as were appended, besides
 * those inherited.
 */
module Counting {
  import opened Base
  import opened Strings
  import opened Values
  import opened Log
  import opened Keyspace
  import opened Snapshots
  import Refinement
  import opened Writer
  import opened Compaction
  import opened System

  /** How many appends a stretch of the queue holds. */
  function Appends(queue: seq<WalCommand>): nat {
    if queue == [] then 0 else (if queue[0].Append? then 1 else 0) + Appends(queue[1..])
  }

  lemma {:induction false} AppendsConcat(a: seq<WalCommand>, b: seq<WalCommand>)
    ensures Appends(a + b) == Appends(a) + Appends(b)
  {
    if a == [] {
      assert a + b == b;
    } else {
      assert (a + b)[1..] == a[1..] + b;
      AppendsConcat(a[1..], b);
    }
  }

  predicate NoRewrite(queue: seq<WalCommand>) {
    forall i :: 0 <= i < |queue| ==> !queue[i].Rewrite?
  }

  /** The rewrite in flight, the only one, waits at position `r` of the queue. */
  predicate RewriteAt(s: Sys, f: InFlight, r: nat, drift: nat) {
    && r < |s.queue| && s.queue[r].Rewrite? && |s.queue[r].entries| == f.snapshotLen
    && (forall i :: 0 <= i < |s.queue| && s.queue[i].Rewrite? ==> i == r)
    && f.prevLen == |s.disk.stored| + Appends(s.queue[..r]) + drift
    && s.db.walLen == f.snapshotLen + Appends(s.queue[r + 1..])
  }

  predicate RewriteWaits(s: Sys, f: InFlight, drift: nat) {
    exists r :: 0 <= r < |s.queue| && RewriteAt(s, f, r, drift)
  }

  /**
   * The counter against the stored log and the queue: too high by `drift`.
   * While a rewrite waits, the counter is already that of the new log; if it
   * has failed, the difference is still owed.
   */
  predicate CountedBut(s: Sys, drift: nat) {
    match s.db.inFlight
    case None => s.reply.None? && NoRewrite(s.queue) && s.db.walLen == |s.disk.stored| + Appends(s.queue) + drift
    case Some(f) =>
      match s.reply
      case None => RewriteWaits(s, f, drift)
      case Some(ok) =>
        && NoRewrite(s.queue)
        && s.db.walLen + (if ok then 0 else f.prevLen - f.snapshotLen - drift) == |s.disk.stored| + Appends(s.queue)
  }

  /** The counter is exact. */
  predicate Counted(s: Sys) {
    CountedBut(s, 0)
  }

  /**
   * A successful rewrite makes the counter exact. A failed one by a snapshot
   * longer than the counter takes away less than it gave: the subtraction
   * saturates.
   */
  function DriftAfter(s: Sys, ev: Event, drift: nat): nat {
    if !ev.Handle? || s.reply.None? || s.db.inFlight.None? then drift
    else if s.reply.value then 0
    else drift + Max(s.db.inFlight.value.snapshotLen - s.db.inFlight.value.prevLen, 0)
  }

  /** No append fails. */
  predicate NoLoss(s: Sys, ev: Event) {
    ev.Work? && s.queue != [] && s.queue[0].Append? ==> ev.ok
  }

  /** The snapshot in flight is no longer than the log it is to replace. */
  predicate Fits(s: Sys) {
    s.db.inFlight.Some? ==> s.db.inFlight.value.snapshotLen <= s.db.inFlight.value.prevLen
  }

  /** Nothing the count depends on has changed. */
  lemma SameCount(s: Sys, t: Sys, drift: nat)
    requires CountedBut(s, drift) && t.queue == s.queue && t.disk == s.disk && t.reply == s.reply
    requires t.db.walLen == s.db.walLen && t.db.inFlight == s.db.inFlight
    ensures CountedBut(t, drift)
  {
    if s.db.inFlight.Some? && s.reply.None? {
      var r :| 0 <= r < |s.queue| && RewriteAt(s, s.db.inFlight.value, r, drift);
      assert RewriteAt(t, s.db.inFlight.value, r, drift);
    }
  }

  /** Commands queued behind, counted. */
  lemma SendKeepsCount(s: Sys, t: Sys, c: WalCommand, drift: nat)
    requires CountedBut(s, drift) && !c.Rewrite?
    requires t.queue == s.queue + [c] && t.disk == s.disk && t.reply == s.reply
    requires t.db == s.db.(walLen := s.db.walLen + if c.Append? then 1 else 0, live := t.db.live)
    ensures CountedBut(t, drift)
  {
    AppendsConcat(s.queue, [c]);
    if s.db.inFlight.Some? && s.reply.None? {
      var r :| 0 <= r < |s.queue| && RewriteAt(s, s.db.inFlight.value, r, drift);
      assert t.queue[..r] == s.queue[..r] && t.queue[r + 1..] == s.queue[r + 1..] + [c];
      AppendsConcat(s.queue[r + 1..], [c]);
      assert RewriteAt(t, t.db.inFlight.value, r, drift);
    }
  }

  /** A rewrite queued: the counter is that of the new log from here on. */
  lemma BeginKeepsCount(s: Sys, t: Sys, entries: seq<WalEntry>, id: nat, automatic: bool, drift: nat)
    requires CountedBut(s, drift) && s.db.inFlight.None?
    requires t.queue == s.queue + [Rewrite(entries, id)] && t.disk == s.disk && t.reply == s.reply
    requires t.db == Begin(s.db, |entries|, automatic)
    ensures CountedBut(t, drift)
  {
    var r := |s.queue|;
    assert t.queue[..r] == s.queue && t.queue[r + 1..] == [];
    assert RewriteAt(t, t.db.inFlight.value, r, drift);
  }

  lemma WorkKeepsCount(s: Sys, ok: bool, drift: nat)
    requires CountedBut(s, drift) && s.queue != [] && NoLoss(s, Work(ok))
    ensures CountedBut(Next(s, Work(ok)), drift)
  {
    if s.db.inFlight.Some? && s.reply.None? {
      var r :| 0 <= r < |s.queue| && RewriteAt(s, s.db.inFlight.value, r, drift);
      if r == 0 {
        RewriteTaken(s, s.db.inFlight.value, ok, drift);
      } else {
        BeforeRewrite(s, s.db.inFlight.value, r, ok, drift);
      }
    } else {
      assert s.queue == [s.queue[0]] + s.queue[1..];
    }
  }

  /** The rewrite itself is taken: committed, the log is the snapshot; failed, it is the old one. */
  lemma RewriteTaken(s: Sys, f: InFlight, ok: bool, drift: nat)
    requires s.db.inFlight == Some(f) && s.reply.None? && RewriteAt(s, f, 0, drift)
    ensures CountedBut(Next(s, Work(ok)), drift)
  {
    assert s.queue[..0] == [];
  }

  /** Something queued before the rewrite is taken. */
  lemma BeforeRewrite(s: Sys, f: InFlight, r: nat, ok: bool, drift: nat)
    requires s.db.inFlight == Some(f) && s.reply.None? && r > 0 && RewriteAt(s, f, r, drift) && NoLoss(s, Work(ok))
    ensures CountedBut(Next(s, Work(ok)), drift)
  {
    var t := Next(s, Work(ok));
    var before := s.queue[..r];
    assert before[0] == s.queue[0];
    assert t.queue[..r - 1] == before[1..] && t.queue[r..] == s.queue[r + 1..];
    assert RewriteAt(t, f, r - 1, drift);
  }

  /** Writing an entry, and compacting if that is due. */
  lemma WriteKeepsCount(s: Sys, t: Sys, live: State, now: nat, entry: WalEntry, sent: seq<WalCommand>,
    drift: nat)
    requires CountedBut(s, drift) && WriteSends(s.db.(live := live), now, entry, sent)
    requires t.db == AfterWrite(s.db.(live := live), sent) && t.queue == s.queue + sent
    requires t.disk == s.disk && t.reply == s.reply
    ensures CountedBut(t, drift)
  {
    var m := s.(db := s.db.(live := live, walLen := s.db.walLen + 1), queue := s.queue + [sent[0]]);
    SendKeepsCount(s, m, sent[0], drift);
    if |sent| > 1 {
      assert sent == [sent[0]] + [sent[1]];
      assert t.queue == m.queue + [sent[1]];
      BeginKeepsCount(m, t, sent[1].entries, sent[1].id, true, drift);
    } else {
      assert sent == [sent[0]] && sent[1..] == [];
      SameCount(m, t, drift);
    }
  }

  /** Every step without a lost append keeps the count, up to the drift its failed rewrites add. */
  lemma StepKeepsCount(s: Sys, ev: Event, drift: nat)
    requires CountedBut(s, drift) && Enabled(s, ev) && NoLoss(s, ev)
    ensures CountedBut(Next(s, ev), DriftAfter(s, ev, drift))
  {
    match ev
    case Run(at, cmd, sent) =>
      var e := Exec(s.db.live, at, cmd);
      if sent == [] {
        SameCount(s, Next(s, ev), drift);
      } else {
        WriteKeepsCount(s, Next(s, ev), e.state, at, e.entry.value, sent, drift);
      }
    case AskCompact(at, sent) =>
      if sent == [] {
        SameCount(s, Next(s, ev), drift);
      } else {
        assert sent == [sent[0]];
        BeginKeepsCount(s, Next(s, ev), sent[0].entries, sent[0].id, false, drift);
      }
    case AskFlush(at, id) => SendKeepsCount(s, Next(s, ev), WalCommand.Flush(id), drift);
    case Work(ok) => WorkKeepsCount(s, ok, drift);
    case Handle =>
    case SetThreshold(_) => SameCount(s, Next(s, ev), drift);
  }

  /** Restoring the counter after a failed rewrite is exact if and only if the snapshot fitted. */
  lemma RestoreExact(s: Sys)
    requires Counted(s) && s.db.inFlight.Some? && s.reply == Some(false)
    ensures Counted(Next(s, Handle)) <==> Fits(s)
  {
  }

  /** Everything sent has been taken, every reply handled. */
  predicate Settled(s: Sys) {
    s.queue == [] && s.reply.None? && s.db.inFlight.None?
  }

  // -------------------------------------------------------- snapshots do fit

  /** What the queue holds before the compaction begins, all of it committed. */
  lemma {:induction false} AllCommitted(d: Disk, queue: seq<WalCommand>) returns (ts: seq<Taken>)
    requires !d.failed && NoRewrite(queue)
    ensures Commands(ts) == queue
    ensures !Process(d, ts).failed && |Process(d, ts).stored| == |d.stored| + Appends(queue)
    decreases |queue|
  {
    if queue == [] {
      ts := [];
    } else {
      var t := Taken(queue[0], true);
      var rest := AllCommitted(Take(d, t), queue[1..]);
      ts := [t] + rest;
      ProcessHead(d, t, rest);
    }
  }

  /** With no append lost, in a durable system the snapshot of the live state is no longer than the log it replaces. */
  lemma SnapshotFits(d: Disk, queue: seq<WalCommand>, live: State, now: nat, entries: seq<WalEntry>)
    requires !d.failed && NoRewrite(queue) && CoherentAfter(d, queue, live, now)
    requires IsSnapshot(live, now, entries)
    ensures |entries| <= |d.stored| + Appends(queue)
  {
    var ts := AllCommitted(d, queue);
    var log := Process(d, ts).stored;
    assert Coherent(Process(d, ts), live, now);
    Refinement.AgreementShows(live, Replay(log).value, now, now);
    CompactionNeverGrows(log, now, entries);
  }

  // ----------------------------------------------------------- amortised cost

  /** What the appends since the last compaction, plus the inherited entries, leave to spend. */
  predicate WithinBudget(s: Sys, inherited: nat) {
    var budget := inherited + 2 * s.appended - s.autoCost;
    match s.db.inFlight
    case None => GateCredit(s.db.walLen, s.db.lastCompactLen, s.credit, budget)
    case Some(f) =>
      && f.snapshotLen <= s.db.walLen && f.snapshotLen <= f.prevLen
      && (s.reply != Some(true) ==>
          GateCredit(s.db.walLen + f.prevLen - f.snapshotLen, s.db.lastCompactLen, s.credit, budget))
      && (s.reply != Some(false) ==>
          2 * (s.db.walLen - f.snapshotLen) <= budget - (if f.automatic && s.reply.None? then f.snapshotLen else 0))
  }

  /**
   * A log that has grown from its base to `len` has set aside two units per
   * entry grown, less the inherited ones (`credit`) while no compaction has
   * replaced them. A log that has doubled can pay for a snapshot of its size.
   */
  predicate GateCredit(len: nat, base: nat, credit: nat, budget: int) {
    && base <= len
    && (credit == 0 || (base == 0 && credit <= len))
    && 2 * (len - base) - credit <= budget
  }

  /** A compaction in flight that finds its reply open still has its rewrite in the queue, of the size announced. */
  lemma RewriteSize(s: Sys)
    requires Counted(s) && s.queue != [] && s.queue[0].Rewrite?
    ensures s.db.inFlight.Some? && s.reply.None? && |s.queue[0].entries| == s.db.inFlight.value.snapshotLen
  {
    var f := s.db.inFlight.value;
    var r :| 0 <= r < |s.queue| && RewriteAt(s, f, r, 0);
  }

  /** A compaction that is due can be paid for; a manual one is not counted. */
  lemma BeginWithinBudget(s: Sys, t: Sys, size: nat, automatic: bool, inherited: nat)
    requires WithinBudget(s, inherited) && s.db.inFlight.None? && s.reply.None?
    requires size <= s.db.walLen && (automatic ==> Due(s.db))
    requires t.db == Begin(s.db, size, automatic) && t.reply.None?
    requires t.appended == s.appended && t.autoCost == s.autoCost && t.credit == s.credit
    ensures WithinBudget(t, inherited)
  {
  }

  /** An append brings two units. */
  lemma OneMoreAppend(s: Sys, m: Sys, inherited: nat)
    requires WithinBudget(s, inherited)
    requires m.db == s.db.(live := m.db.live, walLen := s.db.walLen + 1) && m.reply == s.reply
    requires m.appended == s.appended + 1 && m.autoCost == s.autoCost && m.credit == s.credit
    ensures WithinBudget(m, inherited)
  {
  }

  /** A write appends one entry, and a compaction begins only if it is due. */
  lemma WriteWithinBudget(s: Sys, t: Sys, live: State, now: nat, entry: WalEntry, sent: seq<WalCommand>, inherited: nat)
    requires WithinBudget(s, inherited) && Counted(s) && Fits(t)
    requires WriteSends(s.db.(live := live), now, entry, sent) && t.db == AfterWrite(s.db.(live := live), sent)
    requires t.reply == s.reply && t.appended == s.appended + 1 && t.autoCost == s.autoCost && t.credit == s.credit
    ensures WithinBudget(t, inherited)
  {
    var m := s.(db := s.db.(live := live, walLen := s.db.walLen + 1), appended := s.appended + 1);
    OneMoreAppend(s, m, inherited);
    if |sent| > 1 {
      BeginWithinBudget(m, t, |sent[1].entries|, true, inherited);
    } else {
      assert sent[1..] == [] && t.db == m.db;
    }
  }

  /** The writer takes a command. */
  lemma WorkWithinBudget(s: Sys, ok: bool, inherited: nat)
    requires WithinBudget(s, inherited) && Counted(s) && s.queue != []
    ensures WithinBudget(Next(s, Work(ok)), inherited)
  {
    if s.queue[0].Rewrite? {
      RewriteSize(s);
    }
  }

  /** A reply is handled. */
  lemma HandleWithinBudget(s: Sys, inherited: nat)
    requires WithinBudget(s, inherited)
    ensures WithinBudget(Next(s, Handle), inherited)
  {
  }

  /** A command runs. */
  lemma RunWithinBudget(s: Sys, at: nat, cmd: Command, sent: seq<WalCommand>, inherited: nat)
    requires WithinBudget(s, inherited) && Counted(s) && CommandSends(s.db, at, cmd, sent)
    requires Fits(Next(s, Run(at, cmd, sent)))
    ensures WithinBudget(Next(s, Run(at, cmd, sent)), inherited)
  {
    if sent != [] {
      var e := Exec(s.db.live, at, cmd);
      WriteWithinBudget(s, Next(s, Run(at, cmd, sent)), e.state, at, e.entry.value, sent, inherited);
    }
  }

  /** A compaction is asked for. */
  lemma CompactWithinBudget(s: Sys, at: nat, sent: seq<WalCommand>, inherited: nat)
    requires WithinBudget(s, inherited) && Counted(s) && CompactSends(s.db, at, sent)
    requires Fits(Next(s, AskCompact(at, sent)))
    ensures WithinBudget(Next(s, AskCompact(at, sent)), inherited)
  {
    if sent != [] {
      BeginWithinBudget(s, Next(s, AskCompact(at, sent)), |sent[0].entries|, false, inherited);
    }
  }

  /** Every step keeps within budget, as long as snapshots fit. */
  lemma StepWithinBudget(s: Sys, ev: System.Event, inherited: nat)
    requires WithinBudget(s, inherited) && Counted(s) && Enabled(s, ev) && Fits(s) && Fits(Next(s, ev))
    ensures WithinBudget(Next(s, ev), inherited)
  {
    match ev
    case Run(at, cmd, sent) => RunWithinBudget(s, at, cmd, sent, inherited);
    case AskCompact(at, sent) => CompactWithinBudget(s, at, sent, inherited);
    case Work(ok) => WorkWithinBudget(s, ok, inherited);
    case Handle => HandleWithinBudget(s, inherited);
    case _ =>
  }

  // -------------------------------------------------------------------- runs

  /** No event of the run loses an append. */
  ghost predicate LosslessRun(s: Sys, evs: seq<System.Event>) {
    evs == [] || (
      var init := evs[..|evs| - 1];
      LosslessRun(s, init) && NoLoss(After(s, init), evs[|evs| - 1]))
  }

  /** All that holds along safe runs without lost appends. */
  ghost predicate Accounted(s: Sys, inherited: nat) {
    Durable(s) && !s.disk.failed && Counted(s) && Fits(s) && WithinBudget(s, inherited)
  }

  lemma RunFits(s: Sys, at: nat, cmd: Command, sent: seq<WalCommand>)
    requires Durable(s) && !s.disk.failed && Counted(s) && Fits(s)
    requires Enabled(s, Run(at, cmd, sent)) && Safe(s, Run(at, cmd, sent))
    ensures Fits(Next(s, Run(at, cmd, sent)))
  {
    if |sent| > 1 && s.db.inFlight.None? {
      var e := Exec(s.db.live, at, cmd);
      CoherentCommand(s, at, cmd);
      AppendsConcat(s.queue, [sent[0]]);
      assert NoRewrite(s.queue + [sent[0]]);
      SnapshotFits(s.disk, s.queue + [sent[0]], e.state, at, sent[1].entries);
    }
  }

  lemma CompactFits(s: Sys, at: nat, sent: seq<WalCommand>)
    requires Durable(s) && !s.disk.failed && Counted(s) && Fits(s) && Enabled(s, AskCompact(at, sent))
    ensures Fits(Next(s, AskCompact(at, sent)))
  {
    if sent != [] {
      CoherentLater(s.disk, s.queue, s.db.live, s.now, at);
      SnapshotFits(s.disk, s.queue, s.db.live, at, sent[0].entries);
    }
  }

  lemma NextFits(s: Sys, ev: System.Event)
    requires Durable(s) && !s.disk.failed && Counted(s) && Fits(s)
    requires Enabled(s, ev) && Safe(s, ev) && NoLoss(s, ev)
    ensures Fits(Next(s, ev)) && !Next(s, ev).disk.failed
  {
    match ev
    case Run(at, cmd, sent) => RunFits(s, at, cmd, sent);
    case AskCompact(at, sent) => CompactFits(s, at, sent);
    case _ =>
  }

  lemma {:induction false} RunsAccounted(log: seq<WalEntry>, start: nat, evs: seq<System.Event>)
    requires Refinement.Resumable(log)
    requires var s := Start(log, start); EnabledRun(s, evs) && SafeRun(s, evs) && LosslessRun(s, evs)
    ensures Accounted(After(Start(log, start), evs), |log|)
  {
    if evs == [] {
      StartDurable(log, start);
    } else {
      var init, last := evs[..|evs| - 1], evs[|evs| - 1];
      RunsAccounted(log, start, init);
      var m := After(Start(log, start), init);
      DurableStep(m, last);
      NextFits(m, last);
      StepKeepsCount(m, last, 0);
      StepWithinBudget(m, last, |log|);
    }
  }

  /** The drift a run leaves: the excess of its failed rewrites since its last successful one. */
  function Drift(s: Sys, evs: seq<System.Event>): nat {
    if evs == [] then 0
    else
      var init := evs[..|evs| - 1];
      DriftAfter(After(s, init), evs[|evs| - 1], Drift(s, init))
  }

  lemma {:induction false} RunsCounted(log: seq<WalEntry>, start: nat, evs: seq<System.Event>)
    requires Replay(log).Ok?
    requires var s := Start(log, start); EnabledRun(s, evs) && LosslessRun(s, evs)
    ensures CountedBut(After(Start(log, start), evs), Drift(Start(log, start), evs))
  {
    if evs != [] {
      var s, init, last := Start(log, start), evs[..|evs| - 1], evs[|evs| - 1];
      RunsCounted(log, start, init);
      StepKeepsCount(After(s, init), last, Drift(s, init));
    }
  }

  /**
   * Counter exactness: over every run in which no append fails, hazards or
   * not, once the queue has drained and every reply has been handled, the
   * counter exceeds the number of stored entries by the drift. So it is exact
   * if and only if no rewrite that failed since the last successful one was by
   * a snapshot longer than the counter, even when appends raced rewrites.
   */
  lemma CounterExact(log: seq<WalEntry>, start: nat, evs: seq<System.Event>)
    requires Replay(log).Ok?
    requires var s := Start(log, start); EnabledRun(s, evs) && LosslessRun(s, evs)
    requires Settled(After(Start(log, start), evs))
    ensures var t := After(Start(log, start), evs);
      t.db.walLen == |t.disk.stored| + Drift(Start(log, start), evs)
  {
    RunsCounted(log, start, evs);
  }

  /** Every snapshot of the run is no longer than the log it replaces. */
  ghost predicate FittingRun(s: Sys, evs: seq<System.Event>) {
    Fits(After(s, evs)) && (evs == [] || FittingRun(s, evs[..|evs| - 1]))
  }

  lemma {:induction false} FittingNeverDrifts(s: Sys, evs: seq<System.Event>)
    requires FittingRun(s, evs)
    ensures Drift(s, evs) == 0
  {
    if evs != [] {
      FittingNeverDrifts(s, evs[..|evs| - 1]);
    }
  }

  lemma {:induction false} SafeRunsFit(log: seq<WalEntry>, start: nat, evs: seq<System.Event>)
    requires Refinement.Resumable(log)
    requires var s := Start(log, start); EnabledRun(s, evs) && SafeRun(s, evs) && LosslessRun(s, evs)
    ensures FittingRun(Start(log, start), evs)
  {
    RunsAccounted(log, start, evs);
    if evs != [] {
      SafeRunsFit(log, start, evs[..|evs| - 1]);
    }
  }

  /** With fitting snapshots, and so in every safe run, the counter is exact. */
  lemma FittingCounterExact(log: seq<WalEntry>, start: nat, evs: seq<System.Event>)
    requires Replay(log).Ok?
    requires var s := Start(log, start); EnabledRun(s, evs) && LosslessRun(s, evs)
    requires var s := Start(log, start);
      FittingRun(s, evs) || (Refinement.Resumable(log) && SafeRun(s, evs))
    requires Settled(After(Start(log, start), evs))
    ensures var t := After(Start(log, start), evs); t.db.walLen == |t.disk.stored|
  {
    var s := Start(log, start);
    if !FittingRun(s, evs) {
      SafeRunsFit(log, start, evs);
    }
    FittingNeverDrifts(s, evs);
    CounterExact(log, start, evs);
  }

  // ------------------------------------------------------ a counter that drifts

  /** The snapshot of one empty string. */
  const RESIDUE: seq<WalEntry> := [WalEntry.Set("k", [], None)]

  /** A database that holds an empty string, its log empty. */
  lemma ResidueSnapshot(now: nat)
    ensures IsSnapshot(State(map["k" := Value.Str([])], map[]), now, RESIDUE)
  {
    var st, c := State(map["k" := Value.Str([])], map[]), Cell(Some(Value.Str([])), None);
    assert Visible(st, now) == st by {
      forall k ensures At(Visible(st, now), k) == At(st, k) {
        assert At(Visible(st, now), k) == VisibleCell(At(st, k), now);
      }
      SameState(Visible(st, now), st);
    }
    assert At(st, "k") == c;
    assert [] + RESIDUE == RESIDUE;
    ReplayAppend(EMPTY, [], RESIDUE[0]);
    SameState(Put(EMPTY, "k", c), st);
    UnitsOne(RESIDUE[0]);
    assert NeededBy(st, {"k"}) == Needed("k", c);
    assert st.data.Keys == {"k"} && st.data.Keys + st.ttl.Keys == {"k"};
    TotalSplit(st, {"k"}, "k");
    assert {"k"} - {"k"} == {};
  }

  /**
   * Snapshots that do not fit are reached, by an unlogged empty string: an
   * APPEND over the size cap on a missing key, and a compaction that fails.
   * All is settled, the stored log is empty, and the counter says 1.
   */
  lemma MiscountExample(suffix: bytes)
    requires |suffix| == MAX_STRING_SIZE + 1
    ensures
      var append := System.Event.Run(0, Command.Append("k", suffix), []);
      var compact := System.Event.AskCompact(0, [Rewrite(RESIDUE, 0)]);
      var s := Next(Start([], 0), append);
      var t := Next(s, compact);
      var u := Next(Next(t, Work(false)), Handle);
      && Enabled(Start([], 0), append) && Enabled(s, compact) && !Fits(t)
      && Enabled(t, Work(false)) && Enabled(Next(t, Work(false)), Handle)
      && Settled(u) && u.db.walLen == 1 && u.disk.stored == []
  {
    var s := Next(Start([], 0), System.Event.Run(0, Command.Append("k", suffix), []));
    SameState(s.db.live, State(map["k" := Value.Str([])], map[]));
    ResidueSnapshot(0);
  }

  // -------------------------------------------------------------------- cost

  lemma {:induction false} RunsWithinBudget(log: seq<WalEntry>, start: nat, evs: seq<System.Event>)
    requires Replay(log).Ok?
    requires var s := Start(log, start); EnabledRun(s, evs) && LosslessRun(s, evs) && FittingRun(s, evs)
    ensures WithinBudget(After(Start(log, start), evs), |log|)
  {
    if evs != [] {
      var s, init, last := Start(log, start), evs[..|evs| - 1], evs[|evs| - 1];
      RunsWithinBudget(log, start, init);
      RunsCounted(log, start, init);
      FittingNeverDrifts(s, init);
      StepWithinBudget(After(s, init), last, |log|);
    }
  }

  /**
   * Amortised compaction: over any run with n appends and none failed, on an
   * inherited log of w entries, whose snapshots fit, as they do in every safe
   * run, automatic compactions that succeed write at most w + 2n entries in
   * all, for any sequence of thresholds and with any manual compactions in
   * between.
   */
  lemma AutoCompactionCost(log: seq<WalEntry>, start: nat, evs: seq<System.Event>)
    requires Replay(log).Ok?
    requires var s := Start(log, start); EnabledRun(s, evs) && LosslessRun(s, evs)
    requires var s := Start(log, start);
      FittingRun(s, evs) || (Refinement.Resumable(log) && SafeRun(s, evs))
    ensures var t := After(Start(log, start), evs); t.autoCost <= |log| + 2 * t.appended
  {
    if !FittingRun(Start(log, start), evs) {
      SafeRunsFit(log, start, evs);
    }
    RunsWithinBudget(log, start, evs);
  }
}
