/**
 * Durability judged by what really happened: hazards count only over the log
 * that came about, and only before the flush was asked for. And crashes: what
 * the stored log is worth at an arbitrary moment, without any flush.
 */
module Hindsight {
  import opened Base
  import opened Values
  import opened Log
  import opened Keyspace
  import opened Snapshots
  import Refinement
  import opened Writer
  import opened Compaction
  import opened System

  // --------------------------------------------------------- what was taken

  /** The commands the writer took in a run, with their outcomes. */
  function Took(s: Sys, evs: seq<Event>): seq<Taken> {
    if evs == [] then []
    else
      var init, last := evs[..|evs| - 1], evs[|evs| - 1];
      var m := After(s, init);
      Took(s, init) + if last.Work? && m.queue != [] then [Taken(m.queue[0], last.ok)] else []
  }

  lemma {:induction false} TookFollows(log: seq<WalEntry>, start: nat, evs: seq<Event>)
    requires Replay(log).Ok? && EnabledRun(Start(log, start), evs)
    ensures Follows(After(Start(log, start), evs), log, Took(Start(log, start), evs), AllSent(evs))
  {
    if evs != [] {
      var s, init, last := Start(log, start), evs[..|evs| - 1], evs[|evs| - 1];
      TookFollows(log, start, init);
      var m := After(s, init);
      if last.Work? {
        HeadTaken(m, last.ok, log, Took(s, init), AllSent(init));
        assert AllSent(init) + [] == AllSent(init);
      } else {
        SentBehind(m, last);
        QueuedFollows(m, Next(m, last), log, Took(s, init), AllSent(init), Sent(last));
        assert Took(s, init) + [] == Took(s, init);
      }
    }
  }

  /** What has been taken stays taken. */
  lemma {:induction false} TookGrows(s: Sys, evs: seq<Event>, j: nat)
    requires j <= |evs|
    ensures Took(s, evs[..j]) <= Took(s, evs) && AllSent(evs[..j]) <= AllSent(evs)
  {
    if j == |evs| {
      assert evs[..j] == evs;
    } else {
      var init := evs[..|evs| - 1];
      assert init[..j] == evs[..j];
      TookGrows(s, init, j);
    }
  }

  // ------------------------------------------------------------ the argument

  /** The log as it is once `n` commands have been taken. */
  function DiskAt(log: seq<WalEntry>, ts: seq<Taken>, n: nat): Disk
    requires n <= |ts|
  {
    Process(Started(log), ts[..n])
  }

  /** A rewrite that a step sends as its command number `k`, if it commits, drops no deadline. */
  ghost predicate RewriteHarmless(live: State, at: nat, sent: seq<WalCommand>, k: nat, ts: seq<Taken>, n: nat) {
    k < |sent| && n + k < |ts| && ts[n + k].ok ==> !Refinement.CompactionHazard(live, at)
  }

  /**
   * In hindsight a step does no harm: its command is no hazard over the log
   * that what was sent before has led to, and its rewrite, if it committed,
   * dropped no deadline. `n` commands were sent before it.
   */
  ghost predicate Harmless(s: Sys, log: seq<WalEntry>, ts: seq<Taken>, n: nat, ev: Event)
    requires n <= |ts|
  {
    match ev
    case Run(at, cmd, sent) =>
      var d := DiskAt(log, ts, n);
      && (!d.failed && Replay(d.stored).Ok? ==> !Refinement.Hazard(s.db.live, Replay(d.stored).value, at, cmd))
      && RewriteHarmless(Exec(s.db.live, at, cmd).state, at, sent, 1, ts, n)
    case AskCompact(at, sent) => RewriteHarmless(s.db.live, at, sent, 0, ts, n)
    case _ => true
  }

  /** No step of the run does harm; `ts` are the outcomes of all it sent. */
  ghost predicate HarmlessRun(s: Sys, log: seq<WalEntry>, ts: seq<Taken>, evs: seq<Event>)
    requires |AllSent(evs)| <= |ts|
  {
    evs == [] || (
      var init, last := evs[..|evs| - 1], evs[|evs| - 1];
      HarmlessRun(s, log, ts, init) && Harmless(After(s, init), log, ts, |AllSent(init)|, last))
  }

  /** The live state agrees with the log that all it has sent leads to. */
  ghost predicate Settles(s: Sys, d: Disk) {
    NoOrphans(s.db.live) && Coherent(d, s.db.live, s.now)
  }

  lemma TakeAt(log: seq<WalEntry>, ts: seq<Taken>, n: nat)
    requires n < |ts|
    ensures DiskAt(log, ts, n + 1) == Take(DiskAt(log, ts, n), ts[n])
  {
    assert ts[..n + 1] == ts[..n] + [ts[n]];
    ProcessSnoc(Started(log), ts[..n], ts[n]);
  }

  /** An append, lost or not. */
  lemma AppendSettles(d: Disk, live: State, now: nat, entry: WalEntry, ok: bool)
    requires !d.failed ==> Replay(d.stored).Ok? && Refinement.Kept(live, Apply(Replay(d.stored).value, entry), now)
    ensures Coherent(Take(d, Taken(WalCommand.Append(entry), ok)), live, now)
  {
    if !d.failed && ok {
      ReplayAppend(EMPTY, d.stored, entry);
    }
  }

  /** A rewrite, committed or not. */
  lemma RewriteSettles(d: Disk, live: State, now: nat, entries: seq<WalEntry>, id: nat, ok: bool)
    requires NoOrphans(live) && Coherent(d, live, now) && IsSnapshot(live, now, entries)
    requires ok ==> !Refinement.CompactionHazard(live, now)
    ensures Coherent(Take(d, Taken(Rewrite(entries, id), ok)), live, now)
  {
    if ok {
      Refinement.CompactionExact(live, now);
    }
  }

  /** A command, over the log it meets. */
  lemma CommandSettles(s: Sys, d: Disk, at: nat, cmd: Command)
    requires Settles(s, d) && s.now <= at
    requires !d.failed && Replay(d.stored).Ok? ==> !Refinement.Hazard(s.db.live, Replay(d.stored).value, at, cmd)
    ensures
      var e := Exec(s.db.live, at, cmd);
      !d.failed ==> (
        && Replay(d.stored).Ok?
        && Refinement.Kept(e.state, Refinement.ReplayedAfter(Replay(d.stored).value, e.entry), at))
  {
    if !d.failed {
      Refinement.AgreementShows(s.db.live, Replay(d.stored).value, s.now, at);
      Refinement.StepExact(s.db.live, Replay(d.stored).value, at, cmd);
    }
  }

  lemma LaterSettles(s: Sys, d: Disk, at: nat)
    requires Settles(s, d) && s.now <= at
    ensures Coherent(d, s.db.live, at)
  {
    if !d.failed {
      Refinement.AgreementShows(s.db.live, Replay(d.stored).value, s.now, at);
    }
  }

  /** `ts` has the outcomes of what a step sends, from position `n` on. */
  ghost predicate OutcomesOf(sent: seq<WalCommand>, ts: seq<Taken>, n: nat) {
    n + |sent| <= |ts| && forall k :: 0 <= k < |sent| ==> ts[n + k].cmd == sent[k]
  }

  lemma AppendTaken(log: seq<WalEntry>, ts: seq<Taken>, n: nat, live: State, now: nat, entry: WalEntry)
    requires n < |ts| && ts[n].cmd == WalCommand.Append(entry)
    requires
      var d := DiskAt(log, ts, n);
      !d.failed ==> Replay(d.stored).Ok? && Refinement.Kept(live, Apply(Replay(d.stored).value, entry), now)
    ensures Coherent(DiskAt(log, ts, n + 1), live, now)
  {
    TakeAt(log, ts, n);
    AppendSettles(DiskAt(log, ts, n), live, now, entry, ts[n].ok);
  }

  lemma RewriteTaken(log: seq<WalEntry>, ts: seq<Taken>, n: nat, live: State, now: nat, cmd: WalCommand)
    requires n < |ts| && ts[n].cmd == cmd && cmd.Rewrite? && IsSnapshot(live, now, cmd.entries)
    requires NoOrphans(live) && Coherent(DiskAt(log, ts, n), live, now)
    requires ts[n].ok ==> !Refinement.CompactionHazard(live, now)
    ensures Coherent(DiskAt(log, ts, n + 1), live, now)
  {
    TakeAt(log, ts, n);
    RewriteSettles(DiskAt(log, ts, n), live, now, cmd.entries, cmd.id, ts[n].ok);
  }

  lemma FlushTaken(log: seq<WalEntry>, ts: seq<Taken>, n: nat, live: State, now: nat)
    requires n < |ts| && ts[n].cmd.Flush? && Coherent(DiskAt(log, ts, n), live, now)
    ensures Coherent(DiskAt(log, ts, n + 1), live, now)
  {
    TakeAt(log, ts, n);
  }

  /** What a command sends: its append, and perhaps a rewrite. */
  lemma SendSettles(log: seq<WalEntry>, ts: seq<Taken>, n: nat, db: Db, at: nat, entry: WalEntry,
    sent: seq<WalCommand>)
    requires NoOrphans(db.live) && WriteSends(db, at, entry, sent) && OutcomesOf(sent, ts, n)
    requires
      var d := DiskAt(log, ts, n);
      !d.failed ==> Replay(d.stored).Ok? && Refinement.Kept(db.live, Apply(Replay(d.stored).value, entry), at)
    requires RewriteHarmless(db.live, at, sent, 1, ts, n)
    ensures Coherent(DiskAt(log, ts, n + |sent|), db.live, at)
  {
    assert ts[n].cmd == ts[n + 0].cmd == sent[0];
    AppendTaken(log, ts, n, db.live, at, entry);
    if |sent| > 1 {
      assert sent[1..][0] == sent[1] && |sent| == 2;
      RewriteTaken(log, ts, n + 1, db.live, at, sent[1]);
    }
  }

  lemma RunSettles(s: Sys, log: seq<WalEntry>, ts: seq<Taken>, n: nat, at: nat, cmd: Command,
    sent: seq<WalCommand>)
    requires s.now <= at && CommandSends(s.db, at, cmd, sent) && OutcomesOf(sent, ts, n)
    requires Settles(s, DiskAt(log, ts, n)) && Harmless(s, log, ts, n, Run(at, cmd, sent))
    ensures NoOrphans(Exec(s.db.live, at, cmd).state)
    ensures Coherent(DiskAt(log, ts, n + |sent|), Exec(s.db.live, at, cmd).state, at)
  {
    var d, e := DiskAt(log, ts, n), Exec(s.db.live, at, cmd);
    CommandSettles(s, d, at, cmd);
    StepKeepsOwned(s.db.live, at, cmd);
    if e.entry.Some? {
      SendSettles(log, ts, n, s.db.(live := e.state), at, e.entry.value, sent);
    }
  }

  lemma CompactSettles(s: Sys, log: seq<WalEntry>, ts: seq<Taken>, n: nat, at: nat, sent: seq<WalCommand>)
    requires s.now <= at && CompactSends(s.db, at, sent) && OutcomesOf(sent, ts, n)
    requires Settles(s, DiskAt(log, ts, n)) && RewriteHarmless(s.db.live, at, sent, 0, ts, n)
    ensures Coherent(DiskAt(log, ts, n + |sent|), s.db.live, at)
  {
    LaterSettles(s, DiskAt(log, ts, n), at);
    if sent != [] {
      assert ts[n].cmd == ts[n + 0].cmd == sent[0];
      RewriteTaken(log, ts, n, s.db.live, at, sent[0]);
    }
  }

  /** The live state and the time an event leaves. */
  function LiveAfter(s: Sys, ev: Event): State {
    if ev.Run? then Exec(s.db.live, ev.at, ev.cmd).state else s.db.live
  }

  function NowAfter(s: Sys, ev: Event): nat {
    if ev.Run? || ev.AskCompact? || ev.AskFlush? then ev.at else s.now
  }

  lemma NextLeaves(s: Sys, ev: Event)
    ensures Next(s, ev).db.live == LiveAfter(s, ev) && Next(s, ev).now == NowAfter(s, ev)
  {
  }

  lemma FlushSettles(s: Sys, log: seq<WalEntry>, ts: seq<Taken>, n: nat, at: nat, id: nat)
    requires s.now <= at && OutcomesOf([WalCommand.Flush(id)], ts, n) && Settles(s, DiskAt(log, ts, n))
    ensures Coherent(DiskAt(log, ts, n + 1), s.db.live, at)
  {
    LaterSettles(s, DiskAt(log, ts, n), at);
    assert ts[n].cmd == ts[n + 0].cmd == [WalCommand.Flush(id)][0];
    FlushTaken(log, ts, n, s.db.live, at);
  }

  lemma RunStepSettles(s: Sys, log: seq<WalEntry>, ts: seq<Taken>, n: nat, ev: Event)
    requires ev.Run? && Enabled(s, ev) && OutcomesOf(Sent(ev), ts, n)
    requires Settles(s, DiskAt(log, ts, n)) && Harmless(s, log, ts, n, ev)
    ensures NoOrphans(LiveAfter(s, ev))
    ensures Coherent(DiskAt(log, ts, n + |Sent(ev)|), LiveAfter(s, ev), NowAfter(s, ev))
  {
    RunSettles(s, log, ts, n, ev.at, ev.cmd, ev.sent);
  }

  lemma CompactStepSettles(s: Sys, log: seq<WalEntry>, ts: seq<Taken>, n: nat, ev: Event)
    requires ev.AskCompact? && Enabled(s, ev) && OutcomesOf(Sent(ev), ts, n)
    requires Settles(s, DiskAt(log, ts, n)) && Harmless(s, log, ts, n, ev)
    ensures Coherent(DiskAt(log, ts, n + |Sent(ev)|), LiveAfter(s, ev), NowAfter(s, ev))
  {
    CompactSettles(s, log, ts, n, ev.at, ev.sent);
  }

  /** A harmless step keeps live state and eventual log together. */
  lemma StepSettles(s: Sys, log: seq<WalEntry>, ts: seq<Taken>, n: nat, ev: Event)
    requires Enabled(s, ev) && OutcomesOf(Sent(ev), ts, n)
    requires Settles(s, DiskAt(log, ts, n)) && Harmless(s, log, ts, n, ev)
    ensures NoOrphans(LiveAfter(s, ev))
    ensures Coherent(DiskAt(log, ts, n + |Sent(ev)|), LiveAfter(s, ev), NowAfter(s, ev))
  {
    if ev.Run? {
      RunStepSettles(s, log, ts, n, ev);
    } else if ev.AskCompact? {
      CompactStepSettles(s, log, ts, n, ev);
    } else if ev.AskFlush? {
      FlushSettles(s, log, ts, n, ev.at, ev.id);
    } else {
      assert Sent(ev) == [];
    }
  }

  lemma StartSettles(log: seq<WalEntry>, start: nat)
    requires Refinement.Resumable(log)
    ensures Settles(Start(log, start), Started(log))
  {
    Refinement.AgreementStarts(Replay(log).value, start);
  }

  /** Along a harmless run, what is live agrees with the log that all sent so far leads to. */
  lemma {:induction false} RunsSettle(log: seq<WalEntry>, start: nat, ts: seq<Taken>, evs: seq<Event>)
    requires Refinement.Resumable(log) && EnabledRun(Start(log, start), evs)
    requires AllSent(evs) <= Commands(ts) && HarmlessRun(Start(log, start), log, ts, evs)
    ensures Settles(After(Start(log, start), evs), DiskAt(log, ts, |AllSent(evs)|))
  {
    if evs == [] {
      assert ts[..0] == [];
      StartSettles(log, start);
    } else {
      var init, last := evs[..|evs| - 1], evs[|evs| - 1];
      var before := AllSent(init);
      assert AllSent(evs) == before + Sent(last);
      SentBy(before, Sent(last), ts);
      RunsSettle(log, start, ts, init);
      var m := After(Start(log, start), init);
      StepSettles(m, log, ts, |before|, last);
      NextLeaves(m, last);
      assert After(Start(log, start), evs) == Next(m, last);
    }
  }

  lemma SentBy(before: seq<WalCommand>, sent: seq<WalCommand>, ts: seq<Taken>)
    requires before + sent <= Commands(ts)
    ensures OutcomesOf(sent, ts, |before|) && before <= Commands(ts)
  {
    assert before == (before + sent)[..|before|] == Commands(ts)[..|before|];
    forall k | 0 <= k < |sent| ensures ts[|before| + k].cmd == sent[k] {
      assert (before + sent)[|before| + k] == Commands(ts)[|before| + k];
    }
  }

  // ----------------------------------------------------------------- flushes

  /** An acknowledgement tells of the log at the position where the flush was taken. */
  ghost predicate AckedAt(f: Flush, log: seq<WalEntry>, ts: seq<Taken>, m: nat) {
    m < |ts| && ts[m].cmd == WalCommand.Flush(f.id)
    && f.ok == !DiskAt(log, ts, m).failed && f.stored == DiskAt(log, ts, m).stored
  }

  lemma AckStays(f: Flush, log: seq<WalEntry>, ts: seq<Taken>, more: seq<Taken>, m: nat)
    requires AckedAt(f, log, ts, m) && ts <= more
    ensures AckedAt(f, log, more, m)
  {
    assert more[..m] == ts[..m];
  }

  lemma {:induction false} AckPosition(log: seq<WalEntry>, start: nat, evs: seq<Event>, f: Flush) returns (m: nat)
    requires Replay(log).Ok? && EnabledRun(Start(log, start), evs)
    requires f in After(Start(log, start), evs).flushed
    ensures AckedAt(f, log, Took(Start(log, start), evs), m)
  {
    var s, init, last := Start(log, start), evs[..|evs| - 1], evs[|evs| - 1];
    var before := After(s, init);
    TookGrows(s, evs, |init|);
    if f in before.flushed {
      m := AckPosition(log, start, init, f);
      AckStays(f, log, Took(s, init), Took(s, evs), m);
    } else {
      TookFollows(log, start, init);
      m := |Took(s, init)|;
      NewAck(before, last, f);
      assert Took(s, evs)[..m] == Took(s, init);
    }
  }

  /** A new acknowledgement comes from taking a flush. */
  lemma NewAck(s: Sys, ev: Event, f: Flush)
    requires Enabled(s, ev) && f !in s.flushed && f in Next(s, ev).flushed
    ensures ev.Work? && s.queue[0] == WalCommand.Flush(f.id) && f.ok == !s.disk.failed && f.stored == s.disk.stored
  {
  }

  /** A flush in the queue was put there by the event that asked for it. */
  lemma {:induction false} AskedAt(s: Sys, evs: seq<Event>, m: nat) returns (i: nat)
    requires EnabledRun(s, evs) && m < |AllSent(evs)| && AllSent(evs)[m].Flush?
    ensures i < |evs| && evs[i].AskFlush? && evs[i].id == AllSent(evs)[m].id
    ensures |AllSent(evs[..i])| == m
  {
    var init, last := evs[..|evs| - 1], evs[|evs| - 1];
    var before := AllSent(init);
    assert AllSent(evs) == before + Sent(last);
    if m < |before| {
      assert before[m] == AllSent(evs)[m];
      i := AskedAt(s, init, m);
      assert init[..i] == evs[..i];
    } else {
      i := |init|;
      LastAsked(After(s, init), last, before, m);
    }
  }

  /** Only a request to flush sends a flush. */
  lemma FlushIsSent(s: Sys, ev: Event, k: nat)
    requires Enabled(s, ev) && k < |Sent(ev)| && Sent(ev)[k].Flush?
    ensures ev.AskFlush? && ev.id == Sent(ev)[k].id && k == 0
  {
  }

  lemma LastAsked(s: Sys, ev: Event, before: seq<WalCommand>, m: nat)
    requires Enabled(s, ev) && |before| <= m < |before + Sent(ev)| && (before + Sent(ev))[m].Flush?
    ensures ev.AskFlush? && ev.id == (before + Sent(ev))[m].id && m == |before|
  {
    assert Sent(ev)[m - |before|] == (before + Sent(ev))[m];
    FlushIsSent(s, ev, m - |before|);
  }

  lemma {:induction false} EnabledPrefix(s: Sys, evs: seq<Event>, j: nat)
    requires EnabledRun(s, evs) && j <= |evs|
    ensures EnabledRun(s, evs[..j])
  {
    if j == |evs| {
      assert evs[..j] == evs;
    } else {
      var init := evs[..|evs| - 1];
      assert init[..j] == evs[..j];
      EnabledPrefix(s, init, j);
    }
  }

  /**
   * End-to-end durability, in hindsight. In any run from the empty database or
   * a resumed log, if a flush has been acknowledged Ok, it was asked for at
   * some event i; and if, in what came about, no step before that did harm,
   * replaying the log stored at the acknowledgement shows what was live when
   * the flush was asked for, at that and every later time. Whatever followed
   * the request, whatever might have happened to the queue but did not, and
   * whatever rewrites failed, is of no account.
   */
  lemma FlushIsDurableInHindsight(log: seq<WalEntry>, start: nat, evs: seq<Event>, f: Flush) returns (i: nat)
    requires Refinement.Resumable(log) && EnabledRun(Start(log, start), evs)
    requires f in After(Start(log, start), evs).flushed && f.ok
    ensures i < |evs| && evs[i].AskFlush? && evs[i].id == f.id
    ensures |AllSent(evs[..i])| <= |Took(Start(log, start), evs)|
    ensures HarmlessRun(Start(log, start), log, Took(Start(log, start), evs), evs[..i]) ==>
      && Replay(f.stored).Ok?
      && var asked := After(Start(log, start), evs[..i]);
         forall later :: evs[i].at <= later ==>
           Visible(Replay(f.stored).value, later) == Visible(asked.db.live, later)
  {
    var s := Start(log, start);
    var ts := Took(s, evs);
    var m := AckPosition(log, start, evs, f);
    TookFollows(log, start, evs);
    FrontOfSent(ts, After(s, evs).queue, AllSent(evs), m);
    i := AskedAt(s, evs, m);
    if HarmlessRun(s, log, ts, evs[..i]) {
      AskedSettles(log, start, evs, i, m);
      ShowsFrom(After(s, evs[..i]), DiskAt(log, ts, m), evs[i].at);
    }
  }

  /** When a flush is asked for behind harmless steps, what is live agrees with the log it will find. */
  lemma AskedSettles(log: seq<WalEntry>, start: nat, evs: seq<Event>, i: nat, m: nat)
    requires Refinement.Resumable(log) && EnabledRun(Start(log, start), evs)
    requires i < |evs| && evs[i].AskFlush? && m == |AllSent(evs[..i])| <= |Took(Start(log, start), evs)|
    requires HarmlessRun(Start(log, start), log, Took(Start(log, start), evs), evs[..i])
    ensures After(Start(log, start), evs[..i]).now <= evs[i].at
    ensures Settles(After(Start(log, start), evs[..i]), DiskAt(log, Took(Start(log, start), evs), m))
  {
    var s := Start(log, start);
    var ts := Took(s, evs);
    TookFollows(log, start, evs);
    EnabledPrefix(s, evs, i);
    LastEnabled(s, evs, i + 1);
    TookGrows(s, evs, i);
    PrefixOf(AllSent(evs[..i]), Commands(ts), AllSent(evs));
    RunsSettle(log, start, ts, evs[..i]);
  }

  /** Settled and nothing lost: the log shows what is live, from now on. */
  lemma ShowsFrom(s: Sys, d: Disk, at: nat)
    requires Settles(s, d) && !d.failed && s.now <= at
    ensures Replay(d.stored).Ok?
    ensures forall later :: at <= later ==> Visible(Replay(d.stored).value, later) == Visible(s.db.live, later)
  {
    forall later | at <= later ensures Visible(Replay(d.stored).value, later) == Visible(s.db.live, later) {
      Refinement.AgreementShows(s.db.live, Replay(d.stored).value, s.now, later);
    }
  }

  lemma FrontOfSent(ts: seq<Taken>, queue: seq<WalCommand>, sent: seq<WalCommand>, m: nat)
    requires Commands(ts) + queue == sent && m < |ts|
    ensures m < |sent| && sent[m] == ts[m].cmd
  {
    assert (Commands(ts) + queue)[m] == Commands(ts)[m];
  }

  /** Of two prefixes the shorter is a prefix of the longer. */
  lemma PrefixOf(a: seq<WalCommand>, b: seq<WalCommand>, all: seq<WalCommand>)
    requires a <= all && b <= all && |a| <= |b|
    ensures a <= b
  {
  }

  // ------------------------------------------------- safe runs are harmless

  /** Outcomes that continue those of a run so far are, for its queue, outcomes like any other. */
  lemma RestOfOutcomes(s: Sys, log: seq<WalEntry>, took: seq<Taken>, sent: seq<WalCommand>, ts: seq<Taken>)
    requires Follows(s, log, took, sent) && took <= ts && sent <= Commands(ts)
    ensures |took| <= |sent| <= |ts|
    ensures
      var rest := ts[|took|..|sent|];
      Commands(rest) == s.queue && Process(s.disk, rest) == DiskAt(log, ts, |sent|)
  {
    var rest := ts[|took|..|sent|];
    assert ts[..|sent|] == took + rest;
    ProcessConcat(Started(log), took, rest);
    assert Commands(ts)[..|sent|] == sent;
    assert sent[|took|..] == s.queue;
    forall k | 0 <= k < |rest| ensures Commands(rest)[k] == s.queue[k] {
      assert Commands(ts)[|took| + k] == sent[|took| + k];
    }
  }

  lemma SafeIsHarmless(s: Sys, log: seq<WalEntry>, took: seq<Taken>, sent: seq<WalCommand>, ts: seq<Taken>, ev: Event)
    requires Follows(s, log, took, sent) && took <= ts && sent <= Commands(ts)
    requires Enabled(s, ev) && Safe(s, ev)
    ensures Harmless(s, log, ts, |sent|, ev)
  {
    RestOfOutcomes(s, log, took, sent, ts);
    match ev
    case Run(at, cmd, more) =>
      var rest := ts[|took|..|sent|];
      assert Commands(rest) == s.queue;
    case _ =>
  }

  /** A safe run is harmless, whatever becomes of what is still queued. */
  lemma {:induction false} SafeRunsHarmless(log: seq<WalEntry>, start: nat, evs: seq<Event>, ts: seq<Taken>)
    requires Replay(log).Ok? && EnabledRun(Start(log, start), evs) && SafeRun(Start(log, start), evs)
    requires Took(Start(log, start), evs) <= ts && AllSent(evs) <= Commands(ts)
    ensures HarmlessRun(Start(log, start), log, ts, evs)
  {
    if evs != [] {
      var s, init, last := Start(log, start), evs[..|evs| - 1], evs[|evs| - 1];
      TookGrows(s, evs, |init|);
      SafeRunsHarmless(log, start, init, ts);
      TookFollows(log, start, init);
      SafeIsHarmless(After(s, init), log, Took(s, init), AllSent(init), ts, last);
    }
  }

  lemma {:induction false} SafePrefix(s: Sys, evs: seq<Event>, j: nat)
    requires SafeRun(s, evs) && j <= |evs|
    ensures SafeRun(s, evs[..j])
  {
    if j == |evs| {
      assert evs[..j] == evs;
    } else {
      var init := evs[..|evs| - 1];
      assert init[..j] == evs[..j];
      SafePrefix(s, init, j);
    }
  }

  // ----------------------------------------------------------------- crashes

  predicate NoAppend(queue: seq<WalCommand>) {
    forall i :: 0 <= i < |queue| ==> !queue[i].Append?
  }

  /** The commands of a queue, all failing. */
  function AllFail(queue: seq<WalCommand>): (ts: seq<Taken>)
    ensures Commands(ts) == queue && forall t :: t in ts ==> !t.ok
  {
    seq(|queue|, i requires 0 <= i < |queue| => Taken(queue[i], false))
  }

  /** Failing commands other than appends leave the log alone. */
  lemma {:induction false} FailingKeeps(d: Disk, ts: seq<Taken>)
    requires forall t :: t in ts ==> !t.ok && !t.cmd.Append?
    ensures Process(d, ts).stored == d.stored && Process(d, ts).failed == d.failed
  {
    if ts != [] {
      assert forall t :: t in ts[..|ts| - 1] ==> t in ts;
      FailingKeeps(d, ts[..|ts| - 1]);
    }
  }

  /** Everything taken was sent by the first `j` events, and of what they sent no append is still to be taken. */
  ghost predicate CaughtUp(s: Sys, evs: seq<Event>, j: nat) {
    j <= |evs| && |Took(s, evs)| <= |AllSent(evs[..j])| && NoAppend(AllSent(evs[..j])[|Took(s, evs)|..])
  }

  lemma SentSplit(evs: seq<Event>, j: nat)
    requires 0 < j <= |evs|
    ensures AllSent(evs[..j]) == AllSent(evs[..j - 1]) + Sent(evs[j - 1])
  {
    assert evs[..j][..j - 1] == evs[..j - 1];
  }

  lemma LastEnabled(s: Sys, evs: seq<Event>, j: nat)
    requires EnabledRun(s, evs) && 0 < j <= |evs|
    ensures Enabled(After(s, evs[..j - 1]), evs[j - 1])
  {
    EnabledPrefix(s, evs, j);
    assert evs[..j][..j - 1] == evs[..j - 1];
  }

  /** The last moment the stored log has caught up with. */
  lemma {:induction false} LastCaughtUp(s: Sys, evs: seq<Event>, j: nat, took: nat) returns (i: nat)
    requires EnabledRun(s, evs) && j <= |evs| && took <= |AllSent(evs[..j])|
    ensures i <= j && took <= |AllSent(evs[..i])| && NoAppend(AllSent(evs[..i])[took..])
    ensures i < j ==> AppendsNext(evs, i)
    decreases j
  {
    var sent := AllSent(evs[..j]);
    if NoAppend(sent[took..]) {
      i := j;
    } else {
      var before, last := AllSent(evs[..j - 1]), evs[j - 1];
      SentSplit(evs, j);
      LastEnabled(s, evs, j);
      AppendComesFirst(After(s, evs[..j - 1]), last);
      WaitingAppend(before, Sent(last), took);
      i := LastCaughtUp(s, evs, j - 1, took);
    }
  }

  /** An append still to be taken, none of them among those sent before, is the first of what was sent last. */
  lemma WaitingAppend(before: seq<WalCommand>, last: seq<WalCommand>, took: nat)
    requires took <= |before + last| && !NoAppend((before + last)[took..])
    requires forall k :: 0 <= k < |last| && last[k].Append? ==> k == 0
    ensures took <= |before|
    ensures NoAppend(before[took..]) ==> last != [] && last[0].Append?
  {
    var rest := (before + last)[took..];
    var i :| 0 <= i < |rest| && rest[i].Append?;
    assert rest[i] == (before + last)[took + i];
    if took + i >= |before| {
      assert rest[i] == last[took + i - |before|];
    } else {
      assert rest[i] == before[took..][i];
    }
  }

  /** What an event sends begins with its append, if it has one. */
  lemma AppendComesFirst(s: Sys, ev: Event)
    requires Enabled(s, ev)
    ensures forall k :: 0 <= k < |Sent(ev)| && Sent(ev)[k].Append? ==> k == 0
  {
  }

  /** Replaying the log shows what is live in a system, at its time and every later one. */
  ghost predicate Shows(stored: seq<WalEntry>, s: Sys) {
    && Replay(stored).Ok?
    && forall later :: s.now <= later ==> Visible(Replay(stored).value, later) == Visible(s.db.live, later)
  }

  lemma FailingRest(took: seq<Taken>, queue: seq<WalCommand>, all: seq<WalCommand>, sent: seq<WalCommand>)
    requires Commands(took) + queue == all && sent <= all
    ensures sent <= Commands(took + AllFail(queue))
  {
    assert Commands(took + AllFail(queue)) == Commands(took) + queue;
  }

  lemma TookIsFront(a: seq<Taken>, b: seq<Taken>, rest: seq<Taken>)
    requires a <= b
    ensures a <= b + rest
  {
  }

  /** If all that is still queued fails, what was live at an earlier moment agrees with the log all it sent leads to. */
  lemma SettledSoFar(log: seq<WalEntry>, start: nat, evs: seq<Event>, j: nat)
    requires Refinement.Resumable(log) && EnabledRun(Start(log, start), evs) && SafeRun(Start(log, start), evs)
    requires j <= |evs|
    ensures
      var ts := Took(Start(log, start), evs) + AllFail(After(Start(log, start), evs).queue);
      && |AllSent(evs[..j])| <= |ts|
      && Settles(After(Start(log, start), evs[..j]), DiskAt(log, ts, |AllSent(evs[..j])|))
  {
    var s := Start(log, start);
    var t, took := After(s, evs), Took(s, evs);
    TookFollows(log, start, evs);
    var ts := took + AllFail(t.queue);
    TookGrows(s, evs, j);
    FailingRest(took, t.queue, AllSent(evs), AllSent(evs[..j]));
    TookIsFront(Took(s, evs[..j]), took, AllFail(t.queue));
    EnabledPrefix(s, evs, j);
    SafePrefix(s, evs, j);
    SafeRunsHarmless(log, start, evs[..j], ts);
    RunsSettle(log, start, ts, evs[..j]);
  }

  /** The stored log shows what was live at every moment it has caught up with. */
  lemma CaughtUpShows(log: seq<WalEntry>, start: nat, evs: seq<Event>, j: nat)
    requires Refinement.Resumable(log) && EnabledRun(Start(log, start), evs) && SafeRun(Start(log, start), evs)
    requires !After(Start(log, start), evs).disk.failed && CaughtUp(Start(log, start), evs, j)
    ensures Shows(After(Start(log, start), evs).disk.stored, After(Start(log, start), evs[..j]))
  {
    var s := Start(log, start);
    var t, took, sent := After(s, evs), Took(s, evs), AllSent(evs[..j]);
    var was, ts := After(s, evs[..j]), took + AllFail(t.queue);
    SettledSoFar(log, start, evs, j);
    TookFollows(log, start, evs);
    TookGrows(s, evs, j);
    StillTheSame(log, took, t.queue, AllSent(evs), sent);
    ShowsFrom(was, DiskAt(log, ts, |sent|), was.now);
  }

  /** The next event sends an append. */
  predicate AppendsNext(evs: seq<Event>, j: nat)
    requires j < |evs|
  {
    Sent(evs[j]) != [] && Sent(evs[j])[0].Append?
  }

  /**
   * A crash at any moment loses at most a suffix. In every safe run, with no
   * append lost, there is an event count j such that replaying the log as it
   * is stored now shows what was live after the first j events, then and
   * later. It is the last such moment: all appends sent by then have been
   * taken, and the next event, if there is one, sends one that has not.
   */
  lemma CrashLosesSuffix(log: seq<WalEntry>, start: nat, evs: seq<Event>) returns (j: nat)
    requires Refinement.Resumable(log) && EnabledRun(Start(log, start), evs) && SafeRun(Start(log, start), evs)
    requires !After(Start(log, start), evs).disk.failed
    ensures CaughtUp(Start(log, start), evs, j) && (j < |evs| ==> AppendsNext(evs, j))
    ensures Shows(After(Start(log, start), evs).disk.stored, After(Start(log, start), evs[..j]))
  {
    var s := Start(log, start);
    TookFollows(log, start, evs);
    assert evs[..|evs|] == evs;
    j := LastCaughtUp(s, evs, |evs|, |Took(s, evs)|);
    CaughtUpShows(log, start, evs, j);
  }

  /** The log does not change over the commands still to be taken that are no appends, should they all fail. */
  lemma {:induction false} StillTheSame(log: seq<WalEntry>, took: seq<Taken>, queue: seq<WalCommand>,
    all: seq<WalCommand>, sent: seq<WalCommand>)
    requires Commands(took) + queue == all && sent <= all && |took| <= |sent| && NoAppend(sent[|took|..])
    ensures
      var d, ts := Process(Started(log), took), took + AllFail(queue);
      DiskAt(log, ts, |sent|).stored == d.stored && DiskAt(log, ts, |sent|).failed == d.failed
  {
    var ts, k := took + AllFail(queue), |sent| - |took|;
    var rest := AllFail(queue)[..k];
    assert ts[..|sent|] == took + rest;
    forall t | t in rest ensures !t.ok && !t.cmd.Append? {
      var i :| 0 <= i < |rest| && rest[i] == t;
      assert Commands(AllFail(queue))[i] == queue[i] == all[|took| + i] == sent[|took|..][i];
    }
    ProcessConcat(Started(log), took, rest);
    FailingKeeps(Process(Started(log), took), rest);
  }

  // ------------------------------------------------------ what a loss may cost

  const SET_K: WalEntry := WalEntry.Set("k", [], None)
  const DEL_K: WalEntry := WalEntry.Del(["k"])
  const PUSH_K: WalEntry := WalEntry.Mutation("k", RPush(["x"]))

  /** A log from which the deletion between two kinds of value is missing. */
  lemma GapFailsToReplay()
    ensures Replay([SET_K, PUSH_K]).Err?
  {
    ReplayAppend(EMPTY, [], SET_K);
    ReplayAppend(EMPTY, [SET_K], PUSH_K);
    assert [] + [SET_K] == [SET_K] && [SET_K] + [PUSH_K] == [SET_K, PUSH_K];
    assert At(Apply(EMPTY, SET_K).value, "k") == Cell(Some(Value.Str([])), None);
  }

  /** A command that logs an entry, over an idle queue, and what becomes of the entry. */
  lemma OneCommand(s: Sys, cmd: Command, entry: WalEntry, ok: bool)
    requires s.queue == [] && s.now == 0 && s.db.walLen + 1 < s.db.threshold
    requires Exec(s.db.live, 0, cmd).entry == Some(entry)
    ensures
      var run := Run(0, cmd, [WalCommand.Append(entry)]);
      var t := Next(Next(s, run), Work(ok));
      && Enabled(s, run) && Enabled(Next(s, run), Work(ok))
      && t.queue == [] && t.now == 0 && t.db.live == Exec(s.db.live, 0, cmd).state
      && t.db.walLen == s.db.walLen + 1 && t.db.threshold == s.db.threshold
      && t.disk.stored == s.disk.stored + if ok then [entry] else []
  {
    assert [WalCommand.Append(entry)][1..] == [];
    assert s.disk.stored + [] == s.disk.stored;
  }

  /** A SET, then a DEL of the key. */
  lemma SetDelLog()
    ensures
      var one := Exec(EMPTY, 0, Command.Set("k", []));
      && one.entry == Some(SET_K) && At(one.state, "k") == Cell(Some(Value.Str([])), None)
      && Exec(one.state, 0, Command.Del(["k"])).entry == Some(DEL_K)
      && At(Exec(one.state, 0, Command.Del(["k"])).state, "k") == ABSENT
  {
    var one := Exec(EMPTY, 0, Command.Set("k", [])).state;
    assert "k" in Elements(["k"]) * one.data.Keys;
  }

  /** A push on a missing key is logged. */
  lemma PushLogs(st: State)
    requires At(st, "k") == ABSENT
    ensures Exec(st, 0, Command.Mutation("k", RPush(["x"]))).entry == Some(PUSH_K)
  {
    Refinement.ExecOnDead(ABSENT, 0, "k", RPush(["x"]));
  }

  /**
   * A lost append may cost everything: SET, DEL and RPUSH of one key, the
   * batch with the DEL failing. The writer goes on, and the log it leaves does
   * not replay, so the database does not open any more.
   */
  lemma LossExample()
    ensures
      var set1 := Run(0, Command.Set("k", []), [WalCommand.Append(SET_K)]);
      var del1 := Run(0, Command.Del(["k"]), [WalCommand.Append(DEL_K)]);
      var push1 := Run(0, Command.Mutation("k", RPush(["x"])), [WalCommand.Append(PUSH_K)]);
      var s0 := Start([], 0);
      var s1 := Next(Next(s0, set1), Work(true));
      var s2 := Next(Next(s1, del1), Work(false));
      var s3 := Next(Next(s2, push1), Work(true));
      && Enabled(s0, set1) && Enabled(Next(s0, set1), Work(true))
      && Enabled(s1, del1) && Enabled(Next(s1, del1), Work(false))
      && Enabled(s2, push1) && Enabled(Next(s2, push1), Work(true))
      && Replay(s3.disk.stored).Err?
  {
    var s0 := Start([], 0);
    SetDelLog();
    OneCommand(s0, Command.Set("k", []), SET_K, true);
    var s1 := Next(Next(s0, Run(0, Command.Set("k", []), [WalCommand.Append(SET_K)])), Work(true));
    OneCommand(s1, Command.Del(["k"]), DEL_K, false);
    var s2 := Next(Next(s1, Run(0, Command.Del(["k"]), [WalCommand.Append(DEL_K)])), Work(false));
    PushLogs(s2.db.live);
    OneCommand(s2, Command.Mutation("k", RPush(["x"])), PUSH_K, true);
    GapFailsToReplay();
    assert [] + [SET_K] + [] + [PUSH_K] == [SET_K, PUSH_K];
  }
}
