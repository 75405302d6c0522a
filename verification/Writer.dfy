/**
 * The background writer of the IndexedDB log: a queue of commands, appends
 * batched into one transaction, one deferred command, and a failure flag that
 * only a successful rewrite clears.
 */
module Writer {
  import opened Base
  import opened Log

  datatype WalCommand =
    | Append(entry: WalEntry)
    | Flush(id: nat)
    | Count(id: nat)
    | Rewrite(entries: seq<WalEntry>, id: nat)

  /** The reply a waiting caller receives. A count that fails has no number. */
  datatype Ack = Flushed(id: nat, ok: bool) | Counted(id: nat, count: Option<nat>) | Rewritten(id: nat, ok: bool)

  /** The stored entries, whether an append has failed since the last successful rewrite, and the replies given. */
  datatype Disk = Disk(stored: seq<WalEntry>, failed: bool, acks: seq<Ack>)

  /** The writer as started over a stored log. */
  function Started(stored: seq<WalEntry>): Disk {
    Disk(stored, false, [])
  }

  // ----------------------------------------------------- one at a time, FIFO

  /** A command and the outcome of its storage operation (of no account for a flush). */
  datatype Taken = Taken(cmd: WalCommand, ok: bool)

  function Take(d: Disk, t: Taken): Disk {
    match t.cmd
    case Append(entry) => if t.ok then d.(stored := d.stored + [entry]) else d.(failed := true)
    case Flush(id) => d.(acks := d.acks + [Flushed(id, !d.failed)])
    case Count(id) => d.(acks := d.acks + [Counted(id, if t.ok then Some(|d.stored|) else None)])
    case Rewrite(entries, id) =>
      var acks := d.acks + [Rewritten(id, t.ok)];
      if t.ok then Disk(entries, false, acks) else d.(acks := acks)
  }

  /** Commands taken in order. */
  function Process(d: Disk, ts: seq<Taken>): Disk {
    if ts == [] then d else Take(Process(d, ts[..|ts| - 1]), ts[|ts| - 1])
  }

  lemma ProcessSnoc(d: Disk, ts: seq<Taken>, t: Taken)
    ensures Process(d, ts + [t]) == Take(Process(d, ts), t)
  {
    assert (ts + [t])[..|ts|] == ts;
  }

  lemma {:induction false} ProcessConcat(d: Disk, a: seq<Taken>, b: seq<Taken>)
    ensures Process(d, a + b) == Process(Process(d, a), b)
  {
    if b == [] {
      assert a + b == a;
    } else {
      var init, t := b[..|b| - 1], b[|b| - 1];
      ProcessConcat(d, a, init);
      ProcessSnoc(d, a + init, t);
      assert a + b == (a + init) + [t];
    }
  }

  /** Taking the first command, then the others. */
  lemma ProcessHead(d: Disk, t: Taken, ts: seq<Taken>)
    ensures Process(d, [t] + ts) == Process(Take(d, t), ts)
  {
    ProcessConcat(d, [t], ts);
    ProcessSnoc(d, [], t);
    assert [] + [t] == [t];
  }

  // --------------------------------------------------------- the sticky flag

  /** The entries of the append commands, in order. */
  function Appended(ts: seq<Taken>): seq<WalEntry> {
    if ts == [] then []
    else Appended(ts[..|ts| - 1]) + if ts[|ts| - 1].cmd.Append? then [ts[|ts| - 1].cmd.entry] else []
  }

  /** The entries of those append commands whose batch committed. */
  function Survived(ts: seq<Taken>): seq<WalEntry> {
    if ts == [] then []
    else
      var t := ts[|ts| - 1];
      Survived(ts[..|ts| - 1]) + if t.cmd.Append? && t.ok then [t.cmd.entry] else []
  }

  predicate AppendFailed(ts: seq<Taken>) {
    exists t :: t in ts && t.cmd.Append? && !t.ok
  }

  predicate RewriteSucceeded(ts: seq<Taken>) {
    exists t :: t in ts && t.cmd.Rewrite? && t.ok
  }

  lemma {:induction false} WithoutRewrites(d: Disk, ts: seq<Taken>)
    requires !RewriteSucceeded(ts)
    ensures Process(d, ts).failed <==> d.failed || AppendFailed(ts)
    ensures Process(d, ts).stored == d.stored + Survived(ts)
    ensures !AppendFailed(ts) ==> Survived(ts) == Appended(ts)
  {
    if ts != [] {
      var init, t := ts[..|ts| - 1], ts[|ts| - 1];
      assert ts == init + [t];
      assert forall u :: u in ts <==> u in init || u == t;
      WithoutRewrites(d, init);
      assert AppendFailed(ts) <==> AppendFailed(init) || (t.cmd.Append? && !t.ok);
    }
  }

  /**
   * What a flush says, after any history that splits at the last successful
   * rewrite (`before` empty or ending in it). The flag is set exactly when an
   * append has failed since, so a flush is acknowledged Ok exactly when none
   * has; and then the stored log is that rewrite's entries, or the initial
   * log, followed by every later append.
   */
  lemma StickyFlush(initial: seq<WalEntry>, before: seq<Taken>, after: seq<Taken>)
    requires before == [] || (before[|before| - 1].cmd.Rewrite? && before[|before| - 1].ok)
    requires !RewriteSucceeded(after)
    ensures
      var d := Process(Started(initial), before + after);
      var base := if before == [] then initial else before[|before| - 1].cmd.entries;
      && (d.failed <==> AppendFailed(after))
      && d.stored == base + Survived(after)
      && (!d.failed ==> d.stored == base + Appended(after))
      && (forall id :: Take(d, Taken(Flush(id), true)).acks == d.acks + [Flushed(id, !AppendFailed(after))])
  {
    ProcessConcat(Started(initial), before, after);
    WithoutRewrites(Process(Started(initial), before), after);
  }

  /**
   * What the other replies say, after any such history. A count is of the
   * entries of the last successful rewrite, or the initial log, and of the
   * appends that have survived since; or it is an error. A rewrite is
   * acknowledged Ok exactly if the stored log is then what it brought, with no
   * append missing; if not, nothing has changed. Nobody else is answered.
   */
  lemma RepliesMean(initial: seq<WalEntry>, before: seq<Taken>, after: seq<Taken>, t: Taken)
    requires before == [] || (before[|before| - 1].cmd.Rewrite? && before[|before| - 1].ok)
    requires !RewriteSucceeded(after)
    ensures
      var d := Process(Started(initial), before + after);
      var base := if before == [] then initial else before[|before| - 1].cmd.entries;
      var e := Take(d, t);
      match t.cmd
      case Append(_) => e.acks == d.acks
      case Flush(id) => e.acks == d.acks + [Flushed(id, !AppendFailed(after))] && e.stored == d.stored
      case Count(id) =>
        && e.acks == d.acks + [Counted(id, if t.ok then Some(|base| + |Survived(after)|) else None)]
        && e.stored == d.stored && e.failed == d.failed
      case Rewrite(entries, id) =>
        && e.acks == d.acks + [Rewritten(id, t.ok)]
        && if t.ok then e.stored == entries && !e.failed else e.stored == d.stored && e.failed == d.failed
  {
    StickyFlush(initial, before, after);
  }

  /** Every history splits so. */
  lemma {:induction false} SplitAtRewrite(ts: seq<Taken>) returns (before: seq<Taken>, after: seq<Taken>)
    ensures ts == before + after && !RewriteSucceeded(after)
    ensures before == [] || (before[|before| - 1].cmd.Rewrite? && before[|before| - 1].ok)
  {
    before, after := ts, [];
    if ts != [] {
      var t := ts[|ts| - 1];
      if !(t.cmd.Rewrite? && t.ok) {
        before, after := SplitAtRewrite(ts[..|ts| - 1]);
        after := after + [t];
      }
    }
  }

  // ---------------------------------------------------------------- the loop

  function Concat<T>(chunks: seq<seq<T>>): seq<T> {
    if chunks == [] then [] else chunks[0] + Concat(chunks[1..])
  }

  /** The one-slot buffer, as a sequence. */
  function Slot<T>(c: Option<T>): seq<T> {
    if c.Some? then [c.value] else []
  }

  function Commands(ts: seq<Taken>): (cmds: seq<WalCommand>)
    ensures |cmds| == |ts| && forall i :: 0 <= i < |ts| ==> cmds[i] == ts[i].cmd
  {
    seq(|ts|, i requires 0 <= i < |ts| => ts[i].cmd)
  }

  /** A batch as single appends sharing one outcome. */
  function Batch(entries: seq<WalEntry>, ok: bool): (ts: seq<Taken>)
    ensures |ts| == |entries| && forall i :: 0 <= i < |ts| ==> ts[i] == Taken(Append(entries[i]), ok)
  {
    seq(|entries|, i requires 0 <= i < |entries| => Taken(Append(entries[i]), ok))
  }

  /** A batch commits or fails as a whole: the same as its appends one at a time. */
  lemma {:induction false} BatchIsAppends(d: Disk, entries: seq<WalEntry>, ok: bool)
    ensures Process(d, Batch(entries, ok)) ==
      Disk(if ok then d.stored + entries else d.stored, d.failed || (!ok && entries != []), d.acks)
  {
    if entries == [] {
      assert d.stored + entries == d.stored;
    } else {
      var init, e := entries[..|entries| - 1], entries[|entries| - 1];
      BatchIsAppends(d, init, ok);
      ProcessSnoc(d, Batch(init, ok), Taken(Append(e), ok));
      assert Batch(entries, ok) == Batch(init, ok) + [Taken(Append(e), ok)];
      assert d.stored + entries == d.stored + init + [e];
    }
  }

  /** Extending a history by a stretch that leads from its state to the next. */
  lemma Extend(d0: Disk, history: seq<Taken>, step: seq<Taken>)
    ensures Process(d0, history + step) == Process(Process(d0, history), step)
    ensures Commands(history + step) == Commands(history) + Commands(step)
  {
    ProcessConcat(d0, history, step);
  }

  /**
   * The writer's loop. `arrivals[i]` is what callers have sent by the time of
   * round i (while the round before was waiting for storage), `storage(i)`
   * whether storage succeeds in round i; a round that finds nothing takes
   * nothing. Whatever the timing and the batching, commands are taken once, in
   * the order sent, after they have arrived; and after every round the stored
   * log and the replies are those of taking them one at a time, those of one
   * round with one outcome. In the end all have been taken.
   */
  method RunWriter(initial: seq<WalEntry>, arrivals: seq<seq<WalCommand>>, storage: nat -> bool)
    returns (disks: seq<Disk>, rounds: seq<seq<Taken>>)
    ensures Commands(Concat(rounds)) == Concat(arrivals)
    ensures |disks| == |rounds| + 1
    ensures forall i :: 0 <= i <= |rounds| ==> disks[i] == Process(Started(initial), Concat(rounds[..i]))
    ensures forall i :: 0 <= i <= |rounds| ==>
      Commands(Concat(rounds[..i])) <= Arrived(arrivals, i)
    ensures Outcomes(storage, rounds)
  {
    var receiver: seq<WalCommand> := [];
    var deferred: Option<WalCommand> := None;
    var disk := Started(initial);
    disks, rounds := [disk], [];
    while deferred.Some? || receiver != [] || |rounds| < |arrivals|
      invariant Running(initial, arrivals, storage, disks, rounds, disk, Slot(deferred) + receiver)
      decreases Max(|arrivals| - |rounds|, 0), |Slot(deferred)| + |receiver|
    {
      ghost var before := Slot(deferred) + receiver;
      var chunk := Received(arrivals, |rounds|);
      AtEnd(Slot(deferred), receiver, chunk);
      var step;
      disk, deferred, receiver, step := TakeRound(disk, deferred, receiver + chunk, storage(|rounds|));
      RoundDone(initial, arrivals, storage, disks, rounds, before, step, Slot(deferred) + receiver);
      rounds, disks := rounds + [step], disks + [disk];
    }
    AllDone(initial, arrivals, storage, disks, rounds, disk);
  }

  /** A round, idle when there is nothing to take. */
  method TakeRound(d: Disk, slot: Option<WalCommand>, queue: seq<WalCommand>, ok: bool)
    returns (disk: Disk, deferred: Option<WalCommand>, receiver: seq<WalCommand>, step: seq<Taken>)
    ensures slot.Some? || queue != [] ==> step != []
    ensures disk == Process(d, step) && forall t :: t in step ==> t.ok == ok
    ensures Commands(step) + (Slot(deferred) + receiver) == Slot(slot) + queue
  {
    if slot.Some? || queue != [] {
      disk, deferred, receiver, step := OneRound(d, slot, queue, ok);
    } else {
      disk, deferred, receiver, step := d, slot, queue, [];
    }
  }

  /** What callers sent during the last wait. */
  function Received(arrivals: seq<seq<WalCommand>>, n: nat): seq<WalCommand> {
    if n < |arrivals| then arrivals[n] else []
  }

  /** The state of the loop: the trace so far, and what has arrived and is not taken yet. */
  ghost predicate Running(initial: seq<WalEntry>, arrivals: seq<seq<WalCommand>>, storage: nat -> bool,
    disks: seq<Disk>, rounds: seq<seq<Taken>>, disk: Disk, pending: seq<WalCommand>)
  {
    && SoFar(initial, storage, rounds, disk, pending, Arrived(arrivals, |rounds|))
    && Traced(initial, arrivals, disks, rounds) && disk == disks[|rounds|]
  }

  /** A round: something may arrive behind what was pending, something may be taken. */
  lemma RoundDone(initial: seq<WalEntry>, arrivals: seq<seq<WalCommand>>, storage: nat -> bool, disks: seq<Disk>,
    rounds: seq<seq<Taken>>, before: seq<WalCommand>, step: seq<Taken>, left: seq<WalCommand>)
    requires |disks| == |rounds| + 1
    requires Running(initial, arrivals, storage, disks, rounds, disks[|rounds|], before)
    requires Commands(step) + left == before + Received(arrivals, |rounds|)
    requires forall t :: t in step ==> t.ok == storage(|rounds|)
    ensures
      var disk := Process(disks[|rounds|], step);
      Running(initial, arrivals, storage, disks + [disk], rounds + [step], disk, left)
  {
    var disk, pending := disks[|rounds|], before + Received(arrivals, |rounds|);
    Arrival(initial, arrivals, storage, rounds, disk, before);
    RoundTaken(initial, storage, rounds, disk, pending, Arrived(arrivals, |rounds| + 1), step, left);
    TraceGrows(initial, storage, arrivals, disks, rounds, Process(disk, step), step, left);
  }

  lemma Arrival(initial: seq<WalEntry>, arrivals: seq<seq<WalCommand>>, storage: nat -> bool, rounds: seq<seq<Taken>>,
    disk: Disk, before: seq<WalCommand>)
    requires SoFar(initial, storage, rounds, disk, before, Arrived(arrivals, |rounds|))
    ensures SoFar(initial, storage, rounds, disk,
      before + Received(arrivals, |rounds|), Arrived(arrivals, |rounds| + 1))
  {
    if |rounds| < |arrivals| {
      NextChunk(arrivals, |rounds|);
      AtEnd(Commands(Concat(rounds)), before, arrivals[|rounds|]);
    } else {
      assert before + [] == before;
    }
  }

  lemma AllDone(initial: seq<WalEntry>, arrivals: seq<seq<WalCommand>>, storage: nat -> bool, disks: seq<Disk>,
    rounds: seq<seq<Taken>>, disk: Disk)
    requires Running(initial, arrivals, storage, disks, rounds, disk, []) && |arrivals| <= |rounds|
    ensures Commands(Concat(rounds)) == Concat(arrivals)
  {
    AllArrived(arrivals, |rounds|);
    assert Commands(Concat(rounds)) + [] == Commands(Concat(rounds));
  }

  /** What has arrived before round `n`. */
  function Arrived(arrivals: seq<seq<WalCommand>>, n: nat): seq<WalCommand> {
    Concat(arrivals[..Min(n, |arrivals|)])
  }

  lemma NextChunk(arrivals: seq<seq<WalCommand>>, n: nat)
    requires n < |arrivals|
    ensures Arrived(arrivals, n + 1) == Arrived(arrivals, n) + arrivals[n]
  {
    ConcatSnoc(arrivals[..n], arrivals[n]);
    assert arrivals[..n + 1] == arrivals[..n] + [arrivals[n]];
  }

  lemma AllArrived(arrivals: seq<seq<WalCommand>>, n: nat)
    requires |arrivals| <= n
    ensures Arrived(arrivals, n) == Concat(arrivals)
  {
    assert arrivals[..|arrivals|] == arrivals;
  }

  /** Of everything sent, the rounds so far have taken effect, each with its outcome, and the rest is pending. */
  ghost predicate SoFar(initial: seq<WalEntry>, storage: nat -> bool, rounds: seq<seq<Taken>>, disk: Disk,
    pending: seq<WalCommand>, sent: seq<WalCommand>)
  {
    && disk == Process(Started(initial), Concat(rounds))
    && Commands(Concat(rounds)) + pending == sent
    && Outcomes(storage, rounds)
  }

  /** The commands of a round share that round's outcome. */
  ghost predicate Outcomes(storage: nat -> bool, rounds: seq<seq<Taken>>) {
    forall i, t :: 0 <= i < |rounds| && t in rounds[i] ==> t.ok == storage(i)
  }

  /** The disks after each number of rounds, which had taken only what had arrived. */
  ghost predicate Traced(initial: seq<WalEntry>, arrivals: seq<seq<WalCommand>>, disks: seq<Disk>,
    rounds: seq<seq<Taken>>)
  {
    && |disks| == |rounds| + 1
    && (forall i :: 0 <= i <= |rounds| ==> disks[i] == Process(Started(initial), Concat(rounds[..i])))
    && (forall i :: 0 <= i <= |rounds| ==> Commands(Concat(rounds[..i])) <= Arrived(arrivals, i))
  }

  lemma TraceGrows(initial: seq<WalEntry>, storage: nat -> bool, arrivals: seq<seq<WalCommand>>, disks: seq<Disk>,
    rounds: seq<seq<Taken>>, disk: Disk, step: seq<Taken>, left: seq<WalCommand>)
    requires Traced(initial, arrivals, disks, rounds)
    requires SoFar(initial, storage, rounds + [step], disk, left, Arrived(arrivals, |rounds| + 1))
    ensures Traced(initial, arrivals, disks + [disk], rounds + [step])
  {
    var more := rounds + [step];
    forall i | 0 <= i <= |more|
      ensures (disks + [disk])[i] == Process(Started(initial), Concat(more[..i]))
      ensures Commands(Concat(more[..i])) <= Arrived(arrivals, i)
    {
      if i == |more| {
        assert more[..i] == more;
      } else {
        assert more[..i] == rounds[..i];
      }
    }
  }

  lemma OutcomesSnoc(storage: nat -> bool, rounds: seq<seq<Taken>>, step: seq<Taken>)
    requires Outcomes(storage, rounds) && forall t :: t in step ==> t.ok == storage(|rounds|)
    ensures Outcomes(storage, rounds + [step])
  {
  }

  lemma Shift<T>(done: seq<T>, step: seq<T>, left: seq<T>, pending: seq<T>)
    requires step + left == pending
    ensures (done + step) + left == done + pending
  {
  }

  lemma AtEnd<T>(done: seq<T>, pending: seq<T>, chunk: seq<T>)
    ensures done + (pending + chunk) == (done + pending) + chunk
  {
  }

  lemma RoundTaken(initial: seq<WalEntry>, storage: nat -> bool, rounds: seq<seq<Taken>>, disk: Disk,
    pending: seq<WalCommand>, sent: seq<WalCommand>, step: seq<Taken>, left: seq<WalCommand>)
    requires SoFar(initial, storage, rounds, disk, pending, sent)
    requires Commands(step) + left == pending && forall t :: t in step ==> t.ok == storage(|rounds|)
    ensures SoFar(initial, storage, rounds + [step], Process(disk, step), left, sent)
  {
    ConcatSnoc(rounds, step);
    Extend(Started(initial), Concat(rounds), step);
    Shift(Commands(Concat(rounds)), Commands(step), left, pending);
    OutcomesSnoc(storage, rounds, step);
  }

  /**
   * Without failures, whatever has been taken so far, the stored log is the
   * entries of the last rewrite taken, or the initial log, and every append
   * taken since, in order; and nothing is flagged as lost.
   */
  lemma LogAtEveryMoment(initial: seq<WalEntry>, ts: seq<Taken>) returns (before: seq<Taken>, after: seq<Taken>)
    requires forall t :: t in ts ==> t.ok
    ensures ts == before + after && forall t :: t in after ==> !t.cmd.Rewrite?
    ensures before == [] || before[|before| - 1].cmd.Rewrite?
    ensures
      var base := if before == [] then initial else before[|before| - 1].cmd.entries;
      !Process(Started(initial), ts).failed && Process(Started(initial), ts).stored == base + Appended(after)
  {
    before, after := SplitAtRewrite(ts);
    assert forall t :: t in after ==> t in ts;
    StickyFlush(initial, before, after);
  }

  lemma {:induction false} ConcatSnoc<T>(chunks: seq<seq<T>>, chunk: seq<T>)
    ensures Concat(chunks + [chunk]) == Concat(chunks) + chunk
  {
    if chunks == [] {
      assert [chunk][1..] == [];
    } else {
      assert (chunks + [chunk])[1..] == chunks[1..] + [chunk];
      ConcatSnoc(chunks[1..], chunk);
    }
  }

  /** One round of the loop: a command is taken, an append along with every append queued behind it. */
  method OneRound(d: Disk, slot: Option<WalCommand>, queue: seq<WalCommand>, ok: bool)
    returns (disk: Disk, deferred: Option<WalCommand>, receiver: seq<WalCommand>, step: seq<Taken>)
    requires slot.Some? || queue != []
    ensures step != [] && disk == Process(d, step)
    ensures forall t :: t in step ==> t.ok == ok
    ensures Commands(step) + (Slot(deferred) + receiver) == Slot(slot) + queue
  {
    var cmd;
    cmd, receiver := NextCommand(slot, queue);
    deferred := None;
    match cmd {
      case Append(entry) =>
        var batch;
        batch, receiver, deferred := DrainAppends(entry, receiver);
        disk, step := AppendBatch(d, batch, ok);
      case _ =>
        disk, step := TakeOther(d, cmd, ok);
    }
  }

  /** The deferred command if there is one, else the next in the channel. */
  method NextCommand(deferred: Option<WalCommand>, queue: seq<WalCommand>)
    returns (cmd: WalCommand, receiver: seq<WalCommand>)
    requires deferred.Some? || queue != []
    ensures [cmd] + receiver == Slot(deferred) + queue
  {
    if deferred.Some? {
      cmd, receiver := deferred.value, queue;
    } else {
      cmd, receiver := queue[0], queue[1..];
    }
  }

  /** One transaction for the whole batch. */
  method AppendBatch(d: Disk, batch: seq<WalEntry>, ok: bool) returns (disk: Disk, step: seq<Taken>)
    requires batch != []
    ensures disk == Process(d, step)
    ensures Commands(step) == Commands(Batch(batch, true)) && forall t :: t in step ==> t.ok == ok
  {
    BatchIsAppends(d, batch, ok);
    step := Batch(batch, ok);
    disk := if ok then d.(stored := d.stored + batch) else d.(failed := true);
  }

  /** A flush, a count, or a rewrite. */
  method TakeOther(d: Disk, cmd: WalCommand, ok: bool) returns (disk: Disk, step: seq<Taken>)
    requires !cmd.Append?
    ensures disk == Process(d, step)
    ensures step == [Taken(cmd, ok)]
  {
    step := [Taken(cmd, ok)];
    ProcessSnoc(d, [], Taken(cmd, ok));
    assert [] + [Taken(cmd, ok)] == step;
    disk := d;
    match cmd {
      case Flush(id) =>
        disk := disk.(acks := disk.acks + [Flushed(id, !disk.failed)]);
      case Count(id) =>
        disk := disk.(acks := disk.acks + [Counted(id, if ok then Some(|disk.stored|) else None)]);
      case Rewrite(entries, id) =>
        if ok {
          disk := disk.(stored := entries, failed := false);
        }
        disk := disk.(acks := disk.acks + [Rewritten(id, ok)]);
    }
  }

  /** Batches every append already in the queue; the first other command is set aside. */
  method DrainAppends(entry: WalEntry, queue: seq<WalCommand>)
    returns (batch: seq<WalEntry>, receiver: seq<WalCommand>, deferred: Option<WalCommand>)
    ensures batch != []
    ensures Commands(Batch(batch, true)) + (Slot(deferred) + receiver) == [Append(entry)] + queue
    ensures receiver == [] || deferred.Some?
  {
    batch, receiver, deferred := [entry], queue, None;
    while receiver != []
      invariant batch != [] && deferred.None?
      invariant Commands(Batch(batch, true)) + receiver == [Append(entry)] + queue
    {
      var next := receiver[0];
      receiver := receiver[1..];
      match next {
        case Append(more) => batch := batch + [more];
        case _ =>
          deferred := Some(next);
          return;
      }
    }
  }
}
