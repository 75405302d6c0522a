/**
 * The client side of the log: the entry counter, the growth gate, and
 * compaction in two halves, before and after it waits for the rewrite.
 */
module Compaction {
  import opened Base
  import opened Log
  import opened Keyspace
  import opened Snapshots
  import opened Writer

  const DEFAULT_COMPACTION_THRESHOLD: nat := 1024

  /** A compaction waiting for its rewrite: the counter it took away and the size it put there. */
  datatype InFlight = InFlight(prevLen: nat, snapshotLen: nat, automatic: bool)

  /** The keyspace and the counters beside it. A compaction in flight is what the `compacting` flag guards. */
  datatype Db = Db(live: State, walLen: nat, threshold: nat, lastCompactLen: nat, inFlight: Option<InFlight>)

  /** The log has reached the threshold and doubled since the last compaction. */
  predicate Due(d: Db) {
    d.threshold != 0 && d.walLen >= d.threshold && d.walLen >= 2 * d.lastCompactLen
  }

  /** Snapshot taken, counter swapped, rewrite queued. */
  function Begin(d: Db, snapshotLen: nat, automatic: bool): Db {
    d.(walLen := snapshotLen, inFlight := Some(InFlight(d.walLen, snapshotLen, automatic)))
  }

  /** The rewrite's reply: the new base of the growth gate, or the old entries back into the counter. */
  function Finish(d: Db, ok: bool): Db
    requires d.inFlight.Some?
  {
    var f := d.inFlight.value;
    if ok then d.(lastCompactLen := f.snapshotLen, inFlight := None)
    else d.(walLen := d.walLen + Max(f.prevLen - f.snapshotLen, 0), inFlight := None)
  }

  /** What a compaction sends: a rewrite by a snapshot, unless another compaction is in flight. */
  ghost predicate CompactSends(d: Db, now: nat, sent: seq<WalCommand>) {
    if d.inFlight.Some? then sent == []
    else |sent| == 1 && sent[0].Rewrite? && IsSnapshot(d.live, now, sent[0].entries)
  }

  function AfterCompact(d: Db, sent: seq<WalCommand>, automatic: bool): Db {
    if |sent| == 1 && sent[0].Rewrite? then Begin(d, |sent[0].entries|, automatic) else d
  }

  /** `write_wal`: the append, counted, and a compaction when one is due. */
  ghost predicate WriteSends(d: Db, now: nat, entry: WalEntry, sent: seq<WalCommand>) {
    var counted := d.(walLen := d.walLen + 1);
    && |sent| > 0 && sent[0] == WalCommand.Append(entry)
    && if Due(counted) then CompactSends(counted, now, sent[1..]) else sent == [WalCommand.Append(entry)]
  }

  function AfterWrite(d: Db, sent: seq<WalCommand>): Db
    requires |sent| > 0
  {
    AfterCompact(d.(walLen := d.walLen + 1), sent[1..], true)
  }

  /** What a command sends to the writer. */
  ghost predicate CommandSends(d: Db, now: nat, cmd: Command, sent: seq<WalCommand>) {
    var e := Exec(d.live, now, cmd);
    match e.entry
    case None => sent == []
    case Some(entry) => WriteSends(d.(live := e.state), now, entry, sent)
  }

  /** The database after a command. */
  function AfterCommand(d: Db, now: nat, cmd: Command, sent: seq<WalCommand>): Db {
    var done := d.(live := Exec(d.live, now, cmd).state);
    if sent == [] then done else AfterWrite(done, sent)
  }

  // ---------------------------------------------------- what this comes to

  /**
   * A command that logs an entry sends a rewrite behind it exactly if none is
   * in flight, automatic compaction is on, and the log, that entry counted,
   * has reached the threshold and twice what the last compaction left.
   */
  lemma CompactsExactly(d: Db, now: nat, cmd: Command, sent: seq<WalCommand>)
    requires CommandSends(d, now, cmd, sent)
    ensures
      var logged := Exec(d.live, now, cmd).entry;
      if logged.None? then sent == []
      else
        && 1 <= |sent| <= 2 && sent[0] == WalCommand.Append(logged.value) && (|sent| == 2 ==> sent[1].Rewrite?)
        && (|sent| == 2
            <==> d.inFlight.None? && 0 < d.threshold <= d.walLen + 1 && 2 * d.lastCompactLen <= d.walLen + 1)
  {
  }

  /** Sent so, the counter is what it was, one more, or the size of the snapshot. */
  lemma CountsSent(d: Db, now: nat, cmd: Command, sent: seq<WalCommand>)
    requires CommandSends(d, now, cmd, sent)
    ensures
      var after := AfterCommand(d, now, cmd, sent);
      && after.live == Exec(d.live, now, cmd).state
      && after.threshold == d.threshold && after.lastCompactLen == d.lastCompactLen
      && after.walLen == (if sent == [] then d.walLen else if |sent| == 1 then d.walLen + 1 else |sent[1].entries|)
      && (|sent| == 2 ==> after.inFlight == Some(InFlight(d.walLen + 1, |sent[1].entries|, true)))
      && (|sent| < 2 ==> after.inFlight == d.inFlight)
  {
    if |sent| == 1 {
      assert sent[1..] == [];
    }
  }
}
