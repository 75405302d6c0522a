# Kvasm in Dafny

Kvasm is an in-memory keyspace with Redis commands. It holds two tables, values
and expiry times, and persists through a write-ahead log: a mutating command
changes the tables and appends an entry; startup replays the entries; a
compaction replaces the log by a snapshot; in the browser a background writer
stores the log in batches, and a flush promises that what was written is stored.

This project models those parts and proves how they fit together. `dafny verify
dfyconfig.toml` checks everything.

## What is proved

**Replay against execution** (`Keyspace`, `Log`, `Refinement`). The commands
and the replayer are two interpreters of the same tables. They agree after
*every* run only up to three hazards, and the hazards are exact: a step keeps
agreement if and only if it is none of them (`StepExact`, `CompactionExact`,
`NextExact`, `SafeRunsExact`), each makes the visible states differ, at
once or one command later (`UnsafeDiverges`), and each has a concrete run.

1. *Revival*: LPUSH, RPUSH, SADD, ZADD or HSET on a key whose lapsed
   incarnation is still in the log, because lazy deletion and sweeps log
   nothing. Replay adds to the old value, under its past deadline.
2. *Residue*: APPEND or SETRANGE over the size cap on a missing key. The
   command fails, but the empty string it started from stays, unlogged.
3. *Dropped deadline*: a compaction while an unexpired empty collection has a
   deadline. The snapshot drops both, the live database keeps both.

Without them, replay never fails and shows what the live database shows, at
every later time, with the same absolute deadlines (`ReplayRefinesExecution`).

**Durability** (`Writer`, `Compaction`, `System`, `Honesty`, `Hindsight`). The writer's loop
is proved to do, round by round, what taking its commands one at a time in the
order sent would do, for every timing of arrivals and every failure of storage
(`RunWriter`). With it, the database, the queue and the stored log form one
state machine, in which over safe runs a flush acknowledged Ok means that the
log as stored at that moment replays to what was visible when the flush was
asked for (`FlushIsDurable`). The converse holds too: after a step, flushes can
be trusted through every safe continuation if and only if the step was no
hazard (`TrustedExactly`), since from every unsafe step there are events that
lead to a flush acknowledged Ok over a log that says something else
(`UnsafeStepLies`). Judged by what really happened, less is needed: only hazards
over the log that came about, and before the request, count
(`FlushIsDurableInHindsight`). Without a flush, a crash loses what was done from
the first waiting append on, and no more (`CrashLosesSuffix`), as long as no
batch has failed; one that has may cost everything (`LossExample`).

**Compaction** (`Snapshots`, `Counting`). Snapshot entries rebuild exactly what
is visible, for every iteration order of the tables (`SnapshotEntries`); they
are the shortest log that does, and never longer than the log they replace
(`SnapshotIsMinimal`, `CompactionNeverGrows`), and taken twice they are the same
entries up to order (`SnapshotTwice`). Once everything has settled, no
append lost, the entry counter is off by exactly the excess of the rewrites, by
snapshots longer than the counter, that failed since the last successful one
(`CounterExact`). There is none when snapshots fit, as in every
safe run (`FittingCounterExact`); `MiscountExample` reaches one otherwise.
Automatic compactions write at most w + 2n entries for n appends on a log of w
(`AutoCompactionCost`).

**Expiry** (`Expiry`, `Sweeper`). When lapsed keys are deleted makes no
difference to any later logical state (`CleanupNeverMatters`), which needs that
every deadline has a value, exactly (`OrphansMatterExactly`). Replies may
tell, and `DelReplyExact` says when those of DEL do. A SET wins over a concurrent sweep in every
interleaving of their steps (`SetWins`), and an EXPIRE under an exact condition
(`ExpireWinsExact`, `DeadlineLostExact`).

**Commands** (`Keyspace`, `Effects`, `Meanings`). For every state, time and
argument: which value a command leaves under which key, until when it is seen,
what is answered and logged, and what replay makes of the entry, said of the
tables, the clock and the elements, positions and bytes of values, apart from
the definitions the other theorems use. Where a command deletes a lapsed key
first, the key must not have a deadline without a value, as no key has in any
run (`NoOrphanTtls`).

**Values, files and patterns** (`Ranges`, `Lists`, `SortedSets`,
`Collections`, `Strings`, `InPlace`, `Framing`, `Glob`). The signed index arithmetic, LREM
in place, the two structures of a sorted set, the framed log file, its
truncations and what may be appended to them, and the translation of KEYS
patterns.

The object `Database.RedisWasmDb` updates the two tables in place as the code
does; every method of it is proved to do what `Keyspace.Exec`, `Log.Apply` or
the functions of `Compaction` say, so the theorems speak about it. Collections
and strings are changed in place by objects of their own classes (`InPlace`
ties them to the value-level functions), as are the native log file and its
reader.

## Where the code and its documentation differ

The model follows the code.

- README.md:22-24 says that state survives reloads, and the comment at
  crates/redis-wasm-core/src/db.rs:343-347 that a lapsed key needs no entry of
  its own. `Refinement.RevivalExample` is a run in which the key is lost.
- crates/redis-wasm-core/src/db.rs:221-226 says that dropping empty collections
  with their deadlines is harmless. `Refinement.DroppedDeadlineExample` is a
  run after which the live list has a deadline and the replayed one has none.
- The comment at crates/redis-wasm-core/src/expiry/mod.rs:90-97 says that a
  concurrent EXPIRE wins over a stale sweep. A deadline in the future does so
  if and only if the sweep is not already holding the key with its decision to
  remove it (`Sweeper.ExpireWinsExact`, `Sweeper.ValueLost`). A deadline already
  reached can be dropped from a key that stays, if and only if the sweep has
  passed that key by and began no earlier (`Sweeper.DeadlineLostExact`,
  `Sweeper.DeadlineLost`).
- The comment at crates/redis-wasm-bindings/src/persistence/indexed_db.rs:101-104
  says that a crash loses at most a suffix of recent appends. That is so until a
  batch fails (`Hindsight.CrashLosesSuffix`); later appends are stored behind
  the gap, and the log may not replay (`Hindsight.LossExample`).
- crates/redis-wasm-core/src/wal/replayer.rs:222-223 takes a short length prefix
  for a clean end of file, but the writer appends behind it, and what it appends
  is not read back (`Framing.CanAppendExact`).
- The comment at crates/redis-wasm-core/src/db.rs:208-213 says that a failed
  rewrite puts the old entries back into the counter.
  `Counting.MiscountExample` is a run in which it is left too high.

## Model

| member | source | states |
|---|---|---|
| Refinement.ReplayRefinesExecution | crates/redis-wasm-core/src/wal/replayer.rs:19-161 | Over every safe run of commands, lapses, sweeps and compactions, from the empty database or a resumed log, replaying the accumulated log never fails and shows what the live database shows, at that and every later time, with the same absolute deadlines |
| Refinement.SafeRunsExact | crates/redis-wasm-core/src/db.rs:300-1413 | A run has no hazard if and only if the session stays faithful (its log replays to a state that agrees with the live one) after every step of it |
| Refinement.NextExact | crates/redis-wasm-core/src/db.rs:123-135 | One command with its log write, or one compaction, keeps a session faithful if and only if it is none of the three hazards |
| Refinement.StepExact | crates/redis-wasm-core/src/wal/replayer.rs:29-161 | A command and the replay of the entry it appends keep agreement if and only if the command neither revives a lapsed key nor leaves an unlogged empty string; in particular the entry replays without error |
| Refinement.CellStep | crates/redis-wasm-core/src/db.rs:431-811 | The same for one key: every single-key command, against the replayer's own interpretation of its entry |
| Refinement.MutationStep | crates/redis-wasm-core/src/db.rs:591-1270 | Collection operations on one key keep agreement if and only if they do not add to a key whose lapsed incarnation the log still holds |
| Refinement.ManyKeysStep | crates/redis-wasm-core/src/db.rs:348-368 | DEL, lazy deletion and sweeps always keep agreement: what goes unlogged was dead on both sides |
| Refinement.CompactionExact | crates/redis-wasm-core/src/db.rs:237-252 | Replacing the log by a snapshot keeps agreement if and only if no unexpired empty collection has a deadline |
| Refinement.AgreementShows | crates/redis-wasm-core/src/expiry/mod.rs:51-59 | Agreement at one time means the same visible keys, values and deadlines at every later time |
| Refinement.UnsafeDiverges | crates/redis-wasm-core/src/db.rs:344-358 | Each hazard does harm: after an unsafe command replay fails or shows something else at once, after an unsafe compaction it does so one command later |
| Refinement.RevivalShows | crates/redis-wasm-core/src/db.rs:622-647 | Adding to a key whose past deadline the log still holds gives a key that is visible live and invisible after replay, or a log that does not replay |
| Refinement.ResidueShows | crates/redis-wasm-core/src/db.rs:437-449 | An APPEND or SETRANGE over the cap on a missing key leaves a visible empty string that the log does not know |
| Refinement.LostDeadlineShows | crates/redis-wasm-core/src/db.rs:246-250 | After compacting away an empty collection with a deadline, the next element added has a deadline live and none after replay |
| Refinement.RevivalExample | crates/redis-wasm-core/src/db.rs:343-358 | RPUSH, PEXPIRE, a read after the deadline, RPUSH: the live database has a list, replay of its log shows nothing |
| Refinement.ResidueExample | crates/redis-wasm-core/src/db.rs:437-449 | A single APPEND over the size cap on a missing key answers an error, and the key exists afterwards in the live database only |
| Refinement.DroppedDeadlineExample | crates/redis-wasm-core/src/db.rs:246-250 | RPUSH, PEXPIRE, LPOP, compaction, RPUSH: the live list has a deadline, the replayed one has none |
| Refinement.SnapshotResumable | crates/redis-wasm-bindings/src/lib.rs:95-122 | A compacted log replays without orphan deadlines, so every theorem about sessions applies to one opened over it |
| Hindsight.FlushIsDurableInHindsight | crates/redis-wasm-bindings/src/persistence/indexed_db.rs:223-293 | In any run from the empty database or a resumed log, for every flush acknowledged Ok there is the event that asked for it; and if, over the log that really came about, no step before it did harm (no command was a hazard, no rewrite that committed dropped a deadline), replaying the log stored at the acknowledgement shows what was live when the flush was asked for, then and later, whatever followed, failed or might have happened |
| Hindsight.SafeRunsHarmless | crates/redis-wasm-core/src/db.rs:123-135 | Safe runs do no harm, whatever becomes of what is still queued, so the theorem covers them |
| Hindsight.RunsSettle | crates/redis-wasm-core/src/db.rs:123-219 | Along a run that does no harm, what is live agrees with the log that all sent so far leads to |
| Hindsight.AckPosition | crates/redis-wasm-bindings/src/persistence/indexed_db.rs:267-277 | Every acknowledgement tells of the log at the position in the queue where its flush was taken |
| Hindsight.CrashLosesSuffix | crates/redis-wasm-bindings/src/persistence/indexed_db.rs:101-104 | At every moment of a safe run with no append lost, replaying the log as stored then shows what was live after some number of events, at that and every later time: the last moment of which no append is still waiting, so a crash loses exactly what was done from the first waiting append on |
| Hindsight.LossExample | crates/redis-wasm-bindings/src/persistence/indexed_db.rs:258-266 | A run in which one failed batch leaves a log that does not replay any more, so that the database cannot be opened |
| System.FlushIsDurable | crates/redis-wasm-bindings/src/persistence/indexed_db.rs:223-293 | In any safe run interleaving commands, compactions, writer steps, failed batches and failed rewrites, once a flush is acknowledged Ok, replaying the log stored at that moment shows what the live database showed at the one event that asked for the flush, at that and every later time (safe: no step of the whole run is a hazard over any log its queue may lead to; the theorem in hindsight asks for less) |
| System.FlushWasAsked | crates/redis-wasm-bindings/src/persistence/indexed_db.rs:304-312 | Every promise was made by exactly one earlier request to flush |
| System.PromiseRecorded | crates/redis-wasm-bindings/src/persistence/indexed_db.rs:304-312 | What a flush promises is the live state at the event that asked for it; nothing later changes it |
| System.DurableStepExact | crates/redis-wasm-bindings/src/persistence/indexed_db.rs:235-291 | A step keeps the invariant behind the promises if and only if it is safe; an unsafe one leaves, for some outcome of what is queued, a lossless log that no longer agrees with the live state |
| Honesty.TrustedExactly | crates/redis-wasm-bindings/src/persistence/indexed_db.rs:267-277 | After a step of a durable system, no flush acknowledged Ok lies in any safe continuation (replaying the log stored at its acknowledgement shows what was live when it was asked for) if and only if the step was safe |
| Honesty.UnsafeStepLies | crates/redis-wasm-bindings/src/persistence/indexed_db.rs:267-277 | After every unsafe step, safe events exist, a fresh flush request among them, after which that flush is acknowledged Ok over a stored log that fails to replay or shows something else |
| Honesty.LieShows | crates/redis-wasm-bindings/src/persistence/indexed_db.rs:304-312 | A lie is about the one event that asked for the flush: the database showed something else then |
| Honesty.FlushDrains | crates/redis-wasm-bindings/src/persistence/indexed_db.rs:235-277 | Every outcome of the queue can come about, and a flush asked for now is acknowledged Ok over the log it leads to if it loses no append |
| System.DurableStep | crates/redis-wasm-bindings/src/persistence/indexed_db.rs:235-291 | Every safe step (command, compaction request, flush request, writer step, handled reply) keeps: for all outcomes of the queued commands, a log without a lost append replays to a state in agreement with the live one |
| System.RunsDurable | crates/redis-wasm-bindings/src/lib.rs:95-122 | So does every safe run from a freshly opened database |
| System.CoherentCommand | crates/redis-wasm-core/src/db.rs:123-135 | A safe command and its queued append keep that, whatever becomes of the append |
| System.CoherentRewrite | crates/redis-wasm-bindings/src/persistence/indexed_db.rs:278-286 | So does a queued rewrite by a snapshot, whether it commits or leaves the old log |
| System.UnsafeCommandBreaks | crates/redis-wasm-core/src/db.rs:123-135 | A command that is a hazard over some log the queue may still lead to breaks it |
| System.DiskFollowsQueue | crates/redis-wasm-bindings/src/persistence/indexed_db.rs:235-291 | In every run the stored log and the replies are those of the commands taken one at a time in the order sent, the rest still being queued: nothing is lost, duplicated or reordered |
| Writer.RunWriter | crates/redis-wasm-bindings/src/persistence/indexed_db.rs:227-291 | The writer's loop, with its batches and its one deferred command, for every timing of arrivals and every outcome of storage: commands are taken once, in the order sent and only after they have arrived; after every round the stored log and the replies are those of taking them one at a time, those of one round under its one outcome; in the end all have been taken |
| Writer.LogAtEveryMoment | crates/redis-wasm-bindings/src/persistence/indexed_db.rs:228-287 | Without failures the stored log is at every moment the last rewrite taken (or the initial log) followed by every append taken since |
| Writer.OneRound | crates/redis-wasm-bindings/src/persistence/indexed_db.rs:236-289 | One turn of the loop takes at least one command, and what it took, what it set aside and what is left are the queue it found, in order |
| Writer.DrainAppends | crates/redis-wasm-bindings/src/persistence/indexed_db.rs:244-257 | A batch is the appends at the front of the queue; the first other command is set aside and nothing behind it is touched |
| Writer.AppendBatch | crates/redis-wasm-bindings/src/persistence/indexed_db.rs:258-266 | A batch commits or is lost as a whole, as its appends with one common outcome |
| Writer.BatchIsAppends | crates/redis-wasm-bindings/src/persistence/indexed_db.rs:104-127 | An atomic batch has the effect of its appends one by one |
| Writer.StickyFlush | crates/redis-wasm-bindings/src/persistence/indexed_db.rs:228-287 | After any history split at the last successful rewrite: a flush is acknowledged Ok exactly when no append has failed since, and then the stored log is that rewrite's entries (or the initial log) followed by every later append |
| Writer.SplitAtRewrite | crates/redis-wasm-bindings/src/persistence/indexed_db.rs:278-286 | Every history can be split so |
| Writer.RepliesMean | crates/redis-wasm-bindings/src/persistence/indexed_db.rs:267-287 | A count is of the last rewrite and the appends that survived since, or an error; a rewrite is acknowledged Ok exactly if the log is then what it brought, and changes nothing otherwise |
| Writer.WithoutRewrites | crates/redis-wasm-bindings/src/persistence/indexed_db.rs:228-266 | Without a successful rewrite the flag only ever rises, exactly at failed appends, and the stored log grows by the appends that committed |
| Snapshots.CompactionNeverGrows | crates/redis-wasm-core/src/db.rs:227-292 | For every log that replays without error, the snapshot of the state it leads to, at any time, is no longer than the log |
| Snapshots.SnapshotIsMinimal | crates/redis-wasm-core/src/db.rs:184-185 | No log that replays to the same visible state is shorter than its snapshot |
| Snapshots.SnapshotTwice | crates/redis-wasm-core/src/db.rs:220-226 | Snapshotting the rebuilt database replays to the same state and gives the same entries up to order: the same units, each in exactly one entry of either, and entries with the same unit list the same members, each once, at most in another order |
| Snapshots.SnapshotUnits | crates/redis-wasm-core/src/db.rs:227-292 | No two entries of a snapshot carry the same unit, and none carries anything else |
| Snapshots.SameUnit | crates/redis-wasm-core/src/db.rs:261-278 | Entries with the same unit that list no member twice are equal up to the order of their members |
| Snapshots.LogOutweighsState | crates/redis-wasm-core/src/wal/replayer.rs:29-161 | A state weighs (one per string or non-empty collection, one per hash field, one per deadline not carried by a string) no more than any log that replays to it |
| Snapshots.EntryWeight | crates/redis-wasm-core/src/wal/replayer.rs:29-161 | No replayed entry adds more than one unit of that weight |
| Snapshots.MutationWeight | crates/redis-wasm-core/src/types/mod.rs:327-726 | No collection operation adds more than one unit, and none turns a string into anything else or back |
| Snapshots.TotalSplit | crates/redis-wasm-core/src/db.rs:237 | The total does not depend on the order in which the table is visited |
| Snapshots.ValueEntries | crates/redis-wasm-core/src/db.rs:254-288 | The entries for a value, replayed where the key is missing, give that value under that deadline and touch nothing else; they are as many as the value weighs and list its parts exactly |
| Snapshots.FieldEntries | crates/redis-wasm-core/src/db.rs:279-286 | One entry per field of a hash, in any order, rebuilds the hash |
| Snapshots.PushExpire | crates/redis-wasm-core/src/db.rs:231-238 | The deadline's entry behind the creating ones restores the deadline |
| Snapshots.OneKeyMore | crates/redis-wasm-core/src/db.rs:238-289 | The entries for one more key extend a partial snapshot to one that covers that key too |
| Counting.CounterExact | crates/redis-wasm-core/src/db.rs:123-219 | Over every run without failed appends, hazards or not, once the queue has drained and all replies are handled, the counter exceeds the number of stored entries by the total excess of the rewrites that failed since the last successful one, where excess is how much longer a snapshot was than the counter it replaced; so it is exact if and only if none was longer |
| Counting.FittingCounterExact | crates/redis-wasm-core/src/db.rs:123-219 | So it is exact whenever every snapshot is no longer than the log it replaces, and in every safe run, even when appends raced a rewrite in flight and the rewrite failed |
| Counting.AutoCompactionCost | crates/redis-wasm-core/src/db.rs:171-182 | Over every run with n appends, none failed, on an inherited log of w entries, whose snapshots fit, as they do in every safe run, the entries written by successful automatic compactions are at most w + 2n, for any thresholds and any manual compactions |
| Counting.RestoreExact | crates/redis-wasm-core/src/db.rs:208-213 | Putting the old entries back into the counter after a failed rewrite is exact if and only if the snapshot was no longer than the log it was to replace: the subtraction saturates |
| Compaction.CompactsExactly | crates/redis-wasm-core/src/db.rs:123-182 | A command that logs an entry sends a rewrite behind it exactly if none is in flight, the threshold is not 0, and the log, that entry counted, has reached the threshold and twice what the last compaction left |
| Compaction.CountsSent | crates/redis-wasm-core/src/db.rs:123-206 | And the counter is then one more, or the size of the snapshot with the count it replaces remembered |
| Counting.MiscountExample | crates/redis-wasm-core/src/db.rs:207-214 | A run from the empty database that reaches a snapshot longer than its log: an oversized APPEND on a missing key, a compaction that fails, and a settled counter of 1 over an empty log |
| Counting.StepKeepsCount | crates/redis-wasm-core/src/db.rs:194-219 | Every step without a lost append keeps the counter in step with the stored log, the queue and a rewrite in flight, up to the excess of failed rewrites, which a successful one clears |
| Counting.SnapshotFits | crates/redis-wasm-core/src/db.rs:204-206 | Without lost appends the snapshot taken is never longer than the log it is to replace, whatever is still queued |
| Counting.SafeRunsFit | crates/redis-wasm-core/src/db.rs:204-206 | In every safe run without lost appends every snapshot is no longer than the log it replaces |
| Counting.StepWithinBudget | crates/redis-wasm-core/src/db.rs:171-182 | Every step keeps the credit of the growth gate: a log that has doubled has paid for a snapshot of its size |
| Counting.RunsAccounted | crates/redis-wasm-core/src/db.rs:171-219 | All of these hold along every safe run without lost appends |
| Expiry.CleanupNeverMatters | crates/redis-wasm-core/src/expiry/mod.rs:98-116 | Whatever reads and sweeps are interleaved with a run from the empty database, the logical state (unexpired values with their deadlines) is that of the run without them |
| Expiry.CleanupOrderIrrelevant | crates/redis-wasm-core/src/db.rs:348-358 | Two interleavings of lazy deletions and sweeps with the same commands end in the same logical state |
| Expiry.StepSeesLogical | crates/redis-wasm-core/src/db.rs:300-1413 | A command's effect on the logical state, and the entry a single-key command logs, depend on the logical state only |
| Expiry.CleanupIsInvisible | crates/redis-wasm-core/src/expiry/mod.rs:98-116 | A read or a sweep changes nothing logically |
| Expiry.ErrorsChangeNothing | crates/redis-wasm-core/src/db.rs:431-811 | A command that answers an error logs nothing and changes nothing logically, except exactly an APPEND or SETRANGE over the size cap on a key that is not there |
| Expiry.DelReplyExact | crates/redis-wasm-core/src/db.rs:348-368 | On logically equal states without orphan deadlines the replies of DEL agree if and only if equally many of the listed keys have lapsed and not been cleaned up; the entries agree if and only if a listed key is unexpired, or such lapsed keys are listed in both states or in neither |
| Expiry.OrphansMatterExactly | crates/redis-wasm-core/src/db.rs:348-358 | In any state, every command does logically what it does on the logical state alone if and only if every deadline has a value |
| Expiry.OrphanShows | crates/redis-wasm-core/src/db.rs:622-647 | For every state, time and key with a deadline but no value, a push on that key leaves another logical state than from the logical state alone |
| Keyspace.NoOrphanTtls | crates/redis-wasm-core/src/db.rs:348-358 | Over every run from the empty database, every key in the expiry table is in the data table |
| Keyspace.StepKeepsOwned | crates/redis-wasm-core/src/db.rs:300-1413 | Every command keeps every deadline with a value |
| Keyspace.ExecPointwise | crates/redis-wasm-core/src/db.rs:300-1413 | A command does to each key what the single-key description says, and nothing to keys it does not name |
| Keyspace.Delete | crates/redis-wasm-core/src/db.rs:348-358 | DEL clears a key's deadline only along with a value |
| Effects.SetMeans | crates/redis-wasm-core/src/db.rs:300-313 | After SET, whatever was there, the key has that value and no deadline and is seen at every time; other keys are as they were; and replaying its entry onto any state gives the same under the key |
| Effects.ExpireMeans | crates/redis-wasm-core/src/db.rs:1335-1351 | After EXPIRE s at now, a key alive is seen at t exactly if t is less than now + 1000 s, or than the largest timestamp if that is out of range, and the entry carries that time; a key not alive is refused, and nothing changes |
| Effects.PExpireMeans | crates/redis-wasm-core/src/db.rs:1354-1368 | PEXPIRE m likewise, with now + m |
| Effects.PersistMeans | crates/redis-wasm-core/src/db.rs:1399-1413 | PERSIST: a key alive with a deadline is seen from then on at every time; anything else is refused |
| Effects.AppendMeans | crates/redis-wasm-core/src/db.rs:431-454 | APPEND: the suffix stands behind the old bytes, up to 512 MiB, under the deadline of a key alive and none otherwise, logged whole so that its replay gives the same; over the cap an error, which leaves an empty string where no key was alive |
| Effects.SetRangeMeans | crates/redis-wasm-core/src/db.rs:470-498 | SETRANGE: the patch stands at the offset, every old byte outside it is as it was, every byte of a gap is 0; an empty patch changes nothing; over the cap as for APPEND |
| Effects.IncrByMeans | crates/redis-wasm-core/src/db.rs:502-534 | INCRBY: the number the string is a decimal for, or 0 for an empty string or a key not alive, plus the increment is answered, and stored as a decimal for it; out of the 64-bit range an error that changes nothing |
| Effects.IncrByRefuses | crates/redis-wasm-core/src/db.rs:514-521 | What is no decimal for a 64-bit number is an error that changes nothing |
| Effects.StringsOnly | crates/redis-wasm-core/src/db.rs:508-512 | So are string commands on a collection |
| Effects.DelMeans | crates/redis-wasm-core/src/db.rs:348-368 | DEL: exactly the listed keys lose their values, and with them their deadlines; the answer is how many different ones there were, and the entry is made if there was one |
| Effects.DelReplays | crates/redis-wasm-core/src/wal/replayer.rs:42-47 | Its entry, replayed, leaves nothing of the listed keys and the others as they are |
| Effects.ReadMeans | crates/redis-wasm-core/src/db.rs:371-381 | A read deletes exactly the lapsed among the keys it touches and logs nothing |
| Effects.SweepMeans | crates/redis-wasm-core/src/expiry/mod.rs:98-116 | A sweep leaves exactly the values that are alive and the deadlines not reached |
| Effects.OperateOnAlive | crates/redis-wasm-core/src/db.rs:591-811 | A collection command on a key alive stores the operation on its value under its deadline, answers what that answers, and is logged exactly if it is one that always is or has changed something; an error changes nothing |
| Effects.MakeOnDead | crates/redis-wasm-core/src/db.rs:607-617 | On a key not alive, LPUSH, RPUSH, SADD, ZADD and HSET work on an empty collection of their kind, without a deadline |
| Effects.AddNothingMeans | crates/redis-wasm-core/src/db.rs:598-605 | Given nothing to add they report the length of a list or 0, refuse another kind of value, and change and log nothing |
| Effects.ChangeOnDead | crates/redis-wasm-core/src/db.rs:651-805 | The other operations: an error on a missing key; on a lapsed one, which goes, nothing popped, LTRIM done, LSET an error, otherwise 0 |
| Effects.MutationReplays | crates/redis-wasm-core/src/wal/replayer.rs:51-154 | Their entries, replayed: the operation on the value there, or on an empty collection under the deadline the table has, or nothing |
| Effects.DeadlinesReplay | crates/redis-wasm-core/src/wal/replayer.rs:48-50 | Replayed deadlines are set or removed, and values left |
| Effects.VisibleExactly | crates/redis-wasm-core/src/db.rs:238-252 | A key is visible exactly while it has a string or a collection with something in it and no reached deadline, with just that value and deadline |
| Sweeper.SetWins | crates/redis-wasm-core/src/db.rs:300-305 | In every interleaving of a sweep's steps with the two steps of a SET and anything else clients do, the inserted value stays, without a deadline, until an EXPIRE or another SET of the key, even if the sweep had collected or was holding the key when the SET began |
| Sweeper.ClearedKeepsValue | crates/redis-wasm-core/src/db.rs:118-120 | From the moment a SET has cleared the deadline, the sweep removes the key's value only if it was already holding it with its decision made |
| Sweeper.ClearedRun | crates/redis-wasm-core/src/expiry/mod.rs:98-116 | Along such runs the key gets no deadline, and a value not yet doomed stays the same |
| Sweeper.ExpireWinsExact | crates/redis-wasm-core/src/db.rs:1336-1343 | For every state and every deadline in the future: a key given it keeps its value and the deadline until then, whatever else happens to other keys, if and only if the sweep is not already holding the key with its decision to remove it |
| Sweeper.DoomedLosesValue | crates/redis-wasm-core/src/expiry/mod.rs:112-115 | A key so held loses its value whatever its new deadline, which stays behind without a value exactly if it is later than the start of the sweep |
| Sweeper.DeadlineLostExact | crates/redis-wasm-core/src/expiry/mod.rs:112-115 | A deadline can be dropped while its value stays if and only if the sweep has looked at the key before, spares it, and began no earlier than that deadline |
| Sweeper.ValueLost | crates/redis-wasm-core/src/expiry/mod.rs:112-115 | A run in which a deadline is moved ahead between the look and the removal: the value goes, the new deadline stays |
| Sweeper.DeadlineLost | crates/redis-wasm-core/src/expiry/mod.rs:112-115 | A run in which a deadline already reached is given behind the sweep: it is dropped, the value stays |
| Database.RedisWasmDb.Execute | crates/redis-wasm-core/src/db.rs:123-135 | A command with its log write: the reply, the new tables, the counters and what is sent to the writer are those of the system model, including a compaction exactly when one is due |
| Database.RedisWasmDb.Dispatch | crates/redis-wasm-core/src/db.rs:300-1413 | Every command changes the tables, answers and logs as its specification says, and leaves all other keys alone |
| Database.RedisWasmDb.Set | crates/redis-wasm-core/src/db.rs:300-313 | SET stores the string, clears any deadline, and logs it |
| Database.RedisWasmDb.Del | crates/redis-wasm-core/src/db.rs:360-368 | DEL logs exactly when some listed key was there |
| Database.RedisWasmDb.Delete | crates/redis-wasm-core/src/db.rs:348-358 | Deletes the listed keys and counts those that were there once each, whatever the repetitions; a deadline goes only along with its value |
| Database.RedisWasmDb.DeleteIfExpired | crates/redis-wasm-core/src/db.rs:432-434 | Lazy expiry: a key with a reached deadline is deleted, every other key and every live key stays |
| Database.RedisWasmDb.Append | crates/redis-wasm-core/src/db.rs:431-454 | APPEND, on its four outcomes, the empty string left behind by a failure included |
| Database.RedisWasmDb.SetRange | crates/redis-wasm-core/src/db.rs:470-498 | SETRANGE likewise; an empty patch reports the length and creates nothing |
| Database.RedisWasmDb.IncrBy | crates/redis-wasm-core/src/db.rs:502-534 | INCRBY on decimal strings with 64-bit range checks; a failure keeps the string as it was |
| Database.RedisWasmDb.Add | crates/redis-wasm-core/src/db.rs:591-648 | LPUSH, RPUSH, SADD, ZADD, HSET: lazy expiry, nothing to add, creation of a missing key, wrong kind, and what is logged |
| Database.RedisWasmDb.Change | crates/redis-wasm-core/src/db.rs:651-805 | LPOP, RPOP, LSET, LREM, LTRIM, SREM, ZREM, HDEL: lapsed, missing and present keys, and an entry only for a change |
| Database.RedisWasmDb.SetDeadline | crates/redis-wasm-core/src/db.rs:1335-1368 | EXPIRE and PEXPIRE: saturating deadlines on unexpired keys, logged as absolute times; otherwise false and nothing |
| Database.RedisWasmDb.Persist | crates/redis-wasm-core/src/db.rs:1399-1413 | PERSIST removes and logs a deadline that was there and not reached |
| Database.RedisWasmDb.Exists | crates/redis-wasm-core/src/db.rs:371-381 | EXISTS counts the listed keys that hold an unexpired value, and deletes exactly the lapsed ones it meets |
| Database.CountsAlive | crates/redis-wasm-core/src/db.rs:371-381 | EXISTS counts the positions in its list at which a key alive stands |
| Database.RedisWasmDb.Sweep | crates/redis-wasm-core/src/expiry/mod.rs:98-116 | One pass leaves exactly the keys whose deadline has not been reached, for every order of the collected keys |
| Database.RedisWasmDb.SnapshotEntries | crates/redis-wasm-core/src/db.rs:227-292 | For every iteration order of the tables, the entries replay into an empty database to exactly what is visible, with its deadlines and nothing else, in as many entries as it weighs |
| Database.RedisWasmDb.KeyEntries | crates/redis-wasm-core/src/db.rs:238-288 | The entries for one key restore it where it is missing; there are none if it is expired or an empty collection |
| Database.RedisWasmDb.BeginCompact | crates/redis-wasm-core/src/db.rs:194-206 | Compaction up to its wait: nothing while another is in flight, else a snapshot is queued and its size put in the counter |
| Database.RedisWasmDb.CompactIfNeeded | crates/redis-wasm-core/src/db.rs:171-182 | Compacts exactly when the log has reached a non-zero threshold and doubled since the last compaction |
| Database.RedisWasmDb.WriteWal | crates/redis-wasm-core/src/db.rs:123-135 | Queues the append before any compaction it trips, and counts it |
| Database.RedisWasmDb.ApplyEntry | crates/redis-wasm-core/src/wal/replayer.rs:29-161 | Replays one entry on the tables; an error leaves them as they were |
| Database.RedisWasmDb.ApplyMutation | crates/redis-wasm-core/src/wal/replayer.rs:51-154 | Replayed creating operations insert a missing key under whatever deadline is there; the others pass it by |
| Database.RedisWasmDb.RemoveAll | crates/redis-wasm-core/src/wal/replayer.rs:42-47 | A replayed DEL clears value and deadline of every listed key, unlike a live one |
| Database.RedisWasmDb.Replay | crates/redis-wasm-core/src/wal/replayer.rs:19-26 | Replays to the end and counts the entries, or stops at the first error with the state of the entries before it |
| Database.OpenDatabase | crates/redis-wasm-bindings/src/lib.rs:95-122 | Opening over a stored log: its replay, with the counter at its length, or its error |
| Log.ReplayConcat | crates/redis-wasm-core/src/wal/replayer.rs:19-26 | Replay of a longer log is replay of its parts, stopping at the first error |
| Log.Visible | crates/redis-wasm-core/src/db.rs:238-252 | The visible state holds exactly the unexpired strings and non-empty collections with their deadlines |
| Values.UnloggedIsNoOp | crates/redis-wasm-core/src/db.rs:651-805 | A collection operation that is not logged has changed nothing |
| Values.CreatorOnFresh | crates/redis-wasm-core/src/db.rs:607-617 | A creating operation with arguments succeeds on a fresh collection, is logged, and leaves it non-empty |
| Values.UpdaterOnEmpty | crates/redis-wasm-core/src/types/mod.rs:346-726 | Every other operation leaves an empty collection as it was |
| Meanings.RemMeans | crates/redis-wasm-core/src/types/mod.rs:411-448 | LREM on a list, in terms of matches: min(abs count, occurrences) of them go, all for 0, from a prefix for a positive count and from a suffix for a negative one, and all else stays in order |
| Meanings.PushMeans | crates/redis-wasm-core/src/types/mod.rs:327-343 | LPUSH and RPUSH: the old list, in order, and each pushed value at its place before or behind it |
| Meanings.PopMeans | crates/redis-wasm-core/src/types/mod.rs:346-367 | LPOP and RPOP: how many, which, in what order, and what is left |
| Meanings.SetMeans | crates/redis-wasm-core/src/types/mod.rs:397-408 | LSET: the one element that changes, or the error |
| Meanings.TrimMeans | crates/redis-wasm-core/src/types/mod.rs:451-461 | LTRIM: the elements between two positions, negative ones counted from the end, one by one |
| Meanings.SetMembersMean | crates/redis-wasm-core/src/types/mod.rs:475-496 | SADD and SREM: who is a member afterwards, and how many that changes |
| Meanings.AddScoresMeans | crates/redis-wasm-core/src/types/mod.rs:547-556 | ZADD: a listed member has the score listed last for it, any other the score it had |
| Meanings.RemoveScoresMeans | crates/redis-wasm-core/src/types/mod.rs:559-568 | ZREM: listed members are gone, the others have their scores |
| Meanings.FieldsMean | crates/redis-wasm-core/src/types/mod.rs:695-726 | HSET and HDEL, field by field |
| Meanings.ErrorsMean | crates/redis-wasm-core/src/types/mod.rs:760-766 | An operation fails exactly on another kind of value, and LSET outside the list |
| Meanings.StringOrder | crates/redis-wasm-core/src/types/mod.rs:11-15 | Members are ordered by the first character in which they differ, a prefix first |
| Meanings.ParseMeans | crates/redis-wasm-core/src/db.rs:514-521 | A string is read as a number exactly if it is an optional sign and digits of that place value |
| Meanings.IncrementStored | crates/redis-wasm-core/src/db.rs:522-523 | Incrementing what an earlier increment has stored gives the sum, or None exactly out of the 64-bit range |
| Meanings.OverwriteMeans | crates/redis-wasm-core/src/types/mod.rs:285-303 | SETRANGE byte by byte: patch, old bytes, zeros |
| Ranges.ClampRange | crates/redis-wasm-core/src/types/mod.rs:592-611 | Selects exactly the positions between the two normalised indices, whatever their magnitudes, and none for an empty selection |
| Ranges.SliceSelects | crates/redis-wasm-core/src/types/mod.rs:370-376 | The clamped slice is the list filtered by position, one element at a time and without clamping |
| Ranges.ClampNeverOverflows | crates/redis-wasm-core/src/types/mod.rs:592-611 | No intermediate value of the clamp leaves the signed word, for any word size and any lengths and indices that fit it |
| Ranges.RangeDuality | crates/redis-wasm-core/src/types/mod.rs:631-645 | Slicing from the far end is reversing the slice at the mirrored indices, which always fit the word |
| Ranges.MirroredRange | crates/redis-wasm-core/src/types/mod.rs:592-611 | Mirrored indices select the mirrored positions |
| Lists.LRemExact | crates/redis-wasm-core/src/types/mod.rs:411-448 | LREM removes min(abs count, occurrences) matches (all for 0), only in a prefix or a suffix by sign, and keeps everything else in order |
| Lists.RemovesSuffix | crates/redis-wasm-core/src/types/mod.rs:425-438 | Reversing, removing from the head and reversing back clears just the last matches |
| Lists.DeleteMatch | crates/redis-wasm-core/src/types/mod.rs:435-438 | Deleting one recorded index from the tail extends the cleared suffix by that match alone |
| Lists.ListValue.LRemove | crates/redis-wasm-core/src/types/mod.rs:411-448 | The code's three passes over the list leave the list LREM is specified to leave, and count the removals |
| Lists.ListValue.RemoveAtIndices | crates/redis-wasm-core/src/types/mod.rs:425-438 | Collecting the last matches and deleting by descending index equals reverse, remove from the head, reverse |
| Lists.ListValue.RetainPastFirst | crates/redis-wasm-core/src/types/mod.rs:415-424 | The filtering pass drops the first matches only |
| Lists.ListValue.RetainOthers | crates/redis-wasm-core/src/types/mod.rs:440-444 | The filtering pass without a count drops every match and nothing else |
| Lists.ListValue.LastIndices | crates/redis-wasm-core/src/types/mod.rs:427-434 | The recorded indices are the last matches, in descending order, none skipped, as many as asked for or as there are |
| Lists.ListValue.LTrim | crates/redis-wasm-core/src/types/mod.rs:451-461 | LTRIM leaves exactly what LRANGE would have returned |
| Lists.ListValue.LRange | crates/redis-wasm-core/src/types/mod.rs:370-376 | LRANGE returns exactly the elements at positions between the two denoted ones, in order |
| Lists.ListValue.LPush | crates/redis-wasm-core/src/types/mod.rs:327-334 | The values end up at the head in reverse order |
| Lists.ListValue.RPush | crates/redis-wasm-core/src/types/mod.rs:337-343 | The values end up at the tail in order |
| Lists.ListValue.LPop | crates/redis-wasm-core/src/types/mod.rs:346-355 | What is popped and what is left are the old list, split at min(count, length) |
| Lists.ListValue.RPop | crates/redis-wasm-core/src/types/mod.rs:358-367 | What is left and what is popped, reversed, are the old list |
| Lists.ListValue.LSet | crates/redis-wasm-core/src/types/mod.rs:397-408 | Replaces one position, negative indices from the end; out of range is an error that changes nothing |
| SortedSets.SortedSet.Insert | crates/redis-wasm-core/src/types/mod.rs:23-38 | A member's insertion or score update keeps the ordered index exactly in step with the scores |
| SortedSets.SortedSet.Remove | crates/redis-wasm-core/src/types/mod.rs:41-48 | So does a removal |
| SortedSets.SortedSet.ZAdd | crates/redis-wasm-core/src/types/mod.rs:547-556 | Inserts in order, later scores winning, and counts the members that were new |
| SortedSets.SortedSet.ZRem | crates/redis-wasm-core/src/types/mod.rs:559-568 | Removes the listed members and counts those that were there, once each |
| SortedSets.SortedSet.ZRank | crates/redis-wasm-core/src/types/mod.rs:56-60 | Finds the member's position in the index |
| SortedSets.SortedSet.ZRevRank | crates/redis-wasm-core/src/types/mod.rs:585-590 | Counts from the other end: the reverse range at that rank is the member, and the two ranks add up to size - 1 |
| SortedSets.SortedSet.ZCount | crates/redis-wasm-core/src/types/mod.rs:665-668 | Counts as many as ZRANGEBYSCORE returns |
| SortedSets.IndexDetermined | crates/redis-wasm-core/src/types/mod.rs:11-15 | The index is a function of the scores: two indexes in step with them are equal |
| SortedSets.IndexSize | crates/redis-wasm-core/src/types/mod.rs:63-65 | The index has one pair per member |
| SortedSets.RankSelect | crates/redis-wasm-core/src/types/mod.rs:578-628 | A member has rank r if and only if the range from r to r is that member |
| SortedSets.RankCounts | crates/redis-wasm-core/src/types/mod.rs:578-590 | A member's rank is the number of smaller (score, member) pairs, and size - 1 - rank selects it in the reverse range |
| SortedSets.ZRevRangeDual | crates/redis-wasm-core/src/types/mod.rs:631-645 | ZREVRANGE is ZRANGE with mirrored indices, reversed |
| SortedSets.ByScoreContiguous | crates/redis-wasm-core/src/types/mod.rs:648-655 | Filtering by score yields a contiguous stretch of the index, empty for crossed bounds |
| SortedSets.InsertOrderedCorrect | crates/redis-wasm-core/src/types/mod.rs:23-38 | Ordered insertion keeps the index ascending and adds that pair only |
| SortedSets.RemoveOrderedCorrect | crates/redis-wasm-core/src/types/mod.rs:41-48 | Ordered removal keeps it ascending and drops that pair only |
| InPlace.Perform | crates/redis-wasm-core/src/types/mod.rs:327-726 | Every collection operation, carried out in place on the list, set, sorted set or hash object, leaves and answers what the value-level function used by every theorem says, errors included |
| InPlace.OnList | crates/redis-wasm-core/src/types/mod.rs:327-461 | The list operations, each by its own loop on the deque |
| InPlace.OnSortedSet | crates/redis-wasm-core/src/types/mod.rs:547-568 | ZADD and ZREM on the two structures, built from the scores |
| Collections.SetValue.SAdd | crates/redis-wasm-core/src/types/mod.rs:475-484 | Adds the members and counts those that were new |
| Collections.SetValue.SRem | crates/redis-wasm-core/src/types/mod.rs:487-496 | Removes the members and counts those that were there |
| Collections.HashValue.HDel | crates/redis-wasm-core/src/types/mod.rs:717-726 | Removes the fields and counts those that were there |
| Strings.StringValue.Append | crates/redis-wasm-core/src/types/mod.rs:264-272 | Appends under the size cap; over it, an error that changes nothing |
| Strings.StringValue.SetRange | crates/redis-wasm-core/src/types/mod.rs:285-303 | Writes the patch at the offset, keeps every other byte, fills a gap with zeros; over the cap an error that changes nothing; an empty patch is a no-op |
| Strings.FormatParses | crates/redis-wasm-core/src/db.rs:514-524 | A stored counter reads back as the number it was written from |
| Strings.IncrementsAdd | crates/redis-wasm-core/src/db.rs:502-534 | Two increments in a row are one by their sum, its failure included |
| Framing.Perform | crates/redis-wasm-core/src/wal/writer.rs:60-116 | For every sequence of append, flush and rewrite on an open file, the entries written and then buffered are the last rewrite and all later appends, in order, behind what the file held when it was opened, until it is rewritten |
| Framing.OpenAndPerform | crates/redis-wasm-core/src/wal/writer.rs:42-116 | For every file of whole frames and every such sequence, what a reader finds in the file followed by the buffer is the last rewrite, or else the existing entries, and all later appends, read to a clean end |
| Framing.LogInOrder | crates/redis-wasm-core/src/wal/writer.rs:60-116 | Appended entries follow one another and what was there in the order made; a rewrite begins anew |
| Framing.TruncatedFile | crates/redis-wasm-core/src/wal/replayer.rs:218-233 | A file cut anywhere yields exactly its whole leading entries; the end is clean if the cut is on a frame boundary or in a length prefix, and an error if it is in a body |
| Framing.CanAppendExact | crates/redis-wasm-core/src/wal/writer.rs:42-49 | A file cut off anywhere can be opened and appended to, so that its whole leading entries and everything appended are read back to a clean end, if and only if the cut is on a frame boundary (given that some entry has an encoding of 1 to 255 bytes) |
| Framing.StrayPrefix | crates/redis-wasm-core/src/wal/replayer.rs:219-231 | A short frame behind one to three stray bytes is not read: its length is taken for at least 256 times as much |
| Framing.FileRoundTrip | crates/redis-wasm-core/src/wal/replayer.rs:218-233 | A file of whole frames reads back as its entries, to a clean end |
| Framing.ReadFrames | crates/redis-wasm-core/src/wal/replayer.rs:218-233 | Whole frames at the front are read back, and reading goes on behind them |
| Framing.LittleEndianRoundTrip | crates/redis-wasm-core/src/wal/writer.rs:68-69 | A length below 2^32 survives its four-byte prefix |
| Framing.NativeWalWriter.Drain | crates/redis-wasm-core/src/wal/writer.rs:64-73 | Draining writes the buffered entries as frames behind those on file, in order |
| Framing.NativeWalWriter.Append | crates/redis-wasm-core/src/wal/writer.rs:60-75 | Buffers until the buffer is full, then drains; the log gains that entry |
| Framing.NativeWalWriter.Flush | crates/redis-wasm-core/src/wal/writer.rs:77-89 | Everything appended is on file |
| Framing.NativeWalWriter.Rewrite | crates/redis-wasm-core/src/wal/writer.rs:96-116 | The file holds exactly the given entries and the buffer is dropped |
| Framing.NativeWalReader.NextEntry | crates/redis-wasm-core/src/wal/replayer.rs:218-233 | Yields the next whole entry, a clean end, or the error, and leaves the rest to be read |
| Framing.NativeWalReader.ReadAll | crates/redis-wasm-core/src/wal/replayer.rs:218-233 | Entry by entry to the end: what the file yields, and how it ends |
| Glob.GlobToRegex | crates/redis-wasm-core/src/db.rs:1427-1482 | For every pattern, the tokens emitted through the literal buffer match a key without newlines exactly when the glob does, provided that the engine reads each closed class as one token and admits the same characters |
| Glob.ClassFreeTranslation | crates/redis-wasm-core/src/db.rs:1427-1482 | For every pattern without a closed class nothing is assumed about the engine: the expression has no class, and it matches a key without newlines exactly when the glob does |
| Glob.ClassTokens | crates/redis-wasm-core/src/db.rs:1456-1474 | The translation has a class token exactly when the pattern has a closed class that is not escaped |
| Glob.TranslationPreservesMeaning | crates/redis-wasm-core/src/db.rs:1427-1482 | However literals are cut, a token sequence that spells the pattern has the glob's meaning on every key without newlines, under the same proviso for closed classes |
| Glob.TokensMatch | crates/redis-wasm-core/src/db.rs:1439-1479 | Token by token: wildcards, escapes, a dropped trailing backslash, and an unterminated class taken literally to the end; closed classes under that proviso |
| Glob.NewlinesAreNeverWild | crates/redis-wasm-core/src/db.rs:1441-1449 | A key agrees on every pattern if and only if it has no newline: the wildcards of the expression do not match one |
| Glob.NextPiece | crates/redis-wasm-core/src/db.rs:1438-1478 | One turn of the translation takes one piece off the pattern and emits or buffers just its tokens |
| Glob.ScanClass | crates/redis-wasm-core/src/db.rs:1456-1470 | Finds the bracket that closes a class, if there is one, stepping over a leading caret |

## Left out

What the code does and the model does not:

- IndexedDB transactions, the JavaScript bindings, the broadcast channel, pub/sub, timers and file handles: foreign calls. A batch or a rewrite commits as a whole or fails.
- The encodings: bincode and JSON are a pair with `decode(encode(e)) == Some(e)` and lengths below 2^32; a decoder that accepts more than it was given is not considered.
- INCRBYFLOAT, printing of scores, NaN and signed zero; scores are integers, of which only the order is used. INCRBYFLOAT on a missing key can leave an empty string behind like an oversized APPEND.
- UTF-8: keys, elements and patterns are sequences of characters, string values sequences of bytes; lossy decoding is not modelled.
- Reads other than EXISTS, LRANGE, ZRANGE and its relatives: they delete lapsed keys (`Read`) and look something up. KEYS does not delete; its iteration over the table is not modelled, its pattern translation is.
- The regular-expression engine: its matching is given by `Glob.Matches`. Texts between brackets that it does not read as one class, such as `[]` or `[\]`, make KEYS fail or swallow what follows; they are not modelled.
- Counters are unbounded numbers, not 64-bit atomics; `base * 2` saturates in the code at lengths no log reaches.
- A closed command channel and the texts of errors.
- Native compaction racing concurrent mutations, which the code disclaims, and native files whose writing fails half-way.
- Lazy deletion racing a SET on another thread. Commands are atomic except in `Sweeper`.
- The clock is constant within a command. `System` gives each command one time.
- Several tabs writing one log, and the raw `remove_key`.
- Sessions resumed over a log whose replay leaves a deadline without a value: run theorems start from logs that leave none, which the empty log and every compacted log are (`Refinement.SnapshotResumable`).

Contracts stated about something narrower or more abstract than the code:

- Database.RedisWasmDb.MutateInPlace: the table holds values; a stored collection is moved into an object of its class, changed there in place and put back, where the code changes it inside the table.
- Lists.ListValue.LRemove: a count of the minimum machine integer counts as its absolute value, as it does in the code where negation wraps; builds that check overflow stop there.
- Glob.GlobToRegex: what a closed class admits is a parameter on both sides, its text being taken as one class; `Glob.ClassFreeTranslation` assumes nothing of the kind.
- Framing.Perform: operations do not fail; what a failed write leaves in the file is not modelled.
- Writer.RunWriter: a finite number of arrivals, after which the channel is closed and the loop ends.
- System.DiskFollowsQueue: the writer of the system takes commands one at a time; that batching makes no difference is `Writer.RunWriter`.
- Sweeper.SetWins: one sweep at a time, and a SET inserts its value only while the sweep does not hold the key.
