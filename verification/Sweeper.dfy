/**
 * SET against a concurrent sweep, step by step. The sweep removes a key's
 * value under that key's lock, after looking at the deadline again, and then
 * removes the deadline if it is still the lapsed one. SET clears the deadline
 * first and inserts the value second.
 */
module Sweeper {
  import opened Values
  import opened Log

  /** Where the sweep is: `keys` are those collected and not yet done, `cutoff` the time it began. */
  datatype Pc =
    | Idle
    | AtKey(cutoff: nat, keys: seq<Key>)
    | Locked(cutoff: nat, keys: seq<Key>, expired: bool)   // holds the first key's value, has looked at its deadline
    | Passed(cutoff: nat, keys: seq<Key>)                  // the first key's value has been dealt with

  datatype Shared = Shared(data: map<Key, Value>, ttl: map<Key, nat>, clock: nat, pc: Pc)

  datatype Step =
    | Tick(now: nat)
    | Collect(keys: seq<Key>)   // in whatever order, and however stale by the time it is used
    | Look
    | Remove
    | DropTtl
    | SetClear(key: Key)
    | SetInsert(key: Key, value: Value)
    | SetDeadline(key: Key, at: nat)

  predicate Lapsed(s: Shared, k: Key) {
    k in s.ttl && s.ttl[k] <= s.clock
  }

  /** The sweep holds the lock on the key's value. */
  predicate HoldsLock(s: Shared, k: Key) {
    s.pc.Locked? && s.pc.keys != [] && s.pc.keys[0] == k
  }

  predicate Enabled(s: Shared, step: Step) {
    match step
    case Tick(now) => s.clock <= now
    case Collect(_) => s.pc.Idle? || (s.pc.AtKey? && s.pc.keys == [])
    case Look => s.pc.AtKey? && s.pc.keys != []
    case Remove => s.pc.Locked? && s.pc.keys != []
    case DropTtl => s.pc.Passed? && s.pc.keys != []
    case SetInsert(key, _) => !HoldsLock(s, key)
    case _ => true
  }

  function Take(s: Shared, step: Step): Shared
    requires Enabled(s, step)
  {
    match step
    case Tick(now) => s.(clock := now)
    case Collect(keys) => s.(pc := AtKey(s.clock, keys))
    case Look =>
      var k := s.pc.keys[0];
      s.(pc := if k in s.data then Locked(s.pc.cutoff, s.pc.keys, Lapsed(s, k)) else Passed(s.pc.cutoff, s.pc.keys))
    case Remove =>
      s.(data := if s.pc.expired then s.data - {s.pc.keys[0]} else s.data, pc := Passed(s.pc.cutoff, s.pc.keys))
    case DropTtl =>
      var k := s.pc.keys[0];
      s.(ttl := if k in s.ttl && s.ttl[k] <= s.pc.cutoff then s.ttl - {k} else s.ttl,
         pc := AtKey(s.pc.cutoff, s.pc.keys[1..]))
    case SetClear(key) => s.(ttl := s.ttl - {key})
    case SetInsert(key, value) => s.(data := s.data[key := value])
    case SetDeadline(key, at) => s.(ttl := s.ttl[key := at])
  }

  /** `t` is where the steps lead from `s`. */
  predicate Leads(s: Shared, steps: seq<Step>, t: Shared)
    decreases |steps|
  {
    if steps == [] then s == t else Enabled(s, steps[0]) && Leads(Take(s, steps[0]), steps[1..], t)
  }

  /** The sweep has decided to remove the key's value and holds it. */
  predicate Doomed(s: Shared, k: Key) {
    HoldsLock(s, k) && s.pc.expired
  }

  /** No step gives the key a deadline. */
  predicate NoExpire(steps: seq<Step>, k: Key) {
    forall i :: 0 <= i < |steps| && steps[i].SetDeadline? ==> steps[i].key != k
  }

  /** No step is the second half of a SET of the key. */
  predicate NoInsert(steps: seq<Step>, k: Key) {
    forall i :: 0 <= i < |steps| && steps[i].SetInsert? ==> steps[i].key != k
  }

  /** Without a deadline no new removal is decided; one decided before is the only way the value can go. */
  lemma ClearedStep(s: Shared, step: Step, k: Key)
    requires Enabled(s, step) && k !in s.ttl && !(step.SetDeadline? && step.key == k)
    ensures var t := Take(s, step);
      && k !in t.ttl
      && (Doomed(t, k) ==> Doomed(s, k))
      && (k in s.data && k !in t.data ==> Doomed(s, k) && step.Remove?)
      && (k in s.data && k in t.data && s.data[k] != t.data[k] ==> step.SetInsert? && step.key == k)
  {
  }

  lemma {:induction false} ClearedRun(s: Shared, steps: seq<Step>, t: Shared, k: Key)
    requires Leads(s, steps, t) && k !in s.ttl && NoExpire(steps, k)
    ensures k !in t.ttl
    ensures k in s.data && !Doomed(s, k) && NoInsert(steps, k) ==> k in t.data && t.data[k] == s.data[k]
    decreases |steps|
  {
    if steps != [] {
      ClearedStep(s, steps[0], k);
      ClearedRun(Take(s, steps[0]), steps[1..], t, k);
    }
  }

  /**
   * SET wins over the sweep. In every interleaving of the sweep's steps with
   * the two steps of a SET, and with anything else other clients do, the value
   * the SET inserted stays, without a deadline, until an EXPIRE or a further
   * SET of the key; even if the sweep had collected the key, or was holding
   * it, when the SET began.
   */
  lemma SetWins(s0: Shared, k: Key, v: Value, between: seq<Step>, s1: Shared, later: seq<Step>, t: Shared)
    requires Leads(Take(s0, SetClear(k)), between, s1) && NoExpire(between, k)
    requires Enabled(s1, SetInsert(k, v)) && Leads(Take(s1, SetInsert(k, v)), later, t)
    requires NoExpire(later, k) && NoInsert(later, k)
    ensures k in t.data && t.data[k] == v && k !in t.ttl
  {
    ClearedRun(Take(s0, SetClear(k)), between, s1, k);
    ClearedRun(Take(s1, SetInsert(k, v)), later, t, k);
  }

  /** Once a SET has cleared the deadline, the sweep takes the value only if it was already holding it, doomed. */
  lemma {:induction false} ClearedKeepsValue(s: Shared, steps: seq<Step>, t: Shared, k: Key)
    requires Leads(s, steps, t) && k !in s.ttl && NoExpire(steps, k)
    requires k in s.data && k !in t.data
    ensures Doomed(s, k)
    decreases |steps|
  {
    if steps != [] {
      ClearedStep(s, steps[0], k);
      if k in Take(s, steps[0]).data {
        ClearedKeepsValue(Take(s, steps[0]), steps[1..], t, k);
      }
    }
  }

  // ---------------------------------------------------- EXPIRE and the sweep

  /** No step clears, inserts or gives a deadline to the key. */
  predicate LeavesAlone(steps: seq<Step>, k: Key) {
    forall i :: 0 <= i < |steps| ==>
      !((steps[i].SetClear? || steps[i].SetInsert? || steps[i].SetDeadline?) && steps[i].key == k)
  }

  /** A sweep began no later than now. */
  predicate Sane(s: Shared) {
    s.pc.Idle? || s.pc.cutoff <= s.clock
  }

  /** The key is there, with the given value and deadline. */
  predicate Holds(s: Shared, k: Key, v: Value, at: nat) {
    k in s.data && s.data[k] == v && k in s.ttl && s.ttl[k] == at
  }

  lemma {:induction false} ClockRuns(s: Shared, steps: seq<Step>, t: Shared)
    requires Leads(s, steps, t)
    ensures s.clock <= t.clock
    decreases |steps|
  {
    if steps != [] {
      ClockRuns(Take(s, steps[0]), steps[1..], t);
    }
  }

  /** Until the deadline is reached, an undoomed key keeps its value and its deadline. */
  lemma {:induction false} UndoomedStays(s: Shared, steps: seq<Step>, t: Shared, k: Key, v: Value, at: nat)
    requires Leads(s, steps, t) && LeavesAlone(steps, k) && t.clock < at
    requires Sane(s) && Holds(s, k, v, at) && !Doomed(s, k)
    ensures Holds(t, k, v, at)
    decreases |steps|
  {
    if steps != [] {
      ClockRuns(s, steps, t);
      UndoomedStays(Take(s, steps[0]), steps[1..], t, k, v, at);
    }
  }

  /**
   * A deadline in the future wins over the sweep exactly when the sweep has
   * not already read the old one as reached: whatever happens to other keys,
   * value and deadline stay until the new deadline, if and only if the sweep
   * does not hold the key with its decision to remove it.
   */
  lemma ExpireWinsExact(s: Shared, k: Key, at: nat)
    requires Sane(s) && k in s.data && s.clock < at
    ensures
      (forall steps, t :: Leads(Take(s, SetDeadline(k, at)), steps, t) && LeavesAlone(steps, k) && t.clock < at
        ==> Holds(t, k, s.data[k], at))
      <==> !Doomed(s, k)
  {
    var given := Take(s, SetDeadline(k, at));
    if Doomed(s, k) {
      var gone := Take(given, Remove);
      assert Leads(gone, [], gone);
      assert [Remove][1..] == [];
      assert Leads(given, [Remove], gone) && LeavesAlone([Remove], k);
      assert !Holds(gone, k, s.data[k], at);
    } else {
      forall steps, t | Leads(given, steps, t) && LeavesAlone(steps, k) && t.clock < at
        ensures Holds(t, k, s.data[k], at)
      {
        UndoomedStays(given, steps, t, k, s.data[k], at);
      }
    }
  }

  /** A doomed key loses its value whatever its new deadline, which stays behind if later than the cutoff. */
  lemma DoomedLosesValue(s: Shared, k: Key, at: nat)
    requires Doomed(s, k)
    ensures
      var swept := Take(Take(Take(s, SetDeadline(k, at)), Remove), DropTtl);
      k !in swept.data && (k in swept.ttl <==> s.pc.cutoff < at)
  {
  }

  /** The sweep is done looking at the key and spares it. */
  predicate Spared(s: Shared, k: Key) {
    (s.pc.Locked? || s.pc.Passed?) && s.pc.keys != [] && s.pc.keys[0] == k && (s.pc.Locked? ==> !s.pc.expired)
  }

  /** The deadline may go although the value stays. */
  predicate LosesDeadline(s: Shared, k: Key) {
    Spared(s, k) && k in s.ttl && s.ttl[k] <= s.pc.cutoff
  }

  lemma {:induction false} DeadlineStays(s: Shared, steps: seq<Step>, t: Shared, k: Key)
    requires Leads(s, steps, t) && LeavesAlone(steps, k) && Sane(s)
    requires k in s.data ==> k in s.ttl && !LosesDeadline(s, k)
    ensures k in t.data ==> k in t.ttl
    decreases |steps|
  {
    if steps != [] {
      DeadlineStays(Take(s, steps[0]), steps[1..], t, k);
    }
  }

  /**
   * A deadline is dropped while its value stays, so that the key never
   * expires, in some continuation without further commands on the key, if and
   * only if the sweep has looked at the key before the deadline was given,
   * spares it, and began no earlier than that deadline.
   */
  lemma DeadlineLostExact(s: Shared, k: Key)
    requires Sane(s) && k in s.data && k in s.ttl
    ensures
      (exists steps, t :: Leads(s, steps, t) && LeavesAlone(steps, k) && k in t.data && k !in t.ttl)
      <==> LosesDeadline(s, k)
  {
    if LosesDeadline(s, k) {
      var passed := if s.pc.Locked? then Take(s, Remove) else s;
      var t := Take(passed, DropTtl);
      var steps := if s.pc.Locked? then [Remove, DropTtl] else [DropTtl];
      assert Leads(t, [], t);
      assert [DropTtl][1..] == [] && [Remove, DropTtl][1..] == [DropTtl];
      assert Leads(passed, [DropTtl], t);
      assert Leads(s, steps, t) && LeavesAlone(steps, k);
    } else {
      forall steps, t | Leads(s, steps, t) && LeavesAlone(steps, k) && k in t.data ensures k in t.ttl {
        DeadlineStays(s, steps, t, k);
      }
    }
  }

  /** Such a state is reached: a sweep collects a key, a SET comes in, the sweep passes, a lapsed deadline is given. */
  lemma DeadlineLost(k: Key, v: Value)
    ensures
      var collected := Take(Shared(map[k := v], map[k := 5], 5, Idle), Collect([k]));
      var set1 := Take(Take(collected, SetClear(k)), SetInsert(k, v));
      var passed := Take(Take(set1, Look), Remove);
      var given := Take(passed, SetDeadline(k, 5));
      LosesDeadline(given, k) && Take(given, DropTtl).data == map[k := v] && k !in Take(given, DropTtl).ttl
  {
  }

  /** So is a doomed one: a sweep looks at a lapsed key, and its deadline is moved before the removal. */
  lemma ValueLost(k: Key, v: Value)
    ensures
      var looked := Take(Take(Shared(map[k := v], map[k := 5], 5, Idle), Collect([k])), Look);
      var swept := Take(Take(Take(looked, SetDeadline(k, 100)), Remove), DropTtl);
      Doomed(looked, k) && k !in swept.data && k in swept.ttl && swept.ttl[k] == 100
  {
    var looked := Take(Take(Shared(map[k := v], map[k := 5], 5, Idle), Collect([k])), Look);
    assert Doomed(looked, k);
    DoomedLosesValue(looked, k, 100);
  }
}
