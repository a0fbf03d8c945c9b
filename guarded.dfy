/** The get-or-set sequence with its locking as evidently intended: a
    caller whose wait took the key's semaphore releases it and removes it
    from the lock table on every exit, the second read's hit included; a
    caller whose wait timed out runs without it, as the configured wait
    bound allows, and leaves the semaphore to its owner. */
module GuardedCoordinator {
  import opened Outcomes
  import opened Interceptors

  /** The corrected get-or-set: the source's steps, with the release and the
      removal done once, by the owner only, whichever way the call ends. */
  function GuardedGetOrSetSpec<V>(s: Snapshot<V>, key: string, duration: int, timeout: int,
    meanwhile: Option<StoreEntry<V>>, operation: Result<Nullable<V>>): (Snapshot<V>, Completion<V>)
  {
    var first := Lookup(s.store, key);
    if first.hasValue then (s, Completed(Ok(first.value)))
    else
      var added := if key in s.locks then s.locks else s.locks[key := Free];
      if !WaitTimeoutInRange(timeout) then (s.(locks := added), Completed(Throw(ArgumentOutOfRangeException)))
      else if !WaitReturns(added, key, timeout) then (s.(locks := added), Hangs)
      else
        var acquired := added[key] == Free;
        var released := if acquired then s.locks - {key} else added;
        var store := if meanwhile.Some? then s.store[key := meanwhile.value] else s.store;
        var second := Lookup(store, key);
        if second.hasValue then (Snapshot(store, released, s.invocations), Completed(Ok(second.value)))
        else
          var invoked := s.invocations + 1;
          match operation
          case Throw(e) => (Snapshot(store, released, invoked), Completed(Throw(e)))
          case Ok(v) => (Snapshot(store[key := StoreEntry(v, duration)], released, invoked), Completed(Ok(v)))
  }

  /** No semaphore in the table is held. */
  predicate NoneHeld(locks: LockTable)
  {
    forall k :: k in locks ==> locks[k] == Free
  }

  /** The owner, and only the owner, lets go: a caller whose wait took the
      semaphore leaves the key out of the table, one whose wait timed out
      leaves the table as it found it. */
  lemma GuardedReleasesOnlyWhenAcquired<V>(s: Snapshot<V>, key: string, duration: int, timeout: int,
    meanwhile: Option<StoreEntry<V>>, operation: Result<Nullable<V>>)
    requires key !in s.store && WaitReturns(s.locks, key, timeout)
    ensures
      var (t, r) := GuardedGetOrSetSpec(s, key, duration, timeout, meanwhile, operation);
      && (CanAcquire(s.locks, key) ==> t.locks == s.locks - {key})
      && (!CanAcquire(s.locks, key) ==> t.locks == s.locks)
  {
  }

  /** No call leaves a semaphore held behind it, and with none held no call
      hangs. */
  lemma GuardedKeepsNoneHeld<V>(s: Snapshot<V>, key: string, duration: int, timeout: int,
    meanwhile: Option<StoreEntry<V>>, operation: Result<Nullable<V>>)
    requires NoneHeld(s.locks)
    ensures
      var (t, r) := GuardedGetOrSetSpec(s, key, duration, timeout, meanwhile, operation);
      NoneHeld(t.locks) && r.Completed?
  {
  }

  /** The source, by contrast, leaves the semaphore held after a hit on the
      second read, whatever the table held before. */
  lemma SourceLeavesSemaphoreHeld<V>(s: Snapshot<V>, key: string, duration: int, timeout: int,
    entry: StoreEntry<V>, operation: Result<Nullable<V>>)
    requires key !in s.store && WaitReturns(s.locks, key, timeout)
    ensures !NoneHeld(GetOrSetSpec(s, key, duration, timeout, Some(entry), operation).0.locks)
  {
    DoubleCheckHit(s, key, duration, timeout, entry, operation);
    var t := GetOrSetSpec(s, key, duration, timeout, Some(entry), operation).0;
    assert key in t.locks && t.locks[key] == Held;
  }

  /** With a bounded wait the correction changes the locking only: from the
      same store and run count, whatever the two lock tables, the corrected
      call and the source's call return the same result, leave the same store
      and run the operation equally often. (Neither reads the lock table
      except to decide whether an unbounded wait returns.) */
  lemma GuardedAgreesWithSource<V>(s: Snapshot<V>, s': Snapshot<V>, key: string, duration: int,
    timeout: int, meanwhile: Option<StoreEntry<V>>, operation: Result<Nullable<V>>)
    requires s.store == s'.store && s.invocations == s'.invocations && timeout != -1
    ensures
      var (t, r) := GuardedGetOrSetSpec(s, key, duration, timeout, meanwhile, operation);
      var (u, q) := GetOrSetSpec(s', key, duration, timeout, meanwhile, operation);
      r == q && t.store == u.store && t.invocations == u.invocations
  {
  }

  /** One step of a run: a get-or-set call (its key, the policy's duration,
      what another caller stores meanwhile, and how the wrapped operation
      ends), or the provider dropping a key's entry as it expires. */
  datatype Call<V> =
    | Get(key: string, duration: int, meanwhile: Option<StoreEntry<V>>, operation: Result<Nullable<V>>)
    | Expire(key: string)

  /** What the provider's expiry of a key does: the entry goes; the call
      reports nothing of its own, a completed null. */
  function ExpireStep<V>(s: Snapshot<V>, key: string): (Snapshot<V>, Completion<V>)
  {
    (s.(store := s.store - {key}), Completed(Ok(Null)))
  }

  /** One step through the corrected coordinator. */
  function GuardedStep<V>(s: Snapshot<V>, timeout: int, c: Call<V>): (Snapshot<V>, Completion<V>)
  {
    match c
    case Get(key, duration, meanwhile, operation) => GuardedGetOrSetSpec(s, key, duration, timeout, meanwhile, operation)
    case Expire(key) => ExpireStep(s, key)
  }

  /** One step through the source's coordinator. */
  function SourceStep<V>(s: Snapshot<V>, timeout: int, c: Call<V>): (Snapshot<V>, Completion<V>)
  {
    match c
    case Get(key, duration, meanwhile, operation) => GetOrSetSpec(s, key, duration, timeout, meanwhile, operation)
    case Expire(key) => ExpireStep(s, key)
  }

  /** Calls made one after another through the corrected coordinator, with
      the same configured wait. */
  function RunGuarded<V>(s: Snapshot<V>, timeout: int, calls: seq<Call<V>>): (Snapshot<V>, seq<Completion<V>>)
    decreases |calls|
  {
    if |calls| == 0 then (s, [])
    else
      var (t, r) := GuardedStep(s, timeout, calls[0]);
      var (u, rs) := RunGuarded(t, timeout, calls[1..]);
      (u, [r] + rs)
  }

  /** The same calls through the source's coordinator. */
  function RunSource<V>(s: Snapshot<V>, timeout: int, calls: seq<Call<V>>): (Snapshot<V>, seq<Completion<V>>)
    decreases |calls|
  {
    if |calls| == 0 then (s, [])
    else
      var (t, r) := SourceStep(s, timeout, calls[0]);
      var (u, rs) := RunSource(t, timeout, calls[1..]);
      (u, [r] + rs)
  }

  /** From a table with no held semaphore, any run of calls ends with none
      held and no call hangs, whatever the wait bound; the operation runs at
      most once per call. */
  lemma {:induction false} RunGuardedNeverLeaks<V>(s: Snapshot<V>, timeout: int, calls: seq<Call<V>>)
    requires NoneHeld(s.locks)
    ensures
      var (u, rs) := RunGuarded(s, timeout, calls);
      && NoneHeld(u.locks)
      && |rs| == |calls|
      && (forall i :: 0 <= i < |rs| ==> rs[i].Completed?)
      && s.invocations <= u.invocations <= s.invocations + |calls|
    decreases |calls|
  {
    if |calls| > 0 {
      var (t, r) := GuardedStep(s, timeout, calls[0]);
      match calls[0] {
        case Get(key, duration, meanwhile, operation) =>
          GuardedKeepsNoneHeld(s, key, duration, timeout, meanwhile, operation);
          assert s.invocations <= t.invocations <= s.invocations + 1;
        case Expire(key) =>
      }
      assert NoneHeld(t.locks) && r.Completed? && s.invocations <= t.invocations <= s.invocations + 1;
      RunGuardedNeverLeaks(t, timeout, calls[1..]);
      var (u, rs) := RunGuarded(t, timeout, calls[1..]);
      assert RunGuarded(s, timeout, calls) == (u, [r] + rs);
    }
  }

  /** With a bounded wait, over any run of calls, the corrected coordinator
      answers every call as the source does and ends with the same store and
      run count. */
  lemma {:induction false} RunGuardedAgreesWithSource<V>(s: Snapshot<V>, s': Snapshot<V>, timeout: int,
    calls: seq<Call<V>>)
    requires s.store == s'.store && s.invocations == s'.invocations && timeout != -1
    ensures
      var (u, rs) := RunGuarded(s, timeout, calls);
      var (u', rs') := RunSource(s', timeout, calls);
      rs == rs' && u.store == u'.store && u.invocations == u'.invocations
    decreases |calls|
  {
    if |calls| > 0 {
      var (t, r) := GuardedStep(s, timeout, calls[0]);
      var (t', r') := SourceStep(s', timeout, calls[0]);
      match calls[0] {
        case Get(key, duration, meanwhile, operation) =>
          GuardedAgreesWithSource(s, s', key, duration, timeout, meanwhile, operation);
        case Expire(key) =>
      }
      assert r == r' && t.store == t'.store && t.invocations == t'.invocations;
      RunGuardedAgreesWithSource(t, t', timeout, calls[1..]);
      var (u, rs) := RunGuarded(t, timeout, calls[1..]);
      var (u', rs') := RunSource(t', timeout, calls[1..]);
      assert RunGuarded(s, timeout, calls) == (u, [r] + rs);
      assert RunSource(s', timeout, calls) == (u', [r'] + rs');
    }
  }

  /** With an unbounded wait the correction also removes a hang: a
      second-read hit, the entry's expiry and a miss leave the source's third
      call waiting forever, while the corrected one runs the operation and
      returns its value. */
  lemma UnboundedWaitHangsOnlyInSource<V>(s: Snapshot<V>, key: string, duration: int,
    entry: StoreEntry<V>, value: Nullable<V>)
    requires key !in s.store && key !in s.locks
    ensures
      var calls := [Get(key, duration, Some(entry), Ok(value)), Expire(key), Get(key, duration, None, Ok(value))];
      && |RunSource(s, -1, calls).1| == 3 && RunSource(s, -1, calls).1[2] == Hangs
      && |RunGuarded(s, -1, calls).1| == 3 && RunGuarded(s, -1, calls).1[2] == Completed(Ok(value))
  {
    var c0: Call<V>, c1: Call<V>, c2: Call<V> :=
      Get(key, duration, Some(entry), Ok(value)), Expire(key), Get(key, duration, None, Ok(value));
    var calls := [c0, c1, c2];
    assert calls[1..] == [c1, c2] && [c1, c2][1..] == [c2] && [c2][1..] == [];
    LeakedSemaphoreIsNeverRetaken(s, key, duration, -1, entry, value);
    // the source: the second-read hit leaves the semaphore held, so the
    // third call's unbounded wait never returns
    var (s1, r1) := SourceStep(s, -1, c0);
    var (s2, r2) := SourceStep(s1, -1, c1);
    var (s3, r3) := SourceStep(s2, -1, c2);
    assert RunSource(s3, -1, []) == (s3, []);
    assert [r3] + [] == [r3] && [r2] + [r3] == [r2, r3] && [r1] + [r2, r3] == [r1, r2, r3];
    assert RunSource(s2, -1, [c2]) == (s3, [r3]);
    assert RunSource(s1, -1, [c1, c2]) == (s3, [r2, r3]);
    assert RunSource(s, -1, calls) == (s3, [r1, r2, r3]);
    // the corrected coordinator: the owner released it, so the wait returns
    var (g1, q1) := GuardedStep(s, -1, c0);
    var (g2, q2) := GuardedStep(g1, -1, c1);
    var (g3, q3) := GuardedStep(g2, -1, c2);
    assert RunGuarded(g3, -1, []) == (g3, []);
    assert [q3] + [] == [q3] && [q2] + [q3] == [q2, q3] && [q1] + [q2, q3] == [q1, q2, q3];
    assert RunGuarded(g2, -1, [c2]) == (g3, [q3]);
    assert RunGuarded(g1, -1, [c1, c2]) == (g3, [q2, q3]);
    assert RunGuarded(s, -1, calls) == (g3, [q1, q2, q3]);
  }
}
