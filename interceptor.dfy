/** `AsyncCachingInterceptor`: resolves an operation's cache policy, builds
    its cache key and runs the get-or-set sequence over the cache store and
    the per-key semaphores. One caller runs at a time; what a concurrent
    caller could do while this one waits for its semaphore is an input. */
module Interceptors {
  import opened Outcomes
  import opened Caching
  import opened Attributes
  import opened Configuration
  import opened CacheKeys

  /** An entry of the cache store: the value and the expiration it was set
      with, an opaque tick count. */
  datatype StoreEntry<V> = StoreEntry(value: Nullable<V>, expiration: int)

  type Store<V> = map<string, StoreEntry<V>>

  /** A `SemaphoreSlim(1, 1)`: `Free` when its count is 1, `Held` when 0. */
  datatype SemaphoreState = Free | Held

  /** `cacheLocks`: the semaphore of each key that has one. */
  type LockTable = map<string, SemaphoreState>

  /** Everything a call can change: the store, the lock table and the number
      of times the wrapped operation has run. */
  datatype Snapshot<V> = Snapshot(store: Store<V>, locks: LockTable, invocations: nat)

  /** How a get-or-set call ends: it returns or throws, or it never returns,
      because it waits without a bound on a semaphore nobody releases. */
  datatype Completion<V> = Completed(result: Result<Nullable<V>>) | Hangs

  const Int32MaxValue: int := 0x7FFF_FFFF

  /** The provider's `Get`: a hit carries the stored value; an absent key is
      a miss, never an error, and carries the default of `object`, null. */
  function Lookup<V>(store: Store<V>, key: string): CacheItem<V>
  {
    if key in store then CacheItem(store[key].value, true) else CacheItem(Null, false)
  }

  /** The timeouts `SemaphoreSlim.Wait` accepts, in milliseconds: -1 (wait
      forever) up to `Int32.MaxValue`. */
  predicate WaitTimeoutInRange(timeout: int)
  {
    -1 <= timeout <= Int32MaxValue
  }

  /** Whether a `Wait` on the key's semaphore would succeed: the semaphore
      does not exist yet or is free. */
  predicate CanAcquire(locks: LockTable, key: string)
  {
    key !in locks || locks[key] == Free
  }

  /** Whether a `Wait` on the key's semaphore returns: its bound is one
      `SemaphoreSlim` accepts, and it is finite or the semaphore is free. */
  predicate WaitReturns(locks: LockTable, key: string, timeout: int)
  {
    WaitTimeoutInRange(timeout) && (timeout != -1 || CanAcquire(locks, key))
  }

  /** One `GetOrSet` (or `GetOrSetAsync`) call as written: fast-path read;
      `GetOrAdd` of the semaphore; `Wait`, whose result is ignored; second
      read, after `meanwhile` (a store another caller made while this one
      waited), unless the wait has no bound and finds the semaphore held,
      when the call never returns; then either a return on the second hit, with the semaphore
      still held and its entry kept, or the operation: on success `Set`,
      `Release` and `TryRemove`, on failure `Release` only and a rethrow. */
  function GetOrSetSpec<V>(s: Snapshot<V>, key: string, duration: int, timeout: int,
    meanwhile: Option<StoreEntry<V>>, operation: Result<Nullable<V>>): (Snapshot<V>, Completion<V>)
  {
    var first := Lookup(s.store, key);
    if first.hasValue then (s, Completed(Ok(first.value)))
    else
      var added := if key in s.locks then s.locks else s.locks[key := Free];
      if !WaitTimeoutInRange(timeout) then (s.(locks := added), Completed(Throw(ArgumentOutOfRangeException)))
      else if !WaitReturns(added, key, timeout) then (s.(locks := added), Hangs)
      else
        // the wait takes a free semaphore and times out on a held one:
        // either way it is held afterwards
        var held := added[key := Held];
        var store := if meanwhile.Some? then s.store[key := meanwhile.value] else s.store;
        var second := Lookup(store, key);
        if second.hasValue then (Snapshot(store, held, s.invocations), Completed(Ok(second.value)))
        else
          var invoked := s.invocations + 1;
          match operation
          case Throw(e) => (Snapshot(store, held[key := Free], invoked), Completed(Throw(e)))
          case Ok(v) => (Snapshot(store[key := StoreEntry(v, duration)], s.locks - {key}, invoked), Completed(Ok(v)))
  }

  /** A cacheable invocation: `GetCacheAttribute`, then `GenerateCacheKey`,
      then `GetOrSet` with the policy's duration and the configured wait. */
  function HandleSpec<V>(s: Snapshot<V>, configuration: CachingConfigurationBlock, serialize: V -> string,
    methodName: string, policyKey: string, arguments: seq<Argument<V>>,
    meanwhile: Option<StoreEntry<V>>, operation: Result<Nullable<V>>): (Snapshot<V>, Completion<V>)
  {
    if policyKey !in configuration.itemsConfiguration then (s, Completed(Throw(KeyNotFoundException(policyKey))))
    else
      match GenerateCacheKey(methodName, policyKey, arguments, serialize)
      case Throw(e) => (s, Completed(Throw(e)))
      case Ok(key) =>
        GetOrSetSpec(s, key, configuration.itemsConfiguration[policyKey].duration,
          configuration.deadLockTimeOut, meanwhile, operation)
  }

  class AsyncCachingInterceptor<V> {
    /** The serialization provider, for arguments that are neither strings
        nor primitives. */
    const serialize: V -> string
    const configuration: CachingConfigurationBlock
    /** The caching provider's contents. */
    var store: Store<V>
    /** `cacheLocks`. */
    var locks: LockTable
    /** How many times the wrapped operation has run. */
    var invocations: nat

    function State(): Snapshot<V>
      reads this
    {
      Snapshot(store, locks, invocations)
    }

    /** The interceptor over a caching provider holding `store`; the lock
        table starts empty. */
    constructor (store: Store<V>, serialize: V -> string, configuration: CachingConfigurationBlock)
      ensures State() == Snapshot(store, map[], 0)
      ensures this.serialize == serialize && this.configuration == configuration
    {
      this.store := store;
      this.serialize := serialize;
      this.configuration := configuration;
      locks := map[];
      invocations := 0;
    }

    /** `GetCacheAttribute`: overwrites the attribute's duration and deep-copy
        flag with the configured policy of its key; a key without a policy
        throws before anything is written. */
    method GetCacheAttribute(cacheAttribute: CacheableAttribute) returns (r: Result<CacheableAttribute>)
      modifies cacheAttribute
      ensures r.Ok? <==> cacheAttribute.cacheKey in configuration.itemsConfiguration
      ensures r.Ok? ==>
        && r.value == cacheAttribute
        && cacheAttribute.duration == configuration.itemsConfiguration[cacheAttribute.cacheKey].duration
        && cacheAttribute.returnDeepCopy == configuration.itemsConfiguration[cacheAttribute.cacheKey].returnDeepCopy
      ensures r.Throw? ==> r.exception == KeyNotFoundException(cacheAttribute.cacheKey) && unchanged(cacheAttribute)
    {
      var items := configuration.itemsConfiguration;
      if cacheAttribute.cacheKey !in items {
        return Throw(KeyNotFoundException(cacheAttribute.cacheKey));
      }
      cacheAttribute.SetDuration(items[cacheAttribute.cacheKey].duration);
      cacheAttribute.SetReturnDeepCopy(items[cacheAttribute.cacheKey].returnDeepCopy);
      r := Ok(cacheAttribute);
    }

    /** `GetOrSet`: the blocking get-or-set. The semaphore is modelled as
        `SemaphoreSlim(1, 1)` behaves with no other caller running: `Wait`
        takes a free one and reports true, and on a held one times out,
        reports false and changes nothing; `Release` frees it, and would
        throw were it already free. */
    method GetOrSet(cacheKey: string, cacheAttribute: CacheableAttribute, meanwhile: Option<StoreEntry<V>>,
      operation: Result<Nullable<V>>) returns (r: Completion<V>)
      modifies this
      ensures (State(), r) == GetOrSetSpec(old(State()), cacheKey, cacheAttribute.duration,
        configuration.deadLockTimeOut, meanwhile, operation)
    {
      ghost var before := locks;
      var cacheValue := Lookup(store, cacheKey);
      if cacheValue.hasValue {
        return Completed(Ok(cacheValue.value));
      }
      // cacheLocks.GetOrAdd
      if cacheKey !in locks {
        locks := locks[cacheKey := Free];
      }
      // lockObj.Wait(DeadLockTimeOut); its result is not looked at
      if !WaitTimeoutInRange(configuration.deadLockTimeOut) {
        return Completed(Throw(ArgumentOutOfRangeException));
      }
      var acquired := locks[cacheKey] == Free;
      if configuration.deadLockTimeOut == -1 && !acquired {
        // an infinite wait on a semaphore nobody releases
        return Hangs;
      }
      locks := locks[cacheKey := Held];
      // what another caller stored while this one waited
      if meanwhile.Some? {
        store := store[cacheKey := meanwhile.value];
      }
      cacheValue := Lookup(store, cacheKey);
      if cacheValue.hasValue {
        return Completed(Ok(cacheValue.value));
      }
      // invocation.Proceed
      invocations := invocations + 1;
      if operation.Throw? {
        // catch: lockObj.Release, then rethrow
        assert locks[cacheKey] == Held;
        locks := locks[cacheKey := Free];
        return Completed(operation);
      }
      store := store[cacheKey := StoreEntry(operation.value, cacheAttribute.duration)];
      assert locks[cacheKey] == Held;
      locks := locks[cacheKey := Free];
      // cacheLocks.TryRemove
      locks := locks - {cacheKey};
      assert locks == before - {cacheKey};
      r := Completed(operation);
    }

    /** `GetOrSetAsync`: the same sequence with the reads, the wait, the
        operation and the store awaited; the value is returned from inside
        the `try`, after the release. */
    method GetOrSetAsync(fullCacheKey: string, cacheAttribute: CacheableAttribute,
      meanwhile: Option<StoreEntry<V>>, operation: Result<Nullable<V>>) returns (r: Completion<V>)
      modifies this
      ensures (State(), r) == GetOrSetSpec(old(State()), fullCacheKey, cacheAttribute.duration,
        configuration.deadLockTimeOut, meanwhile, operation)
    {
      ghost var before := locks;
      var cacheValue := Lookup(store, fullCacheKey);
      if cacheValue.hasValue {
        return Completed(Ok(cacheValue.value));
      }
      if fullCacheKey !in locks {
        locks := locks[fullCacheKey := Free];
      }
      // asyncLock.WaitAsync(DeadLockTimeOut); its result is not looked at
      if !WaitTimeoutInRange(configuration.deadLockTimeOut) {
        return Completed(Throw(ArgumentOutOfRangeException));
      }
      var acquired := locks[fullCacheKey] == Free;
      if configuration.deadLockTimeOut == -1 && !acquired {
        // an infinite wait on a semaphore nobody releases
        return Hangs;
      }
      locks := locks[fullCacheKey := Held];
      if meanwhile.Some? {
        store := store[fullCacheKey := meanwhile.value];
      }
      cacheValue := Lookup(store, fullCacheKey);
      if cacheValue.hasValue {
        return Completed(Ok(cacheValue.value));
      }
      invocations := invocations + 1;
      if operation.Ok? {
        var result := operation.value;
        store := store[fullCacheKey := StoreEntry(result, cacheAttribute.duration)];
        assert locks[fullCacheKey] == Held;
        locks := locks[fullCacheKey := Free];
        locks := locks - {fullCacheKey};
        assert locks == before - {fullCacheKey};
        return Completed(Ok(result));
      }
      // catch: asyncLock.Release, then rethrow
      assert locks[fullCacheKey] == Held;
      locks := locks[fullCacheKey := Free];
      r := Completed(operation);
    }

    /** `HandleCacheableInvocation`: policy, key, then `GetOrSet`. */
    method HandleCacheableInvocation(methodName: string, arguments: seq<Argument<V>>,
      cacheAttribute: CacheableAttribute, meanwhile: Option<StoreEntry<V>>, operation: Result<Nullable<V>>)
      returns (r: Completion<V>)
      modifies this, cacheAttribute
      ensures (State(), r) == HandleSpec(old(State()), configuration, serialize, methodName,
        cacheAttribute.cacheKey, arguments, meanwhile, operation)
      ensures cacheAttribute.cacheKey in configuration.itemsConfiguration ==>
        && cacheAttribute.duration == configuration.itemsConfiguration[cacheAttribute.cacheKey].duration
        && cacheAttribute.returnDeepCopy == configuration.itemsConfiguration[cacheAttribute.cacheKey].returnDeepCopy
      ensures cacheAttribute.cacheKey !in configuration.itemsConfiguration ==> unchanged(cacheAttribute)
    {
      var resolved := GetCacheAttribute(cacheAttribute);
      if resolved.Throw? {
        return Completed(Throw(resolved.exception));
      }
      var cacheKey := GenerateCacheKey(methodName, cacheAttribute.cacheKey, arguments, serialize);
      if cacheKey.Throw? {
        return Completed(Throw(cacheKey.exception));
      }
      r := GetOrSet(cacheKey.value, cacheAttribute, meanwhile, operation);
    }

    /** `HandleAsyncCacheableInvocation`: policy, key, then `GetOrSetAsync`. */
    method HandleAsyncCacheableInvocation(methodName: string, arguments: seq<Argument<V>>,
      cacheAttribute: CacheableAttribute, meanwhile: Option<StoreEntry<V>>, operation: Result<Nullable<V>>)
      returns (r: Completion<V>)
      modifies this, cacheAttribute
      ensures (State(), r) == HandleSpec(old(State()), configuration, serialize, methodName,
        cacheAttribute.cacheKey, arguments, meanwhile, operation)
      ensures cacheAttribute.cacheKey in configuration.itemsConfiguration ==>
        && cacheAttribute.duration == configuration.itemsConfiguration[cacheAttribute.cacheKey].duration
        && cacheAttribute.returnDeepCopy == configuration.itemsConfiguration[cacheAttribute.cacheKey].returnDeepCopy
      ensures cacheAttribute.cacheKey !in configuration.itemsConfiguration ==> unchanged(cacheAttribute)
    {
      var resolved := GetCacheAttribute(cacheAttribute);
      if resolved.Throw? {
        return Completed(Throw(resolved.exception));
      }
      var cacheKey := GenerateCacheKey(methodName, cacheAttribute.cacheKey, arguments, serialize);
      if cacheKey.Throw? {
        return Completed(Throw(cacheKey.exception));
      }
      r := GetOrSetAsync(cacheKey.value, cacheAttribute, meanwhile, operation);
    }

    /** `InterceptSynchronous`: a method without the cacheable attribute
        (`cacheAttribute == null`, so `ShouldIntercept` is false) just runs
        and touches neither the store nor the lock table. */
    method InterceptSynchronous(methodName: string, arguments: seq<Argument<V>>,
      cacheAttribute: CacheableAttribute?, meanwhile: Option<StoreEntry<V>>, operation: Result<Nullable<V>>)
      returns (r: Completion<V>)
      modifies this, cacheAttribute
      ensures cacheAttribute == null ==>
        r == Completed(operation) && store == old(store) && locks == old(locks) && invocations == old(invocations) + 1
      ensures cacheAttribute != null ==>
        (State(), r) == HandleSpec(old(State()), configuration, serialize, methodName,
          cacheAttribute.cacheKey, arguments, meanwhile, operation)
      ensures cacheAttribute != null && cacheAttribute.cacheKey in configuration.itemsConfiguration ==>
        && cacheAttribute.duration == configuration.itemsConfiguration[cacheAttribute.cacheKey].duration
        && cacheAttribute.returnDeepCopy == configuration.itemsConfiguration[cacheAttribute.cacheKey].returnDeepCopy
      ensures cacheAttribute != null && cacheAttribute.cacheKey !in configuration.itemsConfiguration ==>
        unchanged(cacheAttribute)
    {
      if cacheAttribute != null {
        r := HandleCacheableInvocation(methodName, arguments, cacheAttribute, meanwhile, operation);
        return;
      }
      // invocation.Proceed
      invocations := invocations + 1;
      r := Completed(operation);
    }

    /** `InterceptAsynchronous<TResult>`: the same, through the asynchronous
        get-or-set. */
    method InterceptAsynchronous(methodName: string, arguments: seq<Argument<V>>,
      cacheAttribute: CacheableAttribute?, meanwhile: Option<StoreEntry<V>>, operation: Result<Nullable<V>>)
      returns (r: Completion<V>)
      modifies this, cacheAttribute
      ensures cacheAttribute == null ==>
        r == Completed(operation) && store == old(store) && locks == old(locks) && invocations == old(invocations) + 1
      ensures cacheAttribute != null ==>
        (State(), r) == HandleSpec(old(State()), configuration, serialize, methodName,
          cacheAttribute.cacheKey, arguments, meanwhile, operation)
      ensures cacheAttribute != null && cacheAttribute.cacheKey in configuration.itemsConfiguration ==>
        && cacheAttribute.duration == configuration.itemsConfiguration[cacheAttribute.cacheKey].duration
        && cacheAttribute.returnDeepCopy == configuration.itemsConfiguration[cacheAttribute.cacheKey].returnDeepCopy
      ensures cacheAttribute != null && cacheAttribute.cacheKey !in configuration.itemsConfiguration ==>
        unchanged(cacheAttribute)
    {
      if cacheAttribute != null {
        r := HandleAsyncCacheableInvocation(methodName, arguments, cacheAttribute, meanwhile, operation);
        return;
      }
      invocations := invocations + 1;
      r := Completed(operation);
    }
  }


  /** Fast-path hit: the stored value is returned, the operation does not
      run, and neither the store nor the lock table changes. */
  lemma FastPathHit<V>(s: Snapshot<V>, key: string, duration: int, timeout: int,
    meanwhile: Option<StoreEntry<V>>, operation: Result<Nullable<V>>)
    requires key in s.store
    ensures GetOrSetSpec(s, key, duration, timeout, meanwhile, operation) == (s, Completed(Ok(s.store[key].value)))
  {
  }

  /** A call never returns exactly when it misses, its wait has no bound,
      and the key's semaphore is already held; it has then run nothing and
      stored nothing. */
  lemma HangsExactlyOnUnboundedWaitForHeld<V>(s: Snapshot<V>, key: string, duration: int, timeout: int,
    meanwhile: Option<StoreEntry<V>>, operation: Result<Nullable<V>>)
    ensures
      var (t, r) := GetOrSetSpec(s, key, duration, timeout, meanwhile, operation);
      && (r == Hangs <==> key !in s.store && timeout == -1 && !CanAcquire(s.locks, key))
      && (r == Hangs ==> t == s)
  {
  }

  /** With the default wait bound, zero, no call waits at all, so none hangs. */
  lemma DefaultWaitNeverHangs<V>(s: Snapshot<V>, key: string, duration: int,
    meanwhile: Option<StoreEntry<V>>, operation: Result<Nullable<V>>)
    ensures GetOrSetSpec(s, key, duration, DefaultDeadLockTimeOut, meanwhile, operation).1.Completed?
  {
  }

  /** Miss on both reads: the operation runs once, its value is stored under
      the key with the policy's duration and returned, the semaphore is
      released and its entry removed, and no other key changes. */
  lemma MissOnBothReads<V>(s: Snapshot<V>, key: string, duration: int, timeout: int, value: Nullable<V>)
    requires key !in s.store && WaitReturns(s.locks, key, timeout)
    ensures
      var (t, r) := GetOrSetSpec(s, key, duration, timeout, None, Ok(value));
      && r == Completed(Ok(value))
      && t.invocations == s.invocations + 1
      && t.store == s.store[key := StoreEntry(value, duration)]
      && t.locks == s.locks - {key}
  {
  }

  /** The operation fails: nothing is stored, the failure is rethrown, and
      the semaphore is released but its entry stays in the lock table. */
  lemma OperationFailure<V>(s: Snapshot<V>, key: string, duration: int, timeout: int, e: Exception)
    requires key !in s.store && WaitReturns(s.locks, key, timeout)
    ensures
      var (t, r) := GetOrSetSpec(s, key, duration, timeout, None, Throw(e));
      && r == Completed(Throw(e))
      && t.invocations == s.invocations + 1
      && t.store == s.store
      && t.locks == s.locks[key := Free]
  {
    var added := if key in s.locks then s.locks else s.locks[key := Free];
    assert added[key := Held][key := Free] == s.locks[key := Free];
  }

  /** A hit on the second read: the value another caller stored is returned
      without running the operation, and the semaphore stays held with its
      entry kept, whether or not the wait took it. */
  lemma DoubleCheckHit<V>(s: Snapshot<V>, key: string, duration: int, timeout: int,
    entry: StoreEntry<V>, operation: Result<Nullable<V>>)
    requires key !in s.store && WaitReturns(s.locks, key, timeout)
    ensures
      var (t, r) := GetOrSetSpec(s, key, duration, timeout, Some(entry), operation);
      && r == Completed(Ok(entry.value))
      && t.invocations == s.invocations
      && t.store == s.store[key := entry]
      && t.locks == s.locks[key := Held]
  {
    var added := if key in s.locks then s.locks else s.locks[key := Free];
    assert added[key := Held] == s.locks[key := Held];
  }

  /** The wait's result is ignored: with the key's semaphore already held, a
      bounded wait times out, the operation runs all the same, and afterwards
      the caller releases the semaphore it never took; an unbounded wait
      never returns. */
  lemma RunsWithoutTheSemaphore<V>(s: Snapshot<V>, key: string, duration: int, timeout: int,
    operation: Result<Nullable<V>>)
    requires key !in s.store && !CanAcquire(s.locks, key) && WaitTimeoutInRange(timeout)
    ensures
      var (t, r) := GetOrSetSpec(s, key, duration, timeout, None, operation);
      && (timeout == -1 ==> t == s && r == Hangs)
      && (timeout != -1 ==>
            && r == Completed(operation)
            && t.invocations == s.invocations + 1
            && t.locks == if operation.Ok? then s.locks - {key} else s.locks[key := Free])
  {
    assert s.locks[key := Held][key := Free] == s.locks[key := Free];
  }

  /** A wait bound `SemaphoreSlim` refuses throws before the `try`: nothing
      is released and the new entry stays. */
  lemma TimeoutOutOfRange<V>(s: Snapshot<V>, key: string, duration: int, timeout: int,
    meanwhile: Option<StoreEntry<V>>, operation: Result<Nullable<V>>)
    requires key !in s.store && !WaitTimeoutInRange(timeout)
    ensures
      var (t, r) := GetOrSetSpec(s, key, duration, timeout, meanwhile, operation);
      && r == Completed(Throw(ArgumentOutOfRangeException))
      && t.store == s.store && t.invocations == s.invocations
      && key in t.locks && t.locks - {key} == s.locks - {key}
  {
    var added := if key in s.locks then s.locks else s.locks[key := Free];
    assert added - {key} == s.locks - {key};
  }

  /** A call touches its own key only, and runs the operation at most once. */
  lemma OnlyItsKeyChanges<V>(s: Snapshot<V>, key: string, duration: int, timeout: int,
    meanwhile: Option<StoreEntry<V>>, operation: Result<Nullable<V>>)
    ensures
      var (t, r) := GetOrSetSpec(s, key, duration, timeout, meanwhile, operation);
      && t.store - {key} == s.store - {key}
      && t.locks - {key} == s.locks - {key}
      && s.invocations <= t.invocations <= s.invocations + 1
  {
    var added := if key in s.locks then s.locks else s.locks[key := Free];
    assert added - {key} == s.locks - {key};
    assert added[key := Held] - {key} == s.locks - {key};
    assert added[key := Held][key := Free] - {key} == s.locks - {key};
    var store := if meanwhile.Some? then s.store[key := meanwhile.value] else s.store;
    assert store - {key} == s.store - {key};
    if operation.Ok? {
      assert store[key := StoreEntry(operation.value, duration)] - {key} == s.store - {key};
    }
  }

  /** Once a miss has stored a value, the next call for the key is a
      fast-path hit that returns it without running the operation. */
  lemma HitAfterPopulate<V>(s: Snapshot<V>, key: string, duration: int, timeout: int, value: Nullable<V>,
    duration2: int, timeout2: int, meanwhile2: Option<StoreEntry<V>>, operation2: Result<Nullable<V>>)
    requires key !in s.store && WaitReturns(s.locks, key, timeout)
    ensures
      var (s1, r1) := GetOrSetSpec(s, key, duration, timeout, None, Ok(value));
      GetOrSetSpec(s1, key, duration2, timeout2, meanwhile2, operation2) == (s1, Completed(Ok(value)))
  {
    MissOnBothReads(s, key, duration, timeout, value);
  }

  /** Failures are not cached: after a failed call the next call for the key
      runs the operation again, and its value is stored. */
  lemma FailureIsRetried<V>(s: Snapshot<V>, key: string, duration: int, timeout: int, e: Exception,
    value: Nullable<V>)
    requires key !in s.store && WaitReturns(s.locks, key, timeout)
    ensures
      var (s1, r1) := GetOrSetSpec(s, key, duration, timeout, None, Throw(e));
      var (s2, r2) := GetOrSetSpec(s1, key, duration, timeout, None, Ok(value));
      && r1 == Completed(Throw(e)) && r2 == Completed(Ok(value))
      && s2.invocations == s.invocations + 2
      && s2.store == s.store[key := StoreEntry(value, duration)]
      && key !in s2.locks
  {
    OperationFailure(s, key, duration, timeout, e);
    var s1 := GetOrSetSpec(s, key, duration, timeout, None, Throw(e)).0;
    MissOnBothReads(s1, key, duration, timeout, value);
  }

  /** A semaphore left held by a double-check hit is never taken again: once
      the stored value is gone (expired or evicted), the next miss finds it
      held; with a bounded wait it times out and runs the operation without
      it, with an unbounded wait it never returns. */
  lemma LeakedSemaphoreIsNeverRetaken<V>(s: Snapshot<V>, key: string, duration: int, timeout: int,
    entry: StoreEntry<V>, value: Nullable<V>)
    requires key !in s.store && key !in s.locks && WaitTimeoutInRange(timeout)
    ensures
      var (s1, r1) := GetOrSetSpec(s, key, duration, timeout, Some(entry), Ok(value));
      var evicted := s1.(store := s1.store - {key});
      var (s2, r2) := GetOrSetSpec(evicted, key, duration, timeout, None, Ok(value));
      && r1 == Completed(Ok(entry.value))
      && key in s1.locks && !CanAcquire(evicted.locks, key)
      && (timeout == -1 ==> r2 == Hangs && s2.invocations == s.invocations)
      && (timeout != -1 ==> r2 == Completed(Ok(value)) && s2.invocations == s.invocations + 1)
  {
    DoubleCheckHit(s, key, duration, timeout, entry, Ok(value));
    var s1 := GetOrSetSpec(s, key, duration, timeout, Some(entry), Ok(value)).0;
    RunsWithoutTheSemaphore(s1.(store := s1.store - {key}), key, duration, timeout, Ok(value));
  }

  /** A policy key without configuration is an error, not a miss: nothing is
      read, stored or run. */
  lemma MissingPolicyIsAnError<V>(s: Snapshot<V>, configuration: CachingConfigurationBlock,
    serialize: V -> string, methodName: string, policyKey: string, arguments: seq<Argument<V>>,
    meanwhile: Option<StoreEntry<V>>, operation: Result<Nullable<V>>)
    requires policyKey !in configuration.itemsConfiguration
    ensures HandleSpec(s, configuration, serialize, methodName, policyKey, arguments, meanwhile, operation)
      == (s, Completed(Throw(KeyNotFoundException(policyKey))))
  {
  }

  /** A call with a null argument throws and changes nothing. Without a
      policy the error is the policy lookup's; with one, and distinct
      parameter names, it is the null-reference error from building the
      key. */
  lemma NullArgumentIsAnError<V>(s: Snapshot<V>, configuration: CachingConfigurationBlock,
    serialize: V -> string, methodName: string, policyKey: string, arguments: seq<Argument<V>>,
    meanwhile: Option<StoreEntry<V>>, operation: Result<Nullable<V>>, i: nat)
    requires i < |arguments| && arguments[i].value.NullArg?
    ensures
      var (t, r) := HandleSpec(s, configuration, serialize, methodName, policyKey, arguments, meanwhile, operation);
      && t == s && r.Completed? && r.result.Throw?
      && (policyKey !in configuration.itemsConfiguration ==> r.result == Throw(KeyNotFoundException(policyKey)))
      && (policyKey in configuration.itemsConfiguration && NamesDistinct(arguments) ==>
            r.result == Throw(NullReferenceException))
  {
    NullArgumentFailsKey(methodName, policyKey, arguments, serialize, i);
  }

  /** On a miss the value is stored under the generated key with the
      duration configured for the policy key. */
  lemma MissStoresWithPolicyDuration<V>(s: Snapshot<V>, configuration: CachingConfigurationBlock,
    serialize: V -> string, methodName: string, policyKey: string, arguments: seq<Argument<V>>,
    value: Nullable<V>, key: string)
    requires policyKey in configuration.itemsConfiguration
    requires GenerateCacheKey(methodName, policyKey, arguments, serialize) == Ok(key)
    requires key !in s.store && WaitReturns(s.locks, key, configuration.deadLockTimeOut)
    ensures
      var (t, r) := HandleSpec(s, configuration, serialize, methodName, policyKey, arguments, None, Ok(value));
      && r == Completed(Ok(value))
      && t.store == s.store[key := StoreEntry(value, configuration.itemsConfiguration[policyKey].duration)]
  {
  }
}
