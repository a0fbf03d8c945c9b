# SharpCachingAop interceptor, modelled in Dafny

SharpCachingAop caches the results of methods marked `[Cacheable("policy")]`.
The work is done by a Castle DynamicProxy interceptor, `AsyncCachingInterceptor`.
For each intercepted call it does three things:

- It resolves the policy key against `CachingConfigurationBlock.ItemsConfiguration`, which gives a duration.
- It builds a cache key of the form `Method:policy:[name,type,value]:...`.
- It runs a get-or-set sequence:
  1. read the cache;
  2. on a miss, take the key's `SemaphoreSlim` from a lock table;
  3. read again;
  4. run the method;
  5. store its result with the policy's duration;
  6. release the semaphore and drop it from the table.

The model covers the interceptor (`AsyncCachingInterceptor.cs`), the cache-lookup result (`CacheItem.cs`) and the attribute (`CacheableAttribute.cs`).

| file | module | contents |
|---|---|---|
| `outcomes.dfy` | `Outcomes` | nullable references, `Option`, the exceptions that leave the interceptor, and `Result` (returned or thrown) |
| `configuration.dfy` | `Configuration` | `CacheSettings` and `CachingConfigurationBlock` as plain data |
| `cache_item.dfy` | `Caching` | `CacheItem` as a value, and its `ToString` |
| `cacheable_attribute.dfy` | `Attributes` | `CacheableAttribute` as a class: a fixed key and two settable properties |
| `cache_keys.dfy` | `CacheKeys` | the pure key builder: `FormatArgumentValue`, `GetMethodArguments` (`ToDictionary`), `GenerateCacheKey` |
| `interceptor.dfy` | `Interceptors` | the spec functions `GetOrSetSpec` and `HandleSpec`, the class `AsyncCachingInterceptor`, and lemmas about single calls and pairs of calls |
| `guarded.dfy` | `GuardedCoordinator` | the get-or-set with the locking corrected (see Findings), and lemmas over runs of calls |

How the class works:

- Its fields are the cache store, the lock table (`cacheLocks`) and a count of how often the wrapped operation has run.
- Each get-or-set and handle method is proved to leave exactly the state, and return exactly the result, that `GetOrSetSpec` or `HandleSpec` gives for the old state. `GetCacheAttribute`, the constructor and the bypass branch of the `Intercept*` methods have contracts of their own.
- The lemmas say what those functions guarantee.

One caller runs at a time. Each semaphore is either `Free` or `Held`:

- A wait on a free semaphore takes it.
- A bounded wait on a held semaphore times out, and the source carries on regardless.
- An unbounded wait (-1) on a held semaphore never returns. The call then ends in `Hangs` instead of a result.
- What another caller may store under the key while this one waits is an input (`meanwhile`), seen by the second read.

The class keeps the source's behaviour as written, including the defects listed under Findings. `GuardedCoordinator` gives the corrected sequence. With a bounded wait it proves the correction changes only the locking; at -1 the correction also removes the hang.

## Model

| member | source | states |
|---|---|---|
| `Caching.ToString` | SharpCachingAop/SharpCachingAop/Caching/CacheItem.cs:34-37 | a non-null value with non-null text prints as that text; the result is `<null>` exactly when the value is null, or its text is null or is itself `<null>` |
| `Caching.ToStringIgnoresHasValue` | SharpCachingAop/SharpCachingAop/Caching/CacheItem.cs:24-37 | the text reads the value only, never `HasValue`; an item whose value is null prints `<null>` |
| `Attributes.CacheableAttribute.constructor` | SharpCachingAop/SharpCachingAop/Attributes/CacheableAttribute.cs:12-34 | the key is the one given; the duration defaults to zero and the deep-copy flag to false |
| `Attributes.CacheableAttribute.SetDuration` | SharpCachingAop/SharpCachingAop/Attributes/CacheableAttribute.cs:17 | sets the duration and leaves the deep-copy flag alone |
| `Attributes.CacheableAttribute.SetReturnDeepCopy` | SharpCachingAop/SharpCachingAop/Attributes/CacheableAttribute.cs:25 | sets the deep-copy flag and leaves the duration alone |
| `CacheKeys.FormatArgumentValue` | SharpCachingAop/SharpCachingAop/Interceptors/AsyncCachingInterceptor.cs:189-195 | fails exactly on a null argument, with a null-reference error; otherwise the fragment is bracketed and starts with the parameter name; it ends with the argument's own text for strings and primitives, and with the serializer's text for other objects |
| `CacheKeys.FragmentNamesType` | SharpCachingAop/SharpCachingAop/Interceptors/AsyncCachingInterceptor.cs:191-194 | between the parameter name and the text, a fragment carries the argument's type name between commas (`System.String` for a string) and nothing else: its length is the bracket, name, commas, type name, text and bracket, so with `FormatArgumentValue`'s contract the fragment is exactly `[name,type,text]` |
| `CacheKeys.ToDictionary` | SharpCachingAop/SharpCachingAop/Interceptors/AsyncCachingInterceptor.cs:178-184 | the dictionary built in parameter order; what it contains and when it throws is stated by `CacheKeys.ToDictionaryCharacterized` |
| `CacheKeys.GetMethodArguments` | SharpCachingAop/SharpCachingAop/Interceptors/AsyncCachingInterceptor.cs:176-187 | `ToDictionary` from no names seen; see `CacheKeys.ToDictionaryCharacterized` |
| `CacheKeys.Join` | SharpCachingAop/SharpCachingAop/Interceptors/AsyncCachingInterceptor.cs:170 | `string.Join`; what it gives over the fragments is stated by `CacheKeys.GenerateCacheKeyCharacterized`, `CacheKeys.KeyWithoutArguments`, `CacheKeys.KeyOfOneArgument` and `CacheKeys.KeyOfTwoArguments` |
| `CacheKeys.GenerateCacheKey` | SharpCachingAop/SharpCachingAop/Interceptors/AsyncCachingInterceptor.cs:165-174 | the key builder; stated by `CacheKeys.GenerateCacheKeyCharacterized` and the key lemmas below |
| `CacheKeys.ToDictionaryCharacterized` | SharpCachingAop/SharpCachingAop/Interceptors/AsyncCachingInterceptor.cs:176-187 | building the name-to-fragment dictionary succeeds exactly when no argument is null and no parameter name repeats; it then holds one entry per argument, in parameter order, with that argument's fragment |
| `CacheKeys.GenerateCacheKeyCharacterized` | SharpCachingAop/SharpCachingAop/Interceptors/AsyncCachingInterceptor.cs:165-174 | a key is built exactly when no argument is null and names are distinct, and it is `method:policy:` followed by the fragments joined by `:` |
| `CacheKeys.KeyWithoutArguments` | SharpCachingAop/SharpCachingAop/Interceptors/AsyncCachingInterceptor.cs:167-172 | a method without arguments gets `method:policy:`, with a trailing colon |
| `CacheKeys.ToDictionaryNullIsNullReference` | SharpCachingAop/SharpCachingAop/Interceptors/AsyncCachingInterceptor.cs:184-191 | with no parameter name repeated, a null argument makes building the dictionary throw the null-reference error |
| `CacheKeys.NullArgumentFailsKey` | SharpCachingAop/SharpCachingAop/Interceptors/AsyncCachingInterceptor.cs:184-191 | any null argument makes key generation throw; with distinct parameter names the error is the null-reference one |
| `CacheKeys.ToDictionarySerializerAgnostic` | SharpCachingAop/SharpCachingAop/Interceptors/AsyncCachingInterceptor.cs:176-195 | two serializers that agree on every object argument build the same dictionary |
| `CacheKeys.KeySerializerAgnostic` | SharpCachingAop/SharpCachingAop/Interceptors/AsyncCachingInterceptor.cs:165-195 | two serializers that agree on every object argument build the same key |
| `CacheKeys.KeyOfOneArgument` | SharpCachingAop/SharpCachingAop/Interceptors/AsyncCachingInterceptor.cs:165-195 | the key of a call with one non-null argument is `method:policy:` followed by its fragment |
| `CacheKeys.KeyOfTwoArguments` | SharpCachingAop/SharpCachingAop/Interceptors/AsyncCachingInterceptor.cs:165-195 | the key of a call with two non-null, differently named arguments is `method:policy:` followed by the two fragments joined by `:` |
| `CacheKeys.SingleArgumentKeysDiffer` | SharpCachingAop/SharpCachingAop/Interceptors/AsyncCachingInterceptor.cs:165-192 | for one primitive argument of a given name and type, different texts give different keys |
| `CacheKeys.SingleStringArgumentKeysDiffer` | SharpCachingAop/SharpCachingAop/Interceptors/AsyncCachingInterceptor.cs:165-192 | for one string argument of a given name, different strings give different keys |
| `CacheKeys.KeysCanCollide` | SharpCachingAop/SharpCachingAop/Interceptors/AsyncCachingInterceptor.cs:170-192 | keys are not injective across overloads of one name and policy: one string argument containing `]:[b,System.String,` gets the same key as two arguments `a` and `b` |
| `CacheKeys.SameArityKeysCollide` | SharpCachingAop/SharpCachingAop/Interceptors/AsyncCachingInterceptor.cs:170-192 | keys collide within one method `M(string a, string b)`: `(x + g + y, z)` and `(x, y + g + z)`, with `g` = `]:[b,System.String,`, get the same key |
| `Interceptors.GetOrSetSpec` | SharpCachingAop/SharpCachingAop/Interceptors/AsyncCachingInterceptor.cs:98-163 | the get-or-set as written, over the store, the lock table and the run count; what it promises is stated by `Interceptors.FastPathHit` through `Interceptors.LeakedSemaphoreIsNeverRetaken` below |
| `Interceptors.HandleSpec` | SharpCachingAop/SharpCachingAop/Interceptors/AsyncCachingInterceptor.cs:70-96 | policy lookup, key building, then the get-or-set with the policy's duration; stated by `Interceptors.MissingPolicyIsAnError`, `Interceptors.NullArgumentIsAnError` and `Interceptors.MissStoresWithPolicyDuration` |
| `Interceptors.AsyncCachingInterceptor.constructor` | SharpCachingAop/SharpCachingAop/Interceptors/AsyncCachingInterceptor.cs:18-26 | starts over the given store, serializer and configuration, with an empty lock table and no runs |
| `Interceptors.AsyncCachingInterceptor.GetCacheAttribute` | SharpCachingAop/SharpCachingAop/Interceptors/AsyncCachingInterceptor.cs:87-96 | succeeds exactly when the attribute's key has a policy, and then overwrites the duration and deep-copy flag with the policy's; otherwise throws `KeyNotFoundException` for that key and leaves the attribute unchanged |
| `Interceptors.AsyncCachingInterceptor.GetOrSet` | SharpCachingAop/SharpCachingAop/Interceptors/AsyncCachingInterceptor.cs:98-128 | the new store, lock table, run count and outcome are those `GetOrSetSpec` gives for the old state |
| `Interceptors.AsyncCachingInterceptor.GetOrSetAsync` | SharpCachingAop/SharpCachingAop/Interceptors/AsyncCachingInterceptor.cs:130-163 | the asynchronous sequence has the same effect and outcome as `GetOrSetSpec` |
| `Interceptors.AsyncCachingInterceptor.HandleCacheableInvocation` | SharpCachingAop/SharpCachingAop/Interceptors/AsyncCachingInterceptor.cs:70-76 | the effect and outcome are those of `HandleSpec` (policy, then key, then get-or-set); with a policy, the attribute carries the policy's duration and deep-copy flag, and without one it is unchanged |
| `Interceptors.AsyncCachingInterceptor.HandleAsyncCacheableInvocation` | SharpCachingAop/SharpCachingAop/Interceptors/AsyncCachingInterceptor.cs:78-85 | the same, through the asynchronous get-or-set |
| `Interceptors.AsyncCachingInterceptor.InterceptSynchronous` | SharpCachingAop/SharpCachingAop/Interceptors/AsyncCachingInterceptor.cs:29-38 | without the attribute (`ShouldIntercept` false, lines 64-68), the method runs once and the store and lock table are untouched; with it, the call is handled as `HandleSpec` says and the attribute is resolved as in `HandleCacheableInvocation` |
| `Interceptors.AsyncCachingInterceptor.InterceptAsynchronous` | SharpCachingAop/SharpCachingAop/Interceptors/AsyncCachingInterceptor.cs:51-60 | the same for `InterceptAsynchronous<TResult>` |
| `Interceptors.FastPathHit` | SharpCachingAop/SharpCachingAop/Interceptors/AsyncCachingInterceptor.cs:100-103 | a stored key is answered from the store; nothing runs and no state changes |
| `Interceptors.HangsExactlyOnUnboundedWaitForHeld` | SharpCachingAop/SharpCachingAop/Interceptors/AsyncCachingInterceptor.cs:105-107 | a call never returns exactly when it misses, its wait bound is -1 and the key's semaphore is already held; it has then run and stored nothing |
| `Interceptors.DefaultWaitNeverHangs` | SharpCachingAop/SharpCachingAop/Configuration/CachingConfigurationBlock.cs:12-14 | with the default wait bound, zero, every call returns |
| `Interceptors.MissOnBothReads` | SharpCachingAop/SharpCachingAop/Interceptors/AsyncCachingInterceptor.cs:105-127 | a miss on both reads runs the operation once, stores its value under the key with the policy's duration, returns it, and removes the key's semaphore from the table |
| `Interceptors.OperationFailure` | SharpCachingAop/SharpCachingAop/Interceptors/AsyncCachingInterceptor.cs:115-125 | a failing operation is rethrown, nothing is stored, and the semaphore is released but its entry stays in the table |
| `Interceptors.DoubleCheckHit` | SharpCachingAop/SharpCachingAop/Interceptors/AsyncCachingInterceptor.cs:105-113 | a hit on the second read returns the other caller's value without running the operation, and leaves the semaphore held |
| `Interceptors.RunsWithoutTheSemaphore` | SharpCachingAop/SharpCachingAop/Interceptors/AsyncCachingInterceptor.cs:105-125 | when the key's semaphore is already held, a bounded wait times out, the operation still runs, and the caller then releases the semaphore it never took; at -1 the call never returns |
| `Interceptors.TimeoutOutOfRange` | SharpCachingAop/SharpCachingAop/Interceptors/AsyncCachingInterceptor.cs:105-107 | a wait bound outside -1 to `Int32.MaxValue` ms throws before anything runs, and leaves the new table entry |
| `Interceptors.OnlyItsKeyChanges` | SharpCachingAop/SharpCachingAop/Interceptors/AsyncCachingInterceptor.cs:98-128 | a call changes the store and the lock table at its own key only, and runs the operation at most once |
| `Interceptors.HitAfterPopulate` | SharpCachingAop/SharpCachingAop/Interceptors/AsyncCachingInterceptor.cs:98-128 | after a miss has stored a value, the next call for the key returns it with no run and no state change |
| `Interceptors.FailureIsRetried` | SharpCachingAop/SharpCachingAop/Interceptors/AsyncCachingInterceptor.cs:115-125 | a failure is not cached: the next call runs the operation again and stores its value, which leaves the key out of the table |
| `Interceptors.LeakedSemaphoreIsNeverRetaken` | SharpCachingAop/SharpCachingAop/Interceptors/AsyncCachingInterceptor.cs:105-115 | after a second-read hit and an eviction, the next miss finds the semaphore held: with a bounded wait it runs the operation without it, and at -1 it never returns |
| `Interceptors.MissingPolicyIsAnError` | SharpCachingAop/SharpCachingAop/Interceptors/AsyncCachingInterceptor.cs:92 | a policy key with no configuration throws `KeyNotFoundException`; nothing is read, stored or run |
| `Interceptors.NullArgumentIsAnError` | SharpCachingAop/SharpCachingAop/Interceptors/AsyncCachingInterceptor.cs:70-92 | a call with a null argument throws and changes nothing: `KeyNotFoundException` when the policy is missing (line 92), and otherwise, with distinct parameter names, the null-reference error from building the key (line 73) |
| `Interceptors.MissStoresWithPolicyDuration` | SharpCachingAop/SharpCachingAop/Interceptors/AsyncCachingInterceptor.cs:70-117 | on a miss, the value is stored under the generated key with the duration of the call's policy |
| `GuardedCoordinator.GuardedGetOrSetSpec` | SharpCachingAop/SharpCachingAop/Interceptors/AsyncCachingInterceptor.cs:105-125 | corrected get-or-set: the source's steps, with the release and the removal done by the owner only, on every exit; stated by the lemmas below |
| `GuardedCoordinator.GuardedReleasesOnlyWhenAcquired` | SharpCachingAop/SharpCachingAop/Interceptors/AsyncCachingInterceptor.cs:105-125 | corrected: the caller that took the semaphore removes it on every exit; a caller whose wait timed out leaves the table as it was |
| `GuardedCoordinator.GuardedKeepsNoneHeld` | SharpCachingAop/SharpCachingAop/Interceptors/AsyncCachingInterceptor.cs:105-125 | corrected: no call leaves a semaphore held behind it, and with none held no call hangs |
| `GuardedCoordinator.SourceLeavesSemaphoreHeld` | SharpCachingAop/SharpCachingAop/Interceptors/AsyncCachingInterceptor.cs:112-113 | as written, a hit on the second read leaves a held semaphore in the table |
| `GuardedCoordinator.GuardedAgreesWithSource` | SharpCachingAop/SharpCachingAop/Interceptors/AsyncCachingInterceptor.cs:98-128 | with a bounded wait, corrected and as-written calls return the same result, store and run count, whatever the lock tables |
| `GuardedCoordinator.RunGuarded` | SharpCachingAop/SharpCachingAop/Interceptors/AsyncCachingInterceptor.cs:98-128 | calls and expiries one after another through the corrected coordinator; stated by `GuardedCoordinator.RunGuardedNeverLeaks` |
| `GuardedCoordinator.RunSource` | SharpCachingAop/SharpCachingAop/Interceptors/AsyncCachingInterceptor.cs:98-128 | the same through the source's coordinator; compared by `GuardedCoordinator.RunGuardedAgreesWithSource` and `GuardedCoordinator.UnboundedWaitHangsOnlyInSource` |
| `GuardedCoordinator.RunGuardedNeverLeaks` | SharpCachingAop/SharpCachingAop/Interceptors/AsyncCachingInterceptor.cs:98-128 | corrected: any run of calls and expiries from a table with nothing held ends with nothing held, no call hangs, and the operation runs at most once per call |
| `GuardedCoordinator.RunGuardedAgreesWithSource` | SharpCachingAop/SharpCachingAop/Interceptors/AsyncCachingInterceptor.cs:98-163 | with a bounded wait, over any run, the corrected coordinator gives the same answers, final store and run count as the source |
| `GuardedCoordinator.UnboundedWaitHangsOnlyInSource` | SharpCachingAop/SharpCachingAop/Interceptors/AsyncCachingInterceptor.cs:105-113 | at -1, a second-read hit, an expiry and a miss leave the source's third call waiting forever; the corrected coordinator answers it |

## Left out

- Concurrency: callers run one at a time. A concurrent caller appears only as the `meanwhile` value, seen by the second read.
- Blocking: a bounded wait on a held semaphore times out at once in the model, not after the bound. No other caller exists to release the semaphore later. An unbounded wait (-1) on a held semaphore is therefore the outcome `Hangs`.
- `WaitAsync` and `await`: the asynchronous path is modelled with the same one-step semantics as the synchronous one.
- `SemaphoreFullException`: with one caller it cannot arise, because every `Release` in the model finds the semaphore held.
- Provider failures: the store's `Get` and `Set` never throw in the model. The source's `catch` (lines 121-125 and 158-162) also covers a `Set` that throws. For example, a memory cache refuses a relative expiration that is not positive, and `CacheSettings.Duration` defaults to zero. That path would rethrow after a release, with the operation run and nothing stored.
- Miss values: a miss carries null, the default of `object` that `Get<object>` returns. `GetAsync<TResult>` for a value type returns that type's default instead. The interceptor never reads the value of a miss, so no result changes.
- `InterceptAsynchronous(IInvocation)`, the `async void` overload at lines 40-49: its exceptions go to the synchronisation context, which the model has no counterpart for. Its caching path is `HandleAsyncCacheableInvocation`, which is modelled.
- `ShouldIntercept` is modelled by whether the attribute reference is null, not by reflection over `MethodInvocationTarget ?? Method`.
- Caching providers (in-memory and EasyCaching) are a map from key to value and duration. Expiry by time is not modelled. It appears as an explicit eviction in `LeakedSemaphoreIsNeverRetaken` and as `Expire` steps in runs of calls.
- `GetAsync<TResult>` reading a value of another type is not modelled.
- Durations and timeouts are integers. A duration is an opaque tick count. A timeout is milliseconds, checked against -1 to `Int32.MaxValue`.
- Type names and the `ToString` text of primitives come from the runtime. They are inputs to `Primitive`/`Object`, except `System.String`.
- `NullReferenceException` carries no data; the model does not say which argument was null.
- The serialization provider is an uninterpreted function `V -> string`.
- A null `ItemsConfiguration` is not modelled: the map is always present.
- `ReturnDeepCopy` is carried and set, but no deep copy is made. The source does not make one either.
- Dependency-injection wiring and the Castle proxy machinery are not part of this model.
- `CacheKeys.GenerateCacheKey`: keys are not injective, as `KeysCanCollide` (across overloads) and `SameArityKeysCollide` (within one method) show, so two different calls may share a cached value.

## Findings

| source | as written | input that shows it | evidently intended | confidence | as-written member | corrected member |
|---|---|---|---|---|---|---|
| SharpCachingAop/SharpCachingAop/Interceptors/AsyncCachingInterceptor.cs:112-113, 123 (and 146-147, 159) | a hit on the second read returns from inside the `try` without `Release` or `TryRemove`, so the semaphore stays held in `cacheLocks`. The `catch` (line 123, and line 159) releases without `TryRemove`, so a failed call leaves a free entry in `cacheLocks` | the key misses on the first read (line 100). Another caller then stores the key and runs its `Release` and `TryRemove`, all before this caller's `GetOrAdd` (line 105), or stores it through another interceptor instance that shares the store. This caller creates a new semaphore, takes it, and hits on the second read. Later the entry expires. The next miss then finds the semaphore held: with a bounded `DeadLockTimeOut` it waits out the bound and runs unguarded, and at -1 it never returns. Separately, any call whose operation throws leaves its key's free semaphore in `cacheLocks` | every exit after the wait releases the semaphore and removes it, as a `finally` would | high, not executed | `GuardedCoordinator.SourceLeavesSemaphoreHeld`, `Interceptors.LeakedSemaphoreIsNeverRetaken`, `Interceptors.OperationFailure` | `GuardedCoordinator.GuardedKeepsNoneHeld`, `GuardedCoordinator.GuardedReleasesOnlyWhenAcquired`, `GuardedCoordinator.RunGuardedNeverLeaks`, `GuardedCoordinator.UnboundedWaitHangsOnlyInSource` |
| SharpCachingAop/SharpCachingAop/Interceptors/AsyncCachingInterceptor.cs:107, 118-123 (and 141, 153-160) | the result of `Wait` is dropped; a caller whose wait timed out still runs `Release` and `TryRemove` on a semaphore it does not hold | caller A holds the key's semaphore and is running the operation. Caller B misses and its wait times out; at the default bound 0 (`CachingConfigurationBlock.cs:12-14`) any second concurrent miss does. B runs, then calls `Release`, which brings the count to 1, and `TryRemove` (lines 118-119), so later callers create a fresh semaphore while A is still running. A reaches line 118 and finds the count already at 1, so its `Release` throws `SemaphoreFullException`. The `catch` calls `Release` again (line 123), which throws again. A's caller gets `SemaphoreFullException` although A's value was stored. That consequence needs two callers at once and is not modelled | running without the semaphore after a timeout fits the "no locking by default" setting (`CachingConfigurationBlock.cs:12-14`), but only the caller that took the semaphore releases it | medium, not executed | `Interceptors.RunsWithoutTheSemaphore` | `GuardedCoordinator.GuardedReleasesOnlyWhenAcquired` |

With a bounded wait, `GuardedCoordinator.GuardedAgreesWithSource` and `GuardedCoordinator.RunGuardedAgreesWithSource` show that the correction changes only the lock table. Results, the store and run counts are the same. That holds because, in this one-caller model, the lock table decides nothing except whether an unbounded wait returns. It is not evidence about how the two versions behave under real concurrency. At -1 the correction also removes the hang (`GuardedCoordinator.UnboundedWaitHangsOnlyInSource`).
