# addcache: a verified model of the in-memory cache

This project models `cache.go` of `addit-digital/addcache`, and proves properties of that model. `cache.go` is a process-local key/value cache. A store holds a map from string keys to entries and a registry of hook handlers.

- `Set` stores a persistent entry.
- `SetEx` stores an entry with a time-to-live.
- `Get` returns the data of a live entry. When it finds an expired entry, it deletes that entry and reports `ErrCacheKeyNotFound` (lazy expiry).
- `Delete` removes an entry.
- A periodic sweep reaps every expired entry. It uses the same test as `Get` (`removeIfExpired`).
- Handlers are registered per operation kind (`Create`, `Delete`). They are called in registration order after every write and every deletion, including deletions caused by expiry.
- `CreateKey` / `CreateKeyWithDelimiter` join key parts.

Modules:

- `Keys` (keys.dfy): key composition, as Go's `strings.Join` does it.
- `Entries` (entries.dfy): the stored entry and the shared expiry test, over integer nanosecond times.
- `Hooks` (hooks.dfy): operation kinds, handler identifiers, and dispatch. Dispatch is described by the handler calls it appends to an event log.
- `CacheModel` (model.dfy): the store's state as a value. Every operation is a function from state to state. The lemmas state what the operations promise: round trips, expiry, what is left untouched, and how hooks fire.
- `Cache` (storage.dfy): the `storage` object as a class with fields `data`, `hooks` and `log`. Its methods change the fields in place. Each method is proved to leave the state that the matching `CacheModel` function describes. `ExampleFlow` replays the flow of `examples/main.go` against the class, and adds two timed reads after its final `SetEx` that the example itself does not make.

Modelling choices:

- Time is passed in as `now` (integer Unix nanoseconds) wherever the source calls `time.Now()`.
- `Time.Unix()` is floor division by 10^9. Dafny's `/` rounds down for a positive divisor, and Go keeps the nanosecond part of a time non-negative. So the model is exact for negative times too.
- The stored value is a type parameter `V` with no operations.
- A handler is an opaque `HandlerId`. Calling it appends `Event(kind, handler, key, data)` to `log`.
- The sweep visits the keys present when it starts, in an arbitrary order. That order is returned as a ghost value. Its properties are stated per key, so they do not depend on the order.

In two places the code evidently means something it does not do, and the model follows what it does:

- The append loop of `SetHook` (cache.go:124-126) shows that handlers given for a kind that already has some are meant to be added after the existing ones. They are not added: the loop appends them to a local copy of the slice and never stores it back (cache.go:123-126). The model keeps this behaviour, and `CacheModel.SecondRegistrationIsLost` states it.
- The `expireDuration` field stored with each entry (cache.go:48, cache.go:87) shows that an entry is meant to live for that full duration. Expiry compares whole Unix seconds (cache.go:153), so an entry expires when the second that holds `setTime + duration` begins. This can be up to one second before the duration has fully elapsed. `Entries.ExpiresBeforeDurationElapses` gives an instance: a one-second entry set at 0.9 s is already expired at 1.0 s.

## Model

| member | source | states |
|---|---|---|
| Keys.Join | cache.go:114-116 | Go's `strings.Join`; no contract of its own; specified by `Keys.JoinMatchesReference`, `Keys.JoinAppend` and `Keys.JoinLength` |
| Keys.CreateKeyWithDelimiter | cache.go:114-116 | no contract of its own; specified by `Keys.CreateKeyExamples` and, as `Join` of its arguments, by `Keys.JoinMatchesReference`, `Keys.JoinAppend` and `Keys.JoinLength` |
| Keys.CreateKey | cache.go:110-112 | no contract of its own; specified by `Keys.CreateKeyAppend` and `Keys.CreateKeyExamples` |
| Entries.Persistent | cache.go:74-79 | the entry `Set` stores; no contract of its own; specified by `CacheModel.SetStores` and `CacheModel.GetPersistent` |
| Entries.WithExpiry | cache.go:84-89 | the entry `SetEx` stores; no contract of its own; specified by `CacheModel.SetStores`, `CacheModel.SetExThenGet` and `Entries.ExpiredIffReached` |
| Entries.UnixSeconds | cache.go:153 | `Time.Unix()`; no contract of its own; specified by `Entries.UnixSecondsFloor`, `Entries.UnixSecondsMonotonic` and `Entries.UnixSecondsAtMost` |
| Entries.Expired | cache.go:149-153 | the test of `removeIfExpired`; no contract of its own; specified by `Entries.ExpiredIffReached`, `Entries.ExpiredStaysExpired`, `Entries.ExpiredAfterDuration` and `Entries.ExpiresBeforeDurationElapses` |
| CacheModel.Empty | cache.go:58-62 | no contract of its own; specified by `Cache.Storage.constructor` |
| CacheModel.ProcessHooks | cache.go:160-166 | no contract of its own; specified by `Hooks.Dispatch` and `Cache.Storage.ProcessHooks` |
| CacheModel.Set | cache.go:73-81 | no contract of its own; specified by `CacheModel.SetStores`, `CacheModel.LatestWriteWins` and `CacheModel.PersistentNeverExpires` |
| CacheModel.SetEx | cache.go:83-91 | no contract of its own; specified by `CacheModel.SetStores`, `CacheModel.LatestWriteWins`, `CacheModel.SetExThenGet` and `CacheModel.NonPositiveDurationExpiresAtOnce` |
| CacheModel.Delete | cache.go:103-108 | no contract of its own; specified by `CacheModel.DeleteAbsent` and `CacheModel.DeletePresent` |
| CacheModel.RemoveIfExpired | cache.go:149-158 | no contract of its own; specified by `CacheModel.RemoveIfExpiredSpec` |
| CacheModel.Get | cache.go:93-101 | no contract of its own; specified by `CacheModel.GetAbsent`, `CacheModel.GetPresent`, `CacheModel.GetPersistent` and `CacheModel.LazyAndSweepAgree` |
| CacheModel.SetHook | cache.go:122-130 | no contract of its own; specified by `CacheModel.SetHookSpec`, `CacheModel.SetHookKeepsOtherDispatch` and `CacheModel.SecondRegistrationIsLost` |
| CacheModel.SweepStep | cache.go:141-143 | no contract of its own; specified by `CacheModel.SweepStepLog` and `CacheModel.SweepEntries` |
| CacheModel.Sweep | cache.go:140-144 | at one instant `now`; no contract of its own; specified by `CacheModel.SweepKeepsHooks`, `CacheModel.SweepEntries`, `CacheModel.SweepLog` and `CacheModel.SweepPass` |
| Keys.JoinAppend | cache.go:114-116 | joining two non-empty runs of parts puts exactly one delimiter between them |
| Keys.JoinMatchesReference | cache.go:114-116 | the join agrees with an independent front-to-back definition of joining with a delimiter |
| Keys.JoinLength | cache.go:114-116 | a joined key's length is the parts' total length plus one delimiter per neighbouring pair |
| Keys.CreateKeyExamples | cache.go:110-116 | no parts give "", one part gives itself, `CreateKey("a","b")` is "a:b", with "-" it is "a-b" |
| Keys.CreateKeyAppend | cache.go:110-112 | `CreateKey` puts the default ":" between parts |
| Entries.UnixSecondsFloor | cache.go:153 | `Unix()` gives the whole second that holds the instant |
| Entries.UnixSecondsMonotonic | cache.go:153 | later instants never have an earlier Unix second |
| Entries.UnixSecondsAtMost | cache.go:153 | an instant's second is at most s exactly when the instant is before the end of second s |
| Entries.ExpiredIffReached | cache.go:149-153 | a persistent entry is never expired; any other one is expired exactly from the start of the second holding its deadline |
| Entries.ExpiredStaysExpired | cache.go:149-153 | an expired entry stays expired at every later time |
| Entries.ExpiredAfterDuration | cache.go:149-153 | a non-persistent entry whose whole duration has elapsed is expired, so a duration of zero or less expires at once |
| Entries.ExpiresBeforeDurationElapses | cache.go:153 | the whole-second comparison lets an entry expire before its duration has elapsed (a concrete instance) |
| Entries.ExpiryInstantBounds | cache.go:153 | the expiry instant is at or before the deadline and less than one second before it |
| Hooks.Fire | cache.go:162-164 | a dispatch makes one call per handler in the slice |
| Hooks.FireAt | cache.go:162-164 | the i-th call goes to the i-th handler, with the same kind, key and data |
| Hooks.Dispatch | cache.go:160-166 | `processHooks` calls only handlers registered under the given kind, each once, in slice order; nothing when the kind has no entry |
| Hooks.KeyEventsFire | cache.go:160-166 | a dispatch for one key contains calls about that key only |
| Hooks.KeyEventsDispatch | cache.go:160-166 | the same for a whole `processHooks` call, registered or not |
| CacheModel.SetStores | cache.go:73-91 | after `Set`/`SetEx` the key holds the new entry (persistent, or with the duration, stamped `now`), every other key is unchanged, the registry is kept, and the log grows by exactly one call per `Create` handler, the i-th call to the i-th handler, with (key, data) |
| CacheModel.LatestWriteWins | cache.go:73-91 | after two writes to one key, for each of the four pairs of `Set`/`SetEx`, only the latest entry remains, and one round of `Create` calls is logged per write, in write order |
| CacheModel.GetAbsent | cache.go:93-101 | `Get` of an absent key reports `ErrCacheKeyNotFound` and changes no entry, handler list or log |
| CacheModel.GetPresent | cache.go:93-101 | `Get` of a present key returns its data unchanged iff the entry is not expired; otherwise it reports not-found, removes exactly that key and logs one round of `Delete` calls with the stored data |
| CacheModel.GetPersistent | cache.go:93-101 | a persistent entry is returned by `Get` at any time, with no change |
| CacheModel.PersistentNeverExpires | cache.go:73-101 | after `Set(k, v)` at any time, `Get(k)` at any time returns v and changes nothing |
| CacheModel.SetExThenGet | cache.go:83-101 | after `SetEx(k, v, d)` at t0, `Get(k)` at `now` returns v iff the Unix second of t0+d is after that of `now`; otherwise k is gone and each `Delete` handler is called once with (k, v) |
| CacheModel.NonPositiveDurationExpiresAtOnce | cache.go:83-101 | an entry set with a duration of zero or less is not found by any `Get` at or after its set time |
| CacheModel.DeleteAbsent | cache.go:103-108 | `Delete` of an absent key changes nothing and calls no handler |
| CacheModel.DeletePresent | cache.go:103-108 | `Delete` of a present key removes exactly that key, keeps every other entry and the registry, and calls each `Delete` handler once, in registration order, with the stored data |
| CacheModel.RemoveIfExpiredSpec | cache.go:149-158 | `removeIfExpired` reaps, via `Delete`, exactly a non-persistent entry whose expiry instant has been reached, and reports whether it did |
| CacheModel.SetHookSpec | cache.go:122-130 | `SetHook` on an unregistered kind stores exactly the given list; on a registered kind it keeps the old list; the other kind's list, the entries and the log never change |
| CacheModel.SetHookKeepsOtherDispatch | cache.go:122-130 | registering handlers for one kind never changes what the other kind dispatches |
| CacheModel.SecondRegistrationIsLost | cache.go:123-126 | after registering h1 and then h2 for one kind, only h1 is dispatched |
| CacheModel.ExpiredIn | cache.go:141-143 | the keys a sweep reaps are exactly the visited keys whose entries are expired |
| CacheModel.SweepKeepsHooks | cache.go:140-144 | a sweep leaves the handler registry alone |
| CacheModel.SweepEntries | cache.go:140-144 | a sweep over distinct present keys removes exactly the visited expired entries and keeps every other entry unchanged |
| CacheModel.SweepStepLog | cache.go:141-143 | one sweep iteration logs one round of `Delete` calls if the entry is expired, and nothing otherwise |
| CacheModel.SweepLog | cache.go:140-144 | a sweep logs one round of `Delete` calls per removed key, in the order visited |
| CacheModel.ExpiredInDistinct | cache.go:141-143 | no key is reaped twice in one sweep |
| CacheModel.RoundsPerKey | cache.go:141-143 | among the sweep's deletion rounds, the calls about one key are exactly one round if that key was removed, and none otherwise |
| CacheModel.SweepPass | cache.go:140-158 | after a full sweep in any order no expired entry remains, every persistent or live entry is kept unchanged, the registry is kept, and the log gains exactly one round of `Delete` calls for each removed key and none for any other |
| CacheModel.SweepDataOrderFree | cache.go:141-143 | for a sweep at one instant `now`, which entries it keeps does not depend on the visiting order |
| CacheModel.LazyAndSweepAgree | cache.go:93-158 | for every key, a `Get` reports not-found exactly when a sweep at the same time would leave no entry for it |
| CacheModel.SweepKeepsPersistent | cache.go:149-152 | a sweep never removes or changes a persistent entry |
| Cache.Storage.constructor | cache.go:58-62 | a new store has no entries, no hooks and no handler calls |
| Cache.Storage.ProcessHooks | cache.go:160-166 | the loop appends exactly the dispatch of the kind to the log, handler by handler |
| Cache.Storage.Set | cache.go:73-81 | the object ends in the state `CacheModel.Set` gives; the key holds a persistent entry stamped `now` |
| Cache.Storage.SetEx | cache.go:83-91 | the object ends in the state `CacheModel.SetEx` gives; the key holds an entry with the given duration, stamped `now` |
| Cache.Storage.Delete | cache.go:103-108 | the object ends in the state `CacheModel.Delete` gives; no handler call for an absent key |
| Cache.Storage.RemoveIfExpired | cache.go:149-158 | the object ends in the state `CacheModel.RemoveIfExpired` gives; the result is the shared expiry test |
| Cache.Storage.Get | cache.go:93-101 | the result and new state are those of `CacheModel.Get`; success exactly for a present, unexpired key, and then the stored data with no change |
| Cache.Storage.SetHook | cache.go:122-130 | the registry changes exactly as `CacheModel.SetHook` says: a new kind gets the list, a registered one keeps its list |
| Cache.Storage.Sweep | cache.go:140-144 | the loop over the keys present at the start leaves the state of `CacheModel.Sweep` for that iteration order, that is, exactly the persistent and live entries, with the registry unchanged |
| Cache.ExampleFlow | examples/main.go:9-38 | the example's key is "user:12"; a `Set` value is read back; after `Delete` and a 40-second `SetEx` it is found 39 s later and not found 40 s later (these two reads are added; the example makes none after its `SetEx`) |

## Left out

- The background goroutine, `sync.WaitGroup`, ticker and `select` of `NewCacheWithCleanup`/`cleanupLoop` (cache.go:57-71, cache.go:132-139), and the default interval of 30 seconds. These are scheduling and concurrency. Only the sweep body is modelled, as `Cache.Storage.Sweep`, which a caller invokes.
- The `sync.RWMutex` taken by the sweep (cache.go:140, cache.go:144). Its point is concurrency. Note that `Set`, `SetEx`, `Get` and `Delete` take no lock in the source, so concurrent use races. The model describes one call at a time.
- `StopCleanup` (cache.go:118-120). It only sends on the stop channel of the goroutine, and it blocks forever when called after the goroutine has exited. It holds no state to model.
- Cache.Storage.Sweep: the sweep is modelled at a single instant `now`. In the source each `removeIfExpired` of the loop reads `time.Now()` afresh (cache.go:141-142, cache.go:153), and `Delete` handlers run between keys, so a sweep that crosses a whole-second boundary can also remove entries that expire during the pass, which `Survivors(old(data), now)` does not describe.
- CacheModel.SweepDataOrderFree: stated for a sweep at one instant. With a clock reading per key, the entries kept can depend on the visiting order when a pass crosses a whole-second boundary: an entry whose deadline falls in the second being entered survives if it is visited before that second begins and is removed if visited after.
- CacheModel.SweepPass: stated at that single instant as well; with a clock read per key, the entries removed are every entry expired at the start plus any that expire before they are visited, and "every live entry is kept" holds only for entries still live when visited.
- `time.Now()` and the `time` package. Times are integer nanoseconds passed in by the caller. Go's `time.Duration` is a 64-bit integer and the model's duration is unbounded, so the model admits more durations than Go. It agrees with Go on every 64-bit duration.
- Handler bodies. They are foreign callbacks: a handler is an identifier, and its only effect is an event in the log. A handler that panics, blocks, or calls back into the cache is not modelled.
- The `any` payload. It is a type parameter with no operations.
- `examples/main.go` is not part of the core. Its flow is replayed by `Cache.ExampleFlow`, with output left out. The two reads after the final `SetEx` are additions of the model; the example program ends with that `SetEx`.
