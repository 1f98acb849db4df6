/**
  The `storage` object of cache.go (cache.go:38-166) as a class whose methods
  update its fields in place. Every method is proved to change the fields as
  the matching function of `CacheModel` says. The caller passes the current
  time as `now`, where the source reads `time.Now()`; handlers are opaque
  identifiers whose calls are appended to `log`.
 */
module Cache {
  import opened Entries
  import opened Hooks
  import CacheModel
  import Keys

  class Storage<V> {
    var data: map<string, Entry<V>>
    var hooks: Registry
    /** Every handler call made so far, in the order the calls were made. */
    var log: seq<Event<V>>

    /** The state of this object as a value. */
    function Model(): CacheModel.Store<V>
      reads this
    {
      CacheModel.Store(data, hooks, log)
    }

    /** The maps `NewCacheWithCleanup` creates (cache.go:58-62); the sweeping
        goroutine it starts is not part of this model. */
    constructor ()
      ensures Model() == CacheModel.Empty()
    {
      data := map[];
      hooks := map[];
      log := [];
    }

    /** `processHooks` (cache.go:160-166): calls every handler registered
        under `kind`, in slice order, with `(key, value)`. */
    method ProcessHooks(kind: OpKind, key: string, value: V)
      modifies this`log
      ensures log == old(log) + Dispatch(hooks, kind, key, value)
    {
      if kind in hooks {
        var handlerFunctions := hooks[kind];
        for i := 0 to |handlerFunctions|
          invariant log == old(log) + Fire(kind, handlerFunctions[..i], key, value)
        {
          assert handlerFunctions[..i + 1][..i] == handlerFunctions[..i];
          log := log + [Event(kind, handlerFunctions[i], key, value)];
        }
        assert handlerFunctions[..|handlerFunctions|] == handlerFunctions;
      }
    }

    /** `Set` (cache.go:73-81): stores a persistent entry, then calls the
        `Create` handlers. */
    method Set(key: string, value: V, now: int)
      modifies this
      ensures Model() == CacheModel.Set(old(Model()), key, value, now)
      ensures data == old(data)[key := Persistent(now, value)]
    {
      data := data[key := Entry(true, now, 0, value)];
      ProcessHooks(CreateOp, key, value);
    }

    /** `SetEx` (cache.go:83-91): stores an entry that expires after
        `duration`, then calls the `Create` handlers. */
    method SetEx(key: string, value: V, duration: int, now: int)
      modifies this
      ensures Model() == CacheModel.SetEx(old(Model()), key, value, duration, now)
      ensures data == old(data)[key := WithExpiry(now, duration, value)]
    {
      data := data[key := Entry(false, now, duration, value)];
      ProcessHooks(CreateOp, key, value);
    }

    /** `Delete` (cache.go:103-108): removes a present entry and calls the
        `Delete` handlers with its data; does nothing for an absent key. */
    method Delete(key: string)
      modifies this
      ensures Model() == CacheModel.Delete(old(Model()), key)
      ensures data == old(data) - {key}
      ensures key !in old(data) ==> log == old(log)
    {
      if key in data {
        var sd := data[key];
        data := data - {key};
        ProcessHooks(DeleteOp, key, sd.data);
      }
    }

    /** `removeIfExpired` (cache.go:149-158): deletes `key` when `sd` is
        expired at `now` and says whether it did. */
    method RemoveIfExpired(key: string, sd: Entry<V>, now: int) returns (removed: bool)
      modifies this
      ensures (Model(), removed) == CacheModel.RemoveIfExpired(old(Model()), key, sd, now)
      ensures removed == Expired(sd, now)
    {
      if sd.isPersistence {
        return false;
      }
      if UnixSeconds(sd.setTime + sd.expireDuration) <= UnixSeconds(now) {
        Delete(key);
        return true;
      }
      return false;
    }

    /** `Get` (cache.go:93-101): the stored data of a live entry; not-found
        for an absent key, and for an expired one, which it reaps. */
    method Get(key: string, now: int) returns (r: CacheModel.Result<V>)
      modifies this
      ensures (Model(), r) == CacheModel.Get(old(Model()), key, now)
      ensures r.Ok? <==> key in old(data) && !Expired(old(data)[key], now)
      ensures r.Ok? ==> r.value == old(data)[key].data && Model() == old(Model())
    {
      if key in data {
        var value := data[key];
        var removed := RemoveIfExpired(key, value, now);
        if removed {
          return CacheModel.Err(CacheModel.ErrCacheKeyNotFound);
        }
        return CacheModel.Ok(value.data);
      }
      return CacheModel.Err(CacheModel.ErrCacheKeyNotFound);
    }

    /** `SetHook` as written (cache.go:122-130). For a kind already
        registered, the source appends the new handlers to a local copy of
        the registered slice and never stores it back, so the registry keeps
        its old list; a kind not yet registered gets exactly the given list. */
    method SetHook(kind: OpKind, handlerFunctions: seq<HandlerId>)
      modifies this`hooks
      ensures Model() == CacheModel.SetHook(old(Model()), kind, handlerFunctions)
    {
      if kind in hooks {
        var handlers := hooks[kind];
        for i := 0 to |handlerFunctions|
          invariant handlers == hooks[kind] + handlerFunctions[..i]
        {
          handlers := handlers + [handlerFunctions[i]];
        }
      } else {
        hooks := hooks[kind := handlerFunctions];
      }
    }

    /** One tick of `cleanupLoop` (cache.go:140-144): visits every key present
        when the sweep starts, in an order the caller cannot rely on (returned
        as `order`), and reaps each entry expired at `now`, the one instant
        at which every visit is taken to happen. Afterwards only the
        persistent and the live entries are left. */
    method Sweep(now: int) returns (ghost order: seq<string>)
      modifies this
      ensures CacheModel.IsEnumeration(order, old(data).Keys)
      ensures Model() == CacheModel.Sweep(old(Model()), now, order)
      ensures data == CacheModel.Survivors(old(data), now)
      ensures hooks == old(hooks)
    {
      ghost var start := Model();
      var remaining := data.Keys;
      order := [];
      while remaining != {}
        invariant CacheModel.Distinct(order)
        invariant forall k :: k in order ==> k in start.data && k !in remaining
        invariant forall k :: k in start.data ==> k in order || k in remaining
        invariant remaining <= start.data.Keys
        invariant forall k :: k in remaining ==> k in data && data[k] == start.data[k]
        invariant Model() == CacheModel.Sweep(start, now, order)
        decreases remaining
      {
        var key :| key in remaining;
        var sd := data[key];
        ghost var before := Model();
        var _ := RemoveIfExpired(key, sd, now);
        assert Model() == CacheModel.SweepStep(before, key, now);
        remaining := remaining - {key};
        assert (order + [key])[..|order|] == order;
        order := order + [key];
      }
      CacheModel.SweepPass(start, now, order);
    }
  }

  /** The flow of the example program (examples/main.go:9-38), with reads
      added after the timed write: a value set under "user:12" is read back;
      after it is deleted and set again with a 40-second duration it is still
      found 39 seconds later and is gone 40 seconds later. */
  method ExampleFlow<V>(user: V, now: int)
    returns (userKey: string, first: CacheModel.Result<V>, later: CacheModel.Result<V>, gone: CacheModel.Result<V>)
    ensures userKey == "user:12"
    ensures first == CacheModel.Ok(user)
    ensures later == CacheModel.Ok(user)
    ensures gone == CacheModel.Err(CacheModel.ErrCacheKeyNotFound)
  {
    var cache := new Storage<V>();
    userKey := Keys.CreateKey(["user", "12"]);
    Keys.CreateKeyExamples(userKey);
    cache.Set(userKey, user, now);
    first := cache.Get(userKey, now);
    cache.Delete(userKey);
    cache.SetEx(userKey, user, 40 * NANOS_PER_SECOND, now);
    UnixSecondsFloor(now + 39 * NANOS_PER_SECOND);
    UnixSecondsAtMost(now + 40 * NANOS_PER_SECOND, UnixSeconds(now + 39 * NANOS_PER_SECOND));
    later := cache.Get(userKey, now + 39 * NANOS_PER_SECOND);
    ExpiredAfterDuration(WithExpiry(now, 40 * NANOS_PER_SECOND, user), now + 40 * NANOS_PER_SECOND);
    gone := cache.Get(userKey, now + 40 * NANOS_PER_SECOND);
  }
}
