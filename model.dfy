/**
  The cache's state as a value and each operation of `storage` as a function
  from state to state (cache.go:38-166). The class `Cache.Storage` is proved
  to change its fields exactly as these functions say; the lemmas here state
  what the operations promise.
 */
module CacheModel {
  import opened Entries
  import opened Hooks

  /** `ErrCacheKeyNotFound`, the only error of the cache (cache.go:15); its
      text, "exception.cache.key.not-found", plays no part in the model. */
  datatype CacheError = ErrCacheKeyNotFound

  /** The `(any, error)` pair returned by `Get`. */
  datatype Result<V> = Ok(value: V) | Err(error: CacheError)

  /** The fields `data` and `hooks` of `storage`, and the calls its handlers
      have received so far. */
  datatype Store<V> = Store(data: map<string, Entry<V>>, hooks: Registry, log: seq<Event<V>>)

  /** The state `NewCacheWithCleanup` builds (cache.go:58-62). */
  function Empty<V>(): Store<V>
  {
    Store(map[], map[], [])
  }

  /** `processHooks`: the log grows by the dispatch of `kind` (cache.go:160-166). */
  function ProcessHooks<V>(s: Store<V>, kind: OpKind, key: string, data: V): Store<V>
  {
    s.(log := s.log + Dispatch(s.hooks, kind, key, data))
  }

  /** `Set` (cache.go:73-81). */
  function Set<V>(s: Store<V>, key: string, data: V, now: int): Store<V>
  {
    ProcessHooks(s.(data := s.data[key := Persistent(now, data)]), CreateOp, key, data)
  }

  /** `SetEx` (cache.go:83-91). */
  function SetEx<V>(s: Store<V>, key: string, data: V, duration: int, now: int): Store<V>
  {
    ProcessHooks(s.(data := s.data[key := WithExpiry(now, duration, data)]), CreateOp, key, data)
  }

  /** `Delete` (cache.go:103-108). */
  function Delete<V>(s: Store<V>, key: string): Store<V>
  {
    if key in s.data then
      ProcessHooks(s.(data := s.data - {key}), DeleteOp, key, s.data[key].data)
    else s
  }

  /** `removeIfExpired` (cache.go:149-158): the new state and whether `key` was reaped. */
  function RemoveIfExpired<V>(s: Store<V>, key: string, sd: Entry<V>, now: int): (Store<V>, bool)
  {
    if Expired(sd, now) then (Delete(s, key), true) else (s, false)
  }

  /** `Get` (cache.go:93-101). */
  function Get<V>(s: Store<V>, key: string, now: int): (Store<V>, Result<V>)
  {
    if key in s.data then
      var value := s.data[key];
      var (s', removed) := RemoveIfExpired(s, key, value, now);
      if removed then (s', Err(ErrCacheKeyNotFound)) else (s', Ok(value.data))
    else (s, Err(ErrCacheKeyNotFound))
  }

  /** `SetHook` as written (cache.go:122-130): a kind with no entry gets the
      given list; for a registered kind the source appends to a local copy of
      the slice that is never stored back, so the registry stays as it was. */
  function SetHook<V>(s: Store<V>, kind: OpKind, handlers: seq<HandlerId>): Store<V>
  {
    if kind in s.hooks then s else s.(hooks := s.hooks[kind := handlers])
  }

  /** One iteration of the sweep (cache.go:141-143). A key no longer present
      is skipped, as Go's map range skips entries removed before they are
      reached. */
  function SweepStep<V>(s: Store<V>, key: string, now: int): Store<V>
  {
    if key in s.data then RemoveIfExpired(s, key, s.data[key], now).0 else s
  }

  /** The sweep body of `cleanupLoop` (cache.go:140-144), visiting keys in
      the order `order`, with every visit at the one instant `now`. */
  function Sweep<V>(s: Store<V>, now: int, order: seq<string>): Store<V>
  {
    if order == [] then s
    else SweepStep(Sweep(s, now, order[..|order| - 1]), order[|order| - 1], now)
  }

  /** No key occurs twice in `keys`: each one is new when it is appended. */
  ghost predicate Distinct(keys: seq<string>)
  {
    keys == [] || (Distinct(keys[..|keys| - 1]) && keys[|keys| - 1] !in keys[..|keys| - 1])
  }

  /** `order` lists every key of `keys` exactly once: one order in which Go
      may range over a map with those keys. */
  ghost predicate IsEnumeration(order: seq<string>, keys: set<string>)
  {
    Distinct(order) && forall k :: k in order <==> k in keys
  }

  /** The entries a sweep at `now` keeps. */
  function Survivors<V>(data: map<string, Entry<V>>, now: int): map<string, Entry<V>>
  {
    map k | k in data && !Expired(data[k], now) :: data[k]
  }

  /** The keys of `order` whose entries in `data` are expired at `now`, in order. */
  function ExpiredIn<V>(order: seq<string>, data: map<string, Entry<V>>, now: int): (r: seq<string>)
    ensures forall k :: k in r <==> k in order && k in data && Expired(data[k], now)
  {
    if order == [] then []
    else
      var k := order[|order| - 1];
      ExpiredIn(order[..|order| - 1], data, now) + (if k in data && Expired(data[k], now) then [k] else [])
  }

  /** The deletion rounds of the keys `keys`, in order, each with its data. */
  function Rounds<V>(hooks: Registry, keys: seq<string>, data: map<string, Entry<V>>): seq<Event<V>>
  {
    if keys == [] then []
    else
      var k := keys[|keys| - 1];
      Rounds(hooks, keys[..|keys| - 1], data) + Round(hooks, k, data)
  }

  /** The `Delete` calls for `key` with its data in `data`, if it has an entry. */
  function Round<V>(hooks: Registry, key: string, data: map<string, Entry<V>>): seq<Event<V>>
  {
    if key in data then Dispatch(hooks, DeleteOp, key, data[key].data) else []
  }

  // ----- Writes -----

  /** A write stores its entry under `key`, replacing any previous one, leaves
      every other key and the registry alone, and calls each `Create` handler
      once, in registration order, with `(key, data)`. */
  lemma SetStores<V>(s: Store<V>, key: string, data: V, duration: int, now: int)
    ensures var r := Set(s, key, data, now);
      && key in r.data && r.data[key] == Persistent(now, data)
      && (forall k :: k != key ==> (k in r.data <==> k in s.data))
      && (forall k :: k != key && k in r.data ==> r.data[k] == s.data[k])
      && r.hooks == s.hooks
      && |r.log| == |s.log| + (if CreateOp in s.hooks then |s.hooks[CreateOp]| else 0)
      && r.log[..|s.log|] == s.log
      && forall i :: 0 <= i < |r.log| - |s.log| ==>
           r.log[|s.log| + i] == Event(CreateOp, s.hooks[CreateOp][i], key, data)
    ensures var r := SetEx(s, key, data, duration, now);
      && key in r.data && r.data[key] == WithExpiry(now, duration, data)
      && (forall k :: k != key ==> (k in r.data <==> k in s.data))
      && (forall k :: k != key && k in r.data ==> r.data[k] == s.data[k])
      && r.hooks == s.hooks
      && |r.log| == |s.log| + (if CreateOp in s.hooks then |s.hooks[CreateOp]| else 0)
      && r.log[..|s.log|] == s.log
      && forall i :: 0 <= i < |r.log| - |s.log| ==>
           r.log[|s.log| + i] == Event(CreateOp, s.hooks[CreateOp][i], key, data)
  {
  }

  /** The latest write wins: what an earlier write stored under `key` is gone
      after a second write, and each write logged one round of `Create` calls. */
  lemma LatestWriteWins<V>(s: Store<V>, key: string, v1: V, d1: int, t1: int, v2: V, d2: int, t2: int)
    ensures Set(Set(s, key, v1, t1), key, v2, t2).data == Set(s, key, v2, t2).data
    ensures Set(SetEx(s, key, v1, d1, t1), key, v2, t2).data == Set(s, key, v2, t2).data
    ensures SetEx(Set(s, key, v1, t1), key, v2, d2, t2).data == SetEx(s, key, v2, d2, t2).data
    ensures SetEx(SetEx(s, key, v1, d1, t1), key, v2, d2, t2).data == SetEx(s, key, v2, d2, t2).data
    ensures var rounds := s.log + Dispatch(s.hooks, CreateOp, key, v1) + Dispatch(s.hooks, CreateOp, key, v2);
      && Set(Set(s, key, v1, t1), key, v2, t2).log == rounds
      && Set(SetEx(s, key, v1, d1, t1), key, v2, t2).log == rounds
      && SetEx(Set(s, key, v1, t1), key, v2, d2, t2).log == rounds
      && SetEx(SetEx(s, key, v1, d1, t1), key, v2, d2, t2).log == rounds
  {
  }

  // ----- Reads -----

  /** `Get` of a key with no entry reports not-found and changes nothing. */
  lemma GetAbsent<V>(s: Store<V>, key: string, now: int)
    requires key !in s.data
    ensures Get(s, key, now) == (s, Err(ErrCacheKeyNotFound))
  {
  }

  /** `Get` of a present key: the stored data and no change while the entry is
      live; otherwise not-found, the key is gone, every other key is kept and
      each `Delete` handler is called once, in order, with the stored data. */
  lemma GetPresent<V>(s: Store<V>, key: string, now: int)
    requires key in s.data
    ensures var (s', r) := Get(s, key, now);
      && (r.Ok? <==> !Expired(s.data[key], now))
      && (r.Ok? ==> r.value == s.data[key].data && s' == s)
      && (r.Err? ==> && r.error == ErrCacheKeyNotFound
                     && s'.data == s.data - {key}
                     && s'.hooks == s.hooks
                     && s'.log == s.log + Dispatch(s.hooks, DeleteOp, key, s.data[key].data))
  {
  }

  /** A persistent entry is returned by `Get` at any time, and nothing changes. */
  lemma GetPersistent<V>(s: Store<V>, key: string, now: int)
    requires key in s.data && s.data[key].isPersistence
    ensures Get(s, key, now) == (s, Ok(s.data[key].data))
  {
  }

  /** After `Set`, `Get` of that key returns the data at any time, and nothing changes. */
  lemma PersistentNeverExpires<V>(s: Store<V>, key: string, data: V, t0: int, now: int)
    ensures var s1 := Set(s, key, data, t0);
      Get(s1, key, now) == (s1, Ok(data))
  {
  }

  /** After `SetEx(key, data, d)` at `t0`, `Get` at `now` returns the data
      exactly when the Unix second of `t0 + d` is after that of `now`;
      otherwise it reports not-found, the entry is gone and each `Delete`
      handler is called once with `(key, data)`. */
  lemma SetExThenGet<V>(s: Store<V>, key: string, data: V, d: int, t0: int, now: int)
    ensures var s1 := SetEx(s, key, data, d, t0);
      var (s2, r) := Get(s1, key, now);
      && (r == Ok(data) <==> UnixSeconds(t0 + d) > UnixSeconds(now))
      && (r.Ok? ==> s2 == s1)
      && (r.Err? ==> && r.error == ErrCacheKeyNotFound
                     && key !in s2.data
                     && s2.data == s.data - {key}
                     && s2.hooks == s.hooks
                     && s2.log == s1.log + Dispatch(s.hooks, DeleteOp, key, data))
  {
  }

  /** An entry set with a duration of zero or less is not found by any later `Get`. */
  lemma NonPositiveDurationExpiresAtOnce<V>(s: Store<V>, key: string, data: V, d: int, t0: int, now: int)
    requires d <= 0 && t0 <= now
    ensures Get(SetEx(s, key, data, d, t0), key, now).1 == Err(ErrCacheKeyNotFound)
  {
  }

  // ----- Deletion -----

  /** `Delete` of a key with no entry changes nothing and calls no handler. */
  lemma DeleteAbsent<V>(s: Store<V>, key: string)
    requires key !in s.data
    ensures Delete(s, key) == s
  {
  }

  /** `Delete` of a present key removes exactly that key, leaves the other
      entries and the registry unchanged and calls each `Delete` handler
      once, in registration order, with the stored data. */
  lemma DeletePresent<V>(s: Store<V>, key: string)
    requires key in s.data
    ensures var r := Delete(s, key);
      && key !in r.data
      && (forall k :: k != key ==> (k in r.data <==> k in s.data))
      && (forall k :: k in r.data ==> r.data[k] == s.data[k])
      && r.hooks == s.hooks
      && |r.log| == |s.log| + (if DeleteOp in s.hooks then |s.hooks[DeleteOp]| else 0)
      && r.log[..|s.log|] == s.log
      && forall i :: 0 <= i < |r.log| - |s.log| ==>
           r.log[|s.log| + i] == Event(DeleteOp, s.hooks[DeleteOp][i], key, s.data[key].data)
  {
  }

  /** `removeIfExpired` reaps exactly the expired entries and never a
      persistent one; it reports whether it did. */
  lemma RemoveIfExpiredSpec<V>(s: Store<V>, key: string, sd: Entry<V>, now: int)
    ensures var (s', removed) := RemoveIfExpired(s, key, sd, now);
      && (removed <==> !sd.isPersistence && ExpiryInstant(sd) <= now)
      && (removed ==> s' == Delete(s, key) && key !in s'.data)
      && (!removed ==> s' == s)
  {
  }

  // ----- Hooks -----

  /** `SetHook` on a kind with no entry stores exactly the given handlers; on
      a registered kind it leaves the list as it was; the other kind's list
      never changes. Nothing but the registry changes. */
  lemma SetHookSpec<V>(s: Store<V>, kind: OpKind, handlers: seq<HandlerId>, other: OpKind)
    requires other != kind
    ensures var r := SetHook(s, kind, handlers);
      && (kind !in s.hooks ==> kind in r.hooks && r.hooks[kind] == handlers)
      && (kind in s.hooks ==> kind in r.hooks && r.hooks[kind] == s.hooks[kind])
      && (other in r.hooks <==> other in s.hooks)
      && (other in s.hooks ==> r.hooks[other] == s.hooks[other])
      && r.data == s.data && r.log == s.log
  {
  }

  /** Registering handlers for one kind never changes what an operation of
      the other kind dispatches. */
  lemma SetHookKeepsOtherDispatch<V>(s: Store<V>, kind: OpKind, handlers: seq<HandlerId>, other: OpKind, key: string, data: V)
    requires other != kind
    ensures Dispatch(SetHook(s, kind, handlers).hooks, other, key, data) == Dispatch(s.hooks, other, key, data)
  {
  }

  /** A second registration for a kind is lost: after registering `h1` and
      then `h2`, only `h1` is dispatched. */
  lemma SecondRegistrationIsLost<V>(s: Store<V>, kind: OpKind, h1: seq<HandlerId>, h2: seq<HandlerId>, key: string, data: V)
    requires kind !in s.hooks
    ensures Dispatch(SetHook(SetHook(s, kind, h1), kind, h2).hooks, kind, key, data)
         == Fire(kind, h1, key, data)
  {
  }

  // ----- The sweep -----

  /** Concatenation is associative. */
  lemma AppendAssoc<T>(a: seq<T>, b: seq<T>, c: seq<T>)
    ensures (a + b) + c == a + (b + c)
  {
  }

  /** A sweep leaves the registry alone. */
  lemma {:induction false} SweepKeepsHooks<V>(s: Store<V>, now: int, order: seq<string>)
    ensures Sweep(s, now, order).hooks == s.hooks
  {
    if order != [] {
      SweepKeepsHooks(s, now, order[..|order| - 1]);
    }
  }

  /** A sweep over distinct present keys removes exactly the visited keys
      whose entries are expired and keeps every other entry unchanged. */
  lemma {:induction false} SweepEntries<V>(s: Store<V>, now: int, order: seq<string>)
    requires Distinct(order)
    requires forall k :: k in order ==> k in s.data
    ensures var r := Sweep(s, now, order);
      && (forall j :: j in r.data <==> j in s.data && !(j in order && Expired(s.data[j], now)))
      && (forall j :: j in r.data ==> r.data[j] == s.data[j])
  {
    if order != [] {
      var prefix := order[..|order| - 1];
      var k := order[|order| - 1];
      SweepEntries(s, now, prefix);
      assert forall j :: j in order <==> j in prefix || j == k;
    }
  }

  /** What one sweep step appends to the log. */
  lemma SweepStepLog<V>(s: Store<V>, key: string, now: int)
    requires key in s.data
    ensures SweepStep(s, key, now).log
         == s.log + if Expired(s.data[key], now) then Dispatch(s.hooks, DeleteOp, key, s.data[key].data) else []
  {
  }

  /** Rounds of keys with one more key at the end. */
  lemma RoundsSnoc<V>(hooks: Registry, keys: seq<string>, k: string, data: map<string, Entry<V>>)
    ensures Rounds(hooks, keys + [k], data) == Rounds(hooks, keys, data) + Round(hooks, k, data)
  {
  }

  /** The round a sweep step over the last key of `order` logs. */
  function LastRound<V>(s: Store<V>, now: int, order: seq<string>): seq<Event<V>>
    requires order != [] && order[|order| - 1] in s.data
  {
    var k := order[|order| - 1];
    if Expired(s.data[k], now) then Dispatch(s.hooks, DeleteOp, k, s.data[k].data) else []
  }

  /** Visiting the last key of a distinct order appends that key's round. */
  lemma SweepLogLast<V>(s: Store<V>, now: int, order: seq<string>)
    requires Distinct(order) && order != []
    requires forall k :: k in order ==> k in s.data
    ensures Sweep(s, now, order).log == Sweep(s, now, order[..|order| - 1]).log + LastRound(s, now, order)
  {
    var prefix := order[..|order| - 1];
    var k := order[|order| - 1];
    SweepEntries(s, now, prefix);
    SweepKeepsHooks(s, now, prefix);
    var r' := Sweep(s, now, prefix);
    assert k in r'.data && r'.data[k] == s.data[k];
    SweepStepLog(r', k, now);
  }

  /** The expired keys of an order, one key further, add that key's round. */
  lemma RoundsLast<V>(s: Store<V>, now: int, order: seq<string>)
    requires order != []
    requires forall k :: k in order ==> k in s.data
    ensures Rounds(s.hooks, ExpiredIn(order, s.data, now), s.data)
         == Rounds(s.hooks, ExpiredIn(order[..|order| - 1], s.data, now), s.data) + LastRound(s, now, order)
  {
    var k := order[|order| - 1];
    var expired' := ExpiredIn(order[..|order| - 1], s.data, now);
    if Expired(s.data[k], now) {
      assert ExpiredIn(order, s.data, now) == expired' + [k];
      RoundsSnoc(s.hooks, expired', k, s.data);
    } else {
      assert ExpiredIn(order, s.data, now) == expired';
    }
  }

  /** A sweep over distinct present keys logs one round of `Delete` calls per
      removed key, in the order visited. */
  lemma {:induction false} SweepLog<V>(s: Store<V>, now: int, order: seq<string>)
    requires Distinct(order)
    requires forall k :: k in order ==> k in s.data
    ensures Sweep(s, now, order).log == s.log + Rounds(s.hooks, ExpiredIn(order, s.data, now), s.data)
  {
    if order != [] {
      var prefix := order[..|order| - 1];
      SweepLog(s, now, prefix);
      SweepLogLast(s, now, order);
      RoundsLast(s, now, order);
      AppendAssoc(s.log, Rounds(s.hooks, ExpiredIn(prefix, s.data, now), s.data), LastRound(s, now, order));
    }
  }

  /** The keys a sweep finds expired are distinct when the visiting order is. */
  lemma {:induction false} ExpiredInDistinct<V>(order: seq<string>, data: map<string, Entry<V>>, now: int)
    requires Distinct(order)
    ensures Distinct(ExpiredIn(order, data, now))
  {
    if order != [] {
      var prefix := order[..|order| - 1];
      var k := order[|order| - 1];
      ExpiredInDistinct(prefix, data, now);
      var e' := ExpiredIn(prefix, data, now);
      if k in data && Expired(data[k], now) {
        assert ExpiredIn(order, data, now) == e' + [k];
        assert (e' + [k])[..|e'|] == e';
      } else {
        assert ExpiredIn(order, data, now) == e';
      }
    }
  }

  /** In the rounds of distinct keys, the calls about one key are exactly
      one round for it if it is listed and none otherwise. */
  lemma {:induction false} RoundsPerKey<V>(hooks: Registry, keys: seq<string>, data: map<string, Entry<V>>, key: string)
    requires Distinct(keys)
    requires forall k :: k in keys ==> k in data
    ensures KeyEvents(Rounds(hooks, keys, data), key)
         == if key in keys then Dispatch(hooks, DeleteOp, key, data[key].data) else []
  {
    if keys != [] {
      var prefix := keys[..|keys| - 1];
      var k := keys[|keys| - 1];
      assert forall j :: j in keys <==> j in prefix || j == k;
      RoundsPerKey(hooks, prefix, data, key);
      KeyEventsAppend(Rounds(hooks, prefix, data), Dispatch(hooks, DeleteOp, k, data[k].data), key);
      KeyEventsDispatch(hooks, DeleteOp, k, data[k].data, key);
    }
  }

  /** A full sweep pass, in any order Go may choose: afterwards no expired
      entry remains, every persistent or live entry is kept unchanged, the
      registry is unchanged, and the calls it logs about each key are one round
      of `Delete` handlers with that key's data if the key was expired and
      none otherwise. */
  lemma SweepPass<V>(s: Store<V>, now: int, order: seq<string>)
    requires IsEnumeration(order, s.data.Keys)
    ensures var r := Sweep(s, now, order);
      && r.data == Survivors(s.data, now)
      && (forall k :: k in r.data ==> !Expired(r.data[k], now))
      && (forall k :: k in s.data && !Expired(s.data[k], now) ==> k in r.data && r.data[k] == s.data[k])
      && r.hooks == s.hooks
      && |s.log| <= |r.log| && r.log[..|s.log|] == s.log
      && forall key :: KeyEvents(r.log[|s.log|..], key)
           == if key in s.data && Expired(s.data[key], now)
              then Dispatch(s.hooks, DeleteOp, key, s.data[key].data) else []
  {
    SweepKeepsHooks(s, now, order);
    SweepEntries(s, now, order);
    SweepLog(s, now, order);
    var r := Sweep(s, now, order);
    assert r.data == Survivors(s.data, now);
    var expired := ExpiredIn(order, s.data, now);
    ExpiredInDistinct(order, s.data, now);
    assert r.log[|s.log|..] == Rounds(s.hooks, expired, s.data);
    forall key
      ensures KeyEvents(r.log[|s.log|..], key)
           == if key in s.data && Expired(s.data[key], now)
              then Dispatch(s.hooks, DeleteOp, key, s.data[key].data) else []
    {
      RoundsPerKey(s.hooks, expired, s.data, key);
    }
  }

  /** Which entries a sweep keeps does not depend on the order it visits them. */
  lemma SweepDataOrderFree<V>(s: Store<V>, now: int, order1: seq<string>, order2: seq<string>)
    requires IsEnumeration(order1, s.data.Keys) && IsEnumeration(order2, s.data.Keys)
    ensures Sweep(s, now, order1).data == Sweep(s, now, order2).data
  {
    SweepPass(s, now, order1);
    SweepPass(s, now, order2);
  }

  /** The lazy and the active paths agree: a `Get` reports not-found exactly
      when a sweep at the same time would leave no entry for the key. */
  lemma LazyAndSweepAgree<V>(s: Store<V>, key: string, now: int, order: seq<string>)
    requires IsEnumeration(order, s.data.Keys)
    ensures Get(s, key, now).1.Err? <==> key !in Sweep(s, now, order).data
  {
    SweepPass(s, now, order);
  }

  /** A sweep never removes a persistent entry. */
  lemma SweepKeepsPersistent<V>(s: Store<V>, now: int, order: seq<string>, key: string)
    requires IsEnumeration(order, s.data.Keys)
    requires key in s.data && s.data[key].isPersistence
    ensures key in Sweep(s, now, order).data && Sweep(s, now, order).data[key] == s.data[key]
  {
    SweepPass(s, now, order);
  }
}
