/**
  The hook registry and handler dispatch (cache.go:29-35, cache.go:160-166).
  A handler is an opaque identifier; calling it is recorded as one event,
  so dispatch is described by the events it appends to a log.
 */
module Hooks {

  /** `OperationType`: the two kinds a handler can be registered for. */
  datatype OpKind = CreateOp | DeleteOp

  /** A registered `HandlerFunc`, known only by its identity. */
  type HandlerId = nat

  /** The registry: operation kind to its handlers, in registration order. */
  type Registry = map<OpKind, seq<HandlerId>>

  /** One call of a handler registered under `kind`, with `(key, data)`. */
  datatype Event<V> = Event(kind: OpKind, handler: HandlerId, key: string, data: V)

  /** The calls of `handlers` in slice order, each with `(key, data)`. */
  function Fire<V>(kind: OpKind, handlers: seq<HandlerId>, key: string, data: V): (r: seq<Event<V>>)
    ensures |r| == |handlers|
  {
    if handlers == [] then []
    else Fire(kind, handlers[..|handlers| - 1], key, data) + [Event(kind, handlers[|handlers| - 1], key, data)]
  }

  /** The i-th call of `Fire` is the i-th handler, with the same kind, key and data. */
  lemma {:induction false} FireAt<V>(kind: OpKind, handlers: seq<HandlerId>, key: string, data: V, i: int)
    requires 0 <= i < |handlers|
    ensures Fire(kind, handlers, key, data)[i] == Event(kind, handlers[i], key, data)
  {
    if i < |handlers| - 1 {
      FireAt(kind, handlers[..|handlers| - 1], key, data, i);
    }
  }

  /** What `processHooks(kind, key, data)` calls: every handler registered
      under `kind`, once each and in slice order, and nothing when `kind` has
      no entry in the registry. */
  function Dispatch<V>(hooks: Registry, kind: OpKind, key: string, data: V): (r: seq<Event<V>>)
    ensures kind !in hooks ==> r == []
    ensures kind in hooks ==> |r| == |hooks[kind]|
    ensures forall i :: 0 <= i < |r| ==> kind in hooks && r[i] == Event(kind, hooks[kind][i], key, data)
  {
    if kind in hooks then
      var handlers := hooks[kind];
      assert forall i :: 0 <= i < |handlers| ==> Fire(kind, handlers, key, data)[i] == Event(kind, handlers[i], key, data) by {
        forall i | 0 <= i < |handlers| {
          FireAt(kind, handlers, key, data, i);
        }
      }
      Fire(kind, handlers, key, data)
    else []
  }

  /** The events of `events` about `key`, in order. */
  function KeyEvents<V>(events: seq<Event<V>>, key: string): (r: seq<Event<V>>)
    ensures |r| <= |events|
    ensures forall i :: 0 <= i < |r| ==> r[i].key == key
  {
    if events == [] then []
    else
      var last := events[|events| - 1];
      KeyEvents(events[..|events| - 1], key) + (if last.key == key then [last] else [])
  }

  /** Selecting by key distributes over concatenation. */
  lemma {:induction false} KeyEventsAppend<V>(a: seq<Event<V>>, b: seq<Event<V>>, key: string)
    ensures KeyEvents(a + b, key) == KeyEvents(a, key) + KeyEvents(b, key)
  {
    if b == [] {
      assert a + b == a;
    } else {
      var b' := b[..|b| - 1];
      assert (a + b)[..|a + b| - 1] == a + b';
      KeyEventsAppend(a, b', key);
    }
  }

  /** A dispatch for one key holds nothing about any other key, and all of
      itself is about that key. */
  lemma {:induction false} KeyEventsFire<V>(kind: OpKind, handlers: seq<HandlerId>, k: string, data: V, key: string)
    ensures KeyEvents(Fire(kind, handlers, k, data), key) == if key == k then Fire(kind, handlers, k, data) else []
  {
    if handlers != [] {
      KeyEventsFire(kind, handlers[..|handlers| - 1], k, data, key);
    }
  }

  /** `KeyEventsFire` for a whole dispatch. */
  lemma KeyEventsDispatch<V>(hooks: Registry, kind: OpKind, k: string, data: V, key: string)
    ensures KeyEvents(Dispatch(hooks, kind, k, data), key) == if key == k then Dispatch(hooks, kind, k, data) else []
  {
    if kind in hooks {
      KeyEventsFire(kind, hooks[kind], k, data, key);
    }
  }
}
