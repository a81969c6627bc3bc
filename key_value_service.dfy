/**
 * The key-value store with key-filtered fan-out (Api/KeyValueService.cs).
 *
 * The service keeps the latest value per key and a set of live subscriptions.
 * Each subscription is one run of GetNotificationsAsync: a key, a private
 * unbounded FIFO channel, and whether the "Start" sentinel has been yielded.
 * The multicast event of the source becomes the registry of live
 * subscriptions; invoking its handlers becomes Dispatch.
 */
module KeyValue {
  import opened Wrappers

  /** One call `Update(key, value)`. */
  datatype Write = Write(key: string, value: string)

  /** Handle of one subscription (one enumeration of GetNotificationsAsync). */
  type SubId = nat

  /** A live subscription: its filter key, its channel's buffered values, and whether "Start" was yielded. */
  datatype Subscription = Subscription(key: string, queue: seq<string>, started: bool)

  /** The live subscriptions, i.e. the handlers currently registered in OnChange. */
  type Registry = map<SubId, Subscription>

  /** What one pull on a subscription's stream gives. */
  datatype Step =
    | Yield(value: string)  // the next element of the stream
    | Pending               // the channel is empty: ReadAsync would suspend
    | Ended                 // the subscription was torn down: the stream is over

  /** The sentinel every stream yields before any published value. */
  const Start: string := "Start"

  /** A subscription as it is registered: nothing buffered, "Start" not yet yielded. */
  function Fresh(key: string): Subscription
  {
    Subscription(key, [], false)
  }

  // ---------------------------------------------------------------------------
  // The store
  // ---------------------------------------------------------------------------

  /** TryGetValue: the stored value, or None (the source's null) when the key was never written. */
  function Lookup(store: map<string, string>, key: string): Option<string>
  {
    if key in store then Some(store[key]) else None
  }

  /** The store after a history of writes, applied in order. */
  function ApplyAll(store: map<string, string>, writes: seq<Write>): map<string, string>
  {
    if writes == [] then store
    else
      var w := writes[|writes| - 1];
      ApplyAll(store, writes[..|writes| - 1])[w.key := w.value]
  }

  /** The value of the last write to `key` in `writes`, if any. */
  function LastWrite(writes: seq<Write>, key: string): Option<string>
  {
    if writes == [] then None
    else if writes[|writes| - 1].key == key then Some(writes[|writes| - 1].value)
    else LastWrite(writes[..|writes| - 1], key)
  }

  /** The keys written by `writes`. */
  function WrittenKeys(writes: seq<Write>): set<string>
  {
    set i | 0 <= i < |writes| :: writes[i].key
  }

  /** One write: the written key now reads the new value; every other key reads as before. */
  lemma UpdateLookup(store: map<string, string>, key: string, value: string, other: string)
    ensures Lookup(store[key := value], key) == Some(value)
    ensures other != key ==> Lookup(store[key := value], other) == Lookup(store, other)
  {
  }

  /** Last write wins: after a history, a key reads the last value written to it, or its old value when none was. */
  lemma {:induction false} HistoryLookup(store: map<string, string>, writes: seq<Write>, key: string)
    ensures Lookup(ApplyAll(store, writes), key) ==
              match LastWrite(writes, key)
              case Some(v) => Some(v)
              case None => Lookup(store, key)
  {
    if writes != [] {
      HistoryLookup(store, writes[..|writes| - 1], key);
    }
  }

  /** A key that no write names reads as absent in a store that started empty, never as a default string. */
  lemma NeverWrittenIsAbsent(writes: seq<Write>, key: string)
    requires forall i :: 0 <= i < |writes| ==> writes[i].key != key
    ensures Lookup(ApplyAll(map[], writes), key) == None
  {
    HistoryLookup(map[], writes, key);
    NoLastWrite(writes, key);
  }

  lemma {:induction false} NoLastWrite(writes: seq<Write>, key: string)
    requires forall i :: 0 <= i < |writes| ==> writes[i].key != key
    ensures LastWrite(writes, key) == None
  {
    if writes != [] {
      NoLastWrite(writes[..|writes| - 1], key);
    }
  }

  /** No operation removes a key: the keys after a history are the old keys plus the written ones. */
  lemma {:induction false} HistoryKeys(store: map<string, string>, writes: seq<Write>)
    ensures ApplyAll(store, writes).Keys == store.Keys + WrittenKeys(writes)
  {
    if writes != [] {
      var init := writes[..|writes| - 1];
      HistoryKeys(store, init);
      assert WrittenKeys(writes) == WrittenKeys(init) + {writes[|writes| - 1].key} by {
        forall k | k in WrittenKeys(writes) ensures k in WrittenKeys(init) + {writes[|writes| - 1].key} {
          var i :| 0 <= i < |writes| && writes[i].key == k;
          if i < |writes| - 1 { assert init[i] == writes[i]; }
        }
        forall k | k in WrittenKeys(init) ensures k in WrittenKeys(writes) {
          var i :| 0 <= i < |init| && init[i].key == k;
          assert writes[i] == init[i];
        }
      }
    }
  }

  // ---------------------------------------------------------------------------
  // Fan-out
  // ---------------------------------------------------------------------------

  /** One subscription's Handler: enqueue the value only when the published key equals the filter key (ordinal). */
  function Offer(s: Subscription, key: string, value: string): (r: Subscription)
    ensures r.key == s.key && r.started == s.started
    ensures Outstanding(r) == Outstanding(s) + (if s.key == key then [value] else [])
  {
    if s.key == key then s.(queue := s.queue + [value]) else s
  }

  /** OnChange?.Invoke(key, value): every registered handler sees the event. */
  function Dispatch(reg: Registry, key: string, value: string): (r: Registry)
    ensures r.Keys == reg.Keys
    ensures forall id :: id in reg && reg[id].key == key ==> r[id] == reg[id].(queue := reg[id].queue + [value])
    ensures forall id :: id in reg && reg[id].key != key ==> r[id] == reg[id]
  {
    map id | id in reg :: Offer(reg[id], key, value)
  }

  /** The registry after a history of writes. */
  function DispatchAll(reg: Registry, writes: seq<Write>): Registry
  {
    if writes == [] then reg
    else
      var w := writes[|writes| - 1];
      Dispatch(DispatchAll(reg, writes[..|writes| - 1]), w.key, w.value)
  }

  /** The values of the writes to `key`, in the order they were written. */
  function Matching(writes: seq<Write>, key: string): seq<string>
  {
    if writes == [] then []
    else
      var w := writes[|writes| - 1];
      Matching(writes[..|writes| - 1], key) + (if w.key == key then [w.value] else [])
  }

  /** Dispatching to a registry with one extra subscription affects that subscription and the rest independently. */
  lemma DispatchSeparates(reg: Registry, id: SubId, s: Subscription, key: string, value: string)
    ensures Dispatch(reg[id := s], key, value) == Dispatch(reg, key, value)[id := Offer(s, key, value)]
  {
  }

  /** Writes never add or remove subscriptions. */
  lemma {:induction false} DispatchAllKeys(reg: Registry, writes: seq<Write>)
    ensures DispatchAll(reg, writes).Keys == reg.Keys
  {
    if writes != [] {
      DispatchAllKeys(reg, writes[..|writes| - 1]);
    }
  }

  /**
   * Exact, ordered fan-out: over any history, a live subscription's queue grows by exactly
   * the values written to its key, in write order, and nothing else about it changes.
   * This holds for every live subscription at once, whatever the others hold.
   */
  lemma {:induction false} DispatchAllFifo(reg: Registry, writes: seq<Write>, id: SubId)
    requires id in reg
    ensures id in DispatchAll(reg, writes)
    ensures DispatchAll(reg, writes)[id] == reg[id].(queue := reg[id].queue + Matching(writes, reg[id].key))
  {
    if writes != [] {
      var init := writes[..|writes| - 1];
      var w := writes[|writes| - 1];
      var s := reg[id];
      DispatchAllFifo(reg, init, id);
      var before := DispatchAll(reg, init);
      assert before[id] == s.(queue := s.queue + Matching(init, s.key));
      assert DispatchAll(reg, writes) == Dispatch(before, w.key, w.value);
      var extra := if w.key == s.key then [w.value] else [];
      assert Matching(writes, s.key) == Matching(init, s.key) + extra;
      assert s.queue + Matching(writes, s.key) == (s.queue + Matching(init, s.key)) + extra;
    }
  }

  /** After teardown no later write reaches the subscription: it is not in the registry any more. */
  lemma TornDownReceivesNothing(reg: Registry, writes: seq<Write>, id: SubId)
    requires id !in reg
    ensures id !in DispatchAll(reg, writes)
  {
    DispatchAllKeys(reg, writes);
  }

  /**
   * Subscribing and tearing down leaves no trace: the other subscriptions evolve as if
   * this one had never existed.
   */
  lemma {:induction false} SubscriptionLeavesNoTrace(reg: Registry, writes: seq<Write>, id: SubId, s: Subscription)
    requires id !in reg
    ensures DispatchAll(reg[id := s], writes) - {id} == DispatchAll(reg, writes)
  {
    if writes == [] {
      assert reg[id := s] - {id} == reg;
    } else {
      var init := writes[..|writes| - 1];
      var w := writes[|writes| - 1];
      SubscriptionLeavesNoTrace(reg, init, id, s);
      DispatchWithout(DispatchAll(reg[id := s], init), id, w.key, w.value);
    }
  }

  /** Removing a subscription before or after a dispatch gives the same registry. */
  lemma DispatchWithout(reg: Registry, id: SubId, key: string, value: string)
    ensures Dispatch(reg, key, value) - {id} == Dispatch(reg - {id}, key, value)
  {
  }

  // ---------------------------------------------------------------------------
  // Draining one subscription
  // ---------------------------------------------------------------------------

  /** The elements the stream yields, in order, before it next has to wait. */
  function Outstanding(s: Subscription): seq<string>
  {
    (if s.started then [] else [Start]) + s.queue
  }

  /**
   * One step of the enumeration: "Start" first, then the channel's values in FIFO order;
   * Pending exactly when nothing is outstanding.
   */
  function Pull(s: Subscription): (r: (Step, Subscription))
    ensures r.1.key == s.key
    ensures r.0 == Pending <==> Outstanding(s) == []
    ensures r.0 == Pending ==> r.1 == s
    ensures r.0 != Pending ==> r.0 == Yield(Outstanding(s)[0]) && Outstanding(r.1) == Outstanding(s)[1..]
    ensures r.0 != Ended
  {
    if !s.started then (Yield(Start), s.(started := true))
    else if s.queue != [] then (Yield(s.queue[0]), s.(queue := s.queue[1..]))
    else (Pending, s)
  }

  /** Start comes first, then every value written to the key since subscribing, in write order. */
  lemma StartThenWritesInOrder(reg: Registry, writes: seq<Write>, id: SubId, key: string)
    requires id !in reg
    ensures id in DispatchAll(reg[id := Fresh(key)], writes)
    ensures Outstanding(DispatchAll(reg[id := Fresh(key)], writes)[id]) == [Start] + Matching(writes, key)
  {
    DispatchAllFifo(reg[id := Fresh(key)], writes, id);
  }

  // ---------------------------------------------------------------------------
  // The service object
  // ---------------------------------------------------------------------------

  class KeyValueService {
    /** _store: latest value per key. */
    var store: map<string, string>
    /** The handlers registered in OnChange, one per live subscription. */
    var registry: Registry
    /** The next unused subscription handle. */
    var nextId: SubId

    /** Every live handle was issued earlier, so a new handle never collides with a live one. */
    ghost predicate Valid()
      reads this
    {
      forall id :: id in registry ==> id < nextId
    }

    /** The service wraps the store it is given and starts with no subscribers. */
    constructor (initial: map<string, string>)
      ensures Valid()
      ensures store == initial && registry == map[]
    {
      store := initial;
      registry := map[];
      nextId := 0;
    }

    /** Write the store, then invoke every registered handler with (key, value). */
    method Update(key: string, value: string)
      requires Valid()
      modifies this`store, this`registry
      ensures Valid()
      ensures store == old(store)[key := value]
      ensures registry == Dispatch(old(registry), key, value)
    {
      store := store[key := value];
      var todo := registry.Keys;
      while todo != {}
        invariant store == old(store)[key := value]
        invariant registry.Keys == old(registry).Keys
        invariant todo <= registry.Keys
        invariant forall id :: id in registry ==>
          registry[id] == if id in todo then old(registry)[id] else Offer(old(registry)[id], key, value)
        decreases todo
      {
        var id :| id in todo;
        registry := registry[id := Offer(registry[id], key, value)];
        todo := todo - {id};
      }
    }

    /** The stored value, or None when the key was never written. */
    method GetValue(key: string) returns (r: Option<string>)
      ensures r == Lookup(store, key)
      ensures r.Some? <==> key in store
      ensures r.Some? ==> r.value == store[key]
    {
      if key in store {
        r := Some(store[key]);
      } else {
        r := None;
      }
    }

    /**
     * Create a private channel and register its filtering handler: exactly one new, empty
     * subscription, under a handle never issued before, so a torn-down handle is never revived.
     */
    method Subscribe(key: string) returns (id: SubId)
      requires Valid()
      modifies this`registry, this`nextId
      ensures Valid()
      ensures id !in old(registry)
      ensures id == old(nextId) && nextId == old(nextId) + 1
      ensures registry == old(registry)[id := Fresh(key)]
    {
      id := nextId;
      nextId := nextId + 1;
      registry := registry[id := Fresh(key)];
    }

    /** Advance the subscription's stream by one element, or report that it must wait or has ended. */
    method Next(id: SubId) returns (step: Step)
      requires Valid()
      modifies this`registry
      ensures Valid()
      ensures id !in old(registry) ==> step == Ended && registry == old(registry)
      ensures id in old(registry) ==>
        step == Pull(old(registry)[id]).0 && registry == old(registry)[id := Pull(old(registry)[id]).1]
    {
      if id !in registry {
        step := Ended;
      } else {
        var r := Pull(registry[id]);
        step := r.0;
        registry := registry[id := r.1];
      }
    }

    /**
     * The finally block (run on completion, cancellation or error): deregister the handler.
     * Values still buffered are dropped; a second call changes nothing.
     */
    method Unsubscribe(id: SubId)
      requires Valid()
      modifies this`registry
      ensures Valid()
      ensures registry == old(registry) - {id}
    {
      registry := registry - {id};
    }
  }
}
