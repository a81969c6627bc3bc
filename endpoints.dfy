/**
 * The two endpoints of Api/Program.cs that use the key-value service:
 * POST /trigger-event (validate the body, then Update) and GET /events/{key}
 * (forward the subscription's stream, each message framed as a server-sent event).
 */
module Endpoints {
  import opened Wrappers
  import opened KeyValue
  import opened Payload

  /** The result objects the handlers return: 200 OK or 400 Bad Request, each with its text. */
  datatype Response = Ok(message: string) | BadRequest(message: string)

  const EmptyMessage: string := "Event data is empty."
  const FormatMessage: string := "Invalid event data format. Expected format: 'key:value'. Received: "
  const TriggeredMessage: string := "Event triggered for "

  /**
   * POST /trigger-event with body `payload`. A rejected body answers 400 and touches
   * neither the store nor any subscriber; an accepted one is exactly one Update(key, value).
   */
  method TriggerEvent(service: KeyValueService, payload: string) returns (response: Response)
    requires service.Valid()
    modifies service`store, service`registry
    ensures service.Valid()
    ensures ParseTrigger(payload) == Failure(EmptyPayload) ==>
      response == BadRequest(EmptyMessage) && unchanged(service)
    ensures ParseTrigger(payload) == Failure(BadFormat) ==>
      response == BadRequest(FormatMessage + payload) && unchanged(service)
    ensures ParseTrigger(payload).Success? ==>
      var (key, value) := ParseTrigger(payload).value;
      response == Ok(TriggeredMessage + key)
      && service.store == old(service.store)[key := value]
      && service.registry == Dispatch(old(service.registry), key, value)
  {
    if IsNullOrWhiteSpace(payload) {
      return BadRequest(EmptyMessage);
    }
    var data := Split(payload, ':');
    if |data| != 2 {
      return BadRequest(FormatMessage + payload);
    }
    service.Update(data[0], data[1]);
    response := Ok(TriggeredMessage + data[0]);
  }

  /**
   * The `await foreach` body of GET /events/{key} between two suspensions: pull and
   * write every element the stream has ready, each as one frame, in order, until the
   * channel is empty.
   */
  method Forward(service: KeyValueService, id: SubId) returns (written: seq<string>)
    requires service.Valid() && id in service.registry
    modifies service`registry
    ensures service.Valid()
    ensures written == Frames(Outstanding(old(service.registry)[id]))
    ensures service.registry == old(service.registry)[id := old(service.registry)[id].(queue := [], started := true)]
  {
    ghost var cur := service.registry[id];
    ghost var target := Outstanding(cur);
    ghost var n: nat := 0;
    written := [];
    var step := service.Next(id);
    cur := Pull(cur).1;
    while step.Yield?
      invariant service.Valid()
      invariant service.registry == old(service.registry)[id := cur]
      invariant cur.key == old(service.registry)[id].key
      invariant step != Ended && n <= |target| && |written| == n
      invariant forall i :: 0 <= i < n ==> written[i] == Frame(target[i])
      invariant step.Yield? ==> n < |target| && step.value == target[n]
      invariant step.Yield? ==> Outstanding(cur) == target[n + 1..]
      invariant step == Pending ==> Outstanding(cur) == [] && n == |target|
      decreases |target| - n
    {
      FramesSnoc(written, target, n);
      written := written + [Frame(step.value)];
      n := n + 1;
      UpdateTwice(old(service.registry), id, cur, Pull(cur).1);
      step := service.Next(id);
      cur := Pull(cur).1;
    }
    FramesOf(written, target);
  }

  /**
   * One connection to GET /events/{key} while other clients post `writes` and the
   * consumer keeps up: subscribe, write "Start", forward after each write, then tear
   * down. The client receives "Start" and then exactly the values written to `key`,
   * in order, each framed; afterwards the registry is as if it had never subscribed.
   */
  method EventsSession(service: KeyValueService, key: string, writes: seq<Write>) returns (written: seq<string>)
    requires service.Valid()
    modifies service`store, service`registry, service`nextId
    ensures service.Valid()
    ensures written == Frames([Start] + Matching(writes, key))
    ensures service.store == ApplyAll(old(service.store), writes)
    ensures service.registry == DispatchAll(old(service.registry), writes)
  {
    ghost var reg0 := service.registry;
    var id := service.Subscribe(key);
    written := Forward(service, id);
    assert Outstanding(Fresh(key)) == [Start];
    var rest := Relay(service, id, key, writes, reg0);
    FramesAppend([Start], Matching(writes, key));
    written := written + rest;
    SessionEnd(reg0, writes, id, Subscription(key, [], true));
    service.Unsubscribe(id);
  }

  /**
   * The connection's `await foreach` while other clients post `writes` one by one, the
   * connection catching up after each: it writes exactly the frames of the values written
   * to its key, in order, and stays caught up.
   */
  method Relay(service: KeyValueService, id: SubId, key: string, writes: seq<Write>, ghost reg0: Registry)
    returns (written: seq<string>)
    requires service.Valid() && id !in reg0
    requires service.registry == reg0[id := Subscription(key, [], true)]
    modifies service`store, service`registry
    ensures service.Valid()
    ensures written == Frames(Matching(writes, key))
    ensures service.store == ApplyAll(old(service.store), writes)
    ensures service.registry == DispatchAll(reg0, writes)[id := Subscription(key, [], true)]
  {
    written := [];
    assert writes[..0] == [];
    var i := 0;
    while i < |writes|
      invariant 0 <= i <= |writes|
      invariant service.Valid()
      invariant service.store == ApplyAll(old(service.store), writes[..i])
      invariant service.registry == DispatchAll(reg0, writes[..i])[id := Subscription(key, [], true)]
      invariant written == Frames(Matching(writes[..i], key))
    {
      var w := writes[i];
      SessionStep(old(service.store), reg0, writes, i, id, key);
      var more := WriteThenForward(service, id, w);
      FramesAppend(Matching(writes[..i], key), if w.key == key then [w.value] else []);
      written := written + more;
      i := i + 1;
    }
    assert writes[..i] == writes;
  }

  /**
   * Another client's Update(w.key, w.value), after which the connection forwards what it
   * received: the value itself, framed, when the key matches, and nothing otherwise.
   */
  method WriteThenForward(service: KeyValueService, id: SubId, w: Write) returns (more: seq<string>)
    requires service.Valid() && id in service.registry && service.registry[id].started
    requires service.registry[id].queue == []
    modifies service`store, service`registry
    ensures service.Valid()
    ensures service.store == old(service.store)[w.key := w.value]
    ensures service.registry == Dispatch(old(service.registry), w.key, w.value)[id := old(service.registry)[id]]
    ensures more == Frames(if w.key == old(service.registry)[id].key then [w.value] else [])
  {
    ghost var sub := service.registry[id];
    service.Update(w.key, w.value);
    assert Outstanding(service.registry[id]) == if w.key == sub.key then [w.value] else [];
    more := Forward(service, id);
  }

  /** One round of the session: the write reaches the connection's subscription and the rest independently. */
  lemma SessionStep(store0: map<string, string>, reg0: Registry, writes: seq<Write>, i: nat, id: SubId, key: string)
    requires i < |writes|
    ensures var w := writes[i];
      var live := Subscription(key, [], true);
      Dispatch(DispatchAll(reg0, writes[..i])[id := live], w.key, w.value)[id := live]
        == DispatchAll(reg0, writes[..i + 1])[id := live]
    ensures ApplyAll(store0, writes[..i + 1]) == ApplyAll(store0, writes[..i])[writes[i].key := writes[i].value]
    ensures Matching(writes[..i + 1], key) ==
      Matching(writes[..i], key) + (if writes[i].key == key then [writes[i].value] else [])
  {
    var w := writes[i];
    var live := Subscription(key, [], true);
    var before := DispatchAll(reg0, writes[..i]);
    assert writes[..i + 1][..i] == writes[..i];
    assert DispatchAll(reg0, writes[..i + 1]) == Dispatch(before, w.key, w.value);
    DispatchSeparates(before, id, live, w.key, w.value);
    UpdateTwice(Dispatch(before, w.key, w.value), id, Offer(live, w.key, w.value), live);
  }

  /** Tearing the connection down leaves the registry the writes alone would have produced. */
  lemma SessionEnd(reg0: Registry, writes: seq<Write>, id: SubId, live: Subscription)
    requires id !in reg0
    ensures DispatchAll(reg0, writes)[id := live] - {id} == DispatchAll(reg0, writes)
  {
    DispatchAllKeys(reg0, writes);
  }

  /** Updating one entry twice leaves the second value. */
  lemma UpdateTwice(reg: Registry, id: SubId, first: Subscription, second: Subscription)
    ensures reg[id := first][id := second] == reg[id := second]
  {
  }
}
