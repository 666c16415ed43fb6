/** The client object of src/client.rs, with the fields its tasks share. Each method is a
    task running uninterrupted over one or more lock-protected blocks; it is tied to the
    steps of the protocol, which `Exec` interleaves in every other way too. */
module ClientObject {
  import opened Rpc
  import opened Dispatch
  import opened Protocol
  import opened Invariants

  /** One turn of the receive loop; `readable` says whether the response deserializes. */
  function HandleOne(st: State, h: nat, readable: bool): State
    requires HandlerEnabled(st, Receive(h))
  {
    var received := HandlerStep(st, Receive(h));
    if !readable then HandlerStep(received, SkipResponse(h))
    else
      var removed := HandlerStep(received, RemovePending(h));
      if HandlerEnabled(removed, Complete(h)) then HandlerStep(removed, Complete(h)) else removed
  }

  /** The receive loop until the transport ends or fails, having yielded as many responses
      as `readable` says something about. */
  function HandleAll(st: State, h: nat, readable: seq<bool>): State
    decreases |readable|
  {
    if readable == [] || !HandlerEnabled(st, Receive(h)) then st
    else HandleAll(HandleOne(st, h, readable[0]), h, readable[1..])
  }

  /** A response handler from start to end: it takes the stream, reads, and puts it back. */
  function HandlerRun(st: State, h: nat, readable: seq<bool>): State
    requires HandlerEnabled(st, Take(h))
  {
    var handled := HandleAll(HandlerStep(st, Take(h)), h, readable);
    if HandlerEnabled(handled, PutBack(h)) then HandlerStep(handled, PutBack(h)) else handled
  }

  /** The first response in a queue that deserializes and carries `id`. */
  function FirstWith(queue: seq<Response>, readable: seq<bool>, id: u64): Option<Response>
    requires |queue| == |readable|
  {
    if queue == [] then None
    else if readable[0] && queue[0].id == id then Some(queue[0])
    else FirstWith(queue[1..], readable[1..], id)
  }

  lemma FirstWithNext(queue: seq<Response>, readable: seq<bool>, id: u64)
    requires 0 < |readable| <= |queue|
    ensures FirstWith(queue[..|readable|], readable, id) ==
            if readable[0] && queue[0].id == id then Some(queue[0])
            else FirstWith(queue[1..][..|readable| - 1], readable[1..], id)
  {
    assert queue[..|readable|][1..] == queue[1..][..|readable| - 1];
  }

  /** What one turn of the receive loop leaves as it was. */
  ghost predicate TurnKeeps(st: State, h: nat, st': State)
    requires HandlerEnabled(st, Receive(h))
  {
    var s := st.handlers[h].stream;
    && Books(st') && HandlerHolds(st', h) && st'.handlers[h] == Receiving(s)
    && st'.streams == st.streams[s := Dequeue(st.streams[s])]
    && st'.requests == st.requests && |st'.calls| == |st.calls|
    && st'.slot == st.slot && st'.closing == st.closing
  }

  lemma SkipKeeps(st: State, h: nat)
    requires Books(st) && HandlerEnabled(st, Receive(h))
    ensures TurnKeeps(st, h, HandleOne(st, h, false))
  {
    BooksHandler(st, Receive(h));
    BooksHandler(HandlerStep(st, Receive(h)), SkipResponse(h));
  }

  lemma DeliverKeeps(st: State, h: nat)
    requires Books(st) && HandlerEnabled(st, Receive(h))
    ensures TurnKeeps(st, h, HandleOne(st, h, true))
  {
    var received := HandlerStep(st, Receive(h));
    var removed := HandlerStep(received, RemovePending(h));
    BooksHandler(st, Receive(h));
    BooksHandler(received, RemovePending(h));
    if HandlerEnabled(removed, Complete(h)) {
      BooksHandler(removed, Complete(h));
    }
  }

  lemma HandleOneKeeps(st: State, h: nat, readable: bool)
    requires Books(st) && HandlerEnabled(st, Receive(h))
    ensures TurnKeeps(st, h, HandleOne(st, h, readable))
  {
    if readable {
      DeliverKeeps(st, h);
    } else {
      SkipKeeps(st, h);
    }
  }

  /** A readable response takes the entry under its id, if there is one, and tells its
      caller; every other entry and call is left alone. */
  lemma HandleOneSettles(st: State, h: nat, readable: bool, id: u64)
    requires Books(st) && HandlerEnabled(st, Receive(h)) && id in st.pending
    ensures var st' := HandleOne(st, h, readable);
            var response := st.streams[st.handlers[h].stream].responseQueue[0];
            var c := st.pending[id];
            && c < |st.calls| && c < |st'.calls|
            && if readable && response.id == id then
                 && id !in st'.pending
                 && st'.calls[c].phase == st.calls[c].phase
                 && (if st.calls[c].phase.Finished? then st'.calls[c].sender == Dropped
                     else st'.calls[c].sender.Sent? && st'.calls[c].sender.value == ValueOf(response))
               else
                 id in st'.pending && st'.pending[id] == c && st'.calls[c] == st.calls[c]
  {
  }

  /** A call whose channel is settled is not touched again. */
  lemma {:induction false} HandleAllLeaves(st: State, h: nat, readable: seq<bool>, c: nat)
    requires Books(st) && HandlerHolds(st, h) && st.handlers[h].Receiving?
    requires |readable| <= |st.streams[st.handlers[h].stream].responseQueue|
    requires c < |st.calls| && Settled(st.calls[c])
    ensures var st' := HandleAll(st, h, readable); c < |st'.calls| && st'.calls[c] == st.calls[c]
    decreases |readable|
  {
    if readable != [] {
      HandleOneKeeps(st, h, readable[0]);
      HandleOneLeaves(st, h, readable[0], c);
      HandleAllLeaves(HandleOne(st, h, readable[0]), h, readable[1..], c);
    }
  }

  lemma HandleOneLeaves(st: State, h: nat, readable: bool, c: nat)
    requires Books(st) && HandlerEnabled(st, Receive(h))
    requires c < |st.calls| && Settled(st.calls[c])
    ensures var st' := HandleOne(st, h, readable); c < |st'.calls| && st'.calls[c] == st.calls[c]
  {
  }

  /** What the receive loop amounts to for the callers: each pending call is told the first
      readable response with its id, or left pending when there is none. */
  lemma {:induction false} HandleAllSettles(st: State, h: nat, readable: seq<bool>, id: u64)
    requires Books(st) && HandlerHolds(st, h) && st.handlers[h].Receiving?
    requires |readable| <= |st.streams[st.handlers[h].stream].responseQueue|
    requires id in st.pending
    ensures var s := st.handlers[h].stream;
            var st' := HandleAll(st, h, readable);
            var c := st.pending[id];
            && c < |st.calls| && c < |st'.calls|
            && match FirstWith(st.streams[s].responseQueue[..|readable|], readable, id)
               case None => id in st'.pending && st'.pending[id] == c && st'.calls[c] == st.calls[c]
               case Some(response) =>
                 if st.calls[c].phase.Finished? then st'.calls[c].sender == Dropped
                 else st'.calls[c].sender.Sent? && st'.calls[c].sender.value == ValueOf(response)
    decreases |readable|
  {
    if readable != [] {
      HandleOneKeeps(st, h, readable[0]);
      HandleOneSettles(st, h, readable[0], id);
      var st1 := HandleOne(st, h, readable[0]);
      FirstWithNext(st.streams[st.handlers[h].stream].responseQueue, readable, id);
      if readable[0] && st.streams[st.handlers[h].stream].responseQueue[0].id == id {
        HandleAllLeaves(st1, h, readable[1..], st.pending[id]);
      } else {
        HandleAllSettles(st1, h, readable[1..], id);
      }
    }
  }

  function ReadOff(stream: Stream, n: nat): Stream
    requires n <= |stream.responseQueue|
  {
    stream.(responseQueue := stream.responseQueue[n..], handled := stream.handled + stream.responseQueue[..n])
  }

  lemma ReadOffNext(stream: Stream, n: nat)
    requires 0 < n <= |stream.responseQueue|
    ensures ReadOff(Dequeue(stream), n - 1) == ReadOff(stream, n)
  {
    assert [stream.responseQueue[0]] + stream.responseQueue[1..][..n - 1] == stream.responseQueue[..n];
  }

  /** The receive loop reads its stream's queue in order, one response for each `readable`,
      touches no other stream, and keeps hold of its own. */
  lemma {:induction false} HandleAllReads(st: State, h: nat, readable: seq<bool>)
    requires Books(st) && HandlerHolds(st, h) && st.handlers[h].Receiving?
    requires |readable| <= |st.streams[st.handlers[h].stream].responseQueue|
    ensures var s := st.handlers[h].stream;
            var st' := HandleAll(st, h, readable);
            && st'.streams == st.streams[s := ReadOff(st.streams[s], |readable|)]
            && Books(st') && HandlerHolds(st', h) && st'.handlers[h] == Receiving(s)
            && st'.slot == st.slot && st'.closing == st.closing
    decreases |readable|
  {
    var s := st.handlers[h].stream;
    var stream := st.streams[s];
    if readable == [] {
      assert ReadOff(stream, 0) == stream;
    } else {
      HandleOneKeeps(st, h, readable[0]);
      ReadOffNext(stream, |readable|);
      HandleAllReads(HandleOne(st, h, readable[0]), h, readable[1..]);
    }
  }

  /** Exactly the calls in `told` have been told of the close. */
  ghost predicate Told(before: seq<Call>, after: seq<Call>, told: set<nat>) {
    && |after| == |before|
    && forall c | 0 <= c < |before| ::
         after[c] == if c in told then Resolve(before[c], ConnectionClosed, None) else before[c]
  }

  /** Of the entries of `all`, those in `pending` are still to be drained. */
  ghost predicate Draining(before: seq<Call>, all: map<u64, nat>, after: seq<Call>, pending: map<u64, nat>) {
    && (forall id | id in pending :: pending[id] < |before|)
    && exists told: set<nat> :: told + pending.Values == all.Values && Told(before, after, told)
  }

  lemma DrainStarts(calls: seq<Call>, pending: map<u64, nat>)
    requires forall id | id in pending :: pending[id] < |calls|
    ensures Draining(calls, pending, calls, pending)
  {
    var none: set<nat> := {};
    assert none + pending.Values == pending.Values && Told(calls, calls, none);
  }

  lemma DrainTurn(before: seq<Call>, all: map<u64, nat>, after: seq<Call>, pending: map<u64, nat>, id: u64)
    requires Draining(before, all, after, pending) && id in pending
    ensures pending[id] < |after| && |pending - {id}| < |pending|
    ensures Draining(before, all, after[pending[id] := Resolve(after[pending[id]], ConnectionClosed, None)],
                     pending - {id})
  {
    var c := pending[id];
    ValuesWithout(pending, id);
    var told: set<nat> :| told + pending.Values == all.Values && Told(before, after, told);
    TellOne(before, after, told, c);
    assert told + {c} + (pending - {id}).Values == told + pending.Values;
    StillDraining(before, all, after[c := Resolve(after[c], ConnectionClosed, None)], pending - {id}, told + {c});
  }

  lemma StillDraining(before: seq<Call>, all: map<u64, nat>, after: seq<Call>, pending: map<u64, nat>, told: set<nat>)
    requires forall id | id in pending :: pending[id] < |before|
    requires told + pending.Values == all.Values && Told(before, after, told)
    ensures Draining(before, all, after, pending)
  {
  }

  lemma TellOne(before: seq<Call>, after: seq<Call>, told: set<nat>, c: nat)
    requires Told(before, after, told) && c < |before|
    ensures Told(before, after[c := Resolve(after[c], ConnectionClosed, None)], told + {c})
  {
  }

  lemma DrainEnds(before: seq<Call>, all: map<u64, nat>, after: seq<Call>, pending: map<u64, nat>)
    requires Draining(before, all, after, pending) && pending == map[]
    ensures after == DrainCalls(before, all)
  {
    var told: set<nat> :| told + pending.Values == all.Values && Told(before, after, told);
    assert told == all.Values;
  }

  lemma ValuesWithout(pending: map<u64, nat>, id: u64)
    requires id in pending
    ensures |pending - {id}| < |pending|
    ensures pending.Values == (pending - {id}).Values + {pending[id]}
  {
    var rest := pending - {id};
    assert rest.Keys == pending.Keys - {id};
    assert pending == rest[id := pending[id]];
  }

  /** Call `c` has registered, and the call whose entry it took, if any, has lost its sender. */
  ghost predicate TakesOver(before: seq<Call>, pending: map<u64, nat>, id: u64, c: nat, after: seq<Call>) {
    && |after| == |before| && c < |after| && after[c] == Call(Registered, InPending)
    && forall d | 0 <= d < |before| && d != c ::
         && after[d].phase == before[d].phase
         && after[d].sender == if id in pending && pending[id] == d then Dropped else before[d].sender
  }

  lemma InsertTakesOver(st: State, c: nat)
    requires Books(st) && CallIn(st, c, Allocated)
    ensures TakesOver(st.calls, st.pending, st.requests[c].id, c, Insert(st, c).calls)
  {
  }

  /** The calls that were pending, and no others, have been told that the connection is
      closed, unless they had returned already. */
  ghost predicate ToldClosed(before: seq<Call>, pending: map<u64, nat>, after: seq<Call>) {
    && |after| == |before|
    && forall c | 0 <= c < |before| ::
         && after[c].phase == before[c].phase
         && after[c].sender == if c !in pending.Values then before[c].sender
                               else if before[c].phase.Finished? then Dropped else Sent(ConnectionClosed, None)
  }

  lemma DrainTells(calls: seq<Call>, pending: map<u64, nat>)
    ensures ToldClosed(calls, pending, DrainCalls(calls, pending))
  {
  }

  class Client {
    // Shared under locks.
    var nextId: u64
    var pending: map<u64, nat>
    var slot: Option<nat>
    var session: Option<nat>
    // What the tasks and the two ends of each stream hold.
    var requests: seq<Request>
    var calls: seq<Call>
    var streams: seq<Stream>
    var closing: Closing
    var handlers: seq<Handler>
    var connectors: seq<Connector>
    var registries: seq<Registry>

    function View(): State
      reads this
    {
      State(requests, calls, nextId, pending, streams, slot, session, closing, handlers, connectors, registries)
    }

    constructor ()
      ensures View() == Init()
    {
      nextId, pending, slot, session := 0, map[], None, None;
      requests, calls, streams, closing := [], [], [], NotClosing;
      handlers, connectors, registries := [], [], [map[]];
    }

    /** `call`, the id block: the counter wraps around. */
    method AllocateId(methodName: string, payload: Bytes) returns (c: nat)
      requires Books(View())
      modifies this
      ensures c == old(|requests|) && c < |requests| && requests[..c] == old(requests) && Books(View())
      ensures requests[c].id == old(nextId) && requests[c].methodName == methodName && requests[c].payload == payload
      ensures nextId == if old(nextId) == 0xFFFF_FFFF_FFFF_FFFF then 0 else old(nextId) + 1
      ensures View() == CallStep(Literal, old(View()), Allocate(methodName, payload))
    {
      BooksAllocate(Literal, View(), Allocate(methodName, payload));
      var id := nextId;
      nextId := (id + 1) % U64_MODULUS;
      c := |requests|;
      requests := requests + [Request(id, methodName, payload)];
      calls := calls + [FRESH_CALL];
    }

    /** `call`, the registration block: an older sender under the same id is dropped. */
    method RegisterCall(c: nat)
      requires Books(View()) && CallIn(View(), c, Allocated)
      modifies this
      ensures requests == old(requests) && c < |requests| && pending == old(pending)[requests[c].id := c]
      ensures TakesOver(old(calls), old(pending), requests[c].id, c, calls)
      ensures View() == Insert(old(View()), c) && Books(View())
    {
      BooksInsert(View(), c);
      InsertTakesOver(View(), c);
      var id := requests[c].id;
      if id in pending {
        calls := calls[pending[id] := calls[pending[id]].(sender := Dropped)];
      }
      pending := pending[id := c];
      calls := calls[c := Call(Registered, InPending)];
    }

    /** `call`, writing the request while it holds the stream lock. The transport accepts
        the write, or fails it after the request arrived or before. */
    method SendRequest(c: nat, accepted: bool, arrived: bool) returns (sent: bool)
      requires CallIn(View(), c, Registered) && SlotFree(View()) && Places(View())
      modifies this
      ensures sent <==> old(slot).Some? && accepted
      ensures |calls| == |old(calls)| && |streams| == |old(streams)| && requests == old(requests) && c < |requests|
      ensures sent ==> calls[c].phase == Waiting
      ensures !sent ==> calls[c].phase == Finished(if old(slot) == None then ConnectionClosed else WebTransportError)
      ensures old(slot).Some? && (accepted || arrived) ==>
                var s := old(slot).value;
                && s < |streams| && streams[s].requestQueue == old(streams)[s].requestQueue + [requests[c]]
                && streams[s].senders == old(streams)[s].senders + [c]
      ensures pending == old(pending)
      ensures View() == CallStep(Literal, old(View()),
                                 match old(slot)
                                 case None => RefuseSend(c)
                                 case Some(s) => if accepted then Send(c, s) else BreakSend(c, s, arrived))
    {
      match slot
      case None =>
        calls := calls[c := calls[c].(phase := Finished(ConnectionClosed))];
        sent := false;
      case Some(s) =>
        if accepted || arrived {
          streams := streams[s := Enqueue(streams[s], c, requests[c])];
        }
        calls := calls[c := calls[c].(phase := if accepted then Waiting else Finished(WebTransportError))];
        sent := accepted;
    }

    /** `call`, waiting for its channel under a timer: `expired` says that the timer fires
        first, `decodes` that the reply, if there is one, decodes. */
    method AwaitReply(c: nat, expired: bool, decodes: bool) returns (outcome: Outcome)
      requires CallIn(View(), c, Waiting) && (!expired ==> Settled(calls[c]))
      modifies this
      ensures c < |calls| && calls[c].phase == Finished(outcome) && pending == old(pending)
      ensures if expired then outcome == Timeout
              else
                match old(calls)[c].sender
                case Sent(Answer(bytes), _) => outcome == if decodes then Answer(bytes) else DecodingError
                case Sent(value, _) => outcome == value
                case _ => outcome == ConnectionClosed
      ensures View() == CallStep(Literal, old(View()), if expired then Expire(c) else Observe(c, decodes))
    {
      if expired {
        outcome := Timeout;
      } else {
        match calls[c].sender
        case Sent(Answer(bytes), _) =>
          outcome := if decodes then Answer(bytes) else DecodingError;
        case Sent(value, _) =>
          outcome := value;
        case _ =>
          outcome := ConnectionClosed;
      }
      calls := calls[c := calls[c].(phase := Finished(outcome))];
    }

    /** `connect`, the first guarded store. */
    method StoreSessionBlock(n: nat)
      requires ConnectEnabled(View(), StoreSession(n))
      modifies this
      ensures session == Some(old(connectors)[n].stream) && slot == old(slot)
      ensures View() == ConnectStep(old(View()), StoreSession(n))
    {
      session := Some(connectors[n].stream);
      connectors := connectors[n := SessionStored(connectors[n].stream)];
    }

    /** `connect`, the second guarded store, and spawning a handler. */
    method StoreStreamBlock(n: nat)
      requires ConnectEnabled(View(), StoreStream(n)) && (slot.Some? ==> slot.value < |streams|)
      modifies this
      ensures var s := old(connectors)[n].stream;
              && slot == Some(s) && session == old(session) && handlers == old(handlers) + [Spawned]
              && |streams| == |old(streams)| && streams[s].place == InSlot
              && (old(slot).Some? && old(slot).value != s ==> streams[old(slot).value].place == Gone)
      ensures View() == ConnectStep(old(View()), StoreStream(n))
    {
      var s := connectors[n].stream;
      if slot.Some? {
        streams := streams[slot.value := streams[slot.value].(place := Gone)];
      }
      slot := Some(s);
      streams := streams[s := streams[s].(place := InSlot)];
      connectors := connectors[n := Connected];
      handlers := handlers + [Spawned];
    }

    /** `connect`, once its stream is open: both stores, one after the other. */
    method StoreConnection(n: nat)
      requires ConnectEnabled(View(), StoreSession(n)) && connectors[n].stream < |streams|
      requires slot.Some? ==> slot.value < |streams|
      modifies this
      ensures var s := old(connectors)[n].stream;
              && session == Some(s) && slot == Some(s) && |streams| == |old(streams)| && streams[s].place == InSlot
              && handlers == old(handlers) + [Spawned]
              && (old(slot).Some? && old(slot).value != s ==> streams[old(slot).value].place == Gone)
      ensures ConnectEnabled(ConnectStep(old(View()), StoreSession(n)), StoreStream(n))
      ensures View() == ConnectStep(ConnectStep(old(View()), StoreSession(n)), StoreStream(n))
    {
      StoreSessionBlock(n);
      StoreStreamBlock(n);
    }

    /** The handler reads and deserializes the next response. */
    method ReadResponse(h: nat, readable: bool) returns (got: bool)
      requires HandlerEnabled(View(), Receive(h))
      modifies this
      ensures got == readable
      ensures var s := old(handlers)[h].stream;
              var response := old(streams)[s].responseQueue[0];
              && h < |handlers| && handlers[h] == (if readable then Decoding(s, response) else Receiving(s))
              && |streams| == |old(streams)| && streams[s].handled == old(streams)[s].handled + [response]
              && streams[s].responseQueue == old(streams)[s].responseQueue[1..]
      ensures var received := HandlerStep(old(View()), Receive(h));
              View() == if readable then received else HandlerStep(received, SkipResponse(h))
    {
      var s := handlers[h].stream;
      var response := streams[s].responseQueue[0];
      streams := streams[s := Dequeue(streams[s])];
      got := readable;
      handlers := handlers[h := if readable then Decoding(s, response) else Receiving(s)];
    }

    /** The handler takes the sender under the response's id out of the pending map. */
    method TakeSender(h: nat) returns (found: bool)
      requires Books(View()) && HandlerEnabled(View(), RemovePending(h))
      modifies this
      ensures found <==> old(handlers[h].response.id in pending)
      ensures h < |handlers| && (found <==> handlers[h].Completing?)
      ensures pending == old(pending) - {old(handlers)[h].response.id}
      ensures found ==>
                var response := old(handlers)[h].response;
                && handlers[h].call == old(pending)[response.id]
                && handlers[h].value == (match response.error
                                         case Some(text) => RpcFailed(text)
                                         case None => Answer(if response.payload.Some? then response.payload.value
                                                             else []))
      ensures View() == HandlerStep(old(View()), RemovePending(h))
    {
      var Decoding(s, response) := handlers[h];
      found := response.id in pending;
      if found {
        var c := pending[response.id];
        pending := pending - {response.id};
        calls := calls[c := calls[c].(sender := InHand(h))];
        handlers := handlers[h := Completing(s, c, ValueOf(response))];
      } else {
        handlers := handlers[h := Receiving(s)];
      }
    }

    /** The handler sends the value; it is lost when the caller has gone. */
    method SendValue(h: nat)
      requires HandlerEnabled(View(), Complete(h))
      modifies this
      ensures var Completing(s, c, value) := old(handlers)[h];
              && h < |handlers| && handlers[h] == Receiving(s) && |calls| == |old(calls)|
              && calls[c].phase == old(calls)[c].phase
              && (if calls[c].phase.Finished? then calls[c].sender == Dropped
                  else calls[c].sender.Sent? && calls[c].sender.value == value)
      ensures View() == HandlerStep(old(View()), Complete(h))
    {
      var Completing(s, c, value) := handlers[h];
      calls := calls[c := Resolve(calls[c], value, Some(Origin(s, |streams[s].handled| - 1)))];
      handlers := handlers[h := Receiving(s)];
    }

    /** One turn of the receive loop. */
    method HandleResponse(h: nat, readable: bool)
      requires Books(View()) && HandlerEnabled(View(), Receive(h))
      modifies this
      ensures View() == HandleOne(old(View()), h, readable)
    {
      BooksHandler(View(), Receive(h));
      var got := ReadResponse(h, readable);
      if got {
        var found := TakeSender(h);
        if found {
          SendValue(h);
        }
      }
    }

    /** The handler takes the stream out of the slot, if there is one. */
    method TakeStream(h: nat) returns (taken: bool)
      requires HandlerEnabled(View(), Take(h))
      modifies this
      ensures taken <==> old(slot).Some?
      ensures slot == None && h < |handlers|
      ensures handlers[h] == if taken then Receiving(old(slot).value) else Exited
      ensures taken ==> old(slot).value < |streams| && streams[old(slot).value].place == HeldBy(h)
      ensures View() == HandlerStep(old(View()), Take(h))
    {
      taken := slot.Some?;
      if taken {
        var s := slot.value;
        streams := streams[s := streams[s].(place := HeldBy(h))];
        handlers := handlers[h := Receiving(s)];
        slot := None;
      } else {
        handlers := handlers[h := Exited];
      }
    }

    /** The response handler's receive loop, until the transport ends or fails. */
    method HandleResponses(h: nat, readable: seq<bool>)
      requires Books(View()) && HandlerHolds(View(), h) && handlers[h].Receiving?
      requires |readable| <= |streams[handlers[h].stream].responseQueue|
      modifies this
      ensures View() == HandleAll(old(View()), h, readable)
    {
      var s := handlers[h].stream;
      var k := 0;
      while k < |readable|
        invariant k <= |readable| && HandlerHolds(View(), h) && handlers[h] == Receiving(s) && Books(View())
        invariant |readable| - k <= |streams[s].responseQueue|
        invariant HandleAll(View(), h, readable[k..]) == HandleAll(old(View()), h, readable)
      {
        HandleOneKeeps(View(), h, readable[k]);
        HandleResponse(h, readable[k]);
        assert readable[k..][1..] == readable[k + 1..];
        k := k + 1;
      }
    }

    /** The handler puts the stream back, dropping one that another connect left there. */
    method PutStreamBack(h: nat)
      requires HandlerEnabled(View(), PutBack(h))
      modifies this
      ensures h < |handlers| && handlers[h] == Exited
      ensures var s := old(handlers)[h].stream;
              && slot == Some(s) && |streams| == |old(streams)| && streams[s].place == InSlot
              && (old(slot).Some? && old(slot).value < |streams| && old(slot).value != s ==>
                    streams[old(slot).value].place == Gone)
      ensures View() == HandlerStep(old(View()), PutBack(h))
    {
      var s := handlers[h].stream;
      if slot.Some? && slot.value < |streams| {
        streams := streams[slot.value := streams[slot.value].(place := Gone)];
      }
      streams := streams[s := streams[s].(place := InSlot)];
      slot := Some(s);
      handlers := handlers[h := Exited];
    }

    /** `start_response_handler`, from taking the stream to putting it back. */
    method RunHandler(h: nat, readable: seq<bool>)
      requires Books(View()) && HandlerEnabled(View(), Take(h))
      requires slot.Some? ==> |readable| <= |streams[slot.value].responseQueue|
      modifies this
      ensures slot == old(slot) && h < |handlers| && handlers[h] == Exited
      ensures slot.Some? ==>
                var s := slot.value;
                && s < |streams| && streams[s].place == InSlot
                && streams[s].handled == old(streams)[s].handled + old(streams)[s].responseQueue[..|readable|]
                && streams[s].responseQueue == old(streams)[s].responseQueue[|readable|..]
      ensures View() == HandlerRun(old(View()), h, readable)
    {
      BooksHandler(View(), Take(h));
      var taken := TakeStream(h);
      if taken {
        HandleAllReads(View(), h, readable);
        HandleResponses(h, readable);
        PutStreamBack(h);
      }
    }

    /** The drain loop of `close`, in whatever order the map yields its entries. */
    method DrainPending()
      requires forall id | id in pending :: pending[id] < |calls|
      modifies this`calls, this`pending
      ensures pending == map[] && ToldClosed(old(calls), old(pending), calls)
      ensures calls == DrainCalls(old(calls), old(pending))
    {
      DrainStarts(calls, pending);
      while pending != map[]
        invariant Draining(old(calls), old(pending), calls, pending)
        decreases |pending|
      {
        var id :| id in pending;
        DrainTurn(old(calls), old(pending), calls, pending, id);
        calls := calls[pending[id] := Resolve(calls[pending[id]], ConnectionClosed, None)];
        pending := pending - {id};
      }
      DrainEnds(old(calls), old(pending), calls, pending);
      DrainTells(old(calls), old(pending));
    }

    /** `close`, the first two blocks: the session is gone, and so is a stream in the slot. */
    method ClearConnection()
      requires closing == NotClosing && (slot.Some? ==> slot.value < |streams|)
      modifies this
      ensures session == None && slot == None && closing == SlotCleared
      ensures calls == old(calls) && pending == old(pending)
      ensures old(slot).Some? ==> |streams| == |old(streams)| && streams[old(slot).value].place == Gone
      ensures View() == CloseStep(CloseStep(old(View()), TakeSession), ClearSlot)
    {
      session := None;
      closing := SessionTaken;
      if slot.Some? {
        streams := streams[slot.value := streams[slot.value].(place := Gone)];
      }
      slot := None;
      closing := SlotCleared;
    }

    /** `close`: take the session, clear the slot, and tell everyone in the pending map. */
    method Close()
      requires closing == NotClosing
      requires forall id | id in pending :: pending[id] < |calls|
      requires slot.Some? ==> slot.value < |streams|
      modifies this
      ensures pending == map[] && slot == None && session == None && closing == NotClosing
      ensures ToldClosed(old(calls), old(pending), calls)
      ensures old(slot).Some? ==> |streams| == |old(streams)| && streams[old(slot).value].place == Gone
      ensures View() == CloseStep(CloseStep(CloseStep(old(View()), TakeSession), ClearSlot), Drain)
    {
      ClearConnection();
      DrainPending();
      closing := NotClosing;
    }
  }
}
