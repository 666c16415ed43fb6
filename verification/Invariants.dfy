/** What every step of the protocol keeps, in both send modes. */
module Invariants {
  import opened Rpc
  import opened Dispatch
  import opened Protocol

  /** Call `n` carries id `n` modulo 2^64, and the counter is the next one. */
  ghost predicate Ids(st: State) {
    && |st.requests| == |st.calls|
    && st.nextId == |st.requests| % U64_MODULUS
    && forall n | 0 <= n < |st.requests| :: st.requests[n].id == n % U64_MODULUS
  }

  /** Every unused sender is exactly where the books say: with its caller before
      registration, in the pending map under the call's own id, or in the hand of one
      handler between removal and sending. */
  ghost predicate Books(st: State) {
    && |st.requests| == |st.calls|
    && (forall id | id in st.pending ::
          st.pending[id] < |st.calls| && st.calls[st.pending[id]].sender == InPending
              && st.requests[st.pending[id]].id == id)
    && (forall c | 0 <= c < |st.calls| && st.calls[c].sender == InPending ::
          st.requests[c].id in st.pending && st.pending[st.requests[c].id] == c)
    && (forall h | 0 <= h < |st.handlers| && st.handlers[h].Completing? ::
          st.handlers[h].call < |st.calls| && st.calls[st.handlers[h].call].sender == InHand(h))
    && (forall c | 0 <= c < |st.calls| && st.calls[c].sender.InHand? ::
          var h := st.calls[c].sender.handler;
          h < |st.handlers| && st.handlers[h].Completing? && st.handlers[h].call == c)
    && (forall c | 0 <= c < |st.calls| :: st.calls[c].sender == WithCaller <==> st.calls[c].phase == Allocated)
  }

  /** Every stream is in exactly one place, and the slot, the handlers and the connect
      tasks hold exactly the streams whose place says so; and while `close` is under way the
      session, and once it has cleared it the slot, stay empty. */
  ghost predicate Places(st: State) {
    && (st.slot.Some? ==> st.slot.value < |st.streams| && st.streams[st.slot.value].place == InSlot)
    && (forall s | 0 <= s < |st.streams| && st.streams[s].place == InSlot :: st.slot == Some(s))
    && (forall h | 0 <= h < |st.handlers| && HeldStream(st.handlers[h]).Some? ::
          var s := HeldStream(st.handlers[h]).value;
          s < |st.streams| && st.streams[s].place == HeldBy(h))
    && (forall s | 0 <= s < |st.streams| && st.streams[s].place.HeldBy? ::
          var h := st.streams[s].place.handler;
          h < |st.handlers| && HeldStream(st.handlers[h]) == Some(s))
    && (forall n | 0 <= n < |st.connectors| && OpenStream(st.connectors[n]).Some? ::
          var s := OpenStream(st.connectors[n]).value;
          s < |st.streams| && st.streams[s].place == Connecting(n))
    && (forall s | 0 <= s < |st.streams| && st.streams[s].place.Connecting? ::
          var n := st.streams[s].place.connector;
          n < |st.connectors| && OpenStream(st.connectors[n]) == Some(s))
    && (st.closing == SlotCleared ==> st.slot == None)
    && (st.closing != NotClosing ==> st.session == None)
  }

  /** The responses a stream has carried so far, read or not. */
  function Responses(stream: Stream): seq<Response> {
    stream.handled + stream.responseQueue
  }

  /** What the server has written down about answer `k` of a stream is true of it. */
  ghost predicate AnswerOk(behaviour: Behaviour, registries: seq<Registry>, request: Request,
                           answer: ServerAnswer, response: Response)
  {
    && answer.version < |registries|
    && Allowed(behaviour, registries[answer.version], request, answer.result)
    && response == Respond(registries[answer.version], request, answer.result)
  }

  ghost predicate ServingOk(registries: seq<Registry>, stream: Stream) {
    && |Unanswered(stream.serving)| <= 1
    && (stream.serving.InCall? ==>
          && stream.serving.version < |registries|
          && Target(registries[stream.serving.version], stream.serving.request) == Some(stream.serving.service))
  }

  /** Nothing is lost, reordered or made up on a stream: the requests written to it are
      the answered ones, then the one the server holds, then the queued ones; and the
      answers, in the same order, are the handled responses and then the queued ones. */
  ghost predicate StreamOk(behaviour: Behaviour, requests: seq<Request>, registries: seq<Registry>, stream: Stream) {
    var held := Unanswered(stream.serving);
    && (forall k | 0 <= k < |stream.senders| :: stream.senders[k] < |requests|)
    && |stream.senders| == |stream.answers| + |held| + |stream.requestQueue|
    && |stream.answers| == |stream.handled| + |stream.responseQueue|
    && ServingOk(registries, stream)
    && (held != [] ==> held[0] == requests[stream.senders[|stream.answers|]])
    && (forall j | |stream.answers| + |held| <= j < |stream.senders| ::
          stream.requestQueue[j - |stream.answers| - |held|] == requests[stream.senders[j]])
    && (forall k | 0 <= k < |stream.answers| ::
          AnswerOk(behaviour, registries, requests[stream.senders[k]], stream.answers[k], Responses(stream)[k]))
  }

  ghost predicate Conserved(behaviour: Behaviour, st: State) {
    && st.registries != []
    && forall s | 0 <= s < |st.streams| :: StreamOk(behaviour, st.requests, st.registries, st.streams[s])
  }

  ghost predicate Inv(behaviour: Behaviour, st: State) {
    Ids(st) && Books(st) && Places(st) && Conserved(behaviour, st)
  }

  // What each kind of task may touch.

  lemma CallTouches(mode: Mode, st: State, a: CallAction)
    requires CallEnabled(mode, st, a)
    ensures var st' := CallStep(mode, st, a);
            && st' == st.(requests := st'.requests, calls := st'.calls, nextId := st'.nextId,
                          pending := st'.pending, streams := st'.streams)
            && st.requests <= st'.requests && |st'.streams| == |st.streams|
            && forall s | 0 <= s < |st.streams| ::
                 st'.streams[s] == st.streams[s].(senders := st'.streams[s].senders,
                     requestQueue := st'.streams[s].requestQueue)
  {
  }

  lemma ConnectTouches(st: State, a: ConnectAction)
    requires ConnectEnabled(st, a)
    ensures var st' := ConnectStep(st, a);
            && st' == st.(streams := st'.streams, slot := st'.slot, session := st'.session,
                          handlers := st'.handlers, connectors := st'.connectors)
            && (st'.handlers == st.handlers || st'.handlers == st.handlers + [Spawned])
            && |st.streams| <= |st'.streams|
            && (forall s | 0 <= s < |st.streams| :: st'.streams[s] == st.streams[s].(place := st'.streams[s].place))
            && (forall s | |st.streams| <= s < |st'.streams| :: st'.streams[s] == FreshStream(|st.connectors|))
  {
  }

  lemma HandlerTouches(st: State, a: HandlerAction)
    requires HandlerEnabled(st, a)
    ensures var st' := HandlerStep(st, a);
            && st' == st.(calls := st'.calls, pending := st'.pending, streams := st'.streams, slot := st'.slot,
                          handlers := st'.handlers)
            && |st'.calls| == |st.calls| && (forall c | 0 <= c < |st.calls| :: st'.calls[c].phase == st.calls[c].phase)
            && |st'.handlers| == |st.handlers| && |st'.streams| == |st.streams|
            && a.handler < |st.handlers|
            && (forall h | 0 <= h < |st.handlers| && h != a.handler :: st'.handlers[h] == st.handlers[h])
            && (forall s | 0 <= s < |st.streams| ::
                  st'.streams[s] == st.streams[s].(place := st'.streams[s].place,
                      responseQueue := st'.streams[s].responseQueue,
                                                   handled := st'.streams[s].handled))
  {
  }

  lemma CloseTouches(st: State, a: CloseAction)
    requires CloseEnabled(st, a)
    ensures var st' := CloseStep(st, a);
            && st' == st.(calls := st'.calls, pending := st'.pending, streams := st'.streams, slot := st'.slot,
                          session := st'.session, closing := st'.closing)
            && |st'.calls| == |st.calls| && (forall c | 0 <= c < |st.calls| :: st'.calls[c].phase == st.calls[c].phase)
            && |st'.streams| == |st.streams|
            && (forall s | 0 <= s < |st.streams| :: st'.streams[s] == st.streams[s].(place := st'.streams[s].place))
  {
  }

  lemma ServerTouches(behaviour: Behaviour, st: State, a: ServerAction)
    requires ServerEnabled(behaviour, st, a)
    ensures var st' := ServerStep(behaviour, st, a);
            && st' == st.(streams := st'.streams, registries := st'.registries)
            && st.registries <= st'.registries && |st'.streams| == |st.streams|
            && (forall s | 0 <= s < |st.streams| ::
                  && st'.streams[s].place == st.streams[s].place && st'.streams[s].senders == st.streams[s].senders
                  && st'.streams[s].handled == st.streams[s].handled)
  {
  }

  // Ids

  lemma IdsKept(mode: Mode, behaviour: Behaviour, st: State, a: Action)
    requires Ids(st) && Enabled(mode, behaviour, st, a)
    ensures Ids(Apply(mode, behaviour, st, a))
  {
    match a
    case OfCall(x) =>
    case OfConnect(x) => ConnectTouches(st, x);
    case OfHandler(x) => HandlerTouches(st, x);
    case OfClose(x) => CloseTouches(st, x);
    case OfServer(x) => ServerTouches(behaviour, st, x);
  }

  // Books, one lemma for each way the calls, the pending map or the hands change.

  /** Nothing that moves a sender. */
  ghost predicate SameSenders(st: State, st': State) {
    && st'.requests == st.requests && st'.pending == st.pending && |st'.calls| == |st.calls|
    && (forall c | 0 <= c < |st.calls| ::
          st'.calls[c].sender == st.calls[c].sender
              && (st'.calls[c].phase == Allocated <==> st.calls[c].phase == Allocated))
  }

  /** Nothing that takes up or finishes a completion. */
  ghost predicate SameHands(st: State, st': State) {
    && |st.handlers| <= |st'.handlers|
    && (forall h | 0 <= h < |st.handlers| ::
          st'.handlers[h] == st.handlers[h] || (!st'.handlers[h].Completing? && !st.handlers[h].Completing?))
    && (forall h | |st.handlers| <= h < |st'.handlers| :: !st'.handlers[h].Completing?)
  }

  lemma BooksFrame(st: State, st': State)
    requires Books(st) && SameSenders(st, st') && SameHands(st, st')
    ensures Books(st')
  {
    forall c | 0 <= c < |st'.calls| && st'.calls[c].sender == InPending
      ensures st'.requests[c].id in st'.pending && st'.pending[st'.requests[c].id] == c
    {
      assert st.calls[c].sender == InPending;
    }
    forall c | 0 <= c < |st'.calls| && st'.calls[c].sender.InHand?
      ensures var h := st'.calls[c].sender.handler;
              h < |st'.handlers| && st'.handlers[h].Completing? && st'.handlers[h].call == c
    {
      assert st.calls[c].sender.InHand?;
    }
  }

  lemma BooksAllocate(mode: Mode, st: State, a: CallAction)
    requires Books(st) && a.Allocate? && CallEnabled(mode, st, a)
    ensures Books(CallStep(mode, st, a))
  {
  }

  lemma BooksInsert(st: State, c: nat)
    requires Books(st) && CallIn(st, c, Allocated)
    ensures Books(Insert(st, c))
  {
    BooksDropOlder(st, st.requests[c].id);
    InsertAfterDrop(st, c);
    BooksPut(DropOlder(st, st.requests[c].id), c);
  }

  lemma InsertAfterDrop(st: State, c: nat)
    requires Books(st) && CallIn(st, c, Allocated)
    ensures var dropped := DropOlder(st, st.requests[c].id);
            && CallIn(dropped, c, Allocated) && dropped.requests == st.requests
            && Insert(dropped, c) == Insert(st, c)
  {
    assert st.calls[c].sender == WithCaller;
  }

  /** The older entry under an id, if there is one, and its sender are gone. */
  function DropOlder(st: State, id: u64): State {
    if id in st.pending && st.pending[id] < |st.calls| then
      st.(calls := st.calls[st.pending[id] := st.calls[st.pending[id]].(sender := Dropped)],
          pending := st.pending - {id})
    else st
  }

  lemma BooksDropOlder(st: State, id: u64)
    requires Books(st)
    ensures Books(DropOlder(st, id)) && id !in DropOlder(st, id).pending
  {
  }

  lemma BooksPut(st: State, c: nat)
    requires Books(st) && CallIn(st, c, Allocated) && st.requests[c].id !in st.pending
    ensures Books(Insert(st, c))
  {
  }

  lemma BooksCall(mode: Mode, st: State, a: CallAction)
    requires Books(st) && CallEnabled(mode, st, a)
    ensures Books(CallStep(mode, st, a))
  {
    if a.Allocate? {
      BooksAllocate(mode, st, a);
    } else if a.Register? {
      BooksInsert(st, a.call);
    } else {
      BooksFrame(st, CallStep(mode, st, a));
    }
  }

  lemma BooksRemove(st: State, h: nat)
    requires Books(st) && h < |st.handlers| && st.handlers[h].Decoding?
    ensures Books(RemoveEntry(st, h))
  {
    if st.handlers[h].response.id in st.pending {
      BooksTake(st, h);
    } else {
      BooksFrame(st, RemoveEntry(st, h));
    }
  }

  lemma BooksTake(st: State, h: nat)
    requires Books(st) && h < |st.handlers| && st.handlers[h].Decoding? && st.handlers[h].response.id in st.pending
    ensures Books(RemoveEntry(st, h))
  {
  }

  lemma BooksComplete(st: State, h: nat)
    requires Books(st) && HandlerEnabled(st, Complete(h))
    ensures Books(HandlerStep(st, Complete(h)))
  {
  }

  lemma BooksHandler(st: State, a: HandlerAction)
    requires Books(st) && HandlerEnabled(st, a)
    ensures Books(HandlerStep(st, a))
  {
    if a.RemovePending? {
      BooksRemove(st, a.handler);
    } else if a.Complete? {
      BooksComplete(st, a.handler);
    } else {
      BooksFrame(st, HandlerStep(st, a));
    }
  }

  /** The senders `close` drains are exactly those in the pending map. */
  lemma DrainedArePending(st: State, c: nat)
    requires Books(st) && c < |st.calls|
    ensures c in st.pending.Values <==> st.calls[c].sender == InPending
  {
    if st.calls[c].sender == InPending {
      assert st.pending[st.requests[c].id] == c;
    }
  }

  lemma BooksDrain(st: State)
    requires Books(st) && CloseEnabled(st, Drain)
    ensures Books(CloseStep(st, Drain))
  {
    forall c | 0 <= c < |st.calls|
      ensures c in st.pending.Values <==> st.calls[c].sender == InPending
    {
      DrainedArePending(st, c);
    }
  }

  lemma BooksKept(mode: Mode, behaviour: Behaviour, st: State, a: Action)
    requires Books(st) && Enabled(mode, behaviour, st, a)
    ensures Books(Apply(mode, behaviour, st, a))
  {
    match a
    case OfCall(x) => BooksCall(mode, st, x);
    case OfConnect(x) =>
      ConnectTouches(st, x);
      BooksFrame(st, ConnectStep(st, x));
    case OfHandler(x) => BooksHandler(st, x);
    case OfClose(x) =>
      if x.Drain? {
        BooksDrain(st);
      } else {
        BooksFrame(st, CloseStep(st, x));
      }
    case OfServer(x) =>
      ServerTouches(behaviour, st, x);
      BooksFrame(st, ServerStep(behaviour, st, x));
  }

  // Places: the steps that move no stream, and the five that do.

  ghost predicate SamePlaces(st: State, st': State) {
    && st'.slot == st.slot
    && (st'.closing == SlotCleared ==> st.closing == SlotCleared)
    && (st'.closing == NotClosing || st'.session == None || (st'.closing == st.closing && st'.session == st.session))
    && |st'.streams| == |st.streams|
    && (forall s | 0 <= s < |st.streams| :: st'.streams[s].place == st.streams[s].place)
    && |st'.handlers| == |st.handlers|
    && (forall h | 0 <= h < |st.handlers| :: HeldStream(st'.handlers[h]) == HeldStream(st.handlers[h]))
    && |st'.connectors| == |st.connectors|
    && (forall n | 0 <= n < |st.connectors| :: OpenStream(st'.connectors[n]) == OpenStream(st.connectors[n]))
  }

  lemma PlacesFrame(st: State, st': State)
    requires Places(st) && SamePlaces(st, st')
    ensures Places(st')
  {
    forall s | 0 <= s < |st'.streams| && st'.streams[s].place == InSlot
      ensures st'.slot == Some(s)
    {
      assert st.streams[s].place == InSlot;
    }
    forall s | 0 <= s < |st'.streams| && st'.streams[s].place.HeldBy?
      ensures var h := st'.streams[s].place.handler;
              h < |st'.handlers| && HeldStream(st'.handlers[h]) == Some(s)
    {
      assert st.streams[s].place.HeldBy?;
    }
    forall s | 0 <= s < |st'.streams| && st'.streams[s].place.Connecting?
      ensures var n := st'.streams[s].place.connector;
              n < |st'.connectors| && OpenStream(st'.connectors[n]) == Some(s)
    {
      assert st.streams[s].place.Connecting?;
    }
  }

  /** Emptying the slot drops its stream. */
  lemma PlacesDrop(st: State)
    requires Places(st)
    ensures Places(DropSlot(st).(slot := None))
  {
  }

  lemma PlacesStore(st: State, n: nat)
    requires Places(st) && st.slot == None && ConnectEnabled(st, StoreStream(n))
    ensures Places(ConnectStep(st, StoreStream(n)))
  {
    assert OpenStream(st.connectors[n]) == Some(st.connectors[n].stream);
  }

  lemma PlacesConnect(st: State, a: ConnectAction)
    requires Places(st) && ConnectEnabled(st, a)
    ensures Places(ConnectStep(st, a))
  {
    if a.StoreStream? {
      var emptied := DropSlot(st).(slot := None);
      PlacesDrop(st);
      PlacesStore(emptied, a.connector);
      assert ConnectStep(st, a) == ConnectStep(emptied, a);
    } else if a.StoreSession? {
      PlacesFrame(st, ConnectStep(st, a));
    }
  }

  lemma PlacesTake(st: State, h: nat)
    requires Places(st) && HandlerEnabled(st, Take(h))
    ensures Places(HandlerStep(st, Take(h)))
  {
  }

  lemma PlacesPutBack(st: State, h: nat)
    requires Places(st) && st.slot == None && HandlerEnabled(st, PutBack(h))
    ensures Places(HandlerStep(st, PutBack(h)))
  {
    assert HeldStream(st.handlers[h]) == Some(st.handlers[h].stream);
  }

  lemma PlacesHandler(st: State, a: HandlerAction)
    requires Places(st) && HandlerEnabled(st, a)
    ensures Places(HandlerStep(st, a))
  {
    if a.Take? {
      PlacesTake(st, a.handler);
    } else if a.PutBack? {
      var emptied := DropSlot(st).(slot := None);
      PlacesDrop(st);
      PlacesPutBack(emptied, a.handler);
      assert HandlerStep(st, a) == HandlerStep(emptied, a);
    } else {
      PlacesFrame(st, HandlerStep(st, a));
    }
  }

  lemma PlacesClose(st: State, a: CloseAction)
    requires Places(st) && CloseEnabled(st, a)
    ensures Places(CloseStep(st, a))
  {
    if a.ClearSlot? {
      PlacesDrop(st);
    } else {
      PlacesFrame(st, CloseStep(st, a));
    }
  }

  lemma PlacesKept(mode: Mode, behaviour: Behaviour, st: State, a: Action)
    requires Places(st) && Enabled(mode, behaviour, st, a)
    ensures Places(Apply(mode, behaviour, st, a))
  {
    match a
    case OfCall(x) =>
      CallTouches(mode, st, x);
      PlacesFrame(st, CallStep(mode, st, x));
    case OfConnect(x) => PlacesConnect(st, x);
    case OfHandler(x) => PlacesHandler(st, x);
    case OfClose(x) => PlacesClose(st, x);
    case OfServer(x) =>
      ServerTouches(behaviour, st, x);
      PlacesFrame(st, ServerStep(behaviour, st, x));
  }

  // Conservation on one stream, one lemma for each way a stream changes.

  /** Logs only grow, so what was true of a stream stays true. */
  lemma StreamFrame(behaviour: Behaviour, requests: seq<Request>, registries: seq<Registry>, stream: Stream,
                    requests': seq<Request>, registries': seq<Registry>)
    requires StreamOk(behaviour, requests, registries, stream)
    requires requests <= requests' && registries <= registries'
    ensures StreamOk(behaviour, requests', registries', stream)
  {
  }

  lemma StreamPlace(behaviour: Behaviour, requests: seq<Request>, registries: seq<Registry>, stream: Stream,
                    place: Place)
    requires StreamOk(behaviour, requests, registries, stream)
    ensures StreamOk(behaviour, requests, registries, stream.(place := place))
  {
  }

  lemma StreamEnqueue(behaviour: Behaviour, requests: seq<Request>, registries: seq<Registry>, stream: Stream, c: nat)
    requires StreamOk(behaviour, requests, registries, stream) && c < |requests|
    ensures StreamOk(behaviour, requests, registries, Enqueue(stream, c, requests[c]))
  {
  }

  lemma StreamReceive(behaviour: Behaviour, requests: seq<Request>, registries: seq<Registry>, stream: Stream)
    requires StreamOk(behaviour, requests, registries, stream) && stream.responseQueue != []
    ensures StreamOk(behaviour, requests, registries, Dequeue(stream))
  {
    assert Responses(Dequeue(stream)) == Responses(stream);
  }

  lemma StreamServe(behaviour: Behaviour, requests: seq<Request>, registries: seq<Registry>, stream: Stream)
    requires StreamOk(behaviour, requests, registries, stream) && stream.serving.Idle? && stream.requestQueue != []
    ensures StreamOk(behaviour, requests, registries, TakeUp(stream))
  {
  }

  lemma StreamPost(behaviour: Behaviour, requests: seq<Request>, registries: seq<Registry>, stream: Stream,
                   response: Response, answer: ServerAnswer)
    requires StreamOk(behaviour, requests, registries, stream)
    requires stream.serving.Received? || stream.serving.InCall?
    requires AnswerOk(behaviour, registries, stream.serving.request, answer, response)
    ensures StreamOk(behaviour, requests, registries, PostAnswer(stream, response, answer))
  {
    var posted := PostAnswer(stream, response, answer);
    assert Responses(posted) == Responses(stream) + [response];
    forall k | 0 <= k < |posted.answers|
      ensures AnswerOk(behaviour, registries, requests[stream.senders[k]], posted.answers[k], Responses(posted)[k])
    {
      if k < |stream.answers| {
        assert AnswerOk(behaviour, registries, requests[stream.senders[k]], stream.answers[k], Responses(stream)[k]);
      }
    }
  }

  lemma StreamLookup(behaviour: Behaviour, requests: seq<Request>, registries: seq<Registry>, stream: Stream)
    requires registries != [] && StreamOk(behaviour, requests, registries, stream) && stream.serving.Received?
    ensures StreamOk(behaviour, requests, registries, Lookup(stream, registries[|registries| - 1], |registries| - 1))
  {
    var registry := registries[|registries| - 1];
    if Target(registry, stream.serving.request).None? {
      StreamPost(behaviour, requests, registries, stream,
                 Respond(registry, stream.serving.request, TimedOut), ServerAnswer(|registries| - 1, TimedOut));
    }
  }

  lemma StreamFinish(behaviour: Behaviour, requests: seq<Request>, registries: seq<Registry>, stream: Stream,
                     result: CallResult)
    requires StreamOk(behaviour, requests, registries, stream) && MayEnd(behaviour, stream.serving, result)
    ensures StreamOk(behaviour, requests, registries, Finish(stream, result))
  {
    StreamPost(behaviour, requests, registries, stream,
               ResultResponse(stream.serving.request.id, result), ServerAnswer(stream.serving.version, result));
  }

  lemma StreamStop(behaviour: Behaviour, requests: seq<Request>, registries: seq<Registry>, stream: Stream)
    requires StreamOk(behaviour, requests, registries, stream)
    ensures StreamOk(behaviour, requests, registries, Stop(stream))
  {
  }

  /** Streams are at most moved, opened, or seen by longer logs. */
  ghost predicate OnlyMoved(st: State, st': State) {
    && st.requests <= st'.requests && st.registries <= st'.registries
    && |st.streams| <= |st'.streams|
    && (forall s | 0 <= s < |st.streams| :: st'.streams[s] == st.streams[s].(place := st'.streams[s].place))
    && (forall s | |st.streams| <= s < |st'.streams| :: st'.streams[s] == FreshStream(|st.connectors|))
  }

  lemma ConservedFrame(behaviour: Behaviour, st: State, st': State)
    requires Conserved(behaviour, st) && OnlyMoved(st, st')
    ensures Conserved(behaviour, st')
  {
    forall s | 0 <= s < |st'.streams|
      ensures StreamOk(behaviour, st'.requests, st'.registries, st'.streams[s])
    {
      if s < |st.streams| {
        StreamFrame(behaviour, st.requests, st.registries, st.streams[s], st'.requests, st'.registries);
        StreamPlace(behaviour, st'.requests, st'.registries, st.streams[s], st'.streams[s].place);
      }
    }
  }

  /** One stream changed, and is still in order. */
  lemma ConservedAt(behaviour: Behaviour, st: State, st': State, s: nat)
    requires Conserved(behaviour, st) && s < |st.streams| && |st'.streams| == |st.streams|
    requires st'.requests == st.requests && st'.registries == st.registries
    requires forall t | 0 <= t < |st.streams| && t != s :: st'.streams[t] == st.streams[t]
    requires StreamOk(behaviour, st.requests, st.registries, st'.streams[s])
    ensures Conserved(behaviour, st')
  {
  }

  lemma ConservedCall(mode: Mode, behaviour: Behaviour, st: State, a: CallAction)
    requires Conserved(behaviour, st) && CallEnabled(mode, st, a)
    ensures Conserved(behaviour, CallStep(mode, st, a))
  {
    if a.Send? || a.BreakSend? {
      StreamEnqueue(behaviour, st.requests, st.registries, st.streams[a.stream], a.call);
      ConservedAt(behaviour, st, CallStep(mode, st, a), a.stream);
    } else {
      ConservedFrame(behaviour, st, CallStep(mode, st, a));
    }
  }

  lemma ConservedHandler(behaviour: Behaviour, st: State, a: HandlerAction)
    requires Conserved(behaviour, st) && HandlerEnabled(st, a)
    ensures Conserved(behaviour, HandlerStep(st, a))
  {
    if a.Receive? {
      var s := st.handlers[a.handler].stream;
      StreamReceive(behaviour, st.requests, st.registries, st.streams[s]);
      ConservedAt(behaviour, st, HandlerStep(st, a), s);
    } else {
      ConservedFrame(behaviour, st, HandlerStep(st, a));
    }
  }

  /** The step of a session changes its own stream, and the new one is in order. */
  lemma SessionStepOk(behaviour: Behaviour, st: State, a: ServerAction)
    requires Conserved(behaviour, st) && ServerEnabled(behaviour, st, a) && !a.RegisterService?
    ensures a.stream < |st.streams|
    ensures exists stream: Stream ::
              && StreamOk(behaviour, st.requests, st.registries, stream)
              && ServerStep(behaviour, st, a) == SetStream(st, a.stream, stream)
  {
    var stream := st.streams[a.stream];
    match a {
      case ServerReceive(_) => StreamServe(behaviour, st.requests, st.registries, stream);
      case ServerLookup(_) => StreamLookup(behaviour, st.requests, st.registries, stream);
      case ServerFinish(_, result) => StreamFinish(behaviour, st.requests, st.registries, stream, result);
      case ServerStop(_) => StreamStop(behaviour, st.requests, st.registries, stream);
    }
  }

  lemma ConservedRegister(behaviour: Behaviour, st: State, a: ServerAction)
    requires Conserved(behaviour, st) && ServerEnabled(behaviour, st, a) && a.RegisterService?
    ensures Conserved(behaviour, ServerStep(behaviour, st, a))
  {
    ConservedFrame(behaviour, st, ServerStep(behaviour, st, a));
  }

  lemma ConservedServer(behaviour: Behaviour, st: State, a: ServerAction)
    requires Conserved(behaviour, st) && ServerEnabled(behaviour, st, a)
    ensures Conserved(behaviour, ServerStep(behaviour, st, a))
  {
    if a.RegisterService? {
      ConservedRegister(behaviour, st, a);
    } else {
      SessionStepOk(behaviour, st, a);
      var stream: Stream :|
        && StreamOk(behaviour, st.requests, st.registries, stream)
        && ServerStep(behaviour, st, a) == SetStream(st, a.stream, stream);
      ConservedAt(behaviour, st, SetStream(st, a.stream, stream), a.stream);
    }
  }

  lemma ConservedKept(mode: Mode, behaviour: Behaviour, st: State, a: Action)
    requires Conserved(behaviour, st) && Enabled(mode, behaviour, st, a)
    ensures Conserved(behaviour, Apply(mode, behaviour, st, a))
  {
    match a
    case OfCall(x) => ConservedCall(mode, behaviour, st, x);
    case OfConnect(x) =>
      ConnectTouches(st, x);
      ConservedFrame(behaviour, st, ConnectStep(st, x));
    case OfHandler(x) => ConservedHandler(behaviour, st, x);
    case OfClose(x) =>
      CloseTouches(st, x);
      ConservedFrame(behaviour, st, CloseStep(st, x));
    case OfServer(x) => ConservedServer(behaviour, st, x);
  }

  lemma InvKept(mode: Mode, behaviour: Behaviour, st: State, a: Action)
    requires Inv(behaviour, st)
    ensures Inv(behaviour, Step(mode, behaviour, st, a))
  {
    if Enabled(mode, behaviour, st, a) {
      IdsKept(mode, behaviour, st, a);
      BooksKept(mode, behaviour, st, a);
      PlacesKept(mode, behaviour, st, a);
      ConservedKept(mode, behaviour, st, a);
    }
  }

  /** Everything above holds after every schedule. */
  lemma {:induction false} InvReached(mode: Mode, behaviour: Behaviour, schedule: seq<Action>)
    ensures Inv(behaviour, Exec(mode, behaviour, Init(), schedule))
  {
    if schedule != [] {
      InvReached(mode, behaviour, schedule[..|schedule| - 1]);
      InvKept(mode, behaviour, Exec(mode, behaviour, Init(), schedule[..|schedule| - 1]), schedule[|schedule| - 1]);
    }
  }
}
