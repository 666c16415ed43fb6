/** Concrete runs of the code as it stands: one that delivers a reply, and one that wraps
    the id counter and hands a caller somebody else's response. */
module Witness {
  import opened Rpc
  import opened Routing
  import opened Dispatch
  import opened Protocol
  import opened Correlation
  import opened Delivery

  /** A run of the code that begins with `first` can get to `st`. */
  ghost predicate Reaches(first: seq<Action>, behaviour: Behaviour, st: State) {
    exists more: seq<Action> :: Exec(Literal, behaviour, Init(), first + more) == st
  }

  lemma ReachesInit(behaviour: Behaviour)
    ensures Reaches([], behaviour, Init())
  {
    assert Exec(Literal, behaviour, Init(), [] + []) == Init();
  }

  lemma ReachesStep(first: seq<Action>, behaviour: Behaviour, st: State, a: Action)
    requires Reaches(first, behaviour, st) && Enabled(Literal, behaviour, st, a)
    ensures Reaches(first, behaviour, Apply(Literal, behaviour, st, a))
  {
    var more: seq<Action> :| Exec(Literal, behaviour, Init(), first + more) == st;
    ExecNext(Literal, behaviour, Init(), first + more, a);
    assert first + (more + [a]) == first + more + [a];
  }

  lemma ReachesCall(first: seq<Action>, behaviour: Behaviour, st: State, a: CallAction)
    requires Reaches(first, behaviour, st) && CallEnabled(Literal, st, a)
    ensures Reaches(first, behaviour, CallStep(Literal, st, a))
  {
    ReachesStep(first, behaviour, st, OfCall(a));
  }

  lemma ReachesConnect(first: seq<Action>, behaviour: Behaviour, st: State, a: ConnectAction)
    requires Reaches(first, behaviour, st) && ConnectEnabled(st, a)
    ensures Reaches(first, behaviour, ConnectStep(st, a))
  {
    ReachesStep(first, behaviour, st, OfConnect(a));
  }

  lemma ReachesHandler(first: seq<Action>, behaviour: Behaviour, st: State, a: HandlerAction)
    requires Reaches(first, behaviour, st) && HandlerEnabled(st, a)
    ensures Reaches(first, behaviour, HandlerStep(st, a))
  {
    ReachesStep(first, behaviour, st, OfHandler(a));
  }

  lemma ReachesServer(first: seq<Action>, behaviour: Behaviour, st: State, a: ServerAction)
    requires Reaches(first, behaviour, st) && ServerEnabled(behaviour, st, a)
    ensures Reaches(first, behaviour, ServerStep(behaviour, st, a))
  {
    ReachesStep(first, behaviour, st, OfServer(a));
  }

  /** Connected: one stream in the slot, its handler not yet started. */
  function ConnectedState(registries: seq<Registry>): State {
    State([], [], 0, map[], [Stream(InSlot, [], [], Idle, [], [], [])], Some(0), Some(0), NotClosing,
          [Spawned], [Connected], registries)
  }

  lemma ReachesConnected(behaviour: Behaviour, registries: seq<Registry>)
    requires registries != [] && Reaches([], behaviour, Init().(registries := registries))
    ensures Reaches([], behaviour, ConnectedState(registries))
  {
    var s0 := Init().(registries := registries);
    ReachesConnect([], behaviour, s0, Open);
    var s1 := ConnectStep(s0, Open);
    ReachesConnect([], behaviour, s1, StoreSession(0));
    var s2 := ConnectStep(s1, StoreSession(0));
    ReachesConnect([], behaviour, s2, StoreStream(0));
    assert ConnectStep(s2, StoreStream(0)) == ConnectedState(registries);
  }

  /** One call has been written to that stream. */
  function SentState(registries: seq<Registry>, request: Request): State {
    ConnectedState(registries)
    .(requests := [request], calls := [Call(Waiting, InPending)], nextId := 1, pending := map[0 := 0],
      streams := [Stream(InSlot, [0], [request], Idle, [], [], [])])
  }

  lemma ReachesSent(behaviour: Behaviour, registries: seq<Registry>, methodName: string, payload: Bytes)
    requires Reaches([], behaviour, ConnectedState(registries))
    ensures Reaches([], behaviour, SentState(registries, Request(0, methodName, payload)))
  {
    var request := Request(0, methodName, payload);
    var s0 := ConnectedState(registries);
    ReachesCall([], behaviour, s0, Allocate(methodName, payload));
    var s1 := s0.(requests := [request], calls := [FRESH_CALL], nextId := 1);
    assert CallStep(Literal, s0, Allocate(methodName, payload)) == s1;
    ReachesCall([], behaviour, s1, Register(0));
    var s2 := s1.(calls := [Call(Registered, InPending)], pending := map[0 := 0]);
    assert CallStep(Literal, s1, Register(0)) == s2;
    ReachesCall([], behaviour, s2, Send(0, 0));
    var stream := s2.streams[0];
    assert Enqueue(stream, 0, request) == stream.(senders := [0], requestQueue := [request]) by {
      assert stream.senders + [0] == [0] && stream.requestQueue + [request] == [request];
    }
    assert CallStep(Literal, s2, Send(0, 0)) == SentState(registries, request);
  }

  // A reply is delivered.

  /** Every service echoes its payload. */
  ghost function Echoing(): Behaviour {
    (service: Service, methodName: string, payload: Bytes, result: CallResult) => result == Replied(payload)
  }

  function EchoRegistries(name: string): seq<Registry> {
    [map[], map[name := 7]]
  }

  function EchoRequest(name: string, methodName: string, payload: Bytes): Request {
    Request(0, FormatMethodName(name, methodName), payload)
  }

  /** The handler holds the stream, which is otherwise as given. */
  function TakenState(name: string, request: Request, stream: Stream): State {
    SentState(EchoRegistries(name), request).(streams := [stream], slot := None, handlers := [Receiving(0)])
  }

  lemma ReachesTaken(name: string, request: Request) returns (sent: seq<Action>)
    requires request.id == 0
    ensures Exec(Literal, Echoing(), Init(), sent) == SentState(EchoRegistries(name), request)
    ensures Reaches(sent + [OfHandler(Take(0))], Echoing(),
                    TakenState(name, request, Stream(HeldBy(0), [0], [request], Idle, [], [], [])))
  {
    ReachesInit(Echoing());
    ReachesServer([], Echoing(), Init(), RegisterService(name, 7));
    assert ServerStep(Echoing(), Init(), RegisterService(name, 7)) == Init().(registries := EchoRegistries(name));
    ReachesConnected(Echoing(), EchoRegistries(name));
    ReachesSent(Echoing(), EchoRegistries(name), request.methodName, request.payload);
    var s0 := SentState(EchoRegistries(name), request);
    var more: seq<Action> :| Exec(Literal, Echoing(), Init(), [] + more) == s0;
    sent := [] + more;
    TakesNext(sent, name, request);
  }

  lemma TakesNext(sent: seq<Action>, name: string, request: Request)
    requires Exec(Literal, Echoing(), Init(), sent) == SentState(EchoRegistries(name), request)
    ensures Reaches(sent + [OfHandler(Take(0))], Echoing(),
                    TakenState(name, request, Stream(HeldBy(0), [0], [request], Idle, [], [], [])))
  {
    var s0 := SentState(EchoRegistries(name), request);
    var first := sent + [OfHandler(Take(0))];
    ExecNext(Literal, Echoing(), Init(), sent, OfHandler(Take(0)));
    assert HandlerStep(s0, Take(0)) == TakenState(name, request, Stream(HeldBy(0), [0], [request], Idle, [], [], []));
    assert first + [] == first;
  }

  lemma ReachesCalled(first: seq<Action>, name: string, methodName: string, payload: Bytes)
    requires '.' !in name
    requires var request := EchoRequest(name, methodName, payload);
             Reaches(first, Echoing(), TakenState(name, request, Stream(HeldBy(0), [0], [request], Idle, [], [], [])))
    ensures var request := EchoRequest(name, methodName, payload);
            Reaches(first, Echoing(),
                    TakenState(name, request, Stream(HeldBy(0), [0], [], InCall(request, 7, 1), [], [], [])))
  {
    var request := EchoRequest(name, methodName, payload);
    var idle := Stream(HeldBy(0), [0], [request], Idle, [], [], []);
    var s0 := TakenState(name, request, idle);
    ReachesServer(first, Echoing(), s0, ServerReceive(0));
    assert TakeUp(idle) == idle.(requestQueue := [], serving := Received(request));
    var s1 := TakenState(name, request, TakeUp(idle));
    assert ServerStep(Echoing(), s0, ServerReceive(0)) == s1;
    FormatRoundTrip(name, methodName);
    ReachesServer(first, Echoing(), s1, ServerLookup(0));
    assert Lookup(TakeUp(idle), EchoRegistries(name)[1], 1) ==
        idle.(requestQueue := [], serving := InCall(request, 7, 1));
  }

  /** The server has answered the one request on the stream the handler holds. */
  function AnsweredState(name: string, request: Request): State {
    TakenState(name, request,
               Stream(HeldBy(0), [0], [], Idle, [ServerAnswer(1, Replied(request.payload))],
                      [ResultResponse(0, Replied(request.payload))], []))
  }

  lemma ReachesAnswered(first: seq<Action>, name: string, methodName: string, payload: Bytes)
    requires var request := EchoRequest(name, methodName, payload);
             Reaches(first, Echoing(),
                     TakenState(name, request, Stream(HeldBy(0), [0], [], InCall(request, 7, 1), [], [], [])))
    ensures Reaches(first, Echoing(), AnsweredState(name, EchoRequest(name, methodName, payload)))
  {
    var request := EchoRequest(name, methodName, payload);
    var calling := Stream(HeldBy(0), [0], [], InCall(request, 7, 1), [], [], []);
    var s2 := TakenState(name, request, calling);
    ReachesServer(first, Echoing(), s2, ServerFinish(0, Replied(payload)));
    assert Finish(calling, Replied(payload)) == AnsweredState(name, request).streams[0];
    assert ServerStep(Echoing(), s2, ServerFinish(0, Replied(payload))) == AnsweredState(name, request);
  }

  /** Call 0 has been told the reply of its service. */
  function ToldState(name: string, request: Request): State {
    var answered := AnsweredState(name, request);
    var origin := Some(Origin(0, 0));
    answered.(calls := [Call(Waiting, Sent(Answer(request.payload), origin))], pending := map[],
              streams := [Dequeue(answered.streams[0])])
  }

  /** The handler has read the reply. */
  function ReadState(name: string, request: Request): State {
    var answered := AnsweredState(name, request);
    answered.(streams := [Dequeue(answered.streams[0])],
              handlers := [Decoding(0, ResultResponse(0, Replied(request.payload)))])
  }

  lemma ReachesRead(first: seq<Action>, name: string, request: Request)
    requires request.id == 0 && Reaches(first, Echoing(), AnsweredState(name, request))
    ensures Reaches(first, Echoing(), ReadState(name, request))
  {
    ReachesHandler(first, Echoing(), AnsweredState(name, request), Receive(0));
    assert HandlerStep(AnsweredState(name, request), Receive(0)) == ReadState(name, request);
  }

  lemma ReachesTold(first: seq<Action>, name: string, request: Request)
    requires request.id == 0 && Reaches(first, Echoing(), AnsweredState(name, request))
    ensures Reaches(first, Echoing(), ToldState(name, request))
  {
    ReachesRead(first, name, request);
    var s1 := ReadState(name, request);
    ReachesHandler(first, Echoing(), s1, RemovePending(0));
    var s2 := s1.(calls := [Call(Waiting, InHand(0))], pending := map[],
                  handlers := [Completing(0, 0, Answer(request.payload))]);
    TakesEntry(s1);
    ReachesHandler(first, Echoing(), s2, Complete(0));
    assert HandlerStep(s2, Complete(0)) == ToldState(name, request);
  }

  lemma TakesEntry(st: State)
    requires st.pending == map[0 := 0] && st.calls == [Call(Waiting, InPending)] && |st.handlers| == 1
    requires HandlerEnabled(st, RemovePending(0)) && st.handlers[0].stream == 0 && st.handlers[0].response.id == 0
    ensures HandlerStep(st, RemovePending(0)) ==
            st.(calls := [Call(Waiting, InHand(0))], pending := map[],
                handlers := [Completing(0, 0, ValueOf(st.handlers[0].response))])
  {
    assert st.pending - {0} == map[];
  }

  /** The model is not empty: in some run of the code a call is written while its stream is
      in the slot and the handler has not started, then the handler takes the stream, and
      the call returns the reply of its service. */
  lemma SomeReplyIsDelivered(name: string, methodName: string, payload: Bytes)
    requires '.' !in name
    ensures exists sent: seq<Action>, more: seq<Action> ::
              var written := Exec(Literal, Echoing(), Init(), sent);
              var st := Exec(Literal, Echoing(), Init(), sent + [OfHandler(Take(0))] + more);
              && written.slot == Some(0) && written.handlers == [Spawned]
              && |written.streams| == 1 && written.streams[0].senders == [0]
              && |written.calls| == 1 && written.calls[0].phase == Waiting
              && HandlerEnabled(written, Take(0))
              && st.requests == [EchoRequest(name, methodName, payload)]
              && |st.calls| == 1 && st.calls[0].phase == Finished(Answer(payload))
  {
    var request := EchoRequest(name, methodName, payload);
    var sent := ReachesTaken(name, request);
    var first := sent + [OfHandler(Take(0))];
    ReachesCalled(first, name, methodName, payload);
    ReachesAnswered(first, name, methodName, payload);
    ReachesTold(first, name, request);
    var told := ToldState(name, request);
    ReachesCall(first, Echoing(), told, Observe(0, true));
    var st := CallStep(Literal, told, Observe(0, true));
    assert st.calls == [Call(Finished(Answer(payload)), told.calls[0].sender)];
    var more: seq<Action> :| Exec(Literal, Echoing(), Init(), first + more) == st;
    assert Exec(Literal, Echoing(), Init(), sent).calls == [Call(Waiting, InPending)];
  }

  // The id counter wraps.

  /** `n` more calls have taken an id. */
  function Flooded(st: State, methodName: string, n: nat): State {
    st.(requests := st.requests +
          seq(n, i requires 0 <= i < n => Request((st.nextId + i) % U64_MODULUS, methodName, [])),
        calls := st.calls + seq(n, i requires 0 <= i < n => FRESH_CALL),
        nextId := (st.nextId + n) % U64_MODULUS)
  }

  lemma FloodedNext(st: State, methodName: string, n: nat)
    ensures CallStep(Literal, Flooded(st, methodName, n), Allocate(methodName, [])) == Flooded(st, methodName, n + 1)
  {
    var before := Flooded(st, methodName, n);
    var after := CallStep(Literal, before, Allocate(methodName, []));
    assert (before.nextId + 1) % U64_MODULUS == (st.nextId + n + 1) % U64_MODULUS;
    assert after.requests == Flooded(st, methodName, n + 1).requests;
    assert after.calls == Flooded(st, methodName, n + 1).calls;
  }

  lemma {:induction false} ReachesFlooded(behaviour: Behaviour, st: State, methodName: string, n: nat)
    requires Reaches([], behaviour, st)
    ensures Reaches([], behaviour, Flooded(st, methodName, n))
  {
    if n == 0 {
      assert Flooded(st, methodName, 0) == st;
    } else {
      ReachesFlooded(behaviour, st, methodName, n - 1);
      ReachesCall([], behaviour, Flooded(st, methodName, n - 1), Allocate(methodName, []));
      FloodedNext(st, methodName, n - 1);
    }
  }

  /** The first call's request names no method; the 2^64-th call after it has the same id
      and has been written to the same stream. */
  ghost predicate Wrapped(st: State) {
    var first := Request(0, "x", []);
    var last := Request(0, "a.b", []);
    && |st.requests| == |st.calls| == U64_MODULUS + 1
    && st.requests[0] == first && st.requests[U64_MODULUS] == last
    && st.calls[0] == Call(Waiting, Dropped) && st.calls[U64_MODULUS] == Call(Waiting, InPending)
    && st.pending == map[0 := U64_MODULUS]
    && st.registries == [map[]] && st.closing == NotClosing
  }

  /** The last of 2^64 + 1 calls has registered under the id of the first. */
  function Retaken(st: State): State
    requires |st.calls| == U64_MODULUS + 1
  {
    st.(calls := st.calls[0 := Call(Waiting, Dropped)][U64_MODULUS := Call(Registered, InPending)],
        pending := map[0 := U64_MODULUS])
  }

  /** As above, before the last call has been written. */
  lemma ReachesRegistered(behaviour: Behaviour)
    ensures var s0 := SentState([map[]], Request(0, "x", []));
            var flooded := Flooded(s0, "a.b", U64_MODULUS);
            && |flooded.requests| == |flooded.calls| == U64_MODULUS + 1
            && flooded.requests[U64_MODULUS] == Request(0, "a.b", [])
            && Reaches([], behaviour, Retaken(flooded))
  {
    ReachesInit(behaviour);
    assert Init().(registries := [map[]]) == Init();
    ReachesConnected(behaviour, [map[]]);
    ReachesSent(behaviour, [map[]], "x", []);
    var s0 := SentState([map[]], Request(0, "x", []));
    ReachesFlooded(behaviour, s0, "a.b", U64_MODULUS);
    var s1 := Flooded(s0, "a.b", U64_MODULUS);
    assert s1.requests[U64_MODULUS] == Request(0, "a.b", []);
    ReachesCall([], behaviour, s1, Register(U64_MODULUS));
    RegisterRetakes(s1);
  }

  lemma RegisterRetakes(st: State)
    requires |st.requests| == |st.calls| == U64_MODULUS + 1 && st.requests[U64_MODULUS].id == 0
    requires st.calls[0] == Call(Waiting, InPending) && st.calls[U64_MODULUS] == FRESH_CALL
    requires st.pending == map[0 := 0]
    ensures CallStep(Literal, st, Register(U64_MODULUS)) == Retaken(st)
  {
    assert st.pending[0 := U64_MODULUS] == map[0 := U64_MODULUS];
  }

  lemma ReachesWrapped(behaviour: Behaviour)
    ensures exists st ::
              Reaches([], behaviour, st) && Wrapped(st) && st.slot == Some(0) && st.handlers == [Spawned]
              && st.streams == [Stream(InSlot, [0, U64_MODULUS], [Request(0, "x", []), Request(0, "a.b", [])],
                  Idle, [], [], [])]
  {
    ReachesRegistered(behaviour);
    var flooded := Flooded(SentState([map[]], Request(0, "x", [])), "a.b", U64_MODULUS);
    var s2 := Retaken(flooded);
    ReachesCall([], behaviour, s2, Send(U64_MODULUS, 0));
    var s3 := CallStep(Literal, s2, Send(U64_MODULUS, 0));
    assert s3.streams[0].senders == [0, U64_MODULUS];
    assert s3.streams[0].requestQueue == [Request(0, "x", []), Request(0, "a.b", [])];
    assert Wrapped(s3);
  }

  lemma ReachesServing(behaviour: Behaviour)
    ensures exists st ::
              Reaches([], behaviour, st) && Wrapped(st) && st.slot == Some(0) && st.handlers == [Spawned]
              && |st.streams| == 1 && st.streams[0].handled == [] && st.streams[0].responseQueue == []
              && st.streams[0].serving == Received(Request(0, "x", []))
  {
    ReachesWrapped(behaviour);
    var s0: State :|
      Reaches([], behaviour, s0) && Wrapped(s0) && s0.slot == Some(0) && s0.handlers == [Spawned]
      && s0.streams == [Stream(InSlot, [0, U64_MODULUS], [Request(0, "x", []), Request(0, "a.b", [])],
                               Idle, [], [], [])];
    ReachesServer([], behaviour, s0, ServerReceive(0));
    assert ServerStep(behaviour, s0, ServerReceive(0)).streams == [TakeUp(s0.streams[0])];
  }

  lemma ReachesRefused(behaviour: Behaviour)
    ensures exists st ::
              Reaches([], behaviour, st) && Wrapped(st) && st.slot == Some(0) && st.handlers == [Spawned]
              && |st.streams| == 1 && st.streams[0].handled == []
              && st.streams[0].responseQueue == [ErrorResponse(0, MalformedText("x"))]
  {
    ReachesServing(behaviour);
    var s1: State :|
      Reaches([], behaviour, s1) && Wrapped(s1) && s1.slot == Some(0) && s1.handlers == [Spawned]
      && |s1.streams| == 1 && s1.streams[0].handled == [] && s1.streams[0].responseQueue == []
      && s1.streams[0].serving == Received(Request(0, "x", []));
    ReachesServer([], behaviour, s1, ServerLookup(0));
    RefusesFirst(s1.streams[0]);
    assert ServerStep(behaviour, s1, ServerLookup(0)).streams == [Lookup(s1.streams[0], map[], 0)];
  }

  lemma RefusesFirst(stream: Stream)
    requires stream.serving == Received(Request(0, "x", [])) && stream.responseQueue == []
    ensures Lookup(stream, map[], 0).responseQueue == [ErrorResponse(0, MalformedText("x"))]
    ensures Lookup(stream, map[], 0).handled == stream.handled
  {
    MalformedIffNoDot("x");
  }

  lemma ReachesCrossed(behaviour: Behaviour)
    ensures exists st ::
              Reaches([], behaviour, st) && Wrapped(st)
                  && st.handlers == [Decoding(0, ErrorResponse(0, MalformedText("x")))]
              && |st.streams| == 1 && st.streams[0].handled == [ErrorResponse(0, MalformedText("x"))]
  {
    ReachesRefused(behaviour);
    var refusal := ErrorResponse(0, MalformedText("x"));
    var s0: State :|
      Reaches([], behaviour, s0) && Wrapped(s0) && s0.slot == Some(0) && s0.handlers == [Spawned]
      && |s0.streams| == 1 && s0.streams[0].handled == [] && s0.streams[0].responseQueue == [refusal];
    ReachesHandler([], behaviour, s0, Take(0));
    var s1 := HandlerStep(s0, Take(0));
    ReachesHandler([], behaviour, s1, Receive(0));
    var s2 := HandlerStep(s1, Receive(0));
    assert s2.handlers == [Decoding(0, refusal)];
  }

  lemma ReachesMistold(behaviour: Behaviour)
    ensures exists st ::
              Reaches([], behaviour, st) && |st.requests| == |st.calls| == U64_MODULUS + 1
              && st.requests[U64_MODULUS] == Request(0, "a.b", []) && st.registries == [map[]]
              && st.calls[U64_MODULUS] == Call(Waiting, Sent(RpcFailed(MalformedText("x")), Some(Origin(0, 0))))
  {
    ReachesCrossed(behaviour);
    var failure := RpcFailed(MalformedText("x"));
    var s0: State :|
      Reaches([], behaviour, s0) && Wrapped(s0) && s0.handlers == [Decoding(0, ErrorResponse(0, MalformedText("x")))]
      && |s0.streams| == 1 && s0.streams[0].handled == [ErrorResponse(0, MalformedText("x"))];
    ReachesHandler([], behaviour, s0, RemovePending(0));
    var s1 := HandlerStep(s0, RemovePending(0));
    assert s1.handlers[0] == Completing(0, U64_MODULUS, failure);
    ReachesHandler([], behaviour, s1, Complete(0));
    var s2 := HandlerStep(s1, Complete(0));
    assert s2.calls[U64_MODULUS] == Call(Waiting, Sent(failure, Some(Origin(0, 0))));
  }

  lemma ReachesMisdelivered(behaviour: Behaviour)
    ensures exists st ::
              Reaches([], behaviour, st) && |st.requests| == |st.calls| == U64_MODULUS + 1
              && st.requests[U64_MODULUS] == Request(0, "a.b", []) && st.registries == [map[]]
              && st.calls[U64_MODULUS].phase == Finished(RpcFailed(MalformedText("x")))
  {
    ReachesMistold(behaviour);
    var failure := RpcFailed(MalformedText("x"));
    var s0: State :|
      Reaches([], behaviour, s0) && |s0.requests| == |s0.calls| == U64_MODULUS + 1
      && s0.requests[U64_MODULUS] == Request(0, "a.b", []) && s0.registries == [map[]]
      && s0.calls[U64_MODULUS] == Call(Waiting, Sent(failure, Some(Origin(0, 0))));
    ReachesCall([], behaviour, s0, Observe(U64_MODULUS, true));
    var s1 := CallStep(Literal, s0, Observe(U64_MODULUS, true));
    assert s1.calls[U64_MODULUS].phase == Finished(failure);
  }

  /** Without the window correlation fails, and one call more than `ShortRunsInWindow`
      allows is enough: in some run of the code with 2^64 + 1 calls, a caller returns a
      remote failure that is not a possible outcome of what it asked for under any registry
      there ever was. */
  lemma WrapMisdelivers(behaviour: Behaviour)
    ensures exists schedule: seq<Action>, i: nat, c: nat, methodName: string, payload: Bytes ::
              var st := Exec(Literal, behaviour, Init(), schedule);
              && |st.requests| == U64_MODULUS + 1
              && AskedAt(Literal, behaviour, schedule, i, c, methodName, payload) && HasReply(st, c)
              && !OncePossible(behaviour, st.registries, Request(c % U64_MODULUS, methodName, payload),
                               st.calls[c].phase.outcome)
  {
    ReachesMisdelivered(behaviour);
    var st: State :|
      Reaches([], behaviour, st) && |st.requests| == |st.calls| == U64_MODULUS + 1
      && st.requests[U64_MODULUS] == Request(0, "a.b", []) && st.registries == [map[]]
      && st.calls[U64_MODULUS].phase == Finished(RpcFailed(MalformedText("x")));
    NotAnOutcome(behaviour);
    var more: seq<Action> :| Exec(Literal, behaviour, Init(), [] + more) == st;
    var schedule := [] + more;
    var i, methodName, payload := AskedSomewhere(Literal, behaviour, schedule, U64_MODULUS);
    AskedRequest(Literal, behaviour, schedule, i, U64_MODULUS, methodName, payload);
    assert HasReply(st, U64_MODULUS);
    assert !OncePossible(behaviour, st.registries, Request(0, methodName, payload),
                         st.calls[U64_MODULUS].phase.outcome);
  }

  lemma NotAnOutcome(behaviour: Behaviour)
    ensures !PossibleOutcome(behaviour, map[], Request(0, "a.b", []), RpcFailed(MalformedText("x")))
  {
    FormatRoundTrip("a", "b");
    assert FormatMethodName("a", "b") == "a.b";
    assert MalformedText("x")[|MalformedText("x")| - 1] == '\'';
    assert UnknownText("a")[|UnknownText("a")| - 1] == 'a';
  }

  /** Every reply or remote failure a caller has returned is a possible outcome of what it
      asked for under a registry that once was current. */
  ghost predicate Correlated(behaviour: Behaviour, schedule: seq<Action>) {
    var st := Exec(Literal, behaviour, Init(), schedule);
    forall i: nat, c: nat, methodName: string, payload: Bytes
      | AskedAt(Literal, behaviour, schedule, i, c, methodName, payload) && HasReply(st, c) ::
      OncePossible(behaviour, st.registries, Request(c % U64_MODULUS, methodName, payload),
                   st.calls[c].phase.outcome)
  }

  /** How many calls a client may make: all replies are correlated in all runs of the code
      with at most `n` calls exactly when `n` is at most 2^64. */
  lemma CorrelatedIff(behaviour: Behaviour, n: nat)
    ensures (forall schedule: seq<Action> | |Exec(Literal, behaviour, Init(), schedule).requests| <= n ::
               Correlated(behaviour, schedule))
            <==> n <= U64_MODULUS
  {
    if n <= U64_MODULUS {
      forall schedule: seq<Action> | |Exec(Literal, behaviour, Init(), schedule).requests| <= n
        ensures Correlated(behaviour, schedule)
      {
        ShortRunsCorrelated(behaviour, schedule);
      }
    } else {
      var schedule := NotCorrelated(behaviour);
    }
  }

  lemma NotCorrelated(behaviour: Behaviour) returns (schedule: seq<Action>)
    ensures |Exec(Literal, behaviour, Init(), schedule).requests| == U64_MODULUS + 1
    ensures !Correlated(behaviour, schedule)
  {
    WrapMisdelivers(behaviour);
    var i: nat, c: nat, methodName: string, payload: Bytes;
    schedule, i, c, methodName, payload :|
      var st := Exec(Literal, behaviour, Init(), schedule);
      && |st.requests| == U64_MODULUS + 1
      && AskedAt(Literal, behaviour, schedule, i, c, methodName, payload) && HasReply(st, c)
      && !OncePossible(behaviour, st.registries, Request(c % U64_MODULUS, methodName, payload),
                       st.calls[c].phase.outcome);
  }

  lemma ShortRunsCorrelated(behaviour: Behaviour, schedule: seq<Action>)
    requires |Exec(Literal, behaviour, Init(), schedule).requests| <= U64_MODULUS
    ensures Correlated(behaviour, schedule)
  {
    var st := Exec(Literal, behaviour, Init(), schedule);
    ShortRunsInWindow(Literal, behaviour, schedule);
    forall i: nat, c: nat, methodName: string, payload: Bytes
      | AskedAt(Literal, behaviour, schedule, i, c, methodName, payload) && HasReply(st, c)
      ensures OncePossible(behaviour, st.registries, Request(c % U64_MODULUS, methodName, payload),
                           st.calls[c].phase.outcome)
    {
      OwnReplies(Literal, behaviour, schedule, i, c, methodName, payload);
    }
  }
}
