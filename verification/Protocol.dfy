/** The request/response protocol of src/client.rs and src/server.rs as a transition
    system with one step per lock-protected block: any number of concurrent calls,
    connects, response handlers, streams and server sessions.

    Beside what the program stores, the state keeps logs that no step's guard reads:
    `Stream.senders`, `answers` and `handled`, the older entries of `registries`
    and `Sent.origin`. Where a one-shot sender and a stream are is written down in
    `Call.sender` and `Stream.place`; that this agrees with the slot, the pending map and
    the tasks is proved, not assumed. */
module Protocol {
  import opened Rpc
  import opened Routing
  import opened Dispatch

  /** `Literal` sends only while the shared slot holds a stream, as the code does.
      `Duplex` sends on any stream that has not been dropped. */
  datatype Mode = Literal | Duplex

  datatype Phase = Allocated | Registered | Waiting | Finished(outcome: Outcome)

  datatype Origin = Origin(stream: nat, index: nat)

  /** Where a call's one-shot sender is, or how it was used up. */
  datatype Sender =
    | WithCaller
    | InPending
    | InHand(handler: nat)
    | Sent(value: Outcome, origin: Option<Origin>)
    | Dropped

  datatype Call = Call(phase: Phase, sender: Sender)

  datatype Handler =
    | Spawned
    | Receiving(stream: nat)
    | Decoding(stream: nat, response: Response)
    | Completing(stream: nat, call: nat, value: Outcome)
    | Exited

  datatype Connector = Opened(stream: nat) | SessionStored(stream: nat) | Connected

  datatype Closing = NotClosing | SessionTaken | SlotCleared

  datatype Serving =
    | Idle
    | Received(request: Request)
    | InCall(request: Request, service: Service, version: nat)
    | Stopped(abandoned: seq<Request>)

  datatype ServerAnswer = ServerAnswer(version: nat, result: CallResult)

  datatype Place = Connecting(connector: nat) | InSlot | HeldBy(handler: nat) | Gone

  datatype Stream = Stream(
    place: Place,
    senders: seq<nat>,
    requestQueue: seq<Request>,
    serving: Serving,
    answers: seq<ServerAnswer>,
    responseQueue: seq<Response>,
    handled: seq<Response>)

  /** Call number `n` is the one that took its id as the n-th; `requests[n]` is what it
      sends and `calls[n]` how far it got. */
  datatype State = State(
    requests: seq<Request>,
    calls: seq<Call>,
    nextId: u64,
    pending: map<u64, nat>,
    streams: seq<Stream>,
    slot: Option<nat>,
    session: Option<nat>,
    closing: Closing,
    handlers: seq<Handler>,
    connectors: seq<Connector>,
    registries: seq<Registry>)

  /** The steps of `Client::call`. */
  datatype CallAction =
    | Allocate(methodName: string, payload: Bytes)
    | Register(call: nat)
    | FailEncoding(call: nat)
    | RefuseSend(call: nat)
    | Send(call: nat, stream: nat)
    | BreakSend(call: nat, stream: nat, arrived: bool)
    | Observe(call: nat, decodes: bool)
    | Expire(call: nat)

  /** The steps of `Client::connect`. */
  datatype ConnectAction = Open | StoreSession(connector: nat) | StoreStream(connector: nat)

  /** The steps of a response handler. */
  datatype HandlerAction =
    | Take(handler: nat)
    | Receive(handler: nat)
    | SkipResponse(handler: nat)
    | RemovePending(handler: nat)
    | Complete(handler: nat)
    | PutBack(handler: nat)

  /** The steps of `Client::close`. */
  datatype CloseAction = TakeSession | ClearSlot | Drain

  /** The steps of the server's sessions and of `Server::register_service`. */
  datatype ServerAction =
    | RegisterService(name: string, service: Service)
    | ServerReceive(stream: nat)
    | ServerLookup(stream: nat)
    | ServerFinish(stream: nat, result: CallResult)
    | ServerStop(stream: nat)

  datatype Action =
    | OfCall(call: CallAction)
    | OfConnect(connect: ConnectAction)
    | OfHandler(handle: HandlerAction)
    | OfClose(close: CloseAction)
    | OfServer(serve: ServerAction)

  function Init(): State {
    State([], [], 0, map[], [], None, None, NotClosing, [], [], [map[]])
  }

  const FRESH_CALL := Call(Allocated, WithCaller)

  function FreshStream(connector: nat): Stream {
    Stream(Connecting(connector), [], [], Idle, [], [], [])
  }

  function CurrentRegistry(st: State): Registry
    requires st.registries != []
  {
    st.registries[|st.registries| - 1]
  }

  /** The `message_stream` lock is free: `close` keeps it from clearing the slot until it
      has drained the pending map. */
  predicate SlotFree(st: State) {
    !st.closing.SlotCleared?
  }

  /** The stream a handler or a connect task holds. */
  function HeldStream(handler: Handler): Option<nat> {
    match handler
    case Receiving(s) => Some(s)
    case Decoding(s, _) => Some(s)
    case Completing(s, _, _) => Some(s)
    case _ => None
  }

  function OpenStream(connector: Connector): Option<nat> {
    match connector
    case Opened(s) => Some(s)
    case SessionStored(s) => Some(s)
    case Connected => None
  }

  /** Whether a call may write to a stream now. */
  predicate CanSend(mode: Mode, st: State, stream: nat) {
    && stream < |st.streams|
    && match mode
       case Literal => SlotFree(st) && st.slot == Some(stream)
       case Duplex => st.streams[stream].place != Gone
  }

  predicate CallIn(st: State, call: nat, phase: Phase) {
    && call < |st.calls|
    && call < |st.requests|
    && st.calls[call].phase == phase
  }

  /** The call's one-shot channel has been used, or its sender is gone. */
  predicate Settled(call: Call) {
    call.sender.Sent? || call.sender.Dropped?
  }

  predicate HandlerHolds(st: State, handler: nat) {
    && handler < |st.handlers|
    && HeldStream(st.handlers[handler]).Some?
    && HeldStream(st.handlers[handler]).value < |st.streams|
  }

  predicate CallEnabled(mode: Mode, st: State, a: CallAction) {
    match a
    case Allocate(_, _) => true
    case Register(c) => CallIn(st, c, Allocated)
    case FailEncoding(c) => CallIn(st, c, Registered)
    case RefuseSend(c) => CallIn(st, c, Registered) && SlotFree(st) && st.slot == None
    case Send(c, s) => CallIn(st, c, Registered) && CanSend(mode, st, s)
    case BreakSend(c, s, _) => CallIn(st, c, Registered) && CanSend(mode, st, s)
    case Observe(c, _) => CallIn(st, c, Waiting) && Settled(st.calls[c])
    case Expire(c) => CallIn(st, c, Waiting)
  }

  predicate ConnectEnabled(st: State, a: ConnectAction) {
    match a
    case Open => true
    case StoreSession(n) => n < |st.connectors| && st.connectors[n].Opened? && st.closing == NotClosing
    case StoreStream(n) =>
      && n < |st.connectors| && st.connectors[n].SessionStored? && SlotFree(st)
      && st.connectors[n].stream < |st.streams|
  }

  predicate HandlerEnabled(st: State, a: HandlerAction) {
    match a
    case Take(h) =>
      && h < |st.handlers| && st.handlers[h].Spawned? && SlotFree(st)
      && (st.slot.Some? ==> st.slot.value < |st.streams|)
    case Receive(h) =>
      && HandlerHolds(st, h) && st.handlers[h].Receiving?
      && st.streams[st.handlers[h].stream].responseQueue != []
    case SkipResponse(h) => HandlerHolds(st, h) && st.handlers[h].Decoding?
    case RemovePending(h) => HandlerHolds(st, h) && st.handlers[h].Decoding?
    case Complete(h) =>
      && HandlerHolds(st, h) && st.handlers[h].Completing?
      && st.handlers[h].call < |st.calls| && st.streams[st.handlers[h].stream].handled != []
    case PutBack(h) => HandlerHolds(st, h) && st.handlers[h].Receiving? && SlotFree(st)
  }

  predicate CloseEnabled(st: State, a: CloseAction) {
    match a
    case TakeSession => st.closing == NotClosing
    case ClearSlot => st.closing == SessionTaken
    case Drain => st.closing == SlotCleared
  }

  /** A called service may answer in any way its behaviour allows, or run out of time. */
  ghost predicate MayEnd(behaviour: Behaviour, serving: Serving, result: CallResult) {
    && serving.InCall?
    && (result.TimedOut? ||
        behaviour(serving.service, Split(serving.request.methodName).MethodOr(""), serving.request.payload, result))
  }

  ghost predicate ServerEnabled(behaviour: Behaviour, st: State, a: ServerAction) {
    st.registries != [] &&
    match a
    case RegisterService(_, _) => true
    case ServerReceive(s) =>
      s < |st.streams| && st.streams[s].serving.Idle? && st.streams[s].requestQueue != []
    case ServerLookup(s) => s < |st.streams| && st.streams[s].serving.Received?
    case ServerFinish(s, result) => s < |st.streams| && MayEnd(behaviour, st.streams[s].serving, result)
    case ServerStop(s) => s < |st.streams| && !st.streams[s].serving.Stopped?
  }

  function SetCall(st: State, c: nat, call: Call): State
    requires c < |st.calls|
  {
    st.(calls := st.calls[c := call])
  }

  function SetStream(st: State, s: nat, stream: Stream): State
    requires s < |st.streams|
  {
    st.(streams := st.streams[s := stream])
  }

  function Move(st: State, s: nat, place: Place): State
    requires s < |st.streams|
  {
    SetStream(st, s, st.streams[s].(place := place))
  }

  /** Dropping whatever stream the slot holds, before it is overwritten. */
  function DropSlot(st: State): State {
    if st.slot.Some? && st.slot.value < |st.streams| then Move(st, st.slot.value, Gone) else st
  }

  function SetHandler(st: State, h: nat, handler: Handler): State
    requires h < |st.handlers|
  {
    st.(handlers := st.handlers[h := handler])
  }

  function SetConnector(st: State, n: nat, connector: Connector): State
    requires n < |st.connectors|
  {
    st.(connectors := st.connectors[n := connector])
  }

  /** `pending.insert(id, tx)`: an older sender under the same id is dropped. */
  function Insert(st: State, c: nat): State
    requires c < |st.calls| && c < |st.requests|
  {
    var id := st.requests[c].id;
    var taken := id in st.pending && st.pending[id] < |st.calls|;
    var calls :=
      if taken then st.calls[st.pending[id] := st.calls[st.pending[id]].(sender := Dropped)] else st.calls;
    st.(calls := calls[c := Call(Registered, InPending)],
        pending := st.pending[id := c])
  }

  /** Writing the request of call `c` to a stream. */
  function Enqueue(stream: Stream, c: nat, request: Request): Stream {
    stream.(senders := stream.senders + [c], requestQueue := stream.requestQueue + [request])
  }

  /** Sending a value through a one-shot channel: it is lost when the caller has gone. */
  function Resolve(call: Call, value: Outcome, origin: Option<Origin>): Call {
    call.(sender := if call.phase.Finished? then Dropped else Sent(value, origin))
  }

  /** What a waiting call returns once its channel is settled. */
  function Result(sender: Sender, decodes: bool): Outcome {
    if sender.Sent? then
      if sender.value.Answer? && !decodes then DecodingError else sender.value
    else ConnectionClosed
  }

  function RemoveEntry(st: State, h: nat): State
    requires h < |st.handlers| && st.handlers[h].Decoding?
  {
    var Decoding(s, response) := st.handlers[h];
    if response.id in st.pending && st.pending[response.id] < |st.calls| then
      var c := st.pending[response.id];
      SetHandler(SetCall(st, c, st.calls[c].(sender := InHand(h))), h, Completing(s, c, ValueOf(response)))
      .(pending := st.pending - {response.id})
    else
      SetHandler(st, h, Receiving(s))
  }

  function DrainCalls(calls: seq<Call>, pending: map<u64, nat>): (drained: seq<Call>)
    ensures |drained| == |calls|
  {
    seq(|calls|, c requires 0 <= c < |calls| =>
      if c in pending.Values then Resolve(calls[c], ConnectionClosed, None) else calls[c])
  }

  /** The server answers the request it holds. */
  function PostAnswer(stream: Stream, response: Response, answer: ServerAnswer): Stream {
    stream.(serving := Idle, answers := stream.answers + [answer], responseQueue := stream.responseQueue + [response])
  }

  function Lookup(stream: Stream, registry: Registry, version: nat): Stream
    requires stream.serving.Received?
  {
    var request := stream.serving.request;
    match Target(registry, request)
    case None => PostAnswer(stream, Respond(registry, request, TimedOut), ServerAnswer(version, TimedOut))
    case Some(service) => stream.(serving := InCall(request, service, version))
  }

  /** The requests a session has taken from its stream and not answered. */
  function Unanswered(serving: Serving): (held: seq<Request>) {
    match serving
    case Idle => []
    case Received(request) => [request]
    case InCall(request, _, _) => [request]
    case Stopped(abandoned) => abandoned
  }

  function CallStep(mode: Mode, st: State, a: CallAction): State
    requires CallEnabled(mode, st, a)
  {
    match a
    case Allocate(methodName, payload) =>
      st.(requests := st.requests + [Request(st.nextId, methodName, payload)],
          calls := st.calls + [FRESH_CALL],
          nextId := (st.nextId + 1) % U64_MODULUS)
    case Register(c) => Insert(st, c)
    case FailEncoding(c) => SetCall(st, c, st.calls[c].(phase := Finished(EncodingError)))
    case RefuseSend(c) => SetCall(st, c, st.calls[c].(phase := Finished(ConnectionClosed)))
    case Send(c, s) =>
      SetCall(SetStream(st, s, Enqueue(st.streams[s], c, st.requests[c])), c, st.calls[c].(phase := Waiting))
    case BreakSend(c, s, arrived) =>
      var stream := if arrived then Enqueue(st.streams[s], c, st.requests[c]) else st.streams[s];
      SetCall(SetStream(st, s, stream), c, st.calls[c].(phase := Finished(WebTransportError)))
    case Observe(c, decodes) =>
      SetCall(st, c, st.calls[c].(phase := Finished(Result(st.calls[c].sender, decodes))))
    case Expire(c) => SetCall(st, c, st.calls[c].(phase := Finished(Timeout)))
  }

  function ConnectStep(st: State, a: ConnectAction): State
    requires ConnectEnabled(st, a)
  {
    match a
    case Open =>
      st.(streams := st.streams + [FreshStream(|st.connectors|)],
          connectors := st.connectors + [Opened(|st.streams|)])
    case StoreSession(n) =>
      var s := st.connectors[n].stream;
      SetConnector(st, n, SessionStored(s)).(session := Some(s))
    case StoreStream(n) =>
      var s := st.connectors[n].stream;
      SetConnector(Move(DropSlot(st), s, InSlot), n, Connected)
      .(slot := Some(s), handlers := st.handlers + [Spawned])
  }

  /** Reading the next response. */
  function Dequeue(stream: Stream): Stream
    requires stream.responseQueue != []
  {
    stream.(responseQueue := stream.responseQueue[1..], handled := stream.handled + [stream.responseQueue[0]])
  }

  function HandlerStep(st: State, a: HandlerAction): State
    requires HandlerEnabled(st, a)
  {
    match a
    case Take(h) =>
      if st.slot.Some? then
        SetHandler(Move(st, st.slot.value, HeldBy(h)), h, Receiving(st.slot.value)).(slot := None)
      else
        SetHandler(st, h, Exited)
    case Receive(h) =>
      var s := st.handlers[h].stream;
      SetHandler(SetStream(st, s, Dequeue(st.streams[s])), h, Decoding(s, st.streams[s].responseQueue[0]))
    case SkipResponse(h) => SetHandler(st, h, Receiving(st.handlers[h].stream))
    case RemovePending(h) => RemoveEntry(st, h)
    case Complete(h) =>
      var Completing(s, c, value) := st.handlers[h];
      var origin := Some(Origin(s, |st.streams[s].handled| - 1));
      SetHandler(SetCall(st, c, Resolve(st.calls[c], value, origin)), h, Receiving(s))
    case PutBack(h) =>
      var s := st.handlers[h].stream;
      SetHandler(Move(DropSlot(st), s, InSlot), h, Exited).(slot := Some(s))
  }

  function CloseStep(st: State, a: CloseAction): State
    requires CloseEnabled(st, a)
  {
    match a
    case TakeSession => st.(session := None, closing := SessionTaken)
    case ClearSlot => DropSlot(st).(slot := None, closing := SlotCleared)
    case Drain =>
      st.(calls := DrainCalls(st.calls, st.pending), pending := map[], closing := NotClosing)
  }

  /** The server takes up the next request. */
  function TakeUp(stream: Stream): Stream
    requires stream.requestQueue != []
  {
    stream.(requestQueue := stream.requestQueue[1..], serving := Received(stream.requestQueue[0]))
  }

  /** The called service is done. */
  function Finish(stream: Stream, result: CallResult): Stream
    requires stream.serving.InCall?
  {
    PostAnswer(stream, ResultResponse(stream.serving.request.id, result), ServerAnswer(stream.serving.version, result))
  }

  /** The session ends: end of stream, a failed read or write, or a request that does not decode. */
  function Stop(stream: Stream): Stream {
    stream.(serving := Stopped(Unanswered(stream.serving)))
  }

  ghost function ServerStep(behaviour: Behaviour, st: State, a: ServerAction): State
    requires ServerEnabled(behaviour, st, a)
  {
    match a
    case RegisterService(name, service) =>
      st.(registries := st.registries + [CurrentRegistry(st)[name := service]])
    case ServerReceive(s) => SetStream(st, s, TakeUp(st.streams[s]))
    case ServerLookup(s) => SetStream(st, s, Lookup(st.streams[s], CurrentRegistry(st), |st.registries| - 1))
    case ServerFinish(s, result) => SetStream(st, s, Finish(st.streams[s], result))
    case ServerStop(s) => SetStream(st, s, Stop(st.streams[s]))
  }

  ghost predicate Enabled(mode: Mode, behaviour: Behaviour, st: State, a: Action) {
    match a
    case OfCall(x) => CallEnabled(mode, st, x)
    case OfConnect(x) => ConnectEnabled(st, x)
    case OfHandler(x) => HandlerEnabled(st, x)
    case OfClose(x) => CloseEnabled(st, x)
    case OfServer(x) => ServerEnabled(behaviour, st, x)
  }

  ghost function Apply(mode: Mode, behaviour: Behaviour, st: State, a: Action): State
    requires Enabled(mode, behaviour, st, a)
  {
    match a
    case OfCall(x) => CallStep(mode, st, x)
    case OfConnect(x) => ConnectStep(st, x)
    case OfHandler(x) => HandlerStep(st, x)
    case OfClose(x) => CloseStep(st, x)
    case OfServer(x) => ServerStep(behaviour, st, x)
  }

  /** A scheduled action that cannot happen leaves the state alone. */
  ghost function Step(mode: Mode, behaviour: Behaviour, st: State, a: Action): State {
    if Enabled(mode, behaviour, st, a) then Apply(mode, behaviour, st, a) else st
  }

  /** The state after a whole schedule. Every interleaving of the tasks is one schedule. */
  ghost function Exec(mode: Mode, behaviour: Behaviour, st: State, schedule: seq<Action>): State {
    if schedule == [] then st
    else Step(mode, behaviour, Exec(mode, behaviour, st, schedule[..|schedule| - 1]), schedule[|schedule| - 1])
  }

  lemma ExecNext(mode: Mode, behaviour: Behaviour, st: State, schedule: seq<Action>, a: Action)
    ensures Exec(mode, behaviour, st, schedule + [a]) == Step(mode, behaviour, Exec(mode, behaviour, st, schedule), a)
  {
    assert (schedule + [a])[..|schedule|] == schedule;
  }
}
