/** Which service answers: across all sessions and however registrations are interleaved
    with them, the one last registered under the requested name when it was looked up. */
module Registrations {
  import opened Rpc
  import opened Routing
  import opened Dispatch
  import opened Protocol
  import opened Invariants
  import opened Correlation
  import opened Delivery

  /** The registrations of a schedule, in order. */
  function Registered(schedule: seq<Action>): seq<Registration> {
    if schedule == [] then []
    else Registered(schedule[..|schedule| - 1]) + RegisteredBy(schedule[|schedule| - 1])
  }

  function RegisteredBy(a: Action): seq<Registration> {
    match a
    case OfServer(RegisterService(name, service)) => [(name, service)]
    case _ => []
  }

  function Find(registry: Registry, name: string): Option<Service> {
    if name in registry then Some(registry[name]) else None
  }

  lemma RegistriesStep(mode: Mode, behaviour: Behaviour, st: State, a: Action)
    requires st.registries != [] && !(a.OfServer? && a.serve.RegisterService?)
    ensures Step(mode, behaviour, st, a).registries == st.registries
  {
    if Enabled(mode, behaviour, st, a) {
      match a
      case OfCall(x) => CallTouches(mode, st, x);
      case OfConnect(x) => ConnectTouches(st, x);
      case OfHandler(x) => HandlerTouches(st, x);
      case OfClose(x) => CloseTouches(st, x);
      case OfServer(x) =>
    }
  }

  lemma RegistriesRegister(mode: Mode, behaviour: Behaviour, st: State, name: string, service: Service)
    requires st.registries != []
    ensures Step(mode, behaviour, st, OfServer(RegisterService(name, service))).registries ==
            st.registries + [CurrentRegistry(st)[name := service]]
  {
    assert ServerStep(behaviour, st, RegisterService(name, service)).registries ==
           st.registries + [CurrentRegistry(st)[name := service]];
  }

  /** The registries after one action. */
  function Extended(registries: seq<Registry>, a: Action): (extended: seq<Registry>)
    requires registries != []
    ensures extended != []
  {
    match a
    case OfServer(RegisterService(name, service)) => registries + [registries[|registries| - 1][name := service]]
    case _ => registries
  }

  /** The registries a schedule leaves behind, the oldest first. */
  function RegistriesOf(schedule: seq<Action>): (registries: seq<Registry>)
    ensures registries != []
  {
    if schedule == [] then [map[]]
    else Extended(RegistriesOf(schedule[..|schedule| - 1]), schedule[|schedule| - 1])
  }

  lemma RegistriesExtended(mode: Mode, behaviour: Behaviour, st: State, a: Action)
    requires st.registries != []
    ensures Step(mode, behaviour, st, a).registries == Extended(st.registries, a)
  {
    if a.OfServer? && a.serve.RegisterService? {
      RegistriesRegister(mode, behaviour, st, a.serve.name, a.serve.service);
    } else {
      RegistriesStep(mode, behaviour, st, a);
    }
  }

  lemma {:induction false} RegistriesReached(mode: Mode, behaviour: Behaviour, schedule: seq<Action>)
    ensures Exec(mode, behaviour, Init(), schedule).registries == RegistriesOf(schedule)
  {
    if schedule != [] {
      var before := schedule[..|schedule| - 1];
      RegistriesReached(mode, behaviour, before);
      RegistriesExtended(mode, behaviour, Exec(mode, behaviour, Init(), before), schedule[|schedule| - 1]);
    }
  }

  lemma ExtendedFinds(registries: seq<Registry>, registered: seq<Registration>, a: Action, name: string)
    requires registries != [] && Find(registries[|registries| - 1], name) == LastRegistered(registered, name)
    ensures var extended := Extended(registries, a);
            Find(extended[|extended| - 1], name) == LastRegistered(registered + RegisteredBy(a), name)
  {
    if a.OfServer? && a.serve.RegisterService? {
      assert (registered + RegisteredBy(a))[..|registered|] == registered;
    } else {
      assert registered + RegisteredBy(a) == registered;
    }
  }

  lemma {:induction false} RegistriesFind(schedule: seq<Action>, name: string)
    ensures var registries := RegistriesOf(schedule);
            Find(registries[|registries| - 1], name) == LastRegistered(Registered(schedule), name)
  {
    if schedule != [] {
      var before, a := schedule[..|schedule| - 1], schedule[|schedule| - 1];
      RegistriesFind(before, name);
      ExtendedFinds(RegistriesOf(before), Registered(before), a, name);
    }
  }

  /** The services map holds, for every name, what was last registered under it. */
  lemma RegistryIsLatest(mode: Mode, behaviour: Behaviour, schedule: seq<Action>, name: string)
    ensures Exec(mode, behaviour, Init(), schedule).registries != []
    ensures Find(CurrentRegistry(Exec(mode, behaviour, Init(), schedule)), name) ==
            LastRegistered(Registered(schedule), name)
  {
    RegistriesReached(mode, behaviour, schedule);
    RegistriesFind(schedule, name);
  }

  /** Step `i` of the schedule looks up the service for `request` on stream `s`, in the
      registry with number `version`. */
  ghost predicate LookupAt(mode: Mode, behaviour: Behaviour, schedule: seq<Action>, i: nat, s: nat,
                           request: Request, version: nat) {
    && i < |schedule| && schedule[i] == OfServer(ServerLookup(s))
    && var st := Exec(mode, behaviour, Init(), schedule[..i]);
       s < |st.streams| && st.streams[s].serving == Received(request) && version == |st.registries| - 1
  }

  ghost predicate LookedUp(mode: Mode, behaviour: Behaviour, schedule: seq<Action>, s: nat, request: Request,
                           version: nat) {
    exists i: nat :: LookupAt(mode, behaviour, schedule, i, s, request, version)
  }

  /** Every answer on stream `s`, and the call in progress, goes back to a lookup of its own request. */
  ghost predicate StreamLookedUp(mode: Mode, behaviour: Behaviour, schedule: seq<Action>, requests: seq<Request>,
                                 s: nat, stream: Stream) {
    && (forall k | 0 <= k < |stream.answers| && k < |stream.senders| && stream.senders[k] < |requests| ::
          LookedUp(mode, behaviour, schedule, s, requests[stream.senders[k]], stream.answers[k].version))
    && (stream.serving.InCall? ==>
          LookedUp(mode, behaviour, schedule, s, stream.serving.request, stream.serving.version))
  }

  ghost predicate AllLookedUp(mode: Mode, behaviour: Behaviour, schedule: seq<Action>, st: State) {
    forall s | 0 <= s < |st.streams| :: StreamLookedUp(mode, behaviour, schedule, st.requests, s, st.streams[s])
  }

  lemma LookedUpLonger(mode: Mode, behaviour: Behaviour, schedule: seq<Action>, a: Action, s: nat,
                       request: Request, version: nat)
    requires LookedUp(mode, behaviour, schedule, s, request, version)
    ensures LookedUp(mode, behaviour, schedule + [a], s, request, version)
  {
    var i: nat :| LookupAt(mode, behaviour, schedule, i, s, request, version);
    assert (schedule + [a])[..i] == schedule[..i];
    assert LookupAt(mode, behaviour, schedule + [a], i, s, request, version);
  }

  /** The server end of a stream is as before, or has just lost its request. */
  predicate SameServing(stream: Stream, stream': Stream) {
    stream'.answers == stream.answers && (stream'.serving == stream.serving || !stream'.serving.InCall?)
  }

  lemma SameServingLookedUp(mode: Mode, behaviour: Behaviour, schedule: seq<Action>, a: Action, st: State,
                            st': State, s: nat)
    requires Conserved(behaviour, st) && s < |st.streams| && s < |st'.streams| && Grows(st, st')
    requires StreamLookedUp(mode, behaviour, schedule, st.requests, s, st.streams[s])
    requires SameServing(st.streams[s], st'.streams[s])
    ensures StreamLookedUp(mode, behaviour, schedule + [a], st'.requests, s, st'.streams[s])
  {
    assert StreamOk(behaviour, st.requests, st.registries, st.streams[s]);
    forall k | 0 <= k < |st'.streams[s].answers|
      ensures LookedUp(mode, behaviour, schedule + [a], s, st'.requests[st'.streams[s].senders[k]],
          st'.streams[s].answers[k].version)
    {
      LookedUpLonger(mode, behaviour, schedule, a, s, st.requests[st.streams[s].senders[k]],
          st.streams[s].answers[k].version);
    }
    if st'.streams[s].serving.InCall? {
      LookedUpLonger(mode, behaviour, schedule, a, s, st.streams[s].serving.request, st.streams[s].serving.version);
    }
  }

  /** One more answer, for the request the server held. */
  lemma PostedLookedUp(mode: Mode, behaviour: Behaviour, schedule: seq<Action>, a: Action, st: State, s: nat,
                       response: Response, answer: ServerAnswer)
    requires Conserved(behaviour, st) && s < |st.streams|
    requires StreamLookedUp(mode, behaviour, schedule, st.requests, s, st.streams[s])
    requires st.streams[s].serving.Received? || st.streams[s].serving.InCall?
    requires LookedUp(mode, behaviour, schedule + [a], s, st.streams[s].serving.request, answer.version)
    ensures StreamLookedUp(mode, behaviour, schedule + [a], st.requests, s, PostAnswer(st.streams[s], response, answer))
  {
    var stream := st.streams[s];
    assert StreamOk(behaviour, st.requests, st.registries, stream);
    forall k | 0 <= k < |stream.answers|
      ensures LookedUp(mode, behaviour, schedule + [a], s, st.requests[stream.senders[k]], stream.answers[k].version)
    {
      LookedUpLonger(mode, behaviour, schedule, a, s, st.requests[stream.senders[k]], stream.answers[k].version);
    }
  }

  lemma SameAnswersLookedUp(mode: Mode, behaviour: Behaviour, schedule: seq<Action>, a: Action, st: State,
                            s: nat, stream': Stream)
    requires Conserved(behaviour, st) && s < |st.streams|
    requires StreamLookedUp(mode, behaviour, schedule, st.requests, s, st.streams[s])
    requires stream'.answers == st.streams[s].answers && stream'.senders == st.streams[s].senders
        && stream'.serving.InCall?
    requires LookedUp(mode, behaviour, schedule + [a], s, stream'.serving.request, stream'.serving.version)
    ensures StreamLookedUp(mode, behaviour, schedule + [a], st.requests, s, stream')
  {
    assert StreamOk(behaviour, st.requests, st.registries, st.streams[s]);
    forall k | 0 <= k < |stream'.answers|
      ensures LookedUp(mode, behaviour, schedule + [a], s, st.requests[stream'.senders[k]], stream'.answers[k].version)
    {
      LookedUpLonger(mode, behaviour, schedule, a, s, st.requests[stream'.senders[k]], stream'.answers[k].version);
    }
  }

  lemma FinishLookedUp(mode: Mode, behaviour: Behaviour, schedule: seq<Action>, s: nat, result: CallResult)
    requires var st := Exec(mode, behaviour, Init(), schedule);
             && Conserved(behaviour, st) && ServerEnabled(behaviour, st, ServerFinish(s, result))
             && StreamLookedUp(mode, behaviour, schedule, st.requests, s, st.streams[s])
    ensures var st := Exec(mode, behaviour, Init(), schedule);
            StreamLookedUp(mode, behaviour, schedule + [OfServer(ServerFinish(s, result))], st.requests, s,
                Finish(st.streams[s], result))
  {
    var st := Exec(mode, behaviour, Init(), schedule);
    var serving := st.streams[s].serving;
    var a := OfServer(ServerFinish(s, result));
    LookedUpLonger(mode, behaviour, schedule, a, s, serving.request, serving.version);
    PostedLookedUp(mode, behaviour, schedule, a, st, s,
                   ResultResponse(serving.request.id, result), ServerAnswer(serving.version, result));
  }

  lemma LooksUpNow(mode: Mode, behaviour: Behaviour, schedule: seq<Action>, s: nat)
    requires ServerEnabled(behaviour, Exec(mode, behaviour, Init(), schedule), ServerLookup(s))
    ensures var st := Exec(mode, behaviour, Init(), schedule);
            LookedUp(mode, behaviour, schedule + [OfServer(ServerLookup(s))], s,
                st.streams[s].serving.request, |st.registries| - 1)
  {
    var st := Exec(mode, behaviour, Init(), schedule);
    var longer := schedule + [OfServer(ServerLookup(s))];
    assert longer[..|schedule|] == schedule;
    assert LookupAt(mode, behaviour, longer, |schedule|, s, st.streams[s].serving.request, |st.registries| - 1);
  }

  lemma LookupLookedUp(mode: Mode, behaviour: Behaviour, schedule: seq<Action>, s: nat)
    requires var st := Exec(mode, behaviour, Init(), schedule);
             && Conserved(behaviour, st) && ServerEnabled(behaviour, st, ServerLookup(s))
             && StreamLookedUp(mode, behaviour, schedule, st.requests, s, st.streams[s])
    ensures var st := Exec(mode, behaviour, Init(), schedule);
            StreamLookedUp(mode, behaviour, schedule + [OfServer(ServerLookup(s))], st.requests, s,
                           Lookup(st.streams[s], CurrentRegistry(st), |st.registries| - 1))
  {
    LooksUpNow(mode, behaviour, schedule, s);
    LookupFrom(mode, behaviour, schedule, OfServer(ServerLookup(s)), Exec(mode, behaviour, Init(), schedule), s);
  }

  lemma LookupFrom(mode: Mode, behaviour: Behaviour, schedule: seq<Action>, a: Action, st: State, s: nat)
    requires Conserved(behaviour, st) && s < |st.streams| && st.streams[s].serving.Received?
    requires StreamLookedUp(mode, behaviour, schedule, st.requests, s, st.streams[s])
    requires LookedUp(mode, behaviour, schedule + [a], s, st.streams[s].serving.request, |st.registries| - 1)
    ensures StreamLookedUp(mode, behaviour, schedule + [a], st.requests, s,
                           Lookup(st.streams[s], CurrentRegistry(st), |st.registries| - 1))
  {
    var request := st.streams[s].serving.request;
    var version := |st.registries| - 1;
    if Target(CurrentRegistry(st), request).None? {
      PostedLookedUp(mode, behaviour, schedule, a, st, s,
                     Respond(CurrentRegistry(st), request, TimedOut), ServerAnswer(version, TimedOut));
    } else {
      SameAnswersLookedUp(mode, behaviour, schedule, a, st, s, Lookup(st.streams[s], CurrentRegistry(st), version));
    }
  }

  predicate Serves(a: Action, s: nat) {
    a.OfServer? && (a.serve.ServerLookup? || a.serve.ServerFinish?) && a.serve.stream == s
  }

  lemma ServingStays(mode: Mode, behaviour: Behaviour, st: State, a: Action, s: nat)
    requires Enabled(mode, behaviour, st, a) && !Serves(a, s) && s < |st.streams|
    ensures s < |Apply(mode, behaviour, st, a).streams|
    ensures SameServing(st.streams[s], Apply(mode, behaviour, st, a).streams[s])
  {
    match a
    case OfCall(x) => CallTouches(mode, st, x);
    case OfConnect(x) => ConnectTouches(st, x);
    case OfHandler(x) => HandlerTouches(st, x);
    case OfClose(x) => CloseTouches(st, x);
    case OfServer(x) =>
  }

  lemma NewStreamsEmpty(mode: Mode, behaviour: Behaviour, st: State, a: Action, s: nat)
    requires Enabled(mode, behaviour, st, a) && |st.streams| <= s < |Apply(mode, behaviour, st, a).streams|
    ensures Apply(mode, behaviour, st, a).streams[s].answers == []
        && Apply(mode, behaviour, st, a).streams[s].serving == Idle
  {
    match a
    case OfCall(x) => CallTouches(mode, st, x);
    case OfConnect(x) => ConnectTouches(st, x);
    case OfHandler(x) => HandlerTouches(st, x);
    case OfClose(x) => CloseTouches(st, x);
    case OfServer(x) => ServerTouches(behaviour, st, x);
  }

  lemma ServedLookedUp(mode: Mode, behaviour: Behaviour, schedule: seq<Action>, a: ServerAction)
    requires a.ServerLookup? || a.ServerFinish?
    requires var st := Exec(mode, behaviour, Init(), schedule);
             Conserved(behaviour, st) && ServerEnabled(behaviour, st, a)
             && StreamLookedUp(mode, behaviour, schedule, st.requests, a.stream, st.streams[a.stream])
    ensures var st := Exec(mode, behaviour, Init(), schedule);
            var st' := ServerStep(behaviour, st, a);
            a.stream < |st'.streams|
            && StreamLookedUp(mode, behaviour, schedule + [OfServer(a)], st'.requests, a.stream, st'.streams[a.stream])
  {
    match a
    case ServerLookup(s) => LookupLookedUp(mode, behaviour, schedule, s);
    case ServerFinish(s, result) => FinishLookedUp(mode, behaviour, schedule, s, result);
  }

  lemma OthersLookedUp(mode: Mode, behaviour: Behaviour, schedule: seq<Action>, a: Action, st: State, s: nat)
    requires Conserved(behaviour, st) && AllLookedUp(mode, behaviour, schedule, st) && Enabled(mode, behaviour, st, a)
    requires !Serves(a, s) && s < |Apply(mode, behaviour, st, a).streams|
    ensures var st' := Apply(mode, behaviour, st, a);
            StreamLookedUp(mode, behaviour, schedule + [a], st'.requests, s, st'.streams[s])
  {
    if s >= |st.streams| {
      NewStreamsEmpty(mode, behaviour, st, a, s);
    } else {
      Growth(mode, behaviour, st, a);
      ServingStays(mode, behaviour, st, a, s);
      SameServingLookedUp(mode, behaviour, schedule, a, st, Apply(mode, behaviour, st, a), s);
    }
  }

  lemma AllLookedUpStep(mode: Mode, behaviour: Behaviour, schedule: seq<Action>, a: Action)
    requires var st := Exec(mode, behaviour, Init(), schedule);
             Conserved(behaviour, st) && AllLookedUp(mode, behaviour, schedule, st) && Enabled(mode, behaviour, st, a)
    ensures var st := Exec(mode, behaviour, Init(), schedule);
            AllLookedUp(mode, behaviour, schedule + [a], Apply(mode, behaviour, st, a))
  {
    var st := Exec(mode, behaviour, Init(), schedule);
    var st' := Apply(mode, behaviour, st, a);
    forall s | 0 <= s < |st'.streams|
      ensures StreamLookedUp(mode, behaviour, schedule + [a], st'.requests, s, st'.streams[s])
    {
      if Serves(a, s) {
        ServedLookedUp(mode, behaviour, schedule, a.serve);
      } else {
        OthersLookedUp(mode, behaviour, schedule, a, st, s);
      }
    }
  }

  lemma AllLookedUpIdle(mode: Mode, behaviour: Behaviour, schedule: seq<Action>, a: Action, st: State)
    requires Conserved(behaviour, st) && AllLookedUp(mode, behaviour, schedule, st)
    ensures AllLookedUp(mode, behaviour, schedule + [a], st)
  {
    forall s | 0 <= s < |st.streams|
      ensures StreamLookedUp(mode, behaviour, schedule + [a], st.requests, s, st.streams[s])
    {
      SameServingLookedUp(mode, behaviour, schedule, a, st, st, s);
    }
  }

  lemma {:induction false} AllLookedUpReached(mode: Mode, behaviour: Behaviour, schedule: seq<Action>)
    ensures AllLookedUp(mode, behaviour, schedule, Exec(mode, behaviour, Init(), schedule))
  {
    if schedule != [] {
      var before := schedule[..|schedule| - 1];
      var a := schedule[|schedule| - 1];
      AllLookedUpReached(mode, behaviour, before);
      InvReached(mode, behaviour, before);
      assert before + [a] == schedule;
      if Enabled(mode, behaviour, Exec(mode, behaviour, Init(), before), a) {
        AllLookedUpStep(mode, behaviour, before, a);
      } else {
        AllLookedUpIdle(mode, behaviour, before, a, Exec(mode, behaviour, Init(), before));
      }
    }
  }

  /** What the server may say to `request` when `service` is registered under its service name. */
  ghost predicate AnsweredBy(behaviour: Behaviour, latest: Option<Service>, request: Request, response: Response) {
    match Split(request.methodName)
    case Malformed =>
      IsFailure(response, request.id,
                "Invalid method format. Expected 'service.method', got '" + request.methodName + "'")
    case Routed(name, methodName) =>
      match latest
      case None => IsFailure(response, request.id, "Service not found: " + name)
      case Some(service) =>
        || IsFailure(response, request.id, "Request timeout")
        || (exists bytes: Bytes ::
              behaviour(service, methodName, request.payload, Replied(bytes)) && IsReply(response, request.id, bytes))
        || (exists text: string ::
              behaviour(service, methodName, request.payload, Faulted(text)) && IsFailure(response, request.id, text))
  }

  /** The service a request names, as far as it names one. */
  function ServiceName(request: Request): string {
    match Split(request.methodName)
    case Malformed => ""
    case Routed(name, _) => name
  }

  /** The registry with a given number never changes. */
  lemma {:induction false} RegistriesGrow(schedule: seq<Action>, i: nat)
    requires i <= |schedule|
    ensures RegistriesOf(schedule[..i]) <= RegistriesOf(schedule)
  {
    if i == |schedule| {
      assert schedule[..i] == schedule;
    } else {
      var before := schedule[..|schedule| - 1];
      assert before[..i] == schedule[..i];
      RegistriesGrow(before, i);
    }
  }

  lemma LookupVersion(mode: Mode, behaviour: Behaviour, schedule: seq<Action>, i: nat, s: nat, request: Request,
                      version: nat)
    requires LookupAt(mode, behaviour, schedule, i, s, request, version)
    ensures i < |schedule| && version == |RegistriesOf(schedule[..i])| - 1
  {
    RegistriesReached(mode, behaviour, schedule[..i]);
  }

  /** The registry a lookup used is the one the registrations before it left. */
  lemma LookupRegistry(mode: Mode, behaviour: Behaviour, schedule: seq<Action>, i: nat, s: nat, request: Request,
                       version: nat, name: string)
    requires LookupAt(mode, behaviour, schedule, i, s, request, version)
    ensures version < |Exec(mode, behaviour, Init(), schedule).registries|
    ensures Find(Exec(mode, behaviour, Init(), schedule).registries[version], name) ==
            LastRegistered(Registered(schedule[..i]), name)
  {
    LookupVersion(mode, behaviour, schedule, i, s, request, version);
    RegistriesReached(mode, behaviour, schedule);
    VersionFinds(schedule, i, name);
  }

  lemma VersionFinds(schedule: seq<Action>, i: nat, name: string)
    requires i <= |schedule|
    ensures var version := |RegistriesOf(schedule[..i])| - 1;
            && version < |RegistriesOf(schedule)|
            && Find(RegistriesOf(schedule)[version], name) == LastRegistered(Registered(schedule[..i]), name)
  {
    RegistriesGrow(schedule, i);
    RegistriesFind(schedule[..i], name);
  }

  lemma AnsweredFrom(mode: Mode, behaviour: Behaviour, schedule: seq<Action>, s: nat, k: nat)
    requires var st := Exec(mode, behaviour, Init(), schedule); s < |st.streams| && k < |Responses(st.streams[s])|
    ensures var st := Exec(mode, behaviour, Init(), schedule);
            var stream := st.streams[s];
            && k < |stream.senders| && stream.senders[k] < |st.requests| && k < |stream.answers|
            && LookedUp(mode, behaviour, schedule, s, st.requests[stream.senders[k]], stream.answers[k].version)
            && AnswerOk(behaviour, st.registries, st.requests[stream.senders[k]], stream.answers[k],
                Responses(stream)[k])
  {
    var st := Exec(mode, behaviour, Init(), schedule);
    InvReached(mode, behaviour, schedule);
    AllLookedUpReached(mode, behaviour, schedule);
    assert StreamOk(behaviour, st.requests, st.registries, st.streams[s]);
    assert StreamLookedUp(mode, behaviour, schedule, st.requests, s, st.streams[s]);
  }

  /** Registry consistency across sessions: the `k`-th response on a stream goes back to one
      step of the run that looked up the `k`-th request, and is what the service last
      registered under the requested name before that step may answer - even if another
      was registered while it ran. */
  lemma AnsweredByLatestService(mode: Mode, behaviour: Behaviour, schedule: seq<Action>, s: nat, k: nat)
    requires var st := Exec(mode, behaviour, Init(), schedule); s < |st.streams| && k < |Responses(st.streams[s])|
    ensures var st := Exec(mode, behaviour, Init(), schedule);
            && k < |st.streams[s].senders| && st.streams[s].senders[k] < |st.requests|
            && var request := st.requests[st.streams[s].senders[k]];
               exists i: nat, version: nat ::
                 && LookupAt(mode, behaviour, schedule, i, s, request, version)
                 && AnsweredBy(behaviour, LastRegistered(Registered(schedule[..i]), ServiceName(request)), request,
                     Responses(st.streams[s])[k])
  {
    AnsweredFrom(mode, behaviour, schedule, s, k);
    var st := Exec(mode, behaviour, Init(), schedule);
    var request := st.requests[st.streams[s].senders[k]];
    var answer := st.streams[s].answers[k];
    var i: nat :| LookupAt(mode, behaviour, schedule, i, s, request, answer.version);
    LookupRegistry(mode, behaviour, schedule, i, s, request, answer.version, ServiceName(request));
    AnsweredFromRegistry(behaviour, st.registries[answer.version], request, answer.result);
  }

  lemma AnsweredFromRegistry(behaviour: Behaviour, registry: Registry, request: Request, result: CallResult)
    requires Allowed(behaviour, registry, request, result)
    ensures AnsweredBy(behaviour, Find(registry, ServiceName(request)), request, Respond(registry, request, result))
  {
    RespondSays(registry, request, result);
  }

  /** End-to-end correlation, with the registry: a reply or remote failure a caller returns
      goes back to one step of the run that looked up its own request - the method and
      payload that very caller asked for - and is what the service last registered under the
      requested name before that step may answer. */
  lemma OwnLatestReplies(mode: Mode, behaviour: Behaviour, schedule: seq<Action>, j: nat, c: nat,
                         methodName: string, payload: Bytes)
    requires WindowThroughout(mode, behaviour, schedule)
    requires AskedAt(mode, behaviour, schedule, j, c, methodName, payload)
    requires HasReply(Exec(mode, behaviour, Init(), schedule), c)
    ensures var st := Exec(mode, behaviour, Init(), schedule);
            var request := Request(c % U64_MODULUS, methodName, payload);
            exists i: nat, s: nat, version: nat, response: Response ::
              && LookupAt(mode, behaviour, schedule, i, s, request, version)
              && AnsweredBy(behaviour, LastRegistered(Registered(schedule[..i]), ServiceName(request)), request,
                  response)
              && st.calls[c].phase.outcome == ValueOf(response)
  {
    var s, k := ReplyOrigin(mode, behaviour, schedule, c);
    var st := Exec(mode, behaviour, Init(), schedule);
    assert Responses(st.streams[s])[k] == st.streams[s].handled[k];
    AnsweredByLatestService(mode, behaviour, schedule, s, k);
    AskedRequest(mode, behaviour, schedule, j, c, methodName, payload);
  }
}
