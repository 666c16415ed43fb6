/** The sequential loops of the client and the server - the receive loop, and the session
    loop from its first request to any of its endings - as runs of the protocol. */
module Refinement {
  import opened Rpc
  import opened Routing
  import opened Dispatch
  import opened Protocol
  import opened ClientObject
  import opened Util
  import Session

  lemma {:induction false} ExecConcat(mode: Mode, behaviour: Behaviour, st: State, first: seq<Action>,
                                      second: seq<Action>)
    ensures Exec(mode, behaviour, st, first + second) == Exec(mode, behaviour, Exec(mode, behaviour, st, first), second)
  {
    if second == [] {
      assert first + second == first;
    } else {
      assert (first + second)[..|first + second| - 1] == first + second[..|second| - 1];
      ExecConcat(mode, behaviour, st, first, second[..|second| - 1]);
    }
  }

  lemma ExecOne(mode: Mode, behaviour: Behaviour, st: State, a: Action)
    ensures Exec(mode, behaviour, st, [a]) == Step(mode, behaviour, st, a)
  {
    assert Exec(mode, behaviour, st, [a][..0]) == st;
  }

  /** One turn of the receive loop is a read, a look-up and a send, or a read and a skip. */
  lemma HandleOneIsRun(mode: Mode, behaviour: Behaviour, st: State, h: nat,
                       readable: bool) returns (schedule: seq<Action>)
    requires HandlerEnabled(st, Receive(h))
    ensures Exec(mode, behaviour, st, schedule) == HandleOne(st, h, readable)
  {
    var read := [OfHandler(Receive(h))];
    var received := HandlerStep(st, Receive(h));
    ExecOne(mode, behaviour, st, OfHandler(Receive(h)));
    if !readable {
      schedule := read + [OfHandler(SkipResponse(h))];
      ExecConcat(mode, behaviour, st, read, [OfHandler(SkipResponse(h))]);
      ExecOne(mode, behaviour, received, OfHandler(SkipResponse(h)));
    } else {
      var looked := read + [OfHandler(RemovePending(h))];
      var removed := HandlerStep(received, RemovePending(h));
      ExecConcat(mode, behaviour, st, read, [OfHandler(RemovePending(h))]);
      ExecOne(mode, behaviour, received, OfHandler(RemovePending(h)));
      schedule := looked + [OfHandler(Complete(h))];
      ExecConcat(mode, behaviour, st, looked, [OfHandler(Complete(h))]);
      ExecOne(mode, behaviour, removed, OfHandler(Complete(h)));
    }
  }

  /** The receive loop of the client object is a run of the protocol, so all that holds of
      every run holds of it. */
  lemma {:induction false} ReceiveLoopIsRun(mode: Mode, behaviour: Behaviour, st: State, h: nat, readable: seq<bool>)
    ensures exists schedule :: Exec(mode, behaviour, st, schedule) == HandleAll(st, h, readable)
    decreases |readable|
  {
    if readable == [] || !HandlerEnabled(st, Receive(h)) {
      assert Exec(mode, behaviour, st, []) == HandleAll(st, h, readable);
    } else {
      var first := HandleOneIsRun(mode, behaviour, st, h, readable[0]);
      var next := HandleOne(st, h, readable[0]);
      ReceiveLoopIsRun(mode, behaviour, next, h, readable[1..]);
      var rest :| Exec(mode, behaviour, next, rest) == HandleAll(next, h, readable[1..]);
      ExecConcat(mode, behaviour, st, first, rest);
      assert Exec(mode, behaviour, st, first + rest) == HandleAll(st, h, readable);
    }
  }

  /** A whole response handler - take, receive loop, put back - is a run of the protocol. */
  lemma HandlerIsRun(mode: Mode, behaviour: Behaviour, st: State, h: nat, readable: seq<bool>)
    requires HandlerEnabled(st, Take(h))
    ensures exists schedule :: Exec(mode, behaviour, st, schedule) == HandlerRun(st, h, readable)
  {
    var taken := HandlerStep(st, Take(h));
    ExecOne(mode, behaviour, st, OfHandler(Take(h)));
    ReceiveLoopIsRun(mode, behaviour, taken, h, readable);
    var loop: seq<Action> :| Exec(mode, behaviour, taken, loop) == HandleAll(taken, h, readable);
    ExecConcat(mode, behaviour, st, [OfHandler(Take(h))], loop);
    ExecConcat(mode, behaviour, st, [OfHandler(Take(h))] + loop, [OfHandler(PutBack(h))]);
    ExecOne(mode, behaviour, HandleAll(taken, h, readable), OfHandler(PutBack(h)));
  }

  /** The oracle answers as the services' behaviour allows. */
  ghost predicate Keeps(behaviour: Behaviour, oracle: Session.Oracle) {
    forall i, service, methodName, payload ::
      var result := oracle(i, service, methodName, payload);
      result.TimedOut? || behaviour(service, methodName, payload, result)
  }

  /** The server end of a stream, one turn on: the next request is answered. */
  function Answered(stream: Stream, registry: Registry, version: nat, oracle: Session.Oracle, i: nat): Stream
    requires stream.serving.Idle? && stream.requestQueue != []
  {
    var request := stream.requestQueue[0];
    var result := match Target(registry, request)
                  case None => TimedOut
                  case Some(service) => oracle(i, service, Split(request.methodName).MethodOr(""), request.payload);
    stream.(requestQueue := stream.requestQueue[1..],
            answers := stream.answers + [ServerAnswer(version, result)],
            responseQueue := stream.responseQueue + [Session.Answer(registry, oracle, i, request)])
  }

  lemma LookupAndFinish(behaviour: Behaviour, stream: Stream, registry: Registry, version: nat,
                        oracle: Session.Oracle, i: nat)
    requires Keeps(behaviour, oracle) && stream.serving.Idle? && stream.requestQueue != []
    ensures var looked := Lookup(TakeUp(stream), registry, version);
            if Target(registry, stream.requestQueue[0]).None? then
              looked == Answered(stream, registry, version, oracle, i)
            else
              var result := oracle(i, Target(registry, stream.requestQueue[0]).value,
                                   Split(stream.requestQueue[0].methodName).MethodOr(""),
                                   stream.requestQueue[0].payload);
              && MayEnd(behaviour, looked.serving, result)
              && Finish(looked, result) == Answered(stream, registry, version, oracle, i)
  {
  }

  /** The receive and lookup blocks of a turn. */
  lemma LookupIsRun(mode: Mode, behaviour: Behaviour, st: State, s: nat)
    requires st.registries != []
    requires s < |st.streams| && st.streams[s].serving.Idle? && st.streams[s].requestQueue != []
    ensures Exec(mode, behaviour, st, [OfServer(ServerReceive(s)), OfServer(ServerLookup(s))]) ==
            SetStream(st, s, Lookup(TakeUp(st.streams[s]), CurrentRegistry(st), |st.registries| - 1))
  {
    ServerTurn(mode, behaviour, st, [], ServerReceive(s));
    assert SetStream(st, s, TakeUp(st.streams[s])).registries == st.registries;
    ServerTurn(mode, behaviour, st, [OfServer(ServerReceive(s))], ServerLookup(s));
  }

  /** One turn of the session loop is a run of the protocol's server steps, and appends to
      the stream exactly the response the loop sends. */
  lemma SessionTurnIsRun(mode: Mode, behaviour: Behaviour, st: State, s: nat, oracle: Session.Oracle, i: nat)
    returns (schedule: seq<Action>)
    requires st.registries != [] && Keeps(behaviour, oracle)
    requires s < |st.streams| && st.streams[s].serving.Idle? && st.streams[s].requestQueue != []
    ensures Exec(mode, behaviour, st, schedule) ==
            SetStream(st, s, Answered(st.streams[s], CurrentRegistry(st), |st.registries| - 1, oracle, i))
  {
    var registry, version := CurrentRegistry(st), |st.registries| - 1;
    var stream := st.streams[s];
    var request := stream.requestQueue[0];
    schedule := [OfServer(ServerReceive(s)), OfServer(ServerLookup(s))];
    LookupAndFinish(behaviour, stream, registry, version, oracle, i);
    LookupIsRun(mode, behaviour, st, s);
    if Target(registry, request).Some? {
      var result := oracle(i, Target(registry, request).value, Split(request.methodName).MethodOr(""), request.payload);
      ServerTurn(mode, behaviour, st, schedule, ServerFinish(s, result));
      schedule := schedule + [OfServer(ServerFinish(s, result))];
    }
  }

  /** One more server step after a run. */
  lemma ServerTurn(mode: Mode, behaviour: Behaviour, st: State, schedule: seq<Action>, a: ServerAction)
    requires ServerEnabled(behaviour, Exec(mode, behaviour, st, schedule), a)
    ensures Exec(mode, behaviour, st, schedule + [OfServer(a)]) ==
            ServerStep(behaviour, Exec(mode, behaviour, st, schedule), a)
  {
    assert (schedule + [OfServer(a)])[..|schedule|] == schedule;
  }

  /** Registrations by other tasks are a run. */
  lemma {:induction false} RegistrationsAreRun(mode: Mode, behaviour: Behaviour, st: State,
                                               registrations: seq<Registration>) returns (schedule: seq<Action>)
    requires st.registries != []
    ensures var st' := Exec(mode, behaviour, st, schedule);
            && st' == st.(registries := st'.registries) && st'.registries != []
            && CurrentRegistry(st') == AfterAll(CurrentRegistry(st), registrations)
  {
    schedule := [];
    if registrations != [] {
      var (name, service) := registrations[|registrations| - 1];
      schedule := RegistrationsAreRun(mode, behaviour, st, registrations[..|registrations| - 1]);
      ServerTurn(mode, behaviour, st, schedule, RegisterService(name, service));
      schedule := schedule + [OfServer(RegisterService(name, service))];
    }
  }

  /** The session on stream `s` has gone from `st` to `st'` by answering the first `n`
      queued requests, each from the registry at its own lookup; nothing else has changed. */
  ghost predicate Served(st: State, st': State, s: nat, arrivals: seq<seq<Registration>>, oracle: Session.Oracle,
                         n: nat)
    requires st.registries != [] && s < |st.streams| && n <= |st.streams[s].requestQueue| && n <= |arrivals|
  {
    && st' == st.(streams := st'.streams, registries := st'.registries)
    && |st'.streams| == |st.streams| && (forall t | 0 <= t < |st.streams| && t != s :: st'.streams[t] == st.streams[t])
    && st'.registries != []
    && CurrentRegistry(st') == Session.ServicesBefore(CurrentRegistry(st), arrivals, n)
    && ServedStream(CurrentRegistry(st), st.streams[s], st'.streams[s], arrivals, oracle, n)
  }

  ghost predicate ServedStream(services: Registry, stream: Stream, stream': Stream, arrivals: seq<seq<Registration>>,
                               oracle: Session.Oracle, n: nat)
    requires n <= |stream.requestQueue| && n <= |arrivals|
  {
    && stream' == stream.(requestQueue := stream.requestQueue[n..], answers := stream'.answers,
                          responseQueue := stream'.responseQueue)
    && stream'.responseQueue ==
       stream.responseQueue + Session.Answers(services, arrivals, oracle, stream.requestQueue, n)
  }

  lemma ServedStreamNext(services: Registry, stream: Stream, served: Stream, arrivals: seq<seq<Registration>>,
                         oracle: Session.Oracle, n: nat, version: nat)
    requires stream.serving.Idle? && n < |stream.requestQueue| && n < |arrivals|
    requires ServedStream(services, stream, served, arrivals, oracle, n)
    ensures ServedStream(services, stream,
                         Answered(served, Session.ServicesAt(services, arrivals, n), version, oracle, n),
                         arrivals, oracle, n + 1)
  {
    Session.AnswersNext(services, arrivals, oracle, stream.requestQueue, n, stream.responseQueue);
    assert stream.requestQueue[n..][1..] == stream.requestQueue[n + 1..];
  }

  lemma ServedNext(st: State, st': State, registries: seq<Registry>, s: nat, arrivals: seq<seq<Registration>>,
                   oracle: Session.Oracle, n: nat)
    requires st.registries != [] && s < |st.streams| && st.streams[s].serving.Idle?
    requires n < |st.streams[s].requestQueue| && n < |arrivals| && Served(st, st', s, arrivals, oracle, n)
    requires registries != [] && registries[|registries| - 1] == AfterAll(CurrentRegistry(st'), arrivals[n])
    ensures st'.streams[s].serving.Idle? && st'.streams[s].requestQueue != []
    ensures Served(st, Turned(st', s, registries, oracle, n), s, arrivals, oracle, n + 1)
  {
    Session.ServicesNext(CurrentRegistry(st), arrivals, n);
    ServedStreamNext(CurrentRegistry(st), st.streams[s], st'.streams[s], arrivals, oracle, n, |registries| - 1);
  }

  /** One turn, once the registries have become `registries`. */
  function Turned(st: State, s: nat, registries: seq<Registry>, oracle: Session.Oracle, i: nat): State
    requires s < |st.streams| && st.streams[s].serving.Idle? && st.streams[s].requestQueue != [] && registries != []
  {
    SetStream(st.(registries := registries), s,
              Answered(st.streams[s], registries[|registries| - 1], |registries| - 1, oracle, i))
  }

  lemma TurnIsRun(mode: Mode, behaviour: Behaviour, st: State, s: nat, registrations: seq<Registration>,
                  oracle: Session.Oracle, i: nat) returns (schedule: seq<Action>, registries: seq<Registry>)
    requires st.registries != [] && Keeps(behaviour, oracle)
    requires s < |st.streams| && st.streams[s].serving.Idle? && st.streams[s].requestQueue != []
    ensures registries != [] && registries[|registries| - 1] == AfterAll(CurrentRegistry(st), registrations)
    ensures Exec(mode, behaviour, st, schedule) == Turned(st, s, registries, oracle, i)
  {
    var registering := RegistrationsAreRun(mode, behaviour, st, registrations);
    var st' := Exec(mode, behaviour, st, registering);
    registries := st'.registries;
    var turn := SessionTurnIsRun(mode, behaviour, st', s, oracle, i);
    ExecConcat(mode, behaviour, st, registering, turn);
    schedule := registering + turn;
  }

  lemma ServedNone(st: State, s: nat, arrivals: seq<seq<Registration>>, oracle: Session.Oracle)
    requires st.registries != [] && s < |st.streams|
    ensures Served(st, st, s, arrivals, oracle, 0)
  {
    var answers := Session.Answers(CurrentRegistry(st), arrivals, oracle, st.streams[s].requestQueue, 0);
    assert st.streams[s].responseQueue + answers == st.streams[s].responseQueue;
    assert st.streams[s].requestQueue[0..] == st.streams[s].requestQueue;
  }

  /** The first `n` turns of the session loop, with registrations between them. */
  lemma {:induction false} TurnsAreRun(mode: Mode, behaviour: Behaviour, st: State, s: nat,
                                       arrivals: seq<seq<Registration>>, oracle: Session.Oracle, n: nat)
    returns (schedule: seq<Action>)
    requires st.registries != [] && Keeps(behaviour, oracle) && s < |st.streams| && st.streams[s].serving.Idle?
    requires n <= |st.streams[s].requestQueue| && n <= |arrivals|
    ensures Served(st, Exec(mode, behaviour, st, schedule), s, arrivals, oracle, n)
  {
    if n == 0 {
      schedule := [];
      ServedNone(st, s, arrivals, oracle);
    } else {
      var first := TurnsAreRun(mode, behaviour, st, s, arrivals, oracle, n - 1);
      var st' := Exec(mode, behaviour, st, first);
      var turn, registries := TurnIsRun(mode, behaviour, st', s, arrivals[n - 1], oracle, n - 1);
      ServedNext(st, st', registries, s, arrivals, oracle, n - 1);
      ExecConcat(mode, behaviour, st, first, turn);
      schedule := first + turn;
    }
  }

  // The ways a session ends.

  /** Stream `s` after the session on it has answered `n` of its queued requests, looked up
      `lookups` of them, and stopped. */
  ghost predicate Ended(st: State, st': State, s: nat, arrivals: seq<seq<Registration>>, oracle: Session.Oracle,
                        n: nat, lookups: nat)
    requires st.registries != [] && s < |st.streams|
    requires n <= lookups <= |st.streams[s].requestQueue| && lookups <= |arrivals|
  {
    var stream := st.streams[s];
    && st' == st.(streams := st'.streams, registries := st'.registries)
    && |st'.streams| == |st.streams| && (forall t | 0 <= t < |st.streams| && t != s :: st'.streams[t] == st.streams[t])
    && st'.registries != []
    && CurrentRegistry(st') == Session.ServicesBefore(CurrentRegistry(st), arrivals, lookups)
    && st'.streams[s].serving == Stopped(stream.requestQueue[n..lookups])
    && st'.streams[s].requestQueue == stream.requestQueue[lookups..]
    && st'.streams[s].responseQueue ==
       stream.responseQueue + Session.Answers(CurrentRegistry(st), arrivals, oracle, stream.requestQueue, n)
    && st'.streams[s] == stream.(requestQueue := st'.streams[s].requestQueue, serving := st'.streams[s].serving,
                                 answers := st'.streams[s].answers, responseQueue := st'.streams[s].responseQueue)
  }

  lemma StopIsRun(mode: Mode, behaviour: Behaviour, st: State, s: nat)
    requires st.registries != [] && s < |st.streams| && !st.streams[s].serving.Stopped?
    ensures Exec(mode, behaviour, st, [OfServer(ServerStop(s))]) == SetStream(st, s, Stop(st.streams[s]))
  {
    ServerTurn(mode, behaviour, st, [], ServerStop(s));
  }

  /** Between turns: the end of the stream, a failed read, or a request that does not decode. */
  lemma EndsBetweenTurns(mode: Mode, behaviour: Behaviour, st: State, st': State, s: nat,
                         arrivals: seq<seq<Registration>>, oracle: Session.Oracle, n: nat)
    requires st.registries != [] && s < |st.streams| && st.streams[s].serving.Idle?
    requires n <= |st.streams[s].requestQueue| && n <= |arrivals| && Served(st, st', s, arrivals, oracle, n)
    ensures Ended(st, Exec(mode, behaviour, st', [OfServer(ServerStop(s))]), s, arrivals, oracle, n, n)
  {
    StopIsRun(mode, behaviour, st', s);
  }

  /** Within a turn: the write of the answer fails. */
  lemma EndsInTurn(mode: Mode, behaviour: Behaviour, st: State, st': State, s: nat,
                   arrivals: seq<seq<Registration>>, oracle: Session.Oracle, n: nat) returns (schedule: seq<Action>)
    requires st.registries != [] && s < |st.streams| && st.streams[s].serving.Idle?
    requires n < |st.streams[s].requestQueue| && n < |arrivals| && Served(st, st', s, arrivals, oracle, n)
    ensures Ended(st, Exec(mode, behaviour, st', schedule), s, arrivals, oracle, n, n + 1)
  {
    schedule := RegistrationsAreRun(mode, behaviour, st', arrivals[n]);
    var registered := Exec(mode, behaviour, st', schedule);
    Session.ServicesNext(CurrentRegistry(st), arrivals, n);
    ServerTurn(mode, behaviour, st', schedule, ServerReceive(s));
    var taken := SetStream(registered, s, TakeUp(registered.streams[s]));
    StopIsRun(mode, behaviour, taken, s);
    schedule := schedule + [OfServer(ServerReceive(s))];
    ExecConcat(mode, behaviour, st', schedule, [OfServer(ServerStop(s))]);
    schedule := schedule + [OfServer(ServerStop(s))];
    assert st.streams[s].requestQueue[n..][1..] == st.streams[s].requestQueue[n + 1..];
    assert st.streams[s].requestQueue[n..n + 1] == [st.streams[s].requestQueue[n]];
  }

  lemma StoppedSessionIsRun(mode: Mode, behaviour: Behaviour, st: State, s: nat, arrivals: seq<seq<Registration>>,
                            oracle: Session.Oracle, n: nat) returns (schedule: seq<Action>)
    requires st.registries != [] && Keeps(behaviour, oracle) && s < |st.streams| && st.streams[s].serving.Idle?
    requires n <= |st.streams[s].requestQueue| && n <= |arrivals|
    ensures Ended(st, Exec(mode, behaviour, st, schedule), s, arrivals, oracle, n, n)
  {
    var turns := TurnsAreRun(mode, behaviour, st, s, arrivals, oracle, n);
    EndsBetweenTurns(mode, behaviour, st, Exec(mode, behaviour, st, turns), s, arrivals, oracle, n);
    ExecConcat(mode, behaviour, st, turns, [OfServer(ServerStop(s))]);
    schedule := turns + [OfServer(ServerStop(s))];
  }

  lemma BrokenSessionIsRun(mode: Mode, behaviour: Behaviour, st: State, s: nat, arrivals: seq<seq<Registration>>,
                           oracle: Session.Oracle, n: nat) returns (schedule: seq<Action>)
    requires st.registries != [] && Keeps(behaviour, oracle) && s < |st.streams| && st.streams[s].serving.Idle?
    requires n < |st.streams[s].requestQueue| && n < |arrivals|
    ensures Ended(st, Exec(mode, behaviour, st, schedule), s, arrivals, oracle, n, n + 1)
  {
    var turns := TurnsAreRun(mode, behaviour, st, s, arrivals, oracle, n);
    var ending := EndsInTurn(mode, behaviour, st, Exec(mode, behaviour, st, turns), s, arrivals, oracle, n);
    ExecConcat(mode, behaviour, st, turns, ending);
    schedule := turns + ending;
  }

  /** The whole session loop is a run of the protocol, whatever the transport delivers,
      however many writes it takes, and whatever is registered meanwhile: the run answers
      the requests the loop answers, with the same responses, from the same registries,
      holds the request whose answer could not be written, and stops. */
  lemma SessionIsRun(mode: Mode, behaviour: Behaviour, st: State, s: nat, inbound: seq<Session.Incoming>,
                     writable: nat, arrivals: seq<seq<Registration>>, oracle: Session.Oracle)
    returns (schedule: seq<Action>)
    requires st.registries != [] && Keeps(behaviour, oracle) && s < |st.streams| && st.streams[s].serving.Idle?
    requires Session.Requests(inbound) <= st.streams[s].requestQueue && |inbound| <= |arrivals|
    ensures Ended(st, Exec(mode, behaviour, st, schedule), s, arrivals, oracle,
                  Min(|Session.Requests(inbound)|, writable), Session.Lookups(inbound, writable))
  {
    var n := Min(|Session.Requests(inbound)|, writable);
    if Session.Lookups(inbound, writable) == n {
      schedule := StoppedSessionIsRun(mode, behaviour, st, s, arrivals, oracle, n);
    } else {
      schedule := BrokenSessionIsRun(mode, behaviour, st, s, arrivals, oracle, n);
    }
  }

  lemma SameAnswers(services: Registry, arrivals: seq<seq<Registration>>, oracle: Session.Oracle,
                    requests: seq<Request>, more: seq<Request>, n: nat)
    requires n <= |requests| && n <= |arrivals| && requests <= more
    ensures Session.Answers(services, arrivals, oracle, requests, n) ==
            Session.Answers(services, arrivals, oracle, more, n)
  {
  }

  /** The server object, run on a stream of the protocol: it leaves the registry and sends
      the responses that some run of the protocol does, and that run has ended the session. */
  method ServeStream(stream: Session.MessageStream, server: Session.Server, arrivals: seq<seq<Registration>>,
                     oracle: Session.Oracle, ghost mode: Mode, ghost behaviour: Behaviour, ghost st: State,
                     ghost s: nat)
    returns (ending: Session.Ending, ghost schedule: seq<Action>)
    requires st.registries != [] && Keeps(behaviour, oracle) && s < |st.streams| && st.streams[s].serving.Idle?
    requires Session.Requests(stream.inbound) <= st.streams[s].requestQueue && |stream.inbound| <= |arrivals|
    requires server.services == CurrentRegistry(st)
    modifies stream, server
    ensures var st' := Exec(mode, behaviour, st, schedule);
            && st'.registries != [] && server.services == CurrentRegistry(st')
            && s < |st'.streams| && st'.streams[s].serving.Stopped?
            && |st.streams[s].responseQueue| <= |st'.streams[s].responseQueue|
            && stream.outbound ==
               old(stream.outbound) + st'.streams[s].responseQueue[|st.streams[s].responseQueue|..]
    ensures ending == Session.EndingOf(old(stream.inbound), old(stream.writable))
  {
    schedule := SessionIsRun(mode, behaviour, st, s, stream.inbound, stream.writable, arrivals, oracle);
    SameAnswers(server.services, arrivals, oracle, Session.Requests(stream.inbound), st.streams[s].requestQueue,
                Min(|Session.Requests(stream.inbound)|, stream.writable));
    ending := Session.HandleSession(stream, server, arrivals, oracle);
  }
}
