/** Who gets which response: without any assumption, up to equal ids; under the
    assumption that live calls span at most 2^64 ids, exactly. */
module Correlation {
  import opened Rpc
  import opened Dispatch
  import opened Protocol
  import opened Invariants

  /** Response `k` of a stream has been handled, carries the id of call `c` and means `value`. */
  ghost predicate Backed(requests: seq<Request>, streams: seq<Stream>, s: nat, k: int, c: nat, value: Outcome) {
    && c < |requests| && s < |streams| && 0 <= k < |streams[s].handled|
    && streams[s].handled[k].id == requests[c].id
    && value == ValueOf(streams[s].handled[k])
  }

  /** A value sent to a caller is a handled response or the notice from `close`, and a
      caller returns a reply or a remote failure only when that is what it was sent. */
  ghost predicate CallBacked(requests: seq<Request>, streams: seq<Stream>, c: nat, call: Call) {
    && (call.sender.Sent? ==>
          match call.sender.origin
          case Some(origin) => Backed(requests, streams, origin.stream, origin.index, c, call.sender.value)
          case None => call.sender.value == ConnectionClosed)
    && (call.phase.Finished? && (call.phase.outcome.Answer? || call.phase.outcome.RpcFailed?) ==>
          call.sender.Sent? && call.sender.value == call.phase.outcome)
  }

  /** A handler between reading a response and sending its value works on the last
      response it read. */
  ghost predicate HandlerBacked(requests: seq<Request>, streams: seq<Stream>, handler: Handler) {
    match handler
    case Decoding(s, response) =>
      s < |streams| && streams[s].handled != [] && streams[s].handled[|streams[s].handled| - 1] == response
    case Completing(s, c, value) =>
      s < |streams| && Backed(requests, streams, s, |streams[s].handled| - 1, c, value)
    case _ => true
  }

  ghost predicate Origins(st: State) {
    && |st.calls| == |st.requests|
    && (forall c | 0 <= c < |st.calls| :: CallBacked(st.requests, st.streams, c, st.calls[c]))
    && (forall h | 0 <= h < |st.handlers| :: HandlerBacked(st.requests, st.streams, st.handlers[h]))
  }

  /** Logs grow and keep what they held. */
  ghost predicate Grows(st: State, st': State) {
    && st.requests <= st'.requests
    && |st.streams| <= |st'.streams|
    && (forall s | 0 <= s < |st.streams| :: st.streams[s].handled <= st'.streams[s].handled)
    && (forall s | 0 <= s < |st.streams| :: st.streams[s].senders <= st'.streams[s].senders)
  }

  lemma Growth(mode: Mode, behaviour: Behaviour, st: State, a: Action)
    requires Enabled(mode, behaviour, st, a)
    ensures Grows(st, Apply(mode, behaviour, st, a))
  {
    match a
    case OfCall(x) =>
      CallTouches(mode, st, x);
      SendersGrow(mode, st, x);
    case OfConnect(x) => ConnectTouches(st, x);
    case OfHandler(x) =>
      HandlerTouches(st, x);
      HandledGrows(st, x);
    case OfClose(x) => CloseTouches(st, x);
    case OfServer(x) => ServerTouches(behaviour, st, x);
  }

  lemma SendersGrow(mode: Mode, st: State, a: CallAction)
    requires CallEnabled(mode, st, a)
    ensures |CallStep(mode, st, a).streams| == |st.streams|
    ensures forall s | 0 <= s < |st.streams| :: st.streams[s].senders <= CallStep(mode, st, a).streams[s].senders
  {
  }

  lemma HandledGrows(st: State, a: HandlerAction)
    requires HandlerEnabled(st, a)
    ensures |HandlerStep(st, a).streams| == |st.streams|
    ensures forall s | 0 <= s < |st.streams| :: st.streams[s].handled <= HandlerStep(st, a).streams[s].handled
  {
  }

  /** Calls are never forgotten, nor is what they send. */
  lemma {:induction false} RequestsGrow(mode: Mode, behaviour: Behaviour, schedule: seq<Action>, i: nat)
    requires i <= |schedule|
    ensures Exec(mode, behaviour, Init(), schedule[..i]).requests <= Exec(mode, behaviour, Init(), schedule).requests
  {
    if i == |schedule| {
      assert schedule[..i] == schedule;
    } else {
      var before := schedule[..|schedule| - 1];
      assert before[..i] == schedule[..i];
      RequestsGrow(mode, behaviour, before, i);
      RequestsGrowStep(mode, behaviour, Exec(mode, behaviour, Init(), before), schedule[|schedule| - 1]);
    }
  }

  lemma RequestsGrowStep(mode: Mode, behaviour: Behaviour, st: State, a: Action)
    ensures st.requests <= Step(mode, behaviour, st, a).requests
  {
    if Enabled(mode, behaviour, st, a) {
      Growth(mode, behaviour, st, a);
    }
  }

  // What the callers asked for.

  /** Step `i` of the schedule begins call `c`, asking for `methodName` with `payload`. */
  ghost predicate AskedAt(mode: Mode, behaviour: Behaviour, schedule: seq<Action>, i: nat, c: nat,
                          methodName: string, payload: Bytes) {
    && i < |schedule| && schedule[i] == OfCall(Allocate(methodName, payload))
    && |Exec(mode, behaviour, Init(), schedule[..i]).requests| == c
  }

  lemma AskedNow(mode: Mode, behaviour: Behaviour, schedule: seq<Action>, i: nat, c: nat, methodName: string,
                 payload: Bytes)
    requires AskedAt(mode, behaviour, schedule, i, c, methodName, payload)
    ensures Exec(mode, behaviour, Init(), schedule[..i + 1]).requests ==
            Exec(mode, behaviour, Init(), schedule[..i]).requests + [Request(c % U64_MODULUS, methodName, payload)]
  {
    assert schedule[..i + 1][..i] == schedule[..i];
    InvReached(mode, behaviour, schedule[..i]);
  }

  /** What call `c` sends, for as long as the client lives, is what its caller asked for,
      under id `c` modulo 2^64. */
  lemma AskedRequest(mode: Mode, behaviour: Behaviour, schedule: seq<Action>, i: nat, c: nat, methodName: string,
                     payload: Bytes)
    requires AskedAt(mode, behaviour, schedule, i, c, methodName, payload)
    ensures var st := Exec(mode, behaviour, Init(), schedule);
            && c < |st.requests| && st.requests[c].methodName == methodName && st.requests[c].payload == payload
            && st.requests[c].id == c % U64_MODULUS
  {
    AskedNow(mode, behaviour, schedule, i, c, methodName, payload);
    RequestsGrow(mode, behaviour, schedule, i + 1);
  }

  lemma AskedLonger(mode: Mode, behaviour: Behaviour, schedule: seq<Action>, a: Action, i: nat, c: nat,
                    methodName: string, payload: Bytes)
    requires AskedAt(mode, behaviour, schedule, i, c, methodName, payload)
    ensures AskedAt(mode, behaviour, schedule + [a], i, c, methodName, payload)
  {
    assert (schedule + [a])[..i] == schedule[..i];
  }

  lemma BegunByAllocate(mode: Mode, behaviour: Behaviour, st: State, a: Action)
    requires |st.requests| != |Step(mode, behaviour, st, a).requests|
    ensures a.OfCall? && a.call.Allocate? && |Step(mode, behaviour, st, a).requests| == |st.requests| + 1
  {
    match a
    case OfCall(x) =>
    case OfConnect(x) =>
    case OfHandler(x) =>
      if HandlerEnabled(st, x) {
        HandlerTouches(st, x);
      }
    case OfClose(x) =>
    case OfServer(x) =>
      if ServerEnabled(behaviour, st, x) {
        ServerTouches(behaviour, st, x);
      }
  }

  /** Every call there is was begun by one step of the run, and by no other. */
  lemma {:induction false} AskedSomewhere(mode: Mode, behaviour: Behaviour, schedule: seq<Action>, c: nat)
    returns (i: nat, methodName: string, payload: Bytes)
    requires c < |Exec(mode, behaviour, Init(), schedule).requests|
    ensures AskedAt(mode, behaviour, schedule, i, c, methodName, payload)
  {
    var before, a := schedule[..|schedule| - 1], schedule[|schedule| - 1];
    var st := Exec(mode, behaviour, Init(), before);
    if c < |st.requests| {
      i, methodName, payload := AskedSomewhere(mode, behaviour, before, c);
      AskedLonger(mode, behaviour, before, a, i, c, methodName, payload);
      assert before + [a] == schedule;
    } else {
      BegunByAllocate(mode, behaviour, st, a);
      i, methodName, payload := |before|, a.call.methodName, a.call.payload;
    }
  }

  lemma AskedOnce(mode: Mode, behaviour: Behaviour, schedule: seq<Action>, i: nat, j: nat, c: nat,
                  methodName: string, payload: Bytes, methodName': string, payload': Bytes)
    requires AskedAt(mode, behaviour, schedule, i, c, methodName, payload)
    requires AskedAt(mode, behaviour, schedule, j, c, methodName', payload')
    ensures i == j && methodName == methodName' && payload == payload'
  {
    if i < j {
      NotAskedAgain(mode, behaviour, schedule, i, j, c, methodName, payload);
    } else if j < i {
      NotAskedAgain(mode, behaviour, schedule, j, i, c, methodName', payload');
    }
  }

  lemma NotAskedAgain(mode: Mode, behaviour: Behaviour, schedule: seq<Action>, i: nat, j: nat, c: nat,
                      methodName: string, payload: Bytes)
    requires AskedAt(mode, behaviour, schedule, i, c, methodName, payload) && i < j <= |schedule|
    ensures c < |Exec(mode, behaviour, Init(), schedule[..j]).requests|
  {
    AskedNow(mode, behaviour, schedule, i, c, methodName, payload);
    assert schedule[..j][..i + 1] == schedule[..i + 1];
    RequestsGrow(mode, behaviour, schedule[..j], i + 1);
  }

  lemma CallBackedGrows(st: State, st': State, c: nat, call: Call)
    requires Grows(st, st') && CallBacked(st.requests, st.streams, c, call)
    ensures CallBacked(st'.requests, st'.streams, c, call)
  {
  }

  /** Sent values are left alone, and no call's result becomes a reply. */
  ghost predicate SameValues(st: State, st': State) {
    && |st'.calls| == |st.calls| && st'.requests == st.requests
    && (forall c | 0 <= c < |st.calls| ::
          && (st'.calls[c].sender == st.calls[c].sender || (!st.calls[c].sender.Sent? && !st'.calls[c].sender.Sent?))
          && (st'.calls[c].phase == st.calls[c].phase ||
              !st'.calls[c].phase.Finished?
                  || !(st'.calls[c].phase.outcome.Answer? || st'.calls[c].phase.outcome.RpcFailed?)))
    && |st.streams| <= |st'.streams|
    && (forall s | 0 <= s < |st.streams| :: st'.streams[s].handled == st.streams[s].handled)
    && |st.handlers| <= |st'.handlers|
    && (forall h | 0 <= h < |st'.handlers| ::
          (h < |st.handlers| && st'.handlers[h] == st.handlers[h])
              || (!st'.handlers[h].Decoding? && !st'.handlers[h].Completing?))
  }

  lemma OriginsFrame(st: State, st': State)
    requires Origins(st) && SameValues(st, st') && Grows(st, st')
    ensures Origins(st')
  {
    forall c | 0 <= c < |st'.calls|
      ensures CallBacked(st'.requests, st'.streams, c, st'.calls[c])
    {
      assert CallBacked(st.requests, st.streams, c, st.calls[c]);
    }
    forall h | 0 <= h < |st'.handlers|
      ensures HandlerBacked(st'.requests, st'.streams, st'.handlers[h])
    {
      if h < |st.handlers| && st'.handlers[h] == st.handlers[h] {
        assert HandlerBacked(st.requests, st.streams, st.handlers[h]);
      }
    }
  }

  lemma OriginsAllocate(mode: Mode, st: State, a: CallAction)
    requires a.Allocate? && Origins(st) && CallEnabled(mode, st, a)
    ensures Origins(CallStep(mode, st, a))
  {
    var st' := CallStep(mode, st, a);
    forall c | 0 <= c < |st.calls|
      ensures CallBacked(st'.requests, st'.streams, c, st'.calls[c])
    {
      CallBackedGrows(st, st', c, st.calls[c]);
    }
  }

  lemma OriginsObserve(mode: Mode, st: State, a: CallAction)
    requires a.Observe? && Origins(st) && CallEnabled(mode, st, a)
    ensures Origins(CallStep(mode, st, a))
  {
    assert CallBacked(st.requests, st.streams, a.call, st.calls[a.call]);
  }

  lemma OriginsRegister(st: State, c: nat)
    requires Origins(st) && Books(st) && CallIn(st, c, Allocated)
    ensures Origins(Insert(st, c))
  {
    OriginsFrame(st, Insert(st, c));
  }

  lemma OriginsCall(mode: Mode, st: State, a: CallAction)
    requires Origins(st) && Books(st) && CallEnabled(mode, st, a)
    ensures Origins(CallStep(mode, st, a))
  {
    if a.Allocate? {
      OriginsAllocate(mode, st, a);
    } else if a.Observe? {
      OriginsObserve(mode, st, a);
    } else if a.Register? {
      OriginsRegister(st, a.call);
    } else {
      CallTouches(mode, st, a);
      SendersGrow(mode, st, a);
      OriginsFrame(st, CallStep(mode, st, a));
    }
  }

  lemma OriginsReceive(st: State, h: nat)
    requires Origins(st) && Places(st) && HandlerEnabled(st, Receive(h))
    ensures Origins(HandlerStep(st, Receive(h)))
  {
    var st' := HandlerStep(st, Receive(h));
    forall c | 0 <= c < |st.calls|
      ensures CallBacked(st'.requests, st'.streams, c, st'.calls[c])
    {
      CallBackedGrows(st, st', c, st.calls[c]);
    }
    forall g | 0 <= g < |st.handlers| && g != h
      ensures HandlerBacked(st'.requests, st'.streams, st'.handlers[g])
    {
      assert HandlerBacked(st.requests, st.streams, st.handlers[g]);
      assert HeldStream(st.handlers[g]) != HeldStream(st.handlers[h]);
    }
  }

  lemma OriginsRemove(st: State, h: nat)
    requires Origins(st) && Books(st) && HandlerEnabled(st, RemovePending(h))
    ensures Origins(HandlerStep(st, RemovePending(h)))
  {
    var st' := HandlerStep(st, RemovePending(h));
    assert HandlerBacked(st.requests, st.streams, st.handlers[h]);
    forall c | 0 <= c < |st.calls|
      ensures CallBacked(st'.requests, st'.streams, c, st'.calls[c])
    {
      assert CallBacked(st.requests, st.streams, c, st.calls[c]);
    }
  }

  lemma OriginsComplete(st: State, h: nat)
    requires Origins(st) && Books(st) && HandlerEnabled(st, Complete(h))
    ensures Origins(HandlerStep(st, Complete(h)))
  {
    var st' := HandlerStep(st, Complete(h));
    assert HandlerBacked(st.requests, st.streams, st.handlers[h]);
    forall c | 0 <= c < |st.calls|
      ensures CallBacked(st'.requests, st'.streams, c, st'.calls[c])
    {
      assert CallBacked(st.requests, st.streams, c, st.calls[c]);
    }
  }

  lemma OriginsHandler(st: State, a: HandlerAction)
    requires Origins(st) && Books(st) && Places(st) && HandlerEnabled(st, a)
    ensures Origins(HandlerStep(st, a))
  {
    match a
    case Receive(h) => OriginsReceive(st, h);
    case RemovePending(h) => OriginsRemove(st, h);
    case Complete(h) => OriginsComplete(st, h);
    case _ => OriginsMoved(st, a);
  }

  lemma OriginsMoved(st: State, a: HandlerAction)
    requires Origins(st) && HandlerEnabled(st, a) && !a.Receive? && !a.RemovePending? && !a.Complete?
    ensures Origins(HandlerStep(st, a))
  {
    OriginsFrame(st, HandlerStep(st, a));
  }

  lemma OriginsDrain(st: State)
    requires Origins(st) && Books(st) && CloseEnabled(st, Drain)
    ensures Origins(CloseStep(st, Drain))
  {
    var st' := CloseStep(st, Drain);
    forall c | 0 <= c < |st.calls|
      ensures CallBacked(st'.requests, st'.streams, c, st'.calls[c])
    {
      assert CallBacked(st.requests, st.streams, c, st.calls[c]);
      DrainedArePending(st, c);
    }
  }

  lemma OriginsClose(st: State, a: CloseAction)
    requires Origins(st) && Books(st) && CloseEnabled(st, a)
    ensures Origins(CloseStep(st, a))
  {
    if a.Drain? {
      OriginsDrain(st);
    } else {
      OriginsFrame(st, CloseStep(st, a));
    }
  }

  lemma OriginsKept(mode: Mode, behaviour: Behaviour, st: State, a: Action)
    requires Origins(st) && Books(st) && Places(st) && Enabled(mode, behaviour, st, a)
    ensures Origins(Apply(mode, behaviour, st, a))
  {
    match a
    case OfCall(x) => OriginsCall(mode, st, x);
    case OfConnect(x) =>
      ConnectTouches(st, x);
      OriginsFrame(st, ConnectStep(st, x));
    case OfHandler(x) => OriginsHandler(st, x);
    case OfClose(x) => OriginsClose(st, x);
    case OfServer(x) =>
      ServerTouches(behaviour, st, x);
      OriginsFrame(st, ServerStep(behaviour, st, x));
  }

  lemma {:induction false} OriginsReached(mode: Mode, behaviour: Behaviour, schedule: seq<Action>)
    ensures Origins(Exec(mode, behaviour, Init(), schedule))
  {
    if schedule != [] {
      var before := schedule[..|schedule| - 1];
      OriginsReached(mode, behaviour, before);
      InvReached(mode, behaviour, before);
      if Enabled(mode, behaviour, Exec(mode, behaviour, Init(), before), schedule[|schedule| - 1]) {
        OriginsKept(mode, behaviour, Exec(mode, behaviour, Init(), before), schedule[|schedule| - 1]);
      }
    }
  }

  /** The reply or remote failure a caller returns is what the server answered, under a
      registry that once was current, to the request of a call with the same id. */
  lemma RepliesAreAnswers(mode: Mode, behaviour: Behaviour, schedule: seq<Action>, c: nat)
    requires var st := Exec(mode, behaviour, Init(), schedule);
             c < |st.calls| && st.calls[c].phase.Finished?
             && (st.calls[c].phase.outcome.Answer? || st.calls[c].phase.outcome.RpcFailed?)
    ensures var st := Exec(mode, behaviour, Init(), schedule);
            exists d: nat, v: nat ::
              && d < |st.requests| && d % U64_MODULUS == c % U64_MODULUS && v < |st.registries|
              && PossibleOutcome(behaviour, st.registries[v], st.requests[d], st.calls[c].phase.outcome)
  {
    var st := Exec(mode, behaviour, Init(), schedule);
    OriginsReached(mode, behaviour, schedule);
    InvReached(mode, behaviour, schedule);
    assert CallBacked(st.requests, st.streams, c, st.calls[c]);
    var origin := st.calls[c].sender.origin.value;
    BackedIsAnswer(behaviour, st, origin.stream, origin.index, c, st.calls[c].sender.value);
  }

  /** A handled response is a possible outcome of the request at the same position. */
  lemma BackedIsAnswer(behaviour: Behaviour, st: State, s: nat, k: nat, c: nat, value: Outcome)
    requires Inv(behaviour, st) && Backed(st.requests, st.streams, s, k, c, value)
    ensures k < |st.streams[s].senders| && k < |st.streams[s].answers|
    ensures var d := st.streams[s].senders[k];
            var v := st.streams[s].answers[k].version;
            && d < |st.requests| && st.requests[d].id == st.requests[c].id && v < |st.registries|
            && PossibleOutcome(behaviour, st.registries[v], st.requests[d], value)
  {
    var stream := st.streams[s];
    assert StreamOk(behaviour, st.requests, st.registries, stream);
    assert AnswerOk(behaviour, st.registries, st.requests[stream.senders[k]], stream.answers[k], Responses(stream)[k]);
    assert Responses(stream)[k] == stream.handled[k];
    RespondWellFormed(st.registries[stream.answers[k].version], st.requests[stream.senders[k]],
        stream.answers[k].result);
  }
}
