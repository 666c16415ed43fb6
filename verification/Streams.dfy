/** What holds of streams over whole runs: who owns them, what they carry, and how the
    literal sending rule relates to full-duplex sending. */
module Streams {
  import opened Rpc
  import opened Dispatch
  import opened Protocol
  import opened Invariants

  // Ownership.

  /** Stream `s` is found at `place`: held by that connect task, in the slot, held by that
      handler, or held by nobody. */
  ghost predicate FoundAt(st: State, s: nat, place: Place) {
    match place
    case Connecting(n) => n < |st.connectors| && OpenStream(st.connectors[n]) == Some(s)
    case InSlot => st.slot == Some(s)
    case HeldBy(h) => h < |st.handlers| && HeldStream(st.handlers[h]) == Some(s)
    case Gone =>
      && st.slot != Some(s)
      && (forall n | 0 <= n < |st.connectors| :: OpenStream(st.connectors[n]) != Some(s))
      && (forall h | 0 <= h < |st.handlers| :: HeldStream(st.handlers[h]) != Some(s))
  }

  /** Through every connect, take, put-back, close and overwritten slot, each opened stream
      is found at exactly one place, and no task holds a stream that was never opened. */
  lemma ExactlyOnePlace(mode: Mode, behaviour: Behaviour, schedule: seq<Action>, s: nat)
    ensures var st := Exec(mode, behaviour, Init(), schedule);
            if s < |st.streams| then forall place :: FoundAt(st, s, place) <==> place == st.streams[s].place
            else FoundAt(st, s, Gone)
  {
    InvReached(mode, behaviour, schedule);
    var st := Exec(mode, behaviour, Init(), schedule);
    if s < |st.streams| {
      forall place
        ensures FoundAt(st, s, place) <==> place == st.streams[s].place
      {
        PlaceFound(st, s, place);
      }
    }
  }

  lemma PlaceFound(st: State, s: nat, place: Place)
    requires Places(st) && s < |st.streams|
    ensures FoundAt(st, s, place) <==> place == st.streams[s].place
  {
    match place
    case Connecting(n) =>
    case InSlot =>
    case HeldBy(h) =>
    case Gone =>
      if st.streams[s].place.Connecting? {
        assert OpenStream(st.connectors[st.streams[s].place.connector]) == Some(s);
      } else if st.streams[s].place.HeldBy? {
        assert HeldStream(st.handlers[st.streams[s].place.handler]) == Some(s);
      }
  }

  predicate Writes(a: Action, s: nat) {
    a.OfCall? && (a.call.Send? || a.call.BreakSend?) && a.call.stream == s
  }

  /** As the code stands, a call never writes to a stream that a handler or a connect task
      holds. */
  lemma WritesExcludeHolders(behaviour: Behaviour, schedule: seq<Action>, a: Action, s: nat)
    requires Writes(a, s) && Enabled(Literal, behaviour, Exec(Literal, behaviour, Init(), schedule), a)
    ensures var st := Exec(Literal, behaviour, Init(), schedule);
            && (forall h | 0 <= h < |st.handlers| :: HeldStream(st.handlers[h]) != Some(s))
            && (forall n | 0 <= n < |st.connectors| :: OpenStream(st.connectors[n]) != Some(s))
  {
    InvReached(Literal, behaviour, schedule);
  }

  lemma SendersByWrite(mode: Mode, behaviour: Behaviour, st: State, a: Action, s: nat)
    requires s < |st.streams| && (Writes(a, s) ==> !Enabled(mode, behaviour, st, a))
    ensures s < |Step(mode, behaviour, st, a).streams|
    ensures Step(mode, behaviour, st, a).streams[s].senders == st.streams[s].senders
  {
    if Enabled(mode, behaviour, st, a) {
      match a
      case OfCall(x) =>
      case OfConnect(x) => ConnectTouches(st, x);
      case OfHandler(x) => HandlerTouches(st, x);
      case OfClose(x) => CloseTouches(st, x);
      case OfServer(x) => ServerTouches(behaviour, st, x);
    }
  }

  predicate Holding(st: State, h: nat, s: nat) {
    h < |st.handlers| && HeldStream(st.handlers[h]) == Some(s)
  }

  ghost predicate HeldThroughout(behaviour: Behaviour, schedule: seq<Action>, more: seq<Action>, h: nat, s: nat) {
    forall i | 0 <= i <= |more| :: Holding(Exec(Literal, behaviour, Init(), schedule + more[..i]), h, s)
  }

  lemma SilentStep(behaviour: Behaviour, st: State, a: Action, h: nat, s: nat)
    requires Places(st) && Holding(st, h, s)
    ensures var st' := Step(Literal, behaviour, st, a);
            s < |st.streams| && s < |st'.streams| && st'.streams[s].senders == st.streams[s].senders
  {
    assert !(Writes(a, s) && Enabled(Literal, behaviour, st, a));
    SendersByWrite(Literal, behaviour, st, a, s);
  }

  lemma HeldBefore(behaviour: Behaviour, schedule: seq<Action>, more: seq<Action>, h: nat, s: nat)
    requires more != [] && HeldThroughout(behaviour, schedule, more, h, s)
    ensures HeldThroughout(behaviour, schedule, more[..|more| - 1], h, s)
    ensures Holding(Exec(Literal, behaviour, Init(), schedule + more[..|more| - 1]), h, s)
  {
    var shorter := more[..|more| - 1];
    forall i | 0 <= i <= |shorter|
      ensures Holding(Exec(Literal, behaviour, Init(), schedule + shorter[..i]), h, s)
    {
      assert shorter[..i] == more[..i];
    }
  }

  /** As the code stands, nothing is written to a stream from the moment a response handler
      takes it until it puts it back. */
  lemma {:induction false} SilentWhileHeld(behaviour: Behaviour, schedule: seq<Action>, more: seq<Action>,
                                           h: nat, s: nat)
    requires HeldThroughout(behaviour, schedule, more, h, s)
    ensures var st := Exec(Literal, behaviour, Init(), schedule);
            var later := Exec(Literal, behaviour, Init(), schedule + more);
            s < |st.streams| && s < |later.streams| && later.streams[s].senders == st.streams[s].senders
  {
    if more == [] {
      assert schedule + more == schedule && schedule + more[..0] == schedule;
      InvReached(Literal, behaviour, schedule);
    } else {
      var shorter := more[..|more| - 1];
      var before := schedule + shorter;
      assert (schedule + more)[..|schedule + more| - 1] == before;
      HeldBefore(behaviour, schedule, more, h, s);
      SilentWhileHeld(behaviour, schedule, shorter, h, s);
      InvReached(Literal, behaviour, before);
      SilentStep(behaviour, Exec(Literal, behaviour, Init(), before), more[|more| - 1], h, s);
    }
  }

  /** As the code stands, a registered call that finds the slot empty can write nowhere; it
      returns `ConnectionClosed` and leaves its entry in the pending map. */
  lemma RefusedWhenSlotEmpty(behaviour: Behaviour, schedule: seq<Action>, c: nat)
    requires var st := Exec(Literal, behaviour, Init(), schedule);
             CallIn(st, c, Registered) && st.slot == None && SlotFree(st)
    ensures var st := Exec(Literal, behaviour, Init(), schedule);
            var after := Exec(Literal, behaviour, Init(), schedule + [OfCall(RefuseSend(c))]);
            && (forall s: nat :: !Enabled(Literal, behaviour, st, OfCall(Send(c, s))))
            && (forall s: nat, arrived: bool :: !Enabled(Literal, behaviour, st, OfCall(BreakSend(c, s, arrived))))
            && c < |after.calls| && after.calls[c].phase == Finished(ConnectionClosed)
            && after.pending == st.pending && after.streams == st.streams
  {
    var refused := schedule + [OfCall(RefuseSend(c))];
    assert refused[..|refused| - 1] == schedule;
    assert forall s: nat :: !CanSend(Literal, Exec(Literal, behaviour, Init(), schedule), s);
  }

  // The literal system is a restriction of the full-duplex one.

  lemma LiteralStep(behaviour: Behaviour, st: State, a: Action)
    requires Places(st) && Enabled(Literal, behaviour, st, a)
    ensures Enabled(Duplex, behaviour, st, a) && Apply(Duplex, behaviour, st, a) == Apply(Literal, behaviour, st, a)
  {
  }

  /** Every state the code can reach, the full-duplex protocol reaches too. */
  lemma {:induction false} LiteralRefinesDuplex(behaviour: Behaviour, schedule: seq<Action>)
    ensures exists wide: seq<Action> ::
        Exec(Duplex, behaviour, Init(), wide) == Exec(Literal, behaviour, Init(), schedule)
  {
    if schedule == [] {
      assert Exec(Duplex, behaviour, Init(), []) == Exec(Literal, behaviour, Init(), schedule);
    } else {
      var before := schedule[..|schedule| - 1];
      var a := schedule[|schedule| - 1];
      LiteralRefinesDuplex(behaviour, before);
      var wide: seq<Action> :| Exec(Duplex, behaviour, Init(), wide) == Exec(Literal, behaviour, Init(), before);
      var st := Exec(Literal, behaviour, Init(), before);
      if Enabled(Literal, behaviour, st, a) {
        InvReached(Literal, behaviour, before);
        LiteralStep(behaviour, st, a);
        assert (wide + [a])[..|wide + [a]| - 1] == wide;
        assert Exec(Duplex, behaviour, Init(), wide + [a]) == Exec(Literal, behaviour, Init(), schedule);
      }
    }
  }

  // Order and conservation.

  function RequestIds(requests: seq<Request>): (ids: seq<u64>)
    ensures |ids| == |requests| && forall i | 0 <= i < |ids| :: ids[i] == requests[i].id
  {
    seq(|requests|, i requires 0 <= i < |requests| => requests[i].id)
  }

  function ResponseIds(responses: seq<Response>): (ids: seq<u64>)
    ensures |ids| == |responses| && forall i | 0 <= i < |ids| :: ids[i] == responses[i].id
  {
    seq(|responses|, i requires 0 <= i < |responses| => responses[i].id)
  }

  /** What has been written to a stream so far, in order. */
  function Written(requests: seq<Request>, stream: Stream): (written: seq<Request>)
    requires forall k | 0 <= k < |stream.senders| :: stream.senders[k] < |requests|
    ensures |written| == |stream.senders|
    ensures forall k | 0 <= k < |written| :: written[k] == requests[stream.senders[k]]
  {
    seq(|stream.senders|, k requires 0 <= k < |stream.senders| => requests[stream.senders[k]])
  }

  /** On every stream, in every state, also after the session has ended: the ids written are,
      in order, those of the handled responses, of the queued responses, of the request the
      server holds, and of the queued requests; and the requests past the answered ones are
      still there unchanged. */
  lemma Fifo(mode: Mode, behaviour: Behaviour, schedule: seq<Action>, s: nat)
    requires s < |Exec(mode, behaviour, Init(), schedule).streams|
    ensures var st := Exec(mode, behaviour, Init(), schedule);
            var stream := st.streams[s];
            && (forall k | 0 <= k < |stream.senders| :: stream.senders[k] < |st.requests|)
            && RequestIds(Written(st.requests, stream)) ==
               ResponseIds(stream.handled) + ResponseIds(stream.responseQueue)
               + RequestIds(Unanswered(stream.serving)) + RequestIds(stream.requestQueue)
            && |stream.answers| <= |stream.senders|
            && Written(st.requests, stream)[|stream.answers|..] == Unanswered(stream.serving) + stream.requestQueue
  {
    InvReached(mode, behaviour, schedule);
    var st := Exec(mode, behaviour, Init(), schedule);
    assert StreamOk(behaviour, st.requests, st.registries, st.streams[s]);
    FifoStream(behaviour, st.requests, st.registries, st.streams[s]);
  }

  lemma FifoStream(behaviour: Behaviour, requests: seq<Request>, registries: seq<Registry>, stream: Stream)
    requires StreamOk(behaviour, requests, registries, stream)
    ensures RequestIds(Written(requests, stream)) ==
            ResponseIds(stream.handled) + ResponseIds(stream.responseQueue)
            + RequestIds(Unanswered(stream.serving)) + RequestIds(stream.requestQueue)
    ensures |stream.answers| <= |stream.senders|
    ensures Written(requests, stream)[|stream.answers|..] == Unanswered(stream.serving) + stream.requestQueue
  {
    var written := Written(requests, stream);
    var answered := ResponseIds(stream.handled) + ResponseIds(stream.responseQueue);
    assert written[|stream.answers|..] == Unanswered(stream.serving) + stream.requestQueue;
    forall k | 0 <= k < |stream.answers|
      ensures answered[k] == written[k].id
    {
      AnsweredId(behaviour, requests, registries, stream, k);
    }
    IdsSplit(written, answered, Unanswered(stream.serving), stream.requestQueue);
  }

  lemma AnsweredId(behaviour: Behaviour, requests: seq<Request>, registries: seq<Registry>, stream: Stream, k: nat)
    requires StreamOk(behaviour, requests, registries, stream) && k < |stream.answers|
    ensures |stream.handled| + |stream.responseQueue| == |stream.answers| <= |stream.senders|
    ensures stream.senders[k] < |requests|
    ensures (ResponseIds(stream.handled) + ResponseIds(stream.responseQueue))[k] == requests[stream.senders[k]].id
  {
    assert (ResponseIds(stream.handled) + ResponseIds(stream.responseQueue))[k] == Responses(stream)[k].id;
    assert AnswerOk(behaviour, registries, requests[stream.senders[k]], stream.answers[k], Responses(stream)[k]);
    RespondWellFormed(registries[stream.answers[k].version], requests[stream.senders[k]], stream.answers[k].result);
  }

  lemma IdsSplit(written: seq<Request>, answered: seq<u64>, held: seq<Request>, queued: seq<Request>)
    requires |answered| <= |written| && written[|answered|..] == held + queued
    requires forall k | 0 <= k < |answered| :: answered[k] == written[k].id
    ensures RequestIds(written) == answered + RequestIds(held) + RequestIds(queued)
  {
    forall k | |answered| <= k < |written|
      ensures (RequestIds(held) + RequestIds(queued))[k - |answered|] == written[k].id
    {
      assert written[k] == (held + queued)[k - |answered|];
    }
  }

  // An aborted session.

  lemma StoppedStep(mode: Mode, behaviour: Behaviour, st: State, a: Action, s: nat)
    requires s < |st.streams| && st.streams[s].serving.Stopped?
    ensures var st' := Step(mode, behaviour, st, a);
            && s < |st'.streams| && st'.streams[s].serving == st.streams[s].serving
            && st'.streams[s].answers == st.streams[s].answers && Responses(st'.streams[s]) == Responses(st.streams[s])
  {
    if Enabled(mode, behaviour, st, a) {
      match a
      case OfCall(x) => CallTouches(mode, st, x);
      case OfConnect(x) => ConnectTouches(st, x);
      case OfHandler(x) => StoppedHandler(st, x, s);
      case OfClose(x) => CloseTouches(st, x);
      case OfServer(x) =>
    }
  }

  lemma StoppedHandler(st: State, a: HandlerAction, s: nat)
    requires HandlerEnabled(st, a) && s < |st.streams|
    ensures s < |HandlerStep(st, a).streams| && HandlerStep(st, a).streams[s].serving == st.streams[s].serving
    ensures HandlerStep(st, a).streams[s].answers == st.streams[s].answers
    ensures Responses(HandlerStep(st, a).streams[s]) == Responses(st.streams[s])
  {
    HandlerTouches(st, a);
    if a.Receive? && st.handlers[a.handler].stream == s {
      assert Responses(Dequeue(st.streams[s])) == Responses(st.streams[s]);
    }
  }

  /** Once a session has ended - end of stream, a failed read, write or decode - nothing more
      is ever answered on its stream: the responses stay those to a prefix of the requests. */
  lemma {:induction false} AbortedForGood(mode: Mode, behaviour: Behaviour, schedule: seq<Action>,
                                          more: seq<Action>, s: nat)
    requires var st := Exec(mode, behaviour, Init(), schedule); s < |st.streams| && st.streams[s].serving.Stopped?
    ensures var st := Exec(mode, behaviour, Init(), schedule);
            var later := Exec(mode, behaviour, Init(), schedule + more);
            && s < |later.streams| && later.streams[s].serving == st.streams[s].serving
            && later.streams[s].answers == st.streams[s].answers
            && Responses(later.streams[s]) == Responses(st.streams[s])
            && |st.streams[s].answers| <= |later.streams[s].senders|
  {
    InvReached(mode, behaviour, schedule + more);
    if more == [] {
      assert schedule + more == schedule;
    } else {
      var before := schedule + more[..|more| - 1];
      assert (schedule + more)[..|schedule + more| - 1] == before;
      AbortedForGood(mode, behaviour, schedule, more[..|more| - 1], s);
      StoppedStep(mode, behaviour, Exec(mode, behaviour, Init(), before), more[|more| - 1], s);
    }
    var st := Exec(mode, behaviour, Init(), schedule + more);
    assert StreamOk(behaviour, st.requests, st.registries, st.streams[s]);
  }

  // A request is written at most once.

  predicate PastSending(calls: seq<Call>, c: nat) {
    c < |calls| && calls[c].phase != Allocated && calls[c].phase != Registered
  }

  /** No call has written twice. */
  ghost predicate Apart(streams: seq<Stream>) {
    forall s, k, t, l | 0 <= s < |streams| && 0 <= k < |streams[s].senders|
                        && 0 <= t < |streams| && 0 <= l < |streams[t].senders| ::
      streams[s].senders[k] == streams[t].senders[l] ==> s == t && k == l
  }

  ghost predicate WrittenOnce(st: State) {
    && (forall s, k | 0 <= s < |st.streams| && 0 <= k < |st.streams[s].senders| ::
          PastSending(st.calls, st.streams[s].senders[k]))
    && Apart(st.streams)
  }

  /** Past sending, a call does not come back to it. */
  ghost predicate Progress(st: State, st': State) {
    && |st.calls| <= |st'.calls|
    && forall c | 0 <= c < |st.calls| && PastSending(st.calls, c) :: PastSending(st'.calls, c)
  }

  ghost predicate SameWritten(st: State, st': State) {
    && |st.streams| <= |st'.streams|
    && (forall s | 0 <= s < |st.streams| :: st'.streams[s].senders == st.streams[s].senders)
    && (forall s | |st.streams| <= s < |st'.streams| :: st'.streams[s].senders == [])
  }

  lemma WrittenFrame(st: State, st': State)
    requires WrittenOnce(st) && Progress(st, st') && SameWritten(st, st')
    ensures WrittenOnce(st')
  {
  }

  lemma WrittenSend(mode: Mode, st: State, a: CallAction)
    requires a.Send? || (a.BreakSend? && a.arrived)
    requires WrittenOnce(st) && CallEnabled(mode, st, a)
    ensures WrittenOnce(CallStep(mode, st, a))
  {
    ProgressCall(mode, st, a);
    ApartEnqueue(st.streams, a.stream, a.call, st.requests[a.call]);
    assert PastSending(CallStep(mode, st, a).calls, a.call);
  }

  lemma ApartEnqueue(streams: seq<Stream>, s: nat, c: nat, request: Request)
    requires Apart(streams) && s < |streams|
    requires forall t, k | 0 <= t < |streams| && 0 <= k < |streams[t].senders| :: streams[t].senders[k] != c
    ensures Apart(streams[s := Enqueue(streams[s], c, request)])
  {
  }

  lemma WrittenCall(mode: Mode, st: State, a: CallAction)
    requires WrittenOnce(st) && CallEnabled(mode, st, a)
    ensures WrittenOnce(CallStep(mode, st, a))
  {
    if a.Send? || (a.BreakSend? && a.arrived) {
      WrittenSend(mode, st, a);
    } else {
      ProgressCall(mode, st, a);
      WrittenFrame(st, CallStep(mode, st, a));
    }
  }

  lemma ProgressCall(mode: Mode, st: State, a: CallAction)
    requires CallEnabled(mode, st, a)
    ensures Progress(st, CallStep(mode, st, a))
  {
  }

  lemma WrittenKept(mode: Mode, behaviour: Behaviour, st: State, a: Action)
    requires WrittenOnce(st) && Enabled(mode, behaviour, st, a)
    ensures WrittenOnce(Apply(mode, behaviour, st, a))
  {
    var st' := Apply(mode, behaviour, st, a);
    match a
    case OfCall(x) => WrittenCall(mode, st, x);
    case OfConnect(x) =>
      ConnectTouches(st, x);
      WrittenFrame(st, st');
    case OfHandler(x) =>
      HandlerTouches(st, x);
      WrittenFrame(st, st');
    case OfClose(x) =>
      CloseTouches(st, x);
      WrittenFrame(st, st');
    case OfServer(x) =>
      ServerTouches(behaviour, st, x);
      WrittenFrame(st, st');
  }

  lemma {:induction false} WrittenReached(mode: Mode, behaviour: Behaviour, schedule: seq<Action>)
    ensures WrittenOnce(Exec(mode, behaviour, Init(), schedule))
  {
    if schedule != [] {
      var before := schedule[..|schedule| - 1];
      WrittenReached(mode, behaviour, before);
      var st := Exec(mode, behaviour, Init(), before);
      if Enabled(mode, behaviour, st, schedule[|schedule| - 1]) {
        WrittenKept(mode, behaviour, st, schedule[|schedule| - 1]);
      }
    }
  }

  /** No call is answered twice, on one stream or on two: the requests behind any two
      different answers are those of different calls. */
  lemma AnsweredAtMostOnce(mode: Mode, behaviour: Behaviour, schedule: seq<Action>, s: nat, k: nat, t: nat, l: nat)
    requires var st := Exec(mode, behaviour, Init(), schedule);
             s < |st.streams| && k < |st.streams[s].answers| && t < |st.streams| && l < |st.streams[t].answers|
    requires (s, k) != (t, l)
    ensures var st := Exec(mode, behaviour, Init(), schedule);
            && k < |st.streams[s].senders| && l < |st.streams[t].senders|
            && st.streams[s].senders[k] != st.streams[t].senders[l]
  {
    InvReached(mode, behaviour, schedule);
    WrittenReached(mode, behaviour, schedule);
    var st := Exec(mode, behaviour, Init(), schedule);
    assert StreamOk(behaviour, st.requests, st.registries, st.streams[s]);
    assert StreamOk(behaviour, st.requests, st.registries, st.streams[t]);
  }
}
