/** Exact correlation: as long as the calls still in play span at most 2^64 ids, nobody
    ever gets another call's response. */
module Delivery {
  import opened Rpc
  import opened Dispatch
  import opened Protocol
  import opened Invariants
  import opened Correlation

  /** The response at position `k` of a stream may still be handled. */
  predicate Awaits(stream: Stream, k: int) {
    && stream.place != Gone
    && |stream.handled| <= k < |stream.senders|
    && (stream.serving.Stopped? ==> k < |stream.answers|)
  }

  predicate AwaitedAt(st: State, s: nat, k: int, c: nat) {
    s < |st.streams| && Awaits(st.streams[s], k) && st.streams[s].senders[k] == c
  }

  /** Handler `h` has read the response to call `c` and not yet looked it up. */
  predicate DecodingFor(st: State, h: nat, c: nat) {
    && h < |st.handlers| && st.handlers[h].Decoding?
    && var s := st.handlers[h].stream;
       && s < |st.streams| && 0 < |st.streams[s].handled| <= |st.streams[s].senders|
       && st.streams[s].senders[|st.streams[s].handled| - 1] == c
  }

  /** Call `c` is registered and about to send, or its response may still be looked up. */
  ghost predicate InFlight(st: State, c: nat) {
    || (c < |st.calls| && st.calls[c].phase == Registered)
    || (exists s: nat, k: int :: AwaitedAt(st, s, k, c))
    || (exists h: nat :: DecodingFor(st, h, c))
  }

  ghost predicate Live(st: State, c: nat) {
    (c < |st.calls| && st.calls[c].phase == Allocated) || InFlight(st, c)
  }

  /** The calls still in play were given their ids within the last 2^64 allocations. */
  ghost predicate Window(st: State) {
    forall c: nat | Live(st, c) :: |st.requests| - c <= U64_MODULUS
  }

  ghost predicate OwnEntry(st: State, c: nat) {
    c < |st.requests| && (st.requests[c].id in st.pending ==> st.pending[st.requests[c].id] == c)
  }

  /** The value is the response to the very request of call `c`. */
  predicate OwnPosition(streams: seq<Stream>, s: nat, k: int, c: nat) {
    s < |streams| && 0 <= k < |streams[s].senders| && streams[s].senders[k] == c
  }

  ghost predicate EntriesOwn(st: State) {
    forall c: nat | InFlight(st, c) :: OwnEntry(st, c)
  }

  /** A handler about to send a value holds the sender of the call that value answers. */
  predicate HandOwn(st: State, h: nat) {
    && h < |st.handlers|
    && (st.handlers[h].Completing? ==>
          var s := st.handlers[h].stream;
          s < |st.streams| && OwnPosition(st.streams, s, |st.streams[s].handled| - 1, st.handlers[h].call))
  }

  ghost predicate HandsOwn(st: State) {
    forall h | 0 <= h < |st.handlers| :: HandOwn(st, h)
  }

  ghost predicate ValuesOwn(st: State) {
    forall c | 0 <= c < |st.calls| && st.calls[c].sender.Sent? && st.calls[c].sender.origin.Some? ::
      OwnPosition(st.streams, st.calls[c].sender.origin.value.stream, st.calls[c].sender.origin.value.index, c)
  }

  // A call comes into play only by registering.

  lemma AwaitedCall(mode: Mode, behaviour: Behaviour, st: State, a: CallAction, s: nat, k: int, c: nat)
    requires Conserved(behaviour, st) && CallEnabled(mode, st, a)
    requires AwaitedAt(CallStep(mode, st, a), s, k, c)
    ensures AwaitedAt(st, s, k, c) || (c < |st.calls| && st.calls[c].phase == Registered)
  {
    CallTouches(mode, st, a);
    assert StreamOk(behaviour, st.requests, st.registries, st.streams[s]);
  }

  lemma AwaitedConnect(st: State, a: ConnectAction, s: nat, k: int, c: nat)
    requires Places(st) && ConnectEnabled(st, a)
    requires AwaitedAt(ConnectStep(st, a), s, k, c)
    ensures AwaitedAt(st, s, k, c)
  {
    ConnectTouches(st, a);
    if a.StoreStream? {
      assert OpenStream(st.connectors[a.connector]) == Some(st.connectors[a.connector].stream);
    }
  }

  lemma AwaitedHandler(st: State, a: HandlerAction, s: nat, k: int, c: nat)
    requires Places(st) && HandlerEnabled(st, a)
    requires AwaitedAt(HandlerStep(st, a), s, k, c)
    ensures AwaitedAt(st, s, k, c)
  {
    HandlerTouches(st, a);
    HandledGrows(st, a);
    if a.PutBack? {
      assert HeldStream(st.handlers[a.handler]) == Some(st.handlers[a.handler].stream);
    }
  }

  lemma AwaitedServer(behaviour: Behaviour, st: State, a: ServerAction, s: nat, k: int, c: nat)
    requires ServerEnabled(behaviour, st, a)
    requires AwaitedAt(ServerStep(behaviour, st, a), s, k, c)
    ensures AwaitedAt(st, s, k, c)
  {
    ServerTouches(behaviour, st, a);
  }

  lemma AwaitedShrinks(mode: Mode, behaviour: Behaviour, st: State, a: Action, s: nat, k: int, c: nat)
    requires Inv(behaviour, st) && Enabled(mode, behaviour, st, a)
    requires AwaitedAt(Apply(mode, behaviour, st, a), s, k, c)
    ensures AwaitedAt(st, s, k, c) || (c < |st.calls| && st.calls[c].phase == Registered)
  {
    match a
    case OfCall(x) => AwaitedCall(mode, behaviour, st, x, s, k, c);
    case OfConnect(x) => AwaitedConnect(st, x, s, k, c);
    case OfHandler(x) => AwaitedHandler(st, x, s, k, c);
    case OfClose(x) => CloseTouches(st, x);
    case OfServer(x) => AwaitedServer(behaviour, st, x, s, k, c);
  }

  /** Handler `h` and what it has read are as before. */
  ghost predicate HandlerSame(st: State, st': State, h: nat) {
    && h < |st.handlers| && h < |st'.handlers| && st'.handlers[h] == st.handlers[h]
    && HeldStream(st.handlers[h]).Some?
    && var s := HeldStream(st.handlers[h]).value;
       s < |st.streams| && s < |st'.streams| && st'.streams[s].handled == st.streams[s].handled
  }

  lemma HandlerStaysWithin(st: State, a: HandlerAction, h: nat)
    requires Places(st) && HandlerEnabled(st, a) && h < |st.handlers|
    requires var handler := HandlerStep(st, a).handlers[h]; handler.Decoding? || handler.Completing?
    requires HandlerStep(st, a).handlers[h].Decoding? ==> a != Receive(h)
    requires HandlerStep(st, a).handlers[h].Completing? ==> a != RemovePending(h)
    ensures HandlerSame(st, HandlerStep(st, a), h)
  {
    assert HandlerStep(st, a).handlers[h] == st.handlers[h];
    assert HeldStream(st.handlers[h]).Some?;
    if a.Receive? {
      assert HeldStream(st.handlers[a.handler]) == Some(st.handlers[a.handler].stream);
    }
  }

  /** A handler comes to hold a response only by reading it, and a sender only by looking
      one up; and only the handler that holds a stream reads from it. */
  lemma HandlerStays(mode: Mode, behaviour: Behaviour, st: State, a: Action, h: nat)
    requires Places(st) && Enabled(mode, behaviour, st, a)
    requires h < |Apply(mode, behaviour, st, a).handlers|
    requires var handler := Apply(mode, behaviour, st, a).handlers[h]; handler.Decoding? || handler.Completing?
    requires Apply(mode, behaviour, st, a).handlers[h].Decoding? ==> a != OfHandler(Receive(h))
    requires Apply(mode, behaviour, st, a).handlers[h].Completing? ==> a != OfHandler(RemovePending(h))
    ensures HandlerSame(st, Apply(mode, behaviour, st, a), h)
  {
    match a
    case OfCall(x) =>
      CallTouches(mode, st, x);
      assert HeldStream(st.handlers[h]).Some?;
    case OfConnect(x) =>
      ConnectTouches(st, x);
      assert HeldStream(st.handlers[h]).Some?;
    case OfHandler(x) =>
      HandlerTouches(st, x);
      HandlerStaysWithin(st, x, h);
    case OfClose(x) =>
      CloseTouches(st, x);
      assert HeldStream(st.handlers[h]).Some?;
    case OfServer(x) =>
      ServerTouches(behaviour, st, x);
      assert HeldStream(st.handlers[h]).Some?;
  }

  lemma DecodingFromQueue(behaviour: Behaviour, st: State, h: nat, c: nat)
    requires Conserved(behaviour, st) && Places(st) && HandlerEnabled(st, Receive(h))
    requires DecodingFor(HandlerStep(st, Receive(h)), h, c)
    ensures var s := st.handlers[h].stream; AwaitedAt(st, s, |st.streams[s].handled|, c)
  {
    var s := st.handlers[h].stream;
    assert StreamOk(behaviour, st.requests, st.registries, st.streams[s]);
    assert HeldStream(st.handlers[h]) == Some(s);
  }

  lemma DecodingFromBefore(behaviour: Behaviour, st: State, st': State, h: nat, c: nat)
    requires Conserved(behaviour, st) && HandlerSame(st, st', h) && Grows(st, st') && DecodingFor(st', h, c)
    ensures DecodingFor(st, h, c)
  {
    assert StreamOk(behaviour, st.requests, st.registries, st.streams[st.handlers[h].stream]);
  }

  lemma DecodingShrinks(mode: Mode, behaviour: Behaviour, st: State, a: Action, h: nat, c: nat)
    requires Inv(behaviour, st) && Enabled(mode, behaviour, st, a)
    requires DecodingFor(Apply(mode, behaviour, st, a), h, c)
    ensures InFlight(st, c)
  {
    if a == OfHandler(Receive(h)) {
      DecodingFromQueue(behaviour, st, h, c);
    } else {
      HandlerStays(mode, behaviour, st, a, h);
      Growth(mode, behaviour, st, a);
      DecodingFromBefore(behaviour, st, Apply(mode, behaviour, st, a), h, c);
    }
  }

  lemma RegisteredCall(mode: Mode, st: State, a: CallAction, c: nat)
    requires CallEnabled(mode, st, a) && a != Register(c)
    requires c < |CallStep(mode, st, a).calls| && CallStep(mode, st, a).calls[c].phase == Registered
    ensures c < |st.calls| && st.calls[c].phase == Registered
  {
  }

  lemma RegisteredShrinks(mode: Mode, behaviour: Behaviour, st: State, a: Action, c: nat)
    requires Enabled(mode, behaviour, st, a) && a != OfCall(Register(c))
    requires c < |Apply(mode, behaviour, st, a).calls| && Apply(mode, behaviour, st, a).calls[c].phase == Registered
    ensures c < |st.calls| && st.calls[c].phase == Registered
  {
    match a
    case OfCall(x) => RegisteredCall(mode, st, x, c);
    case OfConnect(x) => ConnectTouches(st, x);
    case OfHandler(x) => HandlerTouches(st, x);
    case OfClose(x) => CloseTouches(st, x);
    case OfServer(x) => ServerTouches(behaviour, st, x);
  }

  lemma InFlightShrinks(mode: Mode, behaviour: Behaviour, st: State, a: Action, c: nat)
    requires Inv(behaviour, st) && Enabled(mode, behaviour, st, a) && a != OfCall(Register(c))
    requires InFlight(Apply(mode, behaviour, st, a), c)
    ensures InFlight(st, c)
  {
    var st' := Apply(mode, behaviour, st, a);
    if c < |st'.calls| && st'.calls[c].phase == Registered {
      RegisteredShrinks(mode, behaviour, st, a, c);
    } else if s: nat, k: int :| AwaitedAt(st', s, k, c) {
      AwaitedShrinks(mode, behaviour, st, a, s, k, c);
    } else {
      var h: nat :| DecodingFor(st', h, c);
      DecodingShrinks(mode, behaviour, st, a, h, c);
    }
  }

  // The entry of a call in play is its own.

  /** Entries of the pending map change only by registration. */
  lemma PendingShrinks(mode: Mode, behaviour: Behaviour, st: State, a: Action)
    requires Enabled(mode, behaviour, st, a) && (a.OfCall? ==> !a.call.Register?)
    ensures Apply(mode, behaviour, st, a).pending.Keys <= st.pending.Keys
    ensures forall id | id in Apply(mode, behaviour, st, a).pending ::
        Apply(mode, behaviour, st, a).pending[id] == st.pending[id]
  {
    match a
    case OfCall(x) =>
    case OfConnect(x) => ConnectTouches(st, x);
    case OfHandler(x) =>
    case OfClose(x) =>
    case OfServer(x) => ServerTouches(behaviour, st, x);
  }

  /** Within the window no registration takes the entry of another call in play. */
  lemma EntriesOwnRegister(behaviour: Behaviour, st: State, r: nat, c: nat)
    requires Inv(behaviour, st) && Window(st) && EntriesOwn(st) && CallIn(st, r, Allocated)
    requires c != r && InFlight(st, c)
    ensures OwnEntry(Insert(st, r), c)
  {
    assert Live(st, c) && Live(st, r);
    assert OwnEntry(st, c);
    assert st.requests[c].id != st.requests[r].id;
  }

  lemma EntriesOwnKept(mode: Mode, behaviour: Behaviour, st: State, a: Action)
    requires Inv(behaviour, st) && Window(st) && EntriesOwn(st) && Enabled(mode, behaviour, st, a)
    ensures EntriesOwn(Apply(mode, behaviour, st, a))
  {
    var st' := Apply(mode, behaviour, st, a);
    forall c: nat | InFlight(st', c)
      ensures OwnEntry(st', c)
    {
      if a == OfCall(Register(c)) {
        assert st' == Insert(st, c);
      } else {
        InFlightShrinks(mode, behaviour, st, a, c);
        assert OwnEntry(st, c);
        if a.OfCall? && a.call.Register? {
          EntriesOwnRegister(behaviour, st, a.call.call, c);
        } else {
          PendingShrinks(mode, behaviour, st, a);
          Growth(mode, behaviour, st, a);
        }
      }
    }
  }

  // So the sender a handler takes, and the value it sends, belong to the answered call.

  lemma RemoveOwn(behaviour: Behaviour, st: State, h: nat)
    requires Inv(behaviour, st) && Origins(st) && EntriesOwn(st)
    requires HandlerHolds(st, h) && st.handlers[h].Decoding? && st.handlers[h].response.id in st.pending
    ensures var s := st.handlers[h].stream;
            OwnPosition(st.streams, s, |st.streams[s].handled| - 1, st.pending[st.handlers[h].response.id])
  {
    var s := st.handlers[h].stream;
    var k := |st.streams[s].handled| - 1;
    var c := st.pending[st.handlers[h].response.id];
    assert HandlerBacked(st.requests, st.streams, st.handlers[h]);
    assert Backed(st.requests, st.streams, s, k, c, ValueOf(st.handlers[h].response));
    BackedIsAnswer(behaviour, st, s, k, c, ValueOf(st.handlers[h].response));
    var d := st.streams[s].senders[k];
    assert StreamOk(behaviour, st.requests, st.registries, st.streams[s]);
    assert DecodingFor(st, h, d);
    assert OwnEntry(st, d);
  }

  lemma HandOwnTaken(st: State, h: nat)
    requires HandlerEnabled(st, RemovePending(h))
    requires var id := st.handlers[h].response.id;
             var s := st.handlers[h].stream;
             id in st.pending ==> OwnPosition(st.streams, s, |st.streams[s].handled| - 1, st.pending[id])
    ensures HandOwn(RemoveEntry(st, h), h)
  {
  }

  lemma HandOwnRemove(behaviour: Behaviour, st: State, h: nat)
    requires Inv(behaviour, st) && Origins(st) && EntriesOwn(st) && HandlerEnabled(st, RemovePending(h))
    ensures HandOwn(RemoveEntry(st, h), h)
  {
    if st.handlers[h].response.id in st.pending {
      RemoveOwn(behaviour, st, h);
    }
    HandOwnTaken(st, h);
  }

  lemma HandOwnBefore(st: State, st': State, h: nat)
    requires HandlerSame(st, st', h) && Grows(st, st') && HandOwn(st, h)
    ensures HandOwn(st', h)
  {
  }

  lemma HandsOwnKept(mode: Mode, behaviour: Behaviour, st: State, a: Action)
    requires Inv(behaviour, st) && Origins(st) && EntriesOwn(st) && HandsOwn(st) && Enabled(mode, behaviour, st, a)
    ensures HandsOwn(Apply(mode, behaviour, st, a))
  {
    var st' := Apply(mode, behaviour, st, a);
    forall h | 0 <= h < |st'.handlers|
      ensures HandOwn(st', h)
    {
      if a == OfHandler(RemovePending(h)) {
        HandOwnRemove(behaviour, st, h);
      } else if st'.handlers[h].Completing? {
        HandlerStays(mode, behaviour, st, a, h);
        Growth(mode, behaviour, st, a);
        HandOwnBefore(st, st', h);
      }
    }
  }

  lemma SentByCall(mode: Mode, st: State, a: CallAction, c: nat)
    requires CallEnabled(mode, st, a) && c < |CallStep(mode, st, a).calls|
    requires CallStep(mode, st, a).calls[c].sender.Sent?
    ensures c < |st.calls| && st.calls[c].sender == CallStep(mode, st, a).calls[c].sender
  {
  }

  lemma SentByHandler(st: State, a: HandlerAction, c: nat)
    requires HandlerEnabled(st, a) && c < |HandlerStep(st, a).calls|
    requires HandlerStep(st, a).calls[c].sender.Sent?
    ensures c < |st.calls|
    ensures (a.Complete? && st.handlers[a.handler].call == c)
        || st.calls[c].sender == HandlerStep(st, a).calls[c].sender
  {
  }

  /** A call is sent a response only by the handler that holds its sender. */
  lemma SentByComplete(mode: Mode, behaviour: Behaviour, st: State, a: Action, c: nat)
    requires Enabled(mode, behaviour, st, a)
    requires c < |Apply(mode, behaviour, st, a).calls|
    requires var sender := Apply(mode, behaviour, st, a).calls[c].sender; sender.Sent? && sender.origin.Some?
    ensures (a.OfHandler? && a.handle.Complete? && st.handlers[a.handle.handler].call == c) ||
            (c < |st.calls| && st.calls[c].sender == Apply(mode, behaviour, st, a).calls[c].sender)
  {
    match a
    case OfCall(x) => SentByCall(mode, st, x, c);
    case OfConnect(x) => ConnectTouches(st, x);
    case OfHandler(x) => SentByHandler(st, x, c);
    case OfClose(x) =>
    case OfServer(x) => ServerTouches(behaviour, st, x);
  }

  lemma ValuesOwnKept(mode: Mode, behaviour: Behaviour, st: State, a: Action)
    requires HandsOwn(st) && ValuesOwn(st) && Enabled(mode, behaviour, st, a)
    ensures ValuesOwn(Apply(mode, behaviour, st, a))
  {
    var st' := Apply(mode, behaviour, st, a);
    Growth(mode, behaviour, st, a);
    forall c | 0 <= c < |st'.calls| && st'.calls[c].sender.Sent? && st'.calls[c].sender.origin.Some?
      ensures OwnPosition(st'.streams, st'.calls[c].sender.origin.value.stream,
          st'.calls[c].sender.origin.value.index, c)
    {
      SentByComplete(mode, behaviour, st, a, c);
      if a.OfHandler? && a.handle.Complete? {
        assert HandOwn(st, a.handle.handler);
      }
    }
  }

  /** The window held before every step of the schedule. */
  ghost predicate WindowThroughout(mode: Mode, behaviour: Behaviour, schedule: seq<Action>) {
    forall i | 0 <= i < |schedule| :: Window(Exec(mode, behaviour, Init(), schedule[..i]))
  }

  lemma {:induction false} OwnReached(mode: Mode, behaviour: Behaviour, schedule: seq<Action>)
    requires WindowThroughout(mode, behaviour, schedule)
    ensures var st := Exec(mode, behaviour, Init(), schedule); EntriesOwn(st) && HandsOwn(st) && ValuesOwn(st)
  {
    if schedule != [] {
      var before := schedule[..|schedule| - 1];
      assert forall i | 0 <= i < |before| :: before[..i] == schedule[..i];
      OwnReached(mode, behaviour, before);
      OriginsReached(mode, behaviour, before);
      InvReached(mode, behaviour, before);
      var st := Exec(mode, behaviour, Init(), before);
      var a := schedule[|schedule| - 1];
      if Enabled(mode, behaviour, st, a) {
        EntriesOwnKept(mode, behaviour, st, a);
        HandsOwnKept(mode, behaviour, st, a);
        ValuesOwnKept(mode, behaviour, st, a);
      }
    }
  }

  predicate HasReply(st: State, c: nat) {
    && c < |st.calls| && st.calls[c].phase.Finished?
    && (st.calls[c].phase.outcome.Answer? || st.calls[c].phase.outcome.RpcFailed?)
  }

  /** `value` is something a caller sending `request` may be told under one of the registries. */
  ghost predicate OncePossible(behaviour: Behaviour, registries: seq<Registry>, request: Request, value: Outcome) {
    exists v: nat :: v < |registries| && PossibleOutcome(behaviour, registries[v], request, value)
  }

  /** The handled response a caller's result came from answers that call. */
  lemma ReplyOrigin(mode: Mode, behaviour: Behaviour, schedule: seq<Action>, c: nat)
    returns (s: nat, k: nat)
    requires WindowThroughout(mode, behaviour, schedule)
    requires HasReply(Exec(mode, behaviour, Init(), schedule), c)
    ensures var st := Exec(mode, behaviour, Init(), schedule);
            && OwnPosition(st.streams, s, k, c)
            && Backed(st.requests, st.streams, s, k, c, st.calls[c].phase.outcome)
  {
    OwnReached(mode, behaviour, schedule);
    OriginsReached(mode, behaviour, schedule);
    var st := Exec(mode, behaviour, Init(), schedule);
    assert CallBacked(st.requests, st.streams, c, st.calls[c]);
    var origin := st.calls[c].sender.origin.value;
    s, k := origin.stream, origin.index;
  }

  /** End-to-end correlation. Over every interleaving of callers, connects, handlers,
      closes and sessions: a reply or remote failure a caller returns is a possible outcome
      of the method and payload that very caller asked for, under a registry that once was
      current, as long as the calls in play never span more than 2^64 ids. */
  lemma OwnReplies(mode: Mode, behaviour: Behaviour, schedule: seq<Action>, i: nat, c: nat, methodName: string,
                   payload: Bytes)
    requires WindowThroughout(mode, behaviour, schedule)
    requires AskedAt(mode, behaviour, schedule, i, c, methodName, payload)
    requires HasReply(Exec(mode, behaviour, Init(), schedule), c)
    ensures var st := Exec(mode, behaviour, Init(), schedule);
            OncePossible(behaviour, st.registries, Request(c % U64_MODULUS, methodName, payload),
                         st.calls[c].phase.outcome)
  {
    var st := Exec(mode, behaviour, Init(), schedule);
    var s, k := ReplyOrigin(mode, behaviour, schedule, c);
    InvReached(mode, behaviour, schedule);
    BackedIsAnswer(behaviour, st, s, k, c, st.calls[c].phase.outcome);
    AskedRequest(mode, behaviour, schedule, i, c, methodName, payload);
  }

  /** A client that makes at most 2^64 calls is always within the window. */
  lemma ShortRunsInWindow(mode: Mode, behaviour: Behaviour, schedule: seq<Action>)
    requires |Exec(mode, behaviour, Init(), schedule).requests| <= U64_MODULUS
    ensures WindowThroughout(mode, behaviour, schedule)
  {
    forall i | 0 <= i < |schedule|
      ensures Window(Exec(mode, behaviour, Init(), schedule[..i]))
    {
      RequestsGrow(mode, behaviour, schedule, i);
    }
  }
}
