/** No task of the protocol gets stuck: in every reachable state each can take its next
    step, unless it waits for input or for the slot that `close` keeps locked. */
module Progress {
  import opened Rpc
  import opened Routing
  import opened Dispatch
  import opened Protocol
  import opened Invariants
  import opened Correlation

  /** A call can always go on: it registers; it sends, or finds the write failing, when there
      is a stream, and is refused when there is none; and while it waits its timer may fire,
      and it returns as soon as its channel is settled. */
  lemma CallGoesOn(behaviour: Behaviour, schedule: seq<Action>, c: nat, arrived: bool, decodes: bool)
    requires c < |Exec(Literal, behaviour, Init(), schedule).calls|
    ensures var st := Exec(Literal, behaviour, Init(), schedule);
            match st.calls[c].phase
            case Allocated => Enabled(Literal, behaviour, st, OfCall(Register(c)))
            case Registered =>
              && Enabled(Literal, behaviour, st, OfCall(FailEncoding(c)))
              && (st.closing != SlotCleared ==>
                    match st.slot
                    case None => Enabled(Literal, behaviour, st, OfCall(RefuseSend(c)))
                    case Some(s) =>
                      && Enabled(Literal, behaviour, st, OfCall(Send(c, s)))
                      && Enabled(Literal, behaviour, st, OfCall(BreakSend(c, s, arrived))))
            case Waiting =>
              && Enabled(Literal, behaviour, st, OfCall(Expire(c)))
              && (st.calls[c].sender.Sent? || st.calls[c].sender.Dropped? <==>
                  Enabled(Literal, behaviour, st, OfCall(Observe(c, decodes))))
            case Finished(_) => true
  {
    InvReached(Literal, behaviour, schedule);
  }

  /** As the code stands a call can write to a stream exactly when the slot holds it and
      `close` does not keep the slot locked. */
  lemma WritesToSlotOnly(behaviour: Behaviour, schedule: seq<Action>, c: nat, s: nat)
    requires c < |Exec(Literal, behaviour, Init(), schedule).calls|
    ensures var st := Exec(Literal, behaviour, Init(), schedule);
            Enabled(Literal, behaviour, st, OfCall(Send(c, s))) <==>
            st.calls[c].phase == Registered && st.slot == Some(s) && st.closing != SlotCleared
  {
    InvReached(Literal, behaviour, schedule);
  }

  /** In full duplex, whenever the stream has not been dropped. */
  lemma WritesToOpenStreams(behaviour: Behaviour, schedule: seq<Action>, c: nat, s: nat)
    requires c < |Exec(Duplex, behaviour, Init(), schedule).calls|
    ensures var st := Exec(Duplex, behaviour, Init(), schedule);
            Enabled(Duplex, behaviour, st, OfCall(Send(c, s))) <==>
            st.calls[c].phase == Registered && s < |st.streams| && st.streams[s].place != Gone
  {
    InvReached(Duplex, behaviour, schedule);
  }

  /** A connect stores its session and then its stream as soon as `close` lets it. */
  lemma ConnectGoesOn(mode: Mode, behaviour: Behaviour, schedule: seq<Action>, n: nat)
    requires n < |Exec(mode, behaviour, Init(), schedule).connectors|
    ensures var st := Exec(mode, behaviour, Init(), schedule);
            match st.connectors[n]
            case Opened(_) => Enabled(mode, behaviour, st, OfConnect(StoreSession(n))) <==> st.closing == NotClosing
            case SessionStored(_) =>
              Enabled(mode, behaviour, st, OfConnect(StoreStream(n))) <==> st.closing != SlotCleared
            case Connected => true
  {
    InvReached(mode, behaviour, schedule);
    var st := Exec(mode, behaviour, Init(), schedule);
    if st.connectors[n].SessionStored? {
      assert OpenStream(st.connectors[n]) == Some(st.connectors[n].stream);
    }
  }

  lemma HandlerMoves(st: State, h: nat)
    requires Places(st) && Origins(st) && h < |st.handlers|
    ensures match st.handlers[h]
            case Spawned => HandlerEnabled(st, Take(h)) <==> st.closing != SlotCleared
            case Receiving(s) =>
              && s < |st.streams|
              && (HandlerEnabled(st, Receive(h)) <==> st.streams[s].responseQueue != [])
              && (HandlerEnabled(st, PutBack(h)) <==> st.closing != SlotCleared)
            case Decoding(_, _) => HandlerEnabled(st, SkipResponse(h)) && HandlerEnabled(st, RemovePending(h))
            case Completing(_, c, _) => HandlerEnabled(st, Complete(h)) <==> c < |st.calls|
            case Exited => true
  {
    assert HandlerBacked(st.requests, st.streams, st.handlers[h]);
    if HeldStream(st.handlers[h]).Some? {
      assert HeldStream(st.handlers[h]).value < |st.streams|;
    }
  }

  /** A handler takes the stream as soon as `close` lets it, reads as soon as a response has
      arrived, skips what does not decode and looks up what does, sends the value of every
      sender it has taken, and can put its stream back whenever `close` lets it. */
  lemma HandlerGoesOn(mode: Mode, behaviour: Behaviour, schedule: seq<Action>, h: nat)
    requires h < |Exec(mode, behaviour, Init(), schedule).handlers|
    ensures var st := Exec(mode, behaviour, Init(), schedule);
            match st.handlers[h]
            case Spawned => Enabled(mode, behaviour, st, OfHandler(Take(h))) <==> st.closing != SlotCleared
            case Receiving(s) =>
              && s < |st.streams|
              && (Enabled(mode, behaviour, st, OfHandler(Receive(h))) <==> st.streams[s].responseQueue != [])
              && (Enabled(mode, behaviour, st, OfHandler(PutBack(h))) <==> st.closing != SlotCleared)
            case Decoding(_, _) =>
              && Enabled(mode, behaviour, st, OfHandler(SkipResponse(h)))
              && Enabled(mode, behaviour, st, OfHandler(RemovePending(h)))
            case Completing(_, _, _) => Enabled(mode, behaviour, st, OfHandler(Complete(h)))
            case Exited => true
  {
    InvReached(mode, behaviour, schedule);
    OriginsReached(mode, behaviour, schedule);
    HandlerMoves(Exec(mode, behaviour, Init(), schedule), h);
  }

  /** A session takes up the next request as soon as it is idle and one has arrived, looks up
      every request it has taken up, ends every call with whatever the service may answer or
      with a timeout, and can end at any time until it has. */
  lemma SessionGoesOn(mode: Mode, behaviour: Behaviour, schedule: seq<Action>, s: nat, result: CallResult)
    requires s < |Exec(mode, behaviour, Init(), schedule).streams|
    ensures var st := Exec(mode, behaviour, Init(), schedule);
            && (Enabled(mode, behaviour, st, OfServer(ServerStop(s))) <==> !st.streams[s].serving.Stopped?)
            && match st.streams[s].serving
               case Idle =>
                 Enabled(mode, behaviour, st, OfServer(ServerReceive(s))) <==> st.streams[s].requestQueue != []
               case Received(_) => Enabled(mode, behaviour, st, OfServer(ServerLookup(s)))
               case InCall(request, service, _) =>
                 Enabled(mode, behaviour, st, OfServer(ServerFinish(s, result))) <==>
                 result.TimedOut? ||
                 behaviour(service, Split(request.methodName).MethodOr(""), request.payload, result)
               case Stopped(_) => true
  {
    InvReached(mode, behaviour, schedule);
  }
}
