/** How streams get into the shared slot and out of it, whatever has happened before: by
    connects, by handlers that start and end, and by `close`. */
module Slot {
  import opened Rpc
  import opened Dispatch
  import opened Protocol
  import opened Invariants

  /** Stream `s` has moved to `place`, the stream the slot held, if another, is gone, and all
      streams carry what they carried. */
  ghost predicate MovedOnly(st: State, st': State, s: nat, place: Place) {
    && |st'.streams| == |st.streams| && s < |st.streams|
    && st'.streams[s] == st.streams[s].(place := place)
    && forall t | 0 <= t < |st.streams| && t != s ::
         st'.streams[t] == if st.slot == Some(t) then st.streams[t].(place := Gone) else st.streams[t]
  }

  /** A connect that has opened its stream holds it, new and empty, until it stores it. */
  lemma ConnectOpens(mode: Mode, behaviour: Behaviour, schedule: seq<Action>)
    ensures var st := Exec(mode, behaviour, Init(), schedule);
            var st' := Exec(mode, behaviour, Init(), schedule + [OfConnect(Open)]);
            && st' == st.(streams := st'.streams, connectors := st.connectors + [Opened(|st.streams|)])
            && |st'.streams| == |st.streams| + 1 && st.streams <= st'.streams
            && var stream := st'.streams[|st.streams|];
               && stream.place == Connecting(|st.connectors|) && stream.serving == Idle
               && stream.senders == [] && stream.requestQueue == [] && stream.answers == []
               && stream.responseQueue == [] && stream.handled == []
  {
    ExecNext(mode, behaviour, Init(), schedule, OfConnect(Open));
  }

  /** Unless a `close` is under way, a connect stores its session over any older one. */
  lemma ConnectStoresSession(mode: Mode, behaviour: Behaviour, schedule: seq<Action>, n: nat)
    requires var st := Exec(mode, behaviour, Init(), schedule);
             n < |st.connectors| && st.connectors[n].Opened? && st.closing == NotClosing
    ensures var st := Exec(mode, behaviour, Init(), schedule);
            var s := st.connectors[n].stream;
            Exec(mode, behaviour, Init(), schedule + [OfConnect(StoreSession(n))]) ==
            st.(session := Some(s), connectors := st.connectors[n := SessionStored(s)])
  {
    ExecNext(mode, behaviour, Init(), schedule, OfConnect(StoreSession(n)));
  }

  lemma StreamStored(st: State, n: nat)
    requires Places(st) && n < |st.connectors| && st.connectors[n].SessionStored? && st.closing != SlotCleared
    ensures ConnectEnabled(st, StoreStream(n))
    ensures var st' := ConnectStep(st, StoreStream(n));
            var s := st.connectors[n].stream;
            && st' == st.(slot := Some(s), handlers := st.handlers + [Spawned],
                          connectors := st.connectors[n := Connected], streams := st'.streams)
            && MovedOnly(st, st', s, InSlot)
  {
    assert OpenStream(st.connectors[n]) == Some(st.connectors[n].stream);
  }

  /** Then it stores its stream over any older one, which is gone, and starts a handler. */
  lemma ConnectStoresStream(mode: Mode, behaviour: Behaviour, schedule: seq<Action>, n: nat)
    requires var st := Exec(mode, behaviour, Init(), schedule);
             n < |st.connectors| && st.connectors[n].SessionStored? && st.closing != SlotCleared
    ensures var st := Exec(mode, behaviour, Init(), schedule);
            var st' := Exec(mode, behaviour, Init(), schedule + [OfConnect(StoreStream(n))]);
            var s := st.connectors[n].stream;
            && st' == st.(slot := Some(s), handlers := st.handlers + [Spawned],
                          connectors := st.connectors[n := Connected], streams := st'.streams)
            && MovedOnly(st, st', s, InSlot)
  {
    InvReached(mode, behaviour, schedule);
    StreamStored(Exec(mode, behaviour, Init(), schedule), n);
    ExecNext(mode, behaviour, Init(), schedule, OfConnect(StoreStream(n)));
  }

  /** A handler that starts takes the stream out of the slot, or exits when there is none. */
  lemma HandlerTakes(mode: Mode, behaviour: Behaviour, schedule: seq<Action>, h: nat)
    requires var st := Exec(mode, behaviour, Init(), schedule);
             h < |st.handlers| && st.handlers[h].Spawned? && st.closing != SlotCleared
    ensures var st := Exec(mode, behaviour, Init(), schedule);
            var st' := Exec(mode, behaviour, Init(), schedule + [OfHandler(Take(h))]);
            match st.slot
            case None => st' == st.(handlers := st.handlers[h := Exited])
            case Some(s) =>
              && st' == st.(slot := None, handlers := st.handlers[h := Receiving(s)], streams := st'.streams)
              && MovedOnly(st, st', s, HeldBy(h))
  {
    InvReached(mode, behaviour, schedule);
    ExecNext(mode, behaviour, Init(), schedule, OfHandler(Take(h)));
  }

  lemma StreamPutBack(st: State, h: nat)
    requires Places(st) && h < |st.handlers| && st.handlers[h].Receiving? && st.closing != SlotCleared
    ensures HandlerEnabled(st, PutBack(h))
    ensures var st' := HandlerStep(st, PutBack(h));
            var s := st.handlers[h].stream;
            && st' == st.(slot := Some(s), handlers := st.handlers[h := Exited], streams := st'.streams)
            && MovedOnly(st, st', s, InSlot)
  {
    assert HeldStream(st.handlers[h]) == Some(st.handlers[h].stream);
  }

  lemma SlotWritable(behaviour: Behaviour, st: State, s: nat, c: nat)
    requires st.slot == Some(s) && s < |st.streams| && st.closing != SlotCleared && |st.requests| == |st.calls|
    requires c < |st.calls| && st.calls[c].phase == Registered
    ensures Enabled(Literal, behaviour, st, OfCall(Send(c, s)))
  {
  }

  /** A handler that ends puts its stream back into the slot, over any newer one, which is
      gone; and then every call that is about to send can write to it. */
  lemma HandlerPutsBack(mode: Mode, behaviour: Behaviour, schedule: seq<Action>, h: nat)
    requires var st := Exec(mode, behaviour, Init(), schedule);
             h < |st.handlers| && st.handlers[h].Receiving? && st.closing != SlotCleared
    ensures var st := Exec(mode, behaviour, Init(), schedule);
            var st' := Exec(mode, behaviour, Init(), schedule + [OfHandler(PutBack(h))]);
            var s := st.handlers[h].stream;
            && st' == st.(slot := Some(s), handlers := st.handlers[h := Exited], streams := st'.streams)
            && MovedOnly(st, st', s, InSlot)
            && forall c: nat | c < |st.calls| && st.calls[c].phase == Registered ::
                 Enabled(Literal, behaviour, st', OfCall(Send(c, s)))
  {
    var st := Exec(mode, behaviour, Init(), schedule);
    InvReached(mode, behaviour, schedule);
    StreamPutBack(st, h);
    ExecNext(mode, behaviour, Init(), schedule, OfHandler(PutBack(h)));
    var st' := HandlerStep(st, PutBack(h));
    forall c: nat | c < |st.calls| && st.calls[c].phase == Registered
      ensures Enabled(Literal, behaviour, st', OfCall(Send(c, st.handlers[h].stream)))
    {
      SlotWritable(behaviour, st', st.handlers[h].stream, c);
    }
  }

  /** The three blocks of `close`, one by one: the session is gone; then the slot is empty
      and its stream gone, and the slot stays locked; then the slot is free again. */
  lemma CloseSteps(mode: Mode, behaviour: Behaviour, schedule: seq<Action>, a: CloseAction)
    ensures var st := Exec(mode, behaviour, Init(), schedule);
            var st' := Exec(mode, behaviour, Init(), schedule + [OfClose(a)]);
            match st.closing
            case NotClosing => a == TakeSession ==> st' == st.(session := None, closing := SessionTaken)
            case SessionTaken =>
              a == ClearSlot ==>
                && st' == st.(slot := None, closing := SlotCleared, streams := st'.streams)
                && |st'.streams| == |st.streams|
                && forall t | 0 <= t < |st.streams| ::
                     st'.streams[t] == if st.slot == Some(t) then st.streams[t].(place := Gone) else st.streams[t]
            case SlotCleared =>
              a == Drain ==> st' == st.(calls := st'.calls, pending := map[], closing := NotClosing)
  {
    InvReached(mode, behaviour, schedule);
    ExecNext(mode, behaviour, Init(), schedule, OfClose(a));
  }
}
