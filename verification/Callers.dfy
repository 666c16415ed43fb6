/** What callers can rely on over whole runs: one result each, no waiter forgotten, ids
    that do not clash, an exactly accounted pending map, and a `close` that settles. */
module Callers {
  import opened Rpc
  import opened Dispatch
  import opened Protocol
  import opened Invariants
  import opened Correlation

  // Settled channels and returned results never change.

  lemma SettledCall(mode: Mode, st: State, a: CallAction, c: nat)
    requires Books(st) && CallEnabled(mode, st, a) && c < |st.calls|
    ensures c < |CallStep(mode, st, a).calls|
    ensures Settled(st.calls[c]) ==> CallStep(mode, st, a).calls[c].sender == st.calls[c].sender
    ensures st.calls[c].phase.Finished? ==> CallStep(mode, st, a).calls[c].phase == st.calls[c].phase
  {
  }

  lemma SettledHandler(st: State, a: HandlerAction, c: nat)
    requires Books(st) && HandlerEnabled(st, a) && c < |st.calls|
    ensures c < |HandlerStep(st, a).calls|
    ensures Settled(st.calls[c]) ==> HandlerStep(st, a).calls[c].sender == st.calls[c].sender
  {
  }

  lemma SettledClose(st: State, a: CloseAction, c: nat)
    requires Books(st) && CloseEnabled(st, a) && c < |st.calls|
    ensures c < |CloseStep(st, a).calls|
    ensures Settled(st.calls[c]) ==> CloseStep(st, a).calls[c].sender == st.calls[c].sender
  {
    DrainedArePending(st, c);
  }

  lemma SettledStep(mode: Mode, behaviour: Behaviour, st: State, a: Action, c: nat)
    requires Books(st) && c < |st.calls|
    ensures c < |Step(mode, behaviour, st, a).calls|
    ensures Settled(st.calls[c]) ==> Step(mode, behaviour, st, a).calls[c].sender == st.calls[c].sender
    ensures st.calls[c].phase.Finished? ==> Step(mode, behaviour, st, a).calls[c].phase == st.calls[c].phase
  {
    if Enabled(mode, behaviour, st, a) {
      match a
      case OfCall(x) => SettledCall(mode, st, x, c);
      case OfConnect(x) => ConnectTouches(st, x);
      case OfHandler(x) =>
        SettledHandler(st, x, c);
        HandlerTouches(st, x);
      case OfClose(x) =>
        SettledClose(st, x, c);
        CloseTouches(st, x);
      case OfServer(x) => ServerTouches(behaviour, st, x);
    }
  }

  /** At-most-once completion: whatever happens later, a settled channel keeps its value
      and a call that returned keeps its result. */
  lemma {:induction false} SettledForever(mode: Mode, behaviour: Behaviour, schedule: seq<Action>,
                                          more: seq<Action>, c: nat)
    requires c < |Exec(mode, behaviour, Init(), schedule).calls|
    ensures var call := Exec(mode, behaviour, Init(), schedule).calls[c];
            var later := Exec(mode, behaviour, Init(), schedule + more);
            && c < |later.calls|
            && (Settled(call) ==> later.calls[c].sender == call.sender)
            && (call.phase.Finished? ==> later.calls[c].phase == call.phase)
  {
    if more == [] {
      assert schedule + more == schedule;
    } else {
      var before := schedule + more[..|more| - 1];
      assert (schedule + more)[..|schedule + more| - 1] == before;
      SettledForever(mode, behaviour, schedule, more[..|more| - 1], c);
      InvReached(mode, behaviour, before);
      SettledStep(mode, behaviour, Exec(mode, behaviour, Init(), before), more[|more| - 1], c);
    }
  }

  // Senders are dropped under a caller's nose only when a later call takes the same id.

  /** Step `i` of the schedule registers call `d` and takes the pending entry of call `c`. */
  ghost predicate OverwrittenAt(mode: Mode, behaviour: Behaviour, schedule: seq<Action>, i: nat, d: nat, c: nat) {
    && i < |schedule| && schedule[i] == OfCall(Register(d)) && d != c
    && var st := Exec(mode, behaviour, Init(), schedule[..i]);
       CallIn(st, d, Allocated) && Takes(st, d, c)
  }

  /** Registering call `d` overwrites the entry of call `c`. */
  predicate Takes(st: State, d: nat, c: nat)
    requires d < |st.requests|
  {
    && c < |st.requests| && st.requests[d].id == st.requests[c].id
    && st.requests[c].id in st.pending && st.pending[st.requests[c].id] == c
  }

  ghost predicate Overwritten(mode: Mode, behaviour: Behaviour, schedule: seq<Action>, c: nat) {
    exists i: nat, d: nat :: OverwrittenAt(mode, behaviour, schedule, i, d, c)
  }

  lemma OverwrittenLonger(mode: Mode, behaviour: Behaviour, schedule: seq<Action>, a: Action, c: nat)
    requires Overwritten(mode, behaviour, schedule, c)
    ensures Overwritten(mode, behaviour, schedule + [a], c)
  {
    var i: nat, d: nat :| OverwrittenAt(mode, behaviour, schedule, i, d, c);
    assert (schedule + [a])[..i] == schedule[..i];
    assert OverwrittenAt(mode, behaviour, schedule + [a], i, d, c);
  }

  lemma OverwrittenNow(mode: Mode, behaviour: Behaviour, schedule: seq<Action>, d: nat, c: nat)
    requires var st := Exec(mode, behaviour, Init(), schedule); CallIn(st, d, Allocated) && Takes(st, d, c) && d != c
    ensures Overwritten(mode, behaviour, schedule + [OfCall(Register(d))], c)
  {
    var longer := schedule + [OfCall(Register(d))];
    assert longer[..|schedule|] == schedule;
    assert OverwrittenAt(mode, behaviour, longer, |schedule|, d, c);
  }

  lemma DropByCall(mode: Mode, st: State, a: CallAction, c: nat)
    requires Books(st) && CallEnabled(mode, st, a) && c < |CallStep(mode, st, a).calls|
    requires var call := CallStep(mode, st, a).calls[c]; call.sender.Dropped? && !call.phase.Finished?
    ensures c < |st.calls| && !st.calls[c].phase.Finished?
    ensures st.calls[c].sender.Dropped? ||
            (a.Register? && a.call != c && a.call < |st.requests| && Takes(st, a.call, c))
  {
  }

  lemma DropByHandler(st: State, a: HandlerAction, c: nat)
    requires HandlerEnabled(st, a) && c < |HandlerStep(st, a).calls|
    requires var call := HandlerStep(st, a).calls[c]; call.sender.Dropped? && !call.phase.Finished?
    ensures c < |st.calls| && !st.calls[c].phase.Finished? && st.calls[c].sender.Dropped?
  {
  }

  /** Only a registration under the same id drops the sender of a call that still waits. */
  lemma DropByRegister(mode: Mode, behaviour: Behaviour, st: State, a: Action, c: nat)
    requires Books(st) && Enabled(mode, behaviour, st, a) && c < |Apply(mode, behaviour, st, a).calls|
    requires var call := Apply(mode, behaviour, st, a).calls[c]; call.sender.Dropped? && !call.phase.Finished?
    ensures c < |st.calls| && !st.calls[c].phase.Finished?
    ensures st.calls[c].sender.Dropped? ||
            (a.OfCall? && a.call.Register? && a.call.call != c && a.call.call < |st.requests|
             && Takes(st, a.call.call, c))
  {
    match a
    case OfCall(x) => DropByCall(mode, st, x, c);
    case OfConnect(x) => ConnectTouches(st, x);
    case OfHandler(x) => DropByHandler(st, x, c);
    case OfClose(x) => CloseTouches(st, x);
    case OfServer(x) => ServerTouches(behaviour, st, x);
  }

  /** A dropped sender of a call that has not returned was overwritten. */
  lemma {:induction false} DropsExplained(mode: Mode, behaviour: Behaviour, schedule: seq<Action>, c: nat)
    requires c < |Exec(mode, behaviour, Init(), schedule).calls|
    requires var call := Exec(mode, behaviour, Init(), schedule).calls[c];
             call.sender.Dropped? && !call.phase.Finished?
    ensures Overwritten(mode, behaviour, schedule, c)
  {
    if schedule != [] {
      var before, a := schedule[..|schedule| - 1], schedule[|schedule| - 1];
      var st := Exec(mode, behaviour, Init(), before);
      assert schedule == before + [a];
      InvReached(mode, behaviour, before);
      if Enabled(mode, behaviour, st, a) {
        DropByRegister(mode, behaviour, st, a, c);
      }
      if st.calls[c].sender.Dropped? {
        DropsExplained(mode, behaviour, before, c);
        OverwrittenLonger(mode, behaviour, before, a, c);
      } else {
        OverwrittenNow(mode, behaviour, before, a.call.call, c);
      }
    }
  }

  lemma OverwriteDrops(mode: Mode, behaviour: Behaviour, schedule: seq<Action>, d: nat, c: nat, more: seq<Action>)
    requires var st := Exec(mode, behaviour, Init(), schedule); CallIn(st, d, Allocated) && Takes(st, d, c) && d != c
    ensures var later := Exec(mode, behaviour, Init(), schedule + [OfCall(Register(d))] + more);
            c < |later.calls| && later.calls[c].sender == Dropped
  {
    var st := Exec(mode, behaviour, Init(), schedule);
    var registered := schedule + [OfCall(Register(d))];
    InvReached(mode, behaviour, schedule);
    assert registered[..|schedule|] == schedule;
    assert Exec(mode, behaviour, Init(), registered) == Insert(st, d);
    SettledForever(mode, behaviour, registered, more, c);
  }

  /** The sender of a call that has not returned is dropped exactly when some step of the
      run registered another call with its id while its own entry was pending. */
  lemma DroppedIffOverwritten(mode: Mode, behaviour: Behaviour, schedule: seq<Action>, c: nat)
    requires c < |Exec(mode, behaviour, Init(), schedule).calls|
    requires !Exec(mode, behaviour, Init(), schedule).calls[c].phase.Finished?
    ensures Exec(mode, behaviour, Init(), schedule).calls[c].sender == Dropped <==>
            exists i: nat, d: nat :: OverwrittenAt(mode, behaviour, schedule, i, d, c)
  {
    if i: nat, d: nat :| OverwrittenAt(mode, behaviour, schedule, i, d, c) {
      assert schedule == schedule[..i] + [OfCall(Register(d))] + schedule[i + 1..];
      OverwriteDrops(mode, behaviour, schedule[..i], d, c, schedule[i + 1..]);
    }
    if Exec(mode, behaviour, Init(), schedule).calls[c].sender == Dropped {
      DropsExplained(mode, behaviour, schedule, c);
    }
  }

  /** No lost waiter: the sender of a waiting call is under its own id in the pending map,
      in the hand of one handler that is about to send on it, used, or was dropped by the
      registration, at one step of the run, of another call that overwrote its entry. */
  lemma NoLostWaiter(mode: Mode, behaviour: Behaviour, schedule: seq<Action>, c: nat)
    requires c < |Exec(mode, behaviour, Init(), schedule).calls|
    requires Exec(mode, behaviour, Init(), schedule).calls[c].phase == Waiting
    ensures var st := Exec(mode, behaviour, Init(), schedule);
            && c < |st.requests|
            && match st.calls[c].sender
               case WithCaller => false
               case InPending => st.requests[c].id in st.pending && st.pending[st.requests[c].id] == c
               case InHand(h) => h < |st.handlers| && st.handlers[h].Completing? && st.handlers[h].call == c
               case Sent(_, _) => true
               case Dropped => exists i: nat, d: nat :: OverwrittenAt(mode, behaviour, schedule, i, d, c)
  {
    InvReached(mode, behaviour, schedule);
    DroppedIffOverwritten(mode, behaviour, schedule, c);
  }

  // Ids.

  lemma SameResidue(c: nat, d: nat)
    requires c <= d
    ensures c % U64_MODULUS == d % U64_MODULUS <==> (d - c) % U64_MODULUS == 0
  {
    var q := (d - c) / U64_MODULUS;
    var r := (d - c) % U64_MODULUS;
    assert d - c == 0x1_0000_0000_0000_0000 * q + r;
    assert c == 0x1_0000_0000_0000_0000 * (c / U64_MODULUS) + c % U64_MODULUS;
    assert d == 0x1_0000_0000_0000_0000 * (d / U64_MODULUS) + d % U64_MODULUS;
  }

  /** Two calls share an id exactly when 2^64 divides the distance of their places in the
      order of allocation, across any number of reconnects. */
  lemma SameIdIff(mode: Mode, behaviour: Behaviour, schedule: seq<Action>, c: nat, d: nat)
    requires c <= d < |Exec(mode, behaviour, Init(), schedule).requests|
    ensures var st := Exec(mode, behaviour, Init(), schedule);
            st.requests[c].id == st.requests[d].id <==> (d - c) % U64_MODULUS == 0
  {
    InvReached(mode, behaviour, schedule);
    SameResidue(c, d);
  }

  lemma DistinctIds(st: State, c: nat, d: nat)
    requires Ids(st) && |st.requests| <= U64_MODULUS && c < |st.requests| && d < |st.requests| && c != d
    ensures st.requests[c].id != st.requests[d].id
  {
  }

  /** A client that makes at most 2^64 calls drops no waiter. */
  lemma NoDropWithoutWrap(mode: Mode, behaviour: Behaviour, schedule: seq<Action>, c: nat)
    requires |Exec(mode, behaviour, Init(), schedule).requests| <= U64_MODULUS
    requires c < |Exec(mode, behaviour, Init(), schedule).calls|
    requires Exec(mode, behaviour, Init(), schedule).calls[c].phase == Waiting
    ensures !Exec(mode, behaviour, Init(), schedule).calls[c].sender.Dropped?
  {
    if Exec(mode, behaviour, Init(), schedule).calls[c].sender.Dropped? {
      DropsExplained(mode, behaviour, schedule, c);
      var i: nat, d: nat :| OverwrittenAt(mode, behaviour, schedule, i, d, c);
      InvReached(mode, behaviour, schedule[..i]);
      RequestsGrow(mode, behaviour, schedule, i);
      DistinctIds(Exec(mode, behaviour, Init(), schedule[..i]), c, d);
    }
  }

  /** A registration that finds its id taken leaves the older waiter with a dropped sender
      for good: if the older call was waiting, it can return only `ConnectionClosed`, or
      `Timeout` when its own timer fires first. */
  lemma OverwriteClosesOlder(mode: Mode, behaviour: Behaviour, schedule: seq<Action>, c: nat, more: seq<Action>)
    requires var st := Exec(mode, behaviour, Init(), schedule);
             CallIn(st, c, Allocated) && st.requests[c].id in st.pending
    ensures var st := Exec(mode, behaviour, Init(), schedule);
            var older := st.pending[st.requests[c].id];
            var later := Exec(mode, behaviour, Init(), schedule + [OfCall(Register(c))] + more);
            && older < |st.calls| && older < |later.calls| && older != c
            && later.calls[older].sender == Dropped
            && (st.calls[older].phase == Waiting ==>
                  || later.calls[older].phase == Waiting
                  || later.calls[older].phase == Finished(ConnectionClosed)
                  || later.calls[older].phase == Finished(Timeout))
  {
    var st := Exec(mode, behaviour, Init(), schedule);
    var older := st.pending[st.requests[c].id];
    InvReached(mode, behaviour, schedule);
    var registered := schedule + [OfCall(Register(c))];
    assert registered[..|registered| - 1] == schedule;
    assert Exec(mode, behaviour, Init(), registered) == Insert(st, c);
    SettledForever(mode, behaviour, registered, more, older);
    ClosedOrExpired(mode, behaviour, registered, more, older);
  }

  /** A waiting call whose channel is dropped, or has been told of the close, returns
      `ConnectionClosed` or `Timeout` and nothing else. */
  lemma {:induction false} ClosedOrExpired(mode: Mode, behaviour: Behaviour, schedule: seq<Action>,
                                           more: seq<Action>, c: nat)
    requires c < |Exec(mode, behaviour, Init(), schedule).calls|
    requires var call := Exec(mode, behaviour, Init(), schedule).calls[c];
             call.sender == Dropped || call.sender == Sent(ConnectionClosed, None)
    ensures var later := Exec(mode, behaviour, Init(), schedule + more);
            c < |later.calls| && EndsClosed(Exec(mode, behaviour, Init(), schedule).calls[c].phase, later.calls[c].phase)
  {
    if more == [] {
      assert schedule + more == schedule;
    } else {
      var shorter, a := more[..|more| - 1], more[|more| - 1];
      assert schedule + more == schedule + shorter + [a];
      ClosedOrExpired(mode, behaviour, schedule, shorter, c);
      SettledForever(mode, behaviour, schedule, shorter, c);
      ClosedStep(mode, behaviour, Exec(mode, behaviour, Init(), schedule + shorter), a, c);
      ExecNext(mode, behaviour, Init(), schedule + shorter, a);
    }
  }

  /** A call that was waiting still does, or has returned `ConnectionClosed` or `Timeout`. */
  predicate EndsClosed(before: Phase, after: Phase) {
    before == Waiting ==>
      after == Waiting || after == Finished(ConnectionClosed) || after == Finished(Timeout)
  }

  lemma ClosedStep(mode: Mode, behaviour: Behaviour, st: State, a: Action, c: nat)
    requires c < |st.calls| && (st.calls[c].sender == Dropped || st.calls[c].sender == Sent(ConnectionClosed, None))
    ensures var st' := Step(mode, behaviour, st, a);
            && c < |st'.calls| && EndsClosed(st.calls[c].phase, st'.calls[c].phase)
            && (st.calls[c].phase.Finished? ==> st'.calls[c].phase == st.calls[c].phase)
  {
    if Enabled(mode, behaviour, st, a) {
      match a
      case OfCall(x) => ClosedCall(mode, st, x, c);
      case OfConnect(x) => ConnectTouches(st, x);
      case OfHandler(x) => HandlerTouches(st, x);
      case OfClose(x) => CloseTouches(st, x);
      case OfServer(x) => ServerTouches(behaviour, st, x);
    }
  }

  lemma ClosedCall(mode: Mode, st: State, a: CallAction, c: nat)
    requires CallEnabled(mode, st, a)
    requires c < |st.calls| && (st.calls[c].sender == Dropped || st.calls[c].sender == Sent(ConnectionClosed, None))
    ensures var st' := CallStep(mode, st, a);
            && c < |st'.calls| && EndsClosed(st.calls[c].phase, st'.calls[c].phase)
            && (st.calls[c].phase.Finished? ==> st'.calls[c].phase == st.calls[c].phase)
  {
  }

  // Close.

  /** When `close` drains the pending map it leaves it empty, the slot and session empty,
      and every call that was in it told `ConnectionClosed` unless it had already returned;
      and nothing that happens later changes what those calls were told. */
  lemma CloseSettles(mode: Mode, behaviour: Behaviour, schedule: seq<Action>, id: u64, more: seq<Action>)
    requires var st := Exec(mode, behaviour, Init(), schedule); st.closing == SlotCleared && id in st.pending
    ensures var st := Exec(mode, behaviour, Init(), schedule);
            var drained := Exec(mode, behaviour, Init(), schedule + [OfClose(Drain)]);
            var later := Exec(mode, behaviour, Init(), schedule + [OfClose(Drain)] + more);
            var c := st.pending[id];
            && drained.pending == map[] && drained.slot == None && drained.session == None
            && c < |st.calls| && c < |later.calls|
            && later.calls[c].sender == (if st.calls[c].phase.Finished? then Dropped else Sent(ConnectionClosed, None))
            && (st.calls[c].phase == Waiting ==>
                  || later.calls[c].phase == Waiting
                  || later.calls[c].phase == Finished(ConnectionClosed)
                  || later.calls[c].phase == Finished(Timeout))
  {
    var st := Exec(mode, behaviour, Init(), schedule);
    var c := st.pending[id];
    InvReached(mode, behaviour, schedule);
    var closed := schedule + [OfClose(Drain)];
    assert closed[..|closed| - 1] == schedule;
    assert Exec(mode, behaviour, Init(), closed) == CloseStep(st, Drain);
    assert st.pending[id] in st.pending.Values;
    SettledForever(mode, behaviour, closed, more, c);
    ClosedOrExpired(mode, behaviour, closed, more, c);
  }

  // Accounting for the pending map.

  datatype Tally = Tally(registered: nat, overwritten: nat, removed: nat, drained: nat)

  function Tick(st: State, a: Action, tally: Tally): Tally {
    match a
    case OfCall(Register(c)) =>
      if CallIn(st, c, Allocated) then
        tally.(registered := tally.registered + 1,
               overwritten := tally.overwritten + if st.requests[c].id in st.pending then 1 else 0)
      else tally
    case OfHandler(RemovePending(h)) =>
      if HandlerHolds(st, h) && st.handlers[h].Decoding? && st.handlers[h].response.id in st.pending then
        tally.(removed := tally.removed + 1)
      else tally
    case OfClose(Drain) =>
      if st.closing == SlotCleared then tally.(drained := tally.drained + |st.pending|) else tally
    case _ => tally
  }

  /** How many registrations, overwrites, removals and drained entries a run has seen. */
  ghost function TallyOf(mode: Mode, behaviour: Behaviour, schedule: seq<Action>): Tally {
    if schedule == [] then Tally(0, 0, 0, 0)
    else
      var before := schedule[..|schedule| - 1];
      Tick(Exec(mode, behaviour, Init(), before), schedule[|schedule| - 1], TallyOf(mode, behaviour, before))
  }

  lemma CountedRegister(st: State, c: nat)
    requires Books(st) && CallIn(st, c, Allocated)
    ensures |Insert(st, c).pending| == |st.pending| + if st.requests[c].id in st.pending then 0 else 1
  {
    var id := st.requests[c].id;
    assert st.pending[id := c].Keys == st.pending.Keys + {id};
  }

  lemma CountedRemove(st: State, h: nat)
    requires Books(st) && h < |st.handlers| && st.handlers[h].Decoding?
    ensures |RemoveEntry(st, h).pending| == |st.pending| - if st.handlers[h].response.id in st.pending then 1 else 0
  {
    var id := st.handlers[h].response.id;
    if id in st.pending {
      assert (st.pending - {id}).Keys == st.pending.Keys - {id};
      assert |(st.pending - {id}).Keys| == |st.pending.Keys| - 1;
    }
  }

  lemma CountedCall(mode: Mode, st: State, a: CallAction)
    requires Books(st) && CallEnabled(mode, st, a)
    ensures |CallStep(mode, st, a).pending| ==
            |st.pending| + if a.Register? && st.requests[a.call].id !in st.pending then 1 else 0
  {
    if a.Register? {
      CountedRegister(st, a.call);
    }
  }

  lemma CountedHandler(st: State, a: HandlerAction)
    requires Books(st) && HandlerEnabled(st, a)
    ensures |HandlerStep(st, a).pending| ==
            |st.pending| - if a.RemovePending? && st.handlers[a.handler].response.id in st.pending then 1 else 0
  {
    if a.RemovePending? {
      CountedRemove(st, a.handler);
    }
  }

  lemma CountedStep(mode: Mode, behaviour: Behaviour, st: State, a: Action, tally: Tally)
    requires Books(st) && |st.pending| + tally.overwritten + tally.removed + tally.drained == tally.registered
    ensures var after := Tick(st, a, tally);
            |Step(mode, behaviour, st, a).pending| + after.overwritten + after.removed + after.drained ==
                after.registered
  {
    if Enabled(mode, behaviour, st, a) {
      match a
      case OfCall(x) => CountedCall(mode, st, x);
      case OfConnect(x) => ConnectTouches(st, x);
      case OfHandler(x) => CountedHandler(st, x);
      case OfClose(x) =>
      case OfServer(x) => ServerTouches(behaviour, st, x);
    }
  }

  // The calls whose entries remain.

  /** How a call may stand while nobody has used or dropped its channel: about to send,
      waiting, or back with an error that is not the channel's. */
  predicate MayRemain(phase: Phase) {
    match phase
    case Allocated => false
    case Registered => true
    case Waiting => true
    case Finished(outcome) =>
      outcome == EncodingError || outcome == ConnectionClosed || outcome == WebTransportError || outcome == Timeout
  }

  predicate Unsettled(call: Call) {
    call.sender.InPending? || call.sender.InHand?
  }

  ghost predicate Remaining(st: State) {
    forall c | 0 <= c < |st.calls| && Unsettled(st.calls[c]) :: MayRemain(st.calls[c].phase)
  }

  lemma RemainingCall(mode: Mode, st: State, a: CallAction)
    requires Remaining(st) && CallEnabled(mode, st, a)
    ensures Remaining(CallStep(mode, st, a))
  {
  }

  lemma RemainingHandler(st: State, a: HandlerAction)
    requires Books(st) && Remaining(st) && HandlerEnabled(st, a)
    ensures Remaining(HandlerStep(st, a))
  {
  }

  lemma RemainingClose(st: State, a: CloseAction)
    requires Remaining(st) && CloseEnabled(st, a)
    ensures Remaining(CloseStep(st, a))
  {
    CloseTouches(st, a);
  }

  lemma RemainingStep(mode: Mode, behaviour: Behaviour, st: State, a: Action)
    requires Books(st) && Remaining(st)
    ensures Remaining(Step(mode, behaviour, st, a))
  {
    if Enabled(mode, behaviour, st, a) {
      match a
      case OfCall(x) => RemainingCall(mode, st, x);
      case OfConnect(x) => ConnectTouches(st, x);
      case OfHandler(x) => RemainingHandler(st, x);
      case OfClose(x) => RemainingClose(st, x);
      case OfServer(x) => ServerTouches(behaviour, st, x);
    }
  }

  lemma {:induction false} RemainingReached(mode: Mode, behaviour: Behaviour, schedule: seq<Action>)
    ensures Remaining(Exec(mode, behaviour, Init(), schedule))
  {
    if schedule != [] {
      var before := schedule[..|schedule| - 1];
      RemainingReached(mode, behaviour, before);
      InvReached(mode, behaviour, before);
      RemainingStep(mode, behaviour, Exec(mode, behaviour, Init(), before), schedule[|schedule| - 1]);
    }
  }

  lemma {:induction false} PendingSize(mode: Mode, behaviour: Behaviour, schedule: seq<Action>)
    ensures var tally := TallyOf(mode, behaviour, schedule);
            |Exec(mode, behaviour, Init(), schedule).pending| + tally.overwritten + tally.removed + tally.drained ==
            tally.registered
  {
    if schedule != [] {
      var before := schedule[..|schedule| - 1];
      PendingSize(mode, behaviour, before);
      InvReached(mode, behaviour, before);
      CountedStep(mode, behaviour, Exec(mode, behaviour, Init(), before), schedule[|schedule| - 1],
                  TallyOf(mode, behaviour, before));
    }
  }

  /** The size of the pending map is exactly the registrations minus the overwritten,
      removed and drained entries; and each entry that is left is that of a call that has
      registered under that id, whose channel nobody has used, and that is about to send,
      waits, or came back with a failed encoding, a closed connection, a failed write or
      a timeout. */
  lemma PendingAccount(mode: Mode, behaviour: Behaviour, schedule: seq<Action>)
    ensures var st := Exec(mode, behaviour, Init(), schedule);
            var tally := TallyOf(mode, behaviour, schedule);
            && |st.pending| == tally.registered - tally.overwritten - tally.removed - tally.drained
            && forall id | id in st.pending ::
                 var c := st.pending[id];
                 && c < |st.calls| && c < |st.requests| && st.requests[c].id == id
                 && !Settled(st.calls[c]) && MayRemain(st.calls[c].phase)
  {
    InvReached(mode, behaviour, schedule);
    PendingSize(mode, behaviour, schedule);
    RemainingReached(mode, behaviour, schedule);
  }
}
