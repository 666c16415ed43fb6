/** Why a call returns what it returns, and what has been written where: both read off the
    schedule, for every run. */
module Outcomes {
  import opened Rpc
  import opened Dispatch
  import opened Protocol
  import opened Invariants
  import opened Correlation
  import opened Callers

  // Outcomes.

  /** What a caller that finds its channel settled returns: the reply when it decodes, the
      failure it was sent, or `ConnectionClosed` when the sender is gone. */
  predicate Observed(sender: Sender, decodes: bool, outcome: Outcome) {
    match sender
    case Sent(Answer(bytes), _) => outcome == if decodes then Answer(bytes) else DecodingError
    case Sent(value, _) => outcome == value
    case Dropped => outcome == ConnectionClosed
    case _ => false
  }

  /** In state `st` the action ends call `c` with `outcome`. */
  predicate Ends(mode: Mode, st: State, a: Action, c: nat, outcome: Outcome) {
    && c < |st.calls|
    && match a
       case OfCall(FailEncoding(d)) => d == c && st.calls[c].phase == Registered && outcome == EncodingError
       case OfCall(RefuseSend(d)) =>
         && d == c && st.calls[c].phase == Registered && st.slot == None && st.closing != SlotCleared
         && outcome == ConnectionClosed
       case OfCall(BreakSend(d, s, _)) =>
         d == c && st.calls[c].phase == Registered && CanSend(mode, st, s) && outcome == WebTransportError
       case OfCall(Expire(d)) => d == c && st.calls[c].phase == Waiting && outcome == Timeout
       case OfCall(Observe(d, decodes)) =>
         d == c && st.calls[c].phase == Waiting && Observed(st.calls[c].sender, decodes, outcome)
       case _ => false
  }

  ghost predicate EndedAt(mode: Mode, behaviour: Behaviour, schedule: seq<Action>, i: nat, c: nat, outcome: Outcome) {
    i < |schedule| && Ends(mode, Exec(mode, behaviour, Init(), schedule[..i]), schedule[i], c, outcome)
  }

  lemma EndsByCall(mode: Mode, st: State, a: CallAction, c: nat, outcome: Outcome)
    requires Ids(st) && CallEnabled(mode, st, a) && c < |CallStep(mode, st, a).calls|
    ensures CallStep(mode, st, a).calls[c].phase == Finished(outcome) <==>
            (c < |st.calls| && st.calls[c].phase == Finished(outcome)) || Ends(mode, st, OfCall(a), c, outcome)
  {
  }

  /** A step leaves a call finished with `outcome` exactly when it was so already or the
      step ends it so. */
  lemma EndsByStep(mode: Mode, behaviour: Behaviour, st: State, a: Action, c: nat, outcome: Outcome)
    requires Ids(st) && Enabled(mode, behaviour, st, a) && c < |Apply(mode, behaviour, st, a).calls|
    ensures Apply(mode, behaviour, st, a).calls[c].phase == Finished(outcome) <==>
            (c < |st.calls| && st.calls[c].phase == Finished(outcome)) || Ends(mode, st, a, c, outcome)
  {
    match a
    case OfCall(x) => EndsByCall(mode, st, x, c, outcome);
    case OfConnect(x) => ConnectTouches(st, x);
    case OfHandler(x) => HandlerTouches(st, x);
    case OfClose(x) => CloseTouches(st, x);
    case OfServer(x) => ServerTouches(behaviour, st, x);
  }

  lemma EndsEnabled(mode: Mode, behaviour: Behaviour, st: State, a: Action, c: nat, outcome: Outcome)
    requires Ids(st) && Ends(mode, st, a, c, outcome)
    ensures Enabled(mode, behaviour, st, a)
  {
  }

  lemma {:induction false} EndedSomewhere(mode: Mode, behaviour: Behaviour, schedule: seq<Action>, c: nat,
                                          outcome: Outcome) returns (i: nat)
    requires c < |Exec(mode, behaviour, Init(), schedule).calls|
    requires Exec(mode, behaviour, Init(), schedule).calls[c].phase == Finished(outcome)
    ensures EndedAt(mode, behaviour, schedule, i, c, outcome)
  {
    var before, a := schedule[..|schedule| - 1], schedule[|schedule| - 1];
    var st := Exec(mode, behaviour, Init(), before);
    InvReached(mode, behaviour, before);
    if Enabled(mode, behaviour, st, a) {
      EndsByStep(mode, behaviour, st, a, c, outcome);
    }
    if c < |st.calls| && st.calls[c].phase == Finished(outcome) {
      i := EndedSomewhere(mode, behaviour, before, c, outcome);
      assert before[..i] == schedule[..i];
    } else {
      i := |before|;
    }
  }

  lemma EndedNow(mode: Mode, behaviour: Behaviour, schedule: seq<Action>, i: nat, c: nat, outcome: Outcome)
    requires EndedAt(mode, behaviour, schedule, i, c, outcome)
    ensures c < |Exec(mode, behaviour, Init(), schedule[..i + 1]).calls|
    ensures Exec(mode, behaviour, Init(), schedule[..i + 1]).calls[c].phase == Finished(outcome)
  {
    var st := Exec(mode, behaviour, Init(), schedule[..i]);
    InvReached(mode, behaviour, schedule[..i]);
    ExecNext(mode, behaviour, Init(), schedule[..i], schedule[i]);
    assert schedule[..i + 1] == schedule[..i] + [schedule[i]];
    EndsEnabled(mode, behaviour, st, schedule[i], c, outcome);
    SettledStep(mode, behaviour, st, schedule[i], c);
    EndsByStep(mode, behaviour, st, schedule[i], c, outcome);
  }

  lemma EndedForever(mode: Mode, behaviour: Behaviour, schedule: seq<Action>, i: nat, c: nat, outcome: Outcome)
    requires EndedAt(mode, behaviour, schedule, i, c, outcome)
    ensures c < |Exec(mode, behaviour, Init(), schedule).calls|
    ensures Exec(mode, behaviour, Init(), schedule).calls[c].phase == Finished(outcome)
  {
    EndedNow(mode, behaviour, schedule, i, c, outcome);
    assert schedule[..i + 1] + schedule[i + 1..] == schedule;
    SettledForever(mode, behaviour, schedule[..i + 1], schedule[i + 1..], c);
  }

  /** A call has returned an outcome exactly when some step of the run ended it so: a failed
      encoding, a send refused for want of a stream, a failed write, the timer, or the
      channel - which tells the reply, the failure it carries, or, its sender gone, that the
      connection is closed. */
  lemma OutcomeIff(mode: Mode, behaviour: Behaviour, schedule: seq<Action>, c: nat, outcome: Outcome)
    requires c < |Exec(mode, behaviour, Init(), schedule).calls|
    ensures Exec(mode, behaviour, Init(), schedule).calls[c].phase == Finished(outcome) <==>
            exists i: nat :: EndedAt(mode, behaviour, schedule, i, c, outcome)
  {
    if Exec(mode, behaviour, Init(), schedule).calls[c].phase == Finished(outcome) {
      var i := EndedSomewhere(mode, behaviour, schedule, c, outcome);
    }
    forall i: nat | EndedAt(mode, behaviour, schedule, i, c, outcome)
      ensures Exec(mode, behaviour, Init(), schedule).calls[c].phase == Finished(outcome)
    {
      EndedForever(mode, behaviour, schedule, i, c, outcome);
    }
  }

  // Writes.

  /** The calls an action writes to stream `s`. */
  function WrittenBy(mode: Mode, st: State, a: Action, s: nat): seq<nat> {
    match a
    case OfCall(Send(c, t)) => if t == s && CallIn(st, c, Registered) && CanSend(mode, st, s) then [c] else []
    case OfCall(BreakSend(c, t, arrived)) =>
      if t == s && arrived && CallIn(st, c, Registered) && CanSend(mode, st, s) then [c] else []
    case _ => []
  }

  /** The calls a schedule writes to stream `s`, in order: those that send, and those whose
      write fails after the request has arrived. */
  ghost function WritesOf(mode: Mode, behaviour: Behaviour, schedule: seq<Action>, s: nat): seq<nat> {
    if schedule == [] then []
    else
      var before := schedule[..|schedule| - 1];
      WritesOf(mode, behaviour, before, s)
      + WrittenBy(mode, Exec(mode, behaviour, Init(), before), schedule[|schedule| - 1], s)
  }

  function SendersOf(st: State, s: nat): seq<nat> {
    if s < |st.streams| then st.streams[s].senders else []
  }

  lemma SendersByCall(mode: Mode, st: State, a: CallAction, s: nat)
    requires CallEnabled(mode, st, a)
    ensures SendersOf(CallStep(mode, st, a), s) == SendersOf(st, s) + WrittenBy(mode, st, OfCall(a), s)
  {
  }

  lemma SendersByStep(mode: Mode, behaviour: Behaviour, st: State, a: Action, s: nat)
    ensures SendersOf(Step(mode, behaviour, st, a), s) == SendersOf(st, s) + WrittenBy(mode, st, a, s)
  {
    if Enabled(mode, behaviour, st, a) {
      match a
      case OfCall(x) => SendersByCall(mode, st, x, s);
      case OfConnect(x) => ConnectTouches(st, x);
      case OfHandler(x) => HandlerTouches(st, x);
      case OfClose(x) => CloseTouches(st, x);
      case OfServer(x) => ServerTouches(behaviour, st, x);
    }
  }

  lemma {:induction false} SendersReached(mode: Mode, behaviour: Behaviour, schedule: seq<Action>, s: nat)
    ensures SendersOf(Exec(mode, behaviour, Init(), schedule), s) == WritesOf(mode, behaviour, schedule, s)
  {
    if schedule != [] {
      var before := schedule[..|schedule| - 1];
      SendersReached(mode, behaviour, before, s);
      SendersByStep(mode, behaviour, Exec(mode, behaviour, Init(), before), schedule[|schedule| - 1], s);
    }
  }

  /** What has been written to a stream, in order, is what the calls that wrote to it asked
      for, each under its own id. */
  lemma WrittenAsAsked(mode: Mode, behaviour: Behaviour, schedule: seq<Action>, s: nat, k: nat)
    requires s < |Exec(mode, behaviour, Init(), schedule).streams|
    requires k < |WritesOf(mode, behaviour, schedule, s)|
    ensures var st := Exec(mode, behaviour, Init(), schedule);
            var c := WritesOf(mode, behaviour, schedule, s)[k];
            && st.streams[s].senders == WritesOf(mode, behaviour, schedule, s) && c < |st.requests|
            && exists i: nat ::
                 AskedAt(mode, behaviour, schedule, i, c, st.requests[c].methodName, st.requests[c].payload)
  {
    SendersReached(mode, behaviour, schedule, s);
    InvReached(mode, behaviour, schedule);
    var st := Exec(mode, behaviour, Init(), schedule);
    assert StreamOk(behaviour, st.requests, st.registries, st.streams[s]);
    var c := st.streams[s].senders[k];
    var i, methodName, payload := AskedSomewhere(mode, behaviour, schedule, c);
    AskedRequest(mode, behaviour, schedule, i, c, methodName, payload);
  }
}
