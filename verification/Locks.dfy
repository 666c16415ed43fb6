/** The client's four mutexes, the order in which its tasks take them, and what they wait
    for while they hold one (src/client.rs). Locks alone never deadlock, with any number of
    tasks; but two waits for the transport are made under a lock, and until they end, the
    tasks that want that lock stand still. */
module Locks {

  datatype Lock = SessionLock | StreamLock | PendingLock | IdLock

  /** `Await` waits for a message, a reply or a connection; `Send` until the transport takes
      a request; `CloseSession` until the session is closed. `Work` is local. */
  datatype Op = Acquire(lock: Lock) | Release(lock: Lock) | Await | Send | CloseSession | Work

  datatype Kind = CallTask | ConnectTask | CloseTask | HandlerTask(responses: nat)

  datatype Task = Task(kind: Kind, pc: nat)

  datatype LockState = LockState(tasks: seq<Task>, owner: map<Lock, nat>)

  function Guarded(lock: Lock, op: Op): seq<Op> {
    [Acquire(lock), op, Release(lock)]
  }

  /** One response: wait for it, look its sender up, send on it. */
  function Rounds(n: nat): seq<Op> {
    if n == 0 then [] else [Await] + Guarded(PendingLock, Work) + Rounds(n - 1)
  }

  /** The lock operations of each kind of task, in program order. A response handler may
      go round its loop any number of times. */
  function Program(kind: Kind): seq<Op> {
    match kind
    case CallTask =>
      Guarded(IdLock, Work) + Guarded(PendingLock, Work) + Guarded(StreamLock, Send) + [Await]
    case ConnectTask => [Await] + Guarded(SessionLock, Work) + Guarded(StreamLock, Work)
    case CloseTask =>
      [Acquire(SessionLock), CloseSession, Acquire(StreamLock), Acquire(PendingLock), Work,
       Release(PendingLock), Release(StreamLock), Release(SessionLock)]
    case HandlerTask(responses) =>
      Guarded(StreamLock, Work) + Rounds(responses) + [Await] + Guarded(StreamLock, Work)
  }

  /** What of a program other tasks can notice: the locks it takes and the waits for the network. */
  function Trace(program: seq<Op>): seq<Op> {
    if program == [] then []
    else
      match program[0]
      case Release(_) => Trace(program[1..])
      case Work => Trace(program[1..])
      case op => [op] + Trace(program[1..])
  }

  function Repeated(n: nat, ops: seq<Op>): seq<Op> {
    if n == 0 then [] else ops + Repeated(n - 1, ops)
  }

  lemma {:induction false} TraceConcat(p: seq<Op>, q: seq<Op>)
    ensures Trace(p + q) == Trace(p) + Trace(q)
  {
    if p == [] {
      assert p + q == q;
    } else {
      assert (p + q)[1..] == p[1..] + q;
      TraceConcat(p[1..], q);
    }
  }

  lemma TraceGuarded(lock: Lock, op: Op)
    requires op == Work || op == Send
    ensures Trace(Guarded(lock, op)) == if op == Work then [Acquire(lock)] else [Acquire(lock), Send]
  {
    var p := Guarded(lock, op);
    assert p[1..] == [op, Release(lock)] && p[1..][1..] == [Release(lock)] && p[1..][1..][1..] == [];
    assert Trace(p[1..][1..]) == [];
  }

  lemma TraceOne(op: Op)
    requires op.Await?
    ensures Trace([op]) == [op]
  {
    assert [op][1..] == [];
  }

  lemma {:induction false} TraceRounds(n: nat)
    ensures Trace(Rounds(n)) == Repeated(n, [Await, Acquire(PendingLock)])
  {
    if n > 0 {
      TraceOne(Await);
      TraceGuarded(PendingLock, Work);
      TraceRounds(n - 1);
      TraceConcat([Await], Guarded(PendingLock, Work));
      TraceConcat([Await] + Guarded(PendingLock, Work), Rounds(n - 1));
    }
  }

  /** Which locks each kind of task takes, and where it waits for the network, in order. */
  lemma Traces(kind: Kind)
    ensures Trace(Program(kind)) ==
            match kind
            case CallTask => [Acquire(IdLock), Acquire(PendingLock), Acquire(StreamLock), Send, Await]
            case ConnectTask => [Await, Acquire(SessionLock), Acquire(StreamLock)]
            case CloseTask => [Acquire(SessionLock), CloseSession, Acquire(StreamLock), Acquire(PendingLock)]
            case HandlerTask(n) =>
              [Acquire(StreamLock)] + Repeated(n, [Await, Acquire(PendingLock)]) + [Await, Acquire(StreamLock)]
  {
    TraceOne(Await);
    TraceGuarded(StreamLock, Work);
    match kind
    case CallTask => TraceCall();
    case ConnectTask =>
      TraceGuarded(SessionLock, Work);
      TraceConcat([Await], Guarded(SessionLock, Work));
      TraceConcat([Await] + Guarded(SessionLock, Work), Guarded(StreamLock, Work));
    case CloseTask => TraceClose();
    case HandlerTask(n) =>
      TraceRounds(n);
      TraceConcat(Guarded(StreamLock, Work), Rounds(n));
      TraceConcat(Guarded(StreamLock, Work) + Rounds(n), [Await]);
      TraceConcat(Guarded(StreamLock, Work) + Rounds(n) + [Await], Guarded(StreamLock, Work));
  }

  lemma TraceCall()
    ensures Trace(Program(CallTask)) == [Acquire(IdLock), Acquire(PendingLock), Acquire(StreamLock), Send, Await]
  {
    var ids, entries, sending := Guarded(IdLock, Work), Guarded(PendingLock, Work), Guarded(StreamLock, Send);
    TraceGuarded(IdLock, Work);
    TraceGuarded(PendingLock, Work);
    TraceGuarded(StreamLock, Send);
    TraceOne(Await);
    TraceConcat(ids, entries);
    TraceConcat(ids + entries, sending);
    TraceConcat(ids + entries + sending, [Await]);
  }

  lemma TraceClose()
    ensures Trace(Program(CloseTask)) ==
            [Acquire(SessionLock), CloseSession, Acquire(StreamLock), Acquire(PendingLock)]
  {
    var releases := [Release(PendingLock), Release(StreamLock), Release(SessionLock)];
    var taking := [Acquire(SessionLock), CloseSession, Acquire(StreamLock), Acquire(PendingLock), Work];
    assert Program(CloseTask) == taking + releases;
    TraceConcat(taking, releases);
    assert releases[1..] == [Release(StreamLock), Release(SessionLock)] && releases[1..][1..] == [Release(SessionLock)];
    assert Trace(releases[1..][1..]) == [];
    assert Trace(releases) == [];
    assert taking == [taking[0]] + ([taking[1]] + ([taking[2]] + ([taking[3]] + [Work])));
    assert Trace([Work]) == [] && Trace([taking[3]] + [Work]) == [taking[3]];
  }

  /** `close` works on the pending map holding the session, stream and pending locks at
      once, and gives none back before. */
  lemma CloseKeepsLocks(pc: nat)
    requires pc <= 5
    ensures Held(Program(CloseTask), pc) ==
            if pc == 0 then {}
            else if pc <= 2 then {SessionLock}
            else if pc == 3 then {SessionLock, StreamLock}
            else {SessionLock, StreamLock, PendingLock}
  {
    var p := Program(CloseTask);
    assert Held(p, 1) == {SessionLock};
    assert Held(p, 2) == {SessionLock};
    assert Held(p, 3) == {SessionLock, StreamLock};
    assert Held(p, 4) == {SessionLock, StreamLock, PendingLock};
  }

  /** The locks held after the first `pc` operations. */
  function Held(program: seq<Op>, pc: nat): set<Lock>
    requires pc <= |program|
  {
    if pc == 0 then {}
    else
      match program[pc - 1]
      case Acquire(lock) => Held(program, pc - 1) + {lock}
      case Release(lock) => Held(program, pc - 1) - {lock}
      case _ => Held(program, pc - 1)
  }

  function Rank(lock: Lock): nat {
    match lock
    case SessionLock => 0
    case StreamLock => 1
    case PendingLock => 2
    case IdLock => 3
  }

  predicate Finished(task: Task) {
    task.pc >= |Program(task.kind)|
  }

  function NextOp(task: Task): Op
    requires !Finished(task)
  {
    Program(task.kind)[task.pc]
  }

  function HeldBy(task: Task): set<Lock> {
    if Finished(task) then {} else Held(Program(task.kind), task.pc)
  }

  datatype LockAction = Spawn(kind: Kind) | Advance(task: nat) | Abort(task: nat)

  /** Task `t` waits for a lock somebody holds. */
  predicate Blocked(st: LockState, t: nat) {
    && t < |st.tasks| && !Finished(st.tasks[t])
    && NextOp(st.tasks[t]).Acquire? && NextOp(st.tasks[t]).lock in st.owner
  }

  predicate CanAdvance(st: LockState, t: nat) {
    t < |st.tasks| && !Finished(st.tasks[t]) && !Blocked(st, t)
  }

  /** Running a task: it takes a free lock, gives one back, or works. Aborting it - an
      early error return, or a dropped future - gives back all it holds. */
  function LockStep(st: LockState, a: LockAction): LockState {
    match a
    case Spawn(kind) => st.(tasks := st.tasks + [Task(kind, 0)])
    case Advance(t) =>
      if !CanAdvance(st, t) then st
      else
        var task := st.tasks[t];
        var tasks := st.tasks[t := task.(pc := task.pc + 1)];
        (match NextOp(task)
         case Acquire(lock) => LockState(tasks, st.owner[lock := t])
         case Release(lock) => LockState(tasks, st.owner - {lock})
         case _ => LockState(tasks, st.owner))
    case Abort(t) =>
      if t >= |st.tasks| then st
      else
        LockState(st.tasks[t := st.tasks[t].(pc := |Program(st.tasks[t].kind)|)],
                  map lock | lock in st.owner && st.owner[lock] != t :: st.owner[lock])
  }

  function LockRun(schedule: seq<LockAction>): LockState {
    if schedule == [] then LockState([], map[])
    else LockStep(LockRun(schedule[..|schedule| - 1]), schedule[|schedule| - 1])
  }

  // Every program takes locks in rank order, waits for the network with none but in two
  // places, and ends with none.

  ghost predicate OpOrdered(program: seq<Op>, i: nat)
    requires i < |program|
  {
    match program[i]
    case Acquire(lock) => forall held | held in Held(program, i) :: Rank(held) < Rank(lock)
    case Release(lock) => lock in Held(program, i)
    case Await => Held(program, i) == {}
    case Send => Held(program, i) == {StreamLock}
    case CloseSession => Held(program, i) == {SessionLock}
    case Work => true
  }

  ghost predicate Ordered(program: seq<Op>) {
    && (forall i | 0 <= i < |program| :: OpOrdered(program, i))
    && Held(program, |program|) == {}
  }

  lemma {:induction false} HeldPrefix(p: seq<Op>, q: seq<Op>, i: nat)
    requires i <= |p|
    ensures Held(p + q, i) == Held(p, i)
  {
    if i > 0 {
      HeldPrefix(p, q, i - 1);
    }
  }

  lemma {:induction false} HeldSuffix(p: seq<Op>, q: seq<Op>, i: nat)
    requires i <= |q| && Held(p, |p|) == {}
    ensures Held(p + q, |p| + i) == Held(q, i)
  {
    if i == 0 {
      HeldPrefix(p, q, |p|);
    } else {
      HeldSuffix(p, q, i - 1);
      assert (p + q)[|p| + i - 1] == q[i - 1];
    }
  }

  lemma OrderedConcat(p: seq<Op>, q: seq<Op>)
    requires Ordered(p) && Ordered(q)
    ensures Ordered(p + q)
  {
    forall i | 0 <= i < |p + q|
      ensures OpOrdered(p + q, i)
    {
      if i < |p| {
        HeldPrefix(p, q, i);
        assert OpOrdered(p, i);
      } else {
        HeldSuffix(p, q, i - |p|);
        assert OpOrdered(q, i - |p|);
      }
    }
    HeldSuffix(p, q, |q|);
  }

  lemma OrderedGuarded(lock: Lock, op: Op)
    requires op == Work || (op == Send && lock == StreamLock)
    ensures Ordered(Guarded(lock, op))
  {
    var p := Guarded(lock, op);
    assert Held(p, 1) == {lock} && Held(p, 2) == {lock} && Held(p, 3) == {};
  }

  lemma OrderedAwait()
    ensures Ordered([Await])
  {
    assert Held([Await], 1) == {};
  }

  lemma {:induction false} OrderedRounds(n: nat)
    ensures Ordered(Rounds(n))
  {
    if n > 0 {
      OrderedAwait();
      OrderedGuarded(PendingLock, Work);
      OrderedConcat([Await], Guarded(PendingLock, Work));
      OrderedRounds(n - 1);
      OrderedConcat([Await] + Guarded(PendingLock, Work), Rounds(n - 1));
    }
  }

  lemma OrderedClose()
    ensures Ordered(Program(CloseTask))
  {
    var p := Program(CloseTask);
    assert Held(p, 1) == {SessionLock};
    assert Held(p, 2) == {SessionLock};
    assert Held(p, 3) == {SessionLock, StreamLock};
    assert Held(p, 4) == {SessionLock, StreamLock, PendingLock};
    assert Held(p, 5) == {SessionLock, StreamLock, PendingLock};
    assert Held(p, 6) == {SessionLock, StreamLock};
    assert Held(p, 7) == {SessionLock};
    assert Held(p, 8) == {};
  }

  lemma OrderedCall()
    ensures Ordered(Program(CallTask))
  {
    var ids, entries, sending := Guarded(IdLock, Work), Guarded(PendingLock, Work), Guarded(StreamLock, Send);
    OrderedGuarded(IdLock, Work);
    OrderedGuarded(PendingLock, Work);
    OrderedGuarded(StreamLock, Send);
    OrderedAwait();
    OrderedConcat(ids, entries);
    OrderedConcat(ids + entries, sending);
    OrderedConcat(ids + entries + sending, [Await]);
  }

  lemma OrderedConnect()
    ensures Ordered(Program(ConnectTask))
  {
    OrderedGuarded(SessionLock, Work);
    OrderedGuarded(StreamLock, Work);
    OrderedAwait();
    OrderedConcat([Await], Guarded(SessionLock, Work));
    OrderedConcat([Await] + Guarded(SessionLock, Work), Guarded(StreamLock, Work));
  }

  lemma OrderedHandler(responses: nat)
    ensures Ordered(Program(HandlerTask(responses)))
  {
    var take := Guarded(StreamLock, Work);
    OrderedGuarded(StreamLock, Work);
    OrderedRounds(responses);
    OrderedAwait();
    OrderedConcat(take, Rounds(responses));
    OrderedConcat(take + Rounds(responses), [Await]);
    OrderedConcat(take + Rounds(responses) + [Await], take);
  }

  /** Every program takes every lock above those it holds in the order session, stream,
      pending, id; it waits for messages and replies holding none, for a write holding the
      stream lock alone and for the close of the session holding the session lock alone;
      and it ends with none. */
  lemma ProgramsOrdered(kind: Kind)
    ensures Ordered(Program(kind))
  {
    match kind
    case CallTask => OrderedCall();
    case ConnectTask => OrderedConnect();
    case CloseTask => OrderedClose();
    case HandlerTask(responses) => OrderedHandler(responses);
  }

  // The owner map says exactly what the tasks hold.

  function HeldSets(tasks: seq<Task>): (held: seq<set<Lock>>)
    ensures |held| == |tasks| && forall t | 0 <= t < |tasks| :: held[t] == HeldBy(tasks[t])
  {
    seq(|tasks|, t requires 0 <= t < |tasks| => HeldBy(tasks[t]))
  }

  predicate Owns(owner: map<Lock, nat>, t: nat, lock: Lock) {
    lock in owner && owner[lock] == t
  }

  ghost predicate Matches(held: seq<set<Lock>>, owner: map<Lock, nat>) {
    && (forall lock | lock in owner :: owner[lock] < |held|)
    && (forall t, lock | 0 <= t < |held| :: lock in held[t] <==> Owns(owner, t, lock))
  }

  ghost predicate Owned(st: LockState) {
    Matches(HeldSets(st.tasks), st.owner)
  }

  /** What one operation does to what its task holds. */
  lemma HeldAfter(task: Task)
    requires !Finished(task)
    ensures var after := HeldBy(task.(pc := task.pc + 1));
            match NextOp(task)
            case Acquire(lock) => after == HeldBy(task) + {lock}
            case Release(lock) => after == HeldBy(task) - {lock} && lock in HeldBy(task)
            case _ => after == HeldBy(task)
  {
    ProgramsOrdered(task.kind);
    assert OpOrdered(Program(task.kind), task.pc);
    assert Held(Program(task.kind), task.pc + 1) ==
      match NextOp(task)
      case Acquire(lock) => HeldBy(task) + {lock}
      case Release(lock) => HeldBy(task) - {lock}
      case _ => HeldBy(task);
  }

  lemma OwnedSpawn(st: LockState, kind: Kind)
    requires Owned(st)
    ensures Owned(LockStep(st, Spawn(kind)))
  {
    assert HeldBy(Task(kind, 0)) == {};
    assert HeldSets(st.tasks + [Task(kind, 0)]) == HeldSets(st.tasks) + [{}];
  }

  lemma OwnedAdvance(st: LockState, t: nat)
    requires Owned(st) && CanAdvance(st, t)
    ensures Owned(LockStep(st, Advance(t)))
  {
    var task := st.tasks[t];
    var after := task.(pc := task.pc + 1);
    HeldAfter(task);
    var held := HeldSets(st.tasks);
    assert HeldSets(st.tasks[t := after]) == held[t := HeldBy(after)];
    assert forall lock | lock in held[t] :: Owns(st.owner, t, lock);
  }

  lemma OwnedAbort(st: LockState, t: nat)
    requires Owned(st) && t < |st.tasks|
    ensures Owned(LockStep(st, Abort(t)))
  {
    var after := st.tasks[t].(pc := |Program(st.tasks[t].kind)|);
    assert HeldSets(st.tasks[t := after]) == HeldSets(st.tasks)[t := {}];
  }

  lemma OwnedStep(st: LockState, a: LockAction)
    requires Owned(st)
    ensures Owned(LockStep(st, a))
  {
    match a
    case Spawn(kind) => OwnedSpawn(st, kind);
    case Advance(t) =>
      if CanAdvance(st, t) {
        OwnedAdvance(st, t);
      }
    case Abort(t) =>
      if t < |st.tasks| {
        OwnedAbort(st, t);
      }
  }

  lemma {:induction false} OwnedReached(schedule: seq<LockAction>)
    ensures Owned(LockRun(schedule))
  {
    if schedule != [] {
      OwnedReached(schedule[..|schedule| - 1]);
      OwnedStep(LockRun(schedule[..|schedule| - 1]), schedule[|schedule| - 1]);
    }
  }

  /** Task `t` waits for a lock that task `u` holds. */
  predicate WaitsFor(st: LockState, t: nat, u: nat) {
    Blocked(st, t) && st.owner[NextOp(st.tasks[t]).lock] == u
  }

  /** Task `u` can go on by itself: it has local work to do, a lock to give back, or a free
      lock to take. */
  predicate CanGoOn(st: LockState, u: nat) {
    && CanAdvance(st, u)
    && var op := NextOp(st.tasks[u]);
       op.Work? || op.Release? || op.Acquire?
  }

  /** Task `u` waits for the transport and holds the one lock that goes with that wait. */
  predicate InTransport(st: LockState, u: nat) {
    && u < |st.tasks| && !Finished(st.tasks[u])
    && match NextOp(st.tasks[u])
       case Send => HeldBy(st.tasks[u]) == {StreamLock}
       case CloseSession => HeldBy(st.tasks[u]) == {SessionLock}
       case _ => false
  }

  /** What a task that holds a lock and does not wait for one is doing. */
  lemma HolderGoesOn(st: LockState, u: nat, lock: Lock)
    requires Owned(st) && lock in st.owner && st.owner[lock] == u && !Blocked(st, u)
    ensures CanGoOn(st, u) || InTransport(st, u)
  {
    assert Owns(st.owner, u, lock);
    assert lock in HeldSets(st.tasks)[u];
    ProgramsOrdered(st.tasks[u].kind);
    assert OpOrdered(Program(st.tasks[u].kind), st.tasks[u].pc);
  }

  /** Whoever holds the lock a task waits for waits, if at all, for a higher one. */
  lemma RankClimbs(st: LockState, t: nat, u: nat)
    requires Owned(st) && WaitsFor(st, t, u) && Blocked(st, u)
    ensures Rank(NextOp(st.tasks[t]).lock) < Rank(NextOp(st.tasks[u]).lock)
  {
    var lock := NextOp(st.tasks[t]).lock;
    assert Owns(st.owner, u, lock);
    assert lock in HeldSets(st.tasks)[u];
    ProgramsOrdered(st.tasks[u].kind);
    assert OpOrdered(Program(st.tasks[u].kind), st.tasks[u].pc);
  }

  /** A chain of tasks, each waiting for a lock the next one holds, whose last waits for none. */
  predicate WaitChain(st: LockState, chain: seq<nat>) {
    && |chain| > 1
    && (forall i | 0 <= i < |chain| - 1 :: WaitsFor(st, chain[i], chain[i + 1]))
    && !Blocked(st, chain[|chain| - 1])
  }

  lemma ChainLonger(st: LockState, t: nat, chain: seq<nat>)
    requires WaitChain(st, chain) && WaitsFor(st, t, chain[0])
    ensures WaitChain(st, [t] + chain)
  {
  }

  /** The chain that starts at a blocked task climbs in rank, so it has at most four locks,
      and it ends at a holder that can go on by itself or waits for the transport. */
  lemma {:induction false} ChainFrom(st: LockState, t: nat) returns (chain: seq<nat>)
    requires Owned(st) && Blocked(st, t)
    ensures WaitChain(st, chain) && chain[0] == t && |chain| <= 5 - Rank(NextOp(st.tasks[t]).lock)
    ensures CanGoOn(st, chain[|chain| - 1]) || InTransport(st, chain[|chain| - 1])
    decreases 4 - Rank(NextOp(st.tasks[t]).lock)
  {
    var u := st.owner[NextOp(st.tasks[t]).lock];
    if Blocked(st, u) {
      RankClimbs(st, t, u);
      var rest := ChainFrom(st, u);
      ChainLonger(st, t, rest);
      chain := [t] + rest;
    } else {
      HolderGoesOn(st, u, NextOp(st.tasks[t]).lock);
      chain := [t, u];
    }
  }

  /** Deadlock freedom, for any number of calls, connects, closes and handlers in any
      interleaving: from every task that waits for a lock, a chain of waits leads to a lock
      holder that can go on by itself, or waits for the transport to take a request or to
      close the session - never to one that waits for a message, a reply or another lock. */
  lemma NoDeadlock(schedule: seq<LockAction>, t: nat)
    requires Blocked(LockRun(schedule), t)
    ensures var st := LockRun(schedule);
            exists chain: seq<nat> ::
              && WaitChain(st, chain) && chain[0] == t && |chain| <= 5
              && (CanGoOn(st, chain[|chain| - 1]) || InTransport(st, chain[|chain| - 1]))
  {
    OwnedReached(schedule);
    var chain := ChainFrom(LockRun(schedule), t);
  }

  lemma RunNext(schedule: seq<LockAction>, a: LockAction)
    ensures LockRun(schedule + [a]) == LockStep(LockRun(schedule), a)
  {
    assert (schedule + [a])[..|schedule|] == schedule;
  }

  /** What a call alone holds after its first `pc` operations. */
  function CallOwner(pc: nat): map<Lock, nat> {
    if pc == 1 || pc == 2 then map[IdLock := 0]
    else if pc == 4 || pc == 5 then map[PendingLock := 0]
    else if pc == 7 then map[StreamLock := 0]
    else map[]
  }

  /** A call by itself gets as far as writing its request. */
  lemma CallSends() returns (schedule: seq<LockAction>)
    ensures LockRun(schedule) == LockState([Task(CallTask, 7)], map[StreamLock := 0])
  {
    RunNext([], Spawn(CallTask));
    schedule := [Spawn(CallTask)];
    assert [] + schedule == schedule;
    var pc: nat := 0;
    while pc < 7
      invariant pc <= 7 && LockRun(schedule) == LockState([Task(CallTask, pc)], CallOwner(pc))
    {
      RunNext(schedule, Advance(0));
      CallAdvances(pc);
      schedule := schedule + [Advance(0)];
      pc := pc + 1;
    }
  }

  lemma CallAdvances(pc: nat)
    requires pc < 7
    ensures LockStep(LockState([Task(CallTask, pc)], CallOwner(pc)), Advance(0)) ==
            LockState([Task(CallTask, pc + 1)], CallOwner(pc + 1))
  {
    assert Program(CallTask) ==
           [Acquire(IdLock), Work, Release(IdLock), Acquire(PendingLock), Work, Release(PendingLock),
            Acquire(StreamLock), Send, Release(StreamLock), Await];
  }

  /** The exception is real: in some run a response handler waits for the stream lock of a
      call whose write the transport has not taken, and no task can go on by itself. */
  lemma SendHoldsUpHandler(responses: nat)
    ensures exists schedule: seq<LockAction> ::
              var st := LockRun(schedule);
              && |st.tasks| == 2 && st.tasks[1].kind == HandlerTask(responses)
              && InTransport(st, 0) && WaitsFor(st, 1, 0)
              && forall u: nat :: !CanGoOn(st, u)
  {
    var sending := CallSends();
    var schedule := sending + [Spawn(HandlerTask(responses))];
    RunNext(sending, Spawn(HandlerTask(responses)));
    var st := LockRun(schedule);
    assert st == LockState([Task(CallTask, 7), Task(HandlerTask(responses), 0)], map[StreamLock := 0]);
    WaitHolds(st.tasks[0]);
    assert NextOp(st.tasks[0]) == Send;
    assert NextOp(st.tasks[1]) == Acquire(StreamLock);
  }

  /** What a task that waits for the network holds: nothing, when it waits for a message, a
      reply or a connection; exactly the stream lock, when it waits for a write; exactly the
      session lock, when it waits for the session to close. */
  lemma NetworkWaitHolds(schedule: seq<LockAction>, t: nat)
    requires t < |LockRun(schedule).tasks| && !Finished(LockRun(schedule).tasks[t])
    requires var op := NextOp(LockRun(schedule).tasks[t]); op.Await? || op.Send? || op.CloseSession?
    ensures var st := LockRun(schedule);
            forall lock :: Owns(st.owner, t, lock) <==>
                             || (NextOp(st.tasks[t]).Send? && lock == StreamLock)
                             || (NextOp(st.tasks[t]).CloseSession? && lock == SessionLock)
  {
    OwnedReached(schedule);
    WaitHolds(LockRun(schedule).tasks[t]);
    OwnsHeld(LockRun(schedule), t);
  }

  lemma WaitHolds(task: Task)
    requires !Finished(task)
    ensures NextOp(task).Await? ==> HeldBy(task) == {}
    ensures NextOp(task).Send? ==> HeldBy(task) == {StreamLock}
    ensures NextOp(task).CloseSession? ==> HeldBy(task) == {SessionLock}
  {
    ProgramsOrdered(task.kind);
    assert OpOrdered(Program(task.kind), task.pc);
  }

  lemma OwnsHeld(st: LockState, t: nat)
    requires Owned(st) && t < |st.tasks|
    ensures forall lock :: lock in HeldBy(st.tasks[t]) <==> Owns(st.owner, t, lock)
  {
    assert HeldSets(st.tasks)[t] == HeldBy(st.tasks[t]);
  }
}
