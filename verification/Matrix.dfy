/** The parallel matrix product of examples/rpc_server.rs: one task per row, all writing a
    shared result. The arithmetic is left uninterpreted, so what is proved does not depend
    on sums being associative and holds of floating point too. */
module Matrix {

  datatype Arith<!T> = Arith(zero: T, add: (T, T) -> T, mul: (T, T) -> T)

  type Table<T> = seq<seq<T>>

  /** The first `size` rows have at least `size` columns. */
  predicate Covers<T>(a: Table<T>, size: nat) {
    size <= |a| && forall i | 0 <= i < size :: size <= |a[i]|
  }

  /** The sum of the first `k` products of row `i` and column `j`, added left to right. */
  function Dot<T>(ar: Arith<T>, a: Table<T>, b: Table<T>, size: nat, i: nat, j: nat, k: nat): T
    requires Covers(a, size) && Covers(b, size) && i < size && j < size && k <= size
  {
    if k == 0 then ar.zero
    else ar.add(Dot(ar, a, b, size, i, j, k - 1), ar.mul(a[i][k - 1], b[k - 1][j]))
  }

  function Cell<T>(ar: Arith<T>, a: Table<T>, b: Table<T>, size: nat, i: nat, j: nat): T
    requires Covers(a, size) && Covers(b, size) && i < size && j < size
  {
    Dot(ar, a, b, size, i, j, size)
  }

  function FoldLeft<T>(f: (T, T) -> T, init: T, xs: seq<T>): T {
    if xs == [] then init else FoldLeft(f, f(init, xs[0]), xs[1..])
  }

  lemma {:induction false} FoldLeftNext<T>(f: (T, T) -> T, init: T, xs: seq<T>, x: T)
    ensures FoldLeft(f, init, xs + [x]) == f(FoldLeft(f, init, xs), x)
  {
    if xs == [] {
      assert [x][1..] == [];
    } else {
      FoldLeftNext(f, f(init, xs[0]), xs[1..], x);
      assert (xs + [x])[1..] == xs[1..] + [x];
    }
  }

  function Products<T>(ar: Arith<T>, a: Table<T>, b: Table<T>, size: nat, i: nat, j: nat, k: nat): seq<T>
    requires Covers(a, size) && Covers(b, size) && i < size && j < size && k <= size
  {
    seq(k, l requires 0 <= l < k => ar.mul(a[i][l], b[l][j]))
  }

  lemma {:induction false} DotIsFold<T>(ar: Arith<T>, a: Table<T>, b: Table<T>, size: nat, i: nat, j: nat, k: nat)
    requires Covers(a, size) && Covers(b, size) && i < size && j < size && k <= size
    ensures Dot(ar, a, b, size, i, j, k) == FoldLeft(ar.add, ar.zero, Products(ar, a, b, size, i, j, k))
  {
    if k > 0 {
      DotIsFold(ar, a, b, size, i, j, k - 1);
      FoldLeftNext(ar.add, ar.zero, Products(ar, a, b, size, i, j, k - 1), ar.mul(a[i][k - 1], b[k - 1][j]));
      assert Products(ar, a, b, size, i, j, k) ==
             Products(ar, a, b, size, i, j, k - 1) + [ar.mul(a[i][k - 1], b[k - 1][j])];
    }
  }

  /** Cell `(i, j)` is the left fold, from zero, of `a[i][k] * b[k][j]` over `k`. */
  lemma CellIsFold<T>(ar: Arith<T>, a: Table<T>, b: Table<T>, size: nat, i: nat, j: nat)
    requires Covers(a, size) && Covers(b, size) && i < size && j < size
    ensures Cell(ar, a, b, size, i, j) ==
            FoldLeft(ar.add, ar.zero, seq(size, k requires 0 <= k < size => ar.mul(a[i][k], b[k][j])))
  {
    DotIsFold(ar, a, b, size, i, j, size);
    assert Products(ar, a, b, size, i, j, size) == seq(size, k requires 0 <= k < size => ar.mul(a[i][k], b[k][j]));
  }

  ghost predicate IsProduct<T>(ar: Arith<T>, a: Table<T>, b: Table<T>, size: nat, result: Table<T>) {
    && Covers(a, size) && Covers(b, size) && |result| == size
    && forall i | 0 <= i < size ::
         |result[i]| == size && forall j | 0 <= j < size :: result[i][j] == Cell(ar, a, b, size, i, j)
  }

  /** The same loops run one after the other. */
  method MultiplySequentially<T(0)>(ar: Arith<T>, a: Table<T>, b: Table<T>) returns (result: array2<T>)
    requires Covers(a, |a|) && Covers(b, |a|)
    ensures result.Length0 == result.Length1 == |a|
    ensures forall i, j | 0 <= i < |a| && 0 <= j < |a| :: result[i, j] == Cell(ar, a, b, |a|, i, j)
  {
    var size := |a|;
    result := new T[size, size];
    var i := 0;
    while i < size
      invariant i <= size
      invariant forall r, c | 0 <= r < i && 0 <= c < size :: result[r, c] == Cell(ar, a, b, size, r, c)
    {
      var j := 0;
      while j < size
        invariant j <= size
        invariant forall r, c | 0 <= r < i && 0 <= c < size :: result[r, c] == Cell(ar, a, b, size, r, c)
        invariant forall c | 0 <= c < j :: result[i, c] == Cell(ar, a, b, size, i, c)
      {
        var sum := ar.zero;
        var k := 0;
        while k < size
          invariant k <= size
          invariant sum == Dot(ar, a, b, size, i, j, k)
        {
          sum := ar.add(sum, ar.mul(a[i][k], b[k][j]));
          k := k + 1;
        }
        result[i, j] := sum;
        j := j + 1;
      }
      i := i + 1;
    }
  }

  // The row tasks, interleaved.

  /** Where a row task is: about to use index `k` for column `j`, with `sum` so far. */
  datatype RowTask<T> = RowTask(j: nat, k: nat, sum: T)

  /** The tasks spawned so far, in row order, and the shared result. */
  datatype Scope<T> = Scope(tasks: seq<RowTask<T>>, result: Table<T>)

  datatype Turn = Spawn | Run(row: nat)

  function Start<T>(ar: Arith<T>, size: nat): Scope<T> {
    Scope([], seq(size, _ => seq(size, _ => ar.zero)))
  }

  predicate Shaped<T>(size: nat, sc: Scope<T>) {
    && |sc.tasks| <= size && |sc.result| == size
    && (forall i | 0 <= i < size :: |sc.result[i]| == size)
    && (forall i | 0 <= i < |sc.tasks| :: sc.tasks[i].j <= size && sc.tasks[i].k <= size)
  }

  predicate Ready<T>(size: nat, sc: Scope<T>, turn: Turn) {
    match turn
    case Spawn => |sc.tasks| < size
    case Run(i) => i < |sc.tasks| && sc.tasks[i].j < size
  }

  /** One inner step of one task: add a product, or store a finished sum. */
  function TakeTurn<T>(ar: Arith<T>, a: Table<T>, b: Table<T>, size: nat, sc: Scope<T>, turn: Turn): (next: Scope<T>)
    requires Covers(a, size) && Covers(b, size) && Shaped(size, sc)
    ensures Shaped(size, next)
  {
    if !Ready(size, sc, turn) then sc
    else
      match turn
      case Spawn => sc.(tasks := sc.tasks + [RowTask(0, 0, ar.zero)])
      case Run(i) =>
        var RowTask(j, k, sum) := sc.tasks[i];
        if k < size then
          sc.(tasks := sc.tasks[i := RowTask(j, k + 1, ar.add(sum, ar.mul(a[i][k], b[k][j])))])
        else
          Scope(sc.tasks[i := RowTask(j + 1, 0, ar.zero)], sc.result[i := sc.result[i][j := sum]])
  }

  function RunAll<T>(ar: Arith<T>, a: Table<T>, b: Table<T>, size: nat, schedule: seq<Turn>): (sc: Scope<T>)
    requires Covers(a, size) && Covers(b, size)
    ensures Shaped(size, sc)
  {
    if schedule == [] then Start(ar, size)
    else TakeTurn(ar, a, b, size, RunAll(ar, a, b, size, schedule[..|schedule| - 1]), schedule[|schedule| - 1])
  }

  /** `rayon::scope` returns when every task has been spawned and has finished. */
  predicate Complete<T>(size: nat, sc: Scope<T>) {
    |sc.tasks| == size && forall i | 0 <= i < size :: sc.tasks[i].j == size
  }

  /** How many cells of row `i` are finished. */
  function Finished<T>(sc: Scope<T>, i: nat): nat {
    if i < |sc.tasks| then sc.tasks[i].j else 0
  }

  /** Every task's sum is its own, every cell is final or untouched, and no task has written
      outside its row. */
  ghost predicate Progressing<T>(ar: Arith<T>, a: Table<T>, b: Table<T>, size: nat, sc: Scope<T>)
    requires Covers(a, size) && Covers(b, size)
  {
    && Shaped(size, sc)
    && (forall i | 0 <= i < |sc.tasks| && sc.tasks[i].j < size ::
          sc.tasks[i].sum == Dot(ar, a, b, size, i, sc.tasks[i].j, sc.tasks[i].k))
    && (forall i, j | 0 <= i < size && 0 <= j < size ::
          sc.result[i][j] == if j < Finished(sc, i) then Cell(ar, a, b, size, i, j) else ar.zero)
  }

  lemma ProgressingTurn<T>(ar: Arith<T>, a: Table<T>, b: Table<T>, size: nat, sc: Scope<T>, turn: Turn)
    requires Covers(a, size) && Covers(b, size) && Progressing(ar, a, b, size, sc)
    ensures Progressing(ar, a, b, size, TakeTurn(ar, a, b, size, sc, turn))
  {
  }

  /** At every moment of every schedule each cell is either still zero or already final. */
  lemma {:induction false} AlwaysProgressing<T>(ar: Arith<T>, a: Table<T>, b: Table<T>, size: nat,
                                                schedule: seq<Turn>)
    requires Covers(a, size) && Covers(b, size)
    ensures Progressing(ar, a, b, size, RunAll(ar, a, b, size, schedule))
  {
    if schedule != [] {
      AlwaysProgressing(ar, a, b, size, schedule[..|schedule| - 1]);
      ProgressingTurn(ar, a, b, size, RunAll(ar, a, b, size, schedule[..|schedule| - 1]), schedule[|schedule| - 1]);
    }
  }

  /** Schedule independence: however the steps of the row tasks interleave, a scope that
      returns leaves in every cell what the sequential loops compute. */
  lemma ScheduleIndependent<T>(ar: Arith<T>, a: Table<T>, b: Table<T>, size: nat, schedule: seq<Turn>)
    requires Covers(a, size) && Covers(b, size) && Complete(size, RunAll(ar, a, b, size, schedule))
    ensures IsProduct(ar, a, b, size, RunAll(ar, a, b, size, schedule).result)
  {
    AlwaysProgressing(ar, a, b, size, schedule);
  }

  // No schedule runs for ever, and none gets stuck.

  function Times(n: nat, m: nat): nat {
    if n == 0 then 0 else Times(n - 1, m) + m
  }

  /** The turns one task still has to take. */
  function TaskLeft<T>(size: nat, task: RowTask<T>): nat
    requires task.j <= size && task.k <= size
  {
    if task.j == size then 0 else Times(size - task.j - 1, size + 1) + (size - task.k) + 1
  }

  function TasksLeft<T>(size: nat, tasks: seq<RowTask<T>>): nat
    requires forall i | 0 <= i < |tasks| :: tasks[i].j <= size && tasks[i].k <= size
  {
    if tasks == [] then 0
    else TasksLeft(size, tasks[..|tasks| - 1]) + TaskLeft(size, tasks[|tasks| - 1])
  }

  /** The turns a scope still has to take: spawning, and the steps of all tasks. */
  function Left<T>(size: nat, sc: Scope<T>): nat
    requires Shaped(size, sc)
  {
    TasksLeft(size, sc.tasks) + Times(size - |sc.tasks|, Times(size, size + 1) + 1)
  }

  lemma {:induction false} TasksLeftUpdate<T>(size: nat, tasks: seq<RowTask<T>>, i: nat, task: RowTask<T>)
    requires i < |tasks| && task.j <= size && task.k <= size
    requires forall r | 0 <= r < |tasks| :: tasks[r].j <= size && tasks[r].k <= size
    ensures TasksLeft(size, tasks[i := task]) ==
        TasksLeft(size, tasks) - TaskLeft(size, tasks[i]) + TaskLeft(size, task)
  {
    var last := |tasks| - 1;
    if i == last {
      assert tasks[i := task][..last] == tasks[..last];
    } else {
      assert tasks[i := task][..last] == tasks[..last][i := task];
      TasksLeftUpdate(size, tasks[..last], i, task);
    }
  }

  lemma SpawnCountsDown<T>(ar: Arith<T>, size: nat, sc: Scope<T>)
    requires Shaped(size, sc) && |sc.tasks| < size
    ensures Left(size, sc.(tasks := sc.tasks + [RowTask(0, 0, ar.zero)])) == Left(size, sc) - 1
  {
    var next := sc.tasks + [RowTask(0, 0, ar.zero)];
    assert next[..|next| - 1] == sc.tasks;
    assert TaskLeft(size, RowTask(0, 0, ar.zero)) == Times(size, size + 1);
  }

  /** Every turn that does anything brings the end one turn nearer, whoever takes it. */
  lemma TurnsCountDown<T>(ar: Arith<T>, a: Table<T>, b: Table<T>, size: nat, sc: Scope<T>, turn: Turn)
    requires Covers(a, size) && Covers(b, size) && Shaped(size, sc)
    ensures Left(size, TakeTurn(ar, a, b, size, sc, turn)) == Left(size, sc) - if Ready(size, sc, turn) then 1 else 0
  {
    if Ready(size, sc, turn) {
      match turn
      case Spawn => SpawnCountsDown(ar, size, sc);
      case Run(i) =>
        var next := TakeTurn(ar, a, b, size, sc, turn);
        TasksLeftUpdate(size, sc.tasks, i, next.tasks[i]);
        assert TaskLeft(size, next.tasks[i]) == TaskLeft(size, sc.tasks[i]) - 1;
    }
  }

  /** A scope is complete exactly when no turn can be taken, and then none is left. */
  lemma CompleteIff<T>(size: nat, sc: Scope<T>)
    requires Shaped(size, sc)
    ensures Complete(size, sc) <==> forall turn :: !Ready(size, sc, turn)
    ensures Complete(size, sc) <==> Left(size, sc) == 0
  {
    if forall turn :: !Ready(size, sc, turn) {
      assert !Ready(size, sc, Spawn);
      forall i | 0 <= i < size
        ensures sc.tasks[i].j == size
      {
        assert !Ready(size, sc, Run(i));
      }
    }
    NothingLeft(size, sc.tasks);
  }

  lemma {:induction false} NothingLeft<T>(size: nat, tasks: seq<RowTask<T>>)
    requires forall i | 0 <= i < |tasks| :: tasks[i].j <= size && tasks[i].k <= size
    ensures TasksLeft(size, tasks) == 0 <==> forall i | 0 <= i < |tasks| :: tasks[i].j == size
  {
    if tasks != [] {
      NothingLeft(size, tasks[..|tasks| - 1]);
    }
  }

  /** How many turns of a schedule do anything. */
  function Taken<T>(ar: Arith<T>, a: Table<T>, b: Table<T>, size: nat, schedule: seq<Turn>): nat
    requires Covers(a, size) && Covers(b, size)
  {
    if schedule == [] then 0
    else
      var before := schedule[..|schedule| - 1];
      var sc := RunAll(ar, a, b, size, before);
      Taken(ar, a, b, size, before) + if Ready(size, sc, schedule[|schedule| - 1]) then 1 else 0
  }

  lemma {:induction false} TimesIs(n: nat, m: nat)
    ensures Times(n, m) == n * m
  {
    if n > 0 {
      TimesIs(n - 1, m);
    }
  }

  lemma {:induction false} TakenAndLeft<T>(ar: Arith<T>, a: Table<T>, b: Table<T>, size: nat, schedule: seq<Turn>)
    requires Covers(a, size) && Covers(b, size)
    ensures Taken(ar, a, b, size, schedule) + Left(size, RunAll(ar, a, b, size, schedule)) ==
            size * (size * (size + 1) + 1)
  {
    if schedule == [] {
      TimesIs(size, size + 1);
      TimesIs(size, size * (size + 1) + 1);
    } else {
      var before := schedule[..|schedule| - 1];
      TakenAndLeft(ar, a, b, size, before);
      TurnsCountDown(ar, a, b, size, RunAll(ar, a, b, size, before), schedule[|schedule| - 1]);
    }
  }

  /** Every schedule ends, at the same number of turns and never short of the product: no
      schedule has more than `n (n (n + 1) + 1)` turns that do anything, one that has that
      many is complete, and one that has fewer can always take another. */
  lemma EveryScheduleEnds<T>(ar: Arith<T>, a: Table<T>, b: Table<T>, size: nat, schedule: seq<Turn>)
    requires Covers(a, size) && Covers(b, size)
    ensures var sc := RunAll(ar, a, b, size, schedule);
            var turns := size * (size * (size + 1) + 1);
            && Taken(ar, a, b, size, schedule) <= turns
            && (Complete(size, sc) <==> Taken(ar, a, b, size, schedule) == turns)
            && (Complete(size, sc) <==> forall turn :: !Ready(size, sc, turn))
            && (Complete(size, sc) ==> IsProduct(ar, a, b, size, sc.result))
  {
    TakenAndLeft(ar, a, b, size, schedule);
    CompleteIff(size, RunAll(ar, a, b, size, schedule));
    if Complete(size, RunAll(ar, a, b, size, schedule)) {
      ScheduleIndependent(ar, a, b, size, schedule);
    }
  }

  /** The whole product with rows scheduled by any chooser: it always finishes, and always
      with the same result. */
  method MultiplyInParallel<T(0)>(ar: Arith<T>, a: Table<T>, b: Table<T>) returns (result: Table<T>)
    requires Covers(a, |a|) && Covers(b, |a|)
    ensures IsProduct(ar, a, b, |a|, result)
  {
    var size := |a|;
    var sc := Start(ar, size);
    while !Complete(size, sc)
      invariant Progressing(ar, a, b, size, sc)
      decreases Left(size, sc)
    {
      var turn;
      if {
        case |sc.tasks| < size =>
          turn := Spawn;
        case exists i :: 0 <= i < |sc.tasks| && sc.tasks[i].j < size =>
          var i :| 0 <= i < |sc.tasks| && sc.tasks[i].j < size;
          turn := Run(i);
      }
      ProgressingTurn(ar, a, b, size, sc, turn);
      TurnsCountDown(ar, a, b, size, sc, turn);
      sc := TakeTurn(ar, a, b, size, sc, turn);
    }
    result := sc.result;
  }
}
