/** The parallel document runner: workers pop indices from a shared stack,
    process the document outside the locks and store the result in a shared
    array. Every interleaving of their steps gives the sequential result. */
module Scheduler {
  import opened Text

  /** Where one worker stands between two lock operations. */
  datatype Worker<+R> = Idle | Holding(index: nat) | Computed(index: nat, result: R) | Done

  /** The shared state together with the workers; `processed` records the
      order in which documents were processed. */
  datatype Pool<+R> = Pool(
    slots: seq<nat>,
    results: seq<Option<R>>,
    workers: seq<Worker<R>>,
    processed: seq<nat>)

  function Upto(n: nat): seq<nat> {
    seq(n, i => i)
  }

  function Start<R>(n: nat, jobs: nat): Pool<R> {
    Pool(Upto(n), seq(n, _ => None), seq(jobs, _ => Idle), [])
  }

  predicate Enabled<R>(s: Pool<R>, w: nat) {
    w < |s.workers| && !s.workers[w].Done?
  }

  predicate IndicesInRange<R>(s: Pool<R>) {
    && (forall w :: 0 <= w < |s.workers| && Carries(s.workers[w]) ==> s.workers[w].index < |s.results|)
    && forall i :: 0 <= i < |s.slots| ==> s.slots[i] < |s.results|
  }

  predicate Carries<R>(w: Worker<R>) {
    w.Holding? || w.Computed?
  }

  /** One step of worker `w`: pop or stop, process, or store. */
  function StepWorker<R>(f: nat -> R, s: Pool<R>, w: nat): (s': Pool<R>)
    requires Enabled(s, w) && IndicesInRange(s)
    ensures IndicesInRange(s')
  {
    match s.workers[w]
    case Idle =>
      if s.slots == [] then s.(workers := s.workers[w := Done])
      else
        var index := s.slots[|s.slots| - 1];
        s.(slots := s.slots[..|s.slots| - 1], workers := s.workers[w := Holding(index)])
    case Holding(index) =>
      s.(workers := s.workers[w := Computed(index, f(index))], processed := s.processed + [index])
    case Computed(index, result) =>
      s.(results := s.results[index := Some(result)], workers := s.workers[w := Idle])
  }

  /** A schedule names the worker that moves at each step. */
  predicate Runs<R>(f: nat -> R, s: Pool<R>, schedule: seq<nat>)
    requires IndicesInRange(s)
    decreases |schedule|
  {
    schedule != [] ==> Enabled(s, schedule[0]) && Runs(f, StepWorker(f, s, schedule[0]), schedule[1..])
  }

  function After<R>(f: nat -> R, s: Pool<R>, schedule: seq<nat>): Pool<R>
    requires IndicesInRange(s) && Runs(f, s, schedule)
    decreases |schedule|
  {
    if schedule == [] then s else After(f, StepWorker(f, s, schedule[0]), schedule[1..])
  }

  predicate Finished<R>(s: Pool<R>) {
    forall w :: 0 <= w < |s.workers| ==> s.workers[w].Done?
  }

  /** `into_iter().flatten().collect()` over the result array. */
  function Flatten<R>(results: seq<Option<R>>): seq<R> {
    if results == [] then []
    else (if results[0].Some? then [results[0].value] else []) + Flatten(results[1..])
  }

  // ---------- What every step keeps ----------

  predicate CarriedBy<R>(s: Pool<R>, w: int, j: int) {
    0 <= w < |s.workers| && Carries(s.workers[w]) && s.workers[w].index == j
  }

  /** Every index is in exactly one place: still on the stack, with exactly one
      worker, or finished with its own result. */
  ghost predicate Inv<R>(f: nat -> R, n: nat, jobs: nat, s: Pool<R>) {
    && |s.results| == n && |s.workers| == jobs && |s.slots| <= n
    && (forall i :: 0 <= i < |s.slots| ==> s.slots[i] == i && s.results[i].None?)
    && (forall w, j :: CarriedBy(s, w, j) ==> |s.slots| <= j < n && s.results[j].None?)
    && (forall w, w', j :: CarriedBy(s, w, j) && CarriedBy(s, w', j) ==> w == w')
    && (forall w :: 0 <= w < |s.workers| && s.workers[w].Computed? ==> s.workers[w].result == f(s.workers[w].index))
    && (forall j :: |s.slots| <= j < n ==> (s.results[j] == Some(f(j)) || exists w :: CarriedBy(s, w, j)))
    && (forall w :: 0 <= w < |s.workers| && s.workers[w].Done? ==> s.slots == [])
  }

  /** The processing record: no index twice, and exactly the indices that are
      stored or about to be. */
  ghost predicate LogInv<R>(n: nat, s: Pool<R>) {
    && (forall a, b :: 0 <= a < b < |s.processed| ==> s.processed[a] != s.processed[b])
    && (forall j :: j in s.processed ==> j < |s.results|)
    && (forall j :: 0 <= j < |s.results| && s.results[j].Some? ==> j in s.processed)
    && (forall w :: 0 <= w < |s.workers| && s.workers[w].Computed? ==> s.workers[w].index in s.processed)
    && (forall w :: 0 <= w < |s.workers| && s.workers[w].Holding? ==> s.workers[w].index !in s.processed)
    && (forall j :: j in s.processed ==> j >= |s.slots|)
  }

  lemma {:induction false} InvInRange<R>(f: nat -> R, n: nat, jobs: nat, s: Pool<R>)
    requires Inv(f, n, jobs, s)
    ensures IndicesInRange(s)
  {
    forall w | 0 <= w < |s.workers| && Carries(s.workers[w])
      ensures s.workers[w].index < |s.results|
    {
      assert CarriedBy(s, w, s.workers[w].index);
    }
  }

  lemma {:induction false} StartInv<R>(f: nat -> R, n: nat, jobs: nat)
    ensures Inv(f, n, jobs, Start<R>(n, jobs)) && LogInv(n, Start<R>(n, jobs))
  {}

  lemma {:induction false} StepInv<R>(f: nat -> R, n: nat, jobs: nat, s: Pool<R>, w: nat)
    requires Inv(f, n, jobs, s) && Enabled(s, w) && IndicesInRange(s)
    ensures Inv(f, n, jobs, StepWorker(f, s, w))
  {
    var s' := StepWorker(f, s, w);
    assert forall v, j :: v != w ==> (CarriedBy(s', v, j) <==> CarriedBy(s, v, j));
    if Carries(s.workers[w]) {
      assert CarriedBy(s, w, s.workers[w].index);
    }
    if Carries(s'.workers[w]) {
      assert CarriedBy(s', w, s'.workers[w].index);
    }
    forall j | |s'.slots| <= j < n
      ensures s'.results[j] == Some(f(j)) || exists v :: CarriedBy(s', v, j)
    {
      if j >= |s.slots| && s.results[j].None? {
        var v :| CarriedBy(s, v, j);
        assert v != w ==> CarriedBy(s', v, j);
      }
    }
  }

  lemma {:induction false} StepLogInv<R>(f: nat -> R, n: nat, jobs: nat, s: Pool<R>, w: nat)
    requires Inv(f, n, jobs, s) && LogInv(n, s) && Enabled(s, w) && IndicesInRange(s)
    ensures LogInv(n, StepWorker(f, s, w))
  {
    if Carries(s.workers[w]) {
      var j := s.workers[w].index;
      assert CarriedBy(s, w, j);
      assert forall v :: 0 <= v < |s.workers| && Carries(s.workers[v]) && s.workers[v].index == j ==>
                            CarriedBy(s, v, j);
    }
  }

  // ---------- Every run ends, after the same number of steps ----------

  function Weight<R>(w: Worker<R>): nat {
    match w
    case Done => 0
    case Idle => 1
    case Computed(_, _) => 2
    case Holding(_) => 3
  }

  function TotalWeight<R>(ws: seq<Worker<R>>): nat {
    if ws == [] then 0 else Weight(ws[0]) + TotalWeight(ws[1..])
  }

  /** The number of steps still to come. */
  function StepsLeft<R>(s: Pool<R>): nat {
    3 * |s.slots| + TotalWeight(s.workers)
  }

  lemma {:induction false} TotalWeightUpdate<R>(ws: seq<Worker<R>>, w: nat, x: Worker<R>)
    requires w < |ws|
    ensures TotalWeight(ws[w := x]) == TotalWeight(ws) - Weight(ws[w]) + Weight(x)
  {
    if w > 0 {
      assert ws[w := x][1..] == ws[1..][w - 1 := x];
      TotalWeightUpdate(ws[1..], w - 1, x);
    } else {
      assert ws[w := x][1..] == ws[1..];
    }
  }

  lemma {:induction false} StepCounts<R>(f: nat -> R, s: Pool<R>, w: nat)
    requires Enabled(s, w) && IndicesInRange(s)
    ensures StepsLeft(StepWorker(f, s, w)) == StepsLeft(s) - 1
  {
    TotalWeightUpdate(s.workers, w, StepWorker(f, s, w).workers[w]);
  }

  lemma {:induction false} WeightZero<R>(ws: seq<Worker<R>>)
    ensures TotalWeight(ws) == 0 <==> forall w :: 0 <= w < |ws| ==> ws[w].Done?
  {
    if ws != [] {
      WeightZero(ws[1..]);
      assert forall w :: 0 < w < |ws| ==> ws[w] == ws[1..][w - 1];
    }
  }

  lemma {:induction false} AllIdle<R>(jobs: nat)
    ensures TotalWeight(seq(jobs, _ => Worker<R>.Idle)) == jobs
  {
    var ws := seq(jobs, _ => Worker<R>.Idle);
    if jobs > 0 {
      assert ws[1..] == seq(jobs - 1, _ => Worker<R>.Idle);
      AllIdle<R>(jobs - 1);
    }
  }

  /** A run that has taken `k` steps has exactly that many fewer to take. */
  lemma {:induction false} RunInvariant<R>(f: nat -> R, n: nat, jobs: nat, s: Pool<R>, schedule: seq<nat>)
    requires Inv(f, n, jobs, s) && LogInv(n, s) && IndicesInRange(s) && Runs(f, s, schedule)
    ensures Inv(f, n, jobs, After(f, s, schedule)) && LogInv(n, After(f, s, schedule))
    ensures StepsLeft(After(f, s, schedule)) == StepsLeft(s) - |schedule|
    decreases |schedule|
  {
    if schedule != [] {
      StepInv(f, n, jobs, s, schedule[0]);
      StepLogInv(f, n, jobs, s, schedule[0]);
      StepCounts(f, s, schedule[0]);
      RunInvariant(f, n, jobs, StepWorker(f, s, schedule[0]), schedule[1..]);
    }
  }

  // ---------- The result does not depend on the schedule ----------

  lemma {:induction false} FlattenAll<R>(results: seq<Option<R>>)
    requires forall j :: 0 <= j < |results| ==> results[j].Some?
    ensures |Flatten(results)| == |results|
    ensures forall j :: 0 <= j < |results| ==> Flatten(results)[j] == results[j].value
  {
    if results != [] {
      FlattenAll(results[1..]);
    }
  }

  /** `process_document` on every path in input order. */
  function Sequential<R>(f: nat -> R, n: nat): seq<R> {
    seq(n, i requires 0 <= i => f(i))
  }

  lemma {:induction false} FinishedPool<R>(f: nat -> R, n: nat, jobs: nat, s: Pool<R>)
    requires Inv(f, n, jobs, s) && LogInv(n, s) && Finished(s) && jobs >= 1
    ensures Flatten(s.results) == Sequential(f, n)
    ensures forall j :: 0 <= j < n ==> j in s.processed
    ensures forall a, b :: 0 <= a < b < |s.processed| ==> s.processed[a] != s.processed[b]
    ensures forall j :: j in s.processed ==> j < n
  {
    assert s.workers[0].Done?;
    forall j | 0 <= j < n
      ensures s.results[j] == Some(f(j))
    {
      assert forall w :: !CarriedBy(s, w, j);
    }
    FlattenAll(s.results);
  }

  /** For every schedule of at least one worker: no schedule takes more than
      3n + jobs steps; as long as fewer were taken some worker can move, and
      once they were all taken every worker has stopped, every document was
      processed exactly once, and the output is the sequential one. */
  lemma {:induction false} EverySchedule<R>(f: nat -> R, n: nat, jobs: nat, schedule: seq<nat>)
    requires jobs >= 1 && Runs(f, Start<R>(n, jobs), schedule)
    ensures |schedule| <= 3 * n + jobs
    ensures var s := After(f, Start<R>(n, jobs), schedule);
            if |schedule| < 3 * n + jobs then exists w :: Enabled(s, w)
            else
              && Finished(s)
              && Flatten(s.results) == Sequential(f, n)
              && (forall j :: 0 <= j < n ==> j in s.processed)
              && (forall j :: j in s.processed ==> j < n)
              && (forall a, b :: 0 <= a < b < |s.processed| ==> s.processed[a] != s.processed[b])
  {
    var s0 := Start<R>(n, jobs);
    StartInv(f, n, jobs);
    AllIdle<R>(jobs);
    RunInvariant(f, n, jobs, s0, schedule);
    var s := After(f, s0, schedule);
    WeightZero(s.workers);
    if |schedule| < 3 * n + jobs {
      assert s.workers[0].Done? ==> s.slots == [];
      var w :| 0 <= w < |s.workers| && !s.workers[w].Done?;
      assert Enabled(s, w);
    } else {
      FinishedPool(f, n, jobs, s);
    }
  }

  /** Without a worker nothing is processed. */
  lemma {:induction false} NoWorkers<R>(n: nat)
    ensures Finished(Start<R>(n, 0))
    ensures Flatten(Start<R>(n, 0).results) == []
  {
    var s := Start<R>(n, 0);
    FlattenNone(s.results);
  }

  lemma {:induction false} FlattenNone<R>(results: seq<Option<R>>)
    requires forall j :: 0 <= j < |results| ==> results[j].None?
    ensures Flatten(results) == []
  {
    if results != [] {
      FlattenNone(results[1..]);
    }
  }

  // ---------- The running pool ----------

  /** The mutable pool: a stack behind one lock, a result array behind another. */
  class WorkPool<R> {
    var slots: seq<nat>
    var results: array<Option<R>>
    var workers: seq<Worker<R>>
    ghost var processed: seq<nat>

    ghost function State(): Pool<R>
      reads this, results
    {
      Pool(slots, results[..], workers, processed)
    }

    constructor (n: nat, jobs: nat)
      ensures State() == Start<R>(n, jobs) && fresh(results)
    {
      slots := Upto(n);
      results := new Option<R>[n](_ => None);
      workers := seq(jobs, _ => Idle);
      processed := [];
    }

    method Step(f: nat -> R, w: nat)
      requires Enabled(State(), w) && IndicesInRange(State())
      modifies this, results
      ensures results == old(results)
      ensures State() == StepWorker(f, old(State()), w)
    {
      match workers[w] {
        case Idle =>
          if slots == [] {
            workers := workers[w := Done];
          } else {
            var index := slots[|slots| - 1];
            slots := slots[..|slots| - 1];
            workers := workers[w := Holding(index)];
          }
        case Holding(index) =>
          processed := processed + [index];
          workers := workers[w := Computed(index, f(index))];
        case Computed(index, result) =>
          assert index < |State().results|;
          results[index] := Some(result);
          workers := workers[w := Idle];
      }
    }
  }

  /** `process_documents_parallel` under an arbitrary scheduler. */
  method ProcessDocumentsParallel<R>(f: nat -> R, n: nat, jobs: nat) returns (out: seq<R>)
    requires jobs >= 1
    ensures out == Sequential(f, n)
  {
    var pool := new WorkPool<R>(n, jobs);
    StartInv(f, n, jobs);
    while exists w :: 0 <= w < |pool.workers| && !pool.workers[w].Done?
      invariant Inv(f, n, jobs, pool.State()) && LogInv(n, pool.State())
      invariant fresh(pool) && fresh(pool.results)
      decreases StepsLeft(pool.State())
    {
      var w :| 0 <= w < |pool.workers| && !pool.workers[w].Done?;
      ghost var before := pool.State();
      InvInRange(f, n, jobs, before);
      StepInv(f, n, jobs, before, w);
      StepLogInv(f, n, jobs, before, w);
      StepCounts(f, before, w);
      pool.Step(f, w);
    }
    FinishedPool(f, n, jobs, pool.State());
    out := Flatten(pool.results[..]);
  }
}
