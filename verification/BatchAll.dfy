/** A pool of workers that share one cursor over a list of tasks. */
module BatchAll {

  datatype Option<+T> = None | Some(value: T)

  datatype Outcome = Fulfilled(value: string) | Rejected(reason: string)

  /** A worker not yet running, waiting for the task it took, or done. */
  datatype Worker = Unstarted | Waiting(task: nat) | Finished

  /** `started` lists the tasks in the order they were called. */
  datatype State = State(next: nat, results: seq<Option<Outcome>>, workers: seq<Worker>, started: seq<nat>)

  function WorkerCount(concurrency: int, tasks: nat): nat {
    if concurrency <= 0 then 0 else if concurrency < tasks then concurrency else tasks
  }

  function Initial(concurrency: int, tasks: nat): State {
    State(0, seq(tasks, _ => None), seq(WorkerCount(concurrency, tasks), _ => Unstarted), [])
  }

  /** A running worker goes on until it waits for the next task or finds none left. */
  function Advance(s: State, w: nat): State
    requires w < |s.workers|
  {
    if s.next < |s.results| then
      s.(next := s.next + 1, workers := s.workers[w := Waiting(s.next)], started := s.started + [s.next])
    else s.(workers := s.workers[w := Finished])
  }

  /** A worker begins, or the task it waits for settles. */
  predicate Enabled(s: State, w: nat) {
    w < |s.workers| && !s.workers[w].Finished?
    && (s.workers[w].Waiting? ==> s.workers[w].task < |s.results|)
  }

  /** `tasks[i]` is how task `i` settles, whenever it does. */
  function Resume(s: State, w: nat, tasks: seq<Outcome>): State
    requires Enabled(s, w) && |tasks| == |s.results|
  {
    if s.workers[w].Unstarted? then Advance(s, w)
    else Advance(s.(results := s.results[s.workers[w].task := Some(tasks[s.workers[w].task])]), w)
  }

  class Batch {
    const results: array<Option<Outcome>>
    var next: nat
    var workers: seq<Worker>
    ghost var started: seq<nat>

    ghost function Value(): State
      reads this, results
    {
      State(next, results[..], workers, started)
    }

    constructor (concurrency: int, tasks: nat)
      ensures fresh(results) && Value() == Initial(concurrency, tasks)
    {
      results := new Option<Outcome>[tasks](_ => None);
      next, started := 0, [];
      workers := seq(if concurrency <= 0 then 0 else if concurrency < tasks then concurrency else tasks, _ => Unstarted);
    }

    /** One run of worker `w` between two waits. */
    method ResumeWorker(w: nat, tasks: seq<Outcome>)
      requires Enabled(Value(), w) && |tasks| == results.Length
      modifies this, results
      ensures Value() == Resume(old(Value()), w, tasks)
    {
      if workers[w].Waiting? {
        results[workers[w].task] := Some(tasks[workers[w].task]);
      }
      if next < results.Length {
        var idx := next;
        next := next + 1;
        workers, started := workers[w := Waiting(idx)], started + [idx];
      } else {
        workers := workers[w := Finished];
      }
    }
  }

  // ---- every interleaving ----

  /** Tasks are started in order, each once; one that is started is waited for by exactly one
      worker or has its own outcome in its own slot. */
  ghost predicate Inv(s: State, tasks: seq<Outcome>) {
    && |s.results| == |tasks| && s.next <= |tasks|
    && |s.started| == s.next && (forall i :: 0 <= i < s.next ==> s.started[i] == i)
    && (forall w :: 0 <= w < |s.workers| ==> WorkerOk(s, s.workers[w]))
    && (forall v, w :: 0 <= v < |s.workers| && 0 <= w < |s.workers| && v != w && s.workers[v].Waiting? ==> s.workers[v] != s.workers[w])
    && (forall i :: 0 <= i < |tasks| ==> SlotOk(s, tasks, i))
  }

  predicate WorkerOk(s: State, w: Worker) {
    match w
    case Unstarted => true
    case Waiting(i) => i < s.next && i < |s.results| && s.results[i] == None
    case Finished => s.next >= |s.results|
  }

  predicate SlotOk(s: State, tasks: seq<Outcome>, i: nat)
    requires i < |s.results| == |tasks|
  {
    if i >= s.next then s.results[i] == None
    else s.results[i] == Some(tasks[i]) || (s.results[i] == None && Waiting(i) in s.workers)
  }

  lemma ResumeKeeps(s: State, w: nat, tasks: seq<Outcome>)
    requires Inv(s, tasks) && Enabled(s, w)
    ensures Inv(Resume(s, w, tasks), tasks)
  {
    var s' := Resume(s, w, tasks);
    forall i | 0 <= i < |tasks| ensures SlotOk(s', tasks, i) {
      assert SlotOk(s, tasks, i);
      if Waiting(i) in s.workers && s.workers[w] != Waiting(i) {
        var v :| 0 <= v < |s.workers| && s.workers[v] == Waiting(i);
        assert s'.workers[v] == Waiting(i);
      }
      if i == s.next && i < |s.results| {
        assert s'.workers[w] == Waiting(i);
      }
    }
    assert s.next < |s.results| ==> SlotOk(s, tasks, s.next);
    forall v | 0 <= v < |s'.workers| ensures WorkerOk(s', s'.workers[v]) {
      assert WorkerOk(s, s.workers[v]);
    }
  }

  /** `moves[n]` is the worker that runs at step `n`. */
  ghost predicate Run(states: seq<State>, moves: seq<nat>, concurrency: int, tasks: seq<Outcome>) {
    && |states| == |moves| + 1 && states[0] == Initial(concurrency, |tasks|)
    && forall n :: 0 <= n < |moves| ==>
         && |states[n].results| == |tasks| && Enabled(states[n], moves[n])
         && states[n + 1] == Resume(states[n], moves[n], tasks)
  }

  lemma {:induction false} RunKeeps(states: seq<State>, moves: seq<nat>, concurrency: int, tasks: seq<Outcome>, n: nat)
    requires Run(states, moves, concurrency, tasks) && n < |states|
    ensures Inv(states[n], tasks) && |states[n].workers| == WorkerCount(concurrency, |tasks|)
  {
    if n > 0 {
      hide Inv;
      RunKeeps(states, moves, concurrency, tasks, n - 1);
      ResumeKeeps(states[n - 1], moves[n - 1], tasks);
    }
  }

  function InFlight(workers: seq<Worker>): nat {
    if workers == [] then 0 else (if workers[0].Waiting? then 1 else 0) + InFlight(workers[1..])
  }

  lemma {:induction false} InFlightBound(workers: seq<Worker>)
    ensures InFlight(workers) <= |workers|
  {
    if workers != [] {
      InFlightBound(workers[1..]);
    }
  }

  /** Each task is started exactly once, in order, and never more than `concurrency` at a time. */
  lemma EachTaskStartsOnce(states: seq<State>, moves: seq<nat>, concurrency: int, tasks: seq<Outcome>, n: nat)
    requires Run(states, moves, concurrency, tasks) && n < |states|
    ensures states[n].started == seq(states[n].next, i => i)
    ensures InFlight(states[n].workers) <= if concurrency <= 0 then 0 else concurrency
  {
    RunKeeps(states, moves, concurrency, tasks, n);
    InFlightBound(states[n].workers);
  }

  lemma {:induction false} AllInFlight(workers: seq<Worker>)
    requires forall w <- workers :: w.Waiting?
    ensures InFlight(workers) == |workers|
  {
    if workers != [] {
      AllInFlight(workers[1..]);
    }
  }

  /** The concurrency is used: once every worker has begun, and while a task is left to start, as many
      are in flight as are allowed, or all there are. */
  lemma PoolIsFull(states: seq<State>, moves: seq<nat>, concurrency: int, tasks: seq<Outcome>, n: nat)
    requires Run(states, moves, concurrency, tasks) && n < |states| && concurrency >= 1
    requires Unstarted !in states[n].workers && |states[n].started| < |tasks|
    ensures InFlight(states[n].workers) == if concurrency <= |tasks| then concurrency else |tasks|
  {
    RunKeeps(states, moves, concurrency, tasks, n);
    forall w <- states[n].workers
      ensures w.Waiting?
    {
      assert WorkerOk(states[n], w);
    }
    AllInFlight(states[n].workers);
  }

  predicate AllFinished(s: State) {
    forall w <- s.workers :: w == Finished
  }

  /** However the workers interleave, once they have all finished slot `i` holds the outcome of
      task `i`, rejections included, exactly when there was a worker to run them. */
  lemma FinishedBatchIsTheTasks(states: seq<State>, moves: seq<nat>, concurrency: int, tasks: seq<Outcome>, n: nat)
    requires Run(states, moves, concurrency, tasks) && n < |states| && AllFinished(states[n])
    ensures states[n].results == seq(|tasks|, i requires 0 <= i < |tasks| => Some(tasks[i]))
       <==> concurrency >= 1 || tasks == []
  {
    RunKeeps(states, moves, concurrency, tasks, n);
    var s := states[n];
    if tasks != [] {
      if concurrency >= 1 {
        assert s.workers[0] in s.workers && WorkerOk(s, s.workers[0]);
        forall i | 0 <= i < |tasks| ensures s.results[i] == Some(tasks[i]) {
          assert SlotOk(s, tasks, i);
        }
      } else {
        NothingRuns(states, moves, concurrency, tasks, n);
        assert s.results[0] == None;
      }
    }
  }

  /** With no concurrency no worker exists, and no task is ever started. */
  lemma NothingRuns(states: seq<State>, moves: seq<nat>, concurrency: int, tasks: seq<Outcome>, n: nat)
    requires Run(states, moves, concurrency, tasks) && n < |states| && concurrency <= 0
    ensures states[n] == Initial(concurrency, |tasks|)
  {
    RunKeeps(states, moves, concurrency, tasks, 0);
    if n > 0 {
      assert false;
    }
  }

  function Unfinished(workers: seq<Worker>): nat {
    if workers == [] then 0 else (if workers[0].Finished? then 0 else 1) + Unfinished(workers[1..])
  }

  function Remaining(s: State): int {
    2 * (|s.results| - s.next) + Unfinished(s.workers)
  }

  lemma {:induction false} UnfinishedUpdate(workers: seq<Worker>, w: nat, x: Worker)
    requires w < |workers| && !workers[w].Finished?
    ensures Unfinished(workers[w := x]) == Unfinished(workers) - if x.Finished? then 1 else 0
  {
    if w > 0 {
      UnfinishedUpdate(workers[1..], w - 1, x);
      assert workers[w := x][1..] == workers[1..][w - 1 := x];
    } else {
      assert workers[w := x][1..] == workers[1..];
    }
  }

  lemma {:induction false} UnfinishedBound(workers: seq<Worker>)
    ensures Unfinished(workers) <= |workers|
  {
    if workers != [] {
      UnfinishedBound(workers[1..]);
    }
  }

  lemma {:induction false} StepsUsed(states: seq<State>, moves: seq<nat>, concurrency: int, tasks: seq<Outcome>, n: nat)
    requires Run(states, moves, concurrency, tasks) && n < |states|
    ensures n + Remaining(states[n]) <= 2 * |tasks| + WorkerCount(concurrency, |tasks|)
  {
    if n == 0 {
      UnfinishedBound(states[0].workers);
    } else {
      StepsUsed(states, moves, concurrency, tasks, n - 1);
      RunKeeps(states, moves, concurrency, tasks, n - 1);
      var s, w := states[n - 1], moves[n - 1];
      UnfinishedUpdate(s.workers, w, if s.next < |s.results| then Waiting(s.next) else Finished);
    }
  }

  /** Once every task settles the batch ends: no run is longer than twice the tasks plus the
      workers, and until all workers have finished one of them can always go on. */
  lemma BatchTerminates(states: seq<State>, moves: seq<nat>, concurrency: int, tasks: seq<Outcome>)
    requires Run(states, moves, concurrency, tasks)
    ensures |moves| <= 2 * |tasks| + WorkerCount(concurrency, |tasks|)
    ensures !AllFinished(states[|moves|]) ==> exists w :: Enabled(states[|moves|], w)
  {
    StepsUsed(states, moves, concurrency, tasks, |moves|);
    RunKeeps(states, moves, concurrency, tasks, |moves|);
    var s := states[|moves|];
    if !AllFinished(s) {
      var w :| 0 <= w < |s.workers| && s.workers[w] != Finished;
      assert WorkerOk(s, s.workers[w]);
      assert Enabled(s, w);
    }
  }
}
