/** The counting invariants of the job scheduler: the counter jobs, the sentinels, progress and termination. */
module JobCounts {
  import opened Common
  import opened JobScheduler

  predicate IsBusy(q: Worker) {
    q.Taken? || q.Executing? || q.Reporting?
  }

  /** The workers that have a task. */
  function Busy(workers: seq<Worker>): (n: nat)
    ensures n <= |workers|
  {
    if workers == [] then 0 else (if IsBusy(workers[0]) then 1 else 0) + Busy(workers[1..])
  }

  function StoppedCount(workers: seq<Worker>): (n: nat)
    ensures n <= |workers|
  {
    if workers == [] then 0 else (if workers[0].Stopped? then 1 else 0) + StoppedCount(workers[1..])
  }

  function Sentinels(requests: seq<Option<nat>>): nat {
    |requests| - CountSome(requests)
  }

  lemma {:induction false} WorkerUpdate(workers: seq<Worker>, w: nat, q: Worker)
    requires w < |workers|
    ensures Busy(workers[w := q]) ==
            Busy(workers) - (if IsBusy(workers[w]) then 1 else 0) + (if IsBusy(q) then 1 else 0)
    ensures StoppedCount(workers[w := q]) ==
            StoppedCount(workers) - (if workers[w].Stopped? then 1 else 0) + (if q.Stopped? then 1 else 0)
  {
    if w == 0 {
      assert workers[w := q][1..] == workers[1..];
    } else {
      assert workers[w := q][1..] == workers[1..][w - 1 := q];
      WorkerUpdate(workers[1..], w - 1, q);
    }
  }

  lemma {:induction false} TasksAppend(requests: seq<Option<nat>>, r: Option<nat>)
    ensures CountSome(requests + [r]) == CountSome(requests) + if r.Some? then 1 else 0
  {
    if requests == [] {
      assert CountSome([r][1..]) == 0;
    } else {
      assert (requests + [r])[1..] == requests[1..] + [r];
      TasksAppend(requests[1..], r);
    }
  }

  lemma {:induction false} CountsOfFresh(num: nat)
    ensures Busy(seq(num, _ => Waiting)) == 0 && StoppedCount(seq(num, _ => Waiting)) == 0
  {
    if num > 0 {
      var waiting: seq<Worker> := seq(num, _ => Waiting);
      assert waiting[1..] == seq(num - 1, _ => Waiting);
      CountsOfFresh(num - 1);
    }
  }

  /** Some worker is of the kind that is counted, or none is. */
  lemma {:induction false} SomeWorker(workers: seq<Worker>) returns (w: nat)
    requires workers != []
    ensures w < |workers|
    ensures Busy(workers) > 0 ==> IsBusy(workers[w])
    ensures Busy(workers) == 0 && StoppedCount(workers) < |workers| ==> workers[w].Waiting?
  {
    if |workers| == 1 {
      w := 0;
    } else if if Busy(workers) > 0 then IsBusy(workers[0]) else workers[0].Waiting? {
      w := 0;
    } else {
      var v := SomeWorker(workers[1..]);
      w := v + 1;
    }
  }

  lemma {:induction false} AllStopped(workers: seq<Worker>)
    requires StoppedCount(workers) == |workers|
    ensures forall w :: 0 <= w < |workers| ==> workers[w].Stopped?
  {
    if workers != [] {
      AllStopped(workers[1..]);
    }
  }

  // ----- The counter -----

  /** What the dispatcher has done to the queues but not yet to the counter. */
  function Owed(d: Dispatcher): int {
    match d
    case Counting => 1
    case Discounting(_, _) => -1
    case _ => 0
  }

  /** Tasks queued, being executed, or back with their results. */
  function InFlight(s: State): nat {
    CountSome(s.requests) + Busy(s.workers) + |s.results|
  }

  predicate Closing(d: Dispatcher) {
    d.Cleaning? || d.Done?
  }

  function SentinelsPut(s: State): nat {
    match s.dispatcher
    case Cleaning(put) => put
    case Done => |s.workers|
    case _ => 0
  }

  ghost predicate CountsInv(s: State) {
    var d := s.dispatcher;
    && 0 < |s.workers|
    && s.jobs + Owed(d) == InFlight(s)
    && 0 <= s.jobs <= |s.workers|
    && (d.Preparing? || d.Dispatching? || d.Counting? || d.Checking? ==> s.jobs < |s.workers|)
    && ((d.Calling? || d.Post?) ==> s.jobs < |s.workers|)
    && (d.Deciding? && !d.none ==> s.jobs == |s.workers|)
    && (d.Getting? ==> s.jobs > 0)
    && (Closing(d) ==> s.jobs == 0)
    && SentinelsPut(s) <= |s.workers|
    && Sentinels(s.requests) + StoppedCount(s.workers) == SentinelsPut(s)
  }

  lemma InitCounts(num: nat, total: nat)
    requires 0 < num
    ensures CountsInv(Init(num, total))
  {
    CountsOfFresh(num);
  }

  /** The steps that put into a queue or take a result. */
  predicate MovesQueues(step: Step) {
    step.Put? || step.Sentinel? || step.Get?
  }

  lemma QueuesKeepCounts(s: State, step: Step)
    requires CountsInv(s) && Enabled(s, step) && MovesQueues(step)
    ensures CountsInv(Next(s, step))
  {
    hide CountSome, Busy, StoppedCount;
    if step.Put? {
      TasksAppend(s.requests, Some(s.dispatcher.task));
    }
    if step.Sentinel? {
      TasksAppend(s.requests, None);
    }
  }

  lemma OthersKeepCounts(s: State, step: Step)
    requires CountsInv(s) && Enabled(s, step) && !IsWorkerStep(step) && !MovesQueues(step)
    ensures CountsInv(Next(s, step))
  {
    hide CountSome, Busy, StoppedCount;
  }

  lemma TaskHead(requests: seq<Option<nat>>)
    requires requests != []
    ensures CountSome(requests) == CountSome(requests[1..]) + if requests[0].Some? then 1 else 0
  {
  }

  lemma WorkersKeepCounts(s: State, step: Step)
    requires CountsInv(s) && Enabled(s, step) && IsWorkerStep(step)
    ensures CountsInv(Next(s, step))
  {
    hide CountSome, Busy, StoppedCount;
    WorkerUpdate(s.workers, step.w, Next(s, step).workers[step.w]);
    if step.Take? {
      TaskHead(s.requests);
    }
  }

  lemma CountsKeep(s: State, step: Step)
    requires CountsInv(s) && Enabled(s, step)
    ensures CountsInv(Next(s, step)) && |Next(s, step).workers| == |s.workers|
  {
    hide CountsInv;
    if IsWorkerStep(step) {
      WorkersKeepCounts(s, step);
    } else if MovesQueues(step) {
      QueuesKeepCounts(s, step);
    } else {
      OthersKeepCounts(s, step);
    }
  }

  lemma {:induction false} RunKeepsCounts(states: seq<State>, steps: seq<Step>, num: nat, total: nat, i: nat)
    requires RunFromInit(states, steps, num, total) && i < |states|
    ensures CountsInv(states[i]) && |states[i].workers| == num
  {
    hide CountsInv;
    if i == 0 {
      InitCounts(num, total);
    } else {
      RunKeepsCounts(states, steps, num, total, i - 1);
      CountsKeep(states[i - 1], steps[i - 1]);
    }
  }

  /**
    In every interleaving the counter is the number of queued requests, executing tasks and queued results, up to
    the one being moved, and stays between 0 and the number of workers; and cleaning up starts only when all
    three are zero.
  */
  lemma JobsIsInFlight(states: seq<State>, steps: seq<Step>, num: nat, total: nat, i: nat)
    requires RunFromInit(states, steps, num, total) && i < |states|
    ensures var s := states[i];
      && 0 <= s.jobs <= num && s.jobs + Owed(s.dispatcher) == InFlight(s)
      && (s.dispatcher == Cleaning(0) ==> s.requests == [] && s.results == [] && Busy(s.workers) == 0)
  {
    RunKeepsCounts(states, steps, num, total, i);
  }

  // ----- The sentinels -----

  lemma StoppedStep(s: State, step: Step, w: nat)
    requires Enabled(s, step) && w < |s.workers| && s.workers[w].Stopped?
    ensures w < |Next(s, step).workers| && Next(s, step).workers[w].Stopped?
  {
  }

  /** Once a worker has stopped it stays stopped. */
  lemma {:induction false} StoppedStays(states: seq<State>, steps: seq<Step>, i: nat, j: nat, w: nat)
    requires Run(states, steps) && i <= j < |states|
    requires w < |states[i].workers| && states[i].workers[w].Stopped?
    ensures w < |states[j].workers| && states[j].workers[w].Stopped?
    decreases j
  {
    hide Next;
    if i < j {
      StoppedStays(states, steps, i, j - 1, w);
      StoppedStep(states[j - 1], steps[j - 1], w);
    }
  }

  /** When every sentinel has been put and taken, each worker took exactly one: all have stopped. */
  lemma SentinelsStopEachWorker(states: seq<State>, steps: seq<Step>, num: nat, total: nat, i: nat)
    requires RunFromInit(states, steps, num, total) && i < |states|
    ensures var s := states[i]; Sentinels(s.requests) + StoppedCount(s.workers) == SentinelsPut(s) <= num == |s.workers|
    ensures var s := states[i];
      s.dispatcher.Done? && s.requests == [] ==> forall w :: 0 <= w < num ==> s.workers[w].Stopped?
  {
    RunKeepsCounts(states, steps, num, total, i);
    var s := states[i];
    if s.dispatcher.Done? && s.requests == [] {
      AllStopped(s.workers);
    }
  }

  // ----- Termination -----

  /** How far a task in a worker's hands is from its result. */
  function WorkerWeight(q: Worker): nat {
    match q
    case Waiting => 0
    case Taken(_) => 14
    case Executing(_) => 13
    case Reporting(_, _) => 12
    case Stopped => 0
  }

  function WorkersWeight(workers: seq<Worker>): nat {
    if workers == [] then 0 else WorkerWeight(workers[0]) + WorkersWeight(workers[1..])
  }

  lemma {:induction false} WeightUpdate(workers: seq<Worker>, w: nat, q: Worker)
    requires w < |workers|
    ensures WorkersWeight(workers[w := q]) == WorkersWeight(workers) - WorkerWeight(workers[w]) + WorkerWeight(q)
  {
    if w == 0 {
      assert workers[w := q][1..] == workers[1..];
    } else {
      assert workers[w := q][1..] == workers[1..][w - 1 := q];
      WeightUpdate(workers[1..], w - 1, q);
    }
  }

  lemma {:induction false} WeightOfFresh(num: nat)
    ensures WorkersWeight(seq(num, _ => Waiting)) == 0
  {
    if num > 0 {
      var waiting: seq<Worker> := seq(num, _ => Waiting);
      assert waiting[1..] == seq(num - 1, _ => Waiting);
      WeightOfFresh(num - 1);
    }
  }

  function DispatcherWeight(d: Dispatcher, num: nat): int {
    match d
    case Preparing(_) => 2 * num + 22
    case Dispatching(_) => 2 * num + 21
    case Discounting(_, _) => 2 * num + 9
    case Calling(_, _, _) => 2 * num + 8
    case Post(_, _) => 2 * num + 7
    case Checking => 2 * num + 6
    case Counting => 2 * num + 5
    case Asking => 2 * num + 4
    case Deciding(_) => 2 * num + 3
    case Getting => 2 * num + 2
    case Cleaning(put) => 2 * (num - put) + 1
    case Done => 0
  }

  /** An upper bound for the number of steps still to come. */
  function Measure(s: State): int {
    19 * (s.total - |s.places|) + 15 * CountSome(s.requests) + Sentinels(s.requests) + WorkersWeight(s.workers)
    + 11 * |s.results| + DispatcherWeight(s.dispatcher, |s.workers|) + if s.interrupted then 0 else 1
  }

  lemma WorkerStepDecreases(s: State, step: Step)
    requires Enabled(s, step) && IsWorkerStep(step)
    ensures Measure(Next(s, step)) < Measure(s) && |Next(s, step).places| == |s.places|
  {
    hide CountSome, WorkersWeight;
    WeightUpdate(s.workers, step.w, Next(s, step).workers[step.w]);
    if step.Take? {
      TaskHead(s.requests);
    }
  }

  lemma QueueStepDecreases(s: State, step: Step)
    requires Enabled(s, step) && MovesQueues(step)
    ensures Measure(Next(s, step)) < Measure(s) && |Next(s, step).places| == |s.places|
  {
    hide CountSome, WorkersWeight;
    if step.Put? {
      TasksAppend(s.requests, Some(s.dispatcher.task));
    }
    if step.Sentinel? {
      TasksAppend(s.requests, None);
    }
  }

  lemma OtherStepDecreases(s: State, step: Step)
    requires CountsInv(s) && Enabled(s, step) && !IsWorkerStep(step) && !MovesQueues(step)
    ensures Measure(Next(s, step)) < Measure(s)
    ensures |Next(s, step).places| <= |s.places| || |Next(s, step).places| <= s.total
  {
    hide CountSome, WorkersWeight, Busy, StoppedCount;
  }

  lemma MeasureNatural(s: State)
    requires CountsInv(s) && |s.places| <= s.total
    ensures 0 <= Measure(s)
  {
    hide CountSome, WorkersWeight, Busy, StoppedCount;
  }

  /** Every step brings the end nearer. */
  lemma StepDecreases(s: State, step: Step)
    requires CountsInv(s) && Enabled(s, step) && |s.places| <= s.total
    ensures 0 <= Measure(Next(s, step)) < Measure(s)
    ensures |Next(s, step).places| <= Next(s, step).total == s.total
  {
    hide CountsInv, Measure;
    if IsWorkerStep(step) {
      WorkerStepDecreases(s, step);
    } else if MovesQueues(step) {
      QueueStepDecreases(s, step);
    } else {
      OtherStepDecreases(s, step);
    }
    CountsKeep(s, step);
    MeasureNatural(Next(s, step));
  }

  lemma MeasureOfInit(num: nat, total: nat)
    ensures 0 <= Measure(Init(num, total)) <= 19 * total + 2 * num + 5
  {
    WeightOfFresh(num);
  }

  lemma {:induction false} RunDecreases(states: seq<State>, steps: seq<Step>, num: nat, total: nat, i: nat)
    requires RunFromInit(states, steps, num, total) && i < |states|
    ensures |states[i].places| <= states[i].total
    ensures 0 <= Measure(states[i]) <= 19 * total + 2 * num + 5 - i
  {
    hide CountsInv, Measure;
    if i == 0 {
      MeasureOfInit(num, total);
    } else {
      RunDecreases(states, steps, num, total, i - 1);
      RunKeepsCounts(states, steps, num, total, i - 1);
      StepDecreases(states[i - 1], steps[i - 1]);
    }
  }

  /** Whatever the interleaving, a run over finitely many tasks is short. */
  lemma RunsEnd(states: seq<State>, steps: seq<Step>, num: nat, total: nat)
    requires RunFromInit(states, steps, num, total)
    ensures |steps| <= 19 * total + 2 * num + 5
  {
    RunDecreases(states, steps, num, total, |steps|);
  }
}
