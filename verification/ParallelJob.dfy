/**
  Parallel.start of scons_local/scons-local-2.3.0/SCons/Job.py with its nested loops, and the pool it works with.

  Between the dispatcher's accesses to shared state the other threads do whatever they like: any number of the
  workers' next actions, and the interrupt.  What happens is recorded as a run of the step machine of module
  JobScheduler, so the theorems about its runs hold here.
*/
module ParallelJobs {
  import opened Common
  import opened JobScheduler
  import opened JobCounts
  import opened JobTasks

  /** A recorded run. */
  datatype History = History(states: seq<State>, steps: seq<Step>)

  function OwnStep(step: Step): seq<Step> {
    if IsWorkerStep(step) || step.Interrupt? then [] else [step]
  }

  /** The dispatcher's own steps of a run. */
  function OwnSteps(steps: seq<Step>): seq<Step> {
    if steps == [] then [] else OwnStep(steps[0]) + OwnSteps(steps[1..])
  }

  lemma {:induction false} OwnStepsConcat(a: seq<Step>, b: seq<Step>)
    ensures OwnSteps(a + b) == OwnSteps(a) + OwnSteps(b)
  {
    if a == [] {
      assert a + b == b;
    } else {
      assert (a + b)[1..] == a[1..] + b;
      OwnStepsConcat(a[1..], b);
    }
  }

  ghost predicate Continues(before: History, after: History) {
    before.states <= after.states && before.steps <= after.steps
  }

  /** The run has gone on, and these are the steps that the dispatcher has taken meanwhile. */
  ghost predicate Did(before: History, after: History, own: seq<Step>) {
    Continues(before, after) && OwnSteps(after.steps[|before.steps|..]) == own
  }

  lemma DidFacts(before: History, after: History, own: seq<Step>)
    requires Did(before, after, own)
    ensures Continues(before, after)
  {
  }

  lemma DidBoth(a: History, b: History, c: History, first: seq<Step>, second: seq<Step>)
    requires Did(a, b, first) && Did(b, c, second)
    ensures Did(a, c, first + second)
  {
    OwnStepsConcat(b.steps[|a.steps|..], c.steps[|b.steps|..]);
    assert c.steps[|a.steps|..] == b.steps[|a.steps|..] + c.steps[|b.steps|..];
  }

  lemma ContinuesBoth(a: History, b: History, c: History)
    requires Continues(a, b) && Continues(b, c)
    ensures Continues(a, c)
  {
  }

  /** More of the run, whatever the dispatcher's steps in it. */
  lemma Goes(a: History, b: History, c: History)
    requires Continues(a, b) && exists own :: Did(b, c, own)
    ensures Continues(a, c)
  {
  }

  lemma StillHere(a: History)
    ensures Did(a, a, [])
  {
  }

  function AfterPreparing(task: nat, how: Preparation): Dispatcher {
    if how.NeedsExecute? then Dispatching(task) else Calling(task, how.UpToDate?, Batch)
  }

  /** The steps of one round of the batch loop after the task was handed out. */
  function DispatchSteps(how: Preparation): seq<Step> {
    [Prepare(how)] + if how.NeedsExecute? then [JobScheduler.Step.Put, Count] else [Callback, Postprocessing]
  }

  /** One more step. */
  lemma StepOn(past: History, step: Step, after: State, num: nat, total: nat)
    requires RunFromInit(past.states, past.steps, num, total) && Enabled(past.states[|past.steps|], step)
    requires Next(past.states[|past.steps|], step) == after
    ensures RunFromInit(past.states + [after], past.steps + [step], num, total)
    ensures Did(past, History(past.states + [after], past.steps + [step]), OwnStep(step))
    ensures |past.states| == |past.steps| + 1 && 0 <= Measure(after) < Measure(past.states[|past.steps|])
  {
    hide Enabled, Next, Init, Measure, CountsInv;
    assert (past.steps + [step])[|past.steps|..] == [step];
    assert OwnSteps([step][1..]) == [];
    RunKeepsCounts(past.states, past.steps, num, total, |past.steps|);
    RunDecreases(past.states, past.steps, num, total, |past.steps|);
    StepDecreases(past.states[|past.steps|], step);
  }

  /** What a task has been told, with more callbacks. */
  function Told(calls: seq<seq<Call>>, task: nat, more: seq<Call>): seq<seq<Call>> {
    if task < |calls| then calls[task := calls[task] + more] else calls
  }

  function SentinelSteps(n: nat): seq<Step> {
    if n == 0 then [] else SentinelSteps(n - 1) + [Sentinel]
  }

  /** What a task is told in the batch loop. */
  function Dispatched(how: Preparation): seq<Call> {
    if how.NeedsExecute? then [] else [CallOf(how.UpToDate?), Postprocess]
  }

  lemma ToldNothing(calls: seq<seq<Call>>, task: nat)
    ensures Told(calls, task, []) == calls
  {
    assert task < |calls| ==> calls[task] + [] == calls[task];
  }

  lemma ToldNew(calls: seq<seq<Call>>, more: seq<Call>)
    ensures Told(calls + [[]], |calls|, more) == calls + [more]
  {
    assert [] + more == more;
  }

  lemma ToldTwice(calls: seq<seq<Call>>, task: nat, first: Call, second: Call)
    requires task < |calls|
    ensures Told(Told(calls, task, [first]), task, [second]) == Told(calls, task, [first, second])
  {
    assert calls[task] + [first] + [second] == calls[task] + [first, second];
  }

  class Parallel {
    const maxjobs: nat
    /** How many tasks the taskmaster has to give. */
    const total: nat
    var requestQueue: seq<Option<nat>>
    var resultsQueue: seq<(nat, bool)>
    var workers: seq<Worker>
    var interrupted: bool
    /** The callbacks that each task has got. */
    var calls: seq<seq<Call>>

    ghost var places: seq<Place>
    ghost var verdicts: seq<Verdict>
    ghost var states: seq<State>
    ghost var steps: seq<Step>

    ghost function Now(d: Dispatcher, jobs: int): State
      reads this
    {
      State(total, jobs, d, workers, requestQueue, resultsQueue, interrupted, calls, places, verdicts)
    }

    ghost function Past(): History
      reads this`states, this`steps
    {
      History(states, steps)
    }

    /** What has happened so far is a run of the step machine that has come to this point. */
    ghost predicate Traced(d: Dispatcher, jobs: int)
      reads this
    {
      RunFromInit(states, steps, maxjobs, total) && states[|steps|] == Now(d, jobs)
    }

    constructor (num: nat, total: nat)
      requires 0 < num
      ensures Traced(Asking, 0) && maxjobs == num && this.total == total
    {
      maxjobs, this.total := num, total;
      requestQueue, resultsQueue, workers, interrupted, calls := [], [], seq(num, _ => Waiting), false, [];
      places, verdicts, states, steps := [], [], [Init(num, total)], [];
    }

    lemma TracedInv(d: Dispatcher, jobs: int)
      requires Traced(d, jobs)
      ensures TasksInv(Now(d, jobs)) && CountsInv(Now(d, jobs)) && |workers| == maxjobs
      ensures |places| <= total && 0 <= Measure(Now(d, jobs)) && |states| == |steps| + 1
    {
      RunKeepsTasks(states, steps, maxjobs, total, |steps|);
      RunKeepsCounts(states, steps, maxjobs, total, |steps|);
      RunDecreases(states, steps, maxjobs, total, |steps|);
    }

    lemma TracedNow(d: Dispatcher, jobs: int)
      requires Traced(d, jobs)
      ensures 0 <= Measure(Now(d, jobs)) && Continues(Past(), Past()) && |workers| == maxjobs
    {
      TracedInv(d, jobs);
    }

    /** The last change of the fields was this step. */
    ghost method Record(before: State, step: Step, d: Dispatcher, jobs: int)
      requires RunFromInit(states, steps, maxjobs, total) && states[|steps|] == before
      requires Enabled(before, step) && Next(before, step) == Now(d, jobs)
      modifies this`states, this`steps
      ensures Traced(d, jobs) && Measure(Now(d, jobs)) < Measure(before)
      ensures Did(old(Past()), Past(), OwnStep(step)) && states == old(states) + [Now(d, jobs)]
    {
      hide Enabled, Next, Init, Measure, Run;
      StepOn(Past(), step, Now(d, jobs), maxjobs, total);
      states, steps := states + [Now(d, jobs)], steps + [step];
    }

    predicate CanWork(w: nat)
      reads this
    {
      w < |workers| && (IsBusy(workers[w]) || (workers[w].Waiting? && requestQueue != []))
    }

    /** requestQueue.get in a worker: a task to execute, or a sentinel to stop at. */
    method TakeRequest(w: nat, ghost d: Dispatcher, ghost jobs: int)
      requires Traced(d, jobs) && w < |workers| && workers[w].Waiting? && requestQueue != []
      modifies this
      ensures Traced(d, jobs) && Measure(Now(d, jobs)) < old(Measure(Now(d, jobs))) && calls == old(calls)
      ensures Did(old(Past()), Past(), []) && old(resultsQueue) <= resultsQueue
      ensures requestQueue == old(requestQueue[1..]) && resultsQueue == old(resultsQueue)
      ensures workers == old(workers)[w := if old(requestQueue[0]).None? then Stopped
                                           else Taken(old(requestQueue[0]).value)]
    {
      hide Measure, CountsInv, HeldInv, CallsInv, ResultsInv, WorkersInv, RunFromInit;
      ghost var before := Now(d, jobs);
      TracedInv(d, jobs);
      var request := requestQueue[0];
      requestQueue := requestQueue[1..];
      if request.None? {
        workers := workers[w := Stopped];
      } else {
        workers := workers[w := Taken(request.value)];
        places := places[request.value := Working(w)];
      }
      Record(before, Take(w), d, jobs);
    }

    /** The flag is looked at before the task is executed. */
    method LookAtFlag(w: nat, ghost d: Dispatcher, ghost jobs: int)
      requires Traced(d, jobs) && w < |workers| && workers[w].Taken?
      modifies this
      ensures Traced(d, jobs) && Measure(Now(d, jobs)) < old(Measure(Now(d, jobs))) && calls == old(calls)
      ensures Did(old(Past()), Past(), []) && old(resultsQueue) <= resultsQueue
      ensures requestQueue == old(requestQueue) && resultsQueue == old(resultsQueue)
      ensures workers == old(workers)[w := if old(interrupted) then Reporting(old(workers[w]).task, false)
                                           else Executing(old(workers[w]).task)]
    {
      hide Measure, CountsInv, HeldInv, CallsInv, ResultsInv, RequestsInv, RunFromInit, Did;
      ghost var before := Now(d, jobs);
      TracedInv(d, jobs);
      var task := workers[w].task;
      if interrupted {
        workers := workers[w := Reporting(task, false)];
        verdicts := verdicts[task := Bad];
      } else {
        workers := workers[w := Executing(task)];
      }
      Record(before, Look(w), d, jobs);
    }

    /** task.execute, which may fail */
    method ExecuteTask(w: nat, ghost d: Dispatcher, ghost jobs: int)
      requires Traced(d, jobs) && w < |workers| && workers[w].Executing?
      modifies this
      ensures Traced(d, jobs) && Measure(Now(d, jobs)) < old(Measure(Now(d, jobs))) && calls == old(calls)
      ensures Did(old(Past()), Past(), []) && old(resultsQueue) <= resultsQueue
      ensures requestQueue == old(requestQueue) && resultsQueue == old(resultsQueue)
      ensures exists ok: bool :: workers == old(workers)[w := Reporting(old(workers[w]).task, ok)]
    {
      hide Measure, CountsInv, HeldInv, CallsInv, ResultsInv, RequestsInv, RunFromInit, Did;
      ghost var before := Now(d, jobs);
      TracedInv(d, jobs);
      var task := workers[w].task;
      var ok: bool := *;
      workers := workers[w := Reporting(task, ok)];
      verdicts := verdicts[task := VerdictOf(ok)];
      Record(before, Execute(w, ok), d, jobs);
    }

    /** resultsQueue.put */
    method DeliverResult(w: nat, ghost d: Dispatcher, ghost jobs: int)
      requires Traced(d, jobs) && w < |workers| && workers[w].Reporting?
      modifies this
      ensures Traced(d, jobs) && Measure(Now(d, jobs)) < old(Measure(Now(d, jobs))) && calls == old(calls)
      ensures Did(old(Past()), Past(), []) && old(resultsQueue) <= resultsQueue
      ensures requestQueue == old(requestQueue) && workers == old(workers)[w := Waiting]
      ensures resultsQueue == old(resultsQueue) + [(old(workers[w]).task, old(workers[w]).ok)]
    {
      hide Measure, CountsInv, HeldInv, CallsInv, ResultsInv, RequestsInv, RunFromInit, Did;
      ghost var before := Now(d, jobs);
      TracedInv(d, jobs);
      var task, ok := workers[w].task, workers[w].ok;
      resultsQueue := resultsQueue + [(task, ok)];
      workers := workers[w := Waiting];
      places := places[task := Resulted];
      Record(before, Deliver(w), d, jobs);
    }

    /** The next action of any worker, if it can act. */
    method Act(w: nat, ghost d: Dispatcher, ghost jobs: int)
      requires Traced(d, jobs) && CanWork(w)
      modifies this
      ensures Traced(d, jobs) && Measure(Now(d, jobs)) < old(Measure(Now(d, jobs))) && calls == old(calls)
      ensures Did(old(Past()), Past(), []) && old(resultsQueue) <= resultsQueue && |workers| == |old(workers)|
      ensures requestQueue == if old(workers[w]).Waiting? then old(requestQueue[1..]) else old(requestQueue)
      ensures resultsQueue == old(resultsQueue) +
        if old(workers[w]).Reporting? then [(old(workers[w]).task, old(workers[w]).ok)] else []
      ensures old(workers[w]).Taken? ==>
        workers[w] == if old(interrupted) then Reporting(old(workers[w]).task, false)
                      else Executing(old(workers[w]).task)
      ensures old(workers[w]).Executing? ==> workers[w].Reporting? && workers[w].task == old(workers[w]).task
    {
      hide Traced, Measure, Did;
      if workers[w].Waiting? {
        TakeRequest(w, d, jobs);
      } else if workers[w].Taken? {
        LookAtFlag(w, d, jobs);
      } else if workers[w].Executing? {
        ExecuteTask(w, d, jobs);
      } else {
        DeliverResult(w, d, jobs);
      }
    }

    /** The other threads between two accesses of the dispatcher: any number of actions, in any order. */
    method Others(ghost d: Dispatcher, ghost jobs: int)
      requires Traced(d, jobs)
      modifies this
      ensures Traced(d, jobs) && Measure(Now(d, jobs)) <= old(Measure(Now(d, jobs))) && calls == old(calls)
      ensures Did(old(Past()), Past(), []) && old(resultsQueue) <= resultsQueue
    {
      hide Measure, CountsInv, TasksInv, RunFromInit;
      TracedInv(d, jobs);
      while *
        invariant Traced(d, jobs) && calls == old(calls)
        invariant Did(old(Past()), Past(), []) && old(resultsQueue) <= resultsQueue
        invariant 0 <= Measure(Now(d, jobs)) <= old(Measure(Now(d, jobs)))
        decreases Measure(Now(d, jobs))
      {
        ghost var past := Past();
        var w: nat := *;
        if CanWork(w) {
          Act(w, d, jobs);
        } else if !interrupted {
          ghost var before := Now(d, jobs);
          interrupted := true;
          Record(before, Interrupt, d, jobs);
        } else {
          break;
        }
        DidBoth(old(Past()), past, Past(), [], []);
        TracedInv(d, jobs);
      }
    }

    // ----- The taskmaster -----

    /** next_task: a new task while there are any, or none, at its discretion. */
    method NextTask(ghost jobs: int) returns (task: Option<nat>)
      requires Traced(Asking, jobs) && jobs < maxjobs
      modifies this
      ensures task.Some? ==> Traced(Preparing(task.value), jobs)
      ensures task.Some? ==> Measure(Now(Preparing(task.value), jobs)) < old(Measure(Now(Asking, jobs)))
      ensures calls == old(calls) + if task.Some? then [[]] else []
      ensures task.Some? ==> task.value == |old(calls)| < total
      ensures Did(old(Past()), Past(), [Ask(task.Some?)])
      ensures task.None? ==> Traced(Deciding(true), jobs)
      ensures task.None? ==> Measure(Now(Deciding(true), jobs)) < old(Measure(Now(Asking, jobs)))
    {
      hide Measure, CountsInv, RequestsInv, WorkersInv, ResultsInv, CallsInv, RunFromInit;
      ghost var before := Now(Asking, jobs);
      TracedInv(Asking, jobs);
      var give: bool := *;
      if give && |calls| < total {
        task := Some(|calls|);
        calls, places, verdicts := calls + [[]], places + [Held], verdicts + [Pending];
        Record(before, Ask(true), Preparing(task.value), jobs);
      } else {
        task := None;
        Record(before, Ask(false), Deciding(true), jobs);
      }
    }

    /** task.executed or task.failed */
    method Report(task: nat, ok: bool, ghost phase: Phase, ghost jobs: int)
      requires Traced(Calling(task, ok, phase), jobs)
      modifies this
      ensures Traced(Post(task, phase), jobs) && Did(old(Past()), Past(), [Callback])
      ensures task < |old(calls)| && calls == Told(old(calls), task, [CallOf(ok)])
      ensures Measure(Now(Post(task, phase), jobs)) < old(Measure(Now(Calling(task, ok, phase), jobs)))
    {
      hide Measure, CountsInv, RequestsInv, WorkersInv, ResultsInv, CallsInv, RunFromInit;
      ghost var before := Now(Calling(task, ok, phase), jobs);
      TracedInv(Calling(task, ok, phase), jobs);
      calls := calls[task := calls[task] + [CallOf(ok)]];
      Record(before, Callback, Post(task, phase), jobs);
    }

    /** task.postprocess */
    method PostprocessTask(task: nat, ghost phase: Phase, ghost jobs: int)
      requires Traced(Post(task, phase), jobs)
      modifies this
      ensures var d := if phase == Batch then Asking else Checking;
        Traced(d, jobs) && Measure(Now(d, jobs)) < old(Measure(Now(Post(task, phase), jobs)))
      ensures task < |old(calls)| && calls == Told(old(calls), task, [Postprocess])
      ensures Did(old(Past()), Past(), [Postprocessing])
    {
      hide Measure, CountsInv, RequestsInv, WorkersInv, ResultsInv, CallsInv, RunFromInit;
      ghost var before := Now(Post(task, phase), jobs);
      TracedInv(Post(task, phase), jobs);
      calls, places := calls[task := calls[task] + [Postprocess]], places[task := Finished];
      Record(before, Postprocessing, if phase == Batch then Asking else Checking, jobs);
    }

    /** executed or failed, and then postprocess. */
    method Settle(task: nat, ok: bool, ghost phase: Phase, ghost jobs: int)
      requires Traced(Calling(task, ok, phase), jobs)
      modifies this
      ensures var d := if phase == Batch then Asking else Checking;
        Traced(d, jobs) && Measure(Now(d, jobs)) < old(Measure(Now(Calling(task, ok, phase), jobs)))
      ensures task < |old(calls)| && calls == Told(old(calls), task, [CallOf(ok), Postprocess])
      ensures Did(old(Past()), Past(), [Callback, Postprocessing])
    {
      hide Measure, Traced, Did;
      Report(task, ok, phase, jobs);
      ghost var reported := Past();
      Others(Post(task, phase), jobs);
      DidBoth(old(Past()), reported, Past(), [Callback], []);
      ghost var past := Past();
      PostprocessTask(task, phase, jobs);
      DidBoth(old(Past()), past, Past(), [Callback] + [], [Postprocessing]);
      assert [Callback] + [] + [Postprocessing] == [Callback, Postprocessing];
      ToldTwice(old(calls), task, CallOf(ok), Postprocess);
    }

    // ----- The pool -----

    /** ThreadPool.put */
    method Request(task: nat, ghost jobs: int)
      requires Traced(Dispatching(task), jobs)
      modifies this
      ensures Traced(Counting, jobs) && Measure(Now(Counting, jobs)) < old(Measure(Now(Dispatching(task), jobs)))
      ensures requestQueue == old(requestQueue) + [Some(task)] && calls == old(calls)
      ensures Did(old(Past()), Past(), [JobScheduler.Step.Put])
      ensures |states| == old(|states|) + 1 && states[old(|states|)].requests == requestQueue
    {
      hide Measure, CountsInv, RequestsInv, WorkersInv, ResultsInv, CallsInv, RunFromInit;
      ghost var before := Now(Dispatching(task), jobs);
      TracedInv(Dispatching(task), jobs);
      requestQueue := requestQueue + [Some(task)];
      places := places[task := Requested];
      Record(before, JobScheduler.Step.Put, Counting, jobs);
    }

    /** jobs = jobs + 1 */
    method AddJob(jobs: int) returns (more: int)
      requires Traced(Counting, jobs)
      modifies this`states, this`steps
      ensures Traced(Asking, more) && Measure(Now(Asking, more)) < old(Measure(Now(Counting, jobs)))
      ensures more == jobs + 1 && Did(old(Past()), Past(), [Count])
    {
      hide Measure, RunFromInit;
      more := jobs + 1;
      Record(Now(Counting, jobs), Count, Asking, more);
    }

    /** ThreadPool.put, and the count that follows it */
    method Put(task: nat, jobs: int) returns (more: int)
      requires Traced(Dispatching(task), jobs)
      modifies this
      ensures Traced(Asking, more) && Measure(Now(Asking, more)) < old(Measure(Now(Dispatching(task), jobs)))
      ensures more == jobs + 1 && calls == old(calls)
      ensures Did(old(Past()), Past(), [JobScheduler.Step.Put, Count])
      ensures old(|states|) < |states| && states[old(|states|)].requests == old(requestQueue) + [Some(task)]
    {
      hide Measure, Traced, Did;
      Request(task, jobs);
      ghost var requested := Past();
      Others(Counting, jobs);
      DidBoth(old(Past()), requested, Past(), [JobScheduler.Step.Put], []);
      ghost var past := Past();
      more := AddJob(jobs);
      DidBoth(old(Past()), past, Past(), [JobScheduler.Step.Put] + [], [Count]);
      assert [JobScheduler.Step.Put] + [] + [Count] == [JobScheduler.Step.Put, Count];
      DidFacts(requested, past, []);
      DidFacts(past, Past(), [Count]);
    }

    lemma SomebodyWorks(jobs: int) returns (w: nat)
      requires Traced(Getting, jobs) && resultsQueue == []
      ensures CanWork(w)
    {
      TracedInv(Getting, jobs);
      var step := InFlightMoves(Now(Getting, jobs));
      w := step.w;
    }

    /** ThreadPool.get: waits until some worker has delivered a result, which never takes for ever. */
    method Get(ghost jobs: int) returns (task: nat, ok: bool)
      requires Traced(Getting, jobs)
      modifies this
      ensures Traced(Discounting(task, ok), jobs)
      ensures Measure(Now(Discounting(task, ok), jobs)) < old(Measure(Now(Getting, jobs)))
      ensures calls == old(calls) && Did(old(Past()), Past(), [JobScheduler.Step.Get])
      ensures old(resultsQueue) != [] ==> (task, ok) == old(resultsQueue[0])
      ensures |states| >= 2 && states[|states| - 2].results == [(task, ok)] + resultsQueue
    {
      hide Measure, Traced, Did;
      AwaitResult(jobs);
      ghost var past := Past();
      task, ok := TakeResult(jobs);
      DidBoth(old(Past()), past, Past(), [], [JobScheduler.Step.Get]);
      assert [] + [JobScheduler.Step.Get] == [JobScheduler.Step.Get];
    }

    /** As long as there is no result some worker works towards one. */
    method AwaitResult(ghost jobs: int)
      requires Traced(Getting, jobs)
      modifies this
      ensures Traced(Getting, jobs) && Measure(Now(Getting, jobs)) <= old(Measure(Now(Getting, jobs)))
      ensures resultsQueue != [] && old(resultsQueue) <= resultsQueue && calls == old(calls)
      ensures Did(old(Past()), Past(), [])
    {
      hide Measure, CountsInv, TasksInv, RunFromInit, Did;
      Others(Getting, jobs);
      TracedInv(Getting, jobs);
      while resultsQueue == []
        invariant Traced(Getting, jobs) && calls == old(calls) && old(resultsQueue) <= resultsQueue
        invariant 0 <= Measure(Now(Getting, jobs)) <= old(Measure(Now(Getting, jobs)))
        invariant Did(old(Past()), Past(), [])
        decreases Measure(Now(Getting, jobs))
      {
        ghost var past := Past();
        ghost var v := SomebodyWorks(jobs);
        var w: nat :| w < |workers| && CanWork(w);
        Act(w, Getting, jobs);
        DidBoth(old(Past()), past, Past(), [], []);
        past := Past();
        Others(Getting, jobs);
        DidBoth(old(Past()), past, Past(), [], []);
        TracedInv(Getting, jobs);
      }
    }

    /** resultsQueue.get in the dispatcher, once there is a result */
    method TakeResult(ghost jobs: int) returns (task: nat, ok: bool)
      requires Traced(Getting, jobs) && resultsQueue != []
      modifies this
      ensures Traced(Discounting(task, ok), jobs)
      ensures Measure(Now(Discounting(task, ok), jobs)) < old(Measure(Now(Getting, jobs)))
      ensures old(resultsQueue) == [(task, ok)] + resultsQueue && calls == old(calls)
      ensures Did(old(Past()), Past(), [JobScheduler.Step.Get])
      ensures |states| >= 2 && states[|states| - 2].results == old(resultsQueue)
    {
      hide Measure, CountsInv, HeldInv, RequestsInv, WorkersInv, CallsInv, RunFromInit;
      ghost var before := Now(Getting, jobs);
      TracedInv(Getting, jobs);
      task, ok := resultsQueue[0].0, resultsQueue[0].1;
      resultsQueue := resultsQueue[1..];
      places := places[task := Held];
      Record(before, JobScheduler.Step.Get, Discounting(task, ok), jobs);
    }

    method PutSentinel(ghost put: nat)
      requires Traced(Cleaning(put), 0) && put < maxjobs
      modifies this
      ensures Traced(Cleaning(put + 1), 0) && calls == old(calls)
      ensures requestQueue == old(requestQueue) + [None] && Did(old(Past()), Past(), [Sentinel])
    {
      hide Measure, CountsInv, TasksInv, RunFromInit, Did;
      ghost var before := Now(Cleaning(put), 0);
      TracedInv(Cleaning(put), 0);
      requestQueue := requestQueue + [None];
      Record(before, Sentinel, Cleaning(put + 1), 0);
    }

    /** The end of the loop over the workers. */
    ghost method FinishCleanup()
      requires Traced(Cleaning(maxjobs), 0)
      modifies this`states, this`steps
      ensures Traced(Done, 0) && Did(old(Past()), Past(), [Finish])
    {
      hide Measure, CountsInv, TasksInv, RunFromInit, Did;
      TracedInv(Cleaning(maxjobs), 0);
      Record(Now(Cleaning(maxjobs), 0), Finish, Done, 0);
    }

    /** ThreadPool.cleanup, up to the joins: one sentinel for each worker. */
    method Cleanup()
      requires Traced(Cleaning(0), 0)
      modifies this
      ensures Traced(Done, 0) && calls == old(calls)
      ensures Did(old(Past()), Past(), SentinelSteps(maxjobs) + [Finish])
    {
      hide Measure, Traced, Did;
      TracedNow(Cleaning(0), 0);
      StillHere(Past());
      for i := 0 to |workers|
        invariant |workers| == maxjobs && Traced(Cleaning(i), 0) && calls == old(calls)
        invariant Did(old(Past()), Past(), SentinelSteps(i))
      {
        ghost var past := Past();
        Others(Cleaning(i), 0);
        DidBoth(old(Past()), past, Past(), SentinelSteps(i), []);
        past := Past();
        PutSentinel(i);
        DidBoth(old(Past()), past, Past(), SentinelSteps(i) + [], [Sentinel]);
        assert SentinelSteps(i) + [] + [Sentinel] == SentinelSteps(i + 1);
        TracedNow(Cleaning(i + 1), 0);
      }
      ghost var past := Past();
      FinishCleanup();
      DidBoth(old(Past()), past, Past(), SentinelSteps(maxjobs), [Finish]);
    }

    // ----- start -----

    /** How the task's preparation ends. */
    method PrepareTask(task: nat, ghost jobs: int) returns (how: Preparation)
      requires Traced(Preparing(task), jobs)
      modifies this
      ensures Traced(AfterPreparing(task, how), jobs) && task < |calls| && calls == old(calls)
      ensures Measure(Now(AfterPreparing(task, how), jobs)) < old(Measure(Now(Preparing(task), jobs)))
      ensures Did(old(Past()), Past(), [Prepare(how)])
    {
      hide Measure, CountsInv, RequestsInv, WorkersInv, ResultsInv, CallsInv, RunFromInit, Did;
      ghost var before := Now(Preparing(task), jobs);
      TracedInv(Preparing(task), jobs);
      how := *;
      match how {
        case Fails => verdicts := verdicts[task := Bad];
        case UpToDate => verdicts := verdicts[task := Good];
        case NeedsExecute =>
      }
      Record(before, Prepare(how), AfterPreparing(task, how), jobs);
    }

    /** One round of the batch loop: a task that was handed out is prepared and dispatched, or settled at once. */
    method Dispatch(task: nat, jobs: int) returns (more: int, how: Preparation)
      requires Traced(Preparing(task), jobs)
      modifies this
      ensures Traced(Asking, more) && Measure(Now(Asking, more)) < old(Measure(Now(Preparing(task), jobs)))
      ensures Did(old(Past()), Past(), DispatchSteps(how))
      ensures more == if how.NeedsExecute? then jobs + 1 else jobs
      ensures task < |old(calls)|
      ensures calls == Told(old(calls), task, Dispatched(how))
    {
      hide Measure, Traced, Did, Told;
      how := PrepareTask(task, jobs);
      ghost var past := Past();
      if how.NeedsExecute? {
        ToldNothing(calls, task);
        more := Put(task, jobs);
        DidBoth(old(Past()), past, Past(), [Prepare(how)], [JobScheduler.Step.Put, Count]);
      } else {
        Settle(task, how.UpToDate?, Batch, jobs);
        more := jobs;
        DidBoth(old(Past()), past, Past(), [Prepare(how)], [Callback, Postprocessing]);
      }
    }

    /** One round of the batch loop, with what the other threads do meanwhile. */
    method BatchRound(jobs: int) returns (more: int, none: bool)
      requires Traced(Asking, jobs) && jobs < maxjobs
      modifies this
      ensures none ==> Traced(Deciding(true), more)
      ensures none ==> Measure(Now(Deciding(true), more)) < old(Measure(Now(Asking, jobs)))
      ensures !none ==> Traced(Asking, more) && Measure(Now(Asking, more)) < old(Measure(Now(Asking, jobs)))
      ensures if none then more == jobs && calls == old(calls) && Did(old(Past()), Past(), [Ask(false)])
              else exists how: Preparation ::
                more == (if how.NeedsExecute? then jobs + 1 else jobs) && calls == old(calls) + [Dispatched(how)] &&
                Did(old(Past()), Past(), [Ask(true)] + DispatchSteps(how))
    {
      hide Measure, Traced, Did, Told;
      Others(Asking, jobs);
      ghost var past := Past();
      var task := NextTask(jobs);
      DidBoth(old(Past()), past, Past(), [], [Ask(task.Some?)]);
      assert [] + [Ask(task.Some?)] == [Ask(task.Some?)];
      more, none := jobs, task.None?;
      if task.Some? {
        past := Past();
        Others(Preparing(task.value), jobs);
        DidBoth(old(Past()), past, Past(), [Ask(true)], []);
        assert [Ask(true)] + [] == [Ask(true)];
        past := Past();
        var how;
        more, how := Dispatch(task.value, jobs);
        ToldNew(old(calls), Dispatched(how));
        DidBoth(old(Past()), past, Past(), [Ask(true)], DispatchSteps(how));
      }
    }

    /** The batch loop: tasks are taken up while there are any and fewer than maxjobs are under way. */
    method StartBatch(jobs: int) returns (more: int, none: bool)
      requires Traced(Asking, jobs)
      modifies this
      ensures Traced(Deciding(none), more)
      ensures Measure(Now(Deciding(none), more)) < old(Measure(Now(Asking, jobs)))
      ensures Continues(old(Past()), Past()) && more >= jobs && (none <==> more < maxjobs)
    {
      hide Measure, Traced, Did, Continues;
      more, none := jobs, false;
      TracedNow(Asking, more);
      while more < maxjobs
        invariant Traced(Asking, more) && 0 <= Measure(Now(Asking, more)) <= old(Measure(Now(Asking, jobs)))
        invariant Continues(old(Past()), Past()) && more >= jobs && !none
        decreases Measure(Now(Asking, more))
      {
        ghost var past := Past();
        more, none := BatchRound(more);
        Goes(old(Past()), past, Past());
        if none {
          return;
        }
        TracedNow(Asking, more);
      }
      ghost var past := Past();
      FullBatch(more);
      Goes(old(Past()), past, Past());
    }

    /** The end of the batch loop at its condition. */
    method FullBatch(jobs: int)
      requires Traced(Asking, jobs) && jobs >= maxjobs
      modifies this`states, this`steps
      ensures Traced(Deciding(false), jobs)
      ensures Measure(Now(Deciding(false), jobs)) < old(Measure(Now(Asking, jobs)))
      ensures Did(old(Past()), Past(), [Full])
    {
      hide Measure, CountsInv, TasksInv, RunFromInit, Did;
      TracedInv(Asking, jobs);
      Record(Now(Asking, jobs), Full, Deciding(false), jobs);
    }

    /** One result: the count, and the callbacks. */
    method Collect(jobs: int) returns (fewer: int, task: nat, ok: bool)
      requires Traced(Getting, jobs)
      modifies this
      ensures Traced(Checking, fewer) && Measure(Now(Checking, fewer)) < old(Measure(Now(Getting, jobs)))
      ensures fewer == jobs - 1 && Did(old(Past()), Past(), [JobScheduler.Step.Get, Discount, Callback, Postprocessing])
      ensures task < |old(calls)| && calls == Told(old(calls), task, [CallOf(ok), Postprocess])
      ensures old(resultsQueue) != [] ==> (task, ok) == old(resultsQueue[0])
    {
      hide Measure, Traced, Did, Told;
      task, ok := Get(jobs);
      ghost var past := Past();
      fewer := RemoveJob(task, ok, jobs);
      DidBoth(old(Past()), past, Past(), [JobScheduler.Step.Get], [Discount]);
      past := Past();
      Others(Calling(task, ok, Results), fewer);
      DidBoth(old(Past()), past, Past(), [JobScheduler.Step.Get] + [Discount], []);
      past := Past();
      Settle(task, ok, Results, fewer);
      DidBoth(old(Past()), past, Past(), [JobScheduler.Step.Get] + [Discount] + [], [Callback, Postprocessing]);
      assert [JobScheduler.Step.Get] + [Discount] + [] + [Callback, Postprocessing] ==
             [JobScheduler.Step.Get, Discount, Callback, Postprocessing];
    }

    /** jobs = jobs - 1 */
    method RemoveJob(ghost task: nat, ghost ok: bool, jobs: int) returns (fewer: int)
      requires Traced(Discounting(task, ok), jobs)
      modifies this`states, this`steps
      ensures Traced(Calling(task, ok, Results), fewer) && fewer == jobs - 1
      ensures Measure(Now(Calling(task, ok, Results), fewer)) < old(Measure(Now(Discounting(task, ok), jobs)))
      ensures Did(old(Past()), Past(), [Discount])
    {
      hide Measure, RunFromInit, Did;
      fewer := jobs - 1;
      Record(Now(Discounting(task, ok), jobs), Discount, Calling(task, ok, Results), fewer);
    }

    /** Is the result queue empty? */
    method CheckResults(ghost jobs: int) returns (empty: bool)
      requires Traced(Checking, jobs)
      modifies this
      ensures var d := if empty then Asking else Getting;
        Traced(d, jobs) && Measure(Now(d, jobs)) < old(Measure(Now(Checking, jobs)))
      ensures empty <==> resultsQueue == []
      ensures calls == old(calls) && Did(old(Past()), Past(), [Check])
    {
      hide Measure, RunFromInit, Did;
      Others(Checking, jobs);
      ghost var past := Past();
      empty := resultsQueue == [];
      Record(Now(Checking, jobs), Check, if empty then Asking else Getting, jobs);
      DidBoth(old(Past()), past, Past(), [], [Check]);
      assert [] + [Check] == [Check];
    }

    /** The results loop: it ends when the result queue is found empty. */
    method CollectResults(jobs: int) returns (fewer: int)
      requires Traced(Getting, jobs)
      modifies this
      ensures Traced(Asking, fewer) && Measure(Now(Asking, fewer)) < old(Measure(Now(Getting, jobs)))
      ensures resultsQueue == [] && fewer < jobs && Continues(old(Past()), Past())
    {
      hide Measure, Traced, Did, Continues, Told;
      fewer := jobs;
      TracedNow(Getting, fewer);
      while true
        invariant Traced(Getting, fewer) && fewer <= jobs && Continues(old(Past()), Past())
        invariant 0 <= Measure(Now(Getting, fewer)) <= old(Measure(Now(Getting, jobs)))
        decreases Measure(Now(Getting, fewer))
      {
        ghost var past := Past();
        var task, ok;
        fewer, task, ok := Collect(fewer);
        Goes(old(Past()), past, Past());
        past := Past();
        var empty := CheckResults(fewer);
        Goes(old(Past()), past, Past());
        if empty {
          break;
        }
        TracedNow(Getting, fewer);
      }
    }

    /** Each task that was handed out has got executed or failed, by how it went, and then postprocess. */
    ghost predicate AllSettled()
      reads this`calls, this`verdicts
    {
      |calls| == |verdicts| && forall t :: 0 <= t < |calls| ==> calls[t] == Reported(verdicts[t]) + [Postprocess]
    }

    /**
      Parallel.start.  It ends, whatever the workers and the taskmaster do; every task that was handed out has
      been settled exactly once, no result is left and every worker has stopped or will take a sentinel.
    */
    method Start()
      requires Traced(Asking, 0)
      modifies this
      ensures Traced(Done, 0) && AllSettled() && Continues(old(Past()), Past())
      ensures resultsQueue == [] && Busy(workers) == 0
      ensures |requestQueue| + StoppedCount(workers) == |workers| == maxjobs
    {
      hide Measure, Traced, Did, Continues;
      var jobs := 0;
      TracedNow(Asking, jobs);
      while true
        invariant Traced(Asking, jobs) && 0 <= Measure(Now(Asking, jobs)) && Continues(old(Past()), Past())
        decreases Measure(Now(Asking, jobs))
      {
        ghost var past := Past();
        var none;
        jobs, none := StartBatch(jobs);
        ContinuesBoth(old(Past()), past, Past());
        past := Past();
        DecideOn(none, jobs);
        Goes(old(Past()), past, Past());
        if none && jobs == 0 {
          break;
        }
        past := Past();
        jobs := CollectResults(jobs);
        ContinuesBoth(old(Past()), past, Past());
        TracedNow(Asking, jobs);
      }
      ghost var past := Past();
      Cleanup();
      Goes(old(Past()), past, Past());
      Outcome();
    }

    /** if not task and not jobs */
    ghost method DecideOn(none: bool, jobs: int)
      requires Traced(Deciding(none), jobs)
      modifies this`states, this`steps
      ensures var d := if none && jobs == 0 then Cleaning(0) else Getting;
        Traced(d, jobs) && Measure(Now(d, jobs)) < old(Measure(Now(Deciding(none), jobs)))
      ensures Did(old(Past()), Past(), [Decide])
    {
      hide Measure, RunFromInit, Did;
      Record(Now(Deciding(none), jobs), Decide, if none && jobs == 0 then Cleaning(0) else Getting, jobs);
    }

    lemma Outcome()
      requires Traced(Done, 0)
      ensures AllSettled() && resultsQueue == [] && Busy(workers) == 0
      ensures |requestQueue| + StoppedCount(workers) == |workers| == maxjobs
    {
      TracedInv(Done, 0);
      forall t | 0 <= t < |calls| ensures |calls| == |verdicts| && calls[t] == Reported(verdicts[t]) + [Postprocess] {
        EachTaskSettlesOnce(states, steps, maxjobs, total, |steps|, t);
      }
    }
  }
}
