/**
  The parallel job scheduler of scons_local/scons-local-2.3.0/SCons/Job.py as a step machine: the dispatcher of
  Parallel.start, the queues of ThreadPool and the threads of Worker.run, interleaved freely.

  The k-th task that the taskmaster hands out is called k.  The taskmaster may answer with no task at any time,
  and preparing and executing a task may fail.  `places` and `verdicts` record where each task is and how it
  went; they steer nothing.
*/
module JobScheduler {
  import opened Common

  datatype Call = Executed | Failed | Postprocess

  datatype Verdict = Pending | Good | Bad

  datatype Place = Held | Requested | Working(w: nat) | Resulted | Finished

  datatype Phase = Batch | Results

  datatype Dispatcher =
    | Asking                                        // while jobs < maxjobs
    | Preparing(task: nat)
    | Dispatching(task: nat)                        // about to put it into the request queue
    | Counting                                      // about to add 1 to jobs
    | Deciding(none: bool)                          // if not task and not jobs
    | Getting                                       // about to take a result
    | Discounting(task: nat, ok: bool)              // about to subtract 1 from jobs
    | Calling(task: nat, ok: bool, phase: Phase)    // about to call executed or failed
    | Post(task: nat, phase: Phase)                 // about to call postprocess
    | Checking                                      // is the result queue empty?
    | Cleaning(put: nat)                            // sentinels put so far
    | Done

  datatype Worker =
    | Waiting
    | Taken(task: nat)            // about to look at the interrupt flag
    | Executing(task: nat)
    | Reporting(task: nat, ok: bool)
    | Stopped

  datatype State = State(
    total: nat,
    jobs: int,
    dispatcher: Dispatcher,
    workers: seq<Worker>,
    requests: seq<Option<nat>>,
    results: seq<(nat, bool)>,
    interrupted: bool,
    calls: seq<seq<Call>>,
    places: seq<Place>,
    verdicts: seq<Verdict>)

  datatype Preparation = Fails | UpToDate | NeedsExecute

  datatype Step =
    | Ask(some: bool)
    | Full
    | Prepare(how: Preparation)
    | Put
    | Count
    | Decide
    | Get
    | Discount
    | Callback
    | Postprocessing
    | Check
    | Sentinel
    | Finish
    | Take(w: nat)
    | Look(w: nat)
    | Execute(w: nat, ok: bool)
    | Deliver(w: nat)
    | Interrupt

  /** As many workers as jobs may run at once. */
  function Init(num: nat, total: nat): State {
    State(total, 0, Asking, seq(num, _ => Waiting), [], [], false, [], [], [])
  }

  function VerdictOf(ok: bool): Verdict {
    if ok then Good else Bad
  }

  function CallOf(ok: bool): Call {
    if ok then Executed else Failed
  }

  predicate Known(s: State, task: nat) {
    task < |s.places| == |s.calls| == |s.verdicts|
  }

  predicate IsWorkerStep(step: Step) {
    step.Take? || step.Look? || step.Execute? || step.Deliver?
  }

  predicate Enabled(s: State, step: Step) {
    var d := s.dispatcher;
    match step
    case Ask(some) => d.Asking? && s.jobs < |s.workers| && (some ==> |s.places| < s.total)
    case Full => d.Asking? && s.jobs >= |s.workers|
    case Prepare(_) => d.Preparing? && Known(s, d.task)
    case Put => d.Dispatching? && Known(s, d.task)
    case Count => d.Counting?
    case Decide => d.Deciding?
    case Get => d.Getting? && s.results != [] && Known(s, s.results[0].0)
    case Discount => d.Discounting?
    case Callback => d.Calling? && Known(s, d.task)
    case Postprocessing => d.Post? && Known(s, d.task)
    case Check => d.Checking?
    case Sentinel => d.Cleaning? && d.put < |s.workers|
    case Finish => d.Cleaning? && d.put >= |s.workers|
    case Take(w) =>
      w < |s.workers| && s.workers[w].Waiting? && s.requests != [] &&
      (s.requests[0].Some? ==> Known(s, s.requests[0].value))
    case Look(w) => w < |s.workers| && s.workers[w].Taken? && Known(s, s.workers[w].task)
    case Execute(w, _) => w < |s.workers| && s.workers[w].Executing? && Known(s, s.workers[w].task)
    case Deliver(w) => w < |s.workers| && s.workers[w].Reporting? && Known(s, s.workers[w].task)
    case Interrupt => !s.interrupted
  }

  function DispatcherNext(s: State, step: Step): State
    requires Enabled(s, step) && !IsWorkerStep(step)
  {
    var d := s.dispatcher;
    match step
    case Ask(some) =>
      if some then
        s.(dispatcher := Preparing(|s.places|), places := s.places + [Held], calls := s.calls + [[]],
           verdicts := s.verdicts + [Pending])
      else s.(dispatcher := Deciding(true))
    case Full => s.(dispatcher := Deciding(false))
    case Prepare(how) => (
      match how
      case Fails => s.(dispatcher := Calling(d.task, false, Batch), verdicts := s.verdicts[d.task := Bad])
      case UpToDate => s.(dispatcher := Calling(d.task, true, Batch), verdicts := s.verdicts[d.task := Good])
      case NeedsExecute => s.(dispatcher := Dispatching(d.task)))
    case Put =>
      s.(dispatcher := Counting, requests := s.requests + [Some(d.task)], places := s.places[d.task := Requested])
    case Count => s.(dispatcher := Asking, jobs := s.jobs + 1)
    case Decide => s.(dispatcher := if d.none && s.jobs == 0 then Cleaning(0) else Getting)
    case Get =>
      var (task, ok) := s.results[0];
      s.(dispatcher := Discounting(task, ok), results := s.results[1..], places := s.places[task := Held])
    case Discount => s.(dispatcher := Calling(d.task, d.ok, Results), jobs := s.jobs - 1)
    case Callback =>
      s.(dispatcher := Post(d.task, d.phase), calls := s.calls[d.task := s.calls[d.task] + [CallOf(d.ok)]])
    case Postprocessing =>
      s.(dispatcher := if d.phase == Batch then Asking else Checking,
         calls := s.calls[d.task := s.calls[d.task] + [Postprocess]], places := s.places[d.task := Finished])
    case Check => s.(dispatcher := if s.results == [] then Asking else Getting)
    case Sentinel => s.(dispatcher := Cleaning(d.put + 1), requests := s.requests + [None])
    case Finish => s.(dispatcher := Done)
    case Interrupt => s.(interrupted := true)
  }

  function WorkerNext(s: State, step: Step): State
    requires Enabled(s, step) && IsWorkerStep(step)
  {
    var q := s.workers[step.w];
    match step
    case Take(w) =>
      var rest := s.(requests := s.requests[1..]);
      if s.requests[0].None? then rest.(workers := s.workers[w := Stopped])
      else
        var task := s.requests[0].value;
        rest.(workers := s.workers[w := Taken(task)], places := s.places[task := Working(w)])
    case Look(w) =>
      if s.interrupted then
        s.(workers := s.workers[w := Reporting(q.task, false)], verdicts := s.verdicts[q.task := Bad])
      else s.(workers := s.workers[w := Executing(q.task)])
    case Execute(w, ok) =>
      s.(workers := s.workers[w := Reporting(q.task, ok)], verdicts := s.verdicts[q.task := VerdictOf(ok)])
    case Deliver(w) =>
      s.(workers := s.workers[w := Waiting], results := s.results + [(q.task, q.ok)],
         places := s.places[q.task := Resulted])
  }

  function Next(s: State, step: Step): State
    requires Enabled(s, step)
  {
    if IsWorkerStep(step) then WorkerNext(s, step) else DispatcherNext(s, step)
  }

  ghost predicate Run(states: seq<State>, steps: seq<Step>) {
    && |states| == |steps| + 1
    && forall i :: 0 <= i < |steps| ==> Enabled(states[i], steps[i]) && states[i + 1] == Next(states[i], steps[i])
  }

  ghost predicate RunFromInit(states: seq<State>, steps: seq<Step>, num: nat, total: nat) {
    Run(states, steps) && 0 < num && states[0] == Init(num, total)
  }
}
