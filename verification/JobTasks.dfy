/**
  What happens to each task of the job scheduler: it is always in exactly one place, and it gets exactly one of
  executed and failed, by how it went, and then exactly one postprocess.
*/
module JobTasks {
  import opened Common
  import opened JobScheduler
  import opened JobCounts

  /** The task in the dispatcher's hands. */
  function Hand(d: Dispatcher): Option<nat> {
    match d
    case Preparing(task) => Some(task)
    case Dispatching(task) => Some(task)
    case Discounting(task, _) => Some(task)
    case Calling(task, _, _) => Some(task)
    case Post(task, _) => Some(task)
    case _ => None
  }

  ghost predicate Sized(s: State) {
    |s.places| == |s.calls| == |s.verdicts|
  }

  ghost predicate HeldInv(s: State) {
    && Sized(s)
    && (Hand(s.dispatcher).Some? ==>
          var task := Hand(s.dispatcher).value;
          && task < |s.places| && s.places[task] == Held
          && match s.dispatcher
             case Preparing(_) => s.verdicts[task] == Pending
             case Dispatching(_) => s.verdicts[task] == Pending
             case Discounting(_, ok) => s.verdicts[task] == VerdictOf(ok)
             case Calling(_, ok, _) => s.verdicts[task] == VerdictOf(ok)
             case _ => s.verdicts[task] != Pending)
    && forall t :: 0 <= t < |s.places| && s.places[t] == Held ==> Hand(s.dispatcher) == Some(t)
  }

  ghost predicate RequestsInv(s: State) {
    && Sized(s)
    && (forall i :: 0 <= i < |s.requests| && s.requests[i].Some? ==>
          var task := s.requests[i].value;
          task < |s.places| && s.places[task] == Requested && s.verdicts[task] == Pending)
    && (forall i, j :: 0 <= i < j < |s.requests| && s.requests[i].Some? ==> s.requests[i] != s.requests[j])
    && forall t :: 0 <= t < |s.places| && s.places[t] == Requested ==> Some(t) in s.requests
  }

  ghost predicate WorkersInv(s: State) {
    && Sized(s)
    && (forall w :: 0 <= w < |s.workers| && IsBusy(s.workers[w]) ==>
          var q := s.workers[w];
          && q.task < |s.places| && s.places[q.task] == Working(w)
          && s.verdicts[q.task] == if q.Reporting? then VerdictOf(q.ok) else Pending)
    && forall t :: 0 <= t < |s.places| && s.places[t].Working? ==>
      var w := s.places[t].w; w < |s.workers| && IsBusy(s.workers[w]) && s.workers[w].task == t
  }

  ghost predicate ResultsInv(s: State) {
    && Sized(s)
    && (forall i :: 0 <= i < |s.results| ==>
          var (task, ok) := s.results[i];
          task < |s.places| && s.places[task] == Resulted && s.verdicts[task] == VerdictOf(ok))
    && (forall i, j :: 0 <= i < j < |s.results| ==> s.results[i].0 != s.results[j].0)
    && forall t :: 0 <= t < |s.places| && s.places[t] == Resulted ==>
      exists i :: 0 <= i < |s.results| && s.results[i].0 == t
  }

  /** The one callback that a verdict calls for. */
  function Reported(v: Verdict): seq<Call> {
    match v
    case Pending => []
    case Good => [Executed]
    case Bad => [Failed]
  }

  function ExpectedCalls(p: Place, v: Verdict, posting: bool): seq<Call> {
    if p == Finished then Reported(v) + [Postprocess] else if posting then Reported(v) else []
  }

  ghost predicate CallsInv(s: State) {
    && Sized(s)
    && forall t :: 0 <= t < |s.places| ==>
      && (s.places[t] == Finished ==> s.verdicts[t] != Pending)
      && s.calls[t] ==
         ExpectedCalls(s.places[t], s.verdicts[t], s.dispatcher.Post? && s.dispatcher.task == t)
  }

  ghost predicate TasksInv(s: State) {
    HeldInv(s) && RequestsInv(s) && WorkersInv(s) && ResultsInv(s) && CallsInv(s)
  }

  // ----- A step concerns one task only -----

  /** The task that a step concerns; a number not yet given out if there is none. */
  function Touched(s: State, step: Step): nat
    requires Enabled(s, step)
  {
    match step
    case Prepare(_) => s.dispatcher.task
    case Put => s.dispatcher.task
    case Get => s.results[0].0
    case Callback => s.dispatcher.task
    case Postprocessing => s.dispatcher.task
    case Take(_) => if s.requests[0].Some? then s.requests[0].value else |s.places|
    case Look(w) => s.workers[w].task
    case Execute(w, _) => s.workers[w].task
    case Deliver(w) => s.workers[w].task
    case _ => |s.places|
  }

  /** Only the given task has moved; a new one is in the dispatcher's hands. */
  ghost predicate Untouched(s: State, s': State, task: nat) {
    && Sized(s) && Sized(s') && |s.places| <= |s'.places|
    && (forall t :: 0 <= t < |s.places| && t != task ==>
          s'.places[t] == s.places[t] && s'.verdicts[t] == s.verdicts[t] && s'.calls[t] == s.calls[t])
    && (forall t :: |s.places| <= t < |s'.places| ==>
          s'.places[t] == Held && s'.verdicts[t] == Pending && s'.calls[t] == [])
  }

  lemma OneTaskMoves(s: State, step: Step)
    requires Sized(s) && Enabled(s, step)
    ensures Untouched(s, Next(s, step), Touched(s, step))
  {
  }

  /** Where a step finds what it concerns. */
  lemma TouchedPlace(s: State, step: Step)
    requires TasksInv(s) && Enabled(s, step) && Touched(s, step) < |s.places|
    ensures var p := s.places[Touched(s, step)];
      if step.Take? then p == Requested && s.verdicts[Touched(s, step)] == Pending
      else if IsWorkerStep(step) then p == Working(step.w)
      else if step.Get? then p == Resulted
      else p == Held
  {
    hide CallsInv;
    assert IsWorkerStep(step) && !step.Take? ==> IsBusy(s.workers[step.w]);
  }

  lemma RequestsFrame(s: State, s': State, task: nat)
    requires RequestsInv(s) && Untouched(s, s', task) && s'.requests == s.requests
    requires task < |s.places| ==> s.places[task] != Requested && s'.places[task] != Requested
    ensures RequestsInv(s')
  {
  }

  lemma WorkersFrame(s: State, s': State, task: nat)
    requires WorkersInv(s) && Untouched(s, s', task) && s'.workers == s.workers
    requires task < |s.places| ==> !s.places[task].Working? && !s'.places[task].Working?
    ensures WorkersInv(s')
  {
  }

  lemma ResultsFrame(s: State, s': State, task: nat)
    requires ResultsInv(s) && Untouched(s, s', task) && s'.results == s.results
    requires task < |s.places| ==> s.places[task] != Resulted && s'.places[task] != Resulted
    ensures ResultsInv(s')
  {
    forall t | 0 <= t < |s'.places| && s'.places[t] == Resulted
      ensures exists i :: 0 <= i < |s'.results| && s'.results[i].0 == t
    {
      assert s.places[t] == Resulted;
      var i :| 0 <= i < |s.results| && s.results[i].0 == t;
      assert s'.results[i].0 == t;
    }
  }

  // ----- The request queue -----

  lemma PutKeepsRequests(s: State, s': State, task: nat)
    requires RequestsInv(s) && Untouched(s, s', task) && task < |s.places|
    requires s.places[task] != Requested && s'.places[task] == Requested && s'.verdicts[task] == Pending
    requires s'.requests == s.requests + [Some(task)]
    ensures RequestsInv(s')
  {
    forall t | 0 <= t < |s'.places| && s'.places[t] == Requested ensures Some(t) in s'.requests {
      assert t != task ==> Some(t) in s.requests;
      assert s'.requests[|s.requests|] == Some(task);
    }
  }

  lemma SentinelKeepsRequests(s: State, s': State, task: nat)
    requires RequestsInv(s) && Untouched(s, s', task) && |s.places| <= task
    requires s'.requests == s.requests + [None]
    ensures RequestsInv(s')
  {
    forall t | 0 <= t < |s'.places| && s'.places[t] == Requested ensures Some(t) in s'.requests {
      assert Some(t) in s.requests;
    }
  }

  lemma TakeKeepsRequests(s: State, s': State, task: nat)
    requires RequestsInv(s) && Untouched(s, s', task) && s.requests != []
    requires s'.requests == s.requests[1..]
    requires s.requests[0].Some? ==> s.requests[0].value == task < |s.places| && s'.places[task] != Requested
    requires s.requests[0].None? ==> task >= |s.places|
    ensures RequestsInv(s')
  {
    forall t | 0 <= t < |s'.places| && s'.places[t] == Requested ensures Some(t) in s'.requests {
      var i :| 0 <= i < |s.requests| && s.requests[i] == Some(t);
      assert s'.requests[i - 1] == Some(t);
    }
  }

  lemma RequestsKeep(s: State, step: Step)
    requires TasksInv(s) && Enabled(s, step)
    ensures RequestsInv(Next(s, step))
  {
    hide WorkersInv, ResultsInv, CallsInv, RequestsInv, Untouched;
    var s' := Next(s, step);
    var task := Touched(s, step);
    HeldSized(s);
    OneTaskMoves(s, step);
    if task < |s.places| {
      TouchedPlace(s, step);
    }
    if step.Put? {
      PutKeepsRequests(s, s', task);
    } else if step.Sentinel? {
      SentinelKeepsRequests(s, s', task);
    } else if step.Take? {
      TakeKeepsRequests(s, s', task);
    } else {
      RequestsFrame(s, s', task);
    }
  }

  lemma HeldSized(s: State)
    requires HeldInv(s)
    ensures Sized(s)
  {
  }

  // ----- The result queue -----

  lemma GetKeepsResults(s: State, s': State, task: nat)
    requires ResultsInv(s) && Untouched(s, s', task) && s.results != [] && s'.results == s.results[1..]
    requires s.results[0].0 == task < |s.places| && s'.places[task] != Resulted
    ensures ResultsInv(s')
  {
    forall t | 0 <= t < |s'.places| && s'.places[t] == Resulted
      ensures exists i :: 0 <= i < |s'.results| && s'.results[i].0 == t
    {
      var i :| 0 <= i < |s.results| && s.results[i].0 == t;
      assert s'.results[i - 1].0 == t;
    }
  }

  lemma DeliverKeepsResults(s: State, s': State, task: nat, ok: bool)
    requires ResultsInv(s) && Untouched(s, s', task) && task < |s.places|
    requires s.places[task] != Resulted && s'.places[task] == Resulted && s'.verdicts[task] == VerdictOf(ok)
    requires s'.results == s.results + [(task, ok)]
    ensures ResultsInv(s')
  {
    forall t | 0 <= t < |s'.places| && s'.places[t] == Resulted
      ensures exists i :: 0 <= i < |s'.results| && s'.results[i].0 == t
    {
      if t == task {
        assert s'.results[|s.results|].0 == t;
      } else {
        var i :| 0 <= i < |s.results| && s.results[i].0 == t;
        assert s'.results[i].0 == t;
      }
    }
  }

  lemma ResultsKeep(s: State, step: Step)
    requires TasksInv(s) && Enabled(s, step)
    ensures ResultsInv(Next(s, step))
  {
    hide RequestsInv, CallsInv, ResultsInv, Untouched;
    var s' := Next(s, step);
    var task := Touched(s, step);
    HeldSized(s);
    OneTaskMoves(s, step);
    if task < |s.places| {
      TouchedPlace(s, step);
    }
    if step.Get? {
      GetKeepsResults(s, s', task);
    } else if step.Deliver? {
      assert IsBusy(s.workers[step.w]);
      DeliverKeepsResults(s, s', task, s.workers[step.w].ok);
    } else {
      ResultsFrame(s, s', task);
    }
  }

  // ----- The workers -----

  lemma WorkerMoves(s: State, s': State, task: nat, w: nat, q: Worker)
    requires WorkersInv(s) && Untouched(s, s', task) && w < |s.workers| && s'.workers == s.workers[w := q]
    requires !q.Stopped? ==> task < |s.places|
    requires IsBusy(s.workers[w]) ==> s.workers[w].task == task
    requires !IsBusy(s.workers[w]) && task < |s.places| ==> !s.places[task].Working?
    requires IsBusy(q) ==>
      q.task == task && s'.places[task] == Working(w) &&
      s'.verdicts[task] == if q.Reporting? then VerdictOf(q.ok) else Pending
    requires !IsBusy(q) && task < |s.places| ==> !s'.places[task].Working?
    ensures WorkersInv(s')
  {
  }

  lemma WorkersKeep(s: State, step: Step)
    requires TasksInv(s) && Enabled(s, step)
    ensures WorkersInv(Next(s, step))
  {
    hide ResultsInv, CallsInv, HeldInv, RequestsInv, Untouched, WorkersInv;
    var s' := Next(s, step);
    var task := Touched(s, step);
    HeldSized(s);
    OneTaskMoves(s, step);
    if task < |s.places| {
      TouchedPlace(s, step);
    }
    if IsWorkerStep(step) {
      WorkerStepKeepsWorkers(s, step, task);
    } else {
      WorkersFrame(s, s', task);
    }
  }

  lemma WorkerStepKeepsWorkers(s: State, step: Step, task: nat)
    requires WorkersInv(s) && Enabled(s, step) && IsWorkerStep(step) && task == Touched(s, step)
    requires Untouched(s, Next(s, step), task)
    requires task < |s.places| ==>
      if step.Take? then s.places[task] == Requested && s.verdicts[task] == Pending
      else s.places[task] == Working(step.w)
    ensures WorkersInv(Next(s, step))
  {
    BusyFacts(s, step);
    hide WorkersInv, Untouched;
    WorkerMoves(s, Next(s, step), task, step.w, Next(s, step).workers[step.w]);
  }

  lemma BusyFacts(s: State, step: Step)
    requires WorkersInv(s) && Enabled(s, step) && IsWorkerStep(step)
    ensures Sized(s) && (step.Take? || IsBusy(s.workers[step.w]))
    ensures !step.Take? ==>
      var q := s.workers[step.w];
      q.task < |s.places| && s.verdicts[q.task] == if q.Reporting? then VerdictOf(q.ok) else Pending
  {
  }

  // ----- The dispatcher's hands and the callbacks -----

  /** The steps by which the dispatcher takes up a task or gives it away. */
  predicate Hands(step: Step) {
    step.Ask? || step.Put? || step.Get? || step.Postprocessing?
  }

  lemma HandsKeepHeld(s: State, step: Step)
    requires TasksInv(s) && Enabled(s, step) && Hands(step)
    ensures HeldInv(Next(s, step))
  {
    hide RequestsInv, WorkersInv, CallsInv;
  }

  lemma DispatcherKeepsHeld(s: State, step: Step)
    requires TasksInv(s) && Enabled(s, step) && !IsWorkerStep(step) && !Hands(step)
    ensures HeldInv(Next(s, step))
  {
    hide RequestsInv, WorkersInv, CallsInv, ResultsInv;
  }

  lemma HeldFrame(s: State, s': State, task: nat)
    requires HeldInv(s) && Untouched(s, s', task) && |s'.places| == |s.places| && s'.dispatcher == s.dispatcher
    requires task < |s.places| ==> s.places[task] != Held && s'.places[task] != Held
    ensures HeldInv(s')
  {
  }

  lemma HeldKeeps(s: State, step: Step)
    requires TasksInv(s) && Enabled(s, step)
    ensures HeldInv(Next(s, step))
  {
    hide RequestsInv, WorkersInv, ResultsInv, CallsInv, Untouched, HeldInv;
    if IsWorkerStep(step) {
      var task := Touched(s, step);
      HeldSized(s);
      OneTaskMoves(s, step);
      if task < |s.places| {
        TouchedPlace(s, step);
      }
      HeldFrame(s, Next(s, step), task);
    } else if Hands(step) {
      HandsKeepHeld(s, step);
    } else {
      DispatcherKeepsHeld(s, step);
    }
  }

  lemma CallbackKeepsCalls(s: State, step: Step)
    requires TasksInv(s) && Enabled(s, step) && (step.Callback? || step.Postprocessing?)
    ensures CallsInv(Next(s, step))
  {
    hide RequestsInv, WorkersInv, ResultsInv;
  }

  lemma CallsFrame(s: State, s': State, task: nat)
    requires CallsInv(s) && Untouched(s, s', task)
    requires (!s.dispatcher.Post? && !s'.dispatcher.Post?) || s'.dispatcher == s.dispatcher
    requires s.dispatcher.Post? ==> s.dispatcher.task < |s.places| && s.dispatcher.task != task
    requires task < |s.places| ==>
      s.places[task] != Finished && s'.places[task] != Finished && s'.calls[task] == s.calls[task]
    ensures CallsInv(s')
  {
  }

  lemma CallsKeep(s: State, step: Step)
    requires TasksInv(s) && Enabled(s, step)
    ensures CallsInv(Next(s, step))
  {
    hide RequestsInv, WorkersInv, ResultsInv, CallsInv, Untouched;
    if step.Callback? || step.Postprocessing? {
      CallbackKeepsCalls(s, step);
    } else {
      var task := Touched(s, step);
      OneTaskMoves(s, step);
      if task < |s.places| {
        TouchedPlace(s, step);
      }
      CallsFrame(s, Next(s, step), task);
    }
  }

  lemma TasksKeep(s: State, step: Step)
    requires TasksInv(s) && Enabled(s, step)
    ensures TasksInv(Next(s, step))
  {
    HeldKeeps(s, step);
    RequestsKeep(s, step);
    WorkersKeep(s, step);
    ResultsKeep(s, step);
    CallsKeep(s, step);
  }

  lemma {:induction false} RunKeepsTasks(states: seq<State>, steps: seq<Step>, num: nat, total: nat, i: nat)
    requires RunFromInit(states, steps, num, total) && i < |states|
    ensures TasksInv(states[i])
  {
    if i == 0 {
    } else {
      hide TasksInv;
      RunKeepsTasks(states, steps, num, total, i - 1);
      TasksKeep(states[i - 1], steps[i - 1]);
    }
  }

  // ----- The theorems -----

  lemma {:induction false} TaskCounts(requests: seq<Option<nat>>, task: nat)
    requires Some(task) in requests
    ensures CountSome(requests) > 0
  {
    if requests[0] != Some(task) {
      TaskCounts(requests[1..], task);
    }
  }

  lemma {:induction false} BusyCounts(workers: seq<Worker>, w: nat)
    requires w < |workers| && IsBusy(workers[w])
    ensures Busy(workers) > 0
  {
    if w > 0 {
      BusyCounts(workers[1..], w - 1);
    }
  }

  /**
    In every interleaving a task has got, at any time, nothing, or the callback for how it went, or that one
    followed by postprocess; once cleaning up begins every task that was handed out has got both.
  */
  lemma EachTaskSettlesOnce(states: seq<State>, steps: seq<Step>, num: nat, total: nat, i: nat, t: nat)
    requires RunFromInit(states, steps, num, total) && i < |states|
    requires t < |states[i].places| && t < |states[i].calls| && t < |states[i].verdicts|
    ensures var s := states[i];
      s.calls[t] in {[], Reported(s.verdicts[t]), Reported(s.verdicts[t]) + [Postprocess]}
    ensures states[i].calls[t] != [] ==> states[i].verdicts[t] != Pending
    ensures Closing(states[i].dispatcher) ==> states[i].calls[t] == Reported(states[i].verdicts[t]) + [Postprocess]
  {
    RunKeepsTasks(states, steps, num, total, i);
    RunKeepsCounts(states, steps, num, total, i);
    var s := states[i];
    if Closing(s.dispatcher) {
      match s.places[t]
      case Requested => TaskCounts(s.requests, t);
      case Working(w) => BusyCounts(s.workers, w);
      case _ =>
    }
  }

  /** The step settles how t went. */
  ghost predicate Settles(s: State, step: Step, t: nat, ok: bool) {
    && Enabled(s, step)
    && match step
       case Prepare(how) => s.dispatcher.task == t && how == if ok then UpToDate else Fails
       case Look(w) => s.workers[w].task == t && s.interrupted && !ok
       case Execute(w, o) => s.workers[w].task == t && o == ok
       case _ => false
  }

  lemma VerdictStep(s: State, step: Step, t: nat)
    requires TasksInv(s) && Enabled(s, step) && t < |Next(s, step).verdicts|
    ensures t < |s.verdicts| && s.verdicts[t] != Pending ==> Next(s, step).verdicts[t] == s.verdicts[t]
    ensures Next(s, step).verdicts[t] != Pending && (t < |s.verdicts| ==> s.verdicts[t] == Pending) ==>
      Settles(s, step, t, Next(s, step).verdicts[t] == Good)
  {
    hide RequestsInv, ResultsInv, CallsInv;
    assert IsWorkerStep(step) && !step.Take? ==> IsBusy(s.workers[step.w]);
  }

  /**
    Executed is called only for a task that needed no run or whose run raised nothing, and Failed only for one
    whose preparation or run raised or that met an interrupt.
  */
  lemma {:induction false} VerdictHasCause(states: seq<State>, steps: seq<Step>, num: nat, total: nat,
                                           i: nat, t: nat) returns (j: nat)
    requires RunFromInit(states, steps, num, total) && i < |states|
    requires t < |states[i].verdicts| && states[i].verdicts[t] != Pending
    ensures j < i && Settles(states[j], steps[j], t, states[i].verdicts[t] == Good)
  {
    hide TasksInv, Settles;
    var a, step := states[i - 1], steps[i - 1];
    RunKeepsTasks(states, steps, num, total, i - 1);
    VerdictStep(a, step, t);
    if t < |a.verdicts| && a.verdicts[t] != Pending {
      j := VerdictHasCause(states, steps, num, total, i - 1, t);
    } else {
      j := i - 1;
    }
  }

  ghost predicate AllOver(s: State) {
    && s.dispatcher.Done? && s.requests == [] && s.results == []
    && forall w :: 0 <= w < |s.workers| ==> s.workers[w].Stopped?
  }

  lemma BusyCanMove(s: State, w: nat) returns (step: Step)
    requires WorkersInv(s) && w < |s.workers| && IsBusy(s.workers[w])
    ensures Enabled(s, step) && IsWorkerStep(step)
  {
    match s.workers[w]
    case Taken(_) => step := Look(w);
    case Executing(_) => step := Execute(w, true);
    case Reporting(_, _) => step := Deliver(w);
  }

  lemma WaitingCanTake(s: State, w: nat) returns (step: Step)
    requires RequestsInv(s) && w < |s.workers| && s.workers[w].Waiting? && s.requests != []
    ensures Enabled(s, step) && IsWorkerStep(step)
  {
    step := Take(w);
  }

  lemma TasksNeedRequests(requests: seq<Option<nat>>)
    ensures CountSome(requests) > 0 ==> requests != []
  {
  }

  /** While tasks are in flight somebody can move. */
  lemma InFlightMoves(s: State) returns (step: Step)
    requires TasksInv(s) && CountsInv(s) && s.dispatcher.Getting?
    ensures Enabled(s, step) && !step.Interrupt?
  {
    hide CallsInv, HeldInv;
    if s.results != [] {
      step := Get;
    } else {
      TasksNeedRequests(s.requests);
      var w := SomeWorker(s.workers);
      hide Busy, CountSome, StoppedCount;
      if Busy(s.workers) > 0 {
        step := BusyCanMove(s, w);
      } else {
        step := WaitingCanTake(s, w);
      }
    }
  }

  /** The dispatcher is never held up except while it waits for a result. */
  lemma DispatcherMoves(s: State) returns (step: Step)
    requires HeldInv(s) && !s.dispatcher.Getting? && !s.dispatcher.Done?
    ensures Enabled(s, step) && !step.Interrupt? && !IsWorkerStep(step)
  {
    match s.dispatcher
    case Asking => step := if s.jobs < |s.workers| then Ask(false) else Full;
    case Preparing(_) => step := Prepare(Fails);
    case Dispatching(_) => step := Put;
    case Counting => step := Count;
    case Deciding(_) => step := Decide;
    case Discounting(_, _) => step := Discount;
    case Calling(_, _, _) => step := Callback;
    case Post(_, _) => step := Postprocessing;
    case Checking => step := Check;
    case Cleaning(put) => step := if put < |s.workers| then Sentinel else Finish;
  }

  /** Once it is done the workers take the sentinels that are left. */
  lemma SentinelsMove(s: State) returns (step: Step)
    requires RequestsInv(s) && CountsInv(s) && s.dispatcher.Done? && s.requests != []
    ensures Enabled(s, step) && IsWorkerStep(step)
  {
    var w := SomeWorker(s.workers);
    hide Busy, CountSome, StoppedCount;
    step := WaitingCanTake(s, w);
  }

  lemma NothingLeft(s: State)
    requires CountsInv(s) && s.dispatcher.Done? && s.requests == []
    ensures AllOver(s)
  {
    AllStopped(s.workers);
  }

  /** No interleaving gets stuck: until everything is over some step other than an interrupt is possible. */
  lemma NeverStuck(states: seq<State>, steps: seq<Step>, num: nat, total: nat, i: nat) returns (step: Step)
    requires RunFromInit(states, steps, num, total) && i < |states| && !AllOver(states[i])
    ensures Enabled(states[i], step) && !step.Interrupt?
  {
    hide HeldInv, RequestsInv, CountsInv, AllOver, Run;
    var s := states[i];
    RunKeepsTasks(states, steps, num, total, i);
    RunKeepsCounts(states, steps, num, total, i);
    if s.dispatcher.Getting? {
      step := InFlightMoves(s);
    } else if !s.dispatcher.Done? {
      step := DispatcherMoves(s);
    } else if s.requests != [] {
      step := SentinelsMove(s);
    } else {
      NothingLeft(s);
      assert false;
    }
  }
}
