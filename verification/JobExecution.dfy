/**
  Which tasks of the job scheduler are executed: each at most once, only if its preparation said so, and only after its
  worker has found the interrupt flag clear for that very task.  So every task that is still to be looked at when an
  interrupt comes fails without being executed.
*/
module JobExecutions {
  import opened Common
  import opened JobScheduler
  import opened JobCounts
  import opened JobTasks

  lemma RunStep(states: seq<State>, steps: seq<Step>, i: nat)
    requires Run(states, steps) && i < |steps|
    ensures |states| == |steps| + 1 && Enabled(states[i], steps[i]) && states[i + 1] == Next(states[i], steps[i])
  {
    hide Next, Enabled;
  }

  /** The worker looks at the flag before it executes the task, and finds it clear. */
  ghost predicate Clears(s: State, step: Step, w: nat, t: nat) {
    step == Look(w) && w < |s.workers| && s.workers[w] == Taken(t) && !s.interrupted
  }

  lemma StepToExecuting(s: State, step: Step, w: nat, t: nat)
    requires Enabled(s, step) && w < |s.workers| && w < |Next(s, step).workers|
    requires Next(s, step).workers[w] == Executing(t)
    ensures s.workers[w] == Executing(t) || Clears(s, step, w, t)
  {
  }

  lemma WorkersStay(s: State, step: Step)
    requires Enabled(s, step)
    ensures |Next(s, step).workers| == |s.workers|
  {
  }

  lemma {:induction false} ExecutingWasCleared(states: seq<State>, steps: seq<Step>, num: nat, total: nat,
                                               k: nat, w: nat, t: nat) returns (i: nat)
    requires RunFromInit(states, steps, num, total) && k < |states|
    requires w < |states[k].workers| && states[k].workers[w] == Executing(t)
    ensures i < k && Clears(states[i], steps[i], w, t)
  {
    hide Enabled, Next, Clears;
    if k == 0 {
      assert false;
    }
    RunStep(states, steps, k - 1);
    WorkersStay(states[k - 1], steps[k - 1]);
    StepToExecuting(states[k - 1], steps[k - 1], w, t);
    if Clears(states[k - 1], steps[k - 1], w, t) {
      i := k - 1;
    } else {
      i := ExecutingWasCleared(states, steps, num, total, k - 1, w, t);
    }
  }

  /**
    Whatever a worker executes, it has looked at the flag for it before, in a state in which nothing had interrupted
    the build.
  */
  lemma ExecuteWasCleared(states: seq<State>, steps: seq<Step>, num: nat, total: nat, j: nat, w: nat, ok: bool)
      returns (i: nat)
    requires RunFromInit(states, steps, num, total) && j < |steps| && steps[j] == Execute(w, ok)
    ensures w < |states[j].workers| && states[j].workers[w].Executing?
    ensures i < j && Clears(states[i], steps[i], w, states[j].workers[w].task)
  {
    RunStep(states, steps, j);
    i := ExecutingWasCleared(states, steps, num, total, j, w, states[j].workers[w].task);
  }

  lemma {:induction false} InterruptStays(states: seq<State>, steps: seq<Step>, i: nat, j: nat)
    requires Run(states, steps) && i <= j < |states| && states[i].interrupted
    ensures states[j].interrupted
    decreases j
  {
    if i < j {
      InterruptStays(states, steps, i, j - 1);
    }
  }

  /** After the interrupt only tasks that had been cleared before are executed. */
  lemma ClearedBeforeInterrupt(states: seq<State>, steps: seq<Step>, num: nat, total: nat, c: nat, j: nat, w: nat,
                               ok: bool) returns (i: nat)
    requires RunFromInit(states, steps, num, total) && c <= j < |steps| && steps[j] == Execute(w, ok)
    requires states[c].interrupted
    ensures w < |states[j].workers| && states[j].workers[w].Executing?
    ensures i < c && Clears(states[i], steps[i], w, states[j].workers[w].task)
  {
    i := ExecuteWasCleared(states, steps, num, total, j, w, ok);
    if c <= i {
      InterruptStays(states, steps, c, i);
      assert false;
    }
  }

  // ----- The tasks that an interrupt fails -----

  /** The task is on its way to a worker, or a worker has it and has not looked at the flag for it. */
  ghost predicate NotLookedAt(s: State, t: nat)
    requires t < |s.places|
  {
    match s.places[t]
    case Held => s.dispatcher == Dispatching(t)
    case Requested => true
    case Working(w) => w < |s.workers| && s.workers[w] == Taken(t)
    case _ => false
  }

  /** The build was interrupted before anybody looked at the flag for the task, or the task has failed. */
  ghost predicate Doomed(s: State, t: nat) {
    && t < |s.places| == |s.verdicts| && s.interrupted
    && (s.verdicts[t] == Bad || (s.verdicts[t] == Pending && NotLookedAt(s, t)))
  }

  lemma DispatcherDooms(s: State, step: Step, t: nat)
    requires TasksInv(s) && Enabled(s, step) && !IsWorkerStep(step) && Doomed(s, t)
    ensures Doomed(Next(s, step), t)
  {
    hide RequestsInv, CallsInv;
  }

  lemma WorkerDooms(s: State, step: Step, t: nat)
    requires TasksInv(s) && Enabled(s, step) && IsWorkerStep(step) && Doomed(s, t)
    ensures Doomed(Next(s, step), t)
  {
    hide ResultsInv, CallsInv, HeldInv;
    assert !step.Take? ==> IsBusy(s.workers[step.w]);
  }

  lemma StaysDoomed(s: State, step: Step, t: nat)
    requires TasksInv(s) && Enabled(s, step) && Doomed(s, t)
    ensures Doomed(Next(s, step), t)
  {
    hide TasksInv, Enabled, Next, Doomed;
    if IsWorkerStep(step) {
      WorkerDooms(s, step, t);
    } else {
      DispatcherDooms(s, step, t);
    }
  }

  lemma {:induction false} RunDooms(states: seq<State>, steps: seq<Step>, num: nat, total: nat, i: nat, j: nat, t: nat)
    requires RunFromInit(states, steps, num, total) && i <= j < |states| && Doomed(states[i], t)
    ensures Doomed(states[j], t)
    decreases j
  {
    hide TasksInv, Enabled, Next, Doomed;
    if i < j {
      RunDooms(states, steps, num, total, i, j - 1, t);
      RunKeepsTasks(states, steps, num, total, j - 1);
      RunStep(states, steps, j - 1);
      StaysDoomed(states[j - 1], steps[j - 1], t);
    }
  }

  /** In a place where nobody has looked at the flag for it, a task has no verdict yet. */
  lemma NotLookedAtIsPending(s: State, t: nat)
    requires TasksInv(s) && t < |s.places| && NotLookedAt(s, t)
    ensures t < |s.verdicts| && s.verdicts[t] == Pending
  {
    match s.places[t]
    case Held =>
    case Requested => assert Some(t) in s.requests;
    case Working(w) => assert IsBusy(s.workers[w]);
    case _ =>
  }

  /**
    The interrupt fails every task that is queued, or with a worker that has not looked at the flag for it, or about
    to be queued: it never goes well, it is told nothing but Failed and then Postprocess, and it has been told both
    once cleaning up begins.
  */
  lemma InterruptFails(states: seq<State>, steps: seq<Step>, num: nat, total: nat, i: nat, j: nat, t: nat)
    requires RunFromInit(states, steps, num, total) && i <= j < |states|
    requires states[i].interrupted && t < |states[i].places| && NotLookedAt(states[i], t)
    ensures t < |states[j].verdicts| && t < |states[j].calls| && states[j].verdicts[t] != Good
    ensures states[j].calls[t] in {[], [Failed], [Failed, Postprocess]}
    ensures Closing(states[j].dispatcher) ==> states[j].calls[t] == [Failed, Postprocess]
  {
    hide TasksInv, NotLookedAt, Run;
    RunKeepsTasks(states, steps, num, total, i);
    NotLookedAtIsPending(states[i], t);
    RunKeepsTasks(states, steps, num, total, j);
    SizedTasks(states[i]);
    SizedTasks(states[j]);
    RunDooms(states, steps, num, total, i, j, t);
    EachTaskSettlesOnce(states, steps, num, total, j, t);
    assert [Failed] + [Postprocess] == [Failed, Postprocess];
  }

  lemma SizedTasks(s: State)
    requires TasksInv(s)
    ensures Sized(s)
  {
  }

  // ----- A task is executed at most once -----

  lemma {:induction false} VerdictStays(states: seq<State>, steps: seq<Step>, num: nat, total: nat,
                                        i: nat, j: nat, t: nat)
    requires RunFromInit(states, steps, num, total) && i <= j < |states|
    requires t < |states[i].verdicts| && states[i].verdicts[t] != Pending
    ensures t < |states[j].verdicts| && states[j].verdicts[t] == states[i].verdicts[t]
    decreases j
  {
    hide TasksInv, Enabled, Next;
    if i < j {
      VerdictStays(states, steps, num, total, i, j - 1, t);
      RunKeepsTasks(states, steps, num, total, j - 1);
      RunStep(states, steps, j - 1);
      VerdictsGrow(states[j - 1], steps[j - 1]);
      VerdictStep(states[j - 1], steps[j - 1], t);
    }
  }

  lemma VerdictsGrow(s: State, step: Step)
    requires Enabled(s, step)
    ensures |s.verdicts| <= |Next(s, step).verdicts|
  {
  }

  lemma ExecuteGivesVerdict(s: State, w: nat, ok: bool)
    requires TasksInv(s) && Enabled(s, Execute(w, ok))
    ensures var t := s.workers[w].task;
      && t < |s.verdicts| && s.verdicts[t] == Pending
      && t < |Next(s, Execute(w, ok)).verdicts| && Next(s, Execute(w, ok)).verdicts[t] == VerdictOf(ok)
  {
    assert IsBusy(s.workers[w]);
  }

  /** No task is executed twice, by the same worker or by two. */
  lemma ExecutedAtMostOnce(states: seq<State>, steps: seq<Step>, num: nat, total: nat, j: nat, k: nat)
    requires RunFromInit(states, steps, num, total) && j < k < |steps| && steps[j].Execute? && steps[k].Execute?
    ensures steps[j].w < |states[j].workers| && states[j].workers[steps[j].w].Executing?
    ensures steps[k].w < |states[k].workers| && states[k].workers[steps[k].w].Executing?
    ensures states[j].workers[steps[j].w].task != states[k].workers[steps[k].w].task
  {
    hide TasksInv, Next;
    RunStep(states, steps, j);
    RunStep(states, steps, k);
    RunKeepsTasks(states, steps, num, total, j);
    RunKeepsTasks(states, steps, num, total, k);
    ExecuteGivesVerdict(states[j], steps[j].w, steps[j].ok);
    ExecuteGivesVerdict(states[k], steps[k].w, steps[k].ok);
    VerdictStays(states, steps, num, total, j + 1, k, states[j].workers[steps[j].w].task);
  }

  // ----- A task is executed only if its preparation says so -----

  ghost predicate Prepares(s: State, step: Step, t: nat, how: Preparation) {
    step == Prepare(how) && s.dispatcher == Preparing(t)
  }

  /** The task is on its way to being executed, or has been. */
  ghost predicate Sent(s: State, t: nat) {
    t < |s.places| && (s.dispatcher == Dispatching(t) || s.places[t] == Requested || s.places[t].Working?)
  }

  lemma StepSends(s: State, step: Step, t: nat)
    requires TasksInv(s) && Enabled(s, step) && Sent(Next(s, step), t)
    ensures Sent(s, t) || Prepares(s, step, t, NeedsExecute)
  {
    hide ResultsInv, CallsInv, WorkersInv;
  }

  lemma {:induction false} SentWasPrepared(states: seq<State>, steps: seq<Step>, num: nat, total: nat, k: nat, t: nat)
      returns (i: nat)
    requires RunFromInit(states, steps, num, total) && k < |states| && Sent(states[k], t)
    ensures i < k && Prepares(states[i], steps[i], t, NeedsExecute)
  {
    hide TasksInv, Enabled, Next, Sent, Prepares;
    if k == 0 {
      NothingSent(num, total, t);
      assert false;
    }
    RunKeepsTasks(states, steps, num, total, k - 1);
    RunStep(states, steps, k - 1);
    StepSends(states[k - 1], steps[k - 1], t);
    if Sent(states[k - 1], t) {
      i := SentWasPrepared(states, steps, num, total, k - 1, t);
    } else {
      i := k - 1;
    }
  }

  lemma NothingSent(num: nat, total: nat, t: nat)
    ensures !Sent(Init(num, total), t)
  {
  }

  lemma ExecutedIsSent(s: State, w: nat, ok: bool)
    requires TasksInv(s) && Enabled(s, Execute(w, ok))
    ensures Sent(s, s.workers[w].task)
  {
    assert IsBusy(s.workers[w]);
  }

  lemma {:induction false} NotPreparedAgain(states: seq<State>, steps: seq<Step>, j: nat, k: nat, t: nat)
    requires Run(states, steps) && j <= k < |states|
    requires t < |states[j].places| && states[j].dispatcher != Preparing(t)
    ensures t < |states[k].places| && states[k].dispatcher != Preparing(t)
    decreases k
  {
    hide Enabled, Next;
    if j < k {
      NotPreparedAgain(states, steps, j, k - 1, t);
      RunStep(states, steps, k - 1);
      NotPreparedNext(states[k - 1], steps[k - 1], t);
    }
  }

  /** Only a new task comes to be prepared. */
  lemma NotPreparedNext(s: State, step: Step, t: nat)
    requires Enabled(s, step) && t < |s.places| && s.dispatcher != Preparing(t)
    ensures t < |Next(s, step).places| && Next(s, step).dispatcher != Preparing(t)
  {
  }

  /** No task is prepared twice. */
  lemma PreparedOnce(states: seq<State>, steps: seq<Step>, j: nat, k: nat, t: nat, how: Preparation, again: Preparation)
    requires Run(states, steps) && j < |steps| && k < |steps|
    requires Prepares(states[j], steps[j], t, how) && Prepares(states[k], steps[k], t, again)
    ensures j == k && how == again
  {
    hide Run;
    RunStep(states, steps, j);
    RunStep(states, steps, k);
    if j < k {
      NotPreparedAgain(states, steps, j + 1, k, t);
      assert false;
    }
    if k < j {
      NotPreparedAgain(states, steps, k + 1, j, t);
      assert false;
    }
  }

  /** Whatever is executed was prepared before, and its preparation said that it needs executing. */
  lemma ExecuteWasNeeded(states: seq<State>, steps: seq<Step>, num: nat, total: nat, j: nat, w: nat, ok: bool)
      returns (i: nat)
    requires RunFromInit(states, steps, num, total) && j < |steps| && steps[j] == Execute(w, ok)
    ensures w < |states[j].workers| && states[j].workers[w].Executing?
    ensures i < j && Prepares(states[i], steps[i], states[j].workers[w].task, NeedsExecute)
  {
    hide TasksInv, Next, Sent;
    RunStep(states, steps, j);
    RunKeepsTasks(states, steps, num, total, j);
    ExecutedIsSent(states[j], w, ok);
    i := SentWasPrepared(states, steps, num, total, j, states[j].workers[w].task);
  }

  /** So a task that is up to date, or whose preparation fails, is never executed. */
  lemma NotNeededNotExecuted(states: seq<State>, steps: seq<Step>, num: nat, total: nat, i: nat, t: nat,
                             how: Preparation, j: nat, w: nat, ok: bool)
    requires RunFromInit(states, steps, num, total) && i < |steps| && how != NeedsExecute
    requires Prepares(states[i], steps[i], t, how) && j < |steps| && steps[j] == Execute(w, ok)
    ensures w < |states[j].workers| && states[j].workers[w] != Executing(t)
  {
    hide Run, Prepares;
    RunLength(states, steps);
    var k := ExecuteWasNeeded(states, steps, num, total, j, w, ok);
    if states[j].workers[w] == Executing(t) {
      PreparedOnce(states, steps, i, k, t, how, NeedsExecute);
      assert false;
    }
  }

  lemma RunLength(states: seq<State>, steps: seq<Step>)
    requires Run(states, steps)
    ensures |states| == |steps| + 1
  {
  }

  /** A worker executes the task, or looks at the flag for it after an interrupt. */
  ghost predicate RunsOrDrops(s: State, step: Step, t: nat, ok: bool) {
    && (step.Execute? || step.Look?) && step.w < |s.workers|
    && if step.Execute? then s.workers[step.w] == Executing(t) && step.ok == ok
       else s.workers[step.w] == Taken(t) && s.interrupted && !ok
  }

  /**
    And a task that needs executing has been executed when cleaning up begins, with the outcome that its callback
    reports, or a worker has dropped it because of an interrupt.
  */
  lemma NeededIsRunOrDropped(states: seq<State>, steps: seq<Step>, num: nat, total: nat, i: nat, t: nat, k: nat)
      returns (j: nat)
    requires RunFromInit(states, steps, num, total) && i < k < |states|
    requires Prepares(states[i], steps[i], t, NeedsExecute)
    requires t < |states[k].verdicts| && t < |states[k].places| && t < |states[k].calls|
    requires Closing(states[k].dispatcher)
    ensures j < k && RunsOrDrops(states[j], steps[j], t, states[k].calls[t] == [Executed, Postprocess])
  {
    hide Run, Enabled;
    RunLength(states, steps);
    EachTaskSettlesOnce(states, steps, num, total, k, t);
    assert [Executed] + [Postprocess] == [Executed, Postprocess] && [Failed] + [Postprocess] == [Failed, Postprocess];
    assert states[k].calls[t] != [];
    j := VerdictHasCause(states, steps, num, total, k, t);
    CauseIs(states[j], steps[j], t, states[k].verdicts[t] == Good);
    if steps[j].Prepare? {
      PreparedOnce(states, steps, i, j, t, NeedsExecute, steps[j].how);
      assert false;
    }
  }

  lemma CauseIs(s: State, step: Step, t: nat, ok: bool)
    requires Settles(s, step, t, ok)
    ensures if step.Prepare? then step.how != NeedsExecute && Prepares(s, step, t, step.how)
            else RunsOrDrops(s, step, t, ok)
  {
  }
}
