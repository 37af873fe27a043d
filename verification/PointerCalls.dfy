/**
  Single calls of Put and Get of src/map/pointer_hash.h among those of other threads: how many actions a call takes,
  when Put gives up, and what an answer of -1 says about the table.
*/
module PointerCalls {
  import opened Common
  import opened HashInteger
  import opened PointerHashes
  import opened PointerTable
  import opened PointerReach

  // ----- A call ends after a bounded number of its own actions -----

  /** How many actions a thread may still take before its call returns. */
  function Remaining(q: Thread, capacity: nat): nat {
    match q
    case PutProbing(_, i, _) => if i < capacity then 2 * (capacity - i) + 2 else 2
    case PutSawNull(_, i, _) => if i < capacity then 2 * (capacity - i) + 1 else 1
    case PutClaimed(_, _) => 2
    case PutIndexed(_, _, _) => 1
    case GetProbing(_, i, _) => if i < capacity then capacity - i + 1 else 1
    case GetMatched(_, _, _) => 1
    case _ => 0
  }

  /** The step goes on with a call of thread t. */
  predicate GoesOn(step: Step, t: nat) {
    step.t == t && !step.BeginPut? && !step.BeginGet? && !step.Leave?
  }

  lemma StepUsesOne(s: State, step: Step, t: nat)
    requires TableInv(s) && Enabled(s, step) && t < |s.threads|
    requires step.t == t ==> GoesOn(step, t)
    ensures t < |Next(s, step).threads| && Next(s, step).capacity == s.capacity
    ensures Remaining(Next(s, step).threads[t], s.capacity)
            + (if GoesOn(step, t) then 1 else 0) <= Remaining(s.threads[t], s.capacity)
  {
    hide HashInteger64, Probe, IndicesOk, OwnersApart, UnfinishedOwned, Passed;
    assert ThreadOk(s, s.threads[t]);
    if s.threads[t].GetProbing? {
      PassedBelow(s, s.threads[t].key, s.threads[t].i);
    }
  }

  lemma PassedBelow(s: State, key: Word, i: nat)
    requires Shape(s) && Passed(s, key, i)
    ensures i < s.capacity
  {
  }

  /** How many steps of thread t's calls there are from b up to c. */
  function ActionsIn(steps: seq<Step>, t: nat, b: nat, c: nat): nat
    requires b <= c <= |steps|
    decreases c
  {
    if b == c then 0 else ActionsIn(steps, t, b, c - 1) + if GoesOn(steps[c - 1], t) then 1 else 0
  }

  /** Thread t stays inside one Put from its beginning at step b up to state c. */
  ghost predicate OnePut(steps: seq<Step>, t: nat, key: Word, b: nat, c: nat) {
    && b < c <= |steps| && steps[b] == BeginPut(t, key)
    && forall m :: b < m < c ==> steps[m] != Leave(t)
  }

  ghost predicate InsideCall(q: Thread) {
    !q.Idle?
  }

  lemma RunStep(states: seq<State>, steps: seq<Step>, i: nat)
    requires Run(states, steps) && i < |steps|
    ensures |states| == |steps| + 1 && Enabled(states[i], steps[i]) && states[i + 1] == Next(states[i], steps[i])
  {
    hide Next, Enabled;
  }

  /** Inside a call a thread begins no other. */
  lemma StaysInside(s: State, step: Step, t: nat)
    requires Enabled(s, step) && t < |s.threads| && InsideCall(s.threads[t]) && step != Leave(t)
    ensures step.t == t ==> GoesOn(step, t)
    ensures t < |Next(s, step).threads| && InsideCall(Next(s, step).threads[t])
  {
  }

  lemma CallBegins(s: State, step: Step)
    requires Enabled(s, step) && (step.BeginPut? || step.BeginGet?)
    ensures step.t < |Next(s, step).threads| && InsideCall(Next(s, step).threads[step.t])
    ensures Remaining(Next(s, step).threads[step.t], s.capacity)
         == if step.BeginPut? then 2 * s.capacity + 2 else s.capacity + 1
  {
  }

  /** Wait-freedom: whatever the other threads do, a Put takes at most 2 * capacity + 2 actions, a Get capacity + 1. */
  lemma {:induction false} CallsAreWaitFree(states: seq<State>, steps: seq<Step>, capacity: nat, threads: nat,
                                            t: nat, key: Word, b: nat, c: nat)
    requires RunFromInit(states, steps, capacity, threads)
    requires OnePut(steps, t, key, b, c) || OneGet(steps, t, key, b, c)
    ensures t < |states[c].threads| && InsideCall(states[c].threads[t])
    ensures ActionsIn(steps, t, b + 1, c) + Remaining(states[c].threads[t], capacity)
         <= if steps[b].BeginPut? then 2 * capacity + 2 else capacity + 1
    decreases c
  {
    hide TableInv, Remaining, InsideCall, Enabled, Next;
    RunKeeps(states, steps, capacity, threads, c - 1);
    RunStep(states, steps, c - 1);
    if b + 1 == c {
      CallBegins(states[b], steps[b]);
    } else {
      CallsAreWaitFree(states, steps, capacity, threads, t, key, b, c - 1);
      StaysInside(states[c - 1], steps[c - 1], t);
      StepUsesOne(states[c - 1], steps[c - 1], t);
    }
  }

  /** Nobody waits for anybody: wherever the other threads stand, a thread can go on. */
  lemma NobodyWaits(s: State, t: nat, key: Word)
    requires TableInv(s) && t < |s.threads| && key != 0
    ensures match s.threads[t]
      case Idle => Enabled(s, BeginPut(t, key)) && Enabled(s, BeginGet(t, key))
      case PutProbing(_, _, _) => Enabled(s, PutLoad(t))
      case PutSawNull(_, _, _) => Enabled(s, PutSwap(t, false)) && Enabled(s, PutSwap(t, true))
      case PutClaimed(_, _) => Enabled(s, PutDraw(t))
      case PutIndexed(_, _, _) => Enabled(s, PutStore(t))
      case GetProbing(_, _, _) => Enabled(s, GetLoad(t))
      case GetMatched(_, _, _) => Enabled(s, GetValue(t))
      case _ => Enabled(s, Leave(t))
  {
    hide IndicesOk, OwnersApart, UnfinishedOwned, Passed;
    assert ThreadOk(s, s.threads[t]);
  }

  // ----- What a Put has done when it returns -----

  /** The slot a Put is about to swap for. */
  function Aim(s: State, step: Step): nat
    requires 0 < s.capacity && step.t < |s.threads| && s.threads[step.t].PutSawNull?
  {
    Probe(s.threads[step.t].key, s.threads[step.t].i, s.capacity)
  }

  /** The slots that thread t has won from step b up to c. */
  ghost function WonIn(states: seq<State>, steps: seq<Step>, t: nat, b: nat, c: nat): seq<nat>
    requires Run(states, steps) && b <= c <= |steps|
    decreases c
  {
    if b == c then []
    else
      RunStep(states, steps, c - 1);
      var s, step := states[c - 1], steps[c - 1];
      WonIn(states, steps, t, b, c - 1) + if step.t == t && Wins(s, step) then [Aim(s, step)] else []
  }

  /** The slots at which thread t's swap has failed spuriously. */
  ghost function SkippedIn(states: seq<State>, steps: seq<Step>, t: nat, b: nat, c: nat): set<nat>
    requires Run(states, steps) && b <= c <= |steps|
    decreases c
  {
    if b == c then {}
    else
      RunStep(states, steps, c - 1);
      var s, step := states[c - 1], steps[c - 1];
      SkippedIn(states, steps, t, b, c - 1) + if step == PutSwap(t, true) then {Aim(s, step)} else {}
  }

  /** Each of the first i probed slots is taken or was skipped. */
  ghost predicate TakenOrSkipped(s: State, key: Word, i: nat, skipped: set<nat>)
    requires Shape(s)
  {
    forall j: nat :: j < i ==> s.keys[Probe(key, j, s.capacity)] != 0 || Probe(key, j, s.capacity) in skipped
  }

  /** The slot holds the key under the index. */
  ghost predicate StoredUnder(s: State, slot: nat, key: Word, v: nat)
    requires Shape(s)
  {
    slot < s.capacity && s.keys[slot] == key && s.index[slot] == Some(v)
  }

  /** Where a Put of the key stands that has won and skipped these slots. */
  ghost predicate PutStands(s: State, q: Thread, key: Word, won: seq<nat>, skipped: set<nat>)
    requires Shape(s)
  {
    match q
    case PutProbing(k, i, _) => k == key && won == [] && TakenOrSkipped(s, key, i, skipped)
    case PutSawNull(k, i, _) => k == key && won == [] && TakenOrSkipped(s, key, i, skipped)
    case PutClaimed(k, slot) => k == key && won == [slot]
    case PutIndexed(k, slot, v) => k == key && won == [slot] && StoredUnder(s, slot, key, v)
    case PutReturned(k, r) => k == key &&
      if r == -1 then won == [] && (key in s.keys || TakenOrSkipped(s, key, s.capacity, skipped))
      else 0 <= r && |won| == 1 && StoredUnder(s, won[0], key, r)
    case _ => false
  }

  lemma OthersLeavePut(s: State, step: Step, t: nat, key: Word, won: seq<nat>, skipped: set<nat>)
    requires TableInv(s) && Enabled(s, step) && t < |s.threads| && step.t != t && key != 0
    requires PutStands(s, s.threads[t], key, won, skipped)
    ensures Shape(Next(s, step)) && PutStands(Next(s, step), s.threads[t], key, won, skipped)
    ensures t < |Next(s, step).threads| && Next(s, step).threads[t] == s.threads[t]
  {
    OthersStay(s, step);
    StepFootprint(s, step, t);
    hide HashInteger64, Probe, TableInv, Enabled, Next;
    FillingKeeps(s, Next(s, step));
  }

  lemma OwnPutStands(s: State, step: Step, key: Word, won: seq<nat>, skipped: set<nat>)
    requires TableInv(s) && Enabled(s, step) && key != 0 && GoesOn(step, step.t)
    requires PutStands(s, s.threads[step.t], key, won, skipped)
    ensures var s' := Next(s, step);
      && Shape(s') && step.t < |s'.threads|
      && PutStands(s', s'.threads[step.t], key, won + (if Wins(s, step) then [Aim(s, step)] else []),
                   skipped + if step == PutSwap(step.t, true) then {Aim(s, step)} else {})
  {
    hide HashInteger64, Probe, IndicesOk, OwnersApart, UnfinishedOwned, Passed;
    assert ThreadOk(s, s.threads[step.t]);
  }

  lemma PutBegins(s: State, t: nat, key: Word)
    requires Enabled(s, BeginPut(t, key))
    ensures Shape(Next(s, BeginPut(t, key))) && key != 0 && t < |Next(s, BeginPut(t, key)).threads|
    ensures PutStands(Next(s, BeginPut(t, key)), Next(s, BeginPut(t, key)).threads[t], key, [], {})
  {
  }

  lemma CountedStep(states: seq<State>, steps: seq<Step>, t: nat, b: nat, c: nat)
    requires Run(states, steps) && b <= c < |steps| && Enabled(states[c], steps[c])
    ensures WonIn(states, steps, t, b, c + 1) == WonIn(states, steps, t, b, c)
      + if steps[c].t == t && Wins(states[c], steps[c]) then [Aim(states[c], steps[c])] else []
    ensures SkippedIn(states, steps, t, b, c + 1) == SkippedIn(states, steps, t, b, c)
      + if steps[c] == PutSwap(t, true) then {Aim(states[c], steps[c])} else {}
    ensures steps[c].t != t ==> WonIn(states, steps, t, b, c + 1) == WonIn(states, steps, t, b, c)
    ensures steps[c].t != t ==> SkippedIn(states, steps, t, b, c + 1) == SkippedIn(states, steps, t, b, c)
  {
    hide Run, Enabled, Next, Wins;
  }

  lemma NothingYet(states: seq<State>, steps: seq<Step>, t: nat, b: nat)
    requires Run(states, steps) && b <= |steps|
    ensures WonIn(states, steps, t, b, b) == [] && SkippedIn(states, steps, t, b, b) == {}
  {
    hide Run, Enabled, Next, Wins;
  }

  lemma {:induction false} PutKeeps(states: seq<State>, steps: seq<Step>, capacity: nat, threads: nat,
                                    t: nat, key: Word, b: nat, c: nat)
    requires RunFromInit(states, steps, capacity, threads) && OnePut(steps, t, key, b, c)
    ensures key != 0 && Shape(states[c]) && t < |states[c].threads|
    ensures PutStands(states[c], states[c].threads[t], key, WonIn(states, steps, t, b + 1, c),
                      SkippedIn(states, steps, t, b + 1, c))
    decreases c
  {
    hide TableInv, PutStands, Enabled, Next, Wins, WonIn, SkippedIn, InsideCall, Aim;
    var i := c - 1;
    RunKeeps(states, steps, capacity, threads, i);
    RunStep(states, steps, i);
    if i == b {
      NothingYet(states, steps, t, c);
      PutBegins(states[b], t, key);
    } else {
      CountedStep(states, steps, t, b + 1, i);
      PutKeeps(states, steps, capacity, threads, t, key, b, i);
      CallsAreWaitFree(states, steps, capacity, threads, t, key, b, i);
      StaysInside(states[i], steps[i], t);
      if steps[i].t == t {
        OwnPutStands(states[i], steps[i], key, WonIn(states, steps, t, b + 1, i),
                     SkippedIn(states, steps, t, b + 1, i));
      } else {
        OthersLeavePut(states[i], steps[i], t, key, WonIn(states, steps, t, b + 1, i),
                       SkippedIn(states, steps, t, b + 1, i));
      }
    }
  }

  lemma AllTakenOrSkipped(s: State, key: Word, skipped: set<nat>)
    requires Shape(s) && TakenOrSkipped(s, key, s.capacity, skipped)
    ensures forall slot :: 0 <= slot < s.capacity ==> s.keys[slot] != 0 || slot in skipped
  {
    hide HashInteger64, Probe;
    forall slot | 0 <= slot < s.capacity ensures s.keys[slot] != 0 || slot in skipped {
      var j := ProbeReaches(key, slot, s.capacity);
    }
  }

  /**
    What a returned Put has done, in every interleaving.  With an answer other than -1 it has won exactly one slot,
    which holds its pointer under that answer.  With -1 it has won none; and then the pointer is in the table or no
    slot is left empty, except ones at which its own swap has failed spuriously.
  */
  lemma PutOutcome(states: seq<State>, steps: seq<Step>, capacity: nat, threads: nat, t: nat, key: Word, b: nat, c: nat)
    requires RunFromInit(states, steps, capacity, threads) && OnePut(steps, t, key, b, c)
    requires t < |states[c].threads| && states[c].threads[t].PutReturned?
    ensures Shape(states[c]) && states[c].threads[t].key == key
    ensures var r, won := states[c].threads[t].result, WonIn(states, steps, t, b + 1, c);
      if r == -1 then won == [] else 0 <= r && |won| == 1 && StoredUnder(states[c], won[0], key, r)
    ensures states[c].threads[t].result == -1 && key !in states[c].keys ==>
      forall slot :: 0 <= slot < |states[c].keys| ==>
        states[c].keys[slot] != 0 || slot in SkippedIn(states, steps, t, b + 1, c)
  {
    hide TableInv, Enabled, Next, Wins, WonIn, SkippedIn, TakenOrSkipped;
    PutKeeps(states, steps, capacity, threads, t, key, b, c);
    if states[c].threads[t].result == -1 && key !in states[c].keys {
      AllTakenOrSkipped(states[c], key, SkippedIn(states, steps, t, b + 1, c));
    }
  }

  lemma {:induction false} StrongSwapsSkipNothing(states: seq<State>, steps: seq<Step>, t: nat, b: nat, c: nat)
    requires Run(states, steps) && b <= c <= |steps| && StrongRun(steps, c)
    ensures SkippedIn(states, steps, t, b, c) == {}
    decreases c
  {
    hide Run, Enabled, Next, Wins;
    if b < c {
      StrongSwapsSkipNothing(states, steps, t, b, c - 1);
      assert Strong(steps[c - 1]);
    }
  }

  /** With a strong swap a Put gives up only on a pointer that is in the table, or on a full table. */
  lemma StrongPutGivesUp(states: seq<State>, steps: seq<Step>, capacity: nat, threads: nat,
                         t: nat, key: Word, b: nat, c: nat)
    requires RunFromInit(states, steps, capacity, threads) && OnePut(steps, t, key, b, c) && StrongRun(steps, c)
    requires t < |states[c].threads| && states[c].threads[t] == PutReturned(key, -1)
    ensures key in states[c].keys || 0 !in states[c].keys
  {
    hide Run, SkippedIn, WonIn;
    PutOutcome(states, steps, capacity, threads, t, key, b, c);
    StrongSwapsSkipNothing(states, steps, t, b + 1, c);
  }

  // ----- What a Get that finds nothing says -----

  ghost predicate InGet(q: Thread, key: Word) {
    (q.GetProbing? || q.GetMatched? || q.GetReturned?) && q.key == key
  }

  ghost predicate Missed(q: Thread) {
    q.GetReturned? && q.result == -1
  }

  lemma GetBegins(s: State, t: nat, key: Word)
    requires Enabled(s, BeginGet(t, key))
    ensures var s' := Next(s, BeginGet(t, key)); t < |s'.threads| && InGet(s'.threads[t], key) && !Missed(s'.threads[t])
  {
  }

  /** The load that makes a Get answer -1 shows that its pointer is not in the table. */
  lemma StepOfGet(s: State, step: Step, t: nat, key: Word)
    requires TableInv(s) && AllReachable(s) && Enabled(s, step) && step != Leave(t)
    requires t < |s.threads| && InGet(s.threads[t], key)
    ensures t < |Next(s, step).threads| && InGet(Next(s, step).threads[t], key)
    ensures !Missed(s.threads[t]) && Missed(Next(s, step).threads[t]) ==> key !in s.keys
    ensures Missed(s.threads[t]) ==> Missed(Next(s, step).threads[t])
  {
    hide HashInteger64, Probe, IndicesOk, OwnersApart, UnfinishedOwned, Passed, AllReachable;
    assert ThreadOk(s, s.threads[t]);
    if step == GetLoad(t) && key in s.keys {
      LateGetFinds(s, key, s.threads[t].i);
    }
  }

  /**
    A Get that answers -1 is right at some moment of the call: unless some Put has won behind a hole, there is a
    state during the call in which its pointer is not in the table.
  */
  lemma {:induction false} MissIsTrue(states: seq<State>, steps: seq<Step>, capacity: nat, threads: nat,
                                      t: nat, key: Word, b: nat, c: nat) returns (k: nat)
    requires RunFromInit(states, steps, capacity, threads) && OneGet(steps, t, key, b, c)
    requires NoHoleWin(states, steps, c)
    ensures t < |states[c].threads| && InGet(states[c].threads[t], key)
    ensures b < k <= c && (Missed(states[c].threads[t]) ==> key !in states[k].keys)
    decreases c
  {
    hide TableInv, Enabled, Next, AllReachable, InGet, Missed, WinsBehindHole;
    var i := c - 1;
    RunStep(states, steps, i);
    if i == b {
      GetBegins(states[i], t, key);
      k := c;
    } else {
      k := MissIsTrue(states, steps, capacity, threads, t, key, b, i);
      RunKeeps(states, steps, capacity, threads, i);
      RunReaches(states, steps, capacity, threads, i);
      StepOfGet(states[i], steps[i], t, key);
      if !Missed(states[i].threads[t]) {
        k := i;
      }
    }
  }
}
