/**
  When the keys of the intern table of src/map/pointer_hash.h can be found again.

  compare_exchange_weak may fail although the slot is still empty.  Put then probes on; if it wins a later slot while
  the one it passed over is still empty, there is a hole before its key, and a Get stops at the hole.
*/
module PointerReach {
  import opened Common
  import opened HashInteger
  import opened PointerHashes
  import opened PointerTable

  ghost predicate AllReachable(s: State)
    requires Shape(s)
  {
    forall slot :: 0 <= slot < s.capacity ==> Reachable(s, slot)
  }

  /** Some slot before the i-th probed one is empty. */
  ghost predicate Hole(s: State, key: Word, i: nat)
    requires Shape(s)
  {
    exists j: nat :: j < i && s.keys[Probe(key, j, s.capacity)] == 0
  }

  /** A Put wins a slot. */
  ghost predicate Wins(s: State, step: Step)
    requires Enabled(s, step)
  {
    && step.PutSwap? && !step.spurious
    && s.keys[Probe(s.threads[step.t].key, s.threads[step.t].i, s.capacity)] == 0
  }

  /** A Put wins a slot although one that it probed before is still empty. */
  ghost predicate WinsBehindHole(s: State, step: Step)
    requires Enabled(s, step)
  {
    Wins(s, step) && Hole(s, s.threads[step.t].key, s.threads[step.t].i)
  }

  /** No such step among the first c of a run. */
  ghost predicate NoHoleWin(states: seq<State>, steps: seq<Step>, c: nat)
    requires Run(states, steps) && c <= |steps|
  {
    forall j :: 0 <= j < c ==> !WinsBehindHole(states[j], steps[j])
  }

  // ----- One step -----

  lemma ReachedStays(a: State, b: State, slot: nat)
    requires OnlyFills(a, b) && slot < a.capacity && a.keys[slot] != 0 && Reachable(a, slot)
    ensures Reachable(b, slot)
  {
    hide HashInteger64, Probe;
    FillingKeeps(a, b);
    var d: nat :| ReachedFrom(a, a.keys[slot], slot, d);
    assert ReachedFrom(b, b.keys[slot], slot, d);
  }

  lemma StepReaches(s: State, step: Step)
    requires TableInv(s) && AllReachable(s) && Enabled(s, step) && !WinsBehindHole(s, step)
    ensures Shape(Next(s, step)) && AllReachable(Next(s, step))
  {
    hide HashInteger64, Probe, Reachable, IndicesOk, OwnersApart, UnfinishedOwned, Passed;
    var s', q := Next(s, step), s.threads[step.t];
    StepOnlyFills(s, step);
    forall slot | 0 <= slot < s'.capacity ensures Reachable(s', slot) {
      if s.keys[slot] != 0 {
        ReachedStays(s, s', slot);
      } else if s'.keys[slot] != 0 {
        assert Wins(s, step);
        WonReached(s, step);
      } else {
        EmptyReached(s', slot);
      }
    }
  }

  lemma EmptyReached(s: State, slot: nat)
    requires Shape(s) && slot < s.capacity && s.keys[slot] == 0
    ensures Reachable(s, slot)
  {
  }

  lemma WonReached(s: State, step: Step)
    requires TableInv(s) && Enabled(s, step) && Wins(s, step) && !WinsBehindHole(s, step)
    ensures var q := s.threads[step.t];
      Shape(Next(s, step)) && Reachable(Next(s, step), Probe(q.key, q.i, s.capacity))
  {
    hide HashInteger64, Probe, IndicesOk, OwnersApart, UnfinishedOwned, Passed;
    var s', q := Next(s, step), s.threads[step.t];
    assert ThreadOk(s, q);
    StepOnlyFills(s, step);
    assert ReachedFrom(s', q.key, Probe(q.key, q.i, s.capacity), q.i);
  }

  /** Different probes below the capacity are of different slots. */
  lemma ProbesApart(key: Word, i: nat, j: nat, capacity: nat)
    requires i < capacity && j < capacity
    ensures Probe(key, i, capacity) == Probe(key, j, capacity) <==> i == j
  {
    hide HashInteger64;
    var h := HashInteger64(key) % capacity;
    RemainderDistinguishes(h + i, h + j, capacity);
  }

  /** A key that was stored behind a hole is not found. */
  lemma HoleWinHides(s: State, step: Step)
    requires TableInv(s) && Enabled(s, step) && WinsBehindHole(s, step)
    ensures Shape(Next(s, step)) && !AllReachable(Next(s, step))
  {
    hide HashInteger64, Probe, IndicesOk, OwnersApart, UnfinishedOwned, Passed;
    var s', q := Next(s, step), s.threads[step.t];
    assert ThreadOk(s, q);
    StepOnlyFills(s, step);
    var slot := Probe(q.key, q.i, s.capacity);
    var j: nat :| j < q.i && s.keys[Probe(q.key, j, s.capacity)] == 0;
    ProbesApart(q.key, j, q.i, s.capacity);
    assert s'.keys[slot] == q.key && s'.keys[Probe(q.key, j, s.capacity)] == 0;
    if Reachable(s', slot) {
      var d: nat :| ReachedFrom(s', q.key, slot, d);
      ProbesApart(q.key, d, q.i, s.capacity);
    }
  }

  /** How far along its probe sequence a key is found. */
  lemma KeyReached(s: State, key: Word) returns (d: nat)
    requires Shape(s) && key != 0 && key in s.keys && AllReachable(s)
    ensures d < s.capacity && s.keys[Probe(key, d, s.capacity)] == key
    ensures forall j: nat :: j < d ==> s.keys[Probe(key, j, s.capacity)] != 0
  {
    var slot :| 0 <= slot < |s.keys| && s.keys[slot] == key;
    assert Reachable(s, slot);
    d :| ReachedFrom(s, key, slot, d);
  }

  /** A Get that looks for a present key cannot fall off: the slots before the key's are all taken. */
  lemma LateGetFinds(s: State, key: Word, i: nat)
    requires Shape(s) && key != 0 && key in s.keys && Passed(s, key, i) && AllReachable(s)
    ensures s.keys[Probe(key, i, s.capacity)] != 0
    ensures s.keys[Probe(key, i, s.capacity)] != key ==> i + 1 < s.capacity
  {
    var d := KeyReached(s, key);
  }

  /** A late Get has not reported its key absent. */
  ghost predicate NotMissed(q: Thread) {
    q.GetReturned? && q.late ==> q.result != -1
  }

  lemma StepMissesNothing(s: State, step: Step)
    requires TableInv(s) && AllReachable(s) && Enabled(s, step) && NotMissed(s.threads[step.t])
    ensures step.t < |Next(s, step).threads| && NotMissed(Next(s, step).threads[step.t])
  {
    hide HashInteger64, Probe, AllReachable, IndicesOk, OwnersApart, UnfinishedOwned, Passed;
    var q := s.threads[step.t];
    assert ThreadOk(s, q);
    if step.GetLoad? && q.late {
      LateGetFinds(s, q.key, q.i);
    }
  }

  // ----- Whole runs -----

  lemma EmptyAllReachable(capacity: nat, threads: nat)
    requires 0 < capacity
    ensures AllReachable(Init(capacity, threads))
  {
  }

  lemma {:induction false} RunReaches(states: seq<State>, steps: seq<Step>, capacity: nat, threads: nat, c: nat)
    requires RunFromInit(states, steps, capacity, threads) && c <= |steps| && NoHoleWin(states, steps, c)
    ensures Shape(states[c]) && AllReachable(states[c])
    ensures forall t :: 0 <= t < |states[c].threads| ==> NotMissed(states[c].threads[t])
  {
    hide TableInv, AllReachable, NotMissed;
    if c == 0 {
      InitInv(capacity, threads);
      EmptyAllReachable(capacity, threads);
      NobodyMissed(capacity, threads);
    } else {
      RunReaches(states, steps, capacity, threads, c - 1);
      RunKeeps(states, steps, capacity, threads, c - 1);
      StepReaches(states[c - 1], steps[c - 1]);
      StepMissesNothing(states[c - 1], steps[c - 1]);
      OthersStay(states[c - 1], steps[c - 1]);
    }
  }

  lemma NobodyMissed(capacity: nat, threads: nat)
    ensures forall t :: 0 <= t < threads ==> NotMissed(Init(capacity, threads).threads[t])
  {
  }

  lemma OthersStay(s: State, step: Step)
    requires Enabled(s, step)
    ensures |Next(s, step).threads| == |s.threads|
    ensures forall t :: 0 <= t < |s.threads| && t != step.t ==> Next(s, step).threads[t] == s.threads[t]
  {
  }

  /**
    Exactly when every stored key can be found at any time, spurious failures of the weak swap or not: if and only
    if no Put ever wins a slot while one that it probed before is still empty.
  */
  lemma ReachableIffNoHoleWin(states: seq<State>, steps: seq<Step>, capacity: nat, threads: nat, c: nat)
    requires RunFromInit(states, steps, capacity, threads) && c <= |steps|
    ensures forall k :: 0 <= k <= c ==> Shape(states[k])
    ensures (forall k :: 0 <= k <= c ==> AllReachable(states[k])) <==> NoHoleWin(states, steps, c)
  {
    hide TableInv, AllReachable, WinsBehindHole;
    forall k | 0 <= k <= c ensures Shape(states[k]) {
      RunShape(states, steps, capacity, threads, k);
    }
    if NoHoleWin(states, steps, c) {
      forall k | 0 <= k <= c ensures AllReachable(states[k]) {
        RunReaches(states, steps, capacity, threads, k);
      }
    } else {
      var j :| 0 <= j < c && WinsBehindHole(states[j], steps[j]);
      RunKeeps(states, steps, capacity, threads, j);
      HoleWinHides(states[j], steps[j]);
      assert !AllReachable(states[j + 1]);
    }
  }

  lemma RunShape(states: seq<State>, steps: seq<Step>, capacity: nat, threads: nat, k: nat)
    requires RunFromInit(states, steps, capacity, threads) && k < |states|
    ensures Shape(states[k])
  {
    RunKeeps(states, steps, capacity, threads, k);
  }

  /**
    A Get that begins after some Put of its key has returned an index never reports the key absent, as long as no
    Put wins behind a hole, even when racing Puts have stored the key twice.
  */
  lemma LateGetNeverMisses(states: seq<State>, steps: seq<Step>, capacity: nat, threads: nat,
                           key: Word, a: nat, u: nat, b: nat, t: nat, c: nat)
    requires RunFromInit(states, steps, capacity, threads) && c < |states| && NoHoleWin(states, steps, c)
    requires a <= b < c && u < |states[a].threads|
    requires states[a].threads[u].PutReturned? && states[a].threads[u].key == key && states[a].threads[u].result != -1
    requires OneGet(steps, t, key, b, c) && t < |states[c].threads| && states[c].threads[t].GetReturned?
    ensures states[c].threads[t].result != -1
  {
    hide Run, NoHoleWin, AllReachable;
    RunKeeps(states, steps, capacity, threads, a);
    assert ThreadOk(states[a], states[a].threads[u]);
    SlotsOnlyFill(states, steps, a, b);
    StaysLate(states, steps, t, key, b, c);
    RunReaches(states, steps, capacity, threads, c);
    assert NotMissed(states[c].threads[t]);
  }

  // ----- A strong swap -----

  /** The swap does not fail while the slot is still empty, as a strong compare-and-swap would not. */
  ghost predicate Strong(step: Step) {
    step.PutSwap? ==> !step.spurious
  }

  ghost predicate StrongRun(steps: seq<Step>, c: nat)
    requires c <= |steps|
  {
    forall j :: 0 <= j < c ==> Strong(steps[j])
  }

  ghost predicate NothingSkipped(s: State, q: Thread)
    requires Shape(s)
  {
    q.PutProbing? || q.PutSawNull? ==> !Hole(s, q.key, q.i)
  }

  lemma StrongSkipsNothing(s: State, step: Step, u: nat)
    requires Enabled(s, step) && Strong(step) && u < |s.threads| && NothingSkipped(s, s.threads[u])
    ensures Shape(Next(s, step)) && u < |Next(s, step).threads|
    ensures NothingSkipped(Next(s, step), Next(s, step).threads[u])
  {
    hide HashInteger64, Probe;
    StepOnlyFills(s, step);
    var s' := Next(s, step);
    var w := s'.threads[u];
    if w.PutProbing? || w.PutSawNull? {
      forall j: nat | j < w.i ensures s'.keys[Probe(w.key, j, s.capacity)] != 0 {
      }
    }
  }

  /** With a strong swap no Put wins behind a hole, so every key is found and no late Get misses. */
  lemma {:induction false} StrongRunsHaveNoHoles(states: seq<State>, steps: seq<Step>, capacity: nat, threads: nat,
                                                 c: nat)
    requires RunFromInit(states, steps, capacity, threads) && c <= |steps| && StrongRun(steps, c)
    ensures NoHoleWin(states, steps, c) && Shape(states[c])
    ensures forall u :: 0 <= u < |states[c].threads| ==> NothingSkipped(states[c], states[c].threads[u])
  {
    RunShape(states, steps, capacity, threads, c);
    if c > 0 {
      hide NothingSkipped, TableInv, WinsBehindHole;
      StrongRunsHaveNoHoles(states, steps, capacity, threads, c - 1);
      var s, step := states[c - 1], steps[c - 1];
      OthersStay(s, step);
      forall u | 0 <= u < |states[c].threads| ensures NothingSkipped(states[c], states[c].threads[u]) {
        StrongSkipsNothing(s, step, u);
      }
      NotBehindHole(s, step);
    }
  }

  lemma NotBehindHole(s: State, step: Step)
    requires Enabled(s, step) && NothingSkipped(s, s.threads[step.t])
    ensures !WinsBehindHole(s, step)
  {
  }
}
