/**
  When the intern table of src/map/pointer_hash.h gives everybody the same index for a pointer.

  A Put whose swap is lost probes on without looking at what took the slot, even if it was its own pointer.  If it
  then wins a later slot, the pointer is in the table twice.  As long as no Put wins behind a hole the keys stay
  distinct exactly while that does not happen, and then everybody agrees, whatever else interleaves; it cannot happen
  while no two Puts of one pointer overlap.
*/
module PointerAgreement {
  import opened Common
  import opened HashInteger
  import opened PointerHashes
  import opened PointerTable
  import opened PointerReach

  /** The pointer itself is in a slot before the i-th probed one. */
  ghost predicate PastOwn(s: State, key: Word, i: nat)
    requires Shape(s)
  {
    exists j: nat :: j < i && s.keys[Probe(key, j, s.capacity)] == key
  }

  /** A Put that has probed past its own pointer wins a slot. */
  ghost predicate RepeatedWin(s: State, step: Step)
    requires Enabled(s, step)
  {
    Wins(s, step) && PastOwn(s, s.threads[step.t].key, s.threads[step.t].i)
  }

  /** No such step among the first c of a run. */
  ghost predicate NoRepeatedWin(states: seq<State>, steps: seq<Step>, c: nat)
    requires Run(states, steps) && c <= |steps|
  {
    forall j :: 0 <= j < c ==> !RepeatedWin(states[j], steps[j])
  }

  ghost predicate DistinctKeys(s: State)
    requires Shape(s)
  {
    forall a, b :: 0 <= a < b < s.capacity && s.keys[a] != 0 ==> s.keys[a] != s.keys[b]
  }

  // ----- The keys are distinct exactly while there is no such win -----

  /** Otherwise a Put can win a slot only if the pointer is nowhere in the table. */
  lemma FirstWin(s: State, step: Step)
    requires TableInv(s) && AllReachable(s) && Enabled(s, step) && Wins(s, step) && !RepeatedWin(s, step)
    ensures s.threads[step.t].key !in s.keys
  {
    hide HashInteger64, Probe, IndicesOk, OwnersApart, UnfinishedOwned, Passed;
    var q := s.threads[step.t];
    assert ThreadOk(s, q);
    if q.key in s.keys {
      var _ := KeyReached(s, q.key);
    }
  }

  lemma DistinctKeysKeep(s: State, step: Step)
    requires TableInv(s) && AllReachable(s) && DistinctKeys(s) && Enabled(s, step) && !RepeatedWin(s, step)
    ensures Shape(Next(s, step)) && DistinctKeys(Next(s, step))
  {
    StepOnlyFills(s, step);
    if Wins(s, step) {
      FirstWin(s, step);
    }
    hide HashInteger64, Probe, AllReachable, IndicesOk, OwnersApart, UnfinishedOwned, Passed, ThreadOk, TableInv;
    hide PastOwn;
  }

  /** The second slot of a pointer is never given back. */
  lemma RepeatedWinRepeats(s: State, step: Step)
    requires TableInv(s) && Enabled(s, step) && RepeatedWin(s, step)
    ensures Shape(Next(s, step)) && !DistinctKeys(Next(s, step))
  {
    hide HashInteger64, Probe, IndicesOk, OwnersApart, UnfinishedOwned, Passed;
    var q := s.threads[step.t];
    assert ThreadOk(s, q);
    var slot := Probe(q.key, q.i, s.capacity);
    var j: nat :| j < q.i && s.keys[Probe(q.key, j, s.capacity)] == q.key;
    var other := Probe(q.key, j, s.capacity);
    var s' := Next(s, step);
    assert s'.keys[slot] == q.key && s'.keys[other] == q.key;
    var low, high := if slot < other then slot else other, if slot < other then other else slot;
    assert s'.keys[low] == s'.keys[high];
  }

  lemma {:induction false} RepeatStays(states: seq<State>, steps: seq<Step>, i: nat, j: nat)
    requires Run(states, steps) && i <= j < |states| && Shape(states[i]) && !DistinctKeys(states[i])
    ensures Shape(states[j]) && !DistinctKeys(states[j])
    decreases j
  {
    SlotsOnlyFill(states, steps, i, j);
    var a, b :| 0 <= a < b < states[i].capacity && states[i].keys[a] != 0 && states[i].keys[a] == states[i].keys[b];
    assert states[j].keys[a] == states[j].keys[b];
  }

  lemma {:induction false} NoRepeatedWinIsDistinct(states: seq<State>, steps: seq<Step>, capacity: nat, threads: nat,
                                                   c: nat)
    requires RunFromInit(states, steps, capacity, threads) && c <= |steps|
    requires NoHoleWin(states, steps, c) && NoRepeatedWin(states, steps, c)
    ensures Shape(states[c]) && DistinctKeys(states[c])
  {
    RunShape(states, steps, capacity, threads, c);
    hide TableInv, DistinctKeys, AllReachable, WinsBehindHole, RepeatedWin;
    if c == 0 {
      NothingIsDistinct(capacity, threads);
    } else {
      NoRepeatedWinIsDistinct(states, steps, capacity, threads, c - 1);
      RunKeeps(states, steps, capacity, threads, c - 1);
      RunReaches(states, steps, capacity, threads, c - 1);
      DistinctKeysKeep(states[c - 1], steps[c - 1]);
    }
  }

  lemma NothingIsDistinct(capacity: nat, threads: nat)
    requires 0 < capacity
    ensures DistinctKeys(Init(capacity, threads))
  {
  }

  /**
    Exactly when a pointer gets into the table twice: as long as no Put wins behind a hole the keys are distinct if
    and only if no slot was won by a Put that had probed past its own pointer.
  */
  lemma DistinctIffNoRepeatedWin(states: seq<State>, steps: seq<Step>, capacity: nat, threads: nat, c: nat)
    requires RunFromInit(states, steps, capacity, threads) && c <= |steps| && NoHoleWin(states, steps, c)
    ensures Shape(states[c])
    ensures DistinctKeys(states[c]) <==> NoRepeatedWin(states, steps, c)
  {
    RunShape(states, steps, capacity, threads, c);
    hide TableInv, DistinctKeys, WinsBehindHole, RepeatedWin;
    if NoRepeatedWin(states, steps, c) {
      NoRepeatedWinIsDistinct(states, steps, capacity, threads, c);
    } else {
      var j :| 0 <= j < c && RepeatedWin(states[j], steps[j]);
      RunKeeps(states, steps, capacity, threads, j);
      RepeatedWinRepeats(states[j], steps[j]);
      RepeatStays(states, steps, j + 1, c);
    }
  }

  // ----- With a strong swap a Put gets past its own pointer only by losing a swap to it -----

  ghost predicate LostKnown(s: State, q: Thread)
    requires Shape(s)
  {
    q.PutProbing? || q.PutSawNull? ==> (q.lost <==> PastOwn(s, q.key, q.i))
  }

  /** A Put that has lost a swap to its own pointer wins a slot. */
  ghost predicate LoserWins(s: State, step: Step)
    requires Enabled(s, step)
  {
    Wins(s, step) && s.threads[step.t].lost
  }

  /** Another thread cannot put the pointer into a slot that this one has passed, for those are taken. */
  lemma OthersLost(s: State, step: Step, u: nat)
    requires Enabled(s, step) && u < |s.threads| && u != step.t
    requires NothingSkipped(s, s.threads[u]) && LostKnown(s, s.threads[u])
    ensures Shape(Next(s, step)) && LostKnown(Next(s, step), s.threads[u])
  {
    hide HashInteger64, Probe, Next;
    StepOnlyFills(s, step);
    var s', w := Next(s, step), s.threads[u];
    if w.PutProbing? || w.PutSawNull? {
      forall j: nat | j < w.i ensures
        s'.keys[Probe(w.key, j, s.capacity)] == s.keys[Probe(w.key, j, s.capacity)] && s'.capacity == s.capacity
      {
      }
    }
  }

  lemma OwnLost(s: State, step: Step)
    requires TableInv(s) && Enabled(s, step) && Strong(step) && LostKnown(s, s.threads[step.t])
    ensures Shape(Next(s, step)) && LostKnown(Next(s, step), Next(s, step).threads[step.t])
  {
    hide HashInteger64, Probe, IndicesOk, OwnersApart, UnfinishedOwned, Passed;
    var s', q := Next(s, step), s.threads[step.t];
    StepOnlyFills(s, step);
    var w := s'.threads[step.t];
    if w.PutProbing? || w.PutSawNull? {
      if step.BeginPut? {
        assert w.i == 0;
      } else {
        assert s'.keys == s.keys && s'.capacity == s.capacity && w.key == q.key;
        assert w.i == q.i || w.i == q.i + 1;
        PastOwnGrows(s, q.key, q.i);
      }
    }
  }

  lemma PastOwnGrows(s: State, key: Word, i: nat)
    requires Shape(s)
    ensures PastOwn(s, key, i + 1) <==> PastOwn(s, key, i) || s.keys[Probe(key, i, s.capacity)] == key
  {
    hide HashInteger64, Probe;
    if PastOwn(s, key, i + 1) {
      var j: nat :| j < i + 1 && s.keys[Probe(key, j, s.capacity)] == key;
      assert j < i || j == i;
    }
  }

  lemma {:induction false} StrongRunsKnowLost(states: seq<State>, steps: seq<Step>, capacity: nat, threads: nat, c: nat)
    requires RunFromInit(states, steps, capacity, threads) && c <= |steps| && StrongRun(steps, c)
    ensures Shape(states[c])
    ensures forall u :: 0 <= u < |states[c].threads| ==> LostKnown(states[c], states[c].threads[u])
    ensures forall j :: 0 <= j < c ==> (RepeatedWin(states[j], steps[j]) <==> LoserWins(states[j], steps[j]))
  {
    RunShape(states, steps, capacity, threads, c);
    if c > 0 {
      hide NothingSkipped, LostKnown, TableInv, RepeatedWin, LoserWins, WinsBehindHole;
      StrongRunsKnowLost(states, steps, capacity, threads, c - 1);
      StrongRunsHaveNoHoles(states, steps, capacity, threads, c - 1);
      RunKeeps(states, steps, capacity, threads, c - 1);
      var s, step := states[c - 1], steps[c - 1];
      OthersStay(s, step);
      forall u | 0 <= u < |states[c].threads| ensures LostKnown(states[c], states[c].threads[u]) {
        if u == step.t {
          OwnLost(s, step);
        } else {
          OthersLost(s, step, u);
        }
      }
      LoserIsPast(s, step);
    }
  }

  lemma LoserIsPast(s: State, step: Step)
    requires Enabled(s, step) && LostKnown(s, s.threads[step.t])
    ensures RepeatedWin(s, step) <==> LoserWins(s, step)
  {
  }

  /**
    With a strong swap: in every run the keys are distinct if and only if no slot was won by a Put that, in the same
    call, had lost a swap to a slot with its own pointer.
  */
  lemma DistinctIffNoLoserWins(states: seq<State>, steps: seq<Step>, capacity: nat, threads: nat, c: nat)
    requires RunFromInit(states, steps, capacity, threads) && c <= |steps| && StrongRun(steps, c)
    ensures Shape(states[c])
    ensures DistinctKeys(states[c]) <==> forall j :: 0 <= j < c ==> !LoserWins(states[j], steps[j])
  {
    hide RepeatedWin, LoserWins, DistinctKeys, WinsBehindHole;
    StrongRunsHaveNoHoles(states, steps, capacity, threads, c);
    StrongRunsKnowLost(states, steps, capacity, threads, c);
    DistinctIffNoRepeatedWin(states, steps, capacity, threads, c);
  }

  // ----- Everybody agrees on a pointer that is in the table once -----

  ghost predicate StoredAt(s: State, slot: nat, key: Word, v: nat)
    requires Shape(s)
  {
    slot < s.capacity && s.keys[slot] == key && s.index[slot] == Some(v) && s.values[slot] == v
  }

  ghost predicate Stored(s: State, key: Word, v: nat)
    requires Shape(s)
  {
    exists slot: nat :: StoredAt(s, slot, key, v)
  }

  ghost predicate Agrees(s: State, q: Thread)
    requires Shape(s)
  {
    match q
    case PutReturned(key, r) => r != -1 ==> r >= 0 && Stored(s, key, r)
    case GetReturned(key, r, late) => late ==> r >= 0 && Stored(s, key, r)
    case _ => true
  }

  ghost predicate AgreementInv(s: State) {
    && TableInv(s)
    && (forall key :: key in s.returned ==> exists v: nat :: Stored(s, key, v))
    && (forall t :: 0 <= t < |s.threads| ==> Agrees(s, s.threads[t]))
  }

  /** A stored index stays. */
  lemma StoredKeeps(s: State, step: Step, key: Word, v: nat)
    requires TableInv(s) && Enabled(s, step) && key != 0 && Stored(s, key, v)
    ensures Shape(Next(s, step)) && Stored(Next(s, step), key, v)
  {
    hide HashInteger64, Probe, Reachable, IndicesOk, OwnersApart, UnfinishedOwned, Passed;
    var slot: nat :| StoredAt(s, slot, key, v);
    StepOnlyFills(s, step);
    assert ThreadOk(s, s.threads[step.t]);
    assert StoredAt(Next(s, step), slot, key, v);
  }

  lemma OthersAgree(s: State, step: Step, u: nat)
    requires AgreementInv(s) && Enabled(s, step) && u < |s.threads| && u != step.t
    ensures Shape(Next(s, step)) && Agrees(Next(s, step), s.threads[u])
  {
    hide HashInteger64, Probe, Reachable, IndicesOk, OwnersApart, UnfinishedOwned, Passed, Stored;
    StepOnlyFills(s, step);
    var q := s.threads[u];
    assert Agrees(s, q) && ThreadOk(s, q);
    if (q.PutReturned? && q.result != -1) || (q.GetReturned? && q.late) {
      StoredKeeps(s, step, q.key, q.result);
    }
  }

  lemma OwnAgrees(s: State, step: Step)
    requires AgreementInv(s) && DistinctKeys(s) && AllReachable(s) && Enabled(s, step)
    ensures Shape(Next(s, step)) && Agrees(Next(s, step), Next(s, step).threads[step.t])
  {
    hide HashInteger64, Probe, Reachable, IndicesOk, OwnersApart, UnfinishedOwned, Passed;
    var s' := Next(s, step);
    StepOnlyFills(s, step);
    var q := s.threads[step.t];
    assert ThreadOk(s, q);
    if step.GetLoad? && q.late {
      LateGetFinds(s, q.key, q.i);
    }
    if step.PutStore? {
      assert StoredAt(s', q.slot, q.key, q.v);
    }
    if step.GetValue? && q.late {
      var v: nat :| Stored(s, q.key, v);
      var slot: nat :| StoredAt(s, slot, q.key, v);
      assert StoredAt(s', q.slot, q.key, v);
    }
  }

  lemma AgreementKeeps(s: State, step: Step)
    requires AgreementInv(s) && DistinctKeys(s) && AllReachable(s) && Enabled(s, step)
    ensures AgreementInv(Next(s, step))
  {
    hide TableInv, Stored, Agrees, DistinctKeys;
    var s' := Next(s, step);
    StepKeeps(s, step);
    forall key | key in s'.returned ensures exists v: nat :: Stored(s', key, v) {
      if key in s.returned {
        var v: nat :| Stored(s, key, v);
        NonNull(s, key);
        StoredKeeps(s, step, key, v);
      } else {
        StoreStores(s, step, key);
      }
    }
    forall u | 0 <= u < |s'.threads| ensures Agrees(s', s'.threads[u]) {
      if u != step.t {
        OthersAgree(s, step, u);
      } else {
        OwnAgrees(s, step);
      }
    }
  }

  lemma NonNull(s: State, key: Word)
    requires TableInv(s) && key in s.returned
    ensures key != 0
  {
  }

  lemma StoreStores(s: State, step: Step, key: Word)
    requires TableInv(s) && Enabled(s, step) && key in Next(s, step).returned && key !in s.returned
    ensures step.PutStore? && Shape(Next(s, step)) && Stored(Next(s, step), key, s.threads[step.t].v)
  {
    hide HashInteger64, Probe, Reachable, IndicesOk, OwnersApart, UnfinishedOwned, Passed;
    var q := s.threads[step.t];
    assert ThreadOk(s, q);
    assert StoredAt(Next(s, step), q.slot, key, q.v);
  }

  lemma {:induction false} RunAgrees(states: seq<State>, steps: seq<Step>, capacity: nat, threads: nat, i: nat)
    requires RunFromInit(states, steps, capacity, threads) && i <= |steps|
    requires NoHoleWin(states, steps, i) && NoRepeatedWin(states, steps, i)
    ensures AgreementInv(states[i])
  {
    hide AgreementInv, DistinctKeys, AllReachable, WinsBehindHole, RepeatedWin;
    if i == 0 {
      InitAgrees(capacity, threads);
    } else {
      RunAgrees(states, steps, capacity, threads, i - 1);
      NoRepeatedWinIsDistinct(states, steps, capacity, threads, i - 1);
      RunReaches(states, steps, capacity, threads, i - 1);
      AgreementKeeps(states[i - 1], steps[i - 1]);
    }
  }

  lemma InitAgrees(capacity: nat, threads: nat)
    requires 0 < capacity
    ensures AgreementInv(Init(capacity, threads))
  {
    InitInv(capacity, threads);
  }

  lemma LastStep(states: seq<State>, steps: seq<Step>, j: nat)
    requires Run(states, steps) && 0 < j < |states|
    ensures j <= |steps| && Enabled(states[j - 1], steps[j - 1]) && states[j] == Next(states[j - 1], steps[j - 1])
  {
  }

  lemma {:induction false} StoredStays(states: seq<State>, steps: seq<Step>, capacity: nat, threads: nat,
                                       i: nat, j: nat, key: Word, v: nat)
    requires RunFromInit(states, steps, capacity, threads) && i <= j < |states| && key != 0
    requires Shape(states[i]) && Stored(states[i], key, v)
    ensures Shape(states[j]) && Stored(states[j], key, v)
    decreases j
  {
    hide Stored, TableInv, Run;
    if i < j {
      LastStep(states, steps, j);
      StoredStays(states, steps, capacity, threads, i, j - 1, key, v);
      RunKeeps(states, steps, capacity, threads, j - 1);
      StoredKeeps(states[j - 1], steps[j - 1], key, v);
    }
  }

  /**
    As long as no Put wins behind a hole or past its own pointer, a Get that begins after a Put of its pointer
    returned an index returns that same index, whatever other Puts and Gets interleave.
  */
  lemma LateGetAgreesWithPut(states: seq<State>, steps: seq<Step>, capacity: nat, threads: nat,
                             key: Word, a: nat, u: nat, b: nat, t: nat, c: nat)
    requires RunFromInit(states, steps, capacity, threads) && c < |states|
    requires NoHoleWin(states, steps, c) && NoRepeatedWin(states, steps, c)
    requires a <= b < c && u < |states[a].threads|
    requires states[a].threads[u].PutReturned? && states[a].threads[u].key == key && states[a].threads[u].result != -1
    requires OneGet(steps, t, key, b, c) && t < |states[c].threads| && states[c].threads[t].GetReturned?
    ensures states[c].threads[t].result == states[a].threads[u].result
  {
    hide Run, TableInv, Stored, DistinctKeys, WinsBehindHole, RepeatedWin;
    RunAgrees(states, steps, capacity, threads, a);
    RunAgrees(states, steps, capacity, threads, c);
    RunKeeps(states, steps, capacity, threads, a);
    NoRepeatedWinIsDistinct(states, steps, capacity, threads, c);
    var v := states[a].threads[u].result;
    ReturnedKnown(states[a], u);
    assert Agrees(states[a], states[a].threads[u]);
    StoredStays(states, steps, capacity, threads, a, c, key, v);
    SlotsOnlyFill(states, steps, a, b);
    StaysLate(states, steps, t, key, b, c);
    assert Agrees(states[c], states[c].threads[t]);
    StoredOnce(states[c], key, v, states[c].threads[t].result);
  }

  lemma ReturnedKnown(s: State, u: nat)
    requires TableInv(s) && u < |s.threads| && s.threads[u].PutReturned? && s.threads[u].result != -1
    ensures s.threads[u].key in s.returned && s.threads[u].key != 0
    ensures Shape(s) && s.threads[u].result >= 0
  {
    assert ThreadOk(s, s.threads[u]);
  }

  lemma StoredOnce(s: State, key: Word, v: nat, w: nat)
    requires Shape(s) && DistinctKeys(s) && key != 0 && Stored(s, key, v) && Stored(s, key, w)
    ensures v == w
  {
    var a: nat :| StoredAt(s, a, key, v);
    var b: nat :| StoredAt(s, b, key, w);
  }

  // ----- Two Puts that return an index for one pointer never agree -----

  ghost predicate Holder(q: Thread, v: nat) {
    (q.PutIndexed? && q.v == v) || (q.PutReturned? && q.result == v)
  }

  /** Indices in the hands of Puts are distinct and come from the counter. */
  ghost predicate HoldersApart(s: State) {
    && (forall t, v: nat :: 0 <= t < |s.threads| && Holder(s.threads[t], v) ==> v < s.nextIndex)
    && (forall t, u, v: nat :: 0 <= t < u < |s.threads| && Holder(s.threads[t], v) ==> !Holder(s.threads[u], v))
  }

  lemma HoldersKeep(s: State, step: Step)
    requires HoldersApart(s) && Enabled(s, step)
    ensures HoldersApart(Next(s, step))
  {
    hide HashInteger64, Probe;
    var s' := Next(s, step);
    forall t, v: nat | 0 <= t < |s'.threads| && t != step.t && Holder(s'.threads[t], v)
      ensures Holder(s.threads[t], v)
    {
    }
    forall v: nat | Holder(s'.threads[step.t], v)
      ensures Holder(s.threads[step.t], v) || v == s.nextIndex < s'.nextIndex
    {
    }
  }

  lemma {:induction false} RunKeepsHolders(states: seq<State>, steps: seq<Step>, capacity: nat, threads: nat, i: nat)
    requires RunFromInit(states, steps, capacity, threads) && i < |states|
    ensures HoldersApart(states[i])
  {
    if i > 0 {
      hide HoldersApart;
      RunKeepsHolders(states, steps, capacity, threads, i - 1);
      HoldersKeep(states[i - 1], steps[i - 1]);
    }
  }

  /**
    When two Puts of one pointer have both returned an index, the indices differ, so that no Get agrees with both;
    and some slot was won behind a hole or past the pointer itself.
  */
  lemma TwoWinnersDisagree(states: seq<State>, steps: seq<Step>, capacity: nat, threads: nat, c: nat, u: nat, w: nat)
    requires RunFromInit(states, steps, capacity, threads) && c < |states|
    requires u < |states[c].threads| && w < |states[c].threads| && u != w
    requires states[c].threads[u].PutReturned? && states[c].threads[u].result != -1
    requires states[c].threads[w].PutReturned? && states[c].threads[w].result != -1
    requires states[c].threads[u].key == states[c].threads[w].key
    ensures states[c].threads[u].result != states[c].threads[w].result
    ensures NoHoleWin(states, steps, c) ==> !NoRepeatedWin(states, steps, c)
  {
    hide TableInv, Stored, DistinctKeys, WinsBehindHole, RepeatedWin;
    var p, q := states[c].threads[u], states[c].threads[w];
    RunKeeps(states, steps, capacity, threads, c);
    ReturnedKnown(states[c], u);
    ReturnedKnown(states[c], w);
    RunKeepsHolders(states, steps, capacity, threads, c);
    assert Holder(p, p.result) && !Holder(q, p.result);
    if NoHoleWin(states, steps, c) && NoRepeatedWin(states, steps, c) {
      RunAgrees(states, steps, capacity, threads, c);
      NoRepeatedWinIsDistinct(states, steps, capacity, threads, c);
      assert Agrees(states[c], p) && Agrees(states[c], q);
      StoredOnce(states[c], p.key, p.result, q.result);
    }
  }

  // ----- Puts of one pointer that do not overlap -----

  ghost predicate Putting(q: Thread, key: Word) {
    (q.PutProbing? || q.PutSawNull? || q.PutClaimed? || q.PutIndexed?) && q.key == key
  }

  /** No two threads are inside a Put of the same pointer. */
  ghost predicate Exclusive(s: State) {
    forall t, u, key :: 0 <= t < u < |s.threads| && Putting(s.threads[t], key) ==> !Putting(s.threads[u], key)
  }

  /** A Put has not come past its own pointer, and a slot that it saw empty does not hold it. */
  ghost predicate NotPast(s: State, q: Thread)
    requires Shape(s)
  {
    && (q.PutProbing? ==> !PastOwn(s, q.key, q.i))
    && (q.PutSawNull? ==> !PastOwn(s, q.key, q.i + 1))
  }

  /** The others store other pointers. */
  lemma OthersNotPast(s: State, step: Step, u: nat)
    requires Exclusive(s) && Enabled(s, step) && u < |s.threads| && u != step.t && NotPast(s, s.threads[u])
    ensures Shape(Next(s, step)) && NotPast(Next(s, step), s.threads[u])
  {
    hide HashInteger64, Probe;
    var s', q, w := Next(s, step), s.threads[step.t], s.threads[u];
    if w.PutProbing? || w.PutSawNull? {
      assert Putting(w, w.key);
      assert !Putting(q, w.key);
      forall j: nat | s'.keys[Probe(w.key, j, s.capacity)] == w.key
        ensures s.keys[Probe(w.key, j, s.capacity)] == w.key
      {
      }
    }
  }

  lemma OwnNotPast(s: State, step: Step)
    requires Enabled(s, step) && NotPast(s, s.threads[step.t])
    ensures Shape(Next(s, step)) && NotPast(Next(s, step), Next(s, step).threads[step.t])
  {
    hide HashInteger64, Probe;
    var q := s.threads[step.t];
    if step.PutLoad? || step.PutSwap? {
      PastOwnGrows(s, q.key, q.i);
      if step.PutSwap? {
        assert !PastOwn(s, q.key, q.i + 1);
      }
    }
  }

  lemma {:induction false} ExclusiveRun(states: seq<State>, steps: seq<Step>, capacity: nat, threads: nat, c: nat)
    requires RunFromInit(states, steps, capacity, threads) && c <= |steps|
    requires forall j :: 0 <= j < c ==> Exclusive(states[j])
    ensures Shape(states[c])
    ensures forall t :: 0 <= t < |states[c].threads| ==> NotPast(states[c], states[c].threads[t])
    ensures NoRepeatedWin(states, steps, c)
  {
    RunShape(states, steps, capacity, threads, c);
    hide TableInv, Exclusive, NotPast, RepeatedWin;
    if c == 0 {
      assert forall t :: 0 <= t < threads ==> Init(capacity, threads).threads[t] == Idle;
      IdleNotPast(states[0]);
    } else {
      ExclusiveRun(states, steps, capacity, threads, c - 1);
      var s, step := states[c - 1], steps[c - 1];
      OthersStay(s, step);
      forall u | 0 <= u < |states[c].threads| ensures NotPast(states[c], states[c].threads[u]) {
        if u == step.t {
          OwnNotPast(s, step);
        } else {
          OthersNotPast(s, step, u);
        }
      }
      NoWinPast(s, step);
    }
  }

  lemma IdleNotPast(s: State)
    requires Shape(s)
    ensures NotPast(s, Idle)
  {
  }

  lemma NoWinPast(s: State, step: Step)
    requires Enabled(s, step) && NotPast(s, s.threads[step.t])
    ensures !RepeatedWin(s, step)
  {
    PastOwnGrows(s, if s.threads[step.t].PutSawNull? then s.threads[step.t].key else 0,
                 if s.threads[step.t].PutSawNull? then s.threads[step.t].i else 0);
  }

  /** If no two Puts of one pointer overlap and none wins behind a hole, everybody agrees. */
  lemma ExclusivePutsAgree(states: seq<State>, steps: seq<Step>, capacity: nat, threads: nat,
                           key: Word, a: nat, u: nat, b: nat, t: nat, c: nat)
    requires RunFromInit(states, steps, capacity, threads) && c < |states| && NoHoleWin(states, steps, c)
    requires forall j :: 0 <= j < c ==> Exclusive(states[j])
    requires a <= b < c && u < |states[a].threads|
    requires states[a].threads[u].PutReturned? && states[a].threads[u].key == key && states[a].threads[u].result != -1
    requires OneGet(steps, t, key, b, c) && t < |states[c].threads| && states[c].threads[t].GetReturned?
    ensures states[c].threads[t].result == states[a].threads[u].result
  {
    ExclusiveRun(states, steps, capacity, threads, c);
    hide Exclusive, TableInv, WinsBehindHole, RepeatedWin;
    LateGetAgreesWithPut(states, steps, capacity, threads, key, a, u, b, t, c);
  }

  // ----- What the conditions are for -----

  lemma FirstProbesDiffer(key: Word, capacity: nat)
    requires 2 <= capacity
    ensures Probe(key, 0, capacity) != Probe(key, 1, capacity)
  {
    ProbeCycle(key, 1, capacity);
  }

  ghost predicate Moves(a: State, step: Step, b: State) {
    Enabled(a, step) && b == Next(a, step)
  }

  /** An empty table, and tables that hold the key in one slot or in two. */
  function Empty(capacity: nat, threads: seq<Thread>): State {
    Init(capacity, 0).(threads := threads)
  }

  function Holding(capacity: nat, slot: nat, key: Word, threads: seq<Thread>): State
    requires slot < capacity
  {
    var s := Empty(capacity, threads);
    s.(keys := s.keys[slot := key])
  }

  function Drawn(s: State, slot: nat): State
    requires slot < |s.index|
  {
    s.(nextIndex := s.nextIndex + 1, index := s.index[slot := Some(s.nextIndex)])
  }

  function Returned(s: State, slot: nat, v: nat, key: Word): State
    requires slot < |s.values|
  {
    s.(values := s.values[slot := v], returned := s.returned + {key})
  }

  lemma PutPassesOver(key: Word, capacity: nat)
    requires key != 0 && 2 <= capacity
    ensures Moves(Empty(capacity, [Idle, Idle]), BeginPut(0, key), Empty(capacity, [PutProbing(key, 0, false), Idle]))
    ensures Moves(Empty(capacity, [PutProbing(key, 0, false), Idle]), PutLoad(0),
                  Empty(capacity, [PutSawNull(key, 0, false), Idle]))
    ensures Moves(Empty(capacity, [PutSawNull(key, 0, false), Idle]), PutSwap(0, true),
                  Empty(capacity, [PutProbing(key, 1, false), Idle]))
    ensures Moves(Empty(capacity, [PutProbing(key, 1, false), Idle]), PutLoad(0),
                  Empty(capacity, [PutSawNull(key, 1, false), Idle]))
  {
    hide HashInteger64, Probe;
  }

  lemma PutSettles(key: Word, capacity: nat, slot: nat)
    requires key != 0 && 2 <= capacity && slot == Probe(key, 1, capacity)
    ensures Moves(Empty(capacity, [PutSawNull(key, 1, false), Idle]), PutSwap(0, false),
                  Holding(capacity, slot, key, [PutClaimed(key, slot), Idle]))
    ensures Moves(Holding(capacity, slot, key, [PutClaimed(key, slot), Idle]), PutDraw(0),
                  Drawn(Holding(capacity, slot, key, [PutIndexed(key, slot, 0), Idle]), slot))
    ensures Moves(Drawn(Holding(capacity, slot, key, [PutIndexed(key, slot, 0), Idle]), slot), PutStore(0),
                  Returned(Drawn(Holding(capacity, slot, key, [PutReturned(key, 0), Idle]), slot), slot, 0, key))
  {
    hide HashInteger64, Probe;
  }

  lemma GetMisses(s: State, key: Word, p: Thread)
    requires Shape(s) && key != 0 && key in s.returned && s.keys[Probe(key, 0, s.capacity)] == 0
    ensures Moves(s.(threads := [p, Idle]), BeginGet(1, key), s.(threads := [p, GetProbing(key, 0, true)]))
    ensures Moves(s.(threads := [p, GetProbing(key, 0, true)]), GetLoad(1),
                  s.(threads := [p, GetReturned(key, -1, true)]))
  {
    hide HashInteger64, Probe;
  }

  lemma Extend(states: seq<State>, steps: seq<Step>, step: Step, b: State)
    returns (states': seq<State>, steps': seq<Step>)
    requires Run(states, steps) && Moves(states[|steps|], step, b)
    ensures Run(states', steps') && states' == states + [b] && steps' == steps + [step]
  {
    states', steps' := states + [b], steps + [step];
  }

  /**
    compare_exchange_weak may fail although the slot is still empty.  Put then moves on and leaves a hole before
    its key, so that a later Get of the very pointer reports it absent.
  */
  lemma SpuriousFailureLosesAKey(key: Word, capacity: nat) returns (states: seq<State>, steps: seq<Step>)
    requires key != 0 && 2 <= capacity
    ensures Run(states, steps) && states[0] == Init(capacity, 2) && |steps| == 9
    ensures states[7].threads == [PutReturned(key, 0), Idle] && steps[7] == BeginGet(1, key)
    ensures states[9].threads == [PutReturned(key, 0), GetReturned(key, -1, true)]
  {
    hide HashInteger64, Probe, Moves;
    FirstProbesDiffer(key, capacity);
    PutPassesOver(key, capacity);
    var slot := Probe(key, 1, capacity);
    PutSettles(key, capacity, slot);
    var done := Returned(Drawn(Holding(capacity, slot, key, [PutReturned(key, 0), Idle]), slot), slot, 0, key);
    GetMisses(done, key, PutReturned(key, 0));
    assert done.(threads := [PutReturned(key, 0), Idle]) == done;
    states, steps := [Empty(capacity, [Idle, Idle])], [];
    assert states[0] == Init(capacity, 2);
    assert Run(states, steps);
    hide Run, Empty, Holding, Drawn, Returned;
    states, steps := Extend(states, steps, BeginPut(0, key), Empty(capacity, [PutProbing(key, 0, false), Idle]));
    states, steps := Extend(states, steps, PutLoad(0), Empty(capacity, [PutSawNull(key, 0, false), Idle]));
    states, steps := Extend(states, steps, PutSwap(0, true), Empty(capacity, [PutProbing(key, 1, false), Idle]));
    states, steps := Extend(states, steps, PutLoad(0), Empty(capacity, [PutSawNull(key, 1, false), Idle]));
    states, steps := Extend(states, steps, PutSwap(0, false),
      Holding(capacity, slot, key, [PutClaimed(key, slot), Idle]));
    states, steps := Extend(states, steps, PutDraw(0),
      Drawn(Holding(capacity, slot, key, [PutIndexed(key, slot, 0), Idle]), slot));
    states, steps := Extend(states, steps, PutStore(0), done);
    states, steps := Extend(states, steps, BeginGet(1, key),
      done.(threads := [PutReturned(key, 0), GetProbing(key, 0, true)]));
    states, steps := Extend(states, steps, GetLoad(1),
      done.(threads := [PutReturned(key, 0), GetReturned(key, -1, true)]));
  }

  function HoldingTwice(capacity: nat, home: nat, second: nat, key: Word, threads: seq<Thread>): State
    requires home < capacity && second < capacity
  {
    var s := Holding(capacity, home, key, threads);
    s.(keys := s.keys[second := key])
  }

  lemma BothSeeEmpty(key: Word, capacity: nat)
    requires key != 0 && 2 <= capacity
    ensures Moves(Empty(capacity, [Idle, Idle, Idle]), BeginPut(0, key),
                  Empty(capacity, [PutProbing(key, 0, false), Idle, Idle]))
    ensures Moves(Empty(capacity, [PutProbing(key, 0, false), Idle, Idle]), PutLoad(0),
                  Empty(capacity, [PutSawNull(key, 0, false), Idle, Idle]))
    ensures Moves(Empty(capacity, [PutSawNull(key, 0, false), Idle, Idle]), BeginPut(1, key),
                  Empty(capacity, [PutSawNull(key, 0, false), PutProbing(key, 0, false), Idle]))
    ensures Moves(Empty(capacity, [PutSawNull(key, 0, false), PutProbing(key, 0, false), Idle]), PutLoad(1),
                  Empty(capacity, [PutSawNull(key, 0, false), PutSawNull(key, 0, false), Idle]))
  {
    hide HashInteger64, Probe;
  }

  lemma BothSwap(key: Word, capacity: nat, home: nat, second: nat)
    requires key != 0 && 2 <= capacity && home == Probe(key, 0, capacity) && second == Probe(key, 1, capacity)
    requires home != second
    ensures Moves(Empty(capacity, [PutSawNull(key, 0, false), PutSawNull(key, 0, false), Idle]), PutSwap(0, false),
                  Holding(capacity, home, key, [PutClaimed(key, home), PutSawNull(key, 0, false), Idle]))
    ensures Moves(Holding(capacity, home, key, [PutClaimed(key, home), PutSawNull(key, 0, false), Idle]),
                  PutSwap(1, false),
                  Holding(capacity, home, key, [PutClaimed(key, home), PutProbing(key, 1, true), Idle]))
    ensures Moves(Holding(capacity, home, key, [PutClaimed(key, home), PutProbing(key, 1, true), Idle]), PutLoad(1),
                  Holding(capacity, home, key, [PutClaimed(key, home), PutSawNull(key, 1, true), Idle]))
    ensures Moves(Holding(capacity, home, key, [PutClaimed(key, home), PutSawNull(key, 1, true), Idle]),
                  PutSwap(1, false),
                  HoldingTwice(capacity, home, second, key, [PutClaimed(key, home), PutClaimed(key, second), Idle]))
  {
    hide HashInteger64, Probe;
  }

  /** The racing Puts draw their indices in the order opposite to their slots and both return. */
  lemma BothReturn(s: State, key: Word, home: nat, second: nat)
    requires Shape(s) && home < s.capacity && second < s.capacity && s.nextIndex == 0
    ensures Moves(s.(threads := [PutClaimed(key, home), PutClaimed(key, second), Idle]), PutDraw(1),
                  Drawn(s, second).(threads := [PutClaimed(key, home), PutIndexed(key, second, 0), Idle]))
    ensures Moves(Drawn(s, second).(threads := [PutClaimed(key, home), PutIndexed(key, second, 0), Idle]), PutDraw(0),
                  Drawn(Drawn(s, second), home).(
                    threads := [PutIndexed(key, home, 1), PutIndexed(key, second, 0), Idle]))
  {
    hide HashInteger64, Probe;
  }

  lemma BothStore(s: State, key: Word, home: nat, second: nat)
    requires Shape(s) && home < s.capacity && second < s.capacity
    ensures Moves(s.(threads := [PutIndexed(key, home, 1), PutIndexed(key, second, 0), Idle]), PutStore(1),
                  Returned(s, second, 0, key).(threads := [PutIndexed(key, home, 1), PutReturned(key, 0), Idle]))
    ensures Moves(Returned(s, second, 0, key).(threads := [PutIndexed(key, home, 1), PutReturned(key, 0), Idle]),
                  PutStore(0),
                  Returned(Returned(s, second, 0, key), home, 1, key).(
                    threads := [PutReturned(key, 1), PutReturned(key, 0), Idle]))
  {
    hide HashInteger64, Probe;
  }

  lemma GetHitsHome(s: State, key: Word, home: nat, p: Thread, q: Thread, v: nat)
    requires Shape(s) && key != 0 && key in s.returned && home == Probe(key, 0, s.capacity)
    requires s.keys[home] == key && s.values[home] == v
    ensures Moves(s.(threads := [p, q, Idle]), BeginGet(2, key), s.(threads := [p, q, GetProbing(key, 0, true)]))
    ensures Moves(s.(threads := [p, q, GetProbing(key, 0, true)]), GetLoad(2),
                  s.(threads := [p, q, GetMatched(key, home, true)]))
    ensures Moves(s.(threads := [p, q, GetMatched(key, home, true)]), GetValue(2),
                  s.(threads := [p, q, GetReturned(key, v, true)]))
  {
    hide HashInteger64, Probe;
  }

  ghost predicate Trace(states: seq<State>, steps: seq<Step>, capacity: nat, threads: nat, last: State) {
    RunFromInit(states, steps, capacity, threads) && states[|steps|] == last && StrongRun(steps, |steps|)
  }

  lemma ExtendTrace(states: seq<State>, steps: seq<Step>, capacity: nat, threads: nat, a: State, step: Step, b: State)
    returns (states': seq<State>, steps': seq<Step>)
    requires Trace(states, steps, capacity, threads, a) && Moves(a, step, b) && Strong(step)
    requires |states| == |steps| + 1
    ensures Trace(states', steps', capacity, threads, b) && states' == states + [b] && steps' == steps + [step]
  {
    states', steps' := Extend(states, steps, step, b);
  }

  lemma RacingPutsClaim(key: Word, capacity: nat, home: nat, second: nat)
    returns (states: seq<State>, steps: seq<Step>)
    requires key != 0 && 2 <= capacity && home == Probe(key, 0, capacity) && second == Probe(key, 1, capacity)
    ensures |steps| == 8 && |states| == 9 && !Exclusive(states[4])
    ensures Trace(states, steps, capacity, 3,
              HoldingTwice(capacity, home, second, key, [PutClaimed(key, home), PutClaimed(key, second), Idle]))
  {
    hide HashInteger64, Probe, Moves;
    FirstProbesDiffer(key, capacity);
    BothSeeEmpty(key, capacity);
    BothSwap(key, capacity, home, second);
    var s0 := Empty(capacity, [Idle, Idle, Idle]);
    assert s0 == Init(capacity, 3);
    states, steps := [s0], [];
    assert Trace(states, steps, capacity, 3, s0);
    var s1 := Empty(capacity, [PutProbing(key, 0, false), Idle, Idle]);
    var s2 := Empty(capacity, [PutSawNull(key, 0, false), Idle, Idle]);
    var s3 := Empty(capacity, [PutSawNull(key, 0, false), PutProbing(key, 0, false), Idle]);
    var s4 := Empty(capacity, [PutSawNull(key, 0, false), PutSawNull(key, 0, false), Idle]);
    var s5 := Holding(capacity, home, key, [PutClaimed(key, home), PutSawNull(key, 0, false), Idle]);
    var s6 := Holding(capacity, home, key, [PutClaimed(key, home), PutProbing(key, 1, true), Idle]);
    var s7 := Holding(capacity, home, key, [PutClaimed(key, home), PutSawNull(key, 1, true), Idle]);
    var s8 := HoldingTwice(capacity, home, second, key, [PutClaimed(key, home), PutClaimed(key, second), Idle]);
    assert !Exclusive(s4) by {
      assert Putting(s4.threads[0], key) && Putting(s4.threads[1], key);
    }
    hide Trace, Empty, Holding, HoldingTwice, Exclusive;
    states, steps := ExtendTrace(states, steps, capacity, 3, s0, BeginPut(0, key), s1);
    states, steps := ExtendTrace(states, steps, capacity, 3, s1, PutLoad(0), s2);
    states, steps := ExtendTrace(states, steps, capacity, 3, s2, BeginPut(1, key), s3);
    states, steps := ExtendTrace(states, steps, capacity, 3, s3, PutLoad(1), s4);
    states, steps := ExtendTrace(states, steps, capacity, 3, s4, PutSwap(0, false), s5);
    states, steps := ExtendTrace(states, steps, capacity, 3, s5, PutSwap(1, false), s6);
    states, steps := ExtendTrace(states, steps, capacity, 3, s6, PutLoad(1), s7);
    states, steps := ExtendTrace(states, steps, capacity, 3, s7, PutSwap(1, false), s8);
  }

  lemma FinishRace(states: seq<State>, steps: seq<Step>, capacity: nat, key: Word, s: State, home: nat, second: nat)
    returns (states': seq<State>, steps': seq<Step>)
    requires Trace(states, steps, capacity, 3, s.(threads := [PutClaimed(key, home), PutClaimed(key, second), Idle]))
    requires |steps| == 8 && |states| == 9 && Shape(s) && s.nextIndex == 0 && key != 0
    requires home < s.capacity && second < s.capacity && home != second && home == Probe(key, 0, s.capacity)
    requires s.keys[home] == key
    ensures |steps'| == 15 && |states'| == 16 && states'[..9] == states
    ensures RunFromInit(states', steps', capacity, 3) && StrongRun(steps', |steps'|)
    ensures states'[12].threads == [PutReturned(key, 1), PutReturned(key, 0), Idle] && steps'[12] == BeginGet(2, key)
    ensures states'[15].threads == [PutReturned(key, 1), PutReturned(key, 0), GetReturned(key, 1, true)]
  {
    hide HashInteger64, Probe, Moves;
    BothReturn(s, key, home, second);
    var drawn := Drawn(Drawn(s, second), home);
    BothStore(drawn, key, home, second);
    var done := Returned(Returned(drawn, second, 0, key), home, 1, key);
    GetHitsHome(done, key, home, PutReturned(key, 1), PutReturned(key, 0), 1);
    var s8 := s.(threads := [PutClaimed(key, home), PutClaimed(key, second), Idle]);
    var s9 := Drawn(s, second).(threads := [PutClaimed(key, home), PutIndexed(key, second, 0), Idle]);
    var s10 := drawn.(threads := [PutIndexed(key, home, 1), PutIndexed(key, second, 0), Idle]);
    var s11 := Returned(drawn, second, 0, key).(threads := [PutIndexed(key, home, 1), PutReturned(key, 0), Idle]);
    var s12 := done.(threads := [PutReturned(key, 1), PutReturned(key, 0), Idle]);
    var s13 := done.(threads := [PutReturned(key, 1), PutReturned(key, 0), GetProbing(key, 0, true)]);
    var s14 := done.(threads := [PutReturned(key, 1), PutReturned(key, 0), GetMatched(key, home, true)]);
    var s15 := done.(threads := [PutReturned(key, 1), PutReturned(key, 0), GetReturned(key, 1, true)]);
    hide Trace, Drawn, Returned;
    states', steps' := ExtendTrace(states, steps, capacity, 3, s8, PutDraw(1), s9);
    states', steps' := ExtendTrace(states', steps', capacity, 3, s9, PutDraw(0), s10);
    states', steps' := ExtendTrace(states', steps', capacity, 3, s10, PutStore(1), s11);
    states', steps' := ExtendTrace(states', steps', capacity, 3, s11, PutStore(0), s12);
    states', steps' := ExtendTrace(states', steps', capacity, 3, s12, BeginGet(2, key), s13);
    states', steps' := ExtendTrace(states', steps', capacity, 3, s13, GetLoad(2), s14);
    states', steps' := ExtendTrace(states', steps', capacity, 3, s14, GetValue(2), s15);
    TraceRuns(states', steps', capacity, s15);
  }

  lemma TraceRuns(states: seq<State>, steps: seq<Step>, capacity: nat, last: State)
    requires Trace(states, steps, capacity, 3, last)
    ensures RunFromInit(states, steps, capacity, 3) && StrongRun(steps, |steps|)
  {
  }

  /**
    Two overlapping Puts of one pointer both succeed, in two slots and with two indices, and a later Get
    disagrees with one of them, although no swap fails spuriously.
  */
  lemma RacingPutsDisagree(key: Word, capacity: nat) returns (states: seq<State>, steps: seq<Step>)
    requires key != 0 && 2 <= capacity
    ensures |steps| == 15 && |states| == 16 && RunFromInit(states, steps, capacity, 3) && StrongRun(steps, |steps|)
    ensures states[12].threads == [PutReturned(key, 1), PutReturned(key, 0), Idle] && steps[12] == BeginGet(2, key)
    ensures states[15].threads == [PutReturned(key, 1), PutReturned(key, 0), GetReturned(key, 1, true)]
    ensures !Exclusive(states[4])
  {
    hide HashInteger64, Probe, Moves, Trace, Exclusive, Run;
    FirstProbesDiffer(key, capacity);
    var home, second := Probe(key, 0, capacity), Probe(key, 1, capacity);
    var claiming, first := RacingPutsClaim(key, capacity, home, second);
    var claimed := HoldingTwice(capacity, home, second, key, [PutClaimed(key, home), PutClaimed(key, second), Idle]);
    assert claimed.(threads := [PutClaimed(key, home), PutClaimed(key, second), Idle]) == claimed;
    states, steps := FinishRace(claiming, first, capacity, key, claimed, home, second);
    assert states[4] == states[..9][4];
  }
}
