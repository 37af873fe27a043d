/**
  The intern table of src/map/pointer_hash.h shared by threads, one atomic action at a time.

  Put and Get are split at every load, compare-and-swap, fetch-and-add and store, and the steps of any
  number of threads interleave freely.  `index` records which index each claimed slot was given, `returned` the
  keys for which some Put has returned an index, and `lost` whether a Put has lost a swap to its own key; they
  steer nothing.
*/
module PointerTable {
  import opened Common
  import opened HashInteger
  import opened PointerHashes

  datatype Thread =
    | Idle
    | PutProbing(key: Word, i: nat, lost: bool)  // about to load the i-th probed slot
    | PutSawNull(key: Word, i: nat, lost: bool)  // it was empty; about to compare-and-swap
    | PutClaimed(key: Word, slot: nat)           // about to draw an index
    | PutIndexed(key: Word, slot: nat, v: nat)   // about to store the value
    | PutReturned(key: Word, result: int)
    | GetProbing(key: Word, i: nat, late: bool)  // `late`: a Put of the key had returned when this Get began
    | GetMatched(key: Word, slot: nat, late: bool)
    | GetReturned(key: Word, result: int, late: bool)

  datatype State = State(
    capacity: nat,
    keys: seq<Word>,
    values: seq<nat>,
    nextIndex: nat,
    threads: seq<Thread>,
    index: seq<Option<nat>>,
    returned: set<Word>)

  datatype Step =
    | BeginPut(t: nat, key: Word)
    | PutLoad(t: nat)
    | PutSwap(t: nat, spurious: bool)
    | PutDraw(t: nat)
    | PutStore(t: nat)
    | BeginGet(t: nat, key: Word)
    | GetLoad(t: nat)
    | GetValue(t: nat)
    | Leave(t: nat)

  function Init(capacity: nat, threads: nat): State {
    State(capacity, seq(capacity, _ => 0), seq(capacity, _ => 0), 0, seq(threads, _ => Idle),
          seq(capacity, _ => None), {})
  }

  ghost predicate Shape(s: State) {
    0 < s.capacity == |s.keys| == |s.values| == |s.index|
  }

  ghost predicate Enabled(s: State, step: Step) {
    && Shape(s) && step.t < |s.threads|
    && var q := s.threads[step.t];
    match step
    case BeginPut(_, key) => q.Idle? && key != 0
    case PutLoad(_) => q.PutProbing?
    case PutSwap(_, _) => q.PutSawNull?
    case PutDraw(_) => q.PutClaimed? && q.slot < s.capacity
    case PutStore(_) => q.PutIndexed? && q.slot < s.capacity
    case BeginGet(_, key) => q.Idle? && key != 0
    case GetLoad(_) => q.GetProbing?
    case GetValue(_) => q.GetMatched? && q.slot < s.capacity
    case Leave(_) => q.PutReturned? || q.GetReturned?
  }

  function Become(s: State, t: nat, q: Thread): State
    requires t < |s.threads|
  {
    s.(threads := s.threads[t := q])
  }

  /** next_step of Put: the next slot, or give up after a full cycle. */
  function PutNext(s: State, t: nat, key: Word, i: nat, lost: bool): State
    requires t < |s.threads|
  {
    Become(s, t, if i + 1 == s.capacity then PutReturned(key, -1) else PutProbing(key, i + 1, lost))
  }

  ghost function Next(s: State, step: Step): State
    requires Enabled(s, step)
  {
    var t := step.t;
    var q := s.threads[t];
    match step
    case BeginPut(_, key) => Become(s, t, PutProbing(key, 0, false))
    case PutLoad(_) =>
      var prevKey := s.keys[Probe(q.key, q.i, s.capacity)];
      if prevKey == q.key then Become(s, t, PutReturned(q.key, -1))
      else if prevKey != 0 then PutNext(s, t, q.key, q.i, q.lost)
      else Become(s, t, PutSawNull(q.key, q.i, q.lost))
    case PutSwap(_, spurious) =>
      var slot := Probe(q.key, q.i, s.capacity);
      if s.keys[slot] == 0 && !spurious
      then Become(s, t, PutClaimed(q.key, slot)).(keys := s.keys[slot := q.key])
      else PutNext(s, t, q.key, q.i, q.lost || s.keys[slot] == q.key)
    case PutDraw(_) =>
      Become(s, t, PutIndexed(q.key, q.slot, s.nextIndex)).(
        nextIndex := s.nextIndex + 1, index := s.index[q.slot := Some(s.nextIndex)])
    case PutStore(_) =>
      Become(s, t, PutReturned(q.key, q.v)).(
        values := s.values[q.slot := q.v], returned := s.returned + {q.key})
    case BeginGet(_, key) => Become(s, t, GetProbing(key, 0, key in s.returned))
    case GetLoad(_) =>
      var slot := Probe(q.key, q.i, s.capacity);
      if s.keys[slot] == q.key then Become(s, t, GetMatched(q.key, slot, q.late))
      else if s.keys[slot] == 0 || q.i + 1 == s.capacity then Become(s, t, GetReturned(q.key, -1, q.late))
      else Become(s, t, GetProbing(q.key, q.i + 1, q.late))
    case GetValue(_) => Become(s, t, GetReturned(q.key, s.values[q.slot], q.late))
    case Leave(_) => Become(s, t, Idle)
  }

  ghost predicate Run(states: seq<State>, steps: seq<Step>) {
    && |states| == |steps| + 1
    && forall i :: 0 <= i < |steps| ==> Enabled(states[i], steps[i]) && states[i + 1] == Next(states[i], steps[i])
  }

  // ----- The invariant -----

  /** How far along its probe sequence a key finds a slot. */
  ghost predicate ReachedFrom(s: State, key: Word, slot: nat, d: nat)
    requires Shape(s)
  {
    && d < s.capacity && Probe(key, d, s.capacity) == slot
    && forall j: nat :: j < d ==> s.keys[Probe(key, j, s.capacity)] != 0
  }

  ghost predicate Reachable(s: State, slot: nat)
    requires Shape(s) && slot < s.capacity
  {
    s.keys[slot] != 0 ==> exists d: nat :: ReachedFrom(s, s.keys[slot], slot, d)
  }

  /** All slots probed so far are taken by other keys. */
  ghost predicate Passed(s: State, key: Word, i: nat)
    requires Shape(s)
  {
    i < s.capacity && forall j: nat :: j < i ==> s.keys[Probe(key, j, s.capacity)] !in {0, key}
  }

  ghost predicate HasKey(s: State, key: Word, slot: nat)
    requires Shape(s)
  {
    key != 0 && slot < s.capacity && s.keys[slot] == key
  }

  ghost predicate ThreadOk(s: State, q: Thread)
    requires Shape(s)
  {
    match q
    case Idle => true
    case PutProbing(key, i, lost) => key != 0 && i < s.capacity
    case PutSawNull(key, i, lost) => key != 0 && i < s.capacity
    case PutClaimed(key, slot) => HasKey(s, key, slot) && s.index[slot].None? && s.values[slot] == 0
    case PutIndexed(key, slot, v) => HasKey(s, key, slot) && s.index[slot] == Some(v) && s.values[slot] == 0
    case PutReturned(key, r) => r == -1 || (0 <= r && key in s.returned)
    case GetProbing(key, i, late) => key != 0 && Passed(s, key, i) && (late ==> key in s.returned)
    case GetMatched(key, slot, late) => HasKey(s, key, slot) && (late ==> key in s.returned)
    case GetReturned(key, r, late) => late ==> key in s.returned
  }

  lemma {:induction false} IndexedUpdate(index: seq<Option<nat>>, slot: nat, v: nat)
    requires slot < |index| && index[slot].None?
    ensures CountSome(index[slot := Some(v)]) == CountSome(index) + 1
  {
    if slot == 0 {
      assert index[slot := Some(v)][1..] == index[1..];
    } else {
      assert index[slot := Some(v)][1..] == index[1..][slot - 1 := Some(v)];
      IndexedUpdate(index[1..], slot - 1, v);
    }
  }

  lemma {:induction false} NoneIndexed(index: seq<Option<nat>>)
    requires forall i :: 0 <= i < |index| ==> index[i].None?
    ensures CountSome(index) == 0
  {
    if index != [] {
      NoneIndexed(index[1..]);
    }
  }

  /** Distinct indices, all below the counter, given only to claimed slots; a value is stored last. */
  ghost predicate IndicesOk(s: State)
    requires Shape(s)
  {
    && s.nextIndex == CountSome(s.index)
    && (forall a :: 0 <= a < s.capacity && s.index[a].Some? ==> s.keys[a] != 0 && s.index[a].value < s.nextIndex)
    && (forall a, b :: 0 <= a < b < s.capacity && s.index[a].Some? && s.index[b].Some? ==> s.index[a] != s.index[b])
    && (forall a :: 0 <= a < s.capacity ==> s.values[a] == 0 || s.index[a] == Some(s.values[a]))
  }

  /** A Put has swapped its key into the slot and not yet stored the value. */
  ghost predicate Owns(q: Thread, slot: nat) {
    (q.PutClaimed? || q.PutIndexed?) && q.slot == slot
  }

  ghost predicate OwnedBy(s: State, t: nat, slot: nat) {
    t < |s.threads| && Owns(s.threads[t], slot)
  }

  ghost predicate OwnersApart(s: State) {
    forall t, u, slot :: t < u && OwnedBy(s, t, slot) ==> !OwnedBy(s, u, slot)
  }

  /** A taken slot whose value is not its index is still being filled in. */
  ghost predicate UnfinishedOwned(s: State)
    requires Shape(s)
  {
    forall slot :: 0 <= slot < s.capacity && s.keys[slot] != 0 && s.index[slot] != Some(s.values[slot]) ==>
      exists t :: OwnedBy(s, t, slot)
  }

  ghost predicate TableInv(s: State) {
    && Shape(s)
    && IndicesOk(s)
    && OwnersApart(s)
    && UnfinishedOwned(s)
    && (forall key :: key in s.returned ==> key in s.keys && key != 0)
    && (forall t :: 0 <= t < |s.threads| ==> ThreadOk(s, s.threads[t]))
  }

  lemma InitInv(capacity: nat, threads: nat)
    requires 0 < capacity
    ensures TableInv(Init(capacity, threads))
  {
    NoneIndexed(Init(capacity, threads).index);
  }

  /** Slots only ever change from empty to a key. */
  ghost predicate OnlyFills(a: State, b: State) {
    && Shape(a) && Shape(b) && a.capacity == b.capacity
    && forall slot :: 0 <= slot < a.capacity ==> b.keys[slot] == a.keys[slot] || a.keys[slot] == 0
  }

  lemma StepOnlyFills(s: State, step: Step)
    requires Enabled(s, step)
    ensures OnlyFills(s, Next(s, step))
  {
  }

  /** What filling slots cannot spoil. */
  lemma FillingKeeps(a: State, b: State)
    requires OnlyFills(a, b)
    ensures forall key, i | Passed(a, key, i) :: Passed(b, key, i)
    ensures forall key | key in a.keys && key != 0 :: key in b.keys
    ensures forall key, slot, d | ReachedFrom(a, key, slot, d) :: ReachedFrom(b, key, slot, d)
  {
    forall key | key in a.keys && key != 0 ensures key in b.keys {
      var slot :| 0 <= slot < |a.keys| && a.keys[slot] == key;
      assert b.keys[slot] == key;
    }
  }

  /** What one step does to the keys and to the indices. */
  ghost predicate Footprint(a: State, b: State, q: Thread, u: Thread) {
    && Shape(a) && OnlyFills(a, b)
    && (forall slot :: 0 <= slot < a.capacity && a.index[slot] != b.index[slot] ==>
          a.index[slot].None? && Owns(q, slot) && !Owns(u, slot))
    && (forall slot :: 0 <= slot < a.capacity && a.values[slot] != b.values[slot] ==> Owns(q, slot) && !Owns(u, slot))
    && (forall key :: key in a.returned ==> key in b.returned)
  }

  lemma StepFootprint(s: State, step: Step, u: nat)
    requires TableInv(s) && Enabled(s, step) && u < |s.threads| && u != step.t
    ensures Footprint(s, Next(s, step), s.threads[step.t], s.threads[u])
  {
    hide Probe, HashInteger64, Passed, IndicesOk, UnfinishedOwned;
    StepOnlyFills(s, step);
    assert ThreadOk(s, s.threads[step.t]);
    var q := s.threads[step.t];
    if q.PutClaimed? || q.PutIndexed? {
      assert OwnedBy(s, step.t, q.slot);
      assert !OwnedBy(s, u, q.slot);
    }
  }

  /** A thread's knowledge survives the steps of the others. */
  lemma OthersKeep(a: State, b: State, q: Thread, u: Thread)
    requires Footprint(a, b, q, u) && ThreadOk(a, u)
    ensures ThreadOk(b, u)
  {
    hide Probe, HashInteger64, Passed;
    FillingKeeps(a, b);
  }

  ghost predicate IsGet(step: Step) {
    step.BeginGet? || step.GetLoad? || step.GetValue?
  }

  lemma PutThreadKeeps(s: State, step: Step)
    requires TableInv(s) && Enabled(s, step) && !IsGet(step)
    ensures ThreadOk(Next(s, step), Next(s, step).threads[step.t])
  {
    hide HashInteger64, Probe, UnfinishedOwned, OwnersApart;
    StepOnlyFills(s, step);
    var q := s.threads[step.t];
    assert ThreadOk(s, q);
    if step.PutSwap? {
      var slot := Probe(q.key, q.i, s.capacity);
      assert s.keys[slot] == 0 ==> s.index[slot] == None;
    }
  }

  lemma GetThreadKeeps(s: State, step: Step)
    requires TableInv(s) && Enabled(s, step) && IsGet(step)
    ensures ThreadOk(Next(s, step), Next(s, step).threads[step.t])
  {
    hide HashInteger64, Probe, UnfinishedOwned, OwnersApart, IndicesOk;
    var q := s.threads[step.t];
    assert ThreadOk(s, q);
  }

  lemma IndicesKeep(s: State, step: Step)
    requires TableInv(s) && Enabled(s, step) && !step.PutDraw?
    ensures IndicesOk(Next(s, step))
  {
    hide HashInteger64, Probe, Passed, UnfinishedOwned, OwnersApart;
    assert ThreadOk(s, s.threads[step.t]);
  }

  /** Drawing takes an index nobody has and uses it for a slot that has none. */
  lemma DrawKeepsIndices(s: State, t: nat)
    requires TableInv(s) && Enabled(s, PutDraw(t))
    ensures IndicesOk(Next(s, PutDraw(t)))
  {
    hide HashInteger64, Probe, Passed, UnfinishedOwned, OwnersApart;
    var q := s.threads[t];
    assert ThreadOk(s, q);
    IndexedUpdate(s.index, q.slot, s.nextIndex);
  }

  /** A slot is claimed at most once: only an empty slot can be swapped for. */
  lemma OwnersKeep(s: State, step: Step)
    requires TableInv(s) && Enabled(s, step)
    ensures OwnersApart(Next(s, step))
  {
    hide HashInteger64, Probe, Passed, IndicesOk, UnfinishedOwned;
    var s' := Next(s, step);
    forall t: nat, slot: nat | OwnedBy(s, t, slot) ensures slot < s.capacity && s.keys[slot] != 0 {
      assert ThreadOk(s, s.threads[t]);
    }
    forall t: nat, slot: nat | OwnedBy(s', t, slot) && t != step.t ensures OwnedBy(s, t, slot) {
    }
    forall slot: nat | OwnedBy(s', step.t, slot) && slot < s.capacity && s.keys[slot] != 0
      ensures OwnedBy(s, step.t, slot)
    {
    }
  }

  lemma UnfinishedKeep(s: State, step: Step)
    requires TableInv(s) && Enabled(s, step)
    ensures UnfinishedOwned(Next(s, step))
  {
    hide HashInteger64, Probe, Passed, IndicesOk, OwnersApart;
    var s' := Next(s, step);
    var q := s.threads[step.t];
    assert ThreadOk(s, q);
    forall slot | 0 <= slot < s.capacity && s'.keys[slot] != 0 && s'.index[slot] != Some(s'.values[slot])
      ensures exists t :: OwnedBy(s', t, slot)
    {
      if OwnedBy(s', step.t, slot) {
      } else if s.keys[slot] != 0 && s.index[slot] != Some(s.values[slot]) {
        var t :| OwnedBy(s, t, slot);
        assert OwnedBy(s', t, slot);
      }
    }
  }

  lemma ReturnedKeep(s: State, step: Step)
    requires TableInv(s) && Enabled(s, step)
    ensures forall key :: key in Next(s, step).returned ==> key in Next(s, step).keys && key != 0
  {
    hide HashInteger64, Probe, Passed, IndicesOk;
    var s' := Next(s, step);
    StepOnlyFills(s, step);
    FillingKeeps(s, s');
    var q := s.threads[step.t];
    assert ThreadOk(s, q);
    if step.PutStore? {
      assert s'.keys[q.slot] == q.key;
    }
  }

  lemma StepKeeps(s: State, step: Step)
    requires TableInv(s) && Enabled(s, step)
    ensures TableInv(Next(s, step))
  {
    var s' := Next(s, step);
    StepOnlyFills(s, step);
    if step.PutDraw? {
      DrawKeepsIndices(s, step.t);
    } else {
      IndicesKeep(s, step);
    }
    OwnersKeep(s, step);
    UnfinishedKeep(s, step);
    ReturnedKeep(s, step);
    hide IndicesOk, ThreadOk, OwnersApart, UnfinishedOwned;
    forall u | 0 <= u < |s'.threads| ensures ThreadOk(s', s'.threads[u]) {
      if u == step.t {
        if IsGet(step) {
          GetThreadKeeps(s, step);
        } else {
          PutThreadKeeps(s, step);
        }
      } else {
        StepFootprint(s, step, u);
        OthersKeep(s, s', s.threads[step.t], s.threads[u]);
      }
    }
  }

  // ----- Whole runs -----

  ghost predicate RunFromInit(states: seq<State>, steps: seq<Step>, capacity: nat, threads: nat) {
    Run(states, steps) && 0 < capacity && states[0] == Init(capacity, threads)
  }

  lemma {:induction false} RunKeeps(states: seq<State>, steps: seq<Step>, capacity: nat, threads: nat, i: nat)
    requires RunFromInit(states, steps, capacity, threads) && i < |states|
    ensures TableInv(states[i]) && states[i].capacity == capacity
  {
    hide TableInv;
    if i == 0 {
      InitInv(capacity, threads);
    } else {
      RunKeeps(states, steps, capacity, threads, i - 1);
      StepKeeps(states[i - 1], steps[i - 1]);
      StepOnlyFills(states[i - 1], steps[i - 1]);
    }
  }

  /** In every interleaving, spurious failures of the swap included, claimed slots get distinct small indices. */
  lemma TableSafety(states: seq<State>, steps: seq<Step>, capacity: nat, threads: nat, i: nat)
    requires RunFromInit(states, steps, capacity, threads) && i < |states|
    ensures Shape(states[i]) && states[i].capacity == capacity
    ensures states[i].nextIndex <= capacity
    ensures forall a :: 0 <= a < capacity && states[i].index[a].Some? ==>
      states[i].keys[a] != 0 && states[i].index[a].value < capacity
    ensures forall a, b :: 0 <= a < b < capacity && states[i].index[a].Some? && states[i].index[b].Some? ==>
      states[i].index[a] != states[i].index[b]
  {
    RunKeeps(states, steps, capacity, threads, i);
  }

  /** Along a run slots only change from empty to a key, and returned keys stay returned. */
  lemma {:induction false} SlotsOnlyFill(states: seq<State>, steps: seq<Step>, i: nat, j: nat)
    requires Run(states, steps) && i <= j < |states| && Shape(states[i])
    ensures OnlyFills(states[i], states[j])
    ensures states[i].returned <= states[j].returned
    decreases j
  {
    if i < j {
      SlotsOnlyFill(states, steps, i, j - 1);
      StepOnlyFills(states[j - 1], steps[j - 1]);
    }
  }

  /** Thread t stays inside one Get from its beginning at step b up to state c. */
  ghost predicate OneGet(steps: seq<Step>, t: nat, key: Word, b: nat, c: nat) {
    && b < c <= |steps| && steps[b] == BeginGet(t, key)
    && forall m :: b < m < c ==> steps[m] != Leave(t)
  }

  ghost predicate LateGet(q: Thread, key: Word) {
    (q.GetProbing? || q.GetMatched? || q.GetReturned?) && q.key == key && q.late
  }

  lemma {:induction false} StaysLate(states: seq<State>, steps: seq<Step>, t: nat, key: Word, b: nat, c: nat)
    requires Run(states, steps) && OneGet(steps, t, key, b, c) && key in states[b].returned
    ensures t < |states[c].threads| && LateGet(states[c].threads[t], key)
    decreases c
  {
    assert Enabled(states[b], steps[b]);
    if b + 1 < c {
      StaysLate(states, steps, t, key, b, c - 1);
    }
  }

  /** The value read from a taken slot is its index exactly when no Put still has a nonzero index to store there. */
  lemma ValueIsIndexUnlessOwned(s: State, slot: nat)
    requires TableInv(s) && slot < s.capacity && s.keys[slot] != 0
    ensures s.index[slot] == Some(s.values[slot]) <==>
      forall t: nat :: OwnedBy(s, t, slot) ==> s.threads[t].PutIndexed? && s.threads[t].v == 0
  {
    hide Passed, IndicesOk, OwnersApart;
    forall t: nat | OwnedBy(s, t, slot) ensures ThreadOk(s, s.threads[t]) {
    }
  }
}
