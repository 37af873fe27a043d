/**
  The open-addressed intern table of src/map/pointer_hash.h, used by one thread at a time: it refines the
  list of distinct pointers in first-use order.  Pointers are non-null 64-bit words; 0 is an empty slot.
*/
module PointerHashes {
  import opened Common
  import opened HashInteger

  /** The i-th slot probed for a pointer. */
  function Probe(ptr: Word, i: nat, capacity: nat): (slot: nat)
    requires 0 < capacity
    ensures slot < capacity
  {
    (HashInteger64(ptr) % capacity + i) % capacity
  }

  lemma ProbeNext(ptr: Word, i: nat, capacity: nat)
    requires 0 < capacity
    ensures (Probe(ptr, i, capacity) + 1) % capacity == Probe(ptr, i + 1, capacity)
  {
    RemainderOfSuccessor(HashInteger64(ptr) % capacity + i, capacity);
  }

  /** The first probe is the home slot, and `capacity` probes come back to it for the first time. */
  lemma ProbeCycle(ptr: Word, i: nat, capacity: nat)
    requires 0 < i <= capacity
    ensures Probe(ptr, 0, capacity) == HashInteger64(ptr) % capacity
    ensures Probe(ptr, i, capacity) == Probe(ptr, 0, capacity) <==> i == capacity
  {
    hide HashInteger64;
    var h := HashInteger64(ptr) % capacity;
    RemainderOf(0, h, capacity);
    if i < capacity {
      RemainderDistinguishes(h + i, h, capacity);
    } else {
      RemainderOf(1, h, capacity);
    }
  }

  /** Probing reaches every slot. */
  lemma ProbeReaches(ptr: Word, slot: nat, capacity: nat) returns (i: nat)
    requires slot < capacity
    ensures i < capacity && Probe(ptr, i, capacity) == slot
  {
    hide HashInteger64;
    var h := HashInteger64(ptr) % capacity;
    if h <= slot {
      i := slot - h;
      RemainderOf(0, slot, capacity);
    } else {
      i := slot + capacity - h;
      RemainderOf(1, slot, capacity);
    }
  }

  function UpTo(m: nat): (s: set<nat>)
    ensures |s| == m && forall x: nat :: x in s <==> x < m
  {
    if m == 0 then {} else UpTo(m - 1) + {m - 1}
  }

  /** Counting: an injection into the numbers below m takes at most m of them, and all only without a hole. */
  lemma Injection(f: seq<nat>, m: nat)
    requires forall i :: 0 <= i < |f| ==> f[i] < m
    requires forall i, j :: 0 <= i < j < |f| ==> f[i] != f[j]
    ensures |f| <= m
    ensures forall hole :: 0 <= hole < m && hole !in f ==> |f| < m
  {
    Subset(Elements(f), UpTo(m));
  }

  class PointerHash {
    const capacity: nat
    const keys: array<Word>
    const values: array<nat>
    var nextIndex: nat
    /** The distinct pointers in first-use order, and where each one lies. */
    ghost var order: seq<Word>
    ghost var slots: seq<nat>
    ghost var distances: seq<nat>

    /** The j-th pointer lies in its slot, reached from its home slot over other pointers only. */
    ghost predicate Placed(j: nat)
      reads this, keys, values
      requires j < |order| == |slots| == |distances| && 0 < capacity == keys.Length == values.Length
    {
      && order[j] != 0
      && slots[j] < capacity && keys[slots[j]] == order[j] && values[slots[j]] == j
      && distances[j] < capacity && slots[j] == Probe(order[j], distances[j], capacity)
      && forall i: nat :: i < distances[j] ==> keys[Probe(order[j], i, capacity)] !in {0, order[j]}
    }

    ghost predicate Valid()
      reads this, keys, values
    {
      && 0 < capacity == keys.Length == values.Length
      && keys as object != values as object
      && nextIndex == |order| == |slots| == |distances|
      && (forall i, j :: 0 <= i < j < |order| ==> order[i] != order[j])
      && (forall j :: 0 <= j < |order| ==> Placed(j))
      && (forall s :: 0 <= s < capacity && keys[s] != 0 ==> values[s] < |order| && slots[values[s]] == s)
    }

    constructor (capacity: nat)
      requires 0 < capacity
      ensures Valid() && order == [] && this.capacity == capacity && fresh(keys) && fresh(values)
    {
      this.capacity := capacity;
      keys := new Word[capacity](_ => 0);
      values := new nat[capacity](_ => 0);
      nextIndex := 0;
      order, slots, distances := [], [], [];
    }

    lemma Sizes()
      requires Valid()
      ensures 0 < capacity == keys.Length == values.Length
    {
    }

    /** Probed slots that hold other pointers cannot hide one that is in the table. */
    lemma NotSkipped(ptr: Word, i: nat)
      requires Valid() && ptr in order
      requires forall k: nat :: k < i ==> keys[Probe(ptr, k, capacity)] !in {0, ptr}
      ensures i < capacity
      ensures keys[Probe(ptr, i, capacity)] != 0
    {
      var j := IndexOf(order, ptr);
      assert Placed(j);
      assert keys[Probe(ptr, distances[j], capacity)] == ptr;
    }

    lemma Found(s: nat)
      requires Valid() && s < capacity && keys[s] != 0
      ensures keys[s] in order && values[s] == IndexOf(order, keys[s])
    {
      assert Placed(values[s]);
      assert order[values[s]] == keys[s];
      assert Placed(IndexOf(order, keys[s]));
    }

    /** The list is full exactly when no slot is empty. */
    lemma FullIffNoHole()
      requires Valid()
      ensures |order| <= capacity
      ensures |order| == capacity <==> forall s :: 0 <= s < capacity ==> keys[s] != 0
    {
      forall j | 0 <= j < |slots|
        ensures slots[j] < capacity && values[slots[j]] == j && keys[slots[j]] != 0
      {
        assert Placed(j);
      }
      Injection(slots, capacity);
      if hole :| 0 <= hole < capacity && keys[hole] == 0 {
        assert hole !in slots;
      } else {
        Injection(values[..], |order|);
      }
    }

    /** -1 for an absent pointer, otherwise its position in the list. */
    method Get(ptr: Word) returns (index: int)
      requires Valid() && ptr != 0
      ensures index == if ptr in order then IndexOf(order, ptr) else -1
    {
      hide Valid, Probe, HashInteger64;
      Sizes();
      var searchStart := HashInteger64(ptr) % capacity;
      var idx := searchStart;
      ghost var i := 0;
      ProbeCycle(ptr, capacity, capacity);
      while true
        invariant i < capacity && idx == Probe(ptr, i, capacity)
        invariant forall k: nat :: k < i ==> keys[Probe(ptr, k, capacity)] !in {0, ptr}
        decreases capacity - i
      {
        if ptr in order {
          NotSkipped(ptr, i);
        }
        if keys[idx] == ptr {
          Found(idx);
          return values[idx];
        } else if keys[idx] == 0 {
          return -1;
        }
        ProbeNext(ptr, i, capacity);
        ProbeCycle(ptr, i + 1, capacity);
        idx, i := (idx + 1) % capacity, i + 1;
        if searchStart == idx {
          break;
        }
      }
      if ptr in order {
        NotSkipped(ptr, capacity);
      }
      return -1;
    }

    /** A pointer that is not in the list finds an empty slot unless the list is full. */
    lemma NoHoleProbed(ptr: Word)
      requires Valid()
      requires forall k: nat :: k < capacity ==> keys[Probe(ptr, k, capacity)] != 0
      ensures |order| == capacity
    {
      forall s | 0 <= s < capacity ensures keys[s] != 0 {
        var k := ProbeReaches(ptr, s, capacity);
      }
      FullIffNoHole();
    }

    /** Takes the empty slot found after i probes. */
    method Claim(ptr: Word, idx: nat, ghost i: nat) returns (index: int)
      requires Valid() && ptr != 0 && ptr !in order && i < capacity && idx == Probe(ptr, i, capacity)
      requires keys[idx] == 0
      requires forall k: nat :: k < i ==> keys[Probe(ptr, k, capacity)] !in {0, ptr}
      modifies this, keys, values
      ensures Valid() && index == |old(order)| && order == old(order) + [ptr]
    {
      ghost var before := order;
      forall j | 0 <= j < |order| ensures Placed(j) && slots[j] != idx {
      }
      keys[idx] := ptr;
      index := nextIndex;
      nextIndex := nextIndex + 1;
      values[idx] := index;
      order, slots, distances := order + [ptr], slots + [idx], distances + [i];
      forall j | 0 <= j < |order| ensures Placed(j) {
        if j == index {
          forall k: nat | k < i ensures keys[Probe(ptr, k, capacity)] !in {0, ptr} {
            assert Probe(ptr, k, capacity) != idx;
          }
        } else {
          assert old(Placed(j));
        }
      }
    }

    /** -1 for a pointer that is already present or a full table, otherwise the pointer's new position. */
    method Put(ptr: Word) returns (index: int)
      requires Valid() && ptr != 0
      modifies this, keys, values
      ensures Valid()
      ensures old(ptr in order || |order| == capacity) ==> index == -1 && order == old(order)
      ensures old(ptr !in order && |order| < capacity) ==> index == |old(order)| && order == old(order) + [ptr]
    {
      hide Valid, Probe, HashInteger64;
      Sizes();
      var searchStart := HashInteger64(ptr) % capacity;
      var idx := searchStart;
      ghost var i := 0;
      ProbeCycle(ptr, capacity, capacity);
      FullIffNoHole();
      while true
        invariant i < capacity && idx == Probe(ptr, i, capacity)
        invariant forall k: nat :: k < i ==> keys[Probe(ptr, k, capacity)] !in {0, ptr}
        invariant Valid() && order == old(order)
        decreases capacity - i
      {
        var prevKey := keys[idx];
        if ptr in order {
          NotSkipped(ptr, i);
        }
        if prevKey == ptr {
          Found(idx);
          return -1;
        } else if prevKey == 0 {
          FullIffNoHole();
          index := Claim(ptr, idx, i);
          return;
        }
        ProbeNext(ptr, i, capacity);
        ProbeCycle(ptr, i + 1, capacity);
        idx, i := (idx + 1) % capacity, i + 1;
        if searchStart == idx {
          break;
        }
      }
      NoHoleProbed(ptr);
      return -1;
    }

    /** The pointer's position in the list of distinct pointers, appending it first if it is new; -1 when full. */
    method Lookup(ptr: Word) returns (index: int)
      requires Valid() && ptr != 0
      modifies this, keys, values
      ensures Valid()
      ensures order == if old(ptr in order || |order| == capacity) then old(order) else old(order) + [ptr]
      ensures index == if ptr in order then IndexOf(order, ptr) else -1
    {
      FullIffNoHole();
      hide Valid;
      var existing := Get(ptr);
      if existing < 0 {
        index := Put(ptr);
        if index >= 0 {
          LastIndex(old(order), ptr);
        }
        return;
      }
      return existing;
    }
  }

  lemma {:induction false} LastIndex(order: seq<Word>, ptr: Word)
    requires ptr !in order
    ensures IndexOf(order + [ptr], ptr) == |order|
  {
    if order != [] {
      assert (order + [ptr])[1..] == order[1..] + [ptr];
      LastIndex(order[1..], ptr);
    }
  }
}
