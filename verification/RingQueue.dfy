/**
  The ring of src/queue/lockless_ring.h as the object its callers hold.

  Calls run here without interruption between their own steps (RingMachine interleaves them); a producer's
  enqueue is still split into Claim and Publish, because other threads observe the time in between.  The
  swap of an uninterrupted enqueue succeeds, so its retry loop runs once (RingRuns.SoloEnqueue).
*/
module RingQueues {
  import opened Common
  import opened RingMachine

  class RingQueue<T(0)> {
    const capacity: nat
    const buffer: array<T>
    var back: nat
    var front: nat
    var readfront: nat
    /** Every value ever claimed, in ticket order. */
    ghost var items: seq<T>

    ghost predicate Valid()
      reads this, buffer
    {
      && 0 < capacity
      && buffer.Length == capacity + 1
      && back <= readfront <= front <= back + capacity - 1
      && |items| == front
      && forall t: nat :: back <= t < front ==> buffer[t % capacity] == items[t]
    }

    /** What is queued: claimed and not yet taken. */
    ghost function Contents(): seq<T>
      reads this, buffer
      requires Valid()
    {
      items[back..]
    }

    constructor (capacity: nat)
      requires 0 < capacity
      ensures Valid() && fresh(buffer) && this.capacity == capacity
      ensures back == readfront == front == 0 && items == []
    {
      this.capacity := capacity;
      buffer := new T[capacity + 1];
      back, front, readfront := 0, 0, 0;
      items := [];
    }

    /** Whether every claimed value has been taken. */
    method Empty() returns (empty: bool)
      requires Valid()
      ensures empty <==> back == front
      ensures empty <==> Contents() == []
    {
      empty := front % capacity == back % capacity;
      RemainderDistinguishes(front, back, capacity);
    }

    /** Whether an enqueue would be refused. */
    method Full() returns (full: bool)
      requires Valid()
      ensures full <==> |Contents()| == capacity - 1
    {
      full := (front + 1) % capacity == back % capacity;
      FullTest(front, back, capacity);
    }

    /** TryEnqueue up to its slot write: refused exactly when capacity - 1 values are queued. */
    method Claim(value: T) returns (ok: bool)
      requires Valid()
      modifies this`front, this`items, buffer
      ensures Valid()
      ensures ok <==> |old(Contents())| < capacity - 1
      ensures items == (if ok then old(items) + [value] else old(items))
    {
      FullTest(front, back, capacity);
      if (front + 1) % capacity == back % capacity {
        return false;
      }
      var f := front;
      front := front + 1;
      items := items + [value];
      forall t: nat | back <= t < f ensures t % capacity != f % capacity {
        RemainderDistinguishes(t, f, capacity);
      }
      buffer[f % capacity] := value;
      return true;
    }

    /** The last action of TryEnqueue: make one more claimed ticket readable. */
    method Publish()
      requires Valid() && readfront < front
      modifies this`readfront
      ensures Valid() && readfront == old(readfront) + 1
    {
      readfront := readfront + 1;
    }

    method TryEnqueue(value: T) returns (ok: bool)
      requires Valid()
      modifies this`front, this`readfront, this`items, buffer
      ensures Valid()
      ensures ok <==> |old(Contents())| < capacity - 1
      ensures items == (if ok then old(items) + [value] else old(items))
      ensures readfront == old(readfront) + (if ok then 1 else 0)
    {
      ok := Claim(value);
      if ok {
        Publish();
      }
    }

    /** Takes the oldest published value, if there is one. */
    method TryDequeue() returns (out: Option<T>)
      requires Valid()
      modifies this`back
      ensures Valid()
      ensures old(back) == readfront ==> out == None && back == old(back)
      ensures old(back) < readfront ==> out == Some(items[old(back)]) && back == old(back) + 1
    {
      RemainderDistinguishes(readfront, back, capacity);
      if readfront % capacity == back % capacity {
        return None;
      }
      out := Some(buffer[back % capacity]);
      back := back + 1;
    }

    /** How many values a block dequeue may take, by remainders as the code has it. */
    method BlockLength(maxOut: nat) returns (n: nat)
      requires Valid()
      ensures n == if back == readfront then 0 else BlockSize(readfront, back, capacity, maxOut)
      ensures back + n <= readfront && (n > 0 ==> back % capacity + n <= capacity)
      ensures n <= maxOut && (n == 0 <==> back == readfront || maxOut == 0)
    {
      RemainderDistinguishes(readfront, back, capacity);
      var f, b := readfront % capacity, back % capacity;
      if f == b {
        return 0;
      }
      BlockFits(readfront, back, capacity, maxOut);
      var top := if f < b then capacity else f;
      n := top - b;
      n := if n > maxOut then maxOut else n;
    }

    /** Takes a block of published values into out[at..], at most maxOut and not past the wrap point. */
    method TryDequeueBlock(out: array<T>, at: nat, maxOut: nat) returns (n: nat)
      requires Valid() && out != buffer && at + maxOut <= out.Length
      modifies this`back, out
      ensures Valid() && back == old(back) + n <= readfront
      ensures n == if old(back) == readfront then 0 else BlockSize(readfront, old(back), capacity, maxOut)
      ensures n <= maxOut && (n == 0 <==> old(back) == readfront || maxOut == 0)
      ensures out[..at] == old(out[..at])
      ensures out[at..at + n] == items[old(back)..back]
      ensures forall i :: at + n <= i < out.Length ==> out[i] == old(out[i])
    {
      hide BlockSize;
      n := BlockLength(maxOut);
      if n > 0 {
        CopyBlock(out, at, n);
        back := back + n;
      }
    }

    /** The block copy out of the slots from back on. */
    method CopyBlock(out: array<T>, at: nat, n: nat)
      requires Valid() && out != buffer && at + n <= out.Length
      requires back + n <= front && back % capacity + n <= capacity
      modifies out
      ensures Valid()
      ensures out[..at] == old(out[..at])
      ensures out[at..at + n] == items[back..back + n]
      ensures forall i :: at + n <= i < out.Length ==> out[i] == old(out[i])
    {
      var b := back % capacity;
      for i := 0 to n
        invariant out[..at] == old(out[..at])
        invariant out[at..at + i] == items[back..back + i]
        invariant forall j :: at + i <= j < out.Length ==> out[j] == old(out[j])
      {
        RemainderStep(back, i, capacity);
        out[at + i] := buffer[b + i];
      }
    }
  }
}
