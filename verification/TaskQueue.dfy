/** The bounded queue of accepted connections: src/common/threadpool.c. */
module TaskQueue {
  import opened Prelude
  import opened Ring

  /** What the queue stands for: a bounded first-in first-out sequence that can be closed. */
  datatype Fifo<T> = Fifo(items: seq<T>, capacity: nat, shutdown: bool)

  /** How one pass through the critical section of `tpq_pop` ends. */
  datatype Outcome<T> = Got(item: T) | Wait | End

  predicate Accepts<T>(q: Fifo<T>) {
    !q.shutdown && |q.items| < q.capacity
  }

  function Push<T>(q: Fifo<T>, x: T): Fifo<T> {
    if Accepts(q) then q.(items := q.items + [x]) else q
  }

  function Pop<T>(q: Fifo<T>): (Fifo<T>, Outcome<T>) {
    if |q.items| > 0 then (q.(items := q.items[1..]), Got(q.items[0]))
    else (q, if q.shutdown then End else Wait)
  }

  class Queue<T(0)> {
    const items: array<T>
    var head: nat
    var tail: nat
    var count: nat
    var shutdown: bool

    ghost predicate Valid()
      reads this, items
    {
      && 0 < items.Length && head < items.Length && count <= items.Length
      && tail == Slot(head, count, items.Length)
    }

    ghost function Model(): Fifo<T>
      requires Valid()
      reads this, items
    {
      Fifo(Unroll(items[..], head, count), items.Length, shutdown)
    }

    constructor (capacity: nat)
      requires 0 < capacity
      ensures Valid() && fresh(items) && Model() == Fifo([], capacity, false)
    {
      items := new T[capacity];
      head, tail, count, shutdown := 0, 0, 0, false;
    }

    method TryPush(x: T) returns (ok: bool)
      requires Valid()
      modifies this, items
      ensures Valid() && ok == Accepts(old(Model())) && Model() == Push(old(Model()), x)
    {
      if shutdown || count >= items.Length {
        return false;
      }
      UnrollPush(items[..], head, count, x);
      ghost var cells := items[..];
      items[tail] := x;
      assert items[..] == cells[tail := x];
      tail := (tail + 1) % items.Length;
      count := count + 1;
      assert tail == Slot(head, count, items.Length) by {
        NextSlot(head, count - 1, items.Length);
      }
      ok := true;
    }

    /** One pass through `tpq_pop`: take an item, go to sleep, or report the end. */
    method TryPop() returns (outcome: Outcome<T>)
      requires Valid()
      modifies this
      ensures Valid() && (Model(), outcome) == Pop(old(Model()))
    {
      if !shutdown && count == 0 {
        return Wait;
      }
      if count == 0 && shutdown {
        return End;
      }
      UnrollPop(items[..], head, count);
      PrevSlot(head, count, items.Length);
      outcome := Got(items[head]);
      head := (head + 1) % items.Length;
      count := count - 1;
    }

    method Shutdown()
      requires Valid()
      modifies this
      ensures Valid() && Model() == old(Model()).(shutdown := true)
    {
      shutdown := true;
    }
  }

  /** `tpq_init` refuses a capacity that is not positive, and fails when there is no memory. */
  method Init<T(0)>(capacity: int, memory: bool) returns (q: Queue?<T>)
    ensures q == null <==> capacity <= 0 || !memory
    ensures q != null ==> q.Valid() && q.Model() == Fifo([], capacity, false)
  {
    if capacity <= 0 || !memory {
      return null;
    }
    q := new Queue(capacity);
  }

  lemma NextSlot(head: nat, i: nat, n: nat)
    requires head < n && i < n
    ensures (Slot(head, i, n) + 1) % n == Slot(head, i + 1, n)
  {
    var k := Slot(head, i, n);
    assert Slot(k, 1, n) == (k + 1) % n;
  }

  lemma PrevSlot(head: nat, count: nat, n: nat)
    requires head < n && 0 < count <= n
    ensures Slot(head, 1, n) == (head + 1) % n && Slot(Slot(head, 1, n), count - 1, n) == Slot(head, count, n)
  {
  }
}
