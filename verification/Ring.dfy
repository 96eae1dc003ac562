/** Ring buffers: `count` elements that start at `head` and wrap around. */
module Ring {

  /** The position `i` places after `head`, in a ring of `n` places. */
  function Slot(head: nat, i: nat, n: nat): (k: nat)
    requires head < n && i <= n
    ensures k < n && k == (head + i) % n
  {
    if head + i < n then head + i else
      assert (head + i) % n == head + i - n by { Wraps(head + i - n, n); }
      head + i - n
  }

  lemma Wraps(k: nat, n: nat)
    requires k < n
    ensures (k + n) % n == k
  {
  }

  /** The elements of the ring, first to last. */
  function Unroll<T>(cells: seq<T>, head: nat, count: nat): (all: seq<T>)
    requires head < |cells| && count <= |cells|
    ensures |all| == count && forall i | 0 <= i < count :: all[i] == cells[Slot(head, i, |cells|)]
  {
    seq(count, i requires 0 <= i < count => cells[Slot(head, i, |cells|)])
  }

  lemma UnrollPush<T>(cells: seq<T>, head: nat, count: nat, x: T)
    requires head < |cells| && count < |cells|
    ensures Unroll(cells[Slot(head, count, |cells|) := x], head, count + 1) == Unroll(cells, head, count) + [x]
  {
  }

  lemma UnrollPop<T>(cells: seq<T>, head: nat, count: nat)
    requires head < |cells| && 0 < count <= |cells|
    ensures Unroll(cells, head, count)[0] == cells[head]
    ensures Unroll(cells, Slot(head, 1, |cells|), count - 1) == Unroll(cells, head, count)[1..]
  {
  }

  /** A full ring: the oldest element makes room for the new one. */
  lemma UnrollOverwrite<T>(cells: seq<T>, head: nat, x: T)
    requires head < |cells|
    ensures Unroll(cells[head := x], Slot(head, 1, |cells|), |cells|) == Unroll(cells, head, |cells|)[1..] + [x]
  {
    var n := |cells|;
    var next := Slot(head, 1, n);
    forall i | 0 <= i < n
      ensures Unroll(cells[head := x], next, n)[i] == (Unroll(cells, head, n)[1..] + [x])[i]
    {
      assert i < n - 1 ==> Slot(next, i, n) == Slot(head, i + 1, n);
      assert i == n - 1 ==> Slot(next, i, n) == head;
    }
  }
}
