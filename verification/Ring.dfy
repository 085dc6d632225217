/** The contents of a ring buffer: `size` elements of `data` from slot `front` on, wrapping round. */
module Ring {

  /** The slot of the element at offset `i`. */
  function Slot(front: nat, i: nat, n: nat): (k: nat)
    requires front < n && i <= n
    ensures k < n
  {
    if front + i < n then front + i else front + i - n
  }

  lemma ModWrap(a: nat, n: nat)
    requires 0 < n && a < 2 * n
    ensures a % n == if a < n then a else a - n
  {
    if a >= n {
      assert a == n + (a - n);
    }
  }

  /** The arithmetic of the programs. */
  lemma SlotIsModulo(front: nat, i: nat, n: nat)
    requires front < n && i <= n
    ensures Slot(front, i, n) == (front + i) % n
  {
    ModWrap(front + i, n);
  }

  function Contents<T>(data: seq<T>, front: nat, size: nat): (c: seq<T>)
    requires front < |data| && size <= |data|
    ensures |c| == size
  {
    seq(size, i requires 0 <= i < size => data[Slot(front, i, |data|)])
  }

  /** Writing behind the last element appends. */
  lemma PushBack<T>(data: seq<T>, front: nat, size: nat, x: T)
    requires front < |data| && size < |data|
    ensures Contents(data[Slot(front, size, |data|) := x], front, size + 1) == Contents(data, front, size) + [x]
  {
  }

  /** Advancing the front drops the first element. */
  lemma PopFront<T>(data: seq<T>, front: nat, size: nat)
    requires front < |data| && 0 < size <= |data|
    ensures Contents(data, front, size)[0] == data[front]
    ensures Contents(data, Slot(front, 1, |data|), size - 1) == Contents(data, front, size)[1..]
  {
  }
}
