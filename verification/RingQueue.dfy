/** The array-backed request queue that both memory schedulers declare: concurrency/scheduling/
    Parallelism-AwareBatchScheduling.c and AdaptiveThread-AwareScheduling.c. */
module RingQueue {
  import opened Common
  import opened Ring

  class Queue<T(0)> {
    const requests: array<T>
    var front: nat
    var rear: int
    var size: nat

    ghost predicate Valid()
      reads this
    {
      && requests.Length > 0
      && front < requests.Length && size <= requests.Length && -1 <= rear < requests.Length
      && (rear == -1 ==> size == 0)
      && (|| rear + 1 == Slot(front, size, requests.Length)
          || (rear + 1 == requests.Length && Slot(front, size, requests.Length) == 0))
    }

    /** The queued requests, oldest first. */
    ghost function Queued(): (q: seq<T>)
      requires Valid()
      reads this, requests
      ensures |q| == size
    {
      Contents(requests[..], front, size)
    }

    constructor (capacity: nat)
      requires capacity > 0
      ensures Valid() && Queued() == [] && requests.Length == capacity && fresh(requests)
    {
      requests := new T[capacity];
      front, rear, size := 0, -1, 0;
    }

    /** A full queue drops the request. */
    method Enqueue(request: T) returns (stored: bool)
      requires Valid()
      modifies this`rear, this`size, requests
      ensures Valid()
      ensures stored == (old(size) < requests.Length)
      ensures Queued() == if stored then old(Queued()) + [request] else old(Queued())
    {
      if size == requests.Length { return false; }
      ghost var data := requests[..];
      ModWrap(rear + 1, requests.Length);
      rear := (rear + 1) % requests.Length;
      requests[rear] := request;
      PushBack(data, front, size, request);
      assert requests[..] == data[Slot(front, size, requests.Length) := request];
      size := size + 1;
      return true;
    }

    /** An empty queue ends the program. */
    method Dequeue() returns (request: Option<T>)
      requires Valid()
      modifies this`front, this`size
      ensures Valid()
      ensures old(size) == 0 ==> request == None && Queued() == old(Queued())
      ensures old(size) > 0 ==> request == Some(old(Queued())[0]) && Queued() == old(Queued())[1..]
    {
      if size == 0 { return None; }
      PopFront(requests[..], front, size);
      request := Some(requests[front]);
      ModWrap(front + 1, requests.Length);
      front := (front + 1) % requests.Length;
      size := size - 1;
    }
  }
}
