/** Adaptive thread-aware scheduling: concurrency/scheduling/AdaptiveThread-AwareScheduling.c.

    The scheduler deletes a request from the middle of the ring queue.  The theorems are that every
    call removes exactly the earliest request of a highest-priority thread, whatever the wraparound,
    and that over a whole run each thread is served in its own order of arrival.
 */
module AdaptiveScheduler {
  import opened Common
  import opened Ring
  import opened RingQueue

  datatype Request = Request(address: int, timestamp: int, threadId: nat)

  // ---------------------------------------------------------------------------------------------
  // The choice and the removal on sequences
  // ---------------------------------------------------------------------------------------------

  /** Every request belongs to a thread with a priority. */
  ghost predicate Known(queue: seq<Request>, priority: seq<int>) {
    forall i | 0 <= i < |queue| :: queue[i].threadId < |priority|
  }

  /** `k` is the earliest of the highest-priority requests; when no priority is positive the oldest
      request is taken instead. */
  ghost predicate IsChoice(queue: seq<Request>, priority: seq<int>, k: nat)
    requires Known(queue, priority)
  {
    && k < |queue|
    && if exists i :: 0 <= i < |queue| && priority[queue[i].threadId] > 0
       then (forall i | 0 <= i < |queue| :: priority[queue[i].threadId] <= priority[queue[k].threadId])
            && (forall i | 0 <= i < k :: priority[queue[i].threadId] < priority[queue[k].threadId])
       else k == 0
  }

  function Remove<T>(s: seq<T>, k: nat): seq<T>
    requires k < |s|
  {
    s[..k] + s[k + 1..]
  }

  /** The scan of `scheduleRequest` over the ring: the offset and the slot of the choice, -1 when no priority is
      positive. */
  method Select(q: Queue<Request>, priority: array<int>) returns (selectedIndex: int, ghost k: nat)
    requires q.Valid() && Known(q.Queued(), priority[..])
    ensures selectedIndex == -1 ==> forall i | 0 <= i < q.size :: priority[q.Queued()[i].threadId] <= 0
    ensures selectedIndex != -1 ==>
      && k < q.size && selectedIndex == Slot(q.front, k, q.requests.Length)
      && priority[q.Queued()[k].threadId] > 0 && IsChoice(q.Queued(), priority[..], k)
  {
    var highestPriority := 0;
    selectedIndex, k := -1, 0;
    ghost var queue := q.Queued();
    for i := 0 to q.size
      invariant selectedIndex == -1 ==> highestPriority == 0
      invariant forall j | 0 <= j < i :: priority[queue[j].threadId] <= highestPriority
      invariant selectedIndex != -1 ==>
        && k < i && selectedIndex == Slot(q.front, k, q.requests.Length)
        && priority[queue[k].threadId] == highestPriority > 0
        && (forall j | 0 <= j < k :: priority[queue[j].threadId] < highestPriority)
    {
      var index := (q.front + i) % q.requests.Length;
      SlotIsModulo(q.front, i, q.requests.Length);
      var threadId := q.requests[index].threadId;
      assert q.requests[index] == queue[i];
      if priority[threadId] > highestPriority {
        highestPriority := priority[threadId];
        selectedIndex, k := index, i;
      }
    }
  }

  /** The ring after the elements from offset `k` up to `m` have moved down by one slot. */
  ghost predicate Shifted<T>(data0: seq<T>, data: seq<T>, front: nat, size: nat, k: nat, m: nat)
    requires front < |data0| == |data| && size <= |data0| && k <= m < size
  {
    forall x | 0 <= x < size ::
      data[Slot(front, x, |data|)] == data0[Slot(front, if k <= x < m then x + 1 else x, |data|)]
  }

  lemma ShiftedStep<T>(data0: seq<T>, data: seq<T>, front: nat, size: nat, k: nat, m: nat)
    requires front < |data0| == |data| && size <= |data0| && k <= m < size - 1
    requires Shifted(data0, data, front, size, k, m)
    ensures Shifted(data0, data[Slot(front, m, |data|) := data[Slot(front, m + 1, |data|)]], front, size, k, m + 1)
  {
  }

  /** When the shift has reached the last element, the ring without it is the queue without the selected one. */
  lemma ShiftedAll<T>(data0: seq<T>, data: seq<T>, front: nat, size: nat, k: nat)
    requires front < |data0| == |data| && size <= |data0| && k < size
    requires Shifted(data0, data, front, size, k, size - 1)
    ensures Contents(data, front, size - 1) == Remove(Contents(data0, front, size), k)
  {
  }

  /** The copying loop: from the selected slot to the rear, across the end of the array if need be. */
  method ShiftDown(data: array<Request>, front: nat, size: nat, rear: nat, selectedIndex: nat, ghost k: nat)
    requires front < data.Length && k < size <= data.Length
    requires rear == Slot(front, size - 1, data.Length) && selectedIndex == Slot(front, k, data.Length)
    modifies data
    ensures Shifted(old(data[..]), data[..], front, size, k, size - 1)
  {
    var n := data.Length;
    var i := selectedIndex;
    ghost var m := k;
    while i != rear
      invariant k <= m < size && i == Slot(front, m, n)
      invariant Shifted(old(data[..]), data[..], front, size, k, m)
      decreases size - m
    {
      ModWrap(i + 1, n);
      var next := (i + 1) % n;
      assert next == Slot(front, m + 1, n);
      ShiftedStep(old(data[..]), data[..], front, size, k, m);
      data[i] := data[next];
      i := next;
      m := m + 1;
    }
  }

  /** Closing the gap at slot `selectedIndex`. */
  method CloseGap(q: Queue<Request>, selectedIndex: nat, ghost k: nat)
    requires q.Valid() && k < q.size && selectedIndex == Slot(q.front, k, q.requests.Length)
    modifies q.requests, q`rear, q`size
    ensures q.Valid() && q.size == old(q.size) - 1
    ensures q.Queued() == Remove(old(q.Queued()), k)
  {
    ShiftDown(q.requests, q.front, q.size, q.rear, selectedIndex, k);
    ShiftedAll(old(q.requests[..]), q.requests[..], q.front, q.size, k);
    ModWrap(q.rear - 1 + q.requests.Length, q.requests.Length);
    q.rear := (q.rear - 1 + q.requests.Length) % q.requests.Length;
    q.size := q.size - 1;
  }

  /** Removes and returns the choice; `None` stands for the exit on an empty queue. */
  method ScheduleRequest(q: Queue<Request>, priority: array<int>) returns (scheduled: Option<Request>, ghost k: nat)
    requires q.Valid() && Known(q.Queued(), priority[..])
    modifies q, q.requests
    ensures q.Valid()
    ensures old(q.size) == 0 ==> scheduled == None && q.Queued() == old(q.Queued())
    ensures old(q.size) > 0 ==>
      && IsChoice(old(q.Queued()), old(priority[..]), k)
      && scheduled == Some(old(q.Queued())[k])
      && q.Queued() == Remove(old(q.Queued()), k)
  {
    k := 0;
    if q.size == 0 { return None, 0; }
    var selectedIndex;
    selectedIndex, k := Select(q, priority);
    if selectedIndex == -1 {
      k := 0;
      scheduled := q.Dequeue();
      return;
    }
    scheduled := Some(q.requests[selectedIndex]);
    CloseGap(q, selectedIndex, k);
  }

  // ---------------------------------------------------------------------------------------------
  // Whole runs
  // ---------------------------------------------------------------------------------------------

  /** The requests of one thread, in order. */
  function Of(s: seq<Request>, threadId: nat): seq<Request> {
    if s == [] then [] else (if s[0].threadId == threadId then [s[0]] else []) + Of(s[1..], threadId)
  }

  lemma {:induction false} OfConcat(a: seq<Request>, b: seq<Request>, threadId: nat)
    ensures Of(a + b, threadId) == Of(a, threadId) + Of(b, threadId)
  {
    if a == [] {
      assert a + b == b;
    } else {
      OfConcat(a[1..], b, threadId);
      assert (a + b)[1..] == a[1..] + b;
      ConcatAssociative(if a[0].threadId == threadId then [a[0]] else [], Of(a[1..], threadId), Of(b, threadId));
    }
  }

  lemma {:induction false} OfNone(a: seq<Request>, threadId: nat)
    requires forall i | 0 <= i < |a| :: a[i].threadId != threadId
    ensures Of(a, threadId) == []
  {
    if a != [] { OfNone(a[1..], threadId); }
  }

  /** What one call can do: accept a request, drop it at capacity, or schedule under current priorities. */
  datatype Event = Enqueue(request: Request) | Schedule(priority: seq<int>, k: nat)

  /** Requests accepted, waiting and served so far. */
  datatype State = State(accepted: seq<Request>, queue: seq<Request>, served: seq<Request>)

  ghost predicate Step(capacity: nat, s: State, e: Event, s': State) {
    match e
    case Enqueue(r) =>
      s' == if |s.queue| < capacity then s.(accepted := s.accepted + [r], queue := s.queue + [r]) else s
    case Schedule(priority, k) =>
      && Known(s.queue, priority) && IsChoice(s.queue, priority, k)
      && s' == s.(queue := Remove(s.queue, k), served := s.served + [s.queue[k]])
  }

  ghost predicate Run(capacity: nat, states: seq<State>, events: seq<Event>) {
    && |states| == |events| + 1 && states[0] == State([], [], [])
    && forall i | 0 <= i < |events| :: Step(capacity, states[i], events[i], states[i + 1])
  }

  /** Taking out an element that no earlier one shares its thread with takes out the first of its thread. */
  lemma OfRemove(before: seq<Request>, r: Request, after: seq<Request>, t: nat)
    requires forall i | 0 <= i < |before| :: before[i].threadId != r.threadId
    ensures Of(before + ([r] + after), t) == Of([r], t) + Of(before + after, t)
  {
    OfConcat(before, [r] + after, t);
    OfConcat([r], after, t);
    OfConcat(before, after, t);
    if t == r.threadId { OfNone(before, t); }
    EmptySwap(Of(before, t), Of([r], t), Of(after, t));
  }

  lemma EmptySwap<T>(a: seq<T>, b: seq<T>, c: seq<T>)
    requires a == [] || b == []
    ensures a + (b + c) == b + (a + c)
  {
  }

  /** The choice is the earliest request of its thread. */
  lemma ChoiceIsFirstOfThread(queue: seq<Request>, priority: seq<int>, k: nat, t: nat)
    requires Known(queue, priority) && IsChoice(queue, priority, k)
    ensures Of(queue, t) == Of([queue[k]], t) + Of(Remove(queue, k), t)
  {
    assert queue == queue[..k] + ([queue[k]] + queue[k + 1..]);
    OfRemove(queue[..k], queue[k], queue[k + 1..], t);
  }

  /** Of every thread the accepted requests are those served and those waiting, in order. */
  ghost predicate InOrder(s: State, t: nat) { Of(s.accepted, t) == Of(s.served, t) + Of(s.queue, t) }

  lemma EnqueueKeepsOrder(s: State, r: Request, t: nat)
    requires InOrder(s, t)
    ensures InOrder(s.(accepted := s.accepted + [r], queue := s.queue + [r]), t)
  {
    OfConcat(s.accepted, [r], t);
    OfConcat(s.queue, [r], t);
    ConcatAssociative(Of(s.served, t), Of(s.queue, t), Of([r], t));
  }

  lemma ScheduleKeepsOrder(s: State, priority: seq<int>, k: nat, t: nat)
    requires InOrder(s, t) && Known(s.queue, priority) && IsChoice(s.queue, priority, k)
    ensures InOrder(s.(queue := Remove(s.queue, k), served := s.served + [s.queue[k]]), t)
  {
    ChoiceIsFirstOfThread(s.queue, priority, k, t);
    OfConcat(s.served, [s.queue[k]], t);
    ConcatAssociative(Of(s.served, t), Of([s.queue[k]], t), Of(Remove(s.queue, k), t));
  }

  /** Over every run, whatever the changing priorities, each thread's requests are served in the order in
      which they were accepted, and none is lost. */
  lemma {:induction false} ServedInThreadOrder(capacity: nat, states: seq<State>, events: seq<Event>, i: nat, t: nat)
    requires Run(capacity, states, events) && i < |states|
    ensures InOrder(states[i], t)
    ensures |states[i].accepted| == |states[i].served| + |states[i].queue| && |states[i].queue| <= capacity
  {
    if i > 0 {
      ServedInThreadOrder(capacity, states, events, i - 1, t);
      var s, e := states[i - 1], events[i - 1];
      assert Step(capacity, s, e, states[i]);
      match e
      case Enqueue(r) => EnqueueKeepsOrder(s, r, t);
      case Schedule(priority, k) => ScheduleKeepsOrder(s, priority, k, t);
    }
  }
}
