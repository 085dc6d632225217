/** The bounded buffer of concurrency/threads/rwlock-buffer/rwlock_buffer.c as a step system over any
    number of producers and consumers, while `running` stays set.

    One step is one critical section under `mutex`.  A woken thread competes for the mutex with
    newcomers, a waiter may return without a signal, and a signal wakes one sleeper if there is one.
    `produced` and `consumed` record what has gone in and come out.
 */
module BoundedBuffer {
  import opened Counting
  import opened Ring

  datatype Pc = Outside | ProduceAsleep | ProduceWoken | ConsumeAsleep | ConsumeWoken

  /** `items[t]` is the item a producing thread `t` carries. */
  datatype State = State(buffer: seq<int>, into: nat, out: nat, count: nat, pcs: seq<Pc>, items: seq<int>,
                         produced: seq<int>, consumed: seq<int>)

  datatype Event =
    | Produce(t: nat, item: int, signalled: nat)
    | ProduceResume(t: nat, signalled: nat)
    | Consume(t: nat, signalled: nat)
    | ConsumeResume(t: nat, signalled: nat)
    | Spurious(t: nat)

  ghost predicate Init(s: State) {
    && |s.buffer| > 0 && |s.items| == |s.pcs| && s.count == s.into == s.out == 0
    && s.produced == s.consumed == []
    && forall t | 0 <= t < |s.pcs| :: s.pcs[t] == Outside
  }

  predicate WellFormed(s: State) {
    && |s.items| == |s.pcs|
    && s.into < |s.buffer| && s.out < |s.buffer| && s.count <= |s.buffer|
    && s.into == Slot(s.out, s.count, |s.buffer|)
  }

  /** `pthread_cond_signal`: wake `u`, a sleeper at `asleep`, unless nobody sleeps there. */
  ghost predicate CanSignal(pcs: seq<Pc>, asleep: Pc, u: nat) {
    asleep in pcs ==> u < |pcs| && pcs[u] == asleep
  }

  function Signal(pcs: seq<Pc>, asleep: Pc, woken: Pc, u: nat): seq<Pc> {
    if u < |pcs| && pcs[u] == asleep then pcs[u := woken] else pcs
  }

  /** One round of the loop in `bb_produce`: wait while the buffer is full, else store and signal. */
  function TryProduce(s: State, t: nat, item: int, u: nat): State
    requires WellFormed(s) && t < |s.pcs|
  {
    if s.count == |s.buffer| then s.(pcs := s.pcs[t := ProduceAsleep], items := s.items[t := item])
    else s.(buffer := s.buffer[s.into := item], into := (s.into + 1) % |s.buffer|, count := s.count + 1,
            pcs := Signal(s.pcs[t := Outside], ConsumeAsleep, ConsumeWoken, u), produced := s.produced + [item])
  }

  /** One round of the loop in `bb_consume`. */
  function TryConsume(s: State, t: nat, u: nat): State
    requires WellFormed(s) && t < |s.pcs|
  {
    if s.count == 0 then s.(pcs := s.pcs[t := ConsumeAsleep])
    else s.(out := (s.out + 1) % |s.buffer|, count := s.count - 1,
            pcs := Signal(s.pcs[t := Outside], ProduceAsleep, ProduceWoken, u),
            consumed := s.consumed + [s.buffer[s.out]])
  }

  ghost predicate Step(s: State, e: Event, s': State) {
    && WellFormed(s) && e.t < |s.pcs|
    && match e
       case Produce(t, item, u) =>
         s.pcs[t] == Outside && CanSignal(s.pcs, ConsumeAsleep, u) && s' == TryProduce(s, t, item, u)
       case ProduceResume(t, u) =>
         s.pcs[t] == ProduceWoken && CanSignal(s.pcs, ConsumeAsleep, u) && s' == TryProduce(s, t, s.items[t], u)
       case Consume(t, u) => s.pcs[t] == Outside && CanSignal(s.pcs, ProduceAsleep, u) && s' == TryConsume(s, t, u)
       case ConsumeResume(t, u) =>
         s.pcs[t] == ConsumeWoken && CanSignal(s.pcs, ProduceAsleep, u) && s' == TryConsume(s, t, u)
       case Spurious(t) =>
         || (s.pcs[t] == ProduceAsleep && s' == s.(pcs := s.pcs[t := ProduceWoken]))
         || (s.pcs[t] == ConsumeAsleep && s' == s.(pcs := s.pcs[t := ConsumeWoken]))
  }

  ghost predicate Run(states: seq<State>, events: seq<Event>) {
    && |states| == |events| + 1 && Init(states[0])
    && forall i | 0 <= i < |events| :: Step(states[i], events[i], states[i + 1])
  }

  // ---------------------------------------------------------------------------------------------
  // What every step keeps
  // ---------------------------------------------------------------------------------------------

  /** What has come out, followed by what is in the ring, is what has gone in. */
  ghost predicate Conserved(s: State)
    requires WellFormed(s)
  {
    s.produced == s.consumed + Contents(s.buffer, s.out, s.count)
  }

  /** As long as a consumer sleeps, at least as many consumers have been woken as there are items;
      as long as a producer sleeps, at least as many producers as there are free slots. */
  ghost predicate EnoughWoken(s: State) {
    && (ConsumeAsleep in s.pcs ==> Count(s.pcs, ConsumeWoken) >= s.count)
    && (ProduceAsleep in s.pcs ==> Count(s.pcs, ProduceWoken) >= |s.buffer| - s.count)
  }

  ghost predicate Inv(s: State) { WellFormed(s) && Conserved(s) && EnoughWoken(s) }

  lemma SignalCounts(pcs: seq<Pc>, asleep: Pc, woken: Pc, u: nat)
    requires CanSignal(pcs, asleep, u) && asleep != woken
    ensures |Signal(pcs, asleep, woken, u)| == |pcs|
    ensures var moved := if asleep in pcs then 1 else 0;
      forall p :: Count(Signal(pcs, asleep, woken, u), p) ==
        Count(pcs, p) + (if p == woken then moved else if p == asleep then -moved else 0)
  {
    if u < |pcs| && pcs[u] == asleep {
      CountMove(pcs, u, woken);
    }
  }

  lemma ProduceConserves(s: State, t: nat, item: int, u: nat)
    requires WellFormed(s) && Conserved(s) && t < |s.pcs|
    ensures var s' := TryProduce(s, t, item, u); WellFormed(s') && Conserved(s')
  {
    if s.count < |s.buffer| {
      ModWrap(s.into + 1, |s.buffer|);
      PushBack(s.buffer, s.out, s.count, item);
      assert s.produced + [item] == s.consumed + (Contents(s.buffer, s.out, s.count) + [item]);
    }
  }

  lemma ConsumeConserves(s: State, t: nat, u: nat)
    requires WellFormed(s) && Conserved(s) && t < |s.pcs|
    ensures var s' := TryConsume(s, t, u); WellFormed(s') && Conserved(s')
  {
    if s.count > 0 {
      ModWrap(s.out + 1, |s.buffer|);
      PopFront(s.buffer, s.out, s.count);
      var c := Contents(s.buffer, s.out, s.count);
      assert s.consumed + c == (s.consumed + [c[0]]) + c[1..];
    }
  }

  /** Thread `t` leaves after a signal to `asleep`. */
  lemma LeaveCounts(pcs: seq<Pc>, t: nat, asleep: Pc, woken: Pc, u: nat)
    requires t < |pcs| && pcs[t] != asleep && CanSignal(pcs, asleep, u) && asleep != woken && asleep != Outside
    ensures var pcs' := Signal(pcs[t := Outside], asleep, woken, u);
      var moved := if asleep in pcs then 1 else 0;
      && |pcs'| == |pcs|
      && forall p :: Count(pcs', p) == Count(pcs, p) - (if p == pcs[t] then 1 else 0) + (if p == Outside then 1 else 0)
           + (if p == woken then moved else if p == asleep then -moved else 0)
  {
    var pcs1 := pcs[t := Outside];
    if asleep in pcs { assert pcs1[u] == asleep; }
    CountMove(pcs, t, Outside);
    SignalCounts(pcs1, asleep, woken, u);
  }

  lemma ProduceWakes(s: State, t: nat, item: int, u: nat)
    requires WellFormed(s) && EnoughWoken(s) && t < |s.pcs| && CanSignal(s.pcs, ConsumeAsleep, u)
    requires s.pcs[t] == Outside || s.pcs[t] == ProduceWoken
    ensures EnoughWoken(TryProduce(s, t, item, u))
  {
    var s' := TryProduce(s, t, item, u);
    if s.count == |s.buffer| {
      CountMove(s.pcs, t, ProduceAsleep);
    } else {
      LeaveCounts(s.pcs, t, ConsumeAsleep, ConsumeWoken, u);
    }
    Occurrences(s.pcs);
    Occurrences(s'.pcs);
  }

  lemma ConsumeWakes(s: State, t: nat, u: nat)
    requires WellFormed(s) && EnoughWoken(s) && t < |s.pcs| && CanSignal(s.pcs, ProduceAsleep, u)
    requires s.pcs[t] == Outside || s.pcs[t] == ConsumeWoken
    ensures EnoughWoken(TryConsume(s, t, u))
  {
    var s' := TryConsume(s, t, u);
    if s.count == 0 {
      CountMove(s.pcs, t, ConsumeAsleep);
    } else {
      LeaveCounts(s.pcs, t, ProduceAsleep, ProduceWoken, u);
    }
    Occurrences(s.pcs);
    Occurrences(s'.pcs);
  }

  lemma StepKeeps(s: State, e: Event, s': State)
    requires Inv(s) && Step(s, e, s')
    ensures Inv(s')
  {
    match e
    case Produce(t, item, u) =>
      ProduceConserves(s, t, item, u);
      ProduceWakes(s, t, item, u);
    case ProduceResume(t, u) =>
      ProduceConserves(s, t, s.items[t], u);
      ProduceWakes(s, t, s.items[t], u);
    case Consume(t, u) =>
      ConsumeConserves(s, t, u);
      ConsumeWakes(s, t, u);
    case ConsumeResume(t, u) =>
      ConsumeConserves(s, t, u);
      ConsumeWakes(s, t, u);
    case Spurious(t) =>
      CountMove(s.pcs, t, s'.pcs[t]);
      Occurrences(s.pcs);
      Occurrences(s'.pcs);
  }

  // ---------------------------------------------------------------------------------------------
  // Theorems over whole runs
  // ---------------------------------------------------------------------------------------------

  lemma {:induction false} RunKeeps(states: seq<State>, events: seq<Event>, i: nat)
    requires Run(states, events) && i < |states|
    ensures Inv(states[i])
  {
    if i > 0 {
      RunKeeps(states, events, i - 1);
      StepKeeps(states[i - 1], events[i - 1], states[i]);
    }
  }

  /** First in, first out across all threads: the consumed items are a prefix of the produced ones, and the
      buffer never holds more than its size. */
  lemma FirstInFirstOut(states: seq<State>, events: seq<Event>, i: nat)
    requires Run(states, events) && i < |states|
    ensures var s := states[i];
      && s.consumed <= s.produced
      && |s.produced| - |s.consumed| == s.count <= |s.buffer|
  {
    RunKeeps(states, events, i);
  }

  lemma SomeSleeper(pcs: seq<Pc>, asleep: Pc) returns (u: nat)
    ensures CanSignal(pcs, asleep, u)
  {
    if asleep in pcs {
      u :| u < |pcs| && pcs[u] == asleep;
    } else {
      u := 0;
    }
  }

  /** No needed signal is missed: while items are there and a consumer sleeps, some woken consumer's
      next step consumes; while slots are free and a producer sleeps, some woken producer's next step produces. */
  lemma NoMissedSignal(states: seq<State>, events: seq<Event>, i: nat)
    requires Run(states, events) && i < |states|
    ensures var s := states[i];
      && (ConsumeAsleep in s.pcs && s.count > 0 ==>
            exists t: nat, u: nat, s' :: Step(s, ConsumeResume(t, u), s') && |s'.consumed| == |s.consumed| + 1)
      && (ProduceAsleep in s.pcs && s.count < |s.buffer| ==>
            exists t: nat, u: nat, s' :: Step(s, ProduceResume(t, u), s') && |s'.produced| == |s.produced| + 1)
  {
    RunKeeps(states, events, i);
    var s := states[i];
    Occurrences(s.pcs);
    if ConsumeAsleep in s.pcs && s.count > 0 {
      var t: nat :| t < |s.pcs| && s.pcs[t] == ConsumeWoken;
      var u := SomeSleeper(s.pcs, ProduceAsleep);
      assert Step(s, ConsumeResume(t, u), TryConsume(s, t, u));
    }
    if ProduceAsleep in s.pcs && s.count < |s.buffer| {
      var t: nat :| t < |s.pcs| && s.pcs[t] == ProduceWoken;
      var u := SomeSleeper(s.pcs, ConsumeAsleep);
      assert Step(s, ProduceResume(t, u), TryProduce(s, t, s.items[t], u));
    }
  }

  /** Producers and consumers are never all asleep together. */
  lemma NeverAllAsleep(states: seq<State>, events: seq<Event>, i: nat)
    requires Run(states, events) && i < |states|
    requires ConsumeAsleep in states[i].pcs && ProduceAsleep in states[i].pcs
    ensures ConsumeWoken in states[i].pcs || ProduceWoken in states[i].pcs
  {
    RunKeeps(states, events, i);
    Occurrences(states[i].pcs);
  }
}
