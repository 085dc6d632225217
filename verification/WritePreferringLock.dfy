/** The write-preferring readers-writer lock of concurrency/threads/writeStarvation.c as a step
    system: any number of threads, any interleaving.

    All shared fields are touched only while `mutex` is held, so one step is one critical section,
    from acquiring the mutex to releasing it by an unlock or by waiting on a condition.  A thread
    that has been signalled still has to get the mutex back: `ReadWoken` and `WriteWoken` threads
    compete with newcomers, which may overtake them.  POSIX lets a waiter return without a signal;
    the event `Spurious` covers this, and so also a signal that wakes more than one thread.
 */
module WritePreferringLock {
  import opened Counting

  datatype Pc = Outside | ReadAsleep | ReadWoken | Reading | WriteAsleep | WriteWoken | Writing

  datatype State = State(activeReaders: int, waitingReaders: int, activeWriters: int, waitingWriters: int,
                         pcs: seq<Pc>)

  datatype Event =
    | ReadLock(t: nat)
    | ReadResume(t: nat)
    | ReadUnlock(t: nat, signalled: nat)
    | WriteLock(t: nat)
    | WriteResume(t: nat)
    | WriteUnlock(t: nat, signalled: nat)
    | Spurious(t: nat)

  // ---------------------------------------------------------------------------------------------
  // Steps
  // ---------------------------------------------------------------------------------------------

  ghost predicate Init(s: State) {
    && s.activeReaders == s.waitingReaders == s.activeWriters == s.waitingWriters == 0
    && forall t | 0 <= t < |s.pcs| :: s.pcs[t] == Outside
  }

  predicate ReadersBlocked(s: State) { s.activeWriters > 0 || s.waitingWriters > 0 }

  predicate WritersBlocked(s: State) { s.activeReaders > 0 || s.activeWriters > 0 }

  predicate At(s: State, t: nat, pc: Pc) { t < |s.pcs| && s.pcs[t] == pc }

  /** One test of the loop in `read_lock`: wait, or take the lock. */
  function TryRead(s: State, t: nat): State
    requires t < |s.pcs|
  {
    if ReadersBlocked(s)
    then s.(waitingReaders := s.waitingReaders + 1, pcs := s.pcs[t := ReadAsleep])
    else s.(activeReaders := s.activeReaders + 1, pcs := s.pcs[t := Reading])
  }

  /** One test of the loop in `write_lock`. */
  function TryWrite(s: State, t: nat): State
    requires t < |s.pcs|
  {
    if WritersBlocked(s)
    then s.(waitingWriters := s.waitingWriters + 1, pcs := s.pcs[t := WriteAsleep])
    else s.(activeWriters := s.activeWriters + 1, pcs := s.pcs[t := Writing])
  }

  /** `pthread_cond_signal` on the writers' condition: some sleeping writer, if there is one. */
  ghost predicate CanSignal(pcs: seq<Pc>, u: nat) {
    WriteAsleep in pcs ==> u < |pcs| && pcs[u] == WriteAsleep
  }

  function Signal(pcs: seq<Pc>, u: nat): seq<Pc> {
    if u < |pcs| && pcs[u] == WriteAsleep then pcs[u := WriteWoken] else pcs
  }

  /** `pthread_cond_broadcast` on the readers' condition. */
  function Broadcast(pcs: seq<Pc>): seq<Pc> {
    if pcs == [] then [] else
      [if pcs[0] == ReadAsleep then ReadWoken else pcs[0]] + Broadcast(pcs[1..])
  }

  function AfterReadUnlock(s: State, t: nat, u: nat): State
    requires t < |s.pcs|
  {
    var s1 := s.(activeReaders := s.activeReaders - 1, pcs := s.pcs[t := Outside]);
    if s1.activeReaders == 0 && s1.waitingWriters > 0 then s1.(pcs := Signal(s1.pcs, u)) else s1
  }

  function AfterWriteUnlock(s: State, t: nat, u: nat): State
    requires t < |s.pcs|
  {
    var s1 := s.(activeWriters := s.activeWriters - 1, pcs := s.pcs[t := Outside]);
    if s1.waitingWriters > 0 then s1.(pcs := Signal(s1.pcs, u))
    else if s1.waitingReaders > 0 then s1.(pcs := Broadcast(s1.pcs))
    else s1
  }

  ghost predicate Step(s: State, e: Event, s': State) {
    match e
    case ReadLock(t) => At(s, t, Outside) && s' == TryRead(s, t)
    case ReadResume(t) => At(s, t, ReadWoken) && s' == TryRead(s.(waitingReaders := s.waitingReaders - 1), t)
    case ReadUnlock(t, u) => At(s, t, Reading) && CanSignal(s.pcs, u) && s' == AfterReadUnlock(s, t, u)
    case WriteLock(t) => At(s, t, Outside) && s' == TryWrite(s, t)
    case WriteResume(t) => At(s, t, WriteWoken) && s' == TryWrite(s.(waitingWriters := s.waitingWriters - 1), t)
    case WriteUnlock(t, u) => At(s, t, Writing) && CanSignal(s.pcs, u) && s' == AfterWriteUnlock(s, t, u)
    case Spurious(t) =>
      || (At(s, t, ReadAsleep) && s' == s.(pcs := s.pcs[t := ReadWoken]))
      || (At(s, t, WriteAsleep) && s' == s.(pcs := s.pcs[t := WriteWoken]))
  }

  /** A finite run: `states[i]` goes to `states[i+1]` by `events[i]`. */
  ghost predicate Run(states: seq<State>, events: seq<Event>) {
    && |states| == |events| + 1
    && Init(states[0])
    && forall i | 0 <= i < |events| :: Step(states[i], events[i], states[i + 1])
  }

  // ---------------------------------------------------------------------------------------------
  // What every step keeps
  // ---------------------------------------------------------------------------------------------

  /** The four counters count threads. */
  ghost predicate CountersExact(s: State) {
    && s.activeReaders == Count(s.pcs, Reading)
    && s.waitingReaders == Count(s.pcs, ReadAsleep) + Count(s.pcs, ReadWoken)
    && s.activeWriters == Count(s.pcs, Writing)
    && s.waitingWriters == Count(s.pcs, WriteAsleep) + Count(s.pcs, WriteWoken)
  }

  /** A writer holds the lock alone. */
  ghost predicate Exclusive(s: State) {
    s.activeWriters == 0 || (s.activeWriters == 1 && s.activeReaders == 0)
  }

  /** A reader sleeps only while its loop test would fail, and a writer sleeps on a free lock only
      if another writer has been woken for it. */
  ghost predicate NoLostWakeup(s: State) {
    && (ReadAsleep in s.pcs ==> ReadersBlocked(s))
    && (WriteAsleep in s.pcs && !WritersBlocked(s) ==> WriteWoken in s.pcs)
  }

  ghost predicate Inv(s: State) { CountersExact(s) && Exclusive(s) && NoLostWakeup(s) }

  lemma InitHolds(s: State)
    requires Init(s)
    ensures Inv(s)
  {
    CountConstant(s.pcs, Outside, Reading);
    CountConstant(s.pcs, Outside, ReadAsleep);
    CountConstant(s.pcs, Outside, ReadWoken);
    CountConstant(s.pcs, Outside, Writing);
    CountConstant(s.pcs, Outside, WriteAsleep);
    CountConstant(s.pcs, Outside, WriteWoken);
  }

  /** Signalling wakes one sleeping writer, or nobody when none sleeps. */
  lemma SignalCounts(pcs: seq<Pc>, u: nat)
    requires CanSignal(pcs, u)
    ensures |Signal(pcs, u)| == |pcs|
    ensures forall p | p != WriteAsleep && p != WriteWoken :: Count(Signal(pcs, u), p) == Count(pcs, p)
    ensures var moved := if WriteAsleep in pcs then 1 else 0;
      && Count(Signal(pcs, u), WriteAsleep) == Count(pcs, WriteAsleep) - moved
      && Count(Signal(pcs, u), WriteWoken) == Count(pcs, WriteWoken) + moved
  {
    if u < |pcs| && pcs[u] == WriteAsleep {
      CountMove(pcs, u, WriteWoken);
    }
  }

  /** A broadcast wakes every sleeping reader. */
  lemma {:induction false} BroadcastCounts(pcs: seq<Pc>)
    ensures |Broadcast(pcs)| == |pcs|
    ensures forall p | p != ReadAsleep && p != ReadWoken :: Count(Broadcast(pcs), p) == Count(pcs, p)
    ensures Count(Broadcast(pcs), ReadAsleep) == 0
    ensures Count(Broadcast(pcs), ReadWoken) == Count(pcs, ReadWoken) + Count(pcs, ReadAsleep)
  {
    if pcs != [] {
      BroadcastCounts(pcs[1..]);
      assert Broadcast(pcs)[1..] == Broadcast(pcs[1..]);
    }
  }

  lemma ReadUnlockKeeps(s: State, t: nat, u: nat)
    requires Inv(s) && At(s, t, Reading) && CanSignal(s.pcs, u)
    ensures Inv(AfterReadUnlock(s, t, u))
  {
    var pcs1 := s.pcs[t := Outside];
    CountMove(s.pcs, t, Outside);
    Occurrences(s.pcs);
    Occurrences(pcs1);
    SignalCounts(pcs1, u);
    Occurrences(Signal(pcs1, u));
  }

  lemma WriteUnlockKeeps(s: State, t: nat, u: nat)
    requires Inv(s) && At(s, t, Writing) && CanSignal(s.pcs, u)
    ensures Inv(AfterWriteUnlock(s, t, u))
  {
    var pcs1 := s.pcs[t := Outside];
    CountMove(s.pcs, t, Outside);
    Occurrences(s.pcs);
    Occurrences(pcs1);
    if s.waitingWriters > 0 {
      SignalCounts(pcs1, u);
      Occurrences(Signal(pcs1, u));
    } else {
      BroadcastCounts(pcs1);
      Occurrences(Broadcast(pcs1));
    }
  }

  lemma StepKeeps(s: State, e: Event, s': State)
    requires Inv(s) && Step(s, e, s')
    ensures Inv(s')
  {
    if e.ReadUnlock? {
      ReadUnlockKeeps(s, e.t, e.signalled);
    } else if e.WriteUnlock? {
      WriteUnlockKeeps(s, e.t, e.signalled);
    } else if e.Spurious? {
      MoveKeeps(s, e, s');
    } else {
      LockKeeps(s, e, s');
    }
  }

  lemma MoveKeeps(s: State, e: Event, s': State)
    requires Inv(s) && Step(s, e, s') && e.Spurious?
    ensures Inv(s')
  {
    CountMove(s.pcs, e.t, s'.pcs[e.t]);
    Occurrences(s.pcs);
    Occurrences(s'.pcs);
  }

  lemma LockKeeps(s: State, e: Event, s': State)
    requires Inv(s) && Step(s, e, s') && !e.Spurious? && !e.ReadUnlock? && !e.WriteUnlock?
    ensures Inv(s')
  {
    assert s'.pcs == s.pcs[e.t := s'.pcs[e.t]];
    CountMove(s.pcs, e.t, s'.pcs[e.t]);
    Occurrences(s.pcs);
    Occurrences(s'.pcs);
  }

  // ---------------------------------------------------------------------------------------------
  // Theorems over whole runs
  // ---------------------------------------------------------------------------------------------

  lemma {:induction false} RunKeeps(states: seq<State>, events: seq<Event>, i: nat)
    requires Run(states, events) && i < |states|
    ensures Inv(states[i])
  {
    if i == 0 {
      InitHolds(states[0]);
    } else {
      RunKeeps(states, events, i - 1);
      StepKeeps(states[i - 1], events[i - 1], states[i]);
    }
  }

  /** In every state of every run, a thread that is writing is the only thread inside. */
  lemma MutualExclusion(states: seq<State>, events: seq<Event>, i: nat, w: nat, t: nat)
    requires Run(states, events) && i < |states|
    requires At(states[i], w, Writing) && t < |states[i].pcs| && t != w
    ensures states[i].pcs[t] != Reading && states[i].pcs[t] != Writing
  {
    RunKeeps(states, events, i);
    var pcs := states[i].pcs;
    Occurrences(pcs);
    if pcs[t] == Writing {
      CountTwice(pcs, Writing, if t < w then t else w, if t < w then w else t);
    }
  }

  /** A step that lets a reader in finds no writer inside and none waiting; a step that lets a writer in finds
      nobody inside. */
  lemma EntryConditions(s: State, e: Event, s': State, t: nat)
    requires Inv(s) && Step(s, e, s') && t < |s.pcs| == |s'.pcs|
    ensures s.pcs[t] != Reading && s'.pcs[t] == Reading ==>
      Writing !in s.pcs && WriteAsleep !in s.pcs && WriteWoken !in s.pcs
    ensures s.pcs[t] != Writing && s'.pcs[t] == Writing ==>
      Writing !in s.pcs && Reading !in s.pcs
  {
    Occurrences(s.pcs);
    SourceOfEntry(s, e, s', t);
  }

  /** Only the thread that performs the step can enter, and only by a lock operation. */
  lemma SourceOfEntry(s: State, e: Event, s': State, t: nat)
    requires Step(s, e, s') && t < |s.pcs|
    ensures |s'.pcs| == |s.pcs|
    ensures s'.pcs[t] != s.pcs[t] && (s'.pcs[t] == Reading || s'.pcs[t] == Writing) ==>
      e.t == t && (e.ReadLock? || e.ReadResume? || e.WriteLock? || e.WriteResume?)
  {
    if e.ReadUnlock? || e.WriteUnlock? {
      BroadcastPointwise(s.pcs[e.t := Outside], t);
    }
  }

  lemma {:induction false} BroadcastPointwise(pcs: seq<Pc>, t: nat)
    requires t < |pcs|
    ensures |Broadcast(pcs)| == |pcs|
    ensures Broadcast(pcs)[t] == if pcs[t] == ReadAsleep then ReadWoken else pcs[t]
  {
    if t == 0 {
      if |pcs| > 1 { BroadcastPointwise(pcs[1..], 0); }
    } else {
      BroadcastPointwise(pcs[1..], t - 1);
    }
  }

  predicate WriterWaits(s: State, w: nat) { At(s, w, WriteAsleep) || At(s, w, WriteWoken) }

  /** Write preference over a whole stretch of a run: as long as writer `w` keeps waiting, no new
      reader gets in.  Whoever reads at the end has been reading all along. */
  lemma {:induction false} WaitingWriterIsNotOvertaken(states: seq<State>, events: seq<Event>, w: nat, t: nat, i: nat,
                                                       j: nat)
    requires Run(states, events) && i <= j < |states|
    requires forall k | i <= k <= j :: WriterWaits(states[k], w)
    requires At(states[j], t, Reading)
    ensures forall k | i <= k <= j :: At(states[k], t, Reading)
    decreases j - i
  {
    if i < j {
      RunKeeps(states, events, j - 1);
      NoEntryWhileWaiting(states[j - 1], events[j - 1], states[j], w, t);
      WaitingWriterIsNotOvertaken(states, events, w, t, i, j - 1);
    }
  }

  lemma NoEntryWhileWaiting(s: State, e: Event, s': State, w: nat, t: nat)
    requires Inv(s) && Step(s, e, s') && WriterWaits(s, w) && At(s', t, Reading)
    ensures At(s, t, Reading)
  {
    SameThreads(s, e, s');
    EntryConditions(s, e, s', t);
    assert s.pcs[w] in s.pcs;
  }

  lemma SameThreads(s: State, e: Event, s': State)
    requires Step(s, e, s')
    ensures |s'.pcs| == |s.pcs|
  {
    if 0 < |s.pcs| { SourceOfEntry(s, e, s', 0); }
  }

  /** No wakeup is lost: whenever the lock is free and a thread waits for it, some waiter has been
      woken, and that waiter's next step takes the lock.  When writers wait it is a writer. */
  lemma FreeLockHasATaker(states: seq<State>, events: seq<Event>, i: nat)
    requires Run(states, events) && i < |states|
    requires !WritersBlocked(states[i])
    requires states[i].waitingReaders > 0 || states[i].waitingWriters > 0
    ensures var s := states[i];
      exists t, e, s' :: Step(s, e, s') && e.t == t && t < |s.pcs| == |s'.pcs| &&
        (if s.waitingWriters > 0 then s.pcs[t] == WriteWoken && s'.pcs[t] == Writing
                                 else s.pcs[t] == ReadWoken && s'.pcs[t] == Reading)
  {
    RunKeeps(states, events, i);
    var s := states[i];
    Occurrences(s.pcs);
    if s.waitingWriters > 0 {
      var t :| 0 <= t < |s.pcs| && s.pcs[t] == WriteWoken;
      var s' := TryWrite(s.(waitingWriters := s.waitingWriters - 1), t);
      assert Step(s, WriteResume(t), s') && s'.pcs[t] == Writing;
    } else {
      var t :| 0 <= t < |s.pcs| && s.pcs[t] == ReadWoken;
      var s' := TryRead(s.(waitingReaders := s.waitingReaders - 1), t);
      assert Step(s, ReadResume(t), s') && s'.pcs[t] == Reading;
    }
  }
}
