/** The readers-writer lock of concurrency/threads/rwlock-buffer/rwlock_buffer.c, built from two
    mutexes and a reader count, as a step system over any number of threads.

    Taking or releasing a mutex is a step, and so is each access to `read_count` and to the shared
    datum.  `write_lock` is a binary semaphore: the reader that releases it need not be the one that
    took it.
 */
module TwoMutexLock {
  import opened Counting

  /** Where a thread stands; from `Arriving` to `Arrived` and from `Leaving` to `Left` it holds
      `counter_lock`. */
  datatype Pc =
    | Outside
    | Arriving      // next: count itself in
    | FirstReader   // next: take write_lock for all readers
    | Arrived       // next: release counter_lock
    | Reading       // next: take counter_lock to leave
    | Leaving       // next: count itself out
    | LastReader    // next: release write_lock
    | Left          // next: release counter_lock
    | Writing       // next: write the datum, or release write_lock

  datatype State = State(counterHeld: bool, writeHeld: bool, readCount: int, datum: int, pcs: seq<Pc>)

  datatype Event = Advance(t: nat) | EnterAsWriter(t: nat) | WriteDatum(t: nat, value: int)

  ghost predicate Init(s: State) {
    && !s.counterHeld && !s.writeHeld && s.readCount == 0
    && forall t | 0 <= t < |s.pcs| :: s.pcs[t] == Outside
  }

  ghost predicate Step(s: State, e: Event, s': State) {
    && e.t < |s.pcs|
    && match e
       case EnterAsWriter(t) =>
         s.pcs[t] == Outside && !s.writeHeld && s' == s.(writeHeld := true, pcs := s.pcs[t := Writing])
       case WriteDatum(t, value) =>
         s.pcs[t] == Writing && s' == s.(datum := value)
       case Advance(t) =>
         match s.pcs[t]
         case Outside => !s.counterHeld && s' == s.(counterHeld := true, pcs := s.pcs[t := Arriving])
         case Arriving =>
           s' == s.(readCount := s.readCount + 1,
               pcs := s.pcs[t := if s.readCount + 1 == 1 then FirstReader else Arrived])
         case FirstReader => !s.writeHeld && s' == s.(writeHeld := true, pcs := s.pcs[t := Arrived])
         case Arrived => s' == s.(counterHeld := false, pcs := s.pcs[t := Reading])
         case Reading => !s.counterHeld && s' == s.(counterHeld := true, pcs := s.pcs[t := Leaving])
         case Leaving =>
           s' == s.(readCount := s.readCount - 1, pcs := s.pcs[t := if s.readCount - 1 == 0 then LastReader else Left])
         case LastReader => s' == s.(writeHeld := false, pcs := s.pcs[t := Left])
         case Left => s' == s.(counterHeld := false, pcs := s.pcs[t := Outside])
         case Writing => s' == s.(writeHeld := false, pcs := s.pcs[t := Outside])
  }

  ghost predicate Run(states: seq<State>, events: seq<Event>) {
    && |states| == |events| + 1 && Init(states[0])
    && forall i | 0 <= i < |events| :: Step(states[i], events[i], states[i + 1])
  }

  // ---------------------------------------------------------------------------------------------
  // What every step keeps
  // ---------------------------------------------------------------------------------------------

  ghost function CounterHolders(pcs: seq<Pc>): nat {
    Count(pcs, Arriving) + Count(pcs, FirstReader) + Count(pcs, Arrived)
    + Count(pcs, Leaving) + Count(pcs, LastReader) + Count(pcs, Left)
  }

  /** The readers as a group own `write_lock`: from the first one's acquisition to the last one's
      release. */
  ghost predicate ReadersOwnWriteLock(s: State) {
    (s.readCount > 0 && Count(s.pcs, FirstReader) == 0) || Count(s.pcs, LastReader) > 0
  }

  ghost predicate Inv(s: State) {
    && CounterHolders(s.pcs) == (if s.counterHeld then 1 else 0)
    && s.readCount == Count(s.pcs, FirstReader) + Count(s.pcs, Arrived) + Count(s.pcs, Reading) + Count(s.pcs, Leaving)
    && (Count(s.pcs, FirstReader) > 0 ==> s.readCount == 1)
    && (Count(s.pcs, LastReader) > 0 ==> s.readCount == 0)
    && Count(s.pcs, Writing) + (if ReadersOwnWriteLock(s) then 1 else 0) == (if s.writeHeld then 1 else 0)
  }

  lemma InitHolds(s: State)
    requires Init(s)
    ensures Inv(s)
  {
    forall p ensures Count(s.pcs, p) == if p == Outside then |s.pcs| else 0 {
      CountConstant(s.pcs, Outside, p);
    }
  }

  predicate OnTheWayIn(pc: Pc) { pc.Outside? || pc.Arriving? || pc.FirstReader? || pc.Arrived? }

  lemma KnockKeeps(s: State, t: nat, s': State)
    requires Inv(s) && Step(s, Advance(t), s') && (s.pcs[t].Outside? || s.pcs[t].Arriving?)
    ensures Inv(s')
  {
    CountOccurs(s.pcs, s.pcs[t]);
    CountMove(s.pcs, t, s'.pcs[t]);
  }

  lemma ArrivalKeeps(s: State, t: nat, s': State)
    requires Inv(s) && Step(s, Advance(t), s') && OnTheWayIn(s.pcs[t])
    ensures Inv(s')
  {
    if s.pcs[t].FirstReader? || s.pcs[t].Arrived? {
      CountOccurs(s.pcs, s.pcs[t]);
      CountMove(s.pcs, t, s'.pcs[t]);
    } else {
      KnockKeeps(s, t, s');
    }
  }

  lemma CountOutKeeps(s: State, t: nat, s': State)
    requires Inv(s) && Step(s, Advance(t), s') && (s.pcs[t].Reading? || s.pcs[t].Leaving?)
    ensures Inv(s')
  {
    CountOccurs(s.pcs, s.pcs[t]);
    CountMove(s.pcs, t, s'.pcs[t]);
  }

  lemma DepartureKeeps(s: State, t: nat, s': State)
    requires Inv(s) && Step(s, Advance(t), s') && !OnTheWayIn(s.pcs[t]) && s.pcs[t] != Writing
    ensures Inv(s')
  {
    if s.pcs[t].LastReader? || s.pcs[t].Left? {
      CountOccurs(s.pcs, s.pcs[t]);
      CountMove(s.pcs, t, s'.pcs[t]);
    } else {
      CountOutKeeps(s, t, s');
    }
  }

  lemma WriterKeeps(s: State, e: Event, s': State)
    requires Inv(s) && Step(s, e, s') && (e.Advance? ==> s.pcs[e.t] == Writing)
    ensures Inv(s')
  {
    CountOccurs(s.pcs, s.pcs[e.t]);
    if !e.WriteDatum? { CountMove(s.pcs, e.t, s'.pcs[e.t]); }
  }

  lemma StepKeeps(s: State, e: Event, s': State)
    requires Inv(s) && Step(s, e, s')
    ensures Inv(s')
  {
    if !e.Advance? || s.pcs[e.t] == Writing {
      WriterKeeps(s, e, s');
    } else if OnTheWayIn(s.pcs[e.t]) {
      ArrivalKeeps(s, e.t, s');
    } else {
      DepartureKeeps(s, e.t, s');
    }
  }

  // ---------------------------------------------------------------------------------------------
  // Theorems over whole runs
  // ---------------------------------------------------------------------------------------------

  lemma {:induction false} RunKeeps(states: seq<State>, events: seq<Event>, i: nat)
    requires Run(states, events) && i < |states|
    ensures Inv(states[i])
  {
    if i == 0 {
      InitHolds(states[0]);
    } else {
      RunKeeps(states, events, i - 1);
      StepKeeps(states[i - 1], events[i - 1], states[i]);
    }
  }

  /** A writer is inside alone. */
  lemma MutualExclusion(states: seq<State>, events: seq<Event>, i: nat, w: nat, t: nat)
    requires Run(states, events) && i < |states|
    requires w < |states[i].pcs| && t < |states[i].pcs| && t != w && states[i].pcs[w] == Writing
    ensures states[i].pcs[t] != Reading && states[i].pcs[t] != Writing
  {
    RunKeeps(states, events, i);
    var pcs := states[i].pcs;
    Occurrences(pcs);
    assert pcs[w] in pcs && pcs[t] in pcs;
    if pcs[t] == Writing {
      CountTwice(pcs, Writing, if t < w then t else w, if t < w then w else t);
    }
  }

  /** What a reader sees does not change while it reads, however long the stretch of the run. */
  lemma {:induction false} DatumStableWhileReading(states: seq<State>, events: seq<Event>, t: nat, i: nat, j: nat)
    requires Run(states, events) && i <= j < |states|
    requires forall k | i <= k <= j :: t < |states[k].pcs| && states[k].pcs[t] == Reading
    ensures states[j].datum == states[i].datum
    decreases j - i
  {
    if i < j {
      DatumStableWhileReading(states, events, t, i, j - 1);
      var s, e := states[j - 1], events[j - 1];
      assert Step(s, e, states[j]);
      assert s.pcs[t] == Reading;
      if e.WriteDatum? {
        MutualExclusion(states, events, j - 1, e.t, t);
      }
    }
  }

  /** No deadlock.  In particular a first reader that blocks on `write_lock` while it holds
      `counter_lock` waits for a writer, and a writer needs neither lock to leave. */
  lemma DeadlockFree(states: seq<State>, events: seq<Event>, i: nat, t: nat)
    requires Run(states, events) && i < |states|
    requires t < |states[i].pcs| && states[i].pcs[t] != Outside
    ensures exists u: nat, s' :: u < |states[i].pcs| && states[i].pcs[u] != Outside && Step(states[i], Advance(u), s')
  {
    RunKeeps(states, events, i);
    var s := states[i];
    Occurrences(s.pcs);
    assert s.pcs[t] in s.pcs;
    if Writing in s.pcs {
      var u: nat :| u < |s.pcs| && s.pcs[u] == Writing;
      assert Step(s, Advance(u), s.(writeHeld := false, pcs := s.pcs[u := Outside]));
    } else if s.counterHeld {
      var u := CounterHolder(s);
      CounterHolderMoves(s, u);
    } else {
      assert s.pcs[t] == Reading;
      assert Step(s, Advance(t), s.(counterHeld := true, pcs := s.pcs[t := Leaving]));
    }
  }

  lemma CounterHolder(s: State) returns (u: nat)
    requires Inv(s) && s.counterHeld
    ensures u < |s.pcs| && s.pcs[u] != Outside && s.pcs[u] != Reading && s.pcs[u] != Writing
  {
    Occurrences(s.pcs);
    assert Arriving in s.pcs || FirstReader in s.pcs || Arrived in s.pcs || Leaving in s.pcs || LastReader in s.pcs
      || Left in s.pcs;
    u :| u < |s.pcs| && s.pcs[u] != Outside && s.pcs[u] != Reading && s.pcs[u] != Writing;
  }

  lemma CounterHolderMoves(s: State, u: nat)
    requires Inv(s) && Writing !in s.pcs
    requires u < |s.pcs| && s.pcs[u] != Outside && s.pcs[u] != Reading && s.pcs[u] != Writing
    ensures exists s' :: Step(s, Advance(u), s')
  {
    Occurrences(s.pcs);
    assert s.pcs[u] in s.pcs;
    match s.pcs[u]
    case Arriving =>
      assert Step(s, Advance(u), s.(readCount := s.readCount + 1,
          pcs := s.pcs[u := if s.readCount + 1 == 1 then FirstReader else Arrived]));
    case FirstReader => assert Step(s, Advance(u), s.(writeHeld := true, pcs := s.pcs[u := Arrived]));
    case Arrived => assert Step(s, Advance(u), s.(counterHeld := false, pcs := s.pcs[u := Reading]));
    case Leaving =>
      assert Step(s, Advance(u), s.(readCount := s.readCount - 1,
          pcs := s.pcs[u := if s.readCount - 1 == 0 then LastReader else Left]));
    case LastReader => assert Step(s, Advance(u), s.(writeHeld := false, pcs := s.pcs[u := Left]));
    case Left => assert Step(s, Advance(u), s.(counterHeld := false, pcs := s.pcs[u := Outside]));
  }
}
