/** The compare-and-swap/futex mutex of concurrency/synchronization/preemmtibleCriticalSections.c
    and the counter it protects, as a step system over any number of threads.

    Every access to a shared word is a step of its own: the compare-and-swap, the owner store, the
    load and the store of `shared_counter++`, the two stores of the unlock, and the futex calls.
    Steps interleave arbitrarily; memory is sequentially consistent.  A futex sleeper may also
    return on its own.
 */
module FutexMutex {
  import opened Counting

  /** Where a thread stands; each name says what the thread does next. */
  datatype Pc =
    | Outside        // between two critical sections
    | TryLock        // compare-and-swap lock from 0 to 1
    | CallWait       // FUTEX_WAIT on lock == 1
    | Asleep         // queued in the kernel
    | SetOwner       // owner = tid
    | Load           // read shared_counter
    | Store(v: int)  // shared_counter = v + 1
    | Inside         // rest of the critical section, then owner = -1
    | Release        // lock = 0
    | CallWake       // FUTEX_WAKE of one sleeper

  /** `rounds[t]` is the number of increments thread `t` has done. */
  datatype State = State(lock: int, owner: int, counter: int, pcs: seq<Pc>, rounds: seq<int>)

  ghost predicate Init(s: State) {
    && s.lock == 0 && s.owner == -1 && s.counter == 0 && |s.rounds| == |s.pcs|
    && (forall t | 0 <= t < |s.pcs| :: s.pcs[t] == Outside && s.rounds[t] == 0)
  }

  /** Thread `t` does its next step; a waking thread chooses the sleeper `u`.  Each thread does
      `limit` critical sections. */
  ghost predicate ThreadStep(limit: nat, s: State, t: nat, u: nat, s': State) {
    && t < |s.pcs| == |s.rounds|
    && match s.pcs[t]
       case Outside => s.rounds[t] < limit && s' == s.(pcs := s.pcs[t := TryLock])
       case TryLock =>
         s' == if s.lock == 0 then s.(lock := 1, pcs := s.pcs[t := SetOwner]) else s.(pcs := s.pcs[t := CallWait])
       case CallWait => s' == s.(pcs := s.pcs[t := if s.lock == 1 then Asleep else TryLock])
       case Asleep => false
       case SetOwner => s' == s.(owner := t, pcs := s.pcs[t := Load])
       case Load => s' == s.(pcs := s.pcs[t := Store(s.counter)])
       case Store(v) =>
         s' == s.(counter := v + 1, pcs := s.pcs[t := Inside], rounds := s.rounds[t := s.rounds[t] + 1])
       case Inside => s' == s.(owner := -1, pcs := s.pcs[t := Release])
       case Release => s' == s.(lock := 0, pcs := s.pcs[t := CallWake])
       case CallWake =>
         var pcs1 := s.pcs[t := Outside];
         if Asleep in pcs1
         then u < |pcs1| && pcs1[u] == Asleep && s' == s.(pcs := pcs1[u := TryLock])
         else s' == s.(pcs := pcs1)
  }

  /** A sleeper returns without having been woken. */
  ghost predicate SpuriousStep(s: State, t: nat, s': State) {
    t < |s.pcs| && s.pcs[t] == Asleep && s' == s.(pcs := s.pcs[t := TryLock])
  }

  ghost predicate Move(limit: nat, s: State, t: nat, u: nat, s': State) {
    ThreadStep(limit, s, t, u, s') || SpuriousStep(s, t, s')
  }

  ghost predicate Step(limit: nat, s: State, s': State) {
    exists t: nat, u: nat :: Move(limit, s, t, u, s')
  }

  ghost predicate Run(limit: nat, states: seq<State>) {
    && |states| > 0 && Init(states[0])
    && forall i | 0 <= i < |states| - 1 :: Step(limit, states[i], states[i + 1])
  }

  // ---------------------------------------------------------------------------------------------
  // What every step keeps
  // ---------------------------------------------------------------------------------------------

  /** From winning the compare-and-swap to releasing the lock word. */
  predicate Holds(pc: Pc) {
    pc.SetOwner? || pc.Load? || pc.Store? || pc.Inside? || pc.Release?
  }

  /** Between the two stores to `owner`. */
  predicate InCriticalSection(pc: Pc) { pc.Load? || pc.Store? || pc.Inside? }

  /** Awake in the loop of `rt_mutex_lock`. */
  predicate Contends(pc: Pc) { pc.TryLock? || pc.CallWait? }

  ghost predicate OneHolder(s: State) {
    forall t, u | 0 <= t < |s.pcs| && 0 <= u < |s.pcs| && Holds(s.pcs[t]) && Holds(s.pcs[u]) :: t == u
  }

  ghost predicate Held(s: State) { exists t :: 0 <= t < |s.pcs| && Holds(s.pcs[t]) }

  ghost predicate Contended(s: State) { exists t :: 0 <= t < |s.pcs| && Contends(s.pcs[t]) }

  /** The lock word says whether there is a holder, and there is at most one. */
  ghost predicate LockWordExact(s: State) {
    && OneHolder(s)
    && (s.lock == 0 || s.lock == 1)
    && (s.lock == 1 <==> Held(s))
  }

  /** The owner word names the thread in the critical section, and nobody when there is none. */
  ghost predicate OwnerExact(s: State) {
    && (forall t | 0 <= t < |s.pcs| && InCriticalSection(s.pcs[t]) :: s.owner == t)
    && (s.owner == -1 || (0 <= s.owner < |s.pcs| && InCriticalSection(s.pcs[s.owner])))
  }

  /** No increment is lost, although it is a load followed by a store. */
  ghost predicate CounterExact(s: State) {
    && (forall t | 0 <= t < |s.pcs| && s.pcs[t].Store? :: s.pcs[t].v == s.counter)
    && s.counter == Sum(s.rounds)
  }

  /** A thread in a critical section whose increment is still to come has a round left. */
  ghost predicate RoundsBounded(limit: nat, s: State)
    requires |s.rounds| == |s.pcs|
  {
    forall t | 0 <= t < |s.pcs| ::
      && s.rounds[t] <= limit
      && (Contends(s.pcs[t]) || s.pcs[t].Asleep? || s.pcs[t].SetOwner? || s.pcs[t].Load? || s.pcs[t].Store?
          ==> s.rounds[t] < limit)
  }

  /** If the lock is free while a thread sleeps, another thread is about to wake one or is awake in
      the lock loop. */
  ghost predicate NoLostWakeup(s: State) {
    Asleep in s.pcs && s.lock == 0 ==> Contended(s) || CallWake in s.pcs
  }

  ghost predicate Inv(limit: nat, s: State) {
    && |s.rounds| == |s.pcs|
    && LockWordExact(s) && OwnerExact(s) && CounterExact(s) && RoundsBounded(limit, s) && NoLostWakeup(s)
  }

  lemma InitHolds(limit: nat, s: State)
    requires Init(s)
    ensures Inv(limit, s)
  {
    SumConstant(s.rounds, 0);
  }

  /** A step moves the stepping thread, and possibly one sleeper into the lock loop. */
  lemma OthersStay(limit: nat, s: State, t: nat, u: nat, s': State)
    requires Move(limit, s, t, u, s')
    ensures |s'.pcs| == |s.pcs|
    ensures forall v | 0 <= v < |s.pcs| && v != t ::
      s'.pcs[v] == s.pcs[v] || (s.pcs[v] == Asleep && s'.pcs[v] == TryLock)
  {
  }

  /** How the step of thread `t` changes its hold on the lock. */
  lemma OwnHold(limit: nat, s: State, t: nat, u: nat, s': State)
    requires Move(limit, s, t, u, s') && (s.lock == 0 || s.lock == 1)
    ensures |s'.pcs| == |s.pcs|
    ensures s'.lock == s.lock || (s.lock == 0 && s'.lock == 1 && Holds(s'.pcs[t]))
      || (s'.lock == 0 && s.pcs[t] == Release)
    ensures Holds(s'.pcs[t]) <==> (Holds(s.pcs[t]) && s.pcs[t] != Release) || (s.pcs[t] == TryLock && s.lock == 0)
    ensures s.pcs[t] == TryLock && s.lock == 0 ==> s'.lock == 1
    ensures s.pcs[t] == Release ==> s'.lock == 0
  {
  }

  lemma LockWordKept(limit: nat, s: State, t: nat, u: nat, s': State)
    requires LockWordExact(s) && Move(limit, s, t, u, s')
    ensures LockWordExact(s')
  {
    OthersStay(limit, s, t, u, s');
    OwnHold(limit, s, t, u, s');
    assert forall v | 0 <= v < |s.pcs| && v != t :: Holds(s'.pcs[v]) <==> Holds(s.pcs[v]);
    if Held(s) {
      var h :| 0 <= h < |s.pcs| && Holds(s.pcs[h]);
      assert h != t ==> Holds(s'.pcs[h]);
    }
  }

  lemma NoLostWakeupKept(limit: nat, s: State, t: nat, u: nat, s': State)
    requires Inv(limit, s) && Move(limit, s, t, u, s')
    ensures NoLostWakeup(s')
  {
    if Asleep in s'.pcs && s'.lock == 0 {
      if s.pcs[t].Release? {
        assert s'.pcs[t] == CallWake;
      } else if s.pcs[t].CallWake? && Asleep in s.pcs[t := Outside] {
        assert Contends(s'.pcs[u]);
      } else if s.pcs[t].Outside? || s.pcs[t].CallWait? || s.pcs[t].Asleep? {
        assert Contends(s'.pcs[t]);
      }
    }
  }

  lemma OwnerKept(limit: nat, s: State, t: nat, u: nat, s': State)
    requires Inv(limit, s) && Move(limit, s, t, u, s')
    ensures OwnerExact(s')
  {
    OthersStay(limit, s, t, u, s');
    forall v | 0 <= v < |s'.pcs| && InCriticalSection(s'.pcs[v]) ensures s'.owner == v {
      assert v != t ==> Holds(s.pcs[v]);
    }
  }

  lemma CounterKept(limit: nat, s: State, t: nat, u: nat, s': State)
    requires OneHolder(s) && CounterExact(s) && Move(limit, s, t, u, s')
    ensures CounterExact(s')
  {
    OthersStay(limit, s, t, u, s');
    assert s'.counter != s.counter ==> s.pcs[t].Store?;
    forall v | 0 <= v < |s'.pcs| && s'.pcs[v].Store? ensures s'.pcs[v].v == s'.counter {
      if v != t {
        assert Holds(s.pcs[v]);
        assert !Holds(s.pcs[t]);
      }
    }
    if s.pcs[t].Store? {
      SumUpdate(s.rounds, t, s.rounds[t] + 1);
    }
  }

  lemma RoundsKept(limit: nat, s: State, t: nat, u: nat, s': State)
    requires |s.rounds| == |s.pcs| && RoundsBounded(limit, s) && Move(limit, s, t, u, s')
    ensures |s'.rounds| == |s'.pcs| && RoundsBounded(limit, s')
  {
    OthersStay(limit, s, t, u, s');
    assert forall v | 0 <= v < |s.pcs| && v != t :: s'.rounds[v] == s.rounds[v];
  }

  lemma StepKeeps(limit: nat, s: State, s': State)
    requires Inv(limit, s) && Step(limit, s, s')
    ensures Inv(limit, s')
  {
    var t: nat, u: nat :| Move(limit, s, t, u, s');
    LockWordKept(limit, s, t, u, s');
    NoLostWakeupKept(limit, s, t, u, s');
    OwnerKept(limit, s, t, u, s');
    CounterKept(limit, s, t, u, s');
    RoundsKept(limit, s, t, u, s');
  }

  // ---------------------------------------------------------------------------------------------
  // Theorems over whole runs
  // ---------------------------------------------------------------------------------------------

  lemma {:induction false} RunKeeps(limit: nat, states: seq<State>, i: nat)
    requires Run(limit, states) && i < |states|
    ensures Inv(limit, states[i])
  {
    if i == 0 {
      InitHolds(limit, states[0]);
    } else {
      RunKeeps(limit, states, i - 1);
      StepKeeps(limit, states[i - 1], states[i]);
    }
  }

  /** At most one thread is in the critical section, and it is the recorded owner. */
  lemma MutualExclusion(limit: nat, states: seq<State>, i: nat, t: nat, u: nat)
    requires Run(limit, states) && i < |states|
    requires t < |states[i].pcs| && u < |states[i].pcs|
    requires InCriticalSection(states[i].pcs[t]) && InCriticalSection(states[i].pcs[u])
    ensures t == u && states[i].owner == t && states[i].lock == 1
  {
    RunKeeps(limit, states, i);
  }

  ghost predicate AllDone(limit: nat, s: State) {
    |s.rounds| == |s.pcs| && forall t | 0 <= t < |s.pcs| :: s.pcs[t] == Outside && s.rounds[t] == limit
  }

  /** No deadlock: until all threads are done, some thread can take a step of its own, whatever the
      interleaving so far. */
  lemma DeadlockFree(limit: nat, states: seq<State>, i: nat)
    requires Run(limit, states) && i < |states|
    requires !AllDone(limit, states[i])
    ensures exists t: nat, u: nat, s' :: ThreadStep(limit, states[i], t, u, s')
  {
    RunKeeps(limit, states, i);
    var s := states[i];
    if t: nat :| t < |s.pcs| && !s.pcs[t].Asleep? && !s.pcs[t].Outside? {
      CanStep(limit, s, t);
    } else if Asleep in s.pcs {
      assert false;
    } else {
      var t: nat :| t < |s.pcs| && !(s.pcs[t] == Outside && s.rounds[t] == limit);
      CanStep(limit, s, t);
    }
  }

  lemma CanStep(limit: nat, s: State, t: nat)
    requires Inv(limit, s) && t < |s.pcs| && !s.pcs[t].Asleep?
    requires s.pcs[t].Outside? ==> s.rounds[t] < limit
    ensures exists u: nat, s' :: ThreadStep(limit, s, t, u, s')
  {
    match s.pcs[t]
    case Outside => assert ThreadStep(limit, s, t, 0, s.(pcs := s.pcs[t := TryLock]));
    case TryLock =>
      assert ThreadStep(limit, s, t, 0, if s.lock == 0 then s.(lock := 1, pcs := s.pcs[t := SetOwner])
                                        else s.(pcs := s.pcs[t := CallWait]));
    case CallWait => assert ThreadStep(limit, s, t, 0, s.(pcs := s.pcs[t := if s.lock == 1 then Asleep else TryLock]));
    case SetOwner => assert ThreadStep(limit, s, t, 0, s.(owner := t, pcs := s.pcs[t := Load]));
    case Load => assert ThreadStep(limit, s, t, 0, s.(pcs := s.pcs[t := Store(s.counter)]));
    case Store(v) =>
      assert ThreadStep(limit, s, t, 0, s.(counter := v + 1, pcs := s.pcs[t := Inside],
          rounds := s.rounds[t := s.rounds[t] + 1]));
    case Inside => assert ThreadStep(limit, s, t, 0, s.(owner := -1, pcs := s.pcs[t := Release]));
    case Release => assert ThreadStep(limit, s, t, 0, s.(lock := 0, pcs := s.pcs[t := CallWake]));
    case CallWake =>
      var pcs1 := s.pcs[t := Outside];
      if Asleep in pcs1 {
        var u :| 0 <= u < |pcs1| && pcs1[u] == Asleep;
        assert ThreadStep(limit, s, t, u, s.(pcs := pcs1[u := TryLock]));
      } else {
        assert ThreadStep(limit, s, t, 0, s.(pcs := pcs1));
      }
  }

  /** When all threads are done, the unlocked counter has every increment of every thread. */
  lemma FinalCount(limit: nat, states: seq<State>, i: nat)
    requires Run(limit, states) && i < |states| && AllDone(limit, states[i])
    ensures states[i].counter == |states[i].pcs| * limit
    ensures states[i].lock == 0 && states[i].owner == -1
  {
    RunKeeps(limit, states, i);
    SumConstant(states[i].rounds, limit);
  }
}
