/** The multi-level feedback queue of os/process/scheduler/multi_level_queuing.c.

    One slice of the scheduler runs the first process of the highest non-empty queue for one tick.
    The theorem is that a whole run without new arrivals is three first-come-first-served passes.
 */
module MultiLevelQueue {
  import opened Common

  const MAX_QUEUES := 3

  datatype Process = Process(pid: int, burst: int, remaining: int, level: nat, used: nat)

  /** One line of the schedule: who ran, in which queue, and what it had left. */
  datatype Tick = Tick(pid: int, level: nat, remaining: int)

  // ---------------------------------------------------------------------------------------------
  // One slice
  // ---------------------------------------------------------------------------------------------

  /** `1 << level`. */
  function Quantum(level: nat): nat {
    if level == 0 then 1 else 2 * Quantum(level - 1)
  }

  type Queues = q: seq<seq<Process>> | |q| == MAX_QUEUES witness [[], [], []]

  /** The highest queue with a process in it, `MAX_QUEUES` when all are empty. */
  function FirstBusy(q: Queues, from: nat): (level: nat)
    requires from <= MAX_QUEUES
    ensures from <= level <= MAX_QUEUES
    ensures level < MAX_QUEUES ==> q[level] != []
    ensures forall l | from <= l < level :: q[l] == []
    decreases MAX_QUEUES - from
  {
    if from == MAX_QUEUES || q[from] != [] then from else FirstBusy(q, from + 1)
  }

  /** `execute_time_slice`: the process that runs, after its tick. */
  function AfterTick(p: Process): Process { p.(remaining := p.remaining - 1, used := p.used + 1) }

  /** The queues after the first process of queue `level` has run for one tick: it leaves when it is
      done, moves down when its quantum is used up and there is a lower queue, and else stays first. */
  function Slice(q: Queues, level: nat): Queues
    requires level < MAX_QUEUES && q[level] != []
  {
    var p := AfterTick(q[level][0]);
    if p.remaining == 0 then q[level := q[level][1..]]
    else if p.used >= Quantum(level) && level < MAX_QUEUES - 1 then
      q[level := q[level][1..]][level + 1 := q[level + 1] + [p.(level := p.level + 1, used := 0)]]
    else q[level := [p] + q[level][1..]]
  }

  function TickOf(q: Queues, level: nat): Tick
    requires level < MAX_QUEUES && q[level] != []
  {
    Tick(q[level][0].pid, level, q[level][0].remaining - 1)
  }

  /** Every process is in the queue of its level, and above the lowest it has not used up the quantum there. */
  ghost predicate InPlace(q: Queues) {
    forall l, i | 0 <= l < MAX_QUEUES && 0 <= i < |q[l]| ::
      q[l][i].level == l && (l == 0 ==> q[l][i].used == 0) && (l == 1 ==> q[l][i].used < 2)
  }

  lemma SliceKeepsPlaces(q: Queues, level: nat)
    requires InPlace(q) && level < MAX_QUEUES && q[level] != []
    ensures InPlace(Slice(q, level))
  {
    var q' := Slice(q, level);
    assert Quantum(1) == 2 && Quantum(0) == 1;
    forall l, i | 0 <= l < MAX_QUEUES && 0 <= i < |q'[l]|
      ensures q'[l][i].level == l && (l == 0 ==> q'[l][i].used == 0) && (l == 1 ==> q'[l][i].used < 2)
    {
      assert q[level][0].level == level;
    }
  }

  /** Every process still has work to do. */
  ghost predicate Runnable(q: Queues) {
    forall l, i | 0 <= l < MAX_QUEUES && 0 <= i < |q[l]| :: q[l][i].remaining > 0
  }

  function Work(ps: seq<Process>): int { if ps == [] then 0 else ps[0].remaining + Work(ps[1..]) }

  function TotalWork(q: Queues): int { Work(q[0]) + Work(q[1]) + Work(q[2]) }

  lemma {:induction false} WorkConcat(a: seq<Process>, b: seq<Process>)
    ensures Work(a + b) == Work(a) + Work(b)
  {
    if a == [] {
      assert a + b == b;
    } else {
      WorkConcat(a[1..], b);
      assert (a + b)[1..] == a[1..] + b;
    }
  }

  lemma {:induction false} WorkNonNegative(ps: seq<Process>)
    requires forall i | 0 <= i < |ps| :: ps[i].remaining > 0
    ensures Work(ps) >= |ps|
  {
    if ps != [] { WorkNonNegative(ps[1..]); }
  }

  lemma WorkTotal(q: Queues)
    requires Runnable(q)
    ensures TotalWork(q) >= |q[0]| + |q[1]| + |q[2]|
  {
    WorkNonNegative(q[0]);
    WorkNonNegative(q[1]);
    WorkNonNegative(q[2]);
  }

  lemma WorkOfFirst(p: Process, rest: seq<Process>)
    ensures Work([p] + rest) == p.remaining + Work(rest)
  {
    assert ([p] + rest)[1..] == rest;
  }

  /** A slice does one unit of work and keeps every process runnable. */
  lemma SliceWorks(q: Queues, level: nat)
    requires Runnable(q) && level < MAX_QUEUES && q[level] != []
    ensures Runnable(Slice(q, level)) && TotalWork(Slice(q, level)) == TotalWork(q) - 1 && TotalWork(q) > 0
  {
    WorkTotal(q);
    SliceRunnable(q, level);
    var p, rest := AfterTick(q[level][0]), q[level][1..];
    assert q[level] == [q[level][0]] + rest;
    WorkOfFirst(p, rest);
    if level < MAX_QUEUES - 1 {
      var down := p.(level := p.level + 1, used := 0);
      WorkConcat(q[level + 1], [down]);
      assert Work([down]) == p.remaining;
    }
  }

  lemma SliceRunnable(q: Queues, level: nat)
    requires Runnable(q) && level < MAX_QUEUES && q[level] != []
    ensures Runnable(Slice(q, level))
  {
  }

  // ---------------------------------------------------------------------------------------------
  // A whole run
  // ---------------------------------------------------------------------------------------------

  /** The ticks of a run until all queues are empty. */
  ghost function Schedule(q: Queues): seq<Tick>
    requires Runnable(q)
    decreases TotalWork(q)
  {
    var level := FirstBusy(q, 0);
    if level == MAX_QUEUES then [] else
      SliceWorks(q, level);
      [TickOf(q, level)] + Schedule(Slice(q, level))
  }

  /** The run takes exactly as many slices as there is work. */
  lemma {:induction false} ScheduleLength(q: Queues)
    requires Runnable(q)
    ensures |Schedule(q)| == TotalWork(q)
    decreases TotalWork(q)
  {
    var level := FirstBusy(q, 0);
    if level < MAX_QUEUES {
      SliceWorks(q, level);
      ScheduleLength(Slice(q, level));
    }
  }

  /** What has run so far, and what will run from here, make up the schedule. */
  ghost predicate Scheduled(q0: Queues, q: Queues, ticks: seq<Tick>) {
    Runnable(q0) && Runnable(q) && Schedule(q0) == ticks + Schedule(q)
  }

  lemma ScheduledStep(q0: Queues, q: Queues, ticks: seq<Tick>)
    requires Scheduled(q0, q, ticks) && FirstBusy(q, 0) < MAX_QUEUES
    ensures var level := FirstBusy(q, 0);
      && Scheduled(q0, Slice(q, level), ticks + [TickOf(q, level)])
      && 0 <= TotalWork(Slice(q, level)) < TotalWork(q)
  {
    var level := FirstBusy(q, 0);
    SliceWorks(q, level);
    WorkTotal(Slice(q, level));
    ConcatAssociative(ticks, [TickOf(q, level)], Schedule(Slice(q, level)));
  }

  lemma ScheduledEnd(q0: Queues, q: Queues, ticks: seq<Tick>)
    requires Scheduled(q0, q, ticks) && FirstBusy(q, 0) == MAX_QUEUES
    ensures q == [[], [], []] && ticks == Schedule(q0)
  {
  }

  // ---------------------------------------------------------------------------------------------
  // First come, first served
  // ---------------------------------------------------------------------------------------------

  /** A process and what it has left. */
  datatype Job = Job(pid: int, left: int)

  /** `n` consecutive ticks of one process. */
  function Burst(pid: int, level: nat, left: int, n: nat): seq<Tick>
    decreases n
  {
    if n == 0 then [] else [Tick(pid, level, left - 1)] + Burst(pid, level, left - 1, n - 1)
  }

  ghost predicate Positive(jobs: seq<Job>) { forall i | 0 <= i < |jobs| :: jobs[i].left > 0 }

  /** Serve the jobs in order, each for at most `cap` ticks. */
  ghost function Pass(jobs: seq<Job>, level: nat, cap: nat): seq<Tick>
    requires Positive(jobs)
  {
    if jobs == [] then [] else
      Burst(jobs[0].pid, level, jobs[0].left, Min(cap, jobs[0].left)) + Pass(jobs[1..], level, cap)
  }

  /** The part of a job that is left after `cap` ticks, if any. */
  function Demoted(job: Job, cap: nat): seq<Job> {
    if job.left > cap then [Job(job.pid, job.left - cap)] else []
  }

  /** The jobs that are not done after `cap` ticks, in the same order. */
  function Remainder(jobs: seq<Job>, cap: nat): seq<Job> {
    if jobs == [] then [] else
      Demoted(jobs[0], cap) + Remainder(jobs[1..], cap)
  }

  /** Serve the jobs in order, each to the end. */
  ghost function Finish(jobs: seq<Job>, level: nat): seq<Tick>
    requires Positive(jobs)
  {
    if jobs == [] then [] else
      Burst(jobs[0].pid, level, jobs[0].left, jobs[0].left) + Finish(jobs[1..], level)
  }

  lemma {:induction false} RemainderPositive(jobs: seq<Job>, cap: nat)
    ensures Positive(Remainder(jobs, cap))
  {
    if jobs != [] { RemainderPositive(jobs[1..], cap); }
  }

  /** Processes new to queue `level` that stand for `jobs`. */
  ghost predicate Fresh(ps: seq<Process>, jobs: seq<Job>) {
    && |ps| == |jobs|
    && forall i | 0 <= i < |ps| ::
         ps[i].pid == jobs[i].pid && ps[i].remaining == jobs[i].left && ps[i].used == 0
  }

  /** The same, but the processes may have used some of their quantum. */
  ghost predicate StandFor(ps: seq<Process>, jobs: seq<Job>) {
    |ps| == |jobs| && forall i | 0 <= i < |ps| :: ps[i].pid == jobs[i].pid && ps[i].remaining == jobs[i].left
  }

  /** The lowest queue is plain first come, first served: its quantum never moves anybody. */
  lemma {:induction false} BottomQueue(q: Queues, jobs: seq<Job>)
    requires Runnable(q) && q[0] == q[1] == [] && StandFor(q[2], jobs) && Positive(jobs)
    ensures Schedule(q) == Finish(jobs, 2)
    decreases TotalWork(q)
  {
    if jobs != [] {
      SliceWorks(q, 2);
      var q' := Slice(q, 2);
      assert FirstBusy(q, 0) == 2;
      if jobs[0].left == 1 {
        BottomQueue(q', jobs[1..]);
        assert Burst(jobs[0].pid, 2, 1, 1) == [Tick(jobs[0].pid, 2, 0)];
      } else {
        var jobs' := [Job(jobs[0].pid, jobs[0].left - 1)] + jobs[1..];
        BottomQueue(q', jobs');
        assert jobs'[1..] == jobs[1..];
      }
    }
  }

  /** A tick of the middle queue. */
  lemma MiddleTick(q: Queues, job: Job)
    requires Runnable(q) && q[0] == [] && q[1] != [] && q[1][0].pid == job.pid && q[1][0].remaining == job.left
    ensures var q' := Slice(q, 1); Runnable(q') && q'[0] == []
    ensures Schedule(q) == [Tick(job.pid, 1, job.left - 1)] + Schedule(Slice(q, 1))
  {
    SliceWorks(q, 1);
    assert FirstBusy(q, 0) == 1;
  }

  /** Two ticks, and then down, unless the process is done. */
  lemma TwoTicks(q: Queues, job: Job)
    requires Runnable(q) && q[0] == [] && q[1] != [] && q[1][0].pid == job.pid && q[1][0].remaining == job.left > 1
    requires q[1][0].used == 0
    ensures var q1 := Slice(q, 1); q1[1] != [] && var q2 := Slice(q1, 1);
      && Runnable(q2) && q2[0] == [] && q2[1] == q[1][1..]
      && Schedule(q) == Burst(job.pid, 1, job.left, 2) + Schedule(q2)
  {
    var q1 := Slice(q, 1);
    MiddleTick(q, job);
    assert q1[1] == [AfterTick(q[1][0])] + q[1][1..];
    MiddleTick(q1, Job(job.pid, job.left - 1));
    TwoTickBurst(job, Schedule(Slice(q1, 1)));
  }

  lemma TwoTickBurst(job: Job, rest: seq<Tick>)
    ensures [Tick(job.pid, 1, job.left - 1)] + ([Tick(job.pid, 1, job.left - 2)] + rest)
      == Burst(job.pid, 1, job.left, 2) + rest
  {
    assert Burst(job.pid, 1, job.left - 1, 1) == [Tick(job.pid, 1, job.left - 2)];
  }

  /** What the middle queue does with its first process: at most two ticks, then out or down. */
  lemma MiddleFront(q: Queues, jobs: seq<Job>, below: seq<Job>) returns (q': Queues)
    requires Runnable(q) && q[0] == [] && jobs != [] && Fresh(q[1], jobs) && StandFor(q[2], below)
    ensures Runnable(q') && q'[0] == [] && Fresh(q'[1], jobs[1..]) && StandFor(q'[2], below + Demoted(jobs[0], 2))
    ensures Schedule(q) == Burst(jobs[0].pid, 1, jobs[0].left, Min(2, jobs[0].left)) + Schedule(q')
  {
    var job := jobs[0];
    if job.left == 1 {
      q' := Slice(q, 1);
      MiddleTick(q, job);
      assert Burst(job.pid, 1, 1, 1) == [Tick(job.pid, 1, 0)];
    } else {
      TwoTicks(q, job);
      assert Slice(q, 1)[1] == [AfterTick(q[1][0])] + q[1][1..];
      q' := Slice(Slice(q, 1), 1);
    }
  }

  /** The middle queue: one pass with a cap of two ticks, the rest goes behind the bottom queue. */
  lemma {:induction false} MiddleQueue(q: Queues, jobs: seq<Job>, below: seq<Job>)
    requires Runnable(q) && q[0] == [] && Fresh(q[1], jobs) && StandFor(q[2], below) && Positive(jobs)
    requires Positive(below)
    ensures Positive(below + Remainder(jobs, 2))
    ensures Schedule(q) == Pass(jobs, 1, 2) + Finish(below + Remainder(jobs, 2), 2)
    decreases |jobs|
  {
    RemainderPositive(jobs, 2);
    if jobs == [] {
      assert below + [] == below;
      BottomQueue(q, below);
    } else {
      var q' := MiddleFront(q, jobs, below);
      MiddleQueue(q', jobs[1..], below + Demoted(jobs[0], 2));
      ConcatAssociative(below, Demoted(jobs[0], 2), Remainder(jobs[1..], 2));
      ConcatAssociative(Burst(jobs[0].pid, 1, jobs[0].left, Min(2, jobs[0].left)), Pass(jobs[1..], 1, 2),
          Finish(below + Remainder(jobs, 2), 2));
    }
  }

  /** What the top queue does with its first process: one tick, then out or down. */
  lemma TopFront(q: Queues, jobs: seq<Job>, below: seq<Job>) returns (q': Queues)
    requires Runnable(q) && jobs != [] && Fresh(q[0], jobs) && Fresh(q[1], below)
    ensures Runnable(q') && Fresh(q'[0], jobs[1..]) && Fresh(q'[1], below + Demoted(jobs[0], 1)) && q'[2] == q[2]
    ensures Schedule(q) == Burst(jobs[0].pid, 0, jobs[0].left, Min(1, jobs[0].left)) + Schedule(q')
  {
    SliceWorks(q, 0);
    q' := Slice(q, 0);
    assert FirstBusy(q, 0) == 0;
    assert Burst(jobs[0].pid, 0, jobs[0].left, 1) == [Tick(jobs[0].pid, 0, jobs[0].left - 1)];
  }

  /** The two lower passes, for the jobs that reach the middle queue. */
  ghost function LowerPasses(jobs: seq<Job>): seq<Tick>
    requires Positive(jobs)
  {
    RemainderPositive(jobs, 2);
    Pass(jobs, 1, 2) + Finish(Remainder(jobs, 2), 2)
  }

  /** The top queue: one tick each, the rest goes behind the middle queue. */
  lemma {:induction false} TopQueue(q: Queues, jobs: seq<Job>, below: seq<Job>)
    requires Runnable(q) && Fresh(q[0], jobs) && Fresh(q[1], below) && q[2] == [] && Positive(jobs) && Positive(below)
    ensures Positive(below + Remainder(jobs, 1))
    ensures Schedule(q) == Pass(jobs, 0, 1) + LowerPasses(below + Remainder(jobs, 1))
    decreases |jobs|
  {
    RemainderPositive(jobs, 1);
    if jobs == [] {
      assert below + [] == below;
      MiddleQueue(q, below, []);
      assert [] + Remainder(below, 2) == Remainder(below, 2);
    } else {
      var q' := TopFront(q, jobs, below);
      TopQueue(q', jobs[1..], below + Demoted(jobs[0], 1));
      ConcatAssociative(below, Demoted(jobs[0], 1), Remainder(jobs[1..], 1));
      ConcatAssociative(Burst(jobs[0].pid, 0, jobs[0].left, Min(1, jobs[0].left)), Pass(jobs[1..], 0, 1),
          LowerPasses(below + Remainder(jobs, 1)));
    }
  }

  /** A run from new processes with positive bursts is three first-come-first-served passes: one tick
      each, then up to two more each, then the rest of each to the end. */
  lemma RunIsThreePasses(q: Queues, jobs: seq<Job>)
    requires Runnable(q) && Fresh(q[0], jobs) && q[1] == q[2] == []
    ensures Positive(jobs) && Positive(Remainder(jobs, 1)) && Positive(Remainder(Remainder(jobs, 1), 2))
    ensures Schedule(q)
      == Pass(jobs, 0, 1) + (Pass(Remainder(jobs, 1), 1, 2) + Finish(Remainder(Remainder(jobs, 1), 2), 2))
  {
    TopQueue(q, jobs, []);
    RemainderPositive(Remainder(jobs, 1), 2);
    assert [] + Remainder(jobs, 1) == Remainder(jobs, 1);
  }

  // ---------------------------------------------------------------------------------------------
  // Who finishes when
  // ---------------------------------------------------------------------------------------------

  /** The processes that complete, in order of completion. */
  function Completed(ticks: seq<Tick>): seq<int> {
    if ticks == [] then [] else (if ticks[0].remaining == 0 then [ticks[0].pid] else []) + Completed(ticks[1..])
  }

  /** The processes with a burst between `lo` and `hi`, in order of arrival. */
  function Between(jobs: seq<Job>, lo: int, hi: int): seq<int> {
    if jobs == [] then [] else (if lo <= jobs[0].left <= hi then [jobs[0].pid] else []) + Between(jobs[1..], lo, hi)
  }

  function MaxLeft(jobs: seq<Job>): (m: int)
    ensures forall i | 0 <= i < |jobs| :: jobs[i].left <= m
  {
    if jobs == [] then 0 else
      var m := MaxLeft(jobs[1..]);
      assert forall i | 1 <= i < |jobs| :: jobs[i] == jobs[1..][i - 1];
      if jobs[0].left > m then jobs[0].left else m
  }

  lemma {:induction false} CompletedConcat(a: seq<Tick>, b: seq<Tick>)
    ensures Completed(a + b) == Completed(a) + Completed(b)
  {
    if a == [] {
      assert a + b == b;
    } else {
      CompletedConcat(a[1..], b);
      assert (a + b)[1..] == a[1..] + b;
      ConcatAssociative(if a[0].remaining == 0 then [a[0].pid] else [], Completed(a[1..]), Completed(b));
    }
  }

  lemma {:induction false} CompletedBurst(pid: int, level: nat, left: int, n: nat)
    requires n <= left
    ensures Completed(Burst(pid, level, left, n)) == if n == left > 0 then [pid] else []
    decreases n
  {
    if n > 0 {
      CompletedBurst(pid, level, left - 1, n - 1);
      assert Burst(pid, level, left, n)[1..] == Burst(pid, level, left - 1, n - 1);
    }
  }

  lemma {:induction false} CompletedPass(jobs: seq<Job>, level: nat, cap: nat)
    requires Positive(jobs)
    ensures Completed(Pass(jobs, level, cap)) == Between(jobs, 1, cap)
  {
    if jobs != [] {
      CompletedBurst(jobs[0].pid, level, jobs[0].left, Min(cap, jobs[0].left));
      CompletedConcat(Burst(jobs[0].pid, level, jobs[0].left, Min(cap, jobs[0].left)), Pass(jobs[1..], level, cap));
      CompletedPass(jobs[1..], level, cap);
    }
  }

  lemma {:induction false} CompletedFinish(jobs: seq<Job>, level: nat, max: int)
    requires Positive(jobs) && forall i | 0 <= i < |jobs| :: jobs[i].left <= max
    ensures Completed(Finish(jobs, level)) == Between(jobs, 1, max)
  {
    if jobs != [] {
      CompletedBurst(jobs[0].pid, level, jobs[0].left, jobs[0].left);
      CompletedConcat(Burst(jobs[0].pid, level, jobs[0].left, jobs[0].left), Finish(jobs[1..], level));
      CompletedFinish(jobs[1..], level, max);
    }
  }

  lemma {:induction false} BetweenRemainder(jobs: seq<Job>, cap: nat, lo: int, hi: int)
    requires lo >= 1
    ensures Between(Remainder(jobs, cap), lo, hi) == Between(jobs, lo + cap, hi + cap)
  {
    if jobs != [] {
      BetweenRemainder(jobs[1..], cap, lo, hi);
      var front := Demoted(jobs[0], cap);
      assert Remainder(jobs, cap) == front + Remainder(jobs[1..], cap);
      if front == [] {
        assert Remainder(jobs, cap) == Remainder(jobs[1..], cap);
      } else {
        assert Remainder(jobs, cap)[1..] == Remainder(jobs[1..], cap);
      }
    }
  }

  lemma {:induction false} RemainderBound(jobs: seq<Job>, cap: nat, max: int)
    requires forall i | 0 <= i < |jobs| :: jobs[i].left <= max
    ensures forall i | 0 <= i < |Remainder(jobs, cap)| :: Remainder(jobs, cap)[i].left <= max - cap
  {
    if jobs != [] { RemainderBound(jobs[1..], cap, max); }
  }

  /** Processes with a burst of 1 finish first, then those with 2 or 3, then the rest, each group in
      order of arrival. */
  lemma CompletionOrder(q: Queues, jobs: seq<Job>)
    requires Runnable(q) && Fresh(q[0], jobs) && q[1] == q[2] == []
    ensures Completed(Schedule(q)) == Between(jobs, 1, 1) + (Between(jobs, 2, 3) + Between(jobs, 4, MaxLeft(jobs)))
  {
    RunIsThreePasses(q, jobs);
    var middle := Remainder(jobs, 1);
    var bottom := Remainder(middle, 2);
    var max := MaxLeft(jobs);
    CompletedConcat(Pass(jobs, 0, 1), Pass(middle, 1, 2) + Finish(bottom, 2));
    CompletedConcat(Pass(middle, 1, 2), Finish(bottom, 2));
    CompletedPass(jobs, 0, 1);
    CompletedPass(middle, 1, 2);
    RemainderBound(jobs, 1, max);
    RemainderBound(middle, 2, max - 1);
    CompletedFinish(bottom, 2, max - 3);
    BetweenRemainder(jobs, 1, 1, 2);
    BetweenRemainder(middle, 2, 1, max - 3);
    BetweenRemainder(jobs, 1, 3, max - 1);
  }

  // ---------------------------------------------------------------------------------------------
  // Bursts that are not positive
  // ---------------------------------------------------------------------------------------------

  /** Process `i` of queue `level` has no work left; its remaining time will never be zero again. */
  ghost predicate StuckAt(q: Queues, level: nat, i: nat) {
    level < MAX_QUEUES && i < |q[level]| && q[level][i].remaining <= 0
  }

  ghost predicate Stuck(q: Queues) { exists l: nat, i: nat :: StuckAt(q, l, i) }

  /** Such a process never leaves the queues. */
  lemma StuckStays(q: Queues, level: nat)
    requires Stuck(q) && level < MAX_QUEUES && q[level] != []
    ensures Stuck(Slice(q, level))
  {
    var l: nat, i: nat :| StuckAt(q, l, i);
    var q', p := Slice(q, level), AfterTick(q[level][0]);
    if l != level {
      assert StuckAt(q', l, i);
    } else if p.remaining != 0 && !(p.used >= Quantum(level) && level < MAX_QUEUES - 1) {
      assert StuckAt(q', l, i);
    } else if i > 0 {
      assert StuckAt(q', l, i - 1);
    } else {
      assert StuckAt(q', l + 1, |q[l + 1]|);
    }
  }

  lemma StuckIsBusy(q: Queues)
    requires Stuck(q)
    ensures FirstBusy(q, 0) < MAX_QUEUES
  {
    var l: nat, i: nat :| StuckAt(q, l, i);
    assert q[l] != [];
  }

  // ---------------------------------------------------------------------------------------------
  // The scheduler
  // ---------------------------------------------------------------------------------------------

  /** Every process is in exactly one slot of one queue, so a slot holds the process record itself. */
  class Mlfq {
    const processes: array2<Process>   // by queue and slot
    const count: array<nat>
    const quantum: array<nat>

    ghost predicate Valid()
      reads this, count, quantum
    {
      && processes.Length0 == count.Length == quantum.Length == MAX_QUEUES && count != quantum
      && count[0] <= processes.Length1 && count[1] <= processes.Length1 && count[2] <= processes.Length1
      && quantum[0] == Quantum(0) && quantum[1] == Quantum(1) && quantum[2] == Quantum(2)
    }

    ghost function Row(level: nat): (row: seq<Process>)
      requires Valid() && level < MAX_QUEUES
      reads this, count, quantum, processes
      ensures |row| == count[level]
    {
      seq(count[level],
          j requires 0 <= j < count[level] && Valid() reads this, count, quantum, processes => processes[level, j])
    }

    ghost function View(): Queues
      requires Valid()
      reads this, count, quantum, processes
    {
      [Row(0), Row(1), Row(2)]
    }

    /** `init_mlfq`. */
    constructor (capacity: nat)
      ensures Valid() && View() == [[], [], []] && processes.Length1 == capacity
      ensures fresh(processes) && fresh(count) && fresh(quantum)
    {
      processes := new Process[MAX_QUEUES, capacity]((_, _) => Process(0, 0, 0, 0, 0));
      count := new nat[MAX_QUEUES](_ => 0);
      quantum := new nat[MAX_QUEUES](_ => 0);
      new;
      for i := 0 to MAX_QUEUES
        invariant forall j | 0 <= j < i :: quantum[j] == Quantum(j)
        invariant forall j | 0 <= j < MAX_QUEUES :: count[j] == 0
      {
        quantum[i] := Quantum(i);
      }
    }

    /** Appends a process to a queue. */
    method Append(level: nat, p: Process)
      requires Valid() && level < MAX_QUEUES && count[level] < processes.Length1
      modifies processes, count
      ensures Valid() && View() == old(View())[level := old(View())[level] + [p]]
      ensures count[..] == old(count[..])[level := old(count[level]) + 1]
    {
      processes[level, count[level]] := p;
      count[level] := count[level] + 1;
      assert Row(level) == old(Row(level)) + [p];
      assert forall l | 0 <= l < MAX_QUEUES && l != level :: Row(l) == old(Row(l));
    }

    method AddProcess(pid: int, burst: int)
      requires Valid() && count[0] < processes.Length1
      modifies processes, count
      ensures Valid() && View() == old(View())[0 := old(View())[0] + [Process(pid, burst, burst, 0, 0)]]
    {
      Append(0, Process(pid, burst, burst, 0, 0));
    }

    /** The shifting loop that takes the first process out of a queue. */
    method RemoveFirst(level: nat)
      requires Valid() && level < MAX_QUEUES && count[level] > 0
      modifies processes, count
      ensures Valid() && View() == old(View())[level := old(View())[level][1..]]
      ensures count[..] == old(count[..])[level := old(count[level]) - 1]
    {
      var j := 0;
      while j < count[level] - 1
        modifies processes
        invariant 0 <= j <= count[level] - 1
        invariant forall k | 0 <= k < j :: processes[level, k] == old(processes[level, k + 1])
        invariant forall k | j <= k < count[level] :: processes[level, k] == old(processes[level, k])
        invariant forall l, k | 0 <= l < MAX_QUEUES && l != level && 0 <= k < processes.Length1 ::
          processes[l, k] == old(processes[l, k])
      {
        processes[level, j] := processes[level, j + 1];
        j := j + 1;
      }
      count[level] := count[level] - 1;
      assert Row(level) == old(Row(level))[1..];
      assert forall l | 0 <= l < MAX_QUEUES && l != level :: Row(l) == old(Row(l));
    }

    /** All processes together fit into one queue, so moving down never overflows. */
    ghost predicate Roomy()
      requires Valid()
      reads this, count, quantum
    {
      count[0] + count[1] + count[2] <= processes.Length1
    }

    /** The first process of a queue runs for one tick. */
    method TickFirst(level: nat) returns (p: Process)
      requires Valid() && level < MAX_QUEUES && count[level] > 0
      modifies processes
      ensures Valid() && p == AfterTick(old(View())[level][0])
      ensures View() == old(View())[level := [p] + old(View())[level][1..]]
    {
      ghost var q := View();
      p := AfterTick(processes[level, 0]);
      processes[level, 0] := p;
      assert Row(level) == [p] + q[level][1..];
      assert forall l | 0 <= l < MAX_QUEUES && l != level :: Row(l) == q[l];
    }

    method RunFirst(level: nat) returns (tick: Tick)
      requires Valid() && Roomy() && level < MAX_QUEUES && count[level] > 0
      modifies processes, count
      ensures Valid() && Roomy()
      ensures View() == Slice(old(View()), level) && tick == TickOf(old(View()), level)
    {
      ghost var counts := count[..];
      var p := TickFirst(level);
      tick := Tick(p.pid, level, p.remaining);
      if p.remaining == 0 {
        RemoveFirst(level);
      } else if p.used >= quantum[level] {
        if level < MAX_QUEUES - 1 {
          Append(level + 1, p.(level := p.level + 1, used := 0));
          assert count[level] == count[..][level];
          RemoveFirst(level);
        }
      }
      assert count[0] == count[..][0] && count[1] == count[..][1] && count[2] == count[..][2];
      assert counts[0] + counts[1] + counts[2] <= processes.Length1;
    }

    method ExecuteTimeSlice() returns (ran: bool, tick: Tick)
      requires Valid() && Roomy()
      modifies processes, count
      ensures Valid() && Roomy()
      ensures ran == (FirstBusy(old(View()), 0) < MAX_QUEUES)
      ensures ran ==>
        && View() == Slice(old(View()), FirstBusy(old(View()), 0))
        && tick == TickOf(old(View()), FirstBusy(old(View()), 0))
      ensures !ran ==> View() == old(View())
    {
      for i := 0 to MAX_QUEUES
        invariant Valid() && Roomy() && View() == old(View())
        invariant FirstBusy(View(), 0) == FirstBusy(View(), i)
      {
        if count[i] > 0 {
          tick := RunFirst(i);
          return true, tick;
        }
      }
      return false, Tick(0, 0, 0);
    }

    /** The scan for a queue that is not empty. */
    method AnyRemaining() returns (processesRemaining: bool)
      requires Valid()
      ensures processesRemaining == (FirstBusy(View(), 0) < MAX_QUEUES)
    {
      processesRemaining := false;
      for i := 0 to MAX_QUEUES
        invariant processesRemaining <==> exists l :: 0 <= l < i && count[l] > 0
      {
        if count[i] > 0 { processesRemaining := true; }
      }
    }

    /** `run_mlfq`: slices until nothing is left. */
    method RunMlfq() returns (ticks: seq<Tick>)
      requires Valid() && Roomy() && Runnable(View())
      modifies processes, count
      ensures Valid() && View() == [[], [], []]
      ensures ticks == Schedule(old(View()))
    {
      ticks := [];
      ghost var q0 := View();
      var processesRemaining := AnyRemaining();
      while processesRemaining
        invariant Valid() && Roomy() && Scheduled(q0, View(), ticks)
        invariant processesRemaining == (FirstBusy(View(), 0) < MAX_QUEUES)
        decreases TotalWork(View())
      {
        ScheduledStep(q0, View(), ticks);
        var ran, tick := ExecuteTimeSlice();
        ticks := ticks + [tick];
        processesRemaining := AnyRemaining();
      }
      ScheduledEnd(q0, View(), ticks);
    }

    /** `slices` rounds of that loop, with a process whose remaining time is not positive: the loop is not over
        after any number of them.  With the method above, it ends exactly if all remaining times are positive. */
    method RunSlices(slices: nat) returns (over: bool)
      requires Valid() && Roomy() && Stuck(View())
      modifies processes, count
      ensures Valid() && !over
    {
      over := false;
      for slice := 0 to slices
        invariant Valid() && Roomy() && Stuck(View()) && !over
      {
        StuckIsBusy(View());
        StuckStays(View(), FirstBusy(View(), 0));
        var ran, tick := ExecuteTimeSlice();
        StuckIsBusy(View());
        var processesRemaining := AnyRemaining();
        over := !processesRemaining;
      }
    }
  }
}
