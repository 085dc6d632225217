/** Round-robin scheduling: os/process/scheduler/round_robin.c.

    The scheduler makes passes over the process table and runs every process that has arrived and is
    not finished for up to one quantum.  The theorems are about a whole run: it ends, it is idle only
    while everybody unfinished is still to arrive, no process waits a negative time, between two turns of a
    process every other process runs at most once, and so the whole wait of a process is bounded by its burst.
 */
module RoundRobin {
  import opened Common
  import opened Counting

  const TIME_QUANTUM := 2

  datatype Process = Process(pid: int, arrival: int, burst: int, remaining: int,
                             completion: int, turnaround: int, waiting: int)

  /** One turn of a process: when it started, how long it ran, what it had left. */
  datatype Turn = Turn(index: nat, start: int, length: int, left: int)

  function Remainings(ps: seq<Process>): (r: seq<int>)
    ensures |r| == |ps| && forall i | 0 <= i < |ps| :: r[i] == ps[i].remaining
  {
    seq(|ps|, i requires 0 <= i < |ps| => ps[i].remaining)
  }

  function Bursts(ps: seq<Process>): (r: seq<int>)
    ensures |r| == |ps| && forall i | 0 <= i < |ps| :: r[i] == ps[i].burst
  {
    seq(|ps|, i requires 0 <= i < |ps| => ps[i].burst)
  }

  // ---------------------------------------------------------------------------------------------
  // Accounts
  // ---------------------------------------------------------------------------------------------

  /** A process has run only after its arrival, and a finished one has its metrics. */
  ghost predicate Accounted(p: Process, time: int) {
    && 0 <= p.remaining <= p.burst && p.burst > 0
    && (p.remaining < p.burst ==> p.arrival + p.burst - p.remaining <= time)
    && (p.remaining == 0 ==>
          && p.completion <= time && p.turnaround == p.completion - p.arrival
          && p.waiting == p.turnaround - p.burst && p.waiting >= 0)
  }

  ghost predicate AllAccounted(ps: seq<Process>, time: int) { forall i | 0 <= i < |ps| :: Accounted(ps[i], time) }

  /** The same processes, whatever they have run. */
  ghost predicate SameProcesses(ps: seq<Process>, ps': seq<Process>) {
    && |ps| == |ps'|
    && forall i | 0 <= i < |ps| ::
         ps'[i].pid == ps[i].pid && ps'[i].arrival == ps[i].arrival && ps'[i].burst == ps[i].burst
  }

  /** Only processes with time remaining have run, and none of them for longer than that. */
  ghost predicate Worked(ps: seq<Process>, ps': seq<Process>) {
    && |ps| == |ps'|
    && forall i | 0 <= i < |ps| ::
         if ps[i].remaining > 0 then 0 <= ps'[i].remaining <= ps[i].remaining else ps'[i] == ps[i]
  }

  /** From table `ps0` at time `start` on to table `ps` at time `time`. */
  ghost predicate Reached(ps0: seq<Process>, start: int, ps: seq<Process>, time: int) {
    && SameProcesses(ps0, ps) && Worked(ps0, ps) && start <= time
    && (AllAccounted(ps0, start) ==> AllAccounted(ps, time))
  }

  lemma ReachedOn(ps0: seq<Process>, t0: int, ps1: seq<Process>, t1: int, ps2: seq<Process>, t2: int, t3: int)
    requires Reached(ps0, t0, ps1, t1) && Reached(ps1, t1, ps2, t2) && t2 <= t3
    ensures Reached(ps0, t0, ps2, t3)
  {
  }

  // ---------------------------------------------------------------------------------------------
  // Passes
  // ---------------------------------------------------------------------------------------------

  /** The turns of one pass: processes in table order, back to back from `start`, a quantum at most each. */
  ghost predicate IsPass(pass: seq<Turn>, n: nat, start: int) {
    && (forall x | 0 <= x < |pass| :: pass[x].index < n && 0 < pass[x].length <= TIME_QUANTUM)
    && (forall x, y | 0 <= x < y < |pass| :: pass[x].index < pass[y].index)
    && (pass != [] ==> pass[0].start == start)
    && (forall x | 0 <= x < |pass| - 1 :: pass[x + 1].start == pass[x].start + pass[x].length)
  }

  function EndOf(pass: seq<Turn>, start: int): int {
    if pass == [] then start else pass[|pass| - 1].start + pass[|pass| - 1].length
  }

  predicate InPass(pass: seq<Turn>, i: nat) { exists x :: 0 <= x < |pass| && pass[x].index == i }

  /** Whoever is not finished after its turn has a turn in the next pass. */
  ghost predicate Returns(before: seq<Turn>, after: seq<Turn>) {
    forall x | 0 <= x < |before| && before[x].left > 0 :: InPass(after, before[x].index)
  }

  /** Pass `p` starts at `starts[p]`; the next one starts when it ends, one tick later if it was empty. */
  ghost predicate PassAt(passes: seq<seq<Turn>>, starts: seq<int>, n: nat, p: nat)
    requires p < |passes| && |starts| == |passes| + 1
  {
    && IsPass(passes[p], n, starts[p])
    && starts[p + 1] == EndOf(passes[p], starts[p]) + (if passes[p] == [] then 1 else 0)
    && (p > 0 ==> Returns(passes[p - 1], passes[p]))
  }

  ghost predicate IsRun(passes: seq<seq<Turn>>, starts: seq<int>, n: nat) {
    |starts| == |passes| + 1 && forall p: nat | p < |passes| :: PassAt(passes, starts, n, p)
  }

  /** A turn starts at most one quantum per earlier turn after the pass. */
  lemma {:induction false} TurnStart(pass: seq<Turn>, n: nat, start: int, x: nat)
    requires IsPass(pass, n, start) && x < |pass|
    ensures start <= pass[x].start <= start + x * TIME_QUANTUM
  {
    if x > 0 { TurnStart(pass, n, start, x - 1); }
  }

  /** A pass ends at most one quantum per later turn after a turn. */
  lemma {:induction false} TurnEnd(pass: seq<Turn>, n: nat, start: int, x: nat)
    requires IsPass(pass, n, start) && x < |pass|
    ensures EndOf(pass, start) <= pass[x].start + pass[x].length + (|pass| - 1 - x) * TIME_QUANTUM
    decreases |pass| - x
  {
    if x + 1 < |pass| { TurnEnd(pass, n, start, x + 1); }
  }

  /** Turns are in table order, so few fit on either side of process `i`. */
  lemma {:induction false} IndexBound(pass: seq<Turn>, n: nat, start: int, x: nat)
    requires IsPass(pass, n, start) && x < |pass|
    ensures x <= pass[x].index
  {
    if x > 0 { IndexBound(pass, n, start, x - 1); }
  }

  lemma {:induction false} IndexBoundAfter(pass: seq<Turn>, n: nat, start: int, x: nat)
    requires IsPass(pass, n, start) && x < |pass|
    ensures |pass| - 1 - x <= n - 1 - pass[x].index
    decreases |pass| - x
  {
    if x + 1 < |pass| { IndexBoundAfter(pass, n, start, x + 1); }
  }

  /** Fairness: a process that is not finished after its turn gets the next one after at most one
      quantum for every other process. */
  lemma BoundedWait(passes: seq<seq<Turn>>, starts: seq<int>, n: nat, p: nat, x: nat) returns (y: nat)
    requires IsRun(passes, starts, n) && p + 1 < |passes| && x < |passes[p]| && passes[p][x].left > 0
    ensures y < |passes[p + 1]| && passes[p + 1][y].index == passes[p][x].index
    ensures passes[p + 1][y].start <= passes[p][x].start + passes[p][x].length + (n - 1) * TIME_QUANTUM
  {
    assert PassAt(passes, starts, n, p) && PassAt(passes, starts, n, p + 1);
    assert InPass(passes[p + 1], passes[p][x].index);
    y :| 0 <= y < |passes[p + 1]| && passes[p + 1][y].index == passes[p][x].index;
    TurnEnd(passes[p], n, starts[p], x);
    IndexBoundAfter(passes[p], n, starts[p], x);
    TurnStart(passes[p + 1], n, starts[p + 1], y);
    IndexBound(passes[p + 1], n, starts[p + 1], y);
  }

  // ---------------------------------------------------------------------------------------------
  // Turns
  // ---------------------------------------------------------------------------------------------

  /** A process after a turn that starts at `time`. */
  function AfterTurn(p: Process, time: int): Process {
    var length := Min(p.remaining, TIME_QUANTUM);
    var end := time + length;
    if p.remaining > length then p.(remaining := p.remaining - length)
    else p.(remaining := 0, completion := end, turnaround := end - p.arrival, waiting := end - p.arrival - p.burst)
  }

  predicate Ready(p: Process, time: int) { p.remaining > 0 && p.arrival <= time }

  lemma TurnAccounted(p: Process, time: int)
    requires Ready(p, time)
    ensures Accounted(p, time) ==> Accounted(AfterTurn(p, time), time + Min(p.remaining, TIME_QUANTUM))
    ensures AfterTurn(p, time).remaining == p.remaining - Min(p.remaining, TIME_QUANTUM)
  {
  }

  /** Everybody unfinished is still to arrive. */
  ghost predicate NobodyHere(ps: seq<Process>, time: int) {
    forall i | 0 <= i < |ps| && ps[i].remaining > 0 :: ps[i].arrival > time
  }

  // ---------------------------------------------------------------------------------------------
  // Waiting
  // ---------------------------------------------------------------------------------------------

  /** When a process can first run: the clock starts at zero. */
  function From(p: Process): int { if p.arrival < 0 then 0 else p.arrival }

  /** One quantum for every other process, for each of a number of turns. */
  function Budget(turns: nat, n: nat): int { if turns == 0 then 0 else Budget(turns - 1, n) + (n - 1) * TIME_QUANTUM }

  lemma {:induction false} BudgetIsProduct(turns: nat, n: nat)
    ensures Budget(turns, n) == turns * ((n - 1) * TIME_QUANTUM)
  {
    if turns > 0 {
      BudgetIsProduct(turns - 1, n);
      assert (turns - 1) * ((n - 1) * TIME_QUANTUM) + (n - 1) * TIME_QUANTUM == turns * ((n - 1) * TIME_QUANTUM);
    }
  }

  /** The turns it takes to run a burst. */
  function TurnsFor(burst: int): nat { if burst <= 0 then 0 else (burst + TIME_QUANTUM - 1) / TIME_QUANTUM }

  /** A process has waited for the turns it has had, and `slack` more for the next; a finished one for its turns.
      Before its last turn it has run for full quanta only. */
  ghost predicate InTime(p: Process, time: int, slack: int, n: nat) {
    if p.remaining <= 0 then p.completion - From(p) - p.burst <= Budget(TurnsFor(p.burst), n)
    else
      && 0 <= p.burst - p.remaining && (p.burst - p.remaining) % TIME_QUANTUM == 0
      && time - From(p) - (p.burst - p.remaining)
           <= Budget((p.burst - p.remaining) / TIME_QUANTUM, n) + slack * TIME_QUANTUM
  }

  lemma TurnInTime(p: Process, time: int, n: nat)
    requires Ready(p, time) && p.remaining <= p.burst && n > 0 && InTime(p, time, n - 1, n)
    ensures InTime(AfterTurn(p, time), time + Min(p.remaining, TIME_QUANTUM), 0, n)
  {
    var had := (p.burst - p.remaining) / TIME_QUANTUM;
    assert p.burst - p.remaining == had * TIME_QUANTUM;
    assert Budget(had + 1, n) == Budget(had, n) + (n - 1) * TIME_QUANTUM;
    if p.remaining > TIME_QUANTUM {
      assert (p.burst - (p.remaining - TIME_QUANTUM)) / TIME_QUANTUM == had + 1;
    } else {
      assert TurnsFor(p.burst) == had + 1;
    }
  }

  lemma LaterInTime(p: Process, time: int, slack: int, n: nat, time': int, slack': int)
    requires InTime(p, time, slack, n) && time' - time <= (slack' - slack) * TIME_QUANTUM
    ensures InTime(p, time', slack', n)
  {
  }

  /** Who has not run yet and arrives at `time` or later has not waited. */
  lemma NewcomerInTime(p: Process, time: int, slack: int, n: nat)
    requires n > 0 && 0 < p.remaining == p.burst && time <= From(p) && slack >= 0
    ensures InTime(p, time, slack, n)
  {
  }

  /** The turns between the last chance of row `j` and row `i`, in this pass or from the last one on. */
  function Slack(n: nat, i: nat, j: nat): int { if j < i then i - 1 - j else n - 1 - j + i }

  /** Before row `i`, everybody has run only after arriving and has not waited too long. */
  ghost predicate Timely(ps: seq<Process>, time: int, i: nat) {
    && time >= 0 && AllAccounted(ps, time)
    && forall j | 0 <= j < |ps| :: InTime(ps[j], time, Slack(|ps|, i, j), |ps|)
  }

  lemma RowTakenTimely(ps: seq<Process>, time: int, i: nat)
    requires i < |ps| && Timely(ps, time, i) && Ready(ps[i], time)
    ensures Timely(ps[i := AfterTurn(ps[i], time)], time + Min(ps[i].remaining, TIME_QUANTUM), i + 1)
  {
    var ps', time' := ps[i := AfterTurn(ps[i], time)], time + Min(ps[i].remaining, TIME_QUANTUM);
    TurnAccounted(ps[i], time);
    assert InTime(ps[i], time, Slack(|ps|, i, i), |ps|);
    TurnInTime(ps[i], time, |ps|);
    forall j | 0 <= j < |ps| ensures InTime(ps'[j], time', Slack(|ps|, i + 1, j), |ps|) {
      if j != i { LaterInTime(ps[j], time, Slack(|ps|, i, j), |ps|, time', Slack(|ps|, i + 1, j)); }
    }
  }

  lemma RowSkippedTimely(ps: seq<Process>, time: int, i: nat)
    requires i < |ps| && Timely(ps, time, i) && !Ready(ps[i], time)
    ensures Timely(ps, time, i + 1)
  {
    forall j | 0 <= j < |ps| ensures InTime(ps[j], time, Slack(|ps|, i + 1, j), |ps|) {
      assert InTime(ps[j], time, Slack(|ps|, i, j), |ps|) && Accounted(ps[j], time);
      if j != i {
        LaterInTime(ps[j], time, Slack(|ps|, i, j), |ps|, time, Slack(|ps|, i + 1, j));
      } else if ps[i].remaining > 0 {
        NewcomerInTime(ps[i], time, 0, |ps|);
      }
    }
  }

  /** A pass that is over has left everybody waiting as the next one finds them. */
  lemma PassTimely(ps: seq<Process>, time: int)
    requires Timely(ps, time, |ps|)
    ensures Timely(ps, time, 0)
  {
    assert forall j | 0 <= j < |ps| :: Slack(|ps|, |ps|, j) == Slack(|ps|, 0, j);
  }

  lemma TickTimely(ps: seq<Process>, time: int)
    requires Timely(ps, time, 0) && NobodyHere(ps, time)
    ensures Timely(ps, time + 1, 0)
  {
    forall j | 0 <= j < |ps| ensures InTime(ps[j], time + 1, Slack(|ps|, 0, j), |ps|) {
      assert InTime(ps[j], time, Slack(|ps|, 0, j), |ps|) && Accounted(ps[j], time);
      if ps[j].remaining > 0 { NewcomerInTime(ps[j], time + 1, Slack(|ps|, 0, j), |ps|); }
    }
  }

  lemma FreshTimely(ps: seq<Process>)
    requires forall i | 0 <= i < |ps| :: ps[i].remaining > 0
    ensures Remainings(ps) == Bursts(ps) ==> Timely(ps, 0, 0)
  {
    if Remainings(ps) == Bursts(ps) {
      forall i | 0 <= i < |ps| ensures Accounted(ps[i], 0) && InTime(ps[i], 0, Slack(|ps|, 0, i), |ps|) {
        assert Remainings(ps)[i] == Bursts(ps)[i];
        NewcomerInTime(ps[i], 0, Slack(|ps|, 0, i), |ps|);
      }
    }
  }

  // ---------------------------------------------------------------------------------------------
  // The scheduler
  // ---------------------------------------------------------------------------------------------

  /** The table in the middle of a pass that started with table `ps0` at `start`, before row `i`. */
  ghost predicate TableAt(ps0: seq<Process>, ps: seq<Process>, start: int, time: int, i: nat) {
    && Reached(ps0, start, ps, time)
    && (forall j | i <= j < |ps| :: ps[j] == ps0[j])
    && time == start + Sum(Remainings(ps0)) - Sum(Remainings(ps))
    && (Timely(ps0, start, 0) ==> Timely(ps, time, i))
  }

  /** The turns of that pass so far: they account for the time, and nobody who was ready has been left out. */
  ghost predicate TurnsAt(ps0: seq<Process>, ps: seq<Process>, start: int, time: int, pass: seq<Turn>, i: nat)
    requires |ps| == |ps0|
  {
    && IsPass(pass, |ps|, start) && EndOf(pass, start) == time
    && (forall x | 0 <= x < |pass| ::
          && pass[x].index < i && pass[x].left == ps[pass[x].index].remaining && ps[pass[x].index].arrival <= time)
    && (forall j: nat | j < i && j < |ps| && Ready(ps0[j], start) :: InPass(pass, j))
    && (pass == [] ==> ps == ps0)
  }

  lemma RemainingUpdate(ps: seq<Process>, i: nat, p: Process)
    requires i < |ps|
    ensures Remainings(ps[i := p]) == Remainings(ps)[i := p.remaining]
    ensures Sum(Remainings(ps[i := p])) == Sum(Remainings(ps)) - ps[i].remaining + p.remaining
    ensures Count(Remainings(ps[i := p]), 0)
      == Count(Remainings(ps), 0) - (if ps[i].remaining == 0 then 1 else 0) + (if p.remaining == 0 then 1 else 0)
  {
    assert Remainings(ps[i := p]) == Remainings(ps)[i := p.remaining];
    SumUpdate(Remainings(ps), i, p.remaining);
    CountUpdate(Remainings(ps), i, p.remaining, 0);
  }

  /** A turn of row `i` takes the table on to row `i + 1`. */
  lemma TurnTable(ps0: seq<Process>, ps: seq<Process>, start: int, time: int, i: nat)
    requires i < |ps| && TableAt(ps0, ps, start, time, i) && Ready(ps[i], time)
    ensures TableAt(ps0, ps[i := AfterTurn(ps[i], time)], start, time + Min(ps[i].remaining, TIME_QUANTUM), i + 1)
  {
    TurnAccounted(ps[i], time);
    RemainingUpdate(ps, i, AfterTurn(ps[i], time));
    if Timely(ps, time, i) { RowTakenTimely(ps, time, i); }
  }

  /** A turn of row `i` takes the turns on to row `i + 1`. */
  lemma TurnTurns(ps0: seq<Process>, ps: seq<Process>, start: int, time: int, pass: seq<Turn>, i: nat)
    requires |ps| == |ps0| && i < |ps| && TurnsAt(ps0, ps, start, time, pass, i) && Ready(ps[i], time)
    ensures var length := Min(ps[i].remaining, TIME_QUANTUM); var p := AfterTurn(ps[i], time);
      TurnsAt(ps0, ps[i := p], start, time + length, pass + [Turn(i, time, length, p.remaining)], i + 1)
  {
    var length := Min(ps[i].remaining, TIME_QUANTUM);
    var turn := Turn(i, time, length, AfterTurn(ps[i], time).remaining);
    PassGrows(pass, |ps|, start, turn);
    forall j: nat | j < i + 1 && Ready(ps0[j], start) ensures InPass(pass + [turn], j) {
      StillInPass(pass, turn, j);
    }
  }

  /** A turn that starts when the pass ends, of a later process, extends the pass. */
  lemma PassGrows(pass: seq<Turn>, n: nat, start: int, turn: Turn)
    requires IsPass(pass, n, start) && turn.start == EndOf(pass, start)
    requires turn.index < n && 0 < turn.length <= TIME_QUANTUM
    requires forall x | 0 <= x < |pass| :: pass[x].index < turn.index
    ensures IsPass(pass + [turn], n, start) && EndOf(pass + [turn], start) == turn.start + turn.length
  {
  }

  lemma StillInPass(pass: seq<Turn>, turn: Turn, j: nat)
    ensures InPass(pass, j) || turn.index == j ==> InPass(pass + [turn], j)
  {
    if turn.index == j {
      assert (pass + [turn])[|pass|].index == j;
    } else if InPass(pass, j) {
      var x :| 0 <= x < |pass| && pass[x].index == j;
      assert (pass + [turn])[x].index == j;
    }
  }

  /** The turn is what happened to its process in the pass: it ran for `length`, has `left` left, and if that is
      nothing it completed at the end of the turn. */
  ghost predicate TurnTrue(ps0: seq<Process>, ps: seq<Process>, turn: Turn) {
    && turn.index < |ps| == |ps0|
    && ps0[turn.index].remaining > 0 && ps0[turn.index].remaining == turn.left + turn.length
    && ps[turn.index].remaining == turn.left
    && (turn.left == 0 ==> ps[turn.index].completion == turn.start + turn.length)
  }

  /** Every turn of the pass is true, and to all others nothing happened. */
  ghost predicate PassTrue(ps0: seq<Process>, ps: seq<Process>, pass: seq<Turn>) {
    && |ps| == |ps0| && (forall x | 0 <= x < |pass| :: TurnTrue(ps0, ps, pass[x]))
    && forall j: nat | j < |ps| && !InPass(pass, j) :: ps[j] == ps0[j]
  }

  lemma TurnGrows(ps0: seq<Process>, ps: seq<Process>, pass: seq<Turn>, i: nat, time: int)
    requires PassTrue(ps0, ps, pass) && i < |ps| && ps[i] == ps0[i] && Ready(ps[i], time)
    requires forall x | 0 <= x < |pass| :: pass[x].index < i
    ensures var length := Min(ps[i].remaining, TIME_QUANTUM); var p := AfterTurn(ps[i], time);
      PassTrue(ps0, ps[i := p], pass + [Turn(i, time, length, p.remaining)])
  {
    var p := AfterTurn(ps[i], time);
    var turn := Turn(i, time, Min(ps[i].remaining, TIME_QUANTUM), p.remaining);
    forall j: nat | j < |ps| && !InPass(pass + [turn], j) ensures ps[i := p][j] == ps0[j] {
      StillInPass(pass, turn, j);
    }
  }

  /** The whole state in the middle of a pass, with the number of processes that have completed in it. */
  ghost predicate MidPass(ps0: seq<Process>, ps: seq<Process>, start: int, time: int, pass: seq<Turn>, i: nat,
                          completed: int) {
    && TableAt(ps0, ps, start, time, i) && TurnsAt(ps0, ps, start, time, pass, i)
    && Count(Remainings(ps), 0) == Count(Remainings(ps0), 0) + completed && PassTrue(ps0, ps, pass)
  }

  lemma RowTaken(ps0: seq<Process>, ps: seq<Process>, start: int, time: int, pass: seq<Turn>, i: nat, completed: int,
                 ps': seq<Process>, length: int)
    requires i < |ps| && MidPass(ps0, ps, start, time, pass, i, completed) && Ready(ps[i], time)
    requires ps' == ps[i := AfterTurn(ps[i], time)] && length == Min(ps[i].remaining, TIME_QUANTUM)
    ensures MidPass(ps0, ps', start, time + length, pass + [Turn(i, time, length, ps'[i].remaining)], i + 1,
                    completed + (if ps'[i].remaining == 0 then 1 else 0))
  {
    TurnTable(ps0, ps, start, time, i);
    TurnTurns(ps0, ps, start, time, pass, i);
    TurnGrows(ps0, ps, pass, i, time);
    RemainingUpdate(ps, i, AfterTurn(ps[i], time));
  }

  lemma RowSkipped(ps0: seq<Process>, ps: seq<Process>, start: int, time: int, pass: seq<Turn>, i: nat, completed: int)
    requires i < |ps| && MidPass(ps0, ps, start, time, pass, i, completed) && !Ready(ps[i], time)
    ensures MidPass(ps0, ps, start, time, pass, i + 1, completed)
  {
    assert !Ready(ps0[i], start);
    if Timely(ps, time, i) { RowSkippedTimely(ps, time, i); }
  }

  /** The body of the pass for a process that is ready. */
  method TakeTurn(processes: array<Process>, i: nat, time: int) returns (executionTime: int)
    requires i < processes.Length && Ready(processes[i], time)
    modifies processes
    ensures executionTime == Min(old(processes[i]).remaining, TIME_QUANTUM)
    ensures processes[..] == old(processes[..])[i := AfterTurn(old(processes[i]), time)]
  {
    executionTime := if processes[i].remaining > TIME_QUANTUM then TIME_QUANTUM else processes[i].remaining;
    processes[i] := processes[i].(remaining := processes[i].remaining - executionTime);
    var currentTime := time + executionTime;
    if processes[i].remaining == 0 {
      processes[i] := processes[i].(completion := currentTime);
      processes[i] := processes[i].(turnaround := processes[i].completion - processes[i].arrival);
      processes[i] := processes[i].(waiting := processes[i].turnaround - processes[i].burst);
    }
  }

  /** The turns of a pass say what their processes still have to do. */
  ghost predicate UpToDate(pass: seq<Turn>, ps: seq<Process>, time: int) {
    forall x | 0 <= x < |pass| ::
      && pass[x].index < |ps| && ps[pass[x].index].remaining == pass[x].left && ps[pass[x].index].arrival <= time
  }

  /** Everybody who was ready has a turn. */
  ghost predicate ServesReady(pass: seq<Turn>, ps: seq<Process>, time: int) {
    forall j: nat | j < |ps| && Ready(ps[j], time) :: InPass(pass, j)
  }

  /** A whole pass, from table `ps` at `start` to table `ps'` at `end`. */
  ghost predicate PassDone(ps: seq<Process>, ps': seq<Process>, start: int, end: int, pass: seq<Turn>) {
    && Reached(ps, start, ps', end) && end == start + Sum(Remainings(ps)) - Sum(Remainings(ps'))
    && IsPass(pass, |ps|, start) && EndOf(pass, start) == end
    && ServesReady(pass, ps, start) && UpToDate(pass, ps', end)
    && (pass == [] ==> ps' == ps && NobodyHere(ps, start))
    && (Timely(ps, start, 0) ==> Timely(ps', end, 0)) && PassTrue(ps, ps', pass)
  }

  lemma PassEnds(ps: seq<Process>, ps': seq<Process>, start: int, end: int, pass: seq<Turn>, completed: int)
    requires MidPass(ps, ps', start, end, pass, |ps|, completed)
    ensures PassDone(ps, ps', start, end, pass)
  {
    if Timely(ps', end, |ps|) { PassTimely(ps', end); }
    if pass == [] {
      forall i | 0 <= i < |ps| && ps[i].remaining > 0 ensures ps[i].arrival > start {
        assert Ready(ps[i], start) ==> InPass(pass, i);
      }
    }
  }

  lemma PassStarts(ps: seq<Process>, start: int)
    ensures MidPass(ps, ps, start, start, [], 0, 0)
  {
  }

  /** The body of the pass for row `i`. */
  method RunRow(processes: array<Process>, i: nat, time: int, completed: int, executed: bool,
                ghost ps0: seq<Process>, ghost start: int, ghost pass: seq<Turn>)
    returns (currentTime: int, newlyCompleted: int, anyExecuted: bool, ghost pass': seq<Turn>)
    requires i < processes.Length && MidPass(ps0, processes[..], start, time, pass, i, completed)
    requires executed == (pass != [])
    modifies processes
    ensures MidPass(ps0, processes[..], start, currentTime, pass', i + 1, newlyCompleted)
    ensures anyExecuted == (pass' != [])
  {
    currentTime, newlyCompleted, anyExecuted, pass' := time, completed, executed, pass;
    if processes[i].remaining > 0 && processes[i].arrival <= currentTime {
      anyExecuted := true;
      currentTime, newlyCompleted, pass' := RunReadyRow(processes, i, time, completed, ps0, start, pass);
    } else {
      RowSkipped(ps0, processes[..], start, currentTime, pass, i, newlyCompleted);
    }
  }

  method RunReadyRow(processes: array<Process>, i: nat, time: int, completed: int, ghost ps0: seq<Process>,
                     ghost start: int, ghost pass: seq<Turn>)
    returns (currentTime: int, newlyCompleted: int, ghost pass': seq<Turn>)
    requires i < processes.Length && Ready(processes[i], time)
    requires MidPass(ps0, processes[..], start, time, pass, i, completed)
    modifies processes
    ensures MidPass(ps0, processes[..], start, currentTime, pass', i + 1, newlyCompleted) && pass' != []
  {
    ghost var ps := processes[..];
    var executionTime := TakeTurn(processes, i, time);
    RowTaken(ps0, ps, start, time, pass, i, completed, processes[..], executionTime);
    newlyCompleted := completed + (if processes[i].remaining == 0 then 1 else 0);
    pass' := pass + [Turn(i, time, executionTime, processes[i].remaining)];
    currentTime := time + executionTime;
  }

  /** One pass over the table. */
  method RunPass(processes: array<Process>, start: int)
    returns (currentTime: int, newlyCompleted: int, anyExecuted: bool, ghost pass: seq<Turn>)
    modifies processes
    ensures PassDone(old(processes[..]), processes[..], start, currentTime, pass)
    ensures Count(Remainings(processes[..]), 0) == Count(Remainings(old(processes[..])), 0) + newlyCompleted
    ensures anyExecuted == (pass != [])
  {
    ghost var ps0 := processes[..];
    currentTime, newlyCompleted, anyExecuted, pass := start, 0, false, [];
    PassStarts(ps0, start);
    for i := 0 to processes.Length
      invariant MidPass(ps0, processes[..], start, currentTime, pass, i, newlyCompleted)
      invariant anyExecuted == (pass != [])
    {
      currentTime, newlyCompleted, anyExecuted, pass :=
        RunRow(processes, i, currentTime, newlyCompleted, anyExecuted, ps0, start, pass);
    }
    PassEnds(ps0, processes[..], start, currentTime, pass, newlyCompleted);
  }

  // ---------------------------------------------------------------------------------------------
  // Whole runs
  // ---------------------------------------------------------------------------------------------

  /** The number of ticks on which nothing ran. */
  function IdleTicks(passes: seq<seq<Turn>>): nat {
    if passes == [] then 0 else IdleTicks(passes[..|passes| - 1]) + (if passes[|passes| - 1] == [] then 1 else 0)
  }

  /** The log of a run: its passes, with the time and the table before each of them and at the end. */
  datatype Log = Log(passes: seq<seq<Turn>>, starts: seq<int>, tables: seq<seq<Process>>)

  /** It is idle only while everybody unfinished is still to arrive. */
  ghost predicate IdleOnlyWhenEmpty(log: Log)
    requires |log.starts| == |log.tables| == |log.passes| + 1
  {
    forall p | 0 <= p < |log.passes| && log.passes[p] == [] :: NobodyHere(log.tables[p], log.starts[p])
  }

  /** The ends of a log: it starts with table `ps0` at time 0, and has reached table `ps` at time `time`. */
  ghost predicate Spans(log: Log, ps0: seq<Process>, ps: seq<Process>, time: int) {
    var k := |log.passes|;
    && |log.starts| == |log.tables| == k + 1
    && log.starts[0] == 0 && log.starts[k] == time && log.tables[0] == ps0 && log.tables[k] == ps
  }

  /** The clock shows the work done and the idle ticks. */
  ghost predicate OnTheClock(log: Log, ps0: seq<Process>, ps: seq<Process>, time: int) {
    && Reached(ps0, 0, ps, time) && time == Sum(Remainings(ps0)) - Sum(Remainings(ps)) + IdleTicks(log.passes)
    && (Timely(ps0, 0, 0) ==> Timely(ps, time, 0))
  }

  /** The passes of the log make up a run, and the last one is up to date. */
  ghost predicate Recorded(log: Log, n: nat, ps: seq<Process>, time: int) {
    && |log.starts| == |log.tables| == |log.passes| + 1
    && IsRun(log.passes, log.starts, n) && IdleOnlyWhenEmpty(log)
    && (log.passes != [] ==> UpToDate(log.passes[|log.passes| - 1], ps, time))
  }

  /** Turn `x` of pass `p` is the one in which process `i` finishes. */
  predicate FinalTurn(passes: seq<seq<Turn>>, p: nat, x: nat, i: nat) {
    p < |passes| && x < |passes[p]| && passes[p][x].index == i && passes[p][x].left == 0
  }

  /** There is exactly one turn in which process `i` finishes, and it ends at `completion`. */
  ghost predicate FinishesOnce(passes: seq<seq<Turn>>, i: nat, completion: int) {
    && (exists p: nat, x: nat :: FinalTurn(passes, p, x, i))
    && (forall p: nat, x: nat | FinalTurn(passes, p, x, i) :: passes[p][x].start + passes[p][x].length == completion)
    && forall p: nat, x: nat, q: nat, y: nat | FinalTurn(passes, p, x, i) && FinalTurn(passes, q, y, i) ::
         p == q && x == y
  }

  ghost predicate NeverFinishes(passes: seq<seq<Turn>>, i: nat) {
    forall p: nat, x: nat :: !FinalTurn(passes, p, x, i)
  }

  /** How long process `i` has run in the turns of a pass, and of a run. */
  function WorkIn(pass: seq<Turn>, i: nat): int {
    if pass == [] then 0 else
      WorkIn(pass[..|pass| - 1], i) + (if pass[|pass| - 1].index == i then pass[|pass| - 1].length else 0)
  }

  function WorkOf(passes: seq<seq<Turn>>, i: nat): int {
    if passes == [] then 0 else WorkOf(passes[..|passes| - 1], i) + WorkIn(passes[|passes| - 1], i)
  }

  /** The passes say of process `i` how long it has run, and if it has finished, when. */
  ghost predicate Tells(passes: seq<seq<Turn>>, i: nat, p0: Process, p: Process) {
    && WorkOf(passes, i) == p0.remaining - p.remaining
    && (p0.remaining > 0 ==>
          if p.remaining == 0 then FinishesOnce(passes, i, p.completion) else NeverFinishes(passes, i))
  }

  ghost predicate TellsAll(passes: seq<seq<Turn>>, ps0: seq<Process>, ps: seq<Process>) {
    |ps| == |ps0| && forall i: nat | i < |ps| :: Tells(passes, i, ps0[i], ps[i])
  }

  lemma {:induction false} WorkOfAbsent(pass: seq<Turn>, i: nat)
    requires !InPass(pass, i)
    ensures WorkIn(pass, i) == 0
  {
    if pass != [] {
      var rest := pass[..|pass| - 1];
      assert forall x | 0 <= x < |rest| :: rest[x] == pass[x];
      WorkOfAbsent(rest, i);
    }
  }

  lemma {:induction false} WorkOfTurn(pass: seq<Turn>, n: nat, start: int, x: nat)
    requires IsPass(pass, n, start) && x < |pass|
    ensures WorkIn(pass, pass[x].index) == pass[x].length
  {
    var last, rest := |pass| - 1, pass[..|pass| - 1];
    if x < last {
      assert IsPass(rest, n, start);
      WorkOfTurn(rest, n, start, x);
    } else {
      assert !InPass(rest, pass[x].index);
      WorkOfAbsent(rest, pass[x].index);
    }
  }

  lemma FinalTurnLater(passes: seq<seq<Turn>>, pass: seq<Turn>, p: nat, x: nat, i: nat)
    ensures FinalTurn(passes + [pass], p, x, i) <==>
      FinalTurn(passes, p, x, i) || (p == |passes| && x < |pass| && pass[x].index == i && pass[x].left == 0)
  {
  }

  /** A process without a turn in the pass. */
  lemma StillTells(passes: seq<seq<Turn>>, pass: seq<Turn>, i: nat, p0: Process, p: Process)
    requires Tells(passes, i, p0, p) && !InPass(pass, i)
    ensures Tells(passes + [pass], i, p0, p)
  {
    assert (passes + [pass])[..|passes|] == passes;
    WorkOfAbsent(pass, i);
    forall q: nat, y: nat ensures FinalTurn(passes + [pass], q, y, i) <==> FinalTurn(passes, q, y, i) {
      FinalTurnLater(passes, pass, q, y, i);
    }
  }

  /** A process with turn `x` in the pass. */
  lemma TurnTells(passes: seq<seq<Turn>>, pass: seq<Turn>, n: nat, start: int, x: nat, p0: Process, p: Process,
                  p': Process)
    requires IsPass(pass, n, start) && x < |pass| && Tells(passes, pass[x].index, p0, p)
    requires 0 < p.remaining <= p0.remaining && p.remaining == pass[x].left + pass[x].length
    requires p'.remaining == pass[x].left
    requires pass[x].left == 0 ==> p'.completion == pass[x].start + pass[x].length
    ensures Tells(passes + [pass], pass[x].index, p0, p')
  {
    var i, k := pass[x].index, |passes|;
    assert (passes + [pass])[..k] == passes;
    WorkOfTurn(pass, n, start, x);
    forall q: nat, y: nat ensures FinalTurn(passes + [pass], q, y, i) <==> q == k && y == x && pass[x].left == 0 {
      FinalTurnLater(passes, pass, q, y, i);
    }
    assert pass[x].left == 0 ==> FinalTurn(passes + [pass], k, x, i);
  }

  lemma PassTells(passes: seq<seq<Turn>>, pass: seq<Turn>, start: int, ps0: seq<Process>, ps: seq<Process>,
                  ps': seq<Process>)
    requires TellsAll(passes, ps0, ps) && Worked(ps0, ps) && IsPass(pass, |ps|, start) && PassTrue(ps, ps', pass)
    ensures TellsAll(passes + [pass], ps0, ps')
  {
    forall i: nat | i < |ps'| ensures Tells(passes + [pass], i, ps0[i], ps'[i]) {
      if InPass(pass, i) {
        var x :| 0 <= x < |pass| && pass[x].index == i;
        assert TurnTrue(ps, ps', pass[x]);
        TurnTells(passes, pass, |ps|, start, x, ps0[i], ps[i], ps'[i]);
      } else {
        StillTells(passes, pass, i, ps0[i], ps[i]);
      }
    }
  }

  /** The log of a run from table `ps0` that has reached table `ps` at time `time`. */
  ghost predicate Logged(log: Log, ps0: seq<Process>, ps: seq<Process>, time: int) {
    && Spans(log, ps0, ps, time) && OnTheClock(log, ps0, ps, time) && Recorded(log, |ps0|, ps, time)
    && TellsAll(log.passes, ps0, ps)
  }

  /** The log after one more pass. */
  function Extended(log: Log, pass: seq<Turn>, time: int, ps: seq<Process>): Log {
    Log(log.passes + [pass], log.starts + [time], log.tables + [ps])
  }

  lemma IdleExtends(log: Log, pass: seq<Turn>, time: int, ps: seq<Process>)
    requires |log.starts| == |log.tables| == |log.passes| + 1 && IdleOnlyWhenEmpty(log)
    requires pass == [] ==> NobodyHere(log.tables[|log.passes|], log.starts[|log.passes|])
    ensures IdleOnlyWhenEmpty(Extended(log, pass, time, ps))
    ensures IdleTicks(log.passes + [pass]) == IdleTicks(log.passes) + (if pass == [] then 1 else 0)
  {
    assert (log.passes + [pass])[..|log.passes|] == log.passes;
  }

  lemma WorkComesBack(before: seq<Turn>, ps: seq<Process>, time: int, pass: seq<Turn>)
    requires UpToDate(before, ps, time) && ServesReady(pass, ps, time)
    ensures Returns(before, pass)
  {
    forall x | 0 <= x < |before| && before[x].left > 0 ensures InPass(pass, before[x].index) {
      assert Ready(ps[before[x].index], time);
    }
  }

  lemma RunExtends(passes: seq<seq<Turn>>, starts: seq<int>, n: nat, pass: seq<Turn>, next: int)
    requires IsRun(passes, starts, n) && IsPass(pass, n, starts[|passes|])
    requires next == EndOf(pass, starts[|passes|]) + (if pass == [] then 1 else 0)
    requires passes != [] ==> Returns(passes[|passes| - 1], pass)
    ensures IsRun(passes + [pass], starts + [next], n)
  {
    forall p: nat | p < |passes| + 1 ensures PassAt(passes + [pass], starts + [next], n, p) {
      if p < |passes| { assert PassAt(passes, starts, n, p); }
    }
  }

  lemma ClockGoesOn(log: Log, ps0: seq<Process>, ps: seq<Process>, ps': seq<Process>, start: int, end: int,
                    pass: seq<Turn>)
    requires OnTheClock(log, ps0, ps, start) && PassDone(ps, ps', start, end, pass)
    ensures var time := end + (if pass == [] then 1 else 0); OnTheClock(Extended(log, pass, time, ps'), ps0, ps', time)
  {
    var time := end + (if pass == [] then 1 else 0);
    ReachedOn(ps0, 0, ps, start, ps', end, time);
    if Timely(ps, start, 0) && pass == [] { TickTimely(ps, start); }
    assert (log.passes + [pass])[..|log.passes|] == log.passes;
  }

  lemma RecordGoesOn(log: Log, n: nat, ps: seq<Process>, ps': seq<Process>, start: int, end: int, pass: seq<Turn>)
    requires Recorded(log, n, ps, start) && PassDone(ps, ps', start, end, pass) && |ps| == n
    requires log.starts[|log.passes|] == start && log.tables[|log.passes|] == ps
    ensures var time := end + (if pass == [] then 1 else 0); Recorded(Extended(log, pass, time, ps'), n, ps', time)
  {
    var time := end + (if pass == [] then 1 else 0);
    RunRecorded(log.passes, log.starts, n, ps, pass, time);
    IdleExtends(log, pass, time, ps');
    StillUpToDate(pass, ps', end, time);
  }

  lemma RunRecorded(passes: seq<seq<Turn>>, starts: seq<int>, n: nat, ps: seq<Process>, pass: seq<Turn>, next: int)
    requires IsRun(passes, starts, n) && IsPass(pass, n, starts[|passes|])
    requires next == EndOf(pass, starts[|passes|]) + (if pass == [] then 1 else 0)
    requires passes != [] ==> UpToDate(passes[|passes| - 1], ps, starts[|passes|])
    requires ServesReady(pass, ps, starts[|passes|])
    ensures IsRun(passes + [pass], starts + [next], n)
  {
    var k := |passes|;
    if k > 0 { WorkComesBack(passes[k - 1], ps, starts[k], pass); }
    RunExtends(passes, starts, n, pass, next);
  }

  lemma StillUpToDate(pass: seq<Turn>, ps: seq<Process>, time: int, later: int)
    requires UpToDate(pass, ps, time) && time <= later
    ensures UpToDate(pass, ps, later)
  {
  }

  /** A pass extends the log. */
  lemma PassLogged(log: Log, ps0: seq<Process>, ps: seq<Process>, ps': seq<Process>, start: int, end: int,
                   pass: seq<Turn>)
    requires Logged(log, ps0, ps, start) && PassDone(ps, ps', start, end, pass)
    ensures var time := end + (if pass == [] then 1 else 0); Logged(Extended(log, pass, time, ps'), ps0, ps', time)
  {
    ClockGoesOn(log, ps0, ps, ps', start, end, pass);
    RecordGoesOn(log, |ps0|, ps, ps', start, end, pass);
    PassTells(log.passes, pass, start, ps0, ps, ps');
  }

  function LastArrival(ps: seq<Process>): (a: int)
    ensures forall i | 0 <= i < |ps| :: ps[i].arrival <= a
  {
    if ps == [] then 0 else
      var a := LastArrival(ps[1..]);
      assert forall i | 1 <= i < |ps| :: ps[i] == ps[1..][i - 1];
      if ps[0].arrival > a then ps[0].arrival else a
  }

  /** Some work was done, or a tick passed that brings a process still to arrive nearer. */
  ghost predicate Progress(ps0: seq<Process>, ps: seq<Process>, ps': seq<Process>, start: int, time: int) {
    || 0 <= Sum(Remainings(ps')) < Sum(Remainings(ps))
    || (ps' == ps && time == start + 1 <= LastArrival(ps0))
  }

  /** There is something left to do, and nobody has run too long. */
  ghost predicate Unfinished(ps: seq<Process>) {
    Count(Remainings(ps), 0) < |ps| && forall i | 0 <= i < |ps| :: ps[i].remaining >= 0
  }

  lemma PassProgress(ps0: seq<Process>, ps: seq<Process>, ps': seq<Process>, start: int, end: int, pass: seq<Turn>)
    requires SameProcesses(ps0, ps) && PassDone(ps, ps', start, end, pass)
    ensures Unfinished(ps) ==> Progress(ps0, ps, ps', start, end + (if pass == [] then 1 else 0))
  {
    if Unfinished(ps) {
      if pass == [] {
        CountAll(Remainings(ps), 0);
        var i :| 0 <= i < |ps| && Remainings(ps)[i] != 0;
        assert ps[i].remaining > 0;
      } else {
        TurnStart(pass, |ps|, start, |pass| - 1);
        SumNonNegative(Remainings(ps'));
      }
    }
  }

  /** A whole round, pass and tick. */
  lemma RoundDone(log: Log, ps0: seq<Process>, ps: seq<Process>, ps': seq<Process>, start: int, end: int,
                  pass: seq<Turn>)
    requires Logged(log, ps0, ps, start) && PassDone(ps, ps', start, end, pass)
    ensures var time := end + (if pass == [] then 1 else 0);
      && Logged(Extended(log, pass, time, ps'), ps0, ps', time)
      && (Unfinished(ps) ==> Progress(ps0, ps, ps', start, time))
  {
    PassLogged(log, ps0, ps, ps', start, end, pass);
    PassProgress(ps0, ps, ps', start, end, pass);
  }

  lemma AllZero(ps: seq<Process>)
    requires Count(Remainings(ps), 0) >= |ps|
    ensures (forall i | 0 <= i < |ps| :: ps[i].remaining == 0) && Sum(Remainings(ps)) == 0
  {
    CountAll(Remainings(ps), 0);
    SumConstant(Remainings(ps), 0);
    assert forall i | 0 <= i < |ps| :: Remainings(ps)[i] == ps[i].remaining;
  }

  /** One round of the outer loop: a pass, and a tick if nothing ran in it. */
  method RunRound(processes: array<Process>, start: int, ghost ps0: seq<Process>, ghost log: Log)
    returns (currentTime: int, newlyCompleted: int, ghost log': Log)
    requires Logged(log, ps0, processes[..], start)
    modifies processes
    ensures Logged(log', ps0, processes[..], currentTime)
    ensures Count(Remainings(processes[..]), 0) == Count(Remainings(old(processes[..])), 0) + newlyCompleted
    ensures Unfinished(old(processes[..])) ==> Progress(ps0, old(processes[..]), processes[..], start, currentTime)
  {
    ghost var pass;
    var anyExecuted;
    currentTime, newlyCompleted, anyExecuted, pass := RunPass(processes, start);
    RoundDone(log, ps0, old(processes[..]), processes[..], start, currentTime, pass);
    if !anyExecuted {
      currentTime := currentTime + 1;
    }
    log' := Extended(log, pass, currentTime, processes[..]);
  }

  lemma NothingLogged(ps: seq<Process>)
    ensures Logged(Log([], [0], [ps]), ps, ps, 0)
  {
  }

  /** A finished process among `n`: its metrics add up, and it has waited at most one quantum of every other
      process for each of the turns that its burst takes. */
  ghost predicate Served(p: Process, time: int, n: nat) {
    && p.completion == p.arrival + p.burst + p.waiting && p.turnaround == p.burst + p.waiting
    && p.waiting >= 0 && p.completion <= time
    && p.completion <= From(p) + p.burst + TurnsFor(p.burst) * ((n - 1) * TIME_QUANTUM)
  }

  lemma AllServed(ps: seq<Process>, time: int)
    requires Timely(ps, time, 0) && forall i | 0 <= i < |ps| :: ps[i].remaining == 0
    ensures forall i | 0 <= i < |ps| :: Served(ps[i], time, |ps|)
  {
    forall i | 0 <= i < |ps| ensures Served(ps[i], time, |ps|) {
      assert Accounted(ps[i], time) && InTime(ps[i], time, Slack(|ps|, 0, i), |ps|);
      BudgetIsProduct(TurnsFor(ps[i].burst), |ps|);
    }
  }

  /** `round_robin_schedule`, from processes that all have time remaining.  It ends, at the total of the
      remaining times plus the idle ticks; and if the remaining times are the bursts, every process is served. */
  method RoundRobinSchedule(processes: array<Process>) returns (currentTime: int, ghost log: Log)
    requires forall i | 0 <= i < processes.Length :: processes[i].remaining > 0
    modifies processes
    ensures Logged(log, old(processes[..]), processes[..], currentTime)
    ensures forall i | 0 <= i < processes.Length :: processes[i].remaining == 0
    ensures currentTime == Sum(Remainings(old(processes[..]))) + IdleTicks(log.passes)
    ensures forall i | 0 <= i < processes.Length :: FinishesOnce(log.passes, i, processes[i].completion)
    ensures Remainings(old(processes[..])) == Bursts(old(processes[..])) ==>
      forall i | 0 <= i < processes.Length :: Served(processes[i], currentTime, processes.Length)
  {
    ghost var ps0, ps := processes[..], processes[..];
    currentTime := 0;
    log := Log([], [0], [ps0]);
    NothingLogged(ps0);
    var completed := 0;
    CountOccurs(Remainings(ps), 0);
    while completed < processes.Length
      invariant ps == processes[..] && Logged(log, ps0, ps, currentTime)
      invariant completed == Count(Remainings(ps), 0)
      decreases Sum(Remainings(ps)), LastArrival(ps0) - currentTime
    {
      var newlyCompleted;
      currentTime, newlyCompleted, log := RunRound(processes, currentTime, ps0, log);
      completed := completed + newlyCompleted;
      ps := processes[..];
    }
    AllZero(ps);
    FreshTimely(ps0);
    if Remainings(ps0) == Bursts(ps0) { AllServed(ps, currentTime); }
  }

  /** A process that starts with no time remaining is never counted as completed. */
  lemma OneIsNeverCounted(ps0: seq<Process>, ps: seq<Process>, i: nat)
    requires Worked(ps0, ps) && i < |ps0| && ps0[i].remaining <= 0
    ensures Count(Remainings(ps), 0) - Count(Remainings(ps0), 0) < |ps0|
  {
    UnchangedIsNotCounted(Remainings(ps0), Remainings(ps), i, 0);
  }

  /** `rounds` rounds of the outer loop, from a table with a process that has no time remaining: the loop
      is not over after any number of them.  With the method above, the loop ends exactly from the tables
      in which every process has time remaining. */
  method RunRounds(processes: array<Process>, rounds: nat, ghost idle: nat) returns (currentTime: int, completed: int)
    requires idle < processes.Length && processes[idle].remaining <= 0
    modifies processes
    ensures completed < processes.Length
  {
    ghost var ps0, ps := processes[..], processes[..];
    ghost var log := Log([], [0], [ps0]);
    NothingLogged(ps0);
    currentTime, completed := 0, 0;
    OneIsNeverCounted(ps0, ps, idle);
    for round := 0 to rounds
      invariant ps == processes[..] && Logged(log, ps0, ps, currentTime)
      invariant completed == Count(Remainings(ps), 0) - Count(Remainings(ps0), 0) < processes.Length
    {
      var newlyCompleted;
      currentTime, newlyCompleted, log := RunRound(processes, currentTime, ps0, log);
      completed := completed + newlyCompleted;
      ps := processes[..];
      OneIsNeverCounted(ps0, ps, idle);
    }
  }
}
