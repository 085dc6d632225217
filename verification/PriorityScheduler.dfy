/** Priority scheduling with aging: os/process/scheduler/priority_scheduling.c.

    Every tick all unfinished processes age, and five ticks of age raise the priority by one.  The
    theorem is exactly when aging changes nothing, so that the schedule is that of plain priorities:
    every process runs to completion once it has started, and ties go to the lower index.  The
    condition is one on the starting table, and equal ages meet it.
 */
module PriorityScheduler {
  import opened Counting

  const AGE_THRESHOLD := 5

  datatype Process = Process(pid: int, priority: int, age: int, burst: int, remaining: int)

  // ---------------------------------------------------------------------------------------------
  // One tick
  // ---------------------------------------------------------------------------------------------

  function Aged(p: Process): Process {
    if p.remaining <= 0 then p
    else if p.age + 1 >= AGE_THRESHOLD then p.(priority := p.priority + 1, age := 0)
    else p.(age := p.age + 1)
  }

  /** Aging counts in units of a fifth of a priority, and only for who is not finished. */
  lemma AgingExact(p: Process)
    ensures p.remaining <= 0 ==> Aged(p) == p
    ensures p.remaining > 0 && 0 <= p.age < 5 ==>
      var q := Aged(p);
      0 <= q.age < 5 && 5 * q.priority + q.age == 5 * p.priority + p.age + 1
      && q == p.(priority := q.priority, age := q.age)
  {
  }

  function AgeAll(ps: seq<Process>): (r: seq<Process>)
    ensures |r| == |ps| && forall i | 0 <= i < |ps| :: r[i] == Aged(ps[i])
  {
    seq(|ps|, i requires 0 <= i < |ps| => Aged(ps[i]))
  }

  /** Process `i` is an unfinished one of highest priority, and the first such. */
  ghost predicate IsFirstHighest(priority: seq<int>, remaining: seq<int>, n: nat, i: int)
    requires n <= |priority| == |remaining|
  {
    if i == -1 then forall j | 0 <= j < n :: remaining[j] <= 0
    else
      && 0 <= i < n && remaining[i] > 0
      && (forall j | 0 <= j < n && remaining[j] > 0 :: priority[j] <= priority[i])
      && (forall j | 0 <= j < i && remaining[j] > 0 :: priority[j] < priority[i])
  }

  /** The scan of `get_highest_priority_process` over the first `n` processes; -1 when all are finished. */
  function Highest(priority: seq<int>, remaining: seq<int>, n: nat): (i: int)
    requires n <= |priority| == |remaining|
    ensures IsFirstHighest(priority, remaining, n, i)
  {
    if n == 0 then -1 else
      var i := Highest(priority, remaining, n - 1);
      if remaining[n - 1] > 0 && (i == -1 || priority[n - 1] > priority[i]) then n - 1 else i
  }

  function Priorities(ps: seq<Process>): (r: seq<int>)
    ensures |r| == |ps| && forall i | 0 <= i < |ps| :: r[i] == ps[i].priority
  {
    seq(|ps|, i requires 0 <= i < |ps| => ps[i].priority)
  }

  function Remainings(ps: seq<Process>): (r: seq<int>)
    ensures |r| == |ps| && forall i | 0 <= i < |ps| :: r[i] == ps[i].remaining
  {
    seq(|ps|, i requires 0 <= i < |ps| => ps[i].remaining)
  }

  function Run(ps: seq<Process>, i: nat): seq<Process>
    requires i < |ps|
  {
    ps[i := ps[i].(remaining := ps[i].remaining - 1)]
  }

  function Choice(ps: seq<Process>): (i: int)
    ensures IsFirstHighest(Priorities(ps), Remainings(ps), |ps|, i)
  {
    Highest(Priorities(ps), Remainings(ps), |ps|)
  }

  lemma AgingKeepsRemaining(ps: seq<Process>)
    ensures Remainings(AgeAll(ps)) == Remainings(ps)
  {
  }

  lemma RunRemaining(ps: seq<Process>, i: nat)
    requires i < |ps|
    ensures Remainings(Run(ps, i)) == Remainings(ps)[i := ps[i].remaining - 1]
    ensures Sum(Remainings(Run(ps, i))) == Sum(Remainings(ps)) - 1
  {
    SumUpdate(Remainings(ps), i, ps[i].remaining - 1);
  }

  ghost predicate NonNegative(s: seq<int>) { forall i | 0 <= i < |s| :: s[i] >= 0 }

  // ---------------------------------------------------------------------------------------------
  // Whole schedules
  // ---------------------------------------------------------------------------------------------

  /** Who runs at each tick, with aging. */
  ghost function Schedule(ps: seq<Process>): seq<int>
    requires NonNegative(Remainings(ps))
    decreases Sum(Remainings(ps))
  {
    var aged := AgeAll(ps);
    var i := Choice(aged);
    AgingKeepsRemaining(ps);
    if i == -1 then [] else
      RunRemaining(aged, i);
      SumNonNegative(Remainings(ps));
      [i] + Schedule(Run(aged, i))
  }

  /** Who runs at each tick, with fixed priorities. */
  ghost function PlainSchedule(priority: seq<int>, remaining: seq<int>): seq<int>
    requires |priority| == |remaining| && NonNegative(remaining)
    decreases Sum(remaining)
  {
    var i := Highest(priority, remaining, |priority|);
    if i == -1 then [] else
      SumUpdate(remaining, i, remaining[i] - 1);
      SumNonNegative(remaining);
      [i] + PlainSchedule(priority, remaining[i := remaining[i] - 1])
  }

  /** The schedule is the process of the next tick, followed by the schedule of what is left. */
  lemma ScheduleUnfolds(ps: seq<Process>)
    requires NonNegative(Remainings(ps)) && Choice(AgeAll(ps)) >= 0
    ensures var i := Choice(AgeAll(ps)); var ps' := Run(AgeAll(ps), i);
      NonNegative(Remainings(ps')) && Schedule(ps) == [i] + Schedule(ps')
  {
    AgingKeepsRemaining(ps);
    RunRemaining(AgeAll(ps), Choice(AgeAll(ps)));
  }

  lemma PlainUnfolds(priority: seq<int>, remaining: seq<int>)
    requires |priority| == |remaining| && NonNegative(remaining)
    ensures var i := Highest(priority, remaining, |priority|);
      if i == -1 then PlainSchedule(priority, remaining) == []
      else
        && NonNegative(remaining[i := remaining[i] - 1])
        && PlainSchedule(priority, remaining) == [i] + PlainSchedule(priority, remaining[i := remaining[i] - 1])
  {
  }

  // ---------------------------------------------------------------------------------------------
  // The shape of a schedule
  // ---------------------------------------------------------------------------------------------

  /** Higher priority first, then lower index. */
  predicate Before(priority: seq<int>, i: nat, j: nat)
    requires i < |priority| && j < |priority|
  {
    priority[i] > priority[j] || (priority[i] == priority[j] && i < j)
  }

  /** Only unfinished processes run. */
  lemma {:induction false} OnlyUnfinishedRun(priority: seq<int>, remaining: seq<int>)
    requires |priority| == |remaining| && NonNegative(remaining)
    ensures forall x | 0 <= x < |PlainSchedule(priority, remaining)| ::
      0 <= PlainSchedule(priority, remaining)[x] < |priority| && remaining[PlainSchedule(priority, remaining)[x]] > 0
    decreases Sum(remaining)
  {
    var i := Highest(priority, remaining, |priority|);
    if i != -1 {
      SumUpdate(remaining, i, remaining[i] - 1);
      SumNonNegative(remaining);
      OnlyUnfinishedRun(priority, remaining[i := remaining[i] - 1]);
    }
  }

  /** The processes run one after the other, in priority order: whoever runs earlier comes before
      whoever runs later, or is the same. */
  ghost predicate RunsInOrder(priority: seq<int>, schedule: seq<int>) {
    && (forall x | 0 <= x < |schedule| :: 0 <= schedule[x] < |priority|)
    && (forall x, y | 0 <= x < y < |schedule| ::
          schedule[x] == schedule[y] || Before(priority, schedule[x], schedule[y]))
  }

  lemma {:induction false} PlainRunsInOrder(priority: seq<int>, remaining: seq<int>)
    requires |priority| == |remaining| && NonNegative(remaining)
    ensures RunsInOrder(priority, PlainSchedule(priority, remaining))
    decreases Sum(remaining)
  {
    var i := Highest(priority, remaining, |priority|);
    if i != -1 {
      SumUpdate(remaining, i, remaining[i] - 1);
      SumNonNegative(remaining);
      var rest := PlainSchedule(priority, remaining[i := remaining[i] - 1]);
      PlainRunsInOrder(priority, remaining[i := remaining[i] - 1]);
      OnlyUnfinishedRun(priority, remaining[i := remaining[i] - 1]);
      forall y | 0 <= y < |rest| ensures rest[y] == i || Before(priority, i, rest[y]) {
        assert remaining[rest[y]] > 0;
      }
      FirstThenRest(priority, i, rest);
    }
  }

  lemma FirstThenRest(priority: seq<int>, i: nat, rest: seq<int>)
    requires i < |priority| && RunsInOrder(priority, rest)
    requires forall y | 0 <= y < |rest| :: rest[y] == i || Before(priority, i, rest[y])
    ensures RunsInOrder(priority, [i] + rest)
  {
  }

  /** Every process gets exactly the time it needs. */
  lemma {:induction false} PlainGivesEachItsTime(priority: seq<int>, remaining: seq<int>, p: nat)
    requires |priority| == |remaining| && NonNegative(remaining) && p < |remaining|
    ensures Count(PlainSchedule(priority, remaining), p) == remaining[p]
    ensures |PlainSchedule(priority, remaining)| == Sum(remaining)
    decreases Sum(remaining)
  {
    var i := Highest(priority, remaining, |priority|);
    if i == -1 {
      SumConstant(remaining, 0);
    } else {
      SumUpdate(remaining, i, remaining[i] - 1);
      SumNonNegative(remaining);
      PlainGivesEachItsTime(priority, remaining[i := remaining[i] - 1], p);
      var rest := PlainSchedule(priority, remaining[i := remaining[i] - 1]);
      assert ([i] + rest)[1..] == rest;
    }
  }

  // ---------------------------------------------------------------------------------------------
  // When aging changes nothing
  // ---------------------------------------------------------------------------------------------

  /** The age after `t` agings. */
  function AgeAt(age: int, t: nat): int {
    if t == 0 then age else if AgeAt(age, t - 1) + 1 >= AGE_THRESHOLD then 0 else AgeAt(age, t - 1) + 1
  }

  /** What a process gains in priority in `t` agings. */
  function Gain(age: int, t: nat): nat {
    if t == 0 then 0 else Gain(age, t - 1) + (if AgeAt(age, t - 1) + 1 >= AGE_THRESHOLD then 1 else 0)
  }

  lemma {:induction false} GainClosedForm(age: nat, t: nat)
    requires age < AGE_THRESHOLD
    ensures Gain(age, t) == (age + t) / AGE_THRESHOLD && AgeAt(age, t) == (age + t) % AGE_THRESHOLD
  {
    if t > 0 { GainClosedForm(age, t - 1); }
  }

  /** After `t` agings process `i` is chosen rather than `j`. */
  predicate Leads(priority: seq<int>, ages: seq<int>, i: nat, j: nat, t: nat)
    requires i < |priority| == |ages| && j < |priority|
  {
    var x, y := priority[i] + Gain(ages[i], t), priority[j] + Gain(ages[j], t);
    x > y || (x == y && i < j)
  }

  /** The remaining times of the processes before process `i`; the others do not count. */
  function Shares(priority: seq<int>, remaining: seq<int>, i: nat): (shares: seq<int>)
    requires i < |priority| == |remaining|
    ensures |shares| == |remaining|
    ensures forall k | 0 <= k < |shares| :: shares[k] == if Before(priority, k, i) then remaining[k] else 0
  {
    seq(|remaining|, k requires 0 <= k < |remaining| => if Before(priority, k, i) then remaining[k] else 0)
  }

  /** How long process `i` waits if the processes before it run first. */
  function Ahead(priority: seq<int>, remaining: seq<int>, i: nat): int
    requires i < |priority| == |remaining|
  {
    Sum(Shares(priority, remaining, i))
  }

  /** Every process, during its own time, leads all that come after it.  `t` agings have gone by. */
  ghost predicate StaysInOrder(priority: seq<int>, ages: seq<int>, remaining: seq<int>, t: nat)
    requires |priority| == |ages| == |remaining|
  {
    forall i: nat, j: nat, u: nat |
      && i < |priority| && j < |priority| && remaining[i] > 0 && remaining[j] > 0 && Before(priority, i, j)
      && t + Ahead(priority, remaining, i) < u <= t + Ahead(priority, remaining, i) + remaining[i] ::
      Leads(priority, ages, i, j, u)
  }

  /** The table after `t` agings: unfinished processes have gained and aged accordingly. */
  ghost predicate AgedBy(ps: seq<Process>, priority: seq<int>, ages: seq<int>, t: nat) {
    && |ps| == |priority| == |ages|
    && forall i | 0 <= i < |ps| && ps[i].remaining > 0 ::
         ps[i].priority == priority[i] + Gain(ages[i], t) && ps[i].age == AgeAt(ages[i], t)
  }

  lemma AgingAges(ps: seq<Process>, priority: seq<int>, ages: seq<int>, t: nat)
    requires AgedBy(ps, priority, ages, t)
    ensures AgedBy(AgeAll(ps), priority, ages, t + 1)
  {
  }

  /** Nobody unfinished is before the first choice, everybody else unfinished is behind it. */
  lemma FirstHasNoneAhead(priority: seq<int>, remaining: seq<int>, h: nat)
    requires |priority| == |remaining| && NonNegative(remaining) && h < |remaining|
    requires h == Highest(priority, remaining, |priority|)
    ensures Ahead(priority, remaining, h) == 0
    ensures forall j: nat | j < |remaining| && remaining[j] > 0 && j != h :: Before(priority, h, j)
  {
    assert IsFirstHighest(priority, remaining, |priority|, h);
    SumConstant(Shares(priority, remaining, h), 0);
  }

  /** When the first choice has run for a tick, everybody else has one tick less to wait. */
  lemma AheadAfterTick(priority: seq<int>, remaining: seq<int>, h: nat, i: nat)
    requires |priority| == |remaining| && h < |remaining| && i < |remaining|
    ensures Ahead(priority, remaining[h := remaining[h] - 1], i)
      == Ahead(priority, remaining, i) - (if Before(priority, h, i) then 1 else 0)
  {
    var shares := Shares(priority, remaining, i);
    if Before(priority, h, i) {
      assert Shares(priority, remaining[h := remaining[h] - 1], i) == shares[h := shares[h] - 1];
      SumUpdate(shares, h, shares[h] - 1);
    } else {
      assert Shares(priority, remaining[h := remaining[h] - 1], i) == shares;
    }
  }

  /** The process that leads all other unfinished ones after `t` agings. */
  ghost predicate LeadsAll(priority: seq<int>, ages: seq<int>, remaining: seq<int>, h: nat, t: nat)
    requires h < |priority| == |ages| == |remaining|
  {
    forall j: nat | j < |priority| && remaining[j] > 0 && j != h :: Leads(priority, ages, h, j, t)
  }

  /** The choice is the process that leads. */
  lemma ChoiceLeads(ps: seq<Process>, priority: seq<int>, ages: seq<int>, t: nat, h: nat)
    requires AgedBy(ps, priority, ages, t) && h < |ps| && ps[h].remaining > 0
    ensures Choice(ps) == h <==> LeadsAll(priority, ages, Remainings(ps), h, t)
  {
    var c := Choice(ps);
    assert IsFirstHighest(Priorities(ps), Remainings(ps), |ps|, c);
    assert Remainings(ps)[h] > 0;
    if c != h {
      assert ps[c].remaining > 0 && !Leads(priority, ages, h, c, t);
    }
  }

  /** The condition for the whole run is that the first choice leads now, and the condition for the rest. */
  lemma InOrderUnfolds(priority: seq<int>, ages: seq<int>, remaining: seq<int>, t: nat, h: nat)
    requires |priority| == |ages| == |remaining| && NonNegative(remaining) && h < |remaining|
    requires h == Highest(priority, remaining, |priority|)
    ensures StaysInOrder(priority, ages, remaining, t) <==>
      && LeadsAll(priority, ages, remaining, h, t + 1)
      && StaysInOrder(priority, ages, remaining[h := remaining[h] - 1], t + 1)
  {
    FirstHasNoneAhead(priority, remaining, h);
    if StaysInOrder(priority, ages, remaining, t) {
      InOrderSplits(priority, ages, remaining, t, h);
    }
    if LeadsAll(priority, ages, remaining, h, t + 1)
      && StaysInOrder(priority, ages, remaining[h := remaining[h] - 1], t + 1) {
      InOrderJoins(priority, ages, remaining, t, h);
    }
  }

  lemma InOrderSplits(priority: seq<int>, ages: seq<int>, remaining: seq<int>, t: nat, h: nat)
    requires |priority| == |ages| == |remaining| && NonNegative(remaining) && h < |remaining|
    requires h == Highest(priority, remaining, |priority|) && StaysInOrder(priority, ages, remaining, t)
    ensures LeadsAll(priority, ages, remaining, h, t + 1)
    ensures StaysInOrder(priority, ages, remaining[h := remaining[h] - 1], t + 1)
  {
    FirstHasNoneAhead(priority, remaining, h);
    var rest := remaining[h := remaining[h] - 1];
    forall i: nat, j: nat, u: nat |
      && i < |priority| && j < |priority| && rest[i] > 0 && rest[j] > 0 && Before(priority, i, j)
      && t + 1 + Ahead(priority, rest, i) < u <= t + 1 + Ahead(priority, rest, i) + rest[i]
      ensures Leads(priority, ages, i, j, u)
    {
      AheadAfterTick(priority, remaining, h, i);
    }
  }

  lemma InOrderJoins(priority: seq<int>, ages: seq<int>, remaining: seq<int>, t: nat, h: nat)
    requires |priority| == |ages| == |remaining| && NonNegative(remaining) && h < |remaining|
    requires h == Highest(priority, remaining, |priority|) && LeadsAll(priority, ages, remaining, h, t + 1)
    requires StaysInOrder(priority, ages, remaining[h := remaining[h] - 1], t + 1)
    ensures StaysInOrder(priority, ages, remaining, t)
  {
    FirstHasNoneAhead(priority, remaining, h);
    var rest := remaining[h := remaining[h] - 1];
    forall i: nat, j: nat, u: nat |
      && i < |priority| && j < |priority| && remaining[i] > 0 && remaining[j] > 0 && Before(priority, i, j)
      && t + Ahead(priority, remaining, i) < u <= t + Ahead(priority, remaining, i) + remaining[i]
      ensures Leads(priority, ages, i, j, u)
    {
      AheadAfterTick(priority, remaining, h, i);
      assert j != h;
      if i != h || u > t + 1 { assert rest[i] > 0 && rest[j] > 0; }
    }
  }

  /** Who is chosen in the next round, and the table after it if that is the first choice. */
  lemma NextChoice(ps: seq<Process>, priority: seq<int>, ages: seq<int>, t: nat, h: nat)
    requires AgedBy(ps, priority, ages, t) && h < |ps| && ps[h].remaining > 0
    ensures Choice(AgeAll(ps)) >= 0
    ensures Choice(AgeAll(ps)) == h <==> LeadsAll(priority, ages, Remainings(ps), h, t + 1)
    ensures AgedBy(Run(AgeAll(ps), h), priority, ages, t + 1)
    ensures Remainings(Run(AgeAll(ps), h)) == Remainings(ps)[h := ps[h].remaining - 1]
  {
    var aged := AgeAll(ps);
    AgingAges(ps, priority, ages, t);
    AgingKeepsRemaining(ps);
    ChoiceLeads(aged, priority, ages, t + 1, h);
    assert IsFirstHighest(Priorities(aged), Remainings(aged), |ps|, Choice(aged));
    assert Remainings(aged)[h] > 0;
    RunRemaining(aged, h);
  }

  lemma ScheduleHead(ps: seq<Process>)
    requires NonNegative(Remainings(ps)) && Choice(AgeAll(ps)) >= 0
    ensures var c := Choice(AgeAll(ps)); var ps' := Run(AgeAll(ps), c);
      NonNegative(Remainings(ps')) && Schedule(ps) != [] && Schedule(ps)[0] == c && Schedule(ps)[1..] == Schedule(ps')
  {
    ScheduleUnfolds(ps);
  }

  lemma PlainHead(priority: seq<int>, remaining: seq<int>, h: nat)
    requires |priority| == |remaining| && NonNegative(remaining) && h < |remaining|
    requires h == Highest(priority, remaining, |priority|)
    ensures var plain, rest := PlainSchedule(priority, remaining), remaining[h := remaining[h] - 1];
      NonNegative(rest) && plain != [] && plain[0] == h && plain[1..] == PlainSchedule(priority, rest)
  {
    PlainUnfolds(priority, remaining);
  }

  lemma SameHeadAndTail(a: seq<int>, b: seq<int>)
    requires a != [] && b != []
    ensures a == b <==> a[0] == b[0] && a[1..] == b[1..]
  {
    assert a == [a[0]] + a[1..] && b == [b[0]] + b[1..];
  }

  /** The schedules agree if they agree on the next tick and on the rest. */
  lemma AgreeTickByTick(ps: seq<Process>, priority: seq<int>, h: nat)
    requires |ps| == |priority| && NonNegative(Remainings(ps)) && h < |ps|
    requires h == Highest(priority, Remainings(ps), |priority|) && Choice(AgeAll(ps)) >= 0
    requires Remainings(Run(AgeAll(ps), h)) == Remainings(ps)[h := ps[h].remaining - 1]
    ensures NonNegative(Remainings(Run(AgeAll(ps), h)))
    ensures Schedule(ps) == PlainSchedule(priority, Remainings(ps)) <==>
      && Choice(AgeAll(ps)) == h
      && Schedule(Run(AgeAll(ps), h)) == PlainSchedule(priority, Remainings(Run(AgeAll(ps), h)))
  {
    ScheduleHead(ps);
    PlainHead(priority, Remainings(ps), h);
    SameHeadAndTail(Schedule(ps), PlainSchedule(priority, Remainings(ps)));
  }

  /** From a table aged by `t`, aging changes nothing if and only if everybody stays in order. */
  lemma {:induction false} AgedScheduleIsPlainIff(ps: seq<Process>, priority: seq<int>, ages: seq<int>, t: nat)
    requires AgedBy(ps, priority, ages, t) && NonNegative(Remainings(ps))
    ensures Schedule(ps) == PlainSchedule(priority, Remainings(ps)) <==> StaysInOrder(priority, ages, Remainings(ps), t)
    decreases Sum(Remainings(ps))
  {
    var h := Highest(priority, Remainings(ps), |priority|);
    assert IsFirstHighest(priority, Remainings(ps), |priority|, h);
    if h == -1 {
      NobodyRuns(ps, priority);
    } else {
      assert ps[h].remaining == Remainings(ps)[h] > 0;
      NextChoice(ps, priority, ages, t, h);
      InOrderUnfolds(priority, ages, Remainings(ps), t, h);
      AgreeTickByTick(ps, priority, h);
      SumUpdate(Remainings(ps), h, ps[h].remaining - 1);
      SumNonNegative(Remainings(Run(AgeAll(ps), h)));
      AgedScheduleIsPlainIff(Run(AgeAll(ps), h), priority, ages, t + 1);
    }
  }

  lemma NobodyRuns(ps: seq<Process>, priority: seq<int>)
    requires |ps| == |priority| && NonNegative(Remainings(ps)) && Highest(priority, Remainings(ps), |priority|) == -1
    ensures Schedule(ps) == [] == PlainSchedule(priority, Remainings(ps))
  {
    assert IsFirstHighest(priority, Remainings(ps), |priority|, -1);
    assert forall i | 0 <= i < |ps| :: Remainings(ps)[i] == ps[i].remaining;
    NobodyToChoose(AgeAll(ps));
  }

  function Ages(ps: seq<Process>): (r: seq<int>)
    ensures |r| == |ps| && forall i | 0 <= i < |ps| :: r[i] == ps[i].age
  {
    seq(|ps|, i requires 0 <= i < |ps| => ps[i].age)
  }

  /** Aging changes nothing if and only if, in the starting table, every process leads all that come after
      it at each tick of its own time. */
  lemma AgingScheduleIsPlainIff(ps: seq<Process>)
    requires NonNegative(Remainings(ps))
    ensures Schedule(ps) == PlainSchedule(Priorities(ps), Remainings(ps))
      <==> StaysInOrder(Priorities(ps), Ages(ps), Remainings(ps), 0)
  {
    AgedScheduleIsPlainIff(ps, Priorities(ps), Ages(ps), 0);
  }

  ghost predicate EqualAges(ps: seq<Process>) {
    forall i, j | 0 <= i < |ps| && 0 <= j < |ps| && ps[i].remaining > 0 && ps[j].remaining > 0 :: ps[i].age == ps[j].age
  }

  /** From equal ages the aging scheduler is non-preemptive and serves by initial priority, ties by
      index; every process gets its time, and the run takes the total time. */
  lemma AgingScheduleIsPlain(ps: seq<Process>)
    requires EqualAges(ps) && NonNegative(Remainings(ps))
    ensures Schedule(ps) == PlainSchedule(Priorities(ps), Remainings(ps))
    ensures RunsInOrder(Priorities(ps), Schedule(ps))
    ensures forall p | 0 <= p < |ps| :: Count(Schedule(ps), p) == ps[p].remaining
    ensures |Schedule(ps)| == Sum(Remainings(ps))
  {
    EqualAgesStayInOrder(ps);
    AgingScheduleIsPlainIff(ps);
    PlainRunsInOrder(Priorities(ps), Remainings(ps));
    forall p | 0 <= p < |ps| ensures Count(Schedule(ps), p) == ps[p].remaining {
      PlainGivesEachItsTime(Priorities(ps), Remainings(ps), p);
    }
    if ps == [] {
      assert Schedule(ps) == [];
    } else {
      PlainGivesEachItsTime(Priorities(ps), Remainings(ps), 0);
    }
  }

  lemma EqualAgesStayInOrder(ps: seq<Process>)
    requires EqualAges(ps)
    ensures StaysInOrder(Priorities(ps), Ages(ps), Remainings(ps), 0)
  {
    var priority, ages, remaining := Priorities(ps), Ages(ps), Remainings(ps);
    forall i: nat, j: nat, u: nat |
      && i < |priority| && j < |priority| && remaining[i] > 0 && remaining[j] > 0 && Before(priority, i, j)
      && 0 + Ahead(priority, remaining, i) < u <= 0 + Ahead(priority, remaining, i) + remaining[i]
      ensures Leads(priority, ages, i, j, u)
    {
      assert ps[i].age == ps[j].age;
    }
  }

  /** Ages can change the order: an older process of equal priority overtakes a lower index. */
  lemma UnequalAgesMatter(p: Process, q: Process)
    requires p.priority == q.priority && p.remaining > 0 && q.remaining > 0 && p.age + 1 < AGE_THRESHOLD == q.age + 1
    ensures NonNegative(Remainings([p, q]))
    ensures Schedule([p, q])[0] == 1 && PlainSchedule(Priorities([p, q]), Remainings([p, q]))[0] == 0
  {
    var ps := [p, q];
    var aged := AgeAll(ps);
    assert aged[0].priority == p.priority && aged[1].priority == p.priority + 1;
    assert IsFirstHighest(Priorities(aged), Remainings(aged), 2, Choice(aged));
    assert IsFirstHighest(Priorities(ps), Remainings(ps), 2, Highest(Priorities(ps), Remainings(ps), 2));
    assert Remainings(aged)[1] > 0 && Remainings(ps)[0] > 0;
    assert Choice(aged) == 1 && Highest(Priorities(ps), Remainings(ps), 2) == 0;
  }

  // ---------------------------------------------------------------------------------------------
  // The scheduler
  // ---------------------------------------------------------------------------------------------

  method AgeProcesses(processes: array<Process>)
    modifies processes
    ensures processes[..] == AgeAll(old(processes[..]))
  {
    for i := 0 to processes.Length
      invariant forall j | 0 <= j < i :: processes[j] == Aged(old(processes[j]))
      invariant forall j | i <= j < processes.Length :: processes[j] == old(processes[j])
    {
      if processes[i].remaining > 0 {
        processes[i] := processes[i].(age := processes[i].age + 1);
        if processes[i].age >= AGE_THRESHOLD {
          processes[i] := processes[i].(priority := processes[i].priority + 1, age := 0);
        }
      }
    }
  }

  method GetHighestPriorityProcess(processes: array<Process>) returns (selected: int)
    ensures selected == Choice(processes[..])
  {
    var highestPriority := -1;
    selected := -1;
    ghost var priority, remaining := Priorities(processes[..]), Remainings(processes[..]);
    for i := 0 to processes.Length
      invariant selected == Highest(priority, remaining, i)
      invariant selected != -1 ==> highestPriority == priority[selected]
    {
      if processes[i].remaining > 0 {
        if selected == -1 || processes[i].priority > highestPriority {
          highestPriority := processes[i].priority;
          selected := i;
        }
      }
    }
  }

  /** The table after one round of the loop: aged, and one unit of work done unless everybody is finished. */
  function AfterTick(ps: seq<Process>): seq<Process> {
    var i := Choice(AgeAll(ps));
    if i == -1 then AgeAll(ps) else Run(AgeAll(ps), i)
  }

  /** A round counts the process that it completes, and leaves finished processes as they are. */
  lemma TickCounts(ps: seq<Process>)
    ensures var i := Choice(AgeAll(ps)); var ps' := AfterTick(ps);
      && Count(Remainings(ps'), 0) == Count(Remainings(ps), 0) + (if i != -1 && ps'[i].remaining == 0 then 1 else 0)
      && (forall j | 0 <= j < |ps| && ps[j].remaining <= 0 :: ps'[j].remaining == ps[j].remaining)
  {
    var aged := AgeAll(ps);
    AgingKeepsRemaining(ps);
    var i := Choice(aged);
    if i != -1 {
      RunRemaining(aged, i);
      CountUpdate(Remainings(ps), i, aged[i].remaining - 1, 0);
    }
  }

  /** While a process is unfinished, a tick finds one, and takes one unit off the work. */
  lemma TickWorks(ps: seq<Process>)
    requires NonNegative(Remainings(ps)) && Count(Remainings(ps), 0) < |ps|
    ensures var i := Choice(AgeAll(ps)); i >= 0 && var ps' := Run(AgeAll(ps), i);
      && NonNegative(Remainings(ps'))
      && 0 <= Sum(Remainings(ps')) < Sum(Remainings(ps))
      && Count(Remainings(ps'), 0) == Count(Remainings(ps), 0) + (if ps'[i].remaining == 0 then 1 else 0)
  {
    CountAll(Remainings(ps), 0);
    AgingKeepsRemaining(ps);
    var aged := AgeAll(ps);
    var i := Choice(aged);
    RunRemaining(aged, i);
    CountUpdate(Remainings(ps), i, aged[i].remaining - 1, 0);
    SumNonNegative(Remainings(Run(aged, i)));
  }

  /** One round of the loop: age, select, run for one unit. */
  method Tick(processes: array<Process>) returns (current: int)
    modifies processes
    ensures current == Choice(AgeAll(old(processes[..]))) && processes[..] == AfterTick(old(processes[..]))
  {
    AgeProcesses(processes);
    current := GetHighestPriorityProcess(processes);
    if current == -1 {
      return;
    }
    processes[current] := processes[current].(remaining := processes[current].remaining - 1);
  }

  /** What has run so far, and what will run from here, make up the schedule. */
  ghost predicate Scheduled(ps0: seq<Process>, ps: seq<Process>, schedule: seq<int>) {
    && NonNegative(Remainings(ps0)) && NonNegative(Remainings(ps))
    && Schedule(ps0) == schedule + Schedule(ps)
  }

  lemma ScheduledStep(ps0: seq<Process>, ps: seq<Process>, schedule: seq<int>)
    requires Scheduled(ps0, ps, schedule) && Choice(AgeAll(ps)) >= 0
    ensures var i := Choice(AgeAll(ps)); Scheduled(ps0, Run(AgeAll(ps), i), schedule + [i])
  {
    ScheduleUnfolds(ps);
  }

  /** A round of the loop while a process is unfinished. */
  lemma RoundWorks(ps0: seq<Process>, ps: seq<Process>, schedule: seq<int>)
    requires Scheduled(ps0, ps, schedule) && Count(Remainings(ps), 0) < |ps|
    ensures var i, ps' := Choice(AgeAll(ps)), AfterTick(ps);
      && 0 <= i < |ps'| && Scheduled(ps0, ps', schedule + [i]) && 0 <= Sum(Remainings(ps')) < Sum(Remainings(ps))
      && Count(Remainings(ps'), 0) == Count(Remainings(ps), 0) + (if ps'[i].remaining == 0 then 1 else 0)
  {
    TickWorks(ps);
    ScheduledStep(ps0, ps, schedule);
  }

  /** `priority_schedule_with_aging`, from processes that all have work. */
  method PriorityScheduleWithAging(processes: array<Process>) returns (schedule: seq<int>, currentTime: int)
    requires forall i | 0 <= i < processes.Length :: processes[i].remaining > 0
    modifies processes
    ensures NonNegative(Remainings(old(processes[..]))) && schedule == Schedule(old(processes[..]))
    ensures currentTime == |schedule|
    ensures forall i | 0 <= i < processes.Length :: processes[i].remaining == 0
  {
    schedule, currentTime := [], 0;
    var completed := 0;
    ghost var ps := processes[..];
    CountOccurs(Remainings(ps), 0);
    while completed < processes.Length
      invariant ps == processes[..] && Scheduled(old(processes[..]), ps, schedule)
      invariant completed == Count(Remainings(ps), 0) && currentTime == |schedule|
      decreases Sum(Remainings(ps))
    {
      RoundWorks(old(processes[..]), ps, schedule);
      var current := Tick(processes);
      ps := processes[..];
      currentTime := currentTime + 1;
      schedule := schedule + [current];
      if current != -1 && processes[current].remaining == 0 {
        completed := completed + 1;
      }
    }
    EndOfSchedule(ps);
  }

  /** `ticks` rounds of the loop, from a table with a process that has nothing to do: the loop is not over
      after any number of them.  With the method above, the loop ends exactly from the tables in which
      every process has work. */
  method RunTicks(processes: array<Process>, ticks: nat, ghost idle: nat) returns (currentTime: int, completed: int)
    requires idle < processes.Length && processes[idle].remaining <= 0
    modifies processes
    ensures completed < processes.Length && currentTime == ticks
  {
    ghost var ps0, ps := processes[..], processes[..];
    currentTime, completed := 0, 0;
    for t := 0 to ticks
      invariant ps == processes[..] && currentTime == t && ps[idle].remaining == ps0[idle].remaining
      invariant completed == Count(Remainings(ps), 0) - Count(Remainings(ps0), 0) < processes.Length
    {
      TickCounts(ps);
      var current := Tick(processes);
      ps := processes[..];
      currentTime := currentTime + 1;
      if current != -1 && processes[current].remaining == 0 {
        completed := completed + 1;
      }
      UnchangedIsNotCounted(Remainings(ps0), Remainings(ps), idle, 0);
    }
  }

  lemma EndOfSchedule(ps: seq<Process>)
    requires NonNegative(Remainings(ps)) && Count(Remainings(ps), 0) >= |ps|
    ensures Schedule(ps) == [] && forall i | 0 <= i < |ps| :: ps[i].remaining == 0
  {
    AllFinished(ps);
    NobodyAged(ps);
  }

  lemma NobodyAged(ps: seq<Process>)
    requires forall i | 0 <= i < |ps| :: ps[i].remaining == 0
    ensures Choice(AgeAll(ps)) == -1
  {
    NobodyToChoose(AgeAll(ps));
  }

  lemma AllFinished(ps: seq<Process>)
    requires Count(Remainings(ps), 0) >= |ps|
    ensures forall i | 0 <= i < |ps| :: ps[i].remaining == 0
  {
    CountAll(Remainings(ps), 0);
    forall i | 0 <= i < |ps| ensures ps[i].remaining == 0 {
      assert Remainings(ps)[i] == ps[i].remaining;
    }
  }

  lemma NobodyToChoose(ps: seq<Process>)
    requires forall i | 0 <= i < |ps| :: ps[i].remaining == 0
    ensures Choice(ps) == -1
  {
  }
}
