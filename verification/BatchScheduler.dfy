/** Parallelism-aware batch scheduling: concurrency/scheduling/Parallelism-AwareBatchScheduling.c.

    The scheduler takes requests from the queue in batches, ranks the banks by how many requests of
    the batch they have, and then repeatedly picks one request.  The theorem is that the whole output
    is, batch by batch, a stable sort of the input by (bank rank, row hit first, timestamp).
    The bank count and the batch size are parameters.
 */
module BatchScheduler {
  import opened Common
  import opened RingQueue

  datatype Request = Request(address: int, timestamp: int, bank: nat, rowHit: bool, marked: bool)

  // ---------------------------------------------------------------------------------------------
  // The order of service
  // ---------------------------------------------------------------------------------------------

  function BankCount(batch: seq<Request>, bank: nat): nat {
    if batch == [] then 0
    else BankCount(batch[..|batch| - 1], bank) + (if batch[|batch| - 1].bank == bank then 1 else 0)
  }

  /** The positions of the first `n` requests that go to the bank. */
  ghost function ToBank(batch: seq<Request>, n: nat, bank: nat): set<nat>
    requires n <= |batch|
  {
    set i: nat | i < n && batch[i].bank == bank
  }

  /** The count of a bank is the number of requests to it, hits or not, marked or not. */
  lemma {:induction false} BankCountIsCardinality(batch: seq<Request>, n: nat, bank: nat)
    requires n <= |batch|
    ensures BankCount(batch[..n], bank) == |ToBank(batch, n, bank)|
  {
    if n > 0 {
      BankCountIsCardinality(batch, n - 1, bank);
      assert batch[..n][..n - 1] == batch[..n - 1];
      assert ToBank(batch, n, bank) == ToBank(batch, n - 1, bank) + (if batch[n - 1].bank == bank then {n - 1} else {});
    }
  }

  /** Banks with more requests come first; ties go to the lower bank number. */
  predicate RankedBefore(batch: seq<Request>, a: nat, b: nat) {
    BankCount(batch, a) > BankCount(batch, b) || (BankCount(batch, a) == BankCount(batch, b) && a < b)
  }

  /** Within a bank: row hits first, then by age, then by position in the batch. */
  predicate OlderInBank(batch: seq<Request>, i: nat, j: nat)
    requires i < |batch| && j < |batch|
  {
    if batch[i].rowHit != batch[j].rowHit then batch[i].rowHit
    else batch[i].timestamp < batch[j].timestamp || (batch[i].timestamp == batch[j].timestamp && i < j)
  }

  predicate ServedBefore(batch: seq<Request>, i: nat, j: nat)
    requires i < |batch| && j < |batch|
  {
    if batch[i].bank != batch[j].bank then RankedBefore(batch, batch[i].bank, batch[j].bank)
    else OlderInBank(batch, i, j)
  }

  predicate Positions(order: seq<nat>, n: nat) { forall x | 0 <= x < |order| :: order[x] < n }

  /** Position `i` put in its place in `order`. */
  function Insert(batch: seq<Request>, i: nat, order: seq<nat>): (r: seq<nat>)
    requires i < |batch| && Positions(order, |batch|)
    ensures Positions(r, |batch|)
  {
    if order == [] || ServedBefore(batch, i, order[0]) then [i] + order
    else [order[0]] + Insert(batch, i, order[1..])
  }

  /** The first `n` positions of the batch, sorted by `ServedBefore`. */
  function ServiceOrder(batch: seq<Request>, n: nat): (order: seq<nat>)
    requires n <= |batch|
    ensures Positions(order, |batch|)
  {
    if n == 0 then [] else Insert(batch, n - 1, ServiceOrder(batch, n - 1))
  }

  lemma {:induction false} InsertMembers(batch: seq<Request>, i: nat, order: seq<nat>)
    requires i < |batch| && Positions(order, |batch|)
    ensures |Insert(batch, i, order)| == |order| + 1
    ensures forall p: nat :: p in Insert(batch, i, order) <==> p == i || p in order
  {
    if !(order == [] || ServedBefore(batch, i, order[0])) {
      InsertMembers(batch, i, order[1..]);
      assert order == [order[0]] + order[1..];
    }
  }

  ghost predicate Sorted(batch: seq<Request>, order: seq<nat>)
    requires Positions(order, |batch|)
  {
    forall x, y | 0 <= x < y < |order| :: ServedBefore(batch, order[x], order[y])
  }

  lemma {:induction false} InsertSorted(batch: seq<Request>, i: nat, order: seq<nat>)
    requires i < |batch| && Positions(order, |batch|) && i !in order
    requires Sorted(batch, order)
    ensures Sorted(batch, Insert(batch, i, order))
  {
    InsertMembers(batch, i, order);
    var result := Insert(batch, i, order);
    if order == [] || ServedBefore(batch, i, order[0]) {
      assert forall y | 0 <= y < |order| :: ServedBefore(batch, i, order[y]);
    } else {
      InsertSorted(batch, i, order[1..]);
      InsertMembers(batch, i, order[1..]);
      assert ServedBefore(batch, order[0], i);
      forall y | 0 < y < |result| ensures ServedBefore(batch, order[0], result[y]) {
        assert result[y] == Insert(batch, i, order[1..])[y - 1];
        assert result[y] in Insert(batch, i, order[1..]);
      }
    }
  }

  /** The reference order is a sorted permutation of the batch. */
  lemma {:induction false} ServiceOrderSorts(batch: seq<Request>, n: nat)
    requires n <= |batch|
    ensures var order := ServiceOrder(batch, n);
      |order| == n && (forall p: nat :: p in order <==> p < n) && Sorted(batch, order)
  {
    if n > 0 {
      ServiceOrderSorts(batch, n - 1);
      InsertMembers(batch, n - 1, ServiceOrder(batch, n - 1));
      InsertSorted(batch, n - 1, ServiceOrder(batch, n - 1));
    }
  }

  // ---------------------------------------------------------------------------------------------
  // Ranking the banks
  // ---------------------------------------------------------------------------------------------

  /** `ranking` lists every bank below `|ranking|`, in rank order. */
  ghost predicate IsRanking(batch: seq<Request>, ranking: seq<nat>) {
    && Positions(ranking, |ranking|)
    && (forall b: nat | b < |ranking| :: b in ranking)
    && (forall p, q | 0 <= p < q < |ranking| :: RankedBefore(batch, ranking[p], ranking[q]))
  }

  method CountBanks(batch: array<Request>, batchSize: nat, banks: nat) returns (bankCount: array<nat>)
    requires batchSize <= batch.Length && forall i | 0 <= i < batchSize :: batch[i].bank < banks
    ensures fresh(bankCount) && bankCount.Length == banks
    ensures forall b: nat | b < banks :: bankCount[b] == BankCount(batch[..batchSize], b)
  {
    bankCount := new nat[banks](_ => 0);
    for i := 0 to batchSize
      invariant forall b: nat | b < banks :: bankCount[b] == BankCount(batch[..i], b)
    {
      assert batch[..i + 1][..i] == batch[..i];
      bankCount[batch[i].bank] := bankCount[batch[i].bank] + 1;
    }
  }

  /** `place[b]` is where bank `b` is: every bank is in the ranking. */
  ghost predicate IsPermutation(ranking: seq<nat>, place: seq<nat>) {
    && |place| == |ranking| && Positions(ranking, |ranking|) && Positions(place, |ranking|)
    && (forall b | 0 <= b < |place| :: ranking[place[b]] == b)
  }

  /** Banks with equally many requests are in their original order. */
  ghost predicate Stable(count: seq<nat>, ranking: seq<nat>)
    requires Positions(ranking, |count|)
  {
    forall p, q | 0 <= p < q < |ranking| && count[ranking[p]] == count[ranking[q]] :: ranking[p] < ranking[q]
  }

  /** From `from` on, every bank has at most as many requests as all banks before it. */
  ghost predicate Settled(count: seq<nat>, ranking: seq<nat>, from: int)
    requires Positions(ranking, |count|)
  {
    forall p, q | 0 <= p < q < |ranking| && from <= q :: count[ranking[p]] >= count[ranking[q]]
  }

  function Swapped(r: seq<nat>, j: nat): seq<nat>
    requires j + 1 < |r|
  {
    r[j := r[j + 1]][j + 1 := r[j]]
  }

  lemma SwapPermutes(r: seq<nat>, place: seq<nat>, j: nat)
    requires IsPermutation(r, place) && j + 1 < |r|
    ensures IsPermutation(Swapped(r, j), place[r[j] := j + 1][r[j + 1] := j])
  {
  }

  /** Exchanging two neighbours that are in the wrong order keeps what is settled, and cannot swap equals. */
  lemma SwapKeeps(count: seq<nat>, r: seq<nat>, j: nat, from: nat)
    requires Positions(r, |count|) && j + 1 < |r| && j + 1 < from
    requires Stable(count, r) && Settled(count, r, from) && count[r[j]] < count[r[j + 1]]
    ensures Stable(count, Swapped(r, j)) && Settled(count, Swapped(r, j), from)
  {
  }

  /** The last unsettled bank has been found. */
  lemma PassSettles(count: seq<nat>, r: seq<nat>, from: nat)
    requires Positions(r, |count|) && 0 < from <= |r| && Settled(count, r, from)
    requires forall p | 0 <= p < from - 1 :: count[r[p]] >= count[r[from - 1]]
    ensures Settled(count, r, from - 1)
  {
  }

  ghost predicate Invariant(count: seq<nat>, ranking: seq<nat>, place: seq<nat>, from: int) {
    |count| == |ranking| && IsPermutation(ranking, place) && Stable(count, ranking) && Settled(count, ranking, from)
  }

  /** No bank before position `j` has fewer requests than the one at `j`. */
  ghost predicate LeastAt(count: seq<nat>, ranking: seq<nat>, j: nat)
    requires Positions(ranking, |count|) && j < |ranking|
  {
    forall p | 0 <= p < j :: count[ranking[p]] >= count[ranking[j]]
  }

  lemma SortStarts(count: seq<nat>, ranking: seq<nat>) returns (place: seq<nat>)
    requires |count| == |ranking| && forall b | 0 <= b < |ranking| :: ranking[b] == b
    ensures Invariant(count, ranking, place, |ranking|)
  {
    place := seq(|ranking|, b => b);
  }

  /** Sorted by the number of requests, equal ones in order, the ranking is the one that rank order asks for. */
  lemma SortEnds(batch: seq<Request>, count: seq<nat>, ranking: seq<nat>, place: seq<nat>)
    requires Invariant(count, ranking, place, Min(1, |count|))
    requires forall b: nat | b < |count| :: count[b] == BankCount(batch, b)
    ensures IsRanking(batch, ranking)
  {
    forall b: nat | b < |ranking| ensures b in ranking {
      assert ranking[place[b]] == b;
    }
  }

  /** One pass of the bubble sort: the positions below `limit` are still to be sorted. */
  method BubblePass(count: array<nat>, ranking: array<nat>, limit: nat, ghost place0: seq<nat>)
    returns (ghost place: seq<nat>)
    requires count != ranking && 0 < limit <= ranking.Length
    requires Invariant(count[..], ranking[..], place0, limit)
    modifies ranking
    ensures Invariant(count[..], ranking[..], place, limit - 1)
  {
    ghost var c := count[..];
    place := place0;
    var j := 0;
    while j < limit - 1
      invariant 0 <= j <= limit - 1
      invariant Invariant(c, ranking[..], place, limit) && LeastAt(c, ranking[..], j)
    {
      ghost var r := ranking[..];
      if count[ranking[j]] < count[ranking[j + 1]] {
        SwapPermutes(r, place, j);
        SwapKeeps(c, r, j, limit);
        place := place[r[j] := j + 1][r[j + 1] := j];
        ranking[j], ranking[j + 1] := ranking[j + 1], ranking[j];
        assert ranking[..] == Swapped(r, j);
      }
      j := j + 1;
    }
    PassSettles(c, ranking[..], limit);
  }

  /** The bubble sort of `rankBanks`. */
  method BubbleSort(count: array<nat>, ranking: array<nat>) returns (ghost place: seq<nat>)
    requires count.Length == ranking.Length && count != ranking
    requires forall b | 0 <= b < ranking.Length :: ranking[b] == b
    modifies ranking
    ensures Invariant(count[..], ranking[..], place, Min(1, count.Length))
  {
    var banks := ranking.Length;
    place := SortStarts(count[..], ranking[..]);
    var i := 0;
    ghost var c, r, left := count[..], ranking[..], banks;
    while i < banks - 1
      invariant count[..] == c && ranking[..] == r && left == banks - i
      invariant i == 0 || 0 < i <= banks - 1
      invariant Invariant(c, r, place, left)
    {
      place := BubblePass(count, ranking, banks - i, place);
      i := i + 1;
      left, r := left - 1, ranking[..];
    }
  }

  method RankBanks(batch: array<Request>, batchSize: nat, banks: nat) returns (bankRanking: array<nat>)
    requires batchSize <= batch.Length && forall i | 0 <= i < batchSize :: batch[i].bank < banks
    ensures fresh(bankRanking) && bankRanking.Length == banks
    ensures IsRanking(batch[..batchSize], bankRanking[..])
  {
    var bankCount := CountBanks(batch, batchSize, banks);
    bankRanking := new nat[banks](i => i);
    ghost var place := BubbleSort(bankCount, bankRanking);
    SortEnds(batch[..batchSize], bankCount[..], bankRanking[..], place);
  }

  // ---------------------------------------------------------------------------------------------
  // Picking one request
  // ---------------------------------------------------------------------------------------------

  ghost predicate Eligible(batch: seq<Request>, bank: nat, hitsOnly: bool, p: nat) {
    p < |batch| && batch[p].bank == bank && batch[p].marked && (hitsOnly ==> batch[p].rowHit)
  }

  /** `best` is the oldest eligible request before position `j`, the first among equally old ones, or
      -1 when there is none. */
  ghost predicate IsOldest(batch: seq<Request>, bank: nat, hitsOnly: bool, j: nat, best: int) {
    if best == -1 then forall p: nat | p < j :: !Eligible(batch, bank, hitsOnly, p)
    else
      && 0 <= best < j && Eligible(batch, bank, hitsOnly, best)
      && forall p: nat | p < j && Eligible(batch, bank, hitsOnly, p) ::
           batch[best].timestamp < batch[p].timestamp || (batch[best].timestamp == batch[p].timestamp && best <= p)
  }

  /** The scan of one bank. */
  method ScanBank(batch: array<Request>, batchSize: nat, bank: nat) returns (oldestHit: int, oldest: int)
    requires batchSize <= batch.Length
    ensures IsOldest(batch[..batchSize], bank, true, batchSize, oldestHit)
    ensures IsOldest(batch[..batchSize], bank, false, batchSize, oldest)
  {
    oldestHit, oldest := -1, -1;
    for j := 0 to batchSize
      invariant IsOldest(batch[..batchSize], bank, true, j, oldestHit)
      invariant IsOldest(batch[..batchSize], bank, false, j, oldest)
    {
      if batch[j].bank == bank && batch[j].marked {
        if batch[j].rowHit {
          if oldestHit == -1 || batch[j].timestamp < batch[oldestHit].timestamp {
            oldestHit := j;
          }
        }
        if oldest == -1 || batch[j].timestamp < batch[oldest].timestamp {
          oldest := j;
        }
      }
    }
  }

  /** The batch as first formed, up to marks already cleared. */
  ghost predicate SameRequests(batch0: seq<Request>, batch: seq<Request>) {
    |batch0| == |batch| && forall i | 0 <= i < |batch| :: batch[i] == batch0[i].(marked := batch[i].marked)
  }

  /** `best` is marked and served before every other marked request. */
  ghost predicate IsNext(batch0: seq<Request>, batch: seq<Request>, best: nat)
    requires |batch0| == |batch|
  {
    best < |batch| && batch[best].marked
    && forall p: nat | p < |batch| && batch[p].marked && p != best :: ServedBefore(batch0, best, p)
  }

  /** The choice made in the first ranked bank with a marked request is the next one overall. */
  lemma ChoiceIsNext(batch0: seq<Request>, batch: seq<Request>, ranking: seq<nat>, i: nat, oldestHit: int, oldest: int)
    requires SameRequests(batch0, batch) && IsRanking(batch0, ranking) && i < |ranking|
    requires forall p | 0 <= p < |batch| :: batch[p].bank < |ranking|
    requires forall p, q | 0 <= p < |batch| && batch[p].marked && 0 <= q < i :: batch[p].bank != ranking[q]
    requires IsOldest(batch, ranking[i], true, |batch|, oldestHit)
    requires IsOldest(batch, ranking[i], false, |batch|, oldest)
    requires oldest != -1
    ensures IsNext(batch0, batch, if oldestHit != -1 then oldestHit else oldest)
  {
    var best := if oldestHit != -1 then oldestHit else oldest;
    forall p: nat | p < |batch| && batch[p].marked && p != best ensures ServedBefore(batch0, best, p) {
      assert batch0[p].bank in ranking;
      var q :| 0 <= q < |ranking| && ranking[q] == batch0[p].bank;
      if q == i {
        assert Eligible(batch, ranking[i], false, p);
        assert batch[p].rowHit ==> Eligible(batch, ranking[i], true, p);
      }
    }
  }

  /** Unmarks and returns the next request; `None` stands for the exit when nothing is marked. */
  method ScheduleRequest(batch: array<Request>, batchSize: nat, bankRanking: array<nat>, ghost batch0: seq<Request>)
    returns (scheduled: Option<Request>, ghost best: nat)
    requires batchSize <= batch.Length && SameRequests(batch0, batch[..batchSize]) && IsRanking(batch0, bankRanking[..])
    requires forall p | 0 <= p < batchSize :: batch[p].bank < bankRanking.Length
    modifies batch
    ensures scheduled == None ==>
      batch[..] == old(batch[..]) && forall p | 0 <= p < batchSize :: !batch[p].marked
    ensures scheduled.Some? ==>
      && IsNext(batch0, old(batch[..batchSize]), best)
      && batch[..] == old(batch[..])[best := old(batch[best]).(marked := false)]
      && scheduled.value == batch0[best].(marked := false)
  {
    best := 0;
    for i := 0 to bankRanking.Length
      invariant batch[..] == old(batch[..])
      invariant forall p, q | 0 <= p < batchSize && batch[p].marked && 0 <= q < i :: batch[p].bank != bankRanking[q]
    {
      var bank := bankRanking[i];
      var oldestHit, oldest := ScanBank(batch, batchSize, bank);
      if oldest != -1 {
        ChoiceIsNext(batch0, batch[..batchSize], bankRanking[..], i, oldestHit, oldest);
      }
      if oldestHit != -1 {
        assert Eligible(batch[..batchSize], bank, false, oldestHit);
        batch[oldestHit] := batch[oldestHit].(marked := false);
        return Some(batch[oldestHit]), oldestHit;
      } else if oldest != -1 {
        batch[oldest] := batch[oldest].(marked := false);
        return Some(batch[oldest]), oldest;
      }
      forall p: nat | p < batchSize && batch[p].marked ensures batch[p].bank != bank {
        assert !Eligible(batch[..batchSize], bank, false, p);
      }
    }
    forall p: nat | p < batchSize ensures !batch[p].marked {
      assert batch[p].bank in bankRanking[..];
    }
    scheduled := None;
  }

  // ---------------------------------------------------------------------------------------------
  // Draining the queue
  // ---------------------------------------------------------------------------------------------

  function Mark(r: Request): Request { r.(marked := true) }

  method FormBatch(q: Queue<Request>, maxBatch: nat) returns (batch: array<Request>, batchSize: nat)
    requires q.Valid()
    modifies q
    ensures q.Valid() && fresh(batch)
    ensures batchSize == Min(maxBatch, old(q.size)) <= batch.Length
    ensures q.Queued() == old(q.Queued())[batchSize..]
    ensures forall i | 0 <= i < batchSize :: batch[i] == Mark(old(q.Queued())[i])
  {
    batch := new Request[maxBatch];
    batchSize := 0;
    ghost var all := q.Queued();
    while batchSize < maxBatch && q.size > 0
      invariant q.Valid() && batchSize <= maxBatch && batchSize <= |all|
      invariant q.Queued() == all[batchSize..]
      invariant forall i | 0 <= i < batchSize :: batch[i] == Mark(all[i])
      decreases maxBatch - batchSize
    {
      var request := q.Dequeue();
      batch[batchSize] := Mark(request.value);
      batchSize := batchSize + 1;
    }
  }

  /** The positions of a batch in order of service pick the output out of the batch. */
  function Pick(batch: seq<Request>, order: seq<nat>): (out: seq<Request>)
    requires Positions(order, |batch|)
    ensures |out| == |order|
  {
    seq(|order|, i requires 0 <= i < |order| => batch[order[i]].(marked := false))
  }

  /** The first `i` positions of the order have been served. */
  ghost predicate Served(batch0: seq<Request>, batch: seq<Request>, order: seq<nat>, i: nat) {
    && SameRequests(batch0, batch) && Positions(order, |batch|)
    && forall x | 0 <= x < |order| :: batch[order[x]].marked <==> i <= x
  }

  /** The next request is the first unserved one of the sorted order, and unmarking it serves it. */
  lemma NextInOrder(batch0: seq<Request>, batch: seq<Request>, order: seq<nat>, i: nat, best: nat)
    requires |order| == |batch0| && Positions(order, |batch0|) && Sorted(batch0, order) && i < |order|
    requires forall p: nat | p < |batch0| :: p in order
    requires Served(batch0, batch, order, i) && IsNext(batch0, batch, best)
    ensures best == order[i] && Served(batch0, batch[best := batch[best].(marked := false)], order, i + 1)
  {
    assert best in order;
    var x :| 0 <= x < |order| && order[x] == best;
    forall y | 0 <= y < |order| && y != i ensures order[y] != order[i] {
      assert if y < i then ServedBefore(batch0, order[y], order[i]) else ServedBefore(batch0, order[i], order[y]);
    }
  }

  /** Schedules a whole batch: the output is the batch in service order, and the exit is never
      reached. */
  method ServeBatch(batch: array<Request>, batchSize: nat, bankRanking: array<nat>) returns (output: seq<Request>)
    requires batchSize <= batch.Length
    requires IsRanking(batch[..batchSize], bankRanking[..])
    requires forall p | 0 <= p < batchSize :: batch[p].marked && batch[p].bank < bankRanking.Length
    modifies batch
    ensures output == Pick(old(batch[..batchSize]), ServiceOrder(old(batch[..batchSize]), batchSize))
  {
    ghost var batch0 := batch[..batchSize];
    ghost var order := ServiceOrder(batch0, batchSize);
    ServiceOrderSorts(batch0, batchSize);
    output := [];
    for i := 0 to batchSize
      invariant Served(batch0, batch[..batchSize], order, i)
      invariant output == Pick(batch0, order[..i])
    {
      ghost var before := batch[..batchSize];
      assert before[order[i]].marked;
      var scheduled, best := ScheduleRequest(batch, batchSize, bankRanking, batch0);
      assert batch[..batchSize] == before[best := before[best].(marked := false)];
      NextInOrder(batch0, before, order, i, best);
      output := output + [scheduled.value];
    }
    assert order[..batchSize] == order;
  }

  function MarkAll(requests: seq<Request>): (r: seq<Request>)
    ensures |r| == |requests|
  {
    seq(|requests|, i requires 0 <= i < |requests| => Mark(requests[i]))
  }

  /** The positions of the batch of `k` requests that starts at `from`, in order of service. */
  function BatchOrder(input: seq<Request>, from: nat, k: nat): (order: seq<nat>)
    requires from + k <= |input|
    ensures Positions(order, |input|)
  {
    Shift(ServiceOrder(MarkAll(input[from..from + k]), k), from)
  }

  function Shift(order: seq<nat>, from: nat): (r: seq<nat>)
    ensures |r| == |order| && forall i | 0 <= i < |r| :: r[i] == from + order[i]
  {
    seq(|order|, i requires 0 <= i < |order| => from + order[i])
  }

  /** The positions of the whole input in the order in which draining serves them. */
  function DrainOrder(input: seq<Request>, maxBatch: nat, from: nat): (order: seq<nat>)
    requires maxBatch > 0 && from <= |input|
    ensures Positions(order, |input|)
    decreases |input| - from
  {
    if from == |input| then [] else
      var k := Min(maxBatch, |input| - from);
      BatchOrder(input, from, k) + DrainOrder(input, maxBatch, from + k)
  }

  /** The requests of a queue segment, in the order in which a batch of them is served. */
  function ServedBatch(segment: seq<Request>): seq<Request> {
    Pick(MarkAll(segment), ServiceOrder(MarkAll(segment), |segment|))
  }

  lemma PickConcat(batch: seq<Request>, a: seq<nat>, b: seq<nat>)
    requires Positions(a, |batch|) && Positions(b, |batch|)
    ensures Pick(batch, a + b) == Pick(batch, a) + Pick(batch, b)
  {
  }

  lemma PickBatch(input: seq<Request>, from: nat, k: nat)
    requires from + k <= |input|
    ensures ServedBatch(input[from..from + k]) == Pick(input, BatchOrder(input, from, k))
  {
  }

  /** What has been output when the requests before `from` have been served. */
  ghost predicate Drained(input: seq<Request>, maxBatch: nat, from: nat, output: seq<Request>) {
    && maxBatch > 0 && from <= |input|
    && Pick(input, DrainOrder(input, maxBatch, 0)) == output + Pick(input, DrainOrder(input, maxBatch, from))
  }

  /** Serving one more batch. */
  lemma DrainedStep(input: seq<Request>, maxBatch: nat, from: nat, k: nat, output: seq<Request>)
    requires Drained(input, maxBatch, from, output) && from < |input| && k == Min(maxBatch, |input| - from)
    ensures Drained(input, maxBatch, from + k, output + ServedBatch(input[from..from + k]))
  {
    var served := ServedBatch(input[from..from + k]);
    var step, rest := BatchOrder(input, from, k), DrainOrder(input, maxBatch, from + k);
    PickBatch(input, from, k);
    PickConcat(input, step, rest);
    assert DrainOrder(input, maxBatch, from) == step + rest;
    assert output + (served + Pick(input, rest)) == (output + served) + Pick(input, rest);
  }

  ghost predicate BanksBelow(requests: seq<Request>, banks: nat) {
    forall i | 0 <= i < |requests| :: requests[i].bank < banks
  }

  /** What is queued is what has not been served. */
  ghost predicate Rest(input: seq<Request>, from: nat, queued: seq<Request>) {
    from <= |input| && queued == input[from..]
  }

  lemma RestStep(input: seq<Request>, maxBatch: nat, banks: nat, from: nat, queued: seq<Request>, k: nat,
                 output: seq<Request>)
    requires Rest(input, from, queued) && BanksBelow(input, banks) && Drained(input, maxBatch, from, output)
    requires queued != [] && k == Min(maxBatch, |queued|)
    ensures BanksBelow(queued, banks) && Rest(input, from + k, queued[k..])
    ensures Drained(input, maxBatch, from + k, output + ServedBatch(queued[..k]))
  {
    assert queued[..k] == input[from..from + k];
    DrainedStep(input, maxBatch, from, k, output);
  }

  /** One round of the draining loop. */
  method ServeNextBatch(q: Queue<Request>, banks: nat, maxBatch: nat) returns (served: seq<Request>)
    requires q.Valid() && maxBatch > 0 && BanksBelow(q.Queued(), banks)
    modifies q
    ensures q.Valid()
    ensures var k := Min(maxBatch, old(q.size));
      q.Queued() == old(q.Queued())[k..] && served == ServedBatch(old(q.Queued())[..k])
  {
    var batch, batchSize := FormBatch(q, maxBatch);
    assert batch[..batchSize] == MarkAll(old(q.Queued())[..batchSize]);
    var bankRanking := RankBanks(batch, batchSize, banks);
    served := ServeBatch(batch, batchSize, bankRanking);
  }

  /** The draining loop of the program. */
  method Drain(q: Queue<Request>, banks: nat, maxBatch: nat) returns (output: seq<Request>)
    requires q.Valid() && maxBatch > 0 && BanksBelow(q.Queued(), banks)
    modifies q
    ensures q.Valid() && q.Queued() == []
    ensures output == Pick(old(q.Queued()), DrainOrder(old(q.Queued()), maxBatch, 0))
    ensures IsService(old(q.Queued()), maxBatch, DrainOrder(old(q.Queued()), maxBatch, 0), output)
  {
    ghost var input := q.Queued();
    ghost var from: nat := 0;
    output := [];
    DrainStarts(input, maxBatch);
    while q.size > 0
      invariant q.Valid() && Drained(input, maxBatch, from, output) && Rest(input, from, q.Queued())
      decreases q.size
    {
      output, from := ServeRound(q, banks, maxBatch, output, input, from);
    }
    DrainEnds(input, maxBatch, from, output);
    DrainIsService(input, maxBatch);
  }

  lemma DrainStarts(input: seq<Request>, maxBatch: nat)
    requires maxBatch > 0
    ensures Drained(input, maxBatch, 0, []) && Rest(input, 0, input)
  {
  }

  lemma DrainEnds(input: seq<Request>, maxBatch: nat, from: nat, output: seq<Request>)
    requires Drained(input, maxBatch, from, output) && Rest(input, from, [])
    ensures output == Pick(input, DrainOrder(input, maxBatch, 0))
  {
    assert DrainOrder(input, maxBatch, |input|) == [];
  }

  /** One round of the loop: the output grows by the next batch. */
  method ServeRound(q: Queue<Request>, banks: nat, maxBatch: nat, output: seq<Request>, ghost input: seq<Request>,
                    ghost from: nat)
    returns (output': seq<Request>, ghost from': nat)
    requires q.Valid() && q.size > 0 && BanksBelow(input, banks)
    requires Drained(input, maxBatch, from, output) && Rest(input, from, q.Queued())
    modifies q
    ensures q.Valid() && q.size < old(q.size)
    ensures Drained(input, maxBatch, from', output') && Rest(input, from', q.Queued())
  {
    ghost var k := Min(maxBatch, q.size);
    RestStep(input, maxBatch, banks, from, q.Queued(), k, output);
    var served := ServeNextBatch(q, banks, maxBatch);
    output', from' := output + served, from + k;
  }

  /** The positions from `from` up to `to`, each once. */
  ghost predicate Permutes(order: seq<nat>, from: nat, to: nat) {
    |order| == to - from && Ranged(order, from, to) && EachOnce(order, from, to)
  }

  ghost predicate Ranged(order: seq<nat>, from: nat, to: nat) { forall x | 0 <= x < |order| :: from <= order[x] < to }

  ghost predicate EachOnce(order: seq<nat>, from: nat, to: nat) {
    && (forall p: nat | from <= p < to :: p in order)
    && (forall x, y | 0 <= x < y < |order| :: order[x] != order[y])
  }

  lemma PermutesConcat(a: seq<nat>, b: seq<nat>, from: nat, mid: nat, to: nat)
    requires from <= mid <= to && Permutes(a, from, mid) && Permutes(b, mid, to)
    ensures Permutes(a + b, from, to)
  {
    forall p: nat | from <= p < to ensures p in a + b {
      assert p in a || p in b;
    }
  }

  /** Shifting positions shifts what they permute. */
  lemma ShiftPermutes(order: seq<nat>, from: nat)
    requires Permutes(order, 0, |order|)
    ensures Permutes(Shift(order, from), from, from + |order|)
  {
    forall p: nat | from <= p < from + |order| ensures p in Shift(order, from) {
      assert p - from in order;
      var x :| 0 <= x < |order| && order[x] == p - from;
      assert Shift(order, from)[x] == p;
    }
  }

  lemma ServiceOrderPermutes(batch: seq<Request>)
    ensures Permutes(ServiceOrder(batch, |batch|), 0, |batch|)
  {
    var order := ServiceOrder(batch, |batch|);
    ServiceOrderSorts(batch, |batch|);
    assert forall x | 0 <= x < |order| :: order[x] in order;
    forall x, y | 0 <= x < y < |order| ensures order[x] != order[y] {
      assert ServedBefore(batch, order[x], order[y]);
    }
  }

  /** A batch is served within its own places. */
  lemma BatchOrderPermutes(input: seq<Request>, from: nat, k: nat)
    requires from + k <= |input|
    ensures Permutes(BatchOrder(input, from, k), from, from + k)
  {
    var batch := MarkAll(input[from..from + k]);
    ServiceOrderPermutes(batch);
    ShiftPermutes(ServiceOrder(batch, k), from);
  }

  lemma DrainUnfolds(input: seq<Request>, maxBatch: nat, from: nat)
    requires maxBatch > 0 && from < |input|
    ensures var k := Min(maxBatch, |input| - from);
      DrainOrder(input, maxBatch, from) == BatchOrder(input, from, k) + DrainOrder(input, maxBatch, from + k)
  {
  }

  lemma DrainPermutesOn(input: seq<Request>, maxBatch: nat, from: nat, k: nat)
    requires maxBatch > 0 && from < |input| && k == Min(maxBatch, |input| - from)
    requires Permutes(DrainOrder(input, maxBatch, from + k), from + k, |input|)
    ensures Permutes(DrainOrder(input, maxBatch, from), from, |input|)
  {
    DrainUnfolds(input, maxBatch, from);
    BatchOrderPermutes(input, from, k);
    PermutesConcat(BatchOrder(input, from, k), DrainOrder(input, maxBatch, from + k), from, from + k, |input|);
  }

  /** Nothing is lost and nothing is served twice. */
  lemma {:induction false} DrainIsPermutation(input: seq<Request>, maxBatch: nat, from: nat)
    requires maxBatch > 0 && from <= |input|
    ensures Permutes(DrainOrder(input, maxBatch, from), from, |input|)
    decreases |input| - from
  {
    if from < |input| {
      var k := Min(maxBatch, |input| - from);
      DrainIsPermutation(input, maxBatch, from + k);
      DrainPermutesOn(input, maxBatch, from, k);
    }
  }

  /** The places from `from` up to `to` are taken by positions less than `bound` away. */
  ghost predicate Near(order: seq<nat>, from: nat, to: nat, bound: nat) {
    |order| == to - from && EachNear(order, from, bound)
  }

  ghost predicate EachNear(order: seq<nat>, from: nat, bound: nat) {
    forall x | 0 <= x < |order| :: order[x] < from + x + bound && from + x < order[x] + bound
  }

  lemma BatchOrderIsNear(input: seq<Request>, from: nat, k: nat, bound: nat)
    requires from + k <= |input| && k <= bound
    ensures Near(BatchOrder(input, from, k), from, from + k, bound)
  {
    BatchOrderPermutes(input, from, k);
  }

  lemma NearConcat(a: seq<nat>, b: seq<nat>, from: nat, mid: nat, to: nat, bound: nat)
    requires from <= mid && Near(a, from, mid, bound) && Near(b, mid, to, bound)
    ensures Near(a + b, from, to, bound)
  {
    forall x | 0 <= x < |a + b| ensures (a + b)[x] < from + x + bound && from + x < (a + b)[x] + bound {
      if x >= |a| { assert (a + b)[x] == b[x - |a|]; }
    }
  }

  lemma DrainNearOn(input: seq<Request>, maxBatch: nat, from: nat, k: nat)
    requires maxBatch > 0 && from < |input| && k == Min(maxBatch, |input| - from)
    requires Near(DrainOrder(input, maxBatch, from + k), from + k, |input|, maxBatch)
    ensures Near(DrainOrder(input, maxBatch, from), from, |input|, maxBatch)
  {
    DrainUnfolds(input, maxBatch, from);
    BatchOrderIsNear(input, from, k, maxBatch);
    NearConcat(BatchOrder(input, from, k), DrainOrder(input, maxBatch, from + k), from, from + k, |input|, maxBatch);
  }

  /** Batching bounds unfairness: no request is served `maxBatch` or more places away from its place of arrival. */
  lemma {:induction false} BoundedDisplacement(input: seq<Request>, maxBatch: nat, from: nat)
    requires maxBatch > 0 && from <= |input|
    ensures Near(DrainOrder(input, maxBatch, from), from, |input|, maxBatch)
    decreases |input| - from
  {
    if from < |input| {
      var k := Min(maxBatch, |input| - from);
      BoundedDisplacement(input, maxBatch, from + k);
      DrainNearOn(input, maxBatch, from, k);
    }
  }

  // ---------------------------------------------------------------------------------------------
  // The order of the output
  // ---------------------------------------------------------------------------------------------

  /** The first position of the batch of position `p`, when batches of `maxBatch` are formed from `from` on. */
  function BatchStart(p: nat, from: nat, maxBatch: nat): (start: nat)
    requires from <= p && maxBatch > 0
    ensures from <= start <= p < start + maxBatch
    decreases p - from
  {
    if p < from + maxBatch then from else BatchStart(p, from + maxBatch, maxBatch)
  }

  lemma {:induction false} BatchStartIsMultiple(p: nat, j: nat, maxBatch: nat)
    requires maxBatch > 0 && j * maxBatch <= p
    ensures BatchStart(p, j * maxBatch, maxBatch) == p / maxBatch * maxBatch
    decreases p - j * maxBatch
  {
    assert (j + 1) * maxBatch == j * maxBatch + maxBatch;
    if p < j * maxBatch + maxBatch {
      Quotient(p, j, maxBatch);
    } else {
      BatchStartIsMultiple(p, j + 1, maxBatch);
    }
  }

  /** How many of the requests from `from` up to `to` go to the bank. */
  ghost function Load(input: seq<Request>, from: nat, to: nat, bank: nat): nat
    requires to <= |input|
  {
    |set i: nat | i < |input| && input[i].bank == bank && from <= i < to|
  }

  lemma LoadGrows(input: seq<Request>, from: nat, to: nat, bank: nat)
    requires from <= to < |input|
    ensures Load(input, from, to + 1, bank) == Load(input, from, to, bank) + (if input[to].bank == bank then 1 else 0)
  {
    var before := set i: nat | i < |input| && input[i].bank == bank && from <= i < to;
    var after := set i: nat | i < |input| && input[i].bank == bank && from <= i < to + 1;
    assert after == before + (if input[to].bank == bank then {to} else {});
  }

  lemma BankCountGrows(input: seq<Request>, from: nat, to: nat, bank: nat)
    requires from <= to < |input|
    ensures BankCount(MarkAll(input[from..to + 1]), bank)
      == BankCount(MarkAll(input[from..to]), bank) + (if input[to].bank == bank then 1 else 0)
  {
    var batch := MarkAll(input[from..to + 1]);
    assert batch[..to - from] == MarkAll(input[from..to]);
  }

  lemma {:induction false} LoadIsBankCount(input: seq<Request>, from: nat, to: nat, bank: nat)
    requires from <= to <= |input|
    ensures Load(input, from, to, bank) == BankCount(MarkAll(input[from..to]), bank)
  {
    if from < to {
      LoadIsBankCount(input, from, to - 1, bank);
      LoadGrows(input, from, to - 1, bank);
      BankCountGrows(input, from, to - 1, bank);
    } else {
      var none := set i: nat | i < |input| && input[i].bank == bank && from <= i < to;
      assert none == {};
    }
  }

  /** Inside the batch from `from` up to `to`: the bank with more requests first, then the bank of lower number; in a
      bank row hits first, then the earlier timestamp, then the earlier place in the queue. */
  ghost predicate Outranks(input: seq<Request>, from: nat, to: nat, p: nat, q: nat)
    requires from <= p < to <= |input| && q < to
  {
    var a, b := input[p], input[q];
    if a.bank != b.bank then
      var na, nb := Load(input, from, to, a.bank), Load(input, from, to, b.bank);
      na > nb || (na == nb && a.bank < b.bank)
    else if a.rowHit != b.rowHit then a.rowHit
    else a.timestamp < b.timestamp || (a.timestamp == b.timestamp && p < q)
  }

  /** The batch of `p` is served before that of `q`, or it is the same batch, and `p` outranks `q` in it. */
  ghost predicate OutputBefore(input: seq<Request>, maxBatch: nat, from: nat, p: nat, q: nat)
    requires maxBatch > 0 && from <= p < |input| && from <= q < |input|
  {
    var start := BatchStart(p, from, maxBatch);
    start < BatchStart(q, from, maxBatch)
    || (start == BatchStart(q, from, maxBatch) && Outranks(input, start, Min(start + maxBatch, |input|), p, q))
  }

  /** Every place of the output is before all later ones in the order of service. */
  ghost predicate InOrder(input: seq<Request>, maxBatch: nat, from: nat, order: seq<nat>) {
    maxBatch > 0 && Ranged(order, from, |input|) && PairsInOrder(input, maxBatch, from, order)
  }

  ghost predicate PairsInOrder(input: seq<Request>, maxBatch: nat, from: nat, order: seq<nat>)
    requires maxBatch > 0 && Ranged(order, from, |input|)
  {
    forall x, y | 0 <= x < y < |order| :: OutputBefore(input, maxBatch, from, order[x], order[y])
  }

  /** One batch, in order. */
  ghost predicate BatchInOrder(input: seq<Request>, from: nat, to: nat, order: seq<nat>) {
    to <= |input| && Ranged(order, from, to) && PairsOutrank(input, from, to, order)
  }

  ghost predicate PairsOutrank(input: seq<Request>, from: nat, to: nat, order: seq<nat>)
    requires to <= |input| && Ranged(order, from, to)
  {
    forall x, y | 0 <= x < y < |order| :: Outranks(input, from, to, order[x], order[y])
  }

  lemma BatchOrderOutranks(input: seq<Request>, from: nat, k: nat, x: nat, y: nat)
    requires from + k <= |input| && x < y < k
    ensures var order := ServiceOrder(MarkAll(input[from..from + k]), k);
      |order| == k && Outranks(input, from, from + k, from + order[x], from + order[y])
  {
    var batch := MarkAll(input[from..from + k]);
    var order := ServiceOrder(batch, k);
    ServiceOrderSorts(batch, k);
    assert ServedBefore(batch, order[x], order[y]);
    LoadIsBankCount(input, from, from + k, batch[order[x]].bank);
    LoadIsBankCount(input, from, from + k, batch[order[y]].bank);
  }

  lemma BatchOrderInOrder(input: seq<Request>, from: nat, k: nat)
    requires from + k <= |input|
    ensures BatchInOrder(input, from, from + k, BatchOrder(input, from, k))
  {
    var order := BatchOrder(input, from, k);
    BatchOrderPermutes(input, from, k);
    forall x, y | 0 <= x < y < |order| ensures Outranks(input, from, from + k, order[x], order[y]) {
      BatchOrderOutranks(input, from, k, x, y);
    }
  }

  lemma FirstBatch(input: seq<Request>, maxBatch: nat, from: nat, p: nat, q: nat)
    requires maxBatch > 0 && from <= p < |input| && from <= q < |input|
    requires p < from + maxBatch
    requires q < from + maxBatch ==> Outranks(input, from, Min(from + maxBatch, |input|), p, q)
    ensures OutputBefore(input, maxBatch, from, p, q)
  {
  }

  lemma LaterBatch(input: seq<Request>, maxBatch: nat, from: nat, p: nat, q: nat)
    requires maxBatch > 0 && from + maxBatch <= p < |input| && from + maxBatch <= q < |input|
    requires OutputBefore(input, maxBatch, from + maxBatch, p, q)
    ensures OutputBefore(input, maxBatch, from, p, q)
  {
  }

  lemma InOrderConcat(input: seq<Request>, maxBatch: nat, from: nat, k: nat, first: seq<nat>, rest: seq<nat>)
    requires maxBatch > 0 && from <= |input| && k == Min(maxBatch, |input| - from)
    requires BatchInOrder(input, from, from + k, first) && InOrder(input, maxBatch, from + k, rest)
    ensures InOrder(input, maxBatch, from, first + rest)
  {
    var order := first + rest;
    forall x, y | 0 <= x < y < |order| ensures OutputBefore(input, maxBatch, from, order[x], order[y]) {
      if |first| <= x {
        LaterBatch(input, maxBatch, from, order[x], order[y]);
      } else {
        FirstBatch(input, maxBatch, from, order[x], order[y]);
      }
    }
  }

  lemma DrainInOrderOn(input: seq<Request>, maxBatch: nat, from: nat, k: nat)
    requires maxBatch > 0 && from < |input| && k == Min(maxBatch, |input| - from)
    requires InOrder(input, maxBatch, from + k, DrainOrder(input, maxBatch, from + k))
    ensures InOrder(input, maxBatch, from, DrainOrder(input, maxBatch, from))
  {
    DrainUnfolds(input, maxBatch, from);
    BatchOrderInOrder(input, from, k);
    InOrderConcat(input, maxBatch, from, k, BatchOrder(input, from, k), DrainOrder(input, maxBatch, from + k));
  }

  /** The whole output: batch after batch in the order of the queue, and each batch in the order of its banks' loads. */
  lemma {:induction false} OutputInOrder(input: seq<Request>, maxBatch: nat, from: nat)
    requires maxBatch > 0 && from <= |input|
    ensures InOrder(input, maxBatch, from, DrainOrder(input, maxBatch, from))
    decreases |input| - from
  {
    if from < |input| {
      var k := Min(maxBatch, |input| - from);
      OutputInOrder(input, maxBatch, from + k);
      DrainInOrderOn(input, maxBatch, from, k);
    }
  }

  /** The output is the input in the given order, each request once, unmarked, and the order is that of service. */
  ghost predicate IsService(input: seq<Request>, maxBatch: nat, order: seq<nat>, output: seq<Request>) {
    && Permutes(order, 0, |input|) && InOrder(input, maxBatch, 0, order)
    && |output| == |order| && forall x | 0 <= x < |order| :: output[x] == input[order[x]].(marked := false)
  }

  lemma DrainIsService(input: seq<Request>, maxBatch: nat)
    requires maxBatch > 0
    ensures var order := DrainOrder(input, maxBatch, 0); IsService(input, maxBatch, order, Pick(input, order))
  {
    DrainIsPermutation(input, maxBatch, 0);
    OutputInOrder(input, maxBatch, 0);
  }
}
