/** The block-list allocator of memory/memory_management/mem_alloc.c.

    The block list is described by the sequence of its blocks in address order; a block's address is
    the space taken by the blocks before it.  The theorems are about every run of allocations (first,
    best or worst fit, in any mix) and frees: the list tiles the pool, live payloads are disjoint and
    never move, and a heap with nothing live is the single initial block again.
    The pool size is a parameter.
 */
module Allocator {
  import opened Common

  const HEADER := 24          // sizeof(Block)
  const MIN_ALLOCATION := 16
  const SIZE_LIMIT := 0x1_0000_0000_0000_0000   // size_t is unsigned and 64 bits wide

  type SizeT = n: int | 0 <= n < SIZE_LIMIT

  datatype Block = Block(size: nat, isFree: bool)

  datatype Strategy = FirstFit | BestFit | WorstFit

  // ---------------------------------------------------------------------------------------------
  // Addresses
  // ---------------------------------------------------------------------------------------------

  /** The bytes taken by a list of blocks, headers included. */
  function Span(blocks: seq<Block>): nat {
    if blocks == [] then 0 else HEADER + blocks[0].size + Span(blocks[1..])
  }

  /** The address of the header of block `i`. */
  function Address(blocks: seq<Block>, i: nat): nat
    requires i <= |blocks|
  {
    Span(blocks[..i])
  }

  lemma {:induction false} SpanConcat(a: seq<Block>, b: seq<Block>)
    ensures Span(a + b) == Span(a) + Span(b)
  {
    if a == [] {
      assert a + b == b;
    } else {
      SpanConcat(a[1..], b);
      assert (a + b)[1..] == a[1..] + b;
    }
  }

  lemma AddressStep(blocks: seq<Block>, i: nat)
    requires i < |blocks|
    ensures Address(blocks, i + 1) == Address(blocks, i) + HEADER + blocks[i].size
  {
    assert blocks[..i + 1] == blocks[..i] + [blocks[i]];
    SpanConcat(blocks[..i], [blocks[i]]);
    assert Span([blocks[i]]) == HEADER + blocks[i].size;
  }

  /** Blocks do not overlap: a block ends at or before the header of any later one. */
  lemma {:induction false} BlocksDisjoint(blocks: seq<Block>, i: nat, j: nat)
    requires i < j <= |blocks|
    ensures Address(blocks, i) + HEADER + blocks[i].size <= Address(blocks, j)
  {
    AddressStep(blocks, j - 1);
    if i < j - 1 {
      BlocksDisjoint(blocks, i, j - 1);
    }
  }

  lemma AddressesInjective(blocks: seq<Block>)
    ensures forall i, j | 0 <= i < j <= |blocks| :: Address(blocks, i) + HEADER <= Address(blocks, j)
  {
    forall i, j | 0 <= i < j <= |blocks| ensures Address(blocks, i) + HEADER <= Address(blocks, j) {
      BlocksDisjoint(blocks, i, j);
    }
  }

  // ---------------------------------------------------------------------------------------------
  // Operations on the list of blocks
  // ---------------------------------------------------------------------------------------------

  /** The rounding at the head of `allocate_memory`, with the wrap-around of `size_t`: the result holds
      the request unless the request is within 16 bytes of the largest `size_t`. */
  function RoundUp(size: SizeT): (rounded: nat)
    ensures rounded % MIN_ALLOCATION == 0 && rounded < size + MIN_ALLOCATION
    ensures rounded >= size <==> size <= SIZE_LIMIT - MIN_ALLOCATION
  {
    var r := (size + MIN_ALLOCATION - 1) % SIZE_LIMIT;
    r - r % MIN_ALLOCATION
  }

  predicate Fits(b: Block, size: nat) { b.isFree && b.size >= size }

  /** A block a strategy would consider.  Worst fit starts from a maximum of 0, so it passes over an empty block. */
  predicate Candidate(b: Block, size: nat, strategy: Strategy) {
    Fits(b, size) && (strategy == WorstFit ==> b.size > 0)
  }

  /** Block `i` is the strategy's choice among the first `n` blocks: the first candidate, or the first smallest,
      or the first largest. */
  ghost predicate ChoiceOf(blocks: seq<Block>, n: nat, size: nat, strategy: Strategy, i: nat)
    requires n <= |blocks|
  {
    && i < n && Candidate(blocks[i], size, strategy)
    && forall j | 0 <= j < n && Candidate(blocks[j], size, strategy) ::
         match strategy
         case FirstFit => i <= j
         case BestFit => blocks[i].size < blocks[j].size || (blocks[i].size == blocks[j].size && i <= j)
         case WorstFit => blocks[i].size > blocks[j].size || (blocks[i].size == blocks[j].size && i <= j)
  }

  ghost predicate IsChoice(blocks: seq<Block>, size: nat, strategy: Strategy, i: nat) {
    ChoiceOf(blocks, |blocks|, size, strategy, i)
  }

  /** The blocks from `lo` to `hi` replaced by others. */
  function Replace(blocks: seq<Block>, lo: nat, hi: nat, middle: seq<Block>): seq<Block>
    requires lo <= hi <= |blocks|
  {
    blocks[..lo] + middle + blocks[hi..]
  }

  /** `split_block`: what block `i` becomes.  The rest stays a free block when it is large enough. */
  function SplitInto(b: Block, size: nat): seq<Block>
    requires b.size >= size
  {
    if b.size > size + HEADER + MIN_ALLOCATION
    then [Block(size, false), Block(b.size - size - HEADER, true)]
    else [Block(b.size, false)]
  }

  function Allocated(blocks: seq<Block>, i: nat, size: nat): seq<Block>
    requires i < |blocks| && blocks[i].size >= size
  {
    Replace(blocks, i, i + 1, SplitInto(blocks[i], size))
  }

  /** The blocks that freeing block `i` turns into one: itself and its free neighbours. */
  function RunStart(blocks: seq<Block>, i: nat): (lo: nat)
    requires i < |blocks|
    ensures lo <= i
  {
    if i > 0 && blocks[i - 1].isFree then i - 1 else i
  }

  function RunEnd(blocks: seq<Block>, i: nat): (hi: nat)
    requires i < |blocks|
    ensures i < hi <= |blocks|
  {
    if i + 1 < |blocks| && blocks[i + 1].isFree then i + 2 else i + 1
  }

  /** `free_memory`: one free block where the freed block and its free neighbours were. */
  function Freed(blocks: seq<Block>, i: nat): seq<Block>
    requires i < |blocks|
  {
    var lo, hi := RunStart(blocks, i), RunEnd(blocks, i);
    SpanPositive(blocks[lo..hi]);
    Replace(blocks, lo, hi, [Block(Span(blocks[lo..hi]) - HEADER, true)])
  }

  lemma SpanPositive(blocks: seq<Block>)
    requires blocks != []
    ensures Span(blocks) >= HEADER
  {
  }

  // ---------------------------------------------------------------------------------------------
  // What every operation keeps
  // ---------------------------------------------------------------------------------------------

  ghost predicate NoFreeNeighbours(blocks: seq<Block>) {
    forall i | 0 <= i < |blocks| - 1 :: !(blocks[i].isFree && blocks[i + 1].isFree)
  }

  /** The list tiles the pool, and free blocks are coalesced. */
  ghost predicate Inv(blocks: seq<Block>, pool: nat) {
    blocks != [] && Span(blocks) == pool && NoFreeNeighbours(blocks)
  }

  lemma SpanReplace(blocks: seq<Block>, lo: nat, hi: nat, middle: seq<Block>)
    requires lo <= hi <= |blocks| && Span(middle) == Span(blocks[lo..hi])
    ensures Span(Replace(blocks, lo, hi, middle)) == Span(blocks)
  {
    assert blocks == blocks[..lo] + blocks[lo..hi] + blocks[hi..];
    SpanConcat(blocks[..lo] + blocks[lo..hi], blocks[hi..]);
    SpanConcat(blocks[..lo], blocks[lo..hi]);
    SpanConcat(blocks[..lo] + middle, blocks[hi..]);
    SpanConcat(blocks[..lo], middle);
  }

  lemma SpanOfOne(b: Block)
    ensures Span([b]) == HEADER + b.size
  {
  }

  lemma SplitSpan(b: Block, size: nat)
    requires b.size >= size
    ensures Span(SplitInto(b, size)) == HEADER + b.size
  {
    if b.size > size + HEADER + MIN_ALLOCATION {
      SpanConcat([Block(size, false)], [Block(b.size - size - HEADER, true)]);
    }
  }

  lemma AllocationKeeps(blocks: seq<Block>, pool: nat, i: nat, size: nat)
    requires Inv(blocks, pool) && i < |blocks| && Fits(blocks[i], size)
    ensures Inv(Allocated(blocks, i, size), pool)
  {
    SplitSpan(blocks[i], size);
    assert blocks[i..i + 1] == [blocks[i]];
    SpanReplace(blocks, i, i + 1, SplitInto(blocks[i], size));
  }

  lemma FreeKeeps(blocks: seq<Block>, pool: nat, i: nat)
    requires Inv(blocks, pool) && i < |blocks| && !blocks[i].isFree
    ensures Inv(Freed(blocks, i), pool)
  {
    var lo, hi := RunStart(blocks, i), RunEnd(blocks, i);
    SpanPositive(blocks[lo..hi]);
    SpanOfOne(Block(Span(blocks[lo..hi]) - HEADER, true));
    SpanReplace(blocks, lo, hi, [Block(Span(blocks[lo..hi]) - HEADER, true)]);
  }

  /** A free block has no free neighbours to merge with. */
  lemma FreeAgainChangesNothing(blocks: seq<Block>, pool: nat, i: nat)
    requires Inv(blocks, pool) && i < |blocks| && blocks[i].isFree
    ensures Freed(blocks, i) == blocks
  {
    assert RunStart(blocks, i) == i && RunEnd(blocks, i) == i + 1;
    assert blocks[i..i + 1] == [blocks[i]];
    SpanOfOne(blocks[i]);
  }

  // ---------------------------------------------------------------------------------------------
  // Live payloads
  // ---------------------------------------------------------------------------------------------

  /** Address and size of every live payload of a list of blocks that starts at `base`. */
  ghost function Live(blocks: seq<Block>, base: nat): set<(nat, nat)> {
    if blocks == [] then {} else
      (if blocks[0].isFree then {} else {(base + HEADER, blocks[0].size)})
      + Live(blocks[1..], base + HEADER + blocks[0].size)
  }

  lemma {:induction false} LiveConcat(a: seq<Block>, b: seq<Block>, base: nat)
    ensures Live(a + b, base) == Live(a, base) + Live(b, base + Span(a))
  {
    if a == [] {
      assert a + b == b;
    } else {
      LiveConcat(a[1..], b, base + HEADER + a[0].size);
      assert (a + b)[1..] == a[1..] + b;
    }
  }

  lemma LiveThree(a: seq<Block>, b: seq<Block>, c: seq<Block>)
    ensures Live(a + b + c, 0) == (Live(a, 0) + Live(b, Span(a))) + Live(c, Span(a) + Span(b))
  {
    LiveConcat(a + b, c, 0);
    LiveConcat(a, b, 0);
    SpanConcat(a, b);
  }

  lemma LiveBeside(a: seq<Block>, b: seq<Block>, c: seq<Block>, width: nat)
    requires width == Span(b)
    ensures Live(a + b + c, 0) == (Live(a, 0) + Live(c, Span(a) + width)) + Live(b, Span(a))
  {
    LiveThree(a, b, c);
    UnionSwap(Live(a, 0), Live(b, Span(a)), Live(c, Span(a) + width));
  }

  lemma UnionSwap<T>(x: set<T>, y: set<T>, z: set<T>)
    ensures (x + y) + z == (x + z) + y
  {
  }

  /** Live payloads lie inside the blocks they come from. */
  lemma {:induction false} LiveWithin(blocks: seq<Block>, base: nat)
    ensures forall p | p in Live(blocks, base) :: base + HEADER <= p.0 && p.0 + p.1 <= base + Span(blocks)
  {
    if blocks != [] {
      LiveWithin(blocks[1..], base + HEADER + blocks[0].size);
    }
  }

  lemma LiveSwap(a: seq<Block>, b: seq<Block>, b': seq<Block>, c: seq<Block>) returns (rest: set<(nat, nat)>)
    requires Span(b') == Span(b)
    ensures Live(a + b + c, 0) == rest + Live(b, Span(a)) && Live(a + b' + c, 0) == rest + Live(b', Span(a))
    ensures forall p | p in rest :: p.0 <= Span(a) || Span(a) + Span(b) + HEADER <= p.0
  {
    var width := Span(b);
    rest := Live(a, 0) + Live(c, Span(a) + width);
    LiveBeside(a, b, c, width);
    LiveBeside(a, b', c, width);
    LiveAround(a, c, Span(a) + width);
  }

  /** Replacing some blocks by others of the same span changes the live payloads only there. */
  lemma LiveReplace(blocks: seq<Block>, lo: nat, hi: nat, middle: seq<Block>) returns (rest: set<(nat, nat)>)
    requires lo <= hi <= |blocks| && Span(middle) == Span(blocks[lo..hi])
    ensures Live(blocks, 0) == rest + Live(blocks[lo..hi], Address(blocks, lo))
    ensures Live(Replace(blocks, lo, hi, middle), 0) == rest + Live(middle, Address(blocks, lo))
    ensures forall p | p in rest ::
      p.0 <= Address(blocks, lo) || Address(blocks, lo) + Span(middle) + HEADER <= p.0
  {
    rest := LiveSwap(blocks[..lo], blocks[lo..hi], middle, blocks[hi..]);
    assert blocks == blocks[..lo] + blocks[lo..hi] + blocks[hi..];
  }

  lemma LiveAround(before: seq<Block>, after: seq<Block>, base: nat)
    ensures forall p | p in Live(before, 0) + Live(after, base) :: p.0 <= Span(before) || base + HEADER <= p.0
  {
    LiveWithin(before, 0);
    LiveWithin(after, base);
  }

  /** An allocation adds exactly one live payload, not live before, and leaves all others where they are. */
  lemma AllocationAddsOne(blocks: seq<Block>, i: nat, size: nat)
    requires i < |blocks| && Fits(blocks[i], size)
    ensures var payload := (Address(blocks, i) + HEADER, SplitInto(blocks[i], size)[0].size);
      && payload.1 >= size
      && payload !in Live(blocks, 0)
      && Live(Allocated(blocks, i, size), 0) == Live(blocks, 0) + {payload}
  {
    SplitSpan(blocks[i], size);
    assert blocks[i..i + 1] == [blocks[i]];
    var rest := LiveReplace(blocks, i, i + 1, SplitInto(blocks[i], size));
    LiveOfSplit(blocks[i], size, Address(blocks, i));
  }

  lemma LiveOfSplit(b: Block, size: nat, base: nat)
    requires Fits(b, size)
    ensures Live([b], base) == {}
    ensures Live(SplitInto(b, size), base) == {(base + HEADER, SplitInto(b, size)[0].size)}
  {
    if b.size > size + HEADER + MIN_ALLOCATION {
      LiveConcat([Block(size, false)], [Block(b.size - size - HEADER, true)], base);
    }
  }

  /** Turning a run of blocks with one live payload into a free block removes that payload. */
  lemma MergeRemovesOne(blocks: seq<Block>, lo: nat, hi: nat, whole: Block, payload: (nat, nat))
    requires lo < hi <= |blocks| && whole.isFree && HEADER + whole.size == Span(blocks[lo..hi])
    requires Live(blocks[lo..hi], Address(blocks, lo)) == {payload}
    ensures payload in Live(blocks, 0)
    ensures Live(Replace(blocks, lo, hi, [whole]), 0) == Live(blocks, 0) - {payload}
  {
    SpanOfOne(whole);
    var rest := LiveReplace(blocks, lo, hi, [whole]);
    LiveOfFree([whole], Address(blocks, lo));
    LiveWithin(blocks[lo..hi], Address(blocks, lo));
    assert payload in Live(blocks[lo..hi], Address(blocks, lo));
  }

  /** A free removes exactly the freed payload and leaves all others where they are. */
  lemma FreeRemovesOne(blocks: seq<Block>, i: nat)
    requires i < |blocks| && !blocks[i].isFree
    ensures var payload := (Address(blocks, i) + HEADER, blocks[i].size);
      && payload in Live(blocks, 0)
      && Live(Freed(blocks, i), 0) == Live(blocks, 0) - {payload}
  {
    var lo, hi, whole := FreedIsMerge(blocks, i);
    MergeRemovesOne(blocks, lo, hi, whole, (Address(blocks, i) + HEADER, blocks[i].size));
  }

  lemma FreedIsMerge(blocks: seq<Block>, i: nat) returns (lo: nat, hi: nat, whole: Block)
    requires i < |blocks| && !blocks[i].isFree
    ensures lo < hi <= |blocks| && whole.isFree && HEADER + whole.size == Span(blocks[lo..hi])
    ensures Live(blocks[lo..hi], Address(blocks, lo)) == {(Address(blocks, i) + HEADER, blocks[i].size)}
    ensures Freed(blocks, i) == Replace(blocks, lo, hi, [whole])
  {
    lo, hi := RunStart(blocks, i), RunEnd(blocks, i);
    SpanPositive(blocks[lo..hi]);
    whole := Block(Span(blocks[lo..hi]) - HEADER, true);
    LiveOfRun(blocks, i);
  }

  lemma LiveOfOne(left: seq<Block>, b: Block, right: seq<Block>, base: nat)
    requires !b.isFree && (forall j | 0 <= j < |left| :: left[j].isFree)
    requires (forall j | 0 <= j < |right| :: right[j].isFree)
    ensures Live(left + ([b] + right), base) == {(base + Span(left) + HEADER, b.size)}
  {
    LiveConcat(left, [b] + right, base);
    LiveConcat([b], right, base + Span(left));
    LiveOfFree(left, base);
    LiveOfFree(right, base + Span(left) + Span([b]));
  }

  lemma LiveOfRun(blocks: seq<Block>, i: nat)
    requires i < |blocks| && !blocks[i].isFree
    ensures Live(blocks[RunStart(blocks, i)..RunEnd(blocks, i)], Address(blocks, RunStart(blocks, i)))
         == {(Address(blocks, i) + HEADER, blocks[i].size)}
  {
    var lo, hi := RunStart(blocks, i), RunEnd(blocks, i);
    var left, right := blocks[lo..i], blocks[i + 1..hi];
    LiveOfOne(left, blocks[i], right, Address(blocks, lo));
    assert blocks[lo..hi] == left + ([blocks[i]] + right);
    assert blocks[..i] == blocks[..lo] + left;
    SpanConcat(blocks[..lo], left);
  }

  lemma {:induction false} LiveOfFree(blocks: seq<Block>, base: nat)
    requires forall j | 0 <= j < |blocks| :: blocks[j].isFree
    ensures Live(blocks, base) == {}
  {
    if blocks != [] { LiveOfFree(blocks[1..], base + HEADER + blocks[0].size); }
  }

  /** A heap with nothing live is the single free block it started as. */
  lemma NothingLiveIsInitial(blocks: seq<Block>, pool: nat)
    requires Inv(blocks, pool) && Live(blocks, 0) == {}
    ensures blocks == [Block(pool - HEADER, true)]
  {
    forall i | 0 <= i < |blocks| ensures blocks[i].isFree {
      if !blocks[i].isFree { FreeRemovesOne(blocks, i); }
    }
    SpanOfOne(blocks[0]);
    assert blocks == [blocks[0]];
  }

  /** Live payloads are disjoint: between any two there is room for a header. */
  lemma {:induction false} PayloadsDisjoint(blocks: seq<Block>, base: nat)
    ensures forall p, q | p in Live(blocks, base) && q in Live(blocks, base) && p != q ::
      p.0 + p.1 + HEADER <= q.0 || q.0 + q.1 + HEADER <= p.0
  {
    if blocks != [] {
      PayloadsDisjoint(blocks[1..], base + HEADER + blocks[0].size);
      LiveWithin(blocks[1..], base + HEADER + blocks[0].size);
    }
  }

  // ---------------------------------------------------------------------------------------------
  // Whole runs
  // ---------------------------------------------------------------------------------------------

  datatype Event =
    | Allocate(size: SizeT, strategy: Strategy, i: nat)
    | FailToAllocate(size: SizeT, strategy: Strategy)
    | FreeBlock(i: nat)
    | FreeNull

  ghost predicate Step(blocks: seq<Block>, e: Event, blocks': seq<Block>) {
    match e
    case Allocate(size, strategy, i) =>
      IsChoice(blocks, RoundUp(size), strategy, i) && blocks' == Allocated(blocks, i, RoundUp(size))
    case FailToAllocate(size, strategy) =>
      (forall j | 0 <= j < |blocks| :: !Candidate(blocks[j], RoundUp(size), strategy)) && blocks' == blocks
    case FreeBlock(i) => i < |blocks| && blocks' == Freed(blocks, i)
    case FreeNull => blocks' == blocks
  }

  ghost predicate Run(pool: nat, states: seq<seq<Block>>, events: seq<Event>) {
    && |states| == |events| + 1 && pool >= HEADER && states[0] == [Block(pool - HEADER, true)]
    && forall i | 0 <= i < |events| :: Step(states[i], events[i], states[i + 1])
  }

  /** In every state of every run the blocks tile the pool and no two neighbours are free. */
  lemma {:induction false} RunKeeps(pool: nat, states: seq<seq<Block>>, events: seq<Event>, i: nat)
    requires Run(pool, states, events) && i < |states|
    ensures Inv(states[i], pool)
  {
    if i == 0 {
      SpanOfOne(Block(pool - HEADER, true));
    } else {
      RunKeeps(pool, states, events, i - 1);
      assert Step(states[i - 1], events[i - 1], states[i]);
      match events[i - 1]
      case Allocate(size, strategy, j) => AllocationKeeps(states[i - 1], pool, j, RoundUp(size));
      case FailToAllocate(_, _) =>
      case FreeBlock(j) =>
        if states[i - 1][j].isFree {
          FreeAgainChangesNothing(states[i - 1], pool, j);
        } else {
          FreeKeeps(states[i - 1], pool, j);
        }
      case FreeNull =>
    }
  }

  /** The payload an event gives back, if any. */
  ghost predicate Frees(blocks: seq<Block>, e: Event, payload: (nat, nat)) {
    e.FreeBlock? && e.i < |blocks| && payload == (Address(blocks, e.i) + HEADER, blocks[e.i].size)
  }

  /** A live payload neither moves nor shrinks nor disappears until it is freed itself. */
  lemma {:induction false} LivePersists(pool: nat, states: seq<seq<Block>>, events: seq<Event>, i: nat, j: nat,
                                        payload: (nat, nat))
    requires Run(pool, states, events) && i <= j < |states| && payload in Live(states[i], 0)
    requires forall k | i <= k < j :: !Frees(states[k], events[k], payload)
    ensures payload in Live(states[j], 0)
    decreases j - i
  {
    if i < j {
      LivePersists(pool, states, events, i, j - 1, payload);
      assert Step(states[j - 1], events[j - 1], states[j]) && !Frees(states[j - 1], events[j - 1], payload);
      match events[j - 1]
      case Allocate(size, strategy, k) => AllocationAddsOne(states[j - 1], k, RoundUp(size));
      case FailToAllocate(_, _) =>
      case FreeBlock(k) =>
        if states[j - 1][k].isFree {
          RunKeeps(pool, states, events, j - 1);
          FreeAgainChangesNothing(states[j - 1], pool, k);
        } else {
          FreeRemovesOne(states[j - 1], k);
        }
      case FreeNull =>
    }
  }

  /** An allocation in a run gives a payload that was not live before.  It holds the request if and only if the
      request is at most 2^64 - 16. */
  lemma AllocationHoldsRequest(pool: nat, states: seq<seq<Block>>, events: seq<Event>, i: nat)
    returns (payload: (nat, nat))
    requires Run(pool, states, events) && i < |events| && events[i].Allocate? && pool <= SIZE_LIMIT - MIN_ALLOCATION
    ensures payload !in Live(states[i], 0) && Live(states[i + 1], 0) == Live(states[i], 0) + {payload}
    ensures payload.1 >= events[i].size <==> events[i].size <= SIZE_LIMIT - MIN_ALLOCATION
  {
    var blocks, size, k := states[i], RoundUp(events[i].size), events[i].i;
    assert Step(blocks, events[i], states[i + 1]);
    payload := (Address(blocks, k) + HEADER, SplitInto(blocks[k], size)[0].size);
    AllocationAddsOne(blocks, k, size);
    RunKeeps(pool, states, events, i + 1);
    LiveWithin(states[i + 1], 0);
    assert payload in Live(states[i + 1], 0);
  }

  /** An allocation keeps the rest of its block for others if and only if the rest has room for more than a header
      and the smallest payload; the payload is then exactly the rounded request, and a free block follows it. */
  lemma AllocationSplitsIff(blocks: seq<Block>, size: SizeT, strategy: Strategy, i: nat, blocks': seq<Block>)
    requires Step(blocks, Allocate(size, strategy, i), blocks')
    ensures var spare := blocks[i].size - RoundUp(size) - HEADER;
      && (spare > MIN_ALLOCATION <==> |blocks'| == |blocks| + 1)
      && (spare > MIN_ALLOCATION ==>
            blocks'[i] == Block(RoundUp(size), false) && blocks'[i + 1..] == [Block(spare, true)] + blocks[i + 1..])
      && (spare <= MIN_ALLOCATION ==> blocks' == blocks[i := Block(blocks[i].size, false)])
      && blocks'[..i] == blocks[..i]
  {
    assert |SplitInto(blocks[i], RoundUp(size))| == 1 ==> |blocks'| == |blocks|;
  }

  /** First fit takes no block that a lower one could have replaced, best fit none that a smaller one could, and worst
      fit none that a larger one could; among equals the lowest is taken. */
  lemma StrategyFollowed(blocks: seq<Block>, size: SizeT, strategy: Strategy, i: nat, blocks': seq<Block>, j: nat)
    requires Step(blocks, Allocate(size, strategy, i), blocks')
    requires j < |blocks| && blocks[j].isFree && blocks[j].size >= RoundUp(size)
    ensures blocks[i].isFree && blocks[i].size >= RoundUp(size)
    ensures strategy == FirstFit || blocks[j].size == blocks[i].size ==> i <= j
    ensures strategy == BestFit ==> blocks[i].size <= blocks[j].size
    ensures strategy == WorstFit ==> blocks[i].size >= blocks[j].size
  {
    assert ChoiceOf(blocks, |blocks|, RoundUp(size), strategy, i);
    assert Candidate(blocks[j], RoundUp(size), strategy) || blocks[j].size == 0;
  }

  /** No allocation in a run takes more than a header and the smallest payload beyond the rounded request. */
  lemma AllocationIsTight(pool: nat, states: seq<seq<Block>>, events: seq<Event>, i: nat) returns (payload: (nat, nat))
    requires Run(pool, states, events) && i < |events| && events[i].Allocate?
    ensures Live(states[i + 1], 0) == Live(states[i], 0) + {payload} && payload !in Live(states[i], 0)
    ensures RoundUp(events[i].size) <= payload.1 <= RoundUp(events[i].size) + HEADER + MIN_ALLOCATION
  {
    var blocks, size, k := states[i], events[i].size, events[i].i;
    assert Step(blocks, events[i], states[i + 1]);
    payload := (Address(blocks, k) + HEADER, SplitInto(blocks[k], RoundUp(size))[0].size);
    AllocationAddsOne(blocks, k, RoundUp(size));
    AllocationSplitsIff(blocks, size, events[i].strategy, k, states[i + 1]);
  }

  /** The largest request succeeds, with a payload that does not hold it. */
  lemma HugeRequestGetsTooLittle(pool: nat) returns (states: seq<seq<Block>>, events: seq<Event>)
    requires HEADER <= pool <= SIZE_LIMIT - MIN_ALLOCATION
    ensures Run(pool, states, events) && events == [Allocate(SIZE_LIMIT - 1, FirstFit, 0)]
    ensures exists payload :: payload in Live(states[1], 0) && payload.1 < events[0].size
  {
    var blocks := [Block(pool - HEADER, true)];
    assert RoundUp(SIZE_LIMIT - 1) == 0;
    states, events := [blocks, Allocated(blocks, 0, 0)], [Allocate(SIZE_LIMIT - 1, FirstFit, 0)];
    assert Step(states[0], events[0], states[1]);
    var payload := AllocationHoldsRequest(pool, states, events, 0);
    assert payload in Live(states[1], 0);
  }

  /** Whenever everything has been freed, in whatever order, the heap is the initial block again. */
  lemma FreeingEverythingRestores(pool: nat, states: seq<seq<Block>>, events: seq<Event>, i: nat)
    requires Run(pool, states, events) && i < |states| && Live(states[i], 0) == {}
    ensures states[i] == states[0]
  {
    RunKeeps(pool, states, events, i);
    NothingLiveIsInitial(states[i], pool);
  }

  // ---------------------------------------------------------------------------------------------
  // The linked list in the pool
  // ---------------------------------------------------------------------------------------------

  /** A block header stored in the pool; `next` is the address of the next header, or NULL. */
  datatype Header = Header(size: nat, isFree: bool, next: Option<nat>)

  /** `blocks` are linked in the pool from address `at` on, and the last one points to `next`. */
  ghost predicate Segment(headers: map<nat, Header>, blocks: seq<Block>, at: nat, next: Option<nat>) {
    blocks == [] ||
    var after := at + HEADER + blocks[0].size;
    && at in headers
    && headers[at] == Header(blocks[0].size, blocks[0].isFree, if |blocks| == 1 then next else Some(after))
    && Segment(headers, blocks[1..], after, next)
  }

  lemma {:induction false} SegmentConcat(headers: map<nat, Header>, a: seq<Block>, b: seq<Block>, at: nat,
                                         next: Option<nat>)
    requires b != []
    ensures Segment(headers, a + b, at, next)
       <==> Segment(headers, a, at, Some(at + Span(a))) && Segment(headers, b, at + Span(a), next)
  {
    if a == [] {
      assert a + b == b;
    } else {
      assert (a + b)[1..] == a[1..] + b;
      SegmentConcat(headers, a[1..], b, at + HEADER + a[0].size, next);
    }
  }

  /** Two pools that agree on the addresses from `from` to `to`. */
  ghost predicate AgreeOn(headers: map<nat, Header>, headers': map<nat, Header>, from: nat, to: nat) {
    forall a | a in headers && from <= a < to :: a in headers' && headers'[a] == headers[a]
  }

  /** A segment depends only on the headers inside it. */
  lemma {:induction false} SegmentFrame(headers: map<nat, Header>, headers': map<nat, Header>, blocks: seq<Block>,
                                        at: nat, next: Option<nat>)
    requires Segment(headers, blocks, at, next) && AgreeOn(headers, headers', at, at + Span(blocks))
    ensures Segment(headers', blocks, at, next)
  {
    if blocks != [] {
      SegmentFrame(headers, headers', blocks[1..], at + HEADER + blocks[0].size, next);
    }
  }

  ghost function NextOf(blocks: seq<Block>, k: nat): Option<nat>
    requires k <= |blocks|
  {
    if k < |blocks| then Some(Address(blocks, k)) else None
  }

  /** A linked list cut in three. */
  lemma SegmentThree(headers: map<nat, Header>, blocks: seq<Block>, lo: nat, hi: nat)
    requires lo < hi <= |blocks|
    ensures Segment(headers, blocks, 0, None) <==>
      && Segment(headers, blocks[..lo], 0, Some(Address(blocks, lo)))
      && Segment(headers, blocks[lo..hi], Address(blocks, lo), NextOf(blocks, hi))
      && Segment(headers, blocks[hi..], Address(blocks, hi), None)
  {
    assert blocks == blocks[..lo] + blocks[lo..];
    SegmentConcat(headers, blocks[..lo], blocks[lo..], 0, None);
    if hi < |blocks| {
      assert blocks[lo..] == blocks[lo..hi] + blocks[hi..];
      SegmentConcat(headers, blocks[lo..hi], blocks[hi..], Address(blocks, lo), None);
      assert blocks[..hi] == blocks[..lo] + blocks[lo..hi];
      SpanConcat(blocks[..lo], blocks[lo..hi]);
    } else {
      assert blocks[lo..hi] == blocks[lo..];
    }
  }

  /** Relinking a run of blocks as other blocks of the same span relinks the whole list. */
  lemma SegmentReplace(headers: map<nat, Header>, headers': map<nat, Header>, blocks: seq<Block>, lo: nat, hi: nat,
                       middle: seq<Block>)
    requires Segment(headers, blocks, 0, None) && lo < hi <= |blocks| && middle != []
    requires Span(middle) == Span(blocks[lo..hi])
    requires AgreeOn(headers, headers', 0, Address(blocks, lo))
    requires AgreeOn(headers, headers', Address(blocks, hi), Span(blocks))
    requires Segment(headers', middle, Address(blocks, lo), NextOf(blocks, hi))
    ensures Segment(headers', Replace(blocks, lo, hi, middle), 0, None)
  {
    SegmentThree(headers, blocks, lo, hi);
    SegmentFrame(headers, headers', blocks[..lo], 0, Some(Address(blocks, lo)));
    assert blocks == blocks[..hi] + blocks[hi..];
    SpanConcat(blocks[..hi], blocks[hi..]);
    SegmentFrame(headers, headers', blocks[hi..], Address(blocks, hi), None);
    ReplaceParts(blocks, lo, hi, middle);
    SegmentThree(headers', Replace(blocks, lo, hi, middle), lo, lo + |middle|);
  }

  lemma ThreeParts<T>(a: seq<T>, b: seq<T>, c: seq<T>)
    ensures var s := a + b + c; var k := |a| + |b|;
      s[..|a|] == a && s[|a|..k] == b && s[k..] == c && s[..k] == a + b
  {
  }

  /** The three parts of a list after a replacement, and where the last one starts. */
  lemma ReplaceParts(blocks: seq<Block>, lo: nat, hi: nat, middle: seq<Block>)
    requires lo <= hi <= |blocks| && Span(middle) == Span(blocks[lo..hi])
    ensures var after := Replace(blocks, lo, hi, middle);
      && after[..lo] == blocks[..lo] && after[lo..lo + |middle|] == middle && after[lo + |middle|..] == blocks[hi..]
      && Address(after, lo + |middle|) == Address(blocks, hi) && NextOf(after, lo + |middle|) == NextOf(blocks, hi)
  {
    ThreeParts(blocks[..lo], middle, blocks[hi..]);
    SameAddress(blocks, lo, hi, middle);
  }

  lemma SameAddress(blocks: seq<Block>, lo: nat, hi: nat, middle: seq<Block>)
    requires lo <= hi <= |blocks| && Span(middle) == Span(blocks[lo..hi])
    ensures Span(blocks[..lo] + middle) == Address(blocks, hi)
  {
    assert blocks[..hi] == blocks[..lo] + blocks[lo..hi];
    SpanConcat(blocks[..lo], middle);
    SpanConcat(blocks[..lo], blocks[lo..hi]);
  }

  /** What the list holds at block `i`. */
  lemma HeaderAt(headers: map<nat, Header>, blocks: seq<Block>, i: nat)
    requires Segment(headers, blocks, 0, None) && i < |blocks|
    ensures Address(blocks, i) in headers
    ensures headers[Address(blocks, i)] == Header(blocks[i].size, blocks[i].isFree, NextOf(blocks, i + 1))
  {
    SegmentThree(headers, blocks, i, i + 1);
    assert blocks[i..i + 1] == [blocks[i]];
  }

  /** No candidate among the first `n` blocks. */
  ghost predicate NoCandidate(blocks: seq<Block>, n: nat, size: nat, strategy: Strategy)
    requires n <= |blocks|
  {
    forall j | 0 <= j < n :: !Candidate(blocks[j], size, strategy)
  }

  /** What the walk knows after `n` blocks: the choice among them, and its size as the one to beat. */
  ghost predicate Best(blocks: seq<Block>, n: nat, size: nat, strategy: Strategy, found: bool, i: nat,
                       minSize: nat, maxSize: nat, pool: nat)
    requires n <= |blocks|
  {
    if !found then NoCandidate(blocks, n, size, strategy) && minSize == pool + 1 && maxSize == 0
    else
      && strategy != FirstFit && ChoiceOf(blocks, n, size, strategy, i)
      && (strategy == BestFit ==> minSize == blocks[i].size) && (strategy == WorstFit ==> maxSize == blocks[i].size)
  }

  lemma BestStep(blocks: seq<Block>, n: nat, size: nat, strategy: Strategy, found: bool, i: nat,
                 minSize: nat, maxSize: nat, pool: nat)
    requires n < |blocks| && blocks[n].size <= pool && Best(blocks, n, size, strategy, found, i, minSize, maxSize, pool)
    ensures var h := blocks[n];
      if !Fits(h, size) then Best(blocks, n + 1, size, strategy, found, i, minSize, maxSize, pool)
      else match strategy
        case FirstFit => IsChoice(blocks, size, strategy, n)
        case BestFit =>
          if h.size < minSize then Best(blocks, n + 1, size, strategy, true, n, h.size, maxSize, pool)
          else Best(blocks, n + 1, size, strategy, found, i, minSize, maxSize, pool)
        case WorstFit =>
          if h.size > maxSize then Best(blocks, n + 1, size, strategy, true, n, minSize, h.size, pool)
          else Best(blocks, n + 1, size, strategy, found, i, minSize, maxSize, pool)
  {
    match strategy
    case FirstFit =>
    case BestFit =>
    case WorstFit =>
  }

  lemma BlockFitsPool(blocks: seq<Block>, i: nat)
    requires i < |blocks|
    ensures Address(blocks, i) + HEADER + blocks[i].size <= Span(blocks)
  {
    BlocksDisjoint(blocks, i, |blocks|);
    assert blocks[..|blocks|] == blocks;
  }

  class Heap {
    const pool: nat
    var headers: map<nat, Header>
    ghost var blocks: seq<Block>

    ghost predicate Valid()
      reads this
    {
      Inv(blocks, pool) && Segment(headers, blocks, 0, None)
    }

    /** `init_memory`. */
    constructor (pool: nat)
      requires pool >= HEADER
      ensures Valid() && this.pool == pool && blocks == [Block(pool - HEADER, true)]
    {
      this.pool := pool;
      headers := map[0 := Header(pool - HEADER, true, None)];
      blocks := [Block(pool - HEADER, true)];
      new;
      SpanOfOne(Block(pool - HEADER, true));
    }

    /** The walk of all three strategies.  First fit stops at the first candidate; the others keep the
        best size seen so far, starting from one that every candidate beats. */
    method Find(size: nat, strategy: Strategy) returns (found: Option<nat>, ghost i: nat)
      requires Valid()
      ensures found.None? ==> NoCandidate(blocks, |blocks|, size, strategy)
      ensures found.Some? ==> IsChoice(blocks, size, strategy, i) && found.value == Address(blocks, i)
    {
      found, i := None, 0;
      var minSize: nat, maxSize: nat := pool + 1, 0;
      var current: Option<nat> := Some(0);
      ghost var n := 0;
      while current.Some?
        invariant n <= |blocks| && current == NextOf(blocks, n)
        invariant found.Some? ==> i < n && found.value == Address(blocks, i)
        invariant Best(blocks, n, size, strategy, found.Some?, i, minSize, maxSize, pool)
        decreases |blocks| - n
      {
        HeaderAt(headers, blocks, n);
        BlockFitsPool(blocks, n);
        BestStep(blocks, n, size, strategy, found.Some?, i, minSize, maxSize, pool);
        var h := headers[current.value];
        if h.isFree && h.size >= size {
          if strategy == FirstFit {
            return current, n;
          } else if strategy == BestFit && h.size < minSize {
            minSize := h.size;
            found, i := current, n;
          } else if strategy == WorstFit && h.size > maxSize {
            maxSize := h.size;
            found, i := current, n;
          }
        }
        current := h.next;
        n := n + 1;
      }
    }

    method SplitBlock(block: nat, size: nat, ghost i: nat) returns (payload: nat)
      requires Valid() && i < |blocks| && block == Address(blocks, i) && Fits(blocks[i], size)
      modifies this
      ensures Valid() && blocks == Allocated(old(blocks), i, size) && payload == block + HEADER
    {
      HeaderAt(headers, blocks, i);
      AllocationKeeps(blocks, pool, i, size);
      ghost var middle := SplitInto(blocks[i], size);
      ghost var headers0 := headers;
      AddressStep(blocks, i);
      SplitSpan(blocks[i], size);
      assert blocks[i..i + 1] == [blocks[i]];
      var h := headers[block];
      if h.size > size + HEADER + MIN_ALLOCATION {
        var newBlock := block + HEADER + size;
        headers := headers[newBlock := Header(h.size - size - HEADER, true, h.next)];
        headers := headers[block := Header(size, false, Some(newBlock))];
        assert middle[1..] == [Block(h.size - size - HEADER, true)];
      } else {
        headers := headers[block := h.(isFree := false)];
      }
      SegmentReplace(headers0, headers, blocks, i, i + 1, middle);
      blocks := Allocated(blocks, i, size);
      payload := block + HEADER;
    }

    /** Allocation with any strategy.  It fails only when no block is a candidate, and then changes
        nothing. */
    method AllocateMemory(requested: SizeT, strategy: Strategy) returns (result: Option<nat>, ghost i: nat)
      requires Valid()
      modifies this
      ensures Valid()
      ensures result.None? ==> blocks == old(blocks) && NoCandidate(blocks, |blocks|, RoundUp(requested), strategy)
      ensures result.Some? ==>
        && IsChoice(old(blocks), RoundUp(requested), strategy, i)
        && blocks == Allocated(old(blocks), i, RoundUp(requested))
        && result.value == Address(old(blocks), i) + HEADER
    {
      var size := RoundUp(requested);
      var found;
      found, i := Find(size, strategy);
      if found.None? { return None, i; }
      var payload := SplitBlock(found.value, size, i);
      result := Some(payload);
    }

    /** The two assignments that let a block absorb the next one. */
    method Absorb(block: nat, ghost k: nat)
      requires Segment(headers, blocks, 0, None) && k + 1 < |blocks| && block == Address(blocks, k)
      modifies this
      ensures Segment(headers, blocks, 0, None) && blocks == Merged(old(blocks), k)
    {
      HeaderAt(headers, blocks, k);
      HeaderAt(headers, blocks, k + 1);
      AddressStep(blocks, k);
      AddressStep(blocks, k + 1);
      MergedSpan(blocks, k);
      ghost var headers0, middle := headers, [Absorbed(blocks[k], blocks[k + 1])];
      var h := headers[block];
      var next := headers[h.next.value];
      headers := headers[block := h.(size := h.size + HEADER + next.size, next := next.next)];
      SegmentReplace(headers0, headers, blocks, k, k + 2, middle);
      blocks := Merged(blocks, k);
    }

    /** Marks a block as free. */
    method Release(block: nat, ghost i: nat)
      requires Segment(headers, blocks, 0, None) && i < |blocks| && block == Address(blocks, i)
      modifies this
      ensures Segment(headers, blocks, 0, None) && blocks == old(blocks)[i := Block(old(blocks)[i].size, true)]
    {
      HeaderAt(headers, blocks, i);
      AddressStep(blocks, i);
      ghost var headers0, middle := headers, [Block(blocks[i].size, true)];
      SpanOfOne(blocks[i]);
      SpanOfOne(middle[0]);
      assert blocks[i..i + 1] == [blocks[i]];
      headers := headers[block := headers[block].(isFree := true)];
      SegmentReplace(headers0, headers, blocks, i, i + 1, middle);
      assert Replace(blocks, i, i + 1, middle) == blocks[i := middle[0]];
      blocks := blocks[i := Block(blocks[i].size, true)];
    }

    /** The walk to the block in front of `block`. */
    method Predecessor(block: nat, ghost i: nat) returns (prev: Option<nat>)
      requires Segment(headers, blocks, 0, None) && i < |blocks| && block == Address(blocks, i)
      ensures prev == if i == 0 then None else Some(Address(blocks, i - 1))
    {
      prev := Some(0);
      ghost var n := 0;
      AddressesInjective(blocks);
      HeaderAt(headers, blocks, 0);
      while prev.Some? && headers[prev.value].next != Some(block)
        invariant n <= |blocks| && prev == NextOf(blocks, n) && (i > 0 ==> n < i)
        invariant prev.Some? ==> prev.value in headers && headers[prev.value].next == NextOf(blocks, n + 1)
        decreases |blocks| - n
      {
        prev := headers[prev.value].next;
        n := n + 1;
        if n < |blocks| { HeaderAt(headers, blocks, n); }
      }
    }

    /** `free_memory` of the payload of a block, or of NULL.  Freeing a free block changes nothing. */
    method FreeMemory(ptr: Option<nat>, ghost i: nat)
      requires Valid()
      requires ptr.Some? ==> i < |blocks| && ptr.value == Address(blocks, i) + HEADER
      modifies this
      ensures Valid()
      ensures blocks == if ptr.None? || old(blocks)[i].isFree then old(blocks) else Freed(old(blocks), i)
    {
      if ptr.None? { return; }
      ghost var blocks0 := blocks;
      if blocks[i].isFree {
        FreeAgainChangesNothing(blocks, pool, i);
      } else {
        FreeKeeps(blocks, pool, i);
      }
      var block := ptr.value - HEADER;
      Release(block, i);
      assert blocks[..i] == blocks0[..i];
      AbsorbNext(block, i);
      AbsorbIntoPrevious(block, i);
      FreedInSteps(blocks0, i);
    }

    /** The merge with a free right neighbour. */
    method AbsorbNext(block: nat, ghost i: nat)
      requires Segment(headers, blocks, 0, None) && i < |blocks| && block == Address(blocks, i)
      modifies this
      ensures Segment(headers, blocks, 0, None) && blocks == AbsorbRight(old(blocks), i)
    {
      HeaderAt(headers, blocks, i);
      var next := headers[block].next;
      if next.Some? {
        HeaderAt(headers, blocks, i + 1);
        if headers[next.value].isFree {
          Absorb(block, i);
        }
      }
    }

    /** The merge with a free left neighbour. */
    method AbsorbIntoPrevious(block: nat, ghost i: nat)
      requires Segment(headers, blocks, 0, None) && i < |blocks| && block == Address(blocks, i)
      modifies this
      ensures Segment(headers, blocks, 0, None) && blocks == AbsorbLeft(old(blocks), i)
    {
      var prev := Predecessor(block, i);
      if prev.Some? {
        HeaderAt(headers, blocks, i - 1);
        if headers[prev.value].isFree {
          Absorb(prev.value, i - 1);
        }
      }
    }
  }

  function Absorbed(b: Block, c: Block): Block { Block(b.size + HEADER + c.size, b.isFree) }

  /** Block `k` has absorbed its right neighbour. */
  function Merged(blocks: seq<Block>, k: nat): seq<Block>
    requires k + 1 < |blocks|
  {
    Replace(blocks, k, k + 2, [Absorbed(blocks[k], blocks[k + 1])])
  }

  lemma MergedSpan(blocks: seq<Block>, k: nat)
    requires k + 1 < |blocks|
    ensures Span([Absorbed(blocks[k], blocks[k + 1])]) == Span(blocks[k..k + 2])
  {
    assert blocks[k..k + 2] == [blocks[k]] + [blocks[k + 1]];
    SpanConcat([blocks[k]], [blocks[k + 1]]);
    SpanOfOne(blocks[k]);
    SpanOfOne(blocks[k + 1]);
    SpanOfOne(Absorbed(blocks[k], blocks[k + 1]));
  }

  /** Block `i` absorbs a free right neighbour. */
  function AbsorbRight(blocks: seq<Block>, i: nat): (r: seq<Block>)
    requires i < |blocks|
    ensures i < |r| && r[..i] == blocks[..i]
  {
    if i + 1 < |blocks| && blocks[i + 1].isFree then Merged(blocks, i) else blocks
  }

  /** Block `i` is absorbed by a free left neighbour. */
  function AbsorbLeft(blocks: seq<Block>, i: nat): seq<Block>
    requires i < |blocks|
  {
    if i > 0 && blocks[i - 1].isFree then Merged(blocks, i - 1) else blocks
  }

  /** The steps of `free_memory`: retag, absorb a free right neighbour, be absorbed by a free left one. */
  function FreedStepwise(blocks: seq<Block>, i: nat): seq<Block>
    requires i < |blocks|
  {
    AbsorbLeft(AbsorbRight(blocks[i := Block(blocks[i].size, true)], i), i)
  }

  lemma RunSpan(blocks: seq<Block>, i: nat)
    requires i < |blocks|
    ensures Span(blocks[RunStart(blocks, i)..RunEnd(blocks, i)]) == HEADER + RunSize(blocks, i)
  {
    var lo, hi := RunStart(blocks, i), RunEnd(blocks, i);
    assert blocks[lo..hi] == blocks[lo..i] + [blocks[i]] + blocks[i + 1..hi];
    SpanConcat(blocks[lo..i] + [blocks[i]], blocks[i + 1..hi]);
    SpanConcat(blocks[lo..i], [blocks[i]]);
    SpanOfOne(blocks[i]);
    if lo < i {
      assert blocks[lo..i] == [blocks[i - 1]];
      SpanOfOne(blocks[i - 1]);
    }
    if i + 1 < hi {
      assert blocks[i + 1..hi] == [blocks[i + 1]];
      SpanOfOne(blocks[i + 1]);
    }
  }

  /** Two neighbours in the middle become one. */
  lemma MergedMiddle(before: seq<Block>, b: Block, c: Block, after: seq<Block>)
    ensures Merged(before + [b, c] + after, |before|) == before + [Absorbed(b, c)] + after
  {
    var blocks := before + [b, c] + after;
    assert blocks[..|before|] == before && blocks[|before| + 2..] == after;
    assert blocks[|before|] == b && blocks[|before| + 1] == c;
  }

  /** The size of block `i` when it has absorbed its right neighbour. */
  function RightSize(blocks: seq<Block>, i: nat): nat
    requires i < |blocks|
  {
    blocks[i].size + (if i + 1 < RunEnd(blocks, i) then HEADER + blocks[i + 1].size else 0)
  }

  lemma RightStep(blocks: seq<Block>, i: nat)
    requires i < |blocks|
    ensures AbsorbRight(blocks[i := Block(blocks[i].size, true)], i)
      == blocks[..i] + [Block(RightSize(blocks, i), true)] + blocks[RunEnd(blocks, i)..]
  {
    var free := Block(blocks[i].size, true);
    if RunEnd(blocks, i) == i + 2 {
      assert blocks[i := free] == blocks[..i] + [free, blocks[i + 1]] + blocks[i + 2..];
      MergedMiddle(blocks[..i], free, blocks[i + 1], blocks[i + 2..]);
    } else {
      assert blocks[i := free] == blocks[..i] + [free] + blocks[i + 1..];
    }
  }

  lemma LeftStep(before: seq<Block>, a: Block, b: Block, after: seq<Block>)
    requires a.isFree
    ensures AbsorbLeft(before + [a] + [b] + after, |before| + 1) == before + [Absorbed(a, b)] + after
  {
    assert before + [a] + [b] + after == before + [a, b] + after;
    MergedMiddle(before, a, b, after);
  }

  /** The size of the block that the run around block `i` becomes. */
  function RunSize(blocks: seq<Block>, i: nat): nat
    requires i < |blocks|
  {
    (if RunStart(blocks, i) < i then blocks[i - 1].size + HEADER else 0) + RightSize(blocks, i)
  }

  lemma StepwiseIs(blocks: seq<Block>, i: nat)
    requires i < |blocks|
    ensures FreedStepwise(blocks, i)
      == blocks[..RunStart(blocks, i)] + [Block(RunSize(blocks, i), true)] + blocks[RunEnd(blocks, i)..]
  {
    var b, after := Block(RightSize(blocks, i), true), blocks[RunEnd(blocks, i)..];
    RightStep(blocks, i);
    if RunStart(blocks, i) < i {
      assert blocks[..i] == blocks[..i - 1] + [blocks[i - 1]];
      LeftStep(blocks[..i - 1], blocks[i - 1], b, after);
    }
  }

  /** The steps amount to one free block in place of the whole run. */
  lemma FreedInSteps(blocks: seq<Block>, i: nat)
    requires i < |blocks|
    ensures FreedStepwise(blocks, i) == Freed(blocks, i)
  {
    RunSpan(blocks, i);
    StepwiseIs(blocks, i);
  }
}
