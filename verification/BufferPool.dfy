/** The buffer pool of os/filesystem/CustomBufferManagementSystem.c: a page table with linear probing,
    a free list, and clock replacement.

    Removing an entry from the page table leaves a hole that can cut probe chains.  The theorems say
    exactly when it does, that lookup is exact as long as no chain is cut, and what the clock hand
    does.  A page that a hole hides can be loaded into a second frame; every fetch returns the frame of its
    page up to the first eviction that then takes out the entry of another frame than the victim's.  The
    sizes of the pool and of the table are parameters, the pool being the smaller.
 */
module BufferPool {
  import opened Common
  import opened Counting
  import opened Ring

  const NONE := -1

  /** The page table: page and frame of every slot, `NONE` for an empty slot. */
  datatype Table = Table(pages: seq<int>, frames: seq<int>)

  predicate WellFormed(t: Table) {
    && 0 < |t.pages| == |t.frames|
    && forall h | 0 <= h < |t.pages| :: t.pages[h] >= NONE
  }

  function Home(page: nat, size: nat): (h: nat)
    requires size > 0
    ensures h < size && (page < size ==> h == page)
  {
    page % size
  }

  /** Pages that differ by the size of the table have the same home. */
  lemma HomeRepeats(page: nat, size: nat)
    requires size > 0
    ensures Home(page + size, size) == Home(page, size)
  {
    RemainderRepeats(page, size);
  }

  /** The slot that is `k` steps along the probe sequence of a page. */
  function Probe(t: Table, page: nat, k: nat): (h: nat)
    requires WellFormed(t) && k <= |t.pages|
    ensures h < |t.pages|
  {
    Slot(Home(page, |t.pages|), k, |t.pages|)
  }

  /** How many steps a slot is from a page's home. */
  function Steps(t: Table, page: nat, h: nat): (k: nat)
    requires WellFormed(t) && h < |t.pages|
    ensures k < |t.pages| && Probe(t, page, k) == h
  {
    var home := Home(page, |t.pages|);
    if home <= h then h - home else h + |t.pages| - home
  }

  // ---------------------------------------------------------------------------------------------
  // Probe chains
  // ---------------------------------------------------------------------------------------------

  predicate Occupied(t: Table, h: nat) { h < |t.pages| && t.pages[h] != NONE }

  /** No slot between the home of the page at `h` and `h` is empty. */
  ghost predicate ChainTo(t: Table, h: nat)
    requires WellFormed(t) && Occupied(t, h)
  {
    forall k: nat | k < Steps(t, t.pages[h], h) :: Occupied(t, Probe(t, t.pages[h], k))
  }

  /** Every page can be reached from its home, and is in the table once. */
  ghost predicate Intact(t: Table) {
    && WellFormed(t)
    && (forall h: nat | Occupied(t, h) :: ChainTo(t, h))
    && (forall h: nat, g: nat | Occupied(t, h) && Occupied(t, g) && t.pages[h] == t.pages[g] :: h == g)
  }

  /** The probe path of the page at `g` goes over slot `h`. */
  ghost predicate Crosses(t: Table, g: nat, h: nat)
    requires WellFormed(t) && Occupied(t, g)
  {
    exists k: nat :: k < Steps(t, t.pages[g], g) && Probe(t, t.pages[g], k) == h
  }

  function Put(t: Table, h: nat, page: int, frame: int): Table
    requires h < |t.pages| == |t.frames|
  {
    Table(t.pages[h := page], t.frames[h := frame])
  }

  /** `remove_from_page_table` at slot `h`. */
  function Remove(t: Table, h: nat): Table
    requires h < |t.pages| == |t.frames|
  {
    Put(t, h, NONE, NONE)
  }

  /** Filling an empty slot with a new page keeps all chains if the slots before it are occupied. */
  lemma PutKeeps(t: Table, h: nat, page: nat, frame: nat)
    requires Intact(t) && h < |t.pages| && !Occupied(t, h)
    requires forall g: nat | Occupied(t, g) :: t.pages[g] != page
    requires forall k: nat | k < Steps(t, page, h) :: Occupied(t, Probe(t, page, k))
    ensures Intact(Put(t, h, page, frame))
  {
    var t' := Put(t, h, page, frame);
    forall g: nat | Occupied(t', g) ensures ChainTo(t', g) {
      forall k: nat | k < Steps(t', t'.pages[g], g) ensures Occupied(t', Probe(t', t'.pages[g], k)) {
        if g != h {
          assert ChainTo(t, g);
          assert Occupied(t, Probe(t, t.pages[g], k));
        } else {
          assert Occupied(t, Probe(t, page, k));
        }
      }
    }
  }

  /** Removing an entry keeps the remaining chains if and only if no other page's path goes over it. */
  lemma RemoveIntactIff(t: Table, h: nat)
    requires Intact(t) && Occupied(t, h)
    ensures Intact(Remove(t, h)) <==> forall g: nat | Occupied(t, g) && g != h :: !Crosses(t, g, h)
  {
    var t' := Remove(t, h);
    assert forall g: nat :: Occupied(t', g) <==> Occupied(t, g) && g != h;
    if forall g: nat | Occupied(t, g) && g != h :: !Crosses(t, g, h) {
      forall g: nat | Occupied(t', g) ensures ChainTo(t', g) {
        assert ChainTo(t, g) && !Crosses(t, g, h);
        forall k: nat | k < Steps(t', t'.pages[g], g) ensures Occupied(t', Probe(t', t'.pages[g], k)) {
          assert Occupied(t, Probe(t, t.pages[g], k));
        }
      }
    }
    if Intact(t') {
      forall g: nat | Occupied(t, g) && g != h ensures !Crosses(t, g, h) {
        assert ChainTo(t', g);
        forall k: nat | k < Steps(t, t.pages[g], g) ensures Probe(t, t.pages[g], k) != h {
          assert Occupied(t', Probe(t', t'.pages[g], k));
        }
      }
    }
  }

  /** Slot `x` is where `insert_into_page_table` puts a page: the first empty slot from its home on. */
  ghost predicate IsInsertSlot(t: Table, page: nat, x: nat)
    requires WellFormed(t)
  {
    x < |t.pages| && !Occupied(t, x) && forall k: nat | k < Steps(t, page, x) :: Occupied(t, Probe(t, page, k))
  }

  ghost predicate Absent(t: Table, page: int) { forall g: nat | Occupied(t, g) :: t.pages[g] != page }

  /** Replacing the page at `h` by a new one that goes to `x`: chains stay intact if and only if the
      new page fills the hole or no other page's path goes over it. */
  lemma ReplaceIntactIff(t: Table, h: nat, page: nat, frame: nat, x: nat)
    requires Intact(t) && Occupied(t, h) && Absent(t, page) && IsInsertSlot(Remove(t, h), page, x)
    ensures Intact(Put(Remove(t, h), x, page, frame)) <==>
      x == h || forall g: nat | Occupied(t, g) && g != h :: !Crosses(t, g, h)
  {
    var t1 := Remove(t, h);
    var t2 := Put(t1, x, page, frame);
    RemoveIntactIff(t, h);
    if x == h {
      RefillKeeps(t, h, page, frame);
    } else if Intact(t1) {
      PutKeeps(t1, x, page, frame);
    } else if Intact(t2) {
      forall g: nat | Occupied(t, g) && g != h ensures !Crosses(t, g, h) {
        assert t2.pages[g] == t.pages[g];
        assert ChainTo(t2, g);
        forall k: nat | k < Steps(t, t.pages[g], g) ensures Probe(t, t.pages[g], k) != h {
          assert Occupied(t2, Probe(t2, t2.pages[g], k));
        }
      }
    }
  }

  lemma RefillKeeps(t: Table, h: nat, page: nat, frame: nat)
    requires Intact(t) && Occupied(t, h) && Absent(t, page) && IsInsertSlot(Remove(t, h), page, h)
    ensures Intact(Put(Remove(t, h), h, page, frame))
  {
    var t2 := Put(Remove(t, h), h, page, frame);
    assert forall g: nat :: Occupied(t2, g) <==> Occupied(t, g);
    forall g: nat | Occupied(t2, g) ensures ChainTo(t2, g) {
      forall k: nat | k < Steps(t2, t2.pages[g], g) ensures Occupied(t2, Probe(t2, t2.pages[g], k)) {
        if g != h {
          assert ChainTo(t, g) && Occupied(t, Probe(t, t.pages[g], k));
        } else {
          assert Occupied(Remove(t, h), Probe(Remove(t, h), page, k));
        }
      }
    }
  }

  // ---------------------------------------------------------------------------------------------
  // Looking up
  // ---------------------------------------------------------------------------------------------

  /** `lookup_page` stops at slot `h`: it holds the page, and the slots before it on the page's path are
      occupied by other pages. */
  ghost predicate Found(t: Table, page: nat, h: nat)
    requires WellFormed(t)
  {
    && h < |t.pages| && t.pages[h] == page
    && forall k: nat | k < Steps(t, page, h) :: Occupied(t, Probe(t, page, k)) && t.pages[Probe(t, page, k)] != page
  }

  /** `lookup_page` does not find the page. */
  ghost predicate Missing(t: Table, page: nat)
    requires WellFormed(t)
  {
    forall h: nat :: !Found(t, page, h)
  }

  lemma FoundOnce(t: Table, page: nat, h: nat, g: nat)
    requires WellFormed(t) && Found(t, page, h) && Found(t, page, g)
    ensures g == h
  {
    assert Probe(t, page, Steps(t, page, g)) == g && Probe(t, page, Steps(t, page, h)) == h;
  }

  /** Chains are intact if and only if every page in the table is found where it is. */
  lemma IntactIffFound(t: Table)
    requires WellFormed(t)
    ensures Intact(t) <==> forall h: nat | Occupied(t, h) :: Found(t, t.pages[h], h)
  {
    if Intact(t) {
      forall h: nat | Occupied(t, h) ensures Found(t, t.pages[h], h) { IntactFinds(t, h); }
    }
    if forall h: nat | Occupied(t, h) :: Found(t, t.pages[h], h) {
      forall h: nat, g: nat | Occupied(t, h) && Occupied(t, g) && t.pages[h] == t.pages[g] ensures h == g {
        FoundOnce(t, t.pages[h], h, g);
      }
      forall h: nat | Occupied(t, h) ensures ChainTo(t, h) {
        assert Found(t, t.pages[h], h);
      }
    }
  }

  lemma IntactFinds(t: Table, h: nat)
    requires Intact(t) && Occupied(t, h)
    ensures Found(t, t.pages[h], h)
  {
    assert ChainTo(t, h);
    forall k: nat | k < Steps(t, t.pages[h], h)
      ensures Occupied(t, Probe(t, t.pages[h], k)) && t.pages[Probe(t, t.pages[h], k)] != t.pages[h]
    {
      StepsOfProbe(t, t.pages[h], k);
    }
  }

  /** In an intact table, a page that is not found is not there. */
  lemma MissingIsAbsent(t: Table, page: nat)
    requires Intact(t) && Missing(t, page)
    ensures Absent(t, page)
  {
    IntactIffFound(t);
  }

  /** No page can be found beyond an empty slot of its probe sequence. */
  lemma ProbeEnds(t: Table, page: nat, k: nat)
    requires WellFormed(t) && k < |t.pages| && !Occupied(t, Probe(t, page, k))
    requires forall j: nat | j < k :: t.pages[Probe(t, page, j)] != page
    ensures Missing(t, page)
  {
  }

  /** The first slot on the path of a page that holds it, whether or not a lookup gets there. */
  ghost predicate FirstOf(t: Table, page: nat, h: nat)
    requires WellFormed(t)
  {
    && h < |t.pages| && t.pages[h] == page
    && forall k: nat | k < Steps(t, page, h) :: t.pages[Probe(t, page, k)] != page
  }

  // ---------------------------------------------------------------------------------------------
  // Pages at home
  // ---------------------------------------------------------------------------------------------

  /** Every page is in its home slot. */
  ghost predicate AtHome(t: Table)
    requires WellFormed(t)
  {
    forall h: nat | Occupied(t, h) :: Home(t.pages[h], |t.pages|) == h
  }

  ghost predicate NoCollision(t: Table, page: nat)
    requires WellFormed(t)
  {
    forall h: nat | Occupied(t, h) :: Home(t.pages[h], |t.pages|) == Home(page, |t.pages|) ==> t.pages[h] == page
  }

  /** As long as pages do not collide, nobody's path goes over another slot, so no removal cuts a chain. */
  lemma AtHomeNothingCrosses(t: Table, h: nat)
    requires WellFormed(t) && AtHome(t) && Occupied(t, h)
    ensures forall g: nat | Occupied(t, g) :: !Crosses(t, g, h)
  {
  }

  /** A page that collides with none goes to its home. */
  lemma InsertedAtHome(t: Table, page: nat, x: nat)
    requires WellFormed(t) && AtHome(t) && NoCollision(t, page) && Absent(t, page) && IsInsertSlot(t, page, x)
    ensures x == Home(page, |t.pages|)
  {
    assert Probe(t, page, 0) == Home(page, |t.pages|);
    assert !Occupied(t, Home(page, |t.pages|));
  }

  /** Page ids below the size of the table do not collide. */
  lemma SmallIdsDoNotCollide(t: Table, page: nat)
    requires WellFormed(t) && page < |t.pages| && SmallIds(t)
    ensures NoCollision(t, page)
  {
  }

  // ---------------------------------------------------------------------------------------------
  // The clock
  // ---------------------------------------------------------------------------------------------

  /** The frame `n` places clockwise from the hand, for up to two turns. */
  function Clockwise(hand: nat, n: nat, size: nat): (f: nat)
    requires hand < size && n < 2 * size
    ensures f < size
  {
    Slot(hand, if n < size then n else n - size, size)
  }

  /** The clock stops after passing `n` frames.  In the first turn it stops at the first unpinned frame
      without a reference bit; if there is none, it stops in the second turn at the first unpinned one. */
  ghost predicate StopsAfter(pins: seq<int>, refs: seq<bool>, hand: nat, n: nat)
    requires hand < |pins| == |refs|
  {
    var size := |pins|;
    && n < 2 * size
    && pins[Clockwise(hand, n, size)] == 0
    && (n < size ==> !refs[Clockwise(hand, n, size)])
    && NoStopBefore(pins, refs, hand, n)
  }

  /** The clock passes `n` frames: all pinned or referenced in the first turn, all pinned in the second. */
  ghost predicate NoStopBefore(pins: seq<int>, refs: seq<bool>, hand: nat, n: nat)
    requires hand < |pins| == |refs|
  {
    var size := |pins|;
    && (forall j | 0 <= j < n && j < size :: pins[Slot(hand, j, size)] != 0 || refs[Slot(hand, j, size)])
    && (forall j | 0 <= j < n - size && j < size :: pins[Slot(hand, j, size)] != 0)
  }

  /** The reference bits after passing `n` frames: exactly those of the unpinned frames passed are cleared. */
  ghost predicate ClearedUpTo(pins: seq<int>, refs: seq<bool>, hand: nat, n: nat, refs': seq<bool>)
    requires hand < |pins| == |refs|
  {
    && |refs'| == |refs|
    && forall j | 0 <= j < |pins| ::
         refs'[Slot(hand, j, |pins|)] == (refs[Slot(hand, j, |pins|)] && !(pins[Slot(hand, j, |pins|)] == 0 && j < n))
  }

  /** The stopping place is unique, so the two predicates determine the victim. */
  lemma StopUnique(pins: seq<int>, refs: seq<bool>, hand: nat, n: nat, m: nat)
    requires hand < |pins| == |refs| && StopsAfter(pins, refs, hand, n) && StopsAfter(pins, refs, hand, m)
    ensures n == m
  {
  }

  lemma ClearOne(pins: seq<int>, refs: seq<bool>, hand: nat, n: nat, refs': seq<bool>)
    requires hand < |pins| == |refs| && n < 2 * |pins| && ClearedUpTo(pins, refs, hand, n, refs')
    ensures var f := Clockwise(hand, n, |pins|);
      ClearedUpTo(pins, refs, hand, n + 1, if pins[f] == 0 then refs'[f := false] else refs')
  {
  }

  /** The clock stops at the next frame exactly if it is unpinned and its bit is clear by now; and it does
      not pass a frame `u` places on that is unpinned, twice. */
  lemma PassOne(pins: seq<int>, refs: seq<bool>, hand: nat, n: nat, refs': seq<bool>, u: nat)
    requires hand < |pins| == |refs| && n < 2 * |pins| && ClearedUpTo(pins, refs, hand, n, refs')
    requires NoStopBefore(pins, refs, hand, n)
    requires u < |pins| && pins[Slot(hand, u, |pins|)] == 0 && n <= |pins| + u
    ensures var f := Clockwise(hand, n, |pins|);
      if pins[f] == 0 && !refs'[f] then StopsAfter(pins, refs, hand, n)
      else NoStopBefore(pins, refs, hand, n + 1) && n < |pins| + u
  {
  }

  lemma OffsetOf(hand: nat, f: nat, size: nat) returns (u: nat)
    requires hand < size && f < size
    ensures u < size && Slot(hand, u, size) == f
  {
    u := if hand <= f then f - hand else f + size - hand;
  }

  /** The body of the loop of `find_victim_page`: whether the frame at the hand is the victim, and the new hand. */
  method ClockStep(pinCounts: array<int>, referenceBits: array<bool>, hand: nat) returns (found: bool, clockHand: nat)
    requires hand < pinCounts.Length == referenceBits.Length
    modifies referenceBits
    ensures found == (pinCounts[hand] == 0 && !old(referenceBits[hand]))
    ensures referenceBits[..]
      == if pinCounts[hand] == 0 then old(referenceBits[..])[hand := false] else old(referenceBits[..])
    ensures clockHand == Slot(hand, 1, pinCounts.Length)
  {
    SlotIsModulo(hand, 1, pinCounts.Length);
    clockHand := (hand + 1) % pinCounts.Length;
    if pinCounts[hand] == 0 {
      if referenceBits[hand] {
        referenceBits[hand] := false;
      } else {
        return true, clockHand;
      }
    }
    return false, clockHand;
  }

  /** `find_victim_page`, when some frame is unpinned: within two turns. */
  method FindVictimPage(pinCounts: array<int>, referenceBits: array<bool>, hand: nat)
    returns (victim: nat, clockHand: nat, ghost n: nat)
    requires hand < pinCounts.Length == referenceBits.Length
    requires exists f :: 0 <= f < pinCounts.Length && pinCounts[f] == 0
    modifies referenceBits
    ensures StopsAfter(pinCounts[..], old(referenceBits[..]), hand, n)
    ensures victim == Clockwise(hand, n, pinCounts.Length) && clockHand == (victim + 1) % pinCounts.Length
    ensures ClearedUpTo(pinCounts[..], old(referenceBits[..]), hand, n, referenceBits[..])
  {
    ghost var size := pinCounts.Length;
    ghost var f :| 0 <= f < size && pinCounts[f] == 0;
    ghost var u := OffsetOf(hand, f, size);
    ghost var pins, refs := pinCounts[..], referenceBits[..];
    clockHand := hand;
    n := 0;
    while true
      invariant n <= size + u && clockHand == Clockwise(hand, n, size)
      invariant ClearedUpTo(pins, refs, hand, n, referenceBits[..]) && NoStopBefore(pins, refs, hand, n)
      decreases size + u - n
    {
      ClearOne(pins, refs, hand, n, referenceBits[..]);
      PassOne(pins, refs, hand, n, referenceBits[..], u);
      victim := clockHand;
      var found;
      ghost var refs' := referenceBits[..];
      found, clockHand := ClockStep(pinCounts, referenceBits, victim);
      if found {
        SlotIsModulo(victim, 1, size);
        assert referenceBits[..] == refs';
        return;
      }
      n := n + 1;
    }
  }

  /** `steps` steps of that loop when every frame is pinned: no number of them finds a victim, so that with
      the method above the loop ends exactly if some frame is unpinned. */
  method ClockSteps(pinCounts: array<int>, referenceBits: array<bool>, hand: nat, steps: nat)
    returns (found: bool, clockHand: nat)
    requires hand < pinCounts.Length == referenceBits.Length
    requires forall f | 0 <= f < pinCounts.Length :: pinCounts[f] != 0
    modifies referenceBits
    ensures !found && clockHand < pinCounts.Length && referenceBits[..] == old(referenceBits[..])
  {
    found, clockHand := false, hand;
    for step := 0 to steps
      invariant !found && clockHand < pinCounts.Length && referenceBits[..] == old(referenceBits[..])
    {
      found, clockHand := ClockStep(pinCounts, referenceBits, clockHand);
    }
  }

  // ---------------------------------------------------------------------------------------------
  // The pool
  // ---------------------------------------------------------------------------------------------

  datatype State = State(pageIds: seq<int>, pins: seq<int>, dirty: seq<bool>, refs: seq<bool>,
                         table: Table, freeList: seq<nat>, hand: nat)

  predicate Shaped(s: State) {
    && 0 < |s.pageIds| == |s.pins| == |s.dirty| == |s.refs| < |s.table.pages|
    && WellFormed(s.table) && s.hand < |s.pageIds|
    && forall f | 0 <= f < |s.pageIds| :: s.pageIds[f] >= NONE
  }

  /** The table holds exactly the resident pages, each with its frame. */
  ghost predicate TableExact(s: State)
    requires Shaped(s)
  {
    && (forall h: nat | Occupied(s.table, h) ::
          0 <= s.table.frames[h] < |s.pageIds| && s.pageIds[s.table.frames[h]] == s.table.pages[h])
    && (forall f | 0 <= f < |s.pageIds| && s.pageIds[f] != NONE :: Entered(s, f))
  }

  /** Frame `f` has an entry. */
  ghost predicate Entered(s: State, f: int)
    requires Shaped(s) && 0 <= f < |s.pageIds|
  {
    exists h: nat :: Occupied(s.table, h) && s.table.pages[h] == s.pageIds[f] && s.table.frames[h] == f
  }

  /** Every frame is either in the free list, once, or holds a page. */
  ghost predicate Partitioned(s: State)
    requires Shaped(s)
  {
    && (forall i | 0 <= i < |s.freeList| :: s.freeList[i] < |s.pageIds| && s.pageIds[s.freeList[i]] == NONE)
    && (forall i, j | 0 <= i < j < |s.freeList| :: s.freeList[i] != s.freeList[j])
    && (forall f: nat | f < |s.pageIds| && s.pageIds[f] == NONE :: f in s.freeList)
  }

  /** What holds of every pool that can be reached, with or without cut chains: every page has as many
      entries as frames, and the free frames are as many as they should be. */
  ghost predicate Accounted(s: State) {
    && Shaped(s) && Partitioned(s)
    && (forall h: nat | Occupied(s.table, h) :: 0 <= s.table.frames[h] < |s.pageIds|)
    && (forall page: nat :: Count(s.table.pages, page) == Count(s.pageIds, page))
    && Count(s.table.pages, NONE) == |s.table.pages| - |s.pageIds| + |s.freeList|
  }

  /** Every page in the table can be found, in the frame that holds it. */
  ghost predicate Inv(s: State) { Accounted(s) && Intact(s.table) && TableExact(s) }

  /** A hit pins the page once more and sets its reference bit. */
  function Hit(s: State, f: nat): State
    requires f < |s.pins| == |s.refs|
  {
    s.(pins := s.pins[f := s.pins[f] + 1], refs := s.refs[f := true])
  }

  /** Loading a page into frame `f` and slot `x`. */
  function Load(s: State, f: nat, page: nat, x: nat): State
    requires Shaped(s) && f < |s.pageIds| && x < |s.table.pages|
  {
    s.(pageIds := s.pageIds[f := page], pins := s.pins[f := 1], dirty := s.dirty[f := false], refs := s.refs[f := true],
       table := Put(s.table, x, page, f))
  }

  /** Loading into a frame that has no entry. */
  lemma LoadKeeps(s: State, f: nat, page: nat, x: nat)
    requires Shaped(s) && f < |s.pageIds| && Absent(s.table, page) && IsInsertSlot(s.table, page, x)
    requires Intact(Put(s.table, x, page, f)) && Accounted(Load(s, f, page, x))
    requires forall h: nat | Occupied(s.table, h) ::
      0 <= s.table.frames[h] < |s.pageIds| && s.table.frames[h] != f && s.pageIds[s.table.frames[h]] == s.table.pages[h]
    requires forall g | 0 <= g < |s.pageIds| && g != f && s.pageIds[g] != NONE :: Entered(s, g)
    ensures Inv(Load(s, f, page, x))
  {
    var s' := Load(s, f, page, x);
    forall g | 0 <= g < |s'.pageIds| && s'.pageIds[g] != NONE ensures Entered(s', g) {
      if g == f {
        assert Occupied(s'.table, x) && s'.table.frames[x] == f;
      } else {
        assert Entered(s, g);
        var h: nat :| Occupied(s.table, h) && s.table.pages[h] == s.pageIds[g] && s.table.frames[h] == g;
        assert Occupied(s'.table, h) && s'.table.frames[h] == g;
      }
    }
  }

  /** Loading into a free frame keeps the account. */
  lemma LoadFreeAccounted(s: State, page: nat, x: nat)
    requires Accounted(s) && s.freeList != [] && IsInsertSlot(s.table, page, x)
    ensures Accounted(Load(s.(freeList := s.freeList[1..]), s.freeList[0], page, x))
  {
    var s1, f := s.(freeList := s.freeList[1..]), s.freeList[0];
    CountUpdate(s.table.pages, x, page, NONE);
    var pages, ids := s.table.pages[x := page], s.pageIds[f := page];
    forall q: nat ensures Count(pages, q) == Count(ids, q) {
      CountUpdate(s.table.pages, x, page, q);
      CountUpdate(s.pageIds, f, page, q);
    }
    forall g: nat | g < |s.pageIds| && s.pageIds[g] == NONE && g != f ensures g in s1.freeList {
      assert g in s.freeList;
    }
  }

  lemma LoadFreeKeeps(s: State, page: nat, x: nat)
    requires Inv(s) && s.freeList != [] && Absent(s.table, page) && IsInsertSlot(s.table, page, x)
    ensures Inv(Load(s.(freeList := s.freeList[1..]), s.freeList[0], page, x))
  {
    var s1, f := s.(freeList := s.freeList[1..]), s.freeList[0];
    PutKeeps(s.table, x, page, f);
    LoadFreeAccounted(s, page, x);
    forall g | 0 <= g < |s.pageIds| && g != f && s.pageIds[g] != NONE ensures Entered(s1, g) {
      assert Entered(s, g);
    }
    LoadKeeps(s1, f, page, x);
  }

  /** Without free frames every frame holds a page, and every page has an entry. */
  lemma VictimHasEntry(s: State, f: nat)
    requires Accounted(s) && s.freeList == [] && f < |s.pageIds|
    ensures s.pageIds[f] >= 0 && s.pageIds[f] in s.table.pages
  {
    assert s.pageIds[f] != NONE;
    CountOccurs(s.pageIds, s.pageIds[f]);
    CountOccurs(s.table.pages, s.pageIds[f]);
  }

  /** Reusing a victim's frame keeps the account, whichever entry of its page is removed. */
  lemma EvictAccounted(s: State, s1: State, f: nat, h: nat, page: nat, x: nat)
    requires Accounted(s) && s.freeList == [] && f < |s.pageIds| && h < |s.table.pages|
    requires s.pageIds[f] >= 0 && s.table.pages[h] == s.pageIds[f]
    requires Shaped(s1) && s1 == s.(refs := s1.refs, hand := s1.hand, table := Remove(s.table, h))
    requires IsInsertSlot(s1.table, page, x)
    ensures Accounted(Load(s1, f, page, x))
  {
    CountUpdate(s.table.pages, h, NONE, NONE);
    CountUpdate(s1.table.pages, x, page, NONE);
    var pages, ids := s1.table.pages[x := page], s.pageIds[f := page];
    forall q: nat ensures Count(pages, q) == Count(ids, q) {
      CountUpdate(s.table.pages, h, NONE, q);
      CountUpdate(s1.table.pages, x, page, q);
      CountUpdate(s.pageIds, f, page, q);
    }
  }

  /** Slot `h` is the entry of frame `f`. */
  ghost predicate IsEntryOf(s: State, h: nat, f: nat) {
    && f < |s.pageIds| && Occupied(s.table, h) && h < |s.table.frames|
    && s.table.pages[h] == s.pageIds[f] && s.table.frames[h] == f
  }

  /** Reusing a victim's frame keeps the pool consistent exactly when it keeps the chains intact. */
  lemma ReplaceKeepsIff(s: State, f: nat, h: nat, page: nat, x: nat)
    requires Inv(s) && s.freeList == [] && IsEntryOf(s, h, f) && Absent(s.table, page)
    requires IsInsertSlot(Remove(s.table, h), page, x)
    ensures Inv(Load(s.(table := Remove(s.table, h)), f, page, x)) <==>
      x == h || forall g: nat | Occupied(s.table, g) && g != h :: !Crosses(s.table, g, h)
  {
    var s1 := s.(table := Remove(s.table, h));
    ReplaceIntactIff(s.table, h, page, f, x);
    if Intact(Put(s1.table, x, page, f)) {
      RemovedEntry(s, f, h);
      EvictAccounted(s, s1, f, h, page, x);
      LoadKeeps(s1, f, page, x);
    }
  }

  /** Without its entry a frame is in the table no more, and all others still are. */
  lemma RemovedEntry(s: State, f: nat, h: nat)
    requires Inv(s) && IsEntryOf(s, h, f)
    ensures var s1 := s.(table := Remove(s.table, h));
      && (forall k: nat | Occupied(s1.table, k) ::
            && 0 <= s1.table.frames[k] < |s.pageIds| && s1.table.frames[k] != f
            && s.pageIds[s1.table.frames[k]] == s1.table.pages[k])
      && (forall g | 0 <= g < |s.pageIds| && g != f && s.pageIds[g] != NONE :: Entered(s1, g))
  {
    var s1 := s.(table := Remove(s.table, h));
    assert forall g: nat :: Occupied(s1.table, g) <==> Occupied(s.table, g) && g != h;
    forall g | 0 <= g < |s.pageIds| && g != f && s.pageIds[g] != NONE ensures Entered(s1, g) {
      assert Entered(s, g);
      var k: nat :| Occupied(s.table, k) && s.table.pages[k] == s.pageIds[g] && s.table.frames[k] == g;
      assert Occupied(s1.table, k);
    }
  }

  /** Pins, dirty and reference bits and the hand do not matter for consistency. */
  lemma BookkeepingKeeps(s: State, s': State)
    requires Inv(s) && Shaped(s') && s'.pageIds == s.pageIds && s'.table == s.table && s'.freeList == s.freeList
    ensures Inv(s')
  {
    forall f | 0 <= f < |s'.pageIds| && s'.pageIds[f] != NONE ensures Entered(s', f) {
      assert Entered(s, f);
    }
  }

  lemma StepsOfProbe(t: Table, page: nat, k: nat)
    requires WellFormed(t) && k < |t.pages|
    ensures Steps(t, page, Probe(t, page, k)) == k
  {
  }

  /** A pool smaller than its table always leaves a slot empty. */
  lemma SomeSlotEmpty(s: State)
    requires Accounted(s)
    ensures NONE in s.table.pages
  {
    CountOccurs(s.table.pages, NONE);
  }

  lemma StepsToEmpty(s: State, page: nat) returns (d: nat)
    requires Accounted(s)
    ensures d < |s.table.pages| && s.table.pages[Probe(s.table, page, d)] == NONE
  {
    SomeSlotEmpty(s);
    var e: nat :| e < |s.table.pages| && s.table.pages[e] == NONE;
    d := Steps(s.table, page, e);
  }

  /** In a consistent pool, the entry that a removal takes is the victim's own. */
  lemma OwnEntry(s: State, f: nat, h: nat)
    requires Inv(s) && f < |s.pageIds| && s.pageIds[f] >= 0 && FirstOf(s.table, s.pageIds[f], h)
    ensures IsEntryOf(s, h, f)
  {
    assert Entered(s, f);
    var k: nat :| Occupied(s.table, k) && s.table.pages[k] == s.pageIds[f] && s.table.frames[k] == f;
    assert Occupied(s.table, h);
  }

  lemma EmptyPool(s: State, poolSize: nat)
    requires Shaped(s) && |s.pageIds| == poolSize && s.freeList == seq(poolSize, i => poolSize - 1 - i)
    requires (forall f | 0 <= f < poolSize :: s.pageIds[f] == NONE)
    requires (forall h | 0 <= h < |s.table.pages| :: s.table.pages[h] == NONE)
    ensures Inv(s)
  {
    forall q: int ensures Count(s.table.pages, q) == (if q == NONE then |s.table.pages| else 0)
      && Count(s.pageIds, q) == (if q == NONE then poolSize else 0)
    {
      CountConstant(s.table.pages, NONE, q);
      CountConstant(s.pageIds, NONE, q);
    }
    forall f: nat | f < poolSize ensures f in s.freeList {
      assert s.freeList[poolSize - 1 - f] == f;
    }
  }

  class BufferManager {
    const pageIds: array<int>
    const pinCounts: array<int>
    const isDirty: array<bool>
    const referenceBits: array<bool>
    const tablePages: array<int>
    const tableFrames: array<int>
    var freeList: seq<nat>
    var clockHand: nat
    var writes: seq<int>   // the pages written to disk so far

    ghost predicate Separate()
      reads this
    {
      && pageIds != pinCounts && pageIds != tablePages && pageIds != tableFrames
      && pinCounts != tablePages && pinCounts != tableFrames && tablePages != tableFrames
      && isDirty != referenceBits
    }

    ghost function ViewTable(): Table
      reads this, tablePages, tableFrames
    {
      Table(tablePages[..], tableFrames[..])
    }

    ghost function View(): State
      reads this, pageIds, pinCounts, isDirty, referenceBits, tablePages, tableFrames
    {
      State(pageIds[..], pinCounts[..], isDirty[..], referenceBits[..], ViewTable(), freeList, clockHand)
    }

    ghost predicate Valid()
      reads this, pageIds, pinCounts, isDirty, referenceBits, tablePages, tableFrames
    {
      Separate() && Accounted(View())
    }

    /** `init_buffer_pool`: all frames free, the last one first. */
    constructor (poolSize: nat, tableSize: nat)
      requires 0 < poolSize < tableSize
      ensures Valid() && Init(View()) && freeList == seq(poolSize, i => poolSize - 1 - i)
      ensures pageIds.Length == poolSize && tablePages.Length == tableSize
      ensures fresh(pageIds) && fresh(pinCounts) && fresh(isDirty) && fresh(referenceBits) && fresh(tablePages)
      ensures fresh(tableFrames)
    {
      pageIds := new int[poolSize](_ => NONE);
      pinCounts := new int[poolSize](_ => 0);
      isDirty := new bool[poolSize](_ => false);
      referenceBits := new bool[poolSize](_ => false);
      tablePages := new int[tableSize](_ => NONE);
      tableFrames := new int[tableSize](_ => NONE);
      freeList, clockHand, writes := [], 0, [];
      new;
      FillFreeList();
      EmptyPool(View(), poolSize);
    }

    /** The nodes of the initial free list, each in front of the ones before it. */
    method FillFreeList()
      requires freeList == []
      modifies this`freeList
      ensures freeList == seq(pageIds.Length, i => pageIds.Length - 1 - i)
    {
      for i := 0 to pageIds.Length
        invariant freeList == seq(i, j => i - 1 - j)
      {
        freeList := [i] + freeList;
      }
    }

    /** `lookup_page`: the frame in the entry that the probe finds, -1 if it comes to an empty slot. */
    method LookupPage(page: nat) returns (frame: int, ghost slot: nat)
      requires Valid()
      ensures frame == NONE ==> Missing(ViewTable(), page)
      ensures frame != NONE ==>
        0 <= frame < pageIds.Length && Found(ViewTable(), page, slot) && frame == tableFrames[slot]
    {
      ghost var t := ViewTable();
      ghost var d := StepsToEmpty(View(), page);
      var hash := page % tablePages.Length;
      ghost var k := 0;
      while tablePages[hash] != NONE
        invariant k <= d && hash == Probe(t, page, k)
        invariant forall j: nat | j < k :: Occupied(t, Probe(t, page, j)) && t.pages[Probe(t, page, j)] != page
        decreases d - k
      {
        if tablePages[hash] == page {
          StepsOfProbe(t, page, k);
          assert Occupied(t, hash) && Found(t, page, hash);
          return tableFrames[hash], hash;
        }
        ModWrap(hash + 1, tablePages.Length);
        hash := (hash + 1) % tablePages.Length;
        k := k + 1;
      }
      ProbeEnds(t, page, k);
      return NONE, 0;
    }

    /** The probe for an empty slot. */
    method FindEmptySlot(page: nat) returns (x: nat)
      requires WellFormed(ViewTable()) && NONE in tablePages[..]
      ensures IsInsertSlot(ViewTable(), page, x)
    {
      ghost var t := ViewTable();
      ghost var e: nat :| e < |t.pages| && t.pages[e] == NONE;
      ghost var d := Steps(t, page, e);
      x := page % tablePages.Length;
      ghost var k := 0;
      while tablePages[x] != NONE
        invariant k <= d && x == Probe(t, page, k)
        invariant forall j: nat | j < k :: Occupied(t, Probe(t, page, j))
        decreases d - k
      {
        ModWrap(x + 1, tablePages.Length);
        x := (x + 1) % tablePages.Length;
        k := k + 1;
      }
      StepsOfProbe(t, page, k);
    }

    /** `insert_into_page_table`. */
    method InsertIntoPageTable(page: nat, frame: nat) returns (ghost x: nat)
      requires Separate() && WellFormed(ViewTable()) && NONE in tablePages[..]
      modifies tablePages, tableFrames
      ensures IsInsertSlot(old(ViewTable()), page, x) && ViewTable() == Put(old(ViewTable()), x, page, frame)
    {
      var hash := FindEmptySlot(page);
      x := hash;
      tablePages[hash] := page;
      tableFrames[hash] := frame;
    }

    /** The probe for a page that is in the table, which does not stop at empty slots. */
    method FindSlotOf(page: nat) returns (x: nat)
      requires WellFormed(ViewTable()) && page in tablePages[..]
      ensures FirstOf(ViewTable(), page, x)
    {
      ghost var t := ViewTable();
      ghost var h: nat :| h < |t.pages| && t.pages[h] == page;
      ghost var d := Steps(t, page, h);
      x := page % tablePages.Length;
      ghost var k := 0;
      while tablePages[x] != page
        invariant k <= d && x == Probe(t, page, k)
        invariant forall j: nat | j < k :: t.pages[Probe(t, page, j)] != page
        decreases d - k
      {
        ModWrap(x + 1, tablePages.Length);
        x := (x + 1) % tablePages.Length;
        k := k + 1;
      }
      StepsOfProbe(t, page, k);
    }

    /** `remove_from_page_table`. */
    method RemoveFromPageTable(page: nat) returns (ghost h: nat)
      requires Separate() && WellFormed(ViewTable()) && page in tablePages[..]
      modifies tablePages, tableFrames
      ensures FirstOf(old(ViewTable()), page, h) && ViewTable() == Remove(old(ViewTable()), h)
    {
      var hash := FindSlotOf(page);
      h := hash;
      tablePages[hash] := NONE;
      tableFrames[hash] := NONE;
    }

    /** The frame to use for a new page when the free list is empty: the clock's victim, taken out of the table. */
    method Evict() returns (frame: nat, ghost h: nat, ghost n: nat)
      requires Valid() && freeList == [] && exists f :: 0 <= f < pinCounts.Length && pinCounts[f] == 0
      modifies this`clockHand, this`writes, referenceBits, tablePages, tableFrames
      ensures EvictedFrom(old(View()), View(), frame, h, n)
      ensures writes == old(writes) + if isDirty[frame] then [pageIds[frame]] else []
    {
      ghost var s := View();
      frame, clockHand, n := FindVictimPage(pinCounts, referenceBits, clockHand);
      VictimHasEntry(s, frame);
      if isDirty[frame] {
        writes := writes + [pageIds[frame]];
      }
      h := RemoveFromPageTable(pageIds[frame]);
    }

    /** The assignments that put a page into a frame. */
    method LoadPage(page: nat, frame: nat) returns (ghost x: nat)
      requires Separate() && Shaped(View()) && NONE in tablePages[..] && frame < pageIds.Length
      modifies pageIds, pinCounts, isDirty, referenceBits, tablePages, tableFrames
      ensures IsInsertSlot(old(ViewTable()), page, x) && View() == Load(old(View()), frame, page, x)
    {
      pageIds[frame] := page;
      isDirty[frame] := false;
      pinCounts[frame] := 1;
      referenceBits[frame] := true;
      x := InsertIntoPageTable(page, frame);
    }

    /** The miss path of `fetch_page`. */
    method FetchMiss(page: nat) returns (frame: nat, ghost s1: State, ghost h: nat, ghost n: nat, ghost x: nat)
      requires Valid() && (freeList == [] ==> exists f :: 0 <= f < pinCounts.Length && pinCounts[f] == 0)
      modifies this, pageIds, pinCounts, isDirty, referenceBits, tablePages, tableFrames
      ensures Valid() && Missed(old(View()), View(), page, frame, s1, h, n, x)
      ensures writes == old(writes) + WrittenBy(old(View()), FetchMissEvent(page, frame, s1, h, n, x))
    {
      ghost var s := View();
      h, n := 0, 0;
      if freeList != [] {
        frame := freeList[0];
        freeList := freeList[1..];
        SomeSlotEmpty(s);
      } else {
        frame, h, n := Evict();
        assert tablePages[..][h] == NONE;
      }
      s1 := View();
      x := LoadPage(page, frame);
      MissAccounted(s, View(), page, frame, s1, h, n, x);
    }

    /** The hit path of `fetch_page`. */
    method FetchHit(ghost page: nat, ghost slot: nat, frame: nat)
      requires Valid() && FindsFrame(View(), page, slot, frame)
      modifies pinCounts, referenceBits
      ensures Valid() && Step(old(View()), FetchHitEvent(page, slot, frame), View())
    {
      ghost var s := View();
      pinCounts[frame] := pinCounts[frame] + 1;
      referenceBits[frame] := true;
      assert View() == Hit(s, frame);
      BookkeepingAccounted(s, View());
    }

    /** `fetch_page`.  A hit pins; a miss loads into a free frame, or into the frame of the clock's victim. */
    method FetchPage(page: nat) returns (frame: nat, ghost e: Event)
      requires Valid()
      requires Missing(ViewTable(), page) && freeList == [] ==>
        exists f :: 0 <= f < pinCounts.Length && pinCounts[f] == 0
      modifies this, pageIds, pinCounts, isDirty, referenceBits, tablePages, tableFrames
      ensures Valid() && Step(old(View()), e, View()) && Fetches(e, page, frame)
      ensures Own(old(View())) ==> frame < pageIds.Length && pageIds[frame] == page
      ensures writes == old(writes) + WrittenBy(old(View()), e)
    {
      ghost var s := View();
      frame, e := Fetch(page);
      if Own(s) { FetchReturnsThePage(s, e, View(), page, frame); }
    }

    /** The two paths of `fetch_page`. */
    method Fetch(page: nat) returns (frame: nat, ghost e: Event)
      requires Valid()
      requires Missing(ViewTable(), page) && freeList == [] ==>
        exists f :: 0 <= f < pinCounts.Length && pinCounts[f] == 0
      modifies this, pageIds, pinCounts, isDirty, referenceBits, tablePages, tableFrames
      ensures Valid() && Step(old(View()), e, View()) && Fetches(e, page, frame)
      ensures writes == old(writes) + WrittenBy(old(View()), e)
    {
      var found, slot := LookupPage(page);
      if found != NONE {
        frame := found;
        FetchHit(page, slot, frame);
        e := FetchHitEvent(page, slot, frame);
      } else {
        ghost var s1, h, n, x;
        frame, s1, h, n, x := FetchMiss(page);
        e := FetchMissEvent(page, frame, s1, h, n, x);
      }
    }

    /** `unpin_page`. */
    method UnpinPage(page: nat) returns (ghost e: Event)
      requires Valid()
      modifies pinCounts
      ensures Valid() && Step(old(View()), e, View()) && (e == NotFoundEvent(page) || (e.UnpinEvent? && e.page == page))
    {
      ghost var s := View();
      var frame, slot := LookupPage(page);
      e := if frame != NONE then UnpinEvent(page, slot, frame) else NotFoundEvent(page);
      if frame != NONE && pinCounts[frame] > 0 {
        pinCounts[frame] := pinCounts[frame] - 1;
      }
      assert View() == if frame != NONE then Unpin(s, frame) else s;
      BookkeepingAccounted(s, View());
    }

    /** `mark_page_dirty`. */
    method MarkPageDirty(page: nat) returns (ghost e: Event)
      requires Valid()
      modifies isDirty
      ensures Valid() && Step(old(View()), e, View())
      ensures e == NotFoundEvent(page) || (e.MarkDirtyEvent? && e.page == page)
    {
      ghost var s := View();
      var frame, slot := LookupPage(page);
      e := if frame != NONE then MarkDirtyEvent(page, slot, frame) else NotFoundEvent(page);
      if frame != NONE {
        isDirty[frame] := true;
      }
      assert View() == if frame != NONE then s.(dirty := s.dirty[frame := true]) else s;
      BookkeepingAccounted(s, View());
    }

    /** `flush_dirty_pages`. */
    method FlushDirtyPages()
      requires Valid()
      modifies this`writes, isDirty
      ensures Valid() && Step(old(View()), FlushEvent, View())
      ensures writes == old(writes) + WrittenBy(old(View()), FlushEvent)
    {
      ghost var s := View();
      assert isDirty[..] == CleanUpTo(s.dirty, 0);
      for i := 0 to pageIds.Length
        invariant isDirty[..] == CleanUpTo(s.dirty, i) && unchanged(this`freeList, this`clockHand)
        invariant writes == old(writes) + DirtyPages(s.pageIds[..i], s.dirty[..i])
      {
        FlushFrame(i, s.dirty);
        assert s.pageIds[..i + 1][..i] == s.pageIds[..i] && s.dirty[..i + 1][..i] == s.dirty[..i];
      }
      assert s.pageIds[..pageIds.Length] == s.pageIds && s.dirty[..pageIds.Length] == s.dirty;
      assert CleanUpTo(s.dirty, |s.dirty|) == seq(|s.dirty|, _ => false);
      BookkeepingAccounted(s, View());
    }

    /** The body of the loop. */
    method FlushFrame(i: nat, ghost dirty: seq<bool>)
      requires i < pageIds.Length == isDirty.Length == |dirty| && isDirty[..] == CleanUpTo(dirty, i)
      modifies this`writes, isDirty
      ensures isDirty[..] == CleanUpTo(dirty, i + 1)
      ensures writes == old(writes) + if dirty[i] then [pageIds[i]] else []
    {
      assert isDirty[i] == dirty[i];
      if isDirty[i] {
        writes := writes + [pageIds[i]];
        isDirty[i] := false;
      }
    }
  }

  /** The dirty bits after the first `i` frames have been flushed. */
  function CleanUpTo(dirty: seq<bool>, i: nat): (r: seq<bool>)
    ensures |r| == |dirty| && forall f | 0 <= f < |r| :: r[f] == (dirty[f] && i <= f)
  {
    seq(|dirty|, f requires 0 <= f < |dirty| => dirty[f] && i <= f)
  }

  /** An unpin takes a pin away if there is one. */
  function Unpin(s: State, f: nat): State
    requires f < |s.pins|
  {
    if s.pins[f] > 0 then s.(pins := s.pins[f := s.pins[f] - 1]) else s
  }

  /** The pages of the dirty frames, in the order of the frames. */
  function DirtyPages(pageIds: seq<int>, dirty: seq<bool>): (pages: seq<int>)
    requires |pageIds| == |dirty|
    ensures forall page :: page in pages <==> exists f :: 0 <= f < |dirty| && dirty[f] && pageIds[f] == page
  {
    if dirty == [] then [] else
      var n := |dirty| - 1;
      var pages := DirtyPages(pageIds[..n], dirty[..n]);
      assert forall f | 0 <= f < n :: dirty[..n][f] == dirty[f] && pageIds[..n][f] == pageIds[f];
      pages + (if dirty[n] then [pageIds[n]] else [])
  }

  /** The pages that a call writes to disk: a dirty victim's, or all dirty ones. */
  function WrittenBy(s: State, e: Event): seq<int>
    requires |s.pageIds| == |s.dirty|
  {
    match e
    case FetchMissEvent(_, frame, _, _, _, _) =>
      if s.freeList == [] && frame < |s.dirty| && s.dirty[frame] then [s.pageIds[frame]] else []
    case FlushEvent => DirtyPages(s.pageIds, s.dirty)
    case _ => []
  }

  /** What the victim of a fetch leaves behind: cleared reference bits, an advanced hand, a hole at slot `h`. */
  ghost predicate EvictedFrom(s: State, s1: State, frame: nat, h: nat, n: nat)
    requires Shaped(s)
  {
    && StopsAfter(s.pins, s.refs, s.hand, n) && frame == Clockwise(s.hand, n, |s.pins|)
    && s.pageIds[frame] >= 0 && FirstOf(s.table, s.pageIds[frame], h) && |s1.refs| == |s.refs|
    && ClearedUpTo(s.pins, s.refs, s.hand, n, s1.refs)
    && s1 == s.(refs := s1.refs, hand := (frame + 1) % |s.pins|, table := Remove(s.table, h))
  }

  /** The effect of a miss: the first free frame is used, or else the clock's victim, and the page goes to the
      first empty slot from its home. */
  ghost predicate Missed(s: State, s': State, page: nat, frame: nat, s1: State, h: nat, n: nat, x: nat) {
    && Shaped(s) && Shaped(s1) && frame < |s1.pageIds|
    && IsInsertSlot(s1.table, page, x) && s' == Load(s1, frame, page, x)
    && (if s.freeList != [] then frame == s.freeList[0] && s1 == s.(freeList := s.freeList[1..])
        else EvictedFrom(s, s1, frame, h, n))
  }

  /** No eviction, or the new page fills the hole at `h`, or no other page's path goes over it. */
  ghost predicate KeepsChains(s: State, h: nat, x: nat)
    requires Shaped(s)
  {
    s.freeList != [] || x == h || forall g: nat | Occupied(s.table, g) && g != h :: !Crosses(s.table, g, h)
  }

  /** Every miss keeps the account. */
  lemma MissAccounted(s: State, s': State, page: nat, frame: nat, s1: State, h: nat, n: nat, x: nat)
    requires Accounted(s) && Missed(s, s', page, frame, s1, h, n, x)
    ensures Accounted(s') && s'.pageIds[frame] == page
  {
    if s.freeList != [] {
      LoadFreeAccounted(s, page, x);
    } else {
      EvictAccounted(s, s1, frame, h, page, x);
    }
  }

  lemma BookkeepingAccounted(s: State, s': State)
    requires Accounted(s) && Shaped(s') && s'.pageIds == s.pageIds && s'.table == s.table && s'.freeList == s.freeList
    ensures Accounted(s')
  {
  }

  /** If pages do not collide, they stay at home and no chain is cut. */
  lemma MissedAtHome(s: State, s': State, page: nat, frame: nat, s1: State, h: nat, n: nat, x: nat)
    requires Inv(s) && Missing(s.table, page) && Missed(s, s', page, frame, s1, h, n, x)
    requires AtHome(s.table) && NoCollision(s.table, page)
    ensures AtHome(s'.table) && KeepsChains(s, h, x)
  {
    MissingIsAbsent(s.table, page);
    HomeKept(s, s1, frame, h, page, x);
  }

  /** In a consistent pool, a lookup finds the one frame that holds the page, and fails only if there is none. */
  lemma LookupExact(s: State, page: nat, f: nat)
    requires Inv(s) && f < |s.pageIds|
    ensures s.pageIds[f] == page <==> exists h: nat :: Found(s.table, page, h) && s.table.frames[h] == f
  {
    if s.pageIds[f] == page {
      assert Entered(s, f);
      var h: nat :| Occupied(s.table, h) && s.table.pages[h] == s.pageIds[f] && s.table.frames[h] == f;
      IntactFinds(s.table, h);
    }
    if h: nat :| Found(s.table, page, h) && s.table.frames[h] == f {
      assert Occupied(s.table, h);
    }
  }

  /** Without collisions pages stay at home, with or without an eviction. */
  lemma HomeKept(s: State, s1: State, frame: nat, h: nat, page: nat, x: nat)
    requires Inv(s) && AtHome(s.table) && NoCollision(s.table, page) && Absent(s.table, page)
    requires s1.table == s.table || (Occupied(s.table, h) && s1.table == Remove(s.table, h))
    requires WellFormed(s1.table) && IsInsertSlot(s1.table, page, x)
    ensures AtHome(Put(s1.table, x, page, frame))
    ensures Occupied(s.table, h) ==> forall g: nat | Occupied(s.table, g) && g != h :: !Crosses(s.table, g, h)
  {
    InsertedAtHome(s1.table, page, x);
    if Occupied(s.table, h) { AtHomeNothingCrosses(s.table, h); }
  }

  /** Consistency after an eviction, with the bookkeeping of the clock on top. */
  lemma EvictionKeepsIff(s: State, s1: State, f: nat, h: nat, page: nat, x: nat)
    requires Inv(s) && s.freeList == [] && IsEntryOf(s, h, f) && Absent(s.table, page)
    requires Shaped(s1) && s1 == s.(refs := s1.refs, hand := s1.hand, table := Remove(s.table, h))
    requires IsInsertSlot(s1.table, page, x)
    ensures Inv(Load(s1, f, page, x)) <==>
      x == h || forall g: nat | Occupied(s.table, g) && g != h :: !Crosses(s.table, g, h)
  {
    ReplaceKeepsIff(s, f, h, page, x);
    var plain := s.(table := Remove(s.table, h));
    if Inv(Load(plain, f, page, x)) {
      BookkeepingKeeps(Load(plain, f, page, x), Load(s1, f, page, x));
    }
    if Inv(Load(s1, f, page, x)) {
      BookkeepingKeeps(Load(s1, f, page, x), Load(plain, f, page, x));
    }
  }

  // ---------------------------------------------------------------------------------------------
  // Whole runs
  // ---------------------------------------------------------------------------------------------

  /** A fetch that hits frame `f`, a fetch that misses, an unpin or a mark that finds the page in frame `f`, one that
      does not find it, or a flush. */
  datatype Event =
    | FetchHitEvent(page: nat, h: nat, f: nat)
    | FetchMissEvent(page: nat, frame: nat, s1: State, h: nat, n: nat, x: nat)
    | UnpinEvent(page: nat, h: nat, f: nat)
    | MarkDirtyEvent(page: nat, h: nat, f: nat)
    | NotFoundEvent(page: nat)
    | FlushEvent

  ghost predicate Step(s: State, e: Event, s': State) {
    match e
    case FetchHitEvent(page, h, f) => FindsFrame(s, page, h, f) && s' == Hit(s, f)
    case FetchMissEvent(page, frame, s1, h, n, x) =>
      Shaped(s) && Missing(s.table, page) && Missed(s, s', page, frame, s1, h, n, x)
    case UnpinEvent(page, h, f) => FindsFrame(s, page, h, f) && s' == Unpin(s, f)
    case MarkDirtyEvent(page, h, f) => FindsFrame(s, page, h, f) && s' == s.(dirty := s.dirty[f := true])
    case NotFoundEvent(page) => Shaped(s) && Missing(s.table, page) && s' == s
    case FlushEvent => Shaped(s) && s' == s.(dirty := seq(|s.dirty|, _ => false))
  }

  /** `lookup_page` finds the page in slot `h`, with frame `f`. */
  ghost predicate FindsFrame(s: State, page: nat, h: nat, f: nat) {
    Shaped(s) && f < |s.pageIds| && Found(s.table, page, h) && s.table.frames[h] == f
  }

  predicate Fetches(e: Event, page: nat, frame: nat) {
    match e
    case FetchHitEvent(p, _, f) => p == page && f == frame
    case FetchMissEvent(p, f, _, _, _, _) => p == page && f == frame
    case _ => false
  }

  /** Nothing resident, all frames free, nothing pinned, dirty or referenced. */
  ghost predicate Init(s: State) {
    && Inv(s) && (forall h: nat :: !Occupied(s.table, h)) && s.hand == 0
    && forall f | 0 <= f < |s.pageIds| :: s.pageIds[f] == NONE && s.pins[f] == 0 && !s.dirty[f] && !s.refs[f]
  }

  ghost predicate Run(states: seq<State>, events: seq<Event>) {
    |states| == |events| + 1 && Init(states[0]) && forall i: nat | i < |events| :: StepAt(states, events, i)
  }

  ghost predicate StepAt(states: seq<State>, events: seq<Event>, i: nat)
    requires i < |events| && |states| == |events| + 1
  {
    Step(states[i], events[i], states[i + 1])
  }

  /** In every run, whatever the page ids and however many chains are cut, every page has as many entries as
      frames and a slot is empty, so that no probe goes on for ever. */
  lemma {:induction false} AlwaysAccounted(states: seq<State>, events: seq<Event>, i: nat)
    requires Run(states, events) && i < |states|
    ensures Accounted(states[i]) && NONE in states[i].table.pages
  {
    if i > 0 {
      AlwaysAccounted(states, events, i - 1);
      var s, e, s' := states[i - 1], events[i - 1], states[i];
      assert StepAt(states, events, i - 1);
      if e.FetchMissEvent? {
        MissAccounted(s, s', e.page, e.frame, e.s1, e.h, e.n, e.x);
      } else {
        BookkeepingAccounted(s, s');
      }
    }
    SomeSlotEmpty(states[i]);
  }

  /** Every entry names a frame that holds its page, every resident page's frame is named, and no frame twice.
      Unlike `Inv` this says nothing about chains: a page may be in the table and not be found. */
  ghost predicate Own(s: State) { Accounted(s) && TableExact(s) && FramesApart(s.table) }

  ghost predicate FramesApart(t: Table)
    requires WellFormed(t)
  {
    forall h: nat, g: nat | Occupied(t, h) && Occupied(t, g) && t.frames[h] == t.frames[g] :: h == g
  }

  lemma ConsistentIsOwn(s: State)
    requires Inv(s)
    ensures Own(s)
  {
  }

  /** A fetch returns the frame that holds the page, if every entry names its own frame. */
  lemma FetchReturnsThePage(s: State, e: Event, s': State, page: nat, frame: nat)
    requires Own(s) && Step(s, e, s') && Fetches(e, page, frame)
    ensures frame < |s'.pageIds| && s'.pageIds[frame] == page
  {
    if e.FetchMissEvent? {
      MissAccounted(s, s', e.page, e.frame, e.s1, e.h, e.n, e.x);
    } else {
      assert Occupied(s.table, e.h);
    }
  }

  /** The frame is free, or the entry that `remove_from_page_table` takes out names it. */
  predicate TakesOwnEntry(s: State, frame: nat, h: nat) {
    s.freeList != [] || (h < |s.table.frames| && s.table.frames[h] == frame)
  }

  /** Every entry names its own frame and none names `f`; every other frame that holds a page is named. */
  ghost predicate OthersOwn(s: State, f: nat)
    requires Shaped(s)
  {
    && FramesApart(s.table)
    && (forall h: nat | Occupied(s.table, h) ::
          && 0 <= s.table.frames[h] < |s.pageIds| && s.table.frames[h] != f
          && s.pageIds[s.table.frames[h]] == s.table.pages[h])
    && forall g | 0 <= g < |s.pageIds| && g != f && s.pageIds[g] != NONE :: Entered(s, g)
  }

  lemma LoadKeepsOwn(s: State, f: nat, page: nat, x: nat)
    requires Shaped(s) && f < |s.pageIds| && x < |s.table.pages| && !Occupied(s.table, x) && OthersOwn(s, f)
    ensures TableExact(Load(s, f, page, x)) && FramesApart(Load(s, f, page, x).table)
  {
    var s' := Load(s, f, page, x);
    assert Occupied(s'.table, x);
    forall g | 0 <= g < |s'.pageIds| && s'.pageIds[g] != NONE ensures Entered(s', g) {
      if g != f {
        assert Entered(s, g);
        var h: nat :| Occupied(s.table, h) && s.table.pages[h] == s.pageIds[g] && s.table.frames[h] == g;
        assert Occupied(s'.table, h);
      }
    }
  }

  /** Taking out the entry of the victim's own frame leaves no entry that names it. */
  lemma OwnEntryTaken(s: State, s1: State, f: nat, h: nat)
    requires Own(s) && Occupied(s.table, h) && s.table.frames[h] == f
    requires Shaped(s1) && s1.pageIds == s.pageIds && s1.table == Remove(s.table, h)
    ensures OthersOwn(s1, f)
  {
    assert forall g: nat | Occupied(s1.table, g) :: Occupied(s.table, g) && g != h;
    forall g | 0 <= g < |s1.pageIds| && g != f && s1.pageIds[g] != NONE ensures Entered(s1, g) {
      assert Entered(s, g);
      var k: nat :| Occupied(s.table, k) && s.table.pages[k] == s.pageIds[g] && s.table.frames[k] == g;
      assert Occupied(s1.table, k);
    }
  }

  /** Taking out another frame's entry leaves the victim's, which now names a frame with another page, or
      with the same page under two entries. */
  lemma ForeignEntryBreaksOwn(s: State, s1: State, f: nat, h: nat, page: nat, x: nat)
    requires Own(s) && Occupied(s.table, h) && s.table.frames[h] != f && f < |s.pageIds| && s.pageIds[f] != NONE
    requires Shaped(s1) && s1 == s.(refs := s1.refs, hand := s1.hand, table := Remove(s.table, h))
    requires x < |s.table.pages| && !Occupied(s1.table, x)
    ensures !Own(Load(s1, f, page, x))
  {
    assert Entered(s, f);
    var k: nat :| Occupied(s.table, k) && s.table.pages[k] == s.pageIds[f] && s.table.frames[k] == f;
    var s' := Load(s1, f, page, x);
    assert Occupied(s1.table, k);
    assert Occupied(s'.table, k) && Occupied(s'.table, x) && s'.table.frames[k] == s'.table.frames[x];
  }

  /** A miss keeps every entry with its own frame exactly when it takes a free frame or removes the victim's
      own entry. */
  lemma MissKeepsOwnIff(s: State, s': State, page: nat, frame: nat, s1: State, h: nat, n: nat, x: nat)
    requires Own(s) && Missed(s, s', page, frame, s1, h, n, x)
    ensures Own(s') <==> TakesOwnEntry(s, frame, h)
  {
    MissAccounted(s, s', page, frame, s1, h, n, x);
    if s.freeList != [] {
      LoadKeepsOwn(s1, frame, page, x);
    } else {
      assert Occupied(s.table, h);
      if s.table.frames[h] == frame {
        OwnEntryTaken(s, s1, frame, h);
        LoadKeepsOwn(s1, frame, page, x);
      } else {
        ForeignEntryBreaksOwn(s, s1, frame, h, page, x);
      }
    }
  }

  /** A victim whose page is in no other frame loses its own entry. */
  lemma SoleFrameTakesOwnEntry(s: State, s1: State, frame: nat, h: nat, n: nat)
    requires Own(s) && EvictedFrom(s, s1, frame, h, n)
    requires forall g: nat | g < |s.pageIds| && s.pageIds[g] == s.pageIds[frame] :: g == frame
    ensures s.table.frames[h] == frame
  {
    assert Occupied(s.table, h);
  }

  /** The steps that take a frame away from another entry are exactly those after which `Own` fails. */
  lemma StepKeepsOwnIff(s: State, e: Event, s': State)
    requires Own(s) && Step(s, e, s')
    ensures Own(s') <==> (e.FetchMissEvent? ==> TakesOwnEntry(s, e.frame, e.h))
  {
    if e.FetchMissEvent? {
      MissKeepsOwnIff(s, s', e.page, e.frame, e.s1, e.h, e.n, e.x);
    } else {
      BookkeepingKeepsOwn(s, s');
    }
  }

  lemma BookkeepingKeepsOwn(s: State, s': State)
    requires Own(s) && Shaped(s') && s'.pageIds == s.pageIds && s'.table == s.table && s'.freeList == s.freeList
    ensures Own(s')
  {
    forall f | 0 <= f < |s'.pageIds| && s'.pageIds[f] != NONE ensures Entered(s', f) {
      assert Entered(s, f);
    }
  }

  ghost predicate OwnEntriesTaken(states: seq<State>, events: seq<Event>, i: nat)
    requires i <= |events| < |states|
  {
    forall k | 0 <= k < i && events[k].FetchMissEvent? :: TakesOwnEntry(states[k], events[k].frame, events[k].h)
  }

  ghost predicate OwnUpTo(states: seq<State>, i: nat)
    requires i < |states|
  {
    forall k | 0 <= k <= i :: Own(states[k])
  }

  /** In every run, every entry has named its own frame so far if and only if every eviction so far took out
      the entry of the victim's own frame. */
  lemma {:induction false} OwnSoFarIff(states: seq<State>, events: seq<Event>, i: nat)
    requires Run(states, events) && i <= |events|
    ensures OwnUpTo(states, i) <==> OwnEntriesTaken(states, events, i)
  {
    if i == 0 {
      ConsistentIsOwn(states[0]);
    } else {
      OwnSoFarIff(states, events, i - 1);
      if OwnUpTo(states, i - 1) {
        assert StepAt(states, events, i - 1);
        StepKeepsOwnIff(states[i - 1], events[i - 1], states[i]);
        assert OwnUpTo(states, i) <==> Own(states[i]);
      } else {
        assert !OwnUpTo(states, i) && !OwnEntriesTaken(states, events, i);
      }
    }
  }

  /** So up to the first eviction that takes out another frame's entry, and in the fetch that does it, every
      fetch of a run returns the frame that holds the page. */
  lemma FetchesReturnTheirPages(states: seq<State>, events: seq<Event>, i: nat, page: nat, frame: nat)
    requires Run(states, events) && i < |events| && OwnEntriesTaken(states, events, i)
    requires Fetches(events[i], page, frame)
    ensures frame < |states[i + 1].pageIds| && states[i + 1].pageIds[frame] == page
  {
    OwnSoFarIff(states, events, i);
    assert StepAt(states, events, i);
    FetchReturnsThePage(states[i], events[i], states[i + 1], page, frame);
  }

  // ---------------------------------------------------------------------------------------------
  // Pins, reference bits and dirty bits
  // ---------------------------------------------------------------------------------------------

  /** Entries name frames that hold a page; no pin count is negative; a frame without a page is neither pinned nor
      dirty. */
  ghost predicate Tidy(s: State) {
    && Shaped(s)
    && (forall h: nat | Occupied(s.table, h) ::
          0 <= s.table.frames[h] < |s.pageIds| && s.pageIds[s.table.frames[h]] != NONE)
    && forall f | 0 <= f < |s.pageIds| :: s.pins[f] >= 0 && (s.pageIds[f] == NONE ==> s.pins[f] == 0 && !s.dirty[f])
  }

  predicate FetchesFrame(e: Event, f: nat) {
    (e.FetchHitEvent? && e.f == f) || (e.FetchMissEvent? && e.frame == f)
  }

  /** An unpin of frame `f` that takes a pin away. */
  predicate TakesPin(s: State, e: Event, f: nat) {
    e.UnpinEvent? && e.f == f && f < |s.pins| && s.pins[f] > 0
  }

  /** A miss takes a frame that nobody has pinned. */
  lemma MissTakesUnpinned(s: State, s': State, page: nat, frame: nat, s1: State, h: nat, n: nat, x: nat)
    requires Accounted(s) && Tidy(s) && Missed(s, s', page, frame, s1, h, n, x)
    ensures frame < |s.pins| && s.pins[frame] == 0 && s'.pins == s.pins[frame := 1]
    ensures s'.pageIds == s.pageIds[frame := page] && s'.dirty == s.dirty[frame := false]
  {
  }

  lemma MissTidy(s: State, s': State, page: nat, frame: nat, s1: State, h: nat, n: nat, x: nat)
    requires Accounted(s) && Tidy(s) && Missed(s, s', page, frame, s1, h, n, x) && Shaped(s')
    ensures Tidy(s')
  {
    MissTakesUnpinned(s, s', page, frame, s1, h, n, x);
    forall g: nat | Occupied(s'.table, g)
      ensures 0 <= s'.table.frames[g] < |s'.pageIds| && s'.pageIds[s'.table.frames[g]] != NONE
    {
      if g != x { assert Occupied(s.table, g); }
    }
  }

  /** What a call does to the pins of a frame: a fetch that returns it adds one, an unpin takes one away. */
  lemma PinStep(s: State, e: Event, s': State, f: nat)
    requires Accounted(s) && Tidy(s) && Step(s, e, s') && f < |s.pins|
    ensures |s'.pins| == |s.pins|
    ensures s'.pins[f] == s.pins[f] + (if FetchesFrame(e, f) then 1 else 0) - (if TakesPin(s, e, f) then 1 else 0)
    ensures FetchesFrame(e, f) ==> s'.refs[f]
    ensures s.pins[f] > 0 ==> s'.pageIds[f] == s.pageIds[f] && !(e.FetchMissEvent? && e.frame == f)
  {
    if e.FetchMissEvent? { MissTakesUnpinned(s, s', e.page, e.frame, e.s1, e.h, e.n, e.x); }
  }

  lemma StepTidy(s: State, e: Event, s': State)
    requires Accounted(s) && Tidy(s) && Step(s, e, s')
    ensures Accounted(s') && Tidy(s')
  {
    if e.FetchMissEvent? {
      MissAccounted(s, s', e.page, e.frame, e.s1, e.h, e.n, e.x);
      MissTidy(s, s', e.page, e.frame, e.s1, e.h, e.n, e.x);
    } else {
      BookkeepingAccounted(s, s');
      assert e.FetchHitEvent? || e.MarkDirtyEvent? ==> Occupied(s.table, e.h);
    }
  }

  lemma {:induction false} AlwaysTidy(states: seq<State>, events: seq<Event>, i: nat)
    requires Run(states, events) && i < |states|
    ensures Accounted(states[i]) && Tidy(states[i]) && |states[i].pins| == |states[0].pins|
  {
    if i > 0 {
      AlwaysTidy(states, events, i - 1);
      assert StepAt(states, events, i - 1);
      StepTidy(states[i - 1], events[i - 1], states[i]);
      PinStep(states[i - 1], events[i - 1], states[i], 0);
    }
  }

  lemma PinStepOfRun(states: seq<State>, events: seq<Event>, i: nat, f: nat)
    requires Run(states, events) && i < |events| && f < |states[0].pins|
    ensures f < |states[i].pins| == |states[i].pageIds| && f < |states[i + 1].pins| == |states[i + 1].pageIds|
    ensures states[i + 1].pins[f] == states[i].pins[f] + (if FetchesFrame(events[i], f) then 1 else 0)
      - (if TakesPin(states[i], events[i], f) then 1 else 0)
    ensures states[i].pins[f] > 0 ==>
      && states[i + 1].pageIds[f] == states[i].pageIds[f]
      && (events[i].FetchMissEvent? ==> events[i].frame != f)
    ensures states[i + 1].pins[f] >= 0
  {
    AlwaysTidy(states, events, i);
    AlwaysTidy(states, events, i + 1);
    assert StepAt(states, events, i);
    PinStep(states[i], events[i], states[i + 1], f);
  }

  /** The fetches that have returned frame `f`, less the unpins of it that took a pin away. */
  ghost function Balance(states: seq<State>, events: seq<Event>, i: nat, f: nat): int
    requires i <= |events| < |states|
  {
    if i == 0 then 0 else
      Balance(states, events, i - 1, f) + (if FetchesFrame(events[i - 1], f) then 1 else 0)
      - (if TakesPin(states[i - 1], events[i - 1], f) then 1 else 0)
  }

  /** In every run the pin count of a frame is the number of its fetches less that of its unpins, and not negative. */
  lemma {:induction false} PinsAreBalance(states: seq<State>, events: seq<Event>, i: nat, f: nat)
    requires Run(states, events) && i < |states| && f < |states[0].pins|
    ensures f < |states[i].pins| && states[i].pins[f] == Balance(states, events, i, f) >= 0
  {
    if i > 0 {
      PinsAreBalance(states, events, i - 1, f);
      PinStepOfRun(states, events, i - 1, f);
    }
  }

  /** A frame with more fetches than unpins is not taken for another page. */
  lemma {:induction false} PinnedStays(states: seq<State>, events: seq<Event>, i: nat, j: nat, f: nat)
    requires Run(states, events) && i <= j < |states| && f < |states[0].pins|
    requires forall k | i <= k < j :: Balance(states, events, k, f) > 0
    ensures f < |states[i].pageIds| && f < |states[j].pageIds| && states[j].pageIds[f] == states[i].pageIds[f]
    ensures forall k | i <= k < j && events[k].FetchMissEvent? :: events[k].frame != f
    decreases j - i
  {
    if i < j {
      PinnedStays(states, events, i, j - 1, f);
      PinsAreBalance(states, events, j - 1, f);
      PinStepOfRun(states, events, j - 1, f);
    } else {
      AlwaysTidy(states, events, i);
    }
  }

  /** Who has fetched a page and not yet unpinned it still finds it in the frame that the fetch returned. */
  lemma HolderKeepsThePage(states: seq<State>, events: seq<Event>, i: nat, j: nat, page: nat, f: nat)
    requires Run(states, events) && i < j < |states| && Fetches(events[i], page, f)
    requires OwnEntriesTaken(states, events, i) && forall k | i < k < j :: Balance(states, events, k, f) > 0
    ensures f < |states[j].pageIds| && states[j].pageIds[f] == page
  {
    FetchesReturnTheirPages(states, events, i, page, f);
    AlwaysTidy(states, events, i + 1);
    PinnedStays(states, events, i + 1, j, f);
  }

  /** The clock takes the first unpinned frame from the hand on that has not been referenced; only if all unpinned
      frames have been, it takes the first unpinned one. */
  lemma VictimExact(s: State, s1: State, frame: nat, h: nat, n: nat, v: nat, u: nat)
    requires Shaped(s) && EvictedFrom(s, s1, frame, h, n)
    requires v < |s.pins| && frame == Slot(s.hand, v, |s.pins|) && u < |s.pins|
    ensures s.pins[frame] == 0
    ensures var g := Slot(s.hand, u, |s.pins|); s.pins[g] == 0 ==>
      && (!s.refs[g] ==> !s.refs[frame] && v <= u)
      && (s.refs[frame] ==> s.refs[g] && v <= u)
  {
  }

  /** On its way it gives every unpinned frame a second chance: the ones it passes lose their reference bit, all of
      them if it goes round. */
  lemma SecondChance(s: State, s1: State, frame: nat, h: nat, n: nat, v: nat, u: nat)
    requires Shaped(s) && EvictedFrom(s, s1, frame, h, n)
    requires v < |s.pins| && frame == Slot(s.hand, v, |s.pins|) && u < |s.pins|
    ensures var g := Slot(s.hand, u, |s.pins|);
      if s.pins[g] != 0 then s1.refs[g] == s.refs[g]
      else if s.refs[frame] then !s1.refs[g]
      else s1.refs[g] == (s.refs[g] && v < u)
    ensures s1.hand == (frame + 1) % |s.pins|
  {
    VictimExact(s, s1, frame, h, n, v, u);
  }

  /** A call that does not write a dirty page leaves it dirty in its frame. */
  lemma DirtyStep(s: State, e: Event, s': State, f: nat)
    requires Accounted(s) && Tidy(s) && Step(s, e, s') && f < |s.dirty| && s.dirty[f]
    requires s.pageIds[f] !in WrittenBy(s, e)
    ensures Accounted(s') && f < |s'.dirty| && s'.dirty[f] && s'.pageIds[f] == s.pageIds[f]
  {
    StepTidy(s, e, s');
    if e.FetchMissEvent? { MissTakesUnpinned(s, s', e.page, e.frame, e.s1, e.h, e.n, e.x); }
  }

  /** Frame `f` holds the page, and it is dirty. */
  predicate HoldsDirty(s: State, f: nat, page: int) {
    page != NONE && f < |s.dirty| == |s.pageIds| && s.dirty[f] && s.pageIds[f] == page
  }

  lemma DirtyStepOfRun(states: seq<State>, events: seq<Event>, i: nat, f: nat, page: int)
    requires Run(states, events) && i < |events| && HoldsDirty(states[i], f, page)
    requires page !in WrittenBy(states[i], events[i])
    ensures HoldsDirty(states[i + 1], f, page)
  {
    AlwaysTidy(states, events, i);
    assert StepAt(states, events, i);
    DirtyStep(states[i], events[i], states[i + 1], f);
  }

  ghost predicate Writes(states: seq<State>, events: seq<Event>, k: nat, page: int) {
    k < |events| && k < |states| && |states[k].pageIds| == |states[k].dirty| && page in WrittenBy(states[k], events[k])
  }

  /** A dirty page stays in its frame, dirty, until it is written. */
  lemma {:induction false} DirtyUntilWritten(states: seq<State>, events: seq<Event>, i: nat, j: nat, f: nat, page: int)
    requires Run(states, events) && i <= j < |states| && HoldsDirty(states[i], f, page)
    requires forall k | i <= k < j :: !Writes(states, events, k, page)
    ensures HoldsDirty(states[j], f, page)
    decreases j - i
  {
    if i < j {
      DirtyUntilWritten(states, events, i, j - 1, f, page);
      assert !Writes(states, events, j - 1, page);
      DirtyStepOfRun(states, events, j - 1, f, page);
    }
  }

  /** A page marked dirty that is no longer in its frame has been written. */
  lemma MarkedIsWritten(states: seq<State>, events: seq<Event>, i: nat, j: nat, page: nat, h: nat, f: nat)
    requires Run(states, events) && i < j < |states| && events[i] == MarkDirtyEvent(page, h, f)
    requires OwnEntriesTaken(states, events, i) && !HoldsDirty(states[j], f, page)
    ensures exists k :: i < k < j && Writes(states, events, k, page)
  {
    OwnSoFarIff(states, events, i);
    assert StepAt(states, events, i) && Occupied(states[i].table, h);
    assert HoldsDirty(states[i + 1], f, page);
    if forall k | i < k < j :: !Writes(states, events, k, page) {
      DirtyUntilWritten(states, events, i + 1, j, f, page);
    }
  }

  // ---------------------------------------------------------------------------------------------
  // Consistency over runs
  // ---------------------------------------------------------------------------------------------

  /** A miss keeps the pool consistent exactly when it keeps the chains intact. */
  lemma MissKeepsIff(s: State, s': State, page: nat, frame: nat, s1: State, h: nat, n: nat, x: nat)
    requires Inv(s) && Missing(s.table, page) && Missed(s, s', page, frame, s1, h, n, x)
    ensures Inv(s') <==> KeepsChains(s, h, x)
  {
    MissingIsAbsent(s.table, page);
    if s.freeList != [] {
      LoadFreeKeeps(s, page, x);
    } else {
      OwnEntry(s, frame, h);
      EvictionKeepsIff(s, s1, frame, h, page, x);
    }
  }

  /** A step keeps the pool consistent exactly unless it is a miss that cuts a chain. */
  lemma StepKeepsIff(s: State, e: Event, s': State)
    requires Inv(s) && Step(s, e, s')
    ensures Inv(s') <==> (e.FetchMissEvent? ==> KeepsChains(s, e.h, e.x))
  {
    if e.FetchMissEvent? {
      MissKeepsIff(s, s', e.page, e.frame, e.s1, e.h, e.n, e.x);
    } else {
      BookkeepingKeeps(s, s');
    }
  }

  /** Up to the first eviction the pool is consistent whatever the page ids, collisions included. */
  lemma {:induction false} ConsistentUntilEviction(states: seq<State>, events: seq<Event>, i: nat)
    requires Run(states, events) && i < |states|
    requires forall k | 0 <= k < i && events[k].FetchMissEvent? :: states[k].freeList != []
    ensures Inv(states[i])
  {
    if i > 0 {
      ConsistentUntilEviction(states, events, i - 1);
      assert StepAt(states, events, i - 1);
      StepKeepsIff(states[i - 1], events[i - 1], states[i]);
    }
  }

  predicate SmallIds(t: Table) { forall h | 0 <= h < |t.pages| :: t.pages[h] < |t.pages| }

  lemma SmallIdsStep(s: State, e: Event, s': State)
    requires Inv(s) && AtHome(s.table) && SmallIds(s.table) && Step(s, e, s')
    requires e.FetchMissEvent? ==> e.page < |s.table.pages|
    ensures Inv(s') && AtHome(s'.table) && SmallIds(s'.table)
  {
    StepKeepsIff(s, e, s');
    if e.FetchMissEvent? {
      SmallIdsDoNotCollide(s.table, e.page);
      MissedAtHome(s, s', e.page, e.frame, e.s1, e.h, e.n, e.x);
      SmallIdsKept(s, s', e.page, e.frame, e.s1, e.h, e.n, e.x);
    }
  }

  lemma SmallIdsKept(s: State, s': State, page: nat, frame: nat, s1: State, h: nat, n: nat, x: nat)
    requires SmallIds(s.table) && Missed(s, s', page, frame, s1, h, n, x) && page < |s.table.pages|
    ensures SmallIds(s'.table)
  {
  }

  /** With page ids below the size of the table the pool is consistent through all evictions. */
  lemma {:induction false} ConsistentWithSmallIds(states: seq<State>, events: seq<Event>, i: nat)
    requires Run(states, events) && i < |states|
    requires forall k | 0 <= k < i && events[k].FetchMissEvent? :: events[k].page < |states[k].table.pages|
    ensures Inv(states[i]) && AtHome(states[i].table) && SmallIds(states[i].table)
  {
    if i == 0 {
      forall h | 0 <= h < |states[0].table.pages| ensures states[0].table.pages[h] == NONE {
        assert !Occupied(states[0].table, h);
      }
    } else {
      ConsistentWithSmallIds(states, events, i - 1);
      assert StepAt(states, events, i - 1);
      SmallIdsStep(states[i - 1], events[i - 1], states[i]);
    }
  }

  // ---------------------------------------------------------------------------------------------
  // A run that loses a page
  // ---------------------------------------------------------------------------------------------

  const EMPTY := State([NONE, NONE], [0, 0], [false, false], [false, false],
                       Table([NONE, NONE, NONE], [NONE, NONE, NONE]), [1, 0], 0)
  const WITH_0 := State([NONE, 0], [0, 1], [false, false], [false, true],
                        Table([0, NONE, NONE], [1, NONE, NONE]), [0], 0)
  const WITH_0_AND_3 := State([3, 0], [1, 1], [false, false], [true, true],
                              Table([0, 3, NONE], [1, 0, NONE]), [], 0)
  const EVICTED := State([3, 0], [1, 0], [false, false], [true, false],
                         Table([NONE, 3, NONE], [NONE, 0, NONE]), [], 0)
  const CUT := State([3, 1], [1, 1], [false, false], [true, true],
                     Table([NONE, 3, 1], [NONE, 0, 1]), [], 0)

  lemma FirstFetch()
    ensures Init(EMPTY) && Step(EMPTY, FetchMissEvent(0, 1, EMPTY.(freeList := [0]), 0, 0, 0), WITH_0)
  {
    EmptyPool(EMPTY, 2);
    ProbeEnds(EMPTY.table, 0, 0);
    assert Steps(EMPTY.table, 0, 0) == 0;
    assert Load(EMPTY.(freeList := [0]), 1, 0, 0) == WITH_0;
  }

  lemma SecondFetch()
    ensures Step(WITH_0, FetchMissEvent(3, 0, WITH_0.(freeList := []), 0, 0, 1), WITH_0_AND_3)
  {
    var t := WITH_0.table;
    assert Probe(t, 3, 0) == 0 && Probe(t, 3, 1) == 1 && Steps(t, 3, 1) == 1;
    ProbeEnds(t, 3, 1);
    assert Load(WITH_0.(freeList := []), 0, 3, 1) == WITH_0_AND_3;
  }

  lemma ThirdVictim()
    ensures EvictedFrom(WITH_0_AND_3.(pins := [1, 0]), EVICTED, 1, 0, 3)
  {
    var s := WITH_0_AND_3.(pins := [1, 0]);
    assert Slot(0, 0, 2) == 0 && Slot(0, 1, 2) == 1 && Clockwise(0, 3, 2) == 1;
    assert StopsAfter(s.pins, s.refs, 0, 3) && ClearedUpTo(s.pins, s.refs, 0, 3, EVICTED.refs);
    assert Steps(s.table, 0, 0) == 0 && FirstOf(s.table, 0, 0) && EVICTED.table == Remove(s.table, 0);
  }

  lemma ThirdFetch()
    ensures Step(WITH_0_AND_3.(pins := [1, 0]), FetchMissEvent(1, 1, EVICTED, 0, 3, 2), CUT)
  {
    var s := WITH_0_AND_3.(pins := [1, 0]);
    assert Probe(s.table, 1, 0) == 1 && Probe(s.table, 1, 1) == 2;
    ProbeEnds(s.table, 1, 1);
    ThirdVictim();
    assert Probe(EVICTED.table, 1, 0) == 1 && Steps(EVICTED.table, 1, 2) == 1;
    assert IsInsertSlot(EVICTED.table, 1, 2);
    assert Load(EVICTED, 1, 1, 2) == CUT;
  }

  lemma PageHidden()
    ensures Shaped(CUT) && Missing(CUT.table, 3) && !Inv(CUT)
  {
    assert Probe(CUT.table, 3, 0) == 0;
    ProbeEnds(CUT.table, 3, 0);
    IntactIffFound(CUT.table);
    assert Occupied(CUT.table, 1) && !Found(CUT.table, 3, 1);
  }

  /** A hole loses a page.  With two frames and three slots: fetch pages 0 and 3, which have the same home,
      unpin 0, fetch 1.  Page 3 is still in its frame and in the table, and a lookup does not find it. */
  lemma HoleLosesAPage() returns (states: seq<State>, events: seq<Event>)
    ensures Run(states, events) && |events| == 4
    ensures Inv(states[3]) && !Inv(states[4])
    ensures Shaped(states[4]) && states[4].pageIds[0] == 3
    ensures states[4].table.pages[1] == 3 && Missing(states[4].table, 3)
  {
    states := [EMPTY, WITH_0, WITH_0_AND_3, WITH_0_AND_3.(pins := [1, 0]), CUT];
    events := [FetchMissEvent(0, 1, EMPTY.(freeList := [0]), 0, 0, 0),
               FetchMissEvent(3, 0, WITH_0.(freeList := []), 0, 0, 1),
               UnpinEvent(0, 0, 1),
               FetchMissEvent(1, 1, EVICTED, 0, 3, 2)];
    FirstFetch();
    SecondFetch();
    ThirdFetch();
    assert Run(states, events);
    ConsistentUntilEviction(states, events, 3);
    PageHidden();
  }

  // ---------------------------------------------------------------------------------------------
  // A run that returns the frame of another page
  // ---------------------------------------------------------------------------------------------

  const CLEAN := [false, false, false]

  // Three frames and four slots: CALL_n is the pool after n calls, TAKEN_n the pool inside call n, after the
  // removal of the victim's page from the table.
  const CALL_0 := State([NONE, NONE, NONE], [0, 0, 0], CLEAN, [false, false, false],
                        Table([NONE, NONE, NONE, NONE], [NONE, NONE, NONE, NONE]), [2, 1, 0], 0)
  const CALL_1 := State([NONE, NONE, 0], [0, 0, 1], CLEAN, [false, false, true],
                        Table([0, NONE, NONE, NONE], [2, NONE, NONE, NONE]), [1, 0], 0)
  const CALL_3 := State([NONE, 1, 0], [0, 1, 0], CLEAN, [false, true, true],
                        Table([0, 1, NONE, NONE], [2, 1, NONE, NONE]), [0], 0)
  const CALL_5 := State([4, 1, 0], [1, 0, 0], CLEAN, [true, true, true],
                        Table([0, 1, 4, NONE], [2, 1, 0, NONE]), [], 0)
  const TAKEN_6 := State([4, 1, 0], [1, 0, 0], CLEAN, [true, false, false],
                         Table([0, NONE, 4, NONE], [2, NONE, 0, NONE]), [], 2)
  const CALL_6 := State([4, 8, 0], [1, 1, 0], CLEAN, [true, true, false],
                        Table([0, 8, 4, NONE], [2, 1, 0, NONE]), [], 2)
  const TAKEN_9 := State([4, 8, 0], [0, 0, 0], CLEAN, [true, true, false],
                         Table([NONE, 8, 4, NONE], [NONE, 1, 0, NONE]), [], 0)
  const CALL_9 := State([4, 8, 1], [0, 0, 1], CLEAN, [true, true, true],
                        Table([NONE, 8, 4, 1], [NONE, 1, 0, 2]), [], 0)
  const TAKEN_10 := State([4, 8, 1], [0, 0, 1], CLEAN, [false, false, true],
                          Table([NONE, 8, NONE, 1], [NONE, 1, NONE, 2]), [], 1)
  const CALL_10 := State([8, 8, 1], [1, 0, 1], CLEAN, [true, false, true],
                         Table([8, 8, NONE, 1], [0, 1, NONE, 2]), [], 1)
  const TAKEN_11 := State([8, 8, 1], [1, 0, 1], CLEAN, [true, false, true],
                          Table([NONE, 8, NONE, 1], [NONE, 1, NONE, 2]), [], 2)
  const CALL_11 := State([8, 0, 1], [1, 1, 1], CLEAN, [true, true, true],
                         Table([0, 8, NONE, 1], [1, 1, NONE, 2]), [], 2)

  lemma Fetch1()
    ensures Init(CALL_0) && Step(CALL_0, FetchMissEvent(0, 2, CALL_0.(freeList := [1, 0]), 0, 0, 0), CALL_1)
  {
    EmptyPool(CALL_0, 3);
    var s := CALL_0;
    assert Probe(s.table, 0, 0) == 0;
    assert Steps(s.table, 0, 0) == 0;
    ProbeEnds(s.table, 0, 0);
    assert Load(s.(freeList := [1, 0]), 2, 0, 0) == CALL_1;
  }

  lemma Fetch3()
    ensures Step(Unpin(CALL_1, 2), FetchMissEvent(1, 1, Unpin(CALL_1, 2).(freeList := [0]), 0, 0, 1), CALL_3)
  {
    var s := Unpin(CALL_1, 2);
    assert Probe(s.table, 1, 0) == 1;
    assert Steps(s.table, 1, 1) == 0;
    ProbeEnds(s.table, 1, 0);
    assert Load(s.(freeList := [0]), 1, 1, 1) == CALL_3;
  }

  lemma Fetch5()
    ensures Step(Unpin(CALL_3, 1), FetchMissEvent(4, 0, Unpin(CALL_3, 1).(freeList := []), 0, 0, 2), CALL_5)
  {
    var s := Unpin(CALL_3, 1);
    assert Probe(s.table, 4, 0) == 0 && Probe(s.table, 4, 1) == 1 && Probe(s.table, 4, 2) == 2;
    assert Steps(s.table, 4, 2) == 2;
    ProbeEnds(s.table, 4, 2);
    assert Load(s.(freeList := []), 0, 4, 2) == CALL_5;
  }

  lemma Victim6()
    ensures EvictedFrom(CALL_5, TAKEN_6, 1, 1, 4)
  {
    var s := CALL_5;
    assert Slot(0, 0, 3) == 0 && Slot(0, 1, 3) == 1 && Slot(0, 2, 3) == 2 && Clockwise(0, 4, 3) == 1;
    assert StopsAfter(s.pins, s.refs, 0, 4) && ClearedUpTo(s.pins, s.refs, 0, 4, TAKEN_6.refs);
    assert Steps(s.table, 1, 1) == 0;
    assert FirstOf(s.table, 1, 1) && TAKEN_6.table == Remove(s.table, 1);
  }

  lemma Fetch6()
    ensures Step(CALL_5, FetchMissEvent(8, 1, TAKEN_6, 1, 4, 1), CALL_6)
  {
    var s := CALL_5;
    assert Probe(s.table, 8, 0) == 0 && Probe(s.table, 8, 1) == 1 && Probe(s.table, 8, 2) == 2;
    assert Probe(s.table, 8, 3) == 3;
    ProbeEnds(s.table, 8, 3);
    Victim6();
    assert Probe(TAKEN_6.table, 8, 0) == 0 && Steps(TAKEN_6.table, 8, 1) == 1;
    assert IsInsertSlot(TAKEN_6.table, 8, 1) && Load(TAKEN_6, 1, 8, 1) == CALL_6;
  }

  lemma Victim9()
    ensures EvictedFrom(Unpin(Unpin(CALL_6, 0), 1), TAKEN_9, 2, 0, 0)
  {
    var s := Unpin(Unpin(CALL_6, 0), 1);
    assert Slot(2, 0, 3) == 2 && Slot(2, 1, 3) == 0 && Slot(2, 2, 3) == 1 && Clockwise(2, 0, 3) == 2;
    assert StopsAfter(s.pins, s.refs, 2, 0) && ClearedUpTo(s.pins, s.refs, 2, 0, TAKEN_9.refs);
    assert Steps(s.table, 0, 0) == 0;
    assert FirstOf(s.table, 0, 0) && TAKEN_9.table == Remove(s.table, 0);
  }

  lemma Fetch9()
    ensures Step(Unpin(Unpin(CALL_6, 0), 1), FetchMissEvent(1, 2, TAKEN_9, 0, 0, 3), CALL_9)
  {
    var s := Unpin(Unpin(CALL_6, 0), 1);
    assert Probe(s.table, 1, 0) == 1 && Probe(s.table, 1, 1) == 2 && Probe(s.table, 1, 2) == 3;
    ProbeEnds(s.table, 1, 2);
    Victim9();
    assert Probe(TAKEN_9.table, 1, 0) == 1 && Probe(TAKEN_9.table, 1, 1) == 2 && Steps(TAKEN_9.table, 1, 3) == 2;
    assert IsInsertSlot(TAKEN_9.table, 1, 3) && Load(TAKEN_9, 2, 1, 3) == CALL_9;
  }

  lemma Victim10()
    ensures EvictedFrom(CALL_9, TAKEN_10, 0, 2, 3)
  {
    var s := CALL_9;
    assert Slot(0, 0, 3) == 0 && Slot(0, 1, 3) == 1 && Slot(0, 2, 3) == 2 && Clockwise(0, 3, 3) == 0;
    assert StopsAfter(s.pins, s.refs, 0, 3) && ClearedUpTo(s.pins, s.refs, 0, 3, TAKEN_10.refs);
    assert Probe(s.table, 4, 0) == 0 && Probe(s.table, 4, 1) == 1 && Steps(s.table, 4, 2) == 2;
    assert FirstOf(s.table, 4, 2) && TAKEN_10.table == Remove(s.table, 2);
  }

  lemma Fetch10()
    ensures Step(CALL_9, FetchMissEvent(8, 0, TAKEN_10, 2, 3, 0), CALL_10)
  {
    var s := CALL_9;
    assert Probe(s.table, 8, 0) == 0;
    ProbeEnds(s.table, 8, 0);
    Victim10();
    assert Steps(TAKEN_10.table, 8, 0) == 0;
    assert IsInsertSlot(TAKEN_10.table, 8, 0) && Load(TAKEN_10, 0, 8, 0) == CALL_10;
  }

  lemma Victim11()
    ensures EvictedFrom(CALL_10, TAKEN_11, 1, 0, 0)
  {
    var s := CALL_10;
    assert Slot(1, 0, 3) == 1 && Slot(1, 1, 3) == 2 && Slot(1, 2, 3) == 0 && Clockwise(1, 0, 3) == 1;
    assert StopsAfter(s.pins, s.refs, 1, 0) && ClearedUpTo(s.pins, s.refs, 1, 0, TAKEN_11.refs);
    assert Steps(s.table, 8, 0) == 0;
    assert FirstOf(s.table, 8, 0) && TAKEN_11.table == Remove(s.table, 0);
  }

  lemma Fetch11()
    ensures Step(CALL_10, FetchMissEvent(0, 1, TAKEN_11, 0, 0, 0), CALL_11)
  {
    var s := CALL_10;
    assert Probe(s.table, 0, 0) == 0 && Probe(s.table, 0, 1) == 1 && Probe(s.table, 0, 2) == 2;
    ProbeEnds(s.table, 0, 2);
    Victim11();
    assert Steps(TAKEN_11.table, 0, 0) == 0;
    assert IsInsertSlot(TAKEN_11.table, 0, 0) && Load(TAKEN_11, 1, 0, 0) == CALL_11;
  }

  lemma Unpin2()
    ensures Step(CALL_1, UnpinEvent(0, 0, 2), Unpin(CALL_1, 2))
  {
    var s := CALL_1;
    assert Steps(s.table, 0, 0) == 0;
    assert Found(s.table, 0, 0);
  }

  lemma Unpin4()
    ensures Step(CALL_3, UnpinEvent(1, 1, 1), Unpin(CALL_3, 1))
  {
    var s := CALL_3;
    assert Steps(s.table, 1, 1) == 0;
    assert Found(s.table, 1, 1);
  }

  lemma Unpin7()
    ensures Step(CALL_6, UnpinEvent(4, 2, 0), Unpin(CALL_6, 0))
  {
    var s := CALL_6;
    assert Probe(s.table, 4, 0) == 0 && Probe(s.table, 4, 1) == 1 && Steps(s.table, 4, 2) == 2;
    assert Found(s.table, 4, 2);
  }

  lemma Unpin8()
    ensures Step(Unpin(CALL_6, 0), UnpinEvent(8, 1, 1), Unpin(Unpin(CALL_6, 0), 1))
  {
    var s := Unpin(CALL_6, 0);
    assert Probe(s.table, 8, 0) == 0 && Steps(s.table, 8, 1) == 1;
    assert Found(s.table, 8, 1);
  }

  lemma FirstStep(s: State, e: Event, s': State) returns (states: seq<State>, events: seq<Event>)
    requires Init(s) && Step(s, e, s')
    ensures Run(states, events) && |events| == 1 && states[1] == s'
    ensures Own(s') <==> (e.FetchMissEvent? ==> TakesOwnEntry(s, e.frame, e.h))
  {
    states, events := [s, s'], [e];
    ConsistentIsOwn(s);
    StepKeepsOwnIff(s, e, s');
  }

  lemma NextStep(states: seq<State>, events: seq<Event>, e: Event, s': State)
    returns (states': seq<State>, events': seq<Event>)
    requires Run(states, events) && Step(states[|events|], e, s')
    ensures Run(states', events') && |events'| == |events| + 1 && events'[|events|] == e
    ensures states'[|events|] == states[|events|] && states'[|events| + 1] == s'
    ensures Own(states[|events|]) ==>
      (Own(s') <==> (e.FetchMissEvent? ==> TakesOwnEntry(states[|events|], e.frame, e.h)))
  {
    states', events' := states + [s'], events + [e];
    forall i: nat | i < |events'| ensures StepAt(states', events', i) {
      assert i < |events| ==> StepAt(states, events, i);
    }
    if Own(states[|events|]) {
      StepKeepsOwnIff(states[|events|], e, s');
    }
  }

  lemma ThreePagesLoaded() returns (states: seq<State>, events: seq<Event>)
    ensures Run(states, events) && |events| == 5 && states[5] == CALL_5 && Own(CALL_5)
  {
    Fetch1();
    states, events := FirstStep(CALL_0, FetchMissEvent(0, 2, CALL_0.(freeList := [1, 0]), 0, 0, 0), CALL_1);
    Unpin2();
    states, events := NextStep(states, events, UnpinEvent(0, 0, 2), Unpin(CALL_1, 2));
    Fetch3();
    states, events := NextStep(states, events,
      FetchMissEvent(1, 1, Unpin(CALL_1, 2).(freeList := [0]), 0, 0, 1), CALL_3);
    Unpin4();
    states, events := NextStep(states, events, UnpinEvent(1, 1, 1), Unpin(CALL_3, 1));
    Fetch5();
    states, events := NextStep(states, events,
      FetchMissEvent(4, 0, Unpin(CALL_3, 1).(freeList := []), 0, 0, 2), CALL_5);
  }

  lemma PageInTwoFrames() returns (states: seq<State>, events: seq<Event>)
    ensures Run(states, events) && |events| == 10 && states[10] == CALL_10 && Own(CALL_10)
  {
    states, events := ThreePagesLoaded();
    Fetch6();
    states, events := NextStep(states, events, FetchMissEvent(8, 1, TAKEN_6, 1, 4, 1), CALL_6);
    Unpin7();
    states, events := NextStep(states, events, UnpinEvent(4, 2, 0), Unpin(CALL_6, 0));
    Unpin8();
    states, events := NextStep(states, events, UnpinEvent(8, 1, 1), Unpin(Unpin(CALL_6, 0), 1));
    Fetch9();
    states, events := NextStep(states, events, FetchMissEvent(1, 2, TAKEN_9, 0, 0, 3), CALL_9);
    Fetch10();
    states, events := NextStep(states, events, FetchMissEvent(8, 0, TAKEN_10, 2, 3, 0), CALL_10);
  }

  lemma Hit12()
    ensures Step(CALL_11, FetchHitEvent(8, 1, 1), Hit(CALL_11, 1))
    ensures |Hit(CALL_11, 1).pageIds| == 3 && Hit(CALL_11, 1).pageIds[1] == 0
  {
    assert Probe(CALL_11.table, 8, 0) == 0 && Steps(CALL_11.table, 8, 1) == 1;
  }

  /** An entry of a page that is in two frames is taken out for the wrong one, and from then on a fetch returns
      the frame of another page.  Pages 0, 4 and 8 have the same home.  Fetch 0, unpin 0, fetch 1, unpin 1, fetch 4,
      fetch 8, unpin 4, unpin 8, fetch 1, fetch 8 again, which a hole hides, into a second frame, and fetch 0: its
      victim is frame 1, and the entry that goes is frame 0's.  The next fetch of 8 returns frame 1, which holds 0. */
  lemma WrongFrameReturned() returns (states: seq<State>, events: seq<Event>)
    ensures Run(states, events) && |events| == 12
    ensures Fetches(events[11], 8, 1) && |states[12].pageIds| == 3 && states[12].pageIds[1] == 0
    ensures !Own(states[11])
  {
    states, events := PageInTwoFrames();
    Fetch11();
    states, events := NextStep(states, events, FetchMissEvent(0, 1, TAKEN_11, 0, 0, 0), CALL_11);
    Hit12();
    states, events := NextStep(states, events, FetchHitEvent(8, 1, 1), Hit(CALL_11, 1));
  }
}
